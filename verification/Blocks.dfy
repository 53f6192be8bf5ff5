/** Nested managed transaction blocks, as programs: what running them with savepoints does to a
    database session, and what the all-or-nothing reading of the blocks says they should do. */
module Blocks {
  import opened Common
  import opened Sessions

  type Error = int

  datatype NestMode = Reuse | Savepoint | Separate

  /** A transaction callback. `Nested` opens a managed block inside it; `catches` says whether the callback
      goes on when that block fails. */
  datatype Body =
    | Return
    | Throw(error: Error)
    | Write(w: Write, rest: Body)
    | Nested(mode: NestMode, inner: Body, catches: bool, rest: Body)

  /** The error a callback ends with, if any. */
  function Outcome(b: Body): Option<Error>
    decreases b, 0
  {
    match b
    case Return => None
    case Throw(e) => Some(e)
    case Write(_, rest) => Outcome(rest)
    case Nested(_, inner, catches, rest) =>
      if GoesOn(inner, catches) then Outcome(rest) else Outcome(inner)
  }

  predicate GoesOn(inner: Body, catches: bool)
    decreases inner, 1
  {
    Outcome(inner).None? || catches
  }

  /** The number of savepoints the current transaction has had once `b` has run, from `n`. The name of a
      savepoint is the number its parent had before it. */
  function Next(b: Body, n: nat): (n': nat)
    ensures n <= n'
    decreases b, 0
  {
    match b
    case Return => n
    case Throw(_) => n
    case Write(_, rest) => Next(rest, n)
    case Nested(mode, inner, catches, rest) =>
      var n1 := NextNested(mode, inner, n);
      if GoesOn(inner, catches) then Next(rest, n1) else n1
  }

  function NextNested(mode: NestMode, inner: Body, n: nat): (n': nat)
    ensures n <= n'
    decreases inner, 1
  {
    match mode
    case Reuse => Next(inner, n)
    case Savepoint => n + 1
    case Separate => n
  }

  /** Every savepoint name the session sees while `b` runs. */
  function Created(b: Body, n: nat): set<nat>
    decreases b, 0
  {
    match b
    case Return => {}
    case Throw(_) => {}
    case Write(_, rest) => Created(rest, n)
    case Nested(mode, inner, catches, rest) =>
      CreatedNested(mode, inner, n) +
      if GoesOn(inner, catches) then Created(rest, NextNested(mode, inner, n)) else {}
  }

  function CreatedNested(mode: NestMode, inner: Body, n: nat): set<nat>
    decreases inner, 1
  {
    match mode
    case Reuse => Created(inner, n)
    case Savepoint => {n} + Created(inner, 0)
    case Separate => {}
  }

  /** The session afterwards, and the writes committed meanwhile through other connections. */
  datatype Run = Run(session: Session, committed: seq<Write>)

  /** Running `b` in a session, in a transaction that has had `n` savepoints. */
  function Exec(b: Body, n: nat, s: Session): Run
    decreases b, 0
  {
    match b
    case Return => Run(s, [])
    case Throw(_) => Run(s, [])
    case Write(w, rest) => Exec(rest, n, s.(log := s.log + [w]))
    case Nested(mode, inner, catches, rest) =>
      var r := ExecNested(mode, inner, n, s);
      if GoesOn(inner, catches) then
        var q := Exec(rest, NextNested(mode, inner, n), r.session);
        Run(q.session, r.committed + q.committed)
      else r
  }

  function ExecNested(mode: NestMode, inner: Body, n: nat, s: Session): Run
    decreases inner, 1
  {
    match mode
    case Reuse => Exec(inner, n, s)
    case Savepoint =>
      var r := Exec(inner, 0, Establish(s, n));
      if Outcome(inner).Some? then Run(Undo(r.session, n), r.committed) else r
    case Separate =>
      var r := Exec(inner, 0, FRESH);
      Run(s, r.committed + if Outcome(inner).None? then r.session.log else [])
  }

  /** What the blocks promise: the writes of `b` that are kept, and those committed separately. */
  datatype Effect = Effect(kept: seq<Write>, committed: seq<Write>)

  function AllOrNothing(b: Body): Effect
    decreases b, 0
  {
    match b
    case Return => Effect([], [])
    case Throw(_) => Effect([], [])
    case Write(w, rest) => var e := AllOrNothing(rest); Effect([w] + e.kept, e.committed)
    case Nested(mode, inner, catches, rest) =>
      var e := AllOrNothingNested(mode, inner);
      if GoesOn(inner, catches) then
        var f := AllOrNothing(rest);
        Effect(e.kept + f.kept, e.committed + f.committed)
      else e
  }

  function AllOrNothingNested(mode: NestMode, inner: Body): Effect
    decreases inner, 1
  {
    var e := AllOrNothing(inner);
    var all := if Outcome(inner).None? then e.kept else [];
    match mode
    case Reuse => e
    case Savepoint => Effect(all, e.committed)
    case Separate => Effect([], e.committed + all)
  }

  /** No failing savepoint block whose rollback counts has a savepoint of its own name created inside it.
      `counts` is false inside a block that an enclosing rollback undoes anyway. */
  predicate NamesSafe(b: Body, n: nat, counts: bool)
    decreases b, 0
  {
    match b
    case Return => true
    case Throw(_) => true
    case Write(_, rest) => NamesSafe(rest, n, counts)
    case Nested(mode, inner, catches, rest) =>
      NamesSafeNested(mode, inner, n, counts) &&
      (GoesOn(inner, catches) ==> NamesSafe(rest, NextNested(mode, inner, n), counts))
  }

  predicate NamesSafeNested(mode: NestMode, inner: Body, n: nat, counts: bool)
    decreases inner, 1
  {
    match mode
    case Reuse => NamesSafe(inner, n, counts)
    case Savepoint =>
      if Outcome(inner).Some?
      then (counts ==> n !in Created(inner, 0)) && NamesSafe(inner, 0, false)
      else NamesSafe(inner, 0, counts)
    case Separate => NamesSafe(inner, 0, Outcome(inner).None?)
  }

  // ----- what a run does to the savepoint stack -----

  lemma {:induction false} RunGrows(b: Body, n: nat, s: Session)
    ensures s.log <= Exec(b, n, s).session.log
    ensures Grown(s.marks, Created(b, n), s.log, Exec(b, n, s).session.marks)
    decreases b, 0
  {
    match b
    case Return => WithoutNothing(s.marks);
    case Throw(_) => WithoutNothing(s.marks);
    case Write(w, rest) => RunGrows(rest, n, s.(log := s.log + [w]));
    case Nested(mode, inner, catches, rest) =>
      RunNestedGrows(mode, inner, n, s);
      if GoesOn(inner, catches) {
        var r, n1 := ExecNested(mode, inner, n, s), NextNested(mode, inner, n);
        RunGrows(rest, n1, r.session);
        var q := Exec(rest, n1, r.session);
        GrownTrans(s.marks, CreatedNested(mode, inner, n), s.log, r.session.marks,
                   Created(rest, n1), r.session.log, q.session.marks);
      } else {
        assert Created(b, n) == CreatedNested(mode, inner, n);
      }
  }

  lemma {:induction false} RunNestedGrows(mode: NestMode, inner: Body, n: nat, s: Session)
    ensures s.log <= ExecNested(mode, inner, n, s).session.log
    ensures Grown(s.marks, CreatedNested(mode, inner, n), s.log, ExecNested(mode, inner, n, s).session.marks)
    decreases inner, 1
  {
    match mode
    case Reuse => RunGrows(inner, n, s);
    case Separate => WithoutNothing(s.marks);
    case Savepoint =>
      var end := Exec(inner, 0, Establish(s, n)).session;
      assert ExecNested(mode, inner, n, s).session in {end, Undo(end, n)};
      assert CreatedNested(mode, inner, n) == {n} + Created(inner, 0);
      hide Exec, ExecNested, Created, CreatedNested, Undo, Grown;
      RunGrows(inner, 0, Establish(s, n));
      SavepointGrows(s, n, Created(inner, 0), end);
  }

  lemma {:induction false} SavepointGrows(s: Session, n: nat, names: set<nat>, end: Session)
    requires s.log <= end.log && Grown(Establish(s, n).marks, names, s.log, end.marks)
    ensures Grown(s.marks, {n} + names, s.log, end.marks)
    ensures Grown(s.marks, {n} + names, s.log, Undo(end, n).marks) && s.log <= Undo(end, n).log
  {
    GrownTrans(s.marks, {n}, s.log, Establish(s, n).marks, names, s.log, end.marks);
    UndoStaysGrown(s.marks, {n} + names, s.log, end, n);
  }

  lemma {:induction false} UndoStaysGrown(base: seq<Mark>, names: set<nat>, log: seq<Write>, s: Session, n: nat)
    requires Grown(base, names, log, s.marks) && log <= s.log && n in names
    ensures Grown(base, names, log, Undo(s, n).marks) && log <= Undo(s, n).log
  {
  }

  // ----- safe names: the run keeps the promise -----

  lemma {:induction false} SafeRun(b: Body, n: nat, s: Session, counts: bool)
    requires NamesSafe(b, n, counts)
    ensures Exec(b, n, s).committed == AllOrNothing(b).committed
    ensures counts ==> Exec(b, n, s).session.log == s.log + AllOrNothing(b).kept
    decreases b, 0
  {
    match b
    case Return =>
    case Throw(_) =>
    case Write(w, rest) => SafeRun(rest, n, s.(log := s.log + [w]), counts);
    case Nested(mode, inner, catches, rest) =>
      SafeRunNested(mode, inner, n, s, counts);
      if GoesOn(inner, catches) {
        SafeRun(rest, NextNested(mode, inner, n), ExecNested(mode, inner, n, s).session, counts);
      }
  }

  lemma {:induction false} SafeRunNested(mode: NestMode, inner: Body, n: nat, s: Session, counts: bool)
    requires NamesSafeNested(mode, inner, n, counts)
    ensures ExecNested(mode, inner, n, s).committed == AllOrNothingNested(mode, inner).committed
    ensures counts ==> ExecNested(mode, inner, n, s).session.log == s.log + AllOrNothingNested(mode, inner).kept
    decreases inner, 1
  {
    var failed := Outcome(inner).Some?;
    match mode
    case Reuse => SafeRun(inner, n, s, counts);
    case Separate => SafeRun(inner, 0, FRESH, !failed);
    case Savepoint =>
      var s1 := Establish(s, n);
      SafeRun(inner, 0, s1, counts && !failed);
      if failed && counts {
        RunGrows(inner, 0, s1);
        UndoRestores(s, n, Created(inner, 0), Exec(inner, 0, s1).session);
      }
  }

  // ----- unsafe names: some choice of writes breaks the promise -----

  /** The nesting of a callback: everything but its writes. */
  function Skeleton(b: Body): Body {
    match b
    case Return => b
    case Throw(_) => b
    case Write(_, rest) => Skeleton(rest)
    case Nested(mode, inner, catches, rest) => Nested(mode, Skeleton(inner), catches, Skeleton(rest))
  }

  /** The same nesting with a write before every step. */
  function Filled(b: Body): Body {
    match b
    case Return => Write(0, b)
    case Throw(_) => Write(0, b)
    case Write(_, rest) => Filled(rest)
    case Nested(mode, inner, catches, rest) => Write(0, Nested(mode, Filled(inner), catches, Filled(rest)))
  }

  lemma {:induction false} FilledSkeleton(b: Body)
    ensures Skeleton(Filled(b)) == Skeleton(b)
  {
    match b
    case Return =>
    case Throw(_) =>
    case Write(_, rest) => FilledSkeleton(rest);
    case Nested(_, inner, _, rest) => FilledSkeleton(inner); FilledSkeleton(rest);
  }

  /** Outcome, names and safety are settled by the nesting alone. */
  lemma {:induction false} SkeletonDecides(b: Body, n: nat, counts: bool)
    ensures Outcome(b) == Outcome(Skeleton(b))
    ensures Next(b, n) == Next(Skeleton(b), n)
    ensures Created(b, n) == Created(Skeleton(b), n)
    ensures NamesSafe(b, n, counts) == NamesSafe(Skeleton(b), n, counts)
  {
    match b
    case Return =>
    case Throw(_) =>
    case Write(_, rest) => SkeletonDecides(rest, n, counts);
    case Nested(mode, inner, catches, rest) =>
      SkeletonDecides(inner, n, counts);
      SkeletonDecides(inner, 0, counts);
      SkeletonDecides(inner, 0, false);
      SkeletonDecides(inner, 0, Outcome(inner).None?);
      SkeletonDecides(rest, NextNested(mode, inner, n), counts);
  }

  /** The run never keeps fewer writes than promised, and keeps too many somewhere when names clash. */
  lemma {:induction false} FilledRun(q: Body, n: nat, s: Session, counts: bool)
    ensures var b := Filled(q); var r, e := Exec(b, n, s), AllOrNothing(b);
            && |e.committed| <= |r.committed|
            && |s.log| < |r.session.log| && |s.log| + |e.kept| <= |r.session.log|
            && (!NamesSafe(b, n, counts) ==>
                  |e.committed| < |r.committed| || (counts && |s.log| + |e.kept| < |r.session.log|))
    decreases q, 0
  {
    match q
    case Return =>
      assert Exec(q, n, s.(log := s.log + [0])) == Run(s.(log := s.log + [0]), []);
    case Throw(_) =>
      assert Exec(q, n, s.(log := s.log + [0])) == Run(s.(log := s.log + [0]), []);
      assert NamesSafe(q, n, counts) && AllOrNothing(q) == Effect([], []);
    case Write(_, rest) => FilledRun(rest, n, s, counts);
    case Nested(mode, inner, catches, rest) =>
      var s1 := s.(log := s.log + [0]);
      FilledRunNested(mode, inner, n, s1, counts);
      var i, t := Filled(inner), Filled(rest);
      var step := Nested(mode, i, catches, t);
      RunNestedGrows(mode, i, n, s1);
      assert Filled(q) == Write(0, step);
      assert NamesSafe(Filled(q), n, counts) == NamesSafe(step, n, counts);
      if GoesOn(i, catches) {
        FilledRun(rest, NextNested(mode, i, n), ExecNested(mode, i, n, s1).session, counts);
      }
  }

  lemma {:induction false} FilledRunNested(mode: NestMode, inner: Body, n: nat, s: Session, counts: bool)
    ensures var i := Filled(inner); var r, e := ExecNested(mode, i, n, s), AllOrNothingNested(mode, i);
            && |e.committed| <= |r.committed| && |s.log| + |e.kept| <= |r.session.log|
            && (!NamesSafeNested(mode, i, n, counts) ==>
                  |e.committed| < |r.committed| || (counts && |s.log| + |e.kept| < |r.session.log|))
    decreases inner, 1
  {
    var i := Filled(inner);
    var failed := Outcome(i).Some?;
    match mode
    case Reuse => FilledRun(inner, n, s, counts);
    case Separate => FilledRun(inner, 0, FRESH, !failed);
    case Savepoint =>
      FilledRun(inner, 0, Establish(s, n), counts && !failed);
      if failed {
        RunNestedGrows(mode, i, n, s);
        if n in Created(i, 0) { ClashKeepsAWrite(inner, n, s); }
      }
  }

  /** After the first write of a block, the block's own rollback goes no further back than that write,
      once its name has been used again. */
  lemma {:induction false} ClashKeepsAWrite(inner: Body, n: nat, s: Session)
    requires n in Created(Filled(inner), 0)
    ensures |s.log| < |Undo(Exec(Filled(inner), 0, Establish(s, n)).session, n).log|
  {
    var s1 := Establish(s, n);
    var s2 := s1.(log := s.log + [0]);
    var i := FirstFilled(inner);
    RunGrows(i.rest, 0, s2);
    var end := Exec(i, 0, s1).session;
    assert end == Exec(i.rest, 0, s2).session;
    UndoStaysGrown(s1.marks, Created(i, 0), s2.log, end, n);
  }

  lemma {:induction false} FirstFilled(q: Body) returns (b: Body)
    ensures b == Filled(q) && b.Write? && b.w == 0
  {
    b := Filled(q);
    match q
    case Return =>
    case Throw(_) =>
    case Write(_, rest) => var _ := FirstFilled(rest);
    case Nested(_, _, _, _) =>
  }

  // ----- main results -----

  /** What a root block commits, through its own connection and others, in order. */
  function RootRun(b: Body): seq<Write> {
    ExecNested(Separate, b, 0, FRESH).committed
  }

  function RootPromise(b: Body): seq<Write> {
    AllOrNothingNested(Separate, b).committed
  }

  /** A root block commits exactly the writes of its successful blocks, whatever those writes are, if and
      only if no failing savepoint block that counts has its own name used again inside it. */
  lemma {:induction false} RootIsAllOrNothing(b: Body)
    ensures NamesSafeNested(Separate, b, 0, true) <==>
            forall b' :: Skeleton(b') == Skeleton(b) ==> RootRun(b') == RootPromise(b')
  {
    var counts := Outcome(b).None?;
    SkeletonDecides(b, 0, counts);
    if NamesSafe(b, 0, counts) {
      forall b' | Skeleton(b') == Skeleton(b) ensures RootRun(b') == RootPromise(b') {
        SkeletonDecides(b', 0, counts);
        SafeRunNested(Separate, b', 0, FRESH, true);
      }
    } else {
      var f := Filled(b);
      FilledSkeleton(b);
      SkeletonDecides(f, 0, counts);
      FilledRunNested(Separate, b, 0, FRESH, true);
      assert RootRun(f) != RootPromise(f);
    }
  }

  /** No savepoint block that can be reached is opened directly or through reused blocks inside another. The first one
      there would be named 0, and so is the outer block or an older one next to it. */
  predicate OneLevel(b: Body, inSavepoint: bool) {
    match b
    case Return => true
    case Throw(_) => true
    case Write(_, rest) => OneLevel(rest, inSavepoint)
    case Nested(mode, inner, catches, rest) =>
      && (GoesOn(inner, catches) ==> OneLevel(rest, inSavepoint))
      && match mode
         case Reuse => OneLevel(inner, inSavepoint)
         case Savepoint => !inSavepoint && OneLevel(inner, true)
         case Separate => OneLevel(inner, false)
  }

  lemma {:induction false} OneLevelNames(b: Body, n: nat, inSavepoint: bool, counts: bool)
    requires OneLevel(b, inSavepoint)
    ensures NamesSafe(b, n, counts)
    ensures inSavepoint ==> Created(b, n) == {}
  {
    match b
    case Return =>
    case Throw(_) =>
    case Write(_, rest) => OneLevelNames(rest, n, inSavepoint, counts);
    case Nested(mode, inner, catches, rest) =>
      if GoesOn(inner, catches) { OneLevelNames(rest, NextNested(mode, inner, n), inSavepoint, counts); }
      match mode {
        case Reuse => OneLevelNames(inner, n, inSavepoint, counts);
        case Savepoint =>
          OneLevelNames(inner, 0, true, counts);
          OneLevelNames(inner, 0, true, false);
        case Separate => OneLevelNames(inner, 0, false, Outcome(inner).None?);
      }
  }

  /** With one level of savepoints, every root block is all-or-nothing. */
  lemma {:induction false} OneLevelIsAllOrNothing(b: Body)
    requires OneLevel(b, false)
    ensures RootRun(b) == RootPromise(b)
  {
    OneLevelNames(b, 0, false, Outcome(b).None?);
    RootIsAllOrNothing(b);
  }

  /** A first savepoint inside a first savepoint takes its name, so the outer rollback keeps write 1. */
  lemma {:induction false} FirstOfFirstBreaks()
    ensures var inner := Nested(Savepoint, Write(2, Return), false, Throw(7));
            var b := Nested(Savepoint, Write(1, inner), true, Return);
            RootPromise(b) == [] && RootRun(b) == [1]
  {
    var inner := Nested(Savepoint, Write(2, Return), false, Throw(7));
    var block := Write(1, inner);
    assert Outcome(block) == Outcome(inner) == Outcome(inner.rest);
    InnerRestartsName();
    var s1, end := Establish(FRESH, 0), Session([1, 2], [Mark(0, [1])]);
    assert s1.(log := s1.log + [1]) == Session([1], s1.marks);
    assert Exec(block, 0, s1) == Run(end, []);
    assert Undo(end, 0) == Session([1], [Mark(0, [1])]);
  }

  lemma {:induction false} InnerRestartsName()
    ensures var inner := Nested(Savepoint, Write(2, Return), false, Throw(7));
            Exec(inner, 0, Session([1], Establish(FRESH, 0).marks)) == Run(Session([1, 2], [Mark(0, [1])]), [])
  {
  }
}
