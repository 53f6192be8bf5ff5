/** What a run of nested blocks may come to when statements, hooks, connections and commits fail. */
module FaultyRuns {
  import opened Common
  import opened Sessions
  import opened Connections
  import opened Blocks
  import opened Transactions

  // ----- the runs that faults leave possible -----

  /** A callback may end with `error` after keeping the writes `kept` in its own transaction and committing `others`
      through other connections. A write that fails is not kept, and ends the callback unless it catches the error. */
  ghost predicate Possible(b: Body, kept: seq<Write>, others: seq<Write>, error: Option<Error>)
    decreases b, 0
  {
    match b
    case Return => kept == [] && others == [] && error == None
    case Throw(e) => kept == [] && others == [] && error == Some(e)
    case Write(w, rest) =>
      || (kept != [] && kept[0] == w && Possible(rest, kept[1..], others, error))
      || Possible(rest, kept, others, error)
      || (kept == [] && others == [] && error.Some?)
    case Nested(mode, inner, catches, rest) =>
      exists k1, o1, e1, k2, o2 ::
        && PossibleBlock(mode, inner, k1, o1, e1) && kept == k1 + k2 && others == o1 + o2
        && PossibleRest(rest, e1, catches, k2, o2, error)
  }

  ghost predicate PossibleRest(rest: Body, e1: Option<Error>, catches: bool, kept: seq<Write>, others: seq<Write>,
                               error: Option<Error>)
    decreases rest, 1
  {
    if e1.None? || catches then Possible(rest, kept, others, error) else kept == [] && others == [] && error == e1
  }

  /** A block may be refused, or fail to begin. A savepoint block keeps everything if it succeeds and nothing if it
      fails; a separate one commits all or nothing, and all if it succeeds. */
  ghost predicate PossibleBlock(mode: NestMode, inner: Body, kept: seq<Write>, others: seq<Write>, error: Option<Error>)
    decreases inner, 1
  {
    || (kept == [] && others == [] && error.Some?)
    || match mode
       case Reuse => Possible(inner, kept, others, error)
       case Savepoint => exists k :: Possible(inner, k, others, error) && kept == if error.None? then k else []
       case Separate =>
         kept == [] &&
         exists k, o, e, own :: Possible(inner, k, o, e) && Concludes(k, own, e, error) && others == o + own
  }

  /** How a root ends: `own` is what it commits of the writes it kept, `ended` what its callback ended with. A callback
      that failed commits nothing and its error is returned; a COMMIT that fails may have reached the server. */
  predicate Concludes(kept: seq<Write>, own: seq<Write>, ended: Option<Error>, error: Option<Error>) {
    if ended.Some? then own == [] && error == ended
    else own in {[], kept} && (error.None? ==> own == kept)
  }

  lemma PossibleStop(b: Body)
    requires b.Return? || b.Throw?
    ensures Possible(b, [], [], if b.Throw? then Some(b.error) else None)
  {
  }

  lemma PossibleWrite(w: Write, rest: Body, ok: bool, kept: seq<Write>, others: seq<Write>, error: Option<Error>)
    requires Possible(rest, kept, others, error)
    ensures Possible(Write(w, rest), (if ok then [w] else []) + kept, others, error)
  {
    assert ([w] + kept)[1..] == kept && [] + kept == kept;
  }

  lemma PossibleFailure(w: Write, rest: Body, error: Option<Error>)
    requires error.Some?
    ensures Possible(Write(w, rest), [], [], error)
  {
  }

  lemma PossibleNested(mode: NestMode, inner: Body, catches: bool, rest: Body, k1: seq<Write>, o1: seq<Write>,
                       e1: Option<Error>, k2: seq<Write>, o2: seq<Write>, error: Option<Error>)
    requires PossibleBlock(mode, inner, k1, o1, e1) && PossibleRest(rest, e1, catches, k2, o2, error)
    ensures Possible(Nested(mode, inner, catches, rest), k1 + k2, o1 + o2, error)
  {
  }

  lemma PossibleSavepoint(inner: Body, k: seq<Write>, others: seq<Write>, error: Option<Error>)
    requires Possible(inner, k, others, error)
    ensures PossibleBlock(Savepoint, inner, if error.None? then k else [], others, error)
  {
  }

  lemma PossibleSeparate(inner: Body, k: seq<Write>, o: seq<Write>, e: Option<Error>, own: seq<Write>,
                         error: Option<Error>)
    requires Possible(inner, k, o, e) && Concludes(k, own, e, error)
    ensures PossibleBlock(Separate, inner, [], o + own, error)
  {
  }

  lemma PossibleRefusal(mode: NestMode, inner: Body, error: Option<Error>)
    requires error.Some?
    ensures PossibleBlock(mode, inner, [], [], error)
  {
  }

  /** When nothing but callbacks fails, what the blocks promise is possible. */
  lemma {:induction false} PromiseIsPossible(b: Body)
    ensures Possible(b, AllOrNothing(b).kept, AllOrNothing(b).committed, Outcome(b))
    decreases b, 0
  {
    match b
    case Return =>
    case Throw(_) =>
    case Write(w, rest) =>
      PromiseIsPossible(rest);
      PossibleWrite(w, rest, true, AllOrNothing(rest).kept, AllOrNothing(rest).committed, Outcome(rest));
    case Nested(mode, inner, catches, rest) =>
      PromiseIsPossibleBlock(mode, inner);
      var e, ended := AllOrNothingNested(mode, inner), Outcome(inner);
      if GoesOn(inner, catches) {
        var f := AllOrNothing(rest);
        PromiseIsPossible(rest);
        PossibleNested(mode, inner, catches, rest, e.kept, e.committed, ended, f.kept, f.committed, Outcome(rest));
      } else {
        assert e.kept + [] == e.kept && e.committed + [] == e.committed;
        PossibleNested(mode, inner, catches, rest, e.kept, e.committed, ended, [], [], ended);
      }
  }

  lemma {:induction false} PromiseIsPossibleBlock(mode: NestMode, inner: Body)
    ensures var e := AllOrNothingNested(mode, inner); PossibleBlock(mode, inner, e.kept, e.committed, Outcome(inner))
    decreases inner, 1
  {
    PromiseIsPossible(inner);
    var e, ended := AllOrNothing(inner), Outcome(inner);
    match mode
    case Reuse =>
    case Savepoint => PossibleSavepoint(inner, e.kept, e.committed, ended);
    case Separate =>
      PossibleSeparate(inner, e.kept, e.committed, ended, if ended.None? then e.kept else [], ended);
  }

  /** What fails when nothing else does, fails anyway. */
  lemma {:induction false} ErrorsStay(b: Body, kept: seq<Write>, others: seq<Write>, error: Option<Error>)
    requires Possible(b, kept, others, error) && Outcome(b).Some?
    ensures error.Some?
    decreases b, 0
  {
    match b
    case Return =>
    case Throw(_) =>
    case Write(w, rest) =>
      if kept != [] && kept[0] == w && Possible(rest, kept[1..], others, error) {
        ErrorsStay(rest, kept[1..], others, error);
      } else if Possible(rest, kept, others, error) {
        ErrorsStay(rest, kept, others, error);
      }
    case Nested(mode, inner, catches, rest) =>
      var k1, o1, e1, k2, o2 :| PossibleBlock(mode, inner, k1, o1, e1) && kept == k1 + k2 && others == o1 + o2 &&
                                PossibleRest(rest, e1, catches, k2, o2, error);
      if Outcome(inner).Some? { BlockErrorsStay(mode, inner, k1, o1, e1); }
      if e1.None? || catches { ErrorsStay(rest, k2, o2, error); }
  }

  lemma {:induction false} BlockErrorsStay(mode: NestMode, inner: Body, kept: seq<Write>, others: seq<Write>,
                                           error: Option<Error>)
    requires PossibleBlock(mode, inner, kept, others, error) && Outcome(inner).Some?
    ensures error.Some?
    decreases inner, 1
  {
    if error.None? {
      match mode
      case Reuse => ErrorsStay(inner, kept, others, error);
      case Savepoint =>
        var k :| Possible(inner, k, others, error) && kept == k;
        ErrorsStay(inner, k, others, error);
      case Separate =>
        var k, o, e, own :| Possible(inner, k, o, e) && Concludes(k, own, e, error) && others == o + own;
        ErrorsStay(inner, k, o, e);
    }
  }

  /** The blocks inside a block are as `OneLevel` asks. */
  predicate OneLevelBlock(mode: NestMode, inner: Body, inSavepoint: bool) {
    match mode
    case Reuse => OneLevel(inner, inSavepoint)
    case Savepoint => !inSavepoint && OneLevel(inner, true)
    case Separate => OneLevel(inner, false)
  }

  // ----- what a transaction looks like -----

  predicate NamesBelow(marks: seq<Mark>, n: nat) {
    forall m :: m in marks ==> m.name < n
  }

  lemma {:induction false} WithoutFresh(marks: seq<Mark>, n: nat)
    requires NamesBelow(marks, n)
    ensures Without(marks, {n}) == marks && UpTo(marks, n) == []
    decreases |marks|
  {
    if marks != [] {
      assert Last(marks) in marks && Last(marks).name != n;
      assert marks == marks[..|marks| - 1] + [Last(marks)];
      WithoutFresh(marks[..|marks| - 1], n);
    }
  }

  /** A rollback to a savepoint that was never set, and whose name no other has, does nothing. */
  lemma UndoNothing(s: Session, n: nat)
    requires NamesBelow(s.marks, n)
    ensures Undo(s, n) == s
  {
    WithoutFresh(s.marks, n);
  }

  /** A rollback to the savepoint set last. */
  lemma UndoLast(s: Session, n: nat, log: seq<Write>)
    requires NamesBelow(s.marks, n)
    ensures Undo(Session(log, Establish(s, n).marks), n) == Establish(s, n)
    ensures NamesBelow(Establish(s, n).marks, n + 1) && Establish(s, n).log == s.log
  {
    WithoutFresh(s.marks, n);
    assert Last(Establish(s, n).marks) == Mark(n, s.log);
  }

  /** A transaction, its pool and its database, at one moment. `given`: the savepoints it has had. */
  datatype Snap = Snap(finished: bool, connection: Option<Connection>, isRoot: bool, given: nat,
                       sessions: map<Connection, Session>, committed: seq<Write>, lent: set<Connection>)

  /** Open: its savepoints, if it is a root, are named below the number it has had. */
  predicate Alive(x: Snap) {
    && !x.finished && x.connection.Some? && x.connection.value in x.sessions && x.sessions.Keys <= x.lent
    && (x.isRoot ==> NamesBelow(x.sessions[x.connection.value].marks, x.given))
  }

  /** A root that a deadlock has ended under its callback. */
  predicate Over(x: Snap) {
    x.finished && x.isRoot && x.connection.None? && x.sessions.Keys <= x.lent
  }

  predicate Fit(x: Snap) {
    Alive(x) || Over(x)
  }

  /** From `x` to `y` the transaction keeps the writes `kept`, unless a deadlock ends it, and `others` are committed
      through other connections. */
  predicate Follows(x: Snap, y: Snap, kept: seq<Write>, others: seq<Write>)
    requires Fit(x)
  {
    && y.isRoot == x.isRoot && y.committed == x.committed + others && Fit(y)
    && if Over(x) then Over(y) && y.sessions == x.sessions
       else
         var c := x.connection.value;
         if Alive(y) then
           && y.connection == x.connection && y.sessions == x.sessions[c := y.sessions[c]]
           && y.sessions[c].log == x.sessions[c].log + kept
           && (!x.isRoot ==> y.sessions[c].marks == x.sessions[c].marks)
         else y.sessions == x.sessions - {c}
  }

  lemma FollowsSelf(x: Snap)
    requires Fit(x)
    ensures Follows(x, x, [], [])
  {
    if Alive(x) { assert x.sessions == x.sessions[x.connection.value := x.sessions[x.connection.value]]; }
  }

  lemma {:induction false} FollowsTrans(x: Snap, y: Snap, z: Snap, k1: seq<Write>, o1: seq<Write>,
                                        k2: seq<Write>, o2: seq<Write>)
    requires Fit(x) && Follows(x, y, k1, o1) && Follows(y, z, k2, o2)
    ensures Follows(x, z, k1 + k2, o1 + o2)
  {
    hide NamesBelow;
    assert (x.committed + o1) + o2 == x.committed + (o1 + o2);
    if Alive(x) {
      var c := x.connection.value;
      if Alive(z) {
        assert (x.sessions[c].log + k1) + k2 == x.sessions[c].log + (k1 + k2);
      }
    }
  }

  // ----- why one level: deeper, a name is always taken -----

  predicate Taken(marks: seq<Mark>, n: nat) {
    exists m :: m in marks && m.name == n
  }

  /** The savepoints were set while the writes were made; once a root has had some, the first one is among them. */
  predicate FirstIsThere(s: Session, n: nat) {
    (n > 0 ==> Taken(s.marks, 0)) && forall m :: m in s.marks ==> |m.at| <= |s.log|
  }

  lemma {:induction false} SetThere(s: Session, n: nat)
    requires FirstIsThere(s, n)
    ensures FirstIsThere(Establish(s, n), n + 1)
  {
    WithoutKeeps(s.marks, n);
    var marks := Establish(s, n).marks;
    assert marks[|marks| - 1] == Mark(n, s.log);
    if n > 0 {
      var m :| m in s.marks && m.name == 0;
      assert m in marks;
    }
  }

  lemma {:induction false} WithoutKeeps(marks: seq<Mark>, n: nat)
    ensures forall m :: m in Without(marks, {n}) <==> m in marks && m.name != n
    decreases |marks|
  {
    if marks != [] {
      WithoutKeeps(marks[..|marks| - 1], n);
      assert marks == marks[..|marks| - 1] + [Last(marks)];
    }
  }

  /** Inside a savepoint, one level leaves the savepoints as they were. */
  lemma {:induction false} NoneSet(b: Body, n: nat, s: Session)
    requires OneLevel(b, true)
    ensures Exec(b, n, s).session.marks == s.marks && s.log <= Exec(b, n, s).session.log
  {
    OneLevelNames(b, n, true, true);
    RunGrows(b, n, s);
    NoneGrown(s.marks, s.log, Exec(b, n, s).session.marks);
  }

  lemma NoneGrown(base: seq<Mark>, log: seq<Write>, marks: seq<Mark>)
    requires Grown(base, {}, log, marks)
    ensures marks == base
  {
    WithoutNothing(base);
    var extra := marks[|base|..];
    assert marks == base + extra && (extra == [] || Last(extra) in extra);
    if m :| m in extra {
      assert false;
    }
  }

  lemma {:induction false} StaysThere(b: Body, n: nat, s: Session)
    requires OneLevel(b, false) && FirstIsThere(s, n)
    ensures FirstIsThere(Exec(b, n, s).session, Next(b, n))
    decreases b, 0
  {
    match b
    case Return =>
    case Throw(_) =>
    case Write(w, rest) => StaysThere(rest, n, s.(log := s.log + [w]));
    case Nested(mode, inner, catches, rest) =>
      BlockStaysThere(mode, inner, n, s);
      if GoesOn(inner, catches) {
        StaysThere(rest, NextNested(mode, inner, n), ExecNested(mode, inner, n, s).session);
      }
  }

  lemma {:induction false} BlockStaysThere(mode: NestMode, inner: Body, n: nat, s: Session)
    requires OneLevelBlock(mode, inner, false) && FirstIsThere(s, n)
    ensures FirstIsThere(ExecNested(mode, inner, n, s).session, NextNested(mode, inner, n))
    decreases inner, 1
  {
    match mode
    case Reuse => StaysThere(inner, n, s);
    case Separate =>
    case Savepoint =>
      var s1 := Establish(s, n);
      SetThere(s, n);
      NoneSet(inner, 0, s1);
      var end := Exec(inner, 0, s1).session;
      assert UpTo(end.marks, n) == s1.marks && Undo(end, n) == s1;
  }

  lemma {:induction false} UpToFinds(marks: seq<Mark>, n: nat)
    requires Taken(marks, n)
    ensures UpTo(marks, n) != []
    decreases |marks|
  {
    if Last(marks).name != n {
      var m :| m in marks && m.name == n;
      assert marks == marks[..|marks| - 1] + [Last(marks)];
      assert m in marks[..|marks| - 1];
      UpToFinds(marks[..|marks| - 1], n);
    }
  }

  /** Whatever a root has done in blocks of one level, when it opens a savepoint that writes `w`, the first savepoint
      inside that one is named 0 and finds its name taken; if it fails to begin, its rollback also undoes `w`. */
  lemma {:induction false} DeeperNameIsTaken(b: Body, w: Write)
    requires OneLevel(b, false)
    ensures var s, n := Exec(b, 0, FRESH).session, Next(b, 0);
            var outer := Establish(s, n).(log := s.log + [w]);
            Taken(outer.marks, 0) && |Undo(outer, 0).log| < |outer.log|
  {
    var s, n := Exec(b, 0, FRESH).session, Next(b, 0);
    StaysThere(b, 0, FRESH);
    SetThere(s, n);
    var outer := Establish(s, n).(log := s.log + [w]);
    UpToFinds(outer.marks, 0);
    assert Last(UpTo(outer.marks, 0)) in outer.marks;
  }

  // ----- steps, callbacks and blocks -----

  /** Open for queries. */
  predicate Open(x: Snap) {
    !x.finished && x.connection.Some? && x.connection.value in x.sessions && x.sessions.Keys <= x.lent
  }

  function SessionOf(x: Snap): Session
    requires Open(x)
  {
    x.sessions[x.connection.value]
  }

  /** From `x` to `y` without faults. */
  predicate Moved(x: Snap, y: Snap, run: Run)
    requires Open(x)
  {
    && Open(y) && y.connection == x.connection && y.isRoot == x.isRoot
    && y.sessions == x.sessions[x.connection.value := run.session] && y.committed == x.committed + run.committed
  }

  /** One write. */
  predicate Stepped(w: Write, faults: Faults, x: Snap, y: Snap, error: Option<Error>) {
    && (faults == Never && Open(x) ==>
          error.None? && y.given == x.given &&
          Moved(x, y, Run(SessionOf(x).(log := SessionOf(x).log + [w]), [])))
    && (faults != AnyFault && Fit(x) ==> Follows(x, y, if error.None? then [w] else [], []))
  }

  /** A callback: without faults exactly its execution; with contained ones, and one level of savepoints, what is
      possible. */
  ghost predicate Settled(b: Body, faults: Faults, x: Snap, y: Snap, kept: seq<Write>, others: seq<Write>,
                          error: Option<Error>) {
    && (faults == Never && Open(x) ==>
          error == Outcome(b) && y.given == Next(b, x.given) && Moved(x, y, Exec(b, x.given, SessionOf(x))))
    && (faults != AnyFault && OneLevel(b, !x.isRoot) && Fit(x) ==>
          Follows(x, y, kept, others) && Possible(b, kept, others, error))
  }

  ghost predicate BlockSettled(mode: NestMode, inner: Body, faults: Faults, x: Snap, y: Snap, kept: seq<Write>,
                               others: seq<Write>, error: Option<Error>) {
    && (faults == Never && Open(x) ==>
          error == Outcome(inner) && y.given == NextNested(mode, inner, x.given) &&
          Moved(x, y, ExecNested(mode, inner, x.given, SessionOf(x))))
    && (faults != AnyFault && OneLevelBlock(mode, inner, !x.isRoot) && Fit(x) ==>
          Follows(x, y, kept, others) && PossibleBlock(mode, inner, kept, others, error))
  }

  lemma SettledStop(b: Body, faults: Faults, x: Snap)
    requires b.Return? || b.Throw?
    ensures Settled(b, faults, x, x, [], [], if b.Throw? then Some(b.error) else None)
  {
    PossibleStop(b);
    if Fit(x) { FollowsSelf(x); }
    if Open(x) { assert x.sessions == x.sessions[x.connection.value := SessionOf(x)]; }
  }

  lemma MovedTrans(x: Snap, y: Snap, z: Snap, r1: Run, r2: Run)
    requires Open(x) && Moved(x, y, r1) && Moved(y, z, r2)
    ensures Moved(x, z, Run(r2.session, r1.committed + r2.committed))
  {
    assert (x.committed + r1.committed) + r2.committed == x.committed + (r1.committed + r2.committed);
  }

  lemma FollowsFits(x: Snap, y: Snap, kept: seq<Write>, others: seq<Write>)
    requires Fit(x) && Follows(x, y, kept, others)
    ensures Fit(y) && y.isRoot == x.isRoot
  {
  }

  lemma {:induction false} SettledWrite(w: Write, rest: Body, faults: Faults, x: Snap, y: Snap, z: Snap,
                                        e1: Option<Error>, kept: seq<Write>, others: seq<Write>, error: Option<Error>)
    requires Stepped(w, faults, x, y, e1) && Settled(rest, faults, y, z, kept, others, error)
    ensures Settled(Write(w, rest), faults, x, z, (if e1.None? then [w] else []) + kept, others, error)
  {
    if faults == Never && Open(x) {
      var r1 := Run(SessionOf(x).(log := SessionOf(x).log + [w]), []);
      assert SessionOf(y) == r1.session;
      var r2 := Exec(rest, y.given, SessionOf(y));
      MovedTrans(x, y, z, r1, r2);
      assert [] + r2.committed == r2.committed;
    }
    hide Possible, Follows, Fit, Moved, Exec;
    if faults != AnyFault && OneLevel(Write(w, rest), !x.isRoot) && Fit(x) {
      var k1 := if e1.None? then [w] else [];
      FollowsFits(x, y, k1, []);
      FollowsTrans(x, y, z, k1, [], kept, others);
      assert [] + others == others;
      PossibleWrite(w, rest, e1.None?, kept, others, error);
    }
  }

  lemma SettledFailure(w: Write, rest: Body, faults: Faults, x: Snap, y: Snap, error: Option<Error>)
    requires Stepped(w, faults, x, y, error) && error.Some?
    ensures Settled(Write(w, rest), faults, x, y, [], [], error)
  {
    PossibleFailure(w, rest, error);
  }

  /** One unfolding. */
  lemma NestedMeaning(mode: NestMode, inner: Body, catches: bool, rest: Body, n: nat, s: Session)
    ensures var b := Nested(mode, inner, catches, rest);
            var r, n1 := ExecNested(mode, inner, n, s), NextNested(mode, inner, n);
            var q := Exec(rest, n1, r.session);
            if Outcome(inner).None? || catches
            then Exec(b, n, s) == Run(q.session, r.committed + q.committed) &&
                 Outcome(b) == Outcome(rest) && Next(b, n) == Next(rest, n1)
            else Exec(b, n, s) == r && Outcome(b) == Outcome(inner) && Next(b, n) == n1
  {
  }

  lemma {:induction false} NestedMoves(mode: NestMode, inner: Body, catches: bool, rest: Body, x: Snap, y: Snap,
                                       z: Snap, e1: Option<Error>, error: Option<Error>)
    requires Open(x) && e1 == Outcome(inner) && y.given == NextNested(mode, inner, x.given)
    requires Moved(x, y, ExecNested(mode, inner, x.given, SessionOf(x)))
    requires if e1.None? || catches
             then error == Outcome(rest) && z.given == Next(rest, y.given) &&
                  Moved(y, z, Exec(rest, y.given, SessionOf(y)))
             else z == y && error == e1
    ensures var b := Nested(mode, inner, catches, rest);
            && error == Outcome(b) && z.given == Next(b, x.given)
            && Moved(x, z, Exec(b, x.given, SessionOf(x)))
  {
    var r1 := ExecNested(mode, inner, x.given, SessionOf(x));
    assert SessionOf(y) == r1.session;
    NestedMeaning(mode, inner, catches, rest, x.given, SessionOf(x));
    hide Exec, ExecNested, Outcome, Next, NextNested;
    if e1.None? || catches { MovedTrans(x, y, z, r1, Exec(rest, y.given, SessionOf(y))); }
  }

  lemma {:induction false} NestedFollows(mode: NestMode, inner: Body, catches: bool, rest: Body, x: Snap, y: Snap,
                                         z: Snap, e1: Option<Error>, k1: seq<Write>, o1: seq<Write>,
                                         kept: seq<Write>, others: seq<Write>, error: Option<Error>)
    requires Fit(x) && Follows(x, y, k1, o1) && PossibleBlock(mode, inner, k1, o1, e1)
    requires GoesOn(inner, catches) ==> OneLevel(rest, !x.isRoot)
    requires if e1.None? || catches
             then OneLevel(rest, !y.isRoot) && Fit(y) ==>
                    Follows(y, z, kept, others) && Possible(rest, kept, others, error)
             else z == y && error == e1 && kept == [] && others == []
    ensures Follows(x, z, k1 + kept, o1 + others)
    ensures Possible(Nested(mode, inner, catches, rest), k1 + kept, o1 + others, error)
  {
    hide Follows, Fit, PossibleBlock, Possible, OneLevel, Outcome;
    FollowsFits(x, y, k1, o1);
    if e1.None? || catches {
      if Outcome(inner).Some? { BlockErrorsStay(mode, inner, k1, o1, e1); }
      FollowsTrans(x, y, z, k1, o1, kept, others);
    } else {
      assert k1 + kept == k1 && o1 + others == o1;
    }
    assert PossibleRest(rest, e1, catches, kept, others, error);
    PossibleNested(mode, inner, catches, rest, k1, o1, e1, kept, others, error);
  }

  lemma {:induction false} SettledNested(mode: NestMode, inner: Body, catches: bool, rest: Body, faults: Faults,
                                         x: Snap, y: Snap, z: Snap, e1: Option<Error>, k1: seq<Write>,
                                         o1: seq<Write>, kept: seq<Write>, others: seq<Write>, error: Option<Error>)
    requires BlockSettled(mode, inner, faults, x, y, k1, o1, e1)
    requires if e1.None? || catches then Settled(rest, faults, y, z, kept, others, error)
             else z == y && error == e1 && kept == [] && others == []
    ensures Settled(Nested(mode, inner, catches, rest), faults, x, z, k1 + kept, o1 + others, error)
  {
    hide Exec, ExecNested, Outcome, Next, NextNested, Follows, Fit, Possible, PossibleBlock;
    var b := Nested(mode, inner, catches, rest);
    if faults == Never && Open(x) {
      NestedMoves(mode, inner, catches, rest, x, y, z, e1, error);
    }
    if faults != AnyFault && OneLevel(b, !x.isRoot) && Fit(x) {
      NestedFollows(mode, inner, catches, rest, x, y, z, e1, k1, o1, kept, others, error);
    }
  }

  /** A block that is refused. */
  lemma BlockRefused(mode: NestMode, inner: Body, faults: Faults, x: Snap, error: Option<Error>)
    requires error.Some? && faults != Never
    ensures BlockSettled(mode, inner, faults, x, x, [], [], error)
  {
    PossibleRefusal(mode, inner, error);
    if Fit(x) { FollowsSelf(x); }
  }

  lemma BlockReused(inner: Body, faults: Faults, x: Snap, y: Snap, kept: seq<Write>, others: seq<Write>,
                    error: Option<Error>)
    requires Settled(inner, faults, x, y, kept, others, error)
    ensures BlockSettled(Reuse, inner, faults, x, y, kept, others, error)
  {
  }

  // ----- savepoint blocks -----

  /** A savepoint called `n` can be set on the connection. */
  predicate CanSave(sessions: map<Connection, Session>, c: Connection, n: nat) {
    c in sessions && NamesBelow(sessions[c].marks, n)
  }

  /** A savepoint block called `n` has kept `kept`. */
  predicate SavedBlock(before: map<Connection, Session>, after: map<Connection, Session>, c: Connection, n: nat,
                       kept: seq<Write>) {
    && c in before && c in after && after == before[c := after[c]]
    && after[c].log == before[c].log + kept && NamesBelow(after[c].marks, n + 1)
  }

  /** A savepoint block called `n`, on the parent's connection; `x` and `y` are its transaction before and after. */
  ghost predicate SavepointSettled(inner: Body, faults: Faults, n: nat, parent: Option<Connection>, x: Snap, y: Snap,
                                   kept: seq<Write>, others: seq<Write>, error: Option<Error>) {
    && (faults == Never && parent.Some? && parent.value in x.sessions && x.sessions.Keys <= x.lent ==>
          var run := ExecNested(Savepoint, inner, n, x.sessions[parent.value]);
          && error == Outcome(inner) && y.sessions == x.sessions[parent.value := run.session]
          && y.committed == x.committed + run.committed)
    && (faults != AnyFault && OneLevel(inner, true) && x.sessions.Keys <= x.lent &&
        (parent.Some? ==> CanSave(x.sessions, parent.value, n)) ==>
          && PossibleBlock(Savepoint, inner, kept, others, error) && y.committed == x.committed + others
          && if parent.None? then kept == [] && y.sessions == x.sessions
             else SavedBlock(x.sessions, y.sessions, parent.value, n, kept))
  }

  /** The block does not begin. */
  lemma SavepointRefused(inner: Body, faults: Faults, n: nat, parent: Option<Connection>, x: Snap, y: Snap,
                         error: Option<Error>)
    requires error.Some? && (parent.Some? ==> faults != Never) && y.committed == x.committed
    requires faults != AnyFault && (parent.Some? ==> CanSave(x.sessions, parent.value, n)) ==> y.sessions == x.sessions
    ensures SavepointSettled(inner, faults, n, parent, x, y, [], [], error)
  {
    PossibleRefusal(Savepoint, inner, error);
    if parent.Some? && parent.value in x.sessions {
      assert x.sessions == x.sessions[parent.value := x.sessions[parent.value]];
    }
  }

  /** The block begins at `x`, its callback starts at `x1` and ends at `y1`, and the block is over at `y`. */
  lemma {:induction false} SavepointEnds(inner: Body, faults: Faults, n: nat, c: Connection, x: Snap, x1: Snap,
                                         y1: Snap, y: Snap, k: seq<Write>, others: seq<Write>,
                                         ended: Option<Error>, error: Option<Error>)
    requires !x1.isRoot && !x1.finished && x1.connection == Some(c) && x1.given == 0 && x1.lent == x.lent
    requires x1.committed == x.committed
    requires c in x.sessions ==> x1.sessions == x.sessions[c := Establish(x.sessions[c], n)]
    requires Settled(inner, faults, x1, y1, k, others, ended)
    requires faults != AnyFault && !y1.finished && y1.connection == Some(c) && c in y1.sessions ==>
               && error == ended && y.committed == y1.committed
               && y.sessions == y1.sessions[c := if ended.None? then y1.sessions[c] else Undo(y1.sessions[c], n)]
    requires c in x.sessions && x.sessions.Keys <= x.lent ==> c in x.lent
    ensures SavepointSettled(inner, faults, n, Some(c), x, y, if ended.None? then k else [], others, error)
  {
    hide Possible, PossibleBlock, Undo, Establish, NamesBelow, Exec;
    if faults == Never && c in x.sessions && x.sessions.Keys <= x.lent {
      assert Open(x1);
      var r := Exec(inner, 0, Establish(x.sessions[c], n));
      assert ExecNested(Savepoint, inner, n, x.sessions[c]) ==
             if Outcome(inner).Some? then Run(Undo(r.session, n), r.committed) else r;
      assert y.sessions == x.sessions[c := if ended.None? then r.session else Undo(r.session, n)];
    }
    if faults != AnyFault && OneLevel(inner, true) && x.sessions.Keys <= x.lent && CanSave(x.sessions, c, n) {
      assert Alive(x1) && Follows(x1, y1, k, others) && Alive(y1);
      PossibleSavepoint(inner, k, others, ended);
      UndoLast(x.sessions[c], n, y1.sessions[c].log);
      assert y1.sessions[c] == Session(y1.sessions[c].log, Establish(x.sessions[c], n).marks);
      assert y.sessions == x.sessions[c := y.sessions[c]];
    }
  }

  /** What the block means for the transaction around it. */
  lemma {:induction false} SavepointIsBlock(inner: Body, faults: Faults, x: Snap, y: Snap, cx: Snap, cy: Snap,
                                            kept: seq<Write>, others: seq<Write>, error: Option<Error>)
    requires SavepointSettled(inner, faults, x.given, x.connection, cx, cy, kept, others, error)
    requires cx.sessions == x.sessions && cx.committed == x.committed && cx.lent == x.lent
    requires y == x.(given := x.given + 1, sessions := cy.sessions, committed := cy.committed)
    ensures BlockSettled(Savepoint, inner, faults, x, y, kept, others, error)
  {
    hide PossibleBlock, ExecNested, Outcome, NamesBelow;
    if faults != AnyFault && OneLevelBlock(Savepoint, inner, !x.isRoot) && Fit(x) && Alive(x) {
      var c := x.connection.value;
      assert SavedBlock(x.sessions, y.sessions, c, x.given, kept);
      assert y.sessions.Keys == x.sessions.Keys;
    }
    if Open(x) && faults == Never {
      assert y.sessions.Keys == x.sessions.Keys;
    }
  }

  // ----- root blocks -----

  /** How a root block may end. */
  ghost predicate RootEnds(inner: Body, called: Option<Option<Error>>, kept: seq<Write>, inside: seq<Write>,
                           own: seq<Write>, error: Option<Error>) {
    match called
    case None => inside == [] && own == [] && error.Some?
    case Some(ended) => Possible(inner, kept, inside, ended) && Concludes(kept, own, ended, error)
  }

  /** A block with its own root: `x` and `y` are the database and the pool before and after. */
  ghost predicate RootSettled(inner: Body, faults: Faults, x: Snap, y: Snap, called: Option<Option<Error>>,
                              kept: seq<Write>, inside: seq<Write>, own: seq<Write>, error: Option<Error>) {
    x.sessions.Keys <= x.lent ==>
      && (faults == Never ==>
            error == Outcome(inner) && y.sessions == x.sessions && y.committed == x.committed + RootRun(inner))
      && (faults != AnyFault && OneLevel(inner, false) ==>
            && y.sessions == x.sessions && y.committed == x.committed + (inside + own)
            && RootEnds(inner, called, kept, inside, own, error))
  }

  lemma RootRefused(inner: Body, faults: Faults, x: Snap, y: Snap, error: Option<Error>)
    requires error.Some? && faults != Never && y.committed == x.committed
    requires x.sessions.Keys <= x.lent ==> y.sessions == x.sessions
    ensures RootSettled(inner, faults, x, y, None, [], [], [], error)
  {
    assert x.committed + ([] + []) == x.committed;
  }

  /** The block begins at `x`, its callback starts at `x1` and ends at `y1`, and the block is over at `y`. */
  lemma {:induction false} RootConcludes(inner: Body, faults: Faults, c: Connection, x: Snap, x1: Snap, y1: Snap,
                                         y: Snap, kept: seq<Write>, inside: seq<Write>, own: seq<Write>,
                                         ended: Option<Error>, error: Option<Error>)
    requires x1.isRoot && !x1.finished && x1.connection == Some(c) && x1.given == 0 && x1.lent == x.lent + {c}
    requires x1.committed == x.committed && c !in x.lent && x1.sessions == x.sessions[c := FRESH]
    requires Settled(inner, faults, x1, y1, kept, inside, ended)
    requires own == if y.committed == y1.committed then [] else kept
    requires ended.Some? ==> error == ended
    requires y1.finished ==>
               y.sessions == y1.sessions && y.committed == y1.committed && (ended.None? ==> error.Some?)
    requires !y1.finished && y1.connection == Some(c) && c in y1.sessions ==>
               var log := y1.sessions[c].log;
               && y.sessions == y1.sessions - {c} && y.committed in {y1.committed, y1.committed + log}
               && (ended.Some? ==> y.committed == y1.committed)
               && (error.None? ==> y.committed == y1.committed + log)
               && (faults == Never && ended.None? ==> error.None?)
    ensures RootSettled(inner, faults, x, y, Some(ended), kept, inside, own, error)
  {
    hide Possible, Exec, RootRun;
    if x.sessions.Keys <= x.lent {
      assert Open(x1) && c !in x.sessions;
      assert faults == Never ==>
          error == Outcome(inner) && y.sessions == x.sessions && y.committed == x.committed + RootRun(inner) by {
        hide Follows, Fit, OneLevel, Outcome;
        var r := Exec(inner, 0, FRESH);
        if faults == Never { assert y1.sessions == x.sessions[c := r.session] && y.sessions == x.sessions; }
        RootRunIs(inner);
        assert (x.committed + r.committed) + r.session.log == x.committed + (r.committed + r.session.log);
        assert r.committed + [] == r.committed;
      }
      if faults != AnyFault && OneLevel(inner, false) {
        hide Outcome, OneLevel, Moved;
        assert Alive(x1) && Follows(x1, y1, kept, inside);
        assert (x.committed + inside) + own == x.committed + (inside + own);
        if Alive(y1) { assert y1.sessions[c].log == [] + kept == kept; }
        assert y.sessions == x.sessions;
      }
    }
  }

  lemma RootRunIs(inner: Body)
    ensures var r := Exec(inner, 0, FRESH);
            RootRun(inner) == r.committed + if Outcome(inner).None? then r.session.log else []
  {
  }

  /** What a block with its own root means for the transaction around it. */
  lemma {:induction false} SeparateIsBlock(inner: Body, faults: Faults, x: Snap, y: Snap, rx: Snap, ry: Snap,
                                           called: Option<Option<Error>>, kept: seq<Write>, inside: seq<Write>,
                                           own: seq<Write>, error: Option<Error>)
    requires RootSettled(inner, faults, rx, ry, called, kept, inside, own, error)
    requires rx.sessions == x.sessions && rx.committed == x.committed && rx.lent == x.lent
    requires y == x.(sessions := ry.sessions, committed := ry.committed)
    ensures BlockSettled(Separate, inner, faults, x, y, [], inside + own, error)
  {
    hide Possible;
    if faults != AnyFault && OneLevelBlock(Separate, inner, !x.isRoot) && Fit(x) {
      match called {
        case None => PossibleRefusal(Separate, inner, error);
        case Some(ended) => PossibleSeparate(inner, kept, inside, ended, own, error);
      }
      if Alive(x) {
        var c := x.connection.value;
        assert x.sessions[c].log + [] == x.sessions[c].log && x.sessions == x.sessions[c := x.sessions[c]];
      }
    }
    if faults == Never && Open(x) {
      var c := x.connection.value;
      SeparateRunIs(inner, x.given, SessionOf(x));
      assert x.sessions == x.sessions[c := x.sessions[c]];
    }
  }

  lemma SeparateRunIs(inner: Body, n: nat, s: Session)
    ensures ExecNested(Separate, inner, n, s) == Run(s, RootRun(inner))
  {
  }
}
