/** What the database keeps for one open transaction: the writes made so far, and a stack of
    named savepoints, after the savepoint statements of clauses 16.4 and 16.7 of
    ISO/IEC 9075-2:2003. */
module Sessions {
  import opened Common

  type Write = int

  datatype Mark = Mark(name: nat, at: seq<Write>)

  datatype Session = Session(log: seq<Write>, marks: seq<Mark>)

  const FRESH := Session([], [])

  function Without(marks: seq<Mark>, names: set<nat>): (r: seq<Mark>)
    ensures |r| <= |marks|
    ensures forall m :: m in r ==> m.name !in names
  {
    if marks == [] then []
    else if Last(marks).name in names then Without(marks[..|marks| - 1], names)
    else Without(marks[..|marks| - 1], names) + [Last(marks)]
  }

  /** SAVEPOINT n: an older savepoint of that name is destroyed. */
  function Establish(s: Session, n: nat): Session {
    Session(s.log, Without(s.marks, {n}) + [Mark(n, s.log)])
  }

  /** The marks left by a rollback to `n`: those up to and including `n`; none if there is no such mark. */
  function UpTo(marks: seq<Mark>, n: nat): (r: seq<Mark>)
    ensures r <= marks
    ensures r != [] ==> Last(r).name == n
  {
    if marks == [] || Last(marks).name == n then marks else UpTo(marks[..|marks| - 1], n)
  }

  /** ROLLBACK TO SAVEPOINT n. The statement fails, and changes nothing, when `n` does not exist. */
  function Undo(s: Session, n: nat): Session {
    var kept := UpTo(s.marks, n);
    if kept == [] then s else Session(Last(kept).at, kept)
  }

  lemma {:induction false} WithoutConcat(a: seq<Mark>, b: seq<Mark>, names: set<nat>)
    ensures Without(a + b, names) == Without(a, names) + Without(b, names)
    decreases |b|
  {
    if b == [] {
      assert a + b == a;
    } else {
      var b' := b[..|b| - 1];
      assert (a + b)[..|a + b| - 1] == a + b';
      WithoutConcat(a, b', names);
    }
  }

  lemma {:induction false} WithoutTwice(a: seq<Mark>, m: set<nat>, n: set<nat>)
    ensures Without(Without(a, m), n) == Without(a, m + n)
    decreases |a|
  {
    if a != [] {
      var a' := a[..|a| - 1];
      WithoutTwice(a', m, n);
      if Last(a).name !in m {
        WithoutConcat(Without(a', m), [Last(a)], n);
        assert [Last(a)][..0] == [];
      }
    }
  }

  /** `marks` are the marks of `base` that `names` did not destroy, then marks established later, all
      named in `names` and all taken when the writes in `log` were there. */
  ghost predicate Grown(base: seq<Mark>, names: set<nat>, log: seq<Write>, marks: seq<Mark>) {
    var p := Without(base, names);
    p <= marks && forall i :: |p| <= i < |marks| ==> marks[i].name in names && log <= marks[i].at
  }

  lemma {:induction false} WithoutNothing(a: seq<Mark>)
    ensures Without(a, {}) == a
    decreases |a|
  {
    if a != [] { WithoutNothing(a[..|a| - 1]); }
  }

  lemma {:induction false} GrownTrans(base: seq<Mark>, m: set<nat>, log: seq<Write>, mid: seq<Mark>,
                                      n: set<nat>, log': seq<Write>, end: seq<Mark>)
    requires Grown(base, m, log, mid) && Grown(mid, n, log', end) && log <= log'
    ensures Grown(base, m + n, log, end)
  {
    hide Without;
    var p := Without(base, m);
    var extra := mid[|p|..];
    assert mid == p + extra;
    WithoutConcat(p, extra, n);
    WithoutTwice(base, m, n);
    var q, x := Without(p, n), Without(extra, n);
    SurvivorsAreGrown(extra, n, m, log);
    assert q == Without(base, m + n) && Without(mid, n) == q + x;
    forall i | |q| <= i < |end| ensures end[i].name in m + n && log <= end[i].at {
      if i < |q + x| { assert end[i] == (q + x)[i] == x[i - |q|]; }
    }
  }

  lemma {:induction false} SurvivorsAreGrown(a: seq<Mark>, n: set<nat>, m: set<nat>, log: seq<Write>)
    requires forall i :: 0 <= i < |a| ==> a[i].name in m && log <= a[i].at
    ensures forall x :: x in Without(a, n) ==> x.name in m && log <= x.at
    decreases |a|
  {
    if a != [] { SurvivorsAreGrown(a[..|a| - 1], n, m, log); }
  }

  lemma {:induction false} UpToSkips(p: seq<Mark>, extra: seq<Mark>, n: nat)
    requires forall x :: x in extra ==> x.name != n
    ensures UpTo(p + extra, n) == UpTo(p, n)
    decreases |extra|
  {
    if extra == [] {
      assert p + extra == p;
    } else {
      assert (p + extra)[..|p + extra| - 1] == p + extra[..|extra| - 1];
      assert Last(p + extra) == Last(extra) && Last(extra) in extra;
      UpToSkips(p, extra[..|extra| - 1], n);
    }
  }

  /** A rollback to a savepoint whose name was not used again restores the writes it was taken with. */
  lemma {:induction false} UndoRestores(s: Session, n: nat, names: set<nat>, end: Session)
    requires n !in names
    requires Grown(Establish(s, n).marks, names, s.log, end.marks)
    ensures Undo(end, n) == Session(s.log, Without(Establish(s, n).marks, names))
  {
    var base := Establish(s, n).marks;
    var p := Without(base, names);
    WithoutConcat(Without(s.marks, {n}), [Mark(n, s.log)], names);
    assert [Mark(n, s.log)][..0] == [];
    assert Last(p) == Mark(n, s.log);
    assert end.marks == p + end.marks[|p|..];
    UpToSkips(p, end.marks[|p|..], n);
  }
}
