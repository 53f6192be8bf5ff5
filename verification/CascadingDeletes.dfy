/** Deleting instances with the cascade done in JavaScript (`manualOnDelete: all`), while the branches of the
    same cascade run interleaved. */
module CascadingDeletes {
  import opened Common

  type ModelName = nat
  type RowId = nat

  datatype OnDelete = Cascade | SetNull | SetDefault | Other

  /** A BelongsTo association: rows of `source` reference rows of `target`. */
  datatype Association = Association(source: ModelName, target: ModelName, name: nat, onDelete: OnDelete)

  /** `version` is 0 throughout for a model without a version attribute. */
  datatype Row = Row(model: ModelName, version: nat, refs: map<Association, RowId>)

  type Rows = map<RowId, Row>

  /** An instance in memory: which row, and the version it was loaded at. */
  datatype Instance = Instance(id: RowId, version: nat)

  /** `soft`: paranoid models that are not hard-deleted. `badBefore`, `badAfter`: models whose hooks throw. */
  datatype Schema = Schema(associations: seq<Association>, soft: set<ModelName>,
                           badBefore: set<ModelName>, badAfter: set<ModelName>)

  datatype Failure = HookThrew | Unsupported | ForeignKeyViolation

  // ----- references -----

  predicate References(row: Row, x: RowId) {
    exists a :: a in row.refs && a.onDelete == Cascade && row.refs[a] == x
  }

  predicate Referenced(rows: Rows, x: RowId) {
    exists r :: r in rows && References(rows[r], x)
  }

  /** Every reference is through a declared association, from its source; a CASCADE one leads to a row of its target. */
  predicate Typed(s: Schema, rows: Rows) {
    forall r, a :: r in rows && a in rows[r].refs ==>
      && a in s.associations && rows[r].model == a.source
      && (a.onDelete == Cascade ==> rows[r].refs[a] in rows && rows[rows[r].refs[a]].model == a.target)
  }

  /** A chain of CASCADE references, each row referencing the next. */
  predicate Chain(rows: Rows, p: seq<RowId>) {
    p != [] && forall i :: 0 <= i < |p| - 1 ==> p[i] in rows && References(rows[p[i]], p[i + 1])
  }

  /** The rows from which a chain of at least one reference leads into `targets`. */
  ghost predicate Below(rows: Rows, r: RowId, targets: set<RowId>) {
    exists p: seq<RowId> :: Chain(rows, p) && |p| >= 2 && p[0] == r && Last(p) in targets
  }

  /** No chain into `targets` is longer than `depth`. */
  ghost predicate Shallow(rows: Rows, targets: set<RowId>, depth: nat) {
    forall p: seq<RowId> :: Chain(rows, p) && Last(p) in targets ==> |p| <= depth
  }

  /** Some chain into `targets` meets a row twice. */
  ghost predicate CycleBelow(rows: Rows, targets: set<RowId>) {
    exists p: seq<RowId> :: Chain(rows, p) && Last(p) in targets && !NoRepeats(p)
  }

  /** Nothing in the schema can make a cascade fail: all references cascade, and no hook of a referencing model
      throws. */
  predicate Smooth(s: Schema) {
    s.soft == {} && forall a :: a in s.associations ==> a.onDelete == Cascade && a.source !in s.badBefore + s.badAfter
  }

  predicate Hookless(s: Schema, m: ModelName) {
    m !in s.badBefore + s.badAfter
  }

  /** Not paranoid, and referenced through no key with SET NULL or SET DEFAULT. */
  predicate Supported(s: Schema, m: ModelName) {
    m !in s.soft && forall a :: a in s.associations && a.target == m ==> a.onDelete in {Cascade, Other}
  }

  /** Nothing about their models keeps these rows from being deleted by a call that succeeds. */
  predicate Deletable(s: Schema, rows: Rows, gone: set<RowId>) {
    forall r :: r in gone && r in rows ==> Hookless(s, rows[r].model) && Supported(s, rows[r].model)
  }

  predicate OnlyCascades(rows: Rows) {
    forall r, a :: r in rows && a in rows[r].refs ==> a.onDelete == Cascade
  }

  // ----- the delete log -----

  function Gone(log: seq<set<RowId>>): set<RowId> {
    if log == [] then {} else log[0] + Gone(log[1..])
  }

  /** Nothing is deleted while a row still references it. */
  predicate Orderly(rows: Rows, log: seq<set<RowId>>)
    decreases |log|
  {
    log == [] || ((forall x :: x in log[0] ==> !Referenced(rows, x)) && Orderly(rows - log[0], log[1..]))
  }

  lemma {:induction false} GoneConcat(a: seq<set<RowId>>, b: seq<set<RowId>>)
    ensures Gone(a + b) == Gone(a) + Gone(b)
  {
    if a == [] {
      assert a + b == b;
    } else {
      assert (a + b)[1..] == a[1..] + b;
      GoneConcat(a[1..], b);
    }
  }

  lemma {:induction false} OrderlyConcat(rows: Rows, a: seq<set<RowId>>, b: seq<set<RowId>>)
    requires Orderly(rows, a) && Orderly(rows - Gone(a), b)
    ensures Orderly(rows, a + b)
    decreases |a|
  {
    if a == [] {
      assert a + b == b && rows - {} == rows;
    } else {
      assert (a + b)[1..] == a[1..] + b;
      assert rows - Gone(a) == rows - a[0] - Gone(a[1..]);
      OrderlyConcat(rows - a[0], a[1..], b);
    }
  }

  /** After orderly deletes, no remaining row references a deleted one. */
  lemma {:induction false} OrderlyIsClosed(rows: Rows, log: seq<set<RowId>>, r: RowId, x: RowId)
    requires Orderly(rows, log) && r in rows && r !in Gone(log) && References(rows[r], x)
    ensures x !in Gone(log)
    decreases |log|
  {
    if log != [] {
      if x in log[0] { assert Referenced(rows, x); }
      OrderlyIsClosed(rows - log[0], log[1..], r, x);
    }
  }

  // ----- the database -----

  class Store {
    var rows: Rows
    var log: seq<set<RowId>>

    constructor (rows: Rows)
      ensures this.rows == rows && log == []
    {
      this.rows, log := rows, [];
    }

    /** What happened since a state with `before` rows and a log of length `n`. */
    ghost predicate Since(before: Rows, n: nat)
      reads this
    {
      n <= |log| && Orderly(before, log[n..]) && rows == before - Gone(log[n..])
    }

    /** An await: other branches of the same cascade may delete rows of `theirs`, in order. A branch that is to delete
        a row that cannot be deleted fails, and with it the whole call. */
    method Await(ghost s: Schema, ghost theirs: set<RowId>)
      modifies this
      ensures old(log) <= log && Since(old(rows), |old(log)|) && Gone(log[|old(log)|..]) <= theirs
      ensures Deletable(s, old(rows), Gone(log[|old(log)|..]))
    {
      assert log[|log|..] == [];
    }
  }

  lemma {:induction false} SinceTrans(before: Rows, log: seq<set<RowId>>, n: nat, mid: Rows, k: nat, rows: Rows)
    requires n <= k <= |log|
    requires Orderly(before, log[n..k]) && mid == before - Gone(log[n..k])
    requires Orderly(mid, log[k..]) && rows == mid - Gone(log[k..])
    ensures Orderly(before, log[n..]) && rows == before - Gone(log[n..])
    ensures Gone(log[n..]) == Gone(log[n..k]) + Gone(log[k..])
  {
    assert log[n..] == log[n..k] + log[k..];
    GoneConcat(log[n..k], log[k..]);
    OrderlyConcat(before, log[n..k], log[k..]);
  }

  lemma {:induction false} DeletesKeepTyped(s: Schema, rows: Rows, log: seq<set<RowId>>)
    requires Typed(s, rows) && Orderly(rows, log)
    ensures Typed(s, rows - Gone(log))
  {
    forall r, a | r in rows - Gone(log) && a in rows[r].refs && a.onDelete == Cascade
      ensures rows[r].refs[a] in rows - Gone(log)
    {
      assert References(rows[r], rows[r].refs[a]);
      OrderlyIsClosed(rows, log, r, rows[r].refs[a]);
    }
  }

  // ----- what should be deleted -----

  ghost function Beneath(rows: Rows, targets: set<RowId>): set<RowId> {
    set r | r in rows && Below(rows, r, targets)
  }

  function Ids(instances: seq<Instance>): set<RowId> {
    set i | i in instances :: i.id
  }

  /** The rows that the WHERE clause of the final DELETE hits. */
  function Current(rows: Rows, instances: seq<Instance>): (r: set<RowId>)
    ensures r <= Ids(instances) && r <= rows.Keys
    ensures forall x :: x in r <==> x in rows && exists i :: i in instances && i.id == x && i.version == rows[x].version
  {
    set i | i in instances && i.id in rows && rows[i.id].version == i.version :: i.id
  }

  /** Referencing rows, and what is below them in what is left, are below the referenced ones. */
  lemma {:induction false} BeneathKids(rows: Rows, gone: set<RowId>, kids: set<RowId>, targets: set<RowId>)
    requires forall k :: k in kids ==> k in rows && exists t :: t in targets && References(rows[k], t)
    ensures kids <= Beneath(rows, targets) && Beneath(rows - gone, kids) <= Beneath(rows, targets)
  {
    forall k | k in kids ensures k in Beneath(rows, targets) {
      var t :| t in targets && References(rows[k], t);
      var p := [k, t];
      assert Chain(rows, p) && Last(p) == t && p[0] == k;
    }
    forall r | r in Beneath(rows - gone, kids) ensures r in Beneath(rows, targets) {
      var p: seq<RowId> :| Chain(rows - gone, p) && |p| >= 2 && p[0] == r && Last(p) in kids;
      var t :| t in targets && References(rows[Last(p)], t);
      var q := p + [t];
      assert Chain(rows, q) && Last(q) == t && q[0] == r;
    }
  }

  /** Orderly deletes that leave nothing referencing the targets have deleted everything below them. */
  lemma {:induction false} BeneathIsGone(rows: Rows, log: seq<set<RowId>>, targets: set<RowId>)
    requires Orderly(rows, log)
    requires forall t :: t in targets ==> !Referenced(rows - Gone(log), t)
    ensures Beneath(rows, targets) <= Gone(log)
  {
    forall r | r in Beneath(rows, targets) ensures r in Gone(log) {
      var p: seq<RowId> :| Chain(rows, p) && |p| >= 2 && p[0] == r && Last(p) in targets;
      ChainIsGone(rows, log, p, 0, Last(p));
    }
  }

  lemma {:induction false} ChainIsGone(rows: Rows, log: seq<set<RowId>>, p: seq<RowId>, i: nat, t: RowId)
    requires Orderly(rows, log) && Chain(rows, p) && i < |p| - 1 && Last(p) == t
    requires !Referenced(rows - Gone(log), t)
    ensures p[i] in Gone(log)
    decreases |p| - i
  {
    if i == |p| - 2 {
      var left := rows - Gone(log);
      assert p[i] in left ==> Referenced(left, t);
    } else {
      ChainIsGone(rows, log, p, i + 1, t);
      if p[i] !in Gone(log) { OrderlyIsClosed(rows, log, p[i], p[i + 1]); }
    }
  }

  // ----- when the recursion ends -----

  /** What the nested SELECTs find, `k` levels down, while nothing is deleted. */
  ghost function Level(rows: Rows, targets: set<RowId>, k: nat): set<RowId> {
    if k == 0 then targets
    else set r | r in rows && exists t :: t in Level(rows, targets, k - 1) && References(rows[r], t)
  }

  lemma {:induction false} ChainIsLevel(rows: Rows, targets: set<RowId>, p: seq<RowId>)
    requires Chain(rows, p) && Last(p) in targets
    ensures p[0] in Level(rows, targets, |p| - 1)
    decreases |p|
  {
    if |p| > 1 {
      assert Chain(rows, p[1..]) && Last(p[1..]) == Last(p);
      ChainIsLevel(rows, targets, p[1..]);
      assert References(rows[p[0]], p[1]);
    }
  }

  lemma {:induction false} LevelIsChain(rows: Rows, targets: set<RowId>, k: nat, r: RowId) returns (p: seq<RowId>)
    requires r in Level(rows, targets, k)
    ensures Chain(rows, p) && Last(p) in targets && |p| == k + 1 && p[0] == r
  {
    if k == 0 {
      p := [r];
    } else {
      var t :| t in Level(rows, targets, k - 1) && References(rows[r], t);
      var q := LevelIsChain(rows, targets, k - 1, t);
      p := [r] + q;
      assert forall i :: 0 < i < |p| ==> p[i] == q[i - 1];
    }
  }

  /** A chain without repetition is not longer than there are rows, but for its last element. */
  lemma {:induction false} NoCycleIsShallow(rows: Rows, targets: set<RowId>)
    requires !CycleBelow(rows, targets)
    ensures Shallow(rows, targets, |rows| + 1)
  {
    forall p: seq<RowId> | Chain(rows, p) && Last(p) in targets ensures |p| <= |rows| + 1 {
      var q := p[..|p| - 1];
      assert NoRepeats(p);
      assert forall r :: r in q ==> r in rows;
      DistinctFit(q, rows.Keys);
    }
  }

  /** Going round a cycle makes a chain as long as one likes. */
  lemma {:induction false} CycleIsDeep(rows: Rows, targets: set<RowId>, n: nat) returns (p: seq<RowId>)
    requires CycleBelow(rows, targets)
    ensures Chain(rows, p) && Last(p) in targets && |p| > n && !NoRepeats(p)
  {
    if n == 0 {
      p :| Chain(rows, p) && Last(p) in targets && !NoRepeats(p);
    } else {
      var q := CycleIsDeep(rows, targets, n - 1);
      var i, j :| 0 <= i < j < |q| && q[i] == q[j];
      p := q[..j] + q[i..];
      Spliced(rows, q, i, j);
      assert p[i] == q[i] && p[j] == q[i];
    }
  }

  lemma Spliced(rows: Rows, q: seq<RowId>, i: nat, j: nat)
    requires Chain(rows, q) && i < j < |q| && q[i] == q[j]
    ensures Chain(rows, q[..j] + q[i..]) && Last(q[..j] + q[i..]) == Last(q)
  {
    var p := q[..j] + q[i..];
    forall k | 0 <= k < |p| - 1 ensures p[k] in rows && References(rows[p[k]], p[k + 1]) {
      if k < j - 1 {
        assert p[k] == q[k] && p[k + 1] == q[k + 1];
      } else if k == j - 1 {
        assert p[k] == q[k] && p[k + 1] == q[i] == q[k + 1];
      } else {
        assert p[k] == q[k - j + i] && p[k + 1] == q[k - j + i + 1];
      }
    }
  }

  /** Nothing on a cycle, nor between it and the targets, is ever deleted in order. */
  lemma {:induction false} CycleStays(rows: Rows, log: seq<set<RowId>>, q: seq<RowId>, j: nat)
    requires Orderly(rows, log) && Chain(rows, q) && 0 < j < |q| && q[0] == q[j]
    ensures Chain(rows - Gone(log), q)
    decreases |log|
  {
    if log == [] {
      assert rows - Gone(log) == rows;
    } else {
      forall k | 0 <= k < |q| ensures q[k] !in log[0] {
        var before := if k == 0 then j - 1 else k - 1;
        assert References(rows[q[before]], q[k]);
        assert Referenced(rows, q[k]);
      }
      assert Chain(rows - log[0], q);
      CycleStays(rows - log[0], log[1..], q, j);
      assert rows - log[0] - Gone(log[1..]) == rows - Gone(log);
    }
  }

  /** The nested SELECTs come to an end if and only if there is no cycle below the targets: rows that reference
      each other, or one that references itself, through CASCADE keys. */
  lemma {:induction false} CascadeEnds(rows: Rows, targets: set<RowId>)
    ensures (exists k :: Level(rows, targets, k) == {}) <==> !CycleBelow(rows, targets)
  {
    if CycleBelow(rows, targets) {
      forall k: nat ensures Level(rows, targets, k) != {} {
        CascadeNeverEnds(rows, [], targets, k);
        assert rows - {} == rows;
      }
    } else {
      NoCycleIsShallow(rows, targets);
      var k := |rows| + 1;
      if r :| r in Level(rows, targets, k) {
        var p := LevelIsChain(rows, targets, k, r);
      }
      assert Level(rows, targets, k) == {};
    }
  }

  /** With a cycle, whatever is deleted in order meanwhile, there is a next level to descend to. */
  lemma {:induction false} CascadeNeverEnds(rows: Rows, log: seq<set<RowId>>, targets: set<RowId>, k: nat)
    requires CycleBelow(rows, targets) && Orderly(rows, log)
    ensures Level(rows - Gone(log), targets, k) != {}
  {
    hide Chain, Orderly, Gone, CycleBelow, Level;
    var left := rows - Gone(log);
    CycleBelowStays(rows, log, targets);
    var long := CycleIsDeep(left, targets, k);
    ChainEnd(left, long, |long| - k - 1);
    ChainIsLevel(left, targets, long[|long| - k - 1..]);
  }

  lemma {:induction false} CycleBelowStays(rows: Rows, log: seq<set<RowId>>, targets: set<RowId>)
    requires CycleBelow(rows, targets) && Orderly(rows, log)
    ensures CycleBelow(rows - Gone(log), targets)
  {
    hide Orderly, Gone;
    var p: seq<RowId> :| Chain(rows, p) && Last(p) in targets && !NoRepeats(p);
    var i, j :| 0 <= i < j < |p| && p[i] == p[j];
    var q := p[i..];
    ChainEnd(rows, p, i);
    assert q[0] == q[j - i];
    CycleStays(rows, log, q, j - i);
    assert !NoRepeats(q);
  }

  lemma ChainEnd(rows: Rows, p: seq<RowId>, i: nat)
    requires Chain(rows, p) && i < |p|
    ensures Chain(rows, p[i..]) && Last(p[i..]) == Last(p)
  {
  }

  /** A row that references itself is enough. */
  lemma SelfReferenceNeverEnds(k: nat)
    ensures var a := Association(0, 0, 0, Cascade);
            Level(map[5 := Row(0, 0, map[a := 5])], {5}, k) != {}
  {
    var a := Association(0, 0, 0, Cascade);
    var rows: Rows := map[5 := Row(0, 0, map[a := 5])];
    assert References(rows[5], 5);
    var p := [5, 5];
    assert p[0] == p[1];
    assert Chain(rows, p) && Last(p) in {5} && !NoRepeats(p);
    CascadeNeverEnds(rows, [], {5}, k);
    assert rows - {} == rows;
  }

  // ----- why it fails -----

  /** What makes a cascade from rows of model `m`, and the DELETE after it, fail with `e`. */
  ghost predicate Cause(s: Schema, rows: Rows, m: ModelName, targets: set<RowId>, e: Failure) {
    match e
    case HookThrew => exists r :: r in Beneath(rows, targets) && !Hookless(s, rows[r].model)
    case Unsupported => !Supported(s, m) || exists r :: r in Beneath(rows, targets) && !Supported(s, rows[r].model)
    case ForeignKeyViolation => !OnlyCascades(rows)
  }

  lemma CauseStays(s: Schema, rows: Rows, gone: set<RowId>, m: ModelName, targets: set<RowId>, e: Failure)
    requires Cause(s, rows - gone, m, targets, e)
    ensures Cause(s, rows, m, targets, e)
  {
    ShrunkBeneath(rows, gone, targets);
    match e
    case HookThrew =>
      var r :| r in Beneath(rows - gone, targets) && !Hookless(s, (rows - gone)[r].model);
      assert r in Beneath(rows, targets) && rows[r] == (rows - gone)[r];
    case Unsupported =>
      if Supported(s, m) {
        var r :| r in Beneath(rows - gone, targets) && !Supported(s, (rows - gone)[r].model);
        assert r in Beneath(rows, targets) && rows[r] == (rows - gone)[r];
      }
    case ForeignKeyViolation =>
      assert OnlyCascades(rows) ==> OnlyCascades(rows - gone);
  }

  /** What fails below fails above. */
  lemma CauseBelow(s: Schema, rows: Rows, src: ModelName, kids: set<RowId>, m: ModelName, targets: set<RowId>,
                   e: Failure)
    requires Beneath(rows, kids) <= Beneath(rows, targets) && kids != {} && kids <= Beneath(rows, targets)
    requires forall k :: k in kids ==> k in rows && rows[k].model == src
    requires Cause(s, rows, src, kids, e) || (e == HookThrew && !Hookless(s, src))
    ensures Cause(s, rows, m, targets, e)
  {
    var k :| k in kids;
    hide Beneath, Hookless, Supported, OnlyCascades;
    assert k in Beneath(rows, targets) && rows[k].model == src;
    if e == HookThrew && Hookless(s, src) {
      var r :| r in Beneath(rows, kids) && !Hookless(s, rows[r].model);
      assert r in Beneath(rows, targets);
    } else if e == Unsupported && Supported(s, src) {
      var r :| r in Beneath(rows, kids) && !Supported(s, rows[r].model);
      assert r in Beneath(rows, targets);
    }
  }

  lemma NoCause(s: Schema, rows: Rows, m: ModelName, targets: set<RowId>)
    requires Supported(s, m) && Deletable(s, rows, Beneath(rows, targets))
    ensures !Cause(s, rows, m, targets, HookThrew) && !Cause(s, rows, m, targets, Unsupported)
  {
    hide Supported, Hookless;
  }

  lemma DeletableTrans(s: Schema, rows: Rows, a: set<RowId>, b: set<RowId>)
    requires Deletable(s, rows, a) && Deletable(s, rows - a, b)
    ensures Deletable(s, rows, a + b)
  {
  }

  // ----- the algorithm -----

  /** The associations whose referencing rows must go first, or cannot be handled. */
  function CascadingAssociations(associations: seq<Association>, target: ModelName): (r: seq<Association>)
    ensures forall a :: a in r <==> a in associations && a.target == target && a.onDelete != Other
  {
    if associations == [] then []
    else
      var a, rest := associations[0], CascadingAssociations(associations[1..], target);
      if a.target == target && a.onDelete != Other then [a] + rest else rest
  }

  /** What a SELECT of the referencing rows has to return. */
  ghost predicate Found(rows: Rows, a: Association, targets: set<RowId>, found: seq<Instance>) {
    && (forall i :: i in found ==> i.id in rows && a in rows[i.id].refs && rows[i.id].refs[a] in targets &&
                                   rows[i.id].version == i.version)
    && forall r :: r in rows && a in rows[r].refs && rows[r].refs[a] in targets ==> r in Ids(found)
  }

  /** SELECT of the rows of the source that reference one of `targets` through `a`. */
  method FindReferencing(store: Store, a: Association, targets: set<RowId>) returns (found: seq<Instance>)
    ensures Found(store.rows, a, targets, found)
  {
    found := [];
    var left := set r | r in store.rows && a in store.rows[r].refs && store.rows[r].refs[a] in targets;
    ghost var all := left;
    while left != {}
      invariant left <= all
      invariant forall i :: i in found ==> i.id in all && store.rows[i.id].version == i.version
      invariant forall r :: r in all ==> r in left || r in Ids(found)
    {
      var r :| r in left;
      ghost var before := found;
      found := found + [Instance(r, store.rows[r].version)];
      assert forall i :: i in before ==> i in found;
      assert Instance(r, store.rows[r].version) in found;
      left := left - {r};
    }
  }

  lemma CascadesOnly(rows: Rows, victims: set<RowId>)
    requires forall v :: v in victims ==> !Referenced(rows, v)
    ensures OnlyCascades(rows) ==> forall r, a :: r in rows && a in rows[r].refs ==> rows[r].refs[a] !in victims
  {
    forall r, a | OnlyCascades(rows) && r in rows && a in rows[r].refs ensures rows[r].refs[a] !in victims {
      assert References(rows[r], rows[r].refs[a]);
    }
  }

  lemma SmoothRows(s: Schema, rows: Rows)
    requires Typed(s, rows) && Smooth(s)
    ensures OnlyCascades(rows)
  {
  }

  /** One DELETE statement; the database refuses it when rows that stay reference the deleted ones. */
  method BulkDelete(store: Store, instances: seq<Instance>) returns (result: Result<nat, Failure>)
    requires forall t :: t in Ids(instances) ==> !Referenced(store.rows, t)
    modifies store
    ensures result.Err? ==>
              result == Err(ForeignKeyViolation) && store.rows == old(store.rows) && store.log == old(store.log)
    ensures result.Err? <==>
              var victims := Current(old(store.rows), instances);
              exists r, a :: r in old(store.rows) && r !in victims && a in old(store.rows)[r].refs &&
                             old(store.rows)[r].refs[a] in victims
    ensures result.Ok? ==> store.rows == old(store.rows) - Current(old(store.rows), instances) &&
                           store.log == old(store.log) + [Current(old(store.rows), instances)]
    ensures result.Ok? ==> result.value == |Current(old(store.rows), instances)|
    ensures OnlyCascades(old(store.rows)) ==> result.Ok?
  {
    var victims := Current(store.rows, instances);
    CascadesOnly(store.rows, victims);
    if exists r, a :: r in store.rows && r !in victims && a in store.rows[r].refs && store.rows[r].refs[a] in victims {
      return Err(ForeignKeyViolation);
    }
    store.rows, store.log := store.rows - victims, store.log + [victims];
    return Ok(|victims|);
  }

  /** What is known before a step that destroys `instances` of model `m`. */
  ghost predicate Ready(s: Schema, rows: Rows, m: ModelName, targets: set<RowId>, depth: nat) {
    && Typed(s, rows) && Shallow(rows, targets, depth)
    && forall t :: t in targets && t in rows ==> rows[t].model == m
  }

  lemma {:induction false} StaysReady(s: Schema, rows: Rows, log: seq<set<RowId>>, m: ModelName, targets: set<RowId>,
                                      depth: nat)
    requires Ready(s, rows, m, targets, depth) && Orderly(rows, log)
    ensures Ready(s, rows - Gone(log), m, targets, depth)
  {
    DeletesKeepTyped(s, rows, log);
    StaysShallow(rows, Gone(log), targets, depth);
  }

  lemma {:induction false} StaysShallow(rows: Rows, gone: set<RowId>, targets: set<RowId>, depth: nat)
    requires Shallow(rows, targets, depth)
    ensures Shallow(rows - gone, targets, depth)
  {
    forall p: seq<RowId> | Chain(rows - gone, p) && Last(p) in targets ensures |p| <= depth {
      assert Chain(rows, p);
    }
  }

  /** No row references `targets` through `a`. */
  predicate NoneThrough(rows: Rows, a: Association, targets: set<RowId>) {
    forall r :: r in rows && a in rows[r].refs ==> rows[r].refs[a] !in targets
  }

  /** When every cascading association is done, nothing references the targets any more. */
  lemma {:induction false} NoneThroughAny(s: Schema, rows: Rows, m: ModelName, targets: set<RowId>,
                                          depth: nat)
    requires Ready(s, rows, m, targets, depth)
    requires forall a :: a in CascadingAssociations(s.associations, m) ==> NoneThrough(rows, a, targets)
    ensures forall t :: t in targets ==> !Referenced(rows, t)
  {
    forall r, t, a | r in rows && t in targets && a in rows[r].refs && a.onDelete == Cascade
      ensures rows[r].refs[a] != t
    {
      if a.target == m { assert NoneThrough(rows, a, targets); }
    }
  }

  /** One branch of the cascade: the rows that reference `targets` through `a` are destroyed. */
  method CascadeThrough(s: Schema, store: Store, m: ModelName, a: Association, targets: set<RowId>,
                        ghost depth: nat, ghost theirs: set<RowId>)
    returns (result: Result<nat, Failure>)
    requires Ready(s, store.rows, m, targets, depth)
    requires a in CascadingAssociations(s.associations, m)
    modifies store
    ensures old(store.log) <= store.log && store.Since(old(store.rows), |old(store.log)|)
    ensures Gone(store.log[|old(store.log)|..]) <= Beneath(old(store.rows), targets) + theirs
    ensures result.Ok? ==> NoneThrough(store.rows, a, targets)
    ensures Smooth(s) ==> result.Ok?
    ensures result.Ok? ==>
              a.onDelete == Cascade && Deletable(s, old(store.rows), Gone(store.log[|old(store.log)|..]))
    ensures result.Err? ==> Cause(s, old(store.rows), m, targets, result.error)
    decreases depth, 1
  {
    hide Beneath, Orderly, Gone, Typed, Deletable;
    ghost var n, before := |store.log|, store.rows;
    assert store.log[n..] == [];
    NothingYet(before);
    match a.onDelete {
      case SetNull => return Err(Unsupported);
      case SetDefault => return Err(Unsupported);
      case Cascade =>
        store.Await(s, theirs);
        ghost var mid, log := store.rows, store.log;
        StaysReady(s, before, log[n..], m, targets, depth);
        result := DestroyReferencing(s, store, m, a, targets, depth, theirs);
        assert store.log[n..|log|] == log[n..];
        SinceTrans(before, store.log, n, mid, |log|, store.rows);
        ShrunkBeneath(before, Gone(log[n..]), targets);
        if result.Ok? { DeletableTrans(s, before, Gone(log[n..]), Gone(store.log[|log|..])); }
        if result.Err? { CauseStays(s, before, Gone(log[n..]), m, targets, result.error); }
    }
  }

  /** The case of CASCADE: SELECT the referencing rows, destroy them. */
  method DestroyReferencing(s: Schema, store: Store, m: ModelName, a: Association, targets: set<RowId>,
                            ghost depth: nat, ghost theirs: set<RowId>)
    returns (result: Result<nat, Failure>)
    requires Ready(s, store.rows, m, targets, depth) && a.onDelete == Cascade
    requires a in CascadingAssociations(s.associations, m)
    modifies store
    ensures old(store.log) <= store.log && store.Since(old(store.rows), |old(store.log)|)
    ensures Gone(store.log[|old(store.log)|..]) <= Beneath(old(store.rows), targets) + theirs
    ensures result.Ok? ==> NoneThrough(store.rows, a, targets)
    ensures Smooth(s) ==> result.Ok?
    ensures result.Ok? ==> Deletable(s, old(store.rows), Gone(store.log[|old(store.log)|..]))
    ensures result.Err? ==> Cause(s, old(store.rows), m, targets, result.error)
    decreases depth, 0
  {
    hide Beneath, Orderly, Gone, Typed, Shallow, Ids, Current, NoneThrough, CascadingAssociations, Deletable;
    hide Hookless, Supported, Cause;
    ghost var n, before := |store.log|, store.rows;
    assert store.log[n..] == [];
    NothingYet(before);
    var found := FindReferencing(store, a, targets);
    ReferencingRows(s, before, m, a, targets, found, depth);
    if found == [] {
      NoInstances(before);
      NoneLeft(before, {}, a, targets, found);
      NothingDeleted(s, before);
      return Ok(0);
    }
    if m in s.soft && a.source !in s.soft {
      SoftFails(s, before, m, targets);
      return Err(Unsupported);
    }
    result := Destroy(s, store, a.source, found, depth - 1, theirs);
    if result.Err? { CauseBelow(s, before, a.source, Ids(found), m, targets, result.error); }
    if result.Ok? { NoneLeft(before, Gone(store.log[n..]), a, targets, found); }
  }

  lemma {:induction false} ReferencingRows(s: Schema, rows: Rows, m: ModelName, a: Association, targets: set<RowId>,
                                           found: seq<Instance>, depth: nat)
    requires Ready(s, rows, m, targets, depth) && a.onDelete == Cascade && Found(rows, a, targets, found)
    ensures found != [] ==> depth > 0 && Ready(s, rows, a.source, Ids(found), depth - 1)
    ensures Ids(found) <= Current(rows, found)
    ensures Current(rows, found) <= Beneath(rows, targets) && Beneath(rows, Ids(found)) <= Beneath(rows, targets)
    ensures Ids(found) <= Beneath(rows, targets) && (found != [] ==> Ids(found) != {})
    ensures forall k :: k in Ids(found) ==> k in rows && rows[k].model == a.source
  {
    var kids := Ids(found);
    forall k | k in kids
      ensures k in rows && rows[k].model == a.source && exists t :: t in targets && References(rows[k], t)
    {
      assert References(rows[k], rows[k].refs[a]);
    }
    BeneathKids(rows, {}, kids, targets);
    assert rows - {} == rows;
    if found != [] {
      assert found[0].id in kids;
      KidsAreShallow(rows, kids, targets, depth);
    }
  }

  lemma NothingDeleted(s: Schema, rows: Rows)
    ensures Deletable(s, rows, {})
  {
  }

  lemma SoftFails(s: Schema, rows: Rows, m: ModelName, targets: set<RowId>)
    requires m in s.soft
    ensures Cause(s, rows, m, targets, Unsupported)
  {
  }

  lemma {:induction false} KidsAreShallow(rows: Rows, kids: set<RowId>, targets: set<RowId>, depth: nat)
    requires Shallow(rows, targets, depth) && kids != {}
    requires forall k :: k in kids ==> k in rows && exists t :: t in targets && References(rows[k], t)
    ensures depth > 0 && Shallow(rows, kids, depth - 1)
  {
    var k :| k in kids;
    OneLonger(rows, kids, targets, depth, [k]);
    forall p: seq<RowId> | Chain(rows, p) && Last(p) in kids ensures |p| <= depth - 1 {
      OneLonger(rows, kids, targets, depth, p);
    }
  }

  lemma {:induction false} OneLonger(rows: Rows, kids: set<RowId>, targets: set<RowId>, depth: nat, p: seq<RowId>)
    requires Shallow(rows, targets, depth) && Chain(rows, p) && Last(p) in kids
    requires forall k :: k in kids ==> k in rows && exists t :: t in targets && References(rows[k], t)
    ensures |p| + 1 <= depth
  {
    var t :| t in targets && References(rows[Last(p)], t);
    assert Chain(rows, p + [t]) && Last(p + [t]) == t;
  }

  lemma NoneLeft(rows: Rows, gone: set<RowId>, a: Association, targets: set<RowId>, found: seq<Instance>)
    requires Found(rows, a, targets, found) && Ids(found) <= gone
    ensures NoneThrough(rows - gone, a, targets)
  {
  }

  lemma NoneThroughStays(rows: Rows, gone: set<RowId>, a: Association, targets: set<RowId>)
    requires NoneThrough(rows, a, targets)
    ensures NoneThrough(rows - gone, a, targets)
  {
  }

  /** One more branch, after `log[n..]` has happened to `before`. */
  method CascadeNext(s: Schema, store: Store, m: ModelName, a: Association, targets: set<RowId>,
                     ghost depth: nat, ghost all: set<RowId>, ghost before: Rows, ghost n: nat)
    returns (result: Result<nat, Failure>)
    requires Ready(s, store.rows, m, targets, depth) && a in CascadingAssociations(s.associations, m)
    requires store.Since(before, n) && Gone(store.log[n..]) <= all && Beneath(before, targets) <= all
    requires Deletable(s, before, Gone(store.log[n..]))
    modifies store
    ensures old(store.log) <= store.log && store.Since(before, n) && store.Since(old(store.rows), |old(store.log)|)
    ensures Gone(store.log[n..]) <= all && Ready(s, store.rows, m, targets, depth)
    ensures result.Ok? ==>
              NoneThrough(store.rows, a, targets) && a.onDelete == Cascade && Deletable(s, before, Gone(store.log[n..]))
    ensures result.Err? ==> Cause(s, before, m, targets, result.error)
    ensures Smooth(s) ==> result.Ok?
    decreases depth, 2
  {
    hide Beneath, Orderly, Gone, Typed, Shallow, NoneThrough, Deletable, Cause, CascadingAssociations;
    ghost var mid, log := store.rows, store.log;
    result := CascadeThrough(s, store, m, a, targets, depth, all);
    assert store.log[n..|log|] == log[n..];
    SinceTrans(before, store.log, n, mid, |log|, store.rows);
    ShrunkBeneath(before, Gone(log[n..]), targets);
    StaysReady(s, mid, store.log[|log|..], m, targets, depth);
    if result.Err? {
      CauseStays(s, before, Gone(log[n..]), m, targets, result.error);
    } else {
      DeletableTrans(s, before, Gone(log[n..]), Gone(store.log[|log|..]));
    }
  }

  /** All branches of a cascade. */
  method CascadeAll(s: Schema, store: Store, m: ModelName, targets: set<RowId>,
                    ghost depth: nat, ghost theirs: set<RowId>)
    returns (failure: Option<Failure>)
    requires Ready(s, store.rows, m, targets, depth)
    modifies store
    ensures old(store.log) <= store.log && store.Since(old(store.rows), |old(store.log)|)
    ensures Gone(store.log[|old(store.log)|..]) <= Beneath(old(store.rows), targets) + theirs
    ensures failure.None? ==> forall t :: t in targets ==> !Referenced(store.rows, t)
    ensures Smooth(s) ==> failure.None?
    ensures failure.None? ==> Deletable(s, old(store.rows), Gone(store.log[|old(store.log)|..]))
    ensures failure.None? ==> forall a :: a in CascadingAssociations(s.associations, m) ==> a.onDelete == Cascade
    ensures failure.Some? ==> Cause(s, old(store.rows), m, targets, failure.value)
    decreases depth, 3
  {
    hide Beneath, Orderly, Gone, Typed, Shallow, NoneThrough, Deletable, Cause;
    ghost var n, before := |store.log|, store.rows;
    ghost var all := Beneath(before, targets) + theirs;
    assert store.log[n..] == [];
    NothingYet(before);
    NothingDeleted(s, before);
    var todo := CascadingAssociations(s.associations, m);
    for i := 0 to |todo|
      invariant old(store.log) <= store.log && store.Since(before, n)
      invariant Gone(store.log[n..]) <= all
      invariant Ready(s, store.rows, m, targets, depth)
      invariant forall j :: 0 <= j < i ==> NoneThrough(store.rows, todo[j], targets)
      invariant Deletable(s, before, Gone(store.log[n..])) && forall j :: 0 <= j < i ==> todo[j].onDelete == Cascade
    {
      ghost var mid, k := store.rows, |store.log|;
      var result := CascadeNext(s, store, m, todo[i], targets, depth, all, before, n);
      if result.Err? {
        return Some(result.error);
      }
      forall j | 0 <= j < i ensures NoneThrough(store.rows, todo[j], targets) {
        NoneThroughStays(mid, Gone(store.log[k..]), todo[j], targets);
      }
    }
    NoneThroughAny(s, store.rows, m, targets, depth);
    return None;
  }

  /** `_UNSTABLE_destroy` inside a transaction. Deletes only rows below the instances, and the instances that
      are current; on success it has deleted all of them. */
  method Destroy(s: Schema, store: Store, m: ModelName, instances: seq<Instance>,
                 ghost depth: nat, ghost theirs: set<RowId>)
    returns (result: Result<nat, Failure>)
    requires Ready(s, store.rows, m, Ids(instances), depth)
    modifies store
    ensures old(store.log) <= store.log && store.Since(old(store.rows), |old(store.log)|)
    ensures Gone(store.log[|old(store.log)|..]) <=
            Beneath(old(store.rows), Ids(instances)) + Current(old(store.rows), instances) + theirs
    ensures result.Ok? ==> (forall t :: t in Ids(instances) ==> !Referenced(store.rows, t)) || instances == []
    ensures result.Ok? ==> Current(old(store.rows), instances) <= Gone(store.log[|old(store.log)|..])
    ensures Smooth(s) && m !in s.badBefore + s.badAfter ==> result.Ok?
    ensures result.Ok? ==> Deletable(s, old(store.rows), Gone(store.log[|old(store.log)|..]))
    ensures result.Ok? && instances != [] ==> Hookless(s, m) && Supported(s, m)
    ensures result.Err? ==>
              (result == Err(HookThrew) && !Hookless(s, m)) ||
              Cause(s, old(store.rows), m, Ids(instances), result.error)
    decreases depth, 5
  {
    hide Beneath, Orderly, Gone, Typed, Ids, Current, Deletable, Cause, Supported;
    ghost var n, before := |store.log|, store.rows;
    assert store.log[n..] == [];
    NothingYet(before);
    NoInstances(before);
    NothingDeleted(s, before);
    if instances == [] {
      return Ok(0);
    }
    store.Await(s, theirs);
    if m in s.badBefore {
      return Err(HookThrew);
    }
    ghost var mid, log := store.rows, store.log;
    StaysReady(s, before, log[n..], m, Ids(instances), depth);
    ghost var cascaded;
    result, cascaded := DestroyInternal(s, store, m, instances, depth, theirs);
    assert store.log[n..|log|] == log[n..];
    SinceTrans(before, store.log, n, mid, |log|, store.rows);
    ShrunkBeneath(before, Gone(log[n..]), Ids(instances));
    CurrentOrGone(before, Gone(log[n..]), instances);
    if result.Err? { CauseStays(s, before, Gone(log[n..]), m, Ids(instances), result.error); }
    if result.Ok? && m in s.badAfter {
      return Err(HookThrew);
    }
    if result.Ok? {
      OwnDeletable(s, mid, m, instances, cascaded, Gone(store.log[|log|..]), depth);
      DeletableTrans(s, before, Gone(log[n..]), Gone(store.log[|log|..]));
    }
  }

  lemma OwnDeletable(s: Schema, rows: Rows, m: ModelName, instances: seq<Instance>, cascaded: set<RowId>,
                     gone: set<RowId>, depth: nat)
    requires Ready(s, rows, m, Ids(instances), depth) && Hookless(s, m) && Supported(s, m)
    requires Deletable(s, rows, cascaded) && gone <= cascaded + Current(rows, instances)
    ensures Deletable(s, rows, gone)
  {
    hide Supported, Hookless, Typed, Shallow;
  }

  /** `#destroyInternal`: the cascade, then the DELETE. The number returned is that of this DELETE alone;
      `cascaded` is what was deleted before it. */
  method DestroyInternal(s: Schema, store: Store, m: ModelName, instances: seq<Instance>,
                         ghost depth: nat, ghost theirs: set<RowId>)
    returns (result: Result<nat, Failure>, ghost cascaded: set<RowId>)
    requires Ready(s, store.rows, m, Ids(instances), depth)
    modifies store
    ensures old(store.log) <= store.log && store.Since(old(store.rows), |old(store.log)|)
    ensures Gone(store.log[|old(store.log)|..]) <=
            Beneath(old(store.rows), Ids(instances)) + Current(old(store.rows), instances) + theirs
    ensures result.Ok? ==> forall t :: t in Ids(instances) ==> !Referenced(store.rows, t)
    ensures result.Ok? ==> Current(old(store.rows), instances) <= Gone(store.log[|old(store.log)|..])
    ensures result.Ok? ==>
              Beneath(old(store.rows), Ids(instances)) <= cascaded <= Beneath(old(store.rows), Ids(instances)) + theirs
    ensures result.Ok? ==> result.value == |Current(old(store.rows) - cascaded, instances)|
    ensures Smooth(s) ==> result.Ok?
    ensures result.Ok? ==> Supported(s, m) && Deletable(s, old(store.rows), cascaded)
    ensures result.Ok? ==>
              Gone(store.log[|old(store.log)|..]) <= cascaded + Current(old(store.rows), instances)
    ensures result.Err? ==> Cause(s, old(store.rows), m, Ids(instances), result.error)
    decreases depth, 4
  {
    hide Beneath, Orderly, Gone, Typed, Ids, Current, Deletable, Hookless;
    ghost var n, before := |store.log|, store.rows;
    if Smooth(s) { SmoothRows(s, before); }
    var failure := CascadeAll(s, store, m, Ids(instances), depth, theirs);
    if failure.Some? {
      return Err(failure.value), {};
    }
    if m in s.soft {
      return Err(Unsupported), {};
    }
    BeneathIsGone(before, store.log[n..], Ids(instances));
    result, cascaded := DeleteThem(s, store, instances, before, n, theirs);
    CurrentOrGone(before, Gone(store.log[n..]), instances);
  }

  /** The DELETE of the instances, after `log[n..]` has happened to `before`. */
  method DeleteThem(s: Schema, store: Store, instances: seq<Instance>, ghost before: Rows, ghost n: nat,
                    ghost theirs: set<RowId>)
    returns (result: Result<nat, Failure>, ghost cascaded: set<RowId>)
    requires store.Since(before, n) && Deletable(s, before, Gone(store.log[n..]))
    requires forall t :: t in Ids(instances) ==> !Referenced(store.rows, t)
    modifies store
    ensures old(store.log) <= store.log && store.Since(before, n)
    ensures Gone(store.log[n..]) <= Gone(old(store.log)[n..]) + theirs + Current(before, instances)
    ensures Gone(old(store.log)[n..]) <= cascaded <= Gone(old(store.log)[n..]) + theirs
    ensures Deletable(s, before, cascaded) && Gone(store.log[n..]) <= cascaded + Current(before, instances)
    ensures result.Err? ==> result == Err(ForeignKeyViolation)
    ensures result.Ok? ==> result.value == |Current(before - cascaded, instances)|
    ensures OnlyCascades(before) ==> result.Ok?
    ensures result.Ok? ==> Current(before, instances) <= Gone(store.log[n..]) &&
                           forall t :: t in Ids(instances) ==> !Referenced(store.rows, t)
  {
    hide Orderly, Gone, Ids, Referenced, Current, Deletable;
    ghost var log, mid := store.log, store.rows;
    store.Await(s, theirs);
    assert store.log[n..|log|] == log[n..];
    SinceTrans(before, store.log, n, mid, |log|, store.rows);
    StillUnreferenced(mid, Gone(store.log[|log|..]), Ids(instances));
    DeletableTrans(s, before, Gone(log[n..]), Gone(store.log[|log|..]));
    cascaded := Gone(store.log[n..]);
    result := DeleteNow(store, instances, before, n);
  }

  method DeleteNow(store: Store, instances: seq<Instance>, ghost before: Rows, ghost n: nat)
    returns (result: Result<nat, Failure>)
    requires store.Since(before, n) && forall t :: t in Ids(instances) ==> !Referenced(store.rows, t)
    modifies store
    ensures old(store.log) <= store.log && store.Since(before, n)
    ensures Gone(store.log[n..]) <= Gone(old(store.log)[n..]) + Current(before, instances)
    ensures result.Err? ==> result == Err(ForeignKeyViolation)
    ensures result.Ok? ==> result.value == |Current(before - Gone(old(store.log)[n..]), instances)|
    ensures OnlyCascades(before) ==> result.Ok?
    ensures result.Ok? ==> Current(before, instances) <= Gone(store.log[n..]) &&
                           forall t :: t in Ids(instances) ==> !Referenced(store.rows, t)
  {
    hide Orderly, Gone, Ids, Referenced, Current;
    ghost var log, mid := store.log, store.rows;
    result := BulkDelete(store, instances);
    if result.Ok? {
      CurrentOrGone(before, Gone(log[n..]), instances);
      StillUnreferenced(mid, Current(mid, instances), Ids(instances));
      LastDelete(before, log[n..], Current(mid, instances));
      assert store.log[n..] == log[n..] + [Current(mid, instances)];
    }
  }

  lemma ReadyToStart(s: Schema, rows: Rows, m: ModelName, instances: seq<Instance>)
    requires Typed(s, rows) && !CycleBelow(rows, Ids(instances))
    requires forall i :: i in instances && i.id in rows ==> rows[i.id].model == m
    ensures Ready(s, rows, m, Ids(instances), |rows| + 1)
  {
    NoCycleIsShallow(rows, Ids(instances));
  }

  lemma CurrentOrGone(rows: Rows, gone: set<RowId>, instances: seq<Instance>)
    ensures Current(rows, instances) <= gone + Current(rows - gone, instances)
    ensures Current(rows - gone, instances) <= Current(rows, instances)
  {
  }

  lemma StillUnreferenced(rows: Rows, gone: set<RowId>, targets: set<RowId>)
    requires forall t :: t in targets ==> !Referenced(rows, t)
    ensures forall t :: t in targets ==> !Referenced(rows - gone, t)
  {
  }

  lemma DeletedExactly(rows: Rows, gone: set<RowId>, cascaded: set<RowId>, beneath: set<RowId>, current: set<RowId>)
    requires gone <= beneath + current + {} && beneath <= gone && current <= gone
    requires beneath <= cascaded <= beneath + {}
    ensures rows - gone == rows - beneath - current && cascaded == beneath
  {
  }

  lemma NothingYet(rows: Rows)
    ensures Gone([]) == {} && Orderly(rows, []) && rows - {} == rows
  {
  }

  lemma NoInstances(rows: Rows)
    ensures Ids([]) == {} && Current(rows, []) == {} && Beneath(rows, {}) == {}
  {
  }

  lemma {:induction false} LastDelete(rows: Rows, log: seq<set<RowId>>, victims: set<RowId>)
    requires Orderly(rows, log) && forall x :: x in victims ==> !Referenced(rows - Gone(log), x)
    ensures Orderly(rows, log + [victims]) && Gone(log + [victims]) == Gone(log) + victims
  {
    assert [victims][1..] == [] && Gone([victims]) == victims + Gone([]);
    GoneConcat(log, [victims]);
    OrderlyConcat(rows, log, [victims]);
  }

  lemma {:induction false} ShrunkBeneath(rows: Rows, gone: set<RowId>, targets: set<RowId>)
    ensures Beneath(rows - gone, targets) <= Beneath(rows, targets)
  {
  }

  datatype Outcome =
    | Deleted(rows: nat)
    | DeletedButHookThrew
    | CommitFailed
    | Failed(failure: Failure)

  /** How a COMMIT ends: a failing one may still have reached the database. */
  datatype Ending = Committed | NotCommitted | AnswerLost

  /** A call outside any transaction. The cascade and the DELETE run in the transaction it opens, if there can be a
      cascade, the hooks of the instances' own model before and after it. Either nothing is deleted, or exactly the
      current instances and the rows below the instances are, each after the rows that reference it; an error leaves
      the database as it was unless it comes from that last hook, or the answer to the COMMIT is lost. */
  method DestroyInOwnTransaction(s: Schema, store: Store, m: ModelName, instances: seq<Instance>, ending: Ending)
    returns (outcome: Outcome)
    requires Typed(s, store.rows) && !CycleBelow(store.rows, Ids(instances))
    requires forall i :: i in instances && i.id in store.rows ==> store.rows[i.id].model == m
    modifies store
    ensures outcome.Failed? || (outcome.CommitFailed? && ending.NotCommitted?) ==>
              store.rows == old(store.rows) && store.log == old(store.log)
    ensures !outcome.Failed? && !(outcome.CommitFailed? && ending.NotCommitted?) ==>
              && store.rows == old(store.rows) - Beneath(old(store.rows), Ids(instances))
                                               - Current(old(store.rows), instances)
              && store.Since(old(store.rows), |old(store.log)|)
    ensures !outcome.Failed? ==>
              (outcome.CommitFailed? <==>
               instances != [] && CascadingAssociations(s.associations, m) != [] && !ending.Committed?)
    ensures !outcome.Failed? && !outcome.CommitFailed? ==>
              (outcome.DeletedButHookThrew? <==> instances != [] && m in s.badAfter)
    ensures Smooth(s) && m !in s.badBefore ==> !outcome.Failed?
    ensures instances != [] && m in s.badBefore ==> outcome == Failed(HookThrew)
    ensures outcome.Failed? ==>
              instances != [] && ((outcome.failure == HookThrew && m in s.badBefore) ||
                                  Cause(s, old(store.rows), m, Ids(instances), outcome.failure))
    ensures instances != [] && (m in s.badBefore || Cause(s, old(store.rows), m, Ids(instances), HookThrew) ||
                                Cause(s, old(store.rows), m, Ids(instances), Unsupported)) ==>
              outcome.Failed?
    ensures outcome.Deleted? ==>
              outcome.rows == |Current(old(store.rows) - Beneath(old(store.rows), Ids(instances)), instances)|
  {
    hide Ready, Orderly, Gone, Beneath, Ids, Current, Referenced, Cause, Supported, OnlyCascades, CycleBelow, Typed;
    NothingYet(store.rows);
    NoInstances(store.rows);
    if instances == [] {
      assert store.log[|store.log|..] == [];
      return Deleted(0);
    }
    if m in s.badBefore {
      return Failed(HookThrew);
    }
    var savedRows, savedLog := store.rows, store.log;
    var result := DestroyAlone(s, store, m, instances);
    if result.Err? {
      store.rows, store.log := savedRows, savedLog;  // ROLLBACK
      return Failed(result.error);
    }
    if CascadingAssociations(s.associations, m) != [] && !ending.Committed? {
      if ending.NotCommitted? { store.rows, store.log := savedRows, savedLog; }
      return CommitFailed;
    }
    outcome := if m in s.badAfter then DeletedButHookThrew else Deleted(result.value);
  }

  /** What happens in the transaction, while nobody else uses it. */
  method DestroyAlone(s: Schema, store: Store, m: ModelName, instances: seq<Instance>)
    returns (result: Result<nat, Failure>)
    requires Typed(s, store.rows) && !CycleBelow(store.rows, Ids(instances))
    requires forall i :: i in instances && i.id in store.rows ==> store.rows[i.id].model == m
    modifies store
    ensures result.Ok? ==>
              && store.rows == old(store.rows) - Beneath(old(store.rows), Ids(instances))
                                               - Current(old(store.rows), instances)
              && store.Since(old(store.rows), |old(store.log)|)
              && result.value == |Current(old(store.rows) - Beneath(old(store.rows), Ids(instances)), instances)|
              && !Cause(s, old(store.rows), m, Ids(instances), HookThrew)
              && !Cause(s, old(store.rows), m, Ids(instances), Unsupported)
    ensures result.Err? ==> Cause(s, old(store.rows), m, Ids(instances), result.error)
    ensures Smooth(s) ==> result.Ok?
  {
    hide Ready, Orderly, Gone, Beneath, Ids, Current, Referenced, Cause, Deletable, Supported, OnlyCascades, CycleBelow;
    hide Typed;
    ghost var before, n := store.rows, |store.log|;
    ReadyToStart(s, before, m, instances);
    NothingYet(before);
    assert store.log[n..] == [];
    ghost var cascaded;
    result, cascaded := DestroyInternal(s, store, m, instances, |before| + 1, {});
    if result.Ok? {
      BeneathIsGone(before, store.log[n..], Ids(instances));
      assert cascaded == Beneath(before, Ids(instances));
      NoCause(s, before, m, Ids(instances));
      DeletedExactly(before, Gone(store.log[n..]), cascaded, Beneath(before, Ids(instances)),
                     Current(before, instances));
    }
  }

  /** The after-hook throws and the call fails, but the row is gone: the transaction was committed before. */
  method HookThrowsTooLate() returns (store: Store, outcome: Outcome)
    ensures fresh(store) && store.rows == map[] && outcome == DeletedButHookThrew
  {
    var rows: Rows := map[5 := Row(0, 1, map[])];
    store := new Store(rows);
    var s := Schema([], {}, {}, {0});
    var instances := [Instance(5, 1)];
    forall p: seq<RowId> | Chain(rows, p) ensures NoRepeats(p) {
      assert |p| > 1 ==> p[0] in rows && References(rows[p[0]], p[1]);
    }
    assert instances[0] in instances && 5 in Current(rows, instances);
    outcome := DestroyInOwnTransaction(s, store, 0, instances, Committed);
  }
}
