/** Sorting models by their foreign keys, and creating and dropping their tables in that order. */
module ModelOrdering {
  import opened Common

  type Table = nat

  datatype Model = Model(table: Table, references: seq<Table>) {
    /** References to other tables; a model may reference itself freely. */
    function Dependencies(): (r: set<Table>)
      ensures forall t :: t in r <==> t != table && exists k :: 0 <= k < |references| && references[k] == t
    {
      set t | t in references && t != table
    }
  }

  predicate DistinctTables(models: seq<Model>) {
    forall i, j :: 0 <= i < j < |models| ==> models[i].table != models[j].table
  }

  /** Each model comes before every model it references. */
  predicate DependentsFirst(sorted: seq<Model>) {
    forall i, j :: 0 <= i < j < |sorted| ==> sorted[i].table !in sorted[j].Dependencies()
  }

  /** A walk along references. */
  predicate Walk(models: seq<Model>, w: seq<Model>) {
    && (forall i :: 0 <= i < |w| ==> w[i] in models)
    && (forall i :: 0 <= i < |w| - 1 ==> w[i + 1].table in w[i].Dependencies())
  }

  /** A walk back to its start. As self references are dropped, it goes through two models or more. */
  predicate Cycle(models: seq<Model>, c: seq<Model>) {
    |c| >= 2 && Walk(models, c) && c[0] == Last(c)
  }

  predicate SameModels(a: seq<Model>, b: seq<Model>) {
    multiset(a) == multiset(b)
  }

  /** Whether some model of the list references this one. */
  predicate DependedOn(m: Model, models: seq<Model>) {
    exists x :: x in models && m.table in x.Dependencies()
  }

  /** A model that no other of the list depends on, or the length of the list. */
  method FindIndependent(models: seq<Model>) returns (i: nat)
    ensures i <= |models| && (i < |models| ==> !DependedOn(models[i], models))
    ensures forall k :: 0 <= k < i ==> DependedOn(models[k], models)
  {
    i := 0;
    while i < |models| && DependedOn(models[i], models)
      invariant i <= |models|
      invariant forall k :: 0 <= k < i ==> DependedOn(models[k], models)
    {
      i := i + 1;
    }
  }

  /** `done` is sorted, and what is left comes after it. */
  ghost predicate Progress(models: seq<Model>, done: seq<Model>, remaining: seq<Model>) {
    && SameModels(done + remaining, models) && DependentsFirst(done)
    && forall i, x :: 0 <= i < |done| && x in remaining ==> done[i].table !in x.Dependencies()
  }

  lemma {:induction false} TakeOut(models: seq<Model>, done: seq<Model>, remaining: seq<Model>, k: nat)
    requires Progress(models, done, remaining) && k < |remaining| && !DependedOn(remaining[k], remaining)
    ensures Progress(models, done + [remaining[k]], remaining[..k] + remaining[k + 1..])
  {
    var x, rest := remaining[k], remaining[..k] + remaining[k + 1..];
    assert remaining == remaining[..k] + [x] + remaining[k + 1..];
    assert multiset(done + [x] + rest) == multiset(done + remaining);
    assert forall y :: y in rest ==> y in remaining;
  }

  /** The sort: every model once, dependents first; none exactly when there is a cycle. */
  method TopoSort(models: seq<Model>) returns (sorted: Option<seq<Model>>)
    requires DistinctTables(models)
    ensures sorted.Some? ==> SameModels(sorted.value, models) && DependentsFirst(sorted.value)
    ensures sorted.None? <==> exists c :: Cycle(models, c)
  {
    var done, remaining := [], models;
    assert done + remaining == models;
    while remaining != []
      invariant Progress(models, done, remaining)
      decreases |remaining|
    {
      var k := FindIndependent(remaining);
      if k == |remaining| {
        forall x ensures x in remaining ==> x in models {
          if x in remaining { assert x in multiset(done + remaining); }
        }
        StuckMeansCycle(models, remaining);
        return None;
      }
      TakeOut(models, done, remaining, k);
      done, remaining := done + [remaining[k]], remaining[..k] + remaining[k + 1..];
    }
    assert done + remaining == done;
    SortedHasNoCycle(models, done);
    return Some(done);
  }

  lemma {:induction false} SortedHasNoCycle(models: seq<Model>, sorted: seq<Model>)
    requires DistinctTables(models) && SameModels(sorted, models) && DependentsFirst(sorted)
    ensures !exists c :: Cycle(models, c)
  {
    forall c | |c| >= 2 && Walk(models, c) ensures c[0] != Last(c) {
      var i, j := LaterAlongWalk(models, sorted, c);
      if c[0] == Last(c) {
        SameModelSamePlace(models, sorted, i, j);
      }
    }
  }

  lemma {:induction false} SameModelSamePlace(models: seq<Model>, sorted: seq<Model>, i: nat, j: nat)
    requires DistinctTables(models) && SameModels(sorted, models) && i < j < |sorted|
    ensures sorted[i] != sorted[j]
  {
    if sorted[i] == sorted[j] {
      var x := sorted[i];
      assert sorted == sorted[..i] + [x] + sorted[i + 1..j] + [x] + sorted[j + 1..];
      assert multiset(sorted)[x] >= 2;
      OnceInDistinct(models, x);
    }
  }

  lemma {:induction false} OnceInDistinct(models: seq<Model>, x: Model)
    requires DistinctTables(models)
    ensures multiset(models)[x] <= 1
  {
    if models != [] {
      assert models == [models[0]] + models[1..];
      OnceInDistinct(models[1..], x);
      forall j | 0 <= j < |models[1..]| ensures models[1..][j] != models[0] {
        assert models[1..][j] == models[j + 1];
      }
    }
  }

  /** A walk goes strictly forward in the sorted list. */
  lemma {:induction false} LaterAlongWalk(models: seq<Model>, sorted: seq<Model>, w: seq<Model>)
    returns (i: nat, j: nat)
    requires SameModels(sorted, models) && DependentsFirst(sorted) && |w| >= 2 && Walk(models, w)
    ensures i < j < |sorted| && sorted[i] == w[0] && sorted[j] == Last(w)
    decreases |w|
  {
    var k := |w| - 1;
    var m: nat;
    if |w| == 2 {
      assert w[0] in multiset(models);
      assert w[0] in sorted;
      m :| m < |sorted| && sorted[m] == w[0];
      i := m;
    } else {
      i, m := LaterAlongWalk(models, sorted, w[..k]);
    }
    assert w[k] in multiset(models);
    assert w[k] in sorted;
    j :| j < |sorted| && sorted[j] == w[k];
    assert sorted[j].table in sorted[m].Dependencies();
  }

  /** When every remaining model is depended on by another, some walk comes back to its start. */
  lemma {:induction false} StuckMeansCycle(models: seq<Model>, remaining: seq<Model>)
    requires remaining != [] && forall x :: x in remaining ==> x in models
    requires forall m :: m in remaining ==> DependedOn(m, remaining)
    ensures exists c :: Cycle(models, c)
  {
    hide DependedOn, Walk;
    var w := GrowWalk(remaining, |remaining|);
    assert forall k :: 0 <= k < |w| ==> w[k] in remaining by { WalkStays(remaining, w); }
    var i, j := Pigeonhole(remaining, w);
    var c := w[i..j + 1];
    SubWalk(models, remaining, w, i, j);
    assert Cycle(models, c);
  }

  lemma WalkStays(models: seq<Model>, w: seq<Model>)
    requires Walk(models, w)
    ensures forall k :: 0 <= k < |w| ==> w[k] in models
  {
  }

  lemma SubWalk(models: seq<Model>, remaining: seq<Model>, w: seq<Model>, i: nat, j: nat)
    requires Walk(remaining, w) && i < j < |w| && forall x :: x in remaining ==> x in models
    ensures Walk(models, w[i..j + 1]) && w[i..j + 1][0] == w[i] && Last(w[i..j + 1]) == w[j]
  {
  }

  lemma Dependent(models: seq<Model>, m: Model) returns (x: Model)
    requires DependedOn(m, models)
    ensures x in models && m.table in x.Dependencies()
  {
    x :| x in models && m.table in x.Dependencies();
  }

  lemma StepBack(models: seq<Model>, x: Model, w: seq<Model>)
    requires w != [] && Walk(models, w) && x in models && w[0].table in x.Dependencies()
    ensures Walk(models, [x] + w)
  {
  }

  lemma {:induction false} GrowWalk(remaining: seq<Model>, n: nat) returns (w: seq<Model>)
    requires remaining != []
    requires forall m :: m in remaining ==> DependedOn(m, remaining)
    ensures |w| == n + 1 && Walk(remaining, w)
  {
    hide DependedOn;
    if n == 0 {
      w := [remaining[0]];
    } else {
      w := GrowWalk(remaining, n - 1);
      var x := Dependent(remaining, w[0]);
      StepBack(remaining, x, w);
      w := [x] + w;
    }
  }

  lemma {:induction false} Pigeonhole(holes: seq<Model>, w: seq<Model>) returns (i: nat, j: nat)
    requires |w| > |holes| && forall k :: 0 <= k < |w| ==> w[k] in holes
    ensures i < j < |w| && w[i] == w[j]
  {
    if i', j' :| 0 <= i' < j' < |w| && w[i'] == w[j'] {
      i, j := i', j';
    } else {
      MembersFit(holes);
      DistinctFit(w, set h | h in holes);
      assert false;
    }
  }

  lemma {:induction false} MembersFit(holes: seq<Model>)
    ensures |set h | h in holes| <= |holes|
  {
    if holes != [] {
      var t, x := holes[..|holes| - 1], Last(holes);
      assert (set h | h in holes) == (set h | h in t) + {x} by {
        assert holes == t + [x];
      }
      MembersFit(t);
    }
  }

  // ----- creating and dropping tables -----

  /** The tables that exist. Creating one that references a missing table of a model fails, and so does
      dropping one that another table still references. */
  class Schema {
    const models: seq<Model>
    var tables: set<Table>

    constructor (models: seq<Model>, tables: set<Table>)
      ensures this.models == models && this.tables == tables
    {
      this.models, this.tables := models, tables;
    }

    predicate CanCreate(m: Model)
      reads this
    {
      forall t :: t in m.Dependencies() && IsModelTable(t) ==> t in tables
    }

    predicate IsModelTable(t: Table) {
      exists m :: m in models && m.table == t
    }

    predicate CanDrop(m: Model)
      reads this
    {
      forall x :: x in models && x.table in tables ==> m.table !in x.Dependencies()
    }

    method CreateTable(m: Model) returns (ok: bool)
      modifies this
      ensures ok == old(CanCreate(m))
      ensures tables == if ok then old(tables) + {m.table} else old(tables)
    {
      ok := CanCreate(m);
      if ok { tables := tables + {m.table}; }
    }

    method DropTable(m: Model) returns (ok: bool)
      modifies this
      ensures ok == old(CanDrop(m))
      ensures tables == if ok then old(tables) - {m.table} else old(tables)
    {
      ok := CanDrop(m);
      if ok { tables := tables - {m.table}; }
    }

    /** `sync` without cyclic references: no table is created before one it references. */
    method Sync() returns (cyclic: bool, ok: bool)
      requires DistinctTables(models)
      modifies this
      ensures cyclic <==> exists c :: Cycle(models, c)
      ensures cyclic ==> tables == old(tables)
      ensures !cyclic ==> ok && tables == old(tables) + set m | m in models :: m.table
    {
      var sorted := TopoSort(models);
      cyclic, ok := sorted.None?, true;
      if cyclic {
        return;
      }
      var order := sorted.value;
      SameMembers(order, models);
      var i := |order|;  // the reversed list, from its first
      while i > 0
        invariant 0 <= i <= |order| && ok
        invariant tables == old(tables) + set k | i <= k < |order| :: order[k].table
      {
        i := i - 1;
        forall t | t in order[i].Dependencies() && IsModelTable(t) ensures t in tables {
          var m :| m in models && m.table == t;
          var j :| 0 <= j < |order| && order[j] == m;
          assert j > i;
        }
        ok := CreateTable(order[i]);
      }
    }

    /** The sorted pass of `drop`: no table is dropped while another references it. */
    method DropSorted() returns (cyclic: bool, ok: bool)
      requires DistinctTables(models)
      modifies this
      ensures cyclic <==> exists c :: Cycle(models, c)
      ensures cyclic ==> tables == old(tables)
      ensures !cyclic ==> ok && tables == old(tables) - set m | m in models :: m.table
    {
      var sorted := TopoSort(models);
      cyclic, ok := sorted.None?, true;
      if cyclic {
        return;
      }
      var order := sorted.value;
      SameMembers(order, models);
      for i := 0 to |order|
        invariant ok && tables == old(tables) - set k | 0 <= k < i :: order[k].table
      {
        forall x | x in models && x.table in tables ensures order[i].table !in x.Dependencies() {
          var j :| 0 <= j < |order| && order[j] == x;
          assert j >= i;
        }
        ok := DropTable(order[i]);
      }
    }
  }

  lemma SameMembers(a: seq<Model>, b: seq<Model>)
    requires SameModels(a, b)
    ensures forall m :: m in a <==> m in b
  {
    forall m ensures m in a <==> m in b {
      assert m in multiset(a) <==> m in multiset(b);
    }
  }
}
