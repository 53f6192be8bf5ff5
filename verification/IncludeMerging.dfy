/** Merging two lists of includes, such as those of a scope and of a query. */
module IncludeMerging {
  import opened Common
  import opened Filters

  type Association = nat

  type OptionName = nat

  /** Any other option: a list, an object of lists, or something that is not merged. */
  datatype OptionValue = Scalar(id: nat) | List(ids: seq<nat>) | Lists(entries: map<nat, seq<nat>>)

  /** The `attributes` option, the only one whose objects are merged. */
  const ATTRIBUTES: OptionName := 1

  /** A normalized include; `nested` is missing when it has no nested includes of its own. */
  datatype Include = Include(association: Association, where: Option<Where>, nested: IncludeOption,
                             others: map<OptionName, OptionValue>)

  /** The value of an `include` option. */
  datatype IncludeOption = NotGiven | Given(list: seq<Include>)

  function Names(list: seq<Include>): (r: seq<Association>)
    ensures |r| == |list| && forall i :: 0 <= i < |list| ==> r[i] == list[i].association
  {
    seq(|list|, i requires 0 <= i < |list| => list[i].association)
  }

  /** The first include of an association, or the length of the list. */
  function Find(list: seq<Include>, a: Association): (i: nat)
    ensures i <= |list| && (i < |list| ==> list[i].association == a)
    ensures forall j :: 0 <= j < i ==> list[j].association != a
  {
    IndexOf(Names(list), a)
  }

  function MergedEntries(a: map<nat, seq<nat>>, b: map<nat, seq<nat>>): (r: map<nat, seq<nat>>)
    ensures r.Keys == a.Keys + b.Keys
    ensures forall k, x :: k in r ==> (x in r[k] <==> (k in a && x in a[k]) || (k in b && x in b[k]))
  {
    map k | k in a.Keys + b.Keys :: if k !in b then a[k] else if k !in a then b[k] else Distinct(a[k] + b[k])
  }

  predicate United(k: OptionName, a: OptionValue, b: OptionValue) {
    (a.List? && b.List?) || (k == ATTRIBUTES && a.Lists? && b.Lists?)
  }

  /** Lists are united, and so are the lists of `attributes`; otherwise the right side wins where it says anything. */
  function MergedOthers(a: map<OptionName, OptionValue>, b: map<OptionName, OptionValue>):
      (r: map<OptionName, OptionValue>)
    ensures r.Keys == a.Keys + b.Keys
    ensures forall k, x :: k in a && k in b && a[k].List? && b[k].List? ==>
              r[k].List? && (x in r[k].ids <==> x in a[k].ids || x in b[k].ids)
    ensures forall k :: k in b && !(k in a && United(k, a[k], b[k])) ==> r[k] == b[k]
    ensures forall k :: k in a && k !in b ==> r[k] == a[k]
    ensures forall k, n, x :: k == ATTRIBUTES && k in a && k in b && a[k].Lists? && b[k].Lists? ==>
              && r[k].Lists? && r[k].entries.Keys == a[k].entries.Keys + b[k].entries.Keys
              && (n in r[k].entries ==> (x in r[k].entries[n] <==> (n in a[k].entries && x in a[k].entries[n]) ||
                                                                   (n in b[k].entries && x in b[k].entries[n])))
  {
    map k | k in a.Keys + b.Keys ::
      if k !in b then a[k]
      else if k in a && a[k].List? && b[k].List? then List(Distinct(a[k].ids + b[k].ids))
      else if k in a && k == ATTRIBUTES && a[k].Lists? && b[k].Lists? then
        Lists(MergedEntries(a[k].entries, b[k].entries))
      else b[k]
  }

  /** `_assignOptions`. */
  function Assigned(a: Include, b: Include): Include
    decreases b, 0
  {
    Include(a.association,
            if b.where.None? then a.where else MergeWheres(a.where, b.where),
            if b.nested.NotGiven? then a.nested else Combined(a.nested, b.nested),
            MergedOthers(a.others, b.others))
  }

  function Combined(a: IncludeOption, b: IncludeOption): IncludeOption
    decreases b, 1
  {
    if a.NotGiven? then b else if b.NotGiven? then a else Given(Pushed(a.list, b.list))
  }

  function Pushed(list: seq<Include>, more: seq<Include>): seq<Include>
    decreases more, 0
  {
    if more == [] then list
    else
      var before := Pushed(list, more[..|more| - 1]);
      var x := Last(more);
      var i := Find(before, x.association);
      if i == |before| then before + [x] else before[i := Assigned(before[i], x)]
  }

  method AssignOptions(a: Include, b: Include) returns (r: Include)
    ensures r == Assigned(a, b)
    decreases b, 0
  {
    r := a;
    if b.where.Some? {
      r := r.(where := MergeWheres(a.where, b.where));
    }
    if b.nested.Given? {
      var nested := CombineIncludes(a.nested, b.nested);
      r := r.(nested := nested);
    }
    r := r.(others := MergedOthers(a.others, b.others));
  }

  method CombineIncludes(a: IncludeOption, b: IncludeOption) returns (r: IncludeOption)
    ensures r == Combined(a, b)
    decreases b, 1
  {
    if a.NotGiven? {
      return b;
    }
    if b.NotGiven? {
      return a;
    }
    var combined := PushAll(a.list, b.list);
    r := Given(combined);
  }

  method PushAll(a: seq<Include>, b: seq<Include>) returns (combined: seq<Include>)
    ensures combined == Pushed(a, b)
    decreases b, 0
  {
    combined := a;
    for k := 0 to |b|
      invariant combined == Pushed(a, b[..k])
    {
      var newInclude := b[k];
      assert b[..k + 1][..k] == b[..k] && Last(b[..k + 1]) == newInclude;
      var existing := Find(combined, newInclude.association);
      if existing == |combined| {
        combined := combined + [newInclude];
      } else {
        var merged := AssignOptions(combined[existing], newInclude);
        combined := combined[existing := merged];
      }
    }
    assert b[..|b|] == b;
  }

  // ----- options -----

  /** Two lists are united with the left one's elements first. */
  lemma LeftIdsFirst(a: map<OptionName, OptionValue>, b: map<OptionName, OptionValue>, k: OptionName)
    requires k in a && k in b && a[k].List? && b[k].List? && NoRepeats(a[k].ids)
    ensures MergedOthers(a, b)[k].List? && a[k].ids <= MergedOthers(a, b)[k].ids
  {
    DistinctKeepsOrder(a[k].ids, b[k].ids);
  }

  /** The include of an association in the merge: the one of the side that has it, or both merged, left first; and then
      an option that only one side gives stays, and the right side's wins unless both are lists or `attributes`. */
  lemma {:induction false} EachIncludeMerged(a: seq<Include>, b: seq<Include>, s: Association)
    requires NoRepeats(Names(b))
    ensures var i, j, r := Find(a, s), Find(b, s), Pushed(a, b); var n := Find(r, s);
            && (n < |r| <==> i < |a| || j < |b|)
            && (i < |a| && j == |b| ==> r[n] == a[i])
            && (i == |a| && j < |b| ==> r[n] == b[j])
            && (i < |a| && j < |b| ==>
                  && r[n] == Assigned(a[i], b[j])
                  && (forall k :: k in a[i].others && k !in b[j].others ==>
                        k in r[n].others && r[n].others[k] == a[i].others[k])
                  && (forall k :: k in b[j].others &&
                                  !(k in a[i].others && United(k, a[i].others[k], b[j].others[k])) ==>
                        k in r[n].others && r[n].others[k] == b[j].others[k]))
    decreases |b|
  {
    if b != [] {
      var b', x := b[..|b| - 1], Last(b);
      EachIncludeMerged(a, b', s);
      var before := Pushed(a, b');
      var q := Find(before, x.association);
      FindLast(b, s);
      assert Pushed(a, b) == if q == |before| then before + [x] else before[q := Assigned(before[q], x)];
      assert forall y, z :: Assigned(y, z).association == y.association;
      hide Pushed, Find, Assigned;
      if q < |before| {
        assert Names(Pushed(a, b)) == Names(before);
        SameNames(before, Pushed(a, b), s);
      } else {
        OneMoreName(before, x, s);
      }
    }
  }

  lemma SameNames(a: seq<Include>, b: seq<Include>, s: Association)
    requires Names(a) == Names(b)
    ensures Find(a, s) == Find(b, s)
  {
  }

  lemma OneMoreName(list: seq<Include>, x: Include, s: Association)
    ensures Find(list + [x], s) == if Find(list, s) < |list| then Find(list, s)
                                   else if x.association == s then |list| else |list| + 1
  {
    var r, n := list + [x], Find(list, s);
    if n < |list| {
      assert r[n].association == s;
    } else if x.association == s {
      assert r[|list|].association == s;
    }
  }

  lemma {:induction false} FindLast(list: seq<Include>, s: Association)
    requires list != [] && NoRepeats(Names(list))
    ensures var l', x := list[..|list| - 1], Last(list);
            NoRepeats(Names(l')) &&
            (Find(list, s) == if x.association == s then |l'| else if Find(l', s) == |l'| then |list| else Find(l', s))
  {
    assert Names(list) == Names(list[..|list| - 1]) + [Last(list).association];
  }

  // ----- order -----

  /** The names in `more` that are new, each once, after those in `names`. */
  function AppendNew(names: seq<Association>, more: seq<Association>): seq<Association> {
    if more == [] then names
    else
      var before := AppendNew(names, more[..|more| - 1]);
      if Last(more) in before then before else before + [Last(more)]
  }

  /** The left list keeps its order; the associations it lacks follow in the order of the right list. */
  lemma {:induction false} OrderIsKept(a: seq<Include>, b: seq<Include>)
    ensures Names(Pushed(a, b)) == AppendNew(Names(a), Names(b))
    decreases |b|
  {
    if b != [] {
      var b' := b[..|b| - 1];
      OrderIsKept(a, b');
      assert Names(b)[..|b| - 1] == Names(b');
      var before := Pushed(a, b');
      var i := Find(before, Last(b).association);
      if i < |before| {
        assert Names(before)[i] == Last(b).association;
      } else {
        assert Last(b).association !in Names(before);
      }
    }
  }

  /** No association is repeated if none is in the left list; the left list's associations come first. */
  lemma {:induction false} NoAssociationRepeats(a: seq<Include>, b: seq<Include>)
    ensures NoRepeats(Names(a)) ==> NoRepeats(Names(Pushed(a, b)))
    ensures Names(a) <= Names(Pushed(a, b))
    ensures forall x :: x in Names(Pushed(a, b)) <==> x in Names(a) || x in Names(b)
  {
    OrderIsKept(a, b);
    AppendNewFacts(Names(a), Names(b));
  }

  lemma {:induction false} AppendNewFacts(a: seq<Association>, b: seq<Association>)
    ensures var r := AppendNew(a, b);
            && (NoRepeats(a) ==> NoRepeats(r)) && a <= r
            && forall x :: x in r <==> x in a || x in b
    decreases |b|
  {
    if b != [] {
      AppendNewFacts(a, b[..|b| - 1]);
      assert b == b[..|b| - 1] + [Last(b)];
    }
  }

  // ----- meaning -----

  function Nested(x: Include): seq<Include> {
    if x.nested.Given? then x.nested.list else []
  }

  /** The condition on what is included along a path of associations: that of every include on it. */
  function ConditionAt(list: seq<Include>, path: seq<Association>, row: Row): Option<Truth>
    requires path != []
    decreases list, 1
  {
    if list == [] then None
    else Join2(Conjunction, ConditionOf(list[0], path, row), ConditionAt(list[1..], path, row))
  }

  function ConditionOf(x: Include, path: seq<Association>, row: Row): Option<Truth>
    requires path != []
    decreases x, 0
  {
    if x.association != path[0] then None
    else if |path| == 1 then Filter(x.where, row)
    else ConditionIn(x.nested, path[1..], row)
  }

  function ConditionIn(list: IncludeOption, path: seq<Association>, row: Row): Option<Truth>
    requires path != []
    decreases list, 2
  {
    match list
    case NotGiven => None
    case Given(l) => ConditionAt(l, path, row)
  }

  /** Whether anything is included along a path. */
  predicate Present(list: seq<Include>, path: seq<Association>)
    requires path != []
    decreases |path|
  {
    exists i :: 0 <= i < |list| && list[i].association == path[0] &&
                (|path| == 1 || Present(Nested(list[i]), path[1..]))
  }

  lemma {:induction false} ConditionConcat(a: seq<Include>, b: seq<Include>, path: seq<Association>, row: Row)
    requires path != []
    ensures ConditionAt(a + b, path, row) == Join2(Conjunction, ConditionAt(a, path, row), ConditionAt(b, path, row))
    decreases |a|
  {
    if a == [] {
      assert a + b == b;
    } else {
      assert (a + b)[1..] == a[1..] + b;
      ConditionConcat(a[1..], b, path, row);
    }
  }

  lemma {:induction false} ConditionSingle(x: Include, path: seq<Association>, row: Row)
    requires path != []
    ensures ConditionAt([x], path, row) == ConditionOf(x, path, row)
  {
  }

  lemma {:induction false} ConditionUpdate(list: seq<Include>, i: nat, y: Include, extra: Option<Truth>,
                                           path: seq<Association>, row: Row)
    requires path != [] && i < |list|
    requires ConditionOf(y, path, row) == Join2(Conjunction, ConditionOf(list[i], path, row), extra)
    ensures ConditionAt(list[i := y], path, row) == Join2(Conjunction, ConditionAt(list, path, row), extra)
  {
    var x, pre, post := list[i], list[..i], list[i + 1..];
    assert list == pre + [x] + post && list[i := y] == pre + [y] + post;
    ConditionConcat(pre + [x], post, path, row);
    ConditionConcat(pre, [x], path, row);
    ConditionConcat(pre + [y], post, path, row);
    ConditionConcat(pre, [y], path, row);
    ConditionSingle(x, path, row);
    ConditionSingle(y, path, row);
  }

  lemma {:induction false} AssignedMeansAnd(a: Include, b: Include, path: seq<Association>, row: Row)
    requires path != [] && a.association == b.association
    ensures ConditionOf(Assigned(a, b), path, row) ==
            Join2(Conjunction, ConditionOf(a, path, row), ConditionOf(b, path, row))
    decreases b, 0
  {
    if a.association == path[0] {
      if |path| == 1 {
        MergeMeansAnd(a.where, b.where, row);
      } else {
        CombinedMeansAnd(a.nested, b.nested, path[1..], row);
      }
    }
  }

  lemma {:induction false} CombinedMeansAnd(a: IncludeOption, b: IncludeOption,
                                            path: seq<Association>, row: Row)
    requires path != []
    ensures ConditionIn(Combined(a, b), path, row) ==
            Join2(Conjunction, ConditionIn(a, path, row), ConditionIn(b, path, row))
    decreases b, 2
  {
    if a.Given? && b.Given? { PushedMeansAnd(a.list, b.list, path, row); }
  }

  /** For every path of associations, the merged condition is the conjunction of both sides' conditions. */
  lemma {:induction false} PushedMeansAnd(a: seq<Include>, b: seq<Include>, path: seq<Association>, row: Row)
    requires path != []
    ensures ConditionAt(Pushed(a, b), path, row) ==
            Join2(Conjunction, ConditionAt(a, path, row), ConditionAt(b, path, row))
    decreases b, 1
  {
    if b != [] {
      var b', x := b[..|b| - 1], Last(b);
      assert b == b' + [x];
      PushedMeansAnd(a, b', path, row);
      ConditionConcat(b', [x], path, row);
      ConditionSingle(x, path, row);
      var before := Pushed(a, b');
      var i := Find(before, x.association);
      assert Pushed(a, b) == if i == |before| then before + [x] else before[i := Assigned(before[i], x)];
      hide Pushed, ConditionAt, ConditionOf;
      if i == |before| {
        ConditionConcat(before, [x], path, row);
      } else {
        AssignedMeansAnd(before[i], x, path, row);
        ConditionUpdate(before, i, Assigned(before[i], x), ConditionOf(x, path, row), path, row);
      }
    }
  }

  /** A path is included in the merge if and only if one of the sides includes it. */
  lemma {:induction false} PushedPresence(a: seq<Include>, b: seq<Include>, path: seq<Association>)
    requires path != []
    ensures Present(Pushed(a, b), path) <==> Present(a, path) || Present(b, path)
    decreases b, 1
  {
    if b != [] {
      var b', x := b[..|b| - 1], Last(b);
      assert b == b' + [x];
      PushedPresence(a, b', path);
      var before := Pushed(a, b');
      var i := Find(before, x.association);
      PresentConcat(b', [x], path);
      if i == |before| {
        PresentConcat(before, [x], path);
      } else {
        AssignedPresence(before[i], x, path);
        PresentUpdate(before, i, Assigned(before[i], x), x, path);
      }
    }
  }

  predicate PresentIn(x: Include, path: seq<Association>)
    requires path != []
  {
    x.association == path[0] && (|path| == 1 || Present(Nested(x), path[1..]))
  }

  lemma {:induction false} AssignedPresence(a: Include, b: Include, path: seq<Association>)
    requires path != [] && a.association == b.association
    ensures PresentIn(Assigned(a, b), path) <==> PresentIn(a, path) || PresentIn(b, path)
    decreases b, 0
  {
    if |path| > 1 { CombinedPresence(a.nested, b.nested, path[1..]); }
  }

  lemma {:induction false} CombinedPresence(a: IncludeOption, b: IncludeOption, path: seq<Association>)
    requires path != []
    ensures var r := Combined(a, b);
            r.Given? && Present(r.list, path) <==>
            (a.Given? && Present(a.list, path)) || (b.Given? && Present(b.list, path))
    decreases b, 2
  {
    if a.Given? && b.Given? { PushedPresence(a.list, b.list, path); }
  }

  lemma {:induction false} PresentConcat(a: seq<Include>, b: seq<Include>, path: seq<Association>)
    requires path != []
    ensures Present(a + b, path) <==> Present(a, path) || Present(b, path)
  {
    if Present(a, path) {
      var i :| 0 <= i < |a| && PresentIn(a[i], path);
      assert PresentIn((a + b)[i], path);
    }
    if Present(b, path) {
      var i :| 0 <= i < |b| && PresentIn(b[i], path);
      assert PresentIn((a + b)[|a| + i], path);
    }
    if Present(a + b, path) {
      var i :| 0 <= i < |a + b| && PresentIn((a + b)[i], path);
      if i < |a| { assert PresentIn(a[i], path); } else { assert PresentIn(b[i - |a|], path); }
    }
  }

  lemma PresentSingle(x: Include, path: seq<Association>)
    requires path != []
    ensures Present([x], path) <==> PresentIn(x, path)
  {
    assert PresentIn([x][0], path) <==> PresentIn(x, path);
  }

  lemma {:induction false} PresentUpdate(list: seq<Include>, i: nat, y: Include, x: Include, path: seq<Association>)
    requires path != [] && i < |list|
    requires PresentIn(y, path) <==> PresentIn(list[i], path) || PresentIn(x, path)
    ensures Present(list[i := y], path) <==> Present(list, path) || Present([x], path)
  {
    var pre, post := list[..i], list[i + 1..];
    assert list == pre + [list[i]] + post && list[i := y] == pre + [y] + post;
    PresentConcat(pre + [list[i]], post, path);
    PresentConcat(pre, [list[i]], path);
    PresentConcat(pre + [y], post, path);
    PresentConcat(pre, [y], path);
    PresentSingle(list[i], path);
    PresentSingle(y, path);
    PresentSingle(x, path);
  }
}
