/** Preparing the include tree of a find: scopes bring filters and further includes, from the top down, and their
    models' scopes bring more. */
module ScopedFinds {
  import opened Common
  import opened Filters
  import opened IncludeMerging

  /** `others` are all options of a scope that are neither `where` nor `include`. */
  datatype Scope = Scope(where: Option<Where>, nested: IncludeOption, others: map<OptionName, OptionValue>)

  /** What comes with an association: the scope of the model it leads to, its own scope, and the condition that a
      row of that model is not deleted, if the model is paranoid. */
  datatype Target = Target(scope: Scope, associationScope: Option<Where>, notDeleted: Option<nat>)

  /** The find itself is the include of an association that has no scope of its own. */
  type Env = Association -> Target

  const PARANOID: OptionName := 0
  const OFF := Scalar(0)

  /** The options of an include and of the scope of its model; the include's win. */
  function OthersOf(env: Env, x: Include): map<OptionName, OptionValue> {
    MergedOthers(env(x.association).scope.others, x.others)
  }

  /** Unless turned off with `paranoid: false`, by the include or, if that does not say, by the scope. */
  predicate KeepsParanoid(env: Env, x: Include) {
    var others := OthersOf(env, x);
    PARANOID !in others || others[PARANOID] != OFF
  }

  function NotDeleted(env: Env, x: Include): Option<nat> {
    if KeepsParanoid(env, x) then env(x.association).notDeleted else None
  }

  function WhereOf(env: Env, x: Include): Option<Where> {
    var t := env(x.association);
    FinalWhere(t.scope.where, x.where, t.associationScope, NotDeleted(env, x))
  }

  /** `_injectScope`: the includes of the scope come first. */
  function Injected(env: Env, x: Include): IncludeOption {
    Combined(env(x.association).scope.nested, x.nested)
  }

  function ListOf(o: IncludeOption): seq<Include> {
    if o.Given? then o.list else []
  }

  function Children(env: Env, x: Include): seq<Include> {
    ListOf(Injected(env, x))
  }

  /** The recursion over the includes goes at most `depth` levels down. */
  predicate Ends(env: Env, list: seq<Include>, depth: nat)
    decreases depth
  {
    list == [] || (depth > 0 && forall x :: x in list ==> Ends(env, Children(env, x), depth - 1))
  }

  function Prepared(env: Env, list: seq<Include>, depth: nat): (r: seq<Include>)
    requires Ends(env, list, depth)
    decreases depth, |list|
  {
    if list == [] then [] else [PreparedOne(env, list[0], depth)] + Prepared(env, list[1..], depth)
  }

  /** In the source the paranoid clauses come in a second walk over the finished tree. */
  function PreparedOne(env: Env, x: Include, depth: nat): Include
    requires depth > 0 && Ends(env, Children(env, x), depth - 1)
    decreases depth, 0
  {
    x.(where := WhereOf(env, x), others := OthersOf(env, x),
       nested := if Injected(env, x).NotGiven? then NotGiven else Given(Prepared(env, Children(env, x), depth - 1)))
  }

  /** `_validateIncludedElements`: each include gets its scopes, then its includes are prepared in turn. */
  method PrepareIncludes(env: Env, list: seq<Include>, ghost depth: nat) returns (r: seq<Include>)
    requires Ends(env, list, depth)
    ensures r == Prepared(env, list, depth)
    decreases depth
  {
    hide Prepared, Ends, WhereOf;
    r := [];
    assert list[0..] == list;
    for k := 0 to |list|
      invariant Ends(env, list[k..], depth)
      invariant Prepared(env, list, depth) == r + Prepared(env, list[k..], depth)
    {
      var x := list[k];
      OneByOne(env, list, k, depth);
      var nested := Injected(env, x);
      if nested.Given? {
        var children := PrepareIncludes(env, nested.list, depth - 1);
        nested := Given(children);
      }
      r := r + [x.(where := WhereOf(env, x), others := OthersOf(env, x), nested := nested)];
    }
    NothingLeft(env, depth);
    assert list[|list|..] == [];
  }

  lemma OneByOne(env: Env, list: seq<Include>, k: nat, depth: nat)
    requires k < |list| && Ends(env, list[k..], depth)
    ensures depth > 0 && Ends(env, Children(env, list[k]), depth - 1) && Ends(env, list[k + 1..], depth)
    ensures Prepared(env, list[k..], depth) ==
            [PreparedOne(env, list[k], depth)] + Prepared(env, list[k + 1..], depth)
  {
    assert list[k..][0] == list[k] && list[k..][1..] == list[k + 1..];
    assert forall x :: x in list[k + 1..] ==> x in list[k..];
  }

  lemma NothingLeft(env: Env, depth: nat)
    ensures Ends(env, [], depth) && Prepared(env, [], depth) == []
  {
  }

  // ----- what is included, and under which condition -----

  /** An include is met along the path, once all scopes are injected. */
  predicate Reached(env: Env, list: seq<Include>, path: seq<Association>)
    requires path != []
    decreases |path|
  {
    exists x :: x in list && ReachedOf(env, x, path)
  }

  predicate ReachedOf(env: Env, x: Include, path: seq<Association>)
    requires path != []
    decreases |path|, 0
  {
    x.association == path[0] && (|path| == 1 || Reached(env, Children(env, x), path[1..]))
  }

  /** `paranoid: false` is said by the include or, if that says nothing, by the scope of its model. */
  predicate TurnedOff(env: Env, x: Include) {
    var own, scope := x.others, env(x.association).scope.others;
    if PARANOID in own then own[PARANOID] == OFF else PARANOID in scope && scope[PARANOID] == OFF
  }

  lemma KeptUnlessTurnedOff(env: Env, x: Include)
    ensures KeepsParanoid(env, x) <==> !TurnedOff(env, x)
  {
  }

  /** And one for which the paranoid clause is not turned off. */
  predicate ParanoidAt(env: Env, list: seq<Include>, path: seq<Association>)
    requires path != []
    decreases |path|
  {
    exists x :: x in list && ParanoidOf(env, x, path)
  }

  predicate ParanoidOf(env: Env, x: Include, path: seq<Association>)
    requires path != []
    decreases |path|, 0
  {
    x.association == path[0] &&
    if |path| == 1 then !TurnedOff(env, x) else ParanoidAt(env, Children(env, x), path[1..])
  }

  function Both(a: Option<Truth>, b: Option<Truth>): Option<Truth> {
    Join2(Conjunction, a, b)
  }

  /** What the scopes of the models on the way include along the path. */
  function ScopesOnTheWay(env: Env, path: seq<Association>, row: Row): Option<Truth>
    requires path != []
    decreases |path|
  {
    if |path| == 1 then None
    else Both(ConditionIn(env(path[0]).scope.nested, path[1..], row), ScopesOnTheWay(env, path[1..], row))
  }

  /** The conditions that do not depend on the includes of the find: those of the scopes on the way, of the scope of
      the model at the end, and of the last association. */
  function FromScopes(env: Env, path: seq<Association>, row: Row): Option<Truth>
    requires path != []
  {
    var t := env(Last(path));
    Both(ScopesOnTheWay(env, path, row), Both(Filter(t.scope.where, row), Filter(t.associationScope, row)))
  }

  function IfNotDeleted(env: Env, path: seq<Association>, on: bool, row: Row): Option<Truth>
    requires path != []
  {
    var d := env(Last(path)).notDeleted;
    if on && d.Some? then Some(row(d.value)) else None
  }

  /** What the condition along a path should be. */
  function Expected(env: Env, list: seq<Include>, path: seq<Association>, row: Row): Option<Truth>
    requires path != []
  {
    if !Reached(env, list, path) then None
    else Both(ConditionAt(list, path, row),
              Both(IfNotDeleted(env, path, ParanoidAt(env, list, path), row), FromScopes(env, path, row)))
  }

  function ExpectedOf(env: Env, x: Include, path: seq<Association>, row: Row): Option<Truth>
    requires path != []
  {
    if !ReachedOf(env, x, path) then None
    else Both(ConditionOf(x, path, row),
              Both(IfNotDeleted(env, path, ParanoidOf(env, x, path), row), FromScopes(env, path, row)))
  }

  lemma BothLaws(a: Option<Truth>, b: Option<Truth>, c: Option<Truth>)
    ensures Both(a, b) == Both(b, a) && Both(Both(a, b), c) == Both(a, Both(b, c)) && Both(a, a) == a
  {
  }

  lemma {:induction false} Merged(c1: Option<Truth>, n1: Option<Truth>, c2: Option<Truth>, n2: Option<Truth>,
                                  r: Option<Truth>)
    ensures Both(Both(c1, Both(n1, r)), Both(c2, Both(n2, r))) == Both(Both(c1, c2), Both(Both(n1, n2), r))
  {
    hide Both;
    calc {
      Both(Both(c1, Both(n1, r)), Both(c2, Both(n2, r)));
      { Swapped(c1, Both(n1, r), c2, Both(n2, r)); }
      Both(Both(c1, c2), Both(Both(n1, r), Both(n2, r)));
      { Swapped(n1, r, n2, r); BothLaws(r, r, r); }
      Both(Both(c1, c2), Both(Both(n1, n2), r));
    }
  }

  lemma {:induction false} Swapped(a: Option<Truth>, b: Option<Truth>, c: Option<Truth>, d: Option<Truth>)
    ensures Both(Both(a, b), Both(c, d)) == Both(Both(a, c), Both(b, d))
  {
    hide Both;
    BothLaws(a, b, Both(c, d));
    BothLaws(b, c, d);
    BothLaws(c, b, d);
    BothLaws(a, c, Both(b, d));
  }

  /** A find's own tree only includes what is reached. */
  lemma {:induction false} PresentIsReached(env: Env, list: seq<Include>, path: seq<Association>)
    requires path != [] && Present(list, path)
    ensures Reached(env, list, path)
    decreases |path|
  {
    var i :| 0 <= i < |list| && list[i].association == path[0] &&
             (|path| == 1 || Present(Nested(list[i]), path[1..]));
    if |path| > 1 {
      CombinedPresence(env(path[0]).scope.nested, list[i].nested, path[1..]);
      PresentIsReached(env, Children(env, list[i]), path[1..]);
    }
    assert ReachedOf(env, list[i], path);
  }

  lemma {:induction false} AbsentIsNone(list: seq<Include>, path: seq<Association>, row: Row)
    requires path != [] && !Present(list, path)
    ensures ConditionAt(list, path, row) == None
    decreases |path|, |list|
  {
    if list != [] {
      assert list == [list[0]] + list[1..];
      PresentConcat([list[0]], list[1..], path);
      AbsentIsNone(list[1..], path, row);
      PresentSingle(list[0], path);
      if |path| > 1 && list[0].association == path[0] {
        assert ConditionOf(list[0], path, row) == ConditionIn(list[0].nested, path[1..], row);
        AbsentIsNone(Nested(list[0]), path[1..], row);
      }
    }
  }

  lemma {:induction false} UnreachedIsNone(env: Env, list: seq<Include>, path: seq<Association>, row: Row)
    requires path != [] && !Reached(env, list, path)
    ensures ConditionAt(list, path, row) == None && !ParanoidAt(env, list, path)
    decreases |path|
  {
    if Present(list, path) { PresentIsReached(env, list, path); }
    AbsentIsNone(list, path, row);
    forall x | x in list ensures !ParanoidOf(env, x, path) {
      if |path| > 1 && x.association == path[0] {
        assert !ReachedOf(env, x, path);
        UnreachedIsNone(env, Children(env, x), path[1..], row);
      }
    }
  }

  lemma {:induction false} ExpectedConcat(env: Env, x: Include, tail: seq<Include>, path: seq<Association>, row: Row)
    requires path != []
    ensures Expected(env, [x] + tail, path, row) == Both(ExpectedOf(env, x, path, row), Expected(env, tail, path, row))
  {
    var list := [x] + tail;
    assert list[0] == x && list[1..] == tail && forall y :: y in list <==> y == x || y in tail;
    assert Reached(env, list, path) <==> ReachedOf(env, x, path) || Reached(env, tail, path);
    assert ParanoidAt(env, list, path) <==> ParanoidOf(env, x, path) || ParanoidAt(env, tail, path);
    assert ConditionAt(list, path, row) == Both(ConditionOf(x, path, row), ConditionAt(tail, path, row));
    if !Reached(env, tail, path) { UnreachedIsNone(env, tail, path, row); }
    if !ReachedOf(env, x, path) { UnreachedOne(env, x, path, row); }
    hide Reached, ReachedOf, ParanoidAt, ParanoidOf, ConditionAt, ConditionOf, FromScopes;
    var r := FromScopes(env, path, row);
    Merged(ConditionOf(x, path, row), IfNotDeleted(env, path, ParanoidOf(env, x, path), row),
           ConditionAt(tail, path, row), IfNotDeleted(env, path, ParanoidAt(env, tail, path), row), r);
  }

  lemma {:induction false} UnreachedOne(env: Env, x: Include, path: seq<Association>, row: Row)
    requires path != [] && !ReachedOf(env, x, path)
    ensures ConditionOf(x, path, row) == None && !ParanoidOf(env, x, path)
  {
    assert [x][1..] == [];
    ConditionSingle(x, path, row);
    assert forall y :: y in [x] <==> y == x;
    UnreachedIsNone(env, [x], path, row);
    assert ParanoidAt(env, [x], path) <==> ParanoidOf(env, x, path);
  }

  lemma {:induction false} EffectiveOne(env: Env, x: Include, depth: nat, path: seq<Association>, row: Row)
    requires depth > 0 && Ends(env, Children(env, x), depth - 1) && path != []
    ensures ConditionOf(PreparedOne(env, x, depth), path, row) == ExpectedOf(env, x, path, row)
    decreases depth, 0
  {
    if x.association == path[0] {
      var t := env(x.association);
      if |path| == 1 {
        FinalWhereMeans(t.scope.where, x.where, t.associationScope, NotDeleted(env, x), row);
        NodeOrder(Filter(t.scope.where, row), Filter(x.where, row), Filter(t.associationScope, row),
                  IfNotDeleted(env, path, KeepsParanoid(env, x), row));
        KeptUnlessTurnedOff(env, x);
      } else {
        EffectiveAll(env, Children(env, x), depth - 1, path[1..], row);
        ScopeFirst(env, x, path, row);
      }
    }
  }

  lemma {:induction false} NodeOrder(s: Option<Truth>, o: Option<Truth>, a: Option<Truth>, n: Option<Truth>)
    ensures Join(Conjunction, [s, o, a, n]) == Both(o, Both(n, Both(None, Both(s, a))))
  {
    FourParts(s, o, a, n);
    hide Both;
    BothLaws(s, o, a);
    BothLaws(o, s, a);
    BothLaws(Both(s, o), a, n);
    BothLaws(o, Both(s, a), n);
    BothLaws(n, Both(s, a), n);
    assert Both(None, Both(s, a)) == Both(s, a) by { NoneIsUnit(Both(s, a)); }
    JoinIsBoth(s, o, a, n);
  }

  lemma NoneIsUnit(a: Option<Truth>)
    ensures Both(None, a) == a
  {
  }

  lemma JoinIsBoth(s: Option<Truth>, o: Option<Truth>, a: Option<Truth>, n: Option<Truth>)
    ensures Join2(Conjunction, Join2(Conjunction, Join2(Conjunction, s, o), a), n) == Both(Both(Both(s, o), a), n)
  {
  }

  /** What the scope of a model includes joins what the find includes there. */
  lemma {:induction false} ScopeFirst(env: Env, x: Include, path: seq<Association>, row: Row)
    requires |path| > 1 && x.association == path[0]
    ensures Expected(env, Children(env, x), path[1..], row) == ExpectedOf(env, x, path, row)
  {
    var rest, scope := path[1..], env(x.association).scope.nested;
    assert Last(rest) == Last(path);
    if Reached(env, Children(env, x), rest) {
      CombinedMeansAnd(scope, x.nested, rest, row);
      var c, s := ConditionIn(x.nested, rest, row), ConditionIn(scope, rest, row);
      assert ConditionAt(Children(env, x), rest, row) == Both(s, c);
      assert ConditionOf(x, path, row) == c;
      var n := IfNotDeleted(env, path, ParanoidOf(env, x, path), row);
      var w, t := ScopesOnTheWay(env, rest, row), env(Last(path));
      var m := Both(Filter(t.scope.where, row), Filter(t.associationScope, row));
      assert ScopesOnTheWay(env, path, row) == Both(s, w);
      hide Both;
      calc {
        Both(Both(s, c), Both(n, Both(w, m)));
        { BothLaws(s, c, c); BothLaws(c, s, Both(n, Both(w, m))); }
        Both(c, Both(s, Both(n, Both(w, m))));
        { BothLaws(s, n, Both(w, m)); BothLaws(n, s, Both(w, m)); }
        Both(c, Both(n, Both(s, Both(w, m))));
        { BothLaws(s, w, m); }
        Both(c, Both(n, Both(Both(s, w), m)));
      }
    }
  }

  lemma {:induction false} EffectiveAll(env: Env, list: seq<Include>, depth: nat, path: seq<Association>, row: Row)
    requires Ends(env, list, depth) && path != []
    ensures ConditionAt(Prepared(env, list, depth), path, row) == Expected(env, list, path, row)
    decreases depth, |list|
  {
    if list != [] {
      EffectiveOne(env, list[0], depth, path, row);
      EffectiveAll(env, list[1..], depth, path, row);
      assert list == [list[0]] + list[1..];
      ExpectedConcat(env, list[0], list[1..], path, row);
      hide Expected, ExpectedOf, PreparedOne;
      var one, more := PreparedOne(env, list[0], depth), Prepared(env, list[1..], depth);
      assert ([one] + more)[1..] == more;
    }
  }

  /** Along every path of associations from the find, the prepared tree has the condition: what the find's includes
      say AND what the scopes of the models on the way include there AND the scope of the model at the end AND the
      last association's scope AND not deleted; and it selects exactly the rows that all of them select. */
  lemma {:induction false} EffectiveFilter(env: Env, list: seq<Include>, depth: nat, path: seq<Association>, row: Row)
    requires Ends(env, list, depth) && path != []
    ensures ConditionAt(Prepared(env, list, depth), path, row) == Expected(env, list, path, row)
    ensures Reached(env, list, path) ==>
              var t := env(Last(path));
              Selects(ConditionAt(Prepared(env, list, depth), path, row)) <==>
              && Selects(ConditionAt(list, path, row)) && Selects(ScopesOnTheWay(env, path, row))
              && Selects(Filter(t.scope.where, row)) && Selects(Filter(t.associationScope, row))
              && (t.notDeleted.Some? && ParanoidAt(env, list, path) ==> row(t.notDeleted.value) == True)
  {
    EffectiveAll(env, list, depth, path, row);
    hide Ends, Prepared, Reached, ParanoidAt, ConditionAt, ScopesOnTheWay, Both, Filter;
    var t := env(Last(path));
    var s, f := ScopesOnTheWay(env, path, row), FromScopes(env, path, row);
    var n := IfNotDeleted(env, path, ParanoidAt(env, list, path), row);
    SelectsBoth(ConditionAt(list, path, row), Both(n, f));
    SelectsBoth(n, f);
    SelectsBoth(s, Both(Filter(t.scope.where, row), Filter(t.associationScope, row)));
    SelectsBoth(Filter(t.scope.where, row), Filter(t.associationScope, row));
  }

  lemma SelectsBoth(a: Option<Truth>, b: Option<Truth>)
    ensures Selects(Both(a, b)) <==> Selects(a) && Selects(b)
  {
  }

  /** The prepared tree includes exactly what is reached. */
  lemma {:induction false} PreparedPresence(env: Env, list: seq<Include>, depth: nat, path: seq<Association>)
    requires Ends(env, list, depth) && path != []
    ensures Present(Prepared(env, list, depth), path) <==> Reached(env, list, path)
    decreases |path|, |list|
  {
    if list != [] {
      var x, one, more := list[0], PreparedOne(env, list[0], depth), Prepared(env, list[1..], depth);
      PreparedPresence(env, list[1..], depth, path);
      if |path| > 1 { PreparedPresence(env, Children(env, x), depth - 1, path[1..]); }
      PresentConcat([one], more, path);
      PresentSingle(one, path);
      assert forall y :: y in list <==> y == x || y in list[1..];
      assert PresentIn(one, path) <==> ReachedOf(env, x, path);
    }
  }

  /** The prepared includes are the find's, in order; an option that an include or the scope of its model gives alone
      stays, and the include's wins unless both are lists or `attributes`. */
  lemma {:induction false} PreparedOptions(env: Env, list: seq<Include>, depth: nat, n: nat, k: OptionName)
    requires Ends(env, list, depth) && n < |list|
    ensures var r := Prepared(env, list, depth); var x := list[n]; var scope := env(x.association).scope.others;
            && |r| == |list| && r[n].association == x.association
            && (k in r[n].others <==> k in x.others || k in scope)
            && (k in x.others && !(k in scope && United(k, scope[k], x.others[k])) ==> r[n].others[k] == x.others[k])
            && (k in scope && k !in x.others ==> r[n].others[k] == scope[k])
    decreases n
  {
    PreparedLength(env, list, depth);
    if n > 0 { PreparedOptions(env, list[1..], depth, n - 1, k); }
  }

  lemma {:induction false} PreparedLength(env: Env, list: seq<Include>, depth: nat)
    requires Ends(env, list, depth)
    ensures |Prepared(env, list, depth)| == |list|
    decreases |list|
  {
    if list != [] { PreparedLength(env, list[1..], depth); }
  }

  /** The includes of the scope come first, in order, and the options of the include's own nested ones win over those
      of the scope. */
  lemma {:induction false} ScopeIncludesFirst(env: Env, x: Include, s: Association, k: OptionName)
    requires NoRepeats(Names(ListOf(x.nested)))
    ensures var scoped, own, r := ListOf(env(x.association).scope.nested), ListOf(x.nested), Children(env, x);
            var i, j, n := Find(scoped, s), Find(own, s), Find(r, s);
            && Names(scoped) <= Names(r)
            && (n < |r| <==> i < |scoped| || j < |own|)
            && (i < |scoped| && j < |own| && k in own[j].others &&
                !(k in scoped[i].others && United(k, scoped[i].others[k], own[j].others[k])) ==>
                  k in r[n].others && r[n].others[k] == own[j].others[k])
            && (i < |scoped| && j < |own| && k in scoped[i].others && k !in own[j].others ==>
                  k in r[n].others && r[n].others[k] == scoped[i].others[k])
  {
    var scoped, own := ListOf(env(x.association).scope.nested), ListOf(x.nested);
    if env(x.association).scope.nested.Given? && x.nested.Given? {
      EachIncludeMerged(scoped, own, s);
      NoAssociationRepeats(scoped, own);
    }
  }

  // ----- when it ends -----

  /** The recursion goes as deep as the longest path. */
  lemma {:induction false} EndsWithPaths(env: Env, list: seq<Include>, depth: nat)
    ensures Ends(env, list, depth) <==>
            forall path: seq<Association> :: path != [] && Reached(env, list, path) ==> |path| <= depth
    decreases depth
  {
    if Ends(env, list, depth) {
      forall path: seq<Association> | path != [] && Reached(env, list, path) ensures |path| <= depth {
        var x :| x in list && ReachedOf(env, x, path);
        EndsWithPaths(env, Children(env, x), depth - 1);
        if |path| > 1 { assert |path[1..]| <= depth - 1; }
      }
    } else if depth == 0 {
      assert ReachedOf(env, list[0], [list[0].association]);
      assert Reached(env, list, [list[0].association]);
    } else {
      var x :| x in list && !Ends(env, Children(env, x), depth - 1);
      EndsWithPaths(env, Children(env, x), depth - 1);
      var rest: seq<Association> :| rest != [] && Reached(env, Children(env, x), rest) && |rest| > depth - 1;
      var path := [x.association] + rest;
      assert path[1..] == rest && ReachedOf(env, x, path);
      assert Reached(env, list, path);
    }
  }

  /** What the scope of the model behind an association includes. */
  function ScopeIncludes(env: Env, a: Association): seq<Include> {
    ListOf(env(a).scope.nested)
  }

  /** The association is somewhere in a tree of includes. */
  ghost predicate Occurs(list: seq<Include>, a: Association) {
    exists p: seq<Association> :: p != [] && Last(p) == a && Present(list, p)
  }

  /** Each association occurs in what the scope behind the one before it includes, the first in the find. */
  ghost predicate ScopeChain(env: Env, list: seq<Include>, c: seq<Association>) {
    && c != [] && Occurs(list, c[0])
    && forall i :: 0 <= i < |c| - 1 ==> Occurs(ScopeIncludes(env, c[i]), c[i + 1])
  }

  lemma {:induction false} ReachedFurther(env: Env, list: seq<Include>, p: seq<Association>, q: seq<Association>)
    requires p != [] && q != [] && Reached(env, list, p) && Present(ScopeIncludes(env, Last(p)), q)
    ensures Reached(env, list, p + q)
    decreases |p|
  {
    var x :| x in list && ReachedOf(env, x, p);
    if |p| == 1 {
      CombinedPresence(env(p[0]).scope.nested, x.nested, q);
      PresentIsReached(env, Children(env, x), q);
      assert (p + q)[1..] == q;
    } else {
      ReachedFurther(env, Children(env, x), p[1..], q);
      assert (p + q)[1..] == p[1..] + q;
    }
    assert ReachedOf(env, x, p + q);
  }

  lemma {:induction false} ChainIsReached(env: Env, list: seq<Include>, c: seq<Association>)
    returns (path: seq<Association>)
    requires ScopeChain(env, list, c)
    ensures path != [] && Reached(env, list, path) && |path| >= |c| && Last(path) == Last(c)
    decreases |c|
  {
    if |c| == 1 {
      path :| path != [] && Last(path) == c[0] && Present(list, path);
      PresentIsReached(env, list, path);
    } else {
      var p := ChainIsReached(env, list, c[..|c| - 1]);
      var q: seq<Association> :| q != [] && Last(q) == Last(c) && Present(ScopeIncludes(env, c[|c| - 2]), q);
      ReachedFurther(env, list, p, q);
      path := p + q;
    }
  }

  /** A path is in the find's own tree, or its end is in what the scope of some model on it includes. */
  lemma {:induction false} LastScope(env: Env, list: seq<Include>, path: seq<Association>) returns (j: nat)
    requires path != [] && Reached(env, list, path)
    ensures j < |path|
    ensures if j == 0 then Present(list, path)
            else Reached(env, list, path[..j]) && Present(ScopeIncludes(env, path[j - 1]), path[j..])
    decreases |path|
  {
    var x :| x in list && ReachedOf(env, x, path);
    if |path| == 1 {
      InOwnTree(list, x, path);
      return 0;
    }
    var rest := path[1..];
    var k := LastScope(env, Children(env, x), rest);
    if k == 0 {
      CombinedPresence(env(path[0]).scope.nested, x.nested, rest);
      if Present(Nested(x), rest) {
        InOwnTree(list, x, path);
        return 0;
      }
      OneStep(env, list, x, path);
      return 1;
    }
    OneMore(env, list, x, path, k);
    return k + 1;
  }

  lemma InOwnTree(list: seq<Include>, x: Include, path: seq<Association>)
    requires x in list && path != [] && PresentIn(x, path)
    ensures Present(list, path)
  {
    var i :| 0 <= i < |list| && list[i] == x;
  }

  lemma OneStep(env: Env, list: seq<Include>, x: Include, path: seq<Association>)
    requires x in list && |path| > 1 && x.association == path[0]
    ensures Reached(env, list, path[..1]) && path[..1] == [path[0]]
  {
    assert ReachedOf(env, x, path[..1]);
  }

  lemma OneMore(env: Env, list: seq<Include>, x: Include, path: seq<Association>, k: nat)
    requires x in list && |path| > 1 && x.association == path[0] && 0 < k < |path| - 1
    requires Reached(env, Children(env, x), path[1..][..k])
    ensures Reached(env, list, path[..k + 1]) && path[k + 1..] == path[1..][k..]
  {
    assert path[..k + 1][1..] == path[1..][..k];
    assert ReachedOf(env, x, path[..k + 1]);
  }

  function Height(list: seq<Include>): nat
    decreases list, 1
  {
    if list == [] then 0
    else if HeightOf(list[0]) > Height(list[1..]) then HeightOf(list[0]) else Height(list[1..])
  }

  function HeightOf(x: Include): nat
    decreases x, 0
  {
    1 + match x.nested case NotGiven => 0 case Given(l) => Height(l)
  }

  lemma {:induction false} HeightBounds(list: seq<Include>, path: seq<Association>)
    requires path != [] && Present(list, path)
    ensures |path| <= Height(list)
    decreases |path|, |list|
  {
    var i :| 0 <= i < |list| && list[i].association == path[0] &&
             (|path| == 1 || Present(Nested(list[i]), path[1..]));
    if i > 0 {
      assert PresentIn(list[1..][i - 1], path);
      HeightBounds(list[1..], path);
    } else if |path| > 1 {
      HeightBounds(Nested(list[0]), path[1..]);
    }
  }

  lemma {:induction false} Highest(env: Env, all: set<Association>) returns (h: nat)
    ensures forall a :: a in all ==> Height(ScopeIncludes(env, a)) <= h
    decreases all
  {
    h := 0;
    if all != {} {
      var a :| a in all;
      h := Highest(env, all - {a});
      if Height(ScopeIncludes(env, a)) > h { h := Height(ScopeIncludes(env, a)); }
    }
  }

  /** A long path needs a long chain. */
  lemma {:induction false} PathIsChained(env: Env, list: seq<Include>, all: set<Association>, h: nat,
                                         path: seq<Association>) returns (c: seq<Association>)
    requires path != [] && Reached(env, list, path) && Height(list) <= h
    requires forall a :: a in all ==> Height(ScopeIncludes(env, a)) <= h
    requires forall c: seq<Association> :: ScopeChain(env, list, c) ==> forall a :: a in c ==> a in all
    ensures ScopeChain(env, list, c) && Last(c) == Last(path) && |path| <= h * |c|
    decreases |path|
  {
    hide Reached, ScopeChain, Occurs, Present, Height, ScopeIncludes;
    var j := LastScope(env, list, path);
    if j == 0 {
      c := [Last(path)];
      HeightBounds(list, path);
      StartChain(env, list, path);
    } else {
      var d := PathIsChained(env, list, all, h, path[..j]);
      assert Last(d) == path[j - 1] && Last(d) in d && Last(path[j..]) == Last(path);
      assert Height(ScopeIncludes(env, path[j - 1])) <= h;
      HeightBounds(ScopeIncludes(env, path[j - 1]), path[j..]);
      c := d + [Last(path)];
      LongerChain(env, list, d, path[j..]);
      assert h * |c| == h * |d| + h;
    }
  }

  lemma StartChain(env: Env, list: seq<Include>, path: seq<Association>)
    requires path != [] && Present(list, path)
    ensures ScopeChain(env, list, [Last(path)])
  {
  }

  lemma LongerChain(env: Env, list: seq<Include>, c: seq<Association>, p: seq<Association>)
    requires ScopeChain(env, list, c) && p != [] && Present(ScopeIncludes(env, Last(c)), p)
    ensures ScopeChain(env, list, c + [Last(p)])
  {
  }

  lemma {:induction false} RoundAgain(env: Env, list: seq<Include>, c: seq<Association>, n: nat)
    returns (d: seq<Association>)
    requires ScopeChain(env, list, c) && !NoRepeats(c)
    ensures ScopeChain(env, list, d) && !NoRepeats(d) && |d| > n
  {
    if n == 0 {
      d := c;
    } else {
      var e := RoundAgain(env, list, c, n - 1);
      var i, j :| 0 <= i < j < |e| && e[i] == e[j];
      d := e[..j] + e[i..];
      forall k | 0 <= k < |d| - 1 ensures Occurs(ScopeIncludes(env, d[k]), d[k + 1]) {
        if k < j - 1 {
          assert d[k] == e[k] && d[k + 1] == e[k + 1];
        } else if k == j - 1 {
          assert d[k] == e[k] && d[k + 1] == e[k + 1];
        } else {
          assert d[k] == e[k - j + i] && d[k + 1] == e[k - j + i + 1];
        }
      }
      assert d[0] == e[0] && d[i] == d[j];
    }
  }

  /** Preparing a find ends if and only if no association leads back to itself through scopes that include each
      other: nothing guards against it. `all` are the associations there are. */
  lemma {:induction false} PreparingEnds(env: Env, list: seq<Include>, all: set<Association>)
    requires forall c: seq<Association> :: ScopeChain(env, list, c) ==> forall a :: a in c ==> a in all
    ensures (exists depth :: Ends(env, list, depth)) <==>
            forall c: seq<Association> :: ScopeChain(env, list, c) ==> NoRepeats(c)
  {
    if depth :| Ends(env, list, depth) {
      forall c: seq<Association> | ScopeChain(env, list, c) ensures NoRepeats(c) {
        if !NoRepeats(c) { CycleNeverEnds(env, list, c, depth); }
      }
    }
    if forall c: seq<Association> :: ScopeChain(env, list, c) ==> NoRepeats(c) {
      var depth: nat := NoCycleEnds(env, list, all);
      assert Ends(env, list, depth);
    }
  }

  lemma {:induction false} CycleNeverEnds(env: Env, list: seq<Include>, c: seq<Association>, depth: nat)
    requires ScopeChain(env, list, c) && !NoRepeats(c)
    ensures !Ends(env, list, depth)
  {
    var d := RoundAgain(env, list, c, depth);
    var path := ChainIsReached(env, list, d);
    EndsWithPaths(env, list, depth);
  }

  lemma {:induction false} NoCycleEnds(env: Env, list: seq<Include>, all: set<Association>) returns (depth: nat)
    requires forall c: seq<Association> :: ScopeChain(env, list, c) ==> forall a :: a in c ==> a in all
    requires forall c: seq<Association> :: ScopeChain(env, list, c) ==> NoRepeats(c)
    ensures Ends(env, list, depth)
  {
    var highest := Highest(env, all);
    var h := if Height(list) > highest then Height(list) else highest;
    depth := h * |all|;
    forall path: seq<Association> | path != [] && Reached(env, list, path) ensures |path| <= depth {
      var c := PathIsChained(env, list, all, h, path);
      DistinctFit(c, all);
      TimesLess(h, |c|, |all|);
    }
    EndsWithPaths(env, list, depth);
  }

  lemma TimesLess(h: nat, a: nat, b: nat)
    requires a <= b
    ensures h * a <= h * b
  {
  }

  function Lone(a: Association): Include {
    Include(a, None, NotGiven, map[])
  }

  /** The scope behind each of two associations includes the other. */
  function MutualScopes(a: Association): Target {
    Target(Scope(None, Given([Lone(1 - a % 2)]), map[]), None, None)
  }

  /** Two models whose default scopes include each other: a find that includes one of them never ends. */
  lemma {:induction false} MutualScopesNeverEnd(a: Association, depth: nat)
    requires a < 2
    ensures !Ends(MutualScopes, [Lone(a)], depth)
    decreases depth
  {
    if depth > 0 {
      MutualScopesNeverEnd(1 - a % 2, depth - 1);
      assert Children(MutualScopes, Lone(a)) == [Lone(1 - a % 2)];
      assert Lone(a) in [Lone(a)];
    }
  }
}
