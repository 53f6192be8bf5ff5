/** The flags that `_validateIncludedElements` sets on the include tree, and why a limit is not distorted by
    the joins when it decides against a subquery. */
module LimitedIncludes {
  import opened Common

  type Row = nat

  /** An include. `hasWhere`: it has a filter, its own or that of its model's scope; `hasScope`: its association has a
      scope. That scope is a filter too, added once `required` is settled. */
  datatype Include = Include(association: nat, isMulti: bool, separate: bool, hasWhere: bool, hasScope: bool,
                             required: Option<bool>, duplicating: Option<bool>, subQuery: Option<bool>,
                             nested: seq<Include>)
  {
    predicate Required() {
      if required.Some? then required.value else hasWhere
    }

    predicate Filtered() {
      hasWhere || hasScope
    }

    predicate Duplicating() {
      !separate && if duplicating.Some? then duplicating.value else isMulti
    }
  }

  datatype Flags = Flags(duplicating: bool, hasDuplicating: bool, hasRequired: bool, subQuery: bool,
                         subQueryFilter: bool, hasParentWhere: bool, hasParentRequired: bool)

  function AnyRequired(list: seq<Include>): bool {
    list != [] && (list[0].Required() || AnyRequired(list[1..]))
  }

  /** Some include anywhere in the tree is like that. */
  function Somewhere(p: Include -> bool, list: seq<Include>): bool {
    list != [] && (SomewhereIn(p, list[0]) || Somewhere(p, list[1..]))
  }

  function SomewhereIn(p: Include -> bool, i: Include): bool {
    Somewhere(p, i.nested) || p(i)
  }

  predicate IsDuplicating(i: Include) { i.Duplicating() }
  predicate IsRequired(i: Include) { i.Required() }
  predicate IsMulti(i: Include) { i.isMulti }
  predicate IsSingle(i: Include) { !i.isMulti }
  predicate HasWhere(i: Include) { i.Filtered() }

  /** What the options that hold a list of includes tell of them: `where` and `required`. */
  datatype Parent = Parent(where: bool, required: bool)

  /** The flags of an include among `siblings`. `topLimit`: a limit other than 0 is set on the root. */
  function FlagsOf(i: Include, siblings: seq<Include>, topLimit: bool, parent: Parent): Flags {
    var has, hasRequired := SomewhereIn(IsDuplicating, i), AnyRequired(i.nested) || i.Required();
    var given := i.subQuery == Some(true);
    var (sub, filter) :=
      if i.subQuery != Some(false) && Somewhere(IsDuplicating, siblings) && topLimit then
        if i.Duplicating() then (given, hasRequired) else (hasRequired, false)
      else if i.Duplicating() then (given, given)
      else (given || (parent.required && hasRequired && !i.separate), false);
    Flags(i.Duplicating(), has, hasRequired, sub, filter, parent.where, parent.required)
  }

  /** What is known of the whole tree of includes; the last four are legacy flags. */
  datatype Summary = Summary(hasDuplicating: bool, hasWhere: bool, hasIncludeRequired: bool,
                             hasMultiAssociation: bool, hasSingleAssociation: bool)

  const NOTHING := Summary(false, false, false, false, false)

  function SummaryOf(list: seq<Include>): Summary {
    Summary(Somewhere(IsDuplicating, list), Somewhere(HasWhere, list), Somewhere(IsRequired, list),
            Somewhere(IsMulti, list), Somewhere(IsSingle, list))
  }

  function SummaryIn(i: Include): Summary {
    Summary(SomewhereIn(IsDuplicating, i), SomewhereIn(HasWhere, i), SomewhereIn(IsRequired, i),
            SomewhereIn(IsMulti, i), SomewhereIn(IsSingle, i))
  }

  function Either(a: Summary, b: Summary): Summary {
    Summary(a.hasDuplicating || b.hasDuplicating, a.hasWhere || b.hasWhere,
            a.hasIncludeRequired || b.hasIncludeRequired, a.hasMultiAssociation || b.hasMultiAssociation,
            a.hasSingleAssociation || b.hasSingleAssociation)
  }

  /** What one call leaves on its options. */
  datatype Validated = Validated(summary: Summary, hasRequired: bool, flags: seq<Flags>, subQuery: Option<bool>)

  /** The flags of an include known after the first loop. */
  datatype Early = Early(duplicating: bool, summary: Summary, hasRequired: bool)

  function EarlyOf(i: Include): Early {
    Early(i.Duplicating(), SummaryIn(i), AnyRequired(i.nested) || i.Required())
  }

  /** The first loop: nested includes are validated, and their flags handed up. */
  method ValidateEach(list: seq<Include>, topLimit: bool)
    returns (early: seq<Early>, summary: Summary, hasRequired: bool)
    ensures |early| == |list| && forall k :: 0 <= k < |list| ==> early[k] == EarlyOf(list[k])
    ensures summary == SummaryOf(list) && hasRequired == AnyRequired(list)
    decreases list, 0
  {
    hide Somewhere, SomewhereIn, AnyRequired;
    early, summary, hasRequired := [], NOTHING, false;
    assert list[0..] == list && list[|list|..] == [];
    NothingAtAll();
    for k := 0 to |list|
      invariant |early| == k && forall j :: 0 <= j < k ==> early[j] == EarlyOf(list[j])
      invariant SummaryOf(list) == Either(summary, SummaryOf(list[k..]))
      invariant AnyRequired(list) == (hasRequired || AnyRequired(list[k..]))
    {
      var i := list[k];
      FirstAndRest(list, k);
      var parent := Parent(i.Filtered(), i.Required());
      var below := ValidateIncludedElements(i.nested, false, topLimit, parent, None);
      var duplicating := !i.separate && if i.duplicating.Some? then i.duplicating.value else i.isMulti;
      var own := Summary(duplicating, i.hasWhere || i.hasScope, i.Required(), i.isMulti, !i.isMulti);
      early := early + [Early(own.hasDuplicating, Either(below.summary, own), below.hasRequired || i.Required())];
      summary := Either(summary, Either(below.summary, own));
      hasRequired := hasRequired || i.Required();
    }
  }

  lemma NothingAtAll()
    ensures SummaryOf([]) == NOTHING && !AnyRequired([])
  {
  }

  lemma FirstAndRest(list: seq<Include>, k: nat)
    requires k < |list|
    ensures SummaryOf(list[k..]) == Either(SummaryIn(list[k]), SummaryOf(list[k + 1..]))
    ensures AnyRequired(list[k..]) == (list[k].Required() || AnyRequired(list[k + 1..]))
    ensures SummaryIn(list[k]) ==
            Either(SummaryOf(list[k].nested),
                   Summary(list[k].Duplicating(), list[k].Filtered(), list[k].Required(),
                           list[k].isMulti, !list[k].isMulti))
  {
    assert list[k..][0] == list[k] && list[k..][1..] == list[k + 1..];
  }

  /** What makes the root choose a subquery. */
  predicate WantsSubQuery(f: Flags) {
    f.subQuery || f.hasDuplicating
  }

  /** `_validateIncludedElements`, for the root or, inside the first loop, for an include. */
  method ValidateIncludedElements(list: seq<Include>, isRoot: bool, topLimit: bool, parent: Parent,
                                  subQuery: Option<bool>)
    returns (r: Validated)
    ensures r.summary == SummaryOf(list) && r.hasRequired == AnyRequired(list)
    ensures |r.flags| == |list|
    ensures forall k :: 0 <= k < |list| ==> r.flags[k] == FlagsOf(list[k], list, topLimit, parent)
    ensures !isRoot || subQuery.Some? ==> r.subQuery == subQuery
    ensures isRoot && subQuery.None? ==> r.subQuery == Some(topLimit && exists f :: f in r.flags && WantsSubQuery(f))
    decreases list, 1
  {
    var early, summary, hasRequired := ValidateEach(list, topLimit);
    hide Somewhere, SomewhereIn, AnyRequired;
    var flags: seq<Flags> := [];
    var sub := subQuery;
    for k := 0 to |list|
      invariant |flags| == k
      invariant forall j :: 0 <= j < k ==> flags[j] == FlagsOf(list[j], list, topLimit, parent)
      invariant !isRoot || subQuery.Some? || !topLimit ==> sub == subQuery
      invariant isRoot && subQuery.None? && topLimit ==>
        sub == if exists f :: f in flags && WantsSubQuery(f) then Some(true) else None
    {
      var i, e := list[k], early[k];
      var own := i.subQuery == Some(true);
      var filter := false;
      if i.subQuery != Some(false) && summary.hasDuplicating && topLimit {
        if e.duplicating { filter := e.hasRequired; } else { own := e.hasRequired; }
      } else if e.duplicating {
        filter := own;
      } else {
        own := own || (parent.required && e.hasRequired && !i.separate);
      }
      var f := Flags(e.duplicating, e.summary.hasDuplicating, e.hasRequired, own, filter,
                     parent.where, parent.required);
      assert f == FlagsOf(i, list, topLimit, parent);
      flags := flags + [f];
      assert f in flags;
      if isRoot && sub.None? && topLimit {
        if own {
          sub := Some(own);
        } else if e.summary.hasDuplicating {
          sub := Some(true);
        }
      }
    }
    if isRoot && sub.None? {
      sub := Some(false);
    }
    r := Validated(summary, hasRequired, flags, sub);
  }

  // ----- what the flags say -----

  predicate IsPath(list: seq<Include>, path: seq<nat>)
    decreases |path|
  {
    path != [] && path[0] < |list| && (|path| == 1 || IsPath(list[path[0]].nested, path[1..]))
  }

  function At(list: seq<Include>, path: seq<nat>): Include
    requires IsPath(list, path)
    decreases |path|
  {
    if |path| == 1 then list[path[0]] else At(list[path[0]].nested, path[1..])
  }

  predicate SuchAt(p: Include -> bool, list: seq<Include>, path: seq<nat>) {
    IsPath(list, path) && p(At(list, path))
  }

  lemma {:induction false} FindSuch(p: Include -> bool, list: seq<Include>) returns (path: seq<nat>)
    requires Somewhere(p, list)
    ensures SuchAt(p, list, path)
    decreases list
  {
    var k := FirstSuch(p, list);
    if p(list[k]) {
      path := [k];
    } else {
      var rest := FindSuch(p, list[k].nested);
      path := [k] + rest;
      assert path[1..] == rest;
    }
  }

  lemma {:induction false} FirstSuch(p: Include -> bool, list: seq<Include>) returns (k: nat)
    requires Somewhere(p, list)
    ensures k < |list| && SomewhereIn(p, list[k])
  {
    if SomewhereIn(p, list[0]) {
      k := 0;
    } else {
      k := FirstSuch(p, list[1..]);
      k := k + 1;
    }
  }

  lemma {:induction false} MemberSuch(p: Include -> bool, list: seq<Include>, k: nat)
    requires k < |list| && SomewhereIn(p, list[k])
    ensures Somewhere(p, list)
  {
    if k > 0 { MemberSuch(p, list[1..], k - 1); }
  }

  lemma {:induction false} PathSuch(p: Include -> bool, list: seq<Include>, path: seq<nat>)
    requires SuchAt(p, list, path)
    ensures Somewhere(p, list)
    decreases |path|
  {
    if |path| > 1 { PathSuch(p, list[path[0]].nested, path[1..]); }
    MemberSuch(p, list, path[0]);
  }

  /** A flag of the root, `hasDuplicating` or one of the legacy ones, holds exactly when some include anywhere in the
      tree is like that. */
  lemma {:induction false} RootFlagIsExact(p: Include -> bool, list: seq<Include>)
    ensures Somewhere(p, list) <==> exists path :: SuchAt(p, list, path)
  {
    if Somewhere(p, list) {
      var path := FindSuch(p, list);
    }
    if path :| SuchAt(p, list, path) {
      PathSuch(p, list, path);
    }
  }

  /** What the options of one include make of it: `required` counts if it is given, and a filter of its own or of its
      model's scope otherwise; a separate include never duplicates; an association's scope is a filter too. */
  lemma OwnFlags(i: Include)
    ensures i.required.Some? ==> (i.Required() <==> i.required == Some(true))
    ensures i.required.None? ==> (i.Required() <==> i.hasWhere)
    ensures i.separate ==> !i.Duplicating()
    ensures !i.separate && i.duplicating.Some? ==> (i.Duplicating() <==> i.duplicating == Some(true))
    ensures !i.separate && i.duplicating.None? ==> (i.Duplicating() <==> i.isMulti)
    ensures i.Filtered() <==> i.hasWhere || i.hasScope
  {
  }

  lemma {:induction false} AnyRequiredMeans(list: seq<Include>)
    ensures AnyRequired(list) <==> exists x :: x in list && x.Required()
  {
    if list != [] { AnyRequiredMeans(list[1..]); }
  }

  /** The flags of an include, when. Under a limit, with a duplicating include anywhere among its siblings or below
      them, and unless it opts out, a required one goes into the subquery: as a filter if it duplicates, as a join if
      not. Otherwise its own `subQuery` decides, or being required in something required. */
  lemma {:induction false} FlagsMean(i: Include, siblings: seq<Include>, topLimit: bool, parent: Parent)
    ensures var f := FlagsOf(i, siblings, topLimit, parent);
            var required := i.Required() || exists x :: x in i.nested && x.Required();
            var limited := i.subQuery != Some(false) && topLimit &&
                           exists path :: SuchAt(IsDuplicating, siblings, path);
            && (f.duplicating <==> i.Duplicating())
            && (f.hasDuplicating <==> i.Duplicating() || exists path :: SuchAt(IsDuplicating, i.nested, path))
            && (f.hasRequired <==> required)
            && (f.hasParentWhere <==> parent.where) && (f.hasParentRequired <==> parent.required)
            && (f.subQueryFilter <==> i.Duplicating() && if limited then required else i.subQuery == Some(true))
            && (limited && !i.Duplicating() ==> (f.subQuery <==> required))
            && (limited && i.Duplicating() ==> (f.subQuery <==> i.subQuery == Some(true)))
            && (!limited && i.Duplicating() ==> (f.subQuery <==> i.subQuery == Some(true)))
            && (!limited && !i.Duplicating() ==>
                  (f.subQuery <==> i.subQuery == Some(true) || (parent.required && required && !i.separate)))
  {
    RootFlagIsExact(IsDuplicating, siblings);
    RootFlagIsExact(IsDuplicating, i.nested);
    AnyRequiredMeans(i.nested);
    hide Somewhere, AnyRequired, SuchAt;
  }

  // ----- joins and limits -----

  /** The rows that an association leads to from a row, filtered. */
  type Matches = (nat, Row) -> seq<Row>

  /** An include that neither counts as duplicating nor is separate has at most one match, and so below it. */
  ghost predicate AtMostOneMatch(m: Matches, i: Include) {
    && (!i.Duplicating() && !i.separate ==> forall row :: |m(i.association, row)| <= 1)
    && forall x :: x in i.nested ==> AtMostOneMatch(m, x)
  }

  /** The number of joined lines an include makes of one row of its parent: an outer join keeps a row without
      match, an inner one drops it, a separate include is not joined. */
  function Lines(m: Matches, i: Include, row: Row): nat
    decreases i, 2
  {
    if i.separate then 1
    else
      var n := MatchLines(m, i, m(i.association, row));
      if n == 0 && !i.Required() then 1 else n
  }

  function MatchLines(m: Matches, i: Include, matches: seq<Row>): nat
    decreases i, 1, |matches|
  {
    if matches == [] then 0 else AllLines(m, i.nested, matches[0]) + MatchLines(m, i, matches[1..])
  }

  function AllLines(m: Matches, list: seq<Include>, row: Row): nat
    decreases list, 0
  {
    if list == [] then 1 else Lines(m, list[0], row) * AllLines(m, list[1..], row)
  }

  function Repeat(row: Row, n: nat): seq<Row> {
    seq(n, _ => row)
  }

  /** The root row of each joined line. */
  function Joined(m: Matches, list: seq<Include>, roots: seq<Row>): seq<Row> {
    if roots == [] then [] else Repeat(roots[0], AllLines(m, list, roots[0])) + Joined(m, list, roots[1..])
  }

  /** The root rows that the query keeps. */
  function Kept(m: Matches, list: seq<Include>, roots: seq<Row>): seq<Row> {
    if roots == [] then []
    else (if AllLines(m, list, roots[0]) > 0 then [roots[0]] else []) + Kept(m, list, roots[1..])
  }

  function Take(n: nat, s: seq<Row>): seq<Row> {
    if n <= |s| then s[..n] else s
  }

  lemma {:induction false} OneLineEach(m: Matches, i: Include, row: Row)
    requires AtMostOneMatch(m, i) && !SomewhereIn(IsDuplicating, i)
    ensures Lines(m, i, row) <= 1
    decreases i, 1
  {
    if !i.separate {
      var matches := m(i.association, row);
      if matches != [] {
        AllOneLine(m, i.nested, matches[0]);
        assert matches[1..] == [] && MatchLines(m, i, matches[1..]) == 0;
      }
    }
  }

  lemma {:induction false} AllOneLine(m: Matches, list: seq<Include>, row: Row)
    requires (forall x :: x in list ==> AtMostOneMatch(m, x)) && !Somewhere(IsDuplicating, list)
    ensures AllLines(m, list, row) <= 1
    decreases list, 0
  {
    if list != [] {
      assert list[0] in list;
      OneLineEach(m, list[0], row);
      AllOneLine(m, list[1..], row);
      assert forall a: nat, b: nat :: a <= 1 && b <= 1 ==> a * b <= 1;
    }
  }

  lemma {:induction false} NoFanOut(m: Matches, list: seq<Include>, roots: seq<Row>)
    ensures |Kept(m, list, roots)| <= |Joined(m, list, roots)|
    ensures (forall row :: row in roots ==> AllLines(m, list, row) <= 1) ==>
              Joined(m, list, roots) == Kept(m, list, roots)
    ensures (exists row :: row in roots && AllLines(m, list, row) > 1) ==>
              |Kept(m, list, roots)| < |Joined(m, list, roots)|
  {
    if roots != [] {
      NoFanOut(m, list, roots[1..]);
      var n := AllLines(m, list, roots[0]);
      assert n == 1 ==> Repeat(roots[0], n) == [roots[0]];
      assert forall row :: row in roots <==> row == roots[0] || row in roots[1..];
    }
  }

  /** Limiting the joined lines selects the root rows that limiting the kept roots selects, for every limit. */
  ghost predicate Undistorted(m: Matches, list: seq<Include>, roots: seq<Row>) {
    forall n: nat :: Take(n, Joined(m, list, roots)) == Take(n, Kept(m, list, roots))
  }

  predicate NoneFansOut(m: Matches, list: seq<Include>, roots: seq<Row>) {
    forall row :: row in roots ==> AllLines(m, list, row) <= 1
  }

  /** Whatever the rows and the includes, a limit is never distorted if and only if no root row is joined to more
      than one line. */
  lemma {:induction false} LimitIsExact(m: Matches, list: seq<Include>, roots: seq<Row>)
    ensures Undistorted(m, list, roots) <==> NoneFansOut(m, list, roots)
  {
    NoFanOut(m, list, roots);
    var n := |Joined(m, list, roots)|;
    assert Take(n, Joined(m, list, roots)) == Joined(m, list, roots);
    assert Take(n, Kept(m, list, roots)) == Kept(m, list, roots);
  }

  /** When no include anywhere is duplicating and each that is joined has at most one match, limits are not
      distorted. */
  lemma {:induction false} LimitIsNotDistorted(m: Matches, list: seq<Include>, roots: seq<Row>)
    requires forall x :: x in list ==> AtMostOneMatch(m, x)
    requires !exists path :: SuchAt(IsDuplicating, list, path)
    ensures Undistorted(m, list, roots)
  {
    RootFlagIsExact(IsDuplicating, list);
    forall row | row in roots ensures AllLines(m, list, row) <= 1 {
      AllOneLine(m, list, row);
    }
    LimitIsExact(m, list, roots);
  }

  /** With a limit and `subQuery` left to the code, it decides for a subquery exactly when some include anywhere
      is duplicating, or one of the root's includes asks for it. When it decides against one, limiting the joined
      lines selects, for every limit, the root rows that limiting the kept roots selects if and only if no root
      row is joined to more than one line. That is so when every joined include has at most one match, which unique
      keys guarantee for single associations and nothing in the code does. */
  method DecideSubQuery(list: seq<Include>, topLimit: bool) returns (subQuery: bool)
    ensures subQuery <==> topLimit && ((exists path :: SuchAt(IsDuplicating, list, path)) ||
                                       exists k :: 0 <= k < |list| && list[k].subQuery == Some(true))
    ensures topLimit && !subQuery ==>
              forall m: Matches, roots: seq<Row> :: Undistorted(m, list, roots) <==> NoneFansOut(m, list, roots)
    ensures topLimit && !subQuery ==>
              forall m: Matches, roots: seq<Row> :: (forall x :: x in list ==> AtMostOneMatch(m, x)) ==>
                Undistorted(m, list, roots)
  {
    var r := ValidateIncludedElements(list, true, topLimit, Parent(false, false), None);
    subQuery := r.subQuery.value;
    RootFlagIsExact(IsDuplicating, list);
    forall k | 0 <= k < |list| && SomewhereIn(IsDuplicating, list[k]) ensures Somewhere(IsDuplicating, list) {
      MemberSuch(IsDuplicating, list, k);
    }
    if Somewhere(IsDuplicating, list) {
      var k := FirstSuch(IsDuplicating, list);
      assert r.flags[k] in r.flags && WantsSubQuery(r.flags[k]);
    } else {
      forall k | 0 <= k < |list| ensures WantsSubQuery(r.flags[k]) <==> list[k].subQuery == Some(true) {}
      if k :| 0 <= k < |list| && list[k].subQuery == Some(true) {
        assert r.flags[k] in r.flags && WantsSubQuery(r.flags[k]);
      }
    }
    forall m: Matches, roots: seq<Row> ensures Undistorted(m, list, roots) <==> NoneFansOut(m, list, roots) {
      LimitIsExact(m, list, roots);
    }
    if topLimit && !subQuery {
      forall m: Matches, roots: seq<Row> | forall x :: x in list ==> AtMostOneMatch(m, x)
        ensures Undistorted(m, list, roots)
      {
        LimitIsNotDistorted(m, list, roots);
      }
    }
  }

  /** An optional HasOne with two matching rows for root 1: no subquery is chosen, and the first two lines are both
      of root 1. */
  method HasOneFansOut() returns (subQuery: bool, ghost m: Matches)
    ensures !subQuery
    ensures var list := [Include(0, false, false, false, false, None, None, None, [])];
            Take(2, Joined(m, list, [1, 2])) == [1, 1] && Take(2, Kept(m, list, [1, 2])) == [1, 2]
  {
    var list := [Include(0, false, false, false, false, None, None, None, [])];
    subQuery := DecideSubQuery(list, true);
    m := (a, row) => if row == 1 then [10, 11] else [];
    NothingDuplicates(list);
    TwoLines(m, list);
  }

  lemma NothingDuplicates(list: seq<Include>)
    requires |list| == 1 && !list[0].Duplicating() && list[0].nested == []
    ensures !exists path :: SuchAt(IsDuplicating, list, path)
  {
    assert list[1..] == [] && !Somewhere(IsDuplicating, []);
    assert !SomewhereIn(IsDuplicating, list[0]);
    assert !Somewhere(IsDuplicating, list);
    RootFlagIsExact(IsDuplicating, list);
  }

  lemma TwoLines(m: Matches, list: seq<Include>)
    requires list == [Include(0, false, false, false, false, None, None, None, [])]
    requires m(0, 1) == [10, 11] && m(0, 2) == []
    ensures Joined(m, list, [1, 2]) == [1, 1, 2] && Kept(m, list, [1, 2]) == [1, 2]
  {
    var x := list[0];
    assert list[1..] == [] && [10, 11][1..] == [11] && [11][1..] == [] && [1, 2][1..] == [2] && [2][1..] == [];
    assert MatchLines(m, x, []) == 0 && MatchLines(m, x, [11]) == 1 && MatchLines(m, x, [10, 11]) == 2;
    assert Lines(m, x, 1) == 2 && Lines(m, x, 2) == 1;
    assert AllLines(m, list, 1) == 2 && AllLines(m, list, 2) == 1;
    assert Repeat(1, 2) == [1, 1] && Repeat(2, 1) == [2];
    assert Joined(m, list, [2]) == [2] && Kept(m, list, [2]) == [2];
  }
}
