/** `where` options, their meaning in SQL's three-valued logic, and the ways filters are put together. */
module Filters {
  import opened Common

  // ----- three-valued logic (subclause 6.34 of ISO/IEC 9075-2:2003) -----

  datatype Truth = True | False | Unknown

  function And3(a: Truth, b: Truth): Truth {
    if a == False || b == False then False else if a == True && b == True then True else Unknown
  }

  function Or3(a: Truth, b: Truth): Truth {
    if a == True || b == True then True else if a == False && b == False then False else Unknown
  }

  function Not3(a: Truth): Truth {
    match a case True => False case False => True case Unknown => Unknown
  }

  datatype Logic = Conjunction | Disjunction

  /** A condition that may be absent: an absent one has no part in the result. */
  function Join2(op: Logic, a: Option<Truth>, b: Option<Truth>): Option<Truth> {
    if a.None? then b
    else if b.None? then a
    else Some(if op == Conjunction then And3(a.value, b.value) else Or3(a.value, b.value))
  }

  function Join(op: Logic, parts: seq<Option<Truth>>): Option<Truth> {
    if parts == [] then None else Join2(op, parts[0], Join(op, parts[1..]))
  }

  // ----- where options -----

  /** `Atom` stands for any SQL condition on its own, such as a literal. An array element may be undefined. */
  datatype Where =
    | Atom(id: nat)
    | Obj(parts: seq<Part>)
    | Arr(items: seq<Option<Where>>)

  /** One property of a where object: an attribute with its condition, or an operator. */
  datatype Part =
    | Attr(id: nat)
    | AndPart(w: Where)
    | OrPart(w: Where)
    | NotPart(w: Where)

  type Row = nat -> Truth

  /** The condition the query generator makes of `w`; its pieces are joined by `op`. */
  function Meaning(w: Where, op: Logic, row: Row): Option<Truth> {
    match w
    case Atom(id) => Some(row(id))
    case Obj(parts) => Join(op, PartMeanings(parts, row))
    case Arr(items) => Join(op, ItemMeanings(items, row))
  }

  function PartMeanings(parts: seq<Part>, row: Row): (r: seq<Option<Truth>>)
    ensures |r| == |parts|
  {
    if parts == [] then [] else [PartMeaning(parts[0], row)] + PartMeanings(parts[1..], row)
  }

  function PartMeaning(p: Part, row: Row): Option<Truth> {
    match p
    case Attr(id) => Some(row(id))
    case AndPart(w) => Meaning(w, Conjunction, row)
    case OrPart(w) => Meaning(w, Disjunction, row)
    case NotPart(w) =>
      var m := Meaning(w, Conjunction, row);
      if m.None? then None else Some(Not3(m.value))
  }

  function ItemMeanings(items: seq<Option<Where>>, row: Row): (r: seq<Option<Truth>>)
    ensures |r| == |items|
  {
    if items == [] then [] else [Filter(items[0], row)] + ItemMeanings(items[1..], row)
  }

  /** The meaning of a `where` option, which may be missing. */
  function Filter(w: Option<Where>, row: Row): Option<Truth> {
    match w
    case None => None
    case Some(x) => Meaning(x, Conjunction, row)
  }

  /** A query returns a row when there is no condition, or when it is true: unknown does not do. */
  predicate Selects(condition: Option<Truth>) {
    condition in {None, Some(True)}
  }

  // ----- putting filters together -----

  function UnpackAnd(w: Option<Where>): Option<Where> {
    if w.None? || w == Some(Obj([])) || w == Some(Arr([])) then None
    else if w.value.Obj? && |w.value.parts| == 1 && w.value.parts[0].AndPart? then Some(w.value.parts[0].w)
    else w
  }

  function Flattened(w: Where): seq<Option<Where>> {
    if w.Arr? then w.items else [Some(w)]
  }

  function CombineWheresWithAnd(a: Option<Where>, b: Option<Where>): Option<Where> {
    var unpackedA := UnpackAnd(a);
    if unpackedA.None? then b
    else
      var unpackedB := UnpackAnd(b);
      if unpackedB.None? then a
      else Some(Obj([AndPart(Arr(Flattened(unpackedA.value) + Flattened(unpackedB.value)))]))
  }

  /** lodash `union`: the elements of both, each once. It compares objects by identity, so it may keep equal ones
      that are dropped here; what the union means does not depend on that. */
  function Union(a: seq<Option<Where>>, b: seq<Option<Where>>): seq<Option<Where>> {
    Distinct(a + b)
  }

  /** How `_mergeFunction` merges two `where` options. */
  function MergeWheres(a: Option<Where>, b: Option<Where>): Option<Where> {
    if a.Some? && a.value.Arr? && b.Some? && b.value.Arr? then Some(Arr(Union(a.value.items, b.value.items)))
    else CombineWheresWithAnd(a, b)
  }

  /** `_injectScope`, on the `where` of a scope that has one. */
  function InjectScope(scope: Option<Where>, own: Option<Where>): Option<Where> {
    if scope.None? then own
    else
      var merged := MergeWheres(scope, own);
      if merged.None? then scope else merged
  }

  function AddAssociationScope(scope: Option<Where>, own: Option<Where>): Option<Where> {
    if scope.None? then own
    else if own.None? then scope
    else Some(Obj([AndPart(Arr([own, scope]))]))
  }

  /** `_paranoidClause`; `notDeleted` is the condition on the deletion time, if it applies. */
  function AddParanoidClause(notDeleted: Option<nat>, own: Option<Where>): Option<Where> {
    if notDeleted.None? then own
    else if own == Some(Obj([])) || own == Some(Arr([])) then Some(Obj([Attr(notDeleted.value)]))
    else Some(Obj([AndPart(Arr([Some(Obj([Attr(notDeleted.value)])), own]))]))
  }

  // ----- their meaning -----

  lemma JoinOne(op: Logic, x: Option<Truth>)
    ensures Join(op, [x]) == x
  {
  }

  lemma {:induction false} JoinConcat(op: Logic, a: seq<Option<Truth>>, b: seq<Option<Truth>>)
    ensures Join(op, a + b) == Join2(op, Join(op, a), Join(op, b))
  {
    if a == [] {
      assert a + b == b;
    } else {
      assert (a + b)[1..] == a[1..] + b;
      JoinConcat(op, a[1..], b);
    }
  }

  lemma {:induction false} ItemsConcat(a: seq<Option<Where>>, b: seq<Option<Where>>, row: Row)
    ensures ItemMeanings(a + b, row) == ItemMeanings(a, row) + ItemMeanings(b, row)
  {
    if a == [] {
      assert a + b == b;
    } else {
      assert (a + b)[1..] == a[1..] + b;
      ItemsConcat(a[1..], b, row);
    }
  }

  lemma {:induction false} SingleItem(w: Option<Where>, row: Row)
    ensures Join(Conjunction, ItemMeanings([w], row)) == Filter(w, row)
  {
  }

  lemma {:induction false} UnpackedMeans(w: Option<Where>, row: Row)
    ensures Filter(UnpackAnd(w), row) == Filter(w, row)
    ensures UnpackAnd(w).Some? ==> Join(Conjunction, ItemMeanings(Flattened(UnpackAnd(w).value), row)) == Filter(w, row)
  {
    var u := UnpackAnd(w);
    if u.Some? {
      if u != w {
        var p := w.value.parts[0];
        assert w.value.parts == [p] && w.value.parts[1..] == [];
        assert PartMeanings([p], row) == [Filter(u, row)];
        JoinOne(Conjunction, Filter(u, row));
      }
      SingleItem(u, row);
    }
  }

  lemma {:induction false} AndOfItems(items: seq<Option<Where>>, row: Row)
    ensures Filter(Some(Obj([AndPart(Arr(items))])), row) == Join(Conjunction, ItemMeanings(items, row))
  {
    var p := AndPart(Arr(items));
    assert [p][1..] == [] && PartMeanings([p], row) == [PartMeaning(p, row)];
    JoinOne(Conjunction, PartMeaning(p, row));
    assert Meaning(Arr(items), Conjunction, row) == Join(Conjunction, ItemMeanings(items, row));
    assert PartMeaning(p, row) == Meaning(Arr(items), Conjunction, row);
    assert Meaning(Obj([p]), Conjunction, row) == Join(Conjunction, PartMeanings([p], row));
  }

  lemma {:induction false} CombineMeansAnd(a: Option<Where>, b: Option<Where>, row: Row)
    ensures Filter(CombineWheresWithAnd(a, b), row) == Join2(Conjunction, Filter(a, row), Filter(b, row))
  {
    UnpackedMeans(a, row);
    UnpackedMeans(b, row);
    var x, y := UnpackAnd(a), UnpackAnd(b);
    if x.Some? && y.Some? {
      var items := Flattened(x.value) + Flattened(y.value);
      AndOfItems(items, row);
      ItemsConcat(Flattened(x.value), Flattened(y.value), row);
      JoinConcat(Conjunction, ItemMeanings(Flattened(x.value), row), ItemMeanings(Flattened(y.value), row));
    }
  }

  /** A condition that is already part of a conjunction adds nothing to it. */
  lemma {:induction false} JoinAbsorbs(parts: seq<Option<Truth>>, x: Option<Truth>)
    requires x in parts
    ensures Join2(Conjunction, Join(Conjunction, parts), x) == Join(Conjunction, parts)
  {
    if x != parts[0] { JoinAbsorbs(parts[1..], x); }
  }

  lemma {:induction false} ItemMeaningAt(items: seq<Option<Where>>, i: nat, row: Row)
    requires i < |items|
    ensures ItemMeanings(items, row)[i] == Filter(items[i], row)
  {
    if i > 0 { ItemMeaningAt(items[1..], i - 1, row); }
  }

  lemma {:induction false} DistinctMeansSame(s: seq<Option<Where>>, row: Row)
    ensures Join(Conjunction, ItemMeanings(Distinct(s), row)) == Join(Conjunction, ItemMeanings(s, row))
    decreases |s|
  {
    if s != [] {
      var t, x := s[..|s| - 1], Last(s);
      assert s == t + [x];
      DistinctMeansSame(t, row);
      ItemsConcat(t, [x], row);
      ItemsConcat(Distinct(t), [x], row);
      SingleItem(x, row);
      JoinConcat(Conjunction, ItemMeanings(t, row), ItemMeanings([x], row));
      JoinConcat(Conjunction, ItemMeanings(Distinct(t), row), ItemMeanings([x], row));
      if x in Distinct(t) {
        var i :| 0 <= i < |Distinct(t)| && Distinct(t)[i] == x;
        ItemMeaningAt(Distinct(t), i, row);
        JoinAbsorbs(ItemMeanings(Distinct(t), row), Filter(x, row));
      }
    }
  }

  lemma {:induction false} MergeMeansAnd(a: Option<Where>, b: Option<Where>, row: Row)
    ensures Filter(MergeWheres(a, b), row) == Join2(Conjunction, Filter(a, row), Filter(b, row))
  {
    if a.Some? && a.value.Arr? && b.Some? && b.value.Arr? {
      var x, y := a.value.items, b.value.items;
      DistinctMeansSame(x + y, row);
      ItemsConcat(x, y, row);
      JoinConcat(Conjunction, ItemMeanings(x, row), ItemMeanings(y, row));
    } else {
      CombineMeansAnd(a, b, row);
    }
  }

  // ----- one node of a find -----

  lemma {:induction false} PairMeans(a: Option<Where>, b: Option<Where>, row: Row)
    ensures Filter(Some(Obj([AndPart(Arr([a, b]))])), row) == Join2(Conjunction, Filter(a, row), Filter(b, row))
  {
    AndOfItems([a, b], row);
    assert [a, b] == [a] + [b];
    ItemsConcat([a], [b], row);
    SingleItem(a, row);
    SingleItem(b, row);
    JoinConcat(Conjunction, ItemMeanings([a], row), ItemMeanings([b], row));
  }

  lemma {:induction false} ClauseMeans(d: nat, own: Option<Where>, row: Row)
    ensures Filter(AddParanoidClause(Some(d), own), row) == Join2(Conjunction, Filter(own, row), Some(row(d)))
  {
    var clause := Some(Obj([Attr(d)]));
    assert [Attr(d)][1..] == [] && PartMeanings([Attr(d)], row) == [Some(row(d))];
    JoinOne(Conjunction, Some(row(d)));
    assert Filter(clause, row) == Some(row(d));
    PairMeans(clause, own, row);
  }

  /** The filter that a node of a find ends up with: its own, that of its model's scope, that of its association, and
      the condition that a row is not deleted. */
  function FinalWhere(scope: Option<Where>, own: Option<Where>, associationScope: Option<Where>,
                      notDeleted: Option<nat>): Option<Where> {
    AddParanoidClause(notDeleted, AddAssociationScope(associationScope, InjectScope(scope, own)))
  }

  lemma {:induction false} FinalWhereMeans(scope: Option<Where>, own: Option<Where>, associationScope: Option<Where>,
                                           notDeleted: Option<nat>, row: Row)
    ensures Filter(FinalWhere(scope, own, associationScope, notDeleted), row) ==
            Join(Conjunction, [Filter(scope, row), Filter(own, row), Filter(associationScope, row),
                               if notDeleted.Some? then Some(row(notDeleted.value)) else None])
  {
    var injected := InjectScope(scope, own);
    MergeMeansAnd(scope, own, row);
    var scoped := AddAssociationScope(associationScope, injected);
    PairMeans(injected, associationScope, row);
    if notDeleted.Some? { ClauseMeans(notDeleted.value, scoped, row); }
    FourParts(Filter(scope, row), Filter(own, row), Filter(associationScope, row),
              if notDeleted.Some? then Some(row(notDeleted.value)) else None);
  }

  lemma {:induction false} FourParts(a: Option<Truth>, b: Option<Truth>, c: Option<Truth>, d: Option<Truth>)
    ensures Join(Conjunction, [a, b, c, d]) ==
            Join2(Conjunction, Join2(Conjunction, Join2(Conjunction, a, b), c), d)
  {
    assert [a, b, c, d][1..] == [b, c, d] && [b, c, d][1..] == [c, d] && [c, d][1..] == [d];
    JoinOne(Conjunction, d);
    assert Join(Conjunction, [c, d]) == Join2(Conjunction, c, d);
    assert Join(Conjunction, [b, c, d]) == Join2(Conjunction, b, Join2(Conjunction, c, d));
  }
}
