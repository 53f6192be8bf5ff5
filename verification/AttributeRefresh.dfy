/** Refreshing a model definition: the maps derived from the raw attributes, and the indexes attributes ask for. */
module AttributeRefresh {
  import opened Common
  import opened IndexMerging

  type AttributeName = nat
  type Column = nat

  /** One `unique` or `index` entry of an attribute: `true`, a name, or index options. */
  datatype Request = Yes | ByName(name: Name) | WithOptions(index: Index)

  datatype Kind = Boolean | Date | Json | Virtual | Plain

  /** `malformed`: refused for its name or shape. `looseNotNull`: has a notNull validator but allows null. */
  datatype Raw = Raw(name: AttributeName, column: Option<Column>, malformed: bool, looseNotNull: bool, kind: Kind,
                     isJsonb: bool, primaryKey: bool, autoIncrement: bool, hasDefault: bool, hasGetter: bool,
                     hasSetter: bool, uniques: seq<Request>, indexes: seq<Request>)

  datatype Built = Built(name: AttributeName, column: Column, kind: Kind, primaryKey: bool, autoIncrement: bool,
                         hasDefault: bool, hasGetter: bool, hasSetter: bool)

  datatype Refusal = Malformed | LooseNotNull | FieldsGiven | SecondAutoIncrement

  const USING: Key := 2
  const GIN: Value := 1

  /** `underscored` makes a column name of an attribute name. */
  function Build(underscored: AttributeName -> Column, a: Raw): Built {
    Built(a.name, if a.column.Some? then a.column.value else underscored(a.name),
          a.kind, a.primaryKey, a.autoIncrement, a.hasDefault, a.hasGetter, a.hasSetter)
  }

  /** The column is the one given, or made of the name; everything else is as it was given. */
  lemma BuiltAsGiven(underscored: AttributeName -> Column, a: Raw)
    ensures var b := Build(underscored, a);
            && (a.column.Some? ==> b.column == a.column.value) && (a.column.None? ==> b.column == underscored(a.name))
            && b.name == a.name && b.kind == a.kind && b.primaryKey == a.primaryKey
            && b.autoIncrement == a.autoIncrement && b.hasDefault == a.hasDefault
            && b.hasGetter == a.hasGetter && b.hasSetter == a.hasSetter
  {
  }

  // ----- the indexes of an attribute -----

  /** The name that a request gives, if it gives one. */
  predicate GivesName(r: Request, n: Option<Name>) {
    match r
    case Yes => n == None
    case ByName(m) => n == Some(m)
    case WithOptions(x) => n == x.name
  }

  predicate Requests(r: Request, k: Key, v: Value) {
    r.WithOptions? && k in r.index.options && r.index.options[k] == v
  }

  /** The index of a `unique` entry has the name given, the attribute's column, and the options given, but is unique. */
  lemma UniqueAsRequested(b: Built, r: Request, k: Key, v: Value)
    ensures var x := UniqueIndex(b, r);
            && GivesName(r, x.name) && x.fields == Some([b.column])
            && (k in x.options && x.options[k] == v <==> if k == UNIQUE then v == TRUE else Requests(r, k, v))
  {
  }

  /** And that of an `index` entry, which is a GIN index for JSONB unless it says what it uses. */
  lemma IndexAsRequested(a: Raw, b: Built, r: Request, k: Key, v: Value)
    ensures var x := OtherIndex(a, b, r);
            && GivesName(r, x.name) && x.fields == Some([b.column])
            && (k in x.options && x.options[k] == v <==>
                  Requests(r, k, v) ||
                  (a.isJsonb && k == USING && v == GIN && !(r.WithOptions? && USING in r.index.options)))
  {
  }

  function UniqueIndex(b: Built, r: Request): Index {
    match r
    case Yes => Index(None, Some([b.column]), map[UNIQUE := TRUE])
    case ByName(n) => Index(Some(n), Some([b.column]), map[UNIQUE := TRUE])
    case WithOptions(x) => Index(x.name, Some([b.column]), x.options[UNIQUE := TRUE])
  }

  function OtherIndex(a: Raw, b: Built, r: Request): Index {
    var jsonb := if a.isJsonb then map[USING := GIN] else map[];
    match r
    case Yes => Index(None, Some([b.column]), jsonb)
    case ByName(n) => Index(Some(n), Some([b.column]), jsonb)
    case WithOptions(x) => Index(x.name, Some([b.column]), jsonb + x.options)
  }

  function UniqueIndexes(b: Built, rs: seq<Request>): (r: seq<Index>)
    ensures |r| == |rs| && forall k :: 0 <= k < |rs| ==> r[k] == UniqueIndex(b, rs[k])
  {
    seq(|rs|, k requires 0 <= k < |rs| => UniqueIndex(b, rs[k]))
  }

  function OtherIndexes(a: Raw, b: Built, rs: seq<Request>): (r: seq<Index>)
    ensures |r| == |rs| && forall k :: 0 <= k < |rs| ==> r[k] == OtherIndex(a, b, rs[k])
  {
    seq(|rs|, k requires 0 <= k < |rs| => OtherIndex(a, b, rs[k]))
  }

  function IndexesOf(underscored: AttributeName -> Column, a: Raw): seq<Index> {
    var b := Build(underscored, a);
    UniqueIndexes(b, a.uniques) + OtherIndexes(a, b, a.indexes)
  }

  function AttributeIndexes(underscored: AttributeName -> Column, raw: seq<Raw>): seq<Index> {
    if raw == [] then []
    else AttributeIndexes(underscored, raw[..|raw| - 1]) + IndexesOf(underscored, Last(raw))
  }

  // ----- what a refresh should come to -----

  predicate GivesFields(r: Request) {
    r.WithOptions? && r.index.fields.Some?
  }

  function Refused(before: seq<Raw>, a: Raw): Option<Refusal> {
    if a.malformed then Some(Malformed)
    else if a.looseNotNull then Some(LooseNotNull)
    else if exists r :: r in a.indexes && GivesFields(r) then Some(FieldsGiven)
    else if a.autoIncrement && exists x :: x in before && x.autoIncrement then Some(SecondAutoIncrement)
    else None
  }

  /** An attribute is refused for its shape, or else for a notNull validator, or else for an index that gives fields, or
      else for being the second with auto-increment. */
  lemma RefusedWhen(before: seq<Raw>, a: Raw)
    ensures Refused(before, a) == Some(Malformed) <==> a.malformed
    ensures Refused(before, a) == Some(LooseNotNull) <==> !a.malformed && a.looseNotNull
    ensures Refused(before, a) == Some(FieldsGiven) <==>
            && !a.malformed && !a.looseNotNull
            && exists k :: 0 <= k < |a.indexes| && a.indexes[k].WithOptions? && a.indexes[k].index.fields.Some?
    ensures Refused(before, a) == Some(SecondAutoIncrement) <==>
            && !a.malformed && !a.looseNotNull
            && (forall k :: 0 <= k < |a.indexes| && a.indexes[k].WithOptions? ==> a.indexes[k].index.fields.None?)
            && a.autoIncrement && exists k :: 0 <= k < |before| && before[k].autoIncrement
  {
    forall k | 0 <= k < |a.indexes| ensures a.indexes[k] in a.indexes {}
    assert forall k :: 0 <= k < |before| ==> before[k] in before;
  }

  predicate NamesDiffer(raw: seq<Raw>) {
    forall i, j :: 0 <= i < j < |raw| ==> raw[i].name != raw[j].name
  }

  predicate ColumnsDiffer(underscored: AttributeName -> Column, raw: seq<Raw>) {
    forall i, j :: 0 <= i < j < |raw| ==> Build(underscored, raw[i]).column != Build(underscored, raw[j]).column
  }

  /** The names of attributes of each sort are kept apart in sets. */
  datatype Sets = Sets(virtuals: set<AttributeName>, booleans: set<AttributeName>, dates: set<AttributeName>,
                       jsons: set<AttributeName>, primaryKeys: set<AttributeName>, defaults: set<AttributeName>,
                       getters: set<AttributeName>, setters: set<AttributeName>)

  const NO_NAMES := Sets({}, {}, {}, {}, {}, {}, {}, {})

  datatype Maps = Maps(attributes: map<AttributeName, Built>, columns: map<Column, Built>,
                       physical: map<AttributeName, Built>, names: Sets, autoIncrement: Option<AttributeName>)

  const EMPTY := Maps(map[], map[], map[], NO_NAMES, None)

  predicate IsVirtual(b: Built) { b.kind == Virtual }
  predicate IsBoolean(b: Built) { b.kind == Boolean }
  predicate IsDate(b: Built) { b.kind == Date }
  predicate IsJson(b: Built) { b.kind == Json }
  predicate IsKey(b: Built) { b.primaryKey }
  predicate HasDefault(b: Built) { b.hasDefault }
  predicate HasGetter(b: Built) { b.hasGetter }
  predicate HasSetter(b: Built) { b.hasSetter }

  function NamesWhere(attributes: map<AttributeName, Built>, p: Built -> bool): set<AttributeName> {
    set n | n in attributes && p(attributes[n])
  }

  ghost predicate DescribesAttributes(underscored: AttributeName -> Column, raw: seq<Raw>, m: Maps) {
    && (forall a :: a in raw ==> a.name in m.attributes && m.attributes[a.name] == Build(underscored, a))
    && (forall n :: n in m.attributes ==> exists a :: a in raw && a.name == n)
  }

  /** The attributes of each sort. */
  predicate Sorted(m: Maps) {
    && m.physical == (map n | n in m.attributes && !IsVirtual(m.attributes[n]) :: m.attributes[n])
    && m.names == Sets(NamesWhere(m.attributes, IsVirtual), NamesWhere(m.attributes, IsBoolean),
                       NamesWhere(m.attributes, IsDate), NamesWhere(m.attributes, IsJson),
                       NamesWhere(m.attributes, IsKey), NamesWhere(m.attributes, HasDefault),
                       NamesWhere(m.attributes, HasGetter), NamesWhere(m.attributes, HasSetter))
  }

  /** The last attribute of its column. */
  predicate LastOfColumn(underscored: AttributeName -> Column, raw: seq<Raw>, i: nat, b: Built) {
    i < |raw| && Build(underscored, raw[i]) == b &&
    forall j :: i < j < |raw| ==> Build(underscored, raw[j]).column != b.column
  }

  /** A column that several attributes share leads to the last of them. */
  ghost predicate DescribesColumns(underscored: AttributeName -> Column, raw: seq<Raw>, m: Maps) {
    && (forall a :: a in raw ==> Build(underscored, a).column in m.columns)
    && (forall c :: c in m.columns ==>
          m.columns[c].column == c && exists i :: LastOfColumn(underscored, raw, i, m.columns[c]))
  }

  ghost predicate DescribesAutoIncrement(raw: seq<Raw>, m: Maps) {
    && (forall a :: a in raw && a.autoIncrement ==> m.autoIncrement == Some(a.name))
    && (m.autoIncrement.Some? ==> exists a :: a in raw && a.autoIncrement)
  }

  /** The maps agree with the raw attributes. */
  ghost predicate Describes(underscored: AttributeName -> Column, raw: seq<Raw>, m: Maps) {
    && DescribesAttributes(underscored, raw, m) && Sorted(m)
    && DescribesColumns(underscored, raw, m) && DescribesAutoIncrement(raw, m)
  }

  class Attributes {
    const underscored: AttributeName -> Column
    var attributes: map<AttributeName, Built>
    var columns: map<Column, Built>
    var physical: map<AttributeName, Built>
    var names: Sets
    var autoIncrement: Option<AttributeName>

    function State(): Maps
      reads this
    {
      Maps(attributes, columns, physical, names, autoIncrement)
    }

    constructor (underscored: AttributeName -> Column)
      ensures this.underscored == underscored && Describes(underscored, [], State())
    {
      this.underscored := underscored;
      attributes, columns, physical, names, autoIncrement := map[], map[], map[], NO_NAMES, None;
      new;
      DescribesNone(underscored);
    }

    /** `refreshAttributes`, up to the indexes: whatever the maps were, on success they describe the raw
        attributes and nothing else. The result is what goes on to `#refreshIndexes`. */
    method RefreshAttributes(raw: seq<Raw>) returns (indexes: Result<seq<Index>, Refusal>)
      requires NamesDiffer(raw)
      modifies this
      ensures indexes.Ok? ==>
                Describes(underscored, raw, State()) && indexes.value == AttributeIndexes(underscored, raw)
      ensures indexes.Ok? <==> forall k :: 0 <= k < |raw| ==> Refused(raw[..k], raw[k]).None?
      ensures indexes.Err? ==> exists k :: 0 <= k < |raw| && Refused(raw[..k], raw[k]) == Some(indexes.error)
    {
      hide Describes, Refused, IndexesOf, AttributeIndexes, With, Build, NamesDiffer;
      attributes, columns, physical, names, autoIncrement := map[], map[], map[], NO_NAMES, None;
      DescribesNone(underscored);
      var attributeIndexes: seq<Index> := [];
      for k := 0 to |raw|
        invariant Describes(underscored, raw[..k], State())
        invariant attributeIndexes == AttributeIndexes(underscored, raw[..k])
        invariant forall j :: 0 <= j < k ==> Refused(raw[..j], raw[j]).None?
      {
        ghost var before := State();
        TakeOne(underscored, raw, k);
        AutoIncrementIs(underscored, raw[..k], before);
        var added := AddAttribute(raw[k], raw[..k]);
        if added.Err? {
          return Err(added.error);
        }
        attributeIndexes := attributeIndexes + added.value;
        DescribesMore(underscored, raw[..k], raw[k], before);
      }
      assert raw[..|raw|] == raw;
      return Ok(attributeIndexes);
    }

    /** One turn of the loop over the attributes. */
    method AddAttribute(a: Raw, ghost before: seq<Raw>) returns (indexes: Result<seq<Index>, Refusal>)
      requires autoIncrement.Some? <==> exists x :: x in before && x.autoIncrement
      modifies this
      ensures match Refused(before, a)
              case Some(e) => indexes == Err(e)
              case None =>
                indexes == Ok(IndexesOf(underscored, a)) && State() == With(old(State()), Build(underscored, a))
    {
      if a.malformed {
        return Err(Malformed);
      }
      var b := Build(underscored, a);
      ghost var start := State();
      names := Filed(names, b);  // in the source some sets are filled after what may refuse the attribute
      if a.looseNotNull {
        return Err(LooseNotNull);
      }
      indexes := CollectIndexes(a, b);
      if indexes.Err? {
        return;
      }
      if b.autoIncrement {
        if autoIncrement.Some? {
          return Err(SecondAutoIncrement);
        }
        autoIncrement := Some(b.name);
      }
      attributes := attributes[b.name := b];
      columns := columns[b.column := b];
      if !IsVirtual(b) {
        physical := physical[b.name := b];
      }
      assert State() == With(start, b);
    }
  }

  /** The indexes an attribute asks for, unless one of them gives fields. */
  method CollectIndexes(a: Raw, b: Built) returns (indexes: Result<seq<Index>, Refusal>)
    ensures if exists r :: r in a.indexes && GivesFields(r) then indexes == Err(FieldsGiven)
            else indexes == Ok(UniqueIndexes(b, a.uniques) + OtherIndexes(a, b, a.indexes))
  {
    var list: seq<Index> := [];
    for k := 0 to |a.uniques|
      invariant list == UniqueIndexes(b, a.uniques[..k])
    {
      list := list + [UniqueIndex(b, a.uniques[k])];
    }
    assert a.uniques[..|a.uniques|] == a.uniques;
    for k := 0 to |a.indexes|
      invariant list == UniqueIndexes(b, a.uniques) + OtherIndexes(a, b, a.indexes[..k])
      invariant forall j :: 0 <= j < k ==> !GivesFields(a.indexes[j])
    {
      if GivesFields(a.indexes[k]) {
        assert a.indexes[k] in a.indexes;
        return Err(FieldsGiven);
      }
      list := list + [OtherIndex(a, b, a.indexes[k])];
    }
    assert a.indexes[..|a.indexes|] == a.indexes;
    indexes := Ok(list);
  }

  /** `names` with the name of `b`, if `b` is of that sort. */
  function Joined(names: set<AttributeName>, b: Built, p: Built -> bool): set<AttributeName> {
    if p(b) then names + {b.name} else names
  }

  function Filed(names: Sets, b: Built): Sets {
    Sets(Joined(names.virtuals, b, IsVirtual), Joined(names.booleans, b, IsBoolean),
         Joined(names.dates, b, IsDate), Joined(names.jsons, b, IsJson),
         Joined(names.primaryKeys, b, IsKey), Joined(names.defaults, b, HasDefault),
         Joined(names.getters, b, HasGetter), Joined(names.setters, b, HasSetter))
  }

  function With(m: Maps, b: Built): Maps {
    Maps(m.attributes[b.name := b], m.columns[b.column := b],
         if IsVirtual(b) then m.physical else m.physical[b.name := b],
         Filed(m.names, b), if b.autoIncrement then Some(b.name) else m.autoIncrement)
  }

  lemma TakeOne(underscored: AttributeName -> Column, raw: seq<Raw>, k: nat)
    requires k < |raw| && NamesDiffer(raw)
    ensures raw[..k + 1] == raw[..k] + [raw[k]]
    ensures forall x :: x in raw[..k] ==> x.name != raw[k].name
    ensures AttributeIndexes(underscored, raw[..k + 1]) ==
            AttributeIndexes(underscored, raw[..k]) + IndexesOf(underscored, raw[k])
  {
    assert raw[..k + 1][..k] == raw[..k];
  }

  lemma DescribesNone(underscored: AttributeName -> Column)
    ensures Describes(underscored, [], EMPTY) && AttributeIndexes(underscored, []) == []
  {
  }

  lemma AutoIncrementIs(underscored: AttributeName -> Column, raw: seq<Raw>, m: Maps)
    requires Describes(underscored, raw, m)
    ensures m.autoIncrement.Some? <==> exists x :: x in raw && x.autoIncrement
  {
  }

  lemma {:induction false} DescribesMore(underscored: AttributeName -> Column, raw: seq<Raw>, a: Raw, m: Maps)
    requires Describes(underscored, raw, m) && Refused(raw, a).None?
    requires forall x :: x in raw ==> x.name != a.name
    ensures Describes(underscored, raw + [a], With(m, Build(underscored, a)))
  {
    hide DescribesColumns, Sorted, DescribesAttributes, Build, With;
    AttributesMore(underscored, raw, a, m);
    SortedMore(m, Build(underscored, a));
    ColumnsMore(underscored, raw, a, m);
    AutoIncrementMore(underscored, raw, a, m);
  }

  lemma AttributesMore(underscored: AttributeName -> Column, raw: seq<Raw>, a: Raw, m: Maps)
    requires DescribesAttributes(underscored, raw, m)
    requires forall x :: x in raw ==> x.name != a.name
    ensures DescribesAttributes(underscored, raw + [a], With(m, Build(underscored, a)))
    ensures Build(underscored, a).name !in m.attributes
  {
  }

  lemma AutoIncrementMore(underscored: AttributeName -> Column, raw: seq<Raw>, a: Raw, m: Maps)
    requires DescribesAutoIncrement(raw, m) && Refused(raw, a).None?
    ensures DescribesAutoIncrement(raw + [a], With(m, Build(underscored, a)))
  {
  }

  lemma SortedMore(m: Maps, b: Built)
    requires Sorted(m) && b.name !in m.attributes
    ensures Sorted(With(m, b))
  {
    NamesMore(m.attributes, b, IsVirtual);
    NamesMore(m.attributes, b, IsBoolean);
    NamesMore(m.attributes, b, IsDate);
    NamesMore(m.attributes, b, IsJson);
    NamesMore(m.attributes, b, IsKey);
    NamesMore(m.attributes, b, HasDefault);
    NamesMore(m.attributes, b, HasGetter);
    NamesMore(m.attributes, b, HasSetter);
    hide NamesWhere, Joined;
  }

  lemma NamesMore(attributes: map<AttributeName, Built>, b: Built, p: Built -> bool)
    requires b.name !in attributes
    ensures NamesWhere(attributes[b.name := b], p) == Joined(NamesWhere(attributes, p), b, p)
  {
  }

  lemma {:induction false} ColumnsMore(underscored: AttributeName -> Column, raw: seq<Raw>, a: Raw, m: Maps)
    requires DescribesColumns(underscored, raw, m)
    ensures DescribesColumns(underscored, raw + [a], With(m, Build(underscored, a)))
  {
    var b, all := Build(underscored, a), raw + [a];
    forall c | c in With(m, b).columns ensures exists i :: LastOfColumn(underscored, all, i, With(m, b).columns[c]) {
      if c == b.column {
        assert LastOfColumn(underscored, all, |raw|, b);
      } else {
        var i :| LastOfColumn(underscored, raw, i, m.columns[c]);
        assert LastOfColumn(underscored, all, i, m.columns[c]);
      }
    }
  }

  /** The raw attributes settle the maps: refreshing again gives the same. */
  lemma {:induction false} DescribedOnce(underscored: AttributeName -> Column, raw: seq<Raw>, m: Maps, n: Maps)
    requires Describes(underscored, raw, m) && Describes(underscored, raw, n)
    ensures m == n
  {
    hide DescribesColumns;
    assert m.attributes == n.attributes;
    SameColumns(underscored, raw, m, n);
  }

  lemma {:induction false} SameColumns(underscored: AttributeName -> Column, raw: seq<Raw>, m: Maps, n: Maps)
    requires DescribesColumns(underscored, raw, m) && DescribesColumns(underscored, raw, n)
    ensures m.columns == n.columns
  {
    forall c ensures c in m.columns <==> c in n.columns {
      if c in m.columns { ColumnOfSome(underscored, raw, m, c); }
      if c in n.columns { ColumnOfSome(underscored, raw, n, c); }
    }
    forall c | c in m.columns ensures m.columns[c] == n.columns[c] {
      var i: nat :| LastOfColumn(underscored, raw, i, m.columns[c]);
      var k: nat :| LastOfColumn(underscored, raw, k, n.columns[c]);
      assert i == k;
    }
  }

  lemma ColumnOfSome(underscored: AttributeName -> Column, raw: seq<Raw>, m: Maps, c: Column)
    requires DescribesColumns(underscored, raw, m) && c in m.columns
    ensures exists a :: a in raw && Build(underscored, a).column == c
  {
  }

  /** Every attribute can be found by its column if and only if no two attributes share a column: nothing
      refuses attributes that do. */
  lemma {:induction false} ColumnsFindAll(underscored: AttributeName -> Column, raw: seq<Raw>, m: Maps)
    requires Describes(underscored, raw, m) && NamesDiffer(raw)
    ensures (forall a :: a in raw ==> m.columns[Build(underscored, a).column].name == a.name) <==>
            ColumnsDiffer(underscored, raw)
  {
  }

  /** Where an attribute is filed. */
  lemma FiledByKind(underscored: AttributeName -> Column, raw: seq<Raw>, m: Maps, a: Raw)
    requires Describes(underscored, raw, m) && a in raw
    ensures a.name in m.attributes && m.attributes[a.name] == Build(underscored, a)
    ensures a.name in m.physical <==> a.kind != Virtual
    ensures a.name in m.names.virtuals <==> a.kind == Virtual
    ensures a.name in m.names.booleans <==> a.kind == Boolean
    ensures a.name in m.names.dates <==> a.kind == Date
    ensures a.name in m.names.jsons <==> a.kind == Json
    ensures a.name in m.names.primaryKeys <==> a.primaryKey
    ensures a.name in m.names.defaults <==> a.hasDefault
    ensures a.name in m.names.getters <==> a.hasGetter
    ensures a.name in m.names.setters <==> a.hasSetter
    ensures a.autoIncrement ==> m.autoIncrement == Some(a.name)
  {
    BuiltAsGiven(underscored, a);
    hide DescribesColumns, Build;
    assert m.attributes[a.name] == Build(underscored, a);
    hide DescribesAttributes;
  }

  /** Every attribute is either physical or virtual. */
  lemma PhysicalOrVirtual(underscored: AttributeName -> Column, raw: seq<Raw>, m: Maps)
    requires Describes(underscored, raw, m)
    ensures m.physical.Keys !! m.names.virtuals && m.physical.Keys + m.names.virtuals == m.attributes.Keys
  {
  }

  // ----- the indexes that attributes ask for -----

  lemma {:induction false} FieldIsMerged(generate: Index -> Name, inputs: seq<Index>, i: Index, f: Field)
    requires i in inputs && f in FieldsOf(i)
    ensures f in FieldsNamed(generate, inputs, NameOf(generate, i))
    decreases |inputs|
  {
    if i != Last(inputs) {
      var k :| 0 <= k < |inputs| && inputs[k] == i;
      assert inputs[..|inputs| - 1][k] == i;
      FieldIsMerged(generate, inputs[..|inputs| - 1], i, f);
    }
  }

  lemma {:induction false} AskedIndexIsInput(underscored: AttributeName -> Column, raw: seq<Raw>, a: Raw, x: Index)
    requires a in raw && x in IndexesOf(underscored, a)
    ensures x in AttributeIndexes(underscored, raw)
    decreases |raw|
  {
    if a != Last(raw) {
      var k :| 0 <= k < |raw| && raw[k] == a;
      assert raw[..|raw| - 1][k] == a;
      AskedIndexIsInput(underscored, raw[..|raw| - 1], a, x);
    }
  }

  /** The indexes are in the order of the attributes; those of one attribute in the order of its entries, `unique` ones
      first. */
  lemma {:induction false} IndexesInOrder(underscored: AttributeName -> Column, raw: seq<Raw>, more: seq<Raw>)
    ensures AttributeIndexes(underscored, raw + more) ==
            AttributeIndexes(underscored, raw) + AttributeIndexes(underscored, more)
    ensures forall a :: AttributeIndexes(underscored, [a]) ==
                        UniqueIndexes(Build(underscored, a), a.uniques) +
                        OtherIndexes(a, Build(underscored, a), a.indexes)
    decreases |more|
  {
    forall a ensures AttributeIndexes(underscored, [a]) ==
                     UniqueIndexes(Build(underscored, a), a.uniques) +
                     OtherIndexes(a, Build(underscored, a), a.indexes)
    {
      assert [a][..0] == [] && AttributeIndexes(underscored, []) == [];
    }
    if more == [] {
      assert raw + more == raw;
    } else {
      assert (raw + more)[..|raw + more| - 1] == raw + more[..|more| - 1];
      IndexesInOrder(underscored, raw, more[..|more| - 1]);
    }
  }

  /** An index that covers a column, with all options of another. */
  predicate Serves(x: Index, column: Column, asked: Index) {
    && x.fields.Some? && column in x.fields.value
    && forall k :: k in Conformed(asked).options ==> k in x.options && x.options[k] == Conformed(asked).options[k]
  }

  /** After a successful refresh, every index that an attribute asks for exists under its name, covers the
      attribute's column and has all options asked for; one asked for under `unique` is unique. */
  lemma {:induction false} AskedIndexExists(generate: Index -> Name, underscored: AttributeName -> Column,
                                            declared: seq<Index>, raw: seq<Raw>, a: Raw, asked: Index)
    requires a in raw && asked in IndexesOf(underscored, a)
    requires AddAll(generate, declared + AttributeIndexes(underscored, raw)).Ok?
    ensures exists x :: x in AddAll(generate, declared + AttributeIndexes(underscored, raw)).value &&
              x.name == Some(NameOf(generate, asked)) && Serves(x, Build(underscored, a).column, asked) &&
              (asked in UniqueIndexes(Build(underscored, a), a.uniques) ==>
                 UNIQUE in x.options && x.options[UNIQUE] == TRUE)
  {
    hide AddAll, Mergeable, AttributeIndexes, FieldsNamed, Summarizes, Conformed, NameOf;
    var inputs := declared + AttributeIndexes(underscored, raw);
    AskedIndexIsInput(underscored, raw, a, asked);
    assert asked in inputs;
    RefreshMerges(generate, inputs);
    var x :| x in AddAll(generate, inputs).value && x.name == Some(NameOf(generate, asked));
    assert Summarizes(generate, inputs, x);
    FieldIsMerged(generate, inputs, asked, Build(underscored, a).column) by {
      assert FieldsOf(asked) == [Build(underscored, a).column];
    }
    MergedServes(generate, inputs, x, asked, Build(underscored, a).column);
    if asked in UniqueIndexes(Build(underscored, a), a.uniques) {
      var k :| 0 <= k < |a.uniques| && UniqueIndexes(Build(underscored, a), a.uniques)[k] == asked;
      UniqueIsUnique(Build(underscored, a), a.uniques[k]);
    }
  }

  lemma MergedServes(generate: Index -> Name, inputs: seq<Index>, x: Index, asked: Index, column: Column)
    requires Summarizes(generate, inputs, x) && asked in inputs && x.name == Some(NameOf(generate, asked))
    requires column in FieldsNamed(generate, inputs, NameOf(generate, asked))
    ensures Serves(x, column, asked)
  {
  }

  /** The index of a `unique` entry is unique, whatever else it says. */
  lemma UniqueIsUnique(b: Built, r: Request)
    ensures UNIQUE in Conformed(UniqueIndex(b, r)).options && Conformed(UniqueIndex(b, r)).options[UNIQUE] == TRUE
  {
  }

  /** Two attributes on column 5: nothing is refused, and the column leads to the second only. */
  method SharedColumn() returns (attributes: Attributes, indexes: Result<seq<Index>, Refusal>)
    ensures fresh(attributes) && indexes.Ok? && 0 in attributes.attributes && 1 in attributes.attributes
    ensures 5 in attributes.columns && attributes.columns[5].name == 1
  {
    attributes := new Attributes(n => n);
    var first := Raw(0, Some(5), false, false, Plain, false, false, false, false, false, false, [], []);
    var raw := [first, first.(name := 1)];
    indexes := attributes.RefreshAttributes(raw);
    LastWins(attributes.underscored, raw, attributes.State());
  }

  lemma LastWins(underscored: AttributeName -> Column, raw: seq<Raw>, m: Maps)
    requires |raw| == 2 && Build(underscored, raw[0]).column == Build(underscored, raw[1]).column
    requires Describes(underscored, raw, m)
    ensures var c := Build(underscored, raw[1]).column;
            raw[0].name in m.attributes && raw[1].name in m.attributes &&
            c in m.columns && m.columns[c].name == raw[1].name
  {
    var c := Build(underscored, raw[1]).column;
    assert raw[0] in raw && raw[1] in raw && c in m.columns;
    var i: nat :| LastOfColumn(underscored, raw, i, m.columns[c]);
    assert i == 1;
  }
}
