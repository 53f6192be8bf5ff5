/** The indexes of a model definition: inputs from the model options and from attributes, merged by name. */
module IndexMerging {
  import opened Common

  /** An index name; `undefined` given as a name is a name like any other here. */
  type Name = nat
  type Field = nat
  type Key = nat
  type Value = nat

  const TYPE: Key := 0
  const UNIQUE: Key := 1
  const UNIQUE_TYPE: Value := 0
  const TRUE: Value := 1

  /** Index options as given: `name` and `fields` may be missing, options that are undefined are left out. */
  datatype Index = Index(name: Option<Name>, fields: Option<seq<Field>>, options: map<Key, Value>)

  datatype Failure = MissingFields | NameTaken | Conflict

  /** `conformIndex` on an index that has fields. */
  function Conformed(i: Index): (r: Index)
    ensures r.name == i.name && r.fields == i.fields
  {
    if TYPE in i.options && i.options[TYPE] == UNIQUE_TYPE
    then i.(options := (i.options - {TYPE})[UNIQUE := TRUE])
    else i
  }

  /** An index of type UNIQUE becomes a unique index without a type; any other stays. */
  lemma ConformingMeans(i: Index)
    ensures var r := Conformed(i).options;
            if TYPE in i.options && i.options[TYPE] == UNIQUE_TYPE then
              && TYPE !in r && UNIQUE in r && r[UNIQUE] == TRUE
              && forall k :: k !in {TYPE, UNIQUE} ==> (k in r <==> k in i.options) && (k in r ==> r[k] == i.options[k])
            else r == i.options
  {
  }

  /** The name an input ends up with; `generate` makes one up from the index. */
  function NameOf(generate: Index -> Name, i: Index): (n: Name)
    ensures i.name == Some(n) || (i.name.None? && n == generate(Conformed(i)))
  {
    if i.name.Some? then i.name.value else generate(Conformed(i))
  }

  function NamesOf(indexes: seq<Index>): (r: seq<Option<Name>>)
    ensures |r| == |indexes| && forall i :: 0 <= i < |indexes| ==> r[i] == indexes[i].name
  {
    seq(|indexes|, i requires 0 <= i < |indexes| => indexes[i].name)
  }

  /** The position of the index of that name, or the length of the list. */
  function Find(indexes: seq<Index>, n: Name): (p: nat)
    ensures p <= |indexes| && (p < |indexes| ==> indexes[p].name == Some(n))
    ensures forall j :: 0 <= j < p ==> indexes[j].name != Some(n)
  {
    IndexOf(NamesOf(indexes), Some(n))
  }

  predicate Compatible(a: map<Key, Value>, b: map<Key, Value>) {
    forall k :: k in a && k in b ==> a[k] == b[k]
  }

  function FieldsOf(i: Index): (r: seq<Field>)
    ensures i.fields == Some(r) || (i.fields.None? && r == [])
  {
    if i.fields.Some? then i.fields.value else []
  }

  /** One call of `#addIndex`. */
  function Add(generate: Index -> Name, indexes: seq<Index>, input: Index): Result<seq<Index>, Failure> {
    if input.fields.None? then Err(MissingFields)
    else
      var n := NameOf(generate, input);
      var index := Conformed(input).(name := Some(n));
      var p := Find(indexes, n);
      if p == |indexes| then Ok(indexes + [index])
      else if input.name.None? then Err(NameTaken)
      else if !Compatible(indexes[p].options, index.options) then Err(Conflict)
      else
        var x := indexes[p];
        Ok(indexes[p := Index(x.name, Some(FieldsOf(x) + FieldsOf(index)), index.options + x.options)])
  }

  function AddAll(generate: Index -> Name, inputs: seq<Index>): Result<seq<Index>, Failure> {
    if inputs == [] then Ok([])
    else
      var before := AddAll(generate, inputs[..|inputs| - 1]);
      if before.Err? then before else Add(generate, before.value, Last(inputs))
  }

  // ----- in place -----

  class IndexObject {
    var name: Option<Name>
    var fields: Option<seq<Field>>
    var options: map<Key, Value>

    function State(): Index
      reads this
    {
      Index(name, fields, options)
    }

    /** A shallow copy. */
    constructor (i: Index)
      ensures State() == i
    {
      name, fields, options := i.name, i.fields, i.options;
    }
  }

  function States(objects: seq<IndexObject>): (r: seq<Index>)
    reads objects
    ensures |r| == |objects| && forall i :: 0 <= i < |objects| ==> r[i] == objects[i].State()
  {
    if objects == [] then [] else [objects[0].State()] + States(objects[1..])
  }

  class Definition {
    const generate: Index -> Name
    var indexes: seq<IndexObject>

    constructor (generate: Index -> Name)
      ensures this.generate == generate && indexes == []
    {
      this.generate, indexes := generate, [];
    }

    ghost predicate Distinct()
      reads this
    {
      forall i, j :: 0 <= i < j < |indexes| ==> indexes[i] != indexes[j]
    }

    /** `conformIndex` and `#nameIndex`: a named copy of the input. */
    method NamedCopy(input: IndexObject) returns (index: IndexObject, failure: Option<Failure>)
      ensures fresh(index)
      ensures var i := input.State(); var n := NameOf(generate, i);
              if i.fields.None? then failure == Some(MissingFields)
              else if i.name.None? && Find(States(indexes), n) < |indexes| then failure == Some(NameTaken)
              else failure.None? && index.State() == Conformed(i).(name := Some(n))
    {
      index := new IndexObject(Conformed(input.State()));
      if input.fields.None? {
        return index, Some(MissingFields);
      }
      if index.name.None? {
        index.name := Some(generate(index.State()));
        if Find(States(indexes), index.name.value) < |indexes| {
          return index, Some(NameTaken);
        }
      }
      failure := None;
    }

    /** `#addIndex`: merges a copy of `input` into an entry of its name, or adds the copy. */
    method AddIndex(input: IndexObject) returns (failure: Option<Failure>)
      requires input !in indexes && Distinct()
      modifies this, indexes
      ensures Distinct() && forall i :: 0 <= i < |indexes| ==> indexes[i] in old(indexes) || fresh(indexes[i])
      ensures match Add(generate, old(States(indexes)), old(input.State()))
              case Ok(r) => failure.None? && States(indexes) == r
              case Err(e) => failure == Some(e)
    {
      hide AddAll, States;
      ghost var before := States(indexes);
      var index;
      index, failure := NamedCopy(input);
      if failure.Some? {
        return;
      }
      var p := Find(States(indexes), index.name.value);
      if p == |indexes| {
        indexes := indexes + [index];
        assert States(indexes) == before + [index.State()];
        return None;
      }
      var existing := indexes[p];
      ghost var x := existing.State();
      existing.fields := Some(FieldsOf(existing.State()) + FieldsOf(index.State()));
      if !Compatible(existing.options, index.options) {
        return Some(Conflict);
      }
      existing.options := index.options + existing.options;
      assert States(indexes) == before[p := existing.State()];
      return None;
    }

    /** `#refreshIndexes`: whatever happened before, the inputs are read, never written. */
    method RefreshIndexes(inputs: seq<IndexObject>) returns (failure: Option<Failure>)
      modifies this
      ensures forall x :: x in inputs ==> x.State() == old(x.State())
      ensures match AddAll(generate, old(States(inputs)))
              case Ok(r) => failure.None? && States(indexes) == r
              case Err(e) => failure == Some(e)
    {
      hide Add, AddAll, States;
      ghost var given := States(inputs);
      indexes := [];
      AddAllStep(generate, given, 0);
      for k := 0 to |inputs|
        invariant Distinct() && forall i :: 0 <= i < |indexes| ==> fresh(indexes[i])
        invariant forall x :: x in inputs ==> x.State() == old(x.State())
        invariant AddAll(generate, given[..k]) == Ok(States(indexes))
      {
        AddAllStep(generate, given, k);
        assert inputs[k] in inputs && given[k] == inputs[k].State();
        failure := AddIndex(inputs[k]);
        if failure.Some? {
          FailureStays(generate, given, k + 1);
          return;
        }
      }
      assert given[..|inputs|] == given;
      return None;
    }
  }

  lemma AddAllStep(generate: Index -> Name, inputs: seq<Index>, k: nat)
    ensures AddAll(generate, inputs[..0]) == Ok([])
    ensures k < |inputs| && AddAll(generate, inputs[..k]).Ok? ==>
              AddAll(generate, inputs[..k + 1]) == Add(generate, AddAll(generate, inputs[..k]).value, inputs[k])
  {
    if k < |inputs| { assert inputs[..k + 1][..k] == inputs[..k]; }
  }

  lemma {:induction false} FailureStays(generate: Index -> Name, inputs: seq<Index>, k: nat)
    requires k <= |inputs| && AddAll(generate, inputs[..k]).Err?
    ensures AddAll(generate, inputs) == AddAll(generate, inputs[..k])
    decreases |inputs|
  {
    if k == |inputs| {
      assert inputs[..k] == inputs;
    } else {
      assert inputs[..|inputs| - 1][..k] == inputs[..k];
      FailureStays(generate, inputs[..|inputs| - 1], k);
    }
  }

  // ----- what the merge means -----

  predicate Named(generate: Index -> Name, i: Index, n: Name) {
    NameOf(generate, i) == n
  }

  /** The fields of all inputs of one name, in input order. */
  function FieldsNamed(generate: Index -> Name, inputs: seq<Index>, n: Name): seq<Field> {
    if inputs == [] then []
    else
      var before := FieldsNamed(generate, inputs[..|inputs| - 1], n);
      if Named(generate, Last(inputs), n) then before + FieldsOf(Last(inputs)) else before
  }

  /** Some input of that name sets the option to that value. */
  predicate Sets(generate: Index -> Name, inputs: seq<Index>, n: Name, k: Key, v: Value) {
    exists i :: i in inputs && Named(generate, i, n) && k in Conformed(i).options && Conformed(i).options[k] == v
  }

  /** `x` is the merge of the inputs of its name. */
  predicate Summarizes(generate: Index -> Name, inputs: seq<Index>, x: Index) {
    && x.name.Some? && x.fields == Some(FieldsNamed(generate, inputs, x.name.value))
    && (exists i :: i in inputs && Named(generate, i, x.name.value))
    && (forall k :: k in x.options ==> Sets(generate, inputs, x.name.value, k, x.options[k]))
    && (forall i, k :: i in inputs && Named(generate, i, x.name.value) && k in Conformed(i).options ==>
          k in x.options && x.options[k] == Conformed(i).options[k])
  }

  /** The indexes are the merges of the inputs, one for each name. */
  predicate IsMerge(generate: Index -> Name, inputs: seq<Index>, indexes: seq<Index>) {
    && (forall p, q :: 0 <= p < q < |indexes| ==> indexes[p].name != indexes[q].name)
    && (forall x :: x in indexes ==> Summarizes(generate, inputs, x))
    && (forall i :: i in inputs ==> exists x :: x in indexes && x.name == Some(NameOf(generate, i)))
  }

  /** All inputs have fields, same-named ones agree on the options they set, and no made-up name was there before. */
  predicate Mergeable(generate: Index -> Name, inputs: seq<Index>) {
    && (forall i :: i in inputs ==> i.fields.Some?)
    && (forall p, q :: 0 <= p < q < |inputs| && NameOf(generate, inputs[p]) == NameOf(generate, inputs[q]) ==>
          && inputs[q].name.Some?
          && forall k :: k in Conformed(inputs[p]).options && k in Conformed(inputs[q]).options ==>
               Conformed(inputs[p]).options[k] == Conformed(inputs[q]).options[k])
  }

  /** A refresh succeeds if and only if its inputs are mergeable, and then gives their merge. */
  lemma {:induction false} RefreshMerges(generate: Index -> Name, inputs: seq<Index>)
    ensures AddAll(generate, inputs).Ok? <==> Mergeable(generate, inputs)
    ensures AddAll(generate, inputs).Ok? ==> IsMerge(generate, inputs, AddAll(generate, inputs).value)
    decreases |inputs|
  {
    if inputs != [] {
      var before, i := inputs[..|inputs| - 1], Last(inputs);
      assert inputs == before + [i];
      RefreshMerges(generate, before);
      MergeableStep(generate, before, i);
      if AddAll(generate, before).Ok? {
        AddFits(generate, before, AddAll(generate, before).value, i);
        if Fits(generate, before, i) { AddMerges(generate, before, AddAll(generate, before).value, i); }
      }
    }
  }

  function InputNames(generate: Index -> Name, inputs: seq<Index>): seq<Option<Name>> {
    if inputs == [] then []
    else InputNames(generate, inputs[..|inputs| - 1]) + [Some(NameOf(generate, Last(inputs)))]
  }

  /** The entries are in the order in which their names first appear among the inputs. */
  lemma {:induction false} MergeKeepsOrder(generate: Index -> Name, inputs: seq<Index>)
    requires AddAll(generate, inputs).Ok?
    ensures NamesOf(AddAll(generate, inputs).value) == Common.Distinct(InputNames(generate, inputs))
    decreases |inputs|
  {
    if inputs != [] {
      var names, n := InputNames(generate, inputs), NameOf(generate, Last(inputs));
      assert names[..|names| - 1] == InputNames(generate, inputs[..|inputs| - 1]) && Last(names) == Some(n);
      MergeKeepsOrder(generate, inputs[..|inputs| - 1]);
      AddedName(generate, AddAll(generate, inputs[..|inputs| - 1]).value, Last(inputs));
      hide Add, NameOf, InputNames, NamesOf;
    }
  }

  lemma AddedName(generate: Index -> Name, before: seq<Index>, i: Index)
    requires Add(generate, before, i).Ok?
    ensures var n := Some(NameOf(generate, i));
            NamesOf(Add(generate, before, i).value) ==
            if n in NamesOf(before) then NamesOf(before) else NamesOf(before) + [n]
  {
    var p := Find(before, NameOf(generate, i));
    hide NameOf, Conformed, Find;
    if p < |before| { assert NamesOf(before)[p] == Some(NameOf(generate, i)); }
  }

  /** The condition on one input, given those before it. */
  predicate Fits(generate: Index -> Name, before: seq<Index>, i: Index) {
    i.fields.Some? &&
    forall j :: j in before && Named(generate, j, NameOf(generate, i)) ==>
      i.name.Some? && Compatible(Conformed(j).options, Conformed(i).options)
  }

  lemma {:induction false} MergeableStep(generate: Index -> Name, before: seq<Index>, i: Index)
    ensures Mergeable(generate, before + [i]) <==> Mergeable(generate, before) && Fits(generate, before, i)
  {
    var all := before + [i];
    assert all[|before|] == i && forall q :: 0 <= q < |before| ==> all[q] == before[q];
    assert forall j :: j in all <==> j in before || j == i;
    if Mergeable(generate, all) {
      forall j | j in before && Named(generate, j, NameOf(generate, i))
        ensures i.name.Some? && Compatible(Conformed(j).options, Conformed(i).options)
      {
        var q :| 0 <= q < |before| && before[q] == j;
        assert all[q] == j;
      }
      forall p, q | 0 <= p < q < |before| && NameOf(generate, before[p]) == NameOf(generate, before[q])
        ensures before[q].name.Some? && Compatible(Conformed(before[p]).options, Conformed(before[q]).options)
      {
        assert all[p] == before[p] && all[q] == before[q];
      }
    }
    if Mergeable(generate, before) && Fits(generate, before, i) {
      forall p, q | 0 <= p < q < |all| && NameOf(generate, all[p]) == NameOf(generate, all[q])
        ensures all[q].name.Some? && Compatible(Conformed(all[p]).options, Conformed(all[q]).options)
      {
        assert all[p] == before[p] && all[p] in before;
      }
    }
  }

  /** Agreeing with the merge is agreeing with every merged input. */
  lemma {:induction false} AgreesWithAll(generate: Index -> Name, before: seq<Index>, x: Index,
                                         options: map<Key, Value>)
    requires Summarizes(generate, before, x)
    ensures Compatible(x.options, options) <==>
            forall j :: j in before && Named(generate, j, x.name.value) ==> Compatible(Conformed(j).options, options)
    ensures exists j :: j in before && Named(generate, j, x.name.value)
  {
  }

  lemma {:induction false} AddFits(generate: Index -> Name, before: seq<Index>, indexes: seq<Index>, i: Index)
    requires IsMerge(generate, before, indexes)
    ensures Add(generate, indexes, i).Ok? <==> Fits(generate, before, i)
  {
    hide Conformed, FieldsNamed, Summarizes, Compatible;
    var n := NameOf(generate, i);
    var p := Find(indexes, n);
    if p == |indexes| {
      NoneOfName(generate, before, indexes, n);
    } else {
      assert indexes[p] in indexes && Summarizes(generate, before, indexes[p]);
      AgreesWithAll(generate, before, indexes[p], Conformed(i).options);
    }
  }

  lemma {:induction false} AddMerges(generate: Index -> Name, before: seq<Index>, indexes: seq<Index>, i: Index)
    requires IsMerge(generate, before, indexes) && Add(generate, indexes, i).Ok?
    ensures IsMerge(generate, before + [i], Add(generate, indexes, i).value)
  {
    hide Summarizes, Sets, FieldsNamed;
    var r, all, n := Add(generate, indexes, i).value, before + [i], NameOf(generate, i);
    var p := Find(indexes, n);
    forall q | 0 <= q < |r| ensures Summarizes(generate, all, r[q]) {
      if q == p {
        OwnEntry(generate, before, indexes, i);
      } else {
        assert indexes[q] in indexes;
        OtherEntry(generate, before, indexes[q], i);
      }
    }
    forall j | j in all ensures exists x :: x in r && x.name == Some(NameOf(generate, j)) {
      if j == i {
        assert r[p] in r && r[p].name == Some(n);
      } else {
        assert j in before;
        var x :| x in indexes && x.name == Some(NameOf(generate, j));
        var q :| 0 <= q < |indexes| && indexes[q] == x;
        assert r[q] in r && r[q].name == x.name;
      }
    }
  }

  lemma {:induction false} SetsGrows(generate: Index -> Name, before: seq<Index>, i: Index, n: Name, k: Key, v: Value)
    ensures Sets(generate, before + [i], n, k, v) <==>
            Sets(generate, before, n, k, v) ||
            (Named(generate, i, n) && k in Conformed(i).options && Conformed(i).options[k] == v)
  {
  }

  /** An entry of another name is not concerned by the new input. */
  lemma {:induction false} OtherEntry(generate: Index -> Name, before: seq<Index>, x: Index, i: Index)
    requires Summarizes(generate, before, x) && x.name != Some(NameOf(generate, i))
    ensures Summarizes(generate, before + [i], x)
  {
  }

  /** The entry of the new input's name: the input itself, or merged into what was there. */
  lemma {:induction false} OwnEntry(generate: Index -> Name, before: seq<Index>, indexes: seq<Index>, i: Index)
    requires IsMerge(generate, before, indexes) && Add(generate, indexes, i).Ok?
    ensures Summarizes(generate, before + [i], Add(generate, indexes, i).value[Find(indexes, NameOf(generate, i))])
  {
    hide Conformed, FieldsNamed, Summarizes, Compatible;
    var n := NameOf(generate, i);
    var p := Find(indexes, n);
    if p == |indexes| {
      NoneOfName(generate, before, indexes, n);
      FirstOfName(generate, before, i);
    } else {
      assert indexes[p] in indexes;
      MergedEntry(generate, before, indexes[p], i);
    }
  }

  lemma FieldsStep(generate: Index -> Name, before: seq<Index>, i: Index, n: Name)
    ensures FieldsNamed(generate, before + [i], n) ==
            FieldsNamed(generate, before, n) + if Named(generate, i, n) then FieldsOf(i) else []
  {
    assert (before + [i])[..|before|] == before;
  }

  lemma {:induction false} FirstOfName(generate: Index -> Name, before: seq<Index>, i: Index)
    requires i.fields.Some? && FieldsNamed(generate, before, NameOf(generate, i)) == []
    requires forall j :: j in before ==> !Named(generate, j, NameOf(generate, i))
    ensures Summarizes(generate, before + [i], Conformed(i).(name := Some(NameOf(generate, i))))
  {
    hide Conformed, Sets, FieldsNamed;
    var all, n, y := before + [i], NameOf(generate, i), Conformed(i);
    FieldsStep(generate, before, i, n);
    assert [] + FieldsOf(i) == FieldsOf(i);
    assert i in all && forall j :: j in all && Named(generate, j, n) ==> j == i;
    forall k | k in y.options ensures Sets(generate, all, n, k, y.options[k]) {
      SetsGrows(generate, before, i, n, k, y.options[k]);
    }
  }

  lemma {:induction false} MergedEntry(generate: Index -> Name, before: seq<Index>, x: Index, i: Index)
    requires Summarizes(generate, before, x) && x.name == Some(NameOf(generate, i)) && i.fields.Some?
    requires Compatible(x.options, Conformed(i).options)
    ensures Summarizes(generate, before + [i],
                       Index(x.name, Some(FieldsOf(x) + FieldsOf(Conformed(i))), Conformed(i).options + x.options))
  {
    hide Conformed;
    var all, n, options := before + [i], NameOf(generate, i), Conformed(i).options + x.options;
    FieldsStep(generate, before, i, n);
    hide FieldsNamed;
    assert i in all && forall j :: j in before ==> j in all;
    forall k | k in options ensures Sets(generate, all, n, k, options[k]) {
      SetsGrows(generate, before, i, n, k, options[k]);
    }
  }

  lemma {:induction false} NoneOfName(generate: Index -> Name, inputs: seq<Index>, indexes: seq<Index>, n: Name)
    requires IsMerge(generate, inputs, indexes) && Find(indexes, n) == |indexes|
    ensures FieldsNamed(generate, inputs, n) == [] && forall i :: i in inputs ==> !Named(generate, i, n)
  {
    hide Find, Summarizes, Conformed, FieldsNamed;
    forall i | i in inputs ensures !Named(generate, i, n) {
      var x :| x in indexes && x.name == Some(NameOf(generate, i));
      var q :| 0 <= q < |indexes| && indexes[q] == x;
    }
    NoFields(generate, inputs, n);
  }

  lemma {:induction false} NoFields(generate: Index -> Name, inputs: seq<Index>, n: Name)
    requires forall i :: i in inputs ==> !Named(generate, i, n)
    ensures FieldsNamed(generate, inputs, n) == []
    decreases |inputs|
  {
    if inputs != [] {
      assert Last(inputs) in inputs;
      NoFields(generate, inputs[..|inputs| - 1], n);
    }
  }
}
