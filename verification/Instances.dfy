/** Model instances: what they remember of the row they were loaded from, and how saving writes only what
    is marked as changed. */
module Instances {
  import opened Common

  type Attribute = nat

  datatype Value = Null | Int(n: int) {
    predicate Truthy() { Int? && n != 0 }
  }

  type Values = map<Attribute, Value>

  function Get(m: Values, a: Attribute): Option<Value> {
    if a in m then Some(m[a]) else None
  }

  function Pick(m: Values, names: set<Attribute>): Values {
    map a | a in m && a in names :: m[a]
  }

  datatype Model = Model(attributes: set<Attribute>, keys: set<Attribute>, mainKey: Attribute,
                         version: Option<Attribute>, readOnly: set<Attribute>) {
    /** As the model definition guarantees: the version attribute is read-only and no part of the key. */
    predicate Valid() {
      mainKey in keys && keys <= attributes &&
      (version.Some? ==> version.value in attributes && version.value in readOnly && version.value !in keys)
    }

    function VersionNames(): set<Attribute> {
      if version.Some? then {version.value} else {}
    }
  }

  /** The state of a persisted instance. */
  datatype Inst = Inst(data: Values, previous: Values, changed: set<Attribute>)

  /** What a client, or a hook, does to an instance. */
  datatype Edit = Set(name: Attribute, value: Value) | SetDataValue(name: Attribute, value: Value)

  function Overwrite(m: Values, a: Attribute, v: Option<Value>): Values {
    if v.Some? then m[a := v.value] else m - {a}
  }

  function Edited(m: Model, i: Inst, e: Edit): Inst {
    match e
    case SetDataValue(a, v) =>
      Inst(i.data[a := v], i.previous, if Get(i.previous, a) == Some(v) then i.changed else i.changed + {a})
    case Set(a, v) =>
      var original := Get(i.data, a);
      if a !in m.attributes || (a in m.keys && original.Some? && original.value.Truthy()) || a in m.readOnly then i
      else if original == Some(v) then i
      else Inst(i.data[a := v], Overwrite(i.previous, a, original), i.changed + {a})
  }

  function EditedAll(m: Model, i: Inst, es: seq<Edit>): Inst
    decreases |es|
  {
    if es == [] then i else EditedAll(m, Edited(m, i, es[0]), es[1..])
  }

  // ----- saving -----

  /** Arbitrary hooks around a save: what they change, and whether they throw. `validate`: the validation hooks, or
      the validation itself; `again`: the same, the second time, after the before-hooks. */
  datatype Hooks = Hooks(validate: seq<Edit>, validateThrows: bool, before: seq<Edit>, beforeThrows: bool,
                         again: seq<Edit>, againThrows: bool, after: seq<Edit>, afterThrows: bool)

  const NO_HOOKS := Hooks([], false, [], false, [], false, [], false)

  function Validated(m: Model, i: Inst, h: Hooks): Inst {
    EditedAll(m, i, h.validate)
  }

  function Hooked(m: Model, i: Inst, h: Hooks): Inst {
    EditedAll(m, Validated(m, i, h), h.before)
  }

  /** The instance that the UPDATE is made from. */
  function Prepared(m: Model, i: Inst, h: Hooks): Inst {
    EditedAll(m, Hooked(m, i, h), h.again)
  }

  /** The fields saved by default: the changed attributes, and the version if there are any. */
  function OwnFields(m: Model, i: Inst): set<Attribute> {
    var fields := i.changed * m.attributes;
    if fields == {} then {} else fields + m.VersionNames()
  }

  /** The fields that before-hooks add. What is marked before they run and is no field is ignored. */
  function HookFields(m: Model, i: Inst, h: Hooks): set<Attribute> {
    var validated, hooked := Validated(m, i, h), Hooked(m, i, h);
    var ignored := validated.changed - OwnFields(m, i);
    var before := Pick(validated.data, OwnFields(m, i));
    set a | a in hooked.changed - ignored && a in hooked.data && Get(before, a) != Some(hooked.data[a])
  }

  function Fields(m: Model, i: Inst, h: Hooks): set<Attribute> {
    OwnFields(m, i) + HookFields(m, i, h)
  }

  /** The next version, or None where `Number.parseInt` gives NaN. */
  function Incremented(v: Option<Value>): Option<Value> {
    if v.Some? && v.value.Int? then Some(Int(v.value.n + 1)) else None
  }

  /** NaN is no value for the version, an INTEGER: the UPDATE is not sent. */
  predicate Refused(m: Model, i1: Inst, fields: set<Attribute>) {
    m.version.Some? && Incremented(Get(Pick(i1.data, fields), m.version.value)).None?
  }

  /** The SET list of an UPDATE that is not refused. */
  function Written(m: Model, i1: Inst, fields: set<Attribute>): Values {
    var values := Pick(i1.data, fields);
    if m.version.Some? then Overwrite(values, m.version.value, Incremented(Get(values, m.version.value))) else values
  }

  /** The WHERE clause: the primary key, and the version if there is one. */
  predicate Hits(m: Model, i1: Inst, row: Values) {
    forall a :: a in m.keys + m.VersionNames() ==> Get(row, a) == Get(i1.data, a)
  }

  predicate HasKey(m: Model, i: Inst) {
    forall a :: a in m.keys ==> a in i.data && i.data[a] != Null
  }

  datatype Outcome =
    | Updated(rows: nat)
    | NothingToDo
    | OptimisticLockError
    | MissingKey
    | VersionRefused
    | UnknownColumn
    | HookThrew(written: bool)

  datatype Saved = Saved(inst: Inst, row: Option<Values>, outcome: Outcome)

  /** The instance once its fields count as saved. */
  function Settled(i: Inst, fields: set<Attribute>): Inst {
    Inst(i.data,
         map a | a in i.previous.Keys + i.data.Keys && (if a in fields then a in i.data else a in i.previous)
           :: if a in fields then i.data[a] else i.previous[a],
         i.changed - fields)
  }

  /** The instance between the UPDATE and the after-hooks. */
  function JustWritten(m: Model, i1: Inst, fields: set<Attribute>): Inst {
    if m.version.Some? then
      i1.(data := Overwrite(i1.data, m.version.value, Incremented(Get(Pick(i1.data, fields), m.version.value))))
    else i1
  }

  /** What `save` does, to the instance and to the row. */
  function Save(m: Model, i: Inst, row: Option<Values>, h: Hooks): Saved {
    var i1, fields := Prepared(m, i, h), Fields(m, i, h);
    if m.mainKey !in i.data then Saved(i, row, MissingKey)
    else if h.validateThrows then Saved(Validated(m, i, h), row, HookThrew(false))
    else if h.beforeThrows then Saved(Hooked(m, i, h), row, HookThrew(false))
    else if h.againThrows then Saved(i1, row, HookThrew(false))
    else if fields == {} then Saved(i1, row, NothingToDo)
    else if !HasKey(m, i1) then Saved(i1, row, MissingKey)
    else if Refused(m, i1, fields) then Saved(i1, row, VersionRefused)
    else if !(fields <= m.attributes) then Saved(i1, row, UnknownColumn)
    else
      var hit := row.Some? && Hits(m, i1, row.value);
      if m.version.Some? && !hit then Saved(i1, row, OptimisticLockError)
      else
        var row' := if hit then Some(row.value + Written(m, i1, fields)) else row;
        var i3 := EditedAll(m, JustWritten(m, i1, fields), h.after);
        if h.afterThrows then Saved(i3, row', HookThrew(true))
        else Saved(Settled(i3, fields), row', Updated(if hit then 1 else 0))
  }

  function Plus(v: Value, d: int): Value {
    if v.Int? then Int(v.n + d) else v
  }

  /** UPDATE ... SET a = a + d: a version is raised by one, whatever the sign. */
  function IncrementedRow(m: Model, row: Values, amounts: map<Attribute, int>, subtract: bool): Values
  {
    var all := if m.version.Some? then amounts[m.version.value := if subtract then -1 else 1] else amounts;
    map a | a in row :: if a in all then Plus(row[a], if subtract then -all[a] else all[a]) else row[a]
  }

  /** The WHERE clause of `increment`: the primary key alone. */
  predicate KeyHits(m: Model, i: Inst, row: Option<Values>) {
    row.Some? && forall a :: a in m.keys ==> Get(row.value, a) == Get(i.data, a)
  }

  class Table {
    var row: Option<Values>

    constructor (row: Option<Values>)
      ensures this.row == row
    {
      this.row := row;
    }
  }

  class Instance {
    const model: Model
    var dataValues: Values
    var previousDataValues: Values
    var changed: set<Attribute>

    function State(): Inst
      reads this
    {
      Inst(dataValues, previousDataValues, changed)
    }

    /** An instance as it is loaded. */
    constructor (model: Model, row: Values)
      ensures this.model == model && State() == Inst(row, row, {})
    {
      this.model, dataValues, previousDataValues, changed := model, row, row, {};
    }

    method SetDataValue(a: Attribute, v: Value)
      modifies this
      ensures State() == Edited(model, old(State()), Edit.SetDataValue(a, v))
    {
      if Get(previousDataValues, a) != Some(v) {
        changed := changed + {a};
      }
      dataValues := dataValues[a := v];
    }

    method Set(a: Attribute, v: Value)
      modifies this
      ensures State() == Edited(model, old(State()), Edit.Set(a, v))
    {
      var original := Get(dataValues, a);
      if a !in model.attributes {
        return;
      }
      if original.Some? && original.value.Truthy() && a in model.keys {
        return;
      }
      if a in model.readOnly {
        return;
      }
      if original != Some(v) {
        previousDataValues := Overwrite(previousDataValues, a, original);
        changed := changed + {a};
      }
      dataValues := dataValues[a := v];
    }

    method RunHook(es: seq<Edit>)
      modifies this
      ensures State() == EditedAll(model, old(State()), es)
    {
      if es != [] {
        match es[0] {
          case Set(a, v) => Set(a, v);
          case SetDataValue(a, v) => SetDataValue(a, v);
        }
        RunHook(es[1..]);
      }
    }

    /** The UPDATE statement of a save, and the check that it hit the row. */
    method UpdateRow(table: Table, fields: set<Attribute>) returns (outcome: Outcome)
      modifies this`dataValues, table
      ensures var i1, row := old(State()), old(table.row);
              var hit := row.Some? && Hits(model, i1, row.value);
              var values := Written(model, i1, fields);
              if !HasKey(model, i1) then outcome == MissingKey && table.row == row && State() == i1
              else if Refused(model, i1, fields) then outcome == VersionRefused && table.row == row && State() == i1
              else if !(fields <= model.attributes) then outcome == UnknownColumn && table.row == row && State() == i1
              else if model.version.Some? && !hit then
                outcome == OptimisticLockError && table.row == row && State() == i1
              else
                && outcome == Updated(if hit then 1 else 0)
                && table.row == (if hit then Some(row.value + values) else row)
                && State() == JustWritten(model, i1, fields)
    {
      if !HasKey(model, State()) {
        return MissingKey;
      }
      var values := Pick(dataValues, fields);
      if model.version.Some? {
        var next := Incremented(Get(values, model.version.value));
        if next.None? {
          return VersionRefused;
        }
        values := values[model.version.value := next.value];
      }
      if !(fields <= model.attributes) {
        return UnknownColumn;
      }
      var rowsUpdated := 0;
      if table.row.Some? && Hits(model, State(), table.row.value) {
        table.row := Some(table.row.value + values);
        rowsUpdated := 1;
      }
      if model.version.Some? {
        if rowsUpdated < 1 {
          return OptimisticLockError;
        }
        dataValues := dataValues[model.version.value := values[model.version.value]];
      }
      outcome := Updated(rowsUpdated);
    }

    method SaveTo(table: Table, h: Hooks) returns (outcome: Outcome)
      modifies this, table
      ensures Saved(State(), table.row, outcome) == Save(model, old(State()), old(table.row), h)
    {
      hide EditedAll;
      if model.mainKey !in dataValues {
        return MissingKey;
      }
      var fields := changed * model.attributes;
      if fields != {} && model.version.Some? {
        fields := fields + {model.version.value};
      }
      RunHook(h.validate);
      if h.validateThrows {
        return HookThrew(false);
      }
      ghost var start := old(State());
      var beforeHookValues := Pick(dataValues, fields);
      var ignoreChanged := changed - fields;
      RunHook(h.before);
      if h.beforeThrows {
        return HookThrew(false);
      }
      var hookChanged := set a | a in changed - ignoreChanged && a in dataValues &&
                                 Get(beforeHookValues, a) != Some(dataValues[a]);
      fields := fields + hookChanged;
      assert fields == Fields(model, start, h);
      RunHook(h.again);
      if h.againThrows {
        return HookThrew(false);
      }
      if fields == {} {
        return NothingToDo;
      }
      outcome := UpdateRow(table, fields);
      if !outcome.Updated? {
        return;
      }
      RunHook(h.after);
      if h.afterThrows {
        return HookThrew(true);
      }
      var settled := Settled(State(), fields);
      previousDataValues, changed := settled.previous, settled.changed;
    }

    /** The hard delete: the number of rows deleted, none when the key is missing or the version is stale. */
    method DestroyIn(table: Table) returns (deleted: Result<nat, Outcome>)
      modifies table
      ensures !HasKey(model, State()) ==> deleted == Err(MissingKey) && table.row == old(table.row)
      ensures HasKey(model, State()) ==>
                var hit := old(table.row).Some? && Hits(model, State(), old(table.row).value);
                deleted == Ok(if hit then 1 else 0) && table.row == if hit then None else old(table.row)
    {
      if !HasKey(model, State()) {
        return Err(MissingKey);
      }
      if table.row.Some? && Hits(model, State(), table.row.value) {
        table.row := None;
        return Ok(1);
      }
      return Ok(0);
    }

    /** `increment` and `decrement`: done in the database, the instance keeps its values. */
    method IncrementIn(table: Table, amounts: map<Attribute, int>, subtract: bool) returns (done: Result<nat, Outcome>)
      modifies table
      ensures !HasKey(model, State()) ==> done == Err(MissingKey) && table.row == old(table.row)
      ensures HasKey(model, State()) ==>
                if KeyHits(model, State(), old(table.row))
                then done == Ok(1) && table.row == Some(IncrementedRow(model, old(table.row).value, amounts, subtract))
                else done == Ok(0) && table.row == old(table.row)
    {
      if !HasKey(model, State()) {
        return Err(MissingKey);
      }
      if !KeyHits(model, State(), table.row) {
        return Ok(0);
      }
      var all := amounts;
      if model.version.Some? {
        all := all[model.version.value := if subtract then -1 else 1];
      }
      var row := table.row.value;
      var row' := map a | a in row :: if a in all then Plus(row[a], if subtract then -all[a] else all[a]) else row[a];
      assert row' == IncrementedRow(model, row, amounts, subtract);
      table.row := Some(row');
      return Ok(1);
    }
  }
}
