/** Any number of clients, each with its own instance of one versioned row, saving, destroying and
    incrementing in any order. */
module OptimisticLocking {
  import opened Common
  import opened Instances
  import opened DirtySaving

  type Client = nat

  datatype System = System(row: Option<Values>, insts: map<Client, Inst>)

  datatype Action =
    | Load(c: Client, names: set<Attribute>)
    | Change(c: Client, e: Edit)
    | SaveIt(c: Client, h: Hooks)
    | Destroy(c: Client)
    | Increment(c: Client, amounts: map<Attribute, int>, subtract: bool)

  /** The row is a stored row of a versioned model. */
  predicate Stored(m: Model, row: Values) {
    m.Valid() && m.version.Some? && row.Keys == m.attributes && row[m.version.value].Int?
  }

  function Version(m: Model, row: Values): int
    requires Stored(m, row)
  {
    row[m.version.value].n
  }

  /** An edit that neither overwrites the key with another value, raw or by `set` while it is falsy, nor the
      version raw. */
  predicate Clean(m: Model, i: Inst, e: Edit) {
    KeepsKey(m, i, e) && (e.SetDataValue? ==> m.version != Some(e.name))
  }

  predicate CleanAll(m: Model, i: Inst, es: seq<Edit>)
    decreases |es|
  {
    es == [] || (Clean(m, i, es[0]) && CleanAll(m, Edited(m, i, es[0]), es[1..]))
  }

  /** The hooks of the save are clean, the after-hooks if they run. */
  predicate CleanSave(m: Model, i: Inst, h: Hooks) {
    && CleanAll(m, i, Pre(h))
    && (Reaches(m, i, h) ==> CleanAll(m, JustWritten(m, Prepared(m, i, h), Fields(m, i, h)), h.after))
  }

  predicate Enabled(m: Model, s: System, x: Action)
    requires m.version.Some?
  {
    match x
    case Load(c, names) => s.row.Some? && m.keys + m.VersionNames() <= names
    case Change(c, e) => c in s.insts && Clean(m, s.insts[c], e)
    case SaveIt(c, h) => c in s.insts && CleanSave(m, s.insts[c], h)
    case Destroy(c) => c in s.insts
    case Increment(c, amounts, _) => c in s.insts && amounts.Keys <= m.attributes - m.keys
  }

  function Next(m: Model, s: System, x: Action): System
    requires m.version.Some? && Enabled(m, s, x)
  {
    match x
    case Load(c, names) =>
      var loaded := Pick(s.row.value, names);
      s.(insts := s.insts[c := Inst(loaded, loaded, {})])
    case Change(c, e) => s.(insts := s.insts[c := Edited(m, s.insts[c], e)])
    case SaveIt(c, h) =>
      var r := Save(m, s.insts[c], s.row, h);
      System(r.row, s.insts[c := r.inst])
    case Destroy(c) => if s.row.Some? && Hits(m, s.insts[c], s.row.value) then s.(row := None) else s
    case Increment(c, amounts, subtract) =>
      if KeyHits(m, s.insts[c], s.row) then s.(row := Some(IncrementedRow(m, s.row.value, amounts, subtract))) else s
  }

  // ----- one save, one destroy -----

  lemma {:induction false} CleanKeepsIdentity(m: Model, i: Inst, es: seq<Edit>)
    requires m.Valid() && CleanAll(m, i, es)
    ensures forall a :: a in m.keys + m.VersionNames() ==> Get(EditedAll(m, i, es).data, a) == Get(i.data, a)
    ensures m.version.Some? ==> (m.version.value in EditedAll(m, i, es).changed <==> m.version.value in i.changed)
    ensures Tame(m, i, es)
    decreases |es|
  {
    if es != [] { CleanKeepsIdentity(m, Edited(m, i, es[0]), es[1..]); }
  }

  lemma {:induction false} CleanPrefix(m: Model, i: Inst, a: seq<Edit>, b: seq<Edit>)
    requires CleanAll(m, i, a + b)
    ensures CleanAll(m, i, a)
    decreases |a|
  {
    if a != [] {
      assert (a + b)[1..] == a[1..] + b;
      CleanPrefix(m, Edited(m, i, a[0]), a[1..], b);
    }
  }

  /** The instance still names the row it was loaded from, at some version not newer than the row's. */
  predicate Knows(m: Model, i: Inst, row: Values)
    requires Stored(m, row)
  {
    && (forall a :: a in m.keys ==> Get(i.data, a) == Get(row, a))
    && m.version.value in i.data && i.data[m.version.value].Int?
    && i.data[m.version.value].n <= Version(m, row)
  }

  /** What a save leaves in memory: the instance as it came, after one of the phases, or written. */
  predicate LeftBy(m: Model, i: Inst, h: Hooks, end: Inst) {
    end in {i, Validated(m, i, h), Hooked(m, i, h), Prepared(m, i, h)}
  }

  lemma VersionedSaveMeaning(m: Model, i: Inst, row: Values, h: Hooks)
    requires m.version.Some?
    ensures var i1, fields, s := Prepared(m, i, h), Fields(m, i, h), Save(m, i, Some(row), h);
            if Wrote(s.outcome) then
              && Hits(m, i1, row) && Reaches(m, i, h) && m.version.value in fields
              && s.row == Some(row + Written(m, i1, fields))
              && var i3 := EditedAll(m, JustWritten(m, i1, fields), h.after);
                 s.inst == if s.outcome == Updated(1) then Settled(i3, fields) else i3
            else s.row == Some(row) && LeftBy(m, i, h, s.inst) && !s.outcome.Updated?
    ensures var s := Save(m, i, None, h); s.row == None && !Wrote(s.outcome)
  {
    hide EditedAll;
  }

  lemma {:induction false} IdentityIsKept(m: Model, i: Inst, row: Values, es: seq<Edit>)
    requires Stored(m, row) && Knows(m, i, row) && CleanAll(m, i, es)
    ensures Knows(m, EditedAll(m, i, es), row)
    ensures Get(EditedAll(m, i, es).data, m.version.value) == Get(i.data, m.version.value)
  {
    CleanKeepsIdentity(m, i, es);
    assert m.version.value in m.keys + m.VersionNames();
  }

  /** Before the UPDATE, the instance names its row and version as it did when the save began. */
  lemma {:induction false} PhasesKeepIdentity(m: Model, i: Inst, row: Values, h: Hooks, end: Inst)
    requires Stored(m, row) && Knows(m, i, row) && CleanAll(m, i, Pre(h)) && LeftBy(m, i, h, end)
    ensures Knows(m, end, row) && Get(end.data, m.version.value) == Get(i.data, m.version.value)
  {
    Phases(m, i, h);
    CleanPrefix(m, i, h.validate + h.before, h.again);
    CleanPrefix(m, i, h.validate, h.before);
    hide EditedAll, CleanAll;
    IdentityIsKept(m, i, row, h.validate);
    IdentityIsKept(m, i, row, h.validate + h.before);
    IdentityIsKept(m, i, row, Pre(h));
  }

  /** A save that writes starts from the row's current version, and raises it by one; attributes nobody marked keep
      the row's value. Any other save changes nothing but what hooks did to the instance. */
  lemma {:induction false} SaveStartsFromCurrent(m: Model, i: Inst, row: Values, h: Hooks)
    requires Stored(m, row) && Knows(m, i, row) && CleanAll(m, i, Pre(h))
    ensures var s := Save(m, i, Some(row), h); var v := m.version.value;
            if Wrote(s.outcome) then
              && i.data[v] == row[v] && s.row.Some? && s.row.value.Keys == m.attributes
              && s.row.value[v] == Int(Version(m, row) + 1)
              && (forall a :: a in m.keys ==> Get(s.row.value, a) == Get(row, a))
              && forall a :: a in m.attributes && a !in Prepared(m, i, h).changed + m.VersionNames() ==>
                   s.row.value[a] == row[a]
            else s.row == Some(row) && LeftBy(m, i, h, s.inst)
  {
    hide Save, EditedAll, Prepared, Fields, CleanAll;
    var i1, v := Prepared(m, i, h), m.version.value;
    VersionedSaveMeaning(m, i, row, h);
    PhasesKeepIdentity(m, i, row, h, i1) by { assert LeftBy(m, i, h, i1); }
    if Wrote(Save(m, i, Some(row), h).outcome) {
      assert v in m.keys + m.VersionNames() && Get(row, v) == Get(i1.data, v);
      FieldsMarkedOrVersion(m, i, row, h);
      forall a | a in m.keys ensures Get(row + Written(m, i1, Fields(m, i, h)), a) == Get(row, a) {
        assert Get(i1.data, a) == Get(row, a);
      }
    }
  }

  lemma FieldsMarkedOrVersion(m: Model, i: Inst, row: Values, h: Hooks)
    ensures Fields(m, i, h) <= Prepared(m, i, h).changed + m.VersionNames()
  {
    Phases(m, i, h);
    hide EditedAll;
  }

  /** A save of a stale instance never writes; with something to save and no hook throwing, it raises the lock error. */
  lemma {:induction false} StaleSaveFails(m: Model, i: Inst, row: Values, h: Hooks)
    requires Stored(m, row) && Knows(m, i, row) && CleanAll(m, i, Pre(h))
    requires i.data[m.version.value] != row[m.version.value]
    ensures var s := Save(m, i, Some(row), h);
            && s.row == Some(row) && LeftBy(m, i, h, s.inst) && !Wrote(s.outcome) && !s.outcome.Updated?
            && (Reaches(m, i, h) ==> s.outcome == OptimisticLockError)
  {
    var v := m.version.value;
    VersionedSaveMeaning(m, i, row, h);
    PhasesKeepIdentity(m, i, row, h, Prepared(m, i, h));
    assert v in m.keys + m.VersionNames() && Get(row, v) != Get(Prepared(m, i, h).data, v);
    hide EditedAll, Fields, Prepared, Hooked, Validated;
  }

  /** A save writes if and only if no hook throws before the UPDATE, the client itself has changed an attribute, hooks
      bring no field that is none, no key is null, and the instance is at the row's version. */
  lemma {:induction false} CurrentSaveWrites(m: Model, i: Inst, row: Values, h: Hooks)
    requires Stored(m, row) && Knows(m, i, row) && CleanAll(m, i, Pre(h))
    ensures var s := Save(m, i, Some(row), h); var v := m.version.value;
            var writes := && !h.validateThrows && !h.beforeThrows && !h.againThrows
                          && i.changed * m.attributes != {} && Fields(m, i, h) <= m.attributes
                          && (forall k :: k in m.keys ==> row[k] != Null)
                          && i.data[v] == row[v];
            && (Wrote(s.outcome) <==> writes)
            && (s.outcome == Updated(1) <==> writes && !h.afterThrows)
            && (s.outcome == HookThrew(true) <==> writes && h.afterThrows)
  {
    var i1, v := Prepared(m, i, h), m.version.value;
    VersionedSaveMeaning(m, i, row, h);
    VersionIsNoHookField(m, i, h);
    PhasesKeepIdentity(m, i, row, h, i1);
    assert i.changed * m.attributes != {} ==> Fields(m, i, h) != {};
    hide EditedAll, CleanAll, Prepared, Fields, Hooked, Validated;
    assert forall a :: a in m.keys ==> Get(i1.data, a) == Get(row, a);
    assert v in m.keys + m.VersionNames();
    assert Hits(m, i1, row) <==> i.data[v] == row[v];
  }

  /** `increment` adds each amount, `decrement` subtracts it, and both raise the version by one; NULL stays NULL. */
  lemma AmountsBySign(m: Model, row: Values, amounts: map<Attribute, int>, subtract: bool, a: Attribute)
    requires a in row
    ensures var row' := IncrementedRow(m, row, amounts, subtract);
            && a in row' && (row[a] == Null ==> row'[a] == Null)
            && forall n :: row[a] == Int(n) ==>
                 row'[a] == Int(n + if m.version == Some(a) then 1 else if a !in amounts then 0
                                    else if subtract then -amounts[a] else amounts[a])
  {
  }

  lemma {:induction false} IncrementRaises(m: Model, row: Values, amounts: map<Attribute, int>, subtract: bool)
    requires Stored(m, row) && amounts.Keys <= m.attributes - m.keys
    ensures var row' := IncrementedRow(m, row, amounts, subtract);
            && Stored(m, row') && Version(m, row') == Version(m, row) + 1
            && forall a :: a in m.keys ==> row'[a] == row[a]
  {
  }

  // ----- every run -----

  predicate Reachable(m: Model, s: System, run: seq<Action>)
    requires m.version.Some?
    decreases |run|
  {
    run == [] || (Enabled(m, s, run[0]) && Reachable(m, Next(m, s, run[0]), run[1..]))
  }

  function After(m: Model, s: System, run: seq<Action>): System
    requires m.version.Some? && Reachable(m, s, run)
    decreases |run|
  {
    if run == [] then s else After(m, Next(m, s, run[0]), run[1..])
  }

  /** Every instance names the row, at some version not newer than the row's. */
  ghost predicate Consistent(m: Model, s: System)
    requires m.version.Some?
  {
    s.row.Some? ==> Stored(m, s.row.value) && forall c :: c in s.insts ==> Knows(m, s.insts[c], s.row.value)
  }

  /** The instance that wrote names the new row, at the new version, whatever the after-hooks did. */
  lemma {:induction false} WriterKnows(m: Model, i: Inst, row: Values, h: Hooks)
    requires Stored(m, row) && Knows(m, i, row) && CleanSave(m, i, h)
    requires Wrote(Save(m, i, Some(row), h).outcome)
    ensures var r := Save(m, i, Some(row), h); r.row.Some? && Stored(m, r.row.value) && Knows(m, r.inst, r.row.value)
  {
    var i1, fields := Prepared(m, i, h), Fields(m, i, h);
    VersionedSaveMeaning(m, i, row, h);
    SaveStartsFromCurrent(m, i, row, h);
    PhasesKeepIdentity(m, i, row, h, i1);
    hide Save, EditedAll, Prepared;
    var i2 := JustWritten(m, i1, fields);
    assert Knows(m, i2, row + Written(m, i1, fields));
    IdentityIsKept(m, i2, row + Written(m, i1, fields), h.after);
  }

  lemma {:induction false} StepConsistent(m: Model, s: System, x: Action)
    requires m.version.Some? && Consistent(m, s) && Enabled(m, s, x) && s.row.Some?
    ensures Consistent(m, Next(m, s, x))
  {
    match x
    case Load(c, names) =>
    case Change(c, e) =>
      assert EditedAll(m, s.insts[c], [e]) == Edited(m, s.insts[c], e);
      IdentityIsKept(m, s.insts[c], s.row.value, [e]);
    case SaveIt(c, h) =>
      var r := Save(m, s.insts[c], s.row, h);
      SaveStartsFromCurrent(m, s.insts[c], s.row.value, h);
      if Wrote(r.outcome) {
        WriterKnows(m, s.insts[c], s.row.value, h);
      } else {
        PhasesKeepIdentity(m, s.insts[c], s.row.value, h, r.inst);
      }
      hide Save, EditedAll, CleanSave;
    case Destroy(c) =>
    case Increment(c, amounts, subtract) => IncrementRaises(m, s.row.value, amounts, subtract);
  }

  /** Once the row is gone it stays gone, and nobody writes it. */
  lemma {:induction false} GoneStaysGone(m: Model, s: System, run: seq<Action>)
    requires m.version.Some? && s.row.None? && Reachable(m, s, run)
    ensures After(m, s, run).row.None?
    decreases |run|
  {
    if run != [] {
      match run[0] {
        case SaveIt(c, h) => VersionedSaveMeaning(m, s.insts[c], map[], h);
        case _ =>
      }
      GoneStaysGone(m, Next(m, s, run[0]), run[1..]);
    }
  }

  /** Whether a step writes the row and leaves it there. */
  predicate Writes(m: Model, s: System, x: Action)
    requires m.version.Some? && Enabled(m, s, x)
  {
    match x
    case SaveIt(c, h) => s.row.Some? && Wrote(Save(m, s.insts[c], s.row, h).outcome)
    case Increment(c, _, _) => KeyHits(m, s.insts[c], s.row)
    case _ => false
  }

  /** Whatever version the client has seen, its increment is done, as long as the row is there. */
  lemma IncrementIsDone(m: Model, s: System, c: Client, amounts: map<Attribute, int>, subtract: bool)
    requires m.version.Some? && Consistent(m, s) && s.row.Some? && Enabled(m, s, Increment(c, amounts, subtract))
    ensures Next(m, s, Increment(c, amounts, subtract)) ==
            System(Some(IncrementedRow(m, s.row.value, amounts, subtract)), s.insts)
    ensures Writes(m, s, Increment(c, amounts, subtract))
  {
    assert Knows(m, s.insts[c], s.row.value);
  }

  function CountWrites(m: Model, s: System, run: seq<Action>): nat
    requires m.version.Some? && Reachable(m, s, run)
    decreases |run|
  {
    if run == [] then 0
    else (if Writes(m, s, run[0]) then 1 else 0) + CountWrites(m, Next(m, s, run[0]), run[1..])
  }

  /** In every interleaving that leaves the row there, its version counts the successful writes, each of which started
      from the version the one before it left, so that none is lost. */
  lemma {:induction false} NoLostUpdate(m: Model, s: System, run: seq<Action>)
    requires m.version.Some? && Consistent(m, s) && Reachable(m, s, run)
    ensures Consistent(m, After(m, s, run))
    ensures var end := After(m, s, run);
            s.row.Some? && end.row.Some? ==>
              Version(m, end.row.value) == Version(m, s.row.value) + CountWrites(m, s, run)
    decreases |run|
  {
    hide Next, Enabled, Writes, Knows;
    if s.row.None? {
      GoneStaysGone(m, s, run);
    } else if run != [] {
      StepCounts(m, s, run[0]);
      var s' := Next(m, s, run[0]);
      if s'.row.None? {
        GoneStaysGone(m, s', run[1..]);
      } else {
        StepConsistent(m, s, run[0]);
        NoLostUpdate(m, s', run[1..]);
      }
    }
  }

  lemma {:induction false} StepCounts(m: Model, s: System, x: Action)
    requires m.version.Some? && Consistent(m, s) && Enabled(m, s, x) && s.row.Some?
    ensures var s' := Next(m, s, x);
            s'.row.Some? ==>
              && Stored(m, s'.row.value)
              && Version(m, s'.row.value) == Version(m, s.row.value) + if Writes(m, s, x) then 1 else 0
  {
    hide Save, EditedAll;
    match x
    case SaveIt(c, h) => SaveStartsFromCurrent(m, s.insts[c], s.row.value, h);
    case Increment(c, amounts, subtract) => IncrementRaises(m, s.row.value, amounts, subtract);
    case _ =>
  }

  // ----- what instances remember -----

  /** Besides: an instance at the row's version has the row's value in every attribute that is not marked. */
  ghost predicate InstancesInSync(m: Model, s: System)
    requires m.version.Some?
  {
    Consistent(m, s) &&
    (s.row.Some? ==>
       forall c :: c in s.insts && Get(s.insts[c].data, m.version.value) == Get(s.row.value, m.version.value) ==>
         OthersInSync(m, s.insts[c], s.row.value))
  }

  predicate OthersInSync(m: Model, i: Inst, row: Values) {
    forall a :: a in m.attributes && m.version != Some(a) ==> InSyncAt(i, row, a)
  }

  /** After-hooks, if they run and do not throw, leave what was saved. */
  predicate Leaves(m: Model, s: System, x: Action) {
    x.SaveIt? && x.c in s.insts && Save(m, s.insts[x.c], s.row, x.h).outcome == Updated(1) ==>
      var fields := Fields(m, s.insts[x.c], x.h);
      AfterHooksLeave(m, JustWritten(m, Prepared(m, s.insts[x.c], x.h), fields), x.h.after, fields)
  }

  predicate AllLeave(m: Model, s: System, run: seq<Action>)
    requires m.version.Some? && Reachable(m, s, run)
    decreases |run|
  {
    run == [] || (Leaves(m, s, run[0]) && AllLeave(m, Next(m, s, run[0]), run[1..]))
  }

  lemma {:induction false} WriterInSync(m: Model, i: Inst, row: Values, h: Hooks)
    requires Stored(m, row) && OthersInSync(m, i, row) && Wrote(Save(m, i, Some(row), h).outcome)
    requires Save(m, i, Some(row), h).outcome == Updated(1) ==>
               AfterHooksLeave(m, JustWritten(m, Prepared(m, i, h), Fields(m, i, h)), h.after, Fields(m, i, h))
    ensures var r := Save(m, i, Some(row), h); r.row.Some? && OthersInSync(m, r.inst, r.row.value)
  {
    VersionedSaveMeaning(m, i, row, h);
    hide Save, EditedAll, Prepared, Fields, Settled, Written;
    var r := Save(m, i, Some(row), h);
    forall a | a in m.attributes && m.version != Some(a) ensures InSyncAt(r.inst, r.row.value, a) {
      SettledAt(m, i, row, h, a);
    }
  }

  lemma {:induction false} PhasesKeepOthers(m: Model, i: Inst, row: Values, h: Hooks, end: Inst)
    requires OthersInSync(m, i, row) && LeftBy(m, i, h, end)
    ensures OthersInSync(m, end, row)
  {
    Phases(m, i, h);
    hide EditedAll;
    forall a | a in m.attributes && m.version != Some(a) ensures InSyncAt(end, row, a) {
      EditsKeepSync(m, i, row, h.validate, a);
      EditsKeepSync(m, i, row, h.validate + h.before, a);
      EditsKeepSync(m, i, row, Pre(h), a);
    }
  }

  lemma {:induction false} StepInSync(m: Model, s: System, x: Action)
    requires m.version.Some? && InstancesInSync(m, s) && Enabled(m, s, x) && Leaves(m, s, x) && s.row.Some?
    ensures InstancesInSync(m, Next(m, s, x))
  {
    StepConsistent(m, s, x);
    StepCounts(m, s, x);
    hide EditedAll, Consistent;
    match x
    case Load(c, names) =>
    case Change(c, e) =>
      assert EditedAll(m, s.insts[c], [e]) == Edited(m, s.insts[c], e) by { OneEdit(m, s.insts[c], e); }
      if OthersInSync(m, s.insts[c], s.row.value) {
        forall a | a in m.attributes && m.version != Some(a)
          ensures InSyncAt(Edited(m, s.insts[c], e), s.row.value, a)
        {
          EditsKeepSync(m, s.insts[c], s.row.value, [e], a);
        }
      }
      CleanEditKeepsVersion(m, s.insts[c], e);
    case SaveIt(c, h) => SaveInSync(m, s, c, h);
    case Destroy(c) =>
    case Increment(c, amounts, subtract) => OldVersionsStayOld(m, s, x);
  }

  lemma OneEdit(m: Model, i: Inst, e: Edit)
    ensures EditedAll(m, i, [e]) == Edited(m, i, e)
  {
  }

  lemma CleanEditKeepsVersion(m: Model, i: Inst, e: Edit)
    requires m.Valid() && m.version.Some? && Clean(m, i, e)
    ensures Get(Edited(m, i, e).data, m.version.value) == Get(i.data, m.version.value)
  {
  }

  /** A write leaves every other instance behind. */
  lemma OldVersionsStayOld(m: Model, s: System, x: Action)
    requires m.version.Some? && Consistent(m, s) && Enabled(m, s, x) && s.row.Some? && Writes(m, s, x)
    requires var s' := Next(m, s, x);
             s'.row.Some? && Stored(m, s'.row.value) && Version(m, s'.row.value) == Version(m, s.row.value) + 1
    ensures forall c :: c in s.insts ==>
              Get(s.insts[c].data, m.version.value) != Get(Next(m, s, x).row.value, m.version.value)
  {
    forall c | c in s.insts
      ensures Get(s.insts[c].data, m.version.value) != Get(Next(m, s, x).row.value, m.version.value)
    {
      assert Knows(m, s.insts[c], s.row.value);
    }
  }

  lemma {:induction false} SaveInSync(m: Model, s: System, c: Client, h: Hooks)
    requires m.version.Some? && InstancesInSync(m, s) && Enabled(m, s, SaveIt(c, h)) && Leaves(m, s, SaveIt(c, h))
    requires s.row.Some? && Consistent(m, Next(m, s, SaveIt(c, h)))
    ensures InstancesInSync(m, Next(m, s, SaveIt(c, h)))
  {
    var i, row, r := s.insts[c], s.row.value, Save(m, s.insts[c], s.row, h);
    SaveStartsFromCurrent(m, i, row, h);
    hide Save, EditedAll;
    if Wrote(r.outcome) {
      OldVersionsStayOld(m, s, SaveIt(c, h));
      WriterInSync(m, i, row, h);
    } else {
      PhasesKeepIdentity(m, i, row, h, r.inst);
      if OthersInSync(m, i, row) { PhasesKeepOthers(m, i, row, h, r.inst); }
    }
  }

  lemma {:induction false} StaysInSync(m: Model, s: System, run: seq<Action>)
    requires m.version.Some? && InstancesInSync(m, s) && Reachable(m, s, run)
    requires AllLeave(m, s, run)
    ensures InstancesInSync(m, After(m, s, run))
    decreases |run|
  {
    if s.row.None? {
      GoneStaysGone(m, s, run);
    } else if run != [] {
      StepInSync(m, s, run[0]);
      StaysInSync(m, Next(m, s, run[0]), run[1..]);
    }
  }

  /** In every interleaving whose after-hooks leave what was saved: after a successful save without after-hooks the
      instance and the row agree on every attribute the instance has, version included, if and only if no validation
      hook set one too late. */
  lemma {:induction false} SavedInstanceAgrees(m: Model, start: Values, run: seq<Action>, c: Client, h: Hooks)
    requires Stored(m, start) && Reachable(m, System(Some(start), map[]), run)
    requires AllLeave(m, System(Some(start), map[]), run)
    requires var s := After(m, System(Some(start), map[]), run);
             && Enabled(m, s, SaveIt(c, h)) && h.after == []
             && Save(m, s.insts[c], s.row, h).outcome == Updated(1)
    ensures var s := After(m, System(Some(start), map[]), run);
            var r := Save(m, s.insts[c], s.row, h);
            r.row.Some? && s.row.Some? &&
            ((forall a :: a in m.attributes && a in r.inst.data ==> Get(r.row.value, a) == Get(r.inst.data, a)) <==>
             forall a :: !Dropped(m, s.insts[c], s.row.value, h, a))
  {
    StaysInSync(m, System(Some(start), map[]), run);
    var s := After(m, System(Some(start), map[]), run);
    var i, row := s.insts[c], s.row;
    if row.None? {
      VersionedSaveMeaning(m, i, map[], h);
    } else {
      SaveStartsFromCurrent(m, i, row.value, h);
      hide Save, EditedAll;
      assert Knows(m, i, row.value);
      if m.version.value in i.changed { assert i.data.Keys >= {m.version.value}; }
      assert InSync(m, i, row.value);
      SaveAgrees(m, i, row.value, h);
    }
  }

  /** A stale destroy deletes nothing; a current one deletes the row. */
  lemma {:induction false} DestroyIsGuarded(m: Model, s: System, c: Client)
    requires m.version.Some? && Consistent(m, s) && s.row.Some? && c in s.insts
    ensures Next(m, s, Destroy(c)) ==
            if Get(s.insts[c].data, m.version.value) == Get(s.row.value, m.version.value)
            then s.(row := None) else s
  {
  }

  // ----- where the promise fails, exactly -----

  /** A save that gets as far as making its UPDATE is refused if and only if the client itself had changed nothing:
      when only before-hooks did, the version is not among the saved fields. The hooks' marks stay, so that the next
      save is not refused, unless they are of no attribute. */
  lemma {:induction false} HookOnlyIsRefused(m: Model, i: Inst, row: Values, h: Hooks, again: Hooks)
    requires Stored(m, row) && Knows(m, i, row) && CleanAll(m, i, Pre(h)) && Builds(m, i, h)
    ensures var s := Save(m, i, Some(row), h);
            && (s.outcome == VersionRefused <==> i.changed * m.attributes == {})
            && (s.outcome == VersionRefused ==>
                  && s.row == Some(row) && s.inst == Prepared(m, i, h)
                  && (Fields(m, i, h) * m.attributes != {} && CleanAll(m, s.inst, Pre(again)) ==>
                        Save(m, s.inst, Some(row), again).outcome != VersionRefused))
  {
    var s, i1, v := Save(m, i, Some(row), h), Prepared(m, i, h), m.version.value;
    VersionIsNoHookField(m, i, h);
    PhasesKeepIdentity(m, i, row, h, i1);
    hide EditedAll, CleanAll, Prepared, Fields;
    assert s.outcome == VersionRefused <==> v !in Fields(m, i, h);
    if s.outcome == VersionRefused && Fields(m, i, h) * m.attributes != {} && CleanAll(m, s.inst, Pre(again)) {
      FieldsMarkedOrVersion(m, i, row, h);
      VersionIsNoHookField(m, i1, again);
      PhasesKeepIdentity(m, i1, row, again, Prepared(m, i1, again));
    }
  }

  lemma {:induction false} VersionIsNoHookField(m: Model, i: Inst, h: Hooks)
    requires m.Valid() && m.version.Some? && CleanAll(m, i, Pre(h))
    ensures m.version.value in Fields(m, i, h) <==> i.changed * m.attributes != {}
  {
    var v := m.version.value;
    Phases(m, i, h);
    CleanPrefix(m, i, h.validate + h.before, h.again);
    CleanKeepsIdentity(m, i, h.validate + h.before);
    hide EditedAll, CleanAll;
    assert v in i.changed ==> v in i.changed * m.attributes;
  }
}
