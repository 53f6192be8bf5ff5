/** Writing only the changed fields gives the row that writing every field would give, and when it does not. */
module DirtySaving {
  import opened Common
  import opened Instances

  /** An attribute that is not marked has the value last persisted; a marked one has some value. */
  predicate InSyncAt(i: Inst, row: Values, a: Attribute) {
    if a in i.changed then a in i.data
    else Get(i.previous, a) == Get(i.data, a) && (a in i.data ==> Get(row, a) == Get(i.data, a))
  }

  /** For the version, `previous` does not matter: a save whose after-hook throws leaves the old one there. */
  predicate VersionInSync(i: Inst, row: Values, v: Attribute) {
    if v in i.changed then v in i.data else v in i.data ==> Get(row, v) == Get(i.data, v)
  }

  predicate SyncAt(m: Model, i: Inst, row: Values, a: Attribute) {
    if m.version == Some(a) then VersionInSync(i, row, a) else InSyncAt(i, row, a)
  }

  predicate InSync(m: Model, i: Inst, row: Values) {
    forall a :: a in m.attributes ==> SyncAt(m, i, row, a)
  }

  // ----- edits -----

  /** What an edit does to the attribute it names; all others stay. `set` ignores unknown and read-only attributes, and
      keys that are neither null nor 0. */
  lemma EditMeans(m: Model, i: Inst, e: Edit)
    ensures var j, a, v := Edited(m, i, e), e.name, e.value;
            && (forall b :: b != a ==> && Get(j.data, b) == Get(i.data, b) && Get(j.previous, b) == Get(i.previous, b)
                                       && (b in j.changed <==> b in i.changed))
            && (e.SetDataValue? ==>
                  && Get(j.data, a) == Some(v) && Get(j.previous, a) == Get(i.previous, a)
                  && (a in j.changed <==> a in i.changed || Get(i.previous, a) != Some(v)))
    ensures var j, a, v, was := Edited(m, i, e), e.name, e.value, Get(i.data, e.name);
            e.Set? ==>
              if a !in m.attributes || a in m.readOnly || (a in m.keys && was !in {None, Some(Null), Some(Int(0))})
              then j == i
              else
                && Get(j.data, a) == Some(v) && (a in j.changed <==> a in i.changed || was != Some(v))
                && Get(j.previous, a) == if was != Some(v) then was else Get(i.previous, a)
  {
  }

  /** Writing the version back, raw, to what it was before a save whose after-hook threw: nothing marks it. */
  predicate PutsBack(m: Model, i: Inst, e: Edit) {
    m.version == Some(e.name) && e.SetDataValue? && e.name !in i.changed &&
    Get(i.previous, e.name) == Some(e.value) && Get(i.data, e.name) != Some(e.value)
  }

  predicate Tame(m: Model, i: Inst, es: seq<Edit>)
    decreases |es|
  {
    es == [] || (!PutsBack(m, i, es[0]) && Tame(m, Edited(m, i, es[0]), es[1..]))
  }

  /** Key `k`, now at `current`, is overwritten: raw, or by `set` while it is falsy. */
  predicate Rewrites(m: Model, k: Attribute, current: Option<Value>, e: Edit) {
    e.name == k && (e.SetDataValue? || (k !in m.readOnly && !(current.Some? && current.value.Truthy())))
  }

  predicate KeepsKey(m: Model, i: Inst, e: Edit) {
    e.name in m.keys && Rewrites(m, e.name, Get(i.data, e.name), e) ==> Get(i.data, e.name) == Some(e.value)
  }

  predicate KeepsKeys(m: Model, i: Inst, es: seq<Edit>)
    decreases |es|
  {
    es == [] || (KeepsKey(m, i, es[0]) && KeepsKeys(m, Edited(m, i, es[0]), es[1..]))
  }

  /** The value of key `k` after some edits. */
  function KeyAfter(m: Model, k: Attribute, current: Option<Value>, es: seq<Edit>): Option<Value>
    decreases |es|
  {
    if es == [] then current
    else KeyAfter(m, k, if Rewrites(m, k, current, es[0]) then Some(es[0].value) else current, es[1..])
  }

  lemma {:induction false} KeyFollows(m: Model, i: Inst, es: seq<Edit>, k: Attribute)
    requires m.Valid() && k in m.keys
    ensures Get(EditedAll(m, i, es).data, k) == KeyAfter(m, k, Get(i.data, k), es)
    decreases |es|
  {
    if es != [] { KeyFollows(m, Edited(m, i, es[0]), es[1..], k); }
  }

  lemma {:induction false} KeysStay(m: Model, i: Inst, es: seq<Edit>)
    requires m.Valid() && KeepsKeys(m, i, es)
    ensures forall k :: k in m.keys ==> Get(EditedAll(m, i, es).data, k) == Get(i.data, k)
    decreases |es|
  {
    if es != [] { KeysStay(m, Edited(m, i, es[0]), es[1..]); }
  }

  lemma {:induction false} EditsKeepSync(m: Model, i: Inst, row: Values, es: seq<Edit>, a: Attribute)
    requires SyncAt(m, i, row, a) && (m.version == Some(a) ==> a in m.readOnly && Tame(m, i, es))
    ensures SyncAt(m, EditedAll(m, i, es), row, a)
    ensures i.changed <= EditedAll(m, i, es).changed
    decreases |es|
  {
    if es != [] { EditsKeepSync(m, Edited(m, i, es[0]), row, es[1..], a); }
  }

  lemma {:induction false} EditsKeepMarks(m: Model, i: Inst, es: seq<Edit>)
    ensures i.changed <= EditedAll(m, i, es).changed
    ensures i.data.Keys <= EditedAll(m, i, es).data.Keys
    ensures EditedAll(m, i, es).changed - i.changed <= EditedAll(m, i, es).data.Keys
    decreases |es|
  {
    if es != [] { EditsKeepMarks(m, Edited(m, i, es[0]), es[1..]); }
  }

  // ----- the phases of a save -----

  /** Everything that hooks do before the UPDATE. */
  function Pre(h: Hooks): seq<Edit> {
    h.validate + h.before + h.again
  }

  lemma {:induction false} EditedConcat(m: Model, i: Inst, a: seq<Edit>, b: seq<Edit>)
    ensures EditedAll(m, i, a + b) == EditedAll(m, EditedAll(m, i, a), b)
    ensures Tame(m, i, a + b) <==> Tame(m, i, a) && Tame(m, EditedAll(m, i, a), b)
    decreases |a|
  {
    if a == [] {
      assert a + b == b;
    } else {
      assert (a + b)[1..] == a[1..] + b;
      EditedConcat(m, Edited(m, i, a[0]), a[1..], b);
    }
  }

  lemma Phases(m: Model, i: Inst, h: Hooks)
    ensures Prepared(m, i, h) == EditedAll(m, i, Pre(h))
    ensures Tame(m, i, Pre(h)) ==> Tame(m, i, h.validate) && Tame(m, i, h.validate + h.before)
    ensures Hooked(m, i, h) == EditedAll(m, i, h.validate + h.before)
    ensures i.changed <= Validated(m, i, h).changed <= Hooked(m, i, h).changed <= Prepared(m, i, h).changed
    ensures Hooked(m, i, h).changed - i.changed <= Hooked(m, i, h).data.Keys <= Prepared(m, i, h).data.Keys
    ensures i.data.Keys <= Hooked(m, i, h).data.Keys
  {
    hide EditedAll, Tame;
    EditedConcat(m, i, h.validate, h.before);
    EditedConcat(m, i, h.validate + h.before, h.again);
    EditsKeepMarks(m, i, h.validate);
    EditsKeepMarks(m, i, h.validate + h.before);
    EditsKeepMarks(m, Validated(m, i, h), h.before);
    EditsKeepMarks(m, Hooked(m, i, h), h.again);
  }

  /** What comes too late: an attribute that the first validation marks, unless it is saved anyway, and one that
      only the second validation marks. */
  predicate Stray(m: Model, i: Inst, h: Hooks, a: Attribute) {
    a !in OwnFields(m, i) &&
    (a in Validated(m, i, h).changed || (a in Prepared(m, i, h).changed && a !in Hooked(m, i, h).changed))
  }

  /** A marked attribute is among the saved fields if and only if no validation hook brought it too late. */
  lemma {:induction false} MarkedAreFields(m: Model, i: Inst, h: Hooks, a: Attribute)
    requires a in m.attributes && (a in i.changed ==> a in i.data)
    requires a in Prepared(m, i, h).changed
    ensures a in Fields(m, i, h) <==> !Stray(m, i, h, a)
  {
    Phases(m, i, h);
    hide EditedAll;
  }

  /** Every field but the version is marked and has a value. */
  lemma {:induction false} FieldsAreMarked(m: Model, i: Inst, h: Hooks, a: Attribute)
    requires a in Fields(m, i, h) && m.version != Some(a) && (a in i.changed ==> a in i.data)
    ensures a in Prepared(m, i, h).changed && a in Prepared(m, i, h).data && !Stray(m, i, h, a)
  {
    Phases(m, i, h);
    hide EditedAll;
  }

  // ----- one save -----

  /** A hook that throws before the UPDATE stops the save where it is, and the row stays. */
  lemma HooksStopTheSave(m: Model, i: Inst, row: Option<Values>, h: Hooks)
    ensures m.mainKey !in i.data ==> Save(m, i, row, h) == Saved(i, row, MissingKey)
    ensures var s := Save(m, i, row, h);
            m.mainKey in i.data ==>
              && (s.outcome == HookThrew(false) <==> h.validateThrows || h.beforeThrows || h.againThrows)
              && (s.outcome == NothingToDo <==> s.outcome != HookThrew(false) && Fields(m, i, h) == {})
              && (s.outcome == MissingKey <==>
                  && s.outcome !in {HookThrew(false), NothingToDo}
                  && exists k :: k in m.keys && Get(EditedAll(m, i, Pre(h)).data, k) in {None, Some(Null)})
              && (s.outcome == HookThrew(false) ==>
                  && s.row == row
                  && s.inst == EditedAll(m, i, if h.validateThrows then h.validate
                                               else if h.beforeThrows then h.validate + h.before else Pre(h)))
  {
    Phases(m, i, h);
    hide EditedAll, Fields, Prepared, Hooked, Pre;
  }

  /** The row after an UPDATE that hit it has the instance's value in every saved field but the version, and its own in
      all others. */
  lemma {:induction false} WrittenFields(m: Model, i: Inst, row: Values, h: Hooks, a: Attribute)
    requires Wrote(Save(m, i, Some(row), h).outcome) && Hits(m, EditedAll(m, i, Pre(h)), row)
    requires m.version != Some(a) && (a in i.changed ==> a in i.data)
    ensures var s := Save(m, i, Some(row), h);
            s.row.Some? && Get(s.row.value, a) ==
            if a in Fields(m, i, h) then Get(EditedAll(m, i, Pre(h)).data, a) else Get(row, a)
  {
    WroteMeaning(m, i, row, h);
    Phases(m, i, h);
    if a in Fields(m, i, h) { FieldsAreMarked(m, i, h, a); }
    hide EditedAll, Fields, Prepared, Save, Stray;
  }

  /** Without a version, an UPDATE is sent if and only if no hook throws before it, there are fields, all of them
      attributes, and no key has become null; it hits the row if and only if it is there and no key has another value
      than the row's. */
  lemma {:induction false} PlainSaveWrites(m: Model, i: Inst, row: Option<Values>, h: Hooks)
    requires m.Valid() && m.version.None?
    ensures var s := Save(m, i, row, h);
            var sent := && m.mainKey in i.data && !h.validateThrows && !h.beforeThrows && !h.againThrows
                        && Fields(m, i, h) != {} && Fields(m, i, h) <= m.attributes
                        && forall k :: k in m.keys ==>
                             KeyAfter(m, k, Get(i.data, k), Pre(h)) !in {None, Some(Null)};
            var hit := row.Some? && forall k :: k in m.keys ==>
                         Get(row.value, k) == KeyAfter(m, k, Get(i.data, k), Pre(h));
            && (s.outcome.Updated? || s.outcome == HookThrew(true) <==> sent)
            && (s.outcome == Updated(1) <==> sent && hit && !h.afterThrows)
            && (s.outcome == HookThrew(true) <==> sent && h.afterThrows)
            && (!(sent && hit) ==> s.row == row)
  {
    Phases(m, i, h);
    forall k | k in m.keys ensures Get(Prepared(m, i, h).data, k) == KeyAfter(m, k, Get(i.data, k), Pre(h)) {
      KeyFollows(m, i, Pre(h), k);
    }
    hide EditedAll, KeyAfter, Fields, Prepared;
  }

  /** What an UPDATE of every attribute would write. */
  function WriteAll(m: Model, i: Inst): Values {
    Written(m, i, m.attributes)
  }

  predicate Wrote(o: Outcome) {
    o == Updated(1) || o == HookThrew(true)
  }

  /** What a save that writes the row does. */
  lemma WroteMeaning(m: Model, i: Inst, row: Values, h: Hooks)
    requires Wrote(Save(m, i, Some(row), h).outcome)
    ensures var i1, fields, s := Prepared(m, i, h), Fields(m, i, h), Save(m, i, Some(row), h);
            var i3 := EditedAll(m, JustWritten(m, i1, fields), h.after);
            && fields <= m.attributes && fields != {} && !Refused(m, i1, fields) && s.row.Some?
            && (s.outcome == Updated(1) ==> Hits(m, i1, row) && s.inst == Settled(i3, fields))
            && (s.outcome == HookThrew(true) ==> s.inst == i3 && (m.version.Some? ==> Hits(m, i1, row)))
            && s.row.value == if Hits(m, i1, row) then row + Written(m, i1, fields) else row
  {
    hide EditedAll;
  }

  /** An attribute that the UPDATE does not write, set by validation hooks to something else than the row has. */
  predicate Dropped(m: Model, i: Inst, row: Values, h: Hooks, a: Attribute) {
    a in m.attributes && m.version != Some(a) && Stray(m, i, h, a) &&
    a in Prepared(m, i, h).data && Get(row, a) != Get(Prepared(m, i, h).data, a)
  }

  lemma {:induction false} UnwrittenAt(m: Model, i: Inst, row: Values, h: Hooks, a: Attribute)
    requires a in m.attributes && m.version != Some(a) && InSyncAt(i, row, a)
    ensures var i1 := Prepared(m, i, h);
            (a in Fields(m, i, h) || (a in i1.data ==> Get(row, a) == Get(i1.data, a))) <==> !Dropped(m, i, row, h, a)
  {
    hide EditedAll, Fields;
    Phases(m, i, h);
    EditsKeepSync(m, i, row, Pre(h), a);
    if a in Prepared(m, i, h).changed { MarkedAreFields(m, i, h, a); }
    if a in Fields(m, i, h) { FieldsAreMarked(m, i, h, a); }
  }

  /** The partial UPDATE produces the row that updating every attribute produces, before-hooks included, if and only
      if no validation hook set an attribute too late. */
  lemma {:induction false} PartialIsFull(m: Model, i: Inst, row: Values, h: Hooks)
    requires m.Valid() && InSync(m, i, row) && Hits(m, Prepared(m, i, h), row)
    requires Wrote(Save(m, i, Some(row), h).outcome)
    ensures Save(m, i, Some(row), h).row == Some(row + WriteAll(m, Prepared(m, i, h))) <==>
            forall a :: !Dropped(m, i, row, h, a)
  {
    WroteMeaning(m, i, row, h);
    hide Save, Prepared, Fields;
    forall a | a in m.attributes && m.version != Some(a)
      ensures var i1 := Prepared(m, i, h);
              (a in Fields(m, i, h) || (a in i1.data ==> Get(row, a) == Get(i1.data, a))) <==> !Dropped(m, i, row, h, a)
    {
      assert SyncAt(m, i, row, a);
      UnwrittenAt(m, i, row, h, a);
    }
    SameRow(m, Prepared(m, i, h), row, Fields(m, i, h));
  }

  lemma {:induction false} SameRow(m: Model, i1: Inst, row: Values, fields: set<Attribute>)
    requires m.Valid() && fields <= m.attributes && !Refused(m, i1, fields)
    ensures row + Written(m, i1, fields) == row + WriteAll(m, i1) <==>
            forall a :: a in m.attributes && m.version != Some(a) ==>
              a in fields || (a in i1.data ==> Get(row, a) == Get(i1.data, a))
  {
    var r, q := row + Written(m, i1, fields), row + WriteAll(m, i1);
    forall a | a in m.attributes ensures Get(r, a) == Get(q, a) <==> SameAt(m, i1, row, fields, a) {}
    if forall a :: a in m.attributes ==> SameAt(m, i1, row, fields, a) {
      assert r == q;
    } else {
      var a :| a in m.attributes && !SameAt(m, i1, row, fields, a);
      assert Get(r, a) != Get(q, a);
    }
  }

  predicate SameAt(m: Model, i1: Inst, row: Values, fields: set<Attribute>, a: Attribute) {
    m.version == Some(a) || a in fields || (a in i1.data ==> Get(row, a) == Get(i1.data, a))
  }

  /** After-hooks leave what was saved as it was written. */
  predicate AfterHooksLeave(m: Model, i2: Inst, es: seq<Edit>, fields: set<Attribute>) {
    forall a :: a in fields ==> Get(EditedAll(m, i2, es).data, a) == Get(i2.data, a)
  }

  /** The case of one attribute. */
  lemma {:induction false} SettledAt(m: Model, i: Inst, row: Values, h: Hooks, a: Attribute)
    requires m.Valid() && a in m.attributes && m.version != Some(a) && InSyncAt(i, row, a)
    ensures var i1, fields := Prepared(m, i, h), Fields(m, i, h);
            var i2, row' := JustWritten(m, i1, fields), row + Written(m, i1, fields);
            var i3 := EditedAll(m, i2, h.after);
            && (InSyncAt(Settled(i3, fields), row', a) <==> (a in fields ==> Get(i3.data, a) == Get(i2.data, a)))
            && InSyncAt(i3, row', a)
  {
    var i1, fields := Prepared(m, i, h), Fields(m, i, h);
    WrittenAt(m, i, row, h, a);
    hide EditedAll, Prepared, Fields, Written, JustWritten;
    var i2, row' := JustWritten(m, i1, fields), row + Written(m, i1, fields);
    EditsKeepMarks(m, i2, h.after);
    EditsKeepSync(m, i2, row', h.after, a);
  }

  /** Between the UPDATE and the after-hooks, the attribute is in sync, and equal to the row's if it was saved. */
  lemma {:induction false} WrittenAt(m: Model, i: Inst, row: Values, h: Hooks, a: Attribute)
    requires m.Valid() && a in m.attributes && m.version != Some(a) && InSyncAt(i, row, a)
    ensures var i1, fields := Prepared(m, i, h), Fields(m, i, h);
            var i2, row' := JustWritten(m, i1, fields), row + Written(m, i1, fields);
            InSyncAt(i2, row', a) && (a in fields ==> a in i2.data && Get(row', a) == Get(i2.data, a))
  {
    Phases(m, i, h);
    EditsKeepSync(m, i, row, Pre(h), a);
    if a in Fields(m, i, h) { FieldsAreMarked(m, i, h, a); }
    hide EditedAll, Prepared, Fields, Pre;
  }

  lemma {:induction false} VersionAt(m: Model, i: Inst, row: Values, h: Hooks)
    requires m.Valid() && m.version.Some? && !Refused(m, Prepared(m, i, h), Fields(m, i, h))
    ensures var i1, fields, v := Prepared(m, i, h), Fields(m, i, h), m.version.value;
            var i2, row' := JustWritten(m, i1, fields), row + Written(m, i1, fields);
            var i3 := EditedAll(m, i2, h.after);
            && v in fields && (VersionInSync(Settled(i3, fields), row', v) <==> Get(i3.data, v) == Get(i2.data, v))
            && (Tame(m, i2, h.after) ==> VersionInSync(i3, row', v))
  {
    var i1, fields, v := Prepared(m, i, h), Fields(m, i, h), m.version.value;
    var i2, row' := JustWritten(m, i1, fields), row + Written(m, i1, fields);
    hide EditedAll, Prepared, Fields;
    EditsKeepMarks(m, i2, h.after);
    assert VersionInSync(i2, row', v);
    if Tame(m, i2, h.after) { EditsKeepSync(m, i2, row', h.after, v); }
  }

  /** A save that hits the row keeps the instance in sync if and only if no after-hook changes what was saved:
      such a change is marked, and then the mark is cleared. */
  lemma {:induction false} SaveKeepsSync(m: Model, i: Inst, row: Values, h: Hooks)
    requires m.Valid() && InSync(m, i, row)
    requires Save(m, i, Some(row), h).outcome == Updated(1)
    ensures var fields, s := Fields(m, i, h), Save(m, i, Some(row), h);
            s.row.Some? && (InSync(m, s.inst, s.row.value) <==>
              AfterHooksLeave(m, JustWritten(m, Prepared(m, i, h), fields), h.after, fields))
  {
    WroteMeaning(m, i, row, h);
    hide Save, EditedAll, Prepared, Fields, Settled, Written;
    var fields, s := Fields(m, i, h), Save(m, i, Some(row), h);
    var i2 := JustWritten(m, Prepared(m, i, h), fields);
    var i3 := EditedAll(m, i2, h.after);
    forall a | a in m.attributes
      ensures SyncAt(m, s.inst, s.row.value, a) <==>
              (a in fields ==> Get(i3.data, a) == Get(i2.data, a))
    {
      assert SyncAt(m, i, row, a);
      if m.version == Some(a) { VersionAt(m, i, row, h); } else { SettledAt(m, i, row, h, a); }
    }
  }

  /** A save that hits the row and whose after-hook throws keeps the instance in sync: the marks stay. */
  lemma {:induction false} ThrownKeepsSync(m: Model, i: Inst, row: Values, h: Hooks)
    requires m.Valid() && InSync(m, i, row) && Hits(m, Prepared(m, i, h), row)
    requires Save(m, i, Some(row), h).outcome == HookThrew(true)
    requires Tame(m, JustWritten(m, Prepared(m, i, h), Fields(m, i, h)), h.after)
    ensures var s := Save(m, i, Some(row), h); s.row.Some? && InSync(m, s.inst, s.row.value)
  {
    WroteMeaning(m, i, row, h);
    hide Save, EditedAll, Prepared, Fields, Settled, Written;
    var s := Save(m, i, Some(row), h);
    forall a | a in m.attributes ensures SyncAt(m, s.inst, s.row.value, a) {
      assert SyncAt(m, i, row, a);
      if m.version == Some(a) { VersionAt(m, i, row, h); } else { SettledAt(m, i, row, h, a); }
    }
  }

  /** After a successful save without after-hooks, instance and row agree on every attribute the instance has if and
      only if no validation hook set one too late; no attribute is marked if and only if none marked one too late. */
  lemma {:induction false} SaveAgrees(m: Model, i: Inst, row: Values, h: Hooks)
    requires m.Valid() && InSync(m, i, row) && h.after == []
    requires Save(m, i, Some(row), h).outcome == Updated(1)
    ensures var s := Save(m, i, Some(row), h);
            && ((forall a :: a in m.attributes && a in s.inst.data ==> Get(s.row.value, a) == Get(s.inst.data, a)) <==>
                forall a :: !Dropped(m, i, row, h, a))
            && (s.inst.changed !! m.attributes <==>
                forall a :: a in m.attributes && a in Prepared(m, i, h).changed ==> !Stray(m, i, h, a))
  {
    WroteMeaning(m, i, row, h);
    var i1, fields, s := Prepared(m, i, h), Fields(m, i, h), Save(m, i, Some(row), h);
    assert EditedAll(m, JustWritten(m, i1, fields), h.after) == JustWritten(m, i1, fields);
    hide Save, EditedAll, Prepared, Fields, Stray;
    forall a | a in m.attributes && a in s.inst.data
      ensures Get(s.row.value, a) == Get(s.inst.data, a) <==> !Dropped(m, i, row, h, a)
    {
      assert SyncAt(m, i, row, a);
      if m.version != Some(a) { UnwrittenAt(m, i, row, h, a); }
    }
    forall a | a in m.attributes
      ensures a in s.inst.changed <==> a in i1.changed && Stray(m, i, h, a)
    {
      assert SyncAt(m, i, row, a);
      if a in i1.changed { MarkedAreFields(m, i, h, a); }
    }
  }

  /** A save that does not reach the row keeps whatever sync there was. */
  lemma {:induction false} FailedSaveKeepsSync(m: Model, i: Inst, row: Values, h: Hooks)
    requires m.Valid() && InSync(m, i, row) && Tame(m, i, Pre(h))
    ensures var s := Save(m, i, Some(row), h);
            !s.outcome.Updated? && s.outcome != HookThrew(true) ==> s.row == Some(row) && InSync(m, s.inst, row)
  {
    Phases(m, i, h);
    hide EditedAll, Tame, Fields;
    forall a | a in m.attributes
      ensures SyncAt(m, Validated(m, i, h), row, a) && SyncAt(m, Hooked(m, i, h), row, a)
      ensures SyncAt(m, Prepared(m, i, h), row, a)
    {
      EditsKeepSync(m, i, row, h.validate, a);
      EditsKeepSync(m, i, row, h.validate + h.before, a);
      EditsKeepSync(m, i, row, Pre(h), a);
    }
  }

  /** The save gets as far as making its UPDATE. */
  predicate Builds(m: Model, i: Inst, h: Hooks) {
    && m.mainKey in i.data && !h.validateThrows && !h.beforeThrows && !h.againThrows
    && Fields(m, i, h) != {} && HasKey(m, Prepared(m, i, h))
  }

  /** The UPDATE is sent, and names columns that exist. */
  predicate Reaches(m: Model, i: Inst, h: Hooks) {
    Builds(m, i, h) && !Refused(m, Prepared(m, i, h), Fields(m, i, h)) && Fields(m, i, h) <= m.attributes
  }

  /** The UPDATE misses its row, without any error, if and only if the model has no version and the row is gone or a
      key was overwritten with another value, raw or while it was falsy, by the client or by a hook. */
  lemma {:induction false} KeyEditMisses(m: Model, i: Inst, row: Option<Values>, es: seq<Edit>, h: Hooks)
    requires m.Valid()
    requires row.Some? ==> forall k :: k in m.keys ==> Get(row.value, k) == Get(i.data, k)
    ensures var j := EditedAll(m, i, es);
            Save(m, j, row, h).outcome == Updated(0) <==>
            && m.version.None? && Reaches(m, j, h) && !h.afterThrows
            && (row.None? || exists k :: k in m.keys && KeyAfter(m, k, Get(i.data, k), es + Pre(h)) != Get(i.data, k))
  {
    var j := EditedAll(m, i, es);
    Phases(m, j, h);
    EditedConcat(m, i, es, Pre(h));
    hide EditedAll, KeyAfter, Fields, Prepared;
    forall k | k in m.keys ensures Get(Prepared(m, j, h).data, k) == KeyAfter(m, k, Get(i.data, k), es + Pre(h)) {
      KeyFollows(m, i, es + Pre(h), k);
    }
  }

  // ----- every run -----

  /** Any sequence of edits and saves of one instance, while nobody else touches its row. */
  datatype Use = DoEdit(e: Edit) | DoSave(h: Hooks)

  /** The edits do not put an old version back; without a version, they do not overwrite the key either. */
  predicate Careful(m: Model, i: Inst, es: seq<Edit>) {
    Tame(m, i, es) && (m.version.None? ==> KeepsKeys(m, i, es))
  }

  /** What is asked of an edit, and of the hooks of a save. */
  predicate Wellbehaved(m: Model, i: Inst, u: Use) {
    match u
    case DoEdit(e) => Careful(m, i, [e])
    case DoSave(h) =>
      var i2 := JustWritten(m, Prepared(m, i, h), Fields(m, i, h));
      && Careful(m, i, Pre(h))
      && (Reaches(m, i, h) ==>
            Careful(m, i2, h.after) && (!h.afterThrows ==> AfterHooksLeave(m, i2, h.after, Fields(m, i, h))))
  }

  function Used(m: Model, i: Inst, row: Values, u: Use): (Inst, Values) {
    match u
    case DoEdit(e) => (Edited(m, i, e), row)
    case DoSave(h) => var s := Save(m, i, Some(row), h); (s.inst, s.row.value)
  }

  predicate AllWellbehaved(m: Model, i: Inst, row: Values, us: seq<Use>)
    decreases |us|
  {
    us == [] || (Wellbehaved(m, i, us[0]) &&
                 AllWellbehaved(m, Used(m, i, row, us[0]).0, Used(m, i, row, us[0]).1, us[1..]))
  }

  function UsedAll(m: Model, i: Inst, row: Values, us: seq<Use>): (Inst, Values)
    decreases |us|
  {
    if us == [] then (i, row)
    else var (i', row') := Used(m, i, row, us[0]); UsedAll(m, i', row', us[1..])
  }

  /** Without a version, the instance still has the key of its row. */
  predicate KeyKept(m: Model, i: Inst, row: Values) {
    m.version.None? ==> forall k :: k in m.keys && k in i.data ==> Get(row, k) == Get(i.data, k)
  }

  lemma {:induction false} UseKeepsSync(m: Model, i: Inst, row: Values, u: Use)
    requires m.Valid() && InSync(m, i, row) && KeyKept(m, i, row) && Wellbehaved(m, i, u)
    ensures InSync(m, Used(m, i, row, u).0, Used(m, i, row, u).1)
    ensures KeyKept(m, Used(m, i, row, u).0, Used(m, i, row, u).1)
  {
    match u
    case DoEdit(e) =>
      assert EditedAll(m, i, [e]) == Edited(m, i, e);
      forall a | a in m.attributes ensures SyncAt(m, Edited(m, i, e), row, a) {
        EditsKeepSync(m, i, row, [e], a);
      }
      if m.version.None? { KeysStay(m, i, [e]); }
    case DoSave(h) =>
      SaveKeepsKey(m, i, row, h);
      hide Save, Prepared, Fields, EditedAll, KeyKept;
      var o := Save(m, i, Some(row), h).outcome;
      if o == Updated(1) {
        SaveKeepsSync(m, i, row, h);
      } else if o == HookThrew(true) {
        ThrownKeepsSync(m, i, row, h);
      } else {
        FailedSaveKeepsSync(m, i, row, h);
      }
  }

  /** Such a save does not miss its row without an error. */
  lemma {:induction false} SaveKeepsKey(m: Model, i: Inst, row: Values, h: Hooks)
    requires m.Valid() && KeyKept(m, i, row) && Wellbehaved(m, i, DoSave(h))
    ensures var s := Save(m, i, Some(row), h);
            && s.row.Some? && KeyKept(m, s.inst, s.row.value) && (s.outcome.Updated? ==> s.outcome == Updated(1))
            && (Wrote(s.outcome) ==> Reaches(m, i, h) && Hits(m, Prepared(m, i, h), row))
  {
    Phases(m, i, h);
    hide EditedAll, KeepsKeys, Tame, Fields;
    if m.version.None? {
      KeysStay(m, i, Pre(h));
      assert h.validate + (h.before + h.again) == Pre(h);
      KeepsKeysPrefix(m, i, h.validate, h.before + h.again);
      KeepsKeysPrefix(m, i, h.validate + h.before, h.again);
      KeysStay(m, i, h.validate);
      KeysStay(m, i, h.validate + h.before);
      if Reaches(m, i, h) { KeysStay(m, Prepared(m, i, h), h.after); }
    }
  }

  lemma {:induction false} KeepsKeysPrefix(m: Model, i: Inst, a: seq<Edit>, b: seq<Edit>)
    requires KeepsKeys(m, i, a + b)
    ensures KeepsKeys(m, i, a)
    decreases |a|
  {
    if a != [] {
      assert (a + b)[1..] == a[1..] + b;
      KeepsKeysPrefix(m, Edited(m, i, a[0]), a[1..], b);
    }
  }

  /** From loading on, an attribute that is not marked always has its persisted value, whatever throws. */
  lemma {:induction false} AlwaysInSync(m: Model, i: Inst, row: Values, us: seq<Use>)
    requires m.Valid() && InSync(m, i, row) && KeyKept(m, i, row) && AllWellbehaved(m, i, row, us)
    ensures InSync(m, UsedAll(m, i, row, us).0, UsedAll(m, i, row, us).1)
    decreases |us|
  {
    if us != [] {
      UseKeepsSync(m, i, row, us[0]);
      AlwaysInSync(m, Used(m, i, row, us[0]).0, Used(m, i, row, us[0]).1, us[1..]);
    }
  }

  // ----- runs that break the promise -----

  const PLAIN := Model({0, 1}, {0}, 0, None, {})
  const LOCKED := Model({0, 1, 2}, {0}, 0, Some(2), {2})
  const THREE := Model({0, 1, 2}, {0}, 0, None, {})

  /** A validation hook that sets attribute 2, and a before-hook that sets it again: the row keeps 4, the instance
      says 7, the mark stays, and the row is not the one that writing every attribute would give. */
  lemma {:induction false} ValidationHookIsDropped()
    ensures var row := map[0 := Int(1), 1 := Int(3), 2 := Int(4)];
            var i := Edited(THREE, Inst(row, row, {}), Set(1, Int(5)));
            var h := NO_HOOKS.(validate := [Set(2, Int(6))], before := [Set(2, Int(7))]);
            var s := Save(THREE, i, Some(row), h);
            && s.outcome == Updated(1) && s.row == Some(map[0 := Int(1), 1 := Int(5), 2 := Int(4)])
            && s.inst.data[2] == Int(7) && s.inst.changed == {2}
            && s.row.value != row + WriteAll(THREE, Prepared(THREE, i, h))
  {
    var row := map[0 := Int(1), 1 := Int(3), 2 := Int(4)];
    var i := Edited(THREE, Inst(row, row, {}), Set(1, Int(5)));
    var h := NO_HOOKS.(validate := [Set(2, Int(6))], before := [Set(2, Int(7))]);
    assert i == Inst(row[1 := Int(5)], row, {1});
    var iv := Inst(i.data[2 := Int(6)], row, {1, 2});
    var ib := Inst(i.data[2 := Int(7)], row[2 := Int(6)], {1, 2});
    assert Validated(THREE, i, h) == Edited(THREE, i, Set(2, Int(6))) == iv;
    assert Hooked(THREE, i, h) == Edited(THREE, iv, Set(2, Int(7))) == ib;
    assert Prepared(THREE, i, h) == ib;
    assert OwnFields(THREE, i) == {1} && HookFields(THREE, i, h) == {} && Fields(THREE, i, h) == {1};
    assert row + Written(THREE, ib, {1}) == map[0 := Int(1), 1 := Int(5), 2 := Int(4)];
  }

  /** An after-hook that sets a saved attribute: the row keeps 5, the instance says 6, nothing is marked. */
  lemma {:induction false} AfterHookLosesTheMark()
    ensures var row := map[0 := Int(1), 1 := Int(4)];
            var i := Edited(PLAIN, Inst(row, row, {}), Set(1, Int(5)));
            var s := Save(PLAIN, i, Some(row), NO_HOOKS.(after := [Set(1, Int(6))]));
            && s.outcome == Updated(1) && s.inst.changed == {}
            && s.row.value[1] == Int(5) && s.inst.data[1] == Int(6)
  {
    var row := map[0 := Int(1), 1 := Int(4)];
    var i := Edited(PLAIN, Inst(row, row, {}), Set(1, Int(5)));
    assert i == Inst(row[1 := Int(5)], row, {1});
    assert OwnFields(PLAIN, i) == {1};
    assert Fields(PLAIN, i, NO_HOOKS.(after := [Set(1, Int(6))])) == {1};
    assert EditedAll(PLAIN, i, [Set(1, Int(6))]) == Edited(PLAIN, i, Set(1, Int(6)));
  }

  /** A before-hook that makes the only change of a versioned instance: the save is refused. Saving again, with the
      same hook, writes the change and raises the version. */
  lemma {:induction false} HookOnlyChangeIsRefused()
    ensures var row := map[0 := Int(1), 1 := Int(4), 2 := Int(0)];
            var h := NO_HOOKS.(before := [Set(1, Int(5))]);
            var s := Save(LOCKED, Inst(row, row, {}), Some(row), h);
            var t := Save(LOCKED, s.inst, s.row, h);
            && s.outcome == VersionRefused && s.row == Some(row) && s.inst.changed == {1}
            && t.outcome == Updated(1) && t.row == Some(map[0 := Int(1), 1 := Int(5), 2 := Int(1)])
  {
    var row := map[0 := Int(1), 1 := Int(4), 2 := Int(0)];
    var i, h := Inst(row, row, {}), NO_HOOKS.(before := [Set(1, Int(5))]);
    var j := Inst(row[1 := Int(5)], row, {1});
    assert Prepared(LOCKED, i, h) == Edited(LOCKED, i, Set(1, Int(5))) == j;
    assert OwnFields(LOCKED, i) == {} && Fields(LOCKED, i, h) == {1};
    assert Prepared(LOCKED, j, h) == Edited(LOCKED, j, Set(1, Int(5))) == j;
    assert OwnFields(LOCKED, j) == {1, 2} && Fields(LOCKED, j, h) == {1, 2};
    assert Save(LOCKED, i, Some(row), h) == Saved(j, Some(row), VersionRefused);
    assert EditedAll(LOCKED, JustWritten(LOCKED, j, {1, 2}), []) == JustWritten(LOCKED, j, {1, 2});
    hide Prepared, Fields, EditedAll, Edited;
    assert row + Written(LOCKED, j, {1, 2}) == map[0 := Int(1), 1 := Int(5), 2 := Int(1)];
  }

  /** `set` does overwrite a key that is 0, and the UPDATE of an unversioned model then misses its row. */
  lemma {:induction false} FalsyKeyIsOverwritten()
    ensures var row := map[0 := Int(0), 1 := Int(4)];
            var i := Edited(PLAIN, Inst(row, row, {}), Set(0, Int(9)));
            i.data[0] == Int(9) && Save(PLAIN, i, Some(row), NO_HOOKS).outcome == Updated(0)
  {
    var row := map[0 := Int(0), 1 := Int(4)];
    var i := Edited(PLAIN, Inst(row, row, {}), Set(0, Int(9)));
    assert i == Inst(row[0 := Int(9)], row, {0});
    assert Fields(PLAIN, i, NO_HOOKS) == {0};
    assert Get(row, 0) != Get(i.data, 0);
  }

  /** A hook that overwrites a key raw does the same, whatever the key. */
  lemma {:induction false} HookOverwritesKey()
    ensures var row := map[0 := Int(1), 1 := Int(4)];
            var i := Edited(PLAIN, Inst(row, row, {}), Set(1, Int(5)));
            Save(PLAIN, i, Some(row), NO_HOOKS.(before := [SetDataValue(0, Int(9))])).outcome == Updated(0)
  {
    var row, h := map[0 := Int(1), 1 := Int(4)], NO_HOOKS.(before := [SetDataValue(0, Int(9))]);
    var i := Edited(PLAIN, Inst(row, row, {}), Set(1, Int(5)));
    assert i == Inst(row[1 := Int(5)], row, {1});
    assert Prepared(PLAIN, i, h) == Edited(PLAIN, i, SetDataValue(0, Int(9)));
    assert Fields(PLAIN, i, h) == {0, 1};
    assert Get(row, 0) != Get(Prepared(PLAIN, i, h).data, 0);
  }
}
