/** `sequelize.transaction`: running a callback in a managed block, in each of the three nest modes. */
module ManagedBlocks {
  import opened Common
  import opened Sessions
  import opened Connections
  import opened Blocks
  import opened Transactions
  import opened FaultyRuns

  /** Connections that were out before and after keep their `uuid`. */
  twostate predicate TagsKept(pool: Pool)
    reads pool
  {
    forall c :: c in old(pool.lent) && c in pool.lent ==> (c in pool.uuid <==> c in old(pool.uuid))
  }

  /** Open database transactions only live on lent connections. */
  ghost predicate NoStraySession(pool: Pool, db: Database)
    reads pool, db
  {
    db.sessions.Keys <= pool.lent
  }

  /** How `t`, its pool and its database look now. */
  ghost function Look(t: Transaction): Snap
    reads t, t.pool, t.db
  {
    Snap(t.finished.Some?, t.connection, t.parent == null, |t.savepoints|, t.db.sessions, t.db.committed, t.pool.lent)
  }

  /** A savepoint is on its parent's connection. */
  ghost predicate OnParent(t: Transaction)
    reads t, t.parent
  {
    t.parent != null ==> t.parent.connection == t.connection
  }

  /** The pool after a step inside `t`: unchanged, or a root `t` was finished by a deadlock and gave its
      connection back. */
  twostate predicate PoolKept(t: Transaction)
    reads t, t.pool
  {
    && TagsKept(t.pool) && old(t.pool.history) <= t.pool.history
    && if t.connection == old(t.connection) then t.pool.lent == old(t.pool.lent)
       else t.parent == null && old(t.connection).Some? && t.connection.None? &&
            t.pool.lent == old(t.pool.lent) - {old(t.connection).value}
  }

  /** Binds `t` to a connection: a lent one of the pool for a root, its parent's for a savepoint. */
  method Bind(t: Transaction, faults: Faults) returns (error: Option<Error>)
    requires t.Valid() && t.connection.None?
    requires t.parent != null && t.parent.connection.Some? ==>
               t.parent.connection.value in t.pool.lent && t.parent.connection.value in t.pool.uuid
    modifies t`connection, t.pool
    ensures t.pool.Valid() && TagsKept(t.pool) && old(t.pool.history) <= t.pool.history
    ensures error.None? <==> t.connection.Some?
    ensures error.None? ==> t.connection.value in t.pool.lent && t.connection.value in t.pool.uuid
    ensures t.parent != null ==> t.connection == t.parent.connection && t.pool.lent == old(t.pool.lent)
    ensures t.parent == null && error.None? ==>
              t.connection.value !in old(t.pool.lent) && t.pool.lent == old(t.pool.lent) + {t.connection.value}
    ensures error.Some? ==> t.pool.lent == old(t.pool.lent)
    ensures faults == Never && (t.parent != null ==> t.parent.connection.Some?) ==> error.None?
  {
    var c;
    if t.parent != null {
      if t.parent.connection.None? {
        return Some(NOT_BOUND);
      }
      c := t.parent.connection.value;
      error := None;
    } else {
      error := HookError(faults);
      if error.Some? {
        return;
      }
      c := t.pool.Acquire();
    }
    t.pool.uuid := t.pool.uuid[c := t.id];
    t.connection := Some(c);
  }

  /** What a successful START TRANSACTION or SAVEPOINT does to the open sessions. */
  function Begun(sessions: map<Connection, Session>, c: Connection, isRoot: bool, name: nat): map<Connection, Session> {
    if isRoot then sessions[c := FRESH]
    else if c in sessions then sessions[c := Establish(sessions[c], name)]
    else sessions
  }

  /** prepareEnvironment. A root leaves no connection behind when it fails. */
  method PrepareEnvironment(t: Transaction, faults: Faults) returns (error: Option<Error>)
    requires t.Valid() && t.finished.None? && t.connection.None?
    requires t.parent != null && t.parent.connection.Some? ==>
               t.parent.connection.value in t.pool.lent && t.parent.connection.value in t.pool.uuid
    modifies t`finished, t`connection, t.pool, t.db
    ensures t.Valid() && TagsKept(t.pool)
    ensures t.db.committed == old(t.db.committed)
    ensures old(t.pool.history) <= t.pool.history
    ensures t.parent != null ==> t.pool.lent == old(t.pool.lent)
    ensures t.parent == null ==> (t.connection.Some? <==> error.None?)
    ensures error.None? ==> t.finished.None? && t.connection.Some?
    ensures t.parent == null && error.None? ==>
              t.connection.value !in old(t.pool.lent) && t.pool.lent == old(t.pool.lent) + {t.connection.value}
    ensures t.parent == null && error.Some? ==> t.pool.lent == old(t.pool.lent)
    ensures faults == Never && (t.parent != null ==> t.parent.connection.Some?) ==>
              && error.None? && (t.parent != null ==> t.connection == t.parent.connection)
              && t.db.sessions == Begun(old(t.db.sessions), t.connection.value, t.parent == null, t.name)
    ensures error.None? ==>
              && (t.parent != null ==> t.connection == t.parent.connection)
              && t.db.sessions == Begun(old(t.db.sessions), t.connection.value, t.parent == null, t.name)
    ensures error.Some? && t.parent == null && old(NoStraySession(t.pool, t.db)) ==> t.db.sessions == old(t.db.sessions)
    ensures error.Some? && t.parent != null && faults != AnyFault &&
            (t.parent.connection.Some? && t.parent.connection.value in old(t.db.sessions) ==>
               NamesBelow(old(t.db.sessions)[t.parent.connection.value].marks, t.name)) ==>
              t.db.sessions == old(t.db.sessions)
  {
    hide Orderly, Lent;
    error := Bind(t, faults);
    if error.Some? {
      return;
    }
    label bound:
    error := HookError(faults);
    if error.None? {
      t.db.sessions := Begun(t.db.sessions, t.connection.value, t.parent == null, t.name);
    } else {
      ghost var c := t.connection.value;
      if c in t.db.sessions && NamesBelow(t.db.sessions[c].marks, t.name) { UndoNothing(t.db.sessions[c], t.name); }
      var _ := t.Rollback(faults);
    }
  }

  /** The callback may also commit `t`, or roll it back, itself. */
  method MayFinish(t: Transaction, faults: Faults)
    requires t.Valid()
    modifies t`finished, t`connection, t.pool, t.db
    ensures t.Valid() && PoolKept(t)
    ensures faults != AnyFault || old(t.finished).Some? ==>
              && t.finished == old(t.finished) && t.connection == old(t.connection)
              && t.db.sessions == old(t.db.sessions) && t.db.committed == old(t.db.committed)
              && t.pool.lent == old(t.pool.lent)
  {
    var how: Option<Finish> := *;
    if faults == AnyFault {
      match how {
        case None =>
        case Some(Committed) => var _ := t.Commit(faults);
        case Some(RolledBack) => var _ := t.Rollback(faults);
      }
    }
  }

  /** One step of a callback: a query, perhaps after finishing `t`. */
  method WriteStep(t: Transaction, w: Write, faults: Faults) returns (error: Option<Error>)
    requires t.Valid()
    modifies t`finished, t`connection, t.pool, t.db
    ensures t.Valid() && PoolKept(t)
    ensures old(t.finished).Some? ==>
              error.Some? && t.db.sessions == old(t.db.sessions) && t.db.committed == old(t.db.committed)
    ensures old(OnParent(t)) ==> Stepped(w, faults, old(Look(t)), Look(t), error)
  {
    MayFinish(t, faults);
    error := Query(t, w, faults);
  }

  /** One query, which may end in a deadlock. */
  method Query(t: Transaction, w: Write, faults: Faults) returns (error: Option<Error>)
    requires t.Valid()
    modifies t`finished, t`connection, t.pool, t.db
    ensures t.Valid() && PoolKept(t)
    ensures old(t.finished).Some? ==>
              error.Some? && t.db.sessions == old(t.db.sessions) && t.db.committed == old(t.db.committed)
    ensures old(OnParent(t)) ==> Stepped(w, faults, old(Look(t)), Look(t), error)
    ensures faults == Never && old(t.finished.None? && t.connection.Some? && t.connection.value !in t.db.sessions) ==>
              && error.None? && t.finished.None? && t.connection == old(t.connection)
              && t.db.sessions == old(t.db.sessions) && t.db.committed == old(t.db.committed) + [w]
  {
    hide Orderly, Lent, NamesBelow;
    if Fit(Look(t)) { FollowsSelf(Look(t)); }
    if t.finished.Some? {
      return Some(ALREADY_FINISHED);
    }
    error := QueryError(t.connection, faults);
    if t.connection.None? {
      return;
    }
    var c := t.connection.value;
    if error.None? {
      if c in t.db.sessions {
        var s := t.db.sessions[c];
        t.db.sessions := t.db.sessions[c := s.(log := s.log + [w])];
      } else {
        t.db.committed := t.db.committed + [w];  // outside a database transaction
      }
    } else {
      var deadlock: bool := *;
      if deadlock && (t.parent == null || faults == AnyFault) {
        DeadlockHits(t, faults);
      }
    }
  }

  /** MariaDB ends the whole database transaction, and `t`, which may be a savepoint, is rolled back. */
  method DeadlockHits(t: Transaction, faults: Faults)
    requires t.Valid() && t.finished.None? && t.connection.Some?
    modifies t`finished, t`connection, t.pool, t.db
    ensures t.Valid() && PoolKept(t) && t.finished.Some? && t.db.committed == old(t.db.committed)
    ensures t.parent == null ==> t.connection.None?
    ensures old(OnParent(t)) ==> t.db.sessions == old(t.db.sessions) - {old(t.connection).value}
  {
    hide Orderly, Lent;
    t.db.sessions := t.db.sessions - {t.connection.value};
    var _ := t.Rollback(faults);
  }

  /** Runs a callback in `t`. A faulty step may make it throw anything, or be caught. `kept` are the writes it keeps
      in `t`, and `others` those committed meanwhile through other connections. */
  method RunCallback(b: Body, t: Transaction, faults: Faults)
    returns (error: Option<Error>, ghost kept: seq<Write>, ghost others: seq<Write>)
    requires t.Valid() && t.parent != t
    modifies t, t.pool, t.db
    ensures t.Valid() && PoolKept(t)
    ensures old(OnParent(t)) ==> Settled(b, faults, old(Look(t)), Look(t), kept, others, error)
    decreases b, 0
  {
    hide Settled, BlockSettled, Stepped, Orderly, Lent;
    ghost var x, onParent := Look(t), OnParent(t);
    kept, others := [], [];
    match b {
      case Return =>
        error := None;
        SettledStop(b, faults, x);
      case Throw(e) =>
        error := Some(e);
        SettledStop(b, faults, x);
      case Write(w, rest) =>
        error := WriteStep(t, w, faults);
        ghost var y, e1 := Look(t), error;
        assert onParent ==> OnParent(t);
        var caught: bool := *;
        if error.None? || caught {
          error, kept, others := RunCallback(rest, t, faults);
          if onParent { SettledWrite(w, rest, faults, x, y, Look(t), e1, kept, others, error); }
          kept := (if e1.None? then [w] else []) + kept;
        } else if onParent {
          SettledFailure(w, rest, faults, x, y, error);
        }
      case Nested(mode, inner, catches, rest) =>
        var called;
        ghost var k1, o1;
        error, called, k1, o1 := NestedBlock(mode, inner, t, faults);
        ghost var y, e1 := Look(t), error;
        assert onParent ==> OnParent(t);
        if error.None? || catches {
          error, kept, others := RunCallback(rest, t, faults);
        }
        if onParent {
          SettledNested(mode, inner, catches, rest, faults, x, y, Look(t), e1, k1, o1, kept, others, error);
        }
        kept, others := k1 + kept, o1 + others;
    }
  }

  /** `sequelize.transaction(options, callback)` while `t` is the current transaction. `called` is what the
      callback ended with, if it was called. */
  method NestedBlock(mode: NestMode, inner: Body, t: Transaction, faults: Faults)
    returns (error: Option<Error>, called: Option<Option<Error>>, ghost kept: seq<Write>, ghost others: seq<Write>)
    requires t.Valid() && t.parent != t
    modifies t, t.pool, t.db
    ensures t.Valid() && PoolKept(t)
    ensures called.Some? && called.value.Some? ==> error == called.value
    ensures error.None? ==> called == Some(None)
    ensures old(OnParent(t)) ==> BlockSettled(mode, inner, faults, old(Look(t)), Look(t), kept, others, error)
    decreases inner, 2
  {
    hide Settled, BlockSettled, SavepointSettled, RootSettled, Orderly, Lent;
    ghost var x, onParent := Look(t), OnParent(t);
    kept, others := [], [];
    if mode != Separate {
      error := HookError(faults);  // `t` may not fit the options of the block
      if error.Some? {
        called := None;
        BlockRefused(mode, inner, faults, x, error);
        return;
      }
    }
    match mode {
      case Reuse =>
        error, kept, others := RunCallback(inner, t, faults);
        called := Some(error);
        if onParent { BlockReused(inner, faults, x, Look(t), kept, others, error); }
      case Savepoint =>
        var child := new Transaction(t.pool, t.db, t, t.id);
        ghost var cx := Look(child);
        error, called, kept, others := SavepointBlock(child, inner, faults);
        assert TagsKept(t.pool) && t.connection == old(t.connection);
        SavepointIsBlock(inner, faults, x, Look(t), cx, Look(child), kept, others, error);
      case Separate =>
        var id: TransactionId := *;
        var root := new Transaction(t.pool, t.db, null, id);
        ghost var rx, k, inside, own := Look(root), [], [], [];
        error, called, k, inside, own := RootBlock(root, inner, faults);
        assert TagsKept(t.pool) && t.connection == old(t.connection);
        SeparateIsBlock(inner, faults, x, Look(t), rx, Look(root), called, k, inside, own, error);
        others := inside + own;
    }
  }

  /** After the callback: roll back if it failed, commit otherwise. */
  method Conclude(t: Transaction, outcome: Option<Error>, faults: Faults) returns (error: Option<Error>)
    requires t.Valid()
    modifies t`finished, t`connection, t.pool, t.db
    ensures t.pool.Valid() && TagsKept(t.pool) && old(t.pool.history) <= t.pool.history
    ensures t.pool.lent == if t.parent == null && old(t.connection).Some?
                           then old(t.pool.lent) - {old(t.connection).value} else old(t.pool.lent)
    ensures outcome.Some? ==> error == outcome && t.db.committed == old(t.db.committed)
    ensures faults == Never && old(Open(Look(t)) && OnParent(t)) ==>
              && error == outcome
              && var c := old(t.connection).value; var s := old(t.db.sessions[t.connection.value]);
                 if t.parent == null then
                   && t.db.sessions == old(t.db.sessions) - {c}
                   && t.db.committed == old(t.db.committed) + if outcome.None? then s.log else []
                 else
                   && t.db.sessions == old(t.db.sessions)[c := if outcome.None? then s else Undo(s, t.name)]
                   && t.db.committed == old(t.db.committed)
    ensures t.parent == null && outcome.Some? && old(t.finished.None? && t.connection.Some?) ==>
              t.db.sessions == old(t.db.sessions) - {old(t.connection).value}
    ensures old(t.finished).Some? ==>
              t.db.sessions == old(t.db.sessions) && t.db.committed == old(t.db.committed) &&
              (outcome.None? ==> error.Some?)
    ensures t.parent == null && old(t.finished.None? && t.connection.Some? && t.connection.value in t.db.sessions) ==>
              var log := old(t.db.sessions[t.connection.value]).log;
              && t.db.sessions == old(t.db.sessions) - {old(t.connection).value}
              && t.db.committed in {old(t.db.committed), old(t.db.committed) + log}
              && (outcome.Some? ==> t.db.committed == old(t.db.committed))
              && (error.None? ==> t.db.committed == old(t.db.committed) + log)
              && (faults == Never && outcome.None? ==> error.None?)
    ensures t.parent != null && faults != AnyFault &&
            old(t.finished.None? && t.connection.Some? && OnParent(t) && t.connection.value in t.db.sessions) ==>
              var c := old(t.connection).value; var s := old(t.db.sessions)[c];
              && error == outcome && t.db.committed == old(t.db.committed)
              && t.db.sessions == old(t.db.sessions)[c := if outcome.None? then s else Undo(s, t.name)]
  {
    hide Orderly, Lent, Undo;
    if outcome.Some? {
      var _ := t.Rollback(faults);  // its own error is ignored
      error := outcome;
    } else {
      error := t.Commit(faults);
    }
  }

  /** A block that manages its own, new root transaction `t`. Whatever fails, the pool gets back every
      connection lent meanwhile, and the error of the callback reaches the caller. */
  method RootBlock(t: Transaction, inner: Body, faults: Faults)
    returns (error: Option<Error>, called: Option<Option<Error>>,
             ghost kept: seq<Write>, ghost inside: seq<Write>, ghost own: seq<Write>)
    requires t.Valid() && t.finished.None? && t.connection.None? && t.savepoints == map[] && t.parent == null
    modifies t, t.pool, t.db
    ensures t.pool.Valid() && TagsKept(t.pool)
    ensures t.pool.lent == old(t.pool.lent) && old(t.pool.history) <= t.pool.history
    ensures called.Some? && called.value.Some? ==> error == called.value
    ensures error.None? ==> called == Some(None)
    ensures RootSettled(inner, faults, old(Look(t)), Look(t), called, kept, inside, own, error)
    decreases inner, 1
  {
    hide Settled, RootSettled, Orderly, Lent;
    ghost var x := Look(t);
    kept, inside, own := [], [], [];
    called := None;
    error := PrepareEnvironment(t, faults);
    if error.Some? {
      RootRefused(inner, faults, x, Look(t), error);
      return;
    }
    ghost var x1 := Look(t);
    error, kept, inside := RunCallback(inner, t, faults);
    called := Some(error);
    ghost var y1, ended := Look(t), error;
    error := Conclude(t, error, faults);
    own := if t.db.committed == y1.committed then [] else kept;
    RootConcludes(inner, faults, x1.connection.value, x, x1, y1, Look(t), kept, inside, own, ended, error);
  }

  /** A savepoint block with its own, new transaction `t`: it never hands a connection back. */
  method SavepointBlock(t: Transaction, inner: Body, faults: Faults)
    returns (error: Option<Error>, called: Option<Option<Error>>, ghost kept: seq<Write>, ghost others: seq<Write>)
    requires t.Valid() && t.finished.None? && t.connection.None? && t.savepoints == map[] && t.parent != t
    requires t.parent != null
    requires t.parent.connection.Some? ==>
               t.parent.connection.value in t.pool.lent && t.parent.connection.value in t.pool.uuid
    modifies t, t.pool, t.db
    ensures t.pool.Valid() && TagsKept(t.pool)
    ensures t.pool.lent == old(t.pool.lent) && old(t.pool.history) <= t.pool.history
    ensures called.Some? && called.value.Some? ==> error == called.value
    ensures error.None? ==> called == Some(None)
    ensures SavepointSettled(inner, faults, t.name, t.parent.connection, old(Look(t)), Look(t), kept, others, error)
    decreases inner, 1
  {
    hide Settled, SavepointSettled, Orderly, Lent, Undo, Establish, NamesBelow;
    ghost var x := Look(t);
    kept, others := [], [];
    called := None;
    error := PrepareEnvironment(t, faults);
    if error.Some? {
      SavepointRefused(inner, faults, t.name, t.parent.connection, x, Look(t), error);
      return;
    }
    ghost var x1, c := Look(t), t.connection.value;
    ghost var k;
    error, k, others := RunCallback(inner, t, faults);
    called := Some(error);
    ghost var y1, ended := Look(t), error;
    error := Conclude(t, error, faults);
    kept := if ended.None? then k else [];
    SavepointEnds(inner, faults, t.name, c, x, x1, y1, Look(t), k, others, ended, error);
  }

  /** `sequelize.transaction(callback)` with no current transaction. Whatever fails, each connection lent
      meanwhile is handed back exactly once, by release or by destruction, and a callback error is returned.
      When nothing but callbacks fails and no failing block has its name used again inside it, exactly the
      writes of the successful blocks are committed. Under contained faults, with one level of savepoints, `kept` are
      the writes that succeeded in blocks that succeeded, `inside` is what separate blocks committed meanwhile, and
      the root commits, as `own`, all it kept or nothing: nothing if its callback failed, all if no error is
      returned. */
  method RunTransaction(pool: Pool, db: Database, b: Body, faults: Faults)
    returns (error: Option<Error>, called: Option<Option<Error>>,
             ghost kept: seq<Write>, ghost inside: seq<Write>, ghost own: seq<Write>)
    requires pool.Valid()
    modifies pool, db
    ensures pool.Valid() && pool.lent == old(pool.lent) && old(pool.history) <= pool.history
    ensures forall c :: Count(pool.history, Acquired(c)) - Count(old(pool.history), Acquired(c)) ==
                        Count(pool.history, Released(c)) - Count(old(pool.history), Released(c)) +
                        Count(pool.history, Destroyed(c)) - Count(old(pool.history), Destroyed(c))
    ensures called.Some? && called.value.Some? ==> error == called.value
    ensures error.None? ==> called == Some(None)
    ensures faults == Never && old(NoStraySession(pool, db)) ==>
              error == Outcome(b) && db.sessions == old(db.sessions) &&
              (NamesSafeNested(Separate, b, 0, true) ==> db.committed == old(db.committed) + RootPromise(b))
    ensures faults != AnyFault && OneLevel(b, false) && old(NoStraySession(pool, db)) ==>
              && db.sessions == old(db.sessions) && db.committed == old(db.committed) + inside + own
              && RootEnds(b, called, kept, inside, own, error)
  {
    hide RootEnds, Possible, OneLevel, Orderly, Lent, Count, RootRun, RootPromise, NamesSafeNested, Outcome;
    ghost var before := pool.history;
    var id: TransactionId := *;
    var root := new Transaction(pool, db, null, id);
    error, called, kept, inside, own := RootBlock(root, b, faults);
    forall c ensures Count(pool.history, Acquired(c)) - Count(before, Acquired(c)) ==
                     Count(pool.history, Released(c)) - Count(before, Released(c)) +
                     Count(pool.history, Destroyed(c)) - Count(before, Destroyed(c)) {
      LoansBalance(before, c);
      LoansBalance(pool.history, c);
    }
    if NamesSafeNested(Separate, b, 0, true) { RootIsAllOrNothing(b); }
  }

  /** A savepoint block that a deadlock hits ends the database transaction of its root, which stays open itself. */
  method DeadlockedSavepoint(root: Transaction)
    requires root.Valid() && root.parent == null && root.finished.None? && root.connection.Some?
    requires root.connection.value in root.db.sessions
    modifies root, root.pool, root.db
    ensures root.Valid() && root.finished.None? && root.connection == old(root.connection)
    ensures root.db.sessions == old(root.db.sessions) - {root.connection.value}
    ensures root.db.committed == old(root.db.committed)
  {
    hide Orderly, Lent, Establish, Undo, NamesBelow, Open;
    var savepoint := new Transaction(root.pool, root.db, root, root.id);
    var error := PrepareEnvironment(savepoint, Never);
    ghost var c, before := root.connection.value, old(root.db.sessions);
    assert savepoint.connection == root.connection && OnParent(savepoint);
    assert root.db.sessions - {c} == before - {c};
    DeadlockHits(savepoint, AnyFault);
    error := Conclude(savepoint, Some(5), Never);
  }

  /** A savepoint of a root is hit by a deadlock; the root catches the error, writes `w` and fails. Whatever the root
      wrote before is lost, and `w` is committed. */
  method SavepointDeadlock(root: Transaction, w: Write)
    requires root.Valid() && root.parent == null && root.finished.None? && root.connection.Some?
    requires root.connection.value in root.db.sessions
    modifies root, root.pool, root.db
    ensures root.db.sessions == old(root.db.sessions) - {old(root.connection).value}
    ensures root.db.committed == old(root.db.committed) + [w]
  {
    hide Orderly, Lent, Stepped;
    DeadlockedSavepoint(root);
    var error := Query(root, w, Never);
    error := Conclude(root, Some(7), Never);
  }

  /** A callback that commits its own root and then throws: the error is returned, and the writes are committed. */
  method CommitThenThrow(root: Transaction) returns (error: Option<Error>)
    requires root.Valid() && root.parent == null && root.finished.None? && root.connection.Some?
    requires root.connection.value in root.db.sessions
    modifies root, root.pool, root.db
    ensures error == Some(7)
    ensures root.db.committed == old(root.db.committed) + old(root.db.sessions[root.connection.value]).log
  {
    hide Orderly, Lent;
    error := root.Commit(Never);
    error := Conclude(root, Some(7), Never);
  }

  /** The first savepoint of a root writes `w` and opens one of its own, which fails to begin. Even if that error is
      caught and everything else succeeds, `w` is lost. */
  method NestedSavepointFails(root: Transaction, w: Write) returns (error: Option<Error>)
    requires root.Valid() && root.parent == null && root.finished.None? && root.connection.Some?
    requires root.connection.value in root.db.sessions && root.savepoints == map[]
    requires NoStraySession(root.pool, root.db)
    modifies root, root.pool, root.db
    ensures error == None
    ensures root.db.committed == old(root.db.committed) + old(root.db.sessions[root.connection.value]).log
  {
    hide Orderly, Lent, Stepped;
    OuterSavepoint(root, w);
    error := Conclude(root, None, Never);
  }

  method OuterSavepoint(root: Transaction, w: Write)
    requires root.Valid() && root.parent == null && root.finished.None? && root.connection.Some?
    requires root.connection.value in root.db.sessions && root.savepoints == map[]
    requires NoStraySession(root.pool, root.db)
    modifies root, root.pool, root.db
    ensures root.Valid() && root.finished.None? && root.connection == old(root.connection)
    ensures root.connection.value in root.db.sessions && root.db.committed == old(root.db.committed)
    ensures root.db.sessions[root.connection.value].log == old(root.db.sessions[root.connection.value]).log
  {
    hide Orderly, Lent, Without, Undo, UpTo;
    ghost var c, s := root.connection.value, root.db.sessions[root.connection.value];
    var outer := new Transaction(root.pool, root.db, root, root.id);
    var error := PrepareEnvironment(outer, Never);
    assert outer.name == 0 && OnParent(outer) && root.db.sessions[c] == Establish(s, 0);
    assert Open(Look(outer));
    error := Query(outer, w, Never);
    ghost var s1 := root.db.sessions[c];
    InnerFails(outer);
    assert s1.marks == Establish(s, 0).marks;
    FirstUndone(s, s1);
    error := Conclude(outer, None, Never);
  }

  /** A savepoint block of `outer` whose SAVEPOINT statement fails. */
  method InnerFails(outer: Transaction)
    requires outer.Valid() && outer.finished.None? && outer.connection.Some? && outer.savepoints == map[]
    requires outer.parent != null && outer.parent != outer && outer.connection.value in outer.db.sessions
    modifies outer, outer.pool, outer.db
    ensures outer.Valid() && outer.finished.None? && outer.connection == old(outer.connection)
    ensures var c := outer.connection.value;
            outer.db.sessions == old(outer.db.sessions)[c := Undo(old(outer.db.sessions)[c], 0)]
    ensures outer.db.committed == old(outer.db.committed) && outer.pool.lent == old(outer.pool.lent)
  {
    hide Orderly, Lent, Undo;
    var inner := new Transaction(outer.pool, outer.db, outer, outer.id);
    var error := Bind(inner, Never);
    error := inner.Rollback(Never);
  }

  lemma FirstUndone(s: Session, s1: Session)
    requires s1.marks == Establish(s, 0).marks
    ensures Undo(s1, 0).log == s.log
  {
    assert Last(s1.marks) == Mark(0, s.log);
  }

  /** A savepoint block writes `w` and fails, and so does its ROLLBACK TO. The root catches the error: `w` is
      committed. */
  method FailedUndo(root: Transaction, w: Write) returns (undone: Option<Error>, error: Option<Error>)
    requires root.Valid() && root.parent == null && root.finished.None? && root.connection.Some?
    requires root.connection.value in root.db.sessions && NoStraySession(root.pool, root.db)
    modifies root, root.pool, root.db
    ensures undone.Some? ==>
              && error == None && root.db.committed ==
              old(root.db.committed) + (old(root.db.sessions[root.connection.value]).log + [w])
  {
    hide Orderly, Lent, Stepped, Undo;
    undone := NotUndone(root, w);
    error := Conclude(root, None, Never);
  }

  method NotUndone(root: Transaction, w: Write) returns (undone: Option<Error>)
    requires root.Valid() && root.parent == null && root.finished.None? && root.connection.Some?
    requires root.connection.value in root.db.sessions && NoStraySession(root.pool, root.db)
    modifies root, root.pool, root.db
    ensures root.Valid() && root.finished.None? && root.connection == old(root.connection)
    ensures root.connection.value in root.db.sessions && root.db.committed == old(root.db.committed)
    ensures undone.Some? ==> root.db.sessions[root.connection.value].log ==
                             old(root.db.sessions[root.connection.value]).log + [w]
  {
    hide Orderly, Lent, Without, Undo;
    ghost var c, s := root.connection.value, root.db.sessions[root.connection.value];
    var savepoint := new Transaction(root.pool, root.db, root, root.id);
    undone := PrepareEnvironment(savepoint, Never);
    assert OnParent(savepoint) && root.db.sessions[c] == Establish(s, savepoint.name) && Open(Look(savepoint));
    undone := Query(savepoint, w, Never);
    assert c in root.db.sessions && root.db.sessions[c].log == s.log + [w];
    undone := savepoint.SendRollback(AnyFault);
  }
}
