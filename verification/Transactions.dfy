/** The Transaction object, run against the pool and the database. */
module Transactions {
  import opened Common
  import opened Sessions
  import opened Connections
  import opened Blocks

  datatype Finish = Committed | RolledBack

  /** What may fail. `Contained`: any acquisition, query, hook or COMMIT, a deadlock included, but no ROLLBACK TO
      SAVEPOINT, no deadlock inside a savepoint, and no callback finishes its own transaction. */
  datatype Faults = Never | Contained | AnyFault

  const ALREADY_FINISHED: Error := -1
  const NEVER_STARTED: Error := -2
  const NOT_BOUND: Error := -3

  class Transaction {
    const pool: Pool
    const db: Database
    const parent: Transaction?
    const id: TransactionId
    /** The number its parent had given out when this savepoint was created; 0 for a root. */
    const name: nat
    var finished: Option<Finish>
    var connection: Option<Connection>
    var savepoints: map<nat, Transaction>

    /** Sibling savepoints are named 0, 1, 2, ... and none is ever forgotten. */
    ghost predicate Numbered()
      reads this
    {
      forall k :: k in savepoints <==> 0 <= k < |savepoints|
    }

    /** Holds whenever no method of this transaction is running. */
    ghost predicate Valid()
      reads this, pool
    {
      && pool.Valid()
      && Numbered()
      && (connection.Some? ==> connection.value in pool.lent && connection.value in pool.uuid)
      && (parent == null && finished.Some? ==> connection.None?)
    }

    constructor (pool: Pool, db: Database, parent: Transaction?, id: TransactionId)
      requires parent != null ==> parent.Numbered() && parent.id == id
      modifies parent
      ensures this.pool == pool && this.db == db && this.parent == parent && this.id == id
      ensures finished.None? && connection.None? && savepoints == map[]
      ensures parent != null ==>
                && parent.Numbered() && name == old(|parent.savepoints|)
                && parent.savepoints == old(parent.savepoints)[name := this]
                && |parent.savepoints| == name + 1
                && parent.finished == old(parent.finished) && parent.connection == old(parent.connection)
    {
      this.pool, this.db, this.parent, this.id := pool, db, parent, id;
      this.name := if parent == null then 0 else |parent.savepoints|;
      finished, connection, savepoints := None, None, map[];
      new;
      if parent != null {
        parent.savepoints := parent.savepoints[name := this];
      }
    }

    method Cleanup()
      requires pool.Valid() && (parent == null && connection.Some? ==> connection.value in pool.lent)
      modifies this`connection, pool
      ensures pool.Valid()
      ensures var handsBack := parent == null && old(connection.Some? && connection.value in pool.uuid);
              if handsBack then
                && connection.None? && pool.lent == old(pool.lent) - {old(connection).value}
                && pool.uuid == old(pool.uuid) - {old(connection).value}
                && pool.history == old(pool.history) + [Released(old(connection).value)]
              else
                && connection == old(connection) && pool.lent == old(pool.lent)
                && pool.uuid == old(pool.uuid) && pool.history == old(pool.history)
    {
      if parent != null || connection.None? || connection.value !in pool.uuid {
        return;
      }
      pool.Release(connection.value);
      pool.uuid := pool.uuid - {connection.value};
      connection := None;
    }

    method ForceCleanup()
      requires pool.Valid() && (parent == null && connection.Some? ==> connection.value in pool.lent)
      modifies this`connection, pool, db
      ensures pool.Valid() && db.committed == old(db.committed)
      ensures var handsBack := parent == null && old(connection.Some? && connection.value in pool.uuid);
              if handsBack then
                && connection.None? && pool.lent == old(pool.lent) - {old(connection).value}
                && pool.uuid == old(pool.uuid) - {old(connection).value}
                && pool.history == old(pool.history) + [Destroyed(old(connection).value)]
                && db.sessions == old(db.sessions) - {old(connection).value}
              else
                && connection == old(connection) && pool.lent == old(pool.lent)
                && pool.uuid == old(pool.uuid) && pool.history == old(pool.history)
                && db.sessions == old(db.sessions)
    {
      if parent != null || connection.None? || connection.value !in pool.uuid {
        return;
      }
      var c := connection.value;
      pool.uuid := pool.uuid - {c};
      connection := None;
      pool.Destroy(c);
      db.sessions := db.sessions - {c};
    }

    /** The connection after `commit` or `rollback` got past its guard. */
    twostate predicate HandedBack(failed: bool)
      reads this, pool
    {
      if parent == null && old(connection).Some? then
        && connection.None? && pool.lent == old(pool.lent) - {old(connection).value}
        && pool.uuid == old(pool.uuid) - {old(connection).value}
        && pool.history == old(pool.history) +
           [if failed then Destroyed(old(connection).value) else Released(old(connection).value)]
      else
        && connection == old(connection) && pool.lent == old(pool.lent)
        && pool.uuid == old(pool.uuid) && pool.history == old(pool.history)
    }

    /** A root hands its connection back here, one way or the other, unless it was finished before. */
    method Finalize(how: Finish, failed: bool)
      requires pool.Valid() && finished == Some(how)
      requires connection.Some? ==> connection.value in pool.lent && connection.value in pool.uuid
      modifies this`connection, pool, db
      ensures pool.Valid() && db.committed == old(db.committed)
      ensures db.sessions == if failed && parent == null && old(connection).Some?
                             then old(db.sessions) - {old(connection).value} else old(db.sessions)
      ensures HandedBack(failed)
    {
      if failed { ForceCleanup(); } else { Cleanup(); }
    }

    /** COMMIT. A failing one may still have reached the server. */
    method SendCommit(faults: Faults) returns (error: Option<Error>)
      modifies db
      ensures connection.Some? && connection.value in old(db.sessions) ==>
                || (error.Some? && db.sessions == old(db.sessions) && db.committed == old(db.committed))
                || (db.sessions == old(db.sessions) - {connection.value} &&
                    db.committed == old(db.committed) + old(db.sessions)[connection.value].log)
      ensures connection.Some? && faults == Never ==> error.None?
    {
      error := QueryError(connection, faults);
      var reached: bool := *;
      if connection.Some? && connection.value in db.sessions && (error.None? || reached) {
        db.Commit(connection.value);
      }
    }

    method Commit(faults: Faults) returns (error: Option<Error>)
      requires Valid()
      modifies this`finished, this`connection, pool, db
      ensures Valid() && finished.Some?
      ensures old(finished).Some? ==>
                && error == Some(ALREADY_FINISHED) && finished == old(finished) && connection == old(connection)
                && pool.lent == old(pool.lent) && pool.uuid == old(pool.uuid) && pool.history == old(pool.history)
                && db.sessions == old(db.sessions) && db.committed == old(db.committed)
      ensures old(finished).None? ==> finished == Some(Committed) && HandedBack(error.Some?)
      ensures old(finished).None? && parent != null ==>
                error.None? && db.sessions == old(db.sessions) && db.committed == old(db.committed)
      ensures parent == null && old(finished.None? && connection.Some? && connection.value in db.sessions) ==>
                && db.sessions == old(db.sessions) - {old(connection).value}
                && db.committed in {old(db.committed), old(db.committed) + old(db.sessions[connection.value]).log}
                && (error.None? ==> db.committed == old(db.committed) + old(db.sessions[connection.value]).log)
                && (faults == Never ==> error.None?)
    {
      if finished.Some? {
        return Some(ALREADY_FINISHED);
      }
      finished := Some(Committed);
      if parent != null {
        return None;
      }
      hide Orderly, Lent;
      error := SendCommit(faults);
      if error.None? { error := HookError(faults); }
      Finalize(Committed, error.Some?);
    }

    /** ROLLBACK, or ROLLBACK TO SAVEPOINT on the parent's connection. */
    method SendRollback(faults: Faults) returns (error: Option<Error>)
      requires connection.Some?
      modifies db`sessions
      ensures var c := if parent == null then connection else parent.connection;
              && (c.None? ==> error == Some(NOT_BOUND))
              && (error.Some? ==> db.sessions == old(db.sessions))
              && (error.None? ==> db.sessions == RolledBackTo(old(db.sessions), c.value, parent == null, name))
              && (c.Some? && (faults == Never || (faults == Contained && parent != null)) ==> error.None?)
    {
      var c := if parent == null then connection else parent.connection;
      error := QueryError(c, if parent != null && faults == Contained then Never else faults);
      if error.None? {
        db.sessions := RolledBackTo(db.sessions, c.value, parent == null, name);
      }
    }

    method Rollback(faults: Faults) returns (error: Option<Error>)
      requires Valid()
      modifies this`finished, this`connection, pool, db
      ensures Valid() && db.committed == old(db.committed)
      ensures old(finished).Some? ==>
                && error == Some(ALREADY_FINISHED) && finished == old(finished) && connection == old(connection)
                && pool.lent == old(pool.lent) && pool.uuid == old(pool.uuid) && pool.history == old(pool.history)
                && db.sessions == old(db.sessions)
      ensures old(finished.None? && connection.None?) ==> error == Some(NEVER_STARTED) && finished.None?
      ensures old(finished.None? && connection.Some?) ==> finished == Some(RolledBack)
      ensures old(finished).None? ==> HandedBack(error.Some?)
      ensures parent == null && old(finished.None? && connection.Some?) ==>
                db.sessions == old(db.sessions) - {old(connection).value} && (faults == Never ==> error.None?)
      ensures parent != null && old(finished.None? && connection.Some?) && parent.connection == old(connection) ==>
                && (old(connection).value !in old(db.sessions) ==> db.sessions == old(db.sessions))
                && (faults != AnyFault && old(connection).value in old(db.sessions) ==>
                      db.sessions == old(db.sessions)[old(connection).value :=
                                       Undo(old(db.sessions)[old(connection).value], name)])
                && (faults == Never ==> error.None?)
    {
      if finished.Some? {
        return Some(ALREADY_FINISHED);
      }
      if connection.None? {
        return Some(NEVER_STARTED);
      }
      hide Orderly, Lent, Undo;
      finished := Some(RolledBack);
      error := SendRollback(faults);
      if error.None? { error := HookError(faults); }
      Finalize(RolledBack, error.Some?);
    }
  }

  function RolledBackTo(sessions: map<Connection, Session>, c: Connection, isRoot: bool, name: nat):
      map<Connection, Session> {
    if isRoot then sessions - {c}
    else if c in sessions then sessions[c := Undo(sessions[c], name)]
    else sessions
  }

  /** A query needs a bound connection, and may fail. */
  method QueryError(c: Option<Connection>, faults: Faults) returns (error: Option<Error>)
    ensures c.None? ==> error == Some(NOT_BOUND)
    ensures faults == Never && c.Some? ==> error.None?
  {
    if c.None? {
      return Some(NOT_BOUND);
    }
    error := HookError(faults);
  }

  method HookError(faults: Faults) returns (error: Option<Error>)
    ensures faults == Never ==> error.None?
  {
    error := None;
    if faults != Never { error := *; }
  }
}
