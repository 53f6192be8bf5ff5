/** The connection pool and the database, as far as transactions see them. */
module Connections {
  import opened Common
  import opened Sessions

  type Connection = nat
  type TransactionId = nat

  datatype PoolEvent =
    | Acquired(connection: Connection)
    | Released(connection: Connection)
    | Destroyed(connection: Connection)

  /** The connections that a history leaves checked out. */
  function Lent(history: seq<PoolEvent>): set<Connection> {
    if history == [] then {}
    else
      var before := Lent(history[..|history| - 1]);
      match Last(history)
      case Acquired(c) => before + {c}
      case Released(c) => before - {c}
      case Destroyed(c) => before - {c}
  }

  /** Nothing is lent twice, and only a lent connection is handed back. */
  predicate Orderly(history: seq<PoolEvent>) {
    history == [] ||
    (var past := history[..|history| - 1];
     Orderly(past) && (Last(history).Acquired? <==> Last(history).connection !in Lent(past)))
  }

  function Count(history: seq<PoolEvent>, e: PoolEvent): nat {
    if history == [] then 0
    else Count(history[..|history| - 1], e) + if Last(history) == e then 1 else 0
  }

  /** Every loan of an orderly history is either still out or handed back in exactly one way. */
  lemma {:induction false} LoansBalance(history: seq<PoolEvent>, c: Connection)
    requires Orderly(history)
    ensures Count(history, Acquired(c)) ==
            Count(history, Released(c)) + Count(history, Destroyed(c)) + if c in Lent(history) then 1 else 0
  {
    if history != [] { LoansBalance(history[..|history| - 1], c); }
  }

  class Pool {
    var idle: set<Connection>
    var lent: set<Connection>
    /** The `uuid` field of the connections that have one. */
    var uuid: map<Connection, TransactionId>
    var history: seq<PoolEvent>

    ghost predicate Valid()
      reads this
    {
      idle !! lent && Orderly(history) && lent == Lent(history)
    }

    constructor ()
      ensures Valid() && lent == {} && history == []
    {
      idle, lent, uuid, history := {}, {}, map[], [];
    }

    /** Lends an idle connection, or opens one. */
    method Acquire() returns (c: Connection)
      requires Valid()
      modifies `idle, `lent, `history
      ensures Valid() && c !in old(lent)
      ensures lent == old(lent) + {c} && idle == old(idle) - {c}
      ensures history == old(history) + [Acquired(c)]
    {
      if idle != {} {
        c :| c in idle;
      } else {
        c := Unused(lent);
      }
      idle, lent, history := idle - {c}, lent + {c}, history + [Acquired(c)];
      assert history[..|history| - 1] == old(history);
    }

    method Release(c: Connection)
      requires Valid() && c in lent
      modifies `idle, `lent, `history
      ensures Valid() && lent == old(lent) - {c} && idle == old(idle) + {c}
      ensures history == old(history) + [Released(c)]
    {
      idle, lent, history := idle + {c}, lent - {c}, history + [Released(c)];
      assert history[..|history| - 1] == old(history);
    }

    method Destroy(c: Connection)
      requires Valid() && c in lent
      modifies `lent, `history
      ensures Valid() && lent == old(lent) - {c} && history == old(history) + [Destroyed(c)]
    {
      lent, history := lent - {c}, history + [Destroyed(c)];
      assert history[..|history| - 1] == old(history);
    }
  }

  method Unused(used: set<Connection>) returns (c: Connection)
    ensures c !in used
  {
    c := 0;
    var left := used;
    while c in used
      invariant left <= used && forall x :: x in used && c <= x ==> x in left
      decreases left
    {
      left := left - {c};
      c := c + 1;
    }
  }

  /** Committed writes, and the open transaction of each connection that has one. */
  class Database {
    var committed: seq<Write>
    var sessions: map<Connection, Session>

    constructor ()
      ensures committed == [] && sessions == map[]
    {
      committed, sessions := [], map[];
    }

    method Commit(c: Connection)
      requires c in sessions
      modifies this
      ensures committed == old(committed) + old(sessions[c]).log && sessions == old(sessions) - {c}
    {
      committed, sessions := committed + sessions[c].log, sessions - {c};
    }
  }
}
