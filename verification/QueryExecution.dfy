/** Running a query: which transaction and connection it uses, and what it does to the pool. */
module QueryExecution {
  import opened Common
  import opened Connections
  import opened Transactions

  // ----- setTransactionFromCls -----

  /** The `transaction` option: `undefined` asks for the current one, `null` for none. */
  datatype TransactionOption = Undefined | Null | Given(id: TransactionId)

  datatype Options = Options(transaction: TransactionOption, connection: Option<Connection>)

  datatype OptionError = Mismatch | NotBound

  /** The connections that transactions are bound to. */
  type Bindings = TransactionId -> Option<Connection>

  class QueryOptions {
    var transaction: TransactionOption
    var connection: Option<Connection>

    constructor (o: Options)
      ensures State() == o
    {
      transaction, connection := o.transaction, o.connection;
    }

    function State(): Options
      reads this
    {
      Options(transaction, connection)
    }

    method SetTransactionFromCls(current: Option<TransactionId>, bound: Bindings) returns (error: Option<OptionError>)
      modifies this
      ensures match Resolved(old(State()), current, bound)
              case Ok(o) => error.None? && State() == o
              case Err(e) => error == Some(e) && State() == old(State())
    {
      if transaction.Given? && connection.Some? {
        if bound(transaction.id).None? {
          return Some(NotBound);
        }
        if connection != bound(transaction.id) {
          return Some(Mismatch);
        }
      }
      if transaction == Undefined && connection.None? && current.Some? {
        transaction := Given(current.value);
      }
      if connection.Some? {
        if current.Some? && bound(current.value) == connection {
          transaction := Given(current.value);
        }
      } else if transaction.Given? && bound(transaction.id).Some? {
        connection := bound(transaction.id);
      }
      return None;
    }
  }

  function Resolved(o: Options, current: Option<TransactionId>, bound: Bindings): Result<Options, OptionError> {
    if o.transaction.Given? && o.connection.Some? && bound(o.transaction.id) != o.connection then
      Err(if bound(o.transaction.id).None? then NotBound else Mismatch)
    else if o.connection.Some? then
      if current.Some? && bound(current.value) == o.connection then Ok(o.(transaction := Given(current.value)))
      else Ok(o)
    else
      var t := if o.transaction == Undefined && current.Some? then Given(current.value) else o.transaction;
      Ok(Options(t, if t.Given? then bound(t.id) else None))
  }

  /** Without a connection: `undefined` takes the current transaction, if there is one, `null` stays, and so does a
      given transaction; the connection is the one of the transaction. */
  lemma ChosenWithoutConnection(o: Options, current: Option<TransactionId>, bound: Bindings)
    requires o.connection.None?
    ensures o.transaction == Undefined && current.Some? ==>
              Resolved(o, current, bound) == Ok(Options(Given(current.value), bound(current.value)))
    ensures o.transaction == Null || (o.transaction == Undefined && current.None?) ==>
              Resolved(o, current, bound) == Ok(o)
    ensures forall t :: o.transaction == Given(t) ==>
              Resolved(o, current, bound) == Ok(Options(Given(t), bound(t)))
  {
  }

  /** With a connection `c`: a given transaction has to be bound to it, or the call is refused; then the transaction is
      the current one exactly if that is bound to `c`, and stays what it was otherwise. */
  lemma ChosenWithConnection(o: Options, c: Connection, current: Option<TransactionId>, bound: Bindings)
    requires o.connection == Some(c)
    ensures Resolved(o, current, bound) == Err(NotBound) <==>
            o.transaction.Given? && bound(o.transaction.id) == None
    ensures Resolved(o, current, bound) == Err(Mismatch) <==>
            o.transaction.Given? && bound(o.transaction.id) !in {None, Some(c)}
    ensures Resolved(o, current, bound).Ok? && current.Some? && bound(current.value) == Some(c) ==>
              Resolved(o, current, bound) == Ok(Options(Given(current.value), Some(c)))
    ensures Resolved(o, current, bound).Ok? && (current.None? || bound(current.value) != Some(c)) ==>
              Resolved(o, current, bound) == Ok(Options(o.transaction, Some(c)))
  {
  }

  predicate Consistent(o: Options, bound: Bindings) {
    o.transaction.Given? && o.connection.Some? ==> bound(o.transaction.id) == o.connection
  }

  /** Success gives a transaction and a connection that match, whatever was asked. Applying it again never
      throws and keeps the connection, even when it replaces a root by the savepoint that is current on that
      connection; from then on nothing changes. */
  lemma {:induction false} ResolvingIsStable(o: Options, current: Option<TransactionId>, bound: Bindings)
    ensures Resolved(o, current, bound).Ok? <==> Consistent(o, bound)
    ensures var r := Resolved(o, current, bound);
            r.Ok? ==>
              && Consistent(r.value, bound)
              && (o.connection.Some? ==> r.value.connection == o.connection)
              && var again := Resolved(r.value, current, bound);
                 again.Ok? && again.value.connection == r.value.connection && Consistent(again.value, bound) &&
                 Resolved(again.value, current, bound) == again
  {
  }

  // ----- queryRaw -----

  /** What happens in one attempt, as far as it gets. `beforeHook`: whether the beforeQuery hook commits or rolls back
      the transaction of the query; `afterwards`: the same, for all that happens until the next attempt. */
  datatype Attempt = Attempt(acquireFails: bool, constructorThrows: bool, beforeHook: Option<Finish>,
                             beforeHookThrows: bool, queryFails: bool, afterHookThrows: bool,
                             afterwards: Option<Finish>, retryable: bool)

  /** Whether an attempt without a transaction acquires a connection; `pooled`: it is not given one. */
  predicate Acquires(pooled: bool, a: Attempt) {
    pooled && !a.acquireFails
  }

  /** Whether it keeps the connection it acquires. */
  predicate Leaks(pooled: bool, a: Attempt) {
    Acquires(pooled, a) && (a.constructorThrows || a.afterHookThrows)
  }

  predicate Succeeds(pooled: bool, a: Attempt) {
    !(pooled && a.acquireFails) && !a.constructorThrows && !a.beforeHookThrows && !a.queryFails && !a.afterHookThrows
  }

  /** What may have become of a transaction meanwhile, and of the pool because of it: if it was finished before,
      nothing; else it may have been finished, and then a root has handed its connection back, once. */
  twostate predicate OnlyFinished(t: Transaction, pool: Pool)
    reads t, pool
  {
    && (old(t.finished).Some? ==> t.finished == old(t.finished))
    && if t.connection == old(t.connection) then pool.lent == old(pool.lent) && pool.history == old(pool.history)
       else
         && old(t.finished).None? && t.finished.Some? && old(t.connection).Some? && t.connection.None?
         && pool.lent == old(pool.lent) - {old(t.connection).value}
         && (pool.history == old(pool.history) + [Released(old(t.connection).value)] ||
             pool.history == old(pool.history) + [Destroyed(old(t.connection).value)])
  }

  /** What the checks of a query see of its transaction. */
  datatype Phase = Phase(bound: bool, finished: bool)

  function PhaseOf(t: Transaction): Phase
    reads t
  {
    Phase(t.connection.Some?, t.finished.Some?)
  }

  /** The phase after `commit()` or `rollback()`, if `how` says so: both finish the transaction, but a rollback of one
      that was never bound is refused; a root hands its connection back. */
  function Finishing(p: Phase, isRoot: bool, how: Option<Finish>): Phase {
    if how.None? || p.finished || (how == Some(RolledBack) && !p.bound) then p else Phase(p.bound && !isRoot, true)
  }

  /** Somebody commits the transaction, or rolls it back, or does not. */
  method FinishStep(t: Transaction, how: Option<Finish>)
    requires t.Valid()
    modifies t`finished, t`connection, t.pool, t.db
    ensures t.Valid() && OnlyFinished(t, t.pool)
    ensures how.None? ==> t.finished == old(t.finished) && t.connection == old(t.connection)
    ensures PhaseOf(t) == Finishing(old(PhaseOf(t)), t.parent == null, how)
  {
    hide Lent, Orderly;
    match how {
      case None =>
      case Some(Committed) => var _ := t.Commit(AnyFault);
      case Some(RolledBack) => var _ := t.Rollback(AnyFault);
    }
  }

  /** One attempt in a transaction. The statement is sent if the transaction is bound and not finished, neither at
      first nor after the beforeQuery hook, or if the statement is the one that completes it. `late`: it was sent
      on a finished transaction. */
  method TryWithin(t: Transaction, completes: bool, a: Attempt) returns (ok: bool, sent: bool, late: bool)
    requires t.Valid()
    modifies t`finished, t`connection, t.pool, t.db
    ensures t.Valid() && OnlyFinished(t, t.pool)
    ensures sent <==> && old(t.connection).Some? && !a.constructorThrows && !a.beforeHookThrows
                      && (completes || (old(t.finished).None? && a.beforeHook.None?))
    ensures ok <==> sent && !a.queryFails && !a.afterHookThrows
    ensures PhaseOf(t) == if (old(t.finished).Some? && !completes) || old(t.connection).None? || a.constructorThrows
                          then old(PhaseOf(t)) else Finishing(old(PhaseOf(t)), t.parent == null, a.beforeHook)
    ensures late <==> sent && (old(t.finished).Some? || a.beforeHook.Some?)
  {
    ok, sent, late := false, false, false;
    if t.finished.Some? && !completes {
      return;
    }
    if t.connection.None? || a.constructorThrows {
      return;
    }
    FinishStep(t, a.beforeHook);
    if !a.beforeHookThrows && (t.finished.None? || completes) {
      sent, late := true, t.finished.Some?;
      ok := !a.queryFails;
    }
    // finally
    if a.afterHookThrows { ok := false; }
  }

  /** One attempt without a transaction, on a connection that is given or acquired. */
  method TryOnce(pool: Pool, pooled: bool, a: Attempt) returns (ok: bool)
    requires pool.Valid()
    modifies pool
    ensures pool.Valid() && ok == Succeeds(pooled, a)
    ensures ok <==> && (pooled ==> !a.acquireFails) && !a.constructorThrows && !a.beforeHookThrows && !a.queryFails
                    && !a.afterHookThrows
    ensures !pooled ==> pool.history == old(pool.history)
    ensures !Leaks(pooled, a) ==> pool.lent == old(pool.lent)
    ensures Leaks(pooled, a) ==> old(pool.lent) <= pool.lent && |pool.lent| == |old(pool.lent)| + 1
    ensures pool.lent != old(pool.lent) <==>
            pooled && !a.acquireFails && (a.constructorThrows || a.afterHookThrows)
    ensures |pool.history| == |old(pool.history)| +
                              (if pooled && !a.acquireFails then 2 else 0)
                              - if pooled && !a.acquireFails && (a.constructorThrows || a.afterHookThrows) then 1 else 0
  {
    hide Lent, Orderly;
    var connection: Connection := 0;
    if pooled {
      if a.acquireFails {
        return false;
      }
      connection := pool.Acquire();
    }
    if a.constructorThrows {
      return false;
    }
    ok := !a.beforeHookThrows && !a.queryFails;
    // finally
    if a.afterHookThrows {
      return false;
    }
    if pooled {
      pool.Release(connection);
    }
  }

  /** The attempts that are made without a transaction: up to the first that succeeds or must not be retried. */
  function Made(pooled: bool, attempts: seq<Attempt>): (made: seq<Attempt>)
    ensures made <= attempts && (attempts != [] ==> made != [])
  {
    if attempts == [] then []
    else if Succeeds(pooled, attempts[0]) || !attempts[0].retryable then [attempts[0]]
    else [attempts[0]] + Made(pooled, attempts[1..])
  }

  /** All attempts made but the last one have failed and may be retried; the last one succeeds, or must not be retried,
      or is the last there is. */
  lemma {:induction false} MadeUpToTheEnd(pooled: bool, attempts: seq<Attempt>)
    requires attempts != []
    ensures var made := Made(pooled, attempts);
            && made != [] && made <= attempts
            && (forall k :: 0 <= k < |made| - 1 ==> !Succeeds(pooled, made[k]) && made[k].retryable)
            && (|made| < |attempts| ==> Succeeds(pooled, Last(made)) || !Last(made).retryable)
  {
    if |attempts| > 1 { MadeUpToTheEnd(pooled, attempts[1..]); }
  }

  function CountAcquired(pooled: bool, attempts: seq<Attempt>): nat {
    if attempts == [] then 0
    else (if Acquires(pooled, attempts[0]) then 1 else 0) + CountAcquired(pooled, attempts[1..])
  }

  function CountLeaks(pooled: bool, attempts: seq<Attempt>): nat {
    if attempts == [] then 0
    else (if Leaks(pooled, attempts[0]) then 1 else 0) + CountLeaks(pooled, attempts[1..])
  }

  lemma {:induction false} NoLeaksMeansNone(pooled: bool, attempts: seq<Attempt>)
    ensures CountLeaks(pooled, attempts) == 0 <==> forall a :: a in attempts ==> !Leaks(pooled, a)
  {
    if attempts != [] {
      NoLeaksMeansNone(pooled, attempts[1..]);
      assert forall a :: a in attempts <==> a == attempts[0] || a in attempts[1..];
    }
  }

  lemma MadeMeaning(pooled: bool, attempts: seq<Attempt>)
    requires attempts != []
    ensures var made, a := Made(pooled, attempts), attempts[0];
            var rest := if Succeeds(pooled, a) || !a.retryable then [] else Made(pooled, attempts[1..]);
            && made == [a] + rest && (attempts[1..] == [] ==> rest == [])
            && CountLeaks(pooled, made) == (if Leaks(pooled, a) then 1 else 0) + CountLeaks(pooled, rest)
            && CountLeaks(pooled, []) == 0 && CountAcquired(pooled, []) == 0
            && CountAcquired(pooled, made) == (if Acquires(pooled, a) then 1 else 0) + CountAcquired(pooled, rest)
  {
  }

  /** A query without a transaction, with its retries. The pool has lost one connection for each attempt made that
      acquired one and saw the query constructor or an afterQuery hook throw, and is as it was if and only if there
      is none; with a connection given, it is not touched. */
  method QueryRaw(pool: Pool, pooled: bool, attempts: seq<Attempt>) returns (ok: bool)
    requires pool.Valid() && attempts != []
    modifies pool
    ensures pool.Valid() && (ok <==> Succeeds(pooled, Last(Made(pooled, attempts))))
    ensures !pooled ==> pool.history == old(pool.history)
    ensures old(pool.lent) <= pool.lent
    ensures |pool.lent| == |old(pool.lent)| + CountLeaks(pooled, Made(pooled, attempts))
    ensures pool.lent == old(pool.lent) <==> forall a :: a in Made(pooled, attempts) ==> !Leaks(pooled, a)
    ensures |pool.history| == |old(pool.history)| + 2 * CountAcquired(pooled, Made(pooled, attempts))
                              - CountLeaks(pooled, Made(pooled, attempts))
  {
    hide Lent, Orderly, Succeeds, Made, CountLeaks, CountAcquired;
    MadeMeaning(pooled, attempts);
    NoLeaksMeansNone(pooled, Made(pooled, attempts));
    ok := TryOnce(pool, pooled, attempts[0]);
    if !ok && attempts[0].retryable && |attempts| > 1 {
      ghost var rest := Made(pooled, attempts[1..]);
      assert Last([attempts[0]] + rest) == Last(rest);
      NoLeaksMeansNone(pooled, rest);
      ok := QueryRaw(pool, pooled, attempts[1..]);
    }
  }

  /** One attempt, as made: `before` is the transaction when it begins. */
  datatype Try = Try(before: Phase, ok: bool, sent: bool, late: bool)

  function CountSent(tries: seq<Try>): nat {
    if tries == [] then 0 else CountSent(tries[..|tries| - 1]) + if Last(tries).sent then 1 else 0
  }

  predicate AnyLate(tries: seq<Try>) {
    tries != [] && (Last(tries).late || AnyLate(tries[..|tries| - 1]))
  }

  /** What one attempt comes to when the transaction is as `before` says. */
  predicate IsAttempt(r: Try, a: Attempt, completes: bool) {
    && (r.sent <==> && r.before.bound && !a.constructorThrows && !a.beforeHookThrows
                    && (completes || (!r.before.finished && a.beforeHook.None?)))
    && (r.ok <==> r.sent && !a.queryFails && !a.afterHookThrows)
    && (r.late <==> r.sent && (r.before.finished || a.beforeHook.Some?))
  }

  /** What becomes of the transaction between an attempt and the next. */
  function NextPhase(p: Phase, isRoot: bool, completes: bool, a: Attempt): Phase {
    var hooked := if (p.finished && !completes) || !p.bound || a.constructorThrows then p
                  else Finishing(p, isRoot, a.beforeHook);
    Finishing(hooked, isRoot, a.afterwards)
  }

  /** How the transaction is after the last of the tries. */
  function PhaseAfter(tries: seq<Try>, start: Phase, isRoot: bool, completes: bool, attempts: seq<Attempt>): Phase
    requires |tries| <= |attempts|
  {
    if tries == [] then start else NextPhase(Last(tries).before, isRoot, completes, attempts[|tries| - 1])
  }

  /** The tries follow each other, from a transaction that was as `start` says; all but the last one have failed and
      may be retried. */
  predicate Traced(tries: seq<Try>, start: Phase, isRoot: bool, completes: bool, attempts: seq<Attempt>) {
    tries == [] ||
    (var past, n := tries[..|tries| - 1], |tries| - 1;
     && n < |attempts| && Traced(past, start, isRoot, completes, attempts)
     && Last(tries).before == PhaseAfter(past, start, isRoot, completes, attempts)
     && IsAttempt(Last(tries), attempts[n], completes)
     && (past != [] ==> !Last(past).ok && attempts[n - 1].retryable))
  }

  lemma OneMoreTry(tries: seq<Try>, r: Try, start: Phase, isRoot: bool, completes: bool, attempts: seq<Attempt>)
    requires Traced(tries, start, isRoot, completes, attempts) && |tries| < |attempts|
    requires tries != [] ==> !Last(tries).ok && attempts[|tries| - 1].retryable
    requires r.before == PhaseAfter(tries, start, isRoot, completes, attempts)
    requires IsAttempt(r, attempts[|tries|], completes)
    ensures Traced(tries + [r], start, isRoot, completes, attempts) && Last(tries + [r]) == r
    ensures CountSent(tries + [r]) == CountSent(tries) + if r.sent then 1 else 0
    ensures AnyLate(tries + [r]) <==> r.late || AnyLate(tries)
    ensures PhaseAfter(tries + [r], start, isRoot, completes, attempts) ==
            NextPhase(r.before, isRoot, completes, attempts[|tries|])
  {
    hide IsAttempt, NextPhase;
    assert (tries + [r])[..|tries|] == tries;
  }

  /** All tries but the last one have failed and may be retried. */
  lemma {:induction false} NoneAfterSuccess(tries: seq<Try>, start: Phase, isRoot: bool, completes: bool,
                                            attempts: seq<Attempt>, k: nat)
    requires Traced(tries, start, isRoot, completes, attempts) && k + 1 < |tries|
    ensures !tries[k].ok && k < |attempts| && attempts[k].retryable
    decreases |tries|
  {
    var past := tries[..|tries| - 1];
    if k + 1 < |past| { NoneAfterSuccess(past, start, isRoot, completes, attempts, k); }
  }

  /** An attempt, and what happens until the next one, if there is one. */
  method TryAndWait(t: Transaction, completes: bool, a: Attempt) returns (r: Try)
    requires t.Valid()
    modifies t`finished, t`connection, t.pool, t.db
    ensures t.Valid() && OnlyFinished(t, t.pool)
    ensures r.before == old(PhaseOf(t)) && IsAttempt(r, a, completes)
    ensures !r.ok && a.retryable ==> PhaseOf(t) == NextPhase(r.before, t.parent == null, completes, a)
    ensures r.late ==> completes
    ensures old(t.finished).Some? ==> t.finished.Some? && (r.sent ==> completes)
  {
    hide Orderly, Lent;
    var before, ok, sent, late := PhaseOf(t), false, false, false;
    ok, sent, late := TryWithin(t, completes, a);
    r := Try(before, ok, sent, late);
    if !ok && a.retryable { FinishStep(t, a.afterwards); }
  }

  /** A query in a transaction, with its retries, while hooks and others may finish the transaction at any time. The
      attempts made are the first ones up to one that succeeds or must not be retried, and nothing is sent after a
      success. Over all retries no statement is sent on a finished transaction unless it completes it; on one that was
      finished before, nothing is sent at all; and the query itself never touches the pool. */
  method QueryRawWithin(t: Transaction, completes: bool, attempts: seq<Attempt>)
    returns (ok: bool, sent: nat, late: bool, tries: seq<Try>)
    requires t.Valid()
    modifies t`finished, t`connection, t.pool, t.db
    ensures t.Valid() && OnlyFinished(t, t.pool)
    ensures Traced(tries, old(PhaseOf(t)), t.parent == null, completes, attempts)
    ensures attempts != [] ==> tries != []
    ensures 0 < |tries| < |attempts| ==> Last(tries).ok || !attempts[|tries| - 1].retryable
    ensures ok <==> tries != [] && Last(tries).ok
    ensures sent == CountSent(tries)
    ensures late <==> AnyLate(tries)
    ensures late ==> completes
    ensures old(t.finished).Some? && !completes ==> sent == 0
    ensures ok ==> sent > 0
  {
    hide Orderly, Lent;
    ghost var start := PhaseOf(t);
    ok, sent, late, tries := false, 0, false, [];
    assert Traced(tries, start, t.parent == null, completes, attempts);
    assert PhaseAfter(tries, start, t.parent == null, completes, attempts) == start && CountSent(tries) == 0;
    assert !AnyLate(tries);
    hide Traced, PhaseAfter, CountSent, AnyLate, NextPhase;
    for k := 0 to |attempts|
      invariant t.Valid() && OnlyFinished(t, t.pool) && !ok && |tries| == k
      invariant Traced(tries, start, t.parent == null, completes, attempts)
      invariant tries != [] ==> !Last(tries).ok && attempts[k - 1].retryable
      invariant PhaseOf(t) == PhaseAfter(tries, start, t.parent == null, completes, attempts)
      invariant sent == CountSent(tries) && (late <==> AnyLate(tries))
      invariant late ==> completes
      invariant old(t.finished).Some? && !completes ==> sent == 0
    {
      var r := TryAndWait(t, completes, attempts[k]);
      OneMoreTry(tries, r, start, t.parent == null, completes, attempts);
      tries := tries + [r];
      ok, sent, late := r.ok, sent + if r.sent then 1 else 0, late || r.late;
      if ok || !attempts[k].retryable {
        return;
      }
    }
  }

  /** A query whose afterQuery hook throws: its connection is never released. */
  method LeakingQuery() returns (pool: Pool)
    ensures fresh(pool) && pool.Valid() && |pool.lent| == 1
  {
    pool := new Pool();
    var a := Attempt(false, false, None, false, false, true, None, false);
    assert Made(true, [a]) == [a];
    var _ := QueryRaw(pool, true, [a]);
    assert CountLeaks(true, [a]) == 1;
  }
}
