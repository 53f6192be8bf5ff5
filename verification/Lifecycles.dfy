/** Any number of root transactions and their savepoints on one pool, interleaved at their await points: `commit`
    and `rollback` may be called on any of them at any time, by anyone. */
module Lifecycles {
  import opened Common
  import opened Connections
  import opened Transactions

  /** `completing`: a COMMIT, ROLLBACK or hook is being awaited. `early`: its
      commit was over before its connection came. */
  datatype Root = Root(finished: Option<Finish>, connection: Option<Connection>, acquired: bool,
                       completing: bool, early: bool)

  type SavepointId = nat

  /** `parent`: the savepoint it was opened in, if not in the root directly. */
  datatype Inner = Inner(root: TransactionId, parent: Option<SavepointId>, connection: Option<Connection>,
                         finished: bool)

  /** `dying`: connections whose destruction is being awaited. */
  datatype State = State(roots: map<TransactionId, Root>, savepoints: map<SavepointId, Inner>,
                         uuid: map<Connection, TransactionId>, dying: set<Connection>, history: seq<PoolEvent>)

  datatype Step =
    | New(id: TransactionId)
    | Acquire(id: TransactionId, c: Connection)
    | CallCommit(id: TransactionId)
    | CallRollback(id: TransactionId)
    | Complete(id: TransactionId, failed: bool)
    | DestroyDone(c: Connection)
    | NewSavepoint(sp: SavepointId, root: TransactionId, parent: Option<SavepointId>)
    | Prepare(sp: SavepointId)
    | FinishSavepoint(sp: SavepointId)

  const EMPTY := State(map[], map[], map[], {}, [])

  predicate Enabled(s: State, step: Step) {
    match step
    case New(id) => id !in s.roots
    case Acquire(id, c) => id in s.roots && !s.roots[id].acquired && c !in Lent(s.history)
    case CallCommit(id) => id in s.roots
    case CallRollback(id) => id in s.roots
    case Complete(id, _) => id in s.roots && s.roots[id].completing
    case DestroyDone(c) => c in s.dying
    case NewSavepoint(sp, root, parent) =>
      sp !in s.savepoints && root in s.roots &&
      (parent.Some? ==> parent.value in s.savepoints && s.savepoints[parent.value].root == root)
    case Prepare(sp) =>
      sp in s.savepoints && s.savepoints[sp].root in s.roots &&
      (s.savepoints[sp].parent.Some? ==> s.savepoints[sp].parent.value in s.savepoints)
    case FinishSavepoint(sp) => sp in s.savepoints
  }

  /** The connection of the transaction that a savepoint was opened in. */
  function ParentConnection(s: State, i: Inner): Option<Connection>
    requires i.root in s.roots && (i.parent.Some? ==> i.parent.value in s.savepoints)
  {
    if i.parent.Some? then s.savepoints[i.parent.value].connection else s.roots[i.root].connection
  }

  function Next(s: State, step: Step): State
    requires Enabled(s, step)
  {
    match step
    case New(id) => s.(roots := s.roots[id := Root(None, None, false, false, false)])
    case Acquire(id, c) =>
      var r := s.roots[id];
      var early := r.finished.Some? && !r.completing;
      s.(roots := s.roots[id := r.(connection := Some(c), acquired := true, early := early)],
         uuid := s.uuid[c := id], history := s.history + [Acquired(c)])
    case CallCommit(id) =>
      var r := s.roots[id];
      if r.finished.Some? then s
      else s.(roots := s.roots[id := r.(finished := Some(Committed), completing := true)])
    case CallRollback(id) =>
      var r := s.roots[id];
      if r.finished.Some? || r.connection.None? then s
      else s.(roots := s.roots[id := r.(finished := Some(RolledBack), completing := true)])
    case Complete(id, failed) =>
      var r := s.roots[id];
      if r.connection.None? || r.connection.value !in s.uuid
      then s.(roots := s.roots[id := r.(completing := false)])
      else
        var c := r.connection.value;
        var s' := s.(roots := s.roots[id := r.(completing := false, connection := None)], uuid := s.uuid - {c});
        if failed then s'.(dying := s.dying + {c}) else s'.(history := s.history + [Released(c)])
    case DestroyDone(c) => s.(dying := s.dying - {c}, history := s.history + [Destroyed(c)])
    case NewSavepoint(sp, root, parent) => s.(savepoints := s.savepoints[sp := Inner(root, parent, None, false)])
    case Prepare(sp) =>
      var i := s.savepoints[sp];
      var c := ParentConnection(s, i);
      if c.None? then s
      else s.(savepoints := s.savepoints[sp := i.(connection := c)], uuid := s.uuid[c.value := i.root])
    case FinishSavepoint(sp) => s.(savepoints := s.savepoints[sp := s.savepoints[sp].(finished := true)])
  }

  /** `commit()` and `rollback()` of a finished root are refused, and so is the rollback of one without a connection;
      otherwise they finish it, and nothing else happens until they complete. */
  lemma FinishedOnce(s: State, id: TransactionId, how: Finish)
    requires id in s.roots
    ensures var r := s.roots[id]; var s' := Next(s, if how == Committed then CallCommit(id) else CallRollback(id));
            if r.finished.Some? || (how == RolledBack && r.connection.None?) then s' == s
            else
              && s'.roots == s.roots[id := r.(finished := Some(how), completing := true)]
              && s'.savepoints == s.savepoints && s'.uuid == s.uuid && s'.dying == s.dying && s'.history == s.history
  {
  }

  /** When they complete, a tagged connection is untagged and given back, or destroyed if they have failed. */
  lemma CompletedByOutcome(s: State, id: TransactionId, failed: bool)
    requires Enabled(s, Complete(id, failed))
    ensures var r, s' := s.roots[id], Next(s, Complete(id, failed));
            && id in s'.roots && !s'.roots[id].completing && s'.roots[id].finished == r.finished
            && (forall x :: x != id && x in s.roots ==> x in s'.roots && s'.roots[x] == s.roots[x])
            && if r.connection.Some? && r.connection.value in s.uuid then
                 && s'.roots[id].connection == None && r.connection.value !in s'.uuid
                 && (!failed ==> s'.history == s.history + [Released(r.connection.value)] && s'.dying == s.dying)
                 && (failed ==> s'.history == s.history && s'.dying == s.dying + {r.connection.value})
               else
                 s'.roots[id].connection == r.connection && s'.uuid == s.uuid && s'.history == s.history &&
                 s'.dying == s.dying
  {
  }

  predicate Reaches(s: State, run: seq<Step>)
    decreases |run|
  {
    run == [] || (Enabled(s, run[0]) && Reaches(Next(s, run[0]), run[1..]))
  }

  function After(s: State, run: seq<Step>): State
    requires Reaches(s, run)
    decreases |run|
  {
    if run == [] then s else After(Next(s, run[0]), run[1..])
  }

  /** The connections roots are bound to. */
  function Bound(s: State): set<Connection> {
    set id | id in s.roots && s.roots[id].connection.Some? :: s.roots[id].connection.value
  }

  ghost predicate RootInvariant(s: State, id: TransactionId)
    requires id in s.roots
  {
    var r := s.roots[id];
    && (r.connection.Some? ==>
          r.acquired && r.connection.value in s.uuid &&
          r.connection.value in Lent(s.history) && r.connection.value !in s.dying)
    && (r.completing ==> r.finished.Some? && !r.early)
    && (r.acquired && r.finished.None? ==> r.connection.Some?)
    && (r.finished.Some? && !r.completing ==> (r.early <==> r.connection.Some?))
    && (r.early ==> r.finished.Some?)
  }

  /** A savepoint that is bound has the connection that its root had. */
  ghost predicate SavepointInvariant(s: State, sp: SavepointId)
    requires sp in s.savepoints
  {
    var i := s.savepoints[sp];
    && i.root in s.roots
    && (i.parent.Some? ==> i.parent.value in s.savepoints && s.savepoints[i.parent.value].root == i.root)
    && (i.connection.Some? ==>
          s.roots[i.root].acquired && (s.roots[i.root].connection.Some? ==> s.roots[i.root].connection == i.connection))
  }

  /** No connection is bound to two roots. */
  ghost predicate Unshared(s: State) {
    forall a, b :: a in s.roots && b in s.roots && a != b && s.roots[a].connection.Some? ==>
      s.roots[a].connection != s.roots[b].connection
  }

  ghost predicate Invariant(s: State) {
    && (forall id :: id in s.roots ==> RootInvariant(s, id))
    && (forall sp :: sp in s.savepoints ==> SavepointInvariant(s, sp))
    && Unshared(s)
    && s.dying <= Lent(s.history) && Lent(s.history) <= Bound(s) + s.dying
    && Orderly(s.history)
  }

  lemma OneMore(history: seq<PoolEvent>, e: PoolEvent)
    ensures Lent(history + [e]) ==
            if e.Acquired? then Lent(history) + {e.connection} else Lent(history) - {e.connection}
    ensures Orderly(history + [e]) <==> Orderly(history) && (e.Acquired? <==> e.connection !in Lent(history))
  {
    assert (history + [e])[..|history|] == history;
  }

  /** The root that a step is about. */
  predicate About(step: Step, id: TransactionId) {
    match step
    case New(r) => r == id
    case Acquire(r, _) => r == id
    case CallCommit(r) => r == id
    case CallRollback(r) => r == id
    case Complete(r, _) => r == id
    case _ => false
  }

  /** A connection that a root can be bound to. */
  predicate InUse(s: State, c: Connection) {
    c in s.uuid && c in Lent(s.history) && c !in s.dying
  }

  predicate HandsBack(s: State, step: Step, c: Connection) {
    step.Complete? && step.id in s.roots && s.roots[step.id].connection == Some(c)
  }

  lemma StepLeaves(s: State, step: Step, c: Connection)
    requires Enabled(s, step) && InUse(s, c) && !HandsBack(s, step, c)
    ensures InUse(Next(s, step), c)
  {
    HistoryGrows(s, step);
    var es := Events(s, step);
    if es != [] { OneMore(s.history, es[0]); } else { assert s.history + es == s.history; }
    hide Lent, Orderly;
  }

  lemma StepOwnRoot(s: State, step: Step, id: TransactionId)
    requires Enabled(s, step) && About(step, id) && s.dying <= Lent(s.history)
    requires id in s.roots ==> RootInvariant(s, id)
    ensures RootInvariant(Next(s, step), id)
  {
    if step.Acquire? { OneMore(s.history, Acquired(step.c)); }
    hide Lent;
  }

  lemma {:induction false} StepKeepsRoot(s: State, step: Step, id: TransactionId)
    requires Invariant(s) && Enabled(s, step) && id in Next(s, step).roots
    ensures RootInvariant(Next(s, step), id)
  {
    assert id in s.roots ==> RootInvariant(s, id);
    assert Unshared(s);
    if About(step, id) {
      StepOwnRoot(s, step, id);
    } else {
      var c := s.roots[id].connection;
      if c.Some? { StepLeaves(s, step, c.value); }
      hide Invariant, Lent;
      assert Next(s, step).roots[id] == s.roots[id];
    }
  }

  /** A root is bound once, and then at most loses its connection. */
  lemma RootMoves(s: State, step: Step, id: TransactionId)
    requires Enabled(s, step) && id in s.roots
    ensures var s' := Next(s, step);
            id in s'.roots && (s.roots[id].acquired ==>
              s'.roots[id].acquired && s'.roots[id].connection in {s.roots[id].connection, None})
    ensures s.roots[id].connection.Some? && s.roots[id].acquired &&
            !HandsBack(s, step, s.roots[id].connection.value) ==>
              Next(s, step).roots[id].connection == s.roots[id].connection
  {
  }

  lemma SavepointMoves(s: State, step: Step, sp: SavepointId)
    requires Enabled(s, step) && sp in s.savepoints
    ensures var s' := Next(s, step);
            && sp in s'.savepoints && s'.savepoints[sp].root == s.savepoints[sp].root
            && s'.savepoints[sp].parent == s.savepoints[sp].parent
            && (s'.savepoints[sp].connection == s.savepoints[sp].connection ||
                (step == Prepare(sp) && s'.savepoints[sp].connection == ParentConnection(s, s.savepoints[sp])))
  {
  }

  lemma {:induction false} StepKeepsSavepoint(s: State, step: Step, sp: SavepointId)
    requires Invariant(s) && Enabled(s, step) && sp in Next(s, step).savepoints
    ensures SavepointInvariant(Next(s, step), sp)
  {
    if sp in s.savepoints {
      var i := s.savepoints[sp];
      assert SavepointInvariant(s, sp) && RootInvariant(s, i.root);
      if i.parent.Some? {
        assert SavepointInvariant(s, i.parent.value);
        SavepointMoves(s, step, i.parent.value);
      }
      RootMoves(s, step, i.root);
      SavepointMoves(s, step, sp);
      hide Lent, Invariant, Next;
    } else {
      var i := Next(s, step).savepoints[sp];
      assert step == NewSavepoint(sp, i.root, i.parent);
      hide Lent, Invariant;
    }
  }

  lemma {:induction false} StepKeepsInvariant(s: State, step: Step)
    requires Invariant(s) && Enabled(s, step)
    ensures Invariant(Next(s, step))
  {
    var s' := Next(s, step);
    forall id | id in s'.roots ensures RootInvariant(s', id) { StepKeepsRoot(s, step, id); }
    forall sp | sp in s'.savepoints ensures SavepointInvariant(s', sp) { StepKeepsSavepoint(s, step, sp); }
    StepKeepsUnshared(s, step);
    StepKeepsBound(s, step);
    hide Lent, Orderly, RootInvariant, SavepointInvariant, Bound, Next, Unshared;
  }

  /** A root keeps its connection, loses it, or is bound to one that nobody has. */
  lemma RootConnection(s: State, step: Step, id: TransactionId)
    requires Enabled(s, step) && id in Next(s, step).roots
    ensures var c := Next(s, step).roots[id].connection;
            || c.None?
            || (step == Acquire(id, c.value) && c.value !in Lent(s.history))
            || (id in s.roots && c == s.roots[id].connection)
  {
  }

  lemma {:induction false} StepKeepsUnshared(s: State, step: Step)
    requires Invariant(s) && Enabled(s, step)
    ensures Unshared(Next(s, step))
  {
    var s' := Next(s, step);
    hide Lent, Orderly, Bound;
    forall a, b | a in s'.roots && b in s'.roots && a != b && s'.roots[a].connection.Some?
      ensures s'.roots[a].connection != s'.roots[b].connection
    {
      RootConnection(s, step, a);
      RootConnection(s, step, b);
      assert a in s.roots ==> RootInvariant(s, a);
      assert b in s.roots ==> RootInvariant(s, b);
      hide Next, Invariant;
    }
  }

  /** What a step adds to the pool's history. */
  function Events(s: State, step: Step): seq<PoolEvent> {
    match step
    case Acquire(_, c) => [Acquired(c)]
    case DestroyDone(c) => [Destroyed(c)]
    case Complete(id, failed) =>
      if !failed && id in s.roots && s.roots[id].connection.Some? && s.roots[id].connection.value in s.uuid
      then [Released(s.roots[id].connection.value)]
      else []
    case _ => []
  }

  lemma HistoryGrows(s: State, step: Step)
    requires Enabled(s, step)
    ensures Next(s, step).history == s.history + Events(s, step)
    ensures Next(s, step).dying ==
            match step
            case DestroyDone(c) => s.dying - {c}
            case Complete(id, failed) =>
              if failed && s.roots[id].connection.Some? && s.roots[id].connection.value in s.uuid
              then s.dying + {s.roots[id].connection.value}
              else s.dying
            case _ => s.dying
  {
    assert s.history + [] == s.history;
  }

  lemma StepKeepsPool(s: State, step: Step)
    requires Enabled(s, step) && s.dying <= Lent(s.history) && Orderly(s.history)
    requires step.Complete? ==> RootInvariant(s, step.id)
    ensures var s' := Next(s, step);
            && Orderly(s'.history) && s'.dying <= Lent(s'.history)
            && (forall c :: c in Lent(s'.history) ==> c in Lent(s.history) || (step.Acquire? && step.c == c))
            && (forall c :: c in Lent(s'.history) && (c in s.dying || HandsBack(s, step, c)) ==> c in s'.dying)
  {
    HistoryGrows(s, step);
    var es := Events(s, step);
    if es != [] { OneMore(s.history, es[0]); } else { assert s.history + es == s.history; }
    hide Lent, Orderly, Next;
  }

  lemma {:induction false} StepKeepsBound(s: State, step: Step)
    requires Invariant(s) && Enabled(s, step)
    ensures var s' := Next(s, step);
            Orderly(s'.history) && s'.dying <= Lent(s'.history) <= Bound(s') + s'.dying
  {
    var s' := Next(s, step);
    if step.Complete? { assert RootInvariant(s, step.id); }
    StepKeepsPool(s, step);
    assert Lent(s.history) <= Bound(s) + s.dying;
    forall c | c in Lent(s'.history) ensures c in Bound(s') + s'.dying {
      if step.Acquire? && step.c == c {
        assert s'.roots[step.id].connection == Some(c);
      } else if c in Bound(s) && !HandsBack(s, step, c) {
        var id :| id in s.roots && s.roots[id].connection == Some(c);
        assert RootInvariant(s, id);
        RootMoves(s, step, id);
      }
    }
    hide Lent, Orderly, Invariant, Next, RootInvariant;
  }

  lemma {:induction false} RunKeepsInvariant(s: State, run: seq<Step>)
    requires Invariant(s) && Reaches(s, run)
    ensures Invariant(After(s, run))
    decreases |run|
  {
    if run != [] {
      StepKeepsInvariant(s, run[0]);
      RunKeepsInvariant(Next(s, run[0]), run[1..]);
    }
  }

  /** In every interleaving, no connection is bound to two roots, and the pool's history is orderly. */
  lemma {:induction false} NoSharedConnection(run: seq<Step>, a: TransactionId, b: TransactionId)
    requires Reaches(EMPTY, run)
    ensures var s := After(EMPTY, run);
            && Orderly(s.history)
            && (a in s.roots && b in s.roots && a != b && s.roots[a].connection.Some? ==>
                  s.roots[a].connection != s.roots[b].connection)
  {
    RunKeepsInvariant(EMPTY, run);
    var s := After(EMPTY, run);
    if a in s.roots && b in s.roots { assert RootInvariant(s, a) && RootInvariant(s, b); }
  }

  /** In every interleaving, a bound savepoint is on its root's connection if and only if the root has not handed it
      back; only then, which is after the root was finished, can the connection be that of another root. */
  lemma {:induction false} SavepointStaysHome(run: seq<Step>, sp: SavepointId)
    requires Reaches(EMPTY, run) && sp in After(EMPTY, run).savepoints
    ensures var s := After(EMPTY, run);
            var i := s.savepoints[sp];
            && i.root in s.roots
            && (i.connection.Some? ==>
                  (i.connection == s.roots[i.root].connection <==> s.roots[i.root].connection.Some?))
            && (forall id :: id in s.roots && id != i.root && i.connection.Some? &&
                             s.roots[id].connection == i.connection ==>
                  s.roots[i.root].connection.None? && s.roots[i.root].finished.Some?)
  {
    RunKeepsInvariant(EMPTY, run);
    var s := After(EMPTY, run);
    assert SavepointInvariant(s, sp) && RootInvariant(s, s.savepoints[sp].root);
  }

  /** Every transaction that got a connection has been asked to finish, and nothing is being awaited. */
  predicate Settled(s: State) {
    s.dying == {} &&
    forall id :: id in s.roots ==> !s.roots[id].completing && (s.roots[id].acquired ==> s.roots[id].finished.Some?)
  }

  /** Once a run has settled, every connection is back in the pool or destroyed, each handed back exactly as
      often as it was lent, if and only if no commit was over before the connection came. */
  lemma {:induction false} SettledRunsConserve(run: seq<Step>)
    requires Reaches(EMPTY, run) && Settled(After(EMPTY, run))
    ensures var s := After(EMPTY, run);
            (forall id :: id in s.roots ==> !s.roots[id].early) <==>
            (forall c :: Count(s.history, Acquired(c)) ==
                         Count(s.history, Released(c)) + Count(s.history, Destroyed(c)))
  {
    RunKeepsInvariant(EMPTY, run);
    var s := After(EMPTY, run);
    forall c ensures c in Lent(s.history) <==>
                     Count(s.history, Acquired(c)) != Count(s.history, Released(c)) + Count(s.history, Destroyed(c)) {
      LoansBalance(s.history, c);
    }
    forall id | id in s.roots ensures s.roots[id].early <==> s.roots[id].connection.Some? {
      assert RootInvariant(s, id);
    }
    if c :| c in Lent(s.history) {
      assert c in Bound(s);
    }
    if id :| id in s.roots && s.roots[id].early {
      assert RootInvariant(s, id);
    }
  }

  // ----- runs that break the promise -----

  lemma {:induction false} Then(s: State, step: Step, run: seq<Step>)
    requires Enabled(s, step) && Reaches(Next(s, step), run)
    ensures Reaches(s, [step] + run) && After(s, [step] + run) == After(Next(s, step), run)
  {
    assert ([step] + run)[1..] == run;
  }

  /** A commit that is over before the connection comes: the connection is never given back. */
  lemma {:induction false} CommitBeforeConnection() returns (run: seq<Step>)
    ensures Reaches(EMPTY, run)
    ensures var s := After(EMPTY, run);
            Settled(s) && 7 in s.roots && s.roots[7].early && 3 in Lent(s.history)
  {
    var s1 := Next(EMPTY, New(7));
    var s2 := Next(s1, CallCommit(7));
    var s3 := Next(s2, Complete(7, true));
    var s4 := Next(s3, Acquire(7, 3));
    OneMore([], Acquired(3));
    assert s4.history == [] + [Acquired(3)];
    run := [];
    Then(s3, Acquire(7, 3), run);
    run := [Acquire(7, 3)] + run;
    Then(s2, Complete(7, true), run);
    run := [Complete(7, true)] + run;
    Then(s1, CallCommit(7), run);
    run := [CallCommit(7)] + run;
    Then(EMPTY, New(7), run);
    run := [New(7)] + run;
  }

  /** A savepoint that outlives its root is left on a connection that another root is now bound to. */
  lemma {:induction false} SavepointOnForeignConnection() returns (run: seq<Step>)
    ensures Reaches(EMPTY, run)
    ensures var s := After(EMPTY, run);
            && 1 in s.savepoints && 9 in s.roots && s.savepoints[1].root == 7 && !s.savepoints[1].finished
            && s.savepoints[1].connection == Some(3) == s.roots[9].connection
  {
    var s1 := Next(EMPTY, New(7));
    OneMore([], Acquired(3));
    var s2 := Next(s1, Acquire(7, 3));
    assert s2.history == [] + [Acquired(3)] == [Acquired(3)];
    hide Lent, After, Reaches;
    var s3 := Next(s2, NewSavepoint(1, 7, None));
    var s4 := Next(s3, Prepare(1));
    var s5 := Next(s4, CallCommit(7));
    var inner := Inner(7, None, Some(3), false);
    assert s5 == State(map[7 := Root(Some(Committed), Some(3), true, true, false)], map[1 := inner], map[3 := 7], {},
                       [Acquired(3)]);
    var tail := ReusedConnection(s5, inner);
    run := tail;
    Then(s4, CallCommit(7), run);
    run := [CallCommit(7)] + run;
    Then(s3, Prepare(1), run);
    run := [Prepare(1)] + run;
    Then(s2, NewSavepoint(1, 7, None), run);
    run := [NewSavepoint(1, 7, None)] + run;
    Then(s1, Acquire(7, 3), run);
    run := [Acquire(7, 3)] + run;
    Then(EMPTY, New(7), run);
    run := [New(7)] + run;
  }

  /** The second half: root 7 hands connection 3 back, root 9 acquires it. */
  lemma {:induction false} ReusedConnection(s: State, inner: Inner) returns (run: seq<Step>)
    requires s == State(map[7 := Root(Some(Committed), Some(3), true, true, false)], map[1 := inner], map[3 := 7], {},
                        [Acquired(3)])
    ensures Reaches(s, run)
    ensures var end := After(s, run);
            && 1 in end.savepoints && end.savepoints[1] == inner
            && 9 in end.roots && end.roots[9].connection == Some(3)
  {
    var s6 := Next(s, Complete(7, false));
    OneMore([Acquired(3)], Released(3));
    assert s6.history == [Acquired(3)] + [Released(3)];
    hide Lent;
    var s7 := Next(s6, New(9));
    run := [];
    Then(s7, Acquire(9, 3), run);
    run := [Acquire(9, 3)] + run;
    Then(s6, New(9), run);
    run := [New(9)] + run;
    Then(s, Complete(7, false), run);
    run := [Complete(7, false)] + run;
  }
}
