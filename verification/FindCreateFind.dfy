/** `findCreateFind`: many clients with the same options, each running find, create, find again, interleaved
    at their statements, over a table with a unique constraint and no deletes. */
module FindCreateFind {
  import opened Common

  /** A value of the attributes under the unique constraint. */
  type Key = nat
  type RowId = nat
  type Client = nat

  /** `searched`: the key in `where`. `overridden`: the key in `defaults`, which wins over `where` in the
      values of the created row. */
  datatype Options = Options(searched: Key, overridden: Option<Key>) {
    function Created(): Key {
      if overridden.Some? then overridden.value else searched
    }
  }

  datatype Progress =
    | ToFind
    | ToCreate
    | ToFindAgain
    | Done(row: Option<RowId>, created: bool)

  /** `rows` maps each key to its only row; `next` is an unused row. */
  datatype State = State(rows: map<Key, RowId>, next: RowId, clients: map<Client, Progress>)

  function Lookup(rows: map<Key, RowId>, k: Key): Option<RowId> {
    if k in rows then Some(rows[k]) else None
  }

  /** One statement of client `c`. */
  function Next(o: Options, s: State, c: Client): State {
    if c !in s.clients then s
    else
      match s.clients[c]
      case ToFind =>
        var found := Lookup(s.rows, o.searched);
        s.(clients := s.clients[c := if found.Some? then Done(found, false) else ToCreate])
      case ToCreate =>
        if o.Created() in s.rows then s.(clients := s.clients[c := ToFindAgain])
        else State(s.rows[o.Created() := s.next], s.next + 1, s.clients[c := Done(Some(s.next), true)])
      case ToFindAgain => s.(clients := s.clients[c := Done(Lookup(s.rows, o.searched), false)])
      case Done(_, _) => s
  }

  function After(o: Options, s: State, run: seq<Client>): State
    decreases |run|
  {
    if run == [] then s else After(o, Next(o, s, run[0]), run[1..])
  }

  function Start(rows: map<Key, RowId>, next: RowId, clients: set<Client>): State {
    State(rows, next, map c | c in clients :: ToFind)
  }

  /** All clients that have finished have the same row, and at most one says it created it. */
  predicate Agreed(s: State) {
    forall c, d :: c in s.clients && d in s.clients && s.clients[c].Done? && s.clients[d].Done? ==>
      && s.clients[c].row.Some? && s.clients[c].row == s.clients[d].row
      && (s.clients[c].created && s.clients[d].created ==> c == d)
  }

  predicate IsDone(p: Progress, row: Option<RowId>) {
    p.Done? ==> p.row == row && row.Some?
  }

  predicate Creator(p: Progress) {
    p.Done? && p.created
  }

  /** The invariant when the created row is the one searched for. */
  ghost predicate Consistent(o: Options, s: State, absent: bool) {
    && (forall c :: c in s.clients ==> IsDone(s.clients[c], Lookup(s.rows, o.searched)))
    && (forall c :: c in s.clients && s.clients[c].ToFindAgain? ==> o.searched in s.rows)
    && (forall c, d :: c in s.clients && d in s.clients && Creator(s.clients[c]) && Creator(s.clients[d]) ==> c == d)
    && (o.searched !in s.rows ==> forall c :: c in s.clients ==> !s.clients[c].Done?)
    && (!absent ==> o.searched in s.rows)
    && (absent && o.searched in s.rows ==> exists c :: c in s.clients && Creator(s.clients[c]))
  }

  lemma {:induction false} StepConsistent(o: Options, s: State, c: Client, absent: bool)
    requires o.Created() == o.searched || !absent
    requires Consistent(o, s, absent) && (!absent ==> NoneCreating(s))
    ensures Consistent(o, Next(o, s, c), absent) && (!absent ==> NoneCreating(Next(o, s, c)))
  {
    var s' := Next(o, s, c);
    if c in s.clients && s.clients[c].ToCreate? && o.Created() !in s.rows {
      assert Creator(s'.clients[c]);
    }
    if absent && o.searched in s.rows {
      var d :| d in s.clients && Creator(s.clients[d]);
      assert s'.clients[d] == s.clients[d];
    }
  }

  /** With the row there from the start, nobody gets as far as creating. */
  predicate NoneCreating(s: State) {
    forall c :: c in s.clients ==> !s.clients[c].ToCreate? && !s.clients[c].ToFindAgain?
  }

  lemma {:induction false} RunConsistent(o: Options, s: State, run: seq<Client>, absent: bool)
    requires o.Created() == o.searched || !absent
    requires Consistent(o, s, absent) && (!absent ==> NoneCreating(s))
    ensures Consistent(o, After(o, s, run), absent)
    decreases |run|
  {
    if run != [] {
      StepConsistent(o, s, run[0], absent);
      RunConsistent(o, Next(o, s, run[0]), run[1..], absent);
    }
  }

  /** With at least two clients: in every interleaving all finished clients agree, if and only if the row was
      there already or the defaults do not override the key that is searched for. */
  lemma {:induction false} AgreementNeedsMatchingDefaults(o: Options, rows: map<Key, RowId>, next: RowId,
                                                          clients: set<Client>, a: Client, b: Client)
    requires a in clients && b in clients && a != b
    ensures (forall run: seq<Client> :: Agreed(After(o, Start(rows, next, clients), run))) <==>
            (o.searched in rows || o.Created() == o.searched)
  {
    var start := Start(rows, next, clients);
    if o.searched in rows || o.Created() == o.searched {
      forall run: seq<Client> ensures Agreed(After(o, start, run)) {
        RunConsistent(o, start, run, o.searched !in rows);
      }
    } else {
      var run := Disagreement(o, rows, next, clients, a, b);
      assert !Agreed(After(o, start, run));
    }
  }

  /** One client after the other: the second does not find what the first one created. */
  lemma {:induction false} Disagreement(o: Options, rows: map<Key, RowId>, next: RowId, clients: set<Client>,
                                        a: Client, b: Client) returns (run: seq<Client>)
    requires a in clients && b in clients && a != b
    requires o.searched !in rows && o.Created() != o.searched
    ensures !Agreed(After(o, Start(rows, next, clients), run))
  {
    var s0 := Start(rows, next, clients);
    var s2 := Next(o, Next(o, s0, a), a);
    var s3 := Next(o, Next(o, Next(o, s2, b), b), b);
    run := [a, a, b, b, b];
    assert run[1..] == [a, b, b, b] && run[1..][1..] == [b, b, b];
    assert [b, b, b][1..] == [b, b] && [b, b][1..] == [b] && [b][1..] == [];
    assert After(o, s0, run) == After(o, s2, [b, b, b]);
    assert After(o, s2, [b, b, b]) == After(o, Next(o, Next(o, s2, b), b), [b]);
    assert After(o, Next(o, Next(o, s2, b), b), [b]) == After(o, s3, []) == s3;
    assert s3.clients[b] == Done(None, false);
  }

  /** Every row belongs to one key, and `next` is not among them. */
  predicate RowsApart(s: State) {
    && (forall k :: k in s.rows ==> s.rows[k] < s.next)
    && forall k, l :: k in s.rows && l in s.rows && s.rows[k] == s.rows[l] ==> k == l
  }

  /** A created row is a new one, and no row is ever replaced. */
  lemma {:induction false} RowsStayApart(o: Options, s: State, run: seq<Client>)
    requires RowsApart(s)
    ensures var s' := After(o, s, run);
            RowsApart(s') && s.next <= s'.next && forall k :: k in s.rows ==> k in s'.rows && s'.rows[k] == s.rows[k]
    decreases |run|
  {
    if run != [] { RowsStayApart(o, Next(o, s, run[0]), run[1..]); }
  }

  /** The statements that a client still has to make, at most. */
  function Left(p: Progress): nat {
    match p
    case ToFind => 3
    case ToCreate => 2
    case ToFindAgain => 1
    case Done(_, _) => 0
  }

  function Turns(run: seq<Client>, c: Client): nat {
    if run == [] then 0 else (if run[0] == c then 1 else 0) + Turns(run[1..], c)
  }

  lemma {:induction false} EveryTurnCounts(o: Options, s: State, run: seq<Client>, c: Client)
    requires c in s.clients
    ensures var s' := After(o, s, run);
            c in s'.clients && (s'.clients[c].Done? || Left(s'.clients[c]) + Turns(run, c) <= Left(s.clients[c]))
    decreases |run|
  {
    if run != [] { EveryTurnCounts(o, Next(o, s, run[0]), run[1..], c); }
  }

  /** A client is done after three statements, whatever the others do, and if the row was there, after one, with that
      row and not as its creator. */
  lemma {:induction false} ThreeStatementsAtMost(o: Options, rows: map<Key, RowId>, next: RowId, clients: set<Client>,
                                                 run: seq<Client>, c: Client)
    requires c in clients
    ensures var s := After(o, Start(rows, next, clients), run);
            && c in s.clients && (Turns(run, c) >= 3 ==> s.clients[c].Done?)
            && (o.searched in rows && Turns(run, c) >= 1 ==> s.clients[c] == Done(Some(rows[o.searched]), false))
    decreases |run|
  {
    EveryTurnCounts(o, Start(rows, next, clients), run, c);
    if o.searched in rows { FoundAtOnce(o, Start(rows, next, clients), run, c, rows[o.searched]); }
  }

  lemma {:induction false} FoundAtOnce(o: Options, s: State, run: seq<Client>, c: Client, row: RowId)
    requires c in s.clients && Lookup(s.rows, o.searched) == Some(row)
    requires s.clients[c] in {ToFind, Done(Some(row), false)}
    ensures var s' := After(o, s, run);
            c in s'.clients && (Turns(run, c) >= 1 || s.clients[c].Done? ==> s'.clients[c] == Done(Some(row), false))
    decreases |run|
  {
    if run != [] { FoundAtOnce(o, Next(o, s, run[0]), run[1..], c, row); }
  }

  /** When no row matched at first, exactly one client reports having created it, once any has finished. */
  lemma {:induction false} ExactlyOneCreates(o: Options, rows: map<Key, RowId>, next: RowId, clients: set<Client>,
                                             run: seq<Client>)
    requires o.searched !in rows && o.Created() == o.searched
    ensures var s := After(o, Start(rows, next, clients), run);
            && Agreed(s)
            && ((exists c :: c in s.clients && s.clients[c].Done?) ==>
                  exists c :: c in s.clients && Creator(s.clients[c]))
  {
    RunConsistent(o, Start(rows, next, clients), run, true);
  }
}
