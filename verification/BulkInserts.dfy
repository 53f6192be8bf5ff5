/** Inserting many records in MSSQL, at most 1000 rows a statement. */
module BulkInserts {
  import opened Common

  type Column = nat
  type Value = nat

  /** A property of a record; None is null. */
  datatype Cell = Cell(column: Column, value: Option<Value>)

  type Record = seq<Cell>

  /** An INSERT of default values, or of some rows over some columns. */
  datatype Statement =
    | DefaultValues
    | Values(columns: seq<Column>, rows: seq<seq<Option<Value>>>)

  /** `identity`: wrapped in SET IDENTITY_INSERT ON and OFF. */
  datatype Command = Command(identity: bool, statements: seq<Statement>)

  const MAX_ROWS := 1000

  /** The special case: nothing but a null for the auto-increment column. */
  predicate LoneNull(r: Record, auto: set<Column>) {
    |r| == 1 && r[0].column in auto && r[0].value.None?
  }

  /** A null for the auto-increment column does not make it one of the columns. */
  predicate Counts(c: Cell, auto: set<Column>) {
    c.value.Some? || c.column !in auto
  }

  function WithCells(columns: seq<Column>, r: Record, auto: set<Column>): seq<Column> {
    if r == [] then columns
    else
      var before := WithCells(columns, r[..|r| - 1], auto);
      if Last(r).column in before || !Counts(Last(r), auto) then before else before + [Last(r).column]
  }

  /** The columns of the records, in order of appearance. */
  function Columns(records: seq<Record>, auto: set<Column>): seq<Column> {
    if records == [] then []
    else
      var before := Columns(records[..|records| - 1], auto);
      if LoneNull(Last(records), auto) then before else WithCells(before, Last(records), auto)
  }

  function LoneNulls(records: seq<Record>, auto: set<Column>): nat {
    if records == [] then 0
    else LoneNulls(records[..|records| - 1], auto) + if LoneNull(Last(records), auto) then 1 else 0
  }

  predicate NeedsIdentity(records: seq<Record>, auto: set<Column>) {
    exists r, c :: r in records && !LoneNull(r, auto) && c in r && c.value.Some? && c.column in auto
  }

  /** The value a record has for a column, or null. */
  function ValueOf(r: Record, c: Column): Option<Value> {
    if r == [] then None else if r[0].column == c then r[0].value else ValueOf(r[1..], c)
  }

  function Tuple(r: Record, columns: seq<Column>): (t: seq<Option<Value>>)
    ensures |t| == |columns| && forall k :: 0 <= k < |columns| ==> t[k] == ValueOf(r, columns[k])
  {
    seq(|columns|, k requires 0 <= k < |columns| => ValueOf(r, columns[k]))
  }

  function Tuples(records: seq<Record>, columns: seq<Column>): (t: seq<seq<Option<Value>>>)
    ensures |t| == |records| && forall k :: 0 <= k < |records| ==> t[k] == Tuple(records[k], columns)
  {
    seq(|records|, k requires 0 <= k < |records| => Tuple(records[k], columns))
  }

  function Empties(n: nat): seq<Statement> {
    seq(n, _ => DefaultValues)
  }

  /** The statements of one chunk. */
  function ChunkOf(lone: nat, columns: seq<Column>, rows: seq<seq<Option<Value>>>): seq<Statement> {
    Empties(lone) + if columns == [] then [] else [Values(columns, rows)]
  }

  /** The commands for `rows`: at least one, however few there are. */
  function Chunked(identity: bool, lone: nat, columns: seq<Column>, rows: seq<seq<Option<Value>>>): seq<Command>
    decreases |rows|
  {
    if |rows| <= MAX_ROWS then [Command(identity, ChunkOf(lone, columns, rows))]
    else [Command(identity, ChunkOf(lone, columns, rows[..MAX_ROWS]))] +
         Chunked(identity, lone, columns, rows[MAX_ROWS..])
  }

  function Commands(records: seq<Record>, auto: set<Column>): seq<Command> {
    var columns := Columns(records, auto);
    Chunked(NeedsIdentity(records, auto), LoneNulls(records, auto), columns,
            if columns == [] then [] else Tuples(records, columns))
  }

  // ----- in place -----

  /** `bulkInsertQuery`. */
  method BulkInsertQuery(records: seq<Record>, auto: set<Column>) returns (commands: seq<Command>)
    ensures commands == Commands(records, auto)
  {
    var lone, columns, identity := CollectColumns(records, auto);
    var tuples: seq<seq<Option<Value>>> := [];
    if |columns| > 0 {
      for k := 0 to |records|
        invariant tuples == Tuples(records[..k], columns)
      {
        tuples := tuples + [Tuple(records[k], columns)];
      }
      assert records[..|records|] == records;
    }
    commands := MakeCommands(identity, lone, columns, tuples);
  }

  /** The last loop: one command for every 1000 tuples. */
  method MakeCommands(identity: bool, lone: nat, columns: seq<Column>, tuples: seq<seq<Option<Value>>>)
    returns (commands: seq<Command>)
    ensures commands == Chunked(identity, lone, columns, tuples)
  {
    hide ChunkOf;
    commands := [];
    var offset := 0;
    assert tuples[0..] == tuples;
    while offset < Max(|tuples|, 1)
      invariant offset < Max(|tuples|, 1) ==>
                  offset <= |tuples| &&
                  commands + Chunked(identity, lone, columns, tuples[offset..]) ==
                  Chunked(identity, lone, columns, tuples)
      invariant offset >= Max(|tuples|, 1) ==> commands == Chunked(identity, lone, columns, tuples)
      decreases Max(|tuples|, 1) - offset
    {
      var rows := tuples[offset..Min(|tuples|, offset + MAX_ROWS)];
      ghost var rest := tuples[offset..];
      if |rest| <= MAX_ROWS {
        assert rows == rest;
      } else {
        assert rows == rest[..MAX_ROWS] && rest[MAX_ROWS..] == tuples[offset + MAX_ROWS..];
      }
      commands := commands + [Command(identity, ChunkOf(lone, columns, rows))];
      offset := offset + MAX_ROWS;
    }
  }

  function Max(a: nat, b: nat): nat {
    if a > b then a else b
  }

  function Min(a: nat, b: nat): nat {
    if a < b then a else b
  }

  /** The first loop: the columns, the special cases, and whether an identity value is given. */
  method CollectColumns(records: seq<Record>, auto: set<Column>)
    returns (lone: nat, columns: seq<Column>, identity: bool)
    ensures lone == LoneNulls(records, auto) && columns == Columns(records, auto)
    ensures identity == NeedsIdentity(records, auto)
  {
    lone, columns, identity := 0, [], false;
    for k := 0 to |records|
      invariant lone == LoneNulls(records[..k], auto) && columns == Columns(records[..k], auto)
      invariant identity == NeedsIdentity(records[..k], auto)
    {
      var r := records[k];
      assert records[..k + 1][..k] == records[..k] && Last(records[..k + 1]) == r;
      assert forall x :: x in records[..k + 1] <==> x in records[..k] || x == r;
      if LoneNull(r, auto) {
        lone := lone + 1;
        continue;
      }
      ghost var before := identity;
      var start := columns;
      for j := 0 to |r|
        invariant columns == WithCells(start, r[..j], auto)
        invariant identity == (before || exists c :: c in r[..j] && c.value.Some? && c.column in auto)
      {
        assert r[..j + 1][..j] == r[..j] && Last(r[..j + 1]) == r[j];
        assert forall c :: c in r[..j + 1] <==> c in r[..j] || c == r[j];
        if r[j].value.Some? && r[j].column in auto {
          identity := true;
        }
        if r[j].column !in columns {
          if r[j].value.Some? || r[j].column !in auto {
            columns := columns + [r[j].column];
          }
        }
      }
      assert r[..|r|] == r;
    }
    assert records[..|records|] == records;
  }

  // ----- what gets inserted -----

  function AsInserted(rows: seq<seq<Option<Value>>>): (r: seq<Option<seq<Option<Value>>>>)
    ensures |r| == |rows| && forall k :: 0 <= k < |rows| ==> r[k] == Some(rows[k])
  {
    seq(|rows|, k requires 0 <= k < |rows| => Some(rows[k]))
  }

  /** The rows that statements insert; None is a row of default values. */
  function Rows(statements: seq<Statement>): seq<Option<seq<Option<Value>>>> {
    if statements == [] then []
    else
      (match statements[0]
       case DefaultValues => [None]
       case Values(_, rows) => AsInserted(rows)) + Rows(statements[1..])
  }

  function Inserted(commands: seq<Command>): seq<Option<seq<Option<Value>>>> {
    if commands == [] then [] else Rows(commands[0].statements) + Inserted(commands[1..])
  }

  function Nothings(n: nat): (r: seq<Option<seq<Option<Value>>>>)
    ensures |r| == n && forall k :: 0 <= k < n ==> r[k] == None
  {
    seq(n, _ => None)
  }

  lemma {:induction false} EmptiesRows(n: nat, more: seq<Statement>)
    ensures Rows(Empties(n) + more) == Nothings(n) + Rows(more)
  {
    if n == 0 {
      assert Empties(0) + more == more;
    } else {
      assert (Empties(n) + more)[1..] == Empties(n - 1) + more;
      EmptiesRows(n - 1, more);
    }
  }

  lemma {:induction false} ChunkRows(lone: nat, columns: seq<Column>, rows: seq<seq<Option<Value>>>)
    requires columns == [] ==> rows == []
    ensures Rows(ChunkOf(lone, columns, rows)) == Nothings(lone) + AsInserted(rows)
  {
    var more := if columns == [] then [] else [Values(columns, rows)];
    EmptiesRows(lone, more);
    if columns != [] { assert more[1..] == []; }
  }

  lemma {:induction false} ChunkedCounts(identity: bool, lone: nat, columns: seq<Column>, rows: seq<seq<Option<Value>>>)
    requires columns == [] ==> rows == []
    ensures var c := Chunked(identity, lone, columns, rows);
            && |Inserted(c)| == |rows| + lone * |c| && |c| >= 1 && (|rows| <= MAX_ROWS ==> |c| == 1)
            && |rows| <= 1000 * |c| && (rows != [] ==> 1000 * (|c| - 1) < |rows|)
    decreases |rows|
  {
    var c := Chunked(identity, lone, columns, rows);
    if |rows| <= MAX_ROWS {
      ChunkRows(lone, columns, rows);
      assert c[1..] == [];
    } else {
      ChunkRows(lone, columns, rows[..MAX_ROWS]);
      ChunkedCounts(identity, lone, columns, rows[MAX_ROWS..]);
      var rest := Chunked(identity, lone, columns, rows[MAX_ROWS..]);
      assert c[1..] == rest && |c| == |rest| + 1;
      assert lone * |c| == lone * |rest| + lone;
    }
  }

  lemma AsInsertedSplit(rows: seq<seq<Option<Value>>>, n: nat)
    requires n <= |rows|
    ensures AsInserted(rows) == AsInserted(rows[..n]) + AsInserted(rows[n..])
  {
  }

  lemma {:induction false} ChunkedInOrder(identity: bool, columns: seq<Column>, rows: seq<seq<Option<Value>>>)
    requires columns != []
    ensures Inserted(Chunked(identity, 0, columns, rows)) == AsInserted(rows)
    decreases |rows|
  {
    var c := Chunked(identity, 0, columns, rows);
    if |rows| <= MAX_ROWS {
      ChunkRows(0, columns, rows);
      assert c[1..] == [];
    } else {
      ChunkRows(0, columns, rows[..MAX_ROWS]);
      ChunkedInOrder(identity, columns, rows[MAX_ROWS..]);
      assert c[1..] == Chunked(identity, 0, columns, rows[MAX_ROWS..]);
      hide ChunkOf, Rows, Chunked;
      AsInsertedSplit(rows, MAX_ROWS);
    }
  }

  /** Each command inserts over the given columns, at most 1000 rows a statement. */
  predicate WellFormed(c: Command, identity: bool, columns: seq<Column>) {
    c.identity == identity &&
    forall s :: s in c.statements && s.Values? ==> s.columns == columns && |s.rows| <= 1000
  }

  lemma {:induction false} ChunkedWellFormed(identity: bool, lone: nat, columns: seq<Column>,
                                             rows: seq<seq<Option<Value>>>)
    ensures forall c :: c in Chunked(identity, lone, columns, rows) ==> WellFormed(c, identity, columns)
    decreases |rows|
  {
    if |rows| > MAX_ROWS { ChunkedWellFormed(identity, lone, columns, rows[MAX_ROWS..]); }
  }

  lemma {:induction false} LoneNullsBound(records: seq<Record>, auto: set<Column>)
    ensures LoneNulls(records, auto) <= |records|
    ensures LoneNulls(records, auto) == 0 <==> forall r :: r in records ==> !LoneNull(r, auto)
    ensures LoneNulls(records, auto) == |records| <==> forall r :: r in records ==> LoneNull(r, auto)
    decreases |records|
  {
    if records != [] {
      LoneNullsBound(records[..|records| - 1], auto);
      assert records == records[..|records| - 1] + [Last(records)];
    }
  }

  /** What should be inserted: for each record a row of its values, or of default values for a lone null. */
  function Expected(records: seq<Record>, auto: set<Column>): (r: seq<Option<seq<Option<Value>>>>)
    ensures |r| == |records|
    ensures forall k :: 0 <= k < |records| ==>
              r[k] == if LoneNull(records[k], auto) then None else Some(Tuple(records[k], Columns(records, auto)))
  {
    seq(|records|, k requires 0 <= k < |records| =>
          if LoneNull(records[k], auto) then None else Some(Tuple(records[k], Columns(records, auto))))
  }

  /** Lone nulls are not mixed with others: there are columns and no record is a lone null, or there are none and
      every record is one. */
  predicate Unmixed(records: seq<Record>, auto: set<Column>) {
    if Columns(records, auto) == [] then forall r :: r in records ==> LoneNull(r, auto)
    else forall r :: r in records ==> !LoneNull(r, auto)
  }

  /** Every record is inserted exactly once, in order, if and only if the records are unmixed. If not, not even the
      number of rows is right: a lone null is inserted twice or more, or a record without columns not at all. */
  lemma {:induction false} EveryRecordOnce(records: seq<Record>, auto: set<Column>)
    ensures Inserted(Commands(records, auto)) == Expected(records, auto) <==> Unmixed(records, auto)
    ensures |Inserted(Commands(records, auto))| == |records| <==> Unmixed(records, auto)
  {
    hide Columns, LoneNulls, Chunked, Inserted, LoneNull, NeedsIdentity;
    var columns, lone := Columns(records, auto), LoneNulls(records, auto);
    var rows := if columns == [] then [] else Tuples(records, columns);
    ChunkedCounts(NeedsIdentity(records, auto), lone, columns, rows);
    LoneNullsBound(records, auto);
    NoneOrSome(lone, |Commands(records, auto)|);
    if Unmixed(records, auto) { UnmixedInOrder(records, auto); }
  }

  lemma {:induction false} UnmixedInOrder(records: seq<Record>, auto: set<Column>)
    requires Unmixed(records, auto)
    ensures Inserted(Commands(records, auto)) == Expected(records, auto)
  {
    hide Columns, LoneNulls, LoneNull, NeedsIdentity;
    var columns, lone := Columns(records, auto), LoneNulls(records, auto);
    LoneNullsBound(records, auto);
    if columns == [] {
      var c := Commands(records, auto);
      assert c == [Command(NeedsIdentity(records, auto), ChunkOf(lone, [], []))] && c[1..] == [];
      ChunkRows(lone, [], []);
    } else {
      ChunkedInOrder(NeedsIdentity(records, auto), columns, Tuples(records, columns));
    }
  }

  lemma NoneOrSome(lone: nat, n: nat)
    requires n >= 1
    ensures lone * n == 0 <==> lone == 0
    ensures n == 1 ==> lone * n == lone
  {
  }

  lemma {:induction false} WithCellsHas(columns: seq<Column>, r: Record, auto: set<Column>)
    ensures forall x :: x in WithCells(columns, r, auto) <==>
              x in columns || exists c :: c in r && c.column == x && Counts(c, auto)
    ensures NoRepeats(columns) ==> NoRepeats(WithCells(columns, r, auto))
    decreases |r|
  {
    if r != [] {
      WithCellsHas(columns, r[..|r| - 1], auto);
      assert r == r[..|r| - 1] + [Last(r)];
      assert Last(r) in r;
    }
  }

  /** The columns are the union of the records' columns, each once. */
  lemma {:induction false} ColumnsAreUnion(records: seq<Record>, auto: set<Column>)
    ensures NoRepeats(Columns(records, auto))
    ensures forall x :: x in Columns(records, auto) <==>
              exists r, c :: r in records && !LoneNull(r, auto) && c in r && c.column == x &&
                             (c.value.Some? || x !in auto)
    decreases |records|
  {
    if records != [] {
      var before, r := records[..|records| - 1], Last(records);
      ColumnsAreUnion(before, auto);
      WithCellsHas(Columns(before, auto), r, auto);
      assert records == before + [r] && r in records;
    }
  }

  /** The columns of a record that count, in order. */
  function Counted(r: Record, auto: set<Column>): seq<Column> {
    if r == [] then []
    else
      Counted(r[..|r| - 1], auto) +
      if Last(r).value.Some? || Last(r).column !in auto then [Last(r).column] else []
  }

  function AllCounted(records: seq<Record>, auto: set<Column>): seq<Column> {
    if records == [] then []
    else
      AllCounted(records[..|records| - 1], auto) +
      if LoneNull(Last(records), auto) then [] else Counted(Last(records), auto)
  }

  /** They are in the order in which the records first name them. */
  lemma {:induction false} ColumnsInOrder(records: seq<Record>, auto: set<Column>)
    ensures Columns(records, auto) == Distinct(AllCounted(records, auto))
    decreases |records|
  {
    if records != [] {
      var before, r := records[..|records| - 1], Last(records);
      ColumnsInOrder(before, auto);
      if LoneNull(r, auto) {
        assert AllCounted(records, auto) == AllCounted(before, auto);
      } else {
        WithCellsInOrder(AllCounted(before, auto), r, auto);
      }
    }
  }

  lemma {:induction false} WithCellsInOrder(names: seq<Column>, r: Record, auto: set<Column>)
    ensures WithCells(Distinct(names), r, auto) == Distinct(names + Counted(r, auto))
    decreases |r|
  {
    if r == [] {
      assert names + [] == names;
    } else {
      var before, x := Counted(r[..|r| - 1], auto), Last(r).column;
      WithCellsInOrder(names, r[..|r| - 1], auto);
      if Counts(Last(r), auto) {
        assert Counted(r, auto) == before + [x] && names + Counted(r, auto) == names + before + [x];
        assert (names + before + [x])[..|names + before|] == names + before;
      } else {
        assert Counted(r, auto) == before;
      }
    }
  }

  /** The special case is a record of one property, a null for the auto-increment column. */
  lemma LoneNullMeans(r: Record, auto: set<Column>)
    ensures LoneNull(r, auto) <==> exists x :: x in auto && r == [Cell(x, None)]
  {
    if LoneNull(r, auto) { assert r == [Cell(r[0].column, None)]; }
  }

  /** A record is an object. */
  predicate OneValueEach(r: Record) {
    forall i, j :: 0 <= i < j < |r| ==> r[i].column != r[j].column
  }

  /** A row has a record's value for each column that the record names, and null for the others. */
  lemma {:induction false} ValueOfMeans(r: Record, x: Column)
    requires OneValueEach(r)
    ensures forall c :: c in r && c.column == x ==> ValueOf(r, x) == c.value
    ensures (forall c :: c in r ==> c.column != x) ==> ValueOf(r, x) == None
  {
    if r != [] {
      assert forall i :: 0 <= i < |r[1..]| ==> r[1..][i] == r[i + 1];
      ValueOfMeans(r[1..], x);
    }
  }

  lemma {:induction false} GivenIsSent(records: seq<Record>, auto: set<Column>) returns (i: nat, k: nat)
    requires NeedsIdentity(records, auto) && forall r :: r in records ==> OneValueEach(r)
    ensures i < |records| && k < |Columns(records, auto)| && Columns(records, auto)[k] in auto
    ensures ValueOf(records[i], Columns(records, auto)[k]).Some?
  {
    ColumnsAreUnion(records, auto);
    hide Columns, LoneNull, ValueOf;
    var r, c :| r in records && !LoneNull(r, auto) && c in r && c.value.Some? && c.column in auto;
    ValueOfMeans(r, c.column);
    i :| i < |records| && records[i] == r;
    k :| k < |Columns(records, auto)| && Columns(records, auto)[k] == c.column;
  }

  lemma {:induction false} SentIsGiven(records: seq<Record>, auto: set<Column>, i: nat, k: nat)
    requires i < |records| && OneValueEach(records[i])
    requires k < |Columns(records, auto)| && Columns(records, auto)[k] in auto
    requires ValueOf(records[i], Columns(records, auto)[k]).Some?
    ensures NeedsIdentity(records, auto)
  {
    hide Columns, ValueOf;
    var r, x := records[i], Columns(records, auto)[k];
    ValueOfMeans(r, x);
    var c :| c in r && c.column == x && c.value.Some?;
    assert r in records && !LoneNull(r, auto);
  }

  /** Identity values are announced if and only if a row that is sent has one. */
  lemma {:induction false} IdentityWhenSent(records: seq<Record>, auto: set<Column>)
    requires forall r :: r in records ==> OneValueEach(r)
    ensures NeedsIdentity(records, auto) <==>
            var columns := Columns(records, auto); var rows := Tuples(records, columns);
            exists i, k :: 0 <= i < |rows| && 0 <= k < |columns| && columns[k] in auto && rows[i][k].Some?
    ensures forall c :: c in Commands(records, auto) ==> (c.identity <==> NeedsIdentity(records, auto))
  {
    hide Columns, NeedsIdentity, LoneNulls, LoneNull, ValueOf, OneValueEach, Chunked;
    var columns := Columns(records, auto);
    var rows: seq<seq<Option<Value>>> := Tuples(records, columns);
    if NeedsIdentity(records, auto) { var i, k := GivenIsSent(records, auto); }
    if i: nat, k: nat :| i < |rows| && k < |columns| && columns[k] in auto && rows[i][k].Some? {
      SentIsGiven(records, auto, i, k);
    }
    ChunkedWellFormed(NeedsIdentity(records, auto), LoneNulls(records, auto), columns,
                      if columns == [] then [] else rows);
  }

  /** Without lone nulls: the statements together insert every record exactly once, in order, each with all its
      values that are not auto-increment nulls. */
  lemma {:induction false} RecordsInOrder(records: seq<Record>, auto: set<Column>)
    requires Columns(records, auto) != [] && forall r :: r in records ==> !LoneNull(r, auto)
    ensures var columns, commands := Columns(records, auto), Commands(records, auto);
            && Inserted(commands) == seq(|records|, k requires 0 <= k < |records| => Some(Tuple(records[k], columns)))
            && (|records| <= MAX_ROWS ==> |commands| == 1 && |commands[0].statements| == 1)
            && forall r, c :: r in records && c in r && Counts(c, auto) ==> c.column in columns
  {
    var columns := Columns(records, auto);
    UnmixedInOrder(records, auto);
    LoneNullsBound(records, auto);
    ColumnsAreUnion(records, auto);
    assert Expected(records, auto) ==
           seq(|records|, k requires 0 <= k < |records| => Some(Tuple(records[k], columns)));
    var rows := Tuples(records, columns);
    if |records| <= MAX_ROWS { assert ChunkOf(0, columns, rows) == [Values(columns, rows)]; }
  }

  datatype Refusal = NeedsTransaction

  /** `bulkInsert`. Refused for too many records outside a transaction. What is sent otherwise inserts over the union of
      the columns, at most 1000 rows a statement, in more than one command only inside a transaction; it inserts
      every record once, in order, if and only if the records are unmixed. */
  method BulkInsert(records: seq<Record>, auto: set<Column>, inTransaction: bool)
    returns (result: Result<seq<Command>, Refusal>)
    ensures result.Err? <==> |records| > 1000 && !inTransaction
    ensures result.Ok? ==>
              && (Inserted(result.value) == Expected(records, auto) <==> Unmixed(records, auto))
              && (|result.value| > 1 ==> inTransaction)
              && (Columns(records, auto) == [] ==> |result.value| == 1)
              && (Columns(records, auto) != [] && records != [] ==>
                    1000 * (|result.value| - 1) < |records| <= 1000 * |result.value|)
              && forall c :: c in result.value ==> WellFormed(c, NeedsIdentity(records, auto), Columns(records, auto))
  {
    if |records| > MAX_ROWS && !inTransaction {
      return Err(NeedsTransaction);
    }
    var commands := BulkInsertQuery(records, auto);
    hide Columns, LoneNulls, Chunked, Inserted, LoneNull, NeedsIdentity;
    ghost var columns, lone := Columns(records, auto), LoneNulls(records, auto);
    ghost var rows := if columns == [] then [] else Tuples(records, columns);
    EveryRecordOnce(records, auto);
    ChunkedCounts(NeedsIdentity(records, auto), lone, columns, rows);
    ChunkedWellFormed(NeedsIdentity(records, auto), lone, columns, rows);
    result := Ok(commands);
  }

  /** A lone null beside a record with a column is inserted twice. */
  lemma LoneNullIsRepeated()
    ensures var records := [[Cell(0, None)], [Cell(1, Some(5))]];
            |Inserted(Commands(records, {0}))| == 3
  {
    var records := [[Cell(0, None)], [Cell(1, Some(5))]];
    var first, second := records[0], records[1];
    assert records[..|records| - 1] == [first] && Last(records) == second && [first][..0] == [] && second[..0] == [];
    assert LoneNull(first, {0}) && !LoneNull(second, {0});
    assert LoneNulls([first], {0}) == 1 && LoneNulls(records, {0}) == 1;
    var none: seq<Column> := [];
    assert Last(second) == Cell(1, Some(5)) && WithCells(none, second[..0], {0}) == none && none + [1] == [1];
    assert WithCells(none, second, {0}) == [1];
    assert Columns([first], {0}) == none;
    assert Columns(records, {0}) == WithCells(Columns(records[..|records| - 1], {0}), Last(records), {0});
    ChunkedCounts(NeedsIdentity(records, {0}), 1, [1], Tuples(records, [1]));
    assert |Chunked(NeedsIdentity(records, {0}), 1, [1], Tuples(records, [1]))| == 1;
  }
}
