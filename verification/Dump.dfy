/**
 The pure-Python dump as a script that transforms databases.

 Statements other than the data section are kept as values; the data section is kept as text and is executed
 by reading it back. The script is one transaction: a statement that fails leaves the database unchanged.
 */
module Dump {
  import opened Prelude
  import opened SqlText
  import opened SqlRoundTrip
  import opened Batching

  /** The sequence behind a serial column: its name as PostgreSQL prints it in the default, and its greatest value. */
  datatype Sequence = Sequence(name: string, top: int)

  datatype Column = Column(name: string, ty: ColumnType, sequence: Option<Sequence>)

  datatype Table = Table(name: string, columns: seq<Column>)

  /**
   `wired` gives the sequence behind a serial column of a table, `next[s]` is the value the next `nextval(s)` returns, and
   `top[s]` the greatest value of the sequence.
   */
  datatype Database = Database(
    rows: map<string, seq<Row>>, wired: map<(string, string), string>, next: map<string, int>, top: map<string, int>)

  const EXCLUDED_TABLES: set<string> := {"backup_logs"}

  function ColumnNames(t: Table): seq<string> {
    seq(|t.columns|, i requires 0 <= i < |t.columns| => t.columns[i].name)
  }

  function ColumnTypes(t: Table): seq<ColumnType> {
    seq(|t.columns|, i requires 0 <= i < |t.columns| => t.columns[i].ty)
  }

  predicate IsDumped(t: Table) { t.name !in EXCLUDED_TABLES && t.columns != [] }

  function Names(tables: seq<Table>): set<string> { set t <- tables :: t.name }

  /** The sequences of the columns, column by column. */
  function ColumnSequences(columns: seq<Column>): seq<string> {
    if columns == [] then []
    else (if columns[0].sequence.Some? then [columns[0].sequence.value.name] else []) + ColumnSequences(columns[1..])
  }

  function Sequences(tables: seq<Table>): seq<string> {
    if tables == [] then [] else ColumnSequences(tables[0].columns) + Sequences(tables[1..])
  }

  predicate Distinct<T(==)>(s: seq<T>) { forall i, j :: 0 <= i < j < |s| ==> s[i] != s[j] }

  predicate DistinctNames(tables: seq<Table>) {
    forall i, j :: 0 <= i < j < |tables| ==> tables[i].name != tables[j].name
  }

  /**
   Names PostgreSQL accepts, no two tables of one name, no two columns of one name in a table, no sequence shared by two
   columns or named like a table, and sequence names printed as identifiers (an odd one is double-quoted, never
   single-quoted).
   */
  predicate WellFormed(tables: seq<Table>) {
    && tables != []
    && (forall t <- tables :: GoodName(t.name) && forall c <- t.columns :: GoodName(c.name))
    && DistinctNames(tables)
    && (forall t <- tables :: Distinct(ColumnNames(t)))
    && Distinct(Sequences(tables))
    && (forall s <- Sequences(tables) :: s !in Names(tables))
    && (forall s <- Sequences(tables) :: s != "" && s[0] != '\'')
    && forall t <- tables, c <- t.columns :: c.sequence.Some? ==> c.sequence.value.top >= 1
  }

  /** `d` holds exactly the tables of the catalogue and every row fits its columns. */
  predicate Conforms(tables: seq<Table>, d: Database) {
    && d.rows.Keys == Names(tables)
    && forall t <- tables, row <- d.rows[t.name] :: RowStorable(ColumnTypes(t), row)
  }

  // ---------------------------------------------------------------- the script

  datatype Statement =
    | Begin
    | SetSession(setting: string)
    | CreateIfMissing(table: Table)
    | TruncateRestartIdentity(names: seq<string>)
    | Data(text: string)
    | SetVal(argument: string, value: int)
    | Commit

  function DumpedRows(t: Table, d: Database): seq<Row>
    requires t.name in d.rows
  {
    if IsDumped(t) then d.rows[t.name] else []
  }

  function TableParts(t: Table, batches: seq<seq<Row>>): seq<Part> {
    seq(|batches|, i requires 0 <= i < |batches| => Part(t.name, ColumnNames(t), batches[i]))
  }

  function Parts(tables: seq<Table>, d: Database): seq<Part>
    requires Names(tables) <= d.rows.Keys
  {
    if tables == [] then []
    else
      assert tables[0] in tables && Names(tables[1..]) <= Names(tables);
      TableParts(tables[0], Batches(DumpedRows(tables[0], d))) + Parts(tables[1..], d)
  }

  /** The rows the parts print for one table, in order. */
  function RowsFor(parts: seq<Part>, name: string): seq<Row> {
    if parts == [] then [] else (if parts[0].table == name then parts[0].rows else []) + RowsFor(parts[1..], name)
  }

  /** `COALESCE(MAX(column), 0)`: the largest number of a column, where 0 also stands in for an empty column. */
  function ColumnMax(rows: seq<Row>, column: nat): Option<int> {
    if rows == [] then None
    else
      var before := ColumnMax(rows[..|rows| - 1], column);
      var row := rows[|rows| - 1];
      if column < |row| && row[column].Int? then
        if before.Some? && before.value > row[column].i then before else Some(row[column].i)
      else before
  }

  function ResetValue(rows: seq<Row>, column: nat): int {
    match ColumnMax(rows, column) case None => 1 case Some(m) => m + 1
  }

  /** The first argument of `setval`: quoted as a string unless the name already carries double quotes. */
  function SetvalArgument(sequence: string): string {
    if '"' in sequence then sequence else "'" + sequence + "'"
  }

  /** The `setval` calls of the columns from position `from` on. */
  function ColumnResets(t: Table, rows: seq<Row>, from: nat): seq<(string, int)>
    requires from <= |t.columns|
    decreases |t.columns| - from
  {
    if from == |t.columns| then []
    else
      (if t.columns[from].sequence.Some? then [(t.columns[from].sequence.value.name, ResetValue(rows, from))] else [])
      + ColumnResets(t, rows, from + 1)
  }

  function Resets(tables: seq<Table>, d: Database): seq<(string, int)>
    requires Names(tables) <= d.rows.Keys
  {
    if tables == [] then []
    else
      assert tables[0] in tables && Names(tables[1..]) <= Names(tables);
      (if IsDumped(tables[0]) then ColumnResets(tables[0], d.rows[tables[0].name], 0) else []) + Resets(tables[1..], d)
  }

  function SetVals(resets: seq<(string, int)>): seq<Statement> {
    seq(|resets|, i requires 0 <= i < |resets| => SetVal(SetvalArgument(resets[i].0), resets[i].1))
  }

  function Creates(tables: seq<Table>): seq<Statement> {
    seq(|tables|, i requires 0 <= i < |tables| => CreateIfMissing(tables[i]))
  }

  function NameList(tables: seq<Table>): seq<string> {
    seq(|tables|, i requires 0 <= i < |tables| => tables[i].name)
  }

  const PRELUDE: seq<Statement> := [
    Begin, SetSession("client_encoding"), SetSession("standard_conforming_strings"),
    SetSession("check_function_bodies"), SetSession("client_min_messages"), SetSession("session_replication_role")]

  const EPILOGUE: seq<Statement> := [SetSession("session_replication_role"), Commit]

  function DumpScript(reserved: set<string>, tables: seq<Table>, d: Database): seq<Statement>
    requires Names(tables) <= d.rows.Keys
  {
    PRELUDE + Creates(tables)
    + [TruncateRestartIdentity(if tables == [] then ["nothing"] else NameList(tables))]
    + [Data(DataSql(reserved, Parts(tables, d)))]
    + SetVals(Resets(tables, d))
    + EPILOGUE
  }

  lemma TablePartTexts(reserved: set<string>, t: Table, batches: seq<seq<Row>>)
    ensures PartTexts(reserved, TableParts(t, batches)) ==
            BatchStatements(StatementHead(reserved, t.name, ColumnNames(t)), batches)
  {}

  lemma PartTextsConcat(reserved: set<string>, a: seq<Part>, b: seq<Part>)
    ensures PartTexts(reserved, a + b) == PartTexts(reserved, a) + PartTexts(reserved, b)
  {}

  lemma TablePartsStep(tables: seq<Table>, d: Database, i: nat)
    requires i < |tables| && Names(tables[i..]) <= d.rows.Keys
    ensures Names(tables[i + 1..]) <= Names(tables[i..]) && tables[i].name in d.rows
    ensures Parts(tables[i..], d) ==
            TableParts(tables[i], Batches(DumpedRows(tables[i], d))) + Parts(tables[i + 1..], d)
  {
    assert tables[i..][0] == tables[i] && tables[i..][1..] == tables[i + 1..];
    assert tables[i] in tables[i..];
    assert forall t <- tables[i + 1..] :: t in tables[i..];
  }

  lemma {:induction false} RowsForConcat(a: seq<Part>, b: seq<Part>, name: string)
    ensures RowsFor(a + b, name) == RowsFor(a, name) + RowsFor(b, name)
  {
    if a == [] {
      assert a + b == b;
    } else {
      assert (a + b)[0] == a[0] && (a + b)[1..] == a[1..] + b;
      RowsForConcat(a[1..], b, name);
    }
  }

  lemma {:induction false} RowsForTable(t: Table, batches: seq<seq<Row>>, name: string)
    ensures RowsFor(TableParts(t, batches), name) == if t.name == name then Flatten(batches) else []
  {
    var parts := TableParts(t, batches);
    if batches != [] {
      assert parts[1..] == TableParts(t, batches[1..]);
      RowsForTable(t, batches[1..], name);
    }
  }

  /** The data section prints every row of every table but `backup_logs` and tables without columns, once and in order. */
  lemma {:induction false} DataHoldsAllRows(tables: seq<Table>, d: Database, name: string)
    requires Names(tables) <= d.rows.Keys && DistinctNames(tables)
    ensures name !in Names(tables) ==> RowsFor(Parts(tables, d), name) == []
    ensures forall t <- tables :: t.name == name ==>
              RowsFor(Parts(tables, d), name) == if name == "backup_logs" || t.columns == [] then [] else d.rows[name]
  {
    if tables != [] {
      var t, tail := tables[0], tables[1..];
      assert t in tables && Names(tail) <= Names(tables);
      assert name in Names(tables) <==> t.name == name || name in Names(tail);
      DataHoldsAllRows(tail, d, name);
      BatchesPartition(DumpedRows(t, d));
      RowsForTable(t, Batches(DumpedRows(t, d)), name);
      RowsForConcat(TableParts(t, Batches(DumpedRows(t, d))), Parts(tail, d), name);
      assert forall u <- tables :: u == t || (u in tail && u.name != t.name);
      hide Batches, TableParts, RowsFor, DistinctNames;
      assert DumpedRows(t, d) == if t.name == "backup_logs" || t.columns == [] then [] else d.rows[t.name];
    }
  }

  /** The data section as the dumper assembles it: table after table, statement after statement. */
  method DataSection(reserved: set<string>, tables: seq<Table>, d: Database) returns (text: string)
    requires Names(tables) <= d.rows.Keys
    ensures text == DataSql(reserved, Parts(tables, d))
    ensures DistinctNames(tables) ==> forall t <- tables ::
              && t.name in d.rows
              && RowsFor(Parts(tables, d), t.name) ==
                 (if t.name == "backup_logs" || t.columns == [] then [] else d.rows[t.name])
  {
    if DistinctNames(tables) {
      forall t | t in tables
        ensures t.name in d.rows && RowsFor(Parts(tables, d), t.name) ==
                if t.name == "backup_logs" || t.columns == [] then [] else d.rows[t.name]
      {
        assert t.name in Names(tables);
        DataHoldsAllRows(tables, d, t.name);
      }
    }
    var dumpParts: seq<string> := [];
    ghost var done: seq<Part> := [];
    for i := 0 to |tables|
      invariant Names(tables[i..]) <= d.rows.Keys
      invariant dumpParts == PartTexts(reserved, done)
      invariant Parts(tables, d) == done + Parts(tables[i..], d)
    {
      var t := tables[i];
      TablePartsStep(tables, d, i);
      ghost var parts := TableParts(t, Batches(DumpedRows(t, d)));
      ghost var later := Parts(tables[i + 1..], d);
      if t.name !in EXCLUDED_TABLES && t.columns != [] {
        var head := StatementHead(reserved, t.name, ColumnNames(t));
        var statements := InsertStatements(head, d.rows[t.name]);
        TablePartTexts(reserved, t, Batches(d.rows[t.name]));
        dumpParts := dumpParts + statements;
      }
      PartTextsConcat(reserved, done, parts);
      ConcatAssoc(done, parts, later);
      done := done + parts;
    }
    assert done + [] == done;
    text := if dumpParts != [] then Join(dumpParts, "\n\n") else "-- no data";
  }

  // ---------------------------------------------------------------- execution

  function FindTable(tables: seq<Table>, name: string): Option<Table> {
    if tables == [] then None
    else if tables[0].name == name then Some(tables[0])
    else FindTable(tables[1..], name)
  }

  function ExecInsert(tables: seq<Table>, db: Database, insert: Insert): Option<Database> {
    match FindTable(tables, insert.table)
    case None => None
    case Some(t) =>
      if t.name !in db.rows || insert.columns != ColumnNames(t) then None
      else match CoerceRows(ColumnTypes(t), insert.rows)
        case None => None
        case Some(rows) => Some(db.(rows := db.rows[t.name := db.rows[t.name] + rows]))
  }

  function ExecInserts(tables: seq<Table>, db: Database, inserts: seq<Insert>): Option<Database>
    decreases |inserts|
  {
    if inserts == [] then Some(db)
    else match ExecInsert(tables, db, inserts[0])
      case None => None
      case Some(next) => ExecInserts(tables, next, inserts[1..])
  }

  /** A string constant names a sequence; a double-quoted name is a column reference and fails. */
  function ReadSequence(argument: string): Option<string> {
    if |argument| >= 2 && argument[0] == '\'' && argument[|argument| - 1] == '\'' then
      var inner := argument[1..|argument| - 1];
      if '\'' in inner || NUL in inner then None else Some(inner)
    else None
  }

  /** The name PostgreSQL gives to the sequence of a new serial column, unless it is taken. */
  function DefaultName(table: string, column: string): string { table + "_" + column + "_seq" }

  function Numbered(base: string, k: nat): string { if k == 0 then base else base + Decimal(k) }

  /** The first of `base`, `base1`, `base2`, ... from number `k` on that is not taken. */
  function NewName(taken: set<string>, base: string, k: nat): string
    decreases |taken|
  {
    if Numbered(base, k) !in taken then Numbered(base, k) else NewName(taken - {Numbered(base, k)}, base, k + 1)
  }

  function AddSequence(db: Database, key: (string, string), s: string, top: int): Database {
    db.(wired := db.wired[key := s], next := db.next[s := 1], top := db.top[s := top])
  }

  /** A new sequence for a serial column. */
  function CreateSequence(table: string, c: Column, db: Database): Database {
    match c.sequence
    case None => db
    case Some(sequence) =>
      AddSequence(db, (table, c.name), NewName(db.next.Keys + db.rows.Keys, DefaultName(table, c.name), 0), sequence.top)
  }

  function CreateSequences(table: string, columns: seq<Column>, db: Database): Database
    decreases |columns|
  {
    if columns == [] then db else CreateSequences(table, columns[1..], CreateSequence(table, columns[0], db))
  }

  /** A missing table is created with sequences of its own; a table that is there is left alone. */
  function CreateTable(t: Table, db: Database): Database {
    if t.name in db.rows then db else CreateSequences(t.name, t.columns, db.(rows := db.rows[t.name := []]))
  }

  function Truncated(db: Database, names: seq<string>): Database {
    var restarted := set k <- db.wired | k.0 in names :: db.wired[k];
    db.(rows := map n <- db.rows :: if n in names then [] else db.rows[n],
        next := map s <- db.next :: if s in restarted then 1 else db.next[s])
  }

  /** A sequence counts from 1 to its greatest value. */
  predicate InBounds(db: Database, s: string, value: int) {
    s in db.next && s in db.top && 1 <= value <= db.top[s]
  }

  function Exec(reserved: set<string>, tables: seq<Table>, db: Database, stmt: Statement): Option<Database> {
    match stmt
    case CreateIfMissing(t) => Some(CreateTable(t, db))
    case TruncateRestartIdentity(names) =>
      if exists n <- names :: n !in db.rows then None
      else Some(Truncated(db, names))
    case Data(text) =>
      (match ReadScript(reserved, text)
       case None => None
       case Some(inserts) => ExecInserts(tables, db, inserts))
    case SetVal(argument, value) =>
      (match ReadSequence(argument)
       case None => None
       case Some(s) => if InBounds(db, s, value) then Some(db.(next := db.next[s := value])) else None)
    case _ => Some(db)
  }

  function ExecAll(reserved: set<string>, tables: seq<Table>, db: Database, script: seq<Statement>): Option<Database>
    decreases |script|
  {
    if script == [] then Some(db)
    else match Exec(reserved, tables, db, script[0])
      case None => None
      case Some(next) => ExecAll(reserved, tables, next, script[1..])
  }

  /** Without a transaction, what was executed before a failing statement stays. */
  function ExecSome(reserved: set<string>, tables: seq<Table>, db: Database, script: seq<Statement>): Database
    decreases |script|
  {
    if script == [] then db
    else match Exec(reserved, tables, db, script[0])
      case None => db
      case Some(next) => ExecSome(reserved, tables, next, script[1..])
  }

  predicate IsTransaction(script: seq<Statement>) {
    |script| >= 2 && script[0].Begin? && script[|script| - 1].Commit?
  }

  /** A script that begins a transaction and commits it at its end takes effect as a whole or not at all. */
  function Load(reserved: set<string>, tables: seq<Table>, db: Database, script: seq<Statement>): Database {
    match ExecAll(reserved, tables, db, script)
    case Some(after) => after
    case None => if IsTransaction(script) then db else ExecSome(reserved, tables, db, script)
  }
}
