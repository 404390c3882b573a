/** What executing a dump does to a database: exactly when it succeeds, and what it then leaves behind. */
module DumpRestore {
  import opened Prelude
  import opened SqlText
  import opened SqlRoundTrip
  import opened Batching
  import opened Dump

  // ---------------------------------------------------------------- data

  /** The column types of each part, in the order of the parts. */
  function PartTypes(tables: seq<Table>, d: Database): seq<seq<ColumnType>>
    requires Names(tables) <= d.rows.Keys
  {
    if tables == [] then []
    else
      assert tables[0] in tables && Names(tables[1..]) <= Names(tables);
      seq(|Batches(DumpedRows(tables[0], d))|, _ => ColumnTypes(tables[0])) + PartTypes(tables[1..], d)
  }

  predicate TableFits(t: Table, d: Database) {
    && t.name in d.rows && GoodName(t.name) && (forall c <- t.columns :: GoodName(c.name))
    && forall row <- d.rows[t.name] :: RowStorable(ColumnTypes(t), row)
  }

  lemma {:induction false} FlattenMember<T>(groups: seq<seq<T>>, i: nat, j: nat)
    requires i < |groups| && j < |groups[i]|
    ensures groups[i][j] in Flatten(groups)
  {
    if i > 0 {
      FlattenMember(groups[1..], i - 1, j);
    }
  }

  lemma TablePartsGood(t: Table, d: Database)
    requires TableFits(t, d)
    ensures forall p <- TableParts(t, Batches(DumpedRows(t, d))) :: GoodPart(ColumnTypes(t), p)
  {
    var rows := DumpedRows(t, d);
    var batches := Batches(rows);
    BatchesPartition(rows);
    assert forall k :: 0 <= k < |t.columns| ==> t.columns[k] in t.columns && ColumnNames(t)[k] == t.columns[k].name;
    hide Batches, RowStorable, GoodName;
    forall i | 0 <= i < |batches|
      ensures GoodPart(ColumnTypes(t), TableParts(t, batches)[i])
    {
      assert batches[i] in batches && batches != [];
      forall j | 0 <= j < |batches[i]| ensures RowStorable(ColumnTypes(t), batches[i][j]) {
        FlattenMember(batches, i, j);
      }
      assert IsDumped(t) && |ColumnNames(t)| == |t.columns| > 0;
    }
  }

  lemma {:induction false} PartsGood(tables: seq<Table>, d: Database)
    requires Names(tables) <= d.rows.Keys && forall t <- tables :: TableFits(t, d)
    ensures |PartTypes(tables, d)| == |Parts(tables, d)|
    ensures forall i :: 0 <= i < |Parts(tables, d)| ==> GoodPart(PartTypes(tables, d)[i], Parts(tables, d)[i])
  {
    if tables != [] {
      var t := tables[0];
      TablePartsGood(t, d);
      PartsGood(tables[1..], d);
      var here := TableParts(t, Batches(DumpedRows(t, d)));
      forall i | 0 <= i < |Parts(tables, d)|
        ensures GoodPart(PartTypes(tables, d)[i], Parts(tables, d)[i])
      {
        if i < |here| {
          assert here[i] in here;
        }
      }
    }
  }

  lemma {:induction false} ExecInsertsConcat(tables: seq<Table>, db: Database, a: seq<Insert>, b: seq<Insert>)
    ensures ExecInserts(tables, db, a + b) ==
            match ExecInserts(tables, db, a) { case None => None case Some(mid) => ExecInserts(tables, mid, b) }
    decreases |a|
  {
    if a == [] {
      assert a + b == b;
    } else {
      assert (a + b)[0] == a[0] && (a + b)[1..] == a[1..] + b;
      match ExecInsert(tables, db, a[0])
      case None =>
      case Some(mid) => ExecInsertsConcat(tables, mid, a[1..], b);
    }
  }

  lemma {:induction false} FindsTable(tables: seq<Table>, i: nat)
    requires i < |tables|
    requires DistinctNames(tables)
    ensures FindTable(tables, tables[i].name) == Some(tables[i])
  {
    if i > 0 {
      FindsTable(tables[1..], i - 1);
    }
  }

  /** Executing the statements of one table appends its batches. */
  lemma {:induction false} TableLoads(tables: seq<Table>, t: Table, db: Database, batches: seq<seq<Row>>)
    requires FindTable(tables, t.name) == Some(t) && t.name in db.rows
    requires forall b <- batches :: RowsStorable(ColumnTypes(t), b)
    ensures ExecInserts(tables, db, InsertsOf(TableParts(t, batches))) ==
            Some(db.(rows := db.rows[t.name := db.rows[t.name] + Flatten(batches)]))
    decreases |batches|
  {
    if batches == [] {
      assert InsertsOf(TableParts(t, batches)) == [];
      assert db.rows[t.name] + [] == db.rows[t.name];
      assert db.rows[t.name := db.rows[t.name]] == db.rows;
    } else {
      var b := batches[0];
      var inserts := InsertsOf(TableParts(t, batches));
      assert inserts[1..] == InsertsOf(TableParts(t, batches[1..]));
      assert inserts[0] == Insert(t.name, ColumnNames(t), AllConstants(b));
      RowsCoerce(ColumnTypes(t), b);
      var mid := db.(rows := db.rows[t.name := db.rows[t.name] + b]);
      TableLoads(tables, t, mid, batches[1..]);
      ConcatAssoc(db.rows[t.name], b, Flatten(batches[1..]));
      assert mid.rows[t.name := mid.rows[t.name] + Flatten(batches[1..])]
          == db.rows[t.name := db.rows[t.name] + Flatten(batches)];
    }
  }

  /** The rows after loading the dumped rows of `tables`, table by table. */
  function LoadedRows(tables: seq<Table>, d: Database, rows: map<string, seq<Row>>): map<string, seq<Row>>
    requires Names(tables) <= d.rows.Keys && Names(tables) <= rows.Keys
  {
    if tables == [] then rows
    else
      var t := tables[0];
      assert t in tables && Names(tables[1..]) <= Names(tables);
      LoadedRows(tables[1..], d, rows[t.name := rows[t.name] + DumpedRows(t, d)])
  }

  lemma InsertsOfConcat(a: seq<Part>, b: seq<Part>)
    ensures InsertsOf(a + b) == InsertsOf(a) + InsertsOf(b)
  {}

  lemma TableStorable(t: Table, d: Database)
    requires TableFits(t, d)
    ensures forall b <- Batches(DumpedRows(t, d)) :: RowsStorable(ColumnTypes(t), b)
  {
    TablePartsGood(t, d);
    var batches := Batches(DumpedRows(t, d));
    forall b | b in batches ensures RowsStorable(ColumnTypes(t), b) {
      var i :| 0 <= i < |batches| && batches[i] == b;
      assert TableParts(t, batches)[i] in TableParts(t, batches);
    }
  }

  lemma {:induction false} TablesLoad(tables: seq<Table>, todo: seq<Table>, d: Database, db: Database)
    requires Names(todo) <= d.rows.Keys && Names(todo) <= db.rows.Keys
    requires forall t <- todo :: TableFits(t, d) && FindTable(tables, t.name) == Some(t)
    ensures ExecInserts(tables, db, InsertsOf(Parts(todo, d))) == Some(db.(rows := LoadedRows(todo, d, db.rows)))
    decreases |todo|
  {
    if todo == [] {
      assert InsertsOf(Parts(todo, d)) == [];
    } else {
      var t := todo[0];
      var batches := Batches(DumpedRows(t, d));
      TableStorable(t, d);
      BatchesPartition(DumpedRows(t, d));
      TableLoads(tables, t, db, batches);
      var mid := db.(rows := db.rows[t.name := db.rows[t.name] + DumpedRows(t, d)]);
      InsertsOfConcat(TableParts(t, batches), Parts(todo[1..], d));
      ExecInsertsConcat(tables, db, InsertsOf(TableParts(t, batches)), InsertsOf(Parts(todo[1..], d)));
      TablesLoad(tables, todo[1..], d, mid);
    }
  }

  lemma {:induction false} LoadedRowsAt(tables: seq<Table>, d: Database, rows: map<string, seq<Row>>)
    requires Names(tables) <= d.rows.Keys && Names(tables) <= rows.Keys
    requires DistinctNames(tables)
    ensures LoadedRows(tables, d, rows).Keys == rows.Keys
    ensures forall t <- tables :: LoadedRows(tables, d, rows)[t.name] == rows[t.name] + DumpedRows(t, d)
    ensures forall n <- rows :: n !in Names(tables) ==> LoadedRows(tables, d, rows)[n] == rows[n]
  {
    if tables != [] {
      var t := tables[0];
      assert t in tables && Names(tables[1..]) <= Names(tables);
      var rows' := rows[t.name := rows[t.name] + DumpedRows(t, d)];
      LoadedRowsAt(tables[1..], d, rows');
      assert t.name !in Names(tables[1..]);
      assert forall u <- tables[1..] :: rows'[u.name] == rows[u.name];
      assert forall u <- tables :: u == t || u in tables[1..];
    }
  }

  // ---------------------------------------------------------------- tables and sequences

  function SequenceSet(tables: seq<Table>): set<string> {
    set t <- tables, s <- ColumnSequences(t.columns) :: s
  }

  predicate Owned(db: Database, s: string) { exists k <- db.wired :: db.wired[k] == s }

  /** Every serial column has a sequence of its own, and there are no other sequences. */
  predicate WellWired(db: Database) {
    && (forall k <- db.wired, l <- db.wired :: db.wired[k] == db.wired[l] ==> k == l)
    && (forall k <- db.wired :: db.wired[k] in db.next)
    && (forall s <- db.next :: s in db.top && Owned(db, s))
    && (forall s <- db.top :: s in db.next)
  }

  /** The column has a sequence, if it is serial, of the column's own size. */
  predicate Serves(db: Database, table: string, c: Column) {
    c.sequence.Some? ==>
      && (table, c.name) in db.wired && db.wired[(table, c.name)] in db.top
      && db.top[db.wired[(table, c.name)]] == c.sequence.value.top
  }

  predicate SerialColumn(tables: seq<Table>, present: set<string>, key: (string, string)) {
    exists t <- tables, c <- t.columns :: t.name in present && c.sequence.Some? && key == (t.name, c.name)
  }

  predicate OnlySerial(tables: seq<Table>, db: Database) {
    forall k <- db.wired :: SerialColumn(tables, db.rows.Keys, k)
  }

  predicate AllServed(tables: seq<Table>, db: Database) {
    forall t <- tables, c <- t.columns :: t.name in db.rows ==> Serves(db, t.name, c)
  }

  /** `db` has some or all of the catalogue's tables with their sequences, whatever these are called, and nothing else. */
  predicate IsTarget(tables: seq<Table>, db: Database) {
    db.rows.Keys <= Names(tables) && WellWired(db) && OnlySerial(tables, db) && AllServed(tables, db)
  }

  /** Every table empty and every sequence restarted. */
  function Blank(tables: seq<Table>, db: Database): Database {
    db.(rows := map n <- Names(tables) :: [], next := map s <- db.next :: 1)
  }

  lemma {:induction false} NewNameIsFree(taken: set<string>, base: string, k: nat) returns (m: nat)
    ensures m >= k && NewName(taken, base, k) == Numbered(base, m) && NewName(taken, base, k) !in taken
    decreases |taken|
  {
    m := k;
    if Numbered(base, k) in taken {
      m := NewNameIsFree(taken - {Numbered(base, k)}, base, k + 1);
      NumberedDiffers(base, k, m);
    }
  }

  lemma NumberedDiffers(base: string, k: nat, m: nat)
    requires k < m
    ensures Numbered(base, k) != Numbered(base, m)
  {
    DecimalReads(m);
    if k > 0 {
      DecimalReads(k);
      assert Numbered(base, k)[|base|..] == Decimal(k) && Numbered(base, m)[|base|..] == Decimal(m);
    }
  }

  /** What was there before is as it was. */
  predicate Extends(before: Database, after: Database) {
    && (forall k <- before.wired :: k in after.wired && after.wired[k] == before.wired[k])
    && (forall s <- before.top :: s in after.top && after.top[s] == before.top[s])
  }

  lemma ExtendsTransitive(a: Database, b: Database, c: Database)
    requires Extends(a, b) && Extends(b, c)
    ensures Extends(a, c)
  {}

  lemma ServesStays(a: Database, b: Database, table: string, c: Column)
    requires Extends(a, b) && Serves(a, table, c)
    ensures Serves(b, table, c)
  {}

  lemma SequenceAdded(db: Database, key: (string, string), s: string, top: int)
    requires WellWired(db) && key !in db.wired && s !in db.next
    ensures WellWired(AddSequence(db, key, s, top)) && Extends(db, AddSequence(db, key, s, top))
  {
    var after := AddSequence(db, key, s, top);
    SequenceExtends(db, key, s, top);
    hide Extends, Owned;
    forall k, l | k in after.wired && l in after.wired && after.wired[k] == after.wired[l] ensures k == l {}
    hide AddSequence;
    forall x | x in after.next ensures x in after.top && Owned(after, x) {
      OwnerAdded(db, key, s, top, x);
    }
    OnlyAdded(db, key, s, top);
  }

  lemma SequenceExtends(db: Database, key: (string, string), s: string, top: int)
    requires WellWired(db) && key !in db.wired && s !in db.next
    ensures Extends(db, AddSequence(db, key, s, top))
  {
    hide Owned;
  }

  lemma OnlyAdded(db: Database, key: (string, string), s: string, top: int)
    requires WellWired(db)
    ensures var after := AddSequence(db, key, s, top);
            && (forall k <- after.wired :: after.wired[k] in after.next)
            && (forall x <- after.top :: x in after.next)
            && (forall x <- after.next :: x in after.top && (x == s || Owned(db, x)))
  {
    hide Owned;
  }

  lemma OwnerAdded(db: Database, key: (string, string), s: string, top: int, x: string)
    requires key !in db.wired && (x == s || Owned(db, x))
    ensures Owned(AddSequence(db, key, s, top), x)
  {
    var after := AddSequence(db, key, s, top);
    if x == s {
      assert after.wired[key] == s;
    } else {
      var k :| k in db.wired && db.wired[k] == x;
      assert after.wired[k] == x;
    }
  }

  predicate KeyOf(table: string, c: Column, key: (string, string)) { c.sequence.Some? && key == (table, c.name) }

  lemma ColumnCreated(table: string, c: Column, db: Database)
    requires WellWired(db) && (table, c.name) !in db.wired
    ensures var after := CreateSequence(table, c, db);
            && WellWired(after) && Extends(db, after) && Serves(after, table, c) && after.rows == db.rows
            && forall k <- after.wired :: k in db.wired || KeyOf(table, c, k)
  {
    if c.sequence.Some? {
      var taken := db.next.Keys + db.rows.Keys;
      var m := NewNameIsFree(taken, DefaultName(table, c.name), 0);
      hide WellWired, Extends, NewName;
      SequenceAdded(db, (table, c.name), NewName(taken, DefaultName(table, c.name), 0), c.sequence.value.top);
    }
  }

  predicate DistinctColumns(columns: seq<Column>) {
    forall i, j :: 0 <= i < j < |columns| ==> columns[i].name != columns[j].name
  }

  lemma {:induction false} SequencesCreated(table: string, columns: seq<Column>, db: Database)
    requires WellWired(db) && DistinctColumns(columns) && forall c <- columns :: (table, c.name) !in db.wired
    ensures var after := CreateSequences(table, columns, db);
            && WellWired(after) && Extends(db, after) && after.rows == db.rows
            && (forall c <- columns :: Serves(after, table, c))
            && forall k <- after.wired :: k in db.wired || exists c <- columns :: KeyOf(table, c, k)
    decreases |columns|
  {
    if columns != [] {
      var c, rest := columns[0], columns[1..];
      assert c in columns && forall e <- columns :: e == c || e in rest;
      assert forall e <- rest :: e in columns && e.name != c.name;
      ColumnCreated(table, c, db);
      var mid := CreateSequence(table, c, db);
      hide WellWired, CreateSequence, Serves, DistinctColumns;
      SequencesCreated(table, rest, mid);
      var after := CreateSequences(table, rest, mid);
      ServesStays(mid, after, table, c);
      ExtendsTransitive(db, mid, after);
      hide Extends, KeyOf;
    }
  }

  lemma {:induction false} ExecConcat(
    reserved: set<string>, tables: seq<Table>, db: Database, a: seq<Statement>, b: seq<Statement>)
    ensures ExecAll(reserved, tables, db, a + b) ==
            match ExecAll(reserved, tables, db, a) { case None => None case Some(m) => ExecAll(reserved, tables, m, b) }
    decreases |a|
  {
    if a == [] {
      assert a + b == b;
    } else {
      assert (a + b)[0] == a[0] && (a + b)[1..] == a[1..] + b;
      match Exec(reserved, tables, db, a[0])
      case None =>
      case Some(m) => ExecConcat(reserved, tables, m, a[1..], b);
    }
  }

  lemma ExecOne(reserved: set<string>, tables: seq<Table>, db: Database, stmt: Statement)
    ensures ExecAll(reserved, tables, db, [stmt]) == Exec(reserved, tables, db, stmt)
  {}

  predicate IsSession(stmt: Statement) { stmt.Begin? || stmt.SetSession? || stmt.Commit? }

  lemma {:induction false} SessionExec(reserved: set<string>, tables: seq<Table>, db: Database, script: seq<Statement>)
    requires forall s <- script :: IsSession(s)
    ensures ExecAll(reserved, tables, db, script) == Some(db)
    decreases |script|
  {
    if script != [] {
      assert script[0] in script;
      SessionExec(reserved, tables, db, script[1..]);
    }
  }

  lemma ColumnNamesDistinct(t: Table)
    requires Distinct(ColumnNames(t))
    ensures DistinctColumns(t.columns)
  {
    assert forall i :: 0 <= i < |t.columns| ==> ColumnNames(t)[i] == t.columns[i].name;
  }

  /** The database after the CREATE statements of some tables. */
  function Created(todo: seq<Table>, db: Database): Database
    decreases |todo|
  {
    if todo == [] then db else Created(todo[1..], CreateTable(todo[0], db))
  }

  lemma CreateKeepsTarget(tables: seq<Table>, db: Database, t: Table)
    requires WellFormed(tables) && IsTarget(tables, db) && t in tables
    ensures var after := CreateTable(t, db);
            IsTarget(tables, after) && after.rows.Keys == db.rows.Keys + {t.name} && Extends(db, after)
  {
    hide AllServed, OnlySerial, WellWired, Extends, CreateSequences, DistinctColumns;
    if t.name in db.rows {
      ExtendsSelf(db);
    } else {
      assert WellFormed(tables) && t.name in Names(tables);
      OneTable(tables, t);
      ColumnNamesDistinct(t);
      hide WellFormed, Names;
      var started := db.(rows := db.rows[t.name := []]);
      RowsDoNotMatter(db, started.rows);
      StartedKeys(tables, db, t);
      SequencesCreated(t.name, t.columns, started);
      var after := CreateSequences(t.name, t.columns, started);
      ExtendsStarted(db, started, after);
      KeepsSerial(tables, db, t, after);
      KeepsServed(tables, db, t, after);
    }
  }

  lemma ExtendsSelf(db: Database)
    ensures Extends(db, db)
  {}

  lemma ExtendsStarted(db: Database, started: Database, after: Database)
    requires Extends(started, after) && started.wired == db.wired && started.top == db.top
    ensures Extends(db, after)
  {}

  lemma KeepsSerial(tables: seq<Table>, db: Database, t: Table, after: Database)
    requires t in tables && OnlySerial(tables, db) && after.rows.Keys == db.rows.Keys + {t.name}
    requires forall k <- after.wired :: k in db.wired || exists c <- t.columns :: KeyOf(t.name, c, k)
    ensures OnlySerial(tables, after)
  {
    hide SerialColumn, KeyOf;
    forall k | k in after.wired ensures SerialColumn(tables, after.rows.Keys, k) {
      if k in db.wired {
        SerialGrows(tables, db.rows.Keys, after.rows.Keys, k);
      } else {
        var c :| c in t.columns && KeyOf(t.name, c, k);
        KeyIsSerial(tables, after.rows.Keys, t, c, k);
      }
    }
  }

  lemma KeepsServed(tables: seq<Table>, db: Database, t: Table, after: Database)
    requires AllServed(tables, db) && Extends(db, after) && after.rows.Keys == db.rows.Keys + {t.name}
    requires forall u <- tables :: u.name == t.name ==> u == t
    requires forall c <- t.columns :: Serves(after, t.name, c)
    ensures AllServed(tables, after)
  {
    hide Serves, Extends;
    forall u, c | u in tables && c in u.columns && u.name in after.rows ensures Serves(after, u.name, c) {
      if u.name in db.rows {
        ServesStays(db, after, u.name, c);
      }
    }
  }

  lemma RowsDoNotMatter(db: Database, rows: map<string, seq<Row>>)
    requires WellWired(db)
    ensures WellWired(db.(rows := rows))
  {}

  lemma KeyIsSerial(tables: seq<Table>, present: set<string>, t: Table, c: Column, key: (string, string))
    requires t in tables && c in t.columns && t.name in present && KeyOf(t.name, c, key)
    ensures SerialColumn(tables, present, key)
  {}

  lemma SerialGrows(tables: seq<Table>, a: set<string>, b: set<string>, key: (string, string))
    requires SerialColumn(tables, a, key) && a <= b
    ensures SerialColumn(tables, b, key)
  {}

  /** A table that is not there has no sequences. */
  lemma StartedKeys(tables: seq<Table>, db: Database, t: Table)
    requires OnlySerial(tables, db) && t.name !in db.rows
    ensures forall c <- t.columns :: (t.name, c.name) !in db.wired
  {}

  lemma OneTable(tables: seq<Table>, t: Table)
    requires DistinctNames(tables) && t in tables
    ensures forall u <- tables :: u.name == t.name ==> u == t
  {}

  /** Creating never fails: tables that are there stay as they are, the others get sequences of their own. */
  lemma {:induction false} CreatesExec(reserved: set<string>, tables: seq<Table>, todo: seq<Table>, db: Database)
    requires WellFormed(tables) && IsTarget(tables, db) && forall t <- todo :: t in tables
    ensures ExecAll(reserved, tables, db, Creates(todo)) == Some(Created(todo, db))
    ensures var after := Created(todo, db);
            IsTarget(tables, after) && after.rows.Keys == db.rows.Keys + Names(todo) && Extends(db, after)
    decreases |todo|
  {
    hide IsTarget, WellFormed, CreateTable;
    if todo != [] {
      assert todo[0] in todo && forall t <- todo[1..] :: t in todo;
      CreateKeepsTarget(tables, db, todo[0]);
      var mid := CreateTable(todo[0], db);
      CreatesHead(todo);
      CreatesExec(reserved, tables, todo[1..], mid);
      ExtendsTransitive(db, mid, Created(todo[1..], mid));
      assert Names(todo) == {todo[0].name} + Names(todo[1..]) by {
        assert forall t <- todo :: t == todo[0] || t in todo[1..];
      }
    }
  }

  lemma CreatesHead(todo: seq<Table>)
    requires todo != []
    ensures Creates(todo) != [] && Creates(todo)[0] == CreateIfMissing(todo[0]) && Creates(todo)[1..] == Creates(todo[1..])
  {}

  lemma NameListMembers(tables: seq<Table>)
    ensures forall n :: n in NameList(tables) <==> n in Names(tables)
  {
    forall n | n in Names(tables) ensures n in NameList(tables) {
      var i :| 0 <= i < |tables| && tables[i].name == n;
      assert NameList(tables)[i] == n;
    }
  }

  lemma KeysArePresent(tables: seq<Table>, db: Database)
    requires OnlySerial(tables, db)
    ensures forall k <- db.wired :: k.0 in db.rows
  {}

  lemma TruncatedIsBlank(tables: seq<Table>, db: Database)
    requires IsTarget(tables, db) && db.rows.Keys == Names(tables)
    ensures Truncated(db, NameList(tables)) == Blank(tables, db)
  {
    NameListMembers(tables);
    KeysArePresent(tables, db);
    AllRestarted(db, NameList(tables));
    hide NameList, Names, IsTarget, WellWired, OnlySerial, AllServed;
    TruncatedParts(db, NameList(tables), Names(tables));
  }

  lemma TruncatedParts(db: Database, names: seq<string>, all: set<string>)
    requires db.rows.Keys == all && forall n :: n in names <==> n in all
    requires forall s <- Truncated(db, names).next :: Truncated(db, names).next[s] == 1
    ensures Truncated(db, names) == db.(rows := map n <- all :: [], next := map s <- db.next :: 1)
  {
    var after := Truncated(db, names);
    var rows: map<string, seq<Row>> := map n <- all :: [];
    var next: map<string, int> := map s <- db.next :: 1;
    assert after.rows == rows;
    assert after.next == next;
  }

  /** Truncating every table restarts every sequence. */
  lemma AllRestarted(db: Database, names: seq<string>)
    requires WellWired(db) && forall k <- db.wired :: k.0 in names
    ensures forall s <- Truncated(db, names).next :: Truncated(db, names).next[s] == 1
  {
    forall s | s in db.next ensures Truncated(db, names).next[s] == 1 {
      OwnerOf(db, s);
    }
  }

  lemma TruncateExec(reserved: set<string>, tables: seq<Table>, db: Database)
    requires IsTarget(tables, db) && db.rows.Keys == Names(tables)
    ensures Exec(reserved, tables, db, TruncateRestartIdentity(NameList(tables))) == Some(Blank(tables, db))
  {
    NameListMembers(tables);
    TruncatedIsBlank(tables, db);
    hide IsTarget, Truncated, Blank;
  }

  // ---------------------------------------------------------------- sequence resets

  predicate Bare(sequence: string) { '"' !in sequence && '\'' !in sequence && NUL !in sequence }

  /** A reset that PostgreSQL carries out: a plain string that names a sequence, and a value of that sequence. */
  predicate Accepted(db: Database, reset: (string, int)) {
    Bare(reset.0) && InBounds(db, reset.0, reset.1)
  }

  lemma ArgumentReads(sequence: string)
    requires sequence != "" && sequence[0] != '\''
    ensures ReadSequence(SetvalArgument(sequence)) == if Bare(sequence) then Some(sequence) else None
  {
    if '"' !in sequence {
      assert SetvalArgument(sequence)[1..|sequence| + 1] == sequence;
    }
  }

  function ApplyResets(next: map<string, int>, resets: seq<(string, int)>): map<string, int>
    decreases |resets|
  {
    if resets == [] then next else ApplyResets(next[resets[0].0 := resets[0].1], resets[1..])
  }

  lemma {:induction false} ResetsExec(
    reserved: set<string>, tables: seq<Table>, db: Database, resets: seq<(string, int)>)
    requires forall r <- resets :: r.0 != "" && r.0[0] != '\''
    ensures ExecAll(reserved, tables, db, SetVals(resets)) ==
            if forall r <- resets :: Accepted(db, r) then Some(db.(next := ApplyResets(db.next, resets))) else None
    decreases |resets|
  {
    if resets != [] {
      var r := resets[0];
      ArgumentReads(r.0);
      assert SetVals(resets)[0] == SetVal(SetvalArgument(r.0), r.1) && SetVals(resets)[1..] == SetVals(resets[1..]);
      assert forall q <- resets :: q == r || q in resets[1..];
      assert r in resets;
      if Accepted(db, r) {
        var mid := db.(next := db.next[r.0 := r.1]);
        assert forall q <- resets :: Accepted(mid, q) <==> Accepted(db, q);
        ResetsExec(reserved, tables, mid, resets[1..]);
      }
    }
  }

  predicate Resetting(resets: seq<(string, int)>, s: string) { exists r <- resets :: r.0 == s }

  lemma {:induction false} ApplyResetsAt(next: map<string, int>, resets: seq<(string, int)>)
    requires DistinctLabels(resets)
    ensures forall r <- resets :: r.0 in ApplyResets(next, resets) && ApplyResets(next, resets)[r.0] == r.1
    ensures forall s <- next :: s in ApplyResets(next, resets)
                                && (!Resetting(resets, s) ==> ApplyResets(next, resets)[s] == next[s])
    decreases |resets|
  {
    if resets != [] {
      var r := resets[0];
      ApplyResetsAt(next[r.0 := r.1], resets[1..]);
      assert !Resetting(resets[1..], r.0);
      assert forall q <- resets :: q == r || q in resets[1..];
      assert r in resets;
      assert forall s :: Resetting(resets[1..], s) ==> Resetting(resets, s);
    }
  }

  lemma {:induction false} ColumnResetLabels(t: Table, rows: seq<Row>, from: nat)
    requires from <= |t.columns|
    ensures var resets := ColumnResets(t, rows, from);
            var labels := ColumnSequences(t.columns[from..]);
            |resets| == |labels| && forall i :: 0 <= i < |resets| ==> resets[i].0 == labels[i]
    ensures forall c :: from <= c < |t.columns| && t.columns[c].sequence.Some? ==>
              (t.columns[c].sequence.value.name, ResetValue(rows, c)) in ColumnResets(t, rows, from)
    decreases |t.columns| - from
  {
    if from < |t.columns| {
      ColumnResetLabels(t, rows, from + 1);
      assert t.columns[from..][1..] == t.columns[from + 1..];
    }
  }

  lemma {:induction false} SequencesOf(tables: seq<Table>)
    ensures forall s :: s in Sequences(tables) <==> s in SequenceSet(tables)
  {
    if tables != [] {
      SequencesOf(tables[1..]);
      assert forall t <- tables :: t == tables[0] || t in tables[1..];
      assert forall s :: s in Sequences(tables) <==> s in ColumnSequences(tables[0].columns) || s in Sequences(tables[1..]);
    }
  }

  lemma DistinctParts<T>(a: seq<T>, b: seq<T>)
    requires Distinct(a + b)
    ensures Distinct(a) && Distinct(b) && forall x <- a :: x !in b
  {
    forall i, j | 0 <= i < j < |a| ensures a[i] != a[j] { assert (a + b)[i] != (a + b)[j]; }
    forall i, j | 0 <= i < j < |b| ensures b[i] != b[j] { assert (a + b)[|a| + i] != (a + b)[|a| + j]; }
    forall i, j | 0 <= i < |a| && 0 <= j < |b| ensures a[i] != b[j] { assert (a + b)[i] != (a + b)[|a| + j]; }
  }

  predicate DistinctLabels(resets: seq<(string, int)>) {
    forall i, j :: 0 <= i < j < |resets| ==> resets[i].0 != resets[j].0
  }

  function OwnResets(t: Table, d: Database): seq<(string, int)>
    requires t.name in d.rows
  {
    if IsDumped(t) then ColumnResets(t, d.rows[t.name], 0) else []
  }

  lemma OwnResetLabels(t: Table, d: Database)
    requires t.name in d.rows && Distinct(ColumnSequences(t.columns))
    ensures DistinctLabels(OwnResets(t, d))
    ensures forall r <- OwnResets(t, d) :: r.0 in ColumnSequences(t.columns)
    ensures forall c :: IsDumped(t) && 0 <= c < |t.columns| && t.columns[c].sequence.Some? ==>
              (t.columns[c].sequence.value.name, ResetValue(d.rows[t.name], c)) in OwnResets(t, d)
  {
    if IsDumped(t) {
      assert t.columns[0..] == t.columns;
      ColumnResetLabels(t, d.rows[t.name], 0);
    }
  }

  /** No sequence is reset twice. */
  lemma {:induction false} ResetLabels(tables: seq<Table>, d: Database)
    requires Names(tables) <= d.rows.Keys && Distinct(Sequences(tables))
    ensures DistinctLabels(Resets(tables, d))
    ensures forall r <- Resets(tables, d) :: r.0 in Sequences(tables)
  {
    if tables != [] {
      var t, tail := tables[0], tables[1..];
      assert t in tables && Names(tail) <= Names(tables);
      DistinctParts(ColumnSequences(t.columns), Sequences(tail));
      ResetLabels(tail, d);
      OwnResetLabels(t, d);
      assert Resets(tables, d) == OwnResets(t, d) + Resets(tail, d);
    }
  }

  /** Every sequence of a dumped table is reset to its value, and no sequence of another table is reset. */
  lemma {:induction false} ResetCoverage(tables: seq<Table>, d: Database, t: Table)
    requires Names(tables) <= d.rows.Keys && Distinct(Sequences(tables)) && t in tables
    ensures forall c :: IsDumped(t) && 0 <= c < |t.columns| && t.columns[c].sequence.Some? ==>
              (t.columns[c].sequence.value.name, ResetValue(d.rows[t.name], c)) in Resets(tables, d)
    ensures forall s <- ColumnSequences(t.columns) :: !IsDumped(t) ==> !Resetting(Resets(tables, d), s)
  {
    var head, tail := tables[0], tables[1..];
    assert head in tables && Names(tail) <= Names(tables);
    DistinctParts(ColumnSequences(head.columns), Sequences(tail));
    OwnResetLabels(head, d);
    ResetLabels(tail, d);
    SequencesOf(tail);
    assert Resets(tables, d) == OwnResets(head, d) + Resets(tail, d);
    if t in tail {
      ResetCoverage(tail, d, t);
      assert forall s <- ColumnSequences(t.columns) :: s in Sequences(tail);
    }
  }

  lemma {:induction false} ColumnMaxIsMax(rows: seq<Row>, column: nat)
    ensures forall row: Row <- rows :: column < |row| && row[column].Int? ==>
              ColumnMax(rows, column).Some? && row[column].i <= ColumnMax(rows, column).value
    ensures ColumnMax(rows, column).Some? ==>
              exists row: Row <- rows :: column < |row| && row[column] == Int(ColumnMax(rows, column).value)
  {
    if rows != [] {
      var init, last := rows[..|rows| - 1], rows[|rows| - 1];
      ColumnMaxIsMax(init, column);
      assert forall row <- rows :: row in init || row == last;
      assert last in rows && forall row <- init :: row in rows;
    }
  }

  // ---------------------------------------------------------------- the whole script

  /** What a successful load of the dump of `d` leaves behind in `db`. */
  function Restored(tables: seq<Table>, d: Database, db: Database): Database
    requires Names(tables) <= d.rows.Keys
  {
    var blank := Blank(tables, Created(tables, db));
    blank.(rows := LoadedRows(tables, d, blank.rows), next := ApplyResets(blank.next, Resets(tables, d)))
  }

  /** After the CREATE statements, all the resets are carried out. */
  predicate AllAccepted(tables: seq<Table>, d: Database, db: Database)
    requires Names(tables) <= d.rows.Keys
  {
    forall r <- Resets(tables, d) :: Accepted(Created(tables, db), r)
  }

  /** After the CREATE statements, the dumped tables' serial columns have the sequences the dump names. */
  predicate Agrees(tables: seq<Table>, db: Database) {
    forall t <- tables, c <- t.columns :: IsDumped(t) ==> IsWired(Created(tables, db), t.name, c)
  }

  /** The column, if it is serial, draws from the sequence the dump names. */
  predicate IsWired(db: Database, table: string, c: Column) {
    c.sequence.Some? ==> (table, c.name) in db.wired && db.wired[(table, c.name)] == c.sequence.value.name
  }

  /**
   Every serial column of a dumped table has a sequence whose name needs no double quotes, and its largest number, if
   there is one, is neither negative nor the sequence's last.
   */
  predicate Restorable(tables: seq<Table>, d: Database)
    requires Names(tables) <= d.rows.Keys
  {
    forall t, c | t in tables && IsDumped(t) && 0 <= c < |t.columns| && t.columns[c].sequence.Some? ::
      t.name in d.rows && GoodReset(t.columns[c].sequence.value, ColumnMax(d.rows[t.name], c))
  }

  predicate GoodReset(s: Sequence, largest: Option<int>) {
    Bare(s.name) && (largest.Some? ==> 0 <= largest.value < s.top)
  }

  lemma {:induction false} NamedColumn(columns: seq<Column>, i: nat, j: nat)
    requires i < j < |columns| && Distinct(ColumnSequences(columns))
    requires columns[i].sequence.Some? && columns[j].sequence.Some?
    ensures columns[i].sequence.value.name != columns[j].sequence.value.name
  {
    var head := if columns[0].sequence.Some? then [columns[0].sequence.value.name] else [];
    var tail := ColumnSequences(columns[1..]);
    DistinctParts(head, tail);
    ColumnSequenceListed(columns[1..], j - 1);
    if i > 0 {
      NamedColumn(columns[1..], i - 1, j - 1);
    }
  }

  /** A sequence name belongs to one column of one table. */
  lemma {:induction false} NamedOnce(tables: seq<Table>, t: Table, i: nat, u: Table, j: nat)
    requires Distinct(Sequences(tables)) && t in tables && u in tables
    requires i < |t.columns| && t.columns[i].sequence.Some? && j < |u.columns| && u.columns[j].sequence.Some?
    requires t.columns[i].sequence.value.name == u.columns[j].sequence.value.name
    ensures t == u && i == j
  {
    var head, tail := tables[0], tables[1..];
    DistinctParts(ColumnSequences(head.columns), Sequences(tail));
    SequencesOf(tail);
    ColumnSequenceListed(t.columns, i);
    ColumnSequenceListed(u.columns, j);
    if t in tail && u in tail {
      NamedOnce(tail, t, i, u, j);
    } else {
      assert t == head && u == head;
      if i < j {
        NamedColumn(head.columns, i, j);
      }
      if j < i {
        NamedColumn(head.columns, j, i);
      }
    }
  }

  lemma {:induction false} ResetFromColumn(t: Table, rows: seq<Row>, from: nat, r: (string, int))
    returns (c: nat)
    requires from <= |t.columns| && r in ColumnResets(t, rows, from)
    ensures c < |t.columns| && t.columns[c].sequence.Some?
    ensures r == (t.columns[c].sequence.value.name, ResetValue(rows, c))
    decreases |t.columns| - from
  {
    if t.columns[from].sequence.Some? && r == (t.columns[from].sequence.value.name, ResetValue(rows, from)) {
      c := from;
    } else {
      c := ResetFromColumn(t, rows, from + 1, r);
    }
  }

  /** Every reset comes from a serial column of a dumped table. */
  lemma {:induction false} ResetOrigin(tables: seq<Table>, d: Database, r: (string, int)) returns (t: Table, c: nat)
    requires Names(tables) <= d.rows.Keys && r in Resets(tables, d)
    ensures t in tables && t.name in d.rows && IsDumped(t) && c < |t.columns| && t.columns[c].sequence.Some?
    ensures r == (t.columns[c].sequence.value.name, ResetValue(d.rows[t.name], c))
  {
    assert tables[0] in tables && Names(tables[1..]) <= Names(tables);
    if r in OwnResets(tables[0], d) {
      t := tables[0];
      c := ResetFromColumn(t, d.rows[t.name], 0, r);
    } else {
      t, c := ResetOrigin(tables[1..], d, r);
    }
  }

  lemma AcceptedIsGood(tables: seq<Table>, d: Database, db: Database, t: Table, c: nat)
    requires IsTarget(tables, db) && t in tables && t.name in db.rows && t.name in d.rows
    requires c < |t.columns| && t.columns[c].sequence.Some? && IsWired(db, t.name, t.columns[c])
    requires t.columns[c].sequence.value.top >= 1
    ensures var s := t.columns[c].sequence.value;
            Accepted(db, (s.name, ResetValue(d.rows[t.name], c))) <==> GoodReset(s, ColumnMax(d.rows[t.name], c))
  {
    hide ColumnMax, OnlySerial, Bare;
    assert t.columns[c] in t.columns && Serves(db, t.name, t.columns[c]);
  }

  /** Where the names agree, the resets are all carried out exactly when the stored numbers and the names allow it. */
  lemma AcceptedIffRestorable(tables: seq<Table>, d: Database, db: Database)
    requires WellFormed(tables) && Conforms(tables, d) && IsTarget(tables, db) && Agrees(tables, db)
    ensures AllAccepted(tables, d, db) <==> Restorable(tables, d)
  {
    hide Accepted, GoodReset, WellFormed, Resets, ResetValue, ColumnMax, IsTarget, IsWired, Created;
    var created := Created(tables, db);
    CreatesExec({}, tables, tables, db);
    forall t, c | t in tables && IsDumped(t) && 0 <= c < |t.columns| && t.columns[c].sequence.Some?
      ensures t.name in d.rows
      ensures (t.columns[c].sequence.value.name, ResetValue(d.rows[t.name], c)) in Resets(tables, d)
      ensures Accepted(created, (t.columns[c].sequence.value.name, ResetValue(d.rows[t.name], c)))
         <==> GoodReset(t.columns[c].sequence.value, ColumnMax(d.rows[t.name], c))
    {
      assert t.name in Names(tables) && t.columns[c] in t.columns;
      WellFormedIsDistinct(tables);
      ResetCoverage(tables, d, t);
      AcceptedIsGood(tables, d, created, t, c);
    }
    forall r | r in Resets(tables, d) && Restorable(tables, d) ensures Accepted(created, r) {
      var t, c := ResetOrigin(tables, d, r);
    }
  }

  lemma WellFormedIsDistinct(tables: seq<Table>)
    requires WellFormed(tables)
    ensures Distinct(Sequences(tables)) && DistinctNames(tables) && tables != []
    ensures forall t <- tables, c <- t.columns :: c.sequence.Some? ==> c.sequence.value.top >= 1
  {}

  lemma DataMeans(reserved: set<string>, tables: seq<Table>, db: Database, text: string, inserts: seq<Insert>)
    requires ReadScript(reserved, text) == Some(inserts)
    ensures Exec(reserved, tables, db, Data(text)) == ExecInserts(tables, db, inserts)
  {}

  lemma DataExec(reserved: set<string>, tables: seq<Table>, d: Database, blank: Database)
    requires WellFormed(tables) && Conforms(tables, d) && blank.rows == map n <- Names(tables) :: []
    ensures Exec(reserved, tables, blank, Data(DataSql(reserved, Parts(tables, d)))) ==
            Some(blank.(rows := LoadedRows(tables, d, blank.rows)))
  {
    assert forall t <- tables :: t.name in Names(tables);
    assert forall t <- tables :: TableFits(t, d);
    PartsGood(tables, d);
    DataSectionReads(reserved, PartTypes(tables, d), Parts(tables, d));
    DataMeans(reserved, tables, blank, DataSql(reserved, Parts(tables, d)), InsertsOf(Parts(tables, d)));
    forall t | t in tables ensures FindTable(tables, t.name) == Some(t) {
      var i :| 0 <= i < |tables| && tables[i] == t;
      FindsTable(tables, i);
    }
    TablesLoad(tables, tables, d, blank);
  }

  lemma SequenceExec(reserved: set<string>, tables: seq<Table>, d: Database, db: Database, loaded: Database)
    requires WellFormed(tables) && Conforms(tables, d)
    requires loaded.next.Keys == Created(tables, db).next.Keys && loaded.top == Created(tables, db).top
    ensures ExecAll(reserved, tables, loaded, SetVals(Resets(tables, d))) ==
            if AllAccepted(tables, d, db) then Some(loaded.(next := ApplyResets(loaded.next, Resets(tables, d)))) else None
  {
    hide Created, Resets;
    ResetLabels(tables, d);
    ResetsExec(reserved, tables, loaded, Resets(tables, d));
    assert forall r: (string, int) :: Accepted(loaded, r) <==> Accepted(Created(tables, db), r);
  }

  lemma DumpIsTransaction(reserved: set<string>, tables: seq<Table>, d: Database)
    requires Names(tables) <= d.rows.Keys
    ensures IsTransaction(DumpScript(reserved, tables, d))
  {
    hide Creates, DataSql, SetVals, NameList, Resets;
  }

  lemma DumpExecutes(reserved: set<string>, tables: seq<Table>, d: Database, db: Database)
    requires WellFormed(tables) && Conforms(tables, d) && IsTarget(tables, db)
    ensures ExecAll(reserved, tables, db, DumpScript(reserved, tables, d)) ==
            if AllAccepted(tables, d, db) then Some(Restored(tables, d, db)) else None
  {
    hide AllAccepted, Exec, ExecAll, LoadedRows, Resets, ApplyResets, IsTarget, DataSql, Creates, Created, SetVals, NameList;
    var creates := Creates(tables);
    var truncate := [TruncateRestartIdentity(NameList(tables))];
    var data := [Data(DataSql(reserved, Parts(tables, d)))];
    var setvals := SetVals(Resets(tables, d));
    SessionExec(reserved, tables, db, PRELUDE);
    ExecConcat(reserved, tables, db, PRELUDE, creates);
    CreatesExec(reserved, tables, tables, db);
    AllPresent(tables, db);
    var created := Created(tables, db);
    var blank := Blank(tables, created);
    ExecConcat(reserved, tables, db, PRELUDE + creates, truncate);
    TruncateExec(reserved, tables, created);
    ExecOne(reserved, tables, created, truncate[0]);
    ExecConcat(reserved, tables, db, PRELUDE + creates + truncate, data);
    DataExec(reserved, tables, d, blank);
    ExecOne(reserved, tables, blank, data[0]);
    var loaded := blank.(rows := LoadedRows(tables, d, blank.rows));
    ExecConcat(reserved, tables, db, PRELUDE + creates + truncate + data, setvals);
    SequenceExec(reserved, tables, d, db, loaded);
    ExecConcat(reserved, tables, db, PRELUDE + creates + truncate + data + setvals, EPILOGUE);
    SessionExec(reserved, tables, Restored(tables, d, db), EPILOGUE);
  }

  /**
   The script succeeds exactly when, after the CREATE statements, every dumped sequence can be reset; otherwise its
   transaction changes nothing.
   */
  lemma DumpLoads(reserved: set<string>, tables: seq<Table>, d: Database, db: Database)
    requires WellFormed(tables) && Conforms(tables, d) && IsTarget(tables, db)
    ensures Load(reserved, tables, db, DumpScript(reserved, tables, d)) ==
            if AllAccepted(tables, d, db) then Restored(tables, d, db) else db
  {
    DumpExecutes(reserved, tables, d, db);
    DumpIsTransaction(reserved, tables, d);
    hide DumpScript, AllAccepted, Restored, ExecAll, ExecSome, IsTransaction, IsTarget, WellFormed;
  }

  lemma AllPresent(tables: seq<Table>, db: Database)
    requires IsTarget(tables, db)
    ensures db.rows.Keys + Names(tables) == Names(tables)
  {}

  /**
   Where the target's sequences, after the CREATE statements, are the ones the dump names, the script succeeds exactly
   when the names need no double quotes and the largest numbers leave room.
   */
  lemma DumpRestores(reserved: set<string>, tables: seq<Table>, d: Database, db: Database)
    requires WellFormed(tables) && Conforms(tables, d) && IsTarget(tables, db) && Agrees(tables, db)
    ensures Load(reserved, tables, db, DumpScript(reserved, tables, d)) ==
            if Restorable(tables, d) then Restored(tables, d, db) else db
  {
    hide Restorable, AllAccepted, Agrees, Load, DumpScript, Restored;
    DumpLoads(reserved, tables, d, db);
    AcceptedIffRestorable(tables, d, db);
  }

  /**
   The restored database: every table holds exactly its rows, except that `backup_logs` and tables without columns are
   empty. Where the names agree, the next value of a sequence exceeds every number stored in its column.
   */
  lemma RestoredHolds(tables: seq<Table>, d: Database, db: Database)
    requires WellFormed(tables) && Conforms(tables, d) && IsTarget(tables, db)
    ensures Restored(tables, d, db).rows.Keys == d.rows.Keys
    ensures forall t <- tables ::
              && t.name in d.rows
              && Restored(tables, d, db).rows[t.name] ==
                 (if t.name == "backup_logs" || t.columns == [] then [] else d.rows[t.name])
    ensures Agrees(tables, db) ==> forall t <- tables, c | 0 <= c < |t.columns| && t.columns[c].sequence.Some? ::
              Exceeds(Restored(tables, d, db), t, c)
  {
    hide Restored, Agrees, Exceeds, IsTarget;
    RestoredRows(tables, d, db);
    assert forall t <- tables :: IsDumped(t) <==> t.name != "backup_logs" && t.columns != [];
    if Agrees(tables, db) {
      forall t, c | t in tables && 0 <= c < |t.columns| && t.columns[c].sequence.Some?
        ensures Exceeds(Restored(tables, d, db), t, c)
      {
        RestoredNext(tables, d, db, t, c);
      }
    }
  }

  /** The column's next number is larger than every number in it. */
  predicate Exceeds(db: Database, t: Table, c: nat)
    requires c < |t.columns|
  {
    var key := (t.name, t.columns[c].name);
    && key in db.wired && db.wired[key] in db.next && t.name in db.rows
    && forall row: Row <- db.rows[t.name] :: c < |row| && row[c].Int? ==> row[c].i < db.next[db.wired[key]]
  }

  lemma RestoredRows(tables: seq<Table>, d: Database, db: Database)
    requires WellFormed(tables) && Conforms(tables, d)
    ensures Restored(tables, d, db).rows.Keys == d.rows.Keys
    ensures forall t <- tables :: t.name in d.rows
                                  && Restored(tables, d, db).rows[t.name] == if IsDumped(t) then d.rows[t.name] else []
  {
    var blank := Blank(tables, Created(tables, db)).rows;
    BlankRows(tables, Created(tables, db));
    assert DistinctNames(tables) && d.rows.Keys == Names(tables);
    hide LoadedRows, WellFormed, Conforms, DistinctNames, IsDumped, Created, ApplyResets, Resets, Blank, Names;
    LoadedRowsAt(tables, d, blank);
  }

  lemma BlankRows(tables: seq<Table>, db: Database)
    ensures Blank(tables, db).rows.Keys == Names(tables)
    ensures forall t <- tables :: t.name in Names(tables) && Blank(tables, db).rows[t.name] == []
  {}

  /** A sequence of a dumped table restarts above its column's numbers, that of any other table belongs to no rows. */
  lemma RestoredNext(tables: seq<Table>, d: Database, db: Database, t: Table, c: nat)
    requires WellFormed(tables) && Conforms(tables, d) && IsTarget(tables, db) && Agrees(tables, db)
    requires t in tables && c < |t.columns| && t.columns[c].sequence.Some?
    ensures Exceeds(Restored(tables, d, db), t, c)
  {
    var created, column := Created(tables, db), t.columns[c];
    assert column in t.columns && t.name in Names(tables);
    hide LoadedRows, ApplyResets, Resets, ResetValue, Created, WellFormed, ColumnMax, WellWired, OnlySerial, Names, ColumnSequences;
    WellFormedIsDistinct(tables);
    CreatesExec({}, tables, tables, db);
    assert Serves(created, t.name, column) && WellWired(created);
    hide IsTarget, AllServed;
    RestoredRows(tables, d, db);
    ResetLabels(tables, d);
    ResetCoverage(tables, d, t);
    ResetExceeds(d.rows[t.name], c);
    assert IsDumped(t) ==> IsWired(created, t.name, column);
    hide Agrees, Conforms;
    NextAfterResets(created, t.name, column, Resets(tables, d));
  }

  lemma NextAfterResets(created: Database, table: string, c: Column, resets: seq<(string, int)>)
    requires WellWired(created) && Serves(created, table, c) && c.sequence.Some? && DistinctLabels(resets)
    ensures var next := ApplyResets(map s <- created.next :: 1, resets);
            && created.wired[(table, c.name)] in next
            && forall v: int :: (c.sequence.value.name, v) in resets && IsWired(created, table, c) ==>
                 next[created.wired[(table, c.name)]] == v
  {
    ApplyResetsAt(map s <- created.next :: 1, resets);
  }

  lemma ResetExceeds(rows: seq<Row>, c: nat)
    ensures forall row: Row <- rows :: c < |row| && row[c].Int? ==> row[c].i < ResetValue(rows, c)
  {
    hide ColumnMax;
    ColumnMaxIsMax(rows, c);
  }

  lemma {:induction false} ColumnSequenceListed(columns: seq<Column>, c: nat)
    requires c < |columns| && columns[c].sequence.Some?
    ensures columns[c].sequence.value.name in ColumnSequences(columns)
  {
    if c > 0 {
      ColumnSequenceListed(columns[1..], c - 1);
    }
  }

  lemma {:induction false} ApplyResetsKeys(next: map<string, int>, resets: seq<(string, int)>)
    requires forall r <- resets :: r.0 in next
    ensures ApplyResets(next, resets).Keys == next.Keys
    decreases |resets|
  {
    if resets != [] {
      assert resets[0] in resets;
      ApplyResetsKeys(next[resets[0].0 := resets[0].1], resets[1..]);
    }
  }

  lemma RestoredIsTarget(tables: seq<Table>, d: Database, db: Database)
    requires WellFormed(tables) && Conforms(tables, d) && IsTarget(tables, db) && AllAccepted(tables, d, db)
    ensures var after := Restored(tables, d, db);
            && IsTarget(tables, after) && after.rows.Keys == Names(tables)
            && after.next.Keys == Created(tables, db).next.Keys
  {
    assert d.rows.Keys == Names(tables);
    hide LoadedRows, ApplyResets, Resets, Created, WellFormed, IsTarget, Conforms, Names, Accepted, IsDumped, DumpedRows;
    var created := Created(tables, db);
    CreatesExec({}, tables, tables, db);
    AllPresent(tables, db);
    RestoredRows(tables, d, db);
    ResetsKeepKeys(created, Resets(tables, d));
    var after := Restored(tables, d, db);
    assert after.next == ApplyResets(map s <- created.next :: 1, Resets(tables, d));
    hide Restored, AllAccepted;
    StaysTarget(tables, created, after);
  }

  lemma ResetsKeepKeys(created: Database, resets: seq<(string, int)>)
    requires forall r <- resets :: Accepted(created, r)
    ensures ApplyResets(map s <- created.next :: 1, resets).Keys == created.next.Keys
  {
    hide Bare;
    var next := map s <- created.next :: 1;
    assert next.Keys == created.next.Keys;
    ApplyResetsKeys(next, resets);
  }

  lemma StaysTarget(tables: seq<Table>, before: Database, after: Database)
    requires IsTarget(tables, before) && after.wired == before.wired && after.top == before.top
    requires after.rows.Keys == before.rows.Keys && after.next.Keys == before.next.Keys
    ensures IsTarget(tables, after)
  {
    hide Serves, SerialColumn;
    StaysWired(before, after);
    hide WellWired;
    forall t, c | t in tables && c in t.columns && t.name in after.rows ensures Serves(after, t.name, c) {
      ServesAlike(before, after, t.name, c);
    }
  }

  lemma ServesAlike(before: Database, after: Database, table: string, c: Column)
    requires after.wired == before.wired && after.top == before.top
    ensures Serves(after, table, c) == Serves(before, table, c)
  {}

  lemma StaysWired(before: Database, after: Database)
    requires WellWired(before) && after.wired == before.wired && after.top == before.top && after.next.Keys == before.next.Keys
    ensures WellWired(after)
  {
    assert forall s :: s in after.next <==> s in before.next;
    forall s | s in after.next ensures Owned(after, s) {
      assert Owned(before, s);
    }
  }

  /** With all tables there, nothing is created. */
  lemma {:induction false} NothingCreated(todo: seq<Table>, db: Database)
    requires forall t <- todo :: t.name in db.rows
    ensures Created(todo, db) == db
    decreases |todo|
  {
    if todo != [] {
      assert todo[0] in todo;
      NothingCreated(todo[1..], db);
    }
  }

  /** Loading the dump a second time changes nothing, on every target. */
  lemma DumpLoadsTwice(reserved: set<string>, tables: seq<Table>, d: Database, db: Database)
    requires WellFormed(tables) && Conforms(tables, d) && IsTarget(tables, db)
    ensures var script := DumpScript(reserved, tables, d);
            Load(reserved, tables, Load(reserved, tables, db, script), script) == Load(reserved, tables, db, script)
  {
    hide Load, DumpScript, IsTarget, WellFormed, Resets, Created, LoadedRows, Accepted, ApplyResets;
    DumpLoads(reserved, tables, d, db);
    if AllAccepted(tables, d, db) {
      var once := Restored(tables, d, db);
      RestoredIsTarget(tables, d, db);
      DumpLoads(reserved, tables, d, once);
      assert forall t <- tables :: t.name in Names(tables);
      NothingCreated(tables, once);
      SameAcceptance(Created(tables, db), once);
      assert AllAccepted(tables, d, once);
      assert Blank(tables, once) == Blank(tables, Created(tables, db));
    }
  }

  lemma SameAcceptance(a: Database, b: Database)
    requires a.next.Keys == b.next.Keys && a.top == b.top
    ensures forall r: (string, int) :: Accepted(a, r) <==> Accepted(b, r)
  {}

  // ---------------------------------------------------------------- targets whose sequences agree

  /** The tables that are there use the dumped sequence names, and the names of the others are the default ones. */
  predicate UsualNames(tables: seq<Table>, db: Database) {
    && AllNamed(tables, db)
    && forall t <- tables, c <- t.columns :: t.name !in db.rows ==> IsUsual(t.name, c)
  }

  predicate IsUsual(table: string, c: Column) {
    c.sequence.Some? ==> c.sequence.value.name == DefaultName(table, c.name)
  }

  /** Whatever sequence the column has, it is the one the catalogue names. */
  predicate IsNamed(db: Database, table: string, c: Column) {
    c.sequence.Some? && (table, c.name) in db.wired ==> db.wired[(table, c.name)] == c.sequence.value.name
  }

  predicate AllNamed(tables: seq<Table>, db: Database) {
    forall t <- tables, c <- t.columns :: IsNamed(db, t.name, c)
  }

  lemma NameIsListed(tables: seq<Table>, t: Table, i: nat)
    requires WellFormed(tables) && t in tables && i < |t.columns| && t.columns[i].sequence.Some?
    ensures t.columns[i].sequence.value.name !in Names(tables)
  {
    var s := t.columns[i].sequence.value.name;
    SequencesOf(tables);
    ColumnSequenceListed(t.columns, i);
    assert s in Sequences(tables);
  }

  lemma AllNamedAt(tables: seq<Table>, db: Database, t: Table, c: Column)
    requires AllNamed(tables, db) && t in tables && c in t.columns
    ensures IsNamed(db, t.name, c)
  {}

  /** A recorded name is used by no other column and by no table. */
  lemma NameIsFree(tables: seq<Table>, t: Table, i: nat, db: Database)
    requires WellFormed(tables) && t in tables && i < |t.columns| && t.columns[i].sequence.Some?
    requires WellWired(db) && db.rows.Keys <= Names(tables) && AllNamed(tables, db) && OnlySerial(tables, db)
    requires (t.name, t.columns[i].name) !in db.wired
    ensures t.columns[i].sequence.value.name !in db.next.Keys + db.rows.Keys
  {
    var s := t.columns[i].sequence.value.name;
    NameIsListed(tables, t, i);
    WellFormedIsDistinct(tables);
    hide WellFormed, Names, AllNamed, Sequences, Distinct;
    if s in db.next {
      OwnerOf(db, s);
      var k :| k in db.wired && db.wired[k] == s;
      assert SerialColumn(tables, db.rows.Keys, k);
      hide WellWired, OnlySerial;
      var u, c :| u in tables && c in u.columns && c.sequence.Some? && k == (u.name, c.name);
      AllNamedAt(tables, db, u, c);
      var j :| 0 <= j < |u.columns| && u.columns[j] == c;
      NamedOnce(tables, t, i, u, j);
    }
  }

  /** Creating a column's sequence under a free name. */
  lemma NamedStep(tables: seq<Table>, t: Table, i: nat, db: Database)
    requires WellFormed(tables) && t in tables && i < |t.columns| && IsUsual(t.name, t.columns[i])
    requires WellWired(db) && db.rows.Keys <= Names(tables) && AllNamed(tables, db) && OnlySerial(tables, db)
    requires (t.name, t.columns[i].name) !in db.wired && t.name in db.rows
    ensures var after := CreateSequence(t.name, t.columns[i], db);
            WellWired(after) && after.rows == db.rows && AllNamed(tables, after) && OnlySerial(tables, after)
    ensures forall k <- CreateSequence(t.name, t.columns[i], db).wired :: k in db.wired || k == (t.name, t.columns[i].name)
  {
    hide WellWired, OnlySerial, AllNamed, Names, CreateSequence, Serves, Extends;
    var c := t.columns[i];
    var after := CreateSequence(t.name, c, db);
    ColumnCreated(t.name, c, db);
    if c.sequence.None? {
      NothingNew(t.name, c, db);
    } else {
      NameIsFree(tables, t, i, db);
      UsualNewName(db, t.name, c);
      OneTable(tables, t);
      ColumnNamesDistinct(t);
      hide WellFormed;
      KeepsSerial(tables, db, t, after);
      KeepsNamed(tables, db, t, i, after);
    }
  }

  lemma KeepsNamed(tables: seq<Table>, db: Database, t: Table, i: nat, after: Database)
    requires AllNamed(tables, db) && DistinctColumns(t.columns) && forall u <- tables :: u.name == t.name ==> u == t
    requires i < |t.columns| && t.columns[i].sequence.Some?
    requires after.wired == db.wired[(t.name, t.columns[i].name) := t.columns[i].sequence.value.name]
    ensures AllNamed(tables, after)
  {
    var c := t.columns[i];
    forall u, e | u in tables && e in u.columns ensures IsNamed(after, u.name, e) {
      assert IsNamed(db, u.name, e);
      if u.name == t.name && e.name == c.name {
        var j :| 0 <= j < |u.columns| && u.columns[j] == e;
        assert i == j;
      }
    }
  }

  lemma NothingNew(table: string, c: Column, db: Database)
    requires c.sequence.None?
    ensures CreateSequence(table, c, db) == db
  {}

  lemma UsualNewName(db: Database, table: string, c: Column)
    requires c.sequence.Some? && IsUsual(table, c) && c.sequence.value.name !in db.next.Keys + db.rows.Keys
    ensures var after := CreateSequence(table, c, db);
            after.wired == db.wired[(table, c.name) := c.sequence.value.name]
  {
    assert Numbered(DefaultName(table, c.name), 0) == c.sequence.value.name;
  }

  lemma {:induction false} CreatedUnderNames(tables: seq<Table>, t: Table, from: nat, db: Database)
    requires WellFormed(tables) && t in tables && from <= |t.columns| && t.name in db.rows
    requires WellWired(db) && db.rows.Keys <= Names(tables) && AllNamed(tables, db) && OnlySerial(tables, db)
    requires forall i :: from <= i < |t.columns| ==> (t.name, t.columns[i].name) !in db.wired
    requires forall c <- t.columns :: IsUsual(t.name, c)
    ensures AllNamed(tables, CreateSequences(t.name, t.columns[from..], db))
    decreases |t.columns| - from
  {
    if from < |t.columns| {
      var rest := t.columns[from..];
      assert rest[0] == t.columns[from] && rest[1..] == t.columns[from + 1..] && rest[0] in t.columns;
      ColumnNamesDistinct(t);
      hide WellFormed, WellWired, CreateSequence, AllNamed, OnlySerial, IsUsual;
      NamedStep(tables, t, from, db);
      CreatedUnderNames(tables, t, from + 1, CreateSequence(t.name, rest[0], db));
    }
  }

  lemma OneTableNamed(tables: seq<Table>, db: Database, t: Table)
    requires WellFormed(tables) && IsTarget(tables, db) && AllNamed(tables, db) && t in tables
    requires t.name !in db.rows ==> forall c <- t.columns :: IsUsual(t.name, c)
    ensures AllNamed(tables, CreateTable(t, db))
  {
    if t.name !in db.rows {
      var started := db.(rows := db.rows[t.name := []]);
      assert t.name in Names(tables);
      hide WellFormed, WellWired, IsUsual;
      RowsDoNotMatter(db, started.rows);
      StartedKeys(tables, db, t);
      forall k | k in started.wired ensures SerialColumn(tables, started.rows.Keys, k) {
        SerialGrows(tables, db.rows.Keys, started.rows.Keys, k);
      }
      forall u, c | u in tables && c in u.columns ensures IsNamed(started, u.name, c) {
        assert IsNamed(db, u.name, c);
      }
      assert t.columns[0..] == t.columns;
      hide AllNamed, OnlySerial;
      CreatedUnderNames(tables, t, 0, started);
    }
  }

  lemma {:induction false} CreatedNamed(tables: seq<Table>, todo: seq<Table>, db: Database)
    requires WellFormed(tables) && IsTarget(tables, db) && AllNamed(tables, db) && forall t <- todo :: t in tables
    requires forall t <- todo, c <- t.columns :: t.name !in db.rows ==> IsUsual(t.name, c)
    ensures AllNamed(tables, Created(todo, db))
    decreases |todo|
  {
    hide WellFormed, IsTarget, AllNamed, CreateTable, IsUsual;
    if todo != [] {
      var t := todo[0];
      assert t in todo && forall u <- todo[1..] :: u in todo;
      CreateKeepsTarget(tables, db, t);
      OneTableNamed(tables, db, t);
      CreatedNamed(tables, todo[1..], CreateTable(t, db));
    }
  }

  predicate AllWired(tables: seq<Table>, db: Database) {
    forall t <- tables, c <- t.columns :: IsWired(db, t.name, c)
  }

  /** With the usual names every serial column gets the sequence the dump names. */
  lemma UsualNamesAgree(tables: seq<Table>, db: Database)
    requires WellFormed(tables) && IsTarget(tables, db) && UsualNames(tables, db)
    ensures AllWired(tables, Created(tables, db)) && Agrees(tables, db)
  {
    CreatedNamed(tables, tables, db);
    CreatesExec({}, tables, tables, db);
    hide WellFormed, WellWired, Created, OnlySerial;
    var created := Created(tables, db);
    forall t, c | t in tables && c in t.columns ensures IsWired(created, t.name, c) {
      assert t.name in Names(tables) && t.name in created.rows;
      assert Serves(created, t.name, c) && IsNamed(created, t.name, c);
    }
  }

  /** On all targets with the usual names the dump leaves the same database behind. */
  lemma RestoresTheSame(tables: seq<Table>, d: Database, a: Database, b: Database)
    requires WellFormed(tables) && Conforms(tables, d)
    requires IsTarget(tables, a) && UsualNames(tables, a) && IsTarget(tables, b) && UsualNames(tables, b)
    ensures Restored(tables, d, a) == Restored(tables, d, b)
  {
    hide Created, WellFormed, IsTarget, UsualNames, AllWired;
    UsualNamesAgree(tables, a);
    UsualNamesAgree(tables, b);
    CreatesExec({}, tables, tables, a);
    CreatesExec({}, tables, tables, b);
    var x, y := Created(tables, a), Created(tables, b);
    AllPresent(tables, a);
    AllPresent(tables, b);
    SameWiring(tables, x, y);
    assert Blank(tables, x) == Blank(tables, y);
  }

  lemma SameKeys(tables: seq<Table>, x: Database, y: Database)
    requires IsTarget(tables, x) && IsTarget(tables, y) && x.rows.Keys == y.rows.Keys
    requires AllWired(tables, x) && AllWired(tables, y)
    ensures forall k <- x.wired :: k in y.wired && x.wired[k] == y.wired[k]
    ensures forall s <- x.top :: s in y.top && x.top[s] == y.top[s]
  {
    hide Owned;
    forall k | k in x.wired
      ensures k in y.wired && x.wired[k] == y.wired[k]
      ensures x.wired[k] in x.top && x.wired[k] in y.top && x.top[x.wired[k]] == y.top[x.wired[k]]
    {
      assert SerialColumn(tables, x.rows.Keys, k);
      var t, c :| t in tables && c in t.columns && t.name in x.rows && c.sequence.Some? && k == (t.name, c.name);
      assert IsWired(x, t.name, c) && IsWired(y, t.name, c);
      assert Serves(x, t.name, c) && Serves(y, t.name, c);
    }
    forall s | s in x.top ensures s in y.top && x.top[s] == y.top[s] {
      OwnerOf(x, s);
    }
  }

  lemma OwnerOf(db: Database, s: string)
    requires WellWired(db) && s in db.top
    ensures exists k <- db.wired :: db.wired[k] == s
  {
    assert Owned(db, s);
  }

  lemma SameWiring(tables: seq<Table>, x: Database, y: Database)
    requires IsTarget(tables, x) && IsTarget(tables, y) && x.rows.Keys == y.rows.Keys
    requires AllWired(tables, x) && AllWired(tables, y)
    ensures x.wired == y.wired && x.next.Keys == y.next.Keys && x.top == y.top
  {
    hide AllWired, IsTarget;
    SameKeys(tables, x, y);
    SameKeys(tables, y, x);
    TopsAndNexts(tables, x);
    TopsAndNexts(tables, y);
  }

  lemma TopsAndNexts(tables: seq<Table>, db: Database)
    requires IsTarget(tables, db)
    ensures db.next.Keys == db.top.Keys
  {
    hide Owned, OnlySerial, AllServed;
  }

  // ---------------------------------------------------------------- dumps that do not restore

  /** A catalogue of one table with one serial column, and a database with one row in it. */
  function SampleTables(s: Sequence): seq<Table> { [Table("t", [SampleColumn(s)])] }

  function SampleColumn(s: Sequence): Column { Column("id", IntColumn, Some(s)) }

  function SampleData(s: Sequence, id: int): Database {
    Database(map["t" := [[Int(id)]]], map[("t", "id") := s.name], map[s.name := 1], map[s.name := s.top])
  }

  lemma SampleIsWellFormed(s: Sequence, id: int)
    requires s.name != "" && s.name[0] != '\'' && s.name != "t" && s.top >= 1
    ensures WellFormed(SampleTables(s)) && Conforms(SampleTables(s), SampleData(s, id))
    ensures Resets(SampleTables(s), SampleData(s, id)) == [(s.name, id + 1)]
  {
    var tables, d := SampleTables(s), SampleData(s, id);
    var t := tables[0];
    assert ColumnSequences(t.columns) == [s.name] && Sequences(tables) == [s.name];
    assert GoodName("t") && GoodName("id") && ColumnNames(t) == ["id"];
    assert Names(tables) == {"t"};
    assert RowStorable(ColumnTypes(t), [Int(id)]);
    hide WellFormed, Conforms;
    SampleResets(s, id);
  }

  lemma SampleResets(s: Sequence, id: int)
    requires Names(SampleTables(s)) <= SampleData(s, id).rows.Keys
    ensures Resets(SampleTables(s), SampleData(s, id)) == [(s.name, id + 1)]
  {
    var tables, rows := SampleTables(s), SampleData(s, id).rows["t"];
    assert rows[..0] == [] && ColumnMax([], 0) == None && ColumnMax(rows, 0) == Some(id);
    assert IsDumped(tables[0]) && tables[1..] == [];
    assert ColumnResets(tables[0], rows, 1) == [];
    assert ColumnResets(tables[0], rows, 0) == [(s.name, id + 1)];
  }

  lemma SampleAccepts(s: Sequence, id: int, db: Database)
    requires s.name != "" && s.name[0] != '\'' && s.name != "t" && s.top >= 1 && IsTarget(SampleTables(s), db)
    ensures WellFormed(SampleTables(s)) && Conforms(SampleTables(s), SampleData(s, id))
    ensures AllAccepted(SampleTables(s), SampleData(s, id), db) <==>
            Bare(s.name) && 0 <= id < s.top && IsWired(Created(SampleTables(s), db), "t", SampleColumn(s))
  {
    hide Created, Resets, Bare, IsTarget, WellFormed, IsWired;
    var tables, d := SampleTables(s), SampleData(s, id);
    SampleIsWellFormed(s, id);
    CreatesExec({}, tables, tables, db);
    var created := Created(tables, db);
    assert tables[0].name in Names(tables) && "t" in created.rows;
    SampleWiring(s, created);
    OneReset(created, [(s.name, id + 1)]);
  }

  /** One row in one table restores exactly when the name is bare, the number leaves room, and the target's name agrees. */
  lemma SampleRestores(reserved: set<string>, s: Sequence, id: int, db: Database)
    requires s.name != "" && s.name[0] != '\'' && s.name != "t" && s.top >= 1 && IsTarget(SampleTables(s), db)
    ensures var tables, d := SampleTables(s), SampleData(s, id);
            && Names(tables) <= d.rows.Keys
            && Load(reserved, tables, db, DumpScript(reserved, tables, d)) ==
               if Bare(s.name) && 0 <= id < s.top && IsWired(Created(tables, db), "t", SampleColumn(s))
               then Restored(tables, d, db) else db
  {
    SampleAccepts(s, id, db);
    hide Load, DumpScript, Restored, Created, Bare, IsTarget, WellFormed, IsWired, AllAccepted, SampleTables, SampleData;
    DumpLoads(reserved, SampleTables(s), SampleData(s, id), db);
  }

  lemma OneReset(db: Database, resets: seq<(string, int)>)
    requires |resets| == 1
    ensures (forall r <- resets :: Accepted(db, r)) <==> Accepted(db, resets[0])
  {}

  lemma SampleWiring(s: Sequence, db: Database)
    requires IsTarget(SampleTables(s), db) && "t" in db.rows
    ensures s.name in db.next <==> IsWired(db, "t", SampleColumn(s))
    ensures s.name in db.next ==> s.name in db.top && db.top[s.name] == s.top
  {
    var t, c := SampleTables(s)[0], SampleColumn(s);
    assert t in SampleTables(s) && c in t.columns && Serves(db, "t", c);
    hide AllServed;
    forall k | k in db.wired ensures k == ("t", "id") {
      assert SerialColumn(SampleTables(s), db.rows.Keys, k);
    }
    hide OnlySerial, SampleTables;
    if s.name in db.next {
      OwnerOf(db, s.name);
    }
  }

  /** A name that needs double quotes. */
  lemma QuotedSequenceFails(reserved: set<string>, db: Database)
    requires IsTarget(SampleTables(Sequence("\"S\"", 10)), db)
    ensures var s := Sequence("\"S\"", 10);
            Load(reserved, SampleTables(s), db, DumpScript(reserved, SampleTables(s), SampleData(s, 1))) == db
  {
    var s := Sequence("\"S\"", 10);
    assert s.name[0] == '"';
    hide Load, DumpScript, Created;
    SampleRestores(reserved, s, 1, db);
  }

  /** A serial column whose only number is negative. */
  lemma NegativeNumberFails(reserved: set<string>, db: Database)
    requires IsTarget(SampleTables(Sequence("s", 10)), db)
    ensures var s := Sequence("s", 10);
            Load(reserved, SampleTables(s), db, DumpScript(reserved, SampleTables(s), SampleData(s, -5))) == db
  {
    hide Load, DumpScript, Created;
    SampleRestores(reserved, Sequence("s", 10), -5, db);
  }

  /** A serial column that has used the last number of its sequence. */
  lemma ExhaustedSequenceFails(reserved: set<string>, db: Database)
    requires IsTarget(SampleTables(Sequence("s", 10)), db)
    ensures var s := Sequence("s", 10);
            Load(reserved, SampleTables(s), db, DumpScript(reserved, SampleTables(s), SampleData(s, 10))) == db
  {
    hide Load, DumpScript, Created;
    SampleRestores(reserved, Sequence("s", 10), 10, db);
  }

  const EMPTY: Database := Database(map[], map[], map[], map[])

  /** A sequence that has kept an old name, on an empty database: CREATE TABLE makes it under the default name. */
  lemma RenamedSequenceFails(reserved: set<string>)
    ensures var s := Sequence("old", 10);
            && IsTarget(SampleTables(s), EMPTY)
            && Load(reserved, SampleTables(s), EMPTY, DumpScript(reserved, SampleTables(s), SampleData(s, 1))) == EMPTY
  {
    var s := Sequence("old", 10);
    var tables := SampleTables(s);
    SampleEmpty(s);
    assert DefaultName("t", "id")[0] == 't' && s.name[0] == 'o';
    hide Load, DumpScript, Created, DefaultName;
    SampleRestores(reserved, s, 1, EMPTY);
  }

  lemma SampleEmpty(s: Sequence)
    ensures IsTarget(SampleTables(s), EMPTY)
    ensures Created(SampleTables(s), EMPTY).wired == map[("t", "id") := DefaultName("t", "id")]
  {
    var tables := SampleTables(s);
    var t := tables[0];
    assert tables[1..] == [] && t.columns[1..] == [];
    assert DefaultName("t", "id") != "t" by { assert |DefaultName("t", "id")| > 1; }
    var started := EMPTY.(rows := EMPTY.rows["t" := []]);
    assert Numbered(DefaultName("t", "id"), 0) == DefaultName("t", "id");
    var after := CreateSequence("t", t.columns[0], started);
    assert after.wired == map[("t", "id") := DefaultName("t", "id")];
    assert CreateSequences("t", t.columns, started) == CreateSequences("t", [], after) == after;
    assert CreateTable(t, EMPTY) == after;
    assert Created(tables, EMPTY) == Created([], after) == after;
  }

  /** Two serial columns, and a target on which they have each other's sequences. */
  function Crossing(name: string, sequence: string): Column { Column(name, IntColumn, Some(Sequence(sequence, 10))) }

  function Crossed(): Table { Table("t", [Crossing("x", "a"), Crossing("y", "b")]) }

  function CrossedData(): Database { Database(map["t" := [[Int(1), Int(5)]]], map[], map[], map[]) }

  function CrossedBefore(): Database { Database(map["t" := []], map[], map[], map[]) }

  function CrossedTarget(): Database {
    AddSequence(AddSequence(CrossedBefore(), ("t", "x"), "b", 10), ("t", "y"), "a", 10)
  }

  lemma CrossedIsWellFormed()
    ensures WellFormed([Crossed()]) && Conforms([Crossed()], CrossedData())
  {
    var t := Crossed();
    assert ColumnSequences(t.columns[2..]) == [] && ColumnSequences(t.columns[1..]) == ["b"];
    assert ColumnSequences(t.columns) == ["a", "b"] && Sequences([t]) == ["a", "b"];
    assert ColumnNames(t) == ["x", "y"] && Names([t]) == {"t"};
    assert GoodName("t") && GoodName("x") && GoodName("y");
    assert RowStorable(ColumnTypes(t), [Int(1), Int(5)]);
  }

  lemma CrossedIsWired()
    ensures var db := CrossedTarget();
            && WellWired(db) && db.rows == map["t" := []] && db.wired == map[("t", "x") := "b", ("t", "y") := "a"]
            && db.next == map["a" := 1, "b" := 1] && db.top == map["a" := 10, "b" := 10]
  {
    assert WellWired(CrossedBefore());
    hide WellWired;
    assert "x" != "y" && "a" != "b";
    AddedTwice(CrossedBefore(), ("t", "x"), "b", ("t", "y"), "a", 10);
  }

  lemma AddedTwice(db: Database, k: (string, string), s: string, k': (string, string), s': string, top: int)
    requires WellWired(db) && db.wired == map[] && db.next == map[] && db.top == map[] && k != k' && s != s'
    ensures var after := AddSequence(AddSequence(db, k, s, top), k', s', top);
            && WellWired(after) && after.rows == db.rows && after.wired == map[k := s, k' := s']
            && after.next == map[s' := 1, s := 1] && after.top == map[s' := top, s := top]
  {
    hide WellWired, Extends;
    SequenceAdded(db, k, s, top);
    var mid := AddSequence(db, k, s, top);
    assert mid.rows == db.rows && mid.wired == map[k := s] && mid.next == map[s := 1] && mid.top == map[s := top];
    hide AddSequence;
    SequenceAdded(mid, k', s', top);
    AddedSecond(mid, k, s, k', s', top);
  }

  lemma AddedSecond(mid: Database, k: (string, string), s: string, k': (string, string), s': string, top: int)
    requires k != k' && s != s'
    requires mid.wired == map[k := s] && mid.next == map[s := 1] && mid.top == map[s := top]
    ensures var after := AddSequence(mid, k', s', top);
            && after.rows == mid.rows && after.wired == map[k := s, k' := s']
            && after.next == map[s' := 1, s := 1] && after.top == map[s' := top, s := top]
  {}

  lemma CrossedIsTarget()
    ensures IsTarget([Crossed()], CrossedTarget())
  {
    CrossedIsWired();
    var t, db := Crossed(), CrossedTarget();
    hide WellWired, CrossedTarget;
    assert t in [t] && t.columns[0] in t.columns && t.columns[1] in t.columns && "t" in Names([t]);
    assert KeyOf("t", t.columns[0], ("t", "x")) && KeyOf("t", t.columns[1], ("t", "y"));
    forall k | k in db.wired ensures SerialColumn([t], db.rows.Keys, k) {
      KeyIsSerial([t], db.rows.Keys, t, if k.1 == "x" then t.columns[0] else t.columns[1], k);
    }
    assert AllServed([t], db);
  }

  lemma CrossedResets()
    requires Names([Crossed()]) <= CrossedData().rows.Keys
    ensures Resets([Crossed()], CrossedData()) == [("a", 2), ("b", 6)]
  {
    var t, rows := Crossed(), CrossedData().rows["t"];
    assert rows[..0] == [] && ColumnMax([], 0) == None && ColumnMax([], 1) == None;
    assert ColumnMax(rows, 0) == Some(1) && ColumnMax(rows, 1) == Some(5);
    assert IsDumped(t) && [t][1..] == [];
    assert ColumnResets(t, rows, 2) == [] && ColumnResets(t, rows, 1) == [("b", 6)];
    assert ColumnResets(t, rows, 0) == [("a", 2), ("b", 6)];
  }

  lemma CrossedCatalogue()
    ensures var tables, d, db := [Crossed()], CrossedData(), CrossedTarget();
            && WellFormed(tables) && Conforms(tables, d) && IsTarget(tables, db) && Created(tables, db) == db
  {
    var tables, db := [Crossed()], CrossedTarget();
    CrossedIsWellFormed();
    CrossedIsTarget();
    CrossedIsWired();
    hide WellFormed, Conforms, IsTarget, WellWired, CrossedTarget;
    assert Crossed().name == "t" && "t" in db.rows;
    NothingCreated(tables, db);
  }

  lemma CrossedRestored()
    requires Names([Crossed()]) <= CrossedData().rows.Keys
    ensures !Exceeds(Restored([Crossed()], CrossedData(), CrossedTarget()), Crossed(), 1)
  {
    var tables, d, db := [Crossed()], CrossedData(), CrossedTarget();
    CrossedCatalogue();
    CrossedResets();
    RestoredRows(tables, d, db);
    assert Crossed() in tables && IsDumped(Crossed()) && Crossed().name == "t";
    CrossedNext();
    hide LoadedRows, Resets, Created, Conforms, WellFormed, IsTarget, Crossed, CrossedData, ApplyResets;
    CrossedBlank();
    hide CrossedTarget;
    CrossedLags(Restored(tables, d, db));
  }

  lemma CrossedBlank()
    ensures Blank([Crossed()], CrossedTarget()).next == map["a" := 1, "b" := 1]
  {
    CrossedIsWired();
    hide WellWired, CrossedTarget;
  }

  /** Where the names do not agree the load can succeed and leave a column whose next number is already taken. */
  lemma CrossedSequencesLag(reserved: set<string>)
    ensures var tables, d, db := [Crossed()], CrossedData(), CrossedTarget();
            && WellFormed(tables) && Conforms(tables, d) && IsTarget(tables, db)
            && Load(reserved, tables, db, DumpScript(reserved, tables, d)) == Restored(tables, d, db)
            && !Exceeds(Restored(tables, d, db), Crossed(), 1)
  {
    CrossedCatalogue();
    hide Created, WellFormed, IsTarget, CrossedTarget, Crossed, CrossedData, Load, DumpScript, Restored, Exceeds;
    CrossedAccepted();
    hide AllAccepted;
    DumpLoads(reserved, [Crossed()], CrossedData(), CrossedTarget());
    CrossedRestored();
  }

  lemma CrossedAccepted()
    requires Names([Crossed()]) <= CrossedData().rows.Keys && Created([Crossed()], CrossedTarget()) == CrossedTarget()
    ensures AllAccepted([Crossed()], CrossedData(), CrossedTarget())
  {
    CrossedResets();
    CrossedIsWired();
    var db := CrossedTarget();
    hide Resets, Created, WellWired, CrossedTarget, Crossed, CrossedData;
    assert Accepted(db, ("a", 2)) && Accepted(db, ("b", 6));
  }

  lemma CrossedLags(after: Database)
    requires after.wired == CrossedTarget().wired && after.next == map["a" := 2, "b" := 6]
    requires "t" in after.rows && after.rows["t"] == CrossedData().rows["t"]
    ensures !Exceeds(after, Crossed(), 1)
  {
    CrossedIsWired();
    hide WellWired, CrossedTarget;
    assert [Int(1), Int(5)] in after.rows["t"];
  }

  lemma CrossedNext()
    ensures ApplyResets(map["a" := 1, "b" := 1], [("a", 2), ("b", 6)]) == map["a" := 2, "b" := 6]
  {
    assert [("a", 2), ("b", 6)][1..] == [("b", 6)];
  }
}
