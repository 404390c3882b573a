/** The loop that groups a table's rows into INSERT statements. */
module Batching {
  import opened Prelude
  import opened SqlText

  const BATCH_ROWS := 100
  const BATCH_CHARS := 180_000

  type Row = seq<Value>

  /** Two characters are counted after every row for the separator. */
  function CountedChars(rows: seq<Row>): nat {
    if rows == [] then 0 else CountedChars(rows[..|rows| - 1]) + |RowText(rows[|rows| - 1])| + 2
  }

  /** The row does not go into the open chunk any more. */
  predicate Closes(chunk: seq<Row>, row: Row) {
    chunk != [] && (|chunk| >= BATCH_ROWS || CountedChars(chunk) + |RowText(row)| > BATCH_CHARS)
  }

  /** The batches of `rows` when `chunk` is already open. */
  function BatchesFrom(chunk: seq<Row>, rows: seq<Row>): seq<seq<Row>>
    decreases |rows|
  {
    if rows == [] then (if chunk == [] then [] else [chunk])
    else if Closes(chunk, rows[0]) then [chunk] + BatchesFrom([rows[0]], rows[1..])
    else BatchesFrom(chunk + [rows[0]], rows[1..])
  }

  function Batches(rows: seq<Row>): seq<seq<Row>> { BatchesFrom([], rows) }

  function ValuesText(batch: seq<Row>): string { Join(RowTexts(batch), ",\n") }

  predicate WithinLimits(batch: seq<Row>) {
    0 < |batch| <= 100 && (|batch| == 1 || |ValuesText(batch)| <= 180_000)
  }

  lemma {:induction false} CountedCharsIsJoined(rows: seq<Row>)
    ensures CountedChars(rows) == if rows == [] then 0 else |ValuesText(rows)| + 2
  {
    if |rows| == 1 {
      assert rows[..0] == [];
      assert RowTexts(rows) == [RowText(rows[0])];
    } else if |rows| > 1 {
      var init, last := rows[..|rows| - 1], rows[|rows| - 1];
      CountedCharsIsJoined(init);
      assert RowTexts(rows) == RowTexts(init) + [RowText(last)];
      JoinAppend(RowTexts(init), RowText(last), ",\n");
    }
  }

  lemma CountedCharsAppend(chunk: seq<Row>, row: Row)
    ensures CountedChars(chunk + [row]) == CountedChars(chunk) + |RowText(row)| + 2
  {
    assert (chunk + [row])[..|chunk|] == chunk;
  }

  lemma WithinLimitsAppend(chunk: seq<Row>, row: Row)
    requires chunk == [] || WithinLimits(chunk)
    requires !Closes(chunk, row)
    ensures WithinLimits(chunk + [row])
  {
    CountedCharsAppend(chunk, row);
    CountedCharsIsJoined(chunk + [row]);
  }

  /** The batch with one more row is over a limit. */
  predicate IsFull(batch: seq<Row>, row: Row) { |batch| == 100 || |ValuesText(batch + [row])| > 180_000 }

  /** No batch was closed early: the row after it would have broken a limit. */
  predicate Greedy(batches: seq<seq<Row>>) {
    forall i :: 0 < i < |batches| ==> batches[i] != [] && IsFull(batches[i - 1], batches[i][0])
  }

  lemma ClosedIsFull(chunk: seq<Row>, row: Row)
    requires WithinLimits(chunk) && Closes(chunk, row)
    ensures IsFull(chunk, row)
  {
    CountedCharsAppend(chunk, row);
    CountedCharsIsJoined(chunk + [row]);
  }

  lemma {:induction false} BatchesFromPartition(chunk: seq<Row>, rows: seq<Row>)
    requires chunk == [] || WithinLimits(chunk)
    ensures Flatten(BatchesFrom(chunk, rows)) == chunk + rows
    ensures forall b <- BatchesFrom(chunk, rows) :: WithinLimits(b)
    decreases |rows|
  {
    if rows == [] {
      assert Flatten([chunk]) == chunk + Flatten([]);
    } else {
      assert rows == [rows[0]] + rows[1..];
      if Closes(chunk, rows[0]) {
        BatchesFromPartition([rows[0]], rows[1..]);
        assert BatchesFrom(chunk, rows)[1..] == BatchesFrom([rows[0]], rows[1..]);
      } else {
        WithinLimitsAppend(chunk, rows[0]);
        BatchesFromPartition(chunk + [rows[0]], rows[1..]);
        assert chunk + [rows[0]] + rows[1..] == chunk + rows;
      }
    }
  }

  lemma {:induction false} BatchesFromGreedy(chunk: seq<Row>, rows: seq<Row>)
    requires chunk == [] || WithinLimits(chunk)
    ensures Greedy(BatchesFrom(chunk, rows))
    ensures chunk != [] ==> BatchesFrom(chunk, rows) != [] && chunk <= BatchesFrom(chunk, rows)[0]
    decreases |rows|
  {
    hide CountedChars, ValuesText, IsFull;
    if rows != [] {
      if Closes(chunk, rows[0]) {
        ClosedIsFull(chunk, rows[0]);
        BatchesFromGreedy([rows[0]], rows[1..]);
      } else {
        WithinLimitsAppend(chunk, rows[0]);
        BatchesFromGreedy(chunk + [rows[0]], rows[1..]);
      }
    }
  }

  /**
   Batching partitions the rows in order: every batch is non-empty, holds at most 100 rows, and its values text
   is at most 180000 characters unless it is a single row; and no batch is closed before a limit forces it.
   */
  lemma BatchesPartition(rows: seq<Row>)
    ensures Flatten(Batches(rows)) == rows
    ensures forall b <- Batches(rows) :: WithinLimits(b)
    ensures Greedy(Batches(rows))
  {
    BatchesFromPartition([], rows);
    BatchesFromGreedy([], rows);
    assert [] + rows == rows;
  }

  function BatchStatements(head: string, batches: seq<seq<Row>>): seq<string> {
    seq(|batches|, i requires 0 <= i < |batches| => StatementText(head, RowTexts(batches[i])))
  }

  /** The statements of one table, built row by row. */
  method InsertStatements(head: string, rows: seq<Row>) returns (parts: seq<string>)
    ensures parts == BatchStatements(head, Batches(rows))
  {
    hide RowText, StatementText;
    parts := [];
    var chunk: seq<string>, chunkChars := [], 0;
    ghost var closed: seq<seq<Row>>, open: seq<Row> := [], [];
    for i := 0 to |rows|
      invariant parts == BatchStatements(head, closed)
      invariant chunk == RowTexts(open) && chunkChars == CountedChars(open)
      invariant Batches(rows) == closed + BatchesFrom(open, rows[i..])
    {
      var values := RowText(rows[i]);
      assert rows[i..][0] == rows[i] && rows[i..][1..] == rows[i + 1..];
      if chunk != [] && (|chunk| >= BATCH_ROWS || chunkChars + |values| > BATCH_CHARS) {
        parts := parts + [StatementText(head, chunk)];
        chunk, chunkChars := [], 0;
        assert closed + ([open] + BatchesFrom([rows[i]], rows[i + 1..]))
            == closed + [open] + BatchesFrom([rows[i]], rows[i + 1..]);
        closed, open := closed + [open], [];
        assert [] + [rows[i]] == [rows[i]];
      }
      CountedCharsAppend(open, rows[i]);
      chunk := chunk + [values];
      chunkChars := chunkChars + |values| + 2;
      open := open + [rows[i]];
    }
    if chunk != [] {
      parts := parts + [StatementText(head, chunk)];
      assert Batches(rows) == closed + [open];
    }
  }
}
