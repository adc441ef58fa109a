/** Rows on their way through a table: written by the client, stored, and read back. */
module CopyTransfer {
  import opened Basics
  import opened CopyText
  import opened TableReader

  lemma {:induction false} LinesAppend(side: Side, rows: seq<Row>, row: Row)
    ensures Lines(side, rows + [row]) == Lines(side, rows) + LineText(side, row)
  {
    if rows == [] {
      assert rows + [row] == [row];
      assert LineText(side, row) + [] == LineText(side, row);
    } else {
      assert (rows + [row])[1..] == rows[1..] + [row];
      LinesAppend(side, rows[1..], row);
      Associative(LineText(side, rows[0]), Lines(side, rows[1..]), LineText(side, row));
    }
  }

  lemma {:induction false} LinesOfPrefix(side: Side, rows: seq<Row>, n: nat)
    requires n < |rows|
    ensures Lines(side, rows[..n + 1]) == Lines(side, rows[..n]) + LineText(side, rows[n])
  {
    LinesAppend(side, rows[..n], rows[n]);
    assert rows[..n + 1] == rows[..n] + [rows[n]];
  }

  /** A `table_writer` inserts all rows; their lines reach the server one after the other. */
  method WriteRows(rows: seq<Row>) returns (text: string)
    requires forall i :: 0 <= i < |rows| ==> rows[i] != []
    ensures text == Lines(Client, rows)
  {
    text := [];
    for n := 0 to |rows|
      invariant text == Lines(Client, rows[..n])
    {
      var line := InsertIndexed(rows[n]);
      text := text + line;
      LinesOfPrefix(Client, rows, n);
    }
    assert rows[..|rows|] == rows;
  }

  /**
    The rows a writer inserts come back from a reader's loop, in order and unchanged, exactly when
    there are any: the server decodes the writer's lines, stores the rows, and encodes them again for
    the reader. From a table that stayed empty the loop reads an entry that does not exist.
   */
  method StoreAndFetch(columns: nat, rows: seq<Row>) returns (back: Option<seq<Row>>)
    requires columns > 0 && AllHave(columns, rows) && forall i :: 0 <= i < |rows| ==> RowNulFree(rows[i])
    ensures back == if rows == [] then None else Some(rows)
  {
    var text := WriteRows(rows);
    CopyFromOfWritten(Client, rows);
    var stored := CopyFrom(text).value;
    var lines := seq(|stored|, i requires 0 <= i < |stored| => LineText(Server, stored[i]));
    var reader := new TableReader(columns, lines);
    back := reader.AsContainer(stored);
    IterationIsExact(columns, rows);
  }
}
