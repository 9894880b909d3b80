/** The row filter of `save_tables_to_xlsx` (analyze.py:18-26): every row of every
    table, in order, is appended to the worksheet when its first cell is truthy.
    The worksheet itself is modelled as the sequence of rows appended to it. */
module RowFilter {
  import opened Wrappers
  import opened Sequences

  /** A pdfplumber cell: text, or None for an empty cell. */
  type Cell = Option<string>
  type Row = seq<Cell>
  type Table = seq<Row>

  /** Python truthiness of a cell: None and "" are false, every other string is true. */
  predicate IsTruthy(c: Cell)
  {
    c.Some? && c.value != ""
  }

  /** The test `if row[0]:` of analyze.py:24. An empty row makes `row[0]` raise
      IndexError; `SaveTables` excludes such rows by its precondition, and here
      they count as rows without text. */
  predicate HasText(row: Row)
  {
    |row| > 0 && IsTruthy(row[0])
  }

  /** Every row of every table has a first cell. */
  predicate NoEmptyRows(tables: seq<Table>)
  {
    forall t, r :: 0 <= t < |tables| && 0 <= r < |tables[t]| ==> |tables[t][r]| > 0
  }

  /** The rows of one sequence that pass the test, in their order. */
  function RowsWithText(rows: seq<Row>): (kept: seq<Row>)
    ensures |kept| <= |rows|
  {
    if rows == [] then []
    else
      var last := rows[|rows| - 1];
      RowsWithText(rows[..|rows| - 1]) + (if HasText(last) then [last] else [])
  }

  /** A row is kept exactly when it is one of the input rows and its first cell has text. */
  lemma {:induction false} RowsWithTextMembers(rows: seq<Row>)
    ensures forall row :: row in RowsWithText(rows) <==> row in rows && HasText(row)
  {
    if rows != [] {
      var init, last := rows[..|rows| - 1], rows[|rows| - 1];
      RowsWithTextMembers(init);
      assert rows == init + [last];
    }
  }

  /** All rows of all tables, table after table (the worksheet before filtering). */
  function Flatten(tables: seq<Table>): seq<Row>
  {
    if tables == [] then [] else Flatten(tables[..|tables| - 1]) + tables[|tables| - 1]
  }

  /** What the nested loop appends: the kept rows of each table, table after table. */
  function KeptRows(tables: seq<Table>): (sheet: seq<Row>)
    ensures |sheet| <= |Flatten(tables)|
  {
    if tables == [] then []
    else KeptRows(tables[..|tables| - 1]) + RowsWithText(tables[|tables| - 1])
  }

  /** The body of `save_tables_to_xlsx` up to `wb.save`: the rows handed to `ws.append`. */
  method SaveTables(tables: seq<Table>) returns (sheet: seq<Row>)
    requires NoEmptyRows(tables)
    ensures sheet == KeptRows(tables)
  {
    sheet := [];
    for t := 0 to |tables|
      invariant sheet == KeptRows(tables[..t])
    {
      var table := tables[t];
      ghost var done := sheet;
      for r := 0 to |table|
        invariant sheet == done + RowsWithText(table[..r])
      {
        var row := table[r];
        assert table[..r + 1][..r] == table[..r] && table[..r + 1][r] == row;
        assert |tables[t][r]| > 0;
        ghost var before := sheet;
        if row[0].Some? && row[0].value != "" {
          sheet := sheet + [row];
        }
        assert sheet == before + (if HasText(row) then [row] else []);
      }
      assert table[..|table|] == table;
      assert tables[..t + 1][..t] == tables[..t] && tables[..t + 1][t] == table;
    }
    assert tables[..|tables|] == tables;
  }

  lemma {:induction false} RowsWithTextAppend(a: seq<Row>, b: seq<Row>)
    ensures RowsWithText(a + b) == RowsWithText(a) + RowsWithText(b)
    decreases |b|
  {
    if b == [] {
      assert a + b == a;
    } else {
      var b', last := b[..|b| - 1], b[|b| - 1];
      RowsWithTextAppend(a, b');
      assert (a + b)[..|a + b| - 1] == a + b';
      assert (a + b)[|a + b| - 1] == last;
      var tail := if HasText(last) then [last] else [];
      calc {
        RowsWithText(a + b);
        RowsWithText(a + b') + tail;
        RowsWithText(a) + RowsWithText(b') + tail;
        RowsWithText(a) + RowsWithText(b);
      }
    }
  }

  /** Order: the kept rows are the input rows with some deleted and the rest in order. */
  lemma {:induction false} RowsWithTextKeepsOrder(rows: seq<Row>)
    ensures IsSubsequence(RowsWithText(rows), rows)
  {
    if rows != [] {
      var init, last := rows[..|rows| - 1], rows[|rows| - 1];
      RowsWithTextKeepsOrder(init);
      var tail := if HasText(last) then [last] else [];
      assert IsSubsequence(tail, [last]) by {
        if tail != [] { assert tail[1..] == []; }
      }
      SubsequenceAppend(RowsWithText(init), init, tail, [last]);
      assert init + [last] == rows;
    }
  }

  /** The worksheet holds exactly the truthy-first-cell rows of the flattened tables, in order. */
  lemma {:induction false} KeptRowsIsFilteredFlatten(tables: seq<Table>)
    ensures KeptRows(tables) == RowsWithText(Flatten(tables))
  {
    if tables != [] {
      var init := tables[..|tables| - 1];
      KeptRowsIsFilteredFlatten(init);
      RowsWithTextAppend(Flatten(init), tables[|tables| - 1]);
    }
  }
}
