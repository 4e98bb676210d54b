/** The text writer of src/output.rs, which quotes nothing in TSV and cleans tabs and line ends away, against
    the parser of src/delimited.rs: which tables read back as they were. */
module TabText {
  import opened Prelude
  import opened Delimited
  import opened DelimitedRoundTrip

  predicate Breaks(b: Byte) {
    b == TAB || b == CR || b == LF
  }

  function CleanByte(b: Byte): Byte {
    if Breaks(b) then SPACE else b
  }

  function Clean(cell: Cell): (r: Cell)
    ensures |r| == |cell|
  {
    seq(|cell|, i requires 0 <= i < |cell| => CleanByte(cell[i]))
  }

  function Joined(row: Row): Cell {
    if |row| == 0 then []
    else if |row| == 1 then Clean(row[0])
    else Clean(row[0]) + [TAB] + Joined(row[1..])
  }

  /** `delimited_bytes` of one row. */
  function Line(row: Row, tsv: bool): Cell {
    if tsv then Joined(row) + [LF] else Record(row, COMMA)
  }

  function Lines(rows: seq<Row>, tsv: bool): Cell {
    if |rows| == 0 then [] else Lines(rows[..|rows| - 1], tsv) + Line(rows[|rows| - 1], tsv)
  }

  /** No tab, carriage return or line feed in any cell. */
  predicate Unbroken(row: Row) {
    forall j, k | 0 <= j < |row| && 0 <= k < |row[j]| :: !Breaks(row[j][k])
  }

  predicate AllUnbroken(rows: seq<Row>) {
    forall i | 0 <= i < |rows| :: Unbroken(rows[i])
  }

  predicate RowQuoteFree(row: Row) {
    forall j | 0 <= j < |row| :: QUOTE !in row[j]
  }

  predicate QuoteFree(rows: seq<Row>) {
    forall i | 0 <= i < |rows| :: RowQuoteFree(rows[i])
  }

  // ---- sizes ------------------------------------------------------------------------------

  /** Each cell with one byte that ends it. */
  function Weight(row: Row): nat {
    if |row| == 0 then 0 else Weight(row[..|row| - 1]) + |row[|row| - 1]| + 1
  }

  function TotalWeight(rows: seq<Row>): nat {
    if |rows| == 0 then 0 else TotalWeight(rows[..|rows| - 1]) + Weight(rows[|rows| - 1])
  }

  lemma WeightMore(row: Row, cell: Cell)
    ensures Weight(row + [cell]) == Weight(row) + |cell| + 1
  {
    assert (row + [cell])[..|row|] == row;
  }

  lemma TotalMore(rows: seq<Row>, row: Row)
    ensures TotalWeight(rows + [row]) == TotalWeight(rows) + Weight(row)
  {
    assert (rows + [row])[..|rows|] == rows;
  }

  lemma {:induction false} WeightFirst(row: Row)
    requires |row| > 0
    ensures Weight(row) == |row[0]| + 1 + Weight(row[1..])
  {
    if |row| > 1 {
      var n := |row| - 1;
      WeightFirst(row[..n]);
      assert row[..n][1..] == row[1..][..n - 1];
    } else {
      assert row[..0] == [] && row[1..] == [];
    }
  }

  lemma {:induction false} LineWeight(row: Row)
    requires |row| > 0
    ensures |Line(row, true)| == Weight(row)
  {
    WeightFirst(row);
    if |row| > 1 {
      LineWeight(row[1..]);
    } else {
      assert row[1..] == [];
    }
  }

  lemma {:induction false} LinesWeight(rows: seq<Row>)
    requires Nonempty(rows)
    ensures |Lines(rows, true)| == TotalWeight(rows)
  {
    hide Line;
    if |rows| > 0 {
      LinesWeight(rows[..|rows| - 1]);
      LineWeight(rows[|rows| - 1]);
    }
  }

  // ---- what the parser spends -------------------------------------------------------------

  /** A quoted field costs two bytes more than it holds; an unquoted one holds no quotation mark. */
  lemma {:induction false} QuotedCost(s: seq<Byte>)
    requires QuotedCell(s).Some?
    ensures |QuotedCell(s).value.0| + |QuotedCell(s).value.1| + 1 <= |s|
    decreases |s|
  {
    if !(s[0] == QUOTE && !(|s| > 1 && s[1] == QUOTE)) {
      QuotedCost(s[if s[0] == QUOTE then 2 else 1..]);
    }
  }

  lemma {:induction false} PlainCost(s: seq<Byte>, d: Byte)
    requires PlainCell(s, d).Some?
    ensures s == PlainCell(s, d).value.0 + PlainCell(s, d).value.1 && QUOTE !in PlainCell(s, d).value.0
    decreases |s|
  {
    if !(|s| == 0 || EndsCell(s[0], d)) {
      PlainCost(s[1..], d);
      assert s == [s[0]] + s[1..];
    }
  }

  lemma CellCost(s: seq<Byte>, d: Byte)
    requires |s| > 0 && ReadCell(s, d).Some?
    ensures var cell, rest := ReadCell(s, d).value.0, ReadCell(s, d).value.1;
      (|cell| + |rest| + 2 <= |s|) || (|cell| + |rest| == |s| && (QUOTE in s ==> QUOTE in rest))
  {
    if s[0] == QUOTE {
      QuotedCost(s[1..]);
    } else {
      PlainCost(s, d);
    }
  }

  /** What the rest of a parse can still add, with one byte to spare where a quotation mark is left. */
  predicate Spends(out: Res<seq<Row>>, rows: seq<Row>, row: Row, s: seq<Byte>, slack: int) {
    out.Ok? ==>
      && TotalWeight(out.value) <= TotalWeight(rows) + Weight(row) + |s| + slack
      && (QUOTE in s ==> TotalWeight(out.value) + 2 <= TotalWeight(rows) + Weight(row) + |s| + slack)
  }

  lemma {:induction false} ParseSpends(s: seq<Byte>, d: Byte, row: Row, cells: nat, rows: seq<Row>)
    requires d != QUOTE
    ensures Spends(ParseFrom(s, d, row, cells, rows), rows, row, s, 1)
    decreases |s|, 2
  {
    hide ReadCell, TotalWeight, Weight;
    if |s| > 0 {
      var cell := ReadCell(s, d);
      if cell.Some? && |row| + 1 <= MAX_COLUMNS && cells + 1 <= MAX_CELLS {
        CellCost(s, d);
        WeightMore(row, cell.value.0);
        AfterSpends(cell.value.1, d, row + [cell.value.0], cells + 1, rows, s);
      }
    }
  }

  lemma {:induction false} AfterSpends(rest: seq<Byte>, d: Byte, row: Row, cells: nat, rows: seq<Row>, before: seq<Byte>)
    requires d != QUOTE && |before| > 0 && |rest| <= |before| && (|rest| > 0 ==> EndsCell(rest[0], d))
    ensures Spends(AfterCell(rest, d, row, cells, rows, before), rows, row, rest, 0)
    decreases |before|, 1
  {
    hide ParseFrom, TotalWeight, Weight;
    if |rest| == 0 {
      EndSpends([], d, row, cells, rows, before);
    } else if rest[0] == d {
      if |rest| > 1 {
        ParseSpends(rest[1..], d, row, cells, rows);
      } else if |row| + 1 <= MAX_COLUMNS && cells + 1 <= MAX_CELLS {
        WeightMore(row, []);
        EndSpends([], d, row + [[]], cells + 1, rows, before);
      }
    } else if rest[0] == CR {
      if |rest| > 1 && rest[1] == LF {
        EndSpends(rest[2..], d, row, cells, rows, before);
      }
    } else {
      EndSpends(rest[1..], d, row, cells, rows, before);
    }
  }

  lemma {:induction false} EndSpends(rest: seq<Byte>, d: Byte, row: Row, cells: nat, rows: seq<Row>, before: seq<Byte>)
    requires d != QUOTE && |rest| < |before|
    ensures Spends(EndRow(rest, d, row, cells, rows, before), rows, row, rest, if |rest| == 0 then 0 else 1)
    decreases |before|, 0
  {
    hide ParseFrom, TotalWeight, Weight;
    if |rows| + 1 <= MAX_ROWS + 1 {
      TotalMore(rows, row);
      WeightOfNothing();
      if |rest| == 0 {
        NothingToParse(d, cells, rows + [row]);
      } else {
        ParseSpends(rest, d, [], cells, rows + [row]);
      }
    }
  }

  lemma WeightOfNothing()
    ensures Weight([]) == 0
  {
  }

  // ---- reading back -----------------------------------------------------------------------

  lemma {:induction false} PlainJoined(row: Row)
    requires Unbroken(row) && RowQuoteFree(row)
    ensures Joined(row) == WriteCells(row, TAB)
  {
    if |row| > 0 {
      assert Clean(row[0]) == row[0] && !NeedsQuotes(row[0], TAB);
      PlainJoined(row[1..]);
    }
  }

  lemma {:induction false} RecordsLast(rows: seq<Row>, d: Byte)
    requires |rows| > 0
    ensures Records(rows, d) == Records(rows[..|rows| - 1], d) + Record(rows[|rows| - 1], d)
  {
    hide Record;
    var n := |rows| - 1;
    if n == 0 {
      assert rows[..0] == [] && rows[1..] == [] && Records([], d) == [];
    } else {
      RecordsLast(rows[1..], d);
      assert rows[1..][..n - 1] == rows[..n][1..] && rows[1..][n - 1] == rows[n] && rows[..n][0] == rows[0];
    }
  }

  /** CSV lines are the records of the batch writer. */
  lemma {:induction false} CsvLines(rows: seq<Row>)
    ensures Lines(rows, false) == Records(rows, COMMA)
  {
    hide Record;
    if |rows| > 0 {
      CsvLines(rows[..|rows| - 1]);
      RecordsLast(rows, COMMA);
    }
  }

  /** So are TSV lines where nothing needs quoting. */
  lemma {:induction false} PlainLines(rows: seq<Row>)
    requires AllUnbroken(rows) && QuoteFree(rows)
    ensures Lines(rows, true) == Records(rows, TAB)
  {
    hide Record, Line, Unbroken, RowQuoteFree;
    if |rows| > 0 {
      var n := |rows| - 1;
      PlainLines(rows[..n]);
      RecordsLast(rows, TAB);
      assert Unbroken(rows[n]) && RowQuoteFree(rows[n]);
      PlainLine(rows[n]);
    }
  }

  lemma PlainLine(row: Row)
    requires Unbroken(row) && RowQuoteFree(row)
    ensures Line(row, true) == Record(row, TAB)
  {
    PlainJoined(row);
  }

  lemma {:induction false} QuoteInLine(row: Row)
    requires Unbroken(row) && !RowQuoteFree(row)
    ensures QUOTE in Joined(row)
  {
    var j :| 0 <= j < |row| && QUOTE in row[j];
    if j == 0 {
      assert Clean(row[0]) == row[0];
    } else {
      assert row[1..][j - 1] == row[j];
      QuoteInLine(row[1..]);
    }
  }

  lemma {:induction false} QuoteInLines(rows: seq<Row>)
    requires AllUnbroken(rows) && !QuoteFree(rows)
    ensures QUOTE in Lines(rows, true)
  {
    hide Unbroken, RowQuoteFree;
    var n := |rows| - 1;
    if RowQuoteFree(rows[n]) {
      QuoteInLines(rows[..n]);
    } else {
      QuoteInLine(rows[n]);
    }
  }

  // ---- cells with tabs and line ends ------------------------------------------------------

  function CleanRow(row: Row): (r: Row)
    ensures |r| == |row|
  {
    seq(|row|, j requires 0 <= j < |row| => Clean(row[j]))
  }

  function CleanRows(rows: seq<Row>): (r: seq<Row>)
    ensures |r| == |rows|
  {
    seq(|rows|, i requires 0 <= i < |rows| => CleanRow(rows[i]))
  }

  lemma CleanTwice(cell: Cell)
    ensures Clean(Clean(cell)) == Clean(cell)
  {
  }

  lemma {:induction false} CleanJoined(row: Row)
    ensures Joined(CleanRow(row)) == Joined(row)
  {
    hide Clean;
    if |row| > 0 {
      CleanTwice(row[0]);
      CleanJoined(row[1..]);
      assert CleanRow(row)[1..] == CleanRow(row[1..]);
    }
  }

  /** The writer replaces tabs and line ends before anything else. */
  lemma {:induction false} CleanLines(rows: seq<Row>)
    ensures Lines(CleanRows(rows), true) == Lines(rows, true)
  {
    hide CleanRow, Joined;
    if |rows| > 0 {
      var n := |rows| - 1;
      CleanLines(rows[..n]);
      CleanJoined(rows[n]);
      assert CleanRows(rows)[..n] == CleanRows(rows[..n]);
    }
  }

  lemma CleanCell(cell: Cell)
    ensures QUOTE in Clean(cell) <==> QUOTE in cell
    ensures 0 in Clean(cell) <==> 0 in cell
    ensures forall k | 0 <= k < |cell| :: !Breaks(Clean(cell)[k])
  {
    assert forall k | 0 <= k < |cell| :: Clean(cell)[k] == CleanByte(cell[k]);
    assert QUOTE in cell ==> QUOTE in Clean(cell) by {
      if QUOTE in cell {
        var k :| 0 <= k < |cell| && cell[k] == QUOTE;
        assert Clean(cell)[k] == QUOTE;
      }
    }
    assert 0 in cell ==> 0 in Clean(cell) by {
      if 0 in cell {
        var k :| 0 <= k < |cell| && cell[k] == 0;
        assert Clean(cell)[k] == 0;
      }
    }
  }

  lemma CleanRowKeeps(row: Row)
    ensures Unbroken(CleanRow(row)) && (RowQuoteFree(CleanRow(row)) <==> RowQuoteFree(row))
    ensures RowNulFree(CleanRow(row)) <==> RowNulFree(row)
  {
    hide Clean;
    forall j | 0 <= j < |row|
      ensures QUOTE in CleanRow(row)[j] <==> QUOTE in row[j]
      ensures 0 in CleanRow(row)[j] <==> 0 in row[j]
      ensures forall k | 0 <= k < |row[j]| :: !Breaks(CleanRow(row)[j][k])
    {
      CleanCell(row[j]);
    }
  }

  lemma {:induction false} CleanCount(rows: seq<Row>)
    ensures CellCount(CleanRows(rows)) == CellCount(rows)
  {
    hide CleanRow;
    if |rows| > 0 {
      CleanCount(rows[1..]);
      assert CleanRows(rows)[1..] == CleanRows(rows[1..]);
    }
  }

  lemma NulFreeByRow(rows: seq<Row>)
    ensures NulFree(rows) <==> forall i | 0 <= i < |rows| :: RowNulFree(rows[i])
  {
  }

  lemma CleanRowsKeep(rows: seq<Row>)
    ensures AllUnbroken(CleanRows(rows)) && (QuoteFree(CleanRows(rows)) <==> QuoteFree(rows))
    ensures Storable(CleanRows(rows)) <==> Storable(rows)
  {
    hide CleanRow, Unbroken, RowQuoteFree, NulFree, RowNulFree, CellCount;
    var clean := CleanRows(rows);
    forall i | 0 <= i < |rows|
      ensures |clean[i]| == |rows[i]| && Unbroken(clean[i]) && (RowQuoteFree(clean[i]) <==> RowQuoteFree(rows[i]))
      ensures RowNulFree(clean[i]) <==> RowNulFree(rows[i])
    {
      CleanRowKeeps(rows[i]);
    }
    CleanCount(rows);
    NulFreeByRow(rows);
    NulFreeByRow(clean);
  }

  /** Where nothing is broken, quotation marks decide. */
  lemma UnbrokenReadsBack(rows: seq<Row>)
    requires AllUnbroken(rows)
    ensures Parse(Lines(rows, true), TAB) == Ok(rows) <==> Storable(rows) && QuoteFree(rows)
  {
    hide ParseFrom, Lines, Unbroken, RowQuoteFree, Records, TotalWeight;
    if Parse(Lines(rows, true), TAB) == Ok(rows) {
      ReadBackIsQuoteFree(rows);
    }
    if Storable(rows) && QuoteFree(rows) {
      PlainLines(rows);
      TableRoundTrip(rows, TAB);
    }
  }

  /** Each quotation mark would cost the parser bytes that the text does not have. */
  lemma ReadBackIsQuoteFree(rows: seq<Row>)
    requires Parse(Lines(rows, true), TAB) == Ok(rows)
    ensures Storable(rows) && QuoteFree(rows)
  {
    hide ParseFrom, Lines, Unbroken, RowQuoteFree, Records, TotalWeight, CleanRows;
    var s := Lines(rows, true);
    ParsedIsStorable(s, TAB);
    ParseSpends(s, TAB, [], 0, []);
    NoWeight();
    LinesWeight(rows);
    CleanLines(rows);
    CleanRowsKeep(rows);
    if !QuoteFree(rows) {
      QuoteInLines(CleanRows(rows));
    }
  }

  /** A TSV text reads back as the same rows exactly when they are within the limits of a table and no cell
      holds a quotation mark, a tab or a line end: the writer never quotes and turns tabs and line ends
      into spaces, and the parser always takes a quotation mark for quoting. */
  lemma TabTextReadsBack(rows: seq<Row>)
    ensures Parse(Lines(rows, true), TAB) == Ok(rows) <==> Storable(rows) && QuoteFree(rows) && AllUnbroken(rows)
  {
    hide Parse, Lines, Storable, QuoteFree, AllUnbroken, CleanRows;
    if AllUnbroken(rows) {
      UnbrokenReadsBack(rows);
    } else if Parse(Lines(rows, true), TAB) == Ok(rows) {
      ReadBackIsQuoteFree(rows);
      CleanLines(rows);
      CleanRowsKeep(rows);
      UnbrokenReadsBack(CleanRows(rows));
    }
  }

  lemma NoWeight()
    ensures TotalWeight([]) == 0 && Weight([]) == 0
  {
  }

  /** One cell that shows it: a quoted word comes back without its quotation marks. */
  lemma QuotedWordIsUnquoted()
    ensures Parse(Lines([[[QUOTE, 97, QUOTE]]], true), TAB) == Ok([[[97]]])
  {
    var cell: Cell := [QUOTE, 97, QUOTE];
    assert Clean(cell) == cell;
    var s: seq<Byte> := [QUOTE, 97, QUOTE, LF];
    assert Lines([[cell]], true) == s by {
      assert Lines([], true) == [];
    }
    assert QuotedCell(s[1..]) == Some(([97], [LF])) by {
      assert s[1..] == DoubleQuotes([97]) + [QUOTE] + [LF] by {
        assert DoubleQuotes([]) == [] && DoubleQuotes([97]) == [97] + DoubleQuotes([97][1..]);
      }
      QuotedReads([97], [LF]);
    }
    assert [] + [[97]] == [[97]];
    assert ParseFrom(s, TAB, [], 0, []) == AfterCell([LF], TAB, [[97]], 1, [], s);
    assert [LF][1..] == [] && [] + [[[97]]] == [[[97]]];
    assert EndRow([], TAB, [[97]], 1, [], s) == ParseFrom([], TAB, [], 1, [[[97]]]);
  }
}
