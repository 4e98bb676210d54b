/** Written tables read back as themselves, exactly within the parser's limits. */
module DelimitedRoundTrip {
  import opened Prelude
  import opened Delimited

  function CellCount(rows: seq<Row>): nat {
    if |rows| == 0 then 0 else |rows[0]| + CellCount(rows[1..])
  }

  predicate NulFree(rows: seq<Row>) {
    forall i, j | 0 <= i < |rows| && 0 <= j < |rows[i]| :: 0 !in rows[i][j]
  }

  predicate Nonempty(rows: seq<Row>) {
    forall i | 0 <= i < |rows| :: |rows[i]| > 0
  }

  predicate Narrow(rows: seq<Row>) {
    forall i | 0 <= i < |rows| :: |rows[i]| <= MAX_COLUMNS
  }

  /** What a table of this runtime may hold. */
  predicate Storable(rows: seq<Row>) {
    Nonempty(rows) && Narrow(rows) && NulFree(rows) && CellCount(rows) <= MAX_CELLS && |rows| <= MAX_ROWS + 1
  }

  // ---- one cell ---------------------------------------------------------------------------

  lemma {:induction false} QuotedReads(cell: Cell, rest: seq<Byte>)
    requires |rest| > 0 ==> rest[0] != QUOTE
    ensures QuotedCell(DoubleQuotes(cell) + [QUOTE] + rest) == Some((cell, rest))
    decreases |cell|
  {
    var s := DoubleQuotes(cell) + [QUOTE] + rest;
    if |cell| == 0 {
      assert s[1..] == rest;
    } else {
      var tail := DoubleQuotes(cell[1..]) + [QUOTE] + rest;
      QuotedReads(cell[1..], rest);
      if cell[0] == QUOTE {
        assert s == [QUOTE, QUOTE] + tail && s[2..] == tail;
      } else {
        assert s == [cell[0]] + tail && s[1..] == tail;
      }
      assert [cell[0]] + cell[1..] == cell;
    }
  }

  lemma {:induction false} PlainReads(cell: Cell, d: Byte, rest: seq<Byte>)
    requires !NeedsQuotes(cell, d) && (|rest| > 0 ==> EndsCell(rest[0], d))
    ensures PlainCell(cell + rest, d) == Some((cell, rest))
    decreases |cell|
  {
    var s := cell + rest;
    if |cell| == 0 {
      assert s == rest;
    } else {
      assert !Special(cell[0], d);
      assert s[1..] == cell[1..] + rest;
      forall i | 0 <= i < |cell[1..]|
        ensures !Special(cell[1..][i], d)
      {
        assert cell[1..][i] == cell[i + 1];
      }
      PlainReads(cell[1..], d, rest);
      assert [cell[0]] + cell[1..] == cell;
    }
  }

  /** A written cell reads back whatever delimiter or line ending follows it, or at the end of the input. */
  lemma CellRoundTrip(cell: Cell, d: Byte, rest: seq<Byte>)
    requires IsDelimiter(d) && |WriteCell(cell, d) + rest| > 0 && (|rest| > 0 ==> EndsCell(rest[0], d))
    ensures ReadCell(WriteCell(cell, d) + rest, d) == Some((cell, rest))
  {
    hide DoubleQuotes, QuotedCell, PlainCell;
    var s := WriteCell(cell, d) + rest;
    if NeedsQuotes(cell, d) {
      assert s[0] == QUOTE;
      assert s[1..] == DoubleQuotes(cell) + [QUOTE] + rest;
      QuotedReads(cell, rest);
    } else {
      if |cell| > 0 {
        assert !Special(cell[0], d) && s[0] == cell[0];
      } else {
        assert s == rest;
      }
      PlainReads(cell, d, rest);
    }
  }

  // ---- one record -------------------------------------------------------------------------

  /** How a line may end: LF, CR LF, or, for the last line, not at all. */
  datatype Ending = Feed | ReturnFeed | Missing

  function EndingBytes(e: Ending): seq<Byte> {
    match e
    case Feed => [LF]
    case ReturnFeed => [CR, LF]
    case Missing => []
  }

  /** The parser over one written record, in the middle of anything. */
  lemma {:induction false} RecordReads(row: Row, d: Byte, e: Ending, done: Row, cells: nat, rows: seq<Row>, tail: seq<Byte>)
    requires IsDelimiter(d) && |row| > 0 && (e.Missing? ==> tail == [] && row != [[]])
    ensures ParseFrom(WriteCells(row, d) + EndingBytes(e) + tail, d, done, cells, rows) ==
      if |done| + |row| > MAX_COLUMNS || cells + |row| > MAX_CELLS || |rows| + 1 > MAX_ROWS + 1 then Err
      else ParseFrom(tail, d, [], cells + |row|, rows + [done + row])
    decreases |row|
  {
    hide ReadCell, WriteCell, WriteCells, ParseFrom, AfterCell, EndRow;
    var after := EndingBytes(e) + tail;
    var rest := AfterFirst(row, d, after);
    var s := WriteCell(row[0], d) + rest;
    FirstWritten(row, d, after);
    assert s == WriteCells(row, d) + EndingBytes(e) + tail;
    NothingWritten(row[0], d);
    assert |s| > 0;
    CellRoundTrip(row[0], d, rest);
    OneCell(s, rest, row[0], d, done, cells, rows);
    if |done| + 1 <= MAX_COLUMNS && cells + 1 <= MAX_CELLS {
      if |row| == 1 {
        assert row == [row[0]] && done + [row[0]] == done + row;
        LineEnds(rest, d, e, done + row, cells + 1, rows, tail, s);
      } else {
        assert done + [row[0]] + row[1..] == done + row;
        OnlyEmpty(row[1..], d);
        if e.Missing? && row[1..] == [[]] {
          assert rest == [d];
          EmptyLast(d, done + [row[0]], cells + 1, rows, s);
        } else {
          assert rest[1..] == WriteCells(row[1..], d) + EndingBytes(e) + tail;
          RecordReads(row[1..], d, e, done + [row[0]], cells + 1, rows, tail);
          Separated(rest, d, done + [row[0]], cells + 1, rows, s);
        }
      }
    }
  }

  /** What is written behind the first cell. */
  function AfterFirst(row: Row, d: Byte, after: seq<Byte>): seq<Byte>
    requires |row| > 0
  {
    if |row| == 1 then after else [d] + (WriteCells(row[1..], d) + after)
  }

  lemma FirstWritten(row: Row, d: Byte, after: seq<Byte>)
    requires |row| > 0
    ensures WriteCells(row, d) + after == WriteCell(row[0], d) + AfterFirst(row, d, after)
  {
    hide WriteCell;
  }

  lemma NothingWritten(cell: Cell, d: Byte)
    ensures |WriteCell(cell, d)| == 0 <==> cell == []
  {
  }

  lemma OnlyEmpty(row: Row, d: Byte)
    requires |row| > 0
    ensures WriteCells(row, d) == [] <==> row == [[]]
  {
    hide WriteCell;
    NothingWritten(row[0], d);
    assert |row| == 1 ==> row == [row[0]];
  }

  /** One field, then what ends it. */
  lemma OneCell(s: seq<Byte>, rest: seq<Byte>, cell: Cell, d: Byte, done: Row, cells: nat, rows: seq<Row>)
    requires |s| > 0 && ReadCell(s, d) == Some((cell, rest))
    ensures ParseFrom(s, d, done, cells, rows) ==
      if |done| + 1 > MAX_COLUMNS || cells + 1 > MAX_CELLS then Err
      else AfterCell(rest, d, done + [cell], cells + 1, rows, s)
  {
    hide ReadCell, AfterCell;
  }

  lemma LineEnds(rest: seq<Byte>, d: Byte, e: Ending, row: Row, cells: nat, rows: seq<Row>, tail: seq<Byte>, before: seq<Byte>)
    requires IsDelimiter(d) && rest == EndingBytes(e) + tail && (e.Missing? ==> tail == [])
    requires |before| > 0 && |rest| <= |before|
    ensures AfterCell(rest, d, row, cells, rows, before)
         == if |rows| + 1 > MAX_ROWS + 1 then Err else ParseFrom(tail, d, [], cells, rows + [row])
  {
    hide ParseFrom;
    match e
    case Feed => assert rest[1..] == tail;
    case ReturnFeed => assert rest[2..] == tail;
    case Missing =>
  }

  lemma Separated(rest: seq<Byte>, d: Byte, row: Row, cells: nat, rows: seq<Row>, before: seq<Byte>)
    requires |rest| > 1 && rest[0] == d && |before| > 0 && |rest| <= |before|
    ensures AfterCell(rest, d, row, cells, rows, before) == ParseFrom(rest[1..], d, row, cells, rows)
  {
    hide ParseFrom;
  }

  /** A delimiter at the end of the input is followed by one more empty cell. */
  lemma EmptyLast(d: Byte, row: Row, cells: nat, rows: seq<Row>, before: seq<Byte>)
    requires |before| > 0
    ensures AfterCell([d], d, row, cells, rows, before) ==
      if |row| + 1 > MAX_COLUMNS || cells + 1 > MAX_CELLS || |rows| + 1 > MAX_ROWS + 1 then Err
      else ParseFrom([], d, [], cells + 1, rows + [row + [[]]])
  {
    hide ParseFrom;
  }

  // ---- whole tables -----------------------------------------------------------------------

  /** The limits as the parser meets them, row by row. */
  predicate Fits(rows: seq<Row>, cells: nat, before: nat) {
    |rows| > 0 ==>
      && |rows[0]| <= MAX_COLUMNS && cells + |rows[0]| <= MAX_CELLS && before + 1 <= MAX_ROWS + 1
      && Fits(rows[1..], cells + |rows[0]|, before + 1)
  }

  lemma {:induction false} FitsExact(rows: seq<Row>, cells: nat, before: nat)
    requires cells <= MAX_CELLS && before <= MAX_ROWS + 1
    ensures Fits(rows, cells, before) <==>
              Narrow(rows) && cells + CellCount(rows) <= MAX_CELLS && before + |rows| <= MAX_ROWS + 1
  {
    if |rows| > 0 {
      assert Narrow(rows) <==> |rows[0]| <= MAX_COLUMNS && Narrow(rows[1..]) by {
        if |rows[0]| <= MAX_COLUMNS && Narrow(rows[1..]) {
          forall i | 0 <= i < |rows|
            ensures |rows[i]| <= MAX_COLUMNS
          {
            if i > 0 {
              assert rows[1..][i - 1] == rows[i];
            }
          }
        }
      }
      if cells + |rows[0]| <= MAX_CELLS && before + 1 <= MAX_ROWS + 1 {
        FitsExact(rows[1..], cells + |rows[0]|, before + 1);
      }
    }
  }

  lemma {:induction false} RecordsRead(rows: seq<Row>, d: Byte, cells: nat, before: seq<Row>)
    requires IsDelimiter(d) && Nonempty(rows)
    ensures ParseFrom(Records(rows, d), d, [], cells, before)
         == if Fits(rows, cells, |before|) then Ok(before + rows) else Err
    decreases |rows|
  {
    hide ParseFrom, WriteCells;
    if |rows| == 0 {
      NothingToParse(d, cells, before);
      assert before + rows == before;
    } else {
      assert Records(rows, d) == WriteCells(rows[0], d) + [LF] + Records(rows[1..], d);
      RecordReads(rows[0], d, Feed, [], cells, before, Records(rows[1..], d));
      assert [] + rows[0] == rows[0];
      RecordsRead(rows[1..], d, cells + |rows[0]|, before + [rows[0]]);
      assert before + [rows[0]] + rows[1..] == before + rows;
    }
  }

  lemma NothingToParse(d: Byte, cells: nat, rows: seq<Row>)
    ensures ParseFrom([], d, [], cells, rows) == Ok(rows)
  {
  }

  // ---- NUL --------------------------------------------------------------------------------

  lemma {:induction false} NulInQuotes(cell: Cell)
    ensures 0 in DoubleQuotes(cell) <==> 0 in cell
  {
    if |cell| > 0 {
      NulInQuotes(cell[1..]);
      assert cell == [cell[0]] + cell[1..];
    }
  }

  lemma {:induction false} NulInCells(row: Row, d: Byte)
    requires d != 0
    ensures 0 in WriteCells(row, d) <==> exists j :: 0 <= j < |row| && 0 in row[j]
  {
    if |row| > 0 {
      NulInQuotes(row[0]);
      assert 0 in WriteCell(row[0], d) <==> 0 in row[0];
      NulInCells(row[1..], d);
      assert forall j | 1 <= j < |row| :: row[j] == row[1..][j - 1];
      assert forall j | 0 <= j < |row| - 1 :: row[1..][j] == row[j + 1];
    }
  }

  lemma {:induction false} NulInRecords(rows: seq<Row>, d: Byte)
    requires d != 0
    ensures 0 in Records(rows, d) <==> !NulFree(rows)
  {
    hide WriteCells;
    if |rows| > 0 {
      NulInCells(rows[0], d);
      NulInRecords(rows[1..], d);
      assert forall i | 1 <= i < |rows| :: rows[i] == rows[1..][i - 1];
      assert forall i | 0 <= i < |rows| - 1 :: rows[1..][i] == rows[i + 1];
    }
  }

  // ---- what the parser can return ---------------------------------------------------------

  lemma {:induction false} QuotedBytes(s: seq<Byte>)
    requires 0 !in s && QuotedCell(s).Some?
    ensures 0 !in QuotedCell(s).value.0 && 0 !in QuotedCell(s).value.1
    decreases |s|
  {
    if !(s[0] == QUOTE && !(|s| > 1 && s[1] == QUOTE)) {
      QuotedBytes(s[if s[0] == QUOTE then 2 else 1..]);
    }
  }

  lemma {:induction false} PlainBytes(s: seq<Byte>, d: Byte)
    requires 0 !in s && PlainCell(s, d).Some?
    ensures 0 !in PlainCell(s, d).value.0 && 0 !in PlainCell(s, d).value.1
    decreases |s|
  {
    if |s| > 0 && !EndsCell(s[0], d) {
      PlainBytes(s[1..], d);
    }
  }

  lemma FieldBytes(s: seq<Byte>, d: Byte)
    requires |s| > 0 && 0 !in s && ReadCell(s, d).Some?
    ensures 0 !in ReadCell(s, d).value.0 && 0 !in ReadCell(s, d).value.1
  {
    if s[0] == QUOTE {
      QuotedBytes(s[1..]);
    } else {
      PlainBytes(s, d);
    }
  }

  predicate RowNulFree(row: Row) {
    forall j | 0 <= j < |row| :: 0 !in row[j]
  }

  /** The parser's own state: finished rows are storable, the row under way is within the limits. */
  predicate Sound(row: Row, cells: nat, rows: seq<Row>) {
    && Nonempty(rows) && Narrow(rows) && NulFree(rows) && |rows| <= MAX_ROWS + 1
    && |row| <= MAX_COLUMNS && RowNulFree(row)
    && cells == CellCount(rows) + |row| && cells <= MAX_CELLS
  }

  lemma {:induction false} CountMore(rows: seq<Row>, row: Row)
    ensures CellCount(rows + [row]) == CellCount(rows) + |row|
  {
    if |rows| > 0 {
      assert (rows + [row])[0] == rows[0] && (rows + [row])[1..] == rows[1..] + [row];
      CountMore(rows[1..], row);
    }
  }

  lemma {:induction false} ParsedFrom(s: seq<Byte>, d: Byte, row: Row, cells: nat, rows: seq<Row>)
    requires 0 !in s && Sound(row, cells, rows) && (s == [] ==> row == [])
    ensures ParseFrom(s, d, row, cells, rows).Ok? ==> Storable(ParseFrom(s, d, row, cells, rows).value)
    decreases |s|, 2
  {
    hide ReadCell;
    if |s| > 0 {
      var cell := ReadCell(s, d);
      if cell.Some? && |row| + 1 <= MAX_COLUMNS && cells + 1 <= MAX_CELLS {
        FieldBytes(s, d);
        AfterParsed(cell.value.1, d, row + [cell.value.0], cells + 1, rows, s);
      }
    }
  }

  lemma {:induction false} AfterParsed(rest: seq<Byte>, d: Byte, row: Row, cells: nat, rows: seq<Row>, before: seq<Byte>)
    requires |before| > 0 && |rest| <= |before| && (|rest| > 0 ==> EndsCell(rest[0], d))
    requires 0 !in rest && Sound(row, cells, rows) && |row| > 0
    ensures AfterCell(rest, d, row, cells, rows, before).Ok? ==> Storable(AfterCell(rest, d, row, cells, rows, before).value)
    decreases |before|, 1
  {
    hide ParseFrom;
    if |rest| == 0 {
      EndParsed([], d, row, cells, rows, before);
    } else if rest[0] == d {
      if |rest| > 1 {
        ParsedFrom(rest[1..], d, row, cells, rows);
      } else if |row| + 1 <= MAX_COLUMNS && cells + 1 <= MAX_CELLS {
        EndParsed([], d, row + [[]], cells + 1, rows, before);
      }
    } else if rest[0] == CR {
      if |rest| > 1 && rest[1] == LF {
        EndParsed(rest[2..], d, row, cells, rows, before);
      }
    } else {
      EndParsed(rest[1..], d, row, cells, rows, before);
    }
  }

  lemma {:induction false} EndParsed(rest: seq<Byte>, d: Byte, row: Row, cells: nat, rows: seq<Row>, before: seq<Byte>)
    requires |rest| < |before| && 0 !in rest && Sound(row, cells, rows) && |row| > 0
    ensures EndRow(rest, d, row, cells, rows, before).Ok? ==> Storable(EndRow(rest, d, row, cells, rows, before).value)
    decreases |before|, 0
  {
    hide ParseFrom;
    if |rows| + 1 <= MAX_ROWS + 1 {
      CountMore(rows, row);
      ParsedFrom(rest, d, [], cells, rows + [row]);
    }
  }

  /** Whatever the input, an accepted table is within every limit. */
  lemma ParsedIsStorable(s: seq<Byte>, d: Byte)
    requires Parse(s, d).Ok?
    ensures Storable(Parse(s, d).value)
  {
    hide ParseFrom;
    ParsedFrom(s, d, [], 0, []);
  }

  // ---- round trips ------------------------------------------------------------------------

  /** Writing and parsing gives the same rows exactly when the rows are storable: nonempty, free of
      NUL, and within the column, cell and row limits. Delimiters, quotes, line endings and empty
      cells are all carried. */
  lemma TableRoundTrip(rows: seq<Row>, d: Byte)
    requires IsDelimiter(d)
    ensures Parse(Records(rows, d), d) == Ok(rows) <==> Storable(rows)
  {
    hide ParseFrom, Records, WriteCells;
    if Parse(Records(rows, d), d) == Ok(rows) {
      ParsedIsStorable(Records(rows, d), d);
    }
    if Storable(rows) {
      NulInRecords(rows, d);
      RecordsRead(rows, d, 0, []);
      FitsExact(rows, 0, 0);
      assert [] + rows == rows;
    }
  }

  /** Rows beyond a limit, or with a NUL, are refused rather than changed. */
  lemma OversizeIsRefused(rows: seq<Row>, d: Byte)
    requires IsDelimiter(d) && Nonempty(rows) && !Storable(rows)
    ensures Parse(Records(rows, d), d).Err?
  {
    hide ParseFrom, Records, WriteCells;
    NulInRecords(rows, d);
    RecordsRead(rows, d, 0, []);
    FitsExact(rows, 0, 0);
  }

  /** A row without cells is the one thing a record cannot carry: it reads back as one empty cell. */
  lemma EmptyRowBecomesCell(d: Byte)
    requires IsDelimiter(d)
    ensures Parse(Records([[]], d), d) == Ok([[[]]])
  {
    var none: seq<Row>, one: seq<Row> := [[]], [[[]]];
    assert none[1..] == [] && one[1..] == [];
    assert WriteCells(none[0], d) == [] == WriteCells(one[0], d);
    assert Records(none, d) == Records(one, d);
    assert CellCount(one[1..]) == 0;
    TableRoundTrip(one, d);
  }

  /** Parse, write with either delimiter, parse again: nothing changes. */
  lemma ParseWriteParse(s: seq<Byte>, d: Byte, d': Byte)
    requires Parse(s, d).Ok? && IsDelimiter(d')
    ensures Parse(Records(Parse(s, d).value, d'), d') == Parse(s, d)
  {
    hide Parse, Records;
    ParsedIsStorable(s, d);
    TableRoundTrip(Parse(s, d).value, d');
  }

  // ---- other line endings -----------------------------------------------------------------

  /** The text of a table whose lines end as given. */
  function Ended(rows: seq<Row>, ends: seq<Ending>, d: Byte): seq<Byte>
    requires |ends| == |rows|
  {
    if |rows| == 0 then [] else WriteCells(rows[0], d) + EndingBytes(ends[0]) + Ended(rows[1..], ends[1..], d)
  }

  /** Only the last line may lack its ending, and it must not be empty. */
  predicate Endable(rows: seq<Row>, ends: seq<Ending>) {
    && |ends| == |rows|
    && forall i | 0 <= i < |rows| && ends[i].Missing? :: i == |rows| - 1 && rows[i] != [[]]
  }

  lemma {:induction false} EndedReads(rows: seq<Row>, ends: seq<Ending>, d: Byte, cells: nat, before: seq<Row>)
    requires IsDelimiter(d) && Nonempty(rows) && Endable(rows, ends)
    ensures ParseFrom(Ended(rows, ends, d), d, [], cells, before)
         == if Fits(rows, cells, |before|) then Ok(before + rows) else Err
    decreases |rows|
  {
    hide ParseFrom, WriteCells;
    if |rows| == 0 {
      NothingToParse(d, cells, before);
      assert before + rows == before;
    } else {
      var tail := Ended(rows[1..], ends[1..], d);
      RecordReads(rows[0], d, ends[0], [], cells, before, tail);
      assert [] + rows[0] == rows[0];
      EndedReads(rows[1..], ends[1..], d, cells + |rows[0]|, before + [rows[0]]);
      assert before + [rows[0]] + rows[1..] == before + rows;
    }
  }

  lemma {:induction false} NulInEnded(rows: seq<Row>, ends: seq<Ending>, d: Byte)
    requires d != 0 && |ends| == |rows|
    ensures 0 in Ended(rows, ends, d) <==> !NulFree(rows)
  {
    hide WriteCells;
    if |rows| > 0 {
      NulInCells(rows[0], d);
      NulInEnded(rows[1..], ends[1..], d);
      assert 0 !in EndingBytes(ends[0]);
      assert forall i | 1 <= i < |rows| :: rows[i] == rows[1..][i - 1];
      assert forall i | 0 <= i < |rows| - 1 :: rows[1..][i] == rows[i + 1];
    }
  }

  /** However the lines end, the text reads back as the rows exactly when they are storable; beyond a limit
      or with a NUL it is refused. */
  lemma EndingsDoNotMatter(rows: seq<Row>, ends: seq<Ending>, d: Byte)
    requires IsDelimiter(d) && Nonempty(rows) && Endable(rows, ends)
    ensures Parse(Ended(rows, ends, d), d) == if Storable(rows) then Ok(rows) else Err
  {
    hide ParseFrom, Ended;
    NulInEnded(rows, ends, d);
    EndedReads(rows, ends, d, 0, []);
    FitsExact(rows, 0, 0);
    assert [] + rows == rows;
  }

  function Every(e: Ending, n: nat): seq<Ending> {
    seq(n, _ => e)
  }

  lemma {:induction false} FeedsAreRecords(rows: seq<Row>, last: Ending, d: Byte)
    requires |rows| > 0 && (last.Feed? || last.Missing?)
    ensures var ends := Every(Feed, |rows| - 1) + [last]; var all := Records(rows, d);
      |all| > 0 && Ended(rows, ends, d) == if last.Feed? then all else all[..|all| - 1]
  {
    hide WriteCells;
    var ends := Every(Feed, |rows| - 1) + [last];
    if |rows| == 1 {
      assert rows[1..] == [] && ends[1..] == [];
    } else {
      assert ends[1..] == Every(Feed, |rows[1..]| - 1) + [last];
      FeedsAreRecords(rows[1..], last, d);
      var all, rest := Records(rows, d), Records(rows[1..], d);
      assert all == Record(rows[0], d) + rest;
      assert all[..|all| - 1] == Record(rows[0], d) + rest[..|rest| - 1];
    }
  }

  /** Without its last line feed a table reads back as well, unless the last row is one empty cell. */
  lemma LastFeedIsOptional(rows: seq<Row>, d: Byte)
    requires IsDelimiter(d) && Nonempty(rows) && |rows| > 0 && rows[|rows| - 1] != [[]]
    ensures |Records(rows, d)| > 0
    ensures Parse(Records(rows, d)[..|Records(rows, d)| - 1], d) == if Storable(rows) then Ok(rows) else Err
  {
    hide Parse, Records;
    FeedsAreRecords(rows, Missing, d);
    EndingsDoNotMatter(rows, Every(Feed, |rows| - 1) + [Missing], d);
  }

  /** So does a table whose lines all end in CR LF. */
  lemma ReturnFeedsRead(rows: seq<Row>, d: Byte)
    requires IsDelimiter(d) && Nonempty(rows)
    ensures Parse(Ended(rows, Every(ReturnFeed, |rows|), d), d) == if Storable(rows) then Ok(rows) else Err
  {
    EndingsDoNotMatter(rows, Every(ReturnFeed, |rows|), d);
  }

  /** After whole lines and any cells, a CR that no LF follows is refused. */
  lemma BareReturnIsRefused(rows: seq<Row>, ends: seq<Ending>, row: Row, tail: seq<Byte>, d: Byte)
    requires IsDelimiter(d) && Nonempty(rows) && |ends| == |rows| && (forall i | 0 <= i < |ends| :: !ends[i].Missing?)
    requires |row| > 0 && (tail == [] || tail[0] != LF)
    ensures Parse(Ended(rows, ends, d) + (WriteCells(row, d) + [CR] + tail), d).Err?
  {
    hide ParseFrom, Ended;
    BareReturnAfter(rows, ends, row, tail, d, 0, []);
  }

  lemma {:induction false} BareReturnAfter(rows: seq<Row>, ends: seq<Ending>, row: Row, tail: seq<Byte>, d: Byte, cells: nat, before: seq<Row>)
    requires IsDelimiter(d) && Nonempty(rows) && |ends| == |rows| && (forall i | 0 <= i < |ends| :: !ends[i].Missing?)
    requires |row| > 0 && (tail == [] || tail[0] != LF)
    ensures ParseFrom(Ended(rows, ends, d) + (WriteCells(row, d) + [CR] + tail), d, [], cells, before).Err?
    decreases |rows|
  {
    hide ParseFrom, WriteCells;
    var text := WriteCells(row, d) + [CR] + tail;
    if |rows| == 0 {
      assert Ended(rows, ends, d) + text == text;
      BareReturnInRow(row, tail, d, [], cells, before);
    } else {
      var rest := Ended(rows[1..], ends[1..], d) + text;
      assert Ended(rows, ends, d) + text == WriteCells(rows[0], d) + EndingBytes(ends[0]) + rest;
      RecordReads(rows[0], d, ends[0], [], cells, before, rest);
      assert [] + rows[0] == rows[0];
      BareReturnAfter(rows[1..], ends[1..], row, tail, d, cells + |rows[0]|, before + [rows[0]]);
    }
  }

  lemma {:induction false} BareReturnInRow(row: Row, tail: seq<Byte>, d: Byte, done: Row, cells: nat, rows: seq<Row>)
    requires IsDelimiter(d) && |row| > 0 && (tail == [] || tail[0] != LF)
    ensures ParseFrom(WriteCells(row, d) + [CR] + tail, d, done, cells, rows).Err?
    decreases |row|
  {
    hide ReadCell, WriteCell, ParseFrom;
    var rest := AfterFirst(row, d, [CR] + tail);
    var s := WriteCell(row[0], d) + rest;
    FirstWritten(row, d, [CR] + tail);
    assert s == WriteCells(row, d) + [CR] + tail;
    CellRoundTrip(row[0], d, rest);
    OneCell(s, rest, row[0], d, done, cells, rows);
    if |row| == 1 {
      assert rest == [CR] + tail;
      assert |rest| > 1 ==> rest[1] == tail[0];
    } else {
      assert rest[1..] == WriteCells(row[1..], d) + [CR] + tail;
      BareReturnInRow(row[1..], tail, d, done + [row[0]], cells + 1, rows);
    }
  }

  // ---- quotation marks out of place -------------------------------------------------------

  lemma {:induction false} NeverClosed(cell: Cell)
    ensures QuotedCell(DoubleQuotes(cell)).None?
    decreases |cell|
  {
    if |cell| > 0 {
      NeverClosed(cell[1..]);
      var s := DoubleQuotes(cell);
      assert s[if cell[0] == QUOTE then 2 else 1..] == DoubleQuotes(cell[1..]);
    }
  }

  lemma {:induction false} QuoteInside(cell: Cell, d: Byte, tail: seq<Byte>)
    requires !NeedsQuotes(cell, d) && d != QUOTE
    ensures PlainCell(cell + [QUOTE] + tail, d).None?
    decreases |cell|
  {
    var s := cell + [QUOTE] + tail;
    if |cell| > 0 {
      assert !Special(cell[0], d) && s[1..] == cell[1..] + [QUOTE] + tail;
      assert forall i | 0 <= i < |cell[1..]| :: cell[1..][i] == cell[i + 1];
      QuoteInside(cell[1..], d, tail);
    }
  }

  lemma {:induction false} BadFieldRefused(rows: seq<Row>, ends: seq<Ending>, s: seq<Byte>, d: Byte, cells: nat, before: seq<Row>)
    requires IsDelimiter(d) && Nonempty(rows) && |ends| == |rows| && (forall i | 0 <= i < |ends| :: !ends[i].Missing?)
    requires |s| > 0 && ReadCell(s, d).None?
    ensures ParseFrom(Ended(rows, ends, d) + s, d, [], cells, before).Err?
    decreases |rows|
  {
    hide WriteCells, ReadCell;
    if |rows| == 0 {
      assert Ended(rows, ends, d) + s == s;
    } else {
      hide ParseFrom;
      var rest := Ended(rows[1..], ends[1..], d) + s;
      assert Ended(rows, ends, d) + s == WriteCells(rows[0], d) + EndingBytes(ends[0]) + rest;
      RecordReads(rows[0], d, ends[0], [], cells, before, rest);
      assert [] + rows[0] == rows[0];
      BadFieldRefused(rows[1..], ends[1..], s, d, cells + |rows[0]|, before + [rows[0]]);
    }
  }

  /** At the start of any line: a quoted field that is never closed, text behind a closing quotation mark and
      a quotation mark inside an unquoted field are refused. */
  lemma MisquotedIsRefused(rows: seq<Row>, ends: seq<Ending>, cell: Cell, tail: seq<Byte>, d: Byte)
    requires IsDelimiter(d) && Nonempty(rows) && |ends| == |rows| && (forall i | 0 <= i < |ends| :: !ends[i].Missing?)
    ensures Parse(Ended(rows, ends, d) + ([QUOTE] + DoubleQuotes(cell)), d).Err?
    ensures tail != [] && tail[0] != QUOTE && !EndsCell(tail[0], d) ==>
      Parse(Ended(rows, ends, d) + ([QUOTE] + DoubleQuotes(cell) + [QUOTE] + tail), d).Err?
    ensures cell != [] && !NeedsQuotes(cell, d) ==> Parse(Ended(rows, ends, d) + (cell + [QUOTE] + tail), d).Err?
  {
    hide ParseFrom, Ended, DoubleQuotes, ReadCell, NeedsQuotes;
    Unclosed(cell, d);
    BadFieldRefused(rows, ends, [QUOTE] + DoubleQuotes(cell), d, 0, []);
    if tail != [] && tail[0] != QUOTE && !EndsCell(tail[0], d) {
      BehindQuote(cell, tail, d);
      BadFieldRefused(rows, ends, [QUOTE] + DoubleQuotes(cell) + [QUOTE] + tail, d, 0, []);
    }
    if cell != [] && !NeedsQuotes(cell, d) {
      QuoteInPlain(cell, tail, d);
      BadFieldRefused(rows, ends, cell + [QUOTE] + tail, d, 0, []);
    }
  }

  lemma Unclosed(cell: Cell, d: Byte)
    ensures ReadCell([QUOTE] + DoubleQuotes(cell), d).None?
  {
    hide DoubleQuotes, QuotedCell;
    NeverClosed(cell);
    assert ([QUOTE] + DoubleQuotes(cell))[1..] == DoubleQuotes(cell);
  }

  lemma BehindQuote(cell: Cell, tail: seq<Byte>, d: Byte)
    requires tail != [] && tail[0] != QUOTE && !EndsCell(tail[0], d)
    ensures ReadCell([QUOTE] + DoubleQuotes(cell) + [QUOTE] + tail, d).None?
  {
    hide DoubleQuotes, QuotedCell;
    QuotedReads(cell, tail);
    assert ([QUOTE] + DoubleQuotes(cell) + [QUOTE] + tail)[1..] == DoubleQuotes(cell) + [QUOTE] + tail;
  }

  lemma QuoteInPlain(cell: Cell, tail: seq<Byte>, d: Byte)
    requires IsDelimiter(d) && cell != [] && !NeedsQuotes(cell, d)
    ensures ReadCell(cell + [QUOTE] + tail, d).None?
  {
    hide PlainCell;
    assert !Special(cell[0], d);
    QuoteInside(cell, d, tail);
  }
}
