/** CSV and TSV as bytes: the record writer of src/batches.rs and the cursor-driven parser of
    src/delimited.rs, each as it runs and as a function, and the round trip between them (RFC 4180,
    section 2). */
module Delimited {
  import opened Prelude

  type Byte = b: int | 0 <= b < 256
  type Cell = seq<Byte>
  type Row = seq<Cell>

  const QUOTE: Byte := 34
  const CR: Byte := 13
  const LF: Byte := 10
  const COMMA: Byte := 44
  const TAB: Byte := 9
  const SPACE: Byte := 32

  const MAX_ROWS: nat := 100_000
  const MAX_CELLS: nat := 1_000_000
  const MAX_COLUMNS: nat := 1024

  predicate IsDelimiter(d: Byte) {
    d == COMMA || d == TAB || d == SPACE
  }

  // ---- writing ----------------------------------------------------------------------------

  predicate Special(b: Byte, d: Byte) {
    b == d || b == QUOTE || b == CR || b == LF
  }

  predicate NeedsQuotes(cell: Cell, d: Byte) {
    exists i :: 0 <= i < |cell| && Special(cell[i], d)
  }

  function DoubleQuotes(cell: Cell): Cell {
    if |cell| == 0 then []
    else (if cell[0] == QUOTE then [QUOTE, QUOTE] else [cell[0]]) + DoubleQuotes(cell[1..])
  }

  function WriteCell(cell: Cell, d: Byte): Cell {
    if NeedsQuotes(cell, d) then [QUOTE] + DoubleQuotes(cell) + [QUOTE] else cell
  }

  function WriteCells(row: Row, d: Byte): Cell {
    if |row| == 0 then []
    else if |row| == 1 then WriteCell(row[0], d)
    else WriteCell(row[0], d) + [d] + WriteCells(row[1..], d)
  }

  /** The bytes of one record. */
  function Record(row: Row, d: Byte): Cell {
    WriteCells(row, d) + [LF]
  }

  function Records(rows: seq<Row>, d: Byte): Cell {
    if |rows| == 0 then [] else Record(rows[0], d) + Records(rows[1..], d)
  }

  // ---- reading ----------------------------------------------------------------------------

  predicate EndsCell(b: Byte, d: Byte) {
    b == CR || b == LF || b == d
  }

  /** The rest of a quoted field, and what follows its closing quote. */
  function QuotedCell(s: seq<Byte>): (r: Option<(Cell, seq<Byte>)>)
    ensures r.Some? ==> |r.value.1| < |s|
    decreases |s|
  {
    if |s| == 0 then None
    else if s[0] == QUOTE && !(|s| > 1 && s[1] == QUOTE) then Some(([], s[1..]))
    else
      var k := if s[0] == QUOTE then 2 else 1;
      var rest := QuotedCell(s[k..]);
      if rest.None? then None else Some(([s[0]] + rest.value.0, rest.value.1))
  }

  /** An unquoted field up to a line ending or delimiter; quotes are refused. */
  function PlainCell(s: seq<Byte>, d: Byte): (r: Option<(Cell, seq<Byte>)>)
    ensures r.Some? ==> |r.value.1| <= |s|
    ensures r.Some? && |r.value.1| > 0 ==> EndsCell(r.value.1[0], d)
    decreases |s|
  {
    if |s| == 0 || EndsCell(s[0], d) then Some(([], s))
    else if s[0] == QUOTE then None
    else
      var rest := PlainCell(s[1..], d);
      if rest.None? then None else Some(([s[0]] + rest.value.0, rest.value.1))
  }

  function ReadCell(s: seq<Byte>, d: Byte): (r: Option<(Cell, seq<Byte>)>)
    requires |s| > 0
    ensures r.Some? ==> |r.value.1| <= |s|
    ensures r.Some? && |r.value.1| > 0 ==> EndsCell(r.value.1[0], d)
  {
    if s[0] == QUOTE then
      var cell := QuotedCell(s[1..]);
      if cell.None? || (|cell.value.1| > 0 && !EndsCell(cell.value.1[0], d)) then None else cell
    else PlainCell(s, d)
  }

  /** The parser from some point on: the row under way, the cells counted, the rows finished. */
  function ParseFrom(s: seq<Byte>, d: Byte, row: Row, cells: nat, rows: seq<Row>): Res<seq<Row>>
    decreases |s|, 2
  {
    if |s| == 0 then Ok(rows)
    else
      var cell := ReadCell(s, d);
      if cell.None? || |row| + 1 > MAX_COLUMNS || cells + 1 > MAX_CELLS then Err
      else AfterCell(cell.value.1, d, row + [cell.value.0], cells + 1, rows, s)
  }

  /** What ends a field: a delimiter, a line ending, or the end of the input. */
  function AfterCell(rest: seq<Byte>, d: Byte, row: Row, cells: nat, rows: seq<Row>, ghost before: seq<Byte>): Res<seq<Row>>
    requires |before| > 0 && |rest| <= |before| && (|rest| > 0 ==> EndsCell(rest[0], d))
    decreases |before|, 1
  {
    if |rest| == 0 then EndRow([], d, row, cells, rows, before)
    else if rest[0] == d then
      if |rest| > 1 then ParseFrom(rest[1..], d, row, cells, rows)
      else if |row| + 1 > MAX_COLUMNS || cells + 1 > MAX_CELLS then Err
      else EndRow([], d, row + [[]], cells + 1, rows, before)
    else if rest[0] == CR then
      if |rest| > 1 && rest[1] == LF then EndRow(rest[2..], d, row, cells, rows, before) else Err
    else EndRow(rest[1..], d, row, cells, rows, before)
  }

  function EndRow(rest: seq<Byte>, d: Byte, row: Row, cells: nat, rows: seq<Row>, ghost before: seq<Byte>): Res<seq<Row>>
    requires |rest| < |before|
    decreases |before|, 0
  {
    if |rows| + 1 > MAX_ROWS + 1 then Err else ParseFrom(rest, d, [], cells, rows + [row])
  }

  /** `parse_ecsv`. */
  function Parse(s: seq<Byte>, d: Byte): Res<seq<Row>> {
    if !IsDelimiter(d) || 0 in s then Err else ParseFrom(s, d, [], 0, [])
  }

  // ---- the parser as it runs --------------------------------------------------------------

  /** `parse_ecsv`: one cursor over the bytes, cells and rows growing as it moves. */
  method ParseEcsv(bytes: seq<Byte>, d: Byte) returns (r: Res<seq<Row>>)
    ensures r == Parse(bytes, d)
  {
    if !IsDelimiter(d) || 0 in bytes {
      return Err;
    }
    var rows: seq<Row> := [];
    var row: Row := [];
    var cursor, cells := 0, 0;
    assert bytes[0..] == bytes;
    while cursor < |bytes|
      invariant 0 <= cursor <= |bytes|
      invariant Parse(bytes, d) == ParseFrom(bytes[cursor..], d, row, cells, rows)
      decreases |bytes| - cursor, if cursor < |bytes| && !EndsCell(bytes[cursor], d) then 1 else 0
    {
      ghost var s := bytes[cursor..];
      var cell, next, ok := ReadField(bytes, cursor, d);
      if !ok {
        return Err;
      }
      cursor := next;
      row := row + [cell];
      cells := cells + 1;
      if |row| > MAX_COLUMNS || cells > MAX_CELLS {
        return Err;
      }
      assert Parse(bytes, d) == AfterCell(bytes[cursor..], d, row, cells, rows, s);
      if cursor < |bytes| && bytes[cursor] == d {
        cursor := cursor + 1;
        if cursor == |bytes| {
          row := row + [[]];
          cells := cells + 1;
          if |row| > MAX_COLUMNS || cells > MAX_CELLS {
            return Err;
          }
        } else {
          assert bytes[cursor - 1..][1..] == bytes[cursor..];
          continue;
        }
      } else if cursor < |bytes| {
        if bytes[cursor] == CR {
          cursor := cursor + 1;
          if cursor == |bytes| || bytes[cursor] != LF {
            return Err;
          }
        }
        cursor := cursor + 1;
      }
      assert Parse(bytes, d) == EndRow(bytes[cursor..], d, row, cells, rows, s);
      rows := rows + [row];
      row := [];
      if |rows| > MAX_ROWS + 1 {
        return Err;
      }
    }
    assert bytes[cursor..] == [];
    r := Ok(rows);
  }

  /** One field from `cursor` on, and where it ends. */
  method ReadField(bytes: seq<Byte>, cursor: nat, d: Byte) returns (cell: Cell, next: nat, ok: bool)
    requires cursor < |bytes|
    ensures ok ==> cursor <= next <= |bytes|
    ensures ReadCell(bytes[cursor..], d) == if ok then Some((cell, bytes[next..])) else None
  {
    if bytes[cursor] == QUOTE {
      assert bytes[cursor..][1..] == bytes[cursor + 1..];
      cell, next, ok := ReadQuoted(bytes, cursor + 1);
      if ok && next < |bytes| && bytes[next] != CR && bytes[next] != LF && bytes[next] != d {
        ok := false;
      }
    } else {
      cell, next, ok := ReadPlain(bytes, cursor, d);
    }
  }

  /** The loop over a quoted field: a doubled quote stands for one. */
  method ReadQuoted(bytes: seq<Byte>, cursor: nat) returns (cell: Cell, next: nat, ok: bool)
    requires cursor <= |bytes|
    ensures ok ==> cursor <= next <= |bytes|
    ensures QuotedCell(bytes[cursor..]) == if ok then Some((cell, bytes[next..])) else None
  {
    cell, next, ok := [], cursor, true;
    ghost var whole := QuotedCell(bytes[cursor..]);
    assert whole.Some? ==> [] + whole.value.0 == whole.value.0;
    while true
      invariant cursor <= next <= |bytes| && ok
      invariant var rest := QuotedCell(bytes[next..]);
        whole == if rest.None? then None else Some((cell + rest.value.0, rest.value.1))
      decreases |bytes| - next
    {
      if next == |bytes| {
        return [], cursor, false;
      }
      ghost var at := bytes[next..];
      if bytes[next] == QUOTE {
        next := next + 1;
        if next < |bytes| && bytes[next] == QUOTE {
          QuotedStep(at, cell);
          cell := cell + [QUOTE];
          next := next + 1;
          assert at[2..] == bytes[next..];
        } else {
          assert at[1..] == bytes[next..];
          assert cell + [] == cell;
          return;
        }
      } else {
        QuotedStep(at, cell);
        cell := cell + [bytes[next]];
        next := next + 1;
        assert at[1..] == bytes[next..];
      }
    }
  }

  /** The loop over an unquoted field. */
  method ReadPlain(bytes: seq<Byte>, cursor: nat, d: Byte) returns (cell: Cell, next: nat, ok: bool)
    requires cursor <= |bytes|
    ensures ok ==> cursor <= next <= |bytes|
    ensures PlainCell(bytes[cursor..], d) == if ok then Some((cell, bytes[next..])) else None
  {
    cell, next, ok := [], cursor, true;
    ghost var whole := PlainCell(bytes[cursor..], d);
    assert whole.Some? ==> [] + whole.value.0 == whole.value.0;
    while next < |bytes| && bytes[next] != CR && bytes[next] != LF && bytes[next] != d
      invariant cursor <= next <= |bytes| && ok
      invariant var rest := PlainCell(bytes[next..], d);
        whole == if rest.None? then None else Some((cell + rest.value.0, rest.value.1))
    {
      if bytes[next] == QUOTE {
        return [], cursor, false;
      }
      ghost var at := bytes[next..];
      PlainStep(at, d, cell);
      cell := cell + [bytes[next]];
      next := next + 1;
      assert at[1..] == bytes[next..];
    }
    assert cell + [] == cell;
  }

  lemma QuotedStep(s: seq<Byte>, done: Cell)
    requires |s| > 0 && (s[0] == QUOTE ==> |s| > 1 && s[1] == QUOTE)
    ensures var rest, after := QuotedCell(s), QuotedCell(s[if s[0] == QUOTE then 2 else 1..]);
      && rest.None? == after.None?
      && (rest.Some? ==> done + rest.value.0 == (done + [s[0]]) + after.value.0 && rest.value.1 == after.value.1)
  {
  }

  lemma PlainStep(s: seq<Byte>, d: Byte, done: Cell)
    requires |s| > 0 && s[0] != QUOTE && !EndsCell(s[0], d)
    ensures var rest, after := PlainCell(s, d), PlainCell(s[1..], d);
      && rest.None? == after.None?
      && (rest.Some? ==> done + rest.value.0 == (done + [s[0]]) + after.value.0 && rest.value.1 == after.value.1)
  {
  }

  // ---- the writer as it runs --------------------------------------------------------------

  /** The byte buffer of `write_record`: delimiters between cells, quotes where a cell needs them. */
  method RecordBytes(row: Row, d: Byte) returns (bytes: seq<Byte>)
    ensures bytes == Record(row, d)
  {
    hide WriteCell;
    bytes := [];
    assert row[0..] == row && [] + WriteCells(row, d) == WriteCells(row, d);
    assert [] + CellsFrom(row, 0, d) == WriteCells(row, d);
    for i := 0 to |row|
      invariant bytes + CellsFrom(row, i, d) == WriteCells(row, d)
    {
      ghost var start := bytes;
      if i > 0 {
        bytes := bytes + [d];
      }
      bytes := AppendCell(bytes, row[i], d);
      CellAdded(row, i, d, start, bytes);
    }
    assert bytes + [] == bytes;
    bytes := bytes + [LF];
  }

  method AppendCell(buffer: seq<Byte>, cell: Cell, d: Byte) returns (bytes: seq<Byte>)
    ensures bytes == buffer + WriteCell(cell, d)
  {
    bytes := buffer;
    var quoted := AnySpecial(cell, d);
    if quoted {
      bytes := bytes + [QUOTE];
    }
    ghost var open := bytes;
    assert cell[0..] == cell;
    for k := 0 to |cell|
      invariant bytes + Quoted(cell[k..], quoted) == open + Quoted(cell, quoted)
    {
      ghost var before := bytes;
      assert cell[k..][0] == cell[k] && cell[k..][1..] == cell[k + 1..];
      if quoted && cell[k] == QUOTE {
        bytes := bytes + [QUOTE];
      }
      bytes := bytes + [cell[k]];
      QuotedByte(cell[k..], quoted, before);
    }
    assert cell[|cell|..] == [] && bytes + [] == bytes;
    if quoted {
      bytes := bytes + [QUOTE];
    }
  }

  /** The inside of a written cell. */
  function Quoted(cell: Cell, quoted: bool): Cell {
    if quoted then DoubleQuotes(cell) else cell
  }

  lemma QuotedByte(cell: Cell, quoted: bool, before: Cell)
    requires |cell| > 0
    ensures before + Quoted(cell, quoted)
         == (if quoted && cell[0] == QUOTE then before + [QUOTE] else before) + [cell[0]] + Quoted(cell[1..], quoted)
  {
    if quoted {
      DoubleStep(cell, before);
    } else {
      assert cell == [cell[0]] + cell[1..];
    }
  }

  lemma DoubleStep(cell: Cell, before: Cell)
    requires |cell| > 0
    ensures before + DoubleQuotes(cell)
         == (if cell[0] == QUOTE then before + [QUOTE] + [QUOTE] else before + [cell[0]]) + DoubleQuotes(cell[1..])
  {
    var first: Cell := if cell[0] == QUOTE then [QUOTE, QUOTE] else [cell[0]];
    assert DoubleQuotes(cell) == first + DoubleQuotes(cell[1..]);
    hide DoubleQuotes;
    Join(before, first, DoubleQuotes(cell[1..]));
    assert before + [QUOTE] + [QUOTE] == before + [QUOTE, QUOTE];
  }

  method AnySpecial(cell: Cell, d: Byte) returns (found: bool)
    ensures found == NeedsQuotes(cell, d)
  {
    for i := 0 to |cell|
      invariant forall k | 0 <= k < i :: !Special(cell[k], d)
    {
      if Special(cell[i], d) {
        return true;
      }
    }
    found := false;
  }

  /** What is still to be written of a record once `i` cells are out, separators included. */
  ghost function CellsFrom(row: Row, i: nat, d: Byte): Cell
    requires i <= |row|
  {
    if i == |row| then [] else (if i > 0 then [d] else []) + WriteCells(row[i..], d)
  }

  lemma Join(a: Cell, b: Cell, c: Cell)
    ensures a + (b + c) == (a + b) + c
  {
  }

  lemma CellAdded(row: Row, i: nat, d: Byte, start: Cell, bytes: Cell)
    requires i < |row|
    requires bytes == (if i > 0 then start + [d] else start) + WriteCell(row[i], d)
    ensures start + CellsFrom(row, i, d) == bytes + CellsFrom(row, i + 1, d)
  {
    hide WriteCell;
    var rest, cell := row[i..], WriteCell(row[i], d);
    assert rest[0] == row[i] && rest[1..] == row[i + 1..];
    var separator := if i > 0 then [d] else [];
    assert bytes == (start + separator) + cell by {
      assert start + [] == start;
    }
    Join(start, separator, WriteCells(rest, d));
    if |rest| == 1 {
      assert bytes + [] == bytes;
    } else {
      Join(cell, [d], WriteCells(rest[1..], d));
      Join(start + separator, cell, [d] + WriteCells(rest[1..], d));
    }
  }
}
