/** What acceptance by src/fits.rs means for the bytes of a file: units tile it, cells lie inside their
    own unit, and different cells never share a byte. */
module FitsLayout {
  import opened Prelude
  import opened Arithmetic
  import opened Fits

  // ---- tiling -----------------------------------------------------------------------------

  /** A unit in whole blocks: header, then data, then padding short of one block; the data size is the
      one the standard assigns (section 4.4.1.2). */
  predicate Placed(h: Hdu) {
    && h.start % BLOCK == 0 && h.dataOffset % BLOCK == 0 && h.next % BLOCK == 0
    && h.start < h.dataOffset <= h.dataOffset + h.dataLength <= h.next < h.dataOffset + h.dataLength + BLOCK
    && LegalBitpix(h.bitpix) && h.gcount >= 1
    && h.dataLength == DataBytes(h.bitpix, h.axes, h.pcount, h.gcount)
  }

  /** The units follow each other without gap or overlap from `from` to `to`. */
  predicate Chained(hdus: seq<Hdu>, from: nat, to: nat) {
    if |hdus| == 0 then from == to
    else hdus[0].start == from && hdus[0].next > from && Chained(hdus[1..], hdus[0].next, to)
  }

  lemma BlocksUp(n: nat)
    ensures n <= Padded(n) < n + BLOCK && Padded(n) % BLOCK == 0
  {
  }

  lemma BlocksAdd(a: nat, b: nat)
    requires a % BLOCK == 0 && b % BLOCK == 0
    ensures (a + b) % BLOCK == 0
  {
  }

  lemma UnitIsPlaced(source: Source, offset: nat, dataOffset: nat, index: nat)
    requires HduAt(source, offset, dataOffset, index).Some?
    requires offset % BLOCK == 0 && offset < dataOffset && (dataOffset - offset) % BLOCK == 0
    ensures Placed(HduAt(source, offset, dataOffset, index).value)
    ensures HduAt(source, offset, dataOffset, index).value.start == offset
    ensures HduAt(source, offset, dataOffset, index).value.next <= source.length
  {
    hide TableShape, AxesFrom, ClassOf, DataLength, DataBytes, Padded, LegalBitpix, IntegerOf, OptionalInteger;
    var h := HduAt(source, offset, dataOffset, index).value;
    BlocksUp(h.dataLength);
    BlocksAdd(offset, dataOffset - offset);
    BlocksAdd(dataOffset, Padded(h.dataLength));
  }

  lemma {:induction false} UnitsTile(source: Source, offset: nat, index: nat, bounded: bool, budget: Option<nat>)
    requires offset % BLOCK == 0 && offset <= source.length
    requires HdusFrom(source, offset, index, bounded, budget).Some?
    ensures var hdus := HdusFrom(source, offset, index, bounded, budget).value;
      && Chained(hdus, offset, source.length)
      && (forall i | 0 <= i < |hdus| :: Placed(hdus[i]))
      && (bounded ==> |hdus| + index <= if index < MAX_HDUS then MAX_HDUS else index)
    decreases source.length - offset
  {
    hide HduAt, Placed;
    if offset < source.length {
      var header := HeaderEnd(source, offset, budget);
      var hdu := HduAt(source, offset, header.value.0, index).value;
      assert (header.value.0 - offset) % BLOCK == 0;
      UnitIsPlaced(source, offset, header.value.0, index);
      PlacedBounds(hdu);
      UnitsTile(source, hdu.next, index + 1, bounded, header.value.1);
    }
  }

  lemma PlacedBounds(h: Hdu)
    requires Placed(h)
    ensures h.start < h.dataOffset <= h.next && h.next % BLOCK == 0
  {
  }

  /** The unit that holds a byte. */
  predicate Owned(hdus: seq<Hdu>, byte: nat) {
    exists i :: 0 <= i < |hdus| && hdus[i].start <= byte < hdus[i].next
  }

  lemma {:induction false} ChainedByte(hdus: seq<Hdu>, from: nat, to: nat, byte: nat)
    requires Chained(hdus, from, to) && from <= byte < to
    ensures Owned(hdus, byte)
  {
    if byte < hdus[0].next {
      assert hdus[0].start <= byte < hdus[0].next;
    } else {
      ChainedByte(hdus[1..], hdus[0].next, to, byte);
      var i :| 0 <= i < |hdus[1..]| && hdus[1..][i].start <= byte < hdus[1..][i].next;
      assert hdus[i + 1] == hdus[1..][i];
    }
  }

  lemma {:induction false} ChainedOrder(hdus: seq<Hdu>, from: nat, to: nat, i: nat, j: nat)
    requires Chained(hdus, from, to) && i < j < |hdus|
    ensures from <= hdus[i].start < hdus[i].next <= hdus[j].start
  {
    if i == 0 {
      ChainedStarts(hdus[1..], hdus[0].next, to, j - 1);
    } else {
      ChainedOrder(hdus[1..], hdus[0].next, to, i - 1, j - 1);
    }
  }

  lemma {:induction false} ChainedStarts(hdus: seq<Hdu>, from: nat, to: nat, j: nat)
    requires Chained(hdus, from, to) && j < |hdus|
    ensures from <= hdus[j].start < hdus[j].next
  {
    if j > 0 {
      ChainedStarts(hdus[1..], hdus[0].next, to, j - 1);
    }
  }

  /** An accepted file is tiled exactly by its units: every byte belongs to one of them, and to one only;
      each is placed on block boundaries with the size the standard gives it. */
  lemma FileIsTiled(source: Source, bounded: bool)
    requires ParseHdus(source, bounded).Some?
    ensures var hdus := ParseHdus(source, bounded).value;
      && |hdus| > 0 && hdus[0].start == 0 && source.length % BLOCK == 0
      && (forall i | 0 <= i < |hdus| :: Placed(hdus[i]))
      && (forall byte: nat | byte < source.length :: Owned(hdus, byte))
      && (forall i: nat, j: nat | i < j < |hdus| :: hdus[i].next <= hdus[j].start)
      && (bounded ==> |hdus| <= MAX_HDUS)
  {
    hide Placed, HdusFrom;
    var budget := if bounded then Some(MAX_HEADER_BYTES) else None;
    UnitsTile(source, 0, 0, bounded, budget);
    var hdus := ParseHdus(source, bounded).value;
    forall byte: nat | byte < source.length
      ensures Owned(hdus, byte)
    {
      ChainedByte(hdus, 0, source.length, byte);
    }
    forall i: nat, j: nat | i < j < |hdus|
      ensures hdus[i].next <= hdus[j].start
    {
      ChainedOrder(hdus, 0, source.length, i, j);
    }
    EndsOnBlock(hdus, 0, source.length);
  }

  lemma {:induction false} EndsOnBlock(hdus: seq<Hdu>, from: nat, to: nat)
    requires Chained(hdus, from, to) && from % BLOCK == 0 && forall i | 0 <= i < |hdus| :: Placed(hdus[i])
    ensures to % BLOCK == 0
  {
    hide Placed;
    if |hdus| > 0 {
      PlacedBounds(hdus[0]);
      assert forall i | 0 <= i < |hdus[1..]| :: hdus[1..][i] == hdus[i + 1];
      EndsOnBlock(hdus[1..], hdus[0].next, to);
    }
  }

  // ---- columns ----------------------------------------------------------------------------

  /** Columns lie side by side from the start of the row, each holding its elements, within the row. */
  ghost predicate Packed(columns: seq<Column>, offset: nat, rowBytes: nat) {
    forall k: nat | k < |columns| ::
      && columns[k].byteOffset == (if k == 0 then offset else columns[k - 1].byteOffset + columns[k - 1].byteWidth)
      && columns[k].byteOffset + columns[k].byteWidth <= rowBytes
      && columns[k].repeat >= 1 && ElementWidth(columns[k].code) == Some(columns[k].elementWidth)
      && columns[k].repeat * columns[k].elementWidth <= columns[k].byteWidth
      && (columns[k].code != 'X' ==> columns[k].repeat * columns[k].elementWidth == columns[k].byteWidth)
  }

  lemma FormatFits(format: string)
    requires ParseFormat(format).Some?
    ensures var (repeat, code, width, bytes) := ParseFormat(format).value;
      repeat >= 1 && ElementWidth(code) == Some(width) && repeat * width <= bytes && (code != 'X' ==> repeat * width == bytes)
  {
    hide Trim, UpperCase;
  }

  lemma {:induction false} ColumnsArePacked(h: Header, count: nat, k: nat, offset: nat, rowBytes: nat)
    requires 1 <= k <= count + 1 && ColumnsFrom(h, count, k, offset, rowBytes).Some?
    ensures Packed(ColumnsFrom(h, count, k, offset, rowBytes).value, offset, rowBytes)
    decreases count + 1 - k
  {
    hide ParseFormat;
    if k <= count {
      var format := TextOf(h, "TFORM", k).value;
      FormatFits(format);
      var (repeat, code, width, bytes) := ParseFormat(format).value;
      ColumnsArePacked(h, count, k + 1, offset + bytes, rowBytes);
      var rest := ColumnsFrom(h, count, k + 1, offset + bytes, rowBytes).value;
      var all := [Column(code, repeat, width, offset, bytes)] + rest;
      assert forall j: nat | 0 < j < |all| :: all[j] == rest[j - 1];
    }
  }

  lemma {:induction false} PackedOrder(columns: seq<Column>, offset: nat, rowBytes: nat, i: nat, j: nat)
    requires Packed(columns, offset, rowBytes) && i < j < |columns|
    ensures columns[i].byteOffset + columns[i].byteWidth <= columns[j].byteOffset
    decreases j
  {
    if i < j - 1 {
      PackedOrder(columns, offset, rowBytes, i, j - 1);
    }
  }

  // ---- cells ------------------------------------------------------------------------------

  /** The rows of an accepted binary table fit its data, and its columns are packed. */
  ghost predicate TableFits(h: Hdu) {
    h.kind.BinaryTable? ==> h.rows * h.rowBytes <= h.dataLength && Packed(h.columns, 0, h.rowBytes)
  }

  lemma UnitTableFits(source: Source, offset: nat, dataOffset: nat, index: nat)
    requires HduAt(source, offset, dataOffset, index).Some?
    ensures TableFits(HduAt(source, offset, dataOffset, index).value)
  {
    hide AxesFrom, ClassOf, DataLength, Padded, ColumnsFrom, Packed;
    var u := HduAt(source, offset, dataOffset, index).value;
    if u.kind.BinaryTable? {
      var h := source.header(offset);
      var count := OptionalInteger(h, "TFIELDS", 0).value;
      ColumnsArePacked(h, count, 1, 0, u.rowBytes);
      assert u.rowBytes * u.rows == u.rows * u.rowBytes;
    }
  }

  lemma {:induction false} TablesFit(source: Source, offset: nat, index: nat, bounded: bool, budget: Option<nat>)
    requires HdusFrom(source, offset, index, bounded, budget).Some?
    ensures var hdus := HdusFrom(source, offset, index, bounded, budget).value;
      forall i | 0 <= i < |hdus| :: TableFits(hdus[i]) && hdus[i].next <= MAX_U64
    decreases source.length - offset
  {
    hide HduAt, TableFits;
    if offset < source.length {
      var header := HeaderEnd(source, offset, budget);
      UnitTableFits(source, offset, header.value.0, index);
      NextIsLater(source, offset, header.value.0, index);
      NextIsBounded(source, offset, header.value.0, index);
      TablesFit(source, HduAt(source, offset, header.value.0, index).value.next, index + 1, bounded, header.value.1);
    }
  }

  lemma NextIsBounded(source: Source, offset: nat, dataOffset: nat, index: nat)
    requires HduAt(source, offset, dataOffset, index).Some?
    ensures HduAt(source, offset, dataOffset, index).value.next <= MAX_U64
  {
  }

  /** A row, a column and an element of a table. */
  datatype Cell = Cell(row: nat, column: nat, element: nat)

  predicate InTable(h: Hdu, c: Cell) {
    c.row < h.rows && c.column < |h.columns| && c.element < h.columns[c.column].repeat
  }

  /** `cell_start` and the element offset of `read_table_value`, with every overflow check. */
  function CellStart(h: Hdu, c: Cell): Option<nat>
    requires c.column < |h.columns|
  {
    var column := h.columns[c.column];
    if c.row * h.rowBytes > MAX_U64 || h.dataOffset + c.row * h.rowBytes > MAX_U64
       || h.dataOffset + c.row * h.rowBytes + column.byteOffset > MAX_U64 then None
    else
      var start := h.dataOffset + c.row * h.rowBytes + column.byteOffset;
      if start + c.element * column.elementWidth > MAX_U64 then None else Some(start + c.element * column.elementWidth)
  }

  /** Where an element lies within its row. */
  lemma ElementInRow(h: Hdu, c: Cell)
    requires Packed(h.columns, 0, h.rowBytes) && InTable(h, c)
    ensures var column := h.columns[c.column];
      column.byteOffset + c.element * column.elementWidth + column.elementWidth <= column.byteOffset + column.byteWidth <= h.rowBytes
  {
    var column := h.columns[c.column];
    LessTimes(c.element, column.repeat, column.elementWidth);
  }

  lemma RowInTable(rows: nat, rowBytes: nat, row: nat)
    requires row < rows
    ensures row * rowBytes + rowBytes <= rows * rowBytes
  {
    LessTimes(row, rows, rowBytes);
  }

  /** Every cell of an accepted binary table has an address, without overflow, and all of its bytes lie in
      the row area of its own unit's data (section 7.3). */
  lemma CellIsInside(source: Source, bounded: bool, i: nat, c: Cell)
    requires ParseHdus(source, bounded).Some? && i < |ParseHdus(source, bounded).value|
    requires ParseHdus(source, bounded).value[i].kind.BinaryTable? && InTable(ParseHdus(source, bounded).value[i], c)
    ensures var h := ParseHdus(source, bounded).value[i];
      && CellStart(h, c).Some?
      && h.dataOffset <= CellStart(h, c).value
      && CellStart(h, c).value + h.columns[c.column].elementWidth <= h.dataOffset + h.rows * h.rowBytes
      && h.dataOffset + h.rows * h.rowBytes <= h.dataOffset + h.dataLength <= h.next <= source.length
  {
    hide HdusFrom, Packed;
    var budget := if bounded then Some(MAX_HEADER_BYTES) else None;
    var h := ParseHdus(source, bounded).value[i];
    UnitsTile(source, 0, 0, bounded, budget);
    TablesFit(source, 0, 0, bounded, budget);
    ChainedInside(ParseHdus(source, bounded).value, 0, source.length, i);
    assert TableFits(h) && Placed(h);
    AddressIsInside(h, c);
  }

  lemma AddressIsInside(h: Hdu, c: Cell)
    requires Packed(h.columns, 0, h.rowBytes) && InTable(h, c)
    requires h.rows * h.rowBytes <= h.dataLength && h.dataOffset + h.dataLength <= h.next <= MAX_U64
    ensures CellStart(h, c).Some? && h.dataOffset <= CellStart(h, c).value
    ensures CellStart(h, c).value + h.columns[c.column].elementWidth <= h.dataOffset + h.rows * h.rowBytes
  {
    hide Packed;
    ElementInRow(h, c);
    RowInTable(h.rows, h.rowBytes, c.row);
    NonNegative(c.row, h.rowBytes);
    NonNegative(c.element, h.columns[c.column].elementWidth);
  }

  lemma {:induction false} ChainedInside(hdus: seq<Hdu>, from: nat, to: nat, i: nat)
    requires Chained(hdus, from, to) && i < |hdus|
    ensures hdus[i].next <= to
  {
    if i == 0 {
      ChainedEnd(hdus[1..], hdus[0].next, to);
    } else {
      ChainedInside(hdus[1..], hdus[0].next, to, i - 1);
    }
  }

  lemma {:induction false} ChainedEnd(hdus: seq<Hdu>, from: nat, to: nat)
    requires Chained(hdus, from, to)
    ensures from <= to
  {
    if |hdus| > 0 {
      ChainedEnd(hdus[1..], hdus[0].next, to);
    }
  }

  /** The byte range of one cell ends before that of another starts. */
  predicate Apart(h: Hdu, a: Cell, b: Cell)
    requires a.column < |h.columns| && b.column < |h.columns|
  {
    && CellStart(h, a).Some? && CellStart(h, b).Some?
    && (CellStart(h, a).value + h.columns[a.column].elementWidth <= CellStart(h, b).value
        || CellStart(h, b).value + h.columns[b.column].elementWidth <= CellStart(h, a).value)
  }

  predicate Earlier(a: Cell, b: Cell) {
    a.row < b.row || (a.row == b.row && (a.column < b.column || (a.column == b.column && a.element < b.element)))
  }

  lemma EarlierIsApart(h: Hdu, a: Cell, b: Cell)
    requires Packed(h.columns, 0, h.rowBytes) && InTable(h, a) && InTable(h, b) && Earlier(a, b)
    requires CellStart(h, a).Some? && CellStart(h, b).Some?
    ensures CellStart(h, a).value + h.columns[a.column].elementWidth <= CellStart(h, b).value
  {
    hide Packed;
    ElementInRow(h, a);
    if a.row < b.row {
      RowInTable(b.row, h.rowBytes, a.row);
    } else if a.column < b.column {
      PackedOrder(h.columns, 0, h.rowBytes, a.column, b.column);
    } else {
      RowInTable(b.element, h.columns[a.column].elementWidth, a.element);
    }
  }

  /** Different cells of one table never share a byte. */
  lemma CellsAreApart(source: Source, bounded: bool, i: nat, a: Cell, b: Cell)
    requires ParseHdus(source, bounded).Some? && i < |ParseHdus(source, bounded).value|
    requires ParseHdus(source, bounded).value[i].kind.BinaryTable? && a != b
    requires InTable(ParseHdus(source, bounded).value[i], a) && InTable(ParseHdus(source, bounded).value[i], b)
    ensures Apart(ParseHdus(source, bounded).value[i], a, b)
  {
    hide HdusFrom, Packed, CellStart;
    var budget := if bounded then Some(MAX_HEADER_BYTES) else None;
    var h := ParseHdus(source, bounded).value[i];
    TablesFit(source, 0, 0, bounded, budget);
    assert TableFits(h);
    CellIsInside(source, bounded, i, a);
    CellIsInside(source, bounded, i, b);
    if Earlier(a, b) {
      EarlierIsApart(h, a, b);
    } else {
      EarlierIsApart(h, b, a);
    }
  }

  // ---- evenly spread rows -----------------------------------------------------------------

  /** The k-th of `count` evenly spread row indexes. */
  function EvenIndex(rows: nat, count: nat, k: nat): nat
    requires count >= 2 && rows >= 1
  {
    k * (rows - 1) / (count - 1)
  }

  /** `even_row_indexes`. */
  function EvenIndexes(rows: nat, requested: nat): seq<nat> {
    var count := if rows <= requested then rows else requested;
    if count == 0 then []
    else if count == 1 then [0]
    else seq(count, k requires 0 <= k < count => EvenIndex(rows, count, k))
  }

  /** The sample is strictly increasing, inside the table, of the size asked for or the whole table, and
      spans the first and the last row. */
  lemma EvenIndexesSpread(rows: nat, requested: nat)
    ensures var r := EvenIndexes(rows, requested);
      && |r| == (if rows <= requested then rows else requested)
      && (forall i | 0 <= i < |r| :: r[i] < rows)
      && (forall i, j | 0 <= i < j < |r| :: r[i] < r[j])
      && (|r| > 0 ==> r[0] == 0)
      && (|r| > 1 ==> r[|r| - 1] == rows - 1)
  {
    var r := EvenIndexes(rows, requested);
    if |r| > 1 {
      forall i, j | 0 <= i < j < |r|
        ensures r[i] < r[j]
      {
        EvenIncreases(rows, |r|, i, j);
      }
      EvenEnds(rows, |r|);
      forall i | 0 <= i < |r|
        ensures r[i] < rows
      {
        if i < |r| - 1 {
          EvenIncreases(rows, |r|, i, |r| - 1);
        }
      }
    }
  }

  lemma EvenIncreases(rows: nat, count: nat, i: nat, j: nat)
    requires 2 <= count <= rows && i < j
    ensures EvenIndex(rows, count, i) < EvenIndex(rows, count, j)
  {
    var d, x, y := count - 1, i * (rows - 1), j * (rows - 1);
    LessTimes(i, j, rows - 1);
    QuotientSteps(x, y, d);
  }

  lemma EvenEnds(rows: nat, count: nat)
    requires 2 <= count <= rows
    ensures EvenIndex(rows, count, 0) == 0 && EvenIndex(rows, count, count - 1) == rows - 1
  {
    QuotientIs((count - 1) * (rows - 1), count - 1, rows - 1, 0);
    QuotientIs(0, count - 1, 0, 0);
  }
}
