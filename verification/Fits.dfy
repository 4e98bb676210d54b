/** The layout of FITS files as src/fits.rs accepts it (FITS Standard 4.0). Cards are modelled after
    decoding. */
module Fits {
  import opened Prelude
  import F = Formula

  const BLOCK: nat := 2880
  const MAX_U64: nat := 18_446_744_073_709_551_615
  const MAX_HDUS: nat := 128
  const MAX_HEADER_BYTES: nat := 1_048_576
  const MAX_AXES: int := 999

  // ---- decoded headers --------------------------------------------------------------------

  datatype HeaderValue = Absent | Integer(i: int) | Boolean(b: bool) | TextValue(s: string) | Float(finite: Option<real>)

  /** A decoded header: the value of a keyword, numbered or not (0). */
  datatype Header = Header(get: (string, nat) -> HeaderValue)

  /** One 2880-byte block of a header: it holds the END card, it does not, or it is refused. */
  datatype Block = Ends | Continues | Refused

  /** A file: its length, what each header block holds, and the header that starts at an offset. */
  datatype Source = Source(length: nat, block: nat -> Block, header: nat -> Header)

  function IntegerOf(h: Header, key: string, k: nat): Option<int> {
    match h.get(key, k)
    case Integer(i) => Some(i)
    case _ => None
  }

  function OptionalInteger(h: Header, key: string, default: int): Option<int> {
    match h.get(key, 0)
    case Integer(i) => Some(i)
    case Absent => Some(default)
    case _ => None
  }

  function TextOf(h: Header, key: string, k: nat): Option<string> {
    match h.get(key, k)
    case TextValue(s) => Some(s)
    case _ => None
  }

  /** `numeric`: a missing keyword has a default, a number is accepted, anything else is refused. */
  predicate NumericOrAbsent(h: Header, key: string, k: nat) {
    match h.get(key, k)
    case Integer(_) => true
    case Float(_) => true
    case Absent => true
    case _ => false
  }

  predicate IntegerOrAbsent(h: Header, key: string, k: nat) {
    match h.get(key, k)
    case Integer(_) => true
    case Absent => true
    case _ => false
  }

  /** The keywords of column `k` that must be numbers are. */
  predicate ColumnKeywordsFit(h: Header, k: nat) {
    NumericOrAbsent(h, "TSCAL", k) && NumericOrAbsent(h, "TZERO", k) && IntegerOrAbsent(h, "TNULL", k)
  }

  // ---- the file's units -------------------------------------------------------------------

  datatype Kind = Primary | Image | BinaryTable | AsciiTable | Unknown

  datatype Column = Column(code: char, repeat: nat, elementWidth: nat, byteOffset: nat, byteWidth: nat)

  datatype Hdu = Hdu(
    start: nat,
    dataOffset: nat,
    dataLength: nat,
    next: nat,
    kind: Kind,
    bitpix: int,
    axes: seq<nat>,
    pcount: nat,
    gcount: nat,
    rows: nat,
    rowBytes: nat,
    columns: seq<Column>,
    compressed: bool)

  /** `binary_table`: a binary table that does not hold a tile-compressed image. */
  predicate PlainTable(h: Hdu) {
    h.kind.BinaryTable? && !h.compressed
  }

  function Trim(s: string): string
    decreases |s|
  {
    if |s| > 0 && s[0] == ' ' then Trim(s[1..])
    else if |s| > 0 && s[|s| - 1] == ' ' then Trim(s[..|s| - 1])
    else s
  }

  function UpperChar(c: char): char {
    if 'a' <= c <= 'z' then (c as int - 'a' as int + 'A' as int) as char else c
  }

  function UpperCase(s: string): (r: string)
    ensures |r| == |s|
  {
    seq(|s|, i requires 0 <= i < |s| => UpperChar(s[i]))
  }

  function ClassOf(index: nat, h: Header): Option<Kind> {
    if index == 0 then if h.get("SIMPLE", 0) == Boolean(true) then Some(Primary) else None
    else
      var extension := TextOf(h, "XTENSION", 0);
      if extension.None? then None
      else
        var name := UpperCase(Trim(extension.value));
        Some(if name == "IMAGE" then Image else if name == "BINTABLE" then BinaryTable
             else if name == "TABLE" then AsciiTable else Unknown)
  }

  // ---- binary-table formats (section 7.3.1) -----------------------------------------------

  function DivCeil(n: nat, d: nat): nat
    requires d > 0
  {
    (n + d - 1) / d
  }

  /** The width of one element, by its letter. */
  function ElementWidth(code: char): Option<nat> {
    if code == 'X' then Some(0)
    else if code == 'L' || code == 'B' || code == 'A' then Some(1)
    else if code == 'I' then Some(2)
    else if code == 'J' || code == 'E' then Some(4)
    else if code == 'K' || code == 'D' || code == 'C' || code == 'P' then Some(8)
    else if code == 'M' || code == 'Q' then Some(16)
    else None
  }

  /** `parse_binary_format`: repeat count, letter and total width; bits share bytes. */
  function ParseFormat(format: string): Option<(nat, char, nat, nat)> {
    var normalized := UpperCase(Trim(format));
    var digits := F.DigitRun(normalized);
    var repeat := if digits == 0 then 1 else F.Value(normalized[..digits]);
    if repeat > MAX_U64 || repeat == 0 || digits == |normalized| then None
    else
      var code := normalized[digits];
      var width := ElementWidth(code);
      if width.None? then None
      else
        var bytes := if code == 'X' then DivCeil(repeat, 8) else repeat * width.value;
        if bytes > MAX_U64 then None else Some((repeat, code, width.value, bytes))
  }

  /** Column `k`, if it can follow columns that end at `offset`. */
  function ColumnAt(h: Header, k: nat, offset: nat, rowBytes: nat): Option<Column> {
    var format := TextOf(h, "TFORM", k);
    var parsed := if format.Some? then ParseFormat(format.value) else None;
    if parsed.None? then None
    else
      var (repeat, code, width, bytes) := parsed.value;
      if !ColumnKeywordsFit(h, k) || offset + bytes > MAX_U64 || offset + bytes > rowBytes then None
      else Some(Column(code, repeat, width, offset, bytes))
  }

  /** `parse_binary_columns` from column `k` on, the columns before it ending at `offset`. */
  function ColumnsFrom(h: Header, count: nat, k: nat, offset: nat, rowBytes: nat): Option<seq<Column>>
    requires 1 <= k <= count + 1
    decreases count + 1 - k
  {
    if k > count then Some([])
    else
      var column := ColumnAt(h, k, offset, rowBytes);
      if column.None? then None
      else
        var rest := ColumnsFrom(h, count, k + 1, offset + column.value.byteWidth, rowBytes);
        if rest.None? then None else Some([column.value] + rest.value)
  }

  function Columns(h: Header, rowBytes: nat): Option<seq<Column>> {
    var count := OptionalInteger(h, "TFIELDS", 0);
    if count.None? || count.value < 0 || count.value > MAX_AXES then None
    else ColumnsFrom(h, count.value, 1, 0, rowBytes)
  }

  // ---- sizes (section 4.4.1.2) ------------------------------------------------------------

  function AxesFrom(h: Header, naxis: nat, k: nat): Option<seq<nat>>
    requires 1 <= k <= naxis + 1
    decreases naxis + 1 - k
  {
    if k > naxis then Some([])
    else
      var length := IntegerOf(h, "NAXIS", k);
      if length.None? || length.value < 0 then None
      else
        var rest := AxesFrom(h, naxis, k + 1);
        if rest.None? then None else Some([length.value] + rest.value)
  }

  function Product(axes: seq<nat>): nat {
    if |axes| == 0 then 1 else Product(axes[..|axes| - 1]) * axes[|axes| - 1]
  }

  /** `product_axes`: every partial product must fit. */
  function CheckedProduct(axes: seq<nat>): (r: Option<nat>)
    ensures r.Some? ==> r.value == Product(axes) <= MAX_U64
  {
    if |axes| == 0 then Some(1)
    else
      var before := CheckedProduct(axes[..|axes| - 1]);
      if before.None? || before.value * axes[|axes| - 1] > MAX_U64 then None else Some(before.value * axes[|axes| - 1])
  }

  function Abs(i: int): nat {
    if i < 0 then -i else i
  }

  /** The data bytes the standard assigns: |BITPIX| / 8 * GCOUNT * (PCOUNT + the product of the axes). */
  function DataBytes(bitpix: int, axes: seq<nat>, pcount: nat, gcount: nat): nat {
    (pcount + if |axes| == 0 then 0 else Product(axes)) * gcount * (Abs(bitpix) / 8)
  }

  predicate LegalBitpix(bitpix: int) {
    bitpix == 8 || bitpix == 16 || bitpix == 32 || bitpix == 64 || bitpix == -32 || bitpix == -64
  }

  /** A checked product of three. */
  function CheckedTimes(x: nat, y: nat, z: nat): (r: Option<nat>)
    ensures r.Some? ==> r.value == x * y * z <= MAX_U64
  {
    NatTimes(x, y);
    NatTimes(x * y, z);
    if x * y > MAX_U64 || x * y * z > MAX_U64 then None else Some(x * y * z)
  }

  lemma NatTimes(x: nat, y: nat)
    ensures 0 <= x * y
  {
  }

  function DataLength(bitpix: int, axes: seq<nat>, pcount: nat, gcount: nat): (r: Option<nat>)
    ensures r.Some? ==> r.value == DataBytes(bitpix, axes, pcount, gcount) <= MAX_U64
  {
    var product := if |axes| == 0 then Some(0) else CheckedProduct(axes);
    if product.None? || product.value + pcount > MAX_U64 then None
    else CheckedTimes(product.value + pcount, gcount, Abs(bitpix) / 8)
  }

  /** The length of data with its padding: data fill whole blocks. */
  function Padded(n: nat): nat {
    DivCeil(n, BLOCK) * BLOCK
  }

  // ---- one unit ---------------------------------------------------------------------------

  /** Where the header that starts at `offset` ends, and what is left of the header budget. */
  function HeaderEnd(source: Source, offset: nat, budget: Option<nat>): (r: Option<(nat, Option<nat>)>)
    ensures r.Some? ==> offset + BLOCK <= r.value.0 <= source.length && (r.value.0 - offset) % BLOCK == 0
    decreases source.length - offset
  {
    if budget.Some? && budget.value < BLOCK then None
    else if offset + BLOCK > MAX_U64 || offset + BLOCK > source.length then None
    else
      var left := if budget.Some? then Some(budget.value - BLOCK) else None;
      match source.block(offset)
      case Ends => Some((offset + BLOCK, left))
      case Refused => None
      case Continues => HeaderEnd(source, offset + BLOCK, left)
  }

  /** The rows, row width and columns of a unit, given its data length. */
  function TableShape(h: Header, kind: Kind, axes: seq<nat>, dataLength: nat): Option<(nat, nat, seq<Column>)> {
    if kind.BinaryTable? then
      if |axes| < 2 then None
      else
        var columns := Columns(h, axes[0]);
        if columns.None? || axes[0] * axes[1] > MAX_U64 || axes[0] * axes[1] > dataLength then None
        else Some((axes[1], axes[0], columns.value))
    else if kind.AsciiTable? then
      Some((if |axes| > 1 then axes[1] else 0, if |axes| > 0 then axes[0] else 0, []))
    else Some((0, 0, []))
  }

  /** The unit at `offset`, once its header is known to end at `dataOffset`. */
  function HduAt(source: Source, offset: nat, dataOffset: nat, index: nat): Option<Hdu> {
    var h := source.header(offset);
    var kind, bitpix, naxis := ClassOf(index, h), IntegerOf(h, "BITPIX", 0), IntegerOf(h, "NAXIS", 0);
    if kind.None? || bitpix.None? || !LegalBitpix(bitpix.value) then None
    else if naxis.None? || naxis.value < 0 || naxis.value > MAX_AXES then None
    else
      var axes := AxesFrom(h, naxis.value, 1);
      var pcount, gcount := OptionalInteger(h, "PCOUNT", 0), OptionalInteger(h, "GCOUNT", 1);
      if axes.None? || pcount.None? || gcount.None? || pcount.value < 0 || gcount.value < 1 then None
      else if h.get("GROUPS", 0) == Boolean(true) then None
      else
        var length := DataLength(bitpix.value, axes.value, pcount.value, gcount.value);
        if length.None? then None
        else
          var padded := Padded(length.value);
          if padded > MAX_U64 || dataOffset + padded > MAX_U64 || dataOffset + padded > source.length then None
          else
            var table := TableShape(h, kind.value, axes.value, length.value);
            if table.None? then None
            else
              Some(Hdu(offset, dataOffset, length.value, dataOffset + padded, kind.value, bitpix.value, axes.value,
                       pcount.value, gcount.value, table.value.0, table.value.1, table.value.2,
                       kind.value.BinaryTable? && h.get("ZIMAGE", 0) == Boolean(true)))
  }

  /** The units from `offset` on; `bounded` limits their number and the header bytes left. */
  function HdusFrom(source: Source, offset: nat, index: nat, bounded: bool, budget: Option<nat>): Option<seq<Hdu>>
    decreases source.length - offset
  {
    if offset >= source.length then Some([])
    else if bounded && index >= MAX_HDUS then None
    else if source.length - offset < BLOCK then None
    else
      var header := HeaderEnd(source, offset, budget);
      if header.None? then None
      else
        var hdu := HduAt(source, offset, header.value.0, index);
        if hdu.None? then None
        else
          assert hdu.value.next >= header.value.0 > offset;
          var rest := HdusFrom(source, hdu.value.next, index + 1, bounded, header.value.1);
          if rest.None? then None else Some([hdu.value] + rest.value)
  }

  /** `parse_hdus_bounded`. */
  function ParseHdus(source: Source, bounded: bool): Option<seq<Hdu>> {
    var hdus := HdusFrom(source, 0, 0, bounded, if bounded then Some(MAX_HEADER_BYTES) else None);
    if hdus.None? || |hdus.value| == 0 then None else hdus
  }

  // ---- the parser as it runs --------------------------------------------------------------

  method ParseHeader(source: Source, headerOffset: nat, budget: Option<nat>) returns (r: Option<(nat, Option<nat>)>)
    ensures r == HeaderEnd(source, headerOffset, budget)
  {
    var blockOffset: nat, left: Option<nat> := headerOffset, budget;
    while true
      invariant HeaderEnd(source, headerOffset, budget) == HeaderEnd(source, blockOffset, left)
      decreases source.length - blockOffset
    {
      if left.Some? {
        if left.value < BLOCK {
          return None;
        }
        left := Some(left.value - BLOCK);
      }
      if blockOffset + BLOCK > MAX_U64 || blockOffset + BLOCK > source.length {
        return None;
      }
      match source.block(blockOffset) {
        case Ends => return Some((blockOffset + BLOCK, left));
        case Refused => return None;
        case Continues =>
      }
      blockOffset := blockOffset + BLOCK;
    }
  }

  method ParseColumn(h: Header, k: nat, byteOffset: nat, rowBytes: nat) returns (r: Option<Column>)
    ensures r == ColumnAt(h, k, byteOffset, rowBytes)
  {
    hide ParseFormat, TextOf, NumericOrAbsent, IntegerOrAbsent;
    var format := TextOf(h, "TFORM", k);
    if format.None? {
      return None;
    }
    var parsed := ParseFormat(format.value);
    if parsed.None? {
      return None;
    }
    var (repeat, code, width, bytes) := parsed.value;
    if !NumericOrAbsent(h, "TSCAL", k) || !NumericOrAbsent(h, "TZERO", k) || !IntegerOrAbsent(h, "TNULL", k) {
      return None;
    }
    var end := byteOffset + bytes;
    if end > MAX_U64 || end > rowBytes {
      return None;
    }
    r := Some(Column(code, repeat, width, byteOffset, bytes));
  }

  method ParseBinaryColumns(h: Header, rowBytes: nat) returns (r: Option<seq<Column>>)
    ensures r == Columns(h, rowBytes)
  {
    hide ColumnAt, OptionalInteger, ColumnsFrom;
    var count := OptionalInteger(h, "TFIELDS", 0);
    if count.None? || count.value < 0 || count.value > MAX_AXES {
      return None;
    }
    var columns: seq<Column> := [];
    var byteOffset: nat := 0;
    ghost var whole := ColumnsFrom(h, count.value, 1, 0, rowBytes);
    assert whole.Some? ==> [] + whole.value == whole.value;
    var oneBased := 1;
    while oneBased <= count.value
      invariant 1 <= oneBased <= count.value + 1
      invariant var rest := ColumnsFrom(h, count.value, oneBased, byteOffset, rowBytes);
        whole == if rest.None? then None else Some(columns + rest.value)
      decreases count.value + 1 - oneBased
    {
      ColumnStep(h, count.value, oneBased, byteOffset, rowBytes, columns);
      var column := ParseColumn(h, oneBased, byteOffset, rowBytes);
      if column.None? {
        return None;
      }
      columns := columns + [column.value];
      byteOffset := byteOffset + column.value.byteWidth;
      oneBased := oneBased + 1;
    }
    NoColumnsLeft(h, count.value, byteOffset, rowBytes);
    assert columns + [] == columns;
    r := Some(columns);
  }

  lemma NoColumnsLeft(h: Header, count: nat, offset: nat, rowBytes: nat)
    ensures ColumnsFrom(h, count, count + 1, offset, rowBytes) == Some([])
  {
  }

  /** One column, in front of the columns still to come and behind those already collected. */
  lemma ColumnStep(h: Header, count: nat, k: nat, offset: nat, rowBytes: nat, done: seq<Column>)
    requires 1 <= k <= count
    ensures var rest, column := ColumnsFrom(h, count, k, offset, rowBytes), ColumnAt(h, k, offset, rowBytes);
      if column.None? then rest.None?
      else
        var after := ColumnsFrom(h, count, k + 1, offset + column.value.byteWidth, rowBytes);
        && rest.None? == after.None?
        && (rest.Some? ==> done + rest.value == (done + [column.value]) + after.value)
  {
    hide ColumnAt;
  }

  method ParseHdusBounded(source: Source, bounded: bool) returns (r: Option<seq<Hdu>>)
    ensures r == ParseHdus(source, bounded)
  {
    hide HduAt, HeaderEnd;
    var hdus: seq<Hdu> := [];
    var offset := 0;
    var budget := if bounded then Some(MAX_HEADER_BYTES) else None;
    ghost var whole := HdusFrom(source, 0, 0, bounded, budget);
    assert whole.Some? ==> [] + whole.value == whole.value;
    while offset < source.length
      invariant var rest := HdusFrom(source, offset, |hdus|, bounded, budget);
        whole == if rest.None? then None else Some(hdus + rest.value)
      decreases source.length - offset
    {
      if bounded && |hdus| >= MAX_HDUS {
        return None;
      }
      if source.length - offset < BLOCK {
        return None;
      }
      var header := ParseHeader(source, offset, budget);
      if header.None? {
        return None;
      }
      var hdu := HduAt(source, offset, header.value.0, |hdus|);
      if hdu.None? {
        return None;
      }
      NextIsLater(source, offset, header.value.0, |hdus|);
      ghost var rest := HdusFrom(source, hdu.value.next, |hdus| + 1, bounded, header.value.1);
      assert rest.Some? ==> hdus + ([hdu.value] + rest.value) == (hdus + [hdu.value]) + rest.value;
      hdus := hdus + [hdu.value];
      budget := header.value.1;
      offset := hdu.value.next;
    }
    assert hdus + [] == hdus;
    r := if hdus == [] then None else Some(hdus);
  }

  lemma NextIsLater(source: Source, offset: nat, dataOffset: nat, index: nat)
    requires HduAt(source, offset, dataOffset, index).Some?
    ensures HduAt(source, offset, dataOffset, index).value.next >= dataOffset
  {
  }
}
