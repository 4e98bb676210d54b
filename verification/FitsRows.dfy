/** Reading a binary table row by row: positional reads of whole stretches of rows, and the buffered row
    source of src/fits_batch.rs. */
module FitsRows {
  import opened Prelude
  import opened Arithmetic
  import F = Fits
  import L = FitsLayout
  import opened FitsCells

  const BUFFER_BYTES: nat := 65_536
  const MAX_ROW_BYTES: nat := 1_048_576

  /** A table of a file: the bytes, the unit that holds the table, and its columns. */
  datatype Table = Table(file: Bytes, hdu: F.Hdu, fields: seq<Field>)

  /** The rows lie inside the file. */
  predicate Held(t: Table) {
    t.hdu.dataOffset + t.hdu.rows * t.hdu.rowBytes <= |t.file| <= F.MAX_U64
  }

  /** Every table of an accepted file is held by it. */
  lemma ParsedTableIsHeld(source: F.Source, bounded: bool, i: nat, t: Table)
    requires F.ParseHdus(source, bounded).Some? && i < |F.ParseHdus(source, bounded).value|
    requires t.hdu == F.ParseHdus(source, bounded).value[i] && t.hdu.kind.BinaryTable?
    requires |t.file| == source.length <= F.MAX_U64
    ensures Held(t)
  {
    hide F.HdusFrom, L.Packed;
    var budget := if bounded then Some(F.MAX_HEADER_BYTES) else None;
    L.UnitsTile(source, 0, 0, bounded, budget);
    L.TablesFit(source, 0, 0, bounded, budget);
    L.ChainedInside(F.ParseHdus(source, bounded).value, 0, source.length, i);
    assert L.TableFits(t.hdu) && L.Placed(t.hdu);
  }

  /** `DataSource::read`. */
  function Read(file: Bytes, offset: nat, length: nat): Res<Bytes> {
    if offset + length > F.MAX_U64 || offset + length > |file| then Err else Ok(file[offset..offset + length])
  }

  /** The bytes of `count` rows from row `first` on. */
  function Stretch(t: Table, first: nat, count: nat): (r: Bytes)
    requires Held(t) && first + count <= t.hdu.rows
    ensures |r| == count * t.hdu.rowBytes
  {
    StretchFits(t, first, count);
    var start := t.hdu.dataOffset + first * t.hdu.rowBytes;
    t.file[start..start + count * t.hdu.rowBytes]
  }

  /** The plain reading of one row. */
  function Row(t: Table, k: nat): (r: Bytes)
    requires Held(t) && k < t.hdu.rows
    ensures |r| == t.hdu.rowBytes
  {
    Stretch(t, k, 1)
  }

  lemma StretchFits(t: Table, first: nat, count: nat)
    requires Held(t) && first + count <= t.hdu.rows
    ensures 0 <= first * t.hdu.rowBytes && 0 <= count * t.hdu.rowBytes
    ensures t.hdu.dataOffset + first * t.hdu.rowBytes + count * t.hdu.rowBytes <= t.hdu.dataOffset + t.hdu.rows * t.hdu.rowBytes <= |t.file|
  {
    var w, left := t.hdu.rowBytes, t.hdu.rows - first - count;
    NonNegative(first, w);
    NonNegative(count, w);
    NonNegative(left, w);
    assert (first + count + left) * w == first * w + count * w + left * w;
  }

  /** A positional read of a stretch never fails. */
  lemma StretchIsRead(t: Table, first: nat, count: nat)
    requires Held(t) && first + count <= t.hdu.rows
    ensures 0 <= first * t.hdu.rowBytes && 0 <= count * t.hdu.rowBytes
    ensures Read(t.file, t.hdu.dataOffset + first * t.hdu.rowBytes, count * t.hdu.rowBytes) == Ok(Stretch(t, first, count))
  {
    StretchFits(t, first, count);
  }

  /** The `local`-th row of a stretch is that row of the table. */
  lemma RowOfStretch(t: Table, first: nat, count: nat, local: nat)
    requires Held(t) && first + count <= t.hdu.rows && local < count
    ensures 0 <= local * t.hdu.rowBytes && local * t.hdu.rowBytes + t.hdu.rowBytes <= |Stretch(t, first, count)|
    ensures Stretch(t, first, count)[local * t.hdu.rowBytes..local * t.hdu.rowBytes + t.hdu.rowBytes] == Row(t, first + local)
  {
    var w := t.hdu.rowBytes;
    StretchFits(t, first, count);
    StretchFits(t, first + local, 1);
    NonNegative(local, w);
    LessTimes(local, count, w);
    assert (first + local) * w == first * w + local * w;
  }

  /** Neighbouring stretches make a longer one. */
  lemma StretchesJoin(t: Table, first: nat, a: nat, b: nat)
    requires Held(t) && first + a + b <= t.hdu.rows
    ensures Stretch(t, first, a) + Stretch(t, first + a, b) == Stretch(t, first, a + b)
  {
    var w := t.hdu.rowBytes;
    StretchFits(t, first, a);
    StretchFits(t, first + a, b);
    StretchFits(t, first, a + b);
    assert (first + a) * w == first * w + a * w && (a + b) * w == a * w + b * w;
  }

  // ---- rows as texts ----------------------------------------------------------------------

  predicate AllPlaced(fields: seq<Field>, rowBytes: nat) {
    forall i | 0 <= i < |fields| :: Placed(fields[i], rowBytes)
  }

  /** The texts of a row, or the refusal of its first bad cell. */
  function Texts(row: Bytes, fields: seq<Field>, format: real -> Bytes): (r: Res<seq<Bytes>>)
    requires AllPlaced(fields, |row|)
    ensures r.Ok? ==> |r.value| == |fields|
  {
    if |fields| == 0 then Ok([])
    else
      var before :- Texts(row, fields[..|fields| - 1], format);
      var last :- CellText(row, fields[|fields| - 1], format);
      Ok(before + [last])
  }

  /** A row has texts exactly when every cell has, and they are the texts of its cells. */
  lemma {:induction false} TextsAreCells(row: Bytes, fields: seq<Field>, format: real -> Bytes)
    requires AllPlaced(fields, |row|)
    ensures var r := Texts(row, fields, format);
      && (r.Ok? <==> forall i | 0 <= i < |fields| :: CellText(row, fields[i], format).Ok?)
      && (r.Ok? ==> forall i | 0 <= i < |fields| :: CellText(row, fields[i], format) == Ok(r.value[i]))
  {
    hide CellText, Placed;
    if |fields| > 0 {
      var n := |fields| - 1;
      TextsAreCells(row, fields[..n], format);
      assert forall i | 0 <= i < n :: fields[..n][i] == fields[i];
    }
  }

  // ---- the buffered source ----------------------------------------------------------------

  predicate Usable(f: Field) {
    Readable(f.column.code) && (f.column.code != 'A' ==> f.column.repeat == 1) && f.finiteScaling
  }

  /** The rows and columns of `Source::open` that do not depend on the names asked for. */
  predicate BatchTable(t: Table) {
    && F.PlainTable(t.hdu) && t.hdu.bitpix == 8 && |t.hdu.axes| == 2 && t.hdu.gcount == 1
    && 1 <= t.hdu.rowBytes <= MAX_ROW_BYTES
  }

  /** Each column of the unit, described as cells are decoded, keeps the layout of section 7.3. */
  predicate Described(t: Table) {
    forall i | 0 <= i < |t.fields| ::
      && t.fields[i].column.byteOffset + t.fields[i].column.byteWidth <= t.hdu.rowBytes
      && (Usable(t.fields[i]) && t.fields[i].column.code != 'A' ==>
            t.fields[i].column.byteWidth == t.fields[i].column.elementWidth > 0)
  }

  /** The described columns are those of the unit. */
  predicate DescribesUnit(t: Table) {
    |t.fields| == |t.hdu.columns| && forall i | 0 <= i < |t.fields| :: t.fields[i].column == t.hdu.columns[i]
  }

  /** Every table of an accepted file, its columns described one by one, keeps that layout. */
  lemma ParsedTableIsDescribed(source: F.Source, bounded: bool, i: nat, t: Table)
    requires F.ParseHdus(source, bounded).Some? && i < |F.ParseHdus(source, bounded).value|
    requires t.hdu == F.ParseHdus(source, bounded).value[i] && t.hdu.kind.BinaryTable? && DescribesUnit(t)
    ensures Described(t)
  {
    hide F.HdusFrom;
    L.TablesFit(source, 0, 0, bounded, if bounded then Some(F.MAX_HEADER_BYTES) else None);
    assert L.TableFits(t.hdu);
    forall k | 0 <= k < |t.fields|
      ensures t.fields[k].column.byteOffset + t.fields[k].column.byteWidth <= t.hdu.rowBytes
      ensures Usable(t.fields[k]) && t.fields[k].column.code != 'A' ==>
        t.fields[k].column.byteWidth == t.fields[k].column.elementWidth > 0
    {
      assert t.fields[k].column == t.hdu.columns[k];
      OneElement(t.hdu.columns, t.hdu.rowBytes, k);
    }
  }

  /** One readable element fills its column. */
  lemma OneElement(columns: seq<F.Column>, rowBytes: nat, k: nat)
    requires L.Packed(columns, 0, rowBytes) && k < |columns|
    ensures columns[k].byteOffset + columns[k].byteWidth <= rowBytes
    ensures Readable(columns[k].code) && columns[k].repeat == 1 ==> columns[k].byteWidth == columns[k].elementWidth > 0
  {
    assert columns[k].repeat == 1 ==> columns[k].repeat * columns[k].elementWidth == columns[k].elementWidth;
  }

  /** A name that exactly one column has. */
  predicate NamesOne(fields: seq<Field>, name: Bytes, i: nat) {
    && i < |fields| && fields[i].name == name
    && forall j | 0 <= j < |fields| && j != i :: fields[j].name != name
  }

  /** The lookup of one exact, case-sensitive name: a second match is refused. */
  method FindExact(fields: seq<Field>, name: Bytes) returns (r: Option<nat>)
    ensures r.Some? ==> NamesOne(fields, name, r.value)
    ensures r.None? ==> forall i: nat :: !NamesOne(fields, name, i)
  {
    r := None;
    for i := 0 to |fields|
      invariant r.None? ==> forall j | 0 <= j < i :: fields[j].name != name
      invariant r.Some? ==> r.value < i && fields[r.value].name == name
      invariant r.Some? ==> forall j | 0 <= j < i && j != r.value :: fields[j].name != name
    {
      if fields[i].name == name {
        if r.Some? {
          return None;
        }
        r := Some(i);
      }
    }
  }

  /** What `open` picks for the names asked for. */
  ghost predicate Picks(t: Table, names: seq<Bytes>, picked: seq<Field>) {
    && |picked| == |names|
    && forall k | 0 <= k < |names| ::
         picked[k].name == names[k] && Usable(picked[k]) && exists i: nat :: NamesOne(t.fields, names[k], i) && t.fields[i] == picked[k]
  }

  class Source {
    const table: Table
    const columns: seq<Field>
    const format: real -> Bytes
    var nextRow: nat
    var buffer: Bytes
    var firstBufferRow: nat
    var bufferRows: nat
    /** All bytes read from the file, in order. */
    ghost var fetched: Bytes
    /** All rows handed out, in order. */
    ghost var delivered: seq<seq<Bytes>>

    ghost predicate Ready() {
      Held(table) && 1 <= table.hdu.rowBytes <= MAX_ROW_BYTES && AllPlaced(columns, table.hdu.rowBytes)
    }

    /** The buffer holds the rows it says it holds; the rows handed out are the first rows of the table;
        and the bytes read so far are the row area up to the end of the buffer, each byte once. */
    ghost predicate Valid()
      reads this
    {
      && Ready()
      && firstBufferRow <= nextRow <= firstBufferRow + bufferRows <= table.hdu.rows
      && (nextRow < table.hdu.rows ==> buffer == Stretch(table, firstBufferRow, bufferRows))
      && fetched == Stretch(table, 0, firstBufferRow + bufferRows)
      && Delivers(delivered, nextRow)
    }

    ghost predicate Delivers(rows: seq<seq<Bytes>>, n: nat)
      requires Ready()
    {
      && |rows| == n <= table.hdu.rows
      && forall k: nat | k < n :: Texts(Row(table, k), columns, format) == Ok(rows[k])
    }

    constructor (table: Table, columns: seq<Field>, format: real -> Bytes)
      requires Held(table) && 1 <= table.hdu.rowBytes <= MAX_ROW_BYTES && AllPlaced(columns, table.hdu.rowBytes)
      ensures Valid() && this.table == table && this.columns == columns && this.format == format
      ensures nextRow == 0 && delivered == []
    {
      this.table, this.columns, this.format := table, columns, format;
      nextRow, buffer, firstBufferRow, bufferRows := 0, [], 0, 0;
      fetched, delivered := [], [];
    }

    /** `next`: the next row's texts, nothing at the end, or a refusal that leaves the row unread. What is
        handed out is the plain reading of that row, whatever the buffer holds. */
    method Next() returns (r: Res<Option<seq<Bytes>>>)
      requires Valid()
      modifies this
      ensures Valid()
      ensures old(nextRow) == table.hdu.rows ==>
        r == Ok(None) && nextRow == old(nextRow) && delivered == old(delivered) && buffer == [] && fetched == old(fetched)
      ensures old(nextRow) < table.hdu.rows ==>
        var texts := Texts(Row(table, old(nextRow)), columns, format);
        && r == (if texts.Ok? then Ok(Some(texts.value)) else Err)
        && nextRow == old(nextRow) + (if texts.Ok? then 1 else 0)
        && delivered == old(delivered) + (if texts.Ok? then [texts.value] else [])
      ensures |buffer| <= |old(buffer)| || |buffer| <= BUFFER_BYTES || |buffer| == table.hdu.rowBytes
      ensures old(fetched) <= fetched
    {
      hide Texts, Stretch, Placed;
      if nextRow == table.hdu.rows {
        buffer := [];
        return Ok(None);
      }
      if nextRow >= firstBufferRow + bufferRows {
        Refill();
      }
      var start := (nextRow - firstBufferRow) * table.hdu.rowBytes;
      RowOfStretch(table, firstBufferRow, bufferRows, nextRow - firstBufferRow);
      var raw := buffer[start..start + table.hdu.rowBytes];
      var values :- Texts(raw, columns, format);
      nextRow := nextRow + 1;
      delivered := delivered + [values];
      r := Ok(Some(values));
    }

    method Refill()
      requires Valid() && nextRow < table.hdu.rows && nextRow == firstBufferRow + bufferRows
      modifies this`buffer, this`firstBufferRow, this`bufferRows, this`fetched
      ensures Valid() && firstBufferRow == nextRow && bufferRows > 0
      ensures |buffer| <= BUFFER_BYTES || |buffer| == table.hdu.rowBytes
      ensures old(fetched) <= fetched
    {
      hide Texts, Stretch, Placed;
      var width := table.hdu.rowBytes;
      var perBuffer := if BUFFER_BYTES / width > 1 then BUFFER_BYTES / width else 1;
      var left := table.hdu.rows - nextRow;
      firstBufferRow := nextRow;
      bufferRows := if left < perBuffer then left else perBuffer;
      StretchIsRead(table, nextRow, bufferRows);
      var bytes := Read(table.file, table.hdu.dataOffset + nextRow * width, bufferRows * width);
      buffer := bytes.value;
      BufferSize(width, bufferRows);
      StretchesJoin(table, 0, nextRow, bufferRows);
      fetched := fetched + buffer;
    }
  }

  lemma BufferSize(width: nat, rows: nat)
    requires width > 0 && (rows <= BUFFER_BYTES / width || rows <= 1)
    ensures rows * width <= BUFFER_BYTES || rows * width == width
  {
    if rows <= BUFFER_BYTES / width {
      var q := BUFFER_BYTES / width;
      assert q * width <= BUFFER_BYTES;
      NonNegative(q - rows, width);
      assert q * width == rows * width + (q - rows) * width;
    }
  }

  /** `Source::open`: refused unless the table suits and every name picks one usable column. */
  method Open(t: Table, names: seq<Bytes>, format: real -> Bytes) returns (r: Option<Source>)
    requires Held(t) && Described(t)
    ensures r.Some? ==> r.value.Valid() && r.value.table == t && r.value.nextRow == 0 && fresh(r.value)
    ensures r.Some? ==> BatchTable(t) && Picks(t, names, r.value.columns)
    ensures r.None? ==> !BatchTable(t) || forall picked :: !Picks(t, names, picked)
  {
    if !BatchTable(t) {
      return None;
    }
    var columns := [];
    for k := 0 to |names|
      invariant |columns| == k && Picks(t, names[..k], columns)
      invariant AllPlaced(columns, t.hdu.rowBytes)
    {
      var found := FindExact(t.fields, names[k]);
      if found.None? || !Usable(t.fields[found.value]) {
        return None;
      }
      assert NamesOne(t.fields, names[k], found.value);
      columns := columns + [t.fields[found.value]];
    }
    assert names[..|names|] == names;
    var source := new Source(t, columns, format);
    r := Some(source);
  }
}
