/** What FITS filters, cells and column formats mean in numbers, texts and bytes. */
module FitsLaws {
  import opened Prelude
  import opened Arithmetic
  import C = Formula
  import F = Fits
  import opened FitsCells
  import opened FitsRows
  import opened FitsFilter
  import S = FitsStatistics

  // ---- comparisons ------------------------------------------------------------------------

  predicate IntegersStand(op: Op, a: int, b: int) {
    match op
    case Eq => a == b
    case Ne => a != b
    case Lt => a < b
    case Le => a <= b
    case Gt => a > b
    case Ge => a >= b
  }

  predicate NumbersStand(op: Op, a: real, b: real) {
    match op
    case Eq => a == b
    case Ne => a != b
    case Lt => a < b
    case Le => a <= b
    case Gt => a > b
    case Ge => a >= b
  }

  /** A proper prefix, or smaller at the first byte that differs. */
  predicate Before(a: Bytes, b: Bytes) {
    exists k: nat :: k <= |a| && k < |b| && a[..k] == b[..k] && (k < |a| ==> a[k] < b[k])
  }

  predicate TextsStand(op: Op, a: Bytes, b: Bytes) {
    match op
    case Eq => a == b
    case Ne => a != b
    case Lt => Before(a, b)
    case Le => Before(a, b) || a == b
    case Gt => Before(b, a)
    case Ge => Before(b, a) || a == b
  }

  /** False comes before true. */
  predicate BooleansStand(op: Op, a: bool, b: bool) {
    match op
    case Eq => a == b
    case Ne => a != b
    case Lt => !a && b
    case Le => a ==> b
    case Gt => a && !b
    case Ge => b ==> a
  }

  lemma {:induction false} BytesCompare(a: Bytes, b: Bytes)
    ensures CompareBytes(a, b) == Less <==> Before(a, b)
    ensures CompareBytes(a, b) == Greater <==> Before(b, a)
  {
    if |a| == 0 || |b| == 0 || a[0] != b[0] {
      FirstByteDecides(a, b);
      FirstByteDecides(b, a);
    } else {
      BytesCompare(a[1..], b[1..]);
      SameFirstByte(a, b);
      SameFirstByte(b, a);
      assert CompareBytes(a, b) == CompareBytes(a[1..], b[1..]);
    }
  }

  lemma FirstByteDecides(a: Bytes, b: Bytes)
    requires |a| == 0 || |b| == 0 || a[0] != b[0]
    ensures Before(a, b) <==> |b| > 0 && (|a| > 0 ==> a[0] < b[0])
  {
    if |b| > 0 && (|a| > 0 ==> a[0] < b[0]) {
      assert a[..0] == b[..0];
    }
    if Before(a, b) {
      var k: nat :| k <= |a| && k < |b| && a[..k] == b[..k] && (k < |a| ==> a[k] < b[k]);
      assert k > 0 ==> a[..k][0] == b[..k][0];
    }
  }

  lemma SameFirstByte(a: Bytes, b: Bytes)
    requires |a| > 0 && |b| > 0 && a[0] == b[0]
    ensures Before(a, b) <==> Before(a[1..], b[1..])
  {
    if Before(a, b) {
      var k: nat :| k <= |a| && k < |b| && a[..k] == b[..k] && (k < |a| ==> a[k] < b[k]);
      assert a[..k][1..] == a[1..][..k - 1] && b[..k][1..] == b[1..][..k - 1];
    }
    if Before(a[1..], b[1..]) {
      var k: nat :| k <= |a[1..]| && k < |b[1..]| && a[1..][..k] == b[1..][..k] && (k < |a[1..]| ==> a[1..][k] < b[1..][k]);
      assert a[..k + 1] == [a[0]] + a[1..][..k] && b[..k + 1] == [b[0]] + b[1..][..k];
      assert k + 1 < |b|;
    }
  }

  /** A comparison selects a row exactly when its cell stands to the bound as the operator says. */
  lemma ComparisonMeans(f: Field, op: Op, row: Bytes)
    requires Placed(f, |row|) && RowCell(row, f).Ok?
    ensures forall i, n | RowCell(row, f).value == Integer(i) ::
      Selects(Comparison(f, op, Integer(n)), row) <==> IntegersStand(op, i, n)
    ensures forall x, y | RowCell(row, f).value == Number(x) ::
      Selects(Comparison(f, op, Number(y)), row) <==> NumbersStand(op, x, y)
    ensures forall s, t | RowCell(row, f).value == Text(s) ::
      Selects(Comparison(f, op, Text(t)), row) <==> TextsStand(op, s, t)
    ensures forall a, b | RowCell(row, f).value == Boolean(a) ::
      Selects(Comparison(f, op, Boolean(b)), row) <==> BooleansStand(op, a, b)
    ensures RowCell(row, f).value == Null ==> forall bound :: !Selects(Comparison(f, op, bound), row)
  {
    hide RowCell, Placed, CompareBytes, Before;
    forall s, t | RowCell(row, f).value == Text(s)
      ensures Selects(Comparison(f, op, Text(t)), row) <==> TextsStand(op, s, t)
    {
      BytesCompare(s, t);
      EqualOnly(s, t);
    }
  }

  lemma EqualOnly(s: Bytes, t: Bytes)
    ensures CompareBytes(s, t) == Equal <==> s == t
  {
  }

  // ---- filters as they are written --------------------------------------------------------

  /** The one column of that name, letter case apart. */
  predicate OnlyOne(fields: seq<Field>, name: Bytes, j: nat) {
    j < |fields| && SameName(fields[j].name, name)
    && forall i | 0 <= i < |fields| && i != j :: !SameName(fields[i].name, name)
  }

  lemma {:induction false} MatchingIsOnly(fields: seq<Field>, name: Bytes)
    ensures |Matching(fields, name)| == 0 <==> forall i | 0 <= i < |fields| :: !SameName(fields[i].name, name)
    ensures |Matching(fields, name)| == 1 ==>
      exists j: nat :: j < |fields| && OnlyOne(fields, name, j) && fields[j] == Matching(fields, name)[0]
  {
    hide SameName;
    if |fields| > 0 {
      var n := |fields| - 1;
      MatchingIsOnly(fields[..n], name);
      if |Matching(fields, name)| == 1 {
        if SameName(fields[n].name, name) {
          assert OnlyOne(fields, name, n);
        } else {
          var j: nat :| OnlyOne(fields[..n], name, j) && fields[..n][j] == Matching(fields[..n], name)[0];
          OneOfMore(fields, name, j);
        }
      }
    }
  }

  lemma OneOfMore(fields: seq<Field>, name: Bytes, j: nat)
    requires |fields| > 0 && OnlyOne(fields[..|fields| - 1], name, j) && !SameName(fields[|fields| - 1].name, name)
    ensures OnlyOne(fields, name, j)
  {
    hide SameName;
    var n := |fields| - 1;
    forall i | 0 <= i < |fields| && i != j
      ensures !SameName(fields[i].name, name)
    {
      if i < n {
        assert fields[..n][i] == fields[i];
      }
    }
  }

  /** How the cell of a row stands to the bound a program wrote; a null cell stands to none. */
  predicate CellStands(op: Op, cell: Item, operand: Operand) {
    match (cell, operand)
    case (Integer(i), NumberOperand(x)) => NumbersStand(op, i as real, x)
    case (Integer(i), TextOperand(s)) => ParseInteger(s).Some? && IntegersStand(op, i, ParseInteger(s).value)
    case (Number(x), NumberOperand(y)) => NumbersStand(op, x, y)
    case (Text(s), TextOperand(t)) => TextsStand(op, s, t)
    case (Boolean(a), BooleanOperand(b)) => BooleansStand(op, a, b)
    case _ => false
  }

  /** What a filter says of a row, from the filter as it is written. */
  ghost predicate Means(f: Filter, fields: seq<Field>, row: Bytes) {
    match f
    case All(fs) => forall i | 0 <= i < |fs| :: Means(fs[i], fields, row)
    case Any(fs) => exists i :: 0 <= i < |fs| && Means(fs[i], fields, row)
    case Compare(column, op, operand) =>
      exists j: nat :: OnlyOne(fields, column, j) && CellIn(fields[j], row).Ok? && CellStands(op, CellIn(fields[j], row).value, operand)
    case IsNull(column) => exists j: nat :: OnlyOne(fields, column, j) && CellIn(fields[j], row) == Ok(Null)
    case IsValid(column) =>
      exists j: nat :: OnlyOne(fields, column, j) && CellIn(fields[j], row).Ok? && CellIn(fields[j], row) != Ok(Null)
  }

  function CellIn(f: Field, row: Bytes): Res<Item> {
    if Placed(f, |row|) then RowCell(row, f) else Err
  }

  lemma OnlyOneIs(fields: seq<Field>, name: Bytes, i: nat, j: nat)
    requires OnlyOne(fields, name, i) && OnlyOne(fields, name, j)
    ensures i == j
  {
  }

  lemma LeafMeans(f: Filter, fields: seq<Field>, row: Bytes)
    requires Bind(f, fields).Some? && !f.All? && !f.Any?
    ensures !IsGroup(Bind(f, fields).value)
    ensures Selects(Bind(f, fields).value, row) <==> Means(f, fields, row)
  {
    hide Placed, RowCell, SameName, Matching, OnlyOne;
    var column := f.column;
    MatchingIsOnly(fields, column);
    var field := ScalarColumn(fields, column).value;
    var j: nat :| j < |fields| && OnlyOne(fields, column, j) && fields[j] == field;
    forall i: nat | OnlyOne(fields, column, i)
      ensures i == j
    {
      OnlyOneIs(fields, column, i, j);
    }
    if f.Compare? {
      OperandMeans(field, f.op, f.operand, row);
    }
  }

  /** The bound a column is compared with stands for the bound the program wrote. */
  lemma OperandMeans(f: Field, op: Op, operand: Operand, row: Bytes)
    requires BindOperand(f, op, operand).Some?
    ensures Selects(Comparison(f, op, BindOperand(f, op, operand).value), row)
            <==> CellIn(f, row).Ok? && CellStands(op, CellIn(f, row).value, operand)
  {
    if CellIn(f, row).Ok? {
      ComparisonMeans(f, op, row);
      if CellIn(f, row).value != Null {
        CellKind(f, row);
      }
      hide ParseInteger, Before, RowCell, Placed;
    }
  }

  /** The kind of a cell is the kind of its column. */
  lemma CellKind(f: Field, row: Bytes)
    requires Placed(f, |row|) && RowCell(row, f).Ok? && RowCell(row, f).value != Null
    ensures RowCell(row, f).value.Text? <==> f.column.code == 'A'
    ensures RowCell(row, f).value.Boolean? <==> f.column.code == 'L'
    ensures RowCell(row, f).value.Integer? <==> Integral(f.column.code) && f.unscaled
  {
    hide TrimEnd, Ascii;
  }

  /** A bound filter selects exactly the rows that the filter as written describes. */
  lemma {:induction false} FilterMeans(f: Filter, fields: seq<Field>, row: Bytes)
    requires Bind(f, fields).Some?
    ensures Selects(Bind(f, fields).value, row) <==> Means(f, fields, row)
    decreases f
  {
    hide LeafSelects;
    match f
    case All(fs) => GroupMeans(fs, fields, row);
    case Any(fs) => GroupMeans(fs, fields, row);
    case _ => LeafMeans(f, fields, row);
  }

  lemma {:induction false} GroupMeans(fs: seq<Filter>, fields: seq<Field>, row: Bytes)
    requires BindAll(fs, fields).Some?
    ensures forall i | 0 <= i < |fs| :: Selects(BindAll(fs, fields).value[i], row) <==> Means(fs[i], fields, row)
    decreases fs
  {
    hide Bind, Selects, Means;
    if |fs| > 0 {
      var n := |fs| - 1;
      GroupMeans(fs[..n], fields, row);
      FilterMeans(fs[n], fields, row);
      assert forall i | 0 <= i < n :: fs[..n][i] == fs[i];
    }
  }

  // ---- cells ------------------------------------------------------------------------------

  /** Row `k` starts that many rows behind the start of the data. */
  lemma RowAt(t: Table, k: nat, b: nat)
    requires Held(t) && k < t.hdu.rows && b < t.hdu.rowBytes
    ensures 0 <= t.hdu.dataOffset + k * t.hdu.rowBytes + b < |t.file|
    ensures Row(t, k)[b] == t.file[t.hdu.dataOffset + k * t.hdu.rowBytes + b]
  {
    StretchFits(t, k, 1);
  }

  /** Two bytes and four bytes, the leading one first and signed. */
  lemma BigEndian(a: Byte, b: Byte, c: Byte, d: Byte)
    ensures Signed([a, b]) == (if a < 128 then a else a - 256) * 256 + b
    ensures Signed([a, b, c, d]) == (if a < 128 then a else a - 256) * 16_777_216 + b * 65_536 + c * 256 + d
  {
    assert [a, b][..1] == [a] && [a][..0] == [];
    assert Unsigned([a]) == a && Unsigned([a, b]) == a * 256 + b;
    assert [a, b, c, d][..3] == [a, b, c] && [a, b, c][..2] == [a, b];
    assert Unsigned([a, b, c]) == (a * 256 + b) * 256 + c;
    assert Unsigned([a, b, c, d]) == ((a * 256 + b) * 256 + c) * 256 + d;
    assert Power256(0) == 1 && Power256(1) == 256 && Power256(2) == 65_536 && Power256(3) == 16_777_216;
  }

  /** A logical cell is true for T, false for F, null for a zero, blank or question mark, and malformed
      otherwise. */
  lemma LogicalCell(row: Bytes, f: Field)
    requires Placed(f, |row|) && f.column.code == 'L'
    ensures var b := row[f.column.byteOffset];
      && (RowCell(row, f) == Ok(Boolean(true)) <==> b == 'T' as int)
      && (RowCell(row, f) == Ok(Boolean(false)) <==> b == 'F' as int)
      && (RowCell(row, f) == Ok(Null) <==> b == 0 || b == 32 || b == '?' as int)
      && (RowCell(row, f).Err? <==> b != 'T' as int && b != 'F' as int && b != 0 && b != 32 && b != '?' as int)
  {
  }

  /** A cell of an unscaled integer column is null exactly for the null value, and else its exact number. */
  lemma IntegerCell(row: Bytes, f: Field)
    requires Placed(f, |row|) && Integral(f.column.code) && f.unscaled
    ensures var bytes := row[f.column.byteOffset..f.column.byteOffset + f.column.byteWidth];
      var n := if f.column.code == 'B' then bytes[0] else Signed(bytes);
      RowCell(row, f) == Ok(if f.nullValue == Some(n) then Null else Integer(n))
  {
    hide Signed;
  }

  /** The exported text of each kind of cell. */
  lemma ExportedText(row: Bytes, f: Field, format: real -> Bytes)
    requires Placed(f, |row|) && RowCell(row, f).Ok?
    ensures RowCell(row, f) == Ok(Boolean(true)) ==> CellText(row, f, format) == Ok(['t' as int, 'r' as int, 'u' as int, 'e' as int])
    ensures RowCell(row, f) == Ok(Boolean(false)) ==>
      CellText(row, f, format) == Ok(['f' as int, 'a' as int, 'l' as int, 's' as int, 'e' as int])
    ensures RowCell(row, f) == Ok(Null) ==> CellText(row, f, format) == Ok(['\\' as int, 'N' as int])
    ensures forall s | RowCell(row, f) == Ok(Text(s)) ::
      CellText(row, f, format) == if s == ['\\' as int, 'N' as int] then Err else Ok(s)
    ensures forall x | RowCell(row, f) == Ok(Number(x)) :: CellText(row, f, format) == Ok(format(x))
  {
    hide RowCell;
  }

  // ---- statistics -------------------------------------------------------------------------

  /** A row is selected from the lower bound on and before the upper one. */
  lemma HalfOpen(row: Bytes, q: S.Query, x: real)
    requires S.Asked(q, |row|) && S.NumberOf(row, q.selection) == Ok(Some(x))
    ensures S.InRange(row, q) <==> q.lower <= x < q.upper
  {
  }

  /** What a selected row contributes: its weight, or one, and its value. */
  lemma ContributionIs(row: Bytes, q: S.Query, weight: real, value: real)
    requires S.Asked(q, |row|) && S.InRange(row, q) && S.NumberOf(row, q.value) == Ok(Some(value))
    requires match q.weight case Some(f) => S.NumberOf(row, f) == Ok(Some(weight)) case None => weight == 1.0
    ensures S.Contribution(row, q) == [(weight, value)]
  {
  }

  // ---- units and their keywords (section 4.4.1) -------------------------------------------

  /** A header ends with the first block that holds the END card. */
  lemma {:induction false} HeaderEndMeans(source: F.Source, offset: nat, budget: Option<nat>)
    requires F.HeaderEnd(source, offset, budget).Some?
    ensures var end := F.HeaderEnd(source, offset, budget).value.0;
      && end >= offset + F.BLOCK && source.block(end - F.BLOCK) == F.Ends
      && forall k: nat | offset + (k + 1) * F.BLOCK < end :: source.block(offset + k * F.BLOCK) == F.Continues
    decreases source.length - offset
  {
    if source.block(offset) == F.Continues {
      var left := if budget.Some? then Some(budget.value - F.BLOCK) else None;
      HeaderEndMeans(source, offset + F.BLOCK, left);
      var end := F.HeaderEnd(source, offset, budget).value.0;
      forall k: nat | offset + (k + 1) * F.BLOCK < end
        ensures source.block(offset + k * F.BLOCK) == F.Continues
      {
        if k > 0 {
          var j: nat := k - 1;
          assert offset + F.BLOCK + (j + 1) * F.BLOCK < end;
          assert offset + F.BLOCK + j * F.BLOCK == offset + k * F.BLOCK;
        }
      }
    }
  }

  lemma {:induction false} AxesAre(h: F.Header, naxis: nat, k: nat)
    requires 1 <= k <= naxis + 1 && F.AxesFrom(h, naxis, k).Some?
    ensures var axes := F.AxesFrom(h, naxis, k).value;
      |axes| == naxis + 1 - k && forall i | 0 <= i < |axes| :: h.get("NAXIS", k + i) == F.HeaderValue.Integer(axes[i])
    decreases naxis + 1 - k
  {
    if k <= naxis {
      AxesAre(h, naxis, k + 1);
      var axes, rest := F.AxesFrom(h, naxis, k).value, F.AxesFrom(h, naxis, k + 1).value;
      assert axes[1..] == rest;
      forall i | 0 <= i < |axes|
        ensures h.get("NAXIS", k + i) == F.HeaderValue.Integer(axes[i])
      {
        if i > 0 {
          assert h.get("NAXIS", (k + 1) + (i - 1)) == F.HeaderValue.Integer(rest[i - 1]);
        }
      }
    }
  }

  /** Column `j` is the one the j-th TFORM describes, counted from one. */
  predicate FormedBy(h: F.Header, k: nat, c: F.Column) {
    && h.get("TFORM", k).TextValue?
    && F.ParseFormat(h.get("TFORM", k).s) == Some((c.repeat, c.code, c.elementWidth, c.byteWidth))
  }

  lemma ColumnIs(h: F.Header, k: nat, offset: nat, rowBytes: nat)
    requires F.ColumnAt(h, k, offset, rowBytes).Some?
    ensures FormedBy(h, k, F.ColumnAt(h, k, offset, rowBytes).value)
  {
    hide F.ParseFormat;
    var (repeat, code, width, bytes) := F.ParseFormat(h.get("TFORM", k).s).value;
    assert F.ParseFormat(h.get("TFORM", k).s) == Some((repeat, code, width, bytes));
  }

  lemma {:induction false} ColumnsAre(h: F.Header, count: nat, k: nat, offset: nat, rowBytes: nat)
    requires 1 <= k <= count + 1 && F.ColumnsFrom(h, count, k, offset, rowBytes).Some?
    ensures var columns := F.ColumnsFrom(h, count, k, offset, rowBytes).value;
      |columns| == count + 1 - k && forall j | 0 <= j < |columns| :: FormedBy(h, k + j, columns[j])
    decreases count + 1 - k
  {
    hide F.ParseFormat;
    if k <= count {
      var first := F.ColumnAt(h, k, offset, rowBytes).value;
      ColumnsAre(h, count, k + 1, offset + first.byteWidth, rowBytes);
      var all := F.ColumnsFrom(h, count, k, offset, rowBytes).value;
      var rest := F.ColumnsFrom(h, count, k + 1, offset + first.byteWidth, rowBytes).value;
      assert all == [first] + rest;
      ColumnIs(h, k, offset, rowBytes);
      forall j | 0 <= j < |all|
        ensures FormedBy(h, k + j, all[j])
      {
        if j > 0 {
          var i := j - 1;
          assert FormedBy(h, (k + 1) + i, rest[i]);
          assert (k + 1) + i == k + j && all[j] == rest[i];
        }
      }
    }
  }

  /** What the keywords of a header say of its unit. */
  ghost predicate KeywordsSay(h: F.Header, u: F.Hdu) {
    && h.get("BITPIX", 0) == F.HeaderValue.Integer(u.bitpix) && h.get("NAXIS", 0) == F.HeaderValue.Integer(|u.axes|)
    && (forall i | 0 <= i < |u.axes| :: h.get("NAXIS", 1 + i) == F.HeaderValue.Integer(u.axes[i]))
    && h.get("PCOUNT", 0) in {F.HeaderValue.Integer(u.pcount), F.Absent} && (h.get("PCOUNT", 0).Absent? ==> u.pcount == 0)
    && h.get("GCOUNT", 0) in {F.HeaderValue.Integer(u.gcount), F.Absent} && (h.get("GCOUNT", 0).Absent? ==> u.gcount == 1)
    && (u.kind.BinaryTable? ==>
          && |u.axes| >= 2 && h.get("NAXIS", 1) == F.HeaderValue.Integer(u.rowBytes) && h.get("NAXIS", 2) == F.HeaderValue.Integer(u.rows)
          && (h.get("TFIELDS", 0) == F.HeaderValue.Integer(|u.columns|) || (h.get("TFIELDS", 0).Absent? && u.columns == []))
          && (forall j | 0 <= j < |u.columns| :: FormedBy(h, 1 + j, u.columns[j]))
          && (u.compressed <==> h.get("ZIMAGE", 0) == F.HeaderValue.Boolean(true)))
  }

  lemma UnitMeans(source: F.Source, offset: nat, dataOffset: nat, index: nat)
    requires F.HduAt(source, offset, dataOffset, index).Some?
    ensures var u := F.HduAt(source, offset, dataOffset, index).value;
      u.start == offset && u.dataOffset == dataOffset && KeywordsSay(source.header(offset), u)
  {
    hide F.ColumnsFrom, F.AxesFrom, F.DataLength, F.Padded, F.ClassOf, FormedBy;
    var h, u := source.header(offset), F.HduAt(source, offset, dataOffset, index).value;
    AxesAre(h, F.IntegerOf(h, "NAXIS", 0).value, 1);
    if u.kind.BinaryTable? {
      ColumnsAre(h, F.OptionalInteger(h, "TFIELDS", 0).value, 1, 0, u.rowBytes);
      assert h.get("NAXIS", 1 + 0) == F.HeaderValue.Integer(u.axes[0]) && h.get("NAXIS", 1 + 1) == F.HeaderValue.Integer(u.axes[1]);
    }
  }

  /** Every unit of an accepted file is what the keywords at its start say. */
  lemma {:induction false} UnitsMean(source: F.Source, offset: nat, index: nat, bounded: bool, budget: Option<nat>)
    requires F.HdusFrom(source, offset, index, bounded, budget).Some?
    ensures var hdus := F.HdusFrom(source, offset, index, bounded, budget).value;
      forall i | 0 <= i < |hdus| :: KeywordsSay(source.header(hdus[i].start), hdus[i])
    decreases source.length - offset
  {
    hide F.HduAt, KeywordsSay;
    if offset < source.length {
      var header := F.HeaderEnd(source, offset, budget);
      UnitMeans(source, offset, header.value.0, index);
      F.NextIsLater(source, offset, header.value.0, index);
      UnitsMean(source, F.HduAt(source, offset, header.value.0, index).value.next, index + 1, bounded, header.value.1);
    }
  }

  lemma FileMeans(source: F.Source, bounded: bool)
    requires F.ParseHdus(source, bounded).Some?
    ensures forall u | u in F.ParseHdus(source, bounded).value :: KeywordsSay(source.header(u.start), u)
  {
    hide F.HdusFrom, KeywordsSay;
    UnitsMean(source, 0, 0, bounded, if bounded then Some(F.MAX_HEADER_BYTES) else None);
  }

  /** What kind of unit a header starts. */
  lemma KindMeans(index: nat, h: F.Header)
    requires F.ClassOf(index, h).Some?
    ensures index == 0 ==> F.ClassOf(index, h) == Some(F.Primary) && h.get("SIMPLE", 0) == F.HeaderValue.Boolean(true)
    ensures index > 0 && h.get("XTENSION", 0) == F.TextValue("BINTABLE") ==> F.ClassOf(index, h) == Some(F.BinaryTable)
    ensures index > 0 && h.get("XTENSION", 0) == F.TextValue("IMAGE") ==> F.ClassOf(index, h) == Some(F.Image)
    ensures index > 0 && h.get("XTENSION", 0) == F.TextValue("TABLE") ==> F.ClassOf(index, h) == Some(F.AsciiTable)
  {
    PlainFormat("BINTABLE");
    PlainFormat("IMAGE");
    PlainFormat("TABLE");
  }

  // ---- column formats (section 7.3.1) -----------------------------------------------------

  /** The bytes one element takes, by its letter; bits are counted apart. */
  function StandardWidth(letter: char): Option<nat> {
    match letter
    case 'L' => Some(1)
    case 'X' => Some(0)
    case 'B' => Some(1)
    case 'I' => Some(2)
    case 'J' => Some(4)
    case 'K' => Some(8)
    case 'A' => Some(1)
    case 'E' => Some(4)
    case 'D' => Some(8)
    case 'C' => Some(8)
    case 'M' => Some(16)
    case 'P' => Some(8)
    case 'Q' => Some(16)
    case _ => None
  }

  lemma PlainFormat(s: string)
    requires |s| > 0 && forall i | 0 <= i < |s| :: '0' <= s[i] <= '9' || 'A' <= s[i] <= 'Z'
    ensures F.UpperCase(F.Trim(s)) == s
  {
    assert s[0] != ' ' && s[|s| - 1] != ' ';
    assert F.Trim(s) == s;
    assert forall i | 0 <= i < |s| :: F.UpperCase(s)[i] == s[i];
  }

  /** A count and a letter take that many elements of the letter's width, and bits whole bytes. */
  lemma FormatMeans(n: nat, letter: char)
    requires 1 <= n <= 1_000_000_000 && StandardWidth(letter).Some?
    ensures var w := StandardWidth(letter).value;
      F.ParseFormat(C.Decimal(n) + [letter]) == Some((n, letter, w, if letter == 'X' then (n + 7) / 8 else n * w))
  {
    var s := C.Decimal(n) + [letter];
    PlainFormat(s);
    C.ValueOfDecimal(n);
    C.DigitRunIs(C.Decimal(n), [letter]);
    assert s[..|C.Decimal(n)|] == C.Decimal(n);
    Bounded(n, StandardWidth(letter).value);
  }

  lemma Bounded(n: nat, w: nat)
    requires n <= 1_000_000_000 && w <= 16
    ensures n * w <= 16_000_000_000
  {
    NonNegative(1_000_000_000 - n, w);
    assert 1_000_000_000 * w == n * w + (1_000_000_000 - n) * w;
  }

  /** A letter alone is one element. */
  lemma LetterAlone(letter: char)
    requires StandardWidth(letter).Some?
    ensures var w := StandardWidth(letter).value;
      F.ParseFormat([letter]) == Some((1, letter, w, if letter == 'X' then 1 else w))
  {
    PlainFormat([letter]);
    assert C.DigitRun([letter]) == 0;
  }

  /** A 32-bit integer takes four bytes, a 16-bit one two, and twelve bits two bytes. */
  lemma CommonFormats()
    ensures F.ParseFormat("1J") == F.ParseFormat("J") == Some((1, 'J', 4, 4))
    ensures F.ParseFormat("1I") == F.ParseFormat("I") == Some((1, 'I', 2, 2))
    ensures F.ParseFormat("12X") == Some((12, 'X', 0, 2))
  {
    hide F.ParseFormat;
    LetterAlone('J');
    LetterAlone('I');
    FormatMeans(1, 'J');
    FormatMeans(1, 'I');
    FormatMeans(12, 'X');
    assert C.Decimal(1) + ['J'] == "1J" && C.Decimal(1) + ['I'] == "1I" && C.Decimal(12) + ['X'] == "12X";
  }
}
