/** Cells of binary tables (section 7.3.3 of the FITS Standard 4.0) and their texts. Scaled numbers and
    their shortest texts are parameters. */
module FitsCells {
  import opened Prelude
  import opened Arithmetic
  import F = Fits
  import D = Delimited

  type Byte = D.Byte
  type Bytes = seq<Byte>

  const SAFE_INTEGER: int := 9_007_199_254_740_991
  const BLANK: Byte := 32
  /** `\N` */
  const NULL_TEXT: Bytes := [92, 78]

  /** What the bytes of a numeric cell stand for once scaled. */
  datatype Reading = Missing | Infinite | Finite(value: real)

  /** A column as cells are decoded through it. */
  datatype Field = Field(name: Bytes, column: F.Column, nullValue: Option<int>, unscaled: bool, finiteScaling: bool,
                         reading: Bytes -> Reading)

  datatype Item = Integer(i: int) | Number(x: real) | Text(s: Bytes) | Boolean(b: bool) | Null

  datatype Value = Real(x: real) | Logical(b: bool) | Nothing

  predicate Readable(code: char) {
    code == 'L' || code == 'B' || code == 'I' || code == 'J' || code == 'K' || code == 'A' || code == 'E' || code == 'D'
  }

  predicate Numeric(code: char) {
    Readable(code) && code != 'L' && code != 'A'
  }

  predicate Integral(code: char) {
    code == 'B' || code == 'I' || code == 'J' || code == 'K'
  }

  // ---- integers ---------------------------------------------------------------------------

  function Power256(n: nat): (r: nat)
    ensures r >= 1
  {
    if n == 0 then 1 else 256 * Power256(n - 1)
  }

  function Unsigned(bytes: Bytes): nat {
    if |bytes| == 0 then 0 else Unsigned(bytes[..|bytes| - 1]) * 256 + bytes[|bytes| - 1]
  }

  /** Big-endian two's complement. */
  function Signed(bytes: Bytes): int {
    if |bytes| > 0 && bytes[0] >= 128 then Unsigned(bytes) - Power256(|bytes|) else Unsigned(bytes)
  }

  function IntegerOf(code: char, bytes: Bytes): Option<int>
    requires |bytes| > 0
  {
    if code == 'B' then Some(bytes[0])
    else if Integral(code) then Some(Signed(bytes))
    else None
  }

  lemma {:induction false} UnsignedBounds(bytes: Bytes)
    ensures Unsigned(bytes) < Power256(|bytes|)
  {
    if |bytes| > 0 {
      UnsignedBounds(bytes[..|bytes| - 1]);
    }
  }

  /** The first byte decides the part of the range a number lies in. */
  lemma {:induction false} LeadingByte(bytes: Bytes, first: int)
    requires |bytes| > 0 && bytes[0] == first
    ensures first * Power256(|bytes| - 1) <= Unsigned(bytes) < (first + 1) * Power256(|bytes| - 1)
  {
    if |bytes| > 1 {
      LeadingByte(bytes[..|bytes| - 1], first);
      Regroup(first, Power256(|bytes| - 2));
      Regroup(first + 1, Power256(|bytes| - 2));
    } else {
      assert bytes[..0] == [];
    }
  }

  lemma Regroup(a: int, p: int)
    ensures a * (256 * p) == a * p * 256
  {
  }

  /** A signed number of n bytes lies between -2^(8n-1) and 2^(8n-1) - 1. */
  lemma SignedInRange(bytes: Bytes)
    requires |bytes| > 0
    ensures -128 * Power256(|bytes| - 1) <= Signed(bytes) < 128 * Power256(|bytes| - 1)
  {
    var p := Power256(|bytes| - 1);
    var first: int := bytes[0];
    LeadingByte(bytes, first);
    UnsignedBounds(bytes);
    AtLeast(128, first, p);
    AtLeast(first + 1, 128, p);
  }

  lemma AtLeast(a: int, b: int, p: nat)
    ensures a <= b ==> a * p <= b * p
  {
    if a <= b {
      NonNegative(b - a, p);
      assert b * p == a * p + (b - a) * p;
    }
  }

  lemma {:induction false} UnsignedIsExact(a: Bytes, b: Bytes)
    requires |a| == |b| && Unsigned(a) == Unsigned(b)
    ensures a == b
  {
    if |a| > 0 {
      var n := |a| - 1;
      assert a[n] == b[n] && Unsigned(a[..n]) == Unsigned(b[..n]);
      UnsignedIsExact(a[..n], b[..n]);
      assert a == a[..n] + [a[n]] && b == b[..n] + [b[n]];
    }
  }

  /** No two byte patterns of one width stand for the same number. */
  lemma SignedIsExact(a: Bytes, b: Bytes)
    requires |a| == |b| && Signed(a) == Signed(b)
    ensures a == b
  {
    UnsignedBounds(a);
    UnsignedBounds(b);
    UnsignedIsExact(a, b);
  }

  function Digits(n: nat): (r: Bytes)
    ensures |r| >= 1 && forall k | 0 <= k < |r| :: 48 <= r[k] <= 57
  {
    if n < 10 then [48 + n] else Digits(n / 10) + [48 + n % 10]
  }

  function IntegerText(i: int): Bytes {
    if i < 0 then [45] + Digits(-i) else Digits(i)
  }

  function DigitsValue(s: Bytes): int {
    if |s| == 0 then 0 else DigitsValue(s[..|s| - 1]) * 10 + s[|s| - 1] - 48
  }

  /** Reads decimal text back. */
  function TextInteger(s: Bytes): int {
    if |s| > 0 && s[0] == 45 then -DigitsValue(s[1..]) else DigitsValue(s)
  }

  lemma {:induction false} DigitsRead(n: nat)
    ensures DigitsValue(Digits(n)) == n
  {
    var s := Digits(n);
    if n < 10 {
      assert s[..0] == [];
    } else {
      DigitsRead(n / 10);
      assert s[..|s| - 1] == Digits(n / 10);
    }
  }

  /** Decimal text of an integer of any size reads back as that integer. */
  lemma IntegerTextReads(i: int)
    ensures TextInteger(IntegerText(i)) == i
  {
    if i < 0 {
      DigitsRead(-i);
      assert IntegerText(i)[1..] == Digits(-i);
    } else {
      DigitsRead(i);
    }
  }

  // ---- cells ------------------------------------------------------------------------------

  predicate Ascii(bytes: Bytes) {
    forall k | 0 <= k < |bytes| :: 0 < bytes[k] < 128
  }

  function TrimEnd(bytes: Bytes): (r: Bytes)
    ensures |r| <= |bytes|
  {
    if |bytes| > 0 && bytes[|bytes| - 1] == BLANK then TrimEnd(bytes[..|bytes| - 1]) else bytes
  }

  function LogicalOf(byte: Byte): Res<Value> {
    if byte == 'T' as int then Ok(Logical(true))
    else if byte == 'F' as int then Ok(Logical(false))
    else if byte == 0 || byte == BLANK || byte == '?' as int then Ok(Nothing)
    else Err
  }

  /** `decode_table_value`. */
  function DecodeValue(bytes: Bytes, f: Field): Res<Value>
    requires |bytes| > 0
  {
    if f.column.code == 'L' then LogicalOf(bytes[0])
    else
      var integer := IntegerOf(f.column.code, bytes);
      if integer.Some? && integer == f.nullValue then Ok(Nothing)
      else if integer.Some? && F.Abs(integer.value) > SAFE_INTEGER then Err
      else
        match f.reading(bytes)
        case Missing => Ok(Nothing)
        case Infinite => Err
        case Finite(x) => Ok(Real(x))
  }

  /** `exact_cell`: unscaled integers never pass through floating point. */
  function ExactCell(bytes: Bytes, f: Field): Res<Item>
    requires f.column.code == 'A' || |bytes| > 0
  {
    if f.column.code == 'A' then
      if Ascii(bytes) then Ok(Text(TrimEnd(bytes))) else Err
    else
      var integer := IntegerOf(f.column.code, bytes);
      if integer.Some? && integer == f.nullValue then Ok(Null)
      else if integer.Some? && f.unscaled then Ok(Integer(integer.value))
      else if integer.Some? && F.Abs(integer.value) > SAFE_INTEGER then Err
      else
        match DecodeValue(bytes, f)
        case Err => Err
        case Ok(Real(x)) => if integer.Some? && (x > SAFE_INTEGER as real || x < -(SAFE_INTEGER as real)) then Err else Ok(Number(x))
        case Ok(Logical(b)) => Ok(Boolean(b))
        case Ok(Nothing) => Ok(Null)
  }

  /** Where a field lies in rows of `rowBytes` bytes; scalar unless text. */
  predicate Placed(f: Field, rowBytes: nat) {
    && Readable(f.column.code)
    && f.column.byteOffset + f.column.byteWidth <= rowBytes
    && (f.column.code != 'A' ==> f.column.byteWidth == f.column.elementWidth > 0)
  }

  /** `row_cell`. */
  function RowCell(row: Bytes, f: Field): Res<Item>
    requires Placed(f, |row|)
  {
    ExactCell(row[f.column.byteOffset..f.column.byteOffset + f.column.byteWidth], f)
  }

  function BooleanText(b: bool): Bytes {
    if b then [116, 114, 117, 101] else [102, 97, 108, 115, 101]
  }

  /** `cell_text`; `format` is the shortest text of a number. */
  function ItemText(item: Item, format: real -> Bytes): Bytes {
    match item
    case Integer(i) => IntegerText(i)
    case Number(x) => format(x)
    case Text(s) => s
    case Boolean(b) => BooleanText(b)
    case Null => NULL_TEXT
  }

  /** `batch_cell_text`: a genuine text equal to the null marker is refused. */
  function CellText(row: Bytes, f: Field, format: real -> Bytes): Res<Bytes>
    requires Placed(f, |row|)
  {
    var item :- RowCell(row, f);
    if item == Text(NULL_TEXT) then Err else Ok(ItemText(item, format))
  }

  // ---- what texts mean --------------------------------------------------------------------

  /** The marker in exported text always means a null cell, and a null cell is always the marker. */
  lemma MarkerMeansNull(row: Bytes, f: Field, format: real -> Bytes)
    requires Placed(f, |row|) && CellText(row, f, format).Ok?
    requires forall x :: format(x) != NULL_TEXT
    ensures CellText(row, f, format).value == NULL_TEXT <==> RowCell(row, f).value == Null
  {
    var item := RowCell(row, f).value;
    match item
    case Integer(i) =>
      var text := IntegerText(i);
      assert text[0] == 45 || 48 <= text[0] <= 57;
    case Number(_) =>
    case Text(_) =>
    case Boolean(b) => assert BooleanText(b)[0] != 92;
    case Null =>
  }

  /** Exact catalogue identifiers: two cells of an unscaled integer column that are not null have the same
      text only if they have the same bytes, however large they are. */
  lemma IdentifiersStayDistinct(a: Bytes, b: Bytes, f: Field, format: real -> Bytes)
    requires Placed(f, |a|) && |a| == |b| && Integral(f.column.code) && f.unscaled
    requires f.column.code == 'B' ==> f.column.byteWidth == 1
    requires RowCell(a, f) != Ok(Null) && RowCell(b, f) != Ok(Null)
    ensures CellText(a, f, format).Ok? && CellText(b, f, format).Ok?
    ensures var from, to := f.column.byteOffset, f.column.byteOffset + f.column.byteWidth;
      CellText(a, f, format) == CellText(b, f, format) <==> a[from..to] == b[from..to]
  {
    hide IntegerText, TextInteger, Signed;
    var from, to := f.column.byteOffset, f.column.byteOffset + f.column.byteWidth;
    var i, j := IntegerOf(f.column.code, a[from..to]).value, IntegerOf(f.column.code, b[from..to]).value;
    assert RowCell(a, f) == Ok(Integer(i)) && RowCell(b, f) == Ok(Integer(j));
    IntegerTextReads(i);
    IntegerTextReads(j);
    if i == j {
      if f.column.code == 'B' {
        assert a[from..to] == [i] && b[from..to] == [j];
      } else {
        SignedIsExact(a[from..to], b[from..to]);
      }
    }
  }

  lemma {:induction false} TrimmedEnd(bytes: Bytes)
    ensures var t := TrimEnd(bytes);
      && t <= bytes && (|t| > 0 ==> t[|t| - 1] != BLANK)
      && forall k | |t| <= k < |bytes| :: bytes[k] == BLANK
  {
    if |bytes| > 0 && bytes[|bytes| - 1] == BLANK {
      TrimmedEnd(bytes[..|bytes| - 1]);
    }
  }

  /** A text cell is accepted exactly when it is ASCII without NUL, and only its padding is removed. */
  lemma TextIsTrimmed(row: Bytes, f: Field)
    requires Placed(f, |row|) && f.column.code == 'A'
    ensures var bytes := row[f.column.byteOffset..f.column.byteOffset + f.column.byteWidth];
      && (RowCell(row, f).Ok? <==> Ascii(bytes))
      && (RowCell(row, f).Ok? ==>
            var item := RowCell(row, f).value;
            && item.Text? && item.s <= bytes && (|item.s| > 0 ==> item.s[|item.s| - 1] != BLANK)
            && forall k | |item.s| <= k < |bytes| :: bytes[k] == BLANK)
  {
    hide Ascii, TrimEnd;
    TrimmedEnd(row[f.column.byteOffset..f.column.byteOffset + f.column.byteWidth]);
  }
}
