/** Column statistics of src/fits.rs over exact reals: chunked scans with compensated sums give what one
    plain pass over the rows gives. Each scan is a method in three layers, over chunks, the rows of a chunk
    and the cells of a row, and each layer is proved against the plain pass up to its row; what the weighted
    mean of a selection means is proved of the plain pass. */
module FitsStatistics {
  import opened Prelude
  import opened Arithmetic
  import F = Fits
  import opened FitsCells
  import opened FitsRows
  import M = Matrix

  const CHUNK_BYTES: nat := 8_388_608

  /** A column of real numbers, one or more in a row. */
  predicate NumericField(f: Field, rowBytes: nat) {
    && Numeric(f.column.code) && f.column.elementWidth > 0
    && f.column.repeat * f.column.elementWidth <= f.column.byteWidth
    && f.column.byteOffset + f.column.byteWidth <= rowBytes
  }

  // ---- the plain pass ---------------------------------------------------------------------

  function Element(row: Bytes, f: Field, e: nat): (r: Bytes)
    requires NumericField(f, |row|) && e < f.column.repeat
    ensures |r| == f.column.elementWidth
  {
    ElementFits(f, e);
    var start := f.column.byteOffset + e * f.column.elementWidth;
    row[start..start + f.column.elementWidth]
  }

  lemma ElementFits(f: Field, e: nat)
    requires e < f.column.repeat
    ensures 0 <= e * f.column.elementWidth
    ensures e * f.column.elementWidth + f.column.elementWidth <= f.column.repeat * f.column.elementWidth
  {
    NonNegative(e, f.column.elementWidth);
    LessTimes(e, f.column.repeat, f.column.elementWidth);
  }

  function Numbers(v: Value): seq<real> {
    match v
    case Real(x) => [x]
    case _ => []
  }

  /** The numbers among the first `e` elements of a row. */
  function ElementsOf(row: Bytes, f: Field, e: nat): Res<seq<real>>
    requires NumericField(f, |row|) && e <= f.column.repeat
  {
    if e == 0 then Ok([])
    else
      var before :- ElementsOf(row, f, e - 1);
      var last :- DecodeValue(Element(row, f, e - 1), f);
      Ok(before + Numbers(last))
  }

  /** The numbers in the first `n` rows, nulls left out. */
  function ValuesOf(t: Table, f: Field, n: nat): Res<seq<real>>
    requires Held(t) && NumericField(f, t.hdu.rowBytes) && n <= t.hdu.rows
  {
    if n == 0 then Ok([])
    else
      var before :- ValuesOf(t, f, n - 1);
      var last :- ElementsOf(Row(t, n - 1), f, f.column.repeat);
      Ok(before + last)
  }

  predicate IsLeast(x: real, vs: seq<real>) {
    x in vs && forall v | v in vs :: x <= v
  }

  predicate IsGreatest(x: real, vs: seq<real>) {
    x in vs && forall v | v in vs :: v <= x
  }

  // ---- accumulators -----------------------------------------------------------------------

  /** What the loops carry; infinities stand for the extremes of nothing. */
  datatype Tally = Tally(sum: real, correction: real, valid: nat, minimum: Option<real>, maximum: Option<real>)

  ghost predicate Tallies(a: Tally, vs: seq<real>) {
    && a.sum == M.Sum(vs) && a.correction == 0.0 && a.valid == |vs|
    && a.minimum.Some? == a.maximum.Some? == (|vs| > 0)
    && (|vs| > 0 ==> IsLeast(a.minimum.value, vs) && IsGreatest(a.maximum.value, vs))
  }

  /** `kahan_add`. */
  method KahanAdd(sum: real, correction: real, value: real) returns (s: real, c: real)
    ensures correction == 0.0 ==> s == sum + value && c == 0.0
  {
    var adjusted := value - correction;
    var next := sum + adjusted;
    c := (next - sum) - adjusted;
    s := next;
  }

  method Count(a: Tally, value: real, ghost vs: seq<real>) returns (r: Tally)
    requires Tallies(a, vs)
    ensures Tallies(r, vs + [value])
  {
    var s, c := KahanAdd(a.sum, a.correction, value);
    var lo := if a.minimum.Some? && a.minimum.value < value then a.minimum.value else value;
    var hi := if a.maximum.Some? && a.maximum.value > value then a.maximum.value else value;
    assert (vs + [value])[..|vs|] == vs;
    r := Tally(s, c, a.valid + 1, Some(lo), Some(hi));
  }

  // ---- column_stats -----------------------------------------------------------------------

  /** One row of a chunk: each element decoded where it lies in the chunk. */
  method CountRow(t: Table, f: Field, first: nat, count: nat, chunk: Bytes, local: nat, start: Tally, ghost vs: seq<real>)
    returns (r: Res<Tally>)
    requires Held(t) && NumericField(f, t.hdu.rowBytes) && first + count <= t.hdu.rows && local < count
    requires chunk == Stretch(t, first, count) && Tallies(start, vs)
    ensures var elements := ElementsOf(Row(t, first + local), f, f.column.repeat);
      && (r.Ok? <==> elements.Ok?)
      && (r.Ok? ==> Tallies(r.value, vs + elements.value))
  {
    hide Stretch, Held, DecodeValue, Tallies, Row;
    ghost var row := Row(t, first + local);
    RowOfStretch(t, first, count, local);
    var a := start;
    assert vs + [] == vs;
    for e := 0 to f.column.repeat
      invariant ElementsOf(row, f, e).Ok? && Tallies(a, vs + ElementsOf(row, f, e).value)
    {
      ElementFits(f, e);
      var base := local * t.hdu.rowBytes;
      var at := base + f.column.byteOffset + e * f.column.elementWidth;
      var bytes := chunk[at..at + f.column.elementWidth];
      assert bytes == Element(row, f, e) by {
        assert chunk[base..base + t.hdu.rowBytes] == row;
        SubSlice(chunk, base, t.hdu.rowBytes, at - base, f.column.elementWidth);
      }
      var value := DecodeValue(bytes, f);
      ghost var before := ElementsOf(row, f, e).value;
      if value.Err? {
        NoLaterElements(row, f, e + 1, f.column.repeat);
        return Err;
      }
      match value.value {
        case Real(x) =>
          a := Count(a, x, vs + before);
          assert (vs + before) + [x] == vs + (before + [x]);
        case _ =>
          assert before + [] == before;
      }
    }
    r := Ok(a);
  }

  lemma SubSlice(s: Bytes, base: nat, width: nat, from: nat, length: nat)
    requires base + width <= |s| && from + length <= width
    ensures s[base..base + width][from..from + length] == s[base + from..base + from + length]
  {
    var a, b := s[base..base + width][from..from + length], s[base + from..base + from + length];
    assert forall i | 0 <= i < length :: a[i] == s[base + from + i] == b[i];
  }

  lemma {:induction false} NoLaterElements(row: Bytes, f: Field, e: nat, n: nat)
    requires NumericField(f, |row|) && e <= n <= f.column.repeat && ElementsOf(row, f, e).Err?
    ensures ElementsOf(row, f, n).Err?
    decreases n
  {
    if e < n {
      NoLaterElements(row, f, e, n - 1);
    }
  }

  lemma {:induction false} NoLaterRows(t: Table, f: Field, k: nat, n: nat)
    requires Held(t) && NumericField(f, t.hdu.rowBytes) && k <= n <= t.hdu.rows && ValuesOf(t, f, k).Err?
    ensures ValuesOf(t, f, n).Err?
    decreases n
  {
    if k < n {
      NoLaterRows(t, f, k, n - 1);
    }
  }

  method CountChunk(t: Table, f: Field, first: nat, count: nat, chunk: Bytes, start: Tally) returns (r: Res<Tally>)
    requires Held(t) && NumericField(f, t.hdu.rowBytes) && first + count <= t.hdu.rows
    requires chunk == Stretch(t, first, count)
    requires ValuesOf(t, f, first).Ok? && Tallies(start, ValuesOf(t, f, first).value)
    ensures r.Ok? <==> ValuesOf(t, f, first + count).Ok?
    ensures r.Ok? ==> Tallies(r.value, ValuesOf(t, f, first + count).value)
  {
    hide Stretch, Held, Tallies, Row, ElementsOf, NumericField;
    var a := start;
    for local := 0 to count
      invariant ValuesOf(t, f, first + local).Ok? && Tallies(a, ValuesOf(t, f, first + local).value)
    {
      ghost var before := ValuesOf(t, f, first + local).value;
      var step := CountRow(t, f, first, count, chunk, local, a, before);
      if step.Err? {
        NoLaterRows(t, f, first + local + 1, first + count);
        return Err;
      }
      a := step.value;
    }
    r := Ok(a);
  }

  /** Rows in a chunk: as many as 8 MiB hold, and at least one. */
  function RowsPerChunk(rowBytes: nat): (r: nat)
    ensures r >= 1
  {
    var n: nat := CHUNK_BYTES / (if rowBytes > 1 then rowBytes else 1);
    if n > 1 then n else 1
  }

  datatype ColumnStats = ColumnStats(validCount: nat, mean: real, minimum: real, maximum: real)

  /** `column_stats`: refused exactly when the unit is no plain binary table, a cell cannot be decoded or there is no number at all; otherwise
      the count, mean, least and greatest of the numbers of the plain pass. */
  method ColumnStatistics(t: Table, f: Field) returns (r: Res<ColumnStats>)
    requires Held(t) && NumericField(f, t.hdu.rowBytes)
    ensures var vs := ValuesOf(t, f, t.hdu.rows);
      && (r.Ok? <==> F.PlainTable(t.hdu) && vs.Ok? && |vs.value| > 0)
      && (r.Ok? ==>
            && r.value.validCount == |vs.value| && r.value.mean == M.Sum(vs.value) / |vs.value| as real
            && IsLeast(r.value.minimum, vs.value) && IsGreatest(r.value.maximum, vs.value))
  {
    hide Stretch, Held, Row, ElementsOf, NumericField;
    if !F.PlainTable(t.hdu) {
      return Err;
    }
    var rows := t.hdu.rows;
    var a := Tally(0.0, 0.0, 0, None, None);
    var firstRow := 0;
    while firstRow < rows
      invariant firstRow <= rows
      invariant ValuesOf(t, f, firstRow).Ok? && Tallies(a, ValuesOf(t, f, firstRow).value)
      decreases rows - firstRow
    {
      var chunkRows := if rows - firstRow < RowsPerChunk(t.hdu.rowBytes) then rows - firstRow else RowsPerChunk(t.hdu.rowBytes);
      StretchIsRead(t, firstRow, chunkRows);
      var chunk := Read(t.file, t.hdu.dataOffset + firstRow * t.hdu.rowBytes, chunkRows * t.hdu.rowBytes);
      var step := CountChunk(t, f, firstRow, chunkRows, chunk.value, a);
      if step.Err? {
        NoLaterRows(t, f, firstRow + chunkRows, rows);
        return Err;
      }
      a := step.value;
      firstRow := firstRow + chunkRows;
    }
    if a.valid == 0 {
      return Err;
    }
    r := Ok(ColumnStats(a.valid, a.sum / a.valid as real, a.minimum.value, a.maximum.value));
  }

  // ---- selected_column_stats --------------------------------------------------------------

  /** The columns and bounds of a selected mean. */
  datatype Query = Query(selection: Field, lower: real, upper: real, value: Field, weight: Option<Field>)

  predicate ScalarNumeric(f: Field, rowBytes: nat) {
    NumericField(f, rowBytes) && f.column.repeat == 1
  }

  predicate Asked(q: Query, rowBytes: nat) {
    && ScalarNumeric(q.selection, rowBytes) && ScalarNumeric(q.value, rowBytes)
    && (q.weight.Some? ==> ScalarNumeric(q.weight.value, rowBytes))
  }

  /** `numeric_row_value`. */
  function NumberOf(row: Bytes, f: Field): Res<Option<real>>
    requires ScalarNumeric(f, |row|)
  {
    var value :- DecodeValue(row[f.column.byteOffset..f.column.byteOffset + f.column.elementWidth], f);
    match value
    case Real(x) => Ok(Some(x))
    case _ => Ok(None)
  }

  /** Whether the row is selected: its number lies in the half-open interval. */
  predicate InRange(row: Bytes, q: Query)
    requires Asked(q, |row|)
  {
    match NumberOf(row, q.selection)
    case Ok(Some(x)) => q.lower <= x < q.upper
    case _ => false
  }

  function WeightOf(row: Bytes, q: Query): Res<Option<real>>
    requires Asked(q, |row|)
  {
    if q.weight.Some? then NumberOf(row, q.weight.value) else Ok(Some(1.0))
  }

  /** A row that stops the scan: a cell that cannot be decoded, or a selected row whose weight is not positive. */
  predicate Stops(row: Bytes, q: Query)
    requires Asked(q, |row|)
  {
    || NumberOf(row, q.selection).Err?
    || (InRange(row, q)
        && (WeightOf(row, q).Err? || NumberOf(row, q.value).Err?
            || (WeightOf(row, q).value.Some? && WeightOf(row, q).value.value <= 0.0)))
  }

  /** The weight and value a selected row with both contributes. */
  function Contribution(row: Bytes, q: Query): seq<(real, real)>
    requires Asked(q, |row|)
  {
    if InRange(row, q) && WeightOf(row, q).Ok? && WeightOf(row, q).value.Some? && NumberOf(row, q.value).Ok? && NumberOf(row, q.value).value.Some?
    then [(WeightOf(row, q).value.value, NumberOf(row, q.value).value.value)]
    else []
  }

  function Contributions(t: Table, q: Query, n: nat): seq<(real, real)>
    requires Held(t) && Asked(q, t.hdu.rowBytes) && n <= t.hdu.rows
  {
    if n == 0 then [] else Contributions(t, q, n - 1) + Contribution(Row(t, n - 1), q)
  }

  ghost function RowsInRange(t: Table, q: Query, n: nat): set<nat>
    requires Held(t) && Asked(q, t.hdu.rowBytes) && n <= t.hdu.rows
  {
    set k: nat | k < n && InRange(Row(t, k), q)
  }

  predicate NoneStops(t: Table, q: Query, n: nat)
    requires Held(t) && Asked(q, t.hdu.rowBytes) && n <= t.hdu.rows
  {
    forall k: nat | k < n :: !Stops(Row(t, k), q)
  }

  function Weights(cs: seq<(real, real)>): real {
    if |cs| == 0 then 0.0 else Weights(cs[..|cs| - 1]) + cs[|cs| - 1].0
  }

  function Weighted(cs: seq<(real, real)>): real {
    if |cs| == 0 then 0.0 else Weighted(cs[..|cs| - 1]) + cs[|cs| - 1].0 * cs[|cs| - 1].1
  }

  datatype Selected = Selected(rows: nat, used: nat, weightSum: real, weightCorrection: real, weightedSum: real, weightedCorrection: real)

  ghost predicate SelectedSoFar(a: Selected, t: Table, q: Query, n: nat)
    requires Held(t) && Asked(q, t.hdu.rowBytes) && n <= t.hdu.rows
  {
    && a.rows == |RowsInRange(t, q, n)| && a.used == |Contributions(t, q, n)|
    && a.weightSum == Weights(Contributions(t, q, n)) && a.weightCorrection == 0.0
    && a.weightedSum == Weighted(Contributions(t, q, n)) && a.weightedCorrection == 0.0
  }

  method SelectRow(q: Query, row: Bytes, start: Selected) returns (r: Res<Selected>)
    requires Asked(q, |row|) && start.weightCorrection == 0.0 && start.weightedCorrection == 0.0
    ensures r.Ok? <==> !Stops(row, q)
    ensures r.Ok? ==>
      && r.value.rows == start.rows + (if InRange(row, q) then 1 else 0)
      && r.value.used == start.used + |Contribution(row, q)|
      && r.value.weightSum == start.weightSum + Weights(Contribution(row, q)) && r.value.weightCorrection == 0.0
      && r.value.weightedSum == start.weightedSum + Weighted(Contribution(row, q)) && r.value.weightedCorrection == 0.0
  {
    hide NumberOf, ScalarNumeric;
    var selected := NumberOf(row, q.selection);
    if selected.Err? {
      return Err;
    }
    if selected.value.None? || selected.value.value < q.lower || selected.value.value >= q.upper {
      return Ok(start);
    }
    var a := start.(rows := start.rows + 1);
    var rowWeight := WeightOf(row, q);
    if rowWeight.Err? || (rowWeight.value.Some? && rowWeight.value.value <= 0.0) {
      return Err;
    }
    var rowValue := NumberOf(row, q.value);
    if rowValue.Err? {
      return Err;
    }
    if rowWeight.value.None? || rowValue.value.None? {
      return Ok(a);
    }
    var contribution := rowWeight.value.value * rowValue.value.value;
    var s, c := KahanAdd(a.weightSum, a.weightCorrection, rowWeight.value.value);
    var ws, wc := KahanAdd(a.weightedSum, a.weightedCorrection, contribution);
    r := Ok(Selected(a.rows, a.used + 1, s, c, ws, wc));
  }

  lemma SelectionGrows(t: Table, q: Query, n: nat)
    requires Held(t) && Asked(q, t.hdu.rowBytes) && n < t.hdu.rows
    ensures |RowsInRange(t, q, n + 1)| == |RowsInRange(t, q, n)| + if InRange(Row(t, n), q) then 1 else 0
    ensures Weights(Contributions(t, q, n + 1)) == Weights(Contributions(t, q, n)) + Weights(Contribution(Row(t, n), q))
    ensures Weighted(Contributions(t, q, n + 1)) == Weighted(Contributions(t, q, n)) + Weighted(Contribution(Row(t, n), q))
    ensures NoneStops(t, q, n + 1) <==> NoneStops(t, q, n) && !Stops(Row(t, n), q)
  {
    hide InRange, Row, Asked, Held, Stops, Contribution;
    assert RowsInRange(t, q, n + 1) == RowsInRange(t, q, n) + if InRange(Row(t, n), q) then {n} else {};
    AtMostOne(Row(t, n), q);
    Appended(Contributions(t, q, n), Contribution(Row(t, n), q));
  }

  lemma AtMostOne(row: Bytes, q: Query)
    requires Asked(q, |row|)
    ensures |Contribution(row, q)| <= 1
  {
  }

  lemma Appended(before: seq<(real, real)>, added: seq<(real, real)>)
    requires |added| <= 1
    ensures Weights(before + added) == Weights(before) + Weights(added)
    ensures Weighted(before + added) == Weighted(before) + Weighted(added)
  {
    if |added| == 1 {
      assert (before + added)[..|before|] == before && added[..0] == [];
    } else {
      assert before + added == before;
    }
  }

  method SelectChunk(t: Table, q: Query, first: nat, count: nat, chunk: Bytes, start: Selected) returns (r: Res<Selected>)
    requires Held(t) && Asked(q, t.hdu.rowBytes) && first + count <= t.hdu.rows && chunk == Stretch(t, first, count)
    requires NoneStops(t, q, first) && SelectedSoFar(start, t, q, first)
    ensures r.Ok? <==> NoneStops(t, q, first + count)
    ensures r.Ok? ==> SelectedSoFar(r.value, t, q, first + count)
  {
    hide Stretch, Held, Row, Asked, Stops, InRange, Contribution, RowsInRange, Weights, Weighted;
    var a := start;
    for local := 0 to count
      invariant NoneStops(t, q, first + local) && SelectedSoFar(a, t, q, first + local)
    {
      RowOfStretch(t, first, count, local);
      SelectionGrows(t, q, first + local);
      var step := SelectRow(q, chunk[local * t.hdu.rowBytes..local * t.hdu.rowBytes + t.hdu.rowBytes], a);
      if step.Err? {
        return Err;
      }
      a := step.value;
    }
    r := Ok(a);
  }

  datatype SelectedStats = SelectedStats(selectedRows: nat, usedRows: nat, weightSum: real, mean: real)

  /** `selected_column_stats`: refused exactly for an empty interval, a unit that is no plain binary table, an
      unsuitable row width, a row that stops the scan, or no row to use; otherwise the weighted mean of the plain pass. */
  method SelectedStatistics(t: Table, q: Query) returns (r: Res<SelectedStats>)
    requires Held(t) && Asked(q, t.hdu.rowBytes)
    ensures r.Ok? <==> q.lower < q.upper && F.PlainTable(t.hdu) && 1 <= t.hdu.rowBytes <= CHUNK_BYTES && NoneStops(t, q, t.hdu.rows)
                       && |Contributions(t, q, t.hdu.rows)| > 0
    ensures r.Ok? ==>
      var cs := Contributions(t, q, t.hdu.rows);
      && r.value.selectedRows == |RowsInRange(t, q, t.hdu.rows)| && r.value.usedRows == |cs|
      && r.value.weightSum == Weights(cs) > 0.0 && r.value.mean == Weighted(cs) / Weights(cs)
  {
    hide Stretch, Held, Row, Asked, NoneStops, Stops, InRange, Contribution, Weights, Weighted;
    if q.lower >= q.upper || !F.PlainTable(t.hdu) || t.hdu.rowBytes == 0 || t.hdu.rowBytes > CHUNK_BYTES {
      return Err;
    }
    var rows, width := t.hdu.rows, t.hdu.rowBytes;
    var a := Selected(0, 0, 0.0, 0.0, 0.0, 0.0);
    NothingSelected(t, q);
    var firstRow := 0;
    while firstRow < rows
      invariant firstRow <= rows && NoneStops(t, q, firstRow) && SelectedSoFar(a, t, q, firstRow)
      decreases rows - firstRow
    {
      var chunkRows := if rows - firstRow < RowsPerChunk(width) then rows - firstRow else RowsPerChunk(width);
      StretchIsRead(t, firstRow, chunkRows);
      var chunk := Read(t.file, t.hdu.dataOffset + firstRow * width, chunkRows * width);
      var step := SelectChunk(t, q, firstRow, chunkRows, chunk.value, a);
      if step.Err? {
        StopsLater(t, q, firstRow + chunkRows);
        return Err;
      }
      a := step.value;
      firstRow := firstRow + chunkRows;
    }
    if a.used == 0 {
      return Err;
    }
    WeightsArePositive(t, q, rows);
    r := Ok(SelectedStats(a.rows, a.used, a.weightSum, a.weightedSum / a.weightSum));
  }

  lemma NothingSelected(t: Table, q: Query)
    requires Held(t) && Asked(q, t.hdu.rowBytes)
    ensures NoneStops(t, q, 0) && SelectedSoFar(Selected(0, 0, 0.0, 0.0, 0.0, 0.0), t, q, 0)
  {
    hide Asked, InRange, Stops, Row;
    assert RowsInRange(t, q, 0) == {};
  }

  lemma StopsLater(t: Table, q: Query, n: nat)
    requires Held(t) && Asked(q, t.hdu.rowBytes) && n <= t.hdu.rows && !NoneStops(t, q, n)
    ensures !NoneStops(t, q, t.hdu.rows)
  {
    hide Stops, Asked;
  }

  predicate Positive(cs: seq<(real, real)>) {
    forall i | 0 <= i < |cs| :: cs[i].0 > 0.0
  }

  lemma {:induction false} PositiveWeights(t: Table, q: Query, n: nat)
    requires Held(t) && Asked(q, t.hdu.rowBytes) && n <= t.hdu.rows && NoneStops(t, q, n)
    ensures Positive(Contributions(t, q, n))
  {
    hide InRange, Row, Asked, NumberOf, WeightOf;
    if n > 0 {
      PositiveWeights(t, q, n - 1);
      assert !Stops(Row(t, n - 1), q);
    }
  }

  lemma {:induction false} PositiveSum(cs: seq<(real, real)>)
    requires Positive(cs)
    ensures Weights(cs) >= 0.0 && (|cs| > 0 ==> Weights(cs) > 0.0)
  {
    if |cs| > 0 {
      PositiveSum(cs[..|cs| - 1]);
    }
  }

  lemma WeightsArePositive(t: Table, q: Query, n: nat)
    requires Held(t) && Asked(q, t.hdu.rowBytes) && n <= t.hdu.rows && NoneStops(t, q, n)
    ensures |Contributions(t, q, n)| > 0 ==> Weights(Contributions(t, q, n)) > 0.0
  {
    hide Asked, Held, NoneStops, Contributions;
    PositiveWeights(t, q, n);
    PositiveSum(Contributions(t, q, n));
  }

  // ---- what the mean is -------------------------------------------------------------------

  predicate Within(cs: seq<(real, real)>, low: real, high: real) {
    forall i | 0 <= i < |cs| :: low <= cs[i].1 <= high
  }

  lemma {:induction false} WeightedWithin(cs: seq<(real, real)>, low: real, high: real)
    requires Positive(cs) && Within(cs, low, high)
    ensures low * Weights(cs) <= Weighted(cs) <= high * Weights(cs)
  {
    if |cs| > 0 {
      var n := |cs| - 1;
      WeightedWithin(cs[..n], low, high);
      AddTerm(low, Weights(cs[..n]), Weighted(cs[..n]), high, cs[n].0, cs[n].1);
    }
  }

  lemma AddTerm(low: real, weights: real, weighted: real, high: real, w: real, v: real)
    requires w >= 0.0 && low <= v <= high && low * weights <= weighted <= high * weights
    ensures low * (weights + w) <= weighted + w * v <= high * (weights + w)
  {
    Scaled(w, low, v);
    Scaled(w, v, high);
    Distributes(low, weights, w);
    Distributes(high, weights, w);
  }

  lemma Distributes(x: real, a: real, b: real)
    ensures x * (a + b) == x * a + x * b
  {
  }

  lemma Scaled(w: real, a: real, b: real)
    requires w >= 0.0
    ensures a <= b ==> a * w <= b * w
    ensures a < b && w > 0.0 ==> a * w < b * w
  {
    if a <= b {
      assert b * w == a * w + (b - a) * w;
    }
  }

  /** With its positive weights, the selected mean lies between any bounds on the values it averages. */
  lemma SelectedMeanIsBetween(t: Table, q: Query, low: real, high: real)
    requires Held(t) && Asked(q, t.hdu.rowBytes) && NoneStops(t, q, t.hdu.rows)
    requires |Contributions(t, q, t.hdu.rows)| > 0 && Within(Contributions(t, q, t.hdu.rows), low, high)
    ensures var cs := Contributions(t, q, t.hdu.rows);
      Weights(cs) > 0.0 && low <= Weighted(cs) / Weights(cs) <= high
  {
    hide Asked, Held, NoneStops, Contributions;
    var cs := Contributions(t, q, t.hdu.rows);
    PositiveWeights(t, q, t.hdu.rows);
    PositiveSum(cs);
    WeightedWithin(cs, low, high);
    Quotient(Weighted(cs), Weights(cs), low, high);
  }

  lemma Quotient(x: real, w: real, low: real, high: real)
    requires w > 0.0 && low * w <= x <= high * w
    ensures low <= x / w <= high
  {
    var m := x / w;
    assert m * w == x;
    Scaled(w, m, low);
    Scaled(w, high, m);
  }
}
