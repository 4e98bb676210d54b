/** `export_subset` of src/fits_selection.rs: the selected rows of a table, read in chunks, written as CSV or
    TSV with exact counts of rows and nulls. */
module FitsExport {
  import opened Prelude
  import opened Arithmetic
  import F = Fits
  import D = Delimited
  import opened FitsCells
  import opened FitsRows
  import opened FitsFilter
  import T = TabText
  import R = DelimitedRoundTrip

  const MAX_CHUNK_BYTES: nat := 8_388_608
  const MAX_OUTPUT_BYTES: nat := 67_108_864
  const MAX_PROJECTION: nat := 1024

  /** What is exported from where. */
  datatype Job = Job(t: Table, columns: seq<Field>, bound: Bound, format: real -> Bytes, tsv: bool)

  predicate Runnable(j: Job) {
    && Held(j.t) && 1 <= j.t.hdu.rowBytes <= MAX_CHUNK_BYTES
    && AllPlaced(j.columns, j.t.hdu.rowBytes) && LeavesPlaced(Leaves(j.bound), j.t.hdu.rowBytes)
  }

  // ---- the unchunked meaning --------------------------------------------------------------

  predicate Fails(j: Job, k: nat)
    requires Runnable(j) && k < j.t.hdu.rows
  {
    AnyFails(Leaves(j.bound), Row(j.t, k))
  }

  predicate Picked(j: Job, k: nat)
    requires Runnable(j) && k < j.t.hdu.rows
  {
    Selects(j.bound, Row(j.t, k))
  }

  predicate MeetsNull(j: Job, k: nat)
    requires Runnable(j) && k < j.t.hdu.rows
  {
    AnyNull(Leaves(j.bound), Row(j.t, k))
  }

  predicate ShowsNull(j: Job, k: nat, c: nat)
    requires Runnable(j) && k < j.t.hdu.rows && c < |j.columns|
  {
    Picked(j, k) && RowCell(Row(j.t, k), j.columns[c]) == Ok(Null)
  }

  function TextsOf(j: Job, k: nat): Res<seq<Bytes>>
    requires Runnable(j) && k < j.t.hdu.rows
  {
    Texts(Row(j.t, k), j.columns, j.format)
  }

  predicate Writable(row: seq<Bytes>, tsv: bool) {
    tsv ==> T.Unbroken(row)
  }

  /** A row that stops no export: the filter has an answer, and if it selects the row, every cell has a text. */
  predicate Passes(j: Job, k: nat)
    requires Runnable(j) && k < j.t.hdu.rows
  {
    !Fails(j, k) && (Picked(j, k) ==> TextsOf(j, k).Ok? && Writable(TextsOf(j, k).value, j.tsv))
  }

  /** The selected rows among the first `n`. */
  function Kept(j: Job, n: nat): (r: seq<nat>)
    requires Runnable(j) && n <= j.t.hdu.rows
    ensures forall i | 0 <= i < |r| :: r[i] < n
  {
    if n == 0 then [] else Kept(j, n - 1) + if Picked(j, n - 1) then [n - 1] else []
  }

  /** What a row adds to the exported rows. */
  function Added(j: Job, k: nat): seq<seq<Bytes>>
    requires Runnable(j) && k < j.t.hdu.rows
  {
    if Picked(j, k) && TextsOf(j, k).Ok? then [TextsOf(j, k).value] else []
  }

  function KeptTexts(j: Job, n: nat): seq<seq<Bytes>>
    requires Runnable(j) && n <= j.t.hdu.rows
  {
    if n == 0 then [] else KeptTexts(j, n - 1) + Added(j, n - 1)
  }

  function Headers(columns: seq<Field>): (r: seq<Bytes>)
    ensures |r| == |columns|
  {
    seq(|columns|, i requires 0 <= i < |columns| => columns[i].name)
  }

  /** The exported rows, with the header in front. */
  function Exported(j: Job, n: nat): (r: seq<seq<Bytes>>)
    requires Runnable(j) && n <= j.t.hdu.rows
  {
    [Headers(j.columns)] + KeptTexts(j, n)
  }

  ghost function NullRows(j: Job, n: nat): set<nat>
    requires Runnable(j) && n <= j.t.hdu.rows
  {
    set k: nat | k < n && MeetsNull(j, k)
  }

  ghost function NullCells(j: Job, n: nat, c: nat): set<nat>
    requires Runnable(j) && n <= j.t.hdu.rows && c < |j.columns|
  {
    set k: nat | k < n && ShowsNull(j, k, c)
  }

  /** The file after `n` rows. */
  function FileOf(j: Job, n: nat): Bytes
    requires Runnable(j) && n <= j.t.hdu.rows
  {
    T.Lines(Exported(j, n), j.tsv)
  }

  /** What a row adds to the file. */
  function Addition(j: Job, k: nat): Bytes
    requires Runnable(j) && k < j.t.hdu.rows
  {
    if Picked(j, k) && TextsOf(j, k).Ok? then T.Line(TextsOf(j, k).value, j.tsv) else []
  }

  datatype Subset = Subset(bytes: Bytes, selected: nat, predicateNullRows: nat, nullCounts: seq<nat>)

  // ---- rows and chunks as they are read ---------------------------------------------------

  /** `write_row`: the whole row or nothing. */
  method WriteRow(bytes: Bytes, cells: seq<Bytes>, tsv: bool) returns (r: Res<Bytes>)
    requires |bytes| <= MAX_OUTPUT_BYTES
    ensures r.Ok? <==> Writable(cells, tsv) && |bytes| + |T.Line(cells, tsv)| <= MAX_OUTPUT_BYTES
    ensures r.Ok? ==> r.value == bytes + T.Line(cells, tsv)
  {
    if tsv && exists i, k :: 0 <= i < |cells| && 0 <= k < |cells[i]| && T.Breaks(cells[i][k]) {
      return Err;
    }
    var row := T.Line(cells, tsv);
    if |row| > MAX_OUTPUT_BYTES - |bytes| {
      return Err;
    }
    r := Ok(bytes + row);
  }

  /** The cells of a selected row, counting the nulls of each column. */
  method CellsOf(j: Job, k: nat, data: Bytes, nullCounts: array<nat>) returns (r: Res<seq<Bytes>>)
    requires Runnable(j) && k < j.t.hdu.rows && data == Row(j.t, k) && nullCounts.Length == |j.columns|
    modifies nullCounts
    ensures r == TextsOf(j, k)
    ensures r.Ok? ==> forall c | 0 <= c < |j.columns| ::
      nullCounts[c] == old(nullCounts[c]) + if RowCell(data, j.columns[c]) == Ok(Null) then 1 else 0
  {
    hide ExactCell, ItemText, Placed, Row, Texts, LeavesPlaced, Held;
    TextsAreCells(data, j.columns, j.format);
    var cells: seq<Bytes> := [];
    for i := 0 to |j.columns|
      invariant |cells| == i
      invariant forall c | 0 <= c < i :: CellText(data, j.columns[c], j.format) == Ok(cells[c])
      invariant forall c | 0 <= c < |j.columns| ::
        nullCounts[c] == old(nullCounts[c]) + if c < i && RowCell(data, j.columns[c]) == Ok(Null) then 1 else 0
    {
      var cell := RowCell(data, j.columns[i]);
      if cell.Err? {
        return Err;
      }
      if cell.value == Null {
        nullCounts[i] := nullCounts[i] + 1;
      }
      if cell.value == Text(NULL_TEXT) {
        return Err;
      }
      cells := cells + [ItemText(cell.value, j.format)];
    }
    assert cells == TextsOf(j, k).value;
    r := Ok(cells);
  }

  /** One row of a chunk. */
  method ExportRow(j: Job, k: nat, data: Bytes, bytes: Bytes, nullCounts: array<nat>) returns (r: Res<(Bytes, bool, bool)>)
    requires Runnable(j) && k < j.t.hdu.rows && data == Row(j.t, k)
    requires |bytes| <= MAX_OUTPUT_BYTES && nullCounts.Length == |j.columns|
    modifies nullCounts
    ensures r.Ok? <==> Passes(j, k) && |bytes| + |Addition(j, k)| <= MAX_OUTPUT_BYTES
    ensures r.Ok? ==> r.value == (bytes + Addition(j, k), Picked(j, k), MeetsNull(j, k))
    ensures r.Ok? ==> forall c | 0 <= c < |j.columns| ::
      nullCounts[c] == old(nullCounts[c]) + if ShowsNull(j, k, c) then 1 else 0
  {
    hide RowCell, Placed, Row, Texts, LeavesPlaced, Held, T.Line, Selects, AnyFails, AnyNull;
    var verdict := Evaluate(j.bound, data);
    if verdict.Err? {
      return Err;
    }
    if !verdict.value.0 {
      assert bytes + [] == bytes;
      return Ok((bytes, false, verdict.value.1));
    }
    var cells := CellsOf(j, k, data, nullCounts);
    if cells.Err? {
      return Err;
    }
    var written := WriteRow(bytes, cells.value, j.tsv);
    if written.Err? {
      return Err;
    }
    r := Ok((written.value, true, verdict.value.1));
  }

  lemma FileGrows(j: Job, n: nat)
    requires Runnable(j) && n < j.t.hdu.rows
    ensures FileOf(j, n + 1) == FileOf(j, n) + Addition(j, n)
  {
    hide Runnable, TextsOf, T.Line, Picked;
    var before, added := Exported(j, n), Added(j, n);
    assert Exported(j, n + 1) == before + added;
    if |added| == 1 {
      assert (before + added)[..|before|] == before;
    } else {
      assert before + added == before && FileOf(j, n) + [] == FileOf(j, n);
    }
  }

  lemma {:induction false} FileOnlyGrows(j: Job, n: nat, m: nat)
    requires Runnable(j) && n <= m <= j.t.hdu.rows
    ensures |FileOf(j, n)| <= |FileOf(j, m)|
  {
    hide Runnable, Passes, FileOf, Addition;
    if n < m {
      FileOnlyGrows(j, n, m - 1);
      FileGrows(j, m - 1);
    }
  }

  /** The whole export of `n` rows succeeds. */
  predicate Succeeds(j: Job, n: nat)
    requires Runnable(j) && n <= j.t.hdu.rows
  {
    && Writable(Headers(j.columns), j.tsv)
    && (forall k: nat | k < n :: Passes(j, k))
    && |FileOf(j, n)| <= MAX_OUTPUT_BYTES
  }

  lemma SucceedsMore(j: Job, n: nat)
    requires Runnable(j) && n < j.t.hdu.rows && Succeeds(j, n)
    ensures Succeeds(j, n + 1) <==> Passes(j, n) && |FileOf(j, n)| + |Addition(j, n)| <= MAX_OUTPUT_BYTES
  {
    hide Runnable, Passes, FileOf, Addition;
    FileGrows(j, n);
  }

  lemma SucceedsBefore(j: Job, n: nat, m: nat)
    requires Runnable(j) && n <= m <= j.t.hdu.rows && Succeeds(j, m)
    ensures Succeeds(j, n)
  {
    hide Runnable, Passes, FileOf;
    FileOnlyGrows(j, n, m);
  }

  /** The counters after `n` rows. */
  ghost predicate Counted(j: Job, n: nat, selected: nat, nullRows: nat, nullCounts: seq<nat>)
    requires Runnable(j) && n <= j.t.hdu.rows
  {
    && selected == |Kept(j, n)| && nullRows == |NullRows(j, n)| && |nullCounts| == |j.columns|
    && forall c | 0 <= c < |j.columns| :: nullCounts[c] == |NullCells(j, n, c)|
  }

  lemma CountsMore(j: Job, n: nat, selected: nat, nullRows: nat, before: seq<nat>, after: seq<nat>)
    requires Runnable(j) && n < j.t.hdu.rows && Counted(j, n, selected, nullRows, before) && |after| == |before|
    requires forall c | 0 <= c < |j.columns| :: after[c] == before[c] + if ShowsNull(j, n, c) then 1 else 0
    ensures Counted(j, n + 1, selected + (if Picked(j, n) then 1 else 0), nullRows + (if MeetsNull(j, n) then 1 else 0), after)
  {
    hide Runnable, Picked, MeetsNull, ShowsNull, Kept, NullRows, NullCells;
    KeptMore(j, n);
    NullRowsMore(j, n);
    forall c | 0 <= c < |j.columns|
      ensures after[c] == |NullCells(j, n + 1, c)|
    {
      NullCellsMore(j, n, c);
    }
  }

  lemma KeptMore(j: Job, n: nat)
    requires Runnable(j) && n < j.t.hdu.rows
    ensures |Kept(j, n + 1)| == |Kept(j, n)| + if Picked(j, n) then 1 else 0
  {
    hide Runnable, Picked;
  }

  lemma NullRowsMore(j: Job, n: nat)
    requires Runnable(j) && n < j.t.hdu.rows
    ensures |NullRows(j, n + 1)| == |NullRows(j, n)| + if MeetsNull(j, n) then 1 else 0
  {
    hide Runnable, MeetsNull;
    assert NullRows(j, n + 1) == NullRows(j, n) + if MeetsNull(j, n) then {n} else {};
  }

  lemma NullCellsMore(j: Job, n: nat, c: nat)
    requires Runnable(j) && n < j.t.hdu.rows && c < |j.columns|
    ensures |NullCells(j, n + 1, c)| == |NullCells(j, n, c)| + if ShowsNull(j, n, c) then 1 else 0
  {
    hide Runnable, ShowsNull;
    assert NullCells(j, n + 1, c) == NullCells(j, n, c) + if ShowsNull(j, n, c) then {n} else {};
  }

  // ---- the export -------------------------------------------------------------------------

  /** Bytes and counters after `n` rows. */
  ghost predicate Done(j: Job, n: nat, s: Subset)
    requires Runnable(j) && n <= j.t.hdu.rows
  {
    Succeeds(j, n) && s.bytes == FileOf(j, n) && Counted(j, n, s.selected, s.predicateNullRows, s.nullCounts)
  }

  /** The rows of one chunk. */
  method ExportChunk(j: Job, first: nat, count: nat, chunk: Bytes, bytes: Bytes, selected: nat, nullRows: nat,
                     nullCounts: array<nat>) returns (r: Res<(Bytes, nat, nat)>)
    requires Runnable(j) && first + count <= j.t.hdu.rows && chunk == Stretch(j.t, first, count)
    requires Done(j, first, Subset(bytes, selected, nullRows, nullCounts[..]))
    modifies nullCounts
    ensures r.Ok? <==> Succeeds(j, first + count)
    ensures r.Ok? ==> Done(j, first + count, Subset(r.value.0, r.value.1, r.value.2, nullCounts[..]))
  {
    hide Runnable, Stretch, Row, Succeeds, Counted, FileOf, Passes, Addition, Picked, MeetsNull, ShowsNull;
    ChunkHoldsARow(j);
    var soFar, kept, missing := bytes, selected, nullRows;
    for local := 0 to count
      invariant Done(j, first + local, Subset(soFar, kept, missing, nullCounts[..]))
    {
      var row := first + local;
      RowOfStretch(j.t, first, count, local);
      var data := chunk[local * j.t.hdu.rowBytes..local * j.t.hdu.rowBytes + j.t.hdu.rowBytes];
      SizeSoFar(j, row);
      SucceedsMore(j, row);
      ghost var before := nullCounts[..];
      CountersHold(j, row, Subset(soFar, kept, missing, before));
      var step := ExportRow(j, row, data, soFar, nullCounts);
      if step.Err? {
        if Succeeds(j, first + count) {
          SucceedsBefore(j, row + 1, first + count);
        }
        return Err;
      }
      CountsMore(j, row, kept, missing, before, nullCounts[..]);
      FileGrows(j, row);
      soFar := step.value.0;
      kept := kept + if step.value.1 then 1 else 0;
      missing := missing + if step.value.2 then 1 else 0;
    }
    r := Ok((soFar, kept, missing));
  }

  lemma SizeSoFar(j: Job, n: nat)
    requires Runnable(j) && n <= j.t.hdu.rows && Succeeds(j, n)
    ensures |FileOf(j, n)| <= MAX_OUTPUT_BYTES
  {
  }

  lemma CountersHold(j: Job, n: nat, s: Subset)
    requires Runnable(j) && n <= j.t.hdu.rows && Done(j, n, s)
    ensures |s.nullCounts| == |j.columns|
  {
  }

  lemma NothingDone(j: Job)
    requires Runnable(j)
    ensures FileOf(j, 0) == T.Line(Headers(j.columns), j.tsv)
    ensures Succeeds(j, 0) <==> Writable(Headers(j.columns), j.tsv) && |T.Line(Headers(j.columns), j.tsv)| <= MAX_OUTPUT_BYTES
    ensures Counted(j, 0, 0, 0, seq(|j.columns|, c => 0))
  {
    hide T.Line, Runnable;
    var only := [Headers(j.columns)];
    assert Exported(j, 0) == only && only[..0] == [];
    assert T.Lines([], j.tsv) == [] && [] + T.Line(only[0], j.tsv) == T.Line(only[0], j.tsv);
    assert NullRows(j, 0) == {};
    assert forall c | 0 <= c < |j.columns| :: NullCells(j, 0, c) == {};
  }

  /** The scan of `export_subset`: chunks of whole rows within 8 MiB. It succeeds exactly when the header can be
      written, no row fails and the whole file keeps within 64 MiB; the file and the counts are then those
      of the plain traversal, one row at a time. */
  method ExportRows(j: Job) returns (r: Res<Subset>)
    requires Runnable(j)
    ensures r.Ok? <==> Succeeds(j, j.t.hdu.rows)
    ensures r.Ok? ==> Done(j, j.t.hdu.rows, r.value)
  {
    hide Runnable, Stretch, Row, Succeeds, Counted, FileOf;
    var rows, width := j.t.hdu.rows, j.t.hdu.rowBytes;
    ChunkHoldsARow(j);
    NothingDone(j);
    var header := WriteRow([], Headers(j.columns), j.tsv);
    if header.Err? {
      if Succeeds(j, rows) {
        SucceedsBefore(j, 0, rows);
      }
      return Err;
    }
    var bytes, selected, missing, first := header.value, 0, 0, 0;
    var nullCounts := new nat[|j.columns|](_ => 0);
    assert nullCounts[..] == seq(|j.columns|, c => 0);
    assert [] + T.Line(Headers(j.columns), j.tsv) == T.Line(Headers(j.columns), j.tsv);
    while first < rows
      invariant first <= rows
      invariant Done(j, first, Subset(bytes, selected, missing, nullCounts[..]))
      decreases rows - first
    {
      var perChunk: nat := MAX_CHUNK_BYTES / width;
      var count := if rows - first < perChunk then rows - first else perChunk;
      StretchIsRead(j.t, first, count);
      var chunk := Read(j.t.file, j.t.hdu.dataOffset + first * width, count * width);
      var step := ExportChunk(j, first, count, chunk.value, bytes, selected, missing, nullCounts);
      if step.Err? {
        if Succeeds(j, rows) {
          SucceedsBefore(j, first + count, rows);
        }
        return Err;
      }
      bytes, selected, missing := step.value.0, step.value.1, step.value.2;
      first := first + count;
    }
    r := Ok(Subset(bytes, selected, missing, nullCounts[..]));
  }

  lemma ChunkHoldsARow(j: Job)
    requires Runnable(j)
    ensures Held(j.t) && j.t.hdu.rowBytes > 0 && MAX_CHUNK_BYTES / j.t.hdu.rowBytes >= 1
  {
    var w := j.t.hdu.rowBytes;
    assert MAX_CHUNK_BYTES == MAX_CHUNK_BYTES / w * w + MAX_CHUNK_BYTES % w;
  }

  // ---- from names to a job ----------------------------------------------------------------

  /** The projected columns, by case-insensitive name. */
  function Projection(fields: seq<Field>, names: seq<Bytes>): (r: Option<seq<Field>>)
    ensures r.Some? ==> |r.value| == |names|
    ensures r.Some? ==> forall i | 0 <= i < |names| :: ScalarColumn(fields, names[i]) == Some(r.value[i])
  {
    if |names| == 0 then Some([])
    else
      var before, last := Projection(fields, names[..|names| - 1]), ScalarColumn(fields, names[|names| - 1]);
      if before.Some? && last.Some? then Some(before.value + [last.value]) else None
  }

  /** No two headers are the same up to case, and none is the null marker. */
  predicate HeadersFit(columns: seq<Field>) {
    && (forall i, k | 0 <= i < k < |columns| :: !SameName(columns[i].name, columns[k].name))
    && (forall i | 0 <= i < |columns| :: columns[i].name != NULL_TEXT)
  }

  const CSV: Bytes := [99, 115, 118]
  const TSV: Bytes := [116, 115, 118]

  /** Everything `export_subset` settles before it reads a row; `extension` is what the output name ends in, if
      it is a plain file name with an extension. */
  function Prepare(t: Table, extension: Option<Bytes>, names: seq<Bytes>, filter: Filter, tsv: bool): Option<(seq<Field>, Bound)> {
    if !(Depth(filter) <= MAX_DEPTH && Nodes(filter) <= MAX_NODES && Sound(filter)) then None
    else if extension != Some(if tsv then TSV else CSV) || !F.PlainTable(t.hdu) then None
    else if |names| == 0 || |names| > MAX_PROJECTION then None
    else
      var columns, bound := Projection(t.fields, names), Bind(filter, t.fields);
      if columns.None? || !HeadersFit(columns.value) || bound.None? then None
      else if t.hdu.rowBytes == 0 || t.hdu.rowBytes > MAX_CHUNK_BYTES then None
      else Some((columns.value, bound.value))
  }

  lemma {:induction false} BoundIsPlaced(f: Filter, t: Table)
    requires Described(t) && Bind(f, t.fields).Some?
    ensures LeavesPlaced(Leaves(Bind(f, t.fields).value), t.hdu.rowBytes)
    decreases f
  {
    hide ScalarColumn, BindOperand;
    match f
    case All(fs) => BoundArePlaced(fs, t);
    case Any(fs) => BoundArePlaced(fs, t);
    case Compare(column, _, _) => ColumnIsPlaced(t, column);
    case IsNull(column) => ColumnIsPlaced(t, column);
    case IsValid(column) => ColumnIsPlaced(t, column);
  }

  lemma {:induction false} BoundArePlaced(fs: seq<Filter>, t: Table)
    requires Described(t) && BindAll(fs, t.fields).Some?
    ensures LeavesPlaced(LeavesOf(BindAll(fs, t.fields).value), t.hdu.rowBytes)
    decreases fs
  {
    hide Bind, Leaves, Described, Placed;
    if |fs| > 0 {
      var n := |fs| - 1;
      BoundArePlaced(fs[..n], t);
      BoundIsPlaced(fs[n], t);
      var before, last := BindAll(fs[..n], t.fields).value, Bind(fs[n], t.fields).value;
      assert (before + [last])[..n] == before;
      assert LeavesOf(before + [last]) == LeavesOf(before) + Leaves(last);
    }
  }

  lemma ColumnIsPlaced(t: Table, name: Bytes)
    requires Described(t) && ScalarColumn(t.fields, name).Some?
    ensures Placed(ScalarColumn(t.fields, name).value, t.hdu.rowBytes)
  {
    hide Matching;
  }

  lemma PreparedIsRunnable(t: Table, extension: Option<Bytes>, names: seq<Bytes>, filter: Filter, format: real -> Bytes, tsv: bool)
    requires Held(t) && Described(t) && Prepare(t, extension, names, filter, tsv).Some?
    ensures Runnable(Job(t, Prepare(t, extension, names, filter, tsv).value.0, Prepare(t, extension, names, filter, tsv).value.1, format, tsv))
  {
    hide Held, Described, Bind, ScalarColumn, HeadersFit, Placed, LeavesPlaced, Leaves;
    BoundIsPlaced(filter, t);
    forall i | 0 <= i < |names|
      ensures Placed(Projection(t.fields, names).value[i], t.hdu.rowBytes)
    {
      ColumnIsPlaced(t, names[i]);
    }
  }

  /** `export_subset`. */
  method ExportSubset(t: Table, extension: Option<Bytes>, names: seq<Bytes>, filter: Filter, format: real -> Bytes, tsv: bool) returns (r: Res<Subset>)
    requires Held(t) && Described(t)
    ensures Prepare(t, extension, names, filter, tsv).None? ==> r == Err
    ensures Prepare(t, extension, names, filter, tsv).Some? ==>
      var j := Job(t, Prepare(t, extension, names, filter, tsv).value.0, Prepare(t, extension, names, filter, tsv).value.1, format, tsv);
      && Runnable(j) && (r.Ok? <==> Succeeds(j, t.hdu.rows)) && (r.Ok? ==> Done(j, t.hdu.rows, r.value))
  {
    hide Prepare, Held, Described, Runnable, Succeeds, Done;
    var prepared := Prepare(t, extension, names, filter, tsv);
    if prepared.None? {
      return Err;
    }
    PreparedIsRunnable(t, extension, names, filter, format, tsv);
    r := ExportRows(Job(t, prepared.value.0, prepared.value.1, format, tsv));
  }

  // ---- what an export is ------------------------------------------------------------------

  /** The kept rows are exactly the selected ones, each once and in the order of the table. */
  lemma {:induction false} KeptExactly(j: Job, n: nat)
    requires Runnable(j) && n <= j.t.hdu.rows
    ensures forall k: nat | k < n :: k in Kept(j, n) <==> Picked(j, k)
    ensures forall a, b | 0 <= a < b < |Kept(j, n)| :: Kept(j, n)[a] < Kept(j, n)[b]
  {
    hide Runnable, Picked;
    if n > 0 {
      KeptExactly(j, n - 1);
    }
  }

  lemma {:induction false} KeptTextsAreKept(j: Job, n: nat)
    requires Runnable(j) && n <= j.t.hdu.rows && forall k: nat | k < n :: Passes(j, k)
    ensures |KeptTexts(j, n)| == |Kept(j, n)|
    ensures forall i | 0 <= i < |Kept(j, n)| :: TextsOf(j, Kept(j, n)[i]) == Ok(KeptTexts(j, n)[i])
  {
    hide Runnable, Picked, TextsOf, Fails, Writable;
    if n > 0 {
      KeptTextsAreKept(j, n - 1);
      assert Passes(j, n - 1);
    }
  }

  /** What stands where in an export: the names of the columns first, and then, for each kept row in turn, the
      text of each column's cell. */
  lemma ExportedCells(j: Job, n: nat, i: nat, c: nat)
    requires Runnable(j) && n <= j.t.hdu.rows && (forall k: nat | k < n :: Passes(j, k)) && c < |j.columns|
    ensures |Exported(j, n)| == 1 + |Kept(j, n)| && |Exported(j, n)[0]| == |j.columns|
    ensures Exported(j, n)[0][c] == j.columns[c].name
    ensures i < |Kept(j, n)| ==>
      && |Exported(j, n)[1 + i]| == |j.columns|
      && CellText(Row(j.t, Kept(j, n)[i]), j.columns[c], j.format) == Ok(Exported(j, n)[1 + i][c])
  {
    hide CellText, Passes, Kept, KeptTexts, Texts, Row;
    KeptTextsAreKept(j, n);
    if i < |Kept(j, n)| {
      TextsAreCells(Row(j.t, Kept(j, n)[i]), j.columns, j.format);
    }
  }

  ghost function Rejected(j: Job, n: nat): set<nat>
    requires Runnable(j) && n <= j.t.hdu.rows
  {
    set k: nat | k < n && !Picked(j, k)
  }

  /** Selected and rejected rows make up the table. */
  lemma {:induction false} NothingIsDropped(j: Job, n: nat)
    requires Runnable(j) && n <= j.t.hdu.rows
    ensures |Kept(j, n)| + |Rejected(j, n)| == n
  {
    hide Runnable, Picked;
    if n > 0 {
      NothingIsDropped(j, n - 1);
      assert Rejected(j, n) == Rejected(j, n - 1) + if Picked(j, n - 1) then {} else {n - 1};
    } else {
      assert Rejected(j, n) == {};
    }
  }

  /** A CSV export is read back by the table parser as its header and its kept rows, in order, exactly when
      these are within the limits of a table. */
  lemma CsvExportReadsBack(j: Job)
    requires Runnable(j) && Succeeds(j, j.t.hdu.rows) && !j.tsv
    ensures D.Parse(FileOf(j, j.t.hdu.rows), D.COMMA) == Ok(Exported(j, j.t.hdu.rows)) <==> R.Storable(Exported(j, j.t.hdu.rows))
  {
    hide D.Parse, Runnable, Succeeds, R.Storable, Exported, T.Lines;
    T.CsvLines(Exported(j, j.t.hdu.rows));
    R.TableRoundTrip(Exported(j, j.t.hdu.rows), D.COMMA);
  }

  /** A TSV export is, exactly when besides no name or text in it holds a quotation mark. */
  lemma TsvExportReadsBack(j: Job)
    requires Runnable(j) && Succeeds(j, j.t.hdu.rows) && j.tsv
    ensures var rows := Exported(j, j.t.hdu.rows);
      D.Parse(FileOf(j, j.t.hdu.rows), D.TAB) == Ok(rows) <==> R.Storable(rows) && T.QuoteFree(rows)
  {
    hide D.Parse, R.Storable, T.Lines, T.Unbroken, T.QuoteFree, FileOf;
    UnbrokenSoFar(j, j.t.hdu.rows);
    T.TabTextReadsBack(Exported(j, j.t.hdu.rows));
    assert FileOf(j, j.t.hdu.rows) == T.Lines(Exported(j, j.t.hdu.rows), true) by {
      FileIsLines(j, j.t.hdu.rows);
    }
  }

  lemma FileIsLines(j: Job, n: nat)
    requires Runnable(j) && n <= j.t.hdu.rows
    ensures FileOf(j, n) == T.Lines(Exported(j, n), j.tsv)
  {
  }

  lemma {:induction false} UnbrokenSoFar(j: Job, n: nat)
    requires Runnable(j) && n <= j.t.hdu.rows && j.tsv && Writable(Headers(j.columns), true)
    requires forall k: nat | k < n :: Passes(j, k)
    ensures T.AllUnbroken(Exported(j, n))
  {
    hide Runnable, Picked, TextsOf, Fails, T.Unbroken;
    if n > 0 {
      UnbrokenSoFar(j, n - 1);
      assert Passes(j, n - 1);
      assert Exported(j, n) == Exported(j, n - 1) + Added(j, n - 1);
    }
  }
}
