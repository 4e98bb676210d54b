/** Serial table batches of src/batches.rs: the reader that carries a row over when a batch is full, the
    record writer, and the lifecycle that `finish` demands. A snapshot is the list of its decoded
    records; the allocator's growth is a parameter. */
module Batches {
  import opened Prelude
  import opened Arithmetic
  import opened Delimited
  import DelimitedRoundTrip

  /** A decoded cell and the capacity its string happens to hold. */
  datatype Text = Text(bytes: seq<Byte>, capacity: nat)

  type TextRow = seq<Text>

  // ---- rows -------------------------------------------------------------------------------

  predicate Selects(indices: seq<nat>, width: nat) {
    && (forall i | 0 <= i < |indices| :: indices[i] < width)
    && (forall i, j | 0 <= i < j < |indices| :: indices[i] != indices[j])
  }

  /** The requested columns of a record, in the requested order. */
  function Select(row: TextRow, indices: seq<nat>): (r: TextRow)
    requires forall i | 0 <= i < |indices| :: indices[i] < |row|
    ensures |r| == |indices|
  {
    seq(|indices|, i requires 0 <= i < |indices| => row[indices[i]])
  }

  predicate Regular(records: seq<TextRow>, width: nat) {
    forall i | 0 <= i < |records| :: |records[i]| == width
  }

  function SelectAll(records: seq<TextRow>, indices: seq<nat>, width: nat): (r: seq<TextRow>)
    requires Selects(indices, width) && Regular(records, width)
    ensures |r| == |records|
  {
    seq(|records|, i requires 0 <= i < |records| => Select(records[i], indices))
  }

  function Capacity(row: TextRow): nat {
    if |row| == 0 then 0 else row[0].capacity + Capacity(row[1..])
  }

  /** `row_cost`: the values and the capacity of their strings. */
  function Cost(row: TextRow, valueSize: nat): nat {
    |row| * valueSize + Capacity(row)
  }

  function Flatten(rows: seq<TextRow>): TextRow {
    if |rows| == 0 then [] else Flatten(rows[..|rows| - 1]) + rows[|rows| - 1]
  }

  lemma {:induction false} CapacityAppends(a: TextRow, b: TextRow)
    ensures Capacity(a + b) == Capacity(a) + Capacity(b)
  {
    if |a| == 0 {
      assert a + b == b;
    } else {
      assert (a + b)[0] == a[0] && (a + b)[1..] == a[1..] + b;
      CapacityAppends(a[1..], b);
    }
  }

  lemma CostAppends(a: TextRow, b: TextRow, valueSize: nat)
    ensures Cost(a + b, valueSize) == Cost(a, valueSize) + Cost(b, valueSize)
  {
    CapacityAppends(a, b);
    assert (|a| + |b|) * valueSize == |a| * valueSize + |b| * valueSize;
  }

  lemma FlattenMore(rows: seq<TextRow>, row: TextRow)
    ensures Flatten(rows + [row]) == Flatten(rows) + row
  {
    assert (rows + [row])[..|rows|] == rows;
  }

  /** Rows of one width lie one behind the other. */
  lemma {:induction false} FlatCells(rows: seq<TextRow>, n: nat, k: nat, j: nat)
    requires k < |rows| && j < n && forall i | 0 <= i < |rows| :: |rows[i]| == n
    ensures |Flatten(rows)| == |rows| * n && k * n + j < |rows| * n && Flatten(rows)[k * n + j] == rows[k][j]
  {
    var last := |rows| - 1;
    FlatLength(rows[..last], n);
    LessTimes(k, |rows|, n);
    assert last * n + n == |rows| * n;
    if k < last {
      FlatCells(rows[..last], n, k, j);
    }
  }

  lemma {:induction false} FlatLength(rows: seq<TextRow>, n: nat)
    requires forall i | 0 <= i < |rows| :: |rows[i]| == n
    ensures |Flatten(rows)| == |rows| * n
  {
    if |rows| > 0 {
      FlatLength(rows[..|rows| - 1], n);
      assert (|rows| - 1) * n + n == |rows| * n;
    }
  }

  /** A prefix of rows costs no more. */
  lemma {:induction false} PrefixCostsLess(rows: seq<TextRow>, k: nat, valueSize: nat)
    requires k <= |rows|
    ensures Cost(Flatten(rows[..k]), valueSize) <= Cost(Flatten(rows), valueSize)
    decreases |rows|
  {
    hide Cost;
    if k < |rows| {
      var n := |rows| - 1;
      assert rows[..n][..k] == rows[..k];
      PrefixCostsLess(rows[..n], k, valueSize);
      CostAppends(Flatten(rows[..n]), rows[n], valueSize);
    } else {
      assert rows[..k] == rows;
    }
  }

  lemma RowCostsLess(rows: seq<TextRow>, k: nat, valueSize: nat)
    requires k < |rows|
    ensures Cost(rows[k], valueSize) <= Cost(Flatten(rows), valueSize)
  {
    hide Cost;
    FlattenMore(rows[..k], rows[k]);
    assert rows[..k] + [rows[k]] == rows[..k + 1];
    CostAppends(Flatten(rows[..k]), rows[k], valueSize);
    PrefixCostsLess(rows, k + 1, valueSize);
  }

  function Carried(pending: Option<TextRow>): seq<TextRow> {
    match pending
    case None => []
    case Some(row) => [row]
  }

  // ---- the reader -------------------------------------------------------------------------

  class Reader {
    const valueSize: nat
    const width: nat
    const indices: seq<nat>
    const rowsPerBatch: nat
    const batchBytes: nat
    /** The new capacity when `needed` values must fit and the present capacity is too small. */
    const grow: (nat, nat) -> nat
    /** Whether the stream breaks off instead of ending. */
    const damaged: bool
    ghost const all: seq<TextRow>
    var rest: seq<TextRow>
    var pending: Option<TextRow>
    var rows: nat
    var batches: nat
    var peak: nat
    var eof: bool
    var failed: bool
    var closed: bool
    ghost var delivered: seq<TextRow>

    /** What the evidence of a reader must satisfy. */
    ghost predicate Tallied()
      reads this`rows, this`batches, this`peak, this`delivered
    {
      && rows == |delivered|
      && batches <= rows <= batches * rowsPerBatch
      && peak <= batchBytes
    }

    ghost predicate Configured() {
      rowsPerBatch > 0 && Selects(indices, width) && forall c, n :: grow(c, n) >= n
    }

    /** What was handed out is the first so many selected records, in order, whatever happened since. */
    ghost predicate Ordered()
      reads this`delivered
      requires Selects(indices, width)
    {
      && |delivered| <= |all| && Regular(all[..|delivered|], width)
      && delivered == SelectAll(all[..|delivered|], indices, width)
    }

    ghost predicate Counted()
      reads this
    {
      Configured() && Tallied() && Ordered() && (closed ==> eof)
    }

    // ---- when a batch is refused ----------------------------------------------------------

    /** Record `i` has the width of the header, and its selected columns fit a batch of their own. */
    ghost predicate Fits(i: nat)
      requires Configured()
    {
      i < |all| && |all[i]| == width && Cost(Select(all[i], indices), valueSize) <= batchBytes
    }

    /** Of the records from `d` on, `n` go into one batch, which has room for more; what follows them is a
        record that does not fit, or the break of a damaged stream. */
    ghost predicate BlocksAt(d: nat, n: nat)
      requires Configured()
    {
      && n < rowsPerBatch && d + n <= |all| && Regular(all[d..d + n], width)
      && Cost(Flatten(SelectAll(all[d..d + n], indices, width)), valueSize) <= batchBytes
      && (if d + n == |all| then damaged else !Fits(d + n))
    }

    ghost predicate Blocked(d: nat)
      requires Configured()
    {
      exists n: nat :: BlocksAt(d, n)
    }

    /** The allocator gives exactly what it is asked for. */
    ghost predicate Exact() {
      forall c, n :: grow(c, n) == n
    }

    /** Delivered rows, the carried row and the records still to come are the snapshot, in order. */
    ghost predicate Whole()
      reads this
      requires Selects(indices, width)
    {
      && |rest| <= |all| && rest == all[|all| - |rest|..]
      && Regular(all[..|all| - |rest|], width)
      && delivered + Carried(pending) == SelectAll(all[..|all| - |rest|], indices, width)
      && (eof ==> rest == [] && pending == None && !damaged)
    }

    ghost predicate Valid()
      reads this
    {
      Counted() && (!failed ==> Whole())
    }

    constructor (valueSize: nat, width: nat, indices: seq<nat>, rowsPerBatch: nat, batchBytes: nat,
                 grow: (nat, nat) -> nat, records: seq<TextRow>, damaged: bool)
      requires rowsPerBatch > 0 && Selects(indices, width) && forall c, n :: grow(c, n) >= n
      ensures Valid() && !failed && !eof && !closed && all == records && delivered == []
      ensures this.valueSize == valueSize && this.width == width && this.indices == indices && this.grow == grow
      ensures this.rowsPerBatch == rowsPerBatch && this.batchBytes == batchBytes && this.damaged == damaged
    {
      this.valueSize, this.width, this.indices := valueSize, width, indices;
      this.rowsPerBatch, this.batchBytes, this.grow, this.damaged := rowsPerBatch, batchBytes, grow, damaged;
      all, rest, pending, delivered := records, records, None, [];
      rows, batches, peak := 0, 0, 0;
      eof, failed, closed := false, false, false;
    }

    /** `next`: rows until the batch is full, the next row would not fit (it is carried over), or the
        stream ends. An empty batch means the end; anything else is progress. Refused when closed, failed or
        blocked, and for nothing else unless the allocator gives more than it is asked for. */
    method Next() returns (r: Res<TextRow>, ghost batch: seq<TextRow>)
      requires Valid()
      modifies this
      ensures old(closed) || old(failed) || (!old(eof) && Blocked(|old(delivered)|)) ==> r.Err?
      ensures r.Err? && Exact() ==> old(closed) || old(failed) || (!old(eof) && Blocked(|old(delivered)|))
      ensures old(eof) && !old(closed) && !old(failed) ==> r == Ok([]) && batch == []
      ensures closed == old(closed) && failed == old(failed)
      ensures r.Err? ==> Counted() && delivered == old(delivered)
      ensures r.Ok? ==> Valid() && r.value == Flatten(batch) && delivered == old(delivered) + batch
      ensures r.Ok? ==> |batch| <= rowsPerBatch && Cost(r.value, valueSize) <= batchBytes
      ensures r.Ok? && batch == [] ==> eof
      ensures r.Ok? && !eof && |batch| < rowsPerBatch ==>
                pending.Some? && Cost(r.value, valueSize) + Cost(pending.value, valueSize) > batchBytes
    {
      batch := [];
      if closed || failed {
        return Err, batch;
      }
      if eof {
        assert delivered + [] == delivered;
        assert Cost([], valueSize) == 0;
        return Ok([]), batch;
      }
      hide Whole, Whole', Tallied, Ordered, Blocked, Flatten, Cost;
      HeldNothing();
      var ok, cells, count, capacity, cost;
      ok, cells, count, capacity, cost, batch := Gather();
      if !ok {
        return Err, batch;
      }
      Deliver(batch, cells, count, capacity, cost);
      r := Ok(cells);
    }

    lemma HeldNothing()
      requires Selects(indices, width) && Whole()
      ensures Whole'([])
    {
      assert delivered + [] == delivered;
    }

    /** The bytes of capacity beyond what is used. */
    function Slack(capacity: nat, used: nat): int {
      (capacity - used) * valueSize
    }

    lemma SlackIs(capacity: nat, used: nat)
      requires used <= capacity
      ensures Slack(capacity, used) >= 0 && (used == capacity ==> Slack(capacity, used) == 0)
    {
      NonNegative(capacity - used, valueSize);
    }

    /** What the loop of `next` has gathered, within the byte budget, allocator slack included. */
    ghost predicate Gathered(batch: seq<TextRow>, cells: TextRow, count: nat, capacity: nat, cost: nat)
      reads this
      requires Selects(indices, width)
    {
      && count == |batch| <= rowsPerBatch && cells == Flatten(batch) && Whole'(batch)
      && cost == Cost(cells, valueSize) && |cells| <= capacity
      && cost + Slack(capacity, |cells|) <= batchBytes
      && (eof ==> rest == [] && pending == None && !damaged)
    }

    /** The loop of `next`. */
    method Gather() returns (ok: bool, cells: TextRow, count: nat, capacity: nat, cost: nat, ghost batch: seq<TextRow>)
      requires Configured() && Whole'([]) && !eof
      modifies this`rest, this`pending, this`eof
      ensures ok ==> !Blocked(|delivered|)
      ensures !ok && Exact() ==> Blocked(|delivered|)
      ensures ok ==> Gathered(batch, cells, count, capacity, cost) && cells == Flatten(batch) && |batch| <= rowsPerBatch && cost == Cost(cells, valueSize)
      ensures ok && batch == [] && rowsPerBatch > 0 ==> eof
      ensures ok && !eof && |batch| < rowsPerBatch ==> pending.Some? && cost + Cost(pending.value, valueSize) > batchBytes
    {
      hide Whole', Selects, Flatten, Cost, Capacity, SelectAll, Regular, Fits, Blocked, BlocksAt, Slack;
      ok, cells, count, capacity, cost, batch := true, [], 0, 0, 0, [];
      var done := false;
      NothingGathered();
      while count < rowsPerBatch && !done
        invariant Gathered(batch, cells, count, capacity, cost)
        invariant !done ==> !eof && (pending == None || batch == [])
        invariant done && !eof ==> batch != [] && pending.Some? && cost + Cost(pending.value, valueSize) > batchBytes
        invariant done && !eof ==> Cost(pending.value, valueSize) <= batchBytes
        invariant Exact() ==> capacity == |cells|
        invariant forall i: nat | |delivered| <= i < |delivered| + count :: Fits(i)
        decreases rowsPerBatch - count, !done
      {
        SlackIs(capacity, |cells|);
        var pulled := Pull(batch);
        if pulled.Err? {
          ok := false;
          BrokenBlocks(batch);
          return;
        }
        if pulled.value.None? {
          done := true;
        } else {
          var selected := pulled.value.value;
          var rowBytes := Cost(selected, valueSize);
          PulledIs(batch, selected);
          if rowBytes > batchBytes {
            ok := false;
            OversizeBlocks(batch);
            return;
          }
          if cost + rowBytes > batchBytes {
            NoCost(cells, batch);
            CarryOver(batch, selected);
            done := true;
          } else {
            CostAppends(cells, selected, valueSize);
            FlattenMore(batch, selected);
            cost := cost + rowBytes;
            if capacity - |cells| < |selected| {
              capacity := grow(capacity, |cells| + |selected|);
            }
            SlackIs(capacity, |cells| + |selected|);
            if cost + Slack(capacity, |cells| + |selected|) > batchBytes {
              ok := false;
              return;
            }
            cells := cells + selected;
            batch := batch + [selected];
            count := count + 1;
          }
        }
      }
      NotBlocked(batch);
    }

    /** Where gathered rows stand in the snapshot. */
    lemma HeldIs(held: seq<TextRow>)
      requires Configured() && Whole'(held)
      ensures var d, n := |delivered|, |held|;
        && d + n + |Carried(pending)| == |all| - |rest| && Regular(all[d..d + n], width)
        && held == SelectAll(all[d..d + n], indices, width)
        && (pending.Some? ==> |all[d + n]| == width && pending.value == Select(all[d + n], indices))
    {
      var d, n, before := |delivered|, |held|, all[..|all| - |rest|];
      var whole := SelectAll(before, indices, width);
      assert |whole| == |delivered + held + Carried(pending)|;
      forall i: nat | i < n
        ensures |all[d..d + n][i]| == width && held[i] == Select(all[d..d + n][i], indices)
      {
        assert all[d..d + n][i] == before[d + i];
        assert held[i] == (delivered + held + Carried(pending))[d + i] == whole[d + i];
      }
      if pending.Some? {
        CarriedIs(held);
      }
    }

    lemma CarriedIs(held: seq<TextRow>)
      requires Configured() && Whole'(held) && pending.Some?
      ensures var i := |delivered| + |held|;
        i < |all| && |all[i]| == width && pending.value == Select(all[i], indices)
    {
      var i, before := |delivered| + |held|, all[..|all| - |rest|];
      var whole := SelectAll(before, indices, width);
      assert whole == delivered + held + [pending.value];
      assert whole[i] == pending.value && before[i] == all[i];
      assert |before[i]| == width;
    }

    /** A row just pulled is the selection of the next record. */
    lemma PulledIs(batch: seq<TextRow>, selected: TextRow)
      requires Configured() && Whole'(batch + [selected]) && pending == None
      ensures var i := |delivered| + |batch|;
        && Regular(all[|delivered|..i], width) && batch == SelectAll(all[|delivered|..i], indices, width)
        && i < |all| && (Cost(selected, valueSize) <= batchBytes <==> Fits(i))
    {
      hide Whole', Cost;
      HeldIs(batch + [selected]);
      var d, i := |delivered|, |delivered| + |batch|;
      assert all[d..i + 1][..|batch|] == all[d..i];
      assert SelectAll(all[d..i + 1], indices, width)[..|batch|] == SelectAll(all[d..i], indices, width);
      assert selected == (batch + [selected])[|batch|] == Select(all[d..i + 1][|batch|], indices);
      assert all[d..i + 1][|batch|] == all[i];
      assert forall k: nat | k < |batch| :: all[d..i][k] == all[d..i + 1][k];
    }

    lemma BrokenBlocks(batch: seq<TextRow>)
      requires Configured() && Whole'(batch) && pending == None && |batch| < rowsPerBatch
      requires Cost(Flatten(batch), valueSize) <= batchBytes
      requires if rest == [] then damaged else |rest[0]| != width
      ensures Blocked(|delivered|)
    {
      hide Whole', Cost, Flatten;
      HeldIs(batch);
      RestIs(batch);
      assert BlocksAt(|delivered|, |batch|);
    }

    lemma RestIs(held: seq<TextRow>)
      requires Configured() && Whole'(held)
      ensures rest != [] ==> rest[0] == all[|all| - |rest|]
    {
    }

    lemma OversizeBlocks(batch: seq<TextRow>)
      requires Configured() && |batch| < rowsPerBatch && Cost(Flatten(batch), valueSize) <= batchBytes
      requires var d, n := |delivered|, |batch|;
        d + n < |all| && Regular(all[d..d + n], width) && batch == SelectAll(all[d..d + n], indices, width) && !Fits(d + n)
      ensures Blocked(|delivered|)
    {
      hide Cost, Flatten, Fits;
      assert BlocksAt(|delivered|, |batch|);
    }

    /** A batch that came about was not blocked. */
    lemma NotBlocked(batch: seq<TextRow>)
      requires Configured() && Whole'(batch) && |batch| <= rowsPerBatch
      requires forall i: nat | |delivered| <= i < |delivered| + |batch| :: Fits(i)
      requires eof ==> rest == [] && pending == None && !damaged
      requires !eof && |batch| < rowsPerBatch ==>
        && pending.Some? && Cost(pending.value, valueSize) <= batchBytes
        && Cost(Flatten(batch), valueSize) + Cost(pending.value, valueSize) > batchBytes
      ensures !Blocked(|delivered|)
    {
      hide Whole', Cost, Flatten, Fits, BlocksAt, Regular, SelectAll, Selects;
      var d := |delivered|;
      HeldIs(batch);
      forall n: nat
        ensures !BlocksAt(d, n)
      {
        BlocksInside(d, n);
        if n < |batch| {
          assert Fits(d + n);
        } else if !eof && |batch| < rowsPerBatch {
          CarriedFits(d + |batch|);
          if |batch| < n {
            MoreIsTooMuch(batch, n);
          }
        }
      }
    }

    /** What blocks does so within a batch, and is no record that fits. */
    lemma BlocksInside(d: nat, n: nat)
      requires Configured()
      ensures BlocksAt(d, n) ==> n < rowsPerBatch && d + n <= |all| && !Fits(d + n) && (d + n == |all| ==> damaged)
    {
      hide Cost, Flatten;
    }

    lemma CarriedFits(i: nat)
      requires Configured() && i < |all| && |all[i]| == width && pending == Some(Select(all[i], indices))
      ensures Cost(pending.value, valueSize) <= batchBytes ==> Fits(i)
    {
      hide Cost;
    }

    lemma MoreIsTooMuch(batch: seq<TextRow>, n: nat)
      requires Configured() && |batch| < n
      requires var d, k := |delivered|, |batch|;
        && d + k < |all| && Regular(all[d..d + k], width) && batch == SelectAll(all[d..d + k], indices, width)
        && pending.Some? && |all[d + k]| == width && pending.value == Select(all[d + k], indices)
        && Cost(Flatten(batch), valueSize) + Cost(pending.value, valueSize) > batchBytes
      ensures !BlocksAt(|delivered|, n)
    {
      hide Cost, Flatten, Fits;
      var d, k := |delivered|, |batch|;
      if BlocksAt(d, n) {
        var rows := SelectAll(all[d..d + n], indices, width);
        assert rows[..k + 1] == batch + [pending.value] by {
          assert all[d..d + n][..k] == all[d..d + k];
          assert all[d..d + n][k] == all[d + k];
        }
        FlattenMore(batch, pending.value);
        CostAppends(Flatten(batch), pending.value, valueSize);
        PrefixCostsLess(rows, k + 1, valueSize);
        assert false;
      }
    }

    lemma NothingGathered()
      requires Selects(indices, width) && Whole'([]) && !eof
      ensures Gathered([], [], 0, 0, 0)
    {
    }

    lemma NoCost(cells: TextRow, batch: seq<TextRow>)
      requires cells == Flatten(batch)
      ensures batch == [] ==> Cost(cells, valueSize) == 0
    {
    }

    /** The next selected row: the carried one, else the next record of the stream; `held` rows are
        already gathered for the batch. */
    method Pull(ghost held: seq<TextRow>) returns (r: Res<Option<TextRow>>)
      requires Selects(indices, width) && Whole'(held) && !eof && (pending.Some? ==> held == [])
      modifies this`rest, this`pending, this`eof
      ensures r.Ok? ==> Whole'(if r.value.Some? then held + [r.value.value] else held)
      ensures r.Ok? ==> pending == None && (eof <==> r.value.None?)
      ensures r == Ok(None) ==> rest == [] && !damaged
      ensures r.Err? ==> eof == old(eof) && Whole'(held) && pending == None
      ensures r.Err? ==> if rest == [] then damaged else |rest[0]| != width
    {
      if pending.Some? {
        var row := pending.value;
        pending := None;
        assert delivered + [] + [row] == delivered + [row] + [];
        return Ok(Some(row));
      }
      if rest == [] {
        if damaged {
          return Err;
        }
        eof := true;
        return Ok(None);
      }
      var row := rest[0];
      if |row| != width {
        return Err;
      }
      ghost var k := |all| - |rest|;
      rest := rest[1..];
      var selected := TakeColumns(row, indices);
      assert all[..k + 1] == all[..k] + [row];
      assert SelectAll(all[..k + 1], indices, width) == SelectAll(all[..k], indices, width) + [selected];
      assert delivered + held + [] + [selected] == delivered + (held + [selected]) + [];
      r := Ok(Some(selected));
    }

    /** A row that does not fit waits for the next batch. */
    method CarryOver(ghost held: seq<TextRow>, row: TextRow)
      requires Selects(indices, width) && Whole'(held + [row]) && pending == None
      modifies this`pending
      ensures Whole'(held) && pending == Some(row)
    {
      pending := Some(row);
      assert delivered + (held + [row]) + [] == delivered + held + [row];
    }

    /** The end of `next`: counters, and the peak of what was really allocated. */
    method Deliver(ghost batch: seq<TextRow>, cells: TextRow, count: nat, capacity: nat, cost: nat)
      requires Configured() && Tallied() && Gathered(batch, cells, count, capacity, cost)
      modifies this`rows, this`batches, this`peak, this`delivered
      ensures Tallied() && Whole() && Ordered() && delivered == old(delivered) + batch && Cost(cells, valueSize) <= batchBytes
    {
      hide Capacity, Flatten, Regular, SelectAll, Selects, Ordered;
      OneMoreBatch(rows, batches, count, rowsPerBatch);
      OccupiedBytes(|cells|, capacity, valueSize);
      rows := rows + count;
      if count > 0 {
        batches := batches + 1;
      }
      var occupied := capacity * valueSize + Capacity(cells);
      peak := if peak < occupied then occupied else peak;
      delivered := delivered + batch;
      WholeIsOrdered();
    }

    lemma WholeIsOrdered()
      requires Selects(indices, width) && Whole()
      ensures Ordered()
    {
      var before, n := all[..|all| - |rest|], |delivered|;
      var whole := SelectAll(before, indices, width);
      assert |whole| == |delivered + Carried(pending)|;
      forall i: nat | i < n
        ensures |all[..n][i]| == width && delivered[i] == Select(all[..n][i], indices)
      {
        assert all[..n][i] == before[i];
        assert delivered[i] == (delivered + Carried(pending))[i] == whole[i];
      }
    }

    static lemma OneMoreBatch(rows: nat, batches: nat, count: nat, perBatch: nat)
      requires batches <= rows <= batches * perBatch && count <= perBatch
      ensures rows + count <= (batches + 1) * perBatch
    {
    }

    /** Unused capacity counts as much as used capacity. */
    static lemma OccupiedBytes(used: nat, capacity: nat, valueSize: nat)
      requires used <= capacity
      ensures capacity * valueSize == used * valueSize + (capacity - used) * valueSize
      ensures (capacity - used) * valueSize >= 0
    {
      NonNegative(capacity - used, valueSize);
      assert used + (capacity - used) == capacity;
    }

    /** A closed reader has not failed: what a later verification also demands. */
    ghost predicate Settled()
      reads this`closed, this`failed
    {
      closed ==> !failed
    }

    /** `batch_next`: any refusal is final. Asking a closed reader for more is a refusal too, and the one
        way to a reader that is both closed and failed. */
    method BatchNext() returns (r: Res<TextRow>, ghost batch: seq<TextRow>)
      requires Valid()
      modifies this
      ensures Valid() && closed == old(closed) && failed == (old(failed) || r.Err?)
      ensures old(closed) || old(failed) || (!old(eof) && Blocked(|old(delivered)|)) ==> r.Err?
      ensures r.Err? && Exact() ==> old(closed) || old(failed) || (!old(eof) && Blocked(|old(delivered)|))
      ensures old(Settled()) ==> (Settled() <==> !old(closed))
      ensures r.Err? ==> delivered == old(delivered)
      ensures r.Ok? ==> r.value == Flatten(batch) && delivered == old(delivered) + batch
      ensures r.Ok? ==> |batch| <= rowsPerBatch && Cost(r.value, valueSize) <= batchBytes && (batch == [] ==> eof)
      ensures r.Ok? && !eof && |batch| < rowsPerBatch ==>
                pending.Some? && Cost(r.value, valueSize) + Cost(pending.value, valueSize) > batchBytes
    {
      hide Whole, Tallied, Ordered, Blocked, Flatten, Cost;
      r, batch := Next();
      if r.Err? {
        failed := true;
      }
    }

    /** The cells of the batch just handed out: the requested columns of the records in turn. */
    lemma BatchCells(before: nat, batch: seq<TextRow>, k: nat, j: nat)
      requires Valid() && before + |batch| == |delivered| && delivered[before..] == batch && k < |batch| && j < |indices|
      ensures var cells := Flatten(batch);
        && k * |indices| + j < |cells| == |batch| * |indices| && before + k < |all| && indices[j] < |all[before + k]|
        && cells[k * |indices| + j] == all[before + k][indices[j]]
    {
      hide Flatten;
      InOrder();
      assert forall i | 0 <= i < |batch| :: batch[i] == delivered[before + i];
      FlatCells(batch, |indices|, k, j);
      assert batch[k] == delivered[before + k];
    }

    /** `batch_close`: only a reader that has seen the end can be closed. */
    method BatchClose() returns (ok: bool)
      requires Valid()
      modifies this`closed
      ensures Valid() && ok == (old(eof) && !old(failed) && !old(closed))
      ensures closed == (old(closed) || ok)
    {
      ok := eof && !failed && !closed;
      if ok {
        closed := true;
      }
    }

    /** Every row handed out holds, in the order asked for, the requested columns of the record in its place. */
    ghost predicate Columns()
      reads this`delivered
    {
      forall k | 0 <= k < |delivered| ::
        && k < |all| && |delivered[k]| == |indices|
        && forall j | 0 <= j < |indices| :: indices[j] < |all[k]| && delivered[k][j] == all[k][indices[j]]
    }

    /** At the end nothing was lost and nothing was repeated: the delivered rows are the selected columns
        of every record, in order. */
    lemma NothingLost()
      requires Valid() && eof && !failed
      ensures Regular(all, width) && delivered == SelectAll(all, indices, width)
      ensures |delivered| == |all| && Columns()
    {
      assert all[..|all| - |rest|] == all;
      assert delivered + [] == delivered;
    }

    /** In every reachable state, failed or not, what was delivered is a prefix of that. */
    lemma InOrder()
      requires Valid()
      ensures |delivered| <= |all| && Regular(all[..|delivered|], width)
      ensures delivered == SelectAll(all[..|delivered|], indices, width)
      ensures Columns()
    {
    }

    /** What a later verification demands of the evidence. */
    ghost predicate Accepted()
      reads this
    {
      peak <= batchBytes && batches <= rows <= batches * rowsPerBatch && (closed ==> eof && !failed)
    }

    /** Of these demands only the last can fail. */
    lemma EvidenceHolds()
      requires Valid()
      ensures Accepted() <==> Settled()
    {
    }

    // ---- whole streams --------------------------------------------------------------------

    /** The stream ends as it should and every record fits. */
    ghost predicate Readable()
      requires Configured()
    {
      !damaged && forall i: nat | i < |all| :: Fits(i)
    }

    lemma BlockedIsUnreadable(d: nat)
      requires Configured() && Blocked(d)
      ensures !Readable()
    {
      hide Fits;
      var n: nat :| BlocksAt(d, n);
      assert d + n < |all| ==> !Fits(d + n);
    }

    /** Rows that came in a batch fit one. */
    lemma DeliveredFits(batch: seq<TextRow>, d: nat)
      requires Configured() && Ordered() && d + |batch| == |delivered| && delivered[d..] == batch
      requires Cost(Flatten(batch), valueSize) <= batchBytes
      ensures forall i: nat | d <= i < |delivered| :: Fits(i)
    {
      hide Cost, Flatten;
      forall i: nat | d <= i < |delivered|
        ensures Fits(i)
      {
        assert delivered[i] == batch[i - d] && all[..|delivered|][i] == all[i];
        RowCostsLess(batch, i - d, valueSize);
      }
    }

    lemma EverythingFits()
      requires Valid() && eof && !failed && forall i: nat | i < |delivered| :: Fits(i)
      ensures Readable()
    {
      hide Fits;
      NothingLost();
    }

    /** `Whole` while `held` rows are out of the stream but not yet delivered or carried. */
    ghost predicate Whole'(held: seq<TextRow>)
      reads this
      requires Selects(indices, width)
    {
      && |rest| <= |all| && rest == all[|all| - |rest|..]
      && Regular(all[..|all| - |rest|], width)
      && delivered + held + Carried(pending) == SelectAll(all[..|all| - |rest|], indices, width)
    }
  }

  datatype ReaderCall = NextCall | CloseCall

  /** Any calls in any order: what was delivered is always the first so many selected records in order, no row
      is taken back, a failed reader delivers no more, and the verification accepts the evidence exactly when no
      batch was asked of a closed reader. `closed` tells of every call whether the reader was closed before it. */
  method Replay(reader: Reader, calls: seq<ReaderCall>) returns (closed: seq<bool>)
    requires reader.Valid() && reader.Settled()
    modifies reader
    ensures reader.Valid() && old(reader.delivered) <= reader.delivered
    ensures |reader.delivered| <= |reader.all| && Regular(reader.all[..|reader.delivered|], reader.width)
    ensures reader.delivered == SelectAll(reader.all[..|reader.delivered|], reader.indices, reader.width)
    ensures |closed| == |calls| && (calls != [] ==> closed[0] == old(reader.closed))
    ensures forall i, j | 0 <= i < j < |calls| && closed[i] :: closed[j]
    ensures forall i | 0 <= i < |calls| - 1 && !closed[i] && closed[i + 1] :: calls[i].CloseCall?
    ensures reader.Accepted() <==> forall i | 0 <= i < |calls| && closed[i] :: calls[i].CloseCall?
    ensures old(reader.failed) ==> reader.failed && reader.delivered == old(reader.delivered)
  {
    closed := [];
    for i := 0 to |calls|
      invariant reader.Valid() && old(reader.delivered) <= reader.delivered
      invariant old(reader.failed) ==> reader.failed && reader.delivered == old(reader.delivered)
      invariant |closed| == i && (if i > 0 then closed[0] else reader.closed) == old(reader.closed)
      invariant forall k | 0 <= k < i && closed[k] :: reader.closed
      invariant i > 0 && !closed[i - 1] && reader.closed ==> calls[i - 1].CloseCall?
      invariant forall k, j | 0 <= k < j < i && closed[k] :: closed[j]
      invariant forall k | 0 <= k < i - 1 && !closed[k] && closed[k + 1] :: calls[k].CloseCall?
      invariant reader.Settled() <==> forall k | 0 <= k < i && closed[k] :: calls[k].CloseCall?
    {
      closed := closed + [reader.closed];
      match calls[i] {
        case NextCall => var _, _ := reader.BatchNext();
        case CloseCall => var _ := reader.BatchClose();
      }
    }
    reader.EvidenceHolds();
    reader.InOrder();
  }

  /** A new reader asked for batches until it ends or refuses: it ends only if the stream is readable, and
      then always, unless the allocator gives more than it is asked for. The number of rows in a batch does
      not matter. */
  method ReadToEnd(reader: Reader) returns (ok: bool)
    requires reader.Valid() && !reader.closed && !reader.failed && reader.delivered == []
    modifies reader
    ensures reader.Valid() && !reader.closed && reader.failed == !ok
    ensures ok ==> reader.Readable() && reader.eof && reader.Columns()
    ensures ok ==> Regular(reader.all, reader.width) && reader.delivered == SelectAll(reader.all, reader.indices, reader.width)
    ensures reader.Exact() ==> (ok <==> reader.Readable())
  {
    hide Flatten, Cost, SelectAll, Regular, Selects;
    while !reader.eof
      invariant reader.Valid() && !reader.closed && !reader.failed
      invariant forall i: nat | i < |reader.delivered| :: reader.Fits(i)
      decreases |reader.all| - |reader.delivered|, !reader.eof
    {
      ghost var d := |reader.delivered|;
      var r, batch := reader.BatchNext();
      if r.Err? {
        if reader.Exact() {
          reader.BlockedIsUnreadable(d);
        }
        return false;
      }
      reader.DeliveredFits(batch, d);
    }
    reader.EverythingFits();
    reader.NothingLost();
    ok := true;
  }

  /** How a reader comes to be closed and failed: an empty stream is read to its end and closed, and then
      another batch is asked for. */
  method AskAgain() returns (reader: Reader)
    ensures fresh(reader) && reader.Valid() && reader.closed && reader.failed && !reader.Accepted()
  {
    reader := new Reader(24, 1, [0], 1, 24, (c, n) => n, [], false);
    var ended := ReadToEnd(reader);
    var closed := reader.BatchClose();
    var _, _ := reader.BatchNext();
  }

  /** `row[i].take().unwrap()` for every requested column: distinct columns are each there to take. */
  method TakeColumns(row: TextRow, indices: seq<nat>) returns (selected: TextRow)
    requires Selects(indices, |row|)
    ensures selected == Select(row, indices)
    ensures |selected| == |indices| && forall j | 0 <= j < |indices| :: selected[j] == row[indices[j]]
  {
    var cells: seq<Option<Text>> := seq(|row|, i requires 0 <= i < |row| => Some(row[i]));
    selected := [];
    for k := 0 to |indices|
      invariant |selected| == k && |cells| == |row|
      invariant forall i | 0 <= i < k :: selected[i] == row[indices[i]]
      invariant forall i | k <= i < |indices| :: cells[indices[i]] == Some(row[indices[i]])
    {
      selected := selected + [cells[indices[k]].value];
      cells := cells[indices[k] := None];
    }
  }

  // ---- the writer -------------------------------------------------------------------------

  const MAX_RECORD_BYTES: nat := 1_048_576
  const MAX_BATCH_BYTES: nat := 8_388_608
  const MAX_BATCH_CELLS: nat := 100_000

  /** A value offered to `stream_write`: its rendered text and what it counts against the decoded limit,
      or an array, which refuses. */
  datatype Offered = Plain(text: Cell, cost: nat) | Nested

  predicate AllPlain(cells: seq<Offered>) {
    forall i | 0 <= i < |cells| :: cells[i].Plain?
  }

  function TotalCost(cells: seq<Offered>): nat
    requires AllPlain(cells)
  {
    if |cells| == 0 then 0 else TotalCost(cells[..|cells| - 1]) + cells[|cells| - 1].cost
  }

  function Texts(cells: seq<Offered>): (r: Row)
    requires AllPlain(cells)
    ensures |r| == |cells|
  {
    seq(|cells|, i requires 0 <= i < |cells| => cells[i].text)
  }

  /** Complete rows, `width` cells at a time. */
  function Chunks(cells: seq<Offered>, width: nat): (r: seq<Row>)
    requires width > 0 && |cells| % width == 0 && AllPlain(cells)
    ensures |r| == |cells| / width && forall i | 0 <= i < |r| :: |r[i]| == width
  {
    if |cells| == 0 then []
    else
      assert |cells| >= width && |cells[width..]| % width == 0 && |cells[width..]| / width == |cells| / width - 1 by {
        DivideOnce(|cells|, width);
      }
      [Texts(cells[..width])] + Chunks(cells[width..], width)
  }

  lemma NextChunk(cells: seq<Offered>, width: nat)
    requires 0 < width && 0 < |cells| && |cells| % width == 0 && AllPlain(cells)
    ensures |cells| >= width && |cells[width..]| % width == 0
    ensures AllPlain(cells[..width]) && AllPlain(cells[width..])
    ensures Chunks(cells, width) == [Texts(cells[..width])] + Chunks(cells[width..], width)
  {
    DivideOnce(|cells|, width);
  }

  /** Row `k`, cell `j`. */
  lemma {:induction false} ChunkCells(cells: seq<Offered>, width: nat, k: nat, j: nat)
    requires width > 0 && |cells| % width == 0 && AllPlain(cells) && k < |cells| / width && j < width
    ensures k * width + j < |cells| && k < |Chunks(cells, width)| && Chunks(cells, width)[k][j] == cells[k * width + j].text
    decreases k
  {
    hide Chunks, Texts;
    DivideOnce(|cells|, width);
    NextChunk(cells, width);
    if k > 0 {
      ChunkCells(cells[width..], width, k - 1, j);
      assert (k - 1) * width + width == k * width;
    } else {
      FirstTexts(cells, width, j);
    }
  }

  lemma FirstTexts(cells: seq<Offered>, width: nat, j: nat)
    requires AllPlain(cells) && j < width <= |cells|
    ensures AllPlain(cells[..width]) && Texts(cells[..width])[j] == cells[j].text
  {
  }

  lemma NoChunks(width: nat)
    requires width > 0
    ensures Chunks([], width) == []
  {
  }

  lemma DivideOnce(n: nat, width: nat)
    requires 0 < width && 0 < n && n % width == 0
    ensures n >= width && (n - width) % width == 0 && (n - width) / width == n / width - 1
  {
    var q := n / width;
    assert n == q * width;
    assert q >= 1;
    assert n - width == (q - 1) * width;
    MultipleOf(q - 1, width);
  }

  // ---- when rows can be written -----------------------------------------------------------

  /** A record that can be appended to a file of `used` bytes. */
  predicate Accepts(row: Row, d: Byte, used: nat, limit: nat) {
    && (forall j | 0 <= j < |row| :: 0 !in row[j])
    && |Record(row, d)| <= MAX_RECORD_BYTES && used + |Record(row, d)| <= limit
  }

  /** There is room for all of these rows: none holds a NUL or makes too long a record, and all the records
      together fit in the file. */
  predicate Room(rows: seq<Row>, d: Byte, used: nat, limit: nat) {
    && DelimitedRoundTrip.NulFree(rows)
    && (forall i | 0 <= i < |rows| :: |Record(rows[i], d)| <= MAX_RECORD_BYTES)
    && used + |Records(rows, d)| <= limit
  }

  /** The checks before anything is written, and room for the rows. */
  predicate Writable(cells: seq<Offered>, width: nat, d: Byte, used: nat, limit: nat)
    requires width > 0
  {
    Admitted(cells, width) && Room(Chunks(cells, width), d, used, limit)
  }

  predicate Admitted(cells: seq<Offered>, width: nat)
    requires width > 0
  {
    |cells| <= MAX_BATCH_CELLS && |cells| % width == 0 && AllPlain(cells) && TotalCost(cells) <= MAX_BATCH_BYTES
  }

  /** Room for rows is room for the first and then for the rest. */
  lemma RoomStep(row: Row, rest: seq<Row>, d: Byte, used: nat, limit: nat)
    ensures Room([row] + rest, d, used, limit) <==>
      Accepts(row, d, used, limit) && Room(rest, d, used + |Record(row, d)|, limit)
  {
    hide Record;
    var rows := [row] + rest;
    assert rows[1..] == rest;
    assert Records(rows, d) == Record(row, d) + Records(rest, d);
    if Room(rows, d, used, limit) {
      assert rows[0] == row;
      assert forall i | 0 <= i < |rest| :: rest[i] == rows[i + 1];
    }
  }

  lemma RoomForNone(d: Byte, used: nat, limit: nat)
    requires used <= limit
    ensures Room([], d, used, limit)
  {
  }

  class Writer {
    const delimiter: Byte
    const columns: Row
    const limit: nat
    var file: seq<Byte>
    var bytes: nat
    var rows: nat
    var closed: bool
    var failed: bool
    ghost var written: seq<Row>

    /** The file is exactly the records of the header and the rows written; a header that could not be
        written leaves an empty file behind. */
    ghost predicate Valid()
      reads this
    {
      && IsDelimiter(delimiter) && |columns| > 0
      && bytes == |file| <= limit && rows == |written|
      && (file == Records([columns] + written, delimiter) || (failed && written == [] && file == []))
      && DelimitedRoundTrip.NulFree(written)
      && (forall i | 0 <= i < |written| :: |written[i]| == |columns|)
      && (closed ==> !failed)
    }

    /** `csv_stream_open` / `tsv_stream_open`: the header is the first record. */
    constructor (delimiter: Byte, columns: Row, limit: nat)
      requires IsDelimiter(delimiter) && |columns| > 0
      ensures Valid() && !closed && written == []
      ensures this.delimiter == delimiter && this.columns == columns && this.limit == limit
      ensures !failed <==> Accepts(columns, delimiter, 0, limit)
      ensures !failed ==> file == Record(columns, delimiter)
    {
      this.delimiter, this.columns, this.limit := delimiter, columns, limit;
      file, bytes, rows, closed, failed, written := [], 0, 0, false, false, [];
      new;
      var ok := WriteRecord(columns);
      if !ok {
        failed := true;
      } else {
        assert [columns] + [] == [columns];
        OneRecord(columns, delimiter);
      }
    }

    /** `write_record`: all of the record or nothing. */
    method WriteRecord(row: Row) returns (ok: bool)
      requires bytes == |file| <= limit
      modifies this`file, this`bytes
      ensures bytes == |file| <= limit
      ensures file == if ok then old(file) + Record(row, delimiter) else old(file)
      ensures ok <==> Accepts(row, delimiter, |old(file)|, limit)
    {
      if exists j :: 0 <= j < |row| && 0 in row[j] {
        return false;
      }
      var buffer := RecordBytes(row, delimiter);
      if |buffer| > MAX_RECORD_BYTES || bytes + |buffer| > limit {
        return false;
      }
      file := file + buffer;
      bytes := bytes + |buffer|;
      ok := true;
    }

    /** `stream_write`: refused exactly when the writer is closed or failed, or the cells are not complete
        rows within the limits that there is room for; otherwise all rows are written. A refusal fails an
        open writer for good, with the rows before the first that cannot be written kept. */
    method StreamWrite(cells: seq<Offered>) returns (r: Res<nat>, ghost kept: nat)
      requires Valid()
      modifies this
      ensures Valid() && closed == old(closed)
      ensures failed == (old(failed) || (r.Err? && !old(closed)))
      ensures r.Ok? <==> !old(closed) && !old(failed) && Writable(cells, |columns|, delimiter, |old(file)|, limit)
      ensures r.Ok? ==> written == old(written) + Chunks(cells, |columns|) && r.value == |cells| / |columns|
      ensures r.Err? && (old(closed) || old(failed) || !Admitted(cells, |columns|)) ==> written == old(written)
      ensures r.Err? && !old(closed) && !old(failed) && Admitted(cells, |columns|) ==> Stopped(old(written), cells, kept)
    {
      kept := 0;
      if closed || failed {
        return Err, kept;
      }
      var admitted := Admits(cells);
      if !admitted {
        failed := true;
        return Err, kept;
      }
      var ok;
      ok, kept := WriteChunks(cells);
      if !ok {
        failed := true;
        return Err, kept;
      }
      r := Ok(|cells| / |columns|);
    }

    /** The first `kept` rows of the cells were added to those before, and the next cannot be. */
    ghost predicate Stopped(before: seq<Row>, cells: seq<Offered>, kept: nat)
      reads this
    {
      && |columns| > 0 && Admitted(cells, |columns|) && kept < |Chunks(cells, |columns|)|
      && written == before + Chunks(cells, |columns|)[..kept]
      && !Accepts(Chunks(cells, |columns|)[kept], delimiter, |file|, limit)
    }

    /** The rows of one `stream_write`, one record at a time. */
    method WriteChunks(cells: seq<Offered>) returns (ok: bool, ghost kept: nat)
      requires Valid() && !failed && !closed && Admitted(cells, |columns|)
      modifies this`file, this`bytes, this`rows, this`written
      ensures Valid()
      ensures ok <==> Room(Chunks(cells, |columns|), delimiter, |old(file)|, limit)
      ensures ok ==> written == old(written) + Chunks(cells, |columns|)
      ensures !ok ==> Stopped(old(written), cells, kept)
    {
      hide Chunks, Texts, Records, Record, Room, Accepts, DelimitedRoundTrip.NulFree;
      var k := 0;
      kept := 0;
      ghost var chunks := Chunks(cells, |columns|);
      assert cells[0..] == cells && chunks[0..] == chunks && written + chunks[..0] == written;
      while k < |cells|
        invariant 0 <= k <= |cells| && |cells[k..]| % |columns| == 0
        invariant Valid() && !failed && !closed
        invariant kept <= |chunks| && written == old(written) + chunks[..kept] && Chunks(cells[k..], |columns|) == chunks[kept..]
        invariant Room(chunks, delimiter, |old(file)|, limit) <==> Room(chunks[kept..], delimiter, |file|, limit)
      {
        DivideOnce(|cells[k..]|, |columns|);
        NextChunk(cells[k..], |columns|);
        var chunk := cells[k..k + |columns|];
        assert cells[k..][..|columns|] == chunk && cells[k..][|columns|..] == cells[k + |columns|..];
        assert chunks[kept..][1..] == chunks[kept + 1..] && chunks[kept..][0] == chunks[kept] == Texts(chunk);
        RoomStep(Texts(chunk), chunks[kept + 1..], delimiter, |file|, limit);
        var good := WriteChunk(Texts(chunk));
        if !good {
          return false, kept;
        }
        assert chunks[..kept + 1] == chunks[..kept] + [chunks[kept]];
        k := k + |columns|;
        kept := kept + 1;
      }
      assert cells[k..] == [];
      NoChunks(|columns|);
      RoomForNone(delimiter, |file|, limit);
      assert chunks[..kept] == chunks;
      ok := true;
    }

    method WriteChunk(texts: Row) returns (ok: bool)
      requires Valid() && !failed && !closed && |texts| == |columns|
      modifies this`file, this`bytes, this`rows, this`written
      ensures Valid() && written == if ok then old(written) + [texts] else old(written)
      ensures ok <==> Accepts(texts, delimiter, |old(file)|, limit)
      ensures |file| == |old(file)| + if ok then |Record(texts, delimiter)| else 0
    {
      hide Records, Record;
      ok := WriteRecord(texts);
      if ok {
        Note(texts);
      }
    }

    /** A record just written joins the rows of the file. */
    method Note(texts: Row)
      requires IsDelimiter(delimiter) && |columns| > 0 && |texts| == |columns| && !failed && !closed
      requires bytes == |file| <= limit && rows == |written| && DelimitedRoundTrip.NulFree(written)
      requires file == Records([columns] + written, delimiter) + Record(texts, delimiter)
      requires forall j | 0 <= j < |texts| :: 0 !in texts[j]
      requires forall i | 0 <= i < |written| :: |written[i]| == |columns|
      modifies this`rows, this`written
      ensures Valid() && written == old(written) + [texts]
    {
      hide Records, Record;
      RecordsMore([columns] + written, texts, delimiter);
      assert [columns] + (written + [texts]) == [columns] + written + [texts];
      written := written + [texts];
      rows := rows + 1;
    }

    /** The checks made before anything is written. */
    method Admits(cells: seq<Offered>) returns (ok: bool)
      requires |columns| > 0
      ensures ok <==> Admitted(cells, |columns|)
    {
      if |cells| > MAX_BATCH_CELLS || |cells| % |columns| != 0 {
        return false;
      }
      var cost := 0;
      for i := 0 to |cells|
        invariant AllPlain(cells[..i]) && cost == TotalCost(cells[..i]) <= MAX_BATCH_BYTES
      {
        if cells[i].Nested? {
          return false;
        }
        assert cells[..i + 1][..i] == cells[..i];
        cost := cost + cells[i].cost;
        if cost > MAX_BATCH_BYTES {
          if AllPlain(cells) {
            CostGrows(cells, i + 1);
          }
          return false;
        }
      }
      assert cells[..|cells|] == cells;
      ok := true;
    }

    /** `stream_close`. */
    method StreamClose() returns (ok: bool)
      requires Valid()
      modifies this`closed
      ensures Valid() && ok == (!old(closed) && !old(failed)) && closed == (old(closed) || ok)
    {
      ok := !closed && !failed;
      if ok {
        closed := true;
      }
    }

    /** A file that was closed reads back as its header and rows, whenever it is within what a table may
        hold. */
    lemma ClosedFileReadsBack()
      requires Valid() && closed
      ensures Parse(file, delimiter) == Ok([columns] + written) <==> DelimitedRoundTrip.Storable([columns] + written)
    {
      DelimitedRoundTrip.TableRoundTrip([columns] + written, delimiter);
    }
  }

  lemma OneRecord(row: Row, d: Byte)
    ensures Records([row], d) == Record(row, d)
  {
    assert [row][1..] == [];
    assert Record(row, d) + [] == Record(row, d);
  }

  lemma {:induction false} RecordsMore(rows: seq<Row>, row: Row, d: Byte)
    ensures Records(rows + [row], d) == Records(rows, d) + Record(row, d)
  {
    hide Record;
    if |rows| == 0 {
      assert rows + [row] == [row];
      OneRecord(row, d);
      assert [] + Record(row, d) == Record(row, d);
    } else {
      assert (rows + [row])[0] == rows[0] && (rows + [row])[1..] == rows[1..] + [row];
      RecordsMore(rows[1..], row, d);
      assert Record(rows[0], d) + (Records(rows[1..], d) + Record(row, d))
          == (Record(rows[0], d) + Records(rows[1..], d)) + Record(row, d);
    }
  }

  lemma {:induction false} CostGrows(cells: seq<Offered>, k: nat)
    requires AllPlain(cells) && k <= |cells|
    ensures TotalCost(cells[..k]) <= TotalCost(cells)
    decreases |cells| - k
  {
    if k == |cells| {
      assert cells[..k] == cells;
    } else {
      assert cells[..k + 1][..k] == cells[..k];
      CostGrows(cells, k + 1);
    }
  }

  // ---- the end of a run -------------------------------------------------------------------

  /** `finish`: the run passes only when every reader saw its end and was closed, and every writer was
      closed; then every reader has delivered its whole snapshot and every file holds its rows. */
  method Finish(readers: seq<Reader>, writers: seq<Writer>) returns (ok: bool)
    requires (forall r | r in readers :: r.Valid()) && (forall w | w in writers :: w.Valid())
    ensures ok <==> (forall r | r in readers :: r.eof && r.closed && !r.failed) && (forall w | w in writers :: w.closed && !w.failed)
    ensures ok ==> forall r | r in readers :: r.Configured() && Regular(r.all, r.width) && r.delivered == SelectAll(r.all, r.indices, r.width)
    ensures ok ==> forall r | r in readers :: |r.delivered| == |r.all| && r.Columns()
    ensures ok ==> forall w | w in writers :: w.file == Records([w.columns] + w.written, w.delimiter)
  {
    for i := 0 to |readers|
      invariant forall k | 0 <= k < i :: readers[k].eof && readers[k].closed && !readers[k].failed
    {
      if !readers[i].eof || !readers[i].closed || readers[i].failed {
        return false;
      }
    }
    for i := 0 to |writers|
      invariant forall k | 0 <= k < i :: writers[k].closed && !writers[k].failed
    {
      if !writers[i].closed || writers[i].failed {
        return false;
      }
    }
    forall r | r in readers
      ensures r.Configured() && Regular(r.all, r.width) && r.delivered == SelectAll(r.all, r.indices, r.width)
      ensures |r.delivered| == |r.all| && r.Columns()
    {
      r.NothingLost();
    }
    ok := true;
  }
}
