/** The planner's numbers in closed form: demands in the fields of the request, reserves in what is there, and
    one request worked through. */
module PlannerLaws {
  import opened Prelude
  import opened Arithmetic
  import opened Planner

  /** `n` is the ratio rounded up. */
  ghost predicate IsCeiling(n: nat, product: nat, denominator: nat) {
    forall k: nat :: n <= k <==> product <= k * denominator
  }

  lemma CeilRatioMeans(value: nat, numerator: nat, denominator: nat)
    requires denominator > 0 && CeilRatio(value, numerator, denominator).Ok?
    ensures IsCeiling(CeilRatio(value, numerator, denominator).value, value * numerator, denominator)
  {
    forall k: nat
      ensures CeilRatio(value, numerator, denominator).value <= k <==> value * numerator <= k * denominator
    {
      CeilRatioIsLeast(value, numerator, denominator, k);
    }
  }

  lemma TwoFactors(a: nat, b: nat)
    ensures Product([a, b]).Ok? ==> Product([a, b]).value == a * b
    ensures a <= MAX_BYTES ==> Product([a, b]) == Bounded(a * b)
  {
    assert [a, b][..1] == [a] && [a][..0] == [];
    assert Product([a]) == Bounded(1 * a);
  }

  lemma ThreeFactors(a: nat, b: nat, c: nat)
    ensures Product([a, b, c]).Ok? ==> Product([a, b, c]).value == a * b * c
    ensures a <= MAX_BYTES && c > 0 ==> Product([a, b, c]) == Bounded(a * b * c)
  {
    TwoFactors(a, b);
    assert [a, b, c][..2] == [a, b];
    NonNegative(a, b);
    if c > 0 {
      NonNegative(a * b, c - 1);
      assert a * b * c == a * b * (c - 1) + a * b;
    }
  }

  // ---- what a request demands -------------------------------------------------------------

  /** The eight parts of the training demand. */
  ghost predicate Demands(r: Request, c: seq<nat>) {
    && |c| == 8
    && IsCeiling(c[0], r.modelParameters * r.weightBits, 8)
    && c[1] == (if r.method_.Full? && r.weightBits != 16 then 0 else 4 * r.trainableParameters)
    && c[2] == 4 * r.trainableParameters
    && c[3] == 8 * r.trainableParameters
    && c[4] == r.activationPerToken * r.microBatch * r.sequenceLength
    && c[5] == r.attentionPerSequence * r.microBatch
    && c[6] == r.runtimeWorkspace
    && c[7] == r.quantizationOverhead
  }

  lemma ComponentsMean(r: Request)
    ensures Components(r).Ok? ==> Demands(r, Components(r).value)
  {
    hide CeilRatio, Product, IsCeiling;
    if Components(r).Ok? {
      CeilRatioMeans(r.modelParameters, r.weightBits, 8);
      TwoFactors(r.trainableParameters, 4);
      TwoFactors(r.trainableParameters, 8);
      ThreeFactors(r.activationPerToken, r.microBatch, r.sequenceLength);
      TwoFactors(r.attentionPerSequence, r.microBatch);
    }
  }

  /** For a valid request they are there exactly when the products stay in range; the weights and what is
      kept for each parameter always do. */
  lemma ComponentsExist(r: Request)
    requires ValidRequest(r)
    ensures Components(r).Ok? <==>
      && r.activationPerToken * r.microBatch * r.sequenceLength <= MAX_BYTES
      && r.attentionPerSequence * r.microBatch <= MAX_BYTES
  {
    hide CeilRatio, Product;
    WeightsFit(r.modelParameters, r.weightBits);
    TwoFactors(r.trainableParameters, 4);
    TwoFactors(r.trainableParameters, 8);
    ThreeFactors(r.activationPerToken, r.microBatch, r.sequenceLength);
    TwoFactors(r.attentionPerSequence, r.microBatch);
  }

  lemma WeightsFit(n: nat, bits: nat)
    requires n <= 1_000_000_000_000 && bits <= 32
    ensures CeilRatio(n, bits, 8).Ok?
  {
    hide CeilDiv;
    TimesGrows(n, 1_000_000_000_000, bits, 32);
    CeilDivIsLeast(n * bits, 8, 4_000_000_000_000);
  }

  /** What one checkpoint holds, in bytes. */
  function CheckpointState(r: Request, c: seq<nat>): nat
    requires |c| == 8
  {
    if r.method_.Full? then c[0] + c[1] + 8 * r.trainableParameters else 12 * r.trainableParameters
  }

  /** Two checkpoints, each with a tenth to spare, rounded up, and 4 KiB: for LoRA and QLoRA twelve bytes for
      each trainable parameter, for full training the weights, the master copy if there is one, and eight. */
  lemma CheckpointMeans(r: Request)
    requires Components(r).Ok? && Checkpoint(r, Components(r).value).Ok?
    ensures var c, value := Components(r).value, Checkpoint(r, Components(r).value).value;
      exists spare: nat :: IsCeiling(spare, CheckpointState(r, c) * 110, 100) && value == 2 * (spare + 4096)
  {
    hide CeilRatio, Product, Components, IsCeiling, Sum;
    var c := Components(r).value;
    ComponentsMean(r);
    TwoFactors(r.trainableParameters, 4);
    var weights := if r.method_.Full? then c[0] else Product([r.trainableParameters, 4]).value;
    var master := if r.method_.Full? then c[1] else 0;
    SumOfThree(weights, master, c[3]);
    var state := Sum([weights, master, c[3]]).value;
    assert state == CheckpointState(r, c);
    CeilRatioMeans(state, 110, 100);
    var spare := CeilRatio(state, 110, 100).value;
    SumOfTwo(spare, 4096);
    TwoFactors(Sum([spare, 4096]).value, 2);
  }

  lemma SumOfTwo(a: nat, b: nat)
    ensures Sum([a, b]).Ok? ==> Sum([a, b]).value == a + b
  {
    assert [a, b][..1] == [a] && [a][..0] == [];
    assert Sum([a]).Ok? ==> Sum([a]).value == a;
  }

  lemma SumOfThree(a: nat, b: nat, c: nat)
    ensures Sum([a, b, c]).Ok? ==> Sum([a, b, c]).value == a + b + c
  {
    assert [a, b, c][..2] == [a, b];
    SumOfTwo(a, b);
  }

  lemma SumOfEight(c: seq<nat>, last: nat)
    requires |c| == 8
    ensures Total(c) == c[0] + c[1] + c[2] + c[3] + c[4] + c[5] + c[6] + c[7]
    ensures Total(c + [last]) == Total(c) + last
  {
    assert (c + [last])[..8] == c;
    TotalStep(c, 1);
    TotalStep(c, 2);
    TotalStep(c, 3);
    TotalStep(c, 4);
    TotalStep(c, 5);
    TotalStep(c, 6);
    TotalStep(c, 7);
    TotalStep(c, 8);
    assert c[..8] == c && c[..0] == [];
  }

  lemma TotalStep(c: seq<nat>, k: nat)
    requires 0 < k <= |c|
    ensures Total(c[..k]) == Total(c[..k - 1]) + c[k - 1]
  {
    assert c[..k][..k - 1] == c[..k - 1];
  }

  /** The whole estimate: training is the sum of the demands with headroom, rounded up; the host needs its
      buffer with headroom, and on the processor the demands as well; shared memory is charged for both; the
      disk holds the checkpoints and what else was asked for. */
  ghost predicate Estimates(r: Request, unified: bool, e: Estimate) {
    && Demands(r, e.components)
    && (var c := e.components;
        var sum := c[0] + c[1] + c[2] + c[3] + c[4] + c[5] + c[6] + c[7];
        && IsCeiling(e.training, sum * (100 + r.headroomPercent), 100)
        && IsCeiling(e.host, ((if IsCpu(r) then sum else 0) + r.hostBuffer) * (100 + r.headroomPercent), 100)
        && e.shared == (if unified then Some(e.training + e.host) else None)
        && (exists spare: nat :: IsCeiling(spare, CheckpointState(r, c) * 110, 100) && e.checkpoint == 2 * (spare + 4096))
        && e.disk == e.checkpoint + r.additionalDisk)
  }

  lemma EstimateMeans(r: Request, unified: bool)
    requires EstimateOf(r, unified).Ok?
    ensures Estimates(r, unified, EstimateOf(r, unified).value)
  {
    hide Components, Checkpoint, CeilRatio, Sum, Total, IsCeiling;
    var e := EstimateOf(r, unified).value;
    var c := e.components;
    ComponentsMean(r);
    CheckpointMeans(r);
    SumIsExact(c);
    SumIsExact(c + [r.hostBuffer]);
    SumOfEight(c, r.hostBuffer);
    CeilRatioMeans(Sum(c).value, 100 + r.headroomPercent, 100);
    var hostSum := if IsCpu(r) then Sum(c + [r.hostBuffer]).value else r.hostBuffer;
    CeilRatioMeans(hostSum, 100 + r.headroomPercent, 100);
    SumOfTwo(e.training, e.host);
    SumOfTwo(e.checkpoint, r.additionalDisk);
  }

  // ---- what is kept in reserve ------------------------------------------------------------

  /** A quarter of the memory but no more than 2 GiB, at least 256 MiB, and at least what the request says. */
  lemma RamReserveMeans(total: nat, r: Request, n: nat)
    ensures RamReserve(total, r) <= n <==>
      r.reserveRam <= n && 268_435_456 <= n && (total / 4 <= n || 2_147_483_648 <= n)
  {
  }

  /** A tenth of the device, at least 128 MiB, and at least what the request says. */
  lemma DeviceReserveMeans(total: nat, r: Request, n: nat)
    ensures DeviceReserve(total, r) <= n <==> r.reserveDevice <= n && 134_217_728 <= n && total / 10 <= n
  {
  }

  /** A quarter of the free disk but no more than 1 GiB, at least 64 MiB, and at least what the request says. */
  lemma DiskReserveMeans(available: nat, r: Request, n: nat)
    ensures DiskReserve(available, r) <= n <==>
      r.reserveDisk <= n && 67_108_864 <= n && (available / 4 <= n || 1_073_741_824 <= n)
  {
  }

  /** All usable threads but one, though at least one, and no more than asked for or else eight. */
  lemma ThreadsMean(h: Hardware, r: Request, n: nat)
    requires h.usableThreads > 0 && n > 0
    ensures n <= Threads(h, r) <==>
      (n < h.usableThreads || n == 1) && n <= (if r.maxThreads.Some? then r.maxThreads.value else 8)
  {
  }

  // ---- the decision -----------------------------------------------------------------------

  predicate TooMuch(needed: nat, capacity: Option<nat>) {
    capacity.Some? && capacity.value < needed
  }

  /** Something is known to be too little, or the device asked for is not there. */
  predicate Short(r: Request, e: Estimate, b: Budgets) {
    var host, device := if e.shared.Some? then e.shared.value else e.host, if e.shared.Some? then e.shared.value else e.training;
    || TooMuch(host, b.ram) || TooMuch(host, r.maxMemory)
    || (!IsCpu(r) && TooMuch(device, b.gpu)) || TooMuch(device, r.maxDevice)
    || TooMuch(e.disk, b.disk) || TooMuch(e.disk, r.maxDisk)
    || (!IsCpu(r) && !b.observed)
  }

  /** Something needed is not known. */
  predicate Unsure(r: Request, b: Budgets) {
    b.ram.None? || b.disk.None? || (!IsCpu(r) && b.gpu.None?) || b.threads == 0
  }

  /** Refused when something is known to be short, else undecided when something is unknown, else admitted. */
  lemma DecisionMeans(r: Request, e: Estimate, b: Budgets)
    ensures Decide(r, e, b) == if Short(r, e, b) then Refused else if Unsure(r, b) then Insufficient else WithinBudget
  {
    assert Short(r, e, b) <==>
      || Applies(RamExceeded, r, e, b) || Applies(DeviceExceeded, r, e, b) || Applies(DiskExceeded, r, e, b)
      || Applies(DeviceNotObserved, r, e, b);
    assert Unsure(r, b) <==>
      || Applies(RamUnknown, r, e, b) || Applies(DeviceUnknown, r, e, b) || Applies(DiskUnknown, r, e, b)
      || Applies(ThreadsUnknown, r, e, b);
    hide Applies, Short, Unsure;
    assert Refuses(RamExceeded) && Refuses(DeviceExceeded) && Refuses(DiskExceeded) && Refuses(DeviceNotObserved);
    assert forall x :: Refuses(x) ==> x == RamExceeded || x == DeviceExceeded || x == DiskExceeded || x == DeviceNotObserved;
  }

  // ---- one request ------------------------------------------------------------------------

  /** QLoRA in four bits, with no two demands the same. */
  const SAMPLE: Request :=
    Request(REQUEST_SCHEMA, [109], [103], Qlora, 1001, 100, 4, 3, 7, 5, 11, 13, 17, 19, 23, 29, 31, 37, None, None, None,
            None, 41, 43, 47, 50, 25)

  lemma SampleIsThere()
    ensures ValidRequest(SAMPLE) && EstimateOf(SAMPLE, true).Ok?
  {
    hide CeilRatio, Product, Components, Checkpoint;
    ComponentsExist(SAMPLE);
    ComponentsMean(SAMPLE);
    var c := Components(SAMPLE).value;
    SampleDemands(c);
    SumIsExact(c);
    SumOfEight(c, 19);
    SmallCeiling(2411, 125);
    SmallCeiling(19, 125);
    SampleCheckpoint(c);
    SmallSum(Headroom(2411, SAMPLE).value, Headroom(19, SAMPLE).value);
    SmallSum(Checkpoint(SAMPLE, c).value, 29);
  }

  lemma SampleDemands(c: seq<nat>)
    requires Demands(SAMPLE, c)
    ensures c == [501, 400, 400, 800, 231, 39, 17, 23]
  {
    assert c[0] <= 501 <==> 4004 <= 501 * 8;
    assert c[0] <= 500 <==> 4004 <= 500 * 8;
  }

  lemma SmallCeiling(value: nat, numerator: nat)
    requires value <= 10_000 && numerator <= 200
    ensures CeilRatio(value, numerator, 100).Ok? && CeilRatio(value, numerator, 100).value <= 20_000
  {
    hide CeilDiv;
    TimesGrows(value, 10_000, numerator, 200);
    CeilDivIsLeast(value * numerator, 100, 20_000);
  }

  lemma SmallSum(a: nat, b: nat)
    requires a <= 1_000_000 && b <= 1_000_000
    ensures Sum([a, b]) == Ok(a + b)
  {
    assert [a, b][..1] == [a] && [a][..0] == [];
    assert Sum([a]) == Ok(a);
  }

  lemma SampleCheckpoint(c: seq<nat>)
    requires |c| == 8 && c[3] == 800
    ensures Checkpoint(SAMPLE, c).Ok? && Checkpoint(SAMPLE, c).value <= 100_000
  {
    hide CeilRatio, Product;
    TwoFactors(100, 4);
    assert [400, 0, 800][..2] == [400, 0];
    SmallSum(400, 0);
    assert Sum([400, 0, 800]) == Ok(1200);
    SmallCeiling(1200, 110);
    var spare := CeilRatio(1200, 110, 100).value;
    SmallSum(spare, 4096);
    TwoFactors(spare + 4096, 2);
  }

  /** Its estimate on a device that shares the machine's memory, number by number. */
  lemma SampleEstimate()
    ensures EstimateOf(SAMPLE, true) ==
      Ok(Estimate([501, 400, 400, 800, 231, 39, 17, 23], 3014, 24, Some(3038), 10_832, 10_861))
  {
    hide EstimateOf, Components, Checkpoint, ValidRequest;
    SampleIsThere();
    EstimateMeans(SAMPLE, true);
    var e := EstimateOf(SAMPLE, true).value;
    SampleDemands(e.components);
    assert e.training <= 3014 <==> 2411 * 125 <= 3014 * 100;
    assert e.training <= 3013 <==> 2411 * 125 <= 3013 * 100;
    assert e.host <= 24 <==> 19 * 125 <= 24 * 100;
    assert e.host <= 23 <==> 19 * 125 <= 23 * 100;
    var spare: nat :| IsCeiling(spare, 1200 * 110, 100) && e.checkpoint == 2 * (spare + 4096);
    assert spare <= 1320 <==> 1200 * 110 <= 1320 * 100;
    assert spare <= 1319 <==> 1200 * 110 <= 1319 * 100;
  }
}
