/** The offline resource planner of src/ai.rs: bounded integer estimates, budgets from what was observed, the
    decision and its reasons, and the cooperative resource guard. */
module Planner {
  import opened Prelude
  import opened Arithmetic

  const MAX_BYTES: nat := 4_503_599_627_370_496
  const MIB: nat := 1_048_576
  const GIB: nat := 1_073_741_824

  const MAX_LIMITS: nat := 128
  const MAX_DEVICES: nat := 16

  /** UTF-8 text as its bytes. */
  type Label = seq<nat>

  const REQUEST_SCHEMA: string := "goblin.ai-plan-request.v1"
  const HARDWARE_SCHEMA: string := "goblin.ai-hardware.v1"

  const CPU: Label := [99, 112, 117]

  datatype Method = Full | Lora | Qlora

  datatype Request = Request(
    schema: string,
    model: Label,
    device: Label,
    method_: Method,
    modelParameters: nat,
    trainableParameters: nat,
    weightBits: nat,
    microBatch: nat,
    sequenceLength: nat,
    gradientAccumulation: nat,
    activationPerToken: nat,
    attentionPerSequence: nat,
    runtimeWorkspace: nat,
    hostBuffer: nat,
    quantizationOverhead: nat,
    additionalDisk: nat,
    maxSteps: nat,
    maxSeconds: nat,
    maxThreads: Option<nat>,
    maxMemory: Option<nat>,
    maxDevice: Option<nat>,
    maxDisk: Option<nat>,
    reserveRam: nat,
    reserveDevice: nat,
    reserveDisk: nat,
    memoryPercent: nat,
    headroomPercent: nat)

  datatype MemoryLimit = MemoryLimit(source: Label, limitBytes: nat, currentBytes: Option<nat>)

  datatype Device = Device(
    id: Label,
    name: Label,
    api: Label,
    unified: bool,
    totalBytes: Option<nat>,
    availableBytes: Option<nat>,
    workingSet: Option<nat>,
    executionTested: bool)

  /** An observation; `timed` tells whether its time stamp is one (RFC 3339). */
  datatype Hardware = Hardware(
    schema: string,
    timed: bool,
    os: Label,
    architecture: Label,
    features: seq<Label>,
    observations: seq<Label>,
    usableThreads: nat,
    totalRam: Option<nat>,
    availableRam: Option<nat>,
    limits: seq<MemoryLimit>,
    availableDisk: Option<nat>,
    devices: seq<Device>)

  predicate Within(o: Option<nat>) {
    o.Some? ==> o.value <= MAX_BYTES
  }

  predicate IsCpu(r: Request) {
    r.device == CPU
  }

  predicate ValidLabel(l: Label, most: nat) {
    0 < |l| <= most && NoControl(l)
  }

  predicate Short(texts: seq<Label>, count: nat, length: nat) {
    |texts| <= count && forall i | 0 <= i < |texts| :: |texts[i]| <= length
  }

  /** `validate_request`. */
  predicate ValidRequest(r: Request) {
    && r.schema == REQUEST_SCHEMA && ValidLabel(r.model, 128) && ValidLabel(r.device, 64)
    && 1 <= r.modelParameters <= 1_000_000_000_000 && 1 <= r.trainableParameters <= r.modelParameters
    && (r.weightBits == 4 || r.weightBits == 8 || r.weightBits == 16 || r.weightBits == 32)
    && 1 <= r.microBatch <= 65_536 && 1 <= r.sequenceLength <= 1_048_576 && 1 <= r.gradientAccumulation <= 1_000_000
    && r.activationPerToken > 0 && r.runtimeWorkspace > 0
    && 1 <= r.maxSteps <= 1_000_000_000 && 1 <= r.maxSeconds <= 604_800
    && (r.maxThreads.Some? ==> 1 <= r.maxThreads.value <= 65_536)
    && 1 <= r.memoryPercent <= 80 && 20 <= r.headroomPercent <= 100
    && r.activationPerToken <= MAX_BYTES && r.attentionPerSequence <= MAX_BYTES && r.runtimeWorkspace <= MAX_BYTES
    && r.hostBuffer <= MAX_BYTES && r.quantizationOverhead <= MAX_BYTES && r.additionalDisk <= MAX_BYTES
    && r.reserveRam <= MAX_BYTES && r.reserveDevice <= MAX_BYTES && r.reserveDisk <= MAX_BYTES
    && Within(r.maxMemory) && Within(r.maxDevice) && Within(r.maxDisk)
    && (r.method_.Full? ==> r.trainableParameters == r.modelParameters && r.weightBits >= 16)
    && (r.method_.Lora? ==> r.weightBits >= 16)
    && (r.method_.Qlora? ==> r.weightBits <= 8 && r.quantizationOverhead > 0)
    && (!r.method_.Qlora? ==> r.quantizationOverhead == 0)
    && (IsCpu(r) ==> r.maxDevice.None? && r.reserveDevice == 0)
  }

  /** `ai_hardware::validate`. */
  predicate ValidHardware(h: Hardware) {
    && h.schema == HARDWARE_SCHEMA && h.timed && |h.os| <= 32 && |h.architecture| <= 32
    && Short(h.features, 32, 40) && Short(h.observations, 64, 256)
    && h.usableThreads <= 65_536 && |h.limits| <= MAX_LIMITS && |h.devices| <= MAX_DEVICES
    && Within(h.totalRam) && Within(h.availableRam) && Within(h.availableDisk)
    && (h.totalRam.Some? && h.availableRam.Some? ==> h.availableRam.value <= h.totalRam.value)
    && (forall i | 0 <= i < |h.limits| :: ValidLimit(h.limits[i]))
    && (forall i | 0 <= i < |h.devices| :: ValidDevice(h.devices[i]))
    && (forall i, j | 0 <= i < j < |h.devices| :: h.devices[i].id != h.devices[j].id)
  }

  predicate ValidLimit(m: MemoryLimit) {
    |m.source| <= 96 && m.limitBytes <= MAX_BYTES && Within(m.currentBytes)
  }

  predicate ValidDevice(d: Device) {
    && |d.id| <= 64 && |d.name| <= 128 && |d.api| <= 32 && !d.executionTested
    && Within(d.totalBytes) && Within(d.availableBytes) && Within(d.workingSet)
    && (d.totalBytes.Some? && d.availableBytes.Some? ==> d.availableBytes.value <= d.totalBytes.value)
  }

  // ---- bounded arithmetic -----------------------------------------------------------------

  function Bounded(n: nat): Res<nat> {
    if n <= MAX_BYTES then Ok(n) else Err
  }

  function Total(values: seq<nat>): nat {
    if |values| == 0 then 0 else Total(values[..|values| - 1]) + values[|values| - 1]
  }

  /** `sum`: every partial sum must stay in range. */
  function Sum(values: seq<nat>): Res<nat> {
    if |values| == 0 then Ok(0)
    else
      var before :- Sum(values[..|values| - 1]);
      Bounded(before + values[|values| - 1])
  }

  function Times(values: seq<nat>): nat {
    if |values| == 0 then 1 else Times(values[..|values| - 1]) * values[|values| - 1]
  }

  /** `product`: every partial product must stay in range. */
  function Product(values: seq<nat>): Res<nat> {
    if |values| == 0 then Ok(1)
    else
      var before :- Product(values[..|values| - 1]);
      Bounded(before * values[|values| - 1])
  }

  function CeilDiv(n: nat, d: nat): nat
    requires d > 0
  {
    (n + d - 1) / d
  }

  function CeilRatio(value: nat, numerator: nat, denominator: nat): Res<nat>
    requires denominator > 0
  {
    Bounded(CeilDiv(value * numerator, denominator))
  }

  /** A bounded sum is the sum, refused exactly when the sum is out of range. */
  lemma {:induction false} SumIsExact(values: seq<nat>)
    ensures Sum(values) == Bounded(Total(values))
  {
    if |values| > 0 {
      SumIsExact(values[..|values| - 1]);
    }
  }

  /** So is a bounded product of positive factors; a zero factor cannot mend what came before it. */
  lemma {:induction false} ProductIsExact(values: seq<nat>)
    ensures Product(values).Ok? ==> Product(values).value == Times(values) <= MAX_BYTES
    ensures (forall i | 0 <= i < |values| :: values[i] > 0) ==> Product(values) == Bounded(Times(values)) && Times(values) > 0
  {
    if |values| > 0 {
      var n := |values| - 1;
      ProductIsExact(values[..n]);
      if forall i | 0 <= i < |values| :: values[i] > 0 {
        LessTimes(0, values[n], Times(values[..n]));
      }
    }
  }

  /** The least whole number not below the ratio. */
  lemma CeilRatioIsLeast(value: nat, numerator: nat, denominator: nat, n: nat)
    requires denominator > 0 && CeilRatio(value, numerator, denominator).Ok?
    ensures CeilRatio(value, numerator, denominator).value <= n <==> value * numerator <= n * denominator
  {
    CeilDivIsLeast(value * numerator, denominator, n);
  }

  lemma CeilDivIsLeast(m: nat, d: nat, n: nat)
    requires d > 0
    ensures CeilDiv(m, d) <= n <==> m <= n * d
  {
    var q := CeilDiv(m, d);
    assert m + d - 1 == q * d + (m + d - 1) % d;
    LessTimes(n, q, d);
    LessTimes(q, n, d);
  }

  // ---- monotone arithmetic ----------------------------------------------------------------

  /** Nothing larger than before, and no refusal that was not there before. */
  predicate AtMost(a: Res<nat>, b: Res<nat>) {
    b.Ok? ==> a.Ok? && a.value <= b.value
  }

  predicate Pointwise(a: seq<nat>, b: seq<nat>) {
    |a| == |b| && forall i | 0 <= i < |a| :: a[i] <= b[i]
  }

  lemma {:induction false} SumGrows(a: seq<nat>, b: seq<nat>)
    requires Pointwise(a, b)
    ensures AtMost(Sum(a), Sum(b))
  {
    if |a| > 0 {
      SumGrows(a[..|a| - 1], b[..|b| - 1]);
    }
  }

  lemma TimesGrows(a: nat, b: nat, c: nat, d: nat)
    requires a <= b && c <= d
    ensures a * c <= b * d
  {
    NonNegative(b - a, c);
    NonNegative(b, d - c);
    assert b * d == a * c + (b - a) * c + b * (d - c);
  }

  lemma {:induction false} ProductGrows(a: seq<nat>, b: seq<nat>)
    requires Pointwise(a, b)
    ensures AtMost(Product(a), Product(b))
  {
    if |a| > 0 {
      var n := |a| - 1;
      ProductGrows(a[..n], b[..n]);
      if Product(b[..n]).Ok? {
        TimesGrows(Product(a[..n]).value, Product(b[..n]).value, a[n], b[n]);
      }
    }
  }

  lemma CeilRatioGrows(a: nat, b: nat, c: nat, d: nat, denominator: nat)
    requires a <= b && c <= d && denominator > 0
    ensures AtMost(CeilRatio(a, c, denominator), CeilRatio(b, d, denominator))
  {
    TimesGrows(a, b, c, d);
    var m, n := a * c, b * d;
    CeilDivIsLeast(n, denominator, CeilDiv(n, denominator));
    CeilDivIsLeast(m, denominator, CeilDiv(n, denominator));
  }

  // ---- the estimate -----------------------------------------------------------------------

  datatype Estimate = Estimate(
    components: seq<nat>,
    training: nat,
    host: nat,
    shared: Option<nat>,
    checkpoint: nat,
    disk: nat)

  function Headroom(value: nat, r: Request): Res<nat> {
    CeilRatio(value, 100 + r.headroomPercent, 100)
  }

  /** Base weights, trainable and master weights, gradients, optimiser states, activations, attention,
      runtime and quantisation. */
  function Components(r: Request): (c: Res<seq<nat>>)
    ensures c.Ok? ==> |c.value| == 8
  {
    var base :- CeilRatio(r.modelParameters, r.weightBits, 8);
    var trainable :- if r.method_.Full? && r.weightBits != 16 then Ok(0) else Product([r.trainableParameters, 4]);
    var gradients :- Product([r.trainableParameters, 4]);
    var adam :- Product([r.trainableParameters, 8]);
    var activations :- Product([r.activationPerToken, r.microBatch, r.sequenceLength]);
    var attention :- Product([r.attentionPerSequence, r.microBatch]);
    Ok([base, trainable, gradients, adam, activations, attention, r.runtimeWorkspace, r.quantizationOverhead])
  }

  /** Two checkpoint generations with a tenth and 4 KiB to spare. */
  function Checkpoint(r: Request, c: seq<nat>): Res<nat>
    requires |c| == 8
  {
    var weights :- if r.method_.Full? then Ok(c[0]) else Product([r.trainableParameters, 4]);
    var state :- Sum([weights, if r.method_.Full? then c[1] else 0, c[3]]);
    var spare :- CeilRatio(state, 110, 100);
    var one :- Sum([spare, 4096]);
    Product([one, 2])
  }

  function EstimateOf(r: Request, unified: bool): Res<Estimate> {
    var c :- Components(r);
    var sum :- Sum(c);
    var training :- Headroom(sum, r);
    var hostSum :- if IsCpu(r) then Sum(c + [r.hostBuffer]) else Ok(r.hostBuffer);
    var host :- Headroom(hostSum, r);
    var both :- if unified then Sum([training, host]) else Ok(0);
    var checkpoint :- Checkpoint(r, c);
    var disk :- Sum([checkpoint, r.additionalDisk]);
    Ok(Estimate(c, training, host, if unified then Some(both) else None, checkpoint, disk))
  }

  // ---- budgets ----------------------------------------------------------------------------

  function Min(a: nat, b: nat): nat {
    if a < b then a else b
  }

  function Max(a: nat, b: nat): nat {
    if a < b then b else a
  }

  function Clamp(x: nat, low: nat, high: nat): nat {
    if x < low then low else if x > high then high else x
  }

  function Less(a: nat, b: nat): nat {
    if a < b then 0 else a - b
  }

  function Cap(value: Option<nat>, maximum: Option<nat>): Option<nat> {
    if value.Some? && maximum.Some? then Some(Min(value.value, maximum.value)) else value
  }

  function LeastLimit(total: nat, limits: seq<MemoryLimit>): nat {
    if |limits| == 0 then total else Min(LeastLimit(total, limits[..|limits| - 1]), limits[|limits| - 1].limitBytes)
  }

  function LeastRemaining(available: nat, limits: seq<MemoryLimit>): Option<nat> {
    if |limits| == 0 then Some(available)
    else
      var before, last := LeastRemaining(available, limits[..|limits| - 1]), limits[|limits| - 1];
      if before.None? || last.currentBytes.None? then None
      else Some(Min(before.value, Less(last.limitBytes, last.currentBytes.value)))
  }

  function RamReserve(total: nat, r: Request): nat {
    Max(Clamp(total / 4, 256 * MIB, 2 * GIB), r.reserveRam)
  }

  function RamBudget(h: Hardware, r: Request): Option<nat> {
    if h.totalRam.None? || h.availableRam.None? then None
    else
      var total, available := LeastLimit(h.totalRam.value, h.limits), LeastRemaining(h.availableRam.value, h.limits);
      if available.None? then None
      else
        var reserve := RamReserve(total, r);
        Cap(Some(Min(Min(Less(available.value, reserve), Less(total, reserve)), total * r.memoryPercent / 100)), r.maxMemory)
  }

  /** `ram_budget`: one pass over the visible memory limits. */
  method RamBudgetOf(h: Hardware, r: Request) returns (budget: Option<nat>)
    ensures budget == RamBudget(h, r)
  {
    hide RamReserve;
    if h.totalRam.None? || h.availableRam.None? {
      return None;
    }
    var total, available := h.totalRam.value, h.availableRam.value;
    for i := 0 to |h.limits|
      invariant total == LeastLimit(h.totalRam.value, h.limits[..i])
      invariant Some(available) == LeastRemaining(h.availableRam.value, h.limits[..i])
    {
      var limit := h.limits[i];
      LimitsGrow(h, i);
      total := Min(total, limit.limitBytes);
      if limit.currentBytes.None? {
        UnknownStays(h.availableRam.value, h.limits, i + 1);
        return None;
      }
      available := Min(available, Less(limit.limitBytes, limit.currentBytes.value));
    }
    assert h.limits[..|h.limits|] == h.limits;
    var reserve := RamReserve(total, r);
    var percent := total * r.memoryPercent / 100;
    budget := Cap(Some(Min(Min(Less(available, reserve), Less(total, reserve)), percent)), r.maxMemory);
  }

  lemma LimitsGrow(h: Hardware, i: nat)
    requires i < |h.limits|
    ensures h.limits[..i + 1][..i] == h.limits[..i] && h.limits[..i + 1][i] == h.limits[i]
  {
  }

  lemma {:induction false} UnknownStays(available: nat, limits: seq<MemoryLimit>, i: nat)
    requires i <= |limits| && LeastRemaining(available, limits[..i]).None?
    ensures LeastRemaining(available, limits).None?
    decreases |limits| - i
  {
    if i < |limits| {
      assert limits[..i + 1][..i] == limits[..i];
      UnknownStays(available, limits, i + 1);
    } else {
      assert limits[..i] == limits;
    }
  }

  function DeviceReserve(total: nat, r: Request): nat {
    Max(Max(total / 10, 128 * MIB), r.reserveDevice)
  }

  function FindDevice(devices: seq<Device>, id: Label): Option<Device> {
    if |devices| == 0 then None else if devices[0].id == id then Some(devices[0]) else FindDevice(devices[1..], id)
  }

  function DeviceOf(h: Hardware, r: Request): Option<Device> {
    if IsCpu(r) then None else FindDevice(h.devices, r.device)
  }

  function DeviceBudget(d: Device, ram: Option<nat>, r: Request): Option<nat> {
    var budget :=
      if d.unified then
        if ram.None? then None
        else Some(Less(if d.workingSet.Some? then Min(ram.value, d.workingSet.value) else ram.value, r.reserveDevice))
      else if d.totalBytes.Some? && d.availableBytes.Some? then
        var reserve := DeviceReserve(d.totalBytes.value, r);
        Some(Min(Less(d.availableBytes.value, reserve), Less(d.totalBytes.value, reserve)))
      else None;
    Cap(budget, r.maxDevice)
  }

  function DiskReserve(available: nat, r: Request): nat {
    Max(Clamp(available / 4, 64 * MIB, GIB), r.reserveDisk)
  }

  function DiskBudget(h: Hardware, r: Request): Option<nat> {
    if h.availableDisk.None? then None
    else Cap(Some(Less(h.availableDisk.value, DiskReserve(h.availableDisk.value, r))), r.maxDisk)
  }

  function Threads(h: Hardware, r: Request): nat {
    if h.usableThreads == 0 then 0
    else Min(Max(Less(h.usableThreads, 1), 1), if r.maxThreads.Some? then r.maxThreads.value else 8)
  }

  // ---- the decision -----------------------------------------------------------------------

  datatype Reason =
    | RamUnknown | RamExceeded
    | DeviceUnknown | DeviceExceeded
    | DiskUnknown | DiskExceeded
    | ThreadsUnknown | DeviceNotObserved

  datatype Decision = WithinBudget | Refused | Insufficient

  datatype Limits = Limits(ram: Option<nat>, device: Option<nat>, disk: Option<nat>, threads: nat, steps: nat, seconds: nat)

  datatype Plan = Plan(decision: Decision, reasons: seq<Reason>, estimate: Estimate, limits: Limits)

  predicate Refuses(reason: Reason) {
    match reason
    case RamExceeded => true
    case DeviceExceeded => true
    case DiskExceeded => true
    case DeviceNotObserved => true
    case _ => false
  }

  predicate Exceeds(needed: nat, capacity: Option<nat>) {
    capacity.Some? && needed > capacity.value
  }

  function UnifiedOf(h: Hardware, r: Request): bool {
    DeviceOf(h, r).Some? && DeviceOf(h, r).value.unified
  }

  function RamNeed(e: Estimate): nat {
    if e.shared.Some? then e.shared.value else e.host
  }

  function DeviceNeed(e: Estimate): nat {
    if e.shared.Some? then e.shared.value else e.training
  }

  function GpuBudget(h: Hardware, r: Request): Option<nat> {
    if DeviceOf(h, r).Some? then DeviceBudget(DeviceOf(h, r).value, RamBudget(h, r), r) else None
  }

  /** What is known of the machine, as far as a request is concerned. */
  datatype Budgets = Budgets(ram: Option<nat>, gpu: Option<nat>, disk: Option<nat>, threads: nat, observed: bool)

  function BudgetsOf(h: Hardware, r: Request): Budgets {
    Budgets(RamBudget(h, r), GpuBudget(h, r), DiskBudget(h, r), Threads(h, r), DeviceOf(h, r).Some?)
  }

  /** When each reason is recorded. */
  predicate Applies(reason: Reason, r: Request, e: Estimate, b: Budgets) {
    match reason
    case RamUnknown => b.ram.None?
    case RamExceeded => Exceeds(RamNeed(e), b.ram) || Exceeds(RamNeed(e), r.maxMemory)
    case DeviceUnknown => !IsCpu(r) && b.gpu.None?
    case DeviceExceeded => (!IsCpu(r) && Exceeds(DeviceNeed(e), b.gpu)) || Exceeds(DeviceNeed(e), r.maxDevice)
    case DiskUnknown => b.disk.None?
    case DiskExceeded => Exceeds(e.disk, b.disk) || Exceeds(e.disk, r.maxDisk)
    case ThreadsUnknown => b.threads == 0
    case DeviceNotObserved => !IsCpu(r) && !b.observed
  }

  predicate Distinct(reasons: seq<Reason>) {
    forall i, j | 0 <= i < j < |reasons| :: reasons[i] != reasons[j]
  }

  /** What the notes taken so far amount to. */
  predicate Noted(reasons: seq<Reason>, refused: bool, unknown: bool) {
    && Distinct(reasons)
    && (refused <==> exists i :: 0 <= i < |reasons| && Refuses(reasons[i]))
    && (unknown <==> exists i :: 0 <= i < |reasons| && !Refuses(reasons[i]))
  }

  method Note(reasons: seq<Reason>, refused: bool, unknown: bool, reason: Reason)
    returns (rs: seq<Reason>, nowRefused: bool, nowUnknown: bool)
    requires Noted(reasons, refused, unknown)
    ensures Noted(rs, nowRefused, nowUnknown)
    ensures forall x :: x in rs <==> x in reasons || x == reason
  {
    nowRefused, nowUnknown := refused || Refuses(reason), unknown || !Refuses(reason);
    if reason in reasons {
      rs := reasons;
    } else {
      rs := reasons + [reason];
      assert forall i | 0 <= i < |reasons| :: rs[i] == reasons[i];
      assert rs[|reasons|] == reason;
    }
  }

  /** The closure `check`: an unknown capacity and an exceeded one are different notes. */
  method Check(reasons: seq<Reason>, refused: bool, unknown: bool, capacity: Option<nat>, needed: nat, missing: Reason, exceeded: Reason)
    returns (rs: seq<Reason>, nowRefused: bool, nowUnknown: bool)
    requires Noted(reasons, refused, unknown)
    ensures Noted(rs, nowRefused, nowUnknown)
    ensures forall x :: x in rs <==> x in reasons || (x == missing && capacity.None?) || (x == exceeded && Exceeds(needed, capacity))
  {
    hide Noted;
    rs, nowRefused, nowUnknown := reasons, refused, unknown;
    if capacity.None? {
      rs, nowRefused, nowUnknown := Note(reasons, refused, unknown, missing);
    } else if needed > capacity.value {
      rs, nowRefused, nowUnknown := Note(reasons, refused, unknown, exceeded);
    }
  }

  /** An explicit ceiling refuses even where the capacity is unknown; it never admits. */
  method Ceiling(reasons: seq<Reason>, refused: bool, unknown: bool, maximum: Option<nat>, needed: nat, reason: Reason)
    returns (rs: seq<Reason>, nowRefused: bool, nowUnknown: bool)
    requires Noted(reasons, refused, unknown)
    ensures Noted(rs, nowRefused, nowUnknown)
    ensures forall x :: x in rs <==> x in reasons || (x == reason && Exceeds(needed, maximum))
  {
    hide Noted;
    rs, nowRefused, nowUnknown := reasons, refused, unknown;
    if maximum.Some? && needed > maximum.value {
      rs, nowRefused, nowUnknown := Note(reasons, refused, unknown, reason);
    }
  }

  /** The notes on capacities. */
  predicate CapacityNote(reason: Reason, r: Request, e: Estimate, b: Budgets) {
    match reason
    case RamUnknown => b.ram.None?
    case RamExceeded => Exceeds(RamNeed(e), b.ram)
    case DeviceUnknown => !IsCpu(r) && b.gpu.None?
    case DeviceExceeded => !IsCpu(r) && Exceeds(DeviceNeed(e), b.gpu)
    case DiskUnknown => b.disk.None?
    case DiskExceeded => Exceeds(e.disk, b.disk)
    case _ => false
  }

  method NoteCapacities(r: Request, e: Estimate, b: Budgets) returns (reasons: seq<Reason>, refused: bool, unknown: bool)
    ensures Noted(reasons, refused, unknown)
    ensures forall x :: x in reasons <==> CapacityNote(x, r, e, b)
  {
    hide Noted, RamNeed, DeviceNeed, Exceeds;
    reasons, refused, unknown := [], false, false;
    NothingNoted();
    reasons, refused, unknown := Check(reasons, refused, unknown, b.ram, RamNeed(e), RamUnknown, RamExceeded);
    if !IsCpu(r) {
      reasons, refused, unknown := Check(reasons, refused, unknown, b.gpu, DeviceNeed(e), DeviceUnknown, DeviceExceeded);
    }
    reasons, refused, unknown := Check(reasons, refused, unknown, b.disk, e.disk, DiskUnknown, DiskExceeded);
  }

  method NoteAll(r: Request, e: Estimate, b: Budgets) returns (reasons: seq<Reason>, refused: bool, unknown: bool)
    ensures Noted(reasons, refused, unknown)
    ensures forall x :: x in reasons <==> Applies(x, r, e, b)
  {
    hide Noted, RamNeed, DeviceNeed, Exceeds;
    reasons, refused, unknown := NoteCapacities(r, e, b);
    reasons, refused, unknown := Ceiling(reasons, refused, unknown, r.maxMemory, RamNeed(e), RamExceeded);
    reasons, refused, unknown := Ceiling(reasons, refused, unknown, r.maxDevice, DeviceNeed(e), DeviceExceeded);
    reasons, refused, unknown := Ceiling(reasons, refused, unknown, r.maxDisk, e.disk, DiskExceeded);
    if b.threads == 0 {
      reasons, refused, unknown := Note(reasons, refused, unknown, ThreadsUnknown);
    }
    if !IsCpu(r) && !b.observed {
      reasons, refused, unknown := Note(reasons, refused, unknown, DeviceNotObserved);
    }
  }

  lemma NothingNoted()
    ensures Noted([], false, false)
  {
  }

  /** `plan`: every reason that applies is recorded once and no other; the decision follows from the reasons,
      a refusal before missing information. */
  method MakePlan(h: Hardware, r: Request) returns (p: Res<Plan>)
    ensures p.Ok? <==> ValidHardware(h) && ValidRequest(r) && EstimateOf(r, UnifiedOf(h, r)).Ok?
    ensures p.Ok? ==>
      && p.value.estimate == EstimateOf(r, UnifiedOf(h, r)).value
      && p.value.limits == Limits(RamBudget(h, r), GpuBudget(h, r), DiskBudget(h, r), Threads(h, r), r.maxSteps, r.maxSeconds)
      && Distinct(p.value.reasons)
      && (forall x :: x in p.value.reasons <==> Applies(x, r, p.value.estimate, BudgetsOf(h, r)))
      && p.value.decision == Decide(r, p.value.estimate, BudgetsOf(h, r))
      && (p.value.decision == WithinBudget <==> p.value.reasons == [])
  {
    hide RamBudget, DiskBudget, DeviceBudget, EstimateOf, Threads, DeviceOf, ValidHardware, ValidRequest, Applies;
    if !ValidHardware(h) || !ValidRequest(r) {
      return Err;
    }
    var device := DeviceOf(h, r);
    var e :- EstimateOf(r, UnifiedOf(h, r));
    var ram := RamBudgetOf(h, r);
    var gpu := if device.Some? then DeviceBudget(device.value, ram, r) else None;
    var disk := DiskBudget(h, r);
    var threads := Threads(h, r);
    var b := Budgets(ram, gpu, disk, threads, device.Some?);
    var reasons, refused, unknown := NoteAll(r, e, b);
    var decision := if refused then Refused else if unknown then Insufficient else WithinBudget;
    DecisionFollows(r, e, b, reasons, refused, unknown);
    p := Ok(Plan(decision, reasons, e, Limits(ram, gpu, disk, threads, r.maxSteps, r.maxSeconds)));
  }

  /** A known refusal comes before missing information. */
  ghost function Decide(r: Request, e: Estimate, b: Budgets): Decision {
    if exists x :: Refuses(x) && Applies(x, r, e, b) then Refused
    else if exists x :: Applies(x, r, e, b) then Insufficient
    else WithinBudget
  }

  lemma DecisionFollows(r: Request, e: Estimate, b: Budgets, reasons: seq<Reason>, refused: bool, unknown: bool)
    requires Noted(reasons, refused, unknown) && forall x :: x in reasons <==> Applies(x, r, e, b)
    ensures refused <==> Decide(r, e, b) == Refused
    ensures !refused && unknown <==> Decide(r, e, b) == Insufficient
    ensures reasons == [] <==> Decide(r, e, b) == WithinBudget
  {
    hide Applies, Refuses;
    if reasons != [] {
      assert Applies(reasons[0], r, e, b);
    }
  }
}
