/** What an admission by the planner means, when it survives, and the cooperative guard of src/ai.rs. */
module Admission {
  import opened Prelude
  import opened Arithmetic
  import opened Planner

  // ---- the resources an admission needs ---------------------------------------------------

  /** `amount` bytes of memory are there: besides the reserve they fit in what is available, in the total and
      in what every limit leaves, and they keep to the percentage and the explicit ceiling. */
  predicate RamCovers(h: Hardware, r: Request, amount: nat) {
    && h.totalRam.Some? && h.availableRam.Some?
    && (forall i | 0 <= i < |h.limits| :: h.limits[i].currentBytes.Some?)
    && (var total := LeastLimit(h.totalRam.value, h.limits);
        && (amount > 0 ==> RamHolds(h, amount + RamReserve(total, r)))
        && amount * 100 <= total * r.memoryPercent)
    && (r.maxMemory.Some? ==> amount <= r.maxMemory.value)
  }

  /** So many bytes fit everywhere at once. */
  predicate RamHolds(h: Hardware, bytes: nat)
    requires h.totalRam.Some? && h.availableRam.Some?
    requires forall i | 0 <= i < |h.limits| :: h.limits[i].currentBytes.Some?
  {
    && bytes <= h.availableRam.value && bytes <= h.totalRam.value
    && forall i | 0 <= i < |h.limits| :: h.limits[i].currentBytes.value + bytes <= h.limits[i].limitBytes
  }

  /** Device memory: one shared pool with the host where memory is unified, its own otherwise. */
  predicate DeviceCovers(h: Hardware, d: Device, r: Request, amount: nat) {
    && (r.maxDevice.Some? ==> amount <= r.maxDevice.value)
    && if d.unified then
         && RamCovers(h, r, amount + r.reserveDevice)
         && (d.workingSet.Some? ==> amount + r.reserveDevice <= d.workingSet.value)
       else
         && d.totalBytes.Some? && d.availableBytes.Some?
         && amount + DeviceReserve(d.totalBytes.value, r) <= d.availableBytes.value
  }

  predicate DiskCovers(h: Hardware, r: Request, amount: nat) {
    && h.availableDisk.Some? && amount + DiskReserve(h.availableDisk.value, r) <= h.availableDisk.value
    && (r.maxDisk.Some? ==> amount <= r.maxDisk.value)
  }

  predicate Suffices(h: Hardware, r: Request, e: Estimate) {
    && RamCovers(h, r, RamNeed(e))
    && (!IsCpu(r) ==> DeviceOf(h, r).Some? && DeviceCovers(h, DeviceOf(h, r).value, r, DeviceNeed(e)))
    && DiskCovers(h, r, e.disk)
    && h.usableThreads > 0
  }

  lemma {:induction false} LeastLimitIsLeast(total: nat, limits: seq<MemoryLimit>, x: nat)
    ensures x <= LeastLimit(total, limits) <==> x <= total && forall i | 0 <= i < |limits| :: x <= limits[i].limitBytes
  {
    if |limits| > 0 {
      LeastLimitIsLeast(total, limits[..|limits| - 1], x);
    }
  }

  lemma {:induction false} LeastRemainingIsLeast(available: nat, limits: seq<MemoryLimit>, x: nat)
    ensures LeastRemaining(available, limits).Some? <==> forall i | 0 <= i < |limits| :: limits[i].currentBytes.Some?
    ensures LeastRemaining(available, limits).Some? && x > 0 ==>
      (x <= LeastRemaining(available, limits).value
       <==> x <= available && forall i | 0 <= i < |limits| :: limits[i].currentBytes.value + x <= limits[i].limitBytes)
  {
    if |limits| > 0 {
      LeastRemainingIsLeast(available, limits[..|limits| - 1], x);
    }
  }

  lemma PercentIsExact(amount: nat, whole: nat)
    ensures amount <= whole / 100 <==> amount * 100 <= whole
  {
  }

  /** An amount is within the memory budget exactly when it is covered. */
  lemma RamBudgetExactly(h: Hardware, r: Request, amount: nat)
    ensures RamBudget(h, r).Some? && amount <= RamBudget(h, r).value <==> RamCovers(h, r, amount)
    ensures RamBudget(h, r).Some? <==>
      h.totalRam.Some? && h.availableRam.Some? && forall i | 0 <= i < |h.limits| :: h.limits[i].currentBytes.Some?
  {
    hide RamReserve, LeastLimit, LeastRemaining;
    if h.totalRam.Some? && h.availableRam.Some? {
      var total := LeastLimit(h.totalRam.value, h.limits);
      var x := amount + RamReserve(total, r);
      LeastLimitIsLeast(h.totalRam.value, h.limits, x);
      LeastRemainingIsLeast(h.availableRam.value, h.limits, x);
      PercentIsExact(amount, total * r.memoryPercent);
      if LeastRemaining(h.availableRam.value, h.limits).Some? {
        RamHoldsExactly(h, x);
      }
    }
  }

  /** The least limit adds nothing to the limits' remainders but the total. */
  lemma RamHoldsExactly(h: Hardware, x: nat)
    requires h.totalRam.Some? && h.availableRam.Some?
    requires forall i | 0 <= i < |h.limits| :: h.limits[i].currentBytes.Some?
    ensures LeastRemaining(h.availableRam.value, h.limits).Some?
    ensures x > 0 ==>
      (RamHolds(h, x) <==> x <= LeastRemaining(h.availableRam.value, h.limits).value && x <= LeastLimit(h.totalRam.value, h.limits))
  {
    hide LeastLimit, LeastRemaining;
    LeastLimitIsLeast(h.totalRam.value, h.limits, x);
    LeastRemainingIsLeast(h.availableRam.value, h.limits, x);
  }

  lemma DeviceBudgetExactly(h: Hardware, d: Device, r: Request, amount: nat)
    requires amount > 0 && ValidDevice(d)
    ensures var budget := DeviceBudget(d, RamBudget(h, r), r);
      budget.Some? && amount <= budget.value && !Exceeds(amount, r.maxDevice) <==> DeviceCovers(h, d, r, amount)
  {
    hide RamBudget, RamCovers, DeviceReserve;
    RamBudgetExactly(h, r, amount + r.reserveDevice);
  }

  // ---- positive demands -------------------------------------------------------------------

  lemma {:induction false} SumBounds(values: seq<nat>, i: nat)
    requires Sum(values).Ok? && i < |values|
    ensures values[i] <= Sum(values).value
  {
    var n := |values| - 1;
    if i < n {
      SumBounds(values[..n], i);
    }
  }

  lemma CeilRatioPositive(value: nat, numerator: nat)
    requires value > 0 && numerator > 0 && CeilRatio(value, numerator, 100).Ok?
    ensures CeilRatio(value, numerator, 100).value > 0
  {
    TimesGrows(1, value, 1, numerator);
    CeilRatioIsLeast(value, numerator, 100, 0);
  }

  /** Training and checkpoints always need something. */
  lemma DemandsArePositive(r: Request, unified: bool)
    requires ValidRequest(r) && EstimateOf(r, unified).Ok?
    ensures var e := EstimateOf(r, unified).value;
      DeviceNeed(e) > 0 && e.disk > 0 && (IsCpu(r) && !unified ==> RamNeed(e) > 0)
  {
    hide Components, ValidRequest, CeilRatio;
    var e := EstimateOf(r, unified).value;
    var c := Components(r).value;
    RuntimeIsThere(r);
    SumBounds(c, 6);
    CeilRatioPositive(Sum(c).value, 100 + r.headroomPercent);
    if IsCpu(r) {
      SumBounds(c + [r.hostBuffer], 6);
      CeilRatioPositive(Sum(c + [r.hostBuffer]).value, 100 + r.headroomPercent);
    }
    if unified {
      SumBounds([e.training, e.host], 0);
    }
    CheckpointPositive(r, c);
    SumBounds([e.checkpoint, r.additionalDisk], 0);
  }

  lemma RuntimeIsThere(r: Request)
    requires ValidRequest(r) && Components(r).Ok?
    ensures Components(r).value[6] > 0
  {
  }

  lemma CheckpointPositive(r: Request, c: seq<nat>)
    requires |c| == 8 && Checkpoint(r, c).Ok?
    ensures Checkpoint(r, c).value > 0
  {
    hide CeilRatio;
    var weights := if r.method_.Full? then c[0] else Product([r.trainableParameters, 4]).value;
    var state := Sum([weights, if r.method_.Full? then c[1] else 0, c[3]]).value;
    var spare := CeilRatio(state, 110, 100).value;
    SumBounds([spare, 4096], 1);
    var one := Sum([spare, 4096]).value;
    ProductIsExact([one, 2]);
    assert [one, 2][..1] == [one] && [one][..0] == [];
    assert Times([one, 2]) == Times([one]) * 2 && Times([one]) == one;
  }

  // ---- what an admission means ------------------------------------------------------------

  ghost predicate Admitted(h: Hardware, r: Request) {
    && EstimateOf(r, UnifiedOf(h, r)).Ok?
    && Decide(r, EstimateOf(r, UnifiedOf(h, r)).value, BudgetsOf(h, r)) == WithinBudget
  }

  lemma {:induction false} FoundIsValid(devices: seq<Device>, id: Label)
    requires forall i | 0 <= i < |devices| :: ValidDevice(devices[i])
    ensures FindDevice(devices, id).Some? ==> ValidDevice(FindDevice(devices, id).value)
  {
    hide ValidDevice;
    if |devices| > 0 && devices[0].id != id {
      FoundIsValid(devices[1..], id);
    }
  }

  /** A plan is within the estimated budget exactly when everything it needs is known to be there: each
      positive demand, with its reserve, in observed free memory, device and disk and in what every memory
      limit leaves; where memory is shared, one demand for both. Nothing unknown ever admits. */
  lemma AdmittedExactly(h: Hardware, r: Request)
    requires ValidHardware(h) && ValidRequest(r) && EstimateOf(r, UnifiedOf(h, r)).Ok?
    ensures Admitted(h, r) <==> Suffices(h, r, EstimateOf(r, UnifiedOf(h, r)).value)
  {
    hide ValidRequest, EstimateOf, RamBudget, DeviceBudget, DiskBudget, FindDevice, RamCovers, DeviceCovers, DiskCovers, ValidDevice, Threads;
    var e, b := EstimateOf(r, UnifiedOf(h, r)).value, BudgetsOf(h, r);
    DemandsArePositive(r, UnifiedOf(h, r));
    RamBudgetExactly(h, r, RamNeed(e));
    CeilingFollows(h, r);
    DiskBudgetExactly(h, r, e.disk);
    ThreadsExactly(h, r);
    CpuHasNoCeiling(r);
    if DeviceOf(h, r).Some? {
      FoundIsValid(h.devices, r.device);
      DeviceBudgetExactly(h, DeviceOf(h, r).value, r, DeviceNeed(e));
    }
    NoReason(r, e, b);
  }

  const ALL_REASONS := [RamUnknown, RamExceeded, DeviceUnknown, DeviceExceeded, DiskUnknown, DiskExceeded, ThreadsUnknown, DeviceNotObserved]

  lemma NoReason(r: Request, e: Estimate, b: Budgets)
    ensures Decide(r, e, b) == WithinBudget <==>
      && !Applies(RamUnknown, r, e, b) && !Applies(RamExceeded, r, e, b)
      && !Applies(DeviceUnknown, r, e, b) && !Applies(DeviceExceeded, r, e, b)
      && !Applies(DiskUnknown, r, e, b) && !Applies(DiskExceeded, r, e, b)
      && !Applies(ThreadsUnknown, r, e, b) && !Applies(DeviceNotObserved, r, e, b)
  {
    hide Applies;
    forall x: Reason
      ensures x in ALL_REASONS
    {
      match x
      case RamUnknown =>
      case RamExceeded =>
      case DeviceUnknown =>
      case DeviceExceeded =>
      case DiskUnknown =>
      case DiskExceeded =>
      case ThreadsUnknown =>
      case DeviceNotObserved =>
    }
  }

  lemma CeilingFollows(h: Hardware, r: Request)
    ensures RamBudget(h, r).Some? && r.maxMemory.Some? ==> RamBudget(h, r).value <= r.maxMemory.value
  {
    hide LeastLimit, LeastRemaining, RamReserve;
  }

  lemma DiskBudgetExactly(h: Hardware, r: Request, amount: nat)
    requires amount > 0
    ensures DiskBudget(h, r).Some? && amount <= DiskBudget(h, r).value && !Exceeds(amount, r.maxDisk) <==> DiskCovers(h, r, amount)
  {
    hide DiskReserve;
  }

  lemma ThreadsExactly(h: Hardware, r: Request)
    requires ValidRequest(r)
    ensures Threads(h, r) > 0 <==> h.usableThreads > 0
  {
  }

  lemma CpuHasNoCeiling(r: Request)
    requires ValidRequest(r)
    ensures IsCpu(r) ==> r.maxDevice.None?
  {
  }

  // ---- when an admission survives ---------------------------------------------------------

  /** A ceiling at least as high, or none. */
  predicate Looser(a: Option<nat>, b: Option<nat>) {
    a.Some? ==> b.Some? && b.value <= a.value
  }

  /** What was known still is, and is not less. */
  predicate NoLess(before: Option<nat>, now: Option<nat>) {
    before.Some? ==> now.Some? && before.value <= now.value
  }

  /** A request for the same device and method that asks for no more: every demand, reserve and margin is at
      most as large, every ceiling at least as high. The width of the weights is a demand unless training is
      full; `NarrowingKeepsAdmissions` says why it is none then. */
  predicate Lighter(a: Request, b: Request) {
    && a.device == b.device && a.method_ == b.method_
    && (a.weightBits == b.weightBits || (!a.method_.Full? && a.weightBits <= b.weightBits))
    && a.modelParameters <= b.modelParameters && a.trainableParameters <= b.trainableParameters
    && a.microBatch <= b.microBatch && a.sequenceLength <= b.sequenceLength
    && a.activationPerToken <= b.activationPerToken && a.attentionPerSequence <= b.attentionPerSequence
    && a.runtimeWorkspace <= b.runtimeWorkspace && a.hostBuffer <= b.hostBuffer
    && a.quantizationOverhead <= b.quantizationOverhead && a.additionalDisk <= b.additionalDisk
    && a.headroomPercent <= b.headroomPercent && a.memoryPercent >= b.memoryPercent
    && a.reserveRam <= b.reserveRam && a.reserveDevice <= b.reserveDevice && a.reserveDisk <= b.reserveDisk
    && Looser(a.maxMemory, b.maxMemory) && Looser(a.maxDevice, b.maxDevice) && Looser(a.maxDisk, b.maxDisk)
  }

  predicate RoomierLimit(a: MemoryLimit, b: MemoryLimit) {
    a.limitBytes == b.limitBytes && (b.currentBytes.Some? ==> a.currentBytes.Some? && a.currentBytes.value <= b.currentBytes.value)
  }

  predicate RoomierDevice(a: Device, b: Device) {
    && a.id == b.id && a.unified == b.unified && a.totalBytes == b.totalBytes && a.workingSet == b.workingSet
    && NoLess(b.availableBytes, a.availableBytes)
  }

  predicate RoomierDevices(a: seq<Device>, b: seq<Device>) {
    |a| == |b| && forall i | 0 <= i < |a| :: RoomierDevice(a[i], b[i])
  }

  predicate RoomierLimits(a: seq<MemoryLimit>, b: seq<MemoryLimit>) {
    |a| == |b| && forall i | 0 <= i < |a| :: RoomierLimit(a[i], b[i])
  }

  /** The same machine, totals and limits, with at least as much free everywhere. */
  predicate Roomier(a: Hardware, b: Hardware) {
    && a.totalRam == b.totalRam && NoLess(b.availableRam, a.availableRam) && NoLess(b.availableDisk, a.availableDisk)
    && b.usableThreads <= a.usableThreads && RoomierLimits(a.limits, b.limits) && RoomierDevices(a.devices, b.devices)
  }

  lemma ComponentsGrow(a: Request, b: Request)
    requires Lighter(a, b) && Components(b).Ok?
    ensures Components(a).Ok? && Pointwise(Components(a).value, Components(b).value)
  {
    hide CeilRatio, Product;
    CeilRatioGrows(a.modelParameters, b.modelParameters, a.weightBits, b.weightBits, 8);
    ProductGrows([a.trainableParameters, 4], [b.trainableParameters, 4]);
    ProductGrows([a.trainableParameters, 8], [b.trainableParameters, 8]);
    ProductGrows([a.activationPerToken, a.microBatch, a.sequenceLength], [b.activationPerToken, b.microBatch, b.sequenceLength]);
    ProductGrows([a.attentionPerSequence, a.microBatch], [b.attentionPerSequence, b.microBatch]);
  }

  lemma HeadroomGrows(x: nat, y: nat, a: Request, b: Request)
    requires x <= y && a.headroomPercent <= b.headroomPercent
    ensures AtMost(Headroom(x, a), Headroom(y, b))
  {
    CeilRatioGrows(x, y, 100 + a.headroomPercent, 100 + b.headroomPercent, 100);
  }

  lemma CheckpointGrows(a: Request, b: Request, c: seq<nat>, d: seq<nat>)
    requires Lighter(a, b) && Pointwise(c, d) && |c| == 8 && Checkpoint(b, d).Ok?
    ensures AtMost(Checkpoint(a, c), Checkpoint(b, d))
  {
    hide CeilRatio, Product, Sum;
    ProductGrows([a.trainableParameters, 4], [b.trainableParameters, 4]);
    var full := a.method_.Full?;
    var v := if full then c[0] else Product([a.trainableParameters, 4]).value;
    var w := if full then d[0] else Product([b.trainableParameters, 4]).value;
    var x, y := [v, if full then c[1] else 0, c[3]], [w, if full then d[1] else 0, d[3]];
    SumGrows(x, y);
    CeilRatioGrows(Sum(x).value, Sum(y).value, 110, 110, 100);
    var spareA, spareB := CeilRatio(Sum(x).value, 110, 100).value, CeilRatio(Sum(y).value, 110, 100).value;
    SumGrows([spareA, 4096], [spareB, 4096]);
    ProductGrows([Sum([spareA, 4096]).value, 2], [Sum([spareB, 4096]).value, 2]);
  }

  /** An estimate that is there and has no part larger than another's. */
  predicate NoLarger(e: Res<Estimate>, f: Estimate) {
    && e.Ok? && e.value.training <= f.training && e.value.disk <= f.disk
    && RamNeed(e.value) <= RamNeed(f) && DeviceNeed(e.value) <= DeviceNeed(f)
  }

  /** A lighter request has an estimate if the heavier one has, and no part of it is larger. */
  lemma EstimateGrows(a: Request, b: Request, unified: bool)
    requires Lighter(a, b) && EstimateOf(b, unified).Ok?
    ensures NoLarger(EstimateOf(a, unified), EstimateOf(b, unified).value)
  {
    hide Components, Checkpoint, Headroom, Sum;
    ComponentsGrow(a, b);
    var c, d := Components(a).value, Components(b).value;
    SumGrows(c, d);
    HeadroomGrows(Sum(c).value, Sum(d).value, a, b);
    SumGrows(c + [a.hostBuffer], d + [b.hostBuffer]);
    var hostA := if IsCpu(a) then Sum(c + [a.hostBuffer]).value else a.hostBuffer;
    var hostB := if IsCpu(b) then Sum(d + [b.hostBuffer]).value else b.hostBuffer;
    HeadroomGrows(hostA, hostB, a, b);
    if unified {
      SumGrows([Headroom(Sum(c).value, a).value, Headroom(hostA, a).value], [Headroom(Sum(d).value, b).value, Headroom(hostB, b).value]);
    }
    CheckpointGrows(a, b, c, d);
    SumGrows([Checkpoint(a, c).value, a.additionalDisk], [Checkpoint(b, d).value, b.additionalDisk]);
  }

  lemma {:induction false} SameLeastLimit(total: nat, a: seq<MemoryLimit>, b: seq<MemoryLimit>)
    requires RoomierLimits(a, b)
    ensures LeastLimit(total, a) == LeastLimit(total, b)
  {
    if |a| > 0 {
      SameLeastLimit(total, a[..|a| - 1], b[..|b| - 1]);
    }
  }

  lemma RamStillCovers(h: Hardware, k: Hardware, r: Request, s: Request, x: nat, y: nat)
    requires Roomier(h, k) && Lighter(r, s) && x <= y && RamCovers(k, s, y)
    ensures RamCovers(h, r, x)
  {
    hide LeastLimit, RoomierDevices;
    SameLeastLimit(h.totalRam.value, h.limits, k.limits);
    var total := LeastLimit(k.totalRam.value, k.limits);
    TimesGrows(total, total, s.memoryPercent, r.memoryPercent);
    if x > 0 {
      RamStillHolds(h, k, x + RamReserve(total, r), y + RamReserve(total, s));
    }
  }

  lemma RamStillHolds(h: Hardware, k: Hardware, x: nat, y: nat)
    requires Roomier(h, k) && x <= y && k.totalRam.Some? && k.availableRam.Some?
    requires forall i | 0 <= i < |k.limits| :: k.limits[i].currentBytes.Some?
    requires RamHolds(k, y)
    ensures forall i | 0 <= i < |h.limits| :: h.limits[i].currentBytes.Some?
    ensures RamHolds(h, x)
  {
    hide RoomierDevices;
    forall i | 0 <= i < |h.limits|
      ensures h.limits[i].currentBytes.Some? && h.limits[i].currentBytes.value + x <= h.limits[i].limitBytes
    {
      assert RoomierLimit(h.limits[i], k.limits[i]);
    }
  }

  lemma DeviceStillCovers(h: Hardware, k: Hardware, d: Device, c: Device, r: Request, s: Request, x: nat, y: nat)
    requires Roomier(h, k) && Lighter(r, s) && RoomierDevice(d, c) && x <= y && DeviceCovers(k, c, s, y)
    ensures DeviceCovers(h, d, r, x)
  {
    hide RamCovers, Roomier;
    if c.unified {
      RamStillCovers(h, k, r, s, x + r.reserveDevice, y + s.reserveDevice);
    }
  }

  lemma DiskStillCovers(h: Hardware, k: Hardware, r: Request, s: Request, x: nat, y: nat)
    requires Roomier(h, k) && Lighter(r, s) && x <= y && DiskCovers(k, s, y)
    ensures DiskCovers(h, r, x)
  {
    hide RoomierDevices, RoomierLimits;
    QuarterGrows(k.availableDisk.value, h.availableDisk.value);
  }

  /** A quarter of what is free never grows faster than what is free. */
  lemma QuarterGrows(a: nat, b: nat)
    requires a <= b
    ensures a - a / 4 <= b - b / 4 && a / 4 <= b / 4
  {
  }

  lemma {:induction false} SameDevice(a: seq<Device>, b: seq<Device>, id: Label)
    requires RoomierDevices(a, b)
    ensures FindDevice(a, id).Some? == FindDevice(b, id).Some?
    ensures FindDevice(a, id).Some? ==> RoomierDevice(FindDevice(a, id).value, FindDevice(b, id).value)
  {
    if |a| > 0 {
      assert RoomierDevice(a[0], b[0]);
      SameDevice(a[1..], b[1..], id);
    }
  }

  /** An admitted plan stays admitted when the request asks for no more and the machine has no less free. */
  lemma AdmissionSurvives(h: Hardware, k: Hardware, r: Request, s: Request)
    requires ValidHardware(h) && ValidHardware(k) && ValidRequest(r) && ValidRequest(s)
    requires Roomier(h, k) && Lighter(r, s) && Admitted(k, s)
    ensures Admitted(h, r)
  {
    hide ValidHardware, ValidRequest, EstimateOf, RamCovers, DeviceCovers, DiskCovers, FindDevice, RoomierDevice;
    SameDevice(h.devices, k.devices, r.device);
    assert UnifiedOf(h, r) == UnifiedOf(k, s) by {
      SameKind(h, k, r, s);
    }
    EstimateGrows(r, s, UnifiedOf(k, s));
    var e, f := EstimateOf(r, UnifiedOf(h, r)).value, EstimateOf(s, UnifiedOf(k, s)).value;
    AdmittedExactly(k, s);
    AdmittedExactly(h, r);
    RamStillCovers(h, k, r, s, RamNeed(e), RamNeed(f));
    DiskStillCovers(h, k, r, s, e.disk, f.disk);
    if !IsCpu(r) {
      DeviceStillCovers(h, k, DeviceOf(h, r).value, DeviceOf(k, s).value, r, s, DeviceNeed(e), DeviceNeed(f));
    }
  }

  lemma SameKind(h: Hardware, k: Hardware, r: Request, s: Request)
    requires Roomier(h, k) && Lighter(r, s)
    ensures UnifiedOf(h, r) == UnifiedOf(k, s)
  {
    SameDevice(h.devices, k.devices, r.device);
  }

  // ---- narrower weights -------------------------------------------------------------------

  /** Full training in 16 bits keeps a master copy that 32 bits do not need: two more bytes a parameter. */
  lemma NarrowerWeightsAskMore(r: Request)
    requires ValidRequest(r) && r.method_.Full? && r.weightBits == 32
    requires Components(r).Ok? && Components(r.(weightBits := 16)).Ok?
    ensures Total(Components(r.(weightBits := 16)).value) == Total(Components(r).value) + 2 * r.modelParameters
  {
    var n := r.modelParameters;
    var c, d := Components(r).value, Components(r.(weightBits := 16)).value;
    QuotientIs(n * 32 + 7, 8, 4 * n, 7);
    QuotientIs(n * 16 + 7, 8, 2 * n, 7);
    assert c[0] == 4 * n && d[0] == 2 * n && c[1] == 0;
    ProductIsExact([n, 4]);
    assert Times([n, 4]) == n * 4 by {
      assert [n, 4][..1] == [n] && [n][..0] == [];
      assert Times([n]) == Times([]) * n;
    }
    assert d[1] == 4 * n;
    assert d == c[0 := d[0]][1 := d[1]];
    TotalUpdate(c, 0, d[0]);
    TotalUpdate(c[0 := d[0]], 1, d[1]);
  }

  lemma {:induction false} TotalUpdate(values: seq<nat>, i: nat, x: nat)
    requires i < |values|
    ensures Total(values[i := x]) == Total(values) - values[i] + x
  {
    var n := |values| - 1;
    if i < n {
      TotalUpdate(values[..n], i, x);
      assert values[i := x][..n] == values[..n][i := x];
    } else {
      assert values[i := x][..n] == values[..n];
    }
  }

  lemma SumWithLast(c: seq<nat>, x: nat)
    ensures Total(c + [x]) == Total(c) + x
  {
    assert (c + [x])[..|c|] == c;
  }

  /** Headroom on more is more: each byte brings at least one. */
  lemma HeadroomIsStrict(x: nat, y: nat, r: Request)
    requires x < y && Headroom(x, r).Ok? && Headroom(y, r).Ok?
    ensures Headroom(x, r).value < Headroom(y, r).value
  {
    hide CeilRatio;
    var q, v := 100 + r.headroomPercent, Headroom(y, r).value;
    CeilRatioIsLeast(y, q, 100, v);
    LessTimes(x, y, q);
    assert v > 0 by {
      TimesGrows(1, y, 1, q);
    }
    CeilRatioIsLeast(x, q, 100, v - 1);
  }

  /** So full training in narrower weights needs more wherever it runs. */
  lemma NarrowerTrainingNeedsMore(r: Request, unified: bool)
    requires ValidRequest(r) && r.method_.Full? && r.weightBits == 32
    requires EstimateOf(r, unified).Ok? && EstimateOf(r.(weightBits := 16), unified).Ok?
    ensures var e, f := EstimateOf(r, unified).value, EstimateOf(r.(weightBits := 16), unified).value;
      e.training < f.training && DeviceNeed(e) < DeviceNeed(f) && (IsCpu(r) || unified ==> RamNeed(e) < RamNeed(f))
  {
    hide Components, Checkpoint, Headroom, Sum, ValidRequest;
    var s := r.(weightBits := 16);
    var c, d := Components(r).value, Components(s).value;
    NarrowerWeightsAskMore(r);
    AtLeastOne(r);
    SumIsExact(c);
    SumIsExact(d);
    HeadroomSame(r, s);
    HeadroomIsStrict(Sum(c).value, Sum(d).value, r);
    if IsCpu(r) {
      SumIsExact(c + [r.hostBuffer]);
      SumIsExact(d + [r.hostBuffer]);
      SumWithLast(c, r.hostBuffer);
      SumWithLast(d, r.hostBuffer);
      HeadroomIsStrict(Sum(c + [r.hostBuffer]).value, Sum(d + [r.hostBuffer]).value, r);
    }
    if unified {
      var e, f := EstimateOf(r, unified).value, EstimateOf(s, unified).value;
      PairSum(e.training, e.host);
      PairSum(f.training, f.host);
    }
  }

  lemma AtLeastOne(r: Request)
    requires ValidRequest(r)
    ensures r.modelParameters > 0
  {
  }

  lemma HeadroomSame(r: Request, s: Request)
    requires r.headroomPercent == s.headroomPercent
    ensures forall x :: Headroom(x, r) == Headroom(x, s)
  {
  }

  lemma PairSum(x: nat, y: nat)
    ensures Sum([x, y]).Ok? ==> Sum([x, y]).value == x + y
  {
    SumIsExact([x, y]);
    assert [x, y] == [x] + [y];
    SumWithLast([x], y);
    SumWithLast([], x);
    assert [] + [x] == [x];
  }

  /** Narrower weights alone never enlarge an estimate exactly when training is not full. */
  lemma NarrowingNeverEnlarges(r: Request, bits: nat, unified: bool)
    requires ValidRequest(r) && ValidRequest(r.(weightBits := bits)) && bits < r.weightBits && EstimateOf(r, unified).Ok?
    ensures NoLarger(EstimateOf(r.(weightBits := bits), unified), EstimateOf(r, unified).value) <==> !r.method_.Full?
  {
    hide EstimateOf;
    if r.method_.Full? {
      if EstimateOf(r.(weightBits := bits), unified).Ok? {
        NarrowerTrainingNeedsMore(r, unified);
      }
    } else {
      EstimateGrows(r.(weightBits := bits), r, unified);
    }
  }

  /** A machine like `k` with just as much free as `r` needs where its training runs. */
  function JustEnough(k: Hardware, r: Request, e: Estimate): Hardware
    requires Suffices(k, r, e)
  {
    var reserve := RamReserve(LeastLimit(k.totalRam.value, k.limits), r);
    if IsCpu(r) then k.(availableRam := Some(RamNeed(e) + reserve))
    else
      var d := DeviceOf(k, r).value;
      if d.unified then k.(availableRam := Some(RamNeed(e) + r.reserveDevice + reserve))
      else k.(devices := [d.(availableBytes := Some(DeviceNeed(e) + DeviceReserve(d.totalBytes.value, r)))])
  }

  lemma {:induction false} FoundHasId(devices: seq<Device>, id: Label)
    ensures FindDevice(devices, id).Some? ==> FindDevice(devices, id).value.id == id
  {
    if |devices| > 0 && devices[0].id != id {
      FoundHasId(devices[1..], id);
    }
  }

  /** It is a machine, with the same memory and kind of device. */
  lemma JustEnoughIsValid(k: Hardware, r: Request, e: Estimate)
    requires ValidHardware(k) && ValidRequest(r) && Suffices(k, r, e) && DeviceNeed(e) > 0
    requires UnifiedOf(k, r) <==> e.shared.Some?
    requires IsCpu(r) ==> RamNeed(e) > 0
    ensures ValidHardware(JustEnough(k, r, e)) && UnifiedOf(JustEnough(k, r, e), r) == UnifiedOf(k, r)
  {
    hide ValidRequest, LeastLimit, RamReserve, DeviceReserve;
    if !IsCpu(r) {
      FoundHasId(k.devices, r.device);
      FoundIsValid(k.devices, r.device);
    }
  }

  lemma JustEnoughSuffices(k: Hardware, r: Request, e: Estimate)
    requires ValidHardware(k) && ValidRequest(r) && Suffices(k, r, e) && DeviceNeed(e) > 0
    requires UnifiedOf(k, r) <==> e.shared.Some?
    requires IsCpu(r) ==> RamNeed(e) > 0
    ensures Suffices(JustEnough(k, r, e), r, e)
  {
    hide ValidRequest, ValidHardware, LeastLimit, RamReserve, DeviceReserve, DiskReserve;
    if !IsCpu(r) {
      FoundHasId(k.devices, r.device);
    }
  }

  /** It has nothing left for more. */
  lemma JustEnoughIsTight(k: Hardware, r: Request, e: Estimate, s: Request, f: Estimate)
    requires Suffices(k, r, e) && s == r.(weightBits := s.weightBits)
    requires (UnifiedOf(k, r) <==> e.shared.Some?) && (e.shared.Some? <==> f.shared.Some?)
    requires DeviceNeed(e) < DeviceNeed(f) && (IsCpu(r) || e.shared.Some? ==> RamNeed(e) < RamNeed(f))
    ensures !Suffices(JustEnough(k, r, e), s, f)
  {
    hide LeastLimit, RamReserve, DeviceReserve, DiskReserve;
    SameReserves(r, s);
    if !IsCpu(r) {
      FoundHasId(k.devices, r.device);
    }
  }

  lemma SameReserves(r: Request, s: Request)
    requires s == r.(weightBits := s.weightBits)
    ensures forall total :: RamReserve(total, r) == RamReserve(total, s) && DeviceReserve(total, r) == DeviceReserve(total, s)
  {
  }

  /** A machine that admits a full training in 32 bits, taken with just enough free, refuses it in 16. */
  lemma NarrowerIsRefused(k: Hardware, r: Request) returns (h: Hardware)
    requires ValidHardware(k) && ValidRequest(r) && ValidRequest(r.(weightBits := 16))
    requires r.method_.Full? && r.weightBits == 32 && Admitted(k, r)
    ensures ValidHardware(h) && Admitted(h, r) && !Admitted(h, r.(weightBits := 16))
  {
    hide ValidHardware, ValidRequest, EstimateOf, Suffices, Decide;
    var unified, s := UnifiedOf(k, r), r.(weightBits := 16);
    var e := EstimateOf(r, unified).value;
    AdmittedExactly(k, r);
    DemandsArePositive(r, unified);
    SharedIfUnified(r, unified);
    h := JustEnough(k, r, e);
    JustEnoughIsValid(k, r, e);
    JustEnoughSuffices(k, r, e);
    AdmittedExactly(h, r);
    if EstimateOf(s, unified).Ok? {
      NarrowerTrainingNeedsMore(r, unified);
      SharedIfUnified(s, unified);
      JustEnoughIsTight(k, r, e, s, EstimateOf(s, unified).value);
      AdmittedExactly(h, s);
    }
  }

  lemma SharedIfUnified(r: Request, unified: bool)
    ensures EstimateOf(r, unified).Ok? ==> (EstimateOf(r, unified).value.shared.Some? <==> unified)
  {
    hide Components, Checkpoint, Headroom, Sum;
  }

  lemma RoomierThanItself(h: Hardware)
    ensures Roomier(h, h)
  {
  }

  /** Making the weights of an admitted plan narrower keeps every machine's admission exactly when training is
      not full. */
  lemma NarrowingKeepsAdmissions(k: Hardware, r: Request, bits: nat)
    requires ValidRequest(r) && ValidRequest(r.(weightBits := bits)) && bits < r.weightBits
    requires ValidHardware(k) && Admitted(k, r)
    ensures (forall h :: ValidHardware(h) && Admitted(h, r) ==> Admitted(h, r.(weightBits := bits))) <==> !r.method_.Full?
  {
    hide ValidHardware, Admitted;
    if r.method_.Full? {
      var h := NarrowerIsRefused(k, r);
    } else {
      forall h | ValidHardware(h) && Admitted(h, r)
        ensures Admitted(h, r.(weightBits := bits))
      {
        RoomierThanItself(h);
        AdmissionSurvives(h, h, r.(weightBits := bits), r);
      }
    }
  }

  // ---- one lost admission -----------------------------------------------------------------

  /** Full training of a hundred parameters on the processor. */
  function SmallTraining(bits: nat): Request {
    Request(REQUEST_SCHEMA, [109], CPU, Full, 100, 100, bits, 1, 1, 1, 1, 0, 1, 0, 0, 0, 1, 1, None, None, None, None, 0, 0, 0, 50, 20)
  }

  /** A machine with 1923 bytes of memory free besides the reserve. */
  const SMALL_MACHINE :=
    Hardware(HARDWARE_SCHEMA, true, [], [], [], [], 1, Some(GIB), Some(256 * MIB + 1923), [], Some(4 * GIB), [])

  lemma SmallComponents()
    ensures Components(SmallTraining(32)) == Ok([400, 0, 400, 800, 1, 0, 1, 0])
  {
    assert Product([100, 4]) == Ok(400) && Product([100, 8]) == Ok(800) by {
      assert [100, 4][..1] == [100] && [100, 8][..1] == [100] && [100][..0] == [];
      assert Product([100]) == Ok(100);
    }
    assert Product([1, 1, 1]) == Ok(1) by {
      assert [1, 1, 1][..2] == [1, 1] && [1, 1][..1] == [1] && [1][..0] == [];
      assert Product([1, 1]) == Ok(1) && Product([1]) == Ok(1);
    }
    assert Product([0, 1]) == Ok(0) by {
      assert [0, 1][..1] == [0] && [0][..0] == [];
      assert Product([0]) == Ok(0);
    }
  }

  lemma TotalOfThree(a: nat, b: nat, c: nat)
    ensures Total([a, b, c]) == a + b + c
  {
    hide Total;
    NothingTotal();
    SumWithLast([], a);
    SumWithLast([a], b);
    SumWithLast([a, b], c);
    assert [] + [a] == [a] && [a] + [b] == [a, b] && [a, b] + [c] == [a, b, c];
  }

  lemma NothingTotal()
    ensures Total([]) == 0
  {
  }

  lemma {:induction false} TotalOfParts(a: seq<nat>, b: seq<nat>)
    ensures Total(a + b) == Total(a) + Total(b)
  {
    if |b| == 0 {
      assert a + b == a;
    } else {
      var n := |b| - 1;
      TotalOfParts(a, b[..n]);
      SumWithLast(a + b[..n], b[n]);
      assert a + b == (a + b[..n]) + [b[n]];
    }
  }

  lemma SmallSums()
    ensures Sum([400, 0, 400, 800, 1, 0, 1, 0]) == Ok(1602)
    ensures Sum([400, 0, 400, 800, 1, 0, 1, 0] + [0]) == Ok(1602)
    ensures Sum([400, 0, 800]) == Ok(1200)
  {
    hide Total, Sum;
    var c: seq<nat> := [400, 0, 400, 800, 1, 0, 1, 0];
    TotalOfThree(400, 0, 400);
    TotalOfThree(800, 1, 0);
    TotalOfParts([400, 0, 400], [800, 1, 0]);
    SumWithLast([400, 0, 400] + [800, 1, 0], 1);
    SumWithLast([400, 0, 400] + [800, 1, 0] + [1], 0);
    assert c == [400, 0, 400] + [800, 1, 0] + [1] + [0];
    SumWithLast(c, 0);
    TotalOfThree(400, 0, 800);
    SumIsExact(c);
    SumIsExact(c + [0]);
    SumIsExact([400, 0, 800]);
  }

  lemma SmallCheckpoint()
    ensures Checkpoint(SmallTraining(32), [400, 0, 400, 800, 1, 0, 1, 0]) == Ok(10832)
  {
    SmallSums();
    assert Sum([1320, 4096]) == Ok(5416) by {
      PairSum(1320, 4096);
      SumIsExact([1320, 4096]);
    }
    assert Product([5416, 2]) == Ok(10832) by {
      assert [5416, 2][..1] == [5416] && [5416][..0] == [];
      assert Product([5416]) == Ok(5416);
    }
  }

  /** The machine admits the training in 32 bits and refuses it in 16. */
  lemma AdmissionLost()
    ensures ValidHardware(SMALL_MACHINE) && ValidRequest(SmallTraining(32)) && ValidRequest(SmallTraining(16))
    ensures Admitted(SMALL_MACHINE, SmallTraining(32)) && !Admitted(SMALL_MACHINE, SmallTraining(16))
  {
    hide Components, Checkpoint, Sum;
    var r, s := SmallTraining(32), SmallTraining(16);
    SmallComponents();
    SmallSums();
    SmallCheckpoint();
    assert Sum([10832, 0]) == Ok(10832) by {
      SumIsExact([10832, 0]);
      PairSum(10832, 0);
    }
    AdmittedExactly(SMALL_MACHINE, r);
    if EstimateOf(s, false).Ok? {
      NarrowerTrainingNeedsMore(r, false);
      AdmittedExactly(SMALL_MACHINE, s);
    }
  }
}
