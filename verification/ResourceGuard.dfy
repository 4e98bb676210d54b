/** The cooperative guard of src/ai.rs: reservations, steps and cancellation. The time since the start is a
    parameter of each call. */
module ResourceGuard {
  import opened Prelude
  import opened Planner

  predicate LegalGuard(limit: nat, maxSteps: nat, maxSeconds: nat) {
    1 <= limit <= MAX_BYTES && 1 <= maxSteps <= 1_000_000_000 && 1 <= maxSeconds <= 604_800
  }

  class Guard {
    const limit: nat
    const maxSteps: nat
    const duration: nat
    var live: nat
    var steps: nat
    var cancelled: bool
    /** All bytes ever reserved and released, and the greatest amount ever held. */
    ghost var reserved: nat
    ghost var released: nat
    ghost var peak: nat

    /** Held bytes are what was reserved and not yet released, and were never above the limit. */
    ghost predicate Valid()
      reads this
    {
      && LegalGuard(limit, maxSteps, duration)
      && reserved == released + live && live <= peak <= limit && steps <= maxSteps
    }

    constructor (limit: nat, maxSteps: nat, maxSeconds: nat)
      requires LegalGuard(limit, maxSteps, maxSeconds)
      ensures Valid() && this.limit == limit && this.maxSteps == maxSteps && duration == maxSeconds
      ensures live == 0 && steps == 0 && !cancelled && reserved == 0 && released == 0 && peak == 0
    {
      this.limit, this.maxSteps, this.duration := limit, maxSteps, maxSeconds;
      live, steps, cancelled, reserved, released, peak := 0, 0, false, 0, 0, 0;
    }

    predicate Open(elapsed: nat)
      reads this`cancelled
    {
      !cancelled && elapsed < duration
    }

    /** All of the reservation or none of it. */
    method Reserve(bytes: nat, elapsed: nat) returns (ok: bool)
      requires Valid()
      modifies this`live, this`reserved, this`peak
      ensures Valid()
      ensures ok <==> Open(elapsed) && old(live) + bytes <= limit
      ensures live == old(live) + (if ok then bytes else 0) && reserved == old(reserved) + (if ok then bytes else 0)
      ensures old(peak) <= peak
    {
      if !Open(elapsed) || live + bytes > limit {
        return false;
      }
      live := live + bytes;
      reserved := reserved + bytes;
      peak := if peak < live then live else peak;
      ok := true;
    }

    /** Releasing works after cancellation and after the deadline, but never more than is held. */
    method Release(bytes: nat) returns (ok: bool)
      requires Valid()
      modifies this`live, this`released
      ensures Valid()
      ensures ok <==> bytes <= old(live)
      ensures live == old(live) - (if ok then bytes else 0) && released == old(released) + (if ok then bytes else 0)
    {
      if bytes > live {
        return false;
      }
      live := live - bytes;
      released := released + bytes;
      ok := true;
    }

    method Step(elapsed: nat) returns (ok: bool)
      requires Valid()
      modifies this`steps
      ensures Valid()
      ensures ok <==> Open(elapsed) && old(steps) < maxSteps
      ensures steps == old(steps) + if ok then 1 else 0
    {
      if !Open(elapsed) || steps >= maxSteps {
        return false;
      }
      steps := steps + 1;
      ok := true;
    }

    method Cancel()
      requires Valid()
      modifies this`cancelled
      ensures Valid() && cancelled
    {
      cancelled := true;
    }
  }

  /** `ResourceGuard::new`. */
  method Make(limit: nat, maxSteps: nat, maxSeconds: nat) returns (r: Option<Guard>)
    ensures r.Some? <==> LegalGuard(limit, maxSteps, maxSeconds)
    ensures r.Some? ==> fresh(r.value) && r.value.Valid() && r.value.limit == limit && r.value.maxSteps == maxSteps
                        && r.value.duration == maxSeconds && r.value.live == 0 && r.value.steps == 0
  {
    if !LegalGuard(limit, maxSteps, maxSeconds) {
      return None;
    }
    var guard := new Guard(limit, maxSteps, maxSeconds);
    r := Some(guard);
  }

  // ---- any sequence of calls --------------------------------------------------------------

  datatype Call = ReserveCall(bytes: nat, elapsed: nat) | ReleaseCall(bytes: nat) | StepCall(elapsed: nat) | CancelCall

  /** Any calls in any order keep the guard's account, and after a cancellation nothing more is reserved
      and no further step is counted. */
  method Drive(g: Guard, calls: seq<Call>)
    requires g.Valid()
    modifies g
    ensures g.Valid()
    ensures old(g.cancelled) ==> g.cancelled && g.reserved == old(g.reserved) && g.steps == old(g.steps) && g.live <= old(g.live)
    ensures old(g.peak) <= g.peak <= g.limit
    ensures CancelCall in calls ==> g.cancelled
  {
    for i := 0 to |calls|
      invariant g.Valid() && old(g.peak) <= g.peak
      invariant old(g.cancelled) ==> g.cancelled && g.reserved == old(g.reserved) && g.steps == old(g.steps) && g.live <= old(g.live)
      invariant CancelCall in calls[..i] ==> g.cancelled
    {
      match calls[i] {
        case ReserveCall(bytes, elapsed) => var _ := g.Reserve(bytes, elapsed);
        case ReleaseCall(bytes) => var _ := g.Release(bytes);
        case StepCall(elapsed) => var _ := g.Step(elapsed);
        case CancelCall => g.Cancel();
      }
    }
    assert calls[..|calls|] == calls;
  }
}
