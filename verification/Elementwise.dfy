/** src/elementwise_runtime.rs `map`: the preflight and the lane loop, as the source runs them. */
module ElementwiseRuntime {
  import opened Prelude
  import opened Values

  /** The shape preflight: the common array length, or a refusal. */
  method PreflightLength(inputs: seq<Value>) returns (length: Res<nat>)
    ensures length.Ok? <==> exists n :: SharedLength(inputs, n)
    ensures length.Ok? ==> SharedLength(inputs, length.value)
  {
    var found: Option<nat> := None;
    for k := 0 to |inputs|
      invariant found.None? ==> forall i | 0 <= i < k :: !inputs[i].Array?
      invariant found.Some? ==> found.value <= MAX_ARRAY_ITEMS
      invariant found.Some? ==> exists i | 0 <= i < k :: inputs[i].Array?
      invariant found.Some? ==> forall i | 0 <= i < k && inputs[i].Array? :: |inputs[i].items| == found.value
    {
      if inputs[k].Array? {
        if |inputs[k].items| > MAX_ARRAY_ITEMS {
          return Err;
        }
        match found {
          case Some(expected) =>
            if |inputs[k].items| != expected {
              return Err;
            }
          case None => found := Some(|inputs[k].items|);
        }
      }
    }
    if found.Some? {
      assert SharedLength(inputs, found.value);
    }
    length := ToRes(found);
  }

  /** The type preflight over every operand. */
  method PreflightTypes(inputs: seq<Value>) returns (ok: bool)
    ensures ok <==> forall i | 0 <= i < |inputs| :: NumericOperand(inputs[i])
  {
    for k := 0 to |inputs|
      invariant forall i | 0 <= i < k :: NumericOperand(inputs[i])
    {
      match inputs[k] {
        case Array(items) =>
          for j := 0 to |items|
            invariant forall i | 0 <= i < j :: Numeric(items[i]) && CompatibleUnits(items[0], items[i])
          {
            if !Numeric(items[j]) || !CompatibleUnits(items[0], items[j]) {
              assert !NumericOperand(inputs[k]);
              return false;
            }
          }
        case _ =>
          if !Numeric(inputs[k]) {
            return false;
          }
      }
    }
    return true;
  }

  method Map(inputs: seq<Value>, scalar: seq<Value> -> Res<Value>) returns (result: Res<seq<Value>>)
    ensures result == Elementwise(inputs, scalar)
  {
    var length := PreflightLength(inputs);
    var typed := PreflightTypes(inputs);
    if length.Err? {
      return Err;
    }
    FirstLengthIsShared(inputs, length.value);
    if !typed {
      return Err;
    }
    var done: seq<Value> := [];
    for lane := 0 to length.value
      invariant Lanes(inputs, scalar, lane) == Ok(done)
    {
      var value := scalar(LaneArgs(inputs, lane));
      if value.Err? || !Numeric(value.value) || (|done| > 0 && !CompatibleUnits(done[0], value.value)) {
        LanesStopShort(inputs, scalar, lane + 1, length.value);
        return Err;
      }
      done := done + [value.value];
    }
    result := Ok(done);
  }

  /** A refused lane refuses the whole mapping. */
  lemma {:induction false} LanesStopShort(inputs: seq<Value>, scalar: seq<Value> -> Res<Value>, k: nat, n: nat)
    requires k <= n
    requires forall i | 0 <= i < |inputs| && inputs[i].Array? :: n <= |inputs[i].items|
    requires Lanes(inputs, scalar, k).Err?
    ensures Lanes(inputs, scalar, n).Err?
  {
    if k < n {
      LanesStopShort(inputs, scalar, k, n - 1);
    }
  }
}
