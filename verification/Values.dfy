/** Run-time values and the pure helpers of both engines. What is shared and not written out enters as the
    fields of `Machine`. */
module Values {
  import opened Prelude

  type Dim = seq<int>

  const DIMENSIONLESS: Dim := [0, 0, 0, 0, 0, 0]
  const MAX_ARRAY_ITEMS: nat := 100_000
  const MAX_TEXT_BYTES: nat := 1_048_576
  const MAX_SAFE: int := 9_007_199_254_740_991

  datatype Quantity = Quantity(si: real, dim: Dim)

  datatype Value =
    | Q(q: Quantity)
    | Text(s: string)
    | Bool(b: bool)
    | Array(items: seq<Value>)

  /** A scanned text literal: literal text, a placeholder, or a malformed placeholder. */
  datatype Piece = Lit(text: string) | Field(name: string, spec: Option<string>) | Malformed

  /** How a called name is served: by a data, figure or confidential library, by a library that
      both engines share, or not at all. */
  datatype Library = Data | Shared | Absent

  /** The outside world as builtins see and change it: answers still to be given at `input()`,
      and a token for everything else. */
  datatype World = World(answers: seq<string>, rest: nat)

  /** What both engines share and this model does not open up. */
  datatype Machine = Machine(
    arith: (char, Quantity, Quantity) -> Option<Quantity>,
    negate: Quantity -> Option<Quantity>,
    concat: (string, string) -> Option<string>,
    byteLength: string -> nat,
    scan: string -> seq<Piece>,
    renderQuantity: Quantity -> string,
    formatQuantity: (Quantity, string) -> Option<string>,
    printf: (string, seq<Value>) -> Option<string>,
    unitKnown: string -> bool,
    fromUnit: (real, string) -> Option<Quantity>,
    constantId: string -> Option<string>,
    constant: string -> Option<Quantity>,
    library: string -> Library,
    confidential: string -> bool,
    earlyArity: string -> bool,
    arity: (string, nat) -> bool,
    builtin: (string, seq<Value>, World) -> Option<(Value, World)>,
    input: (string, World) -> Option<(string, World)>,
    argv: seq<string>)

  function Scalar(n: real): Value {
    Q(Quantity(n, DIMENSIONLESS))
  }

  // ---- array discipline -------------------------------------------------------------------

  /** `require_same_array_type`: two array elements share a type and, for quantities, a dimension. */
  predicate SameArrayType(a: Value, b: Value) {
    match (a, b)
    case (Q(x), Q(y)) => x.dim == y.dim
    case (Text(_), Text(_)) => true
    case (Bool(_), Bool(_)) => true
    case _ => false
  }

  /** `validate_array`: flat, and every element of the first one's type. */
  predicate Homogeneous(items: seq<Value>) {
    |items| > 0 ==>
      && !items[0].Array?
      && forall i | 1 <= i < |items| :: SameArrayType(items[0], items[i])
  }

  /** The invariant of every value a run can reach. */
  predicate Valid(v: Value) {
    v.Array? ==> |v.items| <= MAX_ARRAY_ITEMS && Homogeneous(v.items)
  }

  predicate AllValid(vs: seq<Value>) {
    forall i | 0 <= i < |vs| :: Valid(vs[i])
  }

  predicate ValidEnv(env: map<string, Value>) {
    forall x | x in env :: Valid(env[x])
  }

  /** Elements of a valid array are never arrays themselves. */
  lemma FlatItems(items: seq<Value>, i: nat)
    requires Homogeneous(items) && i < |items|
    ensures !items[i].Array?
    ensures SameArrayType(items[0], items[i])
  {
    if i == 0 {
      assert !items[0].Array?;
    } else {
      assert SameArrayType(items[0], items[i]);
    }
  }

  /** A fresh environment for a call; of two parameters with one name the later wins. */
  function Bind(params: seq<string>, vs: seq<Value>): (env: map<string, Value>)
    requires |params| == |vs|
    ensures forall x | x in env :: env[x] in vs
  {
    if |params| == 0 then map[]
    else
      var k := |params| - 1;
      Bind(params[..k], vs[..k])[params[k] := vs[k]]
  }

  // ---- integers carried by quantities -----------------------------------------------------

  predicate IsInteger(n: real) {
    n.Floor as real == n
  }

  /** `array_index`: a dimensionless integer from 0 to the array limit. */
  function ArrayIndex(v: Value): Res<nat> {
    if v.Q? && v.q.dim == DIMENSIONLESS && IsInteger(v.q.si)
       && 0.0 <= v.q.si <= MAX_ARRAY_ITEMS as real
    then Ok(v.q.si.Floor) else Err
  }

  /** `loop_integer`: a dimensionless integer that a double carries exactly. */
  function LoopInteger(v: Value): Res<int> {
    if v.Q? && v.q.dim == DIMENSIONLESS && IsInteger(v.q.si)
       && -(MAX_SAFE as real) <= v.q.si <= MAX_SAFE as real
    then Ok(v.q.si.Floor) else Err
  }

  // ---- rendering and interpolation --------------------------------------------------------

  function JoinWith(parts: seq<string>, separator: string): string {
    if |parts| == 0 then ""
    else if |parts| == 1 then parts[0]
    else parts[0] + separator + JoinWith(parts[1..], separator)
  }

  function RenderAll(m: Machine, vs: seq<Value>): seq<string>
    decreases vs
  {
    if |vs| == 0 then [] else [Render(m, vs[0])] + RenderAll(m, vs[1..])
  }

  function Render(m: Machine, v: Value): string
    decreases v
  {
    match v
    case Q(q) => m.renderQuantity(q)
    case Text(s) => s
    case Bool(b) => if b then "true" else "false"
    case Array(items) => "[" + JoinWith(RenderAll(m, items), ", ") + "]"
  }

  /** `format_value`: a placeholder's value under an optional number format. */
  function FormatValue(m: Machine, v: Value, spec: Option<string>): Res<string> {
    match spec
    case None => Ok(Render(m, v))
    case Some(f) => if v.Q? then ToRes(m.formatQuantity(v.q, f)) else Err
  }

  /** `text_runtime::snapshot`: placeholders resolved left to right, bounded at every step. */
  function Snapshot(m: Machine, pieces: seq<Piece>, resolve: (string, Option<string>) -> Res<string>,
                    done: string): Res<string>
    decreases |pieces|
  {
    if |pieces| == 0 then
      if m.byteLength(done) > MAX_TEXT_BYTES then Err else Ok(done)
    else
      var piece := match pieces[0]
        case Lit(text) => Ok(text)
        case Field(name, spec) => resolve(name, spec)
        case Malformed => Err;
      if piece.Err? then Err
      else if m.byteLength(done + piece.value) > MAX_TEXT_BYTES then Err
      else Snapshot(m, pieces[1..], resolve, done + piece.value)
  }

  /** Interpolation depends on its resolver only through the answers it gives. */
  lemma {:induction false} SnapshotAgrees(m: Machine, pieces: seq<Piece>,
      f: (string, Option<string>) -> Res<string>, g: (string, Option<string>) -> Res<string>, done: string)
    requires forall name, spec :: f(name, spec) == g(name, spec)
    ensures Snapshot(m, pieces, f, done) == Snapshot(m, pieces, g, done)
    decreases |pieces|
  {
    if |pieces| > 0 {
      var piece := match pieces[0]
        case Lit(text) => Ok(text)
        case Field(name, spec) => f(name, spec)
        case Malformed => Err;
      if piece.Ok? {
        SnapshotAgrees(m, pieces[1..], f, g, done + piece.value);
      }
    }
  }

  // ---- final-state capture ----------------------------------------------------------------

  const FINAL_PREFIX: string := "final:"

  /** The captured bindings of src/mad.rs, each under its `final:` key. */
  function FinalBindings(names: set<string>, env: map<string, Value>): map<string, Value>
    requires names <= env.Keys
  {
    map key | key in (set x | x in names :: FINAL_PREFIX + x) :: env[Unprefixed(key, names)]
  }

  /** The name behind a `final:` key. */
  function Unprefixed(key: string, names: set<string>): (name: string)
    requires exists x :: x in names && key == FINAL_PREFIX + x
    ensures name in names && key == FINAL_PREFIX + name
  {
    assert exists x :: x in names && key == FINAL_PREFIX + x && key[|FINAL_PREFIX|..] == x;
    key[|FINAL_PREFIX|..]
  }

  // ---- element-wise mapping ---------------------------------------------------------------

  predicate Numeric(v: Value) {
    v.Q?
  }

  predicate CompatibleUnits(a: Value, b: Value) {
    a.Q? && b.Q? && a.q.dim == b.q.dim
  }

  /** The preflight's length rule: there is an array, every array has `n` items, within the limit. */
  predicate SharedLength(inputs: seq<Value>, n: nat) {
    && n <= MAX_ARRAY_ITEMS
    && (exists i :: 0 <= i < |inputs| && inputs[i].Array?)
    && forall i | 0 <= i < |inputs| && inputs[i].Array? :: |inputs[i].items| == n
  }

  /** The preflight's type rule, applied to every operand before any lane is computed. */
  predicate NumericOperand(v: Value) {
    if v.Array? then
      forall i | 0 <= i < |v.items| :: Numeric(v.items[i]) && CompatibleUnits(v.items[0], v.items[i])
    else Numeric(v)
  }

  /** The arguments of one lane: scalars repeat, arrays give their item. */
  function LaneArgs(inputs: seq<Value>, lane: nat): (args: seq<Value>)
    requires forall i | 0 <= i < |inputs| && inputs[i].Array? :: lane < |inputs[i].items|
    ensures |args| == |inputs|
  {
    seq(|inputs|, i requires 0 <= i < |inputs| =>
      if inputs[i].Array? then inputs[i].items[lane] else inputs[i])
  }

  /** Lane `k` takes item `k` of every array operand, and every other operand as it is. */
  predicate IsLane(args: seq<Value>, inputs: seq<Value>, k: nat) {
    && |args| == |inputs|
    && forall i | 0 <= i < |inputs| ::
         if inputs[i].Array? then k < |inputs[i].items| && args[i] == inputs[i].items[k] else args[i] == inputs[i]
  }

  /** The first `count` lanes, or a refusal by one of them. */
  function Lanes(inputs: seq<Value>, scalar: seq<Value> -> Res<Value>, count: nat): (r: Res<seq<Value>>)
    requires forall i | 0 <= i < |inputs| && inputs[i].Array? :: count <= |inputs[i].items|
    ensures r.Ok? ==> |r.value| == count
    ensures r.Ok? ==> forall i | 0 <= i < count :: CompatibleUnits(r.value[0], r.value[i])
  {
    if count == 0 then Ok([])
    else
      var before := Lanes(inputs, scalar, count - 1);
      if before.Err? then Err
      else
        var v := scalar(LaneArgs(inputs, count - 1));
        if v.Err? || !Numeric(v.value) then Err
        else if count > 1 && !CompatibleUnits(before.value[0], v.value) then Err
        else Ok(before.value + [v.value])
  }

  function FirstLength(inputs: seq<Value>): Option<nat> {
    if |inputs| == 0 then None
    else if inputs[0].Array? then Some(|inputs[0].items|)
    else FirstLength(inputs[1..])
  }

  /** The shared lane mapping as one function of its operands. */
  function Elementwise(inputs: seq<Value>, scalar: seq<Value> -> Res<Value>): Res<seq<Value>> {
    match FirstLength(inputs)
    case None => Err
    case Some(n) =>
      if SharedLength(inputs, n) && forall i | 0 <= i < |inputs| :: NumericOperand(inputs[i])
      then Lanes(inputs, scalar, n)
      else Err
  }

  lemma {:induction false} FirstLengthIsShared(inputs: seq<Value>, n: nat)
    requires SharedLength(inputs, n)
    ensures FirstLength(inputs) == Some(n)
  {
    if inputs[0].Array? {
    } else {
      var i :| 0 <= i < |inputs| && inputs[i].Array?;
      var rest := inputs[1..];
      assert rest[i - 1].Array?;
      FirstLengthIsShared(rest, n);
    }
  }

  lemma {:induction false} LaneByLane(inputs: seq<Value>, scalar: seq<Value> -> Res<Value>, count: nat)
    requires forall i | 0 <= i < |inputs| && inputs[i].Array? :: count <= |inputs[i].items|
    ensures Lanes(inputs, scalar, count).Ok? ==>
              var r := Lanes(inputs, scalar, count).value;
              forall k | 0 <= k < count :: scalar(LaneArgs(inputs, k)) == Ok(r[k])
    ensures Lanes(inputs, scalar, count).Err? ==>
              exists k | 0 <= k < count ::
                || scalar(LaneArgs(inputs, 0)).Err?
                || scalar(LaneArgs(inputs, k)).Err?
                || !CompatibleUnits(scalar(LaneArgs(inputs, 0)).value, scalar(LaneArgs(inputs, k)).value)
  {
    if count > 0 {
      LaneByLane(inputs, scalar, count - 1);
      var before := Lanes(inputs, scalar, count - 1);
      var v := scalar(LaneArgs(inputs, count - 1));
      if before.Ok? && v.Ok? && Numeric(v.value) && count > 1 {
        assert scalar(LaneArgs(inputs, 0)) == Ok(before.value[0]);
      }
    }
  }

  /** Element-wise mapping succeeds exactly when the shapes agree, every operand is numeric with one
      unit per array, every lane succeeds and all lane results share a unit; lane `k` of the result
      is then the scalar operation on lane `k` of the operands. */
  lemma ElementwiseMeaning(inputs: seq<Value>, scalar: seq<Value> -> Res<Value>, n: nat)
    requires SharedLength(inputs, n)
    requires forall i | 0 <= i < |inputs| :: NumericOperand(inputs[i])
    ensures Elementwise(inputs, scalar).Ok? <==>
              forall k | 0 <= k < n ::
                && scalar(LaneArgs(inputs, k)).Ok?
                && scalar(LaneArgs(inputs, 0)).Ok?
                && CompatibleUnits(scalar(LaneArgs(inputs, 0)).value, scalar(LaneArgs(inputs, k)).value)
    ensures Elementwise(inputs, scalar).Ok? ==>
              && |Elementwise(inputs, scalar).value| == n
              && (forall k | 0 <= k < n :: scalar(LaneArgs(inputs, k)) == Ok(Elementwise(inputs, scalar).value[k]))
              && Valid(Array(Elementwise(inputs, scalar).value))
    ensures forall args, k: nat | k < n && Elementwise(inputs, scalar).Ok? && IsLane(args, inputs, k) ::
              scalar(args) == Ok(Elementwise(inputs, scalar).value[k])
  {
    FirstLengthIsShared(inputs, n);
    LaneByLane(inputs, scalar, n);
    forall args, k: nat | k < n && Elementwise(inputs, scalar).Ok? && IsLane(args, inputs, k)
      ensures scalar(args) == Ok(Elementwise(inputs, scalar).value[k])
    {
      assert args == LaneArgs(inputs, k);
    }
    if Elementwise(inputs, scalar).Ok? {
      var r := Elementwise(inputs, scalar).value;
      forall k | 0 <= k < n
        ensures CompatibleUnits(scalar(LaneArgs(inputs, 0)).value, scalar(LaneArgs(inputs, k)).value)
      {
        assert scalar(LaneArgs(inputs, k)) == Ok(r[k]);
        assert scalar(LaneArgs(inputs, 0)) == Ok(r[0]);
      }
    }
  }

  /** Whatever the operands, a successful mapping gives a valid array. */
  lemma ElementwiseValid(inputs: seq<Value>, scalar: seq<Value> -> Res<Value>)
    ensures Elementwise(inputs, scalar).Ok? ==> Valid(Array(Elementwise(inputs, scalar).value))
  {
    if Elementwise(inputs, scalar).Ok? {
      ElementwiseMeaning(inputs, scalar, FirstLength(inputs).value);
    }
  }
}
