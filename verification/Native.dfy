/** The imperative target language of src/compiler.rs and its meaning: the Rust statements the code
    generator emits, with block-scoped locals, `?`, early return, and the emitted runtime functions
    (`binary`, `compare`, `array_*`, `goblin_call`, `loop_tick`). */
module Native {
  import opened Prelude
  import opened Values

  const MAX_CALL_DEPTH: nat := 16
  const MAX_RECORDED_NAMES: nat := 256

  /** Emitted runtime functions whose arguments are passed as `(argument)?`. */
  datatype Op =
    | ArrayGet
    | UnaryOp(sign: char)
    | BinaryOp(op: char)
    | CompareOp(cmp: string)
    | NotOp
    | ArgvOp
    | LenOp
    | AppendOp
    | InputOp
    | LibraryOp(name: string)

  datatype NExpr =
    | NNumber(n: real)
    | NQuantity(n: real, unit: string)
    | NConstant(q: Quantity)
    | NBool(flag: bool)
    | NText(template: string)
    | NPlainText(text: string)
    | NArgc
    | NGet(name: string)
    | NAnd(left: NExpr, right: NExpr)
    | NOr(left: NExpr, right: NExpr)
    | NSlice(base: NExpr, start: Option<NExpr>, stop: Option<NExpr>)
    | NOp(op: Op, args: seq<NExpr>)
    | NLiteral(items: seq<NExpr>)
    | NCall(name: string, args: seq<NExpr>)
    | NData(name: string, args: seq<NExpr>)

  /** Emitted statements; `x` names a Rust local. */
  datatype NStmt =
    | NLet(x: string, e: NExpr)                      // let x = (e)?;
    | NLetRange(x: string, e: NExpr)                 // let x = range_integer((e)?)? as i128;
    | NLetItems(x: string, from: string)             // let Value::Array(x) = from else { return Err };
    | NLetFlag(x: string, flag: bool)                // let mut x = flag;
    | NLetCopy(x: string, from: string)              // let mut x = from;
    | NSetFlag(x: string, flag: bool)                // x = flag;
    | NAdvance(x: string, delta: string)             // x += delta;
    | NRefuseZero(x: string)                         // if x == 0 { return Err }
    | NInsert(name: string, x: string)               // goblin_env.insert(name, x);
    | NInsertIndex(name: string, x: string)          // goblin_env.insert(name, Value::scalar(x as f64)?);
    | NRecord(name: string)                          // goblin_final_names.insert(name); refuse above 256
    | NArraySet(name: string, index: NExpr, e: NExpr)
    | NPrint(args: seq<NExpr>)
    | NPrintf(args: seq<NExpr>)
    | NDiscard(e: NExpr)                             // let _ = (e)?;
    | NSeal(name: string, e: NExpr)
    | NReturn(e: NExpr)
    | NBreak
    | NContinue
    | NTick                                          // loop_tick(&mut goblin_loop_steps)?;
    | NBreakUnless(e: NExpr)                         // if !as_bool((e)?)? { break; }
    | NIf(test: NExpr, body: seq<NStmt>, otherwise: seq<NStmt>)
    | NIfUnset(x: string, body: seq<NStmt>)          // if !x { body }
    | NIfEqual(x: string, y: string, body: seq<NStmt>) // if switch_equal(&x, &y)? { body }
    | NBlock(body: seq<NStmt>)
    | NWhileRange(body: seq<NStmt>)                  // while if step > 0 {index < stop} else {index > stop}
    | NLoop(body: seq<NStmt>)
    | NForIn(x: string, items: string, body: seq<NStmt>)
    | NBanner
    | NInline(block: nat)

  datatype NFunc = NFunc(params: seq<string>, body: seq<NStmt>)

  datatype NProgram = NProgram(m: Machine, funcs: map<string, NFunc>, main: seq<NStmt>, budget: nat, mad: bool)

  /** `Stuck` marks code this semantics does not run: inline Rust, data calls, ill-typed locals, and
      a `while`/`loop` iteration that ends without a tick. */
  datatype NRes<+T> = NOk(value: T) | NErr | Stuck

  datatype NFlow = Next | BreakFlow | ContinueFlow | Ret(value: Value)

  datatype NState = NState(
    env: map<string, Value>,
    out: seq<string>,
    sealed: map<string, Value>,
    names: set<string>,
    loops: nat,
    world: World)

  datatype Local = LValue(v: Value) | LInt(i: int) | LFlag(b: bool) | LItems(items: seq<Value>)

  /** Rust locals, innermost last. */
  type Locals = seq<(string, Local)>

  datatype NOut<+T> = NOut(st: NState, res: NRes<T>)

  datatype NExec = NExec(st: NState, locals: Locals, res: NRes<NFlow>)

  // ---- locals -----------------------------------------------------------------------------

  function Get(locals: Locals, x: string): Option<Local> {
    if |locals| == 0 then None
    else if locals[|locals| - 1].0 == x then Some(locals[|locals| - 1].1)
    else Get(locals[..|locals| - 1], x)
  }

  function Set(locals: Locals, x: string, v: Local): (r: Locals)
    ensures |r| == |locals|
  {
    if |locals| == 0 then []
    else if locals[|locals| - 1].0 == x then locals[..|locals| - 1] + [(x, v)]
    else Set(locals[..|locals| - 1], x, v) + [locals[|locals| - 1]]
  }

  // ---- runtime functions ------------------------------------------------------------------

  function RtUnaryScalar(m: Machine, op: char, v: Value): Res<Value> {
    if !v.Q? then Err
    else if op != '-' then Ok(v)
    else if m.negate(v.q).Some? then Ok(Q(m.negate(v.q).value))
    else Err
  }

  function RtUnary(m: Machine, op: char, v: Value): Res<Value> {
    if v.Array? then
      var lanes := Elementwise([v], args => if |args| == 1 then RtUnaryScalar(m, op, args[0]) else Err);
      if lanes.Ok? then Ok(Array(lanes.value)) else Err
    else RtUnaryScalar(m, op, v)
  }

  function RtBinaryScalar(m: Machine, op: char, l: Value, r: Value): Res<Value> {
    if op == '+' && l.Text? && r.Text? then
      if m.concat(l.s, r.s).Some? then Ok(Text(m.concat(l.s, r.s).value)) else Err
    else if l.Q? && r.Q? && m.arith(op, l.q, r.q).Some? then Ok(Q(m.arith(op, l.q, r.q).value))
    else Err
  }

  function RtBinary(m: Machine, op: char, l: Value, r: Value): Res<Value> {
    if l.Array? || r.Array? then
      var lanes := Elementwise([l, r], args => if |args| == 2 then RtBinaryScalar(m, op, args[0], args[1]) else Err);
      if lanes.Ok? then Ok(Array(lanes.value)) else Err
    else RtBinaryScalar(m, op, l, r)
  }

  /** The emitted element test of an array comparison: anything that is not a scalar is unequal. */
  predicate RtSameItem(a: Value, b: Value) {
    match (a, b)
    case (Q(x), Q(y)) => x.si == y.si && x.dim == y.dim
    case (Text(x), Text(y)) => x == y
    case (Bool(x), Bool(y)) => x == y
    case _ => false
  }

  predicate RtSameItems(a: seq<Value>, b: seq<Value>) {
    |a| == |b| && forall i | 0 <= i < |a| :: RtSameItem(a[i], b[i])
  }

  function RtCompare(op: string, l: Value, r: Value): Res<bool> {
    match (l, r)
    case (Q(a), Q(b)) =>
      if a.dim != b.dim then Err
      else if op == "==" then Ok(a.si == b.si)
      else if op == "!=" then Ok(a.si != b.si)
      else if op == "<" then Ok(a.si < b.si)
      else if op == "<=" then Ok(a.si <= b.si)
      else if op == ">" then Ok(a.si > b.si)
      else if op == ">=" then Ok(a.si >= b.si)
      else Err
    case (Text(a), Text(b)) =>
      if op == "==" then Ok(a == b) else if op == "!=" then Ok(a != b) else Err
    case (Bool(a), Bool(b)) =>
      if op == "==" then Ok(a == b) else if op == "!=" then Ok(a != b) else Err
    case (Array(a), Array(b)) =>
      if op == "==" || op == "!=" then Ok(RtSameItems(a, b) == (op == "==")) else Err
    case _ => Err
  }

  function RtIndexNumber(v: Value): Res<nat> {
    if !v.Q? then Err
    else if v.q.dim != DIMENSIONLESS || !IsInteger(v.q.si) || v.q.si < 0.0 || v.q.si > MAX_ARRAY_ITEMS as real then Err
    else Ok(v.q.si.Floor)
  }

  function RtRangeInteger(v: Value): Res<int> {
    if !v.Q? then Err
    else if v.q.dim != DIMENSIONLESS || !IsInteger(v.q.si) || v.q.si > MAX_SAFE as real || -v.q.si > MAX_SAFE as real then Err
    else Ok(v.q.si.Floor)
  }

  function RtArrayGet(base: Value, index: Value): Res<Value> {
    var i := RtIndexNumber(index);
    if i.Err? then Err
    else if !base.Array? then Err
    else if i.value < |base.items| then Ok(base.items[i.value])
    else Err
  }

  function RtBound(v: Option<Value>, default: nat): Res<nat> {
    match v
    case None => Ok(default)
    case Some(w) => RtIndexNumber(w)
  }

  function RtSlice(base: Value, start: Option<Value>, stop: Option<Value>): Res<Value> {
    if !base.Array? then Err
    else
      var from := RtBound(start, 0);
      var to := RtBound(stop, |base.items|);
      if from.Err? || to.Err? then Err
      else if from.value > to.value || to.value > |base.items| then Err
      else Ok(Array(base.items[from.value..to.value]))
  }

  function RtArraySet(env: map<string, Value>, name: string, index: Value, v: Value): Res<map<string, Value>> {
    var i := RtIndexNumber(index);
    if i.Err? then Err
    else if name !in env then Err
    else if !env[name].Array? then Err
    else if i.value >= |env[name].items| then Err
    else if !SameArrayType(env[name].items[0], v) then Err
    else Ok(env[name := Array(env[name].items[i.value := v])])
  }

  function RtLiteral(vs: seq<Value>): Res<Value> {
    if |vs| > MAX_ARRAY_ITEMS || !Homogeneous(vs) then Err else Ok(Array(vs))
  }

  function RtAppend(base: Value, v: Value): Res<Value> {
    if !base.Array? then Err
    else if |base.items| >= MAX_ARRAY_ITEMS then Err
    else if v.Array? || (|base.items| > 0 && !SameArrayType(base.items[0], v)) then Err
    else Ok(Array(base.items + [v]))
  }

  function RtLen(v: Value): Res<Value> {
    match v
    case Array(items) => Ok(Scalar(|items| as real))
    case Text(s) => Ok(Scalar(|s| as real))
    case _ => Err
  }

  function RtArgv(m: Machine, v: Value): Res<Value> {
    if !v.Q? || v.q.dim != DIMENSIONLESS || !IsInteger(v.q.si) || v.q.si < 0.0 || v.q.si >= |m.argv| as real then Err
    else Ok(Text(m.argv[v.q.si.Floor]))
  }

  function RtLine(m: Machine, vs: seq<Value>): string {
    if |vs| == 1 then Render(m, vs[0]) else JoinWith(RenderAll(m, vs), " ")
  }

  function RtPrintf(m: Machine, vs: seq<Value>): Res<string> {
    if |vs| > 0 && vs[0].Text? then ToRes(m.printf(vs[0].s, vs[1..])) else Err
  }

  /** The emitted `interpolate`: argc, then registered constants, then the environment. */
  function RtResolve(m: Machine, env: map<string, Value>): (string, Option<string>) -> Res<string> {
    (name, spec) =>
      var v :=
        if name == "argc" then Ok(Scalar(|m.argv| as real))
        else if m.constantId(name).Some? then
          (if m.constant(m.constantId(name).value).Some? then Ok(Q(m.constant(m.constantId(name).value).value)) else Err)
        else if name in env then Ok(env[name])
        else Err;
      if v.Err? then Err else FormatValue(m, v.value, spec)
  }

  predicate OpArity(op: Op, n: nat) {
    match op
    case ArrayGet => n == 2
    case UnaryOp(_) => n == 1
    case BinaryOp(_) => n == 2
    case CompareOp(_) => n == 2
    case NotOp => n == 1
    case ArgvOp => n == 1
    case LenOp => n == 1
    case AppendOp => n == 2
    case InputOp => n == 1
    case LibraryOp(_) => true
  }

  function Pure(r: Res<Value>, w: World): Res<(Value, World)> {
    if r.Ok? then Ok((r.value, w)) else Err
  }

  function ApplyOp(m: Machine, op: Op, vs: seq<Value>, w: World): Res<(Value, World)> {
    if !OpArity(op, |vs|) then Err
    else
      match op
      case ArrayGet => Pure(RtArrayGet(vs[0], vs[1]), w)
      case UnaryOp(c) => Pure(RtUnary(m, c, vs[0]), w)
      case BinaryOp(c) => Pure(RtBinary(m, c, vs[0], vs[1]), w)
      case CompareOp(c) =>
        var b := RtCompare(c, vs[0], vs[1]);
        if b.Err? then Err else Ok((Bool(b.value), w))
      case NotOp => if vs[0].Bool? then Ok((Bool(!vs[0].b), w)) else Err
      case ArgvOp => Pure(RtArgv(m, vs[0]), w)
      case LenOp => Pure(RtLen(vs[0]), w)
      case AppendOp => Pure(RtAppend(vs[0], vs[1]), w)
      case InputOp =>
        if !vs[0].Text? then Err
        else
          (match m.input(vs[0].s, w)
           case Some((answer, w')) => Ok((Text(answer), w'))
           case None => Err)
      case LibraryOp(name) => if m.arity(name, |vs|) then ToRes(m.builtin(name, vs, w)) else Err
  }

  // ---- expressions ------------------------------------------------------------------------

  predicate Fits(p: NProgram, st: NState, depth: nat) {
    depth <= MAX_CALL_DEPTH && st.loops <= p.budget
  }

  /** What evaluating an expression leaves alone, whatever its outcome. */
  predicate Same(p: NProgram, st: NState, st': NState) {
    && st'.env == st.env && st'.sealed == st.sealed && st'.names == st.names
    && st.loops <= st'.loops <= p.budget
  }

  function OfRes<T>(r: Res<T>): NRes<T> {
    if r.Ok? then NOk(r.value) else NErr
  }

  predicate NLeaf(e: NExpr) {
    e.NNumber? || e.NQuantity? || e.NConstant? || e.NBool? || e.NText? || e.NPlainText? || e.NArgc? || e.NGet?
  }

  function LeafN(m: Machine, env: map<string, Value>, e: NExpr): Res<Value>
    requires NLeaf(e)
  {
    match e
    case NNumber(n) => Ok(Scalar(n))
    case NQuantity(n, unit) => if m.fromUnit(n, unit).Some? then Ok(Q(m.fromUnit(n, unit).value)) else Err
    case NConstant(q) => Ok(Q(q))
    case NBool(b) => Ok(Bool(b))
    case NText(t) =>
      var text := Snapshot(m, m.scan(t), RtResolve(m, env), "");
      if text.Err? then Err else Ok(Text(text.value))
    case NPlainText(t) => Ok(Text(t))
    case NArgc => Ok(Scalar(|m.argv| as real))
    case NGet(name) => if name in env then Ok(env[name]) else Err
  }

  function EvalN(p: NProgram, e: NExpr, st: NState, depth: nat): (r: NOut<Value>)
    requires Fits(p, st, depth)
    ensures Same(p, st, r.st)
    decreases MAX_CALL_DEPTH - depth, e
  {
    if NLeaf(e) then NOut(st, OfRes(LeafN(p.m, st.env, e)))
    else
      match e
      case NAnd(_, _) => EvalJunction(p, e, st, depth)
      case NOr(_, _) => EvalJunction(p, e, st, depth)
      case NSlice(_, _, _) => EvalNSlice(p, e, st, depth)
      case NOp(op, args) =>
        var vs := EvalSeq(p, args, st, depth);
        if !vs.res.NOk? then NOut(vs.st, if vs.res.NErr? then NErr else Stuck)
        else
          (match ApplyOp(p.m, op, vs.res.value, vs.st.world)
           case Ok((v, w)) => NOut(vs.st.(world := w), NOk(v))
           case Err => NOut(vs.st, NErr))
      case NLiteral(items) =>
        var vs := EvalEach(p, items, st, depth);
        NOut(vs.st, if vs.res.NErr? then NErr else if vs.res.Stuck? then Stuck else OfRes(RtLiteral(vs.res.value)))
      case NCall(name, args) => EvalNCall(p, e, st, depth)
      case _ => NOut(st, Stuck)
  }

  /** `(a)?, (b)?, …`: stops at the first failure. */
  function EvalSeq(p: NProgram, args: seq<NExpr>, st: NState, depth: nat): (r: NOut<seq<Value>>)
    requires Fits(p, st, depth)
    ensures Same(p, st, r.st) && (r.res.NOk? ==> |r.res.value| == |args|)
    decreases MAX_CALL_DEPTH - depth, args
  {
    if |args| == 0 then NOut(st, NOk([]))
    else
      var first := EvalN(p, args[0], st, depth);
      if !first.res.NOk? then NOut(first.st, if first.res.NErr? then NErr else Stuck)
      else
        var rest := EvalSeq(p, args[1..], first.st, depth);
        NOut(rest.st, if rest.res.NOk? then NOk([first.res.value] + rest.res.value) else rest.res)
  }

  /** `vec![a, b, …]` of results: every element is evaluated, then the first failure counts. */
  function EvalEach(p: NProgram, args: seq<NExpr>, st: NState, depth: nat): (r: NOut<seq<Value>>)
    requires Fits(p, st, depth)
    ensures Same(p, st, r.st) && (r.res.NOk? ==> |r.res.value| == |args|)
    decreases MAX_CALL_DEPTH - depth, args
  {
    if |args| == 0 then NOut(st, NOk([]))
    else
      var first := EvalN(p, args[0], st, depth);
      if first.res.Stuck? then NOut(first.st, Stuck)
      else
        var rest := EvalEach(p, args[1..], first.st, depth);
        if rest.res.Stuck? then rest
        else if first.res.NErr? || rest.res.NErr? then NOut(rest.st, NErr)
        else NOut(rest.st, NOk([first.res.value] + rest.res.value))
  }

  function EvalJunction(p: NProgram, e: NExpr, st: NState, depth: nat): (r: NOut<Value>)
    requires Fits(p, st, depth) && (e.NAnd? || e.NOr?)
    ensures Same(p, st, r.st)
    decreases MAX_CALL_DEPTH - depth, e, 1
  {
    var left := EvalN(p, e.left, st, depth);
    if !left.res.NOk? then left
    else if !left.res.value.Bool? then NOut(left.st, NErr)
    else if left.res.value.b == e.NOr? then NOut(left.st, NOk(Bool(e.NOr?)))
    else
      var right := EvalN(p, e.right, left.st, depth);
      if !right.res.NOk? then right
      else if !right.res.value.Bool? then NOut(right.st, NErr)
      else NOut(right.st, NOk(Bool(right.res.value.b)))
  }

  function EvalOptional(p: NProgram, whole: NExpr, e: Option<NExpr>, st: NState, depth: nat): (r: NOut<Option<Value>>)
    requires Fits(p, st, depth) && (e.Some? ==> e.value < whole)
    ensures Same(p, st, r.st)
    decreases MAX_CALL_DEPTH - depth, whole, 0
  {
    match e
    case None => NOut(st, NOk(None))
    case Some(x) =>
      var v := EvalN(p, x, st, depth);
      if v.res.NOk? then NOut(v.st, NOk(Some(v.res.value)))
      else NOut(v.st, if v.res.NErr? then NErr else Stuck)
  }

  function EvalNSlice(p: NProgram, e: NExpr, st: NState, depth: nat): (r: NOut<Value>)
    requires Fits(p, st, depth) && e.NSlice?
    ensures Same(p, st, r.st)
    decreases MAX_CALL_DEPTH - depth, e, 1
  {
    var base := EvalN(p, e.base, st, depth);
    if !base.res.NOk? then base
    else
      var start := EvalOptional(p, e, e.start, base.st, depth);
      if !start.res.NOk? then NOut(start.st, if start.res.NErr? then NErr else Stuck)
      else
        var stop := EvalOptional(p, e, e.stop, start.st, depth);
        if !stop.res.NOk? then NOut(stop.st, if stop.res.NErr? then NErr else Stuck)
        else NOut(stop.st, OfRes(RtSlice(base.res.value, start.res.value, stop.res.value)))
  }

  /** `goblin_call`: depth first, then the name, then the argument count, then a fresh environment.
      `goblin_sealed_values` and `goblin_final_names` belong to `goblin_main` and are out of its scope. */
  function EvalNCall(p: NProgram, e: NExpr, st: NState, depth: nat): (r: NOut<Value>)
    requires Fits(p, st, depth) && e.NCall?
    ensures Same(p, st, r.st)
    decreases MAX_CALL_DEPTH - depth, e, |e.args| + 1
  {
    var vs := EvalSeq(p, e.args, st, depth);
    if !vs.res.NOk? then NOut(vs.st, if vs.res.NErr? then NErr else Stuck)
    else if depth + 1 > MAX_CALL_DEPTH then NOut(vs.st, NErr)
    else if e.name !in p.funcs then NOut(vs.st, NErr)
    else
      var f := p.funcs[e.name];
      if |e.args| != |f.params| then NOut(vs.st, NErr)
      else
        var entry := vs.st.(env := Bind(f.params, vs.res.value), sealed := map[], names := {});
        var body := ExecN(p, f.body, [], entry, depth + 1);
        var back := body.st.(env := st.env, sealed := st.sealed, names := st.names);
        match body.res
        case NErr => NOut(back, NErr)
        case Stuck => NOut(back, Stuck)
        case NOk(flow) =>
          if flow.Ret? then NOut(back, NOk(flow.value))
          else if flow.Next? then NOut(back, NErr)
          else NOut(back, Stuck)
  }

  // ---- statements -------------------------------------------------------------------------

  /** Statement outcomes: the loop counter never falls, and no local of an outer scope disappears. */
  predicate Ran(p: NProgram, st: NState, locals: Locals, r: NExec) {
    && st.loops <= r.st.loops <= p.budget
    && |locals| <= |r.locals|
  }

  function ExecN(p: NProgram, ss: seq<NStmt>, locals: Locals, st: NState, depth: nat): (r: NExec)
    requires Fits(p, st, depth)
    ensures Ran(p, st, locals, r)
    decreases MAX_CALL_DEPTH - depth, ss
  {
    if |ss| == 0 then NExec(st, locals, NOk(Next))
    else
      var first := ExecOne(p, ss[0], locals, st, depth);
      if first.res == NOk(Next) then ExecN(p, ss[1..], first.locals, first.st, depth) else first
  }

  /** A block: its own locals end with it. */
  function Scope(r: NExec, locals: Locals): NExec
    requires |locals| <= |r.locals|
  {
    r.(locals := r.locals[..|locals|])
  }

  function Failed<T>(r: NRes<T>): NRes<NFlow>
    requires !r.NOk?
  {
    if r.NErr? then NErr else Stuck
  }

  function ExecOne(p: NProgram, s: NStmt, locals: Locals, st: NState, depth: nat): (r: NExec)
    requires Fits(p, st, depth)
    ensures Ran(p, st, locals, r)
    decreases MAX_CALL_DEPTH - depth, s
  {
    match s
    case NIf(_, _, _) => ExecChoice(p, s, locals, st, depth)
    case NIfUnset(_, _) => ExecChoice(p, s, locals, st, depth)
    case NIfEqual(_, _, _) => ExecChoice(p, s, locals, st, depth)
    case NBlock(body) => Scope(ExecN(p, body, locals, st, depth), locals)
    case NWhileRange(_) => LoopRange(p, s, locals, st, depth)
    case NLoop(_) => Loop(p, s, locals, st, depth)
    case NForIn(_, items, _) =>
      var l := Get(locals, items);
      if l.Some? && l.value.LItems? then LoopItems(p, s, l.value.items, locals, st, depth)
      else NExec(st, locals, Stuck)
    case _ => ExecFlat(p, s, locals, st, depth)
  }

  predicate IsFlat(s: NStmt) {
    !s.NIf? && !s.NIfUnset? && !s.NIfEqual? && !s.NBlock? && !s.NWhileRange? && !s.NLoop? && !s.NForIn?
  }

  predicate IsEvaluating(s: NStmt) {
    s.NLet? || s.NLetRange? || s.NDiscard? || s.NSeal? || s.NReturn? || s.NBreakUnless?
  }

  function ExecFlat(p: NProgram, s: NStmt, locals: Locals, st: NState, depth: nat): (r: NExec)
    requires Fits(p, st, depth) && IsFlat(s)
    ensures Ran(p, st, locals, r)
    decreases MAX_CALL_DEPTH - depth, s, 1
  {
    if IsEvaluating(s) then
      var v := EvalN(p, s.e, st, depth);
      if v.res.NOk? then Use(p, s, v.res.value, locals, v.st) else NExec(v.st, locals, Failed(v.res))
    else if s.NArraySet? then ExecArraySet(p, s, locals, st, depth)
    else if s.NPrint? then
      var vs := EvalEach(p, s.args, st, depth);
      if !vs.res.NOk? then NExec(vs.st, locals, Failed(vs.res))
      else NExec(vs.st.(out := vs.st.out + [RtLine(p.m, vs.res.value)]), locals, NOk(Next))
    else if s.NPrintf? then
      var vs := EvalEach(p, s.args, st, depth);
      if !vs.res.NOk? then NExec(vs.st, locals, Failed(vs.res))
      else
        match RtPrintf(p.m, vs.res.value)
        case Ok(line) => NExec(vs.st.(out := vs.st.out + [line]), locals, NOk(Next))
        case Err => NExec(vs.st, locals, NErr)
    else ExecLocal(p, s, locals, st)
  }

  /** What a statement does with the value of its one expression. */
  function Use(p: NProgram, s: NStmt, v: Value, locals: Locals, st: NState): (r: NExec)
    requires IsEvaluating(s) && st.loops <= p.budget
    ensures Ran(p, st, locals, r)
  {
    match s
    case NLet(x, _) => NExec(st, locals + [(x, LValue(v))], NOk(Next))
    case NLetRange(x, _) =>
      var i := RtRangeInteger(v);
      if i.Err? then NExec(st, locals, NErr) else NExec(st, locals + [(x, LInt(i.value))], NOk(Next))
    case NDiscard(_) => NExec(st, locals, NOk(Next))
    case NSeal(name, _) => NExec(st.(sealed := st.sealed[name := v]), locals, NOk(Next))
    case NReturn(_) => NExec(st, locals, NOk(Ret(v)))
    case NBreakUnless(_) =>
      if !v.Bool? then NExec(st, locals, NErr)
      else NExec(st, locals, NOk(if v.b then Next else BreakFlow))
  }

  function ExecArraySet(p: NProgram, s: NStmt, locals: Locals, st: NState, depth: nat): (r: NExec)
    requires Fits(p, st, depth) && s.NArraySet?
    ensures Ran(p, st, locals, r)
    decreases MAX_CALL_DEPTH - depth, s, 0
  {
    var index := EvalN(p, s.index, st, depth);
    if !index.res.NOk? then NExec(index.st, locals, Failed(index.res))
    else
      var v := EvalN(p, s.e, index.st, depth);
      if !v.res.NOk? then NExec(v.st, locals, Failed(v.res))
      else
        var env := RtArraySet(v.st.env, s.name, index.res.value, v.res.value);
        if env.Err? then NExec(v.st, locals, NErr) else NExec(v.st.(env := env.value), locals, NOk(Next))
  }

  /** Statements that evaluate no expression. */
  function ExecLocal(p: NProgram, s: NStmt, locals: Locals, st: NState): (r: NExec)
    requires st.loops <= p.budget
    ensures Ran(p, st, locals, r)
  {
    match s
    case NLetItems(x, from) =>
      var l := Get(locals, from);
      if l.None? || !l.value.LValue? then NExec(st, locals, Stuck)
      else if !l.value.v.Array? then NExec(st, locals, NErr)
      else NExec(st, locals + [(x, LItems(l.value.v.items))], NOk(Next))
    case NLetFlag(x, b) => NExec(st, locals + [(x, LFlag(b))], NOk(Next))
    case NLetCopy(x, from) =>
      var l := Get(locals, from);
      if l.None? then NExec(st, locals, Stuck) else NExec(st, locals + [(x, l.value)], NOk(Next))
    case NSetFlag(x, b) => NExec(st, Set(locals, x, LFlag(b)), NOk(Next))
    case NAdvance(x, delta) =>
      var l, d := Get(locals, x), Get(locals, delta);
      if l.None? || d.None? || !l.value.LInt? || !d.value.LInt? then NExec(st, locals, Stuck)
      else NExec(st, Set(locals, x, LInt(l.value.i + d.value.i)), NOk(Next))
    case NRefuseZero(x) =>
      var l := Get(locals, x);
      if l.None? || !l.value.LInt? then NExec(st, locals, Stuck)
      else NExec(st, locals, if l.value.i == 0 then NErr else NOk(Next))
    case NInsert(name, x) =>
      var l := Get(locals, x);
      if l.None? || !l.value.LValue? then NExec(st, locals, Stuck)
      else NExec(st.(env := st.env[name := l.value.v]), locals, NOk(Next))
    case NInsertIndex(name, x) =>
      var l := Get(locals, x);
      if l.None? || !l.value.LInt? then NExec(st, locals, Stuck)
      else NExec(st.(env := st.env[name := Scalar(l.value.i as real)]), locals, NOk(Next))
    case NRecord(name) =>
      var names := st.names + {name};
      NExec(st.(names := names), locals, if |names| > MAX_RECORDED_NAMES then NErr else NOk(Next))
    case NBreak => NExec(st, locals, NOk(BreakFlow))
    case NContinue => NExec(st, locals, NOk(ContinueFlow))
    case NTick =>
      if st.loops >= p.budget then NExec(st, locals, NErr)
      else NExec(st.(loops := st.loops + 1), locals, NOk(Next))
    case NBanner => NExec(st.(out := st.out + ["GOBLIN++ GO_PRIVATE MODE"]), locals, NOk(Next))
    case _ => NExec(st, locals, Stuck)
  }

  function ExecChoice(p: NProgram, s: NStmt, locals: Locals, st: NState, depth: nat): (r: NExec)
    requires Fits(p, st, depth) && (s.NIf? || s.NIfUnset? || s.NIfEqual?)
    ensures Ran(p, st, locals, r)
    decreases MAX_CALL_DEPTH - depth, s, 0
  {
    match s
    case NIf(test, body, otherwise) =>
      var v := EvalN(p, test, st, depth);
      if !v.res.NOk? then NExec(v.st, locals, Failed(v.res))
      else if !v.res.value.Bool? then NExec(v.st, locals, NErr)
      else Scope(ExecN(p, if v.res.value.b then body else otherwise, locals, v.st, depth), locals)
    case NIfUnset(x, body) =>
      var l := Get(locals, x);
      if l.None? || !l.value.LFlag? then NExec(st, locals, Stuck)
      else if l.value.b then NExec(st, locals, NOk(Next))
      else Scope(ExecN(p, body, locals, st, depth), locals)
    case NIfEqual(x, y, body) =>
      var a, b := Get(locals, x), Get(locals, y);
      if a.None? || b.None? || !a.value.LValue? || !b.value.LValue? then NExec(st, locals, Stuck)
      else
        (match RtCompare("==", a.value.v, b.value.v)
         case Err => NExec(st, locals, NErr)
         case Ok(hit) =>
           if hit then Scope(ExecN(p, body, locals, st, depth), locals) else NExec(st, locals, NOk(Next)))
  }

  // ---- loops ------------------------------------------------------------------------------

  predicate LoopEnds(res: NRes<NFlow>) {
    !res.NOk? || res.value.Ret? || res.value.BreakFlow?
  }

  /** How a loop leaves after an iteration that ends it. */
  function LeaveLoop(r: NExec): NExec {
    if r.res == NOk(BreakFlow) then r.(res := NOk(Next)) else r
  }

  function LoopRange(p: NProgram, s: NStmt, locals: Locals, st: NState, depth: nat): (r: NExec)
    requires Fits(p, st, depth) && s.NWhileRange?
    ensures Ran(p, st, locals, r)
    decreases MAX_CALL_DEPTH - depth, s, p.budget - st.loops
  {
    var index, stop, step := Get(locals, "index"), Get(locals, "stop"), Get(locals, "step");
    if index.None? || stop.None? || step.None? || !index.value.LInt? || !stop.value.LInt? || !step.value.LInt? then
      NExec(st, locals, Stuck)
    else if !(if step.value.i > 0 then index.value.i < stop.value.i else index.value.i > stop.value.i) then
      NExec(st, locals, NOk(Next))
    else
      var body := Scope(ExecN(p, s.body, locals, st, depth), locals);
      if LoopEnds(body.res) then LeaveLoop(body)
      else if body.st.loops == st.loops then body.(res := Stuck)
      else LoopRange(p, s, body.locals, body.st, depth)
  }

  function Loop(p: NProgram, s: NStmt, locals: Locals, st: NState, depth: nat): (r: NExec)
    requires Fits(p, st, depth) && s.NLoop?
    ensures Ran(p, st, locals, r)
    decreases MAX_CALL_DEPTH - depth, s, p.budget - st.loops
  {
    var body := Scope(ExecN(p, s.body, locals, st, depth), locals);
    if LoopEnds(body.res) then LeaveLoop(body)
    else if body.st.loops == st.loops then body.(res := Stuck)
    else Loop(p, s, body.locals, body.st, depth)
  }

  function LoopItems(p: NProgram, s: NStmt, items: seq<Value>, locals: Locals, st: NState, depth: nat): (r: NExec)
    requires Fits(p, st, depth) && s.NForIn?
    ensures Ran(p, st, locals, r)
    decreases MAX_CALL_DEPTH - depth, s, |items|
  {
    if |items| == 0 then NExec(st, locals, NOk(Next))
    else
      var body := Scope(ExecN(p, s.body, locals + [(s.x, LValue(items[0]))], st, depth), locals);
      if LoopEnds(body.res) then LeaveLoop(body)
      else LoopItems(p, s, items[1..], body.locals, body.st, depth)
  }

  // ---- whole programs ---------------------------------------------------------------------

  /** The final-state capture emitted after the body of a COMPLETELY_MAD program. */
  function CaptureFinal(st: NState): Res<NState> {
    if st.names <= st.env.Keys then
      Ok(st.(sealed := st.sealed + FinalBindings(st.names, st.env)))
    else Err
  }

  /** `goblin_main`. */
  function RunNative(p: NProgram, w: World): NOut<()> {
    var main := ExecN(p, p.main, [], NState(map[], [], map[], {}, 0, w), 0);
    match main.res
    case NErr => NOut(main.st, NErr)
    case Stuck => NOut(main.st, Stuck)
    case NOk(flow) =>
      if !flow.Next? then NOut(main.st, Stuck)
      else if !p.mad then NOut(main.st, NOk(()))
      else
        match CaptureFinal(main.st)
        case Ok(done) => NOut(done, NOk(()))
        case Err => NOut(main.st, NErr)
  }
}
