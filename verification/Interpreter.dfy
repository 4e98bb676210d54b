/** The structured interpreter of src/evaluator.rs as functions of its state. `Evaluation.dfy` has the same
    operations as methods on a mutable object, proved equal to these functions. They terminate by the call
    depth left, then the program text, then the loop budget left, and each promises to leave the depth as it
    was and to keep the number of loop bodies within the budget. */
module Interpreter {
  import opened Prelude
  import opened Ast
  import opened Values

  const MAX_FUNCTION_DEPTH: nat := 16
  const DEFAULT_LOOP_BUDGET: nat := 1_000_000
  const MAX_FINAL_NAMES: nat := 256

  datatype Func = Func(params: seq<string>, body: seq<Stmt>)

  /** What a run never changes: the shared libraries, the user functions, the loop budget, and the
      COMPLETELY_MAD and GO_PRIVATE profiles. */
  datatype Context = Context(m: Machine, funcs: map<string, Func>, budget: nat, mad: bool, secret: bool)

  /** The interpreter's state. `called` and `exprPrints` are instrumentation: the names of all calls
      attempted so far, and how many print/printf calls ran outside statement position. */
  datatype State = State(
    env: map<string, Value>,
    out: seq<string>,
    sealed: map<string, Value>,
    names: set<string>,
    loops: nat,
    depth: nat,
    world: World,
    called: set<string>,
    exprPrints: nat)

  datatype Flow = Normal | Broke | Continued | Returned(value: Value)

  datatype Out<+T> = Out(st: State, res: Res<T>)

  predicate Within(c: Context, st: State) {
    st.depth <= MAX_FUNCTION_DEPTH && st.loops <= c.budget
  }

  /** What no evaluation step may disturb: the call depth, the loop budget, the recorded names
      while a function runs. */
  predicate After(c: Context, st: State, st': State) {
    && st'.depth == st.depth
    && st.loops <= st'.loops <= c.budget
    && (st.depth > 0 ==> st'.names == st.names)
  }

  // ---- names and leaves -------------------------------------------------------------------

  function LookupName(m: Machine, env: map<string, Value>, source: string, canonicalId: Option<string>): Res<Value> {
    match canonicalId
    case Some(id) => if m.constant(id).Some? then Ok(Q(m.constant(id).value)) else Err
    case None =>
      if source == "argc" then Ok(Scalar(|m.argv| as real))
      else if source in env then Ok(env[source])
      else Err
  }

  /** `interpolate`'s resolver: a placeholder is an ordinary name. */
  function Resolve(m: Machine, env: map<string, Value>): (string, Option<string>) -> Res<string> {
    (name, spec) =>
      var v := LookupName(m, env, name, m.constantId(name));
      if v.Err? then Err else FormatValue(m, v.value, spec)
  }

  predicate IsLeaf(e: Expr) {
    e.Number? || e.BoolLit? || e.TextLit? || e.QuantityLit? || e.Name?
  }

  function Leaf(m: Machine, env: map<string, Value>, e: Expr): Res<Value>
    requires IsLeaf(e)
  {
    match e
    case Number(n) => Ok(Scalar(n))
    case BoolLit(b) => Ok(Bool(b))
    case TextLit(t) =>
      var text := Snapshot(m, m.scan(t), Resolve(m, env), "");
      if text.Err? then Err else Ok(Text(text.value))
    case QuantityLit(n, unit) =>
      if m.unitKnown(unit) && m.fromUnit(n, unit).Some? then Ok(Q(m.fromUnit(n, unit).value)) else Err
    case Name(source, id) => LookupName(m, env, source, id)
  }

  // ---- operators on values ----------------------------------------------------------------

  function NumericUnary(m: Machine, op: char, v: Value): Res<Value> {
    if !v.Q? then Err
    else if op == '+' then Ok(v)
    else if op == '-' && m.negate(v.q).Some? then Ok(Q(m.negate(v.q).value))
    else Err
  }

  function NumericBinary(m: Machine, op: char, l: Value, r: Value): Res<Value> {
    if l.Q? && r.Q? && m.arith(op, l.q, r.q).Some? then Ok(Q(m.arith(op, l.q, r.q).value)) else Err
  }

  function OnArrays(lanes: Res<seq<Value>>): Res<Value> {
    if lanes.Ok? then Ok(Array(lanes.value)) else Err
  }

  function UnaryValue(m: Machine, op: char, v: Value): Res<Value> {
    if v.Array? then
      OnArrays(Elementwise([v], args => if |args| == 1 then NumericUnary(m, op, args[0]) else Err))
    else NumericUnary(m, op, v)
  }

  function BinaryValue(m: Machine, op: char, l: Value, r: Value): Res<Value> {
    if l.Text? && r.Text? && op == '+' then
      if m.concat(l.s, r.s).Some? then Ok(Text(m.concat(l.s, r.s).value)) else Err
    else if l.Array? || r.Array? then
      OnArrays(Elementwise([l, r], args => if |args| == 2 then NumericBinary(m, op, args[0], args[1]) else Err))
    else NumericBinary(m, op, l, r)
  }

  /** `compare_values`: quantities of one dimension are ordered; text, Booleans and arrays only
      compare equal or unequal, arrays by structural equality. */
  function CompareValues(op: string, l: Value, r: Value): Res<bool> {
    match (l, r)
    case (Q(a), Q(b)) =>
      if a.dim != b.dim then Err
      else if op == "==" then Ok(a.si == b.si)
      else if op == "!=" then Ok(a.si != b.si)
      else if op == "<" then Ok(a.si < b.si)
      else if op == "<=" then Ok(a.si <= b.si)
      else if op == ">" then Ok(a.si > b.si)
      else if op == ">=" then Ok(a.si >= b.si)
      else Err
    case (Text(a), Text(b)) =>
      if op == "==" then Ok(a == b) else if op == "!=" then Ok(a != b) else Err
    case (Bool(a), Bool(b)) =>
      if op == "==" then Ok(a == b) else if op == "!=" then Ok(a != b) else Err
    case (Array(a), Array(b)) =>
      if op == "==" then Ok(a == b) else if op == "!=" then Ok(a != b) else Err
    case _ => Err
  }

  function IndexValue(base: Value, index: Value): Res<Value> {
    var i := ArrayIndex(index);
    if i.Err? || !base.Array? || i.value >= |base.items| then Err else Ok(base.items[i.value])
  }

  function LiteralArray(vs: seq<Value>): Res<Value> {
    if Homogeneous(vs) then Ok(Array(vs)) else Err
  }

  function AppendValue(base: Value, v: Value): Res<Value> {
    if !base.Array? || |base.items| >= MAX_ARRAY_ITEMS then Err
    else if |base.items| > 0 && !SameArrayType(base.items[0], v) then Err
    else if |base.items| == 0 && v.Array? then Err
    else Ok(Array(base.items + [v]))
  }

  /** `items[index] = value` on the named array, once the index has been checked. */
  function StoreItem(env: map<string, Value>, name: string, index: nat, v: Value): Res<map<string, Value>> {
    if name !in env || !env[name].Array? then Err
    else
      var items := env[name].items;
      if index >= |items| || !SameArrayType(items[0], v) then Err
      else Ok(env[name := Array(items[index := v])])
  }

  /** Operand lists of the expressions that evaluate all operands, left to right, before acting. */
  predicate IsStrict(e: Expr) {
    e.ArrayLit? || e.Index? || e.Unary? || e.Binary? || e.Compare? || e.Not?
  }

  function Operands(e: Expr): (args: seq<Expr>)
    requires IsStrict(e)
    ensures forall a | a in args :: a < e
  {
    match e
    case ArrayLit(items) => items
    case Index(a, i) => [a, i]
    case Unary(_, a) => [a]
    case Binary(_, l, r) => [l, r]
    case Compare(_, l, r) => [l, r]
    case Not(a) => [a]
  }

  function Apply(m: Machine, e: Expr, vs: seq<Value>): Res<Value>
    requires IsStrict(e) && |vs| == |Operands(e)|
  {
    match e
    case ArrayLit(_) => LiteralArray(vs)
    case Index(_, _) => IndexValue(vs[0], vs[1])
    case Unary(op, _) => UnaryValue(m, op, vs[0])
    case Binary(op, _, _) => BinaryValue(m, op, vs[0], vs[1])
    case Compare(op, _, _) =>
      var b := CompareValues(op, vs[0], vs[1]);
      if b.Err? then Err else Ok(Bool(b.value))
    case Not(_) => if vs[0].Bool? then Ok(Bool(!vs[0].b)) else Err
  }

  // ---- builtins ---------------------------------------------------------------------------

  predicate CoreName(name: string) {
    name == "len" || name == "append" || name == "argv" || name == "input" || name == "print" || name == "printf"
  }

  /** `validate_builtin_arity`, before any argument is evaluated. */
  predicate ArityOk(m: Machine, name: string, n: nat) {
    if name == "len" || name == "argv" then n == 1
    else if name == "append" then n == 2
    else if name == "input" then n <= 1
    else if name == "print" then true
    else if name == "printf" then n >= 1
    else m.arity(name, n)
  }

  function LengthOf(v: Value): Res<Value> {
    match v
    case Array(items) => Ok(Scalar(|items| as real))
    case Text(s) => Ok(Scalar(|s| as real))
    case _ => Err
  }

  function Argument(m: Machine, v: Value): Res<Value> {
    if v.Q? && v.q.dim == DIMENSIONLESS && IsInteger(v.q.si) && 0.0 <= v.q.si
       && v.q.si.Floor < |m.argv|
    then Ok(Text(m.argv[v.q.si.Floor])) else Err
  }

  function PrintLine(m: Machine, vs: seq<Value>): string {
    if |vs| == 1 then
      match vs[0]
      case Text(s) => s
      case v => Render(m, v)
    else JoinWith(RenderAll(m, vs), " ")
  }

  function AskInput(m: Machine, vs: seq<Value>, w: World): Res<(string, World)> {
    if |vs| == 0 then ToRes(m.input("", w))
    else if vs[0].Text? then ToRes(m.input(vs[0].s, w))
    else Err
  }

  function PrintfLine(m: Machine, vs: seq<Value>): Res<string> {
    if |vs| > 0 && vs[0].Text? then ToRes(m.printf(vs[0].s, vs[1..])) else Err
  }

  /** `eval_builtin_call`: a builtin on evaluated arguments. */
  function CallBuiltin(c: Context, name: string, vs: seq<Value>, st: State): (r: Out<Value>)
    requires ArityOk(c.m, name, |vs|)
    ensures r.st.env == st.env && r.st.sealed == st.sealed && r.st.names == st.names
    ensures r.st.depth == st.depth && r.st.loops == st.loops && r.st.called == st.called
  {
    if c.secret && c.m.library(name).Data? && !c.m.confidential(name) then Out(st, Err)
    else if c.m.confidential(name) && !c.secret then Out(st, Err)
    else if name == "len" then Out(st, LengthOf(vs[0]))
    else if name == "append" then Out(st, AppendValue(vs[0], vs[1]))
    else if name == "argv" then Out(st, Argument(c.m, vs[0]))
    else if name == "input" then
      match AskInput(c.m, vs, st.world)
      case Ok((answer, w)) => Out(st.(world := w), Ok(Text(answer)))
      case Err => Out(st, Err)
    else if name == "print" then
      Out(st.(out := st.out + [PrintLine(c.m, vs)], exprPrints := st.exprPrints + 1), Ok(Scalar(0.0)))
    else if name == "printf" then
      match PrintfLine(c.m, vs)
      case Ok(line) => Out(st.(out := st.out + [line], exprPrints := st.exprPrints + 1), Ok(Scalar(0.0)))
      case Err => Out(st, Err)
    else if c.m.library(name).Absent? then Out(st, Err)
    else
      match c.m.builtin(name, vs, st.world)
      case Some((v, w)) => Out(st.(world := w), Ok(v))
      case None => Out(st, Err)
  }

  // ---- expressions ------------------------------------------------------------------------

  function EvalExpr(c: Context, e: Expr, st: State): (r: Out<Value>)
    requires Within(c, st)
    ensures After(c, st, r.st) && r.st.env == st.env && r.st.names == st.names
    decreases MAX_FUNCTION_DEPTH - st.depth, e
  {
    if IsLeaf(e) then Out(st, Leaf(c.m, st.env, e))
    else if IsStrict(e) then EvalStrict(c, e, st)
    else if e.Slice? then EvalSlice(c, e, st)
    else if e.Logical? then EvalLogical(c, e, st)
    else EvalCall(c, e, st)
  }

  function EvalArgs(c: Context, whole: Expr, args: seq<Expr>, st: State): (r: Out<seq<Value>>)
    requires Within(c, st) && forall a | a in args :: a < whole
    ensures After(c, st, r.st) && r.st.env == st.env && r.st.names == st.names
    ensures r.res.Ok? ==> |r.res.value| == |args|
    decreases MAX_FUNCTION_DEPTH - st.depth, whole, |args|
  {
    if |args| == 0 then Out(st, Ok([]))
    else
      assert args[0] in args;
      var first := EvalExpr(c, args[0], st);
      if first.res.Err? then Out(first.st, Err)
      else
        assert forall a | a in args[1..] :: a in args;
        var rest := EvalArgs(c, whole, args[1..], first.st);
        if rest.res.Err? then Out(rest.st, Err)
        else Out(rest.st, Ok([first.res.value] + rest.res.value))
  }

  function EvalStrict(c: Context, e: Expr, st: State): (r: Out<Value>)
    requires Within(c, st) && IsStrict(e)
    ensures After(c, st, r.st) && r.st.env == st.env && r.st.names == st.names
    decreases MAX_FUNCTION_DEPTH - st.depth, e, |Operands(e)| + 1
  {
    if e.ArrayLit? && |e.items| > MAX_ARRAY_ITEMS then Out(st, Err)
    else
      var args := EvalArgs(c, e, Operands(e), st);
      Out(args.st, if args.res.Err? then Err else Apply(c.m, e, args.res.value))
  }

  /** An optional slice bound, checked as soon as it is evaluated. */
  function EvalBound(c: Context, whole: Expr, bound: Option<Expr>, default: nat, st: State): (r: Out<nat>)
    requires Within(c, st) && (bound.Some? ==> bound.value < whole)
    ensures After(c, st, r.st) && r.st.env == st.env && r.st.names == st.names
    decreases MAX_FUNCTION_DEPTH - st.depth, whole, 0
  {
    match bound
    case None => Out(st, Ok(default))
    case Some(e) =>
      var v := EvalExpr(c, e, st);
      Out(v.st, if v.res.Err? then Err else ArrayIndex(v.res.value))
  }

  function EvalSlice(c: Context, e: Expr, st: State): (r: Out<Value>)
    requires Within(c, st) && e.Slice?
    ensures After(c, st, r.st) && r.st.env == st.env && r.st.names == st.names
    decreases MAX_FUNCTION_DEPTH - st.depth, e, 1
  {
    var base := EvalExpr(c, e.base, st);
    if base.res.Err? || !base.res.value.Array? then Out(base.st, Err)
    else
      var items := base.res.value.items;
      var start := EvalBound(c, e, e.start, 0, base.st);
      if start.res.Err? then Out(start.st, Err)
      else
        var stop := EvalBound(c, e, e.stop, |items|, start.st);
        if stop.res.Err? then Out(stop.st, Err)
        else if start.res.value > stop.res.value || stop.res.value > |items| then Out(stop.st, Err)
        else Out(stop.st, Ok(Array(items[start.res.value..stop.res.value])))
  }

  function EvalLogical(c: Context, e: Expr, st: State): (r: Out<Value>)
    requires Within(c, st) && e.Logical?
    ensures After(c, st, r.st) && r.st.env == st.env && r.st.names == st.names
    decreases MAX_FUNCTION_DEPTH - st.depth, e, 1
  {
    var left := EvalExpr(c, e.left, st);
    if left.res.Err? || !left.res.value.Bool? then Out(left.st, Err)
    else if e.logic == "and" && !left.res.value.b then Out(left.st, Ok(Bool(false)))
    else if e.logic == "or" && left.res.value.b then Out(left.st, Ok(Bool(true)))
    else if e.logic != "and" && e.logic != "or" then Out(left.st, Err)
    else
      var right := EvalExpr(c, e.right, left.st);
      if right.res.Err? || !right.res.value.Bool? then Out(right.st, Err)
      else Out(right.st, Ok(Bool(right.res.value.b)))
  }

  /** Checks made before the arguments of a call are evaluated. */
  predicate CallAllowed(c: Context, name: string, n: nat, depth: nat) {
    if name in c.funcs then n == |c.funcs[name].params| && depth < MAX_FUNCTION_DEPTH
    else ArityOk(c.m, name, n)
  }

  function EvalCall(c: Context, e: Expr, st: State): (r: Out<Value>)
    requires Within(c, st) && e.Call?
    ensures After(c, st, r.st) && r.st.env == st.env && r.st.names == st.names
    decreases MAX_FUNCTION_DEPTH - st.depth, e, |e.args| + 1
  {
    var noted := st.(called := st.called + {e.name});
    if !CallAllowed(c, e.name, |e.args|, st.depth) then Out(noted, Err)
    else
      var args := EvalArgs(c, e, e.args, noted);
      if args.res.Err? then Out(args.st, Err)
      else if e.name in c.funcs then RunFunction(c, e, args.res.value, args.st)
      else CallBuiltin(c, e.name, args.res.value, args.st)
  }

  /** `eval_user_function` once the arguments are values: a fresh environment, one level deeper,
      restored whatever happens; falling off the end or a stray loop exit is a refusal. */
  function RunFunction(c: Context, e: Expr, vs: seq<Value>, st: State): (r: Out<Value>)
    requires Within(c, st) && e.Call? && e.name in c.funcs
    requires |vs| == |c.funcs[e.name].params| && st.depth < MAX_FUNCTION_DEPTH
    ensures After(c, st, r.st) && r.st.env == st.env && r.st.names == st.names
    decreases MAX_FUNCTION_DEPTH - st.depth, e, 0
  {
    var f := c.funcs[e.name];
    var inner := ExecBlock(c, f.body, st.(env := Bind(f.params, vs), depth := st.depth + 1));
    var back := inner.st.(env := st.env, depth := st.depth);
    if inner.res.Ok? && inner.res.value.Returned? then Out(back, Ok(inner.res.value.value))
    else Out(back, Err)
  }

  // ---- statements -------------------------------------------------------------------------

  predicate Writable(m: Machine, name: string) {
    m.constantId(name).None?
  }

  predicate IsPrintCall(e: Expr) {
    e.Call? && (e.name == "print" || e.name == "printf")
  }

  function ExecBlock(c: Context, ss: seq<Stmt>, st: State): (r: Out<Flow>)
    requires Within(c, st)
    ensures After(c, st, r.st)
    decreases MAX_FUNCTION_DEPTH - st.depth, ss
  {
    if |ss| == 0 then Out(st, Ok(Normal))
    else
      var first := ExecStmt(c, ss[0], st);
      if first.res.Err? || !first.res.value.Normal? then first
      else ExecBlock(c, ss[1..], first.st)
  }

  function ExecStmt(c: Context, s: Stmt, st: State): (r: Out<Flow>)
    requires Within(c, st)
    ensures After(c, st, r.st)
    decreases MAX_FUNCTION_DEPTH - st.depth, s
  {
    match s
    case For(_, _, _, _, _) => ExecFor(c, s, st)
    case ForEach(_, _, _) => ExecForEach(c, s, st)
    case While(_, _) => RunWhile(c, s, st)
    case If(_, _) => RunIf(c, s, 0, st)
    case Switch(_, _, _) => ExecSwitch(c, s, st)
    case _ => ExecSimple(c, s, st)
  }

  predicate IsSimple(s: Stmt) {
    !s.For? && !s.ForEach? && !s.While? && !s.If? && !s.Switch?
  }

  function ExecSimple(c: Context, s: Stmt, st: State): (r: Out<Flow>)
    requires Within(c, st) && IsSimple(s)
    ensures After(c, st, r.st)
    decreases MAX_FUNCTION_DEPTH - st.depth, s, 1
  {
    match s
    case Import(_) => Out(st, Err)
    case InlineRust(_, _) => Out(st, Err)
    case Function(_, _, _) => Out(st, Ok(Normal))
    case LoopBudget(_) => Out(st, Ok(Normal))
    case NumericAudit(_) => Out(st, Ok(Normal))
    case Directive(word) =>
      Out(st, if word == "GO_PARANOID" || word == "COMPLETELY_MAD" || word == "GO_PRIVATE" then Ok(Normal) else Err)
    case Break => Out(st, Ok(Broke))
    case Continue => Out(st, Ok(Continued))
    case Return(e) =>
      var v := EvalExpr(c, e, st);
      Out(v.st, if v.res.Err? then Err else Ok(Returned(v.res.value)))
    case Assign(name, e) => ExecAssign(c, s, st)
    case IndexAssign(name, _, _) => ExecIndexAssign(c, s, st)
    case Expression(e) =>
      var v := EvalExpr(c, e, st);
      if v.res.Err? then Out(v.st, Err)
      else if IsPrintCall(e) && e.name !in c.funcs && v.st.exprPrints > 0 then
        Out(v.st.(exprPrints := v.st.exprPrints - 1), Ok(Normal))
      else Out(v.st, Ok(Normal))
    case Seal(name) =>
      var v := LookupName(c.m, st.env, name, c.m.constantId(name));
      if v.Err? then Out(st, Err) else Out(st.(sealed := st.sealed[name := v.value]), Ok(Normal))
  }

  function Store(c: Context, name: string, v: Value, st: State): State {
    var bound := st.(env := st.env[name := v]);
    if c.mad && st.depth == 0 then bound.(names := st.names + {name}) else bound
  }

  function ExecAssign(c: Context, s: Stmt, st: State): (r: Out<Flow>)
    requires Within(c, st) && s.Assign?
    ensures After(c, st, r.st)
    decreases MAX_FUNCTION_DEPTH - st.depth, s, 0
  {
    if !Writable(c.m, s.name) then Out(st, Err)
    else
      var v := EvalExpr(c, s.expr, st);
      if v.res.Err? then Out(v.st, Err) else Out(Store(c, s.name, v.res.value, v.st), Ok(Normal))
  }

  function ExecIndexAssign(c: Context, s: Stmt, st: State): (r: Out<Flow>)
    requires Within(c, st) && s.IndexAssign?
    ensures After(c, st, r.st)
    decreases MAX_FUNCTION_DEPTH - st.depth, s, 0
  {
    var index := EvalExpr(c, s.index, st);
    if index.res.Err? then Out(index.st, Err)
    else
      var i := ArrayIndex(index.res.value);
      if i.Err? then Out(index.st, Err)
      else
        var v := EvalExpr(c, s.expr, index.st);
        if v.res.Err? then Out(v.st, Err)
        else
          var env := StoreItem(v.st.env, s.name, i.value, v.res.value);
          if env.Err? then Out(v.st, Err) else Out(v.st.(env := env.value), Ok(Normal))
  }

  // ---- loops ------------------------------------------------------------------------------

  /** `loop_tick`: one more loop body, if the shared budget allows it. */
  function Tick(c: Context, st: State): (r: Out<()>)
    requires Within(c, st)
    ensures After(c, st, r.st) && (r.res.Ok? ==> r.st.loops == st.loops + 1)
  {
    if st.loops >= c.budget then Out(st, Err) else Out(st.(loops := st.loops + 1), Ok(()))
  }

  function EvalInteger(c: Context, s: Stmt, e: Expr, st: State): (r: Out<int>)
    requires Within(c, st) && e < s
    ensures After(c, st, r.st) && r.st.env == st.env && r.st.names == st.names
    ensures r.res.Ok? ==> -MAX_SAFE <= r.res.value <= MAX_SAFE
    decreases MAX_FUNCTION_DEPTH - st.depth, s, 0
  {
    var v := EvalExpr(c, e, st);
    Out(v.st, if v.res.Err? then Err else LoopInteger(v.res.value))
  }

  function ExecFor(c: Context, s: Stmt, st: State): (r: Out<Flow>)
    requires Within(c, st) && s.For?
    ensures After(c, st, r.st)
    decreases MAX_FUNCTION_DEPTH - st.depth, s, c.budget + 1
  {
    var start := EvalInteger(c, s, s.start, st);
    if start.res.Err? then Out(start.st, Err)
    else
      var stop := EvalInteger(c, s, s.stop, start.st);
      if stop.res.Err? then Out(stop.st, Err)
      else
        var step := EvalInteger(c, s, s.step, stop.st);
        if step.res.Err? || step.res.value == 0 then Out(step.st, Err)
        else RunRange(c, s, start.res.value, stop.res.value, step.res.value, step.st)
  }

  predicate RangeContinues(index: int, stop: int, step: int) {
    if step > 0 then index < stop else index > stop
  }

  /** The range loop from `index` on. */
  function RunRange(c: Context, s: Stmt, index: int, stop: int, step: int, st: State): (r: Out<Flow>)
    requires Within(c, st) && s.For?
    ensures After(c, st, r.st)
    decreases MAX_FUNCTION_DEPTH - st.depth, s, c.budget - st.loops
  {
    if !RangeContinues(index, stop, step) then Out(st, Ok(Normal))
    else
      var tick := Tick(c, st);
      if tick.res.Err? then Out(tick.st, Err)
      else
        var body := ExecBlock(c, s.body, tick.st.(env := st.env[s.variable := Scalar(index as real)]));
        if body.res.Err? || body.res.value.Returned? then body
        else if body.res.value.Broke? then Out(body.st, Ok(Normal))
        else RunRange(c, s, index + step, stop, step, body.st)
  }

  function ExecForEach(c: Context, s: Stmt, st: State): (r: Out<Flow>)
    requires Within(c, st) && s.ForEach?
    ensures After(c, st, r.st)
    decreases MAX_FUNCTION_DEPTH - st.depth, s, c.budget + 1
  {
    var v := EvalExpr(c, s.iterable, st);
    if v.res.Err? || !v.res.value.Array? then Out(v.st, Err)
    else RunItems(c, s, v.res.value.items, v.st)
  }

  /** The direct loop over the items still to come. */
  function RunItems(c: Context, s: Stmt, items: seq<Value>, st: State): (r: Out<Flow>)
    requires Within(c, st) && s.ForEach?
    ensures After(c, st, r.st)
    decreases MAX_FUNCTION_DEPTH - st.depth, s, c.budget - st.loops
  {
    if |items| == 0 then Out(st, Ok(Normal))
    else
      var tick := Tick(c, st);
      if tick.res.Err? then Out(tick.st, Err)
      else
        var body := ExecBlock(c, s.body, tick.st.(env := st.env[s.variable := items[0]]));
        if body.res.Err? || body.res.value.Returned? then body
        else if body.res.value.Broke? then Out(body.st, Ok(Normal))
        else RunItems(c, s, items[1..], body.st)
  }

  function RunWhile(c: Context, s: Stmt, st: State): (r: Out<Flow>)
    requires Within(c, st) && s.While?
    ensures After(c, st, r.st)
    decreases MAX_FUNCTION_DEPTH - st.depth, s, c.budget - st.loops
  {
    var test := EvalExpr(c, s.condition, st);
    if test.res.Err? || !test.res.value.Bool? then Out(test.st, Err)
    else if !test.res.value.b then Out(test.st, Ok(Normal))
    else
      var tick := Tick(c, test.st);
      if tick.res.Err? then Out(tick.st, Err)
      else
        var body := ExecBlock(c, s.body, tick.st);
        if body.res.Err? || body.res.value.Returned? then body
        else if body.res.value.Broke? then Out(body.st, Ok(Normal))
        else RunWhile(c, s, body.st)
  }

  // ---- choices ----------------------------------------------------------------------------

  function RunOtherwise(c: Context, s: Stmt, st: State): (r: Out<Flow>)
    requires Within(c, st) && (s.If? || s.Switch?)
    ensures After(c, st, r.st)
    decreases MAX_FUNCTION_DEPTH - st.depth, s, 0
  {
    match s.otherwise
    case Tail(body) => ExecBlock(c, body, st)
    case NoTail => Out(st, Ok(Normal))
  }

  /** The `if` chain from arm `k` on. */
  function RunIf(c: Context, s: Stmt, k: nat, st: State): (r: Out<Flow>)
    requires Within(c, st) && s.If? && k <= |s.arms|
    ensures After(c, st, r.st)
    decreases MAX_FUNCTION_DEPTH - st.depth, s, |s.arms| - k + 1
  {
    if k == |s.arms| then RunOtherwise(c, s, st)
    else
      var test := EvalExpr(c, s.arms[k].test, st);
      if test.res.Err? || !test.res.value.Bool? then Out(test.st, Err)
      else if test.res.value.b then ExecBlock(c, s.arms[k].body, test.st)
      else RunIf(c, s, k + 1, test.st)
  }

  function ExecSwitch(c: Context, s: Stmt, st: State): (r: Out<Flow>)
    requires Within(c, st) && s.Switch?
    ensures After(c, st, r.st)
    decreases MAX_FUNCTION_DEPTH - st.depth, s, |s.arms| + 2
  {
    var selected := EvalExpr(c, s.selector, st);
    if selected.res.Err? then Out(selected.st, Err)
    else RunCases(c, s, 0, selected.res.value, selected.st)
  }

  /** The `switch` from case `k` on. */
  function RunCases(c: Context, s: Stmt, k: nat, selected: Value, st: State): (r: Out<Flow>)
    requires Within(c, st) && s.Switch? && k <= |s.arms|
    ensures After(c, st, r.st)
    decreases MAX_FUNCTION_DEPTH - st.depth, s, |s.arms| - k + 1
  {
    if k == |s.arms| then RunOtherwise(c, s, st)
    else
      var candidate := EvalExpr(c, s.arms[k].test, st);
      if candidate.res.Err? then Out(candidate.st, Err)
      else
        var hit := CompareValues("==", selected, candidate.res.value);
        if hit.Err? then Out(candidate.st, Err)
        else if hit.value then ExecBlock(c, s.arms[k].body, candidate.st)
        else RunCases(c, s, k + 1, selected, candidate.st)
  }

  // ---- whole programs ---------------------------------------------------------------------

  /** Top-level statements one by one; a stray flow is dropped, as `eval_stmt` does. */
  function RunTop(c: Context, ss: seq<Stmt>, st: State): (r: Out<()>)
    requires Within(c, st)
    ensures After(c, st, r.st)
    decreases |ss|
  {
    if |ss| == 0 then Out(st, Ok(()))
    else
      var first := ExecStmt(c, ss[0], st);
      if first.res.Err? then Out(first.st, Err) else RunTop(c, ss[1..], first.st)
  }

  /** `resources::requested`: the first declared budget. */
  function RequestedBudget(p: Program): Option<nat> {
    if |p| == 0 then None
    else if p[0].LoopBudget? then Some(p[0].budget)
    else RequestedBudget(p[1..])
  }

  function BudgetOf(p: Program): nat {
    match RequestedBudget(p)
    case Some(n) => n
    case None => DEFAULT_LOOP_BUDGET
  }

  predicate Declares(p: Program, word: string) {
    Directive(word) in p
  }

  /** `register_functions`: later declarations would win, but duplicates are refused first. */
  function Functions(p: Program): map<string, Func> {
    if |p| == 0 then map[]
    else
      var rest := Functions(p[1..]);
      if p[0].Function? then rest[p[0].name := Func(p[0].params, p[0].body)] else rest
  }

  predicate DistinctFunctions(p: Program) {
    forall i, j | 0 <= i < j < |p| && p[i].Function? && p[j].Function? :: p[i].name != p[j].name
  }

  function ContextOf(m: Machine, p: Program): Context {
    Context(m, Functions(p), BudgetOf(p), Declares(p, "COMPLETELY_MAD"), Declares(p, "GO_PRIVATE"))
  }

  function InitialState(w: World): State {
    State(map[], [], map[], {}, 0, 0, w, {}, 0)
  }

  /** `eval_program`: the final state, or a refusal. */
  function Run(m: Machine, p: Program, w: World): Out<()> {
    if !DistinctFunctions(p) then Out(InitialState(w), Err)
    else RunTop(ContextOf(m, p), p, InitialState(w))
  }
}
