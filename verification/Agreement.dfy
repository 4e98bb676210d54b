/** The two engines agree: the code generated for a supported program does what the interpreter
    does. Every lemma here is one case of one simulation, from expressions up to whole programs. The
    simulation relates a state of the interpreter to a state of the emitted code by `Linked`; a step keeps
    it, or both engines fail, or the interpreter is past saving because a print ran in expression position
    or too many names were recorded, and then the emitted code fails without getting stuck. */
module Agreement {
  import opened Prelude
  import opened Ast
  import opened Values
  import opened Interpreter
  import opened Native
  import opened NativeSteps
  import opened Codegen
  import opened Scans
  import opened RunInvariants

  // ---- supported programs -----------------------------------------------------------------

  /** The shared registries are coherent: core builtins belong to no library, registered constants
      have values, and `argc` is not one of them. */
  ghost predicate Coherent(m: Machine) {
    && (forall name :: CoreName(name) ==> m.library(name).Absent? && !m.confidential(name))
    && (forall name :: m.confidential(name) ==> m.library(name).Data?)
    && (forall name :: m.constantId(name).Some? ==> m.constant(m.constantId(name).value).Some?)
    && m.constantId("argc").None?
  }

  predicate ExprsSupported(m: Machine, es: seq<Expr>)
    decreases es
  {
    |es| > 0 ==> ExprSupported(m, es[0]) && ExprsSupported(m, es[1..])
  }

  /** No data call, and only the unary signs the grammar has. */
  predicate ExprSupported(m: Machine, e: Expr)
    decreases e
  {
    match e
    case ArrayLit(items) => ExprsSupported(m, items)
    case Index(a, i) => ExprSupported(m, a) && ExprSupported(m, i)
    case Slice(a, start, stop) =>
      && ExprSupported(m, a)
      && (start.Some? ==> ExprSupported(m, start.value))
      && (stop.Some? ==> ExprSupported(m, stop.value))
    case Unary(op, a) => (op == '+' || op == '-') && ExprSupported(m, a)
    case Binary(_, l, r) => ExprSupported(m, l) && ExprSupported(m, r)
    case Compare(_, l, r) => ExprSupported(m, l) && ExprSupported(m, r)
    case Logical(_, l, r) => ExprSupported(m, l) && ExprSupported(m, r)
    case Not(a) => ExprSupported(m, a)
    case Call(name, args) => !m.library(name).Data? && ExprsSupported(m, args)
    case _ => true
  }

  predicate StmtsSupported(m: Machine, ss: seq<Stmt>, inLoop: bool, inFunc: bool)
    decreases ss
  {
    |ss| > 0 ==> StmtSupported(m, ss[0], inLoop, inFunc) && StmtsSupported(m, ss[1..], inLoop, inFunc)
  }

  predicate ArmsSupported(m: Machine, arms: seq<Arm>, inLoop: bool, inFunc: bool)
    decreases arms
  {
    |arms| > 0 ==>
      && ExprSupported(m, arms[0].test) && StmtsSupported(m, arms[0].body, inLoop, inFunc)
      && ArmsSupported(m, arms[1..], inLoop, inFunc)
  }

  predicate TailSupported(m: Machine, tail: Tail, inLoop: bool, inFunc: bool)
    decreases tail
  {
    tail.Tail? ==> StmtsSupported(m, tail.body, inLoop, inFunc)
  }

  /** What parsing and `validate_execution` guarantee: loop control inside loops, `return` inside
      functions, `seal` outside them, known directives, writable targets; and no inline Rust. */
  predicate StmtSupported(m: Machine, s: Stmt, inLoop: bool, inFunc: bool)
    decreases s
  {
    match s
    case Import(_) => true
    case Directive(word) => word == "GO_PARANOID" || word == "COMPLETELY_MAD"
    case NumericAudit(_) => true
    case LoopBudget(_) => true
    case Function(_, _, _) => true
    case Return(e) => inFunc && ExprSupported(m, e)
    case Assign(name, e) => Writable(m, name) && ExprSupported(m, e)
    case IndexAssign(name, i, e) => ExprSupported(m, i) && ExprSupported(m, e)
    case Expression(e) => ExprSupported(m, e)
    case Seal(_) => !inFunc
    case For(_, a, b, d, body) =>
      ExprSupported(m, a) && ExprSupported(m, b) && ExprSupported(m, d) && StmtsSupported(m, body, true, inFunc)
    case ForEach(_, e, body) => ExprSupported(m, e) && StmtsSupported(m, body, true, inFunc)
    case Break => inLoop
    case Continue => inLoop
    case While(e, body) => ExprSupported(m, e) && StmtsSupported(m, body, true, inFunc)
    case If(arms, tail) => ArmsSupported(m, arms, inLoop, inFunc) && TailSupported(m, tail, inLoop, inFunc)
    case Switch(e, arms, tail) =>
      ExprSupported(m, e) && ArmsSupported(m, arms, inLoop, inFunc) && TailSupported(m, tail, inLoop, inFunc)
    case InlineRust(_, _) => false
  }

  lemma {:induction false} ArmSupported(m: Machine, arms: seq<Arm>, k: nat, inLoop: bool, inFunc: bool)
    requires ArmsSupported(m, arms, inLoop, inFunc) && k < |arms|
    ensures ExprSupported(m, arms[k].test) && StmtsSupported(m, arms[k].body, inLoop, inFunc)
  {
    if k > 0 {
      ArmSupported(m, arms[1..], k - 1, inLoop, inFunc);
    }
  }

  lemma {:induction false} FunctionsDoNotSeal(m: Machine, ss: seq<Stmt>, inLoop: bool)
    requires StmtsSupported(m, ss, inLoop, true)
    ensures SealFree(ss)
    decreases ss
  {
    if |ss| > 0 {
      FunctionsDoNotSealStmt(m, ss[0], inLoop);
      FunctionsDoNotSeal(m, ss[1..], inLoop);
    }
  }

  lemma {:induction false} FunctionsDoNotSealArms(m: Machine, arms: seq<Arm>, inLoop: bool)
    requires ArmsSupported(m, arms, inLoop, true)
    ensures SealFreeArms(arms)
    decreases arms
  {
    if |arms| > 0 {
      FunctionsDoNotSeal(m, arms[0].body, inLoop);
      FunctionsDoNotSealArms(m, arms[1..], inLoop);
    }
  }

  lemma {:induction false} FunctionsDoNotSealStmt(m: Machine, s: Stmt, inLoop: bool)
    requires StmtSupported(m, s, inLoop, true)
    ensures SealFreeStmt(s)
    decreases s
  {
    match s
    case For(_, _, _, _, body) => FunctionsDoNotSeal(m, body, true);
    case ForEach(_, _, body) => FunctionsDoNotSeal(m, body, true);
    case While(_, body) => FunctionsDoNotSeal(m, body, true);
    case If(arms, tail) =>
      FunctionsDoNotSealArms(m, arms, inLoop);
      if tail.Tail? {
        FunctionsDoNotSeal(m, tail.body, inLoop);
      }
    case Switch(_, arms, tail) =>
      FunctionsDoNotSealArms(m, arms, inLoop);
      if tail.Tail? {
        FunctionsDoNotSeal(m, tail.body, inLoop);
      }
    case _ =>
  }

  // ---- the simulation relation ------------------------------------------------------------

  /** The generated functions are those of the interpreted program. */
  ghost predicate SameFunctions(m: Machine, funcs: map<string, Func>, nfuncs: map<string, NFunc>) {
    && nfuncs.Keys == funcs.Keys
    && forall name | name in funcs ::
         && nfuncs[name].params == funcs[name].params
         && GenStmts(m, funcs[name].body, false) == Some(nfuncs[name].body)
         && StmtsSupported(m, funcs[name].body, false, true)
         && !CoreName(name) && m.library(name).Absent?
  }

  ghost predicate Ready(c: Context, p: NProgram) {
    && p.m == c.m && p.budget == c.budget && p.mad == c.mad && !c.secret
    && Trusted(c.m) && Coherent(c.m)
    && SameFunctions(c.m, c.funcs, p.funcs)
    && SealFreeFunctions(c.funcs)
  }

  /** Equal variables, output, loop count and world; at top level also equal seals and names. */
  ghost predicate Matches(st: State, ns: NState) {
    && ns.env == st.env && ns.out == st.out && ns.loops == st.loops && ns.world == st.world
    && (st.depth == 0 ==> ns.sealed == st.sealed && ns.names == st.names)
  }

  /** No print in expression position so far, and no more than 256 recorded names. */
  predicate Clean(st: State) {
    st.exprPrints == 0 && |st.names| <= MAX_FINAL_NAMES
  }

  /** A state whose values are valid, of a run whose libraries and functions can be trusted. */
  ghost predicate Good(c: Context, st: State) {
    Within(c, st) && Trusted(c.m) && Sound(st) && SealFreeFunctions(c.funcs)
  }

  ghost predicate Linked(c: Context, p: NProgram, st: State, ns: NState) {
    && Ready(c, p) && Good(c, st) && Clean(st) && Matches(st, ns)
    && Within(c, st) && Fits(p, ns, st.depth) && p.m == c.m && p.budget == c.budget
  }

  ghost predicate Agree<T>(o: Out<T>, n: NOut<T>) {
    if o.res.Ok? && Clean(o.st) then n.res == NOk(o.res.value) && Matches(o.st, n.st) else n.res.NErr?
  }

  function FlowOf(f: Flow): NFlow {
    match f
    case Normal => Next
    case Broke => BreakFlow
    case Continued => ContinueFlow
    case Returned(v) => Ret(v)
  }

  predicate Disciplined(f: Flow, inLoop: bool, inFunc: bool) {
    match f
    case Normal => true
    case Broke => inLoop
    case Continued => inLoop
    case Returned(_) => inFunc
  }

  ghost predicate AgreeFlow(o: Out<Flow>, n: NExec, locals: Locals) {
    if o.res.Ok? && Clean(o.st) then
      n.res == NOk(FlowOf(o.res.value)) && Matches(o.st, n.st) && locals <= n.locals
    else n.res.NErr?
  }

  lemma {:induction false} SubsetSize<T>(a: set<T>, b: set<T>)
    requires a <= b
    ensures |a| <= |b|
  {
    if a != {} {
      var x :| x in a;
      SubsetSize(a - {x}, b - {x});
    }
  }

  /** Once a run is past saving it stays so. */
  lemma UncleanStays(st: State, st': State)
    requires Grows(st, st') && Clean(st')
    ensures Clean(st)
  {
    SubsetSize(st.names, st'.names);
  }

  // ---- what the invariants say about one evaluation ---------------------------------------

  ghost function FunctionCalls(funcs: map<string, Func>): set<string> {
    set name, x | name in funcs && x in StmtsCalls(funcs[name].body) :: x
  }

  lemma ExprFacts(c: Context, e: Expr, st: State)
    requires Within(c, st) && Good(c, st)
    ensures var r := EvalExpr(c, e, st);
      && Good(c, r.st) && Grows(st, r.st) && (r.res.Ok? ==> Valid(r.res.value))
      && r.st.sealed == st.sealed
  {
    ExprKeeps(c, FunctionCalls(c.funcs) + ExprCalls(e), e, st);
  }

  lemma ArgsFacts(c: Context, whole: Expr, args: seq<Expr>, st: State)
    requires Within(c, st) && Good(c, st) && forall a | a in args :: a < whole
    ensures var r := EvalArgs(c, whole, args, st);
      && Good(c, r.st) && Grows(st, r.st) && (r.res.Ok? ==> AllValid(r.res.value))
      && r.st.sealed == st.sealed
  {
    ArgsKeep(c, FunctionCalls(c.funcs) + ExprsCalls(args), whole, args, st);
  }

  lemma ArgsStayUnclean(c: Context, whole: Expr, args: seq<Expr>, st: State)
    requires Within(c, st) && Good(c, st) && !Clean(st) && forall a | a in args :: a < whole
    ensures !Clean(EvalArgs(c, whole, args, st).st)
  {
    hide Good, Clean, Grows, EvalArgs;
    ArgsFacts(c, whole, args, st);
    if Clean(EvalArgs(c, whole, args, st).st) {
      UncleanStays(st, EvalArgs(c, whole, args, st).st);
    }
  }

  lemma BlockFacts(c: Context, ss: seq<Stmt>, st: State)
    requires Within(c, st) && Good(c, st)
    ensures var r := ExecBlock(c, ss, st);
      && Good(c, r.st) && Grows(st, r.st)
      && (SealFree(ss) ==> r.st.sealed == st.sealed)
  {
    BlockKeeps(c, FunctionCalls(c.funcs) + StmtsCalls(ss), ss, st);
  }

  // ---- expressions ------------------------------------------------------------------------

  /** The interpreter state a native state stands for, when only output, loops and world moved. */
  function Lift(st: State, ns: NState): State {
    st.(out := ns.out, loops := ns.loops, world := ns.world)
  }

  lemma LiftLinked(c: Context, p: NProgram, st: State, ns: NState, ns': NState)
    requires Linked(c, p, st, ns) && Same(p, ns, ns')
    ensures Linked(c, p, Lift(st, ns'), ns')
  {
  }

  /** Noting an attempted call changes nothing the emitted code has. */
  lemma NotedLinked(c: Context, p: NProgram, st: State, ns: NState, name: string)
    requires Linked(c, p, st, ns)
    ensures Linked(c, p, st.(called := st.called + {name}), ns)
  {
  }

  lemma LeavesAgree(m: Machine, env: map<string, Value>, e: Expr)
    requires Coherent(m) && IsLeaf(e) && GenExpr(m, e).Some?
    ensures NLeaf(GenExpr(m, e).value)
    ensures LeafN(m, env, GenExpr(m, e).value) == Leaf(m, env, e)
  {
    if e.TextLit? {
      SnapshotAgrees(m, m.scan(e.template), Resolve(m, env), RtResolve(m, env), "");
    }
  }

  /** The emitted comparison agrees with structural equality exactly because arrays are flat. */
  lemma ComparisonsAgree(op: string, l: Value, r: Value)
    requires Valid(l) && Valid(r)
    ensures RtCompare(op, l, r) == CompareValues(op, l, r)
  {
    if l.Array? && r.Array? {
      if |l.items| == |r.items| {
        forall i | 0 <= i < |l.items|
          ensures RtSameItem(l.items[i], r.items[i]) <==> l.items[i] == r.items[i]
        {
          FlatItems(l.items, i);
          FlatItems(r.items, i);
        }
      }
      assert RtSameItems(l.items, r.items) <==> l.items == r.items;
    }
  }

  lemma {:induction false} LanesAgree(inputs: seq<Value>, f: seq<Value> -> Res<Value>, g: seq<Value> -> Res<Value>, n: nat)
    requires forall i | 0 <= i < |inputs| && inputs[i].Array? :: n <= |inputs[i].items|
    requires forall k | 0 <= k < n :: f(LaneArgs(inputs, k)) == g(LaneArgs(inputs, k))
    ensures Lanes(inputs, f, n) == Lanes(inputs, g, n)
  {
    if n > 0 {
      LanesAgree(inputs, f, g, n - 1);
    }
  }

  /** Lane arguments of a numeric preflight are quantities, so array lanes never reach text rules. */
  lemma ElementwiseAgrees(inputs: seq<Value>, f: seq<Value> -> Res<Value>, g: seq<Value> -> Res<Value>)
    requires forall args: seq<Value> :: |args| == |inputs| && (forall i | 0 <= i < |args| :: args[i].Q?) ==> f(args) == g(args)
    ensures Elementwise(inputs, f) == Elementwise(inputs, g)
  {
    match FirstLength(inputs)
    case None =>
    case Some(n) =>
      if SharedLength(inputs, n) && forall i | 0 <= i < |inputs| :: NumericOperand(inputs[i]) {
        forall k | 0 <= k < n
          ensures f(LaneArgs(inputs, k)) == g(LaneArgs(inputs, k))
        {
          var args := LaneArgs(inputs, k);
          forall i | 0 <= i < |args|
            ensures args[i].Q?
          {
            assert NumericOperand(inputs[i]);
            if inputs[i].Array? {
              assert Numeric(inputs[i].items[k]);
            }
          }
        }
        LanesAgree(inputs, f, g, n);
      }
  }

  lemma UnariesAgree(m: Machine, op: char, v: Value)
    requires op == '+' || op == '-'
    ensures RtUnary(m, op, v) == UnaryValue(m, op, v)
  {
    ElementwiseAgrees([v],
      args => if |args| == 1 then NumericUnary(m, op, args[0]) else Err,
      args => if |args| == 1 then RtUnaryScalar(m, op, args[0]) else Err);
  }

  lemma BinariesAgree(m: Machine, op: char, l: Value, r: Value)
    ensures RtBinary(m, op, l, r) == BinaryValue(m, op, l, r)
  {
    ElementwiseAgrees([l, r],
      args => if |args| == 2 then NumericBinary(m, op, args[0], args[1]) else Err,
      args => if |args| == 2 then RtBinaryScalar(m, op, args[0], args[1]) else Err);
  }

  lemma {:induction false} StrictShape(m: Machine, e: Expr)
    requires IsStrict(e) && GenExpr(m, e).Some?
    ensures GenExprs(m, Operands(e)).Some?
    ensures e.ArrayLit? ==> GenExpr(m, e).value == NLiteral(GenExprs(m, Operands(e)).value)
    ensures !e.ArrayLit? ==>
              GenExpr(m, e).value.NOp? && GenExpr(m, e).value.args == GenExprs(m, Operands(e)).value
  {
    match e
    case ArrayLit(_) =>
    case Index(a, i) => PairShape(m, a, i);
    case Unary(_, a) => SingleShape(m, a);
    case Binary(_, l, r) => PairShape(m, l, r);
    case Compare(_, l, r) => PairShape(m, l, r);
    case Not(a) => SingleShape(m, a);
  }

  lemma NoneShape(m: Machine)
    ensures GenExprs(m, []) == Some([])
  {
  }

  lemma SingleShape(m: Machine, a: Expr)
    ensures GenExprs(m, [a]) == if GenExpr(m, a).Some? then Some([GenExpr(m, a).value]) else None
  {
    hide GenExpr;
    NoneShape(m);
    var es := [a];
    assert es[0] == a && es[1..] == [];
    assert forall x: NExpr :: [x] + [] == [x];
  }

  lemma PairShape(m: Machine, a: Expr, b: Expr)
    ensures GenExprs(m, [a, b]) ==
              if GenExpr(m, a).Some? && GenExpr(m, b).Some? then Some([GenExpr(m, a).value, GenExpr(m, b).value]) else None
  {
    hide GenExpr;
    SingleShape(m, b);
    var es := [a, b];
    assert es[0] == a && es[1..] == [b];
    assert forall x: NExpr, y: NExpr :: [x] + [y] == [x, y];
  }

  lemma {:induction false} StrictSupported(m: Machine, e: Expr)
    requires IsStrict(e) && ExprSupported(m, e)
    ensures ExprsSupported(m, Operands(e))
  {
    match e
    case ArrayLit(_) =>
    case Index(a, i) => assert [a, i][1..] == [i];
    case Unary(_, a) =>
    case Binary(_, l, r) => assert [l, r][1..] == [r];
    case Compare(_, l, r) => assert [l, r][1..] == [r];
    case Not(a) =>
  }

  lemma AgreeLeaf(c: Context, p: NProgram, e: Expr, st: State, ns: NState)
    requires Linked(c, p, st, ns) && IsLeaf(e) && GenExpr(c.m, e).Some?
    ensures Agree(EvalExpr(c, e, st), EvalN(p, GenExpr(c.m, e).value, ns, st.depth))
  {
    hide Good, Trusted, SameFunctions, SealFreeFunctions, Leaf, LeafN, GenExpr;
    LeavesAgree(c.m, st.env, e);
  }

  lemma {:induction false} AgreeExpr(c: Context, p: NProgram, e: Expr, st: State, ns: NState)
    requires Linked(c, p, st, ns) && ExprSupported(c.m, e) && GenExpr(c.m, e).Some?
    ensures Agree(EvalExpr(c, e, st), EvalN(p, GenExpr(c.m, e).value, ns, st.depth))
    decreases MAX_FUNCTION_DEPTH - st.depth, e
  {
    if IsLeaf(e) {
      AgreeLeaf(c, p, e, st, ns);
    } else if IsStrict(e) {
      AgreeStrict(c, p, e, st, ns);
    } else if e.Slice? {
      AgreeSlice(c, p, e, st, ns);
    } else if e.Logical? {
      AgreeLogical(c, p, e, st, ns);
    } else {
      AgreeCall(c, p, e, st, ns);
    }
  }

  /** Arguments passed as `(a)?, (b)?`. */
  lemma {:induction false} AgreeArgs(c: Context, p: NProgram, whole: Expr, args: seq<Expr>, st: State, ns: NState)
    requires Linked(c, p, st, ns) && ExprsSupported(c.m, args) && GenExprs(c.m, args).Some?
    requires forall a | a in args :: a < whole
    ensures Agree(EvalArgs(c, whole, args, st), EvalSeq(p, GenExprs(c.m, args).value, ns, st.depth))
    decreases MAX_FUNCTION_DEPTH - st.depth, whole, |args|
  {
    hide Ready, Good, Grows, Matches, Clean, EvalExpr, EvalN, GenExpr, ExprSupported;
    if |args| > 0 {
      assert args[0] in args;
      assert forall a | a in args[1..] :: a in args;
      var xs := GenExprs(c.m, args).value;
      assert xs[0] == GenExpr(c.m, args[0]).value && xs[1..] == GenExprs(c.m, args[1..]).value;
      AgreeExpr(c, p, args[0], st, ns);
      ExprFacts(c, args[0], st);
      var first, nfirst := EvalExpr(c, args[0], st), EvalN(p, xs[0], ns, st.depth);
      if first.res.Ok? {
        ArgsFacts(c, whole, args[1..], first.st);
        var rest := EvalArgs(c, whole, args[1..], first.st);
        if Clean(first.st) {
          AgreeArgs(c, p, whole, args[1..], first.st, nfirst.st);
        } else if Clean(rest.st) {
          UncleanStays(first.st, rest.st);
        }
      }
    }
  }

  /** Arguments collected by `vec![a, b]`: all are evaluated, so after a failure the rest still runs,
      and cannot get stuck. */
  lemma {:induction false} AgreeEach(c: Context, p: NProgram, whole: Expr, args: seq<Expr>, st: State, ns: NState)
    requires Linked(c, p, st, ns) && ExprsSupported(c.m, args) && GenExprs(c.m, args).Some?
    requires forall a | a in args :: a < whole
    ensures Agree(EvalArgs(c, whole, args, st), EvalEach(p, GenExprs(c.m, args).value, ns, st.depth))
    decreases MAX_FUNCTION_DEPTH - st.depth, whole, |args|
  {
    hide Ready, Good, Grows, EvalExpr, EvalN, GenExpr, ExprSupported, Clean;
    if |args| > 0 {
      assert args[0] in args;
      assert forall a | a in args[1..] :: a in args;
      var xs := GenExprs(c.m, args).value;
      assert xs[0] == GenExpr(c.m, args[0]).value && xs[1..] == GenExprs(c.m, args[1..]).value;
      AgreeExpr(c, p, args[0], st, ns);
      ExprFacts(c, args[0], st);
      var first, nfirst := EvalExpr(c, args[0], st), EvalN(p, xs[0], ns, st.depth);
      if first.res.Ok? && Clean(first.st) {
        AgreeEach(c, p, whole, args[1..], first.st, nfirst.st);
        ArgsFacts(c, whole, args[1..], first.st);
      } else {
        RestIsNotStuck(c, p, whole, args, st, ns, nfirst.st);
        if first.res.Ok? {
          ArgsStayUnclean(c, whole, args[1..], first.st);
        }
      }
    }
  }

  /** After a failure the arguments still to come run from whatever state is left. */
  lemma {:induction false} RestIsNotStuck(c: Context, p: NProgram, whole: Expr, args: seq<Expr>, st: State, ns: NState, left: NState)
    requires Linked(c, p, st, ns) && ExprsSupported(c.m, args) && GenExprs(c.m, args).Some? && |args| > 0
    requires forall a | a in args :: a < whole
    requires Same(p, ns, left)
    ensures !EvalEach(p, GenExprs(c.m, args[1..]).value, left, st.depth).res.Stuck?
    decreases MAX_FUNCTION_DEPTH - st.depth, whole, |args|, 0
  {
    hide Ready, Good, Grows, EvalExpr, EvalN, GenExpr, ExprSupported, Clean;
    assert forall a | a in args[1..] :: a in args;
    LiftLinked(c, p, st, ns, left);
    AgreeEach(c, p, whole, args[1..], Lift(st, left), left);
  }

  /** One emitted runtime call does what the interpreter does with the same operand values. */
  lemma OperatorsAgree(m: Machine, e: Expr, vs: seq<Value>, w: World)
    requires IsStrict(e) && !e.ArrayLit? && ExprSupported(m, e) && GenExpr(m, e).Some? && GenExpr(m, e).value.NOp?
    requires |vs| == |Operands(e)| && AllValid(vs)
    ensures ApplyOp(m, GenExpr(m, e).value.op, vs, w) ==
              (if Apply(m, e, vs).Ok? then Ok((Apply(m, e, vs).value, w)) else Err)
  {
    match e
    case Index(_, _) =>
    case Unary(op, _) => UnariesAgree(m, op, vs[0]);
    case Binary(op, _, _) => BinariesAgree(m, op, vs[0], vs[1]);
    case Compare(op, _, _) => ComparisonsAgree(op, vs[0], vs[1]);
    case Not(_) =>
  }

  lemma {:induction false} AgreeStrict(c: Context, p: NProgram, e: Expr, st: State, ns: NState)
    requires Linked(c, p, st, ns) && ExprSupported(c.m, e) && GenExpr(c.m, e).Some? && IsStrict(e)
    ensures Agree(EvalStrict(c, e, st), EvalN(p, GenExpr(c.m, e).value, ns, st.depth))
    decreases MAX_FUNCTION_DEPTH - st.depth, e, |Operands(e)| + 1
  {
    hide Ready, Good, Grows, EvalArgs, EvalSeq, EvalEach, GenExprs, ExprsSupported, ApplyOp, EvalExpr, UnaryValue, BinaryValue, CompareValues, IndexValue;
    StrictShape(c.m, e);
    StrictSupported(c.m, e);
    var args := EvalArgs(c, e, Operands(e), st);
    ArgsFacts(c, e, Operands(e), st);
    if e.ArrayLit? {
      AgreeEach(c, p, e, Operands(e), st, ns);
    } else {
      AgreeArgs(c, p, e, Operands(e), st, ns);
      if args.res.Ok? {
        OperatorsAgree(c.m, e, args.res.value, args.st.world);
      }
    }
  }

  lemma BoundFacts(c: Context, whole: Expr, bound: Option<Expr>, default: nat, st: State)
    requires Within(c, st) && Good(c, st) && (bound.Some? ==> bound.value < whole)
    ensures var r := EvalBound(c, whole, bound, default, st); Good(c, r.st) && Grows(st, r.st)
  {
    if bound.Some? {
      ExprFacts(c, bound.value, st);
    }
  }

  lemma BoundStaysUnclean(c: Context, whole: Expr, bound: Option<Expr>, default: nat, st: State)
    requires Within(c, st) && Good(c, st) && !Clean(st) && (bound.Some? ==> bound.value < whole)
    ensures !Clean(EvalBound(c, whole, bound, default, st).st)
  {
    hide Good, Clean, Grows, EvalBound;
    BoundFacts(c, whole, bound, default, st);
    if Clean(EvalBound(c, whole, bound, default, st).st) {
      UncleanStays(st, EvalBound(c, whole, bound, default, st).st);
    }
  }

  function GenOption(m: Machine, e: Option<Expr>): Option<NExpr> {
    if e.Some? then GenExpr(m, e.value) else None
  }

  /** A slice bound: the interpreter checks it at once, the emitted code after all bounds are known. */
  lemma {:induction false} AgreeBound(c: Context, p: NProgram, whole: Expr, nwhole: NExpr, bound: Option<Expr>,
                                      default: nat, st: State, ns: NState)
    requires Linked(c, p, st, ns)
    requires bound.Some? ==> bound.value < whole && ExprSupported(c.m, bound.value) && GenExpr(c.m, bound.value).Some?
    requires bound.Some? ==> GenExpr(c.m, bound.value).value < nwhole
    ensures var b := EvalBound(c, whole, bound, default, st);
            var o := EvalOptional(p, nwhole, GenOption(c.m, bound), ns, st.depth);
      && !o.res.Stuck?
      && (o.res.NOk? ==> Matches(b.st, o.st) && Clean(b.st) && RtBound(o.res.value, default) == b.res)
      && (b.res.Ok? && Clean(b.st) ==> o.res.NOk?)
      && (o.res.NOk? ==> o.res.value.Some? == bound.Some?)
    decreases MAX_FUNCTION_DEPTH - st.depth, whole, 0
  {
    if bound.Some? {
      AgreeExpr(c, p, bound.value, st, ns);
    }
  }

  lemma SliceShape(m: Machine, e: Expr)
    requires e.Slice? && ExprSupported(m, e) && GenExpr(m, e).Some?
    ensures ExprSupported(m, e.base) && GenExpr(m, e.base).Some?
    ensures e.start.Some? ==>
      ExprSupported(m, e.start.value) && GenExpr(m, e.start.value).Some? && GenExpr(m, e.start.value).value < GenExpr(m, e).value
    ensures e.stop.Some? ==>
      ExprSupported(m, e.stop.value) && GenExpr(m, e.stop.value).Some? && GenExpr(m, e.stop.value).value < GenExpr(m, e).value
    ensures GenExpr(m, e).value == NSlice(GenExpr(m, e.base).value, GenOption(m, e.start), GenOption(m, e.stop))
  {
  }

  lemma {:induction false} AgreeSlice(c: Context, p: NProgram, e: Expr, st: State, ns: NState)
    requires Linked(c, p, st, ns) && ExprSupported(c.m, e) && GenExpr(c.m, e).Some? && e.Slice?
    ensures Agree(EvalSlice(c, e, st), EvalN(p, GenExpr(c.m, e).value, ns, st.depth))
    decreases MAX_FUNCTION_DEPTH - st.depth, e, 2
  {
    hide Ready, Good, Grows, Matches, EvalExpr, EvalBound, EvalOptional, RtBound, GenExpr, ExprSupported, GenOption, Clean;
    SliceShape(c.m, e);
    AgreeExpr(c, p, e.base, st, ns);
    ExprFacts(c, e.base, st);
    var base, nbase := EvalExpr(c, e.base, st), EvalN(p, GenExpr(c.m, e.base).value, ns, st.depth);
    if base.res.Ok? {
      if Clean(base.st) {
        AgreeSliceBounds(c, p, e, st, ns);
      } else {
        var length := if base.res.value.Array? then |base.res.value.items| else 0;
        BoundFacts(c, e, e.start, 0, base.st);
        BoundStaysUnclean(c, e, e.start, 0, base.st);
        BoundStaysUnclean(c, e, e.stop, length, EvalBound(c, e, e.start, 0, base.st).st);
      }
    }
  }

  /** A slice from its base's value on. */
  lemma {:induction false} AgreeSliceBounds(c: Context, p: NProgram, e: Expr, st: State, ns: NState)
    requires Linked(c, p, st, ns) && ExprSupported(c.m, e) && GenExpr(c.m, e).Some? && e.Slice? && GenExpr(c.m, e.base).Some?
    requires var base, nbase := EvalExpr(c, e.base, st), EvalN(p, GenExpr(c.m, e.base).value, ns, st.depth);
      base.res.Ok? && nbase.res == NOk(base.res.value) && base.st.depth == st.depth && Linked(c, p, base.st, nbase.st)
    ensures Agree(EvalSlice(c, e, st), EvalN(p, GenExpr(c.m, e).value, ns, st.depth))
    decreases MAX_FUNCTION_DEPTH - st.depth, e, 1
  {
    hide Ready, Good, Grows, Matches, EvalExpr, EvalBound, EvalOptional, RtBound, GenExpr, ExprSupported, GenOption, Clean;
    SliceShape(c.m, e);
    var n := GenExpr(c.m, e).value;
    var base, nbase := EvalExpr(c, e.base, st), EvalN(p, n.base, ns, st.depth);
    var length := if base.res.value.Array? then |base.res.value.items| else 0;
    BoundFacts(c, e, e.start, 0, base.st);
    var start := EvalBound(c, e, e.start, 0, base.st);
    AgreeBound(c, p, e, n, e.start, 0, base.st, nbase.st);
    var nstart := EvalOptional(p, n, n.start, nbase.st, st.depth);
    if nstart.res.NOk? {
      AgreeBound(c, p, e, n, e.stop, length, start.st, nstart.st);
    } else if start.res.Ok? {
      BoundStaysUnclean(c, e, e.stop, length, start.st);
    }
  }

  lemma {:induction false} AgreeLogical(c: Context, p: NProgram, e: Expr, st: State, ns: NState)
    requires Linked(c, p, st, ns) && ExprSupported(c.m, e) && GenExpr(c.m, e).Some? && e.Logical?
    ensures Agree(EvalLogical(c, e, st), EvalN(p, GenExpr(c.m, e).value, ns, st.depth))
    decreases MAX_FUNCTION_DEPTH - st.depth, e, 1
  {
    hide Ready, Good, Grows, Matches, EvalExpr, EvalBound, GenExprs, EvalSeq, EvalEach;
    var n := GenExpr(c.m, e).value;
    AgreeExpr(c, p, e.left, st, ns);
    ExprFacts(c, e.left, st);
    var left, nleft := EvalExpr(c, e.left, st), EvalN(p, n.left, ns, st.depth);
    if left.res.Ok? {
      ExprFacts(c, e.right, left.st);
      var right := EvalExpr(c, e.right, left.st);
      if Clean(left.st) {
        AgreeExpr(c, p, e.right, left.st, nleft.st);
      } else if Clean(right.st) {
        UncleanStays(left.st, right.st);
      }
    }
  }

  // ---- calls ------------------------------------------------------------------------------

  lemma {:induction false} AgreeCall(c: Context, p: NProgram, e: Expr, st: State, ns: NState)
    requires Linked(c, p, st, ns) && ExprSupported(c.m, e) && GenExpr(c.m, e).Some? && e.Call?
    ensures Agree(EvalCall(c, e, st), EvalN(p, GenExpr(c.m, e).value, ns, st.depth))
    decreases MAX_FUNCTION_DEPTH - st.depth, e, |e.args| + 1
  {
    hide Good, Grows, EvalArgs, EvalSeq, EvalEach, ExecBlock, ExecN, CallBuiltin, ArityOk;
    var n := GenExpr(c.m, e).value;
    var xs := GenExprs(c.m, e.args).value;
    var noted := st.(called := st.called + {e.name});
    NotedLinked(c, p, st, ns, e.name);
    AgreeArgs(c, p, e, e.args, noted, ns);
    ArgsFacts(c, e, e.args, noted);
    var args, nargs := EvalArgs(c, e, e.args, noted), EvalSeq(p, xs, ns, st.depth);
    if e.name in c.funcs {
      assert n == NCall(e.name, xs);
      if CallAllowed(c, e.name, |e.args|, st.depth) && args.res.Ok? {
        if Clean(args.st) {
          AgreeFunction(c, p, e, args.res.value, args.st, nargs.st);
        } else {
          FunctionFacts(c, e, args.res.value, args.st);
          if Clean(RunFunction(c, e, args.res.value, args.st).st) {
            UncleanStays(args.st, RunFunction(c, e, args.res.value, args.st).st);
          }
        }
      }
    } else {
      BuiltinsAgree(c, p, e, st, ns);
    }
  }

  lemma FunctionFacts(c: Context, e: Expr, vs: seq<Value>, st: State)
    requires Within(c, st) && Good(c, st) && e.Call? && e.name in c.funcs && AllValid(vs)
    requires |vs| == |c.funcs[e.name].params| && st.depth < MAX_FUNCTION_DEPTH
    ensures var r := RunFunction(c, e, vs, st); Good(c, r.st) && Grows(st, r.st)
  {
    FunctionKeeps(c, FunctionCalls(c.funcs), e, vs, st);
  }

  lemma CoreCallsAgree(m: Machine)
    ensures forall v :: RtLen(v) == LengthOf(v)
    ensures forall v :: RtArgv(m, v) == Argument(m, v)
    ensures forall base, v :: RtAppend(base, v) == AppendValue(base, v)
  {
  }

  /** print and printf are never user functions. */
  lemma PrintIsBuiltin(c: Context, p: NProgram, name: string)
    requires Ready(c, p) && (name == "print" || name == "printf")
    ensures name !in c.funcs && c.m.library(name).Absent? && !c.m.confidential(name) && !c.secret
  {
    assert CoreName(name);
  }

  /** What the emitted code does with a builtin call, once its arguments have values. */
  function NativeBuiltin(p: NProgram, n: NExpr, vs: seq<Value>, st: NState): NOut<Value>
    requires n.NOp?
  {
    match ApplyOp(p.m, n.op, vs, st.world)
    case Ok((v, w)) => NOut(st.(world := w), NOk(v))
    case Err => NOut(st, NErr)
  }

  /** Core builtins and library calls on equal argument values. */
  lemma CallsOnValuesAgree(c: Context, p: NProgram, name: string, xs: seq<NExpr>, vs: seq<Value>, st: State, ns: NState)
    requires Ready(c, p) && Matches(st, ns) && Clean(st) && |vs| == |xs| && ArityOk(c.m, name, |vs|)
    requires GenCall(c.m, name, xs).Some? && GenCall(c.m, name, xs).value.NOp? && name !in c.funcs
    ensures var n := GenCall(c.m, name, xs).value;
      Agree(CallBuiltin(c, name, vs, st), NativeBuiltin(p, n, if |n.args| > |vs| then [Text("")] else vs, ns))
  {
    hide LengthOf, RtLen, RtAppend, AppendValue, RtArgv, Argument, SameFunctions, Trusted;
    CoreCallsAgree(c.m);
  }

  lemma BuiltinUnchanged(c: Context, name: string, vs: seq<Value>, st: State)
    requires ArityOk(c.m, name, |vs|)
    ensures Clean(CallBuiltin(c, name, vs, st).st) ==> Clean(st)
  {
  }

  /** A call that is emitted as `goblin_call` but names no user function fails in both engines, or
      is a print in expression position. */
  lemma UnknownCall(c: Context, p: NProgram, name: string, xs: seq<NExpr>, vs: seq<Value>, st: State)
    requires Ready(c, p) && |vs| == |xs| && ArityOk(c.m, name, |vs|)
    requires GenCall(c.m, name, xs).Some? && !c.m.library(name).Data? && !GenCall(c.m, name, xs).value.NOp? && name !in c.funcs
    ensures GenCall(c.m, name, xs).value == NCall(name, xs) && name !in p.funcs
    ensures var r := CallBuiltin(c, name, vs, st); r.res.Err? || !Clean(r.st)
  {
    hide SameFunctions, Trusted;
    assert p.funcs.Keys == c.funcs.Keys by {
      SameKeys(c, p);
    }
  }

  lemma ReadyCoherent(c: Context, p: NProgram)
    requires Ready(c, p)
    ensures Coherent(p.m)
  {
  }

  lemma SameKeys(c: Context, p: NProgram)
    requires Ready(c, p)
    ensures p.funcs.Keys == c.funcs.Keys
  {
  }

  /** A builtin call, given that its arguments agree. */
  lemma BuiltinsAgree(c: Context, p: NProgram, e: Expr, st: State, ns: NState)
    requires Linked(c, p, st, ns) && ExprSupported(c.m, e) && GenExpr(c.m, e).Some? && e.Call? && e.name !in c.funcs
    requires Agree(EvalArgs(c, e, e.args, st.(called := st.called + {e.name})), EvalSeq(p, GenExprs(c.m, e.args).value, ns, st.depth))
    ensures Agree(EvalCall(c, e, st), EvalN(p, GenExpr(c.m, e).value, ns, st.depth))
  {
    hide Ready, Good, Grows, Matches, Clean, EvalArgs, EvalSeq, EvalEach, ExecN, ApplyOp, ArityOk, CallBuiltin, GenCall, GenExprs;
    var n := GenExpr(c.m, e).value;
    var xs := GenExprs(c.m, e.args).value;
    var noted := st.(called := st.called + {e.name});
    var args, nargs := EvalArgs(c, e, e.args, noted), EvalSeq(p, xs, ns, st.depth);
    assert n == GenCall(c.m, e.name, xs).value;
    SameKeys(c, p);
    GenCallShape(c.m, e.name, xs);
    if n.NOp? {
      if |n.args| > |xs| {
        NoPrompt(p, ns, st.depth);
        assert nargs == NOut(ns, NOk([])) by {
          NoArgs(p, ns, st.depth);
        }
      }
      if CallAllowed(c, e.name, |e.args|, st.depth) && args.res.Ok? {
        if Clean(args.st) {
          CallsOnValuesAgree(c, p, e.name, xs, args.res.value, args.st, nargs.st);
        } else {
          BuiltinUnchanged(c, e.name, args.res.value, args.st);
        }
      } else if args.res.Ok? && Clean(args.st) {
        ReadyCoherent(c, p);
        WrongArity(p.m, e.name, xs, nargs.res.value, nargs.st.world);
      }
    } else if args.res.Ok? && CallAllowed(c, e.name, |e.args|, st.depth) {
      UnknownCall(c, p, e.name, xs, args.res.value, args.st);
    } else {
      NotNative(c, p, e.name, xs);
    }
  }

  lemma NoArgs(p: NProgram, ns: NState, depth: nat)
    requires Fits(p, ns, depth)
    ensures EvalSeq(p, [], ns, depth) == NOut(ns, NOk([]))
  {
  }

  /** Emitted calls keep their arguments, but for the default prompt of `input()`. */
  lemma GenCallShape(m: Machine, name: string, xs: seq<NExpr>)
    requires GenCall(m, name, xs).Some?
    ensures var n := GenCall(m, name, xs).value;
      && (n.NOp? ==> n.args == xs || (xs == [] && n.op == InputOp && n.args == [NPlainText("")]))
      && (n.NOp? || n == NCall(name, xs) || n == NData(name, xs))
      && (n.NData? ==> m.library(name).Data?)
  {
  }

  /** A wrong argument count that compiled is refused by the library itself. */
  lemma WrongArity(m: Machine, name: string, xs: seq<NExpr>, vs: seq<Value>, w: World)
    requires Coherent(m) && GenCall(m, name, xs).Some? && GenCall(m, name, xs).value.NOp? && |vs| == |xs| && !ArityOk(m, name, |xs|)
    ensures ApplyOp(m, GenCall(m, name, xs).value.op, vs, w).Err? && GenCall(m, name, xs).value.args == xs
  {
  }

  lemma NotNative(c: Context, p: NProgram, name: string, xs: seq<NExpr>)
    requires Ready(c, p) && name !in c.funcs
    ensures name !in p.funcs
  {
  }

  lemma NoPrompt(p: NProgram, ns: NState, depth: nat)
    requires Fits(p, ns, depth)
    ensures EvalSeq(p, [NPlainText("")], ns, depth) == NOut(ns, NOk([Text("")]))
  {
    assert [NPlainText("")][1..] == [];
    assert EvalSeq(p, [NPlainText("")][1..], ns, depth) == NOut(ns, NOk([]));
    assert [Text("")] + [] == [Text("")];
    assert EvalN(p, NPlainText(""), ns, depth) == NOut(ns, NOk(Text("")));
  }

  /** `goblin_call` and `eval_user_function` on the same argument values. */
  lemma {:induction false} AgreeFunction(c: Context, p: NProgram, e: Expr, vs: seq<Value>, st: State, ns: NState)
    requires Linked(c, p, st, ns) && e.Call? && e.name in c.funcs && AllValid(vs)
    requires |vs| == |c.funcs[e.name].params| && st.depth < MAX_FUNCTION_DEPTH
    ensures
      var f := p.funcs[e.name];
      var entry := ns.(env := Bind(f.params, vs), sealed := map[], names := {});
      var body := ExecN(p, f.body, [], entry, st.depth + 1);
      var back := body.st.(env := ns.env, sealed := ns.sealed, names := ns.names);
      var r := RunFunction(c, e, vs, st);
      if r.res.Ok? && Clean(r.st) then body.res == NOk(Ret(r.res.value)) && Matches(r.st, back)
      else body.res.NErr? || body.res == NOk(Next)
    decreases MAX_FUNCTION_DEPTH - st.depth, e, 0
  {
    hide ExecBlock, ExecN, Grows, Trusted, Coherent, GenStmts, StmtsSupported, StmtsCalls;
    var f := c.funcs[e.name];
    var entry := st.(env := Bind(f.params, vs), depth := st.depth + 1);
    var nentry := ns.(env := Bind(f.params, vs), sealed := map[], names := {});
    AgreeBlock(c, p, f.body, false, true, [], entry, nentry);
    BlockFacts(c, f.body, entry);
    DisciplineBlock(c, f.body, false, true, entry);
  }

  // ---- flow discipline --------------------------------------------------------------------

  lemma {:induction false} DisciplineBlock(c: Context, ss: seq<Stmt>, inLoop: bool, inFunc: bool, st: State)
    requires Within(c, st) && StmtsSupported(c.m, ss, inLoop, inFunc)
    ensures var r := ExecBlock(c, ss, st); r.res.Ok? ==> Disciplined(r.res.value, inLoop, inFunc)
    decreases MAX_FUNCTION_DEPTH - st.depth, ss
  {
    hide ExecStmt, StmtSupported;
    if |ss| > 0 {
      DisciplineStmt(c, ss[0], inLoop, inFunc, st);
      var first := ExecStmt(c, ss[0], st);
      if first.res.Ok? && first.res.value.Normal? {
        DisciplineBlock(c, ss[1..], inLoop, inFunc, first.st);
      }
    }
  }

  /** Loop exits stay inside loops and `return` inside functions. */
  lemma {:induction false} DisciplineStmt(c: Context, s: Stmt, inLoop: bool, inFunc: bool, st: State)
    requires Within(c, st) && StmtSupported(c.m, s, inLoop, inFunc)
    ensures var r := ExecStmt(c, s, st); r.res.Ok? ==> Disciplined(r.res.value, inLoop, inFunc)
    decreases MAX_FUNCTION_DEPTH - st.depth, s
  {
    hide EvalExpr, ExecBlock, ExprSupported, StmtsSupported, LookupName, StoreItem;
    match s
    case For(_, _, _, _, _) =>
      var start := EvalInteger(c, s, s.start, st);
      if start.res.Ok? {
        var stop := EvalInteger(c, s, s.stop, start.st);
        if stop.res.Ok? {
          var step := EvalInteger(c, s, s.step, stop.st);
          if step.res.Ok? {
            DisciplineRange(c, s, start.res.value, stop.res.value, step.res.value, inFunc, step.st);
          }
        }
      }
    case ForEach(_, _, _) =>
      var v := EvalExpr(c, s.iterable, st);
      if v.res.Ok? && v.res.value.Array? {
        DisciplineItems(c, s, v.res.value.items, inFunc, v.st);
      }
    case While(_, _) => DisciplineWhile(c, s, inFunc, st);
    case If(_, _) => DisciplineIf(c, s, 0, inLoop, inFunc, st);
    case Switch(_, _, _) =>
      var v := EvalExpr(c, s.selector, st);
      if v.res.Ok? {
        DisciplineCases(c, s, 0, v.res.value, inLoop, inFunc, v.st);
      }
    case _ => DisciplineSimple(c, s, inLoop, inFunc, st);
  }

  lemma DisciplineSimple(c: Context, s: Stmt, inLoop: bool, inFunc: bool, st: State)
    requires Within(c, st) && StmtSupported(c.m, s, inLoop, inFunc) && IsSimple(s)
    ensures var r := ExecSimple(c, s, st); r.res.Ok? ==> Disciplined(r.res.value, inLoop, inFunc)
  {
    hide EvalExpr, ExprSupported, StmtsSupported, LookupName, StoreItem, ArrayIndex;
  }

  lemma {:induction false} DisciplineRange(c: Context, s: Stmt, index: int, stop: int, step: int, inFunc: bool, st: State)
    requires Within(c, st) && s.For? && StmtsSupported(c.m, s.body, true, inFunc)
    ensures RunRange(c, s, index, stop, step, st).res.Ok? ==> Disciplined(RunRange(c, s, index, stop, step, st).res.value, false, inFunc)
    decreases MAX_FUNCTION_DEPTH - st.depth, s, c.budget - st.loops
  {
    hide ExecBlock, StmtsSupported;
    if RangeContinues(index, stop, step) {
      var tick := Tick(c, st);
      if tick.res.Ok? {
        var entry := tick.st.(env := st.env[s.variable := Scalar(index as real)]);
        DisciplineBlock(c, s.body, true, inFunc, entry);
        var body := ExecBlock(c, s.body, entry);
        if body.res.Ok? && !body.res.value.Returned? && !body.res.value.Broke? {
          DisciplineRange(c, s, index + step, stop, step, inFunc, body.st);
        }
      }
    }
  }

  lemma {:induction false} DisciplineItems(c: Context, s: Stmt, items: seq<Value>, inFunc: bool, st: State)
    requires Within(c, st) && s.ForEach? && StmtsSupported(c.m, s.body, true, inFunc)
    ensures RunItems(c, s, items, st).res.Ok? ==> Disciplined(RunItems(c, s, items, st).res.value, false, inFunc)
    decreases MAX_FUNCTION_DEPTH - st.depth, s, c.budget - st.loops
  {
    hide StmtsSupported;
    if |items| > 0 {
      var tick := Tick(c, st);
      if tick.res.Ok? {
        var entry := tick.st.(env := st.env[s.variable := items[0]]);
        DisciplineBlock(c, s.body, true, inFunc, entry);
        var body := ExecBlock(c, s.body, entry);
        if body.res.Ok? && !body.res.value.Returned? && !body.res.value.Broke? {
          DisciplineItems(c, s, items[1..], inFunc, body.st);
        }
      }
    }
  }

  lemma {:induction false} DisciplineWhile(c: Context, s: Stmt, inFunc: bool, st: State)
    requires Within(c, st) && s.While? && StmtsSupported(c.m, s.body, true, inFunc)
    ensures RunWhile(c, s, st).res.Ok? ==> Disciplined(RunWhile(c, s, st).res.value, false, inFunc)
    decreases MAX_FUNCTION_DEPTH - st.depth, s, c.budget - st.loops
  {
    hide EvalExpr, ExecBlock;
    var test := EvalExpr(c, s.condition, st);
    if test.res.Ok? && test.res.value.Bool? && test.res.value.b {
      var tick := Tick(c, test.st);
      if tick.res.Ok? {
        DisciplineBlock(c, s.body, true, inFunc, tick.st);
        var body := ExecBlock(c, s.body, tick.st);
        if body.res.Err? || body.res.value.Returned? {
          assert RunWhile(c, s, st) == body;
        } else if body.res.value.Broke? {
          assert RunWhile(c, s, st) == Out(body.st, Ok(Normal));
        } else {
          assert RunWhile(c, s, st) == RunWhile(c, s, body.st);
          DisciplineWhile(c, s, inFunc, body.st);
        }
      }
    }
  }

  lemma {:induction false} DisciplineTail(c: Context, s: Stmt, inLoop: bool, inFunc: bool, st: State)
    requires Within(c, st) && (s.If? || s.Switch?) && TailSupported(c.m, s.otherwise, inLoop, inFunc)
    ensures var r := RunOtherwise(c, s, st); r.res.Ok? ==> Disciplined(r.res.value, inLoop, inFunc)
    decreases MAX_FUNCTION_DEPTH - st.depth, s, 0
  {
    hide ExecBlock, StmtsSupported;
    if s.otherwise.Tail? {
      DisciplineBlock(c, s.otherwise.body, inLoop, inFunc, st);
    }
  }

  lemma {:induction false} DisciplineIf(c: Context, s: Stmt, k: nat, inLoop: bool, inFunc: bool, st: State)
    requires Within(c, st) && s.If? && k <= |s.arms|
    requires ArmsSupported(c.m, s.arms, inLoop, inFunc) && TailSupported(c.m, s.otherwise, inLoop, inFunc)
    ensures var r := RunIf(c, s, k, st); r.res.Ok? ==> Disciplined(r.res.value, inLoop, inFunc)
    decreases MAX_FUNCTION_DEPTH - st.depth, s, |s.arms| - k + 1
  {
    hide EvalExpr, ExecBlock, StmtsSupported;
    if k == |s.arms| {
      DisciplineTail(c, s, inLoop, inFunc, st);
    } else {
      ArmSupported(c.m, s.arms, k, inLoop, inFunc);
      var test := EvalExpr(c, s.arms[k].test, st);
      if test.res.Ok? && test.res.value.Bool? {
        DisciplineBlock(c, s.arms[k].body, inLoop, inFunc, test.st);
        DisciplineIf(c, s, k + 1, inLoop, inFunc, test.st);
      }
    }
  }

  lemma {:induction false} DisciplineCases(c: Context, s: Stmt, k: nat, selected: Value, inLoop: bool, inFunc: bool, st: State)
    requires Within(c, st) && s.Switch? && k <= |s.arms|
    requires ArmsSupported(c.m, s.arms, inLoop, inFunc) && TailSupported(c.m, s.otherwise, inLoop, inFunc)
    ensures var r := RunCases(c, s, k, selected, st); r.res.Ok? ==> Disciplined(r.res.value, inLoop, inFunc)
    decreases MAX_FUNCTION_DEPTH - st.depth, s, |s.arms| - k + 1
  {
    hide EvalExpr, ExecBlock, StmtsSupported, CompareValues;
    if k == |s.arms| {
      DisciplineTail(c, s, inLoop, inFunc, st);
    } else {
      ArmSupported(c.m, s.arms, k, inLoop, inFunc);
      var candidate := EvalExpr(c, s.arms[k].test, st);
      if candidate.res.Ok? {
        DisciplineBlock(c, s.arms[k].body, inLoop, inFunc, candidate.st);
        DisciplineCases(c, s, k + 1, selected, inLoop, inFunc, candidate.st);
      }
    }
  }

  // ---- shapes of emitted code -------------------------------------------------------------

  lemma ShapeAssign(m: Machine, s: Stmt, track: bool)
    requires s.Assign? && GenStmt(m, s, track).Some?
    ensures GenExpr(m, s.expr).Some?
    ensures GenStmt(m, s, track).value ==
              [NLet("value", GenExpr(m, s.expr).value)] + ([NInsert(s.name, "value")] + if track then [NRecord(s.name)] else [])
  {
    hide GenExpr;
  }

  lemma ShapeFor(m: Machine, s: Stmt, track: bool)
    requires s.For? && GenStmt(m, s, track).Some?
    ensures GenExpr(m, s.start).Some? && GenExpr(m, s.stop).Some? && GenExpr(m, s.step).Some? && GenStmts(m, s.body, track).Some?
    ensures var loop := NWhileRange([NTick, NInsertIndex(s.variable, "index"), NAdvance("index", "step")] + GenStmts(m, s.body, track).value);
      GenStmt(m, s, track).value ==
        [NBlock([NLetRange("start", GenExpr(m, s.start).value)]
                + ([NLetRange("stop", GenExpr(m, s.stop).value)]
                   + ([NLetRange("step", GenExpr(m, s.step).value)]
                      + [NRefuseZero("step"), NLetCopy("index", "start"), loop])))]
  {
    hide GenExpr, GenStmts;
    var a, b, d := GenExpr(m, s.start), GenExpr(m, s.stop), GenExpr(m, s.step);
    var body := GenStmts(m, s.body, track);
    assert GenStmt(m, s, track) == GenFor(m, s.variable, a, b, d, body);
    var loop := NWhileRange(RangeBody(s.variable, body.value));
    assert [NLetRange("start", a.value), NLetRange("stop", b.value), NLetRange("step", d.value),
            NRefuseZero("step"), NLetCopy("index", "start"), loop]
        == [NLetRange("start", a.value)] + ([NLetRange("stop", b.value)] + ([NLetRange("step", d.value)]
           + [NRefuseZero("step"), NLetCopy("index", "start"), loop]));
  }

  lemma ShapeForEach(m: Machine, s: Stmt, track: bool)
    requires s.ForEach? && GenStmt(m, s, track).Some?
    ensures GenExpr(m, s.iterable).Some? && GenStmts(m, s.body, track).Some?
    ensures var loop := NForIn("item", "items", [NTick, NInsert(s.variable, "item")] + GenStmts(m, s.body, track).value);
      GenStmt(m, s, track).value ==
        [NBlock([NLet("iterable", GenExpr(m, s.iterable).value)] + ([NLetItems("items", "iterable")] + [loop]))]
  {
    hide GenExpr, GenStmts;
    var x, body := GenExpr(m, s.iterable), GenStmts(m, s.body, track);
    assert GenStmt(m, s, track) == GenForEach(s.variable, x, body);
    var loop := NForIn("item", "items", ItemBody(s.variable, body.value));
    assert [NLet("iterable", x.value), NLetItems("items", "iterable"), loop]
        == [NLet("iterable", x.value)] + ([NLetItems("items", "iterable")] + [loop]);
  }

  lemma ShapeWhile(m: Machine, s: Stmt, track: bool)
    requires s.While? && GenStmt(m, s, track).Some?
    ensures GenExpr(m, s.condition).Some? && GenStmts(m, s.body, track).Some?
    ensures GenStmt(m, s, track).value ==
              [NLoop([NBreakUnless(GenExpr(m, s.condition).value)] + ([NTick] + GenStmts(m, s.body, track).value))]
  {
    hide GenExpr, GenStmts;
    var x, body := GenExpr(m, s.condition), GenStmts(m, s.body, track);
    assert GenStmt(m, s, track) == GenWhile(x, body);
    assert WhileBody(x.value, body.value) == [NBreakUnless(x.value)] + ([NTick] + body.value);
  }

  lemma ShapeSwitch(m: Machine, s: Stmt, track: bool)
    requires s.Switch? && GenStmt(m, s, track).Some?
    ensures GenExpr(m, s.selector).Some? && GenCases(m, s, 0, track).Some?
    ensures GenStmt(m, s, track).value ==
              [NBlock([NLet("switch_value", GenExpr(m, s.selector).value)]
                      + ([NLetFlag("switch_matched", false)] + GenCases(m, s, 0, track).value))]
  {
    hide GenExpr, GenCases;
    var x, cases := GenExpr(m, s.selector), GenCases(m, s, 0, track);
    assert [NLet("switch_value", x.value), NLetFlag("switch_matched", false)] + cases.value
        == [NLet("switch_value", x.value)] + ([NLetFlag("switch_matched", false)] + cases.value);
  }

  // ---- statements -------------------------------------------------------------------------

  /** Final names are recorded by top-level code of COMPLETELY_MAD programs only. */
  predicate Track(c: Context, st: State) {
    c.mad && st.depth == 0
  }

  lemma StmtFacts(c: Context, s: Stmt, st: State)
    requires Within(c, st) && Good(c, st)
    ensures var r := ExecStmt(c, s, st); Good(c, r.st) && Grows(st, r.st)
  {
    StmtKeeps(c, FunctionCalls(c.funcs) + StmtCalls(s), s, st);
  }

  lemma {:induction false} AgreeBlock(c: Context, p: NProgram, ss: seq<Stmt>, inLoop: bool, inFunc: bool,
                                      locals: Locals, st: State, ns: NState)
    requires Linked(c, p, st, ns) && StmtsSupported(c.m, ss, inLoop, inFunc) && GenStmts(c.m, ss, Track(c, st)).Some?
    ensures AgreeFlow(ExecBlock(c, ss, st), ExecN(p, GenStmts(c.m, ss, Track(c, st)).value, locals, ns, st.depth), locals)
    decreases MAX_FUNCTION_DEPTH - st.depth, ss
  {
    hide Ready, Good, Grows, Matches, Clean, ExecStmt, GenStmt, StmtSupported, ExecOne;
    if |ss| > 0 {
      var head, tail := GenStmt(c.m, ss[0], Track(c, st)).value, GenStmts(c.m, ss[1..], Track(c, st)).value;
      ExecAppend(p, head, tail, locals, ns, st.depth);
      AgreeStmt(c, p, ss[0], inLoop, inFunc, locals, st, ns);
      StmtFacts(c, ss[0], st);
      var first, nfirst := ExecStmt(c, ss[0], st), ExecN(p, head, locals, ns, st.depth);
      if first.res.Ok? && first.res.value.Normal? {
        BlockFacts(c, ss[1..], first.st);
        if Clean(first.st) {
          AgreeBlock(c, p, ss[1..], inLoop, inFunc, nfirst.locals, first.st, nfirst.st);
        } else if Clean(ExecBlock(c, ss[1..], first.st).st) {
          UncleanStays(first.st, ExecBlock(c, ss[1..], first.st).st);
        }
      }
    }
  }

  lemma {:induction false} AgreeStmt(c: Context, p: NProgram, s: Stmt, inLoop: bool, inFunc: bool,
                                     locals: Locals, st: State, ns: NState)
    requires Linked(c, p, st, ns) && StmtSupported(c.m, s, inLoop, inFunc) && GenStmt(c.m, s, Track(c, st)).Some?
    ensures AgreeFlow(ExecStmt(c, s, st), ExecN(p, GenStmt(c.m, s, Track(c, st)).value, locals, ns, st.depth), locals)
    decreases MAX_FUNCTION_DEPTH - st.depth, s
  {
    hide Linked, AgreeFlow, ExecFor, ExecForEach, RunWhile, RunIf, ExecSwitch, ExecSimple, ExecN, GenStmt, StmtSupported, GenFor, GenForEach, GenWhile, GenCases;
    match s
    case For(_, _, _, _, _) => AgreeFor(c, p, s, inLoop, inFunc, locals, st, ns);
    case ForEach(_, _, _) => AgreeForEach(c, p, s, inLoop, inFunc, locals, st, ns);
    case While(_, _) => AgreeWhileStmt(c, p, s, inLoop, inFunc, locals, st, ns);
    case If(_, _) => AgreeIfStmt(c, p, s, inLoop, inFunc, locals, st, ns);
    case Switch(_, _, _) => AgreeSwitch(c, p, s, inLoop, inFunc, locals, st, ns);
    case _ => AgreeSimple(c, p, s, inLoop, inFunc, locals, st, ns);
  }

  // ---- simple statements ------------------------------------------------------------------

  lemma {:induction false} AgreeSimple(c: Context, p: NProgram, s: Stmt, inLoop: bool, inFunc: bool,
                                       locals: Locals, st: State, ns: NState)
    requires Linked(c, p, st, ns) && StmtSupported(c.m, s, inLoop, inFunc) && GenStmt(c.m, s, Track(c, st)).Some?
    requires IsSimple(s)
    ensures AgreeFlow(ExecSimple(c, s, st), ExecN(p, GenStmt(c.m, s, Track(c, st)).value, locals, ns, st.depth), locals)
    decreases MAX_FUNCTION_DEPTH - st.depth, s, 3
  {
    hide Linked, AgreeFlow, ExecN, EvalExpr, ExecAssign, ExecIndexAssign, GenExpr;
    match s
    case Return(_) => AgreeReturn(c, p, s, locals, st, ns);
    case Assign(_, _) => AgreeAssign(c, p, s, inLoop, inFunc, locals, st, ns);
    case IndexAssign(_, _, _) => AgreeIndexAssign(c, p, s, inLoop, inFunc, locals, st, ns);
    case Expression(_) => AgreeExpression(c, p, s, locals, st, ns);
    case Seal(name) => AgreeSeal(c, p, name, locals, st, ns);
    case Break => AgreeTrivial(c, p, s, inLoop, inFunc, locals, st, ns);
    case Continue => AgreeTrivial(c, p, s, inLoop, inFunc, locals, st, ns);
    case _ => AgreeTrivial(c, p, s, inLoop, inFunc, locals, st, ns);
  }

  lemma AgreeTrivial(c: Context, p: NProgram, s: Stmt, inLoop: bool, inFunc: bool, locals: Locals, st: State, ns: NState)
    requires Linked(c, p, st, ns) && StmtSupported(c.m, s, inLoop, inFunc) && GenStmt(c.m, s, Track(c, st)).Some?
    requires IsSimple(s) && !s.Return? && !s.Assign? && !s.IndexAssign? && !s.Expression? && !s.Seal?
    ensures AgreeFlow(ExecSimple(c, s, st), ExecN(p, GenStmt(c.m, s, Track(c, st)).value, locals, ns, st.depth), locals)
  {
    hide Ready, Good, Matches, EvalExpr, EvalN, GenExpr, ExecOne, ExecN;
    NothingLeft(p, locals, ns, st.depth);
    if s.Break? {
      StepLocal(p, NBreak, [], locals, ns, st.depth);
      assert [NBreak] + [] == [NBreak];
    } else if s.Continue? {
      StepLocal(p, NContinue, [], locals, ns, st.depth);
      assert [NContinue] + [] == [NContinue];
    }
  }

  lemma {:induction false} AgreeReturn(c: Context, p: NProgram, s: Stmt, locals: Locals, st: State, ns: NState)
    requires Linked(c, p, st, ns) && s.Return? && ExprSupported(c.m, s.expr) && GenExpr(c.m, s.expr).Some?
    ensures AgreeFlow(ExecSimple(c, s, st), ExecN(p, [NReturn(GenExpr(c.m, s.expr).value)], locals, ns, st.depth), locals)
    decreases MAX_FUNCTION_DEPTH - st.depth, s, 0
  {
    hide Ready, Good, Matches, EvalExpr, EvalN, GenExpr, ExprSupported, Clean;
    var e := s.expr;
    var x := GenExpr(c.m, e).value;
    AgreeExpr(c, p, e, st, ns);
    StepUse(p, NReturn(x), [], locals, ns, st.depth);
    assert [NReturn(x)] + [] == [NReturn(x)];
  }

  lemma AgreeSeal(c: Context, p: NProgram, name: string, locals: Locals, st: State, ns: NState)
    requires Linked(c, p, st, ns) && GenStmt(c.m, Seal(name), Track(c, st)).Some?
    ensures AgreeFlow(ExecSimple(c, Seal(name), st), ExecN(p, GenStmt(c.m, Seal(name), Track(c, st)).value, locals, ns, st.depth), locals)
  {
    hide Good, Ready, Matches, Clean, GenStmts, GenExpr, EvalN, ExecN, LookupName;
    var e := Name(name, c.m.constantId(name));
    var x := GenExpr(c.m, e).value;
    AgreeLeaf(c, p, e, st, ns);
    assert EvalExpr(c, e, st) == Out(st, LookupName(c.m, st.env, name, c.m.constantId(name)));
    StepUse(p, NSeal(name, x), [], locals, ns, st.depth);
    assert [NSeal(name, x)] + [] == [NSeal(name, x)];
    assert p.m == c.m;
    if LookupName(c.m, st.env, name, c.m.constantId(name)).Ok? {
      SealKeepsMatch(st, ns, EvalN(p, x, ns, st.depth).st, name, EvalExpr(c, e, st).res.value);
      NothingLeft(p, locals, EvalN(p, x, ns, st.depth).st.(sealed := EvalN(p, x, ns, st.depth).st.sealed[name := EvalExpr(c, e, st).res.value]), st.depth);
    }
  }

  lemma SealKeepsMatch(st: State, ns: NState, ns': NState, name: string, v: Value)
    requires Matches(st, ns')
    ensures Matches(st.(sealed := st.sealed[name := v]), ns'.(sealed := ns'.sealed[name := v]))
    ensures Clean(st.(sealed := st.sealed[name := v])) == Clean(st)
  {
  }

  lemma {:induction false} AgreeExpression(c: Context, p: NProgram, s: Stmt, locals: Locals, st: State, ns: NState)
    requires Linked(c, p, st, ns) && s.Expression? && ExprSupported(c.m, s.expr) && GenExpression(c.m, s.expr).Some?
    ensures AgreeFlow(ExecSimple(c, s, st), ExecN(p, GenExpression(c.m, s.expr).value, locals, ns, st.depth), locals)
    decreases MAX_FUNCTION_DEPTH - st.depth, s, 2
  {
    hide Ready, Good, Matches, EvalExpr, EvalN, GenExpr, ExprSupported, Clean;
    var e := s.expr;
    if IsPrintCall(e) {
      AgreePrint(c, p, s, locals, st, ns);
    } else {
      var x := GenExpr(c.m, e).value;
      AgreeExpr(c, p, e, st, ns);
      StepUse(p, NDiscard(x), [], locals, ns, st.depth);
      assert [NDiscard(x)] + [] == [NDiscard(x)];
    }
  }

  lemma {:induction false} AgreeAssign(c: Context, p: NProgram, s: Stmt, inLoop: bool, inFunc: bool,
                                       locals: Locals, st: State, ns: NState)
    requires Linked(c, p, st, ns) && StmtSupported(c.m, s, inLoop, inFunc) && GenStmt(c.m, s, Track(c, st)).Some?
    requires s.Assign?
    ensures AgreeFlow(ExecAssign(c, s, st), ExecN(p, GenStmt(c.m, s, Track(c, st)).value, locals, ns, st.depth), locals)
    decreases MAX_FUNCTION_DEPTH - st.depth, s, 0
  {
    hide Ready, Good, Grows, EvalExpr, EvalN, GenExpr, GenStmt, ExprSupported, ExecN;
    ShapeAssign(c.m, s, Track(c, st));
    var x := GenExpr(c.m, s.expr).value;
    var record := if Track(c, st) then [NRecord(s.name)] else [];
    StepLet(p, "value", x, [NInsert(s.name, "value")] + record, locals, ns, st.depth);
    AgreeExpr(c, p, s.expr, st, ns);
    var v, nv := EvalExpr(c, s.expr, st), EvalN(p, x, ns, st.depth);
    if v.res.Ok? && Clean(v.st) {
      var locals1 := locals + [("value", LValue(v.res.value))];
      GetLast(locals, "value", LValue(v.res.value));
      StepInsert(p, s.name, "value", v.res.value, record, locals1, nv.st, st.depth);
      var ns2 := nv.st.(env := nv.st.env[s.name := v.res.value]);
      NothingLeft(p, locals1, ns2, st.depth);
      if Track(c, st) {
        StepRecord(p, s.name, [], locals1, ns2, st.depth);
        assert [NRecord(s.name)] + [] == [NRecord(s.name)];
        NothingLeft(p, locals1, ns2.(names := ns2.names + {s.name}), st.depth);
      }
    } else if v.res.Ok? {
      SubsetSize(v.st.names, v.st.names + {s.name});
    }
  }

  lemma NothingLeft(p: NProgram, locals: Locals, ns: NState, depth: nat)
    requires Fits(p, ns, depth)
    ensures ExecN(p, [], locals, ns, depth) == NExec(ns, locals, NOk(Next))
  {
  }

  lemma IndexStoresAgree(env: map<string, Value>, name: string, index: Value, v: Value)
    ensures RtArraySet(env, name, index, v) ==
              (if ArrayIndex(index).Ok? then StoreItem(env, name, ArrayIndex(index).value, v) else Err)
  {
  }

  lemma {:induction false} AgreeIndexAssign(c: Context, p: NProgram, s: Stmt, inLoop: bool, inFunc: bool,
                                            locals: Locals, st: State, ns: NState)
    requires Linked(c, p, st, ns) && StmtSupported(c.m, s, inLoop, inFunc) && GenStmt(c.m, s, Track(c, st)).Some?
    requires s.IndexAssign?
    ensures AgreeFlow(ExecIndexAssign(c, s, st), ExecN(p, GenStmt(c.m, s, Track(c, st)).value, locals, ns, st.depth), locals)
    decreases MAX_FUNCTION_DEPTH - st.depth, s, 0
  {
    hide Ready, Good, Grows, EvalExpr, EvalN, GenExpr, ExprSupported, ExecN, RtArraySet, StoreItem, ArrayIndex;
    var i, x := GenExpr(c.m, s.index).value, GenExpr(c.m, s.expr).value;
    var code := NArraySet(s.name, i, x);
    ExecSingle(p, code, locals, ns, st.depth);
    assert ExecOne(p, code, locals, ns, st.depth) == ExecArraySet(p, code, locals, ns, st.depth);
    AgreeExpr(c, p, s.index, st, ns);
    ExprFacts(c, s.index, st);
    var index, nindex := EvalExpr(c, s.index, st), EvalN(p, i, ns, st.depth);
    if index.res.Ok? {
      ExprFacts(c, s.expr, index.st);
      var v := EvalExpr(c, s.expr, index.st);
      if Clean(index.st) {
        AgreeExpr(c, p, s.expr, index.st, nindex.st);
        if v.res.Ok? {
          IndexStoresAgree(v.st.env, s.name, index.res.value, v.res.value);
        }
      } else if Clean(v.st) {
        UncleanStays(index.st, v.st);
      }
    }
  }

  lemma PrintLinesAgree(m: Machine, vs: seq<Value>)
    ensures RtLine(m, vs) == PrintLine(m, vs)
  {
  }

  /** What printing values in statement position comes to. */
  function Printed(m: Machine, name: string, vs: seq<Value>): Res<string> {
    if name == "print" then Ok(PrintLine(m, vs)) else PrintfLine(m, vs)
  }

  lemma PrintCall(c: Context, e: Expr, st: State)
    requires Within(c, st) && e.Call? && IsPrintCall(e) && e.name !in c.funcs
    requires !c.secret && !c.m.confidential(e.name)
    ensures
      var args := EvalArgs(c, e, e.args, st.(called := st.called + {e.name}));
      var r := EvalExpr(c, e, st);
      if !ArityOk(c.m, e.name, |e.args|) || args.res.Err? || Printed(c.m, e.name, args.res.value).Err? then r.res.Err?
      else
        var line := Printed(c.m, e.name, args.res.value).value;
        && r.res.Ok?
        && r.st == args.st.(out := args.st.out + [line], exprPrints := args.st.exprPrints + 1)
  {
    hide EvalArgs, PrintLine, PrintfLine;
    assert EvalExpr(c, e, st) == EvalCall(c, e, st);
  }

  /** The interpreter's print statement: its own print is not held against it. */
  lemma PrintStatement(c: Context, s: Stmt, st: State)
    requires Within(c, st) && s.Expression? && IsPrintCall(s.expr) && s.expr.name !in c.funcs
    requires !c.secret && !c.m.confidential(s.expr.name)
    ensures
      var e := s.expr;
      var args := EvalArgs(c, e, e.args, st.(called := st.called + {e.name}));
      var r := ExecSimple(c, s, st);
      if !ArityOk(c.m, e.name, |e.args|) || args.res.Err? || Printed(c.m, e.name, args.res.value).Err? then r.res.Err?
      else r == Out(args.st.(out := args.st.out + [Printed(c.m, e.name, args.res.value).value]), Ok(Normal))
  {
    hide EvalArgs, EvalExpr, Printed, ArityOk;
    PrintCall(c, s.expr, st);
  }

  /** The emitted print statement. */
  lemma PrintCode(p: NProgram, m: Machine, e: Expr, locals: Locals, ns: NState, depth: nat)
    requires Fits(p, ns, depth) && p.m == m && IsPrintCall(e) && GenExprs(m, e.args).Some?
    ensures GenExpression(m, e).Some?
    ensures
      var vs := EvalEach(p, GenExprs(m, e.args).value, ns, depth);
      var r := ExecN(p, GenExpression(m, e).value, locals, ns, depth);
      if !vs.res.NOk? then r == NExec(vs.st, locals, Failed(vs.res))
      else if Printed(m, e.name, vs.res.value).Err? then r.res.NErr?
      else r == NExec(vs.st.(out := vs.st.out + [Printed(m, e.name, vs.res.value).value]), locals, NOk(Next))
  {
    hide EvalEach, GenExprs, PrintLine, RtLine;
    var xs := GenExprs(m, e.args).value;
    var s := if e.name == "print" then NPrint(xs) else NPrintf(xs);
    ExecSingle(p, s, locals, ns, depth);
    var vs := EvalEach(p, xs, ns, depth);
    if vs.res.NOk? {
      PrintLinesAgree(m, vs.res.value);
    }
  }

  /** print and printf in statement position. */
  lemma {:induction false} AgreePrint(c: Context, p: NProgram, s: Stmt, locals: Locals, st: State, ns: NState)
    requires Linked(c, p, st, ns) && s.Expression? && ExprSupported(c.m, s.expr) && IsPrintCall(s.expr)
    requires GenExprs(c.m, s.expr.args).Some?
    ensures AgreeFlow(ExecSimple(c, s, st), ExecN(p, GenExpression(c.m, s.expr).value, locals, ns, st.depth), locals)
    decreases MAX_FUNCTION_DEPTH - st.depth, s, 1
  {
    hide Ready, Good, Grows, EvalArgs, EvalEach, GenExprs, GenExpression, ExprsSupported, ExecN, ExecSimple, Printed;
    var e := s.expr;
    var noted := st.(called := st.called + {e.name});
    PrintIsBuiltin(c, p, e.name);
    NotedLinked(c, p, st, ns, e.name);
    AgreeEach(c, p, e, e.args, noted, ns);
    PrintStatement(c, s, st);
    PrintCode(p, c.m, e, locals, ns, st.depth);
    var args := EvalArgs(c, e, e.args, noted);
    if args.res.Ok? && !ArityOk(c.m, e.name, |e.args|) {
      assert e.name == "printf" && |args.res.value| == 0;
      NothingToPrint(c.m);
    }
  }

  lemma NothingToPrint(m: Machine)
    ensures Printed(m, "printf", []).Err?
  {
  }

  // ---- range loops ------------------------------------------------------------------------

  lemma RangeFacts(c: Context, s: Stmt, index: int, stop: int, step: int, st: State)
    requires Within(c, st) && Good(c, st) && s.For?
    ensures var r := RunRange(c, s, index, stop, step, st); Good(c, r.st) && Grows(st, r.st)
  {
    RangeKeeps(c, FunctionCalls(c.funcs) + StmtCalls(s), s, index, stop, step, st);
  }

  /** The emitted range loop. */
  function RangeLoop(variable: string, code: seq<NStmt>): NStmt {
    NWhileRange([NTick, NInsertIndex(variable, "index"), NAdvance("index", "step")] + code)
  }

  /** Bumping the index before the body instead of after it changes nothing, `continue` included. */
  lemma {:induction false} AgreeRange(c: Context, p: NProgram, s: Stmt, inFunc: bool, outer: Locals,
                                      start: int, stop: int, step: int, index: int, st: State, ns: NState)
    requires Linked(c, p, st, ns) && s.For? && StmtsSupported(c.m, s.body, true, inFunc)
    requires GenStmts(c.m, s.body, Track(c, st)).Some?
    ensures AgreeFlow(RunRange(c, s, index, stop, step, st),
                      LoopRange(p, RangeLoop(s.variable, GenStmts(c.m, s.body, Track(c, st)).value),
                                RangeLocals(outer, start, stop, step, index), ns, st.depth), outer)
    decreases MAX_FUNCTION_DEPTH - st.depth, s, c.budget - st.loops, 0
  {
    hide Ready, Grows, ExecBlock, ExecN, GenStmts, StmtsSupported, Get, Trusted, SealFreeFunctions;
    var code := GenStmts(c.m, s.body, Track(c, st)).value;
    var l, l' := RangeLocals(outer, start, stop, step, index), RangeLocals(outer, start, stop, step, index + step);
    RangeLocalsGive(outer, start, stop, step, index);
    if RangeContinues(index, stop, step) {
      RangeHead(p, s.variable, code, outer, start, stop, step, index, ns, st.depth);
      var tick := Tick(c, st);
      if tick.res.Ok? {
        var entry := tick.st.(env := st.env[s.variable := Scalar(index as real)]);
        var nentry := ns.(loops := ns.loops + 1, env := ns.env[s.variable := Scalar(index as real)]);
        AgreeBlock(c, p, s.body, true, inFunc, l', entry, nentry);
        BlockFacts(c, s.body, entry);
        var body, nbody := ExecBlock(c, s.body, entry), ExecN(p, code, l', nentry, st.depth);
        RangeRound(c, p, s, inFunc, outer, start, stop, step, index, st, ns, body, nbody);
      }
    }
  }

  /** One round of the range loop, given what its body did. */
  lemma {:induction false} RangeRound(c: Context, p: NProgram, s: Stmt, inFunc: bool, outer: Locals,
                                      start: int, stop: int, step: int, index: int, st: State, ns: NState,
                                      body: Out<Flow>, nbody: NExec)
    requires Linked(c, p, st, ns) && s.For? && StmtsSupported(c.m, s.body, true, inFunc)
    requires GenStmts(c.m, s.body, Track(c, st)).Some?
    requires RangeContinues(index, stop, step) && st.loops < c.budget
    requires
      var entry := st.(loops := st.loops + 1, env := st.env[s.variable := Scalar(index as real)]);
      After(c, entry, body.st) && Good(c, body.st) && body == ExecBlock(c, s.body, entry)
    requires
      var nentry := ns.(loops := ns.loops + 1, env := ns.env[s.variable := Scalar(index as real)]);
      var l' := RangeLocals(outer, start, stop, step, index + step);
      && nbody == ExecN(p, GenStmts(c.m, s.body, Track(c, st)).value, l', nentry, st.depth)
      && AgreeFlow(body, nbody, l')
    ensures AgreeFlow(RunRange(c, s, index, stop, step, st),
                      LoopRange(p, RangeLoop(s.variable, GenStmts(c.m, s.body, Track(c, st)).value),
                                RangeLocals(outer, start, stop, step, index), ns, st.depth), outer)
    decreases MAX_FUNCTION_DEPTH - st.depth, s, c.budget - st.loops - 1, 1
  {
    hide Ready, Grows, Good, Matches, ExecBlock, ExecN, GenStmts, StmtsSupported, Get, Clean;
    var code := GenStmts(c.m, s.body, Track(c, st)).value;
    var l, l' := RangeLocals(outer, start, stop, step, index), RangeLocals(outer, start, stop, step, index + step);
    RangeLocalsGive(outer, start, stop, step, index);
    RangeHead(p, s.variable, code, outer, start, stop, step, index, ns, st.depth);
    if body.res.Ok? && Clean(body.st) {
      assert nbody.locals[..|l|] == l';
    }
    if body.res.Ok? && (body.res.value.Normal? || body.res.value.Continued?) {
      RangeFacts(c, s, index + step, stop, step, body.st);
      var rest := RunRange(c, s, index + step, stop, step, body.st);
      if Clean(body.st) {
        AgreeRange(c, p, s, inFunc, outer, start, stop, step, index + step, body.st, nbody.st);
      } else if Clean(rest.st) {
        UncleanStays(body.st, rest.st);
      }
    }
  }

  lemma IntegersAgree(v: Value)
    ensures RtRangeInteger(v) == LoopInteger(v)
  {
  }

  /** One bound of a range loop. */
  lemma {:induction false} AgreeLetRange(c: Context, p: NProgram, s: Stmt, e: Expr, x: string, rest: seq<NStmt>,
                                         locals: Locals, st: State, ns: NState)
    requires Linked(c, p, st, ns) && ExprSupported(c.m, e) && GenExpr(c.m, e).Some? && e < s
    ensures var i := EvalInteger(c, s, e, st);
            var n := EvalN(p, GenExpr(c.m, e).value, ns, st.depth).st;
            var r := ExecN(p, [NLetRange(x, GenExpr(c.m, e).value)] + rest, locals, ns, st.depth);
      && Good(c, i.st)
      && if i.res.Ok? && Clean(i.st) then
           Linked(c, p, i.st, n) && r == ExecN(p, rest, locals + [(x, LInt(i.res.value))], n, st.depth)
         else r.res.NErr?
    decreases MAX_FUNCTION_DEPTH - st.depth, s, 0
  {
    hide Ready, Good, Grows, Matches, Clean, EvalExpr, EvalN, GenExpr, ExprSupported, ExecN, RtRangeInteger, LoopInteger;
    AgreeExpr(c, p, e, st, ns);
    ExprFacts(c, e, st);
    StepLetRange(p, x, GenExpr(c.m, e).value, rest, locals, ns, st.depth);
    var v := EvalExpr(c, e, st);
    if v.res.Ok? {
      IntegersAgree(v.res.value);
    }
  }

  /** The range loop from its step expression on. */
  function ForFromStep(c: Context, s: Stmt, start: int, stop: int, st: State): Out<Flow>
    requires Within(c, st) && s.For?
  {
    var step := EvalInteger(c, s, s.step, st);
    if step.res.Err? || step.res.value == 0 then Out(step.st, Err)
    else RunRange(c, s, start, stop, step.res.value, step.st)
  }

  /** The range loop from its stop expression on. */
  function ForFromStop(c: Context, s: Stmt, start: int, st: State): Out<Flow>
    requires Within(c, st) && s.For?
  {
    var stop := EvalInteger(c, s, s.stop, st);
    if stop.res.Err? then Out(stop.st, Err) else ForFromStep(c, s, start, stop.res.value, stop.st)
  }

  lemma IntegerFacts(c: Context, s: Stmt, e: Expr, st: State)
    requires Within(c, st) && Good(c, st) && e < s
    ensures var i := EvalInteger(c, s, e, st); Good(c, i.st) && Grows(st, i.st)
  {
    hide Good, Grows;
    ExprFacts(c, e, st);
  }

  lemma GrowsOn(a: State, b: State, d: State)
    requires Grows(a, b) && Grows(b, d)
    ensures Grows(a, d)
  {
  }

  lemma FromStepFacts(c: Context, s: Stmt, start: int, stop: int, st: State)
    requires Within(c, st) && Good(c, st) && s.For?
    ensures Grows(st, ForFromStep(c, s, start, stop, st).st)
  {
    hide Good, Grows, EvalExpr, RunRange;
    IntegerFacts(c, s, s.step, st);
    var step := EvalInteger(c, s, s.step, st);
    if step.res.Ok? && step.res.value != 0 {
      RangeFacts(c, s, start, stop, step.res.value, step.st);
      GrowsOn(st, step.st, ForFromStep(c, s, start, stop, st).st);
    }
  }

  lemma FromStopFacts(c: Context, s: Stmt, start: int, st: State)
    requires Within(c, st) && Good(c, st) && s.For?
    ensures Grows(st, ForFromStop(c, s, start, st).st)
  {
    hide Good, Grows, EvalExpr, ForFromStep;
    IntegerFacts(c, s, s.stop, st);
    var stop := EvalInteger(c, s, s.stop, st);
    if stop.res.Ok? {
      FromStepFacts(c, s, start, stop.res.value, stop.st);
      GrowsOn(st, stop.st, ForFromStop(c, s, start, st).st);
    }
  }

  lemma {:induction false} AgreeFromStep(c: Context, p: NProgram, s: Stmt, inFunc: bool, outer: Locals,
                                         start: int, stop: int, st: State, ns: NState)
    requires Linked(c, p, st, ns) && s.For? && StmtsSupported(c.m, s.body, true, inFunc)
    requires ExprSupported(c.m, s.step) && GenExpr(c.m, s.step).Some? && GenStmts(c.m, s.body, Track(c, st)).Some?
    ensures var loop := RangeLoop(s.variable, GenStmts(c.m, s.body, Track(c, st)).value);
      AgreeFlow(ForFromStep(c, s, start, stop, st),
                ExecN(p, [NLetRange("step", GenExpr(c.m, s.step).value)] + [NRefuseZero("step"), NLetCopy("index", "start"), loop],
                      outer + [("start", LInt(start))] + [("stop", LInt(stop))], ns, st.depth), outer)
    decreases MAX_FUNCTION_DEPTH - st.depth, s, c.budget + 1, 0
  {
    hide Ready, Good, Grows, Matches, EvalExpr, EvalN, GenExpr, GenStmts, ExprSupported, StmtsSupported, ExecN, LoopRange, RunRange;
    var loop := RangeLoop(s.variable, GenStmts(c.m, s.body, Track(c, st)).value);
    var l := outer + [("start", LInt(start))] + [("stop", LInt(stop))];
    AgreeLetRange(c, p, s, s.step, "step", [NRefuseZero("step"), NLetCopy("index", "start"), loop], l, st, ns);
    var step, n := EvalInteger(c, s, s.step, st), EvalN(p, GenExpr(c.m, s.step).value, ns, st.depth).st;
    if step.res.Ok? {
      if Clean(step.st) {
        RangeTail(p, loop, outer, start, stop, step.res.value, n, st.depth);
        if step.res.value != 0 {
          AgreeRange(c, p, s, inFunc, outer, start, stop, step.res.value, start, step.st, n);
        }
      } else if step.res.value != 0 {
        RangeFacts(c, s, start, stop, step.res.value, step.st);
        if Clean(ForFromStep(c, s, start, stop, st).st) {
          UncleanStays(step.st, ForFromStep(c, s, start, stop, st).st);
        }
      }
    }
  }

  lemma {:induction false} AgreeFromStop(c: Context, p: NProgram, s: Stmt, inFunc: bool, outer: Locals,
                                         start: int, st: State, ns: NState)
    requires Linked(c, p, st, ns) && s.For? && StmtsSupported(c.m, s.body, true, inFunc)
    requires ExprSupported(c.m, s.stop) && GenExpr(c.m, s.stop).Some?
    requires ExprSupported(c.m, s.step) && GenExpr(c.m, s.step).Some? && GenStmts(c.m, s.body, Track(c, st)).Some?
    ensures var loop := RangeLoop(s.variable, GenStmts(c.m, s.body, Track(c, st)).value);
      AgreeFlow(ForFromStop(c, s, start, st),
                ExecN(p, [NLetRange("stop", GenExpr(c.m, s.stop).value)]
                         + ([NLetRange("step", GenExpr(c.m, s.step).value)] + [NRefuseZero("step"), NLetCopy("index", "start"), loop]),
                      outer + [("start", LInt(start))], ns, st.depth), outer)
    decreases MAX_FUNCTION_DEPTH - st.depth, s, c.budget + 1, 1
  {
    hide Ready, Good, Grows, Matches, EvalExpr, EvalN, GenExpr, GenStmts, ExprSupported, StmtsSupported, ExecN, ForFromStep;
    var loop := RangeLoop(s.variable, GenStmts(c.m, s.body, Track(c, st)).value);
    var rest := [NLetRange("step", GenExpr(c.m, s.step).value)] + [NRefuseZero("step"), NLetCopy("index", "start"), loop];
    AgreeLetRange(c, p, s, s.stop, "stop", rest, outer + [("start", LInt(start))], st, ns);
    var stop, n := EvalInteger(c, s, s.stop, st), EvalN(p, GenExpr(c.m, s.stop).value, ns, st.depth).st;
    if stop.res.Ok? {
      if Clean(stop.st) {
        AgreeFromStep(c, p, s, inFunc, outer, start, stop.res.value, stop.st, n);
      } else {
        FromStepFacts(c, s, start, stop.res.value, stop.st);
        if Clean(ForFromStop(c, s, start, st).st) {
          UncleanStays(stop.st, ForFromStop(c, s, start, st).st);
        }
      }
    }
  }

  lemma {:induction false} AgreeFor(c: Context, p: NProgram, s: Stmt, inLoop: bool, inFunc: bool,
                                    locals: Locals, st: State, ns: NState)
    requires Linked(c, p, st, ns) && StmtSupported(c.m, s, inLoop, inFunc) && GenStmt(c.m, s, Track(c, st)).Some?
    requires s.For?
    ensures AgreeFlow(ExecFor(c, s, st), ExecN(p, GenStmt(c.m, s, Track(c, st)).value, locals, ns, st.depth), locals)
    decreases MAX_FUNCTION_DEPTH - st.depth, s, c.budget + 1, 2
  {
    hide Ready, Good, Grows, Matches, EvalExpr, EvalN, GenExpr, GenStmt, GenStmts, ExprSupported, StmtsSupported, ExecN, RunRange;
    ShapeFor(c.m, s, Track(c, st));
    var a, b, d := GenExpr(c.m, s.start).value, GenExpr(c.m, s.stop).value, GenExpr(c.m, s.step).value;
    var loop := RangeLoop(s.variable, GenStmts(c.m, s.body, Track(c, st)).value);
    var rest := [NLetRange("stop", b)] + ([NLetRange("step", d)] + [NRefuseZero("step"), NLetCopy("index", "start"), loop]);
    var block := NBlock([NLetRange("start", a)] + rest);
    ExecSingle(p, block, locals, ns, st.depth);
    AgreeLetRange(c, p, s, s.start, "start", rest, locals, st, ns);
    var start, n := EvalInteger(c, s, s.start, st), EvalN(p, a, ns, st.depth).st;
    if start.res.Ok? {
      assert ExecFor(c, s, st) == ForFromStop(c, s, start.res.value, start.st);
      if Clean(start.st) {
        AgreeFromStop(c, p, s, inFunc, locals, start.res.value, start.st, n);
      } else {
        FromStopFacts(c, s, start.res.value, start.st);
        if Clean(ExecFor(c, s, st).st) {
          UncleanStays(start.st, ExecFor(c, s, st).st);
        }
      }
    }
  }

  // ---- direct loops -----------------------------------------------------------------------

  lemma ItemsFacts(c: Context, s: Stmt, items: seq<Value>, st: State)
    requires Within(c, st) && Good(c, st) && s.ForEach? && AllValid(items)
    ensures var r := RunItems(c, s, items, st); Good(c, r.st) && Grows(st, r.st)
  {
    ItemsKeep(c, FunctionCalls(c.funcs) + StmtCalls(s), s, items, st);
  }

  /** The emitted direct loop. */
  function ItemLoop(variable: string, code: seq<NStmt>): NStmt {
    NForIn("item", "items", [NTick, NInsert(variable, "item")] + code)
  }

  lemma {:induction false} AgreeItems(c: Context, p: NProgram, s: Stmt, inFunc: bool, items: seq<Value>,
                                      locals: Locals, st: State, ns: NState)
    requires Linked(c, p, st, ns) && s.ForEach? && StmtsSupported(c.m, s.body, true, inFunc) && AllValid(items)
    requires GenStmts(c.m, s.body, Track(c, st)).Some?
    ensures AgreeFlow(RunItems(c, s, items, st),
                      LoopItems(p, ItemLoop(s.variable, GenStmts(c.m, s.body, Track(c, st)).value), items, locals, ns, st.depth),
                      locals)
    decreases MAX_FUNCTION_DEPTH - st.depth, s, c.budget - st.loops, 0
  {
    hide Ready, Grows, ExecBlock, ExecN, GenStmts, StmtsSupported, Trusted, SealFreeFunctions;
    var code := GenStmts(c.m, s.body, Track(c, st)).value;
    if |items| > 0 {
      ItemHead(p, s.variable, code, locals, items[0], ns, st.depth);
      var tick := Tick(c, st);
      if tick.res.Ok? {
        var l := locals + [("item", LValue(items[0]))];
        var entry := tick.st.(env := st.env[s.variable := items[0]]);
        var nentry := ns.(loops := ns.loops + 1, env := ns.env[s.variable := items[0]]);
        AgreeBlock(c, p, s.body, true, inFunc, l, entry, nentry);
        BlockFacts(c, s.body, entry);
        ItemRound(c, p, s, inFunc, items, locals, st, ns, ExecBlock(c, s.body, entry), ExecN(p, code, l, nentry, st.depth));
      }
    }
  }

  /** One round of the direct loop, given what its body did. */
  lemma {:induction false} ItemRound(c: Context, p: NProgram, s: Stmt, inFunc: bool, items: seq<Value>,
                                     locals: Locals, st: State, ns: NState, body: Out<Flow>, nbody: NExec)
    requires Linked(c, p, st, ns) && s.ForEach? && StmtsSupported(c.m, s.body, true, inFunc)
    requires AllValid(items) && |items| > 0
    requires GenStmts(c.m, s.body, Track(c, st)).Some? && st.loops < c.budget
    requires
      var entry := st.(loops := st.loops + 1, env := st.env[s.variable := items[0]]);
      After(c, entry, body.st) && Good(c, body.st) && body == ExecBlock(c, s.body, entry)
    requires
      var nentry := ns.(loops := ns.loops + 1, env := ns.env[s.variable := items[0]]);
      var l := locals + [("item", LValue(items[0]))];
      && nbody == ExecN(p, GenStmts(c.m, s.body, Track(c, st)).value, l, nentry, st.depth)
      && AgreeFlow(body, nbody, l)
    ensures AgreeFlow(RunItems(c, s, items, st),
                      LoopItems(p, ItemLoop(s.variable, GenStmts(c.m, s.body, Track(c, st)).value), items, locals, ns, st.depth),
                      locals)
    decreases MAX_FUNCTION_DEPTH - st.depth, s, c.budget - st.loops - 1, 1
  {
    hide Ready, Grows, Good, Matches, ExecBlock, ExecN, GenStmts, StmtsSupported, Clean, Valid;
    var code := GenStmts(c.m, s.body, Track(c, st)).value;
    var l := locals + [("item", LValue(items[0]))];
    ItemHead(p, s.variable, code, locals, items[0], ns, st.depth);
    if body.res.Ok? && Clean(body.st) {
      assert nbody.locals[..|locals|] == locals by {
        assert l <= nbody.locals;
      }
    }
    if body.res.Ok? && (body.res.value.Normal? || body.res.value.Continued?) {
      ItemsFacts(c, s, items[1..], body.st);
      var rest := RunItems(c, s, items[1..], body.st);
      if Clean(body.st) {
        AgreeItems(c, p, s, inFunc, items[1..], locals, body.st, nbody.st);
      } else if Clean(rest.st) {
        UncleanStays(body.st, rest.st);
      }
    }
  }

  lemma {:induction false} AgreeForEach(c: Context, p: NProgram, s: Stmt, inLoop: bool, inFunc: bool,
                                        locals: Locals, st: State, ns: NState)
    requires Linked(c, p, st, ns) && StmtSupported(c.m, s, inLoop, inFunc) && GenStmt(c.m, s, Track(c, st)).Some?
    requires s.ForEach?
    ensures AgreeFlow(ExecForEach(c, s, st), ExecN(p, GenStmt(c.m, s, Track(c, st)).value, locals, ns, st.depth), locals)
    decreases MAX_FUNCTION_DEPTH - st.depth, s, c.budget + 1
  {
    hide Ready, Good, Grows, Matches, EvalExpr, EvalN, GenExpr, GenStmt, GenStmts, ExprSupported, StmtsSupported, ExecN, RunItems;
    ShapeForEach(c.m, s, Track(c, st));
    var x := GenExpr(c.m, s.iterable).value;
    var loop := ItemLoop(s.variable, GenStmts(c.m, s.body, Track(c, st)).value);
    var rest := [NLetItems("items", "iterable")] + [loop];
    ExecSingle(p, NBlock([NLet("iterable", x)] + rest), locals, ns, st.depth);
    StepLet(p, "iterable", x, rest, locals, ns, st.depth);
    AgreeExpr(c, p, s.iterable, st, ns);
    ExprFacts(c, s.iterable, st);
    var v, nv := EvalExpr(c, s.iterable, st), EvalN(p, x, ns, st.depth);
    if v.res.Ok? {
      if Clean(v.st) {
        AgreeItemsEntry(c, p, s, inFunc, locals, v.res.value, v.st, nv.st);
      } else if v.res.value.Array? {
        ItemsAreValid(v.res.value.items);
        ItemsFacts(c, s, v.res.value.items, v.st);
        var r := RunItems(c, s, v.res.value.items, v.st);
        if Clean(r.st) {
          UncleanStays(v.st, r.st);
        }
      }
    }
  }

  /** From the iterable's value on. */
  lemma {:induction false} AgreeItemsEntry(c: Context, p: NProgram, s: Stmt, inFunc: bool, outer: Locals, v: Value, st: State, ns: NState)
    requires Linked(c, p, st, ns) && s.ForEach? && StmtsSupported(c.m, s.body, true, inFunc) && Valid(v)
    requires GenStmts(c.m, s.body, Track(c, st)).Some?
    ensures var loop := ItemLoop(s.variable, GenStmts(c.m, s.body, Track(c, st)).value);
            var r := ExecN(p, [NLetItems("items", "iterable")] + [loop], outer + [("iterable", LValue(v))], ns, st.depth);
      if v.Array? then AgreeFlow(RunItems(c, s, v.items, st), r, outer) else r.res.NErr?
    decreases MAX_FUNCTION_DEPTH - st.depth, s, c.budget, 1
  {
    hide Ready, Good, Grows, Matches, GenStmts, StmtsSupported, ExecN, RunItems, LoopItems, Get;
    var loop := ItemLoop(s.variable, GenStmts(c.m, s.body, Track(c, st)).value);
    var l1 := outer + [("iterable", LValue(v))];
    GetLast(outer, "iterable", LValue(v));
    StepLetItems(p, "items", "iterable", v, [loop], l1, ns, st.depth);
    if v.Array? {
      var l2 := l1 + [("items", LItems(v.items))];
      GetLast(l1, "items", LItems(v.items));
      ItemsAreValid(v.items);
      ExecSingle(p, loop, l2, ns, st.depth);
      AgreeItems(c, p, s, inFunc, v.items, l2, st, ns);
    }
  }

  // ---- while loops ------------------------------------------------------------------------

  lemma WhileFacts(c: Context, s: Stmt, st: State)
    requires Within(c, st) && Good(c, st) && s.While?
    ensures var r := RunWhile(c, s, st); Good(c, r.st) && Grows(st, r.st)
  {
    WhileKeeps(c, FunctionCalls(c.funcs) + StmtCalls(s), s, st);
  }

  /** The emitted while loop. */
  function WhileLoop(x: NExpr, code: seq<NStmt>): NStmt {
    NLoop([NBreakUnless(x)] + ([NTick] + code))
  }

  lemma {:induction false} AgreeWhileStmt(c: Context, p: NProgram, s: Stmt, inLoop: bool, inFunc: bool,
                                          locals: Locals, st: State, ns: NState)
    requires Linked(c, p, st, ns) && StmtSupported(c.m, s, inLoop, inFunc) && GenStmt(c.m, s, Track(c, st)).Some?
    requires s.While?
    ensures AgreeFlow(RunWhile(c, s, st), ExecN(p, GenStmt(c.m, s, Track(c, st)).value, locals, ns, st.depth), locals)
    decreases MAX_FUNCTION_DEPTH - st.depth, s, c.budget + 1
  {
    hide Ready, Good, Grows, Matches, GenExpr, GenStmt, GenStmts, ExprSupported, StmtsSupported, ExecN, RunWhile, Loop;
    ShapeWhile(c.m, s, Track(c, st));
    ExecSingle(p, WhileLoop(GenExpr(c.m, s.condition).value, GenStmts(c.m, s.body, Track(c, st)).value), locals, ns, st.depth);
    AgreeWhile(c, p, s, inFunc, locals, st, ns);
  }

  /** A while loop once its test was true. */
  function WhileRound(c: Context, s: Stmt, st: State): Out<Flow>
    requires Within(c, st) && s.While?
  {
    var tick := Tick(c, st);
    if tick.res.Err? then Out(tick.st, Err)
    else
      var body := ExecBlock(c, s.body, tick.st);
      if body.res.Err? || body.res.value.Returned? then body
      else if body.res.value.Broke? then Out(body.st, Ok(Normal))
      else RunWhile(c, s, body.st)
  }

  lemma RoundFacts(c: Context, s: Stmt, st: State)
    requires Within(c, st) && Good(c, st) && s.While?
    ensures Grows(st, WhileRound(c, s, st).st)
  {
    hide Good, Grows, ExecBlock, RunWhile;
    var tick := Tick(c, st);
    TickFacts(c, st);
    if tick.res.Ok? {
      BlockFacts(c, s.body, tick.st);
      var body := ExecBlock(c, s.body, tick.st);
      WhileFacts(c, s, body.st);
      GrowsOn(st, tick.st, body.st);
      GrowsOn(st, body.st, RunWhile(c, s, body.st).st);
    }
  }

  lemma TickFacts(c: Context, st: State)
    requires Within(c, st) && Good(c, st)
    ensures Good(c, Tick(c, st).st) && Grows(st, Tick(c, st).st)
    ensures Clean(Tick(c, st).st) == Clean(st)
  {
  }

  lemma {:induction false} AgreeWhile(c: Context, p: NProgram, s: Stmt, inFunc: bool, locals: Locals, st: State, ns: NState)
    requires Linked(c, p, st, ns) && s.While? && ExprSupported(c.m, s.condition) && GenExpr(c.m, s.condition).Some?
    requires StmtsSupported(c.m, s.body, true, inFunc) && GenStmts(c.m, s.body, Track(c, st)).Some?
    ensures AgreeFlow(RunWhile(c, s, st),
                      Loop(p, WhileLoop(GenExpr(c.m, s.condition).value, GenStmts(c.m, s.body, Track(c, st)).value),
                           locals, ns, st.depth), locals)
    decreases MAX_FUNCTION_DEPTH - st.depth, s, c.budget - st.loops, 2
  {
    hide Ready, Good, Grows, Matches, EvalExpr, EvalN, GenExpr, GenStmts, ExprSupported, StmtsSupported, ExecN, ExecBlock;
    var x, code := GenExpr(c.m, s.condition).value, GenStmts(c.m, s.body, Track(c, st)).value;
    StepBreakUnless(p, x, [NTick] + code, locals, ns, st.depth);
    AgreeExpr(c, p, s.condition, st, ns);
    ExprFacts(c, s.condition, st);
    var test, ntest := EvalExpr(c, s.condition, st), EvalN(p, x, ns, st.depth);
    if test.res.Ok? && test.res.value.Bool? && test.res.value.b {
      assert RunWhile(c, s, st) == WhileRound(c, s, test.st);
      if Clean(test.st) {
        AgreeRound(c, p, s, inFunc, locals, test.st, ntest.st);
      } else {
        RoundFacts(c, s, test.st);
        if Clean(RunWhile(c, s, st).st) {
          UncleanStays(test.st, RunWhile(c, s, st).st);
        }
      }
    }
  }

  /** What an emitted loop does once its body has run. */
  function AfterBody(p: NProgram, s: NStmt, body: NExec, locals: Locals, st: NState, depth: nat): NExec
    requires Fits(p, st, depth) && s.NLoop? && Ran(p, st, locals, body)
  {
    var scoped := Scope(body, locals);
    if LoopEnds(scoped.res) then LeaveLoop(scoped)
    else if scoped.st.loops == st.loops then scoped.(res := Stuck)
    else Loop(p, s, scoped.locals, scoped.st, depth)
  }

  /** One round of a while loop, from a true test on. */
  lemma {:induction false} AgreeRound(c: Context, p: NProgram, s: Stmt, inFunc: bool, locals: Locals, st: State, ns: NState)
    requires Linked(c, p, st, ns) && s.While? && ExprSupported(c.m, s.condition) && GenExpr(c.m, s.condition).Some?
    requires StmtsSupported(c.m, s.body, true, inFunc) && GenStmts(c.m, s.body, Track(c, st)).Some?
    ensures var loop := WhileLoop(GenExpr(c.m, s.condition).value, GenStmts(c.m, s.body, Track(c, st)).value);
            var body := ExecN(p, [NTick] + GenStmts(c.m, s.body, Track(c, st)).value, locals, ns, st.depth);
      forall before: NState | before.loops <= ns.loops ::
        AgreeFlow(WhileRound(c, s, st), AfterBody(p, loop, body, locals, before, st.depth), locals)
    decreases MAX_FUNCTION_DEPTH - st.depth, s, c.budget - st.loops, 1
  {
    hide Ready, Good, Grows, EvalExpr, EvalN, GenExpr, GenStmts, ExprSupported, StmtsSupported, ExecN, ExecBlock, RunWhile, Loop;
    var code := GenStmts(c.m, s.body, Track(c, st)).value;
    StepTick(p, code, locals, ns, st.depth);
    var tick := Tick(c, st);
    if tick.res.Ok? {
      TickFacts(c, st);
      var nentry := ns.(loops := ns.loops + 1);
      AgreeBlock(c, p, s.body, true, inFunc, locals, tick.st, nentry);
      BlockFacts(c, s.body, tick.st);
      var body, nbody := ExecBlock(c, s.body, tick.st), ExecN(p, code, locals, nentry, st.depth);
      if body.res.Ok? && (body.res.value.Normal? || body.res.value.Continued?) {
        WhileFacts(c, s, body.st);
        if Clean(body.st) {
          assert nbody.locals[..|locals|] == locals;
          AgreeWhile(c, p, s, inFunc, locals, body.st, nbody.st);
        } else if Clean(RunWhile(c, s, body.st).st) {
          UncleanStays(body.st, RunWhile(c, s, body.st).st);
        }
      }
    }
  }

  // ---- if chains --------------------------------------------------------------------------

  lemma IfFacts(c: Context, s: Stmt, k: nat, st: State)
    requires Within(c, st) && Good(c, st) && s.If? && k <= |s.arms|
    ensures var r := RunIf(c, s, k, st); Good(c, r.st) && Grows(st, r.st)
  {
    IfKeeps(c, FunctionCalls(c.funcs) + StmtCalls(s), s, k, st);
  }

  lemma {:induction false} AgreeIfStmt(c: Context, p: NProgram, s: Stmt, inLoop: bool, inFunc: bool,
                                       locals: Locals, st: State, ns: NState)
    requires Linked(c, p, st, ns) && StmtSupported(c.m, s, inLoop, inFunc) && GenStmt(c.m, s, Track(c, st)).Some?
    requires s.If?
    ensures AgreeFlow(RunIf(c, s, 0, st), ExecN(p, GenStmt(c.m, s, Track(c, st)).value, locals, ns, st.depth), locals)
    decreases MAX_FUNCTION_DEPTH - st.depth, s, |s.arms| + 2
  {
    hide Ready, Good, Matches, Clean, ExecN, RunIf, GenIf, ArmsSupported;
    AgreeIf(c, p, s, 0, inLoop, inFunc, locals, st, ns);
  }

  lemma {:induction false} AgreeIf(c: Context, p: NProgram, s: Stmt, k: nat, inLoop: bool, inFunc: bool,
                                   locals: Locals, st: State, ns: NState)
    requires Linked(c, p, st, ns) && s.If? && k <= |s.arms|
    requires ArmsSupported(c.m, s.arms, inLoop, inFunc) && TailSupported(c.m, s.otherwise, inLoop, inFunc)
    requires GenIf(c.m, s, k, Track(c, st)).Some?
    ensures AgreeFlow(RunIf(c, s, k, st), ExecN(p, GenIf(c.m, s, k, Track(c, st)).value, locals, ns, st.depth), locals)
    decreases MAX_FUNCTION_DEPTH - st.depth, s, |s.arms| - k + 1
  {
    hide Ready, Good, Grows, Matches, EvalExpr, EvalN, GenExpr, GenStmts, ExprSupported, StmtsSupported, ExecN, ExecBlock;
    if k == |s.arms| {
      if s.otherwise.Tail? {
        AgreeBlock(c, p, s.otherwise.body, inLoop, inFunc, locals, st, ns);
      } else {
        NothingLeft(p, locals, ns, st.depth);
      }
    } else {
      ArmSupported(c.m, s.arms, k, inLoop, inFunc);
      var x, code := GenExpr(c.m, s.arms[k].test).value, GenStmts(c.m, s.arms[k].body, Track(c, st)).value;
      var rest := GenIf(c.m, s, k + 1, Track(c, st)).value;
      ExecSingle(p, NIf(x, code, rest), locals, ns, st.depth);
      assert ExecOne(p, NIf(x, code, rest), locals, ns, st.depth) == ExecChoice(p, NIf(x, code, rest), locals, ns, st.depth);
      AgreeExpr(c, p, s.arms[k].test, st, ns);
      ExprFacts(c, s.arms[k].test, st);
      var test, ntest := EvalExpr(c, s.arms[k].test, st), EvalN(p, x, ns, st.depth);
      if test.res.Ok? && test.res.value.Bool? {
        var r := if test.res.value.b then ExecBlock(c, s.arms[k].body, test.st) else RunIf(c, s, k + 1, test.st);
        if Clean(test.st) {
          if test.res.value.b {
            AgreeBlock(c, p, s.arms[k].body, inLoop, inFunc, locals, test.st, ntest.st);
          } else {
            AgreeIf(c, p, s, k + 1, inLoop, inFunc, locals, test.st, ntest.st);
          }
        } else {
          BlockFacts(c, s.arms[k].body, test.st);
          IfFacts(c, s, k + 1, test.st);
          if Clean(r.st) {
            UncleanStays(test.st, r.st);
          }
        }
      }
    }
  }

  // ---- switches ---------------------------------------------------------------------------

  lemma CasesFacts(c: Context, s: Stmt, k: nat, selected: Value, st: State)
    requires Within(c, st) && Good(c, st) && s.Switch? && k <= |s.arms|
    ensures var r := RunCases(c, s, k, selected, st); Good(c, r.st) && Grows(st, r.st)
  {
    CasesKeep(c, FunctionCalls(c.funcs) + StmtCalls(s), s, k, selected, st);
  }

  /** Once an arm has matched, the remaining arms and the default are skipped. */
  lemma {:induction false} MatchedSkips(m: Machine, p: NProgram, s: Stmt, k: nat, track: bool, locals: Locals, ns: NState, depth: nat)
    requires Fits(p, ns, depth) && s.Switch? && k <= |s.arms| && GenCases(m, s, k, track).Some?
    requires Get(locals, "switch_matched") == Some(LFlag(true))
    ensures ExecN(p, GenCases(m, s, k, track).value, locals, ns, depth) == NExec(ns, locals, NOk(Next))
    decreases |s.arms| - k
  {
    hide ExecN, Get, GenExpr, GenStmts;
    NothingLeft(p, locals, ns, depth);
    if k == |s.arms| {
      if s.otherwise.Tail? {
        var body := GenTail(m, s, track).value;
        StepIfUnset(p, "switch_matched", body, true, [], locals, ns, depth);
        assert [NIfUnset("switch_matched", body)] + [] == [NIfUnset("switch_matched", body)];
      }
    } else {
      var arm := CaseArm(GenExpr(m, s.arms[k].test).value, GenStmts(m, s.arms[k].body, track).value);
      StepIfUnset(p, "switch_matched", arm.body, true, GenCases(m, s, k + 1, track).value, locals, ns, depth);
      MatchedSkips(m, p, s, k + 1, track, locals, ns, depth);
    }
  }

  /** The switch from the value of label `k` on. */
  function FromLabel(c: Context, s: Stmt, k: nat, selected: Value, v: Value, st: State): Out<Flow>
    requires Within(c, st) && s.Switch? && k < |s.arms|
  {
    var hit := CompareValues("==", selected, v);
    if hit.Err? then Out(st, Err)
    else if hit.value then ExecBlock(c, s.arms[k].body, st)
    else RunCases(c, s, k + 1, selected, st)
  }

  lemma LabelFacts(c: Context, s: Stmt, k: nat, selected: Value, v: Value, st: State)
    requires Within(c, st) && Good(c, st) && s.Switch? && k < |s.arms|
    ensures Grows(st, FromLabel(c, s, k, selected, v, st).st)
  {
    hide Good, ExecBlock, RunCases, CompareValues;
    BlockFacts(c, s.arms[k].body, st);
    CasesFacts(c, s, k + 1, selected, st);
  }

  /** The emitted arm from its label's value on: a match runs the arm and skips the rest. */
  lemma {:induction false} AgreeLabel(c: Context, p: NProgram, s: Stmt, k: nat, selected: Value, v: Value,
                                      inLoop: bool, inFunc: bool, outer: Locals, st: State, ns: NState)
    requires Linked(c, p, st, ns) && s.Switch? && k < |s.arms| && Valid(selected) && Valid(v)
    requires ArmsSupported(c.m, s.arms, inLoop, inFunc) && TailSupported(c.m, s.otherwise, inLoop, inFunc)
    requires GenStmts(c.m, s.arms[k].body, Track(c, st)).Some? && GenCases(c.m, s, k + 1, Track(c, st)).Some?
    ensures
      var l := SwitchLocals(outer, selected, false);
      var code := GenStmts(c.m, s.arms[k].body, Track(c, st)).value;
      var inside := ExecN(p, [NIfEqual("switch_value", "case_value", [NSetFlag("switch_matched", true)] + code)],
                          CaseLocals(outer, selected, false, v), ns, st.depth);
      AgreeFlow(FromLabel(c, s, k, selected, v, st),
                Resume(p, Scope(inside, l), GenCases(c.m, s, k + 1, Track(c, st)).value, st.depth), outer)
    decreases MAX_FUNCTION_DEPTH - st.depth, s, |s.arms| - k, 0
  {
    hide Ready, Good, Grows, Matches, Clean, GenExpr, GenStmts, GenCases, ExprSupported, StmtsSupported, ExecN, ExecBlock, RunCases,
         CompareValues, RtCompare, Get, Valid;
    var l, l' := SwitchLocals(outer, selected, false), SwitchLocals(outer, selected, true);
    var l1, l2 := CaseLocals(outer, selected, false, v), CaseLocals(outer, selected, true, v);
    var code, rest := GenStmts(c.m, s.arms[k].body, Track(c, st)).value, GenCases(c.m, s, k + 1, Track(c, st)).value;
    CaseInside(p, code, outer, selected, v, ns, st.depth);
    ComparisonsAgree("==", selected, v);
    ArmSupported(c.m, s.arms, k, inLoop, inFunc);
    var hit := CompareValues("==", selected, v);
    assert l1[..|l|] == l && l2[..|l|] == l' && |l1| == |l2|;
    if hit.Ok? {
      if hit.value {
        AgreeBlock(c, p, s.arms[k].body, inLoop, inFunc, l2, st, ns);
        var body, nbody := ExecBlock(c, s.arms[k].body, st), ExecN(p, code, l2, ns, st.depth);
        if body.res.Ok? && Clean(body.st) {
          assert nbody.locals[..|l1|] == l2;
          SwitchLocalsGive(outer, selected, true);
          MatchedSkips(c.m, p, s, k + 1, Track(c, st), l', nbody.st, st.depth);
        }
      } else {
        AgreeCases(c, p, s, k + 1, selected, inLoop, inFunc, outer, st, ns);
      }
    }
  }

  lemma {:induction false} AgreeCases(c: Context, p: NProgram, s: Stmt, k: nat, selected: Value, inLoop: bool, inFunc: bool,
                                      outer: Locals, st: State, ns: NState)
    requires Linked(c, p, st, ns) && s.Switch? && k <= |s.arms| && Valid(selected)
    requires ArmsSupported(c.m, s.arms, inLoop, inFunc) && TailSupported(c.m, s.otherwise, inLoop, inFunc)
    requires GenCases(c.m, s, k, Track(c, st)).Some?
    ensures AgreeFlow(RunCases(c, s, k, selected, st),
                      ExecN(p, GenCases(c.m, s, k, Track(c, st)).value, SwitchLocals(outer, selected, false), ns, st.depth), outer)
    decreases MAX_FUNCTION_DEPTH - st.depth, s, |s.arms| - k, 2
  {
    hide Ready, Good, Grows, Matches, EvalExpr, EvalN, GenExpr, GenStmts, ExprSupported, StmtsSupported, ExecN, ExecBlock,
         CompareValues, Get, Valid, FromLabel;
    var l := SwitchLocals(outer, selected, false);
    SwitchLocalsGive(outer, selected, false);
    if k == |s.arms| {
      if s.otherwise.Tail? {
        var body := GenTail(c.m, s, Track(c, st)).value;
        StepIfUnset(p, "switch_matched", body, false, [], l, ns, st.depth);
        assert [NIfUnset("switch_matched", body)] + [] == [NIfUnset("switch_matched", body)];
        AgreeBlock(c, p, s.otherwise.body, inLoop, inFunc, l, st, ns);
        var tail := ExecN(p, body, l, ns, st.depth);
        NothingLeft(p, Scope(tail, l).locals, tail.st, st.depth);
      } else {
        NothingLeft(p, l, ns, st.depth);
      }
    } else {
      AgreeArm(c, p, s, k, selected, inLoop, inFunc, outer, st, ns);
    }
  }

  /** One emitted arm and everything after it. */
  lemma {:induction false} AgreeArm(c: Context, p: NProgram, s: Stmt, k: nat, selected: Value, inLoop: bool, inFunc: bool,
                                    outer: Locals, st: State, ns: NState)
    requires Linked(c, p, st, ns) && s.Switch? && k < |s.arms| && Valid(selected)
    requires ArmsSupported(c.m, s.arms, inLoop, inFunc) && TailSupported(c.m, s.otherwise, inLoop, inFunc)
    requires GenCases(c.m, s, k, Track(c, st)).Some?
    ensures AgreeFlow(RunCases(c, s, k, selected, st),
                      ExecN(p, GenCases(c.m, s, k, Track(c, st)).value, SwitchLocals(outer, selected, false), ns, st.depth), outer)
    decreases MAX_FUNCTION_DEPTH - st.depth, s, |s.arms| - k, 1
  {
    hide Ready, Good, Grows, Matches, Clean, EvalExpr, EvalN, GenExpr, GenStmts, ExprSupported, StmtsSupported, ExecN, ExecBlock, Get, Valid;
    var l := SwitchLocals(outer, selected, false);
    SwitchLocalsGive(outer, selected, false);
    ArmSupported(c.m, s.arms, k, inLoop, inFunc);
    var x, code := GenExpr(c.m, s.arms[k].test).value, GenStmts(c.m, s.arms[k].body, Track(c, st)).value;
    var rest := GenCases(c.m, s, k + 1, Track(c, st)).value;
    var test := NIfEqual("switch_value", "case_value", [NSetFlag("switch_matched", true)] + code);
    assert [NLet("case_value", x), test] == [NLet("case_value", x)] + [test];
    StepIfUnset(p, "switch_matched", [NLet("case_value", x), test], false, rest, l, ns, st.depth);
    StepLet(p, "case_value", x, [test], l, ns, st.depth);
    AgreeExpr(c, p, s.arms[k].test, st, ns);
    ExprFacts(c, s.arms[k].test, st);
    var v, nv := EvalExpr(c, s.arms[k].test, st), EvalN(p, x, ns, st.depth);
    if v.res.Ok? {
      assert RunCases(c, s, k, selected, st) == FromLabel(c, s, k, selected, v.res.value, v.st);
      if Clean(v.st) {
        AgreeLabel(c, p, s, k, selected, v.res.value, inLoop, inFunc, outer, v.st, nv.st);
      } else {
        LabelFacts(c, s, k, selected, v.res.value, v.st);
        if Clean(RunCases(c, s, k, selected, st).st) {
          UncleanStays(v.st, RunCases(c, s, k, selected, st).st);
        }
      }
    }
  }

  lemma {:induction false} AgreeSwitch(c: Context, p: NProgram, s: Stmt, inLoop: bool, inFunc: bool,
                                       locals: Locals, st: State, ns: NState)
    requires Linked(c, p, st, ns) && StmtSupported(c.m, s, inLoop, inFunc) && GenStmt(c.m, s, Track(c, st)).Some?
    requires s.Switch?
    ensures AgreeFlow(ExecSwitch(c, s, st), ExecN(p, GenStmt(c.m, s, Track(c, st)).value, locals, ns, st.depth), locals)
    decreases MAX_FUNCTION_DEPTH - st.depth, s, |s.arms| + 2
  {
    hide Ready, Good, Grows, Matches, EvalExpr, EvalN, GenExpr, GenStmt, GenCases, ExprSupported, ArmsSupported, ExecN, RunCases;
    ShapeSwitch(c.m, s, Track(c, st));
    var x := GenExpr(c.m, s.selector).value;
    var cases := GenCases(c.m, s, 0, Track(c, st)).value;
    var rest := [NLetFlag("switch_matched", false)] + cases;
    ExecSingle(p, NBlock([NLet("switch_value", x)] + rest), locals, ns, st.depth);
    StepLet(p, "switch_value", x, rest, locals, ns, st.depth);
    AgreeExpr(c, p, s.selector, st, ns);
    ExprFacts(c, s.selector, st);
    var v, nv := EvalExpr(c, s.selector, st), EvalN(p, x, ns, st.depth);
    if v.res.Ok? {
      if Clean(v.st) {
        StepLetFlag(p, "switch_matched", false, cases, locals + [("switch_value", LValue(v.res.value))], nv.st, st.depth);
        AgreeCases(c, p, s, 0, v.res.value, inLoop, inFunc, locals, v.st, nv.st);
      } else {
        CasesFacts(c, s, 0, v.res.value, v.st);
        var r := RunCases(c, s, 0, v.res.value, v.st);
        if Clean(r.st) {
          UncleanStays(v.st, r.st);
        }
      }
    }
  }
}
