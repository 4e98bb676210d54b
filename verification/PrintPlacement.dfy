/** Programs that print only in statement position never print elsewhere in any run. The state of a run
    counts the prints that are dispatched as values; a statement's own print is counted while it runs and
    taken back when it is done. Each function of the interpreter has one lemma: it leaves the count where it
    found it if every print call in the text is a statement of its own. */
module PrintPlacement {
  import opened Prelude
  import opened Ast
  import opened Values
  import opened Interpreter
  import opened Scans

  predicate Quiet(e: Expr) {
    "print" !in ExprCalls(e) && "printf" !in ExprCalls(e)
  }

  predicate QuietAll(es: seq<Expr>) {
    "print" !in ExprsCalls(es) && "printf" !in ExprsCalls(es)
  }

  predicate Placed(ss: seq<Stmt>)
    decreases ss
  {
    |ss| > 0 ==> PlacedStmt(ss[0]) && Placed(ss[1..])
  }

  predicate PlacedArms(arms: seq<Arm>)
    decreases arms
  {
    |arms| > 0 ==> Quiet(arms[0].test) && Placed(arms[0].body) && PlacedArms(arms[1..])
  }

  predicate PlacedTail(tail: Tail)
    decreases tail
  {
    tail.Tail? ==> Placed(tail.body)
  }

  /** print and printf are called by statements only, on arguments that do not print. */
  predicate PlacedStmt(s: Stmt)
    decreases s
  {
    match s
    case Return(e) => Quiet(e)
    case Assign(_, e) => Quiet(e)
    case IndexAssign(_, i, e) => Quiet(i) && Quiet(e)
    case Expression(e) => if IsPrintCall(e) then QuietAll(e.args) else Quiet(e)
    case For(_, a, b, d, body) => Quiet(a) && Quiet(b) && Quiet(d) && Placed(body)
    case ForEach(_, e, body) => Quiet(e) && Placed(body)
    case While(e, body) => Quiet(e) && Placed(body)
    case If(arms, tail) => PlacedArms(arms) && PlacedTail(tail)
    case Switch(e, arms, tail) => Quiet(e) && PlacedArms(arms) && PlacedTail(tail)
    case _ => true
  }

  predicate PlacedFunctions(funcs: map<string, Func>) {
    forall name | name in funcs :: Placed(funcs[name].body)
  }

  /** A whole program: its statements and the bodies of its functions. */
  predicate PrintsInPlace(p: Program) {
    Placed(p) && forall i | 0 <= i < |p| && p[i].Function? :: Placed(p[i].body)
  }

  lemma {:induction false} PlacedArm(arms: seq<Arm>, k: nat)
    requires PlacedArms(arms) && k < |arms|
    ensures Quiet(arms[k].test) && Placed(arms[k].body)
  {
    if k > 0 {
      PlacedArm(arms[1..], k - 1);
    }
  }

  lemma {:induction false} ProgramFunctionsPlaced(p: Program)
    requires forall i | 0 <= i < |p| && p[i].Function? :: Placed(p[i].body)
    ensures PlacedFunctions(Functions(p))
  {
    hide Placed;
    if |p| > 0 {
      forall i | 0 <= i < |p[1..]| && p[1..][i].Function?
        ensures Placed(p[1..][i].body)
      {
        assert p[1..][i] == p[i + 1];
      }
      ProgramFunctionsPlaced(p[1..]);
    }
  }

  // ---- expressions ------------------------------------------------------------------------

  lemma {:induction false} ExprQuiet(c: Context, e: Expr, st: State)
    requires Within(c, st) && PlacedFunctions(c.funcs) && Quiet(e)
    ensures EvalExpr(c, e, st).st.exprPrints == st.exprPrints
    decreases MAX_FUNCTION_DEPTH - st.depth, e
  {
    hide PlacedFunctions, Leaf, EvalStrict, EvalBound, EvalArgs, CallBuiltin, RunFunction, CallAllowed;
    if IsLeaf(e) {
    } else if IsStrict(e) {
      StrictQuiet(c, e, st);
    } else if e.Slice? {
      ExprQuiet(c, e.base, st);
      var base := EvalExpr(c, e.base, st);
      if base.res.Ok? && base.res.value.Array? {
        BoundQuiet(c, e, e.start, 0, base.st);
        var start := EvalBound(c, e, e.start, 0, base.st);
        BoundQuiet(c, e, e.stop, |base.res.value.items|, start.st);
      }
    } else if e.Logical? {
      ExprQuiet(c, e.left, st);
      ExprQuiet(c, e.right, EvalExpr(c, e.left, st).st);
    } else {
      CallQuiet(c, e, st);
    }
  }

  lemma {:induction false} StrictQuiet(c: Context, e: Expr, st: State)
    requires Within(c, st) && PlacedFunctions(c.funcs) && Quiet(e) && IsStrict(e)
    ensures EvalStrict(c, e, st).st.exprPrints == st.exprPrints
    decreases MAX_FUNCTION_DEPTH - st.depth, e, |Operands(e)| + 1
  {
    hide PlacedFunctions, EvalArgs, Apply;
    OperandCalls(e);
    ArgsQuiet(c, e, Operands(e), st);
  }

  lemma {:induction false} ArgsQuiet(c: Context, whole: Expr, args: seq<Expr>, st: State)
    requires Within(c, st) && PlacedFunctions(c.funcs) && QuietAll(args) && forall a | a in args :: a < whole
    ensures EvalArgs(c, whole, args, st).st.exprPrints == st.exprPrints
    decreases MAX_FUNCTION_DEPTH - st.depth, whole, |args|
  {
    hide PlacedFunctions, EvalExpr;
    if |args| > 0 {
      assert args[0] in args;
      assert forall a | a in args[1..] :: a in args;
      ExprQuiet(c, args[0], st);
      ArgsQuiet(c, whole, args[1..], EvalExpr(c, args[0], st).st);
    }
  }

  lemma {:induction false} BoundQuiet(c: Context, whole: Expr, bound: Option<Expr>, default: nat, st: State)
    requires Within(c, st) && PlacedFunctions(c.funcs) && (bound.Some? ==> bound.value < whole && Quiet(bound.value))
    ensures EvalBound(c, whole, bound, default, st).st.exprPrints == st.exprPrints
    decreases MAX_FUNCTION_DEPTH - st.depth, whole, 0
  {
    hide PlacedFunctions, EvalExpr;
    if bound.Some? {
      ExprQuiet(c, bound.value, st);
    }
  }

  /** Only print and printf count. */
  lemma BuiltinQuiet(c: Context, name: string, vs: seq<Value>, st: State)
    requires ArityOk(c.m, name, |vs|)
    ensures name != "print" && name != "printf" ==> CallBuiltin(c, name, vs, st).st.exprPrints == st.exprPrints
  {
  }

  lemma {:induction false} CallQuiet(c: Context, e: Expr, st: State)
    requires Within(c, st) && PlacedFunctions(c.funcs) && Quiet(e) && e.Call?
    ensures EvalCall(c, e, st).st.exprPrints == st.exprPrints
    decreases MAX_FUNCTION_DEPTH - st.depth, e, |e.args| + 1
  {
    hide PlacedFunctions, EvalArgs, CallBuiltin, RunFunction;
    var noted := st.(called := st.called + {e.name});
    ArgsQuiet(c, e, e.args, noted);
    var args := EvalArgs(c, e, e.args, noted);
    if CallAllowed(c, e.name, |e.args|, st.depth) && args.res.Ok? {
      if e.name in c.funcs {
        FunctionQuiet(c, e, args.res.value, args.st);
      } else {
        BuiltinQuiet(c, e.name, args.res.value, args.st);
      }
    }
  }

  lemma {:induction false} FunctionQuiet(c: Context, e: Expr, vs: seq<Value>, st: State)
    requires Within(c, st) && PlacedFunctions(c.funcs) && e.Call? && e.name in c.funcs
    requires |vs| == |c.funcs[e.name].params| && st.depth < MAX_FUNCTION_DEPTH
    ensures RunFunction(c, e, vs, st).st.exprPrints == st.exprPrints
    decreases MAX_FUNCTION_DEPTH - st.depth, e, 0
  {
    hide ExecBlock, Placed;
    var f := c.funcs[e.name];
    BlockQuiet(c, f.body, st.(env := Bind(f.params, vs), depth := st.depth + 1));
  }

  // ---- statements -------------------------------------------------------------------------

  lemma {:induction false} BlockQuiet(c: Context, ss: seq<Stmt>, st: State)
    requires Within(c, st) && PlacedFunctions(c.funcs) && Placed(ss)
    ensures ExecBlock(c, ss, st).st.exprPrints == st.exprPrints
    decreases MAX_FUNCTION_DEPTH - st.depth, ss
  {
    hide PlacedFunctions, ExecStmt, PlacedStmt;
    if |ss| > 0 {
      StmtQuiet(c, ss[0], st);
      BlockQuiet(c, ss[1..], ExecStmt(c, ss[0], st).st);
    }
  }

  lemma {:induction false} StmtQuiet(c: Context, s: Stmt, st: State)
    requires Within(c, st) && PlacedFunctions(c.funcs) && PlacedStmt(s)
    ensures ExecStmt(c, s, st).st.exprPrints == st.exprPrints
    decreases MAX_FUNCTION_DEPTH - st.depth, s
  {
    hide PlacedFunctions, EvalExpr, ExecFor, RunItems, RunWhile, RunIf, RunCases, ExecSimple, Quiet, Placed, PlacedArms, PlacedTail;
    match s
    case For(_, _, _, _, _) => ForQuiet(c, s, st);
    case ForEach(_, _, _) =>
      ExprQuiet(c, s.iterable, st);
      var v := EvalExpr(c, s.iterable, st);
      if v.res.Ok? && v.res.value.Array? {
        ItemsQuiet(c, s, v.res.value.items, v.st);
      }
    case While(_, _) => WhileQuiet(c, s, st);
    case If(_, _) => IfQuiet(c, s, 0, st);
    case Switch(_, _, _) =>
      ExprQuiet(c, s.selector, st);
      var v := EvalExpr(c, s.selector, st);
      if v.res.Ok? {
        CasesQuiet(c, s, 0, v.res.value, v.st);
      }
    case _ => SimpleQuiet(c, s, st);
  }

  lemma {:induction false} SimpleQuiet(c: Context, s: Stmt, st: State)
    requires Within(c, st) && PlacedFunctions(c.funcs) && PlacedStmt(s) && IsSimple(s)
    ensures ExecSimple(c, s, st).st.exprPrints == st.exprPrints
    decreases MAX_FUNCTION_DEPTH - st.depth, s, 1
  {
    hide PlacedFunctions, EvalExpr, Quiet, QuietAll, StoreItem, LookupName, ArrayIndex;
    match s
    case Return(e) => ExprQuiet(c, e, st);
    case Assign(_, e) => ExprQuiet(c, e, st);
    case IndexAssign(_, i, e) =>
      ExprQuiet(c, i, st);
      ExprQuiet(c, e, EvalExpr(c, i, st).st);
    case Expression(e) =>
      if IsPrintCall(e) {
        PrintQuiet(c, e, st);
      } else {
        ExprQuiet(c, e, st);
      }
    case _ =>
  }

  /** A statement's print counts once while it runs; the statement takes it back. */
  lemma {:induction false} PrintQuiet(c: Context, e: Expr, st: State)
    requires Within(c, st) && PlacedFunctions(c.funcs) && IsPrintCall(e) && QuietAll(e.args)
    ensures var v := EvalExpr(c, e, st);
      if v.res.Ok? && e.name !in c.funcs then v.st.exprPrints == st.exprPrints + 1
      else v.st.exprPrints == st.exprPrints
    decreases MAX_FUNCTION_DEPTH - st.depth, e, |e.args| + 1
  {
    hide PlacedFunctions, EvalArgs, RunFunction, PrintLine, PrintfLine;
    var noted := st.(called := st.called + {e.name});
    ArgsQuiet(c, e, e.args, noted);
    var args := EvalArgs(c, e, e.args, noted);
    if CallAllowed(c, e.name, |e.args|, st.depth) && args.res.Ok? && e.name in c.funcs {
      FunctionQuiet(c, e, args.res.value, args.st);
    }
  }

  lemma {:induction false} ForQuiet(c: Context, s: Stmt, st: State)
    requires Within(c, st) && PlacedFunctions(c.funcs) && PlacedStmt(s) && s.For?
    ensures ExecFor(c, s, st).st.exprPrints == st.exprPrints
    decreases MAX_FUNCTION_DEPTH - st.depth, s, c.budget + 1
  {
    hide PlacedFunctions, EvalExpr, Quiet, Placed, RunRange, LoopInteger;
    ExprQuiet(c, s.start, st);
    var start := EvalInteger(c, s, s.start, st);
    ExprQuiet(c, s.stop, start.st);
    var stop := EvalInteger(c, s, s.stop, start.st);
    ExprQuiet(c, s.step, stop.st);
    var step := EvalInteger(c, s, s.step, stop.st);
    if start.res.Ok? && stop.res.Ok? && step.res.Ok? && step.res.value != 0 {
      RangeQuiet(c, s, start.res.value, stop.res.value, step.res.value, step.st);
    }
  }

  lemma {:induction false} RangeQuiet(c: Context, s: Stmt, index: int, stop: int, step: int, st: State)
    requires Within(c, st) && PlacedFunctions(c.funcs) && s.For? && Placed(s.body)
    ensures RunRange(c, s, index, stop, step, st).st.exprPrints == st.exprPrints
    decreases MAX_FUNCTION_DEPTH - st.depth, s, c.budget - st.loops
  {
    hide PlacedFunctions, ExecBlock, Placed;
    if RangeContinues(index, stop, step) {
      var tick := Tick(c, st);
      if tick.res.Ok? {
        var entry := tick.st.(env := st.env[s.variable := Scalar(index as real)]);
        BlockQuiet(c, s.body, entry);
        var body := ExecBlock(c, s.body, entry);
        if body.res.Ok? && !body.res.value.Returned? && !body.res.value.Broke? {
          RangeQuiet(c, s, index + step, stop, step, body.st);
        }
      }
    }
  }

  lemma {:induction false} ItemsQuiet(c: Context, s: Stmt, items: seq<Value>, st: State)
    requires Within(c, st) && PlacedFunctions(c.funcs) && s.ForEach? && Placed(s.body)
    ensures RunItems(c, s, items, st).st.exprPrints == st.exprPrints
    decreases MAX_FUNCTION_DEPTH - st.depth, s, c.budget - st.loops
  {
    hide PlacedFunctions, ExecBlock, Placed;
    if |items| > 0 {
      var tick := Tick(c, st);
      if tick.res.Ok? {
        var entry := tick.st.(env := st.env[s.variable := items[0]]);
        BlockQuiet(c, s.body, entry);
        var body := ExecBlock(c, s.body, entry);
        if body.res.Ok? && !body.res.value.Returned? && !body.res.value.Broke? {
          ItemsQuiet(c, s, items[1..], body.st);
        }
      }
    }
  }

  lemma {:induction false} WhileQuiet(c: Context, s: Stmt, st: State)
    requires Within(c, st) && PlacedFunctions(c.funcs) && s.While? && Quiet(s.condition) && Placed(s.body)
    ensures RunWhile(c, s, st).st.exprPrints == st.exprPrints
    decreases MAX_FUNCTION_DEPTH - st.depth, s, c.budget - st.loops
  {
    hide PlacedFunctions, EvalExpr, ExecBlock, Quiet, Placed;
    ExprQuiet(c, s.condition, st);
    var test := EvalExpr(c, s.condition, st);
    if test.res.Ok? && test.res.value == Bool(true) {
      var tick := Tick(c, test.st);
      if tick.res.Ok? {
        BlockQuiet(c, s.body, tick.st);
        var body := ExecBlock(c, s.body, tick.st);
        if body.res.Ok? && !body.res.value.Returned? && !body.res.value.Broke? {
          WhileQuiet(c, s, body.st);
        }
      }
    }
  }

  lemma {:induction false} TailQuiet(c: Context, s: Stmt, st: State)
    requires Within(c, st) && PlacedFunctions(c.funcs) && (s.If? || s.Switch?) && PlacedTail(s.otherwise)
    ensures RunOtherwise(c, s, st).st.exprPrints == st.exprPrints
    decreases MAX_FUNCTION_DEPTH - st.depth, s, 0
  {
    hide PlacedFunctions, ExecBlock, Placed;
    if s.otherwise.Tail? {
      BlockQuiet(c, s.otherwise.body, st);
    }
  }

  lemma {:induction false} IfQuiet(c: Context, s: Stmt, k: nat, st: State)
    requires Within(c, st) && PlacedFunctions(c.funcs) && s.If? && k <= |s.arms|
    requires PlacedArms(s.arms) && PlacedTail(s.otherwise)
    ensures RunIf(c, s, k, st).st.exprPrints == st.exprPrints
    decreases MAX_FUNCTION_DEPTH - st.depth, s, |s.arms| - k + 1
  {
    hide PlacedFunctions, EvalExpr, ExecBlock, Quiet, Placed, RunOtherwise;
    if k == |s.arms| {
      TailQuiet(c, s, st);
    } else {
      PlacedArm(s.arms, k);
      ExprQuiet(c, s.arms[k].test, st);
      var test := EvalExpr(c, s.arms[k].test, st);
      BlockQuiet(c, s.arms[k].body, test.st);
      IfQuiet(c, s, k + 1, test.st);
    }
  }

  lemma {:induction false} CasesQuiet(c: Context, s: Stmt, k: nat, selected: Value, st: State)
    requires Within(c, st) && PlacedFunctions(c.funcs) && s.Switch? && k <= |s.arms|
    requires PlacedArms(s.arms) && PlacedTail(s.otherwise)
    ensures RunCases(c, s, k, selected, st).st.exprPrints == st.exprPrints
    decreases MAX_FUNCTION_DEPTH - st.depth, s, |s.arms| - k + 1
  {
    hide PlacedFunctions, EvalExpr, ExecBlock, Quiet, Placed, RunOtherwise, CompareValues;
    if k == |s.arms| {
      TailQuiet(c, s, st);
    } else {
      PlacedArm(s.arms, k);
      ExprQuiet(c, s.arms[k].test, st);
      var candidate := EvalExpr(c, s.arms[k].test, st);
      BlockQuiet(c, s.arms[k].body, candidate.st);
      CasesQuiet(c, s, k + 1, selected, candidate.st);
    }
  }

  // ---- programs ---------------------------------------------------------------------------

  lemma {:induction false} TopQuiet(c: Context, ss: seq<Stmt>, st: State)
    requires Within(c, st) && PlacedFunctions(c.funcs) && Placed(ss)
    ensures RunTop(c, ss, st).st.exprPrints == st.exprPrints
    decreases |ss|
  {
    hide PlacedFunctions, ExecStmt, PlacedStmt;
    if |ss| > 0 {
      StmtQuiet(c, ss[0], st);
      TopQuiet(c, ss[1..], ExecStmt(c, ss[0], st).st);
    }
  }

  /** A program whose print calls are statements prints nowhere else, whatever the run. */
  lemma NoStrayPrints(m: Machine, p: Program, w: World)
    requires PrintsInPlace(p)
    ensures Run(m, p, w).st.exprPrints == 0
  {
    ProgramFunctionsPlaced(p);
    TopQuiet(ContextOf(m, p), p, InitialState(w));
  }
}
