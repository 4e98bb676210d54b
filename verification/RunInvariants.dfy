/** What every run of the interpreter keeps: valid (flat, homogeneous, bounded) arrays in every
    reachable value, growing output and evidence, recorded names that stay bound and inside the
    assignment scan, and calls that stay inside the program's call names. Each function of the
    interpreter has one lemma, by the measure the interpreter itself terminates by; a loop's lemma takes
    its rounds one at a time. */
module RunInvariants {
  import opened Prelude
  import opened Ast
  import opened Values
  import opened Interpreter
  import opened Scans

  /** The shared libraries give valid values for valid arguments, and their names are coherent. */
  ghost predicate Trusted(m: Machine) {
    forall name: string, vs: seq<Value>, w: World ::
      AllValid(vs) && m.builtin(name, vs, w).Some? ==> Valid(m.builtin(name, vs, w).value.0)
  }

  ghost predicate Sound(st: State) {
    ValidEnv(st.env) && ValidEnv(st.sealed) && (st.depth == 0 ==> st.names <= st.env.Keys)
  }

  /** Everything a step may only add to. */
  ghost predicate Grows(st: State, st': State) {
    && st.exprPrints <= st'.exprPrints
    && st.names <= st'.names
    && st.called <= st'.called
    && st.out <= st'.out
    && st.sealed.Keys <= st'.sealed.Keys
  }

  ghost predicate Kept(c: Context, allowed: set<string>, st: State, st': State) {
    Sound(st') && Grows(st, st') && st'.called <= st.called + allowed
  }

  ghost predicate KeptExpr(c: Context, allowed: set<string>, st: State, r: Out<Value>) {
    && Kept(c, allowed, st, r.st)
    && (r.res.Ok? ==> Valid(r.res.value))
    && (SealFreeFunctions(c.funcs) ==> r.st.sealed == st.sealed)
  }

  ghost predicate KeptBlock(c: Context, allowed: set<string>, writes: set<string>, sealFree: bool, st: State, r: Out<Flow>) {
    && Kept(c, allowed, st, r.st)
    && st.env.Keys <= r.st.env.Keys
    && r.st.names <= st.names + writes
    && (r.res.Ok? && r.res.value.Returned? ==> Valid(r.res.value.value))
    && (SealFreeFunctions(c.funcs) && sealFree ==> r.st.sealed == st.sealed)
  }

  ghost predicate Starts(c: Context, allowed: set<string>, st: State) {
    Within(c, st) && Trusted(c.m) && Sound(st) && FunctionsCall(c.funcs, allowed)
  }

  // ---- one step after another -------------------------------------------------------------

  lemma StartsWithin(c: Context, allowed: set<string>, st: State)
    requires Starts(c, allowed, st)
    ensures Within(c, st)
  {
  }

  /** After an expression a statement can go on. */
  lemma Onward(c: Context, allowed: set<string>, st: State, e: Out<Value>)
    requires Starts(c, allowed, st) && KeptExpr(c, allowed, st, e) && After(c, st, e.st)
    ensures Starts(c, allowed, e.st)
  {
  }

  /** A statement that evaluates an expression and then does the rest keeps what both keep. */
  lemma ExprThen(c: Context, allowed: set<string>, writes: set<string>, sealFree: bool, st: State, e: Out<Value>, r: Out<Flow>)
    requires KeptExpr(c, allowed, st, e) && e.st.env == st.env && e.st.names == st.names
    requires KeptBlock(c, allowed, writes, sealFree, e.st, r)
    ensures KeptBlock(c, allowed, writes, sealFree, st, r)
  {
  }

  lemma ExprStops(c: Context, allowed: set<string>, writes: set<string>, sealFree: bool, st: State, e: Out<Value>, f: Res<Flow>)
    requires KeptExpr(c, allowed, st, e) && e.st.env == st.env && e.st.names == st.names
    requires f == Err || f == Ok(Normal)
    ensures KeptBlock(c, allowed, writes, sealFree, st, Out(e.st, f))
  {
  }

  // ---- values -----------------------------------------------------------------------------

  lemma SliceValid(items: seq<Value>, a: nat, b: nat)
    requires Valid(Array(items)) && a <= b <= |items|
    ensures Valid(Array(items[a..b]))
  {
    var part := items[a..b];
    if |part| > 0 {
      FlatItems(items, a);
      forall i | 1 <= i < |part|
        ensures SameArrayType(part[0], part[i])
      {
        FlatItems(items, a + i);
      }
    }
  }

  lemma StoreValid(env: map<string, Value>, name: string, index: nat, v: Value)
    requires ValidEnv(env) && StoreItem(env, name, index, v).Ok?
    ensures ValidEnv(StoreItem(env, name, index, v).value)
    ensures StoreItem(env, name, index, v).value.Keys == env.Keys
  {
    var items := env[name].items;
    var items' := items[index := v];
    FlatItems(items, 0);
    forall i | 1 <= i < |items'|
      ensures SameArrayType(items'[0], items'[i])
    {
      FlatItems(items, i);
    }
    assert Valid(Array(items'));
  }

  lemma AppendValid(base: Value, v: Value)
    requires Valid(base) && AppendValue(base, v).Ok?
    ensures Valid(AppendValue(base, v).value)
  {
    var items := base.items + [v];
    forall i | 1 <= i < |items|
      ensures SameArrayType(items[0], items[i])
    {
      if i < |base.items| {
        FlatItems(base.items, i);
      }
    }
    if |base.items| > 0 {
      FlatItems(base.items, 0);
    }
  }

  lemma ApplyValid(m: Machine, e: Expr, vs: seq<Value>)
    requires IsStrict(e) && |vs| == |Operands(e)| && AllValid(vs)
    requires e.ArrayLit? ==> |vs| <= MAX_ARRAY_ITEMS
    ensures Apply(m, e, vs).Ok? ==> Valid(Apply(m, e, vs).value)
  {
    match e
    case ArrayLit(_) =>
    case Index(_, _) =>
      if Apply(m, e, vs).Ok? {
        FlatItems(vs[0].items, ArrayIndex(vs[1]).value);
      }
    case Unary(op, _) =>
      ElementwiseValid([vs[0]], args => if |args| == 1 then NumericUnary(m, op, args[0]) else Err);
    case Binary(op, _, _) =>
      ElementwiseValid([vs[0], vs[1]], args => if |args| == 2 then NumericBinary(m, op, args[0], args[1]) else Err);
    case Compare(_, _, _) =>
    case Not(_) =>
  }

  lemma LeafValid(c: Context, st: State, e: Expr)
    requires IsLeaf(e) && ValidEnv(st.env)
    ensures Leaf(c.m, st.env, e).Ok? ==> Valid(Leaf(c.m, st.env, e).value)
  {
  }

  lemma BuiltinKeeps(c: Context, allowed: set<string>, name: string, vs: seq<Value>, st: State)
    requires Starts(c, allowed, st) && AllValid(vs) && ArityOk(c.m, name, |vs|)
    ensures KeptExpr(c, allowed, st, CallBuiltin(c, name, vs, st))
  {
    if name == "append" && AppendValue(vs[0], vs[1]).Ok? {
      AppendValid(vs[0], vs[1]);
    }
  }

  // ---- expressions ------------------------------------------------------------------------

  lemma {:induction false} ExprKeeps(c: Context, allowed: set<string>, e: Expr, st: State)
    requires Starts(c, allowed, st) && ExprCalls(e) <= allowed
    ensures KeptExpr(c, allowed, st, EvalExpr(c, e, st))
    decreases MAX_FUNCTION_DEPTH - st.depth, e
  {
    if IsLeaf(e) {
      LeafValid(c, st, e);
    } else if IsStrict(e) {
      StrictKeeps(c, allowed, e, st);
    } else if e.Slice? {
      SliceKeeps(c, allowed, e, st);
    } else if e.Logical? {
      ExprKeeps(c, allowed, e.left, st);
      var left := EvalExpr(c, e.left, st);
      ExprKeeps(c, allowed, e.right, left.st);
    } else {
      CallKeeps(c, allowed, e, st);
    }
  }

  lemma {:induction false} ArgsKeep(c: Context, allowed: set<string>, whole: Expr, args: seq<Expr>, st: State)
    requires Starts(c, allowed, st) && ExprsCalls(args) <= allowed
    requires forall a | a in args :: a < whole
    ensures var r := EvalArgs(c, whole, args, st);
      && Kept(c, allowed, st, r.st)
      && (r.res.Ok? ==> AllValid(r.res.value))
      && (SealFreeFunctions(c.funcs) ==> r.st.sealed == st.sealed)
    decreases MAX_FUNCTION_DEPTH - st.depth, whole, |args|
  {
    hide EvalExpr, Trusted, FunctionsCall, SealFreeFunctions;
    if |args| > 0 {
      assert args[0] in args;
      ExprKeeps(c, allowed, args[0], st);
      var first := EvalExpr(c, args[0], st);
      if first.res.Ok? {
        assert forall a | a in args[1..] :: a in args;
        ArgsKeep(c, allowed, whole, args[1..], first.st);
      }
    }
  }

  lemma {:induction false} StrictKeeps(c: Context, allowed: set<string>, e: Expr, st: State)
    requires Starts(c, allowed, st) && ExprCalls(e) <= allowed && IsStrict(e)
    ensures KeptExpr(c, allowed, st, EvalStrict(c, e, st))
    decreases MAX_FUNCTION_DEPTH - st.depth, e, |Operands(e)| + 1
  {
    OperandCalls(e);
    if !(e.ArrayLit? && |e.items| > MAX_ARRAY_ITEMS) {
      ArgsKeep(c, allowed, e, Operands(e), st);
      var args := EvalArgs(c, e, Operands(e), st);
      if args.res.Ok? {
        ApplyValid(c.m, e, args.res.value);
      }
    }
  }

  lemma {:induction false} BoundKeeps(c: Context, allowed: set<string>, whole: Expr, bound: Option<Expr>, default: nat, st: State)
    requires Starts(c, allowed, st) && (bound.Some? ==> bound.value < whole && ExprCalls(bound.value) <= allowed)
    ensures var r := EvalBound(c, whole, bound, default, st);
      Kept(c, allowed, st, r.st) && (SealFreeFunctions(c.funcs) ==> r.st.sealed == st.sealed)
    decreases MAX_FUNCTION_DEPTH - st.depth, whole, 0
  {
    if bound.Some? {
      ExprKeeps(c, allowed, bound.value, st);
    }
  }

  lemma {:induction false} SliceKeeps(c: Context, allowed: set<string>, e: Expr, st: State)
    requires Starts(c, allowed, st) && ExprCalls(e) <= allowed && e.Slice?
    ensures KeptExpr(c, allowed, st, EvalSlice(c, e, st))
    decreases MAX_FUNCTION_DEPTH - st.depth, e, 1
  {
    hide EvalExpr, EvalBound, Trusted, FunctionsCall, SealFreeFunctions;
    ExprKeeps(c, allowed, e.base, st);
    var base := EvalExpr(c, e.base, st);
    if base.res.Ok? && base.res.value.Array? {
      BoundKeeps(c, allowed, e, e.start, 0, base.st);
      var start := EvalBound(c, e, e.start, 0, base.st);
      if start.res.Ok? {
        BoundKeeps(c, allowed, e, e.stop, |base.res.value.items|, start.st);
        var stop := EvalBound(c, e, e.stop, |base.res.value.items|, start.st);
        if stop.res.Ok? && start.res.value <= stop.res.value <= |base.res.value.items| {
          SliceValid(base.res.value.items, start.res.value, stop.res.value);
        }
      }
    }
  }

  lemma {:induction false} CallKeeps(c: Context, allowed: set<string>, e: Expr, st: State)
    requires Starts(c, allowed, st) && ExprCalls(e) <= allowed && e.Call?
    ensures KeptExpr(c, allowed, st, EvalCall(c, e, st))
    decreases MAX_FUNCTION_DEPTH - st.depth, e, |e.args| + 1
  {
    var noted := st.(called := st.called + {e.name});
    if CallAllowed(c, e.name, |e.args|, st.depth) {
      ArgsKeep(c, allowed, e, e.args, noted);
      var args := EvalArgs(c, e, e.args, noted);
      if args.res.Ok? {
        if e.name in c.funcs {
          FunctionKeeps(c, allowed, e, args.res.value, args.st);
        } else {
          BuiltinKeeps(c, allowed, e.name, args.res.value, args.st);
        }
      }
    }
  }

  lemma {:induction false} FunctionKeeps(c: Context, allowed: set<string>, e: Expr, vs: seq<Value>, st: State)
    requires Starts(c, allowed, st) && e.Call? && e.name in c.funcs && AllValid(vs)
    requires |vs| == |c.funcs[e.name].params| && st.depth < MAX_FUNCTION_DEPTH
    ensures KeptExpr(c, allowed, st, RunFunction(c, e, vs, st))
    decreases MAX_FUNCTION_DEPTH - st.depth, e, 0
  {
    var f := c.funcs[e.name];
    var entry := st.(env := Bind(f.params, vs), depth := st.depth + 1);
    BlockKeeps(c, allowed, f.body, entry);
  }

  // ---- statements -------------------------------------------------------------------------

  lemma {:induction false} BlockKeeps(c: Context, allowed: set<string>, ss: seq<Stmt>, st: State)
    requires Starts(c, allowed, st) && StmtsCalls(ss) <= allowed
    ensures KeptBlock(c, allowed, Assigned(ss), SealFree(ss), st, ExecBlock(c, ss, st))
    decreases MAX_FUNCTION_DEPTH - st.depth, ss
  {
    if |ss| > 0 {
      StmtKeeps(c, allowed, ss[0], st);
      var first := ExecStmt(c, ss[0], st);
      if first.res.Ok? && first.res.value.Normal? {
        BlockKeeps(c, allowed, ss[1..], first.st);
      }
    }
  }

  lemma {:induction false} StmtKeeps(c: Context, allowed: set<string>, s: Stmt, st: State)
    requires Starts(c, allowed, st) && StmtCalls(s) <= allowed
    ensures KeptBlock(c, allowed, AssignedBy(s), SealFreeStmt(s), st, ExecStmt(c, s, st))
    decreases MAX_FUNCTION_DEPTH - st.depth, s
  {
    hide KeptExpr, KeptBlock, Starts, EvalExpr, AssignedBy, SealFreeStmt, StmtCalls, ExecFor, ExecForEach, RunWhile, RunIf, ExecSwitch, ExecSimple;
    assert Within(c, st) by {
      StartsWithin(c, allowed, st);
    }
    match s
    case For(_, _, _, _, _) => ForKeeps(c, allowed, s, st);
    case ForEach(_, _, _) => ForEachKeeps(c, allowed, s, st);
    case While(_, _) => WhileKeeps(c, allowed, s, st);
    case If(_, _) => IfKeeps(c, allowed, s, 0, st);
    case Switch(_, _, _) => SwitchKeeps(c, allowed, s, st);
    case _ => SimpleKeeps(c, allowed, s, st);
  }

  lemma {:induction false} ForEachKeeps(c: Context, allowed: set<string>, s: Stmt, st: State)
    requires Starts(c, allowed, st) && StmtCalls(s) <= allowed && s.ForEach?
    ensures KeptBlock(c, allowed, AssignedBy(s), SealFreeStmt(s), st, ExecForEach(c, s, st))
    decreases MAX_FUNCTION_DEPTH - st.depth, s, c.budget + 1
  {
    hide KeptBlock, EvalExpr, RunItems, AssignedBy, SealFreeStmt, Trusted, FunctionsCall;
    ExprKeeps(c, allowed, s.iterable, st);
    var v := EvalExpr(c, s.iterable, st);
    ExprStops(c, allowed, AssignedBy(s), SealFreeStmt(s), st, v, Err);
    if v.res.Ok? && v.res.value.Array? {
      ItemsAreValid(v.res.value.items);
      ItemsKeep(c, allowed, s, v.res.value.items, v.st);
      ExprThen(c, allowed, AssignedBy(s), SealFreeStmt(s), st, v, RunItems(c, s, v.res.value.items, v.st));
    }
  }

  lemma {:induction false} SwitchKeeps(c: Context, allowed: set<string>, s: Stmt, st: State)
    requires Starts(c, allowed, st) && StmtCalls(s) <= allowed && s.Switch?
    ensures KeptBlock(c, allowed, AssignedBy(s), SealFreeStmt(s), st, ExecSwitch(c, s, st))
    decreases MAX_FUNCTION_DEPTH - st.depth, s, |s.arms| + 2
  {
    hide KeptBlock, EvalExpr, RunCases, AssignedBy, SealFreeStmt, Trusted, FunctionsCall;
    ExprKeeps(c, allowed, s.selector, st);
    var v := EvalExpr(c, s.selector, st);
    ExprStops(c, allowed, AssignedBy(s), SealFreeStmt(s), st, v, Err);
    if v.res.Ok? {
      CasesKeep(c, allowed, s, 0, v.res.value, v.st);
      ExprThen(c, allowed, AssignedBy(s), SealFreeStmt(s), st, v, RunCases(c, s, 0, v.res.value, v.st));
    }
  }

  lemma {:induction false} SimpleKeeps(c: Context, allowed: set<string>, s: Stmt, st: State)
    requires Starts(c, allowed, st) && StmtCalls(s) <= allowed && IsSimple(s)
    ensures KeptBlock(c, allowed, AssignedBy(s), SealFreeStmt(s), st, ExecSimple(c, s, st))
    decreases MAX_FUNCTION_DEPTH - st.depth, s, 1
  {
    hide EvalExpr, ExecAssign, ExecIndexAssign, FunctionsCall, SealFreeFunctions, CallBuiltin;
    match s
    case Return(e) => ExprKeeps(c, allowed, e, st);
    case Assign(_, _) => AssignKeeps(c, allowed, s, st);
    case IndexAssign(_, _, _) => IndexAssignKeeps(c, allowed, s, st);
    case Expression(_) => ExpressionKeeps(c, allowed, s, st);
    case Seal(name) => LeafValid(c, st, Name(name, c.m.constantId(name)));
    case _ =>
  }

  lemma {:induction false} AssignKeeps(c: Context, allowed: set<string>, s: Stmt, st: State)
    requires Starts(c, allowed, st) && StmtCalls(s) <= allowed && s.Assign?
    ensures KeptBlock(c, allowed, {s.name}, true, st, ExecAssign(c, s, st))
    decreases MAX_FUNCTION_DEPTH - st.depth, s, 0
  {
    hide EvalExpr, FunctionsCall, SealFreeFunctions, Writable;
    ExprKeeps(c, allowed, s.expr, st);
  }

  lemma {:induction false} ExpressionKeeps(c: Context, allowed: set<string>, s: Stmt, st: State)
    requires Starts(c, allowed, st) && StmtCalls(s) <= allowed && s.Expression?
    ensures KeptBlock(c, allowed, {}, true, st, ExecSimple(c, s, st))
    decreases MAX_FUNCTION_DEPTH - st.depth, s, 0
  {
    hide EvalExpr, FunctionsCall, SealFreeFunctions, CallBuiltin;
    ExprKeeps(c, allowed, s.expr, st);
    if IsPrintCall(s.expr) && s.expr.name !in c.funcs {
      PrintCounts(c, allowed, s.expr, st);
    }
  }

  /** A statement's own print call leaves the count of expression-position prints where its
      arguments left it. */
  lemma PrintCounts(c: Context, allowed: set<string>, e: Expr, st: State)
    requires Starts(c, allowed, st) && ExprCalls(e) <= allowed && IsPrintCall(e) && e.name !in c.funcs
    ensures EvalExpr(c, e, st).res.Ok? ==> EvalExpr(c, e, st).st.exprPrints > st.exprPrints
    decreases MAX_FUNCTION_DEPTH - st.depth, e
  {
    var noted := st.(called := st.called + {e.name});
    if CallAllowed(c, e.name, |e.args|, st.depth) {
      ArgsKeep(c, allowed, e, e.args, noted);
    }
  }

  lemma {:induction false} IndexAssignKeeps(c: Context, allowed: set<string>, s: Stmt, st: State)
    requires Starts(c, allowed, st) && StmtCalls(s) <= allowed && s.IndexAssign?
    ensures KeptBlock(c, allowed, {}, true, st, ExecIndexAssign(c, s, st))
    decreases MAX_FUNCTION_DEPTH - st.depth, s, 0
  {
    hide EvalExpr, StoreItem, ArrayIndex, Trusted, FunctionsCall, SealFreeFunctions;
    ExprKeeps(c, allowed, s.index, st);
    var index := EvalExpr(c, s.index, st);
    if index.res.Ok? && ArrayIndex(index.res.value).Ok? {
      ExprKeeps(c, allowed, s.expr, index.st);
      var v := EvalExpr(c, s.expr, index.st);
      if v.res.Ok? && StoreItem(v.st.env, s.name, ArrayIndex(index.res.value).value, v.res.value).Ok? {
        StoreValid(v.st.env, s.name, ArrayIndex(index.res.value).value, v.res.value);
      }
    }
  }

  lemma ItemsAreValid(items: seq<Value>)
    requires Valid(Array(items))
    ensures AllValid(items)
  {
    forall i | 0 <= i < |items|
      ensures Valid(items[i])
    {
      FlatItems(items, i);
    }
  }

  lemma {:induction false} ForKeeps(c: Context, allowed: set<string>, s: Stmt, st: State)
    requires Starts(c, allowed, st) && StmtCalls(s) <= allowed && s.For?
    ensures KeptBlock(c, allowed, AssignedBy(s), SealFreeStmt(s), st, ExecFor(c, s, st))
    decreases MAX_FUNCTION_DEPTH - st.depth, s, c.budget + 1
  {
    hide EvalExpr, RunRange, Trusted, FunctionsCall, SealFreeFunctions;
    ExprKeeps(c, allowed, s.start, st);
    var start := EvalInteger(c, s, s.start, st);
    if start.res.Ok? {
      ExprKeeps(c, allowed, s.stop, start.st);
      var stop := EvalInteger(c, s, s.stop, start.st);
      if stop.res.Ok? {
        ExprKeeps(c, allowed, s.step, stop.st);
        var step := EvalInteger(c, s, s.step, stop.st);
        if step.res.Ok? && step.res.value != 0 {
          RangeKeeps(c, allowed, s, start.res.value, stop.res.value, step.res.value, step.st);
        }
      }
    }
  }

  lemma {:induction false} RangeKeeps(c: Context, allowed: set<string>, s: Stmt, index: int, stop: int, step: int, st: State)
    requires Starts(c, allowed, st) && StmtCalls(s) <= allowed && s.For?
    ensures KeptBlock(c, allowed, AssignedBy(s), SealFreeStmt(s), st, RunRange(c, s, index, stop, step, st))
    decreases MAX_FUNCTION_DEPTH - st.depth, s, c.budget - st.loops
  {
    hide ExecBlock, Trusted, FunctionsCall, SealFreeFunctions;
    if RangeContinues(index, stop, step) {
      var tick := Tick(c, st);
      if tick.res.Ok? {
        var entry := tick.st.(env := st.env[s.variable := Scalar(index as real)]);
        BlockKeeps(c, allowed, s.body, entry);
        var body := ExecBlock(c, s.body, entry);
        if body.res.Ok? && !body.res.value.Returned? && !body.res.value.Broke? {
          RangeKeeps(c, allowed, s, index + step, stop, step, body.st);
        }
      }
    }
  }

  /** A round of the direct loop starts as it should. */
  lemma ItemStarts(c: Context, allowed: set<string>, s: Stmt, items: seq<Value>, st: State)
    requires Starts(c, allowed, st) && StmtCalls(s) <= allowed && s.ForEach? && AllValid(items)
    requires |items| > 0 && Tick(c, st).res.Ok?
    ensures Starts(c, allowed, Tick(c, st).st.(env := st.env[s.variable := items[0]]))
    ensures StmtsCalls(s.body) <= allowed && AllValid(items[1..])
  {
    hide Trusted, FunctionsCall, Valid;
  }

  lemma {:induction false} ItemsKeep(c: Context, allowed: set<string>, s: Stmt, items: seq<Value>, st: State)
    requires Starts(c, allowed, st) && StmtCalls(s) <= allowed && s.ForEach? && AllValid(items)
    ensures KeptBlock(c, allowed, AssignedBy(s), SealFreeStmt(s), st, RunItems(c, s, items, st))
    decreases MAX_FUNCTION_DEPTH - st.depth, s, c.budget - st.loops
  {
    hide ExecBlock, Trusted, FunctionsCall, SealFreeFunctions, StmtCalls, Valid, AllValid;
    if |items| > 0 {
      var tick := Tick(c, st);
      if tick.res.Ok? {
        var entry := tick.st.(env := st.env[s.variable := items[0]]);
        ItemStarts(c, allowed, s, items, st);
        BlockKeeps(c, allowed, s.body, entry);
        var body := ExecBlock(c, s.body, entry);
        if body.res.Ok? && !body.res.value.Returned? && !body.res.value.Broke? {
          ItemsKeep(c, allowed, s, items[1..], body.st);
        }
      }
    }
  }

  lemma {:induction false} WhileKeeps(c: Context, allowed: set<string>, s: Stmt, st: State)
    requires Starts(c, allowed, st) && StmtCalls(s) <= allowed && s.While?
    ensures KeptBlock(c, allowed, AssignedBy(s), SealFreeStmt(s), st, RunWhile(c, s, st))
    decreases MAX_FUNCTION_DEPTH - st.depth, s, c.budget - st.loops
  {
    hide EvalExpr, ExecBlock, Trusted, FunctionsCall, SealFreeFunctions;
    ExprKeeps(c, allowed, s.condition, st);
    var test := EvalExpr(c, s.condition, st);
    if test.res.Ok? && test.res.value == Bool(true) {
      var tick := Tick(c, test.st);
      if tick.res.Ok? {
        BlockKeeps(c, allowed, s.body, tick.st);
        var body := ExecBlock(c, s.body, tick.st);
        if body.res.Ok? && !body.res.value.Returned? && !body.res.value.Broke? {
          WhileKeeps(c, allowed, s, body.st);
        }
      }
    }
  }

  lemma {:induction false} TailKeeps(c: Context, allowed: set<string>, s: Stmt, st: State)
    requires Starts(c, allowed, st) && StmtCalls(s) <= allowed && (s.If? || s.Switch?)
    ensures KeptBlock(c, allowed, AssignedBy(s), SealFreeStmt(s), st, RunOtherwise(c, s, st))
    decreases MAX_FUNCTION_DEPTH - st.depth, s, 0
  {
    if s.otherwise.Tail? {
      BlockKeeps(c, allowed, s.otherwise.body, st);
    }
  }

  lemma {:induction false} ArmKeeps(c: Context, allowed: set<string>, s: Stmt, k: nat, st: State)
    requires Starts(c, allowed, st) && StmtCalls(s) <= allowed && (s.If? || s.Switch?) && k < |s.arms|
    ensures KeptBlock(c, allowed, AssignedBy(s), SealFreeStmt(s), st, ExecBlock(c, s.arms[k].body, st))
    decreases MAX_FUNCTION_DEPTH - st.depth, s, 0
  {
    ArmCalls(s.arms, k);
    ArmAssigned(s.arms, k);
    BlockKeeps(c, allowed, s.arms[k].body, st);
    if SealFreeStmt(s) {
      SealFreeArm(s.arms, k);
    }
  }

  lemma {:induction false} IfKeeps(c: Context, allowed: set<string>, s: Stmt, k: nat, st: State)
    requires Starts(c, allowed, st) && StmtCalls(s) <= allowed && s.If? && k <= |s.arms|
    ensures KeptBlock(c, allowed, AssignedBy(s), SealFreeStmt(s), st, RunIf(c, s, k, st))
    decreases MAX_FUNCTION_DEPTH - st.depth, s, |s.arms| - k + 1
  {
    hide EvalExpr, ExecBlock, Trusted, FunctionsCall, SealFreeFunctions;
    if k == |s.arms| {
      TailKeeps(c, allowed, s, st);
    } else {
      ArmCalls(s.arms, k);
      ExprKeeps(c, allowed, s.arms[k].test, st);
      var test := EvalExpr(c, s.arms[k].test, st);
      if test.res.Ok? && test.res.value.Bool? {
        if test.res.value.b {
          ArmKeeps(c, allowed, s, k, test.st);
        } else {
          IfKeeps(c, allowed, s, k + 1, test.st);
        }
      }
    }
  }

  lemma {:induction false} CasesKeep(c: Context, allowed: set<string>, s: Stmt, k: nat, selected: Value, st: State)
    requires Starts(c, allowed, st) && StmtCalls(s) <= allowed && s.Switch? && k <= |s.arms|
    ensures KeptBlock(c, allowed, AssignedBy(s), SealFreeStmt(s), st, RunCases(c, s, k, selected, st))
    decreases MAX_FUNCTION_DEPTH - st.depth, s, |s.arms| - k + 1
  {
    hide KeptExpr, KeptBlock, Starts, EvalExpr, ExecBlock, CompareValues, AssignedBy, SealFreeStmt;
    assert Within(c, st) by {
      StartsWithin(c, allowed, st);
    }
    if k == |s.arms| {
      TailKeeps(c, allowed, s, st);
    } else {
      ArmCalls(s.arms, k);
      ExprKeeps(c, allowed, s.arms[k].test, st);
      var candidate := EvalExpr(c, s.arms[k].test, st);
      ExprStops(c, allowed, AssignedBy(s), SealFreeStmt(s), st, candidate, Err);
      if candidate.res.Ok? {
        Onward(c, allowed, st, candidate);
        var hit := CompareValues("==", selected, candidate.res.value);
        if hit.Ok? {
          if hit.value {
            ArmKeeps(c, allowed, s, k, candidate.st);
          } else {
            CasesKeep(c, allowed, s, k + 1, selected, candidate.st);
          }
          ExprThen(c, allowed, AssignedBy(s), SealFreeStmt(s), st, candidate, RunCases(c, s, k, selected, st));
        }
      }
    }
  }
}
