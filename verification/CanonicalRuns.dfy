/** Programs that share their canonical form and spell their print calls alike run alike in the interpreter.
    Erasing what the form forgets besides that spelling, the alias of a constant and the index of an inline
    block, is shown to change no step of any run, one lemma for each function of the interpreter; and the
    spelling of `print` against `printf`, which the form forgets too, is shown to tell in runs. */
module CanonicalRuns {
  import opened Prelude
  import opened Ast
  import opened Values
  import opened Interpreter
  import opened Scans
  import opened CanonicalProgram
  import opened CanonicalSpelling

  function EraseFuncs(funcs: map<string, Func>): map<string, Func> {
    map name | name in funcs :: Func(funcs[name].params, Erase(AsWritten, funcs[name].body))
  }

  /** The same run setting with every function body reduced to what its canonical form keeps. */
  function Erased(c: Context): Context {
    c.(funcs := EraseFuncs(c.funcs))
  }

  // ---- expressions ------------------------------------------------------------------------

  lemma {:induction false} ErasedParts(es: seq<Expr>, k: nat)
    requires k < |es|
    ensures EraseExprs(AsWritten, es)[k] == EraseExpr(AsWritten, es[k])
  {
    if k > 0 {
      ErasedParts(es[1..], k - 1);
    }
  }

  lemma {:induction false} ErasedOperands(e: Expr)
    requires IsStrict(e)
    ensures IsStrict(EraseExpr(AsWritten, e)) && Operands(EraseExpr(AsWritten, e)) == EraseExprs(AsWritten, Operands(e))
    ensures EraseExpr(AsWritten, e).ArrayLit? ==> e.ArrayLit? && |EraseExpr(AsWritten, e).items| == |e.items|
  {
    assert forall a: Expr, b: Expr :: EraseExprs(AsWritten, [a, b]) == [EraseExpr(AsWritten, a), EraseExpr(AsWritten, b)] by {
      forall a: Expr, b: Expr
        ensures EraseExprs(AsWritten, [a, b]) == [EraseExpr(AsWritten, a), EraseExpr(AsWritten, b)]
      {
        assert [a, b][1..] == [b];
        assert EraseExprs(AsWritten, [b]) == [EraseExpr(AsWritten, b)];
      }
    }
    assert forall a: Expr :: EraseExprs(AsWritten, [a]) == [EraseExpr(AsWritten, a)];
  }

  lemma ErasedApply(m: Machine, e: Expr, vs: seq<Value>)
    requires IsStrict(e) && |vs| == |Operands(e)|
    ensures IsStrict(EraseExpr(AsWritten, e)) && |Operands(EraseExpr(AsWritten, e))| == |vs|
    ensures Apply(m, EraseExpr(AsWritten, e), vs) == Apply(m, e, vs)
  {
    ErasedOperands(e);
  }

  lemma {:induction false} ExprSame(c: Context, e: Expr, st: State)
    requires Within(c, st)
    ensures EvalExpr(Erased(c), EraseExpr(AsWritten, e), st) == EvalExpr(c, e, st)
    decreases MAX_FUNCTION_DEPTH - st.depth, e
  {
    hide EraseFuncs, EvalStrict, EvalSlice, EvalLogical, EvalCall, Snapshot;
    if IsLeaf(e) {
    } else if IsStrict(e) {
      StrictSame(c, e, st);
      ErasedOperands(e);
    } else if e.Slice? {
      SliceSame(c, e, st);
    } else if e.Logical? {
      LogicalSame(c, e, st);
    } else {
      CallSame(c, e, st);
    }
  }

  lemma PartsSplit(es: seq<Expr>, whole: Expr)
    requires |es| > 0 && forall a | a in es :: a < whole
    ensures es[0] < whole && forall a | a in es[1..] :: a < whole
  {
    assert es[0] in es;
    assert forall a | a in es[1..] :: a in es;
  }

  lemma ArgsUnfold(c: Context, whole: Expr, args: seq<Expr>, st: State)
    requires Within(c, st) && |args| > 0 && forall a | a in args :: a < whole
    ensures args[0] < whole && forall a | a in args[1..] :: a < whole
    ensures var first := EvalExpr(c, args[0], st);
      EvalArgs(c, whole, args, st) ==
        if first.res.Err? then Out(first.st, Err)
        else
          var rest := EvalArgs(c, whole, args[1..], first.st);
          if rest.res.Err? then Out(rest.st, Err) else Out(rest.st, Ok([first.res.value] + rest.res.value))
  {
    hide EvalExpr;
    PartsSplit(args, whole);
  }

  lemma {:induction false} ArgsSame(c: Context, whole: Expr, nwhole: Expr, args: seq<Expr>, st: State)
    requires Within(c, st)
    requires (forall a | a in args :: a < whole) && (forall a | a in EraseExprs(AsWritten, args) :: a < nwhole)
    ensures EvalArgs(Erased(c), nwhole, EraseExprs(AsWritten, args), st) == EvalArgs(c, whole, args, st)
    decreases MAX_FUNCTION_DEPTH - st.depth, whole, |args|
  {
    hide EraseFuncs, EvalExpr, EraseExpr, EvalArgs;
    var nargs := EraseExprs(AsWritten, args);
    if |args| == 0 {
      NoArguments(c, whole, st);
      NoArguments(Erased(c), nwhole, st);
    } else {
      ArgsUnfold(c, whole, args, st);
      ArgsUnfold(Erased(c), nwhole, nargs, st);
      assert nargs[0] == EraseExpr(AsWritten, args[0]) && nargs[1..] == EraseExprs(AsWritten, args[1..]);
      ExprSame(c, args[0], st);
      var first := EvalExpr(c, args[0], st);
      if first.res.Ok? {
        ArgsSame(c, whole, nwhole, args[1..], first.st);
      }
    }
  }

  lemma NoArguments(c: Context, whole: Expr, st: State)
    requires Within(c, st)
    ensures EvalArgs(c, whole, [], st) == Out(st, Ok([]))
  {
  }

  lemma {:induction false} StrictSame(c: Context, e: Expr, st: State)
    requires Within(c, st) && IsStrict(e)
    ensures IsStrict(EraseExpr(AsWritten, e)) && EvalStrict(Erased(c), EraseExpr(AsWritten, e), st) == EvalStrict(c, e, st)
    decreases MAX_FUNCTION_DEPTH - st.depth, e, |Operands(e)| + 1
  {
    hide EraseFuncs, EvalArgs, Apply, EraseExprs;
    ErasedOperands(e);
    ArgsSame(c, e, EraseExpr(AsWritten, e), Operands(e), st);
    var args := EvalArgs(c, e, Operands(e), st);
    if args.res.Ok? {
      ErasedApply(c.m, e, args.res.value);
    }
  }

  lemma {:induction false} BoundSame(c: Context, whole: Expr, nwhole: Expr, bound: Option<Expr>, default: nat, st: State)
    requires Within(c, st)
    requires bound.Some? ==> bound.value < whole && EraseExpr(AsWritten, bound.value) < nwhole
    ensures var nbound := if bound.Some? then Some(EraseExpr(AsWritten, bound.value)) else None;
      EvalBound(Erased(c), nwhole, nbound, default, st) == EvalBound(c, whole, bound, default, st)
    decreases MAX_FUNCTION_DEPTH - st.depth, whole, 0
  {
    hide EraseFuncs, EvalExpr, EraseExpr, ArrayIndex;
    if bound.Some? {
      ExprSame(c, bound.value, st);
    }
  }

  lemma {:induction false} SliceSame(c: Context, e: Expr, st: State)
    requires Within(c, st) && e.Slice?
    ensures EvalSlice(Erased(c), EraseExpr(AsWritten, e), st) == EvalSlice(c, e, st)
    decreases MAX_FUNCTION_DEPTH - st.depth, e, 1
  {
    hide EraseFuncs, EvalExpr, EvalBound;
    var n := EraseExpr(AsWritten, e);
    ExprSame(c, e.base, st);
    var base := EvalExpr(c, e.base, st);
    if base.res.Ok? && base.res.value.Array? {
      BoundSame(c, e, n, e.start, 0, base.st);
      var start := EvalBound(c, e, e.start, 0, base.st);
      if start.res.Ok? {
        BoundSame(c, e, n, e.stop, |base.res.value.items|, start.st);
      }
    }
  }

  lemma {:induction false} LogicalSame(c: Context, e: Expr, st: State)
    requires Within(c, st) && e.Logical?
    ensures EvalLogical(Erased(c), EraseExpr(AsWritten, e), st) == EvalLogical(c, e, st)
    decreases MAX_FUNCTION_DEPTH - st.depth, e, 1
  {
    hide EraseFuncs, EvalExpr;
    ExprSame(c, e.left, st);
    ExprSame(c, e.right, EvalExpr(c, e.left, st).st);
  }

  lemma BuiltinSame(c: Context, name: string, vs: seq<Value>, st: State)
    requires ArityOk(c.m, name, |vs|)
    ensures CallBuiltin(Erased(c), name, vs, st) == CallBuiltin(c, name, vs, st)
  {
  }

  lemma {:induction false} CallSame(c: Context, e: Expr, st: State)
    requires Within(c, st) && e.Call?
    ensures EvalCall(Erased(c), EraseExpr(AsWritten, e), st) == EvalCall(c, e, st)
    decreases MAX_FUNCTION_DEPTH - st.depth, e, |e.args| + 1
  {
    hide EvalArgs, CallBuiltin, RunFunction, ArityOk;
    var n := EraseExpr(AsWritten, e);
    assert n == Call(e.name, EraseExprs(AsWritten, e.args));
    var noted := st.(called := st.called + {e.name});
    ArgsSame(c, e, n, e.args, noted);
    var args := EvalArgs(c, e, e.args, noted);
    if CallAllowed(c, e.name, |e.args|, st.depth) && args.res.Ok? {
      if e.name in c.funcs {
        FunctionSame(c, e, args.res.value, args.st);
      } else {
        BuiltinSame(c, e.name, args.res.value, args.st);
      }
    }
  }

  lemma {:induction false} FunctionSame(c: Context, e: Expr, vs: seq<Value>, st: State)
    requires Within(c, st) && e.Call? && e.name in c.funcs
    requires |vs| == |c.funcs[e.name].params| && st.depth < MAX_FUNCTION_DEPTH
    ensures EraseExpr(AsWritten, e).Call? && EraseExpr(AsWritten, e).name == e.name
    ensures RunFunction(Erased(c), EraseExpr(AsWritten, e), vs, st) == RunFunction(c, e, vs, st)
    decreases MAX_FUNCTION_DEPTH - st.depth, e, 0
  {
    hide ExecBlock, Erase, Bind;
    var f := c.funcs[e.name];
    BlockSame(c, f.body, st.(env := Bind(f.params, vs), depth := st.depth + 1));
  }

  // ---- statements -------------------------------------------------------------------------

  lemma {:induction false} BlockSame(c: Context, ss: seq<Stmt>, st: State)
    requires Within(c, st)
    ensures ExecBlock(Erased(c), Erase(AsWritten, ss), st) == ExecBlock(c, ss, st)
    decreases MAX_FUNCTION_DEPTH - st.depth, ss
  {
    hide EraseFuncs, ExecStmt, EraseStmt;
    if |ss| > 0 {
      assert Erase(AsWritten, ss)[1..] == Erase(AsWritten, ss[1..]);
      StmtSame(c, ss[0], st);
      var first := ExecStmt(c, ss[0], st);
      if first.res.Ok? && first.res.value.Normal? {
        BlockSame(c, ss[1..], first.st);
      }
    }
  }

  lemma {:induction false} StmtSame(c: Context, s: Stmt, st: State)
    requires Within(c, st)
    ensures ExecStmt(Erased(c), EraseStmt(AsWritten, s), st) == ExecStmt(c, s, st)
    decreases MAX_FUNCTION_DEPTH - st.depth, s
  {
    hide EraseFuncs, EvalExpr, EraseExpr, ExecFor, RunItems, RunWhile, RunIf, RunCases, ExecSimple, Erase, EraseArms, EraseTail;
    match s
    case For(_, _, _, _, _) => ForSame(c, s, st);
    case ForEach(_, _, _) =>
      ExprSame(c, s.iterable, st);
      var v := EvalExpr(c, s.iterable, st);
      if v.res.Ok? && v.res.value.Array? {
        ItemsSame(c, s, v.res.value.items, v.st);
      }
    case While(_, _) => WhileSame(c, s, st);
    case If(_, _) => IfSame(c, s, 0, st);
    case Switch(_, _, _) =>
      ExprSame(c, s.selector, st);
      var v := EvalExpr(c, s.selector, st);
      if v.res.Ok? {
        CasesSame(c, s, 0, v.res.value, v.st);
      }
    case _ => SimpleSame(c, s, st);
  }

  lemma {:induction false} SimpleSame(c: Context, s: Stmt, st: State)
    requires Within(c, st) && IsSimple(s)
    ensures ExecSimple(Erased(c), EraseStmt(AsWritten, s), st) == ExecSimple(c, s, st)
    decreases MAX_FUNCTION_DEPTH - st.depth, s, 1
  {
    hide EvalExpr, StoreItem, ArrayIndex, LookupName;
    match s
    case Return(e) => ExprSame(c, e, st);
    case Assign(_, e) => ExprSame(c, e, st);
    case IndexAssign(_, i, e) =>
      ExprSame(c, i, st);
      ExprSame(c, e, EvalExpr(c, i, st).st);
    case Expression(e) => ExprSame(c, e, st);
    case _ =>
  }

  lemma {:induction false} ForSame(c: Context, s: Stmt, st: State)
    requires Within(c, st) && s.For?
    ensures ExecFor(Erased(c), EraseStmt(AsWritten, s), st) == ExecFor(c, s, st)
    decreases MAX_FUNCTION_DEPTH - st.depth, s, c.budget + 1
  {
    hide EraseFuncs, EvalExpr, EraseExpr, RunRange, Erase, LoopInteger;
    ExprSame(c, s.start, st);
    var start := EvalInteger(c, s, s.start, st);
    ExprSame(c, s.stop, start.st);
    var stop := EvalInteger(c, s, s.stop, start.st);
    ExprSame(c, s.step, stop.st);
    var step := EvalInteger(c, s, s.step, stop.st);
    if start.res.Ok? && stop.res.Ok? && step.res.Ok? && step.res.value != 0 {
      RangeSame(c, s, start.res.value, stop.res.value, step.res.value, step.st);
    }
  }

  lemma {:induction false} RangeSame(c: Context, s: Stmt, index: int, stop: int, step: int, st: State)
    requires Within(c, st) && s.For?
    ensures RunRange(Erased(c), EraseStmt(AsWritten, s), index, stop, step, st) == RunRange(c, s, index, stop, step, st)
    decreases MAX_FUNCTION_DEPTH - st.depth, s, c.budget - st.loops
  {
    hide EraseFuncs, ExecBlock, EraseExpr, Erase;
    if RangeContinues(index, stop, step) {
      var tick := Tick(c, st);
      if tick.res.Ok? {
        var entry := tick.st.(env := st.env[s.variable := Scalar(index as real)]);
        BlockSame(c, s.body, entry);
        var body := ExecBlock(c, s.body, entry);
        if body.res.Ok? && !body.res.value.Returned? && !body.res.value.Broke? {
          RangeSame(c, s, index + step, stop, step, body.st);
        }
      }
    }
  }

  lemma {:induction false} ItemsSame(c: Context, s: Stmt, items: seq<Value>, st: State)
    requires Within(c, st) && s.ForEach?
    ensures RunItems(Erased(c), EraseStmt(AsWritten, s), items, st) == RunItems(c, s, items, st)
    decreases MAX_FUNCTION_DEPTH - st.depth, s, c.budget - st.loops
  {
    hide EraseFuncs, ExecBlock, EraseExpr, Erase;
    if |items| > 0 {
      var tick := Tick(c, st);
      if tick.res.Ok? {
        var entry := tick.st.(env := st.env[s.variable := items[0]]);
        BlockSame(c, s.body, entry);
        var body := ExecBlock(c, s.body, entry);
        if body.res.Ok? && !body.res.value.Returned? && !body.res.value.Broke? {
          ItemsSame(c, s, items[1..], body.st);
        }
      }
    }
  }

  lemma {:induction false} WhileSame(c: Context, s: Stmt, st: State)
    requires Within(c, st) && s.While?
    ensures RunWhile(Erased(c), EraseStmt(AsWritten, s), st) == RunWhile(c, s, st)
    decreases MAX_FUNCTION_DEPTH - st.depth, s, c.budget - st.loops
  {
    hide EraseFuncs, ExecBlock, EvalExpr, EraseExpr, Erase;
    ExprSame(c, s.condition, st);
    var test := EvalExpr(c, s.condition, st);
    if test.res.Ok? && test.res.value == Bool(true) {
      var tick := Tick(c, test.st);
      if tick.res.Ok? {
        BlockSame(c, s.body, tick.st);
        var body := ExecBlock(c, s.body, tick.st);
        if body.res.Ok? && !body.res.value.Returned? && !body.res.value.Broke? {
          WhileSame(c, s, body.st);
        }
      }
    }
  }

  lemma {:induction false} ErasedArm(arms: seq<Arm>, k: nat)
    requires k < |arms|
    ensures EraseArms(AsWritten, arms)[k] == Arm(EraseExpr(AsWritten, arms[k].test), Erase(AsWritten, arms[k].body))
  {
    if k > 0 {
      ErasedArm(arms[1..], k - 1);
    }
  }

  lemma {:induction false} TailSame(c: Context, s: Stmt, st: State)
    requires Within(c, st) && (s.If? || s.Switch?)
    ensures RunOtherwise(Erased(c), EraseStmt(AsWritten, s), st) == RunOtherwise(c, s, st)
    decreases MAX_FUNCTION_DEPTH - st.depth, s, 0
  {
    hide EraseFuncs, ExecBlock, EraseExpr, Erase;
    if s.otherwise.Tail? {
      BlockSame(c, s.otherwise.body, st);
    }
  }

  lemma {:induction false} IfSame(c: Context, s: Stmt, k: nat, st: State)
    requires Within(c, st) && s.If? && k <= |s.arms|
    ensures RunIf(Erased(c), EraseStmt(AsWritten, s), k, st) == RunIf(c, s, k, st)
    decreases MAX_FUNCTION_DEPTH - st.depth, s, |s.arms| - k + 1
  {
    hide EraseFuncs, ExecBlock, EvalExpr, EraseExpr, Erase, RunOtherwise, EraseArms, EraseTail;
    if k == |s.arms| {
      TailSame(c, s, st);
    } else {
      ErasedArm(s.arms, k);
      ExprSame(c, s.arms[k].test, st);
      var test := EvalExpr(c, s.arms[k].test, st);
      if test.res.Ok? && test.res.value.Bool? {
        BlockSame(c, s.arms[k].body, test.st);
        IfSame(c, s, k + 1, test.st);
      }
    }
  }

  lemma {:induction false} CasesSame(c: Context, s: Stmt, k: nat, selected: Value, st: State)
    requires Within(c, st) && s.Switch? && k <= |s.arms|
    ensures RunCases(Erased(c), EraseStmt(AsWritten, s), k, selected, st) == RunCases(c, s, k, selected, st)
    decreases MAX_FUNCTION_DEPTH - st.depth, s, |s.arms| - k + 1
  {
    hide EraseFuncs, ExecBlock, EvalExpr, EraseExpr, Erase, RunOtherwise, EraseArms, EraseTail, CompareValues;
    if k == |s.arms| {
      TailSame(c, s, st);
    } else {
      ErasedArm(s.arms, k);
      ExprSame(c, s.arms[k].test, st);
      var candidate := EvalExpr(c, s.arms[k].test, st);
      if candidate.res.Ok? {
        BlockSame(c, s.arms[k].body, candidate.st);
        CasesSame(c, s, k + 1, selected, candidate.st);
      }
    }
  }

  // ---- programs ---------------------------------------------------------------------------

  lemma {:induction false} TopSame(c: Context, ss: seq<Stmt>, st: State)
    requires Within(c, st)
    ensures RunTop(Erased(c), Erase(AsWritten, ss), st) == RunTop(c, ss, st)
    decreases |ss|
  {
    hide EraseFuncs, ExecStmt, EraseStmt;
    if |ss| > 0 {
      assert Erase(AsWritten, ss)[1..] == Erase(AsWritten, ss[1..]);
      StmtSame(c, ss[0], st);
      var first := ExecStmt(c, ss[0], st);
      if first.res.Ok? {
        TopSame(c, ss[1..], first.st);
      }
    }
  }

  lemma {:induction false} ErasedAt(ss: seq<Stmt>, k: nat)
    requires k < |ss|
    ensures Erase(AsWritten, ss)[k] == EraseStmt(AsWritten, ss[k])
  {
    if k > 0 {
      ErasedAt(ss[1..], k - 1);
    }
  }

  /** Erasing keeps the budget of a program. */
  lemma {:induction false} ErasedBudget(p: Program)
    ensures RequestedBudget(Erase(AsWritten, p)) == RequestedBudget(p)
  {
    if |p| > 0 {
      ErasedBudget(p[1..]);
      assert Erase(AsWritten, p)[1..] == Erase(AsWritten, p[1..]) && Erase(AsWritten, p)[0] == EraseStmt(AsWritten, p[0]);
    }
  }

  lemma NoFunctions()
    ensures EraseFuncs(map[]) == map[]
  {
  }

  lemma ErasedUpdate(funcs: map<string, Func>, name: string, f: Func)
    ensures EraseFuncs(funcs[name := f]) == EraseFuncs(funcs)[name := Func(f.params, Erase(AsWritten, f.body))]
  {
    hide Erase;
  }

  /** Erasing keeps the table of functions, erased. */
  lemma {:induction false} ErasedFunctions(p: Program)
    ensures Functions(Erase(AsWritten, p)) == EraseFuncs(Functions(p))
  {
    hide EraseFuncs;
    NoFunctions();
    if |p| > 0 {
      ErasedFunctions(p[1..]);
      assert Erase(AsWritten, p)[1..] == Erase(AsWritten, p[1..]) && Erase(AsWritten, p)[0] == EraseStmt(AsWritten, p[0]);
      if p[0].Function? {
        ErasedUpdate(Functions(p[1..]), p[0].name, Func(p[0].params, p[0].body));
      }
    }
  }

  lemma ErasedDirective(p: Program, word: string)
    ensures Directive(word) in Erase(AsWritten, p) <==> Directive(word) in p
  {
    forall k | 0 <= k < |p|
      ensures Erase(AsWritten, p)[k] == Directive(word) <==> p[k] == Directive(word)
    {
      ErasedAt(p, k);
    }
    if Directive(word) in p {
      var k :| 0 <= k < |p| && p[k] == Directive(word);
      assert Erase(AsWritten, p)[k] == Directive(word);
    }
  }

  lemma ErasedDistinct(p: Program)
    ensures DistinctFunctions(Erase(AsWritten, p)) <==> DistinctFunctions(p)
  {
    forall k | 0 <= k < |p|
      ensures Erase(AsWritten, p)[k].Function? == p[k].Function? && (p[k].Function? ==> Erase(AsWritten, p)[k].name == p[k].name)
    {
      ErasedAt(p, k);
    }
  }

  /** Neither the alias of a constant nor the index of an inline block ever tells in a run. */
  lemma ErasedRunsAlike(m: Machine, p: Program, w: World)
    ensures Run(m, Erase(AsWritten, p), w) == Run(m, p, w)
  {
    hide RunTop, Erase, Functions, EraseFuncs;
    ErasedBudget(p);
    ErasedFunctions(p);
    ErasedDirective(p, "COMPLETELY_MAD");
    ErasedDirective(p, "GO_PRIVATE");
    ErasedDistinct(p);
    assert ContextOf(m, Erase(AsWritten, p)) == Erased(ContextOf(m, p));
    TopSame(ContextOf(m, p), p, InitialState(w));
  }

  /** Equal canonical bytes mean equal runs: the same output, variables, seals, loop steps and result, for
      every two programs that spell each of their print calls alike. */
  lemma SameBytesSameRun(n: Numerals, m: Machine, p: Program, q: Program, w: World)
    requires Faithful(n) && CanonicalBytes(n, p) == CanonicalBytes(n, q) && Printfs(p) == Printfs(q)
    ensures Run(m, p, w) == Run(m, q, w)
  {
    hide Run, Erase, CanonicalBytes, Printfs;
    CanonicalBytesExact(n, p, q);
    assert Printfs(p) + [] == Printfs(q) + [];
    StmtsSpelled(p, q, [], []);
    ErasedRunsAlike(m, p, w);
    ErasedRunsAlike(m, q, w);
  }

  /** In particular any two programs that call no printf. */
  lemma SameBytesWithoutPrintf(n: Numerals, m: Machine, p: Program, q: Program, w: World)
    requires Faithful(n) && CanonicalBytes(n, p) == CanonicalBytes(n, q)
    requires "printf" !in StmtsCalls(p) && "printf" !in StmtsCalls(q)
    ensures Run(m, p, w) == Run(m, q, w)
  {
    hide Run, Erase, CanonicalBytes, StmtsCalls;
    CanonicalBytesExact(n, p, q);
    StmtsWithoutPrintf(p);
    StmtsWithoutPrintf(q);
    ErasedRunsAlike(m, p, w);
    ErasedRunsAlike(m, q, w);
  }

  function Bare(name: string): Program {
    [Expression(Call(name, []))]
  }

  /** Why the spelling matters: the canonical form writes printf as print, and `printf()` refuses where
      `print()` prints an empty line. */
  lemma PrintfIsForgotten(n: Numerals, m: Machine, w: World)
    requires !m.confidential("print")
    ensures CanonicalBytes(n, Bare("printf")) == CanonicalBytes(n, Bare("print"))
    ensures Run(m, Bare("printf"), w).res.Err? && Run(m, Bare("print"), w).res.Ok?
  {
    BareForm(n, "printf");
    BareForm(n, "print");
    BareRun(m, "printf", w);
    BareRun(m, "print", w);
  }

  lemma BareForm(n: Numerals, name: string)
    ensures Stmts(n, Bare(name)) == [Arr([Str("expr"), Arr([Str("call"), Str(CanonicalName(name)), Arr([])])])]
  {
    assert Bare(name)[1..] == [];
    assert Stmts(n, []) == [];
    assert OfExpr(n, Call(name, [])) == Arr([Str("call"), Str(CanonicalName(name)), Arr([])]);
  }

  lemma BareRun(m: Machine, name: string, w: World)
    requires name == "print" || name == "printf"
    requires name == "print" ==> !m.confidential(name)
    ensures Run(m, Bare(name), w).res.Ok? <==> name == "print"
  {
    var p, c, st := Bare(name), ContextOf(m, Bare(name)), InitialState(w);
    var e := Call(name, []);
    var noted := st.(called := st.called + {name});
    assert p[1..] == [] && Functions(p[1..]) == map[];
    assert !(Directive("GO_PRIVATE") in p);
    assert EvalArgs(c, e, e.args, noted) == Out(noted, Ok([]));
    assert EvalExpr(c, e, st) == EvalCall(c, e, st);
    var first := ExecStmt(c, p[0], st);
    assert first == ExecSimple(c, p[0], st);
    assert RunTop(c, p[1..], first.st) == Out(first.st, Ok(()));
  }
}
