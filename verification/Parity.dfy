/** Whole programs: the generated code and the interpreter end alike, and exactly when they do. */
module Parity {
  import opened Prelude
  import opened Ast
  import opened Values
  import opened Interpreter
  import opened Native
  import opened Codegen
  import I = Interpreter
  import opened Scans
  import opened RunInvariants
  import opened Agreement
  import opened PrintPlacement
  import opened Compilation

  /** What parsing and `validate_execution` guarantee of a whole program, without data calls, inline
      Rust and the GO_PRIVATE profile. */
  predicate ProgramSupported(m: Machine, p: Program) {
    && DistinctFunctions(p)
    && StmtsSupported(m, p, false, false)
    && forall i | 0 <= i < |p| && p[i].Function? ::
         && StmtsSupported(m, p[i].body, false, true)
         && !CoreName(p[i].name) && m.library(p[i].name).Absent?
  }

  /** Generation keeps the table of user functions. */
  lemma {:induction false} FunctionsMatch(m: Machine, p: Program)
    requires GenFunctions(m, p).Some?
    requires forall i | 0 <= i < |p| && p[i].Function? ::
         && StmtsSupported(m, p[i].body, false, true)
         && !CoreName(p[i].name) && m.library(p[i].name).Absent?
    ensures SameFunctions(m, Functions(p), GenFunctions(m, p).value)
    ensures SealFreeFunctions(Functions(p))
  {
    hide StmtsSupported, GenStmts, SealFree;
    if |p| > 0 {
      forall i | 0 <= i < |p[1..]| && p[1..][i].Function?
        ensures StmtsSupported(m, p[1..][i].body, false, true)
        ensures !CoreName(p[1..][i].name) && m.library(p[1..][i].name).Absent?
      {
        assert p[1..][i] == p[i + 1];
      }
      FunctionsMatch(m, p[1..]);
      if p[0].Function? {
        FunctionsDoNotSeal(m, p[0].body, false);
      }
    }
  }

  /** Top-level statements never leave a loop or a function, so running them one by one, as
      `eval_program` does, is running them as a block. */
  lemma {:induction false} TopIsBlock(c: Context, ss: seq<Stmt>, st: State)
    requires Within(c, st) && StmtsSupported(c.m, ss, false, false)
    ensures var top, block := RunTop(c, ss, st), ExecBlock(c, ss, st);
      && top.st == block.st && top.res.Ok? == block.res.Ok?
      && (block.res.Ok? ==> block.res == Ok(Normal))
    decreases |ss|
  {
    hide ExecStmt, StmtSupported;
    if |ss| > 0 {
      DisciplineStmt(c, ss[0], false, false, st);
      var first := ExecStmt(c, ss[0], st);
      if first.res.Ok? {
        TopIsBlock(c, ss[1..], first.st);
      }
    }
  }

  /** Supported programs do not ask for the private profile. */
  lemma {:induction false} NotPrivate(m: Machine, ss: seq<Stmt>)
    requires StmtsSupported(m, ss, false, false)
    ensures Directive("GO_PRIVATE") !in ss
  {
    if |ss| > 0 {
      NotPrivate(m, ss[1..]);
      assert StmtSupported(m, ss[0], false, false);
    }
  }

  /** The start of both engines. */
  lemma StartsLinked(m: Machine, p: Program, w: World)
    requires Trusted(m) && Coherent(m) && ProgramSupported(m, p) && Generate(m, p).Some?
    ensures Linked(ContextOf(m, p), Generate(m, p).value, InitialState(w), NState(map[], [], map[], {}, 0, w))
    ensures !ContextOf(m, p).secret
  {
    hide Trusted, Coherent, SealFreeFunctions, SameFunctions, StmtsSupported, GenStmts;
    FunctionsMatch(m, p);
    NotPrivate(m, p);
  }

  /** The interpreter run, with the final-state capture that ends a COMPLETELY_MAD run: refused above
      256 recorded names, else every recorded name is sealed under its `final:` key. */
  function RunAndCapture(m: Machine, p: Program, w: World): Option<State>
    requires Trusted(m)
  {
    var r := Run(m, p, w);
    if r.res.Err? || |r.st.names| > MAX_FINAL_NAMES then None
    else if !ContextOf(m, p).mad then Some(r.st)
    else
      assert r.st.names <= r.st.env.Keys by {
        RecordedNamesBound(m, p, w);
      }
      Some(r.st.(sealed := r.st.sealed + FinalBindings(r.st.names, r.st.env)))
  }

  lemma {:induction false} TopKeeps(c: Context, allowed: set<string>, ss: seq<Stmt>, st: State)
    requires Starts(c, allowed, st) && StmtsCalls(ss) <= allowed
    ensures var r := RunTop(c, ss, st);
      && Kept(c, allowed, st, r.st) && st.env.Keys <= r.st.env.Keys && r.st.names <= st.names + Assigned(ss)
      && (SealFreeFunctions(c.funcs) && SealFree(ss) ==> r.st.sealed == st.sealed)
    decreases |ss|
  {
    hide ExecStmt, StmtCalls, AssignedBy;
    if |ss| > 0 {
      StmtKeeps(c, allowed, ss[0], st);
      var first := ExecStmt(c, ss[0], st);
      if first.res.Ok? {
        TopKeeps(c, allowed, ss[1..], first.st);
      }
    }
  }

  /** Every recorded name is assigned somewhere outside a function, and is bound at the end. */
  lemma RecordedNamesBound(m: Machine, p: Program, w: World)
    requires Trusted(m)
    ensures var st := Run(m, p, w).st; st.names <= st.env.Keys && st.names <= Assigned(p)
    ensures ValidEnv(Run(m, p, w).st.env) && ValidEnv(Run(m, p, w).st.sealed)
    ensures Run(m, p, w).st.called <= StmtsCalls(p)
    ensures Run(m, p, w).st.loops <= BudgetOf(p)
  {
    ProgramFunctionCalls(p);
    TopKeeps(ContextOf(m, p), StmtsCalls(p), p, InitialState(w));
  }

  /** Whatever a program did, an array it leaves bound holds no array, and all its elements share a type. */
  lemma ArraysStayFlat(m: Machine, p: Program, w: World, x: string, i: nat)
    requires Trusted(m) && x in Run(m, p, w).st.env
    requires Run(m, p, w).st.env[x].Array? && i < |Run(m, p, w).st.env[x].items|
    ensures var items := Run(m, p, w).st.env[x].items; !items[i].Array? && SameArrayType(items[0], items[i])
  {
    hide Run, Trusted, SameArrayType;
    RecordedNamesBound(m, p, w);
    FlatItems(Run(m, p, w).st.env[x].items, i);
  }

  /** A machine with text and exact addition, no constants and no libraries. */
  function SmallMachine(): Machine {
    Machine(
      (op: char, a: Quantity, b: Quantity) =>
        if op == '+' && a.dim == b.dim then Some(Quantity(a.si + b.si, a.dim)) else None,
      (a: Quantity) => Some(Quantity(-a.si, a.dim)),
      (a: string, b: string) => Some(a + b),
      (s: string) => |s|,
      (s: string) => [Lit(s)],
      (q: Quantity) => "number",
      (q: Quantity, spec: string) => None,
      (s: string, vs: seq<Value>) => None,
      (u: string) => false,
      (x: real, u: string) => None,
      (name: string) => None,
      (id: string) => None,
      (name: string) => Absent,
      (name: string) => false,
      (name: string) => false,
      (name: string, n: nat) => false,
      (name: string, vs: seq<Value>, w: World) => None,
      (prompt: string, w: World) => if |w.answers| == 0 then None else Some((w.answers[0], World(w.answers[1..], w.rest))),
      [])
  }

  /** The engine theorems are about something: there are machines they apply to. */
  lemma MachinesExist()
    ensures Trusted(SmallMachine()) && Coherent(SmallMachine())
  {
    hide CoreName;
  }

  /** Engine parity, exactly: the generated program never gets stuck; it succeeds precisely when the
      interpreter and its final-state capture succeed without a print in expression position; and
      then variables, printed lines, sealed and captured values, loop steps and the outside world
      are the same. */
  lemma EnginesAgree(m: Machine, p: Program, w: World)
    requires Trusted(m) && Coherent(m) && ProgramSupported(m, p) && Compiles(m, p)
    ensures Generate(m, p).Some?
    ensures
      var i := RunAndCapture(m, p, w);
      var n := RunNative(Generate(m, p).value, w);
      if i.Some? && i.value.exprPrints == 0 then
        && n.res == NOk(())
        && n.st.env == i.value.env && n.st.out == i.value.out && n.st.sealed == i.value.sealed
        && n.st.loops == i.value.loops && n.st.names == i.value.names && n.st.world == i.value.world
      else n.res.NErr?
  {
    hide Ready, Good, ExecN, ExecBlock, StmtsSupported, GenStmts, GenFunctions, RunTop, Trusted, Coherent, FinalBindings, Compiles;
    CompilesExactly(m, p);
    var c, g := ContextOf(m, p), Generate(m, p).value;
    var st, ns := InitialState(w), NState(map[], [], map[], {}, 0, w);
    StartsLinked(m, p, w);
    AgreeBlock(c, g, p, false, false, [], st, ns);
    TopIsBlock(c, p, st);
    RecordedNamesBound(m, p, w);
  }

  /** Engine parity for programs whose print calls are statements: success in one engine is success
      in the other, failure in one is failure in the other. */
  lemma EnginesAgreeInPlace(m: Machine, p: Program, w: World)
    requires Trusted(m) && Coherent(m) && ProgramSupported(m, p) && PrintsInPlace(p) && Compiles(m, p)
    ensures Generate(m, p).Some?
    ensures
      var i := RunAndCapture(m, p, w);
      var n := RunNative(Generate(m, p).value, w);
      && (n.res == NOk(()) <==> i.Some?)
      && (n.res.NErr? <==> i.None?)
      && (i.Some? ==>
            && n.st.env == i.value.env && n.st.out == i.value.out && n.st.sealed == i.value.sealed
            && n.st.loops == i.value.loops && n.st.world == i.value.world)
  {
    hide RunNative, Run, Trusted, Coherent, ProgramSupported, PrintsInPlace, Generate, Compiles;
    EnginesAgree(m, p, w);
    NoStrayPrints(m, p, w);
    CaptureKeepsPrints(m, p, w);
  }

  lemma CaptureKeepsPrints(m: Machine, p: Program, w: World)
    requires Trusted(m)
    ensures RunAndCapture(m, p, w).Some? ==> RunAndCapture(m, p, w).value.exprPrints == Run(m, p, w).st.exprPrints
  {
  }

  /** The 256-name limit, checked by the emitted code at each recording and by the interpreter once
      at the end, refuses the same runs: those of an otherwise successful interpretation that
      recorded more than 256 names. */
  lemma NameLimitsAgree(m: Machine, p: Program, w: World)
    requires Trusted(m) && Coherent(m) && ProgramSupported(m, p) && PrintsInPlace(p) && Compiles(m, p)
    requires Run(m, p, w).res.Ok?
    ensures Generate(m, p).Some?
    ensures RunNative(Generate(m, p).value, w).res.NErr? <==> |Run(m, p, w).st.names| > MAX_FINAL_NAMES
  {
    hide RunNative, Run, Trusted, Coherent, ProgramSupported, PrintsInPlace, Generate, Compiles;
    EnginesAgreeInPlace(m, p, w);
  }

  /** `print(true)` as an expression. */
  function StrayPrint(): Expr {
    Call("print", [BoolLit(true)])
  }

  lemma AssignCompiles(m: Machine, name: string, e: Expr, track: bool)
    requires GenExpr(m, e).Some?
    ensures GenStmt(m, Assign(name, e), track).Some?
  {
    hide GenExpr;
  }

  lemma StrayPrintCompiles(m: Machine, name: string)
    requires Coherent(m) && Writable(m, name)
    ensures var p := [Assign(name, StrayPrint())]; ProgramSupported(m, p) && Generate(m, p).Some?
  {
    var e, s := StrayPrint(), Assign(name, StrayPrint());
    var p := [s];
    assert CoreName("print");
    SingleShape(m, BoolLit(true));
    assert ExprsSupported(m, [BoolLit(true)][1..]) && ExprSupported(m, e);
    assert GenExpr(m, e).Some?;
    assert p[1..] == [];
    var track := I.Declares(p, "COMPLETELY_MAD");
    AssignCompiles(m, name, e, track);
    assert GenStmts(m, p[1..], track) == Some([]);
    assert GenStmts(m, p, track) == Then(GenStmt(m, s, track), Some([]));
    assert GenFunctions(m, p[1..]) == Some(map[]);
    assert GenFunctions(m, p) == Some(map[]);
  }

  /** The interpreter prints, counts the print and binds the name. */
  lemma StrayPrintRuns(c: Context, name: string, w: World)
    requires Coherent(c.m) && Writable(c.m, name) && c.funcs == map[] && !c.secret && !c.mad
    ensures var r := RunTop(c, [Assign(name, StrayPrint())], InitialState(w));
      r.res.Ok? && r.st.exprPrints == 1 && r.st.names == {}
  {
    var e, st := StrayPrint(), InitialState(w);
    var noted := st.(called := st.called + {"print"});
    assert CoreName("print");
    assert EvalExpr(c, BoolLit(true), noted) == Out(noted, Ok(Bool(true)));
    assert [BoolLit(true)][1..] == [];
    assert EvalArgs(c, e, [], noted) == Out(noted, Ok([]));
    assert [Bool(true)] + [] == [Bool(true)];
    assert EvalArgs(c, e, e.args, noted) == Out(noted, Ok([Bool(true)]));
    assert EvalExpr(c, e, st) == EvalCall(c, e, st) == CallBuiltin(c, "print", [Bool(true)], noted);
    var p := [Assign(name, e)];
    var first := ExecStmt(c, p[0], st);
    assert first == ExecSimple(c, p[0], st) == ExecAssign(c, p[0], st);
    assert p[1..] == [];
    assert RunTop(c, p[1..], first.st) == Out(first.st, Ok(()));
  }

  /** Without the placement rule parity fails: `name = print(true)` is interpreted and prints, but
      compiles to a call of an unknown function. */
  lemma StrayPrintSplitsEngines(m: Machine, name: string, w: World)
    requires Trusted(m) && Coherent(m) && Writable(m, name)
    ensures var p := [Assign(name, StrayPrint())];
      && ProgramSupported(m, p) && Generate(m, p).Some?
      && RunAndCapture(m, p, w).Some?
      && RunNative(Generate(m, p).value, w).res.NErr?
  {
    hide RunNative, RunTop, Trusted, Generate, Coherent, Compiles;
    var p := [Assign(name, StrayPrint())];
    StrayPrintCompiles(m, name);
    CompilesExactly(m, p);
    var c := ContextOf(m, p);
    assert Functions(p[1..]) == map[];
    assert forall s | s in p :: s == p[0] && s.Assign?;
    StrayPrintRuns(c, name, w);
    EnginesAgree(m, p, w);
  }

  /** A branch that never runs, holding a call with a wrong argument count. */
  function DeadBranch(): Program {
    [If([Arm(BoolLit(false), [Expression(Call("argv", []))])], NoTail)]
  }

  /** When a supported program has code at all: exactly when the scan accepts its text. Arity is checked for
      every call at compile time but only for calls that are reached at run time, so a supported program
      can be interpreted and have no code. */
  lemma DeadCodeIsRefused(m: Machine, w: World)
    requires Coherent(m)
    ensures forall p :: ProgramSupported(m, p) ==> (Generate(m, p).Some? <==> Compiles(m, p))
    ensures ProgramSupported(m, DeadBranch()) && Run(m, DeadBranch(), w).res.Ok?
    ensures !Compiles(m, DeadBranch()) && Generate(m, DeadBranch()).None?
  {
    hide StmtsSupported, RunTop, GenStmts, Compiles, Generate, ProgramSupported;
    forall p
      ensures Generate(m, p).Some? <==> Compiles(m, p)
    {
      CompilesExactly(m, p);
    }
    DeadBranchIsSupported(m);
    DeadBranchRuns(ContextOf(m, DeadBranch()), InitialState(w));
    DeadBranchHasNoCode(m);
  }

  lemma DeadBranchIsSupported(m: Machine)
    requires Coherent(m)
    ensures ProgramSupported(m, DeadBranch())
  {
    var s := DeadBranch()[0];
    assert CoreName("argv");
    assert DeadBranch()[1..] == [] && s.arms[1..] == [] && s.arms[0].body[1..] == [];
    assert StmtSupported(m, Expression(Call("argv", [])), false, false);
    assert StmtsSupported(m, s.arms[0].body, false, false);
  }

  lemma DeadBranchRuns(c: Context, st: State)
    requires Within(c, st)
    ensures RunTop(c, DeadBranch(), st).res.Ok?
  {
    var p := DeadBranch();
    var s := p[0];
    assert p[1..] == [] && s.arms[1..] == [];
    assert ExecStmt(c, s, st) == RunIf(c, s, 0, st);
    assert EvalExpr(c, BoolLit(false), st) == Out(st, Ok(Bool(false)));
    assert RunIf(c, s, 1, st) == Out(st, Ok(Normal));
    assert RunIf(c, s, 0, st) == Out(st, Ok(Normal));
    assert RunTop(c, p[1..], st) == Out(st, Ok(()));
  }

  lemma DeadBranchHasNoCode(m: Machine)
    requires Coherent(m)
    ensures !Compiles(m, DeadBranch())
  {
    var s := DeadBranch()[0];
    assert CoreName("argv");
    assert !ExprCompiles(m, Call("argv", []));
    assert !StmtCompiles(m, s.arms[0].body[0]);
    assert !StmtsCompile(m, s.arms[0].body);
    assert !ArmsCompile(m, s.arms);
    assert !StmtCompiles(m, s);
  }
}
