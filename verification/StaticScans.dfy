/** The static scans that judge a program before it runs, in their own traversal order:
    `requires_data_runtime` of src/compiler.rs and `visit`/`validate` of src/confidential.rs. Each is
    proved exact against the program's call names, and sound for every run. */
module StaticScans {
  import opened Prelude
  import opened Ast
  import opened Values
  import opened Interpreter
  import opened Native
  import opened Codegen
  import opened Scans
  import opened RunInvariants
  import opened Agreement
  import opened Parity

  // ---- requires_data_runtime --------------------------------------------------------------

  predicate AnyExprs(es: seq<Expr>, hit: string -> bool)
    decreases es
  {
    |es| > 0 && (AnyExpr(es[0], hit) || AnyExprs(es[1..], hit))
  }

  predicate AnyExpr(e: Expr, hit: string -> bool)
    decreases e
  {
    match e
    case Call(name, args) => hit(name) || AnyExprs(args, hit)
    case Unary(_, a) => AnyExpr(a, hit)
    case ArrayLit(items) => AnyExprs(items, hit)
    case Index(a, i) => AnyExpr(a, hit) || AnyExpr(i, hit)
    case Slice(a, start, stop) =>
      AnyExpr(a, hit) || (start.Some? && AnyExpr(start.value, hit)) || (stop.Some? && AnyExpr(stop.value, hit))
    case Binary(_, l, r) => AnyExpr(l, hit) || AnyExpr(r, hit)
    case Compare(_, l, r) => AnyExpr(l, hit) || AnyExpr(r, hit)
    case Logical(_, l, r) => AnyExpr(l, hit) || AnyExpr(r, hit)
    case Not(a) => AnyExpr(a, hit)
    case _ => false
  }

  predicate AnyStmts(ss: seq<Stmt>, hit: string -> bool)
    decreases ss
  {
    |ss| > 0 && (AnyStmt(ss[0], hit) || AnyStmts(ss[1..], hit))
  }

  predicate AnyArms(arms: seq<Arm>, hit: string -> bool)
    decreases arms
  {
    |arms| > 0 && (AnyExpr(arms[0].test, hit) || AnyStmts(arms[0].body, hit) || AnyArms(arms[1..], hit))
  }

  predicate AnyStmt(s: Stmt, hit: string -> bool)
    decreases s
  {
    match s
    case Function(_, _, body) => AnyStmts(body, hit)
    case Return(e) => AnyExpr(e, hit)
    case Assign(_, e) => AnyExpr(e, hit)
    case Expression(e) => AnyExpr(e, hit)
    case IndexAssign(_, i, e) => AnyExpr(i, hit) || AnyExpr(e, hit)
    case For(_, a, b, d, body) => AnyExpr(a, hit) || AnyExpr(b, hit) || AnyExpr(d, hit) || AnyStmts(body, hit)
    case ForEach(_, e, body) => AnyExpr(e, hit) || AnyStmts(body, hit)
    case While(e, body) => AnyExpr(e, hit) || AnyStmts(body, hit)
    case If(arms, otherwise) => AnyArms(arms, hit) || (otherwise.Tail? && AnyStmts(otherwise.body, hit))
    case Switch(e, arms, otherwise) =>
      AnyExpr(e, hit) || AnyArms(arms, hit) || (otherwise.Tail? && AnyStmts(otherwise.body, hit))
    case _ => false
  }

  /** `requires_data_runtime`. */
  predicate RequiresData(m: Machine, p: Program) {
    Declares(p, "GO_PRIVATE") || AnyStmts(p, name => m.library(name).Data?)
  }

  lemma {:induction false} AnyExprsExact(es: seq<Expr>, hit: string -> bool)
    ensures AnyExprs(es, hit) <==> exists name :: name in ExprsCalls(es) && hit(name)
    decreases es
  {
    if |es| > 0 {
      AnyExprExact(es[0], hit);
      AnyExprsExact(es[1..], hit);
    }
  }

  lemma {:induction false} AnyExprExact(e: Expr, hit: string -> bool)
    ensures AnyExpr(e, hit) <==> exists name :: name in ExprCalls(e) && hit(name)
    decreases e
  {
    match e
    case Call(name, args) => AnyExprsExact(args, hit);
    case Unary(_, a) => AnyExprExact(a, hit);
    case ArrayLit(items) => AnyExprsExact(items, hit);
    case Index(a, i) =>
      AnyExprExact(a, hit);
      AnyExprExact(i, hit);
    case Slice(a, start, stop) =>
      AnyExprExact(a, hit);
      if start.Some? {
        AnyExprExact(start.value, hit);
      }
      if stop.Some? {
        AnyExprExact(stop.value, hit);
      }
    case Binary(_, l, r) =>
      AnyExprExact(l, hit);
      AnyExprExact(r, hit);
    case Compare(_, l, r) =>
      AnyExprExact(l, hit);
      AnyExprExact(r, hit);
    case Logical(_, l, r) =>
      AnyExprExact(l, hit);
      AnyExprExact(r, hit);
    case Not(a) => AnyExprExact(a, hit);
    case _ =>
  }

  /** The scan answers yes exactly when some call name in the text is a hit. */
  lemma {:induction false} AnyStmtsExact(ss: seq<Stmt>, hit: string -> bool)
    ensures AnyStmts(ss, hit) <==> exists name :: name in StmtsCalls(ss) && hit(name)
    decreases ss
  {
    if |ss| > 0 {
      AnyStmtExact(ss[0], hit);
      AnyStmtsExact(ss[1..], hit);
    }
  }

  lemma {:induction false} AnyArmsExact(arms: seq<Arm>, hit: string -> bool)
    ensures AnyArms(arms, hit) <==> exists name :: name in ArmsCalls(arms) && hit(name)
    decreases arms
  {
    if |arms| > 0 {
      AnyExprExact(arms[0].test, hit);
      AnyStmtsExact(arms[0].body, hit);
      AnyArmsExact(arms[1..], hit);
    }
  }

  lemma {:induction false} AnyStmtExact(s: Stmt, hit: string -> bool)
    ensures AnyStmt(s, hit) <==> exists name :: name in StmtCalls(s) && hit(name)
    decreases s
  {
    match s
    case Function(_, _, body) => AnyStmtsExact(body, hit);
    case Return(e) => AnyExprExact(e, hit);
    case Assign(_, e) => AnyExprExact(e, hit);
    case Expression(e) => AnyExprExact(e, hit);
    case IndexAssign(_, i, e) =>
      AnyExprExact(i, hit);
      AnyExprExact(e, hit);
    case For(_, a, b, d, body) =>
      AnyExprExact(a, hit);
      AnyExprExact(b, hit);
      AnyExprExact(d, hit);
      AnyStmtsExact(body, hit);
    case ForEach(_, e, body) =>
      AnyExprExact(e, hit);
      AnyStmtsExact(body, hit);
    case While(e, body) =>
      AnyExprExact(e, hit);
      AnyStmtsExact(body, hit);
    case If(arms, otherwise) =>
      AnyArmsExact(arms, hit);
      if otherwise.Tail? {
        AnyStmtsExact(otherwise.body, hit);
      }
    case Switch(e, arms, otherwise) =>
      AnyExprExact(e, hit);
      AnyArmsExact(arms, hit);
      if otherwise.Tail? {
        AnyStmtsExact(otherwise.body, hit);
      }
    case _ =>
  }

  /** A program that the scan clears never attempts a data call, in any run. */
  lemma DataScanCoversRuns(m: Machine, p: Program, w: World)
    requires Trusted(m) && !RequiresData(m, p)
    ensures forall name | name in Run(m, p, w).st.called :: !m.library(name).Data?
  {
    hide Trusted, Run, AnyStmts;
    AnyStmtsExact(p, name => m.library(name).Data?);
    RecordedNamesBound(m, p, w);
  }

  // ---- emitted data calls -----------------------------------------------------------------

  predicate DataFreeExprs(xs: seq<NExpr>)
    decreases xs
  {
    |xs| > 0 ==> DataFreeExpr(xs[0]) && DataFreeExprs(xs[1..])
  }

  /** Emitted code without `goblin_data_call`. */
  predicate DataFreeExpr(x: NExpr)
    decreases x
  {
    match x
    case NAnd(l, r) => DataFreeExpr(l) && DataFreeExpr(r)
    case NOr(l, r) => DataFreeExpr(l) && DataFreeExpr(r)
    case NSlice(a, start, stop) =>
      DataFreeExpr(a) && (start.Some? ==> DataFreeExpr(start.value)) && (stop.Some? ==> DataFreeExpr(stop.value))
    case NOp(_, args) => DataFreeExprs(args)
    case NLiteral(items) => DataFreeExprs(items)
    case NCall(_, args) => DataFreeExprs(args)
    case NData(_, _) => false
    case _ => true
  }

  predicate DataFree(code: seq<NStmt>)
    decreases code
  {
    forall i | 0 <= i < |code| :: DataFreeStmt(code[i])
  }

  predicate DataFreeStmt(s: NStmt)
    decreases s
  {
    match s
    case NLet(_, e) => DataFreeExpr(e)
    case NLetRange(_, e) => DataFreeExpr(e)
    case NArraySet(_, i, e) => DataFreeExpr(i) && DataFreeExpr(e)
    case NPrint(args) => DataFreeExprs(args)
    case NPrintf(args) => DataFreeExprs(args)
    case NDiscard(e) => DataFreeExpr(e)
    case NSeal(_, e) => DataFreeExpr(e)
    case NReturn(e) => DataFreeExpr(e)
    case NBreakUnless(e) => DataFreeExpr(e)
    case NIf(e, body, otherwise) => DataFreeExpr(e) && DataFree(body) && DataFree(otherwise)
    case NIfUnset(_, body) => DataFree(body)
    case NIfEqual(_, _, body) => DataFree(body)
    case NBlock(body) => DataFree(body)
    case NWhileRange(body) => DataFree(body)
    case NLoop(body) => DataFree(body)
    case NForIn(_, _, body) => DataFree(body)
    case _ => true
  }

  lemma DataFreeAppend(a: seq<NStmt>, b: seq<NStmt>)
    requires DataFree(a) && DataFree(b)
    ensures DataFree(a + b)
  {
    hide DataFreeStmt;
  }

  lemma {:induction false} ExprsEmitNoData(m: Machine, es: seq<Expr>)
    requires GenExprs(m, es).Some?
    ensures DataFreeExprs(GenExprs(m, es).value) <==> !AnyExprs(es, name => m.library(name).Data?)
    decreases es
  {
    if |es| > 0 {
      ExprEmitsNoData(m, es[0]);
      ExprsEmitNoData(m, es[1..]);
      var xs := GenExprs(m, es).value;
      assert xs[0] == GenExpr(m, es[0]).value && xs[1..] == GenExprs(m, es[1..]).value;
    }
  }

  /** An expression is emitted with a data call exactly when the scan finds one. */
  lemma {:induction false} ExprEmitsNoData(m: Machine, e: Expr)
    requires GenExpr(m, e).Some?
    ensures DataFreeExpr(GenExpr(m, e).value) <==> !AnyExpr(e, name => m.library(name).Data?)
    decreases e
  {
    match e
    case Call(name, args) =>
      ExprsEmitNoData(m, args);
      var xs := GenExprs(m, args).value;
      assert GenExpr(m, e) == GenCall(m, name, xs);
      assert !m.library(name).Data? ==> (GenCall(m, name, xs).value.NOp? || GenCall(m, name, xs).value.NCall?);
      if GenCall(m, name, xs).value.NOp? && GenCall(m, name, xs).value.args != xs {
        assert DataFreeExprs([NPlainText("")][1..]);
      }
    case Unary(_, a) =>
      ExprEmitsNoData(m, a);
      assert DataFreeExprs([GenExpr(m, a).value][1..]);
    case ArrayLit(items) => ExprsEmitNoData(m, items);
    case Index(a, i) =>
      ExprEmitsNoData(m, a);
      ExprEmitsNoData(m, i);
      DataFreePair(GenExpr(m, a).value, GenExpr(m, i).value);
    case Slice(a, start, stop) =>
      ExprEmitsNoData(m, a);
      if start.Some? {
        ExprEmitsNoData(m, start.value);
      }
      if stop.Some? {
        ExprEmitsNoData(m, stop.value);
      }
    case Binary(_, l, r) =>
      ExprEmitsNoData(m, l);
      ExprEmitsNoData(m, r);
      DataFreePair(GenExpr(m, l).value, GenExpr(m, r).value);
    case Compare(_, l, r) =>
      ExprEmitsNoData(m, l);
      ExprEmitsNoData(m, r);
      DataFreePair(GenExpr(m, l).value, GenExpr(m, r).value);
    case Logical(_, l, r) =>
      ExprEmitsNoData(m, l);
      ExprEmitsNoData(m, r);
    case Not(a) =>
      ExprEmitsNoData(m, a);
      assert DataFreeExprs([GenExpr(m, a).value][1..]);
    case _ =>
  }

  lemma DataFreePair(x: NExpr, y: NExpr)
    ensures DataFreeExprs([x, y]) <==> DataFreeExpr(x) && DataFreeExpr(y)
  {
    assert [x, y][1..] == [y];
    assert DataFreeExprs([y]) <==> DataFreeExpr(y);
  }

  lemma {:induction false} StmtsEmitNoData(m: Machine, ss: seq<Stmt>, track: bool)
    requires GenStmts(m, ss, track).Some? && !AnyStmts(ss, name => m.library(name).Data?)
    ensures DataFree(GenStmts(m, ss, track).value)
    decreases ss
  {
    hide GenStmt, AnyStmt;
    if |ss| > 0 {
      StmtEmitsNoData(m, ss[0], track);
      StmtsEmitNoData(m, ss[1..], track);
      DataFreeAppend(GenStmt(m, ss[0], track).value, GenStmts(m, ss[1..], track).value);
    }
  }

  lemma {:induction false} StmtEmitsNoData(m: Machine, s: Stmt, track: bool)
    requires GenStmt(m, s, track).Some? && !AnyStmt(s, name => m.library(name).Data?)
    ensures DataFree(GenStmt(m, s, track).value)
    decreases s
  {
    hide GenExpr, AnyExpr, GenStmts, AnyStmts;
    match s
    case Return(e) => ExprEmitsNoData(m, e);
    case Assign(name, e) =>
      ExprEmitsNoData(m, e);
      ShapeAssign(m, s, track);
    case IndexAssign(_, i, e) =>
      ExprEmitsNoData(m, i);
      ExprEmitsNoData(m, e);
    case Expression(e) =>
      if IsPrintCall(e) {
        assert AnyExpr(e, name => m.library(name).Data?) <== AnyExprs(e.args, name => m.library(name).Data?) by {
          PrintArgs(e, name => m.library(name).Data?);
        }
        ExprsEmitNoData(m, e.args);
      } else {
        ExprEmitsNoData(m, e);
      }
    case Seal(name) => SealEmitsNoData(m, name, track);
    case For(_, _, _, _, _) => ForEmitsNoData(m, s, track);
    case ForEach(_, _, _) => ForEachEmitsNoData(m, s, track);
    case While(_, _) => WhileEmitsNoData(m, s, track);
    case If(_, _) => IfEmitsNoData(m, s, 0, track);
    case Switch(e, _, _) =>
      ExprEmitsNoData(m, e);
      CasesEmitNoData(m, s, 0, track);
      ShapeSwitch(m, s, track);
      var cases := GenCases(m, s, 0, track).value;
      DataFreeAppend([NLetFlag("switch_matched", false)], cases);
      DataFreeAppend([NLet("switch_value", GenExpr(m, e).value)], [NLetFlag("switch_matched", false)] + cases);
    case _ =>
  }

  lemma {:induction false} ForEmitsNoData(m: Machine, s: Stmt, track: bool)
    requires s.For? && GenStmt(m, s, track).Some? && !AnyStmt(s, name => m.library(name).Data?)
    ensures DataFree(GenStmt(m, s, track).value)
    decreases s, 0
  {
    hide GenStmt, GenExpr, AnyExpr, GenStmts, AnyStmts;
    ShapeFor(m, s, track);
    ExprEmitsNoData(m, s.start);
    ExprEmitsNoData(m, s.stop);
    ExprEmitsNoData(m, s.step);
    StmtsEmitNoData(m, s.body, track);
    var code := GenStmts(m, s.body, track).value;
    DataFreeAppend([NTick, NInsertIndex(s.variable, "index"), NAdvance("index", "step")], code);
    var tail := [NRefuseZero("step"), NLetCopy("index", "start"),
                 NWhileRange([NTick, NInsertIndex(s.variable, "index"), NAdvance("index", "step")] + code)];
    DataFreeAppend([NLetRange("step", GenExpr(m, s.step).value)], tail);
    DataFreeAppend([NLetRange("stop", GenExpr(m, s.stop).value)], [NLetRange("step", GenExpr(m, s.step).value)] + tail);
    DataFreeAppend([NLetRange("start", GenExpr(m, s.start).value)],
                     [NLetRange("stop", GenExpr(m, s.stop).value)] + ([NLetRange("step", GenExpr(m, s.step).value)] + tail));
  }

  lemma {:induction false} ForEachEmitsNoData(m: Machine, s: Stmt, track: bool)
    requires s.ForEach? && GenStmt(m, s, track).Some? && !AnyStmt(s, name => m.library(name).Data?)
    ensures DataFree(GenStmt(m, s, track).value)
    decreases s, 0
  {
    hide GenStmt, GenExpr, AnyExpr, GenStmts, AnyStmts;
    ShapeForEach(m, s, track);
    ExprEmitsNoData(m, s.iterable);
    StmtsEmitNoData(m, s.body, track);
    var code := GenStmts(m, s.body, track).value;
    DataFreeAppend([NTick, NInsert(s.variable, "item")], code);
    var loop := NForIn("item", "items", [NTick, NInsert(s.variable, "item")] + code);
    DataFreeAppend([NLetItems("items", "iterable")], [loop]);
    DataFreeAppend([NLet("iterable", GenExpr(m, s.iterable).value)], [NLetItems("items", "iterable")] + [loop]);
  }

  lemma {:induction false} WhileEmitsNoData(m: Machine, s: Stmt, track: bool)
    requires s.While? && GenStmt(m, s, track).Some? && !AnyStmt(s, name => m.library(name).Data?)
    ensures DataFree(GenStmt(m, s, track).value)
    decreases s, 0
  {
    hide GenStmt, GenExpr, AnyExpr, GenStmts, AnyStmts;
    ShapeWhile(m, s, track);
    ExprEmitsNoData(m, s.condition);
    StmtsEmitNoData(m, s.body, track);
    var code := GenStmts(m, s.body, track).value;
    DataFreeAppend([NTick], code);
    DataFreeAppend([NBreakUnless(GenExpr(m, s.condition).value)], [NTick] + code);
  }

  lemma PrintArgs(e: Expr, hit: string -> bool)
    requires e.Call?
    ensures AnyExprs(e.args, hit) ==> AnyExpr(e, hit)
  {
  }

  lemma SealEmitsNoData(m: Machine, name: string, track: bool)
    requires GenStmt(m, Seal(name), track).Some?
    ensures DataFree(GenStmt(m, Seal(name), track).value)
  {
  }

  lemma {:induction false} CleanArm(arms: seq<Arm>, k: nat, hit: string -> bool)
    requires !AnyArms(arms, hit) && k < |arms|
    ensures !AnyExpr(arms[k].test, hit) && !AnyStmts(arms[k].body, hit)
  {
    if k > 0 {
      CleanArm(arms[1..], k - 1, hit);
    }
  }

  lemma {:induction false} IfEmitsNoData(m: Machine, s: Stmt, k: nat, track: bool)
    requires s.If? && k <= |s.arms| && GenIf(m, s, k, track).Some? && !AnyStmt(s, name => m.library(name).Data?)
    ensures DataFree(GenIf(m, s, k, track).value)
    decreases s, |s.arms| - k
  {
    hide GenExpr, AnyExpr, GenStmts, AnyStmts;
    if k == |s.arms| {
      if s.otherwise.Tail? {
        StmtsEmitNoData(m, s.otherwise.body, track);
      }
    } else {
      CleanArm(s.arms, k, name => m.library(name).Data?);
      ExprEmitsNoData(m, s.arms[k].test);
      StmtsEmitNoData(m, s.arms[k].body, track);
      IfEmitsNoData(m, s, k + 1, track);
    }
  }

  lemma {:induction false} CasesEmitNoData(m: Machine, s: Stmt, k: nat, track: bool)
    requires s.Switch? && k <= |s.arms| && GenCases(m, s, k, track).Some? && !AnyStmt(s, name => m.library(name).Data?)
    ensures DataFree(GenCases(m, s, k, track).value)
    decreases s, |s.arms| - k
  {
    hide GenExpr, AnyExpr, GenStmts, AnyStmts;
    if k == |s.arms| {
      if s.otherwise.Tail? {
        StmtsEmitNoData(m, s.otherwise.body, track);
      }
    } else {
      CleanArm(s.arms, k, name => m.library(name).Data?);
      ExprEmitsNoData(m, s.arms[k].test);
      StmtsEmitNoData(m, s.arms[k].body, track);
      CasesEmitNoData(m, s, k + 1, track);
      ArmEmitsNoData(GenExpr(m, s.arms[k].test).value, GenStmts(m, s.arms[k].body, track).value);
      DataFreeAppend([CaseArm(GenExpr(m, s.arms[k].test).value, GenStmts(m, s.arms[k].body, track).value)],
                     GenCases(m, s, k + 1, track).value);
    }
  }

  lemma ArmEmitsNoData(x: NExpr, code: seq<NStmt>)
    requires DataFreeExpr(x) && DataFree(code)
    ensures DataFree([CaseArm(x, code)])
  {
    DataFreeAppend([NSetFlag("switch_matched", true)], code);
    var inner := NIfEqual("switch_value", "case_value", [NSetFlag("switch_matched", true)] + code);
    assert DataFree([inner]);
    DataFreeAppend([NLet("case_value", x)], [inner]);
    assert [NLet("case_value", x)] + [inner] == [NLet("case_value", x), inner];
  }

  lemma {:induction false} FunctionsEmitNoData(m: Machine, p: Program)
    requires GenFunctions(m, p).Some? && !AnyStmts(p, name => m.library(name).Data?)
    ensures forall f | f in GenFunctions(m, p).value :: DataFree(GenFunctions(m, p).value[f].body)
  {
    hide GenStmts;
    if |p| > 0 {
      FunctionsEmitNoData(m, p[1..]);
      if p[0].Function? {
        StmtsEmitNoData(m, p[0].body, false);
      }
    }
  }

  /** A program that the scan clears is emitted without data calls, so it needs no data runtime. */
  lemma DataScanCoversCode(m: Machine, p: Program)
    requires Generate(m, p).Some? && !RequiresData(m, p)
    ensures DataFree(Generate(m, p).value.main)
    ensures forall f | f in Generate(m, p).value.funcs :: DataFree(Generate(m, p).value.funcs[f].body)
  {
    hide GenStmts, GenFunctions, AnyStmts;
    FunctionsEmitNoData(m, p);
    StmtsEmitNoData(m, p, Declares(p, "COMPLETELY_MAD"));
  }

  // ---- confidential programs --------------------------------------------------------------

  predicate VisitExprs(es: seq<Expr>, f: string -> bool)
    decreases es
  {
    |es| > 0 ==> VisitExpr(es[0], f) && VisitExprs(es[1..], f)
  }

  /** `visit` on expressions: false at the first refusal of `f`. */
  predicate VisitExpr(e: Expr, f: string -> bool)
    decreases e
  {
    match e
    case Call(name, args) => f(name) && VisitExprs(args, f)
    case ArrayLit(items) => VisitExprs(items, f)
    case Unary(_, a) => VisitExpr(a, f)
    case Not(a) => VisitExpr(a, f)
    case Binary(_, l, r) => VisitExpr(l, f) && VisitExpr(r, f)
    case Compare(_, l, r) => VisitExpr(l, f) && VisitExpr(r, f)
    case Logical(_, l, r) => VisitExpr(l, f) && VisitExpr(r, f)
    case Index(a, i) => VisitExpr(a, f) && VisitExpr(i, f)
    case Slice(a, start, stop) =>
      VisitExpr(a, f) && (start.Some? ==> VisitExpr(start.value, f)) && (stop.Some? ==> VisitExpr(stop.value, f))
    case _ => true
  }

  predicate VisitStmts(ss: seq<Stmt>, f: string -> bool, g: Stmt -> bool)
    decreases ss
  {
    |ss| > 0 ==> g(ss[0]) && VisitInside(ss[0], f, g) && VisitStmts(ss[1..], f, g)
  }

  predicate VisitArms(arms: seq<Arm>, f: string -> bool, g: Stmt -> bool)
    decreases arms
  {
    |arms| > 0 ==> VisitExpr(arms[0].test, f) && VisitStmts(arms[0].body, f, g) && VisitArms(arms[1..], f, g)
  }

  predicate VisitInside(s: Stmt, f: string -> bool, g: Stmt -> bool)
    decreases s
  {
    match s
    case Assign(_, e) => VisitExpr(e, f)
    case Expression(e) => VisitExpr(e, f)
    case Return(e) => VisitExpr(e, f)
    case IndexAssign(_, i, e) => VisitExpr(i, f) && VisitExpr(e, f)
    case Function(_, _, body) => VisitStmts(body, f, g)
    case For(_, a, b, d, body) => VisitExpr(a, f) && VisitExpr(b, f) && VisitExpr(d, f) && VisitStmts(body, f, g)
    case ForEach(_, e, body) => VisitExpr(e, f) && VisitStmts(body, f, g)
    case While(e, body) => VisitExpr(e, f) && VisitStmts(body, f, g)
    case If(arms, otherwise) => VisitArms(arms, f, g) && (otherwise.Tail? ==> VisitStmts(otherwise.body, f, g))
    case Switch(e, arms, otherwise) =>
      VisitExpr(e, f) && VisitArms(arms, f, g) && (otherwise.Tail? ==> VisitStmts(otherwise.body, f, g))
    case _ => true
  }

  /** What the statement callback of `validate` refuses in private programs. */
  predicate PrivateStmt(s: Stmt) {
    && !s.Seal? && !s.InlineRust? && !s.NumericAudit?
    && (s.Directive? ==> s.word == "GO_PRIVATE")
  }

  function CountPrivate(p: Program): nat {
    if |p| == 0 then 0 else (if p[0] == Directive("GO_PRIVATE") then 1 else 0) + CountPrivate(p[1..])
  }

  /** `validate` of src/confidential.rs. */
  predicate ConfidentialOk(m: Machine, p: Program) {
    var enabled := Declares(p, "GO_PRIVATE");
    && (enabled ==> |p| > 0 && p[0] == Directive("GO_PRIVATE") && CountPrivate(p) == 1)
    && VisitStmts(p,
         name => (m.confidential(name) ==> enabled) && (enabled && m.library(name).Data? ==> m.confidential(name)),
         s => enabled ==> PrivateStmt(s))
  }

  lemma {:induction false} VisitExprsExact(es: seq<Expr>, f: string -> bool)
    ensures VisitExprs(es, f) <==> forall name | name in ExprsCalls(es) :: f(name)
    decreases es
  {
    if |es| > 0 {
      VisitExprExact(es[0], f);
      VisitExprsExact(es[1..], f);
    }
  }

  lemma {:induction false} VisitExprExact(e: Expr, f: string -> bool)
    ensures VisitExpr(e, f) <==> forall name | name in ExprCalls(e) :: f(name)
    decreases e
  {
    match e
    case Call(name, args) => VisitExprsExact(args, f);
    case Unary(_, a) => VisitExprExact(a, f);
    case ArrayLit(items) => VisitExprsExact(items, f);
    case Index(a, i) =>
      VisitExprExact(a, f);
      VisitExprExact(i, f);
    case Slice(a, start, stop) =>
      VisitExprExact(a, f);
      if start.Some? {
        VisitExprExact(start.value, f);
      }
      if stop.Some? {
        VisitExprExact(stop.value, f);
      }
    case Binary(_, l, r) =>
      VisitExprExact(l, f);
      VisitExprExact(r, f);
    case Compare(_, l, r) =>
      VisitExprExact(l, f);
      VisitExprExact(r, f);
    case Logical(_, l, r) =>
      VisitExprExact(l, f);
      VisitExprExact(r, f);
    case Not(a) => VisitExprExact(a, f);
    case _ =>
  }

  /** Every statement of a block, nested ones included. */
  function Nested(ss: seq<Stmt>): set<Stmt>
    decreases ss
  {
    if |ss| == 0 then {} else {ss[0]} + Inside(ss[0]) + Nested(ss[1..])
  }

  function NestedArms(arms: seq<Arm>): set<Stmt>
    decreases arms
  {
    if |arms| == 0 then {} else Nested(arms[0].body) + NestedArms(arms[1..])
  }

  function Inside(s: Stmt): set<Stmt>
    decreases s
  {
    match s
    case Function(_, _, body) => Nested(body)
    case For(_, _, _, _, body) => Nested(body)
    case ForEach(_, _, body) => Nested(body)
    case While(_, body) => Nested(body)
    case If(arms, otherwise) => NestedArms(arms) + (if otherwise.Tail? then Nested(otherwise.body) else {})
    case Switch(_, arms, otherwise) => NestedArms(arms) + (if otherwise.Tail? then Nested(otherwise.body) else {})
    case _ => {}
  }

  /** The visitor accepts exactly when both callbacks accept everything there is to visit. */
  lemma {:induction false} VisitStmtsExact(ss: seq<Stmt>, f: string -> bool, g: Stmt -> bool)
    ensures VisitStmts(ss, f, g) <==>
              (forall name | name in StmtsCalls(ss) :: f(name)) && (forall s | s in Nested(ss) :: g(s))
    decreases ss
  {
    if |ss| > 0 {
      VisitInsideExact(ss[0], f, g);
      VisitStmtsExact(ss[1..], f, g);
    }
  }

  lemma {:induction false} VisitArmsExact(arms: seq<Arm>, f: string -> bool, g: Stmt -> bool)
    ensures VisitArms(arms, f, g) <==>
              (forall name | name in ArmsCalls(arms) :: f(name)) && (forall s | s in NestedArms(arms) :: g(s))
    decreases arms
  {
    if |arms| > 0 {
      VisitExprExact(arms[0].test, f);
      VisitStmtsExact(arms[0].body, f, g);
      VisitArmsExact(arms[1..], f, g);
    }
  }

  lemma {:induction false} VisitInsideExact(s: Stmt, f: string -> bool, g: Stmt -> bool)
    ensures VisitInside(s, f, g) <==>
              (forall name | name in StmtCalls(s) :: f(name)) && (forall t | t in Inside(s) :: g(t))
    decreases s
  {
    match s
    case Function(_, _, body) => VisitStmtsExact(body, f, g);
    case Return(e) => VisitExprExact(e, f);
    case Assign(_, e) => VisitExprExact(e, f);
    case Expression(e) => VisitExprExact(e, f);
    case IndexAssign(_, i, e) =>
      VisitExprExact(i, f);
      VisitExprExact(e, f);
    case For(_, a, b, d, body) =>
      VisitExprExact(a, f);
      VisitExprExact(b, f);
      VisitExprExact(d, f);
      VisitStmtsExact(body, f, g);
    case ForEach(_, e, body) =>
      VisitExprExact(e, f);
      VisitStmtsExact(body, f, g);
    case While(e, body) =>
      VisitExprExact(e, f);
      VisitStmtsExact(body, f, g);
    case If(arms, otherwise) =>
      VisitArmsExact(arms, f, g);
      if otherwise.Tail? {
        VisitStmtsExact(otherwise.body, f, g);
      }
    case Switch(e, arms, otherwise) =>
      VisitExprExact(e, f);
      VisitArmsExact(arms, f, g);
      if otherwise.Tail? {
        VisitStmtsExact(otherwise.body, f, g);
      }
    case _ =>
  }

  lemma {:induction false} SealFreeWhenNoneNested(ss: seq<Stmt>)
    requires forall s | s in Nested(ss) :: !s.Seal?
    ensures SealFree(ss)
    decreases ss
  {
    if |ss| > 0 {
      assert ss[0] in Nested(ss);
      SealFreeInside(ss[0]);
      SealFreeWhenNoneNested(ss[1..]);
    }
  }

  lemma {:induction false} SealFreeArmsNested(arms: seq<Arm>)
    requires forall s | s in NestedArms(arms) :: !s.Seal?
    ensures SealFreeArms(arms)
    decreases arms
  {
    if |arms| > 0 {
      SealFreeWhenNoneNested(arms[0].body);
      SealFreeArmsNested(arms[1..]);
    }
  }

  lemma {:induction false} SealFreeInside(s: Stmt)
    requires !s.Seal? && forall t | t in Inside(s) :: !t.Seal?
    ensures SealFreeStmt(s)
    decreases s
  {
    match s
    case For(_, _, _, _, body) => SealFreeWhenNoneNested(body);
    case ForEach(_, _, body) => SealFreeWhenNoneNested(body);
    case While(_, body) => SealFreeWhenNoneNested(body);
    case If(arms, otherwise) =>
      SealFreeArmsNested(arms);
      if otherwise.Tail? {
        SealFreeWhenNoneNested(otherwise.body);
      }
    case Switch(_, arms, otherwise) =>
      SealFreeArmsNested(arms);
      if otherwise.Tail? {
        SealFreeWhenNoneNested(otherwise.body);
      }
    case _ =>
  }

  lemma {:induction false} SealFreeProgram(p: Program)
    requires forall s | s in Nested(p) :: !s.Seal?
    ensures SealFreeFunctions(Functions(p))
  {
    hide SealFree;
    if |p| > 0 {
      SealFreeProgram(p[1..]);
      if p[0].Function? {
        assert Nested(p[0].body) == Inside(p[0]) <= Nested(p);
        SealFreeWhenNoneNested(p[0].body);
      }
    }
  }

  lemma {:induction false} TopStatementsNest(ss: seq<Stmt>, s: Stmt)
    requires s in ss
    ensures s in Nested(ss)
  {
    if s != ss[0] {
      TopStatementsNest(ss[1..], s);
    }
  }

  /** Confidentiality holds of every run of a validated program: without GO_PRIVATE no confidential
      function is ever attempted; with it every data function attempted is a confidential one, nothing
      is sealed, and no final state is recorded. */
  lemma ConfidentialityCoversRuns(m: Machine, p: Program, w: World)
    requires Trusted(m) && ConfidentialOk(m, p)
    ensures var r := Run(m, p, w);
      if Declares(p, "GO_PRIVATE") then
        && (forall name | name in r.st.called && m.library(name).Data? :: m.confidential(name))
        && r.st.sealed == map[]
        && !ContextOf(m, p).mad
      else forall name | name in r.st.called :: !m.confidential(name)
  {
    hide Trusted, VisitStmts, RunTop, SealFree;
    var enabled := Declares(p, "GO_PRIVATE");
    var f := name => (m.confidential(name) ==> enabled) && (enabled && m.library(name).Data? ==> m.confidential(name));
    var g := s => enabled ==> PrivateStmt(s);
    VisitStmtsExact(p, f, g);
    RecordedNamesBound(m, p, w);
    if enabled {
      assert forall s | s in Nested(p) :: g(s) && !s.Seal?;
      SealFreeWhenNoneNested(p);
      SealFreeProgram(p);
      ProgramFunctionCalls(p);
      TopKeeps(ContextOf(m, p), StmtsCalls(p), p, InitialState(w));
      if Declares(p, "COMPLETELY_MAD") {
        TopStatementsNest(p, Directive("COMPLETELY_MAD"));
        assert false;
      }
    }
  }
}
