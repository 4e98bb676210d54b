/** Which programs have generated code: a scan of the text, dead branches and function bodies included. */
module Compilation {
  import opened Prelude
  import opened Ast
  import opened Values
  import opened Codegen
  import I = Interpreter

  /** The argument counts that calls may be written with, whether or not they are ever reached. */
  predicate CountAllowed(m: Machine, name: string, count: nat) {
    if m.library(name).Data? then m.earlyArity(name) ==> m.arity(name, count)
    else if name == "argv" || name == "len" then count == 1
    else if m.library(name).Shared? then true
    else if name == "append" then count == 2
    else if name == "input" then count <= 1
    else true
  }

  predicate ExprsCompile(m: Machine, es: seq<Expr>)
    decreases es
  {
    |es| > 0 ==> ExprCompiles(m, es[0]) && ExprsCompile(m, es[1..])
  }

  predicate NameCompiles(m: Machine, id: Option<string>) {
    id.Some? ==> m.constant(id.value).Some?
  }

  /** Known units, registered constants, `and` and `or`, allowed argument counts. */
  predicate ExprCompiles(m: Machine, e: Expr)
    decreases e
  {
    match e
    case QuantityLit(_, unit) => m.unitKnown(unit)
    case Name(_, id) => NameCompiles(m, id)
    case ArrayLit(items) => ExprsCompile(m, items)
    case Index(a, i) => ExprCompiles(m, a) && ExprCompiles(m, i)
    case Slice(a, start, stop) =>
      && ExprCompiles(m, a)
      && (start.Some? ==> ExprCompiles(m, start.value))
      && (stop.Some? ==> ExprCompiles(m, stop.value))
    case Unary(_, a) => ExprCompiles(m, a)
    case Binary(_, l, r) => ExprCompiles(m, l) && ExprCompiles(m, r)
    case Compare(_, l, r) => ExprCompiles(m, l) && ExprCompiles(m, r)
    case Logical(op, l, r) => (op == "and" || op == "or") && ExprCompiles(m, l) && ExprCompiles(m, r)
    case Not(a) => ExprCompiles(m, a)
    case Call(name, args) => CountAllowed(m, name, |args|) && ExprsCompile(m, args)
    case _ => true
  }

  predicate StmtsCompile(m: Machine, ss: seq<Stmt>)
    decreases ss
  {
    |ss| > 0 ==> StmtCompiles(m, ss[0]) && StmtsCompile(m, ss[1..])
  }

  predicate ArmsCompile(m: Machine, arms: seq<Arm>)
    decreases arms
  {
    |arms| > 0 ==> ExprCompiles(m, arms[0].test) && StmtsCompile(m, arms[0].body) && ArmsCompile(m, arms[1..])
  }

  predicate TailCompiles(m: Machine, tail: Tail)
    decreases tail
  {
    tail.Tail? ==> StmtsCompile(m, tail.body)
  }

  /** Imports resolved, no `else` without an `if`; print statements take any arguments. A function emits
      nothing where it stands. */
  predicate StmtCompiles(m: Machine, s: Stmt)
    decreases s
  {
    match s
    case Import(_) => false
    case Return(e) => ExprCompiles(m, e)
    case Assign(_, e) => ExprCompiles(m, e)
    case IndexAssign(_, i, e) => ExprCompiles(m, i) && ExprCompiles(m, e)
    case Expression(e) =>
      if e.Call? && (e.name == "print" || e.name == "printf") then ExprsCompile(m, e.args) else ExprCompiles(m, e)
    case Seal(name) => NameCompiles(m, m.constantId(name))
    case For(_, a, b, d, body) =>
      ExprCompiles(m, a) && ExprCompiles(m, b) && ExprCompiles(m, d) && StmtsCompile(m, body)
    case ForEach(_, e, body) => ExprCompiles(m, e) && StmtsCompile(m, body)
    case While(e, body) => ExprCompiles(m, e) && StmtsCompile(m, body)
    case If(arms, tail) => (|arms| == 0 ==> tail.NoTail?) && ArmsCompile(m, arms) && TailCompiles(m, tail)
    case Switch(e, arms, tail) => ExprCompiles(m, e) && ArmsCompile(m, arms) && TailCompiles(m, tail)
    case _ => true
  }

  /** The whole text: the top-level statements, and the bodies of the user functions. */
  predicate Compiles(m: Machine, p: Program) {
    StmtsCompile(m, p) && forall i | 0 <= i < |p| && p[i].Function? :: StmtsCompile(m, p[i].body)
  }

  // ---- the scan is exact ------------------------------------------------------------------

  lemma {:induction false} ExprsExact(m: Machine, es: seq<Expr>)
    ensures GenExprs(m, es).Some? <==> ExprsCompile(m, es)
    decreases es
  {
    hide GenExpr, ExprCompiles;
    if |es| > 0 {
      ExprExact(m, es[0]);
      ExprsExact(m, es[1..]);
    }
  }

  lemma {:induction false} ExprExact(m: Machine, e: Expr)
    ensures GenExpr(m, e).Some? <==> ExprCompiles(m, e)
    decreases e
  {
    hide GenExprs, ExprsCompile;
    match e
    case ArrayLit(items) => ExprsExact(m, items);
    case Index(a, i) =>
      ExprExact(m, a);
      ExprExact(m, i);
    case Slice(a, start, stop) =>
      ExprExact(m, a);
      if start.Some? {
        ExprExact(m, start.value);
      }
      if stop.Some? {
        ExprExact(m, stop.value);
      }
    case Unary(_, a) => ExprExact(m, a);
    case Binary(_, l, r) =>
      ExprExact(m, l);
      ExprExact(m, r);
    case Compare(_, l, r) =>
      ExprExact(m, l);
      ExprExact(m, r);
    case Logical(_, l, r) =>
      ExprExact(m, l);
      ExprExact(m, r);
    case Not(a) => ExprExact(m, a);
    case Call(_, args) => ExprsExact(m, args);
    case _ =>
  }

  lemma {:induction false} StmtsExact(m: Machine, ss: seq<Stmt>, track: bool)
    ensures GenStmts(m, ss, track).Some? <==> StmtsCompile(m, ss)
    decreases ss
  {
    hide GenStmt, StmtCompiles;
    if |ss| > 0 {
      StmtExact(m, ss[0], track);
      StmtsExact(m, ss[1..], track);
    }
  }

  lemma {:induction false} ArmsAt(m: Machine, arms: seq<Arm>, k: nat)
    requires k < |arms|
    ensures ArmsCompile(m, arms[k..]) <==>
              ExprCompiles(m, arms[k].test) && StmtsCompile(m, arms[k].body) && ArmsCompile(m, arms[k + 1..])
  {
    assert arms[k..][0] == arms[k] && arms[k..][1..] == arms[k + 1..];
  }

  lemma {:induction false} TailExact(m: Machine, s: Stmt, track: bool)
    requires s.If? || s.Switch?
    ensures GenTail(m, s, track).Some? <==> TailCompiles(m, s.otherwise)
    decreases s, 0
  {
    if s.otherwise.Tail? {
      StmtsExact(m, s.otherwise.body, track);
    }
  }

  lemma {:induction false} IfExact(m: Machine, s: Stmt, k: nat, track: bool)
    requires s.If? && k <= |s.arms|
    ensures GenIf(m, s, k, track).Some? <==> ArmsCompile(m, s.arms[k..]) && TailCompiles(m, s.otherwise)
    decreases s, |s.arms| - k + 1
  {
    hide GenExpr, ExprCompiles, GenStmts, StmtsCompile, GenTail, TailCompiles;
    if k == |s.arms| {
      TailExact(m, s, track);
    } else {
      ArmsAt(m, s.arms, k);
      ExprExact(m, s.arms[k].test);
      StmtsExact(m, s.arms[k].body, track);
      IfExact(m, s, k + 1, track);
    }
  }

  lemma {:induction false} CasesExact(m: Machine, s: Stmt, k: nat, track: bool)
    requires s.Switch? && k <= |s.arms|
    ensures GenCases(m, s, k, track).Some? <==> ArmsCompile(m, s.arms[k..]) && TailCompiles(m, s.otherwise)
    decreases s, |s.arms| - k + 1
  {
    hide GenExpr, ExprCompiles, GenStmts, StmtsCompile;
    if k == |s.arms| {
      TailExact(m, s, track);
    } else {
      ArmsAt(m, s.arms, k);
      ExprExact(m, s.arms[k].test);
      StmtsExact(m, s.arms[k].body, track);
      CasesExact(m, s, k + 1, track);
    }
  }

  lemma {:induction false} StmtExact(m: Machine, s: Stmt, track: bool)
    ensures GenStmt(m, s, track).Some? <==> StmtCompiles(m, s)
    decreases s
  {
    hide GenExpr, ExprCompiles, GenStmts, StmtsCompile, GenIf, GenCases, ArmsCompile, TailCompiles, GenExprs, ExprsCompile;
    match s
    case Return(e) => ExprExact(m, e);
    case Assign(_, e) => ExprExact(m, e);
    case IndexAssign(_, i, e) =>
      ExprExact(m, i);
      ExprExact(m, e);
    case Expression(e) =>
      if e.Call? && (e.name == "print" || e.name == "printf") {
        ExprsExact(m, e.args);
      } else {
        ExprExact(m, e);
      }
    case Seal(name) => SealExact(m, name);
    case For(_, a, b, d, body) =>
      ExprExact(m, a);
      ExprExact(m, b);
      ExprExact(m, d);
      StmtsExact(m, body, track);
    case ForEach(_, e, body) =>
      ExprExact(m, e);
      StmtsExact(m, body, track);
    case While(e, body) =>
      ExprExact(m, e);
      StmtsExact(m, body, track);
    case If(arms, _) =>
      IfExact(m, s, 0, track);
      assert arms[0..] == arms;
    case Switch(e, arms, _) =>
      ExprExact(m, e);
      CasesExact(m, s, 0, track);
      assert arms[0..] == arms;
    case _ =>
  }

  lemma SealExact(m: Machine, name: string)
    ensures GenExpr(m, Name(name, m.constantId(name))).Some? <==> NameCompiles(m, m.constantId(name))
  {
  }

  lemma {:induction false} FunctionsExact(m: Machine, p: Program)
    ensures GenFunctions(m, p).Some? <==> forall i | 0 <= i < |p| && p[i].Function? :: StmtsCompile(m, p[i].body)
  {
    hide GenStmts, StmtsCompile;
    if |p| > 0 {
      FunctionsExact(m, p[1..]);
      assert forall i | 1 <= i < |p| :: p[i] == p[1..][i - 1];
      assert forall i | 0 <= i < |p| - 1 :: p[1..][i] == p[i + 1];
      if p[0].Function? {
        StmtsExact(m, p[0].body, false);
      }
    }
  }

  /** Code is generated for exactly the programs the scan accepts. */
  lemma CompilesExactly(m: Machine, p: Program)
    ensures Generate(m, p).Some? <==> Compiles(m, p)
  {
    hide GenStmts, StmtsCompile, GenFunctions;
    FunctionsExact(m, p);
    StmtsExact(m, p, I.Declares(p, "COMPLETELY_MAD"));
  }
}
