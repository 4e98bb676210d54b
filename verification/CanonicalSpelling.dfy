/** What the canonical form forgets about print calls: which of them are written printf. The list of these
    spellings, together with the canonical form, fixes a program up to constant aliases and block indexes. */
module CanonicalSpelling {
  import opened Prelude
  import opened Ast
  import opened Scans
  import opened CanonicalProgram

  // ---- the spellings, in the order of the text --------------------------------------------

  function Spelling(name: string): seq<bool> {
    if name == "print" || name == "printf" then [name == "printf"] else []
  }

  function ExprsPrintfs(es: seq<Expr>): seq<bool>
    decreases es
  {
    if |es| == 0 then [] else ExprPrintfs(es[0]) + ExprsPrintfs(es[1..])
  }

  function OptionPrintfs(whole: Expr, e: Option<Expr>): seq<bool>
    requires e.Some? ==> e.value < whole
    decreases whole, 0
  {
    if e.Some? then ExprPrintfs(e.value) else []
  }

  function ExprPrintfs(e: Expr): seq<bool>
    decreases e
  {
    match e
    case ArrayLit(items) => ExprsPrintfs(items)
    case Index(a, i) => ExprPrintfs(a) + ExprPrintfs(i)
    case Slice(a, start, stop) => ExprPrintfs(a) + (OptionPrintfs(e, start) + OptionPrintfs(e, stop))
    case Unary(_, a) => ExprPrintfs(a)
    case Binary(_, l, r) => ExprPrintfs(l) + ExprPrintfs(r)
    case Compare(_, l, r) => ExprPrintfs(l) + ExprPrintfs(r)
    case Logical(_, l, r) => ExprPrintfs(l) + ExprPrintfs(r)
    case Not(a) => ExprPrintfs(a)
    case Call(name, args) => Spelling(name) + ExprsPrintfs(args)
    case _ => []
  }

  /** Of every print call of a program, whether it is written printf. */
  function Printfs(ss: seq<Stmt>): seq<bool>
    decreases ss
  {
    if |ss| == 0 then [] else StmtPrintfs(ss[0]) + Printfs(ss[1..])
  }

  function ArmsPrintfs(arms: seq<Arm>): seq<bool>
    decreases arms
  {
    if |arms| == 0 then [] else ExprPrintfs(arms[0].test) + (Printfs(arms[0].body) + ArmsPrintfs(arms[1..]))
  }

  function TailPrintfs(tail: Tail): seq<bool>
    decreases tail
  {
    if tail.Tail? then Printfs(tail.body) else []
  }

  function StmtPrintfs(s: Stmt): seq<bool>
    decreases s
  {
    match s
    case Function(_, _, body) => Printfs(body)
    case Return(e) => ExprPrintfs(e)
    case Assign(_, e) => ExprPrintfs(e)
    case IndexAssign(_, i, e) => ExprPrintfs(i) + ExprPrintfs(e)
    case Expression(e) => ExprPrintfs(e)
    case For(_, a, b, d, body) => ExprPrintfs(a) + (ExprPrintfs(b) + (ExprPrintfs(d) + Printfs(body)))
    case ForEach(_, e, body) => ExprPrintfs(e) + Printfs(body)
    case While(e, body) => ExprPrintfs(e) + Printfs(body)
    case If(arms, tail) => ArmsPrintfs(arms) + TailPrintfs(tail)
    case Switch(e, arms, tail) => ExprPrintfs(e) + (ArmsPrintfs(arms) + TailPrintfs(tail))
    case _ => []
  }

  // ---- form and spellings fix the program -------------------------------------------------

  lemma Regroup(a: seq<bool>, b: seq<bool>, c: seq<bool>)
    ensures (a + b) + c == a + (b + c)
  {
  }

  lemma {:induction false} ExprsSpelled(a: seq<Expr>, b: seq<Expr>, x: seq<bool>, y: seq<bool>)
    requires EraseExprs(Merged, a) == EraseExprs(Merged, b) && ExprsPrintfs(a) + x == ExprsPrintfs(b) + y
    ensures EraseExprs(AsWritten, a) == EraseExprs(AsWritten, b) && x == y
    decreases a
  {
    hide EraseExpr, ExprPrintfs;
    if |a| > 0 {
      assert EraseExprs(Merged, a)[0] == EraseExprs(Merged, b)[0];
      assert EraseExprs(Merged, a)[1..] == EraseExprs(Merged, a[1..]) && EraseExprs(Merged, b)[1..] == EraseExprs(Merged, b[1..]);
      Regroup(ExprPrintfs(a[0]), ExprsPrintfs(a[1..]), x);
      Regroup(ExprPrintfs(b[0]), ExprsPrintfs(b[1..]), y);
      ExprSpelled(a[0], b[0], ExprsPrintfs(a[1..]) + x, ExprsPrintfs(b[1..]) + y);
      ExprsSpelled(a[1..], b[1..], x, y);
    } else {
      assert b == [] && [] + x == x && [] + y == y;
    }
  }

  /** Two expressions, one after the other. */
  lemma {:induction false} PairSpelled(whole: Expr, a: Expr, b: Expr, c: Expr, d: Expr, x: seq<bool>, y: seq<bool>)
    requires a < whole && c < whole
    requires EraseExpr(Merged, a) == EraseExpr(Merged, b) && EraseExpr(Merged, c) == EraseExpr(Merged, d)
    requires (ExprPrintfs(a) + ExprPrintfs(c)) + x == (ExprPrintfs(b) + ExprPrintfs(d)) + y
    ensures EraseExpr(AsWritten, a) == EraseExpr(AsWritten, b) && EraseExpr(AsWritten, c) == EraseExpr(AsWritten, d) && x == y
    decreases whole, 0
  {
    hide EraseExpr, ExprPrintfs;
    Regroup(ExprPrintfs(a), ExprPrintfs(c), x);
    Regroup(ExprPrintfs(b), ExprPrintfs(d), y);
    ExprSpelled(a, b, ExprPrintfs(c) + x, ExprPrintfs(d) + y);
    ExprSpelled(c, d, x, y);
  }

  function EraseOption(calls: Calls, e: Option<Expr>): Option<Expr> {
    if e.Some? then Some(EraseExpr(calls, e.value)) else None
  }

  lemma {:induction false} OptionSpelled(whole: Expr, other: Expr, a: Option<Expr>, b: Option<Expr>, x: seq<bool>, y: seq<bool>)
    requires (a.Some? ==> a.value < whole) && (b.Some? ==> b.value < other)
    requires EraseOption(Merged, a) == EraseOption(Merged, b) && OptionPrintfs(whole, a) + x == OptionPrintfs(other, b) + y
    ensures EraseOption(AsWritten, a) == EraseOption(AsWritten, b) && x == y
    decreases whole, 0
  {
    hide EraseExpr, ExprPrintfs;
    if a.Some? {
      ExprSpelled(a.value, b.value, x, y);
    } else {
      assert [] + x == x && [] + y == y;
    }
  }

  lemma {:induction false} SliceSpelled(a: Expr, b: Expr, x: seq<bool>, y: seq<bool>)
    requires a.Slice? && EraseExpr(Merged, a) == EraseExpr(Merged, b) && ExprPrintfs(a) + x == ExprPrintfs(b) + y
    ensures EraseExpr(AsWritten, a) == EraseExpr(AsWritten, b) && x == y
    decreases a, 1
  {
    assert b.Slice?;
    var a1, a2, b1, b2 := OptionPrintfs(a, a.start), OptionPrintfs(a, a.stop), OptionPrintfs(b, b.start), OptionPrintfs(b, b.stop);
    assert ExprPrintfs(a) == ExprPrintfs(a.base) + (a1 + a2) && ExprPrintfs(b) == ExprPrintfs(b.base) + (b1 + b2);
    assert EraseOption(Merged, a.start) == EraseOption(Merged, b.start) && EraseOption(Merged, a.stop) == EraseOption(Merged, b.stop);
    hide OptionPrintfs, ExprPrintfs;
    Regroup(ExprPrintfs(a.base), a1 + a2, x);
    Regroup(ExprPrintfs(b.base), b1 + b2, y);
    ExprSpelled(a.base, b.base, (a1 + a2) + x, (b1 + b2) + y);
    Regroup(a1, a2, x);
    Regroup(b1, b2, y);
    OptionSpelled(a, b, a.start, b.start, a2 + x, b2 + y);
    OptionSpelled(a, b, a.stop, b.stop, x, y);
  }

  lemma {:induction false} CallSpelled(a: Expr, b: Expr, x: seq<bool>, y: seq<bool>)
    requires a.Call? && EraseExpr(Merged, a) == EraseExpr(Merged, b) && ExprPrintfs(a) + x == ExprPrintfs(b) + y
    ensures EraseExpr(AsWritten, a) == EraseExpr(AsWritten, b) && x == y
    decreases a, 1
  {
    hide EraseExprs, ExprsPrintfs;
    assert b.Call?;
    var s, t := Spelling(a.name), Spelling(b.name);
    Regroup(s, ExprsPrintfs(a.args), x);
    Regroup(t, ExprsPrintfs(b.args), y);
    var u, v := ExprsPrintfs(a.args) + x, ExprsPrintfs(b.args) + y;
    assert s + u == t + v && |s| == |t|;
    assert s == (s + u)[..|s|] && t == (t + v)[..|t|] && u == (s + u)[|s|..] && v == (t + v)[|t|..];
    assert a.name == b.name;
    ExprsSpelled(a.args, b.args, x, y);
  }

  lemma {:induction false} ExprSpelled(a: Expr, b: Expr, x: seq<bool>, y: seq<bool>)
    requires EraseExpr(Merged, a) == EraseExpr(Merged, b) && ExprPrintfs(a) + x == ExprPrintfs(b) + y
    ensures EraseExpr(AsWritten, a) == EraseExpr(AsWritten, b) && x == y
    decreases a, 2
  {
    hide EraseExprs, ExprsPrintfs, OptionPrintfs, Spelling;
    match a
    case ArrayLit(items) => ExprsSpelled(items, b.items, x, y);
    case Index(c, d) => PairSpelled(a, c, b.base, d, b.index, x, y);
    case Slice(_, _, _) => SliceSpelled(a, b, x, y);
    case Unary(_, c) => ExprSpelled(c, b.operand, x, y);
    case Binary(_, l, r) => PairSpelled(a, l, b.left, r, b.right, x, y);
    case Compare(_, l, r) => PairSpelled(a, l, b.left, r, b.right, x, y);
    case Logical(_, l, r) => PairSpelled(a, l, b.left, r, b.right, x, y);
    case Not(c) => ExprSpelled(c, b.operand, x, y);
    case Call(_, _) => CallSpelled(a, b, x, y);
    case _ => assert [] + x == x && [] + y == y;
  }

  lemma {:induction false} StmtsSpelled(a: seq<Stmt>, b: seq<Stmt>, x: seq<bool>, y: seq<bool>)
    requires Erase(Merged, a) == Erase(Merged, b) && Printfs(a) + x == Printfs(b) + y
    ensures Erase(AsWritten, a) == Erase(AsWritten, b) && x == y
    decreases a
  {
    hide EraseStmt, StmtPrintfs;
    if |a| > 0 {
      assert Erase(Merged, a)[0] == Erase(Merged, b)[0];
      assert Erase(Merged, a)[1..] == Erase(Merged, a[1..]) && Erase(Merged, b)[1..] == Erase(Merged, b[1..]);
      Regroup(StmtPrintfs(a[0]), Printfs(a[1..]), x);
      Regroup(StmtPrintfs(b[0]), Printfs(b[1..]), y);
      StmtSpelled(a[0], b[0], Printfs(a[1..]) + x, Printfs(b[1..]) + y);
      StmtsSpelled(a[1..], b[1..], x, y);
    } else {
      assert b == [] && [] + x == x && [] + y == y;
    }
  }

  lemma {:induction false} ArmsSpelled(a: seq<Arm>, b: seq<Arm>, x: seq<bool>, y: seq<bool>)
    requires EraseArms(Merged, a) == EraseArms(Merged, b) && ArmsPrintfs(a) + x == ArmsPrintfs(b) + y
    ensures EraseArms(AsWritten, a) == EraseArms(AsWritten, b) && x == y
    decreases a
  {
    hide EraseExpr, ExprPrintfs, Erase, Printfs;
    if |a| > 0 {
      assert EraseArms(Merged, a)[0] == EraseArms(Merged, b)[0];
      assert EraseArms(Merged, a)[1..] == EraseArms(Merged, a[1..]) && EraseArms(Merged, b)[1..] == EraseArms(Merged, b[1..]);
      var a1, a2, a3 := ExprPrintfs(a[0].test), Printfs(a[0].body), ArmsPrintfs(a[1..]);
      var b1, b2, b3 := ExprPrintfs(b[0].test), Printfs(b[0].body), ArmsPrintfs(b[1..]);
      Regroup(a1, a2 + a3, x);
      Regroup(b1, b2 + b3, y);
      ExprSpelled(a[0].test, b[0].test, (a2 + a3) + x, (b2 + b3) + y);
      Regroup(a2, a3, x);
      Regroup(b2, b3, y);
      StmtsSpelled(a[0].body, b[0].body, a3 + x, b3 + y);
      ArmsSpelled(a[1..], b[1..], x, y);
    } else {
      assert b == [] && [] + x == x && [] + y == y;
    }
  }

  lemma {:induction false} TailSpelled(a: Tail, b: Tail, x: seq<bool>, y: seq<bool>)
    requires EraseTail(Merged, a) == EraseTail(Merged, b) && TailPrintfs(a) + x == TailPrintfs(b) + y
    ensures EraseTail(AsWritten, a) == EraseTail(AsWritten, b) && x == y
    decreases a
  {
    hide Erase, Printfs;
    if a.Tail? {
      StmtsSpelled(a.body, b.body, x, y);
    } else {
      assert [] + x == x && [] + y == y;
    }
  }

  /** The last expression of a loop's head, then its body. */
  lemma {:induction false} LoopSpelled(a: Stmt, b: Stmt, e: Expr, f: Expr, x: seq<bool>, y: seq<bool>)
    requires (a.For? && b.For?) || (a.ForEach? && b.ForEach?) || (a.While? && b.While?)
    requires e < a && EraseExpr(Merged, e) == EraseExpr(Merged, f) && Erase(Merged, a.body) == Erase(Merged, b.body)
    requires (ExprPrintfs(e) + Printfs(a.body)) + x == (ExprPrintfs(f) + Printfs(b.body)) + y
    ensures EraseExpr(AsWritten, e) == EraseExpr(AsWritten, f) && Erase(AsWritten, a.body) == Erase(AsWritten, b.body) && x == y
    decreases a, 0
  {
    hide EraseExpr, ExprPrintfs, Erase, Printfs;
    Regroup(ExprPrintfs(e), Printfs(a.body), x);
    Regroup(ExprPrintfs(f), Printfs(b.body), y);
    ExprSpelled(e, f, Printfs(a.body) + x, Printfs(b.body) + y);
    StmtsSpelled(a.body, b.body, x, y);
  }

  lemma {:induction false} ForSpelled(a: Stmt, b: Stmt, x: seq<bool>, y: seq<bool>)
    requires a.For? && EraseStmt(Merged, a) == EraseStmt(Merged, b) && StmtPrintfs(a) + x == StmtPrintfs(b) + y
    ensures EraseStmt(AsWritten, a) == EraseStmt(AsWritten, b) && x == y
    decreases a, 1
  {
    hide EraseExpr, ExprPrintfs, Erase, Printfs;
    assert b.For?;
    var a1, a2 := ExprPrintfs(a.stop), ExprPrintfs(a.step) + Printfs(a.body);
    var b1, b2 := ExprPrintfs(b.stop), ExprPrintfs(b.step) + Printfs(b.body);
    Regroup(ExprPrintfs(a.start), a1 + a2, x);
    Regroup(ExprPrintfs(b.start), b1 + b2, y);
    ExprSpelled(a.start, b.start, (a1 + a2) + x, (b1 + b2) + y);
    Regroup(a1, a2, x);
    Regroup(b1, b2, y);
    ExprSpelled(a.stop, b.stop, a2 + x, b2 + y);
    LoopSpelled(a, b, a.step, b.step, x, y);
  }

  /** The arms of a statement, then its tail. */
  lemma {:induction false} ArmsTailSpelled(a: Stmt, b: Stmt, x: seq<bool>, y: seq<bool>)
    requires (a.If? && b.If?) || (a.Switch? && b.Switch?)
    requires EraseArms(Merged, a.arms) == EraseArms(Merged, b.arms) && EraseTail(Merged, a.otherwise) == EraseTail(Merged, b.otherwise)
    requires (ArmsPrintfs(a.arms) + TailPrintfs(a.otherwise)) + x == (ArmsPrintfs(b.arms) + TailPrintfs(b.otherwise)) + y
    ensures EraseArms(AsWritten, a.arms) == EraseArms(AsWritten, b.arms)
    ensures EraseTail(AsWritten, a.otherwise) == EraseTail(AsWritten, b.otherwise) && x == y
    decreases a, 0
  {
    hide EraseArms, ArmsPrintfs, EraseTail, TailPrintfs;
    Regroup(ArmsPrintfs(a.arms), TailPrintfs(a.otherwise), x);
    Regroup(ArmsPrintfs(b.arms), TailPrintfs(b.otherwise), y);
    ArmsSpelled(a.arms, b.arms, TailPrintfs(a.otherwise) + x, TailPrintfs(b.otherwise) + y);
    TailSpelled(a.otherwise, b.otherwise, x, y);
  }

  lemma {:induction false} SwitchSpelled(a: Stmt, b: Stmt, x: seq<bool>, y: seq<bool>)
    requires a.Switch? && EraseStmt(Merged, a) == EraseStmt(Merged, b) && StmtPrintfs(a) + x == StmtPrintfs(b) + y
    ensures EraseStmt(AsWritten, a) == EraseStmt(AsWritten, b) && x == y
    decreases a, 1
  {
    hide EraseExpr, ExprPrintfs, EraseArms, ArmsPrintfs, EraseTail, TailPrintfs;
    assert b.Switch?;
    var a1, b1 := ArmsPrintfs(a.arms) + TailPrintfs(a.otherwise), ArmsPrintfs(b.arms) + TailPrintfs(b.otherwise);
    Regroup(ExprPrintfs(a.selector), a1, x);
    Regroup(ExprPrintfs(b.selector), b1, y);
    ExprSpelled(a.selector, b.selector, a1 + x, b1 + y);
    ArmsTailSpelled(a, b, x, y);
  }

  lemma {:induction false} StmtSpelled(a: Stmt, b: Stmt, x: seq<bool>, y: seq<bool>)
    requires EraseStmt(Merged, a) == EraseStmt(Merged, b) && StmtPrintfs(a) + x == StmtPrintfs(b) + y
    ensures EraseStmt(AsWritten, a) == EraseStmt(AsWritten, b) && x == y
    decreases a, 2
  {
    hide EraseExpr, ExprPrintfs, Erase, Printfs, EraseArms, ArmsPrintfs, EraseTail, TailPrintfs;
    match a
    case Function(_, _, body) => StmtsSpelled(body, b.body, x, y);
    case Return(e) => ExprSpelled(e, b.expr, x, y);
    case Assign(_, e) => ExprSpelled(e, b.expr, x, y);
    case IndexAssign(_, i, e) =>
      Regroup(ExprPrintfs(i), ExprPrintfs(e), x);
      Regroup(ExprPrintfs(b.index), ExprPrintfs(b.expr), y);
      ExprSpelled(i, b.index, ExprPrintfs(e) + x, ExprPrintfs(b.expr) + y);
      ExprSpelled(e, b.expr, x, y);
    case Expression(e) => ExprSpelled(e, b.expr, x, y);
    case For(_, _, _, _, _) => ForSpelled(a, b, x, y);
    case ForEach(_, e, _) => LoopSpelled(a, b, e, b.iterable, x, y);
    case While(e, _) => LoopSpelled(a, b, e, b.condition, x, y);
    case If(_, _) => ArmsTailSpelled(a, b, x, y);
    case Switch(_, _, _) => SwitchSpelled(a, b, x, y);
    case _ => assert [] + x == x && [] + y == y;
  }

  // ---- programs without printf ------------------------------------------------------------

  lemma {:induction false} ExprsWithoutPrintf(es: seq<Expr>)
    requires "printf" !in ExprsCalls(es)
    ensures EraseExprs(AsWritten, es) == EraseExprs(Merged, es)
    decreases es
  {
    hide ExprCalls, EraseExpr;
    if |es| > 0 {
      ExprWithoutPrintf(es[0]);
      ExprsWithoutPrintf(es[1..]);
    }
  }

  lemma {:induction false} ExprWithoutPrintf(e: Expr)
    requires "printf" !in ExprCalls(e)
    ensures EraseExpr(AsWritten, e) == EraseExpr(Merged, e)
    decreases e
  {
    hide ExprsCalls, EraseExprs;
    match e
    case ArrayLit(items) => ExprsWithoutPrintf(items);
    case Index(a, i) =>
      ExprWithoutPrintf(a);
      ExprWithoutPrintf(i);
    case Slice(a, start, stop) =>
      ExprWithoutPrintf(a);
      if start.Some? {
        ExprWithoutPrintf(start.value);
      }
      if stop.Some? {
        ExprWithoutPrintf(stop.value);
      }
    case Unary(_, a) => ExprWithoutPrintf(a);
    case Binary(_, l, r) =>
      ExprWithoutPrintf(l);
      ExprWithoutPrintf(r);
    case Compare(_, l, r) =>
      ExprWithoutPrintf(l);
      ExprWithoutPrintf(r);
    case Logical(_, l, r) =>
      ExprWithoutPrintf(l);
      ExprWithoutPrintf(r);
    case Not(a) => ExprWithoutPrintf(a);
    case Call(_, args) => ExprsWithoutPrintf(args);
    case _ =>
  }

  lemma {:induction false} StmtsWithoutPrintf(ss: seq<Stmt>)
    requires "printf" !in StmtsCalls(ss)
    ensures Erase(AsWritten, ss) == Erase(Merged, ss)
    decreases ss
  {
    hide StmtCalls, EraseStmt;
    if |ss| > 0 {
      StmtWithoutPrintf(ss[0]);
      StmtsWithoutPrintf(ss[1..]);
    }
  }

  lemma {:induction false} ArmsWithoutPrintf(arms: seq<Arm>)
    requires "printf" !in ArmsCalls(arms)
    ensures EraseArms(AsWritten, arms) == EraseArms(Merged, arms)
    decreases arms
  {
    hide ExprCalls, StmtsCalls, EraseExpr, Erase;
    if |arms| > 0 {
      ExprWithoutPrintf(arms[0].test);
      StmtsWithoutPrintf(arms[0].body);
      ArmsWithoutPrintf(arms[1..]);
    }
  }

  lemma {:induction false} StmtWithoutPrintf(s: Stmt)
    requires "printf" !in StmtCalls(s)
    ensures EraseStmt(AsWritten, s) == EraseStmt(Merged, s)
    decreases s
  {
    hide ExprCalls, StmtsCalls, ArmsCalls, EraseExpr, Erase, EraseArms;
    match s
    case Function(_, _, body) => StmtsWithoutPrintf(body);
    case Return(e) => ExprWithoutPrintf(e);
    case Assign(_, e) => ExprWithoutPrintf(e);
    case IndexAssign(_, i, e) =>
      ExprWithoutPrintf(i);
      ExprWithoutPrintf(e);
    case Expression(e) => ExprWithoutPrintf(e);
    case For(_, a, b, d, body) =>
      ExprWithoutPrintf(a);
      ExprWithoutPrintf(b);
      ExprWithoutPrintf(d);
      StmtsWithoutPrintf(body);
    case ForEach(_, e, body) =>
      ExprWithoutPrintf(e);
      StmtsWithoutPrintf(body);
    case While(e, body) =>
      ExprWithoutPrintf(e);
      StmtsWithoutPrintf(body);
    case If(arms, tail) =>
      ArmsWithoutPrintf(arms);
      if tail.Tail? {
        StmtsWithoutPrintf(tail.body);
      }
    case Switch(e, arms, tail) =>
      ExprWithoutPrintf(e);
      ArmsWithoutPrintf(arms);
      if tail.Tail? {
        StmtsWithoutPrintf(tail.body);
      }
    case _ =>
  }
}
