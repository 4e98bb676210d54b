/** The canonical form of programs (`canonical()` of src/ast.rs): which programs share it, and why
    sharing it means running alike. */
module CanonicalProgram {
  import opened Prelude
  import opened Ast
  import opened Values
  import CJ = CanonicalJson
  import CR = CanonicalReading
  import CM = CanonicalMeaning

  /** How numbers are printed: a literal's shortest round-trip text, a budget's decimal digits. */
  datatype Numerals = Numerals(float: Double -> string, whole: nat -> string)

  /** Printed numbers are JSON numbers, and different numbers print differently. */
  ghost predicate Faithful(n: Numerals) {
    && (forall x: Double :: CJ.NumberToken(n.float(x)))
    && (forall x: nat :: CJ.NumberToken(n.whole(x)))
    && (forall x: Double, y: Double :: n.float(x) == n.float(y) ==> x == y)
    && (forall x: nat, y: nat :: n.whole(x) == n.whole(y) ==> x == y)
  }

  function Str(s: string): CJ.Json {
    CJ.JStr(s)
  }

  function Arr(items: seq<CJ.Json>): CJ.Json {
    CJ.JArr(items)
  }

  function Strs(ss: seq<string>): (r: seq<CJ.Json>)
    ensures |r| == |ss|
  {
    if |ss| == 0 then [] else [Str(ss[0])] + Strs(ss[1..])
  }

  // ---- canonical() ------------------------------------------------------------------------

  function Exprs(n: Numerals, es: seq<Expr>): (r: seq<CJ.Json>)
    ensures |r| == |es|
    decreases es
  {
    if |es| == 0 then [] else [OfExpr(n, es[0])] + Exprs(n, es[1..])
  }

  function OfExpr(n: Numerals, e: Expr): CJ.Json
    decreases e
  {
    match e
    case Number(x) => Arr([Str("number"), CJ.JNum(n.float(x))])
    case BoolLit(b) => Arr([Str("bool"), CJ.JBool(b)])
    case TextLit(t) => Arr([Str("string"), Str(t)])
    case Name(source, id) => if id.Some? then Arr([Str("constant"), Str(id.value)]) else Arr([Str("name"), Str(source)])
    case QuantityLit(x, unit) => Arr([Str("quantity"), CJ.JNum(n.float(x)), Str(unit)])
    case ArrayLit(items) => Arr([Str("array"), Arr(Exprs(n, items))])
    case Index(a, i) => Arr([Str("index"), OfExpr(n, a), OfExpr(n, i)])
    case Slice(a, start, stop) =>
      Arr([Str("slice"), OfExpr(n, a),
           if start.Some? then OfExpr(n, start.value) else CJ.JNull,
           if stop.Some? then OfExpr(n, stop.value) else CJ.JNull])
    case Unary(op, a) => Arr([Str("unary"), Str([op]), OfExpr(n, a)])
    case Binary(op, l, r) => Arr([Str("binary"), Str([op]), OfExpr(n, l), OfExpr(n, r)])
    case Compare(op, l, r) => Arr([Str("compare"), Str(op), OfExpr(n, l), OfExpr(n, r)])
    case Logical(op, l, r) => Arr([Str("logical"), Str(op), OfExpr(n, l), OfExpr(n, r)])
    case Not(a) => Arr([Str("not"), OfExpr(n, a)])
    case Call(name, args) => Arr([Str("call"), Str(CanonicalName(name)), Arr(Exprs(n, args))])
  }

  function CanonicalName(name: string): string {
    if name == "printf" then "print" else name
  }

  function Stmts(n: Numerals, ss: seq<Stmt>): (r: seq<CJ.Json>)
    ensures |r| == |ss|
    decreases ss
  {
    if |ss| == 0 then [] else [OfStmt(n, ss[0])] + Stmts(n, ss[1..])
  }

  function Arms(n: Numerals, arms: seq<Arm>): (r: seq<CJ.Json>)
    ensures |r| == |arms|
    decreases arms
  {
    if |arms| == 0 then []
    else [Arr([OfExpr(n, arms[0].test), Arr(Stmts(n, arms[0].body))])] + Arms(n, arms[1..])
  }

  function OfTail(n: Numerals, tail: Tail): CJ.Json
    decreases tail
  {
    match tail
    case NoTail => CJ.JNull
    case Tail(body) => Arr(Stmts(n, body))
  }

  function OfStmt(n: Numerals, s: Stmt): CJ.Json
    decreases s
  {
    match s
    case Import(path) => Arr([Str("import"), Str(path)])
    case Directive(word) => Arr([Str("directive"), Str(word)])
    case NumericAudit(path) => Arr([Str("numeric_audit"), Str(path)])
    case LoopBudget(budget) => Arr([Str("loop_budget"), CJ.JNum(n.whole(budget))])
    case Function(name, params, body) => Arr([Str("g_func"), Str(name), Arr(Strs(params)), Arr(Stmts(n, body))])
    case Return(e) => Arr([Str("return"), OfExpr(n, e)])
    case Assign(name, e) => Arr([Str("assign"), Str(name), OfExpr(n, e)])
    case IndexAssign(name, i, e) => Arr([Str("index_assign"), Str(name), OfExpr(n, i), OfExpr(n, e)])
    case Expression(e) => Arr([Str("expr"), OfExpr(n, e)])
    case Seal(name) => Arr([Str("seal"), Str(name)])
    case For(variable, a, b, d, body) =>
      Arr([Str("for"), Str(variable), OfExpr(n, a), OfExpr(n, b), OfExpr(n, d), Arr(Stmts(n, body))])
    case ForEach(variable, e, body) => Arr([Str("for_each"), Str(variable), OfExpr(n, e), Arr(Stmts(n, body))])
    case Break => Arr([Str("break")])
    case Continue => Arr([Str("continue")])
    case While(e, body) => Arr([Str("while"), OfExpr(n, e), Arr(Stmts(n, body))])
    case If(arms, tail) => Arr([Str("if"), Arr(Arms(n, arms)), OfTail(n, tail)])
    case Switch(e, arms, tail) => Arr([Str("switch"), OfExpr(n, e), Arr(Arms(n, arms)), OfTail(n, tail)])
    case InlineRust(_, sha256) => Arr([Str("inline_rust"), Str(sha256)])
  }

  function OfProgram(n: Numerals, p: Program): CJ.Json {
    Arr([Str("program"), Arr(Stmts(n, p))])
  }

  /** `canonical_bytes` of a program. */
  function CanonicalBytes(n: Numerals, p: Program): string {
    CJ.Write(OfProgram(n, p))
  }

  // ---- what the canonical form forgets ----------------------------------------------------

  /** Whether print and printf are told apart: as the program writes them, or merged as the form has them. */
  datatype Calls = AsWritten | Merged

  function EraseExprs(calls: Calls, es: seq<Expr>): (r: seq<Expr>)
    ensures |r| == |es|
    decreases es
  {
    if |es| == 0 then [] else [EraseExpr(calls, es[0])] + EraseExprs(calls, es[1..])
  }

  /** Constants lose the alias they were written with; merged, printf becomes print. */
  function EraseExpr(calls: Calls, e: Expr): Expr
    decreases e
  {
    match e
    case Name(source, id) => if id.Some? then Name("", id) else e
    case ArrayLit(items) => ArrayLit(EraseExprs(calls, items))
    case Index(a, i) => Index(EraseExpr(calls, a), EraseExpr(calls, i))
    case Slice(a, start, stop) =>
      Slice(EraseExpr(calls, a),
            if start.Some? then Some(EraseExpr(calls, start.value)) else None,
            if stop.Some? then Some(EraseExpr(calls, stop.value)) else None)
    case Unary(op, a) => Unary(op, EraseExpr(calls, a))
    case Binary(op, l, r) => Binary(op, EraseExpr(calls, l), EraseExpr(calls, r))
    case Compare(op, l, r) => Compare(op, EraseExpr(calls, l), EraseExpr(calls, r))
    case Logical(op, l, r) => Logical(op, EraseExpr(calls, l), EraseExpr(calls, r))
    case Not(a) => Not(EraseExpr(calls, a))
    case Call(name, args) => Call(if calls.Merged? then CanonicalName(name) else name, EraseExprs(calls, args))
    case _ => e
  }

  function Erase(calls: Calls, ss: seq<Stmt>): (r: seq<Stmt>)
    ensures |r| == |ss|
    decreases ss
  {
    if |ss| == 0 then [] else [EraseStmt(calls, ss[0])] + Erase(calls, ss[1..])
  }

  function EraseArms(calls: Calls, arms: seq<Arm>): (r: seq<Arm>)
    ensures |r| == |arms|
    decreases arms
  {
    if |arms| == 0 then [] else [Arm(EraseExpr(calls, arms[0].test), Erase(calls, arms[0].body))] + EraseArms(calls, arms[1..])
  }

  function EraseTail(calls: Calls, tail: Tail): Tail
    decreases tail
  {
    match tail
    case NoTail => NoTail
    case Tail(body) => Tail(Erase(calls, body))
  }

  /** Inline blocks lose their index. */
  function EraseStmt(calls: Calls, s: Stmt): Stmt
    decreases s
  {
    match s
    case Function(name, params, body) => Function(name, params, Erase(calls, body))
    case Return(e) => Return(EraseExpr(calls, e))
    case Assign(name, e) => Assign(name, EraseExpr(calls, e))
    case IndexAssign(name, i, e) => IndexAssign(name, EraseExpr(calls, i), EraseExpr(calls, e))
    case Expression(e) => Expression(EraseExpr(calls, e))
    case For(variable, a, b, d, body) => For(variable, EraseExpr(calls, a), EraseExpr(calls, b), EraseExpr(calls, d), Erase(calls, body))
    case ForEach(variable, e, body) => ForEach(variable, EraseExpr(calls, e), Erase(calls, body))
    case While(e, body) => While(EraseExpr(calls, e), Erase(calls, body))
    case If(arms, tail) => If(EraseArms(calls, arms), EraseTail(calls, tail))
    case Switch(e, arms, tail) => Switch(EraseExpr(calls, e), EraseArms(calls, arms), EraseTail(calls, tail))
    case InlineRust(_, sha256) => InlineRust(0, sha256)
    case _ => s
  }

  // ---- the canonical form ignores what is forgotten ---------------------------------------

  lemma {:induction false} ExprsIgnore(n: Numerals, es: seq<Expr>)
    ensures Exprs(n, EraseExprs(Merged, es)) == Exprs(n, es)
    decreases es
  {
    if |es| > 0 {
      ExprIgnores(n, es[0]);
      ExprsIgnore(n, es[1..]);
      assert EraseExprs(Merged, es)[1..] == EraseExprs(Merged, es[1..]);
    }
  }

  lemma {:induction false} ExprIgnores(n: Numerals, e: Expr)
    ensures OfExpr(n, EraseExpr(Merged, e)) == OfExpr(n, e)
    decreases e
  {
    match e
    case ArrayLit(items) => ExprsIgnore(n, items);
    case Index(a, i) =>
      ExprIgnores(n, a);
      ExprIgnores(n, i);
    case Slice(a, start, stop) =>
      ExprIgnores(n, a);
      if start.Some? {
        ExprIgnores(n, start.value);
      }
      if stop.Some? {
        ExprIgnores(n, stop.value);
      }
    case Unary(_, a) => ExprIgnores(n, a);
    case Binary(_, l, r) =>
      ExprIgnores(n, l);
      ExprIgnores(n, r);
    case Compare(_, l, r) =>
      ExprIgnores(n, l);
      ExprIgnores(n, r);
    case Logical(_, l, r) =>
      ExprIgnores(n, l);
      ExprIgnores(n, r);
    case Not(a) => ExprIgnores(n, a);
    case Call(_, args) => ExprsIgnore(n, args);
    case _ =>
  }

  lemma {:induction false} StmtsIgnore(n: Numerals, ss: seq<Stmt>)
    ensures Stmts(n, Erase(Merged, ss)) == Stmts(n, ss)
    decreases ss
  {
    hide OfStmt, EraseStmt;
    if |ss| > 0 {
      StmtIgnores(n, ss[0]);
      StmtsIgnore(n, ss[1..]);
      assert Erase(Merged, ss)[1..] == Erase(Merged, ss[1..]);
    }
  }

  lemma {:induction false} ArmsIgnore(n: Numerals, arms: seq<Arm>)
    ensures Arms(n, EraseArms(Merged, arms)) == Arms(n, arms)
    decreases arms
  {
    hide OfExpr, EraseExpr;
    if |arms| > 0 {
      ExprIgnores(n, arms[0].test);
      StmtsIgnore(n, arms[0].body);
      ArmsIgnore(n, arms[1..]);
      assert EraseArms(Merged, arms)[1..] == EraseArms(Merged, arms[1..]);
    }
  }

  lemma {:induction false} TailIgnores(n: Numerals, tail: Tail)
    ensures OfTail(n, EraseTail(Merged, tail)) == OfTail(n, tail)
    decreases tail
  {
    if tail.Tail? {
      StmtsIgnore(n, tail.body);
    }
  }

  lemma {:induction false} StmtIgnores(n: Numerals, s: Stmt)
    ensures OfStmt(n, EraseStmt(Merged, s)) == OfStmt(n, s)
    decreases s
  {
    hide OfExpr, EraseExpr;
    match s
    case Function(_, _, body) => StmtsIgnore(n, body);
    case Return(e) => ExprIgnores(n, e);
    case Assign(_, e) => ExprIgnores(n, e);
    case IndexAssign(_, i, e) =>
      ExprIgnores(n, i);
      ExprIgnores(n, e);
    case Expression(e) => ExprIgnores(n, e);
    case For(_, a, b, d, body) =>
      ExprIgnores(n, a);
      ExprIgnores(n, b);
      ExprIgnores(n, d);
      StmtsIgnore(n, body);
    case ForEach(_, e, body) =>
      ExprIgnores(n, e);
      StmtsIgnore(n, body);
    case While(e, body) =>
      ExprIgnores(n, e);
      StmtsIgnore(n, body);
    case If(arms, tail) =>
      ArmsIgnore(n, arms);
      TailIgnores(n, tail);
    case Switch(e, arms, tail) =>
      ExprIgnores(n, e);
      ArmsIgnore(n, arms);
      TailIgnores(n, tail);
    case _ =>
  }

  // ---- the canonical form keeps everything else -------------------------------------------

  /** A tag is told apart by its length and first letter. */
  function Key(j: CJ.Json): (nat, char) {
    if j.JArr? && |j.items| > 0 && j.items[0].JStr? && |j.items[0].text| > 0
    then (|j.items[0].text|, j.items[0].text[0]) else (0, ' ')
  }

  function ExprKey(e: Expr): (nat, char) {
    match e
    case Number(_) => (6, 'n')
    case BoolLit(_) => (4, 'b')
    case TextLit(_) => (6, 's')
    case Name(_, id) => if id.Some? then (8, 'c') else (4, 'n')
    case QuantityLit(_, _) => (8, 'q')
    case ArrayLit(_) => (5, 'a')
    case Index(_, _) => (5, 'i')
    case Slice(_, _, _) => (5, 's')
    case Unary(_, _) => (5, 'u')
    case Binary(_, _, _) => (6, 'b')
    case Compare(_, _, _) => (7, 'c')
    case Logical(_, _, _) => (7, 'l')
    case Not(_) => (3, 'n')
    case Call(_, _) => (4, 'c')
  }

  lemma ExprKeyIs(n: Numerals, e: Expr)
    ensures Key(OfExpr(n, e)) == ExprKey(e)
  {
  }

  lemma {:induction false} StrsInjective(a: seq<string>, b: seq<string>)
    requires Strs(a) == Strs(b)
    ensures a == b
  {
    if |a| > 0 {
      assert Strs(a)[0] == Strs(b)[0];
      assert Strs(a)[1..] == Strs(a[1..]) && Strs(b)[1..] == Strs(b[1..]);
      StrsInjective(a[1..], b[1..]);
      assert a == [a[0]] + a[1..] && b == [b[0]] + b[1..];
    }
  }

  lemma {:induction false} ExprsInjective(n: Numerals, a: seq<Expr>, b: seq<Expr>)
    requires Faithful(n) && Exprs(n, a) == Exprs(n, b)
    ensures EraseExprs(Merged, a) == EraseExprs(Merged, b)
    decreases a
  {
    hide OfExpr, EraseExpr, Faithful;
    if |a| > 0 {
      assert Exprs(n, a)[0] == Exprs(n, b)[0];
      assert Exprs(n, a)[1..] == Exprs(n, a[1..]) && Exprs(n, b)[1..] == Exprs(n, b[1..]);
      ExprInjective(n, a[0], b[0]);
      ExprsInjective(n, a[1..], b[1..]);
    }
  }

  lemma FloatInjective(n: Numerals, x: Double, y: Double)
    requires Faithful(n) && n.float(x) == n.float(y)
    ensures x == y
  {
  }

  lemma WholeInjective(n: Numerals, x: nat, y: nat)
    requires Faithful(n) && n.whole(x) == n.whole(y)
    ensures x == y
  {
  }

  lemma {:induction false} ExprInjective(n: Numerals, a: Expr, b: Expr)
    requires Faithful(n) && OfExpr(n, a) == OfExpr(n, b)
    ensures EraseExpr(Merged, a) == EraseExpr(Merged, b)
    decreases a, 2
  {
    hide Exprs, EraseExprs, Faithful;
    ExprKeyIs(n, a);
    ExprKeyIs(n, b);
    if a.Binary? || a.Compare? || a.Logical? {
      OperatorInjective(n, a, b);
    } else if a.Index? || a.Slice? || a.Unary? || a.Not? {
      AccessInjective(n, a, b);
    } else {
      var x, y := OfExpr(n, a).items, OfExpr(n, b).items;
      assert |x| == |y| && x[1] == y[1] && (|x| > 2 ==> x[2] == y[2]);
      match a
      case Number(_) => FloatInjective(n, a.value, b.value);
      case QuantityLit(_, _) => FloatInjective(n, a.value, b.value);
      case ArrayLit(items) => ExprsInjective(n, items, b.items);
      case Call(_, args) => ExprsInjective(n, args, b.args);
      case _ =>
    }
  }

  lemma {:induction false} OperatorInjective(n: Numerals, a: Expr, b: Expr)
    requires Faithful(n) && OfExpr(n, a) == OfExpr(n, b) && ExprKey(a) == ExprKey(b)
    requires a.Binary? || a.Compare? || a.Logical?
    ensures EraseExpr(Merged, a) == EraseExpr(Merged, b)
    decreases a, 0
  {
    hide Faithful;
    var x, y := OfExpr(n, a).items, OfExpr(n, b).items;
    assert x[1] == y[1] && x[2] == y[2] && x[3] == y[3];
    if a.Binary? {
      assert [a.op][0] == [b.op][0];
    }
    ExprInjective(n, a.left, b.left);
    ExprInjective(n, a.right, b.right);
  }

  lemma {:induction false} AccessInjective(n: Numerals, a: Expr, b: Expr)
    requires Faithful(n) && OfExpr(n, a) == OfExpr(n, b) && ExprKey(a) == ExprKey(b)
    requires a.Index? || a.Slice? || a.Unary? || a.Not?
    ensures EraseExpr(Merged, a) == EraseExpr(Merged, b)
    decreases a, 1
  {
    hide Faithful;
    var x, y := OfExpr(n, a).items, OfExpr(n, b).items;
    assert |x| == |y| && x[1] == y[1] && (|x| > 2 ==> x[2] == y[2]) && (|x| > 3 ==> x[3] == y[3]);
    if a.Index? {
      ExprInjective(n, a.base, b.base);
      ExprInjective(n, a.index, b.index);
    } else if a.Slice? {
      ExprInjective(n, a.base, b.base);
      OptionInjective(n, a, a.start, b.start);
      OptionInjective(n, a, a.stop, b.stop);
    } else {
      if a.Unary? {
        assert [a.op][0] == [b.op][0];
      }
      ExprInjective(n, a.operand, b.operand);
    }
  }

  lemma {:induction false} OptionInjective(n: Numerals, whole: Expr, a: Option<Expr>, b: Option<Expr>)
    requires Faithful(n) && (a.Some? ==> a.value < whole)
    requires (if a.Some? then OfExpr(n, a.value) else CJ.JNull) == (if b.Some? then OfExpr(n, b.value) else CJ.JNull)
    ensures a.Some? == b.Some? && (a.Some? ==> EraseExpr(Merged, a.value) == EraseExpr(Merged, b.value))
    decreases whole, 0
  {
    if a.Some? {
      ExprKeyIs(n, a.value);
    }
    if b.Some? {
      ExprKeyIs(n, b.value);
    }
    if a.Some? && b.Some? {
      ExprInjective(n, a.value, b.value);
    }
  }

  function StmtKey(s: Stmt): (nat, char) {
    match s
    case Import(_) => (6, 'i')
    case Directive(_) => (9, 'd')
    case NumericAudit(_) => (13, 'n')
    case LoopBudget(_) => (11, 'l')
    case Function(_, _, _) => (6, 'g')
    case Return(_) => (6, 'r')
    case Assign(_, _) => (6, 'a')
    case IndexAssign(_, _, _) => (12, 'i')
    case Expression(_) => (4, 'e')
    case Seal(_) => (4, 's')
    case For(_, _, _, _, _) => (3, 'f')
    case ForEach(_, _, _) => (8, 'f')
    case Break => (5, 'b')
    case Continue => (8, 'c')
    case While(_, _) => (5, 'w')
    case If(_, _) => (2, 'i')
    case Switch(_, _, _) => (6, 's')
    case InlineRust(_, _) => (11, 'i')
  }

  lemma StmtKeyIs(n: Numerals, s: Stmt)
    ensures Key(OfStmt(n, s)) == StmtKey(s)
  {
    hide OfExpr, Stmts, Arms, OfTail, Strs;
  }

  lemma {:induction false} StmtsInjective(n: Numerals, a: seq<Stmt>, b: seq<Stmt>)
    requires Faithful(n) && Stmts(n, a) == Stmts(n, b)
    ensures Erase(Merged, a) == Erase(Merged, b)
    decreases a
  {
    hide OfStmt, EraseStmt, Faithful;
    if |a| > 0 {
      assert Stmts(n, a)[0] == Stmts(n, b)[0];
      assert Stmts(n, a)[1..] == Stmts(n, a[1..]) && Stmts(n, b)[1..] == Stmts(n, b[1..]);
      StmtInjective(n, a[0], b[0]);
      StmtsInjective(n, a[1..], b[1..]);
    }
  }

  lemma {:induction false} ArmsInjective(n: Numerals, a: seq<Arm>, b: seq<Arm>)
    requires Faithful(n) && Arms(n, a) == Arms(n, b)
    ensures EraseArms(Merged, a) == EraseArms(Merged, b)
    decreases a
  {
    hide OfExpr, EraseExpr, Faithful, Stmts, Erase;
    if |a| > 0 {
      var x, y := Arms(n, a)[0], Arms(n, b)[0];
      assert x.items[0] == y.items[0] && x.items[1] == y.items[1];
      assert Arms(n, a)[1..] == Arms(n, a[1..]) && Arms(n, b)[1..] == Arms(n, b[1..]);
      ExprInjective(n, a[0].test, b[0].test);
      StmtsInjective(n, a[0].body, b[0].body);
      ArmsInjective(n, a[1..], b[1..]);
    }
  }

  lemma {:induction false} TailInjective(n: Numerals, a: Tail, b: Tail)
    requires Faithful(n) && OfTail(n, a) == OfTail(n, b)
    ensures EraseTail(Merged, a) == EraseTail(Merged, b)
    decreases a
  {
    hide Stmts, Erase, Faithful;
    if a.Tail? {
      StmtsInjective(n, a.body, b.body);
    }
  }

  lemma {:induction false} StmtInjective(n: Numerals, a: Stmt, b: Stmt)
    requires Faithful(n) && OfStmt(n, a) == OfStmt(n, b)
    ensures EraseStmt(Merged, a) == EraseStmt(Merged, b)
    decreases a, 1
  {
    hide OfExpr, EraseExpr, Stmts, Erase, Arms, EraseArms, OfTail, EraseTail, Strs, Faithful;
    StmtKeyIs(n, a);
    StmtKeyIs(n, b);
    if a.Function? || a.For? || a.ForEach? || a.While? || a.If? || a.Switch? {
      CompoundInjective(n, a, b);
    } else {
      var x, y := OfStmt(n, a).items, OfStmt(n, b).items;
      assert |x| == |y| && (|x| > 1 ==> x[1] == y[1]) && (|x| > 2 ==> x[2] == y[2]) && (|x| > 3 ==> x[3] == y[3]);
      match a
      case LoopBudget(_) => WholeInjective(n, a.budget, b.budget);
      case Return(e) => ExprInjective(n, e, b.expr);
      case Assign(_, e) => ExprInjective(n, e, b.expr);
      case IndexAssign(_, i, e) =>
        ExprInjective(n, i, b.index);
        ExprInjective(n, e, b.expr);
      case Expression(e) => ExprInjective(n, e, b.expr);
      case _ =>
    }
  }

  lemma {:induction false} CompoundInjective(n: Numerals, a: Stmt, b: Stmt)
    requires Faithful(n) && OfStmt(n, a) == OfStmt(n, b) && StmtKey(a) == StmtKey(b)
    requires a.Function? || a.For? || a.ForEach? || a.While? || a.If? || a.Switch?
    ensures EraseStmt(Merged, a) == EraseStmt(Merged, b)
    decreases a, 0
  {
    hide OfExpr, EraseExpr, Stmts, Erase, Arms, EraseArms, OfTail, EraseTail, Strs, Faithful;
    var x, y := OfStmt(n, a).items, OfStmt(n, b).items;
    assert |x| == |y| && x[1] == y[1] && x[2] == y[2] && (|x| > 3 ==> x[3] == y[3])
        && (|x| > 4 ==> x[4] == y[4]) && (|x| > 5 ==> x[5] == y[5]);
    match a
    case Function(_, params, body) =>
      StrsInjective(params, b.params);
      StmtsInjective(n, body, b.body);
    case For(_, _, _, _, body) =>
      ExprInjective(n, a.start, b.start);
      ExprInjective(n, a.stop, b.stop);
      ExprInjective(n, a.step, b.step);
      StmtsInjective(n, body, b.body);
    case ForEach(_, e, body) =>
      ExprInjective(n, e, b.iterable);
      StmtsInjective(n, body, b.body);
    case While(e, body) =>
      ExprInjective(n, e, b.condition);
      StmtsInjective(n, body, b.body);
    case If(arms, tail) =>
      ArmsInjective(n, arms, b.arms);
      TailInjective(n, tail, b.otherwise);
    case Switch(e, arms, tail) =>
      ExprInjective(n, e, b.selector);
      ArmsInjective(n, arms, b.arms);
      TailInjective(n, tail, b.otherwise);
  }

  // ---- canonical bytes --------------------------------------------------------------------

  lemma {:induction false} StrsPlain(ss: seq<string>)
    ensures CJ.WellFormed(Arr(Strs(ss))) && CR.Canonical(Arr(Strs(ss)))
  {
    if |ss| > 0 {
      StrsPlain(ss[1..]);
      assert Strs(ss)[1..] == Strs(ss[1..]);
    }
  }

  lemma ListPlain(items: seq<CJ.Json>)
    requires forall i | 0 <= i < |items| :: CJ.WellFormed(items[i]) && CR.Canonical(items[i])
    ensures CJ.WellFormed(Arr(items)) && CR.Canonical(Arr(items))
    decreases |items|
  {
    if |items| > 0 {
      ListPlain(items[1..]);
    }
  }

  lemma {:induction false} ExprsPlain(n: Numerals, es: seq<Expr>)
    requires Faithful(n)
    ensures CJ.WellFormed(Arr(Exprs(n, es))) && CR.Canonical(Arr(Exprs(n, es)))
    decreases es
  {
    hide OfExpr, Faithful;
    if |es| > 0 {
      ExprPlain(n, es[0]);
      ExprsPlain(n, es[1..]);
      assert Exprs(n, es)[1..] == Exprs(n, es[1..]);
    }
  }

  /** Canonical forms are arrays, strings, Booleans and numbers: no keys to sort. */
  lemma {:induction false} ExprPlain(n: Numerals, e: Expr)
    requires Faithful(n)
    ensures CJ.WellFormed(OfExpr(n, e)) && CR.Canonical(OfExpr(n, e))
    decreases e
  {
    hide CJ.WellFormed, CR.Canonical;
    LeafPlain();
    match e {
    case Number(x) => NumberPlain(n.float(x));
    case QuantityLit(x, _) => NumberPlain(n.float(x));
    case ArrayLit(items) => ExprsPlain(n, items);
    case Index(a, i) =>
      ExprPlain(n, a);
      ExprPlain(n, i);
    case Slice(a, start, stop) =>
      ExprPlain(n, a);
      if start.Some? {
        ExprPlain(n, start.value);
      }
      if stop.Some? {
        ExprPlain(n, stop.value);
      }
    case Unary(_, a) => ExprPlain(n, a);
    case Binary(_, l, r) =>
      ExprPlain(n, l);
      ExprPlain(n, r);
    case Compare(_, l, r) =>
      ExprPlain(n, l);
      ExprPlain(n, r);
    case Logical(_, l, r) =>
      ExprPlain(n, l);
      ExprPlain(n, r);
    case Not(a) => ExprPlain(n, a);
    case Call(_, args) => ExprsPlain(n, args);
    case _ =>
    }
    ListPlain(OfExpr(n, e).items);
  }

  lemma {:induction false} StmtsPlain(n: Numerals, ss: seq<Stmt>)
    requires Faithful(n)
    ensures CJ.WellFormed(Arr(Stmts(n, ss))) && CR.Canonical(Arr(Stmts(n, ss)))
    decreases ss
  {
    hide OfStmt, Faithful;
    if |ss| > 0 {
      StmtPlain(n, ss[0]);
      StmtsPlain(n, ss[1..]);
      assert Stmts(n, ss)[1..] == Stmts(n, ss[1..]);
    }
  }

  lemma {:induction false} ArmsPlain(n: Numerals, arms: seq<Arm>)
    requires Faithful(n)
    ensures CJ.WellFormed(Arr(Arms(n, arms))) && CR.Canonical(Arr(Arms(n, arms)))
    decreases arms
  {
    hide OfExpr, Stmts, Faithful;
    if |arms| > 0 {
      ExprPlain(n, arms[0].test);
      StmtsPlain(n, arms[0].body);
      ListPlain([OfExpr(n, arms[0].test), Arr(Stmts(n, arms[0].body))]);
      ArmsPlain(n, arms[1..]);
      assert Arms(n, arms)[1..] == Arms(n, arms[1..]);
    }
  }

  lemma {:induction false} TailPlain(n: Numerals, tail: Tail)
    requires Faithful(n)
    ensures CJ.WellFormed(OfTail(n, tail)) && CR.Canonical(OfTail(n, tail))
    decreases tail
  {
    if tail.Tail? {
      StmtsPlain(n, tail.body);
    }
  }

  lemma {:induction false} StmtPlain(n: Numerals, s: Stmt)
    requires Faithful(n)
    ensures CJ.WellFormed(OfStmt(n, s)) && CR.Canonical(OfStmt(n, s))
    decreases s, 1
  {
    hide CJ.WellFormed, CR.Canonical, OfExpr, Stmts, Arms, OfTail, Strs;
    LeafPlain();
    if s.For? || s.ForEach? || s.While? || s.If? || s.Switch? {
      CompoundPlain(n, s);
    } else {
      match s {
        case LoopBudget(budget) => NumberPlain(n.whole(budget));
        case Function(_, params, body) =>
          StrsPlain(params);
          StmtsPlain(n, body);
        case Return(e) => ExprPlain(n, e);
        case Assign(_, e) => ExprPlain(n, e);
        case IndexAssign(_, i, e) =>
          ExprPlain(n, i);
          ExprPlain(n, e);
        case Expression(e) => ExprPlain(n, e);
        case _ =>
      }
      ListPlain(OfStmt(n, s).items);
    }
  }

  lemma {:induction false} CompoundPlain(n: Numerals, s: Stmt)
    requires Faithful(n) && (s.For? || s.ForEach? || s.While? || s.If? || s.Switch?)
    ensures CJ.WellFormed(OfStmt(n, s)) && CR.Canonical(OfStmt(n, s))
    decreases s, 0
  {
    hide CJ.WellFormed, CR.Canonical, OfExpr, Stmts, Arms, OfTail, Strs, Faithful;
    LeafPlain();
    match s {
      case For(_, a, b, d, body) =>
        ExprPlain(n, a);
        ExprPlain(n, b);
        ExprPlain(n, d);
        StmtsPlain(n, body);
      case ForEach(_, e, body) =>
        ExprPlain(n, e);
        StmtsPlain(n, body);
      case While(e, body) =>
        ExprPlain(n, e);
        StmtsPlain(n, body);
      case If(arms, tail) =>
        ArmsPlain(n, arms);
        TailPlain(n, tail);
      case Switch(e, arms, tail) =>
        ExprPlain(n, e);
        ArmsPlain(n, arms);
        TailPlain(n, tail);
    }
    ListPlain(OfStmt(n, s).items);
  }

  lemma ProgramPlain(n: Numerals, p: Program)
    requires Faithful(n)
    ensures CJ.WellFormed(OfProgram(n, p)) && CR.Canonical(OfProgram(n, p))
  {
    hide CJ.WellFormed, CR.Canonical, Stmts, Faithful;
    LeafPlain();
    StmtsPlain(n, p);
    ListPlain(OfProgram(n, p).items);
  }

  /** Programs share their canonical bytes exactly when they are the same up to the alias of a
      constant, print against printf, and the index of an inline block. */
  lemma CanonicalBytesExact(n: Numerals, p: Program, q: Program)
    requires Faithful(n)
    ensures CanonicalBytes(n, p) == CanonicalBytes(n, q) <==> Erase(Merged, p) == Erase(Merged, q)
  {
    hide CJ.WellFormed, CR.Canonical, CJ.Write, CM.Meaning, Stmts, Erase, Faithful;
    ProgramPlain(n, p);
    ProgramPlain(n, q);
    if CanonicalBytes(n, p) == CanonicalBytes(n, q) {
      CM.SameBytesSameMeaning(OfProgram(n, p), OfProgram(n, q));
      CM.MeaningDetermines(OfProgram(n, p), OfProgram(n, q));
      assert OfProgram(n, p).items[1] == OfProgram(n, q).items[1];
      StmtsInjective(n, p, q);
    }
    if Erase(Merged, p) == Erase(Merged, q) {
      StmtsIgnore(n, p);
      StmtsIgnore(n, q);
    }
  }

  lemma LeafPlain()
    ensures forall s :: CJ.WellFormed(Str(s)) && CR.Canonical(Str(s))
    ensures CJ.WellFormed(CJ.JNull) && CR.Canonical(CJ.JNull)
    ensures forall b :: CJ.WellFormed(CJ.JBool(b)) && CR.Canonical(CJ.JBool(b))
  {
  }

  lemma NumberPlain(token: string)
    requires CJ.NumberToken(token)
    ensures CJ.WellFormed(CJ.JNum(token)) && CR.Canonical(CJ.JNum(token))
  {
  }
}
