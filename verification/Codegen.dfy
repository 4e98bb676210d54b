/** src/compiler.rs `generate_expr`, `generate_statements` and `generate`: from syntax trees to the
    target language. `None` is a compile-time refusal. */
module Codegen {
  import opened Prelude
  import opened Ast
  import opened Values
  import opened Native
  import I = Interpreter

  // ---- expressions ------------------------------------------------------------------------

  function GenExprs(m: Machine, es: seq<Expr>): (r: Option<seq<NExpr>>)
    ensures r.Some? ==> |r.value| == |es|
    decreases es
  {
    if |es| == 0 then Some([])
    else
      var first, rest := GenExpr(m, es[0]), GenExprs(m, es[1..]);
      if first.None? || rest.None? then None else Some([first.value] + rest.value)
  }

  function Wrap1(op: Op, x: Option<NExpr>): Option<NExpr> {
    if x.None? then None else Some(NOp(op, [x.value]))
  }

  function Wrap2(op: Op, x: Option<NExpr>, y: Option<NExpr>): Option<NExpr> {
    if x.None? || y.None? then None else Some(NOp(op, [x.value, y.value]))
  }

  function GenExpr(m: Machine, e: Expr): Option<NExpr>
    decreases e
  {
    match e
    case Number(n) => Some(NNumber(n))
    case BoolLit(b) => Some(NBool(b))
    case TextLit(t) => Some(NText(t))
    case QuantityLit(n, unit) => if m.unitKnown(unit) then Some(NQuantity(n, unit)) else None
    case ArrayLit(items) =>
      var xs := GenExprs(m, items);
      if xs.None? then None else Some(NLiteral(xs.value))
    case Index(a, i) =>
      Wrap2(ArrayGet, GenExpr(m, a), GenExpr(m, i))
    case Slice(a, start, stop) =>
      var x := GenExpr(m, a);
      var from := if start.Some? then GenExpr(m, start.value) else None;
      var to := if stop.Some? then GenExpr(m, stop.value) else None;
      if x.None? || (start.Some? && from.None?) || (stop.Some? && to.None?) then None
      else Some(NSlice(x.value, from, to))
    case Name(source, id) =>
      if id.Some? then
        if m.constant(id.value).Some? then Some(NConstant(m.constant(id.value).value)) else None
      else if source == "argc" then Some(NArgc)
      else Some(NGet(source))
    case Unary(op, a) => Wrap1(UnaryOp(op), GenExpr(m, a))
    case Binary(op, l, r) =>
      Wrap2(BinaryOp(op), GenExpr(m, l), GenExpr(m, r))
    case Compare(op, l, r) =>
      Wrap2(CompareOp(op), GenExpr(m, l), GenExpr(m, r))
    case Logical(op, l, r) =>
      var x, y := GenExpr(m, l), GenExpr(m, r);
      if x.None? || y.None? then None
      else if op == "and" then Some(NAnd(x.value, y.value))
      else if op == "or" then Some(NOr(x.value, y.value))
      else None
    case Not(a) => Wrap1(NotOp, GenExpr(m, a))
    case Call(name, args) =>
      var xs := GenExprs(m, args);
      if xs.None? then None else GenCall(m, name, xs.value)
  }

  /** The arms of `generate_expr` for calls, in the source's order. */
  function GenCall(m: Machine, name: string, xs: seq<NExpr>): Option<NExpr> {
    if m.library(name).Data? then
      if m.earlyArity(name) && !m.arity(name, |xs|) then None else Some(NData(name, xs))
    else if name == "argv" then if |xs| == 1 then Some(NOp(ArgvOp, xs)) else None
    else if name == "len" then if |xs| == 1 then Some(NOp(LenOp, xs)) else None
    else if m.library(name).Shared? then Some(NOp(LibraryOp(name), xs))
    else if name == "append" then if |xs| == 2 then Some(NOp(AppendOp, xs)) else None
    else if name == "input" then
      if |xs| > 1 then None
      else Some(NOp(InputOp, if |xs| == 1 then xs else [NPlainText("")]))
    else Some(NCall(name, xs))
  }

  // ---- statements -------------------------------------------------------------------------

  function Then(a: Option<seq<NStmt>>, b: Option<seq<NStmt>>): Option<seq<NStmt>> {
    if a.None? || b.None? then None else Some(a.value + b.value)
  }

  function GenStmts(m: Machine, ss: seq<Stmt>, track: bool): Option<seq<NStmt>>
    decreases ss
  {
    if |ss| == 0 then Some([]) else Then(GenStmt(m, ss[0], track), GenStmts(m, ss[1..], track))
  }

  function GenStmt(m: Machine, s: Stmt, track: bool): Option<seq<NStmt>>
    decreases s
  {
    match s
    case Import(_) => None
    case Function(_, _, _) => Some([])
    case LoopBudget(_) => Some([])
    case NumericAudit(_) => Some([])
    case Directive(word) => if word == "GO_PRIVATE" then Some([NBanner]) else Some([])
    case Break => Some([NBreak])
    case Continue => Some([NContinue])
    case InlineRust(block, _) => Some([NInline(block)])
    case Return(e) => GenUse(m, e, x => NReturn(x))
    case Assign(name, e) =>
      Then(GenUse(m, e, x => NLet("value", x)),
           Some([NInsert(name, "value")] + if track then [NRecord(name)] else []))
    case IndexAssign(name, index, e) =>
      var i, x := GenExpr(m, index), GenExpr(m, e);
      if i.None? || x.None? then None else Some([NArraySet(name, i.value, x.value)])
    case Expression(e) => GenExpression(m, e)
    case Seal(name) => GenUse(m, Name(name, m.constantId(name)), x => NSeal(name, x))
    case For(variable, start, stop, step, body) =>
      GenFor(m, variable, GenExpr(m, start), GenExpr(m, stop), GenExpr(m, step), GenStmts(m, body, track))
    case ForEach(variable, iterable, body) =>
      GenForEach(variable, GenExpr(m, iterable), GenStmts(m, body, track))
    case While(test, body) => GenWhile(GenExpr(m, test), GenStmts(m, body, track))
    case If(arms, otherwise) =>
      if |arms| == 0 && otherwise.Tail? then None else GenIf(m, s, 0, track)
    case Switch(selector, arms, otherwise) =>
      var x, cases := GenExpr(m, selector), GenCases(m, s, 0, track);
      if x.None? || cases.None? then None
      else Some([NBlock([NLet("switch_value", x.value), NLetFlag("switch_matched", false)] + cases.value)])
  }

  function GenUse(m: Machine, e: Expr, wrap: NExpr -> NStmt): Option<seq<NStmt>> {
    var x := GenExpr(m, e);
    if x.None? then None else Some([wrap(x.value)])
  }

  /** Statement-position calls of print and printf have their own emitted form. */
  function GenExpression(m: Machine, e: Expr): Option<seq<NStmt>> {
    if e.Call? && e.name == "print" then
      var xs := GenExprs(m, e.args);
      if xs.None? then None else Some([NPrint(xs.value)])
    else if e.Call? && e.name == "printf" then
      var xs := GenExprs(m, e.args);
      if xs.None? then None else Some([NPrintf(xs.value)])
    else GenUse(m, e, x => NDiscard(x))
  }

  /** The range loop: the index moves on before the body, so that `continue` is safe. */
  function GenFor(m: Machine, variable: string, start: Option<NExpr>, stop: Option<NExpr>, step: Option<NExpr>,
                  body: Option<seq<NStmt>>): Option<seq<NStmt>> {
    if start.None? || stop.None? || step.None? || body.None? then None
    else Some([NBlock([
      NLetRange("start", start.value),
      NLetRange("stop", stop.value),
      NLetRange("step", step.value),
      NRefuseZero("step"),
      NLetCopy("index", "start"),
      NWhileRange(RangeBody(variable, body.value))])])
  }

  function RangeBody(variable: string, body: seq<NStmt>): seq<NStmt> {
    [NTick, NInsertIndex(variable, "index"), NAdvance("index", "step")] + body
  }

  function GenForEach(variable: string, iterable: Option<NExpr>, body: Option<seq<NStmt>>): Option<seq<NStmt>> {
    if iterable.None? || body.None? then None
    else Some([NBlock([
      NLet("iterable", iterable.value),
      NLetItems("items", "iterable"),
      NForIn("item", "items", ItemBody(variable, body.value))])])
  }

  function ItemBody(variable: string, body: seq<NStmt>): seq<NStmt> {
    [NTick, NInsert(variable, "item")] + body
  }

  function GenWhile(test: Option<NExpr>, body: Option<seq<NStmt>>): Option<seq<NStmt>> {
    if test.None? || body.None? then None else Some([NLoop(WhileBody(test.value, body.value))])
  }

  function WhileBody(test: NExpr, body: seq<NStmt>): seq<NStmt> {
    [NBreakUnless(test), NTick] + body
  }

  function GenTail(m: Machine, s: Stmt, track: bool): Option<seq<NStmt>>
    requires s.If? || s.Switch?
    decreases s, 0
  {
    match s.otherwise
    case NoTail => Some([])
    case Tail(body) => GenStmts(m, body, track)
  }

  /** `if … else if … else …` from arm `k` on. */
  function GenIf(m: Machine, s: Stmt, k: nat, track: bool): Option<seq<NStmt>>
    requires s.If? && k <= |s.arms|
    decreases s, |s.arms| - k + 1
  {
    if k == |s.arms| then GenTail(m, s, track)
    else
      var test, body, rest := GenExpr(m, s.arms[k].test), GenStmts(m, s.arms[k].body, track), GenIf(m, s, k + 1, track);
      if test.None? || body.None? || rest.None? then None
      else Some([NIf(test.value, body.value, rest.value)])
  }

  /** The switch arms from case `k` on: each is tried while nothing has matched. */
  function GenCases(m: Machine, s: Stmt, k: nat, track: bool): Option<seq<NStmt>>
    requires s.Switch? && k <= |s.arms|
    decreases s, |s.arms| - k + 1
  {
    if k == |s.arms| then
      match s.otherwise
      case NoTail => Some([])
      case Tail(_) =>
        var body := GenTail(m, s, track);
        if body.None? then None else Some([NIfUnset("switch_matched", body.value)])
    else
      var test, body, rest := GenExpr(m, s.arms[k].test), GenStmts(m, s.arms[k].body, track), GenCases(m, s, k + 1, track);
      if test.None? || body.None? || rest.None? then None
      else Some([CaseArm(test.value, body.value)] + rest.value)
  }

  function CaseArm(test: NExpr, body: seq<NStmt>): NStmt {
    NIfUnset("switch_matched", [
      NLet("case_value", test),
      NIfEqual("switch_value", "case_value", [NSetFlag("switch_matched", true)] + body)])
  }

  // ---- programs ---------------------------------------------------------------------------

  /** The arms of the emitted `goblin_call`; of two arms for one name the first would win. */
  function GenFunctions(m: Machine, p: Program): Option<map<string, NFunc>> {
    if |p| == 0 then Some(map[])
    else
      var rest := GenFunctions(m, p[1..]);
      if rest.None? then None
      else if !p[0].Function? then rest
      else
        var body := GenStmts(m, p[0].body, false);
        if body.None? then None else Some(rest.value[p[0].name := NFunc(p[0].params, body.value)])
  }

  function Generate(m: Machine, p: Program): Option<NProgram> {
    var mad := I.Declares(p, "COMPLETELY_MAD");
    var funcs, main := GenFunctions(m, p), GenStmts(m, p, mad);
    if funcs.None? || main.None? then None
    else Some(NProgram(m, funcs.value, main.value, I.BudgetOf(p), mad))
  }

  /** `generate_statements` as the source runs it: statements appended to one growing body. */
  method GenerateStatements(m: Machine, ss: seq<Stmt>, track: bool) returns (body: Option<seq<NStmt>>)
    ensures body == GenStmts(m, ss, track)
  {
    var emitted: seq<NStmt> := [];
    assert ss[0..] == ss;
    assert GenStmts(m, ss, track).Some? ==> [] + GenStmts(m, ss, track).value == GenStmts(m, ss, track).value;
    for i := 0 to |ss|
      invariant GenStmts(m, ss, track) == Then(Some(emitted), GenStmts(m, ss[i..], track))
    {
      assert ss[i..][0] == ss[i] && ss[i..][1..] == ss[i + 1..];
      var next := GenStmt(m, ss[i], track);
      if next.None? {
        return None;
      }
      if GenStmts(m, ss[i + 1..], track).Some? {
        assert emitted + (next.value + GenStmts(m, ss[i + 1..], track).value)
            == (emitted + next.value) + GenStmts(m, ss[i + 1..], track).value;
      }
      emitted := emitted + next.value;
    }
    assert ss[|ss|..] == [];
    assert emitted + [] == emitted;
    body := Some(emitted);
  }
}
