/** Syntactic scans: the call names a program mentions, the data and confidentiality scans of
    src/compiler.rs and src/confidential.rs, and the assignment scan of src/mad.rs. */
module Scans {
  import opened Prelude
  import opened Ast
  import opened Values
  import I = Interpreter

  // ---- call names -------------------------------------------------------------------------

  function ExprsCalls(es: seq<Expr>): set<string>
    decreases es
  {
    if |es| == 0 then {} else ExprCalls(es[0]) + ExprsCalls(es[1..])
  }

  function ExprCalls(e: Expr): set<string>
    decreases e
  {
    match e
    case ArrayLit(items) => ExprsCalls(items)
    case Index(a, i) => ExprCalls(a) + ExprCalls(i)
    case Slice(a, start, stop) =>
      ExprCalls(a)
      + (if start.Some? then ExprCalls(start.value) else {})
      + (if stop.Some? then ExprCalls(stop.value) else {})
    case Unary(_, a) => ExprCalls(a)
    case Binary(_, l, r) => ExprCalls(l) + ExprCalls(r)
    case Compare(_, l, r) => ExprCalls(l) + ExprCalls(r)
    case Logical(_, l, r) => ExprCalls(l) + ExprCalls(r)
    case Not(a) => ExprCalls(a)
    case Call(name, args) => {name} + ExprsCalls(args)
    case _ => {}
  }

  function StmtsCalls(ss: seq<Stmt>): set<string>
    decreases ss
  {
    if |ss| == 0 then {} else StmtCalls(ss[0]) + StmtsCalls(ss[1..])
  }

  function ArmsCalls(arms: seq<Arm>): set<string>
    decreases arms
  {
    if |arms| == 0 then {} else ExprCalls(arms[0].test) + StmtsCalls(arms[0].body) + ArmsCalls(arms[1..])
  }

  function StmtCalls(s: Stmt): set<string>
    decreases s
  {
    match s
    case Function(_, _, body) => StmtsCalls(body)
    case Return(e) => ExprCalls(e)
    case Assign(_, e) => ExprCalls(e)
    case Expression(e) => ExprCalls(e)
    case IndexAssign(_, i, e) => ExprCalls(i) + ExprCalls(e)
    case For(_, a, b, d, body) => ExprCalls(a) + ExprCalls(b) + ExprCalls(d) + StmtsCalls(body)
    case ForEach(_, e, body) => ExprCalls(e) + StmtsCalls(body)
    case While(e, body) => ExprCalls(e) + StmtsCalls(body)
    case If(arms, otherwise) => ArmsCalls(arms) + (if otherwise.Tail? then StmtsCalls(otherwise.body) else {})
    case Switch(e, arms, otherwise) =>
      ExprCalls(e) + ArmsCalls(arms) + (if otherwise.Tail? then StmtsCalls(otherwise.body) else {})
    case _ => {}
  }

  lemma {:induction false} ArmCalls(arms: seq<Arm>, k: nat)
    requires k < |arms|
    ensures ExprCalls(arms[k].test) <= ArmsCalls(arms)
    ensures StmtsCalls(arms[k].body) <= ArmsCalls(arms)
  {
    if k > 0 {
      ArmCalls(arms[1..], k - 1);
    }
  }

  lemma {:induction false} OperandCalls(e: Expr)
    requires I.IsStrict(e)
    ensures ExprsCalls(I.Operands(e)) == ExprCalls(e)
  {
    match e
    case ArrayLit(items) =>
    case Index(a, i) => assert ExprsCalls([a, i][1..]) == ExprCalls(i) by { assert [a, i][1..] == [i]; }
    case Unary(_, a) => assert ExprsCalls([a]) == ExprCalls(a);
    case Binary(_, l, r) => assert ExprsCalls([l, r][1..]) == ExprCalls(r) by { assert [l, r][1..] == [r]; }
    case Compare(_, l, r) => assert ExprsCalls([l, r][1..]) == ExprCalls(r) by { assert [l, r][1..] == [r]; }
    case Not(a) => assert ExprsCalls([a]) == ExprCalls(a);
  }

  /** All the bodies of the user functions stay within `allowed`. */
  ghost predicate FunctionsCall(funcs: map<string, I.Func>, allowed: set<string>) {
    forall name | name in funcs :: StmtsCalls(funcs[name].body) <= allowed
  }

  lemma {:induction false} ProgramFunctionCalls(p: Program)
    ensures FunctionsCall(I.Functions(p), StmtsCalls(p))
  {
    if |p| > 0 {
      ProgramFunctionCalls(p[1..]);
    }
  }

  // ---- seals ------------------------------------------------------------------------------

  predicate SealFree(ss: seq<Stmt>)
    decreases ss
  {
    |ss| > 0 ==> SealFreeStmt(ss[0]) && SealFree(ss[1..])
  }

  predicate SealFreeArms(arms: seq<Arm>)
    decreases arms
  {
    |arms| > 0 ==> SealFree(arms[0].body) && SealFreeArms(arms[1..])
  }

  predicate SealFreeStmt(s: Stmt)
    decreases s
  {
    match s
    case Seal(_) => false
    case For(_, _, _, _, body) => SealFree(body)
    case ForEach(_, _, body) => SealFree(body)
    case While(_, body) => SealFree(body)
    case If(arms, otherwise) => SealFreeArms(arms) && (otherwise.Tail? ==> SealFree(otherwise.body))
    case Switch(_, arms, otherwise) => SealFreeArms(arms) && (otherwise.Tail? ==> SealFree(otherwise.body))
    case _ => true
  }

  lemma {:induction false} SealFreeArm(arms: seq<Arm>, k: nat)
    requires SealFreeArms(arms) && k < |arms|
    ensures SealFree(arms[k].body)
  {
    if k > 0 {
      SealFreeArm(arms[1..], k - 1);
    }
  }

  predicate SealFreeFunctions(funcs: map<string, I.Func>) {
    forall name | name in funcs :: SealFree(funcs[name].body)
  }

  // ---- assignments ------------------------------------------------------------------------

  /** `assignments` of src/mad.rs, as the set it collects; function bodies are not entered. */
  function Assigned(ss: seq<Stmt>): set<string>
    decreases ss
  {
    if |ss| == 0 then {} else AssignedBy(ss[0]) + Assigned(ss[1..])
  }

  function AssignedInArms(arms: seq<Arm>): set<string>
    decreases arms
  {
    if |arms| == 0 then {} else Assigned(arms[0].body) + AssignedInArms(arms[1..])
  }

  function AssignedBy(s: Stmt): set<string>
    decreases s
  {
    match s
    case Assign(name, _) => {name}
    case For(_, _, _, _, body) => Assigned(body)
    case ForEach(_, _, body) => Assigned(body)
    case While(_, body) => Assigned(body)
    case If(arms, otherwise) => AssignedInArms(arms) + (if otherwise.Tail? then Assigned(otherwise.body) else {})
    case Switch(_, arms, otherwise) => AssignedInArms(arms) + (if otherwise.Tail? then Assigned(otherwise.body) else {})
    case _ => {}
  }

  lemma {:induction false} ArmAssigned(arms: seq<Arm>, k: nat)
    requires k < |arms|
    ensures Assigned(arms[k].body) <= AssignedInArms(arms)
  {
    if k > 0 {
      ArmAssigned(arms[1..], k - 1);
    }
  }
}
