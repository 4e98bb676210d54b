/** `Evaluation` of src/evaluator.rs as the mutable object it is. Every method is proved to do, to the
    fields and in its result, what the corresponding function of `Interpreter` says. */
module EvaluationObject {
  import opened Prelude
  import opened Ast
  import opened Values
  import opened Interpreter
  import I = Interpreter

  datatype ExecFlow = NormalFlow | BreakLoop | ContinueLoop | ReturnFlow

  /** An `ExecFlow` together with the return slot it relies on. */
  function AsFlow(r: Res<ExecFlow>, slot: Option<Value>): Res<Flow> {
    match r
    case Err => Err
    case Ok(NormalFlow) => Ok(Normal)
    case Ok(BreakLoop) => Ok(Broke)
    case Ok(ContinueLoop) => Ok(Continued)
    case Ok(ReturnFlow) => if slot.Some? then Ok(Returned(slot.value)) else Err
  }

  /** Values already collected, in front of the rest. */
  function Prepend(vs: seq<Value>, r: Out<seq<Value>>): Out<seq<Value>> {
    if r.res.Err? then Out(r.st, Err) else Out(r.st, Ok(vs + r.res.value))
  }

  class Evaluation {
    const c: Context
    var env: map<string, Value>
    var stdout: seq<string>
    var sealed: map<string, Value>
    var finalStateNames: set<string>
    var loopIterations: nat
    var functionDepth: nat
    var returnValue: Option<Value>
    var world: World
    ghost var called: set<string>
    ghost var exprPrints: nat

    /** The fields as an interpreter state; the return slot is not part of it. */
    ghost function Abs(): State
      reads this
    {
      State(env, stdout, sealed, finalStateNames, loopIterations, functionDepth, world, called, exprPrints)
    }

    ghost predicate Valid()
      reads this
    {
      Within(c, Abs())
    }

    /** `Evaluation::new` followed by `register_functions`. */
    constructor (m: Machine, p: Program, w: World)
      ensures Valid() && Abs() == InitialState(w) && c == ContextOf(m, p) && returnValue == None
    {
      c := ContextOf(m, p);
      env, stdout, sealed := map[], [], map[];
      finalStateNames, loopIterations, functionDepth := {}, 0, 0;
      returnValue, world := None, w;
      called, exprPrints := {}, 0;
    }

    // ---- expressions ----------------------------------------------------------------------

    method EvalExpr(e: Expr) returns (r: Res<Value>)
      requires Valid()
      modifies this
      ensures Valid() && Out(Abs(), r) == I.EvalExpr(c, e, old(Abs()))
      ensures returnValue == old(returnValue)
      decreases MAX_FUNCTION_DEPTH - functionDepth, e
    {
      if IsLeaf(e) {
        r := Leaf(c.m, env, e);
      } else if IsStrict(e) {
        r := EvalStrict(e);
      } else if e.Slice? {
        r := EvalSlice(e);
      } else if e.Logical? {
        r := EvalLogical(e);
      } else {
        r := EvalCall(e);
      }
    }

    /** `eval_args`: left to right, stopping at the first refusal. */
    method EvalArgs(ghost whole: Expr, args: seq<Expr>) returns (r: Res<seq<Value>>)
      requires Valid() && forall a | a in args :: a < whole
      modifies this
      ensures Valid() && Out(Abs(), r) == I.EvalArgs(c, whole, args, old(Abs()))
      ensures returnValue == old(returnValue)
      decreases MAX_FUNCTION_DEPTH - functionDepth, whole, |args|
    {
      hide I.EvalExpr;
      var values: seq<Value> := [];
      assert args[0..] == args;
      assert I.EvalArgs(c, whole, args, Abs()) == Prepend([], I.EvalArgs(c, whole, args, Abs())) by {
        PrependNothing(I.EvalArgs(c, whole, args, Abs()));
      }
      for i := 0 to |args|
        invariant Valid() && functionDepth == old(functionDepth) && returnValue == old(returnValue)
        invariant forall a | a in args[i..] :: a < whole
        invariant I.EvalArgs(c, whole, args, old(Abs())) == Prepend(values, I.EvalArgs(c, whole, args[i..], Abs()))
      {
        assert args[i..][0] == args[i] && args[i..][1..] == args[i + 1..];
        assert args[i] in args[i..];
        ghost var before := Abs();
        var v := EvalExpr(args[i]);
        ArgsStep(c, whole, args[i..], values, before);
        if v.Err? {
          return Err;
        }
        values := values + [v.value];
      }
      assert args[|args|..] == [];
      assert values + [] == values;
      r := Ok(values);
    }

    method EvalStrict(e: Expr) returns (r: Res<Value>)
      requires Valid() && IsStrict(e)
      modifies this
      ensures Valid() && Out(Abs(), r) == I.EvalStrict(c, e, old(Abs()))
      ensures returnValue == old(returnValue)
      decreases MAX_FUNCTION_DEPTH - functionDepth, e, |Operands(e)| + 1
    {
      hide I.EvalArgs, Apply;
      if e.ArrayLit? && |e.items| > MAX_ARRAY_ITEMS {
        return Err;
      }
      var args := EvalArgs(e, Operands(e));
      r := if args.Err? then Err else Apply(c.m, e, args.value);
    }

    method EvalBound(ghost whole: Expr, bound: Option<Expr>, default: nat) returns (r: Res<nat>)
      requires Valid() && (bound.Some? ==> bound.value < whole)
      modifies this
      ensures Valid() && Out(Abs(), r) == I.EvalBound(c, whole, bound, default, old(Abs()))
      ensures returnValue == old(returnValue)
      decreases MAX_FUNCTION_DEPTH - functionDepth, whole, 0
    {
      hide I.EvalExpr;
      if bound.None? {
        return Ok(default);
      }
      var v := EvalExpr(bound.value);
      r := if v.Err? then Err else ArrayIndex(v.value);
    }

    method EvalSlice(e: Expr) returns (r: Res<Value>)
      requires Valid() && e.Slice?
      modifies this
      ensures Valid() && Out(Abs(), r) == I.EvalSlice(c, e, old(Abs()))
      ensures returnValue == old(returnValue)
      decreases MAX_FUNCTION_DEPTH - functionDepth, e, 1
    {
      hide I.EvalExpr, I.EvalBound;
      var base := EvalExpr(e.base);
      if base.Err? || !base.value.Array? {
        return Err;
      }
      var items := base.value.items;
      var start := EvalBound(e, e.start, 0);
      if start.Err? {
        return Err;
      }
      var stop := EvalBound(e, e.stop, |items|);
      if stop.Err? || start.value > stop.value || stop.value > |items| {
        return Err;
      }
      r := Ok(Array(items[start.value..stop.value]));
    }

    method EvalLogical(e: Expr) returns (r: Res<Value>)
      requires Valid() && e.Logical?
      modifies this
      ensures Valid() && Out(Abs(), r) == I.EvalLogical(c, e, old(Abs()))
      ensures returnValue == old(returnValue)
      decreases MAX_FUNCTION_DEPTH - functionDepth, e, 1
    {
      hide I.EvalExpr;
      var left := EvalExpr(e.left);
      if left.Err? || !left.value.Bool? {
        return Err;
      }
      if e.logic == "and" && !left.value.b {
        return Ok(Bool(false));
      }
      if e.logic == "or" && left.value.b {
        return Ok(Bool(true));
      }
      if e.logic != "and" && e.logic != "or" {
        return Err;
      }
      var right := EvalExpr(e.right);
      r := if right.Err? || !right.value.Bool? then Err else Ok(Bool(right.value.b));
    }

    /** `eval_call`: user functions first; arity before any argument is evaluated. */
    method EvalCall(e: Expr) returns (r: Res<Value>)
      requires Valid() && e.Call?
      modifies this
      ensures Valid() && Out(Abs(), r) == I.EvalCall(c, e, old(Abs()))
      ensures returnValue == old(returnValue)
      decreases MAX_FUNCTION_DEPTH - functionDepth, e, |e.args| + 1
    {
      hide I.EvalArgs, RunFunction, CallBuiltin;
      called := called + {e.name};
      if !CallAllowed(c, e.name, |e.args|, functionDepth) {
        return Err;
      }
      var args := EvalArgs(e, e.args);
      if args.Err? {
        return Err;
      }
      if e.name in c.funcs {
        r := EvalUserFunction(e, args.value);
      } else {
        r := EvalBuiltinCall(e.name, args.value);
      }
    }

    /** `eval_builtin_call`: the core builtins change stdout and the world, and nothing else. */
    method EvalBuiltinCall(name: string, vs: seq<Value>) returns (r: Res<Value>)
      requires Valid() && ArityOk(c.m, name, |vs|)
      modifies this
      ensures Valid() && Out(Abs(), r) == CallBuiltin(c, name, vs, old(Abs()))
      ensures returnValue == old(returnValue)
    {
      if c.secret && c.m.library(name).Data? && !c.m.confidential(name) {
        return Err;
      }
      if c.m.confidential(name) && !c.secret {
        return Err;
      }
      if name == "len" {
        r := LengthOf(vs[0]);
      } else if name == "append" {
        r := AppendValue(vs[0], vs[1]);
      } else if name == "argv" {
        r := Argument(c.m, vs[0]);
      } else if name == "input" {
        var answer := AskInput(c.m, vs, world);
        if answer.Err? {
          return Err;
        }
        world := answer.value.1;
        r := Ok(Text(answer.value.0));
      } else if name == "print" {
        stdout := stdout + [PrintLine(c.m, vs)];
        exprPrints := exprPrints + 1;
        r := Ok(Scalar(0.0));
      } else if name == "printf" {
        var line := PrintfLine(c.m, vs);
        if line.Err? {
          return Err;
        }
        stdout := stdout + [line.value];
        exprPrints := exprPrints + 1;
        r := Ok(Scalar(0.0));
      } else if c.m.library(name).Absent? {
        r := Err;
      } else {
        var answer := c.m.builtin(name, vs, world);
        if answer.None? {
          return Err;
        }
        world := answer.value.1;
        r := Ok(answer.value.0);
      }
    }

    /** `eval_user_function` on evaluated arguments: the environment, the return slot and the depth
        are put back whatever the body does. */
    method EvalUserFunction(e: Expr, vs: seq<Value>) returns (r: Res<Value>)
      requires Valid() && e.Call? && e.name in c.funcs
      requires |vs| == |c.funcs[e.name].params| && functionDepth < MAX_FUNCTION_DEPTH
      modifies this
      ensures Valid() && Out(Abs(), r) == RunFunction(c, e, vs, old(Abs()))
      ensures returnValue == old(returnValue)
      decreases MAX_FUNCTION_DEPTH - functionDepth, e, 0
    {
      hide ExecBlock, Bind;
      var f := c.funcs[e.name];
      var previousEnv, previousReturn := env, returnValue;
      env := Bind(f.params, vs);
      returnValue := None;
      functionDepth := functionDepth + 1;
      ghost var entry := Abs();
      r := RunBody(f.body);
      functionDepth := functionDepth - 1;
      env := previousEnv;
      returnValue := previousReturn;
    }

    /** The statements of a user function: only `return` gives a value. */
    method RunBody(body: seq<Stmt>) returns (r: Res<Value>)
      requires Valid()
      modifies this
      ensures Valid()
      ensures var block := ExecBlock(c, body, old(Abs()));
        && Abs() == block.st
        && r == if block.res.Ok? && block.res.value.Returned? then Ok(block.res.value.value) else Err
      decreases MAX_FUNCTION_DEPTH - functionDepth, body, 1
    {
      hide ExecStmt;
      assert body[0..] == body;
      for i := 0 to |body|
        invariant Valid() && functionDepth == old(functionDepth)
        invariant ExecBlock(c, body, old(Abs())) == ExecBlock(c, body[i..], Abs())
      {
        assert body[i..][0] == body[i] && body[i..][1..] == body[i + 1..];
        var flow := EvalStmtFlow(body[i]);
        if flow.Err? {
          return Err;
        }
        match flow.value {
          case ReturnFlow =>
            r := Ok(returnValue.value);
            returnValue := None;
            return;
          case NormalFlow =>
          case BreakLoop => return Err;
          case ContinueLoop => return Err;
        }
      }
      assert body[|body|..] == [];
      r := Err;
    }

    // ---- statements -----------------------------------------------------------------------

    /** What every statement method promises of its flow. */
    ghost predicate Flows(r: Res<ExecFlow>, spec: Out<Flow>)
      reads this
    {
      Valid() && Out(Abs(), AsFlow(r, returnValue)) == spec && (r == Ok(ReturnFlow) ==> returnValue.Some?)
    }

    method EvalBlock(ss: seq<Stmt>) returns (r: Res<ExecFlow>)
      requires Valid()
      modifies this
      ensures Flows(r, ExecBlock(c, ss, old(Abs())))
      ensures r != Ok(ReturnFlow) ==> returnValue == old(returnValue)
      decreases MAX_FUNCTION_DEPTH - functionDepth, ss
    {
      hide ExecStmt;
      assert ss[0..] == ss;
      for i := 0 to |ss|
        invariant Valid() && functionDepth == old(functionDepth) && returnValue == old(returnValue)
        invariant ExecBlock(c, ss, old(Abs())) == ExecBlock(c, ss[i..], Abs())
      {
        assert ss[i..][0] == ss[i] && ss[i..][1..] == ss[i + 1..];
        var flow := EvalStmtFlow(ss[i]);
        if flow != Ok(NormalFlow) {
          return flow;
        }
      }
      assert ss[|ss|..] == [];
      r := Ok(NormalFlow);
    }

    method EvalStmtFlow(s: Stmt) returns (r: Res<ExecFlow>)
      requires Valid()
      modifies this
      ensures Flows(r, ExecStmt(c, s, old(Abs())))
      ensures r != Ok(ReturnFlow) ==> returnValue == old(returnValue)
      decreases MAX_FUNCTION_DEPTH - functionDepth, s
    {
      hide ExecFor, ExecForEach, RunWhile, RunIf, ExecSwitch, ExecSimple, Flows;
      match s
      case For(_, _, _, _, _) => r := EvalFor(s);
      case ForEach(_, _, _) => r := EvalForEach(s);
      case While(_, _) => r := EvalWhile(s);
      case If(_, _) => r := EvalIf(s);
      case Switch(_, _, _) => r := EvalSwitch(s);
      case _ => r := EvalSimple(s);
    }

    method EvalSimple(s: Stmt) returns (r: Res<ExecFlow>)
      requires Valid() && IsSimple(s)
      modifies this
      ensures Flows(r, ExecSimple(c, s, old(Abs())))
      ensures r != Ok(ReturnFlow) ==> returnValue == old(returnValue)
      decreases MAX_FUNCTION_DEPTH - functionDepth, s, 1
    {
      hide I.EvalExpr, ExecAssign, ExecIndexAssign, LookupName;
      match s
      case Import(_) => r := Err;
      case InlineRust(_, _) => r := Err;
      case Function(_, _, _) => r := Ok(NormalFlow);
      case LoopBudget(_) => r := Ok(NormalFlow);
      case NumericAudit(_) => r := Ok(NormalFlow);
      case Directive(word) =>
        r := if word == "GO_PARANOID" || word == "COMPLETELY_MAD" || word == "GO_PRIVATE" then Ok(NormalFlow) else Err;
      case Break => r := Ok(BreakLoop);
      case Continue => r := Ok(ContinueLoop);
      case Return(e) =>
        var v := EvalExpr(e);
        if v.Err? {
          return Err;
        }
        returnValue := Some(v.value);
        r := Ok(ReturnFlow);
      case Assign(_, _) => r := EvalAssign(s);
      case IndexAssign(_, _, _) => r := EvalIndexAssign(s);
      case Expression(e) =>
        var v := EvalExpr(e);
        if v.Err? {
          return Err;
        }
        if IsPrintCall(e) && e.name !in c.funcs {
          exprPrints := if exprPrints > 0 then exprPrints - 1 else 0;
        }
        r := Ok(NormalFlow);
      case Seal(name) =>
        var v := LookupName(c.m, env, name, c.m.constantId(name));
        if v.Err? {
          return Err;
        }
        sealed := sealed[name := v.value];
        r := Ok(NormalFlow);
    }

    method EvalAssign(s: Stmt) returns (r: Res<ExecFlow>)
      requires Valid() && s.Assign?
      modifies this
      ensures Flows(r, ExecAssign(c, s, old(Abs())))
      ensures r != Ok(ReturnFlow) && returnValue == old(returnValue)
      decreases MAX_FUNCTION_DEPTH - functionDepth, s, 0
    {
      hide I.EvalExpr;
      if !Writable(c.m, s.name) {
        return Err;
      }
      var v := EvalExpr(s.expr);
      if v.Err? {
        return Err;
      }
      env := env[s.name := v.value];
      if c.mad && functionDepth == 0 {
        finalStateNames := finalStateNames + {s.name};
      }
      r := Ok(NormalFlow);
    }

    method EvalIndexAssign(s: Stmt) returns (r: Res<ExecFlow>)
      requires Valid() && s.IndexAssign?
      modifies this
      ensures Flows(r, ExecIndexAssign(c, s, old(Abs())))
      ensures r != Ok(ReturnFlow) && returnValue == old(returnValue)
      decreases MAX_FUNCTION_DEPTH - functionDepth, s, 0
    {
      hide I.EvalExpr, ArrayIndex;
      var position := EvalExpr(s.index);
      if position.Err? {
        return Err;
      }
      var index := ArrayIndex(position.value);
      if index.Err? {
        return Err;
      }
      var v := EvalExpr(s.expr);
      if v.Err? || s.name !in env || !env[s.name].Array? {
        return Err;
      }
      var items := env[s.name].items;
      if index.value >= |items| || !SameArrayType(items[0], v.value) {
        return Err;
      }
      env := env[s.name := Array(items[index.value := v.value])];
      r := Ok(NormalFlow);
    }

    // ---- loops ----------------------------------------------------------------------------

    method LoopTick() returns (ok: bool)
      requires Valid()
      modifies this`loopIterations
      ensures Valid() && ok == (old(loopIterations) < c.budget)
      ensures loopIterations == old(loopIterations) + if ok then 1 else 0
    {
      ok := loopIterations < c.budget;
      if ok {
        loopIterations := loopIterations + 1;
      }
    }

    method EvalInteger(ghost s: Stmt, e: Expr) returns (r: Res<int>)
      requires Valid() && e < s
      modifies this
      ensures Valid() && Out(Abs(), r) == I.EvalInteger(c, s, e, old(Abs()))
      ensures returnValue == old(returnValue)
      decreases MAX_FUNCTION_DEPTH - functionDepth, s, 0
    {
      hide I.EvalExpr, LoopInteger;
      var v := EvalExpr(e);
      r := if v.Err? then Err else LoopInteger(v.value);
    }

    method EvalFor(s: Stmt) returns (r: Res<ExecFlow>)
      requires Valid() && s.For?
      modifies this
      ensures Flows(r, ExecFor(c, s, old(Abs())))
      ensures r != Ok(ReturnFlow) ==> returnValue == old(returnValue)
      decreases MAX_FUNCTION_DEPTH - functionDepth, s, c.budget + 1
    {
      hide I.EvalInteger, ExecBlock;
      var start := EvalInteger(s, s.start);
      if start.Err? {
        return Err;
      }
      var stop := EvalInteger(s, s.stop);
      if stop.Err? {
        return Err;
      }
      var step := EvalInteger(s, s.step);
      if step.Err? || step.value == 0 {
        return Err;
      }
      var index := start.value;
      while if step.value > 0 then index < stop.value else index > stop.value
        invariant Valid() && functionDepth == old(functionDepth) && returnValue == old(returnValue)
        invariant ExecFor(c, s, old(Abs())) == RunRange(c, s, index, stop.value, step.value, Abs())
        decreases c.budget - loopIterations
      {
        var ok := LoopTick();
        if !ok {
          return Err;
        }
        env := env[s.variable := Scalar(index as real)];
        var flow := EvalBlock(s.body);
        if flow.Err? {
          return Err;
        }
        match flow.value {
          case NormalFlow =>
          case ContinueLoop =>
            index := index + step.value;
            continue;
          case BreakLoop => break;
          case ReturnFlow => return Ok(ReturnFlow);
        }
        index := index + step.value;
      }
      r := Ok(NormalFlow);
    }

    method EvalForEach(s: Stmt) returns (r: Res<ExecFlow>)
      requires Valid() && s.ForEach?
      modifies this
      ensures Flows(r, ExecForEach(c, s, old(Abs())))
      ensures r != Ok(ReturnFlow) ==> returnValue == old(returnValue)
      decreases MAX_FUNCTION_DEPTH - functionDepth, s, c.budget + 1
    {
      hide I.EvalExpr, ExecBlock;
      var v := EvalExpr(s.iterable);
      if v.Err? || !v.value.Array? {
        return Err;
      }
      var items := v.value.items;
      assert items[0..] == items;
      var i := 0;
      while i < |items|
        invariant 0 <= i <= |items|
        invariant Valid() && functionDepth == old(functionDepth) && returnValue == old(returnValue)
        invariant ExecForEach(c, s, old(Abs())) == RunItems(c, s, items[i..], Abs())
      {
        assert items[i..][0] == items[i] && items[i..][1..] == items[i + 1..];
        var ok := LoopTick();
        if !ok {
          return Err;
        }
        env := env[s.variable := items[i]];
        var flow := EvalBlock(s.body);
        if flow.Err? {
          return Err;
        }
        i := i + 1;
        match flow.value {
          case NormalFlow =>
          case ContinueLoop =>
          case BreakLoop => break;
          case ReturnFlow => return Ok(ReturnFlow);
        }
      }
      r := Ok(NormalFlow);
    }

    method EvalWhile(s: Stmt) returns (r: Res<ExecFlow>)
      requires Valid() && s.While?
      modifies this
      ensures Flows(r, RunWhile(c, s, old(Abs())))
      ensures r != Ok(ReturnFlow) ==> returnValue == old(returnValue)
      decreases MAX_FUNCTION_DEPTH - functionDepth, s, c.budget + 1
    {
      hide I.EvalExpr, ExecBlock;
      while true
        invariant Valid() && functionDepth == old(functionDepth) && returnValue == old(returnValue)
        invariant RunWhile(c, s, old(Abs())) == RunWhile(c, s, Abs())
        decreases c.budget - loopIterations
      {
        var condition := EvalExpr(s.condition);
        if condition.Err? || !condition.value.Bool? {
          return Err;
        }
        if !condition.value.b {
          return Ok(NormalFlow);
        }
        var ok := LoopTick();
        if !ok {
          return Err;
        }
        var flow := EvalBlock(s.body);
        if flow.Err? {
          return Err;
        }
        match flow.value {
          case NormalFlow =>
          case ContinueLoop =>
          case BreakLoop => return Ok(NormalFlow);
          case ReturnFlow => return Ok(ReturnFlow);
        }
      }
    }

    // ---- choices --------------------------------------------------------------------------

    method EvalOtherwise(s: Stmt) returns (r: Res<ExecFlow>)
      requires Valid() && (s.If? || s.Switch?)
      modifies this
      ensures Flows(r, RunOtherwise(c, s, old(Abs())))
      ensures r != Ok(ReturnFlow) ==> returnValue == old(returnValue)
      decreases MAX_FUNCTION_DEPTH - functionDepth, s, 0
    {
      hide ExecBlock;
      if s.otherwise.Tail? {
        r := EvalBlock(s.otherwise.body);
      } else {
        r := Ok(NormalFlow);
      }
    }

    method EvalIf(s: Stmt) returns (r: Res<ExecFlow>)
      requires Valid() && s.If?
      modifies this
      ensures Flows(r, RunIf(c, s, 0, old(Abs())))
      ensures r != Ok(ReturnFlow) ==> returnValue == old(returnValue)
      decreases MAX_FUNCTION_DEPTH - functionDepth, s, 1
    {
      hide I.EvalExpr, ExecBlock, RunOtherwise;
      for k := 0 to |s.arms|
        invariant Valid() && functionDepth == old(functionDepth) && returnValue == old(returnValue)
        invariant RunIf(c, s, 0, old(Abs())) == RunIf(c, s, k, Abs())
      {
        var test := EvalExpr(s.arms[k].test);
        if test.Err? || !test.value.Bool? {
          return Err;
        }
        if test.value.b {
          r := EvalBlock(s.arms[k].body);
          return;
        }
      }
      r := EvalOtherwise(s);
    }

    method EvalSwitch(s: Stmt) returns (r: Res<ExecFlow>)
      requires Valid() && s.Switch?
      modifies this
      ensures Flows(r, ExecSwitch(c, s, old(Abs())))
      ensures r != Ok(ReturnFlow) ==> returnValue == old(returnValue)
      decreases MAX_FUNCTION_DEPTH - functionDepth, s, 1
    {
      hide I.EvalExpr, ExecBlock, RunOtherwise, CompareValues;
      var selected := EvalExpr(s.selector);
      if selected.Err? {
        return Err;
      }
      for k := 0 to |s.arms|
        invariant Valid() && functionDepth == old(functionDepth) && returnValue == old(returnValue)
        invariant ExecSwitch(c, s, old(Abs())) == RunCases(c, s, k, selected.value, Abs())
      {
        var candidate := EvalExpr(s.arms[k].test);
        if candidate.Err? {
          return Err;
        }
        var hit := CompareValues("==", selected.value, candidate.value);
        if hit.Err? {
          return Err;
        }
        if hit.value {
          r := EvalBlock(s.arms[k].body);
          return;
        }
      }
      r := EvalOtherwise(s);
    }

    // ---- programs -------------------------------------------------------------------------

    /** `eval_program` after registration. */
    method EvalProgram(p: Program) returns (ok: bool)
      requires Valid()
      modifies this
      ensures Valid() && Out(Abs(), if ok then Ok(()) else Err) == RunTop(c, p, old(Abs()))
    {
      hide ExecStmt;
      assert p[0..] == p;
      for i := 0 to |p|
        invariant Valid()
        invariant RunTop(c, p, old(Abs())) == RunTop(c, p[i..], Abs())
      {
        assert p[i..][0] == p[i] && p[i..][1..] == p[i + 1..];
        var flow := EvalStmtFlow(p[i]);
        if flow.Err? {
          return false;
        }
      }
      assert p[|p|..] == [];
      ok := true;
    }
  }

  lemma PrependNothing(r: Out<seq<Value>>)
    ensures Prepend([], r) == r
  {
    if r.res.Ok? {
      assert [] + r.res.value == r.res.value;
    }
  }

  /** The first of the remaining arguments joins the collected values, or ends the evaluation. */
  lemma ArgsStep(c: Context, whole: Expr, args: seq<Expr>, values: seq<Value>, st: State)
    requires Within(c, st) && |args| > 0 && forall a | a in args :: a < whole
    ensures args[0] < whole && forall a | a in args[1..] :: a < whole
    ensures var v := I.EvalExpr(c, args[0], st);
      Prepend(values, I.EvalArgs(c, whole, args, st)) ==
        if v.res.Err? then Out(v.st, Err)
        else Prepend(values + [v.res.value], I.EvalArgs(c, whole, args[1..], v.st))
  {
    hide I.EvalExpr;
    assert args[0] in args;
    assert forall a | a in args[1..] :: a in args;
    var v := I.EvalExpr(c, args[0], st);
    if v.res.Ok? {
      var rest := I.EvalArgs(c, whole, args[1..], v.st);
      assert rest.res.Ok? ==> values + ([v.res.value] + rest.res.value) == (values + [v.res.value]) + rest.res.value;
    }
  }

  /** Registration and evaluation of a whole program on a new object. */
  method Evaluate(m: Machine, p: Program, w: World) returns (evaluation: Evaluation, ok: bool)
    ensures fresh(evaluation)
    ensures Out(evaluation.Abs(), if ok then Ok(()) else Err) == Run(m, p, w)
  {
    evaluation := new Evaluation(m, p, w);
    var distinct := RegisteredOnce(p);
    if !distinct {
      return evaluation, false;
    }
    ok := evaluation.EvalProgram(p);
  }

  /** `register_functions` refuses the second declaration of a name. */
  method RegisteredOnce(p: Program) returns (ok: bool)
    ensures ok == DistinctFunctions(p)
  {
    var seen: set<string> := {};
    for i := 0 to |p|
      invariant seen == set j | 0 <= j < i && p[j].Function? :: p[j].name
      invariant forall j, k | 0 <= j < k < i && p[j].Function? && p[k].Function? :: p[j].name != p[k].name
    {
      if p[i].Function? {
        if p[i].name in seen {
          return false;
        }
        seen := seen + {p[i].name};
      }
    }
    ok := true;
  }
}
