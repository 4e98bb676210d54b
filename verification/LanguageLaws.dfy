/** What calls and operators of the language mean, in terms of values rather than of the functions that both
    engines share, and one program worked through. */
module LanguageLaws {
  import opened Prelude
  import opened Ast
  import opened Values
  import opened Interpreter
  import N = Native

  // ---- calls ------------------------------------------------------------------------------

  /** Each parameter holds its own argument; of two parameters with one name the later one. */
  ghost predicate BoundTo(env: map<string, Value>, params: seq<string>, vs: seq<Value>) {
    && |params| == |vs| && (forall x :: x in env <==> x in params)
    && forall k | 0 <= k < |params| && params[k] !in params[k + 1..] :: env[params[k]] == vs[k]
  }

  lemma {:induction false} BindsInOrder(params: seq<string>, vs: seq<Value>)
    requires |params| == |vs|
    ensures BoundTo(Bind(params, vs), params, vs)
  {
    hide BoundTo;
    if |params| > 0 {
      var n := |params| - 1;
      BindsInOrder(params[..n], vs[..n]);
      OneMoreBound(Bind(params[..n], vs[..n]), params, vs);
    } else {
      NothingBound(params, vs);
    }
  }

  lemma NothingBound(params: seq<string>, vs: seq<Value>)
    requires |params| == |vs| == 0
    ensures BoundTo(map[], params, vs)
  {
  }

  lemma OneMoreBound(before: map<string, Value>, params: seq<string>, vs: seq<Value>)
    requires |params| == |vs| > 0 && BoundTo(before, params[..|params| - 1], vs[..|vs| - 1])
    ensures var n := |params| - 1; BoundTo(before[params[n] := vs[n]], params, vs)
  {
    var n := |params| - 1;
    var env := before[params[n] := vs[n]];
    forall x
      ensures x in env <==> x in params
    {
      InFront(params, x);
    }
    forall k | 0 <= k < |params| && params[k] !in params[k + 1..]
      ensures env[params[k]] == vs[k]
    {
      if k < n {
        NoLater(params, k);
        assert before[params[..n][k]] == vs[..n][k];
      }
    }
  }

  lemma InFront(names: seq<string>, x: string)
    requires |names| > 0
    ensures x in names <==> x == names[|names| - 1] || x in names[..|names| - 1]
  {
    assert names == names[..|names| - 1] + [names[|names| - 1]];
  }

  lemma NoLater(names: seq<string>, k: nat)
    requires k < |names| - 1 && names[k] !in names[k + 1..]
    ensures var n := |names| - 1; names[k] != names[n] && names[..n][k] !in names[..n][k + 1..]
  {
    var n := |names| - 1;
    assert names[k + 1..][n - k - 1] == names[n];
    assert names[k + 1..] == names[..n][k + 1..] + [names[n]];
  }

  /** The last place where a name stands. */
  function LastPlace(names: seq<string>, x: string): (k: nat)
    requires x in names
    ensures k < |names| && names[k] == x && x !in names[k + 1..]
  {
    var n := |names| - 1;
    if names[n] == x then n
    else
      assert x in names[..n];
      var k := LastPlace(names[..n], x);
      assert names[k + 1..] == names[..n][k + 1..] + [names[n]];
      k
  }

  lemma BoundOnce(a: map<string, Value>, b: map<string, Value>, params: seq<string>, vs: seq<Value>)
    requires BoundTo(a, params, vs) && BoundTo(b, params, vs)
    ensures a == b
  {
    forall x | x in a
      ensures a[x] == b[x]
    {
      var k := LastPlace(params, x);
      assert a[params[k]] == vs[k] == b[params[k]];
    }
  }

  /** The body of a call starts where exactly the parameters are bound, each to its own argument. */
  lemma CallStartsBound(c: Context, e: Expr, vs: seq<Value>, st: State, env: map<string, Value>)
    requires Within(c, st) && e.Call? && e.name in c.funcs && st.depth < MAX_FUNCTION_DEPTH
    requires |vs| == |c.funcs[e.name].params| && BoundTo(env, c.funcs[e.name].params, vs)
    ensures var body := ExecBlock(c, c.funcs[e.name].body, st.(env := env, depth := st.depth + 1));
      RunFunction(c, e, vs, st) ==
        Out(body.st.(env := st.env, depth := st.depth),
            if body.res.Ok? && body.res.value.Returned? then Ok(body.res.value.value) else Err)
  {
    hide ExecBlock, BoundTo, Bind;
    BindsInOrder(c.funcs[e.name].params, vs);
    BoundOnce(env, Bind(c.funcs[e.name].params, vs), c.funcs[e.name].params, vs);
  }

  /** So does the body of an emitted call, in maps of its own. */
  lemma EmittedCallStartsBound(p: N.NProgram, e: N.NExpr, st: N.NState, depth: nat, env: map<string, Value>)
    requires N.Fits(p, st, depth) && e.NCall? && e.name in p.funcs && depth < N.MAX_CALL_DEPTH
    requires N.EvalSeq(p, e.args, st, depth).res.NOk? && |e.args| == |p.funcs[e.name].params|
    requires BoundTo(env, p.funcs[e.name].params, N.EvalSeq(p, e.args, st, depth).res.value)
    ensures var vs := N.EvalSeq(p, e.args, st, depth);
      var body := N.ExecN(p, p.funcs[e.name].body, [], vs.st.(env := env, sealed := map[], names := {}), depth + 1);
      body.res.NOk? && body.res.value.Ret? ==> N.EvalNCall(p, e, st, depth).res == N.NOk(body.res.value.value)
  {
    hide N.ExecN, N.EvalSeq, BoundTo, Bind;
    var params, vs := p.funcs[e.name].params, N.EvalSeq(p, e.args, st, depth).res.value;
    BindsInOrder(params, vs);
    BoundOnce(env, Bind(params, vs), params, vs);
  }

  // ---- operands and operators -------------------------------------------------------------

  /** `e` takes `st` to `st'` and yields `v`. */
  predicate Yields(c: Context, e: Expr, st: State, st': State, v: Value) {
    Within(c, st) && EvalExpr(c, e, st) == Out(st', Ok(v))
  }

  lemma TwoOperands(c: Context, e: Expr, l: Expr, r: Expr, st: State, s1: State, s2: State, x: Value, y: Value)
    requires Yields(c, l, st, s1, x) && Yields(c, r, s1, s2, y) && l < e && r < e
    ensures EvalArgs(c, e, [l, r], st) == Out(s2, Ok([x, y]))
  {
    hide EvalExpr;
    assert [l, r][1..] == [r] && [r][1..] == [];
    assert EvalArgs(c, e, [], s2) == Out(s2, Ok([]));
    assert [y] + [] == [y] && [x] + [y] == [x, y];
    assert EvalArgs(c, e, [r], s1) == Out(s2, Ok([y]));
  }

  /** The left operand first, and on the left of the operator. */
  lemma BinaryMeans(c: Context, op: char, l: Expr, r: Expr, st: State, s1: State, s2: State, a: Quantity, b: Quantity)
    requires Yields(c, l, st, s1, Q(a)) && Yields(c, r, s1, s2, Q(b))
    ensures EvalExpr(c, Binary(op, l, r), st) ==
              Out(s2, match c.m.arith(op, a, b) case Some(q) => Ok(Q(q)) case None => Err)
  {
    hide EvalArgs;
    TwoOperands(c, Binary(op, l, r), l, r, st, s1, s2, Q(a), Q(b));
  }

  /** Of two arrays the operator takes the items at the same place, the left one on the left. */
  lemma ArrayBinaryMeans(m: Machine, op: char, x: seq<Value>, y: seq<Value>, k: nat)
    requires BinaryValue(m, op, Array(x), Array(y)).Ok? && k < |x|
    ensures var v := BinaryValue(m, op, Array(x), Array(y)).value;
      && |x| == |y| && v.Array? && |v.items| == |x| && x[k].Q? && y[k].Q?
      && m.arith(op, x[k].q, y[k].q).Some? && v.items[k] == Q(m.arith(op, x[k].q, y[k].q).value)
  {
    var inputs := [Array(x), Array(y)];
    var scalar: seq<Value> -> Res<Value> := args => if |args| == 2 then NumericBinary(m, op, args[0], args[1]) else Err;
    var lanes := Elementwise(inputs, scalar);
    assert BinaryValue(m, op, Array(x), Array(y)) == OnArrays(Elementwise([Array(x), Array(y)],
      args => if |args| == 2 then NumericBinary(m, op, args[0], args[1]) else Err));
    assert lanes.Ok?;
    assert inputs[1] == Array(y);
    ElementwiseMeaning(inputs, scalar, |x|);
    assert IsLane([x[k], y[k]], inputs, k);
    assert scalar([x[k], y[k]]) == Ok(lanes.value[k]);
  }

  predicate Ordering(op: string, a: real, b: real) {
    match op
    case "<" => a < b
    case "<=" => a <= b
    case ">" => a > b
    case ">=" => a >= b
    case "==" => a == b
    case _ => a != b
  }

  /** The six comparisons of quantities of one dimension are those of their numbers. */
  lemma ComparisonMeans(c: Context, op: string, l: Expr, r: Expr, st: State, s1: State, s2: State, a: Quantity, b: Quantity)
    requires Yields(c, l, st, s1, Q(a)) && Yields(c, r, s1, s2, Q(b)) && a.dim == b.dim
    requires op in ["<", "<=", ">", ">=", "==", "!="]
    ensures Yields(c, Compare(op, l, r), st, s2, Bool(Ordering(op, a.si, b.si)))
  {
    hide EvalArgs;
    var e := Compare(op, l, r);
    TwoOperands(c, e, l, r, st, s1, s2, Q(a), Q(b));
    assert CompareValues(op, Q(a), Q(b)) == Ok(Ordering(op, a.si, b.si));
    assert EvalExpr(c, e, st) == EvalStrict(c, e, st);
  }

  lemma IndexMeans(c: Context, l: Expr, r: Expr, st: State, s1: State, s2: State, items: seq<Value>, k: nat)
    requires Yields(c, l, st, s1, Array(items)) && Yields(c, r, s1, s2, Scalar(k as real)) && k < |items| <= MAX_ARRAY_ITEMS
    ensures Yields(c, Index(l, r), st, s2, items[k])
  {
    hide EvalArgs;
    var e := Index(l, r);
    TwoOperands(c, e, l, r, st, s1, s2, Array(items), Scalar(k as real));
    assert EvalExpr(c, e, st) == EvalStrict(c, e, st);
  }

  /** A slice holds the items from its start up to but without its stop, in order. */
  lemma SliceMeans(c: Context, e: Expr, l: Expr, r: Expr, st: State, s0: State, s1: State, s2: State, items: seq<Value>, i: nat, j: nat)
    requires Yields(c, e, st, s0, Array(items)) && Yields(c, l, s0, s1, Scalar(i as real)) && Yields(c, r, s1, s2, Scalar(j as real))
    requires i <= j <= |items| <= MAX_ARRAY_ITEMS
    ensures var s := EvalExpr(c, Slice(e, Some(l), Some(r)), st);
      && s.st == s2 && s.res.Ok? && s.res.value.Array? && |s.res.value.items| == j - i
      && forall k | 0 <= k < j - i :: s.res.value.items[k] == items[i + k]
  {
    hide EvalStrict, EvalLogical, EvalCall, Leaf;
    var whole := Slice(e, Some(l), Some(r));
    assert EvalBound(c, whole, Some(l), 0, s0) == Out(s1, Ok(i));
    assert EvalBound(c, whole, Some(r), |items|, s1) == Out(s2, Ok(j));
  }

  /** The right operand is looked at only when the left one leaves the answer open. */
  lemma LogicMeans(c: Context, l: Expr, r: Expr, st: State, s1: State, s2: State, a: bool, b: bool)
    requires Yields(c, l, st, s1, Bool(a)) && Yields(c, r, s1, s2, Bool(b))
    ensures Yields(c, Logical("and", l, r), st, if a then s2 else s1, Bool(a && b))
    ensures Yields(c, Logical("or", l, r), st, if a then s1 else s2, Bool(a || b))
  {
    hide EvalStrict, EvalSlice, EvalCall, Leaf;
    assert EvalExpr(c, Logical("and", l, r), st) == EvalLogical(c, Logical("and", l, r), st);
    assert EvalExpr(c, Logical("or", l, r), st) == EvalLogical(c, Logical("or", l, r), st);
  }

  // ---- printed text -----------------------------------------------------------------------

  lemma {:induction false} JoinedMore(parts: seq<string>, last: string, separator: string)
    requires |parts| > 0
    ensures JoinWith(parts + [last], separator) == JoinWith(parts, separator) + separator + last
  {
    assert (parts + [last])[1..] == parts[1..] + [last];
    if |parts| > 1 {
      JoinedMore(parts[1..], last, separator);
      assert parts[0] + separator + (JoinWith(parts[1..], separator) + separator + last)
          == (parts[0] + separator + JoinWith(parts[1..], separator)) + separator + last;
    } else {
      assert parts[1..] + [last] == [last];
    }
  }

  lemma {:induction false} RenderedMore(m: Machine, vs: seq<Value>, v: Value)
    ensures RenderAll(m, vs + [v]) == RenderAll(m, vs) + [Render(m, v)]
    ensures |RenderAll(m, vs)| == |vs|
  {
    hide Render;
    if |vs| > 0 {
      assert (vs + [v])[1..] == vs[1..] + [v];
      RenderedMore(m, vs[1..], v);
    } else {
      assert vs + [v] == [v];
    }
  }

  /** What stands between the brackets of a printed array. */
  function Between(text: string): string {
    if |text| < 2 then "" else text[1..|text| - 1]
  }

  /** How values print: a text as it is, a Boolean as its word, an array in brackets with its items in order,
      a comma and a blank between them. */
  lemma PrintedForm(m: Machine, items: seq<Value>, v: Value, s: string)
    ensures Render(m, Text(s)) == s && Render(m, Bool(true)) == "true" && Render(m, Bool(false)) == "false"
    ensures Render(m, Array([])) == "[]" && Render(m, Array([v])) == "[" + Render(m, v) + "]"
    ensures items != [] ==>
      Render(m, Array(items + [v])) == "[" + Between(Render(m, Array(items))) + ", " + Render(m, v) + "]"
  {
    RenderedMore(m, items, v);
    RenderedMore(m, [], v);
    assert [] + [v] == [v] && [] + [Render(m, v)] == [Render(m, v)];
    assert RenderAll(m, [v]) == [Render(m, v)];
    if items != [] {
      JoinedMore(RenderAll(m, items), Render(m, v), ", ");
      assert Between(Render(m, Array(items))) == JoinWith(RenderAll(m, items), ", ");
      var joined := JoinWith(RenderAll(m, items), ", ");
      assert "[" + (joined + ", " + Render(m, v)) + "]" == "[" + joined + ", " + Render(m, v) + "]";
    }
  }

  /** A printed line: the only value as it prints, several with blanks between them. */
  lemma PrintedLine(m: Machine, vs: seq<Value>, v: Value)
    ensures PrintLine(m, [v]) == Render(m, v)
    ensures vs != [] ==> PrintLine(m, vs + [v]) == PrintLine(m, vs) + " " + Render(m, v)
  {
    hide Render;
    RenderedMore(m, vs, v);
    if vs != [] {
      JoinedMore(RenderAll(m, vs), Render(m, v), " ");
      if |vs| == 1 {
        assert vs[1..] == [] && RenderAll(m, vs) == [Render(m, vs[0])];
        OnlyValue(m, vs[0]);
      }
    }
    OnlyValue(m, v);
  }

  lemma OnlyValue(m: Machine, v: Value)
    ensures PrintLine(m, [v]) == Render(m, v)
  {
  }

  /** Text and placeholders are set one after another. */
  lemma {:induction false} SnapshotInOrder(m: Machine, pieces: seq<Piece>, texts: seq<string>,
                                           resolve: (string, Option<string>) -> Res<string>, done: string)
    requires |texts| == |pieces| && Snapshot(m, pieces, resolve, done).Ok?
    requires forall k | 0 <= k < |pieces| ::
      Ok(texts[k]) == match pieces[k] case Lit(t) => Ok(t) case Field(name, spec) => resolve(name, spec) case Malformed => Err
    ensures Snapshot(m, pieces, resolve, done).value == done + JoinWith(texts, "")
    decreases |pieces|
  {
    if |pieces| > 0 {
      SnapshotInOrder(m, pieces[1..], texts[1..], resolve, done + texts[0]);
      assert done + texts[0] + JoinWith(texts[1..], "") == done + (texts[0] + "" + JoinWith(texts[1..], ""));
    }
  }

  // ---- whole runs -------------------------------------------------------------------------

  /** The loop budget of a program is the first one it declares. */
  lemma {:induction false} FirstBudgetCounts(p: Program, i: nat)
    requires i < |p| && p[i].LoopBudget? && forall k | 0 <= k < i :: !p[k].LoopBudget?
    ensures BudgetOf(p) == p[i].budget
  {
    if i > 0 {
      FirstBudgetCounts(p[1..], i - 1);
    }
  }

  /** Captured bindings are those of the recorded names, each under its own key. */
  lemma CapturedBindings(names: set<string>, env: map<string, Value>, x: string)
    requires names <= env.Keys
    ensures FINAL_PREFIX + x in FinalBindings(names, env) <==> x in names
    ensures x in names ==> FinalBindings(names, env)[FINAL_PREFIX + x] == env[x]
  {
    forall y | FINAL_PREFIX + y == FINAL_PREFIX + x
      ensures x == y
    {
      assert (FINAL_PREFIX + x)[|FINAL_PREFIX|..] == x && (FINAL_PREFIX + y)[|FINAL_PREFIX|..] == y;
    }
  }

  // ---- one program ------------------------------------------------------------------------

  lemma Whole(n: nat)
    requires n < 1000
    ensures IsDouble(n as real)
  {
    assert Scaled(n as real, n, 0);
  }

  function Difference(): Stmt {
    Function("sub", ["a", "b"], [Return(Binary('-', Name("a", None), Name("b", None)))])
  }

  /** `g_func sub(a, b) { return a - b }` and then `x = sub(5, 2)`. */
  function SampleProgram(): Program {
    Whole(5);
    Whole(2);
    [Difference(), Assign("x", Call("sub", [Number(5.0), Number(2.0)]))]
  }

  /** The body's own environment and what it returns. */
  lemma SampleBody(c: Context, st: State)
    requires Within(c, st) && st.env == map["a" := Scalar(5.0), "b" := Scalar(2.0)]
    requires c.m.arith('-', Quantity(5.0, DIMENSIONLESS), Quantity(2.0, DIMENSIONLESS)) == Some(Quantity(3.0, DIMENSIONLESS))
    ensures ExecBlock(c, Difference().body, st) == Out(st, Ok(Returned(Scalar(3.0))))
  {
    var a, b, body := Expr.Name("a", None), Expr.Name("b", None), Difference().body;
    BinaryMeans(c, '-', a, b, st, st, st, Quantity(5.0, DIMENSIONLESS), Quantity(2.0, DIMENSIONLESS));
    hide EvalExpr;
    assert ExecStmt(c, body[0], st) == ExecSimple(c, body[0], st) == Out(st, Ok(Returned(Scalar(3.0))));
  }

  lemma SampleArguments(c: Context, st: State)
    requires Within(c, st)
    ensures var e := SampleProgram()[1].expr;
      EvalArgs(c, e, e.args, st) == Out(st, Ok([Scalar(5.0), Scalar(2.0)]))
  {
    Whole(5);
    Whole(2);
    var e, five, two := SampleProgram()[1].expr, Expr.Number(5.0), Expr.Number(2.0);
    assert e.args == [five, two] && e.args[0] in e.args && e.args[1] in e.args;
    TwoOperands(c, e, five, two, st, st, st, Scalar(5.0), Scalar(2.0));
  }

  lemma SampleCall(c: Context, st: State)
    requires Within(c, st) && st.depth == 0 && c.funcs == map["sub" := Func(["a", "b"], Difference().body)]
    requires c.m.arith('-', Quantity(5.0, DIMENSIONLESS), Quantity(2.0, DIMENSIONLESS)) == Some(Quantity(3.0, DIMENSIONLESS))
    ensures var r := EvalExpr(c, SampleProgram()[1].expr, st); r.res == Ok(Scalar(3.0)) && r.st.env == st.env
  {
    hide ExecBlock, EvalArgs, RunFunction, IsDouble;
    var e, noted := SampleProgram()[1].expr, st.(called := st.called + {"sub"});
    SampleArguments(c, noted);
    var vs, env := [Scalar(5.0), Scalar(2.0)], map["a" := Scalar(5.0), "b" := Scalar(2.0)];
    assert BoundTo(env, ["a", "b"], vs);
    CallStartsBound(c, e, vs, noted, env);
    SampleBody(c, noted.(env := env, depth := 1));
    assert EvalExpr(c, e, st) == EvalCall(c, e, st) == RunFunction(c, e, vs, noted);
  }

  /** Five minus two is three, on every machine that subtracts so and lets x be written. */
  lemma SampleRun(m: Machine, w: World)
    requires Writable(m, "x")
    requires m.arith('-', Quantity(5.0, DIMENSIONLESS), Quantity(2.0, DIMENSIONLESS)) == Some(Quantity(3.0, DIMENSIONLESS))
    ensures Run(m, SampleProgram(), w).res.Ok? && Run(m, SampleProgram(), w).st.env == map["x" := Scalar(3.0)]
  {
    var p, c, st := SampleProgram(), ContextOf(m, SampleProgram()), InitialState(w);
    assert p[1..][1..] == [] && p[1..][0] == p[1];
    assert Functions(p[1..]) == map[];
    assert Functions(p) == map["sub" := Func(["a", "b"], Difference().body)];
    assert DistinctFunctions(p);
    SampleCall(c, st);
    assert ExecStmt(c, p[0], st) == ExecSimple(c, p[0], st) == Out(st, Ok(Normal));
    assert ExecStmt(c, p[1], st) == ExecSimple(c, p[1], st) == ExecAssign(c, p[1], st);
    var last := ExecStmt(c, p[1], st).st;
    assert RunTop(c, [], last) == Out(last, Ok(()));
    assert RunTop(c, p[1..], st) == Out(last, Ok(()));
    assert RunTop(c, p, st) == Out(last, Ok(()));
    assert map[]["x" := Scalar(3.0)] == map["x" := Scalar(3.0)];
  }
}
