/** One-step equations of the target language: what the head of an emitted statement list does. The meaning
    of a list is defined by recursion on the whole list; a proof about a list that the generator built by
    appending needs the first statement, the locals it leaves and the rest apart, and these lemmas take it
    apart, one for each kind of statement the generator emits. */
module NativeSteps {
  import opened Prelude
  import opened Values
  import opened Native

  /** Continue with `ss` unless the outcome so far leaves the block. */
  function Resume(p: NProgram, r: NExec, ss: seq<NStmt>, depth: nat): NExec
    requires depth <= MAX_CALL_DEPTH && r.st.loops <= p.budget
  {
    if r.res == NOk(Next) then ExecN(p, ss, r.locals, r.st, depth) else r
  }

  /** Running two lists one after the other. */
  lemma {:induction false} ExecAppend(p: NProgram, a: seq<NStmt>, b: seq<NStmt>, locals: Locals, st: NState, depth: nat)
    requires Fits(p, st, depth)
    ensures ExecN(p, a + b, locals, st, depth) == Resume(p, ExecN(p, a, locals, st, depth), b, depth)
    decreases |a|
  {
    hide ExecOne;
    if |a| == 0 {
      assert a + b == b;
    } else {
      assert (a + b)[0] == a[0] && (a + b)[1..] == a[1..] + b;
      var first := ExecOne(p, a[0], locals, st, depth);
      if first.res == NOk(Next) {
        ExecAppend(p, a[1..], b, first.locals, first.st, depth);
      }
    }
  }

  lemma ExecStep(p: NProgram, s: NStmt, rest: seq<NStmt>, locals: Locals, st: NState, depth: nat)
    requires Fits(p, st, depth)
    ensures ExecN(p, [s] + rest, locals, st, depth) == Resume(p, ExecOne(p, s, locals, st, depth), rest, depth)
  {
    hide ExecOne;
    assert ([s] + rest)[1..] == rest;
  }

  lemma ExecSingle(p: NProgram, s: NStmt, locals: Locals, st: NState, depth: nat)
    requires Fits(p, st, depth)
    ensures ExecN(p, [s], locals, st, depth) == ExecOne(p, s, locals, st, depth)
  {
    hide ExecOne;
    ExecStep(p, s, [], locals, st, depth);
    assert [s] + [] == [s];
  }

  // ---- locals -----------------------------------------------------------------------------

  lemma GetLast(locals: Locals, x: string, v: Local)
    ensures Get(locals + [(x, v)], x) == Some(v)
  {
  }

  lemma GetBefore(locals: Locals, x: string, y: string, v: Local)
    requires x != y
    ensures Get(locals + [(y, v)], x) == Get(locals, x)
  {
    assert (locals + [(y, v)])[..|locals|] == locals;
  }

  lemma SetLast(locals: Locals, x: string, v: Local, w: Local)
    ensures Set(locals + [(x, v)], x, w) == locals + [(x, w)]
  {
    assert (locals + [(x, v)])[..|locals|] == locals;
  }

  // ---- statements with one expression -----------------------------------------------------

  /** `[s] + rest` when `s` evaluates one expression. */
  lemma StepUse(p: NProgram, s: NStmt, rest: seq<NStmt>, locals: Locals, st: NState, depth: nat)
    requires Fits(p, st, depth) && IsEvaluating(s)
    ensures var v := EvalN(p, s.e, st, depth);
            var r := ExecN(p, [s] + rest, locals, st, depth);
      if v.res.NOk? then r == Resume(p, Use(p, s, v.res.value, locals, v.st), rest, depth)
      else r == NExec(v.st, locals, Failed(v.res))
  {
    hide EvalN, Use;
    ExecStep(p, s, rest, locals, st, depth);
  }

  lemma StepLet(p: NProgram, x: string, e: NExpr, rest: seq<NStmt>, locals: Locals, st: NState, depth: nat)
    requires Fits(p, st, depth)
    ensures var v := EvalN(p, e, st, depth);
            var r := ExecN(p, [NLet(x, e)] + rest, locals, st, depth);
      if v.res.NOk? then r == ExecN(p, rest, locals + [(x, LValue(v.res.value))], v.st, depth)
      else r == NExec(v.st, locals, Failed(v.res))
  {
    hide EvalN, ExecOne;
    StepUse(p, NLet(x, e), rest, locals, st, depth);
  }

  lemma StepLetRange(p: NProgram, x: string, e: NExpr, rest: seq<NStmt>, locals: Locals, st: NState, depth: nat)
    requires Fits(p, st, depth)
    ensures var v := EvalN(p, e, st, depth);
            var r := ExecN(p, [NLetRange(x, e)] + rest, locals, st, depth);
      if v.res.NOk? then
        if RtRangeInteger(v.res.value).Ok? then
          r == ExecN(p, rest, locals + [(x, LInt(RtRangeInteger(v.res.value).value))], v.st, depth)
        else r.res.NErr?
      else r == NExec(v.st, locals, Failed(v.res))
  {
    hide EvalN, ExecOne, RtRangeInteger;
    StepUse(p, NLetRange(x, e), rest, locals, st, depth);
  }

  lemma StepBreakUnless(p: NProgram, e: NExpr, rest: seq<NStmt>, locals: Locals, st: NState, depth: nat)
    requires Fits(p, st, depth)
    ensures var v := EvalN(p, e, st, depth);
            var r := ExecN(p, [NBreakUnless(e)] + rest, locals, st, depth);
      if v.res.NOk? then
        if !v.res.value.Bool? then r.res.NErr?
        else if v.res.value.b then r == ExecN(p, rest, locals, v.st, depth)
        else r == NExec(v.st, locals, NOk(BreakFlow))
      else r == NExec(v.st, locals, Failed(v.res))
  {
    hide EvalN, ExecOne;
    StepUse(p, NBreakUnless(e), rest, locals, st, depth);
  }

  // ---- statements on locals ---------------------------------------------------------------

  predicate IsLocal(s: NStmt) {
    IsFlat(s) && !IsEvaluating(s) && !s.NArraySet? && !s.NPrint? && !s.NPrintf?
  }

  lemma StepLocal(p: NProgram, s: NStmt, rest: seq<NStmt>, locals: Locals, st: NState, depth: nat)
    requires Fits(p, st, depth) && IsLocal(s)
    ensures ExecN(p, [s] + rest, locals, st, depth) == Resume(p, ExecLocal(p, s, locals, st), rest, depth)
  {
    hide ExecLocal;
    ExecStep(p, s, rest, locals, st, depth);
  }

  lemma StepTick(p: NProgram, rest: seq<NStmt>, locals: Locals, st: NState, depth: nat)
    requires Fits(p, st, depth)
    ensures var r := ExecN(p, [NTick] + rest, locals, st, depth);
      if st.loops >= p.budget then r == NExec(st, locals, NErr)
      else r == ExecN(p, rest, locals, st.(loops := st.loops + 1), depth)
  {
    hide ExecOne;
    StepLocal(p, NTick, rest, locals, st, depth);
  }

  lemma StepInsert(p: NProgram, name: string, x: string, v: Value, rest: seq<NStmt>, locals: Locals, st: NState, depth: nat)
    requires Fits(p, st, depth) && Get(locals, x) == Some(LValue(v))
    ensures ExecN(p, [NInsert(name, x)] + rest, locals, st, depth)
         == ExecN(p, rest, locals, st.(env := st.env[name := v]), depth)
  {
    hide ExecOne, Get;
    StepLocal(p, NInsert(name, x), rest, locals, st, depth);
  }

  lemma StepInsertIndex(p: NProgram, name: string, x: string, i: int, rest: seq<NStmt>, locals: Locals, st: NState, depth: nat)
    requires Fits(p, st, depth) && Get(locals, x) == Some(LInt(i))
    ensures ExecN(p, [NInsertIndex(name, x)] + rest, locals, st, depth)
         == ExecN(p, rest, locals, st.(env := st.env[name := Scalar(i as real)]), depth)
  {
    hide ExecOne, Get;
    StepLocal(p, NInsertIndex(name, x), rest, locals, st, depth);
  }

  lemma StepAdvance(p: NProgram, x: string, delta: string, i: int, d: int, rest: seq<NStmt>, locals: Locals, st: NState, depth: nat)
    requires Fits(p, st, depth) && Get(locals, x) == Some(LInt(i)) && Get(locals, delta) == Some(LInt(d))
    ensures ExecN(p, [NAdvance(x, delta)] + rest, locals, st, depth)
         == ExecN(p, rest, Set(locals, x, LInt(i + d)), st, depth)
  {
    hide ExecOne, Get, Set;
    StepLocal(p, NAdvance(x, delta), rest, locals, st, depth);
  }

  lemma StepSetFlag(p: NProgram, x: string, b: bool, rest: seq<NStmt>, locals: Locals, st: NState, depth: nat)
    requires Fits(p, st, depth)
    ensures ExecN(p, [NSetFlag(x, b)] + rest, locals, st, depth) == ExecN(p, rest, Set(locals, x, LFlag(b)), st, depth)
  {
    hide ExecOne, Set;
    StepLocal(p, NSetFlag(x, b), rest, locals, st, depth);
  }

  lemma StepLetFlag(p: NProgram, x: string, b: bool, rest: seq<NStmt>, locals: Locals, st: NState, depth: nat)
    requires Fits(p, st, depth)
    ensures ExecN(p, [NLetFlag(x, b)] + rest, locals, st, depth) == ExecN(p, rest, locals + [(x, LFlag(b))], st, depth)
  {
    hide ExecOne;
    StepLocal(p, NLetFlag(x, b), rest, locals, st, depth);
  }

  lemma StepLetCopy(p: NProgram, x: string, from: string, l: Local, rest: seq<NStmt>, locals: Locals, st: NState, depth: nat)
    requires Fits(p, st, depth) && Get(locals, from) == Some(l)
    ensures ExecN(p, [NLetCopy(x, from)] + rest, locals, st, depth) == ExecN(p, rest, locals + [(x, l)], st, depth)
  {
    hide ExecOne, Get;
    StepLocal(p, NLetCopy(x, from), rest, locals, st, depth);
  }

  lemma StepLetItems(p: NProgram, x: string, from: string, v: Value, rest: seq<NStmt>, locals: Locals, st: NState, depth: nat)
    requires Fits(p, st, depth) && Get(locals, from) == Some(LValue(v))
    ensures var r := ExecN(p, [NLetItems(x, from)] + rest, locals, st, depth);
      if v.Array? then r == ExecN(p, rest, locals + [(x, LItems(v.items))], st, depth)
      else r == NExec(st, locals, NErr)
  {
    hide ExecOne, Get;
    StepLocal(p, NLetItems(x, from), rest, locals, st, depth);
  }

  lemma StepRefuseZero(p: NProgram, x: string, i: int, rest: seq<NStmt>, locals: Locals, st: NState, depth: nat)
    requires Fits(p, st, depth) && Get(locals, x) == Some(LInt(i))
    ensures var r := ExecN(p, [NRefuseZero(x)] + rest, locals, st, depth);
      if i == 0 then r == NExec(st, locals, NErr) else r == ExecN(p, rest, locals, st, depth)
  {
    hide ExecOne, Get;
    StepLocal(p, NRefuseZero(x), rest, locals, st, depth);
  }

  lemma StepRecord(p: NProgram, name: string, rest: seq<NStmt>, locals: Locals, st: NState, depth: nat)
    requires Fits(p, st, depth)
    ensures var r := ExecN(p, [NRecord(name)] + rest, locals, st, depth);
      if |st.names + {name}| > MAX_RECORDED_NAMES then r.res.NErr?
      else r == ExecN(p, rest, locals, st.(names := st.names + {name}), depth)
  {
    hide ExecOne;
    StepLocal(p, NRecord(name), rest, locals, st, depth);
  }

  // ---- loop heads and case arms -----------------------------------------------------------

  /** The Rust locals of a range loop. */
  function RangeLocals(outer: Locals, start: int, stop: int, step: int, index: int): Locals {
    outer + [("start", LInt(start))] + [("stop", LInt(stop))] + [("step", LInt(step))] + [("index", LInt(index))]
  }

  lemma RangeLocalsGive(outer: Locals, start: int, stop: int, step: int, index: int)
    ensures var l := RangeLocals(outer, start, stop, step, index);
      Get(l, "index") == Some(LInt(index)) && Get(l, "stop") == Some(LInt(stop)) && Get(l, "step") == Some(LInt(step))
  {
    hide Get;
    var l1 := outer + [("start", LInt(start))];
    var l2 := l1 + [("stop", LInt(stop))];
    var l3 := l2 + [("step", LInt(step))];
    GetLast(l1, "stop", LInt(stop));
    GetBefore(l2, "stop", "step", LInt(step));
    GetLast(l2, "step", LInt(step));
    GetBefore(l3, "stop", "index", LInt(index));
    GetBefore(l3, "step", "index", LInt(index));
    GetLast(l3, "index", LInt(index));
  }

  lemma RangeLocalsSet(outer: Locals, start: int, stop: int, step: int, index: int, next: int)
    ensures Set(RangeLocals(outer, start, stop, step, index), "index", LInt(next)) == RangeLocals(outer, start, stop, step, next)
  {
    hide Set;
    SetLast(outer + [("start", LInt(start))] + [("stop", LInt(stop))] + [("step", LInt(step))], "index", LInt(index), LInt(next));
  }

  /** A range iteration up to its body: tick, bind the variable, move the index on. */
  lemma RangeHead(p: NProgram, variable: string, body: seq<NStmt>, outer: Locals, start: int, stop: int, step: int,
                  index: int, ns: NState, depth: nat)
    requires Fits(p, ns, depth)
    ensures var r := ExecN(p, [NTick, NInsertIndex(variable, "index"), NAdvance("index", "step")] + body,
                           RangeLocals(outer, start, stop, step, index), ns, depth);
      if ns.loops >= p.budget then r == NExec(ns, RangeLocals(outer, start, stop, step, index), NErr)
      else r == ExecN(p, body, RangeLocals(outer, start, stop, step, index + step),
                      ns.(loops := ns.loops + 1, env := ns.env[variable := Scalar(index as real)]), depth)
  {
    hide ExecOne, ExecN, Get, Set, RangeLocals;
    var l := RangeLocals(outer, start, stop, step, index);
    RangeLocalsGive(outer, start, stop, step, index);
    RangeLocalsSet(outer, start, stop, step, index, index + step);
    var rest2 := [NAdvance("index", "step")] + body;
    var rest1 := [NInsertIndex(variable, "index")] + rest2;
    assert [NTick, NInsertIndex(variable, "index"), NAdvance("index", "step")] + body == [NTick] + rest1;
    StepTick(p, rest1, l, ns, depth);
    if ns.loops < p.budget {
      var ns1 := ns.(loops := ns.loops + 1);
      StepInsertIndex(p, variable, "index", index, rest2, l, ns1, depth);
      var ns2 := ns1.(env := ns1.env[variable := Scalar(index as real)]);
      StepAdvance(p, "index", "step", index, step, body, l, ns2, depth);
    }
  }

  /** The end of a range loop's block: the step check, the index, the loop. */
  lemma RangeTail(p: NProgram, loop: NStmt, outer: Locals, start: int, stop: int, step: int, ns: NState, depth: nat)
    requires Fits(p, ns, depth)
    ensures var r := ExecN(p, [NRefuseZero("step"), NLetCopy("index", "start"), loop],
                           outer + [("start", LInt(start))] + [("stop", LInt(stop))] + [("step", LInt(step))], ns, depth);
      if step == 0 then r.res.NErr?
      else r == ExecOne(p, loop, RangeLocals(outer, start, stop, step, start), ns, depth)
  {
    hide ExecOne, ExecN, Get, Set;
    var l1 := outer + [("start", LInt(start))];
    var l2 := l1 + [("stop", LInt(stop))];
    var l3 := l2 + [("step", LInt(step))];
    GetLast(l2, "step", LInt(step));
    GetBefore(l2, "start", "step", LInt(step));
    GetBefore(l1, "start", "stop", LInt(stop));
    GetLast(outer, "start", LInt(start));
    var rest := [NLetCopy("index", "start"), loop];
    assert [NRefuseZero("step"), NLetCopy("index", "start"), loop] == [NRefuseZero("step")] + rest;
    StepRefuseZero(p, "step", step, rest, l3, ns, depth);
    if step != 0 {
      assert rest == [NLetCopy("index", "start")] + [loop];
      StepLetCopy(p, "index", "start", LInt(start), [loop], l3, ns, depth);
      ExecSingle(p, loop, RangeLocals(outer, start, stop, step, start), ns, depth);
    }
  }

  /** A direct-loop iteration up to its body. */
  lemma ItemHead(p: NProgram, variable: string, body: seq<NStmt>, outer: Locals, item: Value, ns: NState, depth: nat)
    requires Fits(p, ns, depth)
    ensures var l := outer + [("item", LValue(item))];
            var r := ExecN(p, [NTick, NInsert(variable, "item")] + body, l, ns, depth);
      if ns.loops >= p.budget then r == NExec(ns, l, NErr)
      else r == ExecN(p, body, l, ns.(loops := ns.loops + 1, env := ns.env[variable := item]), depth)
  {
    hide ExecOne, ExecN, Get, Set;
    var l := outer + [("item", LValue(item))];
    GetLast(outer, "item", LValue(item));
    var rest := [NInsert(variable, "item")] + body;
    assert [NTick, NInsert(variable, "item")] + body == [NTick] + rest;
    StepTick(p, rest, l, ns, depth);
    if ns.loops < p.budget {
      StepInsert(p, variable, "item", item, body, l, ns.(loops := ns.loops + 1), depth);
    }
  }

  /** The locals of a switch block. */
  function SwitchLocals(outer: Locals, selected: Value, matched: bool): Locals {
    outer + [("switch_value", LValue(selected))] + [("switch_matched", LFlag(matched))]
  }

  /** The locals inside a tried case arm. */
  function CaseLocals(outer: Locals, selected: Value, matched: bool, label': Value): Locals {
    SwitchLocals(outer, selected, matched) + [("case_value", LValue(label'))]
  }

  lemma SwitchLocalsGive(outer: Locals, selected: Value, matched: bool)
    ensures var l := SwitchLocals(outer, selected, matched);
      Get(l, "switch_value") == Some(LValue(selected)) && Get(l, "switch_matched") == Some(LFlag(matched))
  {
    hide Get;
    var l1 := outer + [("switch_value", LValue(selected))];
    GetLast(outer, "switch_value", LValue(selected));
    GetBefore(l1, "switch_value", "switch_matched", LFlag(matched));
    GetLast(l1, "switch_matched", LFlag(matched));
  }

  lemma SetMatched(outer: Locals, selected: Value, v: Value)
    ensures Set(CaseLocals(outer, selected, false, v), "switch_matched", LFlag(true)) == CaseLocals(outer, selected, true, v)
  {
    var l1 := outer + [("switch_value", LValue(selected))];
    var l := SwitchLocals(outer, selected, false);
    SetLast(l1, "switch_matched", LFlag(false), LFlag(true));
    assert CaseLocals(outer, selected, false, v)[..|l|] == l;
  }

  /** A flag-guarded arm while nothing has matched yet. */
  lemma StepIfUnset(p: NProgram, x: string, body: seq<NStmt>, matched: bool, rest: seq<NStmt>, locals: Locals, st: NState, depth: nat)
    requires Fits(p, st, depth) && Get(locals, x) == Some(LFlag(matched))
    ensures ExecN(p, [NIfUnset(x, body)] + rest, locals, st, depth) ==
              if matched then ExecN(p, rest, locals, st, depth)
              else Resume(p, Scope(ExecN(p, body, locals, st, depth), locals), rest, depth)
  {
    hide Get, ExecN;
    ExecStep(p, NIfUnset(x, body), rest, locals, st, depth);
    assert ExecOne(p, NIfUnset(x, body), locals, st, depth) == ExecChoice(p, NIfUnset(x, body), locals, st, depth);
  }

  /** The inside of a tried arm, once its label has a value. */
  lemma CaseInside(p: NProgram, code: seq<NStmt>, outer: Locals, selected: Value, v: Value, ns: NState, depth: nat)
    requires Fits(p, ns, depth)
    ensures var l1, l2 := CaseLocals(outer, selected, false, v), CaseLocals(outer, selected, true, v);
            var r := ExecN(p, [NIfEqual("switch_value", "case_value", [NSetFlag("switch_matched", true)] + code)], l1, ns, depth);
      match RtCompare("==", selected, v)
      case Err => r == NExec(ns, l1, NErr)
      case Ok(hit) =>
        if hit then r == Scope(ExecN(p, code, l2, ns, depth), l1) else r == NExec(ns, l1, NOk(Next))
  {
    hide Get, Set, ExecN, RtCompare;
    var l := SwitchLocals(outer, selected, false);
    var l1 := CaseLocals(outer, selected, false, v);
    SwitchLocalsGive(outer, selected, false);
    GetBefore(l, "switch_value", "case_value", LValue(v));
    GetLast(l, "case_value", LValue(v));
    SetMatched(outer, selected, v);
    var body := [NSetFlag("switch_matched", true)] + code;
    var s := NIfEqual("switch_value", "case_value", body);
    ExecSingle(p, s, l1, ns, depth);
    assert ExecOne(p, s, l1, ns, depth) == ExecChoice(p, s, l1, ns, depth);
    StepSetFlag(p, "switch_matched", true, code, l1, ns, depth);
  }
}
