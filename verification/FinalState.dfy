/** The final-state evidence of COMPLETELY_MAD runs (src/mad.rs): the assignment scan as it runs, and
    the scope check that a later verification applies to the recorded names. */
module FinalState {
  import opened Prelude
  import opened Ast
  import opened Values
  import opened Interpreter
  import opened Scans
  import opened RunInvariants
  import opened Parity

  /** `assignments`: inserts into one growing set, statement by statement, into every nested body but
      those of functions. */
  method Assignments(ss: seq<Stmt>, seen: set<string>) returns (names: set<string>)
    ensures names == seen + Assigned(ss)
    decreases ss
  {
    names := seen;
    assert ss[0..] == ss;
    for i := 0 to |ss|
      invariant names + Assigned(ss[i..]) == seen + Assigned(ss)
    {
      assert ss[i..][0] == ss[i] && ss[i..][1..] == ss[i + 1..];
      ghost var before := names;
      match ss[i] {
        case Assign(name, _) => names := names + {name};
        case For(_, _, _, _, body) => names := Assignments(body, names);
        case ForEach(_, _, body) => names := Assignments(body, names);
        case While(_, body) => names := Assignments(body, names);
        case If(_, _) => names := AssignmentsInArms(ss[i], names);
        case Switch(_, _, _) => names := AssignmentsInArms(ss[i], names);
        case _ =>
      }
      assert names == before + AssignedBy(ss[i]);
    }
  }

  method AssignmentsInArms(s: Stmt, seen: set<string>) returns (names: set<string>)
    requires s.If? || s.Switch?
    ensures names == seen + AssignedBy(s)
    decreases s, 0
  {
    names := seen;
    assert s.arms[0..] == s.arms;
    for i := 0 to |s.arms|
      invariant names + AssignedInArms(s.arms[i..]) == seen + AssignedInArms(s.arms)
    {
      assert s.arms[i..][0] == s.arms[i] && s.arms[i..][1..] == s.arms[i + 1..];
      names := Assignments(s.arms[i].body, names);
    }
    if s.otherwise.Tail? {
      names := Assignments(s.otherwise.body, names);
    }
  }

  /** The scope check of `verify`: recorded names are assigned somewhere in the source, and those of a
      complete run include every top-level assignment. */
  predicate InScope(p: Program, names: set<string>, complete: bool) {
    && names <= Assigned(p)
    && (complete ==> forall s | s in p && s.Assign? :: s.name in names)
  }

  /** Recorded names never go away. */
  lemma TopGrows(c: Context, ss: seq<Stmt>, st: State)
    requires Within(c, st) && Trusted(c.m) && Sound(st)
    ensures st.names <= RunTop(c, ss, st).st.names
  {
    hide Trusted, Sound, RunTop;
    var calls := StmtsCalls(ss) + (set f, x | f in c.funcs && x in StmtsCalls(c.funcs[f].body) :: x);
    TopKeeps(c, calls, ss, st);
  }

  lemma {:induction false} TopAssignmentsRecorded(c: Context, ss: seq<Stmt>, st: State, k: nat)
    requires Within(c, st) && Trusted(c.m) && Sound(st) && c.mad && st.depth == 0
    requires k < |ss| && ss[k].Assign? && RunTop(c, ss, st).res.Ok?
    ensures ss[k].name in RunTop(c, ss, st).st.names
    decreases |ss|
  {
    hide Trusted, Sound, EvalExpr, Assigned;
    var first := ExecStmt(c, ss[0], st);
    StmtStaysSound(c, ss[0], st);
    if k == 0 {
      assert first == ExecSimple(c, ss[0], st) == ExecAssign(c, ss[0], st);
      TopGrows(c, ss[1..], first.st);
    } else {
      TopAssignmentsRecorded(c, ss[1..], first.st, k - 1);
    }
  }

  lemma StmtStaysSound(c: Context, s: Stmt, st: State)
    requires Within(c, st) && Trusted(c.m) && Sound(st)
    ensures Sound(ExecStmt(c, s, st).st)
  {
    hide Trusted, Sound, ExecStmt;
    var calls := StmtCalls(s) + (set f, x | f in c.funcs && x in StmtsCalls(c.funcs[f].body) :: x);
    StmtKeeps(c, calls, s, st);
  }

  /** The evidence of every run passes its own scope check: a failed run's names as a partial record,
      a successful run's as a complete one. */
  lemma EvidenceIsInScope(m: Machine, p: Program, w: World)
    requires Trusted(m)
    ensures InScope(p, Run(m, p, w).st.names, Declares(p, "COMPLETELY_MAD") && Run(m, p, w).res.Ok?)
  {
    hide Trusted, RunTop, Assigned, StmtsCalls;
    RecordedNamesBound(m, p, w);
    if Declares(p, "COMPLETELY_MAD") && Run(m, p, w).res.Ok? {
      forall s | s in p && s.Assign?
        ensures s.name in Run(m, p, w).st.names
      {
        var k :| 0 <= k < |p| && p[k] == s;
        TopAssignmentsRecorded(ContextOf(m, p), p, InitialState(w), k);
      }
    }
  }

  // ---- range loops ------------------------------------------------------------------------

  /** The indices a range visits, in order. */
  function Indices(start: int, stop: int, step: int): (r: seq<int>)
    requires step != 0
    decreases if step > 0 then stop - start else start - stop
  {
    if !RangeContinues(start, stop, step) then [] else [start] + Indices(start + step, stop, step)
  }

  /** The k-th index is start + k * step, on the near side of stop. */
  lemma {:induction false} IndexAt(start: int, stop: int, step: int, k: nat)
    requires step != 0 && k < |Indices(start, stop, step)|
    ensures Indices(start, stop, step)[k] == start + k * step
    ensures RangeContinues(start + k * step, stop, step)
    decreases k
  {
    if k > 0 {
      IndexAt(start + step, stop, step, k - 1);
      assert start + step + (k - 1) * step == start + k * step;
    }
  }

  /** No index is missing: one more step would pass stop. */
  lemma {:induction false} IndicesReachStop(start: int, stop: int, step: int)
    requires step != 0
    ensures !RangeContinues(start + |Indices(start, stop, step)| * step, stop, step)
    decreases if step > 0 then stop - start else start - stop
  {
    var n := |Indices(start, stop, step)|;
    if RangeContinues(start, stop, step) {
      IndicesReachStop(start + step, stop, step);
      assert start + step + (n - 1) * step == start + n * step;
    }
  }

  /** A loop over a list of indices. */
  function RunIndices(c: Context, s: Stmt, indices: seq<int>, st: State): (r: Out<Flow>)
    requires Within(c, st) && s.For?
    ensures After(c, st, r.st)
    decreases |indices|
  {
    if |indices| == 0 then Out(st, Ok(Normal))
    else
      var tick := Tick(c, st);
      if tick.res.Err? then Out(tick.st, Err)
      else
        var body := ExecBlock(c, s.body, tick.st.(env := st.env[s.variable := Scalar(indices[0] as real)]));
        if body.res.Err? || body.res.value.Returned? then body
        else if body.res.value.Broke? then Out(body.st, Ok(Normal))
        else RunIndices(c, s, indices[1..], body.st)
  }

  /** A range loop is a loop over its indices, whatever its body does to the variable. */
  lemma {:induction false} RangeIsItsIndices(c: Context, s: Stmt, index: int, stop: int, step: int, st: State)
    requires Within(c, st) && s.For? && step != 0
    ensures RunRange(c, s, index, stop, step, st) == RunIndices(c, s, Indices(index, stop, step), st)
    decreases c.budget - st.loops
  {
    hide ExecBlock;
    if RangeContinues(index, stop, step) {
      var tick := Tick(c, st);
      if tick.res.Ok? {
        var body := ExecBlock(c, s.body, tick.st.(env := st.env[s.variable := Scalar(index as real)]));
        assert Indices(index, stop, step)[1..] == Indices(index + step, stop, step);
        if body.res.Ok? && !body.res.value.Returned? && !body.res.value.Broke? {
          RangeIsItsIndices(c, s, index + step, stop, step, body.st);
        }
      }
    }
  }

  /** Every index bound to a range variable is an integer that a double carries exactly. */
  lemma IndicesAreExact(v: Value, w: Value, step: int)
    requires LoopInteger(v).Ok? && LoopInteger(w).Ok? && step != 0
    ensures forall i | i in Indices(LoopInteger(v).value, LoopInteger(w).value, step) :: -MAX_SAFE <= i <= MAX_SAFE
  {
    var start, stop := LoopInteger(v).value, LoopInteger(w).value;
    var all := Indices(start, stop, step);
    forall i | i in all
      ensures -MAX_SAFE <= i <= MAX_SAFE
    {
      var k :| 0 <= k < |all| && all[k] == i;
      IndexAt(start, stop, step, k);
      Between(start, step, k);
    }
  }

  lemma Between(start: int, step: int, k: nat)
    ensures if step > 0 then start <= start + k * step else start + k * step <= start
  {
  }
}
