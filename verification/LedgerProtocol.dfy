/** Many appenders on one ledger, interleaved step by step, any of which may fail or die between whole
    steps (src/ledger.rs: `append`, `LedgerLock`, `atomic_write_json`). */
module LedgerProtocol {
  import opened Prelude
  import opened Ledger

  /** Where an appender stands: outside; holding the lock; with its event made; with the event written
      to the log; with the checkpoint written. A dead appender never moves again. */
  datatype Stage = Idle | Locked | Made(event: Event) | Written(event: Event) | Checkpointed | Dead(at: Stage)

  datatype State = State(log: Option<seq<Line>>, head: Option<Head>, lock: Option<nat>, stage: map<nat, Stage>)

  function Content(log: Option<seq<Line>>): seq<Line> {
    match log
    case None => []
    case Some(lines) => lines
  }

  function Checkpoint(e: Event): Head {
    Head(Some(e.core.sequence), Some(e.hash))
  }

  /** What the audit of an appender finds: a verified ledger with these events. */
  ghost predicate AuditPasses(hash: Hash, s: State, events: seq<Event>) {
    match s.log
    case None => events == []
    case Some(lines) => Verified(hash, lines, s.head, events)
  }

  // ---- steps ------------------------------------------------------------------------------

  /** `LedgerLock::acquire`: creating the lock file succeeds for one. */
  ghost predicate Acquire(s: State, s': State, p: nat) {
    s.lock == None && s' == s.(lock := Some(p), stage := s.stage[p := Locked])
  }

  /** The audit passes and the event is made. */
  ghost predicate Make(hash: Hash, s: State, s': State, p: nat) {
    exists events, timestamp, eventType, subject, payload ::
      && AuditPasses(hash, s, events)
      && s' == s.(stage := s.stage[p := Made(NextEvent(hash, events, timestamp, eventType, subject, payload))])
  }

  /** The audit fails: the appender refuses, and the lock goes with it. */
  ghost predicate Refuse(hash: Hash, s: State, s': State, p: nat) {
    && (forall events :: !AuditPasses(hash, s, events))
    && s' == s.(lock := None, stage := s.stage[p := Idle])
  }

  ghost predicate WriteLog(s: State, s': State, p: nat, event: Event) {
    s' == s.(log := Some(Content(s.log) + [Entry(event)]), stage := s.stage[p := Written(event)])
  }

  ghost predicate WriteHead(s: State, s': State, p: nat, event: Event) {
    s' == s.(head := Some(Checkpoint(event)), stage := s.stage[p := Checkpointed])
  }

  /** Success, or an error between two steps: dropping the lock removes the lock file. */
  ghost predicate Release(s: State, s': State, p: nat) {
    s' == s.(lock := None, stage := s.stage[p := Idle])
  }

  /** A crash: the lock file stays behind. */
  ghost predicate Die(s: State, s': State, p: nat)
    requires p in s.stage
  {
    s' == s.(stage := s.stage[p := Dead(s.stage[p])])
  }

  ghost predicate Step(hash: Hash, s: State, s': State, p: nat) {
    p in s.stage &&
    match s.stage[p]
    case Idle => Acquire(s, s', p) || Die(s, s', p)
    case Locked => Make(hash, s, s', p) || Refuse(hash, s, s', p) || Release(s, s', p) || Die(s, s', p)
    case Made(event) => WriteLog(s, s', p, event) || Release(s, s', p) || Die(s, s', p)
    case Written(event) => WriteHead(s, s', p, event) || Release(s, s', p) || Die(s, s', p)
    case Checkpointed => Release(s, s', p) || Die(s, s', p)
    case Dead(_) => false
  }

  ghost predicate Reaches(hash: Hash, s: State, s': State) {
    exists p :: Step(hash, s, s', p)
  }

  ghost predicate Moves(hash: Hash, trace: seq<State>) {
    forall i: nat | 0 < i < |trace| :: Reaches(hash, trace[i - 1], trace[i])
  }

  lemma MovesBefore(hash: Hash, trace: seq<State>, k: nat)
    requires Moves(hash, trace) && k <= |trace|
    ensures Moves(hash, trace[..k])
  {
    hide Reaches;
  }

  /** A run: each state follows from the one before by a step of some appender. */
  ghost predicate Run(hash: Hash, trace: seq<State>) {
    && |trace| > 0 && Start(hash, trace[0])
    && Moves(hash, trace)
  }

  /** A run starts on an absent or a verified ledger, unlocked, with every appender outside. */
  ghost predicate Start(hash: Hash, s: State) {
    && s.lock == None && (forall p | p in s.stage :: s.stage[p] == Idle)
    && (s.log == None ==> s.head == None)
    && exists events :: AuditPasses(hash, s, events) && Chain(hash, events)
  }

  // ---- the invariant ----------------------------------------------------------------------

  /** The stage an appender has reached, dead or alive. */
  function Reached(stage: Stage): Stage {
    match stage
    case Dead(at) => Reached(at)
    case _ => stage
  }

  predicate Inside(stage: Stage) {
    Reached(stage) != Idle
  }

  /** The checkpoint is up to date for these events; an absent log needs none. */
  ghost predicate Current(s: State, events: seq<Event>) {
    if s.log == None then events == [] && s.head == None else Names(s.head, events)
  }

  /** The checkpoint is one event behind. */
  ghost predicate Lags(s: State, events: seq<Event>) {
    && |events| > 0 && s.log != None
    && (if s.head == None then |events| == 1 else Names(s.head, events[..|events| - 1]))
  }

  /** What an appender inside the lock knows. */
  ghost predicate Knows(hash: Hash, s: State, events: seq<Event>, stage: Stage) {
    match Reached(stage)
    case Made(event) =>
      Current(s, events) && Chain(hash, events + [event]) && event.core.sequence == |events| + 1
    case Written(event) => Lags(s, events) && events[|events| - 1] == event
    case Checkpointed => Current(s, events)
    case _ => true
  }

  /** The log holds exactly `events`, a chain; the checkpoint is current or one behind; whoever is
      inside holds the lock, and the lock is held by someone inside. */
  ghost predicate Inv(hash: Hash, s: State, events: seq<Event>) {
    && Content(s.log) == Lines(events) && Chain(hash, events)
    && (Current(s, events) || Lags(s, events))
    && (forall p | p in s.stage && Inside(s.stage[p]) :: s.lock == Some(p) && Knows(hash, s, events, s.stage[p]))
    && (s.lock.Some? ==> s.lock.value in s.stage && Inside(s.stage[s.lock.value]))
  }

  lemma NamesOne(head: Option<Head>, events: seq<Event>, k: nat)
    requires k < |events|
    ensures !(Names(head, events) && Names(head, events[..k]))
  {
  }

  /** A checkpoint is not both current and behind, and while it is behind no audit passes. */
  lemma LagFailsAudit(hash: Hash, s: State, events: seq<Event>)
    requires Content(s.log) == Lines(events) && Lags(s, events)
    ensures !Current(s, events) && forall all :: !AuditPasses(hash, s, all)
  {
    NamesOne(s.head, events, |events| - 1);
    Unlined(s.log.value, events);
  }

  lemma AuditIsCurrent(hash: Hash, s: State, events: seq<Event>, found: seq<Event>)
    requires Inv(hash, s, events) && AuditPasses(hash, s, found)
    ensures found == events && Current(s, events)
  {
    if s.log.Some? {
      Unlined(s.log.value, events);
    } else {
      assert |Lines(events)| == 0;
      if Lags(s, events) {
        LagFailsAudit(hash, s, events);
      }
    }
  }

  lemma StartsInside(hash: Hash, s: State) returns (events: seq<Event>)
    requires Start(hash, s)
    ensures Inv(hash, s, events)
  {
    events :| AuditPasses(hash, s, events) && Chain(hash, events);
  }

  /** Only the holder of the lock is inside. */
  lemma Alone(hash: Hash, s: State, events: seq<Event>, p: nat, q: nat)
    requires Inv(hash, s, events) && p in s.stage && q in s.stage && Inside(s.stage[p]) && Inside(s.stage[q])
    ensures p == q
  {
  }

  // ---- every step keeps it ----------------------------------------------------------------

  lemma MakeKeeps(hash: Hash, s: State, s': State, p: nat, events: seq<Event>)
    requires Inv(hash, s, events) && p in s.stage && s.stage[p] == Locked && Make(hash, s, s', p)
    ensures Inv(hash, s', events)
  {
    var found, timestamp, eventType, subject, payload :|
      && AuditPasses(hash, s, found)
      && s' == s.(stage := s.stage[p := Made(NextEvent(hash, found, timestamp, eventType, subject, payload))]);
    AuditIsCurrent(hash, s, events, found);
    ChainGrows(hash, events, NextEvent(hash, events, timestamp, eventType, subject, payload));
    assert Inside(s.stage[p]);
  }

  lemma WriteLogKeeps(hash: Hash, s: State, s': State, p: nat, event: Event, events: seq<Event>)
    requires Inv(hash, s, events) && p in s.stage && s.stage[p] == Made(event) && WriteLog(s, s', p, event)
    ensures Inv(hash, s', events + [event])
  {
    var longer := events + [event];
    assert Inside(s.stage[p]) && Knows(hash, s, events, s.stage[p]);
    assert longer[..|longer| - 1] == events;
    assert Content(s'.log) == Lines(longer);
    assert Lags(s', longer) by {
      if s.log == None {
        assert |events| == 0;
      }
    }
    forall q | q in s'.stage && Inside(s'.stage[q])
      ensures s'.lock == Some(q) && Knows(hash, s', longer, s'.stage[q])
    {
      if q != p {
        Alone(hash, s, events, p, q);
      }
    }
  }

  lemma WriteHeadKeeps(hash: Hash, s: State, s': State, p: nat, event: Event, events: seq<Event>)
    requires Inv(hash, s, events) && p in s.stage && s.stage[p] == Written(event) && WriteHead(s, s', p, event)
    ensures Inv(hash, s', events)
  {
    assert Inside(s.stage[p]) && Knows(hash, s, events, s.stage[p]);
    assert Linked(hash, events, |events| - 1);
    assert Current(s', events);
    forall q | q in s'.stage && Inside(s'.stage[q])
      ensures s'.lock == Some(q) && Knows(hash, s', events, s'.stage[q])
    {
      if q != p {
        Alone(hash, s, events, p, q);
      }
    }
  }

  lemma LeaveKeeps(hash: Hash, s: State, s': State, p: nat, events: seq<Event>)
    requires Inv(hash, s, events) && p in s.stage && Inside(s.stage[p]) && Release(s, s', p)
    ensures Inv(hash, s', events)
  {
  }

  /** Every step leaves a valid chain that has grown by at most one event, and only by the step that
      writes it. */
  lemma StepKeeps(hash: Hash, s: State, s': State, p: nat, events: seq<Event>) returns (after: seq<Event>)
    requires Inv(hash, s, events) && Step(hash, s, s', p)
    ensures Inv(hash, s', after)
    ensures after == if s.stage[p].Made? && s'.stage[p].Written? then events + [s.stage[p].event] else events
  {
    after := events;
    match s.stage[p]
    case Idle =>
      if Acquire(s, s', p) {
        assert forall q | q in s'.stage && Inside(s'.stage[q]) :: q == p;
      } else {
        DieKeeps(hash, s, s', p, events);
      }
    case Locked =>
      if Make(hash, s, s', p) {
        MakeKeeps(hash, s, s', p, events);
      } else if Die(s, s', p) {
        DieKeeps(hash, s, s', p, events);
      } else {
        LeaveKeeps(hash, s, s', p, events);
      }
    case Made(event) =>
      if WriteLog(s, s', p, event) {
        WriteLogKeeps(hash, s, s', p, event, events);
        after := events + [event];
      } else if Die(s, s', p) {
        DieKeeps(hash, s, s', p, events);
      } else {
        LeaveKeeps(hash, s, s', p, events);
      }
    case Written(event) =>
      if WriteHead(s, s', p, event) {
        WriteHeadKeeps(hash, s, s', p, event, events);
      } else if Die(s, s', p) {
        DieKeeps(hash, s, s', p, events);
      } else {
        LeaveKeeps(hash, s, s', p, events);
      }
    case Checkpointed =>
      if Die(s, s', p) {
        DieKeeps(hash, s, s', p, events);
      } else {
        LeaveKeeps(hash, s, s', p, events);
      }
    case Dead(_) =>
  }

  lemma DieKeeps(hash: Hash, s: State, s': State, p: nat, events: seq<Event>)
    requires Inv(hash, s, events) && p in s.stage && Die(s, s', p)
    ensures Inv(hash, s', events)
  {
    assert Reached(Dead(s.stage[p])) == Reached(s.stage[p]);
    forall q | q in s'.stage && Inside(s'.stage[q])
      ensures s'.lock == Some(q) && Knows(hash, s', events, s'.stage[q])
    {
      assert Inside(s.stage[q]) && Knows(hash, s, events, s.stage[q]);
    }
  }

  // ---- every run --------------------------------------------------------------------------

  /** In every state of every run the log is a valid chain, the checkpoint names its last event or lags
      by exactly one, at most one appender is inside; and the log only ever grows. */
  lemma {:induction false} RunKeeps(hash: Hash, trace: seq<State>) returns (history: seq<seq<Event>>)
    requires Run(hash, trace)
    ensures |history| == |trace|
    ensures forall i: nat | i < |trace| :: Inv(hash, trace[i], history[i])
    ensures forall i: nat, j: nat | i <= j < |trace| :: history[i] <= history[j]
    decreases |trace|
  {
    hide Inv, Step, Start;
    if |trace| == 1 {
      var events := StartsInside(hash, trace[0]);
      history := [events];
    } else {
      var k := |trace| - 1;
      var before := trace[..k];
      MovesBefore(hash, trace, k);
      assert Reaches(hash, trace[k - 1], trace[k]);
      history := RunKeeps(hash, before);
      var p :| Step(hash, trace[k - 1], trace[k], p);
      assert before[k - 1] == trace[k - 1];
      var events := StepKeeps(hash, trace[k - 1], trace[k], p, history[k - 1]);
      assert history[k - 1] <= events;
      history := history + [events];
    }
  }

  /** In no state of any run are two appenders inside the lock. */
  lemma NeverTwoInside(hash: Hash, trace: seq<State>, i: nat, p: nat, q: nat)
    requires Run(hash, trace) && i < |trace| && p in trace[i].stage && q in trace[i].stage
    requires Inside(trace[i].stage[p]) && Inside(trace[i].stage[q])
    ensures p == q
  {
    hide Run, Inv, Inside;
    var history := RunKeeps(hash, trace);
    Alone(hash, trace[i], history[i], p, q);
  }

  // ---- a lagging checkpoint freezes the ledger --------------------------------------------

  /** The checkpoint is behind and the appender that would bring it up to date failed or died. */
  ghost predicate Frozen(hash: Hash, s: State, events: seq<Event>) {
    && Inv(hash, s, events) && Lags(s, events)
    && forall p | p in s.stage :: !s.stage[p].Written?
  }

  /** From then on every append refuses: no step changes the log or the checkpoint, ever again. */
  lemma FrozenStays(hash: Hash, s: State, s': State, p: nat, events: seq<Event>)
    requires Frozen(hash, s, events) && Step(hash, s, s', p)
    ensures Frozen(hash, s', events) && s'.log == s.log && s'.head == s.head
  {
    LagFailsAudit(hash, s, events);
    assert !s.stage[p].Made? && !s.stage[p].Checkpointed? by {
      if Inside(s.stage[p]) {
        assert Knows(hash, s, events, s.stage[p]);
      }
    }
    var after := StepKeeps(hash, s, s', p, events);
  }

  lemma {:induction false} FrozenForever(hash: Hash, trace: seq<State>, events: seq<Event>)
    requires |trace| > 0 && Frozen(hash, trace[0], events)
    requires Moves(hash, trace)
    ensures forall i: nat | i < |trace| :: trace[i].log == trace[0].log && trace[i].head == trace[0].head
    ensures Frozen(hash, trace[|trace| - 1], events)
    decreases |trace|
  {
    if |trace| > 1 {
      var k := |trace| - 1;
      var before := trace[..k];
      MovesBefore(hash, trace, k);
      assert Reaches(hash, trace[k - 1], trace[k]);
      FrozenForever(hash, before, events);
      assert before[k - 1] == trace[k - 1];
      var p :| Step(hash, trace[k - 1], trace[k], p);
      FrozenStays(hash, trace[k - 1], trace[k], p, events);
    }
  }

  /** A failure between writing the log and writing the checkpoint is what freezes a ledger. */
  lemma FailureFreezes(hash: Hash, s: State, s': State, p: nat, events: seq<Event>)
    requires Inv(hash, s, events) && p in s.stage && s.stage[p].Written?
    requires Release(s, s', p) || Die(s, s', p)
    ensures Frozen(hash, s', events)
  {
    assert Inside(s.stage[p]) && Knows(hash, s, events, s.stage[p]);
    assert Step(hash, s, s', p);
    var after := StepKeeps(hash, s, s', p, events);
    forall q | q in s'.stage
      ensures !s'.stage[q].Written?
    {
      if q != p && s'.stage[q].Written? {
        Alone(hash, s, events, p, q);
      }
    }
  }

  // ---- when a ledger can still grow -------------------------------------------------------

  ghost predicate AuditHolds(hash: Hash, s: State) {
    exists events :: AuditPasses(hash, s, events)
  }

  /** An audit passes exactly while the checkpoint is current. */
  lemma CurrentPasses(hash: Hash, s: State, events: seq<Event>)
    requires Inv(hash, s, events)
    ensures AuditHolds(hash, s) <==> Current(s, events)
    ensures Current(s, events) ==> AuditPasses(hash, s, events)
  {
    if Current(s, events) {
      assert AuditPasses(hash, s, events);
    }
    forall found | AuditPasses(hash, s, found)
      ensures Current(s, events)
    {
      AuditIsCurrent(hash, s, events, found);
    }
  }

  /** Some run from here writes to the log. */
  ghost predicate CanGrow(hash: Hash, s: State, log: Option<seq<Line>>) {
    exists trace :: Growing(hash, trace, s, log)
  }

  ghost predicate Growing(hash: Hash, trace: seq<State>, s: State, log: Option<seq<Line>>) {
    |trace| > 0 && trace[0] == s && Moves(hash, trace) && trace[|trace| - 1].log != log
  }

  /** An appender that is alive can get at the lock, and the audit passes or it is the one that can mend the
      checkpoint. */
  ghost predicate Promising(hash: Hash, s: State, p: nat) {
    && p in s.stage && !s.stage[p].Dead? && (s.lock == None || s.lock == Some(p))
    && (AuditHolds(hash, s) || s.stage[p].Written?)
  }

  ghost predicate Open(hash: Hash, s: State) {
    exists p :: Promising(hash, s, p)
  }

  lemma StepThenGrow(hash: Hash, s: State, s': State, p: nat, log: Option<seq<Line>>)
    requires Step(hash, s, s', p) && CanGrow(hash, s', log)
    ensures CanGrow(hash, s, log)
  {
    hide Step;
    var trace :| Growing(hash, trace, s', log);
    var longer := [s] + trace;
    forall i: nat | 0 < i < |longer|
      ensures Reaches(hash, longer[i - 1], longer[i])
    {
      if i > 1 {
        assert Reaches(hash, trace[i - 2], trace[i - 1]);
      }
    }
    assert Growing(hash, longer, s, log);
  }

  lemma GrownAlready(hash: Hash, s: State, log: Option<seq<Line>>)
    requires s.log != log
    ensures CanGrow(hash, s, log)
  {
    assert Growing(hash, [s], s, log);
  }

  /** From wherever it stands, an appender with a way ahead of it writes the next event. */
  lemma MadeGrows(hash: Hash, s: State, p: nat)
    requires p in s.stage && s.stage[p].Made?
    ensures CanGrow(hash, s, s.log)
  {
    var event := s.stage[p].event;
    var s' := s.(log := Some(Content(s.log) + [Entry(event)]), stage := s.stage[p := Written(event)]);
    assert |Content(s'.log)| == |Content(s.log)| + 1;
    GrownAlready(hash, s', s.log);
    StepThenGrow(hash, s, s', p, s.log);
  }

  lemma LockedGrows(hash: Hash, s: State, p: nat)
    requires p in s.stage && s.stage[p].Locked? && AuditHolds(hash, s)
    ensures CanGrow(hash, s, s.log)
  {
    var events :| AuditPasses(hash, s, events);
    var s' := s.(stage := s.stage[p := Made(NextEvent(hash, events, "", "", "", ""))]);
    assert Make(hash, s, s', p);
    MadeGrows(hash, s', p);
    StepThenGrow(hash, s, s', p, s.log);
  }

  lemma IdleGrows(hash: Hash, s: State, p: nat)
    requires p in s.stage && s.stage[p].Idle? && s.lock == None && AuditHolds(hash, s)
    ensures CanGrow(hash, s, s.log)
  {
    var s' := s.(lock := Some(p), stage := s.stage[p := Locked]);
    SameAudit(hash, s, s');
    LockedGrows(hash, s', p);
    StepThenGrow(hash, s, s', p, s.log);
  }

  lemma CheckpointedGrows(hash: Hash, s: State, p: nat)
    requires p in s.stage && s.stage[p].Checkpointed? && AuditHolds(hash, s)
    ensures CanGrow(hash, s, s.log)
  {
    var s' := s.(lock := None, stage := s.stage[p := Idle]);
    SameAudit(hash, s, s');
    IdleGrows(hash, s', p);
    StepThenGrow(hash, s, s', p, s.log);
  }

  lemma SameAudit(hash: Hash, s: State, s': State)
    requires s.log == s'.log && s.head == s'.head
    ensures AuditHolds(hash, s) <==> AuditHolds(hash, s')
  {
    assert forall events :: AuditPasses(hash, s, events) <==> AuditPasses(hash, s', events);
  }

  lemma WrittenGrows(hash: Hash, s: State, p: nat, events: seq<Event>)
    requires Inv(hash, s, events) && p in s.stage && s.stage[p].Written?
    ensures CanGrow(hash, s, s.log)
  {
    hide Inv;
    var event := s.stage[p].event;
    var s' := s.(head := Some(Checkpoint(event)), stage := s.stage[p := Checkpointed]);
    assert Step(hash, s, s', p);
    var after := StepKeeps(hash, s, s', p, events);
    CheckpointIsCurrent(hash, s', p, after);
    CheckpointedGrows(hash, s', p);
    StepThenGrow(hash, s, s', p, s.log);
  }

  /** An appender past the checks knows the checkpoint to be current. */
  lemma CheckpointIsCurrent(hash: Hash, s: State, p: nat, events: seq<Event>)
    requires Inv(hash, s, events) && p in s.stage && (s.stage[p].Checkpointed? || s.stage[p].Made?)
    ensures AuditHolds(hash, s) && s.lock == Some(p)
  {
    assert Inside(s.stage[p]) && Knows(hash, s, events, s.stage[p]);
    CurrentPasses(hash, s, events);
  }

  lemma OpenGrows(hash: Hash, s: State, p: nat, events: seq<Event>)
    requires Inv(hash, s, events) && Promising(hash, s, p)
    ensures CanGrow(hash, s, s.log)
  {
    match s.stage[p]
    case Idle =>
      assert s.lock == None;
      IdleGrows(hash, s, p);
    case Locked => LockedGrows(hash, s, p);
    case Made(_) => MadeGrows(hash, s, p);
    case Written(_) => WrittenGrows(hash, s, p, events);
    case Checkpointed => CheckpointedGrows(hash, s, p);
  }

  /** A ledger that nobody can write to stays so, and keeps its log and checkpoint, whoever moves. */
  lemma ShutStays(hash: Hash, s: State, s': State, p: nat, events: seq<Event>)
    requires Inv(hash, s, events) && !Open(hash, s) && Step(hash, s, s', p)
    ensures Inv(hash, s', events) && !Open(hash, s') && s'.log == s.log && s'.head == s.head
  {
    assert !Promising(hash, s, p);
    if Inside(s.stage[p]) {
      assert s.lock == Some(p) && Knows(hash, s, events, s.stage[p]);
    }
    CurrentPasses(hash, s, events);
    assert !s.stage[p].Made? && !s.stage[p].Written? && !s.stage[p].Checkpointed?;
    assert !(s.stage[p].Locked? && Make(hash, s, s', p));
    var after := StepKeeps(hash, s, s', p, events);
    SameAudit(hash, s, s');
    forall q
      ensures !Promising(hash, s', q)
    {
      assert !Promising(hash, s, q);
      ShutForOthers(hash, s, s', p, q, events);
    }
  }

  lemma ShutForOthers(hash: Hash, s: State, s': State, p: nat, q: nat, events: seq<Event>)
    requires Inv(hash, s, events) && !Promising(hash, s, p) && !Promising(hash, s, q) && Step(hash, s, s', p)
    requires s'.log == s.log && s'.head == s.head && (s.stage[p].Idle? || s.stage[p].Locked?) && !s'.stage[p].Made?
    requires AuditHolds(hash, s) <==> AuditHolds(hash, s')
    ensures !Promising(hash, s', q)
  {
    hide AuditHolds, AuditPasses;
    if Inside(s.stage[p]) {
      assert s.lock == Some(p);
    }
    if q in s.stage && Inside(s.stage[q]) {
      assert s.lock == Some(q);
    }
  }

  lemma {:induction false} ShutForever(hash: Hash, trace: seq<State>, events: seq<Event>)
    requires |trace| > 0 && Inv(hash, trace[0], events) && !Open(hash, trace[0]) && Moves(hash, trace)
    ensures Inv(hash, trace[|trace| - 1], events) && !Open(hash, trace[|trace| - 1])
    ensures trace[|trace| - 1].log == trace[0].log && trace[|trace| - 1].head == trace[0].head
    decreases |trace|
  {
    hide Inv, Open, Step;
    if |trace| > 1 {
      var k := |trace| - 1;
      var before := trace[..k];
      MovesBefore(hash, trace, k);
      assert Reaches(hash, trace[k - 1], trace[k]);
      ShutForever(hash, before, events);
      assert before[k - 1] == trace[k - 1];
      var p :| Step(hash, trace[k - 1], trace[k], p);
      ShutStays(hash, trace[k - 1], trace[k], p, events);
    }
  }

  /** In every state of every run: something more can be written to the log exactly when an appender that is
      alive can get at the lock and either an audit passes or that appender has written the event the
      checkpoint lacks. */
  lemma GrowsExactly(hash: Hash, trace: seq<State>, i: nat)
    requires Run(hash, trace) && i < |trace|
    ensures CanGrow(hash, trace[i], trace[i].log) <==> Open(hash, trace[i])
  {
    hide Run, Inv, Moves;
    var history := RunKeeps(hash, trace);
    GrowsFrom(hash, trace[i], history[i]);
  }

  lemma GrowsFrom(hash: Hash, s: State, events: seq<Event>)
    requires Inv(hash, s, events)
    ensures CanGrow(hash, s, s.log) <==> Open(hash, s)
  {
    hide Inv, Moves, Promising;
    if Open(hash, s) {
      var p :| Promising(hash, s, p);
      OpenGrows(hash, s, p, events);
    } else if CanGrow(hash, s, s.log) {
      var trace :| Growing(hash, trace, s, s.log);
      ShutForever(hash, trace, events);
    }
  }

  /** For a free lock that is a current checkpoint, as long as one appender is left. */
  lemma UnlockedGrowsExactly(hash: Hash, s: State, p: nat, events: seq<Event>)
    requires Inv(hash, s, events) && s.lock == None && p in s.stage && s.stage[p].Idle?
    ensures CanGrow(hash, s, s.log) <==> Current(s, events)
  {
    hide CanGrow, Current, AuditHolds;
    GrowsFrom(hash, s, events);
    CurrentPasses(hash, s, events);
    if AuditHolds(hash, s) {
      assert Promising(hash, s, p);
    } else {
      forall q
        ensures !Promising(hash, s, q)
      {
        if q in s.stage && s.stage[q].Written? {
          assert Inside(s.stage[q]);
        }
      }
    }
  }

  /** A lock that died with its holder is never freed, and nothing is written under it. */
  lemma DeadHolderStops(hash: Hash, s: State, s': State, p: nat, holder: nat, events: seq<Event>)
    requires Inv(hash, s, events) && Step(hash, s, s', p)
    requires s.lock == Some(holder) && s.stage[holder].Dead?
    ensures s'.lock == s.lock && s'.log == s.log && s'.head == s.head && s'.stage[holder] == s.stage[holder]
  {
    assert !Inside(s.stage[p]);
  }

  // ---- both ways of stopping arise --------------------------------------------------------

  /** The first appender on a new ledger, at one stage after another. */
  function Fresh(stage: Stage, lock: Option<nat>, log: Option<seq<Line>>): State {
    State(log, None, lock, map[0 := stage])
  }

  function FirstEvent(hash: Hash): Event {
    NextEvent(hash, [], "", "", "", "")
  }

  function FailedRun(hash: Hash): (trace: seq<State>)
    ensures |trace| == 5
  {
    var e := FirstEvent(hash);
    [Fresh(Idle, None, None), Fresh(Locked, Some(0), None), Fresh(Made(e), Some(0), None),
     Fresh(Written(e), Some(0), Some([Entry(e)])), Fresh(Idle, None, Some([Entry(e)]))]
  }

  function CrashedRun(): (trace: seq<State>)
    ensures |trace| == 3
  {
    [Fresh(Idle, None, None), Fresh(Locked, Some(0), None), Fresh(Dead(Locked), Some(0), None)]
  }

  lemma FreshStarts(hash: Hash)
    ensures Start(hash, Fresh(Idle, None, None)) && Step(hash, Fresh(Idle, None, None), Fresh(Locked, Some(0), None), 0)
  {
    assert AuditPasses(hash, Fresh(Idle, None, None), []) && Chain(hash, []);
    assert map[0 := Idle][0 := Locked] == map[0 := Locked];
  }

  lemma FailedRunRuns(hash: Hash)
    ensures Run(hash, FailedRun(hash))
  {
    hide Start;
    var t, e := FailedRun(hash), FirstEvent(hash);
    FreshStarts(hash);
    assert Reaches(hash, t[0], t[1]);
    assert Reaches(hash, t[1], t[2]) by {
      assert AuditPasses(hash, t[1], []);
      assert t[2] == t[1].(stage := t[1].stage[0 := Made(e)]);
      assert Make(hash, t[1], t[2], 0);
      assert Step(hash, t[1], t[2], 0);
    }
    assert Reaches(hash, t[2], t[3]) by {
      assert [] + [Entry(e)] == [Entry(e)];
      assert t[3] == t[2].(log := Some([Entry(e)]), stage := t[2].stage[0 := Written(e)]);
      assert Step(hash, t[2], t[3], 0);
    }
    assert Reaches(hash, t[3], t[4]) by {
      assert t[4] == t[3].(lock := None, stage := t[3].stage[0 := Idle]);
      assert Step(hash, t[3], t[4], 0);
    }
  }

  /** A write of the checkpoint that fails leaves the lock free and every audit failing. */
  lemma FailureStops(hash: Hash)
    ensures Run(hash, FailedRun(hash))
    ensures var s := FailedRun(hash)[4];
      && s.lock == None && s.stage[0].Idle? && Frozen(hash, s, [FirstEvent(hash)]) && !AuditHolds(hash, s)
      && !CanGrow(hash, s, s.log)
  {
    hide Run, CanGrow, Open;
    var s, e := FailedRun(hash)[4], FirstEvent(hash);
    FailedRunRuns(hash);
    var history := RunKeeps(hash, FailedRun(hash));
    Unlined([Entry(e)], [e]);
    assert history[4] == [e];
    assert Lags(s, [e]);
    LagFailsAudit(hash, s, [e]);
    GrowsExactly(hash, FailedRun(hash), 4);
    assert !Open(hash, s) by {
      NoneOpen(hash, s);
    }
  }

  lemma NoneOpen(hash: Hash, s: State)
    requires forall p | p in s.stage :: s.stage[p].Dead? || (!AuditHolds(hash, s) && !s.stage[p].Written?)
    ensures !Open(hash, s)
  {
    hide AuditHolds;
  }

  /** A crash right after locking leaves audits passing and the lock taken. */
  lemma CrashStops(hash: Hash)
    ensures Run(hash, CrashedRun())
    ensures var s := CrashedRun()[2]; AuditHolds(hash, s) && s.lock == Some(0) && !CanGrow(hash, s, s.log)
  {
    hide Start, CanGrow, Open;
    var t := CrashedRun();
    FreshStarts(hash);
    assert Reaches(hash, t[0], t[1]);
    assert Reaches(hash, t[1], t[2]) by {
      assert t[2] == t[1].(stage := t[1].stage[0 := Dead(Locked)]);
      assert Step(hash, t[1], t[2], 0);
    }
    assert AuditPasses(hash, t[2], []);
    GrowsExactly(hash, t, 2);
    NoneOpen(hash, t[2]);
  }
}
