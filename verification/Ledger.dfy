/** The hash-chained custody ledger of src/ledger.rs. File contents are modelled after decoding; the event
    hash is a parameter. */
module Ledger {
  import opened Prelude

  /** What an event's hash covers: every field but the hash itself. */
  datatype Core = Core(
    schema: string,
    sequence: nat,
    timestamp: string,
    eventType: string,
    subject: string,
    payload: string,
    previous: Option<string>)

  datatype Event = Event(core: Core, hash: string)

  /** A line of the log: an event, a blank line, or text that is not an event. */
  datatype Line = Entry(event: Event) | Blank | Malformed

  /** The head checkpoint, as far as the audit looks at it. */
  datatype Head = Head(sequence: Option<nat>, hash: Option<string>)

  datatype Report = Report(exists': bool, verified: bool, head: Option<string>, events: seq<Event>)

  type Hash = Core -> string

  ghost predicate Injective(hash: Hash) {
    forall a, b :: hash(a) == hash(b) ==> a == b
  }

  // ---- what a valid ledger is -------------------------------------------------------------

  function LastHash(events: seq<Event>): Option<string> {
    if |events| == 0 then None else Some(events[|events| - 1].hash)
  }

  /** Event `i` carries the next sequence number, the link to the event before it, and its own hash. */
  predicate Linked(hash: Hash, events: seq<Event>, i: nat)
    requires i < |events|
  {
    && events[i].core.sequence == i + 1
    && events[i].core.previous == LastHash(events[..i])
    && events[i].hash == hash(events[i].core)
  }

  predicate Chain(hash: Hash, events: seq<Event>) {
    forall i: nat | i < |events| :: Linked(hash, events, i)
  }

  function Lines(events: seq<Event>): (lines: seq<Line>)
    ensures |lines| == |events| && forall i | 0 <= i < |lines| :: lines[i] == Entry(events[i])
  {
    seq(|events|, i requires 0 <= i < |events| => Entry(events[i]))
  }

  /** The checkpoint names the last of these events. */
  predicate Names(head: Option<Head>, events: seq<Event>) {
    head.Some? && head.value.hash == LastHash(events) && head.value.sequence == Some(|events|)
  }

  /** A log that holds exactly a chain of events, with a checkpoint that names the last one. */
  ghost predicate Verified(hash: Hash, lines: seq<Line>, head: Option<Head>, events: seq<Event>) {
    lines == Lines(events) && Chain(hash, events) && Names(head, events)
  }

  // ---- the audit --------------------------------------------------------------------------

  /** `audit` on an existing log: one pass, collecting checks; it stops at text that is not an event. */
  method AuditLog(hash: Hash, lines: seq<Line>, head: Option<Head>) returns (report: Report)
    ensures report.exists'
    ensures report.verified <==> exists events :: Verified(hash, lines, head, events)
    ensures report.verified ==> Verified(hash, lines, head, report.events) && report.head == LastHash(report.events)
  {
    var passed, stopped := true, false;
    var events: seq<Event> := [];
    var previous: Option<string> := None;
    var i := 0;
    while i < |lines| && !stopped
      invariant 0 <= i <= |lines|
      invariant previous == LastHash(events)
      invariant passed ==> !stopped && |events| == i && lines[..i] == Lines(events) && Chain(hash, events)
      invariant !passed ==> !exists all :: lines == Lines(all) && Chain(hash, all)
      decreases |lines| - i, !stopped
    {
      match lines[i] {
        case Blank =>
          NotChain(hash, lines, i);
          passed := false;
        case Malformed =>
          NotChain(hash, lines, i);
          passed, stopped := false, true;
        case Entry(event) =>
          var sequenceOk := event.core.sequence == |events| + 1;
          var previousOk := event.core.previous == previous;
          var hashOk := event.hash == hash(event.core);
          if passed {
            NextLink(hash, lines, i, events, event);
          }
          passed := passed && sequenceOk && previousOk && hashOk;
          previous := Some(event.hash);
          events := events + [event];
      }
      i := i + 1;
    }
    var headOk := Names(head, events);
    if passed {
      assert lines[..|lines|] == lines;
      Unlined(lines, events);
      assert Verified(hash, lines, head, events) <==> headOk;
    }
    report := Report(true, passed && headOk, previous, events);
  }

  lemma Unlined(lines: seq<Line>, events: seq<Event>)
    requires lines == Lines(events)
    ensures forall all :: lines == Lines(all) ==> all == events
  {
    forall all | lines == Lines(all)
      ensures all == events
    {
      assert forall k | 0 <= k < |all| :: Entry(all[k]) == lines[k] == Entry(events[k]);
    }
  }

  lemma NotChain(hash: Hash, lines: seq<Line>, i: nat)
    requires i < |lines| && !lines[i].Entry?
    ensures !exists all :: lines == Lines(all) && Chain(hash, all)
  {
  }

  /** The three checks on the next event are exactly what the chain demands of it. */
  lemma NextLink(hash: Hash, lines: seq<Line>, i: nat, events: seq<Event>, event: Event)
    requires i < |lines| && lines[i] == Entry(event) && |events| == i
    requires lines[..i] == Lines(events) && Chain(hash, events)
    ensures var good := event.core.sequence == i + 1 && event.core.previous == LastHash(events) && event.hash == hash(event.core);
      && (good ==> lines[..i + 1] == Lines(events + [event]) && Chain(hash, events + [event]))
      && (!good ==> !exists all :: lines == Lines(all) && Chain(hash, all))
  {
    var longer := events + [event];
    assert lines[..i + 1] == Lines(longer);
    ChainGrows(hash, events, event);
    if !(event.core.sequence == i + 1 && event.core.previous == LastHash(events) && event.hash == hash(event.core)) {
      forall all | lines == Lines(all)
        ensures !Chain(hash, all)
      {
        assert forall k | 0 <= k <= i :: Entry(all[k]) == lines[k] == lines[..i + 1][k] == Entry(longer[k]);
        assert all[..i] == events && all[i] == event;
        assert !Linked(hash, all, i);
      }
    }
  }

  /** A chain grows by one event exactly when that event links to it. */
  lemma ChainGrows(hash: Hash, events: seq<Event>, event: Event)
    requires Chain(hash, events)
    ensures Chain(hash, events + [event]) <==>
              event.core.sequence == |events| + 1 && event.core.previous == LastHash(events) && event.hash == hash(event.core)
  {
    var longer := events + [event];
    assert longer[..|events|] == events;
    forall i: nat | i < |events|
      ensures Linked(hash, longer, i)
    {
      assert Linked(hash, events, i) && longer[..i] == events[..i];
    }
    if Chain(hash, longer) {
      assert Linked(hash, longer, |events|);
    }
  }

  lemma ChainPrefix(hash: Hash, events: seq<Event>, k: nat)
    requires Chain(hash, events) && k <= |events|
    ensures Chain(hash, events[..k])
  {
    forall i: nat | i < k
      ensures Linked(hash, events[..k], i)
    {
      assert Linked(hash, events, i) && events[..k][..i] == events[..i];
    }
  }

  // ---- tamper evidence --------------------------------------------------------------------

  lemma {:induction false} ChainsAgree(hash: Hash, a: seq<Event>, b: seq<Event>)
    requires Injective(hash) && Chain(hash, a) && Chain(hash, b) && |a| > 0 && |b| > 0
    requires LastHash(a) == LastHash(b)
    ensures a == b
    decreases |a|
  {
    var x, y := |a| - 1, |b| - 1;
    assert Linked(hash, a, x) && Linked(hash, b, y);
    assert a[x].core == b[y].core;
    assert |a| == |b|;
    assert LastHash(a[..x]) == LastHash(b[..y]);
    if x > 0 {
      ChainPrefix(hash, a, x);
      ChainPrefix(hash, b, y);
      ChainsAgree(hash, a[..x], b[..y]);
    }
    assert a == a[..x] + [a[x]] && b == b[..y] + [b[y]];
  }

  /** Two verified ledgers with the same nonempty head hash hold the same history, line for line. */
  lemma HeadHashFixesHistory(hash: Hash, a: seq<Line>, b: seq<Line>, headA: Option<Head>, headB: Option<Head>,
                             eventsA: seq<Event>, eventsB: seq<Event>)
    requires Injective(hash) && Verified(hash, a, headA, eventsA) && Verified(hash, b, headB, eventsB)
    requires headA.value.hash.Some? && headA.value.hash == headB.value.hash
    ensures a == b && eventsA == eventsB && headA == headB
  {
    ChainsAgree(hash, eventsA, eventsB);
  }

  // ---- appending --------------------------------------------------------------------------

  /** The event `append` makes for a verified ledger. */
  function NextEvent(hash: Hash, events: seq<Event>, timestamp: string, eventType: string, subject: string, payload: string): Event {
    var core := Core("goblin.custody-event.v1", |events| + 1, timestamp, eventType, subject, payload, LastHash(events));
    Event(core, hash(core))
  }

  /** The ledger's files: the log, the head checkpoint and the lock. */
  class Project {
    const hash: Hash
    var log: Option<seq<Line>>
    var head: Option<Head>
    var locked: bool

    constructor (hash: Hash)
      ensures this.hash == hash && log == None && head == None && !locked
    {
      this.hash := hash;
      log, head, locked := None, None, false;
    }

    /** The events of a verified ledger; an absent log is the empty ledger. */
    ghost predicate Holds(events: seq<Event>)
      reads this`log, this`head
    {
      match log
      case None => events == []
      case Some(lines) => Verified(hash, lines, head, events)
    }

    method Audit() returns (report: Report)
      ensures report.verified <==> exists events :: Holds(events)
      ensures report.verified ==> Holds(report.events) && report.head == LastHash(report.events)
      ensures report.exists' == log.Some? && (log.None? ==> report.verified)
    {
      if log.None? {
        report := Report(false, true, None, []);
        assert Holds([]);
      } else {
        report := AuditLog(hash, log.value, head);
        assert report.verified ==> Holds(report.events);
        assert forall events :: Holds(events) <==> Verified(hash, log.value, head, events);
      }
    }

    /** `append`: refused while the lock is held or the ledger is damaged, and then nothing changes;
        otherwise the ledger has exactly one more event, and is verified again. */
    method Append(timestamp: string, eventType: string, subject: string, payload: string, ghost events: seq<Event>)
      returns (r: Res<Event>)
      requires Holds(events) || !exists all :: Holds(all)
      modifies this
      ensures locked == old(locked)
      ensures r.Ok? <==> !old(locked) && old(Holds(events))
      ensures r.Err? ==> log == old(log) && head == old(head)
      ensures r.Ok? ==> r.value == NextEvent(hash, events, timestamp, eventType, subject, payload)
      ensures r.Ok? ==>
        var core := r.value.core;
        && core.timestamp == timestamp && core.eventType == eventType && core.subject == subject && core.payload == payload
        && core.schema == "goblin.custody-event.v1" && core.sequence == |events| + 1 && core.previous == LastHash(events)
        && r.value.hash == hash(core)
      ensures r.Ok? ==> Holds(events + [r.value]) && log == Some(Lines(events + [r.value]))
    {
      if locked {
        return Err;
      }
      locked := true;
      assert forall all :: Holds(all) <==> old(Holds(all));
      var report := Audit();
      if report.exists' && !report.verified {
        locked := false;
        assert !old(Holds(events));
        return Err;
      }
      assert Holds(report.events) && Holds(events);
      HoldsOne(events, report.events);
      var core := Core("goblin.custody-event.v1", |report.events| + 1, timestamp, eventType, subject, payload, report.head);
      var event := Event(core, hash(core));
      log := Some((if log.Some? then log.value else []) + [Entry(event)]);
      head := Some(Head(Some(event.core.sequence), Some(event.hash)));
      ghost var longer := events + [event];
      ChainGrows(hash, events, event);
      assert log.value == Lines(longer);
      locked := false;
      r := Ok(event);
    }

    lemma HoldsOne(a: seq<Event>, b: seq<Event>)
      requires Holds(a) && Holds(b)
      ensures a == b && Chain(hash, a)
    {
      if log.Some? {
        Unlined(log.value, a);
      }
    }
  }
}
