/** When the copies of a chunk are sent, if clocks do not go back. */
module ProtocolTiming {
  import opened Bytes
  import opened Messages
  import opened SendWindow
  import opened Protocol
  import opened ProtocolTheorems

  /** The reading that is taken when chunk c is marked. */
  function Reading(e: Event, c: nat): real
    requires e.PumpService?
  {
    e.clock(c)
  }

  /** No region reads an earlier time than the one at its start, or than any region before it. */
  ghost predicate Orderly(events: seq<Event>) {
    && (forall i, c: nat :: 0 <= i < |events| && events[i].PumpService? ==> events[i].now <= Reading(events[i], c))
    && (forall i, j, c: nat ::
          0 <= i < j < |events| && events[i].PumpService? && events[j].PumpService? ==>
            Reading(events[i], c) <= events[j].now)
  }

  /** The event queues a copy of chunk c. */
  ghost predicate Queues(t: Transfer, states: seq<State>, events: seq<Event>, i: nat, c: nat)
    requires |states| == |events| + 1 && i < |events|
  {
    events[i].PumpService? && Count(states[i].out, t.Data(c)) < Count(states[i + 1].out, t.Data(c))
  }

  /** Chunk c has been acknowledged, or is in flight since no earlier than the given time. */
  ghost predicate Since(t: Transfer, s: SendState, c: nat, time: real)
    requires Shape(t, s)
  {
    c <= s.lastAcked || (c < s.nextToSend && EntryOf(s, c).stamp >= time)
  }

  /** Only the locked region of the pump queues chunks. */
  lemma OnlyRegionsQueue(t: Transfer, digest: Bytes -> string, states: seq<State>, events: seq<Event>, i: nat, c: nat)
    requires WellFormed(t, digest) && Run(t, digest, states, events) && i < |events| && !events[i].PumpService?
    ensures Count(states[i + 1].out, t.Data(c)) == Count(states[i].out, t.Data(c))
  {
    assert StepAt(t, digest, states, events, i);
    if events[i].AckApplies? {
      assert states[i + 1].out == states[i].out;
    } else {
      QueuesNoData(t, digest, states[i], events[i]);
      var out, out' := states[i].out, states[i + 1].out;
      assert out' == out + out'[|out|..];
      CountAppend(out, out'[|out|..], t.Data(c));
      CountAbsent(out'[|out|..], t.Data(c));
    }
  }

  lemma AcknowledgeEntry(t: Transfer, s: SendState, n: int, c: nat)
    requires Shape(t, s) && 0 <= n <= s.nextToSend
    ensures var s' := Acknowledge(s, n);
            && Shape(t, s') && s'.nextToSend == s.nextToSend && s.lastAcked <= s'.lastAcked
            && (s'.lastAcked < c < s.nextToSend ==> EntryOf(s', c) == EntryOf(s, c))
  {
    AcknowledgeKeepsShape(t, s, n);
    var s' := Acknowledge(s, n);
    if s'.lastAcked < c < s.nextToSend {
      var k := if n <= s.lastAcked + 1 then 0 else n - s.lastAcked - 1;
      NotBelowIsSuffix(s.inflight, s.lastAcked + 1, n);
      SuffixEntry(s, s', k, c);
    }
  }

  lemma SuffixEntry(s: SendState, s': SendState, k: nat, c: nat)
    requires k <= |s.inflight| && s'.inflight == s.inflight[k..] && s'.lastAcked == s.lastAcked + k < c < s.nextToSend
    requires s.lastAcked + 1 + |s.inflight| == s.nextToSend == s'.nextToSend
    ensures EntryOf(s', c) == EntryOf(s, c)
  {
  }

  lemma SinceService(t: Transfer, s: SendState, now: real, clock: nat -> real, c: nat, time: real)
    requires Shape(t, s) && Since(t, s, c, time) && clock(c) >= time
    ensures var e := Service(t, s, now, clock).state; Shape(t, e) && Since(t, e, c, time)
  {
    ServiceKeepsShape(t, s, now, clock);
    if c > s.lastAcked {
      ServiceStamp(t, s, now, clock, c);
    }
  }

  lemma SinceStep(t: Transfer, digest: Bytes -> string, s: State, e: Event, c: nat, time: real)
    requires Inv(t, s) && Enabled(t, s, e) && Since(t, s.snd, c, time)
    requires e.PumpService? ==> Reading(e, c) >= time
    ensures var s' := Do(t, digest, s, e).snd; Shape(t, s') && Since(t, s', c, time)
  {
    if e.PumpService? {
      SinceService(t, s.snd, e.now, e.clock, c, time);
    } else if e.AckApplies? {
      AcknowledgeEntry(t, s.snd, s.ackPc.nextNeeded, c);
    } else {
      QueuesNoData(t, digest, s, e);
    }
  }

  /** What queueing a copy of a chunk means for its entry, before and after. */
  lemma QueuedNow(t: Transfer, digest: Bytes -> string, states: seq<State>, events: seq<Event>, i: nat, c: nat)
    requires WellFormed(t, digest) && Run(t, digest, states, events) && i < |events|
    requires Queues(t, states, events, i, c)
    ensures Shape(t, states[i].snd) && Shape(t, states[i + 1].snd) && states[i].snd.lastAcked < c
    ensures Since(t, states[i + 1].snd, c, Reading(events[i], c))
    ensures c < states[i].snd.nextToSend ==> events[i].now - EntryOf(states[i].snd, c).stamp >= 0.6
    ensures Count(states[i + 1].out, t.Data(c)) == Count(states[i].out, t.Data(c)) + 1
  {
    var s, e := states[i], events[i];
    Always(t, digest, states, events, i);
    Always(t, digest, states, events, i + 1);
    assert StepAt(t, digest, states, events, i);
    var posts := Service(t, s.snd, e.now, e.clock).posts;
    CountAppend(s.out, posts, t.Data(c));
    ServiceCount(t, s.snd, e.now, e.clock, c);
    ServiceStamp(t, s.snd, e.now, e.clock, c);
  }

  lemma {:induction false} SinceQueued(
      t: Transfer, digest: Bytes -> string, states: seq<State>, events: seq<Event>, i: nat, k: nat, c: nat)
    requires WellFormed(t, digest) && Run(t, digest, states, events) && i < k < |states|
    requires Orderly(events) && Queues(t, states, events, i, c)
    ensures Shape(t, states[k].snd) && Since(t, states[k].snd, c, Reading(events[i], c))
  {
    QueuedNow(t, digest, states, events, i, c);
    if i + 1 < k {
      SinceQueued(t, digest, states, events, i, k - 1, c);
      LaterReading(events, i, k - 1, c);
      SinceAt(t, digest, states, events, k - 1, c, Reading(events[i], c));
    }
  }

  lemma LaterReading(events: seq<Event>, i: nat, k: nat, c: nat)
    requires Orderly(events) && i < k < |events| && events[i].PumpService?
    ensures events[k].PumpService? ==> Reading(events[i], c) <= Reading(events[k], c)
  {
    if events[k].PumpService? {
      assert Reading(events[i], c) <= events[k].now <= Reading(events[k], c);
    }
  }

  lemma SinceAt(
      t: Transfer, digest: Bytes -> string, states: seq<State>, events: seq<Event>, k: nat, c: nat, time: real)
    requires WellFormed(t, digest) && Run(t, digest, states, events) && k < |events|
    requires Shape(t, states[k].snd) && Since(t, states[k].snd, c, time)
    requires events[k].PumpService? ==> time <= Reading(events[k], c)
    ensures Shape(t, states[k + 1].snd) && Since(t, states[k + 1].snd, c, time)
  {
    Always(t, digest, states, events, k);
    assert StepAt(t, digest, states, events, k);
    SinceStep(t, digest, states[k], events[k], c, time);
  }

  /** Two copies of one chunk are queued at least 0.6 seconds apart, and never two by one region. */
  lemma CopiesApart(
      t: Transfer, digest: Bytes -> string, states: seq<State>, events: seq<Event>, i: nat, j: nat, c: nat)
    requires WellFormed(t, digest) && Run(t, digest, states, events) && i < j < |events|
    requires Orderly(events) && Queues(t, states, events, i, c) && Queues(t, states, events, j, c)
    ensures events[j].now - Reading(events[i], c) >= 0.6
    ensures Reading(events[j], c) - Reading(events[i], c) >= 0.6
    ensures Count(states[j + 1].out, t.Data(c)) == Count(states[j].out, t.Data(c)) + 1
  {
    SinceQueued(t, digest, states, events, i, j, c);
    QueuedNow(t, digest, states, events, j, c);
    assert events[j].now <= Reading(events[j], c);
  }
}
