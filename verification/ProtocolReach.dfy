/** From which states the file can still be committed. */
module ProtocolReach {
  import opened Bytes
  import opened Wrappers
  import opened Ranges
  import opened Messages
  import opened SendWindow
  import opened ReceiveSlot
  import opened Protocol
  import opened ProtocolTheorems
  import opened ProtocolCommits
  import opened ProtocolTraces
  import opened ProtocolExamples
  import opened ProtocolCompletes

  // What a restart needs

  /** Every chunk sent is still in the log, and the context is registered from the start of `send_file` to the end. */
  ghost predicate LiveInv(t: Transfer, s: State) {
    && (forall i: nat :: i < s.snd.nextToSend ==> t.Data(i) in s.out)
    && (s.sendPc.NotStarted? ==> s.pumpPc.PumpIdle? && s.out == [])
    && (!s.sendPc.NotStarted? ==> s.registered || s.snd.finished)
    && (s.registered || s.snd.metaAcked || s.ackPc.AckChecked? ==> !s.sendPc.NotStarted?)
    && (!s.sendPc.NotStarted? && !s.sendPc.Registered? ==> HasMeta(s.out, |s.out|))
  }

  lemma QueuedStays(t: Transfer, s: State, s': State)
    requires TrafficInv(t, s') && s.out <= s'.out && s'.snd.lastAcked < s.snd.nextToSend
    requires forall i: nat :: i < s.snd.nextToSend ==> t.Data(i) in s.out
    ensures forall i: nat :: i < s'.snd.nextToSend ==> t.Data(i) in s'.out
  {
    forall i: nat | i < s'.snd.nextToSend
      ensures t.Data(i) in s'.out
    {
      if i < s.snd.nextToSend {
        assert t.Data(i) in s.out;
      } else {
        assert Count(s'.out, t.Data(i)) == Sends(s'.snd, i);
        CountAbsent(s'.out, t.Data(i));
      }
    }
  }

  lemma MetaStays(log: seq<Message>, log': seq<Message>)
    requires HasMeta(log, |log|) && log <= log'
    ensures HasMeta(log', |log'|)
  {
    var j :| 0 <= j < |log| && log[j].Meta?;
    assert log'[j].Meta?;
  }

  lemma LiveInvStep(t: Transfer, digest: Bytes -> string, s: State, e: Event)
    requires WellFormed(t, digest) && Inv(t, s) && LiveInv(t, s) && Enabled(t, s, e)
    ensures LiveInv(t, Do(t, digest, s, e))
  {
    var s' := Do(t, digest, s, e);
    LogsGrow(t, digest, s, e);
    SenderGrows(t, digest, s, e);
    if HasMeta(s.out, |s.out|) {
      MetaStays(s.out, s'.out);
    } else if e.SendMeta? {
      assert s'.out[|s.out|].Meta?;
    }
    if e.PumpService? {
      TrafficStep(t, digest, s, e);
      ServiceKeepsShape(t, s.snd, e.now, e.clock);
      QueuedStays(t, s, s');
    }
  }

  lemma {:induction false} LiveInvAlways(
      t: Transfer, digest: Bytes -> string, states: seq<State>, events: seq<Event>, i: nat)
    requires WellFormed(t, digest) && Run(t, digest, states, events) && i < |states|
    ensures LiveInv(t, states[i])
  {
    if i > 0 {
      LiveInvAlways(t, digest, states, events, i - 1);
      Always(t, digest, states, events, i - 1);
      assert StepAt(t, digest, states, events, i - 1);
      LiveInvStep(t, digest, states[i - 1], events[i - 1]);
    }
  }

  lemma TraceLive(t: Transfer, digest: Bytes -> string, r: Trace, s: State)
    requires WellFormed(t, digest) && r.Of(t, digest, s)
    ensures Inv(t, s) && LiveInv(t, s)
  {
    TraceInv(t, digest, r, s);
    LiveInvAlways(t, digest, r.states, r.events, |r.states| - 1);
  }

  // Coming to rest

  /** The two dispatchers finish what they have begun. */
  lemma Quiesce(t: Transfer, digest: Bytes -> string, r: Trace, s: State) returns (r': Trace, s': State)
    requires WellFormed(t, digest) && r.Of(t, digest, s)
    ensures r'.Of(t, digest, s') && r'.Continues(r)
    ensures s'.ackPc.AckIdle? && s'.dataPc.DataIdle?
    ensures s'.snd.finished == s.snd.finished && s'.snd.nextToSend == s.snd.nextToSend
  {
    r', s' := r, s;
    if s'.ackPc.AckChecked? {
      r' := Extend(t, digest, r', s', AckApplies);
      s' := Do(t, digest, s', AckApplies);
    }
    if s'.dataPc.DataClosing? {
      TraceInv(t, digest, r', s');
      r' := Extend(t, digest, r', s', DataCloses);
      s' := Do(t, digest, s', DataCloses);
    }
  }

  /** `send_file` gets as far as its first META. */
  lemma Announce(t: Transfer, digest: Bytes -> string, r: Trace, s: State) returns (r': Trace, s': State, k: nat)
    requires WellFormed(t, digest) && r.Of(t, digest, s)
    ensures r'.Of(t, digest, s') && r'.Continues(r)
    ensures k < |s'.out| && s'.out[k].Meta?
    ensures s'.snd == s.snd && s'.ackPc == s.ackPc && s'.dataPc == s.dataPc && s'.slot == s.slot
  {
    r', s' := r, s;
    if s'.sendPc.NotStarted? {
      r' := Extend(t, digest, r', s', Register);
      s' := Do(t, digest, s', Register);
    }
    if s'.sendPc.Registered? {
      r' := Extend(t, digest, r', s', SendMeta);
      s' := Do(t, digest, s', SendMeta);
      k := |s'.out| - 1;
    } else {
      TraceLive(t, digest, r', s');
      k :| k < |s'.out| && s'.out[k].Meta?;
    }
  }

  // A new epoch

  /** In the receiver's epoch exactly the first j chunks have arrived, and the last ACK says so. */
  ghost predicate Replayed(t: Transfer, s: State, j: nat) {
    && s.ackPc.AckIdle? && s.dataPc.DataIdle? && j < t.total
    && s.slot.ctx.Some? && s.slot.ctx.value.received == Range(0, j)
    && s.back != [] && s.back[|s.back| - 1] == Ack(j)
  }

  lemma Restart(t: Transfer, digest: Bytes -> string, r: Trace, s: State) returns (r': Trace, s': State)
    requires WellFormed(t, digest) && r.Of(t, digest, s)
    ensures r'.Of(t, digest, s') && r'.Continues(r)
    ensures s'.snd.finished == s.snd.finished && s'.snd.nextToSend == s.snd.nextToSend
    ensures if t.total == 0 then s'.slot.dest == Some(t.source) else Replayed(t, s', 0)
  {
    var k;
    r', s' := Quiesce(t, digest, r, s);
    r', s', k := Announce(t, digest, r', s');
    TraceInv(t, digest, r', s');
    r' := Extend(t, digest, r', s', MetaArrives(k));
    MetaEffect(t, digest, s', k);
    s' := Do(t, digest, s', MetaArrives(k));
  }

  /** One chunk from the log arrives. */
  lemma ReplayData(t: Transfer, digest: Bytes -> string, r: Trace, s: State, j: nat) returns (r': Trace, s': State)
    requires WellFormed(t, digest) && r.Of(t, digest, s) && Replayed(t, s, j) && j < s.snd.nextToSend
    ensures r'.Of(t, digest, s') && r'.Continues(r) && s'.snd == s.snd
    ensures s'.ackPc.AckIdle? && s'.dataPc.DataClosing?
    ensures s'.slot.ctx.Some? && s'.slot.temp.Some? && s'.slot.ctx.value.received == Range(0, j + 1)
    ensures s'.back != [] && s'.back[|s'.back| - 1] == Ack(j + 1)
  {
    TraceLive(t, digest, r, s);
    assert t.Data(j) in s.out;
    var k: nat :| k < |s.out| && s.out[k] == t.Data(j);
    Received(t, s, j);
    r' := Extend(t, digest, r, s, DataArrives(k));
    s' := Do(t, digest, s, DataArrives(k));
  }

  lemma ReplayOne(t: Transfer, digest: Bytes -> string, r: Trace, s: State, j: nat) returns (r': Trace, s': State)
    requires WellFormed(t, digest) && r.Of(t, digest, s) && Replayed(t, s, j) && j < s.snd.nextToSend
    ensures r'.Of(t, digest, s') && r'.Continues(r) && s'.snd == s.snd
    ensures if j + 1 < t.total then Replayed(t, s', j + 1) else s'.slot.dest == Some(t.source)
  {
    r', s' := ReplayData(t, digest, r, s, j);
    TraceInv(t, digest, r', s');
    FullIffNothingMissing(s'.slot.ctx.value);
    CloseEffect(t, digest, s');
    r' := Extend(t, digest, r', s', DataCloses);
    s' := Do(t, digest, s', DataCloses);
  }

  /** Everything sent so far, again. */
  lemma {:induction false} Replay(
      t: Transfer, digest: Bytes -> string, r: Trace, s: State, j: nat)
    returns (r': Trace, s': State)
    requires WellFormed(t, digest) && r.Of(t, digest, s) && Replayed(t, s, j) && j <= s.snd.nextToSend
    ensures r'.Of(t, digest, s') && r'.Continues(r) && s'.snd == s.snd
    ensures if s.snd.nextToSend == t.total then s'.slot.dest == Some(t.source) else Replayed(t, s', s.snd.nextToSend)
    decreases t.total - j
  {
    TraceInv(t, digest, r, s);
    if j == s.snd.nextToSend {
      return r, s;
    }
    r', s' := ReplayOne(t, digest, r, s, j);
    if j + 1 < t.total {
      r', s' := Replay(t, digest, r', s', j + 1);
    }
  }

  // Going on

  /** The last ACK arrives: both sides agree again on everything sent. */
  lemma Resume(t: Transfer, digest: Bytes -> string, r: Trace, s: State) returns (r': Trace, s': State)
    requires WellFormed(t, digest) && r.Of(t, digest, s)
    requires !s.snd.finished && s.snd.nextToSend < t.total && Replayed(t, s, s.snd.nextToSend)
    ensures r'.Of(t, digest, s') && r'.Continues(r)
    ensures Agreed(t, s'.(pumpPc := PumpIdle), s'.snd.nextToSend)
  {
    TraceLive(t, digest, r, s);
    var last := |s.back| - 1;
    assert s.registered;
    r' := Extend(t, digest, r, s, AckArrives(last));
    s' := Do(t, digest, s, AckArrives(last));
    r' := Extend(t, digest, r', s', AckApplies);
    s' := Do(t, digest, s', AckApplies);
    TraceInv(t, digest, r', s');
  }

  /** The pump ends its visit; with nothing in flight no clock reading can make it give up. */
  lemma EndVisit(t: Transfer, digest: Bytes -> string, r: Trace, s: State, k: nat, out: nat, back: nat)
    returns (r': Trace, s': State)
    requires WellFormed(t, digest) && r.Of(t, digest, s)
    requires Agreed(t, s.(pumpPc := PumpIdle), k) && Marked(s, k, out, back) && s.snd.nextToSend == k
    ensures r'.Of(t, digest, s') && r'.Since(r, out, back) && Agreed(t, s', k) && Marked(s', k, out, back)
  {
    r', s' := r, s;
    TraceInv(t, digest, r, s);
    ServiceOfNothing(t, s.snd, 0.0, STILL);
    if s'.pumpPc.PumpEntering? {
      var e := Service(t, s.snd, 0.0, STILL);
      r' := Then(t, digest, r, r', s', PumpService(0.0, STILL), out, back);
      s' := s.(snd := e.state, pumpPc := PumpTesting, out := s.out + e.posts);
    }
    if s'.pumpPc.PumpTesting? {
      r' := Then(t, digest, r, r', s', PumpTest, out, back);
      s' := s'.(pumpPc := PumpIdle);
    }
  }

  /** A state the file can still be committed from: unfinished, or with every chunk already in the network. */
  ghost predicate Hopeful(t: Transfer, s: State) {
    t.total == 0 || s.slot.dest.Some? || !s.snd.finished || s.snd.nextToSend == t.total
  }

  lemma Commit(t: Transfer, digest: Bytes -> string, r: Trace, s: State) returns (r': Trace, s': State)
    requires WellFormed(t, digest) && r.Of(t, digest, s) && Hopeful(t, s)
    ensures r'.Of(t, digest, s') && r'.Continues(r) && s'.slot.dest == Some(t.source)
  {
    TraceInv(t, digest, r, s);
    if s.slot.dest.Some? {
      return r, s;
    }
    r', s' := Restart(t, digest, r, s);
    if t.total > 0 {
      r', s' := Replay(t, digest, r', s', 0);
      if s'.snd.nextToSend < t.total {
        r', s' := Resume(t, digest, r', s');
        r', s' := EndVisit(t, digest, r', s', s'.snd.nextToSend, 0, 0);
        r', s' := TheRest(t, digest, r', s', s'.snd.lastAcked + 1, 0, 0);
      }
    }
  }

  /** After the end nothing new is sent. */
  lemma {:induction false} SentStays(
      t: Transfer, digest: Bytes -> string, states: seq<State>, events: seq<Event>, i: nat, j: nat)
    requires WellFormed(t, digest) && Run(t, digest, states, events) && i <= j < |states| && states[i].snd.finished
    ensures states[j].snd.nextToSend == states[i].snd.nextToSend
  {
    if i < j {
      SentStays(t, digest, states, events, i, j - 1);
      NothingTakenBack(t, digest, states, events, i, j - 1);
      Always(t, digest, states, events, j - 1);
      assert StepAt(t, digest, states, events, j - 1);
      SentStep(t, digest, states[j - 1], events[j - 1]);
    }
  }

  lemma SentStep(t: Transfer, digest: Bytes -> string, s: State, e: Event)
    requires Inv(t, s) && Enabled(t, s, e) && s.snd.finished
    ensures Do(t, digest, s, e).snd.nextToSend == s.snd.nextToSend
  {
    if e.PumpService? {
      ServiceKeepsShape(t, s.snd, e.now, e.clock);
    }
  }

  lemma Hopeless(t: Transfer, digest: Bytes -> string, r: Trace, s: State, r': Trace, s': State)
    requires WellFormed(t, digest) && r.Of(t, digest, s) && !Hopeful(t, s)
    requires r'.Of(t, digest, s') && r'.Continues(r)
    ensures s'.slot.dest.None?
  {
    var i, j := |r.states| - 1, |r'.states| - 1;
    assert r'.states[i] == s;
    SentStays(t, digest, r'.states, r'.events, i, j);
    TraceInv(t, digest, r', s');
    CommitInvAlways(t, digest, r'.states, r'.events, j);
    TraceInv(t, digest, r, s);
  }

  /**
   * From a reachable state some continuation, in which any message ever queued may still arrive, commits the file
   * exactly when the sender has not given up before it sent every chunk. What is possible without the messages queued
   * so far is the subject of ProtocolLosses.
   */
  lemma CommitReachableIff(t: Transfer, digest: Bytes -> string, r: Trace, s: State)
    requires WellFormed(t, digest) && r.Of(t, digest, s)
    ensures (exists r': Trace, s': State :: r'.Of(t, digest, s') && r'.Continues(r) && s'.slot.dest == Some(t.source))
            <==> Hopeful(t, s)
  {
    if Hopeful(t, s) {
      var r', s' := Commit(t, digest, r, s);
    } else {
      forall r': Trace, s': State | r'.Of(t, digest, s') && r'.Continues(r)
        ensures s'.slot.dest != Some(t.source)
      {
        Hopeless(t, digest, r, s, r', s');
      }
    }
  }
}
