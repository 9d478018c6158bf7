/** Two short runs showing that the theorems about completion and resets could not say more. */
module ProtocolExamples {
  import opened Bytes
  import opened Wrappers
  import opened Messages
  import opened Reassembly
  import opened SendWindow
  import opened ReceiveSlot
  import opened Protocol
  import opened ProtocolCommits
  import opened ProtocolResets
  import opened ProtocolTraces

  /** A file of n chunks of one byte. */
  function Sample(digest: Bytes -> string, n: nat): Transfer {
    Transfer("f-0", "f", "", "02:00:00:00:00:01", Zeros(n), digest(Zeros(n)), 1, n)
  }

  lemma SampleWellFormed(digest: Bytes -> string, n: nat)
    ensures WellFormed(Sample(digest, n), digest)
  {
  }

  /** The handshake, after which the pump is about to enter its locked region. */
  function Announced(t: Transfer, epoch: Slot): State {
    State(FRESH.(metaAcked := true), true, LoopBody, PumpEntering, AckIdle, [t.Meta()], epoch, DataIdle, [Ack(0)], 0, 1)
  }

  function Opened(t: Transfer): Slot {
    Slot(Some(Fresh(t)), Some([]), None)
  }

  lemma Handshake(t: Transfer, digest: Bytes -> string) returns (r: Trace)
    requires WellFormed(t, digest) && t.total > 0
    ensures r.Of(t, digest, Announced(t, Opened(t)))
  {
    r := Start(t, digest);
    var s := INITIAL;
    r := Extend(t, digest, r, s, Register);
    s := Do(t, digest, s, Register);
    r := Extend(t, digest, r, s, SendMeta);
    s := Do(t, digest, s, SendMeta);
    r := Extend(t, digest, r, s, TestLoop);
    s := Do(t, digest, s, TestLoop);
    r := Extend(t, digest, r, s, MetaArrives(0));
    s := Do(t, digest, s, MetaArrives(0));
    r := Extend(t, digest, r, s, AckArrives(0));
    s := Do(t, digest, s, AckArrives(0));
    r := Extend(t, digest, r, s, AckApplies);
    s := Do(t, digest, s, AckApplies);
    r := Extend(t, digest, r, s, PumpVisit);
    s := Do(t, digest, s, PumpVisit);
    assert s.snd.acked == {};
    assert s == Announced(t, Opened(t));
  }

  const STILL: nat -> real := (i: nat) => 0.0

  lemma FirstService(t: Transfer)
    requires 1 <= t.total <= 2
    ensures var e := Service(t, FRESH.(metaAcked := true), 0.0, STILL);
            && e.posts == (if t.total == 1 then [t.Data(0)] else [t.Data(0), t.Data(1)])
            && e.state == SendState(t.total, -1, e.state.inflight, {}, false, true)
            && e.state.inflight
               == (if t.total == 1 then [Flight(0, 0.0, 0)] else [Flight(0, 0.0, 0), Flight(1, 0.0, 0)])
  {
    var s0 := FRESH.(metaAcked := true);
    var s1 := SendNext(s0, STILL(0));
    assert s1.inflight == [Flight(0, 0.0, 0)];
    var s2 := SendNext(s1, STILL(1));
    assert s2.inflight == [Flight(0, 0.0, 0), Flight(1, 0.0, 0)];
    assert t.total == 1 ==> RefillWindow(t, s1, STILL) == Effect(s1, []);
    assert t.total == 2 ==> RefillWindow(t, s2, STILL) == Effect(s2, []);
    assert t.total == 2 ==> RefillWindow(t, s1, STILL) == Effect(s2, [t.Data(1)]);
  }

  /** The whole file is in flight. */
  lemma Sent(t: Transfer, digest: Bytes -> string) returns (r: Trace, s: State)
    requires WellFormed(t, digest) && 1 <= t.total <= 2
    ensures r.Of(t, digest, s)
    ensures s == Announced(t, Opened(t)).(snd := s.snd, pumpPc := PumpIdle, out := s.out)
    ensures s.snd == SendState(t.total, -1, s.snd.inflight, {}, false, true)
    ensures |s.snd.inflight| == t.total
    ensures forall j :: 0 <= j < t.total ==> s.snd.inflight[j] == Flight(j, 0.0, 0)
    ensures |s.out| == t.total + 1 && s.out[0] == t.Meta() && s.out[1] == t.Data(0)
  {
    r := Handshake(t, digest);
    s := Announced(t, Opened(t));
    FirstService(t);
    var e := Service(t, s.snd, 0.0, STILL);
    r := Extend(t, digest, r, s, PumpService(0.0, STILL));
    s := s.(snd := e.state, pumpPc := PumpTesting, out := s.out + e.posts);
    r := Extend(t, digest, r, s, PumpTest);
    s := s.(pumpPc := PumpIdle);
  }

  /** The first chunk has been sent, received and acknowledged to the sender. */
  lemma FirstChunk(t: Transfer, digest: Bytes -> string) returns (r: Trace, s: State)
    requires WellFormed(t, digest) && 1 <= t.total <= 2
    ensures r.Of(t, digest, s)
    ensures s.registered && s.pumpPc.PumpIdle? && s.ackPc.AckIdle? && s.dataPc.DataClosing?
    ensures s.snd.lastAcked == 0 && s.snd.nextToSend == t.total && s.snd.metaAcked && !s.snd.finished
    ensures s.snd.inflight == if t.total == 1 then [] else [Flight(1, 0.0, 0)]
    ensures s.best == 1 && s.slot.dest.None? && s.slot.temp.Some?
    ensures s.slot.ctx == Some(Receive(Opened(t).ctx.value, 0))
    ensures |s.out| == t.total + 1 && s.out[0] == t.Meta()
  {
    r, s := Sent(t, digest);
    r := Extend(t, digest, r, s, DataArrives(1));
    ReceiveFirst(t);
    s := Do(t, digest, s, DataArrives(1));
    r := Extend(t, digest, r, s, AckArrives(1));
    s := Do(t, digest, s, AckArrives(1));
    r := Extend(t, digest, r, s, AckApplies);
    NotBelowIsSuffix(s.snd.inflight, 0, 1);
    s := Do(t, digest, s, AckApplies);
  }

  lemma ReceiveFirst(t: Transfer)
    ensures Receive(Opened(t).ctx.value, 0).received == {0}
    ensures Receive(Opened(t).ctx.value, 0).nextNeeded == 1
  {
    assert FirstMissing({0}, 1) == 1;
    assert FirstMissing({0}, 0) == 1;
  }

  /**
   * The sender may declare a transfer complete before the receiver has committed it: the last ACK is queued in the
   * first locked region of `_on_data`, the commit comes after the second.
   */
  lemma CompleteBeforeCommit(digest: Bytes -> string) returns (r: Trace, s: State)
    ensures r.Of(Sample(digest, 1), digest, s)
    ensures FIN_OK in s.out && s.slot.dest.None?
  {
    var t := Sample(digest, 1);
    SampleWellFormed(digest, 1);
    r, s := FirstChunk(t, digest);
    r := Extend(t, digest, r, s, PumpVisit);
    s := Do(t, digest, s, PumpVisit);
    var service := PumpService(0.0, STILL);
    r := Extend(t, digest, r, s, service);
    s := Do(t, digest, s, service);
    r := Extend(t, digest, r, s, PumpTest);
    s := Do(t, digest, s, PumpTest);
  }

  /** A META delivered twice can take away a chunk that is already acknowledged, as `ResetStarvesIff` assumes. */
  lemma LateMetaResets(digest: Bytes -> string) returns (r: Trace, s: State)
    ensures r.Of(Sample(digest, 2), digest, s)
    ensures Lacks(s, 0) && s.snd.lastAcked == 0 && s.slot.dest.None?
    ensures s.registered && s.pumpPc.PumpIdle? && s.snd.metaAcked && !s.snd.finished
    ensures s.snd.nextToSend == 2 && s.snd.inflight == [Flight(1, 0.0, 0)]
  {
    var t := Sample(digest, 2);
    SampleWellFormed(digest, 2);
    r, s := FirstChunk(t, digest);
    ReceiveFirst(t);
    r := Extend(t, digest, r, s, DataCloses);
    s := Do(t, digest, s, DataCloses);
    r := Extend(t, digest, r, s, MetaArrives(0));
    s := Do(t, digest, s, MetaArrives(0));
  }
}
