/** What a transfer can still achieve when every message queued so far is lost. */
module ProtocolLosses {
  import opened Bytes
  import opened Wrappers
  import opened Ranges
  import opened Messages
  import opened SendWindow
  import opened ReceiveSlot
  import opened Protocol
  import opened ProtocolTheorems
  import opened ProtocolCommits
  import opened ProtocolResets
  import opened ProtocolTraces
  import opened ProtocolCompletes
  import opened ProtocolReach

  /** No copy of an acknowledged chunk arrives if the DATA queued so far is lost. */
  lemma NoCopyArrives(
      t: Transfer, digest: Bytes -> string, r: Trace, s: State, r': Trace, s': State, c: nat, back: nat)
    requires WellFormed(t, digest) && r.Of(t, digest, s) && r'.Of(t, digest, s') && r'.Since(r, |s.out|, back)
    requires c <= s.snd.lastAcked
    ensures r'.states[|r.events|] == s && Withheld(r'.states, r'.events, |r.events|, |r'.events|, c)
  {
    var a, b := |r.events|, |r'.events|;
    assert r'.states[a] == s;
    forall j | a <= j < b
      ensures !Hands(r'.states[j], r'.events[j], c)
    {
      assert Takes(r'.events[j], |s.out|, back);
      if Hands(r'.states[j], r'.events[j], c) {
        OnlyOldCopies(t, digest, r'.states, r'.events, a, j, c);
      }
    }
  }

  /** Once an acknowledged chunk is lacking and the DATA queued so far is lost, nothing can commit the file. */
  lemma LostForGood(
      t: Transfer, digest: Bytes -> string, r: Trace, s: State, r': Trace, s': State, c: nat, back: nat)
    requires WellFormed(t, digest) && r.Of(t, digest, s) && r'.Of(t, digest, s') && r'.Since(r, |s.out|, back)
    requires Lacks(s, c) && c <= s.snd.lastAcked && s.slot.dest.None?
    ensures Lacks(s', c) && s'.slot.dest.None?
  {
    NoCopyArrives(t, digest, r, s, r', s', c, back);
    StillLacks(t, digest, r'.states, r'.events, |r.events|, |r'.events|, c);
  }

  /** Some continuation commits the file with none of the messages queued so far. */
  ghost predicate CommitsAnew(t: Transfer, digest: Bytes -> string, r: Trace, s: State) {
    exists r': Trace, s': State ::
      r'.Of(t, digest, s') && r'.Since(r, |s.out|, |s.back|) && s'.slot.dest == Some(t.source)
  }

  /** The receiver has what the sender believes it has. */
  ghost predicate InStep(s: State) {
    s.slot.dest.Some? || (s.slot.ctx.Some? && Range(0, s.snd.lastAcked + 1) <= s.slot.ctx.value.received)
  }

  lemma OutOfStep(t: Transfer, digest: Bytes -> string, r: Trace, s: State) returns (c: nat)
    requires WellFormed(t, digest) && r.Of(t, digest, s) && s.snd.metaAcked && !InStep(s)
    ensures Lacks(s, c) && c <= s.snd.lastAcked && s.slot.dest.None?
  {
    var i := |r.states| - 1;
    TraceInv(t, digest, r, s);
    var j := ContextExisted(t, digest, r.states, r.events, i);
    Always(t, digest, r.states, r.events, j);
    CommitInvAlways(t, digest, r.states, r.events, i);
    c :| c in Range(0, s.snd.lastAcked + 1) && c !in s.slot.ctx.value.received;
  }

  /** The two dispatchers finish what they have begun, without any message. */
  lemma Calm(t: Transfer, digest: Bytes -> string, r: Trace, s: State, out: nat, back: nat)
    returns (r': Trace, s': State)
    requires WellFormed(t, digest) && r.Of(t, digest, s)
    requires s.snd.metaAcked && !s.snd.finished && s.snd.inflight == []
    requires s.slot.ctx.Some? && s.slot.ctx.value.received == Range(0, s.snd.nextToSend)
    ensures r'.Of(t, digest, s') && r'.Since(r, out, back)
    ensures s'.slot.dest == Some(t.source)
            || (&& s' == s.(ackPc := AckIdle, dataPc := DataIdle)
                && s.snd.nextToSend < t.total)
  {
    TraceInv(t, digest, r, s);
    r', s' := CalmAck(t, digest, r, s, out, back);
    TraceInv(t, digest, r', s');
    FullIffNothingMissing(s'.slot.ctx.value);
    if s'.dataPc.DataClosing? {
      CloseEffect(t, digest, s');
      r' := Then(t, digest, r, r', s', DataCloses, out, back);
      s' := Do(t, digest, s', DataCloses);
    }
  }

  lemma CalmAck(t: Transfer, digest: Bytes -> string, r: Trace, s: State, out: nat, back: nat)
    returns (r': Trace, s': State)
    requires WellFormed(t, digest) && r.Of(t, digest, s) && s.snd.metaAcked && s.snd.inflight == []
    ensures r'.Of(t, digest, s') && r'.Since(r, out, back) && s' == s.(ackPc := AckIdle)
  {
    TraceInv(t, digest, r, s);
    r', s' := r, s;
    if s.ackPc.AckChecked? {
      StaleAcknowledge(t, s.snd, s.ackPc.nextNeeded);
      r' := Then(t, digest, r, r', s', AckApplies, out, back);
      s' := s.(ackPc := AckIdle);
    }
  }

  lemma NewOnly(t: Transfer, s: State)
    requires Inv(t, s)
    ensures Marked(s, s.snd.nextToSend, |s.out|, |s.back|)
  {
    forall j | 0 <= j < |s.out| && s.out[j].Data?
      ensures s.out[j].idx < s.snd.nextToSend
    {
      assert s.out[j] in s.out;
    }
  }

  lemma Anew(t: Transfer, digest: Bytes -> string, r: Trace, s: State) returns (r': Trace, s': State)
    requires WellFormed(t, digest) && r.Of(t, digest, s)
    requires s.snd.metaAcked && !s.snd.finished && s.snd.inflight == [] && InStep(s)
    ensures r'.Of(t, digest, s') && r'.Since(r, |s.out|, |s.back|) && s'.slot.dest == Some(t.source)
  {
    var k, out, back := s.snd.nextToSend, |s.out|, |s.back|;
    TraceLive(t, digest, r, s);
    NewOnly(t, s);
    if s.slot.dest.Some? {
      return r, s;
    }
    assert s.slot.ctx.value.received == Range(0, k);
    var r1, s1 := Calm(t, digest, r, s, out, back);
    if s1.slot.dest.Some? {
      TraceInv(t, digest, r1, s1);
      return r1, s1;
    }
    var r2, s2 := EndVisit(t, digest, r1, s1, k, out, back);
    SinceTransitive(r, r1, r2, out, back);
    r', s' := TheRest(t, digest, r2, s2, k, out, back);
    SinceTransitive(r, r2, r', out, back);
  }

  /**
   * When nothing is in flight and everything queued so far is lost, an announced, unfinished transfer can still be
   * committed exactly if the receiver has every chunk that the sender has seen acknowledged, or has committed already.
   */
  lemma CommitsAnewIff(t: Transfer, digest: Bytes -> string, r: Trace, s: State)
    requires WellFormed(t, digest) && r.Of(t, digest, s)
    requires s.snd.metaAcked && !s.snd.finished && s.snd.inflight == []
    ensures CommitsAnew(t, digest, r, s) <==> InStep(s)
  {
    if InStep(s) {
      var r', s' := Anew(t, digest, r, s);
    } else {
      var c := OutOfStep(t, digest, r, s);
      forall r': Trace, s': State | r'.Of(t, digest, s') && r'.Since(r, |s.out|, |s.back|)
        ensures s'.slot.dest != Some(t.source)
      {
        LostForGood(t, digest, r, s, r', s', c, |s.back|);
      }
    }
  }
}
