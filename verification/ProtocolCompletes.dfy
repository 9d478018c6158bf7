/** Every file can be transferred: the safety theorems are not about runs that never get anywhere. */
module ProtocolCompletes {
  import opened Bytes
  import opened Wrappers
  import opened Ranges
  import opened Messages
  import opened SendWindow
  import opened ReceiveSlot
  import opened Protocol
  import opened ProtocolTraces
  import opened ProtocolExamples

  /** Between two visits of the pump, with the sender's context open. */
  ghost predicate Resting(s: State) {
    s.registered && s.pumpPc.PumpIdle? && s.ackPc.AckIdle? && s.dataPc.DataIdle? && s.snd.metaAcked && !s.snd.finished
  }

  /** Both sides agree that exactly the first k chunks have arrived. */
  ghost predicate Agreed(t: Transfer, s: State, k: nat) {
    && Resting(s) && k < t.total && s.snd.lastAcked == k - 1
    && s.slot.ctx.Some? && s.slot.ctx.value.received == Range(0, k)
  }

  /** A region that finds nothing in flight only fills the window. */
  lemma ServiceOfNothing(t: Transfer, s: SendState, now: real, clock: nat -> real)
    requires Shape(t, s) && s.inflight == [] && !s.finished
    ensures var e := Service(t, s, now, clock);
            && e == RefillWindow(t, s, clock)
            && e.state == s.(nextToSend := e.state.nextToSend, inflight := e.state.inflight)
            && (s.nextToSend < t.total ==> s.nextToSend < e.state.nextToSend)
            && (s.nextToSend == t.total ==> e == Effect(s, []))
  {
    var r := RetransferExpired(t, s, now, clock);
    assert r == Effect(s, []);
    RefillShape(t, s, clock);
    assert Service(t, s, now, clock) == RefillWindow(t, s, clock);
  }

  /** None of the messages before the marks is a DATA for chunk k or a later one. */
  ghost predicate Marked(s: State, k: nat, out: nat, back: nat) {
    && out <= |s.out| && back <= |s.back|
    && forall j :: 0 <= j < out && s.out[j].Data? ==> s.out[j].idx < k
  }

  /** One pass of the pump over a context with nothing in flight and something to send. */
  lemma Pass(t: Transfer, digest: Bytes -> string, r: Trace, s: State, k: nat, out: nat, back: nat)
    returns (r': Trace, s': State)
    requires WellFormed(t, digest) && r.Of(t, digest, s) && Agreed(t, s, k) && s.snd.nextToSend == k
    ensures r'.Of(t, digest, s') && r'.Since(r, out, back)
    ensures s' == s.(snd := s'.snd, out := s'.out) && s.out <= s'.out
    ensures s'.snd == s.snd.(nextToSend := s'.snd.nextToSend, inflight := s'.snd.inflight)
    ensures k < s'.snd.nextToSend
  {
    TraceInv(t, digest, r, s);
    ServiceOfNothing(t, s.snd, 0.0, STILL);
    var e := Service(t, s.snd, 0.0, STILL);
    r' := Then(t, digest, r, r, s, PumpVisit, out, back);
    s' := s.(pumpPc := PumpEntering);
    r' := Then(t, digest, r, r', s', PumpService(0.0, STILL), out, back);
    s' := s.(snd := e.state, pumpPc := PumpTesting, out := s.out + e.posts);
    r' := Then(t, digest, r, r', s', PumpTest, out, back);
    s' := s.(snd := e.state, out := s.out + e.posts);
  }

  /** The pump makes sure that the next chunk has been sent. */
  lemma Feed(t: Transfer, digest: Bytes -> string, r: Trace, s: State, k: nat, out: nat, back: nat)
    returns (r': Trace, s': State)
    requires WellFormed(t, digest) && r.Of(t, digest, s) && Agreed(t, s, k) && Marked(s, k, out, back)
    ensures r'.Of(t, digest, s') && r'.Since(r, out, back)
    ensures Agreed(t, s', k) && Marked(s', k, out, back) && k < s'.snd.nextToSend
  {
    TraceInv(t, digest, r, s);
    if k < s.snd.nextToSend {
      r', s' := r, s;
    } else {
      r', s' := Pass(t, digest, r, s, k, out, back);
    }
  }

  lemma Received(t: Transfer, s: State, k: nat)
    requires t.Valid() && Inv(t, s) && k < t.total
    requires s.slot.ctx.Some? && s.slot.ctx.value.received == Range(0, k)
    ensures Accepts(s.slot, t.Data(k))
    ensures var o := OnData(s.slot, t.Data(k));
            && o.slot.ctx.Some? && o.slot.temp.Some? && o.slot.ctx.value.received == Range(0, k + 1)
            && o.slot.ctx.value.total == t.total && Consistent(o.slot.ctx.value)
            && o.replies == [Ack(k + 1)]
  {
    var ctx := s.slot.ctx.value;
    ReceiveKeepsConsistent(ctx, k);
    assert Range(0, k + 1) == Range(0, k) + {k};
    LeastMissingUnique(Range(0, k + 1), Receive(ctx, k).nextNeeded, k + 1);
  }

  lemma IsQueued(t: Transfer, s: State, k: nat) returns (j: nat)
    requires Inv(t, s) && s.snd.lastAcked < k < s.snd.nextToSend
    ensures j < |s.out| && s.out[j] == t.Data(k)
  {
    CountAbsent(s.out, t.Data(k));
    assert Count(s.out, t.Data(k)) == Sends(s.snd, k);
    j :| 0 <= j < |s.out| && s.out[j] == t.Data(k);
  }

  /** Everything has been acknowledged, and the file is where it belongs. */
  ghost predicate Done(t: Transfer, s: State) {
    Resting(s) && s.snd.lastAcked + 1 == t.total && s.slot.dest == Some(t.source)
  }

  /** Chunk k has been written and its ACK queued. */
  ghost predicate Answered(t: Transfer, s: State, k: nat) {
    && Resting(s.(dataPc := DataIdle)) && s.dataPc.DataClosing? && k < t.total && s.snd.lastAcked == k - 1
    && s.slot.ctx.Some? && s.slot.ctx.value.received == Range(0, k + 1)
    && s.back != [] && s.back[|s.back| - 1] == Ack(k + 1)
  }

  lemma Arrive(t: Transfer, digest: Bytes -> string, r: Trace, s: State, k: nat, out: nat, back: nat)
    returns (r': Trace, s': State)
    requires WellFormed(t, digest) && r.Of(t, digest, s) && Agreed(t, s, k) && Marked(s, k, out, back)
    requires k < s.snd.nextToSend
    ensures r'.Of(t, digest, s') && r'.Since(r, out, back)
    ensures Answered(t, s', k) && s'.snd == s.snd && s'.out == s.out && |s'.back| > back
  {
    TraceInv(t, digest, r, s);
    var j := IsQueued(t, s, k);
    Received(t, s, k);
    r' := Then(t, digest, r, r, s, DataArrives(j), out, back);
    s' := Do(t, digest, s, DataArrives(j));
  }

  /** The ACK reaches the sender. */
  lemma AckBack(t: Transfer, digest: Bytes -> string, r: Trace, s: State, k: nat, out: nat, back: nat)
    returns (r': Trace, s': State)
    requires WellFormed(t, digest) && r.Of(t, digest, s) && Answered(t, s, k) && back < |s.back|
    ensures r'.Of(t, digest, s') && r'.Since(r, out, back)
    ensures s' == s.(snd := s'.snd) && s'.snd.nextToSend == s.snd.nextToSend
    ensures s'.snd.lastAcked == k && s'.snd.metaAcked && !s'.snd.finished
  {
    TraceInv(t, digest, r, s);
    var last := |s.back| - 1;
    r' := Then(t, digest, r, r, s, AckArrives(last), out, back);
    s' := s.(ackPc := AckChecked(k + 1));
    r' := Then(t, digest, r, r', s', AckApplies, out, back);
    s' := s.(snd := Acknowledge(s.snd, k + 1));
  }

  lemma Settle(t: Transfer, digest: Bytes -> string, r: Trace, s: State, k: nat, out: nat, back: nat)
    returns (r': Trace, s': State)
    requires WellFormed(t, digest) && r.Of(t, digest, s) && Answered(t, s, k) && back < |s.back|
    ensures r'.Of(t, digest, s') && r'.Since(r, out, back)
    ensures if k + 1 < t.total then Agreed(t, s', k + 1) else Done(t, s')
    ensures s'.snd.nextToSend == s.snd.nextToSend && s'.out == s.out && s.back <= s'.back
  {
    r', s' := AckBack(t, digest, r, s, k, out, back);
    TraceInv(t, digest, r', s');
    FullIffNothingMissing(s'.slot.ctx.value);
    CloseEffect(t, digest, s');
    r' := Then(t, digest, r, r', s', DataCloses, out, back);
    s' := Do(t, digest, s', DataCloses);
  }

  /** One more chunk that has been sent. */
  lemma Advance(t: Transfer, digest: Bytes -> string, r: Trace, s: State, k: nat, out: nat, back: nat)
    returns (r': Trace, s': State)
    requires WellFormed(t, digest) && r.Of(t, digest, s) && Agreed(t, s, k) && Marked(s, k, out, back)
    requires k < s.snd.nextToSend
    ensures r'.Of(t, digest, s') && r'.Since(r, out, back)
    ensures if k + 1 < t.total then Agreed(t, s', k + 1) else Done(t, s')
    ensures Marked(s', k + 1, out, back) && s'.snd.nextToSend == s.snd.nextToSend
  {
    var r1, s1 := Arrive(t, digest, r, s, k, out, back);
    r', s' := Settle(t, digest, r1, s1, k, out, back);
    SinceTransitive(r, r1, r', out, back);
  }

  /** Chunk after chunk, from any point at which both sides agree, with nothing but new messages. */
  lemma {:induction false} TheRest(
      t: Transfer, digest: Bytes -> string, r: Trace, s: State, k: nat, out: nat, back: nat)
    returns (r': Trace, s': State)
    requires WellFormed(t, digest) && r.Of(t, digest, s) && Agreed(t, s, k) && Marked(s, k, out, back)
    ensures r'.Of(t, digest, s') && r'.Since(r, out, back) && Done(t, s')
    decreases t.total - k
  {
    var r1, s1 := Feed(t, digest, r, s, k, out, back);
    r', s' := Advance(t, digest, r1, s1, k, out, back);
    SinceTransitive(r, r1, r', out, back);
    if k + 1 < t.total {
      var r2 := r';
      r', s' := TheRest(t, digest, r2, s', k + 1, out, back);
      SinceTransitive(r, r2, r', out, back);
    }
  }

  /** The pump notices that everything has been acknowledged. */
  lemma Conclude(t: Transfer, digest: Bytes -> string, r: Trace, s: State) returns (r': Trace, s': State)
    requires WellFormed(t, digest) && r.Of(t, digest, s) && Done(t, s)
    ensures r'.Of(t, digest, s')
    ensures s'.slot.dest == Some(t.source) && FIN_OK in s'.out && s'.snd.finished
  {
    TraceInv(t, digest, r, s);
    ServiceOfNothing(t, s.snd, 0.0, STILL);
    r' := Extend(t, digest, r, s, PumpVisit);
    s' := Do(t, digest, s, PumpVisit);
    r' := Extend(t, digest, r', s', PumpService(0.0, STILL));
    s' := Do(t, digest, s', PumpService(0.0, STILL));
    r' := Extend(t, digest, r', s', PumpTest);
    s' := Do(t, digest, s', PumpTest);
    r' := Extend(t, digest, r', s', PumpClose);
    s' := Do(t, digest, s', PumpClose);
  }

  /** A file without chunks is committed on its META alone. */
  lemma EmptyFile(t: Transfer, digest: Bytes -> string) returns (r: Trace, s: State)
    requires WellFormed(t, digest) && t.total == 0
    ensures r.Of(t, digest, s)
    ensures s.slot.dest == Some(t.source) && FIN_OK in s.out && s.snd.finished
  {
    r := Start(t, digest);
    s := INITIAL;
    NoChunks(t);
    r := Extend(t, digest, r, s, Register);
    s := Do(t, digest, s, Register);
    r := Extend(t, digest, r, s, SendMeta);
    s := Do(t, digest, s, SendMeta);
    r := Extend(t, digest, r, s, MetaArrives(0));
    s := Do(t, digest, s, MetaArrives(0));
    r := Extend(t, digest, r, s, PumpVisit);
    s := Do(t, digest, s, PumpVisit);
    r := Extend(t, digest, r, s, PumpTest);
    s := Do(t, digest, s, PumpTest);
    r := Extend(t, digest, r, s, PumpClose);
    s := Do(t, digest, s, PumpClose);
  }

  /** For every file of every length there is a run that commits it and ends the transfer well. */
  lemma EveryFileArrives(t: Transfer, digest: Bytes -> string) returns (r: Trace, s: State)
    requires WellFormed(t, digest)
    ensures r.Of(t, digest, s)
    ensures s.slot.dest == Some(t.source) && FIN_OK in s.out && s.snd.finished
  {
    if t.total == 0 {
      r, s := EmptyFile(t, digest);
    } else {
      r := Handshake(t, digest);
      s := Announced(t, Opened(t));
      var service := PumpService(0.0, STILL);
      r := Extend(t, digest, r, s, service);
      ServiceOfNothing(t, s.snd, 0.0, STILL);
      s := Do(t, digest, s, service);
      r := Extend(t, digest, r, s, PumpTest);
      s := Do(t, digest, s, PumpTest);
      r, s := TheRest(t, digest, r, s, 0, 0, 0);
      r, s := Conclude(t, digest, r, s);
    }
  }
}
