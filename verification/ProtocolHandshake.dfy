/** META: how often it is sent, and what its repetition achieves when messages are lost. */
module ProtocolHandshake {
  import opened Bytes
  import opened Wrappers
  import opened Ranges
  import opened Messages
  import opened SendWindow
  import opened ReceiveSlot
  import opened Protocol
  import opened ProtocolTheorems
  import opened ProtocolCommits
  import opened ProtocolTraces
  import opened ProtocolReach
  import opened ProtocolLosses

  // How often META is queued

  /** The event announces the file: the first time, or because 1.5 seconds have passed without an answer. */
  predicate Announces(e: Event) {
    e.SendMeta? || (e.MetaTimer? && e.resend)
  }

  /** The event reports that nobody answered for 30 seconds. */
  predicate Expires(e: Event) {
    e.StartTimer? && e.expired
  }

  function Tally(events: seq<Event>, n: nat, p: Event -> bool): nat
    requires n <= |events|
  {
    if n == 0 then 0 else Tally(events, n - 1, p) + if p(events[n - 1]) then 1 else 0
  }

  lemma CountQueued(log: seq<Message>, m: Message, x: Message)
    ensures Count(log + [m], x) == Count(log, x) + if m == x then 1 else 0
  {
    CountAppend(log, [m], x);
    CountOne(m, x);
  }

  lemma ServiceQueuesNeither(t: Transfer, s: State, now: real, clock: nat -> real)
    requires Inv(t, s)
    ensures var posts := Service(t, s.snd, now, clock).posts;
            && Count(s.out + posts, t.Meta()) == Count(s.out, t.Meta())
            && Count(s.out + posts, FIN_META_TIMEOUT) == Count(s.out, FIN_META_TIMEOUT)
  {
    var posts := Service(t, s.snd, now, clock).posts;
    ServiceKeepsShape(t, s.snd, now, clock);
    CountAppend(s.out, posts, t.Meta());
    CountAppend(s.out, posts, FIN_META_TIMEOUT);
    CountAbsent(posts, t.Meta());
    CountAbsent(posts, FIN_META_TIMEOUT);
  }

  lemma HandshakeStep(t: Transfer, digest: Bytes -> string, s: State, e: Event)
    requires Inv(t, s) && Enabled(t, s, e)
    ensures var s' := Do(t, digest, s, e);
            && Count(s'.out, t.Meta()) == Count(s.out, t.Meta()) + (if Announces(e) then 1 else 0)
            && Count(s'.out, FIN_META_TIMEOUT) == Count(s.out, FIN_META_TIMEOUT) + (if Expires(e) then 1 else 0)
  {
    if e.PumpService? {
      ServiceQueuesNeither(t, s, e.now, e.clock);
    } else {
      CountQueued(s.out, t.Meta(), t.Meta());
      CountQueued(s.out, t.Meta(), FIN_META_TIMEOUT);
      CountQueued(s.out, FIN_OK, t.Meta());
      CountQueued(s.out, FIN_OK, FIN_META_TIMEOUT);
      CountQueued(s.out, FIN_META_TIMEOUT, t.Meta());
      CountQueued(s.out, FIN_META_TIMEOUT, FIN_META_TIMEOUT);
    }
  }

  /** Exactly the events that announce the file queue META, and exactly the timeout of 30 seconds is reported. */
  lemma {:induction false} MetaCount(
      t: Transfer, digest: Bytes -> string, states: seq<State>, events: seq<Event>, i: nat)
    requires WellFormed(t, digest) && Run(t, digest, states, events) && i < |states|
    ensures Count(states[i].out, t.Meta()) == Tally(events, i, Announces)
    ensures Count(states[i].out, Fin("error", "meta_timeout")) == Tally(events, i, Expires)
  {
    if i > 0 {
      MetaCount(t, digest, states, events, i - 1);
      Always(t, digest, states, events, i - 1);
      assert StepAt(t, digest, states, events, i - 1);
      HandshakeStep(t, digest, states[i - 1], events[i - 1]);
    }
  }

  /** META may be queued once more without another test of the loop. */
  function Pending(pc: SendPc): nat {
    if pc.NotStarted? || pc.Registered? || pc.LoopBody? then 1 else 0
  }

  lemma PendingStep(t: Transfer, digest: Bytes -> string, s: State, e: Event)
    requires Enabled(t, s, e) && (s.snd.metaAcked || s.snd.finished)
    ensures (if Announces(e) then 1 else 0) + Pending(Do(t, digest, s, e).sendPc) <= Pending(s.sendPc)
  {
  }

  /** Once META is acknowledged or the transfer finished, it is queued at most once more. */
  lemma {:induction false} MetaStops(
      t: Transfer, digest: Bytes -> string, states: seq<State>, events: seq<Event>, a: nat, b: nat)
    requires WellFormed(t, digest) && Run(t, digest, states, events) && a <= b < |states|
    requires states[a].snd.metaAcked || states[a].snd.finished
    ensures Count(states[b].out, t.Meta()) + Pending(states[b].sendPc)
            <= Count(states[a].out, t.Meta()) + Pending(states[a].sendPc)
  {
    if a < b {
      MetaStops(t, digest, states, events, a, b - 1);
      NothingTakenBack(t, digest, states, events, a, b - 1);
      Always(t, digest, states, events, b - 1);
      assert StepAt(t, digest, states, events, b - 1);
      HandshakeStep(t, digest, states[b - 1], events[b - 1]);
      PendingStep(t, digest, states[b - 1], events[b - 1]);
    }
  }

  /** `send_file` returns only when META is acknowledged or the transfer finished. */
  lemma {:induction false} ReturnsSettled(
      t: Transfer, digest: Bytes -> string, states: seq<State>, events: seq<Event>, i: nat)
    requires WellFormed(t, digest) && Run(t, digest, states, events) && i < |states|
    ensures states[i].sendPc.Returned? ==> states[i].snd.metaAcked || states[i].snd.finished
  {
    if i > 0 {
      ReturnsSettled(t, digest, states, events, i - 1);
      RunGrows(t, digest, states, events, i - 1);
      assert StepAt(t, digest, states, events, i - 1);
    }
  }

  // A new META

  /** `send_file` comes round to queueing META, unless it has decided to give up. */
  lemma NewMeta(t: Transfer, digest: Bytes -> string, r: Trace, s: State, out: nat, back: nat)
    returns (r': Trace, s': State)
    requires WellFormed(t, digest) && r.Of(t, digest, s) && out <= |s.out|
    requires !s.snd.metaAcked && !s.snd.finished && !s.sendPc.GivingUp?
    ensures r'.Of(t, digest, s') && r'.Since(r, out, back)
    ensures |s'.out| > out && s'.out[|s'.out| - 1] == t.Meta()
    ensures s' == s.(registered := s'.registered, sendPc := s'.sendPc, out := s'.out)
  {
    ReturnsSettled(t, digest, r.states, r.events, |r.states| - 1);
    r', s' := r, s;
    if s'.sendPc.LoopTimer? {
      r' := Then(t, digest, r, r', s', StartTimer(false), out, back);
      s' := s'.(sendPc := LoopTest);
    }
    if s'.sendPc.LoopTest? {
      r' := Then(t, digest, r, r', s', TestLoop, out, back);
      s' := s'.(sendPc := LoopBody);
    }
    if s'.sendPc.NotStarted? {
      r' := Then(t, digest, r, r', s', Register, out, back);
      s' := s'.(registered := true, sendPc := Registered);
    }
    if s'.sendPc.Registered? {
      r' := Then(t, digest, r, r', s', SendMeta, out, back);
      s' := s'.(sendPc := LoopTest, out := s'.out + [t.Meta()]);
    } else {
      r' := Then(t, digest, r, r', s', MetaTimer(true), out, back);
      s' := s'.(sendPc := LoopTimer, out := s'.out + [t.Meta()]);
    }
  }

  /** Before META is acknowledged nothing has been sent, so no context is full. */
  lemma NothingYet(t: Transfer, s: State)
    requires Inv(t, s) && !s.snd.metaAcked
    ensures s.snd.nextToSend == 0 && s.snd.lastAcked == -1 && s.snd.inflight == []
    ensures s.ackPc.AckChecked? ==> s.ackPc.nextNeeded == 0
    ensures s.slot.ctx.Some? ==> t.total > 0 && s.slot.ctx.value.received == {} && !Full(s.slot.ctx.value)
  {
    if s.slot.ctx.Some? {
      assert Range(0, 0) == {};
    }
  }

  /** The receiver opens a context, or commits a file without chunks. */
  lemma Reopen(t: Transfer, digest: Bytes -> string, r: Trace, s: State, out: nat, back: nat)
    returns (r': Trace, s': State)
    requires WellFormed(t, digest) && r.Of(t, digest, s) && !s.snd.metaAcked
    requires |s.out| > out && s.out[|s.out| - 1] == t.Meta()
    ensures r'.Of(t, digest, s') && r'.Since(r, out, back)
    ensures s'.snd == s.snd && s'.ackPc == s.ackPc && s'.registered == s.registered
    ensures s'.sendPc == s.sendPc && s'.out == s.out
    ensures if t.total == 0 then s'.slot.dest == Some(t.source)
            else s'.slot.ctx == Some(Fresh(t)) && s'.back == s.back + [Ack(0)]
  {
    TraceInv(t, digest, r, s);
    NothingYet(t, s);
    r', s' := r, s;
    if s'.dataPc.DataClosing? {
      CloseEffect(t, digest, s);
      r' := Then(t, digest, r, r', s', DataCloses, out, back);
      s' := s.(dataPc := DataIdle);
      assert s.back + [] == s.back;
    }
    TraceInv(t, digest, r', s');
    var k := |s'.out| - 1;
    MetaEffect(t, digest, s', k);
    r' := Then(t, digest, r, r', s', MetaArrives(k), out, back);
    s' := Do(t, digest, s', MetaArrives(k));
  }

  /** The sender hears of it. */
  lemma Hear(t: Transfer, digest: Bytes -> string, r: Trace, s: State, out: nat, back: nat)
    returns (r': Trace, s': State)
    requires WellFormed(t, digest) && r.Of(t, digest, s)
    requires !s.snd.metaAcked && !s.snd.finished
    requires s.ackPc.AckChecked? || (s.registered && |s.back| > back && s.back[|s.back| - 1] == Ack(0))
    ensures r'.Of(t, digest, s') && r'.Since(r, out, back)
    ensures s' == s.(snd := s.snd.(metaAcked := true), ackPc := AckIdle)
  {
    TraceInv(t, digest, r, s);
    NothingYet(t, s);
    r', s' := r, s;
    if s'.ackPc.AckIdle? {
      r' := Then(t, digest, r, r', s', AckArrives(|s.back| - 1), out, back);
      s' := s.(ackPc := AckChecked(0));
    }
    StaleAcknowledge(t, s.snd, 0);
    r' := Then(t, digest, r, r', s', AckApplies, out, back);
    s' := s.(snd := s.snd.(metaAcked := true), ackPc := AckIdle);
  }

  lemma SinceWeaker(r: Trace, r': Trace, out: nat, back: nat, out': nat, back': nat)
    requires r'.Since(r, out, back) && out' <= out && back' <= back
    ensures r'.Since(r, out', back')
  {
    forall j | |r.events| <= j < |r'.events|
      ensures Takes(r'.events[j], out', back')
    {
      assert Takes(r'.events[j], out, back);
    }
  }

  /** Once the sender has heard, the rest is as in `Anew`. */
  lemma GoOn(t: Transfer, digest: Bytes -> string, r: Trace, s: State, out: nat, back: nat)
    returns (r': Trace, s': State)
    requires WellFormed(t, digest) && r.Of(t, digest, s) && out <= |s.out| && back <= |s.back|
    requires s.snd.metaAcked && !s.snd.finished && s.snd.inflight == [] && InStep(s)
    ensures r'.Of(t, digest, s') && r'.Since(r, out, back) && s'.slot.dest == Some(t.source)
  {
    r', s' := Anew(t, digest, r, s);
    SinceWeaker(r, r', |s.out|, |s.back|, out, back);
  }

  /** Everything queued so far is lost, and `send_file` is still in its loop, or before it. */
  lemma Retry(t: Transfer, digest: Bytes -> string, r: Trace, s: State) returns (r': Trace, s': State)
    requires WellFormed(t, digest) && r.Of(t, digest, s)
    requires !s.snd.metaAcked && !s.snd.finished && !s.sendPc.GivingUp?
    ensures r'.Of(t, digest, s') && r'.Since(r, |s.out|, |s.back|) && s'.slot.dest == Some(t.source)
  {
    var out, back := |s.out|, |s.back|;
    var r1, s1 := NewMeta(t, digest, r, s, out, back);
    var r2, s2 := Reopen(t, digest, r1, s1, out, back);
    SinceTransitive(r, r1, r2, out, back);
    if t.total == 0 {
      return r2, s2;
    }
    TraceLive(t, digest, r1, s1);
    TraceLive(t, digest, r2, s2);
    var r3, s3 := Hear(t, digest, r2, s2, out, back);
    SinceTransitive(r, r2, r3, out, back);
    TraceInv(t, digest, r3, s3);
    NothingYet(t, s2);
    assert Range(0, 0) == {};
    r', s' := GoOn(t, digest, r3, s3, out, back);
    SinceTransitive(r, r3, r', out, back);
  }

  /** `send_file` is giving up, but an ACK has been checked and not yet applied. */
  lemma LateAck(t: Transfer, digest: Bytes -> string, r: Trace, s: State) returns (r': Trace, s': State)
    requires WellFormed(t, digest) && r.Of(t, digest, s)
    requires !s.snd.metaAcked && !s.snd.finished && s.ackPc.AckChecked?
    ensures r'.Of(t, digest, s') && r'.Since(r, |s.out|, |s.back|) && s'.slot.dest == Some(t.source)
  {
    var out, back, i := |s.out|, |s.back|, |r.states| - 1;
    TraceInv(t, digest, r, s);
    NothingYet(t, s);
    var j := ContextExisted(t, digest, r.states, r.events, i);
    Always(t, digest, r.states, r.events, j);
    CommitInvAlways(t, digest, r.states, r.events, i);
    var r1, s1 := Hear(t, digest, r, s, out, back);
    assert Range(0, 0) == {};
    r', s' := GoOn(t, digest, r1, s1, out, back);
    SinceTransitive(r, r1, r', out, back);
  }

  // Nothing to hope for

  /** Since s, nothing has been sent or heard, and nothing will be: `send_file` has given up. */
  ghost predicate Deaf(s: State, u: State) {
    && !u.snd.metaAcked && u.ackPc.AckIdle? && (u.sendPc.GivingUp? || u.sendPc.Returned?)
    && u.slot == s.slot && u.back == s.back && s.out <= u.out
    && forall k :: |s.out| <= k < |u.out| ==> u.out[k].Fin?
  }

  lemma DeafStep(t: Transfer, digest: Bytes -> string, s: State, u: State, e: Event)
    requires WellFormed(t, digest) && Inv(t, u) && Enabled(t, u, e) && Deaf(s, u)
    requires Takes(e, |s.out|, |s.back|)
    ensures Deaf(s, Do(t, digest, u, e))
  {
    if e.DataCloses? {
      NothingYet(t, u);
      CloseEffect(t, digest, u);
      assert u.back + [] == u.back;
    }
  }

  lemma {:induction false} DeafStays(
      t: Transfer, digest: Bytes -> string, s: State, states: seq<State>, events: seq<Event>, a: nat, b: nat)
    requires WellFormed(t, digest) && Run(t, digest, states, events) && a <= b < |states| && Deaf(s, states[a])
    requires forall j :: a <= j < b ==> Takes(events[j], |s.out|, |s.back|)
    ensures Deaf(s, states[b])
  {
    if a < b {
      DeafStays(t, digest, s, states, events, a, b - 1);
      Always(t, digest, states, events, b - 1);
      assert StepAt(t, digest, states, events, b - 1);
      DeafStep(t, digest, s, states[b - 1], events[b - 1]);
    }
  }

  lemma NoAnswer(t: Transfer, digest: Bytes -> string, r: Trace, s: State, r': Trace, s': State)
    requires WellFormed(t, digest) && r.Of(t, digest, s) && r'.Of(t, digest, s') && r'.Since(r, |s.out|, |s.back|)
    requires !s.snd.metaAcked && s.sendPc.GivingUp? && s.ackPc.AckIdle? && s.slot.dest.None?
    ensures s'.slot.dest.None?
  {
    var a, b := |r.events|, |r'.events|;
    assert r'.states[a] == s;
    forall j | a <= j < b
      ensures Takes(r'.events[j], |s.out|, |s.back|)
    {
    }
    DeafStays(t, digest, s, r'.states, r'.events, a, b);
  }

  /**
   * With every message queued so far lost, a transfer whose META has not been acknowledged and that is not finished can
   * still be committed, thanks to the repetition of META, exactly if it is committed already, `send_file` has not
   * decided to give up, or an ACK has been checked already and only waits to be applied.
   */
  lemma UnackedAnewIff(t: Transfer, digest: Bytes -> string, r: Trace, s: State)
    requires WellFormed(t, digest) && r.Of(t, digest, s) && !s.snd.metaAcked && !s.snd.finished
    ensures CommitsAnew(t, digest, r, s) <==> s.slot.dest.Some? || !s.sendPc.GivingUp? || s.ackPc.AckChecked?
  {
    TraceInv(t, digest, r, s);
    if s.slot.dest.Some? {
      assert r.Since(r, |s.out|, |s.back|);
    } else if !s.sendPc.GivingUp? {
      var r', s' := Retry(t, digest, r, s);
    } else if s.ackPc.AckChecked? {
      var r', s' := LateAck(t, digest, r, s);
    } else {
      forall r': Trace, s': State | r'.Of(t, digest, s') && r'.Since(r, |s.out|, |s.back|)
        ensures s'.slot.dest != Some(t.source)
      {
        NoAnswer(t, digest, r, s, r', s');
      }
    }
  }
}
