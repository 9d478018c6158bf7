/** When a file is committed, how often, and what the sender may conclude. */
module ProtocolCommits {
  import opened Bytes
  import opened Wrappers
  import opened Ranges
  import opened Messages
  import opened SendWindow
  import opened ReceiveSlot
  import opened Protocol
  import opened ProtocolTheorems
  import opened ProtocolTraces

  /** An event commits the file: the close of a full context or, for a file without chunks, its META. */
  ghost predicate Commits(t: Transfer, s: State, e: Event) {
    || (e.DataCloses? && s.slot.ctx.Some? && Full(s.slot.ctx.value))
    || (e.MetaArrives? && t.total == 0)
  }

  function Fresh(t: Transfer): RecvState {
    RecvState(|t.source|, t.sha256, t.chunkSize, t.total, {}, 0, false)
  }

  /** Any META that can arrive starts a new context, or commits a file without chunks. */
  lemma MetaEffect(t: Transfer, digest: Bytes -> string, s: State, k: nat)
    requires WellFormed(t, digest) && SenderInv(t, s) && Enabled(t, s, MetaArrives(k))
    ensures OnMeta(s.slot, s.out[k], digest)
            == if t.total == 0 then Outcome(Slot(None, None, Some(t.source)), [FIN_OK])
               else Outcome(Slot(Some(Fresh(t)), Some([]), s.slot.dest), [Ack(0)])
  {
    assert s.out[k] in s.out;
    assert s.out[k] == t.Meta();
    if t.total == 0 {
      NoChunks(t);
    }
  }

  lemma CommitStepIff(t: Transfer, digest: Bytes -> string, s: State, e: Event)
    requires WellFormed(t, digest) && Inv(t, s) && Enabled(t, s, e)
    ensures Do(t, digest, s, e).slot.dest.Some? <==> s.slot.dest.Some? || Commits(t, s, e)
  {
    if e.MetaArrives? {
      MetaEffect(t, digest, s, e.k);
    } else if e.DataCloses? {
      CloseEffect(t, digest, s);
    }
  }

  ghost predicate CommittedBefore(t: Transfer, states: seq<State>, events: seq<Event>, i: nat)
    requires |states| == |events| + 1 && i < |states|
  {
    exists j :: 0 <= j < i && Commits(t, states[j], events[j])
  }

  /** In every run the destination is there exactly when an earlier event committed it. */
  lemma {:induction false} CommittedIff(
      t: Transfer, digest: Bytes -> string, states: seq<State>, events: seq<Event>, i: nat)
    requires WellFormed(t, digest) && Run(t, digest, states, events) && i < |states|
    ensures states[i].slot.dest == Some(t.source) <==> CommittedBefore(t, states, events, i)
    ensures states[i].slot.dest == None <==> !CommittedBefore(t, states, events, i)
  {
    ContentSafety(t, digest, states, events, i);
    if i > 0 {
      CommittedIff(t, digest, states, events, i - 1);
      CommitAtIff(t, digest, states, events, i - 1);
      if CommittedBefore(t, states, events, i - 1) {
        var j :| 0 <= j < i - 1 && Commits(t, states[j], events[j]);
        assert 0 <= j < i;
      }
    }
  }

  lemma CommitAtIff(t: Transfer, digest: Bytes -> string, states: seq<State>, events: seq<Event>, i: nat)
    requires WellFormed(t, digest) && Run(t, digest, states, events) && i < |events|
    ensures states[i + 1].slot.dest.Some? <==> states[i].slot.dest.Some? || Commits(t, states[i], events[i])
  {
    Always(t, digest, states, events, i);
    assert StepAt(t, digest, states, events, i);
    CommitStepIff(t, digest, states[i], events[i]);
  }

  // How often

  /** For a file with chunks: every ok FIN ends one epoch, an open context is one more, a commit needs every chunk. */
  ghost predicate CommitInv(t: Transfer, s: State) {
    && Count(s.back, FIN_OK) + (if s.slot.ctx.Some? then 1 else 0) <= s.epochs
    && (s.slot.dest.Some? ==> s.best == t.total)
    && (s.epochs > 0 ==> s.slot.ctx.Some? || s.slot.dest.Some?)
  }

  lemma CountReply(log: seq<Message>, replies: seq<Message>)
    requires |replies| <= 1
    ensures Count(log + replies, FIN_OK) == Count(log, FIN_OK) + if FIN_OK in replies then 1 else 0
  {
    CountAppend(log, replies, FIN_OK);
    if replies != [] {
      assert replies == [replies[0]];
      CountOne(replies[0], FIN_OK);
    }
  }

  lemma CommitInvMeta(t: Transfer, digest: Bytes -> string, s: State, k: nat)
    requires WellFormed(t, digest) && t.total >= 1 && Inv(t, s) && CommitInv(t, s) && Enabled(t, s, MetaArrives(k))
    ensures CommitInv(t, Do(t, digest, s, MetaArrives(k)))
  {
    MetaEffect(t, digest, s, k);
    CountReply(s.back, [Ack(0)]);
  }

  lemma CommitInvData(t: Transfer, digest: Bytes -> string, s: State, k: nat)
    requires WellFormed(t, digest) && t.total >= 1 && Inv(t, s) && CommitInv(t, s) && Enabled(t, s, DataArrives(k))
    ensures CommitInv(t, Do(t, digest, s, DataArrives(k)))
  {
    var s' := Do(t, digest, s, DataArrives(k));
    if Accepts(s.slot, s.out[k]) {
      SlotData(t, digest, s, k);
      SenderStep(t, digest, s, DataArrives(k));
      CountReply(s.back, OnData(s.slot, s.out[k]).replies);
      assert s'.best <= s'.snd.nextToSend <= t.total;
    }
  }

  lemma CommitInvClose(t: Transfer, digest: Bytes -> string, s: State)
    requires WellFormed(t, digest) && t.total >= 1 && Inv(t, s) && CommitInv(t, s) && Enabled(t, s, DataCloses)
    ensures CommitInv(t, Do(t, digest, s, DataCloses))
  {
    CloseEffect(t, digest, s);
    CountReply(s.back, OnClose(s.slot, digest).replies);
    if Full(s.slot.ctx.value) {
      FullIffNothingMissing(s.slot.ctx.value);
    }
  }

  lemma CommitInvStep(t: Transfer, digest: Bytes -> string, s: State, e: Event)
    requires WellFormed(t, digest) && t.total >= 1 && Inv(t, s) && CommitInv(t, s) && Enabled(t, s, e)
    ensures CommitInv(t, Do(t, digest, s, e))
  {
    if e.MetaArrives? {
      CommitInvMeta(t, digest, s, e.k);
    } else if e.DataArrives? {
      CommitInvData(t, digest, s, e.k);
    } else if e.DataCloses? {
      CommitInvClose(t, digest, s);
    }
  }

  lemma {:induction false} CommitInvAlways(
      t: Transfer, digest: Bytes -> string, states: seq<State>, events: seq<Event>, i: nat)
    requires WellFormed(t, digest) && t.total >= 1 && Run(t, digest, states, events) && i < |states|
    ensures CommitInv(t, states[i])
  {
    if i > 0 {
      CommitInvAlways(t, digest, states, events, i - 1);
      Always(t, digest, states, events, i - 1);
      assert StepAt(t, digest, states, events, i - 1);
      CommitInvStep(t, digest, states[i - 1], events[i - 1]);
    }
  }

  /** The receiver reports success at most once for each context it opened, and not for the one still open. */
  lemma OneCommitPerContext(t: Transfer, digest: Bytes -> string, states: seq<State>, events: seq<Event>, i: nat)
    requires WellFormed(t, digest) && t.total >= 1 && Run(t, digest, states, events) && i < |states|
    ensures Count(states[i].back, FIN_OK) + (if states[i].slot.ctx.Some? then 1 else 0) <= states[i].epochs
  {
    CommitInvAlways(t, digest, states, events, i);
  }

  /**
   * An open context always has its cursor at the least missing chunk and holds only chunks of the file. Between two
   * frames it lacks at least one, so a context is finished as soon as it is full, and is gone with that.
   */
  lemma OpenContext(t: Transfer, digest: Bytes -> string, states: seq<State>, events: seq<Event>, i: nat)
    requires WellFormed(t, digest) && Run(t, digest, states, events) && i < |states|
    requires states[i].slot.ctx.Some?
    ensures var ctx := states[i].slot.ctx.value;
            && LeastMissing(ctx.received, ctx.nextNeeded)
            && ctx.received <= Range(0, t.total)
            && (states[i].dataPc.DataIdle? ==> ctx.nextNeeded < t.total && ctx.received != Range(0, t.total))
  {
    Always(t, digest, states, events, i);
    FullIffNothingMissing(states[i].slot.ctx.value);
  }

  /** A context ends exactly when a close finds every chunk in it. */
  lemma ContextEndsIff(t: Transfer, digest: Bytes -> string, states: seq<State>, events: seq<Event>, i: nat)
    requires WellFormed(t, digest) && Run(t, digest, states, events) && i < |events|
    requires states[i].slot.ctx.Some?
    ensures states[i + 1].slot.ctx.None?
            <==> events[i].DataCloses? && states[i].slot.ctx.value.received == Range(0, t.total)
  {
    Always(t, digest, states, events, i);
    assert StepAt(t, digest, states, events, i);
    FullIffNothingMissing(states[i].slot.ctx.value);
    if events[i].MetaArrives? {
      MetaEffect(t, digest, states[i], events[i].k);
    } else if events[i].DataCloses? {
      CloseEffect(t, digest, states[i]);
    }
  }

  // What the sender may conclude

  lemma {:induction false} CommitReported(
      t: Transfer, digest: Bytes -> string, states: seq<State>, events: seq<Event>, i: nat)
    requires WellFormed(t, digest) && Run(t, digest, states, events) && i < |states|
    ensures states[i].slot.dest.Some? ==> FIN_OK in states[i].back
  {
    if i > 0 {
      CommitReported(t, digest, states, events, i - 1);
      Always(t, digest, states, events, i - 1);
      assert StepAt(t, digest, states, events, i - 1);
      ReportStep(t, digest, states[i - 1], events[i - 1]);
    }
  }

  lemma ReportStep(t: Transfer, digest: Bytes -> string, s: State, e: Event)
    requires WellFormed(t, digest) && Inv(t, s) && Enabled(t, s, e)
    requires s.slot.dest.Some? ==> FIN_OK in s.back
    ensures Do(t, digest, s, e).slot.dest.Some? ==> FIN_OK in Do(t, digest, s, e).back
  {
    LogsGrow(t, digest, s, e);
    if e.MetaArrives? {
      MetaEffect(t, digest, s, e.k);
    } else if e.DataCloses? {
      CloseEffect(t, digest, s);
    }
  }

  /** What the sender can go by: the file is committed exactly when the receiver has queued its ok FIN. */
  lemma CommittedIffReported(
      t: Transfer, digest: Bytes -> string, states: seq<State>, events: seq<Event>, i: nat)
    requires WellFormed(t, digest) && Run(t, digest, states, events) && i < |states|
    ensures states[i].slot.dest == Some(t.source) <==> FIN_OK in states[i].back
  {
    ContentSafety(t, digest, states, events, i);
    CommitReported(t, digest, states, events, i);
  }

  /** A sender that has declared the file complete can rely on this. */
  ghost predicate Reliable(s: State) {
    FIN_OK in s.out ==> s.snd.metaAcked && s.epochs > 0 && (s.dataPc.DataIdle? ==> s.slot.dest.Some?)
  }

  /** A file without chunks is declared complete by the first visit of the pump, before META has even been queued. */
  lemma CompleteUnannounced(t: Transfer, digest: Bytes -> string) returns (r: Trace, s: State)
    requires WellFormed(t, digest) && t.total == 0
    ensures r.Of(t, digest, s)
    ensures Fin("ok", "") in s.out && s.snd.finished
    ensures !s.snd.metaAcked && s.slot == Slot(None, None, None) && s.back == [] && !HasMeta(s.out, |s.out|)
  {
    r := Start(t, digest);
    s := INITIAL;
    r := Extend(t, digest, r, s, Register);
    s := Do(t, digest, s, Register);
    r := Extend(t, digest, r, s, PumpVisit);
    s := Do(t, digest, s, PumpVisit);
    r := Extend(t, digest, r, s, PumpTest);
    s := Do(t, digest, s, PumpTest);
    r := Extend(t, digest, r, s, PumpClose);
    s := Do(t, digest, s, PumpClose);
  }

  /** Completion means something in every run exactly when the file has at least one chunk. */
  lemma ReliableIffChunks(t: Transfer, digest: Bytes -> string)
    requires WellFormed(t, digest)
    ensures (forall r: Trace, s: State :: r.Of(t, digest, s) ==> Reliable(s)) <==> t.total >= 1
  {
    if t.total == 0 {
      var r, s := CompleteUnannounced(t, digest);
      assert r.Of(t, digest, s) && !Reliable(s);
    } else {
      forall r: Trace, s: State | r.Of(t, digest, s)
        ensures Reliable(s)
      {
        if FIN_OK in s.out {
          var _ := CompletionSound(t, digest, r.states, r.events, |r.states| - 1);
          TraceInv(t, digest, r, s);
        }
      }
    }
  }
}
