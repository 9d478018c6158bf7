/** What holds in every run of the file-transfer protocol. */
module ProtocolTheorems {
  import opened Bytes
  import opened Wrappers
  import opened Ranges
  import opened Messages
  import opened Reassembly
  import opened SendWindow
  import opened ReceiveSlot
  import opened Protocol

  /** Every state of every run satisfies the invariant. */
  lemma {:induction false} Always(t: Transfer, digest: Bytes -> string, states: seq<State>, events: seq<Event>, i: nat)
    requires WellFormed(t, digest) && Run(t, digest, states, events) && i < |states|
    ensures Inv(t, states[i])
  {
    if i == 0 {
      InitialInv(t);
    } else {
      Always(t, digest, states, events, i - 1);
      assert StepAt(t, digest, states, events, i - 1);
      Step(t, digest, states[i - 1], events[i - 1]);
    }
  }

  // Safety of the content

  /** Whatever is lost, repeated, reordered or restarted, a committed file is the source, and no hash mismatches. */
  lemma ContentSafety(t: Transfer, digest: Bytes -> string, states: seq<State>, events: seq<Event>, i: nat)
    requires WellFormed(t, digest) && Run(t, digest, states, events) && i < |states|
    ensures states[i].slot.dest.Some? ==> states[i].slot.dest.value == t.source
    ensures FIN_OK in states[i].back ==> states[i].slot.dest == Some(t.source)
    ensures forall m :: m in states[i].back ==> m.Ack? || m == FIN_OK
  {
    Always(t, digest, states, events, i);
  }

  lemma DestinationStays(t: Transfer, digest: Bytes -> string, states: seq<State>, events: seq<Event>, i: nat, j: nat)
    requires WellFormed(t, digest) && Run(t, digest, states, events) && i <= j < |states|
    requires states[i].slot.dest.Some?
    ensures states[j].slot.dest == Some(t.source)
  {
    Always(t, digest, states, events, j);
    NothingTakenBack(t, digest, states, events, i, j);
  }

  /** What no event ever takes back. */
  ghost predicate Grown(s: State, s': State) {
    && (s.snd.metaAcked ==> s'.snd.metaAcked)
    && (s.snd.finished ==> s'.snd.finished)
    && s.snd.lastAcked <= s'.snd.lastAcked
    && s.snd.nextToSend <= s'.snd.nextToSend
    && s.out <= s'.out && s.back <= s'.back
    && (s.slot.dest.Some? ==> s'.slot.dest.Some?)
  }

  lemma LogsGrow(t: Transfer, digest: Bytes -> string, s: State, e: Event)
    requires Enabled(t, s, e)
    ensures s.out <= Do(t, digest, s, e).out && s.back <= Do(t, digest, s, e).back
  {
  }

  lemma SenderGrows(t: Transfer, digest: Bytes -> string, s: State, e: Event)
    requires Inv(t, s) && Enabled(t, s, e)
    ensures var s' := Do(t, digest, s, e).snd;
            && (s.snd.metaAcked ==> s'.metaAcked) && (s.snd.finished ==> s'.finished)
            && s.snd.lastAcked <= s'.lastAcked && s.snd.nextToSend <= s'.nextToSend
  {
    if e.PumpService? {
      ServiceKeepsShape(t, s.snd, e.now, e.clock);
    }
  }

  lemma StepGrows(t: Transfer, digest: Bytes -> string, s: State, e: Event)
    requires WellFormed(t, digest) && Inv(t, s) && Enabled(t, s, e)
    ensures var s' := Do(t, digest, s, e);
            && Grown(s, s')
            && (s'.best == s.best || (s'.slot.ctx.Some? && s'.slot.ctx.value.nextNeeded == s'.best))
            && (s'.epochs == s.epochs || s'.slot.ctx.Some?)
  {
    LogsGrow(t, digest, s, e);
    SenderGrows(t, digest, s, e);
  }

  lemma RunGrows(t: Transfer, digest: Bytes -> string, states: seq<State>, events: seq<Event>, i: nat)
    requires WellFormed(t, digest) && Run(t, digest, states, events) && i < |events|
    ensures Grown(states[i], states[i + 1])
    ensures states[i + 1].best == states[i].best
            || (states[i + 1].slot.ctx.Some? && states[i + 1].slot.ctx.value.nextNeeded == states[i + 1].best)
    ensures states[i + 1].epochs == states[i].epochs || states[i + 1].slot.ctx.Some?
  {
    Always(t, digest, states, events, i);
    assert StepAt(t, digest, states, events, i);
    StepGrows(t, digest, states[i], events[i]);
  }

  lemma GrownTransitive(a: State, b: State, c: State)
    requires Grown(a, b) && Grown(b, c)
    ensures Grown(a, c)
  {
  }

  // Completion

  /** `best` was reached: some receiver context really held every chunk below it. */
  lemma {:induction false} BestWasHeld(
      t: Transfer, digest: Bytes -> string, states: seq<State>, events: seq<Event>, i: nat)
    returns (j: nat)
    requires WellFormed(t, digest) && Run(t, digest, states, events) && i < |states|
    requires states[i].best > 0
    ensures j <= i && states[j].slot.ctx.Some?
    ensures Range(0, states[i].best) <= states[j].slot.ctx.value.received
  {
    Always(t, digest, states, events, i);
    RunGrows(t, digest, states, events, i - 1);
    if states[i].best == states[i - 1].best {
      j := BestWasHeld(t, digest, states, events, i - 1);
    } else {
      j := i;
    }
  }

  /**
   * When the pump declares a transfer complete, some receiver context had received every chunk, and the file is
   * committed, except that the receiver's dispatcher may still be between its last ACK and the commit it is about to
   * make.
   */
  lemma CompletionSound(t: Transfer, digest: Bytes -> string, states: seq<State>, events: seq<Event>, i: nat)
    returns (j: nat)
    requires WellFormed(t, digest) && Run(t, digest, states, events) && i < |states|
    requires FIN_OK in states[i].out && t.total >= 1
    ensures j <= i && states[j].slot.ctx.Some? && states[j].slot.ctx.value.received == Range(0, t.total)
    ensures states[i].slot.dest == Some(t.source)
            || (&& Enabled(t, states[i], DataCloses)
                && Full(states[i].slot.ctx.value)
                && Do(t, digest, states[i], DataCloses).slot.dest == Some(t.source))
    ensures states[i].dataPc.DataIdle? ==> states[i].slot.dest == Some(t.source)
    ensures states[i].snd.metaAcked
  {
    Always(t, digest, states, events, i);
    CompletionState(t, digest, states[i]);
    j := BestWasHeld(t, digest, states, events, i);
    Always(t, digest, states, events, j);
  }

  lemma CompletionState(t: Transfer, digest: Bytes -> string, s: State)
    requires WellFormed(t, digest) && Inv(t, s) && FIN_OK in s.out && t.total >= 1
    ensures s.best == t.total && s.snd.metaAcked
    ensures s.slot.dest == Some(t.source)
            || (&& Enabled(t, s, DataCloses)
                && Full(s.slot.ctx.value)
                && Do(t, digest, s, DataCloses).slot.dest == Some(t.source))
    ensures s.dataPc.DataIdle? ==> s.slot.dest == Some(t.source)
  {
    if s.slot.dest.None? {
      FullIffNothingMissing(s.slot.ctx.value);
      CloseEffect(t, digest, s);
    }
  }

  // Flags

  lemma {:induction false} ChainGrows(states: seq<State>, i: nat, j: nat)
    requires i <= j < |states| && forall k :: 0 < k < |states| ==> Grown(states[k - 1], states[k])
    ensures Grown(states[i], states[j])
  {
    if i < j {
      ChainGrows(states, i, j - 1);
      GrownTransitive(states[i], states[j - 1], states[j]);
    }
  }

  /** `meta_acked` and `finished` never go back, the window only moves forward, and a committed file stays. */
  lemma NothingTakenBack(t: Transfer, digest: Bytes -> string, states: seq<State>, events: seq<Event>, i: nat, j: nat)
    requires WellFormed(t, digest) && Run(t, digest, states, events) && i <= j < |states|
    ensures Grown(states[i], states[j])
  {
    forall k | 0 < k < |states|
      ensures Grown(states[k - 1], states[k])
    {
      RunGrows(t, digest, states, events, k - 1);
    }
    ChainGrows(states, i, j);
  }

  // The window

  lemma WindowShape(t: Transfer, digest: Bytes -> string, states: seq<State>, events: seq<Event>, i: nat)
    requires WellFormed(t, digest) && Run(t, digest, states, events) && i < |states|
    ensures var s := states[i].snd;
            && s.lastAcked >= -1
            && Keys(s.inflight) == Range(s.lastAcked + 1, s.nextToSend)
            && Keys(s.inflight) !! s.acked
            && Keys(s.inflight) + s.acked == Range(0, s.nextToSend)
            && |s.inflight| == |Keys(s.inflight)| <= 16
            && s.nextToSend <= t.total
  {
    Always(t, digest, states, events, i);
    ShapePartitions(t, states[i].snd);
  }

  // Traffic

  lemma BoundedTraffic(t: Transfer, digest: Bytes -> string, states: seq<State>, events: seq<Event>, i: nat)
    requires WellFormed(t, digest) && Run(t, digest, states, events) && i < |states|
    ensures forall c: nat :: Count(states[i].out, t.Data(c)) <= 11
    ensures CountData(states[i].out) <= 11 * t.total
    ensures PumpFins(states[i].out) <= 1
  {
    Always(t, digest, states, events, i);
    MeasureNonNegative(t, states[i].snd);
  }

  /** Once finished, and the pump out of its locked region, no more DATA is ever queued. */
  lemma {:induction false} SilentAfterFinish(
      t: Transfer, digest: Bytes -> string, states: seq<State>, events: seq<Event>, i: nat, j: nat)
    requires WellFormed(t, digest) && Run(t, digest, states, events) && i <= j < |states|
    requires states[i].snd.finished && !states[i].pumpPc.PumpEntering?
    ensures states[j].snd.finished && !states[j].pumpPc.PumpEntering?
    ensures CountData(states[j].out) == CountData(states[i].out)
  {
    if i < j {
      SilentAfterFinish(t, digest, states, events, i, j - 1);
      assert StepAt(t, digest, states, events, j - 1);
      SilentStep(t, digest, states[j - 1], events[j - 1]);
    }
  }

  lemma SilentStep(t: Transfer, digest: Bytes -> string, s: State, e: Event)
    requires Enabled(t, s, e) && s.snd.finished && !s.pumpPc.PumpEntering?
    ensures var s' := Do(t, digest, s, e);
            s'.snd.finished && !s'.pumpPc.PumpEntering? && CountData(s'.out) == CountData(s.out)
  {
    QueueOther(t, s.out, t.Meta());
    QueueOther(t, s.out, FIN_OK);
    QueueOther(t, s.out, FIN_META_TIMEOUT);
  }

  lemma OnlyServiceQueuesData(t: Transfer, digest: Bytes -> string, s: State, e: Event, k: nat)
    requires Enabled(t, s, e)
    requires var s' := Do(t, digest, s, e); |s.out| <= k < |s'.out| && s'.out[k].Data?
    ensures e.PumpService?
  {
  }

  // Handshake

  /** A DATA message is preceded in the log by a META, and a receiver context existed before it was queued. */
  lemma HandshakeFirst(t: Transfer, digest: Bytes -> string, states: seq<State>, events: seq<Event>, i: nat, k: nat)
    returns (j: nat)
    requires WellFormed(t, digest) && Run(t, digest, states, events) && i < |states|
    requires k < |states[i].out| && states[i].out[k].Data?
    ensures HasMeta(states[i].out, k)
    ensures j < i && states[j].slot.ctx.Some? && |states[j].out| <= k
  {
    Always(t, digest, states, events, i);
    var q := QueuedAt(t, digest, states, events, i, k);
    Always(t, digest, states, events, q);
    assert StepAt(t, digest, states, events, q);
    j := ContextExisted(t, digest, states, events, q);
    NothingTakenBack(t, digest, states, events, j, q);
  }

  /** The event that queued position k of the log. */
  lemma {:induction false} QueuedAt(
      t: Transfer, digest: Bytes -> string, states: seq<State>, events: seq<Event>, i: nat, k: nat)
    returns (q: nat)
    requires WellFormed(t, digest) && Run(t, digest, states, events) && i < |states|
    requires k < |states[i].out| && states[i].out[k].Data?
    ensures q < i && |states[q].out| <= k && events[q].PumpService?
  {
    RunGrows(t, digest, states, events, i - 1);
    if k < |states[i - 1].out| {
      q := QueuedAt(t, digest, states, events, i - 1, k);
    } else {
      assert StepAt(t, digest, states, events, i - 1);
      OnlyServiceQueuesData(t, digest, states[i - 1], events[i - 1], k);
      q := i - 1;
    }
  }

  lemma {:induction false} ContextExisted(
      t: Transfer, digest: Bytes -> string, states: seq<State>, events: seq<Event>, i: nat)
    returns (j: nat)
    requires WellFormed(t, digest) && Run(t, digest, states, events) && i < |states|
    requires states[i].epochs > 0
    ensures j <= i && states[j].slot.ctx.Some?
  {
    if states[i].slot.ctx.Some? {
      j := i;
    } else {
      RunGrows(t, digest, states, events, i - 1);
      j := ContextExisted(t, digest, states, events, i - 1);
    }
  }

  // Progress

  /** A locked region of the pump that finds an unfinished transfer with every in-flight entry expired. */
  ghost predicate Patient(s: State, e: Event) {
    e.PumpService? && !s.snd.finished && AllExpired(s.snd.inflight, e.now)
  }

  /** The transfer is over, or the pump is about to end it. */
  predicate Ending(t: Transfer, s: State) {
    s.snd.finished || s.pumpPc.PumpClosing? || (s.pumpPc.PumpTesting? && Complete(t, s.snd))
  }

  function Potential(t: Transfer, s: State): int
    requires Shape(t, s.snd)
  {
    Turns(t, s.snd) + if Ending(t, s) then 0 else 1
  }

  lemma PotentialStep(t: Transfer, digest: Bytes -> string, s: State, e: Event)
    requires WellFormed(t, digest) && Inv(t, s) && Enabled(t, s, e)
    ensures var s' := Do(t, digest, s, e);
            && Shape(t, s'.snd)
            && Potential(t, s') <= Potential(t, s)
            && (Patient(s, e) ==> Potential(t, s') < Potential(t, s))
  {
    if e.PumpService? {
      PotentialService(t, digest, s, e.now, e.clock);
    } else {
      EndingStays(t, digest, s, e);
      TurnsElsewhere(t, digest, s, e);
    }
  }

  lemma EndingStays(t: Transfer, digest: Bytes -> string, s: State, e: Event)
    requires Enabled(t, s, e) && !e.PumpService?
    ensures Ending(t, s) ==> Ending(t, Do(t, digest, s, e))
  {
  }

  lemma TurnsElsewhere(t: Transfer, digest: Bytes -> string, s: State, e: Event)
    requires Inv(t, s) && Enabled(t, s, e) && !e.PumpService?
    ensures var s' := Do(t, digest, s, e).snd; Shape(t, s') && Turns(t, s') <= Turns(t, s.snd)
  {
    if e.AckApplies? {
      AcknowledgeTurns(t, s.snd, s.ackPc.nextNeeded);
    } else {
      QueuesNoData(t, digest, s, e);
      SameTurns(t, s.snd, Do(t, digest, s, e).snd);
    }
  }

  lemma SameTurns(t: Transfer, s: SendState, s': SendState)
    requires Shape(t, s) && s' == s.(finished := s'.finished)
    ensures Shape(t, s') && Turns(t, s') == Turns(t, s)
  {
    if s.lastAcked + 1 < t.total {
      var i := Pivot(t.total, s.lastAcked);
      assert Sends(s', i) == Sends(s, i);
    }
  }

  lemma PotentialService(t: Transfer, digest: Bytes -> string, s: State, now: real, clock: nat -> real)
    requires Inv(t, s) && s.pumpPc.PumpEntering?
    ensures var s' := Do(t, digest, s, PumpService(now, clock));
            && Shape(t, s'.snd)
            && Potential(t, s') <= Potential(t, s)
            && (Patient(s, PumpService(now, clock)) ==> Potential(t, s') < Potential(t, s))
  {
    ServiceTurns(t, s.snd, now, clock);
    ServiceKeepsShape(t, s.snd, now, clock);
  }

  lemma PotentialAt(t: Transfer, digest: Bytes -> string, states: seq<State>, events: seq<Event>, i: nat)
    requires WellFormed(t, digest) && Run(t, digest, states, events) && i < |events|
    ensures Shape(t, states[i].snd) && Shape(t, states[i + 1].snd)
    ensures Potential(t, states[i + 1]) + (if Patient(states[i], events[i]) then 1 else 0) <= Potential(t, states[i])
  {
    Always(t, digest, states, events, i);
    assert StepAt(t, digest, states, events, i);
    PotentialStep(t, digest, states[i], events[i]);
  }

  /** How many patient regions the first n events contain. */
  ghost function PatientCount(states: seq<State>, events: seq<Event>, n: nat): nat
    requires |states| == |events| + 1 && n <= |events|
  {
    if n == 0 then 0 else PatientCount(states, events, n - 1) + if Patient(states[n - 1], events[n - 1]) then 1 else 0
  }

  lemma {:induction false} PotentialBound(
      t: Transfer, digest: Bytes -> string, states: seq<State>, events: seq<Event>, a: nat, b: nat)
    requires WellFormed(t, digest) && Run(t, digest, states, events) && a <= b <= |events|
    ensures Shape(t, states[a].snd) && Shape(t, states[b].snd)
    ensures PatientCount(states, events, b) + Potential(t, states[b])
            <= PatientCount(states, events, a) + Potential(t, states[a])
  {
    if a < b {
      PotentialBound(t, digest, states, events, a, b - 1);
      PotentialAt(t, digest, states, events, b - 1);
    } else {
      Always(t, digest, states, events, a);
    }
  }

  /** From any point of any run, a transfer outlives at most as many patient regions as its window has turns left. */
  lemma TerminatesFrom(
      t: Transfer, digest: Bytes -> string, states: seq<State>, events: seq<Event>, a: nat, b: nat)
    requires WellFormed(t, digest) && Run(t, digest, states, events) && a <= b <= |events|
    ensures Shape(t, states[a].snd)
    ensures PatientCount(states, events, b) - PatientCount(states, events, a) <= Turns(t, states[a].snd) + 1
    ensures PatientCount(states, events, b) - PatientCount(states, events, a) > Turns(t, states[a].snd)
            ==> Ending(t, states[b])
  {
    PotentialBound(t, digest, states, events, a, b);
    TurnsNonNegative(t, states[b].snd);
  }

  /** Sixteen chunks at a time, each time with its retries, and one region to give up. */
  function Limit(total: nat): nat {
    if total == 0 then 0 else (MAX_RETRIES + 1) * ChunkCount(total, WINDOW_SIZE) + 1
  }

  /** No run has more patient regions than the limit, and with the last of them the transfer ends. */
  lemma Terminates(t: Transfer, digest: Bytes -> string, states: seq<State>, events: seq<Event>, n: nat)
    requires WellFormed(t, digest) && Run(t, digest, states, events) && n <= |events|
    ensures PatientCount(states, events, n) <= Limit(t.total)
    ensures t.total >= 1 && PatientCount(states, events, n) == Limit(t.total) ==> Ending(t, states[n])
  {
    if t.total == 0 {
      NeverEntered(t, digest, states, events, n);
    } else {
      TerminatesFrom(t, digest, states, events, 0, n);
      FreshTurns(t);
    }
  }

  lemma FreshTurns(t: Transfer)
    requires t.total >= 1
    ensures Shape(t, FRESH) && Turns(t, FRESH) + 1 == Limit(t.total)
  {
    assert (t.total + WINDOW_SIZE - 1) / WINDOW_SIZE == (t.total - 1) / WINDOW_SIZE + 1;
  }

  /** The locked region is never entered for a file without chunks: its META is not acknowledged. */
  lemma {:induction false} NeverEntered(
      t: Transfer, digest: Bytes -> string, states: seq<State>, events: seq<Event>, n: nat)
    requires WellFormed(t, digest) && Run(t, digest, states, events) && n <= |events| && t.total == 0
    ensures PatientCount(states, events, n) == 0
  {
    if n > 0 {
      NeverEntered(t, digest, states, events, n - 1);
      Always(t, digest, states, events, n - 1);
      assert StepAt(t, digest, states, events, n - 1);
      if events[n - 1].PumpService? {
        var j := ContextExisted(t, digest, states, events, n - 1);
        Always(t, digest, states, events, j);
      }
    }
  }

  /** One undisturbed pass of the pump over a registered context. */
  function PumpPass(t: Transfer, digest: Bytes -> string, s: State, now: real, clock: nat -> real): State
    requires s.registered && s.pumpPc.PumpIdle?
  {
    var s1 := Do(t, digest, s, PumpVisit);
    if s1.pumpPc.PumpIdle? then s1
    else
      var s2 := if s1.pumpPc.PumpEntering? then Do(t, digest, s1, PumpService(now, clock)) else s1;
      var s3 := Do(t, digest, s2, PumpTest);
      if s3.pumpPc.PumpClosing? then Do(t, digest, s3, PumpClose) else s3
  }

  /**
   * Over an announced, unfinished transfer such a pass is never in vain once every in-flight entry has expired, so no
   * unfinished state is stuck.
   */
  lemma PassProgress(t: Transfer, digest: Bytes -> string, s: State, now: real, clock: nat -> real)
    requires WellFormed(t, digest) && Inv(t, s)
    requires s.registered && s.pumpPc.PumpIdle? && s.snd.metaAcked && !s.snd.finished
    ensures var s' := PumpPass(t, digest, s, now, clock);
            && Inv(t, s') && s'.pumpPc.PumpIdle?
            && (AllExpired(s.snd.inflight, now) ==> s'.snd.finished || 0 <= Measure(t, s'.snd) < Measure(t, s.snd))
  {
    var s1 := Do(t, digest, s, PumpVisit);
    Step(t, digest, s, PumpVisit);
    var s2 := Do(t, digest, s1, PumpService(now, clock));
    Step(t, digest, s1, PumpService(now, clock));
    ServiceProgress(t, s.snd, now, clock);
    var s3 := Do(t, digest, s2, PumpTest);
    Step(t, digest, s2, PumpTest);
    if s3.pumpPc.PumpClosing? {
      Step(t, digest, s3, PumpClose);
    }
  }
}
