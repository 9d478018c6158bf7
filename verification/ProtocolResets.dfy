/**
 * A late META empties the temporary file and the receiver's context, while the sender never sends an acknowledged
 * chunk again. So the receiver's progress is monotone only between two METAs, and a reset can end the transfer.
 */
module ProtocolResets {
  import opened Bytes
  import opened Ranges
  import opened Messages
  import opened SendWindow
  import opened ReceiveSlot
  import opened Protocol
  import opened ProtocolTheorems
  import opened ProtocolCommits

  /** A DATA message queued by the locked region is never for an acknowledged chunk. */
  lemma ServiceQueuesAbove(t: Transfer, s: SendState, now: real, clock: nat -> real)
    requires Shape(t, s)
    ensures forall m :: m in Service(t, s, now, clock).posts && m.Data? ==> m.idx > s.lastAcked
  {
    var e := Service(t, s, now, clock);
    forall m | m in e.posts && m.Data?
      ensures m.idx > s.lastAcked
    {
      ServiceKeepsShape(t, s, now, clock);
      var i: nat :| m == t.Data(i);
      ServiceCount(t, s, now, clock, i);
      CountAbsent(e.posts, m);
    }
  }

  ghost predicate DataAbove(log: seq<Message>, from: nat, c: int) {
    forall k :: from <= k < |log| && log[k].Data? ==> log[k].idx > c
  }

  /** The receiver is in an epoch that lacks chunk c. */
  ghost predicate Lacks(s: State, c: nat) {
    s.slot.ctx.Some? && c !in s.slot.ctx.value.received
  }

  /** The event hands the receiver a copy of chunk c. */
  ghost predicate Hands(s: State, e: Event, c: nat) {
    e.DataArrives? && e.k < |s.out| && s.out[e.k].Data? && s.out[e.k].idx == c
  }

  /** Nothing but a copy of the chunk ends the lack of it: no META, no other chunk, and no close. */
  lemma LackStep(t: Transfer, digest: Bytes -> string, s: State, e: Event, c: nat)
    requires WellFormed(t, digest) && Inv(t, s) && Enabled(t, s, e)
    requires Lacks(s, c) && c <= s.snd.lastAcked
    ensures Lacks(Do(t, digest, s, e), c) <==> !Hands(s, e, c)
    ensures !Hands(s, e, c) ==> Do(t, digest, s, e).slot.dest == s.slot.dest
  {
    if e.MetaArrives? {
      MetaEffect(t, digest, s, e.k);
    } else if e.DataArrives? {
      LackData(t, digest, s, e.k, c);
    } else if e.DataCloses? {
      CloseEffect(t, digest, s);
      FullIffNothingMissing(s.slot.ctx.value);
      assert c in Range(0, t.total);
    }
  }

  lemma ReceiveAdds(ctx: RecvState, idx: nat)
    ensures Receive(ctx, idx).received == ctx.received + {idx}
  {
  }

  lemma LackData(t: Transfer, digest: Bytes -> string, s: State, k: nat, c: nat)
    requires SenderInv(t, s) && SlotInv(t, s) && Enabled(t, s, DataArrives(k)) && Lacks(s, c)
    ensures var s' := Do(t, digest, s, DataArrives(k));
            && (Lacks(s', c) <==> !Hands(s, DataArrives(k), c))
            && s'.slot.dest == s.slot.dest
  {
    var m := s.out[k];
    assert m in s.out;
    var i: nat :| i < s.snd.nextToSend && m == t.Data(i);
    assert Accepts(s.slot, m);
    ReceiveAdds(s.slot.ctx.value, i);
    assert Do(t, digest, s, DataArrives(k)).slot == OnData(s.slot, m).slot;
  }

  /** From event a on, no event before b hands over a copy of chunk c. */
  ghost predicate Withheld(states: seq<State>, events: seq<Event>, a: nat, b: nat, c: nat)
    requires |states| == |events| + 1 && b <= |events|
  {
    forall j :: a <= j < b ==> !Hands(states[j], events[j], c)
  }

  lemma LackAt(t: Transfer, digest: Bytes -> string, states: seq<State>, events: seq<Event>, i: nat, c: nat)
    requires WellFormed(t, digest) && Run(t, digest, states, events) && i < |events|
    requires Lacks(states[i], c) && c <= states[i].snd.lastAcked
    ensures Lacks(states[i + 1], c) <==> !Hands(states[i], events[i], c)
    ensures !Hands(states[i], events[i], c) ==> states[i + 1].slot.dest == states[i].slot.dest
  {
    Always(t, digest, states, events, i);
    assert StepAt(t, digest, states, events, i);
    LackStep(t, digest, states[i], events[i], c);
  }

  lemma {:induction false} StillLacks(
      t: Transfer, digest: Bytes -> string, states: seq<State>, events: seq<Event>, a: nat, b: nat, c: nat)
    requires WellFormed(t, digest) && Run(t, digest, states, events) && a <= b < |states|
    requires Lacks(states[a], c) && c <= states[a].snd.lastAcked && Withheld(states, events, a, b, c)
    ensures Lacks(states[b], c) && states[b].slot.dest == states[a].slot.dest
  {
    if a < b {
      StillLacks(t, digest, states, events, a, b - 1, c);
      NothingTakenBack(t, digest, states, events, a, b - 1);
      LackAt(t, digest, states, events, b - 1, c);
    }
  }

  /**
   * If the receiver's epoch lacks a chunk the sender has seen acknowledged, the chunk stays missing exactly as long as
   * no copy of it arrives, whatever METAs and other chunks do.
   */
  lemma ResetStarvesIff(
      t: Transfer, digest: Bytes -> string, states: seq<State>, events: seq<Event>, a: nat, b: nat, c: nat)
    requires WellFormed(t, digest) && Run(t, digest, states, events) && a <= b < |states|
    requires Lacks(states[a], c) && c <= states[a].snd.lastAcked
    ensures (forall i :: a <= i <= b ==> Lacks(states[i], c)) <==> Withheld(states, events, a, b, c)
  {
    if Withheld(states, events, a, b, c) {
      forall i | a <= i <= b
        ensures Lacks(states[i], c)
      {
        StillLacks(t, digest, states, events, a, i, c);
      }
    } else {
      var j :| a <= j < b && Hands(states[j], events[j], c);
      NothingTakenBack(t, digest, states, events, a, j);
      if Lacks(states[j], c) {
        LackAt(t, digest, states, events, j, c);
        assert !Lacks(states[j + 1], c);
      }
    }
  }

  lemma QueuesAbove(t: Transfer, digest: Bytes -> string, s: State, e: Event, from: nat, c: nat)
    requires Inv(t, s) && Enabled(t, s, e)
    requires c <= s.snd.lastAcked && DataAbove(s.out, from, c)
    ensures DataAbove(Do(t, digest, s, e).out, from, c)
  {
    if e.PumpService? {
      ServiceQueuesAbove(t, s.snd, e.now, e.clock);
    }
  }

  /** Whatever is queued after chunk c has been acknowledged is not a copy of it. */
  lemma {:induction false} NoNewCopies(
      t: Transfer, digest: Bytes -> string, states: seq<State>, events: seq<Event>, a: nat, b: nat, c: nat)
    requires WellFormed(t, digest) && Run(t, digest, states, events) && a <= b < |states|
    requires c <= states[a].snd.lastAcked
    ensures DataAbove(states[b].out, |states[a].out|, c)
  {
    if a < b {
      NoNewCopies(t, digest, states, events, a, b - 1, c);
      NothingTakenBack(t, digest, states, events, a, b - 1);
      Always(t, digest, states, events, b - 1);
      assert StepAt(t, digest, states, events, b - 1);
      QueuesAbove(t, digest, states[b - 1], events[b - 1], |states[a].out|, c);
    }
  }

  /** So only a copy that was in the network already can bring the chunk back. */
  lemma OnlyOldCopies(
      t: Transfer, digest: Bytes -> string, states: seq<State>, events: seq<Event>, a: nat, j: nat, c: nat)
    requires WellFormed(t, digest) && Run(t, digest, states, events) && a <= j < |events|
    requires c <= states[a].snd.lastAcked && Hands(states[j], events[j], c)
    ensures events[j].k < |states[a].out| && states[a].out[events[j].k] == states[j].out[events[j].k]
  {
    NoNewCopies(t, digest, states, events, a, j, c);
    NothingTakenBack(t, digest, states, events, a, j);
  }

  // How such a transfer ends

  /** A transfer that has ended was complete, had reached its limit of retries or of time, or was committed. */
  ghost predicate EndInv(s: State) {
    && (s.sendPc.GivingUp? ==> FIN_META_TIMEOUT in s.out)
    && (s.pumpPc.PumpClosing? ==> FIN_OK in s.out)
    && (s.snd.finished ==>
          FIN_OK in s.out || FIN_TIMEOUT in s.out || FIN_META_TIMEOUT in s.out || s.slot.dest.Some?)
  }

  lemma ServiceEnds(t: Transfer, s: SendState, now: real, clock: nat -> real)
    requires Shape(t, s)
    ensures var e := Service(t, s, now, clock); e.state.finished ==> s.finished || FIN_TIMEOUT in e.posts
  {
    ResendCost(t, s.inflight, now, clock);
    CountAbsent(Resend(t, s.inflight, now, clock).posts, FIN_TIMEOUT);
    var r := RetransferExpired(t, s, now, clock);
    if !r.state.finished {
      ResendShape(t, s.inflight, s.lastAcked + 1, now, clock);
      RefillShape(t, r.state, clock);
    }
  }

  lemma EndInvStep(t: Transfer, digest: Bytes -> string, s: State, e: Event)
    requires WellFormed(t, digest) && Inv(t, s) && EndInv(s) && Enabled(t, s, e)
    ensures EndInv(Do(t, digest, s, e))
  {
    StepGrows(t, digest, s, e);
    if e.PumpService? {
      ServiceEnds(t, s.snd, e.now, e.clock);
    } else if e.FinArrives? {
      assert s.back[e.k] in s.back;
    }
  }

  lemma {:induction false} WhyEnded(
      t: Transfer, digest: Bytes -> string, states: seq<State>, events: seq<Event>, i: nat)
    requires WellFormed(t, digest) && Run(t, digest, states, events) && i < |states|
    ensures EndInv(states[i])
  {
    if i > 0 {
      WhyEnded(t, digest, states, events, i - 1);
      Always(t, digest, states, events, i - 1);
      assert StepAt(t, digest, states, events, i - 1);
      EndInvStep(t, digest, states[i - 1], events[i - 1]);
    }
  }

  ghost predicate Failed(s: State) {
    s.snd.finished && (FIN_TIMEOUT in s.out || FIN_META_TIMEOUT in s.out)
  }

  lemma NeverComplete(t: Transfer, s: State, c: nat)
    requires Inv(t, s) && Lacks(s, c) && c <= s.snd.lastAcked && s.slot.dest.None?
    ensures s.snd.lastAcked + 1 < t.total && FIN_OK !in s.out && !s.pumpPc.PumpClosing?
  {
    BelowMissing(s.slot.ctx.value.received, s.slot.ctx.value.nextNeeded, c);
  }

  /**
   * A file that had not been committed stays so while the chunk is withheld; the sender does not declare it complete,
   * it can only end in an error, and it has done so once as many patient regions have passed as the window had turns
   * left, and one more.
   */
  lemma ResetEndsInError(
      t: Transfer, digest: Bytes -> string, states: seq<State>, events: seq<Event>, a: nat, b: nat, c: nat)
    requires WellFormed(t, digest) && Run(t, digest, states, events) && a <= b < |states|
    requires Lacks(states[a], c) && c <= states[a].snd.lastAcked && states[a].slot.dest.None?
    requires Withheld(states, events, a, b, c)
    ensures states[b].slot.dest.None? && FIN_OK !in states[b].out
    ensures states[b].snd.finished ==> Failed(states[b])
    ensures Shape(t, states[a].snd)
    ensures PatientCount(states, events, b) - PatientCount(states, events, a) > Turns(t, states[a].snd)
            ==> Failed(states[b])
  {
    StillLacks(t, digest, states, events, a, b, c);
    NothingTakenBack(t, digest, states, events, a, b);
    Always(t, digest, states, events, b);
    NeverComplete(t, states[b], c);
    WhyEnded(t, digest, states, events, b);
    TerminatesFrom(t, digest, states, events, a, b);
  }
}
