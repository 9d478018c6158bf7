/**
 * One file transfer between two hosts as a transition system.
 *
 * Every message ever queued stays in a log and any logged message may arrive at any time, any number of times,
 * so frames are lost, duplicated and reordered at will, but not forged. Each region under `ctx.lock` is one event;
 * what happens between two regions of the same thread is split over several, and the threads interleave freely.
 */
module Protocol {
  import opened Bytes
  import opened Wrappers
  import opened Ranges
  import opened Messages
  import opened Reassembly
  import opened SendWindow
  import opened ReceiveSlot

  /** Where the thread inside `send_file` stands. */
  datatype SendPc = NotStarted | Registered | LoopTest | LoopBody | LoopTimer | GivingUp | Returned

  /** Where the pump stands in its visit of the context. */
  datatype PumpPc = PumpIdle | PumpEntering | PumpTesting | PumpClosing

  /** Where the sender's dispatcher stands in `_on_ack`. */
  datatype AckPc = AckIdle | AckChecked(nextNeeded: int)

  /** Where the receiver's dispatcher stands in `_on_data`. */
  datatype DataPc = DataIdle | DataClosing

  /**
   * `best` and `epochs` only record history: the largest `next_needed` any receiver context ever reached,
   * and how many receiver contexts have been created.
   */
  datatype State = State(
    snd: SendState,
    registered: bool,
    sendPc: SendPc,
    pumpPc: PumpPc,
    ackPc: AckPc,
    out: seq<Message>,
    slot: Slot,
    dataPc: DataPc,
    back: seq<Message>,
    best: nat,
    epochs: nat
  )

  const INITIAL := State(FRESH, false, NotStarted, PumpIdle, AckIdle, [], Slot(None, None, None), DataIdle, [], 0, 0)

  datatype Event =
    | Register                                   // add_ctx_by_id
    | SendMeta                                   // the first _send_meta
    | TestLoop                                   // while not ctx.meta_acked and not ctx.finished
    | MetaTimer(resend: bool)                    // 1.5 s without an answer?
    | StartTimer(expired: bool)                  // 30 s since the start?
    | GiveUp                                     // finished = True after meta_timeout
    | PumpVisit                                  // if ctx.finished / if ctx.meta_acked
    | PumpService(now: real, clock: nat -> real) // the locked region
    | PumpTest                                   // the completion test and the FIN
    | PumpClose                                  // finished = True
    | AckArrives(k: nat)
    | AckApplies                                 // the locked region
    | FinArrives(k: nat)
    | MetaArrives(k: nat)
    | DataArrives(k: nat)                        // the first locked region
    | DataCloses                                 // the second one

  ghost predicate Enabled(t: Transfer, s: State, e: Event) {
    match e
    case Register => s.sendPc.NotStarted?
    case SendMeta => s.sendPc.Registered?
    case TestLoop => s.sendPc.LoopTest?
    case MetaTimer(_) => s.sendPc.LoopBody?
    case StartTimer(_) => s.sendPc.LoopTimer?
    case GiveUp => s.sendPc.GivingUp?
    case PumpVisit => s.registered && s.pumpPc.PumpIdle?
    case PumpService(_, _) => s.pumpPc.PumpEntering?
    case PumpTest => s.pumpPc.PumpTesting?
    case PumpClose => s.pumpPc.PumpClosing?
    case AckArrives(k) => k < |s.back| && s.back[k].Ack? && s.ackPc.AckIdle?
    case AckApplies => s.ackPc.AckChecked?
    case FinArrives(k) => k < |s.back| && s.back[k].Fin? && s.ackPc.AckIdle?
    case MetaArrives(k) => k < |s.out| && s.out[k].Meta? && s.dataPc.DataIdle?
    case DataArrives(k) => k < |s.out| && s.out[k].Data? && s.dataPc.DataIdle?
    case DataCloses => s.dataPc.DataClosing? && s.slot.ctx.Some? && s.slot.temp.Some?
  }

  function Finish(s: State): State {
    s.(snd := s.snd.(finished := true))
  }

  function Queue(s: State, m: Message): State {
    s.(out := s.out + [m])
  }

  function Do(t: Transfer, digest: Bytes -> string, s: State, e: Event): State
    requires Enabled(t, s, e)
  {
    match e
    case Register => s.(registered := true, sendPc := Registered)
    case SendMeta => Queue(s.(sendPc := LoopTest), t.Meta())
    case TestLoop => s.(sendPc := if !s.snd.metaAcked && !s.snd.finished then LoopBody else Returned)
    case MetaTimer(resend) =>
      if resend then Queue(s.(sendPc := LoopTimer), t.Meta()) else s.(sendPc := LoopTimer)
    case StartTimer(expired) =>
      if expired then Queue(s.(sendPc := GivingUp), FIN_META_TIMEOUT) else s.(sendPc := LoopTest)
    case GiveUp => Finish(s.(sendPc := Returned))
    case PumpVisit =>
      if s.snd.finished then s.(registered := false)
      else s.(pumpPc := if s.snd.metaAcked then PumpEntering else PumpTesting)
    case PumpService(now, clock) =>
      var effect := Service(t, s.snd, now, clock);
      s.(snd := effect.state, pumpPc := PumpTesting, out := s.out + effect.posts)
    case PumpTest =>
      if Complete(t, s.snd) then Queue(s.(pumpPc := PumpClosing), FIN_OK) else s.(pumpPc := PumpIdle)
    case PumpClose => Finish(s.(pumpPc := PumpIdle))
    case AckArrives(k) =>
      if s.registered && !s.snd.finished then s.(ackPc := AckChecked(s.back[k].nextNeeded)) else s
    case AckApplies => s.(snd := Acknowledge(s.snd, s.ackPc.nextNeeded), ackPc := AckIdle)
    case FinArrives(k) => if s.registered then Finish(s) else s
    case MetaArrives(k) =>
      var o := OnMeta(s.slot, s.out[k], digest);
      s.(slot := o.slot, back := s.back + o.replies, epochs := s.epochs + if o.slot.ctx.Some? then 1 else 0)
    case DataArrives(k) =>
      if Accepts(s.slot, s.out[k]) then
        var o := OnData(s.slot, s.out[k]);
        s.(slot := o.slot, back := s.back + o.replies, dataPc := DataClosing,
           best := if o.slot.ctx.value.nextNeeded > s.best then o.slot.ctx.value.nextNeeded else s.best)
      else s
    case DataCloses =>
      var o := OnClose(s.slot, digest);
      s.(slot := o.slot, back := s.back + o.replies, dataPc := DataIdle)
  }

  // Runs

  ghost predicate Run(t: Transfer, digest: Bytes -> string, states: seq<State>, events: seq<Event>) {
    && |states| == |events| + 1
    && states[0] == INITIAL
    && forall i :: 0 <= i < |events| ==> StepAt(t, digest, states, events, i)
  }

  /** Event i leads from state i to state i + 1. */
  ghost predicate StepAt(t: Transfer, digest: Bytes -> string, states: seq<State>, events: seq<Event>, i: nat)
    requires |states| == |events| + 1 && i < |events|
  {
    Enabled(t, states[i], events[i]) && states[i + 1] == Do(t, digest, states[i], events[i])
  }

  ghost predicate WellFormed(t: Transfer, digest: Bytes -> string) {
    t.Valid() && t.sha256 == digest(t.source)
  }

  // The invariant, in parts

  ghost predicate FromSender(t: Transfer, sent: nat, m: Message) {
    m == t.Meta() || m.Fin? || exists i: nat :: i < sent && m == t.Data(i)
  }

  ghost predicate FromReceiver(t: Transfer, s: State, m: Message) {
    || (m.Ack? && 0 <= m.nextNeeded <= s.best && s.epochs > 0)
    || (m == FIN_OK && s.slot.dest.Some?)
  }

  /** The window, and what the sender has put in its log. */
  ghost predicate SenderInv(t: Transfer, s: State) {
    && Shape(t, s.snd)
    && (!s.snd.metaAcked ==> s.snd.nextToSend == 0)
    && (s.pumpPc.PumpEntering? ==> s.snd.metaAcked)
    && (s.pumpPc.PumpClosing? ==> s.snd.lastAcked + 1 >= t.total)
    && (forall m :: m in s.out ==> FromSender(t, s.snd.nextToSend, m))
    && (FIN_OK in s.out ==> s.snd.lastAcked + 1 >= t.total)
  }

  /** How often things were queued. */
  ghost predicate TrafficInv(t: Transfer, s: State) {
    && s.snd.lastAcked + 1 + |s.snd.inflight| == s.snd.nextToSend
    && (forall i: nat :: i > s.snd.lastAcked ==> Count(s.out, t.Data(i)) == Sends(s.snd, i))
    && (forall i: nat :: Count(s.out, t.Data(i)) <= 1 + MAX_RETRIES)
    && CountData(s.out) + Budget(t, s.snd) <= t.total * (1 + MAX_RETRIES)
  }

  /** FIN messages queued by the pump. */
  function PumpFins(log: seq<Message>): nat {
    Count(log, FIN_OK) + Count(log, FIN_TIMEOUT)
  }

  ghost predicate FinInv(s: State) {
    && PumpFins(s.out) <= 1
    && (PumpFins(s.out) == 1 ==> s.snd.finished || s.pumpPc.PumpClosing?)
    && (s.pumpPc.PumpEntering? ==> PumpFins(s.out) == 0)
  }

  /** The receiver's context belongs to this transfer and its temporary file holds what it received. */
  ghost predicate SlotInv(t: Transfer, s: State) {
    && (s.slot.ctx.Some? ==>
          var ctx := s.slot.ctx.value;
          && ctx.chunkSize == t.chunkSize > 0 && ctx.total == t.total && ctx.sha256 == t.sha256
          && Consistent(ctx)
          && ctx.received <= Range(0, s.snd.nextToSend)
          && ctx.nextNeeded <= s.best
          && s.slot.temp.Some?
          && Reassembled(s.slot.temp.value, t.source, t.chunkSize, ctx.received)
          && s.epochs > 0)
    && (s.slot.dest.Some? ==> s.slot.dest.value == t.source)
    && s.best <= s.snd.nextToSend
    && (s.dataPc.DataClosing? ==> s.slot.ctx.Some?)
    && (s.dataPc.DataIdle? && s.slot.ctx.Some? ==> !Full(s.slot.ctx.value))
  }

  /** What crosses from the receiver to the sender. */
  ghost predicate CrossInv(t: Transfer, s: State) {
    && (forall m :: m in s.back ==> FromReceiver(t, s, m))
    && s.snd.lastAcked + 1 <= s.best
    && (s.ackPc.AckChecked? ==> 0 <= s.ackPc.nextNeeded <= s.best && s.epochs > 0)
    && (s.snd.metaAcked ==> s.epochs > 0)
    && (s.best == t.total > 0 ==>
          || s.slot.dest.Some?
          || (s.dataPc.DataClosing? && s.slot.ctx.Some? && s.slot.ctx.value.nextNeeded == t.total))
  }

  ghost predicate HasMeta(log: seq<Message>, before: int) {
    exists j :: 0 <= j < before && j < |log| && log[j].Meta?
  }

  /** The handshake: META before everything else. */
  ghost predicate OrderInv(s: State) {
    && (s.epochs > 0 ==> HasMeta(s.out, |s.out|))
    && (forall k :: 0 <= k < |s.out| && s.out[k].Data? ==> HasMeta(s.out, k))
  }

  ghost predicate Inv(t: Transfer, s: State) {
    SenderInv(t, s) && TrafficInv(t, s) && FinInv(s) && SlotInv(t, s) && CrossInv(t, s) && OrderInv(s)
  }

  // Preservation, part by part

  lemma InitialInv(t: Transfer)
    ensures Inv(t, INITIAL)
  {
  }

  lemma LogGrows(t: Transfer, log: seq<Message>, posts: seq<Message>, sent: nat, sent': nat)
    requires sent <= sent'
    requires forall m :: m in log ==> FromSender(t, sent, m)
    requires forall m :: m in posts ==> FromSender(t, sent', m)
    ensures forall m :: m in log + posts ==> FromSender(t, sent', m)
  {
  }

  lemma SenderStep(t: Transfer, digest: Bytes -> string, s: State, e: Event)
    requires Inv(t, s) && Enabled(t, s, e)
    ensures SenderInv(t, Do(t, digest, s, e))
  {
    var s' := Do(t, digest, s, e);
    match e
    case PumpService(now, clock) =>
      ServiceKeepsShape(t, s.snd, now, clock);
      LogGrows(t, s.out, Service(t, s.snd, now, clock).posts, s.snd.nextToSend, s'.snd.nextToSend);
    case AckApplies =>
      AcknowledgeKeepsShape(t, s.snd, s.ackPc.nextNeeded);
    case _ =>
  }

  /** Queueing something that is not DATA leaves the DATA counts alone. */
  lemma QueueOther(t: Transfer, log: seq<Message>, m: Message)
    requires !m.Data?
    ensures CountData(log + [m]) == CountData(log)
    ensures forall i: nat :: Count(log + [m], t.Data(i)) == Count(log, t.Data(i))
  {
    CountDataAppend(log, [m]);
    CountOne(m, m);
    forall i: nat
      ensures Count(log + [m], t.Data(i)) == Count(log, t.Data(i))
    {
      CountAppend(log, [m], t.Data(i));
      CountOne(m, t.Data(i));
    }
  }

  lemma TrafficService(t: Transfer, s: State, now: real, clock: nat -> real)
    requires Inv(t, s)
    ensures var e := Service(t, s.snd, now, clock);
            TrafficInv(t, s.(snd := e.state, out := s.out + e.posts))
  {
    var e := Service(t, s.snd, now, clock);
    ServiceKeepsShape(t, s.snd, now, clock);
    forall i: nat
      ensures i > e.state.lastAcked ==> Count(s.out + e.posts, t.Data(i)) == Sends(e.state, i)
      ensures Count(s.out + e.posts, t.Data(i)) <= 1 + MAX_RETRIES
    {
      ServiceCount(t, s.snd, now, clock, i);
      CountAppend(s.out, e.posts, t.Data(i));
    }
    ServiceCost(t, s.snd, now, clock);
    CountDataAppend(s.out, e.posts);
  }

  lemma TrafficAcknowledge(t: Transfer, s: State, nextNeeded: int)
    requires Inv(t, s) && 0 <= nextNeeded <= s.snd.nextToSend
    ensures TrafficInv(t, s.(snd := Acknowledge(s.snd, nextNeeded)))
  {
    AcknowledgeProgress(t, s.snd, nextNeeded);
    AcknowledgeKeepsShape(t, s.snd, nextNeeded);
    forall i: nat | i > Acknowledge(s.snd, nextNeeded).lastAcked
      ensures Sends(Acknowledge(s.snd, nextNeeded), i) == Sends(s.snd, i)
    {
      AcknowledgeSends(t, s.snd, nextNeeded, i);
    }
  }

  lemma TrafficUnaffected(t: Transfer, s: State, s': State, posts: seq<Message>)
    requires TrafficInv(t, s)
    requires s'.snd == s.snd.(finished := s'.snd.finished)
    requires s'.out == s.out + posts && (posts == [] || (|posts| == 1 && !posts[0].Data?))
    ensures TrafficInv(t, s')
  {
    if posts == [] {
      assert s'.out == s.out;
    } else {
      assert posts == [posts[0]];
      QueueOther(t, s.out, posts[0]);
    }
    forall i: nat | i > s'.snd.lastAcked
      ensures Count(s'.out, t.Data(i)) == Sends(s'.snd, i)
    {
      assert Sends(s'.snd, i) == Sends(s.snd, i);
    }
  }

  lemma TrafficStep(t: Transfer, digest: Bytes -> string, s: State, e: Event)
    requires Inv(t, s) && Enabled(t, s, e)
    ensures TrafficInv(t, Do(t, digest, s, e))
  {
    if e.PumpService? {
      TrafficService(t, s, e.now, e.clock);
    } else if e.AckApplies? {
      TrafficAcknowledge(t, s, s.ackPc.nextNeeded);
    } else {
      var s' := Do(t, digest, s, e);
      QueuesNoData(t, digest, s, e);
      TrafficUnaffected(t, s, s', s'.out[|s.out|..]);
    }
  }

  /** Every other event leaves the window alone and queues at most one message, which is not DATA. */
  lemma QueuesNoData(t: Transfer, digest: Bytes -> string, s: State, e: Event)
    requires Enabled(t, s, e) && !e.PumpService? && !e.AckApplies?
    ensures var s' := Do(t, digest, s, e);
            && s'.snd == s.snd.(finished := s'.snd.finished)
            && s.out <= s'.out && |s'.out| <= |s.out| + 1
            && (|s'.out| > |s.out| ==> !s'.out[|s.out|].Data?)
  {
  }

  lemma QueueFins(log: seq<Message>, m: Message)
    ensures PumpFins(log + [m]) == PumpFins(log) + if m == FIN_OK || m == FIN_TIMEOUT then 1 else 0
  {
    CountAppend(log, [m], FIN_OK);
    CountAppend(log, [m], FIN_TIMEOUT);
    CountOne(m, FIN_OK);
    CountOne(m, FIN_TIMEOUT);
  }

  lemma FinStep(t: Transfer, digest: Bytes -> string, s: State, e: Event)
    requires Inv(t, s) && Enabled(t, s, e)
    ensures FinInv(Do(t, digest, s, e))
  {
    match e
    case PumpService(now, clock) =>
      var posts := Service(t, s.snd, now, clock).posts;
      ServiceKeepsShape(t, s.snd, now, clock);
      ServiceCost(t, s.snd, now, clock);
      CountAppend(s.out, posts, FIN_OK);
      CountAppend(s.out, posts, FIN_TIMEOUT);
      CountAbsent(posts, FIN_OK);
    case _ =>
      QueueFins(s.out, t.Meta());
      QueueFins(s.out, FIN_OK);
      QueueFins(s.out, FIN_META_TIMEOUT);
  }

  /** A file without chunks is empty. */
  lemma NoChunks(t: Transfer)
    requires t.Valid() && t.total == 0
    ensures t.source == []
  {
    InRange(|t.source|, t.chunkSize, 0);
  }

  /** The expected hash is there whenever a complete file is compared, so the mismatch branch is dead. */
  lemma SlotMeta(t: Transfer, digest: Bytes -> string, s: State, k: nat)
    requires WellFormed(t, digest) && Inv(t, s) && Enabled(t, s, MetaArrives(k))
    ensures SlotInv(t, Do(t, digest, s, MetaArrives(k)))
    ensures CrossInv(t, Do(t, digest, s, MetaArrives(k)))
  {
    assert s.out[k] in s.out;
    assert s.out[k] == t.Meta();
    if t.total == 0 {
      NoChunks(t);
    } else {
      assert Range(0, 0) == {};
      SlotAfterMeta(t, s, OnMeta(s.slot, t.Meta(), digest));
    }
  }

  lemma SlotAfterMeta(t: Transfer, s: State, o: Outcome)
    requires t.Valid() && t.total > 0
    requires Inv(t, s) && s.dataPc.DataIdle? && LeastMissing({}, 0)
    requires var fresh' := RecvState(|t.source|, t.sha256, t.chunkSize, t.total, {}, 0, false);
             o == Outcome(s.slot.(ctx := Some(fresh'), temp := Some([])),
                          [Ack(0)])
    ensures var s' := s.(slot := o.slot, back := s.back + o.replies, epochs := s.epochs + 1);
            SlotInv(t, s') && CrossInv(t, s')
  {
  }

  lemma SlotData(t: Transfer, digest: Bytes -> string, s: State, k: nat)
    requires WellFormed(t, digest) && Inv(t, s) && Enabled(t, s, DataArrives(k))
    ensures SlotInv(t, Do(t, digest, s, DataArrives(k)))
    ensures CrossInv(t, Do(t, digest, s, DataArrives(k)))
  {
    assert s.out[k] in s.out;
    if Accepts(s.slot, s.out[k]) {
      var i: nat :| i < s.snd.nextToSend && s.out[k] == t.Data(i);
      DataReceived(t, s, i);
      var o := OnData(s.slot, t.Data(i));
      FullIffNothingMissing(o.slot.ctx.value);
      var best := if o.slot.ctx.value.nextNeeded > s.best then o.slot.ctx.value.nextNeeded else s.best;
      assert Do(t, digest, s, DataArrives(k))
             == s.(slot := o.slot, back := s.back + o.replies, dataPc := DataClosing, best := best);
      SlotAfterData(t, s, o, best);
    }
  }

  lemma SlotAfterData(t: Transfer, s: State, o: Outcome, best: nat)
    requires Inv(t, s) && s.dataPc.DataIdle? && s.slot.ctx.Some?
    requires o.slot.ctx.Some? && o.slot.temp.Some? && o.slot.dest == s.slot.dest
    requires var ctx := o.slot.ctx.value;
             && ctx == s.slot.ctx.value.(received := ctx.received, nextNeeded := ctx.nextNeeded)
             && Consistent(ctx)
             && ctx.received <= Range(0, s.snd.nextToSend)
             && ctx.nextNeeded <= s.snd.nextToSend
             && Reassembled(o.slot.temp.value, t.source, t.chunkSize, ctx.received)
             && o.replies == [Ack(ctx.nextNeeded)]
             && best == (if ctx.nextNeeded > s.best then ctx.nextNeeded else s.best)
    ensures var s' := s.(slot := o.slot, back := s.back + o.replies, dataPc := DataClosing, best := best);
            SlotInv(t, s') && CrossInv(t, s')
  {
  }

  /** One chunk of this transfer, written into an open slot. */
  lemma DataReceived(t: Transfer, s: State, i: nat)
    requires t.Valid() && SlotInv(t, s) && i < s.snd.nextToSend <= t.total && Accepts(s.slot, t.Data(i))
    ensures var o := OnData(s.slot, t.Data(i));
            && o.slot.ctx.Some? && o.slot.temp.Some? && o.slot.dest == s.slot.dest
            && o.slot.ctx.value
               == s.slot.ctx.value.(received := o.slot.ctx.value.received, nextNeeded := o.slot.ctx.value.nextNeeded)
            && Consistent(o.slot.ctx.value)
            && o.slot.ctx.value.received <= Range(0, s.snd.nextToSend)
            && s.slot.ctx.value.nextNeeded <= o.slot.ctx.value.nextNeeded <= s.snd.nextToSend
            && Reassembled(o.slot.temp.value, t.source, t.chunkSize, o.slot.ctx.value.received)
            && o.replies == [Ack(o.slot.ctx.value.nextNeeded)]
  {
    var ctx := s.slot.ctx.value;
    ReceiveKeepsConsistent(ctx, i);
    WriteChunk(s.slot.temp.value, t.source, t.chunkSize, ctx.received, i);
    BelowMissing(Receive(ctx, i).received, Receive(ctx, i).nextNeeded, s.snd.nextToSend);
  }

  lemma BelowMissing(received: set<nat>, n: nat, c: nat)
    requires LeastMissing(received, n) && c !in received
    ensures n <= c
  {
    assert c in Range(0, n) <==> c < n;
  }

  /** A full context passes the comparison of the hashes; any other close does nothing. */
  lemma CloseEffect(t: Transfer, digest: Bytes -> string, s: State)
    requires WellFormed(t, digest) && SlotInv(t, s) && Enabled(t, s, DataCloses)
    ensures OnClose(s.slot, digest)
            == if Full(s.slot.ctx.value) then Outcome(Slot(None, None, Some(t.source)), [FIN_OK])
              else Outcome(s.slot, [])
  {
    if Full(s.slot.ctx.value) {
      FullIffNothingMissing(s.slot.ctx.value);
      AllChunksGiveSource(s.slot.temp.value, t.source, t.chunkSize, s.slot.ctx.value.received);
    }
  }

  lemma SlotClose(t: Transfer, digest: Bytes -> string, s: State)
    requires WellFormed(t, digest) && Inv(t, s) && Enabled(t, s, DataCloses)
    ensures SlotInv(t, Do(t, digest, s, DataCloses))
    ensures CrossInv(t, Do(t, digest, s, DataCloses))
  {
    FullIffNothingMissing(s.slot.ctx.value);
    CloseEffect(t, digest, s);
  }

  lemma SlotStep(t: Transfer, digest: Bytes -> string, s: State, e: Event)
    requires WellFormed(t, digest) && Inv(t, s) && Enabled(t, s, e)
    ensures SlotInv(t, Do(t, digest, s, e))
    ensures CrossInv(t, Do(t, digest, s, e))
  {
    match e
    case MetaArrives(k) => SlotMeta(t, digest, s, k);
    case DataArrives(k) => SlotData(t, digest, s, k);
    case DataCloses => SlotClose(t, digest, s);
    case _ => SlotSender(t, digest, s, e);
  }

  /** What happens at the sender leaves the receiver alone. */
  lemma SlotSender(t: Transfer, digest: Bytes -> string, s: State, e: Event)
    requires WellFormed(t, digest) && Inv(t, s) && Enabled(t, s, e)
    requires !e.MetaArrives? && !e.DataArrives? && !e.DataCloses?
    ensures SlotInv(t, Do(t, digest, s, e))
    ensures CrossInv(t, Do(t, digest, s, e))
  {
    if e.PumpService? {
      ServiceKeepsShape(t, s.snd, e.now, e.clock);
    } else if e.AckArrives? {
      assert s.back[e.k] in s.back;
    }
    SlotUntouched(t, s, Do(t, digest, s, e));
  }

  lemma SlotUntouched(t: Transfer, s: State, s': State)
    requires SlotInv(t, s) && CrossInv(t, s)
    requires s' == s.(snd := s'.snd, registered := s'.registered, sendPc := s'.sendPc, pumpPc := s'.pumpPc,
             ackPc := s'.ackPc, out := s'.out)
    requires s.snd.nextToSend <= s'.snd.nextToSend && s'.snd.lastAcked + 1 <= s.best
    requires s'.ackPc.AckChecked? ==> 0 <= s'.ackPc.nextNeeded <= s.best && s.epochs > 0
    requires s'.snd.metaAcked ==> s.epochs > 0
    ensures SlotInv(t, s') && CrossInv(t, s')
  {
  }

  lemma OrderStep(t: Transfer, digest: Bytes -> string, s: State, e: Event)
    requires Inv(t, s) && Enabled(t, s, e)
    ensures OrderInv(Do(t, digest, s, e))
  {
    var s' := Do(t, digest, s, e);
    assert s.out <= s'.out;
    forall k | 0 <= k < |s'.out| && s'.out[k].Data?
      ensures HasMeta(s'.out, k)
    {
      if k >= |s.out| {
        assert e.PumpService?;
        assert HasMeta(s.out, |s.out|);
      }
    }
  }

  /** The whole invariant is kept by every event. */
  lemma Step(t: Transfer, digest: Bytes -> string, s: State, e: Event)
    requires WellFormed(t, digest) && Inv(t, s) && Enabled(t, s, e)
    ensures Inv(t, Do(t, digest, s, e))
  {
    SenderStep(t, digest, s, e);
    TrafficStep(t, digest, s, e);
    FinStep(t, digest, s, e);
    SlotStep(t, digest, s, e);
    OrderStep(t, digest, s, e);
  }
}
