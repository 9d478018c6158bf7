/**
 * The sending side as it is written: FileSendCtxSchema objects in ThreadManager's dictionary, the pump that services
 * them, and FileSender's handlers. Each method is proved against the functions of SendWindow.
 */
module SenderNode {
  import opened Messages
  import opened Posting
  import opened SendWindow

  // Facts about one pass over a dictionary with distinct keys

  lemma {:induction false} MarkAt(done: seq<Flight>, rest: seq<Flight>, stamp: real, retries: nat)
    requires rest != [] && forall j :: 0 <= j < |done| ==> done[j].idx != rest[0].idx
    ensures Mark(done + rest, rest[0].idx, stamp, retries) == done + [Flight(rest[0].idx, stamp, retries)] + rest[1..]
  {
    if done == [] {
      assert done + rest == rest;
    } else {
      assert (done + rest)[1..] == done[1..] + rest;
      MarkAt(done[1..], rest, stamp, retries);
    }
  }

  lemma {:induction false} RemoveAt(done: seq<Flight>, rest: seq<Flight>)
    requires rest != [] && forall j :: 0 <= j < |done| ==> done[j].idx != rest[0].idx
    ensures Remove(done + rest, rest[0].idx) == done + rest[1..]
  {
    if done == [] {
      assert done + rest == rest;
    } else {
      assert (done + rest)[1..] == done[1..] + rest;
      RemoveAt(done[1..], rest);
    }
  }

  lemma {:induction false} NotBelowKeys(inflight: seq<Flight>, n: int, idx: nat)
    requires forall j :: 0 <= j < |inflight| ==> inflight[j].idx != idx
    ensures forall j :: 0 <= j < |NotBelow(inflight, n)| ==> NotBelow(inflight, n)[j].idx != idx
  {
    if inflight != [] {
      NotBelowKeys(inflight[1..], n, idx);
    }
  }

  lemma {:induction false} NotBelowDistinct(inflight: seq<Flight>, n: int)
    requires DistinctKeys(inflight)
    ensures DistinctKeys(NotBelow(inflight, n))
  {
    if inflight != [] {
      NotBelowDistinct(inflight[1..], n);
      NotBelowKeys(inflight[1..], n, inflight[0].idx);
    }
  }

  // One visit of the pump, as a value

  datatype Visited = Visited(state: SendState, posts: seq<Message>, dropped: bool)

  /** The body of the loop in `_pump`. */
  function Visit(t: Transfer, s: SendState, now: real, clock: nat -> real): Visited {
    if s.finished then Visited(s, [], true)
    else
      var e := if s.metaAcked then Service(t, s, now, clock) else Effect(s, []);
      if Complete(t, e.state) then Visited(e.state.(finished := true), e.posts + [FIN_OK], false)
      else Visited(e.state, e.posts, false)
  }

  /** `inflight` has the keys of a dictionary, and none at or beyond the next one. */
  ghost predicate Dictionary(s: SendState) {
    DistinctKeys(s.inflight) && forall j :: 0 <= j < |s.inflight| ==> s.inflight[j].idx < s.nextToSend
  }

  /** FileSendCtxSchema */
  class FileSendCtx {
    const transfer: Transfer
    var nextToSend: nat
    var lastAcked: int
    var inflight: seq<Flight>
    var acked: set<nat>
    var finished: bool
    var metaAcked: bool

    constructor (transfer: Transfer)
      ensures this.transfer == transfer && State() == FRESH
    {
      this.transfer := transfer;
      nextToSend, lastAcked, inflight, acked, finished, metaAcked := 0, -1, [], {}, false, false;
    }

    function State(): SendState
      reads this
    {
      SendState(nextToSend, lastAcked, inflight, acked, finished, metaAcked)
    }

    ghost predicate Valid()
      reads this
    {
      Dictionary(State())
    }

    /** `_mark_inflight` */
    method MarkInflight(idx: nat, stamp: real, retries: nat)
      modifies this`inflight
      ensures inflight == Mark(old(inflight), idx, stamp, retries)
    {
      inflight := Mark(inflight, idx, stamp, retries);
    }
  }

  /** get_data_chunk or a FIN builder, then queue_frame_for_sending; `sent` is what the caller has queued so far. */
  method Enqueue(box: Outbox, t: Transfer, ghost base: seq<Letter>, ghost sent: seq<Message>, m: Message)
    requires box.Valid() && box.posted == base + Letters(t, sent)
    modifies box, box.handler
    ensures box.Valid() && box.posted == base + Letters(t, sent + [m])
  {
    box.Send(Outward(t, m));
    assert Letters(t, sent + [m]) == Letters(t, sent) + [Outward(t, m)];
  }

  /** The loop over a snapshot of the items, which marks entries in the dictionary it was taken from. */
  function Pass(
      t: Transfer, s: SendState, items: seq<Flight>, now: real, clock: nat -> real, sent: seq<Message>): Effect
    decreases items
  {
    if items == [] then Effect(s, sent)
    else
      var f := items[0];
      if !Expired(f, now) then Pass(t, s, items[1..], now, clock, sent)
      else if f.retries >= MAX_RETRIES then Effect(s.(finished := true), sent + [FIN_TIMEOUT])
      else Pass(t, Marked(s, f, At(clock, f.idx)), items[1..], now, clock, sent + [t.Data(f.idx)])
  }

  function Marked(s: SendState, f: Flight, stamp: real): SendState {
    s.(inflight := Mark(s.inflight, f.idx, stamp, f.retries + 1))
  }

  /** Marking through the dictionary is the same as rebuilding it, because its keys are distinct. */
  lemma {:induction false} PassIsResend(
      t: Transfer, s: SendState, done: seq<Flight>, items: seq<Flight>, now: real, clock: nat -> real,
      sent: seq<Message>)
    requires s.inflight == done + items && DistinctKeys(s.inflight)
    ensures var r := Resend(t, items, now, clock);
            Pass(t, s, items, now, clock, sent)
            == Effect(s.(inflight := done + r.inflight, finished := s.finished || r.gaveUp), sent + r.posts)
    decreases items
  {
    if items != [] {
      var f := items[0];
      var rest := Resend(t, items[1..], now, clock);
      if !Expired(f, now) {
        assert s.inflight == (done + [f]) + items[1..];
        PassIsResend(t, s, done + [f], items[1..], now, clock, sent);
        Regroup(done, f, rest.inflight);
      } else if f.retries < MAX_RETRIES {
        var g := Flight(f.idx, At(clock, f.idx), f.retries + 1);
        MarkedKeys(s, done, items, At(clock, f.idx));
        PassIsResend(t, Marked(s, f, At(clock, f.idx)), done + [g], items[1..], now, clock, sent + [t.Data(f.idx)]);
        Regroup(done, g, rest.inflight);
        Regroup(sent, t.Data(f.idx), rest.posts);
      }
    }
  }

  lemma Regroup<A>(done: seq<A>, f: A, rest: seq<A>)
    ensures done + ([f] + rest) == done + [f] + rest
  {
  }

  lemma MarkedKeys(s: SendState, done: seq<Flight>, items: seq<Flight>, stamp: real)
    requires s.inflight == done + items && items != [] && DistinctKeys(s.inflight)
    ensures var f := items[0];
            && Marked(s, f, stamp).inflight == done + [Flight(f.idx, stamp, f.retries + 1)] + items[1..]
            && DistinctKeys(Marked(s, f, stamp).inflight)
  {
    assert forall j :: 0 <= j < |done| ==> done[j] == s.inflight[j];
    assert items[0] == s.inflight[|done|];
    MarkAt(done, items, stamp, items[0].retries + 1);
    var after := Marked(s, items[0], stamp).inflight;
    assert |after| == |s.inflight| && forall j :: 0 <= j < |after| ==> after[j].idx == s.inflight[j].idx;
  }

  ghost predicate SameKeys(a: seq<Flight>, b: seq<Flight>) {
    |a| == |b| && forall i :: 0 <= i < |a| ==> a[i].idx == b[i].idx
  }

  lemma {:induction false} ResendKeys(t: Transfer, items: seq<Flight>, now: real, clock: nat -> real)
    ensures SameKeys(Resend(t, items, now, clock).inflight, items)
  {
    if items != [] {
      ResendKeys(t, items[1..], now, clock);
    }
  }

  lemma RetransferKeepsDictionary(t: Transfer, s: SendState, now: real, clock: nat -> real)
    requires Dictionary(s)
    ensures Dictionary(RetransferExpired(t, s, now, clock).state)
  {
    ResendKeys(t, s.inflight, now, clock);
  }

  /** The end of the loop body: the chunk is read and queued again, and its entry marked. */
  method Retransmit(
      ctx: FileSendCtx, box: Outbox, f: Flight, stamp: real, ghost base: seq<Letter>, ghost sent: seq<Message>)
    requires box.Valid() && box.posted == base + Letters(ctx.transfer, sent)
    modifies ctx`inflight, box, box.handler
    ensures ctx.State() == Marked(old(ctx.State()), f, stamp)
    ensures box.Valid() && box.posted == base + Letters(ctx.transfer, sent + [ctx.transfer.Data(f.idx)])
  {
    Enqueue(box, ctx.transfer, base, sent, ctx.transfer.Data(f.idx));
    ctx.MarkInflight(f.idx, stamp, f.retries + 1);
  }

  /** `_retransfer_expired` */
  method RetransferExpiredLoop(ctx: FileSendCtx, box: Outbox, now: real, clock: nat -> real)
    requires ctx.Valid() && box.Valid()
    modifies ctx, box, box.handler
    ensures box.Valid()
    ensures var e := RetransferExpired(ctx.transfer, old(ctx.State()), now, clock);
            ctx.State() == e.state && box.posted == old(box.posted) + Letters(ctx.transfer, e.posts)
  {
    var t := ctx.transfer;
    var items := ctx.inflight;
    ghost var s0, base := ctx.State(), box.posted;
    ghost var sent: seq<Message> := [];
    assert [] + items == items && items[0..] == items;
    PassIsResend(t, s0, [], items, now, clock, []);
    for j := 0 to |items|
      invariant box.Valid() && box.posted == base + Letters(t, sent)
      invariant Pass(t, ctx.State(), items[j..], now, clock, sent) == RetransferExpired(t, s0, now, clock)
    {
      var f := items[j];
      assert items[j..][1..] == items[j + 1..];
      if Expired(f, now) {
        if f.retries >= MAX_RETRIES {
          Enqueue(box, t, base, sent, FIN_TIMEOUT);
          ctx.finished := true;
          return;
        }
        Retransmit(ctx, box, f, At(clock, f.idx), base, sent);
        sent := sent + [t.Data(f.idx)];
      }
    }
  }

  /** The loop that fills the window, with what it has queued so far. */
  function Fill(t: Transfer, s: SendState, clock: nat -> real, sent: seq<Message>): Effect
    decreases t.total - s.nextToSend
  {
    if |s.inflight| < WINDOW_SIZE && s.nextToSend < t.total then
      Fill(t, SendNext(s, At(clock, s.nextToSend)), clock, sent + [t.Data(s.nextToSend)])
    else Effect(s, sent)
  }

  lemma {:induction false} FillIsRefill(t: Transfer, s: SendState, clock: nat -> real, sent: seq<Message>)
    ensures var e := RefillWindow(t, s, clock); Fill(t, s, clock, sent) == Effect(e.state, sent + e.posts)
    decreases t.total - s.nextToSend
  {
    if |s.inflight| < WINDOW_SIZE && s.nextToSend < t.total {
      var s' := SendNext(s, At(clock, s.nextToSend));
      FillIsRefill(t, s', clock, sent + [t.Data(s.nextToSend)]);
      Regroup(sent, t.Data(s.nextToSend), RefillWindow(t, s', clock).posts);
    }
  }

  /** The loop body: one chunk is read, queued and marked. */
  method SendOne(ctx: FileSendCtx, box: Outbox, stamp: real, ghost base: seq<Letter>, ghost sent: seq<Message>)
    requires box.Valid() && box.posted == base + Letters(ctx.transfer, sent)
    modifies ctx, box, box.handler
    ensures ctx.State() == SendNext(old(ctx.State()), stamp)
    ensures box.Valid() && box.posted == base + Letters(ctx.transfer, sent + [ctx.transfer.Data(old(ctx.nextToSend))])
  {
    var idx := ctx.nextToSend;
    Enqueue(box, ctx.transfer, base, sent, ctx.transfer.Data(idx));
    ctx.MarkInflight(idx, stamp, 0);
    ctx.nextToSend := ctx.nextToSend + 1;
  }

  /** `_refill_window` */
  method RefillWindowLoop(ctx: FileSendCtx, box: Outbox, clock: nat -> real)
    requires box.Valid()
    modifies ctx, box, box.handler
    ensures box.Valid()
    ensures var e := RefillWindow(ctx.transfer, old(ctx.State()), clock);
            ctx.State() == e.state && box.posted == old(box.posted) + Letters(ctx.transfer, e.posts)
  {
    var t := ctx.transfer;
    ghost var s0, base := ctx.State(), box.posted;
    ghost var sent: seq<Message> := [];
    FillIsRefill(t, s0, clock, []);
    while |ctx.inflight| < WINDOW_SIZE && ctx.nextToSend < t.total
      invariant box.Valid() && box.posted == base + Letters(t, sent)
      invariant Fill(t, ctx.State(), clock, sent) == RefillWindow(t, s0, clock)
      decreases t.total - ctx.nextToSend
    {
      var idx := ctx.nextToSend;
      SendOne(ctx, box, At(clock, idx), base, sent);
      sent := sent + [t.Data(idx)];
    }
  }

  lemma LettersAppend(t: Transfer, a: seq<Message>, b: seq<Message>)
    ensures Letters(t, a + b) == Letters(t, a) + Letters(t, b)
  {
  }

  lemma {:induction false} RefillKeepsDictionary(t: Transfer, s: SendState, clock: nat -> real)
    requires Dictionary(s)
    ensures Dictionary(RefillWindow(t, s, clock).state)
    decreases t.total - s.nextToSend
  {
    if |s.inflight| < WINDOW_SIZE && s.nextToSend < t.total {
      MarkNew(s.inflight, s.nextToSend, At(clock, s.nextToSend), 0);
      RefillKeepsDictionary(t, SendNext(s, At(clock, s.nextToSend)), clock);
    }
  }

  /** The region of `_pump` under the context's lock. */
  method ServiceLocked(ctx: FileSendCtx, box: Outbox, now: real, clock: nat -> real)
    requires ctx.Valid() && box.Valid()
    modifies ctx, box, box.handler
    ensures ctx.Valid() && box.Valid()
    ensures var e := Service(ctx.transfer, old(ctx.State()), now, clock);
            ctx.State() == e.state && box.posted == old(box.posted) + Letters(ctx.transfer, e.posts)
  {
    RetransferKeepsDictionary(ctx.transfer, ctx.State(), now, clock);
    ghost var r := RetransferExpired(ctx.transfer, ctx.State(), now, clock);
    RetransferExpiredLoop(ctx, box, now, clock);
    if !ctx.finished {
      RefillKeepsDictionary(ctx.transfer, ctx.State(), clock);
      LettersAppend(ctx.transfer, r.posts, RefillWindow(ctx.transfer, ctx.State(), clock).posts);
      RefillWindowLoop(ctx, box, clock);
    }
  }

  /** The body of the loop in `_pump`; true if the context is to be dropped. */
  method VisitContext(ctx: FileSendCtx, box: Outbox, now: real, clock: nat -> real) returns (drop: bool)
    requires ctx.Valid() && box.Valid()
    modifies ctx, box, box.handler
    ensures ctx.Valid() && box.Valid()
    ensures var v := Visit(ctx.transfer, old(ctx.State()), now, clock);
            && ctx.State() == v.state && drop == v.dropped
            && box.posted == old(box.posted) + Letters(ctx.transfer, v.posts)
  {
    ghost var base, s0 := box.posted, ctx.State();
    if ctx.finished {
      return true;
    }
    ghost var e := if s0.metaAcked then Service(ctx.transfer, s0, now, clock) else Effect(s0, []);
    if ctx.metaAcked {
      ServiceLocked(ctx, box, now, clock);
    }
    if ctx.lastAcked + 1 >= ctx.transfer.total && !ctx.finished {
      Enqueue(box, ctx.transfer, base, e.posts, FIN_OK);
      ctx.finished := true;
    }
    return false;
  }

  // Acknowledgements

  /** The loop in `_on_ack` over a snapshot of the keys. */
  function Drop(s: SendState, items: seq<Flight>, n: int): SendState
    decreases items
  {
    if items == [] then s
    else if items[0].idx < n then
      Drop(Dropped(s, items[0].idx), items[1..], n)
    else Drop(s, items[1..], n)
  }

  lemma {:induction false} DropIsFilter(s: SendState, kept: seq<Flight>, items: seq<Flight>, n: int)
    requires s.inflight == kept + items && DistinctKeys(s.inflight)
    ensures Drop(s, items, n) == s.(inflight := kept + NotBelow(items, n), acked := s.acked + KeysBelow(items, n))
    decreases items
  {
    if items == [] {
      assert s.acked + {} == s.acked;
    } else if items[0].idx < n {
      var s' := Dropped(s, items[0].idx);
      RemovedKeys(s.inflight, kept, items);
      DropIsFilter(s', kept, items[1..], n);
      assert s'.acked + KeysBelow(items[1..], n) == s.acked + KeysBelow(items, n);
    } else {
      assert s.inflight == (kept + [items[0]]) + items[1..];
      DropIsFilter(s, kept + [items[0]], items[1..], n);
      Regroup(kept, items[0], NotBelow(items[1..], n));
    }
  }

  lemma RemovedKeys(inflight: seq<Flight>, kept: seq<Flight>, items: seq<Flight>)
    requires inflight == kept + items && items != [] && DistinctKeys(inflight)
    ensures Remove(inflight, items[0].idx) == kept + items[1..]
    ensures DistinctKeys(kept + items[1..])
  {
    assert forall j :: 0 <= j < |kept| ==> kept[j] == inflight[j];
    assert forall j :: 0 <= j < |items| ==> items[j] == inflight[|kept| + j];
    RemoveAt(kept, items);
  }

  lemma DropNext(s: SendState, items: seq<Flight>, j: nat, n: int)
    requires j < |items|
    ensures var idx := items[j].idx;
            Drop(s, items[j..], n) == Drop(if idx < n then Dropped(s, idx) else s, items[j + 1..], n)
  {
    assert items[j..][1..] == items[j + 1..];
  }

  function Dropped(s: SendState, idx: nat): SendState {
    s.(acked := s.acked + {idx}, inflight := Remove(s.inflight, idx))
  }

  method DropOne(ctx: FileSendCtx, idx: nat)
    modifies ctx`inflight, ctx`acked
    ensures ctx.State() == Dropped(old(ctx.State()), idx)
  {
    ctx.acked := ctx.acked + {idx};
    ctx.inflight := Remove(ctx.inflight, idx);
  }

  method DropAcknowledged(ctx: FileSendCtx, nextNeeded: int)
    requires ctx.Valid()
    modifies ctx`inflight, ctx`acked
    ensures ctx.State() == old(ctx.State()).(inflight := NotBelow(old(ctx.inflight), nextNeeded),
                                             acked := old(ctx.acked) + KeysBelow(old(ctx.inflight), nextNeeded))
  {
    var items := ctx.inflight;
    ghost var s0 := ctx.State();
    assert [] + items == items && items[0..] == items;
    ghost var goal := Drop(s0, items, nextNeeded);
    DropIsFilter(s0, [], items, nextNeeded);
    for j := 0 to |items|
      invariant Drop(ctx.State(), items[j..], nextNeeded) == goal
    {
      var idx := items[j].idx;
      DropNext(ctx.State(), items, j, nextNeeded);
      if idx < nextNeeded {
        DropOne(ctx, idx);
      }
    }
  }

  lemma {:induction false} NotBelowBounded(inflight: seq<Flight>, n: int, bound: int)
    requires forall j :: 0 <= j < |inflight| ==> inflight[j].idx < bound
    ensures forall j :: 0 <= j < |NotBelow(inflight, n)| ==> NotBelow(inflight, n)[j].idx < bound
  {
    if inflight != [] {
      NotBelowBounded(inflight[1..], n, bound);
    }
  }

  /** The region of `_on_ack` under the context's lock. */
  method AcknowledgeLocked(ctx: FileSendCtx, nextNeeded: int)
    requires ctx.Valid()
    modifies ctx
    ensures ctx.Valid()
    ensures ctx.State() == Acknowledge(old(ctx.State()), nextNeeded)
  {
    NotBelowDistinct(ctx.inflight, nextNeeded);
    NotBelowBounded(ctx.inflight, nextNeeded, ctx.nextToSend);
    if !ctx.metaAcked && nextNeeded == 0 {
      ctx.metaAcked := true;
    }
    DropAcknowledged(ctx, nextNeeded);
    ctx.lastAcked := if ctx.lastAcked >= nextNeeded - 1 then ctx.lastAcked else nextNeeded - 1;
  }
}
