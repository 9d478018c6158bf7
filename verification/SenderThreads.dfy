/**
 * ThreadManager's dictionary of sending contexts and the threads that work on it: the pump, and FileSender's handlers.
 * Contexts are independent: what a pump or a frame does to one does not depend on the others or on their order.
 */
module SenderThreads {
  import opened Bytes
  import opened Wrappers
  import opened Messages
  import opened Payloads
  import opened Frames
  import opened Posting
  import opened SendWindow
  import opened SenderNode

  datatype Entry = Entry(transfer: Transfer, state: SendState)

  /** One clock for each context. */
  type Clocks = string -> nat -> real

  function ClockOf(clocks: Clocks, id: string): nat -> real {
    clocks(id)
  }

  function VisitEntry(e: Entry, now: real, clocks: Clocks): Visited {
    Visit(e.transfer, e.state, now, ClockOf(clocks, e.transfer.fileId))
  }

  /** What a whole pump does to the contexts: finished ones are dropped, the others are visited one by one. */
  function Pumped(m: map<string, Entry>, now: real, clocks: Clocks): map<string, Entry> {
    map id | id in m && !m[id].state.finished :: m[id].(state := VisitEntry(m[id], now, clocks).state)
  }

  /** The letters queued when the contexts are visited in the given order. */
  function PumpLetters(m: map<string, Entry>, order: seq<string>, now: real, clocks: Clocks): seq<Letter>
    requires forall i :: 0 <= i < |order| ==> order[i] in m
  {
    if order == [] then []
    else
      var e := m[order[0]];
      Letters(e.transfer, VisitEntry(e, now, clocks).posts) + PumpLetters(m, order[1..], now, clocks)
  }

  /** The letters about one transfer. */
  function About(letters: seq<Letter>, fileId: string): seq<Letter> {
    if letters == [] then []
    else
      var last := letters[|letters| - 1];
      About(letters[..|letters| - 1], fileId)
      + if last.Outward? && last.transfer.fileId == fileId then [last] else []
  }

  lemma {:induction false} AboutAppend(a: seq<Letter>, b: seq<Letter>, fileId: string)
    ensures About(a + b, fileId) == About(a, fileId) + About(b, fileId)
  {
    if b == [] {
      assert a + b == a;
    } else {
      assert (a + b)[..|a + b| - 1] == a + b[..|b| - 1];
      AboutAppend(a, b[..|b| - 1], fileId);
    }
  }

  lemma {:induction false} AboutLetters(t: Transfer, ms: seq<Message>, fileId: string)
    ensures About(Letters(t, ms), fileId) == if t.fileId == fileId then Letters(t, ms) else []
  {
    if ms != [] {
      var n := |ms| - 1;
      assert Letters(t, ms)[..n] == Letters(t, ms[..n]);
      AboutLetters(t, ms[..n], fileId);
    }
  }

  ghost predicate Keyed(m: map<string, Entry>) {
    forall id :: id in m ==> m[id].transfer.fileId == id
  }

  ghost predicate NoRepeats(order: seq<string>) {
    forall i, j :: 0 <= i < j < |order| ==> order[i] != order[j]
  }

  lemma FirstElsewhere(order: seq<string>, id: string)
    requires NoRepeats(order) && order != []
    ensures NoRepeats(order[1..]) && order[0] !in order[1..]
    ensures id in order <==> id == order[0] || id in order[1..]
    ensures forall i :: 0 <= i < |order[1..]| ==> order[1..][i] == order[i + 1]
  {
    assert order == [order[0]] + order[1..];
  }

  /**
   * In whatever order the contexts are visited, the letters about each of them are the ones it would have queued
   * had it been alone. So two orders differ only in how the letters of different transfers interleave.
   */
  lemma {:induction false} PumpIsIndependent(
      m: map<string, Entry>, order: seq<string>, now: real, clocks: Clocks, id: string)
    requires Keyed(m) && NoRepeats(order) && forall i :: 0 <= i < |order| ==> order[i] in m
    ensures About(PumpLetters(m, order, now, clocks), id)
            == if id in order then Letters(m[id].transfer, VisitEntry(m[id], now, clocks).posts) else []
  {
    if order != [] {
      var first, rest := order[0], order[1..];
      var posts := VisitEntry(m[first], now, clocks).posts;
      FirstElsewhere(order, id);
      PumpIsIndependent(m, rest, now, clocks, id);
      AboutAppend(Letters(m[first].transfer, posts), PumpLetters(m, rest, now, clocks), id);
      AboutLetters(m[first].transfer, posts, id);
    }
  }

  /** What an ACK frame does: nothing, or one region on the one context it names. */
  function Acked(m: map<string, Entry>, payload: Bytes): map<string, Entry> {
    match ReadAck(payload)
    case None => m
    case Some((id, n)) =>
      if id in m && !m[id].state.finished then m[id := m[id].(state := Acknowledge(m[id].state, n))] else m
  }

  function Finned(m: map<string, Entry>, payload: Bytes): map<string, Entry> {
    match ReadFin(payload)
    case None => m
    case Some(id) => if id in m then m[id := m[id].(state := m[id].state.(finished := true))] else m
  }

  method Finish(ctx: FileSendCtx)
    modifies ctx`finished
    ensures ctx.State() == old(ctx.State()).(finished := true)
  {
    ctx.finished := true;
  }

  // A dictionary of contexts

  type Contexts = map<string, FileSendCtx>

  /** Every context is registered under its own identifier, so no two names share an object. */
  ghost predicate Registry(contexts: Contexts)
    reads contexts.Values
  {
    forall id :: id in contexts ==> contexts[id].transfer.fileId == id && contexts[id].Valid()
  }

  ghost function Entries(contexts: Contexts): map<string, Entry>
    reads contexts.Values
  {
    map id | id in contexts :: Entry(contexts[id].transfer, contexts[id].State())
  }

  /** VisitContext on one of them, with what it means for all of them. */
  method VisitListed(contexts: Contexts, id: string, box: Outbox, now: real, clocks: Clocks) returns (drop: bool)
    requires id in contexts && Registry(contexts) && box.Valid()
    modifies contexts[id], box, box.handler
    ensures Registry(contexts) && box.Valid()
    ensures var e := old(Entries(contexts))[id];
            var v := VisitEntry(e, now, clocks);
            && Entries(contexts) == old(Entries(contexts))[id := e.(state := v.state)]
            && box.posted == old(box.posted) + Letters(e.transfer, v.posts)
    ensures drop == old(Entries(contexts))[id].state.finished
  {
    assert forall other :: other in contexts && other != id ==> contexts[other] != contexts[id];
    drop := VisitContext(contexts[id], box, now, ClockOf(clocks, id));
  }

  lemma WithOne(contexts: Contexts, ctx: FileSendCtx)
    requires Registry(contexts) && ctx.Valid()
    ensures var id := ctx.transfer.fileId;
            && Registry(contexts[id := ctx])
            && Entries(contexts[id := ctx]) == Entries(contexts)[id := Entry(ctx.transfer, ctx.State())]
            && (contexts[id := ctx]).Values <= contexts.Values + {ctx}
  {
  }

  lemma WithoutOne(contexts: Contexts, id: string)
    requires Registry(contexts)
    ensures Registry(contexts - {id}) && Entries(contexts - {id}) == Entries(contexts) - {id}
    ensures (contexts - {id}).Values <= contexts.Values
  {
  }

  // The pump, context by context

  datatype Round = Round(entries: map<string, Entry>, letters: seq<Letter>)

  /** One round of the loop in `_pump`. */
  function Step(m: map<string, Entry>, id: string, now: real, clocks: Clocks): Round
    requires id in m
  {
    var v := VisitEntry(m[id], now, clocks);
    Round(if m[id].state.finished then m - {id} else m[id := m[id].(state := v.state)],
          Letters(m[id].transfer, v.posts))
  }

  function Rounds(m: map<string, Entry>, order: seq<string>, now: real, clocks: Clocks, sent: seq<Letter>): Round
    requires NoRepeats(order) && forall i :: 0 <= i < |order| ==> order[i] in m
    decreases order
  {
    if order == [] then Round(m, sent)
    else
      var r := Step(m, order[0], now, clocks);
      assert forall i :: 0 <= i < |order| - 1 ==> order[1..][i] == order[i + 1];
      Rounds(r.entries, order[1..], now, clocks, sent + r.letters)
  }

  /** What the rounds still to do leave behind. */
  function After(m: map<string, Entry>, order: seq<string>, now: real, clocks: Clocks): map<string, Entry> {
    map id | id in m && !(id in order && m[id].state.finished) ::
      if id in order then m[id].(state := VisitEntry(m[id], now, clocks).state) else m[id]
  }

  lemma {:induction false} SameLetters(
      m: map<string, Entry>, m': map<string, Entry>, order: seq<string>, now: real, clocks: Clocks)
    requires forall i :: 0 <= i < |order| ==> order[i] in m && order[i] in m' && m[order[i]] == m'[order[i]]
    ensures PumpLetters(m, order, now, clocks) == PumpLetters(m', order, now, clocks)
  {
    if order != [] {
      SameLetters(m, m', order[1..], now, clocks);
    }
  }

  lemma StepAfter(m: map<string, Entry>, order: seq<string>, now: real, clocks: Clocks)
    requires NoRepeats(order) && order != [] && forall i :: 0 <= i < |order| ==> order[i] in m
    ensures var r := Step(m, order[0], now, clocks);
            && (forall i :: 1 <= i < |order| ==> order[i] in r.entries && r.entries[order[i]] == m[order[i]])
            && After(r.entries, order[1..], now, clocks) == After(m, order, now, clocks)
  {
    assert order == [order[0]] + order[1..];
    assert order[0] !in order[1..];
  }

  /** Round after round is the same as all contexts at once. */
  lemma {:induction false} RoundsArePumped(
      m: map<string, Entry>, order: seq<string>, now: real, clocks: Clocks, sent: seq<Letter>)
    requires NoRepeats(order) && forall i :: 0 <= i < |order| ==> order[i] in m
    ensures Rounds(m, order, now, clocks, sent)
            == Round(After(m, order, now, clocks), sent + PumpLetters(m, order, now, clocks))
    decreases order
  {
    if order == [] {
      assert After(m, order, now, clocks) == m;
    } else {
      var r := Step(m, order[0], now, clocks);
      StepAfter(m, order, now, clocks);
      RoundsArePumped(r.entries, order[1..], now, clocks, sent + r.letters);
      SameLetters(m, r.entries, order[1..], now, clocks);
      Associative(sent, r.letters, PumpLetters(m, order[1..], now, clocks));
    }
  }

  ghost predicate Listed(m: map<string, Entry>, order: seq<string>, j: nat) {
    forall i :: j <= i < |order| ==> order[i] in m
  }

  /** The rounds from number j on. */
  function RoundsFrom(
      m: map<string, Entry>, order: seq<string>, j: nat, now: real, clocks: Clocks, sent: seq<Letter>): (r: Round)
    requires NoRepeats(order) && j <= |order| && Listed(m, order, j)
    ensures j == |order| ==> r == Round(m, sent)
  {
    Rounds(m, order[j..], now, clocks, sent)
  }

  lemma NextRound(m: map<string, Entry>, order: seq<string>, j: nat, now: real, clocks: Clocks, sent: seq<Letter>)
    requires NoRepeats(order) && j < |order| && Listed(m, order, j)
    ensures var r := Step(m, order[j], now, clocks);
            && Listed(r.entries, order, j + 1)
            && RoundsFrom(m, order, j, now, clocks, sent)
               == RoundsFrom(r.entries, order, j + 1, now, clocks, sent + r.letters)
  {
    assert order[j..][1..] == order[j + 1..];
    assert forall i :: j < i < |order| ==> order[i] != order[j];
  }

  lemma WholePump(m: map<string, Entry>, order: seq<string>, now: real, clocks: Clocks)
    requires NoRepeats(order) && forall id :: id in order <==> id in m
    ensures Listed(m, order, 0)
    ensures RoundsFrom(m, order, 0, now, clocks, [])
            == Round(Pumped(m, now, clocks), PumpLetters(m, order, now, clocks))
  {
    assert order[0..] == order;
    RoundsArePumped(m, order, now, clocks, []);
    assert After(m, order, now, clocks) == Pumped(m, now, clocks);
  }

  // Handlers that run between two rounds

  /** The context a frame or a registration is about, and what it does to the dictionary. */
  datatype Handler = AckFrame(payload: Bytes) | FinFrame(payload: Bytes) | Registration(transfer: Transfer)

  function Handled(m: map<string, Entry>, h: Handler): map<string, Entry> {
    match h
    case AckFrame(payload) => Acked(m, payload)
    case FinFrame(payload) => Finned(m, payload)
    case Registration(t) => m[t.fileId := Entry(t, FRESH)]
  }

  predicate Concerns(h: Handler, id: string) {
    match h
    case AckFrame(payload) => ReadAck(payload).Some? && ReadAck(payload).value.0 == id
    case FinFrame(payload) => ReadFin(payload) == Some(id)
    case Registration(t) => t.fileId == id
  }

  /** A handler commutes with every round but that of its own context. */
  lemma HandlersCommute(m: map<string, Entry>, h: Handler, id: string, now: real, clocks: Clocks)
    requires id in m && !Concerns(h, id)
    ensures var r := Step(m, id, now, clocks);
            && id in Handled(m, h)
            && Step(Handled(m, h), id, now, clocks) == Round(Handled(r.entries, h), r.letters)
  {
    match h
    case AckFrame(payload) =>
      if ReadAck(payload).Some? {
        var (other, n) := ReadAck(payload).value;
        if other in m {
          EntryCommutes(m, other, m[other].(state := Acknowledge(m[other].state, n)), id, now, clocks);
        }
      }
    case FinFrame(payload) =>
      if ReadFin(payload).Some? && ReadFin(payload).value in m {
        var other := ReadFin(payload).value;
        EntryCommutes(m, other, m[other].(state := m[other].state.(finished := true)), id, now, clocks);
      }
    case Registration(t) =>
      EntryCommutes(m, t.fileId, Entry(t, FRESH), id, now, clocks);
  }

  lemma EntryCommutes(m: map<string, Entry>, other: string, e: Entry, id: string, now: real, clocks: Clocks)
    requires id in m && other != id
    ensures var r := Step(m, id, now, clocks);
            && (other in r.entries <==> other in m) && (other in m ==> r.entries[other] == m[other])
            && Step(m[other := e], id, now, clocks) == Round(r.entries[other := e], r.letters)
  {
  }

  /** So it may be moved past any rounds of other contexts: they queue the same, and the contexts end up the same. */
  lemma {:induction false} HandlerMoves(
      m: map<string, Entry>, h: Handler, order: seq<string>, now: real, clocks: Clocks, sent: seq<Letter>)
    requires NoRepeats(order) && forall i :: 0 <= i < |order| ==> order[i] in m && !Concerns(h, order[i])
    ensures var r := Rounds(m, order, now, clocks, sent);
            && (forall i :: 0 <= i < |order| ==> order[i] in Handled(m, h))
            && Rounds(Handled(m, h), order, now, clocks, sent) == Round(Handled(r.entries, h), r.letters)
    decreases order
  {
    if order != [] {
      var r := Step(m, order[0], now, clocks);
      StepAfter(m, order, now, clocks);
      HandlersCommute(m, h, order[0], now, clocks);
      HandlerMoves(r.entries, h, order[1..], now, clocks, sent + r.letters);
    }
    forall i | 0 <= i < |order|
      ensures order[i] in Handled(m, h)
    {
      HandlersCommute(m, h, order[i], now, clocks);
    }
  }

  lemma Associative<A>(a: seq<A>, b: seq<A>, c: seq<A>)
    ensures a + b + c == a + (b + c)
  {
  }

  class ThreadManager {
    const box: Outbox
    var ctxById: Contexts

    ghost predicate Valid()
      reads this, box, box.handler, ctxById.Values
    {
      box.Valid() && Registry(ctxById)
    }

    ghost function Snapshot(): map<string, Entry>
      reads this, ctxById.Values
    {
      Entries(ctxById)
    }

    constructor (box: Outbox)
      requires box.Valid()
      ensures Valid() && this.box == box && Snapshot() == map[]
    {
      this.box := box;
      ctxById := map[];
    }

    /** _ctx_by_id.pop(id) */
    method Pop(id: string)
      requires Valid()
      modifies this`ctxById
      ensures Valid() && Snapshot() == old(Snapshot()) - {id}
      ensures ctxById == old(ctxById) - {id} && ctxById.Values <= old(ctxById.Values)
    {
      WithoutOne(ctxById, id);
      ctxById := ctxById - {id};
    }

    /** One round of the loop in `_pump`. */
    method PumpRound(id: string, now: real, clocks: Clocks)
      requires Valid() && id in ctxById
      modifies this`ctxById, ctxById.Values, box, box.handler
      ensures Valid()
      ensures var r := Step(old(Snapshot()), id, now, clocks);
              Snapshot() == r.entries && box.posted == old(box.posted) + r.letters
      ensures ctxById.Values <= old(ctxById.Values)
      ensures forall other :: other in old(ctxById) && other != id ==> other in ctxById
    {
      var drop := VisitListed(ctxById, id, box, now, clocks);
      if drop {
        Pop(id);
      }
    }

    /** Round j, as part of what all of them do. */
    method RoundAt(
        order: seq<string>, j: nat, now: real, clocks: Clocks, ghost base: seq<Letter>, ghost sent: seq<Letter>)
      returns (ghost sent': seq<Letter>)
      requires Valid() && NoRepeats(order) && j < |order| && box.posted == base + sent
      requires Listed(Snapshot(), order, j)
      modifies this`ctxById, ctxById.Values, box, box.handler
      ensures Valid() && ctxById.Values <= old(ctxById.Values) && box.posted == base + sent'
      ensures Listed(Snapshot(), order, j + 1)
      ensures RoundsFrom(Snapshot(), order, j + 1, now, clocks, sent')
              == RoundsFrom(old(Snapshot()), order, j, now, clocks, sent)
    {
      ghost var letters := Step(Snapshot(), order[j], now, clocks).letters;
      sent' := sent + letters;
      NextRound(Snapshot(), order, j, now, clocks, sent);
      Associative(base, sent, letters);
      PumpRound(order[j], now, clocks);
    }

    /** `_pump`; `order` is the order in which the dictionary lists its contexts. */
    method Pump(order: seq<string>, now: real, clocks: Clocks)
      requires Valid()
      requires NoRepeats(order) && (forall id :: id in order <==> id in ctxById)
      modifies this`ctxById, ctxById.Values, box, box.handler
      ensures Valid()
      ensures Snapshot() == Pumped(old(Snapshot()), now, clocks)
      ensures box.posted == old(box.posted) + PumpLetters(old(Snapshot()), order, now, clocks)
    {
      ghost var before, base := Snapshot(), box.posted;
      ghost var sent: seq<Letter> := [];
      WholePump(before, order, now, clocks);
      ghost var goal := RoundsFrom(before, order, 0, now, clocks, []);
      for j := 0 to |order|
        invariant Valid() && ctxById.Values <= old(ctxById.Values)
        invariant Listed(Snapshot(), order, j)
        invariant box.posted == base + sent
        invariant RoundsFrom(Snapshot(), order, j, now, clocks, sent) == goal
      {
        sent := RoundAt(order, j, now, clocks, base, sent);
      }
    }

    /** The region of `_on_ack`, for a context in the dictionary. */
    method AcknowledgeListed(id: string, nextNeeded: int)
      requires Valid() && id in ctxById
      modifies ctxById[id]
      ensures Valid()
      ensures var e := old(Snapshot())[id];
              Snapshot() == old(Snapshot())[id := e.(state := Acknowledge(e.state, nextNeeded))]
    {
      assert forall other :: other in ctxById && other != id ==> ctxById[other] != ctxById[id];
      AcknowledgeLocked(ctxById[id], nextNeeded);
    }

    /** `_on_ack` */
    method OnAck(frame: Frame)
      requires Valid()
      modifies ctxById.Values
      ensures Valid() && ctxById == old(ctxById)
      ensures Snapshot() == Handled(old(Snapshot()), AckFrame(frame.payload))
    {
      match ReadAck(frame.payload)
      case None =>
      case Some((id, nextNeeded)) =>
        if id !in ctxById || ctxById[id].finished {
          return;
        }
        AcknowledgeListed(id, nextNeeded);
    }

    /** `_on_fin` */
    method OnFin(frame: Frame)
      requires Valid()
      modifies ctxById.Values
      ensures Valid() && ctxById == old(ctxById)
      ensures Snapshot() == Handled(old(Snapshot()), FinFrame(frame.payload))
    {
      match ReadFin(frame.payload)
      case None =>
      case Some(id) =>
        if id in ctxById {
          assert forall other :: other in ctxById && other != id ==> ctxById[other] != ctxById[id];
          Finish(ctxById[id]);
        }
    }

    /** `add_ctx_by_id` with a new context for the transfer */
    method AddContext(t: Transfer)
      requires Valid()
      modifies this`ctxById
      ensures Valid() && Snapshot() == old(Snapshot())[t.fileId := Entry(t, FRESH)]
      ensures forall c :: c in ctxById.Values ==> c in old(ctxById.Values) || fresh(c)
    {
      var ctx := new FileSendCtx(t);
      WithOne(ctxById, ctx);
      ctxById := ctxById[t.fileId := ctx];
    }

    /** `send_file` up to its waiting loop: count the chunks, register the context, announce the file. */
    method SendFile(name: string, relPath: string, dstMac: string, source: Bytes, sha256: string, chunkSize: nat)
      returns (t: Transfer)
      requires Valid() && chunkSize > 0
      modifies this`ctxById, box, box.handler
      ensures Valid() && t.Valid()
      ensures t == Transfer(FileId(name, sha256), name, relPath, dstMac, source, sha256, chunkSize, t.total)
      ensures Snapshot() == Handled(old(Snapshot()), Registration(t))
      ensures box.posted == old(box.posted) + [Outward(t, t.Meta())]
    {
      var total := (|source| + chunkSize - 1) / chunkSize;
      t := Transfer(FileId(name, sha256), name, relPath, dstMac, source, sha256, chunkSize, total);
      AddContext(t);
      box.Send(Outward(t, t.Meta()));
    }
  }
}
