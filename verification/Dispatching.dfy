/**
 * `_dispatcher_loop` and the handlers that FileSender and FileReceiver register with it: a frame that has arrived
 * reaches the handler of its type. And what that amounts to: the events of the protocol.
 */
module Dispatching {
  import opened Bytes
  import opened Wrappers
  import opened Text
  import opened Messages
  import opened Payloads
  import opened Frames
  import opened Posting
  import opened SendWindow
  import opened ReceiveSlot
  import opened ReceiverNode
  import opened Security
  import opened EndToEnd
  import Protocol
  import Mac
  import SenderThreads

  /** The handlers of a file transfer; Other is any handler of another service. */
  datatype Handler = AckHandler | FinHandler | MetaHandler | DataHandler | Other

  type Handlers = map<MessageType, Handler>

  /** The registrations in FileSender's constructor. */
  function SenderHandlers(handlers: Handlers): Handlers {
    handlers[MessageType.ACK := AckHandler][FILE_FIN := FinHandler]
  }

  /** The registrations in FileReceiver's constructor. */
  function ReceiverHandlers(handlers: Handlers): Handlers {
    handlers[FILE_DATA := DataHandler][FILE_META := MetaHandler]
  }

  /** A host may send, receive, or do both, among other services. */
  function Installed(sender: bool, receiver: bool, others: Handlers): Handlers {
    var handlers := if receiver then ReceiverHandlers(others) else others;
    if sender then SenderHandlers(handlers) else handlers
  }

  datatype Host = Host(contexts: map<string, SenderThreads.Entry>, node: Node)

  datatype Dispatched = Dispatched(host: Host, letters: seq<Letter>)

  /** One round of `_dispatcher_loop`; `dest` is the outcome of the path checks of `_on_meta`. */
  function Dispatch(handlers: Handlers, h: Host, f: Frame, dest: Option<string>, digest: Bytes -> string): Dispatched {
    if f.header.messageType !in handlers then Dispatched(h, [])
    else
      match handlers[f.header.messageType]
      case AckHandler => Dispatched(h.(contexts := SenderThreads.Acked(h.contexts, f.payload)), [])
      case FinHandler => Dispatched(h.(contexts := SenderThreads.Finned(h.contexts, f.payload)), [])
      case MetaHandler => var o := MetaAt(h.node, f, dest, digest); Dispatched(h.(node := o.node), o.letters)
      case DataHandler => var o := DataAt(h.node, f, digest); Dispatched(h.(node := o.node), o.letters)
      case Other => Dispatched(h, [])
  }

  /** What a letter needs to get through, and how it travels. */
  datatype Passage = Passage(srcMac: string, ethertype: int, seqNo: nat, keys: Keys, nonce: Bytes, pad: Bytes) {
    predicate Carries(l: Letter) {
      && Link(Address(l), srcMac, ethertype) && seqNo < 0x1_0000
      && |nonce| == NONCE_LEN && |Payload(l)| + EXTRA < 0x1_0000_0000
    }
  }

  /** The letter's frame is protected, sent, padded, received, accepted and dispatched. */
  function Arrives(
      p: Passage, l: Letter, handlers: Handlers, h: Host, dest: Option<string>, digest: Bytes -> string)
    : Option<Dispatched>
    requires |p.nonce| == NONCE_LEN
  {
    match Transmit(p.keys, FrameFor(l, p.srcMac, p.ethertype, p.seqNo), p.nonce, p.pad)
    case None => None
    case Some(f) => Some(Dispatch(handlers, h, f, dest, digest))
  }

  lemma ArrivesDispatched(
      p: Passage, l: Letter, handlers: Handlers, h: Host, dest: Option<string>, digest: Bytes -> string)
    requires p.Carries(l)
    ensures Arrives(p, l, handlers, h, dest, digest)
            == Some(Dispatch(handlers, h, FrameFor(l, p.srcMac, p.ethertype, p.seqNo), dest, digest))
  {
    LetterArrives(l, p.srcMac, p.ethertype, p.seqNo, p.keys, p.nonce, p.pad);
  }

  /** Each type has its own handler, whichever of the two services is installed besides. */
  lemma Routes(sender: bool, receiver: bool, others: Handlers)
    ensures var hs := Installed(sender, receiver, others);
            && (receiver ==> FILE_META in hs && hs[FILE_META] == MetaHandler)
            && (receiver ==> FILE_DATA in hs && hs[FILE_DATA] == DataHandler)
            && (sender ==> MessageType.ACK in hs && hs[MessageType.ACK] == AckHandler)
            && (sender ==> FILE_FIN in hs && hs[FILE_FIN] == FinHandler)
  {
  }

  lemma ToData(handlers: Handlers, h: Host, f: Frame, checks: Option<string>, digest: Bytes -> string)
    requires f.header.messageType in handlers && handlers[f.header.messageType] == DataHandler
    ensures var o := DataAt(h.node, f, digest);
            Dispatch(handlers, h, f, checks, digest) == Dispatched(h.(node := o.node), o.letters)
  {
  }

  lemma ToAck(handlers: Handlers, h: Host, f: Frame, checks: Option<string>, digest: Bytes -> string)
    requires f.header.messageType in handlers && handlers[f.header.messageType] == AckHandler
    ensures Dispatch(handlers, h, f, checks, digest)
            == Dispatched(h.(contexts := SenderThreads.Acked(h.contexts, f.payload)), [])
  {
  }

  lemma ToMeta(handlers: Handlers, h: Host, f: Frame, checks: Option<string>, digest: Bytes -> string)
    requires f.header.messageType in handlers && handlers[f.header.messageType] == MetaHandler
    ensures var o := MetaAt(h.node, f, checks, digest);
            Dispatch(handlers, h, f, checks, digest) == Dispatched(h.(node := o.node), o.letters)
  {
  }

  // The receiving side

  /** The node's part of a transfer to `dest` is what the protocol's state says. */
  ghost predicate Receives(n: Node, id: string, dest: string, s: Protocol.State) {
    && SlotAt(n, id, dest) == s.slot
    && (id in n.entries ==> n.entries[id].dest == dest)
  }

  /** What the protocol has queued in reply, as letters. */
  function Replied(id: string, peer: string, s: Protocol.State, s': Protocol.State): seq<Letter>
    requires |s.back| <= |s'.back|
  {
    Replies(id, peer, s'.back[|s.back|..])
  }

  lemma MetaReaches(
      t: Transfer, digest: Bytes -> string, p: Passage, sender: bool, others: Handlers, h: Host, dest: string)
    requires Nameable(t) && t.Valid() && p.Carries(Outward(t, t.Meta()))
    ensures var outcome := OnMeta(SlotAt(h.node, t.fileId, dest), t.Meta(), digest);
            var o := Applied(h.node, t.fileId, dest, outcome, p.srcMac);
            Arrives(p, Outward(t, t.Meta()), Installed(sender, true, others), h, Some(dest), digest)
            == Some(Dispatched(h.(node := o.node), o.letters))
  {
    var l := Outward(t, t.Meta());
    ArrivesDispatched(p, l, Installed(sender, true, others), h, Some(dest), digest);
    Routes(sender, true, others);
    ToMeta(Installed(sender, true, others), h, FrameFor(l, p.srcMac, p.ethertype, p.seqNo), Some(dest), digest);
    MetaDelivered(t, p.srcMac, p.ethertype, p.seqNo, h.node, dest, digest);
  }

  lemma MetaIsEvent(
      t: Transfer, digest: Bytes -> string, s: Protocol.State, k: nat, n: Node, dest: string, peer: string)
    requires Receives(n, t.fileId, dest, s)
    requires Protocol.Enabled(t, s, Protocol.MetaArrives(k)) && s.out[k] == t.Meta()
    ensures var s' := Protocol.Do(t, digest, s, Protocol.MetaArrives(k));
            var o := Applied(n, t.fileId, dest, OnMeta(SlotAt(n, t.fileId, dest), t.Meta(), digest), peer);
            && Receives(o.node, t.fileId, dest, s')
            && s.back <= s'.back && o.letters == Replied(t.fileId, peer, s, s')
  {
    var o := OnMeta(s.slot, t.Meta(), digest);
    SlotWritten(n, t.fileId, dest, o.slot);
    assert (s.back + o.replies)[|s.back|..] == o.replies;
  }

  /** META, put on the wire by one host, is the protocol's MetaArrives on the other. */
  lemma MetaDispatched(
      t: Transfer, digest: Bytes -> string, s: Protocol.State, k: nat, p: Passage, sender: bool, others: Handlers,
      h: Host, dest: string)
    requires Nameable(t) && t.Valid() && Receives(h.node, t.fileId, dest, s)
    requires Protocol.Enabled(t, s, Protocol.MetaArrives(k)) && s.out[k] == t.Meta()
    requires p.Carries(Outward(t, t.Meta()))
    ensures var s' := Protocol.Do(t, digest, s, Protocol.MetaArrives(k));
            var a := Arrives(p, Outward(t, t.Meta()), Installed(sender, true, others), h, Some(dest), digest);
            && a.Some? && a.value.host.contexts == h.contexts
            && Receives(a.value.host.node, t.fileId, dest, s')
            && s.back <= s'.back && a.value.letters == Replied(t.fileId, p.srcMac, s, s')
  {
    MetaReaches(t, digest, p, sender, others, h, dest);
    MetaIsEvent(t, digest, s, k, h.node, dest, p.srcMac);
  }

  /** What DataArrives leads to, with the close that follows if the chunk was taken. */
  function AfterData(t: Transfer, digest: Bytes -> string, s: Protocol.State, k: nat): Protocol.State
    requires Protocol.Enabled(t, s, Protocol.DataArrives(k))
  {
    var s' := Protocol.Do(t, digest, s, Protocol.DataArrives(k));
    if s'.dataPc.DataClosing? then Protocol.Do(t, digest, s', Protocol.DataCloses) else s'
  }

  /** What `_on_data` does with a chunk of the transfer. */
  function Taken(n: Node, t: Transfer, i: nat, peer: string, digest: Bytes -> string): NodeOutcome {
    if t.fileId in n.entries && Accepts(SlotAt(n, t.fileId, n.entries[t.fileId].dest), t.Data(i)) then
      var d := n.entries[t.fileId].dest;
      var o := OnData(SlotAt(n, t.fileId, d), t.Data(i));
      var c := OnClose(o.slot, digest);
      Applied(n, t.fileId, d, Outcome(c.slot, o.replies + c.replies), peer)
    else NodeOutcome(n, [])
  }

  lemma DataReaches(
      t: Transfer, digest: Bytes -> string, i: nat, p: Passage, sender: bool, others: Handlers, h: Host,
      checks: Option<string>)
    requires UsableId(t.fileId) && p.Carries(Outward(t, t.Data(i)))
    ensures var o := Taken(h.node, t, i, p.srcMac, digest);
            Arrives(p, Outward(t, t.Data(i)), Installed(sender, true, others), h, checks, digest)
            == Some(Dispatched(h.(node := o.node), o.letters))
  {
    var l := Outward(t, t.Data(i));
    ArrivesDispatched(p, l, Installed(sender, true, others), h, checks, digest);
    Routes(sender, true, others);
    ToData(Installed(sender, true, others), h, FrameFor(l, p.srcMac, p.ethertype, p.seqNo), checks, digest);
    DataDelivered(t, i, p.srcMac, p.ethertype, p.seqNo, h.node, digest);
  }

  lemma AfterDataIs(t: Transfer, digest: Bytes -> string, s: Protocol.State, k: nat, i: nat)
    requires Protocol.Enabled(t, s, Protocol.DataArrives(k)) && s.out[k] == t.Data(i)
    ensures var s' := AfterData(t, digest, s, k);
            if Accepts(s.slot, t.Data(i)) then
              var o := OnData(s.slot, t.Data(i));
              var c := OnClose(o.slot, digest);
              s'.slot == c.slot && s'.back == s.back + (o.replies + c.replies)
            else s' == s
  {
    if Accepts(s.slot, t.Data(i)) {
      var o := OnData(s.slot, t.Data(i));
      var c := OnClose(o.slot, digest);
      assert s.back + o.replies + c.replies == s.back + (o.replies + c.replies);
    }
  }

  lemma DataIsEvent(
      t: Transfer, digest: Bytes -> string, s: Protocol.State, k: nat, i: nat, n: Node, dest: string, peer: string)
    requires Receives(n, t.fileId, dest, s)
    requires Protocol.Enabled(t, s, Protocol.DataArrives(k)) && s.out[k] == t.Data(i)
    ensures var s' := AfterData(t, digest, s, k);
            var o := Taken(n, t, i, peer, digest);
            && Receives(o.node, t.fileId, dest, s')
            && s.back <= s'.back && o.letters == Replied(t.fileId, peer, s, s')
  {
    AfterDataIs(t, digest, s, k, i);
    if Accepts(s.slot, t.Data(i)) {
      var o := OnData(s.slot, t.Data(i));
      var c := OnClose(o.slot, digest);
      SlotWritten(n, t.fileId, dest, c.slot);
      assert (s.back + (o.replies + c.replies))[|s.back|..] == o.replies + c.replies;
    }
  }

  /** DATA is DataArrives and, if it is taken, DataCloses. */
  lemma DataDispatched(
      t: Transfer, digest: Bytes -> string, s: Protocol.State, k: nat, i: nat, p: Passage, sender: bool,
      others: Handlers, h: Host, dest: string, checks: Option<string>)
    requires UsableId(t.fileId) && Receives(h.node, t.fileId, dest, s)
    requires Protocol.Enabled(t, s, Protocol.DataArrives(k)) && s.out[k] == t.Data(i)
    requires p.Carries(Outward(t, t.Data(i)))
    ensures var s' := AfterData(t, digest, s, k);
            var a := Arrives(p, Outward(t, t.Data(i)), Installed(sender, true, others), h, checks, digest);
            && a.Some? && a.value.host.contexts == h.contexts
            && Receives(a.value.host.node, t.fileId, dest, s')
            && s.back <= s'.back && a.value.letters == Replied(t.fileId, p.srcMac, s, s')
  {
    DataReaches(t, digest, i, p, sender, others, h, checks);
    DataIsEvent(t, digest, s, k, i, h.node, dest, p.srcMac);
  }

  // The sending side

  /** The context for a transfer is what the protocol's state says. */
  ghost predicate Sends(contexts: map<string, SenderThreads.Entry>, t: Transfer, s: Protocol.State) {
    if s.registered then t.fileId in contexts && contexts[t.fileId] == SenderThreads.Entry(t, s.snd)
    else t.fileId !in contexts
  }

  /** Nothing but the context of one transfer is different. */
  ghost predicate OnlyContext(
      m: map<string, SenderThreads.Entry>, m': map<string, SenderThreads.Entry>, id: string)
  {
    m'.Keys == m.Keys && forall other :: other in m && other != id ==> m'[other] == m[other]
  }

  /** What AckArrives leads to, with the locked region that follows if the context was found. */
  function AfterAck(t: Transfer, digest: Bytes -> string, s: Protocol.State, k: nat): Protocol.State
    requires Protocol.Enabled(t, s, Protocol.AckArrives(k))
  {
    var s' := Protocol.Do(t, digest, s, Protocol.AckArrives(k));
    if s'.ackPc.AckChecked? then Protocol.Do(t, digest, s', Protocol.AckApplies) else s'
  }

  /** The dictionary after an ACK for one of its transfers. */
  function AckedBy(m: map<string, SenderThreads.Entry>, id: string, n: int): map<string, SenderThreads.Entry> {
    if id in m && !m[id].state.finished then m[id := m[id].(state := Acknowledge(m[id].state, n))] else m
  }

  function FinnedBy(m: map<string, SenderThreads.Entry>, id: string): map<string, SenderThreads.Entry> {
    if id in m then m[id := m[id].(state := m[id].state.(finished := true))] else m
  }

  lemma AckReaches(
      id: string, n: int, dstMac: string, p: Passage, receiver: bool, others: Handlers, h: Host,
      checks: Option<string>, digest: Bytes -> string)
    requires UsableId(id) && p.Carries(Reply(id, dstMac, Ack(n)))
    ensures Arrives(p, Reply(id, dstMac, Ack(n)), Installed(true, receiver, others), h, checks, digest)
            == Some(Dispatched(h.(contexts := AckedBy(h.contexts, id, n)), []))
  {
    var l := Reply(id, dstMac, Ack(n));
    ArrivesDispatched(p, l, Installed(true, receiver, others), h, checks, digest);
    Routes(true, receiver, others);
    ToAck(Installed(true, receiver, others), h, FrameFor(l, p.srcMac, p.ethertype, p.seqNo), checks, digest);
    AckDelivered(h.contexts, id, n, p.srcMac, dstMac, p.ethertype, p.seqNo);
  }

  lemma FinReaches(
      id: string, fin: Message, dstMac: string, p: Passage, receiver: bool, others: Handlers, h: Host,
      checks: Option<string>, digest: Bytes -> string)
    requires UsableId(id) && fin.Fin? && OneLine(fin.status) && OneLine(fin.reason)
    requires p.Carries(Reply(id, dstMac, fin))
    ensures Arrives(p, Reply(id, dstMac, fin), Installed(true, receiver, others), h, checks, digest)
            == Some(Dispatched(h.(contexts := FinnedBy(h.contexts, id)), []))
  {
    ArrivesDispatched(p, Reply(id, dstMac, fin), Installed(true, receiver, others), h, checks, digest);
    FinDelivered(h.contexts, id, fin, p.srcMac, dstMac, p.ethertype, p.seqNo);
  }

  lemma AckIsEvent(
      t: Transfer, digest: Bytes -> string, s: Protocol.State, k: nat, m: map<string, SenderThreads.Entry>)
    requires Sends(m, t, s) && Protocol.Enabled(t, s, Protocol.AckArrives(k))
    ensures var m' := AckedBy(m, t.fileId, s.back[k].nextNeeded);
            Sends(m', t, AfterAck(t, digest, s, k)) && OnlyContext(m, m', t.fileId)
  {
  }

  lemma FinIsEvent(
      t: Transfer, digest: Bytes -> string, s: Protocol.State, k: nat, m: map<string, SenderThreads.Entry>)
    requires Sends(m, t, s) && Protocol.Enabled(t, s, Protocol.FinArrives(k))
    ensures var m' := FinnedBy(m, t.fileId);
            && Sends(m', t, Protocol.Do(t, digest, s, Protocol.FinArrives(k)))
            && OnlyContext(m, m', t.fileId)
    ensures !s.registered ==> Protocol.Do(t, digest, s, Protocol.FinArrives(k)) == s
  {
  }

  /** ACK is AckArrives and, if the context is found unfinished, AckApplies. */
  lemma AckDispatched(
      t: Transfer, digest: Bytes -> string, s: Protocol.State, k: nat, dstMac: string, p: Passage, receiver: bool,
      others: Handlers, h: Host, checks: Option<string>)
    requires UsableId(t.fileId) && Sends(h.contexts, t, s) && Protocol.Enabled(t, s, Protocol.AckArrives(k))
    requires p.Carries(Reply(t.fileId, dstMac, s.back[k]))
    ensures var l := Reply(t.fileId, dstMac, s.back[k]);
            var a := Arrives(p, l, Installed(true, receiver, others), h, checks, digest);
            && a.Some? && a.value.letters == [] && a.value.host.node == h.node
            && Sends(a.value.host.contexts, t, AfterAck(t, digest, s, k))
            && OnlyContext(h.contexts, a.value.host.contexts, t.fileId)
  {
    var n := s.back[k].nextNeeded;
    assert s.back[k] == Ack(n);
    AckReaches(t.fileId, n, dstMac, p, receiver, others, h, checks, digest);
    AckIsEvent(t, digest, s, k, h.contexts);
  }

  /** FIN is FinArrives. */
  lemma FinDispatched(
      t: Transfer, digest: Bytes -> string, s: Protocol.State, k: nat, dstMac: string, p: Passage, receiver: bool,
      others: Handlers, h: Host, checks: Option<string>)
    requires UsableId(t.fileId) && Sends(h.contexts, t, s) && Protocol.Enabled(t, s, Protocol.FinArrives(k))
    requires OneLine(s.back[k].status) && OneLine(s.back[k].reason)
    requires p.Carries(Reply(t.fileId, dstMac, s.back[k]))
    ensures var l := Reply(t.fileId, dstMac, s.back[k]);
            var a := Arrives(p, l, Installed(true, receiver, others), h, checks, digest);
            && a.Some? && a.value.letters == [] && a.value.host.node == h.node
            && Sends(a.value.host.contexts, t, Protocol.Do(t, digest, s, Protocol.FinArrives(k)))
            && OnlyContext(h.contexts, a.value.host.contexts, t.fileId)
            && (!s.registered ==> Protocol.Do(t, digest, s, Protocol.FinArrives(k)) == s)
  {
    FinReaches(t.fileId, s.back[k], dstMac, p, receiver, others, h, checks, digest);
    FinIsEvent(t, digest, s, k, h.contexts);
  }

  // On the wire

  /** The bytes that say what a frame is, and whom it is from and for. */
  lemma OnTheWire(p: Passage, l: Letter)
    requires p.Carries(l)
    ensures var sent := Protect(p.keys, FrameFor(l, p.srcMac, p.ethertype, p.seqNo), p.nonce);
            && sent.Some? && Create(sent.value).Some?
            && var bs := Create(sent.value).value;
            && |bs| >= 16
            && bs[14] == 0
            && bs[15] == (match l.message
                          case Meta(_, _, _, _) => 5
                          case Data(_, _, _) => 6
                          case Ack(_) => 4
                          case Fin(_, _) => 7)
            && Mac.Format(bs[..6]) == (if l.Outward? then l.transfer.dstMac else l.dstMac)
            && Mac.Format(bs[6..12]) == p.srcMac
  {
    var f := FrameFor(l, p.srcMac, p.ethertype, p.seqNo);
    ProtectedShape(p.keys, f, p.nonce);
    var sent := Protect(p.keys, f, p.nonce).value;
    ProtectedDecodes(sent, []);
    Mac.RoundTripIff(sent.dstMac);
    Mac.RoundTripIff(sent.srcMac);
    HeaderStart(sent);
  }

  // The loop's body as it is written

  /** ThreadManager's handler table, with the two services whose handlers are in it. */
  class Dispatcher {
    const manager: SenderThreads.ThreadManager
    const receiver: FileReceiver
    var handlers: Handlers

    ghost predicate Valid()
      reads this, manager, manager.box, manager.box.handler, manager.ctxById.Values
      reads receiver, receiver.box, receiver.box.handler
    {
      manager.Valid() && receiver.Valid() && manager.box == receiver.box
    }

    ghost function View(): Host
      reads this, manager, manager.ctxById.Values, receiver, receiver.ctxById.Values
    {
      Host(manager.Snapshot(), receiver.View())
    }

    constructor (manager: SenderThreads.ThreadManager, receiver: FileReceiver)
      requires manager.Valid() && receiver.Valid() && manager.box == receiver.box
      ensures Valid() && this.manager == manager && this.receiver == receiver && handlers == map[]
    {
      this.manager, this.receiver, handlers := manager, receiver, map[];
    }

    /** `add_message_handler` */
    method AddMessageHandler(messageType: MessageType, handler: Handler)
      modifies this`handlers
      ensures handlers == old(handlers)[messageType := handler]
    {
      handlers := handlers[messageType := handler];
    }

    /** What FileSender's constructor registers. */
    method AddSender()
      modifies this`handlers
      ensures handlers == SenderHandlers(old(handlers))
    {
      AddMessageHandler(MessageType.ACK, AckHandler);
      AddMessageHandler(FILE_FIN, FinHandler);
    }

    /** What FileReceiver's constructor registers. */
    method AddReceiver()
      modifies this`handlers
      ensures handlers == ReceiverHandlers(old(handlers))
    {
      AddMessageHandler(FILE_DATA, DataHandler);
      AddMessageHandler(FILE_META, MetaHandler);
    }

    /** The frame goes to FileSender. */
    method HandSender(handler: Handler, frame: Frame)
      requires Valid() && (handler.AckHandler? || handler.FinHandler?)
      modifies manager.ctxById.Values
      ensures Valid() && receiver.View() == old(receiver.View())
      ensures manager.Snapshot()
              == (if handler.AckHandler? then SenderThreads.Acked(old(manager.Snapshot()), frame.payload)
                  else SenderThreads.Finned(old(manager.Snapshot()), frame.payload))
    {
      if handler.AckHandler? {
        manager.OnAck(frame);
      } else {
        manager.OnFin(frame);
      }
    }

    /** The frame goes to `_on_meta`. */
    method HandMeta(frame: Frame, dest: Option<string>)
      requires Valid()
      modifies receiver`ctxById, receiver`disk, receiver.box, receiver.box.handler
      ensures Valid() && manager.Snapshot() == old(manager.Snapshot())
      ensures var o := MetaAt(old(receiver.View()), frame, dest, receiver.digest);
              receiver.View() == o.node && receiver.box.posted == old(receiver.box.posted) + o.letters
    {
      receiver.OnMetaFrame(frame, dest);
    }

    /** The frame goes to `_on_data`. */
    method HandData(frame: Frame)
      requires Valid()
      modifies receiver`ctxById, receiver`disk, receiver.ctxById.Values, receiver.box, receiver.box.handler
      ensures Valid() && manager.Snapshot() == old(manager.Snapshot())
      ensures var o := DataAt(old(receiver.View()), frame, receiver.digest);
              receiver.View() == o.node && receiver.box.posted == old(receiver.box.posted) + o.letters
    {
      receiver.OnDataFrame(frame);
    }

    /** One frame of the incoming queue. */
    method DispatchFrame(frame: Frame, dest: Option<string>)
      requires Valid()
      modifies manager.ctxById.Values
      modifies receiver`ctxById, receiver`disk, receiver.ctxById.Values, receiver.box, receiver.box.handler
      ensures Valid()
      ensures var d := Dispatch(handlers, old(View()), frame, dest, receiver.digest);
              View() == d.host && receiver.box.posted == old(receiver.box.posted) + d.letters
    {
      if frame.header.messageType !in handlers {
        return;
      }
      match handlers[frame.header.messageType]
      case AckHandler => HandSender(AckHandler, frame);
      case FinHandler => HandSender(FinHandler, frame);
      case MetaHandler => HandMeta(frame, dest);
      case DataHandler => HandData(frame);
      case Other =>
    }
  }
}
