/**
 * From one host's outgoing queue to the other host's handlers, bytes and all: what the protocol treats as the arrival
 * of a message is what really happens when the frame built for that message is protected, sent, padded and received.
 */
module EndToEnd {
  import opened Bytes
  import opened Wrappers
  import opened Text
  import opened Messages
  import opened KeyValue
  import opened Payloads
  import opened Frames
  import opened Posting
  import opened SendWindow
  import opened ReceiveSlot
  import opened ReceiverNode
  import opened Security
  import Protocol
  import ProtocolTheorems
  import SenderNode
  import SenderThreads
  import Mac
  import Utf8
  import Reassembly

  /** The two ends of a link: canonical addresses and an EtherType in range. */
  predicate Link(dstMac: string, srcMac: string, ethertype: int) {
    Mac.Canonical(dstMac) && Mac.Canonical(srcMac) && 0 <= ethertype < 0x1_0000
  }

  function FrameFor(l: Letter, srcMac: string, ethertype: int, seqNo: nat): Frame {
    MakeFrame(srcMac, ethertype, seqNo, Address(l), Kind(l.message), Payload(l))
  }

  /** Any queued letter arrives as the very frame that was queued. */
  lemma LetterArrives(l: Letter, srcMac: string, ethertype: int, seqNo: nat, keys: Keys, nonce: Bytes, pad: Bytes)
    requires Link(Address(l), srcMac, ethertype) && seqNo < 0x1_0000
    requires |nonce| == NONCE_LEN && |Payload(l)| + EXTRA < 0x1_0000_0000
    ensures var f := FrameFor(l, srcMac, ethertype, seqNo); Transmit(keys, f, nonce, pad) == Some(f)
  {
    TransmitIff(keys, FrameFor(l, srcMac, ethertype, seqNo), nonce, pad);
  }

  predicate Nameable(t: Transfer) {
    UsableId(t.fileId) && UsableId(t.name) && UsableId(t.sha256) && CleanValue(t.relPath)
  }

  /** A META frame opens the slot as the protocol's MetaArrives does. */
  lemma MetaDelivered(
      t: Transfer, srcMac: string, ethertype: int, seqNo: nat, n: Node, dest: string, digest: Bytes -> string)
    requires Nameable(t) && t.Valid()
    ensures MetaAt(n, FrameFor(Outward(t, t.Meta()), srcMac, ethertype, seqNo), Some(dest), digest)
            == Applied(n, t.fileId, dest, OnMeta(SlotAt(n, t.fileId, dest), t.Meta(), digest), srcMac)
  {
    MetaRoundTripIff(t);
  }

  /**
   * A DATA frame is written, acknowledged and possibly committed as the protocol's DataArrives and DataCloses do,
   * and ignored where DataArrives ignores it.
   */
  lemma DataDelivered(t: Transfer, i: nat, srcMac: string, ethertype: int, seqNo: nat, n: Node, digest: Bytes -> string)
    requires UsableId(t.fileId)
    ensures var after := DataAt(n, FrameFor(Outward(t, t.Data(i)), srcMac, ethertype, seqNo), digest);
            if t.fileId in n.entries && Accepts(SlotAt(n, t.fileId, n.entries[t.fileId].dest), t.Data(i)) then
              var d := n.entries[t.fileId].dest;
              var o := OnData(SlotAt(n, t.fileId, d), t.Data(i));
              var c := OnClose(o.slot, digest);
              after == Applied(n, t.fileId, d, Outcome(c.slot, o.replies + c.replies), srcMac)
            else after == NodeOutcome(n, [])
  {
    DataRoundTripIff(t.fileId, i, t.total, Reassembly.Chunk(t.source, t.chunkSize, i));
  }

  /** An ACK frame changes the one context it names, as the protocol's AckArrives and AckApplies do. */
  lemma AckDelivered(
      m: map<string, SenderThreads.Entry>, id: string, next: int, srcMac: string, dstMac: string, ethertype: int,
      seqNo: nat)
    requires UsableId(id)
    ensures SenderThreads.Acked(m, FrameFor(Reply(id, dstMac, Ack(next)), srcMac, ethertype, seqNo).payload)
            == if id in m && !m[id].state.finished then m[id := m[id].(state := Acknowledge(m[id].state, next))] else m
  {
    AckRoundTripIff(id, next);
  }

  /** A FIN frame finishes the one context it names, as the protocol's FinArrives does. */
  lemma FinDelivered(
      m: map<string, SenderThreads.Entry>, id: string, fin: Message, srcMac: string, dstMac: string, ethertype: int,
      seqNo: nat)
    requires UsableId(id) && fin.Fin? && OneLine(fin.status) && OneLine(fin.reason)
    ensures SenderThreads.Finned(m, FrameFor(Reply(id, dstMac, fin), srcMac, ethertype, seqNo).payload)
            == if id in m then m[id := m[id].(state := m[id].state.(finished := true))] else m
  {
    FinRoundTripIff(id, fin.status, fin.reason);
  }

  /** What VisitContext does without interruption is one pass of the pump in the protocol. */
  lemma VisitIsPass(t: Transfer, digest: Bytes -> string, s: Protocol.State, now: real, clock: nat -> real)
    requires s.registered && s.pumpPc.PumpIdle?
    ensures var v := SenderNode.Visit(t, s.snd, now, clock);
            ProtocolTheorems.PumpPass(t, digest, s, now, clock)
            == s.(snd := v.state, out := s.out + v.posts, registered := !v.dropped)
  {
    var e := if s.snd.metaAcked then Service(t, s.snd, now, clock) else Effect(s.snd, []);
    assert s.out + (e.posts + [FIN_OK]) == s.out + e.posts + [FIN_OK];
    assert s.out + [] == s.out;
  }

  // Size

  /** What a protected DATA frame puts behind the Ethernet header. */
  function EthernetPayloadLength(keys: Keys, f: Frame, nonce: Bytes): Option<nat>
    requires |nonce| == NONCE_LEN
  {
    match Protect(keys, f, nonce)
    case None => None
    case Some(sent) =>
      match Create(sent)
      case None => None
      case Some(bs) => if |bs| < ETHER_LEN then None else Some(|bs| - ETHER_LEN)
  }

  /** Protection and the protocol header add 43 bytes. */
  lemma ProtectedLength(keys: Keys, f: Frame, nonce: Bytes)
    requires ShouldProtect(f.header.messageType) && Sendable(f) && |nonce| == NONCE_LEN
    requires |f.payload| + EXTRA < 0x1_0000_0000
    ensures EthernetPayloadLength(keys, f, nonce) == Some(43 + |f.payload|)
  {
    ProtectedShape(keys, f, nonce);
    var protected := Protect(keys, f, nonce);
    CreatedLength(protected.value);
    assert Create(protected.value).Some?;
  }

  lemma CreatedLength(sent: Frame)
    requires Sendable(sent) && sent.header.payloadLen == |sent.payload| < 0x1_0000_0000
    ensures Create(sent).Some? && |Create(sent).value| == OVERHEAD + |sent.payload|
  {
    ProtectedDecodes(sent, []);
    CreatedChecksum(sent);
  }

  /**
   * It is 78 bytes more than the name, the two numbers and the chunk, so a full chunk of 1200 bytes fits
   * an Ethernet frame exactly when the name and the digits of the two numbers take at most 222 bytes.
   */
  lemma DataFrameFits(t: Transfer, i: nat, srcMac: string, ethertype: int, seqNo: nat, keys: Keys, nonce: Bytes)
    requires t.fileId == FileId(t.name, t.sha256) && Hex(t.sha256) && |t.sha256| == 64
    requires Link(t.dstMac, srcMac, ethertype) && seqNo < 0x1_0000 && |nonce| == NONCE_LEN
    requires |Utf8.Encode(t.name)| + |Decimal(i)| + |Decimal(t.total)| + |t.Data(i).chunk| < 0x8000_0000
    ensures var f := FrameFor(Outward(t, t.Data(i)), srcMac, ethertype, seqNo);
            var variable := |Utf8.Encode(t.name)| + |Decimal(i)| + |Decimal(t.total)|;
            && EthernetPayloadLength(keys, f, nonce) == Some(78 + variable + |t.Data(i).chunk|)
            && (|t.Data(i).chunk| == 1200 ==>
                  (EthernetPayloadLength(keys, f, nonce).value <= 1500 <==> variable <= 222))
  {
    DataPayloadLength(t.name, t.sha256, i, t.total, t.Data(i).chunk);
    ProtectedLength(keys, FrameFor(Outward(t, t.Data(i)), srcMac, ethertype, seqNo), nonce);
  }
}
