/** Frames of a file transfer on their way to the outgoing queue: FileTransferHandler and the queue it feeds. */
module Posting {
  import opened Bytes
  import opened Messages
  import opened Payloads
  import opened Frames
  import Utf8

  /** A message together with what its frame needs: the sender's transfer, or the receiver's file_id and peer. */
  datatype Letter =
    | Outward(transfer: Transfer, message: Message)
    | Reply(fileId: string, dstMac: string, message: Message)

  function Letters(t: Transfer, ms: seq<Message>): seq<Letter> {
    seq(|ms|, i requires 0 <= i < |ms| => Outward(t, ms[i]))
  }

  function Replies(fileId: string, dstMac: string, ms: seq<Message>): seq<Letter> {
    seq(|ms|, i requires 0 <= i < |ms| => Reply(fileId, dstMac, ms[i]))
  }

  function Address(l: Letter): string {
    if l.Outward? then l.transfer.dstMac else l.dstMac
  }

  function Kind(m: Message): MessageType {
    match m
    case Meta(_, _, _, _) => FILE_META
    case Data(_, _, _) => FILE_DATA
    case Ack(_) => ACK
    case Fin(_, _) => FILE_FIN
  }

  /** The payload built by get_meta_frame, get_data_chunk, _send_ack and the FIN builders. */
  function Payload(l: Letter): Bytes {
    var fileId := if l.Outward? then l.transfer.fileId else l.fileId;
    match l.message
    case Meta(_, _, _, _) => if l.Outward? then KvBytes(MetaPairs(l.transfer)) else []
    case Data(idx, total, chunk) => DataPayload(fileId, idx, total, chunk)
    case Ack(n) => Utf8.Encode(AckText(fileId, n))
    case Fin(status, reason) => KvBytes(FinPairs(fileId, status, reason))
  }

  /** get_frame */
  function MakeFrame(
      srcMac: string, ethertype: int, seqNo: nat, dstMac: string, kind: MessageType, payload: Bytes): Frame {
    Frame(dstMac, srcMac, ethertype, Header(kind, seqNo, |payload|, 0), payload)
  }

  class FileTransferHandler {
    const srcMac: string
    const ethertype: int
    var seqNo: nat

    constructor (srcMac: string, ethertype: int)
      ensures this.srcMac == srcMac && this.ethertype == ethertype && seqNo == 0
    {
      this.srcMac, this.ethertype, seqNo := srcMac, ethertype, 0;
    }

    method GetFrame(dstMac: string, kind: MessageType, payload: Bytes) returns (f: Frame)
      modifies this`seqNo
      ensures seqNo == (old(seqNo) + 1) % 0x1_0000
      ensures f == MakeFrame(srcMac, ethertype, seqNo, dstMac, kind, payload)
    {
      seqNo := (seqNo + 1) % 0x1_0000;
      f := Frame(dstMac, srcMac, ethertype, Header(kind, seqNo, |payload|, 0), payload);
    }
  }

  lemma NextNumber(n: nat)
    ensures (n % 0x1_0000 + 1) % 0x1_0000 == (n + 1) % 0x1_0000
  {
  }

  /**
   * The outgoing queue together with the handler that numbers its frames. `posted` records every letter ever queued;
   * the k-th is frame k, with sequence number k + 1 in 16 bits.
   */
  class Outbox {
    const handler: FileTransferHandler
    var frames: seq<Frame>
    ghost var posted: seq<Letter>

    ghost predicate Valid()
      reads this, handler
    {
      && |frames| == |posted|
      && handler.seqNo == |posted| % 0x1_0000
      && forall k :: 0 <= k < |frames| ==>
                       frames[k] == MakeFrame(handler.srcMac, handler.ethertype, (k + 1) % 0x1_0000,
                                              Address(posted[k]), Kind(posted[k].message), Payload(posted[k]))
    }

    constructor (srcMac: string, ethertype: int)
      ensures Valid() && fresh(handler) && posted == []
    {
      handler := new FileTransferHandler(srcMac, ethertype);
      frames := [];
      posted := [];
    }

    /** get_frame followed by queue_frame_for_sending */
    method Send(l: Letter)
      requires Valid()
      modifies this, handler
      ensures Valid() && posted == old(posted) + [l]
    {
      NextNumber(|posted|);
      var f := handler.GetFrame(Address(l), Kind(l.message), Payload(l));
      frames := frames + [f];
      posted := posted + [l];
    }
  }
}
