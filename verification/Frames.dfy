/** FrameSchema and its Ethernet form: `create_ethernet_frame` and `decode_ethernet_frame`. */
module Frames {
  import opened Bytes
  import opened Wrappers
  import opened Crc32
  import Mac

  datatype MessageType =
    | DISCOVER_REQUEST | DISCOVER_REPLY | APP_MESSAGE | ACK | FILE_META | FILE_DATA | FILE_FIN
  {
    function Value(): (n: nat)
      ensures 1 <= n <= 7
    {
      match this
      case DISCOVER_REQUEST => 1
      case DISCOVER_REPLY => 2
      case APP_MESSAGE => 3
      case ACK => 4
      case FILE_META => 5
      case FILE_DATA => 6
      case FILE_FIN => 7
    }

    /** str() of the enumeration member */
    function Name(): string {
      match this
      case DISCOVER_REQUEST => "MessageType.DISCOVER_REQUEST"
      case DISCOVER_REPLY => "MessageType.DISCOVER_REPLY"
      case APP_MESSAGE => "MessageType.APP_MESSAGE"
      case ACK => "MessageType.ACK"
      case FILE_META => "MessageType.FILE_META"
      case FILE_DATA => "MessageType.FILE_DATA"
      case FILE_FIN => "MessageType.FILE_FIN"
    }
  }

  /** MessageType(n) */
  function MessageTypeOf(n: int): Option<MessageType> {
    if n == 1 then Some(DISCOVER_REQUEST)
    else if n == 2 then Some(DISCOVER_REPLY)
    else if n == 3 then Some(APP_MESSAGE)
    else if n == 4 then Some(ACK)
    else if n == 5 then Some(FILE_META)
    else if n == 6 then Some(FILE_DATA)
    else if n == 7 then Some(FILE_FIN)
    else None
  }

  datatype Header = Header(messageType: MessageType, sequence: int, payloadLen: int, checksum: int)

  datatype Frame = Frame(dstMac: string, srcMac: string, ethertype: int, header: Header, payload: Bytes)

  const ETHER_LEN := 14
  const HEADER_LEN := 14
  const OVERHEAD := ETHER_LEN + HEADER_LEN

  predicate InRange(h: Header) {
    0 <= h.sequence < 0x1_0000_0000 && 0 <= h.payloadLen < 0x1_0000_0000
  }

  /** struct.pack("!HII", ...) */
  function HeaderBytes(h: Header): (bs: Bytes)
    requires InRange(h)
    ensures |bs| == 10
  {
    U16(h.messageType.Value()) + U32(h.sequence) + U32(h.payloadLen)
  }

  function Checksum(h: Header, payload: Bytes): (n: nat)
    requires InRange(h)
    ensures n < 0x1_0000_0000
  {
    CrcWidth(HeaderBytes(h) + payload);
    Crc(HeaderBytes(h) + payload)
  }

  /** None where struct.pack or bytes.fromhex raises. */
  function Create(f: Frame): Option<Bytes> {
    var dst, src := Mac.Pack(f.dstMac), Mac.Pack(f.srcMac);
    if !InRange(f.header) || dst.None? || src.None? || f.ethertype < 0 || f.ethertype >= 0x1_0000 then None
    else
      Some(dst.value + src.value + U16(f.ethertype)
           + HeaderBytes(f.header) + U32(Checksum(f.header, f.payload)) + f.payload)
  }

  datatype Decoded = Decoded(frame: Frame) | BadStructure | BadChecksum | BadType

  function Decode(bs: Bytes): Decoded {
    if |bs| < OVERHEAD then BadStructure
    else
      var kind, sequence, payloadLen := BigEndian(bs[14..16]), BigEndian(bs[16..20]), BigEndian(bs[20..24]);
      var checksum := BigEndian(bs[24..28]);
      var payload := bs[OVERHEAD..Min(OVERHEAD + payloadLen, |bs|)];
      if Crc(bs[14..24] + payload) != checksum then BadChecksum
      else
        match MessageTypeOf(kind)
        case None => BadType
        case Some(messageType) =>
          Decoded(Frame(Mac.Format(bs[..6]), Mac.Format(bs[6..12]), BigEndian(bs[12..14]),
                        Header(messageType, sequence, payloadLen, checksum), payload))
  }

  /** The checksum is that of header and payload, as far as payload_len and the frame go. */
  predicate RightChecksum(bs: Bytes)
    requires |bs| >= 28
  {
    var n := BigEndian(bs[20..24]);
    Crc(bs[14..24] + if n <= |bs| - 28 then bs[28..28 + n] else bs[28..]) == BigEndian(bs[24..28])
  }

  /** A frame is dropped if it is shorter than its headers, if its checksum is wrong, or else if its type is unknown. */
  lemma DroppedIff(bs: Bytes)
    ensures Decode(bs) == BadStructure <==> |bs| < 28
    ensures Decode(bs) == BadChecksum <==> |bs| >= 28 && !RightChecksum(bs)
    ensures Decode(bs) == BadType <==> |bs| >= 28 && RightChecksum(bs) && !(1 <= BigEndian(bs[14..16]) <= 7)
  {
    if |bs| >= 28 {
      var n := BigEndian(bs[20..24]);
      assert bs[OVERHEAD..Min(OVERHEAD + n, |bs|)] == if n <= |bs| - 28 then bs[28..28 + n] else bs[28..];
    }
  }

  /** The text of a type, by its number. */
  lemma NameOfNumber(t: MessageType)
    ensures t.Name()
            == "MessageType." + ["DISCOVER_REQUEST", "DISCOVER_REPLY", "APP_MESSAGE", "ACK", "FILE_META", "FILE_DATA",
                                 "FILE_FIN"][t.Value() - 1]
  {
  }

  lemma HeaderReadBack(h: Header)
    requires InRange(h)
    ensures var bs := HeaderBytes(h);
            && BigEndian(bs[..2]) == h.messageType.Value()
            && BigEndian(bs[2..6]) == h.sequence
            && BigEndian(bs[6..10]) == h.payloadLen
    ensures MessageTypeOf(h.messageType.Value()) == Some(h.messageType)
  {
    var bs := HeaderBytes(h);
    U16RoundTrip(h.messageType.Value());
    U32RoundTrip(h.sequence);
    U32RoundTrip(h.payloadLen);
    assert bs[..2] == U16(h.messageType.Value()) && bs[2..6] == U32(h.sequence) && bs[6..10] == U32(h.payloadLen);
  }

  /** Where the fields of a created frame are, with anything behind it. */
  lemma Layout(f: Frame, pad: Bytes)
    requires Create(f).Some?
    ensures var bs := Create(f).value + pad;
            && |Create(f).value| == OVERHEAD + |f.payload|
            && bs[..6] == Mac.Pack(f.dstMac).value && bs[6..12] == Mac.Pack(f.srcMac).value
            && bs[12..14] == U16(f.ethertype)
            && bs[14..24] == HeaderBytes(f.header)
            && bs[24..28] == U32(Checksum(f.header, f.payload))
            && bs[28..] == f.payload + pad
  {
    U16RoundTrip(f.ethertype);
    var checksum := Checksum(f.header, f.payload);
    U32RoundTrip(checksum);
    FieldsOf(Mac.Pack(f.dstMac).value, Mac.Pack(f.srcMac).value, U16(f.ethertype), HeaderBytes(f.header),
      U32(checksum), f.payload, pad);
  }

  lemma FieldsOf(a: Bytes, b: Bytes, c: Bytes, d: Bytes, e: Bytes, payload: Bytes, pad: Bytes)
    requires |a| == 6 && |b| == 6 && |c| == 2 && |d| == 10 && |e| == 4
    ensures var bs := (a + b + c + d + e + payload) + pad;
            && |bs| == 28 + |payload| + |pad|
            && bs[..6] == a && bs[6..12] == b && bs[12..14] == c && bs[14..24] == d && bs[24..28] == e
            && bs[28..] == payload + pad
  {
  }

  /** What the receiver takes for the payload: payload_len bytes, whatever is behind them. */
  function Taken(f: Frame, pad: Bytes): Bytes
    requires f.header.payloadLen >= 0
  {
    (f.payload + pad)[..Min(f.header.payloadLen, |f.payload + pad|)]
  }

  lemma FieldsRead(f: Frame, pad: Bytes)
    requires Create(f).Some?
    ensures var bs := Create(f).value + pad;
            && |bs| >= OVERHEAD
            && BigEndian(bs[12..14]) == f.ethertype
            && BigEndian(bs[14..16]) == f.header.messageType.Value()
            && BigEndian(bs[16..20]) == f.header.sequence
            && BigEndian(bs[20..24]) == f.header.payloadLen
            && BigEndian(bs[24..28]) == Checksum(f.header, f.payload)
  {
    var bs := Create(f).value + pad;
    Layout(f, pad);
    HeaderReadBack(f.header);
    assert bs[14..16] == bs[14..24][..2] && bs[16..20] == bs[14..24][2..6] && bs[20..24] == bs[14..24][6..10];
    U16RoundTrip(f.ethertype);
    U32RoundTrip(Checksum(f.header, f.payload));
  }

  lemma PartsRead(f: Frame, pad: Bytes)
    requires Create(f).Some?
    ensures var bs := Create(f).value + pad;
            && |bs| >= OVERHEAD
            && bs[..6] == Mac.Pack(f.dstMac).value && bs[6..12] == Mac.Pack(f.srcMac).value
            && bs[14..24] == HeaderBytes(f.header)
            && bs[OVERHEAD..Min(OVERHEAD + f.header.payloadLen, |bs|)] == Taken(f, pad)
  {
    Layout(f, pad);
  }

  lemma DecodeOfCreated(f: Frame, pad: Bytes)
    requires Create(f).Some?
    ensures var checksum := Checksum(f.header, f.payload);
            Decode(Create(f).value + pad)
            == if Crc(HeaderBytes(f.header) + Taken(f, pad)) != checksum then BadChecksum
               else Decoded(Frame(Mac.Format(Mac.Pack(f.dstMac).value), Mac.Format(Mac.Pack(f.srcMac).value),
                                  f.ethertype, f.header.(checksum := checksum), Taken(f, pad)))
  {
    FieldsRead(f, pad);
    PartsRead(f, pad);
    HeaderReadBack(f.header);
  }

  /**
   * Decoding undoes creating, up to the checksum now filled in and under any trailing padding,
   * exactly when both addresses are canonical and payload_len counts the payload (or more, with no padding to take).
   */
  lemma DecodeCreateIff(f: Frame, pad: Bytes)
    requires Create(f).Some?
    ensures Decode(Create(f).value + pad) == Decoded(f.(header := f.header.(checksum := Checksum(f.header, f.payload))))
            <==> && Mac.Canonical(f.dstMac) && Mac.Canonical(f.srcMac)
                 && (f.header.payloadLen == |f.payload| || (f.header.payloadLen > |f.payload| && pad == []))
  {
    DecodeOfCreated(f, pad);
    Mac.RoundTripIff(f.dstMac);
    Mac.RoundTripIff(f.srcMac);
    if f.header.payloadLen == |f.payload| || (f.header.payloadLen > |f.payload| && pad == []) {
      assert Taken(f, pad) == f.payload;
    }
  }

  /** The bytes under the checksum, as the decoder sees them in a frame without padding. */
  function Covered(bs: Bytes): Bytes
    requires |bs| >= OVERHEAD
  {
    bs[14..24] + bs[28..]
  }

  /**
   * Corruption of a created frame in its type, sequence number or payload, within four consecutive checksummed bytes
   * and with payload_len and the checksum left alone, is always rejected.
   */
  lemma CorruptionDetected(f: Frame, damaged: Bytes, pad: Bytes, p: nat, k: nat)
    requires Create(f).Some? && f.header.payloadLen == |f.payload| && |damaged| == |Create(f).value| >= OVERHEAD
    requires damaged[20..28] == Create(f).value[20..28]
    requires var sent, got := Covered(Create(f).value), Covered(damaged);
             && k <= 4 && p + k <= |sent| == |got|
             && sent != got && sent[..p] == got[..p] && sent[p + k..] == got[p + k..]
    ensures Decode(damaged + pad) == BadChecksum
  {
    CreatedChecksum(f);
    BurstDetected(Covered(Create(f).value), Covered(damaged), p, k);
    DecodeDamaged(f, damaged, pad);
  }

  /** A created frame carries the checksum of what it covers, and its own length. */
  lemma CreatedChecksum(f: Frame)
    requires Create(f).Some?
    ensures var bs := Create(f).value;
            && |bs| == OVERHEAD + |f.payload|
            && BigEndian(bs[24..28]) == Crc(Covered(bs))
            && BigEndian(bs[20..24]) == f.header.payloadLen
  {
    var bs := Create(f).value;
    Layout(f, []);
    assert bs + [] == bs && f.payload + [] == f.payload;
    HeaderReadBack(f.header);
    U32RoundTrip(Checksum(f.header, f.payload));
    assert bs[20..24] == bs[14..24][6..10];
  }

  lemma DecodeDamaged(f: Frame, damaged: Bytes, pad: Bytes)
    requires Create(f).Some? && f.header.payloadLen == |f.payload| && |damaged| == |Create(f).value| >= OVERHEAD
    requires damaged[20..28] == Create(f).value[20..28]
    requires Crc(Covered(damaged)) != Crc(Covered(Create(f).value))
    ensures Decode(damaged + pad) == BadChecksum
  {
    var bs, all := Create(f).value, damaged + pad;
    CreatedChecksum(f);
    assert all[20..24] == damaged[20..28][..4] && bs[20..24] == bs[20..28][..4];
    assert all[24..28] == damaged[20..28][4..] && bs[24..28] == bs[20..28][4..];
    assert all[14..24] + all[OVERHEAD..OVERHEAD + |f.payload|] == Covered(damaged);
  }

  /** The first bytes of a created frame: both addresses, and the number of its type. */
  lemma HeaderStart(f: Frame)
    requires Create(f).Some?
    ensures var bs := Create(f).value;
            && |bs| >= OVERHEAD
            && bs[..6] == Mac.Pack(f.dstMac).value && bs[6..12] == Mac.Pack(f.srcMac).value
            && bs[14] == 0
            && bs[15] == match f.header.messageType
                         case DISCOVER_REQUEST => 1
                         case DISCOVER_REPLY => 2
                         case APP_MESSAGE => 3
                         case ACK => 4
                         case FILE_META => 5
                         case FILE_DATA => 6
                         case FILE_FIN => 7
  {
    var bs := Create(f).value;
    Layout(f, []);
    assert bs + [] == bs;
    assert bs[14..24][0] == bs[14] && bs[14..24][1] == bs[15];
  }
}
