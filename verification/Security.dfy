/** `protect_outgoing` and `accept_incoming`, and what survives the whole way from one host to the other. */
module Security {
  import opened Bytes
  import opened Wrappers
  import opened Text
  import opened KeyMaterial
  import opened Frames
  import Xor
  import Utf8
  import Mac
  import KeyValue
  import Payloads

  const NONCE_LEN := 12
  const VERSION: Byte := 1
  const TAG_LEN := 16
  const EXTRA := 1 + NONCE_LEN + TAG_LEN

  datatype Keys = Keys(hmac: Hmac, presharedKey: Bytes)

  predicate ShouldProtect(t: MessageType) {
    !t.DISCOVER_REQUEST? && !t.DISCOVER_REPLY?
  }

  /** b"enc" and b"mac" */
  const ENC: Bytes := [0x65, 0x6E, 0x63]
  const MAC: Bytes := [0x6D, 0x61, 0x63]

  function SubKey(keys: Keys, nonce: Bytes, info: Bytes): Bytes {
    Hkdf(keys.hmac, keys.presharedKey, nonce, info, 32)
  }

  /** `aad_for` */
  function Associated(f: Frame): Bytes {
    Utf8.Encode(f.srcMac + "|" + f.dstMac + "|" + IntText(f.ethertype) + "|" + f.header.messageType.Name() + "|"
      + IntText(f.header.sequence))
  }

  function XorByte(a: Byte, b: Byte): Byte {
    assert Xor.Pow2(8) == 256;
    Xor.Width(a, b, 8);
    Xor.Xor(a, b)
  }

  /** bytes(a ^ b for a, b in zip(data, stream)) */
  function XorBytes(data: Bytes, stream: Bytes): (r: Bytes)
    requires |data| == |stream|
    ensures |r| == |data|
  {
    seq(|data|, i requires 0 <= i < |data| => XorByte(data[i], stream[i]))
  }

  lemma XorBytesTwice(data: Bytes, stream: Bytes)
    requires |data| == |stream|
    ensures XorBytes(XorBytes(data, stream), stream) == data
  {
    forall i | 0 <= i < |data|
      ensures XorByte(XorByte(data[i], stream[i]), stream[i]) == data[i]
    {
      Xor.Cancel(data[i], stream[i]);
    }
  }

  function Tag(keys: Keys, f: Frame, nonce: Bytes, ciphertext: Bytes): (tag: Bytes)
    ensures |tag| == TAG_LEN
  {
    keys.hmac(SubKey(keys, nonce, MAC), Associated(f) + nonce + ciphertext)[..TAG_LEN]
  }

  /** `protect_outgoing` with the nonce it draws; None where the key stream cannot be that long. */
  function Protect(keys: Keys, f: Frame, nonce: Bytes): Option<Frame>
    requires |nonce| == NONCE_LEN
  {
    if !ShouldProtect(f.header.messageType) then Some(f)
    else if |f.payload| > STREAM_MAX then None
    else
      var stream := Stream(keys.hmac, SubKey(keys, nonce, ENC), nonce, |f.payload|);
      var ciphertext := XorBytes(f.payload, stream);
      var payload := [VERSION] + nonce + ciphertext + Tag(keys, f, nonce, ciphertext);
      Some(Frame(f.dstMac, f.srcMac, f.ethertype, Header(f.header.messageType, f.header.sequence, |payload|, 0),
        payload))
  }

  /** `accept_incoming`: None where the frame is dropped. */
  function Accept(keys: Keys, f: Frame): Option<Frame> {
    if !ShouldProtect(f.header.messageType) then Some(f)
    else
      var data := f.payload;
      if |data| < EXTRA || data[0] != VERSION || |data| - EXTRA > STREAM_MAX then None
      else
        var nonce := data[1..1 + NONCE_LEN];
        var tag := data[|data| - TAG_LEN..];
        var ciphertext := data[1 + NONCE_LEN..|data| - TAG_LEN];
        if tag != Tag(keys, f, nonce, ciphertext) then None
        else
          var stream := Stream(keys.hmac, SubKey(keys, nonce, ENC), nonce, |ciphertext|);
          var payload := XorBytes(ciphertext, stream);
          Some(Frame(f.dstMac, f.srcMac, f.ethertype, Header(f.header.messageType, f.header.sequence, |payload|, 0),
            payload))
  }

  lemma ProtectedShape(keys: Keys, f: Frame, nonce: Bytes)
    requires |nonce| == NONCE_LEN && ShouldProtect(f.header.messageType)
    requires |f.payload| <= STREAM_MAX
    ensures Protect(keys, f, nonce).Some?
    ensures var sent := Protect(keys, f, nonce).value;
            && sent.dstMac == f.dstMac && sent.srcMac == f.srcMac && sent.ethertype == f.ethertype
            && sent.header == Header(f.header.messageType, f.header.sequence, |sent.payload|, 0)
            && |sent.payload| == |f.payload| + EXTRA
  {
  }

  /** Acceptance undoes protection, for every key, every nonce and every payload. */
  lemma AcceptProtected(keys: Keys, f: Frame, nonce: Bytes, checksum: int)
    requires |nonce| == NONCE_LEN && ShouldProtect(f.header.messageType)
    requires |f.payload| <= STREAM_MAX
    ensures var sent := Protect(keys, f, nonce).value;
            && |sent.payload| == |f.payload| + EXTRA
            && Accept(keys, sent.(header := sent.header.(checksum := checksum)))
               == Some(f.(header := Header(f.header.messageType, f.header.sequence, |f.payload|, 0)))
  {
    var sent := Protect(keys, f, nonce).value;
    var stream := Stream(keys.hmac, SubKey(keys, nonce, ENC), nonce, |f.payload|);
    var ciphertext := XorBytes(f.payload, stream);
    var data := sent.payload;
    assert data[1..1 + NONCE_LEN] == nonce;
    assert data[1 + NONCE_LEN..|data| - TAG_LEN] == ciphertext;
    assert data[|data| - TAG_LEN..] == Tag(keys, f, nonce, ciphertext);
    XorBytesTwice(f.payload, stream);
  }

  // The whole way

  /** From the outgoing queue of one host to the incoming queue of the other, with padding added on the wire. */
  function Transmit(keys: Keys, f: Frame, nonce: Bytes, pad: Bytes): Option<Frame>
    requires |nonce| == NONCE_LEN
  {
    match Protect(keys, f, nonce)
    case None => None
    case Some(sent) =>
      match Create(sent)
      case None => None
      case Some(bs) =>
        match Decode(bs + pad)
        case Decoded(got) => Accept(keys, got)
        case _ => None
  }

  /** What a caller can check about the addresses and numbers before queueing a frame. */
  predicate Sendable(f: Frame) {
    && Mac.Canonical(f.dstMac) && Mac.Canonical(f.srcMac)
    && 0 <= f.ethertype < 0x1_0000
    && 0 <= f.header.sequence < 0x1_0000_0000
  }

  /** What has been accepted has canonical addresses, no checksum, and counts its payload. */
  lemma TransmittedShape(keys: Keys, f: Frame, nonce: Bytes, pad: Bytes)
    requires |nonce| == NONCE_LEN && ShouldProtect(f.header.messageType)
    requires Transmit(keys, f, nonce, pad).Some?
    ensures var r := Transmit(keys, f, nonce, pad).value;
            && Mac.Canonical(r.dstMac) && Mac.Canonical(r.srcMac)
            && r.header.checksum == 0 && r.header.payloadLen == |r.payload|
    ensures 0 <= f.ethertype < 0x1_0000 && 0 <= f.header.sequence < 0x1_0000_0000
    ensures |f.payload| + EXTRA < 0x1_0000_0000
  {
    var sent := Protect(keys, f, nonce).value;
    DecodeOfCreated(sent, pad);
    Mac.FormatIsOctets(Mac.Pack(sent.dstMac).value);
    Mac.FormatIsOctets(Mac.Pack(sent.srcMac).value);
  }

  lemma TransmitArrives(keys: Keys, f: Frame, nonce: Bytes, pad: Bytes)
    requires |nonce| == NONCE_LEN && ShouldProtect(f.header.messageType)
    requires Sendable(f) && f.header.payloadLen == |f.payload| && f.header.checksum == 0
    requires |f.payload| + EXTRA < 0x1_0000_0000
    ensures Transmit(keys, f, nonce, pad) == Some(f)
  {
    var sent := Protect(keys, f, nonce).value;
    ProtectedShape(keys, f, nonce);
    ProtectedDecodes(sent, pad);
    AcceptProtected(keys, f, nonce, Checksum(sent.header, sent.payload));
  }

  lemma ProtectedDecodes(sent: Frame, pad: Bytes)
    requires Sendable(sent) && sent.header.payloadLen == |sent.payload| < 0x1_0000_0000
    ensures Create(sent).Some?
    ensures Decode(Create(sent).value + pad)
            == Decoded(sent.(header := sent.header.(checksum := Checksum(sent.header, sent.payload))))
  {
    Mac.RoundTripIff(sent.dstMac);
    Mac.RoundTripIff(sent.srcMac);
    DecodeCreateIff(sent, pad);
  }

  /**
   * A protected frame arrives as it was queued, for every key, nonce and padding, exactly when its addresses are
   * canonical, its numbers fit their fields, payload_len counts the payload and no checksum had been filled in.
   */
  lemma TransmitIff(keys: Keys, f: Frame, nonce: Bytes, pad: Bytes)
    requires |nonce| == NONCE_LEN && ShouldProtect(f.header.messageType)
    ensures Transmit(keys, f, nonce, pad) == Some(f)
            <==> && Sendable(f) && f.header.payloadLen == |f.payload| && f.header.checksum == 0
                 && |f.payload| + EXTRA < 0x1_0000_0000
  {
    if Sendable(f) && f.header.payloadLen == |f.payload| && f.header.checksum == 0
      && |f.payload| + EXTRA < 0x1_0000_0000 {
      TransmitArrives(keys, f, nonce, pad);
    } else if Transmit(keys, f, nonce, pad) == Some(f) {
      TransmittedShape(keys, f, nonce, pad);
    }
  }

  /** A discovery frame travels in the clear and comes back with its checksum filled in, under the same conditions. */
  lemma TransmitDiscoveryIff(keys: Keys, f: Frame, nonce: Bytes, pad: Bytes)
    requires |nonce| == NONCE_LEN && !ShouldProtect(f.header.messageType)
    ensures (&& Create(f).Some?
             && Transmit(keys, f, nonce, pad)
                == Some(f.(header := f.header.(checksum := Checksum(f.header, f.payload)))))
            <==> && Sendable(f) && f.header.payloadLen < 0x1_0000_0000
                 && (f.header.payloadLen == |f.payload| || (f.header.payloadLen > |f.payload| && pad == []))
  {
    if Mac.Canonical(f.dstMac) && Mac.Canonical(f.srcMac) {
      CreatableIff(f);
    }
    if Create(f).Some? {
      DecodeCreateIff(f, pad);
      ClearPassage(keys, f, nonce, pad);
    }
  }

  /** With canonical addresses a frame can be created exactly when its numbers fit their fields. */
  lemma CreatableIff(f: Frame)
    requires Mac.Canonical(f.dstMac) && Mac.Canonical(f.srcMac)
    ensures Create(f).Some? <==> InRange(f.header) && 0 <= f.ethertype < 0x1_0000
  {
    Mac.RoundTripIff(f.dstMac);
    Mac.RoundTripIff(f.srcMac);
  }

  /** A discovery frame arrives as it is decoded. */
  lemma ClearPassage(keys: Keys, f: Frame, nonce: Bytes, pad: Bytes)
    requires |nonce| == NONCE_LEN && !ShouldProtect(f.header.messageType) && Create(f).Some?
    ensures var d := Decode(Create(f).value + pad);
            Transmit(keys, f, nonce, pad) == if d.Decoded? then Some(d.frame) else None
  {
    DecodeOfCreated(f, pad);
  }

  // What is accepted

  /** The header with payload_len as it should be and no checksum. */
  function Counted(f: Frame): Frame {
    f.(header := f.header.(payloadLen := |f.payload|, checksum := 0))
  }

  lemma Unmasked(keys: Keys, g: Frame, f: Frame)
    requires ShouldProtect(g.header.messageType) && Accept(keys, g) == Some(f)
    ensures |g.payload| >= EXTRA && |f.payload| == |g.payload| - EXTRA <= STREAM_MAX
    ensures f == Counted(f) && Protect(keys, f, g.payload[1..13]) == Some(Counted(g))
  {
    var data := g.payload;
    var nonce, ciphertext := data[1..13], data[13..|data| - TAG_LEN];
    var stream := Stream(keys.hmac, SubKey(keys, nonce, ENC), nonce, |ciphertext|);
    XorBytesTwice(ciphertext, stream);
    assert Associated(f) == Associated(g);
    assert data == [VERSION] + nonce + ciphertext + Tag(keys, g, nonce, ciphertext);
  }

  /**
   * A frame is accepted as f exactly if it is what protecting f gives with some nonce: whatever lacks the version, the
   * tag, or the length for them, is dropped. Its payload_len and checksum do not matter any more.
   */
  lemma AcceptedIff(keys: Keys, g: Frame, f: Frame)
    requires !g.header.messageType.DISCOVER_REQUEST? && !g.header.messageType.DISCOVER_REPLY?
    ensures Accept(keys, g) == Some(f)
            <==> f == Counted(f) && exists nonce: Bytes :: |nonce| == 12 && Protect(keys, f, nonce) == Some(Counted(g))
  {
    if Accept(keys, g) == Some(f) {
      Unmasked(keys, g, f);
      assert |g.payload[1..13]| == 12;
    } else if f == Counted(f) && exists nonce: Bytes :: |nonce| == 12 && Protect(keys, f, nonce) == Some(Counted(g)) {
      var nonce: Bytes :| |nonce| == 12 && Protect(keys, f, nonce) == Some(Counted(g));
      AcceptAny(keys, f, nonce, g);
    }
  }

  lemma AcceptAny(keys: Keys, f: Frame, nonce: Bytes, g: Frame)
    requires |nonce| == NONCE_LEN && ShouldProtect(g.header.messageType)
    requires f == Counted(f) && Protect(keys, f, nonce) == Some(Counted(g))
    ensures Accept(keys, g) == Some(f)
  {
    AcceptProtected(keys, f, nonce, g.header.checksum);
    var h := Counted(g).(header := Counted(g).header.(checksum := g.header.checksum));
    assert Accept(keys, h) == Some(f);
    assert Associated(g) == Associated(h);
  }

  /** Exactly the discovery frames travel, and are accepted, as they are. */
  lemma ClearIff(keys: Keys, f: Frame, nonce: Bytes)
    requires |nonce| == 12
    ensures Protect(keys, f, nonce) == Some(f)
            <==> f.header.messageType.DISCOVER_REQUEST? || f.header.messageType.DISCOVER_REPLY?
    ensures Accept(keys, f) == Some(f)
            <==> f.header.messageType.DISCOVER_REQUEST? || f.header.messageType.DISCOVER_REPLY?
  {
  }

  // What a protected frame looks like

  /** Byte by byte, what travels behind the header: version 1, the nonce, the masked payload, and 16 bytes of HMAC. */
  lemma ProtectedLayout(keys: Keys, f: Frame, nonce: Bytes)
    requires |nonce| == 12 && !f.header.messageType.DISCOVER_REQUEST? && !f.header.messageType.DISCOVER_REPLY?
    requires |f.payload| <= STREAM_MAX
    ensures Protect(keys, f, nonce).Some?
    ensures var data := Protect(keys, f, nonce).value.payload;
            var n := |f.payload|;
            && |data| == n + 29 && data[0] == 1 && data[1..13] == nonce
            && (forall i :: 0 <= i < n ==> data[13 + i] == Xor.Xor(f.payload[i], Mask(keys, nonce, n)[i]))
            && data[13 + n..] == Authenticator(keys, f, nonce, data[13..13 + n])
  {
    var data := Protect(keys, f, nonce).value.payload;
    var n := |f.payload|;
    Subkeys(keys, nonce);
    var ciphertext := XorBytes(f.payload, Mask(keys, nonce, n));
    assert data == [1] + nonce + ciphertext + Tag(keys, f, nonce, ciphertext);
    assert data[13..13 + n] == ciphertext;
  }

  /** The key stream: blocks of HMAC under the key derived with "enc". */
  function Mask(keys: Keys, nonce: Bytes, n: nat): (mask: Bytes)
    requires nonce != [] && n <= STREAM_MAX
    ensures |mask| == n
  {
    Stream(keys.hmac, keys.hmac(keys.hmac(nonce, keys.presharedKey), Utf8.Encode("enc") + [1]), nonce, n)
  }

  /** Half of an HMAC under the key derived with "mac", over header, nonce and ciphertext. */
  function Authenticator(keys: Keys, f: Frame, nonce: Bytes, ciphertext: Bytes): Bytes
    requires nonce != []
  {
    keys.hmac(keys.hmac(keys.hmac(nonce, keys.presharedKey), Utf8.Encode("mac") + [1]),
              Associated(f) + nonce + ciphertext)[..16]
  }

  lemma Subkeys(keys: Keys, nonce: Bytes)
    requires nonce != []
    ensures SubKey(keys, nonce, ENC) == keys.hmac(keys.hmac(nonce, keys.presharedKey), Utf8.Encode("enc") + [1])
    ensures SubKey(keys, nonce, MAC) == keys.hmac(keys.hmac(nonce, keys.presharedKey), Utf8.Encode("mac") + [1])
  {
    HkdfKey(keys.hmac, keys.presharedKey, nonce, ENC);
    HkdfKey(keys.hmac, keys.presharedKey, nonce, MAC);
    Labels();
  }

  lemma Labels()
    ensures Utf8.Encode("enc") == ENC && Utf8.Encode("mac") == MAC
  {
    Utf8.EncodeAscii("enc");
    Utf8.EncodeAscii("mac");
    assert "enc" == ['e', 'n', 'c'] && "mac" == ['m', 'a', 'c'];
    assert 'e' as int == 0x65 && 'n' as int == 0x6E && 'c' as int == 0x63 && 'm' as int == 0x6D && 'a' as int == 0x61;
  }

  // What is authenticated

  lemma FirstBar(a: string, b: string, a': string, b': string)
    requires '|' !in a && '|' !in a' && a + ['|'] + b == a' + ['|'] + b'
    ensures a == a' && b == b'
  {
    var s := a + ['|'] + b;
    KeyValue.FindAfter(a, '|', b);
    KeyValue.FindAfter(a', '|', b');
    assert a == s[..|a|] && a' == s[..|a|];
    assert b == s[|a| + 1..] && b' == s[|a| + 1..];
  }

  lemma {:induction false} OctetsNoBar(mac: string, n: nat)
    requires Mac.Octets(mac, n)
    ensures '|' !in mac
    decreases n
  {
    if n > 1 {
      OctetsNoBar(mac[3..], n - 1);
      assert mac == mac[..3] + mac[3..];
    }
  }

  lemma NumberNoBar(n: int)
    ensures '|' !in IntText(n)
  {
  }

  lemma NameNoBar(t: MessageType)
    ensures '|' !in t.Name()
  {
  }

  lemma NamesDiffer(t: MessageType, t': MessageType)
    ensures t.Name() == t'.Name() <==> t == t'
  {
  }

  /** The text that is authenticated with a frame, field by field. */
  function Fields(f: Frame): string {
    f.srcMac + ['|'] + (f.dstMac + ['|'] + (IntText(f.ethertype) + ['|']
      + (f.header.messageType.Name() + ['|'] + IntText(f.header.sequence))))
  }

  lemma AssociatedFields(f: Frame)
    ensures Associated(f) == Utf8.Encode(Fields(f))
  {
    Regroup(f.srcMac, f.dstMac, IntText(f.ethertype), f.header.messageType.Name(), IntText(f.header.sequence));
  }

  lemma Regroup(a: string, b: string, c: string, d: string, e: string)
    ensures a + "|" + b + "|" + c + "|" + d + "|" + e
            == a + ['|'] + (b + ['|'] + (c + ['|'] + (d + ['|'] + e)))
  {
  }

  /**
   * Two frames with canonical addresses have the same authenticated text exactly if they agree in addresses, EtherType,
   * type and sequence number: each of these is covered.
   */
  lemma AssociatedIff(f: Frame, g: Frame)
    requires Mac.Canonical(f.dstMac) && Mac.Canonical(f.srcMac) && Mac.Canonical(g.dstMac) && Mac.Canonical(g.srcMac)
    ensures Associated(f) == Associated(g)
            <==> && f.srcMac == g.srcMac && f.dstMac == g.dstMac && f.ethertype == g.ethertype
                 && f.header.messageType == g.header.messageType && f.header.sequence == g.header.sequence
  {
    AssociatedFields(f);
    AssociatedFields(g);
    if Associated(f) == Associated(g) {
      Utf8.RoundTrip(Fields(f));
      Utf8.RoundTrip(Fields(g));
      SameFields(f, g);
    }
  }

  lemma SameFields(f: Frame, g: Frame)
    requires Mac.Canonical(f.dstMac) && Mac.Canonical(f.srcMac) && Mac.Canonical(g.dstMac) && Mac.Canonical(g.srcMac)
    requires Fields(f) == Fields(g)
    ensures f.srcMac == g.srcMac && f.dstMac == g.dstMac && f.ethertype == g.ethertype
    ensures f.header.messageType == g.header.messageType && f.header.sequence == g.header.sequence
  {
    OctetsNoBar(f.srcMac, 6);
    OctetsNoBar(g.srcMac, 6);
    OctetsNoBar(f.dstMac, 6);
    OctetsNoBar(g.dstMac, 6);
    SplitFields(f.srcMac, f.dstMac, f.ethertype, f.header.messageType, f.header.sequence,
                g.srcMac, g.dstMac, g.ethertype, g.header.messageType, g.header.sequence);
  }

  lemma SplitFields(src: string, dst: string, e: int, t: MessageType, n: int,
                    src': string, dst': string, e': int, t': MessageType, n': int)
    requires '|' !in src && '|' !in src' && '|' !in dst && '|' !in dst'
    requires src + ['|'] + (dst + ['|'] + (IntText(e) + ['|'] + (t.Name() + ['|'] + IntText(n))))
             == src' + ['|'] + (dst' + ['|'] + (IntText(e') + ['|'] + (t'.Name() + ['|'] + IntText(n'))))
    ensures src == src' && dst == dst' && e == e' && t == t' && n == n'
  {
    var d, d' := t.Name() + ['|'] + IntText(n), t'.Name() + ['|'] + IntText(n');
    var c, c' := IntText(e) + ['|'] + d, IntText(e') + ['|'] + d';
    FirstBar(src, dst + ['|'] + c, src', dst' + ['|'] + c');
    FirstBar(dst, c, dst', c');
    NumberNoBar(e);
    NumberNoBar(e');
    FirstBar(IntText(e), d, IntText(e'), d');
    NameNoBar(t);
    NameNoBar(t');
    FirstBar(t.Name(), IntText(n), t'.Name(), IntText(n'));
    NamesDiffer(t, t');
    Payloads.IntTextClean(e);
    Payloads.IntTextClean(e');
    Payloads.IntTextClean(n);
    Payloads.IntTextClean(n');
  }
}
