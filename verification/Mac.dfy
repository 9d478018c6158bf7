/** MAC addresses as text, and as the six octets in an Ethernet header. */
module Mac {
  import opened Bytes
  import opened Wrappers

  function HexDigit(c: char): Option<nat> {
    if '0' <= c <= '9' then Some(c as int - '0' as int)
    else if 'a' <= c <= 'f' then Some(c as int - 'a' as int + 10)
    else if 'A' <= c <= 'F' then Some(c as int - 'A' as int + 10)
    else None
  }

  predicate AsciiSpace(c: char) {
    c == ' ' || 9 as char <= c <= 13 as char
  }

  /** bytes.fromhex(s): blanks between octets are skipped, None where it raises ValueError. */
  function FromHex(s: string): Option<Bytes> {
    if s == "" then Some([])
    else if AsciiSpace(s[0]) then FromHex(s[1..])
    else if |s| == 1 then None
    else
      match (HexDigit(s[0]), HexDigit(s[1]), FromHex(s[2..]))
      case (Some(hi), Some(lo), Some(rest)) => Some([16 * hi + lo] + rest)
      case _ => None
  }

  /** s.replace(":", "") */
  function WithoutColons(s: string): string {
    if s == "" then "" else (if s[0] == ':' then "" else [s[0]]) + WithoutColons(s[1..])
  }

  /** struct.pack("6s", bs): cut off or filled with zeros */
  function SixOctets(bs: Bytes): (six: Bytes)
    ensures |six| == 6
    ensures |bs| == 6 ==> six == bs
  {
    if |bs| >= 6 then bs[..6] else bs + seq(6 - |bs|, _ => 0)
  }

  function Pack(mac: string): (six: Option<Bytes>)
    ensures six.Some? ==> |six.value| == 6
  {
    match FromHex(WithoutColons(mac))
    case None => None
    case Some(bs) => Some(SixOctets(bs))
  }

  function LowerHex(n: nat): char
    requires n < 16
  {
    if n < 10 then n as char + '0' else (n - 10) as char + 'a'
  }

  /** ':'.join(f'{b:02x}' for b in bs) */
  function Format(bs: Bytes): string {
    if bs == [] then ""
    else
      var octet := [LowerHex(bs[0] / 16), LowerHex(bs[0] % 16)];
      if |bs| == 1 then octet else octet + ":" + Format(bs[1..])
  }

  predicate LowerHexDigit(c: char) {
    '0' <= c <= '9' || 'a' <= c <= 'f'
  }

  /** n two-digit lower-case octets separated by colons */
  predicate Octets(mac: string, n: nat)
    decreases n
  {
    if n == 0 then mac == ""
    else
      && |mac| >= 2 && LowerHexDigit(mac[0]) && LowerHexDigit(mac[1])
      && if n == 1 then |mac| == 2 else |mac| > 2 && mac[2] == ':' && Octets(mac[3..], n - 1)
  }

  predicate Canonical(mac: string) {
    Octets(mac, 6)
  }

  lemma {:induction false} FormatIsOctets(bs: Bytes)
    ensures Octets(Format(bs), |bs|)
  {
    if |bs| > 1 {
      FormatIsOctets(bs[1..]);
      assert Format(bs)[3..] == Format(bs[1..]);
    }
  }

  lemma HexRoundTrip(c: char)
    requires LowerHexDigit(c)
    ensures HexDigit(c).Some? && HexDigit(c).value < 16 && LowerHex(HexDigit(c).value) == c
  {
  }

  lemma {:induction false} OctetsReadBack(mac: string, n: nat)
    requires Octets(mac, n)
    ensures var bs := FromHex(WithoutColons(mac)); bs.Some? && |bs.value| == n && Format(bs.value) == mac
    decreases n
  {
    if n > 0 {
      var hi, lo := mac[0], mac[1];
      HexRoundTrip(hi);
      HexRoundTrip(lo);
      var rest := if n == 1 then "" else mac[3..];
      OctetsReadBack(rest, n - 1);
      var b := 16 * HexDigit(hi).value + HexDigit(lo).value;
      assert b / 16 == HexDigit(hi).value && b % 16 == HexDigit(lo).value;
      StripOctet(mac, rest, n);
      var tail := FromHex(WithoutColons(rest)).value;
      assert ([b] + tail)[1..] == tail;
      assert n == 1 ==> mac == [hi, lo];
      assert n > 1 ==> mac == [hi, lo] + ":" + rest;
    }
  }

  lemma StripOctet(mac: string, rest: string, n: nat)
    requires n > 0 && Octets(mac, n) && rest == if n == 1 then "" else mac[3..]
    ensures WithoutColons(mac) == [mac[0], mac[1]] + WithoutColons(rest)
  {
    assert WithoutColons(mac) == [mac[0]] + WithoutColons(mac[1..]);
    assert WithoutColons(mac[1..]) == [mac[1]] + WithoutColons(mac[1..][1..]);
    if n > 1 {
      assert mac[1..][1..][0] == ':' && mac[1..][1..][1..] == rest;
    }
  }

  /** An address comes back as it was written exactly when it was written canonically. */
  lemma RoundTripIff(mac: string)
    ensures (Pack(mac).Some? && Format(Pack(mac).value) == mac) <==> Canonical(mac)
  {
    if Canonical(mac) {
      OctetsReadBack(mac, 6);
    } else if Pack(mac).Some? {
      FormatIsOctets(Pack(mac).value);
    }
  }

  // Other spellings

  /** Capitals may be used for digits. */
  function Lowered(s: string): string {
    if s == "" then ""
    else [if 'A' <= s[0] <= 'F' then s[0] - 'A' + 'a' else s[0]] + Lowered(s[1..])
  }

  lemma {:induction false} LoweredColons(s: string)
    ensures WithoutColons(Lowered(s)) == Lowered(WithoutColons(s))
  {
    if s != "" {
      LoweredColons(s[1..]);
      assert Lowered(s)[1..] == Lowered(s[1..]);
      assert Lowered(s)[0] == ':' <==> s[0] == ':';
      var c := Lowered(s)[0];
      if s[0] == ':' {
        assert WithoutColons(Lowered(s)) == "" + WithoutColons(Lowered(s[1..]));
        assert "" + WithoutColons(Lowered(s[1..])) == WithoutColons(Lowered(s[1..]));
        assert WithoutColons(s) == "" + WithoutColons(s[1..]);
        assert "" + WithoutColons(s[1..]) == WithoutColons(s[1..]);
      } else {
        assert WithoutColons(Lowered(s)) == [c] + WithoutColons(Lowered(s[1..]));
        assert ([s[0]] + WithoutColons(s[1..]))[1..] == WithoutColons(s[1..]);
      }
    }
  }

  lemma {:induction false} LoweredHex(s: string)
    ensures FromHex(Lowered(s)) == FromHex(s)
    decreases |s|
  {
    if s != "" {
      assert Lowered(s)[1..] == Lowered(s[1..]);
      LoweredHex(s[1..]);
      if |s| > 1 {
        assert Lowered(s[1..])[1..] == Lowered(s[2..]);
        assert Lowered(s)[2..] == Lowered(s[2..]);
        LoweredHex(s[2..]);
      }
    }
  }

  /** Up to six octets are read whatever the case of their digits; octets that are missing are zeros at the end. */
  lemma ReadsOctets(mac: string, n: nat)
    requires Octets(Lowered(mac), n) && n <= 6
    ensures Pack(mac).Some? && Format(Pack(mac).value[..n]) == Lowered(mac)
    ensures forall i :: n <= i < 6 ==> Pack(mac).value[i] == 0
  {
    OctetsReadBack(Lowered(mac), n);
    LoweredColons(mac);
    LoweredHex(WithoutColons(mac));
    var bs := FromHex(WithoutColons(mac)).value;
    assert SixOctets(bs)[..n] == bs;
  }

  /** White space before an octet is skipped. */
  lemma BlankSkipped(s: string, c: char)
    requires c in " \t\n\r" || c as int == 11 || c as int == 12
    ensures FromHex([c] + s) == FromHex(s)
  {
    assert ([c] + s)[1..] == s;
  }
}
