/** str.encode("utf-8") and the strict bytes.decode("utf-8"), by Table 3-7 of the Unicode standard. */
module Utf8 {
  import opened Bytes
  import opened Wrappers

  function EncodeChar(c: char): (bs: Bytes)
    ensures 1 <= |bs| <= 4
  {
    var n := c as int;
    if n < 0x80 then [n]
    else if n < 0x800 then [0xC0 + n / 64, 0x80 + n % 64]
    else
      var m := n / 64;
      if n < 0x1_0000 then [0xE0 + m / 64, 0x80 + m % 64, 0x80 + n % 64]
      else [0xF0 + m / 64 / 64, 0x80 + m / 64 % 64, 0x80 + m % 64, 0x80 + n % 64]
  }

  function Encode(s: string): Bytes {
    if s == "" then [] else EncodeChar(s[0]) + Encode(s[1..])
  }

  predicate Tail(b: Byte) {
    0x80 <= b < 0xC0
  }

  predicate Scalar(n: int) {
    0 <= n < 0xD800 || 0xE000 <= n < 0x11_0000
  }

  /** One more continuation byte. */
  function Shift(n: int, tail: int): int {
    n * 64 + (tail - 0x80)
  }

  /** The first character and the number of bytes it takes; None where Python raises UnicodeDecodeError. */
  function DecodeChar(bs: Bytes): (r: Option<(char, nat)>)
    requires bs != []
    ensures r.Some? ==> 1 <= r.value.1 <= |bs|
  {
    var b: int := bs[0];
    if b < 0x80 then Some((b as char, 1))
    else if 0xC2 <= b < 0xE0 && |bs| >= 2 && Tail(bs[1]) then
      Some((Shift(b - 0xC0, bs[1]) as char, 2))
    else if 0xE0 <= b < 0xF0 && |bs| >= 3 && Tail(bs[1]) && Tail(bs[2]) then
      var n := Shift(Shift(b - 0xE0, bs[1]), bs[2]);
      if n >= 0x800 && Scalar(n) then Some((n as char, 3)) else None
    else if 0xF0 <= b < 0xF5 && |bs| >= 4 && Tail(bs[1]) && Tail(bs[2]) && Tail(bs[3]) then
      var n := Shift(Shift(Shift(b - 0xF0, bs[1]), bs[2]), bs[3]);
      if n >= 0x1_0000 && Scalar(n) then Some((n as char, 4)) else None
    else None
  }

  function Decode(bs: Bytes): Option<string> {
    if bs == [] then Some("")
    else
      match DecodeChar(bs)
      case None => None
      case Some((c, k)) =>
        match Decode(bs[k..])
        case None => None
        case Some(rest) => Some([c] + rest)
  }

  lemma DecodeEncodedChar(c: char, rest: Bytes)
    ensures DecodeChar(EncodeChar(c) + rest) == Some((c, |EncodeChar(c)|))
  {
    var n := c as int;
    var m := n / 64;
    assert Shift(m, 0x80 + n % 64) == n;
    assert Shift(m / 64, 0x80 + m % 64) == m;
    assert Shift(m / 64 / 64, 0x80 + m / 64 % 64) == m / 64;
    assert Scalar(n);
  }

  lemma ShiftInverse(n: int, tail: int)
    requires 0x80 <= tail < 0xC0
    ensures Shift(n, tail) / 64 == n && Shift(n, tail) % 64 == tail - 0x80
  {
  }

  lemma EncodeDecodedChar(bs: Bytes)
    requires bs != [] && DecodeChar(bs).Some?
    ensures var (c, k) := DecodeChar(bs).value; EncodeChar(c) == bs[..k]
  {
    var b: int := bs[0];
    if b >= 0xF0 {
      ShiftInverse(b - 0xF0, bs[1]);
      ShiftInverse(Shift(b - 0xF0, bs[1]), bs[2]);
      ShiftInverse(Shift(Shift(b - 0xF0, bs[1]), bs[2]), bs[3]);
    } else if b >= 0xE0 {
      ShiftInverse(b - 0xE0, bs[1]);
      ShiftInverse(Shift(b - 0xE0, bs[1]), bs[2]);
    } else if b >= 0x80 {
      ShiftInverse(b - 0xC0, bs[1]);
    }
  }

  lemma {:induction false} RoundTrip(s: string)
    ensures Decode(Encode(s)) == Some(s)
  {
    if s != "" {
      RoundTrip(s[1..]);
      DecodeEncodedChar(s[0], Encode(s[1..]));
      assert Encode(s)[|EncodeChar(s[0])|..] == Encode(s[1..]);
      assert [s[0]] + s[1..] == s;
    }
  }

  /** Only the encoding of a string decodes to it: there are no overlong forms. */
  lemma {:induction false} DecodeIsInverse(bs: Bytes, s: string)
    ensures Decode(bs) == Some(s) <==> bs == Encode(s)
  {
    RoundTrip(s);
    if Decode(bs) == Some(s) && bs != [] {
      var (c, k) := DecodeChar(bs).value;
      EncodeDecodedChar(bs);
      DecodeIsInverse(bs[k..], s[1..]);
    }
  }

  lemma {:induction false} EncodeAppend(s: string, t: string)
    ensures Encode(s + t) == Encode(s) + Encode(t)
  {
    if s == "" {
      assert s + t == t;
    } else {
      assert (s + t)[1..] == s[1..] + t;
      EncodeAppend(s[1..], t);
    }
  }

  predicate Ascii(s: string) {
    forall i :: 0 <= i < |s| ==> s[i] < 0x80 as char
  }

  /** ASCII text takes one byte a character. */
  lemma {:induction false} EncodeAscii(s: string)
    requires Ascii(s)
    ensures |Encode(s)| == |s| && forall i :: 0 <= i < |s| ==> Encode(s)[i] == s[i] as int
  {
    if s != "" {
      EncodeAscii(s[1..]);
    }
  }

  /** The byte 10 encodes a newline and nothing else. */
  lemma {:induction false} NewlineByte(s: string)
    ensures 10 in Encode(s) <==> '\n' in s
  {
    if s != "" {
      assert s == [s[0]] + s[1..];
      NewlineByte(s[1..]);
    }
  }
}
