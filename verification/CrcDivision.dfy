/**
 * CRC-32 against its definition: what is left of the message, as a polynomial over GF(2), on division by the
 * generator. Polynomials are bit sequences with the highest coefficient first; a byte is sent from its lowest bit.
 */
module CrcDivision {
  import opened Bytes
  import opened Xor
  import opened Crc32

  type Poly = seq<bool>

  /** The exponents of x in the generator polynomial of section 8 of RFC 1952. */
  predicate Term(e: int) {
    || e == 32 || e == 26 || e == 23 || e == 22 || e == 16 || e == 12 || e == 11 || e == 10
    || e == 8 || e == 7 || e == 5 || e == 4 || e == 2 || e == 1 || e == 0
  }

  function Generator(): (g: Poly)
    ensures |g| == 33 && forall i :: 0 <= i < 33 ==> g[i] == Term(32 - i)
  {
    seq(33, i => Term(32 - i))
  }

  function Repeat(b: bool, n: nat): (r: Poly)
    ensures |r| == n && forall i :: 0 <= i < n ==> r[i] == b
  {
    seq(n, _ => b)
  }

  function Add(p: Poly, q: Poly): (r: Poly)
    requires |p| == |q|
    ensures |r| == |p| && forall i :: 0 <= i < |r| ==> r[i] == (p[i] != q[i])
  {
    seq(|p|, i requires 0 <= i < |p| => p[i] != q[i])
  }

  /** The generator or zero. */
  function Once(b: bool): (r: Poly)
    ensures |r| == 33 && r[0] == b
  {
    if b then Generator() else Repeat(false, 33)
  }

  /** The product of a polynomial and the generator. */
  function Times(q: Poly): (r: Poly)
    ensures |r| == |q| + 32
  {
    if q == [] then Repeat(false, 32)
    else Add(Once(q[0]) + Repeat(false, |q| - 1), [false] + Times(q[1..]))
  }

  /** The bits of a number, the lowest first. */
  function BitsOf(n: nat, width: nat): (r: Poly)
    ensures |r| == width
    decreases width, n
  {
    if width == 0 then [] else [n % 2 == 1] + BitsOf(n / 2, width - 1)
  }

  /** The bits of a message in the order in which they are sent. */
  function MessageBits(data: Bytes): (r: Poly)
    ensures |r| == 8 * |data|
  {
    if data == [] then [] else BitsOf(data[0], 8) + MessageBits(data[1..])
  }

  /** The message, preset with ones, in front of 32 zeros. */
  function Dividend(data: Bytes): (r: Poly)
    ensures |r| == 8 * |data| + 32
  {
    Add(MessageBits(data) + Repeat(false, 32), Repeat(true, 32) + Repeat(false, 8 * |data|))
  }

  /** A 32-bit number leaves the same remainder as the message, complemented. */
  ghost predicate IsChecksum(data: Bytes, n: nat) {
    && n < 0x1_0000_0000
    && exists q: Poly :: && |q| == 8 * |data|
                         && Dividend(data) == Add(Times(q), Repeat(false, |q|) + Complement(BitsOf(n, 32)))
  }

  function Complement(p: Poly): (r: Poly)
    ensures |r| == |p|
  {
    Add(p, Repeat(true, |p|))
  }

  // Numbers as polynomials

  lemma {:induction false} BitsOfXor(a: nat, b: nat, width: nat)
    ensures BitsOf(Xor.Xor(a, b), width) == Add(BitsOf(a, width), BitsOf(b, width))
  {
    if width != 0 {
      Unfold(a, b);
      BitsOfXor(a / 2, b / 2, width - 1);
    }
  }

  lemma {:induction false} BitsOfSmall(n: nat, k: nat, width: nat)
    requires n < Pow2(k) && k <= width
    ensures BitsOf(n, width) == BitsOf(n, k) + Repeat(false, width - k)
  {
    if k == 0 {
      ZeroBits(width);
    } else {
      BitsOfSmall(n / 2, k - 1, width - 1);
    }
  }

  lemma {:induction false} ZeroBits(width: nat)
    ensures BitsOf(0, width) == Repeat(false, width)
  {
    if width != 0 {
      ZeroBits(width - 1);
    }
  }

  lemma {:induction false} BitsOfInjective(a: nat, b: nat, width: nat)
    requires a < Pow2(width) && b < Pow2(width) && BitsOf(a, width) == BitsOf(b, width)
    ensures a == b
  {
    if width != 0 {
      assert BitsOf(a, width)[0] == (a % 2 == 1) && BitsOf(b, width)[0] == (b % 2 == 1);
      assert BitsOf(a, width)[1..] == BitsOf(a / 2, width - 1) && BitsOf(b, width)[1..] == BitsOf(b / 2, width - 1);
      BitsOfInjective(a / 2, b / 2, width - 1);
    }
  }

  lemma {:induction false} BitsOfShifted(a: nat, b: nat, k: nat, width: nat)
    requires a < Pow2(k) && k <= width
    ensures BitsOf(a + b * Pow2(k), width) == BitsOf(a, k) + BitsOf(b, width - k)
  {
    if k == 0 {
    } else {
      var v := b * Pow2(k - 1);
      assert b * Pow2(k) == 2 * v;
      BitsOfShifted(a / 2, b, k - 1, width - 1);
      assert (a + 2 * v) / 2 == a / 2 + v && (a + 2 * v) % 2 == a % 2;
    }
  }

  lemma {:induction false} WordBits(data: Bytes)
    ensures BitsOf(Word(data), 8 * |data|) == MessageBits(data)
  {
    if data != [] {
      WordBits(data[1..]);
      assert Pow2(8) == 256;
      BitsOfShifted(data[0], Word(data[1..]), 8, 8 * |data|);
    }
  }

  /** The constant of the program is the generator without its highest term, in the order of the register. */
  lemma PolynomialBits()
    ensures BitsOf(POLYNOMIAL, 32) == Generator()[1..]
  {
    FourBytes(0x20, 0x83, 0xB8, 0xED, 0xEDB883, 0xEDB8);
    Quarter0();
    Quarter1();
    Quarter2();
    Quarter3();
    InQuarters(Generator()[1..]);
  }

  lemma TwoBytes(a: Byte, b: Byte)
    ensures BitsOf(a + 256 * b, 16) == BitsOf(a, 8) + BitsOf(b, 8)
  {
    OneByte(a, b, 8);
  }

  lemma FourBytes(a: Byte, b: Byte, c: Byte, d: Byte, n: nat, m: nat)
    requires n == b + 256 * m && m == c + 256 * d
    ensures BitsOf(a + 256 * n, 32) == BitsOf(a, 8) + (BitsOf(b, 8) + (BitsOf(c, 8) + BitsOf(d, 8)))
  {
    calc {
      BitsOf(a + 256 * n, 32);
      { OneByte(a, n, 24); }
      BitsOf(a, 8) + BitsOf(n, 24);
      { OneByte(b, m, 16); }
      BitsOf(a, 8) + (BitsOf(b, 8) + BitsOf(m, 16));
      { TwoBytes(c, d); }
      BitsOf(a, 8) + (BitsOf(b, 8) + (BitsOf(c, 8) + BitsOf(d, 8)));
    }
  }

  lemma Halves(g: Poly, k: nat)
    requires k <= |g|
    ensures g == g[..k] + g[k..]
  {
  }

  lemma InQuarters(g: Poly)
    requires |g| == 32
    ensures g == g[0..8] + (g[8..16] + (g[16..24] + g[24..32]))
  {
    Halves(g, 8);
    Halves(g[8..], 8);
    Halves(g[8..][8..], 8);
    assert g[8..][..8] == g[8..16] && g[8..][8..][..8] == g[16..24] && g[8..][8..][8..] == g[24..32];
  }

  lemma OneByte(b: Byte, n: nat, width: nat)
    ensures BitsOf(b + 256 * n, 8 + width) == BitsOf(b, 8) + BitsOf(n, width)
  {
    assert Pow2(8) == 256;
    BitsOfShifted(b, n, 8, 8 + width);
  }

  lemma Eight(g: Poly, k: nat)
    requires k + 8 < |g|
    ensures g[1..][k..k + 8]
            == [g[k + 1], g[k + 2], g[k + 3], g[k + 4], g[k + 5], g[k + 6], g[k + 7], g[k + 8]]
  {
  }

  lemma Quarter0()
    ensures BitsOf(0x20, 8) == Generator()[1..][0..8]
  {
    assert BitsOf(0x20, 8) == [false, false, false, false, false, true, false, false];
    Eight(Generator(), 0);
  }

  lemma Quarter1()
    ensures BitsOf(0x83, 8) == Generator()[1..][8..16]
  {
    assert BitsOf(0x83, 8) == [true, true, false, false, false, false, false, true];
    Eight(Generator(), 8);
  }

  lemma Quarter2()
    ensures BitsOf(0xB8, 8) == Generator()[1..][16..24]
  {
    assert BitsOf(0xB8, 8) == [false, false, false, true, true, true, false, true];
    Eight(Generator(), 16);
  }

  lemma Quarter3()
    ensures BitsOf(0xED, 8) == Generator()[1..][24..32]
  {
    assert BitsOf(0xED, 8) == [true, false, true, true, false, true, true, true];
    Eight(Generator(), 24);
  }

  // Division

  /** One bit through the register subtracts the generator if the bit is set. */
  lemma StepDivides(c: nat, n: nat)
    ensures BitsOf(c, n + 33)
            == Add(Once(c % 2 == 1) + Repeat(false, n), [false] + BitsOf(Bit(c), n + 32))
  {
    var rest := BitsOf(c / 2, n + 32);
    if c % 2 == 1 {
      BitsOfXor(POLYNOMIAL, c / 2, n + 32);
      PolynomialWide(n);
    }
    assert BitsOf(c, n + 33) == [c % 2 == 1] + rest;
  }

  lemma PolynomialWide(n: nat)
    ensures [true] + BitsOf(POLYNOMIAL, n + 32) == Generator() + Repeat(false, n)
  {
    Width32();
    BitsOfSmall(POLYNOMIAL, 32, n + 32);
    PolynomialBits();
    assert Generator() == [true] + Generator()[1..];
  }

  /** The bits that fall out of the register, in order, are the quotient. */
  function Quotient(c: nat, n: nat): (q: Poly)
    ensures |q| == n
    decreases n
  {
    if n == 0 then [] else [c % 2 == 1] + Quotient(Bit(c), n - 1)
  }

  lemma {:induction false} StepsDivide(c: nat, n: nat)
    ensures BitsOf(c, n + 32) == Add(Times(Quotient(c, n)), Repeat(false, n) + BitsOf(Bits(c, n), 32))
    decreases n
  {
    if n == 0 {
      assert Times([]) == Repeat(false, 32);
    } else {
      StepsDivide(Bit(c), n - 1);
      OneMoreStep(c, n - 1, Quotient(Bit(c), n - 1), BitsOf(Bits(c, n), 32));
      QuotientStep(c, n);
    }
  }

  lemma OneMoreStep(c: nat, n: nat, q: Poly, r: Poly)
    requires |q| == n && |r| == 32 && BitsOf(Bit(c), n + 32) == Add(Times(q), Repeat(false, n) + r)
    ensures BitsOf(c, n + 33) == Add(Times([c % 2 == 1] + q), Repeat(false, n + 1) + r)
  {
    var b := c % 2 == 1;
    var front, zeros := Once(b) + Repeat(false, n), Repeat(false, n);
    calc {
      BitsOf(c, n + 33);
      { StepDivides(c, n); }
      Add(front, [false] + Add(Times(q), zeros + r));
      { AddAssociates(front, Times(q), zeros + r); }
      Add(Add(front, [false] + Times(q)), [false] + (zeros + r));
      { TimesStep(b, q); ZerosStep(n, r); }
      Add(Times([b] + q), Repeat(false, n + 1) + r);
    }
  }

  lemma QuotientStep(c: nat, n: nat)
    requires n > 0
    ensures Quotient(c, n) == [c % 2 == 1] + Quotient(Bit(c), n - 1)
  {
  }

  lemma TimesStep(b: bool, q: Poly)
    ensures Times([b] + q) == Add(Once(b) + Repeat(false, |q|), [false] + Times(q))
  {
    var p := [b] + q;
    assert p[0] == b && p[1..] == q && |p| - 1 == |q|;
    assert Times(p) == Add(Once(p[0]) + Repeat(false, |p| - 1), [false] + Times(p[1..]));
  }

  lemma ZerosStep(n: nat, r: Poly)
    ensures [false] + (Repeat(false, n) + r) == Repeat(false, n + 1) + r
  {
  }

  lemma AddAssociates(a: Poly, b: Poly, c: Poly)
    requires |a| == |b| + 1 && |b| == |c|
    ensures Add(a, [false] + Add(b, c)) == Add(Add(a, [false] + b), [false] + c)
  {
  }

  lemma AddCommutes(a: Poly, b: Poly)
    requires |a| == |b|
    ensures Add(a, b) == Add(b, a)
  {
  }

  /** The message as one number. */
  lemma AsNumber(data: Bytes) returns (w: nat)
    ensures w < Pow2(8 * |data|) && BitsOf(w, 8 * |data|) == MessageBits(data)
    ensures Register(MASK, data) == Bits(Xor.Xor(MASK, w), 8 * |data|)
  {
    WordWidth(data);
    WordBits(data);
    RegisterWord(MASK, data);
    w := Word(data);
  }

  lemma PresetBits(data: Bytes, w: nat, n: nat)
    requires n == 8 * |data| && w < Pow2(n) && BitsOf(w, n) == MessageBits(data)
    ensures BitsOf(Xor.Xor(MASK, w), n + 32) == Dividend(data)
  {
    Padded(w, n);
    MaskPadded(n);
    Preset(MASK, w, n + 32);
  }

  lemma Preset(mask: nat, w: nat, width: nat)
    ensures BitsOf(Xor.Xor(mask, w), width) == Add(BitsOf(w, width), BitsOf(mask, width))
  {
    BitsOfXor(mask, w, width);
    AddCommutes(BitsOf(mask, width), BitsOf(w, width));
  }

  lemma Padded(w: nat, n: nat)
    requires w < Pow2(n)
    ensures BitsOf(w, n + 32) == BitsOf(w, n) + Repeat(false, 32)
  {
    BitsOfSmall(w, n, n + 32);
  }

  lemma MaskPadded(n: nat)
    ensures BitsOf(MASK, n + 32) == Repeat(true, 32) + Repeat(false, n)
  {
    Width32();
    OnesBits(MASK, 32);
    BitsOfSmall(MASK, 32, n + 32);
  }

  lemma {:induction false} OnesBits(n: nat, width: nat)
    requires n + 1 == Pow2(width)
    ensures BitsOf(n, width) == Repeat(true, width)
  {
    if width != 0 {
      OnesBits(n / 2, width - 1);
    }
  }

  lemma ComplementBits(n: nat)
    ensures BitsOf(Xor.Xor(n, MASK), 32) == Complement(BitsOf(n, 32))
  {
    Width32();
    BitsOfXor(n, MASK, 32);
    OnesBits(MASK, 32);
  }

  /** The checksum is the complement of what division leaves. */
  lemma CrcDivides(data: Bytes)
    ensures IsChecksum(data, Crc(data))
  {
    var n := 8 * |data|;
    var w := AsNumber(data);
    var c := Xor.Xor(MASK, w);
    CrcWidth(data);
    PresetBits(data, w, n);
    StepsDivide(c, n);
    ComplementBits(Bits(c, n));
    ComplementTwice(BitsOf(Bits(c, n), 32));
    assert Dividend(data) == Add(Times(Quotient(c, n)), Repeat(false, n) + Complement(BitsOf(Crc(data), 32)));
  }

  lemma ComplementTwice(p: Poly)
    ensures Complement(Complement(p)) == p
  {
  }

  /** Products of different quotients differ in their leading terms. */
  lemma {:induction false} QuotientUnique(q: Poly, q': Poly)
    requires |q| == |q'| && Times(q)[..|q|] == Times(q')[..|q|]
    ensures q == q'
  {
    if q != [] {
      var n := |q|;
      assert Times(q)[0] == q[0] && Times(q')[0] == q'[0] by {
        assert Times(q)[..n][0] == Times(q)[0] && Times(q')[..n][0] == Times(q')[0];
      }
      assert Times(q)[..n][0] == Times(q')[..n][0];
      TailsAgree(q, q');
      QuotientUnique(q[1..], q'[1..]);
      assert q == [q[0]] + q[1..] && q' == [q'[0]] + q'[1..];
    }
  }

  lemma TailsAgree(q: Poly, q': Poly)
    requires |q| == |q'| && q != [] && q[0] == q'[0] && Times(q)[..|q|] == Times(q')[..|q|]
    ensures Times(q[1..])[..|q| - 1] == Times(q'[1..])[..|q| - 1]
  {
    var n, a, b := |q|, Times(q[1..])[..|q| - 1], Times(q'[1..])[..|q| - 1];
    forall i | 0 <= i < |a|
      ensures a[i] == b[i]
    {
      assert Times(q)[..n][i + 1] == Times(q')[..n][i + 1];
      TimesAt(q, i);
      TimesAt(q', i);
    }
  }

  lemma TimesAt(q: Poly, i: nat)
    requires q != [] && i < |q| + 31
    ensures Times(q)[i + 1] == ((Once(q[0]) + Repeat(false, |q| - 1))[i + 1] != Times(q[1..])[i])
  {
    AddShifted(Once(q[0]) + Repeat(false, |q| - 1), Times(q[1..]), i);
  }

  lemma AddShifted(front: Poly, rest: Poly, i: nat)
    requires |front| == |rest| + 1 && i < |rest|
    ensures Add(front, [false] + rest)[i + 1] == (front[i + 1] != rest[i])
  {
  }

  /** No other 32-bit number has that property. */
  lemma ChecksumUnique(data: Bytes, m: nat, n: nat)
    requires IsChecksum(data, m) && IsChecksum(data, n)
    ensures m == n
  {
    var q :| |q| == 8 * |data| && Dividend(data) == Add(Times(q), Repeat(false, |q|) + Complement(BitsOf(m, 32)));
    var q' :| |q'| == 8 * |data| && Dividend(data) == Add(Times(q'), Repeat(false, |q'|) + Complement(BitsOf(n, 32)));
    var k := |q|;
    Remainder(Dividend(data), Times(q), k, BitsOf(m, 32));
    Remainder(Dividend(data), Times(q'), k, BitsOf(n, 32));
    QuotientUnique(q, q');
    SameRemainder(Dividend(data), Times(q), k, BitsOf(m, 32), BitsOf(n, 32));
    Width32();
    BitsOfInjective(m, n, 32);
  }

  lemma Remainder(d: Poly, p: Poly, k: nat, r: Poly)
    requires |d| == |p| == k + |r| && d == Add(p, Repeat(false, k) + Complement(r))
    ensures p[..k] == d[..k]
  {
  }

  lemma SameRemainder(d: Poly, p: Poly, k: nat, r: Poly, r': Poly)
    requires |d| == |p| == k + |r| && |r| == |r'|
    requires d == Add(p, Repeat(false, k) + Complement(r)) && d == Add(p, Repeat(false, k) + Complement(r'))
    ensures r == r'
  {
    forall i | 0 <= i < |r|
      ensures r[i] == r'[i]
    {
      assert d[k + i] == (p[k + i] != Complement(r)[i]) && d[k + i] == (p[k + i] != Complement(r')[i]);
    }
  }

  /**
   * `zlib.crc32` as RFC 1952 describes it: the message, from the lowest bit of every byte, preset with ones and
   * followed by 32 zeros, is a multiple of the generator plus the complement of the checksum; and only the checksum
   * does that.
   */
  lemma CrcIff(data: Bytes, n: nat)
    ensures n == Crc(data) <==> IsChecksum(data, n)
  {
    CrcDivides(data);
    if IsChecksum(data, n) {
      ChecksumUnique(data, n, Crc(data));
    }
  }
}
