/**
 * CRC-32 as section 8 of RFC 1952 defines it, one bit at a time, and the errors it is certain to detect.
 */
module Crc32 {
  import opened Bytes
  import opened Xor

  const POLYNOMIAL: nat := 0xEDB8_8320
  const MASK: nat := 0xFFFF_FFFF

  /** One bit through the register. */
  function Bit(c: nat): nat {
    if c % 2 == 1 then Xor.Xor(POLYNOMIAL, c / 2) else c / 2
  }

  function Bits(c: nat, n: nat): nat
    decreases n, c
  {
    if n == 0 then c else Bits(Bit(c), n - 1)
  }

  function Update(c: nat, b: Byte): nat {
    Bits(Xor.Xor(c, b), 8)
  }

  function Register(c: nat, data: Bytes): nat
    decreases data
  {
    if data == [] then c else Register(Update(c, data[0]), data[1..])
  }

  /** zlib.crc32(data) */
  function Crc(data: Bytes): nat {
    Xor.Xor(Register(MASK, data), MASK)
  }

  // The register stays 32 bits wide

  lemma Width32()
    ensures Pow2(31) == 0x8000_0000 && Pow2(32) == 0x1_0000_0000
  {
    assert Pow2(8) == 256;
    Pow2Add(8, 8);
    Pow2Add(16, 8);
    assert Pow2(7) == 128;
    Pow2Add(24, 7);
  }

  lemma {:induction false} Pow2Add(m: nat, n: nat)
    ensures Pow2(m + n) == Pow2(m) * Pow2(n)
  {
    if m != 0 {
      Pow2Add(m - 1, n);
    }
  }

  lemma BitWidth(c: nat)
    requires c < 0x1_0000_0000
    ensures Bit(c) < 0x1_0000_0000
    ensures Bit(c) >= 0x8000_0000 <==> c % 2 == 1
  {
    Width32();
    TopBit(POLYNOMIAL, c / 2, 31);
  }

  lemma {:induction false} BitsWidth(c: nat, n: nat)
    requires c < 0x1_0000_0000
    ensures Bits(c, n) < 0x1_0000_0000
    decreases n
  {
    if n != 0 {
      BitWidth(c);
      BitsWidth(Bit(c), n - 1);
    }
  }

  lemma UpdateWidth(c: nat, b: Byte)
    requires c < 0x1_0000_0000
    ensures Xor.Xor(c, b) < 0x1_0000_0000 && Update(c, b) < 0x1_0000_0000
  {
    Width32();
    Width(c, b, 32);
    BitsWidth(Xor.Xor(c, b), 8);
  }

  lemma {:induction false} RegisterWidth(c: nat, data: Bytes)
    requires c < 0x1_0000_0000
    ensures Register(c, data) < 0x1_0000_0000
    decreases data
  {
    if data != [] {
      UpdateWidth(c, data[0]);
      RegisterWidth(Update(c, data[0]), data[1..]);
    }
  }

  lemma CrcWidth(data: Bytes)
    ensures Crc(data) < 0x1_0000_0000
  {
    Width32();
    RegisterWidth(MASK, data);
    Width(Register(MASK, data), MASK, 32);
  }

  // The bit step is linear and loses nothing

  lemma BitLinear(x: nat, y: nat)
    ensures Bit(Xor.Xor(x, y)) == Xor.Xor(Bit(x), Bit(y))
  {
    var h, k := x / 2, y / 2;
    Unfold(x, y);
    Associates(POLYNOMIAL, h, k);
    Associates(h, POLYNOMIAL, k);
    Commutes(h, POLYNOMIAL);
    Associates(Xor.Xor(h, POLYNOMIAL), POLYNOMIAL, k);
    Cancel(h, POLYNOMIAL);
  }

  lemma {:induction false} BitsLinear(x: nat, y: nat, n: nat)
    ensures Bits(Xor.Xor(x, y), n) == Xor.Xor(Bits(x, n), Bits(y, n))
    decreases n
  {
    if n != 0 {
      BitLinear(x, y);
      BitsLinear(Bit(x), Bit(y), n - 1);
    }
  }

  lemma BitInjective(x: nat, y: nat)
    requires x < 0x1_0000_0000 && y < 0x1_0000_0000 && Bit(x) == Bit(y)
    ensures x == y
  {
    BitWidth(x);
    BitWidth(y);
    if x % 2 == 1 {
      Commutes(POLYNOMIAL, x / 2);
      Commutes(POLYNOMIAL, y / 2);
      CancelRight(x / 2, y / 2, POLYNOMIAL);
    }
  }

  lemma {:induction false} BitsInjective(x: nat, y: nat, n: nat)
    requires x < 0x1_0000_0000 && y < 0x1_0000_0000 && Bits(x, n) == Bits(y, n)
    ensures x == y
    decreases n
  {
    if n != 0 {
      BitWidth(x);
      BitWidth(y);
      BitsInjective(Bit(x), Bit(y), n - 1);
      BitInjective(x, y);
    }
  }

  /** Different registers stay different under the same input. */
  lemma {:induction false} RegisterInjective(c: nat, c': nat, data: Bytes)
    requires c < 0x1_0000_0000 && c' < 0x1_0000_0000
    requires Register(c, data) == Register(c', data)
    ensures c == c'
    decreases data
  {
    if data != [] {
      UpdateWidth(c, data[0]);
      UpdateWidth(c', data[0]);
      RegisterInjective(Update(c, data[0]), Update(c', data[0]), data[1..]);
      BitsInjective(Xor.Xor(c, data[0]), Xor.Xor(c', data[0]), 8);
      CancelRight(c, c', data[0]);
    }
  }

  // Several bytes at once

  lemma {:induction false} BitsAdd(c: nat, m: nat, n: nat)
    ensures Bits(c, m + n) == Bits(Bits(c, m), n)
    decreases m
  {
    if m != 0 {
      BitsAdd(Bit(c), m - 1, n);
    }
  }

  /** Bits above the first k simply move down. */
  lemma {:induction false} ShiftOut(w: nat, k: nat)
    ensures Bits(w * Pow2(k), k) == w
    decreases k
  {
    if k != 0 {
      var c := w * Pow2(k);
      assert c == 2 * (w * Pow2(k - 1));
      ShiftOut(w, k - 1);
    }
  }

  lemma {:induction false} Disjoint(b: nat, w: nat, k: nat)
    requires b < Pow2(k)
    ensures Xor.Xor(b, w * Pow2(k)) == b + w * Pow2(k)
    decreases k
  {
    if k == 0 {
      Commutes(0, w);
      Zero(w);
    } else {
      var v := w * Pow2(k - 1);
      assert w * Pow2(k) == 2 * v;
      Disjoint(b / 2, w, k - 1);
      Unfold(b, 2 * v);
    }
  }

  /** The bytes as one little-endian number. */
  function Word(bs: Bytes): nat {
    if bs == [] then 0 else bs[0] + 256 * Word(bs[1..])
  }

  lemma {:induction false} WordInjective(a: Bytes, b: Bytes)
    requires |a| == |b| && Word(a) == Word(b)
    ensures a == b
  {
    if a != [] {
      WordInjective(a[1..], b[1..]);
      assert a == [a[0]] + a[1..] && b == [b[0]] + b[1..];
    }
  }

  lemma {:induction false} WordWidth(bs: Bytes)
    ensures Word(bs) < Pow2(8 * |bs|)
  {
    if bs != [] {
      WordWidth(bs[1..]);
      Pow2Add(8, 8 * |bs[1..]|);
      assert Pow2(8) == 256;
    }
  }

  lemma AbsorbByte(c: nat, b: Byte, w: nat)
    ensures Xor.Xor(Update(c, b), w) == Bits(Xor.Xor(c, b + 256 * w), 8)
  {
    var v := w * Pow2(8);
    assert Pow2(8) == 256;
    ShiftOut(w, 8);
    BitsLinear(Xor.Xor(c, b), v, 8);
    Associates(c, b, v);
    Disjoint(b, w, 8);
  }

  /** Feeding bytes one by one is the same as XORing them in together and stepping all their bits. */
  lemma {:induction false} RegisterWord(c: nat, bs: Bytes)
    ensures Register(c, bs) == Bits(Xor.Xor(c, Word(bs)), 8 * |bs|)
    decreases bs
  {
    if bs == [] {
      Zero(c);
    } else {
      var rest := bs[1..];
      var x, n := Xor.Xor(c, Word(bs)), 8 * |rest|;
      calc {
        Register(c, bs);
        Register(Update(c, bs[0]), rest);
        { RegisterWord(Update(c, bs[0]), rest); }
        Bits(Xor.Xor(Update(c, bs[0]), Word(rest)), n);
        { AbsorbByte(c, bs[0], Word(rest)); }
        Bits(Bits(x, 8), n);
        { BitsAdd(x, 8, n); }
        Bits(x, 8 + n);
      }
    }
  }

  lemma {:induction false} RegisterAppend(c: nat, a: Bytes, b: Bytes)
    ensures Register(c, a + b) == Register(Register(c, a), b)
    decreases a
  {
    if a == [] {
      assert a + b == b;
    } else {
      assert (a + b)[1..] == a[1..] + b;
      RegisterAppend(Update(c, a[0]), a[1..], b);
    }
  }

  // Detection

  lemma WindowInjective(c: nat, a: Bytes, b: Bytes)
    requires c < 0x1_0000_0000 && |a| == |b| <= 4
    requires Register(c, a) == Register(c, b)
    ensures a == b
  {
    RegisterWord(c, a);
    RegisterWord(c, b);
    Fits(c, a);
    Fits(c, b);
    BitsInjective(Xor.Xor(c, Word(a)), Xor.Xor(c, Word(b)), 8 * |a|);
    Commutes(c, Word(a));
    Commutes(c, Word(b));
    CancelRight(Word(a), Word(b), c);
    WordInjective(a, b);
  }

  lemma Fits(c: nat, bs: Bytes)
    requires c < 0x1_0000_0000 && |bs| <= 4
    ensures Xor.Xor(c, Word(bs)) < 0x1_0000_0000
  {
    Width32();
    WordWidth(bs);
    Pow2Monotone(8 * |bs|, 32);
    Width(c, Word(bs), 32);
  }

  lemma {:induction false} Pow2Monotone(m: nat, n: nat)
    requires m <= n
    ensures Pow2(m) <= Pow2(n)
    decreases n - m
  {
    if m < n {
      Pow2Monotone(m, n - 1);
    }
  }

  /** Two inputs of the same length that differ, but only within four consecutive bytes, have different checksums. */
  lemma BurstDetected(a: Bytes, b: Bytes, p: nat, k: nat)
    requires |a| == |b| && p + k <= |a| && k <= 4
    requires a[..p] == b[..p] && a[p + k..] == b[p + k..] && a != b
    ensures Crc(a) != Crc(b)
  {
    var head, tail := a[..p], a[p + k..];
    var x, y := a[p..p + k], b[p..p + k];
    assert a == head + (x + tail) && b == head + (y + tail);
    var c := Register(MASK, head);
    RegisterWidth(MASK, head);
    RegisterAppend(MASK, head, x + tail);
    RegisterAppend(MASK, head, y + tail);
    RegisterAppend(c, x, tail);
    RegisterAppend(c, y, tail);
    RegisterWidth(c, x);
    RegisterWidth(c, y);
    if Crc(a) == Crc(b) {
      CancelRight(Register(MASK, a), Register(MASK, b), MASK);
      RegisterInjective(Register(c, x), Register(c, y), tail);
      WindowInjective(c, x, y);
    }
  }
}
