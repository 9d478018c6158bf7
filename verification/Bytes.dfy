/** Octets, and the big-endian fields that Python's struct module packs. */
module Bytes {

  type Byte = b: int | 0 <= b < 256

  type Bytes = seq<Byte>

  function Min(a: int, b: int): int {
    if a <= b then a else b
  }

  /** struct.pack(">H", n) */
  function U16(n: int): (bs: Bytes)
    requires 0 <= n < 0x1_0000
  {
    [n / 256, n % 256]
  }

  /** struct.pack(">I", n) */
  function U32(n: int): (bs: Bytes)
    requires 0 <= n < 0x1_0000_0000
  {
    U16(n / 0x1_0000) + U16(n % 0x1_0000)
  }

  /** struct.unpack of an unsigned big-endian field */
  function BigEndian(bs: Bytes): nat {
    if bs == [] then 0 else 256 * BigEndian(bs[..|bs| - 1]) + bs[|bs| - 1]
  }

  lemma U16RoundTrip(n: int)
    requires 0 <= n < 0x1_0000
    ensures |U16(n)| == 2 && BigEndian(U16(n)) == n
  {
    var bs := U16(n);
    assert bs[..1] == [n / 256];
    assert bs[..1][..0] == [];
    assert BigEndian(bs[..1]) == n / 256;
  }

  lemma BigEndian4(a: Byte, b: Byte, c: Byte, d: Byte)
    ensures BigEndian([a, b, c, d]) == ((a * 256 + b) * 256 + c) * 256 + d
  {
    assert [a, b, c, d][..3] == [a, b, c];
    assert [a, b, c][..2] == [a, b];
    assert [a, b][..1] == [a];
    assert [a][..0] == [];
    assert BigEndian([a]) == a;
    assert BigEndian([a, b]) == a * 256 + b;
    assert BigEndian([a, b, c]) == (a * 256 + b) * 256 + c;
  }

  lemma U32RoundTrip(n: int)
    requires 0 <= n < 0x1_0000_0000
    ensures |U32(n)| == 4 && BigEndian(U32(n)) == n
  {
    var hi, lo := n / 0x1_0000, n % 0x1_0000;
    assert U32(n) == [hi / 256, hi % 256, lo / 256, lo % 256];
    BigEndian4(hi / 256, hi % 256, lo / 256, lo % 256);
  }
}
