/** Key derivation and key stream. HMAC-SHA256 is any function from a key and a message to 32 bytes. */
module KeyMaterial {
  import opened Bytes
  import opened Wrappers

  type Digest = d: Bytes | |d| == 32 witness seq(32, _ => 0)

  type Hmac = (Bytes, Bytes) -> Digest

  // The key stream

  /** The i-th block: HMAC(key, nonce || counter) */
  function Block(hmac: Hmac, key: Bytes, nonce: Bytes, i: nat): Digest
    requires i < 0x1_0000_0000
  {
    hmac(key, nonce + U32(i))
  }

  /** The counter is packed into four bytes. */
  const STREAM_MAX: nat := 32 * 0x1_0000_0000

  /** Byte p of the stream is byte p % 32 of block p / 32, whatever the length asked for. */
  function Stream(hmac: Hmac, key: Bytes, nonce: Bytes, n: nat): (r: Bytes)
    requires n <= STREAM_MAX
    ensures |r| == n
  {
    seq(n, p requires 0 <= p < n => Block(hmac, key, nonce, p / 32)[p % 32])
  }

  /** The first k blocks, one after the other. */
  function Blocks(hmac: Hmac, key: Bytes, nonce: Bytes, k: nat): (r: Bytes)
    requires k <= 0x1_0000_0000
    ensures |r| == 32 * k
  {
    if k == 0 then [] else Blocks(hmac, key, nonce, k - 1) + Block(hmac, key, nonce, k - 1)
  }

  lemma {:induction false} BlocksAreStream(hmac: Hmac, key: Bytes, nonce: Bytes, k: nat)
    requires k <= 0x1_0000_0000
    ensures Blocks(hmac, key, nonce, k) == Stream(hmac, key, nonce, 32 * k)
  {
    if k != 0 {
      BlocksAreStream(hmac, key, nonce, k - 1);
      var bs, st := Blocks(hmac, key, nonce, k), Stream(hmac, key, nonce, 32 * k);
      forall p | 0 <= p < 32 * k
        ensures bs[p] == st[p]
      {
        if p < 32 * (k - 1) {
          assert bs[p] == Blocks(hmac, key, nonce, k - 1)[p];
        } else {
          assert p / 32 == k - 1 && p % 32 == p - 32 * (k - 1);
        }
      }
    }
  }

  /** A shorter stream is a prefix of a longer one. */
  lemma StreamPrefix(hmac: Hmac, key: Bytes, nonce: Bytes, m: nat, n: nat)
    requires m <= n <= STREAM_MAX
    ensures Stream(hmac, key, nonce, n)[..m] == Stream(hmac, key, nonce, m)
  {
  }

  /** `keystream`: None where packing the counter fails. */
  method Keystream(hmac: Hmac, key: Bytes, nonce: Bytes, nbytes: nat) returns (r: Option<Bytes>)
    ensures r == if nbytes <= STREAM_MAX then Some(Stream(hmac, key, nonce, nbytes)) else None
  {
    var out: Bytes := [];
    var counter := 0;
    while |out| < nbytes
      invariant 0 <= counter <= 0x1_0000_0000
      invariant out == Blocks(hmac, key, nonce, counter)
      invariant nbytes <= STREAM_MAX ==> counter == 0 || 32 * (counter - 1) < nbytes
      decreases nbytes - |out|
    {
      if counter >= 0x1_0000_0000 {
        return None;
      }
      var blk := hmac(key, nonce + U32(counter));
      out := out + blk;
      counter := counter + 1;
    }
    BlocksAreStream(hmac, key, nonce, counter);
    StreamPrefix(hmac, key, nonce, nbytes, 32 * counter);
    return Some(out[..nbytes]);
  }

  // HKDF

  /** T(i) of section 2.3 of RFC 5869 */
  function T(hmac: Hmac, prk: Bytes, info: Bytes, i: nat): (t: Bytes)
    requires i <= 255
    ensures |t| == if i == 0 then 0 else 32
  {
    if i == 0 then [] else hmac(prk, T(hmac, prk, info, i - 1) + info + [i])
  }

  /** T(1) | ... | T(n) */
  function Chain(hmac: Hmac, prk: Bytes, info: Bytes, n: nat): (c: Bytes)
    requires n <= 255
    ensures |c| == 32 * n
  {
    if n == 0 then [] else Chain(hmac, prk, info, n - 1) + T(hmac, prk, info, n)
  }

  const EXPAND_MAX: nat := 255 * 32

  /** OKM: the first `length` octets of T(1) | ... | T(N) with N = ceil(length / HashLen) */
  function Expand(hmac: Hmac, prk: Bytes, info: Bytes, length: nat): (okm: Bytes)
    requires length <= EXPAND_MAX
    ensures |okm| == length
  {
    Chain(hmac, prk, info, (length + 31) / 32)[..length]
  }

  lemma {:induction false} ChainPrefix(hmac: Hmac, prk: Bytes, info: Bytes, m: nat, n: nat)
    requires m <= n <= 255
    ensures Chain(hmac, prk, info, m) <= Chain(hmac, prk, info, n)
    decreases n - m
  {
    if m < n {
      ChainPrefix(hmac, prk, info, m, n - 1);
    }
  }

  /** Asking for more key material does not change what comes first. */
  lemma ExpandPrefix(hmac: Hmac, prk: Bytes, info: Bytes, m: nat, n: nat)
    requires m <= n <= EXPAND_MAX
    ensures Expand(hmac, prk, info, n)[..m] == Expand(hmac, prk, info, m)
  {
    ChainPrefix(hmac, prk, info, (m + 31) / 32, (n + 31) / 32);
  }

  /** `_hkdf_expand`: None where the counter does not fit a byte, which is beyond the limit RFC 5869 sets. */
  method HkdfExpand(hmac: Hmac, prk: Bytes, info: Bytes, length: nat) returns (r: Option<Bytes>)
    ensures r == if length <= EXPAND_MAX then Some(Expand(hmac, prk, info, length)) else None
  {
    var out: Bytes, t: Bytes := [], [];
    var counter := 1;
    while |out| < length
      invariant 1 <= counter <= 256
      invariant t == T(hmac, prk, info, counter - 1)
      invariant out == Chain(hmac, prk, info, counter - 1)
      invariant counter == 1 || 32 * (counter - 2) < length
      decreases length - |out|
    {
      if counter >= 256 {
        return None;
      }
      t := hmac(prk, t + info + [counter]);
      out := out + t;
      counter := counter + 1;
    }
    assert (length + 31) / 32 == counter - 1;
    return Some(out[..length]);
  }

  /** `_hkdf_extract`, with the 32 zeros that stand for an empty nonce */
  function Extract(hmac: Hmac, nonce: Bytes, presharedKey: Bytes): Digest {
    hmac(if nonce == [] then seq(32, _ => 0) else nonce, presharedKey)
  }

  function Hkdf(hmac: Hmac, presharedKey: Bytes, nonce: Bytes, info: Bytes, length: nat): (okm: Bytes)
    requires length <= EXPAND_MAX
    ensures |okm| == length
  {
    Expand(hmac, Extract(hmac, nonce, presharedKey), info, length)
  }

  // What is computed with HMAC, in full

  /** Block i of the stream is HMAC(key, nonce || i), with i as four bytes, the highest first. */
  lemma StreamBlock(hmac: Hmac, key: Bytes, nonce: Bytes, n: nat, i: nat)
    requires 32 * i + 32 <= n <= STREAM_MAX
    ensures Stream(hmac, key, nonce, n)[32 * i..32 * i + 32]
            == hmac(key, nonce + [i / 0x100_0000, i / 0x1_0000 % 256, i / 256 % 256, i % 256])
  {
    FourOctets(i);
    StreamPart(hmac, key, nonce, n, i);
  }

  lemma FourOctets(i: nat)
    requires i < 0x1_0000_0000
    ensures U32(i) == [i / 0x100_0000, i / 0x1_0000 % 256, i / 256 % 256, i % 256]
  {
    var hi, lo := i / 0x1_0000, i % 0x1_0000;
    assert i == 0x1_0000 * hi + lo;
    assert i / 256 == 256 * hi + lo / 256;
  }

  lemma StreamPart(hmac: Hmac, key: Bytes, nonce: Bytes, n: nat, i: nat)
    requires 32 * i + 32 <= n <= STREAM_MAX
    ensures Stream(hmac, key, nonce, n)[32 * i..32 * i + 32] == Block(hmac, key, nonce, i)
  {
    forall p | 32 * i <= p < 32 * i + 32
      ensures Stream(hmac, key, nonce, n)[p] == Block(hmac, key, nonce, i)[p - 32 * i]
    {
      assert p / 32 == i && p % 32 == p - 32 * i;
    }
  }

  /** A key of 32 bytes, by sections 2.2 and 2.3 of RFC 5869: HMAC(HMAC(salt, secret), info || 1). */
  lemma HkdfKey(hmac: Hmac, presharedKey: Bytes, nonce: Bytes, info: Bytes)
    ensures Hkdf(hmac, presharedKey, nonce, info, 32)
            == hmac(hmac(if nonce == [] then Zeros32() else nonce, presharedKey), info + [1])
  {
    var prk := Extract(hmac, nonce, presharedKey);
    assert seq(32, _ => 0) == Zeros32();
    assert T(hmac, prk, info, 1) == hmac(prk, [] + info + [1]);
    assert [] + info + [1] == info + [1];
    assert Chain(hmac, prk, info, 1) == [] + T(hmac, prk, info, 1);
  }

  /** The salt that stands for none. */
  function Zeros32(): (zs: Bytes)
    ensures |zs| == 32 && forall i :: 0 <= i < 32 ==> zs[i] == 0
  {
    seq(32, _ => 0)
  }
}
