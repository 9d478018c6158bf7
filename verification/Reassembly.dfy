/**
 * Cutting a file into chunks, and putting it back together in a sparse temporary file.
 * Chunks may be written in any order and any number of times.
 */
module Reassembly {
  import opened Bytes

  /** Number of chunks of a file of `size` bytes, rounded up. */
  function ChunkCount(size: nat, chunkSize: nat): (n: nat)
    requires chunkSize > 0
  {
    (size + chunkSize - 1) / chunkSize
  }

  /** seek(idx * chunk_size) and read(chunk_size): both ends are clipped to the file. */
  function Chunk(source: Bytes, chunkSize: nat, idx: nat): Bytes {
    source[Min(idx * chunkSize, |source|)..Min(idx * chunkSize + chunkSize, |source|)]
  }

  /** seek(offset) and write(data): a write past the end fills the gap with zeros, an empty write does nothing. */
  function Patch(file: Bytes, offset: nat, data: Bytes): (after: Bytes)
    ensures data == [] ==> after == file
    ensures data != [] ==>
              && |after| == (if offset + |data| <= |file| then |file| else offset + |data|)
              && (forall p :: 0 <= p < |after| ==> after[p] ==
                                                   if offset <= p < offset + |data| then data[p - offset]
                                                   else if p < |file| then file[p] else 0)
  {
    if data == [] then file
    else
      (if |file| < offset then file + Zeros(offset - |file|) else file[..offset])
      + data
      + (if offset + |data| < |file| then file[offset + |data|..] else [])
  }

  function Zeros(n: nat): (zs: Bytes)
    ensures |zs| == n && forall p :: 0 <= p < n ==> zs[p] == 0
  {
    seq(n, _ => 0)
  }

  // Arithmetic of chunk positions

  /** Byte p lies in chunk p / chunkSize and in no other. */
  lemma Owner(p: nat, chunkSize: nat, idx: nat)
    requires chunkSize > 0
    ensures idx * chunkSize <= p < idx * chunkSize + chunkSize <==> p / chunkSize == idx
  {
    var q, r := p / chunkSize, p % chunkSize;
    assert p == q * chunkSize + r;
    if q < idx {
      assert (q + 1) * chunkSize <= idx * chunkSize;
    } else if idx < q {
      assert (idx + 1) * chunkSize <= q * chunkSize;
    }
  }

  /** A chunk index is in range exactly when the chunk starts inside the file. */
  lemma InRange(size: nat, chunkSize: nat, idx: nat)
    requires chunkSize > 0
    ensures idx < ChunkCount(size, chunkSize) <==> idx * chunkSize < size
  {
    var n := ChunkCount(size, chunkSize);
    var m := size + chunkSize - 1;
    assert n * chunkSize <= m < n * chunkSize + chunkSize by { Owner(m, chunkSize, n); }
    if idx < n {
      assert (idx + 1) * chunkSize <= n * chunkSize;
    } else {
      assert n * chunkSize <= idx * chunkSize;
    }
  }

  // What the temporary file holds

  /** The temporary file of a receiver that has written exactly the chunks in `received`. */
  ghost predicate Reassembled(file: Bytes, source: Bytes, chunkSize: nat, received: set<int>)
    requires chunkSize > 0
  {
    && |file| <= |source|
    && (forall p :: 0 <= p < |file| ==> file[p] == if p / chunkSize in received then source[p] else 0)
    && (forall p :: 0 <= p < |source| && p / chunkSize in received ==> p < |file|)
    && (file != [] ==> (|file| - 1) / chunkSize in received)
  }

  /** The content depends on the set of chunks only, not on the order or number of the writes. */
  lemma Determined(file: Bytes, file': Bytes, source: Bytes, chunkSize: nat, received: set<int>)
    requires chunkSize > 0
    requires Reassembled(file, source, chunkSize, received)
    requires Reassembled(file', source, chunkSize, received)
    ensures file == file'
  {
    assert file' != [] ==> (|file'| - 1) / chunkSize in received;
    assert file != [] ==> (|file| - 1) / chunkSize in received;
  }

  lemma ChunkShape(source: Bytes, chunkSize: nat, idx: nat)
    requires chunkSize > 0 && idx < ChunkCount(|source|, chunkSize)
    ensures var data := Chunk(source, chunkSize, idx);
            && 0 < |data| <= chunkSize
            && idx * chunkSize + |data| == Min(idx * chunkSize + chunkSize, |source|)
            && (forall k :: 0 <= k < |data| ==> data[k] == source[idx * chunkSize + k])
  {
    InRange(|source|, chunkSize, idx);
  }

  /** Writing one more chunk, new or repeated, keeps the file as described. */
  lemma WriteChunk(file: Bytes, source: Bytes, chunkSize: nat, received: set<int>, idx: nat)
    requires chunkSize > 0 && idx < ChunkCount(|source|, chunkSize)
    requires Reassembled(file, source, chunkSize, received)
    ensures Reassembled(Patch(file, idx * chunkSize, Chunk(source, chunkSize, idx)),
                        source, chunkSize, received + {idx})
  {
    var data := Chunk(source, chunkSize, idx);
    var start := idx * chunkSize;
    var after := Patch(file, start, data);
    ChunkShape(source, chunkSize, idx);
    forall p: nat | p < |source|
      ensures start <= p < start + |data| <==> p / chunkSize == idx
    {
      Owner(p, chunkSize, idx);
    }
    forall p | 0 <= p < |after|
      ensures after[p] == if p / chunkSize in received + {idx} then source[p] else 0
    {
      if p / chunkSize == idx {
      } else if p < |file| {
      } else {
        assert p / chunkSize !in received;
      }
    }
  }

  /** Once every chunk is there, the file is the source. */
  lemma AllChunksGiveSource(file: Bytes, source: Bytes, chunkSize: nat, received: set<int>)
    requires chunkSize > 0
    requires Reassembled(file, source, chunkSize, received)
    requires forall i :: 0 <= i < ChunkCount(|source|, chunkSize) ==> i in received
    ensures file == source
  {
    forall p | 0 <= p < |source|
      ensures p / chunkSize in received
    {
      Owner(p, chunkSize, p / chunkSize);
      InRange(|source|, chunkSize, p / chunkSize);
    }
    var hole := |file| / chunkSize;
    assert |file| < |source| ==> hole in received;
  }

  // Whole histories of writes

  ghost predicate InFile(source: Bytes, chunkSize: nat, order: seq<nat>)
    requires chunkSize > 0
  {
    forall k :: 0 <= k < |order| ==> order[k] < ChunkCount(|source|, chunkSize)
  }

  function Writes(source: Bytes, chunkSize: nat, order: seq<nat>): Bytes {
    if order == [] then []
    else
      var last := order[|order| - 1];
      Patch(Writes(source, chunkSize, order[..|order| - 1]), last * chunkSize, Chunk(source, chunkSize, last))
  }

  /** The chunks written. */
  function Indices(order: seq<nat>): set<nat> {
    set i | i in order
  }

  lemma LastOne(order: seq<nat>)
    requires order != []
    ensures Indices(order) == Indices(order[..|order| - 1]) + {order[|order| - 1]}
  {
    assert order == order[..|order| - 1] + [order[|order| - 1]];
  }

  /** Any sequence of chunk writes whatsoever leaves the file its set of indices determines. */
  lemma {:induction false} AnyOrder(source: Bytes, chunkSize: nat, order: seq<nat>)
    requires chunkSize > 0
    requires InFile(source, chunkSize, order)
    ensures Reassembled(Writes(source, chunkSize, order), source, chunkSize, Indices(order))
  {
    if order != [] {
      var init, last := order[..|order| - 1], order[|order| - 1];
      AnyOrder(source, chunkSize, init);
      WriteChunk(Writes(source, chunkSize, init), source, chunkSize, Indices(init), last);
      LastOne(order);
    }
  }

  /** Two histories that cover the same chunks end in the same file. */
  lemma OrderIrrelevant(source: Bytes, chunkSize: nat, order: seq<nat>, order': seq<nat>)
    requires chunkSize > 0
    requires InFile(source, chunkSize, order)
    requires InFile(source, chunkSize, order')
    requires Indices(order) == Indices(order')
    ensures Writes(source, chunkSize, order) == Writes(source, chunkSize, order')
  {
    AnyOrder(source, chunkSize, order);
    AnyOrder(source, chunkSize, order');
    Determined(Writes(source, chunkSize, order), Writes(source, chunkSize, order'),
               source, chunkSize, Indices(order));
  }

  /**
   * Exactly when an incomplete history already equals the source, so that the hash comparison
   * would pass: the last chunk was written and every missing chunk is all zeros.
   */
  lemma EqualsSourceIff(source: Bytes, chunkSize: nat, order: seq<nat>)
    requires chunkSize > 0
    requires InFile(source, chunkSize, order)
    ensures Writes(source, chunkSize, order) == source
            <==> && (source != [] ==> ChunkCount(|source|, chunkSize) - 1 in order)
                 && (forall p :: 0 <= p < |source| && p / chunkSize !in order ==> source[p] == 0)
  {
    var received := Indices(order);
    var file := Writes(source, chunkSize, order);
    AnyOrder(source, chunkSize, order);
    if source != [] {
      LastChunk(|source|, chunkSize);
    }
    ComplementIsZero(file, source, chunkSize, received);
    assert forall p :: 0 <= p < |source| ==> (p / chunkSize in received <==> p / chunkSize in order);
  }

  /** The last byte lies in the last chunk. */
  lemma LastChunk(size: nat, chunkSize: nat)
    requires size > 0 && chunkSize > 0
    ensures (size - 1) / chunkSize == ChunkCount(size, chunkSize) - 1
  {
    var last := (size - 1) / chunkSize;
    Owner(size - 1, chunkSize, last);
    InRange(size, chunkSize, last);
    InRange(size, chunkSize, last + 1);
  }

  lemma ComplementIsZero(file: Bytes, source: Bytes, chunkSize: nat, received: set<int>)
    requires chunkSize > 0 && Reassembled(file, source, chunkSize, received)
    ensures file == source
            <==> && (source != [] ==> (|source| - 1) / chunkSize in received)
                 && (forall p :: 0 <= p < |source| && p / chunkSize !in received ==> source[p] == 0)
  {
    if source != [] && (|source| - 1) / chunkSize in received {
      assert |file| == |source|;
    }
  }

  function Joined(source: Bytes, chunkSize: nat, n: nat): Bytes {
    if n == 0 then [] else Joined(source, chunkSize, n - 1) + Chunk(source, chunkSize, n - 1)
  }

  /** The chunks, in order, are a partition of the source. */
  lemma {:induction false} ChunksJoin(source: Bytes, chunkSize: nat, n: nat)
    requires chunkSize > 0 && n <= ChunkCount(|source|, chunkSize)
    ensures Joined(source, chunkSize, n) == source[..Min(n * chunkSize, |source|)]
    ensures n == ChunkCount(|source|, chunkSize) ==> Joined(source, chunkSize, n) == source
  {
    InRange(|source|, chunkSize, n);
    if n != 0 {
      ChunksJoin(source, chunkSize, n - 1);
      InRange(|source|, chunkSize, n - 1);
      assert n * chunkSize == (n - 1) * chunkSize + chunkSize;
    }
  }
}
