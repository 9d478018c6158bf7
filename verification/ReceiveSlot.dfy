/**
 * The receiving side of one transfer as a value: its context (if any), its ".part" file and its destination file.
 * The classes in ReceiverNode.dfy are proved against these functions and Protocol.dfy runs them.
 */
module ReceiveSlot {
  import opened Bytes
  import opened Wrappers
  import opened Ranges
  import opened Messages
  import opened Reassembly

  /** FileRcvCtxSchema, without the names and addresses. */
  datatype RecvState = RecvState(
    size: int,
    sha256: string,
    chunkSize: nat,
    total: int,
    received: set<nat>,
    nextNeeded: nat,
    finished: bool
  )

  datatype Slot = Slot(ctx: Option<RecvState>, temp: Option<Bytes>, dest: Option<Bytes>)

  datatype Outcome = Outcome(slot: Slot, replies: seq<Message>)

  /** str.lower() on hexadecimal digests */
  function Lower(s: string): string {
    seq(|s|, i requires 0 <= i < |s| => if 'A' <= s[i] <= 'Z' then s[i] - 'A' + 'a' else s[i])
  }

  predicate BadRanges(m: Message)
    requires m.Meta?
  {
    m.chunkSize <= 0 || m.size < 0 || m.total < 0
  }

  /** The end of `_on_data` and of `_on_meta` for an empty file: compare hashes, then commit or complain. */
  function Commit(slot: Slot, sha256: string, digest: Bytes -> string): Outcome
    requires slot.temp.Some?
  {
    if Lower(digest(slot.temp.value)) == Lower(sha256) then Outcome(Slot(None, None, slot.temp), [FIN_OK])
    else Outcome(slot.(ctx := None), [FIN_HASH_MISMATCH])
  }

  /** `_on_meta`: any META empties the temporary file and starts over. */
  function OnMeta(slot: Slot, m: Message, digest: Bytes -> string): Outcome
    requires m.Meta?
  {
    if BadRanges(m) then Outcome(slot, [Fin("error", "bad_meta_ranges")])
    else if m.total == 0 then Commit(slot.(temp := Some([])), m.sha256, digest)
    else
      var fresh' := RecvState(m.size, m.sha256, m.chunkSize, m.total, {}, 0, false);
      Outcome(slot.(ctx := Some(fresh'), temp := Some([])), [Ack(0)])
  }

  /** `while next_needed in received: next_needed += 1` */
  function FirstMissing(received: set<nat>, from: nat): nat
    decreases |received - Range(0, from)|
  {
    if from in received then
      assert received - Range(0, from) == (received - Range(0, from + 1)) + {from};
      FirstMissing(received, from + 1)
    else from
  }

  /** Whether `_on_data` gets past its checks; opening a missing temporary file raises an exception. */
  predicate Accepts(slot: Slot, m: Message)
    requires m.Data?
  {
    slot.ctx.Some? && 0 <= m.idx < slot.ctx.value.total && m.total > 0 && slot.temp.Some?
  }

  function Receive(ctx: RecvState, idx: nat): RecvState {
    if idx in ctx.received then ctx
    else
      var received := ctx.received + {idx};
      ctx.(received := received, nextNeeded := FirstMissing(received, ctx.nextNeeded))
  }

  /** The first locked region of `_on_data`: write, note, acknowledge. */
  function OnData(slot: Slot, m: Message): Outcome
    requires m.Data? && Accepts(slot, m)
  {
    var ctx := Receive(slot.ctx.value, m.idx);
    Outcome(slot.(ctx := Some(ctx), temp := Some(Patch(slot.temp.value, m.idx * ctx.chunkSize, m.chunk))),
            [Ack(ctx.nextNeeded)])
  }

  predicate Full(ctx: RecvState) {
    |ctx.received| >= ctx.total && !ctx.finished
  }

  /** The second locked region of `_on_data` and what follows it. */
  function OnClose(slot: Slot, digest: Bytes -> string): Outcome
    requires slot.ctx.Some? && slot.temp.Some?
  {
    if Full(slot.ctx.value) then Commit(slot, slot.ctx.value.sha256, digest) else Outcome(slot, [])
  }

  // The cumulative acknowledgement

  /** `next_needed` is the least chunk that has not been received. */
  ghost predicate LeastMissing(received: set<nat>, n: nat) {
    Range(0, n) <= received && n !in received
  }

  lemma {:induction false} FirstMissingIsLeast(received: set<nat>, from: nat)
    requires Range(0, from) <= received
    ensures LeastMissing(received, FirstMissing(received, from))
    ensures from <= FirstMissing(received, from)
    decreases |received - Range(0, from)|
  {
    if from in received {
      assert received - Range(0, from) == (received - Range(0, from + 1)) + {from};
      FirstMissingIsLeast(received, from + 1);
    }
  }

  lemma LeastMissingUnique(received: set<nat>, m: nat, n: nat)
    requires LeastMissing(received, m) && LeastMissing(received, n)
    ensures m == n
  {
    assert m in Range(0, n) <==> m < n;
    assert n in Range(0, m) <==> n < m;
  }

  ghost predicate Consistent(ctx: RecvState) {
    && ctx.chunkSize > 0
    && ctx.total > 0
    && !ctx.finished
    && ctx.received <= Range(0, ctx.total)
    && LeastMissing(ctx.received, ctx.nextNeeded)
  }

  lemma ReceiveKeepsConsistent(ctx: RecvState, idx: nat)
    requires Consistent(ctx) && idx < ctx.total
    ensures Consistent(Receive(ctx, idx))
    ensures Receive(ctx, idx).received == ctx.received + {idx}
    ensures ctx.nextNeeded <= Receive(ctx, idx).nextNeeded
  {
    var received := ctx.received + {idx};
    assert Range(0, ctx.nextNeeded) <= received;
    FirstMissingIsLeast(received, ctx.nextNeeded);
    if idx in ctx.received {
      assert received == ctx.received;
    }
  }

  /** The test by cardinality says the same as the cursor: everything is there. */
  lemma FullIffNothingMissing(ctx: RecvState)
    requires Consistent(ctx)
    ensures ctx.nextNeeded <= ctx.total
    ensures Full(ctx) <==> ctx.nextNeeded == ctx.total
    ensures Full(ctx) <==> ctx.received == Range(0, ctx.total)
  {
    SubsetSize(Range(0, ctx.nextNeeded), ctx.received);
    SubsetSize(ctx.received, Range(0, ctx.total));
    var total: nat := ctx.total;
    assert total in Range(0, ctx.nextNeeded) <==> total < ctx.nextNeeded;
    assert ctx.nextNeeded in Range(0, total) <==> ctx.nextNeeded < total;
  }

  // The comparison of the hashes

  /** The same letter, in whatever case. */
  predicate SameLetter(a: char, b: char) {
    || a == b
    || ('A' <= a <= 'Z' && b as int == a as int + 32)
    || ('A' <= b <= 'Z' && a as int == b as int + 32)
  }

  ghost predicate SameDigest(a: string, b: string) {
    |a| == |b| && forall i :: 0 <= i < |a| ==> SameLetter(a[i], b[i])
  }

  lemma LowerIff(a: string, b: string)
    ensures Lower(a) == Lower(b) <==> SameDigest(a, b)
  {
    if Lower(a) == Lower(b) {
      assert |a| == |Lower(a)| == |Lower(b)| == |b|;
      forall i | 0 <= i < |a|
        ensures SameLetter(a[i], b[i])
      {
        assert Lower(a)[i] == Lower(b)[i];
      }
    }
  }

  /**
   * The temporary file becomes the destination, and an ok FIN is sent, exactly if its digest is the one announced up to
   * the case of letters. Otherwise both files stay as they are and the mismatch is reported.
   */
  lemma CommitIff(slot: Slot, sha256: string, digest: Bytes -> string)
    requires slot.temp.Some?
    ensures var o := Commit(slot, sha256, digest);
            && o.slot.ctx == None
            && if SameDigest(digest(slot.temp.value), sha256) then
                 o.slot.dest == slot.temp && o.slot.temp == None && o.replies == [Fin("ok", "")]
               else
                 o.slot.dest == slot.dest && o.slot.temp == slot.temp && o.replies == [Fin("error", "hash_mismatch")]
  {
    LowerIff(digest(slot.temp.value), sha256);
  }

  /** META is refused, and changes nothing, exactly if a number in it is out of range. */
  lemma MetaRefusedIff(slot: Slot, m: Message, digest: Bytes -> string)
    requires m.Meta?
    ensures var o := OnMeta(slot, m, digest);
            o == Outcome(slot, [Fin("error", "bad_meta_ranges")]) <==> m.chunkSize <= 0 || m.size < 0 || m.total < 0
  {
    if !(m.chunkSize <= 0 || m.size < 0 || m.total < 0) && m.total == 0 {
      CommitIff(slot.(temp := Some([])), m.sha256, digest);
    }
  }
}
