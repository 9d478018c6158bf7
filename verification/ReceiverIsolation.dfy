/**
 * The receiver over whole histories, with any number of transfers: each fares as if it were alone, as long as paths are
 * kept apart, and no destination ever holds anything but what was there before or its own source.
 */
module ReceiverIsolation {
  import opened Bytes
  import opened Wrappers
  import opened Messages
  import opened Payloads
  import opened KeyValue
  import opened Frames
  import opened Posting
  import opened ReceiveSlot
  import opened ReceiverNode
  import Reassembly
  import Ranges

  /** A META or DATA frame for the dispatcher, META with the outcome of its path checks. */
  datatype Arrival = MetaFrame(frame: Frame, dest: Option<string>) | DataFrame(frame: Frame)

  function Handle(n: Node, a: Arrival, digest: Bytes -> string): NodeOutcome {
    match a
    case MetaFrame(frame, dest) => MetaAt(n, frame, dest, digest)
    case DataFrame(frame) => DataAt(n, frame, digest)
  }

  /** The node after all of them, and every letter queued. */
  function HandleAll(n: Node, arrivals: seq<Arrival>, digest: Bytes -> string): NodeOutcome
    decreases |arrivals|
  {
    if arrivals == [] then NodeOutcome(n, [])
    else
      var before := HandleAll(n, arrivals[..|arrivals| - 1], digest);
      var o := Handle(before.node, arrivals[|arrivals| - 1], digest);
      NodeOutcome(o.node, before.letters + o.letters)
  }

  /** The letters about one transfer. */
  function About(letters: seq<Letter>, id: string): seq<Letter> {
    if letters == [] then []
    else
      var last := letters[|letters| - 1];
      About(letters[..|letters| - 1], id) + if last.Reply? && last.fileId == id then [last] else []
  }

  lemma {:induction false} AboutAppend(a: seq<Letter>, b: seq<Letter>, id: string)
    ensures About(a + b, id) == About(a, id) + About(b, id)
  {
    if b == [] {
      assert a + b == a;
    } else {
      assert (a + b)[..|a + b| - 1] == a + b[..|b| - 1];
      AboutAppend(a, b[..|b| - 1], id);
    }
  }

  lemma {:induction false} AboutOthers(letters: seq<Letter>, id: string)
    requires forall i :: 0 <= i < |letters| ==> letters[i].Reply? && letters[i].fileId != id
    ensures About(letters, id) == []
  {
    if letters != [] {
      AboutOthers(letters[..|letters| - 1], id);
    }
  }

  /** The frame names the given transfer, be it only to be refused. */
  predicate Names(a: Arrival, id: string) {
    match a
    case MetaFrame(frame, _) => var r := ReadMeta(frame.payload); !r.Undecodable? && r.fileId == id
    case DataFrame(frame) =>
      var r := ReadData(frame.payload);
      (r.Chunk? && r.fileId == id) || (r.BadPayload? && id == "unknown")
  }

  function Own(arrivals: seq<Arrival>, id: string): seq<Arrival>
    decreases |arrivals|
  {
    if arrivals == [] then []
    else
      var last := arrivals[|arrivals| - 1];
      Own(arrivals[..|arrivals| - 1], id) + if Names(last, id) then [last] else []
  }

  /** What is announced for this transfer goes to `dest`, what is announced for any other goes apart from it. */
  ghost predicate Placed(a: Arrival, id: string, dest: string) {
    a.MetaFrame? && a.dest.Some? && ReadMeta(a.frame.payload).Announced? ==>
      if Names(a, id) then a.dest.value == dest else Apart(a.dest.value, dest)
  }

  /** The same for the contexts there are. */
  ghost predicate Settled(n: Node, id: string, dest: string) {
    forall other :: other in n.entries ==>
                      if other == id then n.entries[other].dest == dest else Apart(n.entries[other].dest, dest)
  }

  lemma SettledStays(n: Node, a: Arrival, digest: Bytes -> string, id: string, dest: string)
    requires Settled(n, id, dest) && Placed(a, id, dest)
    ensures Settled(Handle(n, a, digest).node, id, dest)
  {
  }

  /** A frame of another transfer goes unnoticed, and nothing is said about this one. */
  lemma OtherUnnoticed(n: Node, a: Arrival, digest: Bytes -> string, id: string, dest: string)
    requires Settled(n, id, dest) && Placed(a, id, dest) && !Names(a, id)
    ensures SlotAt(Handle(n, a, digest).node, id, dest) == SlotAt(n, id, dest)
    ensures About(Handle(n, a, digest).letters, id) == []
  {
    AboutOthers(Handle(n, a, digest).letters, id);
    match a
    case MetaFrame(frame, d) => MetaTouchesOne(n, frame, d, digest, id, dest);
    case DataFrame(frame) => DataTouchesOne(n, frame, digest, id, dest);
  }

  /** What a frame does to its own transfer depends on nothing else in the node. */
  lemma OwnAlike(n: Node, m: Node, a: Arrival, digest: Bytes -> string, id: string, dest: string)
    requires Settled(n, id, dest) && Settled(m, id, dest) && Placed(a, id, dest) && Names(a, id)
    requires SlotAt(n, id, dest) == SlotAt(m, id, dest)
    ensures SlotAt(Handle(n, a, digest).node, id, dest) == SlotAt(Handle(m, a, digest).node, id, dest)
    ensures Handle(n, a, digest).letters == Handle(m, a, digest).letters
  {
    var slot := SlotAt(n, id, dest);
    match a
    case MetaFrame(frame, d) =>
      var r := ReadMeta(frame.payload);
      if r.Announced? && !BadRanges(r.meta) && d.Some? {
        SlotWritten(n, id, dest, OnMeta(slot, r.meta, digest).slot);
        SlotWritten(m, id, dest, OnMeta(slot, r.meta, digest).slot);
      }
    case DataFrame(frame) =>
      var r := ReadData(frame.payload);
      if r.Chunk? && Accepts(slot, r.data) {
        SlotWritten(n, id, dest, OnClose(OnData(slot, r.data).slot, digest).slot);
        SlotWritten(m, id, dest, OnClose(OnData(slot, r.data).slot, digest).slot);
      }
  }

  /**
   * Among any frames of any number of transfers, with paths kept apart, a transfer's context and its two files end up,
   * and the letters about it are, as if none but its own frames had arrived.
   */
  lemma {:induction false} EachAsIfAlone(
      n: Node, arrivals: seq<Arrival>, digest: Bytes -> string, id: string, dest: string)
    requires Settled(n, id, dest) && forall i :: 0 <= i < |arrivals| ==> Placed(arrivals[i], id, dest)
    ensures var all, own := HandleAll(n, arrivals, digest), HandleAll(n, Own(arrivals, id), digest);
            && SlotAt(all.node, id, dest) == SlotAt(own.node, id, dest)
            && About(all.letters, id) == About(own.letters, id)
            && Settled(all.node, id, dest) && Settled(own.node, id, dest)
    decreases |arrivals|
  {
    if arrivals != [] {
      var init, last := arrivals[..|arrivals| - 1], arrivals[|arrivals| - 1];
      EachAsIfAlone(n, init, digest, id, dest);
      var all, own := HandleAll(n, init, digest), HandleAll(n, Own(init, id), digest);
      SettledStays(all.node, last, digest, id, dest);
      AboutAppend(all.letters, Handle(all.node, last, digest).letters, id);
      if Names(last, id) {
        assert Own(arrivals, id)[..|Own(arrivals, id)| - 1] == Own(init, id);
        SettledStays(own.node, last, digest, id, dest);
        OwnAlike(all.node, own.node, last, digest, id, dest);
        AboutAppend(own.letters, Handle(own.node, last, digest).letters, id);
      } else {
        assert Own(arrivals, id) == Own(init, id);
        OtherUnnoticed(all.node, last, digest, id, dest);
      }
    }
  }

  // Safety for all of them

  /** Transfers under their own identifiers, and where the receiver puts each. */
  ghost predicate Cast(ts: map<string, Transfer>, places: map<string, string>, digest: Bytes -> string) {
    && ts.Keys == places.Keys
    && (forall id :: id in ts ==> Honourable(ts[id], id, digest))
    && (forall id, id' :: id in ts && id' in ts && id != id' ==> Apart(places[id], places[id']))
  }

  /** Its texts survive the way, and its numbers and its hash are right. */
  ghost predicate Honourable(t: Transfer, id: string, digest: Bytes -> string) {
    && t.fileId == id && t.Valid() && t.sha256 == digest(t.source)
    && UsableId(t.fileId) && UsableId(t.name) && UsableId(t.sha256) && CleanValue(t.relPath)
  }

  /** Its META, or any of its chunks. */
  ghost predicate FrameOf(a: Arrival, t: Transfer, dest: string) {
    match a
    case MetaFrame(frame, d) => frame.payload == KvBytes(MetaPairs(t)) && d == Some(dest)
    case DataFrame(frame) =>
      exists i: nat :: i < t.total && frame.payload == DataPayload(t.fileId, i, t.total, t.Data(i).chunk)
  }

  ghost predicate FrameOfCast(a: Arrival, ts: map<string, Transfer>, places: map<string, string>)
    requires ts.Keys == places.Keys
  {
    exists id :: id in ts && FrameOf(a, ts[id], places[id])
  }

  /** The context, if any, is the transfer's own, and the destination holds what was there before or the source. */
  ghost predicate Sound(t: Transfer, slot: Slot, before: Option<Bytes>) {
    && (slot.dest == before || slot.dest == Some(t.source))
    && (slot.ctx.Some? ==>
          var ctx := slot.ctx.value;
          && ctx.chunkSize == t.chunkSize > 0 && ctx.total == t.total && ctx.sha256 == t.sha256
          && Consistent(ctx) && !Full(ctx)
          && slot.temp.Some? && Reassembly.Reassembled(slot.temp.value, t.source, t.chunkSize, ctx.received))
  }

  predicate Peaceful(replies: seq<Message>) {
    forall i :: 0 <= i < |replies| ==> replies[i].Ack? || replies[i] == FIN_OK
  }

  lemma SoundMeta(t: Transfer, id: string, slot: Slot, before: Option<Bytes>, digest: Bytes -> string)
    requires Honourable(t, id, digest) && Sound(t, slot, before)
    ensures var o := OnMeta(slot, t.Meta(), digest); Sound(t, o.slot, before) && Peaceful(o.replies)
  {
    if t.total == 0 {
      Reassembly.InRange(|t.source|, t.chunkSize, 0);
    } else {
      assert Ranges.Range(0, 0) == {};
    }
  }

  lemma SoundData(t: Transfer, id: string, slot: Slot, before: Option<Bytes>, digest: Bytes -> string, i: nat)
    requires Honourable(t, id, digest) && Sound(t, slot, before) && i < t.total && Accepts(slot, t.Data(i))
    ensures var o := OnData(slot, t.Data(i));
            var c := OnClose(o.slot, digest);
            Sound(t, c.slot, before) && Peaceful(o.replies + c.replies)
  {
    var ctx := slot.ctx.value;
    ReceiveKeepsConsistent(ctx, i);
    Reassembly.WriteChunk(slot.temp.value, t.source, t.chunkSize, ctx.received, i);
    SoundClose(t, id, OnData(slot, t.Data(i)).slot, before, digest);
  }

  /** Closing a frame leaves a context that is not full, or the source at its destination. */
  lemma SoundClose(t: Transfer, id: string, slot: Slot, before: Option<Bytes>, digest: Bytes -> string)
    requires Honourable(t, id, digest) && (slot.dest == before || slot.dest == Some(t.source))
    requires slot.ctx.Some? && slot.temp.Some?
    requires var ctx := slot.ctx.value;
             && ctx.chunkSize == t.chunkSize > 0 && ctx.total == t.total && ctx.sha256 == t.sha256 && Consistent(ctx)
             && Reassembly.Reassembled(slot.temp.value, t.source, t.chunkSize, ctx.received)
    ensures var c := OnClose(slot, digest);
            Sound(t, c.slot, before) && (c.replies == [] || c.replies == [FIN_OK])
  {
    FullIffNothingMissing(slot.ctx.value);
    if Full(slot.ctx.value) {
      Reassembly.AllChunksGiveSource(slot.temp.value, t.source, t.chunkSize, slot.ctx.value.received);
    }
  }

  /** Contexts are for transfers of the cast, each in its place. */
  ghost predicate Hosted(n: Node, ts: map<string, Transfer>, places: map<string, string>)
    requires ts.Keys == places.Keys
  {
    forall id :: id in n.entries ==> id in ts && n.entries[id].dest == places[id]
  }

  lemma HostedSettled(
      n: Node, ts: map<string, Transfer>, places: map<string, string>, digest: Bytes -> string, id: string)
    requires Cast(ts, places, digest) && Hosted(n, ts, places) && id in ts
    ensures Settled(n, id, places[id])
  {
  }

  ghost predicate PeacefulLetters(letters: seq<Letter>) {
    forall i :: 0 <= i < |letters| ==> letters[i].message.Ack? || letters[i].message == FIN_OK
  }

  /** What the receiver makes of a META of the transfer. */
  lemma MetaHandled(n: Node, frame: Frame, t: Transfer, dest: string, id: string, digest: Bytes -> string)
    requires Honourable(t, id, digest) && frame.payload == KvBytes(MetaPairs(t))
    ensures Names(MetaFrame(frame, Some(dest)), id)
    ensures Handle(n, MetaFrame(frame, Some(dest)), digest)
            == Applied(n, id, dest, OnMeta(SlotAt(n, id, dest), t.Meta(), digest), frame.srcMac)
    ensures ReadMeta(frame.payload).Announced? && ReadMeta(frame.payload).fileId == id
  {
    MetaRoundTripIff(t);
  }

  lemma DataHandled(n: Node, frame: Frame, t: Transfer, i: nat, id: string, digest: Bytes -> string)
    requires Honourable(t, id, digest) && frame.payload == DataPayload(t.fileId, i, t.total, t.Data(i).chunk)
    ensures ReadData(frame.payload) == Chunk(id, t.Data(i))
  {
    DataRoundTripIff(t.fileId, i, t.total, t.Data(i).chunk);
  }

  /** What a transfer's own frame may do. */
  ghost predicate Proper(
      n: Node, o: NodeOutcome, t: Transfer, dest: string, id: string, before: Option<Bytes>)
  {
    && Sound(t, SlotAt(o.node, id, dest), before) && PeacefulLetters(o.letters)
    && o.node.entries.Keys <= n.entries.Keys + {id}
    && (id in o.node.entries ==> o.node.entries[id].dest == dest)
    && (forall other :: other in o.node.entries && other != id ==>
          other in n.entries && o.node.entries[other] == n.entries[other])
  }

  lemma AppliedProper(
      n: Node, t: Transfer, dest: string, id: string, o: Outcome, peer: string, before: Option<Bytes>)
    requires Sound(t, o.slot, before) && Peaceful(o.replies)
    ensures Proper(n, Applied(n, id, dest, o, peer), t, dest, id, before)
  {
    SlotWritten(n, id, dest, o.slot);
  }

  /** A transfer's own frame keeps it sound, and is answered with an ACK, an ok FIN, or not at all. */
  lemma OwnSound(
      n: Node, a: Arrival, t: Transfer, dest: string, id: string, before: Option<Bytes>, digest: Bytes -> string)
    requires Honourable(t, id, digest) && FrameOf(a, t, dest)
    requires Sound(t, SlotAt(n, id, dest), before) && (id in n.entries ==> n.entries[id].dest == dest)
    ensures Proper(n, Handle(n, a, digest), t, dest, id, before)
    ensures forall other :: other != id ==> !Names(a, other)
  {
    var slot := SlotAt(n, id, dest);
    match a
    case MetaFrame(frame, d) =>
      MetaHandled(n, frame, t, dest, id, digest);
      SoundMeta(t, id, slot, before, digest);
      AppliedProper(n, t, dest, id, OnMeta(slot, t.Meta(), digest), frame.srcMac, before);
    case DataFrame(frame) =>
      var i: nat :| i < t.total && frame.payload == DataPayload(t.fileId, i, t.total, t.Data(i).chunk);
      DataHandled(n, frame, t, i, id, digest);
      if Accepts(slot, t.Data(i)) {
        var o := OnData(slot, t.Data(i));
        var c := OnClose(o.slot, digest);
        SoundData(t, id, slot, before, digest, i);
        AppliedProper(n, t, dest, id, Outcome(c.slot, o.replies + c.replies), frame.srcMac, before);
      }
  }

  ghost predicate AllSound(
      n: Node, ts: map<string, Transfer>, places: map<string, string>, disk: Disk)
    requires ts.Keys == places.Keys
  {
    forall id :: id in ts ==> Sound(ts[id], SlotAt(n, id, places[id]), Lookup(disk, places[id]))
  }

  lemma CastStep(
      n: Node, a: Arrival, ts: map<string, Transfer>, places: map<string, string>, disk: Disk, digest: Bytes -> string)
    requires Cast(ts, places, digest) && FrameOfCast(a, ts, places)
    requires Hosted(n, ts, places) && AllSound(n, ts, places, disk)
    ensures var o := Handle(n, a, digest);
            Hosted(o.node, ts, places) && AllSound(o.node, ts, places, disk) && PeacefulLetters(o.letters)
  {
    var own :| own in ts && FrameOf(a, ts[own], places[own]);
    assert Sound(ts[own], SlotAt(n, own, places[own]), Lookup(disk, places[own]));
    OwnSound(n, a, ts[own], places[own], own, Lookup(disk, places[own]), digest);
    HostedStays(n, Handle(n, a, digest), ts, places, own, Lookup(disk, places[own]));
    AllSoundStays(n, a, ts, places, disk, own, digest);
  }

  lemma HostedStays(
      n: Node, o: NodeOutcome, ts: map<string, Transfer>, places: map<string, string>, own: string,
      before: Option<Bytes>)
    requires ts.Keys == places.Keys && own in ts && Hosted(n, ts, places)
    requires Proper(n, o, ts[own], places[own], own, before)
    ensures Hosted(o.node, ts, places)
  {
  }

  lemma AllSoundStays(
      n: Node, a: Arrival, ts: map<string, Transfer>, places: map<string, string>, disk: Disk, own: string,
      digest: Bytes -> string)
    requires Cast(ts, places, digest) && Hosted(n, ts, places) && AllSound(n, ts, places, disk)
    requires own in ts && FrameOf(a, ts[own], places[own]) && forall other :: other != own ==> !Names(a, other)
    requires Sound(ts[own], SlotAt(Handle(n, a, digest).node, own, places[own]), Lookup(disk, places[own]))
    ensures AllSound(Handle(n, a, digest).node, ts, places, disk)
  {
    forall id | id in ts
      ensures Sound(ts[id], SlotAt(Handle(n, a, digest).node, id, places[id]), Lookup(disk, places[id]))
    {
      if id != own {
        OthersStay(n, a, ts, places, own, id, digest);
        assert Sound(ts[id], SlotAt(n, id, places[id]), Lookup(disk, places[id]));
      }
    }
  }

  lemma OthersStay(n: Node, a: Arrival, ts: map<string, Transfer>, places: map<string, string>, own: string, id: string,
                   digest: Bytes -> string)
    requires Cast(ts, places, digest) && Hosted(n, ts, places)
    requires own in ts && id in ts && id != own && FrameOf(a, ts[own], places[own]) && !Names(a, id)
    ensures SlotAt(Handle(n, a, digest).node, id, places[id]) == SlotAt(n, id, places[id])
  {
    HostedSettled(n, ts, places, digest, id);
    OtherUnnoticed(n, a, digest, id, places[id]);
  }

  /**
   * Whatever frames of whatever transfers of the cast arrive, in whatever order and however often, every destination
   * holds what was there before or its own source, and every answer is an ACK or an ok FIN.
   */
  lemma EveryDestinationSafe(
      ts: map<string, Transfer>, places: map<string, string>, disk: Disk, arrivals: seq<Arrival>,
      digest: Bytes -> string)
    requires Cast(ts, places, digest) && forall i :: 0 <= i < |arrivals| ==> FrameOfCast(arrivals[i], ts, places)
    ensures var o := HandleAll(Node(map[], disk), arrivals, digest);
            && (forall id :: id in ts ==>
                  || Lookup(o.node.disk, places[id]) == Lookup(disk, places[id])
                  || Lookup(o.node.disk, places[id]) == Some(ts[id].source))
            && PeacefulLetters(o.letters)
  {
    CastInvariant(ts, places, disk, arrivals, digest);
    var n := HandleAll(Node(map[], disk), arrivals, digest).node;
    forall id | id in ts
      ensures || Lookup(n.disk, places[id]) == Lookup(disk, places[id])
              || Lookup(n.disk, places[id]) == Some(ts[id].source)
    {
      assert Sound(ts[id], SlotAt(n, id, places[id]), Lookup(disk, places[id]));
    }
  }

  lemma {:induction false} CastInvariant(
      ts: map<string, Transfer>, places: map<string, string>, disk: Disk, arrivals: seq<Arrival>,
      digest: Bytes -> string)
    requires Cast(ts, places, digest) && forall i :: 0 <= i < |arrivals| ==> FrameOfCast(arrivals[i], ts, places)
    ensures var o := HandleAll(Node(map[], disk), arrivals, digest);
            Hosted(o.node, ts, places) && AllSound(o.node, ts, places, disk) && PeacefulLetters(o.letters)
    decreases |arrivals|
  {
    if arrivals == [] {
      Untouched(ts, places, disk);
    } else {
      var init, last := arrivals[..|arrivals| - 1], arrivals[|arrivals| - 1];
      assert last == arrivals[|arrivals| - 1] && FrameOfCast(last, ts, places);
      CastInvariant(ts, places, disk, init, digest);
      CastStep(HandleAll(Node(map[], disk), init, digest).node, last, ts, places, disk, digest);
    }
  }

  lemma Untouched(ts: map<string, Transfer>, places: map<string, string>, disk: Disk)
    requires ts.Keys == places.Keys
    ensures Hosted(Node(map[], disk), ts, places) && AllSound(Node(map[], disk), ts, places, disk)
  {
  }
}
