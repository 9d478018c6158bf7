/**
 * The receiving side as it is written: FileRcvCtxSchema objects in FileReceiver's dictionary, temporary and
 * destination files on disk, and the two handlers. Each is proved against the functions of ReceiveSlot.
 */
module ReceiverNode {
  import opened Bytes
  import opened Wrappers
  import opened Ranges
  import opened Messages
  import opened Payloads
  import opened Frames
  import opened Posting
  import opened ReceiveSlot
  import Reassembly

  type Disk = map<string, Bytes>

  /** A context and the path its file will be moved to; the temporary file is beside it. */
  datatype Entry = Entry(dest: string, state: RecvState)

  datatype Node = Node(entries: map<string, Entry>, disk: Disk)

  function Part(dest: string): string {
    dest + ".part"
  }

  function Lookup(disk: Disk, path: string): Option<Bytes> {
    if path in disk then Some(disk[path]) else None
  }

  function Store(disk: Disk, path: string, content: Option<Bytes>): Disk {
    if content.Some? then disk[path := content.value] else disk - {path}
  }

  /** The part of the node that a transfer to `dest` works on. */
  function SlotAt(n: Node, id: string, dest: string): Slot {
    Slot(if id in n.entries then Some(n.entries[id].state) else None, Lookup(n.disk, Part(dest)), Lookup(n.disk, dest))
  }

  function WithSlot(n: Node, id: string, dest: string, s: Slot): Node {
    Node(if s.ctx.Some? then n.entries[id := Entry(dest, s.ctx.value)] else n.entries - {id},
         Store(Store(n.disk, Part(dest), s.temp), dest, s.dest))
  }

  lemma PartDiffers(dest: string)
    ensures Part(dest) != dest
  {
    assert |Part(dest)| == |dest| + 5;
  }

  lemma SlotWritten(n: Node, id: string, dest: string, s: Slot)
    ensures SlotAt(WithSlot(n, id, dest, s), id, dest) == s
  {
    PartDiffers(dest);
  }

  /** Neither file of the one destination is a file of the other. */
  predicate Apart(dest: string, dest': string) {
    dest != dest' && Part(dest) != dest' && dest != Part(dest')
  }

  /** Work on one transfer leaves every other one alone, as long as their paths are different. */
  lemma SlotsAreIndependent(n: Node, id: string, dest: string, s: Slot, id': string, dest': string)
    requires id' != id && Apart(dest, dest')
    ensures SlotAt(WithSlot(n, id, dest, s), id', dest') == SlotAt(n, id', dest')
  {
    assert |Part(dest)| == |dest| + 5 && |Part(dest')| == |dest'| + 5;
    assert Part(dest)[..|dest|] == dest && Part(dest')[..|dest'|] == dest';
  }

  datatype NodeOutcome = NodeOutcome(node: Node, letters: seq<Letter>)

  function Applied(n: Node, id: string, dest: string, o: Outcome, peer: string): NodeOutcome {
    NodeOutcome(WithSlot(n, id, dest, o.slot), Replies(id, peer, o.replies))
  }

  function Refused(n: Node, id: string, peer: string, reason: string): NodeOutcome {
    NodeOutcome(n, [Reply(id, peer, Fin("error", reason))])
  }

  /** `_on_meta`; `dest` is the path the file may be written to, None if the path checks refuse it. */
  function MetaAt(n: Node, frame: Frame, dest: Option<string>, digest: Bytes -> string): NodeOutcome {
    match ReadMeta(frame.payload)
    case Undecodable => NodeOutcome(n, [])
    case Rejected(id, reason) => Refused(n, id, frame.srcMac, reason)
    case Announced(id, _, _, _, m) =>
      if BadRanges(m) then Refused(n, id, frame.srcMac, "bad_meta_ranges")
      else
        match dest
        case None => Refused(n, id, frame.srcMac, "path_outside_base")
        case Some(d) => Applied(n, id, d, OnMeta(SlotAt(n, id, d), m, digest), frame.srcMac)
  }

  /** `_on_data`: both locked regions, one after the other. */
  function DataAt(n: Node, frame: Frame, digest: Bytes -> string): NodeOutcome {
    match ReadData(frame.payload)
    case BadPayload => Refused(n, "unknown", frame.srcMac, "bad_payload")
    case Ignored => NodeOutcome(n, [])
    case Chunk(id, m) =>
      if id !in n.entries then NodeOutcome(n, [])
      else
        var d := n.entries[id].dest;
        if !Accepts(SlotAt(n, id, d), m) then NodeOutcome(n, [])
        else
          var o := OnData(SlotAt(n, id, d), m);
          var c := OnClose(o.slot, digest);
          Applied(n, id, d, Outcome(c.slot, o.replies + c.replies), frame.srcMac)
  }

  /** A META frame changes nothing but the transfer it announces. */
  lemma MetaTouchesOne(n: Node, frame: Frame, dest: Option<string>, digest: Bytes -> string, id': string, dest': string)
    requires ReadMeta(frame.payload).Announced? && dest.Some? ==>
               ReadMeta(frame.payload).fileId != id' && Apart(dest.value, dest')
    ensures SlotAt(MetaAt(n, frame, dest, digest).node, id', dest') == SlotAt(n, id', dest')
  {
    match ReadMeta(frame.payload)
    case Announced(id, _, _, _, m) =>
      if !BadRanges(m) && dest.Some? {
        SlotsAreIndependent(n, id, dest.value, OnMeta(SlotAt(n, id, dest.value), m, digest).slot, id', dest');
      }
    case _ =>
  }

  /** A DATA frame changes nothing but the transfer it belongs to. */
  lemma DataTouchesOne(n: Node, frame: Frame, digest: Bytes -> string, id': string, dest': string)
    requires var r := ReadData(frame.payload);
             r.Chunk? && r.fileId in n.entries ==> r.fileId != id' && Apart(n.entries[r.fileId].dest, dest')
    ensures SlotAt(DataAt(n, frame, digest).node, id', dest') == SlotAt(n, id', dest')
  {
    match ReadData(frame.payload)
    case Chunk(id, m) =>
      if id in n.entries && Accepts(SlotAt(n, id, n.entries[id].dest), m) {
        var d := n.entries[id].dest;
        SlotsAreIndependent(n, id, d, OnClose(OnData(SlotAt(n, id, d), m).slot, digest).slot, id', dest');
      }
    case _ =>
  }

  /** A chunk whose index is outside the file, or that announces no chunks, changes nothing and is not answered. */
  lemma OutOfRangeIgnored(n: Node, frame: Frame, digest: Bytes -> string)
    requires var r := ReadData(frame.payload);
             r.Chunk? && r.fileId in n.entries
             && (r.data.idx < 0 || r.data.idx >= n.entries[r.fileId].state.total || r.data.total <= 0)
    ensures DataAt(n, frame, digest) == NodeOutcome(n, [])
  {
  }

  /** A chunk whose header lacks its index or the total is ignored. */
  lemma IncompleteIgnored(n: Node, frame: Frame, digest: Bytes -> string, kv: map<string, string>, data: Bytes)
    requires ReadData(frame.payload) == ReadDataHeader(kv, data) && !("idx" in kv && "total" in kv)
    ensures DataAt(n, frame, digest) == NodeOutcome(n, [])
  {
    var r := ReadData(frame.payload);
    if r.Chunk? {
      DataIff(kv, data, r.fileId, r.data);
    }
  }

  /** Any other chunk of an open transfer is taken: it is acknowledged with the least chunk still missing. */
  lemma InRangeAnswered(n: Node, frame: Frame, digest: Bytes -> string)
    requires var r := ReadData(frame.payload);
             && r.Chunk? && r.fileId in n.entries && n.entries[r.fileId].dest + ".part" in n.disk
             && 0 <= r.data.idx < n.entries[r.fileId].state.total && r.data.total > 0
             && Consistent(n.entries[r.fileId].state)
    ensures var r := ReadData(frame.payload);
            var letters := DataAt(n, frame, digest).letters;
            && letters != [] && letters[0].Reply? && letters[0].message.Ack? && letters[0].message.nextNeeded >= 0
            && letters[0].fileId == r.fileId && letters[0].dstMac == frame.srcMac
            && LeastMissing(n.entries[r.fileId].state.received + {r.data.idx}, letters[0].message.nextNeeded)
  {
    var r := ReadData(frame.payload);
    ReceiveKeepsConsistent(n.entries[r.fileId].state, r.data.idx);
  }

  // When transfers do interfere

  /** The path is one of the two that a transfer to `dest` works on. */
  predicate Owns(dest: string, path: string) {
    path == dest || path == Part(dest)
  }

  lemma StoreLookup(disk: Disk, path: string, content: Option<Bytes>, p: string)
    ensures Lookup(Store(disk, path, content), p) == if p == path then content else Lookup(disk, p)
  {
  }

  lemma StoredLookup(n: Node, id: string, d: string, s: Slot, p: string)
    ensures Lookup(WithSlot(n, id, d, s).disk, p)
            == if p == d then s.dest else if p == Part(d) then s.temp else Lookup(n.disk, p)
  {
    PartDiffers(d);
    StoreLookup(n.disk, Part(d), s.temp, p);
    StoreLookup(Store(n.disk, Part(d), s.temp), d, s.dest, p);
  }

  /** Work on one transfer is unnoticed by another exactly when what it changes on disk is none of the other's files. */
  lemma UnnoticedIff(n: Node, id: string, d: string, s: Slot, id': string, d': string)
    requires id' != id
    ensures SlotAt(WithSlot(n, id, d, s), id', d') == SlotAt(n, id', d')
            <==> && (Owns(d', d) ==> s.dest == Lookup(n.disk, d))
                 && (Owns(d', Part(d)) ==> s.temp == Lookup(n.disk, Part(d)))
  {
    PartDiffers(d);
    PartDiffers(d');
    StoredLookup(n, id, d, s, d');
    StoredLookup(n, id, d, s, Part(d'));
  }

  /** A temporary file of one transfer is a file of the other: same destination, or a destination called "x.part". */
  lemma OwnsPartIff(d: string, d': string)
    ensures Owns(d', Part(d)) <==> d == d' || d + ".part" == d'
    ensures Owns(d', d) <==> d == d' || d == Part(d')
  {
    assert Part(d)[..|d|] == d && Part(d')[..|d'|] == d';
    assert |Part(d)| == |d| + 5 && |Part(d')| == |d'| + 5;
  }

  /** Whether the hash of a complete file will be accepted. */
  predicate Matches(content: Bytes, sha256: string, digest: Bytes -> string) {
    Lower(digest(content)) == Lower(sha256)
  }

  /**
   * Exactly when another transfer does not notice a META. Unless the META commits an empty file, the one thing it
   * changes is the temporary file, which it empties: so the other must neither have the same destination nor be
   * destined for "x.part" where this one is for "x", or that file must have been empty already.
   */
  lemma MetaUnnoticedIff(n: Node, frame: Frame, d: string, digest: Bytes -> string, id': string, d': string)
    requires var r := ReadMeta(frame.payload); r.Announced? && !BadRanges(r.meta) && r.fileId != id'
    ensures var m := ReadMeta(frame.payload).meta;
            SlotAt(MetaAt(n, frame, Some(d), digest).node, id', d') == SlotAt(n, id', d')
            <==> if m.total == 0 && Matches([], m.sha256, digest) then
                   && (d == d' || d == Part(d') ==> Lookup(n.disk, d) == Some([]))
                   && (d == d' || Part(d) == d' ==> Lookup(n.disk, Part(d)) == None)
                 else d == d' || Part(d) == d' ==> Lookup(n.disk, Part(d)) == Some([])
  {
    var r := ReadMeta(frame.payload);
    OwnsPartIff(d, d');
    UnnoticedIff(n, r.fileId, d, OnMeta(SlotAt(n, r.fileId, d), r.meta, digest).slot, id', d');
  }

  /** The temporary file after a chunk has been written. */
  function Written(n: Node, id: string, m: Message): Bytes
    requires m.Data? && id in n.entries && Accepts(SlotAt(n, id, n.entries[id].dest), m)
  {
    var e := n.entries[id];
    Reassembly.Patch(n.disk[Part(e.dest)], m.idx * e.state.chunkSize, m.chunk)
  }

  /** The chunk is the last one missing, and the file passes its check. */
  predicate Committing(n: Node, id: string, m: Message, digest: Bytes -> string)
    requires m.Data? && id in n.entries && Accepts(SlotAt(n, id, n.entries[id].dest), m)
  {
    var state := Receive(n.entries[id].state, m.idx);
    Full(state) && Matches(Written(n, id, m), state.sha256, digest)
  }

  /**
   * Exactly when another transfer does not notice a DATA frame that is accepted: if it commits, neither the destination
   * nor the temporary file may be the other's, unless the destination had that content already; if it does not, the
   * chunk may only write to the other's file what was there.
   */
  lemma DataUnnoticedIff(n: Node, frame: Frame, digest: Bytes -> string, id': string, d': string)
    requires var r := ReadData(frame.payload);
             && r.Chunk? && r.fileId in n.entries && r.fileId != id'
             && Accepts(SlotAt(n, r.fileId, n.entries[r.fileId].dest), r.data)
    ensures var r := ReadData(frame.payload);
            var d, file := n.entries[r.fileId].dest, Written(n, r.fileId, r.data);
            SlotAt(DataAt(n, frame, digest).node, id', d') == SlotAt(n, id', d')
            <==> if Committing(n, r.fileId, r.data, digest) then
                   d != d' && Part(d) != d' && (d == Part(d') ==> Lookup(n.disk, d) == Some(file))
                 else d == d' || Part(d) == d' ==> n.disk[Part(d)] == file
  {
    var r := ReadData(frame.payload);
    var d := n.entries[r.fileId].dest;
    var o := OnData(SlotAt(n, r.fileId, d), r.data);
    OwnsPartIff(d, d');
    UnnoticedIff(n, r.fileId, d, OnClose(o.slot, digest).slot, id', d');
  }

  /**
   * A META for "x" empties the temporary file under any other context with destination "x", which keeps believing in
   * what it has received, and empties a file that another transfer has committed as "x.part".
   */
  lemma MetaDestroys(n: Node, frame: Frame, d: string, digest: Bytes -> string, id': string)
    requires var r := ReadMeta(frame.payload);
             r.Announced? && !BadRanges(r.meta) && r.meta.total > 0 && r.fileId != id'
    ensures var after := MetaAt(n, frame, Some(d), digest).node;
            && SlotAt(after, id', d).temp == Some([])
            && SlotAt(after, id', Part(d)).dest == Some([])
            && (id' in n.entries ==> id' in after.entries && after.entries[id'] == n.entries[id'])
  {
    PartDiffers(d);
  }

  /** How many received chunks the cursor has not passed. */
  ghost function Ahead(received: set<nat>, n: nat): nat {
    |received - Range(0, n)|
  }

  lemma Shrinks(received: set<nat>, n: nat)
    requires n in received
    ensures Ahead(received, n + 1) < Ahead(received, n)
    ensures FirstMissing(received, n) == FirstMissing(received, n + 1)
  {
    assert received - Range(0, n) == (received - Range(0, n + 1)) + {n};
  }

  /** What a commit does to the whole node. */
  lemma CommitNode(n: Node, id: string, dest: string, sha256: string, digest: Bytes -> string)
    requires Part(dest) in n.disk
    ensures var temp := Part(dest);
            var same := Lower(digest(n.disk[temp])) == Lower(sha256);
            var o := Commit(SlotAt(n, id, dest), sha256, digest);
            && WithSlot(n, id, dest, o.slot)
               == Node(n.entries - {id}, if same then (n.disk - {temp})[dest := n.disk[temp]] else n.disk)
            && o.replies == [if same then FIN_OK else FIN_HASH_MISMATCH]
  {
    PartDiffers(dest);
  }

  /** What the context holds does not matter any more. */
  lemma CommitIgnoresContext(n: Node, id: string, e: Entry, dest: string, sha256: string, digest: Bytes -> string)
    requires Part(dest) in n.disk
    ensures var n' := Node(n.entries[id := e], n.disk);
            var o, o' := Commit(SlotAt(n, id, dest), sha256, digest), Commit(SlotAt(n', id, dest), sha256, digest);
            WithSlot(n, id, dest, o.slot) == WithSlot(n', id, dest, o'.slot) && o.replies == o'.replies
  {
    CommitNode(n, id, dest, sha256, digest);
    CommitNode(Node(n.entries[id := e], n.disk), id, dest, sha256, digest);
  }

  /** What a META does to the whole node: the temporary file is emptied, then an empty file is committed. */
  lemma EmptyMetaNode(n: Node, id: string, dest: string, m: Message, digest: Bytes -> string)
    requires m.Meta? && !BadRanges(m) && m.total == 0
    ensures var o := OnMeta(SlotAt(n, id, dest), m, digest);
            var emptied := Node(n.entries, n.disk[Part(dest) := []]);
            && o == Commit(SlotAt(emptied, id, dest), m.sha256, digest)
            && WithSlot(n, id, dest, o.slot) == WithSlot(emptied, id, dest, o.slot)
  {
    PartDiffers(dest);
  }

  /** For any other file a context is opened. */
  lemma OpenMetaNode(n: Node, id: string, dest: string, m: Message, digest: Bytes -> string)
    requires m.Meta? && !BadRanges(m) && m.total > 0
    ensures var o := OnMeta(SlotAt(n, id, dest), m, digest);
            var state := RecvState(m.size, m.sha256, m.chunkSize, m.total, {}, 0, false);
            && WithSlot(n, id, dest, o.slot) == Node(n.entries[id := Entry(dest, state)], n.disk[Part(dest) := []])
            && o.replies == [Ack(0)]
  {
    PartDiffers(dest);
  }

  lemma DataNode(n: Node, id: string, dest: string, m: Message)
    requires m.Data? && id in n.entries && n.entries[id].dest == dest
    requires Accepts(SlotAt(n, id, dest), m)
    ensures var o := OnData(SlotAt(n, id, dest), m);
            var state := Receive(n.entries[id].state, m.idx);
            var file := Reassembly.Patch(n.disk[Part(dest)], m.idx * state.chunkSize, m.chunk);
            && WithSlot(n, id, dest, o.slot) == Node(n.entries[id := Entry(dest, state)], n.disk[Part(dest) := file])
            && o.replies == [Ack(state.nextNeeded)]
  {
    PartDiffers(dest);
  }

  /** The second region finds what the first has left. */
  lemma CloseNode(n: Node, id: string, dest: string, m: Message, peer: string, digest: Bytes -> string)
    requires m.Data? && id in n.entries && n.entries[id].dest == dest
    requires Accepts(SlotAt(n, id, dest), m)
    ensures var o := OnData(SlotAt(n, id, dest), m);
            var n' := WithSlot(n, id, dest, o.slot);
            var c := OnClose(o.slot, digest);
            && SlotAt(n', id, dest) == o.slot
            && WithSlot(n, id, dest, c.slot) == WithSlot(n', id, dest, c.slot)
            && WithSlot(n', id, dest, o.slot) == n'
            && Replies(id, peer, o.replies + c.replies) == Replies(id, peer, o.replies) + Replies(id, peer, c.replies)
            && Replies(id, peer, []) == []
  {
    SlotWritten(n, id, dest, OnData(SlotAt(n, id, dest), m).slot);
    PartDiffers(dest);
  }

  // The classes

  /** FileRcvCtxSchema */
  class FileRcvCtx {
    const dest: string
    const size: int
    const sha256: string
    const chunkSize: nat
    const total: int
    var received: set<nat>
    var nextNeeded: nat
    var finished: bool

    constructor (dest: string, m: Message)
      requires m.Meta? && m.chunkSize >= 0
      ensures View() == Entry(dest, RecvState(m.size, m.sha256, m.chunkSize, m.total, {}, 0, false))
    {
      this.dest, size, sha256, chunkSize, total := dest, m.size, m.sha256, m.chunkSize, m.total;
      received, nextNeeded, finished := {}, 0, false;
    }

    function View(): Entry
      reads this
    {
      Entry(dest, RecvState(size, sha256, chunkSize, total, received, nextNeeded, finished))
    }

    /** Note the chunk and move the cursor. */
    method Note(idx: nat)
      modifies this`received, this`nextNeeded
      ensures View() == old(View()).(state := Receive(old(View()).state, idx))
    {
      if idx !in received {
        received := received + {idx};
        Advance();
      }
    }

    method Advance()
      modifies this`nextNeeded
      ensures nextNeeded == FirstMissing(received, old(nextNeeded))
    {
      ghost var goal := FirstMissing(received, nextNeeded);
      while nextNeeded in received
        invariant FirstMissing(received, nextNeeded) == goal
        decreases Ahead(received, nextNeeded)
      {
        Shrinks(received, nextNeeded);
        nextNeeded := nextNeeded + 1;
      }
    }
  }

  type Contexts = map<string, FileRcvCtx>

  ghost function Entries(contexts: Contexts): map<string, Entry>
    reads contexts.Values
  {
    map id | id in contexts :: contexts[id].View()
  }

  class FileReceiver {
    const box: Outbox
    const digest: Bytes -> string
    var ctxById: Contexts
    var disk: Disk

    /** Different names never share a context object. */
    ghost predicate Valid()
      reads this, box, box.handler
    {
      box.Valid() && forall i, j :: i in ctxById && j in ctxById && i != j ==> ctxById[i] != ctxById[j]
    }

    ghost function View(): Node
      reads this, ctxById.Values
    {
      Node(Entries(ctxById), disk)
    }

    constructor (box: Outbox, digest: Bytes -> string, disk: Disk)
      requires box.Valid()
      ensures Valid() && this.box == box && this.digest == digest && View() == Node(map[], disk)
    {
      this.box, this.digest, ctxById, this.disk := box, digest, map[], disk;
    }

    /** `_send_ack` and `_send_fin` */
    method Answer(id: string, peer: string, m: Message)
      requires box.Valid()
      modifies box, box.handler
      ensures box.Valid() && box.posted == old(box.posted) + [Reply(id, peer, m)]
    {
      box.Send(Reply(id, peer, m));
    }

    /** Compare the hash of the temporary file; move it to its destination or complain; forget the context. */
    method CommitFile(id: string, dest: string, sha256: string, peer: string)
      requires Valid() && Part(dest) in disk
      modifies this`ctxById, this`disk, box, box.handler
      ensures Valid()
      ensures var o := Commit(SlotAt(old(View()), id, dest), sha256, digest);
              && View() == WithSlot(old(View()), id, dest, o.slot)
              && box.posted == old(box.posted) + Replies(id, peer, o.replies)
    {
      CommitNode(View(), id, dest, sha256, digest);
      var temp := Part(dest);
      if Lower(digest(disk[temp])) == Lower(sha256) {
        Move(temp, dest);
        Answer(id, peer, FIN_OK);
      } else {
        Answer(id, peer, FIN_HASH_MISMATCH);
      }
      Pop(id);
    }

    /** os.replace */
    method Move(temp: string, dest: string)
      requires temp in disk
      modifies this`disk
      ensures View() == Node(old(View()).entries, (old(disk) - {temp})[dest := old(disk)[temp]])
    {
      disk := (disk - {temp})[dest := disk[temp]];
    }

    /** ctx_by_id.pop(id, None) */
    method Pop(id: string)
      requires Valid()
      modifies this`ctxById
      ensures Valid() && View() == Node(old(View()).entries - {id}, disk)
    {
      ctxById := ctxById - {id};
    }

    /** A context for a file whose META has just been accepted. */
    method OpenContext(id: string, dest: string, m: Message)
      requires Valid() && m.Meta? && m.chunkSize >= 0
      modifies this`ctxById
      ensures Valid()
      ensures var state := RecvState(m.size, m.sha256, m.chunkSize, m.total, {}, 0, false);
              View() == Node(old(View()).entries[id := Entry(dest, state)], disk)
    {
      var ctx := new FileRcvCtx(dest, m);
      ctxById := ctxById[id := ctx];
    }

    /** open(temp_path, "wb") */
    method Truncate(temp: string)
      modifies this`disk
      ensures View() == Node(old(View()).entries, old(disk)[temp := []])
    {
      disk := disk[temp := []];
    }

    method AnnounceEmpty(id: string, dest: string, m: Message, peer: string)
      requires Valid() && m.Meta? && !BadRanges(m) && m.total == 0
      modifies this`ctxById, this`disk, box, box.handler
      ensures Valid()
      ensures var o := OnMeta(SlotAt(old(View()), id, dest), m, digest);
              && View() == WithSlot(old(View()), id, dest, o.slot)
              && box.posted == old(box.posted) + Replies(id, peer, o.replies)
    {
      EmptyMetaNode(View(), id, dest, m, digest);
      Truncate(Part(dest));
      CommitFile(id, dest, m.sha256, peer);
    }

    method AnnounceOpen(id: string, dest: string, m: Message, peer: string)
      requires Valid() && m.Meta? && !BadRanges(m) && m.total > 0
      modifies this`ctxById, this`disk, box, box.handler
      ensures Valid()
      ensures var o := OnMeta(SlotAt(old(View()), id, dest), m, digest);
              && View() == WithSlot(old(View()), id, dest, o.slot)
              && box.posted == old(box.posted) + Replies(id, peer, o.replies)
    {
      OpenMetaNode(View(), id, dest, m, digest);
      Truncate(Part(dest));
      OpenContext(id, dest, m);
      Answer(id, peer, Ack(0));
    }

    /** `_on_meta` once the fields are read and the destination is settled. */
    method Announce(id: string, dest: string, m: Message, peer: string)
      requires Valid() && m.Meta? && !BadRanges(m)
      modifies this`ctxById, this`disk, box, box.handler
      ensures Valid()
      ensures var o := OnMeta(SlotAt(old(View()), id, dest), m, digest);
              && View() == WithSlot(old(View()), id, dest, o.slot)
              && box.posted == old(box.posted) + Replies(id, peer, o.replies)
    {
      if m.total == 0 {
        AnnounceEmpty(id, dest, m, peer);
      } else {
        AnnounceOpen(id, dest, m, peer);
      }
    }

    /** `_on_meta`; `dest` is the outcome of the path checks. */
    method OnMetaFrame(frame: Frame, dest: Option<string>)
      requires Valid()
      modifies this`ctxById, this`disk, box, box.handler
      ensures Valid()
      ensures var o := MetaAt(old(View()), frame, dest, digest);
              View() == o.node && box.posted == old(box.posted) + o.letters
    {
      match ReadMeta(frame.payload)
      case Undecodable =>
      case Rejected(id, reason) =>
        Answer(id, frame.srcMac, Fin("error", reason));
      case Announced(id, _, _, _, m) =>
        if BadRanges(m) {
          Answer(id, frame.srcMac, Fin("error", "bad_meta_ranges"));
        } else {
          match dest
          case None => Answer(id, frame.srcMac, Fin("error", "path_outside_base"));
          case Some(d) => Announce(id, d, m, frame.srcMac);
        }
    }

    method NoteListed(id: string, idx: nat)
      requires Valid() && id in ctxById
      modifies ctxById[id]
      ensures Valid() && ctxById == old(ctxById)
      ensures var e := old(View()).entries[id];
              View() == Node(old(View()).entries[id := e.(state := Receive(e.state, idx))], disk)
    {
      ctxById[id].Note(idx);
    }

    /** The first locked region of `_on_data`. */
    method WriteChunk(id: string, m: Message, peer: string)
      requires Valid() && m.Data? && id in ctxById
      requires Accepts(SlotAt(View(), id, ctxById[id].dest), m)
      modifies ctxById[id], this`disk, box, box.handler
      ensures Valid() && ctxById == old(ctxById)
      ensures var d := ctxById[id].dest;
              var o := OnData(SlotAt(old(View()), id, d), m);
              && View() == WithSlot(old(View()), id, d, o.slot)
              && box.posted == old(box.posted) + Replies(id, peer, o.replies)
    {
      var ctx := ctxById[id];
      var temp := Part(ctx.dest);
      DataNode(View(), id, ctx.dest, m);
      disk := disk[temp := Reassembly.Patch(disk[temp], m.idx * ctx.chunkSize, m.chunk)];
      NoteListed(id, m.idx);
      Answer(id, peer, Ack(ctx.nextNeeded));
    }

    /** Full: the context is marked as finished, and the file committed. */
    method FinishListed(id: string, peer: string)
      requires Valid() && id in ctxById && Part(ctxById[id].dest) in disk
      modifies this`ctxById, ctxById[id], this`disk, box, box.handler
      ensures Valid()
      ensures var e := old(View()).entries[id];
              var o := Commit(SlotAt(old(View()), id, e.dest), e.state.sha256, digest);
              && View() == WithSlot(old(View()), id, e.dest, o.slot)
              && box.posted == old(box.posted) + Replies(id, peer, o.replies)
    {
      var ctx := ctxById[id];
      ghost var before := View();
      ctx.finished := true;
      assert View() == Node(before.entries[id := ctx.View()], disk);
      CommitIgnoresContext(before, id, ctx.View(), ctx.dest, ctx.sha256, digest);
      CommitFile(id, ctx.dest, ctx.sha256, peer);
    }

    /** `_on_data` once the context is found and the checks are passed. */
    method TakeChunk(id: string, m: Message, peer: string)
      requires Valid() && m.Data? && id in ctxById
      requires Accepts(SlotAt(View(), id, ctxById[id].dest), m)
      modifies this`ctxById, ctxById[id], this`disk, box, box.handler
      ensures Valid()
      ensures var d := old(ctxById)[id].dest;
              var o := OnData(SlotAt(old(View()), id, d), m);
              var c := OnClose(o.slot, digest);
              && View() == WithSlot(old(View()), id, d, c.slot)
              && box.posted == old(box.posted) + Replies(id, peer, o.replies + c.replies)
    {
      var ctx := ctxById[id];
      CloseNode(View(), id, ctx.dest, m, peer, digest);
      WriteChunk(id, m, peer);
      if |ctx.received| >= ctx.total && !ctx.finished {
        FinishListed(id, peer);
      }
    }

    /** `_on_data` */
    method OnDataFrame(frame: Frame)
      requires Valid()
      modifies this`ctxById, ctxById.Values, this`disk, box, box.handler
      ensures Valid()
      ensures var o := DataAt(old(View()), frame, digest);
              View() == o.node && box.posted == old(box.posted) + o.letters
    {
      match ReadData(frame.payload)
      case BadPayload =>
        Answer("unknown", frame.srcMac, Fin("error", "bad_payload"));
      case Ignored =>
      case Chunk(id, m) =>
        if id !in ctxById {
          return;
        }
        var ctx := ctxById[id];
        if m.idx < 0 || m.idx >= ctx.total || m.total <= 0 {
          return;
        }
        if Part(ctx.dest) !in disk {
          return;
        }
        TakeChunk(id, m, frame.srcMac);
    }
  }
}
