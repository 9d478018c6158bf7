/** What one file transfer puts on the wire, before it is turned into bytes. */
module Messages {
  import opened Bytes
  import Reassembly

  /** The fields of FileSendCtxSchema that never change. `source` is the content of the file at `path`. */
  datatype Transfer = Transfer(
    fileId: string,
    name: string,
    relPath: string,
    dstMac: string,
    source: Bytes,
    sha256: string,
    chunkSize: nat,
    total: nat
  ) {
    /** send_file fills the context in this way. */
    ghost predicate Valid() {
      chunkSize > 0 && total == Reassembly.ChunkCount(|source|, chunkSize)
    }

    function Meta(): Message {
      Message.Meta(|source|, sha256, chunkSize, total)
    }

    /** get_data_chunk reads the chunk from the file each time it is asked for. */
    function Data(idx: nat): Message {
      Message.Data(idx, total, Reassembly.Chunk(source, chunkSize, idx))
    }
  }

  datatype Message =
    | Meta(size: int, sha256: string, chunkSize: int, total: int)
    | Data(idx: int, total: int, chunk: Bytes)
    | Ack(nextNeeded: int)
    | Fin(status: string, reason: string)

  const FIN_OK := Fin("ok", "")
  const FIN_TIMEOUT := Fin("error", "timeout")
  const FIN_META_TIMEOUT := Fin("error", "meta_timeout")
  const FIN_HASH_MISMATCH := Fin("error", "hash_mismatch")

  /** How often a message was queued. */
  function Count(log: seq<Message>, m: Message): nat {
    if log == [] then 0
    else Count(log[..|log| - 1], m) + if log[|log| - 1] == m then 1 else 0
  }

  /** How many DATA messages were queued. */
  function CountData(log: seq<Message>): nat {
    if log == [] then 0
    else CountData(log[..|log| - 1]) + if log[|log| - 1].Data? then 1 else 0
  }

  lemma {:induction false} CountAppend(a: seq<Message>, b: seq<Message>, m: Message)
    ensures Count(a + b, m) == Count(a, m) + Count(b, m)
  {
    if b == [] {
      assert a + b == a;
    } else {
      assert (a + b)[..|a + b| - 1] == a + b[..|b| - 1];
      CountAppend(a, b[..|b| - 1], m);
    }
  }

  lemma {:induction false} CountDataAppend(a: seq<Message>, b: seq<Message>)
    ensures CountData(a + b) == CountData(a) + CountData(b)
  {
    if b == [] {
      assert a + b == a;
    } else {
      assert (a + b)[..|a + b| - 1] == a + b[..|b| - 1];
      CountDataAppend(a, b[..|b| - 1]);
    }
  }

  lemma {:induction false} CountAbsent(log: seq<Message>, m: Message)
    ensures m !in log <==> Count(log, m) == 0
  {
    if log != [] {
      assert log == log[..|log| - 1] + [log[|log| - 1]];
      CountAbsent(log[..|log| - 1], m);
    }
  }
}
