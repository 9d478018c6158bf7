/**
 * The payload bytes of a file transfer: what `file_transfer_handler.py` and `_send_ack` write,
 * and what `_on_meta`, `_on_data`, `_on_ack` and `_on_fin` make of what they receive.
 */
module Payloads {
  import opened Bytes
  import opened Wrappers
  import opened Text
  import opened KeyValue
  import opened Messages
  import Utf8

  // Writing

  function KvBytes(pairs: Pairs): Bytes {
    Utf8.Encode(KvText(pairs))
  }

  function DataPairs(fileId: string, idx: int, total: int): Pairs {
    [("file_id", fileId), ("idx", IntText(idx)), ("total", IntText(total))]
  }

  /** The header, an empty line, and the bytes of the chunk as they are. */
  function DataPayload(fileId: string, idx: int, total: int, chunk: Bytes): Bytes {
    KvBytes(DataPairs(fileId, idx, total)) + [10] + chunk
  }

  /** The keyword arguments of get_meta_frame, as text. */
  function MetaFields(
      fileId: string, name: string, size: string, sha256: string, chunkSize: string, total: string, path: string)
    : Pairs {
    [("file_id", fileId), ("name", name), ("size", size), ("sha256", sha256), ("chunk_size", chunkSize),
      ("total", total)]
    + if path == "" then [] else [("path", path)]
  }

  function MetaPairs(t: Transfer): Pairs {
    MetaFields(t.fileId, t.name, IntText(|t.source|), t.sha256, IntText(t.chunkSize), IntText(t.total), t.relPath)
  }

  function FinPairs(fileId: string, status: string, reason: string): Pairs {
    [("file_id", fileId), ("status", status)] + if reason == "" then [] else [("reason", reason)]
  }

  function AckText(fileId: string, nextNeeded: int): string {
    "file_id=" + fileId + "\nnext_needed=" + IntText(nextNeeded) + "\n"
  }

  // Reading

  function DecodeKv(payload: Bytes): Option<map<string, string>> {
    match Utf8.Decode(payload)
    case None => None
    case Some(s) => Some(Parse(s))
  }

  /** kv.get(key, default) */
  function Get(kv: map<string, string>, key: string, default: string): string {
    if key in kv then kv[key] else default
  }

  /** payload.find(b"\n\n"), the length if there is none */
  function FindBlank(bs: Bytes): (i: nat)
    ensures i <= |bs| && (i < |bs| ==> i + 1 < |bs|)
  {
    if |bs| < 2 then |bs|
    else if bs[0] == 10 && bs[1] == 10 then 0
    else 1 + FindBlank(bs[1..])
  }

  datatype DataRead = BadPayload | Ignored | Chunk(fileId: string, data: Message)

  /** `_on_data` up to the look-up of the context. */
  function ReadData(payload: Bytes): (r: DataRead)
    ensures r.Chunk? ==> r.data.Data?
  {
    var sep := FindBlank(payload);
    if sep == |payload| then BadPayload
    else
      match DecodeKv(payload[..sep])
      case None => Ignored
      case Some(kv) => ReadDataHeader(kv, payload[sep + 2..])
  }

  function ReadDataHeader(kv: map<string, string>, data: Bytes): (r: DataRead)
    ensures r.Chunk? ==> r.data.Data? && r.fileId != "" && "file_id" in kv && kv["file_id"] == r.fileId
  {
    var fileId := Get(kv, "file_id", "");
    match (ParseInt(Get(kv, "idx", "-1")), ParseInt(Get(kv, "total", "-1")))
    case (Some(idx), Some(total)) => if fileId == "" then Ignored else Chunk(fileId, Data(idx, total, data))
    case _ => Ignored
  }

  datatype MetaRead =
    | Undecodable
    | Rejected(fileId: string, reason: string)
    | Announced(fileId: string, name: string, path: string, rel: string, meta: Message)

  predicate HasAll(kv: map<string, string>) {
    "file_id" in kv && "name" in kv && "size" in kv && "sha256" in kv && "chunk_size" in kv && "total" in kv
  }

  function OrUnknown(fileId: string): string {
    if fileId == "" then "unknown" else fileId
  }

  /** `_on_meta` up to the check of the ranges; missing and empty paths are not told apart. */
  function ReadMeta(payload: Bytes): (r: MetaRead)
    ensures r.Announced? ==> r.meta.Meta?
  {
    match DecodeKv(payload)
    case None => Undecodable
    case Some(kv) => ReadMetaFields(kv)
  }

  function ReadMetaFields(kv: map<string, string>): (r: MetaRead)
    ensures r.Announced? ==>
              && r.meta.Meta? && HasAll(kv)
              && r.fileId == kv["file_id"] != "" && r.name == kv["name"] != "" && r.meta.sha256 == kv["sha256"] != ""
              && r.path == Get(kv, "path", "")
  {
    if !HasAll(kv) then Rejected(OrUnknown(Get(kv, "file_id", "")), "bad_meta_missing")
    else
      var fileId := kv["file_id"];
      match (ParseInt(kv["size"]), ParseInt(kv["chunk_size"]), ParseInt(kv["total"]))
      case (Some(size), Some(chunkSize), Some(total)) =>
        if fileId == "" || kv["name"] == "" || kv["sha256"] == "" then Rejected(OrUnknown(fileId), "bad_meta_empty_str")
        else
          Announced(fileId, kv["name"], Get(kv, "path", ""), Get(kv, "rel", ""),
            Meta(size, kv["sha256"], chunkSize, total))
      case _ => Rejected(OrUnknown(fileId), "bad_meta_non_numeric")
  }

  /** `_on_ack` up to the look-up of the context: file_id and next_needed. */
  function ReadAck(payload: Bytes): Option<(string, int)> {
    match DecodeKv(payload)
    case None => None
    case Some(kv) =>
      var fileId := Get(kv, "file_id", "");
      match ParseInt(Get(kv, "next_needed", "0"))
      case None => None
      case Some(n) => if fileId == "" then None else Some((fileId, n))
  }

  /** `_on_fin` up to the look-up of the context: the file_id. */
  function ReadFin(payload: Bytes): Option<string> {
    match DecodeKv(payload)
    case None => None
    case Some(kv) => if Get(kv, "file_id", "") == "" then None else Some(kv["file_id"])
  }

  // Round trips

  lemma IntTextClean(n: int)
    ensures CleanValue(IntText(n)) && IntText(n) != ""
    ensures ParseInt(IntText(n)) == Some(n)
    ensures Utf8.Ascii(IntText(n))
  {
    if n < 0 {
      MinusClean(Decimal(-n), -n);
    } else {
      ParseDecimal(n);
      DecimalIsClean(n);
    }
  }

  lemma MinusClean(digits: string, n: nat)
    requires digits == Decimal(n)
    ensures CleanValue("-" + digits) && Utf8.Ascii("-" + digits)
    ensures ParseInt("-" + digits) == Some(0 - n as int)
  {
    DigitsOfDecimal(n);
    MinusParses("-" + digits, digits, n);
  }

  lemma MinusParses(s: string, digits: string, n: nat)
    requires s == "-" + digits && Stripped(s) && Digits(digits) == Some(n)
    ensures ParseInt(s) == Some(0 - n as int)
  {
    StripPart(s);
    assert s[1..] == digits;
  }

  lemma TextOfKv(pairs: Pairs)
    ensures DecodeKv(KvBytes(pairs)) == Some(Parse(KvText(pairs)))
  {
    Utf8.RoundTrip(KvText(pairs));
  }

  predicate Plain(s: string) {
    forall i :: 0 <= i < |s| ==> 'a' <= s[i] <= 'z' || '0' <= s[i] <= '9' || s[i] == '_'
  }

  lemma PlainKey(s: string)
    requires Plain(s)
    ensures CleanKey(s)
  {
  }

  predicate UsableId(fileId: string) {
    fileId != "" && CleanValue(fileId)
  }

  /** What is read as an identifier was stripped and is one line. */
  lemma ReadIdsUsable(payload: Bytes)
    ensures var r := ReadData(payload); r.Chunk? ==> UsableId(r.fileId)
    ensures var r := ReadMeta(payload);
            r.Announced? ==> UsableId(r.fileId) && UsableId(r.name) && UsableId(r.meta.sha256) && CleanValue(r.path)
    ensures var r := ReadAck(payload); r.Some? ==> UsableId(r.value.0)
    ensures var r := ReadFin(payload); r.Some? ==> UsableId(r.value)
  {
    var s, h := Utf8.Decode(payload), Utf8.Decode(payload[..FindBlank(payload)]);
    if s.Some? {
      ParseClean(s.value);
    }
    if h.Some? {
      ParseClean(h.value);
    }
  }

  // The empty line

  lemma {:induction false} BlankAfterLine(line: Bytes, rest: Bytes)
    requires 10 !in line && line != []
    ensures FindBlank(line + [10, 10] + rest) == |line|
    ensures rest != [] && rest[0] != 10 ==> FindBlank(line + [10] + rest) == |line| + 1 + FindBlank(rest)
  {
    assert line[0] in line;
    var a, b := line + [10, 10] + rest, line + [10] + rest;
    if |line| == 1 {
      assert a[1..] == [10, 10] + rest;
      assert b[1..] == [10] + rest;
      assert b[1..][1..] == rest;
    } else {
      assert a[1..] == line[1..] + [10, 10] + rest;
      assert b[1..] == line[1..] + [10] + rest;
      BlankAfterLine(line[1..], rest);
    }
  }

  /** In "a\nb\nc\n\n" + data, with no newline inside a, b and c, the first empty line is the one before the data. */
  lemma BlankAfterHeader(a: Bytes, b: Bytes, c: Bytes, data: Bytes)
    requires 10 !in a && 10 !in b && 10 !in c && a != [] && b != [] && c != []
    ensures var head := a + [10] + b + [10] + c; FindBlank(head + [10, 10] + data) == |head|
  {
    assert b[0] in b && c[0] in c;
    var r2 := c + [10, 10] + data;
    var r1 := b + [10] + r2;
    BlankAfterLine(c, data);
    BlankAfterLine(b, r2);
    BlankAfterLine(a, r1);
    assert a + [10] + b + [10] + c + [10, 10] + data == a + [10] + r1;
  }

  lemma JoinThree(a: string, b: string, c: string)
    ensures Join([a, b, c]) == a + "\n" + (b + "\n" + c)
    ensures Utf8.Encode(Join([a, b, c])) == Utf8.Encode(a) + [10] + Utf8.Encode(b) + [10] + Utf8.Encode(c)
  {
    assert [a, b, c][1..] == [b, c] && [b, c][1..] == [c];
    assert Join([b, c]) == b + "\n" + c;
    EncodeLine(a, b + "\n" + c);
    EncodeLine(b, c);
    assert a + "\n" + (b + "\n" + c) == a + "\n" + b + "\n" + c;
  }

  lemma EncodeLine(line: string, rest: string)
    ensures Utf8.Encode(line + "\n" + rest) == Utf8.Encode(line) + [10] + Utf8.Encode(rest)
  {
    assert Utf8.Encode("\n") == [10];
    Utf8.EncodeAppend(line + "\n", rest);
    Utf8.EncodeAppend(line, "\n");
  }

  /** Three lines, an empty line and binary data: the search for the empty line cuts exactly there. */
  lemma SplitAtBlank(a: string, b: string, c: string, data: Bytes)
    requires OneLine(a) && OneLine(b) && OneLine(c) && a != "" && b != "" && c != ""
    ensures var head := Utf8.Encode(Join([a, b, c]));
            var p := Utf8.Encode(Join([a, b, c]) + "\n") + [10] + data;
            && FindBlank(p) == |head| && |head| + 2 <= |p|
            && p[..|head|] == head && p[|head| + 2..] == data
  {
    var head := Utf8.Encode(Join([a, b, c]));
    JoinThree(a, b, c);
    OneLineNoNewline(a);
    OneLineNoNewline(b);
    OneLineNoNewline(c);
    BlankAfterHeader(Utf8.Encode(a), Utf8.Encode(b), Utf8.Encode(c), data);
    assert Utf8.Encode("\n") == [10];
    Utf8.EncodeAppend(Join([a, b, c]), "\n");
    assert head + [10] + [10] + data == head + [10, 10] + data;
  }

  lemma OneLineNoNewline(s: string)
    requires OneLine(s)
    ensures 10 !in Utf8.Encode(s)
  {
    Utf8.NewlineByte(s);
  }

  lemma DataMap(fileId: string, idx: int, total: int)
    ensures AsMap(DataPairs(fileId, idx, total))
            == map["file_id" := fileId, "idx" := IntText(idx), "total" := IntText(total)]
  {
    var ps := DataPairs(fileId, idx, total);
    assert ps[..2] == [ps[0], ps[1]] && ps[..2][..1] == [ps[0]] && [ps[0]][..0] == [];
    assert AsMap([ps[0]]) == map["file_id" := fileId];
    assert AsMap([ps[0], ps[1]]) == map["file_id" := fileId, "idx" := IntText(idx)];
  }

  lemma SplitPayload(fileId: string, idx: int, total: int, chunk: Bytes)
    requires UsableId(fileId)
    ensures var p := DataPayload(fileId, idx, total, chunk);
            var head := Utf8.Encode(Join(Lines(DataPairs(fileId, idx, total))));
            && FindBlank(p) == |head| && |head| + 2 <= |p|
            && p[..|head|] == head && p[|head| + 2..] == chunk
  {
    DataPairsClean(fileId, idx, total);
    SplitHeader(DataPairs(fileId, idx, total), chunk);
  }

  lemma SplitHeader(pairs: Pairs, data: Bytes)
    requires |pairs| == 3 && CleanPairs(pairs)
    ensures var p := KvBytes(pairs) + [10] + data;
            var head := Utf8.Encode(Join(Lines(pairs)));
            && FindBlank(p) == |head| && |head| + 2 <= |p|
            && p[..|head|] == head && p[|head| + 2..] == data
  {
    var ls := Lines(pairs);
    LinesNonempty(pairs);
    CleanLines(pairs);
    assert ls == [ls[0], ls[1], ls[2]];
    SplitAtBlank(ls[0], ls[1], ls[2], data);
  }

  ghost predicate CleanPairs(pairs: Pairs) {
    forall i :: 0 <= i < |pairs| ==> CleanKey(pairs[i].0) && CleanValue(pairs[i].1)
  }

  lemma OpenDecoded(pairs: Pairs)
    requires pairs != [] && CleanPairs(pairs)
    ensures DecodeKv(Utf8.Encode(Join(Lines(pairs)))) == Some(AsMap(pairs))
  {
    Utf8.RoundTrip(Join(Lines(pairs)));
    ParseOpen(pairs);
  }

  predicate CleanPair(p: (string, string)) {
    CleanKey(p.0) && CleanValue(p.1)
  }

  lemma CleanThree(p: (string, string), q: (string, string), r: (string, string))
    requires CleanPair(p) && CleanPair(q) && CleanPair(r)
    ensures CleanPairs([p, q, r])
  {
  }

  lemma DataPairsClean(fileId: string, idx: int, total: int)
    requires UsableId(fileId)
    ensures CleanPairs(DataPairs(fileId, idx, total))
  {
    IntTextClean(idx);
    IntTextClean(total);
    CleanHeader(fileId, IntText(idx), IntText(total));
  }

  lemma CleanHeader(fileId: string, idx: string, total: string)
    requires CleanValue(fileId) && CleanValue(idx) && CleanValue(total)
    ensures CleanPairs([("file_id", fileId), ("idx", idx), ("total", total)])
  {
    PlainKey("file_id");
    PlainKey("idx");
    PlainKey("total");
    CleanThree(("file_id", fileId), ("idx", idx), ("total", total));
  }

  lemma HeaderRead(fileId: string, idx: int, total: int, data: Bytes)
    requires UsableId(fileId)
    ensures ReadDataHeader(AsMap(DataPairs(fileId, idx, total)), data) == Chunk(fileId, Data(idx, total, data))
  {
    DataMap(fileId, idx, total);
    IntTextClean(idx);
    IntTextClean(total);
  }

  /**
   * A DATA payload is read back field by field and byte by byte, whatever the chunk contains,
   * exactly when the file_id is not empty, is one line, and has no outer white space.
   */
  lemma DataRoundTripIff(fileId: string, idx: int, total: int, chunk: Bytes)
    ensures ReadData(DataPayload(fileId, idx, total, chunk)) == Chunk(fileId, Data(idx, total, chunk))
            <==> UsableId(fileId)
  {
    ReadIdsUsable(DataPayload(fileId, idx, total, chunk));
    if UsableId(fileId) {
      SplitPayload(fileId, idx, total, chunk);
      DataPairsClean(fileId, idx, total);
      OpenDecoded(DataPairs(fileId, idx, total));
      HeaderRead(fileId, idx, total, chunk);
    }
  }

  // META, ACK and FIN

  lemma {:induction false} AsMapDomain(pairs: Pairs, key: string)
    requires forall i :: 0 <= i < |pairs| ==> pairs[i].0 != key
    ensures key !in AsMap(pairs)
  {
    if pairs != [] {
      AsMapDomain(pairs[..|pairs| - 1], key);
    }
  }

  lemma ClosedDecoded(pairs: Pairs)
    requires CleanPairs(pairs) && DistinctKeys(pairs)
    ensures DecodeKv(KvBytes(pairs)) == Some(AsMap(pairs))
  {
    TextOfKv(pairs);
    RoundTripIff(pairs);
  }

  lemma MetaFieldsDistinct(
      fileId: string, name: string, size: string, sha256: string, chunkSize: string, total: string, path: string)
    ensures DistinctKeys(MetaFields(fileId, name, size, sha256, chunkSize, total, path))
  {
  }

  lemma MetaFieldsSeparate(
      fileId: string, name: string, size: string, sha256: string, chunkSize: string, total: string, path: string)
    requires OneLine(fileId) && OneLine(name) && OneLine(size) && OneLine(sha256)
    requires OneLine(chunkSize) && OneLine(total) && OneLine(path)
    ensures Separate(MetaFields(fileId, name, size, sha256, chunkSize, total, path))
  {
    PlainKey("file_id");
    PlainKey("name");
    PlainKey("size");
    PlainKey("sha256");
    PlainKey("chunk_size");
    PlainKey("total");
    PlainKey("path");
  }

  lemma MetaFieldsMap(
      fileId: string, name: string, size: string, sha256: string, chunkSize: string, total: string, path: string)
    ensures var kv := AsMap(StripValues(MetaFields(fileId, name, size, sha256, chunkSize, total, path)));
            && HasAll(kv)
            && kv["file_id"] == Strip(fileId) && kv["name"] == Strip(name) && kv["size"] == Strip(size)
            && kv["sha256"] == Strip(sha256) && kv["chunk_size"] == Strip(chunkSize) && kv["total"] == Strip(total)
            && Get(kv, "path", "") == Strip(path) && Get(kv, "rel", "") == ""
  {
    var pairs := StripValues(MetaFields(fileId, name, size, sha256, chunkSize, total, path));
    MetaFieldsDistinct(fileId, name, size, sha256, chunkSize, total, path);
    AsMapEntry(pairs, 0);
    AsMapEntry(pairs, 1);
    AsMapEntry(pairs, 2);
    AsMapEntry(pairs, 3);
    AsMapEntry(pairs, 4);
    AsMapEntry(pairs, 5);
    if path == "" {
      AsMapDomain(pairs, "path");
    } else {
      AsMapEntry(pairs, 6);
    }
    AsMapDomain(pairs, "rel");
  }

  /** What the receiver reads from the META of a transfer, if the text survives. */
  predicate MetaSurvives(t: Transfer) {
    ReadMeta(KvBytes(MetaPairs(t))) == Announced(t.fileId, t.name, t.relPath, "", t.Meta())
  }

  /** The receiver reads exactly what the sender announced iff all names are one line without outer white space. */
  lemma MetaRoundTripIff(t: Transfer)
    ensures MetaSurvives(t)
            <==> UsableId(t.fileId) && UsableId(t.name) && UsableId(t.sha256) && CleanValue(t.relPath)
  {
    var payload := KvBytes(MetaPairs(t));
    if UsableId(t.fileId) && UsableId(t.name) && UsableId(t.sha256) && CleanValue(t.relPath) {
      MetaUnderstood(t);
      StripPart(t.fileId);
      StripPart(t.name);
      StripPart(t.sha256);
      StripPart(t.relPath);
    } else {
      ReadIdsUsable(payload);
    }
  }

  /** What the receiver makes of a META whose texts are single lines, with any white space around them. */
  function Understood(t: Transfer): MetaRead {
    var fileId, name, sha256 := Strip(t.fileId), Strip(t.name), Strip(t.sha256);
    if fileId == "" || name == "" || sha256 == "" then Rejected(OrUnknown(fileId), "bad_meta_empty_str")
    else Announced(fileId, name, Strip(t.relPath), "", Meta(|t.source|, sha256, t.chunkSize, t.total))
  }

  lemma MetaFieldsRead(t: Transfer, size: string, chunkSize: string, total: string)
    requires OneLine(t.fileId) && OneLine(t.name) && OneLine(t.sha256) && OneLine(t.relPath)
    requires CleanValue(size) && CleanValue(chunkSize) && CleanValue(total)
    requires ParseInt(size) == Some(|t.source|) && ParseInt(chunkSize) == Some(t.chunkSize)
             && ParseInt(total) == Some(t.total)
    ensures ReadMeta(KvBytes(MetaFields(t.fileId, t.name, size, t.sha256, chunkSize, total, t.relPath)))
            == Understood(t)
  {
    var pairs := MetaFields(t.fileId, t.name, size, t.sha256, chunkSize, total, t.relPath);
    MetaFieldsSeparate(t.fileId, t.name, size, t.sha256, chunkSize, total, t.relPath);
    TextOfKv(pairs);
    ParseStrips(pairs);
    MetaFieldsMap(t.fileId, t.name, size, t.sha256, chunkSize, total, t.relPath);
    StripPart(size);
    StripPart(chunkSize);
    StripPart(total);
  }

  lemma MetaUnderstood(t: Transfer)
    requires OneLine(t.fileId) && OneLine(t.name) && OneLine(t.sha256) && OneLine(t.relPath)
    ensures ReadMeta(KvBytes(MetaPairs(t))) == Understood(t)
  {
    IntTextClean(|t.source|);
    IntTextClean(t.chunkSize);
    IntTextClean(t.total);
    MetaFieldsRead(t, IntText(|t.source|), IntText(t.chunkSize), IntText(t.total));
  }

  function AckPairs(fileId: string, next: string): Pairs {
    [("file_id", fileId), ("next_needed", next)]
  }

  lemma AckTextIsKv(fileId: string, next: string)
    ensures "file_id=" + fileId + "\nnext_needed=" + next + "\n" == KvText(AckPairs(fileId, next))
  {
    var ls := Lines(AckPairs(fileId, next));
    LinesNonempty(AckPairs(fileId, next));
    assert ls == [ls[0], ls[1]] && ls[1..] == [ls[1]];
    assert "file_id" + "=" == "file_id=" && "next_needed" + "=" == "next_needed=";
    assert ls[0] == "file_id=" + fileId && ls[1] == "next_needed=" + next;
    assert Join(ls) == ls[0] + "\n" + ls[1];
    assert "\n" + "next_needed=" == "\nnext_needed=";
    assert ls[0] + "\n" + ("next_needed=" + next) == ls[0] + ("\n" + "next_needed=") + next;
  }

  lemma AckRead(fileId: string, next: string, n: int)
    requires UsableId(fileId) && CleanValue(next) && ParseInt(next) == Some(n)
    ensures ReadAck(KvBytes(AckPairs(fileId, next))) == Some((fileId, n))
  {
    var pairs := AckPairs(fileId, next);
    PlainKey("file_id");
    PlainKey("next_needed");
    ClosedDecoded(pairs);
    AsMapEntry(pairs, 0);
    AsMapEntry(pairs, 1);
  }

  /** An ACK is read back exactly when its file_id is usable. */
  lemma AckRoundTripIff(fileId: string, n: int)
    ensures ReadAck(Utf8.Encode(AckText(fileId, n))) == Some((fileId, n)) <==> UsableId(fileId)
  {
    if UsableId(fileId) {
      IntTextClean(n);
      AckTextIsKv(fileId, IntText(n));
      AckRead(fileId, IntText(n), n);
    } else {
      ReadIdsUsable(Utf8.Encode(AckText(fileId, n)));
    }
  }

  lemma FinFieldsRead(pairs: Pairs, fileId: string)
    requires UsableId(fileId) && pairs != [] && pairs[0] == ("file_id", fileId)
    requires Separate(pairs) && DistinctKeys(pairs)
    ensures ReadFin(KvBytes(pairs)) == Some(fileId)
  {
    TextOfKv(pairs);
    ParseStrips(pairs);
    StripPart(fileId);
    AsMapEntry(StripValues(pairs), 0);
  }

  /** A FIN names its transfer exactly when the file_id is usable, as long as its texts are single lines. */
  lemma FinRoundTripIff(fileId: string, status: string, reason: string)
    requires OneLine(status) && OneLine(reason)
    ensures ReadFin(KvBytes(FinPairs(fileId, status, reason))) == Some(fileId) <==> UsableId(fileId)
  {
    if UsableId(fileId) {
      PlainKey("file_id");
      PlainKey("status");
      PlainKey("reason");
      FinFieldsRead(FinPairs(fileId, status, reason), fileId);
    } else {
      ReadIdsUsable(KvBytes(FinPairs(fileId, status, reason)));
    }
  }

  /** f"{file_name}-{hash_sha256_hex[:12]}" */
  function FileId(name: string, sha256: string): string {
    name + "-" + if |sha256| <= 12 then sha256 else sha256[..12]
  }

  predicate Hex(s: string) {
    forall i :: 0 <= i < |s| ==> '0' <= s[i] <= '9' || 'a' <= s[i] <= 'f'
  }

  /** The file names whose identifier is usable: one line, not starting with white space. */
  lemma FileIdUsableIff(name: string, sha256: string)
    requires Hex(sha256)
    ensures UsableId(FileId(name, sha256)) <==> OneLine(name) && (name == "" || !Space(name[0]))
  {
    var id := FileId(name, sha256);
    var tail := id[|name|..];
    assert id == name + tail && tail[0] == '-';
    assert forall i :: 0 < i < |tail| ==> tail[i] == sha256[i - 1];
    assert OneLine(tail);
    assert forall c :: c in name ==> c in id;
  }

  /** The ACK that answers a transfer's own META names the sender's context. */
  predicate AnswerReturns(t: Transfer, n: int) {
    var r := ReadMeta(KvBytes(MetaPairs(t)));
    r.Announced? && ReadAck(Utf8.Encode(AckText(r.fileId, n))) == Some((t.fileId, n))
  }

  /** No ACK for a transfer's own META names its context unless the identifier is usable. */
  lemma AnswerNeedsUsableId(t: Transfer, n: int)
    ensures AnswerReturns(t, n) ==> UsableId(t.fileId)
  {
    var r := ReadMeta(KvBytes(MetaPairs(t)));
    if r.Announced? {
      ReadIdsUsable(KvBytes(MetaPairs(t)));
      AckRoundTripIff(r.fileId, n);
    }
  }

  /**
   * Exactly the files whose name is one line that begins with something other than white space can be sent: the
   * handshake finds its way back. For all others the sender waits in vain for its META to be acknowledged.
   */
  lemma HandshakeReturnsIff(t: Transfer, n: int)
    requires t.fileId == FileId(t.name, t.sha256) && Hex(t.sha256) && t.sha256 != "" && OneLine(t.relPath)
    ensures AnswerReturns(t, n) <==> t.name != "" && OneLine(t.name) && !Space(t.name[0])
  {
    AnswerNeedsUsableId(t, n);
    FileIdUsableIff(t.name, t.sha256);
    if UsableId(t.fileId) {
      HexClean(t.sha256);
      StripPart(t.sha256);
      StripPart(t.fileId);
      MetaUnderstood(t);
      StripKeepsInk(t.name);
      AckRoundTripIff(t.fileId, n);
    }
  }

  // A relative path with a line separator

  /** The pairs the receiver reads when the path is d, a newline, and "total=" with x. */
  function SplitPath(six: Pairs, d: string, x: string): Pairs {
    six + [("path", d), ("total", x)]
  }

  lemma {:induction false} JoinSplit(lines: seq<string>, a: string, b: string)
    ensures Join(lines + [a + "\n" + b]) == Join(lines + [a, b])
  {
    if lines == [] {
      assert [] + [a + "\n" + b] == [a + "\n" + b] && [] + [a, b] == [a, b];
      assert [a, b][1..] == [b];
    } else {
      assert (lines + [a + "\n" + b])[1..] == lines[1..] + [a + "\n" + b];
      assert (lines + [a, b])[1..] == lines[1..] + [a, b];
      JoinSplit(lines[1..], a, b);
    }
  }

  lemma PathSplits(six: Pairs, d: string, x: string)
    ensures KvText(six + [("path", d + "\n" + "total" + "=" + x)]) == KvText(SplitPath(six, d, x))
  {
    var last, p, q := ("path", d + "\n" + "total" + "=" + x), ("path", d), ("total", x);
    LinesAppend(six, last);
    LinesAppend(six, p);
    LinesAppend(six + [p], q);
    assert six + [p] + [q] == SplitPath(six, d, x);
    assert Lines(six) + ["path" + "=" + d] + ["total" + "=" + x] == Lines(six) + ["path" + "=" + d, "total" + "=" + x];
    assert "path" + "=" + last.1 == "path" + "=" + d + "\n" + ("total" + "=" + x);
    JoinSplit(Lines(six), "path" + "=" + d, "total" + "=" + x);
  }

  lemma SplitPathMap(six: Pairs, d: string, x: string)
    requires DistinctKeys(six + [("path", d)])
    ensures var kv := AsMap(StripValues(SplitPath(six, d, x)));
            && (forall i :: 0 <= i < |six| ==>
                  six[i].0 in kv && (six[i].0 != "total" ==> kv[six[i].0] == Strip(six[i].1)))
            && "total" in kv && kv["total"] == Strip(x)
  {
    var base, all := StripValues(six + [("path", d)]), StripValues(SplitPath(six, d, x));
    assert all[..|all| - 1] == base && all[|all| - 1] == ("total", Strip(x));
    forall i | 0 <= i < |six|
      ensures base[i].0 == six[i].0 && six[i].0 in AsMap(base) && AsMap(base)[six[i].0] == Strip(six[i].1)
    {
      assert (six + [("path", d)])[i] == six[i];
      AsMapEntry(base, i);
    }
  }

  lemma BadTotal(kv: map<string, string>)
    requires HasAll(kv) && ParseInt(kv["total"]) == None
    ensures ReadMetaFields(kv) == Rejected(OrUnknown(kv["file_id"]), "bad_meta_non_numeric")
  {
  }

  lemma SplitPathDecoded(six: Pairs, d: string, x: string)
    requires Separate(six) && OneLine(d) && OneLine(x)
    ensures DecodeKv(KvBytes(six + [("path", d + "\n" + "total" + "=" + x)]))
            == Some(AsMap(StripValues(SplitPath(six, d, x))))
  {
    PathSplits(six, d, x);
    PlainKey("path");
    PlainKey("total");
    TextOfKv(SplitPath(six, d, x));
    ParseStrips(SplitPath(six, d, x));
  }

  lemma SplitPathFields(fileId: string, name: string, size: string, sha256: string, chunkSize: string, total: string,
                        d: string, x: string)
    ensures var kv := AsMap(StripValues(SplitPath(MetaFields(fileId, name, size, sha256, chunkSize, total, ""), d, x)));
            HasAll(kv) && kv["file_id"] == Strip(fileId) && kv["total"] == Strip(x)
  {
    var six := MetaFields(fileId, name, size, sha256, chunkSize, total, "");
    SplitPathMap(six, d, x);
    assert six[0].0 == "file_id" && six[1].0 == "name" && six[2].0 == "size";
    assert six[3].0 == "sha256" && six[4].0 == "chunk_size" && six[5].0 == "total";
  }

  lemma PathFieldsRead(fileId: string, name: string, size: string, sha256: string, chunkSize: string, total: string,
                       d: string, x: string)
    requires OneLine(fileId) && OneLine(name) && OneLine(size) && OneLine(sha256) && OneLine(chunkSize)
    requires OneLine(total) && OneLine(d) && OneLine(x) && ParseInt(x) == None
    ensures ReadMeta(KvBytes(MetaFields(fileId, name, size, sha256, chunkSize, total, d + "\n" + "total" + "=" + x)))
            == Rejected(OrUnknown(Strip(fileId)), "bad_meta_non_numeric")
  {
    var six := MetaFields(fileId, name, size, sha256, chunkSize, total, "");
    var path := d + "\n" + "total" + "=" + x;
    assert MetaFields(fileId, name, size, sha256, chunkSize, total, path) == six + [("path", path)];
    MetaFieldsSeparate(fileId, name, size, sha256, chunkSize, total, "");
    SplitPathDecoded(six, d, x);
    SplitPathFields(fileId, name, size, sha256, chunkSize, total, d, x);
    StripPart(x);
    BadTotal(AsMap(StripValues(SplitPath(six, d, x))));
  }

  /**
   * A folder may take a file with the best of names down: a line separator in the relative path starts a new line,
   * and what stands there, such as "total=x", overrides the number META gives.
   */
  lemma PathBreaksHandshake(t: Transfer, n: int, d: string, x: string)
    requires OneLine(t.fileId) && OneLine(t.name) && OneLine(t.sha256)
    requires t.relPath == d + "\n" + "total" + "=" + x && OneLine(d) && OneLine(x) && ParseInt(x) == None
    ensures !AnswerReturns(t, n)
  {
    IntTextClean(|t.source|);
    IntTextClean(t.chunkSize);
    IntTextClean(t.total);
    PathFieldsRead(t.fileId, t.name, IntText(|t.source|), t.sha256, IntText(t.chunkSize), IntText(t.total), d, x);
  }

  lemma HexClean(s: string)
    requires Hex(s)
    ensures CleanValue(s)
  {
  }

  lemma StripKeepsInk(s: string)
    ensures s == "" ==> Strip(s) == ""
    ensures s != "" && !Space(s[0]) ==> Strip(s) != ""
  {
    if s != "" && !Space(s[0]) {
      assert LeftStrip(s) == s;
      RightStripKeeps(s);
    }
  }

  lemma {:induction false} RightStripKeeps(s: string)
    requires s != "" && !Space(s[0])
    ensures RightStrip(s) != ""
    decreases |s|
  {
    if Space(s[|s| - 1]) {
      RightStripKeeps(s[..|s| - 1]);
    }
  }

  // Frame size

  /** Length of a DATA payload in bytes. */
  lemma DataPayloadLength(name: string, sha256: string, idx: nat, total: nat, chunk: Bytes)
    requires Hex(sha256) && |sha256| == 64
    ensures |DataPayload(FileId(name, sha256), idx, total, chunk)|
            == 35 + |Utf8.Encode(name)| + |Decimal(idx)| + |Decimal(total)| + |chunk|
  {
    HeaderLength(FileId(name, sha256), IntText(idx), IntText(total));
    IdLength(name, sha256);
    IntTextClean(idx);
    IntTextClean(total);
    Utf8.EncodeAscii(IntText(idx));
    Utf8.EncodeAscii(IntText(total));
  }

  lemma IdLength(name: string, sha256: string)
    requires Hex(sha256) && |sha256| == 64
    ensures |Utf8.Encode(FileId(name, sha256))| == |Utf8.Encode(name)| + 13
  {
    var tail := "-" + sha256[..12];
    assert FileId(name, sha256) == name + tail;
    Utf8.EncodeAscii(tail);
    Utf8.EncodeAppend(name, tail);
  }

  lemma HeaderLength(id: string, idx: string, total: string)
    ensures |KvBytes([("file_id", id), ("idx", idx), ("total", total)])|
            == |Utf8.Encode(id)| + |Utf8.Encode(idx)| + |Utf8.Encode(total)| + 21
  {
    LengthOfThree("file_id", "idx", "total", id, idx, total);
  }

  lemma LengthOfThree(k: string, l: string, m: string, x: string, y: string, z: string)
    requires Plain(k) && Plain(l) && Plain(m)
    ensures |KvBytes([(k, x), (l, y), (m, z)])|
            == |k| + |l| + |m| + 6 + |Utf8.Encode(x)| + |Utf8.Encode(y)| + |Utf8.Encode(z)|
  {
    var pairs := [(k, x), (l, y), (m, z)];
    ThreePairsLength(pairs);
    assert pairs[0] == (k, x) && pairs[1] == (l, y) && pairs[2] == (m, z);
    LineLength(k, x);
    LineLength(l, y);
    LineLength(m, z);
  }

  lemma ThreePairsLength(pairs: Pairs)
    requires |pairs| == 3
    ensures |KvBytes(pairs)| == |Utf8.Encode(pairs[0].0 + "=" + pairs[0].1)|
                                + |Utf8.Encode(pairs[1].0 + "=" + pairs[1].1)|
                                + |Utf8.Encode(pairs[2].0 + "=" + pairs[2].1)| + 3
  {
    var ls := Lines(pairs);
    LinesNonempty(pairs);
    assert ls == [ls[0], ls[1], ls[2]];
    ThreeLength(ls[0], ls[1], ls[2]);
  }

  lemma ThreeLength(a: string, b: string, c: string)
    ensures |Utf8.Encode(Join([a, b, c]) + "\n")| == |Utf8.Encode(a)| + |Utf8.Encode(b)| + |Utf8.Encode(c)| + 3
  {
    JoinThree(a, b, c);
    assert Utf8.Encode("\n") == [10];
    Utf8.EncodeAppend(Join([a, b, c]), "\n");
  }

  lemma LineLength(key: string, value: string)
    requires Plain(key)
    ensures |Utf8.Encode(key + "=" + value)| == |key| + 1 + |Utf8.Encode(value)|
  {
    Utf8.EncodeAscii(key + "=");
    Utf8.EncodeAppend(key + "=", value);
  }

  // Identifiers and reports

  /** Two transfers share an identifier exactly if their files have the same name and the same first twelve digits. */
  lemma FileIdIff(name: string, sha256: string, name': string, sha256': string)
    requires |sha256| >= 12 && |sha256'| >= 12
    ensures FileId(name, sha256) == FileId(name', sha256') <==> name == name' && sha256[..12] == sha256'[..12]
  {
    var id, id' := FileId(name, sha256), FileId(name', sha256');
    assert |id| == |name| + 13 && |id'| == |name'| + 13;
    assert id[..|name|] == name && id'[..|name'|] == name';
    assert id[|name| + 1..] == sha256[..12] && id'[|name'| + 1..] == sha256'[..12];
  }

  lemma LineOf(key: string, value: string, rest: Pairs)
    ensures KvText([(key, value)] + rest)
            == if rest == [] then key + "=" + value + "\n" else key + "=" + value + "\n" + KvText(rest)
  {
    var all := [(key, value)] + rest;
    assert all[1..] == rest;
    LinesNonempty(rest);
    assert Lines(all) == [key + "=" + value] + Lines(rest);
    if rest != [] {
      assert ([key + "=" + value] + Lines(rest))[1..] == Lines(rest);
    }
  }

  /** The text of a FIN: identifier, status, and the reason if there is one, each on its line. */
  lemma FinText(id: string, status: string, reason: string)
    ensures KvText(FinPairs(id, status, reason))
            == "file_id" + "=" + id + "\n"
               + ("status" + "=" + status + "\n" + if reason == "" then "" else "reason" + "=" + reason + "\n")
  {
    var last: Pairs := if reason == "" then [] else [("reason", reason)];
    assert FinPairs(id, status, reason) == [("file_id", id)] + ([("status", status)] + last);
    LineOf("file_id", id, [("status", status)] + last);
    LineOf("status", status, last);
    if reason != "" {
      LineOf("reason", reason, []);
      assert [("reason", reason)] + [] == last;
    } else {
      assert "status" + "=" + status + "\n" + "" == "status" + "=" + status + "\n";
    }
  }

  /** META is understood exactly if all six fields are there, three are integers and three are not empty. */
  lemma AnnouncedIff(kv: map<string, string>)
    ensures ReadMetaFields(kv).Announced?
            <==> && HasAll(kv)
                 && ParseInt(kv["size"]) != None && ParseInt(kv["chunk_size"]) != None && ParseInt(kv["total"]) != None
                 && kv["file_id"] != "" && kv["name"] != "" && kv["sha256"] != ""
    ensures ReadMetaFields(kv).Rejected? ==>
              && (ReadMetaFields(kv).reason == "bad_meta_missing" <==> !HasAll(kv))
              && (ReadMetaFields(kv).reason == "bad_meta_non_numeric"
                  <==> && HasAll(kv)
                       && (ParseInt(kv["size"]) == None || ParseInt(kv["chunk_size"]) == None
                           || ParseInt(kv["total"]) == None))
              && ReadMetaFields(kv).fileId
                 == if "file_id" in kv && kv["file_id"] != "" then kv["file_id"] else "unknown"
  {
    DifferentReasons();
  }

  /** The number under a key, or a number in its place. */
  predicate Number(kv: map<string, string>, key: string, default: int, n: int) {
    if key in kv then ParseInt(kv[key]) == Some(n) else n == default
  }

  lemma DefaultsParse()
    ensures ParseInt("0") == Some(0) && ParseInt("-1") == Some(-1)
  {
    IntTextClean(0);
    IntTextClean(-1);
    assert Decimal(0) == "0" && Decimal(1) == "1";
  }

  /** An ACK is understood exactly if it names a transfer; without a number it is an ACK for 0, which is META's. */
  lemma AckIff(payload: Bytes, id: string, n: int)
    ensures ReadAck(payload) == Some((id, n))
            <==> && DecodeKv(payload).Some?
                 && var kv := DecodeKv(payload).value;
                    "file_id" in kv && kv["file_id"] == id != "" && Number(kv, "next_needed", 0, n)
  {
    DefaultsParse();
  }

  /** DATA is understood exactly if it names a transfer; a missing number is read as -1, which is out of range. */
  lemma DataIff(kv: map<string, string>, data: Bytes, id: string, m: Message)
    ensures ReadDataHeader(kv, data) == Chunk(id, m)
            <==> && "file_id" in kv && kv["file_id"] == id != "" && m.Data? && m.chunk == data
                 && Number(kv, "idx", -1, m.idx) && Number(kv, "total", -1, m.total)
  {
    DefaultsParse();
  }

  lemma DifferentReasons()
    ensures "bad_meta_missing" != "bad_meta_non_numeric" && "bad_meta_non_numeric" != "bad_meta_empty_str"
    ensures "bad_meta_empty_str" != "bad_meta_missing"
  {
    assert |"bad_meta_missing"| == 16 && |"bad_meta_non_numeric"| == 20 && |"bad_meta_empty_str"| == 18;
  }
}
