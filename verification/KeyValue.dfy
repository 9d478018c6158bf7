/** The key=value text of the payloads: `_kv_bytes` writes it, `parse_payload` reads it. */
module KeyValue {
  import opened Text

  /** Keyword arguments, in the order in which they are given. */
  type Pairs = seq<(string, string)>

  // Writing

  /** "\n".join(lines) */
  function Join(lines: seq<string>): string {
    if lines == [] then ""
    else if |lines| == 1 then lines[0]
    else lines[0] + "\n" + Join(lines[1..])
  }

  function Lines(pairs: Pairs): seq<string> {
    if pairs == [] then [] else [pairs[0].0 + "=" + pairs[0].1] + Lines(pairs[1..])
  }

  function KvText(pairs: Pairs): string {
    Join(Lines(pairs)) + "\n"
  }

  // Reading

  function Find(s: string, c: char): (i: nat)
    ensures i <= |s| && c !in s[..i]
    ensures i < |s| ==> s[i] == c
  {
    if s == "" || s[0] == c then 0
    else
      var i := 1 + Find(s[1..], c);
      assert s[..i] == [s[0]] + s[1..][..i - 1];
      i
  }

  /** One line of the loop in `parse_payload`. */
  function ReadLine(line: string, out: map<string, string>): map<string, string> {
    var i := Find(line, '=');
    if i == |line| then out else out[Strip(line[..i]) := Strip(line[i + 1..])]
  }

  function ReadLines(lines: seq<string>, out: map<string, string>): map<string, string> {
    if lines == [] then out else ReadLines(lines[1..], ReadLine(lines[0], out))
  }

  function Parse(s: string): map<string, string> {
    ReadLines(SplitLines(s), map[])
  }

  /** `parse_payload` itself. */
  method ParsePayload(s: string) returns (out: map<string, string>)
    ensures out == Parse(s)
  {
    out := map[];
    var lines := SplitLines(s);
    for n := 0 to |lines|
      invariant ReadLines(lines[n..], out) == Parse(s)
    {
      var line := lines[n];
      assert lines[n..][1..] == lines[n + 1..];
      if line == "" {
        continue;
      }
      if '=' !in line {
        assert Find(line, '=') == |line|;
        continue;
      }
      var i := Find(line, '=');
      out := out[Strip(line[..i]) := Strip(line[i + 1..])];
    }
  }

  // The round trip

  predicate CleanKey(k: string) {
    OneLine(k) && Stripped(k) && '=' !in k
  }

  predicate CleanValue(v: string) {
    OneLine(v) && Stripped(v)
  }

  ghost predicate Clean(m: map<string, string>) {
    forall k :: k in m ==> CleanKey(k) && CleanValue(m[k])
  }

  /** Python rejects a repeated keyword. */
  ghost predicate DistinctKeys(pairs: Pairs) {
    forall i, j :: 0 <= i < j < |pairs| ==> pairs[i].0 != pairs[j].0
  }

  function AsMap(pairs: Pairs): map<string, string> {
    if pairs == [] then map[] else AsMap(pairs[..|pairs| - 1])[pairs[|pairs| - 1].0 := pairs[|pairs| - 1].1]
  }

  /** Whatever is parsed has clean keys and values. */
  lemma {:induction false} ReadLinesClean(lines: seq<string>, out: map<string, string>)
    requires Clean(out)
    requires forall i :: 0 <= i < |lines| ==> OneLine(lines[i])
    ensures Clean(ReadLines(lines, out))
  {
    if lines != [] {
      var line := lines[0];
      var i := Find(line, '=');
      if i < |line| {
        StripPart(line[..i]);
        StripPart(line[i + 1..]);
      }
      ReadLinesClean(lines[1..], ReadLine(line, out));
    }
  }

  lemma ParseClean(s: string)
    ensures Clean(Parse(s))
  {
    LinesAreLines(s);
    ReadLinesClean(SplitLines(s), map[]);
  }

  lemma {:induction false} SplitJoined(lines: seq<string>)
    requires lines != [] && forall i :: 0 <= i < |lines| ==> OneLine(lines[i])
    ensures SplitLines(Join(lines) + "\n") == lines
  {
    if |lines| == 1 {
      SplitFirst(lines[0], "");
      assert lines[0] + "\n" + "" == lines[0] + "\n";
    } else {
      SplitJoined(lines[1..]);
      SplitFirst(lines[0], Join(lines[1..]) + "\n");
      assert Join(lines) + "\n" == lines[0] + "\n" + (Join(lines[1..]) + "\n");
    }
  }

  /** What the text keeps apart: values may still have white space around them. */
  ghost predicate Separate(pairs: Pairs) {
    forall i :: 0 <= i < |pairs| ==> CleanKey(pairs[i].0) && OneLine(pairs[i].1)
  }

  function StripValues(pairs: Pairs): (r: Pairs)
    ensures |r| == |pairs| && forall i :: 0 <= i < |r| ==> r[i] == (pairs[i].0, Strip(pairs[i].1))
  {
    seq(|pairs|, i requires 0 <= i < |pairs| => (pairs[i].0, Strip(pairs[i].1)))
  }

  lemma {:induction false} CleanLines(pairs: Pairs)
    requires Separate(pairs)
    ensures |Lines(pairs)| == |pairs| && forall i :: 0 <= i < |pairs| ==> OneLine(Lines(pairs)[i])
  {
    if pairs != [] {
      CleanLines(pairs[1..]);
    }
  }

  lemma TextOfLines(pairs: Pairs)
    requires Separate(pairs)
    ensures SplitLines(KvText(pairs)) == if pairs == [] then [""] else Lines(pairs)
  {
    CleanLines(pairs);
    if pairs == [] {
      SplitFirst("", "");
      assert KvText(pairs) == "" + "\n" + "";
    } else {
      SplitJoined(Lines(pairs));
    }
  }

  lemma {:induction false} FindAfter(k: string, c: char, rest: string)
    requires c !in k
    ensures Find(k + [c] + rest, c) == |k|
  {
    if k != "" {
      assert (k + [c] + rest)[1..] == k[1..] + [c] + rest;
      assert k[0] in k;
      FindAfter(k[1..], c, rest);
    }
  }

  lemma ReadPair(k: string, v: string, out: map<string, string>)
    requires CleanKey(k)
    ensures ReadLine(k + "=" + v, out) == out[k := Strip(v)]
  {
    var line := k + "=" + v;
    FindAfter(k, '=', v);
    assert line[..|k|] == k && line[|k| + 1..] == v;
    StripPart(k);
  }

  lemma {:induction false} LinesAppend(pairs: Pairs, last: (string, string))
    ensures Lines(pairs + [last]) == Lines(pairs) + [last.0 + "=" + last.1]
  {
    if pairs == [] {
      assert pairs + [last] == [last];
    } else {
      assert (pairs + [last])[1..] == pairs[1..] + [last];
      LinesAppend(pairs[1..], last);
    }
  }

  lemma {:induction false} ReadLinesAppend(lines: seq<string>, last: string, out: map<string, string>)
    ensures ReadLines(lines + [last], out) == ReadLine(last, ReadLines(lines, out))
  {
    if lines == [] {
      assert lines + [last] == [last];
    } else {
      assert (lines + [last])[1..] == lines[1..] + [last];
      ReadLinesAppend(lines[1..], last, ReadLine(lines[0], out));
    }
  }

  lemma {:induction false} ReadPairs(pairs: Pairs)
    requires Separate(pairs)
    ensures ReadLines(Lines(pairs), map[]) == AsMap(StripValues(pairs))
  {
    if pairs != [] {
      var init, last := pairs[..|pairs| - 1], pairs[|pairs| - 1];
      assert pairs == init + [last];
      ReadPairs(init);
      LinesAppend(init, last);
      ReadLinesAppend(Lines(init), last.0 + "=" + last.1, map[]);
      ReadPair(last.0, last.1, AsMap(StripValues(init)));
      assert StripValues(pairs)[..|pairs| - 1] == StripValues(init);
    }
  }

  /** What parsing makes of any text that keeps its lines apart: the same keys, with stripped values. */
  lemma ParseStrips(pairs: Pairs)
    requires Separate(pairs)
    ensures Parse(KvText(pairs)) == AsMap(StripValues(pairs))
  {
    TextOfLines(pairs);
    ReadPairs(pairs);
  }

  lemma CleanUnstripped(pairs: Pairs)
    requires forall i :: 0 <= i < |pairs| ==> CleanKey(pairs[i].0) && CleanValue(pairs[i].1)
    ensures Separate(pairs) && StripValues(pairs) == pairs
  {
    forall i | 0 <= i < |pairs|
      ensures Strip(pairs[i].1) == pairs[i].1
    {
      StripPart(pairs[i].1);
    }
  }

  lemma {:induction false} AsMapEntry(pairs: Pairs, i: nat)
    requires DistinctKeys(pairs) && i < |pairs|
    ensures pairs[i].0 in AsMap(pairs) && AsMap(pairs)[pairs[i].0] == pairs[i].1
  {
    var init, last := pairs[..|pairs| - 1], pairs[|pairs| - 1];
    if i < |init| {
      AsMapEntry(init, i);
      assert pairs[i].0 != last.0;
    }
  }

  /**
   * Writing and parsing gives the same dictionary back exactly when no key contains '=', and no key or value contains
   * a line separator or begins or ends with white space. Values may contain '='.
   */
  lemma RoundTripIff(pairs: Pairs)
    requires DistinctKeys(pairs)
    ensures Parse(KvText(pairs)) == AsMap(pairs)
            <==> forall i :: 0 <= i < |pairs| ==> CleanKey(pairs[i].0) && CleanValue(pairs[i].1)
  {
    if forall i :: 0 <= i < |pairs| ==> CleanKey(pairs[i].0) && CleanValue(pairs[i].1) {
      CleanUnstripped(pairs);
      ParseStrips(pairs);
    } else {
      var i :| 0 <= i < |pairs| && !(CleanKey(pairs[i].0) && CleanValue(pairs[i].1));
      ParseClean(KvText(pairs));
      AsMapEntry(pairs, i);
    }
  }

  lemma {:induction false} SplitJoinedOpen(lines: seq<string>)
    requires lines != [] && lines[|lines| - 1] != "" && forall i :: 0 <= i < |lines| ==> OneLine(lines[i])
    ensures SplitLines(Join(lines)) == lines
  {
    if |lines| == 1 {
      SplitLast(lines[0]);
    } else {
      SplitJoinedOpen(lines[1..]);
      SplitFirst(lines[0], Join(lines[1..]));
    }
  }

  lemma SplitLast(line: string)
    requires OneLine(line) && line != ""
    ensures SplitLines(line) == [line]
  {
    assert forall i :: 0 <= i < |line| ==> line[i] in line;
    assert line[..|line|] == line;
  }

  /** The newline at the end may be missing. */
  lemma ParseOpen(pairs: Pairs)
    requires pairs != [] && forall i :: 0 <= i < |pairs| ==> CleanKey(pairs[i].0) && CleanValue(pairs[i].1)
    ensures Parse(Join(Lines(pairs))) == AsMap(pairs)
  {
    CleanUnstripped(pairs);
    CleanLines(pairs);
    LinesNonempty(pairs);
    SplitJoinedOpen(Lines(pairs));
    ReadPairs(pairs);
  }

  lemma {:induction false} LinesNonempty(pairs: Pairs)
    ensures |Lines(pairs)| == |pairs|
    ensures forall i :: 0 <= i < |pairs| ==> Lines(pairs)[i] == pairs[i].0 + "=" + pairs[i].1
  {
    if pairs != [] {
      LinesNonempty(pairs[1..]);
    }
  }
}
