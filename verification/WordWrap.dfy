/**
 * `MessagesView._wrap`: greedy word wrap with a binary search for words that are too wide, and its cache.
 * The width of a text in a font is any function of the two.
 */
module WordWrap {
  import opened Text

  type Width = string -> int

  predicate Fits(width: Width, s: string, maxw: int) {
    width(s) <= maxw
  }

  // The algorithm as functions

  /** s.split(c) */
  function Split(s: string, c: char): (parts: seq<string>)
    ensures parts != []
  {
    if s == "" then [""]
    else
      var rest := Split(s[1..], c);
      if s[0] == c then [""] + rest else [[s[0]] + rest[0]] + rest[1..]
  }

  /** The binary search for the length of the next segment of w. */
  function Search(width: Width, w: string, maxw: int, lo: nat, hi: int, best: nat): (r: nat)
    requires 1 <= lo && hi <= |w| && 1 <= best <= |w|
    ensures 1 <= r <= |w|
    decreases hi - lo + 1
  {
    if lo > hi then best
    else
      var mid := (lo + hi) / 2;
      if Fits(width, w[..mid], maxw) then Search(width, w, maxw, mid + 1, hi, mid)
      else Search(width, w, maxw, lo, mid - 1, best)
  }

  /** A word that is too wide, cut into segments. */
  function Segments(width: Width, w: string, maxw: int): seq<string>
    decreases |w|
  {
    if w == "" then []
    else
      var best := Search(width, w, maxw, 1, |w|, 1);
      [w[..best]] + Segments(width, w[best..], maxw)
  }

  function Extend(cur: string, w: string): string {
    if cur == "" then w else Strip(cur + " " + w)
  }

  /** The lines finished so far and the one being filled. */
  datatype Layout = Layout(lines: seq<string>, cur: string)

  function Flush(l: Layout): seq<string> {
    if l.cur == "" then l.lines else l.lines + [l.cur]
  }

  /** The body of the loop over words. */
  function Place(width: Width, l: Layout, w: string, maxw: int): Layout {
    if Fits(width, Extend(l.cur, w), maxw) then Layout(l.lines, Extend(l.cur, w))
    else if Fits(width, w, maxw) then Layout(Flush(l), w)
    else Layout(Flush(l) + Segments(width, w, maxw), "")
  }

  function PlaceAll(width: Width, l: Layout, words: seq<string>, maxw: int): Layout
    decreases |words|
  {
    if words == [] then l else PlaceAll(width, Place(width, l, words[0], maxw), words[1..], maxw)
  }

  /** One paragraph after the given lines. */
  function Paragraph(width: Width, lines: seq<string>, para: string, maxw: int): seq<string> {
    if para == "" then lines + [""] else Flush(PlaceAll(width, Layout(lines, ""), Split(para, ' '), maxw))
  }

  function Paragraphs(width: Width, lines: seq<string>, paras: seq<string>, maxw: int): seq<string>
    decreases |paras|
  {
    if paras == [] then lines else Paragraphs(width, Paragraph(width, lines, paras[0], maxw), paras[1..], maxw)
  }

  function Wrapped(width: Width, body: string, maxw: int): seq<string> {
    if body == "" then [""] else Paragraphs(width, [], Split(body, '\n'), maxw)
  }

  // Nothing is lost

  /** The characters that are not white space, in order. */
  function Ink(s: string): string {
    if s == "" then "" else (if Space(s[0]) then "" else [s[0]]) + Ink(s[1..])
  }

  function InkOf(lines: seq<string>): string {
    if lines == [] then "" else Ink(lines[0]) + InkOf(lines[1..])
  }

  lemma {:induction false} InkAppend(s: string, t: string)
    ensures Ink(s + t) == Ink(s) + Ink(t)
  {
    if s == "" {
      assert s + t == t;
    } else {
      assert (s + t)[1..] == s[1..] + t;
      InkAppend(s[1..], t);
    }
  }

  lemma {:induction false} InkOfAppend(a: seq<string>, b: seq<string>)
    ensures InkOf(a + b) == InkOf(a) + InkOf(b)
  {
    if a == [] {
      assert a + b == b;
    } else {
      assert (a + b)[1..] == a[1..] + b;
      InkOfAppend(a[1..], b);
    }
  }

  lemma {:induction false} LeftStripInk(s: string)
    ensures Ink(LeftStrip(s)) == Ink(s)
  {
    if s != "" && Space(s[0]) {
      LeftStripInk(s[1..]);
    }
  }

  lemma {:induction false} RightStripInk(s: string)
    ensures Ink(RightStrip(s)) == Ink(s)
  {
    if s != "" && Space(s[|s| - 1]) {
      RightStripInk(s[..|s| - 1]);
      assert s == s[..|s| - 1] + [s[|s| - 1]];
      InkAppend(s[..|s| - 1], [s[|s| - 1]]);
    }
  }

  lemma ExtendInk(cur: string, w: string)
    ensures Ink(Extend(cur, w)) == Ink(cur) + Ink(w)
  {
    if cur != "" {
      LeftStripInk(cur + " " + w);
      RightStripInk(LeftStrip(cur + " " + w));
      InkAppend(cur + " ", w);
      InkAppend(cur, " ");
    }
  }

  lemma {:induction false} SplitInk(s: string, c: char)
    requires Space(c)
    ensures InkOf(Split(s, c)) == Ink(s)
  {
    if s != "" {
      SplitInk(s[1..], c);
      var rest := Split(s[1..], c);
      if s[0] != c {
        InkAppend([s[0]], rest[0]);
        assert Split(s, c)[1..] == rest[1..];
      } else {
        assert Split(s, c)[1..] == rest;
      }
    }
  }

  lemma {:induction false} SegmentsInk(width: Width, w: string, maxw: int)
    ensures InkOf(Segments(width, w, maxw)) == Ink(w)
    decreases |w|
  {
    if w != "" {
      var best := Search(width, w, maxw, 1, |w|, 1);
      SegmentsInk(width, w[best..], maxw);
      assert w == w[..best] + w[best..];
      InkAppend(w[..best], w[best..]);
    }
  }

  lemma OneMoreInk(lines: seq<string>, line: string)
    ensures InkOf(lines + [line]) == InkOf(lines) + Ink(line)
  {
    InkOfAppend(lines, [line]);
    assert InkOf([line]) == Ink(line) + InkOf([line][1..]);
  }

  lemma FlushInk(l: Layout)
    ensures InkOf(Flush(l)) == InkOf(l.lines) + Ink(l.cur)
  {
    OneMoreInk(l.lines, l.cur);
  }

  lemma JoinedInk(lines: seq<string>, cur: string, w: string, joined: string)
    requires Ink(joined) == Ink(cur) + Ink(w)
    ensures InkOf(lines) + Ink(joined) == InkOf(lines) + Ink(cur) + Ink(w)
  {
  }

  lemma PlaceInk(width: Width, l: Layout, w: string, maxw: int)
    ensures InkOf(Flush(Place(width, l, w, maxw))) == InkOf(Flush(l)) + Ink(w)
  {
    var cut := Segments(width, w, maxw);
    if Fits(width, Extend(l.cur, w), maxw) {
      ExtendInk(l.cur, w);
      FlushInk(l);
      FlushInk(Layout(l.lines, Extend(l.cur, w)));
      JoinedInk(l.lines, l.cur, w, Extend(l.cur, w));
    } else if Fits(width, w, maxw) {
      FlushInk(Layout(Flush(l), w));
    } else {
      SegmentsInk(width, w, maxw);
      InkOfAppend(Flush(l), cut);
    }
  }

  lemma {:induction false} PlaceAllInk(width: Width, l: Layout, words: seq<string>, maxw: int)
    ensures InkOf(Flush(PlaceAll(width, l, words, maxw))) == InkOf(Flush(l)) + InkOf(words)
    decreases |words|
  {
    if words != [] {
      PlaceInk(width, l, words[0], maxw);
      PlaceAllInk(width, Place(width, l, words[0], maxw), words[1..], maxw);
    }
  }

  lemma ParagraphInk(width: Width, lines: seq<string>, para: string, maxw: int)
    ensures InkOf(Paragraph(width, lines, para, maxw)) == InkOf(lines) + Ink(para)
  {
    OneMoreInk(lines, "");
    PlaceAllInk(width, Layout(lines, ""), Split(para, ' '), maxw);
    SplitInk(para, ' ');
  }

  lemma {:induction false} ParagraphsInk(width: Width, lines: seq<string>, paras: seq<string>, maxw: int)
    ensures InkOf(Paragraphs(width, lines, paras, maxw)) == InkOf(lines) + InkOf(paras)
    decreases |paras|
  {
    if paras != [] {
      ParagraphInk(width, lines, paras[0], maxw);
      ParagraphsInk(width, Paragraph(width, lines, paras[0], maxw), paras[1..], maxw);
    }
  }

  /** The lines hold every character of the body that is not white space, in order, and nothing else that is not. */
  lemma Lossless(width: Width, body: string, maxw: int)
    ensures InkOf(Wrapped(width, body, maxw)) == Ink(body)
  {
    if body != "" {
      ParagraphsInk(width, [], Split(body, '\n'), maxw);
      SplitInk(body, '\n');
    } else {
      assert [""][1..] == [];
    }
  }

  // Nothing is too wide

  ghost predicate Narrow(width: Width, s: string, maxw: int) {
    width(s) <= maxw || |s| <= 1
  }

  ghost predicate AllNarrow(width: Width, lines: seq<string>, maxw: int) {
    forall i :: 0 <= i < |lines| ==> Narrow(width, lines[i], maxw)
  }

  lemma {:induction false} SearchFits(width: Width, w: string, maxw: int, lo: nat, hi: int, best: nat)
    requires 1 <= lo && hi <= |w| && 1 <= best <= |w| && Narrow(width, w[..best], maxw)
    ensures Narrow(width, w[..Search(width, w, maxw, lo, hi, best)], maxw)
    decreases hi - lo + 1
  {
    if lo <= hi {
      var mid := (lo + hi) / 2;
      if Fits(width, w[..mid], maxw) {
        SearchFits(width, w, maxw, mid + 1, hi, mid);
      } else {
        SearchFits(width, w, maxw, lo, mid - 1, best);
      }
    }
  }

  lemma {:induction false} SegmentsNarrow(width: Width, w: string, maxw: int)
    ensures AllNarrow(width, Segments(width, w, maxw), maxw)
    decreases |w|
  {
    if w != "" {
      var best := Search(width, w, maxw, 1, |w|, 1);
      SearchFits(width, w, maxw, 1, |w|, 1);
      SegmentsNarrow(width, w[best..], maxw);
    }
  }

  lemma PlaceNarrow(width: Width, l: Layout, w: string, maxw: int)
    requires AllNarrow(width, l.lines, maxw) && Narrow(width, l.cur, maxw)
    ensures AllNarrow(width, Place(width, l, w, maxw).lines, maxw) && Narrow(width, Place(width, l, w, maxw).cur, maxw)
  {
    SegmentsNarrow(width, w, maxw);
  }

  lemma {:induction false} PlaceAllNarrow(width: Width, l: Layout, words: seq<string>, maxw: int)
    requires AllNarrow(width, l.lines, maxw) && Narrow(width, l.cur, maxw)
    ensures AllNarrow(width, Flush(PlaceAll(width, l, words, maxw)), maxw)
    decreases |words|
  {
    if words != [] {
      PlaceNarrow(width, l, words[0], maxw);
      PlaceAllNarrow(width, Place(width, l, words[0], maxw), words[1..], maxw);
    }
  }

  lemma {:induction false} ParagraphsNarrow(width: Width, lines: seq<string>, paras: seq<string>, maxw: int)
    requires AllNarrow(width, lines, maxw)
    ensures AllNarrow(width, Paragraphs(width, lines, paras, maxw), maxw)
    decreases |paras|
  {
    if paras != [] {
      PlaceAllNarrow(width, Layout(lines, ""), Split(paras[0], ' '), maxw);
      ParagraphsNarrow(width, Paragraph(width, lines, paras[0], maxw), paras[1..], maxw);
    }
  }

  /** Every line fits, or cannot be made narrower: it has at most one character. */
  lemma Bounded(width: Width, body: string, maxw: int)
    ensures AllNarrow(width, Wrapped(width, body, maxw), maxw)
  {
    if body != "" {
      ParagraphsNarrow(width, [], Split(body, '\n'), maxw);
    }
  }

  // Segments are as long as possible

  ghost predicate Monotone(width: Width, w: string) {
    forall i, j :: 0 <= i <= j <= |w| ==> width(w[..i]) <= width(w[..j])
  }

  lemma {:induction false} SearchLongest(width: Width, w: string, maxw: int, lo: nat, hi: int, best: nat, k: nat)
    requires 1 <= lo <= hi + 1 && hi <= |w| && 1 <= best <= |w| && Monotone(width, w)
    requires best == (if lo == 1 then 1 else lo - 1)
    requires forall j :: hi < j <= |w| ==> !Fits(width, w[..j], maxw)
    requires 1 <= k <= |w| && Fits(width, w[..k], maxw)
    ensures k <= Search(width, w, maxw, lo, hi, best)
    decreases hi - lo + 1
  {
    if lo <= hi {
      var mid := (lo + hi) / 2;
      if Fits(width, w[..mid], maxw) {
        SearchLongest(width, w, maxw, mid + 1, hi, mid, k);
      } else {
        assert forall j :: mid <= j <= |w| ==> width(w[..mid]) <= width(w[..j]);
        SearchLongest(width, w, maxw, lo, mid - 1, best, k);
      }
    }
  }

  ghost predicate MonotoneWithin(width: Width, w: string) {
    forall i :: 0 <= i <= |w| ==> Monotone(width, w[i..])
  }

  /** n is the length of the longest start of w that fits, or 1 when not even one character does. */
  ghost predicate Longest(width: Width, w: string, maxw: int, n: nat) {
    1 <= n <= |w| && Narrow(width, w[..n], maxw) && forall k :: n < k <= |w| ==> width(w[..k]) > maxw
  }

  /** The pieces make up w, and each is the longest that could be taken there. */
  ghost predicate GreedyCut(width: Width, w: string, maxw: int, pieces: seq<string>)
    decreases |pieces|
  {
    if pieces == [] then w == ""
    else
      var n := |pieces[0]|;
      Longest(width, w, maxw, n) && pieces[0] == w[..n] && GreedyCut(width, w[n..], maxw, pieces[1..])
  }

  lemma SearchIsLongest(width: Width, w: string, maxw: int)
    requires w != "" && Monotone(width, w)
    ensures Longest(width, w, maxw, Search(width, w, maxw, 1, |w|, 1))
  {
    var best := Search(width, w, maxw, 1, |w|, 1);
    SearchFits(width, w, maxw, 1, |w|, 1);
    forall k | best < k <= |w| ensures !Fits(width, w[..k], maxw) {
      if Fits(width, w[..k], maxw) {
        SearchLongest(width, w, maxw, 1, |w|, 1, k);
      }
    }
  }

  /** Where a longer text is never narrower, the segments are the one greedy cut. */
  lemma {:induction false} SegmentsIffGreedy(width: Width, w: string, maxw: int, pieces: seq<string>)
    requires MonotoneWithin(width, w)
    ensures pieces == Segments(width, w, maxw) <==> GreedyCut(width, w, maxw, pieces)
    decreases |w|
  {
    if w != "" {
      var best := Search(width, w, maxw, 1, |w|, 1);
      assert w[0..] == w;
      SearchIsLongest(width, w, maxw);
      var rest := w[best..];
      forall i | 0 <= i <= |rest| ensures Monotone(width, rest[i..]) {
        assert rest[i..] == w[best + i..];
      }
      if pieces != [] {
        SegmentsIffGreedy(width, rest, maxw, pieces[1..]);
        if GreedyCut(width, w, maxw, pieces) {
          assert best == |pieces[0]|;
          assert pieces == [pieces[0]] + pieces[1..];
        }
      }
    }
  }

  // Lines are as long as possible

  /** Words put on one line, one after the other. */
  function Glue(words: seq<string>): string {
    if words == [] then "" else Extend(Glue(words[..|words| - 1]), words[|words| - 1])
  }

  /** The line fits after each of the words. */
  ghost predicate FitsAll(width: Width, g: seq<string>, maxw: int) {
    g == [] || (FitsAll(width, g[..|g| - 1], maxw) && width(Glue(g)) <= maxw)
  }

  /** g is a group at the start of words: one word that is too wide, or as many as fit a line, and no more would. */
  ghost predicate Group(width: Width, words: seq<string>, maxw: int, g: seq<string>) {
    && 0 < |g| <= |words| && g == words[..|g|]
    && if width(g[0]) > maxw then |g| == 1
       else FitsAll(width, g, maxw) && (|g| < |words| ==> width(Glue(words[..|g| + 1])) > maxw)
  }

  ghost predicate Grouping(width: Width, words: seq<string>, maxw: int, groups: seq<seq<string>>)
    decreases |groups|
  {
    if groups == [] then words == []
    else Group(width, words, maxw, groups[0]) && Grouping(width, words[|groups[0]|..], maxw, groups[1..])
  }

  /** A word that is too wide is cut; any other group is one line, unless it is blank. */
  function GroupLines(width: Width, g: seq<string>, maxw: int): seq<string>
    requires g != []
  {
    if width(g[0]) > maxw then Segments(width, g[0], maxw) else if Glue(g) == "" then [] else [Glue(g)]
  }

  function LinesOf(width: Width, groups: seq<seq<string>>, maxw: int): seq<string>
    requires forall i :: 0 <= i < |groups| ==> groups[i] != []
  {
    if groups == [] then [] else GroupLines(width, groups[0], maxw) + LinesOf(width, groups[1..], maxw)
  }

  lemma {:induction false} GroupsNonempty(width: Width, words: seq<string>, maxw: int, groups: seq<seq<string>>)
    requires Grouping(width, words, maxw, groups)
    ensures forall i :: 0 <= i < |groups| ==> groups[i] != []
    decreases |groups|
  {
    if groups != [] {
      GroupsNonempty(width, words[|groups[0]|..], maxw, groups[1..]);
      assert forall i :: 1 <= i < |groups| ==> groups[i] == groups[1..][i - 1];
    }
  }

  lemma {:induction false} PlaceAllAppend(width: Width, l: Layout, a: seq<string>, b: seq<string>, maxw: int)
    ensures PlaceAll(width, l, a + b, maxw) == PlaceAll(width, PlaceAll(width, l, a, maxw), b, maxw)
    decreases |a|
  {
    if a == [] {
      assert a + b == b;
    } else {
      assert (a + b)[1..] == a[1..] + b;
      PlaceAllAppend(width, Place(width, l, a[0], maxw), a[1..], b, maxw);
    }
  }

  /** Words that fit end up on the line. */
  lemma {:induction false} PlaceFitting(width: Width, lines: seq<string>, g: seq<string>, maxw: int)
    requires FitsAll(width, g, maxw)
    ensures PlaceAll(width, Layout(lines, ""), g, maxw) == Layout(lines, Glue(g))
    decreases |g|
  {
    if g != [] {
      var init, last := g[..|g| - 1], g[|g| - 1];
      assert g == init + [last];
      PlaceFitting(width, lines, init, maxw);
      PlaceAllAppend(width, Layout(lines, ""), init, [last], maxw);
    }
  }

  /** A word that does not fit the line starts on a new one. */
  lemma NewLine(width: Width, l: Layout, words: seq<string>, maxw: int)
    requires words != [] && !Fits(width, Extend(l.cur, words[0]), maxw)
    ensures PlaceAll(width, l, words, maxw) == PlaceAll(width, Layout(Flush(l), ""), words, maxw)
  {
    assert Extend("", words[0]) == words[0];
    assert Place(width, l, words[0], maxw) == Place(width, Layout(Flush(l), ""), words[0], maxw);
  }

  lemma PlaceGroup(width: Width, lines: seq<string>, words: seq<string>, g: seq<string>, maxw: int)
    requires Group(width, words, maxw, g)
    ensures Flush(PlaceAll(width, Layout(lines, ""), words, maxw))
            == Flush(PlaceAll(width, Layout(lines + GroupLines(width, g, maxw), ""), words[|g|..], maxw))
  {
    assert words == g + words[|g|..];
    PlaceAllAppend(width, Layout(lines, ""), g, words[|g|..], maxw);
    if !Fits(width, g[0], maxw) {
      assert g == [g[0]] && Extend("", g[0]) == g[0];
    } else {
      PlaceFitting(width, lines, g, maxw);
      AfterGroup(width, lines, words, g, maxw);
    }
  }

  lemma AfterGroup(width: Width, lines: seq<string>, words: seq<string>, g: seq<string>, maxw: int)
    requires Group(width, words, maxw, g) && Fits(width, g[0], maxw)
    ensures Flush(PlaceAll(width, Layout(lines, Glue(g)), words[|g|..], maxw))
            == Flush(PlaceAll(width, Layout(lines + GroupLines(width, g, maxw), ""), words[|g|..], maxw))
  {
    var rest := words[|g|..];
    if rest != [] {
      assert words[..|g| + 1][..|g|] == g;
      assert Glue(words[..|g| + 1]) == Extend(Glue(g), rest[0]);
      NewLine(width, Layout(lines, Glue(g)), rest, maxw);
    }
    assert lines + [] == lines;
  }

  lemma Regroup<A>(a: seq<A>, b: seq<A>, c: seq<A>)
    ensures a + b + c == a + (b + c)
  {
  }

  /** The lines of the words are the lines of their groups. */
  lemma {:induction false} GroupedLines(
      width: Width, lines: seq<string>, words: seq<string>, groups: seq<seq<string>>, maxw: int)
    requires Grouping(width, words, maxw, groups)
    ensures forall i :: 0 <= i < |groups| ==> groups[i] != []
    ensures Flush(PlaceAll(width, Layout(lines, ""), words, maxw)) == lines + LinesOf(width, groups, maxw)
    decreases |groups|
  {
    GroupsNonempty(width, words, maxw, groups);
    if groups == [] {
      assert lines + [] == lines;
    } else {
      var first := GroupLines(width, groups[0], maxw);
      PlaceGroup(width, lines, words, groups[0], maxw);
      GroupedLines(width, lines + first, words[|groups[0]|..], groups[1..], maxw);
      Regroup(lines, first, LinesOf(width, groups[1..], maxw));
    }
  }

  lemma {:induction false} LongestGroup(width: Width, words: seq<string>, maxw: int, n: nat) returns (g: seq<string>)
    requires 0 < n <= |words| && FitsAll(width, words[..n], maxw) && Fits(width, words[0], maxw)
    ensures Group(width, words, maxw, g)
    decreases |words| - n
  {
    g := words[..n];
    if n < |words| && Fits(width, Glue(words[..n + 1]), maxw) {
      assert words[..n + 1][..n] == words[..n];
      g := LongestGroup(width, words, maxw, n + 1);
    }
  }

  lemma {:induction false} SomeGrouping(width: Width, words: seq<string>, maxw: int) returns (groups: seq<seq<string>>)
    ensures Grouping(width, words, maxw, groups)
    decreases |words|
  {
    if words == [] {
      return [];
    }
    var g := [words[0]];
    if Fits(width, words[0], maxw) {
      assert words[..1] == [words[0]] && [words[0]][..0] == [];
      assert Glue([words[0]]) == words[0];
      g := LongestGroup(width, words, maxw, 1);
    }
    var rest := SomeGrouping(width, words[|g|..], maxw);
    groups := [g] + rest;
  }

  /**
   * The lines of a paragraph are exactly those of a greedy grouping of its words: every word that fits a line by itself
   * is on one uncut, and the first word of the next group would not have fitted.
   */
  lemma ParagraphIffGreedy(width: Width, before: seq<string>, para: string, maxw: int, lines: seq<string>)
    requires para != ""
    ensures lines == Paragraph(width, before, para, maxw)
            <==> exists groups :: && Grouping(width, Split(para, ' '), maxw, groups)
                                  && (forall i :: 0 <= i < |groups| ==> groups[i] != [])
                                  && lines == before + LinesOf(width, groups, maxw)
  {
    var words := Split(para, ' ');
    var groups := SomeGrouping(width, words, maxw);
    GroupedLines(width, before, words, groups, maxw);
    forall other | Grouping(width, words, maxw, other)
      ensures forall i :: 0 <= i < |other| ==> other[i] != []
      ensures Paragraph(width, before, para, maxw) == before + LinesOf(width, other, maxw)
    {
      GroupedLines(width, before, words, other, maxw);
    }
  }

  // Where the text is broken

  /** The parts with c between them. */
  function JoinWith(parts: seq<string>, c: char): string {
    if parts == [] then "" else if |parts| == 1 then parts[0] else parts[0] + [c] + JoinWith(parts[1..], c)
  }

  ghost predicate Without(parts: seq<string>, c: char) {
    forall i :: 0 <= i < |parts| ==> c !in parts[i]
  }

  lemma {:induction false} SplitJoins(s: string, c: char)
    ensures Without(Split(s, c), c) && JoinWith(Split(s, c), c) == s
  {
    if s != "" {
      SplitJoins(s[1..], c);
      var rest := Split(s[1..], c);
      if s[0] == c {
        assert Split(s, c) == [""] + rest && ([""] + rest)[1..] == rest;
        assert "" + [c] + JoinWith(rest, c) == s;
      } else {
        var parts := [[s[0]] + rest[0]] + rest[1..];
        assert Split(s, c) == parts && parts[1..] == rest[1..];
        assert JoinWith(parts, c) == [s[0]] + JoinWith(rest, c);
      }
    }
  }

  /** A part without the separator is split off as it is. */
  lemma {:induction false} SplitPart(part: string, rest: string, c: char)
    requires c !in part
    ensures Split(part, c) == [part]
    ensures Split(part + [c] + rest, c) == [part] + Split(rest, c)
  {
    var s := part + [c] + rest;
    if part == "" {
      assert s[1..] == rest;
    } else {
      assert part[0] in part && s[1..] == part[1..] + [c] + rest;
      SplitPart(part[1..], rest, c);
      assert [part[0]] + part[1..] == part;
    }
  }

  lemma {:induction false} JoinSplits(parts: seq<string>, c: char)
    requires parts != [] && Without(parts, c)
    ensures Split(JoinWith(parts, c), c) == parts
  {
    if |parts| == 1 {
      SplitPart(parts[0], "", c);
    } else {
      JoinSplits(parts[1..], c);
      SplitPart(parts[0], JoinWith(parts[1..], c), c);
    }
  }

  /** The one way to write s as parts without c, with c between them. */
  lemma SplitIff(s: string, c: char, parts: seq<string>)
    ensures parts == Split(s, c) <==> parts != [] && Without(parts, c) && JoinWith(parts, c) == s
  {
    SplitJoins(s, c);
    if parts != [] && Without(parts, c) && JoinWith(parts, c) == s {
      JoinSplits(parts, c);
    }
  }

  lemma {:induction false} SplitAppend(a: string, b: string, c: char)
    ensures Split(a + [c] + b, c) == Split(a, c) + Split(b, c)
  {
    var s := a + [c] + b;
    if a == "" {
      assert s[1..] == b;
    } else {
      assert s[1..] == a[1..] + [c] + b;
      SplitAppend(a[1..], b, c);
      Grow(a[0], c, Split(a[1..], c), Split(b, c));
    }
  }

  /** One more character in front of the parts. */
  lemma Grow(x: char, c: char, p: seq<string>, q: seq<string>)
    requires p != []
    ensures [""] + (p + q) == ([""] + p) + q
    ensures [[x] + (p + q)[0]] + (p + q)[1..] == ([[x] + p[0]] + p[1..]) + q
  {
    assert (p + q)[1..] == p[1..] + q;
  }

  function After(before: seq<string>, l: Layout): Layout {
    Layout(before + l.lines, l.cur)
  }

  lemma PlaceAfter(width: Width, before: seq<string>, l: Layout, w: string, maxw: int)
    ensures Place(width, After(before, l), w, maxw) == After(before, Place(width, l, w, maxw))
    ensures Flush(After(before, l)) == before + Flush(l)
  {
    Regroup(before, l.lines, [l.cur]);
    Regroup(before, Flush(l), Segments(width, w, maxw));
  }

  lemma {:induction false} PlaceAllAfter(
      width: Width, before: seq<string>, l: Layout, words: seq<string>, maxw: int)
    ensures Flush(PlaceAll(width, After(before, l), words, maxw)) == before + Flush(PlaceAll(width, l, words, maxw))
    decreases |words|
  {
    if words == [] {
      PlaceAfter(width, before, l, "", maxw);
    } else {
      PlaceAfter(width, before, l, words[0], maxw);
      PlaceAllAfter(width, before, Place(width, l, words[0], maxw), words[1..], maxw);
    }
  }

  lemma ParagraphAfter(width: Width, before: seq<string>, para: string, maxw: int)
    ensures Paragraph(width, before, para, maxw) == before + Paragraph(width, [], para, maxw)
  {
    if para != "" {
      PlaceAllAfter(width, before, Layout([], ""), Split(para, ' '), maxw);
      assert before + [] == before;
    }
  }

  lemma {:induction false} ParagraphsAfter(
      width: Width, before: seq<string>, first: seq<string>, paras: seq<string>, maxw: int)
    ensures Paragraphs(width, before + first, paras, maxw) == before + Paragraphs(width, first, paras, maxw)
    decreases |paras|
  {
    if paras != [] {
      var next := Paragraph(width, [], paras[0], maxw);
      ParagraphAfter(width, before + first, paras[0], maxw);
      ParagraphAfter(width, first, paras[0], maxw);
      Regroup(before, first, next);
      ParagraphsAfter(width, before, first + next, paras[1..], maxw);
    }
  }

  lemma {:induction false} ParagraphsAppend(
      width: Width, lines: seq<string>, a: seq<string>, b: seq<string>, maxw: int)
    ensures Paragraphs(width, lines, a + b, maxw) == Paragraphs(width, Paragraphs(width, lines, a, maxw), b, maxw)
    decreases |a|
  {
    if a == [] {
      assert a + b == b;
    } else {
      assert (a + b)[1..] == a[1..] + b;
      ParagraphsAppend(width, Paragraph(width, lines, a[0], maxw), a[1..], b, maxw);
    }
  }

  lemma EmptyWrapped(width: Width, body: string, maxw: int)
    ensures Wrapped(width, body, maxw) == Paragraphs(width, [], Split(body, '\n'), maxw)
  {
    if body == "" {
      assert [""][1..] == [] && [] + [""] == [""];
    }
  }

  /** A newline always ends a line, and what stands before and after it is wrapped by itself; so empty lines stay. */
  lemma WrappedLines(width: Width, a: string, b: string, maxw: int)
    ensures Wrapped(width, a + "\n" + b, maxw) == Wrapped(width, a, maxw) + Wrapped(width, b, maxw)
  {
    var p, q := Split(a, '\n'), Split(b, '\n');
    SplitAppend(a, b, '\n');
    EmptyWrapped(width, a + "\n" + b, maxw);
    EmptyWrapped(width, a, maxw);
    EmptyWrapped(width, b, maxw);
    ParagraphsAppend(width, [], p, q, maxw);
    var first := Paragraphs(width, [], p, maxw);
    ParagraphsAfter(width, first, [], q, maxw);
    assert first + [] == first;
  }

  // What is on a line

  function NonBlank(words: seq<string>): seq<string> {
    if words == [] then []
    else NonBlank(words[..|words| - 1]) + if words[|words| - 1] == "" then [] else [words[|words| - 1]]
  }

  /** The words with one blank between them. */
  function Spaced(words: seq<string>): string {
    if words == [] then ""
    else if |words| == 1 then words[0]
    else Spaced(words[..|words| - 1]) + " " + words[|words| - 1]
  }

  lemma {:induction false} SpacedStripped(words: seq<string>)
    requires forall i :: 0 <= i < |words| ==> words[i] != "" && Stripped(words[i])
    ensures Stripped(Spaced(words)) && (words != [] ==> Spaced(words) != "")
  {
    if |words| > 1 {
      SpacedStripped(words[..|words| - 1]);
    }
  }

  lemma {:induction false} NonBlankWords(words: seq<string>)
    requires forall i :: 0 <= i < |words| ==> Stripped(words[i])
    ensures forall i :: 0 <= i < |NonBlank(words)| ==> NonBlank(words)[i] != "" && Stripped(NonBlank(words)[i])
  {
    if words != [] {
      NonBlankWords(words[..|words| - 1]);
    }
  }

  lemma ExtendStripped(cur: string, w: string)
    requires Stripped(cur) && Stripped(w) && cur != ""
    ensures Extend(cur, w) == if w == "" then cur else cur + " " + w
  {
    StripPart(cur + " " + w);
    if w == "" {
      assert cur + " " + w == cur + " ";
      assert LeftStrip(cur + " ") == cur + " ";
      assert (cur + " ")[..|cur|] == cur;
      StripPart(cur);
      assert RightStrip(cur) == cur by { RightStripNothing(cur); }
    }
  }

  lemma RightStripNothing(s: string)
    requires s != "" && !Space(s[|s| - 1])
    ensures RightStrip(s) == s
  {
  }

  /** A line holds its words with one blank between them; runs of blanks collapse. */
  lemma {:induction false} GlueIsSpaced(words: seq<string>)
    requires forall i :: 0 <= i < |words| ==> Stripped(words[i])
    ensures Glue(words) == Spaced(NonBlank(words))
  {
    if words != [] {
      var init, last := words[..|words| - 1], words[|words| - 1];
      GlueIsSpaced(init);
      NonBlankWords(init);
      SpacedStripped(NonBlank(init));
      if last == "" {
        assert NonBlank(words) == NonBlank(init);
      } else {
        assert NonBlank(words) == NonBlank(init) + [last];
        SpacedMore(NonBlank(init), last);
      }
      if Glue(init) != "" {
        ExtendStripped(Glue(init), last);
      }
    }
  }

  lemma SpacedMore(words: seq<string>, w: string)
    ensures Spaced(words + [w]) == if words == [] then w else Spaced(words) + " " + w
  {
    assert (words + [w])[..|words|] == words;
  }

  /** The lines so far and the segments of what is left of w. */
  function CutFrom(width: Width, w: string, maxw: int, i: nat, lines: seq<string>): (r: seq<string>)
    requires i <= |w|
    ensures i == |w| ==> r == lines
  {
    lines + Segments(width, w[i..], maxw)
  }

  lemma NextSegment(width: Width, w: string, maxw: int, i: nat, lines: seq<string>)
    requires i < |w|
    ensures var best := Search(width, w[i..], maxw, 1, |w| - i, 1);
            && i + best <= |w|
            && CutFrom(width, w, maxw, i, lines) == CutFrom(width, w, maxw, i + best, lines + [w[i..][..best]])
  {
    var best := Search(width, w[i..], maxw, 1, |w| - i, 1);
    assert w[i..][best..] == w[i + best..];
  }

  // The view

  datatype Key = Key(font: int, body: string, maxw: int)

  /** The width function of each font identity; an identity is not reused for another font. */
  type Fonts = int -> Width

  function WidthIn(fonts: Fonts, font: int): Width {
    fonts(font)
  }

  class MessagesView {
    const fonts: Fonts
    var wrapCache: map<Key, seq<string>>

    /** The cache never lies. */
    ghost predicate Valid()
      reads this
    {
      forall k :: k in wrapCache ==> wrapCache[k] == Wrapped(WidthIn(fonts, k.font), k.body, k.maxw)
    }

    constructor (fonts: Fonts)
      ensures Valid() && this.fonts == fonts && wrapCache == map[]
    {
      this.fonts, wrapCache := fonts, map[];
    }

    /** The binary search: the length of the next segment. */
    method SearchLoop(width: Width, w: string, maxw: int) returns (best: nat)
      requires w != ""
      ensures best == Search(width, w, maxw, 1, |w|, 1)
    {
      var lo, hi := 1, |w|;
      best := 1;
      while lo <= hi
        invariant 1 <= lo && hi <= |w| && 1 <= best <= |w|
        invariant Search(width, w, maxw, lo, hi, best) == Search(width, w, maxw, 1, |w|, 1)
        decreases hi - lo + 1
      {
        var mid := (lo + hi) / 2;
        if Fits(width, w[..mid], maxw) {
          best := mid;
          lo := mid + 1;
        } else {
          hi := mid - 1;
        }
      }
    }

    /** The loop that cuts a word that is too wide. */
    method CutWord(width: Width, w: string, maxw: int) returns (lines: seq<string>)
      ensures lines == Segments(width, w, maxw)
    {
      lines := [];
      var i, n := 0, |w|;
      assert CutFrom(width, w, maxw, 0, []) == Segments(width, w, maxw) by { assert w[0..] == w; }
      while i < n
        invariant 0 <= i <= n == |w|
        invariant CutFrom(width, w, maxw, i, lines) == Segments(width, w, maxw)
      {
        var rest := w[i..];
        var best := SearchLoop(width, rest, maxw);
        NextSegment(width, w, maxw, i, lines);
        lines := lines + [rest[..best]];
        i := i + best;
      }
    }

    /** The loop over the words of a paragraph that is not empty, after the lines given. */
    method WrapParagraph(width: Width, before: seq<string>, para: string, maxw: int) returns (lines: seq<string>)
      requires para != ""
      ensures lines == Paragraph(width, before, para, maxw)
    {
      var words := Split(para, ' ');
      var cur := "";
      lines := before;
      var k := 0;
      while k < |words|
        invariant 0 <= k <= |words|
        invariant PlaceAll(width, Layout(lines, cur), words[k..], maxw)
                  == PlaceAll(width, Layout(before, ""), words, maxw)
      {
        ghost var l := Layout(lines, cur);
        var w := words[k];
        assert words[k..][1..] == words[k + 1..];
        k := k + 1;
        var candidate := Extend(cur, w);
        if Fits(width, candidate, maxw) {
          cur := candidate;
          continue;
        }
        if cur != "" {
          lines := lines + [cur];
          cur := "";
        }
        assert lines == Flush(l);
        if !Fits(width, w, maxw) {
          var cut := CutWord(width, w, maxw);
          lines := lines + cut;
        } else {
          cur := w;
        }
      }
      assert words[k..] == [];
      if cur != "" {
        lines := lines + [cur];
      }
    }

    /** `_wrap`: the cache changes nothing but the time it takes. */
    method Wrap(font: int, body: string, maxw: int) returns (lines: seq<string>)
      requires Valid()
      modifies this`wrapCache
      ensures Valid()
      ensures lines == Wrapped(WidthIn(fonts, font), body, maxw)
      ensures forall k :: k in old(wrapCache) ==> k in wrapCache && wrapCache[k] == old(wrapCache)[k]
    {
      var key := Key(font, body, maxw);
      if key in wrapCache && wrapCache[key] != [] {
        return wrapCache[key];
      }
      if body == "" {
        wrapCache := wrapCache[key := [""]];
        return [""];
      }
      var width := WidthIn(fonts, font);
      var paras := Split(body, '\n');
      lines := [];
      for p := 0 to |paras|
        invariant Valid() && wrapCache == old(wrapCache)
        invariant Paragraphs(width, lines, paras[p..], maxw) == Wrapped(width, body, maxw)
      {
        assert paras[p..][1..] == paras[p + 1..];
        if paras[p] == "" {
          lines := lines + [""];
          continue;
        }
        lines := WrapParagraph(width, lines, paras[p], maxw);
      }
      wrapCache := wrapCache[key := lines];
    }
  }
}
