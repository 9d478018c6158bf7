/** The parts of Python's str that the payloads use: strip, splitlines, and decimal numbers. */
module Text {
  import opened Wrappers

  // str.strip()

  /** str.isspace() of one character */
  predicate Space(c: char) {
    var n := c as int;
    || 0x09 <= n <= 0x0D || 0x1C <= n <= 0x20 || n == 0x85 || n == 0xA0 || n == 0x1680
    || 0x2000 <= n <= 0x200A || n == 0x2028 || n == 0x2029 || n == 0x202F || n == 0x205F || n == 0x3000
  }

  /** The code points that are white space. */
  lemma SpaceIff(c: char)
    ensures Space(c) <==> c as int in [9, 10, 11, 12, 13, 28, 29, 30, 31, 32, 133, 160, 5760, 8192, 8193, 8194, 8195,
                                       8196, 8197, 8198, 8199, 8200, 8201, 8202, 8232, 8233, 8239, 8287, 12288]
  {
  }

  function LeftStrip(s: string): string {
    if s != "" && Space(s[0]) then LeftStrip(s[1..]) else s
  }

  function RightStrip(s: string): string {
    if s != "" && Space(s[|s| - 1]) then RightStrip(s[..|s| - 1]) else s
  }

  function Strip(s: string): string {
    RightStrip(LeftStrip(s))
  }

  /** What strip leaves unchanged. */
  predicate Stripped(s: string) {
    s == "" || (!Space(s[0]) && !Space(s[|s| - 1]))
  }

  lemma {:induction false} LeftStripPart(s: string)
    ensures LeftStrip(s) == "" || !Space(LeftStrip(s)[0])
    ensures forall c :: c in LeftStrip(s) ==> c in s
  {
    if s != "" && Space(s[0]) {
      LeftStripPart(s[1..]);
    }
  }

  lemma {:induction false} RightStripPart(s: string)
    ensures RightStrip(s) <= s
    ensures RightStrip(s) == "" || !Space(RightStrip(s)[|RightStrip(s)| - 1])
  {
    if s != "" && Space(s[|s| - 1]) {
      RightStripPart(s[..|s| - 1]);
    }
  }

  lemma StripPart(s: string)
    ensures Stripped(Strip(s))
    ensures forall c :: c in Strip(s) ==> c in s
    ensures Strip(s) == s <==> Stripped(s)
  {
    LeftStripPart(s);
    RightStripPart(LeftStrip(s));
  }

  // str.splitlines()

  predicate LineBreak(c: char) {
    var n := c as int;
    0x0A <= n <= 0x0D || 0x1C <= n <= 0x1E || n == 0x85 || n == 0x2028 || n == 0x2029
  }

  /** The code points at which splitlines ends a line. */
  lemma LineBreakIff(c: char)
    ensures LineBreak(c) <==> c as int in [10, 11, 12, 13, 28, 29, 30, 133, 8232, 8233]
  {
  }

  predicate OneLine(s: string) {
    forall c :: c in s ==> !LineBreak(c)
  }

  function FirstBreak(s: string): (k: nat)
    ensures k <= |s|
    ensures OneLine(s[..k])
    ensures k < |s| ==> LineBreak(s[k])
  {
    if s == "" || LineBreak(s[0]) then 0
    else
      var k := 1 + FirstBreak(s[1..]);
      assert s[..k] == [s[0]] + s[1..][..k - 1];
      k
  }

  function SplitLines(s: string): seq<string> {
    if s == "" then []
    else
      var k := FirstBreak(s);
      if k == |s| then [s]
      else [s[..k]] + SplitLines(if "\r\n" <= s[k..] then s[k + 2..] else s[k + 1..])
  }

  lemma {:induction false} LinesAreLines(s: string)
    ensures forall i :: 0 <= i < |SplitLines(s)| ==> OneLine(SplitLines(s)[i])
    decreases |s|
  {
    if s != "" {
      var k := FirstBreak(s);
      if k < |s| {
        LinesAreLines(if "\r\n" <= s[k..] then s[k + 2..] else s[k + 1..]);
      } else {
        assert s[..k] == s;
      }
    }
  }

  lemma {:induction false} BreakAfter(line: string, rest: string)
    requires OneLine(line)
    ensures FirstBreak(line + "\n" + rest) == |line|
  {
    var s := line + "\n" + rest;
    if line != "" {
      assert s[1..] == line[1..] + "\n" + rest;
      assert s[0] == line[0] && line[0] in line;
      BreakAfter(line[1..], rest);
    }
  }

  lemma SplitFirst(line: string, rest: string)
    requires OneLine(line)
    ensures SplitLines(line + "\n" + rest) == [line] + SplitLines(rest)
  {
    var s := line + "\n" + rest;
    BreakAfter(line, rest);
    assert s[..|line|] == line && s[|line|] == '\n';
    assert s[|line| + 1..] == rest;
  }

  // Decimal numbers

  /** str(n) of a natural number */
  function Decimal(n: nat): (s: string)
    ensures s != ""
    ensures forall i :: 0 <= i < |s| ==> '0' <= s[i] <= '9'
  {
    if n < 10 then [n as char + '0'] else Decimal(n / 10) + [(n % 10) as char + '0']
  }

  /** str(n) of any integer */
  function IntText(n: int): string {
    if n < 0 then "-" + Decimal(-n) else Decimal(n)
  }

  predicate Digit(c: char) {
    '0' <= c <= '9'
  }

  /** Digits with single underscores between them, as int() takes them. */
  function Digits(s: string): Option<nat> {
    if s == "" || !Digit(s[|s| - 1]) then None
    else
      var last, init := s[|s| - 1] as int - '0' as int, s[..|s| - 1];
      if init == "" then Some(last)
      else
        match Digits(if init[|init| - 1] == '_' then init[..|init| - 1] else init)
        case None => None
        case Some(n) => Some(10 * n + last)
  }

  /** int(s), None where it raises ValueError. */
  function ParseInt(s: string): Option<int> {
    var u := Strip(s);
    if u != "" && u[0] == '-' then
      match Digits(u[1..])
      case None => None
      case Some(n) => Some(0 - n as int)
    else Digits(if u != "" && u[0] == '+' then u[1..] else u)
  }

  lemma {:induction false} DigitsOfDecimal(n: nat)
    ensures Digits(Decimal(n)) == Some(n)
  {
    if n >= 10 {
      var s := Decimal(n);
      DigitsOfDecimal(n / 10);
      assert s[..|s| - 1] == Decimal(n / 10);
    }
  }

  lemma DecimalIsClean(n: nat)
    ensures OneLine(Decimal(n)) && Stripped(Decimal(n)) && '=' !in Decimal(n)
  {
  }

  lemma ParseDecimal(n: nat)
    ensures ParseInt(Decimal(n)) == Some(n)
  {
    DigitsOfDecimal(n);
    DecimalIsClean(n);
    StripPart(Decimal(n));
  }

  /** A digit, or an underscore with a digit after it. */
  predicate InNumeral(s: string, i: nat)
    requires i < |s|
  {
    '0' <= s[i] <= '9' || (s[i] == '_' && i + 1 < |s| && '0' <= s[i + 1] <= '9')
  }

  /** Digits, with single underscores between them. */
  ghost predicate Numeral(s: string) {
    s != "" && '0' <= s[0] <= '9' && forall i :: 0 <= i < |s| ==> InNumeral(s, i)
  }

  /** Its value: underscores do not count. */
  function Amount(s: string): int {
    if s == "" then 0
    else
      var init, last := Amount(s[..|s| - 1]), s[|s| - 1];
      if last == '_' then init else 10 * init + (last as int - '0' as int)
  }

  lemma {:induction false} DigitsIff(s: string)
    ensures Digits(s).Some? <==> Numeral(s)
    ensures Digits(s).Some? ==> Digits(s).value == Amount(s)
    decreases |s|
  {
    if s == "" {
    } else if !Digit(s[|s| - 1]) {
      assert !InNumeral(s, |s| - 1);
    } else if |s| == 1 {
      assert s[..0] == "";
      assert InNumeral(s, 0);
    } else {
      var init := s[..|s| - 1];
      var rest := if init[|init| - 1] == '_' then init[..|init| - 1] else init;
      DigitsIff(rest);
      NumeralInit(s, rest);
      assert Amount(init) == Amount(rest);
    }
  }

  lemma NumeralInit(s: string, rest: string)
    requires |s| > 1 && Digit(s[|s| - 1])
    requires rest == if s[|s| - 2] == '_' then s[..|s| - 2] else s[..|s| - 1]
    ensures Numeral(s) <==> Numeral(rest)
  {
    if Numeral(rest) {
      assert rest[0] == s[0];
      forall i | 0 <= i < |s|
        ensures InNumeral(s, i)
      {
        assert i < |rest| ==> InNumeral(rest, i);
      }
    }
    if Numeral(s) {
      forall i | 0 <= i < |rest|
        ensures InNumeral(rest, i)
      {
        assert InNumeral(s, i);
      }
    }
  }

  /** What int() takes: a numeral, with a sign or without, and white space around it. */
  lemma ParseIntIff(s: string, n: int)
    ensures ParseInt(s) == Some(n)
            <==> var u := Strip(s);
                 || (Numeral(u) && n == Amount(u))
                 || (u != "" && u[0] == '+' && Numeral(u[1..]) && n == Amount(u[1..]))
                 || (u != "" && u[0] == '-' && Numeral(u[1..]) && n == -Amount(u[1..]))
  {
    var u := Strip(s);
    DigitsIff(u);
    if u != "" {
      DigitsIff(u[1..]);
    }
  }

  /** A line ends at any line break. */
  lemma SplitAtBreak(line: string, c: char, rest: string)
    requires OneLine(line) && LineBreak(c) && !(c == '\r' && rest != "" && rest[0] == '\n')
    ensures SplitLines(line + ([c] + rest)) == [line] + SplitLines(rest)
  {
    BreakHere(line, [c] + rest);
    PairIff(c, rest);
    Cut(line, [c] + rest, 1);
    assert ([c] + rest)[1..] == rest;
  }

  lemma PairIff(c: char, rest: string)
    ensures "\r\n" <= [c] + rest <==> c == '\r' && rest != "" && rest[0] == '\n'
  {
    if rest != "" {
      assert ([c] + rest)[0] == c && ([c] + rest)[1] == rest[0];
    }
  }

  /** A carriage return with a newline is one break. */
  lemma SplitAtPair(line: string, rest: string)
    requires OneLine(line)
    ensures SplitLines(line + ("\r\n" + rest)) == [line] + SplitLines(rest)
  {
    BreakHere(line, "\r\n" + rest);
    Cut(line, "\r\n" + rest, 2);
    assert ("\r\n" + rest)[2..] == rest;
  }

  lemma Cut(line: string, tail: string, n: nat)
    requires tail != "" && FirstBreak(line + tail) == |line| && (n == 1 || n == 2) && n <= |tail|
    requires "\r\n" <= tail <==> n == 2
    ensures SplitLines(line + tail) == [line] + SplitLines(tail[n..])
  {
    var s := line + tail;
    assert s[..|line|] == line && s[|line|..] == tail && s[|line| + n..] == tail[n..];
  }

  lemma {:induction false} BreakHere(line: string, rest: string)
    requires OneLine(line) && rest != "" && LineBreak(rest[0])
    ensures FirstBreak(line + rest) == |line|
  {
    var s := line + rest;
    if line == "" {
      assert s == rest;
    } else {
      assert s[1..] == line[1..] + rest;
      assert s[0] == line[0] && line[0] in line;
      BreakHere(line[1..], rest);
    }
  }
}
