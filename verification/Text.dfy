/** Text as the release scripts see it after UTF-8 decoding: line splitting, stripping,
    substring search and encoded size, with the facts every rewriter proof rests on. */
module Text {
  import opened Results

  // ---------------------------------------------------------------- characters

  /** The characters that str.isspace, str.strip and the regular expression \s accept. */
  predicate IsSpace(c: char) {
    || '\t' <= c <= '\r'
    || '\U{1C}' <= c <= ' '
    || c == '\U{85}' || c == '\U{A0}' || c == '\U{1680}'
    || '\U{2000}' <= c <= '\U{200A}'
    || c == '\U{2028}' || c == '\U{2029}' || c == '\U{202F}' || c == '\U{205F}' || c == '\U{3000}'
  }

  /** Regular expressions see LF lines only; str.splitlines breaks at more characters.
      CR is in neither set: every text is checked to be free of CR before it is split. */
  datatype Breaks = LfOnly | PyBreaks

  predicate IsBreak(b: Breaks, c: char) {
    match b
    case LfOnly => c == '\n'
    case PyBreaks =>
      || '\n' <= c <= '\U{0C}'
      || '\U{1C}' <= c <= '\U{1E}'
      || c == '\U{85}' || c == '\U{2028}' || c == '\U{2029}'
  }

  /** The white space of Python, by code point. */
  lemma SpacesAre(c: char)
    ensures var n := c as int;
      IsSpace(c) <==>
        || n in {0x09, 0x0A, 0x0B, 0x0C, 0x0D, 0x1C, 0x1D, 0x1E, 0x1F, 0x20, 0x85, 0xA0, 0x1680}
        || 0x2000 <= n <= 0x200A || n in {0x2028, 0x2029, 0x202F, 0x205F, 0x3000}
  {
  }

  /** The line boundaries of str.splitlines but CR, by code point. */
  lemma BreaksAre(c: char)
    ensures IsBreak(PyBreaks, c) <==> c as int in {0x0A, 0x0B, 0x0C, 0x1C, 0x1D, 0x1E, 0x85, 0x2028, 0x2029}
    ensures IsBreak(LfOnly, c) <==> c as int == 0x0A
  {
  }

  predicate IsDigit(c: char) {
    '0' <= c <= '9'
  }

  predicate IsHexDigit(c: char) {
    '0' <= c <= '9' || 'a' <= c <= 'f'
  }

  predicate IsHex(s: string) {
    forall i | 0 <= i < |s| :: IsHexDigit(s[i])
  }

  // ---------------------------------------------------------------- encoded size

  function Utf8Width(c: char): nat {
    if c < '\U{80}' then 1 else if c < '\U{800}' then 2 else if c < '\U{10000}' then 3 else 4
  }

  /** The ranges of section 3 of RFC 3629. */
  lemma WidthsAre(c: char)
    ensures Utf8Width(c) == 1 <==> c as int <= 0x7F
    ensures Utf8Width(c) == 2 <==> 0x80 <= c as int <= 0x7FF
    ensures Utf8Width(c) == 3 <==> 0x800 <= c as int <= 0xFFFF
    ensures Utf8Width(c) == 4 <==> 0x1_0000 <= c as int <= 0x10_FFFF
  {
  }

  /** The number of bytes of the UTF-8 encoding. */
  function ByteLength(s: string): nat {
    if s == "" then 0 else Utf8Width(s[0]) + ByteLength(s[1..])
  }

  predicate IsAscii(s: string) {
    forall i | 0 <= i < |s| :: s[i] < '\U{80}'
  }

  lemma {:induction false} ByteLengthAppend(a: string, b: string)
    ensures ByteLength(a + b) == ByteLength(a) + ByteLength(b)
  {
    if a == "" {
      assert a + b == b;
    } else {
      assert (a + b)[1..] == a[1..] + b;
      ByteLengthAppend(a[1..], b);
    }
  }

  lemma {:induction false} ByteLengthAscii(s: string)
    requires IsAscii(s)
    ensures ByteLength(s) == |s|
  {
    if s != "" {
      ByteLengthAscii(s[1..]);
    }
  }

  lemma {:induction false} ByteLengthBound(s: string)
    ensures |s| <= ByteLength(s) <= 4 * |s|
  {
    if s != "" {
      ByteLengthBound(s[1..]);
    }
  }

  // ---------------------------------------------------------------- lines

  /** The length of the first line of s, its terminator included. */
  function FirstLine(b: Breaks, s: string): (n: nat)
    requires s != ""
    ensures 1 <= n <= |s|
  {
    if IsBreak(b, s[0]) || |s| == 1 then 1 else 1 + FirstLine(b, s[1..])
  }

  /** The lines of s with their terminators kept. */
  function SplitLines(b: Breaks, s: string): seq<string> {
    if s == "" then []
    else var n := FirstLine(b, s); [s[..n]] + SplitLines(b, s[n..])
  }

  function Join(lines: seq<string>): string {
    if lines == [] then "" else lines[0] + Join(lines[1..])
  }

  /** A line that ends in a break and holds no other one. */
  predicate IsLine(b: Breaks, l: string) {
    && l != ""
    && IsBreak(b, l[|l| - 1])
    && forall i | 0 <= i < |l| - 1 :: !IsBreak(b, l[i])
  }

  predicate AllLines(b: Breaks, lines: seq<string>) {
    forall i | 0 <= i < |lines| :: IsLine(b, lines[i])
  }

  /** Empty, or ended by a break: what may be split off at the front. */
  predicate Terminated(b: Breaks, s: string) {
    s == "" || IsBreak(b, s[|s| - 1])
  }

  lemma {:induction false} FirstLineOf(b: Breaks, l: string, rest: string)
    requires IsLine(b, l)
    ensures FirstLine(b, l + rest) == |l|
  {
    if |l| > 1 {
      assert (l + rest)[1..] == l[1..] + rest;
      FirstLineOf(b, l[1..], rest);
    }
  }

  lemma SplitLine(b: Breaks, l: string, rest: string)
    requires IsLine(b, l)
    ensures SplitLines(b, l + rest) == [l] + SplitLines(b, rest)
  {
    FirstLineOf(b, l, rest);
    assert (l + rest)[..|l|] == l && (l + rest)[|l|..] == rest;
  }

  /** Splitting undoes joining. */
  lemma {:induction false} SplitJoin(b: Breaks, lines: seq<string>)
    requires AllLines(b, lines)
    ensures SplitLines(b, Join(lines)) == lines
  {
    if lines != [] {
      SplitJoin(b, lines[1..]);
      SplitLine(b, lines[0], Join(lines[1..]));
    }
  }

  /** Joining undoes splitting, for every text. */
  lemma {:induction false} JoinSplit(b: Breaks, s: string)
    ensures Join(SplitLines(b, s)) == s
    decreases |s|
  {
    if s != "" {
      var n := FirstLine(b, s);
      JoinSplit(b, s[n..]);
      assert s == s[..n] + s[n..];
      assert SplitLines(b, s)[1..] == SplitLines(b, s[n..]);
    }
  }

  lemma {:induction false} FirstLineIsLine(b: Breaks, s: string)
    requires s != "" && Terminated(b, s)
    ensures IsLine(b, s[..FirstLine(b, s)])
  {
    if !IsBreak(b, s[0]) && |s| > 1 {
      FirstLineIsLine(b, s[1..]);
      var l := s[1..][..FirstLine(b, s[1..])];
      assert s[..FirstLine(b, s)] == [s[0]] + l;
    }
  }

  lemma {:induction false} SplitIsLines(b: Breaks, s: string)
    requires Terminated(b, s)
    ensures AllLines(b, SplitLines(b, s))
    decreases |s|
  {
    if s != "" {
      FirstLineIsLine(b, s);
      SplitIsLines(b, s[FirstLine(b, s)..]);
    }
  }

  lemma {:induction false} JoinAppend(a: seq<string>, b: seq<string>)
    ensures Join(a + b) == Join(a) + Join(b)
  {
    if a == [] {
      assert a + b == b;
    } else {
      assert (a + b)[1..] == a[1..] + b;
      JoinAppend(a[1..], b);
    }
  }

  lemma {:induction false} JoinTerminated(b: Breaks, lines: seq<string>)
    requires AllLines(b, lines)
    ensures Terminated(b, Join(lines))
  {
    if lines != [] {
      JoinTerminated(b, lines[1..]);
    }
  }

  lemma JoinFrom(lines: seq<string>, k: nat)
    requires k < |lines|
    ensures Join(lines[k..]) == lines[k] + Join(lines[k + 1..])
  {
    assert lines[k..][1..] == lines[k + 1..];
  }

  lemma Regrouped(a: string, b: string, c: string)
    ensures a + (b + c) == a + b + c
  {
  }

  /** A text cut around one of its lines. */
  lemma JoinAround(lines: seq<string>, k: nat)
    requires k < |lines|
    ensures Join(lines) == Join(lines[..k]) + lines[k] + Join(lines[k + 1..])
  {
    assert lines == lines[..k] + lines[k..];
    JoinAppend(lines[..k], lines[k..]);
    JoinFrom(lines, k);
    Regrouped(Join(lines[..k]), lines[k], Join(lines[k + 1..]));
  }

  /** The line without its terminator. */
  function Chomp(b: Breaks, l: string): string {
    if l != "" && IsBreak(b, l[|l| - 1]) then l[..|l| - 1] else l
  }

  // ---------------------------------------------------------------- stripping

  function LStrip(s: string): string {
    if s != "" && IsSpace(s[0]) then LStrip(s[1..]) else s
  }

  function RStrip(s: string): string {
    if s != "" && IsSpace(s[|s| - 1]) then RStrip(s[..|s| - 1]) else s
  }

  function Strip(s: string): string {
    RStrip(LStrip(s))
  }

  predicate AllSpace(s: string) {
    forall i | 0 <= i < |s| :: IsSpace(s[i])
  }

  lemma {:induction false} LStripPadded(pad: string, s: string)
    requires AllSpace(pad) && s != "" && !IsSpace(s[0])
    ensures LStrip(pad + s) == s
  {
    if pad == "" {
      assert pad + s == s;
    } else {
      assert (pad + s)[1..] == pad[1..] + s;
      LStripPadded(pad[1..], s);
    }
  }

  lemma {:induction false} RStripPadded(s: string, pad: string)
    requires AllSpace(pad) && s != "" && !IsSpace(s[|s| - 1])
    ensures RStrip(s + pad) == s
  {
    if pad == "" {
      assert s + pad == s;
    } else {
      assert (s + pad)[..|s + pad| - 1] == s + pad[..|pad| - 1];
      RStripPadded(s, pad[..|pad| - 1]);
    }
  }

  lemma StripPadded(left: string, core: string, right: string)
    requires AllSpace(left) && AllSpace(right)
    requires core != "" && !IsSpace(core[0]) && !IsSpace(core[|core| - 1])
    ensures LStrip(left + core + right) == core + right
    ensures Strip(left + core + right) == core
  {
    assert left + core + right == left + (core + right);
    LStripPadded(left, core + right);
    RStripPadded(core, right);
  }

  /** The number of leading spaces, as the indentation of a line is counted. */
  function Indent(s: string): nat {
    if s != "" && s[0] == ' ' then 1 + Indent(s[1..]) else 0
  }

  // ---------------------------------------------------------------- search

  predicate StartsWith(s: string, p: string) {
    |p| <= |s| && s[..|p|] == p
  }

  predicate EndsWith(s: string, p: string) {
    |p| <= |s| && s[|s| - |p|..] == p
  }

  predicate OccursAt(s: string, i: int, p: string) {
    0 <= i <= |s| - |p| && s[i..i + |p|] == p
  }

  predicate Contains(s: string, p: string) {
    exists i | 0 <= i <= |s| :: OccursAt(s, i, p)
  }

  predicate BreakFree(p: string) {
    forall i | 0 <= i < |p| :: !IsBreak(PyBreaks, p[i])
  }

  /** A text that contains p has each character of p. */
  lemma ContainsChar(s: string, p: string, k: nat)
    requires k < |p|
    ensures Contains(s, p) ==> p[k] in s
  {
  }

  lemma StraddlingHasBreak(a: string, b: string, p: string, i: nat)
    requires Terminated(PyBreaks, a) && OccursAt(a + b, i, p)
    ensures i < |a| < i + |p| ==> !BreakFree(p)
  {
    if i < |a| < i + |p| {
      assert (a + b)[|a| - 1] == (a + b)[i..i + |p|][|a| - 1 - i] == p[|a| - 1 - i];
    }
  }

  lemma OccursLeft(a: string, b: string, p: string, i: nat)
    requires i + |p| <= |a|
    ensures OccursAt(a + b, i, p) == OccursAt(a, i, p)
  {
    assert (a + b)[i..i + |p|] == a[i..i + |p|];
  }

  lemma OccursRight(a: string, b: string, p: string, j: nat)
    ensures OccursAt(a + b, |a| + j, p) == OccursAt(b, j, p)
  {
    if j + |p| <= |b| {
      assert (a + b)[|a| + j..|a| + j + |p|] == b[j..j + |p|];
    }
  }

  /** No occurrence of a break-free pattern straddles a line boundary. */
  lemma ContainsSplit(a: string, b: string, p: string)
    requires Terminated(PyBreaks, a) && BreakFree(p) && p != ""
    ensures Contains(a + b, p) <==> Contains(a, p) || Contains(b, p)
  {
    forall i | 0 <= i <= |a + b| && OccursAt(a + b, i, p)
      ensures OccursAt(a, i, p) || OccursAt(b, i - |a|, p)
    {
      StraddlingHasBreak(a, b, p, i);
      if i < |a| {
        OccursLeft(a, b, p, i);
      } else {
        OccursRight(a, b, p, i - |a|);
      }
    }
    forall i | 0 <= i <= |a| && OccursAt(a, i, p) ensures OccursAt(a + b, i, p) {
      OccursLeft(a, b, p, i);
    }
    forall i | 0 <= i <= |b| && OccursAt(b, i, p) ensures OccursAt(a + b, |a| + i, p) {
      OccursRight(a, b, p, i);
    }
  }

  /** What a line holds after its key. */
  function Field(line: string, key: string): Option<string> {
    if StartsWith(line, key) && |line| > |key| && line[|line| - 1] == '\n'
    then Some(line[|key|..|line| - 1]) else None
  }

  lemma FieldRead(line: string, key: string, value: string)
    requires line == key + value + "\n"
    ensures Field(line, key) == Some(value)
  {
  }

  // ---------------------------------------------------------------- selection

  /** The positions of the elements that satisfy p, in order. */
  function Indices(lines: seq<string>, p: string -> bool): seq<nat> {
    if lines == [] then []
    else
      var n := |lines| - 1;
      Indices(lines[..n], p) + if p(lines[n]) then [n] else []
  }

  lemma {:induction false} IndicesAre(lines: seq<string>, p: string -> bool)
    ensures forall k :: k in Indices(lines, p) <==> 0 <= k < |lines| && p(lines[k])
  {
    if lines != [] {
      IndicesAre(lines[..|lines| - 1], p);
    }
  }

  /** Indices sees the lines through p only. */
  lemma {:induction false} IndicesAgree(a: seq<string>, b: seq<string>, p: string -> bool)
    requires |a| == |b|
    requires forall i | 0 <= i < |a| :: p(a[i]) == p(b[i])
    ensures Indices(a, p) == Indices(b, p)
  {
    if a != [] {
      IndicesAgree(a[..|a| - 1], b[..|b| - 1], p);
    }
  }

  lemma {:induction false} IndicesOne(lines: seq<string>, p: string -> bool, k: nat)
    requires k < |lines| && p(lines[k])
    requires forall i | 0 <= i < |lines| && i != k :: !p(lines[i])
    ensures Indices(lines, p) == [k]
  {
    var n := |lines| - 1;
    if k < n {
      IndicesOne(lines[..n], p, k);
    } else {
      IndicesNone(lines[..n], p);
    }
  }

  lemma {:induction false} IndicesNone(lines: seq<string>, p: string -> bool)
    requires forall i | 0 <= i < |lines| :: !p(lines[i])
    ensures Indices(lines, p) == []
  {
    if lines != [] {
      IndicesNone(lines[..|lines| - 1], p);
    }
  }
}
