/** The main theorems about the kustomization rewriter: when a render succeeds, what it
    prints, what re-parsing the print returns, and what of the base it leaves alone. */
module Rewriter {
  import opened Results
  import opened Text
  import opened Formats
  import opened Kustomization
  import opened PatchText

  // ---------------------------------------------------------------- accepted bodies

  /** What the parser has checked of a body before it looks at the selector. */
  ghost predicate PlainBody(body: string) {
    && Terminated(LfOnly, body)
    && KeyFree(body)
    && !HasForbidden(body)
    && NoCr(body)
  }

  ghost predicate SoundBody(body: string) {
    PlainBody(body) && OneSelector(body)
  }

  function SelectorIndex(body: string): nat
    requires OneSelector(body)
  {
    SelectorLines(body)[0]
  }

  function SelectorLine(body: string): string
    requires OneSelector(body)
  {
    BodyLines(body)[SelectorIndex(body)]
  }

  lemma KeyFreeLeft(a: string, b: string)
    requires Terminated(PyBreaks, a)
    requires forall i | 0 <= i < |a| :: !PatchKey(a + b, i)
    ensures KeyFree(a)
  {
    forall i | 0 <= i <= |a| ensures !PatchKey(a, i) {
      if i < |a| {
        PatchKeyLeft(a, b, i);
      }
    }
  }

  /** No key starts before the marker, and the marker is the start of a line. */
  lemma MarkerIsFirst(text: string)
    requires |PatchKeys(text, |text| + 1)| <= 1
    ensures Marker(text) <= |text|
    ensures forall i | 0 <= i < Marker(text) :: !PatchKey(text, i)
    ensures Marker(text) < |text| ==> PatchKey(text, Marker(text))
  {
    var keys := PatchKeys(text, |text| + 1);
    PatchKeysAre(text, |text| + 1);
    if |keys| == 1 {
      assert keys[0] in keys;
      assert forall i :: i in keys ==> i == keys[0];
    }
  }

  /** The marker cuts a text into a key-free body and a patch. */
  lemma MarkerCuts(text: string)
    requires text != "" && text[|text| - 1] == '\n'
    requires |PatchKeys(text, |text| + 1)| <= 1
    ensures Marker(text) <= |text|
    ensures Terminated(LfOnly, text[..Marker(text)]) && KeyFree(text[..Marker(text)])
  {
    MarkerIsFirst(text);
    var m := Marker(text);
    assert text == text[..m] + text[m..];
    assert m > 0 ==> text[..m][m - 1] == text[m - 1];
    KeyFreeLeft(text[..m], text[m..]);
  }

  /** What the parser has checked before it splits a text. */
  lemma AcceptedFirst(text: string)
    requires BaseParts(text).Ok?
    ensures text != "" && text[|text| - 1] == '\n' && NoCr(text) && !HasForbidden(text)
    ensures |PatchKeys(text, |text| + 1)| <= 1 && Marker(text) <= |text|
    ensures BaseParts(text) == BodyParts(text[..Marker(text)], text[Marker(text)..])
  {
  }

  /** What it leaves to the body. */
  lemma CutSound(text: string)
    requires text != "" && text[|text| - 1] == '\n' && NoCr(text) && !HasForbidden(text)
    requires |PatchKeys(text, |text| + 1)| <= 1
    ensures Marker(text) <= |text| && text == text[..Marker(text)] + text[Marker(text)..]
    ensures PlainBody(text[..Marker(text)])
  {
    MarkerCuts(text);
    var m := Marker(text);
    assert text == text[..m] + text[m..];
    CleanSplit(text[..m], text[m..]);
  }

  lemma AcceptedBody(text: string)
    requires BaseParts(text).Ok?
    ensures SoundBody(BaseParts(text).value.body)
    ensures Marker(text) <= |text| && BaseParts(text).value.body == text[..Marker(text)]
  {
    AcceptedFirst(text);
    CutSound(text);
  }

  lemma PriorReleaseShape(digest: string, patch: string)
    requires PriorRelease(digest, patch).Ok?
    ensures IsDigest(digest)
    ensures exists name | IsJobName(name) ::
              && patch == ReleasePatch(name)
              && JobDigestPart(name) == DigestHex(digest)[..12]
              && PriorRelease(digest, patch).value == JobReleasePart(name)
  {
    var lines := SplitLines(LfOnly, patch);
    IndicesAre(lines, IsNameLine);
    var names := Indices(lines, IsNameLine);
    assert names[0] in names;
    assert IsJobName(NameOn(lines[names[0]]));
  }

  /** Every base that is accepted is its body followed by the patch its kind calls for. */
  ghost predicate BaseShape(text: string, p: Parts)
    requires OneSelector(p.body)
  {
    && p.kind == SelectorKind(SelectorLine(p.body))
    && p.value == SelectorValue(SelectorLine(p.body))
    && CheckImageSelector(BodyLines(p.body), p.kind, p.value).Pass?
    && (p.kind == NewTag ==> text == p.body && p.priorRelease == None && IsSafeTag(p.value))
    && (p.kind == Digest ==>
          && IsDigest(p.value)
          && exists name | IsJobName(name) ::
              && text == p.body + ReleasePatch(name)
              && JobDigestPart(name) == DigestHex(p.value)[..12]
              && p.priorRelease == Some(JobReleasePart(name)))
  }

  lemma BodyPartsShape(body: string, patch: string)
    requires BodyParts(body, patch).Ok?
    ensures BodyParts(body, patch).value.body == body
    ensures BaseShape(body + patch, BodyParts(body, patch).value)
  {
    var line := SelectorLine(body);
    if SelectorKind(line) == Digest {
      PriorReleaseShape(SelectorValue(line), patch);
    } else {
      assert body + patch == body;
    }
  }

  lemma AcceptedShape(text: string)
    requires BaseParts(text).Ok?
    ensures SoundBody(BaseParts(text).value.body) && BaseShape(text, BaseParts(text).value)
  {
    AcceptedFirst(text);
    CutSound(text);
    BodyPartsShape(text[..Marker(text)], text[Marker(text)..]);
  }

  // ---------------------------------------------------------------- the new selector line

  lemma DigestChars(digest: string)
    requires IsDigest(digest)
    ensures |digest| == 71
    ensures forall i | 0 <= i < 71 :: digest[i] == ':' || digest[i] == 's' || digest[i] == 'h' || IsHexDigit(digest[i])
  {
  }

  ghost predicate IsSelectorChar(c: char) {
    c == ' ' || c == ':' || c == 'i' || c == 'g' || c == 's' || c == 't' || c == 'h' || IsHexDigit(c)
  }

  /** The characters of the new line, one by one. */
  lemma NewSelectorChars(digest: string)
    requires IsDigest(digest)
    ensures |NewSelector(digest)| == 82 && NewSelector(digest)[81] == '\n'
    ensures forall i | 0 <= i < 81 ::
              IsSelectorChar(NewSelector(digest)[i])
    ensures NewSelector(digest)[..10] == "  digest: "
  {
  }

  lemma NewSelectorLine(digest: string)
    requires IsDigest(digest)
    ensures IsLine(LfOnly, NewSelector(digest)) && IsLine(PyBreaks, NewSelector(digest))
    ensures IsAscii(NewSelector(digest)) && |NewSelector(digest)| == 82
    ensures NoCr(NewSelector(digest)) && !HasForbidden(NewSelector(digest))
    ensures !KeyAt(NewSelector(digest), 0)
  {
    NewSelectorChars(digest);
    var l := NewSelector(digest);
    assert Avoids(l, 'y', 'J');
    CleanBy(l);
    assert forall i | 0 <= i < 10 :: l[i] == l[..10][i];
    NotKey(l, 2);
  }

  /** How the parser reads the new line. */
  lemma NewSelectorRead(digest: string)
    requires IsDigest(digest)
    ensures IsSelectorLine(NewSelector(digest)) && SelectorKind(NewSelector(digest)) == Digest
    ensures SelectorValue(NewSelector(digest)) == digest
  {
    NewSelectorChars(digest);
    var l := NewSelector(digest);
    assert l[2] == l[..10][2];
    assert "  newTag: "[2] == 'n';
    assert Chomp(PyBreaks, l) == "  digest: " + digest;
  }

  /** A selector line is its indentation, its key, its value and its break. */
  lemma SelectorPieces(line: string)
    requires IsLine(PyBreaks, line) && IsSelectorLine(line) && SelectorValue(line) != ""
    ensures line == "  " + (KeyText(SelectorKind(line)) + ": " + SelectorValue(line)) + line[|line| - 1..]
  {
    var n, key, value := |line| - 1, KeyText(SelectorKind(line)), SelectorValue(line);
    assert line[..10] == "  " + key + ": ";
    assert line == line[..n] + line[n..] && line[..n] == line[..10] + value;
  }

  lemma CoreStripped(core: string, end: string)
    requires core != "" && !IsSpace(core[0]) && !IsSpace(core[|core| - 1]) && AllSpace(end)
    ensures Strip("  " + core + end) == core
    ensures LStrip("  " + core + end) == core + end
    ensures Indent("  " + core + end) == 2
  {
    var pad := "  ";
    assert AllSpace(pad);
    StripPadded(pad, core, end);
    var rest := core + end;
    assert rest[0] == core[0];
    IndentOf(2, rest);
    assert pad + core + end == seq(2, _ => ' ') + rest;
  }

  lemma PiecesStripped(key: string, value: string, end: string)
    requires |key| == 6 && !IsSpace(key[0]) && value != "" && !IsSpace(value[|value| - 1]) && AllSpace(end)
    ensures Strip("  " + (key + ": " + value) + end) == key + ": " + value
    ensures StartsWith(LStrip("  " + (key + ": " + value) + end), key)
    ensures Indent("  " + (key + ": " + value) + end) == 2
  {
    EndsKept(key, ": ", value, end);
    CoreStripped(key + ": " + value, end);
  }

  lemma EndsKept(a: string, b: string, c: string, d: string)
    requires a != "" && c != ""
    ensures (a + b + c)[0] == a[0] && (a + b + c)[|a + b + c| - 1] == c[|c| - 1]
    ensures StartsWith(a + b + c + d, a)
  {
  }

  /** What stripping leaves of a selector line. */
  lemma SelectorStripped(line: string)
    requires IsLine(PyBreaks, line) && IsSelectorLine(line)
    requires SelectorValue(line) != "" && !IsSpace(SelectorValue(line)[|SelectorValue(line)| - 1])
    ensures Strip(line) == KeyText(SelectorKind(line)) + ": " + SelectorValue(line)
    ensures StartsWith(LStrip(line), KeyText(SelectorKind(line)))
    ensures Indent(line) == 2
  {
    SelectorPieces(line);
    PiecesStripped(KeyText(SelectorKind(line)), SelectorValue(line), line[|line| - 1..]);
  }

  lemma NewSelectorStripped(digest: string)
    requires IsDigest(digest)
    ensures Strip(NewSelector(digest)) == "digest: " + digest
    ensures StartsWith(LStrip(NewSelector(digest)), "digest")
    ensures Indent(NewSelector(digest)) == 2
  {
    NewSelectorLine(digest);
    NewSelectorRead(digest);
    DigestChars(digest);
    assert digest[70] == digest[7..][63];
    SelectorStripped(NewSelector(digest));
  }

  lemma {:induction false} IndentOf(n: nat, s: string)
    requires s == "" || s[0] != ' '
    ensures Indent(seq(n, _ => ' ') + s) == n
  {
    if n == 0 {
      assert seq(0, _ => ' ') + s == s;
    } else {
      assert (seq(n, _ => ' ') + s)[1..] == seq(n - 1, _ => ' ') + s;
      IndentOf(n - 1, s);
    }
  }

  /** Replacing the selector line replaces that one line and nothing else. */
  lemma NewBodyLines(body: string, digest: string)
    requires OneSelector(body) && Terminated(LfOnly, body) && IsDigest(digest)
    ensures AllLines(PyBreaks, BodyLines(body))
    ensures BodyLines(NewBody(body, digest)) == BodyLines(body)[SelectorIndex(body) := NewSelector(digest)]
    ensures OneSelector(NewBody(body, digest)) && SelectorIndex(NewBody(body, digest)) == SelectorIndex(body)
    ensures SelectorLine(NewBody(body, digest)) == NewSelector(digest)
  {
    var lines, k := BodyLines(body), SelectorIndex(body);
    SplitIsLines(PyBreaks, body);
    NewSelectorLine(digest);
    NewSelectorRead(digest);
    SplitJoin(PyBreaks, lines[k := NewSelector(digest)]);
    IndicesAgree(lines, lines[k := NewSelector(digest)], IsSelectorLine);
  }

  // ---------------------------------------------------------------- keys around the new line

  /** The one way a new key can appear: the old selector line ended in a break that regular
      expressions do not see, and what follows it reads as a patch key. */
  predicate HiddenKey(body: string)
    requires OneSelector(body)
  {
    var k := SelectorIndex(body);
    && !EndsWith(SelectorLine(body), "\n")
    && KeyAt(Join(BodyLines(body)[k + 1..]), 0)
  }

  lemma KeyInside(pre: string, line: string, post: string, i: nat)
    requires |pre| <= i < |pre| + |line|
    requires IsLine(PyBreaks, line) && !KeyAt(line, 0)
    ensures !PatchKey(pre + line + post, i)
  {
    var j := i - |pre|;
    assert pre + line + post == pre + (line + post);
    PatchKeyRight(pre, line + post, j);
    if j == 0 {
      PatchKeyLeft(line, post, 0);
    } else {
      assert (line + post)[j - 1] == line[j - 1];
    }
  }

  /** After the line, a text reads as its rest. */
  lemma KeyAfter(pre: string, line: string, post: string, i: nat)
    requires IsLine(PyBreaks, line) && i <= |post|
    ensures PatchKey(pre + line + post, |pre| + |line| + i)
       <==> (if i == 0 then line[|line| - 1] == '\n' else post[i - 1] == '\n') && KeyAt(post, i)
  {
    PatchKeyRight(pre + line, post, i);
  }

  lemma NoKeyReplaced(pre: string, old': string, new': string, post: string, i: nat)
    requires Terminated(PyBreaks, pre)
    requires IsLine(PyBreaks, old') && IsLine(LfOnly, new') && IsLine(PyBreaks, new') && !KeyAt(new', 0)
    requires KeyFree(pre + old' + post)
    requires i <= |pre + new' + post| && i != |pre| + |new'|
    ensures !PatchKey(pre + new' + post, i)
  {
    if i < |pre| {
      assert pre + new' + post == pre + (new' + post) && pre + old' + post == pre + (old' + post);
      PatchKeyLeft(pre, new' + post, i);
      PatchKeyLeft(pre, old' + post, i);
      assert !PatchKey(pre + old' + post, i);
    } else if i < |pre| + |new'| {
      KeyInside(pre, new', post, i);
    } else {
      var j := i - |pre| - |new'|;
      KeyAfter(pre, new', post, j);
      KeyAfter(pre, old', post, j);
      assert !PatchKey(pre + old' + post, |pre| + |old'| + j);
    }
  }

  lemma KeyFreeReplaced(pre: string, old': string, new': string, post: string)
    requires Terminated(PyBreaks, pre)
    requires IsLine(PyBreaks, old') && IsLine(LfOnly, new') && IsLine(PyBreaks, new') && !KeyAt(new', 0)
    requires KeyFree(pre + old' + post)
    ensures KeyFree(pre + new' + post) <==> old'[|old'| - 1] == '\n' || !KeyAt(post, 0)
  {
    var text := pre + new' + post;
    KeyAfter(pre, old', post, 0);
    KeyAfter(pre, new', post, 0);
    assert !PatchKey(pre + old' + post, |pre| + |old'|);
    forall i | 0 <= i <= |text| && i != |pre| + |new'| ensures !PatchKey(text, i) {
      NoKeyReplaced(pre, old', new', post, i);
    }
    assert KeyFree(text) <==> !PatchKey(text, |pre| + |new'|);
  }

  ghost function Before(body: string): string
    requires OneSelector(body)
  {
    Join(BodyLines(body)[..SelectorIndex(body)])
  }

  ghost function After(body: string): string
    requires OneSelector(body)
  {
    Join(BodyLines(body)[SelectorIndex(body) + 1..])
  }

  /** The frame of a rewrite: the text before and after the selector line is kept. */
  lemma NewBodyFrame(body: string, digest: string)
    requires OneSelector(body) && Terminated(LfOnly, body) && IsDigest(digest)
    ensures body == Before(body) + SelectorLine(body) + After(body)
    ensures NewBody(body, digest) == Before(body) + NewSelector(digest) + After(body)
    ensures Terminated(PyBreaks, Before(body)) && IsLine(PyBreaks, SelectorLine(body))
  {
    var lines, k := BodyLines(body), SelectorIndex(body);
    var new' := lines[k := NewSelector(digest)];
    NewBodyLines(body, digest);
    JoinSplit(PyBreaks, body);
    JoinAround(lines, k);
    JoinAround(new', k);
    assert new'[..k] == lines[..k] && new'[k + 1..] == lines[k + 1..];
    JoinTerminated(PyBreaks, lines[..k]);
  }

  lemma NoCrAppend(a: string, b: string)
    ensures NoCr(a + b) <==> NoCr(a) && NoCr(b)
  {
  }

  /** The textual checks other than the key search see the three pieces one by one. */
  lemma PiecesClean(pre: string, line: string, post: string)
    requires Terminated(PyBreaks, pre) && IsLine(PyBreaks, line)
    ensures NoCr(pre + line + post) <==> NoCr(pre) && NoCr(line) && NoCr(post)
    ensures HasForbidden(pre + line + post) <==> HasForbidden(pre) || HasForbidden(line) || HasForbidden(post)
  {
    NoCrAppend(pre + line, post);
    NoCrAppend(pre, line);
    CleanSplit(pre + line, post);
    CleanSplit(pre, line);
  }

  lemma PiecesTerminated(pre: string, line: string, new': string, post: string)
    requires IsLine(PyBreaks, line) && IsLine(LfOnly, new') && Terminated(LfOnly, pre + line + post)
    ensures Terminated(LfOnly, pre + new' + post)
  {
  }

  /** A rewritten body passes every textual check again, unless a hidden key surfaces. */
  lemma NewBodySound(body: string, digest: string)
    requires SoundBody(body) && IsDigest(digest)
    ensures PlainBody(NewBody(body, digest)) <==> !HiddenKey(body)
    ensures Terminated(LfOnly, NewBody(body, digest)) && !HasForbidden(NewBody(body, digest))
    ensures NoCr(NewBody(body, digest))
  {
    var pre, old', post := Before(body), SelectorLine(body), After(body);
    var new' := NewSelector(digest);
    NewBodyFrame(body, digest);
    NewSelectorLine(digest);
    KeyFreeReplaced(pre, old', new', post);
    PiecesClean(pre, old', post);
    PiecesClean(pre, new', post);
    PiecesTerminated(pre, old', new', post);
    EndsWithLf(old');
  }

  lemma EndsWithLf(l: string)
    requires l != ""
    ensures EndsWith(l, "\n") <==> l[|l| - 1] == '\n'
  {
  }

  // ---------------------------------------------------------------- the image block of a rewrite

  predicate InBlock(lines: seq<string>, k: nat) {
    match ImageBlock(lines)
    case Ok(entry) => entry.start <= k < entry.end
    case Err(_) => false
  }

  /** The selector line that the renderer replaces lies in the image entry. */
  predicate SelectorInBlock(body: string)
    requires OneSelector(body)
  {
    InBlock(BodyLines(body), SelectorIndex(body))
  }

  predicate Outdented(line: string, indent: nat) {
    Strip(line) != "" && Indent(line) <= indent
  }

  lemma {:induction false} BlockEndAgree(a: seq<string>, b: seq<string>, i: nat, indent: nat)
    requires i <= |a| == |b|
    requires forall j | i <= j < |a| :: Outdented(a[j], indent) == Outdented(b[j], indent)
    ensures BlockEnd(a, i, indent) == BlockEnd(b, i, indent)
    decreases |a| - i
  {
    if i < |a| {
      assert Outdented(a[i], indent) == Outdented(b[i], indent);
      BlockEndAgree(a, b, i + 1, indent);
    }
  }

  /** A line whose stripped text is not a list entry can stand in for another such line. */
  ghost predicate KeyLike(line: string) {
    && Strip(line) != "" && Strip(line)[0] != '-'
    && LStrip(line) != "" && LStrip(line)[0] != '-'
    && Indent(line) == 2
  }

  lemma StartsHead(s: string, p: string)
    requires p != ""
    ensures StartsWith(s, p) ==> s[0] == p[0]
  {
  }

  lemma KeyLikeIsNoEntry(line: string)
    requires KeyLike(line)
    ensures !IsImageLine(line) && !IsNameEntry(line)
  {
  }

  lemma SameBlockEnd(lines: seq<string>, k: nat, line: string, start: nat)
    requires k < |lines| && KeyLike(lines[k]) && KeyLike(line) && start < |lines| && start != k
    ensures lines[k := line][start] == lines[start]
    ensures BlockEnd(lines[k := line], start + 1, Indent(lines[start]))
         == BlockEnd(lines, start + 1, Indent(lines[start]))
  {
    var new', indent := lines[k := line], Indent(lines[start]);
    forall j | start + 1 <= j < |lines| ensures Outdented(lines[j], indent) == Outdented(new'[j], indent) {
    }
    BlockEndAgree(lines, new', start + 1, indent);
  }

  lemma SameIndices(lines: seq<string>, k: nat, line: string)
    requires k < |lines| && KeyLike(lines[k]) && KeyLike(line)
    ensures Indices(lines[k := line], IsImageLine) == Indices(lines, IsImageLine)
    ensures Indices(lines[k := line], IsNameEntry) == Indices(lines, IsNameEntry)
    ensures k !in Indices(lines, IsImageLine)
  {
    var new' := lines[k := line];
    KeyLikeIsNoEntry(lines[k]);
    KeyLikeIsNoEntry(line);
    IndicesAgree(lines, new', IsImageLine);
    IndicesAgree(lines, new', IsNameEntry);
    IndicesAre(lines, IsImageLine);
  }

  /** The image block when its entry is found, and the error otherwise. */
  lemma ImageBlockFound(lines: seq<string>, start: nat)
    requires start < |lines| && Indices(lines, IsImageLine) == [start] && |Indices(lines, IsNameEntry)| == 1
    ensures ImageBlock(lines) == Ok(ImageEntry(start, BlockEnd(lines, start + 1, Indent(lines[start]))))
  {
  }

  lemma ImageBlockNotFound(lines: seq<string>)
    requires |Indices(lines, IsImageLine)| != 1 || |Indices(lines, IsNameEntry)| != 1
    ensures ImageBlock(lines)
         == Err(if |Indices(lines, IsImageLine)| != 1 then ImageEntryNotUnique else ImageTransformerNotSingle)
  {
  }

  lemma ImageBlockAgree(lines: seq<string>, k: nat, line: string)
    requires k < |lines| && KeyLike(lines[k]) && KeyLike(line)
    ensures ImageBlock(lines[k := line]) == ImageBlock(lines)
    ensures ImageBlock(lines).Ok? ==> ImageBlock(lines).value.start != k
  {
    var new', matches := lines[k := line], Indices(lines, IsImageLine);
    SameIndices(lines, k, line);
    if |matches| == 1 && |Indices(lines, IsNameEntry)| == 1 {
      var start := OnlyIndex(lines);
      SameBlockEnd(lines, k, line, start);
      ImageBlockFound(lines, start);
      ImageBlockFound(new', start);
    } else {
      ImageBlockNotFound(lines);
      ImageBlockNotFound(new');
    }
  }

  lemma OnlyIndex(lines: seq<string>) returns (start: nat)
    requires |Indices(lines, IsImageLine)| == 1
    ensures start < |lines| && Indices(lines, IsImageLine) == [start]
  {
    IndicesAre(lines, IsImageLine);
    start := Indices(lines, IsImageLine)[0];
    assert start in Indices(lines, IsImageLine);
  }

  lemma {:induction false} StrippedAppend(a: seq<string>, b: seq<string>)
    ensures StrippedNonblank(a + b) == StrippedNonblank(a) + StrippedNonblank(b)
  {
    if a == [] {
      assert a + b == b;
    } else {
      assert (a + b)[1..] == a[1..] + b;
      StrippedAppend(a[1..], b);
    }
  }

  /** Replacing a non-blank line replaces its own entry of the stripped block. */
  lemma StrippedReplaced(lines: seq<string>, k: nat, line: string)
    requires k < |lines| && Strip(lines[k]) != "" && Strip(line) != ""
    ensures var pos := |StrippedNonblank(lines[..k])|;
      && pos < |StrippedNonblank(lines)|
      && StrippedNonblank(lines)[pos] == Strip(lines[k])
      && StrippedNonblank(lines[k := line]) == StrippedNonblank(lines)[pos := Strip(line)]
  {
    var pre, post := lines[..k], lines[k + 1..];
    assert lines == pre + ([lines[k]] + post);
    assert lines[k := line] == pre + ([line] + post);
    StrippedAppend(pre, [lines[k]] + post);
    StrippedAppend(pre, [line] + post);
    StrippedAppend([lines[k]], post);
    StrippedAppend([line], post);
    assert StrippedNonblank([lines[k]]) == [Strip(lines[k])];
    assert StrippedNonblank([line]) == [Strip(line)];
  }

  lemma SelectorBlockEntries(kind: Selector, value: string)
    ensures forall i | 0 <= i < 3 && SelectorBlock(kind, value)[i] == KeyText(kind) + ": " + value :: i == 2
  {
    var b := SelectorBlock(kind, value);
    assert b[0][0] == '-' && b[1][3] == 'N';
    assert b[2][0] == KeyText(kind)[0] && b[2][3] == KeyText(kind)[3];
  }

  lemma SelectorBlockInjective(k1: Selector, v1: string, k2: Selector, v2: string)
    ensures SelectorBlock(k1, v1) == SelectorBlock(k2, v2) <==> k1 == k2 && v1 == v2
  {
    var a, b := SelectorBlock(k1, v1)[2], SelectorBlock(k2, v2)[2];
    assert a[0] == KeyText(k1)[0] && b[0] == KeyText(k2)[0];
    assert a[8..] == v1 && b[8..] == v2;
  }

  lemma SelectorLineKeyLike(body: string, kind: Selector, value: string)
    requires OneSelector(body) && Terminated(LfOnly, body)
    requires kind == SelectorKind(SelectorLine(body)) && value == SelectorValue(SelectorLine(body))
    requires if kind == NewTag then IsSafeTag(value) else IsDigest(value)
    ensures KeyLike(SelectorLine(body)) && Strip(SelectorLine(body)) == KeyText(kind) + ": " + value
  {
    SplitIsLines(PyBreaks, body);
    if kind == Digest {
      DigestChars(value);
      assert value[70] == value[7..][63];
    }
    SelectorStripped(SelectorLine(body));
    assert LStrip(SelectorLine(body))[..6][0] == KeyText(kind)[0];
  }

  lemma ReplacedSelector(lines: seq<string>, k: nat, line: string, kind: Selector, value: string, digest: string)
    requires k < |lines| && KeyLike(lines[k]) && KeyLike(line)
    requires Strip(lines[k]) == KeyText(kind) + ": " + value && Strip(line) == "digest: " + digest
    requires CheckImageSelector(lines, kind, value).Pass?
    ensures CheckImageSelector(lines[k := line], Digest, digest).Pass?
       <==> InBlock(lines, k) || (kind == Digest && value == digest)
    ensures InBlock(lines[k := line], k) == InBlock(lines, k)
  {
    ImageBlockAgree(lines, k, line);
    var entry := ImageBlock(lines).value;
    var block := lines[entry.start..entry.end];
    if InBlock(lines, k) {
      var i := k - entry.start;
      assert lines[k := line][entry.start..entry.end] == block[i := line];
      StrippedReplaced(block, i, line);
      SelectorBlockEntries(kind, value);
      assert KeyText(Digest) + ": " == "digest: ";
      assert SelectorBlock(kind, value)[2 := "digest: " + digest] == SelectorBlock(Digest, digest);
    } else {
      assert lines[k := line][entry.start..entry.end] == block;
      SelectorBlockInjective(kind, value, Digest, digest);
    }
  }

  /** The rewritten body selects by the new digest exactly when the selector line lay in the
      image block, or the block already selected that digest. */
  lemma RewrittenSelector(body: string, kind: Selector, value: string, digest: string)
    requires OneSelector(body) && Terminated(LfOnly, body) && IsDigest(digest)
    requires kind == SelectorKind(SelectorLine(body)) && value == SelectorValue(SelectorLine(body))
    requires if kind == NewTag then IsSafeTag(value) else IsDigest(value)
    requires CheckImageSelector(BodyLines(body), kind, value).Pass?
    ensures OneSelector(NewBody(body, digest))
    ensures CheckImageSelector(BodyLines(NewBody(body, digest)), Digest, digest).Pass?
       <==> SelectorInBlock(body) || (kind == Digest && value == digest)
    ensures SelectorInBlock(NewBody(body, digest)) == SelectorInBlock(body)
  {
    NewBodyLines(body, digest);
    SelectorLineKeyLike(body, kind, value);
    NewSelectorStripped(digest);
    StartsHead(LStrip(NewSelector(digest)), "digest");
    ReplacedSelector(BodyLines(body), SelectorIndex(body), NewSelector(digest), kind, value, digest);
  }

  // ---------------------------------------------------------------- parsing the print

  lemma TwoMembers(ks: seq<nat>, a: nat, b: nat)
    requires a in ks && b in ks && a != b
    ensures |ks| > 1
  {
  }

  lemma PatchIsKey(body: string, name: string)
    requires Terminated(LfOnly, body) && IsJobName(name)
    ensures PatchKey(body + ReleasePatch(name), |body|)
    ensures ExactKey(body + ReleasePatch(name), |body|)
  {
  }

  lemma OnlyPatchIsKey(body: string, name: string, i: nat)
    requires KeyFree(body) && Terminated(LfOnly, body) && IsJobName(name)
    requires i <= |body + ReleasePatch(name)| && i != |body|
    ensures !PatchKey(body + ReleasePatch(name), i)
  {
    PatchTail(name);
    if i < |body| {
      PatchKeyLeft(body, ReleasePatch(name), i);
    } else {
      NoKeyInPatch(body, Join(PatchLines(name)[1..]), i);
    }
  }

  lemma PrintedOneKey(body: string, name: string)
    requires KeyFree(body) && Terminated(LfOnly, body) && IsJobName(name)
    ensures var text := body + ReleasePatch(name); PatchKeys(text, |text| + 1) == [|body|] && ExactKey(text, |body|)
  {
    var text := body + ReleasePatch(name);
    PatchIsKey(body, name);
    forall i | 0 <= i <= |text| && i != |body| ensures !PatchKey(text, i) {
      OnlyPatchIsKey(body, name, i);
    }
    PatchKeysOne(text, |text| + 1, |body|);
  }

  lemma PrintedTwoKeys(body: string, name: string)
    requires !KeyFree(body) && Terminated(LfOnly, body) && IsJobName(name)
    ensures var text := body + ReleasePatch(name); |PatchKeys(text, |text| + 1)| > 1
  {
    var patch := ReleasePatch(name);
    PatchIsKey(body, name);
    PatchKeysAre(body + patch, |body + patch| + 1);
    var i :| 0 <= i <= |body| && PatchKey(body, i);
    EndIsNoKey(body);
    PatchKeyLeft(body, patch, i);
    TwoMembers(PatchKeys(body + patch, |body + patch| + 1), i, |body|);
  }

  lemma EndIsNoKey(body: string)
    ensures !PatchKey(body, |body|)
  {
  }

  /** The printed patch is the one key of a print when its body holds none. */
  lemma PrintedKeys(body: string, name: string)
    requires Terminated(LfOnly, body) && IsJobName(name)
    ensures var text := body + ReleasePatch(name);
      && (KeyFree(body) ==> PatchKeys(text, |text| + 1) == [|body|] && ExactKey(text, |body|))
      && (!KeyFree(body) ==> |PatchKeys(text, |text| + 1)| > 1)
  {
    if KeyFree(body) {
      PrintedOneKey(body, name);
    } else {
      PrintedTwoKeys(body, name);
    }
  }

  lemma NoKeyInPatch(body: string, rest: string, i: nat)
    requires |body| < i <= |body + ("patches:\n" + rest)| && KeyFree(rest)
    ensures !PatchKey(body + ("patches:\n" + rest), i)
  {
    var patch := "patches:\n" + rest;
    var j := i - |body|;
    PatchKeyRight(body, patch, j);
    if j >= 9 {
      PatchKeyRight("patches:\n", rest, j - 9);
      assert !PatchKey(rest, j - 9);
    } else {
      assert patch[j - 1] == "patches:\n"[j - 1];
    }
  }

  /** Reading back the patch of a release gives the release prefix. */
  lemma PrintedRelease(digest: string, releaseSha: string)
    requires IsDigest(digest) && IsSha64(releaseSha)
    ensures PriorRelease(digest, ReleasePatch(DerivedJobName(digest, releaseSha))) == Ok(releaseSha[..24])
  {
    DerivedJobNameParts(digest, releaseSha);
    PatchNamesItsJob(DerivedJobName(digest, releaseSha));
  }

  lemma PrintedLfText(body: string, name: string)
    requires NoCr(body) && IsJobName(name)
    ensures var text := body + ReleasePatch(name);
      CheckLfText(text, MAX_KUSTOMIZATION_BYTES).Pass? <==> ByteLength(text) <= MAX_KUSTOMIZATION_BYTES
  {
    PatchLinesPlain(name);
    PlainJoin(PatchLines(name));
    PatchTail(name);
    NoCrAppend(body, ReleasePatch(name));
    var text := body + ReleasePatch(name);
    assert text[|text| - 1] == ReleasePatch(name)[|ReleasePatch(name)| - 1];
  }

  /** The parser on a print: either it fails, or it returns exactly what was printed. */
  lemma PrintedParts(body: string, digest: string, releaseSha: string)
    requires IsDigest(digest) && IsSha64(releaseSha) && OneSelector(body)
    requires SelectorLine(body) == NewSelector(digest)
    requires Terminated(LfOnly, body) && NoCr(body) && !HasForbidden(body)
    ensures var text := body + ReleasePatch(DerivedJobName(digest, releaseSha));
      && (BaseParts(text).Ok? <==>
            && ByteLength(text) <= MAX_KUSTOMIZATION_BYTES
            && KeyFree(body)
            && CheckImageSelector(BodyLines(body), Digest, digest).Pass?)
      && (BaseParts(text).Ok? ==> BaseParts(text).value == Parts(body, Digest, digest, Some(releaseSha[..24])))
  {
    var name := DerivedJobName(digest, releaseSha);
    var text := body + ReleasePatch(name);
    DerivedJobNameParts(digest, releaseSha);
    PrintedKeys(body, name);
    PrintedLfText(body, name);
    PatchClean(name);
    CleanSplit(body, ReleasePatch(name));
    if KeyFree(body) {
      assert text[..|body|] == body && text[|body|..] == ReleasePatch(name);
      NewSelectorRead(digest);
      PrintedRelease(digest, releaseSha);
    }
  }

  // ---------------------------------------------------------------- when a render succeeds

  function Identity(p: Parts): Option<(string, string)> {
    match p.priorRelease
    case Some(release) => Some((p.value, release))
    case None => None
  }

  /** Conditions on an accepted base, each of which a caller can check before rendering. */
  predicate Renderable(p: Parts, digest: string)
    requires OneSelector(p.body)
  {
    && (SelectorInBlock(p.body) || (p.kind == Digest && p.value == digest))
    && !HiddenKey(p.body)
  }

  /** Print/parse inverse. For an accepted base, validation of the print succeeds exactly when
      the base is renderable and the print is within the size bound; and it then reads back
      the digest and the release prefix that were printed. */
  lemma RewriteValidates(text: string, digest: string, releaseSha: string)
    requires BaseParts(text).Ok? && IsDigest(digest) && IsSha64(releaseSha)
    ensures var p := BaseParts(text).value;
      var result := Rewrite(p.body, digest, releaseSha);
      && (ValidateKustomization(result, digest, releaseSha).Pass? <==>
            Renderable(p, digest) && ByteLength(result) <= MAX_KUSTOMIZATION_BYTES)
      && (ValidateKustomization(result, digest, releaseSha).Pass? ==>
            BaseParts(result) == Ok(Parts(NewBody(p.body, digest), Digest, digest, Some(releaseSha[..24]))))
  {
    AcceptedShape(text);
    var p := BaseParts(text).value;
    NewBodyLines(p.body, digest);
    NewBodySound(p.body, digest);
    RewrittenSelector(p.body, p.kind, p.value, digest);
    PrintedParts(NewBody(p.body, digest), digest, releaseSha);
  }

  /** Exactly when rendering succeeds, and what it returns. */
  lemma RenderSucceeds(text: string, digest: string, releaseSha: string)
    ensures Render(text, digest, releaseSha).Ok? <==>
      && IsDigest(digest) && IsSha64(releaseSha)
      && BaseParts(text).Ok?
      && Identity(BaseParts(text).value) != Some((digest, releaseSha[..24]))
      && Renderable(BaseParts(text).value, digest)
      && ByteLength(Rewrite(BaseParts(text).value.body, digest, releaseSha)) <= MAX_KUSTOMIZATION_BYTES
    ensures Render(text, digest, releaseSha).Ok? ==>
      && Render(text, digest, releaseSha).value == Rewrite(BaseParts(text).value.body, digest, releaseSha)
      && BaseParts(Render(text, digest, releaseSha).value)
           == Ok(Parts(NewBody(BaseParts(text).value.body, digest), Digest, digest, Some(releaseSha[..24])))
  {
    if IsDigest(digest) && IsSha64(releaseSha) && BaseParts(text).Ok? {
      RewriteValidates(text, digest, releaseSha);
      AcceptedShape(text);
    }
  }

  /** The frame: a render differs from its base in the selector line and the patch only. */
  lemma RenderFrame(text: string, digest: string, releaseSha: string)
    requires Render(text, digest, releaseSha).Ok?
    ensures var body := BaseParts(text).value.body;
      && StartsWith(text, Before(body) + SelectorLine(body) + After(body))
      && Render(text, digest, releaseSha).value
           == Before(body) + ("  digest: " + digest + "\n") + After(body)
                + ReleasePatch(DerivedJobName(digest, releaseSha))
  {
    RenderSucceeds(text, digest, releaseSha);
    AcceptedBody(text);
    NewBodyFrame(BaseParts(text).value.body, digest);
  }
}
