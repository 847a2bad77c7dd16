/** Bases on which the renderer succeeds, and one on which it fails for its selector line: the results
    about renders and chains are not empty. */
module RewriterWitnesses {
  import opened Results
  import opened Text
  import opened Formats
  import opened Kustomization
  import opened PatchText
  import opened Rewriter
  import opened ReleaseChain
  import opened RewriterLimits

  // ---------------------------------------------------------------- bases of tame lines

  /** A short line of tame characters that ends in LF and is no patch key. */
  predicate BaseLine(l: string) {
    Tame(l) && l[|l| - 1] == '\n' && !KeyAt(l, 0) && |l| <= 80
  }

  lemma BaseLineIsLine(l: string)
    requires BaseLine(l)
    ensures IsLine(PyBreaks, l) && IsLine(LfOnly, l) && TameText(l)
  {
    TameLine(l);
  }

  lemma TameLines(lines: seq<string>)
    requires forall i | 0 <= i < |lines| :: BaseLine(lines[i])
    ensures AllLines(PyBreaks, lines) && AllLines(LfOnly, lines)
    ensures forall i | 0 <= i < |lines| :: TameText(lines[i])
  {
    forall i | 0 <= i < |lines|
      ensures TameText(lines[i]) && IsLine(PyBreaks, lines[i]) && IsLine(LfOnly, lines[i])
    {
      BaseLineIsLine(lines[i]);
    }
  }

  lemma TameSmall(text: string, lines: seq<string>)
    requires text == Join(lines) && lines != [] && |lines| <= 8 && TameText(text)
    requires forall i | 0 <= i < |lines| :: lines[i] != "" && |lines[i]| <= 80
    ensures text != "" && ByteLength(text) <= 2560
  {
    JoinBound(lines, 80);
    ByteLengthBound(text);
  }

  lemma TameIsText(text: string)
    requires TameText(text) && Terminated(LfOnly, text) && text != "" && ByteLength(text) <= 2560
    ensures CheckLfText(text, MAX_KUSTOMIZATION_BYTES).Pass?
  {
  }

  lemma TameKeyFree(lines: seq<string>)
    requires AllLines(LfOnly, lines) && forall i | 0 <= i < |lines| :: BaseLine(lines[i])
    ensures KeyFree(Join(lines))
  {
    KeyFreeLines(lines);
  }

  /** What a few base lines make up passes every check of a text without a patch. */
  lemma TameBase(lines: seq<string>)
    requires lines != [] && |lines| <= 8 && forall i | 0 <= i < |lines| :: BaseLine(lines[i])
    ensures CheckLfText(Join(lines), MAX_KUSTOMIZATION_BYTES).Pass? && KeyFree(Join(lines))
    ensures !HasForbidden(Join(lines)) && ByteLength(Join(lines)) <= 2560
    ensures AllLines(PyBreaks, lines)
  {
    TameLines(lines);
    TameJoin(lines);
    TameKeyFree(lines);
    TameNotForbidden(Join(lines));
    TameSmall(Join(lines), lines);
    JoinTerminated(LfOnly, lines);
    TameIsText(Join(lines));
  }

  lemma {:induction false} JoinBound(lines: seq<string>, w: nat)
    requires forall i | 0 <= i < |lines| :: |lines[i]| <= w
    ensures |Join(lines)| <= |lines| * w
    decreases |lines|
  {
    if lines != [] {
      JoinBound(lines[1..], w);
      assert |lines| * w == |lines[1..]| * w + w;
    }
  }

  // ---------------------------------------------------------------- the lines

  predicate Unrelated(l: string) {
    BaseLine(l) && !IsImageLine(l) && !IsNameEntry(l)
  }

  /** The line that opens the image entry. */
  predicate EntryLike(l: string) {
    && BaseLine(l) && IsImageLine(l) && IsNameEntry(l) && !IsSelectorLine(l)
    && Indent(l) == 0 && Strip(l) == "- name: " + IMAGE_REPOSITORY
  }

  predicate NameLike(l: string) {
    && Unrelated(l) && !IsSelectorLine(l)
    && Indent(l) > 0 && Strip(l) == "newName: " + IMAGE_REPOSITORY
  }

  /** A selector line with the tag a. */
  predicate TagLike(l: string) {
    && Unrelated(l) && IsSelectorLine(l) && SelectorKind(l) == NewTag && SelectorValue(l) == "a"
    && Indent(l) > 0 && Strip(l) == "newTag: a" && EndsWith(l, "\n")
  }

  /** The same, but indented too far to be found as the selector line. */
  predicate DeepTagLike(l: string) {
    Unrelated(l) && !IsSelectorLine(l) && Indent(l) > 0 && Strip(l) == "newTag: a"
  }

  /** A line at the margin. */
  predicate TopLike(l: string) {
    Unrelated(l) && !IsSelectorLine(l) && Indent(l) == 0 && Strip(l) != ""
  }

  lemma EntryExists() returns (l: string)
    ensures EntryLike(l)
  {
    l := ENTRY_LINE;
    LinesTame();
    ImageOrdinary();
    NoKey(l);
    EntryStripped();
    NoSelector(l, 0);
  }

  lemma NameExists() returns (l: string)
    ensures NameLike(l)
  {
    l := NAME_LINE;
    LinesTame();
    ImageOrdinary();
    NoKey(l);
    NameStripped();
    OtherLinesSelectNothing();
  }

  /** A line of blanks, ordinary text that opens no entry and no key, and LF. */
  lemma PaddedLine(pad: string, core: string, l: string)
    requires l == pad + core + "\n" && |l| <= 80 && AllBlank(pad)
    requires |core| > 5 && core[0] != '-' && core[0] != 'p' && Ordinary(core[0]) && Ordinary(core[|core| - 1])
    requires forall i | 0 <= i < |core| :: Ordinary(core[i]) || core[i] == ' '
    ensures Unrelated(l) && Strip(l) == core
  {
    assert forall i | 0 <= i < |pad| :: pad[i] == ' ';
    StripPadded(pad, core, "\n");
    assert ("- name: " + IMAGE_REPOSITORY)[0] == '-' && LStrip(l)[0] == core[0];
    StartsAt(LStrip(l), "- name:", 0);
    NotKey(l, |pad|);
  }

  predicate AllBlank(s: string) {
    forall i | 0 <= i < |s| :: s[i] == ' '
  }

  lemma TagExists() returns (l: string)
    ensures TagLike(l)
  {
    l := "  newTag: a\n";
    PaddedLine("  ", "newTag: a", l);
    TagStripped(l, '\n');
    assert l[|l| - 1..] == "\n";
  }

  lemma DeepTagExists() returns (l: string)
    ensures DeepTagLike(l)
  {
    l := "    newTag: a\n";
    PaddedLine("    ", "newTag: a", l);
    StartsAt(l, "  newTag: ", 2);
    StartsAt(l, "  digest: ", 2);
  }

  lemma TopExists() returns (l: string)
    ensures TopLike(l)
  {
    l := "resources:\n";
    PaddedLine("", "resources:", l);
    NoSelector(l, 0);
  }

  // ---------------------------------------------------------------- a base that renders

  lemma PlainSelectorExact(l: seq<string>)
    requires |l| == 4 && EntryLike(l[0]) && NameLike(l[1]) && TagLike(l[2]) && TopLike(l[3])
    ensures ImageBlock(l) == Ok(ImageEntry(0, 3)) && CheckImageSelector(l, NewTag, "a").Pass?
  {
    FourBlock(l);
    ThreeStripped(l);
    assert KeyText(NewTag) + ": " + "a" == "newTag: a";
  }

  lemma PlainAccepted() returns (text: string)
    ensures BaseParts(text) == Ok(Parts(text, NewTag, "a", None)) && ByteLength(text) <= 2560
    ensures OneSelector(text) && SelectorInBlock(text) && EndsWith(SelectorLine(text), "\n")
  {
    var entry := EntryExists();
    var name := NameExists();
    var tag := TagExists();
    var top := TopExists();
    var l := [entry, name, tag, top];
    text := Join(l);
    TameBase(l);
    FourLines(l);
    PlainSelectorExact(l);
    TagIsSafe();
    LegacyAccepted(text, l, 2, "a");
  }

  // ---------------------------------------------------------------- renders succeed

  lemma PatchSmall(name: string)
    requires IsJobName(name)
    ensures ByteLength(ReleasePatch(name)) <= 4160
  {
    JoinBound(PatchLines(name), 80);
    ByteLengthBound(ReleasePatch(name));
  }

  lemma RewriteSmall(text: string, r: Release)
    requires OneSelector(text) && Terminated(LfOnly, text) && ByteLength(text) <= 2560 && ValidRelease(r)
    ensures ByteLength(Rewrite(text, r.digest, r.sha)) <= MAX_KUSTOMIZATION_BYTES
  {
    DerivedJobNameParts(r.digest, r.sha);
    PatchSmall(JobName(r));
    BodySize(text, r.digest);
    NewBodyFrame(text, r.digest);
    ByteLengthAppend(Before(text) + SelectorLine(text), After(text));
    ByteLengthAppend(Before(text), SelectorLine(text));
    ByteLengthAppend(NewBody(text, r.digest), ReleasePatch(JobName(r)));
  }

  lemma SmallLegacyRenders(text: string, r: Release)
    requires BaseParts(text) == Ok(Parts(text, NewTag, "a", None)) && ByteLength(text) <= 2560
    requires OneSelector(text) && SelectorInBlock(text) && EndsWith(SelectorLine(text), "\n") && ValidRelease(r)
    ensures Render(text, r.digest, r.sha).Ok?
  {
    AcceptedShape(text);
    RewriteSmall(text, r);
    RenderSucceeds(text, r.digest, r.sha);
  }

  /** There is a base on which every valid release renders. */
  lemma EveryReleaseRenders() returns (text: string)
    ensures forall r | ValidRelease(r) :: Render(text, r.digest, r.sha).Ok?
    ensures BaseParts(text).Ok? && SelectorInBlock(BaseParts(text).value.body)
  {
    text := PlainAccepted();
    forall r | ValidRelease(r) ensures Render(text, r.digest, r.sha).Ok? {
      SmallLegacyRenders(text, r);
    }
  }

  // ---------------------------------------------------------------- there and back

  /** The release after a, b, and then a again. */
  lemma BackAgain(text: string, a: Release, b: Release)
    requires Render(text, a.digest, a.sha).Ok? && ValidRelease(a) && ValidRelease(b) && !SameIdentity(a, b)
    requires BaseParts(text).Ok? && SelectorInBlock(BaseParts(text).value.body)
    ensures var next := Render(text, a.digest, a.sha).value;
      && Render(next, b.digest, b.sha).Ok?
      && Render(Render(next, b.digest, b.sha).value, a.digest, a.sha) == Ok(next)
  {
    var next := Render(text, a.digest, a.sha).value;
    RenderedBase(text, a);
    RenderAgain(text, a, b);
    RenderAgain(next, b, a);
    NewBodyTwice(BaseParts(text).value.body, a.digest, a.digest);
  }

  /** Main result: on what any render in the image entry printed, one can release something else and
      then the same again, and is back byte for byte; releasing the same at once is refused. */
  lemma ThereAndBack(text: string, a: Release, b: Release)
    requires Render(text, a.digest, a.sha).Ok? && ValidRelease(a) && ValidRelease(b) && !SameIdentity(a, b)
    requires BaseParts(text).Ok? && SelectorInBlock(BaseParts(text).value.body)
    ensures var next := Render(text, a.digest, a.sha).value;
      && RenderChain(next, [b, a]) == Ok(next)
      && Render(next, a.digest, a.sha).Err?
  {
    var next, releases := Render(text, a.digest, a.sha).value, [b, a];
    BackAgain(text, a, b);
    assert releases[1..] == [a];
    LinkUnfolds(next, releases);
    OneLink(Render(next, b.digest, b.sha).value, a);
    RenderAgain(text, a, a);
  }

  lemma ExampleRelease(digit: char) returns (r: Release)
    requires '1' <= digit <= '9'
    ensures ValidRelease(r) && DigestHex(r.digest)[0] == digit
  {
    var sha := seq(64, _ => digit);
    assert sha[0] != '0';
    assert IsSha64(sha);
    r := Release("sha256:" + sha, sha);
    assert r.digest[7..] == sha && r.digest[..7] == "sha256:";
  }

  /** There is a base and a chain on it that succeeds and ends on the base's own release. */
  lemma ReturnHappens() returns (text: string, releases: seq<Release>)
    ensures releases != [] && ValidRelease(Last(releases)) && BaseParts(text).Ok?
    ensures Identity(BaseParts(text).value) == Some((Last(releases).digest, Last(releases).sha[..24]))
    ensures RenderChain(text, releases) == Ok(text)
  {
    var base := EveryReleaseRenders();
    var a := ExampleRelease('1');
    var b := ExampleRelease('2');
    ThereAndBack(base, a, b);
    RenderSucceeds(base, a.digest, a.sha);
    text := Render(base, a.digest, a.sha).value;
    releases := [b, a];
  }

  // ---------------------------------------------------------------- a selector line elsewhere

  /** Five lines of which the second selects. */
  lemma SecondSelects(l: seq<string>)
    requires |l| == 5 && AllLines(PyBreaks, l)
    requires !IsSelectorLine(l[0]) && IsSelectorLine(l[1]) && !IsSelectorLine(l[2])
    requires !IsSelectorLine(l[3]) && !IsSelectorLine(l[4])
    ensures SelectorLines(Join(l)) == [1] && BodyLines(Join(l)) == l && OneSelector(Join(l))
  {
    SplitJoin(PyBreaks, l);
    IndicesOne(l, IsSelectorLine, 1);
  }

  /** Five lines of which the last three are the image entry. */
  lemma LastThreeBlock(l: seq<string>)
    requires |l| == 5 && Unrelated(l[0]) && Unrelated(l[1]) && Unrelated(l[3]) && Unrelated(l[4])
    requires IsImageLine(l[2]) && IsNameEntry(l[2])
    requires Indent(l[2]) == 0 && Indent(l[3]) > 0 && Indent(l[4]) > 0
    ensures ImageBlock(l) == Ok(ImageEntry(2, 5))
  {
    IndicesOne(l, IsImageLine, 2);
    IndicesOne(l, IsNameEntry, 2);
    assert BlockEnd(l, 5, 0) == 5;
    assert BlockEnd(l, 4, 0) == 5;
    assert BlockEnd(l, 3, 0) == 5;
  }

  lemma LastThreeStripped(l: seq<string>)
    requires |l| == 5 && Strip(l[2]) != "" && Strip(l[3]) != "" && Strip(l[4]) != ""
    ensures StrippedNonblank(l[2..5]) == [Strip(l[2]), Strip(l[3]), Strip(l[4])]
  {
    ThreeStripped(l[2..] + [""]);
    assert (l[2..] + [""])[0..3] == l[2..5];
  }

  lemma ElsewhereSelectorExact(l: seq<string>)
    requires |l| == 5 && TopLike(l[0]) && TagLike(l[1])
    requires EntryLike(l[2]) && NameLike(l[3]) && DeepTagLike(l[4])
    ensures ImageBlock(l) == Ok(ImageEntry(2, 5)) && CheckImageSelector(l, NewTag, "a").Pass?
  {
    LastThreeBlock(l);
    LastThreeStripped(l);
    assert KeyText(NewTag) + ": " + "a" == "newTag: a";
  }

  lemma ElsewhereAccepted() returns (text: string)
    ensures BaseParts(text) == Ok(Parts(text, NewTag, "a", None))
    ensures OneSelector(text) && !SelectorInBlock(text) && EndsWith(SelectorLine(text), "\n")
  {
    var entry := EntryExists();
    var name := NameExists();
    var deep := DeepTagExists();
    var tag := TagExists();
    var top := TopExists();
    var l := [top, tag, entry, name, deep];
    text := Join(l);
    TameBase(l);
    SecondSelects(l);
    ElsewhereSelectorExact(l);
    TagIsSafe();
    LegacyAccepted(text, l, 1, "a");
  }

  /** There is a base that is accepted, whose one selector line ends in LF but lies outside the image
      entry, and on which no release renders. */
  lemma ElsewhereFails() returns (text: string)
    ensures BaseParts(text).Ok? && BaseParts(text).value.body == text && OneSelector(text)
    ensures !SelectorInBlock(text) && EndsWith(SelectorLine(text), "\n")
    ensures forall digest, sha :: Render(text, digest, sha).Err?
  {
    text := ElsewhereAccepted();
    forall digest, sha ensures Render(text, digest, sha).Err? {
      RenderSucceeds(text, digest, sha);
    }
  }
}
