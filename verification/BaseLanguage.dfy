/** The language of the base parser, said without its functions: which texts it accepts, and what it
    reads from them. */
module BaseLanguage {
  import opened Results
  import opened Text
  import opened Formats
  import opened Patterns
  import opened Kustomization
  import opened PatchText
  import opened Rewriter

  // ---------------------------------------------------------------- the parts of the definition

  /** ^[ \t]*patches: matches at i. */
  ghost predicate OpensPatches(text: string, i: nat) {
    && i <= |text| && (i == 0 || text[i - 1] == '\n')
    && exists j | i <= j <= |text| - 8 :: PatchesAfterBlanks(text, i, j)
  }

  ghost predicate PatchesAfterBlanks(text: string, i: nat, j: nat)
    requires i <= j <= |text| - 8
  {
    text[j..j + 8] == "patches:" && forall k | i <= k < j :: text[k] == ' ' || text[k] == '\t'
  }

  ghost predicate IsText(text: string) {
    && text != "" && ByteLength(text) <= 65_536
    && '\0' !in text && '\r' !in text && text[|text| - 1] == '\n'
  }

  ghost predicate Holds(text: string, literal: string) {
    exists i | 0 <= i <= |text| :: OccursAt(text, i, literal)
  }

  ghost predicate HoldsForbidden(text: string) {
    || Holds(text, "argocd.argoproj.io/sync-options") || Holds(text, "sync-options")
    || Holds(text, "Force=true") || Holds(text, "Replace=true")
    || Holds(text, "patchesJson6902:") || Holds(text, "patchesStrategicMerge:")
  }

  /** Line k, and no other one, opens with one of the two selector keys; it holds this value. */
  ghost predicate Selects(lines: seq<string>, k: nat, kind: Selector, value: string) {
    && k < |lines|
    && (forall i | 0 <= i < |lines| ::
          StartsWith(lines[i], "  newTag: ") || StartsWith(lines[i], "  digest: ") <==> i == k)
    && Chomp(PyBreaks, lines[k]) == (if kind == NewTag then "  newTag: " else "  digest: ") + value
  }

  const ENTRY_TEXT := "- name: " + "ghcr.io/devpathai/devpath-migration"
  const NEW_NAME_TEXT := "newName: " + "ghcr.io/devpathai/devpath-migration"

  /** Lines start to end are the one image entry, and hold nothing but the three exact keys. */
  ghost predicate IsEntry(lines: seq<string>, start: nat, end: nat, kind: Selector, value: string) {
    && start < end <= |lines|
    && (forall i | 0 <= i < |lines| :: Strip(lines[i]) == ENTRY_TEXT <==> i == start)
    && (forall i | 0 <= i < |lines| :: StartsWith(LStrip(lines[i]), "- name:") <==> i == start)
    && (forall i | start < i < end :: !Outdented(lines[i], Indent(lines[start])))
    && (end < |lines| ==> Outdented(lines[end], Indent(lines[start])))
    && StrippedNonblank(lines[start..end])
         == [ENTRY_TEXT, NEW_NAME_TEXT, (if kind == NewTag then "newTag: " else "digest: ") + value]
  }

  /** The patch that a prior release left after the body, and the prefix of its hash. */
  ghost predicate LeftBy(text: string, body: string, digest: string, prior: Option<string>)
    requires |digest| == 71
  {
    && (body == "" || body[|body| - 1] == '\n')
    && exists name | Matches(MIGRATION_JOB_NAME, name) && |name| == 60 ::
      && text == body + ReleasePatch(name) && name[23..35] == digest[7..19]
      && prior == Some(name[36..])
  }

  /** What the parser accepts, and as what. */
  ghost predicate IsBase(text: string, p: Parts) {
    && IsText(text) && !HoldsForbidden(text)
    && (forall i | 0 <= i <= |p.body| :: !OpensPatches(p.body, i))
    && (exists k :: Selects(BodyLines(p.body), k, p.kind, p.value))
    && (exists start, end :: IsEntry(BodyLines(p.body), start, end, p.kind, p.value))
    && match p.kind
       case NewTag => Matches(SAFE_TAG, p.value) && text == p.body && p.priorRelease == None
       case Digest =>
         && Matches(DIGEST, p.value) && |p.value| == 71 && !OnlyZero(p.value[7..])
         && LeftBy(text, p.body, p.value, p.priorRelease)
  }

  // ---------------------------------------------------------------- part by part

  lemma {:induction false} SkipBlanksIs(text: string, i: nat)
    requires i <= |text|
    ensures var j := SkipBlanks(text, i);
      && (forall k | i <= k < j :: text[k] == ' ' || text[k] == '\t')
      && (j < |text| ==> text[j] != ' ' && text[j] != '\t')
    decreases |text| - i
  {
    if i < |text| && (text[i] == ' ' || text[i] == '\t') {
      SkipBlanksIs(text, i + 1);
    }
  }

  lemma KeyIs(text: string, i: nat)
    ensures PatchKey(text, i) <==> OpensPatches(text, i)
  {
    if i <= |text| {
      SkipBlanksIs(text, i);
      var s := SkipBlanks(text, i);
      if KeyAt(text, i) {
        assert text[s..][..8] == text[s..s + 8];
        assert PatchesAfterBlanks(text, i, s);
      }
      if j :| i <= j <= |text| - 8 && PatchesAfterBlanks(text, i, j) {
        assert text[j..j + 8][0] == text[j] == 'p';
        assert j == s;
        assert text[s..][..8] == text[s..s + 8];
      }
    }
  }

  lemma KeyFreeIs(body: string)
    ensures KeyFree(body) <==> forall i | 0 <= i <= |body| :: !OpensPatches(body, i)
  {
    forall i | 0 <= i <= |body| ensures PatchKey(body, i) <==> OpensPatches(body, i) {
      KeyIs(body, i);
    }
  }

  lemma ForbiddenIs(text: string)
    ensures HasForbidden(text) <==> HoldsForbidden(text)
  {
    forall i | 0 <= i < 6 ensures Contains(text, FORBIDDEN[i]) <==> Holds(text, FORBIDDEN[i]) {
    }
    if HasForbidden(text) {
      var i :| 0 <= i < |FORBIDDEN| && Contains(text, FORBIDDEN[i]);
      assert Holds(text, FORBIDDEN[i]);
    }
    if HoldsForbidden(text) {
      assert exists i | 0 <= i < 6 :: Holds(text, FORBIDDEN[i]) by {
        assert FORBIDDEN[0] == "argocd.argoproj.io/sync-options" && FORBIDDEN[1] == "sync-options";
        assert FORBIDDEN[2] == "Force=true" && FORBIDDEN[3] == "Replace=true";
        assert FORBIDDEN[4] == "patchesJson6902:" && FORBIDDEN[5] == "patchesStrategicMerge:";
      }
    }
  }

  /** A line that opens with a ten character key, and what it holds. */
  lemma LineValue(line: string, key: string, value: string)
    requires |key| == 10 && key[9] == ' ' && StartsWith(line, key)
    ensures Chomp(PyBreaks, line) == key + value
       <==> |Chomp(PyBreaks, line)| >= 10 && Chomp(PyBreaks, line)[10..] == value
  {
    var l := Chomp(PyBreaks, line);
    assert line[..10] == key && line[9] == ' ';
    if |line| == 10 {
      assert l == line;
    }
    assert |l| >= 10 && l[..10] == key && l == l[..10] + l[10..];
  }

  lemma KindIs(line: string, kind: Selector, value: string)
    requires IsSelectorLine(line)
    ensures Chomp(PyBreaks, line) == (if kind == NewTag then "  newTag: " else "  digest: ") + value
       <==> SelectorKind(line) == kind && SelectorValue(line) == value
  {
    var l := Chomp(PyBreaks, line);
    var mine := if StartsWith(line, "  newTag: ") then "  newTag: " else "  digest: ";
    assert mine[9] == ' ' && line[..10] == mine;
    LineValue(line, mine, value);
    if |line| == 10 {
      assert line[9] == ' ' && l == line;
    }
    assert l[..10] == mine;
    assert "  newTag: "[2] == 'n' && "  digest: "[2] == 'd';
    if l == (if kind == NewTag then "  newTag: " else "  digest: ") + value {
      assert l[2] == (if kind == NewTag then 'n' else 'd');
      assert mine[2] == l[..10][2];
    }
  }

  lemma SelectsIs(body: string, k: nat, kind: Selector, value: string)
    ensures Selects(BodyLines(body), k, kind, value)
       <==> && OneSelector(body) && SelectorIndex(body) == k
            && SelectorKind(SelectorLine(body)) == kind && SelectorValue(SelectorLine(body)) == value
  {
    var lines := BodyLines(body);
    IndicesAre(lines, IsSelectorLine);
    if Selects(lines, k, kind, value) {
      assert forall i | 0 <= i < |lines| :: IsSelectorLine(lines[i]) <==> i == k;
      IndicesOne(lines, IsSelectorLine, k);
      KindIs(lines[k], kind, value);
    }
    if OneSelector(body) && SelectorIndex(body) == k {
      assert forall i | 0 <= i < |lines| :: IsSelectorLine(lines[i]) <==> i in SelectorLines(body);
      KindIs(lines[k], kind, value);
    }
  }

  // ---------------------------------------------------------------- the image entry

  lemma {:induction false} RStripPrefix(s: string)
    ensures StartsWith(s, RStrip(s))
  {
    if s != "" && IsSpace(s[|s| - 1]) {
      RStripPrefix(s[..|s| - 1]);
      var r := RStrip(s);
      assert s[..|s| - 1][..|r|] == s[..|r|];
    }
  }

  lemma ImageLineIsEntry(line: string)
    requires IsImageLine(line)
    ensures IsNameEntry(line)
  {
    RStripPrefix(LStrip(line));
    var (l, r) := (LStrip(line), "- name: " + IMAGE_REPOSITORY);
    assert l[..|r|] == r;
    assert l[..7] == l[..|r|][..7] == "- name:";
  }

  lemma {:induction false} BlockEndIs(lines: seq<string>, i: nat, indent: nat)
    requires i <= |lines|
    ensures var end := BlockEnd(lines, i, indent);
      && (forall j | i <= j < end :: !Outdented(lines[j], indent))
      && (end < |lines| ==> Outdented(lines[end], indent))
    decreases |lines| - i
  {
    if i < |lines| && !Outdented(lines[i], indent) {
      BlockEndIs(lines, i + 1, indent);
    }
  }

  lemma {:induction false} BlockEndAt(lines: seq<string>, i: nat, indent: nat, end: nat)
    requires i <= end <= |lines|
    requires forall j | i <= j < end :: !Outdented(lines[j], indent)
    requires end < |lines| ==> Outdented(lines[end], indent)
    ensures BlockEnd(lines, i, indent) == end
    decreases end - i
  {
    if i < end {
      assert !Outdented(lines[i], indent);
      BlockEndAt(lines, i + 1, indent, end);
    }
  }

  lemma EntryFound(lines: seq<string>, start: nat, end: nat, kind: Selector, value: string)
    requires IsEntry(lines, start, end, kind, value)
    ensures CheckImageSelector(lines, kind, value).Pass?
  {
    EntryTextIs();
    EntryStarts(lines, start);
    BlockEndAt(lines, start + 1, Indent(lines[start]), end);
    ImageBlockFound(lines, start);
    BlockIs(kind, value);
  }

  lemma EntryStarts(lines: seq<string>, start: nat)
    requires start < |lines|
    requires forall i | 0 <= i < |lines| :: IsImageLine(lines[i]) <==> i == start
    requires forall i | 0 <= i < |lines| :: IsNameEntry(lines[i]) <==> i == start
    ensures Indices(lines, IsImageLine) == [start] && Indices(lines, IsNameEntry) == [start]
  {
    IndicesOne(lines, IsImageLine, start);
    IndicesOne(lines, IsNameEntry, start);
  }

  lemma RepositoryIs()
    ensures IMAGE_REPOSITORY == "ghcr.io/devpathai/devpath-migration"
  {
  }

  lemma EntryTextIs()
    ensures "- name: " + IMAGE_REPOSITORY == ENTRY_TEXT
  {
    RepositoryIs();
  }

  lemma NewNameTextIs()
    ensures "newName: " + IMAGE_REPOSITORY == NEW_NAME_TEXT
  {
    RepositoryIs();
  }

  lemma BlockIs(kind: Selector, value: string)
    ensures SelectorBlock(kind, value)
         == [ENTRY_TEXT, NEW_NAME_TEXT, (if kind == NewTag then "newTag: " else "digest: ") + value]
  {
    EntryTextIs();
    NewNameTextIs();
    KeyTextIs(kind);
  }

  lemma KeyTextIs(kind: Selector)
    ensures KeyText(kind) + ": " == if kind == NewTag then "newTag: " else "digest: "
  {
  }

  lemma OnlyNames(lines: seq<string>, start: nat)
    requires start < |lines| && Indices(lines, IsImageLine) == [start] && |Indices(lines, IsNameEntry)| == 1
    ensures forall i | 0 <= i < |lines| :: IsImageLine(lines[i]) <==> i == start
    ensures forall i | 0 <= i < |lines| :: IsNameEntry(lines[i]) <==> i == start
  {
    IndicesAre(lines, IsImageLine);
    IndicesAre(lines, IsNameEntry);
    assert start in Indices(lines, IsImageLine);
    ImageLineIsEntry(lines[start]);
    var names := Indices(lines, IsNameEntry);
    assert start in names && names[0] == start;
    forall i | 0 <= i < |lines| ensures IsImageLine(lines[i]) <==> i == start {
      assert i in [start] <==> i == start;
    }
    forall i | 0 <= i < |lines| ensures IsNameEntry(lines[i]) <==> i == start {
      assert i in names <==> i == start;
    }
  }

  lemma FoundEntry(lines: seq<string>, kind: Selector, value: string) returns (start: nat, end: nat)
    requires CheckImageSelector(lines, kind, value).Pass?
    ensures IsEntry(lines, start, end, kind, value)
  {
    start := OnlyIndex(lines);
    ImageBlockFound(lines, start);
    end := ImageBlock(lines).value.end;
    OnlyNames(lines, start);
    EntryTextIs();
    BlockEndIs(lines, start + 1, Indent(lines[start]));
    BlockIs(kind, value);
  }

  // ---------------------------------------------------------------- the patch of a prior release

  lemma PriorIs(digest: string, name: string)
    requires IsDigest(digest) && IsJobName(name) && JobDigestPart(name) == DigestHex(digest)[..12]
    ensures PriorRelease(digest, ReleasePatch(name)) == Ok(JobReleasePart(name))
  {
    PatchNamesItsJob(name);
  }

  lemma NamePlaces(name: string, digest: string)
    requires IsJobName(name) && IsDigest(digest)
    ensures |name| == 60 && JobDigestPart(name) == name[23..35] && JobReleasePart(name) == name[36..]
    ensures |digest| == 71 && DigestHex(digest)[..12] == digest[7..19]
  {
    assert |MIGRATION_JOB_PREFIX| == 23;
  }

  // ---------------------------------------------------------------- both directions

  lemma AcceptedIsBase(text: string, p: Parts)
    requires BaseParts(text) == Ok(p)
    ensures IsBase(text, p)
  {
    AcceptedFirst(text);
    AcceptedShape(text);
    ForbiddenIs(text);
    KeyFreeIs(p.body);
    SelectsIs(p.body, SelectorIndex(p.body), p.kind, p.value);
    var start, end := FoundEntry(BodyLines(p.body), p.kind, p.value);
    AcceptedSize(text);
    if p.kind == NewTag {
      SafeTagIs(p.value);
    } else {
      DigestIs(p.value);
      var name :| IsJobName(name)
        && text == p.body + ReleasePatch(name)
        && JobDigestPart(name) == DigestHex(p.value)[..12]
        && p.priorRelease == Some(JobReleasePart(name));
      NamePlaces(name, p.value);
      JobNameIs(name);
      assert LeftBy(text, p.body, p.value, p.priorRelease);
    }
  }

  lemma AcceptedSize(text: string)
    requires BaseParts(text).Ok?
    ensures IsText(text)
  {
  }

  lemma TextPasses(text: string)
    requires IsText(text)
    ensures CheckLfText(text, MAX_KUSTOMIZATION_BYTES).Pass?
  {
  }

  /** What BodyParts makes of its parts. */
  lemma PartsFrom(body: string, patch: string, p: Parts)
    requires p.body == body && OneSelector(body)
    requires SelectorKind(SelectorLine(body)) == p.kind && SelectorValue(SelectorLine(body)) == p.value
    requires CheckImageSelector(BodyLines(body), p.kind, p.value).Pass?
    requires if p.kind == NewTag then IsSafeTag(p.value) && patch == "" && p.priorRelease == None
             else p.priorRelease.Some? && PriorRelease(p.value, patch) == Ok(p.priorRelease.value)
    ensures BodyParts(body, patch) == Ok(p)
  {
  }

  lemma EntryPasses(lines: seq<string>, kind: Selector, value: string)
    requires exists start, end :: IsEntry(lines, start, end, kind, value)
    ensures CheckImageSelector(lines, kind, value).Pass?
  {
    var start, end :| IsEntry(lines, start, end, kind, value);
    EntryFound(lines, start, end, kind, value);
  }

  lemma BodyPasses(body: string, patch: string, p: Parts)
    requires p.body == body && (exists k :: Selects(BodyLines(body), k, p.kind, p.value))
    requires exists start, end :: IsEntry(BodyLines(body), start, end, p.kind, p.value)
    requires if p.kind == NewTag then IsSafeTag(p.value) && patch == "" && p.priorRelease == None
             else p.priorRelease.Some? && PriorRelease(p.value, patch) == Ok(p.priorRelease.value)
    ensures BodyParts(body, patch) == Ok(p)
  {
    EntryPasses(BodyLines(body), p.kind, p.value);
    var k :| Selects(BodyLines(body), k, p.kind, p.value);
    SelectsIs(body, k, p.kind, p.value);
    PartsFrom(body, patch, p);
  }

  lemma LegacyIsAccepted(text: string, p: Parts)
    requires IsBase(text, p) && p.kind == NewTag
    ensures BaseParts(text) == Ok(p)
  {
    TextPasses(text);
    ForbiddenIs(text);
    KeyFreeIs(text);
    PatchKeysNone(text, |text| + 1);
    assert text[..|text|] == text && text[|text|..] == "";
    SafeTagIs(p.value);
    BodyPasses(text, "", p);
  }

  lemma PrintedCuts(body: string, name: string)
    requires IsText(body + ReleasePatch(name)) && !HoldsForbidden(body + ReleasePatch(name))
    requires KeyFree(body) && Terminated(LfOnly, body) && IsJobName(name)
    ensures BaseParts(body + ReleasePatch(name)) == BodyParts(body, ReleasePatch(name))
  {
    var text := body + ReleasePatch(name);
    TextPasses(text);
    ForbiddenIs(text);
    PrintedOneKey(body, name);
    assert text[..|body|] == body && text[|body|..] == ReleasePatch(name);
  }

  lemma LeftIsRead(text: string, p: Parts) returns (name: string)
    requires IsDigest(p.value) && |p.value| == 71 && LeftBy(text, p.body, p.value, p.priorRelease)
    ensures IsJobName(name) && text == p.body + ReleasePatch(name) && p.priorRelease.Some?
    ensures PriorRelease(p.value, ReleasePatch(name)) == Ok(p.priorRelease.value)
  {
    name :| Matches(MIGRATION_JOB_NAME, name) && |name| == 60
      && text == p.body + ReleasePatch(name) && name[23..35] == p.value[7..19] && p.priorRelease == Some(name[36..]);
    JobNameIs(name);
    NamePlaces(name, p.value);
    PriorIs(p.value, name);
  }

  lemma ReleasedIsAccepted(text: string, p: Parts)
    requires IsBase(text, p) && p.kind == Digest
    ensures BaseParts(text) == Ok(p)
  {
    DigestIs(p.value);
    var name := LeftIsRead(text, p);
    BodyPasses(p.body, ReleasePatch(name), p);
    KeyFreeIs(p.body);
    PrintedCuts(p.body, name);
  }

  /** Main result: what the base parser accepts, and what it reads, said without any of its functions:
      the texts of the definition above and no others. */
  lemma BaseLanguageIs(text: string, p: Parts)
    ensures BaseParts(text) == Ok(p) <==> IsBase(text, p)
  {
    if BaseParts(text) == Ok(p) {
      AcceptedIsBase(text, p);
    }
    if IsBase(text, p) {
      match p.kind
      case NewTag => LegacyIsAccepted(text, p);
      case Digest => ReleasedIsAccepted(text, p);
    }
  }

  /** Main result: the closing validation accepts exactly the bases that a render of this release
      leaves behind. */
  lemma ValidatesExactly(text: string, digest: string, sha: string)
    ensures ValidateKustomization(text, digest, sha).Pass?
       <==> && Matches(DIGEST, digest) && |digest| == 71 && !OnlyZero(digest[7..])
            && Matches(SHA64, sha) && |sha| == 64 && !OnlyZero(sha)
            && exists body :: IsBase(text, Parts(body, Digest, digest, Some(sha[..24])))
  {
    DigestIs(digest);
    Sha64Is(sha);
    if ValidateKustomization(text, digest, sha).Pass? {
      AcceptedIsBase(text, BaseParts(text).value);
      assert IsBase(text, Parts(BaseParts(text).value.body, Digest, digest, Some(sha[..24])));
    }
    if |sha| == 64 && exists body :: IsBase(text, Parts(body, Digest, digest, Some(sha[..24]))) {
      var body :| IsBase(text, Parts(body, Digest, digest, Some(sha[..24])));
      BaseLanguageIs(text, Parts(body, Digest, digest, Some(sha[..24])));
    }
  }
}
