/** The kustomization rewriter of the release gate: the parser _migration_base_parts, the
    printer render_migration_kustomization and the validator that re-parses its output.
    A text is the decoded file; its size is that of its UTF-8 encoding. */
module Kustomization {
  import opened Results
  import opened Text
  import opened Formats

  const MAX_KUSTOMIZATION_BYTES := 65_536
  const MIGRATION_JOB_BASE_NAME := "devpath-flyway-migrate"

  datatype GateError =
    | SizeOutOfBound
    | NotLfText
    | ForbiddenLiteral
    | PatchDuplicated
    | PatchKeyNotExact
    | SelectorNotUnique
    | LegacyTagNotExact
    | BadPriorDigest
    | PriorNameNotUnique
    | PriorNameUnbound
    | PriorPatchNotExact
    | ImageEntryNotUnique
    | ImageTransformerNotSingle
    | ImageSelectorNotExact
    | BadDigest
    | BadReleaseHash
    | AlreadySelected
    | NotTheRelease

  /** Which of its two keys the base selects the image by. */
  datatype Selector = NewTag | Digest

  function KeyText(kind: Selector): string {
    match kind
    case NewTag => "newTag"
    case Digest => "digest"
  }

  datatype Parts = Parts(body: string, kind: Selector, value: string, priorRelease: Option<string>)

  // ---------------------------------------------------------------- recognisers

  function CheckLfText(text: string, maximum: nat): Outcome<GateError> {
    if text == "" || ByteLength(text) > maximum then Fail(SizeOutOfBound)
    else if '\0' in text || '\r' in text || text[|text| - 1] != '\n' then Fail(NotLfText)
    else Pass
  }

  const FORBIDDEN: seq<string> := [
    "argocd.argoproj.io/sync-options",
    "sync-options",
    "Force=true",
    "Replace=true",
    "patchesJson6902:",
    "patchesStrategicMerge:"
  ]

  predicate HasForbidden(text: string) {
    exists i | 0 <= i < |FORBIDDEN| :: Contains(text, FORBIDDEN[i])
  }

  /** Where ^ matches in a multi-line regular expression. */
  predicate LineStart(text: string, i: nat) {
    i <= |text| && (i == 0 || text[i - 1] == '\n')
  }

  function SkipBlanks(text: string, i: nat): (j: nat)
    requires i <= |text|
    ensures i <= j <= |text|
    decreases |text| - i
  {
    if i < |text| && (text[i] == ' ' || text[i] == '\t') then SkipBlanks(text, i + 1) else i
  }

  predicate KeyAt(text: string, i: nat)
    requires i <= |text|
  {
    StartsWith(text[SkipBlanks(text, i)..], "patches:")
  }

  /** A match of ^[ \t]*patches:[^\r\n]*$ starts at i (in a text without CR). */
  predicate PatchKey(text: string, i: nat) {
    LineStart(text, i) && KeyAt(text, i)
  }

  /** The starts of all patch keys before position n, in order. */
  function PatchKeys(text: string, n: nat): seq<nat> {
    if n == 0 then []
    else PatchKeys(text, n - 1) + if PatchKey(text, n - 1) then [n - 1] else []
  }

  /** The matched line is "patches:" itself. */
  predicate ExactKey(text: string, i: nat) {
    && StartsWith(text[if i <= |text| then i else |text|..], "patches:")
    && (i + 8 == |text| || text[i + 8] == '\n')
  }

  predicate IsSelectorLine(line: string) {
    StartsWith(line, "  newTag: ") || StartsWith(line, "  digest: ")
  }

  function BodyLines(body: string): seq<string> {
    SplitLines(PyBreaks, body)
  }

  function SelectorLines(body: string): seq<nat> {
    Indices(BodyLines(body), IsSelectorLine)
  }

  predicate OneSelector(body: string) {
    && |SelectorLines(body)| == 1
    && SelectorLines(body)[0] < |BodyLines(body)|
    && IsSelectorLine(BodyLines(body)[SelectorLines(body)[0]])
  }

  function SelectorKind(line: string): Selector {
    if StartsWith(line, "  newTag: ") then NewTag else Digest
  }

  function SelectorValue(line: string): string {
    var l := Chomp(PyBreaks, line);
    if |l| >= 10 then l[10..] else ""
  }

  /** The job name on a "value:" line of the patch. */
  function NameOn(line: string): string {
    var l := Chomp(LfOnly, line);
    if StartsWith(l, "      value: ") then l[13..] else ""
  }

  predicate IsNameLine(line: string) {
    IsJobName(NameOn(line))
  }

  // ---------------------------------------------------------------- the patch printer

  const TARGET_LINES: seq<string> := [
    "patches:\n",
    "- target:\n",
    "    group: batch\n",
    "    version: v1\n",
    "    kind: Job\n",
    "    name: " + MIGRATION_JOB_BASE_NAME + "\n"
  ]

  const NAME_OPERATION: seq<string> := [
    "  patch: |-\n",
    "    - op: replace\n",
    "      path: /metadata/name\n"
  ]

  const SUSPEND_OPERATION: seq<string> := [
    "    - op: replace\n",
    "      path: /spec/suspend\n",
    "      value: false\n"
  ]

  function NameLine(name: string): string {
    "      value: " + name + "\n"
  }

  function PatchLines(name: string): seq<string> {
    TARGET_LINES + NAME_OPERATION + [NameLine(name)] + SUSPEND_OPERATION
  }

  function ReleasePatch(name: string): string {
    Join(PatchLines(name))
  }

  // ---------------------------------------------------------------- the image block

  datatype ImageEntry = ImageEntry(start: nat, end: nat)

  predicate IsImageLine(line: string) {
    Strip(line) == "- name: " + IMAGE_REPOSITORY
  }

  predicate IsNameEntry(line: string) {
    StartsWith(LStrip(line), "- name:")
  }

  /** The first line from i on that is not blank and not indented deeper than the entry. */
  function BlockEnd(lines: seq<string>, i: nat, indent: nat): (end: nat)
    requires i <= |lines|
    ensures i <= end <= |lines|
    decreases |lines| - i
  {
    if i == |lines| then i
    else if Strip(lines[i]) != "" && Indent(lines[i]) <= indent then i
    else BlockEnd(lines, i + 1, indent)
  }

  function ImageBlock(lines: seq<string>): (r: Result<ImageEntry, GateError>)
    ensures r.Ok? ==> r.value.start < r.value.end <= |lines|
  {
    var matches := Indices(lines, IsImageLine);
    IndicesAre(lines, IsImageLine);
    if |matches| != 1 then Err(ImageEntryNotUnique)
    else if |Indices(lines, IsNameEntry)| != 1 then Err(ImageTransformerNotSingle)
    else
      assert matches[0] in matches;
      var start := matches[0];
      Ok(ImageEntry(start, BlockEnd(lines, start + 1, Indent(lines[start]))))
  }

  function StrippedNonblank(lines: seq<string>): seq<string> {
    if lines == [] then []
    else
      var l := Strip(lines[0]);
      (if l == "" then [] else [l]) + StrippedNonblank(lines[1..])
  }

  function SelectorBlock(kind: Selector, value: string): seq<string> {
    [ "- name: " + IMAGE_REPOSITORY,
      "newName: " + IMAGE_REPOSITORY,
      KeyText(kind) + ": " + value ]
  }

  function CheckImageSelector(lines: seq<string>, kind: Selector, value: string): Outcome<GateError> {
    match ImageBlock(lines)
    case Err(e) => Fail(e)
    case Ok(entry) =>
      Need(StrippedNonblank(lines[entry.start..entry.end]) == SelectorBlock(kind, value),
           ImageSelectorNotExact)
  }

  // ---------------------------------------------------------------- parse and print

  /** Checks the patch of a base that selects by digest; its release prefix when exact. */
  function PriorRelease(digest: string, patch: string): Result<string, GateError> {
    if !IsDigest(digest) then Err(BadPriorDigest)
    else
      var lines := SplitLines(LfOnly, patch);
      IndicesAre(lines, IsNameLine);
      var names := Indices(lines, IsNameLine);
      if |names| != 1 then Err(PriorNameNotUnique)
      else
        assert names[0] in names;
        var name := NameOn(lines[names[0]]);
        if JobDigestPart(name) != DigestHex(digest)[..12] then Err(PriorNameUnbound)
        else if patch != ReleasePatch(name) then Err(PriorPatchNotExact)
        else Ok(JobReleasePart(name))
  }

  function BodyParts(body: string, patch: string): (r: Result<Parts, GateError>)
    ensures r.Ok? ==> r.value.body == body && OneSelector(body)
  {
    IndicesAre(BodyLines(body), IsSelectorLine);
    if |SelectorLines(body)| != 1 then Err(SelectorNotUnique)
    else
      assert SelectorLines(body)[0] in SelectorLines(body);
      var line := BodyLines(body)[SelectorLines(body)[0]];
      var kind, value := SelectorKind(line), SelectorValue(line);
      var prior :- match kind {
        case NewTag =>
          if IsSafeTag(value) && patch == "" then Ok(None) else Err(LegacyTagNotExact)
        case Digest =>
          match PriorRelease(value, patch)
          case Ok(release) => Ok(Some(release))
          case Err(e) => Err(e)
      };
      :- CheckImageSelector(BodyLines(body), kind, value);
      Ok(Parts(body, kind, value, prior))
  }

  /** Where the body of a text ends and its patch begins. */
  function Marker(text: string): nat {
    var keys := PatchKeys(text, |text| + 1);
    if |keys| == 1 && keys[0] <= |text| then keys[0] else |text|
  }

  function BaseParts(text: string): (r: Result<Parts, GateError>)
    ensures r.Ok? ==> OneSelector(r.value.body)
  {
    var lfText := CheckLfText(text, MAX_KUSTOMIZATION_BYTES);
    :- lfText;
    :- Need(!HasForbidden(text), ForbiddenLiteral);
    var keys := PatchKeys(text, |text| + 1);
    :- Need(|keys| <= 1, PatchDuplicated);
    :- Need(|keys| == 1 ==> ExactKey(text, keys[0]), PatchKeyNotExact);
    BodyParts(text[..Marker(text)], text[Marker(text)..])
  }

  function NewSelector(digest: string): string {
    "  digest: " + digest + "\n"
  }

  function NewBody(body: string, digest: string): string
    requires OneSelector(body)
  {
    Join(BodyLines(body)[SelectorLines(body)[0] := NewSelector(digest)])
  }

  /** The bytes the renderer prints, before it validates them. */
  function Rewrite(body: string, digest: string, releaseSha: string): string
    requires OneSelector(body) && IsDigest(digest) && IsSha64(releaseSha)
  {
    NewBody(body, digest) + ReleasePatch(DerivedJobName(digest, releaseSha))
  }

  function ValidateKustomization(text: string, digest: string, releaseSha: string): Outcome<GateError> {
    if !IsDigest(digest) then Fail(BadDigest)
    else if !IsSha64(releaseSha) then Fail(BadReleaseHash)
    else match BaseParts(text)
      case Err(e) => Fail(e)
      case Ok(p) =>
        Need(p.kind == Digest && p.value == digest && p.priorRelease == Some(releaseSha[..24]), NotTheRelease)
  }

  function Render(text: string, digest: string, releaseSha: string): Result<string, GateError> {
    var format := if IsDigest(digest) then Need(IsSha64(releaseSha), BadReleaseHash) else Fail(BadDigest);
    :- format;
    var p :- BaseParts(text);
    :- Need(!(p.kind == Digest && p.value == digest && p.priorRelease == Some(releaseSha[..24])), AlreadySelected);
    var result := Rewrite(p.body, digest, releaseSha);
    :- ValidateKustomization(result, digest, releaseSha);
    Ok(result)
  }

  // ---------------------------------------------------------------- the imperative forms

  /** _migration_image_block: the scan that moves end up to the first outdented line. */
  method MigrationImageBlock(body: string) returns (r: Result<ImageEntry, GateError>)
    ensures r == ImageBlock(BodyLines(body))
  {
    var lines := SplitLines(PyBreaks, body);
    var matches := Indices(lines, IsImageLine);
    if |matches| != 1 {
      return Err(ImageEntryNotUnique);
    }
    if |Indices(lines, IsNameEntry)| != 1 {
      return Err(ImageTransformerNotSingle);
    }
    IndicesAre(lines, IsImageLine);
    assert matches[0] in matches;
    var start := matches[0];
    var indent := Indent(lines[start]);
    var end := |lines|;
    var index := start + 1;
    while index < |lines|
      invariant start < index <= |lines| && end == |lines|
      invariant BlockEnd(lines, start + 1, indent) == BlockEnd(lines, index, indent)
    {
      if Strip(lines[index]) != "" && Indent(lines[index]) <= indent {
        end := index;
        break;
      }
      index := index + 1;
    }
    r := Ok(ImageEntry(start, end));
  }

  /** render_migration_kustomization: assigns the selector line in place and joins. */
  method RenderMigrationKustomization(text: string, digest: string, releaseSha: string)
    returns (r: Result<string, GateError>)
    ensures r == Render(text, digest, releaseSha)
  {
    if !IsDigest(digest) {
      return Err(BadDigest);
    }
    if !IsSha64(releaseSha) {
      return Err(BadReleaseHash);
    }
    var p :- BaseParts(text);
    if p.kind == Digest && p.value == digest && p.priorRelease == Some(releaseSha[..24]) {
      return Err(AlreadySelected);
    }
    var lines := SplitLines(PyBreaks, p.body);
    var selector := Indices(lines, IsSelectorLine);
    lines := lines[selector[0] := "  digest: " + digest + "\n"];
    var result := Join(lines) + ReleasePatch(DerivedJobName(digest, releaseSha));
    :- ValidateKustomization(result, digest, releaseSha);
    r := Ok(result);
  }
}
