/** A base that the parser accepts and the renderer then fails on, whatever the release: the
    condition of Rewriter.Renderable about hidden keys is needed. */
module RewriterLimits {
  import opened Results
  import opened Text
  import opened Formats
  import opened Kustomization
  import opened PatchText
  import opened Rewriter

  /** A line that ends in a vertical tab: str.splitlines breaks there, regular expressions do not. */
  const TAB_LINE := "  newTag: a\U{0B}"
  const KEY_LINE := "patches:\n"
  const ENTRY_LINE := "- name: " + IMAGE_REPOSITORY + "\n"
  const NAME_LINE := "  newName: " + IMAGE_REPOSITORY + "\n"

  const HIDDEN_LINES: seq<string> := [ENTRY_LINE, NAME_LINE, TAB_LINE, KEY_LINE]

  function HiddenBase(): string {
    Join(HIDDEN_LINES)
  }

  /** Neither a break nor a space, nor any character that a forbidden literal needs. */
  predicate Ordinary(c: char) {
    && '!' <= c <= '~' && c != 'y' && c != '=' && c != 'J' && c != 'S'
  }

  predicate AllOrdinary(s: string) {
    forall i | 0 <= i < |s| :: Ordinary(s[i])
  }

  lemma ImageOrdinary()
    ensures AllOrdinary(IMAGE_REPOSITORY) && |IMAGE_REPOSITORY| == 35
  {
  }

  /** A line of ordinary characters and blanks. */
  predicate Tame(l: string) {
    && l != "" && IsBreak(PyBreaks, l[|l| - 1]) && l[|l| - 1] < ' '
    && forall i | 0 <= i < |l| - 1 :: Ordinary(l[i]) || l[i] == ' '
  }

  lemma LinesTame()
    ensures Tame(ENTRY_LINE) && Tame(NAME_LINE) && Tame(TAB_LINE) && Tame(KEY_LINE)
  {
    ImageOrdinary();
    var a, b := "- name: ", "  newName: ";
    assert forall i | 0 <= i < |a| :: Ordinary(a[i]) || a[i] == ' ';
    assert forall i | 0 <= i < |b| :: Ordinary(b[i]) || b[i] == ' ';
  }

  lemma LineStripped(pad: string, key: string, end: string)
    requires AllSpace(pad) && AllSpace(end) && key != "" && !IsSpace(key[0])
    ensures Strip(pad + (key + IMAGE_REPOSITORY) + end) == key + IMAGE_REPOSITORY
    ensures LStrip(pad + (key + IMAGE_REPOSITORY) + end) == key + IMAGE_REPOSITORY + end
  {
    ImageOrdinary();
    var core := key + IMAGE_REPOSITORY;
    assert core[|core| - 1] == IMAGE_REPOSITORY[34];
    StripPadded(pad, core, end);
  }

  lemma StartsAt(s: string, p: string, i: nat)
    requires i < |p|
    ensures StartsWith(s, p) ==> i < |s| && s[i] == p[i]
  {
  }

  lemma EntryStripped()
    ensures Strip(ENTRY_LINE) == "- name: " + IMAGE_REPOSITORY
    ensures IsImageLine(ENTRY_LINE) && IsNameEntry(ENTRY_LINE) && Indent(ENTRY_LINE) == 0
  {
    LineStripped("", "- name: ", "\n");
    assert "" + ("- name: " + IMAGE_REPOSITORY) + "\n" == ENTRY_LINE;
    assert ("- name: " + IMAGE_REPOSITORY + "\n")[..7] == "- name:";
    assert ENTRY_LINE[0] == '-';
  }

  lemma NameIndent()
    ensures Indent(NAME_LINE) == 2
  {
    var rest := "newName: " + IMAGE_REPOSITORY + "\n";
    IndentOf(2, rest);
    assert "  " + "newName: " == "  newName: " && seq(2, _ => ' ') == "  ";
    assert NAME_LINE == seq(2, _ => ' ') + rest;
  }

  lemma Regroup(a: string, b: string, c: string, d: string)
    ensures a + (b + c) + d == a + b + c + d
  {
  }

  lemma NameStripped()
    ensures Strip(NAME_LINE) == "newName: " + IMAGE_REPOSITORY
    ensures !IsImageLine(NAME_LINE) && !IsNameEntry(NAME_LINE) && Indent(NAME_LINE) == 2
  {
    NameIndent();
    LineStripped("  ", "newName: ", "\n");
    Regroup("  ", "newName: ", IMAGE_REPOSITORY, "\n");
    assert "  " + "newName: " == "  newName: ";
    NotAnEntry(NAME_LINE);
  }

  lemma NotAnEntry(l: string)
    requires Strip(l) != "" && Strip(l)[0] == 'n' && LStrip(l) != "" && LStrip(l)[0] == 'n'
    ensures !IsImageLine(l) && !IsNameEntry(l)
  {
    assert ("- name: " + IMAGE_REPOSITORY)[0] == '-';
    StartsAt(LStrip(l), "- name:", 0);
  }

  /** A selector line with the tag a and any break. */
  lemma TagStripped(line: string, end: char)
    requires line == "  newTag: " + "a" + [end] && IsBreak(PyBreaks, end) && IsSpace(end)
    ensures IsSelectorLine(line) && SelectorKind(line) == NewTag && SelectorValue(line) == "a"
    ensures Strip(line) == "newTag: a" && Indent(line) == 2
    ensures !IsImageLine(line) && !IsNameEntry(line)
  {
    assert line[..10] == "  newTag: ";
    assert Chomp(PyBreaks, line) == "  newTag: " + "a";
    SelectorStripped(line);
    assert Strip(line) == "newTag" + ": " + "a";
    assert Strip(line)[0] == 'n' && ("- name: " + IMAGE_REPOSITORY)[0] == '-';
    assert LStrip(line)[..6][0] == 'n';
    StartsAt(LStrip(line), "- name:", 0);
  }

  lemma TabStripped()
    ensures IsSelectorLine(TAB_LINE) && SelectorKind(TAB_LINE) == NewTag && SelectorValue(TAB_LINE) == "a"
    ensures Strip(TAB_LINE) == "newTag: a" && Indent(TAB_LINE) == 2
    ensures !IsImageLine(TAB_LINE) && !IsNameEntry(TAB_LINE)
  {
    TagStripped(TAB_LINE, '\U{0B}');
  }

  lemma KeyStripped()
    ensures Strip(KEY_LINE) == "patches:" && Indent(KEY_LINE) == 0
    ensures !IsImageLine(KEY_LINE) && !IsNameEntry(KEY_LINE)
  {
  }

  lemma OtherLinesSelectNothing()
    ensures !IsSelectorLine(ENTRY_LINE) && !IsSelectorLine(NAME_LINE) && !IsSelectorLine(KEY_LINE)
  {
    NoSelector(ENTRY_LINE, 0);
    NoSelector(KEY_LINE, 0);
    assert NAME_LINE[2] == 'n' && NAME_LINE[5] == 'N';
    StartsAt(NAME_LINE, "  newTag: ", 5);
    StartsAt(NAME_LINE, "  digest: ", 2);
  }

  lemma NoSelector(l: string, i: nat)
    requires i < 2 && i < |l| && l[i] != ' '
    ensures !IsSelectorLine(l)
  {
  }

  /** Four lines of which the third selects. */
  lemma FourLines(l: seq<string>)
    requires |l| == 4 && AllLines(PyBreaks, l)
    requires !IsSelectorLine(l[0]) && !IsSelectorLine(l[1]) && IsSelectorLine(l[2]) && !IsSelectorLine(l[3])
    ensures BodyLines(Join(l)) == l && SelectorLines(Join(l)) == [2] && OneSelector(Join(l))
  {
    SplitJoin(PyBreaks, l);
    IndicesOne(l, IsSelectorLine, 2);
  }

  /** Four lines of which the first is the image entry and the next two belong to it. */
  lemma FourBlock(l: seq<string>)
    requires |l| == 4 && IsImageLine(l[0]) && IsNameEntry(l[0]) && Indent(l[0]) == 0
    requires !IsImageLine(l[1]) && !IsNameEntry(l[1]) && Indent(l[1]) > 0
    requires !IsImageLine(l[2]) && !IsNameEntry(l[2]) && Indent(l[2]) > 0
    requires !IsImageLine(l[3]) && !IsNameEntry(l[3]) && Indent(l[3]) == 0 && Strip(l[3]) != ""
    ensures ImageBlock(l) == Ok(ImageEntry(0, 3))
  {
    IndicesOne(l, IsImageLine, 0);
    IndicesOne(l, IsNameEntry, 0);
    assert BlockEnd(l, 3, 0) == 3;
    assert BlockEnd(l, 2, 0) == 3;
    assert BlockEnd(l, 1, 0) == 3;
  }

  lemma ThreeStripped(l: seq<string>)
    requires |l| == 4 && Strip(l[0]) != "" && Strip(l[1]) != "" && Strip(l[2]) != ""
    ensures StrippedNonblank(l[0..3]) == [Strip(l[0]), Strip(l[1]), Strip(l[2])]
  {
    var b := l[0..3];
    assert b[1..][0] == l[1] && b[1..][1..][0] == l[2] && b[1..][1..][1..] == [];
    assert StrippedNonblank(b[1..][1..]) == [Strip(l[2])];
    assert StrippedNonblank(b[1..]) == [Strip(l[1]), Strip(l[2])];
  }

  lemma HiddenAllLines()
    ensures AllLines(PyBreaks, HIDDEN_LINES)
  {
    LinesTame();
  }

  lemma HiddenBody()
    ensures BodyLines(HiddenBase()) == HIDDEN_LINES && SelectorLines(HiddenBase()) == [2]
    ensures OneSelector(HiddenBase())
  {
    HiddenAllLines();
    TabStripped();
    OtherLinesSelectNothing();
    FourLines(HIDDEN_LINES);
  }

  lemma HiddenBlock()
    ensures ImageBlock(HIDDEN_LINES) == Ok(ImageEntry(0, 3))
  {
    EntryStripped();
    NameStripped();
    TabStripped();
    KeyStripped();
    FourBlock(HIDDEN_LINES);
  }

  lemma HiddenSelector()
    ensures CheckImageSelector(HIDDEN_LINES, NewTag, "a").Pass?
  {
    HiddenBlock();
    EntryStripped();
    NameStripped();
    TabStripped();
    ThreeStripped(HIDDEN_LINES);
    assert KeyText(NewTag) + ": " + "a" == "newTag: a";
  }

  // ---------------------------------------------------------------- the rest of the parser

  predicate TameText(s: string) {
    forall i | 0 <= i < |s| :: Ordinary(s[i]) || s[i] == ' ' || s[i] == '\n' || s[i] == '\U{0B}'
  }

  lemma TameNotForbidden(s: string)
    requires TameText(s)
    ensures !HasForbidden(s) && NoCr(s)
  {
    forall i | 0 <= i < |FORBIDDEN| ensures !Contains(s, FORBIDDEN[i]) {
      if i == 0 {
        ContainsChar(s, FORBIDDEN[0], 20);
      } else if i == 1 {
        ContainsChar(s, FORBIDDEN[1], 1);
      } else if i == 2 {
        ContainsChar(s, FORBIDDEN[2], 5);
      } else if i == 3 {
        ContainsChar(s, FORBIDDEN[3], 7);
      } else if i == 4 {
        ContainsChar(s, FORBIDDEN[4], 7);
      } else {
        ContainsChar(s, FORBIDDEN[5], 7);
      }
    }
  }

  lemma {:induction false} TameJoin(lines: seq<string>)
    requires forall i | 0 <= i < |lines| :: TameText(lines[i])
    ensures TameText(Join(lines))
  {
    if lines != [] {
      TameJoin(lines[1..]);
    }
  }

  lemma TameLine(l: string)
    requires Tame(l) && (l[|l| - 1] == '\n' || l[|l| - 1] == '\U{0B}')
    ensures TameText(l)
  {
  }

  lemma NoKey(l: string)
    requires l != "" && l[0] != 'p' && (l[0] == ' ' ==> |l| > 2 && l[1] == ' ' && l[2] == 'n') && l[0] != '\t'
    ensures !KeyAt(l, 0)
  {
    var n := if l[0] == ' ' then 2 else 0;
    assert SkipBlanks(l, n) == n;
    assert n == 2 ==> SkipBlanks(l, 1) == 2;
    assert SkipBlanks(l, 0) == n;
    assert l[n..][0] == l[n];
    StartsAt(l[n..], "patches:", 0);
  }

  lemma JoinThree(a: string, b: string, c: string, d: string)
    ensures Join([a, b, c, d]) == Join([a, b, c + d]) == a + (b + (c + d))
  {
    var x := [a, b, c, d];
    assert x[1..] == [b, c, d] && x[1..][1..] == [c, d] && x[1..][1..][1..] == [d] && x[1..][1..][1..][1..] == [];
    assert Join([d]) == d && Join([c, d]) == c + d && Join([b, c, d]) == b + (c + d);
    var y := [a, b, c + d];
    assert y[1..] == [b, c + d] && y[1..][1..] == [c + d] && y[1..][1..][1..] == [];
    assert Join([c + d]) == c + d && Join([b, c + d]) == b + (c + d);
  }

  /** Three lines for regular expressions, none of which is a patch key. */
  lemma ThreeKeyFree(a: string, b: string, c: string)
    requires IsLine(LfOnly, a) && IsLine(LfOnly, b) && IsLine(LfOnly, c)
    requires !KeyAt(a, 0) && !KeyAt(b, 0) && !KeyAt(c, 0)
    ensures KeyFree(Join([a, b, c]))
  {
    KeyFreeLines([a, b, c]);
  }

  lemma HiddenKeyFree()
    ensures KeyFree(HiddenBase())
  {
    LinesTame();
    NoKey(ENTRY_LINE);
    NoKey(NAME_LINE);
    var last := TAB_LINE + KEY_LINE;
    NoKey(last);
    ThreeKeyFree(ENTRY_LINE, NAME_LINE, last);
    JoinThree(ENTRY_LINE, NAME_LINE, TAB_LINE, KEY_LINE);
  }

  lemma HiddenIsText()
    ensures CheckLfText(HiddenBase(), MAX_KUSTOMIZATION_BYTES).Pass? && !HasForbidden(HiddenBase())
  {
    var text := HiddenBase();
    LinesTame();
    TameLine(ENTRY_LINE);
    TameLine(NAME_LINE);
    TameLine(TAB_LINE);
    TameLine(KEY_LINE);
    TameJoin(HIDDEN_LINES);
    TameNotForbidden(text);
    JoinThree(ENTRY_LINE, NAME_LINE, TAB_LINE, KEY_LINE);
    ImageOrdinary();
    assert |text| == |ENTRY_LINE| + |NAME_LINE| + |TAB_LINE| + |KEY_LINE|;
    assert text[|text| - 1] == KEY_LINE[|KEY_LINE| - 1];
    ByteLengthBound(text);
  }

  lemma NoPatchParts(text: string)
    requires CheckLfText(text, MAX_KUSTOMIZATION_BYTES).Pass? && !HasForbidden(text) && KeyFree(text)
    ensures BaseParts(text) == BodyParts(text, "")
  {
    PatchKeysNone(text, |text| + 1);
    assert text[..|text|] == text && text[|text|..] == "";
  }

  /** A legacy base that passes every check, with its selector on line k. */
  lemma LegacyAccepted(text: string, l: seq<string>, k: nat, tag: string)
    requires CheckLfText(text, MAX_KUSTOMIZATION_BYTES).Pass? && !HasForbidden(text) && KeyFree(text)
    requires k < |l| && BodyLines(text) == l && SelectorLines(text) == [k]
    requires IsSelectorLine(l[k]) && SelectorKind(l[k]) == NewTag && SelectorValue(l[k]) == tag && IsSafeTag(tag)
    requires CheckImageSelector(l, NewTag, tag).Pass?
    ensures BaseParts(text) == Ok(Parts(text, NewTag, tag, None))
  {
    NoPatchParts(text);
    LegacyParts(text, l, k, tag);
  }

  lemma LegacyParts(text: string, l: seq<string>, k: nat, tag: string)
    requires k < |l| && BodyLines(text) == l && SelectorLines(text) == [k]
    requires IsSelectorLine(l[k]) && SelectorKind(l[k]) == NewTag && SelectorValue(l[k]) == tag && IsSafeTag(tag)
    requires CheckImageSelector(l, NewTag, tag).Pass?
    ensures BodyParts(text, "") == Ok(Parts(text, NewTag, tag, None))
  {
  }

  /** The selector line does not end in a line feed, and the last line is a key. */
  lemma FourHide(text: string, l: seq<string>)
    requires |l| == 4 && BodyLines(text) == l && OneSelector(text) && SelectorLines(text) == [2]
    requires l[2] != "" && l[2][|l[2]| - 1] != '\n'
    requires KeyAt(l[3], 0)
    ensures HiddenKey(text)
  {
    assert l[3..] == [l[3]] && [l[3]][1..] == [];
    assert Join([l[3]]) == l[3];
    assert l[2][|l[2]| - 1..][0] != '\n';
  }

  lemma KeyLineIsKey()
    ensures KeyAt(KEY_LINE, 0)
  {
  }

  lemma HiddenAccepted()
    ensures BaseParts(HiddenBase()) == Ok(Parts(HiddenBase(), NewTag, "a", None))
  {
    HiddenIsText();
    HiddenKeyFree();
    HiddenBody();
    TabStripped();
    HiddenSelector();
    TagIsSafe();
    LegacyAccepted(HiddenBase(), HIDDEN_LINES, 2, "a");
  }

  lemma TagIsSafe()
    ensures IsSafeTag("a")
  {
  }

  lemma HiddenKeyThere()
    ensures OneSelector(HiddenBase()) && HiddenKey(HiddenBase())
  {
    HiddenBody();
    KeyLineIsKey();
    LinesTame();
    FourHide(HiddenBase(), HIDDEN_LINES);
  }

  lemma NoReleaseRenders(text: string, p: Parts)
    requires BaseParts(text) == Ok(p) && OneSelector(p.body) && HiddenKey(p.body)
    ensures forall digest, sha :: Render(text, digest, sha).Err?
  {
    forall digest, sha ensures Render(text, digest, sha).Err? {
      RenderSucceeds(text, digest, sha);
    }
  }

  /** There is a base that is accepted, whose selector line lies in the image entry, and on which no
      release can be rendered: rewriting the selector line turns what follows the vertical tab
      into a key. */
  lemma HiddenKeyFails() returns (text: string)
    ensures BaseParts(text).Ok? && BaseParts(text).value.body == text
    ensures OneSelector(text) && SelectorInBlock(text)
    ensures forall digest, sha :: Render(text, digest, sha).Err?
  {
    text := HiddenBase();
    HiddenAccepted();
    HiddenBody();
    HiddenBlock();
    HiddenKeyThere();
    NoReleaseRenders(text, Parts(text, NewTag, "a", None));
  }
}
