/** The writer fence: the renderer that appends the one permitted replica override, the
    validator beside it, and the language the validator accepts. */
module WriterFence {
  import opened Results
  import opened Text
  import opened Kustomization
  import opened Json

  datatype FenceError =
    | BadText(error: GateError)
    | ServiceNotAllowed
    | AlreadyOverridden
    | NotExact
    | Duplicated

  const WRITER_SERVICE_NAMES: seq<string> := ["devpath-platform-svc", "devpath-sandbox-svc"]

  predicate IsWriter(service: string) {
    service == WRITER_SERVICE_NAMES[0] || service == WRITER_SERVICE_NAMES[1]
  }

  function FenceBlock(service: string): string {
    "replicas:\n" + "- name: " + service + "\n" + "  count: 0\n"
  }

  // ---------------------------------------------------------------- ^replicas\s*:

  function SkipSpace(text: string, i: nat): (j: nat)
    requires i <= |text|
    ensures i <= j <= |text|
    ensures forall k | i <= k < j :: IsSpace(text[k])
    ensures j < |text| ==> !IsSpace(text[j])
    decreases |text| - i
  {
    if i < |text| && IsSpace(text[i]) then SkipSpace(text, i + 1) else i
  }

  /** A match of ^replicas\s*: starts at i; \s runs over line ends. */
  predicate OverrideAt(text: string, i: nat) {
    && LineStart(text, i)
    && i + 8 <= |text| && text[i..i + 8] == "replicas"
    && SkipSpace(text, i + 8) < |text| && text[SkipSpace(text, i + 8)] == ':'
  }

  /** The position after the match at i. */
  function OverrideEnd(text: string, i: nat): (e: nat)
    requires OverrideAt(text, i)
    ensures i + 8 < e <= |text|
  {
    SkipSpace(text, i + 8) + 1
  }

  /** finditer from position i: the search resumes after each match. */
  function Overrides(text: string, i: nat): seq<nat>
    requires i <= |text|
    decreases |text| - i
  {
    if OverrideAt(text, i) then [i] + Overrides(text, OverrideEnd(text, i))
    else if i < |text| then Overrides(text, i + 1)
    else []
  }

  ghost predicate OverrideFree(text: string) {
    forall i | 0 <= i <= |text| :: !OverrideAt(text, i)
  }

  // ---------------------------------------------------------------- the two operations

  function ValidateFence(text: string, service: string): Outcome<FenceError> {
    match CheckLfText(text, MAX_KUSTOMIZATION_BYTES)
    case Fail(e) => Fail(BadText(e))
    case Pass =>
      if !IsWriter(service) then Fail(ServiceNotAllowed)
      else if |Overrides(text, 0)| != 1 || !EndsWith(text, FenceBlock(service)) then Fail(NotExact)
      else if Overrides(text[..|text| - |FenceBlock(service)|], 0) != [] then Fail(Duplicated)
      else Pass
  }

  function RenderFence(text: string, service: string): Result<string, FenceError> {
    match CheckLfText(text, MAX_KUSTOMIZATION_BYTES)
    case Fail(e) => Err(BadText(e))
    case Pass =>
      if Overrides(text, 0) != [] then Err(AlreadyOverridden)
      else if !IsWriter(service) then Err(ServiceNotAllowed)
      else
        :- ValidateFence(text + FenceBlock(service), service);
        Ok(text + FenceBlock(service))
  }

  // ---------------------------------------------------------------- the search is complete

  /** No match starts inside another one, so resuming after a match misses none. */
  lemma NoOverlap(text: string, i: nat, k: nat)
    requires OverrideAt(text, i) && i < k < OverrideEnd(text, i)
    ensures !OverrideAt(text, k)
  {
    if k < i + 8 {
      assert text[i..i + 8][k - 1 - i] == text[k - 1];
    } else if k + 8 <= |text| {
      assert text[k..k + 8][0] == text[k];
    }
  }

  lemma {:induction false} OverridesAre(text: string, i: nat)
    requires i <= |text|
    ensures forall k :: k in Overrides(text, i) <==> i <= k <= |text| && OverrideAt(text, k)
    decreases |text| - i
  {
    if OverrideAt(text, i) {
      var e := OverrideEnd(text, i);
      OverridesAre(text, e);
      forall k | i < k < e ensures !OverrideAt(text, k) {
        NoOverlap(text, i, k);
      }
    } else if i < |text| {
      OverridesAre(text, i + 1);
    }
  }

  lemma {:induction false} OverridesNone(text: string, i: nat)
    requires i <= |text|
    requires forall k | i <= k <= |text| :: !OverrideAt(text, k)
    ensures Overrides(text, i) == []
    decreases |text| - i
  {
    if i < |text| {
      OverridesNone(text, i + 1);
    }
  }

  lemma {:induction false} OverridesOne(text: string, i: nat, k: nat)
    requires i <= k <= |text| && OverrideAt(text, k)
    requires forall j | i <= j <= |text| && j != k :: !OverrideAt(text, j)
    ensures Overrides(text, i) == [k]
    decreases k - i
  {
    if i < k {
      OverridesOne(text, i + 1, k);
    } else {
      OverridesNone(text, OverrideEnd(text, k));
    }
  }

  // ---------------------------------------------------------------- across the boundary

  lemma {:induction false} SkipSpaceLeft(a: string, b: string, i: nat)
    requires i <= |a| && b != "" && !IsSpace(b[0])
    ensures SkipSpace(a + b, i) == SkipSpace(a, i)
    decreases |a| - i
  {
    if i < |a| && IsSpace(a[i]) {
      SkipSpaceLeft(a, b, i + 1);
    }
  }

  lemma {:induction false} SkipSpaceRight(a: string, b: string, i: nat)
    requires i <= |b|
    ensures SkipSpace(a + b, |a| + i) == |a| + SkipSpace(b, i)
    decreases |b| - i
  {
    if i < |b| && IsSpace(b[i]) {
      SkipSpaceRight(a, b, i + 1);
    }
  }

  lemma ReplicasChars(s: string, i: nat, w: nat)
    requires i + 8 <= |s| && 1 <= w < 8
    ensures s[i..i + 8] == "replicas" ==> s[i + w] != 'r'
  {
  }

  /** Appending a block that starts with r can neither complete nor break a match that starts
      before it, although \s* runs over line ends. */
  lemma OverrideLeft(a: string, b: string, i: nat)
    requires i < |a| && b != "" && b[0] == 'r'
    ensures OverrideAt(a + b, i) == OverrideAt(a, i)
  {
    if i + 8 <= |a| {
      assert (a + b)[i..i + 8] == a[i..i + 8];
      SkipSpaceLeft(a, b, i + 8);
    } else if i + 8 <= |a + b| {
      ReplicasChars(a + b, i, |a| - i);
    }
  }

  lemma OverrideRight(a: string, b: string, i: nat)
    requires i <= |b|
    ensures OverrideAt(a + b, |a| + i) ==
      ((if i == 0 then a == "" || a[|a| - 1] == '\n' else b[i - 1] == '\n')
       && i + 8 <= |b| && b[i..i + 8] == "replicas"
       && SkipSpace(b, i + 8) < |b| && b[SkipSpace(b, i + 8)] == ':')
  {
    if i + 8 <= |b| {
      assert (a + b)[|a| + i..|a| + i + 8] == b[i..i + 8];
      SkipSpaceRight(a, b, i + 8);
    }
  }

  /** Only the first of three lines opens with an r. */
  lemma OneOpening(head: string, name: string, tail: string, b: string)
    requires b == head + name + tail && head != "" && name != "" && tail != ""
    requires '\n' !in name && name[0] != 'r' && 'r' !in tail
    ensures forall i | |head| <= i < |b| && b[i - 1] == '\n' :: b[i] != 'r'
  {
    forall i | |head| <= i < |b| ensures b[i - 1] == '\n' ==> b[i] != 'r' {
      OpeningAt(head, name, tail, b, i);
    }
  }

  lemma OpeningAt(head: string, name: string, tail: string, b: string, i: nat)
    requires b == head + name + tail && head != "" && name != "" && |head| <= i < |b|
    requires '\n' !in name && name[0] != 'r' && 'r' !in tail
    ensures b[i - 1] == '\n' ==> b[i] != 'r'
  {
    if i == |head| {
      assert b[i] == name[0];
    } else if i < |head| + |name| {
      assert b[i - 1] == name[i - 1 - |head|] && name[i - 1 - |head|] in name;
    } else {
      assert b[i] == tail[i - |head| - |name|] && tail[i - |head| - |name|] in tail;
    }
  }

  lemma BlockParts(service: string)
    ensures FenceBlock(service) == "replicas:\n" + ("- name: " + service) + "\n  count: 0\n"
  {
    assert "\n" + "  count: 0\n" == "\n  count: 0\n";
  }

  lemma BlockChars(service: string)
    requires IsWriter(service)
    ensures var b := FenceBlock(service);
      && |b| > 20 && b[..8] == "replicas" && b[8] == ':' && b[9] == '\n' && b[0] == 'r'
      && b[|b| - 1] == '\n'
      && forall i | 10 <= i < |b| && b[i - 1] == '\n' :: b[i] != 'r'
  {
    var (head, name, tail) := ("replicas:\n", "- name: " + service, "\n  count: 0\n");
    BlockParts(service);
    assert head[..8] == "replicas";
    assert '\n' !in service;
    OneOpening(head, name, tail, FenceBlock(service));
  }

  lemma BlockPlain(service: string)
    requires IsWriter(service)
    ensures '\0' !in FenceBlock(service) && '\r' !in FenceBlock(service)
  {
    assert '\0' !in service && '\r' !in service;
  }

  /** In a text followed by a fence, the matches are those of the text and, when the text
      ends its last line, the one of the fence. */
  lemma OverridesOfFenced(base: string, service: string)
    requires IsWriter(service)
    ensures var text := base + FenceBlock(service);
      && (forall i | 0 <= i < |base| :: OverrideAt(text, i) == OverrideAt(base, i))
      && (OverrideAt(text, |base|) <==> base == "" || base[|base| - 1] == '\n')
      && (forall i | |base| < i <= |text| :: !OverrideAt(text, i))
      && !OverrideAt(base, |base|)
  {
    var b := FenceBlock(service);
    var text := base + b;
    BlockChars(service);
    forall i | 0 <= i < |base| ensures OverrideAt(text, i) == OverrideAt(base, i) {
      OverrideLeft(base, b, i);
    }
    assert b[0..8] == "replicas" && SkipSpace(b, 8) == 8;
    OverrideRight(base, b, 0);
    forall i | |base| < i <= |text| ensures !OverrideAt(text, i) {
      var j := i - |base|;
      OverrideRight(base, b, j);
      NoReplicasAt(b, j);
    }
  }

  lemma NoReplicasAt(b: string, j: nat)
    requires |b| > 20 && b[..8] == "replicas" && b[8] == ':' && b[9] == '\n'
    requires forall i | 10 <= i < |b| && b[i - 1] == '\n' :: b[i] != 'r'
    requires 0 < j <= |b|
    ensures b[j - 1] == '\n' && j + 8 <= |b| ==> b[j..j + 8] != "replicas"
  {
    if j + 8 <= |b| {
      assert b[j..j + 8][0] == b[j];
    }
    if j < 9 {
      assert b[..8][j - 1] == b[j - 1] == "replicas"[j - 1];
    }
  }

  lemma FencedText(base: string, service: string)
    requires IsWriter(service)
    ensures var text := base + FenceBlock(service);
      CheckLfText(text, MAX_KUSTOMIZATION_BYTES).Pass? <==>
        ByteLength(text) <= MAX_KUSTOMIZATION_BYTES && '\0' !in base && '\r' !in base
  {
    BlockChars(service);
    BlockPlain(service);
  }

  lemma FencedOverrides(base: string, service: string)
    requires IsWriter(service)
    ensures var text := base + FenceBlock(service);
      |Overrides(text, 0)| == 1 && Overrides(base, 0) == [] <==>
        OverrideFree(base) && (base == "" || base[|base| - 1] == '\n')
    ensures Overrides(base, 0) == [] <==> OverrideFree(base)
  {
    var text := base + FenceBlock(service);
    OverridesOfFenced(base, service);
    OverridesAre(base, 0);
    OverridesAre(text, 0);
    if OverrideFree(base) {
      OverridesNone(base, 0);
      if OverrideAt(text, |base|) {
        OverridesOne(text, 0, |base|);
      } else {
        OverridesNone(text, 0);
      }
    } else {
      var i :| 0 <= i <= |base| && OverrideAt(base, i);
      assert i in Overrides(base, 0);
    }
  }

  /** The pattern ^replicas\s*: without the scan: the colon stands after white space only. */
  lemma OverrideIs(text: string, i: nat)
    ensures OverrideAt(text, i)
       <==> && i + 8 <= |text| && (i == 0 || text[i - 1] == '\n') && text[i..i + 8] == "replicas"
            && exists j | i + 8 <= j < |text| :: text[j] == ':' && forall k | i + 8 <= k < j :: IsSpace(text[k])
  {
    if i + 8 <= |text| {
      var s := SkipSpace(text, i + 8);
      if j :| i + 8 <= j < |text| && text[j] == ':' && forall k | i + 8 <= k < j :: IsSpace(text[k]) {
        assert !IsSpace(':');
        assert s == j;
      }
    }
  }

  // ---------------------------------------------------------------- what a fence means

  /** An entry of a list of replica overrides. */
  datatype Replica = Replica(name: string, count: nat)

  function ReadReplica(name: string, count: string): Option<Replica> {
    match (Field(name, "- name: "), Field(count, "  count: "))
    case (Some(n), Some(c)) =>
      if c != "" && (forall i | 0 <= i < |c| :: IsDigit(c[i])) then Some(Replica(n, NatValue(c))) else None
    case _ => None
  }

  /** Entries of two lines each. */
  function ReadEntries(lines: seq<string>): Option<seq<Replica>>
    decreases |lines|
  {
    if lines == [] then Some([])
    else if |lines| < 2 then None
    else
      match (ReadReplica(lines[0], lines[1]), ReadEntries(lines[2..]))
      case (Some(r), Some(rest)) => Some([r] + rest)
      case _ => None
  }

  function ReadReplicas(text: string): Option<seq<Replica>> {
    var lines := SplitLines(LfOnly, text);
    if lines == [] || lines[0] != "replicas:\n" then None else ReadEntries(lines[1..])
  }

  lemma HeadIsLine()
    ensures IsLine(LfOnly, "replicas:\n")
  {
  }

  lemma CountIsLine()
    ensures IsLine(LfOnly, "  count: 0\n")
  {
  }

  lemma ThreeSplit(a: string, b: string, c: string)
    requires IsLine(LfOnly, a) && IsLine(LfOnly, b) && IsLine(LfOnly, c)
    ensures SplitLines(LfOnly, a + b + c) == [a, b, c]
  {
    ThreeJoined(a, b, c);
    SplitJoin(LfOnly, [a, b, c]);
  }

  lemma NoBreakInName(service: string)
    requires IsWriter(service)
    ensures '\n' !in service
  {
  }

  lemma BlockLines(service: string)
    requires IsWriter(service)
    ensures SplitLines(LfOnly, FenceBlock(service)) == ["replicas:\n", "- name: " + service + "\n", "  count: 0\n"]
  {
    NoBreakInName(service);
    HeadIsLine();
    CountIsLine();
    NameIsLine(service);
    ThreeSplit("replicas:\n", "- name: " + service + "\n", "  count: 0\n");
    BlockGrouped("replicas:\n", "- name: ", service, "\n", "  count: 0\n");
  }

  lemma BlockGrouped(a: string, b: string, c: string, d: string, e: string)
    ensures a + b + c + d + e == a + (b + c + d) + e
  {
  }

  lemma NameIsLine(service: string)
    requires '\n' !in service
    ensures IsLine(LfOnly, "- name: " + service + "\n")
  {
    var (key, l) := ("- name: ", "- name: " + service + "\n");
    forall i | 0 <= i < |l| - 1 ensures l[i] != '\n' {
      if i < 8 {
        assert l[i] == key[i];
      } else {
        assert l[i] == service[i - 8];
      }
    }
  }

  lemma ThreeJoined(a: string, b: string, c: string)
    ensures Join([a, b, c]) == a + b + c
  {
    assert [a, b, c][1..] == [b, c] && [b, c][1..] == [c] && [c][1..] == [];
    assert Join([c]) == c + "" == c;
    assert Join([b, c]) == b + c;
  }

  lemma ZeroRead()
    ensures NatValue("0") == 0
  {
    assert "0"[..0] == "";
  }

  lemma EntryRead(name: string, count: string, service: string)
    requires name == "- name: " + service + "\n" && count == "  count: " + "0" + "\n"
    ensures ReadEntries([name, count]) == Some([Replica(service, 0)])
  {
    FieldRead(name, "- name: ", service);
    FieldRead(count, "  count: ", "0");
    ZeroRead();
    assert [name, count][2..] == [] && [Replica(service, 0)] + [] == [Replica(service, 0)];
  }

  /** Main result: what a rendered fence means. The text after the base overrides the replicas of the
      one service, to none. */
  lemma FenceMeans(base: string, service: string, text: string)
    requires RenderFence(base, service) == Ok(text)
    ensures StartsWith(text, base) && ReadReplicas(text[|base|..]) == Some([Replica(service, 0)])
  {
    RenderFenceSucceeds(base, service);
    assert text[..|base|] == base && text[|base|..] == FenceBlock(service);
    BlockLines(service);
    var (name, count) := ("- name: " + service + "\n", "  count: 0\n");
    assert ["replicas:\n", name, count][1..] == [name, count];
    EntryRead(name, count, service);
  }

  // ---------------------------------------------------------------- main theorems

  /** Exactly when a fence can be appended, and what that gives. */
  lemma RenderFenceSucceeds(base: string, service: string)
    ensures RenderFence(base, service).Ok? <==>
      && CheckLfText(base, 65_536).Pass?
      && (service == "devpath-platform-svc" || service == "devpath-sandbox-svc")
      && OverrideFree(base)
      && ByteLength(base + FenceBlock(service)) <= 65_536
    ensures RenderFence(base, service).Ok? ==> RenderFence(base, service).value == base + FenceBlock(service)
  {
    if IsWriter(service) {
      var text := base + FenceBlock(service);
      FencedText(base, service);
      FencedOverrides(base, service);
      assert text[..|text| - |FenceBlock(service)|] == base;
      assert text[|text| - |FenceBlock(service)|..] == FenceBlock(service);
    }
  }

  /** The language of the validator: the renderer's outputs, and the bare fence. */
  lemma FenceLanguage(text: string, service: string)
    ensures ValidateFence(text, service).Pass? <==>
      && IsWriter(service)
      && (text == FenceBlock(service) || exists base :: RenderFence(base, service) == Ok(text))
  {
    if IsWriter(service) {
      var b := FenceBlock(service);
      if ValidateFence(text, service).Pass? {
        var base := text[..|text| - |b|];
        assert text == base + b;
        FencedText(base, service);
        FencedOverrides(base, service);
        ByteLengthAppend(base, b);
        RenderFenceSucceeds(base, service);
        assert text == b || RenderFence(base, service) == Ok(text);
      }
      BareFence(service);
    }
  }

  lemma BareFence(service: string)
    requires IsWriter(service)
    ensures ValidateFence(FenceBlock(service), service).Pass?
  {
    var b := FenceBlock(service);
    assert "" + b == b && b[|b| - |b|..] == b && b[..|b| - |b|] == "";
    FencedText("", service);
    FencedOverrides("", service);
    assert OverrideFree("");
    BlockSize(service);
  }

  lemma BlockSize(service: string)
    requires IsWriter(service)
    ensures ByteLength(FenceBlock(service)) < 400
  {
    ByteLengthBound(FenceBlock(service));
    assert |FenceBlock(service)| == 30 + |service|;
  }

  /** A rendered fence can be stripped to recover its base exactly, the service can be read
      back from it, and no second fence can be appended, whatever the service. */
  lemma FenceInverse(base: string, service: string, text: string)
    requires RenderFence(base, service) == Ok(text)
    ensures EndsWith(text, FenceBlock(service)) && text[..|text| - |FenceBlock(service)|] == base
    ensures forall other :: RenderFence(text, other).Err?
    ensures forall b, other | RenderFence(b, other) == Ok(text) :: other == service && b == base
  {
    RenderFenceSucceeds(base, service);
    OverridesOfFenced(base, service);
    assert OverrideAt(text, |base|);
    assert text[|text| - |FenceBlock(service)|..] == FenceBlock(service);
    forall other ensures RenderFence(text, other).Err? {
      RenderFenceSucceeds(text, other);
    }
    forall b, other | RenderFence(b, other) == Ok(text) ensures other == service && b == base {
      RenderFenceSucceeds(b, other);
      ServiceReadBack(base, service, b, other);
    }
  }

  lemma ServiceReadBack(a: string, s: string, b: string, t: string)
    requires IsWriter(s) && IsWriter(t) && a + FenceBlock(s) == b + FenceBlock(t)
    ensures s == t && a == b
  {
    var text := a + FenceBlock(s);
    var n := |text| - 17;
    FenceEnds(a, s);
    FenceEnds(b, t);
    if s == t {
      assert text[..|text| - |FenceBlock(s)|] == a && text[..|text| - |FenceBlock(t)|] == b;
    }
  }

  /** The last letter of the service's own name, seen from the end of the fence. */
  lemma FenceEnds(a: string, s: string)
    requires IsWriter(s)
    ensures var text := a + FenceBlock(s);
      |text| > 17 && text[|text| - 17] == (if s == WRITER_SERVICE_NAMES[0] then 'm' else 'x')
  {
  }
}
