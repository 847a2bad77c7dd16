/** Facts about the printed patch and about patch keys across concatenations. */
module PatchText {
  import opened Results
  import opened Text
  import opened Formats
  import opened Kustomization

  // ---------------------------------------------------------------- key positions

  ghost predicate KeyFree(text: string) {
    forall i | 0 <= i <= |text| :: !PatchKey(text, i)
  }

  lemma {:induction false} PatchKeysAre(text: string, n: nat)
    ensures forall k :: k in PatchKeys(text, n) <==> 0 <= k < n && PatchKey(text, k)
  {
    if n > 0 {
      PatchKeysAre(text, n - 1);
    }
  }

  lemma {:induction false} PatchKeysNone(text: string, n: nat)
    requires forall i | 0 <= i < n :: !PatchKey(text, i)
    ensures PatchKeys(text, n) == []
  {
    if n > 0 {
      PatchKeysNone(text, n - 1);
    }
  }

  lemma {:induction false} PatchKeysOne(text: string, n: nat, k: nat)
    requires k < n && PatchKey(text, k)
    requires forall i | 0 <= i < n && i != k :: !PatchKey(text, i)
    ensures PatchKeys(text, n) == [k]
  {
    if k < n - 1 {
      PatchKeysOne(text, n - 1, k);
    } else {
      PatchKeysNone(text, n - 1);
    }
  }

  lemma {:induction false} SkipBlanksLeft(a: string, b: string, i: nat)
    requires i < |a| && Terminated(PyBreaks, a)
    ensures SkipBlanks(a + b, i) == SkipBlanks(a, i) < |a|
    decreases |a| - i
  {
    if a[i] == ' ' || a[i] == '\t' {
      SkipBlanksLeft(a, b, i + 1);
    }
  }

  lemma {:induction false} SkipBlanksRight(a: string, b: string, i: nat)
    requires i <= |b|
    ensures SkipBlanks(a + b, |a| + i) == |a| + SkipBlanks(b, i)
    decreases |b| - i
  {
    if i < |b| && (b[i] == ' ' || b[i] == '\t') {
      SkipBlanksRight(a, b, i + 1);
    }
  }

  /** A key before a line boundary does not depend on what follows it. */
  lemma PatchKeyLeft(a: string, b: string, i: nat)
    requires i < |a| && Terminated(PyBreaks, a)
    ensures PatchKey(a + b, i) == PatchKey(a, i)
  {
    SkipBlanksLeft(a, b, i);
    var j := SkipBlanks(a, i);
    assert (a + b)[j..] == a[j..] + b;
    if j + 8 > |a| && StartsWith(a[j..] + b, "patches:") {
      var w := |a| - 1 - j;
      assert (a[j..] + b)[..8][w] == (a[j..] + b)[w] == a[|a| - 1];
      assert IsBreak(PyBreaks, "patches:"[w]);
    }
    assert BreakFree("patches:");
  }

  lemma PatchKeyRight(a: string, b: string, i: nat)
    requires i <= |b|
    ensures PatchKey(a + b, |a| + i) == ((if i == 0 then Terminated(LfOnly, a) else b[i - 1] == '\n') && KeyAt(b, i))
  {
    SkipBlanksRight(a, b, i);
    var j := SkipBlanks(b, i);
    assert (a + b)[|a| + j..] == b[j..];
  }

  lemma KeyFreeAppend(a: string, b: string)
    requires KeyFree(a) && KeyFree(b) && Terminated(LfOnly, a)
    ensures KeyFree(a + b)
  {
    forall i | 0 <= i <= |a + b| ensures !PatchKey(a + b, i) {
      if i < |a| {
        PatchKeyLeft(a, b, i);
      } else {
        PatchKeyRight(a, b, i - |a|);
        assert !PatchKey(b, i - |a|);
      }
    }
  }

  lemma KeyFreeLine(l: string)
    requires IsLine(LfOnly, l) && !KeyAt(l, 0)
    ensures KeyFree(l)
  {
  }

  lemma {:induction false} KeyFreeLines(lines: seq<string>)
    requires AllLines(LfOnly, lines)
    requires forall i | 0 <= i < |lines| :: !KeyAt(lines[i], 0)
    ensures KeyFree(Join(lines))
  {
    if lines != [] {
      KeyFreeLine(lines[0]);
      KeyFreeLines(lines[1..]);
      KeyFreeAppend(lines[0], Join(lines[1..]));
    }
  }

  // ---------------------------------------------------------------- the printed patch

  /** Characters that may occur in a Job name. */
  predicate IsNameChar(c: char) {
    c == '-' || IsLowerAlnum(c)
  }

  lemma JobNameChars(name: string)
    requires IsJobName(name)
    ensures forall i | 0 <= i < |name| :: IsNameChar(name[i])
    ensures 'o' !in name && 's' !in name
  {
    assert |MIGRATION_JOB_PREFIX| == 23;
    assert name[..23] == MIGRATION_JOB_PREFIX;
    forall i | 0 <= i < |name| ensures IsNameChar(name[i]) && name[i] != 'o' && name[i] != 's' {
      if i < 23 {
        assert name[i] == MIGRATION_JOB_PREFIX[i];
      } else if i < 35 {
        assert name[i] == JobDigestPart(name)[i - 23];
      } else if i > 35 {
        assert name[i] == JobReleasePart(name)[i - 36];
      }
    }
  }

  /** What the proofs need to know of one line of the patch. */
  ghost predicate PlainLine(l: string) {
    && l != ""
    && l[|l| - 1] == '\n'
    && forall i | 0 <= i < |l| - 1 :: ' ' <= l[i] <= '~'
  }

  ghost predicate PlainLines(lines: seq<string>) {
    forall i | 0 <= i < |lines| :: PlainLine(lines[i])
  }

  lemma TargetLinesPlain()
    ensures PlainLines(TARGET_LINES[..3])
  {
  }

  lemma TargetLinesPlain'()
    ensures PlainLines(TARGET_LINES[3..])
  {
  }

  lemma OperationsPlain()
    ensures PlainLines(NAME_OPERATION)
  {
  }

  lemma OperationsPlain'()
    ensures PlainLines(SUSPEND_OPERATION)
  {
  }

  lemma NameLinePlain(name: string)
    requires IsJobName(name)
    ensures PlainLine(NameLine(name))
  {
    JobNameChars(name);
    var l := NameLine(name);
    forall i | 0 <= i < |l| - 1 ensures ' ' <= l[i] <= '~' {
      if i >= 13 {
        assert l[i] == name[i - 13];
      }
    }
  }

  lemma PlainAppend(a: seq<string>, b: seq<string>)
    requires PlainLines(a) && PlainLines(b)
    ensures PlainLines(a + b)
  {
  }

  lemma PlainAreLines(lines: seq<string>)
    requires PlainLines(lines)
    ensures AllLines(LfOnly, lines) && AllLines(PyBreaks, lines)
  {
  }

  lemma PatchLinesPlain(name: string)
    requires IsJobName(name)
    ensures PlainLines(PatchLines(name))
  {
    TargetLinesPlain();
    TargetLinesPlain'();
    OperationsPlain();
    OperationsPlain'();
    NameLinePlain(name);
    PlainAppend(TARGET_LINES[..3], TARGET_LINES[3..]);
    assert TARGET_LINES == TARGET_LINES[..3] + TARGET_LINES[3..];
    PlainAppend(TARGET_LINES, NAME_OPERATION);
    PlainAppend(TARGET_LINES + NAME_OPERATION, [NameLine(name)]);
    PlainAppend(TARGET_LINES + NAME_OPERATION + [NameLine(name)], SUSPEND_OPERATION);
  }

  // ---------------------------------------------------------------- only the first line is a key

  /** What tells a line apart from a patch key: its first characters after the blanks. */
  ghost predicate NotKeyLine(l: string, k: nat) {
    && k + 5 < |l|
    && (forall j | 0 <= j < k :: l[j] == ' ')
    && l[k] != ' ' && l[k] != '\t'
    && (l[k] != 'p' || l[k + 2] != 't' || l[k + 3] != 'c' || l[k + 5] != 'e')
  }

  lemma {:induction false} BlanksSkipped(l: string, i: nat, k: nat)
    requires i <= k < |l|
    requires forall j | i <= j < k :: l[j] == ' '
    requires l[k] != ' ' && l[k] != '\t'
    ensures SkipBlanks(l, i) == k
    decreases k - i
  {
    if i < k {
      BlanksSkipped(l, i + 1, k);
    }
  }

  lemma KeyChars(s: string)
    requires StartsWith(s, "patches:")
    ensures s[0] == 'p' && s[2] == 't' && s[3] == 'c' && s[5] == 'e'
  {
  }

  lemma NotKey(l: string, k: nat)
    requires NotKeyLine(l, k)
    ensures !KeyAt(l, 0)
  {
    BlanksSkipped(l, 0, k);
    if KeyAt(l, 0) {
      KeyChars(l[k..]);
    }
  }

  lemma TargetNotKeys()
    ensures forall i | 1 <= i < 4 :: !KeyAt(TARGET_LINES[i], 0)
  {
    NotKey(TARGET_LINES[1], 0);
    NotKey(TARGET_LINES[2], 4);
    NotKey(TARGET_LINES[3], 4);
  }

  lemma TargetNotKeys'()
    ensures forall i | 4 <= i < 6 :: !KeyAt(TARGET_LINES[i], 0)
  {
    NotKey(TARGET_LINES[4], 4);
    NotKey(TARGET_LINES[5], 4);
  }

  lemma NameOperationNotKeys()
    ensures forall i | 0 <= i < 3 :: !KeyAt(NAME_OPERATION[i], 0)
  {
    NameOperationNotKeys'();
    NotKey(NAME_OPERATION[0], 2);
  }

  lemma NameOperationNotKeys'()
    ensures !KeyAt(NAME_OPERATION[1], 0) && !KeyAt(NAME_OPERATION[2], 0)
  {
    NotKey(NAME_OPERATION[1], 4);
    NotKey(NAME_OPERATION[2], 6);
  }

  lemma SuspendOperationNotKeys()
    ensures forall i | 0 <= i < 2 :: !KeyAt(SUSPEND_OPERATION[i], 0)
  {
    NotKey(SUSPEND_OPERATION[0], 4);
    NotKey(SUSPEND_OPERATION[1], 6);
  }

  lemma SuspendOperationNotKeys'()
    ensures !KeyAt(SUSPEND_OPERATION[2], 0)
  {
    NotKey(SUSPEND_OPERATION[2], 6);
  }

  lemma NameLineNotKey(name: string)
    requires IsJobName(name)
    ensures !KeyAt(NameLine(name), 0)
  {
    NotKey(NameLine(name), 6);
  }

  /** The patch after its first line holds no key. */
  lemma PatchTail(name: string)
    requires IsJobName(name)
    ensures ReleasePatch(name) == TARGET_LINES[0] + Join(PatchLines(name)[1..])
    ensures KeyFree(Join(PatchLines(name)[1..]))
  {
    var lines := PatchLines(name);
    PatchLinesPlain(name);
    PlainAreLines(lines);
    forall i | 1 <= i < |lines| ensures !KeyAt(lines[i], 0) {
      TargetNotKeys();
      TargetNotKeys'();
      NameOperationNotKeys();
      SuspendOperationNotKeys();
      SuspendOperationNotKeys'();
      NameLineNotKey(name);
    }
    KeyFreeLines(lines[1..]);
  }

  // ---------------------------------------------------------------- only one line names the Job

  lemma TargetNotNames()
    ensures forall i | 0 <= i < 6 :: !IsNameLine(TARGET_LINES[i])
  {
  }

  lemma OperationNotNames()
    ensures forall i | 0 <= i < 3 :: !IsNameLine(NAME_OPERATION[i]) && !IsNameLine(SUSPEND_OPERATION[i])
  {
  }

  lemma NameLineNames(name: string)
    requires IsJobName(name)
    ensures NameOn(NameLine(name)) == name
  {
  }

  /** The printed patch is read back as the name it was printed for. */
  lemma PatchNamesItsJob(name: string)
    requires IsJobName(name)
    ensures SplitLines(LfOnly, ReleasePatch(name)) == PatchLines(name)
    ensures Indices(PatchLines(name), IsNameLine) == [9]
    ensures NameOn(PatchLines(name)[9]) == name
  {
    var lines := PatchLines(name);
    PatchLinesPlain(name);
    PlainAreLines(lines);
    SplitJoin(LfOnly, lines);
    NameLineNames(name);
    forall i | 0 <= i < |lines| && i != 9 ensures !IsNameLine(lines[i]) {
      TargetNotNames();
      OperationNotNames();
    }
    IndicesOne(lines, IsNameLine, 9);
  }

  // ---------------------------------------------------------------- forbidden literals

  lemma ForbiddenBreakFree()
    ensures forall i | 0 <= i < 3 :: FORBIDDEN[i] != "" && BreakFree(FORBIDDEN[i])
  {
  }

  lemma ForbiddenBreakFree'()
    ensures forall i | 3 <= i < 6 :: FORBIDDEN[i] != "" && BreakFree(FORBIDDEN[i])
  {
  }

  lemma CleanSplit(a: string, b: string)
    requires Terminated(PyBreaks, a)
    ensures HasForbidden(a + b) <==> HasForbidden(a) || HasForbidden(b)
  {
    ForbiddenBreakFree();
    ForbiddenBreakFree'();
    forall i | 0 <= i < 6
      ensures Contains(a + b, FORBIDDEN[i]) <==> Contains(a, FORBIDDEN[i]) || Contains(b, FORBIDDEN[i])
    {
      ContainsSplit(a, b, FORBIDDEN[i]);
    }
  }

  ghost predicate Avoids(l: string, a: char, b: char) {
    forall i | 0 <= i < |l| :: l[i] != '.' && l[i] != '=' && l[i] != 'S' && l[i] != a && l[i] != b
  }

  /** Characters without which a text can hold no forbidden literal. */
  ghost predicate LacksForbiddenChars(l: string) {
    Avoids(l, 'y', 'J') || Avoids(l, 'y', 'p') || Avoids(l, 'o', 'J')
  }

  lemma CleanBy(l: string)
    requires LacksForbiddenChars(l)
    ensures !HasForbidden(l)
  {
    ContainsChar(l, FORBIDDEN[0], 6);
    ContainsChar(l, FORBIDDEN[1], 1);
    ContainsChar(l, FORBIDDEN[1], 5);
    ContainsChar(l, FORBIDDEN[2], 5);
    ContainsChar(l, FORBIDDEN[3], 7);
    ContainsChar(l, FORBIDDEN[4], 0);
    ContainsChar(l, FORBIDDEN[4], 7);
    ContainsChar(l, FORBIDDEN[5], 7);
  }

  ghost predicate CleanLines(lines: seq<string>) {
    forall i | 0 <= i < |lines| :: LacksForbiddenChars(lines[i])
  }

  lemma TargetClean()
    ensures CleanLines(TARGET_LINES[..4])
  {
    assert Avoids(TARGET_LINES[0], 'y', 'J');
    assert Avoids(TARGET_LINES[1], 'y', 'J');
    assert Avoids(TARGET_LINES[2], 'y', 'J');
    assert Avoids(TARGET_LINES[3], 'y', 'J');
  }

  lemma TargetClean'()
    ensures CleanLines(TARGET_LINES[4..])
  {
    assert Avoids(TARGET_LINES[4], 'y', 'p');
    assert Avoids(TARGET_LINES[5], 'o', 'J');
  }

  lemma NameOperationClean()
    ensures CleanLines(NAME_OPERATION)
  {
    assert Avoids(NAME_OPERATION[0], 'y', 'J');
    assert Avoids(NAME_OPERATION[1], 'y', 'J');
    assert Avoids(NAME_OPERATION[2], 'y', 'J');
  }

  lemma SuspendOperationClean()
    ensures CleanLines(SUSPEND_OPERATION)
  {
    assert Avoids(SUSPEND_OPERATION[0], 'y', 'J');
    assert Avoids(SUSPEND_OPERATION[1], 'y', 'J');
    assert Avoids(SUSPEND_OPERATION[2], 'y', 'J');
  }

  lemma NameLineClean(name: string)
    requires IsJobName(name)
    ensures LacksForbiddenChars(NameLine(name))
  {
    JobNameChars(name);
    var l := NameLine(name);
    forall i | 0 <= i < |l| ensures l[i] != '.' && l[i] != '=' && l[i] != 'S' && l[i] != 'o' && l[i] != 'J' {
      if 13 <= i < |l| - 1 {
        assert l[i] == name[i - 13];
      }
    }
    assert Avoids(l, 'o', 'J');
  }

  lemma CleanAppend(a: seq<string>, b: seq<string>)
    requires CleanLines(a) && CleanLines(b)
    ensures CleanLines(a + b)
  {
  }

  lemma {:induction false} CleanJoin(lines: seq<string>)
    requires CleanLines(lines) && AllLines(PyBreaks, lines)
    ensures !HasForbidden(Join(lines))
  {
    if lines == [] {
      CleanBy("");
    } else {
      CleanJoin(lines[1..]);
      CleanBy(lines[0]);
      CleanSplit(lines[0], Join(lines[1..]));
    }
  }

  lemma PatchClean(name: string)
    requires IsJobName(name)
    ensures !HasForbidden(ReleasePatch(name))
  {
    PatchLinesPlain(name);
    PlainAreLines(PatchLines(name));
    TargetClean();
    TargetClean'();
    CleanAppend(TARGET_LINES[..4], TARGET_LINES[4..]);
    assert TARGET_LINES == TARGET_LINES[..4] + TARGET_LINES[4..];
    NameOperationClean();
    SuspendOperationClean();
    NameLineClean(name);
    CleanAppend(TARGET_LINES, NAME_OPERATION);
    CleanAppend(TARGET_LINES + NAME_OPERATION, [NameLine(name)]);
    CleanAppend(TARGET_LINES + NAME_OPERATION + [NameLine(name)], SUSPEND_OPERATION);
    CleanJoin(PatchLines(name));
  }

  // ---------------------------------------------------------------- characters and size

  ghost predicate NoCr(s: string) {
    '\0' !in s && '\r' !in s
  }

  lemma {:induction false} PlainJoin(lines: seq<string>)
    requires PlainLines(lines)
    ensures NoCr(Join(lines)) && Terminated(LfOnly, Join(lines))
  {
    if lines != [] {
      PlainJoin(lines[1..]);
    }
  }

  /** All patches have the same size. */
  lemma PatchSize(m: string, n: string)
    requires IsJobName(m) && IsJobName(n)
    ensures ByteLength(ReleasePatch(m)) == ByteLength(ReleasePatch(n))
  {
    var head, tail := TARGET_LINES + NAME_OPERATION, SUSPEND_OPERATION;
    PatchSizeOf(head, tail, m);
    PatchSizeOf(head, tail, n);
  }

  lemma PatchSizeOf(head: seq<string>, tail: seq<string>, name: string)
    requires IsJobName(name)
    ensures ByteLength(Join(head + [NameLine(name)] + tail)) == ByteLength(Join(head)) + 74 + ByteLength(Join(tail))
  {
    var l := NameLine(name);
    JoinAppend(head + [l], tail);
    JoinAppend(head, [l]);
    assert Join([l]) == l;
    ByteLengthAppend(Join(head + [l]), Join(tail));
    ByteLengthAppend(Join(head), l);
    NameLinePlain(name);
    ByteLengthAscii(l);
  }
}
