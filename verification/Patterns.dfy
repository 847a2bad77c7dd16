/** The regular expressions of the scripts, with their own meaning, and that each recogniser accepts
    exactly what its expression matches as a whole. */
module Patterns {
  import opened Text
  import opened Formats
  import opened Json
  import opened Evidence

  /** A set of characters, as ranges. */
  datatype Class = Class(ranges: seq<(char, char)>)

  /** A fixed text, or between least and most characters of a chars. */
  datatype Item = Fixed(text: string) | Times(chars: Class, least: nat, most: nat)

  predicate In(chars: Class, c: char) {
    exists i | 0 <= i < |chars.ranges| :: chars.ranges[i].0 <= c <= chars.ranges[i].1
  }

  predicate AllIn(chars: Class, s: string) {
    forall i | 0 <= i < |s| :: In(chars, s[i])
  }

  /** One item matches a text. */
  predicate Fits(item: Item, s: string) {
    match item
    case Fixed(text) => s == text
    case Times(chars, least, most) => least <= |s| <= most && AllIn(chars, s)
  }

  /** re.fullmatch: the text is cut into one piece for each item. */
  predicate Matches(items: seq<Item>, s: string)
    decreases |items|, 1
  {
    if items == [] then s == "" else exists n | 0 <= n <= |s| :: CutAt(items, s, n)
  }

  /** The first piece has n characters. */
  predicate CutAt(items: seq<Item>, s: string, n: nat)
    requires items != [] && n <= |s|
    decreases |items|, 0
  {
    Fits(items[0], s[..n]) && Matches(items[1..], s[n..])
  }

  // ---------------------------------------------------------------- the expressions

  const DIGITS := Class([('0', '9')])
  const HEX := Class([('0', '9'), ('a', 'f')])
  const LOWER := Class([('a', 'z'), ('0', '9')])
  const LOWER_DASH := Class([('a', 'z'), ('0', '9'), ('-', '-')])
  const ALNUM := Class([('A', 'Z'), ('a', 'z'), ('0', '9')])
  const ALNUM_DASH := Class([('A', 'Z'), ('a', 'z'), ('0', '9'), ('-', '-')])
  const TAG := Class([('A', 'Z'), ('a', 'z'), ('0', '9'), ('.', '.'), ('_', '_'), ('-', '-')])
  const NONZERO := Class([('1', '9')])

  /** ^ms-[0-9]{8}-[a-z0-9][a-z0-9-]{2,40}$ */
  const RELEASE_ID := [Fixed("ms-"), Times(DIGITS, 8, 8), Fixed("-"), Times(LOWER, 1, 1), Times(LOWER_DASH, 2, 40)]
  /** ^[0-9a-f]{40}$ */
  const SHA40 := [Times(HEX, 40, 40)]
  /** ^[0-9a-f]{64}$ */
  const SHA64 := [Times(HEX, 64, 64)]
  /** ^sha256:[0-9a-f]{64}$ */
  const DIGEST := [Fixed("sha256:"), Times(HEX, 64, 64)]
  /** ^[A-Za-z0-9][A-Za-z0-9._-]{0,127}$ */
  const SAFE_TAG := [Times(ALNUM, 1, 1), Times(TAG, 0, 127)]
  /** ^[1-9][0-9]{0,19}$ */
  const POSITIVE_INTEGER := [Times(NONZERO, 1, 1), Times(DIGITS, 0, 19)]
  /** The two ways of ^[A-Za-z0-9](?:[A-Za-z0-9-]{0,37}[A-Za-z0-9])?$ */
  const SHORT_LOGIN := [Times(ALNUM, 1, 1)]
  const LONG_LOGIN := [Times(ALNUM, 1, 1), Times(ALNUM_DASH, 0, 37), Times(ALNUM, 1, 1)]
  /** ^devpath-flyway-migrate-([0-9a-f]{12})-([0-9a-f]{24})$ */
  const MIGRATION_JOB_NAME :=
    [Fixed("devpath-flyway-migrate-"), Times(HEX, 12, 12), Fixed("-"), Times(HEX, 24, 24)]

  // ---------------------------------------------------------------- one item after another

  lemma CutMatches(item: Item, items: seq<Item>, s: string, n: nat)
    requires n <= |s| && Fits(item, s[..n]) && Matches(items, s[n..])
    ensures Matches([item] + items, s)
  {
    var all := [item] + items;
    assert all[0] == item && all[1..] == items;
    assert CutAt(all, s, n);
  }

  lemma MatchIsCut(item: Item, items: seq<Item>, s: string) returns (n: nat)
    requires Matches([item] + items, s)
    ensures n <= |s| && Fits(item, s[..n]) && Matches(items, s[n..])
  {
    var all := [item] + items;
    assert all[0] == item && all[1..] == items;
    n :| 0 <= n <= |s| && CutAt(all, s, n);
  }

  lemma FixedFirst(text: string, items: seq<Item>, s: string)
    ensures Matches([Fixed(text)] + items, s) <==> StartsWith(s, text) && Matches(items, s[|text|..])
  {
    if StartsWith(s, text) && Matches(items, s[|text|..]) {
      CutMatches(Fixed(text), items, s, |text|);
    }
    if Matches([Fixed(text)] + items, s) {
      var n := MatchIsCut(Fixed(text), items, s);
    }
  }

  lemma ExactlyFirst(chars: Class, k: nat, items: seq<Item>, s: string)
    ensures Matches([Times(chars, k, k)] + items, s)
       <==> |s| >= k && AllIn(chars, s[..k]) && Matches(items, s[k..])
  {
    if |s| >= k && AllIn(chars, s[..k]) && Matches(items, s[k..]) {
      CutMatches(Times(chars, k, k), items, s, k);
    }
    if Matches([Times(chars, k, k)] + items, s) {
      var n := MatchIsCut(Times(chars, k, k), items, s);
    }
  }

  lemma OnlyItem(item: Item, s: string)
    ensures Matches([item], s) <==> Fits(item, s)
  {
    assert [item] + [] == [item] && s[..|s|] == s && s[|s|..] == "";
    if Matches([item] + [], s) {
      var n := MatchIsCut(item, [], s);
      assert n == |s|;
    }
    if Fits(item, s) {
      CutMatches(item, [], s, |s|);
    }
  }

  // ---------------------------------------------------------------- the recognisers

  lemma HexIs(c: char)
    ensures In(HEX, c) <==> IsHexDigit(c)
  {
    assert HEX.ranges[0] == ('0', '9') && HEX.ranges[1] == ('a', 'f');
  }

  lemma AllHex(s: string)
    ensures AllIn(HEX, s) <==> IsHex(s)
  {
    forall i | 0 <= i < |s| ensures In(HEX, s[i]) <==> IsHexDigit(s[i]) {
      HexIs(s[i]);
    }
  }

  /** The scripts' own test for hexadecimal digits that are all zero. */
  predicate OnlyZero(s: string) {
    s != "" && forall c :: c in s ==> c == '0'
  }

  lemma NonzeroHexIs(n: nat, s: string)
    requires n > 0
    ensures IsNonzeroHex(s, n) <==> Matches([Times(HEX, n, n)], s) && !OnlyZero(s)
  {
    OnlyItem(Times(HEX, n, n), s);
    AllHex(s);
    if !AllZeroes(s) {
      var i :| 0 <= i < |s| && s[i] != '0';
      assert s[i] in s;
    }
  }

  lemma Sha40Is(s: string)
    ensures IsSha40(s) <==> Matches(SHA40, s) && !OnlyZero(s)
  {
    NonzeroHexIs(40, s);
  }

  lemma Sha64Is(s: string)
    ensures IsSha64(s) <==> Matches(SHA64, s) && !OnlyZero(s)
  {
    NonzeroHexIs(64, s);
  }

  lemma DigestIs(s: string)
    ensures IsDigest(s) <==> Matches(DIGEST, s) && !OnlyZero(s[if |s| >= 7 then 7 else |s|..])
  {
    FixedFirst("sha256:", [Times(HEX, 64, 64)], s);
    assert DIGEST == [Fixed("sha256:")] + [Times(HEX, 64, 64)];
    if StartsWith(s, "sha256:") {
      Sha64Is(s[7..]);
    }
  }

  lemma DigitsIs(s: string)
    ensures AllIn(DIGITS, s) <==> forall i | 0 <= i < |s| :: IsDigit(s[i])
  {
    assert DIGITS.ranges[0] == ('0', '9');
    forall i | 0 <= i < |s| ensures In(DIGITS, s[i]) <==> IsDigit(s[i]) {
    }
  }

  lemma LowerIs(c: char)
    ensures In(LOWER, c) <==> IsLowerAlnum(c)
    ensures In(LOWER_DASH, c) <==> IsLowerAlnum(c) || c == '-'
  {
    assert LOWER.ranges[0] == ('a', 'z') && LOWER.ranges[1] == ('0', '9');
    assert LOWER_DASH.ranges[0] == ('a', 'z') && LOWER_DASH.ranges[1] == ('0', '9');
    assert LOWER_DASH.ranges[2] == ('-', '-');
  }

  lemma AlnumIs(c: char)
    ensures In(ALNUM, c) <==> IsAlnum(c)
    ensures In(ALNUM_DASH, c) <==> IsAlnum(c) || c == '-'
    ensures In(TAG, c) <==> IsAlnum(c) || c == '.' || c == '_' || c == '-'
  {
    assert ALNUM.ranges[0] == ('A', 'Z') && ALNUM.ranges[1] == ('a', 'z') && ALNUM.ranges[2] == ('0', '9');
    assert ALNUM_DASH.ranges[..3] == ALNUM.ranges && ALNUM_DASH.ranges[3] == ('-', '-');
    assert TAG.ranges[..3] == ALNUM.ranges && TAG.ranges[3] == ('.', '.') && TAG.ranges[4] == ('_', '_');
    assert TAG.ranges[5] == ('-', '-');
  }

  lemma JobNameIs(s: string)
    ensures IsJobName(s) <==> Matches(MIGRATION_JOB_NAME, s)
  {
    var last := [Times(HEX, 24, 24)];
    var dashed := [Fixed("-")] + last;
    var digest := [Times(HEX, 12, 12)] + dashed;
    assert MIGRATION_JOB_NAME == [Fixed("devpath-flyway-migrate-")] + digest;
    FixedFirst("devpath-flyway-migrate-", digest, s);
    if StartsWith(s, "devpath-flyway-migrate-") {
      var t := s[23..];
      ExactlyFirst(HEX, 12, dashed, t);
      if |t| >= 12 {
        FixedFirst("-", last, t[12..]);
        AllHex(t[..12]);
        if |t| > 12 {
          var u := t[12..][1..];
          OnlyItem(Times(HEX, 24, 24), u);
          AllHex(u);
          assert |s| == 60 ==> JobDigestPart(s) == t[..12] && JobReleasePart(s) == u;
          assert (t[12..][..1] == "-") == (s[35] == '-');
        }
      }
    }
  }

  lemma ReleaseIdIs(s: string)
    ensures IsReleaseId(s) <==> Matches(RELEASE_ID, s)
  {
    var last := [Times(LOWER_DASH, 2, 40)];
    var head := [Times(LOWER, 1, 1)] + last;
    var dashed := [Fixed("-")] + head;
    var date := [Times(DIGITS, 8, 8)] + dashed;
    assert RELEASE_ID == [Fixed("ms-")] + date;
    FixedFirst("ms-", date, s);
    if StartsWith(s, "ms-") {
      ReleaseTailIs(s[3..], last, head, dashed);
    }
  }

  /** What follows the date of a release id. */
  predicate NameTail(u: string) {
    && 4 <= |u| <= 42 && u[0] == '-' && IsLowerAlnum(u[1])
    && forall i | 2 <= i < |u| :: IsLowerAlnum(u[i]) || u[i] == '-'
  }

  lemma NameTailIs(u: string, head: seq<Item>)
    requires head == [Times(LOWER, 1, 1)] + [Times(LOWER_DASH, 2, 40)]
    ensures Matches([Fixed("-")] + head, u) <==> NameTail(u)
  {
    FixedFirst("-", head, u);
    if |u| >= 1 {
      assert StartsWith(u, "-") <==> u[0] == '-';
      NameIs(u[1..]);
      assert forall i | 1 <= i < |u| :: u[i] == u[1..][i - 1];
    }
  }

  lemma ReleaseTailIs(t: string, last: seq<Item>, head: seq<Item>, dashed: seq<Item>)
    requires last == [Times(LOWER_DASH, 2, 40)] && head == [Times(LOWER, 1, 1)] + last && dashed == [Fixed("-")] + head
    ensures Matches([Times(DIGITS, 8, 8)] + dashed, t)
       <==> |t| >= 8 && (forall i | 0 <= i < 8 :: IsDigit(t[i])) && NameTail(t[8..])
  {
    ExactlyFirst(DIGITS, 8, dashed, t);
    if |t| >= 8 {
      DigitsIs(t[..8]);
      NameTailIs(t[8..], head);
    }
  }

  lemma NameIs(s: string)
    ensures Matches([Times(LOWER, 1, 1)] + [Times(LOWER_DASH, 2, 40)], s)
       <==> && 3 <= |s| <= 41 && IsLowerAlnum(s[0])
            && forall i | 1 <= i < |s| :: IsLowerAlnum(s[i]) || s[i] == '-'
  {
    ExactlyFirst(LOWER, 1, [Times(LOWER_DASH, 2, 40)], s);
    if |s| >= 1 {
      OnlyItem(Times(LOWER_DASH, 2, 40), s[1..]);
      LowerIs(s[0]);
      forall i | 1 <= i < |s| ensures In(LOWER_DASH, s[1..][i - 1]) <==> IsLowerAlnum(s[i]) || s[i] == '-' {
        LowerIs(s[i]);
      }
    }
  }

  lemma SafeTagIs(s: string)
    ensures IsSafeTag(s) <==> Matches(SAFE_TAG, s)
  {
    ExactlyFirst(ALNUM, 1, [Times(TAG, 0, 127)], s);
    assert SAFE_TAG == [Times(ALNUM, 1, 1)] + [Times(TAG, 0, 127)];
    if |s| >= 1 {
      OnlyItem(Times(TAG, 0, 127), s[1..]);
      AlnumIs(s[0]);
      forall i | 1 <= i < |s|
        ensures In(TAG, s[1..][i - 1]) <==> IsAlnum(s[i]) || s[i] == '.' || s[i] == '_' || s[i] == '-'
      {
        AlnumIs(s[i]);
      }
    }
  }

  lemma PositiveIs(s: string)
    ensures PositiveDecimal(s).Some? <==> Matches(POSITIVE_INTEGER, s)
    ensures PositiveDecimal(s).Some? ==> PositiveDecimal(s).value == NatValue(s)
  {
    ExactlyFirst(NONZERO, 1, [Times(DIGITS, 0, 19)], s);
    assert POSITIVE_INTEGER == [Times(NONZERO, 1, 1)] + [Times(DIGITS, 0, 19)];
    assert NONZERO.ranges[0] == ('1', '9');
    if |s| >= 1 {
      OnlyItem(Times(DIGITS, 0, 19), s[1..]);
      DigitsIs(s[1..]);
      assert In(NONZERO, s[0]) <==> '1' <= s[0] <= '9';
      assert forall i | 1 <= i < |s| :: s[i] == s[1..][i - 1];
    }
  }

  lemma LongLogin(s: string)
    ensures Matches(LONG_LOGIN, s) <==> s != "" && IsAlnum(s[0]) && LoginTail(s[1..])
  {
    var last := [Times(ALNUM, 1, 1)];
    var rest := [Times(ALNUM_DASH, 0, 37)] + last;
    assert LONG_LOGIN == [Times(ALNUM, 1, 1)] + rest;
    ExactlyFirst(ALNUM, 1, rest, s);
    if |s| >= 1 {
      AlnumIs(s[0]);
      LoginRest(s[1..]);
    }
  }

  /** What follows the first character of a login of two characters or more. */
  predicate LoginTail(t: string) {
    && 1 <= |t| <= 38 && IsAlnum(t[|t| - 1])
    && forall i | 0 <= i < |t| - 1 :: IsAlnum(t[i]) || t[i] == '-'
  }

  lemma OneOnly(chars: Class, u: string)
    ensures Matches([Times(chars, 1, 1)], u) <==> |u| == 1 && In(chars, u[0])
  {
    OnlyItem(Times(chars, 1, 1), u);
  }

  /** A last item of one character takes the last one. */
  lemma OneLast(item: Item, chars: Class, s: string)
    ensures Matches([item] + [Times(chars, 1, 1)], s)
       <==> s != "" && Fits(item, s[..|s| - 1]) && In(chars, s[|s| - 1])
  {
    if Matches([item] + [Times(chars, 1, 1)], s) {
      var n := MatchIsCut(item, [Times(chars, 1, 1)], s);
      OneOnly(chars, s[n..]);
    }
    if s != "" && Fits(item, s[..|s| - 1]) && In(chars, s[|s| - 1]) {
      OneOnly(chars, s[|s| - 1..]);
      CutMatches(item, [Times(chars, 1, 1)], s, |s| - 1);
    }
  }

  lemma AllAlnumDash(s: string)
    ensures AllIn(ALNUM_DASH, s) <==> forall i | 0 <= i < |s| :: IsAlnum(s[i]) || s[i] == '-'
  {
    forall i | 0 <= i < |s| ensures In(ALNUM_DASH, s[i]) <==> IsAlnum(s[i]) || s[i] == '-' {
      AlnumIs(s[i]);
    }
  }

  lemma LoginRest(t: string)
    ensures Matches([Times(ALNUM_DASH, 0, 37)] + [Times(ALNUM, 1, 1)], t) <==> LoginTail(t)
  {
    OneLast(Times(ALNUM_DASH, 0, 37), ALNUM, t);
    if t != "" {
      var s := t[..|t| - 1];
      AllAlnumDash(s);
      AlnumIs(t[|t| - 1]);
      assert forall i | 0 <= i < |s| :: s[i] == t[i];
    }
  }

  lemma LongIsLogin(s: string)
    requires |s| > 1
    ensures s != "" && IsAlnum(s[0]) && LoginTail(s[1..]) <==> IsLogin(s)
  {
    var t := s[1..];
    assert t[|t| - 1] == s[|s| - 1];
    assert forall i | 0 <= i < |t| :: t[i] == s[i + 1];
    if IsAlnum(s[0]) && LoginTail(t) {
      forall i | 0 <= i < |s| ensures IsAlnum(s[i]) || s[i] == '-' {
        assert i > 0 ==> s[i] == t[i - 1];
      }
    }
  }

  lemma LoginIs(s: string)
    ensures IsLogin(s) <==> Matches(SHORT_LOGIN, s) || Matches(LONG_LOGIN, s)
  {
    OneOnly(ALNUM, s);
    LongLogin(s);
    if |s| == 1 {
      AlnumIs(s[0]);
    } else if |s| > 1 {
      LongIsLogin(s);
    }
  }

  // ---------------------------------------------------------------- instants

  datatype Part = Part(digits: nat, mark: char)

  /** Digits and a mark, again and again. */
  function Parts(parts: seq<Part>): seq<Item> {
    if parts == [] then []
    else [Times(DIGITS, parts[0].digits, parts[0].digits)] + ([Fixed([parts[0].mark])] + Parts(parts[1..]))
  }

  /** ^[0-9]{4}-[0-9]{2}-[0-9]{2}T[0-9]{2}:[0-9]{2}:[0-9]{2}Z$ */
  const UTC_Z := Parts([Part(4, '-'), Part(2, '-'), Part(2, 'T'), Part(2, ':'), Part(2, ':'), Part(2, 'Z')])

  predicate AllDigits(s: string) {
    forall i | 0 <= i < |s| :: IsDigit(s[i])
  }

  /** The parts one after another, without looking for cuts. */
  predicate InParts(parts: seq<Part>, s: string)
    decreases |parts|
  {
    if parts == [] then s == ""
    else
      var n := parts[0].digits;
      |s| > n && AllDigits(s[..n]) && s[n] == parts[0].mark && InParts(parts[1..], s[n + 1..])
  }

  lemma {:induction false} PartsAre(parts: seq<Part>, s: string)
    ensures Matches(Parts(parts), s) <==> InParts(parts, s)
    decreases |parts|
  {
    if parts != [] {
      var (n, mark, rest) := (parts[0].digits, [parts[0].mark], Parts(parts[1..]));
      ExactlyFirst(DIGITS, n, [Fixed(mark)] + rest, s);
      if |s| >= n {
        DigitsIs(s[..n]);
        FixedFirst(mark, rest, s[n..]);
        if |s| > n {
          assert StartsWith(s[n..], mark) <==> s[n] == parts[0].mark;
          assert s[n..][1..] == s[n + 1..];
          PartsAre(parts[1..], s[n + 1..]);
        }
      }
    }
  }

  const MONTHS: seq<int> := [31, 28, 31, 30, 31, 30, 31, 31, 30, 31, 30, 31]

  /** What datetime takes for an instant. */
  predicate IsInstant(y: int, m: int, d: int, hour: int, minute: int, second: int) {
    && 1 <= y <= 9999 && 1 <= m <= 12
    && 1 <= d <= MONTHS[m - 1] + (if m == 2 && (y % 400 == 0 || (y % 4 == 0 && y % 100 != 0)) then 1 else 0)
    && 0 <= hour <= 23 && 0 <= minute <= 59 && 0 <= second <= 59
  }

  /** Digits and marks in their places. */
  predicate UtcShape(s: string) {
    && |s| == 20 && s[4] == '-' && s[7] == '-' && s[10] == 'T' && s[13] == ':' && s[16] == ':' && s[19] == 'Z'
    && forall i | 0 <= i < 19 && i != 4 && i != 7 && i != 10 && i != 13 && i != 16 :: IsDigit(s[i])
  }

  lemma UtcParts(s: string)
    ensures Matches(UTC_Z, s)
       <==> UtcShape(s)
  {
    var p6 := [Part(2, 'Z')];
    var p5 := [Part(2, ':')] + p6;
    var p4 := [Part(2, ':')] + p5;
    var p3 := [Part(2, 'T')] + p4;
    var p2 := [Part(2, '-')] + p3;
    var all := [Part(4, '-')] + p2;
    assert all == [Part(4, '-'), Part(2, '-'), Part(2, 'T'), Part(2, ':'), Part(2, ':'), Part(2, 'Z')];
    PartsAre(all, s);
    PartFirst(Part(4, '-'), p2, s);
    if |s| > 4 {
      DatePart(s[5..], p2, p3, p4, p5, p6);
      UtcPlaces(s);
    }
  }

  lemma PartFirst(part: Part, rest: seq<Part>, s: string)
    ensures InParts([part] + rest, s)
       <==> |s| > part.digits && AllDigits(s[..part.digits]) && s[part.digits] == part.mark
            && InParts(rest, s[part.digits + 1..])
  {
    assert ([part] + rest)[1..] == rest;
  }

  predicate Pair(s: string, i: nat, mark: char) {
    i + 2 < |s| && IsDigit(s[i]) && IsDigit(s[i + 1]) && s[i + 2] == mark
  }

  lemma PairFirst(mark: char, rest: seq<Part>, s: string)
    ensures InParts([Part(2, mark)] + rest, s) <==> Pair(s, 0, mark) && InParts(rest, s[3..])
  {
    PartFirst(Part(2, mark), rest, s);
    if |s| > 2 {
      assert AllDigits(s[..2]) <==> IsDigit(s[0]) && IsDigit(s[1]) by {
        assert s[..2][0] == s[0] && s[..2][1] == s[1];
      }
    }
  }

  /** The five pairs after the year. */
  predicate FivePairs(t: string) {
    && |t| == 15
    && Pair(t, 0, '-') && Pair(t, 3, 'T') && Pair(t, 6, ':') && Pair(t, 9, ':') && Pair(t, 12, 'Z')
  }

  lemma DatePart(t: string, p2: seq<Part>, p3: seq<Part>, p4: seq<Part>, p5: seq<Part>, p6: seq<Part>)
    requires p6 == [Part(2, 'Z')] && p5 == [Part(2, ':')] + p6 && p4 == [Part(2, ':')] + p5
    requires p3 == [Part(2, 'T')] + p4 && p2 == [Part(2, '-')] + p3
    ensures InParts(p2, t) <==> FivePairs(t)
  {
    PairFirst('-', p3, t);
    if |t| >= 3 {
      PairFirst('T', p4, t[3..]);
      if |t| >= 6 {
        TimePart(t[3..][3..], p4, p5, p6);
        PairShift(t);
      }
    }
  }

  predicate ThreePairs(u: string) {
    |u| == 9 && Pair(u, 0, ':') && Pair(u, 3, ':') && Pair(u, 6, 'Z')
  }

  lemma TimePart(u: string, p4: seq<Part>, p5: seq<Part>, p6: seq<Part>)
    requires p6 == [Part(2, 'Z')] && p5 == [Part(2, ':')] + p6 && p4 == [Part(2, ':')] + p5
    ensures InParts(p4, u) <==> ThreePairs(u)
  {
    PairFirst(':', p5, u);
    if |u| >= 3 {
      PairFirst(':', p6, u[3..]);
      if |u| >= 6 {
        assert p6 == [Part(2, 'Z')] + [];
        PairFirst('Z', [], u[3..][3..]);
      }
    }
  }

  lemma PairShift(t: string)
    requires |t| >= 6
    ensures Pair(t, 0, '-') && Pair(t[3..], 0, 'T') && ThreePairs(t[3..][3..]) <==> FivePairs(t)
  {
    var u := t[3..][3..];
    assert forall i | 0 <= i < |u| :: u[i] == t[i + 6];
  }

  lemma UtcPlaces(s: string)
    requires |s| > 4
    ensures AllDigits(s[..4]) && s[4] == '-' && FivePairs(s[5..]) <==> UtcShape(s)
  {
    var t := s[5..];
    assert forall i | 0 <= i < |t| :: t[i] == s[i + 5];
    assert forall i | 0 <= i < 4 :: s[..4][i] == s[i];
  }

  lemma CalendarIs(y: nat, m: nat, d: nat, hour: nat, minute: nat, second: nat)
    requires y <= 9999
    ensures y >= 1 && 1 <= m <= 12 && 1 <= d <= DaysIn(y, m) && hour < 24 && minute < 60 && second < 60
       <==> IsInstant(y, m, d, hour, minute, second)
  {
  }

  /** The instant that twenty characters name. */
  predicate NamesInstant(s: string) {
    && |s| == 20
    && IsInstant(NatValue(s[..4]), NatValue(s[5..7]), NatValue(s[8..10]),
                 NatValue(s[11..13]), NatValue(s[14..16]), NatValue(s[17..19]))
  }

  lemma YearFits(s: string)
    requires UtcShape(s)
    ensures NatValue(s[..4]) <= 9999
  {
    assert forall i | 0 <= i < 4 :: s[..4][i] == s[i];
    FourDigits(s[..4]);
  }

  /** An instant is what the expression matches and the calendar has. */
  lemma UtcIs(s: string)
    ensures IsUtcSeconds(s) <==> Matches(UTC_Z, s) && NamesInstant(s)
  {
    UtcParts(s);
    if UtcShape(s) {
      YearFits(s);
      CalendarIs(NatValue(s[..4]), NatValue(s[5..7]), NatValue(s[8..10]),
                 NatValue(s[11..13]), NatValue(s[14..16]), NatValue(s[17..19]));
    }
  }

  lemma FourDigits(s: string)
    requires |s| == 4 && AllDigits(s)
    ensures NatValue(s) <= 9999
  {
    var (a, b, c) := (s[..3], s[..2], s[..1]);
    assert a[..2] == b && b[..1] == c && c[..0] == "";
    assert NatValue("") == 0;
    assert NatValue(c) <= 9;
    assert NatValue(b) <= 99;
    assert NatValue(a) <= 999;
  }
}
