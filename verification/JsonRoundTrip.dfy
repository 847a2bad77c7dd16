/** Reading back what was printed, for every printable document. */
module JsonRoundTrip {
  import opened Results
  import opened Text
  import opened Json

  // ---------------------------------------------------------------- strings

  lemma HexDigitRead(n: nat)
    requires n < 16
    ensures HexValue(HexDigit(n)) == n
  {
  }

  lemma Hex4Read(n: nat, rest: string)
    requires n < 0x10000
    ensures ParseHex4(Hex4(n) + rest) == n
    ensures |Hex4(n)| == 4 && (Hex4(n) + rest)[4..] == rest
  {
    HexDigitRead(n / 4096);
    HexDigitRead(n / 256 % 16);
    HexDigitRead(n / 16 % 16);
    HexDigitRead(n % 16);
    assert n / 256 == n / 4096 * 16 + n / 256 % 16;
    assert n / 16 == n / 256 * 16 + n / 16 % 16;
  }

  lemma BmpRead(n: nat, rest: string)
    requires n < 0xD800 || 0xE000 <= n < 0x10000
    ensures ParseUnicode(Hex4(n) + rest) == Done(n as char, rest)
  {
    Hex4Read(n, rest);
  }

  lemma Combined(c: char)
    requires c >= '\U{10000}'
    ensures Combine(HighSurrogate(c), LowSurrogate(c)) == c
  {
  }

  lemma PairRead(high: nat, low: nat, rest: string)
    requires IsHigh(high) && IsLow(low)
    ensures ParseUnicode(Hex4(high) + (UnicodeEscape(low) + rest)) == Done(Combine(high, low), rest)
  {
    var t := UnicodeEscape(low) + rest;
    Hex4Read(high, t);
    Hex4Read(low, rest);
    assert t[2..] == Hex4(low) + rest && t[6..] == rest;
  }

  predicate IsPlain(c: char) {
    c != '"' && c != '\\' && ' ' <= c <= '~'
  }

  predicate IsShort(c: char) {
    c == '"' || c == '\\' || c == '\n' || c == '\r' || c == '\t' || c == '\U{0C}' || c == '\U{08}'
  }

  lemma ShortRead(c: char, rest: string)
    requires IsShort(c)
    ensures |PrintChar(c)| == 2 && PrintChar(c)[0] == '\\'
    ensures ParseChar(PrintChar(c) + rest) == Done(c, rest)
  {
  }

  lemma BmpCharRead(c: char, rest: string)
    requires !IsPlain(c) && !IsShort(c) && c < '\U{10000}'
    ensures PrintChar(c) != "" && PrintChar(c)[0] == '\\'
    ensures ParseChar(PrintChar(c) + rest) == Done(c, rest)
  {
    BmpRead(c as int, rest);
    UnicodeStarts(PrintChar(c) + rest, Hex4(c as int) + rest);
  }

  lemma AstralCharRead(c: char, rest: string)
    requires c >= '\U{10000}'
    ensures PrintChar(c) != "" && PrintChar(c)[0] == '\\'
    ensures ParseChar(PrintChar(c) + rest) == Done(c, rest)
  {
    var high, low := HighSurrogate(c), LowSurrogate(c);
    Combined(c);
    PairRead(high, low, rest);
    PairText(high, low, rest);
    UnicodeStarts(UnicodeEscape(high) + UnicodeEscape(low) + rest, Hex4(high) + (UnicodeEscape(low) + rest));
  }

  lemma PairText(high: nat, low: nat, rest: string)
    requires high < 0x10000 && low < 0x10000
    ensures UnicodeEscape(high) + UnicodeEscape(low) + rest == "\\u" + (Hex4(high) + (UnicodeEscape(low) + rest))
  {
  }

  lemma UnicodeStarts(s: string, t: string)
    requires s == "\\u" + t
    ensures ParseChar(s) == ParseUnicode(t)
  {
  }

  /** Every character, escaped or not, is read back, and is not taken for a closing quote. */
  lemma CharRead(c: char, rest: string)
    ensures PrintChar(c) != "" && PrintChar(c)[0] != '"'
    ensures ParseChar(PrintChar(c) + rest) == Done(c, rest)
  {
    if IsPlain(c) {
      assert PrintChar(c) == [c] && ([c] + rest)[1..] == rest;
    } else if IsShort(c) {
      ShortRead(c, rest);
    } else if c < '\U{10000}' {
      BmpCharRead(c, rest);
    } else {
      AstralCharRead(c, rest);
    }
  }

  lemma {:induction false} CharsRead(text: string, rest: string)
    ensures ParseChars(PrintChars(text) + "\"" + rest) == Done(text, rest)
  {
    var s := PrintChars(text) + "\"" + rest;
    if text == "" {
      assert s == "\"" + rest;
    } else {
      var tail := PrintChars(text[1..]) + "\"" + rest;
      assert s == PrintChar(text[0]) + tail;
      CharRead(text[0], tail);
      CharsRead(text[1..], rest);
      assert text == [text[0]] + text[1..];
    }
  }

  lemma StringRead(text: string, rest: string)
    ensures (PrintString(text) + rest)[0] == '"'
    ensures ParseChars((PrintString(text) + rest)[1..]) == Done(text, rest)
  {
    assert (PrintString(text) + rest)[1..] == PrintChars(text) + "\"" + rest;
    CharsRead(text, rest);
  }

  // ---------------------------------------------------------------- numbers

  /** What may follow a number without being taken for a part of it. */
  predicate EndsNumber(rest: string) {
    rest == "" || (!IsDigit(rest[0]) && rest[0] != '.' && rest[0] != 'e' && rest[0] != 'E')
  }

  lemma {:induction false} DigitsScanned(ds: string, rest: string)
    requires forall i | 0 <= i < |ds| :: IsDigit(ds[i])
    requires rest == "" || !IsDigit(rest[0])
    ensures ScanDigits(ds + rest) == Scan(ds, rest)
  {
    if ds == "" {
      assert ds + rest == rest;
    } else {
      assert (ds + rest)[1..] == ds[1..] + rest;
      DigitsScanned(ds[1..], rest);
      assert ds == [ds[0]] + ds[1..];
    }
  }

  lemma {:induction false} NatPrinted(n: nat)
    ensures PrintNat(n) != ""
    ensures forall i | 0 <= i < |PrintNat(n)| :: IsDigit(PrintNat(n)[i])
    ensures NatValue(PrintNat(n)) == n
    ensures PrintNat(n)[0] == '0' ==> n == 0
  {
    if n >= 10 {
      NatPrinted(n / 10);
      var ds := PrintNat(n);
      assert ds[..|ds| - 1] == PrintNat(n / 10);
      assert PrintNat(n)[0] == PrintNat(n / 10)[0];
    } else {
      assert [Digit(n)][..0] == "";
    }
  }

  lemma NatScanned(n: nat, rest: string)
    requires EndsNumber(rest)
    ensures ScanWhole(PrintNat(n) + rest) == Scan(PrintNat(n), rest)
  {
    NatPrinted(n);
    if n == 0 {
      assert PrintNat(0) == "0" && ("0" + rest)[1..] == rest;
    } else {
      DigitsScanned(PrintNat(n), rest);
    }
  }

  lemma UnsignedRead(n: nat, negative: bool, rest: string)
    requires EndsNumber(rest)
    ensures ParseUnsigned(PrintNat(n) + rest, negative) == Done(JInt(Signed(n, negative)), rest)
  {
    NatPrinted(n);
    NatScanned(n, rest);
  }

  lemma MinusReads(ds: string, rest: string, v: Json)
    requires ParseUnsigned(ds + rest, true) == Done(v, rest)
    ensures ParseValue("-" + ds + rest) == Done(v, rest)
  {
    assert ("-" + ds + rest)[1..] == ds + rest;
    MinusStarts("-" + ds + rest);
  }

  lemma NegativeRead(n: nat, ds: string, rest: string)
    requires EndsNumber(rest) && ds == PrintNat(n)
    ensures ParseValue("-" + ds + rest) == Done(JInt(0 - n), rest)
  {
    assert ParseUnsigned(ds + rest, true) == Done(JInt(0 - n), rest) by {
      UnsignedRead(n, true, rest);
    }
    MinusReads(ds, rest, JInt(0 - n));
  }

  lemma NaturalRead(n: nat, rest: string)
    requires EndsNumber(rest)
    ensures ParseValue(PrintNat(n) + rest) == Done(JInt(n), rest)
  {
    UnsignedRead(n, false, rest);
    NatPrinted(n);
    DigitStarts(PrintNat(n) + rest);
  }

  lemma IntRead(i: int, rest: string)
    requires EndsNumber(rest)
    ensures ParseValue(PrintInt(i) + rest) == Done(JInt(i), rest)
  {
    if i < 0 {
      NegativeRead(-i, PrintNat(-i), rest);
    } else {
      NaturalRead(i, rest);
    }
  }

  lemma DigitStarts(s: string)
    requires s != "" && IsDigit(s[0])
    ensures ParseValue(s) == ParseUnsigned(s, false)
  {
    assert StartOf(s[0]) == OtherStart;
  }

  lemma MinusStarts(s: string)
    requires s != "" && s[0] == '-'
    ensures ParseValue(s) == ParseUnsigned(s[1..], true)
  {
  }

  lemma StringStarts(s: string, text: string, rest: string)
    requires s != "" && s[0] == '"' && ParseChars(s[1..]) == Done(text, rest)
    ensures ParseValue(s) == Done(JStr(text), rest)
  {
  }

  lemma ArrayStarts(s: string, t: string, elements: seq<Json>, rest: string)
    requires s != "" && s[0] == '[' && SkipWs(s[1..]) == t
    requires t != "" && (if t[0] == ']' then elements == [] && rest == t[1..]
                         else ParseElements(t) == Done(elements, rest))
    ensures ParseValue(s) == Done(JArr(elements), rest)
  {
  }

  lemma ObjectStarts(s: string, t: string, members: seq<Member>, rest: string)
    requires s != "" && s[0] == '{' && SkipWs(s[1..]) == t && UniqueKeys(members)
    requires t != "" && (if t[0] == '}' then members == [] && rest == t[1..]
                         else ParseMembers(t) == Done(members, rest))
    ensures ParseValue(s) == Done(JObj(members), rest)
  {
  }

  // ---------------------------------------------------------------- values

  lemma FloatScanned(rest: string)
    requires EndsNumber(rest)
    ensures ScanWhole("1.0" + rest) == Scan("1", ".0" + rest)
    ensures ScanFraction(".0" + rest) == Scan("0", rest) && ScanExponent(rest) == Scan("", rest)
  {
    assert "1.0" + rest == "1" + (".0" + rest);
    DigitsScanned("1", ".0" + rest);
    assert (".0" + rest)[1..] == "0" + rest;
    DigitsScanned("0", rest);
  }

  lemma TenTenths()
    ensures FloatValue("1", "0", "", false) == JFloat(1, 0)
  {
    assert "1" + "0" == "10" && "10"[..1] == "1" && "1"[..0] == "";
    assert NatValue("1") == 1 && NatValue("10") == 10;
    assert Decimal(1, 0) == JFloat(1, 0);
  }

  lemma FloatRead(rest: string)
    requires EndsNumber(rest)
    ensures ParseValue("1.0" + rest) == Done(JFloat(1, 0), rest)
  {
    FloatScanned(rest);
    TenTenths();
    DigitStarts("1.0" + rest);
  }

  lemma WordRead(v: Json, rest: string)
    requires v == JNull || v.JBool?
    ensures ParseValue(Print(v) + rest) == Done(v, rest)
  {
  }

  lemma SkipNone(s: string)
    requires s == "" || !IsWs(s[0])
    ensures SkipWs(s) == s
  {
  }

  /** A printed value starts with none of the characters that close or space a document. */
  lemma PrintHead(v: Json)
    requires Printable(v)
    ensures Print(v) != "" && !IsWs(Print(v)[0]) && Print(v)[0] != ']' && Print(v)[0] != '}'
  {
    if v.JInt? {
      NatPrinted(if v.number < 0 then -v.number else v.number);
      assert v.number >= 0 ==> IsDigit(Print(v)[0]);
    }
  }

  lemma ElementsHead(elements: seq<Json>)
    requires elements != [] && AllPrintable(elements)
    ensures PrintElements(elements) != ""
    ensures !IsWs(PrintElements(elements)[0]) && PrintElements(elements)[0] != ']'
  {
    PrintHead(elements[0]);
  }

  lemma MembersHead(members: seq<Member>)
    requires members != [] && MembersPrintable(members)
    ensures PrintMembers(members) != "" && PrintMembers(members)[0] == '"'
  {
  }

  /** Round trip: parsing a printed value gives it back and leaves the rest untouched. */
  lemma {:induction false} ValueRead(v: Json, rest: string)
    requires Printable(v) && EndsNumber(rest)
    ensures ParseValue(Print(v) + rest) == Done(v, rest)
    decreases v, 1
  {
    match v
    case JInt(i) => IntRead(i, rest);
    case JFloat(_, _) => FloatRead(rest);
    case JStr(text) =>
      StringRead(text, rest);
      StringStarts(Print(v) + rest, text, rest);
    case JArr(elements) => ArrayRead(elements, rest);
    case JObj(members) => ObjectRead(members, rest);
    case _ => WordRead(v, rest);
  }

  lemma {:induction false} ArrayRead(elements: seq<Json>, rest: string)
    requires Printable(JArr(elements))
    ensures ParseValue(Print(JArr(elements)) + rest) == Done(JArr(elements), rest)
    decreases elements, 2
  {
    var s := Print(JArr(elements)) + rest;
    if elements == [] {
      assert s[1..] == "]" + rest;
      SkipNone(s[1..]);
      ArrayStarts(s, s[1..], elements, rest);
    } else {
      var t := PrintElements(elements) + "]" + rest;
      assert s[1..] == t;
      ElementsHead(elements);
      SkipNone(t);
      ElementsRead(elements, rest);
      ArrayStarts(s, t, elements, rest);
    }
  }

  lemma {:induction false} ObjectRead(members: seq<Member>, rest: string)
    requires Printable(JObj(members))
    ensures ParseValue(Print(JObj(members)) + rest) == Done(JObj(members), rest)
    decreases members, 2
  {
    var s := Print(JObj(members)) + rest;
    if members == [] {
      assert s[1..] == "}" + rest;
      SkipNone(s[1..]);
      ObjectStarts(s, s[1..], members, rest);
    } else {
      var t := PrintMembers(members) + "}" + rest;
      assert s[1..] == t;
      MembersHead(members);
      SkipNone(t);
      MembersRead(members, rest);
      ObjectStarts(s, t, members, rest);
    }
  }

  lemma ElementThen(s: string, v: Json, u: string, t: string, vs: seq<Json>, rest: string)
    requires ParseValue(s) == Done(v, u) && SkipWs(u) == t && t != ""
    requires if t[0] == ']' then vs == [] && rest == t[1..]
             else t[0] == ',' && ParseElements(SkipWs(t[1..])) == Done(vs, rest)
    ensures ParseElements(s) == Done([v] + vs, rest)
  {
    assert [v] + [] == [v];
  }

  lemma {:induction false} ElementsRead(elements: seq<Json>, rest: string)
    requires elements != [] && AllPrintable(elements)
    ensures ParseElements(PrintElements(elements) + "]" + rest) == Done(elements, rest)
    decreases elements, 0
  {
    var s := PrintElements(elements) + "]" + rest;
    assert elements == [elements[0]] + elements[1..];
    if |elements| == 1 {
      var t := "]" + rest;
      assert s == Print(elements[0]) + t && t[1..] == rest;
      ValueRead(elements[0], t);
      SkipNone(t);
      ElementThen(s, elements[0], t, t, [], rest);
    } else {
      var u := PrintElements(elements[1..]) + "]" + rest;
      var t := "," + u;
      assert s == Print(elements[0]) + t && t[1..] == u;
      ValueRead(elements[0], t);
      SkipNone(t);
      ElementsHead(elements[1..]);
      SkipNone(u);
      ElementsRead(elements[1..], rest);
      ElementThen(s, elements[0], t, t, elements[1..], rest);
    }
  }

  lemma {:induction false} MemberRead(m: Member, rest: string)
    requires Printable(m.value) && EndsNumber(rest)
    ensures ParseMember(PrintMember(m) + rest) == Done(m, rest)
    decreases m, 0
  {
    var u := Print(m.value) + rest;
    var t := ":" + u;
    assert PrintMember(m) + rest == PrintString(m.key) + t && t[1..] == u;
    StringRead(m.key, t);
    SkipNone(t);
    PrintHead(m.value);
    SkipNone(u);
    ValueRead(m.value, rest);
  }

  lemma MemberThen(s: string, m: Member, u: string, t: string, ms: seq<Member>, rest: string)
    requires ParseMember(s) == Done(m, u) && SkipWs(u) == t && t != ""
    requires if t[0] == '}' then ms == [] && rest == t[1..]
             else t[0] == ',' && ParseMembers(SkipWs(t[1..])) == Done(ms, rest)
    ensures ParseMembers(s) == Done([m] + ms, rest)
  {
    assert [m] + [] == [m];
  }

  lemma Assoc(a: string, b: string, c: string, d: string)
    ensures a + "," + b + c + d == a + ("," + (b + c + d))
  {
  }

  lemma {:induction false} MembersRead(members: seq<Member>, rest: string)
    requires members != [] && MembersPrintable(members)
    ensures ParseMembers(PrintMembers(members) + "}" + rest) == Done(members, rest)
    decreases members, 0
  {
    var m := members[0];
    if |members| == 1 {
      var t := "}" + rest;
      assert PrintMembers(members) + "}" + rest == PrintMember(m) + t && t[1..] == rest;
      MemberRead(m, t);
      SkipNone(t);
      MemberThen(PrintMember(m) + t, m, t, t, [], rest);
      assert members == [m] + [];
    } else {
      var ms := members[1..];
      var u := PrintMembers(ms) + "}" + rest;
      var t := "," + u;
      Assoc(PrintMember(m), PrintMembers(ms), "}", rest);
      assert t[1..] == u;
      MemberRead(m, t);
      SkipNone(t);
      MembersHead(ms);
      SkipNone(u);
      MembersRead(ms, rest);
      MemberThen(PrintMember(m) + t, m, t, t, ms, rest);
      assert members == [m] + ms;
    }
  }

  // ---------------------------------------------------------------- documents

  /** A canonical document reads back as the value it was printed for. */
  lemma DocumentRead(v: Json)
    requires Printable(v)
    ensures ParseDocument(Canonical(v)) == Some(v)
  {
    PrintHead(v);
    SkipNone(Canonical(v));
    ValueRead(v, "\n");
    assert SkipWs("\n"[1..]) == "";
    HeadIsAscii(v);
  }

  lemma HeadIsAscii(v: Json)
    requires Printable(v)
    ensures Print(v) != "" && Print(v)[0] < '\U{80}'
  {
    if v.JInt? {
      NatPrinted(if v.number < 0 then -v.number else v.number);
      assert v.number >= 0 ==> IsDigit(Print(v)[0]);
    }
  }

  /** Printing is injective, so a canonical document has one spelling only. */
  lemma CanonicalInjective(v: Json, w: Json)
    requires Printable(v) && Printable(w) && Canonical(v) == Canonical(w)
    ensures v == w
  {
    DocumentRead(v);
    DocumentRead(w);
  }
}
