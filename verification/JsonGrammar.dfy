/** The grammar of JSON texts (sections 2 to 7 of RFC 8259) as trees that are written out with all
    their white space and escapes, and that the parser accepts exactly the texts of these trees. */
module JsonGrammar {
  import opened Results
  import opened Text
  import opened Json
  import opened JsonRoundTrip

  // ---------------------------------------------------------------- white space

  /** Space, horizontal tab, line feed and carriage return. */
  predicate Blank(s: string) {
    forall i | 0 <= i < |s| :: s[i] as int in {0x20, 0x09, 0x0A, 0x0D}
  }

  predicate StartsDark(s: string) {
    s == "" || s[0] as int !in {0x20, 0x09, 0x0A, 0x0D}
  }

  lemma {:induction false} BlankSkipped(blank: string, s: string)
    requires Blank(blank) && StartsDark(s)
    ensures SkipWs(blank + s) == s
  {
    if blank == "" {
      assert blank + s == s;
    } else {
      assert (blank + s)[1..] == blank[1..] + s;
      BlankSkipped(blank[1..], s);
    }
  }

  lemma {:induction false} SkippedIsBlank(s: string) returns (blank: string)
    ensures Blank(blank) && s == blank + SkipWs(s) && StartsDark(SkipWs(s))
  {
    if s != "" && IsWs(s[0]) {
      var tail := SkippedIsBlank(s[1..]);
      blank := [s[0]] + tail;
    } else {
      blank := "";
    }
  }

  // ---------------------------------------------------------------- strings

  /** One character of a string, as it is written. */
  datatype Piece = Plain(c: char) | Short(letter: char) | Escaped(hex: string) | Pair(high: string, low: string)

  /** The meaning of a letter after a backslash. */
  function ShortChar(letter: char): Option<char> {
    if letter == '"' || letter == '\\' || letter == '/' then Some(letter)
    else if letter == 'b' then Some(0x08 as char)
    else if letter == 't' then Some(0x09 as char)
    else if letter == 'n' then Some(0x0A as char)
    else if letter == 'f' then Some(0x0C as char)
    else if letter == 'r' then Some(0x0D as char)
    else None
  }

  /** The digits of hexadecimal numbers, in either case. */
  lemma HexTable(c: char, n: nat)
    requires n < 16
    ensures HexValue(c) == n <==> c == "0123456789abcdef"[n] || c == "0123456789ABCDEF"[n]
  {
  }

  predicate HexText(s: string) {
    |s| == 4 && forall i | 0 <= i < 4 :: HexValue(s[i]) >= 0
  }

  function Code(s: string): (n: nat)
    requires HexText(s)
    ensures n < 0x10000
  {
    HexValue(s[0]) * 0x1000 + HexValue(s[1]) * 0x100 + HexValue(s[2]) * 0x10 + HexValue(s[3])
  }

  predicate GoodPiece(p: Piece) {
    match p
    case Plain(c) => c as int >= 0x20 && c != '"' && c != '\\'
    case Short(letter) => ShortChar(letter).Some?
    case Escaped(hex) => HexText(hex) && !(0xD800 <= Code(hex) < 0xE000)
    case Pair(high, low) => HexText(high) && HexText(low) && 0xD800 <= Code(high) < 0xDC00 <= Code(low) < 0xE000
  }

  /** The character that a piece stands for; any character for one outside the grammar. */
  function CharOf(p: Piece): char {
    match p
    case Plain(c) => c
    case Short(letter) => if GoodPiece(p) then ShortChar(letter).value else ' '
    case Escaped(hex) => if GoodPiece(p) then Code(hex) as char else ' '
    case Pair(high, low) =>
      if GoodPiece(p) then (0x10000 + (Code(high) - 0xD800) * 0x400 + (Code(low) - 0xDC00)) as char else ' '
  }

  function ShowPiece(p: Piece): string {
    match p
    case Plain(c) => [c]
    case Short(letter) => ['\\', letter]
    case Escaped(hex) => "\\u" + hex
    case Pair(high, low) => "\\u" + high + "\\u" + low
  }

  predicate GoodPieces(ps: seq<Piece>) {
    forall i | 0 <= i < |ps| :: GoodPiece(ps[i])
  }

  function CharsOf(ps: seq<Piece>): string {
    if ps == [] then "" else [CharOf(ps[0])] + CharsOf(ps[1..])
  }

  function ShowPieces(ps: seq<Piece>): string {
    if ps == [] then "" else ShowPiece(ps[0]) + ShowPieces(ps[1..])
  }

  function ShowString(ps: seq<Piece>): string {
    "\"" + ShowPieces(ps) + "\""
  }

  lemma Hex4Text(hex: string, rest: string)
    requires HexText(hex)
    ensures ParseHex4(hex + rest) == Code(hex) && (hex + rest)[4..] == rest
  {
  }

  lemma Hex4Split(s: string)
    requires ParseHex4(s) >= 0
    ensures HexText(s[..4]) && Code(s[..4]) == ParseHex4(s)
  {
  }

  lemma PieceRead(p: Piece, rest: string)
    requires GoodPiece(p)
    ensures ShowPiece(p) != "" && ShowPiece(p)[0] != '"' && ParseChar(ShowPiece(p) + rest) == Done(CharOf(p), rest)
  {
    match p
    case Plain(c) =>
      assert ([c] + rest)[1..] == rest;
    case Short(letter) =>
      assert (ShowPiece(p) + rest)[2..] == rest;
    case Escaped(hex) =>
      UnicodeStarts(ShowPiece(p) + rest, hex + rest);
      Hex4Text(hex, rest);
    case Pair(high, low) => PairIsRead(high, low, rest);
  }

  lemma PairIsRead(high: string, low: string, rest: string)
    requires GoodPiece(Pair(high, low))
    ensures ParseChar("\\u" + high + "\\u" + low + rest) == Done(CharOf(Pair(high, low)), rest)
  {
    var t := "\\u" + low + rest;
    assert "\\u" + high + "\\u" + low + rest == "\\u" + (high + t);
    UnicodeStarts("\\u" + high + "\\u" + low + rest, high + t);
    Hex4Text(high, t);
    assert t[2..] == low + rest && t[6..] == rest;
    Hex4Text(low, rest);
  }

  lemma UnicodeWritten(s: string) returns (p: Piece)
    requires ParseUnicode(s).Done?
    ensures GoodPiece(p) && (p.Escaped? || p.Pair?)
    ensures "\\u" + s == ShowPiece(p) + ParseUnicode(s).rest && CharOf(p) == ParseUnicode(s).value
  {
    Hex4Split(s);
    if IsHigh(ParseHex4(s)) {
      var t := s[4..];
      Hex4Split(t[2..]);
      p := Pair(s[..4], t[2..][..4]);
      assert t == "\\u" + t[2..][..4] + t[6..];
      assert s == s[..4] + t;
    } else {
      p := Escaped(s[..4]);
      assert s == s[..4] + s[4..];
    }
  }

  lemma PieceWritten(s: string) returns (p: Piece)
    requires s != "" && s[0] != '"' && ParseChar(s).Done?
    ensures GoodPiece(p) && s == ShowPiece(p) + ParseChar(s).rest && CharOf(p) == ParseChar(s).value
  {
    if s[0] != '\\' {
      p := Plain(s[0]);
    } else if s[1] == 'u' {
      p := UnicodeWritten(s[2..]);
      assert s == "\\u" + s[2..];
    } else {
      p := Short(s[1]);
      assert s == ['\\', s[1]] + s[2..];
    }
  }

  lemma {:induction false} PiecesRead(ps: seq<Piece>, rest: string)
    requires GoodPieces(ps)
    ensures ParseChars(ShowPieces(ps) + "\"" + rest) == Done(CharsOf(ps), rest)
  {
    var s := ShowPieces(ps) + "\"" + rest;
    if ps == [] {
      assert s == "\"" + rest;
    } else {
      var tail := ShowPieces(ps[1..]) + "\"" + rest;
      assert s == ShowPiece(ps[0]) + tail;
      PieceRead(ps[0], tail);
      PiecesRead(ps[1..], rest);
    }
  }

  lemma CharsThen(s: string, c: char, r: string, cs: string, rest: string)
    requires s != "" && s[0] != '"' && ParseChar(s) == Done(c, r) && ParseChars(r) == Done(cs, rest)
    ensures ParseChars(s) == Done([c] + cs, rest)
  {
  }

  lemma PiecesThen(p: Piece, qs: seq<Piece>, rest: string)
    requires GoodPiece(p) && GoodPieces(qs)
    ensures GoodPieces([p] + qs) && CharsOf([p] + qs) == [CharOf(p)] + CharsOf(qs)
    ensures ShowPieces([p] + qs) + "\"" + rest == ShowPiece(p) + (ShowPieces(qs) + "\"" + rest)
  {
    assert ([p] + qs)[1..] == qs;
  }

  lemma {:induction false} PiecesWritten(s: string) returns (ps: seq<Piece>)
    requires ParseChars(s).Done?
    ensures GoodPieces(ps)
    ensures s == ShowPieces(ps) + "\"" + ParseChars(s).rest && CharsOf(ps) == ParseChars(s).value
    decreases |s|
  {
    if s[0] == '"' {
      ps := [];
      assert s == "\"" + s[1..];
    } else {
      var p := PieceWritten(s);
      var c, r := CharOf(p), ParseChar(s).rest;
      var qs := PiecesWritten(r);
      CharsThen(s, c, r, CharsOf(qs), ParseChars(r).rest);
      PiecesThen(p, qs, ParseChars(r).rest);
      ps := [p] + qs;
    }
  }

  lemma StringIsRead(ps: seq<Piece>, rest: string)
    requires GoodPieces(ps)
    ensures (ShowString(ps) + rest)[0] == '"' && ParseChars((ShowString(ps) + rest)[1..]) == Done(CharsOf(ps), rest)
  {
    assert (ShowString(ps) + rest)[1..] == ShowPieces(ps) + "\"" + rest;
    PiecesRead(ps, rest);
  }

  lemma Opened(s: string, body: string, close: string, rest: string)
    requires s != "" && s[1..] == body + close + rest
    ensures s == [s[0]] + body + close + rest
  {
  }

  lemma StringWritten(s: string) returns (ps: seq<Piece>)
    requires s != "" && s[0] == '"' && ParseChars(s[1..]).Done?
    ensures GoodPieces(ps)
    ensures s == ShowString(ps) + ParseChars(s[1..]).rest && CharsOf(ps) == ParseChars(s[1..]).value
  {
    ps := PiecesWritten(s[1..]);
    Opened(s, ShowPieces(ps), "\"", ParseChars(s[1..]).rest);
  }

  // ---------------------------------------------------------------- numbers

  /** A number: its digits before and after the point, and its exponent; empty parts are not written. */
  datatype Numeral = Numeral(minus: bool, whole: string, fraction: string, mark: char, sign: string, power: string)

  predicate Digits(s: string) {
    forall i | 0 <= i < |s| :: '0' <= s[i] <= '9'
  }

  predicate IsSign(sign: string) {
    sign == "" || sign == "+" || sign == "-"
  }

  predicate GoodNumeral(n: Numeral) {
    && n.whole != "" && Digits(n.whole) && (n.whole[0] == '0' ==> |n.whole| == 1)
    && Digits(n.fraction) && Digits(n.power)
    && (n.mark == 'e' || n.mark == 'E') && IsSign(n.sign)
  }

  function FractionText(n: Numeral): string {
    if n.fraction == "" then "" else "." + n.fraction
  }

  function ExponentText(n: Numeral): string {
    if n.power == "" then "" else [n.mark] + n.sign + n.power
  }

  function UnsignedText(n: Numeral): string {
    n.whole + FractionText(n) + ExponentText(n)
  }

  function ShowNumeral(n: Numeral): string {
    if n.minus then "-" + UnsignedText(n) else UnsignedText(n)
  }

  /** An integer, or the decimal of all digits shifted by the exponent and the fraction's length. */
  function NumeralValue(n: Numeral): Json {
    if n.fraction == "" && n.power == "" then JInt(if n.minus then 0 - NatValue(n.whole) else NatValue(n.whole))
    else
      var digits := NatValue(n.whole + n.fraction);
      var power := if n.sign == "-" then 0 - NatValue(n.power) else NatValue(n.power);
      Decimal(if n.minus then 0 - digits else digits, power - |n.fraction|)
  }

  lemma WholeRead(whole: string, rest: string)
    requires whole != "" && Digits(whole) && (whole[0] == '0' ==> |whole| == 1)
    requires rest == "" || !IsDigit(rest[0])
    ensures ScanWhole(whole + rest) == Scan(whole, rest)
  {
    if whole[0] == '0' {
      assert whole == "0" && (whole + rest)[1..] == rest;
    } else {
      DigitsScanned(whole, rest);
    }
  }

  lemma FractionRead(n: Numeral, rest: string)
    requires GoodNumeral(n) && (rest == "" || (!IsDigit(rest[0]) && rest[0] != '.'))
    ensures ScanFraction(FractionText(n) + rest) == Scan(n.fraction, rest)
  {
    if n.fraction == "" {
      assert FractionText(n) + rest == rest;
    } else {
      assert (FractionText(n) + rest)[1..] == n.fraction + rest;
      DigitsScanned(n.fraction, rest);
    }
  }

  /** An exponent is scanned in its parts. */
  lemma ExponentScanned(s: string, mark: char, sign: string, digits: string, r: Scan)
    requires (mark == 'e' || mark == 'E') && IsSign(sign) && s == [mark] + sign + digits && r == ScanDigits(digits)
    requires sign == "" ==> digits == "" || (digits[0] != '+' && digits[0] != '-')
    ensures ScanExponent(s) == if r.token == "" then Scan("", s) else Scan(sign + r.token, r.rest)
  {
    var t := s[1..];
    assert t == sign + digits;
    if sign != "" {
      assert t[..1] == sign && t[1..] == digits;
    }
  }

  lemma ExponentParts(n: Numeral, rest: string)
    requires n.power != ""
    ensures ExponentText(n) + rest == [n.mark] + n.sign + (n.power + rest)
  {
  }

  lemma ExponentRead(n: Numeral, rest: string)
    requires GoodNumeral(n) && EndsNumber(rest)
    ensures ScanExponent(ExponentText(n) + rest) == Scan(if n.power == "" then "" else n.sign + n.power, rest)
  {
    var s := ExponentText(n) + rest;
    if n.power == "" {
      assert s == rest;
    } else {
      assert ScanDigits(n.power + rest) == Scan(n.power, rest) by {
        DigitsScanned(n.power, rest);
      }
      assert s == [n.mark] + n.sign + (n.power + rest) by {
        ExponentParts(n, rest);
      }
      DigitFirst(n.power, rest);
      ExponentScanned(s, n.mark, n.sign, n.power + rest, Scan(n.power, rest));
    }
  }

  lemma DigitFirst(ds: string, rest: string)
    requires ds != "" && Digits(ds)
    ensures ds + rest != "" && (ds + rest)[0] != '+' && (ds + rest)[0] != '-'
  {
    assert (ds + rest)[0] == ds[0];
  }

  lemma ExponentMeans(n: Numeral)
    requires GoodNumeral(n)
    ensures ExponentValue(if n.power == "" then "" else n.sign + n.power)
         == (if n.sign == "-" then 0 - NatValue(n.power) else NatValue(n.power))
  {
    if n.power == "" {
      assert NatValue("") == 0;
    } else if n.sign == "" {
      assert n.sign + n.power == n.power;
    } else {
      assert (n.sign + n.power)[1..] == n.power;
    }
  }

  lemma UnsignedScanned(s: string, minus: bool, whole: Scan, fraction: Scan, exponent: Scan)
    requires ScanWhole(s) == whole && ScanFraction(whole.rest) == fraction && ScanExponent(fraction.rest) == exponent
    requires whole.token != ""
    ensures ParseUnsigned(s, minus)
         == if fraction.token == "" && exponent.token == ""
            then Done(JInt(Signed(NatValue(whole.token), minus)), whole.rest)
            else Done(FloatValue(whole.token, fraction.token, exponent.token, minus), exponent.rest)
  {
  }

  lemma ValueOfScans(n: Numeral)
    requires GoodNumeral(n)
    ensures var exponent := if n.power == "" then "" else n.sign + n.power;
      && (exponent == "" <==> n.power == "")
      && NumeralValue(n)
           == if n.fraction == "" && n.power == "" then JInt(Signed(NatValue(n.whole), n.minus))
              else FloatValue(n.whole, n.fraction, exponent, n.minus)
  {
    ExponentMeans(n);
  }

  lemma UnsignedIsRead(n: Numeral, rest: string)
    requires GoodNumeral(n) && EndsNumber(rest)
    ensures ParseUnsigned(UnsignedText(n) + rest, n.minus) == Done(NumeralValue(n), rest)
  {
    var exponent := ExponentText(n) + rest;
    var fraction := FractionText(n) + exponent;
    var power := if n.power == "" then "" else n.sign + n.power;
    assert UnsignedText(n) + rest == n.whole + fraction;
    WholeRead(n.whole, fraction);
    FractionRead(n, exponent);
    ExponentRead(n, rest);
    ValueOfScans(n);
    UnsignedScanned(n.whole + fraction, n.minus, Scan(n.whole, fraction), Scan(n.fraction, exponent),
                    Scan(power, rest));
    if n.fraction == "" && n.power == "" {
      assert fraction == rest;
    }
  }

  lemma UnsignedHead(n: Numeral, rest: string)
    requires GoodNumeral(n)
    ensures UnsignedText(n) + rest != "" && IsDigit((UnsignedText(n) + rest)[0])
  {
    assert (UnsignedText(n) + rest)[0] == n.whole[0];
  }

  lemma NumeralRead(n: Numeral, rest: string)
    requires GoodNumeral(n) && EndsNumber(rest)
    ensures ParseValue(ShowNumeral(n) + rest) == Done(NumeralValue(n), rest)
  {
    UnsignedIsRead(n, rest);
    if n.minus {
      MinusReads(UnsignedText(n), rest, NumeralValue(n));
    } else {
      UnsignedHead(n, rest);
      DigitStarts(UnsignedText(n) + rest);
    }
  }

  lemma DigitsCons(c: char, s: string)
    requires IsDigit(c) && Digits(s)
    ensures Digits([c] + s)
  {
  }

  lemma {:induction false} ScannedDigits(s: string)
    ensures Digits(ScanDigits(s).token) && s == ScanDigits(s).token + ScanDigits(s).rest
  {
    if s != "" && IsDigit(s[0]) {
      var r := ScanDigits(s[1..]);
      ScannedDigits(s[1..]);
      DigitsCons(s[0], r.token);
      assert s == [s[0]] + s[1..];
      Regrouped([s[0]], r.token, r.rest);
      assert ScanDigits(s) == Scan([s[0]] + r.token, r.rest);
    }
  }

  lemma ScannedWhole(s: string)
    ensures var r := ScanWhole(s);
      Digits(r.token) && s == r.token + r.rest && (r.token != "" && r.token[0] == '0' ==> |r.token| == 1)
  {
    if s != "" && s[0] == '0' {
      assert s == "0" + s[1..];
    } else {
      ScannedDigits(s);
    }
  }

  lemma ScannedFraction(s: string)
    ensures var r := ScanFraction(s);
      Digits(r.token) && s == (if r.token == "" then "" else "." + r.token) + r.rest
  {
    if s != "" && s[0] == '.' {
      ScannedDigits(s[1..]);
      assert s == "." + s[1..];
    }
  }

  /** The sign of an exponent, and what follows it. */
  lemma SignSplit(t: string) returns (sign: string, digits: string)
    ensures IsSign(sign) && t == sign + digits
    ensures sign == "" ==> digits == "" || (digits[0] != '+' && digits[0] != '-')
  {
    if t != "" && (t[0] == '+' || t[0] == '-') {
      sign, digits := [t[0]], t[1..];
    } else {
      sign, digits := "", t;
    }
  }

  lemma Headed(s: string, sign: string, digits: string)
    requires s != "" && s[1..] == sign + digits
    ensures s == [s[0]] + sign + digits
  {
  }

  lemma NoExponent(s: string)
    requires s == "" || (s[0] != 'e' && s[0] != 'E')
    ensures ScanExponent(s) == Scan("", s)
  {
  }

  /** The parts of an exponent. */
  lemma ScannedExponent(s: string) returns (mark: char, sign: string, power: string)
    ensures (mark == 'e' || mark == 'E') && IsSign(sign) && Digits(power)
    ensures ScanExponent(s).token == if power == "" then "" else sign + power
    ensures s == (if power == "" then "" else [mark] + sign + power) + ScanExponent(s).rest
  {
    mark, sign, power := 'e', "", "";
    if s == "" || (s[0] != 'e' && s[0] != 'E') {
      NoExponent(s);
    } else {
      var digits;
      mark := s[0];
      sign, digits := SignSplit(s[1..]);
      var r := ScanDigits(digits);
      Headed(s, sign, digits);
      ExponentScanned(s, mark, sign, digits, r);
      ScannedDigits(digits);
      power := r.token;
      if power != "" {
        Regrouped([mark] + sign, power, r.rest);
      }
    }
  }

  lemma NumeralWritten(s: string, minus: bool) returns (n: Numeral)
    requires ParseUnsigned(s, minus).Done?
    ensures GoodNumeral(n) && n.minus == minus
    ensures s == UnsignedText(n) + ParseUnsigned(s, minus).rest && NumeralValue(n) == ParseUnsigned(s, minus).value
  {
    var whole := ScanWhole(s);
    var fraction := ScanFraction(whole.rest);
    ScannedWhole(s);
    ScannedFraction(whole.rest);
    var mark, sign, power := ScannedExponent(fraction.rest);
    n := Numeral(minus, whole.token, fraction.token, mark, sign, power);
    UnsignedScanned(s, minus, whole, fraction, ScanExponent(fraction.rest));
    ValueOfScans(n);
    Spelled(n, s, whole.rest, fraction.rest, ScanExponent(fraction.rest).rest);
  }

  lemma Spelled(n: Numeral, s: string, a: string, b: string, c: string)
    requires s == n.whole + a && a == FractionText(n) + b && b == ExponentText(n) + c
    ensures s == UnsignedText(n) + c
    ensures n.fraction == "" && n.power == "" ==> a == c
  {
  }

  // ---------------------------------------------------------------- trees

  /** An element of an array with the white space around it. */
  datatype Item = Item(before: string, tree: Tree, after: string)

  /** A member of an object with the white space around its key, its colon and its value. */
  datatype Entry = Entry(before: string, key: seq<Piece>, mid: string, mid': string, tree: Tree, after: string)

  datatype Tree =
    | Word(value: Json)
    | Number(n: Numeral)
    | Text(pieces: seq<Piece>)
    | EmptyArray(inner: string)
    | Array(items: seq<Item>)
    | EmptyObject(inner: string)
    | Object(entries: seq<Entry>)

  function Show(t: Tree): string
    decreases t, 1
  {
    match t
    case Word(v) => if v == JNull then "null" else if v == JBool(true) then "true" else "false"
    case Number(n) => ShowNumeral(n)
    case Text(ps) => ShowString(ps)
    case EmptyArray(inner) => "[" + inner + "]"
    case Array(items) => "[" + ShowItems(items) + "]"
    case EmptyObject(inner) => "{" + inner + "}"
    case Object(entries) => "{" + ShowEntries(entries) + "}"
  }

  function ShowItems(items: seq<Item>): string
    decreases items, 0
  {
    if items == [] then ""
    else
      var i := items[0];
      i.before + Show(i.tree) + i.after + (if |items| == 1 then "" else "," + ShowItems(items[1..]))
  }

  function ShowEntries(entries: seq<Entry>): string
    decreases entries, 0
  {
    if entries == [] then ""
    else
      var e := entries[0];
      e.before + ShowString(e.key) + e.mid + ":" + e.mid' + Show(e.tree) + e.after
      + (if |entries| == 1 then "" else "," + ShowEntries(entries[1..]))
  }

  /** A tree of the grammar, with no key twice in an object. */
  predicate Good(t: Tree)
    decreases t, 0
  {
    match t
    case Word(v) => v == JNull || v.JBool?
    case Number(n) => GoodNumeral(n)
    case Text(ps) => GoodPieces(ps)
    case EmptyArray(inner) => Blank(inner)
    case Array(items) => items != [] && forall i | 0 <= i < |items| :: GoodItem(items[i])
    case EmptyObject(inner) => Blank(inner)
    case Object(entries) =>
      && entries != [] && (forall i | 0 <= i < |entries| :: GoodEntry(entries[i]))
      && UniqueKeys(MembersOf(entries))
  }

  predicate GoodItem(i: Item)
    decreases i, 0
  {
    Blank(i.before) && Blank(i.after) && Good(i.tree)
  }

  predicate GoodEntry(e: Entry)
    decreases e, 0
  {
    && Blank(e.before) && Blank(e.mid) && Blank(e.mid') && Blank(e.after)
    && GoodPieces(e.key) && Good(e.tree)
  }

  predicate GoodItems(items: seq<Item>) {
    forall i | 0 <= i < |items| :: GoodItem(items[i])
  }

  predicate GoodEntries(entries: seq<Entry>) {
    forall i | 0 <= i < |entries| :: GoodEntry(entries[i])
  }

  /** The value that a tree stands for. */
  function ValueOf(t: Tree): Json
    decreases t, 1
  {
    match t
    case Word(v) => v
    case Number(n) => NumeralValue(n)
    case Text(ps) => JStr(CharsOf(ps))
    case EmptyArray(_) => JArr([])
    case Array(items) => JArr(ElementsOf(items))
    case EmptyObject(_) => JObj([])
    case Object(entries) => JObj(MembersOf(entries))
  }

  function ElementsOf(items: seq<Item>): seq<Json>
    decreases items, 0
  {
    if items == [] then [] else [ValueOf(items[0].tree)] + ElementsOf(items[1..])
  }

  function MembersOf(entries: seq<Entry>): seq<Member>
    decreases entries, 0
  {
    if entries == [] then []
    else [Member(CharsOf(entries[0].key), ValueOf(entries[0].tree))] + MembersOf(entries[1..])
  }

  // ---------------------------------------------------------------- every tree is read

  /** The first character of a tree's text. */
  predicate Dark(c: char) {
    c as int > 0x20 && c as int < 0x80 && c != ']' && c != '}' && c != ','
  }

  lemma TreeHead(t: Tree)
    requires Good(t)
    ensures Show(t) != "" && Dark(Show(t)[0])
  {
    if t.Number? {
      UnsignedHead(t.n, "");
      assert UnsignedText(t.n) + "" == UnsignedText(t.n);
    }
  }

  predicate Closes(tail: string) {
    tail != "" && (tail[0] == ',' || tail[0] == ']' || tail[0] == '}')
  }

  lemma BlankEnds(blank: string, tail: string)
    requires Blank(blank) && Closes(tail)
    ensures EndsNumber(blank + tail) && SkipWs(blank + tail) == tail
  {
    BlankSkipped(blank, tail);
    if blank != "" {
      assert (blank + tail)[0] == blank[0];
    }
  }

  lemma TreeAfterBlank(blank: string, t: Tree, rest: string)
    requires Blank(blank) && Good(t)
    ensures SkipWs(blank + (Show(t) + rest)) == Show(t) + rest
    ensures Show(t) + rest != "" && Dark((Show(t) + rest)[0])
  {
    TreeHead(t);
    assert (Show(t) + rest)[0] == Show(t)[0];
    BlankSkipped(blank, Show(t) + rest);
  }

  lemma EmptiesRead(inner: string, rest: string)
    requires Blank(inner)
    ensures ParseValue("[" + inner + "]" + rest) == Done(JArr([]), rest)
    ensures ParseValue("{" + inner + "}" + rest) == Done(JObj([]), rest)
  {
    var s, t := "[" + inner + "]" + rest, "{" + inner + "}" + rest;
    assert s[1..] == inner + ("]" + rest) && t[1..] == inner + ("}" + rest);
    BlankSkipped(inner, "]" + rest);
    BlankSkipped(inner, "}" + rest);
    ArrayStarts(s, "]" + rest, [], rest);
    ObjectStarts(t, "}" + rest, [], rest);
  }

  lemma TextRead(ps: seq<Piece>, rest: string)
    requires GoodPieces(ps)
    ensures ParseValue(ShowString(ps) + rest) == Done(JStr(CharsOf(ps)), rest)
  {
    StringIsRead(ps, rest);
    StringStarts(ShowString(ps) + rest, CharsOf(ps), rest);
  }

  lemma Bracketed(open: char, body: string, close: string, rest: string)
    ensures ([open] + body + close + rest)[1..] == body + close + rest
  {
  }

  /** Every tree is read as its value, whatever follows it, and nothing more is taken. */
  lemma {:induction false} TreeRead(t: Tree, rest: string)
    requires Good(t) && EndsNumber(rest)
    ensures ParseValue(Show(t) + rest) == Done(ValueOf(t), rest)
    decreases t, 1
  {
    match t
    case Word(v) => WordRead(v, rest);
    case Number(n) => NumeralRead(n, rest);
    case Text(ps) => TextRead(ps, rest);
    case EmptyArray(inner) => EmptiesRead(inner, rest);
    case Array(items) =>
      var s := "[" + ShowItems(items) + "]" + rest;
      Bracketed('[', ShowItems(items), "]", rest);
      ItemsRead(items, rest);
      ArrayStarts(s, SkipWs(s[1..]), ElementsOf(items), rest);
    case EmptyObject(inner) => EmptiesRead(inner, rest);
    case Object(entries) =>
      var s := "{" + ShowEntries(entries) + "}" + rest;
      Bracketed('{', ShowEntries(entries), "}", rest);
      EntriesRead(entries, rest);
      ObjectStarts(s, SkipWs(s[1..]), MembersOf(entries), rest);
  }

  /** The first element and what follows it. */
  lemma ItemsSplit(items: seq<Item>, rest: string) returns (tail: string)
    requires items != []
    ensures ShowItems(items) + "]" + rest
         == items[0].before + (Show(items[0].tree) + (items[0].after + tail))
    ensures tail == if |items| == 1 then "]" + rest else "," + (ShowItems(items[1..]) + "]" + rest)
  {
    tail := if |items| == 1 then "]" + rest else "," + (ShowItems(items[1..]) + "]" + rest);
  }

  lemma {:induction false} ItemsRead(items: seq<Item>, rest: string)
    requires items != [] && GoodItems(items)
    ensures var u := SkipWs(ShowItems(items) + "]" + rest);
      u != "" && u[0] != ']' && ParseElements(u) == Done(ElementsOf(items), rest)
    decreases items, 0
  {
    var i := items[0];
    var tail := ItemsSplit(items, rest);
    TreeAfterBlank(i.before, i.tree, i.after + tail);
    BlankEnds(i.after, tail);
    TreeRead(i.tree, i.after + tail);
    if |items| == 1 {
      assert tail[1..] == rest;
      assert ElementsOf(items[1..]) == [];
    } else {
      assert tail[1..] == ShowItems(items[1..]) + "]" + rest;
      ItemsRead(items[1..], rest);
    }
    ElementThen(Show(i.tree) + (i.after + tail), ValueOf(i.tree), i.after + tail, tail, ElementsOf(items[1..]), rest);
  }

  lemma MemberIs(s: string, key: string, a: string, b: string, v: Json, rest: string)
    requires s != "" && s[0] == '"' && ParseChars(s[1..]) == Done(key, a)
    requires SkipWs(a) == b && b != "" && b[0] == ':' && ParseValue(SkipWs(b[1..])) == Done(v, rest)
    ensures ParseMember(s) == Done(Member(key, v), rest)
  {
  }

  lemma EntryJoined(e: Entry, more: string, close: string)
    ensures e.before + ShowString(e.key) + e.mid + ":" + e.mid' + Show(e.tree) + e.after + more + close
         == e.before + (ShowString(e.key) + (e.mid + (":" + (e.mid' + (Show(e.tree) + (e.after + (more + close)))))))
  {
  }

  /** The first member and what follows it. */
  lemma EntriesSplit(entries: seq<Entry>, rest: string) returns (tail: string)
    requires entries != []
    ensures var e := entries[0];
      ShowEntries(entries) + "}" + rest
        == e.before + (ShowString(e.key) + (e.mid + (":" + (e.mid' + (Show(e.tree) + (e.after + tail))))))
    ensures tail == if |entries| == 1 then "}" + rest else "," + (ShowEntries(entries[1..]) + "}" + rest)
  {
    var more := if |entries| == 1 then "" else "," + ShowEntries(entries[1..]);
    tail := more + ("}" + rest);
    EntryJoined(entries[0], more, "}" + rest);
    Regrouped(ShowEntries(entries), "}", rest);
    Regrouped(",", ShowEntries(entries[1..]), "}" + rest);
    Regrouped(ShowEntries(entries[1..]), "}", rest);
  }

  lemma EntryRead(e: Entry, u: string)
    requires GoodEntry(e) && EndsNumber(u) && ParseValue(Show(e.tree) + u) == Done(ValueOf(e.tree), u)
    ensures ParseMember(ShowString(e.key) + (e.mid + (":" + (e.mid' + (Show(e.tree) + u)))))
         == Done(Member(CharsOf(e.key), ValueOf(e.tree)), u)
  {
    var b := ":" + (e.mid' + (Show(e.tree) + u));
    var s := ShowString(e.key) + (e.mid + b);
    StringIsRead(e.key, e.mid + b);
    BlankSkipped(e.mid, b);
    assert b[1..] == e.mid' + (Show(e.tree) + u);
    TreeAfterBlank(e.mid', e.tree, u);
    MemberIs(s, CharsOf(e.key), e.mid + b, b, ValueOf(e.tree), u);
  }

  lemma KeyAfterBlank(blank: string, ps: seq<Piece>, rest: string)
    requires Blank(blank)
    ensures ShowString(ps) + rest != "" && (ShowString(ps) + rest)[0] == '"'
    ensures SkipWs(blank + (ShowString(ps) + rest)) == ShowString(ps) + rest
  {
    BlankSkipped(blank, ShowString(ps) + rest);
  }

  lemma {:induction false} EntriesRead(entries: seq<Entry>, rest: string)
    requires entries != [] && GoodEntries(entries)
    ensures var u := SkipWs(ShowEntries(entries) + "}" + rest);
      u != "" && u[0] != '}' && ParseMembers(u) == Done(MembersOf(entries), rest)
    decreases entries, 0
  {
    var e := entries[0];
    var tail := EntriesSplit(entries, rest);
    var u := e.mid + (":" + (e.mid' + (Show(e.tree) + (e.after + tail))));
    KeyAfterBlank(e.before, e.key, u);
    BlankEnds(e.after, tail);
    TreeRead(e.tree, e.after + tail);
    EntryRead(e, e.after + tail);
    if |entries| == 1 {
      assert tail[1..] == rest;
      assert MembersOf(entries[1..]) == [];
    } else {
      assert tail[1..] == ShowEntries(entries[1..]) + "}" + rest;
      EntriesRead(entries[1..], rest);
    }
    MemberThen(ShowString(e.key) + u, Member(CharsOf(e.key), ValueOf(e.tree)), e.after + tail, tail,
               MembersOf(entries[1..]), rest);
  }

  // ---------------------------------------------------------------- what is read is a tree

  lemma WordWritten(s: string) returns (t: Tree)
    requires ParseValue(s).Done? && (s[0] == 'n' || s[0] == 't' || s[0] == 'f')
    ensures Good(t) && s == Show(t) + ParseValue(s).rest && ValueOf(t) == ParseValue(s).value
  {
    t := Word(if s[0] == 'n' then JNull else JBool(s[0] == 't'));
  }

  lemma OtherStarts(s: string)
    requires s != "" && StartOf(s[0]) == OtherStart
    ensures ParseValue(s) == ParseUnsigned(s, false)
  {
  }

  lemma NumeralShown(n: Numeral, s: string, rest: string)
    requires s != "" && n.minus == (s[0] == '-') && (if n.minus then s[1..] else s) == UnsignedText(n) + rest
    ensures s == ShowNumeral(n) + rest
  {
    if n.minus {
      assert s == "-" + s[1..];
      Regrouped("-", UnsignedText(n), rest);
    }
  }

  lemma NumberWritten(s: string) returns (n: Numeral)
    requires ParseValue(s).Done? && (StartOf(s[0]) == MinusStart || StartOf(s[0]) == OtherStart)
    ensures GoodNumeral(n) && s == ShowNumeral(n) + ParseValue(s).rest && NumeralValue(n) == ParseValue(s).value
  {
    if s[0] == '-' {
      MinusStarts(s);
      n := NumeralWritten(s[1..], true);
    } else {
      OtherStarts(s);
      n := NumeralWritten(s, false);
    }
    NumeralShown(n, s, ParseValue(s).rest);
  }

  lemma TextWritten(s: string) returns (t: Tree)
    requires ParseValue(s).Done? && s[0] == '"'
    ensures Good(t) && s == Show(t) + ParseValue(s).rest && ValueOf(t) == ParseValue(s).value
  {
    var ps := StringWritten(s);
    t := Text(ps);
  }

  /** Whatever is read is the text of a tree. */
  lemma {:induction false} TreeWritten(s: string) returns (t: Tree)
    requires ParseValue(s).Done?
    ensures Good(t) && s == Show(t) + ParseValue(s).rest && ValueOf(t) == ParseValue(s).value
    decreases |s|, 3
  {
    if s[0] == '"' {
      t := TextWritten(s);
    } else if s[0] == '[' {
      t := ArrayWritten(s);
    } else if s[0] == '{' {
      t := ObjectWritten(s);
    } else if s[0] == 'n' || s[0] == 't' || s[0] == 'f' {
      t := WordWritten(s);
    } else {
      var n := NumberWritten(s);
      t := Number(n);
    }
  }

  lemma {:induction false} ArrayWritten(s: string) returns (t: Tree)
    requires s != "" && s[0] == '[' && ParseValue(s).Done?
    ensures Good(t) && s == Show(t) + ParseValue(s).rest && ValueOf(t) == ParseValue(s).value
    decreases |s|, 2
  {
    var blank := SkippedIsBlank(s[1..]);
    var u := SkipWs(s[1..]);
    if u[0] == ']' {
      t := EmptyArray(blank);
      assert u == "]" + u[1..];
      Opened(s, blank, "]", u[1..]);
    } else {
      var items := ItemsWritten(blank, u);
      t := Array(items);
      Opened(s, ShowItems(items), "]", ParseElements(u).rest);
    }
  }

  lemma {:induction false} ObjectWritten(s: string) returns (t: Tree)
    requires s != "" && s[0] == '{' && ParseValue(s).Done?
    ensures Good(t) && s == Show(t) + ParseValue(s).rest && ValueOf(t) == ParseValue(s).value
    decreases |s|, 2
  {
    var blank := SkippedIsBlank(s[1..]);
    var u := SkipWs(s[1..]);
    if u[0] == '}' {
      t := EmptyObject(blank);
      assert u == "}" + u[1..];
      Opened(s, blank, "}", u[1..]);
    } else {
      var entries := EntriesWritten(blank, u);
      t := Object(entries);
      Opened(s, ShowEntries(entries), "}", ParseMembers(u).rest);
    }
  }

  lemma ItemsJoin(i: Item, items: seq<Item>)
    requires GoodItem(i) && GoodItems(items)
    ensures GoodItems([i] + items) && ElementsOf([i] + items) == [ValueOf(i.tree)] + ElementsOf(items)
    ensures ShowItems([i] + items)
         == i.before + Show(i.tree) + i.after + (if items == [] then "" else "," + ShowItems(items))
  {
    assert ([i] + items)[1..] == items;
  }

  /** What a parsed list of elements consists of. */
  lemma ElementsThen(s: string, u: string, t: string)
    requires ParseElements(s).Done? && ParseValue(s).Done? && u == ParseValue(s).rest && t == SkipWs(u)
    ensures t != "" && (t[0] == ']' || t[0] == ',')
    ensures t[0] == ']' ==> ParseElements(s) == Done([ParseValue(s).value], t[1..])
    ensures t[0] == ',' ==>
      && ParseElements(SkipWs(t[1..])).Done?
      && ParseElements(s).value == [ParseValue(s).value] + ParseElements(SkipWs(t[1..])).value
      && ParseElements(s).rest == ParseElements(SkipWs(t[1..])).rest
  {
  }

  lemma ItemGlued(before: string, tree: string, after: string, more: string, close: string)
    ensures before + (tree + (after + (more + close))) == before + tree + after + more + close
  {
  }

  lemma CommaGlued(t: string, more: string, close: string, rest: string)
    requires t != "" && t[0] == ',' && t[1..] == more + close + rest
    ensures t == "," + more + (close + rest)
  {
  }

  lemma {:induction false} ItemsWritten(before: string, s: string) returns (items: seq<Item>)
    requires Blank(before) && ParseElements(s).Done?
    ensures items != [] && GoodItems(items)
    ensures before + s == ShowItems(items) + "]" + ParseElements(s).rest && ElementsOf(items) == ParseElements(s).value
    decreases |s|, 4
  {
    var tree := TreeWritten(s);
    var u, rest := ParseValue(s).rest, ParseElements(s).rest;
    var after := SkippedIsBlank(u);
    var t := SkipWs(u);
    var i := Item(before, tree, after);
    ElementsThen(s, u, t);
    if t[0] == ']' {
      ItemsJoin(i, []);
      items := [i] + [];
      assert t == "" + ("]" + rest);
      ItemGlued(before, Show(tree), after, "", "]" + rest);
      Regrouped(ShowItems(items), "]", rest);
    } else {
      var blank := SkippedIsBlank(t[1..]);
      var more := ItemsWritten(blank, SkipWs(t[1..]));
      ItemsJoin(i, more);
      items := [i] + more;
      CommaGlued(t, ShowItems(more), "]", rest);
      ItemGlued(before, Show(tree), after, "," + ShowItems(more), "]" + rest);
      Regrouped(ShowItems(items), "]", rest);
    }
  }

  lemma EntriesJoin(e: Entry, entries: seq<Entry>)
    requires GoodEntry(e) && GoodEntries(entries)
    ensures GoodEntries([e] + entries)
    ensures MembersOf([e] + entries) == [Member(CharsOf(e.key), ValueOf(e.tree))] + MembersOf(entries)
    ensures ShowEntries([e] + entries)
         == e.before + ShowString(e.key) + e.mid + ":" + e.mid' + Show(e.tree) + e.after
            + (if entries == [] then "" else "," + ShowEntries(entries))
  {
    assert ([e] + entries)[1..] == entries;
  }

  /** The text of a member, its value apart. */
  lemma {:induction false} EntryWritten(before: string, s: string) returns (e: Entry, u: string)
    requires Blank(before) && ParseMember(s).Done?
    ensures GoodEntry(e) && e.before == before && u == SkipWs(ParseMember(s).rest)
    ensures s == ShowString(e.key) + (e.mid + (":" + (e.mid' + (Show(e.tree) + (e.after + u)))))
    ensures ParseMember(s).value == Member(CharsOf(e.key), ValueOf(e.tree))
    decreases |s|, 1
  {
    var key := StringWritten(s);
    var a := ParseChars(s[1..]).rest;
    var mid := SkippedIsBlank(a);
    var b := SkipWs(a);
    assert b == ":" + b[1..];
    var mid' := SkippedIsBlank(b[1..]);
    var tree := TreeWritten(SkipWs(b[1..]));
    u := SkipWs(ParseMember(s).rest);
    var after := SkippedIsBlank(ParseMember(s).rest);
    e := Entry(before, key, mid, mid', tree, after);
  }

  /** What a parsed list of members consists of. */
  lemma MembersThen(s: string, t: string)
    requires ParseMembers(s).Done? && ParseMember(s).Done? && t == SkipWs(ParseMember(s).rest)
    ensures t != "" && (t[0] == '}' || t[0] == ',')
    ensures t[0] == '}' ==> ParseMembers(s) == Done([ParseMember(s).value], t[1..])
    ensures t[0] == ',' ==>
      && ParseMembers(SkipWs(t[1..])).Done?
      && ParseMembers(s).value == [ParseMember(s).value] + ParseMembers(SkipWs(t[1..])).value
      && ParseMembers(s).rest == ParseMembers(SkipWs(t[1..])).rest
  {
  }

  lemma {:induction false} EntriesWritten(before: string, s: string) returns (entries: seq<Entry>)
    requires Blank(before) && ParseMembers(s).Done?
    ensures entries != [] && GoodEntries(entries)
    ensures before + s == ShowEntries(entries) + "}" + ParseMembers(s).rest
    ensures MembersOf(entries) == ParseMembers(s).value
    decreases |s|, 2
  {
    var e, t := EntryWritten(before, s);
    var rest := ParseMembers(s).rest;
    MembersThen(s, t);
    if t[0] == '}' {
      EntriesJoin(e, []);
      entries := [e] + [];
      assert t == "" + ("}" + rest);
      EntryJoined(e, "", "}" + rest);
      Regrouped(ShowEntries(entries), "}", rest);
    } else {
      var blank := SkippedIsBlank(t[1..]);
      var more := EntriesWritten(blank, SkipWs(t[1..]));
      EntriesJoin(e, more);
      entries := [e] + more;
      CommaGlued(t, ShowEntries(more), "}", rest);
      EntryJoined(e, "," + ShowEntries(more), "}" + rest);
      Regrouped(ShowEntries(entries), "}", rest);
    }
  }

  // ---------------------------------------------------------------- documents

  /** A text is a tree between white space. */
  predicate IsTextOf(s: string, before: string, t: Tree, after: string) {
    Blank(before) && Blank(after) && Good(t) && s == before + Show(t) + after
  }

  /** A text that is read is one tree between white space. */
  lemma TextIsWritten(s: string) returns (before: string, t: Tree, after: string)
    requires ParseDocument(s).Some?
    ensures IsTextOf(s, before, t, after) && ValueOf(t) == ParseDocument(s).value
  {
    var u := SkipWs(s);
    before := SkippedIsBlank(s);
    t := TreeWritten(u);
    after := SkippedIsBlank(ParseValue(u).rest);
    assert after + "" == after;
    Regrouped(before, Show(t), after);
  }

  lemma TextIsRead(s: string, before: string, t: Tree, after: string)
    requires IsTextOf(s, before, t, after)
    ensures ParseDocument(s) == Some(ValueOf(t))
  {
    Regrouped(before, Show(t), after);
    TreeAfterBlank(before, t, after);
    assert s[0] == if before == "" then (Show(t) + after)[0] else before[0];
    assert EndsNumber(after);
    TreeRead(t, after);
    assert after + "" == after;
    BlankSkipped(after, "");
  }

  /** Main result: the parser accepts exactly the texts of the grammar, each as the value of its tree. */
  lemma DocumentGrammar(s: string, v: Json)
    ensures ParseDocument(s) == Some(v)
       <==> exists before, t, after :: IsTextOf(s, before, t, after) && ValueOf(t) == v
  {
    if ParseDocument(s) == Some(v) {
      var before, t, after := TextIsWritten(s);
    }
    forall before, t, after | IsTextOf(s, before, t, after) && ValueOf(t) == v ensures ParseDocument(s) == Some(v) {
      TextIsRead(s, before, t, after);
    }
  }
}
