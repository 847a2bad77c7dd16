/** JSON documents as the release scripts read and print them: json.loads with unique keys, and
    json.dumps with ASCII escapes and no spaces (sections 2 to 7 of RFC 8259). */
module Json {
  import opened Results
  import opened Text

  datatype Member = Member(key: string, value: Json)

  /** Objects keep the order of their members. A float is the exact
      decimal of its numeral, digits * 10^scale with no trailing zero in digits. */
  datatype Json =
    | JNull
    | JBool(flag: bool)
    | JInt(number: int)
    | JFloat(digits: int, scale: int)
    | JStr(text: string)
    | JArr(elements: seq<Json>)
    | JObj(members: seq<Member>)

  // ---------------------------------------------------------------- keys

  predicate HasKey(members: seq<Member>, key: string) {
    exists i | 0 <= i < |members| :: members[i].key == key
  }

  predicate UniqueKeys(members: seq<Member>) {
    forall i, j | 0 <= i < j < |members| :: members[i].key != members[j].key
  }

  /** The value of a key; the first one when a key repeats. */
  function Lookup(members: seq<Member>, key: string): Option<Json> {
    if members == [] then None
    else if members[0].key == key then Some(members[0].value)
    else Lookup(members[1..], key)
  }

  predicate HasText(members: seq<Member>, key: string, text: string) {
    Lookup(members, key) == Some(JStr(text))
  }

  function TextAt(members: seq<Member>, key: string): Option<string> {
    match Lookup(members, key)
    case Some(JStr(text)) => Some(text)
    case _ => None
  }

  function MembersAt(members: seq<Member>, key: string): Option<seq<Member>> {
    match Lookup(members, key)
    case Some(JObj(inner)) => Some(inner)
    case _ => None
  }

  /** The value at a path of keys. */
  function ValueAt(v: Json, path: seq<string>): Option<Json>
    decreases |path|
  {
    if path == [] then Some(v)
    else
      match v
      case JObj(members) =>
        (match Lookup(members, path[0])
         case Some(inner) => ValueAt(inner, path[1..])
         case None => None)
      case _ => None
  }

  /** The text at a path of keys from the root of a document. */
  function PathText(raw: string, path: seq<string>): Option<string>
    requires path != []
  {
    match ParseDocument(raw)
    case Some(JObj(members)) => PathIn(members, path)
    case _ => None
  }

  function PathIn(members: seq<Member>, path: seq<string>): Option<string>
    requires path != []
    decreases |path|
  {
    if |path| == 1 then TextAt(members, path[0])
    else match MembersAt(members, path[0])
      case None => None
      case Some(inner) => PathIn(inner, path[1..])
  }

  lemma PathOne(members: seq<Member>, a: string)
    ensures PathIn(members, [a]) == TextAt(members, a)
  {
  }

  lemma PathTwo(members: seq<Member>, a: string, b: string)
    requires MembersAt(members, a).Some?
    ensures PathIn(members, [a, b]) == TextAt(MembersAt(members, a).value, b)
  {
    assert [a, b][1..] == [b];
  }

  /** _reject_duplicate_keys: fills a dictionary and stops at the first repeated key. The
      dictionary that results holds every pair, in the order of the document. */
  method RejectDuplicateKeys(pairs: seq<Member>) returns (r: Option<seq<Member>>)
    ensures r == if UniqueKeys(pairs) then Some(pairs) else None
  {
    var result: seq<Member> := [];
    for i := 0 to |pairs|
      invariant result == pairs[..i]
      invariant UniqueKeys(pairs[..i])
    {
      if HasKey(result, pairs[i].key) {
        var k :| 0 <= k < |result| && result[k].key == pairs[i].key;
        assert pairs[k].key == pairs[i].key;
        return None;
      }
      result := result + [pairs[i]];
    }
    assert pairs[..|pairs|] == pairs;
    r := Some(result);
  }

  // ---------------------------------------------------------------- printing

  function Digit(n: nat): (c: char)
    requires n < 10
    ensures '0' <= c <= '9' && c as int == '0' as int + n
  {
    ('0' as int + n) as char
  }

  function HexDigit(n: nat): (c: char)
    requires n < 16
  {
    if n < 10 then Digit(n) else ('a' as int + (n - 10)) as char
  }

  function Hex4(n: nat): string
    requires n < 0x10000
  {
    [HexDigit(n / 4096), HexDigit(n / 256 % 16), HexDigit(n / 16 % 16), HexDigit(n % 16)]
  }

  function UnicodeEscape(n: nat): string
    requires n < 0x10000
  {
    "\\u" + Hex4(n)
  }

  function HighSurrogate(c: char): (n: nat)
    requires c >= '\U{10000}'
    ensures 0xD800 <= n < 0xDC00
  {
    0xD800 + (c as int - 0x10000) / 0x400
  }

  function LowSurrogate(c: char): (n: nat)
    requires c >= '\U{10000}'
    ensures 0xDC00 <= n < 0xE000
  {
    0xDC00 + (c as int - 0x10000) % 0x400
  }

  function PrintChar(c: char): string {
    if c == '"' then "\\\""
    else if c == '\\' then "\\\\"
    else if ' ' <= c <= '~' then [c]
    else if c == '\n' then "\\n"
    else if c == '\r' then "\\r"
    else if c == '\t' then "\\t"
    else if c == '\U{0C}' then "\\f"
    else if c == '\U{08}' then "\\b"
    else if c < '\U{10000}' then UnicodeEscape(c as int)
    else UnicodeEscape(HighSurrogate(c)) + UnicodeEscape(LowSurrogate(c))
  }

  function PrintChars(s: string): string {
    if s == "" then "" else PrintChar(s[0]) + PrintChars(s[1..])
  }

  function PrintString(s: string): string {
    "\"" + PrintChars(s) + "\""
  }

  function PrintNat(n: nat): string {
    if n < 10 then [Digit(n)] else PrintNat(n / 10) + [Digit(n % 10)]
  }

  function PrintInt(i: int): string {
    if i < 0 then "-" + PrintNat(-i) else PrintNat(i)
  }

  /** No repeated key at any depth, and no float but 1.0, the only one in a document that the
      scripts print again. */
  predicate Printable(v: Json)
    decreases v, 0
  {
    match v
    case JFloat(digits, scale) => digits == 1 && scale == 0
    case JArr(elements) => forall i | 0 <= i < |elements| :: Printable(elements[i])
    case JObj(members) => UniqueKeys(members) && forall i | 0 <= i < |members| :: Printable(members[i].value)
    case _ => true
  }

  predicate AllPrintable(elements: seq<Json>) {
    forall i | 0 <= i < |elements| :: Printable(elements[i])
  }

  predicate MembersPrintable(members: seq<Member>) {
    forall i | 0 <= i < |members| :: Printable(members[i].value)
  }

  function Print(v: Json): string
    requires Printable(v)
    decreases v, 1
  {
    match v
    case JNull => "null"
    case JBool(flag) => if flag then "true" else "false"
    case JInt(number) => PrintInt(number)
    case JFloat(_, _) => "1.0"
    case JStr(text) => PrintString(text)
    case JArr(elements) => if elements == [] then "[]" else "[" + PrintElements(elements) + "]"
    case JObj(members) => if members == [] then "{}" else "{" + PrintMembers(members) + "}"
  }

  function PrintElements(elements: seq<Json>): string
    requires elements != [] && AllPrintable(elements)
    decreases elements, 0
  {
    if |elements| == 1 then Print(elements[0])
    else Print(elements[0]) + "," + PrintElements(elements[1..])
  }

  function PrintMember(m: Member): string
    requires Printable(m.value)
    decreases m, 0
  {
    PrintString(m.key) + ":" + Print(m.value)
  }

  function PrintMembers(members: seq<Member>): string
    requires members != [] && MembersPrintable(members)
    decreases members, 0
  {
    if |members| == 1 then PrintMember(members[0])
    else PrintMember(members[0]) + "," + PrintMembers(members[1..])
  }

  /** json.dumps(value, separators=(",", ":")) and a line feed. */
  function Canonical(v: Json): string
    requires Printable(v)
  {
    Print(v) + "\n"
  }

  // ---------------------------------------------------------------- parsing

  datatype Parsed<+T> = Failed | Done(value: T, rest: string)

  predicate IsWs(c: char) {
    c == ' ' || c == '\t' || c == '\n' || c == '\r'
  }

  function SkipWs(s: string): (r: string)
    ensures |r| <= |s|
    ensures r != "" ==> !IsWs(r[0])
  {
    if s != "" && IsWs(s[0]) then SkipWs(s[1..]) else s
  }

  function HexValue(c: char): (v: int)
    ensures -1 <= v < 16
  {
    if '0' <= c <= '9' then c as int - '0' as int
    else if 'a' <= c <= 'f' then c as int - 'a' as int + 10
    else if 'A' <= c <= 'F' then c as int - 'A' as int + 10
    else -1
  }

  /** Four hexadecimal digits, or -1. */
  function ParseHex4(s: string): (v: int)
    ensures -1 <= v < 0x10000 && (v >= 0 ==> |s| >= 4)
  {
    if |s| < 4 || HexValue(s[0]) < 0 || HexValue(s[1]) < 0 || HexValue(s[2]) < 0 || HexValue(s[3]) < 0 then -1
    else ((HexValue(s[0]) * 16 + HexValue(s[1])) * 16 + HexValue(s[2])) * 16 + HexValue(s[3])
  }

  predicate IsHigh(n: int) {
    0xD800 <= n < 0xDC00
  }

  predicate IsLow(n: int) {
    0xDC00 <= n < 0xE000
  }

  /** The character of a surrogate pair. */
  function Combine(high: int, low: int): char
    requires IsHigh(high) && IsLow(low)
  {
    (0x10000 + (high - 0xD800) * 0x400 + (low - 0xDC00)) as char
  }

  /** What follows \u. A lone surrogate is no character and fails here. */
  function ParseUnicode(s: string): (r: Parsed<char>)
    ensures r.Done? ==> |r.rest| < |s|
  {
    var n := ParseHex4(s);
    if n < 0 || IsLow(n) then Failed
    else if IsHigh(n) then
      var t := s[4..];
      if |t| < 6 || t[0] != '\\' || t[1] != 'u' || !IsLow(ParseHex4(t[2..])) then Failed
      else Done(Combine(n, ParseHex4(t[2..])), t[6..])
    else Done(n as char, s[4..])
  }

  /** One character of a string, escaped or not; s does not start with the closing quote. */
  function ParseChar(s: string): (r: Parsed<char>)
    requires s != ""
    ensures r.Done? ==> |r.rest| < |s|
  {
    if s[0] < ' ' then Failed
    else if s[0] != '\\' then Done(s[0], s[1..])
    else if |s| == 1 then Failed
    else match s[1]
      case '"' => Done('"', s[2..])
      case '\\' => Done('\\', s[2..])
      case '/' => Done('/', s[2..])
      case 'b' => Done('\U{08}', s[2..])
      case 'f' => Done('\U{0C}', s[2..])
      case 'n' => Done('\n', s[2..])
      case 'r' => Done('\r', s[2..])
      case 't' => Done('\t', s[2..])
      case 'u' => ParseUnicode(s[2..])
      case _ => Failed
  }

  /** The characters of a string up to and including its closing quote. */
  function ParseChars(s: string): (r: Parsed<string>)
    ensures r.Done? ==> |r.rest| < |s|
    decreases |s|
  {
    if s == "" then Failed
    else if s[0] == '"' then Done("", s[1..])
    else match ParseChar(s)
      case Failed => Failed
      case Done(c, rest) =>
        match ParseChars(rest)
        case Failed => Failed
        case Done(cs, rest') => Done([c] + cs, rest')
  }

  /** A leading part of a text and what follows it. */
  datatype Scan = Scan(token: string, rest: string)

  /** The digits that s starts with. */
  function ScanDigits(s: string): (r: Scan)
    ensures |r.rest| <= |s| && (r.token != "" ==> |r.rest| < |s|)
  {
    if s != "" && IsDigit(s[0]) then
      var r := ScanDigits(s[1..]);
      Scan([s[0]] + r.token, r.rest)
    else Scan("", s)
  }

  function DigitValue(c: char): nat {
    if IsDigit(c) then c as int - '0' as int else 0
  }

  /** The value of a string of digits. */
  function NatValue(ds: string): nat {
    if ds == "" then 0 else NatValue(ds[..|ds| - 1]) * 10 + DigitValue(ds[|ds| - 1])
  }

  /** The float digits * 10^scale, in its one normal form. */
  function Decimal(digits: int, scale: int): Json
    decreases if digits < 0 then -digits else digits
  {
    if digits == 0 then JFloat(0, 0)
    else if digits % 10 == 0 then Decimal(digits / 10, scale + 1)
    else JFloat(digits, scale)
  }

  function Pow10(n: nat): nat {
    if n == 0 then 1 else 10 * Pow10(n - 1)
  }

  /** Python reads the decimal as the double n, for n one or two: it lies between the midpoints to
      the neighbouring doubles, both of which round to the even n. */
  predicate RoundsTo(digits: int, scale: int, n: int) {
    var top, bottom := digits * Pow10(if scale > 0 then scale else 0), Pow10(if scale < 0 then -scale else 0);
    && n * (0x40_0000_0000_0000 - 1) * bottom <= top * 0x40_0000_0000_0000
    && top * 0x20_0000_0000_0000 <= n * (0x20_0000_0000_0000 + 1) * bottom
  }

  /** The integer part of a number: "0", or digits without a leading zero. */
  function ScanWhole(s: string): (r: Scan)
    ensures |r.rest| <= |s| && (r.token != "" ==> |r.rest| < |s|)
  {
    if s != "" && s[0] == '0' then Scan("0", s[1..]) else ScanDigits(s)
  }

  /** The digits after a decimal point, when there are any. */
  function ScanFraction(s: string): (r: Scan)
    ensures |r.rest| <= |s|
  {
    if s != "" && s[0] == '.' then
      var r := ScanDigits(s[1..]);
      if r.token == "" then Scan("", s) else r
    else Scan("", s)
  }

  /** The sign and the digits of an exponent, when there is one. */
  function ScanExponent(s: string): (r: Scan)
    ensures |r.rest| <= |s|
  {
    if s == "" || (s[0] != 'e' && s[0] != 'E') then Scan("", s)
    else
      var t := s[1..];
      var sign := if t != "" && (t[0] == '+' || t[0] == '-') then [t[0]] else "";
      var r := ScanDigits(if sign == "" then t else t[1..]);
      if r.token == "" then Scan("", s) else Scan(sign + r.token, r.rest)
  }

  function ExponentValue(token: string): int {
    if token == "" then 0
    else if token[0] == '-' then 0 - NatValue(token[1..])
    else if token[0] == '+' then NatValue(token[1..])
    else NatValue(token)
  }

  function Signed(n: nat, negative: bool): int {
    if negative then 0 - n else n
  }

  /** The value of a numeral with a fraction or an exponent. */
  function FloatValue(whole: string, fraction: string, exponent: string, negative: bool): Json {
    Decimal(Signed(NatValue(whole + fraction), negative), ExponentValue(exponent) - |fraction|)
  }

  /** A number after its sign. */
  function ParseUnsigned(s: string, negative: bool): (r: Parsed<Json>)
    ensures r.Done? ==> |r.rest| < |s|
  {
    var whole := ScanWhole(s);
    var fraction := ScanFraction(whole.rest);
    var exponent := ScanExponent(fraction.rest);
    if whole.token == "" then Failed
    else if fraction.token == "" && exponent.token == "" then
      Done(JInt(Signed(NatValue(whole.token), negative)), whole.rest)
    else Done(FloatValue(whole.token, fraction.token, exponent.token, negative), exponent.rest)
  }

  function ParseWord(s: string, word: string, v: Json): (r: Parsed<Json>)
    requires word != ""
    ensures r.Done? ==> |r.rest| < |s|
  {
    if |word| <= |s| && s[..|word|] == word then Done(v, s[|word|..]) else Failed
  }

  datatype Start = StringStart | ArrayStart | ObjectStart | NullStart | TrueStart | FalseStart | MinusStart | OtherStart

  /** The kind of value that its first character announces. */
  function StartOf(c: char): Start {
    if c == '"' then StringStart
    else if c == '[' then ArrayStart
    else if c == '{' then ObjectStart
    else if c == 'n' then NullStart
    else if c == 't' then TrueStart
    else if c == 'f' then FalseStart
    else if c == '-' then MinusStart
    else OtherStart
  }

  function ParseValue(s: string): (r: Parsed<Json>)
    ensures r.Done? ==> |r.rest| < |s|
    decreases |s|, 0
  {
    if s == "" then Failed
    else match StartOf(s[0])
      case StringStart =>
        (match ParseChars(s[1..])
         case Failed => Failed
         case Done(text, rest) => Done(JStr(text), rest))
      case ArrayStart =>
        var t := SkipWs(s[1..]);
        if t != "" && t[0] == ']' then Done(JArr([]), t[1..])
        else
          (match ParseElements(t)
           case Failed => Failed
           case Done(elements, rest) => Done(JArr(elements), rest))
      case ObjectStart =>
        var t := SkipWs(s[1..]);
        if t != "" && t[0] == '}' then Done(JObj([]), t[1..])
        else
          (match ParseMembers(t)
           case Failed => Failed
           case Done(members, rest) => if UniqueKeys(members) then Done(JObj(members), rest) else Failed)
      case NullStart => ParseWord(s, "null", JNull)
      case TrueStart => ParseWord(s, "true", JBool(true))
      case FalseStart => ParseWord(s, "false", JBool(false))
      case MinusStart => ParseUnsigned(s[1..], true)
      case OtherStart => ParseUnsigned(s, false)
  }

  /** The elements of an array and its closing bracket. */
  function ParseElements(s: string): (r: Parsed<seq<Json>>)
    ensures r.Done? ==> |r.rest| < |s|
    decreases |s|, 1
  {
    match ParseValue(s)
    case Failed => Failed
    case Done(v, rest) =>
      var t := SkipWs(rest);
      if t != "" && t[0] == ']' then Done([v], t[1..])
      else if t != "" && t[0] == ',' then
        match ParseElements(SkipWs(t[1..]))
        case Failed => Failed
        case Done(vs, rest') => Done([v] + vs, rest')
      else Failed
  }

  function ParseMember(s: string): (r: Parsed<Member>)
    ensures r.Done? ==> |r.rest| < |s|
    decreases |s|, 1
  {
    if s == "" || s[0] != '"' then Failed
    else match ParseChars(s[1..])
      case Failed => Failed
      case Done(key, rest) =>
        var t := SkipWs(rest);
        if t == "" || t[0] != ':' then Failed
        else match ParseValue(SkipWs(t[1..]))
          case Failed => Failed
          case Done(v, rest') => Done(Member(key, v), rest')
  }

  /** The members of an object and its closing brace. */
  function ParseMembers(s: string): (r: Parsed<seq<Member>>)
    ensures r.Done? ==> |r.rest| < |s|
    decreases |s|, 2
  {
    match ParseMember(s)
    case Failed => Failed
    case Done(m, rest) =>
      var t := SkipWs(rest);
      if t != "" && t[0] == '}' then Done([m], t[1..])
      else if t != "" && t[0] == ',' then
        match ParseMembers(SkipWs(t[1..]))
        case Failed => Failed
        case Done(ms, rest') => Done([m] + ms, rest')
      else Failed
  }

  /** A whole document: one value between white space, and no byte order mark. */
  function ParseDocument(text: string): Option<Json> {
    if text != "" && text[0] == '\U{FEFF}' then None
    else match ParseValue(SkipWs(text))
      case Failed => None
      case Done(v, rest) => if SkipWs(rest) == "" then Some(v) else None
  }
}
