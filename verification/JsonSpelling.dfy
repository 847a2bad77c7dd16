/** How json.dumps spells a value: in ASCII, without white space, with the shortest escapes. */
module JsonSpelling {
  import opened Results
  import opened Text
  import opened Json
  import opened JsonRoundTrip
  import opened JsonGrammar

  // ---------------------------------------------------------------- the one spelling

  predicate LowerHex(s: string) {
    forall i | 0 <= i < |s| :: '0' <= s[i] <= '9' || 'a' <= s[i] <= 'f'
  }

  /** A character that is written as itself, or by a letter. */
  predicate HasShortForm(n: int) {
    0x20 <= n <= 0x7E || n in {0x08, 0x09, 0x0A, 0x0C, 0x0D}
  }

  /** Printable ASCII as it is, then a letter, and four lower-case digits where there is neither. */
  predicate TightPiece(p: Piece) {
    && GoodPiece(p)
    && match p
       case Plain(c) => c as int <= 0x7E
       case Short(letter) => letter != '/'
       case Escaped(hex) => LowerHex(hex) && !HasShortForm(Code(hex))
       case Pair(high, low) => LowerHex(high) && LowerHex(low)
  }

  /** An integer without a superfluous sign, or 1.0. */
  predicate TightNumeral(n: Numeral) {
    || (n.fraction == "" && n.power == "" && (n.minus ==> n.whole != "0"))
    || (!n.minus && n.whole == "1" && n.fraction == "0" && n.power == "")
  }

  /** No white space anywhere, and every part in its one spelling. */
  predicate Tight(t: Tree)
    decreases t
  {
    match t
    case Word(_) => true
    case Number(n) => TightNumeral(n)
    case Text(ps) => forall i | 0 <= i < |ps| :: TightPiece(ps[i])
    case EmptyArray(inner) => inner == ""
    case Array(items) =>
      forall i | 0 <= i < |items| :: items[i].before == "" && items[i].after == "" && Tight(items[i].tree)
    case EmptyObject(inner) => inner == ""
    case Object(entries) => forall i | 0 <= i < |entries| :: TightEntry(entries[i]) && Tight(entries[i].tree)
  }

  predicate TightEntry(e: Entry) {
    && e.before == "" && e.mid == "" && e.mid' == "" && e.after == ""
    && forall i | 0 <= i < |e.key| :: TightPiece(e.key[i])
  }

  // ---------------------------------------------------------------- characters

  lemma Hex4Lower(n: nat)
    requires n < 0x10000
    ensures HexText(Hex4(n)) && LowerHex(Hex4(n)) && Code(Hex4(n)) == n
  {
    Hex4Read(n, "");
    assert Hex4(n) + "" == Hex4(n);
    Hex4Split(Hex4(n));
    assert Hex4(n)[..4] == Hex4(n);
  }

  lemma PieceOf(c: char) returns (p: Piece)
    ensures TightPiece(p) && ShowPiece(p) == PrintChar(c) && CharOf(p) == c
  {
    if IsPlain(c) {
      p := Plain(c);
    } else if IsShort(c) {
      p := Short(PrintChar(c)[1]);
    } else if c < '\U{10000}' {
      Hex4Lower(c as int);
      p := Escaped(Hex4(c as int));
    } else {
      Hex4Lower(HighSurrogate(c));
      Hex4Lower(LowSurrogate(c));
      Combined(c);
      p := Pair(Hex4(HighSurrogate(c)), Hex4(LowSurrogate(c)));
      PairSpelled(Hex4(HighSurrogate(c)), Hex4(LowSurrogate(c)));
    }
  }

  lemma PairSpelled(high: string, low: string)
    ensures ShowPiece(Pair(high, low)) == ("\\u" + high) + ("\\u" + low)
  {
  }

  lemma {:induction false} PiecesOf(s: string) returns (ps: seq<Piece>)
    ensures GoodPieces(ps) && ShowPieces(ps) == PrintChars(s) && CharsOf(ps) == s
    ensures forall i | 0 <= i < |ps| :: TightPiece(ps[i])
  {
    ps := [];
    if s != "" {
      var p := PieceOf(s[0]);
      var qs := PiecesOf(s[1..]);
      ps := [p] + qs;
      assert ps[1..] == qs;
    }
  }

  // ---------------------------------------------------------------- values

  /** A tight tree that spells the value. */
  predicate Spells(t: Tree, v: Json)
    requires Printable(v)
  {
    Good(t) && Tight(t) && ValueOf(t) == v && Show(t) == Print(v)
  }

  lemma NumeralOf(i: int) returns (n: Numeral)
    ensures GoodNumeral(n) && TightNumeral(n) && NumeralValue(n) == JInt(i) && ShowNumeral(n) == PrintInt(i)
  {
    var m: nat := if i < 0 then -i else i;
    NatPrinted(m);
    n := Numeral(i < 0, PrintNat(m), "", 'e', "", "");
    LoneZero(m);
    assert UnsignedText(n) == PrintNat(m);
  }

  lemma {:induction false} LoneZero(m: nat)
    ensures PrintNat(m) != "" && (PrintNat(m)[0] == '0' ==> |PrintNat(m)| == 1) && (PrintNat(m) == "0" ==> m == 0)
  {
    NatPrinted(m);
    if m > 0 {
      assert PrintNat(m)[0] != '0';
    }
  }

  lemma FloatOf() returns (n: Numeral)
    ensures GoodNumeral(n) && TightNumeral(n) && NumeralValue(n) == JFloat(1, 0) && ShowNumeral(n) == "1.0"
  {
    n := Numeral(false, "1", "0", 'e', "", "");
    TenTenths();
    ValueOfScans(n);
  }

  lemma SpellsNumber(n: Numeral, v: Json)
    requires v.JInt? || v == JFloat(1, 0)
    requires GoodNumeral(n) && TightNumeral(n) && NumeralValue(n) == v
    requires ShowNumeral(n) == if v.JInt? then PrintInt(v.number) else "1.0"
    ensures Spells(Number(n), v)
  {
  }

  lemma SpellsText(ps: seq<Piece>, text: string)
    requires GoodPieces(ps) && ShowPieces(ps) == PrintChars(text) && CharsOf(ps) == text
    requires forall i | 0 <= i < |ps| :: TightPiece(ps[i])
    ensures Spells(Text(ps), JStr(text))
  {
  }

  predicate TightItems(items: seq<Item>) {
    forall i | 0 <= i < |items| :: items[i].before == "" && items[i].after == "" && Tight(items[i].tree)
  }

  predicate TightEntries(entries: seq<Entry>) {
    forall i | 0 <= i < |entries| :: TightEntry(entries[i]) && Tight(entries[i].tree)
  }

  lemma SpellsArray(items: seq<Item>, elements: seq<Json>)
    requires elements != [] && AllPrintable(elements) && items != [] && GoodItems(items) && TightItems(items)
    requires ElementsOf(items) == elements && ShowItems(items) == PrintElements(elements)
    ensures Spells(Array(items), JArr(elements))
  {
  }

  lemma SpellsObject(entries: seq<Entry>, members: seq<Member>)
    requires members != [] && Printable(JObj(members)) && entries != [] && GoodEntries(entries) && TightEntries(entries)
    requires MembersOf(entries) == members && ShowEntries(entries) == PrintMembers(members)
    ensures Spells(Object(entries), JObj(members))
  {
  }

  lemma SpellsRest(v: Json)
    requires v == JNull || v.JBool? || v == JArr([]) || v == JObj([])
    ensures Spells(if v.JArr? then EmptyArray("") else if v.JObj? then EmptyObject("") else Word(v), v)
  {
  }

  lemma {:induction false} TreeOf(v: Json) returns (t: Tree)
    requires Printable(v)
    ensures Spells(t, v)
    decreases v, 1
  {
    match v
    case JInt(i) =>
      var n := NumeralOf(i);
      t := Number(n);
      SpellsNumber(n, v);
    case JFloat(_, _) =>
      var n := FloatOf();
      t := Number(n);
      SpellsNumber(n, v);
    case JStr(text) =>
      var ps := PiecesOf(text);
      t := Text(ps);
      SpellsText(ps, text);
    case JArr(elements) =>
      if elements == [] {
        t := EmptyArray("");
        SpellsRest(v);
      } else {
        var items := ItemsOf(elements);
        t := Array(items);
        SpellsArray(items, elements);
      }
    case JObj(members) =>
      if members == [] {
        t := EmptyObject("");
        SpellsRest(v);
      } else {
        var entries := EntriesOf(members);
        t := Object(entries);
        SpellsObject(entries, members);
      }
    case _ =>
      t := Word(v);
      SpellsRest(v);
  }

  lemma ItemSpelled(shown: string, more: string)
    ensures "" + shown + "" + more == shown + more
  {
  }

  lemma {:induction false} ItemsOf(elements: seq<Json>) returns (items: seq<Item>)
    requires elements != [] && AllPrintable(elements)
    ensures items != [] && GoodItems(items) && ElementsOf(items) == elements
    ensures ShowItems(items) == PrintElements(elements)
    ensures TightItems(items)
    decreases elements, 0
  {
    var t := TreeOf(elements[0]);
    var more: seq<Item> := [];
    if |elements| > 1 {
      more := ItemsOf(elements[1..]);
    }
    ItemsJoin(Item("", t, ""), more);
    items := [Item("", t, "")] + more;
    ItemSpelled(Show(t), if more == [] then "" else "," + ShowItems(more));
    assert elements == [elements[0]] + elements[1..];
  }

  lemma EntrySpelled(key: string, shown: string, more: string)
    ensures "" + key + "" + ":" + "" + shown + "" + more == (key + ":" + shown) + more
  {
  }

  lemma {:induction false} EntriesOf(members: seq<Member>) returns (entries: seq<Entry>)
    requires members != [] && MembersPrintable(members)
    ensures entries != [] && GoodEntries(entries) && MembersOf(entries) == members
    ensures ShowEntries(entries) == PrintMembers(members)
    ensures TightEntries(entries)
    decreases members, 0
  {
    var ps := PiecesOf(members[0].key);
    var t := TreeOf(members[0].value);
    var e := Entry("", ps, "", "", t, "");
    var more: seq<Entry> := [];
    if |members| > 1 {
      more := EntriesOf(members[1..]);
    }
    EntriesJoin(e, more);
    entries := [e] + more;
    EntrySpelled(ShowString(ps), Show(t), if more == [] then "" else "," + ShowEntries(more));
    assert members == [members[0]] + members[1..];
  }

  /** Main result: what is written is the value's tree without white space, in its shortest escapes, and
      one line feed. */
  lemma CanonicalSpelling(v: Json)
    requires Printable(v)
    ensures exists t :: Good(t) && Tight(t) && ValueOf(t) == v && Canonical(v) == Show(t) + "\n"
  {
    var t := TreeOf(v);
  }
}
