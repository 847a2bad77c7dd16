/** The exact comparison of JSON values, and the values it compares. */
module JsonCompare {
  import opened Results
  import opened Json

  /** Which double a decimal is read as; doubles that compare equal have one number. */
  type Rounding = (int, int) -> int

  // ---------------------------------------------------------------- the comparison

  function KeySet(members: seq<Member>): set<string> {
    set i | 0 <= i < |members| :: members[i].key
  }

  /** _exact_json_value: whether it returns without raising. */
  predicate ExactValue(round: Rounding, actual: Json, expected: Json)
    decreases expected, 1
  {
    match (actual, expected)
    case (JNull, JNull) => true
    case (JBool(a), JBool(e)) => a == e
    case (JInt(a), JInt(e)) => a == e
    case (JFloat(a, s), JFloat(e, t)) => round(a, s) == round(e, t)
    case (JStr(a), JStr(e)) => a == e
    case (JArr(a), JArr(e)) => |a| == |e| && ExactElements(round, a, e)
    case (JObj(a), JObj(e)) => KeySet(a) == KeySet(e) && ExactMembers(round, a, e)
    case _ => false
  }

  predicate ExactElements(round: Rounding, actual: seq<Json>, expected: seq<Json>)
    requires |actual| == |expected|
    decreases expected, 0
  {
    expected == [] || (ExactValue(round, actual[0], expected[0]) && ExactElements(round, actual[1..], expected[1..]))
  }

  /** The values of every expected key. */
  predicate ExactMembers(round: Rounding, actual: seq<Member>, expected: seq<Member>)
    decreases expected, 0
  {
    expected == []
    || (&& Lookup(actual, expected[0].key).Some?
        && ExactValue(round, Lookup(actual, expected[0].key).value, expected[0].value)
        && ExactMembers(round, actual, expected[1..]))
  }

  // ---------------------------------------------------------------- values

  /** What a document means: objects are maps, and every type is its own. */
  datatype Value =
    | VNull
    | VBool(flag: bool)
    | VInt(number: int)
    | VFloat(double: int)
    | VStr(text: string)
    | VArr(elements: seq<Value>)
    | VObj(members: map<string, Value>)

  function Meaning(round: Rounding, v: Json): Value
    decreases v, 1
  {
    match v
    case JNull => VNull
    case JBool(flag) => VBool(flag)
    case JInt(number) => VInt(number)
    case JFloat(digits, scale) => VFloat(round(digits, scale))
    case JStr(text) => VStr(text)
    case JArr(elements) => VArr(ElementsMeaning(round, elements))
    case JObj(members) => VObj(MembersMeaning(round, members))
  }

  function ElementsMeaning(round: Rounding, elements: seq<Json>): (r: seq<Value>)
    ensures |r| == |elements|
    decreases elements, 0
  {
    if elements == [] then [] else [Meaning(round, elements[0])] + ElementsMeaning(round, elements[1..])
  }

  function MembersMeaning(round: Rounding, members: seq<Member>): (r: map<string, Value>)
    ensures forall i | 0 <= i < |members| :: members[i].key in r
    ensures forall k :: k in r ==> HasKey(members, k)
    decreases members, 0
  {
    if members == [] then map[]
    else MembersMeaning(round, members[1..])[members[0].key := Meaning(round, members[0].value)]
  }

  /** No repeated key at any depth, as in every document that a parse returns. */
  predicate Wellformed(v: Json)
    decreases v, 0
  {
    match v
    case JArr(elements) => forall i | 0 <= i < |elements| :: Wellformed(elements[i])
    case JObj(members) => UniqueKeys(members) && forall i | 0 <= i < |members| :: Wellformed(members[i].value)
    case _ => true
  }

  // ---------------------------------------------------------------- members and maps

  lemma {:induction false} LookupMeaning(round: Rounding, members: seq<Member>, key: string)
    ensures Lookup(members, key).Some? <==> key in MembersMeaning(round, members)
    ensures Lookup(members, key).Some? ==>
      MembersMeaning(round, members)[key] == Meaning(round, Lookup(members, key).value)
  {
    if members != [] && members[0].key != key {
      LookupMeaning(round, members[1..], key);
    }
  }

  lemma KeysOfMeaning(round: Rounding, members: seq<Member>)
    ensures MembersMeaning(round, members).Keys == KeySet(members)
  {
  }

  lemma {:induction false} LookupWellformed(members: seq<Member>, key: string)
    requires forall i | 0 <= i < |members| :: Wellformed(members[i].value)
    ensures Lookup(members, key).Some? ==> Wellformed(Lookup(members, key).value)
  {
    if members != [] && members[0].key != key {
      LookupWellformed(members[1..], key);
    }
  }

  // ---------------------------------------------------------------- main theorem

  /** The comparison accepts exactly the values with the same meaning: structurally equal, of
      the same type at every depth, in any order of keys. */
  lemma {:induction false} ExactIsEquality(round: Rounding, actual: Json, expected: Json)
    requires Wellformed(actual) && Wellformed(expected)
    ensures ExactValue(round, actual, expected) <==> Meaning(round, actual) == Meaning(round, expected)
    decreases expected, 1
  {
    match (actual, expected)
    case (JArr(a), JArr(e)) =>
      if |a| == |e| {
        ElementsEquality(round, a, e);
      }
    case (JObj(a), JObj(e)) =>
      MembersEquality(round, a, e);
      KeysOfMeaning(round, a);
      KeysOfMeaning(round, e);
      assert MembersMeaning(round, a) == MembersMeaning(round, e) <==>
        MembersMeaning(round, a).Keys == MembersMeaning(round, e).Keys
        && Agree(MembersMeaning(round, a), MembersMeaning(round, e));
    case _ =>
  }

  lemma {:induction false} ElementsEquality(round: Rounding, actual: seq<Json>, expected: seq<Json>)
    requires |actual| == |expected|
    requires forall i | 0 <= i < |actual| :: Wellformed(actual[i]) && Wellformed(expected[i])
    ensures ExactElements(round, actual, expected)
       <==> ElementsMeaning(round, actual) == ElementsMeaning(round, expected)
    decreases expected, 0
  {
    if expected != [] {
      ExactIsEquality(round, actual[0], expected[0]);
      ElementsEquality(round, actual[1..], expected[1..]);
      var a, e := ElementsMeaning(round, actual), ElementsMeaning(round, expected);
      assert a[0] == Meaning(round, actual[0]) && e[0] == Meaning(round, expected[0]);
      assert a[1..] == ElementsMeaning(round, actual[1..]) && e[1..] == ElementsMeaning(round, expected[1..]);
      assert a == [a[0]] + a[1..] && e == [e[0]] + e[1..];
    }
  }

  /** b agrees with a on every key of b. */
  ghost predicate Agree(a: map<string, Value>, b: map<string, Value>) {
    forall k :: k in b ==> k in a && a[k] == b[k]
  }

  lemma {:induction false} MembersEquality(round: Rounding, actual: seq<Member>, expected: seq<Member>)
    requires forall i | 0 <= i < |actual| :: Wellformed(actual[i].value)
    requires UniqueKeys(expected) && forall i | 0 <= i < |expected| :: Wellformed(expected[i].value)
    ensures ExactMembers(round, actual, expected)
       <==> Agree(MembersMeaning(round, actual), MembersMeaning(round, expected))
    decreases expected, 0
  {
    if expected != [] {
      var key, rest := expected[0].key, expected[1..];
      LookupMeaning(round, actual, key);
      LookupWellformed(actual, key);
      if Lookup(actual, key).Some? {
        ExactIsEquality(round, Lookup(actual, key).value, expected[0].value);
      }
      MembersEquality(round, actual, rest);
      assert key !in MembersMeaning(round, rest);
      AgreeCons(MembersMeaning(round, actual), MembersMeaning(round, rest), key, Meaning(round, expected[0].value));
    }
  }

  lemma AgreeCons(a: map<string, Value>, b: map<string, Value>, key: string, v: Value)
    requires key !in b
    ensures Agree(a, b[key := v]) <==> key in a && a[key] == v && Agree(a, b)
  {
  }

  /** Hence the comparison is an equivalence relation. */
  lemma ExactIsEquivalence(round: Rounding, a: Json, b: Json, c: Json)
    requires Wellformed(a) && Wellformed(b) && Wellformed(c)
    ensures ExactValue(round, a, a)
    ensures ExactValue(round, a, b) == ExactValue(round, b, a)
    ensures ExactValue(round, a, b) && ExactValue(round, b, c) ==> ExactValue(round, a, c)
  {
    ExactIsEquality(round, a, a);
    ExactIsEquality(round, a, b);
    ExactIsEquality(round, b, a);
    ExactIsEquality(round, b, c);
    ExactIsEquality(round, a, c);
  }

  // ---------------------------------------------------------------- documents are well formed

  lemma {:induction false} ParsedWellformed(s: string)
    ensures ParseValue(s).Done? ==> Wellformed(ParseValue(s).value)
    decreases |s|, 0
  {
    if s != "" && StartOf(s[0]) == ArrayStart {
      ParsedElementsWellformed(SkipWs(s[1..]));
    } else if s != "" && StartOf(s[0]) == ObjectStart {
      ParsedMembersWellformed(SkipWs(s[1..]));
    } else if s != "" && (StartOf(s[0]) == MinusStart || StartOf(s[0]) == OtherStart) {
      NumberWellformed(s, false);
      NumberWellformed(s[1..], true);
    }
  }

  lemma NumberWellformed(s: string, negative: bool)
    ensures ParseUnsigned(s, negative).Done? ==> Wellformed(ParseUnsigned(s, negative).value)
  {
    var whole := ScanWhole(s);
    var fraction := ScanFraction(whole.rest);
    var exponent := ScanExponent(fraction.rest);
    DecimalWellformed(Signed(NatValue(whole.token + fraction.token), negative),
                      ExponentValue(exponent.token) - |fraction.token|);
  }

  lemma {:induction false} DecimalWellformed(digits: int, scale: int)
    ensures Wellformed(Decimal(digits, scale))
    decreases if digits < 0 then -digits else digits
  {
    if digits != 0 && digits % 10 == 0 {
      DecimalWellformed(digits / 10, scale + 1);
    }
  }

  lemma {:induction false} ParsedElementsWellformed(s: string)
    ensures ParseElements(s).Done? ==>
      forall i | 0 <= i < |ParseElements(s).value| :: Wellformed(ParseElements(s).value[i])
    decreases |s|, 1
  {
    ParsedWellformed(s);
    if ParseValue(s).Done? {
      var t := SkipWs(ParseValue(s).rest);
      if t != "" && t[0] == ',' {
        ParsedElementsWellformed(SkipWs(t[1..]));
      }
    }
  }

  lemma {:induction false} ParsedMembersWellformed(s: string)
    ensures ParseMembers(s).Done? ==>
      forall i | 0 <= i < |ParseMembers(s).value| :: Wellformed(ParseMembers(s).value[i].value)
    decreases |s|, 1
  {
    if ParseMember(s).Done? {
      ParsedWellformed(SkipWs(SkipWs(ParseChars(s[1..]).rest)[1..]));
      var t := SkipWs(ParseMember(s).rest);
      if t != "" && t[0] == ',' {
        ParsedMembersWellformed(SkipWs(t[1..]));
      }
    }
  }

  /** Every parsed document is well formed, so the comparison of two of them is equality. */
  lemma DocumentsCompare(round: Rounding, a: string, b: string)
    requires ParseDocument(a).Some? && ParseDocument(b).Some?
    ensures var u, v := ParseDocument(a).value, ParseDocument(b).value;
      Wellformed(u) && Wellformed(v) && (ExactValue(round, u, v) <==> Meaning(round, u) == Meaning(round, v))
  {
    ParsedWellformed(SkipWs(a));
    ParsedWellformed(SkipWs(b));
    ExactIsEquality(round, ParseDocument(a).value, ParseDocument(b).value);
  }
}
