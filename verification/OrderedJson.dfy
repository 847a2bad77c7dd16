/** Objects with a fixed list of keys in a fixed order: writing them, and reading them back. */
module OrderedJson {
  import opened Results
  import opened Formats
  import opened Json

  function Zip(keys: seq<string>, values: seq<Json>): (r: seq<Member>)
    requires |keys| == |values|
  {
    seq(|keys|, i requires 0 <= i < |keys| => Member(keys[i], values[i]))
  }

  /** _ordered_keys: the values of an object whose keys are exactly these, in this order. */
  function OrderedValues(v: Json, keys: seq<string>): (r: Option<seq<Json>>)
    ensures r.Some? ==> |r.value| == |keys|
  {
    if v.JObj? && |v.members| == |keys| && forall i | 0 <= i < |keys| :: v.members[i].key == keys[i]
    then Some(seq(|keys|, i requires 0 <= i < |keys| => v.members[i].value))
    else None
  }

  predicate IsText(v: Json, text: string) {
    v == JStr(text)
  }

  function ParseMode(v: Json): Option<PublishMode> {
    match v
    case JStr(text) => ModeOf(text)
    case _ => None
  }

  /** Reading an object in order is the inverse of writing one. */
  lemma ReadIsWritten(v: Json, keys: seq<string>)
    requires OrderedValues(v, keys).Some?
    ensures v == JObj(Zip(keys, OrderedValues(v, keys).value))
  {
  }

  lemma WrittenIsRead(keys: seq<string>, values: seq<Json>)
    requires |keys| == |values|
    ensures OrderedValues(JObj(Zip(keys, values)), keys) == Some(values)
  {
    var read := OrderedValues(JObj(Zip(keys, values)), keys);
    assert read.Some? && read.value == values;
  }

  lemma OrderedIsZip(v: Json, keys: seq<string>, values: seq<Json>)
    requires |keys| == |values|
    ensures OrderedValues(v, keys) == Some(values) <==> v == JObj(Zip(keys, values))
  {
    if OrderedValues(v, keys) == Some(values) {
      ReadIsWritten(v, keys);
    }
    WrittenIsRead(keys, values);
  }

  predicate Distinct(keys: seq<string>) {
    forall i, j | 0 <= i < j < |keys| :: keys[i] != keys[j]
  }

  lemma ZipPrintable(keys: seq<string>, values: seq<Json>)
    requires |keys| == |values| && Distinct(keys) && AllPrintable(values)
    ensures Printable(JObj(Zip(keys, values)))
  {
  }

  /** Keys told apart by their length and first letter. */
  ghost predicate Told(keys: seq<string>, lengths: seq<int>, heads: string) {
    && |keys| == |lengths| == |heads|
    && forall i | 0 <= i < |keys| :: keys[i] != "" && |keys[i]| == lengths[i] && keys[i][0] == heads[i]
  }

  lemma ToldApart(keys: seq<string>, lengths: seq<int>, heads: string)
    requires Told(keys, lengths, heads)
    requires forall i, j | 0 <= i < j < |keys| :: lengths[i] != lengths[j] || heads[i] != heads[j]
    ensures Distinct(keys)
  {
  }

  lemma ZipInjective(keys: seq<string>, x: seq<Json>, y: seq<Json>, i: nat)
    requires |keys| == |x| == |y| && i < |keys| && JObj(Zip(keys, x)) == JObj(Zip(keys, y))
    ensures x[i] == y[i]
  {
    assert Zip(keys, x)[i] == Zip(keys, y)[i];
  }
}
