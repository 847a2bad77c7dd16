/** The evidence file of the image publisher: what is written, what is accepted, and the one field
    that Python's comparison leaves open. */
module ImageEvidence {
  import opened Results
  import opened Text
  import opened Formats
  import opened Json
  import opened JsonRoundTrip
  import opened OrderedJson
  import opened BaseImages
  import RemoteImage

  const MAX_EVIDENCE_BYTES := 8192
  const SCHEMA_VERSION := "leva.mission-spine." + "immutable-migration-image.v1"

  const KEYS: seq<string> := [
    "schema_version", "status", "repository", "source_sha", "producer_run_id", "producer_run_attempt",
    "image_repository", "image_tag", "image_digest", "publish_mode", "source_label", "revision_label",
    "builder_base_index_digest", "builder_base_amd64_digest", "runtime_base_index_digest",
    "runtime_base_amd64_digest" ]

  /** What varies between evidence files. */
  datatype Fields = Fields(sourceSha: string, runId: int, digest: string, mode: PublishMode)

  predicate ValidFields(f: Fields) {
    IsSha40(f.sourceSha) && f.runId > 0 && IsDigest(f.digest)
  }

  /** The pinned digests, in the order of their keys. */
  function BaseTexts(): (r: seq<Json>)
    ensures |r| == 4
  {
    seq(4, i requires 0 <= i < 4 => JStr(DigestOf(BaseNumber(i))))
  }

  /** _evidence_document, with the run attempt as it stands in the file. */
  function Values(f: Fields, attempt: Json): seq<Json> {
    [ JStr(SCHEMA_VERSION), JStr("passed"), JStr(REPOSITORY), JStr(f.sourceSha), JInt(f.runId), attempt,
      JStr(IMAGE_REPOSITORY), JStr(f.sourceSha), JStr(f.digest), JStr(ModeText(f.mode)),
      JStr(RemoteImage.SOURCE_LABEL), JStr(f.sourceSha) ] + BaseTexts()
  }

  function Document(f: Fields, attempt: Json): Json {
    JObj(Zip(KEYS, Values(f, attempt)))
  }

  /** Python's attempt != 1, negated: one, true, and a float that is read as 1.0. */
  predicate EqualsOne(v: Json) {
    v == JInt(1) || v == JBool(true) || (v.JFloat? && RoundsTo(v.digits, v.scale, 1))
  }

  predicate LabelsPass(x: seq<Json>, sourceSha: string)
    requires |x| == 16
  {
    && IsText(x[7], sourceSha) && IsText(x[10], RemoteImage.SOURCE_LABEL) && IsText(x[11], sourceSha)
    && forall i | 0 <= i < 4 :: IsText(x[12 + i], DigestOf(BaseNumber(i)))
  }

  /** The checks of the sixteen values, the run attempt apart. */
  function CheckValues(x: seq<Json>): Option<Fields>
    requires |x| == 16
  {
    if && IsText(x[0], SCHEMA_VERSION) && IsText(x[1], "passed") && IsText(x[2], REPOSITORY)
       && IsText(x[6], IMAGE_REPOSITORY)
       && x[3].JStr? && x[4].JInt? && x[8].JStr? && ParseMode(x[9]).Some?
       && LabelsPass(x, x[3].text)
       && ValidFields(Fields(x[3].text, x[4].number, x[8].text, ParseMode(x[9]).value))
    then Some(Fields(x[3].text, x[4].number, x[8].text, ParseMode(x[9]).value))
    else None
  }

  datatype Read = Read(fields: Fields, attempt: Json)

  /** _validate_evidence */
  function CheckDocument(v: Json): Option<Read> {
    match OrderedValues(v, KEYS)
    case None => None
    case Some(x) =>
      match CheckValues(x)
      case Some(f) => if EqualsOne(x[5]) then Some(Read(f, x[5])) else None
      case None => None
  }

  /** validate_evidence_directory, from the bytes of its one file on. A document that passes the
      checks and is not printable holds a decimal that is read as 1.0 but is not spelled so. */
  function ValidateEvidence(raw: string): Option<Read> {
    if raw == "" || ByteLength(raw) > MAX_EVIDENCE_BYTES then None
    else match ParseDocument(raw)
      case None => None
      case Some(v) =>
        match CheckDocument(v)
        case Some(read) => if Printable(v) && raw == Canonical(v) then Some(read) else None
        case None => None
  }

  /** str of an integer, of a truth value and of the float 1.0. */
  function PythonText(v: Json): Option<string> {
    match v
    case JInt(number) => Some(PrintInt(number))
    case JBool(flag) => Some(if flag then "True" else "False")
    case JFloat(digits, scale) => if digits == 1 && scale == 0 then Some("1.0") else None
    case _ => None
  }

  /** What the environment of the producer says. */
  datatype Context = Context(repository: string, sourceSha: string, runId: string, attempt: string)

  /** verify_evidence_cli */
  function VerifyEvidence(raw: string, c: Context): Option<Fields> {
    match ValidateEvidence(raw)
    case None => None
    case Some(read) =>
      if && c.repository == REPOSITORY
         && read.fields.sourceSha == c.sourceSha
         && PrintInt(read.fields.runId) == c.runId
         && PythonText(read.attempt) == Some(c.attempt)
      then Some(read.fields)
      else None
  }

  /** write_evidence: the file's text, for the producer's own attempt. */
  function WriteEvidence(f: Fields): Option<string> {
    if !ValidFields(f) then None
    else
      KeysDistinct();
      ZipPrintable(KEYS, Values(f, JInt(1)));
      var raw := Canonical(Document(f, JInt(1)));
      if ByteLength(raw) > MAX_EVIDENCE_BYTES then None else Some(raw)
  }

  // ---------------------------------------------------------------- the language

  lemma KeysDistinct()
    ensures Distinct(KEYS)
  {
    KeyLengths();
    KeyPairs();
    ToldApartBut(KEYS, [14, 6, 10, 10, 15, 20, 16, 9, 12, 12, 12, 14, 25, 25, 25, 25], "ssrsppiiipsrbbrr");
  }

  lemma ToldApartBut(keys: seq<string>, lengths: seq<int>, heads: string)
    requires |keys| == 16 && Told(keys, lengths, heads) && keys[12] != keys[13] && keys[14] != keys[15]
    requires forall i, j | 0 <= i < j < 16 ::
      lengths[i] != lengths[j] || heads[i] != heads[j] || (i == 12 && j == 13) || (i == 14 && j == 15)
    ensures Distinct(keys)
  {
  }

  /** Lengths and first letters tell all keys apart but two pairs. */
  lemma KeyLengths()
    ensures Told(KEYS, [14, 6, 10, 10, 15, 20, 16, 9, 12, 12, 12, 14, 25, 25, 25, 25], "ssrsppiiipsrbbrr")
  {
  }

  lemma KeyPairs()
    ensures KEYS[12] != KEYS[13] && KEYS[14] != KEYS[15]
  {
  }

  lemma ValuesChecked(f: Fields, attempt: Json)
    requires ValidFields(f)
    ensures CheckValues(Values(f, attempt)) == Some(f)
  {
  }

  lemma ValuesPinned(x: seq<Json>, f: Fields)
    requires |x| == 16 && CheckValues(x) == Some(f)
    ensures ValidFields(f) && x == Values(f, x[5])
  {
  }

  lemma DocumentLanguage(v: Json, read: Read)
    ensures CheckDocument(v) == Some(read)
       <==> ValidFields(read.fields) && EqualsOne(read.attempt) && v == Document(read.fields, read.attempt)
  {
    var y := Values(read.fields, read.attempt);
    OrderedIsZip(v, KEYS, y);
    if CheckDocument(v) == Some(read) {
      ValuesPinned(OrderedValues(v, KEYS).value, read.fields);
    }
    if ValidFields(read.fields) {
      ValuesChecked(read.fields, read.attempt);
    }
  }

  /** The spellings of the run attempt that print as they are read: 1, true and 1.0. */
  predicate WrittenAttempt(a: Json) {
    a == JInt(1) || a == JBool(true) || a == JFloat(1, 0)
  }

  /** They are the printable values that Python takes for one. */
  lemma AttemptsAre(a: Json)
    ensures WrittenAttempt(a) <==> EqualsOne(a) && Printable(a)
  {
    assert Pow10(0) == 1;
    assert RoundsTo(1, 0, 1);
  }

  lemma DocumentPrintable(f: Fields, attempt: Json)
    ensures Printable(Document(f, attempt)) <==> Printable(attempt)
  {
    KeysDistinct();
    var x := Values(f, attempt);
    if Printable(attempt) {
      ZipPrintable(KEYS, x);
    } else {
      assert Zip(KEYS, x)[5].value == attempt;
    }
  }

  /** The text of a record whose run attempt is written in one of the three ways. */
  function EvidenceText(f: Fields, attempt: Json): string
    requires WrittenAttempt(attempt)
  {
    AttemptsAre(attempt);
    DocumentPrintable(f, attempt);
    Canonical(Document(f, attempt))
  }

  /** Main result: the validator accepts exactly the canonical texts of valid records, in three
      spellings: the run attempt may be 1, true or 1.0. */
  lemma EvidenceLanguage(raw: string, f: Fields, attempt: Json)
    ensures ValidateEvidence(raw) == Some(Read(f, attempt))
       <==> && ValidFields(f) && WrittenAttempt(attempt)
            && raw == EvidenceText(f, attempt) && ByteLength(raw) <= 8_192
  {
    AttemptsAre(attempt);
    if ValidateEvidence(raw) == Some(Read(f, attempt)) {
      DocumentLanguage(ParseDocument(raw).value, Read(f, attempt));
      DocumentPrintable(f, attempt);
    }
    if ValidFields(f) && WrittenAttempt(attempt) && raw == EvidenceText(f, attempt) {
      DocumentPrintable(f, attempt);
      DocumentRead(Document(f, attempt));
      DocumentLanguage(Document(f, attempt), Read(f, attempt));
    }
  }

  /** Main result: so the validator alone does not fix the bytes. Two accepted texts of one record
      are equal exactly when they spell the run attempt alike. */
  lemma SpellingsDiffer(raw: string, raw': string)
    requires ValidateEvidence(raw).Some? && ValidateEvidence(raw').Some?
    requires ValidateEvidence(raw).value.fields == ValidateEvidence(raw').value.fields
    ensures raw == raw' <==> ValidateEvidence(raw).value.attempt == ValidateEvidence(raw').value.attempt
  {
    var a, b := ValidateEvidence(raw).value, ValidateEvidence(raw').value;
    EvidenceLanguage(raw, a.fields, a.attempt);
    EvidenceLanguage(raw', b.fields, b.attempt);
  }

  /** Any two of the three spellings of a record are accepted, when they fit, and are different. */
  lemma ThreeSpellings(f: Fields, a: Json, b: Json)
    requires ValidFields(f) && WrittenAttempt(a) && WrittenAttempt(b)
    requires ByteLength(EvidenceText(f, a)) <= 8_192
    ensures ValidateEvidence(EvidenceText(f, a)) == Some(Read(f, a))
    ensures EvidenceText(f, a) == EvidenceText(f, b) <==> a == b
  {
    EvidenceLanguage(EvidenceText(f, a), f, a);
    if EvidenceText(f, a) == EvidenceText(f, b) {
      TextTellsAttempt(f, a, b);
    }
  }

  lemma TextTellsAttempt(f: Fields, a: Json, b: Json)
    requires WrittenAttempt(a) && WrittenAttempt(b) && EvidenceText(f, a) == EvidenceText(f, b)
    ensures a == b
  {
    AttemptsAre(a);
    AttemptsAre(b);
    DocumentPrintable(f, a);
    DocumentPrintable(f, b);
    CanonicalInjective(Document(f, a), Document(f, b));
    ZipInjective(KEYS, Values(f, a), Values(f, b), 5);
  }

  /** What the environment says about a record, the attempt apart. */
  predicate Matches(f: Fields, c: Context) {
    c.repository == "DevPathAi/devpath-shared" && c.sourceSha == f.sourceSha && c.runId == PrintInt(f.runId)
  }

  /** Main result: exactly what the comparison with the producer's context accepts: in an attempt that is
      called 1, True or 1.0, the one text of the record that spells its attempt so. */
  lemma VerifiedExactly(raw: string, f: Fields, c: Context)
    ensures VerifyEvidence(raw, c) == Some(f)
       <==> && ValidFields(f) && Matches(f, c) && ByteLength(raw) <= 8_192
            && (|| (c.attempt == "1" && raw == EvidenceText(f, JInt(1)))
                || (c.attempt == "True" && raw == EvidenceText(f, JBool(true)))
                || (c.attempt == "1.0" && raw == EvidenceText(f, JFloat(1, 0))))
  {
    AttemptTexts();
    EvidenceLanguage(raw, f, JInt(1));
    EvidenceLanguage(raw, f, JBool(true));
    EvidenceLanguage(raw, f, JFloat(1, 0));
    if VerifyEvidence(raw, c) == Some(f) {
      var read := ValidateEvidence(raw).value;
      EvidenceLanguage(raw, f, read.attempt);
    }
  }

  /** Main result: the comparison closes the gap. In a first attempt the check accepts exactly one text
      for a record, the one that the producer writes. */
  lemma VerifiedIsWritten(raw: string, f: Fields, c: Context)
    requires c.attempt == "1"
    ensures VerifyEvidence(raw, c) == Some(f) <==> WriteEvidence(f) == Some(raw) && Matches(f, c)
  {
    AttemptTexts();
    VerifiedExactly(raw, f, c);
    if WriteEvidence(f) == Some(raw) {
      EvidenceLanguage(raw, f, JInt(1));
    }
  }

  lemma AttemptTexts()
    ensures PythonText(JInt(1)) == Some("1") && PythonText(JBool(true)) == Some("True")
    ensures PythonText(JFloat(1, 0)) == Some("1.0")
    ensures "1" != "True" && "1" != "1.0" && "True" != "1.0"
  {
    assert PrintNat(1) == "1" && |"1.0"| != |"1"| && |"True"| != |"1"| && |"True"| != |"1.0"|;
  }
}
