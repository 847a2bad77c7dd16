/** Image evidence without the table of keys: the document of a record, name by name. */
module ImageDocument {
  import opened Results
  import opened Text
  import opened Formats
  import opened Json
  import opened JsonRoundTrip
  import opened OrderedJson
  import opened BaseImages
  import Patterns
  import RemoteImage
  import opened ImageEvidence

  /** The key under which the evidence names a base image. */
  function BaseKey(b: Base): string {
    match b
    case BuilderIndex => "builder_base_index_digest"
    case BuilderAmd64 => "builder_base_amd64_digest"
    case RuntimeIndex => "runtime_base_index_digest"
    case RuntimeAmd64 => "runtime_base_amd64_digest"
  }

  /** The last four members of a document. */
  function BaseMembers(): (r: seq<Member>)
    ensures |r| == 4
  {
    seq(4, i requires 0 <= i < 4 => Member(BaseKey(BaseNumber(i)), JStr(DigestOf(BaseNumber(i)))))
  }

  /** The first twelve. */
  function OwnMembers(f: Fields, attempt: Json): seq<Member> {
    [ Member("schema_version", JStr("leva.mission-spine." + "immutable-migration-image.v1")),
      Member("status", JStr("passed")),
      Member("repository", JStr("DevPathAi/devpath-shared")),
      Member("source_sha", JStr(f.sourceSha)),
      Member("producer_run_id", JInt(f.runId)),
      Member("producer_run_attempt", attempt),
      Member("image_repository", JStr("ghcr.io/devpathai/devpath-migration")),
      Member("image_tag", JStr(f.sourceSha)),
      Member("image_digest", JStr(f.digest)),
      Member("publish_mode", JStr(if f.mode == Published then "published" else "reused")),
      Member("source_label", JStr("https://github.com/DevPathAi/devpath-shared")),
      Member("revision_label", JStr(f.sourceSha)) ]
  }

  lemma NamesAre()
    ensures SCHEMA_VERSION == "leva.mission-spine." + "immutable-migration-image.v1"
    ensures REPOSITORY == "DevPathAi/devpath-shared" && IMAGE_REPOSITORY == "ghcr.io/devpathai/devpath-migration"
    ensures RemoteImage.SOURCE_LABEL == "https://github.com/DevPathAi/devpath-shared"
  {
  }

  lemma OwnSpelled(f: Fields, attempt: Json)
    ensures Zip(KEYS, Values(f, attempt))[..12] == OwnMembers(f, attempt)
  {
    NamesAre();
  }

  lemma BaseSpelled(f: Fields, attempt: Json, i: nat)
    requires i < 4
    ensures Zip(KEYS, Values(f, attempt))[12 + i] == BaseMembers()[i]
  {
    assert Values(f, attempt)[12 + i] == BaseTexts()[i];
    assert KEYS[12 + i] == BaseKey(BaseNumber(i));
  }

  lemma DocumentSpelled(f: Fields, attempt: Json)
    ensures Document(f, attempt) == JObj(OwnMembers(f, attempt) + BaseMembers())
  {
    var members := Zip(KEYS, Values(f, attempt));
    OwnSpelled(f, attempt);
    forall i | 0 <= i < 4 ensures members[12 + i] == BaseMembers()[i] {
      BaseSpelled(f, attempt, i);
    }
    assert members[12..] == BaseMembers();
    assert members == members[..12] + members[12..];
  }

  /** A source commit, a run and a digest in their patterns. */
  predicate Fits(f: Fields) {
    && Patterns.Matches(Patterns.SHA40, f.sourceSha) && !Patterns.OnlyZero(f.sourceSha)
    && f.runId > 0 && IsDigest(f.digest)
  }

  /** Main result: the texts that are accepted, and what they say. A text is accepted exactly when it is
      the canonical text of the spelled out document, for fields in their patterns and one of the three
      run attempts, and the producer writes the one whose attempt is the integer. */
  lemma EvidenceSays(raw: string, f: Fields, attempt: Json)
    ensures ValidateEvidence(raw) == Some(Read(f, attempt))
       <==> && Fits(f) && (attempt == JInt(1) || attempt == JBool(true) || attempt == JFloat(1, 0))
            && ByteLength(raw) <= 8_192
            && Printable(JObj(OwnMembers(f, attempt) + BaseMembers()))
            && raw == Canonical(JObj(OwnMembers(f, attempt) + BaseMembers()))
    ensures WriteEvidence(f) == Some(raw) <==> ValidateEvidence(raw) == Some(Read(f, JInt(1)))
    ensures WriteEvidence(f) == Some(raw) ==> ParseDocument(raw) == Some(JObj(OwnMembers(f, JInt(1)) + BaseMembers()))
  {
    Patterns.Sha40Is(f.sourceSha);
    AttemptsAre(attempt);
    DocumentPrintable(f, attempt);
    DocumentSpelled(f, attempt);
    EvidenceLanguage(raw, f, attempt);
    Written(raw, f);
  }

  lemma Written(raw: string, f: Fields)
    ensures WriteEvidence(f) == Some(raw) <==> ValidateEvidence(raw) == Some(Read(f, JInt(1)))
    ensures WriteEvidence(f) == Some(raw) ==> ParseDocument(raw) == Some(JObj(OwnMembers(f, JInt(1)) + BaseMembers()))
  {
    EvidenceLanguage(raw, f, JInt(1));
    DocumentPrintable(f, JInt(1));
    DocumentSpelled(f, JInt(1));
    DocumentRead(Document(f, JInt(1)));
  }
}
