/** The language of the evidence validator, and the closure of the builder under it. */
module EvidenceProofs {
  import opened Results
  import opened Text
  import opened Formats
  import opened Json
  import opened JsonRoundTrip
  import opened Evidence
  import opened OrderedJson

  // ---------------------------------------------------------------- the keys

  lemma TopKeysDistinct()
    ensures Distinct(TOP_KEYS)
  {
  }

  lemma SharedKeysDistinct()
    ensures Distinct(SHARED_KEYS)
  {
  }

  lemma ApprovalKeysDistinct()
    ensures Distinct(APPROVAL_KEYS)
  {
  }

  lemma GitopsKeysDistinct()
    ensures Distinct(GITOPS_KEYS)
  {
    ToldApart(GITOPS_KEYS, [10, 8, 18, 17, 20, 18, 12, 14, 12, 25, 6, 13, 17, 14, 18, 21], "rbspmmpwwwbcrccc");
  }

  lemma ImageKeysDistinct()
    ensures Distinct(IMAGE_KEYS)
  {
  }

  // ---------------------------------------------------------------- one section after another

  function SharedJson(s: Shared): Json {
    JObj(Zip(SHARED_KEYS, SharedValues(s)))
  }

  function ApprovalJson(a: Approval): Json {
    JObj(Zip(APPROVAL_KEYS, ApprovalValues(a)))
  }

  function GitopsJson(g: Gitops, jobName: string, subject: string): Json {
    JObj(Zip(GITOPS_KEYS, GitopsValues(g, jobName, subject)))
  }

  function ImageJson(digest: string): Json {
    JObj(Zip(IMAGE_KEYS, ImageValues(digest)))
  }

  lemma SharedLanguage(v: Json, s: Shared)
    ensures CheckShared(v) == Some(s) <==> ValidShared(s) && v == SharedJson(s)
  {
  }

  lemma ApprovalLanguage(v: Json, a: Approval)
    ensures CheckApproval(v) == Some(a) <==> ValidApproval(a) && v == ApprovalJson(a)
  {
    OrderedIsZip(v, APPROVAL_KEYS, ApprovalValues(a));
  }

  lemma GitopsValuesChecked(g: Gitops, jobName: string, subject: string)
    requires ValidGitops(g)
    ensures CheckGitopsValues(GitopsValues(g, jobName, subject), jobName, subject) == Some(g)
  {
  }

  lemma GitopsValuesPinned(x: seq<Json>, g: Gitops, jobName: string, subject: string)
    requires |x| == 16 && CheckGitopsValues(x, jobName, subject) == Some(g)
    ensures ValidGitops(g) && x == GitopsValues(g, jobName, subject)
  {
  }

  lemma GitopsLanguage(v: Json, g: Gitops, jobName: string, subject: string)
    ensures CheckGitops(v, jobName, subject) == Some(g) <==> ValidGitops(g) && v == GitopsJson(g, jobName, subject)
  {
    OrderedIsZip(v, GITOPS_KEYS, GitopsValues(g, jobName, subject));
    if CheckGitops(v, jobName, subject) == Some(g) {
      GitopsValuesPinned(OrderedValues(v, GITOPS_KEYS).value, g, jobName, subject);
    }
    if ValidGitops(g) {
      GitopsValuesChecked(g, jobName, subject);
    }
  }

  lemma ImageLanguage(v: Json, digest: string)
    ensures CheckImage(v) == Some(digest) <==> IsDigest(digest) && v == ImageJson(digest)
  {
  }

  predicate ScalarsAre(x: seq<Json>, f: Fields)
    requires |x| == 9
  {
    && x[0] == JInt(2) && x[1] == JStr(RESULT_DOCUMENT_TYPE)
    && x[2] == JStr(f.releaseId) && x[3] == JStr(f.candidateSha) && x[4] == JStr(f.releaseSha)
  }

  /** What the top level alone fixes: the five scalars, and which section gave which part. */
  lemma TopValuesSplit(x: seq<Json>, f: Fields)
    requires |x| == 9 && CheckTopValues(x) == Some(f)
    ensures IsReleaseId(f.releaseId) && IsSha64(f.candidateSha) && IsSha64(f.releaseSha) && IsDigest(f.digest)
    ensures ScalarsAre(x, f)
    ensures CheckShared(x[5]) == Some(f.shared)
    ensures CheckApproval(x[6]) == Some(f.approval)
    ensures CheckImage(x[8]) == Some(f.digest)
    ensures CheckGitops(x[7], DerivedJobName(f.digest, f.releaseSha), CommitSubject(f.releaseId, f.releaseSha))
         == Some(f.gitops)
  {
  }

  lemma TopValuesJoin(x: seq<Json>, f: Fields)
    requires |x| == 9 && ScalarsAre(x, f) && IsReleaseId(f.releaseId)
    requires IsSha64(f.candidateSha) && IsSha64(f.releaseSha) && IsDigest(f.digest)
    requires CheckShared(x[5]) == Some(f.shared)
    requires CheckApproval(x[6]) == Some(f.approval)
    requires CheckImage(x[8]) == Some(f.digest)
    requires CheckGitops(x[7], DerivedJobName(f.digest, f.releaseSha), CommitSubject(f.releaseId, f.releaseSha))
          == Some(f.gitops)
    ensures CheckTopValues(x) == Some(f)
  {
  }

  /** The sections as they are printed, the other values in their places. */
  lemma TopValuesMeet(x: seq<Json>, f: Fields)
    requires |x| == 9 && ScalarsAre(x, f) && ValidFields(f)
    requires x[5] == SharedJson(f.shared) && x[6] == ApprovalJson(f.approval) && x[8] == ImageJson(f.digest)
    requires x[7]
          == GitopsJson(f.gitops, DerivedJobName(f.digest, f.releaseSha), CommitSubject(f.releaseId, f.releaseSha))
    ensures x == TopValues(f)
  {
  }

  lemma TopValuesChecked(f: Fields)
    requires ValidFields(f)
    ensures CheckTopValues(TopValues(f)) == Some(f)
  {
    var x := TopValues(f);
    SharedLanguage(x[5], f.shared);
    ApprovalLanguage(x[6], f.approval);
    ImageLanguage(x[8], f.digest);
    GitopsLanguage(x[7], f.gitops, DerivedJobName(f.digest, f.releaseSha), CommitSubject(f.releaseId, f.releaseSha));
    TopValuesJoin(x, f);
  }

  lemma TopValuesPinned(x: seq<Json>, f: Fields)
    requires |x| == 9 && CheckTopValues(x) == Some(f)
    ensures ValidFields(f) && x == TopValues(f)
  {
    TopValuesSplit(x, f);
    SharedLanguage(x[5], f.shared);
    ApprovalLanguage(x[6], f.approval);
    ImageLanguage(x[8], f.digest);
    GitopsLanguage(x[7], f.gitops, DerivedJobName(f.digest, f.releaseSha), CommitSubject(f.releaseId, f.releaseSha));
    TopValuesMeet(x, f);
  }

  /** The field checks accept exactly the documents of valid records, and return the record. */
  lemma DocumentLanguage(v: Json, f: Fields)
    ensures CheckDocument(v) == Some(f) <==> ValidFields(f) && v == Document(f)
  {
    if ValidFields(f) {
      OrderedIsZip(v, TOP_KEYS, TopValues(f));
      TopValuesChecked(f);
    }
    if CheckDocument(v) == Some(f) {
      var x := OrderedValues(v, TOP_KEYS).value;
      TopValuesPinned(x, f);
      OrderedIsZip(v, TOP_KEYS, TopValues(f));
    }
  }

  // ---------------------------------------------------------------- every document is printable

  lemma SharedPrintable(s: Shared)
    ensures Printable(SharedJson(s))
  {
    SharedKeysDistinct();
    ZipPrintable(SHARED_KEYS, SharedValues(s));
  }

  lemma ApprovalPrintable(a: Approval)
    ensures Printable(ApprovalJson(a))
  {
  }

  lemma GitopsPrintable(g: Gitops, jobName: string, subject: string)
    ensures Printable(GitopsJson(g, jobName, subject))
  {
    GitopsKeysDistinct();
    ZipPrintable(GITOPS_KEYS, GitopsValues(g, jobName, subject));
  }

  lemma ImagePrintable(digest: string)
    ensures Printable(ImageJson(digest))
  {
  }

  lemma DocumentPrintable(f: Fields)
    requires ValidFields(f)
    ensures Printable(Document(f))
  {
    TopKeysDistinct();
    SharedPrintable(f.shared);
    ApprovalPrintable(f.approval);
    GitopsPrintable(f.gitops, DerivedJobName(f.digest, f.releaseSha), CommitSubject(f.releaseId, f.releaseSha));
    ImagePrintable(f.digest);
    ZipPrintable(TOP_KEYS, TopValues(f));
  }

  // ---------------------------------------------------------------- the language of the validator

  /** The one text of a record. */
  function EvidenceText(f: Fields): string
    requires ValidFields(f)
  {
    DocumentPrintable(f);
    Canonical(Document(f))
  }

  /** Main result: the validator accepts a text as a record exactly when the record is valid and
      the text is its one canonical text, within the size bound. */
  lemma EvidenceLanguage(raw: string, f: Fields)
    ensures ValidateEvidence(raw) == Ok(f)
       <==> ValidFields(f) && raw == EvidenceText(f) && ByteLength(raw) <= 16_384
  {
    if ValidateEvidence(raw) == Ok(f) {
      DocumentLanguage(ParseDocument(raw).value, f);
    }
    if ValidFields(f) && raw == EvidenceText(f) {
      DocumentPrintable(f);
      DocumentRead(Document(f));
      DocumentLanguage(Document(f), f);
    }
  }

  /** Accepted texts are equal exactly when the records read from them are: no second spelling,
      and no text that stands for two records. */
  lemma OneSpelling(a: string, b: string)
    requires ValidateEvidence(a).Ok? && ValidateEvidence(b).Ok?
    ensures a == b <==> ValidateEvidence(a) == ValidateEvidence(b)
  {
    EvidenceLanguage(a, ValidateEvidence(a).value);
    EvidenceLanguage(b, ValidateEvidence(b).value);
  }

  // ---------------------------------------------------------------- the builder

  /** What the builder writes is the document of the record. */
  lemma BuiltIsDocument(b: BuildInput, hash: string -> string)
    requires ChecksPass(b) && ValidFields(BuiltFields(b, hash))
    ensures BuiltDocument(b, hash) == Document(BuiltFields(b, hash))
  {
  }

  lemma BuiltValid(b: BuildInput, hash: string -> string)
    requires ChecksPass(b)
    ensures ValidFields(BuiltFields(b, hash)) <==> IsSha64(hash(b.workflow)) && ValidApproval(b.approval.value)
  {
  }

  lemma HashInShared(x: seq<Json>, s: Shared)
    requires |x| == 11 && JObj(Zip(SHARED_KEYS, x)) == SharedJson(s)
    ensures x[4] == JStr(s.workflowSha)
  {
    ZipInjective(SHARED_KEYS, x, SharedValues(s), 4);
  }

  lemma HashInTop(top: seq<Json>, shared: seq<Json>, f: Fields)
    requires |top| == 9 && |shared| == 11 && top[5] == JObj(Zip(SHARED_KEYS, shared))
    requires ValidFields(f) && JObj(Zip(TOP_KEYS, top)) == Document(f)
    ensures shared[4] == JStr(f.shared.workflowSha)
  {
    ZipInjective(TOP_KEYS, top, TopValues(f), 5);
    HashInShared(shared, f.shared);
  }

  /** Where the builder puts the workflow hash. */
  lemma BuiltPlaces(b: BuildInput, hash: string -> string)
    requires ChecksPass(b)
    ensures |BuiltValues(b, hash)| == 9 && |BuiltShared(b, hash)| == 11
    ensures BuiltDocument(b, hash) == JObj(Zip(TOP_KEYS, BuiltValues(b, hash)))
    ensures BuiltValues(b, hash)[5] == JObj(Zip(SHARED_KEYS, BuiltShared(b, hash)))
    ensures BuiltShared(b, hash)[4] == JStr(hash(b.workflow))
  {
  }

  /** A document in the form that the builder writes fixes the workflow hash. */
  lemma WorkflowHashPinned(b: BuildInput, hash: string -> string, f: Fields)
    requires ChecksPass(b) && ValidFields(f) && BuiltDocument(b, hash) == Document(f)
    ensures f.shared.workflowSha == hash(b.workflow)
  {
    BuiltPlaces(b, hash);
    HashInTop(BuiltValues(b, hash), BuiltShared(b, hash), f);
  }

  lemma PrintCheckedDocument(f: Fields)
    requires ValidFields(f)
    ensures PrintChecked(Document(f))
         == if ByteLength(EvidenceText(f)) <= MAX_EVIDENCE_BYTES then Ok(EvidenceText(f)) else Err(BadSize)
  {
    DocumentPrintable(f);
    EvidenceLanguage(EvidenceText(f), f);
  }

  lemma PrintCheckedIsDocument(v: Json) returns (f: Fields)
    requires PrintChecked(v).Ok?
    ensures ValidFields(f) && v == Document(f)
  {
    f := ValidateEvidence(Canonical(v)).value;
    EvidenceLanguage(Canonical(v), f);
    DocumentPrintable(f);
    CanonicalInjective(v, Document(f));
  }

  lemma BuildOnBadHash(b: BuildInput, hash: string -> string)
    requires ChecksPass(b) && !IsSha64(hash(b.workflow))
    ensures BuildEvidence(b, hash).Err?
  {
    if PrintChecked(BuiltDocument(b, hash)).Ok? {
      var f := PrintCheckedIsDocument(BuiltDocument(b, hash));
      WorkflowHashPinned(b, hash, f);
      assert false;
    }
  }

  lemma BuildOnGoodHash(b: BuildInput, hash: string -> string)
    requires ChecksPass(b) && ValidApproval(b.approval.value) && IsSha64(hash(b.workflow))
    ensures ValidFields(BuiltFields(b, hash))
    ensures BuildEvidence(b, hash) == PrintChecked(Document(BuiltFields(b, hash)))
  {
    BuiltValid(b, hash);
    BuiltIsDocument(b, hash);
  }

  /** Main result: behind its own checks the builder fails only on a workflow hash of zeroes and
      on size; what it returns is the canonical text of the record it was asked for. */
  lemma BuildSucceeds(b: BuildInput, hash: string -> string)
    requires |hash(b.workflow)| == 64 && IsHex(hash(b.workflow))
    requires b.approval.Some? ==> ValidApproval(b.approval.value)
    ensures BuildEvidence(b, hash).Ok?
       <==> && ChecksPass(b)
            && !AllZeroes(hash(b.workflow))
            && ByteLength(EvidenceText(BuiltFields(b, hash))) <= MAX_EVIDENCE_BYTES
    ensures BuildEvidence(b, hash).Ok? ==>
      && BuildEvidence(b, hash).value == EvidenceText(BuiltFields(b, hash))
      && ValidateEvidence(BuildEvidence(b, hash).value) == Ok(BuiltFields(b, hash))
  {
    if ChecksPass(b) {
      if IsSha64(hash(b.workflow)) {
        BuildOnGoodHash(b, hash);
        PrintCheckedDocument(BuiltFields(b, hash));
        EvidenceLanguage(EvidenceText(BuiltFields(b, hash)), BuiltFields(b, hash));
      } else {
        BuildOnBadHash(b, hash);
      }
    }
  }
}
