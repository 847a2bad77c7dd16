/** Evidence cannot outgrow its size bound: approval ids of at most 100 digits leave room. */
module EvidenceSize {
  import opened Results
  import opened Text
  import opened Formats
  import opened Json
  import opened JsonRoundTrip
  import opened OrderedJson
  import opened Evidence
  import opened EvidenceProofs

  const MAX_ID_DIGITS := 100

  /** ASCII text of at most n characters, hence of at most n bytes. */
  predicate Small(s: string, n: int) {
    IsAscii(s) && |s| <= n
  }

  lemma CharSmall(c: char)
    ensures Small(PrintChar(c), 12)
  {
  }

  lemma {:induction false} CharsSmall(s: string)
    ensures Small(PrintChars(s), 12 * |s|)
  {
    if s != "" {
      CharSmall(s[0]);
      CharsSmall(s[1..]);
    }
  }

  predicate AllPlain(s: string) {
    forall i | 0 <= i < |s| :: IsPlain(s[i])
  }

  lemma {:induction false} PlainChars(s: string)
    requires AllPlain(s)
    ensures PrintChars(s) == s
  {
    if s != "" {
      PlainChars(s[1..]);
    }
  }

  /** A text value that prints as itself between quotes. */
  predicate PlainText(v: Json, w: int) {
    v.JStr? && AllPlain(v.text) && |v.text| + 2 <= w
  }

  predicate IdValue(v: Json) {
    v.JInt? && v.number >= 0 && |PrintNat(v.number)| <= MAX_ID_DIGITS
  }

  lemma TextSmall(v: Json, w: int)
    requires PlainText(v, w)
    ensures Printable(v) && Small(Print(v), w)
  {
    PlainChars(v.text);
  }

  lemma IdSmall(v: Json)
    requires IdValue(v)
    ensures Printable(v) && Small(Print(v), MAX_ID_DIGITS)
  {
    NatPrinted(v.number);
  }

  /** Plain texts and ids. */
  predicate Scalars(values: seq<Json>, w: int) {
    forall i | 0 <= i < |values| :: PlainText(values[i], w) || IdValue(values[i])
  }

  lemma ScalarsSmall(values: seq<Json>, w: nat)
    requires w >= MAX_ID_DIGITS && Scalars(values, w)
    ensures ValuesSmall(values, w)
  {
    forall i | 0 <= i < |values| ensures Printable(values[i]) && Small(Print(values[i]), w) {
      if PlainText(values[i], w) {
        TextSmall(values[i], w);
      } else {
        IdSmall(values[i]);
      }
    }
  }

  lemma MemberSmall(m: Member, k: nat, w: nat)
    requires |m.key| <= k && Printable(m.value) && Small(Print(m.value), w)
    ensures Small(PrintMember(m), 12 * k + 3 + w)
  {
    CharsSmall(m.key);
  }

  function Sum(ws: seq<nat>): nat {
    if ws == [] then 0 else ws[0] + Sum(ws[1..])
  }

  lemma JoinSmall(first: string, rest: string, m: int, n: int)
    requires Small(first, m) && Small(rest, n)
    ensures Small(first + "," + rest, m + 1 + n)
  {
  }

  lemma {:induction false} MembersSmall(ms: seq<Member>, ws: seq<nat>)
    requires |ws| == |ms| > 0 && MembersPrintable(ms)
    requires forall i | 0 <= i < |ms| :: IsAscii(PrintMember(ms[i])) && |PrintMember(ms[i])| < ws[i]
    ensures Small(PrintMembers(ms), Sum(ws))
    decreases |ms|
  {
    if |ms| == 1 {
      assert PrintMembers(ms) == PrintMember(ms[0]);
    } else {
      MembersSmall(ms[1..], ws[1..]);
      JoinSmall(PrintMember(ms[0]), PrintMembers(ms[1..]), ws[0] - 1, Sum(ws[1..]));
      assert PrintMembers(ms) == PrintMember(ms[0]) + "," + PrintMembers(ms[1..]);
    }
  }

  predicate ValuesSmall(values: seq<Json>, w: nat) {
    forall i | 0 <= i < |values| :: Printable(values[i]) && Small(Print(values[i]), w)
  }

  predicate KeysShort(keys: seq<string>, k: nat) {
    forall i | 0 <= i < |keys| :: |keys[i]| <= k
  }

  lemma MemberWeights(keys: seq<string>, values: seq<Json>, k: nat, c: nat, ws: seq<nat>)
    requires |keys| == |values| == |ws| && KeysShort(keys, k) && c == 12 * k + 4
    requires forall i | 0 <= i < |values| :: Printable(values[i]) && Small(Print(values[i]), ws[i])
    ensures forall m | m in Zip(keys, values) :: Printable(m.value)
    ensures forall i | 0 <= i < |keys| ::
      IsAscii(PrintMember(Zip(keys, values)[i])) && |PrintMember(Zip(keys, values)[i])| < Raised(ws, c)[i]
  {
    forall i | 0 <= i < |keys|
      ensures IsAscii(PrintMember(Zip(keys, values)[i])) && |PrintMember(Zip(keys, values)[i])| < Raised(ws, c)[i]
    {
      MemberSmall(Zip(keys, values)[i], k, ws[i]);
    }
  }

  lemma BracesSmall(ms: seq<Member>, n: int)
    requires ms != [] && Printable(JObj(ms)) && MembersPrintable(ms) && Small(PrintMembers(ms), n)
    ensures Small(Print(JObj(ms)), n + 2)
  {
  }

  /** An object whose i-th value has at most ws[i] characters. */
  lemma ObjectSum(keys: seq<string>, values: seq<Json>, k: nat, c: nat, ws: seq<nat>)
    requires |keys| == |values| == |ws| > 0 && Distinct(keys) && KeysShort(keys, k) && c == 12 * k + 4
    requires forall i | 0 <= i < |values| :: Printable(values[i]) && Small(Print(values[i]), ws[i])
    ensures Printable(JObj(Zip(keys, values)))
    ensures Small(Print(JObj(Zip(keys, values))), Sum(Raised(ws, c)) + 2)
  {
    ZipPrintable(keys, values);
    MemberWeights(keys, values, k, c, ws);
    MembersSmall(Zip(keys, values), Raised(ws, c));
    BracesSmall(Zip(keys, values), Sum(Raised(ws, c)));
  }

  function Raised(ws: seq<nat>, c: nat): seq<nat> {
    seq(|ws|, i requires 0 <= i < |ws| => ws[i] + c)
  }

  lemma {:induction false} SameSum(n: nat, w: nat)
    ensures Sum(Same(n, w)) == n * w
  {
    if n > 0 {
      SameSum(n - 1, w);
      assert Same(n, w)[1..] == Same(n - 1, w);
      assert n * w == (n - 1) * w + w;
    }
  }

  function Same(n: nat, w: nat): seq<nat> {
    seq(n, _ => w)
  }

  lemma ObjectSmall(keys: seq<string>, values: seq<Json>, k: nat, c: nat, w: nat)
    requires |keys| == |values| > 0 && Distinct(keys) && KeysShort(keys, k) && c == 12 * k + 4
    requires ValuesSmall(values, w)
    ensures Printable(JObj(Zip(keys, values)))
    ensures Small(Print(JObj(Zip(keys, values))), |keys| * (w + c) + 2)
  {
    ObjectSum(keys, values, k, c, Same(|keys|, w));
    assert Raised(Same(|keys|, w), c) == Same(|keys|, w + c);
    SameSum(|keys|, w + c);
  }

  // ---------------------------------------------------------------- numbers

  lemma {:induction false} DigitsSuffice(s: string)
    requires s != ""
    ensures |PrintNat(NatValue(s))| <= |s|
  {
    var rest, d := s[..|s| - 1], DigitValue(s[|s| - 1]);
    if rest == "" {
      assert NatValue(s) == d < 10;
    } else {
      DigitsSuffice(rest);
      assert NatValue(s) == NatValue(rest) * 10 + d;
      assert NatValue(s) / 10 == NatValue(rest);
    }
  }

  /** An id that the builder reads from its environment has at most 20 digits. */
  lemma DecimalSmall(s: string)
    requires PositiveDecimal(s).Some?
    ensures IdValue(JInt(PositiveDecimal(s).value))
  {
    DigitsSuffice(s);
  }

  // ---------------------------------------------------------------- the patterns are plain

  lemma HexPlain(s: string)
    requires IsHex(s)
    ensures AllPlain(s)
  {
  }

  lemma AppendPlain(a: string, b: string)
    requires AllPlain(a) && AllPlain(b)
    ensures AllPlain(a + b)
  {
  }

  lemma DigestPlain(digest: string)
    requires IsDigest(digest)
    ensures AllPlain(digest) && |digest| == 71
  {
  }

  lemma ReleaseIdPlain(id: string)
    requires IsReleaseId(id)
    ensures AllPlain(id) && |id| <= 53
  {
  }

  lemma SubjectPlain(id: string, sha: string)
    requires IsReleaseId(id) && IsSha64(sha)
    ensures AllPlain(CommitSubject(id, sha)) && |CommitSubject(id, sha)| <= 152
  {
    ReleaseIdPlain(id);
    HexPlain(sha);
    AppendPlain("deploy(devpath-migration): ", id);
    AppendPlain("deploy(devpath-migration): " + id, " sealed ");
    AppendPlain("deploy(devpath-migration): " + id + " sealed ", sha);
  }

  lemma JobNamePlain(digest: string, sha: string)
    requires IsDigest(digest) && IsSha64(sha)
    ensures AllPlain(DerivedJobName(digest, sha)) && |DerivedJobName(digest, sha)| == 60
  {
  }

  // ---------------------------------------------------------------- the constants are plain

  lemma RepositoryPlain()
    ensures AllPlain(REPOSITORY) && |REPOSITORY| == 24
  {
  }

  lemma WorkflowPathPlain()
    ensures AllPlain(WORKFLOW_PATH) && |WORKFLOW_PATH| == 53
  {
  }

  lemma RefPlain()
    ensures AllPlain(GITOPS_REF) && |GITOPS_REF| == 15
  {
  }

  lemma WorkflowRefPlain()
    ensures AllPlain(WORKFLOW_REF) && |WORKFLOW_REF| == 94
  {
    RepositoryPlain();
    WorkflowPathPlain();
    RefPlain();
    AppendPlain(REPOSITORY, "/");
    AppendPlain(REPOSITORY + "/", WORKFLOW_PATH);
    AppendPlain(REPOSITORY + "/" + WORKFLOW_PATH, "@");
    AppendPlain(REPOSITORY + "/" + WORKFLOW_PATH + "@", GITOPS_REF);
  }

  lemma NamesPlain()
    ensures AllPlain(EVENT_NAME) && |EVENT_NAME| <= 100
    ensures AllPlain(JOB_NAME) && |JOB_NAME| <= 100
    ensures AllPlain(ENVIRONMENT_NAME) && |ENVIRONMENT_NAME| <= 100
  {
  }

  lemma GitopsNamesPlain()
    ensures AllPlain(GITOPS_REPOSITORY) && |GITOPS_REPOSITORY| <= 100
    ensures AllPlain(GITOPS_WRITE_APP_SLUG) && |GITOPS_WRITE_APP_SLUG| <= 100
    ensures AllPlain(GITOPS_BRANCH) && |GITOPS_BRANCH| <= 100
    ensures AllPlain(BOT_NAME) && |BOT_NAME| <= 100
  {
  }

  lemma ImageNamePlain()
    ensures AllPlain(IMAGE_REPOSITORY) && |IMAGE_REPOSITORY| <= 69
  {
  }

  lemma DocumentTypePlain()
    ensures AllPlain(RESULT_DOCUMENT_TYPE) && |RESULT_DOCUMENT_TYPE| <= 69
  {
  }

  lemma PathPlain(app: string)
    requires AllPlain(app)
    ensures AllPlain(BasePath(app)) && |BasePath(app)| == |app| + 29
  {
  }

  // ---------------------------------------------------------------- section by section

  lemma SmallNumbers()
    ensures IdValue(JInt(1)) && IdValue(JInt(2))
  {
  }

  lemma SharedScalars(s: Shared)
    requires ValidShared(s) && IdValue(JInt(s.runId))
    ensures Scalars(SharedValues(s), 102)
  {
    RepositoryPlain();
    WorkflowPathPlain();
    RefPlain();
    WorkflowRefPlain();
    NamesPlain();
    HexPlain(s.sourceSha);
    HexPlain(s.workflowSha);
    SmallNumbers();
  }

  lemma SharedKeysShort()
    ensures KeysShort(SHARED_KEYS, 15)
  {
  }

  /** A section whose keys and values are short. */
  lemma SectionSmall(keys: seq<string>, values: seq<Json>, v: Json, k: nat, w: nat, size: nat)
    requires |keys| == |values| > 0 && Distinct(keys) && KeysShort(keys, k) && ValuesSmall(values, w)
    requires v == JObj(Zip(keys, values)) && size == |keys| * (w + (12 * k + 4)) + 2
    ensures Printable(v) && Small(Print(v), size)
  {
    ObjectSmall(keys, values, k, 12 * k + 4, w);
  }

  lemma SharedSmall(s: Shared)
    requires ValidShared(s) && IdValue(JInt(s.runId))
    ensures Printable(SharedJson(s)) && Small(Print(SharedJson(s)), 3148)
  {
    SharedScalars(s);
    ScalarsSmall(SharedValues(s), 102);
    SharedKeysDistinct();
    SharedKeysShort();
    SectionSmall(SHARED_KEYS, SharedValues(s), SharedJson(s), 15, 102, 3148);
  }

  lemma LoginPlain(s: string)
    requires IsLogin(s)
    ensures AllPlain(s) && |s| <= 39
  {
  }

  lemma InstantPlain(s: string)
    requires IsUtcSeconds(s)
    ensures AllPlain(s) && |s| == 20
  {
  }

  lemma ApprovalSmall(a: Approval)
    requires ValidApproval(a) && IdValue(JInt(a.environmentId)) && IdValue(JInt(a.reviewerId))
    ensures Printable(ApprovalJson(a)) && Small(Print(ApprovalJson(a)), 2138)
  {
    LoginPlain(a.reviewerLogin);
    InstantPlain(a.effectiveAt);
    assert Scalars(ApprovalValues(a), 100);
    ScalarsSmall(ApprovalValues(a), 100);
    ApprovalKeysDistinct();
    assert KeysShort(APPROVAL_KEYS, 21);
    SectionSmall(APPROVAL_KEYS, ApprovalValues(a), ApprovalJson(a), 21, 100, 2138);
  }

  lemma PathValuesSmall(v: seq<Json>)
    requires |v| == 3 && Scalars(v, 51) && v[0].JStr? && v[1].JStr? && v[2].JStr?
    ensures Printable(JArr(v)) && Small(Print(JArr(v)), 157)
  {
    TextSmall(v[0], 51);
    TextSmall(v[1], 51);
    TextSmall(v[2], 51);
    assert PrintElements(v[1..]) == Print(v[1]) + "," + PrintElements(v[2..]);
    assert PrintElements(v[2..]) == Print(v[2]);
    JoinSmall(Print(v[1]), Print(v[2]), 51, 51);
    JoinSmall(Print(v[0]), PrintElements(v[1..]), 51, 103);
    assert PrintElements(v) == Print(v[0]) + "," + PrintElements(v[1..]);
  }

  lemma PathsSmall()
    ensures Printable(CHANGED_PATHS) && Small(Print(CHANGED_PATHS), 157)
  {
    PathPlain("devpath-migration");
    PathPlain("devpath-platform-svc");
    PathPlain("devpath-sandbox-svc");
    PathValuesSmall(CHANGED_PATHS.elements);
  }

  lemma GitopsScalars(g: Gitops, jobName: string, subject: string)
    requires ValidGitops(g) && IdValue(JInt(g.appId)) && IdValue(JInt(g.installationId))
    requires AllPlain(jobName) && |jobName| <= 60 && AllPlain(subject) && |subject| <= 152
    ensures Scalars(GitopsValues(g, jobName, subject)[..11], 157)
    ensures Scalars(GitopsValues(g, jobName, subject)[12..], 157)
  {
    GitopsNamesPlain();
    HexPlain(g.baseSha);
    HexPlain(g.sealedSha);
    HexPlain(g.prePushSha);
    HexPlain(g.migrationSha);
    HexPlain(g.treeSha);
    assert AllPlain("published") && AllPlain("reused");
  }

  lemma ScalarsAround(values: seq<Json>, j: nat, w: nat)
    requires j < |values| && Scalars(values[..j], w) && Scalars(values[j + 1..], w) && w >= MAX_ID_DIGITS
    requires Printable(values[j]) && Small(Print(values[j]), w)
    ensures ValuesSmall(values, w)
  {
    ScalarsSmall(values[..j], w);
    ScalarsSmall(values[j + 1..], w);
    forall i | 0 <= i < |values| ensures Printable(values[i]) && Small(Print(values[i]), w) {
      if i < j {
        assert values[i] == values[..j][i];
      } else if i > j {
        assert values[i] == values[j + 1..][i - j - 1];
      }
    }
  }

  lemma GitopsValuesSmall(g: Gitops, jobName: string, subject: string)
    requires ValidGitops(g) && IdValue(JInt(g.appId)) && IdValue(JInt(g.installationId))
    requires AllPlain(jobName) && |jobName| <= 60 && AllPlain(subject) && |subject| <= 152
    ensures ValuesSmall(GitopsValues(g, jobName, subject), 157)
  {
    GitopsScalars(g, jobName, subject);
    PathsSmall();
    ScalarsAround(GitopsValues(g, jobName, subject), 11, 157);
  }

  lemma GitopsKeysShort()
    ensures KeysShort(GITOPS_KEYS, 25)
  {
  }

  lemma GitopsSmall(g: Gitops, jobName: string, subject: string)
    requires ValidGitops(g) && IdValue(JInt(g.appId)) && IdValue(JInt(g.installationId))
    requires AllPlain(jobName) && |jobName| <= 60 && AllPlain(subject) && |subject| <= 152
    ensures Printable(GitopsJson(g, jobName, subject)) && Small(Print(GitopsJson(g, jobName, subject)), 7378)
  {
    GitopsValuesSmall(g, jobName, subject);
    GitopsKeysDistinct();
    GitopsKeysShort();
    SectionSmall(GITOPS_KEYS, GitopsValues(g, jobName, subject), GitopsJson(g, jobName, subject), 25, 157, 7378);
  }

  lemma ImageSmall(digest: string)
    requires IsDigest(digest)
    ensures Printable(ImageJson(digest)) && Small(Print(ImageJson(digest)), 450)
  {
    ImageNamePlain();
    DigestPlain(digest);
    assert Scalars(ImageValues(digest), 100);
    ScalarsSmall(ImageValues(digest), 100);
    ImageKeysDistinct();
    assert KeysShort(IMAGE_KEYS, 10);
    SectionSmall(IMAGE_KEYS, ImageValues(digest), ImageJson(digest), 10, 100, 450);
  }

  // ---------------------------------------------------------------- the whole document

  predicate SmallIds(f: Fields) {
    && IdValue(JInt(f.shared.runId)) && IdValue(JInt(f.approval.environmentId))
    && IdValue(JInt(f.approval.reviewerId)) && IdValue(JInt(f.gitops.appId))
    && IdValue(JInt(f.gitops.installationId))
  }

  /** A bound for each of the nine top values. */
  const TOP_BOUNDS: seq<nat> := [100, 100, 100, 100, 100, 3148, 2138, 7378, 450]

  lemma TopBoundsSum()
    ensures Sum(Raised(TOP_BOUNDS, 280)) == 16134
  {
    assert Raised(TOP_BOUNDS, 280) == [380, 380, 380, 380, 380, 3428, 2418, 7658, 730];
    assert Sum([380, 380, 380, 380, 380, 3428, 2418, 7658, 730]) == 16134;
  }

  lemma TopScalarsSmall(f: Fields)
    requires ValidFields(f)
    ensures ValuesSmall(TopValues(f)[..5], 100)
  {
    SmallNumbers();
    DocumentTypePlain();
    ReleaseIdPlain(f.releaseId);
    HexPlain(f.candidateSha);
    HexPlain(f.releaseSha);
    assert Scalars(TopValues(f)[..5], 100);
    ScalarsSmall(TopValues(f)[..5], 100);
  }

  predicate WithinBounds(values: seq<Json>, ws: seq<nat>) {
    && |values| == |ws|
    && forall i | 0 <= i < |values| :: Printable(values[i]) && Small(Print(values[i]), ws[i])
  }

  /** The bounds put together, whatever the values are. */
  lemma TopMeet(x: seq<Json>)
    requires |x| == 9 && ValuesSmall(x[..5], 100)
    requires Printable(x[5]) && Small(Print(x[5]), 3148) && Printable(x[6]) && Small(Print(x[6]), 2138)
    requires Printable(x[7]) && Small(Print(x[7]), 7378) && Printable(x[8]) && Small(Print(x[8]), 450)
    ensures WithinBounds(x, TOP_BOUNDS)
  {
  }

  lemma TopSmall(f: Fields)
    requires ValidFields(f) && SmallIds(f)
    ensures WithinBounds(TopValues(f), TOP_BOUNDS)
  {
    TopScalarsSmall(f);
    SharedSmall(f.shared);
    ApprovalSmall(f.approval);
    JobNamePlain(f.digest, f.releaseSha);
    SubjectPlain(f.releaseId, f.releaseSha);
    GitopsSmall(f.gitops, DerivedJobName(f.digest, f.releaseSha), CommitSubject(f.releaseId, f.releaseSha));
    ImageSmall(f.digest);
    TopMeet(TopValues(f));
  }

  lemma TopKeysShort()
    ensures KeysShort(TOP_KEYS, 23)
  {
  }

  /** With ids of at most 100 digits the text of a record stays inside the size bound. */
  lemma EvidenceFits(f: Fields)
    requires ValidFields(f) && SmallIds(f)
    ensures ByteLength(EvidenceText(f)) <= MAX_EVIDENCE_BYTES
  {
    TopSmall(f);
    TopKeysDistinct();
    TopKeysShort();
    ObjectSum(TOP_KEYS, TopValues(f), 23, 280, TOP_BOUNDS);
    TopBoundsSum();
    ByteLengthAscii(EvidenceText(f));
  }

  /** Main result: with an approval whose ids have at most 100 digits, the builder's own checks
      and a workflow hash that is not all zeroes are all it takes; size never refuses a run. */
  lemma BuildNeverTooLarge(b: BuildInput, hash: string -> string)
    requires |hash(b.workflow)| == 64 && IsHex(hash(b.workflow))
    requires b.approval.Some? ==>
      && ValidApproval(b.approval.value)
      && IdValue(JInt(b.approval.value.environmentId)) && IdValue(JInt(b.approval.value.reviewerId))
    ensures BuildEvidence(b, hash).Ok? <==> ChecksPass(b) && !AllZeroes(hash(b.workflow))
  {
    BuildSucceeds(b, hash);
    if ChecksPass(b) && !AllZeroes(hash(b.workflow)) {
      DecimalSmall(b.env["GITHUB_RUN_ID"]);
      DecimalSmall(b.appId);
      DecimalSmall(b.installationId);
      BuiltValid(b, hash);
      EvidenceFits(BuiltFields(b, hash));
    }
  }
}
