/** The migration result evidence: the builder, the validator, and the records they share. */
module Evidence {
  import opened Results
  import opened Text
  import opened Formats
  import opened Json
  import opened OrderedJson
  import Kustomization

  const MAX_EVIDENCE_BYTES := 16_384
  const RESULT_DOCUMENT_TYPE := "mission-spine-migration-result"
  const WORKFLOW_FILE := "mission-spine-migration-release.yml"
  const WORKFLOW_PATH := ".github/workflows/" + WORKFLOW_FILE
  const GITOPS_REF := "refs/heads/main"
  const WORKFLOW_REF := REPOSITORY + "/" + WORKFLOW_PATH + "@" + GITOPS_REF
  const JOB_NAME := "deploy"
  const ENVIRONMENT_NAME := "mission-spine-migration-release"
  const EVENT_NAME := "workflow_dispatch"
  const GITOPS_REPOSITORY := "DevPathAi/devpath-gitops"
  const GITOPS_WRITE_APP_SLUG := "devpath-gitops-release"
  const GITOPS_BRANCH := "main"
  const MAX_WORKFLOW_BYTES := 131_072
  const WORKFLOW_NAME := "name: Mission Spine - sealed migration GitOps release\n"

  // ---------------------------------------------------------------- the variable fields

  datatype Shared = Shared(sourceSha: string, workflowSha: string, runId: int)

  datatype Approval = Approval(environmentId: int, reviewerLogin: string, reviewerId: int, effectiveAt: string)

  datatype Gitops = Gitops(
    baseSha: string, sealedSha: string, prePushSha: string, migrationSha: string, treeSha: string,
    mode: PublishMode, appId: int, installationId: int)

  datatype Fields = Fields(
    releaseId: string, candidateSha: string, releaseSha: string,
    shared: Shared, approval: Approval, gitops: Gitops, digest: string)

  predicate IsLeapYear(y: int) {
    y % 4 == 0 && (y % 100 != 0 || y % 400 == 0)
  }

  function DaysIn(y: int, m: int): int {
    if m == 2 then (if IsLeapYear(y) then 29 else 28)
    else if m == 4 || m == 6 || m == 9 || m == 11 then 30
    else 31
  }

  /** YYYY-MM-DDTHH:MM:SSZ, and a real instant. */
  predicate IsUtcSeconds(s: string) {
    && |s| == 20
    && (forall i | 0 <= i < 19 && i != 4 && i != 7 && i != 10 && i != 13 && i != 16 :: IsDigit(s[i]))
    && s[4] == '-' && s[7] == '-' && s[10] == 'T' && s[13] == ':' && s[16] == ':' && s[19] == 'Z'
    && var (y, m, d) := (NatValue(s[..4]), NatValue(s[5..7]), NatValue(s[8..10]));
      && y >= 1 && 1 <= m <= 12 && 1 <= d <= DaysIn(y, m)
      && NatValue(s[11..13]) < 24 && NatValue(s[14..16]) < 60 && NatValue(s[17..19]) < 60
  }

  predicate ValidShared(s: Shared) {
    IsSha40(s.sourceSha) && IsSha64(s.workflowSha) && s.runId > 0
  }

  predicate ValidApproval(a: Approval) {
    a.environmentId > 0 && IsLogin(a.reviewerLogin) && a.reviewerId > 0 && IsUtcSeconds(a.effectiveAt)
  }

  /** The commit before the push is the base of a published M, and M itself when it is reused. */
  predicate ValidGitops(g: Gitops) {
    && IsSha40(g.baseSha) && IsSha40(g.sealedSha) && IsSha40(g.prePushSha)
    && IsSha40(g.migrationSha) && IsSha40(g.treeSha)
    && g.migrationSha != g.baseSha
    && g.prePushSha == (if g.mode == Published then g.baseSha else g.migrationSha)
    && g.appId > 0 && g.installationId > 0
  }

  predicate ValidFields(f: Fields) {
    && IsReleaseId(f.releaseId) && IsSha64(f.candidateSha) && IsSha64(f.releaseSha)
    && ValidShared(f.shared) && ValidApproval(f.approval) && ValidGitops(f.gitops)
    && IsDigest(f.digest)
  }

  // ---------------------------------------------------------------- the document

  const TOP_KEYS: seq<string> := [
    "schema_version", "document_type", "release_id", "candidate_spec_sha256",
    "release_manifest_sha256", "shared", "approval", "gitops", "migration_image" ]

  const SHARED_KEYS: seq<string> := [
    "repository", "source_sha", "workflow_path", "workflow_ref", "workflow_sha256", "run_id",
    "run_attempt", "event_name", "ref", "job", "environment" ]

  const APPROVAL_KEYS: seq<string> := [
    "environment_id", "reviewer_login", "reviewer_id", "reviewer_type", "state", "approval_effective_at" ]

  const GITOPS_KEYS: seq<string> := [
    "repository", "base_sha", "sealed_release_sha", "pre_push_main_sha", "migration_commit_sha",
    "migration_tree_sha", "publish_mode", "write_app_slug", "write_app_id",
    "write_app_installation_id", "branch", "changed_paths", "rendered_job_name",
    "commit_subject", "commit_author_name", "commit_committer_name" ]

  const IMAGE_KEYS: seq<string> := ["repository", "digest"]

  const CHANGED_PATHS := JArr([JStr(MIGRATION_PATHS[0]), JStr(MIGRATION_PATHS[1]), JStr(MIGRATION_PATHS[2])])

  function SharedValues(s: Shared): seq<Json> {
    [ JStr(REPOSITORY), JStr(s.sourceSha), JStr(WORKFLOW_PATH), JStr(WORKFLOW_REF), JStr(s.workflowSha),
      JInt(s.runId), JInt(1), JStr(EVENT_NAME), JStr(GITOPS_REF), JStr(JOB_NAME), JStr(ENVIRONMENT_NAME) ]
  }

  function ApprovalValues(a: Approval): seq<Json> {
    [ JInt(a.environmentId), JStr(a.reviewerLogin), JInt(a.reviewerId), JStr("User"), JStr("approved"),
      JStr(a.effectiveAt) ]
  }

  function GitopsValues(g: Gitops, jobName: string, subject: string): seq<Json> {
    [ JStr(GITOPS_REPOSITORY), JStr(g.baseSha), JStr(g.sealedSha), JStr(g.prePushSha), JStr(g.migrationSha),
      JStr(g.treeSha), JStr(ModeText(g.mode)), JStr(GITOPS_WRITE_APP_SLUG), JInt(g.appId),
      JInt(g.installationId), JStr(GITOPS_BRANCH), CHANGED_PATHS, JStr(jobName),
      JStr(subject), JStr(BOT_NAME), JStr(BOT_NAME) ]
  }

  function ImageValues(digest: string): seq<Json> {
    [ JStr(IMAGE_REPOSITORY), JStr(digest) ]
  }

  function TopValues(f: Fields): seq<Json>
    requires ValidFields(f)
  {
    [ JInt(2), JStr(RESULT_DOCUMENT_TYPE), JStr(f.releaseId), JStr(f.candidateSha), JStr(f.releaseSha),
      JObj(Zip(SHARED_KEYS, SharedValues(f.shared))),
      JObj(Zip(APPROVAL_KEYS, ApprovalValues(f.approval))),
      JObj(Zip(GITOPS_KEYS, GitopsValues(f.gitops, DerivedJobName(f.digest, f.releaseSha),
                                         CommitSubject(f.releaseId, f.releaseSha)))),
      JObj(Zip(IMAGE_KEYS, ImageValues(f.digest))) ]
  }

  /** The document of a record. */
  function Document(f: Fields): Json
    requires ValidFields(f)
  {
    JObj(Zip(TOP_KEYS, TopValues(f)))
  }

  // ---------------------------------------------------------------- the validator

  datatype EvidenceError = BadSize | NotJson | BadField | NotCanonical

  function CheckShared(v: Json): Option<Shared> {
    match OrderedValues(v, SHARED_KEYS)
    case None => None
    case Some(x) =>
      if && IsText(x[0], REPOSITORY) && IsText(x[2], WORKFLOW_PATH) && IsText(x[3], WORKFLOW_REF)
         && IsText(x[7], EVENT_NAME) && IsText(x[8], GITOPS_REF) && IsText(x[9], JOB_NAME)
         && IsText(x[10], ENVIRONMENT_NAME)
         && x[6] == JInt(1)
         && x[1].JStr? && IsSha40(x[1].text)
         && x[4].JStr? && IsSha64(x[4].text)
         && x[5].JInt? && x[5].number > 0
      then Some(Shared(x[1].text, x[4].text, x[5].number))
      else None
  }

  function CheckApproval(v: Json): Option<Approval> {
    match OrderedValues(v, APPROVAL_KEYS)
    case None => None
    case Some(x) =>
      if && x[0].JInt? && x[0].number > 0
         && x[1].JStr? && IsLogin(x[1].text)
         && x[2].JInt? && x[2].number > 0
         && IsText(x[3], "User") && IsText(x[4], "approved")
         && x[5].JStr? && IsUtcSeconds(x[5].text)
      then Some(Approval(x[0].number, x[1].text, x[2].number, x[5].text))
      else None
  }

  /** The checks of the sixteen GitOps values, which OrderedValues has read. */
  function CheckGitopsValues(x: seq<Json>, jobName: string, subject: string): Option<Gitops>
    requires |x| == 16
  {
    if && IsText(x[0], GITOPS_REPOSITORY) && IsText(x[7], GITOPS_WRITE_APP_SLUG) && IsText(x[10], GITOPS_BRANCH)
       && x[11] == CHANGED_PATHS && IsText(x[14], BOT_NAME) && IsText(x[15], BOT_NAME)
       && x[1].JStr? && x[2].JStr? && x[3].JStr? && x[4].JStr? && x[5].JStr?
       && ParseMode(x[6]).Some? && x[8].JInt? && x[9].JInt?
       && IsText(x[13], subject) && IsText(x[12], jobName)
    then
      var g := Gitops(x[1].text, x[2].text, x[3].text, x[4].text, x[5].text,
                      ParseMode(x[6]).value, x[8].number, x[9].number);
      if ValidGitops(g) then Some(g) else None
    else None
  }

  function CheckGitops(v: Json, jobName: string, subject: string): Option<Gitops> {
    match OrderedValues(v, GITOPS_KEYS)
    case None => None
    case Some(x) => CheckGitopsValues(x, jobName, subject)
  }

  function CheckImage(v: Json): Option<string> {
    match OrderedValues(v, IMAGE_KEYS)
    case None => None
    case Some(x) =>
      if IsText(x[0], IMAGE_REPOSITORY) && x[1].JStr? && IsDigest(x[1].text) then Some(x[1].text) else None
  }

  predicate ScalarsPass(x: seq<Json>)
    requires |x| == 9
  {
    && x[0] == JInt(2) && IsText(x[1], RESULT_DOCUMENT_TYPE)
    && x[2].JStr? && IsReleaseId(x[2].text)
    && x[3].JStr? && IsSha64(x[3].text)
    && x[4].JStr? && IsSha64(x[4].text)
  }

  function Assemble(
    x: seq<Json>, shared: Option<Shared>, approval: Option<Approval>, gitops: Option<Gitops>, digest: string
  ): Option<Fields>
    requires |x| == 9 && x[2].JStr? && x[3].JStr? && x[4].JStr?
  {
    if shared.Some? && approval.Some? && gitops.Some?
    then Some(Fields(x[2].text, x[3].text, x[4].text, shared.value, approval.value, gitops.value, digest))
    else None
  }

  /** The checks of the nine top values. */
  function CheckTopValues(x: seq<Json>): Option<Fields>
    requires |x| == 9
  {
    if !ScalarsPass(x) then None
    else
      match CheckImage(x[8])
      case None => None
      case Some(digest) =>
        var (jobName, subject) := (DerivedJobName(digest, x[4].text), CommitSubject(x[2].text, x[4].text));
        Assemble(x, CheckShared(x[5]), CheckApproval(x[6]), CheckGitops(x[7], jobName, subject), digest)
  }

  /** All checks of fields, and the fields that pass them. */
  function CheckDocument(v: Json): Option<Fields> {
    match OrderedValues(v, TOP_KEYS)
    case None => None
    case Some(x) => CheckTopValues(x)
  }

  /** validate_result_evidence. What passes the field checks holds no float, so Printable
      excludes nothing here. */
  function ValidateEvidence(raw: string): Result<Fields, EvidenceError> {
    if raw == "" || ByteLength(raw) > MAX_EVIDENCE_BYTES then Err(BadSize)
    else match ParseDocument(raw)
      case None => Err(NotJson)
      case Some(v) =>
        match CheckDocument(v)
        case None => Err(BadField)
        case Some(f) => if Printable(v) && raw == Canonical(v) then Ok(f) else Err(NotCanonical)
  }

  // ---------------------------------------------------------------- the builder

  /** ^[1-9][0-9]{0,19}$ and its value. */
  function PositiveDecimal(s: string): (r: Option<int>)
    ensures r.Some? ==> r.value > 0
  {
    if 1 <= |s| <= 20 && (forall i | 0 <= i < |s| :: IsDigit(s[i])) && s[0] != '0'
    then (LeadingDigit(s); Some(NatValue(s)))
    else None
  }

  lemma {:induction false} LeadingDigit(s: string)
    requires s != "" && IsDigit(s[0]) && s[0] != '0'
    ensures NatValue(s) > 0
  {
    if |s| > 1 {
      LeadingDigit(s[..|s| - 1]);
    } else {
      assert s[..0] == "";
    }
  }

  /** The arguments of build_result_evidence; approval is the outcome of
      validate_protected_approval, None when it raised. */
  datatype BuildInput = BuildInput(
    env: map<string, string>,
    releaseId: string, candidateSha: string, releaseSha: string,
    workflow: string, approval: Option<Approval>,
    baseSha: string, sealedSha: string, prePushSha: string, migrationSha: string, treeSha: string,
    mode: string, appSlug: string, appId: string, installationId: string,
    changedPaths: seq<string>, jobName: string, subject: string, author: string, committer: string,
    digest: string)

  predicate EnvIs(env: map<string, string>, key: string, value: string) {
    key in env && env[key] == value
  }

  predicate ContextPasses(b: BuildInput) {
    && "GITHUB_SHA" in b.env && IsSha40(b.env["GITHUB_SHA"])
    && EnvIs(b.env, "GITHUB_REPOSITORY", REPOSITORY)
    && EnvIs(b.env, "GITHUB_EVENT_NAME", EVENT_NAME)
    && EnvIs(b.env, "GITHUB_REF", GITOPS_REF)
    && EnvIs(b.env, "GITHUB_WORKFLOW_REF", WORKFLOW_REF)
    && EnvIs(b.env, "GITHUB_WORKFLOW_SHA", b.env["GITHUB_SHA"])
    && EnvIs(b.env, "GITHUB_RUN_ATTEMPT", "1")
    && EnvIs(b.env, "GITHUB_JOB", JOB_NAME)
    && "GITHUB_RUN_ID" in b.env && PositiveDecimal(b.env["GITHUB_RUN_ID"]).Some?
  }

  predicate WorkflowPasses(workflow: string) {
    && Kustomization.CheckLfText(workflow, MAX_WORKFLOW_BYTES).Pass?
    && StartsWith(workflow, WORKFLOW_NAME)
  }

  predicate CommitPasses(b: BuildInput) {
    && IsSha40(b.baseSha) && IsSha40(b.sealedSha) && IsSha40(b.prePushSha)
    && IsSha40(b.migrationSha) && IsSha40(b.treeSha)
    && (b.mode == ModeText(Published) || b.mode == ModeText(Reused))
    && b.prePushSha == (if b.mode == ModeText(Published) then b.baseSha else b.migrationSha)
    && b.migrationSha != b.baseSha
    && b.appSlug == GITOPS_WRITE_APP_SLUG
    && PositiveDecimal(b.appId).Some? && PositiveDecimal(b.installationId).Some?
    && b.changedPaths == MIGRATION_PATHS
    && b.subject == CommitSubject(b.releaseId, b.releaseSha)
    && b.author == BOT_NAME && b.committer == BOT_NAME
  }

  /** The builder's own checks, all that precede the document. */
  predicate ChecksPass(b: BuildInput) {
    && IsReleaseId(b.releaseId) && IsSha64(b.candidateSha) && IsSha64(b.releaseSha)
    && ContextPasses(b)
    && WorkflowPasses(b.workflow)
    && b.approval.Some?
    && CommitPasses(b)
    && IsDigest(b.digest)
    && b.jobName == DerivedJobName(b.digest, b.releaseSha)
  }

  /** The record that the builder writes; hash is SHA-256 in hexadecimal. */
  function BuiltFields(b: BuildInput, hash: string -> string): Fields
    requires ChecksPass(b)
  {
    Fields(
      b.releaseId, b.candidateSha, b.releaseSha,
      Shared(b.env["GITHUB_SHA"], hash(b.workflow), PositiveDecimal(b.env["GITHUB_RUN_ID"]).value),
      b.approval.value,
      Gitops(b.baseSha, b.sealedSha, b.prePushSha, b.migrationSha, b.treeSha,
             if b.mode == ModeText(Published) then Published else Reused,
             PositiveDecimal(b.appId).value, PositiveDecimal(b.installationId).value),
      b.digest)
  }

  function BuiltShared(b: BuildInput, hash: string -> string): seq<Json>
    requires ChecksPass(b)
  {
    [ JStr(REPOSITORY), JStr(b.env["GITHUB_SHA"]), JStr(WORKFLOW_PATH), JStr(WORKFLOW_REF),
      JStr(hash(b.workflow)), JInt(PositiveDecimal(b.env["GITHUB_RUN_ID"]).value), JInt(1),
      JStr(EVENT_NAME), JStr(GITOPS_REF), JStr(JOB_NAME), JStr(ENVIRONMENT_NAME) ]
  }

  function BuiltGitops(b: BuildInput): seq<Json>
    requires ChecksPass(b)
  {
    [ JStr(GITOPS_REPOSITORY), JStr(b.baseSha), JStr(b.sealedSha), JStr(b.prePushSha),
      JStr(b.migrationSha), JStr(b.treeSha), JStr(b.mode), JStr(GITOPS_WRITE_APP_SLUG),
      JInt(PositiveDecimal(b.appId).value), JInt(PositiveDecimal(b.installationId).value),
      JStr(GITOPS_BRANCH), CHANGED_PATHS, JStr(b.jobName), JStr(b.subject), JStr(BOT_NAME), JStr(BOT_NAME) ]
  }

  function BuiltValues(b: BuildInput, hash: string -> string): seq<Json>
    requires ChecksPass(b)
  {
    [ JInt(2), JStr(RESULT_DOCUMENT_TYPE), JStr(b.releaseId), JStr(b.candidateSha), JStr(b.releaseSha),
      JObj(Zip(SHARED_KEYS, BuiltShared(b, hash))),
      JObj(Zip(APPROVAL_KEYS, ApprovalValues(b.approval.value))),
      JObj(Zip(GITOPS_KEYS, BuiltGitops(b))),
      JObj(Zip(IMAGE_KEYS, [JStr(IMAGE_REPOSITORY), JStr(b.digest)])) ]
  }

  /** The literal document that the builder fills in from its inputs. */
  function BuiltDocument(b: BuildInput, hash: string -> string): Json
    requires ChecksPass(b)
  {
    JObj(Zip(TOP_KEYS, BuiltValues(b, hash)))
  }

  /** Print a document, which is always printable here, and validate the bytes. */
  function PrintChecked(v: Json): Result<string, EvidenceError> {
    if !Printable(v) then Err(NotJson)
    else
      match ValidateEvidence(Canonical(v))
      case Err(e) => Err(e)
      case Ok(_) => Ok(Canonical(v))
  }

  /** build_result_evidence, which validates its own output. */
  function BuildEvidence(b: BuildInput, hash: string -> string): Result<string, EvidenceError> {
    if ChecksPass(b) then PrintChecked(BuiltDocument(b, hash)) else Err(BadField)
  }
}
