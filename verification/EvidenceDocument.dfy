/** Migration result evidence without the tables of keys: the document of a record spelled out, which
    inputs the builder takes, and that a record is what the commit check accepts. */
module EvidenceDocument {
  import opened Results
  import opened Text
  import opened Formats
  import opened Json
  import opened JsonRoundTrip
  import opened OrderedJson
  import Patterns
  import opened Evidence
  import opened EvidenceProofs
  import MigrationCommit
  import CommitSteps

  // ---------------------------------------------------------------- the document, spelled out

  function SharedSection(s: Shared): Json {
    JObj([
      Member("repository", JStr("DevPathAi/devpath-shared")),
      Member("source_sha", JStr(s.sourceSha)),
      Member("workflow_path", JStr(PATH_TEXT)),
      Member("workflow_ref", JStr("DevPathAi/devpath-shared" + "/" + PATH_TEXT + "@" + "refs/heads/main")),
      Member("workflow_sha256", JStr(s.workflowSha)),
      Member("run_id", JInt(s.runId)),
      Member("run_attempt", JInt(1)),
      Member("event_name", JStr("workflow_dispatch")),
      Member("ref", JStr("refs/heads/main")),
      Member("job", JStr("deploy")),
      Member("environment", JStr("mission-spine-migration-release")) ])
  }

  const PATH_TEXT := ".github/workflows/" + "mission-spine-migration-release.yml"

  function ApprovalSection(a: Approval): Json {
    JObj([
      Member("environment_id", JInt(a.environmentId)),
      Member("reviewer_login", JStr(a.reviewerLogin)),
      Member("reviewer_id", JInt(a.reviewerId)),
      Member("reviewer_type", JStr("User")),
      Member("state", JStr("approved")),
      Member("approval_effective_at", JStr(a.effectiveAt)) ])
  }

  function GitopsSection(g: Gitops, jobName: string, subject: string): Json {
    JObj([
      Member("repository", JStr("DevPathAi/devpath-gitops")),
      Member("base_sha", JStr(g.baseSha)),
      Member("sealed_release_sha", JStr(g.sealedSha)),
      Member("pre_push_main_sha", JStr(g.prePushSha)),
      Member("migration_commit_sha", JStr(g.migrationSha)),
      Member("migration_tree_sha", JStr(g.treeSha)),
      Member("publish_mode", JStr(if g.mode == Published then "published" else "reused")),
      Member("write_app_slug", JStr("devpath-gitops-release")),
      Member("write_app_id", JInt(g.appId)),
      Member("write_app_installation_id", JInt(g.installationId)),
      Member("branch", JStr("main")),
      Member("changed_paths", JArr([JStr(CommitSteps.MIGRATION_PATH), JStr(CommitSteps.PLATFORM_PATH),
                                    JStr(CommitSteps.SANDBOX_PATH)])),
      Member("rendered_job_name", JStr(jobName)),
      Member("commit_subject", JStr(subject)),
      Member("commit_author_name", JStr("devpath-gitops-release[bot]")),
      Member("commit_committer_name", JStr("devpath-gitops-release[bot]")) ])
  }

  function ImageSection(digest: string): Json {
    JObj([Member("repository", JStr("ghcr.io/devpathai/devpath-migration")), Member("digest", JStr(digest))])
  }

  /** The document of a record. */
  function Spelled(f: Fields): Json
    requires |f.digest| == 71 && |f.releaseSha| == 64
  {
    JObj([
      Member("schema_version", JInt(2)),
      Member("document_type", JStr("mission-spine-migration-result")),
      Member("release_id", JStr(f.releaseId)),
      Member("candidate_spec_sha256", JStr(f.candidateSha)),
      Member("release_manifest_sha256", JStr(f.releaseSha)),
      Member("shared", SharedSection(f.shared)),
      Member("approval", ApprovalSection(f.approval)),
      Member("gitops", GitopsSection(f.gitops, "devpath-flyway-migrate-" + f.digest[7..19] + "-" + f.releaseSha[..24],
                               "deploy(devpath-migration): " + f.releaseId + " sealed " + f.releaseSha)),
      Member("migration_image", ImageSection(f.digest)) ])
  }

  // ---------------------------------------------------------------- section by section

  lemma SameMembers(keys: seq<string>, values: seq<Json>, members: seq<Member>)
    requires |keys| == |values| == |members|
    requires forall i | 0 <= i < |keys| :: members[i] == Member(keys[i], values[i])
    ensures JObj(Zip(keys, values)) == JObj(members)
  {
    assert Zip(keys, values) == members;
  }

  lemma RepositoryIs()
    ensures REPOSITORY == "DevPathAi/devpath-shared"
  {
  }

  lemma WorkflowIs()
    ensures WORKFLOW_PATH == PATH_TEXT
    ensures WORKFLOW_REF == "DevPathAi/devpath-shared" + "/" + PATH_TEXT + "@" + "refs/heads/main"
  {
    RepositoryIs();
  }

  lemma NamesAre()
    ensures EVENT_NAME == "workflow_dispatch" && GITOPS_REF == "refs/heads/main" && JOB_NAME == "deploy"
    ensures ENVIRONMENT_NAME == "mission-spine-migration-release"
  {
  }

  lemma SharedSpelled(s: Shared)
    ensures SharedJson(s) == SharedSection(s)
  {
    RepositoryIs();
    WorkflowIs();
    NamesAre();
    SameMembers(SHARED_KEYS, SharedValues(s), SharedSection(s).members);
  }

  lemma ApprovalSpelled(a: Approval)
    ensures ApprovalJson(a) == ApprovalSection(a)
  {
    SameMembers(APPROVAL_KEYS, ApprovalValues(a), ApprovalSection(a).members);
  }

  lemma GitopsNamesAre()
    ensures GITOPS_REPOSITORY == "DevPathAi/devpath-gitops" && GITOPS_WRITE_APP_SLUG == "devpath-gitops-release"
    ensures GITOPS_BRANCH == "main"
  {
  }

  lemma ChangedPathsAre()
    ensures CHANGED_PATHS == JArr([JStr(CommitSteps.MIGRATION_PATH), JStr(CommitSteps.PLATFORM_PATH),
                                   JStr(CommitSteps.SANDBOX_PATH)])
  {
    CommitSteps.PathsAre();
  }

  lemma GitopsSpelled(g: Gitops, jobName: string, subject: string)
    ensures GitopsJson(g, jobName, subject) == GitopsSection(g, jobName, subject)
  {
    GitopsNamesAre();
    ChangedPathsAre();
    CommitSteps.BotIs();
    SameMembers(GITOPS_KEYS, GitopsValues(g, jobName, subject), GitopsSection(g, jobName, subject).members);
  }

  lemma ImageNameIs()
    ensures IMAGE_REPOSITORY == "ghcr.io/devpathai/devpath-migration"
  {
  }

  lemma ImageSpelled(digest: string)
    ensures ImageJson(digest) == ImageSection(digest)
  {
    ImageNameIs();
    SameMembers(IMAGE_KEYS, ImageValues(digest), ImageSection(digest).members);
  }

  lemma DerivedSpelled(digest: string, sha: string)
    requires IsDigest(digest) && IsSha64(sha)
    ensures |digest| == 71 && |sha| == 64
    ensures DerivedJobName(digest, sha) == "devpath-flyway-migrate-" + digest[7..19] + "-" + sha[..24]
  {
    assert digest[7..][..12] == digest[7..19];
  }

  lemma DocumentTypeIs()
    ensures RESULT_DOCUMENT_TYPE == "mission-spine-migration-result"
  {
  }

  lemma DocumentSpelled(f: Fields)
    requires ValidFields(f)
    ensures |f.digest| == 71 && |f.releaseSha| == 64 && Document(f) == Spelled(f)
  {
    DerivedSpelled(f.digest, f.releaseSha);
    SharedSpelled(f.shared);
    ApprovalSpelled(f.approval);
    GitopsSpelled(f.gitops, DerivedJobName(f.digest, f.releaseSha), CommitSubject(f.releaseId, f.releaseSha));
    ImageSpelled(f.digest);
    DocumentTypeIs();
    SameMembers(TOP_KEYS, TopValues(f), Spelled(f).members);
  }

  /** Main result: what the text of a record says. Read as JSON it is the spelled out document, name by
      name and in order. */
  lemma EvidenceSays(f: Fields)
    requires ValidFields(f)
    ensures |f.digest| == 71 && |f.releaseSha| == 64 && ParseDocument(EvidenceText(f)) == Some(Spelled(f))
  {
    DocumentPrintable(f);
    DocumentRead(Document(f));
    DocumentSpelled(f);
  }

  // ---------------------------------------------------------------- looking up

  lemma {:induction false} LookupAt(members: seq<Member>, i: nat)
    requires UniqueKeys(members) && i < |members|
    ensures Lookup(members, members[i].key) == Some(members[i].value)
  {
    if i > 0 {
      assert members[1..][i - 1] == members[i];
      LookupAt(members[1..], i - 1);
    }
  }

  lemma OneStep(members: seq<Member>, i: nat, key: string)
    requires UniqueKeys(members) && i < |members| && members[i].key == key
    ensures ValueAt(JObj(members), [key]) == Some(members[i].value)
  {
    LookupAt(members, i);
    assert [key][1..] == [];
  }

  lemma TwoSteps(members: seq<Member>, i: nat, inner: seq<Member>, j: nat, key: string, field: string)
    requires UniqueKeys(members) && i < |members| && members[i] == Member(key, JObj(inner))
    requires UniqueKeys(inner) && j < |inner| && inner[j].key == field
    ensures ValueAt(JObj(members), [key, field]) == Some(inner[j].value)
  {
    LookupAt(members, i);
    OneStep(inner, j, field);
    assert [key, field][1..] == [field];
  }

  lemma SectionsUnique(f: Fields)
    requires ValidFields(f)
    ensures |f.digest| == 71 && |f.releaseSha| == 64 && UniqueKeys(Spelled(f).members)
    ensures UniqueKeys(SharedSection(f.shared).members) && UniqueKeys(ApprovalSection(f.approval).members)
    ensures UniqueKeys(ImageSection(f.digest).members)
  {
    DocumentSpelled(f);
    DocumentPrintable(f);
    assert Printable(Spelled(f));
    assert Spelled(f).members[5].value == SharedSection(f.shared);
    assert Spelled(f).members[6].value == ApprovalSection(f.approval);
    assert Spelled(f).members[8].value == ImageSection(f.digest);
  }

  lemma GitopsUnique(g: Gitops, jobName: string, subject: string)
    ensures UniqueKeys(GitopsSection(g, jobName, subject).members)
  {
    GitopsPrintable(g, jobName, subject);
    GitopsSpelled(g, jobName, subject);
  }

  /** What the shared section holds, wherever it stands. */
  lemma SharedStands(members: seq<Member>, s: Shared)
    requires UniqueKeys(members) && |members| == 9 && members[5] == Member("shared", SharedSection(s))
    requires UniqueKeys(SharedSection(s).members)
    ensures ValueAt(JObj(members), ["shared", "source_sha"]) == Some(JStr(s.sourceSha))
    ensures ValueAt(JObj(members), ["shared", "workflow_sha256"]) == Some(JStr(s.workflowSha))
    ensures ValueAt(JObj(members), ["shared", "run_id"]) == Some(JInt(s.runId))
  {
    var inner := SharedSection(s).members;
    TwoSteps(members, 5, inner, 1, "shared", "source_sha");
    TwoSteps(members, 5, inner, 4, "shared", "workflow_sha256");
    TwoSteps(members, 5, inner, 5, "shared", "run_id");
  }

  /** The members of the gitops section that hold hashes. */
  predicate HoldsCommit(inner: seq<Member>, g: Gitops) {
    && |inner| == 16
    && inner[1] == Member("base_sha", JStr(g.baseSha)) && inner[2] == Member("sealed_release_sha", JStr(g.sealedSha))
    && inner[3] == Member("pre_push_main_sha", JStr(g.prePushSha))
    && inner[4] == Member("migration_commit_sha", JStr(g.migrationSha))
    && inner[5] == Member("migration_tree_sha", JStr(g.treeSha))
  }

  lemma GitopsStands(members: seq<Member>, inner: seq<Member>, g: Gitops)
    requires UniqueKeys(members) && |members| == 9 && members[7] == Member("gitops", JObj(inner))
    requires UniqueKeys(inner) && HoldsCommit(inner, g)
    ensures ValueAt(JObj(members), ["gitops", "base_sha"]) == Some(JStr(g.baseSha))
    ensures ValueAt(JObj(members), ["gitops", "sealed_release_sha"]) == Some(JStr(g.sealedSha))
    ensures ValueAt(JObj(members), ["gitops", "pre_push_main_sha"]) == Some(JStr(g.prePushSha))
    ensures ValueAt(JObj(members), ["gitops", "migration_commit_sha"]) == Some(JStr(g.migrationSha))
    ensures ValueAt(JObj(members), ["gitops", "migration_tree_sha"]) == Some(JStr(g.treeSha))
  {
    TwoSteps(members, 7, inner, 1, "gitops", "base_sha");
    TwoSteps(members, 7, inner, 2, "gitops", "sealed_release_sha");
    TwoSteps(members, 7, inner, 3, "gitops", "pre_push_main_sha");
    TwoSteps(members, 7, inner, 4, "gitops", "migration_commit_sha");
    TwoSteps(members, 7, inner, 5, "gitops", "migration_tree_sha");
  }

  /** Where the hashes of the release stand in the text of a record. */
  lemma HashesStand(f: Fields)
    requires ValidFields(f)
    ensures var v := ParseDocument(EvidenceText(f));
      && v.Some?
      && ValueAt(v.value, ["release_id"]) == Some(JStr(f.releaseId))
      && ValueAt(v.value, ["candidate_spec_sha256"]) == Some(JStr(f.candidateSha))
      && ValueAt(v.value, ["release_manifest_sha256"]) == Some(JStr(f.releaseSha))
      && ValueAt(v.value, ["shared", "source_sha"]) == Some(JStr(f.shared.sourceSha))
      && ValueAt(v.value, ["shared", "workflow_sha256"]) == Some(JStr(f.shared.workflowSha))
      && ValueAt(v.value, ["shared", "run_id"]) == Some(JInt(f.shared.runId))
      && ValueAt(v.value, ["migration_image", "digest"]) == Some(JStr(f.digest))
  {
    EvidenceSays(f);
    SectionsUnique(f);
    var m := Spelled(f).members;
    OneStep(m, 2, "release_id");
    OneStep(m, 3, "candidate_spec_sha256");
    OneStep(m, 4, "release_manifest_sha256");
    SharedStands(m, f.shared);
    TwoSteps(m, 8, ImageSection(f.digest).members, 1, "migration_image", "digest");
  }

  lemma MembersHold(g: Gitops, jobName: string, subject: string)
    ensures HoldsCommit(GitopsSection(g, jobName, subject).members, g)
  {
  }

  lemma SectionHolds(g: Gitops, jobName: string, subject: string) returns (inner: seq<Member>)
    ensures GitopsSection(g, jobName, subject) == JObj(inner) && UniqueKeys(inner) && HoldsCommit(inner, g)
  {
    GitopsUnique(g, jobName, subject);
    MembersHold(g, jobName, subject);
    inner := GitopsSection(g, jobName, subject).members;
  }

  lemma GitopsOf(f: Fields) returns (members: seq<Member>, inner: seq<Member>)
    requires ValidFields(f)
    ensures |f.digest| == 71 && |f.releaseSha| == 64 && Spelled(f) == JObj(members)
    ensures UniqueKeys(members) && |members| == 9 && members[7] == Member("gitops", JObj(inner))
    ensures UniqueKeys(inner) && HoldsCommit(inner, f.gitops)
  {
    SectionsUnique(f);
    members := Spelled(f).members;
    inner := SectionHolds(f.gitops, "devpath-flyway-migrate-" + f.digest[7..19] + "-" + f.releaseSha[..24],
                          "deploy(devpath-migration): " + f.releaseId + " sealed " + f.releaseSha);
  }

  /** Where the facts of the commit stand. */
  lemma CommitStands(f: Fields)
    requires ValidFields(f)
    ensures var v := ParseDocument(EvidenceText(f));
      && v.Some?
      && ValueAt(v.value, ["gitops", "base_sha"]) == Some(JStr(f.gitops.baseSha))
      && ValueAt(v.value, ["gitops", "sealed_release_sha"]) == Some(JStr(f.gitops.sealedSha))
      && ValueAt(v.value, ["gitops", "pre_push_main_sha"]) == Some(JStr(f.gitops.prePushSha))
      && ValueAt(v.value, ["gitops", "migration_commit_sha"]) == Some(JStr(f.gitops.migrationSha))
      && ValueAt(v.value, ["gitops", "migration_tree_sha"]) == Some(JStr(f.gitops.treeSha))
  {
    EvidenceSays(f);
    var members, inner := GitopsOf(f);
    GitopsStands(members, inner, f.gitops);
  }

  // ---------------------------------------------------------------- which records there are

  /** The commit of a record, as the commit check takes it. */
  function CommitOf(f: Fields): MigrationCommit.Facts {
    var r := MigrationCommit.Release(f.releaseId, f.releaseSha, f.gitops.baseSha);
    MigrationCommit.Facts(r, f.gitops.prePushSha, f.gitops.migrationSha, f.gitops.baseSha,
                          f.gitops.treeSha, f.gitops.treeSha, CommitSteps.TheChild(r),
                          if f.gitops.mode == Published then "published" else "reused")
  }

  predicate IsHash(s: string, n: nat) {
    Patterns.Matches([Patterns.Times(Patterns.HEX, n, n)], s) && !Patterns.OnlyZero(s)
  }

  lemma CommitFits(f: Fields)
    ensures MigrationCommit.ValidateFacts(CommitOf(f)).Ok? && IsSha40(f.gitops.sealedSha)
              && f.gitops.appId > 0 && f.gitops.installationId > 0
       <==> IsReleaseId(f.releaseId) && IsSha64(f.releaseSha) && ValidGitops(f.gitops)
  {
    CommitSteps.ChildIs(CommitOf(f).child, CommitOf(f).release);
    CommitSteps.ModeRead(f.gitops.mode);
  }

  /** An approval in form. */
  predicate ApprovalFits(a: Approval) {
    && a.environmentId > 0 && a.reviewerId > 0
    && (|| Patterns.Matches(Patterns.SHORT_LOGIN, a.reviewerLogin)
        || Patterns.Matches(Patterns.LONG_LOGIN, a.reviewerLogin))
    && Patterns.Matches(Patterns.UTC_Z, a.effectiveAt) && Patterns.NamesInstant(a.effectiveAt)
  }

  lemma ApprovalIs(a: Approval)
    ensures ApprovalFits(a) <==> ValidApproval(a)
  {
    Patterns.LoginIs(a.reviewerLogin);
    Patterns.UtcIs(a.effectiveAt);
  }

  /** What the commit check does not see of a record. */
  predicate RestFits(f: Fields) {
    && IsHash(f.candidateSha, 64) && IsHash(f.shared.sourceSha, 40) && IsHash(f.shared.workflowSha, 64)
    && IsDigest(f.digest) && f.shared.runId > 0
    && ApprovalFits(f.approval)
  }

  lemma HashIs(s: string, n: nat)
    requires n > 0
    ensures IsHash(s, n) <==> IsNonzeroHex(s, n)
  {
    Patterns.NonzeroHexIs(n, s);
  }

  lemma RestIs(f: Fields)
    ensures RestFits(f)
       <==> IsSha64(f.candidateSha) && ValidShared(f.shared) && ValidApproval(f.approval) && IsDigest(f.digest)
  {
    HashIs(f.candidateSha, 64);
    HashIs(f.shared.sourceSha, 40);
    HashIs(f.shared.workflowSha, 64);
    ApprovalIs(f.approval);
  }

  /** Main result: a record is valid exactly when the commit check accepts its commit for its release,
      and the fields that the commit check does not see match their patterns. */
  lemma RecordIsCheckedCommit(f: Fields)
    ensures ValidFields(f)
       <==> && MigrationCommit.ValidateFacts(CommitOf(f)).Ok? && IsSha40(f.gitops.sealedSha)
            && f.gitops.appId > 0 && f.gitops.installationId > 0
            && RestFits(f)
  {
    CommitFits(f);
    RestIs(f);
  }

  // ---------------------------------------------------------------- which inputs the builder takes

  /** The run's environment, spelled out. */
  predicate EnvironmentFits(env: map<string, string>) {
    && "GITHUB_SHA" in env && IsHash(env["GITHUB_SHA"], 40)
    && "GITHUB_REPOSITORY" in env && env["GITHUB_REPOSITORY"] == "DevPathAi/devpath-shared"
    && "GITHUB_EVENT_NAME" in env && env["GITHUB_EVENT_NAME"] == "workflow_dispatch"
    && "GITHUB_REF" in env && env["GITHUB_REF"] == "refs/heads/main"
    && "GITHUB_WORKFLOW_REF" in env
    && env["GITHUB_WORKFLOW_REF"] == "DevPathAi/devpath-shared" + "/" + PATH_TEXT + "@" + "refs/heads/main"
    && "GITHUB_WORKFLOW_SHA" in env && env["GITHUB_WORKFLOW_SHA"] == env["GITHUB_SHA"]
    && "GITHUB_RUN_ATTEMPT" in env && env["GITHUB_RUN_ATTEMPT"] == "1"
    && "GITHUB_JOB" in env && env["GITHUB_JOB"] == "deploy"
    && "GITHUB_RUN_ID" in env && Patterns.Matches(Patterns.POSITIVE_INTEGER, env["GITHUB_RUN_ID"])
  }

  predicate WorkflowFits(workflow: string) {
    && workflow != "" && ByteLength(workflow) <= 131_072
    && '\0' !in workflow && '\r' !in workflow && workflow[|workflow| - 1] == '\n'
    && StartsWith(workflow, "name: Mission Spine - sealed migration GitOps release\n")
  }

  /** The record that the inputs ask for. */
  function Asked(b: BuildInput, hash: string -> string): Fields
    requires b.approval.Some? && "GITHUB_SHA" in b.env && "GITHUB_RUN_ID" in b.env
  {
    Fields(b.releaseId, b.candidateSha, b.releaseSha,
           Shared(b.env["GITHUB_SHA"], hash(b.workflow), NatValue(b.env["GITHUB_RUN_ID"])),
           b.approval.value,
           Gitops(b.baseSha, b.sealedSha, b.prePushSha, b.migrationSha, b.treeSha,
                  if b.mode == "published" then Published else Reused, NatValue(b.appId), NatValue(b.installationId)),
           b.digest)
  }

  /** What the builder asks of its inputs. */
  predicate MayBuild(b: BuildInput, hash: string -> string) {
    && EnvironmentFits(b.env) && WorkflowFits(b.workflow) && b.approval.Some?
    && (b.mode == "published" || b.mode == "reused")
    && b.appSlug == "devpath-gitops-release"
    && Patterns.Matches(Patterns.POSITIVE_INTEGER, b.appId)
    && Patterns.Matches(Patterns.POSITIVE_INTEGER, b.installationId)
    && b.changedPaths == [CommitSteps.MIGRATION_PATH, CommitSteps.PLATFORM_PATH, CommitSteps.SANDBOX_PATH]
    && b.subject == "deploy(devpath-migration): " + b.releaseId + " sealed " + b.releaseSha
    && b.author == "devpath-gitops-release[bot]" && b.committer == "devpath-gitops-release[bot]"
    && |b.digest| == 71 && |b.releaseSha| == 64
    && b.jobName == "devpath-flyway-migrate-" + b.digest[7..19] + "-" + b.releaseSha[..24]
  }

  lemma EnvironmentIs(b: BuildInput)
    ensures ContextPasses(b) <==> EnvironmentFits(b.env)
  {
    RepositoryIs();
    WorkflowIs();
    NamesAre();
    if "GITHUB_SHA" in b.env {
      Patterns.NonzeroHexIs(40, b.env["GITHUB_SHA"]);
    }
    if "GITHUB_RUN_ID" in b.env {
      Patterns.PositiveIs(b.env["GITHUB_RUN_ID"]);
    }
  }

  lemma WorkflowFileIs(workflow: string)
    ensures WorkflowPasses(workflow) <==> WorkflowFits(workflow)
  {
  }

  lemma CommitInputIs(b: BuildInput)
    ensures CommitPasses(b)
       <==> && (b.mode == "published" || b.mode == "reused")
            && b.appSlug == "devpath-gitops-release"
            && Patterns.Matches(Patterns.POSITIVE_INTEGER, b.appId)
            && Patterns.Matches(Patterns.POSITIVE_INTEGER, b.installationId)
            && b.changedPaths == [CommitSteps.MIGRATION_PATH, CommitSteps.PLATFORM_PATH, CommitSteps.SANDBOX_PATH]
            && b.subject == "deploy(devpath-migration): " + b.releaseId + " sealed " + b.releaseSha
            && b.author == "devpath-gitops-release[bot]" && b.committer == "devpath-gitops-release[bot]"
            && IsSha40(b.baseSha) && IsSha40(b.sealedSha) && IsSha40(b.prePushSha)
            && IsSha40(b.migrationSha) && IsSha40(b.treeSha) && b.migrationSha != b.baseSha
            && b.prePushSha == (if b.mode == "published" then b.baseSha else b.migrationSha)
  {
    GitopsNamesAre();
    CommitSteps.PathsAre();
    CommitSteps.BotIs();
    Patterns.PositiveIs(b.appId);
    Patterns.PositiveIs(b.installationId);
  }

  lemma NumbersAre(b: BuildInput)
    requires EnvironmentFits(b.env)
    requires Patterns.Matches(Patterns.POSITIVE_INTEGER, b.appId)
    requires Patterns.Matches(Patterns.POSITIVE_INTEGER, b.installationId)
    ensures PositiveDecimal(b.env["GITHUB_RUN_ID"]) == Some(NatValue(b.env["GITHUB_RUN_ID"]))
    ensures PositiveDecimal(b.appId) == Some(NatValue(b.appId))
    ensures PositiveDecimal(b.installationId) == Some(NatValue(b.installationId))
    ensures NatValue(b.env["GITHUB_RUN_ID"]) > 0 && NatValue(b.appId) > 0 && NatValue(b.installationId) > 0
  {
    Patterns.PositiveIs(b.env["GITHUB_RUN_ID"]);
    Patterns.PositiveIs(b.appId);
    Patterns.PositiveIs(b.installationId);
  }

  /** With a hash and an approval in form, the builder's checks are these, and the record is valid. */
  lemma ChecksAre(b: BuildInput, hash: string -> string)
    requires IsSha64(hash(b.workflow)) && (b.approval.Some? ==> ValidApproval(b.approval.value))
    ensures ChecksPass(b) <==> MayBuild(b, hash) && ValidFields(Asked(b, hash))
  {
    EnvironmentIs(b);
    WorkflowFileIs(b.workflow);
    CommitInputIs(b);
    if IsDigest(b.digest) && IsSha64(b.releaseSha) {
      DerivedSpelled(b.digest, b.releaseSha);
    }
    if ChecksPass(b) || MayBuild(b, hash) {
      NumbersAre(b);
    }
  }

  lemma AskedIsBuilt(b: BuildInput, hash: string -> string)
    requires ChecksPass(b)
    ensures BuiltFields(b, hash) == Asked(b, hash)
  {
    EnvironmentIs(b);
    CommitInputIs(b);
    NumbersAre(b);
  }

  /** Main result: which inputs the builder takes, and what it writes for them: the text of the record
      that they ask for, which says every input under its own name. */
  lemma BuildWrites(b: BuildInput, hash: string -> string)
    requires |hash(b.workflow)| == 64 && IsHex(hash(b.workflow))
    requires b.approval.Some? ==> ValidApproval(b.approval.value)
    ensures BuildEvidence(b, hash).Ok?
       <==> && MayBuild(b, hash) && ValidFields(Asked(b, hash))
            && ByteLength(EvidenceText(Asked(b, hash))) <= 16_384
    ensures BuildEvidence(b, hash).Ok? ==>
      ParseDocument(BuildEvidence(b, hash).value) == Some(Spelled(Asked(b, hash)))
  {
    BuildSucceeds(b, hash);
    if IsSha64(hash(b.workflow)) {
      ChecksAre(b, hash);
    if ChecksPass(b) {
      AskedIsBuilt(b, hash);
    }
      if ChecksPass(b) {
        EvidenceSays(Asked(b, hash));
      }
    }
  }
}
