/** The fixed patterns and constants of the release gate, as recognisers of whole strings. */
module Formats {
  import opened Results
  import opened Text

  const REPOSITORY := "DevPathAi/devpath-shared"
  const IMAGE_REPOSITORY := "ghcr.io/devpathai/devpath-migration"
  const BOT_NAME := "devpath-gitops-release[bot]"
  const MIGRATION_JOB_PREFIX := "devpath-flyway-migrate-"
  const MIGRATION_PATHS: seq<string> :=
    [BasePath("devpath-migration"), BasePath("devpath-platform-svc"), BasePath("devpath-sandbox-svc")]

  /** The base kustomization of an application. */
  function BasePath(app: string): string {
    "apps/" + app + "/base/kustomization.yaml"
  }

  /** How a run ended: it published its commit or image, or reused the one that was there. */
  datatype PublishMode = Published | Reused

  function ModeText(mode: PublishMode): string {
    match mode
    case Published => "published"
    case Reused => "reused"
  }

  function ModeOf(text: string): (r: Option<PublishMode>)
    ensures r.Some? <==> text == ModeText(Published) || text == ModeText(Reused)
    ensures r.Some? ==> text == ModeText(r.value)
  {
    if text == ModeText(Published) then Some(Published)
    else if text == ModeText(Reused) then Some(Reused)
    else None
  }

  /** The hash does not give two texts away for one another. */
  predicate TellsApart(hash: string -> string, a: string, b: string) {
    hash(a) == hash(b) ==> a == b
  }

  predicate IsLowerAlnum(c: char) {
    IsDigit(c) || 'a' <= c <= 'z'
  }

  predicate IsAlnum(c: char) {
    IsLowerAlnum(c) || 'A' <= c <= 'Z'
  }

  predicate AllZeroes(s: string) {
    forall i | 0 <= i < |s| :: s[i] == '0'
  }

  /** A lower-case hexadecimal name of n digits that is not all zeroes. */
  predicate IsNonzeroHex(s: string, n: nat) {
    |s| == n && IsHex(s) && !AllZeroes(s)
  }

  predicate IsSha40(s: string) {
    IsNonzeroHex(s, 40)
  }

  predicate IsSha64(s: string) {
    IsNonzeroHex(s, 64)
  }

  predicate IsDigest(s: string) {
    StartsWith(s, "sha256:") && IsSha64(s[7..])
  }

  /** The hexadecimal part of a digest. */
  function DigestHex(digest: string): string
    requires IsDigest(digest)
  {
    digest[7..]
  }

  /** ms-<8 digits>-<lower-case alphanumeric><2 to 40 of the same or '-'> */
  predicate IsReleaseId(s: string) {
    && 15 <= |s| <= 53
    && s[..3] == "ms-"
    && (forall i | 3 <= i < 11 :: IsDigit(s[i]))
    && s[11] == '-'
    && IsLowerAlnum(s[12])
    && (forall i | 13 <= i < |s| :: IsLowerAlnum(s[i]) || s[i] == '-')
  }

  predicate IsSafeTag(s: string) {
    && 1 <= |s| <= 128
    && IsAlnum(s[0])
    && forall i | 1 <= i < |s| :: IsAlnum(s[i]) || s[i] == '.' || s[i] == '_' || s[i] == '-'
  }

  /** A GitHub login: up to 39 alphanumerics or '-', neither first nor last of them '-'. */
  predicate IsLogin(s: string) {
    && 1 <= |s| <= 39
    && IsAlnum(s[0])
    && IsAlnum(s[|s| - 1])
    && forall i | 0 <= i < |s| :: IsAlnum(s[i]) || s[i] == '-'
  }

  /** "<prefix><12 hex>-<24 hex>" */
  predicate IsJobName(s: string) {
    && |s| == |MIGRATION_JOB_PREFIX| + 37
    && StartsWith(s, MIGRATION_JOB_PREFIX)
    && IsHex(JobDigestPart(s))
    && s[|MIGRATION_JOB_PREFIX| + 12] == '-'
    && IsHex(JobReleasePart(s))
  }

  function JobDigestPart(s: string): string
    requires |s| == |MIGRATION_JOB_PREFIX| + 37
  {
    s[|MIGRATION_JOB_PREFIX|..|MIGRATION_JOB_PREFIX| + 12]
  }

  function JobReleasePart(s: string): string
    requires |s| == |MIGRATION_JOB_PREFIX| + 37
  {
    s[|MIGRATION_JOB_PREFIX| + 13..]
  }

  /** The Job name of a release: 12 hex digits of the image digest, 24 of the manifest hash. */
  function DerivedJobName(digest: string, releaseSha: string): string
    requires IsDigest(digest) && IsSha64(releaseSha)
  {
    MIGRATION_JOB_PREFIX + DigestHex(digest)[..12] + "-" + releaseSha[..24]
  }

  lemma DerivedJobNameParts(digest: string, releaseSha: string)
    requires IsDigest(digest) && IsSha64(releaseSha)
    ensures IsJobName(DerivedJobName(digest, releaseSha))
    ensures JobDigestPart(DerivedJobName(digest, releaseSha)) == DigestHex(digest)[..12]
    ensures JobReleasePart(DerivedJobName(digest, releaseSha)) == releaseSha[..24]
  {
    var p, h, r := MIGRATION_JOB_PREFIX, DigestHex(digest)[..12], releaseSha[..24];
    var s := DerivedJobName(digest, releaseSha);
    assert |p| == 23;
    assert s[..23] == p;
    assert JobDigestPart(s) == h;
    assert s[35] == '-';
    assert JobReleasePart(s) == r;
  }

  /** Two releases share a Job name exactly when both prefixes agree. */
  lemma DerivedJobNameCollides(d1: string, r1: string, d2: string, r2: string)
    requires IsDigest(d1) && IsSha64(r1) && IsDigest(d2) && IsSha64(r2)
    ensures DerivedJobName(d1, r1) == DerivedJobName(d2, r2)
       <==> DigestHex(d1)[..12] == DigestHex(d2)[..12] && r1[..24] == r2[..24]
  {
    DerivedJobNameParts(d1, r1);
    DerivedJobNameParts(d2, r2);
  }

  /** deploy(devpath-migration): <release> sealed <manifest hash> */
  function CommitSubject(releaseId: string, releaseSha: string): string {
    "deploy(devpath-migration): " + releaseId + " sealed " + releaseSha
  }
}
