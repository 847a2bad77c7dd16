/** The sealed release: a release manifest and the candidate spec it names by hash. */
module SealedRelease {
  import opened Results
  import opened Text
  import opened Formats
  import opened Json

  const MAX_DOCUMENT_BYTES := 262_144
  const SHARED_VERSION := "0.0.1-rm.20260907"
  const SHARED_JAR_SHA256 := "3a64de1a1773f1aa05ccd801a88f01ef2cead887e44930554074230fd01f2996"
  const FLYWAY_TARGET := "202609051004"
  const REQUIRED_MIGRATION := "V202609051004__mentor_invite_batches.sql"
  const ROLLBACK_POLICY := "additive-retained"

  datatype SealedError =
    | BadArgument | WrongReleaseHash | BadManifest | WrongCandidateHash | BadCandidate

  /** The arguments of validate_sealed_release; raw texts are the decoded bytes. */
  datatype Call = Call(
    releaseId: string, sourceSha: string, releaseSha: string, releaseRaw: string, candidateRaw: string)

  datatype Sealed = Sealed(candidateSha: string, baseSha: string, imageDigest: string, validatorHead: string)

  /** What the manifest fixes, and what the candidate fixes. */
  datatype ManifestFacts = ManifestFacts(validatorHead: string, candidateSha: string)
  datatype CandidateFacts = CandidateFacts(baseSha: string, imageDigest: string)

  /** _json_object: the members of a root object within the size bound. */
  function RootMembers(raw: string): Option<seq<Member>> {
    if raw == "" || ByteLength(raw) > MAX_DOCUMENT_BYTES then None
    else match ParseDocument(raw)
      case Some(JObj(members)) => Some(members)
      case _ => None
  }

  /** _exact_keys: these keys and no others, in any order. */
  predicate ExactKeys(members: seq<Member>, keys: set<string>) {
    (set m | m in members :: m.key) == keys
  }

  function CandidatePath(releaseId: string): string {
    "release-manifests/candidates/" + releaseId + ".candidate-spec.json"
  }

  function ReadManifest(members: seq<Member>, releaseId: string): Option<ManifestFacts> {
    match (TextAt(members, "release_id"), MembersAt(members, "validation_attestation"),
           MembersAt(members, "candidate_spec"))
    case (Some(id), Some(attestation), Some(candidate)) =>
      (match (TextAt(attestation, "validator_head_sha"), TextAt(candidate, "sha256"))
       case (Some(head), Some(sha)) =>
         if && HasText(members, "document_type", "release-manifest")
            && id == releaseId
            && IsSha40(head)
            && ExactKeys(candidate, {"path", "sha256"})
            && HasText(candidate, "path", CandidatePath(releaseId))
            && IsSha64(sha)
         then Some(ManifestFacts(head, sha))
         else None
       case _ => None)
    case _ => None
  }

  const MIGRATION_KEYS: set<string> := {
    "repository", "source_sha", "shared_version", "shared_jar_sha256", "image_repository",
    "image_digest", "flyway_target", "required_migration", "rollback_policy" }

  predicate MigrationPasses(migration: seq<Member>, sourceSha: string) {
    && ExactKeys(migration, MIGRATION_KEYS)
    && HasText(migration, "repository", REPOSITORY)
    && HasText(migration, "source_sha", sourceSha)
    && HasText(migration, "shared_version", SHARED_VERSION)
    && HasText(migration, "shared_jar_sha256", SHARED_JAR_SHA256)
    && HasText(migration, "image_repository", IMAGE_REPOSITORY)
    && HasText(migration, "flyway_target", FLYWAY_TARGET)
    && HasText(migration, "required_migration", REQUIRED_MIGRATION)
    && HasText(migration, "rollback_policy", ROLLBACK_POLICY)
  }

  function ReadCandidate(members: seq<Member>, releaseId: string, sourceSha: string): Option<CandidateFacts> {
    match (MembersAt(members, "gitops"), MembersAt(members, "shared_migration"))
    case (Some(gitops), Some(migration)) =>
      (match (TextAt(gitops, "base_sha"), TextAt(migration, "image_digest"))
       case (Some(base), Some(digest)) =>
         if && HasText(members, "document_type", "candidate-spec")
            && HasText(members, "release_id", releaseId)
            && IsSha40(base)
            && MigrationPasses(migration, sourceSha)
            && IsDigest(digest)
         then Some(CandidateFacts(base, digest))
         else None
       case _ => None)
    case _ => None
  }

  function ReadManifestText(raw: string, releaseId: string): Option<ManifestFacts> {
    match RootMembers(raw)
    case None => None
    case Some(members) => ReadManifest(members, releaseId)
  }

  function ReadCandidateText(raw: string, releaseId: string, sourceSha: string): Option<CandidateFacts> {
    match RootMembers(raw)
    case None => None
    case Some(members) => ReadCandidate(members, releaseId, sourceSha)
  }

  /** validate_sealed_release; hash is SHA-256 in hexadecimal. */
  function ValidateSealed(c: Call, hash: string -> string): Result<Sealed, SealedError> {
    if !IsReleaseId(c.releaseId) || !IsSha40(c.sourceSha) || !IsSha64(c.releaseSha) then Err(BadArgument)
    else if hash(c.releaseRaw) != c.releaseSha then Err(WrongReleaseHash)
    else match ReadManifestText(c.releaseRaw, c.releaseId)
      case None => Err(BadManifest)
      case Some(manifest) =>
        if hash(c.candidateRaw) != manifest.candidateSha then Err(WrongCandidateHash)
        else match ReadCandidateText(c.candidateRaw, c.releaseId, c.sourceSha)
          case None => Err(BadCandidate)
          case Some(candidate) =>
            Ok(Sealed(manifest.candidateSha, candidate.baseSha, candidate.imageDigest, manifest.validatorHead))
  }

  // ---------------------------------------------------------------- where the facts stand

  lemma ManifestPaths(raw: string, releaseId: string)
    requires ReadManifestText(raw, releaseId).Some?
    ensures var facts := ReadManifestText(raw, releaseId).value;
      && PathText(raw, ["document_type"]) == Some("release-manifest")
      && PathText(raw, ["release_id"]) == Some(releaseId)
      && PathText(raw, ["validation_attestation", "validator_head_sha"]) == Some(facts.validatorHead)
      && PathText(raw, ["candidate_spec", "path"]) == Some(CandidatePath(releaseId))
      && PathText(raw, ["candidate_spec", "sha256"]) == Some(facts.candidateSha)
  {
    var m := RootMembers(raw).value;
    PathOne(m, "document_type");
    PathOne(m, "release_id");
    PathTwo(m, "validation_attestation", "validator_head_sha");
    PathTwo(m, "candidate_spec", "path");
    PathTwo(m, "candidate_spec", "sha256");
  }

  lemma CandidatePaths(raw: string, releaseId: string, sourceSha: string)
    requires ReadCandidateText(raw, releaseId, sourceSha).Some?
    ensures var facts := ReadCandidateText(raw, releaseId, sourceSha).value;
      && PathText(raw, ["document_type"]) == Some("candidate-spec")
      && PathText(raw, ["release_id"]) == Some(releaseId)
      && PathText(raw, ["gitops", "base_sha"]) == Some(facts.baseSha)
      && PathText(raw, ["shared_migration", "source_sha"]) == Some(sourceSha)
      && PathText(raw, ["shared_migration", "image_digest"]) == Some(facts.imageDigest)
  {
    var m := RootMembers(raw).value;
    PathOne(m, "document_type");
    PathOne(m, "release_id");
    PathTwo(m, "gitops", "base_sha");
    PathTwo(m, "shared_migration", "source_sha");
    PathTwo(m, "shared_migration", "image_digest");
  }

  /** What the shared migration holds under a key that is not the source commit or the digest. */
  function MigrationConstant(key: string): Option<string> {
    if key == "repository" then Some(REPOSITORY)
    else if key == "shared_version" then Some(SHARED_VERSION)
    else if key == "shared_jar_sha256" then Some(SHARED_JAR_SHA256)
    else if key == "image_repository" then Some(IMAGE_REPOSITORY)
    else if key == "flyway_target" then Some(FLYWAY_TARGET)
    else if key == "required_migration" then Some(REQUIRED_MIGRATION)
    else if key == "rollback_policy" then Some(ROLLBACK_POLICY)
    else None
  }

  /** In all accepted candidates the shared migration is the same, key by key and whatever else they
      hold: a candidate chooses its source commit and image digest, and no key can be added. */
  lemma SharedMigrationPinned(raw: string, id: string, source: string, key: string)
    requires ReadCandidateText(raw, id, source).Some?
    requires key != "source_sha" && key != "image_digest"
    ensures PathText(raw, ["shared_migration", key]) == MigrationConstant(key)
  {
    var m := RootMembers(raw).value;
    PathTwo(m, "shared_migration", key);
    ConstantAt(MembersAt(m, "shared_migration").value, source, key);
  }

  lemma ConstantAt(migration: seq<Member>, source: string, key: string)
    requires MigrationPasses(migration, source) && key != "source_sha" && key != "image_digest"
    ensures TextAt(migration, key) == MigrationConstant(key)
  {
    if key !in MIGRATION_KEYS {
      LookupAbsent(migration, key);
    }
  }

  lemma {:induction false} LookupAbsent(members: seq<Member>, key: string)
    requires key !in (set m | m in members :: m.key)
    ensures Lookup(members, key) == None
  {
    if members != [] {
      assert members[0].key in (set m | m in members :: m.key);
      assert (set m | m in members[1..] :: m.key) <= (set m | m in members :: m.key);
      LookupAbsent(members[1..], key);
    }
  }

  /** Main result: where each fact of an accepted call stands in the two documents, and that the
      documents are the ones that the release hash and the manifest name. */
  lemma SealedFacts(c: Call, hash: string -> string, s: Sealed)
    requires ValidateSealed(c, hash) == Ok(s)
    ensures hash(c.releaseRaw) == c.releaseSha && hash(c.candidateRaw) == s.candidateSha
    ensures PathText(c.releaseRaw, ["release_id"]) == PathText(c.candidateRaw, ["release_id"]) == Some(c.releaseId)
    ensures PathText(c.releaseRaw, ["candidate_spec", "sha256"]) == Some(s.candidateSha)
    ensures PathText(c.releaseRaw, ["validation_attestation", "validator_head_sha"]) == Some(s.validatorHead)
    ensures PathText(c.candidateRaw, ["gitops", "base_sha"]) == Some(s.baseSha)
    ensures PathText(c.candidateRaw, ["shared_migration", "source_sha"]) == Some(c.sourceSha)
    ensures PathText(c.candidateRaw, ["shared_migration", "image_digest"]) == Some(s.imageDigest)
    ensures IsSha64(s.candidateSha) && IsSha40(s.validatorHead) && IsSha40(s.baseSha) && IsDigest(s.imageDigest)
  {
    ManifestPaths(c.releaseRaw, c.releaseId);
    CandidatePaths(c.candidateRaw, c.releaseId, c.sourceSha);
  }

  // ---------------------------------------------------------------- two links of one chain

  /** One manifest is accepted for one release id only. */
  lemma ManifestFixesId(raw: string, a: string, b: string)
    requires ReadManifestText(raw, a).Some? && ReadManifestText(raw, b).Some?
    ensures a == b
  {
  }

  /** One candidate spec is accepted for one source commit only. */
  lemma CandidateFixesSource(raw: string, id: string, s: string, t: string)
    requires ReadCandidateText(raw, id, s).Some? && ReadCandidateText(raw, id, t).Some?
    ensures s == t
  {
  }

  /** Main result: the release hash alone fixes everything. Next to an accepted call, another
      call under the same release hash is accepted exactly when it has the same release id, the
      same source commit and the same two texts; it then returns the same facts. */
  lemma ReleaseHashBinds(a: Call, b: Call, hash: string -> string)
    requires ValidateSealed(a, hash).Ok? && a.releaseSha == b.releaseSha
    requires TellsApart(hash, a.releaseRaw, b.releaseRaw) && TellsApart(hash, a.candidateRaw, b.candidateRaw)
    ensures ValidateSealed(b, hash).Ok? <==> a == b
    ensures ValidateSealed(b, hash).Ok? ==> ValidateSealed(a, hash) == ValidateSealed(b, hash)
  {
    if ValidateSealed(b, hash).Ok? {
      assert a.releaseRaw == b.releaseRaw;
      ManifestFixesId(a.releaseRaw, a.releaseId, b.releaseId);
      assert a.candidateRaw == b.candidateRaw;
      CandidateFixesSource(a.candidateRaw, a.releaseId, a.sourceSha, b.sourceSha);
    }
  }
}
