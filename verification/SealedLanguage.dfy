/** Exactly which calls the sealed release check accepts, read off the two documents by path. */
module SealedLanguage {
  import opened Results
  import opened Text
  import opened Formats
  import opened Json
  import Patterns
  import opened SealedRelease

  predicate IsHash(s: string, n: nat) {
    Patterns.Matches([Patterns.Times(Patterns.HEX, n, n)], s) && !Patterns.OnlyZero(s)
  }

  /** A document whose root is an object, within the size bound. */
  predicate IsObject(raw: string) {
    raw != "" && ByteLength(raw) <= 262_144 && ParseDocument(raw).Some? && ParseDocument(raw).value.JObj?
  }

  /** The keys of the object under a key of the root. */
  function KeysUnder(raw: string, key: string): Option<set<string>> {
    match ParseDocument(raw)
    case Some(JObj(members)) =>
      (match MembersAt(members, key)
       case Some(inner) => Some(set m | m in inner :: m.key)
       case None => None)
    case _ => None
  }

  /** What the manifest of a release says. */
  predicate IsManifest(raw: string, id: string, head: string, candidateSha: string) {
    && IsObject(raw)
    && PathText(raw, ["document_type"]) == Some("release-manifest")
    && PathText(raw, ["release_id"]) == Some(id)
    && PathText(raw, ["validation_attestation", "validator_head_sha"]) == Some(head)
    && KeysUnder(raw, "candidate_spec") == Some({"path", "sha256"})
    && PathText(raw, ["candidate_spec", "path"])
         == Some("release-manifests/candidates/" + id + ".candidate-spec.json")
    && PathText(raw, ["candidate_spec", "sha256"]) == Some(candidateSha)
    && IsHash(head, 40) && IsHash(candidateSha, 64)
  }

  /** A text of the shared library's section. */
  function SharedText(raw: string, key: string): Option<string> {
    PathText(raw, ["shared_migration", key])
  }

  /** What the candidate says of the shared library. */
  predicate IsMigration(raw: string, source: string, digest: string) {
    && KeysUnder(raw, "shared_migration")
         == Some({"repository", "source_sha", "shared_version", "shared_jar_sha256", "image_repository",
                  "image_digest", "flyway_target", "required_migration", "rollback_policy"})
    && SharedText(raw, "repository") == Some("DevPathAi/devpath-shared")
    && SharedText(raw, "source_sha") == Some(source)
    && SharedText(raw, "shared_version") == Some("0.0.1-rm.20260907")
    && SharedText(raw, "shared_jar_sha256") == Some("3a64de1a1773f1aa05ccd801a88f01ef2cead887e44930554074230fd01f2996")
    && SharedText(raw, "image_repository") == Some("ghcr.io/devpathai/devpath-migration")
    && SharedText(raw, "image_digest") == Some(digest)
    && SharedText(raw, "flyway_target") == Some("202609051004")
    && SharedText(raw, "required_migration") == Some("V202609051004__mentor_invite_batches.sql")
    && SharedText(raw, "rollback_policy") == Some("additive-retained")
  }

  /** What the candidate of a release says. */
  predicate IsCandidate(raw: string, id: string, source: string, base: string, digest: string) {
    && IsObject(raw)
    && PathText(raw, ["document_type"]) == Some("candidate-spec")
    && PathText(raw, ["release_id"]) == Some(id)
    && PathText(raw, ["gitops", "base_sha"]) == Some(base)
    && IsMigration(raw, source, digest)
    && IsHash(base, 40) && IsDigest(digest)
  }

  // ---------------------------------------------------------------- paths

  lemma OneAt(raw: string, members: seq<Member>, a: string)
    requires ParseDocument(raw) == Some(JObj(members))
    ensures PathText(raw, [a]) == TextAt(members, a)
  {
    PathOne(members, a);
  }

  lemma TwoAt(raw: string, members: seq<Member>, a: string, b: string)
    requires ParseDocument(raw) == Some(JObj(members))
    ensures PathText(raw, [a, b])
         == match MembersAt(members, a)
            case Some(inner) => TextAt(inner, b)
            case None => None
  {
    var path := [a, b];
    assert path[1..] == [b];
    if MembersAt(members, a).Some? {
      PathTwo(members, a, b);
    } else {
      assert PathIn(members, path) == None;
    }
  }

  // ---------------------------------------------------------------- the two documents

  lemma RootIs(raw: string)
    ensures RootMembers(raw).Some? <==> IsObject(raw)
    ensures RootMembers(raw).Some? ==> ParseDocument(raw) == Some(JObj(RootMembers(raw).value))
  {
  }

  lemma ManifestIs(raw: string, id: string, head: string, candidateSha: string)
    ensures ReadManifestText(raw, id) == Some(ManifestFacts(head, candidateSha))
       <==> IsManifest(raw, id, head, candidateSha)
  {
    RootIs(raw);
    if IsObject(raw) {
      var m := RootMembers(raw).value;
      OneAt(raw, m, "document_type");
      OneAt(raw, m, "release_id");
      TwoAt(raw, m, "validation_attestation", "validator_head_sha");
      TwoAt(raw, m, "candidate_spec", "path");
      TwoAt(raw, m, "candidate_spec", "sha256");
      Patterns.NonzeroHexIs(40, head);
      Patterns.NonzeroHexIs(64, candidateSha);
    }
  }

  lemma ConstantsAre()
    ensures SHARED_VERSION == "0.0.1-rm.20260907" && FLYWAY_TARGET == "202609051004"
    ensures ROLLBACK_POLICY == "additive-retained" && REQUIRED_MIGRATION == "V202609051004__mentor_invite_batches.sql"
    ensures SHARED_JAR_SHA256 == "3a64de1a1773f1aa05ccd801a88f01ef2cead887e44930554074230fd01f2996"
    ensures REPOSITORY == "DevPathAi/devpath-shared" && IMAGE_REPOSITORY == "ghcr.io/devpathai/devpath-migration"
  {
  }

  lemma MigrationIs(raw: string, members: seq<Member>, inner: seq<Member>, source: string, digest: string)
    requires ParseDocument(raw) == Some(JObj(members)) && MembersAt(members, "shared_migration") == Some(inner)
    ensures MigrationPasses(inner, source) && TextAt(inner, "image_digest") == Some(digest)
       <==> IsMigration(raw, source, digest)
  {
    ConstantsAre();
    TwoAt(raw, members, "shared_migration", "repository");
    TwoAt(raw, members, "shared_migration", "source_sha");
    TwoAt(raw, members, "shared_migration", "shared_version");
    TwoAt(raw, members, "shared_migration", "shared_jar_sha256");
    TwoAt(raw, members, "shared_migration", "image_repository");
    TwoAt(raw, members, "shared_migration", "image_digest");
    TwoAt(raw, members, "shared_migration", "flyway_target");
    TwoAt(raw, members, "shared_migration", "required_migration");
    TwoAt(raw, members, "shared_migration", "rollback_policy");
  }

  lemma CandidateIs(raw: string, id: string, source: string, base: string, digest: string)
    ensures ReadCandidateText(raw, id, source) == Some(CandidateFacts(base, digest))
       <==> IsCandidate(raw, id, source, base, digest)
  {
    RootIs(raw);
    if IsObject(raw) {
      var m := RootMembers(raw).value;
      OneAt(raw, m, "document_type");
      OneAt(raw, m, "release_id");
      TwoAt(raw, m, "gitops", "base_sha");
      Patterns.NonzeroHexIs(40, base);
      match MembersAt(m, "shared_migration")
      case Some(inner) => MigrationIs(raw, m, inner, source, digest);
      case None =>
    }
  }

  /** Main result: exactly which calls are accepted, and with which facts: the release hash is that of a
      manifest, which names the hash of a candidate, and the two say what they should at every path. */
  lemma SealedExactlyWhen(c: Call, hash: string -> string, s: Sealed)
    ensures ValidateSealed(c, hash) == Ok(s)
       <==> && Patterns.Matches(Patterns.RELEASE_ID, c.releaseId) && IsHash(c.sourceSha, 40) && IsHash(c.releaseSha, 64)
            && hash(c.releaseRaw) == c.releaseSha && hash(c.candidateRaw) == s.candidateSha
            && IsManifest(c.releaseRaw, c.releaseId, s.validatorHead, s.candidateSha)
            && IsCandidate(c.candidateRaw, c.releaseId, c.sourceSha, s.baseSha, s.imageDigest)
  {
    Patterns.ReleaseIdIs(c.releaseId);
    Patterns.NonzeroHexIs(40, c.sourceSha);
    Patterns.NonzeroHexIs(64, c.releaseSha);
    ManifestIs(c.releaseRaw, c.releaseId, s.validatorHead, s.candidateSha);
    CandidateIs(c.candidateRaw, c.releaseId, c.sourceSha, s.baseSha, s.imageDigest);
    if ValidateSealed(c, hash) == Ok(s) {
      assert ReadManifestText(c.releaseRaw, c.releaseId) == Some(ManifestFacts(s.validatorHead, s.candidateSha));
      assert ReadCandidateText(c.candidateRaw, c.releaseId, c.sourceSha)
          == Some(CandidateFacts(s.baseSha, s.imageDigest));
    }
  }
}
