/** What the publisher checks of an image that the registry returns, and what that binds. */
module RemoteImage {
  import opened Results
  import opened Text
  import opened Formats
  import opened Json
  import opened BaseImages

  const SOURCE_LABEL := "https://github.com/DevPathAi/devpath-shared"

  datatype ImageError =
    | BadSource | BadHeader | WrongManifestBytes | BadManifest | WrongConfigSize | WrongConfigBytes | BadConfig
    | BadCandidate | NotTheCandidate

  datatype Image = Image(digest: string, configDigest: string)

  /** The arguments of validate_remote_image; raw texts are the decoded bytes. */
  datatype Reply = Reply(manifestRaw: string, header: string, configRaw: string, sourceSha: string)

  /** Python's value != 2, negated: an integer 2, or a float that is read as 2.0. */
  predicate EqualsTwo(v: Json) {
    v == JInt(2) || (v.JFloat? && RoundsTo(v.digits, v.scale, 2))
  }

  predicate IsManifestType(v: Option<Json>) {
    || v == Some(JStr("application/vnd.oci.image.manifest.v1+json"))
    || v == Some(JStr("application/vnd.docker.distribution.manifest.v2+json"))
  }

  predicate IsConfigType(v: Option<Json>) {
    || v == Some(JStr("application/vnd.oci.image.config.v1+json"))
    || v == Some(JStr("application/vnd.docker.container.image.v1+json"))
  }

  datatype Descriptor = Descriptor(digest: string, size: int)

  /** The config descriptor of an acceptable manifest. */
  function ReadManifest(raw: string): Option<Descriptor> {
    match ParseDocument(raw)
    case Some(JObj(members)) =>
      (match (Lookup(members, "schemaVersion"), Lookup(members, "layers"), MembersAt(members, "config"))
       case (Some(version), Some(layers), Some(config)) =>
         (match (TextAt(config, "digest"), Lookup(config, "size"))
          case (Some(digest), Some(JInt(size))) =>
            if && EqualsTwo(version) && layers.JArr?
               && IsManifestType(Lookup(members, "mediaType"))
               && IsConfigType(Lookup(config, "mediaType"))
               && IsDigest(digest) && size > 0
            then Some(Descriptor(digest, size))
            else None
          case _ => None)
       case _ => None)
    case _ => None
  }

  predicate LabelsPass(labels: seq<Member>, sourceSha: string) {
    && HasText(labels, "org.opencontainers.image.source", SOURCE_LABEL)
    && HasText(labels, "org.opencontainers.image.revision", sourceSha)
    && forall b: Base :: HasText(labels, LabelOf(b), DigestOf(b))
  }

  predicate ConfigPasses(raw: string, sourceSha: string) {
    match ParseDocument(raw)
    case Some(JObj(members)) =>
      && HasText(members, "architecture", "amd64")
      && HasText(members, "os", "linux")
      && MembersAt(members, "config").Some?
      && MembersAt(MembersAt(members, "config").value, "Labels").Some?
      && LabelsPass(MembersAt(MembersAt(members, "config").value, "Labels").value, sourceSha)
    case _ => false
  }

  /** validate_remote_image; hash is SHA-256 in hexadecimal. */
  function ValidateRemote(r: Reply, hash: string -> string): Result<Image, ImageError> {
    var arguments := if IsSha40(r.sourceSha) then Need(IsDigest(r.header), BadHeader) else Fail(BadSource);
    :- arguments;
    :- Need(r.header == "sha256:" + hash(r.manifestRaw), WrongManifestBytes);
    match ReadManifest(r.manifestRaw)
    case None => Err(BadManifest)
    case Some(descriptor) =>
      :- Need(descriptor.size == ByteLength(r.configRaw), WrongConfigSize);
      :- Need("sha256:" + hash(r.configRaw) == descriptor.digest, WrongConfigBytes);
      :- Need(ConfigPasses(r.configRaw, r.sourceSha), BadConfig);
      Ok(Image(r.header, descriptor.digest))
  }

  /** require_candidate_config */
  function RequireCandidate(image: Image, candidate: string): Outcome<ImageError> {
    if !IsDigest(candidate) then Fail(BadCandidate)
    else Need(image.configDigest == candidate, NotTheCandidate)
  }

  /** validate_remote_image and then require_candidate_config. */
  function ValidateCandidate(r: Reply, candidate: string, hash: string -> string): Result<Image, ImageError> {
    var image :- ValidateRemote(r, hash);
    :- RequireCandidate(image, candidate);
    Ok(image)
  }

  // ---------------------------------------------------------------- bindings

  lemma SameHash(a: string, b: string)
    requires "sha256:" + a == "sha256:" + b
    ensures a == b
  {
    assert ("sha256:" + a)[7..] == a && ("sha256:" + b)[7..] == b;
  }

  /** A provenance label of a config. */
  function Label(raw: string, key: string): Option<string> {
    PathText(raw, ["config", "Labels", key])
  }

  lemma LabelAt(raw: string, key: string)
    requires exists s :: ConfigPasses(raw, s)
    ensures Label(raw, key)
         == TextAt(MembersAt(MembersAt(ParseDocument(raw).value.members, "config").value, "Labels").value, key)
  {
    var members := ParseDocument(raw).value.members;
    assert ["config", "Labels", key][1..] == ["Labels", key];
    PathTwo(MembersAt(members, "config").value, "Labels", key);
  }

  /** What an accepted image says of itself, read off its config by path. */
  lemma ConfigFacts(raw: string, sourceSha: string)
    requires ConfigPasses(raw, sourceSha)
    ensures PathText(raw, ["architecture"]) == Some("amd64") && PathText(raw, ["os"]) == Some("linux")
    ensures Label(raw, "org.opencontainers.image.source") == Some(SOURCE_LABEL)
    ensures Label(raw, "org.opencontainers.image.revision") == Some(sourceSha)
  {
    var members := ParseDocument(raw).value.members;
    PathOne(members, "architecture");
    PathOne(members, "os");
    LabelAt(raw, "org.opencontainers.image.source");
    LabelAt(raw, "org.opencontainers.image.revision");
  }

  /** One config is accepted for one source commit only. */
  lemma ConfigFixesSource(raw: string, s: string, t: string)
    requires ConfigPasses(raw, s) && ConfigPasses(raw, t)
    ensures s == t
  {
    ConfigFacts(raw, s);
    ConfigFacts(raw, t);
  }

  /** The two links of an accepted reply: header to manifest, descriptor to config. */
  lemma Links(r: Reply, hash: string -> string, image: Image)
    requires ValidateRemote(r, hash) == Ok(image)
    ensures image.digest == r.header == "sha256:" + hash(r.manifestRaw)
    ensures image.configDigest == "sha256:" + hash(r.configRaw)
  {
  }

  lemma ConfigChecked(r: Reply, hash: string -> string)
    requires ValidateRemote(r, hash).Ok?
    ensures ConfigPasses(r.configRaw, r.sourceSha)
  {
  }

  lemma SameConfig(a: Reply, b: Reply, hash: string -> string, x: string, y: string)
    requires TellsApart(hash, a.configRaw, b.configRaw)
    requires x == "sha256:" + hash(a.configRaw) && y == "sha256:" + hash(b.configRaw)
    requires x == y
    ensures a.configRaw == b.configRaw
  {
    SameHash(hash(a.configRaw), hash(b.configRaw));
  }

  /** Main result: a config digest fixes the source. Two accepted replies with one config digest
      carry the same config bytes for the same source commit. */
  lemma ConfigDigestBinds(a: Reply, b: Reply, hash: string -> string)
    requires ValidateRemote(a, hash).Ok? && ValidateRemote(b, hash).Ok?
    requires TellsApart(hash, a.configRaw, b.configRaw)
    requires ValidateRemote(a, hash).value.configDigest == ValidateRemote(b, hash).value.configDigest
    ensures a.configRaw == b.configRaw && a.sourceSha == b.sourceSha
  {
    var x, y := ValidateRemote(a, hash).value, ValidateRemote(b, hash).value;
    Links(a, hash, x);
    Links(b, hash, y);
    ConfigChecked(a, hash);
    ConfigChecked(b, hash);
    SameConfig(a, b, hash, x.configDigest, y.configDigest);
    ConfigFixesSource(a.configRaw, a.sourceSha, b.sourceSha);
  }

  lemma SameManifest(a: Reply, b: Reply, hash: string -> string)
    requires ValidateRemote(a, hash).Ok? && ValidateRemote(b, hash).Ok? && a.header == b.header
    requires TellsApart(hash, a.manifestRaw, b.manifestRaw)
    ensures a.manifestRaw == b.manifestRaw
    ensures ValidateRemote(a, hash).value.configDigest == ValidateRemote(b, hash).value.configDigest
  {
    Links(a, hash, ValidateRemote(a, hash).value);
    Links(b, hash, ValidateRemote(b, hash).value);
    SameHash(hash(a.manifestRaw), hash(b.manifestRaw));
    DescriptorIs(a, hash);
    DescriptorIs(b, hash);
  }

  lemma DescriptorIs(r: Reply, hash: string -> string)
    requires ValidateRemote(r, hash).Ok?
    ensures ReadManifest(r.manifestRaw)
         == Some(Descriptor(ValidateRemote(r, hash).value.configDigest, ByteLength(r.configRaw)))
  {
  }

  /** Main result: a manifest digest fixes everything. Next to an accepted reply, another one under
      the same digest is accepted exactly when it is the same reply, bytes and source commit alike. */
  lemma ManifestDigestBinds(a: Reply, b: Reply, hash: string -> string)
    requires ValidateRemote(a, hash).Ok? && a.header == b.header
    requires TellsApart(hash, a.manifestRaw, b.manifestRaw) && TellsApart(hash, a.configRaw, b.configRaw)
    ensures ValidateRemote(b, hash).Ok? <==> a == b
  {
    if ValidateRemote(b, hash).Ok? {
      SameManifest(a, b, hash);
      ConfigDigestBinds(a, b, hash);
    }
  }

  /** One candidate is never accepted for two source commits. */
  lemma CandidateHasOneSource(a: Reply, b: Reply, candidate: string, hash: string -> string)
    requires ValidateCandidate(a, candidate, hash).Ok? && ValidateCandidate(b, candidate, hash).Ok?
    requires TellsApart(hash, a.configRaw, b.configRaw)
    ensures a.sourceSha == b.sourceSha && a.configRaw == b.configRaw
  {
    ConfigDigestBinds(a, b, hash);
  }
}
