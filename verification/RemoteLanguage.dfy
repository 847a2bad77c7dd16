/** Exactly which replies of the registry are accepted, read off the manifest and the config by path. */
module RemoteLanguage {
  import opened Results
  import opened Text
  import opened Formats
  import opened Json
  import Patterns
  import opened BaseImages
  import opened RemoteImage

  predicate IsHash(s: string, n: nat) {
    Patterns.Matches([Patterns.Times(Patterns.HEX, n, n)], s) && !Patterns.OnlyZero(s)
  }

  /** The value at a path of a document whose root is an object. */
  function At(raw: string, path: seq<string>): Option<Json> {
    match ParseDocument(raw)
    case Some(JObj(members)) => ValueAt(JObj(members), path)
    case _ => None
  }

  predicate Says(raw: string, path: seq<string>, text: string) {
    At(raw, path) == Some(JStr(text))
  }

  predicate IsVersionTwo(v: Option<Json>) {
    || v == Some(JInt(2))
    || (v.Some? && v.value.JFloat? && RoundsTo(v.value.digits, v.value.scale, 2))
  }

  predicate IsArray(v: Option<Json>) {
    v.Some? && v.value.JArr?
  }

  /** The descriptor of a manifest. */
  predicate NamesConfig(raw: string, digest: string, size: int) {
    && (|| Says(raw, ["config", "mediaType"], "application/vnd.oci.image.config.v1+json")
        || Says(raw, ["config", "mediaType"], "application/vnd.docker.container.image.v1+json"))
    && Says(raw, ["config", "digest"], digest) && At(raw, ["config", "size"]) == Some(JInt(size))
  }

  /** A manifest that describes a config of this digest and size. */
  predicate Describes(raw: string, digest: string, size: int) {
    && IsVersionTwo(At(raw, ["schemaVersion"]))
    && (|| Says(raw, ["mediaType"], "application/vnd.oci.image.manifest.v1+json")
        || Says(raw, ["mediaType"], "application/vnd.docker.distribution.manifest.v2+json"))
    && NamesConfig(raw, digest, size)
    && IsArray(At(raw, ["layers"]))
    && IsDigest(digest) && size > 0
  }

  predicate Labelled(raw: string, name: string, text: string) {
    Says(raw, ["config", "Labels", name], text)
  }

  /** A config of the migration image for a source commit. */
  predicate IsConfigOf(raw: string, sourceSha: string) {
    && Says(raw, ["architecture"], "amd64") && Says(raw, ["os"], "linux")
    && Labelled(raw, "org.opencontainers.image.source", "https://github.com/DevPathAi/devpath-shared")
    && Labelled(raw, "org.opencontainers.image.revision", sourceSha)
    && (forall b: Base :: Labelled(raw, LabelOf(b), DigestOf(b)))
  }

  // ---------------------------------------------------------------- paths

  lemma Step(members: seq<Member>, path: seq<string>, a: string, rest: seq<string>)
    requires path == [a] + rest
    ensures ValueAt(JObj(members), path)
         == if Lookup(members, a).Some? then ValueAt(Lookup(members, a).value, rest) else None
  {
    assert path[1..] == rest;
  }

  lemma Stop(v: Json)
    ensures ValueAt(v, []) == Some(v)
  {
  }

  lemma OneIn(members: seq<Member>, a: string)
    ensures ValueAt(JObj(members), [a]) == Lookup(members, a)
  {
    Step(members, [a], a, []);
    if Lookup(members, a).Some? {
      Stop(Lookup(members, a).value);
    }
  }

  lemma TwoIn(members: seq<Member>, a: string, b: string)
    ensures ValueAt(JObj(members), [a, b])
         == if MembersAt(members, a).Some? then Lookup(MembersAt(members, a).value, b) else None
  {
    Step(members, [a, b], a, [b]);
    if MembersAt(members, a).Some? {
      OneIn(MembersAt(members, a).value, b);
    }
  }

  lemma OneAt(raw: string, members: seq<Member>, a: string)
    requires ParseDocument(raw) == Some(JObj(members))
    ensures At(raw, [a]) == Lookup(members, a)
  {
    OneIn(members, a);
  }

  lemma TwoAt(raw: string, members: seq<Member>, a: string, b: string)
    requires ParseDocument(raw) == Some(JObj(members))
    ensures At(raw, [a, b]) == if MembersAt(members, a).Some? then Lookup(MembersAt(members, a).value, b) else None
  {
    TwoIn(members, a, b);
  }

  lemma ThreeAt(raw: string, members: seq<Member>, a: string, b: string, c: string)
    requires ParseDocument(raw) == Some(JObj(members))
    ensures At(raw, [a, b, c])
         == if MembersAt(members, a).Some? && MembersAt(MembersAt(members, a).value, b).Some?
            then Lookup(MembersAt(MembersAt(members, a).value, b).value, c) else None
  {
    Step(members, [a, b, c], a, [b, c]);
    if MembersAt(members, a).Some? {
      TwoIn(MembersAt(members, a).value, b, c);
    }
  }

  // ---------------------------------------------------------------- the two documents

  lemma DescriptorRead(raw: string, members: seq<Member>, digest: string, size: int)
    requires ParseDocument(raw) == Some(JObj(members))
    ensures NamesConfig(raw, digest, size)
       <==> && MembersAt(members, "config").Some?
            && var config := MembersAt(members, "config").value;
               && IsConfigType(Lookup(config, "mediaType"))
               && TextAt(config, "digest") == Some(digest) && Lookup(config, "size") == Some(JInt(size))
  {
    TwoAt(raw, members, "config", "mediaType");
    TwoAt(raw, members, "config", "digest");
    TwoAt(raw, members, "config", "size");
  }

  lemma ManifestIs(raw: string, digest: string, size: int)
    ensures ReadManifest(raw) == Some(Descriptor(digest, size)) <==> Describes(raw, digest, size)
  {
    match ParseDocument(raw)
    case Some(JObj(members)) =>
      OneAt(raw, members, "schemaVersion");
      OneAt(raw, members, "mediaType");
      OneAt(raw, members, "layers");
      DescriptorRead(raw, members, digest, size);
    case _ =>
  }

  lemma BaseAt(raw: string, members: seq<Member>, labels: seq<Member>, b: Base)
    requires ParseDocument(raw) == Some(JObj(members)) && MembersAt(members, "config").Some?
    requires MembersAt(MembersAt(members, "config").value, "Labels") == Some(labels)
    ensures HasText(labels, LabelOf(b), DigestOf(b)) <==> Labelled(raw, LabelOf(b), DigestOf(b))
  {
    ThreeAt(raw, members, "config", "Labels", LabelOf(b));
  }

  lemma LabelsIs(raw: string, members: seq<Member>, labels: seq<Member>, sourceSha: string)
    requires ParseDocument(raw) == Some(JObj(members)) && MembersAt(members, "config").Some?
    requires MembersAt(MembersAt(members, "config").value, "Labels") == Some(labels)
    ensures LabelsPass(labels, sourceSha)
       <==> && Labelled(raw, "org.opencontainers.image.source", "https://github.com/DevPathAi/devpath-shared")
            && Labelled(raw, "org.opencontainers.image.revision", sourceSha)
            && forall b: Base :: Labelled(raw, LabelOf(b), DigestOf(b))
  {
    forall b: Base ensures HasText(labels, LabelOf(b), DigestOf(b)) <==> Labelled(raw, LabelOf(b), DigestOf(b)) {
      BaseAt(raw, members, labels, b);
    }
    ThreeAt(raw, members, "config", "Labels", "org.opencontainers.image.source");
    ThreeAt(raw, members, "config", "Labels", "org.opencontainers.image.revision");
  }

  lemma ConfigIs(raw: string, sourceSha: string)
    ensures ConfigPasses(raw, sourceSha) <==> IsConfigOf(raw, sourceSha)
  {
    match ParseDocument(raw)
    case Some(JObj(members)) =>
      OneAt(raw, members, "architecture");
      OneAt(raw, members, "os");
      if MembersAt(members, "config").Some? && MembersAt(MembersAt(members, "config").value, "Labels").Some? {
        LabelsIs(raw, members, MembersAt(MembersAt(members, "config").value, "Labels").value, sourceSha);
      } else {
        ThreeAt(raw, members, "config", "Labels", "org.opencontainers.image.revision");
      }
    case _ =>
  }

  /** What an accepted reply is. */
  predicate Accepts(r: Reply, hash: string -> string, image: Image) {
    && IsHash(r.sourceSha, 40) && IsDigest(r.header)
    && image.digest == r.header == "sha256:" + hash(r.manifestRaw)
    && image.configDigest == "sha256:" + hash(r.configRaw)
    && Describes(r.manifestRaw, image.configDigest, ByteLength(r.configRaw))
    && IsConfigOf(r.configRaw, r.sourceSha)
  }

  lemma OnlyThen(r: Reply, hash: string -> string, image: Image)
    requires ValidateRemote(r, hash) == Ok(image)
    ensures Accepts(r, hash, image)
  {
    Patterns.NonzeroHexIs(40, r.sourceSha);
    Links(r, hash, image);
    DescriptorIs(r, hash);
    ManifestIs(r.manifestRaw, image.configDigest, ByteLength(r.configRaw));
    ConfigChecked(r, hash);
    ConfigIs(r.configRaw, r.sourceSha);
  }

  lemma AlwaysThen(r: Reply, hash: string -> string, image: Image)
    requires Accepts(r, hash, image)
    ensures ValidateRemote(r, hash) == Ok(image)
  {
    Patterns.NonzeroHexIs(40, r.sourceSha);
    ManifestIs(r.manifestRaw, image.configDigest, ByteLength(r.configRaw));
    ConfigIs(r.configRaw, r.sourceSha);
  }

  /** Main result: exactly which replies are accepted, and with which image: the header is the hash of a
      manifest, which describes a config by its hash and size, and the config is of the source commit. */
  lemma RemoteExactlyWhen(r: Reply, hash: string -> string, image: Image)
    ensures ValidateRemote(r, hash) == Ok(image) <==> Accepts(r, hash, image)
  {
    if ValidateRemote(r, hash) == Ok(image) {
      OnlyThen(r, hash, image);
    }
    if Accepts(r, hash, image) {
      AlwaysThen(r, hash, image);
    }
  }

  /** The candidate is a digest, and the config digest of an accepted reply. */
  lemma CandidateExactlyWhen(r: Reply, candidate: string, hash: string -> string, image: Image)
    ensures ValidateCandidate(r, candidate, hash) == Ok(image)
       <==> ValidateRemote(r, hash) == Ok(image) && IsDigest(candidate) && image.configDigest == candidate
  {
  }
}
