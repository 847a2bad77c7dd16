/** Image evidence cannot outgrow its size bound either. */
module ImageEvidenceSize {
  import opened Results
  import opened Text
  import opened Formats
  import opened Json
  import opened JsonRoundTrip
  import opened OrderedJson
  import opened BaseImages
  import RemoteImage
  import opened EvidenceSize
  import opened ImageEvidence

  // ---------------------------------------------------------------- the constants are plain

  lemma HalvesPlain(a: string, b: string)
    requires AllPlain(a) && AllPlain(b) && |a| == 39 && |b| == 32
    ensures AllPlain(a + b) && |a + b| == 71
  {
  }

  lemma BuilderIndexPlain()
    ensures AllPlain("sha256:1ff763083f2993d57d0bf374ab10bb3e") && AllPlain("2cb873af6c13a04458ebbd3e0337dc76")
  {
  }

  lemma BuilderAmd64Plain()
    ensures AllPlain("sha256:4ec2402e5ebb803add08b063b9e5e52e") && AllPlain("7c11961caaae1f490479d925753f0d92")
  {
  }

  lemma RuntimeIndexPlain()
    ensures AllPlain("sha256:df06535dfd6559ae5f0628c4761013df") && AllPlain("a4ea6a30cf6e34294931d8091f55a18f")
  {
  }

  lemma RuntimeAmd64Plain()
    ensures AllPlain("sha256:aa01d87052ace414b7fb33ddabbdabb0") && AllPlain("56a1e603a8bb5831dd516176718227e1")
  {
  }

  lemma BasesPlain()
    ensures forall b: Base :: AllPlain(DigestOf(b)) && |DigestOf(b)| == 71
  {
    forall b: Base ensures AllPlain(DigestOf(b)) && |DigestOf(b)| == 71 {
      DigestsAre();
      match b
      case BuilderIndex =>
        BuilderIndexPlain();
        HalvesPlain("sha256:1ff763083f2993d57d0bf374ab10bb3e", "2cb873af6c13a04458ebbd3e0337dc76");
      case BuilderAmd64 =>
        BuilderAmd64Plain();
        HalvesPlain("sha256:4ec2402e5ebb803add08b063b9e5e52e", "7c11961caaae1f490479d925753f0d92");
      case RuntimeIndex =>
        RuntimeIndexPlain();
        HalvesPlain("sha256:df06535dfd6559ae5f0628c4761013df", "a4ea6a30cf6e34294931d8091f55a18f");
      case RuntimeAmd64 =>
        RuntimeAmd64Plain();
        HalvesPlain("sha256:aa01d87052ace414b7fb33ddabbdabb0", "56a1e603a8bb5831dd516176718227e1");
    }
  }

  lemma SourceLabelPlain()
    ensures AllPlain(RemoteImage.SOURCE_LABEL) && |RemoteImage.SOURCE_LABEL| <= 98
  {
  }

  lemma SchemaPlain()
    ensures AllPlain(SCHEMA_VERSION) && |SCHEMA_VERSION| <= 98
  {
    AppendPlain("leva.mission-spine.", "immutable-migration-image.v1");
  }

  lemma NamesPlain()
    ensures AllPlain(REPOSITORY) && |REPOSITORY| <= 98
    ensures AllPlain(IMAGE_REPOSITORY) && |IMAGE_REPOSITORY| <= 98
    ensures AllPlain("passed") && AllPlain("published") && AllPlain("reused")
  {
    RepositoryPlain();
    ImageNamePlain();
  }

  // ---------------------------------------------------------------- the whole document

  lemma FirstHalf(f: Fields)
    requires ValidFields(f) && IdValue(JInt(f.runId))
    ensures Scalars(Values(f, JInt(1))[..8], 100)
  {
    SchemaPlain();
    NamesPlain();
    HexPlain(f.sourceSha);
    SmallNumbers();
  }

  lemma SecondHalf(f: Fields)
    requires ValidFields(f)
    ensures Scalars(Values(f, JInt(1))[8..12], 100)
  {
    SourceLabelPlain();
    NamesPlain();
    HexPlain(f.sourceSha);
    DigestPlain(f.digest);
  }

  lemma BaseDigests(f: Fields)
    ensures Scalars(Values(f, JInt(1))[12..], 100)
  {
    BasesPlain();
  }

  lemma ThreeParts(x: seq<Json>, w: nat)
    requires |x| == 16 && w >= MAX_ID_DIGITS
    requires Scalars(x[..8], w) && Scalars(x[8..12], w) && Scalars(x[12..], w)
    ensures ValuesSmall(x, w)
  {
    forall i | 0 <= i < 16 ensures PlainText(x[i], w) || IdValue(x[i]) {
      if i < 8 {
        assert x[i] == x[..8][i];
      } else if i < 12 {
        assert x[i] == x[8..12][i - 8];
      } else {
        assert x[i] == x[12..][i - 12];
      }
    }
    ScalarsSmall(x, w);
  }

  lemma KeysShortEnough()
    ensures KeysShort(KEYS, 25)
  {
    KeyLengths();
  }

  lemma TextOfSixteen(keys: seq<string>, x: seq<Json>)
    requires |keys| == |x| == 16 && Distinct(keys) && KeysShort(keys, 25) && ValuesSmall(x, 100)
    ensures Printable(JObj(Zip(keys, x))) && ByteLength(Canonical(JObj(Zip(keys, x)))) <= 6467
  {
    ObjectSmall(keys, x, 25, 304, 100);
    ByteLengthAscii(Canonical(JObj(Zip(keys, x))));
  }

  /** Main result: with a run id of at most 100 digits the producer never fails on size, so it writes
      the text of every valid record. */
  lemma WrittenWheneverValid(f: Fields)
    requires IdValue(JInt(f.runId))
    ensures WriteEvidence(f).Some? <==> ValidFields(f)
  {
    if ValidFields(f) {
      FirstHalf(f);
      SecondHalf(f);
      BaseDigests(f);
      ThreeParts(Values(f, JInt(1)), 100);
      KeysDistinct();
      KeysShortEnough();
      TextOfSixteen(KEYS, Values(f, JInt(1)));
    }
  }
}
