/** The four images that a migration image is built from and runs on, pinned by digest. */
module BaseImages {

  datatype Base = BuilderIndex | BuilderAmd64 | RuntimeIndex | RuntimeAmd64

  function DigestOf(b: Base): string {
    match b
    case BuilderIndex => "sha256:1ff763083f2993d57d0bf374ab10bb3e" + "2cb873af6c13a04458ebbd3e0337dc76"
    case BuilderAmd64 => "sha256:4ec2402e5ebb803add08b063b9e5e52e" + "7c11961caaae1f490479d925753f0d92"
    case RuntimeIndex => "sha256:df06535dfd6559ae5f0628c4761013df" + "a4ea6a30cf6e34294931d8091f55a18f"
    case RuntimeAmd64 => "sha256:aa01d87052ace414b7fb33ddabbdabb0" + "56a1e603a8bb5831dd516176718227e1"
  }

  /** The image of a place in the list of all four. */
  function BaseNumber(i: nat): Base
    requires i < 4
  {
    if i == 0 then BuilderIndex else if i == 1 then BuilderAmd64 else if i == 2 then RuntimeIndex else RuntimeAmd64
  }

  /** The label of a config that names the image. */
  function LabelOf(b: Base): string {
    match b
    case BuilderIndex => "ai.devpath.migration.builder-base.index-digest"
    case BuilderAmd64 => "ai.devpath.migration.builder-base.amd64-digest"
    case RuntimeIndex => "ai.devpath.migration.runtime-base.index-digest"
    case RuntimeAmd64 => "ai.devpath.migration.runtime-base.amd64-digest"
  }

  /** A pinned digest in two halves. */
  predicate Pinned(b: Base, head: string, tail: string) {
    |head| == 39 && |tail| == 32 && DigestOf(b) == head + tail
  }

  lemma DigestsAre()
    ensures Pinned(BuilderIndex, "sha256:1ff763083f2993d57d0bf374ab10bb3e", "2cb873af6c13a04458ebbd3e0337dc76")
    ensures Pinned(BuilderAmd64, "sha256:4ec2402e5ebb803add08b063b9e5e52e", "7c11961caaae1f490479d925753f0d92")
    ensures Pinned(RuntimeIndex, "sha256:df06535dfd6559ae5f0628c4761013df", "a4ea6a30cf6e34294931d8091f55a18f")
    ensures Pinned(RuntimeAmd64, "sha256:aa01d87052ace414b7fb33ddabbdabb0", "56a1e603a8bb5831dd516176718227e1")
  {
  }

  lemma LabelsAre()
    ensures LabelOf(BuilderIndex) == "ai.devpath.migration.builder-base.index-digest"
    ensures LabelOf(BuilderAmd64) == "ai.devpath.migration.builder-base.amd64-digest"
    ensures LabelOf(RuntimeIndex) == "ai.devpath.migration.runtime-base.index-digest"
    ensures LabelOf(RuntimeAmd64) == "ai.devpath.migration.runtime-base.amd64-digest"
  {
  }
}
