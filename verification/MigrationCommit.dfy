/** The two checks of a migration commit: before it is reconstructed, and once it exists. */
module MigrationCommit {
  import opened Results
  import opened Formats
  import opened Evidence

  datatype CommitError =
    | BadFormat | NotSupplied | BaseWithChildFacts
    | NotDistinct | WrongParent | WrongTree | WrongPaths | WrongSubject | WrongActor | WrongMode | WrongPrePush

  /** The sealed release that a commit belongs to. */
  datatype Release = Release(releaseId: string, manifestSha: string, baseSha: string)

  /** What git reports about one commit. */
  datatype Child = Child(paths: seq<string>, subject: string, author: string, committer: string)

  /** The arguments of validate_migration_facts. */
  datatype Facts = Facts(
    release: Release, prePush: string, commit: string, parent: string,
    tree: string, expectedTree: string, child: Child, mode: string)

  /** The arguments of validate_pre_reconstruction_source_facts. */
  datatype Source = Source(release: Release, supplied: string, head: string, parents: seq<string>, child: Child)

  /** The normalised facts that the full check returns. */
  datatype Checked = Checked(prePush: string, commit: string, tree: string, mode: PublishMode)

  function CheckRelease(r: Release): Outcome<CommitError> {
    Need(IsReleaseId(r.releaseId) && IsSha64(r.manifestSha) && IsSha40(r.baseSha), BadFormat)
  }

  function CheckChild(child: Child, r: Release): Outcome<CommitError> {
    if child.paths != MIGRATION_PATHS then Fail(WrongPaths)
    else if child.subject != CommitSubject(r.releaseId, r.manifestSha) then Fail(WrongSubject)
    else if child.author != BOT_NAME || child.committer != BOT_NAME then Fail(WrongActor)
    else Pass
  }

  /** validate_migration_facts */
  function ValidateFacts(f: Facts): Result<Checked, CommitError> {
    var release := CheckRelease(f.release);
    :- release;
    :- Need(IsSha40(f.prePush) && IsSha40(f.commit) && IsSha40(f.parent), BadFormat);
    :- Need(IsSha40(f.tree) && IsSha40(f.expectedTree), BadFormat);
    :- Need(f.commit != f.release.baseSha, NotDistinct);
    :- Need(f.parent == f.release.baseSha, WrongParent);
    :- Need(f.tree == f.expectedTree, WrongTree);
    :- CheckChild(f.child, f.release);
    match ModeOf(f.mode)
    case None => Err(WrongMode)
    case Some(mode) =>
      :- Need(f.prePush == (if mode == Published then f.release.baseSha else f.commit), WrongPrePush);
      Ok(Checked(f.prePush, f.commit, f.tree, mode))
  }

  /** validate_pre_reconstruction_source_facts */
  function ValidateSource(s: Source): Result<PublishMode, CommitError> {
    var release := CheckRelease(s.release);
    :- release;
    :- Need(IsSha40(s.supplied) && IsSha40(s.head), BadFormat);
    :- Need(s.head == s.supplied, NotSupplied);
    if s.head == s.release.baseSha then
      :- Need(s.parents == [] && s.child == Child([], "", "", ""), BaseWithChildFacts);
      Ok(Published)
    else
      :- Need(forall i | 0 <= i < |s.parents| :: IsSha40(s.parents[i]), BadFormat);
      :- Need(s.parents == [s.release.baseSha], WrongParent);
      :- CheckChild(s.child, s.release);
      Ok(Reused)
  }

  /** The one set of facts that a commit of a release may have. */
  function ExactFacts(r: Release, commit: string, tree: string, mode: PublishMode): Facts {
    Facts(r, if mode == Published then r.baseSha else commit, commit, r.baseSha, tree, tree,
          Child(MIGRATION_PATHS, CommitSubject(r.releaseId, r.manifestSha), BOT_NAME, BOT_NAME), ModeText(mode))
  }

  /** Main result: release, commit, tree and mode leave no freedom in the facts. The full check
      accepts exactly the well-formed exact facts, and returns what they were made from. */
  lemma FactsLanguage(f: Facts, c: Checked)
    ensures ValidateFacts(f) == Ok(c)
       <==> && IsReleaseId(f.release.releaseId) && IsSha64(f.release.manifestSha) && IsSha40(f.release.baseSha)
            && IsSha40(c.commit) && IsSha40(c.tree) && c.commit != f.release.baseSha
            && f == ExactFacts(f.release, c.commit, c.tree, c.mode)
            && c.prePush == f.prePush
  {
  }

  /** The pre-check, in full: a head that is the base and carries nothing, or its one-parent child. */
  lemma SourceLanguage(s: Source, mode: PublishMode)
    ensures ValidateSource(s) == Ok(mode)
       <==> && IsReleaseId(s.release.releaseId) && IsSha64(s.release.manifestSha) && IsSha40(s.release.baseSha)
            && s.supplied == s.head && IsSha40(s.head)
            && match mode
               case Published => s.head == s.release.baseSha && s.parents == [] && s.child == Child([], "", "", "")
               case Reused =>
                 && s.head != s.release.baseSha && s.parents == [s.release.baseSha]
                 && s.child == ExactFacts(s.release, s.head, "", Reused).child
  {
  }

  /** The source that a later run sees when the commit of these facts is the head of main. */
  function SeenLater(f: Facts): Source {
    Source(f.release, f.commit, f.commit, [f.parent], f.child)
  }

  /** Main result: the full check of a reused commit is the pre-check of that commit as the head
      of main, plus equal trees; nothing else separates them. */
  lemma ReuseIsPreCheck(f: Facts)
    requires f.mode == ModeText(Reused)
    ensures ValidateFacts(f).Ok?
       <==> && ValidateSource(SeenLater(f)) == Ok(Reused)
            && f.prePush == f.commit
            && f.tree == f.expectedTree && IsSha40(f.tree)
  {
  }

  /** The same for the publishing run: what it publishes from the base, a later run may reuse. */
  lemma PublishedIsReusable(f: Facts)
    requires f.mode == ModeText(Published)
    ensures ValidateFacts(f).Ok?
       <==> && ValidateSource(SeenLater(f)) == Ok(Reused)
            && f.prePush == f.release.baseSha
            && f.tree == f.expectedTree && IsSha40(f.tree)
  {
  }

  /** Main result: the mode that the pre-check decides on a head is the only mode in which the full
      check can accept any commit with that head before the push; in the reused mode the commit
      is that head itself. */
  lemma ModeIsDecided(s: Source, f: Facts)
    requires ValidateSource(s).Ok? && f.release == s.release && f.prePush == s.head
    ensures ValidateSource(s) == Ok(Published) <==> s.head == s.release.baseSha
    ensures ValidateFacts(f).Ok? ==> f.mode == ModeText(ValidateSource(s).value)
    ensures ValidateFacts(f).Ok? && ValidateSource(s) == Ok(Reused) ==> f.commit == s.head
    ensures ValidateFacts(f).Ok? && ValidateSource(s) == Ok(Published) ==> f.commit != s.head && f.parent == s.head
  {
    if ValidateFacts(f).Ok? {
      var mode := ModeOf(f.mode).value;
      assert f.mode == ModeText(mode);
    }
  }
}
