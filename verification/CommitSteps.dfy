/** Exactly when each step of a run goes on, and what evidence was checked against: the commit
    protocol, said without its own checks. */
module CommitSteps {
  import opened Results
  import opened Formats
  import opened MigrationCommit
  import opened CommitProtocol

  const MIGRATION_PATH := "apps/" + "devpath-migration" + "/base/kustomization.yaml"
  const PLATFORM_PATH := "apps/" + "devpath-platform-svc" + "/base/kustomization.yaml"
  const SANDBOX_PATH := "apps/" + "devpath-sandbox-svc" + "/base/kustomization.yaml"

  /** What a migration commit of a release looks like. */
  function TheChild(r: Release): Child {
    Child([MIGRATION_PATH, PLATFORM_PATH, SANDBOX_PATH],
          "deploy(devpath-migration): " + r.releaseId + " sealed " + r.manifestSha,
          "devpath-gitops-release[bot]", "devpath-gitops-release[bot]")
  }

  lemma PathsAre()
    ensures MIGRATION_PATHS == [MIGRATION_PATH, PLATFORM_PATH, SANDBOX_PATH]
  {
  }

  lemma BotIs()
    ensures BOT_NAME == "devpath-gitops-release[bot]"
  {
  }

  lemma ChildIs(child: Child, r: Release)
    ensures CheckChild(child, r).Pass? <==> child == TheChild(r)
    ensures Child(MIGRATION_PATHS, CommitSubject(r.releaseId, r.manifestSha), BOT_NAME, BOT_NAME) == TheChild(r)
  {
    PathsAre();
    BotIs();
  }

  // ---------------------------------------------------------------- the two checks

  /** The commit is the one that this run may vouch for, in this mode. */
  predicate Vouched(objects: map<string, CommitObject>, c: Config, mode: PublishMode, m: string)
    requires m in objects
  {
    && ValidRelease(c.release) && IsSha40(m) && IsSha40(c.supplied) && IsSha40(c.expectedTree)
    && m != c.release.baseSha && objects[m].parents == [c.release.baseSha]
    && objects[m].tree == c.expectedTree
    && objects[m].child == TheChild(c.release)
    && c.supplied == (if mode == Published then c.release.baseSha else m)
  }

  lemma ModeRead(mode: PublishMode)
    ensures ModeOf(ModeText(mode)) == Some(mode)
  {
    assert |"published"| == 9 && |"reused"| == 6;
  }

  lemma InspectIs(objects: map<string, CommitObject>, c: Config, mode: PublishMode, m: string)
    requires m in objects
    ensures Inspect(objects, c, mode, m).Ok? <==> Vouched(objects, c, mode, m)
  {
    ChildIs(objects[m].child, c.release);
    ModeRead(mode);
  }

  /** The head of main is the sealed base, or its exact child. */
  predicate MayStart(s: State, c: Config)
    requires s.main != [] && Head(s) in s.objects
  {
    && Head(s) == c.supplied && ValidRelease(c.release) && IsSha40(Head(s))
    && (Head(s) != c.release.baseSha ==>
          s.objects[Head(s)].parents == [c.release.baseSha] && s.objects[Head(s)].child == TheChild(c.release))
  }

  lemma StartIs(s: State, c: Config)
    requires s.main != [] && Head(s) in s.objects
    ensures Head(s) == c.supplied && ValidateSource(SourceOf(s, c)).Ok? <==> MayStart(s, c)
  {
    ChildIs(s.objects[Head(s)].child, c.release);
  }

  // ---------------------------------------------------------------- step by step

  /** Where a step takes a run: on, or out. */
  predicate OnOrOut(t: State, r: nat, goes: bool, next: Phase)
    requires r in t.runs
  {
    t.runs[r].phase == if goes then next else Stopped
  }

  /** Main result: exactly when each step of a run goes on; in every other case the run stops. */
  lemma GoesOnExactlyWhen(s: State, r: nat, sha: string, tree: string)
    requires Inv(s) && r in s.runs
    ensures var (c, t) := (s.runs[r].config, Step(s, Advance(r, sha, tree)));
      && r in t.runs && t.runs[r].config == c
      && match s.runs[r].phase
         case Dispatched => Head(s) in s.objects && OnOrOut(t, r, MayStart(s, c), Proved)
         case Proved =>
           if c.supplied != c.release.baseSha then t.runs[r].phase == Settled(Reused, c.supplied)
           else sha !in s.objects ==>
             && t.runs[r].phase == Committed(sha)
             && t.objects == s.objects[sha := CommitObject([c.release.baseSha], tree, TheChild(c.release))]
         case Committed(m) => OnOrOut(t, r, Head(s) == c.supplied, Rechecked(m))
         case Rechecked(m) =>
           OnOrOut(t, r, Head(s) == m || Head(s) == c.release.baseSha, Settled(Published, m))
         case Settled(mode, m) => m in s.objects && OnOrOut(t, r, Vouched(s.objects, c, mode, m), Inspected(mode, m))
         case Inspected(mode, m) => OnOrOut(t, r, Head(s) == m, Confirmed(mode, m))
         case Confirmed(mode, m) => OnOrOut(t, r, Head(s) == m, Authorized(mode, m))
         case Authorized(mode, m) => m in s.objects && OnOrOut(t, r, Vouched(s.objects, c, mode, m), Finished)
         case Finished => t == s
         case Stopped => t == s
  {
    var (c, run) := (s.runs[r].config, s.runs[r]);
    assert RunOk(s, run);
    HeadOnMain(s);
    match run.phase
    case Dispatched => StartIs(s, c);
    case Proved => ChildIs(TheChild(c.release), c.release);
    case Settled(mode, m) => InspectIs(s.objects, c, mode, m);
    case Authorized(mode, m) => InspectIs(s.objects, c, mode, m);
    case _ =>
  }

  /** Which step adds evidence, and what it adds. */
  lemma EmissionIs(s: State, a: Action)
    requires s.main != [] && Step(s, a).evidence != s.evidence
    ensures a.Advance? && a.run in s.runs && s.runs[a.run].phase.Authorized? && s.runs[a.run].phase.commit in s.objects
    ensures var (c, mode, m) := (s.runs[a.run].config, s.runs[a.run].phase.mode, s.runs[a.run].phase.commit);
      && Inspect(s.objects, c, mode, m).Ok?
      && Step(s, a).evidence == s.evidence + [Record(c.release, c.supplied, m, s.objects[m].tree, mode)]
  {
  }

  /** Main result: what evidence was checked against. A step adds evidence only for a run that asked
      for it, one record, with the tree that this run reconstructed and the head that it was given, of
      a commit on main right after the sealed base that is the exact child of its release. */
  lemma EmissionMeans(s: State, a: Action)
    requires Inv(s) && Step(s, a).evidence != s.evidence
    ensures a.Advance? && a.run in s.runs
    ensures |Step(s, a).evidence| == |s.evidence| + 1 && s.evidence <= Step(s, a).evidence
    ensures var (c, e) := (s.runs[a.run].config, Step(s, a).evidence[|s.evidence|]);
      && e.release == c.release && e.tree == c.expectedTree && e.prePush == c.supplied
      && e.commit in s.objects && Vouched(s.objects, c, e.mode, e.commit)
      && exists k | 0 < k < |s.main| :: s.main[k] == e.commit && s.main[k - 1] == c.release.baseSha
  {
    EmissionIs(s, a);
    var run := s.runs[a.run];
    assert RunOk(s, run);
    InspectIs(s.objects, run.config, run.phase.mode, run.phase.commit);
    var k := PlaceOf(s, run.config.release.baseSha, run.phase.commit);
  }

  /** A run whose commit main has left behind stops before it can write evidence. */
  lemma MovedHeadStops(s: State, r: nat, sha: string, tree: string)
    requires s.main != [] && r in s.runs && (s.runs[r].phase.Inspected? || s.runs[r].phase.Confirmed?)
    requires Head(s) != s.runs[r].phase.commit
    ensures var t := Step(s, Advance(r, sha, tree));
      r in t.runs && t.runs[r].phase == Stopped && t.evidence == s.evidence && t.main == s.main
  {
  }
}
