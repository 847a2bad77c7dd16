/** The commit protocol: any number of migration runs over one linear, fast-forward-only main.
    Steps of different runs interleave freely, a run may stop at any step, and other writers may
    push. Runs are not assumed to be serialised. */
module CommitProtocol {
  import opened Results
  import opened Formats
  import opened Evidence
  import opened MigrationCommit

  datatype CommitObject = CommitObject(parents: seq<string>, tree: string, child: Child)

  /** The inputs of a run, with the tree that it reconstructs from the sealed base. */
  datatype Config = Config(release: Release, supplied: string, expectedTree: string)

  datatype Phase =
    | Dispatched                               // before the first look at main
    | Proved                                   // the source is the base or its exact child
    | Committed(commit: string)                // a local child of the base exists
    | Rechecked(commit: string)                // main was still the source
    | Settled(mode: PublishMode, commit: string)     // pushed, or reused
    | Inspected(mode: PublishMode, commit: string)   // verify-migration-commit passed
    | Confirmed(mode: PublishMode, commit: string)   // main was the commit
    | Authorized(mode: PublishMode, commit: string)  // main was still the commit
    | Finished
    | Stopped

  datatype Run = Run(config: Config, phase: Phase)

  datatype Record = Record(release: Release, prePush: string, commit: string, tree: string, mode: PublishMode)

  /** objects holds every commit made anywhere; main is the history of the branch, head last. */
  datatype State = State(
    objects: map<string, CommitObject>, main: seq<string>, runs: map<nat, Run>, evidence: seq<Record>)

  datatype Action =
    | Dispatch(run: nat, config: Config)
    | Advance(run: nat, sha: string, tree: string)   // sha and tree name the commit, when one is made
    | Crash(run: nat)
    | Foreign(sha: string, made: CommitObject)

  function Head(s: State): string
    requires s.main != []
  {
    s.main[|s.main| - 1]
  }

  /** A name stands for one commit for ever. */
  predicate MayName(objects: map<string, CommitObject>, sha: string, made: CommitObject) {
    sha in objects ==> objects[sha] == made
  }

  /** The commit at i has the one before it as only parent. */
  predicate Linked(objects: map<string, CommitObject>, main: seq<string>, i: nat)
    requires 0 < i < |main|
  {
    main[i] in objects && objects[main[i]].parents == [main[i - 1]]
  }

  /** Linear history: one root, and every later commit has its predecessor as only parent. */
  predicate Chain(objects: map<string, CommitObject>, main: seq<string>) {
    && main != []
    && (forall i | 0 <= i < |main| :: main[i] in objects)
    && objects[main[0]].parents == []
    && forall i | 0 < i < |main| :: Linked(objects, main, i)
  }

  predicate Init(s: State) {
    Chain(s.objects, s.main) && s.runs == map[] && s.evidence == []
  }

  // ---------------------------------------------------------------- what a run reads

  /** inspect_pre_reconstruction_source: no child facts are read off the base. */
  function SourceOf(s: State, c: Config): Source
    requires s.main != [] && Head(s) in s.objects
  {
    if Head(s) == c.release.baseSha
    then Source(c.release, c.supplied, Head(s), [], Child([], "", "", ""))
    else Source(c.release, c.supplied, Head(s), s.objects[Head(s)].parents, s.objects[Head(s)].child)
  }

  /** inspect_migration_commit, which wants exactly one parent. */
  function Inspect(objects: map<string, CommitObject>, c: Config, mode: PublishMode, commit: string)
    : Result<Checked, CommitError>
    requires commit in objects
  {
    var o := objects[commit];
    if |o.parents| != 1 then Err(WrongParent)
    else
      ValidateFacts(
        Facts(c.release, c.supplied, commit, o.parents[0], o.tree, c.expectedTree, o.child, ModeText(mode)))
  }

  function NewCommit(c: Config, tree: string): CommitObject {
    CommitObject([c.supplied], tree,
                 Child(MIGRATION_PATHS, CommitSubject(c.release.releaseId, c.release.manifestSha), BOT_NAME, BOT_NAME))
  }

  // ---------------------------------------------------------------- steps

  function Put(s: State, r: nat, phase: Phase): State
    requires r in s.runs
  {
    s.(runs := s.runs[r := s.runs[r].(phase := phase)])
  }

  function PutIf(s: State, r: nat, condition: bool, phase: Phase): State
    requires r in s.runs
  {
    Put(s, r, if condition then phase else Stopped)
  }

  /** git push without force: refused unless main is the parent of the commit or the commit itself. */
  function Push(s: State, r: nat, commit: string): State
    requires r in s.runs && commit in s.objects && s.main != []
  {
    if Head(s) == commit then Put(s, r, Settled(Published, commit))
    else if s.objects[commit].parents == [Head(s)]
    then Put(s.(main := s.main + [commit]), r, Settled(Published, commit))
    else Put(s, r, Stopped)
  }

  function Emit(s: State, r: nat, mode: PublishMode, commit: string): State
    requires r in s.runs && commit in s.objects
  {
    var c := s.runs[r].config;
    if Inspect(s.objects, c, mode, commit).Ok?
    then
      var e := Record(c.release, c.supplied, commit, s.objects[commit].tree, mode);
      Put(s.(evidence := s.evidence + [e]), r, Finished)
    else Put(s, r, Stopped)
  }

  /** The next step of a run. Without the objects it needs, which Inv excludes, nothing happens. */
  function AdvanceRun(s: State, r: nat, sha: string, tree: string): (t: State)
    requires r in s.runs && s.main != []
    ensures t.main != [] && r in t.runs
  {
    var c := s.runs[r].config;
    match s.runs[r].phase
    case Dispatched =>
      if Head(s) !in s.objects then s
      else PutIf(s, r, Head(s) == c.supplied && ValidateSource(SourceOf(s, c)).Ok?, Proved)
    case Proved =>
      if c.supplied != c.release.baseSha then Put(s, r, Settled(Reused, c.supplied))
      else if MayName(s.objects, sha, NewCommit(c, tree))
      then Put(s.(objects := s.objects[sha := NewCommit(c, tree)]), r, Committed(sha))
      else s
    case Committed(m) => PutIf(s, r, Head(s) == c.supplied, Rechecked(m))
    case Rechecked(m) => if m in s.objects then Push(s, r, m) else s
    case Settled(mode, m) =>
      if m in s.objects then PutIf(s, r, Inspect(s.objects, c, mode, m).Ok?, Inspected(mode, m)) else s
    case Inspected(mode, m) => PutIf(s, r, Head(s) == m, Confirmed(mode, m))
    case Confirmed(mode, m) => PutIf(s, r, Head(s) == m, Authorized(mode, m))
    case Authorized(mode, m) => if m in s.objects then Emit(s, r, mode, m) else s
    case Finished => s
    case Stopped => s
  }

  /** One action; an action that cannot happen changes nothing. */
  function Step(s: State, a: Action): (t: State)
    requires s.main != []
    ensures t.main != []
  {
    match a
    case Dispatch(r, config) => if r in s.runs then s else s.(runs := s.runs[r := Run(config, Dispatched)])
    case Advance(r, sha, tree) => if r in s.runs then AdvanceRun(s, r, sha, tree) else s
    case Crash(r) => if r in s.runs then Put(s, r, Stopped) else s
    case Foreign(sha, made) =>
      if made.parents == [Head(s)] && MayName(s.objects, sha, made)
      then s.(objects := s.objects[sha := made], main := s.main + [sha])
      else s
  }

  // ---------------------------------------------------------------- the invariant

  /** The commit is on main, right after the base. */
  predicate OnMain(s: State, base: string, commit: string) {
    commit in s.main && commit in s.objects && s.objects[commit].parents == [base]
  }

  predicate RunOk(s: State, run: Run) {
    var base := run.config.release.baseSha;
    match run.phase
    case Proved =>
      if run.config.supplied == base then base in s.main else OnMain(s, base, run.config.supplied)
    case Committed(m) => m in s.objects && s.objects[m].parents == [base]
    case Rechecked(m) => m in s.objects && s.objects[m].parents == [base]
    case Settled(_, m) => OnMain(s, base, m)
    case Inspected(_, m) => OnMain(s, base, m)
    case Confirmed(_, m) => OnMain(s, base, m)
    case Authorized(_, m) => OnMain(s, base, m)
    case _ => true
  }

  /** Evidence is about a commit on main that passes the full check. */
  predicate RecordOk(s: State, e: Record) {
    && OnMain(s, e.release.baseSha, e.commit)
    && var o := s.objects[e.commit];
       && o.tree == e.tree
       && ValidateFacts(Facts(e.release, e.prePush, e.commit, e.release.baseSha,
                              e.tree, e.tree, o.child, ModeText(e.mode))).Ok?
  }

  predicate Inv(s: State) {
    && Chain(s.objects, s.main)
    && (forall r | r in s.runs :: RunOk(s, s.runs[r]))
    && forall i | 0 <= i < |s.evidence| :: RecordOk(s, s.evidence[i])
  }

  /** What any step keeps: no commit changes, main only grows at its end, evidence stays. */
  predicate Grows(s: State, t: State) {
    && (forall sha | sha in s.objects :: sha in t.objects && t.objects[sha] == s.objects[sha])
    && s.main <= t.main
    && s.evidence <= t.evidence
  }

  lemma RunStays(s: State, t: State, run: Run)
    requires Grows(s, t) && RunOk(s, run)
    ensures RunOk(t, run)
  {
  }

  lemma RecordStays(s: State, t: State, e: Record)
    requires Grows(s, t) && RecordOk(s, e)
    ensures RecordOk(t, e)
  {
  }

  lemma HeadOnMain(s: State)
    requires Chain(s.objects, s.main)
    ensures Head(s) in s.main && Head(s) in s.objects
  {
  }

  lemma ChainStays(objects: map<string, CommitObject>, main: seq<string>, sha: string, made: CommitObject)
    requires Chain(objects, main) && MayName(objects, sha, made)
    ensures Chain(objects[sha := made], main)
  {
    var more := objects[sha := made];
    forall i: nat | 0 < i < |main| ensures Linked(more, main, i) {
      assert Linked(objects, main, i);
    }
  }

  lemma ChainExtends(objects: map<string, CommitObject>, main: seq<string>, sha: string, made: CommitObject)
    requires Chain(objects, main) && made.parents == [main[|main| - 1]] && MayName(objects, sha, made)
    ensures Chain(objects[sha := made], main + [sha])
  {
    var (more, longer) := (objects[sha := made], main + [sha]);
    forall i: nat | 0 < i < |longer| ensures Linked(more, longer, i) {
      assert i < |main| ==> Linked(objects, main, i);
    }
  }

  lemma AdvanceGrows(s: State, r: nat, sha: string, tree: string)
    requires s.main != [] && r in s.runs
    ensures Grows(s, AdvanceRun(s, r, sha, tree))
  {
  }

  /** The history that a push leaves. */
  lemma PushChain(s: State, r: nat, m: string)
    requires Chain(s.objects, s.main) && r in s.runs && m in s.objects
    ensures Chain(Push(s, r, m).objects, Push(s, r, m).main)
  {
    if s.objects[m].parents == [Head(s)] {
      ChainExtends(s.objects, s.main, m, s.objects[m]);
      assert s.objects[m := s.objects[m]] == s.objects;
    }
  }

  lemma AdvanceChain(s: State, r: nat, sha: string, tree: string)
    requires Chain(s.objects, s.main) && r in s.runs
    ensures Chain(AdvanceRun(s, r, sha, tree).objects, AdvanceRun(s, r, sha, tree).main)
  {
    var run := s.runs[r];
    if run.phase.Rechecked? && run.phase.commit in s.objects {
      PushChain(s, r, run.phase.commit);
    } else if run.phase.Proved? && MayName(s.objects, sha, NewCommit(run.config, tree)) {
      ChainStays(s.objects, s.main, sha, NewCommit(run.config, tree));
    }
  }

  lemma AdvanceRunOk(s: State, r: nat, sha: string, tree: string)
    requires Inv(s) && r in s.runs
    ensures r in AdvanceRun(s, r, sha, tree).runs
    ensures RunOk(AdvanceRun(s, r, sha, tree), AdvanceRun(s, r, sha, tree).runs[r])
  {
    assert RunOk(s, s.runs[r]);
    HeadOnMain(s);
  }

  lemma AdvanceRecordOk(s: State, r: nat, sha: string, tree: string)
    requires Inv(s) && r in s.runs
    ensures var t := AdvanceRun(s, r, sha, tree);
      forall i | |s.evidence| <= i < |t.evidence| :: RecordOk(t, t.evidence[i])
  {
    assert RunOk(s, s.runs[r]);
  }

  lemma AdvanceOthers(s: State, r: nat, sha: string, tree: string, other: nat)
    requires s.main != [] && r in s.runs && other != r
    ensures other in AdvanceRun(s, r, sha, tree).runs <==> other in s.runs
    ensures other in s.runs ==> AdvanceRun(s, r, sha, tree).runs[other] == s.runs[other]
  {
  }

  lemma AdvanceKeeps(s: State, r: nat, sha: string, tree: string)
    requires Inv(s) && r in s.runs
    ensures Inv(AdvanceRun(s, r, sha, tree))
  {
    var t := AdvanceRun(s, r, sha, tree);
    AdvanceGrows(s, r, sha, tree);
    AdvanceChain(s, r, sha, tree);
    AdvanceRunOk(s, r, sha, tree);
    AdvanceRecordOk(s, r, sha, tree);
    forall q | q in t.runs ensures RunOk(t, t.runs[q]) {
      if q != r {
        AdvanceOthers(s, r, sha, tree, q);
        RunStays(s, t, s.runs[q]);
      }
    }
    forall i | 0 <= i < |t.evidence| ensures RecordOk(t, t.evidence[i]) {
      if i < |s.evidence| {
        RecordStays(s, t, s.evidence[i]);
      }
    }
  }

  /** Every action keeps the invariant and never rewrites history. */
  lemma StepKeeps(s: State, a: Action)
    requires Inv(s)
    ensures Inv(Step(s, a)) && Grows(s, Step(s, a))
  {
    var t := Step(s, a);
    match a
    case Advance(r, sha, tree) =>
      if r in s.runs {
        AdvanceKeeps(s, r, sha, tree);
        AdvanceGrows(s, r, sha, tree);
      }
    case Foreign(sha, made) =>
      if made.parents == [Head(s)] && MayName(s.objects, sha, made) {
        ChainExtends(s.objects, s.main, sha, made);
        assert Grows(s, t);
        forall r | r in t.runs ensures RunOk(t, t.runs[r]) {
          RunStays(s, t, s.runs[r]);
        }
        forall i | 0 <= i < |t.evidence| ensures RecordOk(t, t.evidence[i]) {
          RecordStays(s, t, s.evidence[i]);
        }
      }
    case Dispatch(r, config) =>
      forall q | q in t.runs ensures RunOk(t, t.runs[q]) {
        assert q in s.runs ==> RunOk(s, s.runs[q]);
      }
    case Crash(r) =>
      forall q | q in t.runs ensures RunOk(t, t.runs[q]) {
        assert q in s.runs && RunOk(s, s.runs[q]);
      }
  }

  // ---------------------------------------------------------------- whole histories

  /** The state after a sequence of actions. */
  function Execute(s: State, actions: seq<Action>): State
    requires Inv(s)
    decreases |actions|
  {
    if actions == [] then s
    else
      StepKeeps(s, actions[0]);
      Execute(Step(s, actions[0]), actions[1..])
  }

  lemma {:induction false} ExecuteKeeps(s: State, actions: seq<Action>)
    requires Inv(s)
    ensures Inv(Execute(s, actions)) && Grows(s, Execute(s, actions))
    decreases |actions|
  {
    if actions != [] {
      StepKeeps(s, actions[0]);
      ExecuteKeeps(Step(s, actions[0]), actions[1..]);
    }
  }

  /** No commit is twice on a linear history. */
  lemma {:induction false} ChainDistinct(objects: map<string, CommitObject>, main: seq<string>, i: nat, j: nat)
    requires Chain(objects, main) && i < j < |main|
    ensures main[i] != main[j]
  {
    assert Linked(objects, main, j);
    assert objects[main[j]].parents[0] == main[j - 1];
    if i > 0 {
      ChainDistinct(objects, main, i - 1, j - 1);
      assert Linked(objects, main, i);
      assert objects[main[i]].parents[0] == main[i - 1];
    }
  }

  /** Where a commit with this parent is on main: directly after it. */
  lemma PlaceOf(s: State, base: string, commit: string) returns (k: nat)
    requires Chain(s.objects, s.main) && OnMain(s, base, commit)
    ensures 0 < k < |s.main| && s.main[k] == commit && s.main[k - 1] == base
  {
    k :| 0 <= k < |s.main| && s.main[k] == commit;
    assert k > 0 && Linked(s.objects, s.main, k);
    assert s.objects[s.main[k]].parents[0] == s.main[k - 1];
  }

  /** A commit has at most one successor on a linear history. */
  lemma SuccessorUnique(s: State, base: string, a: string, b: string)
    requires Chain(s.objects, s.main) && OnMain(s, base, a) && OnMain(s, base, b)
    ensures a == b
  {
    var i := PlaceOf(s, base, a);
    var j := PlaceOf(s, base, b);
    if i < j {
      ChainDistinct(s.objects, s.main, i - 1, j - 1);
    } else if j < i {
      ChainDistinct(s.objects, s.main, j - 1, i - 1);
    }
  }

  /** The subject of a commit names its release: the manifest hash is its last 64 characters. */
  lemma SubjectNamesRelease(a: Release, b: Release)
    requires IsSha64(a.manifestSha) && IsSha64(b.manifestSha)
    requires CommitSubject(a.releaseId, a.manifestSha) == CommitSubject(b.releaseId, b.manifestSha)
    ensures a.releaseId == b.releaseId && a.manifestSha == b.manifestSha
  {
    var s, t := CommitSubject(a.releaseId, a.manifestSha), CommitSubject(b.releaseId, b.manifestSha);
    assert |s| == 35 + |a.releaseId| + 64 && |t| == 35 + |b.releaseId| + 64;
    assert s[27..27 + |a.releaseId|] == a.releaseId && t[27..27 + |b.releaseId|] == b.releaseId;
    assert s[|s| - 64..] == a.manifestSha && t[|t| - 64..] == b.manifestSha;
  }

  lemma RecordsAgree(s: State, d: Record, e: Record)
    requires Chain(s.objects, s.main) && RecordOk(s, d) && RecordOk(s, e) && d.release.baseSha == e.release.baseSha
    ensures d.commit == e.commit && d.tree == e.tree && d.release == e.release
  {
    SuccessorUnique(s, d.release.baseSha, d.commit, e.commit);
    SubjectNamesRelease(d.release, e.release);
  }

  /** Main result, agreement: in every history, all evidence for one sealed base names the same
      commit, the same tree and the same release, whichever runs emitted it and however their
      steps interleaved. */
  lemma Agreement(s: State, actions: seq<Action>, i: nat, j: nat)
    requires Init(s)
    requires i < |Execute(s, actions).evidence| && j < |Execute(s, actions).evidence|
    requires Execute(s, actions).evidence[i].release.baseSha == Execute(s, actions).evidence[j].release.baseSha
    ensures Execute(s, actions).evidence[i].commit == Execute(s, actions).evidence[j].commit
    ensures Execute(s, actions).evidence[i].tree == Execute(s, actions).evidence[j].tree
    ensures Execute(s, actions).evidence[i].release == Execute(s, actions).evidence[j].release
  {
    ExecuteKeeps(s, actions);
    var t := Execute(s, actions);
    RecordsAgree(t, t.evidence[i], t.evidence[j]);
  }

  /** Main result: evidence stays true. After any further actions its commit is still on main,
      directly after its base, with the tree it names. */
  lemma EvidenceIsPermanent(s: State, past: seq<Action>, future: seq<Action>, i: nat)
    requires Init(s) && i < |Execute(s, past).evidence|
    ensures Inv(Execute(s, past))
    ensures var (e, t) := (Execute(s, past).evidence[i], Execute(Execute(s, past), future));
      && i < |t.evidence| && t.evidence[i] == e
      && e.commit in t.objects && t.objects[e.commit].tree == e.tree
      && exists k | 0 < k < |t.main| :: t.main[k] == e.commit && t.main[k - 1] == e.release.baseSha
  {
    ExecuteKeeps(s, past);
    var p := Execute(s, past);
    ExecuteKeeps(p, future);
    var e, t := p.evidence[i], Execute(p, future);
    assert t.evidence[i] == e && RecordOk(t, e);
    var k := PlaceOf(t, e.release.baseSha, e.commit);
  }

  // ---------------------------------------------------------------- who moves main

  predicate Reusing(run: Run) {
    || (run.phase.Proved? && run.config.supplied != run.config.release.baseSha)
    || (run.phase.Settled? && run.phase.mode == Reused)
    || (run.phase.Inspected? && run.phase.mode == Reused)
    || (run.phase.Confirmed? && run.phase.mode == Reused)
    || (run.phase.Authorized? && run.phase.mode == Reused)
  }

  /** Main result: main moves only by one commit at a time. If a run moves it, the run is at its
      push, main was the sealed base of that run, and the commit is the child it made of that base. */
  lemma WhoMovesMain(s: State, a: Action)
    requires Inv(s) && Step(s, a).main != s.main
    ensures |Step(s, a).main| == |s.main| + 1
    ensures !a.Dispatch? && !a.Crash?
    ensures a.Advance? ==>
      && a.run in s.runs && s.runs[a.run].phase.Rechecked?
      && Step(s, a).main == s.main + [s.runs[a.run].phase.commit]
      && Head(s) == s.runs[a.run].config.release.baseSha
  {
    if a.Advance? {
      assert RunOk(s, s.runs[a.run]);
    }
  }

  /** A run that reuses never moves main, and stays a reusing run until it ends. */
  lemma ReuseNeverMoves(s: State, a: Action)
    requires Inv(s) && a.Advance? && a.run in s.runs && Reusing(s.runs[a.run])
    ensures Step(s, a).main == s.main && Step(s, a).objects == s.objects
    ensures var run := Step(s, a).runs[a.run];
      Reusing(run) || run.phase.Finished? || run.phase.Stopped?
  {
  }

  // ---------------------------------------------------------------- the next run

  /** In a reachable state the pre-check reads the position of main relative to the sealed base:
      published exactly at the base, reused only at its successor. */
  lemma PreCheckPosition(s: State, c: Config)
    requires Inv(s) && Head(s) == c.supplied && ValidateSource(SourceOf(s, c)).Ok?
    ensures ValidateSource(SourceOf(s, c)) == Ok(Published) <==> Head(s) == c.release.baseSha
    ensures ValidateSource(SourceOf(s, c)) == Ok(Reused) ==>
      |s.main| > 1 && s.main[|s.main| - 2] == c.release.baseSha
  {
    assert |s.main| > 1 ==> Linked(s.objects, s.main, |s.main| - 1);
  }

  /** Main result: once a base has evidence, a run for the same release whose source is the head
      of main is let in exactly when that head is the evidenced commit; it then reuses it. */
  lemma NextRunReuses(s: State, e: Record, c: Config)
    requires Inv(s) && RecordOk(s, e) && c.release == e.release && c.supplied == Head(s)
    ensures ValidateSource(SourceOf(s, c)).Ok? <==> Head(s) == e.commit
    ensures ValidateSource(SourceOf(s, c)).Ok? ==> ValidateSource(SourceOf(s, c)) == Ok(Reused)
    ensures Head(s) == e.commit ==>
      forall mode :: Inspect(s.objects, c.(expectedTree := e.tree), mode, Head(s)).Ok? <==> mode == Reused
  {
    var base := e.release.baseSha;
    var k := PlaceOf(s, base, e.commit);
    if Head(s) == base {
      ChainDistinct(s.objects, s.main, k - 1, |s.main| - 1);
    }
    HeadOnMain(s);
    if ValidateSource(SourceOf(s, c)).Ok? {
      SuccessorUnique(s, base, Head(s), e.commit);
    }
  }

  // ---------------------------------------------------------------- an undisturbed run

  /** n steps of one run with nothing in between. */
  function Alone(s: State, r: nat, sha: string, tree: string, n: nat): State
    requires s.main != []
    decreases n
  {
    if n == 0 then s
    else Alone(Step(s, Advance(r, sha, tree)), r, sha, tree, n - 1)
  }

  /** Nothing but the phase of the run differs. */
  predicate OnlyPhase(s: State, t: State, r: nat, phase: Phase) {
    && t.objects == s.objects && t.main == s.main && t.evidence == s.evidence
    && r in s.runs && r in t.runs && t.runs[r] == Run(s.runs[r].config, phase)
  }

  /** The next state of a run that steps alone. */
  lemma AloneStep(s: State, r: nat, sha: string, tree: string, n: nat) returns (t: State)
    requires s.main != [] && r in s.runs && n > 0
    ensures t == AdvanceRun(s, r, sha, tree) && t.main != []
    ensures Alone(s, r, sha, tree, n) == Alone(t, r, sha, tree, n - 1)
  {
    t := Step(s, Advance(r, sha, tree));
  }

  /** Steps that a run needs to its evidence, with this commit and mode settled. */
  function StepsLeft(phase: Phase, mode: PublishMode, m: string): nat {
    if phase == Settled(mode, m) then 4
    else if phase == Inspected(mode, m) then 3
    else if phase == Confirmed(mode, m) then 2
    else if phase == Authorized(mode, m) then 1
    else 0
  }

  function NextPhase(phase: Phase): Phase {
    match phase
    case Settled(mode, m) => Inspected(mode, m)
    case Inspected(mode, m) => Confirmed(mode, m)
    case Confirmed(mode, m) => Authorized(mode, m)
    case _ => phase
  }

  /** Between settling and emitting only the phase changes, when main and the commit are as they
      should be. */
  lemma QuietStep(s: State, r: nat, sha: string, tree: string, mode: PublishMode, m: string)
    requires s.main != [] && r in s.runs && Head(s) == m && m in s.objects
    requires Inspect(s.objects, s.runs[r].config, mode, m).Ok? && StepsLeft(s.runs[r].phase, mode, m) > 1
    ensures OnlyPhase(s, AdvanceRun(s, r, sha, tree), r, NextPhase(s.runs[r].phase))
  {
  }

  /** Main is as it was, and there is one record more: of run r, for this commit and mode. */
  predicate Emitted(s: State, t: State, r: nat, mode: PublishMode, m: string)
    requires r in s.runs && m in s.objects
  {
    var c := s.runs[r].config;
    && t.main == s.main
    && t.evidence == s.evidence + [Record(c.release, c.supplied, m, s.objects[m].tree, mode)]
  }

  /** A quiet step, and that what is emitted after it is emitted from before it. */
  lemma QuietAlone(s: State, r: nat, sha: string, tree: string, mode: PublishMode, m: string, n: nat) returns (t: State)
    requires s.main != [] && r in s.runs && Head(s) == m && m in s.objects && n > 0
    requires Inspect(s.objects, s.runs[r].config, mode, m).Ok? && StepsLeft(s.runs[r].phase, mode, m) > 1
    ensures t.main == s.main && t.objects == s.objects
    ensures r in t.runs && t.runs[r] == Run(s.runs[r].config, NextPhase(s.runs[r].phase))
    ensures Emitted(t, Alone(t, r, sha, tree, n - 1), r, mode, m) ==>
      Emitted(s, Alone(s, r, sha, tree, n), r, mode, m)
  {
    QuietStep(s, r, sha, tree, mode, m);
    t := AloneStep(s, r, sha, tree, n);
  }

  /** A run that has ended changes nothing any more. */
  lemma {:induction false} FinishedStays(s: State, r: nat, sha: string, tree: string, n: nat)
    requires s.main != [] && r in s.runs && s.runs[r].phase == Finished
    ensures Alone(s, r, sha, tree, n) == s
    decreases n
  {
    if n > 0 {
      FinishedStays(s, r, sha, tree, n - 1);
    }
  }

  /** The last step of a run that steps alone. */
  lemma EmitAlone(s: State, r: nat, sha: string, tree: string, mode: PublishMode, m: string, n: nat)
    requires s.main != [] && r in s.runs && s.runs[r].phase == Authorized(mode, m) && n > 0
    requires m in s.objects && Inspect(s.objects, s.runs[r].config, mode, m).Ok?
    ensures Emitted(s, Alone(s, r, sha, tree, n), r, mode, m)
  {
    var t := AloneStep(s, r, sha, tree, n);
    FinishedStays(t, r, sha, tree, n - 1);
  }

  /** From a settled commit that is the head and passes inspection, the remaining steps write
      evidence, and no later step writes more. */
  lemma {:induction false} SettledFinishes(
      s: State, r: nat, sha: string, tree: string, mode: PublishMode, m: string, n: nat)
    requires s.main != [] && r in s.runs && n >= StepsLeft(s.runs[r].phase, mode, m) > 0
    requires Head(s) == m && m in s.objects && Inspect(s.objects, s.runs[r].config, mode, m).Ok?
    ensures Emitted(s, Alone(s, r, sha, tree, n), r, mode, m)
    decreases n
  {
    if s.runs[r].phase == Authorized(mode, m) {
      EmitAlone(s, r, sha, tree, mode, m, n);
    } else {
      var t := QuietAlone(s, r, sha, tree, mode, m, n);
      SettledFinishes(t, r, sha, tree, mode, m, n - 1);
    }
  }

  predicate ValidRelease(r: Release) {
    IsReleaseId(r.releaseId) && IsSha64(r.manifestSha) && IsSha40(r.baseSha)
  }

  /** Dispatch on a head that the pre-check accepts. */
  lemma DispatchProved(s: State, r: nat, c: Config, sha: string, tree: string, n: nat) returns (t: State)
    requires s.main != [] && r !in s.runs && n > 0
    requires Head(s) == c.supplied && c.supplied in s.objects && ValidateSource(SourceOf(s, c)).Ok?
    ensures t.main != []
    ensures t.objects == s.objects && t.main == s.main && t.evidence == s.evidence
    ensures r in t.runs && t.runs[r] == Run(c, Proved)
    ensures Alone(Step(s, Dispatch(r, c)), r, sha, tree, n) == Alone(t, r, sha, tree, n - 1)
  {
    var d := Step(s, Dispatch(r, c));
    assert SourceOf(d, c) == SourceOf(s, c);
    t := AloneStep(d, r, sha, tree, n);
  }

  /** Main result: an undisturbed run at the base, whose commit has the reconstructed tree and a new
      name, publishes that commit and writes the evidence for it: in eight steps, and no later step
      adds anything. */
  lemma AloneItPublishes(s: State, r: nat, c: Config, sha: string, n: nat)
    requires Inv(s) && r !in s.runs && n >= 8
    requires ValidRelease(c.release) && Head(s) == c.supplied == c.release.baseSha
    requires IsSha40(sha) && sha !in s.objects && IsSha40(c.expectedTree)
    ensures var t := Alone(Step(s, Dispatch(r, c)), r, sha, c.expectedTree, n);
      && t.main == s.main + [sha]
      && t.evidence == s.evidence + [Record(c.release, c.supplied, sha, c.expectedTree, Published)]
  {
    HeadOnMain(s);
    var tree := c.expectedTree;
    var s1 := DispatchProved(s, r, c, sha, tree, n);
    ProvedFinishes(s1, r, c, sha, tree, n - 1);
  }

  /** The local commit. */
  lemma CommitAlone(s: State, r: nat, c: Config, sha: string, tree: string, n: nat) returns (t: State)
    requires s.main != [] && r in s.runs && s.runs[r] == Run(c, Proved) && n > 0
    requires c.supplied == c.release.baseSha && sha !in s.objects
    ensures t.main != [] && Alone(s, r, sha, tree, n) == Alone(t, r, sha, tree, n - 1)
    ensures t.main == s.main && t.evidence == s.evidence && r in t.runs && t.runs[r] == Run(c, Committed(sha))
    ensures sha in t.objects && t.objects[sha] == NewCommit(c, tree)
  {
    t := AloneStep(s, r, sha, tree, n);
  }

  /** The last look at main before the push. */
  lemma RecheckAlone(s: State, r: nat, c: Config, sha: string, tree: string, n: nat) returns (t: State)
    requires s.main != [] && r in s.runs && s.runs[r] == Run(c, Committed(sha)) && Head(s) == c.supplied && n > 0
    ensures t.main != [] && Alone(s, r, sha, tree, n) == Alone(t, r, sha, tree, n - 1)
    ensures OnlyPhase(s, t, r, Rechecked(sha))
  {
    t := AloneStep(s, r, sha, tree, n);
  }

  /** The push of a child of the head. */
  lemma PushAlone(s: State, r: nat, c: Config, sha: string, tree: string, n: nat) returns (t: State)
    requires s.main != [] && r in s.runs && s.runs[r] == Run(c, Rechecked(sha)) && n > 0
    requires sha in s.objects && s.objects[sha].parents == [Head(s)] && Head(s) != sha
    ensures t.main != [] && Alone(s, r, sha, tree, n) == Alone(t, r, sha, tree, n - 1)
    ensures t.main == s.main + [sha] && t.evidence == s.evidence && t.objects == s.objects
    ensures r in t.runs && t.runs[r] == Run(c, Settled(Published, sha))
  {
    t := AloneStep(s, r, sha, tree, n);
  }

  lemma PublishedInspects(objects: map<string, CommitObject>, c: Config, sha: string, tree: string)
    requires ValidRelease(c.release) && c.supplied == c.release.baseSha && c.expectedTree == tree
    requires IsSha40(sha) && IsSha40(tree) && sha != c.release.baseSha
    requires sha in objects && objects[sha] == NewCommit(c, tree)
    ensures Inspect(objects, c, Published, sha).Ok?
  {
  }

  /** From the recheck on: push, inspection, evidence. */
  lemma RecheckedFinishes(s: State, r: nat, c: Config, sha: string, tree: string, n: nat)
    requires s.main != [] && r in s.runs && s.runs[r] == Run(c, Rechecked(sha)) && n >= 5
    requires sha in s.objects && s.objects[sha].parents == [Head(s)] && Head(s) != sha
    requires Inspect(s.objects, c, Published, sha).Ok?
    ensures var t := Alone(s, r, sha, tree, n);
      && t.main == s.main + [sha]
      && t.evidence == s.evidence + [Record(c.release, c.supplied, sha, s.objects[sha].tree, Published)]
  {
    var t := PushAlone(s, r, c, sha, tree, n);
    SettledFinishes(t, r, sha, tree, Published, sha, n - 1);
  }

  lemma CommittedFinishes(s: State, r: nat, c: Config, sha: string, tree: string, n: nat)
    requires s.main != [] && r in s.runs && s.runs[r] == Run(c, Committed(sha)) && Head(s) == c.supplied && n >= 6
    requires sha in s.objects && s.objects[sha].parents == [Head(s)] && Head(s) != sha
    requires Inspect(s.objects, c, Published, sha).Ok?
    ensures var t := Alone(s, r, sha, tree, n);
      && t.main == s.main + [sha]
      && t.evidence == s.evidence + [Record(c.release, c.supplied, sha, s.objects[sha].tree, Published)]
  {
    var t := RecheckAlone(s, r, c, sha, tree, n);
    RecheckedFinishes(t, r, c, sha, tree, n - 1);
  }

  /** From the accepted source to the evidence. */
  lemma ProvedFinishes(s: State, r: nat, c: Config, sha: string, tree: string, n: nat)
    requires s.main != [] && r in s.runs && s.runs[r] == Run(c, Proved) && n >= 7
    requires Head(s) == c.supplied == c.release.baseSha && Head(s) in s.objects && sha !in s.objects
    requires ValidRelease(c.release) && c.expectedTree == tree && IsSha40(sha) && IsSha40(tree)
    ensures var t := Alone(s, r, sha, tree, n);
      && t.main == s.main + [sha]
      && t.evidence == s.evidence + [Record(c.release, c.supplied, sha, tree, Published)]
  {
    var t := CommitAlone(s, r, c, sha, tree, n);
    PublishedInspects(t.objects, c, sha, tree);
    CommittedFinishes(t, r, c, sha, tree, n - 1);
  }

  /** A run that found its own evidence settles at once. */
  lemma ReuseAlone(s: State, r: nat, c: Config, sha: string, tree: string, n: nat) returns (t: State)
    requires s.main != [] && r in s.runs && s.runs[r] == Run(c, Proved) && c.supplied != c.release.baseSha && n > 0
    ensures t.main != [] && Alone(s, r, sha, tree, n) == Alone(t, r, sha, tree, n - 1)
    ensures OnlyPhase(s, t, r, Settled(Reused, c.supplied))
  {
    t := AloneStep(s, r, sha, tree, n);
  }

  lemma ReusedFinishes(s: State, r: nat, c: Config, sha: string, tree: string, n: nat)
    requires s.main != [] && r in s.runs && s.runs[r] == Run(c, Proved) && c.supplied != c.release.baseSha && n >= 5
    requires Head(s) == c.supplied && c.supplied in s.objects && Inspect(s.objects, c, Reused, c.supplied).Ok?
    ensures var t := Alone(s, r, sha, tree, n);
      && t.main == s.main
      && t.evidence == s.evidence + [Record(c.release, c.supplied, c.supplied, s.objects[c.supplied].tree, Reused)]
  {
    var t := ReuseAlone(s, r, c, sha, tree, n);
    SettledFinishes(t, r, sha, tree, Reused, c.supplied, n - 1);
  }

  lemma EvidencedIsReusable(s: State, e: Record, c: Config)
    requires Inv(s) && RecordOk(s, e) && c == Config(e.release, e.commit, e.tree) && Head(s) == e.commit
    ensures e.commit in s.objects && e.commit != e.release.baseSha && s.objects[e.commit].tree == e.tree
    ensures ValidateSource(SourceOf(s, c)).Ok? && Inspect(s.objects, c, Reused, e.commit).Ok?
  {
    NextRunReuses(s, e, c);
    var k := PlaceOf(s, e.release.baseSha, e.commit);
    ChainDistinct(s.objects, s.main, k - 1, k);
  }

  /** Main result: after evidence, an undisturbed run for the same release at that commit writes
      evidence again, in the reused mode, in six steps, and leaves main where it was. */
  lemma AloneItReuses(s: State, r: nat, c: Config, e: Record, sha: string, tree: string, n: nat)
    requires Inv(s) && r !in s.runs && RecordOk(s, e) && n >= 6
    requires c == Config(e.release, e.commit, e.tree) && Head(s) == e.commit
    ensures var t := Alone(Step(s, Dispatch(r, c)), r, sha, tree, n);
      && t.main == s.main
      && t.evidence == s.evidence + [Record(c.release, e.commit, e.commit, e.tree, Reused)]
  {
    EvidencedIsReusable(s, e, c);
    var s1 := DispatchProved(s, r, c, sha, tree, n);
    ReusedFinishes(s1, r, c, sha, tree, n - 1);
  }
}
