/** Rewriting a kustomization in place: temporary file, fsync, rename, at every point of which the
    process may die, the system may lose power, or a system call may fail. */
module AtomicRewrite {
  import opened Results
  import opened Text
  import opened Formats
  import Kustomization
  import Rewriter
  import ReleaseChain
  import WriterFence

  /** A file; durable when its content has reached the disk. */
  datatype File = File(content: string, durable: bool)

  /** replaced is the file that the target's name still stands for on disk, until the rename
      reaches it. */
  datatype Disk = Disk(target: File, replaced: Option<File>, temporary: Option<File>)

  datatype Phase =
    | Called
    | Loaded(raw: string)
    | Rendered(result: string)
    | Unoccupied(result: string)          // the temporary name was free
    | Writing(result: string, done: nat)  // so many characters are in the temporary
    | Written(result: string)
    | Synced(result: string)
    | Renamed(result: string)
    | Returned
    | Raised
    | Dead

  datatype State = State(disk: Disk, phase: Phase)

  /** Go is the next step, with the number of characters a write takes; Fault is a system call that
      fails, after which the clean-up may fail too; PowerLoss keeps or loses the rename, leaves
      garbage in files that were not synced, and any temporary at all. */
  datatype Action =
    | Go(amount: nat)
    | Fault(cleaned: bool)
    | Kill
    | PowerLoss(renameLost: bool, garbage: string, temporary: Option<File>)

  /** What is rewritten: the printer, None when it raises, and the check of the result. */
  datatype Job = Job(render: string -> Option<string>, accepts: string -> bool)

  /** The printer validates what it prints. */
  ghost predicate Sound(j: Job) {
    forall text :: j.render(text).Some? ==> j.accepts(j.render(text).value)
  }

  function GoOn(j: Job, s: State, amount: nat): State {
    match s.phase
    case Called => s.(phase := Loaded(s.disk.target.content))
    case Loaded(raw) =>
      (match j.render(raw)
       case None => s.(phase := Raised)
       case Some(result) => s.(phase := Rendered(result)))
    case Rendered(result) => s.(phase := if s.disk.temporary.Some? then Raised else Unoccupied(result))
    case Unoccupied(result) => State(s.disk.(temporary := Some(File("", false))), Writing(result, 0))
    case Writing(result, done) =>
      if done < |result| then
        var more := if done + amount < |result| then done + amount else |result|;
        State(s.disk.(temporary := Some(File(result[..more], false))), Writing(result, more))
      else s.(phase := Written(result))
    case Written(result) =>
      (match s.disk.temporary
       case Some(f) => State(s.disk.(temporary := Some(f.(durable := true))), Synced(result))
       case None => s)
    case Synced(result) =>
      (match s.disk.temporary
       case Some(f) => State(Disk(f, Some(s.disk.target), None), Renamed(result))
       case None => s)
    case Renamed(result) => s.(phase := if j.accepts(s.disk.target.content) then Returned else Raised)
    case _ => s
  }

  /** The system calls from creating the temporary to renaming it. */
  predicate InBlock(p: Phase) {
    p.Unoccupied? || p.Writing? || p.Written? || p.Synced?
  }

  function Step(j: Job, s: State, a: Action): State {
    match a
    case Go(amount) => GoOn(j, s, amount)
    case Fault(cleaned) =>
      if InBlock(s.phase) then
        State(if cleaned then s.disk.(temporary := None) else s.disk, Raised)
      else if s.phase.Called? || s.phase.Rendered? || s.phase.Renamed? then s.(phase := Raised)
      else s
    case Kill => s.(phase := Dead)
    case PowerLoss(renameLost, garbage, temporary) =>
      var f := if renameLost && s.disk.replaced.Some? then s.disk.replaced.value else s.disk.target;
      State(Disk(File(if f.durable then f.content else garbage, true), None, temporary), Dead)
  }

  function Execute(j: Job, s: State, actions: seq<Action>): State
    decreases |actions|
  {
    if actions == [] then s else Execute(j, Step(j, s, actions[0]), actions[1..])
  }

  function Start(content: string, temporary: Option<File>): State {
    State(Disk(File(content, true), None, temporary), Called)
  }

  // ---------------------------------------------------------------- the invariant

  /** The disk before the rename of a call that started on d0. */
  predicate Untouched(d: Disk, d0: Disk) {
    d.target == d0.target && d.replaced == d0.replaced
  }

  /** The disk after the rename. */
  predicate Done(j: Job, d0: Disk, d: Disk) {
    && d0.temporary == None && d.temporary == None
    && d.target.durable && j.render(d0.target.content) == Some(d.target.content)
    && d.replaced == Some(d0.target)
  }

  /** What a dead call may leave: one of the whole texts that there were. */
  predicate Whole(j: Job, d0: Disk, d: Disk) {
    && d.target.durable
    && (|| d.target == d0.target
        || Some(d.target) == d0.replaced
        || (d0.temporary == None && j.render(d0.target.content) == Some(d.target.content)))
    && (|| d.replaced == None
        || d.replaced == d0.replaced
        || (d0.temporary == None && d.replaced == Some(d0.target)))
  }

  /** Both files that the target's name may stand for are whole and on disk. */
  predicate Settled(d: Disk) {
    d.target.durable && (d.replaced.Some? ==> d.replaced.value.durable)
  }

  predicate InFlight(j: Job, d0: Disk, d: Disk, result: string, temporary: Option<File>) {
    && Untouched(d, d0) && d0.temporary == None
    && j.render(d0.target.content) == Some(result) && d.temporary == temporary
  }

  predicate Inv(j: Job, d0: Disk, s: State) {
    match s.phase
    case Called => s.disk == d0
    case Loaded(raw) => s.disk == d0 && raw == d0.target.content
    case Rendered(result) => s.disk == d0 && j.render(d0.target.content) == Some(result)
    case Unoccupied(result) => InFlight(j, d0, s.disk, result, None)
    case Writing(result, done) =>
      done <= |result| && InFlight(j, d0, s.disk, result, Some(File(result[..done], false)))
    case Written(result) => InFlight(j, d0, s.disk, result, Some(File(result, false)))
    case Synced(result) => InFlight(j, d0, s.disk, result, Some(File(result, true)))
    case Renamed(result) => Done(j, d0, s.disk)
    case Returned => Done(j, d0, s.disk)
    case Raised =>
      || (Untouched(s.disk, d0) && (d0.temporary.Some? ==> s.disk == d0))
      || Done(j, d0, s.disk)
    case Dead => Whole(j, d0, s.disk)
  }

  lemma StepKeeps(j: Job, d0: Disk, s: State, a: Action)
    requires Settled(d0) && Inv(j, d0, s)
    ensures Inv(j, d0, Step(j, s, a))
  {
    if s.phase.Writing? {
      assert s.phase.done == |s.phase.result| ==> s.phase.result[..s.phase.done] == s.phase.result;
    }
  }

  lemma {:induction false} ExecuteKeeps(j: Job, d0: Disk, s: State, actions: seq<Action>)
    requires Settled(d0) && Inv(j, d0, s)
    ensures Inv(j, d0, Execute(j, s, actions))
    decreases |actions|
  {
    if actions != [] {
      StepKeeps(j, d0, s, actions[0]);
      ExecuteKeeps(j, d0, Step(j, s, actions[0]), actions[1..]);
    }
  }

  // ---------------------------------------------------------------- main results

  /** Main result, atomicity: whatever happens and whenever it stops, the target holds the whole old
      text or the whole rendered text, and so does what a power loss would leave of it. */
  lemma TargetIsWhole(j: Job, content: string, temporary: Option<File>, actions: seq<Action>)
    ensures var d := Execute(j, Start(content, temporary), actions).disk;
      && (d.target.content == content || j.render(content) == Some(d.target.content))
      && d.target.durable
      && (d.replaced.Some? ==> d.replaced.value == File(content, true))
  {
    var s := Start(content, temporary);
    ExecuteKeeps(j, s.disk, s, actions);
  }

  /** Main result: a call that returns has put the rendered text in place and left no temporary. */
  lemma ReturnMeansRendered(j: Job, content: string, temporary: Option<File>, actions: seq<Action>)
    requires Execute(j, Start(content, temporary), actions).phase.Returned?
    ensures var d := Execute(j, Start(content, temporary), actions).disk;
      j.render(content) == Some(d.target.content) && d.temporary == None && temporary == None
  {
    var s := Start(content, temporary);
    ExecuteKeeps(j, s.disk, s, actions);
  }

  /** Main result: with a temporary left over, no call ever returns or touches the target, and
      unless the call dies the left-over stays for the next call to trip over. */
  lemma LeftoverBlocks(j: Job, content: string, leftover: File, actions: seq<Action>)
    ensures var s := Execute(j, Start(content, Some(leftover)), actions);
      && !s.phase.Returned? && s.disk.target.content == content
      && (!s.phase.Dead? ==> s.disk.temporary == Some(leftover))
  {
    var s := Start(content, Some(leftover));
    ExecuteKeeps(j, s.disk, s, actions);
  }

  /** After the rename the closing check cannot fail: the printer has validated the same text. */
  lemma ClosingCheckPasses(j: Job, content: string, temporary: Option<File>, actions: seq<Action>, amount: nat)
    requires Sound(j) && Execute(j, Start(content, temporary), actions).phase.Renamed?
    ensures GoOn(j, Execute(j, Start(content, temporary), actions), amount).phase.Returned?
  {
    var s := Start(content, temporary);
    ExecuteKeeps(j, s.disk, s, actions);
    var d := Execute(j, s, actions).disk;
    assert j.render(content) == Some(d.target.content);
  }

  /** How many characters a file that may be missing has. */
  function Size(f: Option<File>): nat {
    if f.Some? then |f.value.content| else 0
  }

  /** Main result: no step does two things at once. A step that creates or writes the temporary adds no
      more than it may and leaves it off the disk; only fsync, after the last write, brings it there;
      only the rename, of a temporary that is there, changes the target. */
  lemma OneThingAtATime(j: Job, d0: Disk, s: State, amount: nat)
    requires Inv(j, d0, s)
    ensures var (before, after) := (s.disk, GoOn(j, s, amount).disk);
      && (after.target != before.target ==>
            s.phase.Synced? && before.temporary == Some(after.target) && after.target.durable)
      && (after.temporary.Some? && after.temporary != before.temporary ==>
            if after.temporary.value.durable
            then s.phase.Written? && before.temporary == Some(after.temporary.value.(durable := false))
            else Size(after.temporary) <= Size(before.temporary) + amount)
  {
  }

  // ---------------------------------------------------------------- a call that is left alone

  /** Steps of the call itself, each write taking at least one character. */
  predicate OnlyGo(actions: seq<Action>) {
    forall i | 0 <= i < |actions| :: actions[i].Go? && actions[i].amount > 0
  }

  /** How many such steps are enough from here. */
  function Left(result: string, p: Phase): int {
    match p
    case Called => |result| + 8
    case Loaded(_) => |result| + 7
    case Rendered(_) => |result| + 6
    case Unoccupied(_) => |result| + 5
    case Writing(_, done) => |result| - done + 4
    case Written(_) => 3
    case Synced(_) => 2
    case Renamed(_) => 1
    case _ => 0
  }

  /** Under way with this text, and not failed. */
  predicate OnItsWay(j: Job, d0: Disk, s: State, result: string) {
    Inv(j, d0, s) && !s.phase.Raised? && !s.phase.Dead? && j.render(d0.target.content) == Some(result)
  }

  lemma GoAhead(j: Job, d0: Disk, s: State, result: string, amount: nat)
    requires Sound(j) && Settled(d0) && d0.temporary == None && amount > 0 && OnItsWay(j, d0, s, result)
    ensures OnItsWay(j, d0, GoOn(j, s, amount), result)
    ensures Left(result, GoOn(j, s, amount).phase) <= (if s.phase.Returned? then 0 else Left(result, s.phase) - 1)
  {
    StepKeeps(j, d0, s, Go(amount));
  }

  lemma {:induction false} GetsThere(j: Job, d0: Disk, s: State, result: string, actions: seq<Action>)
    requires Sound(j) && Settled(d0) && d0.temporary == None && OnItsWay(j, d0, s, result)
    requires OnlyGo(actions) && |actions| >= Left(result, s.phase)
    ensures Execute(j, s, actions).phase.Returned? && OnItsWay(j, d0, Execute(j, s, actions), result)
    decreases |actions|
  {
    if actions != [] {
      GoAhead(j, d0, s, result, actions[0].amount);
      assert forall i | 0 <= i < |actions| - 1 :: actions[1..][i] == actions[i + 1];
      GetsThere(j, d0, GoOn(j, s, actions[0].amount), result, actions[1..]);
    }
  }

  /** Main result: a call that is left alone returns, with the rendered text in place, on disk, and the
      old text replaced. */
  lemma AloneReturns(j: Job, content: string, result: string, actions: seq<Action>)
    requires Sound(j) && j.render(content) == Some(result)
    requires OnlyGo(actions) && |actions| >= |result| + 8
    ensures Execute(j, Start(content, None), actions)
         == State(Disk(File(result, true), Some(File(content, true)), None), Returned)
  {
    var s := Start(content, None);
    GetsThere(j, s.disk, s, result, actions);
  }

  /** It raises, and touches nothing, when the printer raises. */
  lemma AloneRaises(j: Job, content: string, temporary: Option<File>, actions: seq<Action>)
    requires j.render(content) == None && OnlyGo(actions) && |actions| >= 2
    ensures Execute(j, Start(content, temporary), actions) == Start(content, temporary).(phase := Raised)
  {
    var s := Start(content, temporary);
    assert actions[1..][0] == actions[1] && actions[1..][1..] == actions[2..];
    assert forall i | 0 <= i < |actions| - 2 :: actions[2..][i] == actions[i + 2];
    StaysRaised(j, s.(phase := Raised), actions[2..]);
  }

  lemma {:induction false} StaysRaised(j: Job, s: State, actions: seq<Action>)
    requires s.phase == Raised && OnlyGo(actions)
    ensures Execute(j, s, actions) == s
    decreases |actions|
  {
    if actions != [] {
      assert forall i | 0 <= i < |actions| - 1 :: actions[1..][i] == actions[i + 1];
      StaysRaised(j, s, actions[1..]);
    }
  }

  /** What the proofs are up against: a power loss may undo a rename, and leaves anything at all of a
      file that was not synced. */
  lemma PowerLossMay(j: Job, s: State, garbage: string, temporary: Option<File>)
    ensures var lost := Step(j, s, PowerLoss(true, garbage, temporary));
      var kept := Step(j, s, PowerLoss(false, garbage, temporary));
      && lost.phase == kept.phase == Dead && lost.disk.temporary == kept.disk.temporary == temporary
      && (s.disk.target.durable ==> kept.disk.target == s.disk.target)
      && (!s.disk.target.durable ==> kept.disk.target == File(garbage, true))
      && (s.disk.replaced.Some? && s.disk.replaced.value.durable ==> lost.disk.target == s.disk.replaced.value)
      && (s.disk.replaced == None ==> lost.disk == kept.disk)
  {
  }

  // ---------------------------------------------------------------- repeated calls

  /** The printer refuses its own output. */
  ghost predicate OneShot(j: Job) {
    forall text :: j.render(text).Some? ==> j.render(j.render(text).value) == None
  }

  /** Call after call on the disk that the one before left. */
  function Calls(j: Job, d: Disk, histories: seq<seq<Action>>): Disk
    decreases |histories|
  {
    if histories == [] then d
    else Calls(j, Execute(j, State(d, Called), histories[0]).disk, histories[1..])
  }

  predicate OldOrNew(j: Job, old0: string, f: File) {
    f.durable && (f.content == old0 || j.render(old0) == Some(f.content))
  }

  predicate AtMostOnce(j: Job, old0: string, d: Disk) {
    OldOrNew(j, old0, d.target) && (d.replaced.Some? ==> OldOrNew(j, old0, d.replaced.value))
  }

  lemma OneCall(j: Job, old0: string, d: Disk, actions: seq<Action>)
    requires OneShot(j) && AtMostOnce(j, old0, d)
    ensures AtMostOnce(j, old0, Execute(j, State(d, Called), actions).disk)
  {
    ExecuteKeeps(j, d, State(d, Called), actions);
    assert d.target.content == old0 || j.render(d.target.content) == None;
  }

  /** Main result: however often the same call is repeated, each time cut short anywhere, the text
      is rewritten at most once. */
  lemma {:induction false} RewrittenAtMostOnce(j: Job, old0: string, d: Disk, histories: seq<seq<Action>>)
    requires OneShot(j) && AtMostOnce(j, old0, d)
    ensures AtMostOnce(j, old0, Calls(j, d, histories))
    decreases |histories|
  {
    if histories != [] {
      OneCall(j, old0, d, histories[0]);
      RewrittenAtMostOnce(j, old0, Execute(j, State(d, Called), histories[0]).disk, histories[1..]);
    }
  }

  // ---------------------------------------------------------------- the two writers

  function MigrationRender(text: string, digest: string, sha: string): Option<string> {
    match Kustomization.Render(text, digest, sha)
    case Ok(result) => Some(result)
    case Err(_) => None
  }

  /** write_migration_kustomization */
  function MigrationJob(digest: string, sha: string): Job {
    Job(text => MigrationRender(text, digest, sha),
        text => Kustomization.ValidateKustomization(text, digest, sha).Pass?)
  }

  function FenceRender(text: string, service: string): Option<string> {
    match WriterFence.RenderFence(text, service)
    case Ok(result) => Some(result)
    case Err(_) => None
  }

  /** write_writer_fence_kustomization */
  function FenceJob(service: string): Job {
    Job(text => FenceRender(text, service),
        text => WriterFence.ValidateFence(text, service).Pass?)
  }

  /** The migration writer validates what it prints and refuses its own output. */
  lemma MigrationJobFits(digest: string, sha: string)
    ensures Sound(MigrationJob(digest, sha)) && OneShot(MigrationJob(digest, sha))
  {
    var j := MigrationJob(digest, sha);
    forall text | j.render(text).Some?
      ensures j.accepts(j.render(text).value) && j.render(j.render(text).value) == None
    {
      var r := ReleaseChain.Release(digest, sha);
      ReleaseChain.RenderAgain(text, r, r);
    }
  }

  /** So does the writer of the fence. */
  lemma FenceJobFits(service: string)
    ensures Sound(FenceJob(service)) && OneShot(FenceJob(service))
  {
    var j := FenceJob(service);
    forall text | j.render(text).Some?
      ensures j.accepts(j.render(text).value) && j.render(j.render(text).value) == None
    {
      WriterFence.FenceInverse(text, service, WriterFence.RenderFence(text, service).value);
    }
  }

  /** Main result: left alone, the call leaves just what the renderer returns for the text. */
  lemma MigrationIsWritten(digest: string, sha: string, content: string, result: string, actions: seq<Action>)
    requires Kustomization.Render(content, digest, sha) == Ok(result)
    requires OnlyGo(actions) && |actions| >= |result| + 8
    ensures Execute(MigrationJob(digest, sha), Start(content, None), actions)
         == State(Disk(File(result, true), Some(File(content, true)), None), Returned)
  {
    MigrationJobFits(digest, sha);
    AloneReturns(MigrationJob(digest, sha), content, result, actions);
  }

  lemma FenceIsWritten(service: string, content: string, result: string, actions: seq<Action>)
    requires WriterFence.RenderFence(content, service) == Ok(result)
    requires OnlyGo(actions) && |actions| >= |result| + 8
    ensures Execute(FenceJob(service), Start(content, None), actions)
         == State(Disk(File(result, true), Some(File(content, true)), None), Returned)
  {
    FenceJobFits(service);
    AloneReturns(FenceJob(service), content, result, actions);
  }
}
