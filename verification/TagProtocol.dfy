/** One source-SHA tag of the registry under any sequence of publisher runs. Runs follow one
    another, each may stop at any step, and reads and writes of the tag are linearizable. */
module TagProtocol {
  import opened Results
  import opened Formats
  import opened RemoteImage
  import opened ImagePublisher

  /** An image in the registry; valid when validate_remote_image accepts it for this SHA. */
  datatype Stored = Stored(image: Image, valid: bool)

  datatype Phase =
    | Idle
    | Built(candidate: string)
    | Preflighted(candidate: string, needed: string, digest: string)
    | Rechecked(candidate: string, decision: Decision)
    | Settled(candidate: string, decision: Decision)   // pushed, or nothing to push

  datatype Evidence = Evidence(candidate: string, digest: string, mode: PublishMode)

  /** pushes is the log of all images that runs have pushed under the tag. */
  datatype State = State(tag: Option<Stored>, phase: Phase, pushes: seq<Image>, evidence: seq<Evidence>)

  datatype Action =
    | Begin(candidate: string)
    | Read(fails: bool)                      // preflight, then recheck
    | Push(digest: string, valid: bool)      // docker push, or the skipped step
    | Finish(attempts: seq<Attempt>, retries: int)
    | Crash
    | Foreign(stored: Stored)

  /** inspect with allow_absent; the error of an image that does not validate is None. */
  function Look(tag: Option<Stored>, fails: bool): Option<Option<Image>> {
    if fails then None
    else match tag
      case None => Some(None)
      case Some(stored) => if stored.valid then Some(Some(stored.image)) else None
  }

  function ReadTag(s: State, fails: bool): State {
    match s.phase
    case Built(candidate) =>
      (match Look(s.tag, fails)
       case None => s.(phase := Idle)
       case Some(None) => s.(phase := Preflighted(candidate, FlagText(true), ""))
       case Some(Some(image)) =>
         if Require(image, candidate).Pass?
         then s.(phase := Preflighted(candidate, FlagText(false), image.digest))
         else s.(phase := Idle))
    case Preflighted(candidate, needed, digest) =>
      (match Look(s.tag, fails)
       case None => s.(phase := Idle)
       case Some(current) =>
         match ResolveRecheck(needed, digest, current, candidate)
         case Err(_) => s.(phase := Idle)
         case Ok(decision) => s.(phase := Rechecked(candidate, decision)))
    case _ => s
  }

  function PushTag(s: State, digest: string, valid: bool): State {
    match s.phase
    case Rechecked(candidate, decision) =>
      if !decision.push then s.(phase := Settled(candidate, decision))
      else
        var image := Image(digest, candidate);
        s.(tag := Some(Stored(image, valid)), pushes := s.pushes + [image], phase := Settled(candidate, decision))
    case _ => s
  }

  /** Reads that a linearizable registry can give while the tag does not change. */
  predicate Possible(tag: Option<Stored>, attempts: seq<Attempt>) {
    forall i | 0 <= i < |attempts| && attempts[i].Saw? ::
      tag.Some? && tag.value.valid && tag.value.image == attempts[i].image
  }

  function FinishRun(s: State, attempts: seq<Attempt>, retries: int): State {
    match s.phase
    case Settled(candidate, decision) =>
      if |attempts| < retries || !Possible(s.tag, attempts) then s
      else
        (match Postflight(attempts, candidate, FlagText(decision.push), decision.digest, retries)
         case Err(_) => s.(phase := Idle)
         case Ok(passed) =>
           s.(phase := Idle, evidence := s.evidence + [Evidence(candidate, passed.image.digest, passed.mode)]))
    case _ => s
  }

  /** The recheck has found the tag absent and the push has not happened. */
  predicate InWindow(s: State) {
    s.phase.Rechecked? && s.phase.decision.push
  }

  /** Another writer may only create the tag; inWindow tells whether even in the window. */
  function Step(s: State, a: Action, inWindow: bool): State {
    match a
    case Begin(candidate) => if s.phase.Idle? && IsDigest(candidate) then s.(phase := Built(candidate)) else s
    case Read(fails) => ReadTag(s, fails)
    case Push(digest, valid) => PushTag(s, digest, valid)
    case Finish(attempts, retries) => FinishRun(s, attempts, retries)
    case Crash => s.(phase := Idle)
    case Foreign(stored) =>
      if s.tag == None && (inWindow || !InWindow(s)) then s.(tag := Some(stored)) else s
  }

  function Execute(s: State, actions: seq<Action>, inWindow: bool): State
    decreases |actions|
  {
    if actions == [] then s else Execute(Step(s, actions[0], inWindow), actions[1..], inWindow)
  }

  predicate Init(s: State) {
    s.phase == Idle && s.pushes == [] && s.evidence == []
  }

  function CountPublished(evidence: seq<Evidence>): nat
    decreases |evidence|
  {
    if evidence == [] then 0
    else CountPublished(evidence[..|evidence| - 1]) + (if evidence[|evidence| - 1].mode == Published then 1 else 0)
  }

  // ---------------------------------------------------------------- the invariant

  predicate TagIs(s: State, digest: string, candidate: string) {
    s.tag.Some? && s.tag.value.image == Image(digest, candidate)
  }

  predicate PhaseOk(s: State) {
    match s.phase
    case Preflighted(candidate, needed, digest) =>
      needed == FlagText(true) || (needed == FlagText(false) && TagIs(s, digest, candidate))
    case Rechecked(candidate, decision) =>
      if decision.push then s.tag == None && decision.digest == "" else TagIs(s, decision.digest, candidate)
    case Settled(candidate, decision) =>
      if decision.push then
        && s.tag.Some? && s.tag.value.image.configDigest == candidate
        && |s.pushes| == 1 && CountPublished(s.evidence) == 0
      else TagIs(s, decision.digest, candidate)
    case _ => true
  }

  predicate Inv(s: State) {
    && |s.pushes| <= 1
    && (s.pushes != [] ==> s.tag.Some? && s.tag.value.image == s.pushes[0])
    && CountPublished(s.evidence) <= |s.pushes|
    && (forall i | 0 <= i < |s.evidence| :: TagIs(s, s.evidence[i].digest, s.evidence[i].candidate))
    && PhaseOk(s)
  }

  /** Evidence is added only for a record that the settled run may write. */
  lemma RecordKeeps(s: State, candidate: string, decision: Decision, e: Evidence)
    requires Inv(s) && s.phase == Settled(candidate, decision)
    requires TagIs(s, e.digest, e.candidate) && (e.mode == Published ==> decision.push)
    ensures Inv(s.(phase := Idle, evidence := s.evidence + [e]))
  {
    assert (s.evidence + [e])[..|s.evidence|] == s.evidence;
  }

  lemma FinishKeeps(s: State, attempts: seq<Attempt>, retries: int)
    requires Inv(s)
    ensures Inv(FinishRun(s, attempts, retries))
  {
    if s.phase.Settled? && |attempts| >= retries && Possible(s.tag, attempts) {
      var (candidate, decision) := (s.phase.candidate, s.phase.decision);
      var answer := Postflight(attempts, candidate, FlagText(decision.push), decision.digest, retries);
      if answer.Ok? {
        var passed := answer.value;
        FirstDecisiveIs(attempts[..retries], candidate, decision.digest, passed.image);
        RecordKeeps(s, candidate, decision, Evidence(candidate, passed.image.digest, passed.mode));
      }
    }
  }

  lemma ReadKeeps(s: State, fails: bool)
    requires Inv(s)
    ensures Inv(ReadTag(s, fails)) && ReadTag(s, fails).tag == s.tag
  {
    if s.phase.Preflighted? && Look(s.tag, fails).Some? {
      var (p, current) := (s.phase, Look(s.tag, fails).value);
      var answer := ResolveRecheck(p.needed, p.digest, current, p.candidate);
      if answer.Ok? {
        RecheckDecides(p.needed, p.digest, current, p.candidate, answer.value.digest);
      }
    }
  }

  lemma PushKeeps(s: State, digest: string, valid: bool)
    requires Inv(s)
    ensures Inv(PushTag(s, digest, valid))
    ensures s.tag.Some? ==> PushTag(s, digest, valid).tag == s.tag
  {
  }

  /** Every action keeps the invariant; a present tag stays as it is. */
  lemma StepKeeps(s: State, a: Action)
    requires Inv(s)
    ensures Inv(Step(s, a, false))
    ensures s.tag.Some? ==> Step(s, a, false).tag == s.tag
  {
    match a
    case Read(fails) => ReadKeeps(s, fails);
    case Push(digest, valid) => PushKeeps(s, digest, valid);
    case Finish(attempts, retries) => FinishKeeps(s, attempts, retries);
    case _ =>
  }

  lemma {:induction false} ExecuteKeeps(s: State, actions: seq<Action>)
    requires Inv(s)
    ensures Inv(Execute(s, actions, false))
    ensures s.tag.Some? ==> Execute(s, actions, false).tag == s.tag
    decreases |actions|
  {
    if actions != [] {
      StepKeeps(s, actions[0]);
      ExecuteKeeps(Step(s, actions[0], false), actions[1..]);
    }
  }

  // ---------------------------------------------------------------- main results

  /** Main result, write once: over any history of runs the tag is pushed at most once, and once it
      is present it never changes again. */
  lemma WriteOnce(s: State, past: seq<Action>, future: seq<Action>)
    requires Init(s)
    ensures |Execute(Execute(s, past, false), future, false).pushes| <= 1
    ensures Execute(s, past, false).tag.Some? ==>
      Execute(Execute(s, past, false), future, false).tag == Execute(s, past, false).tag
    ensures s.tag.Some? ==> Execute(s, past, false).pushes == []
  {
    ExecuteKeeps(s, past);
    ExecuteKeeps(Execute(s, past, false), future);
    if s.tag.Some? {
      NoPushWhenPresent(s, past);
    }
  }

  lemma {:induction false} NoPushWhenPresent(s: State, actions: seq<Action>)
    requires Inv(s) && s.tag.Some?
    ensures Execute(s, actions, false).pushes == s.pushes
    decreases |actions|
  {
    if actions != [] {
      StepKeeps(s, actions[0]);
      NoPushWhenPresent(Step(s, actions[0], false), actions[1..]);
    }
  }

  /** Main result: all evidence for one SHA names the digest that the tag holds, for the candidate
      config that the tag holds, and at most one of it says published. */
  lemma EvidenceAgrees(s: State, actions: seq<Action>)
    requires Init(s)
    ensures var t := Execute(s, actions, false);
      && CountPublished(t.evidence) <= 1
      && forall i | 0 <= i < |t.evidence| ::
           && t.tag.Some?
           && t.tag.value.image == Image(t.evidence[i].digest, t.evidence[i].candidate)
  {
    ExecuteKeeps(s, actions);
  }

  /** Main result: the window matters. One foreign creation between recheck and push, and the push
      replaces an image that was already there. */
  lemma WindowMatters(candidate: string, digest: string, other: Stored)
    requires IsDigest(candidate) && other.image.digest != digest
    ensures var s := State(None, Idle, [], []);
      var past := [Begin(candidate), Read(false), Read(false), Foreign(other)];
      && Execute(s, past, true).tag == Some(other)
      && Execute(Execute(s, past, true), [Push(digest, true)], true).tag == Some(Stored(Image(digest, candidate), true))
  {
    var s := State(None, Idle, [], []);
    var s1 := Step(s, Begin(candidate), true);
    var s2 := Step(s1, Read(false), true);
    var s3 := Step(s2, Read(false), true);
    assert s3.phase == Rechecked(candidate, Decision(true, ""));
    var s4 := Step(s3, Foreign(other), true);
    var a1, a2, a3 := [Read(false), Read(false), Foreign(other)], [Read(false), Foreign(other)], [Foreign(other)];
    assert [Begin(candidate), Read(false), Read(false), Foreign(other)][1..] == a1;
    assert a1[1..] == a2 && a2[1..] == a3 && a3[1..] == [];
    assert Execute(s, [Begin(candidate), Read(false), Read(false), Foreign(other)], true) == Execute(s1, a1, true);
    assert Execute(s1, a1, true) == Execute(s2, a2, true) == Execute(s3, a3, true) == Execute(s4, [], true) == s4;
    assert [Push(digest, true)][1..] == [];
    assert Execute(s4, [Push(digest, true)], true) == Step(s4, Push(digest, true), true);
  }

  // ---------------------------------------------------------------- what a run does

  /** The first look at the tag: absent, or the candidate itself; anything else ends the run. */
  lemma PreflightDecides(s: State, fails: bool)
    requires s.phase.Built?
    ensures var (candidate, t) := (s.phase.candidate, Step(s, Read(fails), false));
      && t == s.(phase := t.phase)
      && (t.phase == Preflighted(candidate, "true", "") <==> !fails && s.tag == None)
      && (forall digest :: t.phase == Preflighted(candidate, "false", digest)
            <==> !fails && s.tag == Some(Stored(Image(digest, candidate), true)) && IsDigest(candidate))
      && (t.phase.Preflighted? ==>
            && t.phase.candidate == candidate
            && (t.phase.needed == "false" || (t.phase.needed == "true" && t.phase.digest == "")))
      && (t.phase.Preflighted? || t.phase == Idle)
  {
    assert |"true"| == 4 && |"false"| == 5;
  }

  /** Main result: what a record says. A step adds evidence only at the end of a run, one record, of what
      the tag holds and of the run's candidate; it says published exactly when this run has pushed. */
  lemma RecordSaysHow(s: State, a: Action)
    requires Inv(s) && Step(s, a, false).evidence != s.evidence
    ensures a.Finish? && s.phase.Settled?
    ensures |Step(s, a, false).evidence| == |s.evidence| + 1 && s.evidence <= Step(s, a, false).evidence
    ensures var e := Step(s, a, false).evidence[|s.evidence|];
      && e.candidate == s.phase.candidate && TagIs(s, e.digest, e.candidate)
      && (e.mode == Published <==> s.phase.decision.push)
      && (e.mode == Published ==> s.pushes == [Image(e.digest, e.candidate)])
  {
    var (candidate, decision) := (s.phase.candidate, s.phase.decision);
    var passed := Postflight(a.attempts, candidate, FlagText(decision.push), decision.digest, a.retries).value;
    FirstDecisiveIs(a.attempts[..a.retries], candidate, decision.digest, passed.image);
    assert |"true"| == 4 && |"false"| == 5;
  }

  /** A last read of the settled tag writes the record. */
  lemma FinishWrites(s: State, candidate: string, decision: Decision, image: Image)
    requires s.phase == Settled(candidate, decision) && s.tag == Some(Stored(image, true))
    requires IsDigest(candidate) && image.configDigest == candidate
    requires if decision.push then decision.digest == ""
             else IsDigest(decision.digest) && image.digest == decision.digest
    ensures Step(s, Finish([Saw(image)], 1), false)
         == s.(phase := Idle,
               evidence := s.evidence
                           + [Evidence(candidate, image.digest, if decision.push then Published else Reused)])
  {
    var attempts := [Saw(image)];
    assert attempts[..1] == attempts && attempts[1..] == [];
    assert FirstDecisive(attempts, candidate, decision.digest) == Ok(image);
    assert |"true"| == 4 && |"false"| == 5;
  }

  /** Main result: an undisturbed run on an absent tag pushes its image and writes that it published it. */
  lemma AlonePublishes(s: State, candidate: string, digest: string)
    requires s.phase == Idle && s.tag == None && IsDigest(candidate)
    ensures var image := Image(digest, candidate);
      var s1 := Step(s, Begin(candidate), false);
      var s2 := Step(Step(s1, Read(false), false), Read(false), false);
      var s3 := Step(s2, Push(digest, true), false);
      && s3 == State(Some(Stored(image, true)), s3.phase, s.pushes + [image], s.evidence)
      && Step(s3, Finish([Saw(image)], 1), false)
           == State(Some(Stored(image, true)), Idle, s.pushes + [image],
                    s.evidence + [Evidence(candidate, digest, Published)])
  {
    var image := Image(digest, candidate);
    var s1 := Step(s, Begin(candidate), false);
    PreflightDecides(s1, false);
    var s2 := Step(s1, Read(false), false);
    RecheckDecides("true", "", None, candidate, "");
    var s3 := Step(s2, Read(false), false);
    assert s3.phase == Rechecked(candidate, Decision(true, ""));
    var s4 := Step(s3, Push(digest, true), false);
    FinishWrites(s4, candidate, Decision(true, ""), image);
  }

  /** Main result: an undisturbed run on a tag that holds its candidate pushes nothing and writes that it
      reused the image. */
  lemma AloneReuses(s: State, candidate: string, digest: string)
    requires s.phase == Idle && s.tag == Some(Stored(Image(digest, candidate), true))
    requires IsDigest(candidate) && IsDigest(digest)
    ensures var s1 := Step(s, Begin(candidate), false);
      var s2 := Step(Step(s1, Read(false), false), Read(false), false);
      var s3 := Step(s2, Push("", true), false);
      && s3 == s.(phase := s3.phase)
      && Step(s3, Finish([Saw(Image(digest, candidate))], 1), false)
           == s.(evidence := s.evidence + [Evidence(candidate, digest, Reused)])
  {
    var image := Image(digest, candidate);
    var s1 := Step(s, Begin(candidate), false);
    PreflightDecides(s1, false);
    var s2 := Step(s1, Read(false), false);
    RecheckDecides("false", digest, Some(image), candidate, digest);
    var s3 := Step(s2, Read(false), false);
    assert s3.phase == Rechecked(candidate, Decision(false, digest));
    var s4 := Step(s3, Push("", true), false);
    FinishWrites(s4, candidate, Decision(false, digest), image);
  }
}
