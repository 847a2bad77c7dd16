/** Lazy initialisation of the bucket: double-checked locking over any number of threads, with
    failures inside the critical section. */
module LazyBucket {

  /** The remote side of one call: it does what is asked, fails without effect, or fails after
      having had its effect. */
  datatype Answer = Succeeds | Fails | FailsLate

  /** What the store has: the bucket, and its policy. */
  datatype Remote = Remote(bucket: bool, policy: bool)

  datatype Reply = Replied | NoSuchBucket | Raised

  datatype Call = Call(remote: Remote, reply: Reply)

  function Head(r: Remote, a: Answer): Call {
    if a != Succeeds then Call(r, Raised) else Call(r, if r.bucket then Replied else NoSuchBucket)
  }

  /** A bucket that is already there makes creation fail. */
  function Create(r: Remote, a: Answer): Call {
    if a == Fails || r.bucket then Call(r, Raised)
    else Call(Remote(true, false), if a == Succeeds then Replied else Raised)
  }

  function SetPolicy(r: Remote, a: Answer): Call {
    if a == Fails || !r.bucket then Call(r, Raised)
    else Call(Remote(true, true), if a == Succeeds then Replied else Raised)
  }

  // ---------------------------------------------------------------- one thread, as it is written

  datatype Answers = Answers(head: Answer, create: Answer, policy: Answer)

  datatype Pass = Pass(remote: Remote, ok: bool)

  /** What a head request meets. */
  datatype Met = Unlooked | Missing | Bare | WithPolicy

  function Meets(r: Remote): Met {
    if !r.bucket then Missing else if r.policy then WithPolicy else Bare
  }

  /** The body of the critical section. */
  function RunPass(r: Remote, answers: Answers): Pass {
    var head := Head(r, answers.head);
    match head.reply
    case Raised => Pass(head.remote, false)
    case Replied => Pass(head.remote, true)
    case NoSuchBucket =>
      var created := Create(head.remote, answers.create);
      if created.reply != Replied then Pass(created.remote, false)
      else
        var policed := SetPolicy(created.remote, answers.policy);
        Pass(policed.remote, policed.reply == Replied)
  }

  /** Main result: when a pass succeeds there is a bucket, and it has its policy exactly when the pass
      met no bucket, or one that had it. */
  lemma PolicyAfterPass(r: Remote, answers: Answers)
    requires RunPass(r, answers).ok
    ensures RunPass(r, answers).remote.bucket
    ensures RunPass(r, answers).remote.policy <==> (r.bucket ==> r.policy)
  {
  }

  /** Exactly when a pass succeeds, and what it leaves behind in every case. */
  lemma PassExactly(r: Remote, answers: Answers)
    ensures RunPass(r, answers).ok
       <==> answers.head == Succeeds && (r.bucket || (answers.create == Succeeds && answers.policy == Succeeds))
    ensures RunPass(r, answers).remote
         == if answers.head != Succeeds || r.bucket || answers.create == Fails then r
            else Remote(true, answers.create == Succeeds && answers.policy != Fails)
  {
  }

  class S3ObjectStorage {
    var bucketReady: bool
    var remote: Remote

    constructor (remote: Remote)
      ensures !bucketReady && this.remote == remote
    {
      bucketReady := false;
      this.remote := remote;
    }

    /** ensureBucket, undisturbed: true when it returns, false when it throws. The flag is set by
        exactly the calls that return. */
    method EnsureBucket(answers: Answers) returns (ok: bool)
      modifies this
      ensures ok == bucketReady
      ensures old(bucketReady) ==> ok && remote == old(remote)
      ensures !old(bucketReady) ==> Pass(remote, ok) == RunPass(old(remote), answers)
    {
      if bucketReady {
        return true;
      }
      var head := Head(remote, answers.head);
      if head.reply == Raised {
        return false;
      }
      if head.reply == NoSuchBucket {
        var created := Create(remote, answers.create);
        remote := created.remote;
        if created.reply != Replied {
          return false;
        }
        var policed := SetPolicy(remote, answers.policy);
        remote := policed.remote;
        if policed.reply != Replied {
          return false;
        }
      }
      bucketReady := true;
      ok := true;
    }
  }

  // ---------------------------------------------------------------- many threads

  datatype Phase =
    | Outside            // not in put
    | Testing            // before the unlocked test
    | Waiting            // the flag was false; before the lock
    | Retesting          // in the lock, before the second test
    | Heading
    | Creating
    | Policing
    | Marking            // before the flag is set
    | Leaving(ok: bool)  // before the lock is released
    | Putting            // ensureBucket returned

  datatype Event = Created | Policied | Ready | Put(thread: nat) | Threw(thread: nat)

  /** lock holds the owner, met what the last answered head request met; log is everything that
      happened, in order. */
  datatype State = State(
    ready: bool, lock: int, remote: Remote, met: Met, threads: seq<Phase>, log: seq<Event>)

  const FREE := -1

  datatype Action =
    | Go(thread: nat, answer: Answer)
    | ForeignCreate
    | ForeignDelete

  function At(s: State, t: nat, phase: Phase): State
    requires t < |s.threads|
  {
    s.(threads := s.threads[t := phase])
  }

  /** The step of a thread, apart from the log. */
  function Move(s: State, t: nat, a: Answer): State
    requires t < |s.threads|
  {
    match s.threads[t]
    case Outside => At(s, t, Testing)
    case Testing => At(s, t, if s.ready then Putting else Waiting)
    case Waiting => if s.lock == FREE then At(s.(lock := t), t, Retesting) else s
    case Retesting => At(s, t, if s.ready then Leaving(true) else Heading)
    case Heading =>
      var call := Head(s.remote, a);
      if call.reply == Raised then At(s, t, Leaving(false))
      else At(s.(met := Meets(s.remote)), t, if call.reply == Replied then Marking else Creating)
    case Creating =>
      var call := Create(s.remote, a);
      At(s.(remote := call.remote), t, if call.reply == Replied then Policing else Leaving(false))
    case Policing =>
      var call := SetPolicy(s.remote, a);
      At(s.(remote := call.remote), t, if call.reply == Replied then Marking else Leaving(false))
    case Marking => At(s.(ready := true), t, Leaving(true))
    case Leaving(ok) => At(s.(lock := FREE), t, if ok then Putting else Outside)
    case Putting => At(s, t, Outside)
  }

  /** What the step shows to the outside: a bucket that came to exist, a policy call, the flag, a
      put, an exception. */
  function EventOf(s: State, t: nat, a: Answer): seq<Event>
    requires t < |s.threads|
  {
    match s.threads[t]
    case Creating => if Create(s.remote, a).remote.bucket != s.remote.bucket then [Created] else []
    case Policing => [Policied]
    case Marking => [Ready]
    case Leaving(ok) => if ok then [] else [Threw(t)]
    case Putting => [Put(t)]
    case _ => []
  }

  function GoOn(s: State, t: nat, a: Answer): State
    requires t < |s.threads|
  {
    Move(s, t, a).(log := s.log + EventOf(s, t, a))
  }

  function Step(s: State, a: Action): State {
    match a
    case Go(t, answer) => if t < |s.threads| then GoOn(s, t, answer) else s
    case ForeignCreate => if s.remote.bucket then s else s.(remote := Remote(true, false))
    case ForeignDelete => s.(remote := Remote(false, false))
  }

  function Execute(s: State, actions: seq<Action>): State
    decreases |actions|
  {
    if actions == [] then s else Execute(Step(s, actions[0]), actions[1..])
  }

  predicate Init(s: State) {
    && !s.ready && s.lock == FREE && s.met == Unlooked && s.log == []
    && forall t | 0 <= t < |s.threads| :: s.threads[t] == Outside
  }

  // ---------------------------------------------------------------- the invariant

  /** In the critical section. */
  predicate Holds(p: Phase) {
    p.Retesting? || InBody(p) || p.Leaving?
  }

  /** In the initialisation itself. */
  predicate InBody(p: Phase) {
    p.Heading? || p.Creating? || p.Policing? || p.Marking?
  }

  predicate PhaseOk(s: State, t: nat)
    requires t < |s.threads|
  {
    var p := s.threads[t];
    && (Holds(p) <==> s.lock == t)
    && (InBody(p) ==> !s.ready)
    && (p == Leaving(false) ==> !s.ready)
    && (p == Leaving(true) || p.Putting? ==> s.ready)
  }

  function Count(log: seq<Event>, e: Event): nat
    decreases |log|
  {
    if log == [] then 0 else Count(log[..|log| - 1], e) + (if log[|log| - 1] == e then 1 else 0)
  }

  /** Every put comes after the one event that sets the flag. */
  predicate PutsFollowReady(log: seq<Event>) {
    forall k | 0 <= k < |log| && log[k].Put? :: Ready in log[..k]
  }

  predicate Inv(s: State) {
    && (forall t | 0 <= t < |s.threads| :: PhaseOk(s, t))
    && (s.lock == FREE || 0 <= s.lock < |s.threads|)
    && (s.ready <==> Ready in s.log)
    && Count(s.log, Ready) == (if s.ready then 1 else 0)
    && PutsFollowReady(s.log)
  }

  /** What one more event, or none, does to a count. */
  lemma CountAppend(log: seq<Event>, es: seq<Event>, f: Event)
    requires |es| <= 1
    ensures Count(log + es, f) == Count(log, f) + (if es == [f] then 1 else 0)
    ensures f in log + es <==> f in log || es == [f]
  {
    if es == [] {
      assert log + es == log;
    } else {
      assert (log + es)[..|log|] == log;
    }
  }

  lemma LogKeeps(log: seq<Event>, es: seq<Event>)
    requires PutsFollowReady(log) && |es| <= 1 && (es != [] && es[0].Put? ==> Ready in log)
    ensures PutsFollowReady(log + es)
  {
    forall k | 0 <= k < |log + es| && (log + es)[k].Put? ensures Ready in (log + es)[..k] {
      if k < |log| {
        assert (log + es)[..k] == log[..k];
      } else {
        assert (log + es)[..k] == log;
      }
    }
  }

  lemma GoOnLog(s: State, t: nat, a: Answer)
    requires Inv(s) && t < |s.threads|
    ensures var u := GoOn(s, t, a);
      && (u.ready <==> Ready in u.log) && Count(u.log, Ready) == (if u.ready then 1 else 0)
      && PutsFollowReady(u.log)
  {
    assert PhaseOk(s, t);
    CountAppend(s.log, EventOf(s, t, a), Ready);
    LogKeeps(s.log, EventOf(s, t, a));
  }

  lemma GoOnPhases(s: State, t: nat, a: Answer)
    requires Inv(s) && t < |s.threads|
    ensures var u := GoOn(s, t, a);
      && |u.threads| == |s.threads| && (u.lock == FREE || 0 <= u.lock < |u.threads|)
      && forall q | 0 <= q < |u.threads| :: PhaseOk(u, q)
  {
    var u := GoOn(s, t, a);
    assert PhaseOk(s, t);
    forall q | 0 <= q < |u.threads| ensures PhaseOk(u, q) {
      assert PhaseOk(s, q);
    }
  }

  lemma StepKeeps(s: State, a: Action)
    requires Inv(s)
    ensures Inv(Step(s, a)) && |Step(s, a).threads| == |s.threads|
    ensures s.ready ==> Step(s, a).ready
  {
    if a.Go? && a.thread < |s.threads| {
      GoOnLog(s, a.thread, a.answer);
      GoOnPhases(s, a.thread, a.answer);
    } else {
      forall q | 0 <= q < |s.threads| ensures PhaseOk(Step(s, a), q) {
        assert PhaseOk(s, q);
      }
    }
  }

  lemma {:induction false} ExecuteKeeps(s: State, actions: seq<Action>)
    requires Inv(s)
    ensures Inv(Execute(s, actions))
    ensures s.ready ==> Execute(s, actions).ready
    decreases |actions|
  {
    if actions != [] {
      StepKeeps(s, actions[0]);
      ExecuteKeeps(Step(s, actions[0]), actions[1..]);
    }
  }

  lemma InitIsInv(s: State)
    requires Init(s)
    ensures Inv(s)
  {
  }

  // ---------------------------------------------------------------- main results

  /** Main result, mutual exclusion: in every interleaving at most one thread is in the critical
      section, and nobody initialises once the flag is set. */
  lemma OneInitialiser(s: State, actions: seq<Action>, t: nat, u: nat)
    requires Init(s) && t < |s.threads| && u < |s.threads|
    ensures |Execute(s, actions).threads| == |s.threads|
    ensures var e := Execute(s, actions);
      && (Holds(e.threads[t]) && Holds(e.threads[u]) ==> t == u)
      && (InBody(e.threads[t]) ==> !e.ready)
  {
    InitIsInv(s);
    ExecuteKeeps(s, actions);
    SameThreads(s, actions);
    assert PhaseOk(Execute(s, actions), t) && PhaseOk(Execute(s, actions), u);
  }

  lemma {:induction false} SameThreads(s: State, actions: seq<Action>)
    requires Inv(s)
    ensures |Execute(s, actions).threads| == |s.threads|
    decreases |actions|
  {
    if actions != [] {
      StepKeeps(s, actions[0]);
      SameThreads(Step(s, actions[0]), actions[1..]);
    }
  }

  /** Main result: the flag is set at most once and for ever, and every put comes after it. */
  lemma ReadyOnce(s: State, past: seq<Action>, future: seq<Action>)
    requires Init(s)
    ensures Execute(s, past).ready ==> Execute(Execute(s, past), future).ready
    ensures Count(Execute(s, past).log, Ready) <= 1
    ensures forall k | 0 <= k < |Execute(s, past).log| && Execute(s, past).log[k].Put? ::
      Ready in Execute(s, past).log[..k]
  {
    InitIsInv(s);
    ExecuteKeeps(s, past);
    ExecuteKeeps(Execute(s, past), future);
  }

  /** Main result: a pass that fails leaves the flag false and lets go of the lock. */
  lemma FailedPassLeavesNothing(s: State, t: nat, a: Answer)
    requires Inv(s) && t < |s.threads| && s.threads[t] == Leaving(false)
    ensures var u := GoOn(s, t, a);
      !u.ready && u.lock == FREE && u.threads[t] == Outside && u.log == s.log + [Threw(t)]
  {
    assert PhaseOk(s, t);
  }

  // ---------------------------------------------------------------- the bucket

  predicate NoDelete(actions: seq<Action>) {
    forall i | 0 <= i < |actions| :: !actions[i].ForeignDelete?
  }

  /** Main result: when nobody deletes the bucket, the threads create it at most once between
      them, and not at all if it was there; once it is there it stays. */
  lemma {:induction false} CreatedAtMostOnce(s: State, actions: seq<Action>)
    requires Inv(s) && NoDelete(actions)
    ensures s.remote.bucket ==> Execute(s, actions).remote.bucket
    ensures Count(Execute(s, actions).log, Created)
         <= Count(s.log, Created) + (if s.remote.bucket then 0 else 1)
    ensures Count(Execute(s, actions).log, Created) > Count(s.log, Created) ==> Execute(s, actions).remote.bucket
    decreases |actions|
  {
    if actions != [] {
      var t := Step(s, actions[0]);
      StepKeeps(s, actions[0]);
      CreationStep(s, actions[0]);
      assert forall i | 0 <= i < |actions[1..]| :: actions[1..][i] == actions[i + 1];
      CreatedAtMostOnce(t, actions[1..]);
    }
  }

  /** A thread never loses the bucket, and the event tells when one makes it. */
  lemma MoveBucket(s: State, t: nat, a: Answer)
    requires t < |s.threads|
    ensures s.remote.bucket ==> Move(s, t, a).remote.bucket
    ensures EventOf(s, t, a) == [Created] <==> !s.remote.bucket && Move(s, t, a).remote.bucket
  {
  }

  lemma CreationStep(s: State, a: Action)
    requires Inv(s) && !a.ForeignDelete?
    ensures s.remote.bucket ==> Step(s, a).remote.bucket && Count(Step(s, a).log, Created) == Count(s.log, Created)
    ensures Count(s.log, Created) <= Count(Step(s, a).log, Created) <= Count(s.log, Created) + 1
    ensures Count(Step(s, a).log, Created) > Count(s.log, Created) ==> Step(s, a).remote.bucket
  {
    if a.Go? && a.thread < |s.threads| {
      CountAppend(s.log, EventOf(s, a.thread, a.answer), Created);
      MoveBucket(s, a.thread, a.answer);
    }
  }

  // ---------------------------------------------------------------- the policy

  /** The store is as the last head request and what followed it make it. */
  predicate AsMet(s: State) {
    s.remote.bucket && s.met != Unlooked && (s.remote.policy <==> s.met != Bare)
  }

  predicate PolicyOk(s: State) {
    && (s.ready ==> AsMet(s))
    && forall t | 0 <= t < |s.threads| ::
         && (s.threads[t].Creating? ==> s.met == Missing)
         && (s.threads[t].Policing? ==> s.met == Missing && s.remote.bucket)
         && (s.threads[t].Marking? ==> AsMet(s))
  }

  lemma PolicyStep(s: State, a: Action)
    requires Inv(s) && PolicyOk(s) && !a.ForeignDelete?
    ensures PolicyOk(Step(s, a))
  {
    if a.Go? && a.thread < |s.threads| {
      assert PhaseOk(s, a.thread);
      forall q | 0 <= q < |s.threads| ensures q != a.thread && InBody(s.threads[q]) ==> !Holds(s.threads[a.thread]) {
        assert PhaseOk(s, q);
      }
    }
  }

  lemma {:induction false} PolicyKept(s: State, actions: seq<Action>)
    requires Inv(s) && PolicyOk(s) && NoDelete(actions)
    ensures PolicyOk(Execute(s, actions))
    decreases |actions|
  {
    if actions != [] {
      PolicyStep(s, actions[0]);
      StepKeeps(s, actions[0]);
      assert forall i | 0 <= i < |actions[1..]| :: actions[1..][i] == actions[i + 1];
      PolicyKept(Step(s, actions[0]), actions[1..]);
    }
  }

  /** Main result: what the flag means. In every interleaving without foreign deletion, foreign
      creation at any point included, a set flag means that there is a bucket, and that it has its
      policy exactly when the head request of the pass that set the flag did not meet a bare one. */
  lemma FlagMeans(s: State, actions: seq<Action>)
    requires Init(s) && NoDelete(actions)
    ensures var e := Execute(s, actions);
      e.ready ==> e.remote.bucket && e.met != Unlooked && (e.remote.policy <==> e.met != Bare)
  {
    InitIsInv(s);
    PolicyKept(s, actions);
  }

  /** A bucket that another writer creates between the head request and the creation fails the pass:
      the flag stays false, and the next pass meets the bare bucket. */
  lemma ForeignCreationFailsThePass(s: State, t: nat, a: Answer)
    requires Inv(s) && t < |s.threads| && s.threads[t] == Creating && !s.remote.bucket
    ensures var u := GoOn(Step(s, ForeignCreate), t, a);
      u.threads[t] == Leaving(false) && !u.ready && Meets(u.remote) == Bare
  {
    assert PhaseOk(s, t);
  }

  /** Deletion is what FlagMeans has to exclude: the flag survives it, the bucket and its policy do not,
      and the next put goes through without looking. */
  lemma DeletionOutlivesTheFlag(s: State, t: nat, a: Answer)
    requires t < |s.threads| && s.ready && s.threads[t] == Testing
    ensures var u := GoOn(Step(s, ForeignDelete), t, a);
      u.ready && u.remote == Remote(false, false) && u.threads[t] == Putting
  {
  }

  // ---------------------------------------------------------------- a thread on its own

  /** The critical section of one thread with nothing in between. */
  function RunBody(s: State, t: nat, answers: Answers): State
    requires t < |s.threads|
  {
    var s1 := GoOn(s, t, answers.head);
    if s1.threads[t] != Creating then s1
    else
      var s2 := GoOn(s1, t, answers.create);
      if s2.threads[t] != Policing then s2 else GoOn(s2, t, answers.policy)
  }

  /** The steps of a thread in the critical section are the pass that the object runs on its own:
      the same effect on the store, and the same verdict. */
  lemma BodyIsPass(s: State, t: nat, answers: Answers)
    requires t < |s.threads| && s.threads[t] == Heading
    ensures var (u, pass) := (RunBody(s, t, answers), RunPass(s.remote, answers));
      u.remote == pass.remote && u.threads[t] == if pass.ok then Marking else Leaving(false)
  {
  }

  /** n steps of one thread, all answered. */
  function Alone(s: State, t: nat, n: nat): (u: State)
    requires t < |s.threads|
    ensures |u.threads| == |s.threads|
    decreases n
  {
    if n == 0 then s else Alone(GoOn(s, t, Succeeds), t, n - 1)
  }

  lemma {:induction false} AloneAdds(s: State, t: nat, m: nat, n: nat)
    requires t < |s.threads|
    ensures Alone(s, t, m + n) == Alone(Alone(s, t, m), t, n)
    decreases m
  {
    if m > 0 {
      AloneAdds(GoOn(s, t, Succeeds), t, m - 1, n);
    }
  }

  /** Into the critical section: four steps. */
  lemma AloneEnters(s: State, t: nat)
    requires t < |s.threads| && s.threads[t] == Outside && !s.ready && s.lock == FREE
    ensures var u := Alone(s, t, 4);
      u.threads[t] == Heading && !u.ready && u.lock == t && u.remote == s.remote && u.log == s.log
  {
  }

  /** Through it: one step when the bucket is there, three when it must be made. */
  lemma AlonePasses(s: State, t: nat)
    requires t < |s.threads| && s.threads[t] == Heading
    ensures var u := Alone(s, t, if s.remote.bucket then 1 else 3);
      u.threads[t] == Marking && u.remote.bucket && u.lock == s.lock && s.log <= u.log
  {
    var s1 := GoOn(s, t, Succeeds);
    assert Alone(s1, t, 0) == s1 && Alone(s, t, 1) == Alone(s1, t, 0);
    if !s.remote.bucket {
      var s2 := GoOn(s1, t, Succeeds);
      var s3 := GoOn(s2, t, Succeeds);
      assert Alone(s, t, 3) == Alone(s1, t, 2) == Alone(s2, t, 1) == Alone(s3, t, 0) == s3;
    }
  }

  /** Out of it, and the put: three steps. */
  lemma AlonePuts(s: State, t: nat)
    requires t < |s.threads| && s.threads[t] == Marking
    ensures var u := Alone(s, t, 3);
      u.threads[t] == Outside && u.ready && u.lock == FREE && u.remote == s.remote && u.log == s.log + [Ready, Put(t)]
  {
  }

  /** A put of thread t has come through between two states. */
  predicate PutDone(s: State, u: State, t: nat)
    requires t < |u.threads|
  {
    && s.log < u.log && u.log[|u.log| - 1] == Put(t)
    && u.ready && u.threads[t] == Outside && u.lock == FREE
    && (!s.ready ==> u.remote.bucket)
  }

  /** With the flag set, the put follows at once: three steps. */
  lemma AloneSkips(s: State, t: nat)
    requires t < |s.threads| && s.threads[t] == Outside && s.ready && s.lock == FREE
    ensures PutDone(s, Alone(s, t, 3), t)
  {
    var s1 := GoOn(s, t, Succeeds);
    var s2 := GoOn(s1, t, Succeeds);
    var s3 := GoOn(s2, t, Succeeds);
    assert Alone(s, t, 3) == Alone(s1, t, 2) == Alone(s2, t, 1) == Alone(s3, t, 0) == s3;
  }

  lemma AloneInitialises(s: State, t: nat, m: nat)
    requires t < |s.threads| && s.threads[t] == Outside && s.lock == FREE && !s.ready
    requires m == if s.remote.bucket then 1 else 3
    ensures var u := Alone(s, t, 4 + m);
      u.threads[t] == Marking && u.remote.bucket && s.log <= u.log
  {
    AloneEnters(s, t);
    AlonePasses(Alone(s, t, 4), t);
    AloneAdds(s, t, 4, m);
  }

  lemma AloneComesThrough(s: State, t: nat, m: nat)
    requires t < |s.threads| && s.threads[t] == Outside && s.lock == FREE && !s.ready
    requires m == if s.remote.bucket then 1 else 3
    ensures PutDone(s, Alone(s, t, 4 + m + 3), t)
  {
    AloneInitialises(s, t, m);
    AlonePuts(Alone(s, t, 4 + m), t);
    AloneAdds(s, t, 4 + m, 3);
  }

  /** Main result, the retry: whatever failed before, a thread that calls put on its own while the
      store answers gets its put through, and the bucket is there unless the flag was already set. */
  lemma LaterPutGetsThrough(s: State, t: nat) returns (n: nat)
    requires t < |s.threads| && s.threads[t] == Outside && s.lock == FREE
    ensures PutDone(s, Alone(s, t, n), t)
  {
    if s.ready {
      AloneSkips(s, t);
      n := 3;
    } else {
      var m := if s.remote.bucket then 1 else 3;
      AloneComesThrough(s, t, m);
      n := 4 + m + 3;
    }
  }

  /** The flag does not mean that the policy is set: a policy call fails, the next pass finds the
      bucket and is content. */
  lemma ReadyWithoutPolicy()
    ensures var first := RunPass(Remote(false, false), Answers(Succeeds, Succeeds, Fails));
      var second := RunPass(first.remote, Answers(Succeeds, Succeeds, Succeeds));
      !first.ok && second.ok && second.remote == Remote(true, false)
  {
  }
}
