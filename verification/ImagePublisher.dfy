/** Publishing one image under one source-SHA tag: preflight, recheck, conditional push, postflight.
    Runs for one SHA are serialised by the workflow; each may stop at any step. */
module ImagePublisher {
  import opened Results
  import opened Formats
  import opened RemoteImage

  const MAX_RETRIES := 30

  // ---------------------------------------------------------------- the recheck

  /** str(value).lower() of a truth value, as it travels between workflow steps. */
  function FlagText(flag: bool): string {
    if flag then "true" else "false"
  }

  datatype PublishError =
    | BadCandidate | NotTheCandidate | AbsentWithDigest | BadPresentDigest | Disappeared | Drifted | BadFlag
    | BadRetries | ReadFailed | ReadBroke

  function Require(image: Image, candidate: string): Outcome<PublishError> {
    Need(RequireCandidate(image, candidate).Pass?, PublishError.NotTheCandidate)
  }

  datatype Decision = Decision(push: bool, digest: string)

  /** resolve_recheck */
  function ResolveRecheck(needed: string, preflightDigest: string, current: Option<Image>, candidate: string)
    : Result<Decision, PublishError>
  {
    if !IsDigest(candidate) then Err(PublishError.BadCandidate)
    else if needed == "true" then
      :- Need(preflightDigest == "", AbsentWithDigest);
      match current
      case None => Ok(Decision(true, ""))
      case Some(image) =>
        :- Require(image, candidate);
        Ok(Decision(false, image.digest))
    else if needed == "false" then
      :- Need(IsDigest(preflightDigest), BadPresentDigest);
      match current
      case None => Err(Disappeared)
      case Some(image) =>
        :- Need(image.digest == preflightDigest, Drifted);
        :- Require(image, candidate);
        Ok(Decision(false, image.digest))
    else Err(BadFlag)
  }

  /** A push is decided only from two absences; any other success reuses the image
      that is there now, which is the candidate and, if there was one before, the same as before. */
  lemma RecheckDecides(needed: string, before: string, current: Option<Image>, candidate: string, digest: string)
    ensures ResolveRecheck(needed, before, current, candidate) == Ok(Decision(true, digest))
       <==> IsDigest(candidate) && needed == "true" && before == "" && current == None && digest == ""
    ensures ResolveRecheck(needed, before, current, candidate) == Ok(Decision(false, digest))
       <==> && current == Some(Image(digest, candidate)) && IsDigest(candidate)
            && ((needed == "true" && before == "") || (needed == "false" && before == digest && IsDigest(digest)))
  {
  }

  // ---------------------------------------------------------------- the retry loop of the postflight

  /** One read of the tag: an image, an error that is retried, or one that is not. */
  datatype Attempt = Saw(image: Image) | Failed | Broke

  /** What the loop is satisfied with: the candidate, and the expected digest when there is one. */
  predicate Good(a: Attempt, candidate: string, expected: string) {
    && a.Saw? && IsDigest(candidate) && a.image.configDigest == candidate
    && (expected == "" || a.image.digest == expected)
  }

  /** The outcome of the first decisive attempt: a good one ends the loop, an unretried error too. */
  function FirstDecisive(attempts: seq<Attempt>, candidate: string, expected: string): Result<Image, PublishError>
    decreases |attempts|
  {
    if attempts == [] then Err(ReadFailed)
    else if attempts[0].Broke? then Err(ReadBroke)
    else if Good(attempts[0], candidate, expected) then Ok(attempts[0].image)
    else FirstDecisive(attempts[1..], candidate, expected)
  }

  datatype Passed = Passed(image: Image, mode: PublishMode)

  /** Attempt k is good, shows this image, and no earlier one was good or broke. */
  predicate FirstGoodAt(attempts: seq<Attempt>, k: nat, candidate: string, expected: string, image: Image)
    requires k < |attempts|
  {
    && attempts[k] == Saw(image) && Good(attempts[k], candidate, expected)
    && forall i | 0 <= i < k :: !attempts[i].Broke? && !Good(attempts[i], candidate, expected)
  }

  /** Attempt k broke, and no earlier one was good or broke. */
  predicate FirstBreakAt(attempts: seq<Attempt>, k: nat, candidate: string, expected: string)
    requires k < |attempts|
  {
    attempts[k].Broke? && forall i | 0 <= i < k :: !attempts[i].Broke? && !Good(attempts[i], candidate, expected)
  }

  /** The flag, the digest and the number of retries belong together. */
  predicate ArgumentsFit(pushed: string, digest: string, retries: int) {
    && ((pushed == "true" && digest == "") || (pushed == "false" && IsDigest(digest)))
    && 1 <= retries <= 30
  }

  /** postflight up to the evidence; the attempts are what its reads of the tag will give. */
  function Postflight(attempts: seq<Attempt>, candidate: string, pushed: string, digest: string, retries: int)
    : Result<Passed, PublishError>
    requires |attempts| >= retries
  {
    if pushed != "true" && pushed != "false" then Err(BadFlag)
    else
      :- Need(pushed == "true" ==> digest == "", AbsentWithDigest);
      :- Need(pushed == "false" ==> IsDigest(digest), BadPresentDigest);
      :- Need(1 <= retries <= MAX_RETRIES, BadRetries);
      var image :- FirstDecisive(attempts[..retries], candidate, digest);
      Ok(Passed(image, if pushed == "true" then Published else Reused))
  }

  /** The loop as it is written: image and the number of reads are updated attempt by attempt, and
      an image that was read but refused stays in the variable until a later one replaces it. */
  method RunPostflight(attempts: seq<Attempt>, candidate: string, pushed: string, digest: string, retries: int)
    returns (r: Result<Passed, PublishError>, count: nat)
    requires |attempts| >= retries
    ensures r == Postflight(attempts, candidate, pushed, digest, retries)
    ensures r.Ok? <==>
      && ArgumentsFit(pushed, digest, retries)
      && exists k, image | 0 <= k < retries :: FirstGoodAt(attempts, k, candidate, digest, image)
    ensures r == Err(ReadBroke) <==>
      && ArgumentsFit(pushed, digest, retries)
      && exists k | 0 <= k < retries :: FirstBreakAt(attempts, k, candidate, digest)
    ensures r.Ok? ==> (r.value.mode == Published <==> pushed == "true")
    ensures count == 0 || count <= retries
    ensures r.Ok? ==> 0 < count <= |attempts| && FirstGoodAt(attempts, count - 1, candidate, digest, r.value.image)
  {
    count := 0;
    var expected, mode;
    if pushed == "true" {
      if digest != "" {
        return Err(AbsentWithDigest), count;
      }
      expected, mode := "", Published;
    } else if pushed == "false" {
      if !IsDigest(digest) {
        return Err(BadPresentDigest), count;
      }
      expected, mode := digest, Reused;
    } else {
      return Err(BadFlag), count;
    }
    if retries < 1 || retries > MAX_RETRIES {
      return Err(BadRetries), count;
    }
    var image: Option<Image> := None;
    ghost var all := attempts[..retries];
    while true
      invariant 0 <= count < retries
      invariant FirstDecisive(all, candidate, expected) == FirstDecisive(all[count..], candidate, expected)
      invariant forall i | 0 <= i < count :: !attempts[i].Broke? && !Good(attempts[i], candidate, expected)
      decreases retries - count
    {
      var attempt := attempts[count];
      assert all[count..][0] == attempt && all[count..][1..] == all[count + 1..];
      count := count + 1;
      if attempt.Broke? {
        assert FirstBreakAt(attempts, count - 1, candidate, digest);
        return Err(ReadBroke), count;
      }
      if attempt.Saw? {
        image := Some(attempt.image);
        if RequireCandidate(attempt.image, candidate).Pass? && (expected == "" || attempt.image.digest == expected) {
          break;
        }
      }
      if count == retries {
        assert all[count..] == [];
        return Err(ReadFailed), count;
      }
    }
    assert FirstGoodAt(attempts, count - 1, candidate, digest, image.value);
    r := Ok(Passed(image.value, mode));
  }

  /** What the loop promises: it succeeds exactly when some read is good and none before it broke,
      and the image is the one of the first good read. */
  lemma {:induction false} FirstDecisiveIs(attempts: seq<Attempt>, candidate: string, expected: string, image: Image)
    ensures FirstDecisive(attempts, candidate, expected) == Ok(image)
       <==> exists k | 0 <= k < |attempts| :: FirstGoodAt(attempts, k, candidate, expected, image)
    decreases |attempts|
  {
    if attempts != [] {
      var t := attempts[1..];
      assert attempts[0] == Saw(image) && Good(attempts[0], candidate, expected)
        <==> FirstGoodAt(attempts, 0, candidate, expected, image);
      FirstDecisiveIs(t, candidate, expected, image);
      if k :| 0 <= k < |t| && FirstGoodAt(t, k, candidate, expected, image) {
        if !attempts[0].Broke? && !Good(attempts[0], candidate, expected) {
          assert FirstGoodAt(attempts, k + 1, candidate, expected, image);
        }
      }
      if k :| 0 <= k < |attempts| && FirstGoodAt(attempts, k, candidate, expected, image) {
        if k == 0 {
          assert FirstDecisive(attempts, candidate, expected) == Ok(image);
        } else {
          assert !attempts[0].Broke? && !Good(attempts[0], candidate, expected);
          assert forall i | 0 <= i < k - 1 :: t[i] == attempts[i + 1];
          assert FirstGoodAt(t, k - 1, candidate, expected, image);
        }
      }
    }
  }
}
