/** The all-or-nothing classification of a Maven coordinate, and the retries around it. */
module MavenCoordinate {
  import opened Results

  type Bytes = seq<bv8>

  datatype Spec = Spec(name: string, size: nat, sha256: string)

  datatype VerifyError = BadStatus | StillMissing | Partial | SizeDrifted | HashDrifted | NotFetched | NoAttempt | Broke

  /** What the server does for one name: a body, an HTTP error from the package host or from
      elsewhere, nothing, or a body that breaks off while it is read. */
  datatype Server = Body(status: int, raw: Bytes) | HttpError(code: int, trusted: bool) | NoAnswer | BreaksOff

  /** What one fetch gives; the error when it raises. Broke stands for the exceptions that are not
      turned into a VerificationError, such as a timeout in the middle of a body. */
  datatype Fetched = Fetched(status: int, raw: Bytes)

  /** fetch: reads no more than one byte beyond the expected size, and takes only a 404 of the
      package host itself for absence. */
  function Fetch(spec: Spec, server: Server): Result<Fetched, VerifyError> {
    match server
    case Body(status, raw) => Ok(Fetched(status, if |raw| > spec.size then raw[..spec.size + 1] else raw))
    case HttpError(code, trusted) => if code == 404 && trusted then Ok(Fetched(404, [])) else Err(NotFetched)
    case NoAnswer => Err(NotFetched)
    case BreaksOff => Err(Broke)
  }

  /** validate_artifact_bytes */
  function ValidateBytes(spec: Spec, raw: Bytes, hash: Bytes -> string): Outcome<VerifyError> {
    if |raw| != spec.size then Fail(SizeDrifted)
    else Need(hash(raw) == spec.sha256, HashDrifted)
  }

  /** The artefact is absent: the package host itself says 404. */
  predicate Absent(server: Server) {
    server == HttpError(404, true) || (server.Body? && server.status == 404)
  }

  /** An answer that ends a pass: neither a body with status 200 nor absence. */
  predicate Odd(server: Server) {
    !Absent(server) && !(server.Body? && server.status == 200)
  }

  /** The error that it ends in. */
  function OddError(server: Server): VerifyError {
    match server
    case Body(_, _) => BadStatus
    case HttpError(_, _) => NotFetched
    case NoAnswer => NotFetched
    case BreaksOff => Broke
  }

  /** A fetch sees absence, and nothing else, as status 404, and raises or returns an odd status on
      exactly the odd answers. */
  lemma FetchTells(spec: Spec, server: Server)
    ensures Absent(server) <==> Fetch(spec, server).Ok? && Fetch(spec, server).value.status == 404
    ensures Odd(server)
       <==> || Fetch(spec, server).Err?
            || (Fetch(spec, server).value.status != 200 && Fetch(spec, server).value.status != 404)
    ensures Fetch(spec, server).Err? ==> Fetch(spec, server).error == OddError(server)
    ensures Fetch(spec, server).Ok? && Odd(server) ==> OddError(server) == BadStatus
  {
  }

  /** The server has exactly the expected bytes; the whole body counts, not what was read of it. */
  predicate Exact(spec: Spec, server: Server, hash: Bytes -> string) {
    server.Body? && server.status == 200 && |server.raw| == spec.size && hash(server.raw) == spec.sha256
  }

  /** Reading one byte too many is enough to tell a longer body. */
  lemma ReadLimitSuffices(spec: Spec, server: Server, hash: Bytes -> string)
    ensures Exact(spec, server, hash)
       <==> && Fetch(spec, server).Ok? && Fetch(spec, server).value.status == 200
            && ValidateBytes(spec, Fetch(spec, server).value.raw, hash).Pass?
  {
  }

  predicate DistinctNames(specs: seq<Spec>) {
    forall i, j | 0 <= i < j < |specs| :: specs[i].name != specs[j].name
  }

  predicate AllAbsent(specs: seq<Spec>, servers: string -> Server) {
    forall i | 0 <= i < |specs| :: Absent(servers(specs[i].name))
  }

  predicate AllExact(specs: seq<Spec>, servers: string -> Server, hash: Bytes -> string) {
    forall i | 0 <= i < |specs| :: Exact(specs[i], servers(specs[i].name), hash)
  }

  /** What the classification promises: upload is needed when all is absent, not needed when all is
      there exactly, and every mixture is an error. */
  function Verdict(specs: seq<Spec>, servers: string -> Server, hash: Bytes -> string, requirePresent: bool)
    : Option<bool>
  {
    if AllAbsent(specs, servers) then (if requirePresent then None else Some(true))
    else if AllExact(specs, servers, hash) then Some(false)
    else None
  }

  datatype Collected = Collected(statuses: map<string, int>, payloads: map<string, Bytes>)

  /** What the two dictionaries hold after k fetches. */
  predicate Holds(c: Collected, specs: seq<Spec>, servers: string -> Server, k: nat)
    requires k <= |specs|
  {
    forall i | 0 <= i < k ::
      && specs[i].name in c.statuses && specs[i].name in c.payloads
      && Fetch(specs[i], servers(specs[i].name)) == Ok(Fetched(c.statuses[specs[i].name], c.payloads[specs[i].name]))
      && (c.statuses[specs[i].name] == 200 || c.statuses[specs[i].name] == 404)
  }

  /** The first odd fetch is one that breaks, so that the pass ends in an error that is not retried. */
  predicate Breaks(specs: seq<Spec>, servers: string -> Server) {
    exists i | 0 <= i < |specs| :: servers(specs[i].name).BreaksOff? && FirstOdd(specs, servers, i)
  }

  predicate FirstOdd(specs: seq<Spec>, servers: string -> Server, i: nat)
    requires i < |specs|
  {
    Odd(servers(specs[i].name)) && forall j | 0 <= j < i :: !Odd(servers(specs[j].name))
  }

  /** The first loop: fills the two dictionaries and stops at the first odd status. */
  method Collect(specs: seq<Spec>, servers: string -> Server) returns (r: Result<Collected, VerifyError>)
    requires DistinctNames(specs)
    ensures r.Ok? ==> Holds(r.value, specs, servers, |specs|)
    ensures r.Err? ==> exists i | 0 <= i < |specs| ::
      FirstOdd(specs, servers, i) && r.error == OddError(servers(specs[i].name))
  {
    var c := Collected(map[], map[]);
    for k := 0 to |specs|
      invariant Holds(c, specs, servers, k)
    {
      var name := specs[k].name;
      FetchTells(specs[k], servers(name));
      assert Odd(servers(name)) ==> FirstOdd(specs, servers, k);
      var fetched :- Fetch(specs[k], servers(name));
      c := Collected(c.statuses[name := fetched.status], c.payloads[name := fetched.raw]);
      if fetched.status != 200 && fetched.status != 404 {
        return Err(BadStatus);
      }
    }
    r := Ok(c);
  }

  /** Main result: after a partial upload no verdict is possible until the rest is there. */
  lemma MixtureIsRefused(specs: seq<Spec>, servers: string -> Server, hash: Bytes -> string,
        requirePresent: bool, i: nat, j: nat)
    requires i < |specs| && j < |specs|
    requires Absent(servers(specs[i].name)) && !Absent(servers(specs[j].name))
    ensures Verdict(specs, servers, hash, requirePresent) == None
  {
  }

  /** Only one fetch is the first odd one. */
  lemma BreaksExactly(specs: seq<Spec>, servers: string -> Server, i: nat)
    requires i < |specs| && FirstOdd(specs, servers, i)
    ensures Breaks(specs, servers) <==> servers(specs[i].name).BreaksOff?
  {
    if Breaks(specs, servers) {
      var k :| 0 <= k < |specs| && servers(specs[k].name).BreaksOff? && FirstOdd(specs, servers, k);
      assert k == i;
    }
  }

  /** One odd answer leaves no verdict. */
  lemma OddMeansNone(specs: seq<Spec>, servers: string -> Server, hash: Bytes -> string, requirePresent: bool, i: nat)
    requires i < |specs| && Odd(servers(specs[i].name))
    ensures Verdict(specs, servers, hash, requirePresent) == None
  {
  }

  /** What the dictionaries tell of one artefact. */
  lemma CollectedTells(c: Collected, specs: seq<Spec>, servers: string -> Server, hash: Bytes -> string, i: nat)
    requires i < |specs| && Holds(c, specs, servers, |specs|)
    ensures var name := specs[i].name;
      && (Absent(servers(name)) <==> c.statuses[name] == 404)
      && (Exact(specs[i], servers(name), hash)
          <==> c.statuses[name] == 200 && ValidateBytes(specs[i], c.payloads[name], hash).Pass?)
  {
  }

  lemma AbsenceCollected(c: Collected, specs: seq<Spec>, servers: string -> Server, hash: Bytes -> string)
    requires Holds(c, specs, servers, |specs|)
    ensures forall i | 0 <= i < |specs| ::
      Absent(servers(specs[i].name)) <==> c.statuses[specs[i].name] == 404
  {
  }

  lemma NoneOddCollected(c: Collected, specs: seq<Spec>, servers: string -> Server)
    requires Holds(c, specs, servers, |specs|)
    ensures NoneOdd(specs, servers)
  {
    forall i | 0 <= i < |specs| ensures !Odd(servers(specs[i].name)) {
      FetchTells(specs[i], servers(specs[i].name));
    }
  }

  /** All there, and all exact. */
  lemma AllExactVerdict(specs: seq<Spec>, servers: string -> Server, hash: Bytes -> string,
        requirePresent: bool, j: nat)
    requires j < |specs| && AllExact(specs, servers, hash)
    ensures Verdict(specs, servers, hash, requirePresent) == Some(false)
  {
    assert !Absent(servers(specs[j].name));
  }

  /** All there, and one not exact. */
  lemma DriftMeansNone(specs: seq<Spec>, servers: string -> Server, hash: Bytes -> string,
        requirePresent: bool, j: nat, k: nat)
    requires j < |specs| && k < |specs|
    requires !Absent(servers(specs[j].name)) && !Exact(specs[k], servers(specs[k].name), hash)
    ensures Verdict(specs, servers, hash, requirePresent) == None
  {
  }

  /** The names with status 200, in order. */
  method Present(c: Collected, specs: seq<Spec>) returns (present: seq<string>)
    requires forall s | s in specs :: s.name in c.statuses
    ensures |present| <= |specs|
    ensures present == [] <==> forall s | s in specs :: c.statuses[s.name] != 200
    ensures |present| == |specs| <==> forall s | s in specs :: c.statuses[s.name] == 200
  {
    present := [];
    for k := 0 to |specs|
      invariant |present| <= k
      invariant present == [] <==> forall s | s in specs[..k] :: c.statuses[s.name] != 200
      invariant |present| == k <==> forall s | s in specs[..k] :: c.statuses[s.name] == 200
    {
      assert specs[..k + 1] == specs[..k] + [specs[k]];
      if c.statuses[specs[k].name] == 200 {
        present := present + [specs[k].name];
      }
    }
    assert specs[..|specs|] == specs;
  }

  /** The last loop: the first artefact whose bytes are not exact, and how. */
  method FirstDrift(c: Collected, specs: seq<Spec>, servers: string -> Server, hash: Bytes -> string)
    returns (r: Option<(nat, VerifyError)>)
    requires Holds(c, specs, servers, |specs|)
    requires forall s | s in specs :: s.name in c.statuses && c.statuses[s.name] == 200
    ensures r.None? <==> AllExact(specs, servers, hash)
    ensures r.Some? ==> r.value.1 == SizeDrifted || r.value.1 == HashDrifted
    ensures r.Some? ==> r.value.0 < |specs| && !Exact(specs[r.value.0], servers(specs[r.value.0].name), hash)
  {
    for k := 0 to |specs|
      invariant forall i | 0 <= i < k :: Exact(specs[i], servers(specs[i].name), hash)
    {
      CollectedTells(c, specs, servers, hash, k);
      var checked := ValidateBytes(specs[k], c.payloads[specs[k].name], hash);
      if checked.Fail? {
        return Some((k, checked.error));
      }
    }
    r := None;
  }

  predicate NoneOdd(specs: seq<Spec>, servers: string -> Server) {
    forall i | 0 <= i < |specs| :: !Odd(servers(specs[i].name))
  }

  /** No odd answer, one artefact absent and another one not. */
  predicate Mixed(specs: seq<Spec>, servers: string -> Server) {
    && NoneOdd(specs, servers)
    && (exists i | 0 <= i < |specs| :: Absent(servers(specs[i].name)))
    && exists i | 0 <= i < |specs| :: !Absent(servers(specs[i].name))
  }

  /** All there, and not all exact. */
  predicate Drifted(specs: seq<Spec>, servers: string -> Server, hash: Bytes -> string) {
    && NoneOdd(specs, servers) && !AllExact(specs, servers, hash)
    && forall i | 0 <= i < |specs| :: !Absent(servers(specs[i].name))
  }

  /** classify_remote_artifacts: counts what is present, and compares the bytes when all is. The
      verdict depends on nothing else. */
  method Classify(specs: seq<Spec>, servers: string -> Server, hash: Bytes -> string, requirePresent: bool)
    returns (r: Result<bool, VerifyError>)
    requires DistinctNames(specs)
    ensures r.Ok? <==> Verdict(specs, servers, hash, requirePresent).Some?
    ensures r.Ok? ==> Some(r.value) == Verdict(specs, servers, hash, requirePresent)
    ensures r == Err(Broke) <==> Breaks(specs, servers)
    ensures r == Err(StillMissing) <==> AllAbsent(specs, servers) && requirePresent
    ensures r == Err(Partial) <==> Mixed(specs, servers)
    ensures r == Err(SizeDrifted) || r == Err(HashDrifted) <==> Drifted(specs, servers, hash)
    ensures r == Err(BadStatus) || r == Err(NotFetched) || r == Err(Broke) <==> !NoneOdd(specs, servers)
  {
    var collected := Collect(specs, servers);
    if collected.Err? {
      var i :| 0 <= i < |specs| && FirstOdd(specs, servers, i)
        && collected.error == OddError(servers(specs[i].name));
      BreaksExactly(specs, servers, i);
      OddMeansNone(specs, servers, hash, requirePresent, i);
      return Err(collected.error);
    }
    var c := collected.value;
    assert !Breaks(specs, servers);
    AbsenceCollected(c, specs, servers, hash);
    NoneOddCollected(c, specs, servers);
    var present := Present(c, specs);
    if present == [] {
      return if requirePresent then Err(StillMissing) else Ok(true);
    }
    ghost var j :| 0 <= j < |specs| && c.statuses[specs[j].name] == 200;
    if |present| != |specs| {
      ghost var i :| 0 <= i < |specs| && c.statuses[specs[i].name] != 200;
      MixtureIsRefused(specs, servers, hash, requirePresent, i, j);
      return Err(Partial);
    }
    var drifted := FirstDrift(c, specs, servers, hash);
    if drifted.Some? {
      DriftMeansNone(specs, servers, hash, requirePresent, j, drifted.value.0);
      return Err(drifted.value.1);
    }
    AllExactVerdict(specs, servers, hash, requirePresent, j);
    r := Ok(false);
  }

  /** Main result: the order of the artefacts does not matter, nor does listing one twice. */
  lemma OrderDoesNotMatter(a: seq<Spec>, b: seq<Spec>, servers: string -> Server, hash: Bytes -> string,
        requirePresent: bool)
    requires forall s :: s in a <==> s in b
    ensures Verdict(a, servers, hash, requirePresent) == Verdict(b, servers, hash, requirePresent)
  {
    SameFacts(a, b, servers, hash);
    SameFacts(b, a, servers, hash);
  }

  lemma SameFacts(a: seq<Spec>, b: seq<Spec>, servers: string -> Server, hash: Bytes -> string)
    requires forall s :: s in b ==> s in a
    ensures AllAbsent(a, servers) ==> AllAbsent(b, servers)
    ensures AllExact(a, servers, hash) ==> AllExact(b, servers, hash)
  {
    forall i | 0 <= i < |b|
      ensures AllAbsent(a, servers) ==> Absent(servers(b[i].name))
      ensures AllExact(a, servers, hash) ==> Exact(b[i], servers(b[i].name), hash)
    {
      assert b[i] in b;
      var j :| 0 <= j < |a| && a[j] == b[i];
    }
  }

  /** An attempt that ends the retries: it has a verdict, or it breaks. */
  predicate Decisive(specs: seq<Spec>, servers: string -> Server, hash: Bytes -> string, requirePresent: bool) {
    Verdict(specs, servers, hash, requirePresent).Some? || Breaks(specs, servers)
  }

  /** Attempt k is the first that ends the retries. */
  predicate FirstDecisive(specs: seq<Spec>, passes: seq<string -> Server>, hash: Bytes -> string,
        requirePresent: bool, k: nat)
    requires k < |passes|
  {
    && Decisive(specs, passes[k], hash, requirePresent)
    && forall i | 0 <= i < k :: !Decisive(specs, passes[i], hash, requirePresent)
  }

  /** verify_remote: passes[k] is what the servers do during attempt k + 1. The outcome is that of the
      first decisive attempt, and of that attempt alone: its verdict, or the error that breaks it. */
  method VerifyRemote(specs: seq<Spec>, passes: seq<string -> Server>, hash: Bytes -> string,
        requirePresent: bool, retries: nat)
    returns (r: Result<bool, VerifyError>)
    requires DistinctNames(specs) && |passes| >= retries
    ensures r.Ok? ==> exists k | 0 <= k < retries ::
      FirstDecisive(specs, passes, hash, requirePresent, k)
      && Verdict(specs, passes[k], hash, requirePresent) == Some(r.value)
    ensures r == Err(Broke) ==> exists k | 0 <= k < retries ::
      FirstDecisive(specs, passes, hash, requirePresent, k) && Breaks(specs, passes[k])
    ensures r.Err? && r != Err(Broke) <==>
      forall k | 0 <= k < retries :: !Decisive(specs, passes[k], hash, requirePresent)
  {
    var lastError: Option<VerifyError> := None;
    for attempt := 1 to retries + 1
      invariant forall i | 0 <= i < attempt - 1 :: !Decisive(specs, passes[i], hash, requirePresent)
      invariant lastError != Some(Broke)
    {
      var publishNeeded := Classify(specs, passes[attempt - 1], hash, requirePresent);
      if publishNeeded.Ok? || publishNeeded.error == Broke {
        assert FirstDecisive(specs, passes, hash, requirePresent, attempt - 1);
        return publishNeeded;
      }
      lastError := Some(publishNeeded.error);
      if attempt == retries {
        break;
      }
    }
    r := Err(if lastError.Some? then lastError.value else NoAttempt);
  }

  /** Which of the three ends it comes to is decided: no attempt both has a verdict and breaks. */
  lemma VerdictOrBreak(specs: seq<Spec>, servers: string -> Server, hash: Bytes -> string, requirePresent: bool)
    requires Breaks(specs, servers)
    ensures Verdict(specs, servers, hash, requirePresent) == None
  {
    var i :| 0 <= i < |specs| && servers(specs[i].name).BreaksOff? && FirstOdd(specs, servers, i);
    OddMeansNone(specs, servers, hash, requirePresent, i);
  }
}
