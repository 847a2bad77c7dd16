/** Chains of releases: what folding the renderer over any list of releases gives. */
module ReleaseChain {
  import opened Results
  import opened Text
  import opened Formats
  import opened Kustomization
  import opened PatchText
  import opened Rewriter

  datatype Release = Release(digest: string, sha: string)

  predicate ValidRelease(r: Release) {
    IsDigest(r.digest) && IsSha64(r.sha)
  }

  function JobName(r: Release): string
    requires ValidRelease(r)
  {
    DerivedJobName(r.digest, r.sha)
  }

  predicate SameIdentity(a: Release, b: Release)
    requires ValidRelease(a) && ValidRelease(b)
  {
    a.digest == b.digest && a.sha[..24] == b.sha[..24]
  }

  /** Each release rendered on the output of the one before. */
  function RenderChain(text: string, releases: seq<Release>): Result<string, GateError>
    decreases |releases|
  {
    if releases == [] then Ok(text)
    else
      var next :- Render(text, releases[0].digest, releases[0].sha);
      RenderChain(next, releases[1..])
  }

  // ---------------------------------------------------------------- one rewrite after another

  /** A second rewrite overwrites the first. */
  lemma NewBodyTwice(body: string, d1: string, d2: string)
    requires OneSelector(body) && Terminated(LfOnly, body) && IsDigest(d1) && IsDigest(d2)
    ensures OneSelector(NewBody(body, d1))
    ensures NewBody(NewBody(body, d1), d2) == NewBody(body, d2)
  {
    var lines, k := BodyLines(body), SelectorIndex(body);
    NewBodyLines(body, d1);
    assert lines[k := NewSelector(d1)][k := NewSelector(d2)] == lines[k := NewSelector(d2)];
  }

  /** All rewrites of one body have the same size. */
  lemma RewriteSize(body: string, a: Release, b: Release)
    requires OneSelector(body) && Terminated(LfOnly, body) && ValidRelease(a) && ValidRelease(b)
    ensures ByteLength(Rewrite(body, a.digest, a.sha)) == ByteLength(Rewrite(body, b.digest, b.sha))
  {
    BodySize(body, a.digest);
    BodySize(body, b.digest);
    DerivedJobNameParts(a.digest, a.sha);
    DerivedJobNameParts(b.digest, b.sha);
    PatchSize(JobName(a), JobName(b));
    ByteLengthAppend(NewBody(body, a.digest), ReleasePatch(JobName(a)));
    ByteLengthAppend(NewBody(body, b.digest), ReleasePatch(JobName(b)));
  }

  lemma BodySize(body: string, digest: string)
    requires OneSelector(body) && Terminated(LfOnly, body) && IsDigest(digest)
    ensures ByteLength(NewBody(body, digest)) == ByteLength(Before(body)) + 82 + ByteLength(After(body))
  {
    NewBodyFrame(body, digest);
    NewSelectorLine(digest);
    ByteLengthAscii(NewSelector(digest));
    ByteLengthAppend(Before(body) + NewSelector(digest), After(body));
    ByteLengthAppend(Before(body), NewSelector(digest));
  }

  /** When a release may follow another; inBlock tells whether the base's selector line lies
      in its image entry. */
  predicate MayFollow(inBlock: bool, a: Release, b: Release)
    requires ValidRelease(a)
  {
    && ValidRelease(b)
    && !SameIdentity(a, b)
    && (inBlock || a.digest == b.digest)
  }

  lemma RewriteHasNoHiddenKey(body: string, digest: string)
    requires OneSelector(body) && Terminated(LfOnly, body) && IsDigest(digest)
    ensures OneSelector(NewBody(body, digest)) && !HiddenKey(NewBody(body, digest))
  {
    NewBodyLines(body, digest);
    EndsWithLf(NewSelector(digest));
  }

  /** The second of two renders depends on the base body and the two releases only. */
  lemma RenderAgain(text: string, a: Release, b: Release)
    requires Render(text, a.digest, a.sha).Ok?
    ensures ValidRelease(a) && BaseParts(text).Ok?
    ensures var body := BaseParts(text).value.body;
      var next := Render(text, a.digest, a.sha).value;
      && (Render(next, b.digest, b.sha).Ok? <==> MayFollow(SelectorInBlock(body), a, b))
      && (MayFollow(SelectorInBlock(body), a, b) ==>
            Render(next, b.digest, b.sha).value == Rewrite(body, b.digest, b.sha))
  {
    RenderSucceeds(text, a.digest, a.sha);
    AcceptedShape(text);
    var p := BaseParts(text).value;
    var next := Render(text, a.digest, a.sha).value;
    RenderSucceeds(next, b.digest, b.sha);
    RewriteHasNoHiddenKey(p.body, a.digest);
    RewrittenSelector(p.body, p.kind, p.value, a.digest);
    if ValidRelease(b) {
      NewBodyTwice(p.body, a.digest, b.digest);
      RewriteSize(p.body, a, b);
    }
  }

  // ---------------------------------------------------------------- whole chains

  /** Every release of the list may follow the one before it, the first of them a. */
  predicate Follows(inBlock: bool, a: Release, rest: seq<Release>)
    requires ValidRelease(a)
    decreases |rest|
  {
    rest == [] || (MayFollow(inBlock, a, rest[0]) && Follows(inBlock, rest[0], rest[1..]))
  }

  function Last(releases: seq<Release>): Release
    requires releases != []
  {
    releases[|releases| - 1]
  }

  /** What a render leaves behind for the rest of a chain. */
  lemma RenderedBase(text: string, a: Release)
    requires Render(text, a.digest, a.sha).Ok?
    ensures ValidRelease(a) && BaseParts(text).Ok? && SoundBody(BaseParts(text).value.body)
    ensures var body := BaseParts(text).value.body;
      var next := Render(text, a.digest, a.sha).value;
      && next == Rewrite(body, a.digest, a.sha)
      && BaseParts(next).Ok? && BaseParts(next).value.body == NewBody(body, a.digest)
      && SelectorInBlock(BaseParts(next).value.body) == SelectorInBlock(body)
  {
    RenderSucceeds(text, a.digest, a.sha);
    AcceptedShape(text);
    var p := BaseParts(text).value;
    RewrittenSelector(p.body, p.kind, p.value, a.digest);
  }

  /** When a chain may succeed: its first render does, and each release may follow the one before. */
  predicate ChainAllowed(text: string, releases: seq<Release>)
    requires releases != []
  {
    && Render(text, releases[0].digest, releases[0].sha).Ok?
    && ValidRelease(releases[0]) && BaseParts(text).Ok?
    && Follows(SelectorInBlock(BaseParts(text).value.body), releases[0], releases[1..])
  }

  /** What a chain prints: a rewrite of the ORIGINAL body for the LAST release. */
  ghost predicate PrintsLast(text: string, releases: seq<Release>, result: string)
    requires releases != []
  {
    && BaseParts(text).Ok? && ValidRelease(Last(releases)) && SoundBody(BaseParts(text).value.body)
    && result == Rewrite(BaseParts(text).value.body, Last(releases).digest, Last(releases).sha)
  }

  lemma OneLink(text: string, a: Release)
    ensures RenderChain(text, [a]) == Render(text, a.digest, a.sha)
    ensures Render(text, a.digest, a.sha).Ok? ==>
      ChainAllowed(text, [a]) && PrintsLast(text, [a], Render(text, a.digest, a.sha).value)
  {
    assert [a][1..] == [];
    if Render(text, a.digest, a.sha).Ok? {
      RenderedBase(text, a);
    }
  }

  /** A longer chain is its first render, and the rest on what that printed. */
  lemma LinkUnfolds(text: string, releases: seq<Release>)
    requires |releases| > 1
    ensures Render(text, releases[0].digest, releases[0].sha).Err? ==> RenderChain(text, releases).Err?
    ensures Render(text, releases[0].digest, releases[0].sha).Ok? ==>
      RenderChain(text, releases) == RenderChain(Render(text, releases[0].digest, releases[0].sha).value, releases[1..])
    ensures Last(releases[1..]) == Last(releases)
  {
  }

  lemma LinkAllowed(text: string, releases: seq<Release>)
    requires |releases| > 1 && Render(text, releases[0].digest, releases[0].sha).Ok?
    ensures ChainAllowed(text, releases)
       <==> ChainAllowed(Render(text, releases[0].digest, releases[0].sha).value, releases[1..])
  {
    RenderedBase(text, releases[0]);
    RenderAgain(text, releases[0], releases[1]);
  }

  lemma LinkPrints(text: string, releases: seq<Release>, result: string)
    requires |releases| > 1 && Render(text, releases[0].digest, releases[0].sha).Ok?
    requires PrintsLast(Render(text, releases[0].digest, releases[0].sha).value, releases[1..], result)
    ensures PrintsLast(text, releases, result)
  {
    RenderedBase(text, releases[0]);
    LinkUnfolds(text, releases);
    NewBodyTwice(BaseParts(text).value.body, releases[0].digest, Last(releases).digest);
  }

  /** Exactly when a chain succeeds, and that its output is a rewrite of the ORIGINAL body for
      the LAST release: no earlier release leaves a trace. */
  lemma {:induction false} ChainSucceeds(text: string, releases: seq<Release>)
    requires releases != []
    ensures RenderChain(text, releases).Ok? <==> ChainAllowed(text, releases)
    ensures RenderChain(text, releases).Ok? ==> PrintsLast(text, releases, RenderChain(text, releases).value)
    decreases |releases|
  {
    var a := releases[0];
    if |releases| == 1 {
      assert releases == [a];
      OneLink(text, a);
    } else {
      LinkUnfolds(text, releases);
      if Render(text, a.digest, a.sha).Ok? {
        var next := Render(text, a.digest, a.sha).value;
        ChainSucceeds(next, releases[1..]);
        LinkAllowed(text, releases);
        if RenderChain(next, releases[1..]).Ok? {
          LinkPrints(text, releases, RenderChain(next, releases[1..]).value);
        }
      }
    }
  }

  lemma {:induction false} SameDigestThroughout(a: Release, rest: seq<Release>)
    requires ValidRelease(a) && Follows(false, a, rest) && rest != []
    ensures Last(rest).digest == a.digest
    decreases |rest|
  {
    if |rest| > 1 {
      SameDigestThroughout(rest[0], rest[1..]);
      assert Last(rest[1..]) == Last(rest);
    }
  }

  /** History independence: a chain gives what its last release alone gives on the base. */
  lemma HistoryIndependence(text: string, releases: seq<Release>)
    requires releases != [] && RenderChain(text, releases).Ok?
    ensures BaseParts(text).Ok? && ValidRelease(Last(releases))
    ensures Identity(BaseParts(text).value) != Some((Last(releases).digest, Last(releases).sha[..24])) ==>
      Render(text, Last(releases).digest, Last(releases).sha) == RenderChain(text, releases)
  {
    ChainSucceeds(text, releases);
    var a, last := releases[0], Last(releases);
    RenderSucceeds(text, a.digest, a.sha);
    RenderSucceeds(text, last.digest, last.sha);
    var p := BaseParts(text).value;
    RewriteSize(p.body, a, last);
    if !SelectorInBlock(p.body) && |releases| > 1 {
      SameDigestThroughout(a, releases[1..]);
      assert Last(releases[1..]) == last;
    }
  }

  /** The one exception: the last release is the base's own. Rendering it alone is refused;
      the chain then returns to the base byte for byte, provided the base ended its selector
      line with LF. */
  lemma ReturnToBase(text: string, releases: seq<Release>)
    requires releases != [] && RenderChain(text, releases).Ok? && BaseParts(text).Ok?
    requires ValidRelease(Last(releases))
    requires Identity(BaseParts(text).value) == Some((Last(releases).digest, Last(releases).sha[..24]))
    ensures Render(text, Last(releases).digest, Last(releases).sha).Err?
    ensures RenderChain(text, releases) == Ok(text) <==> EndsWith(SelectorLine(BaseParts(text).value.body), "\n")
  {
    ChainSucceeds(text, releases);
    var last := Last(releases);
    RenderSucceeds(text, last.digest, last.sha);
    BaseText(text, last);
    BodyComparison(BaseParts(text).value.body, last.digest, ReleasePatch(JobName(last)));
  }

  lemma BaseText(text: string, r: Release)
    requires BaseParts(text).Ok? && ValidRelease(r)
    requires Identity(BaseParts(text).value) == Some((r.digest, r.sha[..24]))
    ensures SoundBody(BaseParts(text).value.body)
    ensures text == BaseParts(text).value.body + ReleasePatch(JobName(r))
    ensures SelectorKind(SelectorLine(BaseParts(text).value.body)) == Digest
    ensures SelectorValue(SelectorLine(BaseParts(text).value.body)) == r.digest
  {
    AcceptedShape(text);
    var p := BaseParts(text).value;
    DerivedJobNameParts(r.digest, r.sha);
    var name :| IsJobName(name)
      && text == p.body + ReleasePatch(name)
      && JobDigestPart(name) == DigestHex(p.value)[..12]
      && p.priorRelease == Some(JobReleasePart(name));
    JobNameByParts(name, JobName(r));
  }

  lemma MiddleEqual(pre: string, x: string, y: string, post: string)
    requires |x| == |y|
    ensures pre + x + post == pre + y + post <==> x == y
  {
    assert (pre + x + post)[|pre|..|pre| + |x|] == x;
    assert (pre + y + post)[|pre|..|pre| + |x|] == y;
  }

  lemma SelectorIsNew(line: string, digest: string)
    requires IsLine(PyBreaks, line) && IsSelectorLine(line) && IsDigest(digest)
    requires SelectorKind(line) == Digest && SelectorValue(line) == digest
    ensures |line| == |NewSelector(digest)|
    ensures line == NewSelector(digest) <==> EndsWith(line, "\n")
  {
  }

  lemma BodyComparison(body: string, digest: string, patch: string)
    requires OneSelector(body) && Terminated(LfOnly, body) && IsDigest(digest)
    requires SelectorKind(SelectorLine(body)) == Digest && SelectorValue(SelectorLine(body)) == digest
    ensures NewBody(body, digest) + patch == body + patch <==> EndsWith(SelectorLine(body), "\n")
  {
    var l, pre, post := SelectorLine(body), Before(body), After(body) + patch;
    NewBodyFrame(body, digest);
    SelectorIsNew(l, digest);
    AppendToLast(pre, NewSelector(digest), After(body), patch);
    AppendToLast(pre, l, After(body), patch);
    MiddleEqual(pre, NewSelector(digest), l, post);
  }

  lemma AppendToLast(a: string, b: string, c: string, d: string)
    ensures a + b + c + d == a + b + (c + d)
  {
  }

  lemma JobNameByParts(a: string, b: string)
    requires IsJobName(a) && IsJobName(b)
    requires JobDigestPart(a) == JobDigestPart(b) && JobReleasePart(a) == JobReleasePart(b)
    ensures a == b
  {
  }

  /** A chain cannot grow: any two chains on one base end in texts of the same size. */
  lemma ChainSize(text: string, m: seq<Release>, n: seq<Release>)
    requires m != [] && n != []
    requires RenderChain(text, m).Ok? && RenderChain(text, n).Ok?
    ensures ByteLength(RenderChain(text, m).value) == ByteLength(RenderChain(text, n).value)
  {
    ChainSucceeds(text, m);
    ChainSucceeds(text, n);
    RewriteSize(BaseParts(text).value.body, Last(m), Last(n));
  }

  /** Two releases in a row keep the Job name exactly when both hexadecimal prefixes repeat,
      which takes two different digests: a same-digest step always rotates the name. */
  lemma JobNameRotates(text: string, a: Release, b: Release)
    requires RenderChain(text, [a, b]).Ok?
    ensures ValidRelease(a) && ValidRelease(b)
    ensures JobName(a) == JobName(b) <==>
      DigestHex(a.digest)[..12] == DigestHex(b.digest)[..12] && a.sha[..24] == b.sha[..24]
    ensures JobName(a) == JobName(b) ==> a.digest != b.digest
  {
    var releases := [a, b];
    ChainSucceeds(text, releases);
    assert releases[1..][0] == b;
    DerivedJobNameCollides(a.digest, a.sha, b.digest, b.sha);
  }
}
