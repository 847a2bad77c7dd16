# Verification of the DevPath shared library's release pipeline

A Dafny model of the parts of the repository that decide what is released, and proofs about them. The
release gate, the image publisher, the Maven check, the concurrent index migration and the lazily
created bucket are each modelled with the branches, constants and failures of the code; exceptions are
results. `dafny verify dfyconfig.toml` checks the whole project.

| files | component |
|---|---|
| `Results`, `Text`, `Formats`, `Patterns` | failure results; decoded text, its lines and its encoded size; the fixed formats and constants, and that each format is its regular expression |
| `Kustomization`, `PatchText`, `Rewriter`, `ReleaseChain` | the kustomization parser and printer, print/parse inverse, chains of releases |
| `BaseLanguage`, `PatchMeaning` | the bases that are accepted, without the parser; what the printed patch does to the Job |
| `RewriterLimits`, `RewriterWitnesses` | concrete bases: one that renders every release, two that are accepted and render none |
| `WriterFence` | the replica fence: renderer, validator and its language |
| `Json`, `JsonRoundTrip`, `JsonCompare`, `OrderedJson` | JSON as the scripts read and print it (sections 2 to 7 of RFC 8259), round trip, exact comparison |
| `JsonGrammar`, `JsonSpelling`, `Numerals` | the grammar of JSON texts and its trees, the one spelling that is written, the value of numerals and their nearest doubles |
| `Evidence`, `EvidenceProofs`, `EvidenceSize`, `EvidenceDocument` | migration result evidence: builder, validator, language, size, and the document name by name |
| `SealedRelease`, `SealedLanguage` | the two hash links from a release hash to its facts; the calls that are accepted, by path |
| `MigrationCommit`, `CommitProtocol`, `CommitSteps` | the two commit checks; many runs over a linear, fast-forward-only main; when each step goes on |
| `BoundedRead`, `AtomicRewrite` | reading a file whole; rewriting it in place under crashes |
| `BaseImages`, `RemoteImage`, `RemoteLanguage` | the pinned base images; registry checks, and the replies that are accepted, by path |
| `ImagePublisher`, `TagProtocol` | postflight loop, the write-once tag |
| `ImageEvidence`, `ImageEvidenceSize`, `ImageDocument` | the producer's evidence file: writer, validator, language, size, and the document name by name |
| `Quoting`, `IndexMigration` | identifier quoting; the index migration as statements against a catalog |
| `LazyBucket` | double-checked locking over any number of threads |
| `MavenCoordinate` | all-or-nothing classification and its retries |

Text is a sequence of Unicode characters after UTF-8 decoding; sizes are those of its encoding. SHA-256
is a function parameter, and a theorem that needs it to be collision-free asks that only of the texts
at hand. Protocols are state machines whose runs are arbitrary sequences of actions: steps of any
participant, crashes, failures and outside interference.

The main operations have a second account that does not use their functions or tables: regular
expressions with their own semantics, a grammar with trees, documents spelled out member by member,
paths into parsed documents, a reader of the printed patch and of the printed fence, the catalog before
and after a run. The main theorems connect the two in both directions.

## What the proofs found

- A base can be accepted and yet no release rendered on it: when its selector line ends in a break that
  `str.splitlines` sees and regular expressions do not, what follows may become a second `patches:` key
  (`RewriterLimits.HiddenKeyFails`), and when its one two-space selector line lies outside the image
  entry, nothing in the entry is rewritten (`RewriterWitnesses.ElsewhereFails`).
  `Rewriter.RenderSucceeds` gives the exact condition, and `RewriterWitnesses.EveryReleaseRenders` a
  base on which every release renders.
- A chain may end on the base's own release, which rendering alone refuses; then the chain gives the
  base back (`ReleaseChain.ReturnToBase`). It does happen: `RewriterWitnesses.ThereAndBack`.
- A restarted rewrite of a file that was already rewritten fails instead of doing nothing; the text is
  rewritten at most once (`AtomicRewrite.RewrittenAtMostOnce`).
- A bounded read of a file may request more than its size plus one byte in total: an ordinary file of
  ten bytes asks for 11 and then for 1 (`BoundedRead.TenBytesAskTwelve`). The requests stay within size
  plus one exactly when every read before the last is answered in full (`BoundedRead.RequestsBounded`);
  when reads give all they can, that is when the size is a multiple of the chunk
  (`BoundedRead.UndisturbedRequests`).
- Image evidence has three accepted spellings, because 1, `true` and 1.0 are equal in Python; the
  comparison with the producer's context closes the gap (`ImageEvidence.ThreeSpellings`,
  `ImageEvidence.VerifiedIsWritten`).
- Quoting can be undone for every identifier exactly when no proper end of the quote string is also its
  beginning (`Quoting.RoundTripExactlyWhen`); `IndexMigration.StatementsReadExactlyWhen` gives the
  quotes with which both statements mean what they are printed for. The double quote is one.
- The index migration converges exactly when the table is an ordinary one with the column and without
  duplicates, the name is free or held by an index that may be dropped, and the session has the default
  tablespace; under another tablespace it reports success and rebuilds on every run
  (`IndexMigration.ConvergesExactlyWhen`, `IndexMigration.OtherTablespaceRebuilds`).
- A ready bucket need not have its policy (`LazyBucket.ReadyWithoutPolicy`). It has it exactly when the
  pass that made it ready met no bucket, or one with its policy (`LazyBucket.PolicyAfterPass`, and
  `LazyBucket.FlagMeans` for every interleaving).
- The repository's `README.md:67` speaks of `--force-with-lease`; the workflow pushes plainly, and
  `tests/release/test_immutable_publication.py:327` asserts so. The model follows the workflow. The
  order of the commit protocol's steps is that of lines 433 to 564 of the migration release workflow,
  the order of the publisher's that of lines 137 to 180 of the CI workflow.

## Model

| member | source | states |
|---|---|---|
| Text.SplitJoin | scripts/release/migration_release_gate.py:491-492 | Splitting a join of well-formed lines gives the lines back, for LF and for Python's line breaks |
| Text.JoinSplit | scripts/release/migration_release_gate.py:491-492 | Joining the split lines gives any text back |
| Formats.DerivedJobNameParts | scripts/release/migration_release_gate.py:395-407 | The derived Job name has the form the parser expects, and both prefixes can be read back from it |
| Formats.DerivedJobNameCollides | scripts/release/migration_release_gate.py:395-407 | Two releases share a Job name exactly when the 12-digit and the 24-digit prefix both agree |
| Patterns.ReleaseIdIs | scripts/release/migration_release_gate.py:74 | The release ids that are accepted are what the regular expression matches, item by item |
| Patterns.JobNameIs | scripts/release/migration_release_gate.py:84-86 | So are the Job names, with 12 and 24 hexadecimal digits |
| Patterns.DigestIs | scripts/release/migration_release_gate.py:77-100 | So are the digests, those of zeroes apart |
| Patterns.LoginIs | scripts/release/migration_release_gate.py:80-198 | So are the logins: one character, or up to 39 that do not start or end with a dash |
| Patterns.UtcIs | scripts/release/migration_release_gate.py:207-214 | So are the times: the pattern, and a day that the calendar has |
| PatchText.PatchNamesItsJob | scripts/release/migration_release_gate.py:421-438 | The printed patch splits into its lines, exactly one of which names a Job, the one it was printed for |
| PatchMeaning.RenderStartsTheJob | scripts/release/migration_release_gate.py:421-633 | Read by a reader of its own, the patch of every successful render takes the suspended Job to the Job of the derived name that is not suspended, changes nothing else of it, and touches no other resource |
| Kustomization.MigrationImageBlock | scripts/release/migration_release_gate.py:491-513 | The scan loop computes the image entry and the first later line that is indented no deeper |
| Kustomization.RenderMigrationKustomization | scripts/release/migration_release_gate.py:597-633 | The in-place assignment of the selector line computes the specified render, errors included |
| Rewriter.AcceptedShape | scripts/release/migration_release_gate.py:529-594 | Every accepted base is a key-free body with one exact selector, followed by nothing or by the whole printed patch of one Job bound to its digest |
| BaseLanguage.BaseLanguageIs | scripts/release/migration_release_gate.py:529-594 | Exactly which texts are accepted as a base, and what is read from them, said on their lines and without any function of the parser |
| BaseLanguage.ValidatesExactly | scripts/release/migration_release_gate.py:636-651 | The closing validation accepts exactly the bases that carry this digest and this release |
| Rewriter.RewriteValidates | scripts/release/migration_release_gate.py:597-651 | Validation of a print succeeds exactly when the base is renderable and the size fits, and re-parsing returns the printed digest and prefix |
| Rewriter.RenderSucceeds | scripts/release/migration_release_gate.py:597-633 | For every text, digest and hash: exactly when a render succeeds, in conditions a caller can check, and what it prints |
| Rewriter.RenderFrame | scripts/release/migration_release_gate.py:616-633 | Only the selector line and the patch tail differ from the base, and the new selector line is spelled out |
| RewriterLimits.HiddenKeyFails | scripts/release/migration_release_gate.py:529-633 | A concrete accepted base with its selector line in the image entry on which no release renders |
| RewriterWitnesses.EveryReleaseRenders | scripts/release/migration_release_gate.py:597-633 | A concrete base on which every valid release renders |
| RewriterWitnesses.ElsewhereFails | scripts/release/migration_release_gate.py:529-633 | A concrete accepted base with its selector line outside the image entry on which no release renders |
| ReleaseChain.RenderAgain | scripts/release/migration_release_gate.py:597-633 | A second render succeeds exactly when its release may follow, and prints the rewrite of the original body |
| ReleaseChain.ChainSucceeds | scripts/release/migration_release_gate.py:597-633 | Exactly which lists of releases can be rendered one on another, and that the result is the rewrite of the original body for the last one |
| ReleaseChain.HistoryIndependence | scripts/release/migration_release_gate.py:597-633 | A chain gives byte for byte what its last release alone gives on the base, unless that is the base's own release |
| ReleaseChain.ReturnToBase | scripts/release/migration_release_gate.py:608-613 | In that case the direct render is refused, and the chain gives the base back exactly when its selector line ends in LF |
| RewriterWitnesses.ThereAndBack | scripts/release/migration_release_gate.py:597-633 | On any rendered base one may release something else and then the same again, and is back byte for byte; the same at once is refused |
| RewriterWitnesses.ReturnHappens | scripts/release/migration_release_gate.py:608-613 | A concrete base and chain that end on the base's own release and give the base back |
| ReleaseChain.ChainSize | scripts/release/migration_release_gate.py:597-633 | Any two chains on one base end in texts of the same size, so no chain grows into the bound |
| ReleaseChain.JobNameRotates | scripts/release/migration_release_gate.py:395-407 | Successive releases keep the Job name only when both prefixes repeat, which takes two different digests |
| WriterFence.NoOverlap | scripts/release/migration_release_gate.py:45 | No match of the replica pattern starts inside another, although its white space spans lines |
| WriterFence.OverridesAre | scripts/release/migration_release_gate.py:485 | The resumed search finds every match of the replica pattern and nothing else |
| WriterFence.RenderFenceSucceeds | scripts/release/migration_release_gate.py:459-472 | Exactly when a fence can be rendered, and that it is appended to the unchanged base |
| WriterFence.FenceLanguage | scripts/release/migration_release_gate.py:475-488 | The validator accepts exactly the renderer's outputs and the bare fence |
| WriterFence.FenceInverse | scripts/release/migration_release_gate.py:449-488 | Stripping the fence recovers the base, the service can be read back, and no second fence can be rendered |
| WriterFence.OverrideIs | scripts/release/migration_release_gate.py:45 | Where the replica pattern matches: the word at the start of a line, white space of any length, a colon |
| WriterFence.FenceMeans | scripts/release/migration_release_gate.py:449-472 | Read by a reader of its own, the fence of every rendered text is one replica entry: this service, count zero |
| Json.RejectDuplicateKeys | scripts/release/migration_release_gate.py:106-112 | The dictionary holds every pair in document order, or some key repeats |
| JsonRoundTrip.ValueRead | scripts/release/migration_release_gate.py:115-129 | Parsing a printed value, whatever follows it, gives the value back and leaves the rest |
| JsonRoundTrip.DocumentRead | scripts/release/migration_release_gate.py:217-218 | A canonical document parses to the value it was printed for |
| JsonRoundTrip.CanonicalInjective | scripts/release/migration_release_gate.py:217-218 | Two values with one canonical text are equal |
| JsonGrammar.DocumentGrammar | scripts/release/migration_release_gate.py:115-129 | The parser accepts exactly the texts of the grammar, white space, escapes, surrogate pairs and numbers included, as the value of their tree, with no key twice in an object |
| JsonSpelling.CanonicalSpelling | scripts/release/migration_release_gate.py:217-218 | What is written is the tree of the value without white space, in ASCII, with the shortest escapes, and one line feed |
| Numerals.DecimalMeans | scripts/release/migration_release_gate.py:122 | The normal form of a decimal has its value and no trailing zero |
| Numerals.RoundsToNearest | scripts/release/immutable_migration_image.py:690 | The decimals that Python reads as one, or as two, are those with that nearest double |
| JsonCompare.ExactIsEquality | scripts/release/migration_release_gate.py:164-180 | The comparison accepts exactly values of the same meaning: same types at every depth, key order apart, floats as any given rounding has them |
| JsonCompare.ExactIsEquivalence | scripts/release/migration_release_gate.py:164-180 | The comparison is reflexive, symmetric and transitive |
| JsonCompare.DocumentsCompare | scripts/release/migration_release_gate.py:106-180 | Every parsed document has unique keys at every depth, so comparing two of them is equality of meaning, whatever the rounding of floats |
| EvidenceProofs.DocumentLanguage | scripts/release/migration_release_gate.py:1504-1660 | The field checks accept exactly the documents of valid records and determine the record |
| EvidenceProofs.EvidenceLanguage | scripts/release/migration_release_gate.py:1504-1668 | The validator accepts a text as a record exactly when the record is valid and the text is its one canonical text of at most 16,384 bytes |
| EvidenceProofs.OneSpelling | scripts/release/migration_release_gate.py:1504-1668 | Two accepted texts are equal exactly when their records are |
| EvidenceProofs.BuildSucceeds | scripts/release/migration_release_gate.py:1363-1501 | Behind its own checks the builder fails only on a workflow hash of zeroes or on size, and its output is accepted as the record asked for |
| EvidenceDocument.EvidenceSays | scripts/release/migration_release_gate.py:1456-1501 | Read as JSON, the text of a valid record is the document spelled out name by name, in order, with each field in its place |
| EvidenceDocument.HashesStand | scripts/release/migration_release_gate.py:1457-1497 | Looked up by path, the release, its two hashes, the run and the image digest are each under their own name |
| EvidenceDocument.CommitStands | scripts/release/migration_release_gate.py:1476-1493 | So are the five commit hashes of the gitops section |
| EvidenceDocument.RecordIsCheckedCommit | scripts/release/migration_release_gate.py:1504-1660 | A record is valid exactly when the commit check accepts its commit for its release and the remaining fields match their patterns |
| EvidenceDocument.BuildWrites | scripts/release/migration_release_gate.py:1363-1501 | Exactly which inputs the builder takes, condition by condition, and that it writes the record they ask for |
| EvidenceSize.EvidenceFits | scripts/release/migration_release_gate.py:1363-1501 | With ids of at most 100 digits the text of any valid record stays within 16,384 bytes |
| EvidenceSize.BuildNeverTooLarge | scripts/release/migration_release_gate.py:1363-1501 | With such approval ids the builder's checks and a non-zero hash are necessary and sufficient |
| SealedRelease.ReleaseHashBinds | scripts/release/migration_release_gate.py:299-392 | Under one release hash a second call is accepted exactly when release id, source commit and both texts are the same; the facts then agree |
| SealedRelease.SealedFacts | scripts/release/migration_release_gate.py:299-392 | Where each returned fact stands in the two documents, and that these are the documents the two hashes name |
| SealedRelease.SharedMigrationPinned | scripts/release/migration_release_gate.py:362-379 | In all accepted candidates the shared migration section is the same, key by key, apart from its source commit and image digest; no key can be added |
| SealedLanguage.SealedExactlyWhen | scripts/release/migration_release_gate.py:299-392 | Exactly which calls are accepted and with which facts, as hashes of the two texts and literal values at their paths |
| MigrationCommit.FactsLanguage | scripts/release/migration_release_gate.py:1245-1303 | Release, commit, tree and mode leave no freedom: the full check accepts exactly the facts made from them |
| MigrationCommit.SourceLanguage | scripts/release/migration_release_gate.py:1306-1360 | The pre-check accepts exactly a head that is the base without child facts, or its exact one-parent child |
| MigrationCommit.ReuseIsPreCheck | scripts/release/migration_release_gate.py:1245-1360 | The full check of a reused commit is the pre-check of that commit as head, plus equal trees |
| MigrationCommit.PublishedIsReusable | scripts/release/migration_release_gate.py:1245-1360 | The full check of a published commit is the pre-check of a later run that finds it as head, plus the base before the push and equal trees |
| MigrationCommit.ModeIsDecided | scripts/release/migration_release_gate.py:1291-1360 | The mode decided on a head is the only one in which any commit with that head before the push can be accepted |
| CommitProtocol.StepKeeps | scripts/release/migration_release_gate.py:1777-1881 | Every action keeps the linear chain, every run's knowledge and the truth of all evidence, and rewrites no history |
| CommitProtocol.Agreement | scripts/release/migration_release_gate.py:1245-1360 | In every interleaving all evidence for one base names the same commit, tree and release |
| CommitProtocol.EvidenceIsPermanent | scripts/release/migration_release_gate.py:1014-1022 | After any further actions an evidenced commit is still on main, directly after its base |
| CommitProtocol.WhoMovesMain | tests/release/test_immutable_publication.py:327-344 | Main moves by one commit at a time, and by a run only at its push, from its own base to its own child |
| CommitProtocol.ReuseNeverMoves | scripts/release/migration_release_gate.py:1340-1360 | A reusing run changes neither main nor the commits, and goes on reusing |
| CommitProtocol.PreCheckPosition | scripts/release/migration_release_gate.py:1777-1829 | In a reachable state the pre-check says published exactly at the base, and reused only at its successor |
| CommitProtocol.NextRunReuses | scripts/release/migration_release_gate.py:1306-1360 | Once a base has evidence, a run for that release is let in exactly at the evidenced commit, in the reused mode, and only that mode passes inspection |
| CommitProtocol.AloneItPublishes | scripts/release/migration_release_gate.py:1777-1881 | An undisturbed run at the base publishes its child and writes the evidence for it, in eight steps; later steps add nothing |
| CommitProtocol.AloneItReuses | scripts/release/migration_release_gate.py:1777-1881 | An undisturbed run at an evidenced commit writes the same evidence in the reused mode and leaves main alone |
| CommitSteps.GoesOnExactlyWhen | scripts/release/migration_release_gate.py:1777-1881 | For each phase of a run exactly when its next step goes on, and that it stops otherwise |
| CommitSteps.EmissionMeans | scripts/release/migration_release_gate.py:1245-1303 | A step adds evidence only for a run that asked for it: one record, with the tree that this run reconstructed and the head it was given, of the exact child that main has right after the base |
| CommitSteps.MovedHeadStops | scripts/release/migration_release_gate.py:1777-1829 | A run whose commit is no longer the head stops, in either look, and leaves no evidence |
| BoundedRead.ReadRegularFile | scripts/release/migration_release_gate.py:221-264 | For every pattern of short reads: succeeds exactly for a regular file of allowed size that yields exactly that many bytes and keeps its identity, returns those bytes, never takes more than one byte beyond, and requests what the next rows are about |
| BoundedRead.RequestSum | scripts/release/migration_release_gate.py:238-246 | The requests of a successful read sum to the size, plus one, plus the shortfall of all reads before the last |
| BoundedRead.RequestsBounded | scripts/release/migration_release_gate.py:238-246 | They sum to at most the size plus one exactly when every read before the last was answered in full |
| BoundedRead.UndisturbedRequests | scripts/release/migration_release_gate.py:238-246 | When reads give all they can, the sum is the size plus one exactly for multiples of 65,536, and one more otherwise |
| BoundedRead.TenBytesAskTwelve | scripts/release/migration_release_gate.py:238-246 | A file of ten bytes read in one go: twelve bytes are requested |
| AtomicRewrite.TargetIsWhole | scripts/release/migration_release_gate.py:1705-1734 | At every point of every history, power loss included, the target holds the whole old or the whole rendered text |
| AtomicRewrite.ReturnMeansRendered | scripts/release/migration_release_gate.py:1705-1734 | A call that returns has put the rendered text in place and left no temporary |
| AtomicRewrite.LeftoverBlocks | scripts/release/migration_release_gate.py:1714-1716 | With a left-over temporary no call returns or touches the target |
| AtomicRewrite.ClosingCheckPasses | scripts/release/migration_release_gate.py:1729-1733 | After the rename the closing validation cannot fail |
| AtomicRewrite.RewrittenAtMostOnce | scripts/release/migration_release_gate.py:1705-1762 | Repeating a call that is cut short anywhere rewrites the text at most once |
| AtomicRewrite.MigrationJobFits | scripts/release/migration_release_gate.py:597-633 | The migration renderer validates what it prints and refuses its own output, as the results above need |
| AtomicRewrite.FenceJobFits | scripts/release/migration_release_gate.py:1737-1762 | So does the fence renderer |
| AtomicRewrite.OneThingAtATime | scripts/release/migration_release_gate.py:1717-1728 | A write adds no more than it may and stays off the disk, only fsync after the last write brings the temporary there, and only the rename of such a file changes the target |
| AtomicRewrite.AloneReturns | scripts/release/migration_release_gate.py:1705-1734 | A call that is left alone returns, with the rendered text in place and on disk, the old text replaced and no temporary |
| AtomicRewrite.AloneRaises | scripts/release/migration_release_gate.py:1705-1713 | When the printer raises, so does the call, and the disk is as it was |
| AtomicRewrite.MigrationIsWritten | scripts/release/migration_release_gate.py:1705-1734 | For the migration writer that text is what the renderer returns |
| AtomicRewrite.FenceIsWritten | scripts/release/migration_release_gate.py:1737-1762 | For the writer of the fence likewise |
| RemoteImage.ConfigDigestBinds | scripts/release/immutable_migration_image.py:229-280 | Two accepted replies with one config digest have the same config bytes and the same source commit |
| RemoteImage.ManifestDigestBinds | scripts/release/immutable_migration_image.py:229-280 | Under one manifest digest a second reply is accepted exactly when it is the same reply |
| RemoteImage.CandidateHasOneSource | scripts/release/immutable_migration_image.py:122-287 | One candidate config is never accepted for two source commits |
| RemoteLanguage.RemoteExactlyWhen | scripts/release/immutable_migration_image.py:229-280 | Exactly which replies are accepted and with which image, as hashes of the two texts and literal values at their paths |
| ImagePublisher.RunPostflight | scripts/release/immutable_migration_image.py:805-853 | The retry loop succeeds exactly when flag, digest and retries fit and some read within them is good before any breaks; it returns the first good read, and says published exactly when the flag does |
| ImagePublisher.FirstDecisiveIs | scripts/release/immutable_migration_image.py:834-849 | It succeeds exactly when some read is good and none before it broke |
| TagProtocol.StepKeeps | scripts/release/immutable_migration_image.py:343-367 | Every action keeps the tag, the log of pushes and the evidence consistent, and leaves a present tag as it is |
| TagProtocol.WriteOnce | scripts/release/immutable_migration_image.py:747-866 | Over any serialised, crashing runs a tag is pushed at most once and never changes once present |
| TagProtocol.EvidenceAgrees | scripts/release/immutable_migration_image.py:747-866 | All evidence for a SHA names the digest and config that the tag holds, and at most one says published |
| TagProtocol.WindowMatters | scripts/release/immutable_migration_image.py:773-802 | A foreign creation between recheck and push is replaced by the push: a concrete history |
| TagProtocol.PreflightDecides | scripts/release/immutable_migration_image.py:747-770 | Exactly what a first look at the tag makes of it: absent, the candidate, or the end of the run |
| TagProtocol.RecordSaysHow | scripts/release/immutable_migration_image.py:805-866 | A step adds evidence only at the end of a run, one record of what the tag holds, and it says published exactly when that run decided to push |
| TagProtocol.AlonePublishes | scripts/release/immutable_migration_image.py:747-866 | An undisturbed run on an absent tag pushes its image and writes that it published it |
| TagProtocol.AloneReuses | scripts/release/immutable_migration_image.py:747-866 | An undisturbed run on a tag that holds its candidate pushes nothing and writes that it reused it |
| ImageEvidence.EvidenceLanguage | scripts/release/immutable_migration_image.py:665-739 | The validator accepts exactly the canonical texts of valid records of at most 8,192 bytes, with the attempt written as 1, as true or as 1.0 |
| ImageEvidence.SpellingsDiffer | scripts/release/immutable_migration_image.py:690 | Two accepted texts of one record are equal exactly when they spell the attempt alike |
| ImageEvidence.ThreeSpellings | scripts/release/immutable_migration_image.py:690-739 | All three texts of a record that fits are accepted, and they are different |
| ImageEvidence.VerifiedIsWritten | scripts/release/immutable_migration_image.py:638-739 | Compared with a first attempt's context, exactly the producer's own text of a matching record is accepted |
| ImageEvidence.VerifiedExactly | scripts/release/immutable_migration_image.py:869-885 | For any context exactly which text of a record is accepted: the one that spells its attempt as the context does |
| ImageDocument.EvidenceSays | scripts/release/immutable_migration_image.py:638-739 | The accepted texts spell out the document name by name, and the producer writes the one whose attempt is the integer |
| ImageEvidenceSize.WrittenWheneverValid | scripts/release/immutable_migration_image.py:638-719 | With a run id of at most 100 digits the producer writes exactly the valid records; size never refuses one |
| Quoting.QuotedRead | src/main/java/db/migration/V202608161010__lcs_source_draft_unique_index.java:150-157 | With a quote string without border, reading a quoted identifier before anything but the quote consumes exactly it and returns the identifier |
| Quoting.RoundTripExactlyWhen | src/main/java/db/migration/V202608161010__lcs_source_draft_unique_index.java:150-157 | Every identifier is read back, before anything but the quote, exactly when the quote string has no border |
| Quoting.BorderMisread | src/main/java/db/migration/V202608161010__lcs_source_draft_unique_index.java:150-157 | With a border, what stands before it is an identifier that is not read back |
| Quoting.OneCharacterWorks | src/main/java/db/migration/V202608161010__lcs_source_draft_unique_index.java:150-157 | Any quote of one character gives every identifier back |
| Quoting.QuotedInjective | src/main/java/db/migration/V202608161010__lcs_source_draft_unique_index.java:150-157 | Quoting is injective |
| IndexMigration.StatementRead | src/main/java/db/migration/V202608161010__lcs_source_draft_unique_index.java:44-54 | Whatever the schema is called, the printed DROP and CREATE are read as exactly those statements on those names |
| IndexMigration.StatementsReadExactlyWhen | src/main/java/db/migration/V202608161010__lcs_source_draft_unique_index.java:44-54 | Every statement is read back exactly when the quote has no border and cannot be mistaken for what follows a name |
| IndexMigration.DoubleQuoteWorks | src/main/java/db/migration/V202608161010__lcs_source_draft_unique_index.java:144-157 | PostgreSQL's quote is such a quote |
| IndexMigration.StatementsSpelled | src/main/java/db/migration/V202608161010__lcs_source_draft_unique_index.java:44-54 | The text of both statements, piece by piece, for any quote |
| IndexMigration.SchemaChosen | src/main/java/db/migration/V202608161010__lcs_source_draft_unique_index.java:58-68 | Which schema is taken: the configured one unless it is blank, else that of the connection, and no blank one |
| IndexMigration.PrintedIsRun | src/main/java/db/migration/V202608161010__lcs_source_draft_unique_index.java:32-68 | With such a quote, printing, quoting and reading back drop out of a run |
| IndexMigration.Connection.Migrate | src/main/java/db/migration/V202608161010__lcs_source_draft_unique_index.java:32-68 | The method that prints, quotes and executes the statements has the effect and outcome of the printed run, for any quote string, a missing one included, and any faults |
| IndexMigration.ExactIsBuilt | src/main/java/db/migration/V202608161010__lcs_source_draft_unique_index.java:53-54 | What the test takes for the exact index is, in all seventeen fields, what the CREATE makes in the default tablespace |
| IndexMigration.RunFrame | src/main/java/db/migration/V202608161010__lcs_source_draft_unique_index.java:49-55 | A run touches no relation but the one name |
| IndexMigration.ExactIsKept | src/main/java/db/migration/V202608161010__lcs_source_draft_unique_index.java:39-42 | Over any number of faulty runs an exact index, identity included, and the whole catalog stay as they are |
| IndexMigration.ConvergesExactlyWhen | src/main/java/db/migration/V202608161010__lcs_source_draft_unique_index.java:32-56 | After any history of failed runs, one clean run ends with the exact index exactly when it was exact or could be built in the default tablespace |
| IndexMigration.CleanRun | src/main/java/db/migration/V202608161010__lcs_source_draft_unique_index.java:32-56 | In terms of the catalog, exactly when a run without faults succeeds, and exactly when it ends with the exact index |
| IndexMigration.SuccessMeans | src/main/java/db/migration/V202608161010__lcs_source_draft_unique_index.java:178-196 | In terms of the catalog: without a table, or with the exact index, success changed nothing; with a table of any kind it was buildable and the name now holds the exact new index, tablespace apart in a session with another default |
| IndexMigration.SucceedsExactlyWhen | src/main/java/db/migration/V202608161010__lcs_source_draft_unique_index.java:32-56 | In terms of the catalog and of what goes wrong, exactly when any run succeeds |
| IndexMigration.NoTableExactlyWhen | src/main/java/db/migration/V202608161010__lcs_source_draft_unique_index.java:35-88 | Nothing is done for want of a table exactly when the catalog has no ordinary or partitioned table of that name, whatever it holds |
| IndexMigration.NoQuotingExactlyWhen | src/main/java/db/migration/V202608161010__lcs_source_draft_unique_index.java:44-157 | A missing quote fails the run exactly when a statement is needed, and before anything is changed |
| IndexMigration.OtherTablespaceRebuilds | src/main/java/db/migration/V202608161010__lcs_source_draft_unique_index.java:101 | In such a session every run drops and rebuilds the index |
| LazyBucket.S3ObjectStorage.EnsureBucket | src/main/java/ai/devpath/shared/storage/S3ObjectStorage.java:30-53 | The flag is set by exactly the calls that return; a set flag makes no remote call; otherwise the effect is that of one pass |
| LazyBucket.BodyIsPass | src/main/java/ai/devpath/shared/storage/S3ObjectStorage.java:35-50 | The steps of a thread in the critical section are that pass |
| LazyBucket.OneInitialiser | src/main/java/ai/devpath/shared/storage/S3ObjectStorage.java:30-53 | In every interleaving at most one thread is in the critical section, and none initialises once the flag is set |
| LazyBucket.ReadyOnce | src/main/java/ai/devpath/shared/storage/S3ObjectStorage.java:23-76 | The flag is set at most once and for ever, and every put comes after it |
| LazyBucket.FailedPassLeavesNothing | src/main/java/ai/devpath/shared/storage/S3ObjectStorage.java:38-52 | A failed pass leaves the flag false and the lock free |
| LazyBucket.CreatedAtMostOnce | src/main/java/ai/devpath/shared/storage/S3ObjectStorage.java:38-50 | Without foreign deletion the threads create the bucket at most once between them, and not if it was there |
| LazyBucket.LaterPutGetsThrough | src/main/java/ai/devpath/shared/storage/S3ObjectStorage.java:30-76 | Whatever failed before, a later put on its own with an answering store gets through |
| LazyBucket.ReadyWithoutPolicy | src/main/java/ai/devpath/shared/storage/S3ObjectStorage.java:40-50 | The flag does not imply the policy: a concrete history |
| LazyBucket.PolicyAfterPass | src/main/java/ai/devpath/shared/storage/S3ObjectStorage.java:38-50 | A pass that succeeds leaves a bucket, with its policy exactly when it met none or one with its policy |
| LazyBucket.PassExactly | src/main/java/ai/devpath/shared/storage/S3ObjectStorage.java:35-50 | Exactly when a pass succeeds, and what it leaves of bucket and policy in every case |
| LazyBucket.FlagMeans | src/main/java/ai/devpath/shared/storage/S3ObjectStorage.java:30-53 | In every interleaving without foreign deletion, the flag means a bucket, with its policy exactly when the head request of the pass that set the flag did not meet a bare one |
| LazyBucket.DeletionOutlivesTheFlag | src/main/java/ai/devpath/shared/storage/S3ObjectStorage.java:30-33 | Why deletion is excluded: the flag survives it and the next put does not look |
| LazyBucket.ForeignCreationFailsThePass | src/main/java/ai/devpath/shared/storage/S3ObjectStorage.java:40-50 | A foreign creation between head and create fails the pass, and the next one meets the bare bucket |
| MavenCoordinate.ReadLimitSuffices | scripts/release/immutable_shared_package.py:252-276 | Reading one byte beyond the expected size decides exactness of the whole body |
| MavenCoordinate.FetchTells | scripts/release/immutable_shared_package.py:252-276 | Only a 404 of the package host counts as absence, and exactly the odd answers end a pass |
| MavenCoordinate.Classify | scripts/release/immutable_shared_package.py:171-197 | True exactly when all is absent and need not be present, false exactly when all is exact, and exactly when each error is raised |
| MavenCoordinate.MixtureIsRefused | scripts/release/immutable_shared_package.py:186-193 | One artefact absent and another not leaves no verdict |
| MavenCoordinate.OrderDoesNotMatter | scripts/release/immutable_shared_package.py:171-197 | The verdict depends on the set of artefacts only |
| MavenCoordinate.VerifyRemote | scripts/release/immutable_shared_package.py:278-297 | The outcome is that of the first decisive attempt within the retries: its verdict, or the error that is not retried; it fails otherwise exactly when no attempt is decisive |
| MavenCoordinate.VerdictOrBreak | scripts/release/immutable_shared_package.py:252-297 | An attempt that an unretried error breaks off has no verdict |

## Left out

- IndexMigration: the truncation of names beyond 63 bytes is not modelled.
- CreatedAtMostOnce: creating a bucket that exists is taken to fail, as the exceptions of the store suggest; a store that answers it with success would add a policy call and no bucket.
- FlagMeans: other writers may create the bucket, but not change its policy.
- EvidenceFits: the approval ids come from the API without a bound; 100 digits is far above what it issues.
- AloneItPublishes: states progress for a run without interference only; under interference the protocol promises safety, not success.
- SealedRelease and RemoteImage: missing members and members of a wrong type fail with one error where the code words several.
- DocumentsCompare: an escape of a lone surrogate, such as `\ud800`, is accepted by the code and not by the model, whose characters are Unicode scalar values.
- DocumentGrammar: for the same reason the grammar has no lone surrogate escapes.
- ReleaseHashBinds: for the same reason a manifest or candidate that carries such an escape in a member nobody reads is outside.
- Decoding: bytes that are not UTF-8, nesting deeper than Python's recursion limit and integers longer than its digit limit are rejected by the code before the model begins.
- CR line breaks: every text is checked to be free of CR before it is split, so CR is in neither set of breaks.
- `validate_protected_approval`: a long conjunction of literal checks of API documents; its result is an input of the evidence builder.
- `validate_gitops_authorization`, the classic protection and ruleset validators, `validate_base_migration_job` and the render checkers: the same; the linear, fast-forward-only main they establish is an assumption of the commit protocol.
- `validate_dispatch_context`, `validate_ci_context`, local image inspection: literal comparisons.
- HTTP, redirects, tokens, `git`, `docker` and environment access: replaced by inputs or by steps that may fail.
- The in-place rewrite is modelled as steps rather than as one method, because it may stop between any two of them; the permissions of files and directories are not modelled.
- Registry and store are linearizable; a push that takes effect after its run has died is not modelled.
- Concurrent runs of the index migration, which Flyway serialises, and names in other schemas.
- The wrapping of storage exceptions, the policy document, `delete` and `url` of the object store.
- POM and Gradle module semantics, `validate_local_artifacts`, and the closed list of artefacts.
- Events, error envelopes, Spring configuration, SQL migrations and build files: declarative.
