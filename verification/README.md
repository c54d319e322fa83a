# Ziggy: a verified model of its hard core

Ziggy runs coding agents, records what they do, and promises things about every input and every
interleaving. This project models the components behind those promises and proves them.

| modules | what they model |
|---|---|
| `Spans`, `Streaming`, `Exactness`, `Redactor` | one-shot redaction as span merging; the window stream and the transcript guard against it, place by place and in what they emit |
| `Workflows`, `Graphs`, `Scheduler`, `RunLoop` | dependency edges, declaration-order scheduling, cycle reports, failure propagation, both serial step loops |
| `Lease` | the workspace lease as processes, crashes and system calls interleave |
| `RunStore` | run directories, sentinels, manifests, the index, reindexing and recovery, interleaved |
| `Recorder` | the event recorder: sequence numbers, byte ceilings, truncation, suppressed counts |
| `BraceScanner` | finding the plan's JSON object in a planner's answer |
| `Templates`, `Untrusted`, `Prompts`, `Variables` | the template grammar, validation, wrapping of untrusted text, rendering, the secret gate, typed variables |
| `PlanCheck` | the checks on a plan, and why an accepted plan can be executed |
| `Policies`, `ConfigMerge` | deny globs and mediation decisions; merging a project's configuration |

Code that computes is modelled by functions, code that changes state by classes and loops, and
the two protocols over a shared file system by transition systems.

Each algorithm is proved against a description that does not follow its body: a redaction against
the positions no match reaches over, the brace scanner against a grammar of nested groups, the
scheduler against "least among all schedules", the recorder's counters against the trace of what
was recorded, the tokenizer against the token grammar, the plan checker against a list of what
can be wrong.

## Where the code and its documentation differ

- The window stream is documented as equal to one-shot redaction. It is, in emitted text and
  counts and on every text and chunking, exactly when no text has a span closed before a later
  overlapping match arrives (`StreamIsExactIff`); secrets none of which ends as another begins
  guarantee it (`NoCrossBordersStreamIsExact`), and so do nested or disjoint matches. With
  the two overlapping secrets of `OverlapLeaks` a text of 562 characters, one span from end to
  end, comes out as the first secret's marker followed by the last two characters of the second
  secret in clear; the counts agree.
- The transcript guard is documented never to mis-redact. A secret that ends as it begins,
  fed as one chunk and flushed, leaves in clear and uncounted: the guard cuts it before its own
  ending, which could be a beginning (`SelfOverlapLeaks`, `LeakExample` for `abcdea`). The guard
  emits the one-shot text and counts on every text and chunking exactly when no secret tears
  another or itself (`GuardIsExactIff`): no secret's ending starts another one, possibly a few
  characters later, while nothing further left could still grow. For a single secret that means
  having no border (`SingleSecretIff`); in general border-freeness is sufficient
  (`BorderFreeGuardIsOneShot`) but not necessary (`BordersMayBeHarmless`).
- Of the contenders for a stale lease exactly one is documented to win. The stale bytes are compared
  and the file is unlinked by two system calls: `TwoHolders` is a run, from a file left behind,
  after which two live runs hold the lease, because the second unlink removes the first one's new
  file. An unlink is harmless exactly when no live run holds the lease (`UnlinkKeepsInvIff`); what
  the lease promises holds of every interleaving in which nothing changes the file between a
  run's comparison and its unlink (`Adjacent`).
- A reindex is documented to delete only old rows whose manifest was not found on disk, and also to
  leave out manifests it cannot read. The second wins: a durable manifest that cannot be read
  during the scan loses its row (`UnreadableManifestLosesItsRow`); `CommitIsSafe` says exactly
  which rows go.
- Recovery is documented to touch only dead writers. A live writer whose start marker was stamped
  by one facility and is answered by another is judged dead: `FlippedMarkerFinalisesLiveRun` is a
  run in which that happens, `LingeringWriterIsFinalised` one for a writer that lingers past the
  grace period before claiming its sentinel, and `RecoveryHitsLiveWriterIff` says exactly when. A
  run directory is documented to have a single writer; if run ids repeat, a second one can then
  claim the directory (`TwoLiveWriters`). `StepKeepsOwnedIff` says exactly which steps take a
  directory away from its live owner.
- A recorded capture status is documented never to improve. An event with status `unavailable`
  recorded without its payload becomes `partial` (`UnavailableBecomesPartial`); the calls for which
  the promise holds are in `StatusOnlyDegradesIff`.
- "At most one truncation event per step" holds of the events the recorder adds. A caller may
  emit the type itself; `TruncationEventsExactly` counts both, `TwoTruncationEvents` is such a run.
  Those events keep their payload and their bytes are not held to the limit: in
  `CallerTruncationEscapes` one follows the notice with its payload and takes the step past its
  limit and all its metadata-only lines. The rules on both are stated of every other line.
- A reference without a value is documented as unreachable once a workflow and its variables are
  accepted. An optional variable with no default that is not given has none: rendering fails
  exactly for the steps that need one (`StepLeftWithoutValueIff`, `OptionalVariableExample`).
- The recheck before serving a path agrees with the decision on allow or deny and on the rule. A
  path denied by a user glob alone is recorded there as denied by the defaults (`RecheckAgrees`);
  `UserDenialReattributed` is the path `notes` under the user glob `notes`.

## Assumptions

- Lease: nothing changes a stale file between a run's comparison and its unlink. This is a predicate
  on actions (`Adjacent`), and the theorems that need it name it. Process ids may be reused; a
  recorded owner that no probe finds is gone for good.
- Store: inspecting and finalising one run directory during recovery is one step, writing a
  manifest is atomic, a directory read sees one directory at a time. Run ids are fresh and nothing
  prunes (`Fresh`); the facility that answers for start markers stays the same between stamping
  and recovery (`Steady`); a writer claims its sentinel within the grace period (`Prompt`). Each
  condition is a predicate on actions, and lemmas name the ones they need.
- Recorder: the length of a line is a function of the envelope, sequence number included; attempt
  numbers, redaction marks and protocol references are not part of the envelope here.
- Matching of a single path segment and case folding are abstract functions; what the default globs
  deny is stated for a folding under which `**` alone becomes `**` (`KeepsStars`). So are JSON parsing
  (`parses`), the redaction of a payload, and payload sizes.

## Model

| member | source | states |
|---|---|---|
| Spans.NoSecretUncovered | src/ziggy/redact/redactor.py:182-218 | No occurrence of a secret is left wholly outside the covered text. |
| Spans.CoverageGrows | src/ziggy/redact/redactor.py:182-218 | Adding matchers, anywhere in the list, never uncovers a character. |
| Spans.PiecesMatchCoverage | src/ziggy/redact/redactor.py:312-326 | A marker stands for covered characters throughout, a copied character is not covered. |
| Spans.PiecesTile | src/ziggy/redact/redactor.py:182-218 | The pieces lie end to end, and each marker stands for one whole run of overlapping matches under the name of the most specific of them. |
| Spans.NoSecretComesOut | src/ziggy/redact/redactor.py:312-326 | A secret that cannot be mistaken for part of a marker does not occur in the output, wherever it stood. |
| Spans.SumCounts | src/ziggy/redact/redactor.py:328-331 | The per-kind counts of an output add up to its number of markers. |
| Spans.CountsByKind | src/ziggy/redact/redactor.py:328-331 | Each kind is counted by its own markers. |
| Spans.ScanPart | src/ziggy/redact/redactor.py:363-399 | Redacting a buffer that starts at a free position is the whole text's redaction of that stretch. |
| Spans.ScanLocal | src/ziggy/redact/redactor.py:182-218 | Two texts whose matches agree up to a shift redact alike between the positions where they agree. |
| Redactor.IterSpans | src/ziggy/redact/redactor.py:99-103 | Greedy search yields, in order, exactly the occurrences no earlier counted occurrence of the same secret overlaps. |
| Redactor.Candidates | src/ziggy/redact/redactor.py:182-192 | The candidate list holds exactly the proposals of all matchers. |
| Redactor.FindMatches | src/ziggy/redact/redactor.py:182-218 | The merged spans are sorted, non-empty and disjoint, cover exactly the union of the proposals, and carry the kind of their most specific contributor. |
| Redactor.Redactor.Record | src/ziggy/redact/redactor.py:328-331 | Totals and per-kind counts grow by exactly the given counts. |
| Redactor.Redactor.Apply | src/ziggy/redact/redactor.py:312-326 | The output and the counts are those of the one-shot reading of the text. |
| Redactor.StreamingRedactor.Feed | src/ziggy/redact/redactor.py:363-399 | One feed outputs the redaction of the buffer up to the final cut and holds back the rest. |
| Redactor.StreamingRedactor.Flush | src/ziggy/redact/redactor.py:401-406 | Flushing outputs the redaction of everything held and empties the buffer. |
| Streaming.StreamIsOneShot | src/ziggy/redact/redactor.py:334-406 | Piece by piece and place by place, every chunking of a text is read as one-shot redaction reads it, exactly when the window never closes one of its spans before a later overlapping match. |
| Exactness.StreamIsExactIff | src/ziggy/redact/redactor.py:334-406 | The stream emits the one-shot text and counts on every text and chunking, exactly when no text has a span closed too early. |
| Exactness.EarlyCloseShows | src/ziggy/redact/redactor.py:363-399 | A span closed too early, alone as a text, comes out with different text or counts. |
| Exactness.NoCrossBordersNest | src/ziggy/redact/redactor.py:334-360 | Secrets none of which ends as another begins match nested or apart in every text. |
| Exactness.NoCrossBordersStreamIsExact | src/ziggy/redact/redactor.py:334-406 | For such secrets the stream emits the one-shot text and counts on every text and chunking. |
| Exactness.NoSecretLeavesTheStream | src/ziggy/redact/redactor.py:334-406 | Nor, then, does such a secret occur in what the stream emits, however the text is cut. |
| Redactor.RedactChunks | src/ziggy/redact/redactor.py:334-406 | Joining every feed and the flush gives the stream's text and counts, and the one-shot ones when no span of the whole text is closed too early; after every feed no more than the window is held back when matches are nested or disjoint. |
| Streaming.ShortRunsNeverClosedTooEarly | src/ziggy/redact/redactor.py:363-399 | That is so when no run of overlapping matches outgrows the window. |
| Streaming.NestedRunsFit | src/ziggy/redact/redactor.py:334-360 | Nested-or-disjoint matches make no run longer than the window. |
| Streaming.NestedStreamIsOneShot | src/ziggy/redact/redactor.py:334-406 | For nested-or-disjoint matches every chunking gives the one-shot text and counts. |
| Streaming.HeldFits | src/ziggy/redact/redactor.py:363-399 | The text held back stays within the window unless a run of matches is longer. |
| Exactness.OverlapLeaks | src/ziggy/redact/redactor.py:363-399 | Two overlapping secrets and a text for which the stream emits a marker and two characters of a secret in clear, one-shot redaction only the marker. |
| Redactor.ExactPartialStart | src/ziggy/engine/hooks.py:161-170 | The first tail from which the secret could still be completed, if there is one. |
| Redactor.SafeEmitLen | src/ziggy/engine/hooks.py:189-211 | Everything before the first tail that could still grow into any secret. |
| Redactor.StreamGuard.Feed | src/ziggy/engine/hooks.py:240-247 | One feed outputs the redaction of what precedes the cut and holds the rest. |
| Redactor.StreamGuard.Flush | src/ziggy/engine/hooks.py:249-254 | Flushing outputs the redaction of everything held. |
| Streaming.GuardCutLocal | src/ziggy/engine/hooks.py:189-211 | Where the guard cuts depends on how much has arrived, not on the chunks. |
| Exactness.GuardIsExactIff | src/ziggy/engine/hooks.py:189-254 | The guard emits the one-shot text and counts on every text and chunking, exactly when no secret can tear another or itself. |
| Exactness.NoSecretLeavesTheGuard | src/ziggy/engine/hooks.py:214-254 | When nothing tears, no secret that cannot be mistaken for part of a marker occurs in what the guard emits. |
| Exactness.TearShows | src/ziggy/engine/hooks.py:189-254 | Wherever a secret can be torn, some text and chunking come out with different text or counts. |
| Exactness.BadCutTears | src/ziggy/engine/hooks.py:189-211 | A cut inside a match means that a secret tears it. |
| Exactness.BorderFreeGuardIsOneShot | src/ziggy/engine/hooks.py:214-254 | For secrets with no prefix that is also a suffix of a secret, the guard equals one-shot redaction on every text and chunking. |
| Exactness.SelfOverlapLeaks | src/ziggy/engine/hooks.py:189-254 | A secret with a border, fed as one chunk and flushed, leaves in clear and uncounted. |
| Exactness.SingleSecretIff | src/ziggy/engine/hooks.py:189-254 | For a single secret the guard is exact if and only if the secret has no border. |
| Exactness.LeakExample | src/ziggy/engine/hooks.py:189-254 | The secret `abcdea` is emitted as it stands. |
| Exactness.BordersMayBeHarmless | src/ziggy/engine/hooks.py:189-254 | Three secrets that are not border-free and for which the guard is exact. |
| Redactor.GuardChunks | src/ziggy/engine/hooks.py:214-254 | Joining every feed and the flush gives the guard's text and counts, and the one-shot ones when nothing tears. |
| Lease.StepKeepsInv | src/ziggy/engine/lease.py:186-303 | Each system call, crash, start or release keeps the lease invariant; an unlink does when the file is unchanged since its comparison. |
| Lease.OneHolder | src/ziggy/engine/lease.py:186-261 | While no file changes between a comparison and its unlink, at most one live run holds the lease in every reachable state, and once written the file is that run's lease. |
| Lease.RemovalsAreSafe | src/ziggy/engine/lease.py:150-303 | In the same runs, a step that removes the file is the holder's own release, or the recovery of an owner that is gone while nobody holds the lease. |
| Lease.UnlinkKeepsInvIff | src/ziggy/engine/lease.py:282-309 | However late it comes, a recovery's unlink keeps the invariant exactly when no live run holds the lease. |
| Lease.TwoHolders | src/ziggy/engine/lease.py:282-309 | A run of two contenders, from a stale file with nothing running, after which both hold the lease. |
| Lease.AcquireAlone | src/ziggy/engine/lease.py:186-280 | Without interference: the lease is taken exactly when the file is absent or provably stale; otherwise it is reported held exactly when the recorded owner is seen at work, else ambiguous. |
| Lease.ErrorsAreCautious | src/ziggy/engine/lease.py:186-309 | A failing system call changes no file; a failed probe of an owner ends ambiguous. |
| Lease.ReleaseFrees | src/ziggy/engine/lease.py:150-170 | Undisturbed, a release leaves no file behind. |
| Lease.ReleaseLetsNextIn | src/ziggy/engine/lease.py:150-216 | After it any other live run that tries gets the lease. |
| Lease.EveryStepCounts | src/ziggy/engine/lease.py:186-216 | Every step of an acquire brings it nearer its end: the retry loop terminates. |
| Lease.FailedSyncKeepsOthersOut | src/ziggy/engine/lease.py:218-236 | A run whose sync fails after the write does not hold the lease, yet others are told it is held. |
| Lease.LateUnlinkBreaksTheLease | src/ziggy/engine/lease.py:282-309 | From any state in which two runs have compared the same stale file, both can end up holding the lease. |
| RunStore.OneLiveWriter | src/ziggy/store/runstore.py:152-180 | While the marker facility is steady, a run directory has at most one live writer in every reachable state, even if run ids repeat. |
| RunStore.StepKeepsOwnedIff | src/ziggy/store/index.py:91-110 | The steps that take a directory from its live owner are exactly the recoveries answered by another facility than the one that stamped it, before a manifest is durable. |
| RunStore.TwoLiveWriters | src/ziggy/store/runstore.py:152-180 | Without steadiness, a run after which two live writers own one run directory. |
| RunStore.OneWriterPerFreshRun | src/ziggy/store/runstore.py:152-180 | With fresh run ids a run directory has at most one writer in every reachable state, whatever recovery does. |
| RunStore.StepKeepsConsistent | src/ziggy/store/index.py:357-474 | Every step of writers, recovery and reindexing keeps directories, rows and scans consistent. |
| RunStore.ManifestsAreTheTruth | src/ziggy/engine/runner.py:773-801 | Every row names a run with a durable manifest and agrees with it; no later step changes a durable manifest. |
| RunStore.WholeRunIsIndexed | src/ziggy/engine/runner.py:773-801 | A run on a new directory ends with its manifest durable, a row that repeats it field by field, and no sentinel; nothing else changes. |
| RunStore.RowFromManifestSays | src/ziggy/store/index.py:157-186 | Which manifests yield a row, and that the row repeats them field by field. |
| RunStore.CommitIsSafe | src/ziggy/store/index.py:357-388 | A commit, whatever ran beside it, indexes every manifest that was durable before the scan and could be read, drops exactly the old rows whose manifest yields none or could not be read, and alters no other row. |
| RunStore.UnreadableManifestLosesItsRow | src/ziggy/store/index.py:369-388 | A reindex after which a durable manifest, unreadable during the scan, has no row. |
| RunStore.ReindexAloneRebuilds | src/ziggy/store/index.py:357-388 | A reindex that runs alone, snapshot to commit, makes the table the map built from the manifests. |
| RunStore.ReindexTwice | src/ziggy/store/index.py:357-388 | A second reindex changes nothing. |
| RunStore.RecoveryFinalisesIff | src/ziggy/store/index.py:390-474 | Exactly which directories a recovery finalises, and what manifest and row it writes. |
| RunStore.RecoveryHitsLiveWriterIff | src/ziggy/store/index.py:91-110 | Exactly when recovery finalises the run of a writer still at work. |
| RunStore.RecoverySparesManifests | src/ziggy/store/index.py:390-474 | Corollary: recovery changes nothing about a run with a durable manifest. |
| RunStore.FlippedMarkerFinalisesLiveRun | src/ziggy/store/index.py:91-110 | A run of five steps after which a live writer's run is marked abandoned. |
| RunStore.LingeringWriterIsFinalised | src/ziggy/store/index.py:390-474 | A run after which a live writer that has not yet claimed its sentinel is marked abandoned. |
| RunStore.RunIndex.InsertAll | src/ziggy/store/index.py:357-388 | Inserting rows replaces exactly those keys. |
| RunStore.RunIndex.DeleteAll | src/ziggy/store/index.py:357-388 | Deleting removes exactly the given keys. |
| RunStore.RunIndex.ReindexAll | src/ziggy/store/index.py:357-388 | Without concurrency the table ends as the map from the manifests, counted. |
| Scheduler.StepEdges | src/ziggy/workflows/scheduler.py:54-96 | Either exactly the references to unknown steps and to the step itself, in order, or for every step exactly the other steps it waits for or draws on. |
| Scheduler.DepsMeaning | src/ziggy/workflows/scheduler.py:54-96 | A step's dependencies are, without repetition, the known other steps it refers to. |
| Workflows.InputSourceStepIff | src/ziggy/workflows/scheduler.py:42-51 | A source draws on step d exactly when it reads steps.d.outputs.name, neither part holding a dot. |
| Scheduler.EdgesMeaning | src/ziggy/workflows/scheduler.py:54-96 | A step's dependencies are, each once, the other declared steps named in its depends_on or drawn on by its inputs. |
| Scheduler.SoundReferences | src/ziggy/workflows/scheduler.py:54-96 | Nothing is wrong exactly when every step named or drawn on is another declared step. |
| Scheduler.ProblemsMeaning | src/ziggy/workflows/scheduler.py:54-96 | The report holds exactly the references to unknown steps and the self-references, each under its field. |
| Scheduler.ProblemsInOrder | src/ziggy/workflows/scheduler.py:54-96 | It follows the declaration, and within a step depends_on comes before the inputs. |
| Scheduler.NoProblems | src/ziggy/workflows/scheduler.py:54-96 | There is no bad reference exactly when every reference names another, declared step. |
| Scheduler.ReachesItself | src/ziggy/workflows/scheduler.py:109-121 | Depth-first search finds a way back to the start exactly when there is one within the remainder. |
| Scheduler.CycleMembers | src/ziggy/workflows/scheduler.py:99-123 | Of the remaining steps, exactly those on a cycle, in declaration order. |
| Scheduler.TopoOrder | src/ziggy/workflows/scheduler.py:126-157 | Bad references, or exactly the steps on cycles (never none), or the least schedule in declaration order. |
| Scheduler.GreedyIsLeast | src/ziggy/workflows/scheduler.py:126-157 | Always running the first ready step comes before every other schedule. |
| Scheduler.CompleteGreedy | src/ziggy/workflows/scheduler.py:126-157 | A complete greedy order is the least schedule, and then nothing lies on a cycle. |
| Scheduler.StuckHasCycle | src/ziggy/workflows/scheduler.py:126-157 | When nothing is ready, some remaining step lies on a cycle, and all steps on cycles remain. |
| Graphs.WalkFindsCycle | src/ziggy/workflows/scheduler.py:99-123 | Walking blocked steps must come back: pigeonhole. |
| Scheduler.PropagateFailure | src/ziggy/workflows/scheduler.py:160-186 | Of the steps after the failed one, the transitive dependents are blocked and the others skipped. |
| RunLoop.RunResult.RunSteps | src/ziggy/workflows/runner.py:330-481 | The loop of workflow runs: keyed by step id. |
| RunLoop.RunResult.RunExecution | src/ziggy/orchestrator/execute.py:565-724 | The loop of executed plans: keyed `execute/<id>` beside other entries, which it leaves alone. |
| RunLoop.RunResult.Apply | src/ziggy/orchestrator/execute.py:554-562 | Propagated statuses land under their prefixed keys and nowhere else. |
| RunLoop.RunResult.RunAll | src/ziggy/workflows/runner.py:330-481 | The step loop under any key prefix: every step ends as the first unclean turn and reachability say; steps start in order, each after its producers succeeded. |
| RunLoop.RunShape | src/ziggy/workflows/runner.py:330-481 | Corollary: a prefix of successes, at most one failed or cancelled step, then blocked steps (exactly the dependents of an ordinary failure) and skipped ones. |
| RunLoop.SuccessMeansRanToSuccess | src/ziggy/workflows/runner.py:330-481 | A step is a success exactly when its agent, and that of every step before it, was started, not stopped, and succeeded. |
| RunLoop.FirstFailureDecides | src/ziggy/workflows/runner.py:330-481 | What every step ends as, read off what was observed in the first turn that did not succeed. |
| RunLoop.DependentsOfUnfinishedNeverRun | src/ziggy/workflows/runner.py:330-481 | A step behind one that did not succeed is blocked or skipped. |
| RunLoop.SameUnderRenaming | src/ziggy/orchestrator/execute.py:565-724 | Both loops settle every step alike. |
| RunLoop.RunStatusMeaning | src/ziggy/workflows/runner.py:170-185 | The run's status read off the first unclean turn. |
| Recorder.RunRecorder.Record | src/ziggy/events/pipeline.py:457-502 | One line takes the next sequence number and adds its length to its step's bytes. |
| Recorder.RunRecorder.EmitAfterCeiling | src/ziggy/events/pipeline.py:349-381 | A truncated step writes its final summary, a bounded number of metadata-only lines, or only a count. |
| Recorder.RunRecorder.EmitBeforeCeiling | src/ziggy/events/pipeline.py:382-427 | The line as drafted if it fits, else the notice and the event without its payload. |
| Recorder.RunRecorder.Emit | src/ziggy/events/pipeline.py:297-427 | One call extends the recording exactly as the trace says; an unknown type is refused and leaves nothing. |
| Recorder.RunRecorder.EmitAll | src/ziggy/events/pipeline.py:297-427 | After any calls the recording is the trace of those calls. |
| Recorder.RecordingHidesSecrets | src/ziggy/events/pipeline.py:297-427 | Runs whose calls differ only in what redaction hides leave the same recording. |
| Recorder.EveryItemTellsOf | src/ziggy/events/pipeline.py:311-502 | Every recorded line tells of an admitted call: its payload is the redacted one, reduced where the profile says so, or only a size; the status is the caller's unless something is missing. |
| Recorder.ProfilesHide | src/ziggy/events/pipeline.py:506-511 | What each capture profile reduces. |
| Recorder.LedgerHolds | src/ziggy/events/pipeline.py:317-427 | After any calls, each step's books balance by kind of line, with at most one notice and twenty continuation lines. |
| Recorder.NothingUnaccounted | src/ziggy/events/pipeline.py:317-427 | A step's admitted calls are its recorded lines without the notice plus its suppressed count. |
| Recorder.SequenceHasNoGap | src/ziggy/events/pipeline.py:457-502 | Sequence numbers are 0, 1, 2, ... |
| Recorder.AfterNoticeOnlyMetadata | src/ziggy/events/pipeline.py:349-400 | After a step's notice its lines carry metadata only, apart from truncation events a caller emits, and the final one the suppressed count as of that point. |
| Recorder.TruncationEventsExactly | src/ziggy/events/pipeline.py:349-427 | How many truncation events a step has, and when that is at most one. |
| Recorder.StepBytesBounded | src/ziggy/events/pipeline.py:349-427 | A step's bytes, apart from truncation events a caller emits, stay within its limit plus 22 metadata-only lines and one per step_finished. |
| Recorder.CallerTruncationEscapes | src/ziggy/events/pipeline.py:346-427 | Two calls after which a step has a line with payload behind its notice and more bytes than its limit and 22 metadata-only lines. |
| Recorder.StatusOnlyDegradesIff | src/ziggy/events/pipeline.py:311-381 | Exactly which calls are recorded with a status no better than the caller's: all but unavailable ones that lose their payload. |
| Recorder.UnavailableBecomesPartial | src/ziggy/events/pipeline.py:311-334 | An oversized event reported unavailable is recorded as partial. |
| Recorder.TwoTruncationEvents | src/ziggy/events/pipeline.py:349-427 | Two calls after which a step has two truncation events. |
| BraceScanner.GroupIffCloses | src/ziggy/orchestrator/validate.py:167-204 | Counting braces outside strings recognises exactly the grammar's groups. |
| BraceScanner.GroupsArePrefixFree | src/ziggy/orchestrator/validate.py:167-204 | No group is a proper prefix of another. |
| BraceScanner.FindClose | src/ziggy/orchestrator/validate.py:182-204 | The end of the object opening here, or that it never closes. |
| BraceScanner.BalancedSpans | src/ziggy/orchestrator/validate.py:167-204 | The spans are the text's top-level groups, disjoint, left to right, with no brace opening between them or after them unless it never closes. |
| BraceScanner.ScanUnique | src/ziggy/orchestrator/validate.py:167-204 | A text has one such list of spans. |
| BraceScanner.GroupsComeBack | src/ziggy/orchestrator/validate.py:167-204 | Groups laid out between texts without an opening brace are found, all and in order. |
| BraceScanner.JsonRegular | src/ziggy/orchestrator/validate.py:167-204 | Every printed JSON value fits the grammar, every printed object is one group. |
| BraceScanner.PrintedObjectsComeBack | src/ziggy/orchestrator/validate.py:167-204 | The scan undoes the printer: any objects, blanks and escapes of RFC 8259, between texts without an opening brace. |
| BraceScanner.ExtractJsonObject | src/ziggy/orchestrator/validate.py:207-230 | The first span that parses, fenced content first; else the first span; else none. |
| BraceScanner.PlanIsExtracted | src/ziggy/orchestrator/validate.py:207-230 | A plan printed after brace-free prose is extracted, whatever follows it. |
| Templates.TokenAtIff | src/ziggy/workflows/interpolate.py:33-35 | The matcher accepts exactly the tokens of the grammar at the front of a text. |
| Templates.TokenizeIsTheSplit | src/ziggy/workflows/interpolate.py:95-98 | The tokenizer's result is the one left-to-right split into tokens and characters that start none. |
| Templates.TokenizeIsLossless | src/ziggy/workflows/interpolate.py:95-98 | Splitting loses nothing. |
| Templates.FindAllFinds | src/ziggy/workflows/interpolate.py:95-98 | Each match is a token, no two overlap, and no token starts outside them. |
| Templates.Scrub | src/ziggy/workflows/interpolate.py:131-140 | Every token is blanked in place, nothing else, and exactly the undeclared references are reported. |
| Templates.ValidateTemplate | src/ziggy/workflows/interpolate.py:118-151 | Accepts exactly the templates whose tokens are declared and whose other text holds no brace syntax; reports every undeclared reference and every left-over. |
| Templates.SuspectAtIff | src/ziggy/workflows/interpolate.py:118-151 | Left-over syntax is an opening or closing pair of characters outside every token. |
| Prompts.ValidateTemplates | src/ziggy/workflows/interpolate.py:154-182 | Accepts exactly the workflows whose prompts are acceptable and whose inputs name declared variables. |
| Prompts.RenderOkIff | src/ziggy/workflows/interpolate.py:198-213 | Rendering succeeds exactly when every referenced name has a value. |
| Prompts.SubstituteIff | src/ziggy/workflows/interpolate.py:198-213 | A rendered text is its pieces in order: each character itself, each reference the variable's or the input's value. |
| Prompts.AcceptedTemplateRenders | src/ziggy/workflows/interpolate.py:198-213 | An accepted template renders whenever its declared names have values. |
| Prompts.ValueLandsVerbatim | src/ziggy/workflows/interpolate.py:198-213 | A value lands verbatim and changes nothing before or after it: single pass. |
| Untrusted.NeutralizeDisarms | src/ziggy/workflows/interpolate.py:60-66 | A neutralised value holds no delimiter sigil. |
| Untrusted.NeutralizeKeeps | src/ziggy/workflows/interpolate.py:60-66 | A value is unchanged exactly when it held none. |
| Untrusted.NeutralizeFirst | src/ziggy/workflows/interpolate.py:60-66 | The first sigil is rewritten, the text before it stays, the rest is neutralised likewise. |
| Untrusted.WrappedSigils | src/ziggy/workflows/interpolate.py:69-92 | A wrapped value holds exactly its markers' two sigils plus those of name, source and nonce. |
| Untrusted.SigilsExactlyAtMarkers | src/ziggy/workflows/interpolate.py:69-92 | They stand at the start of the opening and of the closing marker and nowhere else. |
| Untrusted.UnwrapGivesTheValue | src/ziggy/workflows/interpolate.py:69-92 | Unwrapping returns the neutralised value, for every value. |
| Prompts.RenderPrompt | src/ziggy/workflows/interpolate.py:216-251 | Inputs in declaration order, first failure first, then one rendering pass. |
| Prompts.FirstFailureFirst | src/ziggy/workflows/interpolate.py:216-251 | A prompt that cannot be composed names the first input without a text and why, or else the first reference without a value. |
| Prompts.VarOfIff | src/ziggy/workflows/interpolate.py:216-251 | Which sources are variables. |
| Prompts.InputLandsAsDeclared | src/ziggy/workflows/interpolate.py:216-251 | A variable's text lands verbatim; another step's output lands between its delimiters, and unwrapping gives the neutralised output back. |
| Prompts.VarsReferencedByStep | src/ziggy/workflows/interpolate.py:101-115 | Exactly the variables a token or a declared input brings in. |
| Prompts.PromptDependsOnReferenced | src/ziggy/workflows/interpolate.py:101-115 | A prompt depends on nothing but those variables and the upstream inputs. |
| Prompts.ReferencedVariablesMatter | src/ziggy/workflows/interpolate.py:101-115 | It does depend on each of them: a longer value makes a longer prompt. |
| Prompts.CheckSecretAllowances | src/ziggy/workflows/vars.py:131-169 | Refuses exactly the flows of a secret to a step whose provider is unknown or not on the secret's list, step by step and by ascending names. |
| Prompts.BarredSecretsStayOut | src/ziggy/workflows/vars.py:131-169 | Once the gate passes, a secret not allowed for a step's provider cannot influence that step's prompt. |
| Prompts.CollectUpstream | src/ziggy/orchestrator/execute.py:463-473 | The keys are exactly the inputs taken from a step, each holding that step's output, or nothing if it left none. |
| Prompts.AcceptedStepRenders | src/ziggy/workflows/interpolate.py:216-251 | A step of an accepted workflow gets its prompt when every declared variable has a value. |
| Prompts.StepRendersIff | src/ziggy/workflows/interpolate.py:216-251 | A step of an accepted workflow gets its prompt exactly when each variable it needs has a value. |
| Variables.ValidateVariables | src/ziggy/workflows/vars.py:52-93 | Typed values for exactly the variables given or defaulted, each read from its text or its default, or every problem and no other. |
| Variables.TextReadsBack | src/ziggy/workflows/vars.py:92-107 | What a string, an integer or a boolean is inserted as parses back to it. |
| Variables.ReadsExactly | src/ziggy/workflows/vars.py:92-107 | Exactly which texts are read as which string, boolean or integer. |
| Variables.StepLeftWithoutValueIff | src/ziggy/workflows/vars.py:52-93 | With accepted variables a step still fails to render exactly when it needs an optional variable with no default that was not given. |
| Variables.OptionalVariableExample | src/ziggy/workflows/interpolate.py:198-213 | A workflow that loads, variables that validate, and a prompt without a value. |
| PlanCheck.TemplateErrors | src/ziggy/orchestrator/validate.py:338-376 | Exactly the template faults of a prompt, and the number of references to each goal input. |
| PlanCheck.EstimateBytes | src/ziggy/orchestrator/validate.py:601-618 | The prompt's bytes plus, per reference to a goal input, the goal's and the wrapper's. |
| PlanCheck.ExpansionPerReference | src/ziggy/orchestrator/validate.py:601-618 | The estimate's sum by inputs is the sum by references. |
| PlanCheck.OverheadIsWrapping | src/ziggy/orchestrator/validate.py:601-618 | The overhead is what wrapping adds to a goal. |
| PlanCheck.IsSafeKeyIff | src/ziggy/orchestrator/validate.py:104 | Which input names are accepted. |
| PlanCheck.IsPlanSourceIff | src/ziggy/orchestrator/validate.py:591-599 | Which sources are accepted. |
| PlanCheck.CheckStep | src/ziggy/orchestrator/validate.py:556-618 | Exactly the faults of one step. |
| PlanCheck.ValidateInline | src/ziggy/orchestrator/validate.py:538-627 | Exactly what is wrong with a plan: count, step faults, and bad references or cycles once ids are distinct. |
| PlanCheck.GraphsMirrorPlan | src/ziggy/orchestrator/execute.py:250-283 | The graph that is checked and the one that is executed have the plan's steps in order, with its references, and the latter its prompts. |
| PlanCheck.AcceptedPlanPrepares | src/ziggy/orchestrator/execute.py:250-341 | An accepted plan maps to a graph that passes template validation and has an order. |
| PlanCheck.AcceptedPlanNeverStuck | src/ziggy/orchestrator/execute.py:565-640 | Each of its steps gets its prompt, whatever the upstream steps produced. |
| PlanCheck.AcceptedPromptBytes | src/ziggy/orchestrator/validate.py:601-618 | Whatever upstream steps produced, an accepted step's prompt takes at most the estimate plus, per reference to a step's output, the neutralised output and its wrapper. |
| PlanCheck.AcceptedGoalPromptFits | src/ziggy/orchestrator/validate.py:601-618 | Corollary: a step drawing only on the goal composes a prompt no longer than the estimate, hence within the limit. |
| PlanCheck.ValidateSingleAgent | src/ziggy/orchestrator/validate.py:379-401 | Exactly the faults of a single-agent plan. |
| PlanCheck.SingleAgentPromptIsVerbatim | src/ziggy/orchestrator/execute.py:286-301 | Its prompt passes validation and is sent as it stands. |
| Policies.MatchIffAligned | src/ziggy/policy/paths.py:153-163 | The recursive matcher succeeds exactly when the path can be cut along the pattern. |
| Policies.BasenameMatchesLast | src/ziggy/policy/paths.py:139-150 | A pattern without a slash looks at the last segment only. |
| Policies.SlashPatternMatches | src/ziggy/policy/paths.py:139-150 | A pattern with a slash matches exactly the paths that can be cut along its parts, blank parts aside. |
| Policies.SensitiveExactly | src/ziggy/policy/paths.py:44-54 | The default globs meet exactly the sensitive files at any depth, the sensitive directories with all below them, and Ziggy's own configuration. |
| Policies.SensitiveNeverAllowed | src/ziggy/policy/mediation.py:235-270 | No policy lets a sensitive path be read or written, whatever its other rules. |
| Policies.FindDenial | src/ziggy/policy/mediation.py:375-402 | The first deny rule met: project denials in order, default globs, user globs. |
| Policies.AllowedIff | src/ziggy/policy/mediation.py:235-270 | Corollary: exactly what is allowed: inside, not denied, and for writes in the step directory. |
| Policies.RuleSaysWhy | src/ziggy/policy/mediation.py:375-402 | Which rule and origin a decision records. |
| Policies.DenialsOnlyShrink | src/ziggy/policy/mediation.py:375-402 | Adding deny rules takes away exactly the paths they meet. |
| Policies.ServeRecheck | src/ziggy/engine/hooks.py:511-551 | Refuses exactly what the decision refuses. |
| Policies.RecheckAgrees | src/ziggy/engine/hooks.py:511-551 | Corollary: the same rule; a different origin exactly when a user glob alone denies. |
| Policies.UserDenialReattributed | src/ziggy/engine/hooks.py:511-551 | A path denied by a user glob alone, which the recheck puts down to the defaults. |
| Policies.DecideTerminal | src/ziggy/policy/mediation.py:404-448 | A command runs exactly when a user rule allows it and no project denial meets it. |
| Policies.CommandRunsIff | src/ziggy/policy/mediation.py:404-448 | A command runs exactly when it extends a rule of the user's and no denial of the project's. |
| Policies.DecidePermission | src/ziggy/policy/mediation.py:297-342 | Reads and writes: allowed exactly when every location is, otherwise the first denied location's decision. Commands: allowed exactly as a terminal request is. |
| ConfigMerge.SetElsewhere | src/ziggy/config/loader.py:603-608 | Setting a leaf leaves every other leaf as it was. |
| ConfigMerge.LeavesAreLeaves | src/ziggy/config/loader.py:570-582 | The leaf paths are exactly the paths at which a lookup ends in a value. |
| ConfigMerge.DeepMergeByLeaf | src/ziggy/config/loader.py:560-567 | Leaf by leaf, the overlay where it has a word, the base elsewhere. |
| ConfigMerge.CoversIff | src/ziggy/config/loader.py:560-567 | Where the overlay has its say: where it has anything, or a leaf further up. |
| ConfigMerge.ApplyProject | src/ziggy/config/loader.py:392-452 | The error the project's file deserves, with exactly the offending paths, or the merge. |
| ConfigMerge.TouchedIff | src/ziggy/config/loader.py:392-408 | The leaves a project sets are all it holds but the schema version. |
| ConfigMerge.RaisesIff | src/ziggy/config/loader.py:418-452 | A ceiling is raised exactly when the project asks for more. |
| ConfigMerge.ProjectIsHeard | src/ziggy/config/loader.py:392-452 | A project's denials and workflow name are taken over; its lower ceilings and capture levels hold. |
| ConfigMerge.OutsideTheListNothingChanges | src/ziggy/config/loader.py:392-452 | Corollary: outside the allow-listed paths the merge is the user's configuration. |
| ConfigMerge.MergeOnlyTightens | src/ziggy/config/loader.py:392-452 | Corollary: ceilings become minima, the capture level the lower one, the rest stays. |
| ConfigMerge.MergeIsIdempotent | src/ziggy/config/loader.py:392-452 | Corollary: merging the same project again changes nothing. |
| ConfigMerge.OverrideStands | src/ziggy/config/loader.py:158-172 | Outside the list an environment override is what is in force, whatever the project says. |

## Left out

- Built-in regex patterns, custom patterns, their look-behind and tail extension: only literal secrets are matched; the built-ins enter through the window they impose.
- Redaction of nested payloads: a walk that applies text redaction to every string.
- The outer error handling of the lease and the store (which exception carries which detail), directory syncs, partial writes, and the parsing of process tables.
- Recorder aggregation (tool calls, file changes, permissions, text, usage), write failures, and the summaries derived from them.
- `WorkflowDeadline`: its clock arithmetic is represented by what a turn observes before and after a step.
- Agent turns, launches, cancellation ladders and the protocol client: an arbitrary outcome per turn.
- Egress records, provider sets, the catalog and named-workflow plans: gates with one branch each.
- The markdown fence pattern and JSON parsing: the fenced content and the verdict on a span are inputs of `ExtractJsonObject`.
- Working-directory resolution and symbolic links: decisions start from the outcome of resolving a path.
- Schema validation of configuration files and the semantic checks on user-only fields: `ApplyProject` takes their verdict. Keys holding a dot are refused by validation before any path is split.
- ApplyProject: visits paths in no particular order, since the outcome does not depend on it.
- ValidateInline: states which errors are reported, not their order or wording, nor the cap on their number and length.
- AcceptedPromptBytes: outputs of other steps have no size before they exist, so its bound is on the prompt once they are given; the executor checks the composed prompt itself.
- OneLiveWriter: holds of runs in which the facility that answers for start markers is steady; StepKeepsOwnedIff and TwoLiveWriters say what happens otherwise.
- AfterNoticeOnlyMetadata: leaves out truncation events a caller emits, of which it is false (CallerTruncationEscapes).
- StepBytesBounded: leaves out the bytes of those same events.
- OneHolder: holds of runs in which nothing changes a stale file between comparison and unlink; UnlinkKeepsInvIff and TwoHolders say what happens otherwise.
- NoSecretComesOut: leaves out secrets that hold a bracket or are part of a marker's own text, which a marker may complete or contain.
- StreamIsOneShot: its only-if half speaks of located pieces; StreamIsExactIff speaks of emitted text and counts.
- ValidateVariables: visits names in no particular order; the dump of a JSON value is the library's.
- ManifestsAreTheTruth: holds of runs in which ids are fresh and no recovery overtakes a live writer; RecoveryHitsLiveWriterIff says when one would.
