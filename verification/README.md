# mreviewer, modelled and proved in Dafny

mreviewer reviews merge requests with language models. This project models the
parts of it whose correctness depends on more than one function and proves what
they promise, for all inputs and over all histories.

| files | component |
|---|---|
| `Findings`, `FindingMeaning`, `FindingThresholds`, `FindingProofs`, `FindingIssues`, `FindingStore` | reconciling the findings of a review run with the merge request's table of findings |
| `Runs`, `RunProofs`, `RunMeaning`, `RunStore`, `Webhooks` | the queue of review runs: claims, retries, reaping, superseding, operator actions, webhook intake |
| `Hunks`, `HunkHeaders`, `HunkSections`, `HunkRoundTrip`, `Assembler`, `AssemblerProofs`, `AssemblerLimits` | parsing and printing unified-diff hunks, assembling a request under a budget, accounting for what is left out |
| `DiffIndex`, `DiffIndexProofs` | the index of changed lines and the placement of comments |
| `Judge`, `JudgeProofs`, `ReviewEngine`, `ReviewProofs` | merging the reviewers' findings, the verdict, the coverage gate |
| `Schemas`, `ReviewSchemas` | rewriting JSON schemas for strict providers, the hand-written validator, and the schema of a review result |
| `RateLimits` | the fixed-window rate limiter |
| `Text`, `TextProofs` | the Go string functions that the models share, and what trimming and lowering mean |

Code that works by changing things is modelled by methods and classes with loops,
each proved equal to a specification function; the properties are then lemmas about
those functions. `dafny verify dfyconfig.toml` checks everything. Automatic
induction is switched off on all lemmas; every induction is written out.

## How things are modelled

- A finding fingerprint is the tuple that the code hashes, and a table row's id is its position.
- The matches of one reconciliation run depend only on the list that the run read once, so a `Frame` holds them all; `Process` then applies them one by one to the table that is being changed.
- One database transaction is one step. `Runs.History` is any serial sequence of such steps by webhooks, workers, the reaper, result writers and operators. `Webhooks` in addition interleaves the lookup before a transaction with other requests and lets transactions abort.
- Instants and durations are integers, confidence values, ratios and thresholds are reals. Hunk header numbers are clamped at the largest 64-bit integer, which is what the ignored range error of `strconv.Atoi` leaves behind.
- The semantic matcher is an arbitrary function of candidate and row. Packs are the results they return. The path filters of the assembler are a reason carried by each diff.

## Where the code does less than one might expect

For each of these, one lemma shows a failing input or family of inputs and another says exactly when the property holds.

- Duplicate findings are dropped before the thresholds are applied, so a weak copy hides a strong finding (`WeakCopyHidesIssue`); an issue survives exactly when a first report of it passes (`IssueLiveIffFirstReportKept`).
- With a semantic matcher a recognised issue can be lost (`MatcherLosesIssue`). For any matcher, an issue is live after a run exactly when a finding of it got a row of its own or an old row of it was recognised and not displaced (`IssueLiveIff`, `NoIssueLostIff`); without a matcher no reported issue is lost (`LiveIssuesAfterRun`).
- Replaying a run is not always idempotent (`RepeatedIssueBreaksReplay`). `ReplayStablePlanned` gives the exact condition on the matches of the first run, which can be checked before either run; `ReplayStableIff` gives it on the table between the two, and `DistinctIssuesReplay` is the usual case.
- Opening, reopening, retrying, requeueing and rerunning can give a merge request a second active run, and so can a failed manual trigger, whose status write leaves an old retry time in place (internal/db/review_runs.sql.go:435-438) (`OpenTwice`, `SecondActive`); `OneActiveIff` says exactly which steps do.
- Printing hunks and parsing the text again loses carriage returns before line breaks and the empty lines at the end of the text (`EmptyTailLost`) and nothing else (`PrintThenParseAll`, `RoundTripAllIff` for any number of hunks, `RoundTripIff` for one).
- The index walk and the hunk counts disagree (`OddLineDerails`) exactly when a hunk contains a line of no known kind (`WalkEndsIff`); a changed line of such a hunk can be rejected (`OddLineRejects`), and is accepted exactly when some hunk's span holds it (`ChangedLineAcceptedIff`).
- The deletion of a whole file has no line of the new file a comment can go to (`DeletedFileUnanchored`); `DeletionAnchoredIff` says exactly which runs of pure deletions have one, and `LoneDeletionIff` puts it in closed form for a file with one hunk.
- A severity that ranks high but is not recognised outranks others of its group and then does not block. The bridge from the reviewers' results trims severities (internal/reviewcore/legacy_bridge.go:85), so what reaches the judge that way is the spelling with the dotted capital I, U+0130 (`DottedHides`, `DottedOrderMatters`); surrounding space has the same effect for a pack that bypasses the bridge (`PaddedHides`, `PaddedOrderMatters`). `RequestedIff` is exact, and `BlocksIff` says which severities are recognised.
- Findings that differ in a keyed field share a key (`BarCollides`) exactly when a part contains the separator (`KeyUniqueIff`). Standards, snippet and platform metadata are not keyed and never separate two findings (`UnkeyedFieldsMerge`).
- What a strict provider may return can fail validation (`SampleIsStrict`) exactly when a required name is not declared (`StrictImpliesValidationIff`); the schema in use declares all of them (`ReviewSchemaDeclared`).
- Clock readings are taken before the limiter's lock and may arrive late. The admission bound breaks for a limit of three or more when readings are two instants late (`ThreeBursts`), and for a limit of two when they are a window and two instants late (`FourBursts`); it holds for all histories exactly when readings are never that late (`BoundedIff`).

## Model

| member | source | states |
|---|---|---|
| FindingStores.AnchorPass | internal/llm/dedup.go:258-285 | the first listed row with the candidate's anchor fingerprint, skipping pairs that are never compared |
| FindingStores.SemanticPass | internal/llm/dedup.go:287-326 | the first listed row of the same semantic fingerprint that this run has not seen |
| FindingStores.OraclePass | internal/llm/dedup.go:330-349 | the first unseen row of the same file that the matcher calls the same |
| FindingStores.FindingStore.InsertReviewFinding | internal/db/review_findings.sql.go:106-171 | appends one row and returns its id |
| FindingStores.FindingStore.UpdateFindingLastSeen | internal/db/review_findings.sql.go:372-386 | sets last_seen_run_id of one row and nothing else |
| FindingStores.FindingStore.UpdateFindingRelocation | internal/db/review_findings.sql.go:388-445 | moves one row to the finding's location and fingerprints and marks it as seen |
| FindingStores.FindingStore.UpdateFindingState | internal/db/review_findings.sql.go:447-462 | sets state and matched finding of one row and nothing else |
| FindingStores.FindingStore.ListActiveFindingsByMR | internal/db/review_findings.sql.go:173-177 | exactly the live rows of the merge request, each once |
| FindingStores.FindingStore.MatchExistingFinding | internal/llm/dedup.go:257-352 | the decision of the three passes over the stale list, and the touch or relocation it writes to the live table |
| FindingStores.CollectCandidates | internal/llm/dedup.go:31-48 | the candidates are the normalised findings without repeated anchors, each with its evaluation |
| FindingStores.FindingStore.ReconcileOne | internal/llm/dedup.go:50-87 | one candidate: inserted, dropped, touched, relocated, or inserted with the old row superseded |
| FindingStores.FindingStore.ReconcileAll | internal/llm/dedup.go:50-87 | the table and the hit set after all candidates equal the specification applied to the stale list |
| FindingStores.FindingStore.RetireOne | internal/llm/dedup.go:89-104 | retires one listed row that was not hit, or reports a forbidden transition |
| FindingStores.FindingStore.RetireMissing | internal/llm/dedup.go:89-104 | never fails, and leaves the table that the specification gives |
| FindingStores.FindingStore.PersistFindings | internal/llm/dedup.go:20-107 | the whole run never fails and its table is that of the specification |
| FindingProofs.MatchFacts | internal/llm/dedup.go:257-352 | what each kind of match says about the listed row: its fingerprint, whether this run has seen it, whether it may be relocated |
| FindingProofs.AnchorPassExact | internal/llm/dedup.go:258-285 | the anchor pass recognises the one listed row with the candidate's anchor whenever there is one |
| FindingMeaning.PathNormal | internal/llm/dedup.go:535-542 | a normalised path holds no backslash and no double slash, and a clean path is kept as it is |
| FindingMeaning.PathVariants | internal/llm/dedup.go:535-542 | padding, backslashes for slashes and one "./" in front make no difference to a path |
| FindingMeaning.SnippetIff | internal/llm/dedup.go:582-584 | two snippets are normalised to the same text if and only if they have the same words in the same order |
| FindingMeaning.KindSaid | internal/llm/dedup.go:544-555 | a kind that says one of the words for a new, old or context line, in any case and padding, is stored as that kind |
| FindingMeaning.KindFallback | internal/llm/dedup.go:439-488 | without a kind, a finding on a line of one side only gets the kind of that side, and otherwise none |
| FindingMeaning.KeyFallback | internal/llm/dedup.go:586-588 | no finding is left without a key; one without a key of its own is known by its title and path |
| FindingMeaning.PaddingIgnored | internal/llm/dedup.go:439-488 | padding around the texts of a finding never matters, and its texts, lines and confidence are kept |
| FindingMeaning.MatchMeaning | internal/llm/dedup.go:257-352 | a kept finding recognises the first comparable listed row with its anchor; failing that it takes the first unseen one of its meaning, relocated exactly if path and kind agree; failing that the first unseen one of its file that the matcher accepts; and otherwise none |
| FindingMeaning.RelocatedPlace | internal/llm/dedup.go:287-326 | a finding that relocates a row and keeps it leaves the row live at the finding's path, kind, old line, new line and snippet |
| FindingMeaning.InsertedRow | internal/llm/dedup.go:354-396 | a finding that gets a row of its own is stored live, with all its columns as reported, for this run and merge request |
| FindingMeaning.RecognisedRow | internal/llm/dedup.go:258-285 | a finding that only recognises a row leaves it live at the place it had |
| FindingMeaning.SupersededPoints | internal/llm/dedup.go:73-86 | a row that was displaced is superseded and points to the live row of the finding that displaced it |
| FindingMeaning.TransitionsExact | internal/llm/dedup.go:150-171 | a finding goes from new over posted to active, from each of these to fixed, superseded, stale or ignored, and nowhere else; a row is live exactly if it can still change |
| FindingThresholds.EvaluateIff | internal/llm/dedup.go:192-203 | a finding is dropped exactly if it is on an old line only, and kept as new exactly if it is not, is confident enough and is at least as severe as the threshold |
| FindingThresholds.WordsDecide | internal/llm/dedup.go:192-203 | in any case and padding, nit and info are below low, low below medium, medium below high and high below critical |
| FindingProofs.ProcessSound | internal/llm/dedup.go:50-87 | after every candidate, each live row carries its listed anchor or one claimed in this run, claimed rows are marked as seen, and live anchors are distinct, although matching reads a stale list |
| FindingProofs.RetireRow | internal/llm/dedup.go:89-104 | the retiring loop meets no forbidden transition and changes exactly the listed rows without a hit |
| FindingProofs.RunFates | internal/llm/dedup.go:20-107 | which rows are live after a run, and the exact state of every formerly live row, reached by an allowed transition |
| FindingProofs.RunKeepsDistinct | internal/llm/dedup.go:20-107 | one run with any matcher keeps live anchors distinct within every merge request |
| FindingProofs.AnchorsStayDistinct | internal/llm/dedup.go:20-107 | over any sequence of runs on any merge requests, with any matcher answers, no two live rows of one merge request share an anchor |
| FindingIssues.RunKeepsFaithful | internal/llm/dedup.go:354-396 | every row's fingerprints agree with its own columns after any run |
| FindingIssues.CandidateCovered | internal/llm/dedup.go:50-87 | right after its step every kept finding has a live row of its issue that will not be retired, even if its old row was superseded before |
| FindingIssues.LiveIssuesAfterRun | internal/llm/dedup.go:20-107 | without a matcher the live issues are exactly the reported ones, plus the old ones when nothing was reviewed |
| FindingIssues.CandidatesAreFirstReports | internal/llm/dedup.go:31-48 | a candidate is exactly a first report of its anchor with its own evaluation |
| FindingIssues.IssueLiveIffFirstReportKept | internal/llm/dedup.go:31-104 | an issue is live after a run if and only if a first report of it is not on a deleted line, is confident enough and is at least as severe as the threshold |
| FindingIssues.IssuesAfterEveryRun | internal/llm/dedup.go:20-107 | the same after every matcher-free run of any history |
| FindingIssues.WeakCopyHidesIssue | internal/llm/dedup.go:31-48 | any copy reported first with a confidence below the threshold hides a finding that passes it |
| FindingIssues.MatcherLosesIssue | internal/llm/dedup.go:330-349 | a matcher that calls two issues the same makes a run lose one of them |
| FindingIssues.IssueLiveIff | internal/llm/dedup.go:50-104 | with any matcher or none, an issue is live after a run if and only if a finding of it got a row of its own, or an old live row of it was not displaced and was recognised (or nothing was reviewed) |
| FindingIssues.NoIssueLostIff | internal/llm/dedup.go:50-104 | a run loses no reported issue if and only if each of them has such a row |
| FindingIssues.ReplayStableIff | internal/llm/dedup.go:258-326 | a replay leaves the live rows unchanged if and only if every kept finding has a live row at its own anchor |
| FindingIssues.AllAnchoredIff | internal/llm/dedup.go:258-326 | after a run every kept finding has a live row at its anchor if and only if none of them recognises or relocates a row that another finding displaces or relocates away |
| FindingIssues.ReplayStablePlanned | internal/llm/dedup.go:20-107 | a replay leaves the live rows unchanged if and only if the matches of the first run, which read one list, meet that condition |
| FindingIssues.DistinctIssuesAnchored | internal/llm/dedup.go:258-326 | findings of distinct issues, without a matcher, meet it, and all have a live row at their anchor after the run |
| FindingIssues.DistinctIssuesReplay | internal/llm/dedup.go:20-107 | so replaying them changes no live row |
| FindingIssues.RepeatedIssueBreaksReplay | internal/llm/dedup.go:287-326 | two findings of one issue relocate one row twice, and the replay inserts a row |
| RunStores.RunStore.GetReviewRunByIdempotencyKey | internal/db/review_runs.sql.go:135-137 | finds a run with the key exactly when there is one |
| RunStores.RunStore.InsertReviewRun | internal/db/review_runs.sql.go:170-187 | appends a pending run, or nothing when the key is taken |
| RunStores.RunStore.SupersedeActiveRunsForMR | internal/db/review_runs.sql.go:388-408 | cancels all other active runs of the merge request and points them at the new one, and nothing else |
| RunStores.RunStore.CancelPendingRunsForMR | internal/db/review_runs.sql.go:13-26 | cancels exactly the active runs of the merge request |
| RunStores.RunStore.ReapStaleRunningRuns | internal/db/review_runs.sql.go:368-386 | exactly the running runs with a claim older than the timeout are rescheduled, and their number is returned |
| RunStores.RunStore.GetNextClaimableReviewRun | internal/db/review_runs.sql.go:56-67 | the first claimable run in the order of the query |
| RunStores.RunStore.ClaimNextRun | internal/scheduler/service.go:362-423 | claims that run for the worker and no other |
| RunStores.RunStore.MarkRetryableFailureIfRunning | internal/db/review_runs_custom.go:5-14 | a running run fails with a retry at the given time; any other is left alone, and the answer tells which |
| RunStores.RunStore.MarkFailedIfRunning | internal/db/review_runs_custom.go:16-25 | a running run fails for good; any other is left alone, and the answer tells which |
| RunStores.RunStore.UpdateCompletedIfRunning | internal/db/review_runs_custom.go:27-34 | a running run is completed; any other is left alone, and the answer tells which |
| RunStores.RunStore.UpdateReviewRunStatus | internal/db/review_runs.sql.go:435-456 | writes status and error code whatever the run is doing, and leaves its retry time alone |
| RunStores.RunStore.CreatePendingRun | internal/runs/service.go:126-201 | creates a run exactly when its idempotency key is new; a database fault on the way leaves nothing |
| RunStores.RunStore.HandleUpdate | internal/runs/service.go:94-121 | a creating update supersedes all other active runs, a repeated key changes nothing; a fault behind the insertion leaves the new run beside the old ones |
| RunStores.RunStore.ProcessEvent | internal/runs/service.go:70-92 | which transaction each event action runs, unknown actions none; when a statement fails, the table is as before or, for an update, holds just the new run beside the old ones |
| RunStores.RunStore.RetryRun | internal/adminapi/actions.go:63-73 | reschedules a failed, unsuperseded run now, and otherwise answers conflict or not found without a change |
| RunStores.RunStore.CancelRun | internal/adminapi/actions.go:75-91 | cancels an active run and refuses all others |
| RunStores.RunStore.RequeueRun | internal/adminapi/actions.go:93-108 | puts a cancelled or failed run back in the queue unless it was superseded |
| RunStores.RunStore.RerunRun | internal/adminapi/actions.go:110-138 | inserts a new pending run for a finished one |
| Runs.NextAmong | internal/db/review_runs.sql.go:56-67 | the chosen run is claimable and precedes every other claimable run; none means none is claimable |
| RunProofs.DormantStep | internal/db/review_runs_custom.go:42-78 | no transaction wakes a superseded run or changes its pointer, which names a newer run of the same merge request |
| RunProofs.AlwaysDormant | internal/db/review_runs.sql.go:388-402 | so it is in every state of every history |
| RunProofs.SupersededForever | internal/db/review_runs.sql.go:388-402 | once superseded, a run is never pending, running or retry-scheduled again, and its pointer stays |
| RunProofs.ChainEnds | internal/db/review_runs.sql.go:388-402 | following the pointers ends at an unsuperseded run of the same merge request |
| RunProofs.UpdateLeavesOnlyNew | internal/runs/service.go:94-121 | after a creating update the new run is the only active one of its merge request, others are untouched |
| RunProofs.CloseLeavesNone | internal/runs/service.go:205-271 | after a close no run of the merge request is active, others are untouched |
| RunProofs.SecondActive | internal/runs/service.go:70-121 | every step that activates a run on a busy merge request leaves two active runs |
| RunProofs.OpenTwice | internal/runs/service.go:70-92 | two open events with different keys leave two active runs |
| RunProofs.OneActiveIff | internal/runs/service.go:70-121 | a transaction keeps at most one active run per merge request if and only if it does not activate a second one on a busy merge request |
| RunProofs.OneActiveAlways | internal/runs/service.go:94-121 | in every history of updates, closes and worker steps each merge request has at most one active run |
| RunProofs.KeysStayUnique | internal/runs/service.go:145-201 | idempotency keys stay unique, and an event with a known key changes nothing |
| RunProofs.OrderlyStep | internal/db/review_runs_custom.go:63-78 | pending always implies no retry time, and rows stay in creation order |
| RunProofs.ClaimTakesHead | internal/db/review_runs.sql.go:33-67 | a claim takes the pending run itself or one pending ahead of it, never a retry or a later insert |
| RunProofs.AheadShrinks | internal/db/review_runs.sql.go:33-67 | nothing but a requeue puts a run ahead of a pending one |
| RunProofs.BoundedOvertaking | internal/db/review_runs.sql.go:33-67 | with k pending runs ahead, a pending run is still pending after at most k claims in any stretch without a requeue |
| RunProofs.LeavesQueue | internal/db/review_runs.sql.go:13-67 | a pending run leaves the queue only by a claim, a cancellation, being superseded or an unguarded status write |
| RunProofs.RestsOn | internal/db/review_runs.sql.go:33-67 | a run that is neither queued nor at work, with no retry before a given time, stays so and is claimed by no one in any history up to that time in which no operator retries or requeues it |
| RunProofs.GuardedUpdate | internal/db/review_runs_custom.go:5-34 | the three guarded updates change nothing unless the run is running, and never another run |
| RunProofs.GivenUp | internal/scheduler/service.go:602-607 | a run that completes or fails for good while running is never active and never claimed again in any history in which no operator revives it |
| RunProofs.RetriedWhenDue | internal/scheduler/service.go:554-566 | a run that fails with a retry is not claimed before the retry is due, whatever happens in between, and is claimable exactly from then on |
| RunMeaning.ManualFailureMeaning | internal/db/review_runs.sql.go:435-456 | a failed manual trigger records the run as failed and changes no more, so that the run is retried exactly if it had a retry time before |
| RunMeaning.EventMeaning | internal/runs/service.go:70-92 | which event does what, with the action in any case: opening words add one pending run, updating words add one and supersede the active ones of the merge request, closing words cancel those, and other words change nothing |
| RunMeaning.ClaimMeaning | internal/scheduler/service.go:362-423 | a claim hands one claimable run to the worker from now, touches no other, and finds none only if none is claimable |
| RunMeaning.RetryOrder | internal/db/review_runs.sql.go:56-67 | a retry is claimed only if no run is pending, and then the one that is due first, the older of two |
| RunMeaning.ClaimHolds | internal/db/review_runs.sql.go:33-67 | in every history, a claimed run is running for its worker alone, and no other claim takes it, until the worker reports, it is cancelled or superseded, or its claim has timed out |
| RunMeaning.ReapMeaning | internal/db/review_runs.sql.go:368-386 | the reaper takes back exactly the claims older than the timeout, which count one more retry and are claimable from thirty seconds later, not before |
| RunMeaning.ReapedRests | internal/db/review_runs.sql.go:368-386 | a reaped run is not claimed for thirty seconds in any history in which no operator revives it |
| RunMeaning.RetriesCounted | internal/db/review_runs_custom.go:5-34 | retries are counted by failing workers and the reaper alone, and no action changes the limit on them |
| RunMeaning.StaleCounted | internal/scheduler/service.go:425-437 | the number the reaper reports is the number of stale claims |
| RunMeaning.EndedForGood | internal/db/review_runs_custom.go:16-34 | a run that is finished, given up, cancelled, closed or superseded is recorded as such, and is never active or claimed again in any history in which no operator revives it |
| RunMeaning.RetryMeaning | internal/adminapi/actions.go:63-73 | a retry makes a failed, unsuperseded run claimable at once and free of its worker, and does nothing else |
| RunMeaning.RequeueMeaning | internal/adminapi/actions.go:93-108 | a requeue makes a cancelled or failed run pending and free of its worker, unless a newer head replaced it |
| RunMeaning.CancelMeaning | internal/adminapi/actions.go:75-91 | a cancellation ends the run exactly while it is active, and touches no other |
| RunMeaning.RerunMeaning | internal/adminapi/actions.go:110-138 | a rerun adds a pending run of the same merge request and retry limit exactly for a finished run and a new key |
| Webhooks.StepConsistent | internal/hooks/handler.go:147-255 | every lookup, transaction and background step keeps one hook row per key, the tables equal to the replayed log, and answered requests out of flight |
| Webhooks.IntakeExactlyOnce | internal/hooks/handler.go:147-255 | over any interleaving of deliveries, redeliveries and aborts, each committed delivery is applied once, in commit order |
| Webhooks.RunKeepsRequest | internal/hooks/handler.go:147-255 | over any events, replies are never taken back and a request stays in flight until its own transaction |
| Webhooks.RetryAfterAbort | internal/db/tx.go:59-85 | a failed delivery leaves the tables as they were; whatever happens before its retry arrives and while that is in flight, the retry is applied, or acknowledged as a duplicate only if the key was committed in between |
| Webhooks.ServedHistory | internal/hooks/handler.go:147-255 | the runs of the server, after any events, are those of a serial history that performs each committed delivery and each other transaction once, so every result on histories of runs holds in the server |
| Webhooks.RedeliveryIsDuplicate | internal/hooks/handler.go:147-165 | a delivery that was acknowledged is answered as a duplicate whenever it arrives again, over any events in between, and changes nothing |
| Webhooks.Intake.Transact | internal/db/tx.go:59-85 | the hook row and the event's effect are committed together or not at all, also when a statement fails behind others that have written |
| Hunks.ParseHunks | internal/context/assembler.go:769-795 | the loop yields the recursive parse, with the first bad header as the error |
| Hunks.ReadLines | internal/context/assembler.go:776-795 | the loop over the lines is the fold that opens a hunk at every header and adds the lines between to the last one |
| HunkHeaders.HeaderIff | internal/context/assembler.go:769-795 | a line is read as a header if and only if it is written as one, with or without the counts, and with those starts and that trailer |
| HunkHeaders.LinesCounted | internal/context/assembler.go:866-882 | old lines are the kept and removed ones, new lines the kept and added ones, changed lines the removed and added ones |
| HunkSections.ParsedSections | internal/context/assembler.go:769-795 | lines parse exactly if every header line can be read, into one hunk per header with exactly the lines up to the next header |
| HunkSections.FirstBadHeader | internal/context/assembler.go:769-795 | and otherwise the error is the first header line that cannot be read |
| HunkSections.TextSections | internal/context/assembler.go:769-795 | the same for any text, blank ones included |
| Hunks.ParsedHunksWellFormed | internal/context/assembler.go:769-795 | parsed hunks hold no line break, no header line in the body and no start above the largest integer |
| Hunks.CountLineSpans | internal/context/assembler.go:866-882 | the loop counts the context and deleted lines on the old side, the context and added lines on the new side |
| HunkRoundTrip.SplitJoin | internal/context/assembler.go:769-795 | splitting joined lines returns them |
| HunkRoundTrip.PrintedHeaderRead | internal/context/assembler.go:922-924 | a printed header is read back with the same starts and trailer |
| HunkRoundTrip.PrintThenParseAll | internal/context/assembler.go:769-864 | parsing the printed form of any list of hunks returns those hunks in order, without carriage returns before line breaks and without empty lines at the end of the text |
| HunkRoundTrip.RoundTripAllIff | internal/context/assembler.go:769-864 | the round trip of a list of hunks is exact if and only if there was nothing of that kind to lose |
| HunkRoundTrip.PrintThenParse | internal/context/assembler.go:850-864 | parsing a printed hunk returns that hunk without carriage returns before line breaks and without trailing empty lines |
| HunkRoundTrip.RoundTripIff | internal/context/assembler.go:769-864 | the round trip is exact if and only if there was nothing of that kind to lose |
| HunkRoundTrip.EmptyTailLost | internal/context/assembler.go:769-795 | a hunk with an empty last line does not come back |
| Assembler.KeepContext | internal/context/assembler.go:823-839 | how much trailing context is kept behind the last change that fits |
| Assembler.Truncate | internal/context/assembler.go:807-848 | the loop cuts behind the change that uses up the budget, plus the trailing context |
| Assembler.AdmitHunk | internal/context/assembler.go:474-493 | one hunk: whole, truncated, or skipped for having no change |
| Assembler.AdmitHunks | internal/context/assembler.go:466-494 | the hunks that fit the budget, stopping when it is spent |
| Assembler.KeepHunks | internal/context/assembler.go:441-512 | a parsed file is added, skipped at the limit, or passed over, with its entries in the report |
| Assembler.ProcessDiff | internal/context/assembler.go:410-513 | the loop body, branch by branch |
| Assembler.Assemble | internal/context/assembler.go:384-547 | the loop over the diffs, stopping at the first diff that does not parse |
| AssemblerProofs.TruncateExact | internal/context/assembler.go:807-848 | a truncated hunk is a proper prefix of the hunk's lines with exactly the remaining number of changes |
| AssemblerProofs.AdmitSpends | internal/context/assembler.go:466-494 | admitting hunks spends exactly the smaller of the budget and their changes |
| AssemblerProofs.AdmitCounts | internal/context/assembler.go:466-494 | the changed lines that are booked for a file are those of the hunks that are kept |
| AssemblerProofs.AdmitTakes | internal/context/assembler.go:466-494 | the kept hunks are the first parsed hunks with changes, whole and in order, the last one possibly a proper prefix marked as truncated |
| AssemblerProofs.AdmittedHunks | internal/context/assembler.go:466-494 | every kept hunk is well formed, and a parsed hunk or a proper prefix of one, according to its mark |
| AssemblerProofs.AdmitWhole | internal/context/assembler.go:466-494 | when nothing was cut, all hunks with changes are admitted whole and in order |
| AssemblerProofs.CoverageConserved | internal/context/assembler.go:410-547 | total = reviewed + listed as skipped, the skipped count agrees, and reviewed lines, files and hunks keep their limits |
| AssemblerProofs.DiffFate | internal/context/assembler.go:410-513 | every diff with a path is reviewed, or listed as excluded for the policy, the limit on files, no hunks or the limit on lines; what is left out is listed as skipped under its path, reason and number of lines |
| AssemblerProofs.ChangesMade | internal/context/assembler.go:410-513 | the changes of a request come from distinct diffs in their order, each with the hunks of its own diff and as many changed lines as it books |
| AssemblerProofs.ReportTallied | internal/context/assembler.go:410-547 | the report counts all hunks of the diffs, the hunks of the request and the excluded files, and names the reviewed paths |
| AssemblerLimits.CutExactly | internal/context/assembler.go:807-848 | a hunk over the budget is cut behind the change that uses it up and keeps the context that follows, as much as the limit on context allows and no less |
| AssemblerLimits.ModeIff | internal/context/assembler.go:530-540 | a report is degraded exactly if a limit kept a file out, truncated exactly if none was kept out but lines were cut, and in full scope otherwise |
| AssemblerLimits.SettingsUsed | internal/context/assembler.go:580-594 | the limits that are given hold, and those that are not are 20 lines of context, 2500 changed lines and 80 files |
| AssemblerLimits.RatioExact | internal/context/assembler.go:540-544 | the reported ratio is the share of the changed lines that were reviewed, and one if and only if all were |
| AssemblerProofs.FullScopeIsComplete | internal/context/assembler.go:530-547 | in full-scope mode the request holds every hunk with changes of every admitted file, whole, and only the policy's exclusions are skipped |
| AssemblerProofs.RequestPrinted | internal/context/assembler.go:850-864 | every hunk of a request, truncated or not, is the printed form of a well-formed hunk |
| DiffIndex.FileLineIndex.IndexLines | internal/reviewcore/diffindex.go:96-130 | the loop over the lines records the changed lines and the deletion anchors of the walk |
| DiffIndex.FileLineIndex.IndexHunk | internal/reviewcore/diffindex.go:74-130 | one hunk is indexed, or only its span is recorded when it is truncated |
| DiffIndex.BuildChangedLineIndex | internal/reviewcore/diffindex.go:48-72 | the index of a request by trimmed path |
| DiffIndex.WithinSpans | internal/reviewcore/diffindex.go:186-193 | whether one span holds the whole range |
| DiffIndexProofs.IndexedLines | internal/reviewcore/diffindex.go:74-130 | the line sets of an indexed hunk equal a declarative specification of deleted lines, added lines and deletion anchors |
| DiffIndexProofs.PrintedStarts | internal/reviewcore/diffindex.go:133-152 | the index's own header parser reads the starts the assembler printed |
| DiffIndexProofs.PatchWalked | internal/reviewcore/diffindex.go:85-95 | for a printed hunk the walk starts where the hunk starts and sees exactly its lines |
| DiffIndexProofs.StartsMeaning | internal/reviewcore/diffindex.go:85-95 | a patch without a readable header is walked from the hunk's own starts, and a header line is never walked |
| DiffIndexProofs.WalkEndsIff | internal/reviewcore/diffindex.go:85-130 | the walk ends at start + count on both sides if and only if every line is of a known kind |
| DiffIndexProofs.OddLineDerails | internal/reviewcore/diffindex.go:111-121 | a line of no known kind makes them disagree |
| DiffIndexProofs.FileLines | internal/reviewcore/diffindex.go:48-130 | the line sets of a file hold exactly what its untruncated hunks touch |
| DiffIndexProofs.FileSpans | internal/reviewcore/diffindex.go:74-83 | the span lists hold exactly the spans of its hunks |
| DiffIndexProofs.VerifyIff | internal/reviewcore/diffindex.go:155-193 | a location in a changed file is accepted if and only if it starts on a touched line with its range in one hunk, or its range lies in a truncated hunk |
| DiffIndexProofs.ChangedLineAcceptedIff | internal/reviewcore/diffindex.go:155-193 | a location on a changed line or anchor of any hunk is accepted if and only if some hunk's span holds its range |
| DiffIndexProofs.DeletedLinesAccepted | internal/reviewcore/diffindex.go:155-183 | in a hunk of known lines every deleted line is accepted on the old side |
| DiffIndexProofs.AddedLinesAccepted | internal/reviewcore/diffindex.go:155-183 | in a hunk of known lines every added line is accepted on the new side |
| DiffIndexProofs.TruncatedLinesAccepted | internal/reviewcore/diffindex.go:155-183 | so is every changed line that is kept in a truncated hunk of known lines, on its side |
| DiffIndexProofs.OddLineRejects | internal/reviewcore/diffindex.go:155-193 | behind a line of no known kind an added line is rejected |
| DiffIndexProofs.AnchorAcceptedIff | internal/reviewcore/diffindex.go:111-129 | an anchor of a run of pure deletions is accepted if and only if it is a line number and some hunk's span holds it |
| DiffIndexProofs.DeletionAccepted | internal/reviewcore/diffindex.go:111-129 | in a hunk of known lines that starts at line 1 or later every run of pure deletions has an accepted anchor |
| DiffIndexProofs.DeletionAnchoredIff | internal/reviewcore/diffindex.go:111-129 | in any file and hunk, a run of pure deletions has an accepted line on the new side if and only if the line behind it or the one before it is a line number inside some hunk's span |
| DiffIndexProofs.LoneDeletionIff | internal/reviewcore/diffindex.go:111-129 | the same in closed form for the only hunk of a file, when its lines are of known kinds |
| DiffIndexProofs.DeletedFileUnanchored | internal/reviewcore/diffindex.go:111-129 | the hunk of a deleted file has no such line |
| DiffIndexProofs.InlineIsInDiff | internal/reviewcore/engine.go:92-126 | an inline comment lies on a changed line or deletion anchor with its range inside one hunk, or inside a truncated hunk |
| DiffIndexProofs.PlacementIff | internal/reviewcore/engine.go:92-174 | a finding goes to the summary exactly without a file or line to put it on, to its file exactly if it starts outside the diff of a changed file, and inline otherwise |
| Judge.AddReviewer | internal/judge/engine.go:78-85 | appends a reviewer who is not yet listed |
| Judge.MergeReport | internal/judge/engine.go:32-42 | one finding opens a group or joins it, replacing the speaker only when it outranks it |
| Judge.MergeArtifact | internal/judge/engine.go:31-43 | the findings of one reviewer, in order |
| Judge.MergeReports | internal/judge/engine.go:29-44 | the map after both loops is the fold over all reports |
| Judge.ReadOut | internal/judge/engine.go:46-62 | every entry is listed once, in any order, and changes are requested when one of them blocks |
| Judge.Decide | internal/judge/engine.go:24-63 | the two together |
| JudgeProofs.GroupSpeaker | internal/judge/engine.go:30-44 | a merged finding is the first of the most severe reports of its identity |
| JudgeProofs.SpeakerUnique | internal/judge/engine.go:38-40 | there is exactly one such report |
| JudgeProofs.GroupReporters | internal/judge/engine.go:41-42 | its reviewers are exactly those who reported it, once each, in order of first report |
| JudgeProofs.RequestedIff | internal/judge/engine.go:46-62 | whatever the map order, changes are requested if and only if some blocking report is not outranked by an unrecognised severity of its group |
| JudgeProofs.BlocksIff | internal/judge/engine.go:55-107 | a severity blocks if and only if it ranks high or critical and is trimmed and without U+0130 |
| JudgeProofs.SeverityOrder | internal/judge/engine.go:94-107 | in any case and padding, low, medium, high and critical rank in that order, and every other severity below them |
| JudgeProofs.PlainVerdict | internal/judge/engine.go:24-63 | with such severities changes are requested exactly when some finding is high or critical |
| JudgeProofs.OrderFree | internal/judge/engine.go:24-63 | and the verdict does not depend on the order of artifacts or of the map |
| JudgeProofs.DottedRank | internal/judge/engine.go:94-107 | a word spelled with U+0130 survives trimming, keeps its rank and is not recognised |
| JudgeProofs.DottedHides | internal/judge/engine.go:38-57 | a trimmed severity spelled with U+0130 outranks "high" and turns the verdict into a pass |
| JudgeProofs.DottedOrderMatters | internal/judge/engine.go:38-57 | between a severity and that spelling of it the order decides |
| JudgeProofs.PaddedHides | internal/judge/engine.go:38-57 | a padded critical severity does the same |
| JudgeProofs.PaddedOrderMatters | internal/judge/engine.go:38-57 | between a severity and its padded copy the order decides |
| JudgeProofs.JoinInjective | internal/judge/engine.go:67-75 | joining is injective on parts without the separator |
| JudgeProofs.BarCollides | internal/judge/engine.go:65-76 | a separator inside a part gives another identity, different in a keyed field, the same key |
| JudgeProofs.KeyUniqueIff | internal/judge/engine.go:65-92 | equal keys imply equal category, claim, evidence, path, side and lines if and only if none of the parts contains the separator |
| JudgeProofs.UnkeyedFieldsMerge | internal/judge/engine.go:65-76 | findings that agree in the keyed fields are merged whatever their standards, snippets and platform metadata |
| ReviewEngine.CollectArtifacts | internal/reviewcore/engine.go:45-55 | collects the artifacts that say something, or stops with the first pack's error |
| ReviewEngine.PlaceFindings | internal/reviewcore/engine.go:85-88 | one candidate per merged finding, placed by the index of the request |
| ReviewEngine.Run | internal/reviewcore/engine.go:44-90 | finishes exactly when no pack fails, with a bundle of that decision, coverage, summary and placement |
| ReviewProofs.GateClosesIff | internal/reviewcore/engine.go:201-230 | an assembled request counts as incomplete if and only if its reviewed lines fall short of threshold times total, also when there is no report |
| ReviewProofs.IncompleteIff | internal/reviewcore/engine.go:201-232 | for any report, also one without changed lines, exactly when it counts as incomplete; a threshold that is no share stands for 0.8 |
| ReviewProofs.CleanIff | internal/reviewcore/engine.go:73-79 | the verdicts that can be downgraded are none, pass, passed and approved, in any case and padding |
| ReviewProofs.Gated | internal/reviewcore/engine.go:73-79 | only a clean verdict is downgraded, and every clean one is |
| ReviewProofs.JudgedVerdict | internal/reviewcore/engine.go:57-79 | the three verdicts of a bundle by blocking reports and coverage |
| ReviewProofs.VerdictEndToEnd | internal/reviewcore/engine.go:44-90 | from diffs and packs to verdict: a pass exactly when no finding of any pack blocks and the reviewed lines reach threshold times all changed lines of the diffs |
| ReviewProofs.IncompleteIsSaid | internal/reviewcore/engine.go:73-84 | a review that saw too little always publishes a summary that ends with the note on what was not reviewed |
| ReviewProofs.SummarySaid | internal/reviewcore/engine.go:234-242 | the judge's summary is published as it is, or with the note behind it when too little was reviewed; without either there is no summary |
| ReviewProofs.EveryReportPublished | internal/reviewcore/engine.go:85-88 | every finding of every pack has exactly one candidate with its key, carrying its group's speaker at its own placement |
| ReviewProofs.OnlyReportsPublished | internal/reviewcore/engine.go:85-88 | every candidate carries a finding that some pack reported |
| ReviewProofs.AllFindingsJudged | internal/reviewcore/engine.go:45-55 | the reports that are judged are exactly all findings of all packs, with their reviewers and in order |
| ReviewProofs.CollectedIff | internal/reviewcore/engine.go:45-55 | an artifact is collected if and only if some pack returned it and it names its reviewer, has a summary or has a finding |
| ReviewProofs.RenderedLines | internal/context/assembler.go:850-864 | the text of every hunk in a request holds exactly the hunk's lines, with their count and its mark |
| ReviewProofs.RequestMade | internal/context/assembler.go:495-513 | every change of a request carries the paths of its own diff and counts the changed lines in its own text |
| ReviewProofs.RequestHolds | internal/context/assembler.go:410-547 | the text of a whole request holds exactly the reviewed lines of its report, and at most as many as the limit |
| ReviewProofs.AssembledLinesAccepted | internal/reviewcore/diffindex.go:155-183 | every changed line of every hunk of an assembled request, truncated or not, is accepted on its side, when the hunk's lines are of known kinds |
| Schemas.AppendNullTypeName | internal/llm/parser.go:592-648 | adding null never changes which type a schema names |
| Schemas.RevisitAbsorbed | internal/llm/parser.go:551-590 | visiting a rewritten schema again only adds a null that is still missing, although it reads a rewritten list of required names |
| Schemas.RewriteIsOnePass | internal/llm/parser.go:532-590 | the multi-pass rewrite equals the one-pass specification |
| Schemas.RewriteIdempotent | internal/llm/parser.go:532-590 | rewriting twice is rewriting once |
| Schemas.NullExactlyForOptional | internal/llm/parser.go:551-590 | a property allows null exactly when it did before or was optional |
| Schemas.SilentIffAccepted | internal/llm/parser.go:815-896 | the validator reports nothing exactly on the values the schema means |
| Schemas.IssueIff | internal/llm/parser.go:815-896 | an issue is reported at a path if and only if a value of the wrong type, a field that is not allowed or a missing required field is found there, followed through value and schema together |
| Schemas.IntegralIff | internal/llm/parser.go:815-896 | a number passes as an integer exactly if it is one |
| Schemas.ValidationMeaning | internal/llm/parser.go:527-530 | the validation schema accepts a value if and only if the original accepts it without its null optional fields |
| Schemas.ValidationAcceptsOriginal | internal/llm/parser.go:527-530 | everything the original accepts, the validation schema accepts |
| Schemas.StrictMeaning | internal/llm/parser.go:522-525 | for every schema, strict acceptance is validation without the undeclared required names plus the presence of every declared property; for schemas that declare what they require, validation itself |
| Schemas.SampleIsStrict | internal/llm/parser.go:522-525 | every strict schema accepts some value, which validation accepts only if the required names are declared |
| Schemas.StrictImpliesValidationIff | internal/llm/parser.go:522-530 | strict values all pass validation if and only if every required name is declared |
| ReviewSchemas.ReviewSchemaDeclared | internal/llm/parser.go:425-498 | the schema of a review result declares every name it requires, at every depth |
| ReviewSchemas.StrictReviewPasses | internal/llm/parser.go:522-530 | so for it every strict value passes validation, is complete, and is valid under the original once null optionals are dropped |
| RateLimits.InMemoryRateLimiter.constructor | internal/llm/ratelimit.go:29-37 | a limiter without windows |
| RateLimits.InMemoryRateLimiter.SetLimit | internal/llm/ratelimit.go:39-50 | changes the limit of one scope and no window |
| RateLimits.ScopeKeyIff | internal/llm/ratelimit.go:43-59 | callers share a window exactly if they give the same name up to padding; a blank scope is named global |
| RateLimits.ScopesIndependent | internal/llm/ratelimit.go:60-92 | over every history, who is admitted under a scope depends on the attempts and limits of that scope alone |
| RateLimits.LimitInForce | internal/llm/ratelimit.go:39-71 | a limit is in force from when it is set until it is set again, and the default without one |
| RateLimits.UnlimitedScope | internal/llm/ratelimit.go:65-72 | a limit of no requests or of no time admits every attempt of every history |
| RateLimits.InMemoryRateLimiter.TryAdmit | internal/llm/ratelimit.go:61-83 | one pass through the critical section |
| RateLimits.InMemoryRateLimiter.Wait | internal/llm/ratelimit.go:52-93 | with any attempts and limit changes of other callers between its trips, the limiter ends where that history leads, and exactly the last trip of a granted call was admitted |
| RateLimits.OpensSince | internal/llm/ratelimit.go:73-82 | windows open at least their length apart, so the open one bounds how many opened since an instant |
| RateLimits.FillsSince | internal/llm/ratelimit.go:73-82 | it also bounds how many further admissions earlier windows took since that instant |
| RateLimits.SkewBound | internal/llm/ratelimit.go:60-92 | with readings at most 1 + j windows before the open window, an interval of k windows holds at most k + (k + j + 1)(limit - 1) admissions, over every history of all scopes |
| RateLimits.IntervalBound | internal/llm/ratelimit.go:60-92 | with no reading before the open window, any half-open interval of k windows holds fewer than (k + 1) times the limit |
| RateLimits.WindowInPast | internal/llm/ratelimit.go:60-83 | under a monotone clock the open window never starts in the future and is never over-full |
| RateLimits.MonotoneIsSetting | internal/llm/ratelimit.go:60-83 | so a monotone clock meets the condition of the bound |
| RateLimits.AttemptProgress | internal/llm/ratelimit.go:60-92 | windows advance by at least their length, and a blocked caller sleeps a positive time of at most one window plus the skew, after which it would be admitted |
| RateLimits.ThreeBursts | internal/llm/ratelimit.go:60-92 | readings two instants late put 3 x limit - 2 admissions into one window's time |
| RateLimits.FourBursts | internal/llm/ratelimit.go:60-92 | readings a window and two instants late put 4 x limit - 3 there |
| RateLimits.BoundedIff | internal/llm/ratelimit.go:60-92 | the bound of (k + 1) times the limit holds for all histories with a given skew if and only if the limit is 1, or the skew is below 2, or the limit is 2 and the skew is below the window plus 2 |

## Left out

- SHA-256: fingerprints are compared as the tuples that are hashed.
- Columns that no decision reads (range ends, evidence, body, suggested patch, discussion ids, latency and token metrics).
- Rows inserted as filtered are inserted again on a replay; the replay results speak about live rows only.
- Hunk context before and after a hunk (surroundingContext), the priority order of files and the include and exclude patterns, which are inputs here.
- The order and repetitions in a schema's list of required names, and keywords without a role in the rewrite or the validator.
- JSON decoding, alias parsing and the repair of malformed model output.
- Upserts of instances, projects and merge requests, audit rows, and the note commands that insert runs the way an open event does.
- How a database undoes an aborted transaction; the model restores the tables as they were when it began.
- MySQL isolation anomalies between a read and a later update in two open transactions; every transaction is serial.
- The retry delay and the gate of the scheduler; a worker's outcome is any guarded update.
- The wording of the judge's summary and of the lines below the heading of the coverage note, which are inputs here; the GitLab metadata of candidates; an engine without a judge; the advisor.
- Sides of a location other than "old" and "new", which the code treats as "new" when it verifies and as text when it builds a key.
- Unicode case folding beyond the letters that can fold or lower to ASCII.
- Floating-point rounding of ratios and confidence values; they are exact reals.
- Token checks, signatures, platform adapters, writers, dashboards and configuration.
- RateLimits.InMemoryRateLimiter.Wait: models the finitely many trips it is given and says so when they run out, because termination depends on the clock and on other callers.
