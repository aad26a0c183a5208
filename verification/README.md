# A verified model of the NeonDiff review daemon's algorithms and protocols

NeonDiff reviews pull requests from a long-running daemon. Most of the program is input and output,
but around it stand small algorithms and protocols that its guarantees rest on. This project models
them in Dafny, one module for each source file, and proves what they promise for every input, every
interleaving or every reachable state. `dafny verify dfyconfig.toml` checks all of it.

| module | source | main result |
|---|---|---|
| `ContextBudget` | src/context-budget.ts | the greedy chunker is optimal, and a refusal means that no split exists |
| `LinkHeader` | src/issue-event-pagination-links.ts | the Link reader accepts exactly a printed grammar and reads it back |
| `MirrorLock` | src/git.ts | mutual exclusion, arrival order, no deadlock, independent paths, exact tail map |
| `EvalMatching` | src/eval-harness.ts | greedy matching blocks by rank and is at least half of any matching |
| `Wilson` | src/eval-harness.ts | the lower bound is the least rate a score test does not reject; the floor needs 73 findings |
| `Calibration` | src/calibration-aggregate.ts, src/eval-harness.ts | bins and categories conserve labels; exactly what makes a store eligible |
| `ConfigPatch` | src/config-cli.ts | the algebra of patches: exact flattening, framing, idempotence |
| `ConfigWriter` | src/config-cli.ts | no lost update, one lock holder, only the own lock is removed; a free lock can be taken and a patch committed |
| `Findings` | src/findings.ts | every finding ends once; what is posted is the most important and free of near-duplicates |
| `Diff` | src/diff.ts | exactly which lines a patch text yields, and when they are the covered ones |
| `CodexTranscript` | src/codex-runtime.ts | each status lands on its own header |
| `RelatedContext` | src/github-related-context.ts | when a packet is refused; it names covered repositories only, each reference once |
| `DaemonCycle` | src/daemon.ts | one enrichment pass, cleanup never beside it and never forgotten |
| `CoverageAudit` | src/coverage-audit.ts | every pull request in exactly one bucket; expired leases hide nothing |
| `TokenCache` | src/github.ts | a returned token belongs to the repository and is live; when a minted token is reused |

`Basics`, `Scanner`, `Decimal` and `Sorting` hold what several modules use.

Loops of the source are methods with loops, proved against functions on values; shared objects that
the source updates in place are classes whose methods are proved equal to the steps of a state
machine; asynchronous code is a machine whose steps run from one await to the next. Prompt building,
rendering, redaction, secret detection, collation of strings, answers from GitHub, the state
store and the clock are parameters, so each result holds for all of them. Arithmetic is over
unbounded integers and exact reals, with the square root constrained to be the non-negative root.

Five things the proofs show that the code's comments do not say:

- The chunker's optimality needs that every part of an in-budget run is in budget
  (`ContextBudget.Hereditary`); an estimate that never grows when files are dropped has this property.
- The bins of the calibration aggregate look a label up by fingerprint. Their matched counts equal
  the number of true positives exactly when no false positive shares a fingerprint with a true one.
- A removed line whose text starts with `--`, and a newline at the end of a patch, each make the
  right-side collector count one line too many; without them it is exact.
- A cleanup reported due to a cycle that is denied admission is not remembered.
- A live token minted last for a repository is returned only while the repository stays bound to its
  installation: a request through another installation with a live token rebinds it, without a mint.

## Model

| member | source | states |
|---|---|---|
| `ContextBudget.EstimateIsLeast` | src/context-budget.ts:86-93 | the estimate is the least number of tokens whose character allowance covers the scaled prompt length |
| `ContextBudget.GreedyStaysAhead` | src/context-budget.ts:205-223 | after closing a chunk, no rival split with as many parts reaches further than the greedy one |
| `ContextBudget.OversizeFileBlocks` | src/context-budget.ts:206-209 | no in-budget split gets past a file that is over budget alone |
| `ContextBudget.BuildFileBoundaryChunks` | src/context-budget.ts:191-228 | the chunks are a numbered, in-budget, in-order split of the files with the fewest parts; chunks are returned exactly when a split into at most maxChunks parts exists; an oversized file is the reason of a refusal exactly when the files before it do not exhaust the chunks |
| `ContextBudget.PlanContextBudget` | src/context-budget.ts:102-189 | which mode is chosen and when; under the chunk policy a review is skipped only if it cannot be split, for the reason the chunker gives |
| `ContextBudget.MonotoneIsHereditary` | src/context-budget.ts:191-228 | an estimate that dropping files from either end never raises meets the condition of the optimality result |
| `LinkHeader.SkipOws` | src/issue-event-pagination-links.ts:70-74 | the cursor stops at the first character that is not optional white space |
| `LinkHeader.ConsumeRelationToken` | src/issue-event-pagination-links.ts:76-80 | the longest non-empty run of relation characters, or a failure |
| `LinkHeader.ConsumeTarget` | src/issue-event-pagination-links.ts:23-29 | a non-empty run of target characters closed by `>`, or a failure |
| `LinkHeader.ConsumeRelation` | src/issue-event-pagination-links.ts:39-55 | the end of a bare or quoted relation, or a failure |
| `LinkHeader.ParseMember` | src/issue-event-pagination-links.ts:18-61 | one member with its raw slice, target and relation, and where it ends |
| `LinkHeader.ParseIssueEventLink` | src/issue-event-pagination-links.ts:11-68 | the cursor loops compute the parse function; the result is absent exactly for a missing value, invalid for one that is not text or empty, and for a text present exactly when it is printed by the grammar |
| `LinkHeader.RoundTrip` | src/issue-event-pagination-links.ts:11-68 | printing any valid list of members and parsing it returns the same raw slices, targets and relations |
| `LinkHeader.AcceptsExactlyTheGrammar` | src/issue-event-pagination-links.ts:11-97 | a text is accepted with given members if and only if it prints some valid list with those members (section 3 of RFC 8288, one `rel` per link) |
| `LinkHeader.RawSlicesRebuildTheHeader` | src/issue-event-pagination-links.ts:57-65 | the raw slices joined by white space and commas are the whole header |
| `LinkHeader.CharacterClasses` | src/issue-event-pagination-links.ts:70-97 | the codes of the three character classes, and how the classes nest |
| `MirrorLock.StepKeepsInv` | src/git.ts:442-454 | every step of any caller keeps arrival order, the predecessor chain, the tail map and the resolved set |
| `MirrorLock.MutualExclusion` | src/git.ts:447-453 | in every reachable state at most one action runs per mirror path |
| `MirrorLock.FirstComeFirstServed` | src/git.ts:443-449 | callers on one path run in arrival order, also when actions throw |
| `MirrorLock.TailMapIsExact` | src/git.ts:443-452 | a path has a map entry exactly while it has an unfinished caller, and the entry is the latest arrival's tail |
| `MirrorLock.EarliestCanProceed` | src/git.ts:447-452 | an unfinished caller is running or able to run if and only if it is the earliest unfinished one of its path |
| `MirrorLock.EachStepMovesItsCaller` | src/git.ts:442-454 | an arriving caller may start at once exactly when nobody on its path is unfinished; a finish, also by throwing, lets the next one start; no step changes another caller |
| `MirrorLock.CanAlwaysDrain` | src/git.ts:442-454 | from every reachable state all callers can be run to completion, leaving the map empty |
| `MirrorLock.EnablednessIsLocal` | src/git.ts:447-453 | whether a caller may start or finish depends on callers of its own path only |
| `MirrorLock.PathsAreIndependent` | src/git.ts:442-454 | any run seen from one path is a run of that path alone and reaches the same states |
| `MirrorLock.GitMirrorTails.Enter` | src/git.ts:443-446 | the synchronous prefix is the arrival step and keeps the invariant |
| `MirrorLock.GitMirrorTails.Await` | src/git.ts:447-449 | the caller proceeds exactly when its predecessor is resolved |
| `MirrorLock.GitMirrorTails.Leave` | src/git.ts:450-453 | the finally block is the finish step, for normal and throwing actions |
| `EvalMatching.CandidatesExact` | src/eval-harness.ts:1067-1074 | the candidates are exactly the same-path pairs that classify |
| `EvalMatching.MatchKindsExactly` | src/eval-harness.ts:1101-1116 | when a finding matches a label and how: severity, line distance and shared tokens at 25, 35 and 55 percent, in whole numbers |
| `EvalMatching.OrderIsPreorder` | src/eval-harness.ts:1076-1081 | the candidate comparator is a total preorder |
| `EvalMatching.GreedyIsMatching` | src/eval-harness.ts:1083-1096 | no finding and no label is used twice |
| `EvalMatching.UnchosenIsBlocked` | src/eval-harness.ts:1087-1096 | a candidate left out shares an end with a chosen one sorted no later |
| `EvalMatching.GreedyIsHalfOfAny` | src/eval-harness.ts:1083-1096 | any matching of the candidates has at most twice as many pairs |
| `EvalMatching.MatchFindings` | src/eval-harness.ts:1066-1099 | the loop with its used-id sets computes the greedy matching, and the closing filter removes nothing |
| `EvalMatching.MatchFindingsCorrect` | src/eval-harness.ts:1066-1108 | the above for the findings and labels given, with the code's own ranking |
| `EvalMatching.LeftOutForABetterOne` | src/eval-harness.ts:1076-1096 | a candidate left out gave way to a chosen one: an exact-line match only to an exact-line one, never a nearby one to a semantic one, and within a kind only to one at most as far and, at equal distance, at least as confident |
| `EvalMatching.CountsAreExact` | src/eval-harness.ts:916-937 | false positives and negatives count exactly the unmatched findings and labels; TP+FP and TP+FN are the list sizes; the three kinds add up to TP |
| `Wilson.BoundIsLeastRateNotRejected` | src/eval-harness.ts:1397-1405 | the bound is the least success rate that a score test at z = 1.96 does not reject |
| `Wilson.BoundInRange` | src/eval-harness.ts:1397-1405 | the bound lies between zero and the observed rate |
| `Wilson.BoundIsZeroExactly` | src/eval-harness.ts:1397-1405 | for all counts, the bound is zero exactly without a success or when the counts make no sense |
| `Wilson.BoundIsMonotone` | src/eval-harness.ts:1397-1405 | more successes never lower the bound |
| `Wilson.PerfectBound` | src/eval-harness.ts:1397-1405 | a perfect record on n findings gives n / (n + z^2) |
| `Wilson.BoundCeiling` | src/eval-harness.ts:1397-1405 | no record on n findings gives more than n / (n + z^2) |
| `Wilson.FloorForcesFindings` | src/eval-harness.ts:326-332 | reaching the 0.95 floor needs at least 73 findings |
| `Wilson.PerfectRecordReachesFloor` | src/eval-harness.ts:326-332 | a perfect record reaches the floor if and only if it has at least 73 findings |
| `Calibration.BinSizesSum` | src/eval-harness.ts:1320-1334 | the bins count every finding once if and only if no confidence is outside [0, 1.01), and their matched counts add up |
| `Calibration.ComputeCategoryPrecision` | src/calibration-aggregate.ts:89-105 | the map loop and sort give the table of per-category counts |
| `Calibration.CategoryTableExact` | src/calibration-aggregate.ts:89-105 | the table is in collation order, holds each category's counts, and the counts add up to all labels and all true positives |
| `Calibration.CategoryEntriesExact` | src/calibration-aggregate.ts:89-105 | exactly which entries the table holds: one for each category that occurs, with the number of its labels, of the confirmed ones, and their ratio |
| `Calibration.UnvalidatedEarnsNothing` | src/calibration-aggregate.ts:45-59 | an unvalidated label that is not a control changes nothing, wherever it stands |
| `Calibration.AggregateConserves` | src/calibration-aggregate.ts:45-87 | bin sizes and category counts both sum to the validated labels |
| `Calibration.AggregateAccounts` | src/calibration-aggregate.ts:45-59 | the label, urgent-label and control counts and the three bins, as sets of positions in the label store with the bin borders 0.5, 0.8 and 1.01 |
| `Calibration.MatchedCountsTruePositives` | src/calibration-aggregate.ts:51-56 | the bins' matched counts equal the true positives if and only if no false positive shares a true positive's fingerprint |
| `Calibration.SharedFingerprintInflates` | src/calibration-aggregate.ts:51-56 | a two-label store for which they differ |
| `Calibration.EligibleExactly` | src/calibration-aggregate.ts:107-120 | eligible if and only if there are 100 validated labels, 30 urgent ones, 10 controls and a bin with a lower bound of 0.95; otherwise the first of these that fails gives the reason |
| `Calibration.EligibilityForcesEvidence` | src/calibration-aggregate.ts:45-120 | eligibility needs 100 validated labels, 30 P0/P1, 10 controls and a bin of at least 73 labels at 95% precision or better |
| `Calibration.GatesAgree` | src/eval-harness.ts:1380-1395 | the suite gate and the aggregate gate give the same reason on every bound the bins can produce |
| `ConfigPatch.FlattenIsPrefixFree` | src/config-cli.ts:398-410 | no flattened path lies above or below another |
| `ConfigPatch.FlattenIsExact` | src/config-cli.ts:398-410 | the settings are exactly the non-record values of the patch with their paths |
| `ConfigPatch.GetNestedValue` | src/config-cli.ts:443-450 | the cursor loop reads the value at a path, missing when a step leaves the records |
| `ConfigPatch.SetThenGet` | src/config-cli.ts:428-441 | a written path reads back its value |
| `ConfigPatch.SetKeepsOthers` | src/config-cli.ts:428-441 | a write leaves every incomparable path as it was |
| `ConfigPatch.PutKeepsOrder` | src/config-cli.ts:428-441 | a write keeps the order of the fields of a record; a new field goes last |
| `ConfigPatch.DeepEqualIsSameMeaning` | src/config-cli.ts:452-467 | the comparison decides equality of JSON values up to field order |
| `ConfigPatch.ApplyPatch` | src/config-cli.ts:316-327 | the loop computes the patched config, the changed settings and the no-op paths |
| `ConfigPatch.ApplySets` | src/config-cli.ts:319-326 | after the loop each setting reads its new value, or the equal value it already had |
| `ConfigPatch.ApplySplits` | src/config-cli.ts:319-326 | the changed settings and the no-op paths split the settings in order; a setting is changed exactly when the current config has no value there or one of another meaning |
| `ConfigPatch.ChangedMeansDifferent` | src/config-cli.ts:319-333 | something is listed as changed, so that the config is written, if and only if some patched path then reads differently; otherwise the config is left as it was |
| `ConfigPatch.PatchedPathsRead` | src/config-cli.ts:307-327 | every path the patch sets reads the patched value |
| `ConfigPatch.UnpatchedPathsKeep` | src/config-cli.ts:307-327 | every path incomparable with all patched ones reads as before |
| `ConfigPatch.PatchIsIdempotent` | src/config-cli.ts:307-327 | a second application changes nothing and reports only no-op paths |
| `ConfigWriter.MutualExclusion` | src/config-cli.ts:518-559 | in every run at most one writer is between creating and giving up the lock file |
| `ConfigWriter.OnlyOwnLockRemoved` | src/config-cli.ts:532-545 | a failed acquire or a release removes only the lock file its writer created, and no other step removes one |
| `ConfigWriter.OwnLockIsRecognised` | src/config-cli.ts:532-545 | even when lock files are removed by hand, a writer goes on to unlink exactly when the file it finds is its own |
| `ConfigWriter.CommitsFollowTheirBase` | src/config-cli.ts:281-343 | every commit is its writer's patch of its snapshot, at the expected revision, and replaces exactly that snapshot unless something changed between re-check and rename |
| `ConfigWriter.ExpectedRevisionIsTheBase` | src/config-cli.ts:292-294 | a commit made with an expected revision was computed from the text with that revision |
| `ConfigWriter.NoLostUpdate` | src/config-cli.ts:237-262 | in every run of lock-taking writers each commit was computed from what the previous one left |
| `ConfigWriter.OpenTakesExactlyAFreeLock` | src/config-cli.ts:523-526 | an exclusive open makes its writer the holder if and only if the lock was free, and otherwise changes nothing but ends that writer |
| `ConfigWriter.WriterCanCommit` | src/config-cli.ts:237-343 | whenever the lock is free, a writer about to start whose expected revision and patch suit the content can go on alone to commit exactly once and free the lock |
| `ConfigWriter.LockCanBeFreed` | src/config-cli.ts:532-545 | a writer that holds the lock can always end without touching the config and free the lock |
| `Findings.NearDuplicateSymmetric` | src/findings.ts:210-231 | near-duplication is symmetric |
| `Findings.NearDuplicateExactly` | src/findings.ts:210-231 | when two findings are near-duplicates: path, category, at most three lines apart, and equal non-empty title keys or a prefix of at least twelve characters |
| `Findings.NearDuplicateNotTransitive` | src/findings.ts:210-231 | it is not transitive, so rank decides who survives |
| `Findings.RankIsPreorder` | src/findings.ts:124-133 | the rank comparator is a total preorder |
| `Findings.RankIsImportance` | src/findings.ts:124-133 | the rank is importance, by cases: P0 before P1 before P2 before P3, then higher confidence, then path, line and title |
| `Sorting.SortPermutes` | src/findings.ts:124-133 | sorting by a comparator keeps every element, with multiplicity |
| `Sorting.SortOrders` | src/findings.ts:124-133 | the result is in comparator order |
| `Sorting.SortIsStable` | src/findings.ts:124-133 | elements the comparator cannot tell apart keep their order |
| `Findings.SuppressSameRunNearDuplicates` | src/findings.ts:194-208 | the loop computes the split into kept and dropped |
| `Findings.SuppressIsIdempotent` | src/findings.ts:194-208 | suppressing a list without near-duplicates drops nothing |
| `Findings.SuppressRespectsRank` | src/findings.ts:194-208 | kept findings stay in order, and each dropped one has a kept near-duplicate that ranks no lower |
| `Findings.NormalizeFindingsForReview` | src/findings.ts:108-180 | comments and drops are exactly the rendered groups, with their reasons, for any cap including a negative one |
| `Findings.EveryFindingEndsOnce` | src/findings.ts:116-147 | the four groups together are the input, counted with multiplicity |
| `Findings.PostedAreTheBest` | src/findings.ts:124-147 | comments number the cap or the distinct findings, carry no secret, are in rank order, pairwise distinct, and no cap drop outranks one |
| `Findings.DuplicatesHaveRepresentatives` | src/findings.ts:135-142 | each duplicate drop has a no-lower-ranked near-duplicate that survived, and suppressing the survivors drops nothing |
| `Findings.ImportanceDecides` | src/findings.ts:124-147 | comments come in order of importance, no finding over the cap is more important than a comment, and each suppressed duplicate has a surviving near-duplicate at least as important |
| `Findings.OutputsCarryTheirFindings` | src/findings.ts:135-177 | one comment for each finding posted, at its place and with its fingerprint, and one drop with its reason for each finding dropped |
| `Diff.CollectFileLines` | src/diff.ts:9-31 | the line loop computes the scan of the patch text |
| `Diff.CollectRightSideLines` | src/diff.ts:5-37 | the loop computes the table of right-side lines by file name |
| `Diff.EntriesAreExact` | src/diff.ts:5-37 | for every list of files: a name has an entry if and only if some file of that name has a right-side line, and the entry is the set of the last such file |
| `Diff.HeaderReadsBack` | src/diff.ts:3-17 | a rendered hunk header yields its new-file start line |
| `Diff.CollectsExactly` | src/diff.ts:12-31 | for every rendered list of hunks, the exact set of lines collected |
| `Diff.CollectsTheCoveredLines` | src/diff.ts:12-31 | it is the set of lines the hunks cover if and only if no removed line starts with two dashes and the text does not end in a newline |
| `Diff.ValidateFindingLocations` | src/diff.ts:39-61 | the loop computes the split into valid and dropped |
| `Diff.ValidationSplits` | src/diff.ts:47-58 | every finding ends once; valid ones lie on right-side lines, dropped ones do not, with the right reason |
| `Diff.ValidOnCoveredLines` | src/diff.ts:39-61 | for any files of distinct names, each rendered from its own clean hunks, a finding is valid exactly when the hunks of the file it names cover its line |
| `CodexTranscript.HeaderEnd` | src/codex-runtime.ts:168-170 | a header takes the plain lines after it, at most 200, and the length flag is exact |
| `CodexTranscript.ParseCodexCommands` | src/codex-runtime.ts:153-205 | the index-jumping loop computes the reader function |
| `CodexTranscript.StatusesMarkInOrder` | src/codex-runtime.ts:158-164 | with a batch's headers queued, its j-th status is recorded on its j-th header |
| `CodexTranscript.TranscriptIsReadBack` | src/codex-runtime.ts:153-205 | for every transcript of batches: records are the first 200 headers with the status of their own position or none, totals count all, and the truncation flag is exact |
| `RelatedContext.CheckCoverage` | src/github-related-context.ts:195-218 | the loop computes the coverage fold, including the log of calls |
| `RelatedContext.CoverageIsExact` | src/github-related-context.ts:199-218 | covered and unchecked references are exactly those of repositories answered yes and never asked about |
| `RelatedContext.CoverIsClosed` | src/github-related-context.ts:206-213 | a reference goes unchecked only once the item limit is filled or ten other repositories have been asked about, and never one of the reviewed repository |
| `RelatedContext.CoverWithoutCallback` | src/github-related-context.ts:200 | without a coverage callback every reference passes |
| `RelatedContext.CoverageCallsBounded` | src/github-related-context.ts:197-216 | each repository is asked about once, at most ten others are, and answers are recorded as given |
| `RelatedContext.FetchReferences` | src/github-related-context.ts:228-285 | the loop computes the fetch fold, including the break on a rate limit |
| `RelatedContext.FetchConserves` | src/github-related-context.ts:232-285 | every bounded reference is fetched or omitted exactly once |
| `RelatedContext.FetchOutcomes` | src/github-related-context.ts:232-285 | in both directions: a reference is fetched, failed or rate limited exactly by the outcome of its request and whether a rate limit came at or before it |
| `RelatedContext.FetchedExactly` | src/github-related-context.ts:219-285 | the fetched references are those among the first maxRelatedItems covered ones whose request returned an item before any rate limit |
| `RelatedContext.RenderWithinBudget` | src/github-related-context.ts:413-445 | trimming keeps the longest prefix whose rendering fits, or none |
| `RelatedContext.TrimConserves` | src/github-related-context.ts:432-444 | trimming moves references to the omissions and loses none |
| `RelatedContext.OmittedExactly` | src/github-related-context.ts:173-310 | exactly which omissions a packet lists, and the reason of each: outside the scope, over a limit, lost in fetching, cut off by a rate limit, or trimmed |
| `RelatedContext.BuildPacket` | src/github-related-context.ts:173-350 | a packet is refused if and only if no rendering fits, not even the one without references, or that of the longest prefix is not free of secrets; otherwise it lists the longest prefix that fits of the fetched references in relevance order, and its listed and omitted references are together exactly the nameable ones |
| `RelatedContext.PacketNamesExactly` | src/github-related-context.ts:179-226 | which references are nameable, once each: in scope, those of repositories answered yes or not checked at all; unasked and out-of-scope ones only when such references are not concealed |
| `RelatedContext.ConcealedPacketNamesCoveredOnly` | src/github-related-context.ts:179-226 | with concealment, the nameable ones are the in-scope references to repositories checked as covered, once each |
| `DaemonCycle.AtMostOnePass` | src/daemon.ts:371-392 | at most one pass is in flight, and the guard that clears the variable always finds its own pass |
| `DaemonCycle.EachCycleStartsItsPass` | src/daemon.ts:183-185 | an admitted cycle with enrichment enabled that finds no pass running leaves exactly one running, a new one; every other cycle leaves the running passes as they were; an end leaves none |
| `DaemonCycle.CleanupRunsAlone` | src/daemon.ts:143-169 | cleanup never starts while a pass is in flight |
| `DaemonCycle.PendingIsExact` | src/daemon.ts:143-148 | the flag is set exactly when an admitted cycle reported a cleanup due and none has attempted it since |
| `DaemonCycle.DueIsServedAtFirstChance` | src/daemon.ts:143-169 | a due cleanup stays pending until the first admitted cycle with no pass in flight, which attempts it |
| `DaemonCycle.EveryCleanupWasDue` | src/daemon.ts:143-169 | no cleanup is attempted without a report |
| `DaemonCycle.Daemon.RunCycle` | src/daemon.ts:102-185 | the uninterrupted part of a cycle is the cycle step |
| `DaemonCycle.Daemon.StartIssueEnrichmentPass` | src/daemon.ts:371-381 | a pass starts only when none is in flight |
| `DaemonCycle.Daemon.EndPass` | src/daemon.ts:388-390 | the end of a pass clears the variable |
| `CoverageAudit.FirstCurrentFinds` | src/coverage-audit.ts:193-208 | the active job is the first row whose lease has not run out and whose base is the current one; there is none exactly when no row qualifies |
| `CoverageAudit.PlacementMeans` | src/coverage-audit.ts:481-577 | for each list exactly when the placement of a head adds it there: queued and deferred by the state of its job, processed, deferred under a cooldown, or unprocessed |
| `CoverageAudit.LiveHeadIsPlaced` | src/coverage-audit.ts:416-453 | a failed live read is recorded; when head, base or state have changed the listed head is recorded as stale and the live head is placed, unless it is closed or a draft |
| `CoverageAudit.AuditDecides` | src/coverage-audit.ts:372-413 | why a listed pull is skipped, when its job alone lists it, and when a live read or its records decide |
| `CoverageAudit.PullFillsOne` | src/coverage-audit.ts:372-464 | auditing a pull adds one to exactly one bucket and changes no other |
| `CoverageAudit.EveryPullIsAccountedFor` | src/coverage-audit.ts:343-469 | the six buckets together hold exactly the pulls seen |
| `CoverageAudit.EachPullIsAudited` | src/coverage-audit.ts:371-464 | every pull of every readable repository is audited, and what its audit adds to the report is there at the end |
| `CoverageAudit.UnreadReposAreReported` | src/coverage-audit.ts:344-368 | a repository is listed as not allowed exactly when its profile refuses it, and as a read failure exactly when its pulls cannot be listed or it was asked for by name and is refused |
| `CoverageAudit.ExpiredLeasesHideNothing` | src/coverage-audit.ts:783-799 | jobs with run-out leases never change where a pull is placed |
| `CoverageAudit.UnprocessedHeadIsReported` | src/coverage-audit.ts:569-576 | a head that nothing processed, skips or defers is reported unprocessed, whatever run-out leases it has |
| `CoverageAudit.CoverageAuditReport.AddQueued` | src/coverage-audit.ts:579-610 | a job goes to the queued or the deferred list, with its counter |
| `CoverageAudit.CoverageAuditReport.AddProcessedOrUnprocessed` | src/coverage-audit.ts:481-577 | the branches place the head as specified and keep every counter equal to its list |
| `CoverageAudit.CoverageAuditReport.AddPull` | src/coverage-audit.ts:372-464 | one pull is audited as specified |
| `CoverageAudit.CoverageAuditReport.AddLivePull` | src/coverage-audit.ts:416-453 | the live read, the stale-head record and the placement of the live head |
| `CoverageAudit.CoverageAuditReport.AddRepo` | src/coverage-audit.ts:344-465 | a repository is skipped, unreadable or audited pull by pull |
| `CoverageAudit.CoverageAuditReport.Collect` | src/coverage-audit.ts:343-469 | every counter equals its list length, the buckets add up to the pulls seen, and `ok` means no unprocessed head and no failed read |
| `TokenCache.CacheKeyInjective` | src/github.ts:721 | the string key determines repository and installation |
| `TokenCache.StepKeepsInv` | src/github.ts:695-749 | every step of every request keeps both levels equal, cached tokens issued for their key, and answers sound |
| `TokenCache.ReturnedTokensAreSound` | src/github.ts:695-749 | in every interleaving a returned token was issued for the requested repository and, unless issued by that call, has over 60 seconds left |
| `TokenCache.CacheLevelsAgree` | src/github.ts:724-747 | a repository's entry always equals the entry of the installation it refers to |
| `TokenCache.IssuedIsStored` | src/github.ts:738-748 | after a mint both levels hold exactly the issued token and expiry, the caller gets it, and every other entry of both maps is unchanged |
| `TokenCache.MintedTokenIsReused` | src/github.ts:695-730 | in any run after a mint without another one for the repository, a request for the repository is answered with that token at once if and only if it is live and the repository was last bound to its installation; one that names the installation too, if and only if it is live |
| `TokenCache.LiveTokenAnswersAtOnce` | src/github.ts:695-730 | while a repository is served through one installation, a minted token answers every request for it at once as long as it is live |
| `TokenCache.RepositoryCanBeRebound` | src/github.ts:724-730 | the condition is needed: without any mint, a request through another installation with a live token rebinds the repository |
| `TokenCache.MintsOnlyWithoutLiveEntry` | src/github.ts:716-736 | a token is requested exactly when no live one is cached for the repository and installation |
| `TokenCache.InstallationTokens.CachedForRepo` | src/github.ts:696-697 | the repository lookup |
| `TokenCache.InstallationTokens.CachedForId` | src/github.ts:717-730 | the two lookups and the copy to the repository level |
| `TokenCache.InstallationTokens.StoreMinted` | src/github.ts:738-747 | both maps take the new token, as the mint step does, and still agree |

## Left out

- Process, network and file-system calls: git, GitHub, the model providers, SQL queries and the operating system appear only as parameters or as steps that may fail.
- Secret rules, redaction, title normalisation, tokenisation of text and relevance scores: regular-expression semantics; they are parameters or fields.
- Reading the command, directory and flag out of an exec header (src/codex-runtime.ts:171-194), and cutting the echoed prompt (lines 149-152): the transcript model starts from classified lines.
- Floating-point rounding in the estimates, confidences and the Wilson bound: real arithmetic is used.
- Extraction of references from text, markdown rendering and packet hashing in src/github-related-context.ts: easy members.
- Precision, recall and the remaining gates of the scorecard, and rounding of metrics: one expression each.
- The allow-list of patch paths, the dotted-key check, the secret check and candidate validation of src/config-cli.ts: an edit in the writer protocol may refuse for any of these reasons.
- ConfigPatch.SetThenGet: the source updates nested records of a cloned tree in place; the model computes the new tree, so sharing between tree and patch is not captured. Records hold own keys only; inherited properties and the ordering of integer-like keys are not modelled.
- ConfigWriter.CommitsFollowTheirBase: reading a stable snapshot is one step, and the temporary file written before the rename is not a separate file.
- Diff.CollectsExactly: patches that concatenate several files are not rendered; each file has one patch, as GitHub returns it.
- DaemonCycle.Daemon.RunCycle: heartbeats, log lines, the review lane and failure records are not modelled.
- CoverageAudit.CoverageAuditReport.Collect: entries keep repository, number and head; titles, links and times are not copied.
- TokenCache.ReturnedTokensAreSound: a token's scope is the repository named in the request for it; what the server does with that name is not modelled.
- The command line, configuration validators, licence policy, enrichment text and desktop application: input handling and decision tables.
