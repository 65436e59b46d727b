# Proofs about the overnight-chain toolkit

This project models, in Dafny, the parts of the repository whose correctness depends on more than
one function at a time, and proves what they promise, or exactly when they keep it:

- **The three-way merge of orchestrator logs** (`Json`, `JsonNormal`, `Order`, `LogRows`, `LogMerge`, `LogEvents`,
  `MergeDriver`, `JsonlMerge`). A reference rule says which row survives for each key. The loops that
  deduplicate by hash, group, break ties and sort are proved to compute it, and the merge algebra is proved
  of the rule, at row level and at byte level. What the merge keeps is also said by member lookups alone. Rows are Python dicts: what a text's order and repetition of
  members come to, and what printing with sorted keys buys, is proved too.
- **Spearman's correlation** (`AverageRanks`, `Spearman`, `SpearmanForm`). The nested tie-group loops are proved
  against counting ranks for every order a sort may give to ties; over exact reals rho is bounded by
  Cauchy-Schwarz and given in closed form, which without ties is the classical 1 - 6D/(n(n^2 - 1)).
- **The chain protocol** (`ChainProtocol`, `ChainFiles`, `ChainMutex`, `ChainTraces`, `ChainPauses`,
  `ChainIdentity`, `ChainCommands`, `ChainStarts`, `ChainResume`, `ChainUndisturbed`). Drivers, `chain-pause`, `chain-resume` and `--release-lock` are one
  transition system over two lock files and a manifest. Processes take one file operation at a time and
  may crash before any of them. Mutual exclusion, the effect of a pause, the accounting of pause
  windows, and what each process has observed before it acts are proved over all runs.
- **Manifest, cap and driver run** (`Manifest`, `PausedTime`, `ChainRun`). Phase rows, the whole-second
  paused-time accumulator against real time, the wall-clock cap, and one driver run from its acquired lock
  to its exit code, summary and log rows.
- **Extraction of a JSON object from text** (`JsonScan`). The brace scanner cuts out any JSON text of an object
  (sections 2 to 7 of RFC 8259: any white space, any escapes) from arbitrary surrounding text.
- **The fleet hub** (`HubText`, `HubRender`, `HubMigrate`, `HubTies`, `HubWiring`, `HubSplices`, `HubUpgrade`, `HubLoss`,
  `HubProse`, `HubFile`). Rendering generated zones in place, wiring missing zones into a hand-written hub, and what
  the one guarantees to the other.
- **The fleet tracker** (`Fleet`, `FleetHistory`, `FleetBoard`, `FleetTree`). Updates, the terminal `close`, where every
  stored field comes from, and the two generated listings over whole runs.
- **Regression cases and the gate** (`EvalCases`, `EvalNames`, `EvalGate`, `EvalMarks`). Capture, promote, retire, reactivate and
  purge as a relation with crashes, and the baseline comparison over its runs.
- **Two bounds** (`Utf8`, `Decimals`, `Truncate`; `RateLimit`). Truncation under a byte cap (section 3 of
  RFC 3629), and the doctor's rate limiter under any interleaving of its callers.

Where a docstring says more than the code does, the code is modelled and the difference is proved:

- `bin/_git_merge_jsonl/__init__.py:10-13` promises commutativity, idempotence and that no row is lost.
  `LogMerge` proves when each holds, both ways, and exhibits two logs for which the first and last fail.
  Associativity holds for all rows; on file contents it needs both intermediate files to stay under
  the driver's own 100 MB limit.
- `bin/_chain_overnight/main.py:674-694` describes an exit from the probe loop on `needs_human`. It is dead.
- Nothing calls `stamp_pause_start`, so no `chain-resume` ever gets past its stamp
  (`ChainPauses.ResumeNeverReleases`); with such a call it does (`ChainResume.PauseCanBeResumed`).
- `bin/_chain_overnight/phase_spawn.py:163` reads the cap from the environment, and a resumed driver
  restarts its clock but keeps the old paused total: it gets exactly that many seconds more
  (`PausedTime.CapMeasuresRunningTime`).
- An exception or SIGINT before a halt is set leaves `phase_success` and code 0 in the completion summary while
  the process exits with 2 or 18 (`ChainRun.RunChain`).
- `bin/_fleet/hub.py:292-294` says back-to-front splicing keeps offsets valid. It does exactly when no two
  spans start at the same offset (`HubTies.SimultaneousIffDistinctStarts`). With equal starts the overlap check still
  passes, and a later span longer than two characters cuts the marker of the zone just written
  (`HubLoss.TiedAnchorsLoseAZone`; exactly then, by `HubLoss.MigrateWiresExactlyWhenTiesAreShort`).
- `--release-lock` unlinks without a liveness test (`bin/_chain_overnight/main.py:454`). Mutual exclusion holds, and
  survives any further launch, exactly in the runs in which that unlink never hits a live holder's lock
  (`ChainMutex.OneDriver`); `ChainTraces` has two runs in which it does.
- `render_tree` omits some slugs and lists others twice; `FleetTree.TreeListsEverySlugExcept` says which.
- The duplicate scan of `promote` sees files named `case_*` only (`EvalCases.SecondCaseExactlyWhenUnprefixed`),
  and a crash between its two writes can cost a case its source (`EvalCases.CrashLosesTheSource`); with case_* ids
  nothing else can (`EvalCases.LinkedExactlyWithoutCrashes`).
- The spacing of the doctor's claims survives a reset or a torn write exactly when that leaves a stamp at or after
  the last claim (`RateLimit.SpacedExactlyWhenResetsCover`).

Assumptions that stand for code outside the model are parameters: `loads` (json.loads) with `JsonNormal.Faithful`
(what it returns is a dict, list or scalar, and it reads that same value from its printed form; nothing is
demanded of texts it refuses). `JsonNormal.ReaderIsFaithful` gets this for any reader that scans members in the
order of the text and builds a dict from them, and `JsonNormal.FaithfulReaderExists` shows that there are such
readers. Further, `sha` with `MergeDriver.CollisionFree`, `sqrt` with `Spearman.SquareRoot`,
and in the chain protocol one host whose process ids are not reused.

## Model

| member | source | states |
|---|---|---|
| `Json.PrintIsPrefixFree` | bin/_git_merge_jsonl/merge.py:68-71 | two well-formed values whose printed texts agree together with whatever follows are the same value, in any whitespace style: a printed value determines its own end |
| `Json.CompactIsOneLine` | bin/_git_merge_jsonl/merge.py:68-71 | a compactly printed value contains no line feed, whatever strings it holds, so a log can keep one row a line |
| `JsonNormal.NormalIsCanonical` | bin/_git_merge_jsonl/merge.py:68-71 | in the printed form of any row the names of every object strictly increase, at every depth |
| `JsonNormal.NormalIffSame` | bin/_git_merge_jsonl/merge.py:68-71 | two JSON values have one canonical form exactly when they denote equal dicts, lists and scalars, whatever the order and repetition of their members (the last of a name counts) |
| `JsonNormal.CanonicalTextIffSame` | bin/_git_merge_jsonl/merge.py:68-76 | two rows have the same canonical line exactly when they are equal as dicts, which is what lets the merge identify rows by the hash of that line |
| `JsonNormal.NormalIsIdempotent` | bin/_git_merge_jsonl/merge.py:68-71 | a canonical row read and printed again is unchanged |
| `JsonNormal.ReaderIsFaithful` | bin/_git_merge_jsonl/merge.py:51-54 | a reader that builds dicts from the members a scanner finds meets the assumption on json.loads, and reads two lines as one row exactly when they denote equal dicts |
| `JsonNormal.FaithfulReaderExists` | bin/_git_merge_jsonl/merge.py:51-54 | and there is such a scanner that reads every printed value, members in any order |
| `LogRows.RowBeforeTotal` | bin/_git_merge_jsonl/merge.py:158-161 | the final sort key orders any two different rows strictly, so the output order does not depend on the sort |
| `LogRows.SortedIsUnique` | bin/_git_merge_jsonl/merge.py:156-161 | a strictly sorted log is determined by its set of rows |
| `LogRows.SortRowsSorts` | bin/_git_merge_jsonl/merge.py:161 | sorting distinct rows gives a strictly sorted permutation of them |
| `LogMerge.MergeIsUnique` | bin/_git_merge_jsonl/merge.py:96-166 | the winner rule and the order leave one possible result |
| `LogMerge.SurvivorIsMostComplete` | bin/_git_merge_jsonl/merge.py:132-154 | a key survives exactly when an input has it, through a row of an input than which no input row of that key has more non-null fields |
| `LogMerge.SurvivorIsOffer` | bin/_git_merge_jsonl/merge.py:142-154 | the tie rule taken apart: ours' own offer over the ancestor wins if there is one, otherwise theirs' |
| `LogMerge.MergeKeeps` | bin/_git_merge_jsonl/merge.py:113-166 | exactly one output row for each (ts, 4-tuple) key of the inputs and no other, each an input row, most complete for its key, in strictly increasing canonical order |
| `LogMerge.NoRowLost` | bin/_git_merge_jsonl/__init__.py:13 | every input row is in the output exactly when no two different input rows share a key |
| `LogMerge.Associative` | bin/_git_merge_jsonl/__init__.py:11 | over a common ancestor merge(merge(A,B),C) equals merge(A,merge(B,C)) for all logs, ties and duplicates included |
| `LogMerge.CommutesIffNoConflict` | bin/_git_merge_jsonl/__init__.py:10 | ours and theirs may be exchanged exactly when no key has two different offers of maximal completeness |
| `LogMerge.CommutesWithoutTies` | bin/_git_merge_jsonl/__init__.py:10 | in particular when every key has a unique most complete row in the union |
| `LogMerge.TiesBreakCommutativity` | bin/_git_merge_jsonl/merge.py:147-154 | two one-row logs whose merges in the two orders differ, each losing a row |
| `LogMerge.Idempotent` | bin/_git_merge_jsonl/__init__.py:12 | for M the merge of A and B: merging M with M, M with A, M with B and A with M over the same ancestor gives M again |
| `LogMerge.SelfMerge` | bin/_git_merge_jsonl/__init__.py:12 | merge(A,A) is A exactly when A is canonical, has one row a key, and for every ancestor row holds one of the same key at least as complete |
| `LogEvents.SameKeyIffSameEvent` | bin/_git_merge_jsonl/merge.py:85-138 | two rows are grouped together exactly when looking up ts, session_id, task_id, transition.from and transition.to, a missing member read as null, gives the same five values |
| `LogEvents.MoreMembersAreMoreComplete` | bin/_git_merge_jsonl/merge.py:79-82 | a row with a value for every member that another has one for, and for one more, is strictly more complete |
| `LogEvents.MergeKeepsEvents` | bin/_git_merge_jsonl/merge.py:96-166 | by lookups alone: every input row has an output row with the same five values, two output rows that agree on the five are one, each output row is an input row that no input row of its event beats (most non-null members first, then a row of ours, then the first), and the ts texts of the output never decrease |
| `MergeDriver.UnionByHash` | bin/_git_merge_jsonl/merge.py:113-130 | layering a log into the hash dictionary keeps the distinct rows in first-seen order |
| `MergeDriver.UniqSearch` | bin/_git_merge_jsonl/merge.py:113-130 | deduplication changes no winner search |
| `MergeDriver.GroupByKey` | bin/_git_merge_jsonl/merge.py:136-139 | each key's list holds exactly the rows of that key, in order, and no list is empty |
| `MergeDriver.HeadIsPick` | bin/_git_merge_jsonl/merge.py:147-154 | the head of the stably sorted group is the first most complete row held by ours, or else the first most complete row |
| `MergeDriver.ResolveGroups` | bin/_git_merge_jsonl/merge.py:132-154 | the resolved rows are pairwise different and are exactly the survivors of the reference rule |
| `MergeDriver.Merge` | bin/_git_merge_jsonl/merge.py:96-166 | the loops together compute the reference merge, and keep one row for each event of the three logs as `LogEvents.MergeKeepsEvents` says |
| `JsonlMerge.ParseLines` | bin/_git_merge_jsonl/merge.py:42-65 | the line loop returns the rows of all non-empty lines in order, each in canonical form and read back from its canonical line, or the size problem, or the number of the first bad line |
| `JsonlMerge.ParseRendered` | bin/_git_merge_jsonl/merge.py:42-65 | parsing a rendered log gives back its rows, for rows that a reader returned |
| `JsonlMerge.MergeText` | bin/_git_merge_jsonl/merge.py:96-166 | on file contents: the first side in the order ancestor, ours, theirs that fails to parse is named; otherwise the rendering of the reference merge, which holds one row for each event that a line of the three contents records |
| `JsonlMerge.MergedParses` | bin/_git_merge_jsonl/merge.py:46-49 | a merged text parses to the merged rows, or is refused for its size |
| `JsonlMerge.TextAssociative` | bin/_git_merge_jsonl/__init__.py:11 | two-step merges of file contents are byte-identical either way exactly when neither intermediate file exceeds the driver's size limit |
| `JsonlMerge.MemberOrderNeverMatters` | bin/_git_merge_jsonl/merge.py:22-25 | contents whose lines list the same members in other orders merge to the same bytes |
| `JsonlMerge.OneRecordTwoOrders` | bin/_git_merge_jsonl/merge.py:22-25 | one record that the two sides write in two member orders is one row of the result, on its canonical line |
| `JsonScan.TryExtractJsonObject` | bin/_sdk_bridge.py:159-192 | the loop ends; a slice it takes starts at the first brace, ends where the braces outside strings first balance and has positive depth at every proper prefix; it takes none exactly when there is none; the result is the parsed object or nothing |
| `JsonScan.SliceIsUnique` | bin/_sdk_bridge.py:159-192 | a text has at most one such slice |
| `JsonScan.QuoteIsNeutral` | bin/_sdk_bridge.py:169-177 | the scanner leaves a string literal in the state it entered, whatever quotes, backslashes and braces the string holds and whichever escapes its writer chose |
| `JsonScan.TextIsNeutral` | bin/_sdk_bridge.py:167-189 | the same for every JSON text, at every depth, without the depth ever falling below that of the start |
| `JsonScan.EscapedIsBody` | bin/_sdk_bridge.py:169-177 | strings printed with any escape for each character, with ensure_ascii or without, are such literals |
| `JsonScan.PrintedIsText` | bin/_sdk_bridge.py:146-192 | whatever Json.Print writes of a well-formed value, in any white-space style, is a JSON text |
| `JsonScan.ScannerUndoesPrinter` | bin/_sdk_bridge.py:146-192 | in prefix + any JSON text of an object + suffix the slice is the object exactly when the prefix holds no opening brace; the suffix is arbitrary |
| `JsonScan.ExtractPrinted` | bin/_sdk_bridge.py:146-192 | and then the extractor returns exactly what json.loads makes of the object's text, for any json.loads |
| `AverageRanks.TieCounts` | bin/_eval_common/calibration_math.py:104-111 | a maximal run of equal values in the sorted index is a whole tie: its start counts the values below it and its length the values equal to it |
| `AverageRanks.AvgRanks` | bin/_eval_common/calibration_math.py:100-112 | for every order the sort may give to ties, the array ends up with (values strictly below) + (values equal + 1)/2 at each position |
| `AverageRanks.CountsPartition` | bin/_eval_common/calibration_math.py:100-112 | below, equal and above together are all values |
| `AverageRanks.RankFollowsValue` | bin/_eval_common/calibration_math.py:90-95 | two elements share a rank exactly when they are equal, and the greater one has the greater rank |
| `AverageRanks.RanksSum` | bin/_eval_common/calibration_math.py:100-112 | whatever the ties, the ranks sum to n(n+1)/2 |
| `AverageRanks.SameOrderSameRanks` | bin/_eval_common/calibration_math.py:100-112 | a strictly increasing re-mapping leaves every rank alone |
| `AverageRanks.OppositeOrderReflectsRanks` | bin/_eval_common/calibration_math.py:100-112 | reversing the order turns each rank r into n + 1 - r |
| `Spearman.SortIndexSorts` | bin/_eval_common/calibration_math.py:101 | the index sort lists the positions once each, in order of value |
| `Spearman.SpearmanRho` | bin/_eval_common/calibration_math.py:90-123 | the method computes Pearson's coefficient of the counting ranks, with the zero results for degenerate inputs |
| `Spearman.CauchySchwarz` | bin/_eval_common/calibration_math.py:118-123 | the squared numerator never exceeds the product of the two sums of squares |
| `Spearman.RhoInRange` | bin/_eval_common/calibration_math.py:90-123 | rho lies in [-1, 1] for all inputs |
| `Spearman.SpreadVanishesOnConstants` | bin/_eval_common/calibration_math.py:119-122 | a denominator vanishes exactly when all values are equal |
| `Spearman.RhoOfItself` | bin/_eval_common/calibration_math.py:90-123 | rho of a sequence with itself is 0 when it is constant or shorter than two, and 1 otherwise |
| `Spearman.RhoSeesOnlyOrder` | bin/_eval_common/calibration_math.py:90-95 | rho is unchanged by any strictly increasing re-mapping of either input |
| `Spearman.RhoIsSymmetric` | bin/_eval_common/calibration_math.py:90-123 | rho does not depend on which input comes first |
| `Spearman.RhoFlips` | bin/_eval_common/calibration_math.py:90-123 | reversing the order of one input negates rho |
| `SpearmanForm.RhoInClosedForm` | bin/_eval_common/calibration_math.py:114-123 | ties or not: rho times the two roots is the sum of products of the ranks less n((n+1)/2)^2, each root squared is the same of one ranking with itself, and rho is 0 where a root is |
| `SpearmanForm.SquaresWithoutTies` | bin/_eval_common/calibration_math.py:100-112 | the places of values without ties are 1 to n in some order: six times the sum of their squares is n(n+1)(2n+1) |
| `SpearmanForm.RhoWithoutTies` | bin/_eval_common/calibration_math.py:90-123 | without ties rho is 1 - 6D/(n(n^2 - 1)), D the sum of the squared differences of the two ranks |
| `ChainFiles.PlanDir.Acquire` | bin/_chain_overnight/sentinel.py:65-153 | run alone: denied with the holder's payload exactly when a lock exists; otherwise the lock is stamped with this chain and process, or a failed write or fsync is cleaned up; the files change as the protocol's steps say |
| `ChainFiles.PlanDir.Release` | bin/_chain_overnight/sentinel.py:156-184 | removes the lock exactly when it is stamped with this chain id; an absent lock is no error |
| `ChainFiles.PlanDir.AcquirePause` | bin/_chain_pause/sentinel.py:198-306 | succeeds exactly when no pause lock exists and the write and the fsync succeed, and then the lock is held for this chain |
| `ChainFiles.PlanDir.ReleasePause` | bin/_chain_pause/sentinel.py:309-358 | strict release: absent, unreadable and mismatched locks are three errors, none of which removes anything |
| `ChainFiles.PlanDir.ReleaseIfPresent` | bin/_chain_pause/sentinel.py:361-390 | removes whatever pause lock is there, of any chain, and says whether there was one; an unlink that fails leaves it and is reported |
| `ChainFiles.RoundTrip` | bin/_chain_overnight/sentinel.py:156-184 | what one chain acquires another cannot release and it itself can |
| `ChainMutex.LocalKeepsLock` | bin/_chain_overnight/main.py:600-895 | any driver step that neither touches the lock nor begins to hold it preserves the lock invariant |
| `ChainMutex.ReadFindsQuietChain` | bin/_chain_overnight/main.py:417-445 | when `--release-lock` reads a matching lock, every other live driver of that chain is past its release |
| `ChainMutex.UnlinkIsSafe` | bin/_chain_overnight/main.py:454 | under careful recovery, when `--release-lock` unlinks, no live driver holds the lock |
| `ChainMutex.StepKeepsInv` | bin/_chain_overnight/sentinel.py:65-184 | under careful recovery every step of every process preserves the invariant |
| `ChainMutex.OneDriver` | bin/_chain_overnight/sentinel.py:120-184 | in every run, in every interleaving and crash schedule: at most one live driver is between a successful acquire and its own release at every instant, and no launch could change that, exactly when no `--release-lock` ever unlinks the lock of a live holder |
| `ChainMutex.HeldUnlinkIsUnsafe` | bin/_chain_overnight/main.py:454 | after such an unlink the next driver launched acquires beside the holder |
| `ChainMutex.OneDriverWhenCareful` | bin/_chain_overnight/main.py:417-454 | no held lock is ever unlinked, and so exclusion holds, if no driver is about to try the lock of a chain a `--release-lock` has already matched and at most one `--release-lock` is between comparison and unlink |
| `ChainMutex.OneDriverWhenLaunchedInTurn` | bin/_chain_overnight/main.py:417-454 | the same from conditions an operator can check when a command is launched: no other `--release-lock` is running, none of the chain a driver is started for, and no driver of its chain is still trying for the lock |
| `ChainMutex.OwnLockIsAlwaysFound` | bin/_chain_overnight/phase_spawn.py:172-182 | in every run that unlinks no held lock the foreign-sentinel check never fails and a driver's own release always finds its lock |
| `ChainTraces.ResumeDuringRelease` | bin/_chain_overnight/main.py:417-454 | without the first condition: a run with one `--release-lock` and a resume of its chain that ends with two holders |
| `ChainTraces.ConcurrentReleases` | bin/_chain_overnight/main.py:417-454 | without the second: a run with two `--release-lock` commands and no resume that ends with two holders |
| `ChainPauses.HeldProbeParks` | bin/_chain_overnight/main.py:696-699 | in every run whoever probes has halt reason phase_success, so the needs_human exit is dead, and a probe under a durable pause changes nothing |
| `ChainPauses.AtMostOneMoreStart` | bin/_chain_overnight/main.py:673-802 | in every run whatever: from the moment a pause lock shows its content until that lock is removed each driver starts at most one more phase, and none unless it was already past the probe |
| `ChainPauses.ParkedAfterAStart` | bin/_chain_overnight/main.py:674-699 | after that start, or without it, the driver starts nothing and gets past no probe while the lock stays |
| `ChainPauses.AtMostOneMoreStartInAll` | bin/_chain_overnight/main.py:673-802 | while exclusion holds, the same for the sum over all drivers |
| `ChainPauses.NoWindowIsCountedTwice` | bin/_chain_overnight/manifest.py:516-547 | over every run, crashes and retries included, the manifest's total is the sum of the lengths of pairwise different closed windows and an open window is not among them |
| `ChainPauses.ResumeReleasesAfterStamping` | bin/_chain_resume/main.py:551-613 | whenever a step of chain-resume removes the pause lock, the window it stamped is already in a total |
| `ChainPauses.ResumeNeverReleases` | bin/_chain_resume/main.py:551-575 | in runs without a call to stamp_pause_start chain-resume never changes the manifest, never removes a pause lock, and ends at its stamp |
| `ChainResume.PausePath` | bin/_chain_pause/main.py:328-475 | from any state with a live driver named in the running lock, a manifest and no pause lock, a chain-pause whose writes succeed ends with the pause lock held for that chain |
| `ChainResume.PauseCanBeResumed` | bin/_chain_resume/main.py:410-613 | with such a call there is, for every driver, chain and pause length, a run in which the pause is counted and released |
| `ChainCommands.OnlyALiveChainIsPaused` | bin/_chain_pause/main.py:328-440 | in every run whoever creates or writes a pause lock is a chain-pause that since its launch has read a running lock, then found the driver it names alive, then found a manifest; what it writes names that lock's chain |
| `ChainCommands.DeadChainIsNotPaused` | bin/_chain_pause/main.py:348-386 | a chain-pause launched when no driver is alive never changes the pause lock unless a driver is started meanwhile |
| `ChainCommands.OnlyALiveChainIsResumed` | bin/_chain_resume/main.py:377-613 | in every run a chain-resume changes something only after it has read a pause lock, then a running lock of the same chain, and then found that lock's driver alive; it closes the chain's open window, and removes the pause lock only after that and after finding the pause lock of its chain again |
| `ChainCommands.OnlyADeadChainIsReleased` | bin/_chain_overnight/main.py:401-480 | in every run a `--release-lock` removes a lock file only after it has read a running lock of the given chain id and then found its driver dead, and the running lock only after matching the chain id once more |
| `ChainCommands.CommandsEnd` | bin/_chain_pause/main.py:328-475 | in every run a chain-pause ends after at most seven steps of its own, a chain-resume after six and a `--release-lock` after five: none waits for another process or tries again |
| `ChainCommands.FailedPauseIsTakenBack` | bin/_chain_pause/sentinel.py:285-297 | a pause lock whose write or fsync fails is removed by the command's next step |
| `ChainStarts.EveryStartIsChecked` | bin/_chain_overnight/main.py:669-802 | in every run the n-th phase a driver starts is its first plus n - 1 and at most 5, and since the clean pass of the phase before it has probed and found no pause, found the cap not exceeded and the running lock to be its chain's, in this order |
| `ChainStarts.HaltIsFinal` | bin/_chain_overnight/main.py:669-895 | once the cap, a foreign lock, a verdict, a sealed path, the last phase or a signal halts a driver it starts nothing more, and its halt reason stays the one of that step |
| `ChainStarts.EveryHaltHasItsReason` | bin/_chain_overnight/main.py:669-963 | and behind every flush there is such a step, with the halt reason the driver carries |
| `ChainStarts.ExitIsLast` | bin/_chain_overnight/main.py:944-963 | unless it is killed, a driver exits only after it found another's lock, took back its own after a failed write or fsync, found another's in its place while flushing, or tried to unlink it |
| `ChainStarts.CleansOnlyAfterFailure` | bin/_chain_overnight/sentinel.py:127-153 | and it takes back its own lock only after a write or an fsync that failed |
| `ChainUndisturbed.ChainCompletes` | bin/_chain_overnight/main.py:483-895 | a driver launched into a directory without a lock or a held pause, whose phases all pass, runs every phase from its first to the fifth, ends as phase_success and leaves neither lock |
| `ChainUndisturbed.FailedLaunchIsTakenBack` | bin/_chain_overnight/sentinel.py:127-153 | a running lock whose write or fsync fails is removed by the driver's next step, which is then through |
| `ChainUndisturbed.DeadChainIsCleared` | bin/_chain_overnight/main.py:401-480 | once the driver named in the lock is dead, `--release-lock` with its chain id removes both locks |
| `ChainIdentity.ManifestIsOurs` | bin/_chain_overnight/manifest.py:257-287 | in every run that unlinks no held lock, whenever a driver probes, checks its cap or runs a phase, the manifest is that of its own chain |
| `ChainIdentity.ChainIdsAreReal` | bin/_chain_pause/main.py:328-475 | in every run a stamped lock, a durable pause, the manifest and what chain-pause and chain-resume hold in hand name a chain some driver was started under |
| `ChainIdentity.PauseLockIsNeverOverwritten` | bin/_chain_pause/sentinel.py:198-393 | a pause lock is created where there was none, written by its creator, or removed, and removed only by a flush, a resume past its stamp, a `--release-lock`, or the cleanup of a failed write |
| `Manifest.ManifestFile.StampChainStart` | bin/_chain_overnight/manifest.py:237-287 | keeps the manifest of the same chain and replaces any other by an empty one |
| `Manifest.ManifestFile.AppendPhaseBootstrap` | bin/_chain_overnight/manifest.py:290-346 | appends one open row, or refuses with the first applicable error and changes nothing |
| `Manifest.ManifestFile.StampPhaseExit` | bin/_chain_overnight/manifest.py:349-405 | the backward search closes exactly the latest open row of the session, or there is none |
| `Manifest.ExitTouchesOneOpenRow` | bin/_chain_overnight/manifest.py:375-397 | an exit changes one row, the last of its session without an end, and of it the end and the exit code only |
| `Manifest.ManifestFile.StampPauseStart` | bin/_chain_overnight/manifest.py:423-484 | opens a window of this chain at the truncated second unless one is open |
| `Manifest.ManifestFile.StampPauseEnd` | bin/_chain_overnight/manifest.py:487-547 | closes the window and returns the non-negative number of seconds it added to the total |
| `Manifest.ExitClosesItsOwnRow` | bin/_chain_pause/main.py:198-235 | the exit of a phase closes the row its bootstrap appended, whatever open rows crashed attempts left; in between chain-pause reports that phase as next, afterwards the following one |
| `Manifest.NextPhaseIsFirstNotEnded` | bin/_chain_pause/main.py:198-235 | on the rows of a chain chain-pause reports the first phase whose exit is not stamped: two plus the number of those that are, and 2 when there is no row |
| `PausedTime.AccountingIsFaithful` | bin/_chain_overnight/manifest.py:423-547 | over any run of stamps, accepted or refused, windows never overlap, since is set exactly while one is open, and after k closed windows the total is within k seconds of the true paused time |
| `PausedTime.AccountingInAnyOrder` | bin/_chain_overnight/manifest.py:423-547 | the clock is read before the file lock is taken: with stamps in any order of their readings the total is still within a second a window of the windows' lengths, a window read backwards counting as empty |
| `PausedTime.AcceptedExactlyWhenAlternating` | bin/_chain_overnight/manifest.py:464-532 | a start is accepted exactly when no window is open and an end exactly when one is, for the manifest's chain |
| `PausedTime.VerdictFrozenWhilePaused` | bin/_chain_overnight/cap_enforcement.py:167-191 | while a window is open the cap verdict does not depend on the time |
| `PausedTime.ClosedWindowShiftsVerdict` | bin/_chain_overnight/cap_enforcement.py:167-191 | a closed window shifts the verdict by exactly its recorded length |
| `PausedTime.CapMeasuresRunningTime` | bin/_chain_overnight/phase_spawn.py:123-169 | the cap bounds the time really spent running plus the estimate, and the remaining seconds it reports are those really left, to within a second per window; a driver that starts on a non-zero total gets exactly that much more |
| `PausedTime.RemainingIsWhatIsLeft` | bin/_chain_overnight/cap_enforcement.py:167-191 | the remaining seconds are the cap less the time counted, at least 0 and at most the cap, and the verdict passes exactly when the estimate fits into them |
| `ChainRun.SpawnPlanner` | bin/_chain_overnight/phase_spawn.py:185-311 | a planner phase passes, with code 0, exactly when its output was written and verified; a failed write is code 7 and every other failure 16 |
| `ChainRun.SpawnRetryLoop` | bin/_chain_overnight/phase_spawn.py:314-519 | a retry-loop phase passes, with code 0, exactly when the loop did; tampering and an exhausted cap are code 17, an unknown shape 10, and the failures before the loop 16 |
| `ChainRun.ChainFinalizer.Flush` | bin/_chain_overnight/main.py:944-963 | emits one summary of the present state the first time and nothing afterwards |
| `ChainRun.DriveOne` | bin/_chain_overnight/main.py:669-881 | one turn of the loop goes on exactly when the phase passes cleanly; a halt appends one row and sets the reason and code of the first thing that stopped the phase, the row's status being that of the reason; what unwinds it is the first exception or signal that its checks let happen; an unwind at any point leaves either no row and no halt, or the row alone, or both |
| `ChainRun.CodeTellsReason` | bin/_chain_overnight/exit_codes.py:27-84 | no two halt reasons share an exit code |
| `ChainRun.DrivePhases` | bin/_chain_overnight/main.py:600-895 | the phases run are a contiguous ascending block from the starting one, all but the last passed; the returned code is the finalizer's and 0 exactly when every remaining phase passed with a clean scan; the rows are one connected path out of ready with no row after a terminal one, closed whenever the loop returned |
| `ChainRun.RunChain` | bin/_chain_overnight/main.py:386-393 | one summary, of the phases really run, whose code is that of its halt reason; it agrees with the exit code exactly when no exception or SIGINT unwound the run, which exit with 2 and 18 |
| `HubText.FramedAreIndependent` | bin/_fleet/engine.py:48-55 | no marker occurs inside another |
| `HubText.MarkersAreProper` | bin/_fleet/engine.py:48-55 | the twelve markers have one angle bracket at either end and none inside, stand on one line and are pairwise different, which is all the hub theory uses |
| `HubText.NoStraddle` | bin/_fleet/engine.py:551-559 | a marker never straddles a newline, so occurrences split at line ends |
| `HubRender.ReplaceSingle` | bin/_fleet/engine.py:551-559 | on a singly marked zone the two searches find the zone's own markers and only what stands between them is replaced |
| `HubRender.FillKeepsWellFormed` | bin/_fleet/engine.py:551-559 | filling a zone with a marker-free body leaves every marker single |
| `HubRender.RenderIsSubstitution` | bin/_fleet/engine.py:562-577 | on a hub with disjoint, singly marked zones and marker-free bodies, rendering zone after zone in any order is substituting all of them at once, and it is refused exactly when a mandatory zone is missing |
| `HubRender.OrderDoesNotMatter` | bin/_fleet/engine.py:573-577 | any two orders of the same zones give the same hub |
| `HubRender.RenderIsIdempotent` | bin/_fleet/engine.py:562-582 | rendering twice is rendering once, and everything outside the zones is preserved |
| `HubFile.Hub.RenderWrite` | bin/_fleet/engine.py:562-582 | the file is swapped for the fully rendered text, or left as it was and the offending zone named |
| `HubFile.Hub.Migrate` | bin/_fleet/hub.py:231-319 | the loops compute the migration of the text; every refusal and the no-op leave the file as it was |
| `HubMigrate.BackToFront` | bin/_fleet/hub.py:291-294 | splicing disjoint spans from the last to the first is replacing them all at once |
| `HubMigrate.SortsMirror` | bin/_fleet/hub.py:282-293 | with distinct starts the reverse sort is the sort backwards |
| `HubMigrate.RefusedExactlyWhenOverlapping` | bin/_fleet/hub.py:282-288 | the spans are refused exactly when some two of them overlap, where of two that start together the earlier anchor's must be empty |
| `HubMigrate.SplicingIsSimultaneous` | bin/_fleet/hub.py:282-294 | so for verified spans with distinct starts the loop keeps every character outside them |
| `HubTies.LastTieComesFirst` | bin/_fleet/hub.py:292-294 | of spans that start at the same offset the loop leaves the last one's block first |
| `HubTies.SimultaneousIffDistinctStarts` | bin/_fleet/hub.py:282-294 | for verified spans the loop is simultaneous replacement exactly when no two start at the same offset |
| `HubWiring.GraftOccurrence` | bin/_fleet/hub.py:97-99 | an occurrence of a marker in a text with a new zone is an old one or one of the zone's own two |
| `HubWiring.SpliceKeepsWellFormed` | bin/_fleet/hub.py:293-294 | replacing a stretch of hand-written text by an absent zone keeps every marker single |
| `HubUpgrade.ZonesKeepWellFormed` | bin/_fleet/hub.py:102-128 | so does appending sections for absent zones |
| `HubUpgrade.NoOpExactlyWhenWired` | bin/_fleet/hub.py:261-264 | migrate does nothing exactly when the hub has every zone |
| `HubUpgrade.MigrateWires` | bin/_fleet/hub.py:231-313 | on a well-formed hub with spans in hand-written text, of which no tied one is longer than two characters, whenever migrate writes, every zone ends with one ordered pair of markers, disjoint from the others |
| `HubSplices.HarmlessExactlyWhenTiesAreShort` | bin/_fleet/hub.py:282-294 | of verified spans in the loop's order each one stays clear of the blocks spliced before it exactly when no tied span is longer than two characters |
| `HubLoss.SpliceOccurrence` | bin/_fleet/hub.py:292-296 | after a splice every occurrence of another zone's marker stood before the span or behind it |
| `HubLoss.MigrateLoses` | bin/_fleet/hub.py:282-313 | with a longer tied span the begin marker of the zone it is tied to is missing from what migrate writes |
| `HubLoss.MigrateWiresExactlyWhenTiesAreShort` | bin/_fleet/hub.py:231-319 | the written hub has every zone, and a second migrate is a no-op whatever its anchors, exactly when no tied span is longer than two characters |
| `HubLoss.WiredHubRenders` | bin/_fleet/engine.py:551-582 | rendering marker-free bodies into a hub with every zone cannot fail |
| `HubLoss.TiedAnchorsLoseAZone` | bin/_fleet/hub.py:273-296 | two anchors with one start, one of them empty: migrate writes, the next render is refused for the mandatory NOW zone, and a second migrate writes again |
| `HubProse.FreshIsJoined` | bin/_fleet/hub.py:102-113 | the zones appended one by one to a hub without any are the joined lines of one section: its header, and a heading and an empty block for each zone |
| `HubProse.UpgradeIsJoined` | bin/_fleet/hub.py:116-130 | those appended to a hub that has some are the joined lines of a heading, a note and an empty block for each, without the header |
| `HubProse.ProtocolIsAppendedOnce` | bin/_fleet/hub.py:304-308 | the protocol is appended exactly when its marker is missing; afterwards the marker is there and nothing more is appended |
| `HubProse.MigrateAppends` | bin/_fleet/hub.py:291-313 | what migrate writes is the spliced hub, then for exactly the zones that are neither wired nor anchored the section if no zone was wired and the compact blocks if some were, and then the protocol unless its marker is there |
| `Fleet.Tracker.Update` | bin/_fleet/engine.py:171-227 | one merged state and one event, or a refusal that changes nothing; `FleetHistory` says what that state and that event hold |
| `Fleet.Tracker.Close` | bin/_fleet/close.py:66-172 | every refusal leaves everything unchanged; otherwise the state, roster, closed list, archive and successor are those of the complete transition |
| `Fleet.TwoHalvesMakeOneClose` | bin/_fleet/close.py:104-153 | close --no-archive and then close, with any note and at any later time, reaches exactly the state of one close |
| `FleetHistory.FieldsAreLastGiven` | bin/_fleet/engine.py:171-227 | over any run of updates, closes and mints each of the nine fields of a slug's state, the time of the last write among them, is the one given by the last command that wrote the state and gave that field, and absent if none has since the slug was last archived |
| `FleetHistory.ArchivedFieldsAreLastGiven` | bin/_fleet/close.py:97-153 | what a close archives: its final status, a dash and fleet-close, and otherwise the fields last given |
| `FleetHistory.OneEventPerWrite` | bin/_fleet/engine.py:213-226 | every write appends exactly one event with its time, the acting name (unknown if none was given), the note, cut at 1000 characters, and the stage and status it left; a command that does not write a slug leaves its log alone |
| `FleetHistory.CloseIsRecorded` | bin/_fleet/close.py:117-140 | an accepted close adds a closed entry exactly when the slug has none, with the roster's piece or else the state's, the day, the note and the roster's wave; the slug leaves the roster, the successor enters it, and every other entry stays |
| `FleetBoard.RunKeepsHistory` | bin/_fleet/close.py:83-169 | over any run no event is lost and an archived directory never changes |
| `FleetBoard.RunKeepsDistinct` | bin/_fleet/close.py:121-134 | the closed list never gets two entries of one slug |
| `FleetBoard.RenderBoard` | bin/_fleet/engine.py:241-264 | the loops list the live slugs in order and then the closed entries without a live state |
| `FleetBoard.OneRowPerSlug` | bin/_fleet/engine.py:241-264 | over any run of updates, closes and mints from a duplicate-free closed list, every slug with a state or a closed entry has exactly one board row, a live one exactly if it has a state, and nothing else has any |
| `FleetBoard.CloseIsTerminal` | bin/_fleet/close.py:83-153 | a closed slug is out of the roster and the live tree, in the closed list, archived with its whole log if it had a directory, and closing it again is refused |
| `FleetTree.RenderTree` | bin/_fleet/engine.py:412-467 | the loops over waves, unwaved slugs and legacy entries, with their growing set of seen slugs, compute the listing |
| `FleetTree.WavePartsCount` | bin/_fleet/engine.py:448-458 | what the wave loop lists and marks as seen, for every slug |
| `FleetTree.TreeLineCount` | bin/_fleet/engine.py:448-467 | the number of lines of every slug, wave ids repeated or not: none if untracked, or tracked and closed and claimed by no known wave; otherwise one per wave the roster names, one more if its closed entry's wave comes first, and one if no wave lists it |
| `FleetTree.TreeListsEverySlugExcept` | bin/_fleet/engine.py:448-467 | with distinct wave ids a tracked slug has exactly one line, except none exactly when it is both tracked and closed and no known wave claims it, and two exactly when the roster has it under a wave after the one its closed entry names |
| `FleetTree.KindsOfLines` | bin/_fleet/engine.py:448-467 | which of a slug's lines are live and which closed: a live one exactly if a known wave of the roster names it or it is tracked, not closed and claimed by no wave; a closed one exactly if its closed entry's wave comes first, or it is only closed and claimed by none |
| `FleetTree.HalfCloseDropsUnwavedSlug` | bin/_fleet/engine.py:460-465 | one close --no-archive of a live slug outside the known waves brings the omission about |
| `EvalCases.DerivedIdIsNew` | bin/_eval_common/regression_case.py:70-85 | the next sequence number never names an existing case file, whatever the directory holds |
| `EvalNames.LabelShowsText` | bin/_eval_common/regression_case.py:88-91 | a label is the text with an underscore for every character it may not have, less the underscores at both ends, and "case" where nothing else is left |
| `EvalNames.NumberIsNext` | bin/_eval_common/regression_case.py:70-85 | the number in a derived id is one more than the highest that a case file of the label has, and 1 if there is none |
| `EvalNames.NumberedCases` | bin/_eval_common/regression_case.py:77-84 | a file counts for a label with number n exactly if its name is case_, the label, an underscore and digits that read n |
| `EvalCases.EvalStore.CaptureFailure` | bin/_eval_common/failure_capture.py:133-190 | a failure is written once, with its time and no promotion, and only for a known halt reason and phase; any other capture changes nothing |
| `EvalCases.EvalStore.PromoteFailure` | bin/_eval_common/regression_case.py:130-210 | for every listing order: a new active case with the failure, outcome and correction asked for, and the failure's pointer to it, or a retired case of the failure made active and otherwise as it was, or a refusal that changes nothing; a new case never overwrites one |
| `EvalCases.EvalStore.RetireCase` | bin/_eval_common/regression_case.py:213-233 | with a reason and an active case: the case is retired, its correction kept with "RETIRED: " and the reason on a line behind it, its source and outcome and all other cases as they were; otherwise nothing changes |
| `EvalCases.EvalStore.PurgeUnpromoted` | bin/_eval_common/failure_gc.py:63-84 | removes and reports exactly the failures without a promotion captured before the cutoff, and leaves the others as they were |
| `EvalCases.CasesNeverChange` | bin/_eval_common/regression_case.py:159-233 | over any run, crashes and arbitrary ids included, no case disappears or changes its source or expected outcome |
| `EvalCases.SecondCaseExactlyWhenUnprefixed` | bin/_eval_common/regression_case.py:160-177 | a promotion gives a failure a second case exactly when none of its cases is named case_* |
| `EvalCases.LifecycleIsSound` | bin/_eval_common/regression_case.py:130-210 | in crash-free runs with case_* ids each failure has at most one case, and every case's source failure stays on file and points back to it |
| `EvalCases.UnprefixedIdsDuplicate` | bin/_eval_common/regression_case.py:160-185 | without the prefix, a run that gives one failure two cases |
| `EvalCases.CrashLosesTheSource` | bin/_eval_common/regression_case.py:205-209 | with a crash between the two writes, a run after which a case's source failure has been purged |
| `EvalCases.LinkedExactlyUnlessCrashed` | bin/_eval_common/regression_case.py:205-209 | one command breaks a link of a linked store exactly when it is a promotion that crashes after its new case file |
| `EvalCases.LinkedExactlyWithoutCrashes` | bin/_eval_common/regression_case.py:130-210 | over runs with case_* ids every case is linked to its failure exactly as long as no promotion has crashed between its two writes: a lost link is never restored |
| `EvalCases.PurgeTakesExactlyTheUnpointed` | bin/_eval_common/failure_gc.py:63-84 | a purge takes a case's source exactly when that failure has no pointer and was captured before the cutoff; it is safe from every cutoff exactly when it has one |
| `EvalGate.Mint` | bin/_eval_baseline/mint.py:72-126 | one baseline row for each active case; refused for an invalid name, an empty case list or a baseline that exists, and then no baseline changes |
| `EvalNames.ValidNameIsDated` | bin/_eval_baseline/manifest.py:16 | a baseline name is accepted exactly if it is four, two and two digits joined by hyphens, an underscore and a label of letters, digits, underscores and hyphens, and possibly a line feed behind them |
| `EvalGate.ActiveRowsAreExact` | bin/_eval_common/regression_case.py:243-260 | the listing holds exactly the case_* files that are not retired, with their outcomes |
| `EvalGate.Compare` | bin/_eval_gate/compare.py:33-67 | regressions, missing and extra are the exact set differences of the two dictionaries, without repetition, and matched is the rest |
| `EvalGate.GateNeverRegresses` | bin/_eval_gate/compare.py:33-67 | for a baseline minted at any state of a run and any later state the gate finds no regression, missing is exactly what became active since and extra exactly what ceased to be |
| `EvalMarks.RetiredExactlyWhenLastMarked` | bin/_eval_common/regression_case.py:130-233 | in every run, crashes and arbitrary ids included, a case on file is retired exactly when the last command that marked it was a retire; a promotion allowed to reactivate marks its failure's case active |
| `EvalMarks.ListedExactlyUnlessRetired` | bin/_eval_common/regression_case.py:243-260 | so the listing and every baseline minted from it hold exactly the case_* files whose last mark is not a retire |
| `Utf8.DecodePrefix` | bin/_eli5/subject.py:87-88 | decoding the first n bytes of an encoded text, errors ignored, yields its longest prefix that fits into n bytes |
| `Utf8.FitIsLongest` | bin/_eli5/subject.py:87-88 | that prefix is the longest one |
| `Utf8.HeadIsEncoding` | bin/_eli5/subject.py:87-88 | whatever bytes the decoder accepts as a character are the encoding of that character |
| `Utf8.DroppedExactlyWhenIllFormed` | bin/_eli5/subject.py:87-88 | it drops a byte exactly when no encoded character begins there |
| `Decimals.RoundTrip` | bin/_eval_common/regression_case.py:70-85 | reading back a printed number gives the number |
| `Truncate.TruncateMeetsItsRule` | bin/_eli5/subject.py:73-95 | for every text and cap the result is a prefix and a marker that counts exactly the characters left out; it fits the cap exactly when the text does or the cap has room for the marker, and is then a fixed point |
| `Truncate.TruncationIsVisible` | bin/_eli5/subject.py:89-95 | a truncated text has lost at least one character, and the cut is at the last paragraph break that fits, if there is one past the start |
| `RateLimit.StateFile.ShouldTrigger` | bin/_intent/doctor_trigger.py:134-170 | the slot is claimed exactly when the file operations succeed and the stamp is missing or old enough, and then the new stamp is already on file; a failed call claims nothing |
| `RateLimit.ClaimsAreSpaced` | bin/_intent/doctor_trigger.py:94-170 | in any interleaving successive claims are more than 60*I - 1 seconds apart, if every reset and every torn write leaves a stamp at or after the last claim |
| `RateLimit.StateFile.ResetTimestamp` | bin/_intent/doctor_trigger.py:182-210 | leaves the given clock reading, cut to the second, on file; a failed write leaves what it leaves |
| `RateLimit.NextClaimIsApartIffCovered` | bin/_intent/doctor_trigger.py:152-160 | the next claim is bound to keep its distance from the last one exactly when the stamp is at or after that one's second |
| `RateLimit.SpacedExactlyWhenResetsCover` | bin/_intent/doctor_trigger.py:94-210 | no call at any point of a run could claim too soon exactly when every reset and every torn write leaves a stamp at or after the last claim |
| `RateLimit.WindowBound` | bin/_intent/doctor_trigger.py:134-170 | any window of W seconds contains at most floor(W/(60*I - 1)) + 1 claims |
| `RateLimit.StaleResetBreaksSpacing` | bin/_intent/doctor_trigger.py:182-190 | a reset that comes late with an old clock reading lets two claims come closer |

## Left out

- JsonlMerge.MergeText: nothing is claimed of rows whose `ts` is not text, whose ids are not text, integer or null, or whose transition is neither an object nor false: Python dies on some of them and compares others across types (1, 1.0 and true).
- JsonNormal.NormalIffSame: a number is the text Python prints for it (`spell`), so floats are equal when they print alike; lone surrogates are not modelled.
- JsonlMerge.ParseLines: contents are texts, so invalid UTF-8 on a line is not distinguished from a line that is not JSON; neither is a line that exhausts Python's recursion or digit limits, for which Python raises another exception.
- Spearman.RhoInRange: exact reals; floating-point rounding of ranks, sums and square roots is not modelled. `binary_calibration` and `numeric_trend` would add one-line facts.
- ChainMutex.OneDriver: the interleavings are modelled on values, one step per file operation; `ChainFiles` gives the same operations in place, without interference. Process ids are not reused, there is one host, and a signal between two file operations is either an unwind or a crash.
- ChainPauses.AtMostOneMoreStart: the operator-inject file, the log rows of the two pause commands and their exit codes are plumbing around the protocol.
- ChainRun.DrivePhases: the auto-register row (another writer) and best-effort manifest stamps are not among the modelled rows; their values are in `Manifest`.
- Manifest.ManifestFile.AppendPhaseBootstrap: schema versions, cost and model fields.
- HubUpgrade.MigrateWires: headings, section header, note and protocol text are parameters that contain no zone marker; the dry run is not modelled.
- HubRender.RenderIsSubstitution: how the zone bodies are computed, apart from the board and the tree, is not modelled; a note that itself contains a marker is outside the theorem.
- FleetTree.TreeLineCount: lines are slugs; group headings, glyphs and the text of a line are not modelled.
- Fleet.Tracker.Close: the final render can still fail after the transition; git and file moves are taken to succeed.
- EvalCases.EvalStore.PromoteFailure: the inlined snapshot of case inputs, labels and details are not modelled; file names are ids and case numbers are ASCII digits.
- RateLimit.StateFile.ShouldTrigger: a state file that exists but cannot be read once counts as free for that call and is not modelled.
- The structured branch of the SDK bridge, model calls, subprocesses, git, databases, registry queries, argument parsing, status printing, completion-summary markdown and fleet spawning: foreign calls or one-branch facts.
- The collision claim of the intent register: `register.py` and its writer are not part of this model.
