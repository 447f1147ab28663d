# Verified model of benchmarkoor's stateful core

benchmarkoor runs Ethereum execution clients under benchmark and reports on them. Most of it moves
files, containers and HTTP requests around. Some of it decides things: which CPUs a benchmark gets,
how the host is put back afterwards, what a replay bundle contains, what a watcher of a live log sees,
when a cached response is still good. This project models that part in Dafny and proves what it
promises.

`dafny verify dfyconfig.toml` checks everything.

| files | what they are about |
|---|---|
| `Shuffling.dfy`, `CpuSelect.dfy`, `CpuDraws.dfy` | choosing a random cpuset that fits a topology mode, what can be drawn, and checking one |
| `CpuHost.dfy`, `CpuRecovery.dfy`, `CpuFreq.dfy` | pinning CPU frequencies, restoring them, recovering after a crash |
| `Bundle.dfy`, `BundleRefinement.dfy` | the replay bundle: the buffered writer, the streaming writer, and why one refines the other |
| `Lines.dfy`, `BundleFile.dfy` | the bundle as bytes: reading it back, scanning its tail for the end block |
| `Replay.dfy`, `ReplayOutcomes.dfy` | replaying a bundle on an execution client, and what each outcome means |
| `GasRamp.dfy` | raising the block gas limit to a target |
| `Evm.dfy`, `DeployCode.dfy` | deployment init code, run on a small EVM |
| `LogHub.dfy`, `LogHubRuns.dfy`, `LogHubConnections.dfy` | the live-log hub, its critical sections, all their interleavings, and who is connected |
| `History.dfy` | telling a state from the events that led to it |
| `BlockLog.dfy` | the block-log collector: line reassembly and two-sided matching |
| `RateLimit.dfy` | per-IP rate limiting with eviction |
| `IndexCache.dfy` | the cached index response |
| `RunDeleter.dfy`, `RunDeleterRuns.dfy` | the deletion queue, its worker and all interleavings |

Code that updates fields or arrays is modelled by classes and loops, each proved against functions of
its state; the theorems are about those functions. Concurrent parts are state machines whose steps are
the source's critical sections or atomic store operations; a theorem about them quantifies over every
run. What the code does not control is a parameter: random choices, clocks, line parsers, JSON decoding,
and whether each system call, save or delete succeeds.

## Results

- **CPU selection.** On a host with distinct CPU ids, `Select` succeeds exactly when some set of the
  requested size passes `Check`, and then returns such a set, sorted, for every shuffle. The subset-sum
  table and the walk over it miss no combination of whole cores. In every mode the sets that some draws give
  are exactly the accepted ones, for one thread per core those of lowest threads.
- **Bundle.** The streaming writer accepts exactly the sequences whose first occurrences by hash ascend.
  What it then holds is what sorting and deduplicating gives if and only if no payload stands on a lower
  number than the first one with its hash. Its bundle, read back and replayed, takes a client to the
  recorded end block if and only if the client has the start block and no line meets more than 60 stalls, a
  failed call or a cancellation. Any replay, of any lines on any client, succeeds exactly if every line decodes
  and is answered VALID. The tail scan agrees with a full read.
- **Gas ramp.** From 30M gas to 1 TGas takes exactly 10,670 blocks at the protocol's maximum rate; no
  chain within the 1/1024 rule is faster, and no cap of at least 10,670 trips.
- **Init code.** It returns exactly the runtime, its gas is known to the unit, and the transaction's gas
  limit always suffices: it deploys exactly the runtimes the network admits as code. A runtime is refused
  precisely when the wrapped code would not return it.
- **Live log.** A UI is subscribed exactly from its connect to its disconnect or a drop, and has then been given
  the log from the newest bytes there were to the current one, in every interleaving; the commands for a
  runner alternate and tell it the truth.
- **CPU frequency.** At no point of any run of applies and restores is a changed setting unrecorded. Where
  saves work, a state file has all it takes at every point; where they fail, none of what was saved before
  is lost. A new process puts everything back if its writes are let through; on a kernel that enforces
  min <= max it does exactly when no lower limit is above its original upper one, CPUs in two files aside.
  On such a kernel pinning reaches every in-range target, and after any run, however its applies ended,
  restoring takes at most two calls.
- **Block logs.** Chunking, timing and registration order make no difference to the collected logs. With hashes
  registered or logged more than once, what waits and what is delivered is told by the last thing to happen.
- **Rate limit.** A request is refused if and only if allowing it would give its IP, over some stretch ending
  with it, more than the burst plus the rate times the elapsed time. Evicting idle limiters changes no answer.
- **Index cache.** Every response has all changes announced when its request began. While no more changes are
  committed, a new request can miss one if and only if the cache, or a build about to be stored, has a body of
  the current generation that misses it.
- **Run deleter.** No wake-up is lost. A row keeps its place in the queue from the mark that found it waiting, and
  a pass goes by these places. Rows leave the index right after their own storage delete if and
  only if no other row has the deleted run's id.

## Where the source and its comments part ways

- `Contiguous` is said to mean one payload for every block of the range
  (`pkg/builder/prerun_bundle.go:280-281`). For a bundle of the buffered path that passes the test, this
  holds exactly when no number is in it twice: `BufferedContiguity`. `BufferedContiguityMisleads` has three
  payloads that pass with a block missing. In the program only the streaming path is in use:
  `sortAndDedupPayloads`, `writeRequestBundle` and `summarizeBundle` have no callers outside the repository's
  tests.
- `emit` is said to skip duplicates as `sortAndDedupPayloads` does (`pkg/builder/prerun_stream.go:75-76`).
  It does exactly on sequences in which the first payload of a hash has the lowest number:
  `RefinesIffFirstIsLowest`. `SharedHashBreaksRefinement` is a sequence on which it does not.
- `RestoreFromStateFile` removes the file "after successful restoration" (`pkg/cpufreq/cleanup.go:175`),
  but does so after refused writes, too. On a kernel that enforces min <= max a CPU pinned above its original
  upper limit then keeps that limit with no file left: `PinnedHighStays`, `RecoveryStrands`. The exact condition is
  `StrictRecoversIff`.
- Restoring the upper limit first is meant to keep min <= max (`pkg/cpufreq/cpufreq.go:316`). A kernel that
  enforces it refuses exactly that write while the lower limit is above the original upper limit:
  `RestoreSettings`, `RestoreThenStop`. `PinnedHighTakesTwo` pins a CPU above its first upper limit; the first
  call then fails and the second one succeeds.
- The frequency text is trimmed when it is parsed but not when it is compared with MAX
  (`pkg/cpufreq/cpufreq.go:222`, `413`). A padded MAX asks for 0 kHz, and MAX is honoured exactly when it
  needs no trimming: `MaxHonouredIffUnpadded`. This concerns Apply called directly: config validation compares
  untrimmed, too, and refuses 0 kHz before a run starts (`pkg/config/config.go:3976-3985`).
- The index response is said to be current while no run changes (`pkg/api/handlers_index.go:56-59`). The
  store commits first and bumps its generation after, so a change may be missing until it is announced.
  `MissesChangeIff` says from which states: exactly those in which the cache, or a build about to be stored,
  has a body of the current generation without the change. `UnannouncedChangeMayBeMissing` reaches one.
- The run deleter is said to delete storage first and then the index rows (`pkg/api/rundeleter.go:106-109`).
  Storage goes by discovery path and run id, rows by run id alone, so a second path's row goes with its
  objects still there: `SharedIdLosesRow`. The exact condition is `RowsGoLastIffAlone`.
- Marking a run that is queued already is said to be a no-op (`pkg/api/admin.go:563-564`). A mention is refused
  exactly when the id cannot be marked from the start, or was named before and its first row, by primary key,
  is still running and not queued: `RefusedIff`. Two paths with one id are enough: `TwoPathsRefuse`.

## Model

| member | source | states |
|---|---|---|
| Shuffling.Shuffle | pkg/cputopology/select.go:54 | the in-place shuffle of an array is the one its draws determine |
| Shuffling.ShufflePermutes | pkg/cputopology/select.go:54 | whatever is drawn, the result is a permutation |
| Shuffling.EveryOrderIsDrawn | pkg/cputopology/select.go:54 | every permutation has draws |
| CpuSelect.PhysicalCores | pkg/cputopology/select.go:41-64 | every physical core once, in the order drawn, with exactly its threads, ascending |
| CpuSelect.FillTable | pkg/cputopology/select.go:73-88 | each table entry says whether the cores from that index on can reach that sum |
| CpuSelect.FillWholeCores | pkg/cputopology/select.go:72-106 | none exactly when no choice of cores has count threads in all; otherwise the walk's in-order choice with exactly count, so it never gets stuck |
| CpuSelect.WalkPicks | pkg/cputopology/select.go:97-103 | keeping a core leaves a remainder that the later cores can still fill |
| CpuSelect.AnyCombinationComesUp | pkg/cputopology/select.go:66-71 | whatever cores fill the count, for some order of all cores the walk picks just these |
| CpuSelect.AnyCombinationIsDrawn | pkg/cputopology/select.go:54-71 | and some draws of the shuffle give that order |
| CpuDraws.EverySelectionIsDrawn | pkg/cputopology/select.go:108-169 | what can be drawn, exactly: the sorted, accepted sets of the count asked for, for one thread per core those of lowest threads |
| CpuSelect.PicksCanFill | pkg/cputopology/select.go:75-88 | the recurrence of the table admits every in-order choice of cores |
| CpuSelect.CanFillPicks | pkg/cputopology/select.go:94-103 | the recurrence admits nothing else: each sum it allows is some choice's |
| CpuSelect.Check | pkg/cputopology/select.go:173-223 | nil exactly on the accepted cpusets, always for any; the unknown id reported is the first unknown one of the cpuset and a shared core's id the first on it, and an error's counts are true |
| CpuSelect.FullCoresMeaning | pkg/cputopology/select.go:205-210 | a duplicate-free cpuset passes full_cores exactly when the host has all its CPUs and it is closed under threads of the same socket and core |
| CpuSelect.OneThreadMeaning | pkg/cputopology/select.go:211-216 | it passes one_thread_per_core exactly when the host has all its CPUs and no two different ones are on the same socket and core |
| CpuSelect.FullCoresSound | pkg/cputopology/select.go:136-147 | the sorted threads of cores that fill the count are an accepted selection |
| CpuSelect.FullCoresComplete | pkg/cputopology/select.go:136-142 | every cpuset full_cores accepts is filled by some choice of whole cores |
| CpuSelect.OneThreadSound | pkg/cputopology/select.go:149-160 | the lowest threads of the first cores are an accepted selection |
| CpuSelect.OneThreadComplete | pkg/cputopology/select.go:149-155 | an accepted cpuset is no larger than the number of cores |
| CpuSelect.SelectionAtMostHost | pkg/cputopology/select.go:118-120 | no duplicate-free set of host CPUs is larger than the host |
| CpuSelect.SelectFullCores | pkg/cputopology/select.go:136-147 | an accepted, sorted selection; none only if no selection of that size is accepted |
| CpuSelect.SelectOneThreadPerCore | pkg/cputopology/select.go:149-160 | likewise, with the lowest thread of each core |
| CpuSelect.Select | pkg/cputopology/select.go:113-169 | with distinct host ids, succeeds exactly when an accepted set of count CPUs exists, and returns one, sorted, for every shuffle; the error kind matches its condition |
| CpuHost.Host.WriteCpu | pkg/cpufreq/sysfs.go:177-195 | a sysfs write changes one field of one CPU or, refused, nothing |
| CpuHost.Host.SaveState | pkg/cpufreq/cleanup.go:29-57 | on success the file holds the settings; nothing else changes |
| CpuHost.Host.RemoveStateFile | pkg/cpufreq/cleanup.go:75-80 | removes that file or nothing |
| CpuHost.Host.RestoreCpu | pkg/cpufreq/cpufreq.go:304-334 | success puts a CPU back to what was recorded; on a strict kernel the result and the success are those of the three writes in order |
| CpuHost.Host.RestoreFromStateFile | pkg/cpufreq/cleanup.go:123-183 | with all writes accepted, every CPU in the file gets its recorded settings, other CPUs keep theirs; on a strict kernel each gets what the kernel lets through; the file goes either way |
| CpuHost.StrictSettlesIff | pkg/cpufreq/cleanup.go:156-172 | on a strict kernel complete, ordered settings come back exactly when the lower limit is not above the recorded upper one; a second attempt succeeds |
| CpuRecovery.CrashRecovers | pkg/cpufreq/cleanup.go:185-201 | with every write let through, going through all state files in any order from a moment safe to crash at restores the first settings |
| CpuRecovery.AttemptsSettle | pkg/cpufreq/cleanup.go:144-173 | on a strict kernel one file settles a CPU unless its lower limit is above its first upper one, two files always do |
| CpuRecovery.StrictRecoversIff | pkg/cpufreq/cleanup.go:185-201 | on a strict kernel the cleanup restores everything if and only if every CPU whose lower limit is above its first upper one is in two of the files |
| CpuRecovery.StrictRecoversIffRestorable | pkg/cpufreq/cleanup.go:185-201 | where no CPU is in two files: if and only if no lower limit is above its first upper one |
| CpuRecovery.CleanupOrphanedState | pkg/cpufreq/cleanup.go:187-201 | the loop over state files computes those recoveries, and with removals that work no file of the list is left |
| CpuRecovery.CrashAndRecover | pkg/cpufreq/cleanup.go:187-201 | a new process on a machine that crashed at a safe moment gets it back, under the same conditions |
| CpuRecovery.PinnedHighStays | pkg/cpufreq/cleanup.go:156-172 | the failing input: a CPU pinned above its first upper limit, correctly on file, does not come back |
| CpuRecovery.RecoveryStrands | pkg/cpufreq/cleanup.go:156-178 | on that input the source's steps leave the upper limit where it was and the file gone |
| CpuFreq.MaxHonouredIffUnpadded | pkg/cpufreq/cpufreq.go:411-421 | a text that trims to MAX is honoured exactly when it needs no trimming, and asks for 0 kHz otherwise |
| CpuFreq.NumbersAreTakenAsRead | pkg/cpufreq/cpufreq.go:411-458 | any other text asks for the number it reads as, if that is above zero, and is refused otherwise |
| CpuFreq.TrimCuts | pkg/cpufreq/cpufreq.go:413 | trimming takes white space off both ends, and all of it |
| CpuFreq.Manager.PinCpu | pkg/cpufreq/cpufreq.go:239-252 | success means both limits are the target, on any kernel; a strict kernel lets it through exactly when the target is not above the upper or not below the lower limit, hence always from ordered limits |
| CpuFreq.Manager.CaptureNew | pkg/cpufreq/cpufreq.go:139-152 | afterwards every target CPU is recorded, and every record is the CPU's first setting |
| CpuFreq.Manager.RefreshStateFile | pkg/cpufreq/cpufreq.go:170-186 | the new file holds all records and is there before a previous one at another path goes: every moment is safe to crash at unless the save failed, and then the previous file is still there |
| CpuFreq.Manager.SetGovernors | pkg/cpufreq/cpufreq.go:199-209 | success sets exactly the targets' governors; on a strict kernel any readable CPU can be set |
| CpuFreq.Manager.SetFrequencies | pkg/cpufreq/cpufreq.go:212-259 | success leaves each target with both limits at the number asked for, or for MAX at its own hardware maximum, within its hardware range, its governor kept; errors name an unknown or unmet range; on a strict kernel in-range targets always succeed |
| CpuFreq.AppliedMeans | pkg/cpufreq/cpufreq.go:188-263 | what a request comes to on each CPU: both limits at the number or at that CPU's maximum, the governor asked for or the one it had, other CPUs unchanged |
| CpuFreq.Manager.Apply | pkg/cpufreq/cpufreq.go:116-272 | keeps the manager's invariant and every moment's recoverability, partial failures included; success leaves each target with min and max at the number asked for, or its own hardware maximum for MAX, and the governor asked for, or the old one; an error says something true; on a strict kernel every feasible request succeeds and limits stay ordered even where the request fails half way; other CPUs stay as they were, and no state file but the manager's own is added |
| CpuFreq.Manager.RestoreSettings | pkg/cpufreq/cpufreq.go:283-355 | success means every governor, min and max is back and the records are gone; failure keeps records and state file; on a strict kernel it succeeds exactly when no lower limit is above its original upper limit, which holds after any call |
| CpuFreq.Manager.RestoreThenStop | pkg/cpufreq/cpufreq.go:98-113 | on a strict kernel two calls always suffice, and exactly when one does |
| CpuFreq.PinnedHighTakesTwo | pkg/cpufreq/cpufreq.go:316-334 | a pin above the first upper limit on a strict kernel: the first Restore is refused, the second restores |
| CpuFreq.Manager.Run | pkg/cpufreq/cpufreq.go:116-355 | over any sequence of applies and restores: with saves that work every moment is safe to crash at; with saves that fail, what was saved before stays on file until everything was restored; limits stay ordered on a strict kernel |
| CpuFreq.Manager.RunThenRestore | pkg/cpufreq/cpufreq.go:98-113 | after any such run on a strict kernel two calls put everything back, and where removals work no state file is left behind |
| Bundle.StableSortPermutes | pkg/builder/prerun_bundle.go:235-237 | the sort specification loses and adds nothing |
| Bundle.StableSortIsStable | pkg/builder/prerun_bundle.go:235-237 | payloads of one number keep their order |
| Bundle.SortAndDedupPayloads | pkg/builder/prerun_bundle.go:205-253 | fails exactly when a payload does not decode; otherwise first occurrences by hash of the stable sort |
| BundleRefinement.DedupKeepsFirsts | pkg/builder/prerun_bundle.go:238-252 | dropping repeats keeps, in order, exactly the payloads without a hash and the first of every other hash |
| Bundle.WriteRequestBundle | pkg/builder/prerun_bundle.go:35-72 | fails exactly when a payload has no lines; otherwise line 2k is the k-th payload and line 2k+1 the forkchoice update to its own hash, both numbered k+1 |
| Bundle.BundleLinesArePairs | pkg/builder/prerun_bundle.go:97-126 | every payload with a hash gets its pair, in order, under its own number |
| Bundle.BundleWriter.Emit | pkg/builder/prerun_stream.go:77-127 | keeps, skips or refuses a payload as the kept ones demand; file, ids, first and latest stay those of the kept payloads |
| Bundle.AdmitMeans | pkg/builder/prerun_stream.go:77-127 | in the payloads' own fields: undecodable refused, known hash skipped, lower or equal number refused with both numbers, no hash refused, everything else kept |
| Bundle.BundleWriter.Info | pkg/builder/prerun_stream.go:131-144 | equals summarizeBundle of the kept payloads |
| Bundle.SummaryMeans | pkg/builder/prerun_bundle.go:287-316 | the start is the first payload's parent hash and number minus one, wrapping, the end the last payload's; it fails exactly when there is none or one of the two does not decode |
| Bundle.BundleWriter.EmitAll | pkg/builder/prerun_stream.go:268-282 | feeding payloads in order stops at the first refusal |
| BundleRefinement.StreamAcceptsAscending | pkg/builder/prerun_stream.go:91-98 | well-formed payloads are all accepted exactly when their first occurrences by hash ascend strictly; the writer then holds those |
| BundleRefinement.StreamStopsAtBreak | pkg/builder/prerun_stream.go:91-98 | otherwise it holds the first occurrences of the prefix before the first break |
| BundleRefinement.SortingAscendingStream | pkg/builder/prerun_bundle.go:235-250 | sorting first does not change the first occurrences of an ascending stream |
| BundleRefinement.RefinesIffFirstIsLowest | pkg/builder/prerun_stream.go:16-28 | the payloads of an accepted sequence are those of the buffered path if and only if no payload stands on a lower number than the first one with its hash |
| BundleRefinement.StreamingRefinesBuffered | pkg/builder/prerun_stream.go:75-76 | in particular where a hash determines its number: same payloads, hence lines and summary |
| BundleRefinement.SharedHashBreaksRefinement | pkg/builder/prerun_stream.go:75-89 | one hash on two numbers, the higher first: the two writers keep different blocks |
| BundleRefinement.ContiguousMeansNoGap | pkg/builder/prerun_bundle.go:282-284 | on an ascending bundle the wrapping count test holds exactly when the k-th number is start + 1 + k |
| BundleRefinement.ContiguousMeansWholeRange | pkg/builder/prerun_bundle.go:280-284 | for a streamed bundle from block 1 on, exactly when the emitted numbers are start + 1 through end |
| BundleRefinement.BufferedContiguity | pkg/builder/prerun_bundle.go:205-284 | a buffered bundle that passes the test from block 1 on covers its range if and only if no number is in it twice |
| BundleRefinement.BufferedContiguityMisleads | pkg/builder/prerun_bundle.go:205-253 | numbers n, n, n+2 from the buffered path pass it with n+1 missing |
| Lines.JoinSplit | pkg/builder/prerun_bundle.go:83 | splitting at newlines loses nothing |
| Lines.SplitAppend | pkg/builder/prerun_bundle.go:451 | the pieces of a concatenation are the pieces of the parts, glued at the cut |
| BundleFile.LastPayloadRef | pkg/builder/prerun_bundle.go:478-506 | the block found is named by a line after which no line names one; none only if no line does |
| BundleFile.NarrowTailIsSuffix | pkg/builder/prerun_bundle.go:440-456 | the whole lines of a narrow window end those of a wider one |
| BundleFile.FoundInTailIsLastInFile | pkg/builder/prerun_bundle.go:440-463 | a block found in any window, with cut first and last lines, is the one a full read finds |
| BundleFile.DeriveBundleInfo | pkg/builder/prerun_bundle.go:423-475 | the doubling loop ends, and its answer is that of one read of the widest window, errors included |
| BundleFile.FaithfulEncodingExists | pkg/builder/prerun_bundle.go:97-126 | any lines have an encoding as single, non-blank lines that a decoder undoes |
| BundleFile.FinishedBundleEnd | pkg/builder/prerun_stream.go:131-144 | in a finished bundle that block is the recorded end block |
| BundleFile.FinishedBundleTail | pkg/builder/prerun_bundle.go:411-418 | and it is found in every window longer than the last pair of lines |
| BundleFile.ReadRequestLines | pkg/builder/prerun_bundle.go:77-93 | exactly the lines that are not blank after trimming, in order |
| BundleFile.ReadBackIsWritten | pkg/builder/prerun_bundle.go:77-93 | reading a bundle back gives exactly the lines written |
| Replay.EngineClient.ReplayCall | pkg/builder/engine.go:500-529 | the retry loop computes the outcome of one request, failed calls and cancellation included |
| Replay.EngineClient.ReplayBundle | pkg/builder/engine.go:471-496 | the line loop computes the outcome of a bundle and stops at the first failing line |
| ReplayOutcomes.CallOutcomeMeans | pkg/builder/engine.go:500-529 | for every client, state and request: success if and only if the client can process it and answers VALID within 60 retries, and then it has processed it; an undecodable payload whose call goes through is rejected as INVALID and changes nothing |
| ReplayOutcomes.CallErrorMeans | pkg/builder/engine.go:501-528 | every other error says which attempt failed, was cancelled or was the sixtieth retry still stalled |
| ReplayOutcomes.ReplayEnds | pkg/builder/engine.go:471-496 | every replay gets through the lines before the first that does not decode or is not answered VALID, fails there with the line's number and cause, and succeeds if there is none |
| ReplayOutcomes.ThroughState | pkg/builder/engine.go:466-471 | the lines that went through leave the client with the blocks they import and the head set last |
| Replay.StallsTolerated | pkg/builder/engine.go:462-528 | a processable request goes through exactly when it meets at most 60 stalls and nothing interrupts the attempts up to the last |
| Replay.ExactlySixtyTolerated | pkg/builder/engine.go:462-518 | uninterrupted, exactly 60 SYNCING or ACCEPTED answers are tolerated |
| Replay.UnprocessableFails | pkg/builder/engine.go:515-518 | a request the client cannot process is given up, after 60 retries if nothing interrupts, and changes nothing |
| Replay.ReplayFollowsChain | pkg/builder/engine.go:466-471 | within the tolerance the client's head follows a linked chain to its end |
| Replay.ReplayGivesUp | pkg/builder/engine.go:486-488 | otherwise the replay fails at the first line stalled on too often or interrupted |
| Replay.ReplayNeedsStart | pkg/builder/prerun_bundle.go:264-268 | a client without the start block fails on the first line |
| Replay.WriteReadReplay | pkg/builder/engine.go:466-529 | written, read back and replayed, a linked chain succeeds if and only if the start block is known and every line is smooth, and the head is then the recorded end block |
| GasRamp.EngineClient.BumpGasLimit | pkg/builder/engine.go:561-619 | built is the least number of blocks that reaches the target, or the error says whether the head query, a build, a cancellation or the budget ended it, and where |
| GasRamp.DefaultCapNeverTrips | pkg/config/pre_runs.go:20-27 | from at least 30M any target up to the default is reached within 10,670 blocks, so neither the default cap nor any cap of at least that trips |
| GasRamp.NoLegalChainIsFaster | pkg/config/pre_runs.go:22-27 | from 30M no chain within the rule reaches 1 TGas in fewer than 10,670 blocks |
| GasRamp.RampFromSnapshotIsExact | pkg/config/pre_runs.go:20-27 | with the default target and cap the fastest filler takes exactly 10,670 blocks |
| DeployCode.InitcodeReturnsRuntime | pkg/builder/deploy.go:69-97 | on any amount of gas, the init code returns exactly the runtime and the exact rest, or runs out of gas when it cannot pay |
| DeployCode.RefusedIffTruncated | pkg/builder/deploy.go:60-86 | the size limit is exact: a runtime is refused if and only if the prefix for it would not return it |
| DeployCode.CreateCostFits | pkg/builder/deploy.go:180-185 | intrinsic cost, execution with quadratic memory cost, and code deposit fit the limit for every length |
| DeployCode.DeployTxSucceeds | pkg/builder/deploy.go:69-97 | a creation transaction with that limit deploys exactly the runtime if and only if the network's rules admit it as code, its init code for size and a transaction with that much gas |
| DeployCode.DeploysOnMainnetIff | pkg/builder/deploy.go:65-67 | with mainnet's rules: exactly runtimes of at most 24,576 bytes that do not start with 0xEF |
| DeployCode.GasCapBindsFrom | pkg/builder/deploy.go:180-185 | with a gas cap of 2^24 and no size limits: exactly runtimes below 47,364 bytes |
| Evm.CalldataGasBounds | pkg/builder/deploy.go:180-182 | calldata costs between 4 and 16 gas a byte |
| LogHub.RunHub.RegisterRunner | pkg/api/wshub.go:101-110 | the whole new state, the superseded connection and whether to send stream_on |
| LogHub.RunHub.RunnerGone | pkg/api/wshub.go:125-130 | only the current connection clears the flag |
| LogHub.RunHub.RegisterUi | pkg/api/wshub.go:153-165 | the snapshot is the buffer, and stream_on is decided exactly for the first UI of a runner not yet streaming |
| LogHub.RunHub.UnregisterUi | pkg/api/wshub.go:380-397 | stream_off is decided exactly when the last UI leaves a streaming runner |
| LogHub.RunHub.AppendAndFanOut | pkg/api/wshub.go:335-351 | appends, trims to the cap, and names the UIs to push to |
| LogHub.RunHub.DropConnections | pkg/api/wshub.go:214-219 | forgets the connections and nothing else |
| LogHubRuns.StepKeeps | pkg/api/wshub.go:96-402 | every critical section, on any hub, keeps the invariants |
| LogHubRuns.EveryWorldInvariant | pkg/api/wshub.go:96-402 | so every reachable state has them |
| LogHubRuns.BufferIsNewestBytes | pkg/api/wshub.go:335-346 | the buffer is the last min(seq, cap) bytes ever appended, and truncated holds exactly when more were |
| LogHubRuns.UiSeesContiguousLog | pkg/api/wshub.go:141-367 | snapshot plus chunks of a connected UI are the log from its start to the current byte, without gap or overlap |
| LogHubConnections.SubscribedIffConnected | pkg/api/wshub.go:141-402 | in every run: a UI is subscribed to a hub exactly when it connected to it and has neither disconnected nor been dropped since, and once |
| LogHubConnections.LogIsAppended | pkg/api/wshub.go:322-351 | a hub's log is the bytes appended to it, in order |
| LogHubConnections.ConnectedUiSeesLog | pkg/api/wshub.go:141-367 | a UI that is connected has been given the log from the newest bytes, up to the cap, there were when it connected, to the current byte; truncated is marked exactly when earlier ones are missing |
| LogHubConnections.RunnerIffCurrent | pkg/api/wshub.go:96-135 | a hub's runner is the last one to connect, until it disconnects or is dropped |
| LogHubConnections.UpdatedByLastTouch | pkg/api/wshub.go:234-248 | the time an eviction goes by is that of the last event that created or touched the hub |
| LogHubConnections.RegisteredIffLookedUp | pkg/api/wshub.go:275-287 | a run has a hub exactly when it was looked up since it was last dropped |
| LogHubConnections.RunKeepsItsHub | pkg/api/wshub.go:275-287 | and until then it is the same one |
| LogHubConnections.RunsShareNoHub | pkg/api/wshub.go:275-287 | no two runs have the same hub |
| LogHubRuns.RunnerIsToldTheTruth | pkg/api/wshub.go:96-196 | the commands for one connection alternate from stream_on, and the last one of a current runner says whether there is a UI |
| LogHubRuns.FlagStaleAfterDrop | pkg/api/wshub.go:214-219 | without a runner the flag may be stale |
| BlockLog.Collector.RegisterBlockHash | pkg/blocklog/collector.go:56-70 | takes a waiting log or starts to wait |
| BlockLog.Collector.Write | pkg/blocklog/collector.go:116-170 | processes every complete line and keeps the rest; a refused chunk changes nothing |
| BlockLog.Collector.MatchOrBuffer | pkg/blocklog/collector.go:152-162 | a payload goes to its waiting test or waits itself |
| BlockLog.LinesRebuildStream | pkg/blocklog/collector.go:126-146 | processed lines and leftover are the stream, cut at its newlines |
| BlockLog.NothingLost | pkg/blocklog/collector.go:126-146 | joined back they are the bytes written |
| BlockLog.PendingAndUnmatchedDisjoint | pkg/blocklog/collector.go:42-44 | no hash waits on both sides, in any run |
| BlockLog.PendingIffRegisteredLast | pkg/blocklog/collector.go:56-70 | in every run, repeats included: a test waits exactly when its registration found no log and was the last thing to happen to the hash |
| BlockLog.UnmatchedIffLoggedLast | pkg/blocklog/collector.go:152-162 | a log waits exactly when it found no test and was the last thing to happen to its hash |
| BlockLog.LogIsLastDelivered | pkg/blocklog/collector.go:56-162 | a test's block log is what was last delivered to it |
| BlockLog.BooksReflectRun | pkg/blocklog/collector.go:56-170 | in every state of every run the three maps are those of the registrations made and lines processed |
| BlockLog.CollectorConfluent | pkg/blocklog/collector.go:56-170 | with distinct hashes and tests and one log per hash, the block logs are exactly the registered and logged tests' payloads, for every chunking, timing and stateful parser |
| BlockLog.SameInputsSameLogs | pkg/blocklog/collector.go:73-84 | two complete runs over one stream and the same registrations end alike |
| BlockLog.SettleIsProcessing | pkg/blocklog/collector.go:130-165 | one Write is line steps of the interleaving model until no complete line is left |
| BlockLog.RepeatedLogDependsOnOrder | pkg/blocklog/collector.go:56-162 | with two logs of one hash the order does matter |
| RateLimit.RateLimiterMap.Request | pkg/api/ratelimit.go:47-65 | look-up or creation of the bucket, then one token |
| RateLimit.RateLimiterMap.Cleanup | pkg/api/ratelimit.go:71-81 | exactly the entries last seen more than 600 seconds ago go, the others stay as they are |
| RateLimit.IdleIsFull | pkg/api/ratelimit.go:16-39 | a bucket idle that long is full |
| RateLimit.SimulatedAnswers | pkg/api/ratelimit.go:47-82 | maps that differ only in evicted full buckets answer alike for ever |
| RateLimit.EvictionUnobservable | pkg/api/ratelimit.go:33-82 | every time-ordered run of requests and ticks gets the answers of a map that never evicts |
| RateLimit.RateHolds | pkg/api/ratelimit.go:33-40 | over any stretch of any run one IP gets at most rpm + elapsed * rpm / 60, evictions included |
| RateLimit.RefusedIffExceeds | pkg/api/ratelimit.go:33-98 | from an IP's first request on: a request is refused if and only if over some stretch ending with it allowing it would give the IP more than rpm + elapsed * rpm / 60 |
| RateLimit.FirstRequestsAllowed | pkg/api/ratelimit.go:36-39 | so an IP that was allowed fewer than rpm requests is allowed the next |
| RateLimit.EntryIffSeen | pkg/api/ratelimit.go:47-82 | an IP has an entry exactly when it has asked and no cleanup came more than ten minutes after its last request |
| IndexCache.IndexServer.CachedIndex | pkg/api/handlers_index.go:144-153 | the cached body of that generation, if any |
| IndexCache.IndexServer.StoreCachedIndex | pkg/api/handlers_index.go:159-167 | replaces the body unless it is of a newer generation |
| IndexCache.IndexServer.BuildBody | pkg/api/handlers_index.go:78-130 | one entry per row in order: id and time are the row's, steps the row's if non-empty and valid and {} otherwise, metadata the row's if non-empty and valid and absent otherwise, the request time the row's or 0 |
| IndexCache.IndexServer.HandleIndex | pkg/api/handlers_index.go:60-140 | the cached body of that generation, or the error, or those columns of the rows just listed; and the cache after each |
| IndexCache.PlainTablesShown | pkg/api/handlers_index.go:78-120 | rows whose stored JSON is valid and whose request time is not 0 are determined by their entries: a body shows one such table only |
| IndexCache.StepKeeps | pkg/api/handlers_index.go:60-167 | every step of any request, commit or bump keeps cached and built bodies sound |
| IndexCache.ResponsesAreFresh | pkg/api/handlers_index.go:52-66 | every response shows a table version between the generation at the moment its request began and the last commit, and that version has every change announced at that moment |
| IndexCache.QuietMeansCurrent | pkg/api/handlers_index.go:56-59 | once all changes are announced, a request shows the table as it is |
| IndexCache.CacheNeverGoesBack | pkg/api/handlers_index.go:155-167 | the cached generation never decreases and the body is never lost |
| IndexCache.MissesChangeIff | pkg/api/handlers_index.go:60-167 | in every reachable state: without further commits a new request can be served a body that misses a change if and only if the cache, or a build about to be stored, has such a body of the current generation |
| IndexCache.UnannouncedChangeMayBeMissing | pkg/api/indexstore/indexstore.go:276-287 | a reachable such state and the request that misses the change |
| RunDeleter.Server.HandleDeleteRuns | pkg/api/admin.go:592-620 | rows that wait and have an id named get the time of the request, rows queued or running and all others stay as they are, database errors included; errors are the refused ids, and it kicks exactly when some id was accepted |
| RunDeleter.RefusedAreUnmarkable | pkg/api/indexstore/deletion.go:26-70 | in a request that names no id twice, exactly the ids that cannot be marked from the start are refused |
| RunDeleter.MarkableAgainIff | pkg/api/indexstore/deletion.go:51-69 | marking an indexed id again succeeds if and only if its first row is not both running and unqueued |
| RunDeleter.RefusedIff | pkg/api/indexstore/deletion.go:26-70 | for every index and request: a mention is refused if and only if the database fails, the id cannot be marked from the start, or it was named before and its first row is still running |
| RunDeleter.UnmarkableIff | pkg/api/indexstore/deletion.go:43-69 | an id cannot be marked exactly when it is not indexed, or its first row is still running while no other row waits |
| RunDeleter.MarkableWhenUnique | pkg/api/indexstore/deletion.go:22-27 | where ids are unique: exactly when its run is running and not queued |
| RunDeleter.UnmarkUndoesMark | pkg/api/indexstore/deletion.go:112-130 | an unmark takes back the mark that queued the rows |
| RunDeleter.RefusedMembers | pkg/api/admin.go:592-615 | the ids reported are those with a refused mention |
| RunDeleter.SecondMentionRefused | pkg/api/indexstore/deletion.go:51-69 | an accepted id named twice is refused exactly when its first row is still running |
| RunDeleter.TwoPathsRefuse | pkg/api/indexstore/deletion.go:51-69 | the failing input: two paths with one id, the earlier row running |
| RunDeleter.Server.KickRunDeleter | pkg/api/rundeleter.go:72-77 | the slot is taken afterwards |
| RunDeleter.Server.DeleteQueuedRun | pkg/api/rundeleter.go:110-148 | a failed storage delete leaves the objects and, if it can, notes that failure on every row of the id; otherwise the run's objects go, and then every row of its id, or that failure is noted |
| RunDeleter.Server.DrainDeletionQueue | pkg/api/rundeleter.go:81-104 | a pass works down the queue in order as far as a shutdown lets it, and deletes objects of those runs and rows of their ids only; undisturbed, every run of the queue is gone or has an error |
| RunDeleter.UniqueIdsGoLast | pkg/api/rundeleter.go:106-109 | with unique ids a pass removes no row without its own objects |
| RunDeleterRuns.WakeupStaysPending | pkg/api/rundeleter.go:54-77 | whenever a kicked run waits, a wake-up is on its way or the last listing failed |
| RunDeleterRuns.NoWakeupIsLost | pkg/api/rundeleter.go:54-104 | when the worker is parked again with an empty channel and a listing that worked, the kicked run has been listed since, and attempted if it was still queued |
| RunDeleterRuns.ParkedMeansNothingWaits | pkg/api/rundeleter.go:54-77 | where listings never fail, a parked worker with an empty channel has nothing waiting |
| RunDeleterRuns.ListedIsAttempted | pkg/api/rundeleter.go:95-103 | a pass leaves out no run of its list, shutdown aside |
| RunDeleterRuns.PlaceIffMarked | pkg/api/indexstore/deletion.go:22-50 | in every run: a row has its place in the queue since the mark that found it waiting, whatever marks come later, until an unmark or a row delete of its id |
| RunDeleterRuns.OldestFirst | pkg/api/indexstore/deletion.go:72-85 | within a pass the run attempted earlier was queued earlier, or at the same time with a lower key |
| RunDeleterRuns.ErrorIsLast | pkg/api/indexstore/deletion.go:90-130 | a row shows the last failure at its id that could be recorded, until it is marked anew or unmarked |
| RunDeleterRuns.FailedListingStrands | pkg/api/rundeleter.go:82-87 | a failed listing does strand a kicked run until the next tick |
| RunDeleterRuns.RowsGoLastIffAlone | pkg/api/rundeleter.go:106-132 | in every run, failures and shutdown included: the rows that leave at a row delete all do so right after their own storage delete if and only if no other row has the deleted run's id |
| RunDeleterRuns.RowGoesLast | pkg/api/rundeleter.go:106-132 | while ids stay unique, a row leaves only right after its own storage delete, and without objects unless it was uploaded anew |
| RunDeleterRuns.SharedIdLosesRow | pkg/api/indexstore/indexstore.go:487-512 | the failing run: two paths with one id, one storage delete, both rows gone, a shutdown, and the other path's objects still there |

## Left out

- HTTP routing, authentication, S3, GitHub, Docker, websocket transport, the CLI and the UI: input and output around the logic.
- Config validation and defaults, argument builders and client specs: branch by branch, they would only add easy members.
- JSON: a payload is what the decoders look at, a line is a value with a partial parse. Encoded lines are assumed single, non-blank and undone by the decoder (`Faithful`).
- Errors while writing or reading the bundle file, and `discard`: the model's files accept every write.
- Bundle.BundleWriter.EmitAll: the walk over fixture files is a sequence of payloads; how fixtures are found and decoded is not modelled.
- CpuSelect.Select: the uniformity of the draws is not modelled; that every order can be drawn is.
- Evm.Step: only PUSH1, PUSH2, CODECOPY, RETURN and STOP; anything else is OutsideModel, which the init code never reaches.
- DeployCode.DeployTxSucceeds: signing, fees, balances and the deployed address are opaque. Which rules a network has is a parameter; `deployInitcode` itself checks none of them.
- GasRamp.EngineClient.BumpGasLimit: whether built blocks are valid is not decided by the code.
- Replay.EngineClient.ReplayCall: waiting times are left out; a client that is asked often enough either answers VALID or never could.
- Delivery of websocket frames: commands, snapshots and chunks are sent after the lock is released, so the hub's theorems are about the order decided, not the order delivered; closing of a UI's channel is not modelled.
- LogHub.RunHub.IsIdle: the eviction loop is one `Unregisters` step per run, allowed at any time, not only for idle hubs.
- RateLimit.RateLimiterMap.Request: tokens are real numbers, not floating point, and a request's two clock readings are one.
- Turbo boost: best effort in the source. Governor names are never refused by the strict kernel of the model.
- CpuFreq.Manager.Apply: reading a number and its unit out of the text is a parameter. Readable CPUs are assumed to have non-empty settings, and nobody else writes sysfs or the state files.
- CpuFreq.Manager.constructor: state files that an earlier crash left behind must agree with the machine, as they do once they were cleaned up.
- CpuHost.Host.RestoreFromStateFile: unreadable state files and torn writes are left out; a refused write in it is not retried, as in the source.
- IndexCache.EntryOf: the columns copied unchanged are represented by id and timestamp.
- RunDeleter.Server.HandleDeleteRuns: checks of the request body are left out.
- Cancelling a queued run does not keep it: a pass works from the list it took. Nothing is claimed about it.
- Storage deletes are all or nothing here; one that fails half way is retried by the source on a later pass.
- Promotion after a pre-run, which depends on reading a closed channel: the source does not decide it.
