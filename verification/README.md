# A verified model of FAI-PEP's core

FAI-PEP is a benchmarking lab: a server hands out benchmark jobs, labs run them on phones and
hosts, and drivers build executables, compose commands, collect samples and look for
regressions. This project models the parts of it that carry real logic and proves what they
promise. `dafny verify dfyconfig.toml` checks everything.

Code that computes a value with a loop is a method proved against a specification function;
objects that change are classes (`JobServer.Server`, `Allocation.Lab`,
`DeviceMonitor.DeviceManager`); protocols between threads and machines are state machines whose
runs are all sequences of enabled steps. Numbers are exact. Exceptions are the result `Raised`.

| file | what it models |
|---|---|
| `CommandLookup`, `TokenExpansion`, `Placeholders`, `CommandPasses`, `CommandRewriting` | the loop that rewrites `{name}` in a command until nothing resolves |
| `JsonMerge`, `TextReplace`, `ReplaceOrder`, `JsonReplace` | `deepMerge`, repeated runs, `deepReplace` and the string map |
| `PowerTrace` | the incremental step filter and the power it finds |
| `JobServer`, `LabProtocol`, `Allocation` | the job table, several labs working on it, and the greedy choice of devices |
| `LabRuns`, `DeviceMonitor`, `DeviceTracking` | jobs and cooldowns of one lab, draining, and the disconnect monitor |
| `RepoDriver` | the builder and the benchmark thread with their lock and queue |
| `Sorting`, `Sets`, `Percentiles`, `StatisticNames`, `Statistics`, `Spread`, `Regression` | percentiles and their names, summaries and what they say of the samples, the A/B difference and the regression test |
| `Arguments`, `Decimals`, `TestExpansion`, `ImageScale` | argument pairs, printed numbers, test replication and identifiers, image scaling |

## What turned out not to hold

Each of these comes with the exact condition under which the property does hold, and with runs or
inputs that break it otherwise.

- Rewriting a command ends without an exception only if no chain of definitions returns to a
  name, on any command (`CommandRewriting.EndsWellOnlyIfAcyclic`); on closed commands it ends
  exactly when the definitions are acyclic or a name whose lookup raises is in the command or in
  the last text of a chain of definitions (`CommandRewriting.LoopEndsIff`).
- Without `--same_host` a failing build can release the benchmark thread's lock, which then
  crashes with an item unfinished (`RepoDriver.DisciplineIff`).
- A reported job ends on the server exactly when its status is accepted; one that ends as KILLED
  or TIMEOUT stays RUNNING for good (`LabProtocol.ReportEndsIff`,
  `LabProtocol.RejectionHappens`).
- A lab that is told to drain goes on taking jobs: it starts another exactly when it is about to;
  or it has claimed jobs to choose from, or is about to claim some, and a device is or may become
  free; or jobs are outstanding, so that the next test does not stop it; and then any number
  (`LabRuns.DrainEndsIff`). One device is enough (`LabRuns.DrainUnboundedIff`).
- A device whose reconnect succeeds at the third miss stays online but neither live nor, unless
  another thread frees it, available (`DeviceTracking.ReconnectStrands`,
  `DeviceTracking.StrandingHappens`). Unless it reports the device as new, a check strands it in no
  other way (`DeviceTracking.StrandsIff`), and leaves it so exactly if it sees it or misses it while
  it is paused (`DeviceTracking.StrandedIff`).
- The A/B difference is antisymmetric in exactly the percentiles whose names are spelt as the code
  prints them (`Statistics.AntisymmetricIffPlain`): in "p50", not in "p05"
  (`StatisticNames.Spellings`).
- Printed arguments are read back exactly when no name has a `=` and no value starts with `--`
  (`Arguments.RoundTripIff`).
- The order of string-map replacements is free, for maps without braces, exactly where no braces
  enclose plain text and at least one placeholder (`ReplaceOrder.OrderFreeIff`,
  `JsonReplace.OrderFreeIff`).
- The grouping of two merges is free exactly when the right-hand merge is defined or no target
  takes both sources (`JsonMerge.GroupingsAgreeIff`).
- Greedy allocation serves as many jobs as possible on every lab exactly when no job without a
  hash precedes the first job of its kind that names some hash (`Allocation.OptimalIff`); else it
  may serve half (`Allocation.HalfIsReached`).
- The size asserts of the image script hold for all images exactly when no limit is negative or
  both are equal (`ImageScale.AssertsHoldIff`).
- Replication runs out of shapes exactly when an input has fewer than the first, which of the
  tests that pass the checks happens only to tests with a command (`TestExpansion.ReplicateTest`,
  `TestExpansion.OnlyCommandTestsRunOut`); a test disappears exactly when its inputs are empty or
  the first of them has no shapes (`TestExpansion.DroppedIff`).

## Model

| member | source | states |
|---|---|---|
| CommandLookup.GetMatchedString | benchmarking/frameworks/framework_base.py:499-522 | the walk along dotted fields finds what the recursive lookup finds: nothing, a text (a file's path for file entries), or an exception |
| CommandLookup.JoinSplit | benchmarking/frameworks/framework_base.py:505 | splitting a name at its dots loses nothing |
| CommandLookup.KeyIsFound | benchmarking/frameworks/framework_base.py:502-503 | a key of the dictionary itself comes first, with dots or without, and gives its text, or the printed form of a value that is no text |
| CommandLookup.PathIsFound | benchmarking/frameworks/framework_base.py:504-522 | where all keys of a dotted path are there, its end is found: the file listed under the last key, if the entry there has a location and that key is listed, else its text; anything but a text raises |
| CommandLookup.PathStops | benchmarking/frameworks/framework_base.py:504-515 | where a key is missing nothing is found; where the path goes on below a text or a list nothing is found unless that contains the next key, which raises, as going on below a number does |
| CommandLookup.ResolvedIsName | benchmarking/frameworks/framework_base.py:487-493 | only the finitely many dotted paths of test, model and programs resolve, which bounds the passes |
| TokenExpansion.ExpandTwice | benchmarking/frameworks/framework_base.py:478-497 | expanding to depth j and then k is expanding to depth j + k, so breadth-first passes agree with depth-first recursion |
| TokenExpansion.AcyclicEnds | benchmarking/frameworks/framework_base.py:478-497 | acyclic definitions are used up after as many levels as there are names |
| TokenExpansion.StopsIffAcyclic | benchmarking/frameworks/framework_base.py:478-497 | expansion ends if and only if no chain of definitions that starts in the command returns to a name |
| Placeholders.RenderParse | benchmarking/frameworks/framework_base.py:476-484 | reading a text as characters and placeholders keeps the text |
| Placeholders.NameCharBounds | benchmarking/frameworks/framework_base.py:476 | names have letters, digits, underscores, bars and dots, and nothing next to these |
| Placeholders.ParseRender | benchmarking/frameworks/framework_base.py:476-484 | a closed token text is read back as the same tokens: no concatenation forms or breaks a placeholder |
| Placeholders.FindIterIsAll | benchmarking/frameworks/framework_base.py:480-484 | the matches are disjoint, in order, at placeholders, and none is left out |
| Placeholders.FindsTheHoles | benchmarking/frameworks/framework_base.py:480-484 | a name is matched if and only if it is a placeholder of the text read as tokens |
| Placeholders.Reparse | benchmarking/frameworks/framework_base.py:478-496 | the text after any number of passes is read as the expansion to that depth |
| CommandPasses.ReplaceStep | benchmarking/frameworks/framework_base.py:485-496 | splicing from right to left leaves every recorded offset valid, and each splice replaces exactly its placeholder |
| CommandPasses.PassesExpand | benchmarking/frameworks/framework_base.py:478-497 | k passes over the text are the expansion to depth k |
| Placeholders.HoleSurvives | benchmarking/frameworks/framework_base.py:476-484 | a placeholder in any text is matched, whatever surrounds it |
| CommandPasses.ChainIsRead | benchmarking/frameworks/framework_base.py:478-497 | on any command a chain of definitions keeps something to replace for as many passes as it is long |
| CommandPasses.LoopStopsOnlyIfAcyclic | benchmarking/frameworks/framework_base.py:478-497 | on any command, if some number of passes leaves nothing to replace then the definitions are acyclic |
| CommandPasses.LoopStopsIffAcyclic | benchmarking/frameworks/framework_base.py:478-497 | on closed commands also conversely |
| CommandRewriting.FindReplacement | benchmarking/frameworks/framework_base.py:487-493 | what the test gives wins, an empty text and an exception included; if it gives nothing, what the model gives, and only then what the programs give; only a non-empty text is put in |
| CommandRewriting.KeysShadow | benchmarking/frameworks/framework_base.py:487-493 | for keys: the test's value is given whatever the model and the programs are, the model's if only the test lacks the key, the programs' if both do, and nothing if all do |
| CommandRewriting.SpliceOut | benchmarking/frameworks/framework_base.py:485-496 | the inner loop gives the text of one pass, raises if and only if some placeholder's lookup raises, and asks for another pass if and only if it replaced something |
| CommandRewriting.RewriteOnce | benchmarking/frameworks/framework_base.py:478-496 | one round of the outer loop on any command, closed or not |
| CommandRewriting.RewriteUntilDone | benchmarking/frameworks/framework_base.py:475-497 | on every command and all definitions for which the loop ends at all, it ends at the first pass that raises or replaces nothing, with that pass's text |
| CommandRewriting.FirstEndIsExpansion | benchmarking/frameworks/framework_base.py:475-497 | for a closed command with acyclic definitions that is after at most as many passes as there are names, with the full recursive expansion or with both raising |
| CommandRewriting.EndsWellOnlyIfAcyclic | benchmarking/frameworks/framework_base.py:475-497 | on any command a loop that ends without an exception had acyclic definitions |
| CommandRewriting.EmptyStays | benchmarking/frameworks/framework_base.py:494-496 | on any command a placeholder that gives nothing or the empty text is never taken out |
| CommandRewriting.TestDecides | benchmarking/frameworks/framework_base.py:486-494 | on any command all of whose placeholders, at every pass, are found in the test, the outcome is the same whatever the model and the programs are |
| CommandRewriting.RaisesAtSomeDepthIff | benchmarking/frameworks/framework_base.py:478-497 | some depth of the expansion has a name whose lookup raises if and only if the command has one, or the text that some chain of definitions ends in |
| CommandRewriting.LoopEndsIff | benchmarking/frameworks/framework_base.py:475-497 | on a closed command the loop ends if and only if its definitions are acyclic or a name whose lookup raises is in it or in the text that some chain of them ends in |
| CommandRewriting.GetReplacedCommand | benchmarking/frameworks/framework_base.py:475-497 | on every command on which the loop ends, the outcome of its first end, and, if there is a result, acyclic definitions, with all placeholders of the command left in it that give nothing or the empty text and no others; on closed commands with acyclic definitions it does end, with the full expansion, which is read back as such and leaves only placeholders that resolve to nothing or to the empty text |
| JsonMerge.DeepMerge | benchmarking/utils/utilities.py:156-170 | in whatever order keys come, merging gives the key-by-key merger, or raises if some part cannot be merged |
| JsonMerge.MergeAssociates | benchmarking/utils/utilities.py:156-170 | merging is associative, raising included, whenever the right-hand merge is defined |
| JsonMerge.OnlyAbsorbable | benchmarking/utils/utilities.py:156-170 | a target can take two sources one after the other only if lists, dictionaries and the rest meet in the way told from the sources alone |
| JsonMerge.AbsorberWorks | benchmarking/utils/utilities.py:156-170 | and then some target does |
| JsonMerge.GroupingsAgreeIff | benchmarking/utils/utilities.py:156-170 | the two groupings agree for every target if and only if the right-hand merge is defined or no target takes both sources |
| JsonMerge.MergeAt | benchmarking/utils/utilities.py:156-170 | at every path the merged tree has the merger of what the two trees have there, so a scalar of the target never changes |
| JsonMerge.RunsAt | benchmarking/driver/benchmark_driver.py:139-149 | after any number of merged runs a metric's list is the in-order concatenation of the runs' lists, and a scalar is the first run's that has it |
| JsonMerge.RunOnePass | benchmarking/driver/benchmark_driver.py:138-149 | the repeat loop merges the runs up to and including the first that fails |
| TextReplace.ReplaceIsSimultaneous | benchmarking/utils/utilities.py:182-183 | replacing one placeholder is the left-to-right substitution of it alone, in any text |
| TextReplace.OneMore | benchmarking/utils/utilities.py:182-183 | replacing one more placeholder afterwards is replacing it together with the earlier ones, in every text without nests |
| TextReplace.StaysFlat | benchmarking/utils/utilities.py:182-183 | such replacements make no nest |
| ReplaceOrder.InOrderIsSimultaneous | benchmarking/frameworks/framework_base.py:668-670 | in a text without nests, replacements one after another are the simultaneous one |
| ReplaceOrder.OrderMatters | benchmarking/frameworks/framework_base.py:668-670 | for every text with a nest, two orders of one map without braces give different texts |
| ReplaceOrder.OrderFreeIff | benchmarking/frameworks/framework_base.py:668-670 | all orders of all maps without braces agree on a text if and only if it has no nest |
| JsonReplace.DeepReplace | benchmarking/utils/utilities.py:173-184 | every text of the tree is replaced, at every depth, and nothing else |
| JsonReplace.ReplacedAt | benchmarking/utils/utilities.py:173-184 | at every path of keys and indexes a text is the replaced text, and everything else is as it was |
| JsonReplace.SubstitutedAt | benchmarking/frameworks/framework_base.py:668-670 | and so for the simultaneous substitution |
| JsonReplace.ReplacedKeepsShape | benchmarking/utils/utilities.py:173-184 | keys, list lengths, nesting and other values stay |
| JsonReplace.OrderIsFree | benchmarking/frameworks/framework_base.py:668-670 | replacing the entries of a string map one by one, in any order, is one simultaneous substitution over the whole tree, where no text has a nest |
| JsonReplace.OrderFreeIff | benchmarking/frameworks/framework_base.py:668-670 | all orders of all maps without braces agree on a tree if and only if no text of it has a nest |
| JsonReplace.StringMapPrecedence | benchmarking/frameworks/framework_base.py:642-667 | the command line's entries win over the info's, and the places of the run over both |
| JsonReplace.PlacesWin | benchmarking/frameworks/framework_base.py:660-667 | the output directory, with its slash, the host directory, the root and the device hash are what their names stand for, whatever the maps say; the program path too, if there is one, and otherwise what the maps say |
| JsonReplace.ReplaceStringMap | benchmarking/frameworks/framework_base.py:668-670 | the loop over the map, in whatever order its keys come, is that substitution, and keeps the tree's shape |
| PowerTrace.GetBenchmarkStartEnd | benchmarking/utils/power_utils.py:7-47 | the incremental filter finds the first largest and the first smallest difference of neighbouring half-window sums, and raises if and only if the trace is short or the window odd |
| PowerTrace.NoiseBound | benchmarking/utils/power_utils.py:24-47 | on a noisy pulse both edges are within 4 * half * noise / height of the true ones and in their order |
| PowerTrace.ExactRecovery | benchmarking/utils/power_utils.py:24-47 | without noise the edges are found exactly |
| PowerTrace.EdgesAreUnique | benchmarking/utils/power_utils.py:44-47 | a trace determines its edges |
| PowerTrace.LatencyOfAll | benchmarking/utils/power_utils.py:72-73 | all iterations together last as long as the samples between the edges |
| PowerTrace.PowerIsPulseHeight | benchmarking/utils/power_utils.py:69-73 | on a clean pulse the model power is the height of the pulse, over its baseline and length |
| PowerTrace.PowerAverages | benchmarking/utils/power_utils.py:66-73 | baseline times the number of samples after the end is their sum, and model power plus baseline times the number between the edges is theirs |
| PowerTrace.PowerBound | benchmarking/utils/power_utils.py:69-73 | on a noisy pulse the baseline is off by at most five times the noise, and the model power by twice upwards and six times downwards, plus 8 * half * noise spread over the samples between the edges |
| PowerTrace.PostProcessPowerData | benchmarking/utils/power_utils.py:50-73 | on every trace the result is that between the edges: baseline and model power account for the sums after the end and before it, and the latency for the time; the "Benchmark failed" exception is unreachable on a noisy pulse, which yields powers within that bound, and a clean one yields its own height, baseline and latency |
| JobServer.Server.AddAction | ailab/benchmark/db_controller.py:32-44 | one unclaimed queued row for each device is added at the end, in the order of the devices, and no row changes |
| JobServer.Server.ClaimAction | ailab/benchmark/db_controller.py:46-66 | the new table is that of claiming device by device; the result is every row claimed by the claimer |
| JobServer.Server.RunAction | ailab/benchmark/db_controller.py:68-72 | exactly the claimer's listed rows of its queue become running |
| JobServer.Server.ReleaseAction | ailab/benchmark/db_controller.py:74-78 | exactly the listed rows of the queue return to it: QUEUE, without a claimer, their request kept |
| JobServer.Server.DoneAction | ailab/benchmark/db_controller.py:80-95 | an accepted status is stored; another one raises and changes nothing |
| JobServer.ClaimEffect | ailab/benchmark/db_controller.py:46-66 | claiming takes queued rows of the own queue only, of each listed kind the one with the lowest id, keeps at most one claimed row for each kind, and leaves no listed kind waiting that it could serve |
| LabProtocol.StepKeepsInv | benchmarking/run_lab.py:669-756 | every action of every lab keeps the agreement between the server's rows and what the labs hold |
| LabProtocol.RunKeepsInvariant | benchmarking/run_lab.py:669-756 | so does every run, with any number of labs in any interleaving |
| LabProtocol.InHandIsClaimed | benchmarking/run_lab.py:678-740 | the jobs a lab has in hand are exactly the rows claimed by it, at most one for each device kind |
| LabProtocol.EveryJobHasOnePlace | benchmarking/run_lab.py:669-792 | each job is waiting, ended, or with exactly the one lab that its row names; none is held or run twice |
| LabProtocol.NobodyIsStuck | benchmarking/run_lab.py:669-676 | in every reachable state every lab can go on with its round, and one that chooses no job can claim again |
| LabProtocol.RunIsLater | ailab/benchmark/db_controller.py:32-95 | in every run no job is lost, no request changes, and a finished job never returns to the queue |
| LabProtocol.UnchosenAreQueued | benchmarking/run_lab.py:669-674 | of the jobs in hand those that a lab does not choose are queued again, without a claimer and as requested; the chosen ones stay claimed |
| LabProtocol.EndsIffReported | ailab/benchmark/db_controller.py:80-95 | in every run a job ends if and only if it is reported as DONE, FAILED or USER_ERROR, and then with that status for good |
| LabProtocol.ReportEndsIff | ailab/benchmark/db_controller.py:86-93 | after a report the row is ended, in every continuation, if and only if its status is accepted |
| LabProtocol.RejectedStaysRunning | ailab/benchmark/db_controller.py:86-89 | a job with a rejected final status stays running for good |
| LabProtocol.RejectionHappens | ailab/benchmark/db_controller.py:86-89 | and a run from the start gets there |
| LabProtocol.ClaimServesEveryKind | ailab/benchmark/db_controller.py:46-60 | in every reachable state a claim leaves no listed kind both unserved and waiting |
| Allocation.Lab.SelectBenchmarks | benchmarking/run_lab.py:695-740 | the loops give the first-come first-served choice: queued jobs, remaining jobs and the new availability |
| Allocation.FreeAt | benchmarking/run_lab.py:725-734 | afterwards a device is free if and only if it was free and no job got it |
| Allocation.ChoiceServes | benchmarking/run_lab.py:725-734 | every queued job has a device that was free, of its kind and hash, and that no earlier job got |
| Allocation.NoRemainingJobFits | benchmarking/run_lab.py:735-739 | no device that is still free could serve a remaining job |
| Allocation.SelectionSplitsJobs | benchmarking/run_lab.py:695-740 | every job is either queued or remaining, counted by id |
| Allocation.SelectionSplits | benchmarking/run_lab.py:725-739 | queued and remaining jobs are those with and without a device, in the order they came; a queued job differs in naming the hash of its device, a remaining one in nothing |
| Allocation.GreedyIsValid | benchmarking/run_lab.py:695-740 | distinct queued jobs have distinct devices that can serve them |
| Allocation.HalfOfAnyAssignment | benchmarking/run_lab.py:695-740 | no valid assignment serves more than twice as many jobs |
| Allocation.OptimalWithoutHashes | benchmarking/run_lab.py:695-740 | none serves more at all when no job names a hash |
| Allocation.OptimalIfNamedFirst | benchmarking/run_lab.py:695-740 | nor where devices have distinct hashes and every hash is named before a job of its kind names none |
| Allocation.OptimalIff | benchmarking/run_lab.py:695-740 | the choice is optimal on every lab with distinct hashes if and only if no job without a hash precedes the first job of its kind that names some hash |
| Allocation.HalfIsReached | benchmarking/run_lab.py:695-740 | otherwise the factor of two is attained |
| LabRuns.StepKeepsInv | benchmarking/run_lab.py:725-834 | every step keeps: at most one place in the queue, job, callback or cooldown for each device, unavailable just then, and RUNNING_JOBS the number of outstanding jobs, one more between counting and submitting a job |
| LabRuns.RunKeepsInv | benchmarking/run_lab.py:240-245 | so does every run; after a stop by draining no job is outstanding, then or later |
| LabRuns.CooldownBetweenJobs | benchmarking/platforms/device_manager.py:410-482 | between two jobs of a device one of its cooldowns ends, with no failed reboot |
| LabRuns.NoStarts | benchmarking/run_lab.py:240-245 | a drained lab that is not about to start a job, has none outstanding, and neither claimed jobs nor a claim to come for which a device is or may become free, never starts one again |
| LabRuns.TestStops | benchmarking/run_lab.py:240-251 | the loop stops if and only if the lab drains with no job outstanding or the status file says so |
| LabRuns.LoopCanMove | benchmarking/run_lab.py:661-676 | until then it can always go on, with devices and jobs or without |
| LabRuns.StatusFileStops | benchmarking/run_lab.py:246-250 | a lab that the status file stops starts no job any more, outstanding jobs or not |
| LabRuns.DrainEndsIff | benchmarking/run_lab.py:240-245 | in every reachable drained state some continuation starts a job if and only if that is not so, and then any number of jobs |
| LabRuns.DrainUnboundedIff | benchmarking/run_lab.py:661-665 | the jobs started after a signal to drain are unbounded if and only if the lab has a device |
| DeviceMonitor.DeviceManager.constructor | benchmarking/platforms/device_manager.py:313-339 | all devices found at the start are online, available, live and uncounted; the invariant holds if and only if their hashes are distinct |
| DeviceMonitor.DeviceManager.SeeOne | benchmarking/platforms/device_manager.py:177-182 | the `[0]` lookup finds every counted hash; the count is dropped and the device enabled |
| DeviceMonitor.DeviceManager.MissOne | benchmarking/platforms/device_manager.py:188-217 | one missed device: paused, counted, reconnected or dropped |
| DeviceMonitor.DeviceManager.HandleDCDevices | benchmarking/platforms/device_manager.py:170-217 | sightings first, then misses of the other online devices, keeping the invariant |
| DeviceMonitor.DeviceManager.HandleNewDevices | benchmarking/platforms/device_manager.py:219-242 | devices reported for newly seen hashes come online once each, enabled and uncounted |
| DeviceMonitor.DeviceManager.CheckDevices | benchmarking/platforms/device_manager.py:133-139 | a whole check, keeping the invariant |
| DeviceMonitor.CheckKeepsInv | benchmarking/platforms/device_manager.py:133-242 | after a check online hashes are distinct, every online device has an entry, counts are 1 or 2, and counted hashes are online and not live |
| DeviceTracking.MissesTrack | benchmarking/platforms/device_manager.py:170-217 | what the misses of a check do to one device depends on no other device |
| DeviceTracking.CheckTracks | benchmarking/platforms/device_manager.py:133-242 | a check seen from one hash: cleared, paused, counted, reconnected, dropped or found |
| DeviceTracking.RunKeepsInv | benchmarking/platforms/device_manager.py:133-242 | the invariant holds over every run of checks and changes by other threads |
| DeviceTracking.CountsMisses | benchmarking/platforms/device_manager.py:196-202 | unsighted since a moment without counted misses, the stored count is the number of misses since |
| DeviceTracking.CountsOnlyMisses | benchmarking/platforms/device_manager.py:196-202 | every stored count is such a number |
| DeviceTracking.DroppedAtThirdMiss | benchmarking/platforms/device_manager.py:202-217 | an online device is dropped if and only if this is its third unpaused miss without a sighting in between, and the reconnect fails |
| DeviceTracking.CheckEntry | benchmarking/platforms/device_manager.py:177-200 | what a check does to an online device's entry: fresh at a sighting after misses, disabled at the first miss, else as it was |
| DeviceTracking.AsksIff | benchmarking/platforms/device_manager.py:224-229 | new devices are asked for if and only if some hash was seen that was not online |
| DeviceTracking.ReportedIsFresh | benchmarking/platforms/device_manager.py:230-241 | a device that is then reported is online, uncounted, available and live |
| DeviceTracking.ReconnectStrands | benchmarking/platforms/device_manager.py:206-217 | a third miss whose reconnect succeeds leaves the device online, uncounted and not live, and as unavailable as before |
| DeviceTracking.StrandsIff | benchmarking/platforms/device_manager.py:177-217 | unless it reports the device as new, a check strands it if and only if this is its third miss and the reconnect succeeds |
| DeviceTracking.StaysStranded | benchmarking/platforms/device_manager.py:177-182 | and so it stays as long as every check sees it, unavailable too unless another thread frees it |
| DeviceTracking.StrandedIff | benchmarking/platforms/device_manager.py:177-217 | unless reported as new, it stays so through a check if and only if it is seen, or missed while rebooting or switched off |
| DeviceTracking.StrandingHappens | benchmarking/platforms/device_manager.py:170-217 | from the start, two misses and a third whose reconnect succeeds get there, neither live nor available |
| RepoDriver.BenchmarksFollowBuilds | benchmarking/repo_driver.py:179-194 | in every mode and interleaving, whatever builds fail, finished benchmarks, the item in hand, the queue and the item to be queued are the successful builds in order; popleft is never called on an empty queue |
| RepoDriver.RunKeepsLock | benchmarking/repo_driver.py:390-401 | with `--same_host` or without failing builds each thread holds the lock exactly where it should, releases only its own, and never dies of it |
| RepoDriver.HolderCanMove | benchmarking/repo_driver.py:179-194 | the holder of the lock is never blocked |
| RepoDriver.BuilderAlone | benchmarking/repo_driver.py:179-194 | the builder by itself never releases a free lock, whatever builds fail and in every mode, and leaves the lock free between builds |
| RepoDriver.FailedBuildStealsLock | benchmarking/repo_driver.py:187-194 | otherwise a failing build can release the driver's lock and crash it with an item unfinished |
| RepoDriver.DisciplineIff | benchmarking/repo_driver.py:179-194 | the lock discipline holds in all runs if and only if the hosts are the same or no build fails |
| RepoDriver.ExclusionIff | benchmarking/repo_driver.py:390-401 | build and benchmark never overlap in any run if and only if `--same_host` is set |
| Sorting.SortedIsAscending | benchmarking/driver/benchmark_driver.py:332 | sorting gives an ascending rearrangement |
| Sorting.SortedForgetsOrder | benchmarking/driver/benchmark_driver.py:332 | the only one, whatever the order of the samples |
| Percentiles.PercentileInterpolates | benchmarking/driver/benchmark_driver.py:362-386 | the special cases at 50 and 100, the integer test and the weights all are linear interpolation between neighbours, and nothing but an empty list or a percentage outside 0 to 100 raises |
| Percentiles.MedianIsMiddle | benchmarking/driver/benchmark_driver.py:398-404 | the median is the interpolated middle |
| Percentiles.LerpBetween | benchmarking/driver/benchmark_driver.py:375-386 | an interpolated value lies between the neighbouring order statistics |
| Percentiles.QuantileGrows | benchmarking/driver/benchmark_driver.py:362-386 | percentiles grow with the percentage |
| Percentiles.QuantileEnds | benchmarking/driver/benchmark_driver.py:362-386 | p0 and p100 are the least and the greatest sample |
| Percentiles.QuantileReflects | benchmarking/driver/benchmark_driver.py:362-386 | the p-th percentile of the negated samples is minus the (100-p)-th of the samples |
| Decimals.DecimalIsRead | benchmarking/driver/benchmark_driver.py:219-223 | a number printed in decimal digits is read back |
| StatisticNames.PrintIsRead | benchmarking/driver/benchmark_driver.py:226-250 | the name printed for a percentage is read as that percentage, always if it is whole, else if its float spelling is read back |
| StatisticNames.NoPercentage | benchmarking/driver/benchmark_driver.py:226-235 | a whole number above 100 is no percentile's, nor is a name without the "p" |
| StatisticNames.MirrorTwice | benchmarking/driver/benchmark_driver.py:238-250 | the reflected name stands for 100 minus the percentage, and its reflection is the name again if and only if that is spelt as it would be printed |
| StatisticNames.Spellings | benchmarking/driver/benchmark_driver.py:226-250 | so "p50" comes back and "p05" does not |
| Statistics.ValueForgetsOrder | benchmarking/driver/benchmark_driver.py:323-359 | no statistic depends on the order of the samples |
| Statistics.MeanBetweenEnds | benchmarking/driver/benchmark_driver.py:389-390 | the mean lies between p0 and p100 |
| Statistics.GetStatistics | benchmarking/driver/benchmark_driver.py:323-359 | exactly the statistics asked for, and p50, each with its value, "p50" being appended to the list; an unknown name raises, no samples give nothing |
| Statistics.CreateDiffOfDelay | benchmarking/driver/benchmark_driver.py:238-257 | an entry for every treatment statistic whose mirror the control has, with their difference: for a percentile the one printed for 100 minus its percentage, for others the statistic itself |
| Statistics.AntisymmetricIffPlain | benchmarking/driver/benchmark_driver.py:238-257 | swapping treatment and control mirrors and negates an entry for all summaries if and only if its name is spelt as its percentage is printed, for all names of whole percentages and all others whose float spellings are read back |
| Statistics.DiffGrows | benchmarking/driver/benchmark_driver.py:238-257 | the percentiles of the diff grow with the percentage |
| Statistics.DiffBrackets | benchmarking/driver/benchmark_driver.py:238-257 | p0 and p100 of the diff are the least and the greatest difference of a treatment and a control sample |
| Spread.BetweenNeighbours | benchmarking/driver/benchmark_driver.py:374-386 | a percentile between two neighbouring sorted samples is on the line through them |
| Spread.SummaryPercentiles | benchmarking/driver/benchmark_driver.py:346-357 | every percentile of a summary is that of the samples |
| Spread.SummaryMean | benchmarking/driver/benchmark_driver.py:389-390 | the mean of a summary times the number of samples is their sum |
| Spread.SummaryMad | benchmarking/driver/benchmark_driver.py:341 | MAD is the median of the distances to p50: not negative, with at least half of the samples within it of p50 and at least half at least as far away |
| Spread.MedianDistanceScales | benchmarking/driver/benchmark_driver.py:341 | a constant added to the samples leaves MAD as it is, and a factor changes it by its absolute value |
| Spread.SummaryDeviation | benchmarking/driver/benchmark_driver.py:342-395 | with a square root that squares back, stdev is not negative and its square times n is the sum of the squares less n times that of the mean; cv times the mean is stdev, and has no value for a mean of zero |
| Regression.IndexedTestCounts | benchmarking/regression_detectors/delay_detector/delay_detector.py:46-51 | the index is in range, and the test on the sorted list holds if and only if the latest value exceeds at least n - ceil(n/10) + 1 of the n by more than the margin |
| Regression.ExceedsForgetsOrder | benchmarking/regression_detectors/delay_detector/delay_detector.py:46-51 | the verdict does not depend on the order of the history |
| Regression.ShortHistory | benchmarking/regression_detectors/delay_detector/delay_detector.py:46-51 | against up to ten values the latest must exceed all of them |
| Regression.MarginIsLargest | benchmarking/regression_detectors/delay_detector/delay_detector.py:47-51 | the margin is the largest tenth, rounded down, of a difference of two values of the history |
| Regression.DetectionP50VsP90 | benchmarking/regression_detectors/delay_detector/delay_detector.py:42-51 | fewer than five runs to compare with give no regression, else missing percentiles raise, and otherwise the verdict is that count |
| Regression.IsRegressed | benchmarking/regression_detectors/delay_detector/delay_detector.py:22-38 | the difference is compared only if the control stayed the same and every run has one |
| Regression.HasControlChange | benchmarking/regression_detectors/regression_detectors.py:87-90 | two runs with different control commits are noticed |
| Regression.ControlCommits | benchmarking/regression_detectors/regression_detectors.py:87-90 | the commits compared are the control commits, or the runs' own where they have none |
| Regression.DetectOneBenchmarkRegression | benchmarking/regression_detectors/regression_detectors.py:79-109 | every outcome: the bare list without meta.txt, nothing for fewer than two runs, else the types of exactly the files that regress, in file order, with the infos, if any do, from the oldest run on; it raises exactly for another metric or where a file of at least seven runs lacks a percentile that is looked up |
| Regression.ReportedIff | benchmarking/regression_detectors/regression_detectors.py:93-101 | a type is reported if and only if it is that of the latest run of some file of at least seven runs, both of whose latest p50s exceed all but fewer than a tenth of the p90s before by more than the margin |
| Regression.WithinTwelveCommits | benchmarking/repo_driver.py:229-230 | with at most twelve commits: if and only if the p50 and all p90s are there and the p50 exceeds each p90 by more than a tenth of any difference of two of them; those of the difference to the control if that stayed the same and all have one, else of the measurement |
| Arguments.GetPairedArguments | benchmarking/platforms/platform_base.py:210-233 | the index loop reads what the recursive reading reads |
| Arguments.DashedIff | benchmarking/platforms/platform_base.py:216 | an entry is dashed if and only if it is "--" and some text |
| Arguments.ParseConcat | benchmarking/platforms/platform_base.py:210-233 | a continuation that starts with a dashed entry is read as if it stood alone |
| Arguments.LastWins | benchmarking/platforms/platform_base.py:220-227 | a pair added at the end wins |
| Arguments.FlagIsTrue | benchmarking/platforms/platform_base.py:221-227 | a flag at the end or before another dashed entry is "true" |
| Arguments.EqualsGives | benchmarking/platforms/platform_base.py:217-219 | "--name=value" is that pair, and a further "=" raises |
| Arguments.BareEntry | benchmarking/platforms/platform_base.py:228-231 | where an entry is expected only "{program}" is skipped, and any other bare text raises |
| Arguments.DashedIsGiven | benchmarking/platforms/platform_base.py:217-224 | a value that starts with "--" is only ever read from an entry "--name=value" |
| Arguments.RoundTripIff | benchmarking/platforms/ios/ios_platform.py:190-193 | printing and parsing gives the dictionary back if and only if no name has a "=" and no value starts with "--" |
| Arguments.NormalForm | benchmarking/platforms/ios/ios_platform.py:190-193 | what an accepted command is read as is read back from its print, in any order, unless an entry has the form "--name=--value" |
| TestExpansion.CheckShapes | benchmarking/frameworks/caffe2/caffe2.py:109-144 | the nested loops accept if and only if all inputs have equally many shapes and the shapes of an input equally many dimensions |
| TestExpansion.ReplicateTest | benchmarking/frameworks/caffe2/caffe2.py:154-174 | one copy of the test for each shape; it raises if and only if an input has fewer shapes than the first |
| TestExpansion.TakeShapes | benchmarking/frameworks/caffe2/caffe2.py:170-173 | every input keeps just its i-th shape |
| TestExpansion.ReplicateTestsOnDims | benchmarking/frameworks/caffe2/caffe2.py:151-175 | all tests in order |
| TestExpansion.ReplicasInOrder | benchmarking/frameworks/caffe2/caffe2.py:151-175 | the replicas of a test come after those of the tests before it, without a gap |
| TestExpansion.ReplicasKeepShapes | benchmarking/frameworks/caffe2/caffe2.py:158-174 | a test that passed the checks never runs out, has one replica for each shape, and its replicas have each input's shapes in order |
| TestExpansion.OnlyCommandTestsRunOut | benchmarking/frameworks/caffe2/caffe2.py:102-103 | of the tests that pass verification only those exempted by a command run out |
| TestExpansion.CommandTestRunsOut | benchmarking/frameworks/caffe2/caffe2.py:102-103 | and one does |
| TestExpansion.DroppedIff | benchmarking/frameworks/caffe2/caffe2.py:158-168 | a test disappears if and only if its inputs are empty or the first has no shapes |
| TestExpansion.SplitTests | benchmarking/benchmarks/benchmarks.py:90-99 | one benchmark for each test, in order, equal in all else |
| TestExpansion.RewriteTestFields | benchmarking/benchmarks/benchmarks.py:302-315 | all three ways to give a command become a list; more than one of them raises |
| TestExpansion.UpdateNewTestFields | benchmarking/benchmarks/benchmarks.py:317-322 | the i-th test's identifier is its template with i for "{ID}" |
| TestExpansion.IdentifiersDiffer | benchmarking/benchmarks/benchmarks.py:317-322 | identifiers from one template differ if and only if it contains "{ID}" |
| TestExpansion.ExpandBenchmark | benchmarking/benchmarks/benchmarks.py:288-300 | a file becomes one benchmark for each replica, numbered over the whole file so that those from one template with "{ID}" have different identifiers, or raises exactly when shapes run out or a test gives its command twice |
| ImageScale.AssertsNeverFire | libraries/python/coco/generate_im_info.py:80-96 | for limits that are not negative no size assert fires, whatever the image |
| ImageScale.AssertsHoldIff | libraries/python/coco/generate_im_info.py:80-96 | the asserts hold for all images if and only if no limit is negative or both are equal |
| ImageScale.SecondScaleIsSmaller | libraries/python/coco/generate_im_info.py:108-116 | scaling the larger side to its limit leaves the smaller one at most at its own |
| ImageScale.InfoIs | libraries/python/coco/generate_im_info.py:73-97 | height and width are each scaled and rounded to the nearest number, halves to the even one, by the scale that gives the smaller side its limit, or by the one for the larger side if that would exceed its own |
| ImageScale.Run | libraries/python/coco/generate_im_info.py:68-99 | equal batches that give the scaled sizes in the order of the images; it raises exactly when there is nothing to batch, the last batch is not full, a side is zero or an assert fires |

## Left out

- CommandRewriting.GetReplacedCommand: requires that the loop ends; one that never ends has no
  result. What a command expands to is stated for closed ones, in which no concatenation of
  literal text forms a placeholder; others have the text of their passes.
- Placeholder names are taken to be ASCII: `\w` of the regular expression also accepts other letters and digits.
- `getString` is taken as on systems other than Windows, where it quotes; `str` of a value that
  is not a string is a parameter.
- Floating point: rounding errors, NaN and the 15-digit `round` of the diff.
- `float` of a text that is not just ASCII digits, `str` of a number that is not whole and the
  square root in the standard deviation are parameters, so that how a percentile such as
  100 - 99.9 is spelt is left open.
- JSON trees are values: merging and replacing in place, aliasing between a merged tree and its
  source, and what is left of a target when merging raises. String-map values are texts.
- `_composeStructuredData`, which repeats one number under several names, and the printed times
  of the power trace.
- `_mergeDelayData`, `_mergeDelayMeta` and `_processDelayData`, which move fields about.
- Time: timestamps, heartbeats, intervals, sleeps and the length of a cooldown; battery levels.
- The database's behaviour below one action, and the order of rows: the first queued row is the
  one with the lowest id. Labs share no claimer id and each works on one job queue.
- An increment or decrement of RUNNING_JOBS is one atomic step.
- Disconnects while a job runs: LabRuns has none, and the monitor treats the lab's entries as
  changed by others at will, but never marked as live by them.
- Labs whose devices share a hash: the monitor's invariant needs distinct ones at the start.
- Builds that raise, and benchmarks that raise, which with `--same_host` end the driver with the
  lock held, so that the builder waits for good.
- The repository, commits and pulling; a run that is not continuous, which begins to benchmark
  when the builder has ended.
- Field-presence checks of benchmark files, file download and MD5 sums, and trimming the
  surplus of collected data.
- The regression detector's directory scan, which calls `os.path.jon`, a name that does not
  exist (benchmarking/regression_detectors/regression_detectors.py:153), and the second,
  verifying benchmark runs.
- The XCTrace and `--args` forms of printing arguments, which join them with spaces.
- Images with sides of negative length.
- The server's views, tables and Device rows, reporters, uploads, argparse and all foreign
  tools (adb, idb, xcrun, Monsoon, Perfetto, USB hubs).
