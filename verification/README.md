# Please: the build protocol, its graph algorithms, its file transformations and its caches

Please builds targets of a dependency graph concurrently. This project models its logic in Dafny 4.11 and proves
what that logic promises. `dafny verify dfyconfig.toml` checks everything.

The model has five parts.

**The build protocol.** `BuildProtocol` is a state machine over all goroutines of a build: command-line tasks, the
groups of goroutines that build what a claimed target needs, build actions and test runs, two limiters, cancellation
with and without keep-going, and the progress counters. A step is one critical section. `BuildSafety` proves what
every step keeps and, for every run, that each label is claimed and each action started at most once, that an action
starts only when all it needs has been built, and that nothing is published as built without it. `BuildLimits` proves
the concurrency bounds, also in terms of the targets that are marked as local, and the progress counts.
`BuildLiveness` proves that a build that is stuck is waiting round a dependency cycle, which the cycle detector then
reports. `BuildTermination` bounds the length of every run, so on an acyclic graph every run can be carried on to the
end. `BuildOutcome` proves that with keep-going the outcome of every label is the least fixpoint of "its action
succeeds and all it asks for is buildable", whatever the schedule, and that in no run at all anything comes out as
built that is not in it.

**The maps below it.** `AwaitableMap` is the protocol of one shard with its wait channels, `ErrMap` the compute-once
map with its limiter, both over all interleavings; `ShardedMap` is the map object, proved to be one flat map.
`BuildOnce` ties the two layers together: every run of the build protocol is followed by a run of the compute-once
map.

**Graph algorithms.** `CycleDetector`, `InputIteration`, `GarbageCollector` and `Exporter` are depth-first searches
that mark a node before its successors are handled. `Reachability` gives them one specification, `Searched`, and ties
its end result to the least closed set and to paths. `BuildGraph` holds targets, require/provide and resolution,
`PackageMetadata` what the interpreter records about statements.

**Transformations of text.** `BuildLabels` prints and parses labels, `LabelForms` says what every form of a label
means. `Trimmer` writes a trimmed BUILD file and `TrimmerFidelity` proves what happens to its bytes. `TrimNewlines` is
the clean-up in place, `Simplify` the merging of subincludes.

**Caches.** `PathHasher` is the memo with one computation in flight per path, over all interleavings. `DirCache` is
the eviction with its unsigned 64-bit accounting, while other goroutines keep marking entries.

Some things the code or its comments suggest are not true. Each has a lemma with the input, and the exact condition:

- A printed label need not parse back to itself: `BuildLabels.SomeLabelsDoNotReadBack` has one. `BuildLabels.RoundTrip`
  says exactly which labels do.
- The short form of a label, as messages show it, need not be read back as that label where it is shown:
  `LabelForms.ShortFormsCanBeMisread` has two. `LabelForms.ShortRoundTrip` says exactly which are.
- Callers of a compute-once key can disagree: `ErrMap.PanicMakesCallersDisagree` has a run. They do exactly if one of
  them ran the function and it panicked (`ErrMap.CallersAgree`).
- A target that is kept can be listed for removal: `GarbageCollector.KeptTargetCanBeListed`; kept targets are spared
  for every choice of roots exactly if every gc_sibling is harmless (`GarbageCollector.KeptAreSparedIff`).
- Targets of one statement need not name each other: `PackageMetadata.RegisterTwice` gets there in three calls. A
  registration keeps them doing so exactly if it does not take the target away from others it was produced with
  (`PackageMetadata.SymmetricAfterRegistering`), and keeps the two maps inverse exactly if the target was not registered
  for another statement (`PackageMetadata.Tracked.RegisterTargetStatement`).
- A path can be hashed twice although no call asks for a recalculation: `PathHasher.PathCanBeHashedTwice`. Once the hash
  is remembered, a call can still come to hash the path exactly if it had passed the memo before
  (`PathHasher.HashedAgainIffPastMemo`).

## Model

| member | source | states |
|---|---|---|
| BuildSafety.StepKeepsInv | src/plz/plz.go:446-626 | every step of every goroutine keeps the invariant that ties requests, tasks and actions together |
| BuildSafety.RunExtends | src/plz/plz.go:482-626 | along a run claims, phases, published results and started actions are never taken back |
| BuildSafety.StartsAtMostOnce | src/plz/plz.go:576-626 | in every run each build action and each test call starts at most once |
| BuildSafety.ClaimedAtMostOnce | src/plz/plz.go:588-626 | in every run each label is claimed at most once, whether it is reached as a root, through `:all` or as a dependency |
| BuildSafety.OrderingSafety | src/plz/plz.go:469-585 | when an action starts, everything behind its build-time dependencies and labelled sources has been built and everything behind its run-time dependencies can be found; with a pre-build function it has been built too |
| BuildSafety.GroupsAreExact | src/plz/plz.go:482-545 | a target has a goroutine for each build-time dependency and labelled source, one for each run-time dependency, and none for anything else |
| BuildSafety.RunTimeDependenciesDoNotDelay | src/plz/plz.go:514-573 | without a pre-build function a task never waits for run-time dependencies before its action: once the build-time ones are there, the next step makes the action ready |
| BuildSafety.BuiltIsComplete | src/plz/plz.go:482-585 | a label is published as built only after its own action succeeded and everything behind all its dependencies was built |
| BuildSafety.GivenUpNeedNeverStarts | src/plz/plz.go:482-545 | if a goroutine that must come before a target's action ends without success, by failure or by cancellation, at any time, the action never starts in that run |
| BuildSafety.FailedNeedNeverStarts | src/plz/plz.go:482-545 | if anything a target needs ends in failure, at any time, the target's action never starts in that run; with a pre-build function that includes run-time dependencies |
| BuildLimits.StepKeepsSlots | src/plz/plz.go:576-585 | every step keeps the number of taken slots equal to the number of jobs that hold one, within capacity |
| BuildLimits.StepKeepsCounts | src/plz/plz.go:608-677 | every step keeps the total equal to claimed targets plus queued test runs, and the done count equal to returned targets plus test runs made |
| BuildLimits.BoundedConcurrency | src/plz/plz.go:704-709 | in every state of every run the local jobs and the remote jobs fit their limiters |
| BuildLimits.LocalTargetsShareTheLocalSlots | src/plz/plz.go:576-585 | in every state the jobs on targets marked as local, or all jobs if nothing is remote, fit the local slots, and the others the remote ones |
| BuildLimits.TestCallsAreRuns | src/plz/plz.go:638-677 | a test is called once if its runs are made one after the other, else once for each run, and only for test targets among the roots |
| BuildLimits.TestsAreCalledForEachRun | src/plz/plz.go:638-677 | once its target has been built, a test call can take a slot exactly if it is one of these, was not made before, and a slot of the target's kind is free |
| BuildLimits.WhenToGiveUp | src/plz/plz.go:349-359 | in every state a goroutine that waits for another, or a job that holds a slot but has not started, can give up exactly if the run was cancelled or, without keep-going, a build failed |
| BuildLimits.NoSlotHeldWhileWaiting | src/plz/plz.go:482-585 | while a target's action holds a slot, all its goroutines have come back, except those building run-time dependencies next to it |
| BuildLimits.NoTestSlotHeldWhileWaiting | src/plz/plz.go:638-677 | a test call holds a slot only after its target was built and the goroutine that asked for it is done |
| BuildLimits.DoneWithinTotal | src/plz/plz.go:914-933 | the number done never exceeds the total |
| BuildLimits.DoneEqualsTotal | src/plz/plz.go:608-677 | at the end of a run without errors or cancellation they are equal |
| BuildLiveness.StuckImpliesCycle | src/plz/plz.go:469-626 | a run in which no step is possible and something is unfinished has a cycle of unfinished targets in the resolved dependency graph |
| BuildLiveness.DiagnoseStall | src/plz/cycle_detector.go:88-120 | the check made on a stuck build returns a cycle |
| BuildLiveness.AcyclicBuildFinishes | src/plz/plz.go:469-626 | on an acyclic graph a build that cannot go on is finished |
| BuildTermination.StepAdvances | src/plz/plz.go:446-709 | every step makes progress by a measure on requests, tasks and jobs |
| BuildTermination.RunsAreBounded | src/plz/plz.go:446-709 | every run is at most as long as a bound computed from the graph and the roots |
| BuildTermination.RunCanBeFinished | src/plz/plz.go:446-709 | every run can be extended to one in which only cancelling is possible |
| BuildTermination.AcyclicBuildCompletes | src/plz/plz.go:446-709 | on an acyclic graph every run can be extended to one in which everything asked for has an outcome |
| BuildOutcome.BuiltIsBuildable | src/plz/plz.go:349-359 | in every run, with failures, cancellation and either setting of keep-going, a label is published as built only if it is in the least fixpoint given by the graph and the actions that succeed |
| BuildOutcome.OutcomeIsDetermined | src/plz/plz.go:349-359 | with keep-going and no cancellation a label is published as built exactly if it is in the least fixpoint given by the graph and the actions that succeed |
| BuildOutcome.RootOutcomeIsDetermined | src/plz/plz.go:349-359 | and a command-line target succeeds exactly if it is |
| BuildOutcome.BuildableIffCompletes | src/plz/plz.go:482-585 | that fixpoint, read off the graph, is the one read off the goroutines a task starts |
| BuildOutcome.NothingFailsWithoutCause | src/plz/plz.go:349-585 | whenever anything fails or is given up, the run was cancelled from outside, a build action failed, or something asked for does not exist |
| AwaitableMap.SetKeepsChannels | src/cmap/cmap.go:111-131 | setting a key keeps channels and cells matched, inserts exactly if overwriting or not populated, and touches no other key |
| AwaitableMap.PutsTellWhetherTheyInserted | src/cmap/cmap.go:111-131 | in every run populating a key reports success exactly if it may overwrite or nothing was there, and the key then holds the new value, else the old one |
| AwaitableMap.ClaimKeepsChannels | src/cmap/cmap.go:144-162 | claiming an absent key keeps channels and cells matched |
| AwaitableMap.ClosedMeansPopulated | src/cmap/cmap.go:111-162 | a channel is closed exactly if its key is populated |
| AwaitableMap.StepKeepsInv | src/cmap/cmap.go:111-162 | every step of the two-phase wait and of setting keeps the invariant |
| AwaitableMap.OneClaimantPerKey | src/cmap/cmap.go:144-162 | in every run at most one caller is told that it is the first |
| AwaitableMap.NeverClosedTwice | src/cmap/cmap.go:111-131 | no run closes a channel twice |
| AwaitableMap.WaitersWakeToAValue | src/cmap/cmap.go:134-162 | a waiter can go on exactly if its key is populated, and reads a value |
| AwaitableMap.KeysOnlyMoveForward | src/cmap/cmap.go:111-162 | between any two states of a run a key only moves from absent to pending to populated |
| ErrMap.StepKeepsInv | src/cmap/cerrmap.go:60-114 | every step of every caller keeps the invariant on keys, results and callers |
| ErrMap.ComputedAtMostOnce | src/cmap/cerrmap.go:60-114 | in every run the function of a key is run at most once |
| ErrMap.CallersAgree | src/cmap/cerrmap.go:60-114 | two uncancelled callers return the same pair exactly if the function did not panic or neither ran it |
| ErrMap.PanicMakesCallersDisagree | src/cmap/cerrmap.go:86-114 | for any two callers of a key, a run in which the first runs the function, it panics, and the first returns no error while the second returns one |
| ErrMap.UncancelledCallersGetTheResult | src/cmap/cerrmap.go:60-114 | without a panic every uncancelled caller returns what the function returned |
| ErrMap.CallersGetWhatWasComputed | src/cmap/cerrmap.go:86-114 | whatever the function returned when it was run, every uncancelled caller of the key returns, whoever ran it and whenever it came |
| ErrMap.CancelledCallersGetAnError | src/cmap/cerrmap.go:98-112 | in every run a caller that stopped waiting returns the zero value and the error of its context |
| ErrMap.LimiterStaysBalanced | src/cmap/cerrmap.go:73-114 | slots in use are the callers that have come, are not waiting and have not left, and never exceed the capacity |
| BuildOnce.SimulateStep | src/plz/plz.go:608-626 | every step of the build is a row of steps of the compute-once map that keeps labels and keys, goroutines and calls matched |
| BuildOnce.OneClaimant | src/plz/plz.go:608-626 | a label has one claimant, and its call is the one that runs the function |
| BuildOnce.BuildRunsAreMapRuns | src/plz/plz.go:608-626 | every run of the build is followed, state by state, by a run of the map: a label is published exactly when its key is populated, with its result, a goroutine goes on only past calls that returned no error, and one that ended without success stopped at the first call that returned one or had nothing to ask for |
| ShardedMap.MaskIsRemainder | src/cmap/cmap.go:34-49 | for a count that passes the power-of-two test, masking a hash is taking it modulo the count |
| ShardedMap.Shard.Set | src/cmap/cmap.go:111-131 | the object does what the protocol's set does, closing the waiters' channel |
| ShardedMap.Shard.Get | src/cmap/cmap.go:134-138 | a populated value, else the zero value |
| ShardedMap.Shard.GetOrWait | src/cmap/cmap.go:144-162 | the object claims an absent key and hands out its channel otherwise |
| ShardedMap.Shard.Range | src/cmap/cmap.go:186-194 | lists each populated key once and no pending key |
| ShardedMap.Map.constructor | src/cmap/cmap.go:34-49 | a power of two of empty, separate shards that every hash falls into |
| ShardedMap.Map.Put | src/cmap/cmap.go:52-60 | adding and setting act on one flat map; a key stays in the shard its hash selects |
| ShardedMap.Map.Add | src/cmap/cmap.go:52-54 | inserts exactly if the key is not populated |
| ShardedMap.Map.Set | src/cmap/cmap.go:58-60 | overwrites the key in the flat map |
| ShardedMap.Map.Get | src/cmap/cmap.go:63-65 | looks the key up in the flat map; pending and absent keys read as zero |
| ShardedMap.Map.Contains | src/cmap/cmap.go:67-69 | says whether the flat map has the key, populated or pending |
| ShardedMap.Map.GetOrWait | src/cmap/cmap.go:74-76 | claims a key of the flat map exactly if it is absent |
| ShardedMap.Map.Range | src/cmap/cmap.go:90-94 | lists each populated key of the flat map once, with its value, and no pending key |
| ShardedMap.Map.Values | src/cmap/cmap.go:80-86 | lists one value for each populated key of the flat map |
| CycleDetector.Detector.Visit | src/plz/cycle_detector.go:34-55 | visiting a target completes it and all below it, or returns a cycle or a path back to the stack |
| CycleDetector.Detector.Check | src/plz/cycle_detector.go:23-71 | returns nothing exactly if the resolved graph is acyclic, else a cycle without repeats |
| Reachability.LeastClosedIsReachable | src/gc/gc.go:163-181 | the least set closed under successors is the set of nodes that paths lead to |
| Reachability.SearchedIsLeast | src/export/export.go:179-198 | a search that marks nodes before handling their successors ends with the least closed set |
| BuildGraph.ProvideForMember | src/core/build_target.go:1289-1332 | a label stands behind a dependency exactly if it is provided for a requirement, or is the dependency itself where nothing is provided or it is used directly |
| BuildGraph.ResolvedMember | src/core/build_target.go:582-607 | a label is resolved exactly if it is in the graph and stands behind a declared dependency that is, and unresolved exactly if it is declared or stands behind one without being in the graph |
| BuildGraph.CollectProvided | src/core/build_target.go:1289-1332 | the loop over the requirements collects those labels in order |
| BuildGraph.Dependencies | src/core/build_target.go:582-607 | returns exactly the labels behind the declared dependencies that are in the graph, and apart from them exactly those that are not |
| BuildGraph.DeclaredDependencies | src/core/build_target.go:549-559 | the labels of all declared dependencies |
| BuildGraph.BuildTarget.DependencyInfo | src/core/build_target.go:1169-1176 | finds the declared dependency, if there is one |
| BuildGraph.BuildTarget.AddMaybeExportedDependency | src/core/build_target.go:1760-1786 | each label stays declared once; flags merge: exported if ever, source, internal and run-time only if always, no longer only data |
| BuildGraph.FlagsOfMergedAll | src/core/build_target.go:1760-1786 | after any list of declarations a dependency is exported exactly if some declaration of it was, and source, internal or run-time exactly if all were |
| BuildGraph.BuildTarget.AddSource | src/core/build_target.go:1357-1368 | adds a source once and keeps every labelled input declared |
| BuildGraph.BuildTarget.AddTool | src/core/build_target.go:1404-1409 | adds a tool as an ordinary dependency |
| BuildGraph.BuildTarget.AddDatum | src/core/build_target.go:1455-1461 | adds a data item, whose dependency is then marked as data |
| BuildGraph.MergedTwice | src/core/build_target.go:1770-1785 | declaring a label twice is declaring it once with the merged flags |
| BuildGraph.MergeOrderDoesNotMatter | src/core/build_target.go:1770-1785 | declarations of a label that are not data commute |
| InputIteration.RecursivelyProvideFor | src/core/utils.go:287-317 | yields exactly the labels at the end of repeated require/provide steps |
| InputIteration.BehindsRule | src/core/utils.go:287-317 | what is finally behind a dependency: what it provides for the dependent, or else for the top-level target; a label that provides itself is final |
| InputIteration.BuildSuccessors | src/core/utils.go:202-285 | non-tool build-time dependencies, resolved |
| InputIteration.ExportedSuccessors | src/core/utils.go:202-285 | exported dependencies, resolved |
| InputIteration.InputWalk.Inner | src/core/utils.go:202-285 | expands a label and what it leads to, each label once, also on cyclic graphs |
| InputIteration.InputWalk.IterInputs | src/core/utils.go:202-285 | expands exactly the least set closed under the rule, without repeats, the target first |
| InputIteration.InputRule | src/core/utils.go:202-285 | which declared dependencies the walk follows: build-time ones that are no tools for the target itself, and for targets whose output is not complete if transitive dependencies are needed; for others the exported ones |
| GarbageCollector.Collector.AddTarget | src/gc/gc.go:163-181 | keeps a target and all it needs, and nothing else |
| GarbageCollector.TargetsToRemove | src/gc/gc.go:73-148 | keeps exactly what the roots reach; lists a target exactly if its sibling is public, included by the filter and not kept; lists exactly the local sources of listed targets that no kept target has |
| GarbageCollector.NeedsRule | src/gc/gc.go:163-181 | keeping a target keeps what it declares and what stands behind that, if it is in the graph, and the target that fetches its subrepo |
| GarbageCollector.ListedRule | src/gc/gc.go:131-142 | a target is listed exactly if the one whose fate it shares is not generated by another, not kept and covered by the filter, if there is one |
| GarbageCollector.SiblingIsFirstExisting | src/gc/gc.go:274-282 | that is the first target named by a gc_sibling label that exists in the package, else the target itself |
| GarbageCollector.KeptAreSparedIff | src/gc/gc.go:131-142 | no kept target is listed, for any roots, exactly if each target's sibling is needed by it, private or filtered out |
| GarbageCollector.NoSiblingIsHarmless | src/gc/gc.go:274-282 | a target without an existing gc_sibling meets that condition |
| GarbageCollector.KeptTargetCanBeListed | src/gc/gc.go:131-142 | a kept target that is listed because of its gc_sibling |
| PackageMetadata.MergeIsUnion | src/core/package_metadata.go:170-179 | merging two lists is their union, keeps the first as a prefix and adds no repeats |
| PackageMetadata.MergeSlices | src/core/package_metadata.go:170-179 | the loop computes that merge |
| PackageMetadata.Tracked.RegisterStatement | src/core/package_metadata.go:143-168 | adds requirements to a statement and keeps the two maps inverse |
| PackageMetadata.Tracked.RegisterTargetStatement | src/core/package_metadata.go:181-195 | adds a target; the maps stay inverse exactly if the target was not registered for another statement |
| PackageMetadata.Tracked.RegisterSubincludeStatement | src/core/package_metadata.go:197-208 | marks a statement as a subinclude and keeps the maps inverse |
| PackageMetadata.Tracked.FindRelatedTargets | src/core/package_metadata.go:263-280 | the other targets of the statement that produced a target |
| PackageMetadata.RelatedTargets | src/core/package_metadata.go:263-280 | the loop behind it |
| PackageMetadata.Tracked.FindPackageLevelRequirements | src/core/package_metadata.go:283-313 | the subincludes and the files of statements that neither produce targets nor are subincludes |
| PackageMetadata.PackageLevelRequirements | src/core/package_metadata.go:283-313 | the loop behind it |
| PackageMetadata.SymmetricAfterRegistering | src/core/package_metadata.go:181-195 | from inverse maps, after registering a target the targets of each statement name each other exactly if the target was not taken from a statement that has others |
| PackageMetadata.RegisterTwice | src/core/package_metadata.go:181-195 | three registrations after which a target names another that does not name it |
| Exporter.TransitiveSubincludes | src/core/graph.go:187-207 | exactly the labels that chains of subincludes lead to, the start included |
| Exporter.SubincludeGraph.RegisterTransitiveSubinclude | src/core/graph.go:209-219 | afterwards exactly those labels lead to others that did before, or that lead to the first label while the second leads on |
| Reachability.EdgeAddsReach | src/core/graph.go:209-219 | a new edge adds exactly the paths through it |
| Exporter.TrimmedExporter.SetPackageSubincludes | src/export/trimmed_exporter.go:142-157 | the package keeps these subincludes too, except for preloaded ones |
| Exporter.TrimmedExporter.ExportTargets | src/export/export.go:179-192 | exports all of a list and what they require, and nothing else |
| Exporter.TrimmedExporter.ExportTarget | src/export/trimmed_exporter.go:55-89 | marks a target, counts it, and exports all it requires |
| Exporter.TrimmedExporter.ExportExternal | src/export/trimmed_exporter.go:64-70 | for a target of an external subrepo, the target that fetches it and its dependencies |
| Exporter.TrimmedExporter.ExportPackagePart | src/export/trimmed_exporter.go:80-88 | subincludes, related targets and, on the first visit, the package's own requirements |
| Exporter.TrimmedExporter.ExportSubincludes | src/export/trimmed_exporter.go:106-129 | records the subincludes a target's statement uses and exports all they lead to |
| Exporter.TrimmedExporter.ExportPackageRequirements | src/export/trimmed_exporter.go:131-138 | records and exports what the package needs outside of its targets |
| Exporter.TrimmedExporter.ExportPreloaded | src/export/trimmed_exporter.go:45-51 | preloaded subincludes are all that the configured ones lead to, and are exported |
| Exporter.TrimmedExporter.Run | src/export/export.go:104-113 | exports exactly the least set closed under what targets require, above the preloads and the requested targets, and counts it |
| Exporter.ExportIsSelfContained | src/export/trimmed_exporter.go:55-129 | an exported target's dependencies and subincludes are exported, its package was visited and keeps each subinclude it uses that is not preloaded |
| Exporter.RequiresRule | src/export/trimmed_exporter.go:55-169 | why exporting a target exports another: a dependency, the target that fetches its subrepo, a subinclude of its statement or what that leads to, another target of the statement, or a subinclude of the package |
| Exporter.ExportedForAReason | src/export/trimmed_exporter.go:55-169 | the export is closed under these reasons, and everything in it is preloaded, asked for or there for such a reason |
| Exporter.KeptSubincludesAreExact | src/export/trimmed_exporter.go:106-157 | preloaded ones aside, a visited package keeps exactly the subincludes used by its exported targets or by itself |
| Exporter.StatementsAreExportedWhole | src/export/trimmed_exporter.go:159-169 | with inverse maps, of two targets of one statement both are exported or neither |
| Trimmer.Trimmer.Copy | src/export/trimmer.go:216-221 | appends a range of the original, or nothing if it is not a range of it |
| Trimmer.Trimmer.WalkFile | src/export/trimmer.go:32-52 | writes the statements of a block with what lies between them |
| Trimmer.Trimmer.TrimBlock | src/export/trimmer.go:55-87 | and a `pass` if nothing was written for any statement |
| Trimmer.Trimmer.TrimStatement | src/export/trimmer.go:57-82 | keeps, trims or drops one statement and says whether something was written |
| Trimmer.Trimmer.TrimIf | src/export/trimmer.go:92-141 | keeps every header, with the trimmed block if it was interpreted |
| Trimmer.Trimmer.TrimFor | src/export/trimmer.go:143-153 | keeps the header with the trimmed block; nothing for an empty one |
| Trimmer.Trimmer.KeepOnlyGaps | src/export/trimmer.go:164-174 | one `pass` instead of the statements of a block |
| Trimmer.Trimmer.TrimSubinclude | src/export/trimmer.go:155-214 | the call as it is if all its labels are required, else a call with those that are |
| Trimmer.Trimmer.TrimPackage | src/export/trimmed_exporter.go:206-215 | the file as a whole |
| TrimmerFidelity.NoByteIsCopiedTwice | src/export/trimmer.go:32-174 | for well-nested positions, of any two copied ranges the first ends before the second starts, and all lie in the file |
| TrimmerFidelity.UntouchedFileIsReproduced | src/export/trimmer.go:32-225 | for well-nested positions, the output covers the file from end to end with nothing inserted exactly if it has a statement and nothing is to be trimmed; then it equals the file |
| TrimmerFidelity.ProducersAreKeptWhole | src/export/trimmer.go:69-74 | of a visited plain statement every byte is copied if it produced no target or one that is exported, else none |
| TrimmerFidelity.ExactlyTheKeptBytesAreCopied | src/export/trimmer.go:32-174 | for well-nested positions, a byte is in the output exactly if it belongs to something that is to be kept: a gap, a header, a wanted statement or a subinclude all of whose labels are required |
| TrimmerFidelity.TrimmedSubincludes | src/export/trimmer.go:155-214 | in place of a visited subinclude stands the call as it was if all its labels are required, nothing if none is, and else one with exactly the required labels among those it may use, in order |
| TrimmerFidelity.EmptiedBlocksGetPass | src/export/trimmer.go:55-87 | a block gets a `pass` exactly if all its statements are dropped |
| TrimmerFidelity.PassedBlocksGetOnePass | src/export/trimmer.go:164-174 | in place of the statements of a branch that was not interpreted there is exactly one `pass` |
| TrimNewlines.Compact | src/export/trimmed_exporter.go:219-240 | compacting in place leaves the bytes without the third and further newlines of each run, and a newline at the end |
| TrimNewlines.CollapsedHasNoBlankRuns | src/export/trimmed_exporter.go:218-233 | no three newlines in a row are left |
| TrimNewlines.UnchangedIffNoBlankRuns | src/export/trimmed_exporter.go:218-233 | bytes stay as they are exactly if they have no three newlines in a row |
| TrimNewlines.CollapsingTwiceIsOnce | src/export/trimmed_exporter.go:218-233 | a second pass changes nothing |
| TrimNewlines.OnlyNewlinesGo | src/export/trimmed_exporter.go:218-233 | all other bytes stay, in order |
| BuildLabels.RoundTrip | src/core/build_label.go:46-236 | parsing a printed label gives the label exactly if its names are valid and its subrepo has no `:`, no `//` and no slash at the end, specials excluded |
| BuildLabels.SomeLabelsDoNotReadBack | src/core/build_label.go:46-236 | a label whose subrepo contains `//` prints as something that does not parse back to it |
| BuildLabels.HostRoundTrip | src/core/build_label.go:155-236 | read inside a subrepo, a printed host label becomes one of that subrepo, except for `...` forms |
| BuildLabels.SubrepoLabelsAreAbsolute | src/core/build_label.go:220-236 | a printed subrepo label means the same wherever it is read |
| BuildLabels.PrintIsInjective | src/core/build_label.go:46-64 | two printable labels that print alike are the same |
| LabelForms.RelativeForm | src/core/build_label.go:155-218 | `:name` is the target of that name in the package it is written in, if the name is valid, and nothing else |
| LabelForms.AbbreviatedForm | src/core/build_label.go:155-218 | `//path` is the target named like the last component of the path |
| LabelForms.AtIsTripleSlash | src/core/build_label.go:155-236 | `@` and `///` mean the same, whatever follows |
| LabelForms.SubrepoForm | src/core/build_label.go:220-236 | a subrepo followed by an absolute label is that label in the subrepo |
| LabelForms.SubrepoRelativeForm | src/core/build_label.go:220-236 | a subrepo followed by a relative label is a target of the same package in the subrepo |
| LabelForms.BareSubrepoForm | src/core/build_label.go:220-236 | a subrepo alone is the target at its root that is named like its last component |
| LabelForms.ColonInSubrepoIsRefused | src/core/build_label.go:220-236 | a colon in the subrepo is refused |
| LabelForms.OtherFormsAreRefused | src/core/build_label.go:155-218 | a string that starts with neither `//`, `:` nor `@` is refused |
| LabelForms.ValidPackages | src/core/build_label.go:124-127 | a package name is valid exactly if it is empty, or has no empty component and no reserved character |
| LabelForms.ValidTargets | src/core/build_label.go:129-133 | a target name is valid exactly if it is one component without reserved characters and suffixes, and starts with a dot only if it is `...` |
| LabelForms.ShortRoundTrip | src/core/build_label.go:72-83 | the short form of a printable label, parsed where it is shown, is the label exactly if a condition on both labels holds |
| LabelForms.ShortFormsCanBeMisread | src/core/build_label.go:72-83 | two labels whose short forms are read as other labels |
| LabelForms.IncludesIsCovering | src/core/build_label.go:296-310 | a label covers another exactly if it is a wildcard whose package is a prefix by components, `all` of the same package, or the same target |
| LabelForms.ParentsAreUltimate | src/core/build_label.go:410-427 | exactly the targets named `_parent#tag` have a parent, which has none itself |
| PathHasher.StepKeepsInv | src/fs/hash.go:82-162 | every step of every call keeps calls, wait entries and pending records matched |
| PathHasher.OneComputationPerPath | src/fs/hash.go:105-117 | in no state of any run are two calls hashing the same path |
| PathHasher.ChannelsCloseOnceWithResult | src/fs/hash.go:111-123 | a pending channel is closed at most once, with its result set |
| PathHasher.FollowersGetTheLeadersResult | src/fs/hash.go:105-124 | every call that shared a channel returns what its leader returns |
| PathHasher.WaitersAreServed | src/fs/hash.go:105-123 | while a call waits, it or its leader can take a step |
| PathHasher.HashesAreDirect | src/fs/hash.go:82-162 | with unchanged files, and copies only between equal contents, every remembered and every returned hash is the path's own |
| PathHasher.SettledPathIsNotHashedAgain | src/fs/hash.go:82-98 | once a path's hash is remembered, a call that has not looked yet never hashes it |
| PathHasher.HashedAgainIffPastMemo | src/fs/hash.go:82-124 | once a path's hash is remembered, a call for it can still come to hash it, in some continuation that keeps the hash remembered, exactly if it has passed the memo or wants a recalculation |
| PathHasher.HashedOnceIsEnough | src/fs/hash.go:82-124 | after a call has computed a hash and committed it, a call that begins later returns a hash without computing, as long as nobody asks for a recalculation and nothing makes the hasher forget |
| PathHasher.ComputedHashIsRemembered | src/fs/hash.go:105-124 | committing remembers the hash that was computed |
| PathHasher.HashersReturnWhatTheyComputed | src/fs/hash.go:105-124 | a call that computes returns what it computed |
| PathHasher.CopiedHashIsRemembered | src/fs/hash.go:126-162 | moving or copying remembers the hash for the new path, forgets the old one exactly if it is moved out of the temporary directory, and touches no other; a hash that is set is remembered |
| PathHasher.UnknownCopyIsHashed | src/fs/hash.go:126-162 | a copy of a path without a known hash is hashed afresh |
| PathHasher.PathCanBeHashedTwice | src/fs/hash.go:75-117 | two calls that both looked before can hash the same path one after the other |
| DirCache.MarkDirProtects | src/cache/dir_cache.go:340-346 | a clean that starts with the marks MarkDir leaves never removes the entry's temporary name, nor the entry itself unless it is the temporary name of another |
| DirCache.Cache.ScanDir | src/cache/dir_cache.go:407-443 | sums marked and found sizes modulo 2^64 and lists the unmarked entries, up to the first whose size is unknown |
| DirCache.EntriesAreKnownByTheirNames | src/cache/dir_cache.go:491-505 | an entry is a file if the cache compresses, else a directory, whose name is a padded hash of 28 or 44 characters, at most one more character and the suffix |
| DirCache.ScannedExactly | src/cache/dir_cache.go:407-443 | the walk counts exactly the entries marked when it reaches them, with the size they were marked with, and lists exactly the others |
| DirCache.MarksAreTheLatest | src/cache/dir_cache.go:340-354 | a path counts as marked exactly if it was before or has been marked since |
| DirCache.Cache.CleanPath | src/cache/dir_cache.go:473-489 | the entry is renamed, then removed; a failure leaves it, or leaves it renamed |
| DirCache.Cache.Evict | src/cache/dir_cache.go:455-471 | considers entries in order, spares those marked by then, and stops once the total is below the low-water mark |
| DirCache.Cache.Clean | src/cache/dir_cache.go:407-471 | below the high-water mark nothing changes; else, if the sizes fit in 64 bits, the result is the marked sizes plus those of the entries left, and is below the low-water mark unless every entry was considered |
| DirCache.TotalIsWhatIsLeft | src/cache/dir_cache.go:455-471 | the running total never wraps around if the first one did not |
| DirCache.MarkedEntriesAreNotRemoved | src/cache/dir_cache.go:455-465 | whatever disappears belongs to an entry that was not marked when its turn came |
| DirCache.DiskIsDecidedByLastTouch | src/cache/dir_cache.go:455-489 | what is on disk is decided by the last removal that touched a path; what none touched is as it was |
| DirCache.EntriesMarkedBeforeStay | src/cache/dir_cache.go:455-489 | an entry marked before the clean disappears exactly if its path is the temporary name of an entry that was removed, with nothing left there since |
| DirCache.GoneEntriesLeaveTheDisk | src/cache/dir_cache.go:473-489 | an entry that was taken off the total is there again exactly if its path is the temporary name of an entry whose later removal failed half-way |
| Simplify.File.Simplify | src/format/fmt.go:90-101 | the backward loop with deletion stays in range and joins each subinclude with the one behind it |
| Simplify.SimplifyKeepsMeaning | src/format/fmt.go:90-101 | the sequence of subincluded labels and other statements is unchanged |
| Simplify.SubincludesNameTheirLabels | src/format/fmt.go:103-116 | only calls of subinclude whose arguments are all literal labels are joined |
| Simplify.OnlySubincludesChange | src/format/fmt.go:90-101 | every other statement stays, and what replaces subincludes is such a call in compact form |
| Simplify.SimplifyJoinsAll | src/format/fmt.go:90-101 | no two adjacent subincludes are left |
| Simplify.UnchangedIffNothingToJoin | src/format/fmt.go:90-116 | a file stays as it is exactly if it has no two adjacent subincludes |
| Simplify.SimplifyTwiceIsOnce | src/format/fmt.go:90-101 | a second pass changes nothing |

## Left out

- The asp interpreter and parsing: the graph, the statement positions and what each statement required are given.
- Parsing on demand, preloads and subrepos inside the runner (`parse`, `repoFor`, `ensurePreloads`, `ensureSubrepo`): they re-enter the interpreter.
- Pre- and post-build functions that change the graph during a build: targets are static, though a pre-build function still delays the action as it does in the source.
- Panics of a build action inside the build protocol and in `BuildOnce`; they are part of `ErrMap`.
- The tree of errgroup contexts: without keep-going, any goroutine may see a cancellation once anything failed, which allows at least the source's runs.
- BuildLiveness.StuckImpliesCycle: a state counts as stuck if nothing but cancelling is possible; at least one slot per limiter and no target named `all`, which the parser refuses.
- BuildLiveness.DiagnoseStall: the timer, and the watch on active targets, that decide when a build is checked; the check is made on a stuck build.
- BuildTermination.RunCanBeFinished: says that a run can be carried on to the end, not that a scheduler does so.
- ShardedMap.Map.Range: one call at a time; what concurrent writers do to a listing has no promise in the source.
- InputIteration.InputWalk.IterInputs: gives the labels expanded; the sources, tools and run-time inputs yielded for each, and a consumer that stops early, are not modelled.
- GarbageCollector.TargetsToRemove: the roots are given; choosing them, keeping tests on kept targets and sorting the lists are not modelled, and the targets named by gc_sibling labels are taken to be valid names.
- `IterInputPaths`, `IterAllRuntimeDependencies`, `DependentTargets` and `publicDependencies`: further searches of the same kind.
- PackageMetadata.Tracked.FindPackageLevelRequirements: the order of the labels and files, which the source sorts.
- PackageMetadata.PackageLevelRequirements: the same.
- Exporter.TrimmedExporter.ExportPackageRequirements: copying the files.
- Exporter.TrimmedExporter.Run: copying of source files and configuration; a label that is not in the graph is passed over, as in the source, and a tracked target that was never registered, on which the source gives up, is excluded.
- Trimmer.Trimmer.TrimSubinclude: how a shortened call is printed is a parameter; a fully required subinclude at a position outside the file, on which the source panics, writes nothing.
- Trimmer.Trimmer.TrimBlock: whether the file still parses where a `pass` is inserted.
- TrimNewlines.Compact: trimming the surrounding white space comes before.
- Extended attributes, the timestamp flag and real files in the hasher: a computation returns a given result, and the two assignments that fill a pending record are one step.
- DirCache.Cache.Clean: the walk's visits are given in order; the order of eviction is any permutation, because the source's comparison is not transitive.
- The temporary name in a compressed directory cache, which the marks do not cover.
- HTTP, command and remote caches, tar files, file locks, subprocesses, sandboxing, command line, configuration, logging and display.
