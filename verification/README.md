# Moth compiler: verified cores

Moth's compiler is written in Rust. This project restates the parts of it that carry the hardest promises as
a Dafny model and proves those promises for every input, every run or every reachable state.

| file | what it models |
|---|---|
| `Collections.dfy`, `Graphs.dfy`, `Ordering.dfy` | options, lookups and listings; finite directed graphs and reachability; byte texts and the key order of ordered maps |
| `BackendTypeFacts.dfy` | the memoised, cycle-tolerant type walk that backend validation asks its questions of |
| `OccurrenceScan.dfy` | the reachable-code scan that reports the first unsupported type occurrence |
| `DependencyEdges.dfy`, `DependencySort.dfy`, `ModuleDependencies.dfy`, `DependencyOrder.dfy` | Stage 3 declaration ordering: edge resolution, the three-state depth-first sort, the whole pass, and why its order is unique |
| `CallSummary.dfy` | call-summary validation and the widening order that makes convergence finite |
| `AllocatorProbe.dfy`, `AllocatorPeak.dfy`, `AllocatorRuns.dfy` | the lock-free live/peak byte counters, as a state machine over any number of threads; what the peak amounts to; whole runs |
| `LinkFacts.dfy`, `LinkWalk.dfy`, `LinkOrder.dfy`, `ProjectReachability.dfy` | link planning: the function/block walk of one module, the order it visits in, and the cross-module work list |
| `GeneratedNames.dfy` | owner maps per boundary and the generated symbol names |
| `BuildConfig*.dfy`, `Fingerprint.dfy` | build-config contracts: both resolvers, exactly when they succeed, their equivalence, typing, order independence, fingerprints |
| `PackagePaths.dfy` | package-path validation, overlap and unique ownership |
| `SpanCodec.dfy` | the packed span prototype and the loop that measures it |

`dafny verify dfyconfig.toml` verifies every file.

How the model reads the source:

- Objects whose methods update fields (`DependencyTracker`, the sorter, `BackendTypeFacts`, `TypeOccurrenceSearch`,
  `SourcePackageRegistry`, the extended-span table) are classes. Loops over slices and maps are methods proved equal
  to, or against, specification functions; the theorems are about those functions.
- The allocator is a transition system in which every step performs at most one atomic access, and a weak
  compare-exchange may fail at any time. `Enabled` says that frees match allocations; nothing else is assumed of a
  run.
- Build-config names and texts are UTF-8 byte sequences, so ordered-map iteration is byte-lexicographic order. A
  deferred numeric literal carries its value at every scalar it fits (`bitsAt`), which is what the numeric text
  parser supplies. Resolution is proved for any fingerprint function; `Fingerprint.dfy` proves the one in use, with
  64-bit arithmetic as integers modulo 2^64 and exclusive-or defined bit by bit.
- What succeeds or occurs is stated on the data itself: a type definition's mentions, a statement's fields, the path
  tables, the raw build-config facts. The functions that the code and its specifications share are proved against
  those statements (`OperandsAreHeld`, `Classify`, `ResolvesIffConsistent`, `WalkIsBreadthFirst`).
- Interned paths are handles; the interner's parent and component tables are part of the `Context`. Registered
  package prefixes never nest (`PackagePaths.UniqueOwner`), so at most one prefix can match a path and the model
  need not choose between matches. Each header's edges are computed before the sort instead of on first visit; they
  depend only on the immutable graph.
- The module work list is written once for both of its uses: entry assembly (`facade == false`) and facade
  validation (`facade == true`, which also rejects project-context functions).

Where a promise turned out to be conditional, the condition is proved:

- The incremental resolver keeps the direct provider of a name that a fixed project field also claims and that the
  transient unit newly declares, where the full resolver lets the fixed field win. `IncrementalMatchesFull` proves
  that the two agree exactly when no name is claimed that way (they always fail together, with the same first
  error); `DoubleClaimDiffers` is a concrete instance. The "only if" half uses that providers attached while config
  is folded never carry the fixed-field origin, which only boundary resolution assigns (build_config.rs line 1946).
- Matched frees alone do not keep LIVE_BYTES exact: a block freed but not yet subtracted is still counted while its
  memory is handed out again, and `LateSubtractionClamps` runs that into the saturating add. `LiveIsExact` proves
  that the counter is exact throughout a run exactly when the booked total never exceeds `usize::MAX`, and
  `FittingRunInRange` gives a bound on held and released bytes that is enough.
- A reset that races with other calls can lose the peak (`RacingResetLosesPeak`). `PeakIsRecorded` says what the peak
  is at every quiescent point of every run, `PeakIsExactIff` when that is the maximum since the last reset, and
  `PeakIsExact` derives the case of quiescent resets.
- The parameter bound on convergence, m + n + 2, is not only an upper bound: `BoundIsReached` gives a run that meets
  it for every declaration.

## Model

| member | source | states |
|---|---|---|
| `BackendTypes.BackendTypeFacts.Visit` | src/backends/backend_feature_validation.rs:1959-1979 | terminates on cyclic graphs; its answer is reachability that avoids the types being visited; a closed answer is memoised, the memo stays closed under mentions and exact |
| `BackendTypes.BackendTypeFacts.Walk` | src/backends/backend_feature_validation.rs:1981-2049 | own facts and the answers of every type the definition mentions (a record field of some variant, an argument, a parameter, return or error return, a base; nothing for the Error struct) together give reachability avoiding the outer active types; without an open cycle everything mentioned is memoised |
| `BackendTypes.BackendTypeFacts.VisitAll` | src/backends/backend_feature_validation.rs:1994-2042 | merging the visits of a list of types reports exactly what one of them sees |
| `BackendTypes.BackendTypeFacts.Query` | src/backends/backend_feature_validation.rs:1946-1956 | after any earlier queries, true iff a chain of mentions leads from the type to one with that own fact |
| `BackendTypes.BackendTypeFacts.IsUnsupportedFixedScalarShape` | src/backends/backend_feature_validation.rs:1938-1944 | true iff the type is not itself a fixed scalar and a chain of mentions leads to one |
| `BackendTypes.LastVisit` | src/backends/backend_feature_validation.rs:1959-2049 | a chain can be cut at its last visit to the current type, so something it mentions sees the same fact with that type hidden |
| `BackendTypes.SeesUnfold` | src/backends/backend_feature_validation.rs:1981-2049 | avoiding reachability from a type is its own fact or that of something it mentions with the type also hidden |
| `BackendTypes.ClosedSetSeesAll` | src/backends/backend_feature_validation.rs:1959-1979 | inside a set closed under mentions that meets no hidden type, hiding changes nothing: memo hits are exact in any context |
| `BackendTypes.SeesNothingHiddenIsContains` | src/backends/backend_feature_validation.rs:1946-1956 | with nothing hidden the provisional notion is plain reachability |
| `OccurrenceScan.TypeOccurrenceSearch.Record` | src/backends/backend_feature_validation.rs:1484-1495 | counts every hit, returns authored ones, keeps the first spanless one |
| `OccurrenceScan.TypeOccurrenceSearch.Check` | src/backends/backend_feature_validation.rs:1472-1482 | records exactly when the gate's type predicate (plain reachability) holds |
| `OccurrenceScan.ForestHead` | src/backends/backend_feature_validation.rs:1877-1908 | popping one expression and pushing its children keeps the rest of the pre-order scan, and shrinks it |
| `OccurrenceScan.FrontierPush` | src/backends/backend_feature_validation.rs:1877-1908 | reversed children on the work list come back in source order |
| `OccurrenceScan.TypeOccurrenceSearch.ScanExpression` | src/backends/backend_feature_validation.rs:1877-1908 | the work-list loop equals the recursive source-order pre-order scan of the tree |
| `OccurrenceScan.TypeOccurrenceSearch.ScanResultLocal` | src/backends/backend_feature_validation.rs:1763-1779 | the produced local is looked up only once a spanless hit exists |
| `OccurrenceScan.TypeOccurrenceSearch.ScanStatement` | src/backends/backend_feature_validation.rs:1627-1761 | field by field per statement kind: result locals, then operands, then anchoring a spanless hit to the statement |
| `OccurrenceScan.TypeOccurrenceSearch.ScanTerminator` | src/backends/backend_feature_validation.rs:1781-1857 | every terminator operand, match pattern and guard, in source order |
| `OccurrenceScan.TerminatorOperandsAreHeld` | src/backends/backend_feature_validation.rs:1781-1857 | exactly a terminator's expression fields and its arms' patterns and guards are scanned |
| `OccurrenceScan.OperandsAreHeld` | src/backends/backend_feature_validation.rs:1627-1761 | exactly a statement's expression fields are scanned, and exactly the locals it produces consulted |
| `OccurrenceScan.OperandOrder` | src/backends/backend_feature_validation.rs:1627-1761 | indexes precede the written value, a receiver its arguments, left right, current step and end, the candidate result the in-range one |
| `OccurrenceScan.ArmOrder` | src/backends/backend_feature_validation.rs:1818-1832 | the scrutinee precedes the arms, earlier arms later ones, and a pattern its guard |
| `OccurrenceScan.TreeExact` | src/backends/backend_feature_validation.rs:1877-1908 | a tree scan counts or reports something iff an unsupported type or route occurs in the tree, and what it reports is authored |
| `OccurrenceScan.StatementSound` | src/backends/backend_feature_validation.rs:1627-1761 | a statement scan never reports without an occurrence among the block's locals or the statement's own fields, and never loses one in a field |
| `OccurrenceScan.BlocksExact` | src/backends/backend_feature_validation.rs:1522-1569 | over all selected blocks: something is counted iff a local, a statement field or a terminator field holds an occurrence; unreported hits leave a fallback |
| `OccurrenceScan.SkipNeverChangesAnswer` | src/backends/backend_feature_validation.rs:1763-1779 | skipping the result-local lookup while no spanless hit exists changes no scan result, on any input |
| `OccurrenceScan.FirstUnsupportedModuleOccurrence` | src/backends/backend_feature_validation.rs:1511-1569 | for each of the four type gates and the route gate: nothing reported iff no local, no statement field, no terminator field, pattern or guard of a selected block holds anything unsupported; the result equals the scan without the shortcut |
| `DependencyEdges.Classify` | src/compiler_frontend/module_dependencies.rs:311-413 | which path a hint asks for (its own, or the canonical content header of its occurrence), every edge kind as an iff on the header, provider, export, parent and content tables, the resolved path and the source order |
| `DependencyEdges.ExportedMeaning` | src/compiler_frontend/module_dependencies.rs:419-442 | a path is a public export iff its components start with a registered prefix and end in one of that prefix's export names |
| `DependencyEdges.SortedDependencyEdges` | src/compiler_frontend/module_dependencies.rs:271-310 | one edge per resolved target, every hint covered, nothing invented, sorted by source order then text |
| `DependencyEdges.SortIsSorted` | src/compiler_frontend/module_dependencies.rs:295-307 | the edge comparison is a total preorder and the stable sort respects it |
| `DependencyEdges.EdgeLeq` | src/compiler_frontend/module_dependencies.rs:295-307 | placed edges come first by source order, and the rendered path decides among equals |
| `Ordering.LexLeqIsFirstDifference` | src/compiler_frontend/module_dependencies.rs:295-307 | the text order is decided by the first byte that differs, a text coming before its extensions |
| `DependencyEdges.EdgesMatchHints` | src/compiler_frontend/module_dependencies.rs:271-310 | the kept edges lead to exactly the headers some hint asks for, and one is Missing iff some declaration hint dangles |
| `DependencyEdges.FromHeaders` | src/compiler_frontend/module_dependencies.rs:187-218 | every path stays listed in source order; under each path the last duplicate is retained, with its own index |
| `DependencySort.DependencyTracker.Enter` | src/compiler_frontend/module_dependencies.rs:146-149 | keeps the stack a duplicate-free listing of the temporary marks |
| `DependencySort.DependencyTracker.Abandon` | src/compiler_frontend/module_dependencies.rs:155-163 | removes one mark from both, by pop or by filter, and keeps the listing duplicate-free |
| `DependencySort.DependencyTracker.Finish` | src/compiler_frontend/module_dependencies.rs:165-168 | retires the mark and records the path as visited |
| `DependencySort.WithoutNoDup` | src/compiler_frontend/module_dependencies.rs:155-163 | popping the top and filtering agree on duplicate-free stacks |
| `DependencySort.ChainClosesCycle` | src/compiler_frontend/module_dependencies.rs:641-646 | meeting a path on the active stack exhibits a real cycle through it |
| `DependencySort.DependencySorter.VisitNode` | src/compiler_frontend/module_dependencies.rs:616-679 | a provider or export path is marked and accepted, an unresolvable one refused; for a header, stack and marks are restored on success and failure, emitted headers stay exactly the visited graph headers, each after its dependencies and reachable from the current root; the order is the pure depth-first post-order; failures name a real defect |
| `DependencySort.DependencySorter.Explore` | src/compiler_frontend/module_dependencies.rs:648-676 | enter, follow the edges, then emit or abandon, with the same guarantees |
| `DependencySort.DependencySorter.VisitEdge` | src/compiler_frontend/module_dependencies.rs:681-736 | provider and export paths marked visited never hide a header; only a Missing edge fails by itself |
| `DependencySort.DependencySorter.Retire` | src/compiler_frontend/module_dependencies.rs:665-675 | a node leaves stack and marks as they were, emitted when its edges were followed and abandoned otherwise |
| `DependencySort.DependencySorter.Emit` | src/compiler_frontend/module_dependencies.rs:674-675 | a header goes out once, after all its dependencies, and its own mark is retired |
| `ModuleDependencies.VisitRoot` | src/compiler_frontend/module_dependencies.rs:545-562 | whatever one root's visit does, marks and stack are empty again and what is out grew by its pure post-order |
| `ModuleDependencies.VisitRoots` | src/compiler_frontend/module_dependencies.rs:544-563 | later roots are visited after failures; on success every root is out, every position is owed to a root all of whose predecessors are out, and the whole order is the pure post-order of the roots |
| `ModuleDependencies.OrderedMeansAcyclic` | src/compiler_frontend/module_dependencies.rs:491-613 | a complete emitted order rules out every cycle, self-edges included |
| `ModuleDependencies.TableMatchesHeaders` | src/compiler_frontend/module_dependencies.rs:271-413 | the resolved edge tables and what the hints ask for describe one graph and the same dangling hints |
| `ModuleDependencies.SortGraph` | src/compiler_frontend/module_dependencies.rs:531-582 | succeeds iff the header graph has no cycle and no Missing edge; errors name real defects |
| `ModuleDependencies.ResolveModuleDependencies` | src/compiler_frontend/module_dependencies.rs:491-613 | fails iff the headers asked for form a cycle or a declaration hint dangles, and every error names such a defect; on success each distinct top-level path once, after its dependencies, in depth-first order of the sorted edges, then all start headers in source order |
| `ModuleDependencies.OvertakingIsForced` | src/compiler_frontend/module_dependencies.rs:544-563 | a header overtakes an earlier one only if some header at or before the overtaken one transitively depends on it |
| `ModuleDependencies.TopologicalOrderKept` | src/compiler_frontend/module_dependencies.rs:544-563 | prefix by prefix, a source order that is already topological is reproduced |
| `ModuleDependencies.SortKeepsTopologicalOrder` | src/compiler_frontend/module_dependencies.rs:544-563 | a topological source order is returned unchanged |
| `DependencyOrder.TargetsInSourceOrder` | src/compiler_frontend/module_dependencies.rs:295-307 | sorted edges list header targets in strictly increasing source order |
| `DependencyOrder.EdgesAreTargets` | src/compiler_frontend/module_dependencies.rs:661-672 | following sorted edges visits the header targets first; the rest can only decide success |
| `DependencyOrder.DepthFirstUnique` | src/compiler_frontend/module_dependencies.rs:271-310 | one header graph has one order, whatever hash iteration and edge bookkeeping did |
| `DependencyOrder.OrderUnique` | src/compiler_frontend/module_dependencies.rs:491-613 | a module's headers have exactly one order the pass can return |
| `CallSummary.ValidateReturnAlias` | src/compiler_frontend/public_call_summary.rs:259-296 | accepts exactly the nonempty, in-range, strictly increasing alias lists |
| `CallSummary.ValidateSummary` | src/compiler_frontend/public_call_summary.rs:83-107 | accepts exactly the summaries valid for the declared accesses |
| `CallSummary.BinarySearchExact` | src/compiler_frontend/public_call_summary.rs:208-213 | on an increasing list binary search decides membership |
| `CallSummary.WideningIsAliasBelow` | src/compiler_frontend/public_call_summary.rs:197-219 | the alias test decides the reference order Fresh, subset, Unknown |
| `CallSummary.ValidateTransition` | src/compiler_frontend/public_call_summary.rs:116-195 | accepts iff both sides are valid under one declaration and nothing narrows; Unchanged iff equal |
| `CallSummary.BelowTransitive` | src/compiler_frontend/public_call_summary.rs:116-219 | accepted transitions compose |
| `CallSummary.BelowAntisymmetric` | src/compiler_frontend/public_call_summary.rs:116-219 | two valid summaries that widen into each other are equal |
| `CallSummary.StrictlyBelowIsLower` | src/compiler_frontend/public_call_summary.rs:116-219 | every real widening climbs at least one level |
| `CallSummary.ConvergenceBound` | src/compiler_frontend/public_call_summary.rs:116-195 | a run over n parameters, m mutable, widens at most m + n + 2 times |
| `CallSummary.BoundIsReached` | src/compiler_frontend/public_call_summary.rs:116-195 | for every declaration some run widens exactly that often |
| `AllocatorProbe.ExchangeAccounting` | src/bin/data_layout_memory_probe.rs:66-105 | a successful exchange settles its block and moves an exact counter by the same amount; a subtraction never clamps, an addition only when the total leaves the counter's range |
| `AllocatorProbe.ReleaseAccounting` | src/bin/data_layout_memory_probe.rs:151-167 | freeing or resizing leaves exactly the size difference owed by the calling thread |
| `AllocatorProbe.StepAccounting` | src/bin/data_layout_memory_probe.rs:66-167 | every step of every thread keeps each block's debt with its one active call, and an exact LIVE_BYTES exact up to `usize::MAX` |
| `AllocatorPeak.StepMark` | src/bin/data_layout_memory_probe.rs:66-120 | outside reset stores the recorded-or-owed mark moves only when LIVE_BYTES is raised, and then to the new value if greater |
| `AllocatorPeak.CleanStoreMarksLive` | src/bin/data_layout_memory_probe.rs:125-129 | a reset store whose baseline is still live, with no greater value outstanding, leaves exactly the live bytes marked |
| `AllocatorRuns.LiveIsExact` | src/bin/data_layout_memory_probe.rs:66-168 | over every run and interleaving: LIVE_BYTES is the sum of accounted sizes in all states iff that sum never exceeds `usize::MAX`; at quiescence it is the sum over held blocks |
| `AllocatorRuns.NoRunSaturates` | src/bin/data_layout_memory_probe.rs:66-105 | in every in-range run subtraction never clamps, and addition clamps exactly when the total leaves the range |
| `AllocatorRuns.FittingRunInRange` | src/bin/data_layout_memory_probe.rs:66-105 | held bytes plus bytes freed but not yet subtracted fitting the counter is enough to stay in range |
| `AllocatorRuns.LateSubtractionClamps` | src/bin/data_layout_memory_probe.rs:151-155 | a run with matched frees, whose held bytes always fit, in which the counter clamps |
| `AllocatorRuns.PeakIsRecorded` | src/bin/data_layout_memory_probe.rs:107-129 | at every quiescent point of every run the peak is what the last reset store left marked, or the greatest raise since |
| `AllocatorRuns.PeakIsExactIff` | src/bin/data_layout_memory_probe.rs:107-129 | that is the maximum LIVE_BYTES since the store iff the store left the live bytes marked or LIVE_BYTES was raised as high as both since |
| `AllocatorRuns.PeakIsExactAfterCleanResets` | src/bin/data_layout_memory_probe.rs:107-129 | with clean reset stores the peak is the maximum LIVE_BYTES since the last one |
| `AllocatorRuns.PeakIsExact` | src/bin/data_layout_memory_probe.rs:107-129 | at every quiescent point the peak is the maximum LIVE_BYTES since the last quiescent reset |
| `AllocatorRuns.RacingResetLosesPeak` | src/bin/data_layout_memory_probe.rs:125-129 | a reset that races with an allocation can leave the peak below what is live |
| `LinkWalk.DrainFunctions` | src/compiler_frontend/hir/reachability.rs:554-583 | visits every queued function once in queue order, queueing entry blocks, or finds a missing row |
| `LinkWalk.DrainBlocks` | src/compiler_frontend/hir/reachability.rs:584-617 | merges every queued block once in queue order, queueing callees and successors, or finds a missing or misfiled row |
| `LinkWalk.WalkIsClosure` | src/compiler_frontend/hir/reachability.rs:541-637 | two empty queues mean the selection is exactly the call closure of the roots with all blocks control flow can enter |
| `LinkOrder.CollectReachability` | src/compiler_frontend/hir/reachability.rs:541-637 | the exact intra-module closure; functions and blocks listed once each in breadth-first order, runtime uses in block order, the first project-context function; fails only if a reached function or block has no facts or a block is filed elsewhere |
| `LinkOrder.WalkIsBreadthFirst` | src/compiler_frontend/hir/reachability.rs:554-617 | functions are visited in the order they were first asked for by a root or a merged block, blocks in the order they were first asked for by an entry or a successor, and each phase runs until its own requests are exhausted |
| `LinkWalk.LogFunction` | src/compiler_frontend/hir/reachability.rs:561-581 | visiting a function keeps the listing free of repeats and the first project-context function first |
| `LinkWalk.LogBlock` | src/compiler_frontend/hir/reachability.rs:600-604 | visiting a block keeps the listing free of repeats and runtime uses in block order |
| `LinkWalk.OwnedIsFiled` | src/compiler_frontend/hir/reachability.rs:484-539 | rows produced one function at a time are filed under the function whose control flow reaches them |
| `ProjectReachability.AddTargets` | src/build_system/build.rs:1230-1293 | resolves every outgoing identity or fails; the owners become roots and every module that gained one is queued |
| `ProjectReachability.VisitModule` | src/build_system/build.rs:1210-1228 | a module is recomputed from its present roots; an error is a defect of the whole program or a misfiled row |
| `ProjectReachability.VisitKeepsInvariant` | src/build_system/build.rs:1210-1296 | stored results stay current for every module that is not queued, and roots stay within reach |
| `ProjectReachability.EmptyQueueIsFixpoint` | src/build_system/build.rs:1198-1299 | an empty queue is the least fixpoint and everything reached is sound |
| `ProjectReachability.LeastFixpointUnique` | src/build_system/build.rs:411-490 | the least fixpoint is unique, so queue order and hash iteration order cannot show |
| `ProjectReachability.CollectReachabilityByModule` | src/build_system/build.rs:1198-1299 | terminates; Ok only if every seeded module exists, every reached function has facts, every reached identity an owner and, for a facade, none carries project context, and then the least fixpoint; conversely Ok whenever these hold and rows are filed under their functions |
| `ProjectReachability.ProducedTablesAreFiled` | src/compiler_frontend/hir/reachability.rs:484-539 | tables as their producer files them always meet that last condition |
| `GeneratedNames.BuildExecutionOwnerMaps` | src/build_system/build.rs:699-779 | succeeds iff no two entries claim one slot and generated identities live in sidecars; then lookups answer exactly from the entries |
| `GeneratedNames.GeneratedTargetsStayInBoundary` | src/build_system/build.rs:918-936 | a generated target always belongs to the caller's own boundary |
| `GeneratedNames.NameInjective` | src/build_system/build.rs:343-346 | different indexes format to different symbol names |
| `GeneratedNames.DecimalDenotes` | src/build_system/build.rs:343-346 | the suffix denotes the index in decimal, without leading zeros |
| `GeneratedNames.AssignBoundary` | src/build_system/build.rs:333-349 | each identity of a boundary is named by the shared index plus the number of smaller identities the boundary owns |
| `GeneratedNames.SortedByRank` | src/build_system/build.rs:337-341 | an identity's place in the sorted listing is its rank |
| `GeneratedNames.AssignGeneratedNames` | src/build_system/build.rs:321-380 | every owned slot, and nothing else, is named by its position in the stable order |
| `GeneratedNames.NamesAreDistinct` | src/build_system/build.rs:321-380 | no two slots of any boundaries share a name |
| `GeneratedNames.NamesIgnoreRegistrationOrder` | src/build_system/build.rs:356-376 | registering the packages in another order gives the same name map |
| `BuildConfig.MaterialiseFor` | src/compiler_frontend/build_config.rs:327-396 | accepts a typed value of the contract's type as it is, and a literal whose kind initialises the scalar and whose text fits it as exactly its payload there; otherwise refuses with the value's type, the literal's default type, or its text |
| `BuildConfig.ConflictIsDifference` | src/compiler_frontend/build_config.rs:1786-1820 | the reason is the first part, in declaration order, in which the compared contracts differ; none iff the compared parts are equal |
| `BuildConfigRun.ResolveBuildConfigValues` | src/compiler_frontend/build_config.rs:1627-1682 | succeeds iff the raw facts are consistent, and otherwise its error describes a defect they have; the loops compute the full resolver's specification, first error included |
| `BuildConfigRun.ResolveWithTransientSourceFacts` | src/compiler_frontend/build_config.rs:1521-1586 | the loops compute the incremental resolver's specification, including its first error; `BuildConfigSuccess.IncrementalIffConsistent` says exactly when that succeeds |
| `BuildConfigSuccess.ResolvesIffConsistent` | src/compiler_frontend/build_config.rs:1627-1999 | resolution succeeds iff namesakes share a contract, no project name repeats, defaults have their types, the lanes agree, every declaration-owned name has a provider or a fixed field over it, every source-only contract has a fitting input, else a fitting global, else a default or leave to be absent, and every input is known; every error names the facts, reason, type, text and location of a real defect |
| `BuildConfigSuccess.IncrementalIffConsistent` | src/compiler_frontend/build_config.rs:1521-1586 | the incremental path succeeds on exactly the consistent canonical and transient facts, and its errors mean the same |
| `BuildConfigSuccess.FirstInIsSome` | src/compiler_frontend/build_config.rs:1645-1682 | the failure reported over an ordered map is that of the least failing name |
| `BuildConfigRun.FromValidated` | src/compiler_frontend/build_config.rs:1463-1487 | the index keeps the first fact of each name per lane |
| `BuildConfigRun.FilterInputsToKnownFacts` | src/compiler_frontend/build_config.rs:1493-1514 | keeps exactly the inputs some canonical or transient contract could consume |
| `BuildConfigEquivalence.TransientIsSuffix` | src/compiler_frontend/build_config.rs:1593-1618 | collecting transient facts beside the canonical map is collecting them after it, with the same first conflict |
| `BuildConfigEquivalence.TransientCompatibilityMatches` | src/compiler_frontend/build_config.rs:1536-1558 | checking every transient fact finds the same first conflict as checking each new name once |
| `BuildConfigEquivalence.ValidationMatches` | src/compiler_frontend/build_config.rs:1521-1682 | full validation of canonical ++ transient facts fails exactly as the transient checks do |
| `BuildConfigEquivalence.NameByName` | src/compiler_frontend/build_config.rs:1561-1580 | each name resolves alike on both paths, except a doubly claimed one, whose two values are given |
| `BuildConfigEquivalence.IncrementalMatchesFull` | src/compiler_frontend/build_config.rs:1521-1682 | same failure and same first error always; same map exactly when no transient name is doubly claimed |
| `BuildConfigEquivalence.FilteredInputsAreKnown` | src/compiler_frontend/build_config.rs:1493-1514 | filtering keeps agreement on canonical names, and no filtered input is ever reported as unknown |
| `BuildConfigProperties.ResolutionIsWellTyped` | src/compiler_frontend/build_config.rs:1627-1999 | every name answers to its source contract, or its direct one where no source fact exists, with exactly that primitive type; value (a literal's payload at the exact scalar included), origin, location and fingerprint come from the lane that owns the name, the declared parts from its fact; keys are exactly the source and direct names; no required source-only absence |
| `BuildConfigProperties.CollectsIffCoherent` | src/compiler_frontend/build_config.rs:1684-1703 | source collection succeeds iff facts that share a name share a contract |
| `BuildConfigProperties.SourceOrderIrrelevant` | src/compiler_frontend/build_config.rs:1684-1820 | reordering or repeating source facts keeps success and every type, value, origin and fingerprint |
| `BuildConfigSuccess.DoubleClaimDiffers` | src/compiler_frontend/build_config.rs:1561-1565 | a concrete doubly claimed name on which the two resolvers succeed and differ |
| `Fingerprint.FoldConcat` | src/compiler_frontend/build_config.rs:878-893 | feeding in pieces is one FNV-1a fold over the concatenation |
| `Fingerprint.FoldNext` | src/compiler_frontend/build_config.rs:878-884 | each byte is exclusive-ored in first, then the hash is multiplied by the prime modulo 2^64 |
| `Fingerprint.XorBit` | src/compiler_frontend/build_config.rs:878-884 | a bit of the exclusive-or is set iff the operands differ there |
| `Fingerprint.PublishedValues` | src/build_system/utils.rs:46-53 | the published FNV-1a parameters, and its published hashes of the empty text and of "a" |
| `Fingerprint.BuildConfigFingerprint` | src/compiler_frontend/build_config.rs:827-876 | the feeding calls compute the content hash of the one byte stream |
| `Fingerprint.SameConstants` | src/build_system/utils.rs:46-53 | the content hash and the fingerprint use one function |
| `Fingerprint.LittleEndianRoundTrip` | src/compiler_frontend/build_config.rs:886-893 | fixed-width words decode to themselves |
| `Fingerprint.ScalarSpellings` | crates/moth-lexical/src/numeric/fixed_scalar.rs:55-71 | the fed scalar names are the source spellings |
| `Fingerprint.StreamDecodes` | src/compiler_frontend/build_config.rs:827-893 | the stream decodes to exactly the name, contract and value or absence it was made from |
| `PackagePaths.ValidationIgnoresCase` | src/builder_surface/package_metadata.rs:77-98 | the whole verdict, reserved roots included, is the same for every ASCII-case variant of a path |
| `PackagePaths.FoldIdentifiesCases` | src/builder_surface/package_metadata.rs:77-98 | folding identifies exactly the two cases of one ASCII letter |
| `PackagePaths.ValidatePackagePath` | src/builder_surface/package_metadata.rs:77-98 | accepts iff every component is nonempty without a hash and the root is not reserved for another origin; each refusal names its reason |
| `PackagePaths.BoundaryPrefix` | src/builder_surface/package_metadata.rs:105-118 | a text prefix ending at a slash boundary is a component prefix, and conversely |
| `PackagePaths.OverlapIsComparability` | src/builder_surface/package_metadata.rs:105-118 | overlap iff one component list, case folded, is a prefix of the other |
| `PackagePaths.UniqueOwner` | src/builder_surface/source_package_registry.rs:61-91 | without overlaps no import path has two owners |
| `PackagePaths.SourcePackageRegistry.RegisterFilesystemRoot` | src/builder_surface/source_package_registry.rs:61-91 | registers iff the prefix is valid and overlaps nothing; otherwise changes nothing; no overlap ever arises |
| `PackagePaths.ValidateSurface` | src/builder_surface/definition.rs:150-165 | accepts iff no source package overlaps a binding package |
| `PackagePaths.NoSharedOwner` | src/builder_surface/definition.rs:150-165 | after validation no import path belongs to both kinds of package |
| `SpanCodec.InlineRoundTrip` | src/benchmarking/span_census.rs:252-304 | for widths 8..12 an inline word is nonzero and unpacks to its span |
| `SpanCodec.InlineIffFits` | src/benchmarking/span_census.rs:232-245 | a span is inline iff it starts below 2^(32 - bits) and is at most 2^bits - 2 long |
| `SpanCodec.Encode` | src/benchmarking/span_census.rs:252-284 | succeeds iff the width is a candidate and the span is inline or the table has room; appends exactly the extended span |
| `SpanCodec.DecodesForever` | src/benchmarking/span_census.rs:252-313 | an encoding decodes to its span after any later appends |
| `SpanCodec.AllDecode` | src/benchmarking/span_census.rs:755-786 | every encoding of a source decodes against the finished table |
| `SpanCodec.EncodeSource` | src/benchmarking/span_census.rs:744-775 | one source is encoded iff its extended spans fit, or refused at its first span at a width that is no candidate; the counters stay exact |
| `SpanCodec.OverflowsCoverExtended` | src/benchmarking/span_census.rs:747-757 | every extended span overflows in start, length or both |
| `SpanCodec.MeasureOneCandidate` | src/benchmarking/span_census.rs:729-808 | at a candidate width succeeds iff every source fits its table, never with a mismatch, and inline, extended, overflow, total and largest-table counts are exact; at any other width refuses the first span |

## Left out

- Diagnostics, source spans beyond opaque values, string tables and path interning: rendering and storage.
- Filesystem access, path canonicalisation, config loading and project bootstrap: plumbing around the modelled logic.
- Quoted-literal and numeric text parsing: a literal carries its parsed value per scalar instead.
- Error payloads: a diagnostic names its path and a build-config error its facts; message texts are not modelled, nor the source-conflict detail attached to each reason.
- The function-signature scan and the per-feature Wasm support tables of backend validation: one-branch facts.
- How HIR expressions list their children: the model takes children in source order.
- Producing link facts from HIR: the walk starts from the retained rows.
- ProjectReachability.CollectReachabilityByModule: between the two conditions stated, a program with misfiled rows may or may not be refused, depending on visit order; which defect is reported first is not modelled either.
- LinkOrder.CollectReachability: runtime uses of all kinds form one list in visit order rather than one list per kind.
- The success-call counters of the allocator: plain increments.
- Memory orderings weaker than per-location coherence in the allocator: each argument is about one counter at a time.
- Failed system allocations: they touch no counter.
- AllocatorRuns.PeakIsExact: assumes resets are quiescent, without which it may be false (`RacingResetLosesPeak`); `PeakIsExactIff` covers every run.
- Declarations built from the sorted headers, and the builtin declarations appended after them: bookkeeping.
- Private-function symbol names, entry selection and the rest of entry assembly after reachability: they would add easy members.
- SpanCodec.MeasureOneCandidate: widths outside 1..31, at which the shifts themselves are undefined, are not modelled; nor are wall-clock timings and byte estimates.
- Timing macros, benchmark reports, editor and documentation files.
