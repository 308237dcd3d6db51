# Halide scheduling, division lowering and profiling: a verified model

This project models the parts of the repository whose correctness is hardest to see from the code, and proves
what they are for.

* **Rewriting reductions** (`LoopNest.dfy`, `ReductionFactoring.dfy`, `ScanExactness.dfy`). `Stage::rfactor` turns a
  reduction into partial reductions and a merge. The model runs both forms on arbitrary arrays, for any operator,
  scatter index, predicates and choice of preserved loops, and proves that they agree; and that the scan over the
  outer loops refuses only what it must.
* **The schedule of a stage** (`StageSchedule.dfy`, `SplitHistory.dfy`, `LoopKinds.dfy`, `LoopCoverage.dfy`,
  `LoopOvershoot.dfy`, `PureCoverage.dfy`, `LoopOrder.dfy`, `ScheduleScripts.dfy`, `ScheduleFailures.dfy`,
  `StorageOrder.dfy`). A stage holds a list of loops and a history of splits, fuses, renames and purifications.
  Every operation is a method on the class `Stage`; the history is replayed as a derivation of the list, and tells
  which loops stand for reduction variables. `LoopCoverage` gives the history its meaning as nested loops and proves
  which iterations run, `LoopOvershoot` exactly which of them leave the domain of an update, `PureCoverage` that
  those of a pure definition stay inside when its tail strategies are left to the code, and `LoopOrder` in which
  order they run; and scripts of directives are run on the class.
* **Division** (`IntegerDivision.dfy`, `FixedWidth.dfy`). The lowered divisions and remainders, at every bit
  width in wrapping arithmetic, against Euclidean division.
* **The graph of Funcs** (`FunctionGraph.dfy`, `DeepCopy.dfy`). Definitions on the heap, freezing, and the deep
  copy of an environment with a semantics that covers self-referencing updates.
* **Instrumentation** (`ProfiledStmt.dfy`, `PapiProfiling.dfy`, `ProfiledOutput.dfy`, `ProfiledRuns.dfy`,
  `TaskRegions.dfy`, `CurrentFunc.dfy`). The pass that inserts profiling calls, as a class with the pass's own
  stacks and maps; what it emits; and all runs of what it emits, with any number of iterations and any branch,
  chosen anew each time (`ChoicesAreFree`), and parallel iterations interleaved freely: the count of active threads,
  the nesting of regions, and which Func each piece of work is billed to.
* **The profiler's runtime** (`PipelineList.dfy`, `BillingLedger.dfy`, `LedgerRuns.dfy`, `ProfilerRuntime.dfy`,
  `ThreadSlots.dfy`). The list of pipelines under every schedule of its single accesses: threads that start
  pipelines read the head and replace it without the lock, any number of them at once, and the sampling thread moves
  a pipeline to the front in three accesses. On top of it the books of billed time, and the objects of the runtime,
  whose methods are those accesses and keep exactly the books. And the slots handed to threads, under every schedule
  of single steps.
* **Buffers** (`BufferAddressing.dfy`). Addresses of elements for any number of dimensions and strides of either
  sign, with the 32-bit products of the code.

`Names.dfy`, `Collections.dfy`, `Arith.dfy` and `Word64.dfy` hold what several modules share.

Some properties do not hold of the code as it stands. The model keeps the code's behaviour and states exactly when
they hold; for most a concrete input on which they fail is a method or lemma of its own:

* A split whose tail strategy is refused, and a fuse whose inner loop is missing, have already changed the list of
  loops; the history no longer explains it (`Stage.Split`, `Stage.Fuse`; `RefusedTail`, `MissingInnerLoop`).
* After `Stage::purify` the history, replayed, ends with the loops of the list exactly when the new name was never
  used in the schedule (`Stage.Purify`; `PurifyToUsedName`).
* `Stage::split` goes by the kind of the variable it is given, not by that of the loop: a reduction loop is split
  exactly, as it must be, only if it is named by an RVar (`Stage.Split`; `MisnamedSplit`).
* Derived loops run past the end of an initial loop exactly when an extent along its splits without guard is not a
  multiple of the factor (`OvershootsExactly`); for a reduction loop that was purified this can happen
  (`PurifiedOvershoots`).
* `reorder` checks the impure loops that it is given against each other only. Iterations that differ on impure loops
  keep their order exactly if no impure loop that is listed goes past one that is not (`ReorderIsLegalExactly`;
  `ReorderedAcross`).
* A loop that is shifted inwards runs before its start exactly when it is shorter than one block (`ShiftedExactly`); if
  no such loop is, and rounding up is never asked for, a pure definition stays inside its box (`PureStageIsSound`).
* Work is billed to the innermost produce step around it unless a produce step has ended since a step last began; then
  it is billed to that one (`WorkIsBilled`). So it is right in all pipelines in which a consume step follows every
  produce step before there is work (`WorkIsBilledAround`).
* A Func is frozen by name, so two Funcs of one name can be defined to call each other (`SameNameCycle`); with
  distinct names the graph stays acyclic (`CarryAll`).
* Loop ids stay below the reported number of loops exactly when the last profiled loop has a name of its own, and
  are one to one, with every name stored, exactly when all names differ (`LoopIdsInRange`, `LoopIdsDense`,
  `LoopNamesWritten`; `RepeatedLoopName`).
* The flags that tell whether to show a Func's threads are written for Funcs with a produce or consume step and for
  no others, though the runtime reads all of them; those of loops are all written, and one is stored past the end of
  the table exactly when the last profiled loop has a name that was met before (`PapiProfiling.Inject`).
* Starting a pipeline that is in the profiler's list already closes the front of the list to a ring
  (`PipelineStart`; `StartedTwice`).
* A start reads the head of the list and replaces it without the lock. No pipeline is ever lost from the list, however
  many starts overlap, if and only if every start finds the head that it read and none falls between a bill's reading
  and replacing the head (`NeverLostExactly`, `NothingIsLost`). Otherwise the old head is lost (`LosingScriptLoses`,
  `LostPipeline`), or the new one (`GapLoses`, `LostInGap`), or the list becomes a ring (`RingCloses`); two starts that
  overlap get the same ids (`OverlapDrops`, `OverlappingStarts`).
* What is lost stays lost until a reset as long as no start reads the head between a bill's reading and replacing it
  (`LostStaysLost`); after that it can come back (`LostComesBack`).
* Thread slots are safe under every interleaving exactly when the thread handles differ in their low 32 bits: the
  code squeezes the handle into an `int` (`SafeExactlyWhenDistinguished`; `SharedIdSharesSlot`).
* `Func::reorder_storage(x, y)` is refused when `x` is missing, but a missing `y` goes unnoticed
  (`RefusedExactlyWhen`; `MissingSecondVariable`).
* `begin`, `end` and `address_of` of a buffer are exact exactly when each product of a stride and an extent fits in
  32 bits (`ExactExactlyWhenAllFit`; `OverflowingProduct`).

Where a vector's last element is read although the vector is empty (`PAPIProfiling.cpp:182`), the model lets any
value be read; every result about the pass holds whatever it is.

## Model

| member | source | states |
|---|---|---|
| ReductionFactoring.Rfactor | halide/src/modified/Func.cpp:621-918 | `rfactor` accepts exactly when the operator is associative, the pairs name reduction loops, one each, and unused Vars, and the operator commutes or no preserved loop has an unpreserved reduction loop outside it; then merging the partials gives the original result on every array |
| ReductionFactoring.RfactorPreservesMeaning | halide/src/modified/Func.cpp:756-917 | identity-filled partials followed by the merge give the array of the original update, for every operator, index function and predicate set, if the operator commutes or the preserved loops are closed outward |
| ReductionFactoring.PartialsThenMerge | halide/src/modified/Func.cpp:805-915 | the same over any list of points and keys, as long as the keys are distinct and met in order or the operator commutes |
| ReductionFactoring.MergeAbsorbs | halide/src/modified/Func.cpp:867-915 | one more point in a partial cell changes the merged result as one more point in the original would |
| ReductionFactoring.EnabledIsMerged | halide/src/modified/Func.cpp:805-817 | predicates that mention lifted loops can be dropped from the merge: a point that runs is enabled for the merge under the kept ones |
| ReductionFactoring.ScanOuterLoops | halide/src/modified/Func.cpp:672-689 | the downward scan answers yes exactly when every reduction loop outside a preserved one is preserved |
| ReductionFactoring.MarkPreserved | halide/src/modified/Func.cpp:645-670 | the checks of the pairs, and the loops they mark |
| ReductionFactoring.FilteredClosed | halide/src/modified/Func.cpp:672-689 | the scan over all loops amounts to outward closure among the reduction loops |
| LoopNest.ClosedKeyOrder | halide/src/modified/Func.cpp:672-689 | for a set closed outward the partial cells are completed in the order of the original iteration |
| ScanExactness.RefusedSetsChangeMeaning | halide/src/modified/Func.cpp:672-689 | for any set the scan refuses some associative operator with identity gives another result |
| ScanExactness.ScanIsExact | halide/src/modified/Func.cpp:672-689 | closed sets are those for which associativity alone is enough |
| SplitHistory.RenameKeepsHistory | halide/src/modified/Func.cpp:1379-1422 | the backward search of `rename` rewrites the defining entry or finds none, never an error, and the rewritten history derives the same loops under the new name |
| SplitHistory.RenameKeepsAcceptable | halide/src/modified/Func.cpp:1379-1422 | the rewritten history still meets the tail rules for inner loops |
| SplitHistory.RemoveKeepsHistory | halide/src/modified/Func.cpp:1269-1335 | dropping the entries of a removed loop leaves a derivation of the remaining loops from the remaining initial ones |
| SplitHistory.RemoveKeepsAcceptable | halide/src/modified/Func.cpp:1269-1335 | and still meets the tail rules |
| SplitHistory.CoveredExactly | halide/src/modified/Func.cpp:1029-1048 | a loop is in the map with a factor exactly when a line of entries leads to it from a ShiftInwards split by that factor |
| SplitHistory.InnerVarsExactly | halide/src/modified/Func.cpp:973-990 | a loop is in the set exactly when a line of splits, fuses and renames leads to it from the inner loop of a split |
| LoopKinds.RenameKeepsKinds | halide/src/modified/Func.cpp:1379-1422 | the rewritten history makes the same loops stand for reduction variables, and still splits them exactly |
| LoopKinds.RemoveKeepsKinds | halide/src/modified/Func.cpp:1269-1335 | so does the history that is left after a removal |
| StageSchedule.Stage.Split | halide/src/modified/Func.cpp:920-1069 | the new lists or the error; which tail is refused and which one is recorded, in terms of the loops that the loop comes from; the lists stay valid if the two new names differ and the tail is accepted, and only then stay explained; reduction loops go on being split exactly if and only if the loop is pure or named by an RVar |
| StageSchedule.Stage.ChooseTail | halide/src/modified/Func.cpp:967-1059 | which tail strategy is picked or refused (`StageSchedule.TailsMeet`) |
| StageSchedule.Stage.CollectInnerVars | halide/src/modified/Func.cpp:973-990 | the loops derived from the inner side of a split |
| StageSchedule.Stage.CollectShiftInwards | halide/src/modified/Func.cpp:1029-1048 | the map holds exactly the loops that come down, by splits and renames, from the outer loop of a ShiftInwards split, each with that split's factor (`SplitHistory.CoveredExactly`) |
| StageSchedule.Stage.CheckNewNames | halide/src/modified/Func.cpp:923-937 | a split is refused exactly when a new name is in use by another loop |
| StageSchedule.Stage.Fuse | halide/src/modified/Func.cpp:1083-1147 | the new lists or the error; accepted fuses keep the lists valid, a missing inner loop leaves them unexplained |
| StageSchedule.Stage.Purify | halide/src/modified/Func.cpp:1203-1241 | the new lists; replaying the history ends with the loops of the list exactly when the new name was never used |
| StageSchedule.Stage.Rename | halide/src/modified/Func.cpp:1338-1425 | the new lists; from a valid state the "already fused" and "already split" errors cannot occur |
| StageSchedule.Stage.RewriteDefinition | halide/src/modified/Func.cpp:1379-1422 | the backward loop computes the rewriting that `RenameKeepsHistory` is about |
| StageSchedule.Stage.Remove | halide/src/modified/Func.cpp:1243-1336 | removing a loop drops every entry that derives from it, keeps the lists valid, and cannot meet its error branch from a valid state |
| StageSchedule.Stage.DropEntries | halide/src/modified/Func.cpp:1269-1335 | the backward loop computes the sweep that `RemoveKeepsHistory` is about |
| StageSchedule.Stage.Reorder | halide/src/modified/Func.cpp:1555-1622 | the listed loops come in the requested order in the positions they had, others stay; without proof of commutativity listed impure loops keep their order |
| StageSchedule.Stage.FindPositions | halide/src/modified/Func.cpp:1562-1584 | each listed variable's loop, or the error for a missing or repeated one |
| StageSchedule.Stage.CheckImpureOrder | halide/src/modified/Func.cpp:1589-1609 | finds a pair of listed impure loops that would swap exactly when there is one |
| StageSchedule.Stage.Permute | halide/src/modified/Func.cpp:1611-1619 | the permutation puts loops in the sorted positions and loses none |
| StageSchedule.SplitOutcome | halide/src/modified/Func.cpp:920-1069 | an accepted split keeps list and history in step unless its two new names are equal; a refused tail breaks them apart |
| StageSchedule.TailsMeet | halide/src/modified/Func.cpp:967-1064 | which tail strategies are refused, and what `Auto` stands for: guarded for exact splits; inwards in a pure definition unless the loop comes down from a ShiftInwards split by at least this factor; rounded up in an update unless the loop comes from an inner loop |
| StageSchedule.SplitKeepsDerivation | halide/src/modified/Func.cpp:939-957 | the split list is what the extended history derives |
| StageSchedule.FuseKeepsDerivation | halide/src/modified/Func.cpp:1094-1145 | the fused list is what the extended history derives |
| StageSchedule.FuseOutcome | halide/src/modified/Func.cpp:1083-1147 | an accepted fuse keeps the lists valid; a missing inner loop does not |
| StageSchedule.PurifyKeepsDerivation | halide/src/modified/Func.cpp:1220-1239 | the exact conditions under which a purify keeps list and history in step, and qualified names unambiguous |
| StageSchedule.RenameKeepsDerivation | halide/src/modified/Func.cpp:1359-1422 | a rename keeps them in step by whichever branch of the search |
| StageSchedule.RemoveKeepsDerivation | halide/src/modified/Func.cpp:1243-1336 | so does a removal |
| StageSchedule.ReorderedNames | halide/src/modified/Func.cpp:1611-1619 | reordering keeps the set of loops, each once |
| ScheduleFailures.RefusedTail | halide/src/modified/Func.cpp:939-1053 | a stage whose list was split although the tail was refused |
| ScheduleFailures.MissingInnerLoop | halide/src/modified/Func.cpp:1098-1141 | a stage that lost a loop to a refused fuse |
| ScheduleFailures.PurifyToUsedName | halide/src/modified/Func.cpp:1217-1239 | two accepted purifications leave one name twice in the list |
| ScheduleFailures.MisnamedSplit | halide/src/modified/Func.cpp:1071-1080 | a reduction loop is accepted as a Var and rounded up |
| ScheduleFailures.ReorderedAcross | halide/src/modified/Func.cpp:1586-1619 | an accepted reorder that swaps two impure loops, one of them not listed |
| LoopOrder.SplitKeepsOrder | halide/src/modified/Func.cpp:939-957 | after a split by rounding up or guarding, iterations run in the order in which they did |
| LoopOrder.FuseKeepsOrder | halide/src/modified/Func.cpp:1094-1145 | so they do after a fuse of a loop with the one directly outside of it |
| LoopOrder.ReorderIsLegalExactly | halide/src/modified/Func.cpp:1586-1619 | if listed impure loops keep their order, all iterations that differ on impure loops only stay in order exactly when no listed impure loop goes past an unlisted one |
| LoopOrder.ImpureKeptExactly | halide/src/modified/Func.cpp:1586-1619 | the impure loops keep their order in the list exactly when the listed ones do and go past no other |
| LoopOrder.SplitRanges | halide/src/modified/Func.cpp:939-1068 | the inner loop of a split runs over the factor of its entry, the outer one over as many blocks as cover the old loop |
| StageSchedule.SplitAt | halide/src/modified/Func.cpp:939-1068 | the entry of an accepted split has the given factor, the old loop and the two new ones, which take its place |
| LoopOrder.NewNamesAreClear | halide/src/modified/Func.cpp:923-957 | after a split each of its new names refers to its loop and no other |
| LoopOrder.SplitKeepsTypes | halide/src/modified/Func.cpp:939-953 | both loops keep the types of the old one, except that the outer one is never extern |
| LoopOrder.FusedKind | halide/src/modified/Func.cpp:1094-1145 | a fused loop is impure exactly if one of the two was, and pure exactly if both were |
| PureCoverage.PureStageIsSound | halide/src/modified/Func.cpp:999-1058 | in every valid state a pure definition visits each point; if it rounds up only loops that come down from a ShiftInwards split nothing runs past the end of the box, and if shifted loops have room for a block nothing before its start |
| PureCoverage.EndsHold | halide/src/modified/Func.cpp:999-1058 | only initial loops that a split without guard or shift reaches may run past their end |
| PureCoverage.CoveredRoundsStayInside | halide/src/modified/Func.cpp:1024-1055 | what overshoots is always covered by a ShiftInwards split, so no initial loop does |
| PureCoverage.StartsHold | halide/src/modified/Func.cpp:1000-1002 | with room for every shifted block nothing runs before its start |
| PureCoverage.ShiftedExactly | halide/src/modified/Func.cpp:1000-1002 | a shifted loop starts early exactly when it is shorter than a block |
| PureCoverage.AutoKeepsCovered | halide/src/modified/Func.cpp:1042-1048 | a split that is left to `Auto` rounds up covered loops only |
| PureCoverage.RenameKeepsCovered | halide/src/modified/Func.cpp:1379-1422 | the rewritten history covers the same loops under their new names |
| ScheduleScripts.VectorizeThenUnroll | halide/src/modified/Func.cpp:1006-1017 | the first split of the example shifts inwards and the second rounds up |
| LoopCoverage.UpdateStageIsSound | halide/src/modified/Func.cpp:967-1068 | in every valid state, the loops of an update stage visit each original point once and miss none; as long as splits name RVars as RVars, reduction variables stay in their domain unless they were purified |
| ScheduleScripts.PerformAll | halide/src/modified/Func.cpp:920-1622 | any script of directives that are all accepted leads to a valid state, if its splits name two different loops and its purifications use names that are new; for a pure definition, if it removes no loop and never asks for rounding up, only covered loops are rounded up |
| ScheduleScripts.FirstNames | halide/src/modified/Func.cpp:1220-1239 | the loops that a stage starts with are names to start from |
| ScheduleScripts.NewNameIsUnused | halide/src/modified/Func.cpp:1220-1239 | a name that no loop started with and no earlier purification used was never used in the schedule |
| LoopCoverage.VisitedOnce | halide/src/modified/Func.cpp:967-1001 | two executed iterations that reach one original point are the same |
| LoopCoverage.EveryPointVisited | halide/src/modified/Func.h:1460-1466 | every point of the original box is reached |
| LoopCoverage.StaysInBox | halide/src/modified/Func.cpp:464-555 | only initial loops that a RoundUp split reaches may run past their end |
| LoopCoverage.RVarsNeverOvershoot | halide/src/modified/Func.cpp:1055-1068 | reduction variables that no purify reaches never do |
| LoopOvershoot.OvershootsExactly | halide/src/modified/Func.cpp:967-1068 | for any accepted history, some iteration leaves an initial loop exactly when its extent, or that of an outer loop split off from it, is not a multiple of the factor of a split without guard |
| LoopOvershoot.StaysUnlessRounded | halide/src/modified/Func.cpp:464-555 | no iteration leaves any other initial loop |
| LoopOvershoot.LiftLeaves | halide/src/modified/Func.cpp:464-555 | the iteration lifted from just past the end of such a loop runs |
| LoopOvershoot.PurifiedOvershoots | halide/src/modified/Func.cpp:1203-1241 | a purified and then rounded-up reduction loop stays in the domain exactly when the factor divides the extent |
| LoopCoverage.LooseIsInjective | halide/src/modified/Func.cpp:967-1001 | the same as `VisitedOnce` for iterations that may leave a rounded outer loop |
| LoopCoverage.LiftIsExecuted | halide/src/modified/Func.cpp:464-555 | the iteration computed for a point runs and reaches it |
| LoopCoverage.EmptyLoopRunsNothing | halide/src/modified/Func.cpp:464-555 | an initial loop without iterations runs nothing, however it is split and fused |
| LoopCoverage.RoundUpInnerRecomputes | halide/src/modified/Func.cpp:969-1001 | rounding up the inner loop of a split recomputes a point exactly when the inner factor does not divide the outer one |
| StorageOrder.Func.ReorderPair | halide/src/modified/Func.cpp:2470-2497 | swaps the two dimensions if `y` came first; the exact error cases |
| StorageOrder.Func.ReorderFrom | halide/src/modified/Func.cpp:2499-2509 | the recursive pairwise swaps end with the listed dimensions in order |
| StorageOrder.Func.ReorderStorage | halide/src/modified/Func.cpp:2511-2515 | accepted exactly when each listed variable differs from every later one and names a dimension that the later one does not; then, if the variables name one dimension each and the last one at most one, they end in the listed order in the places they held |
| StorageOrder.PairMoves | halide/src/modified/Func.cpp:2470-2497 | one pairwise call seen from the places of the listed dimensions |
| StorageOrder.RefusedExactlyWhen | halide/src/modified/Func.cpp:2478-2497 | a pairwise call is refused exactly when no dimension goes by `x` alone |
| StorageOrder.MissingSecondVariable | halide/src/modified/Func.cpp:2470-2497 | a call with a misspelt second variable is accepted and does nothing |
| IntegerDivision.LowerSignedDiv | halide/src/modified/CodeGen_Internal.cpp:465-533 | the sign-mask formula gives the Euclidean quotient at every width, 0 for a zero divisor and the most negative value for MIN / -1, without a faulting division, whatever sound constants replace the masks |
| IntegerDivision.LowerUnsignedDiv | halide/src/modified/CodeGen_Internal.cpp:465-533 | the unsigned branch gives the quotient, and 0 for a zero divisor |
| IntegerDivision.LowerSignedMod | halide/src/modified/CodeGen_Internal.cpp:535-584 | the remainder lies in [0, abs(b)), is 0 for a zero divisor and never faults, MIN included |
| IntegerDivision.LowerUnsignedMod | halide/src/modified/CodeGen_Internal.cpp:535-584 | the unsigned branch gives the remainder, and 0 for a zero divisor |
| IntegerDivision.DivisionIdentity | halide/src/modified/CodeGen_Internal.cpp:482-488 | (a / b) * b + a % b is a in wrapping arithmetic, for every nonzero b |
| IntegerDivision.EuclideanFromTruncated | halide/src/modified/CodeGen_Internal.cpp:490-533 | the correction that turns a truncating division into the Euclidean one |
| IntegerDivision.UnsignedLongDiv | halide/src/modified/CodeGen_Internal.cpp:406-442 | restoring division ends with num = q * den + r, the quotient capped at the bits of the bound, and a remainder below den exactly when the bound was enough |
| IntegerDivision.StartBit | halide/src/modified/CodeGen_Internal.cpp:413-427 | the top bit taken from the bound, which `BoundFits` shows to be high enough |
| IntegerDivision.BoundFits | halide/src/modified/CodeGen_Internal.cpp:416-424 | a quotient at most the bound needs no higher bit |
| IntegerDivision.BitDecision | halide/src/modified/CodeGen_Internal.cpp:429-440 | the leading-zero test and the shifted comparison decide each bit as exact arithmetic would |
| IntegerDivision.SignedLongDiv | halide/src/modified/CodeGen_Internal.cpp:444-463 | the signed wrapper gives truncating quotient and remainder, the most negative value included |
| IntegerDivision.SignedByReciprocal | halide/src/modified/CodeGen_Internal.cpp:290-327 | xor with the sign, high multiply, shift and xor give the Euclidean quotient, for a table row whose reciprocal is good |
| IntegerDivision.UnsignedByReciprocal | halide/src/modified/CodeGen_Internal.cpp:328-368 | so do the three unsigned methods; the operands of the sorted average are sorted |
| IntegerDivision.AverageIs | halide/src/modified/CodeGen_Internal.cpp:352-366 | the sorted average stands for a multiplication by a multiplier one bit too wide |
| IntegerDivision.ReciprocalIsExact | halide/src/modified/CodeGen_Internal.cpp:296-366 | the bound on a row's error holds exactly when multiplying by it divides every value of the type |
| IntegerDivision.ReciprocalAt | halide/src/modified/CodeGen_Internal.cpp:318-325 | one value divided by a good reciprocal |
| IntegerDivision.LowerDiv | halide/src/modified/CodeGen_Internal.cpp:276-372 | whichever form is picked, the result is the Euclidean quotient |
| IntegerDivision.LowerMod | halide/src/modified/CodeGen_Internal.cpp:374-404 | whichever form is picked, the result is the Euclidean remainder |
| IntegerDivision.MaskRemainder | halide/src/modified/CodeGen_Internal.cpp:383-385 | masking with b - 1 is the remainder by a power of two, for negative values too |
| IntegerDivision.RemainderByMultiplying | halide/src/modified/CodeGen_Internal.cpp:386-398 | a - (a / b) * b is the remainder in wrapping arithmetic |
| FunctionGraph.Define | halide/src/modified/Function.cpp:387-497 | the error or the new definition, which mentions its arguments only; callees end up frozen; the graph stays ordered exactly when every other Func called is frozen |
| FunctionGraph.DefineUpdate | halide/src/modified/Function.cpp:499-700 | the same for an update, which mentions only what its left-hand side and its domain bind |
| FunctionGraph.DefineOutcomeMeans | halide/src/modified/Function.cpp:387-470 | a pure definition is accepted exactly when the Func is named, undefined and not frozen, its arguments are named and differ, and it mentions only these, no reduction variable, and itself only at these; which other variables make it unbound |
| FunctionGraph.UpdateOutcomeMeans | halide/src/modified/Function.cpp:499-590 | an update is accepted exactly when it fits the pure definition and mentions only arguments that its left-hand side repeats and its reduction variables, and itself only with the repeated arguments in their places |
| FunctionGraph.VarsBoundMeans | halide/src/modified/Function.cpp:205-259 | the check of one expression, in terms of the variables and self-calls in it |
| FunctionGraph.FreezeCalled | halide/src/modified/Function.cpp:264-283 | exactly the Funcs called under other names become frozen |
| FunctionGraph.NoCycles | halide/src/modified/Function.cpp:264-283 | in an ordered graph no chain of calls comes back, apart from self-calls; ranks go down along it |
| FunctionGraph.DistinctNamesFreezeAll | halide/src/modified/Function.cpp:264-283 | when names tell Funcs apart every other callee gets frozen |
| FunctionGraph.CarryAll | halide/src/modified/Function.cpp:387-700 | any sequence of definitions of Funcs with distinct names, accepted or refused, leaves the graph ordered, so free of cycles |
| FunctionGraph.EmptyEnvironment | halide/src/modified/Function.cpp:387-497 | Funcs without definitions whose names differ are such a graph to start from |
| FunctionGraph.SameNameCycle | halide/src/modified/Function.cpp:264-283 | two Funcs of one name can be made to call each other |
| DeepCopy.DeepCopyEnvironment | halide/src/modified/Function.cpp:1087-1137 | fresh copies, each with its original's definitions under redirected calls; the originals are not written |
| DeepCopy.CopyContents | halide/src/modified/Function.cpp:334-380 | one Func's definitions arrive in its copy |
| DeepCopy.SubstituteCalls | halide/src/modified/Function.cpp:1070-1078 | every call in every definition is redirected by the table |
| DeepCopy.CopyOutputs | halide/src/modified/Function.cpp:1124-1134 | outputs become their copies; those outside the environment stay |
| DeepCopy.CopiesEvaluateAlike | halide/src/modified/Function.cpp:1087-1137 | every Func of the copied environment has the value of its original at every point, self-referencing updates included |
| DeepCopy.CopiesAreClosed | halide/src/modified/Function.cpp:1036-1078 | no copy calls an original; calls among the environment and calls out of it are those of the originals |
| DeepCopy.CopiesKeepOrder | halide/src/modified/Function.cpp:1087-1137 | originals and copies together are again ordered, so free of cycles |
| DeepCopy.CalleesAfter | halide/src/modified/Function.cpp:1036-1064 | what an expression calls after substitution |
| DeepCopy.SameValueAt | halide/src/modified/Function.cpp:1087-1137 | the values agree after any number of iterations of any update |
| DeepCopy.AcceptedDefinitionIsAFunction | halide/src/modified/Function.cpp:222-259 | the value of an accepted pure definition is determined by its arguments |
| DeepCopy.EvaluateReads | halide/src/modified/Function.cpp:222-259 | the value of an expression depends on the variables in it only |
| DeepCopy.SelfCallsStayInSlice | halide/src/modified/Function.cpp:205-218 | an accepted update reads its own Func only at points that agree with the stored one in every repeated argument |
| PapiProfiling.Inject | halide/src/PAPIProfiling.cpp:330-396 | the output is an instrumentation of the input; the reported counts are right; every slot of the table of Func names has the name of its id; a thread flag is written exactly for the Funcs with a step of its kind, with what was decided about the last one; a loop name exactly where a loop has the id, with such a name; every loop's thread flag, as asked for the last loop of that id, and one past the end exactly when the last profiled loop has a name met before |
| PapiProfiling.InjectPAPIProfiling.Mutate | halide/src/PAPIProfiling.cpp:45-328 | any statement is rewritten into an instrumentation of it, with stacks restored, ids only added, and loops numbered in order |
| PapiProfiling.InjectPAPIProfiling.MutateTask | halide/src/PAPIProfiling.cpp:132-241 | a produce or consume step gets the calls that the requests and the enclosing step decide, and its thread flag |
| PapiProfiling.InjectPAPIProfiling.ParentName | halide/src/PAPIProfiling.cpp:138-145 | the lookup by id finds the enclosing step's name |
| PapiProfiling.InjectPAPIProfiling.GetFuncId | halide/src/PAPIProfiling.cpp:86-97 | ids are distinct, dense and never change |
| PapiProfiling.InjectPAPIProfiling.MutateLoop | halide/src/PAPIProfiling.cpp:243-327 | a loop gets its region, and the thread counting if it launches threads; offloaded loops are not entered |
| PapiProfiling.InjectPAPIProfiling.FinishLoop | halide/src/PAPIProfiling.cpp:301-326 | the id of a profiled loop is the number of different names met before it |
| PapiProfiling.TaskCounted | halide/src/PAPIProfiling.cpp:162-193 | the count that selects overhead regions is the number of tasks directly inside, unless the step is nested in itself |
| PapiProfiling.FirstRequestIs | halide/src/PAPIProfiling.cpp:147-157 | the first request of the list that concerns the step and its parent decides |
| PapiProfiling.FirstLoopRequestIs | halide/src/PAPIProfiling.cpp:301-304 | the first request decides whose Func and variable the loop's name starts and ends with |
| PapiProfiling.DecisionsMeet | halide/src/PAPIProfiling.cpp:159-160 | threads are shown of profiled steps only; a request says nothing about steps of the other kind and overrules what is inherited |
| PapiProfiling.FillNames | halide/src/PAPIProfiling.cpp:378-380 | no slot of the name table stays unwritten |
| PapiProfiling.FillFlags | halide/src/PAPIProfiling.cpp:386-392 | the slots of Funcs without a step of the kind stay unwritten, all others have the flag of the last such step |
| PapiProfiling.LoopIdsAre | halide/src/PAPIProfiling.cpp:307-320 | the ids that loops get are all the numbers below the number of loops, and that number exactly when the last name is repeated |
| ProfiledOutput.ProbesErase | halide/src/PAPIProfiling.cpp:132-327 | deleting the profiling calls from the output gives the input |
| ProfiledOutput.FuncIdsInRange | halide/src/PAPIProfiling.cpp:86-97 | every Func id in the output is below the reported number |
| ProfiledOutput.LoopIdsInRange | halide/src/PAPIProfiling.cpp:307-320 | loop ids are below the reported number exactly when the last profiled loop's name is new |
| ProfiledOutput.LoopIdsDense | halide/src/PAPIProfiling.cpp:307-320 | each loop has an id of its own below that number exactly when the names differ |
| ProfiledOutput.SlotWritten | halide/src/PAPIProfiling.cpp:382-384 | a slot of the table of loop names is written exactly for the last loop of some name with that many different names before it |
| ProfiledOutput.LoopNamesWritten | halide/src/PAPIProfiling.cpp:382-384 | every slot of that table is written exactly when the names differ |
| ProfiledOutput.RepeatedLoopName | halide/src/PAPIProfiling.cpp:307-320 | two loops of one name get ids 0 and 1, one loop is reported, its name is stored nowhere and a flag past the end |
| ProfiledRuns.ActiveThreadsStayRight | halide/src/PAPIProfiling.cpp:251-272 | in every interleaving of every run, stopped anywhere, the count of active threads is not below its start, and a finished run leaves it as it was, on the host and on the remote processor |
| TaskRegions.RegionsNest | halide/src/PAPIProfiling.cpp:184-233 | in every interleaving of every run, what each task has done is the start of a word, and when the run is finished a word, in which Func, loop and parallel regions nest and overhead enters and leaves cancel by id |
| TaskRegions.RunProjects | halide/src/PAPIProfiling.cpp:243-327 | the events of a task in a run, followed by what is left to it, are its word |
| ProfiledRuns.RunAccounts | halide/src/runtime/papi_profiler.cpp:628-653 | a run's increments and decrements are bounded below by what its process can lose |
| ProfiledRuns.ProbedThreads | halide/src/PAPIProfiling.cpp:323-325 | any rewritten statement gives up at most its own thread and takes it back |
| TaskRegions.ProbedTidy | halide/src/PAPIProfiling.cpp:184-233 | any rewritten statement is well nested wherever it stands |
| CurrentFunc.WorkIsBilled | halide/src/PAPIProfiling.cpp:176-216 | in every interleaving of every run, stopped anywhere, a task that works in a step finds current the Func of the innermost produce step around, or the overhead if there is none; but if a produce step has ended since a step last began, that one's |
| CurrentFunc.WorkIsBilledAround | halide/src/PAPIProfiling.cpp:176-216 | if after every produce step another step begins before there is work, it is always the Func of the innermost produce step around |
| CurrentFunc.WorkIsInItsRegion | halide/src/PAPIProfiling.cpp:147-209 | in every run, work in a step is inside a region of that step exactly if the requests have it profiled |
| CurrentFunc.NestedOutsideRegion | halide/src/PAPIProfiling.cpp:191-209 | in every run, a step begins only outside of the own region of the Func around, whose time is counted as overhead, unless a Func is produced inside itself |
| CurrentFunc.RegionsNameFuncs | halide/src/PAPIProfiling.cpp:191-231 | in every run, a Func's region names the step it is in, and an overhead region the innermost produce step |
| CurrentFunc.ThreadsStartInParallelRegions | halide/src/PAPIProfiling.cpp:243-327 | whatever loops and branches do, tasks are launched only inside of parallel regions |
| CurrentFunc.HappeningFits | halide/src/PAPIProfiling.cpp:132-327 | all of these at once, for every event of every run |
| CurrentFunc.ProbedGood | halide/src/PAPIProfiling.cpp:132-327 | and for every rewritten statement, wherever it stands |
| BillingLedger.TimeIsConserved | halide/src/runtime/papi_profiler.cpp:48-84 | over any schedule of the accesses of starts and bills and of resets, also one that loses pipelines, the time billed, dropped, not billed and under way grows by the time between wake-ups |
| BillingLedger.AllIsConserved | halide/src/runtime/papi_profiler.cpp:33-84 | over any such schedule, time, active threads and samples grow, modulo 2^64, by exactly what the wake-ups observed |
| Word64.WrapIsModulo | halide/src/runtime/papi_profiler.cpp:34-43 | the counters are 64-bit values, taken modulo 2^64 |
| BillingLedger.StepConserves | halide/src/runtime/papi_profiler.cpp:33-84 | every single step adds what it observes, and nothing if it observes nothing |
| BillingLedger.TotalOfBilled | halide/src/runtime/papi_profiler.cpp:34-43 | billing one cell adds the sample to the sum |
| PipelineList.NeverLostExactly | halide/src/runtime/papi_profiler.cpp:21-194 | however many starts overlap, no published pipeline is ever lost if and only if every start finds the head it read and none falls between lines 28 and 29 |
| PipelineList.StepHolds | halide/src/runtime/papi_profiler.cpp:27-194 | every other access keeps all published pipelines in the list or on their way to its front |
| PipelineList.UntimelyLoses | halide/src/runtime/papi_profiler.cpp:118-194 | a start that finds the head changed loses the old head, one between a bill's reading and replacing the head loses itself |
| PipelineList.StepRevives | halide/src/runtime/papi_profiler.cpp:27-194 | what is lost comes back exactly when a start becomes the head from whose old head it is reached |
| PipelineList.LostStaysLost | halide/src/runtime/papi_profiler.cpp:27-194 | without a start that reads the head while a bill replaces it, what is lost stays lost |
| PipelineList.GapLoses | halide/src/runtime/papi_profiler.cpp:27-194 | a schedule that loses a pipeline although every start finds the head it read |
| PipelineList.OvertakenLoses | halide/src/runtime/papi_profiler.cpp:27-194 | one that loses the old head |
| PipelineList.Overtakes | halide/src/runtime/papi_profiler.cpp:27-194 | the accesses that lead there |
| PipelineList.RingCloses | halide/src/runtime/papi_profiler.cpp:27-194 | one that closes the list to a ring |
| PipelineList.LostComesBack | halide/src/runtime/papi_profiler.cpp:27-194 | one in which what is lost comes back |
| LedgerRuns.NeverLostExactly | halide/src/runtime/papi_profiler.cpp:21-194 | the same for the runtime's own operations, with searches, bills and resets |
| LedgerRuns.NothingIsLost | halide/src/runtime/papi_profiler.cpp:21-194 | with one start at a time, every id given out is billed at every moment if and only if the same holds |
| LedgerRuns.NoBooksToStartFrom | halide/src/runtime/papi_profiler.cpp:489-499 | the empty profiler is a state from which the theorems about runs hold |
| LedgerRuns.SearchIsExact | halide/src/runtime/papi_profiler.cpp:23-25 | the search finds an id exactly when a pipeline reached from the head has it; a search that does not end passes no such pipeline |
| LedgerRuns.BilledIsFound | halide/src/runtime/papi_profiler.cpp:23-25 | between wake-ups the ids that are billed are those that the search finds |
| LedgerRuns.LostStaysLost | halide/src/runtime/papi_profiler.cpp:21-194 | a pipeline that is lost is billed nothing until a reset, unless a start reads the head while a bill replaces it |
| LedgerRuns.OverlapDrops | halide/src/runtime/papi_profiler.cpp:118-194 | of two starts that overlap the first is lost, both have the same ids, and as many ids as it has Funcs are billed to nobody |
| LedgerRuns.LosingScriptLoses | halide/src/runtime/papi_profiler.cpp:21-194 | a schedule that loses an old pipeline and its later time |
| LedgerRuns.GapScriptLoses | halide/src/runtime/papi_profiler.cpp:21-194 | one that loses a new pipeline that found the head it read |
| ProfilerRuntime.ProfilerState.Run | halide/src/runtime/papi_profiler.cpp:48-84 | the sampling loop, with the accesses of any number of starts and with resets between its own, keeps exactly the ledger's books |
| ProfilerRuntime.ProfilerState.BillFunc | halide/src/runtime/papi_profiler.cpp:21-46 | uninterrupted, the Func with the id is billed and its pipeline moved to the front, or nothing happens if no listed pipeline has the id |
| ProfilerRuntime.ProfilerState.FindOwner | halide/src/runtime/papi_profiler.cpp:22-25 | the search finds the pipeline that has the id and the one before it, or none, as the books say |
| ProfilerRuntime.ProfilerState.TakeOut | halide/src/runtime/papi_profiler.cpp:27 | the objects follow the books when a pipeline is taken out |
| ProfilerRuntime.ProfilerState.LinkToHead | halide/src/runtime/papi_profiler.cpp:28 | when it is linked to the head |
| ProfilerRuntime.ProfilerState.MakeHead | halide/src/runtime/papi_profiler.cpp:29-41 | and when it becomes the head and is billed |
| ProfilerRuntime.ProfilerState.WakeUp | halide/src/runtime/papi_profiler.cpp:54-75 | a wake-up searches and bills the first pipeline or begins a move |
| ProfilerRuntime.PipelineStats.Bill | halide/src/runtime/papi_profiler.cpp:34-43 | the time, the active threads and a sample are added to a Func and to its pipeline alike; other Funcs are untouched |
| ProfilerRuntime.BillBooks | halide/src/runtime/papi_profiler.cpp:21-46 | a whole bill adds to the cell of the Func with the id, in the first listed pipeline that has it, and to no other |
| ProfilerRuntime.ProfilerState.PipelineStart | halide/src/runtime/papi_profiler.cpp:94-211 | uninterrupted, a new pipeline goes to the front with the next ids and zero counters; without memory nothing changes; one already listed makes a ring |
| ProfilerRuntime.ProfilerState.PublishStart | halide/src/runtime/papi_profiler.cpp:193-194 | the ids are taken and the new pipeline becomes the head in front of the head it read |
| ProfilerRuntime.ProfilerState.BeginStart | halide/src/runtime/papi_profiler.cpp:108-191 | a new node with zero counters, the next ids and the head of the list, not listed yet |
| ProfilerRuntime.LostPipeline | halide/src/runtime/papi_profiler.cpp:21-194 | after the first schedule two pipelines are listed of three |
| ProfilerRuntime.LostInGap | halide/src/runtime/papi_profiler.cpp:27-194 | after the second, too, though the lost one found the head it read |
| ProfilerRuntime.OverlappingStarts | halide/src/runtime/papi_profiler.cpp:118-194 | of two starts that overlap the first is not in the list, and both have the same ids |
| ProfilerRuntime.StartedTwice | halide/src/runtime/papi_profiler.cpp:108-194 | starting one pipeline twice makes a ring |
| ProfilerRuntime.ProfilerState.FindPipeline | halide/src/runtime/papi_profiler.cpp:108-112 | finds a pipeline of the name and size exactly when there is one |
| ProfilerRuntime.RingNeverEnds | halide/src/runtime/papi_profiler.cpp:108-120 | a ring is not a list that ends |
| ProfilerRuntime.ProfilerState.Reset | halide/src/runtime/papi_profiler.cpp:489-499 | the list is emptied and ids start again |
| ThreadSlots.SlotsAreSafe | time_api.c:32-58 | under every schedule no two threads get one slot and a thread always gets the same |
| ThreadSlots.SafeExactlyWhenDistinguished | time_api.c:32-58 | that holds for a set of threads exactly when their handles differ in the low 32 bits |
| ThreadSlots.ThreadIdIsLowBits | time_api.c:33 | two handles get the same `int` exactly when they agree modulo 2^32 |
| ThreadSlots.SharedIdSharesSlot | time_api.c:33-40 | a schedule in which two threads get one slot |
| ThreadSlots.EnoughSlots | time_api.c:42-52 | with at most 32 threads no call fails |
| ThreadSlots.StepKeepsInv | time_api.c:32-58 | every step of every thread keeps the invariant |
| ThreadSlots.CallAlone | time_api.c:32-58 | what the steps of an uninterrupted call come to; a failing one keeps the lock |
| ThreadSlots.OutcomeStays | time_api.c:37-41 | a later call finds the slot of an earlier one |
| ThreadSlots.MarkerTimers.FindOrInsertThread | time_api.c:32-58 | the loops over the table compute that outcome |
| ThreadSlots.MarkerTimers.MarkerStart | time_api.c:83-87 | only the start time of the thread's own slot is written, or the store is before the array, exactly when no slot is left |
| ThreadSlots.MarkerTimers.MarkerStop | time_api.c:89-95 | only the thread's own cell of the marker grows, by the time since its own start, or the store is before the cells, exactly when no slot is left |
| BufferAddressing.HalideBuffer.Begin | halide/src/runtime/modified/HalideRuntime.h:1484-1493 | the lowest address, exact exactly when the products fit |
| BufferAddressing.HalideBuffer.End | halide/src/runtime/modified/HalideRuntime.h:1495-1505 | one past the highest address, exact exactly when the products fit |
| BufferAddressing.HalideBuffer.SizeInBytes | halide/src/runtime/modified/HalideRuntime.h:1507-1510 | the distance between the two |
| BufferAddressing.HalideBuffer.Bytes | halide/src/runtime/modified/HalideRuntime.h:480-483 | the fewest bytes that hold the bits of an element |
| BufferAddressing.HalideBuffer.AddressOf | halide/src/runtime/modified/HalideRuntime.h:1512-1519 | the address of any element from the sum of 32-bit products, and the right one where all products fit |
| BufferAddressing.ExactExactlyWhenAllFit | halide/src/runtime/modified/HalideRuntime.h:1512-1519 | if last positions are `int`s, all elements in bounds are addressed right exactly when the extreme products of every dimension fit in 32 bits |
| BufferAddressing.OverflowingProduct | halide/src/runtime/modified/HalideRuntime.h:1484-1493 | a buffer with elements below its `begin` |
| BufferAddressing.HalideBuffer.NumberOfElements | halide/src/runtime/modified/HalideRuntime.h:1473-1480 | the product of the extents, modulo 2^64 |
| BufferAddressing.ElementInside | halide/src/runtime/modified/HalideRuntime.h:1482-1519 | every element in bounds lies whole between the two ends |
| BufferAddressing.EndsAttained | halide/src/runtime/modified/HalideRuntime.h:1482-1505 | both ends are offsets of positions in bounds |
| BufferAddressing.DenseIsExact | halide/src/runtime/modified/HalideRuntime.h:1473-1519 | for dense strides of any order and sign, positions match element slots one to one and the size in bytes is the number of elements times their size |
| BufferAddressing.DenseSurjective | halide/src/runtime/modified/HalideRuntime.h:1512-1519 | every slot of a dense buffer has a position |
| BufferAddressing.DenseInjective | halide/src/runtime/modified/HalideRuntime.h:1512-1519 | and only one |

## Left out

- ThreadSlots.MarkerTimers.FindOrInsertThread: is the uninterrupted call; interleavings are covered by the steps of `ThreadSlots.Next`, which treat each read and write as one step of sequentially consistent memory.
- ThreadSlots.MarkerTimers.MarkerStart: tells when the code stores at index -1, but not what that overwrites; so does `MarkerStop`.
- ProfilerRuntime.ProfilerState.PipelineStart: says nothing about a listed pipeline that is started again without memory, because the code frees a node that is still in the list.
- ScheduleScripts.PerformAll: says nothing of scripts with a refused directive, because the code ends the program there, and leaves out removals where it is about pure definitions, because the code removes loops in `rfactor` only.
- CurrentFunc.WorkIsBilled: is about what a task sees of itself and of the tasks that launched it; parallel tasks share the one current Func of the runtime, and what a sibling stores there in between is not its matter. Work directly in a remote loop, outside of any step that began there, is left out, because the remote state has no current Func yet.
- ProfilerRuntime.ProfilerState.Run: takes up a start when its search of the list has found nothing, takes its reading of the head and of the next free id as one step and its change of the id counter and of the head as another, takes a bill's search as one step, because the links that it follows change only in the sampling thread, and lets a reset come when no start is under way. It models the inner loop of the sampling thread up to the request to stop, not the outer loop that starts over, and takes clocks, the observed Func and the observed threads as inputs; a search that never ends, which only a ring can cause, ends the run.
- ProfilerRuntime.PipelineStats.Bill: keeps the number of samples and the ids unbounded, because the code's `int` counters overflow only after 2^31 samples or Funcs.
- ReductionFactoring.Rfactor: starts from the reduction loops after the splits in the history have been applied to the update (`ApplySplit` is not part of this model), and takes the prover's answer as given, trusted only when it says yes; `prove_associativity` is not part of this model.
- ReductionFactoring.Rfactor: refuses pairs that mark fewer loops than there are pairs with an error of its own, where the code fails later: in `purify`, which no longer finds the RVar, or at the assertion in halide/src/modified/Func.cpp:883.
- LoopCoverage.UpdateStageIsSound: takes split factors as positive constants and the meaning of a split from its documentation and comments; so does `PureCoverage.PureStageIsSound`.
- FunctionGraph.Define: leaves out types, schedules, output buffers, extern definitions and weak pointers; operators are uninterpreted.
- DeepCopy.DeepCopyEnvironment: copies names, arguments and definitions; schedules, extern arguments and the other copied fields are left out, and so is the new environment map.
- PapiProfiling.InjectPAPIProfiling.Mutate: a statement with other substatements is one `Scope` or `If`; the allocation, naming and start-up statements around the whole pipeline are left out except for the counts and name tables, and allocation sizes are not tracked.
- IntegerDivision.LowerDiv: table rows are inputs with their reciprocal bound as hypothesis; vectors, floating point and the shift lowerings are left out.
- BufferAddressing.HalideBuffer.AddressOf: wraps 32-bit products around where C leaves their overflow undefined.
- Loop kinds and their effects (`parallel`, `vectorize`, `unroll`, GPU and Hexagon scheduling), `specialize`, `compute_with`, `prefetch`, wrappers and clones.
- The rules on races and atomics.
- PAPI, LIKWID and perf counters, clocks, printing and CSV output, the reports, linking and JIT.
- Targets and their features, error buffers, and the second copies of the runtime and the slot table (`papi_profiler_alt.cpp`, `papi_api.c`).
