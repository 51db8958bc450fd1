# DESAN and the network-simplex tree update: a verified model

DESAN is a compiler pass that finds redundant sanitizer checks in LLVM IR and
removes them. The repository also carries its motivating example, the tree
update of a network-simplex solver. This project models both in Dafny and
proves what they keep, what they compute and what they preserve.

Check everything with `dafny verify dfyconfig.toml`.

## The tree update

`update_tree` works on a tree of nodes linked by `pred`, `child`, `sibling`
and `sibling_prev`. The model is a class `Node` with those fields, changed in
place by the same assignments in the same order.

- `Ancestry` - parent maps, ancestors, subtrees and their sizes, and what moving a subtree does to them.
- `TreeUpdate` - the linked structure, the list surgery, and the re-rooting loop with its invariant.
- `PotentialWalk` - the goto traversal as a program counter over its labels.
- `TreePivot` - the walks to the common ancestor, and the whole update.
- `TreeBalance` - conservation of flow, the flow of every arc, the exchange of the basic arc, arcs that still join nodes with their parents, and kept potential differences.

The field called `depth` is a subtree size. The update is proved for a
well-formed tree with right sizes in which `iplus` is at or below `iminus`,
`jminus` is the parent of `iminus`, `jplus` is not below `iminus`, and `w` is
a common ancestor (or equal) of `jminus` and `jplus`, not necessarily the lowest. Only
the theorems on flow and on the ends of arcs need orientations to be 0 or 1.

`TreeWitness` builds a small tree that meets these assumptions and pivots on it.

## The pass

A function is a value of type `IR.Func`: blocks of instructions, instructions
with operands, and the block of each instruction. The classes of the pass are
classes here, with the function in a mutable field.

- `IR`, `Semantics` - the language and its runs. What an instruction computes, does to the world and shows is a parameter; control flow, PHIs and data flow are fixed.
- `SliceSpec`, `SliceRemover` - collecting a slice, erasing its dead part, bypassing a report block, removing a check.
- `Bypass`, `BypassMeaning` - the bypassed function, its edges, and why its runs are those of the original.
- `ErasureMeaning` - the same for erasing a check call where it stands, with its dead slice.
- `Guard` - when the entry block is safe from being taken for a report block.
- `Health`, `Merge` - the invariant that no step deletes a check it was not asked to delete, including CFG cleanup.
- `Removal`, `RemovalMeaning` - what removing one check makes of a function, and why that cannot be noticed but for its reports.
- `MergeMeaning`, `WholeMeaning` - dominance, why merging blocks of a function in SSA form cannot be noticed, and the same for the whole removal of a check.
- `Retention`, `Eliminator` - the retention automaton, marking, and the removal of all marked checks.
- `CheckGraph`, `VariableGroups` - reachability between checks, the key order, and the grouping by variable.
- `RegionTrace`, `RegionWalk`, `UseSearch` - tracing a checked address to a base and an offset, where the answers lie, and the search that classifies an access.
- `Collector` - counting checks and choosing the core ones.

### Assumptions

The code relies on the following and does not test it. Each is a `requires`.

- `Healthy`: the function is well formed, every block is reachable before removal starts, and no instruction uses the result of a check call. That the report block is not the entry block is not assumed; see below for what happens if it is.
- `Skippable`, for meaning across a report block that falls through: no value defined in the report block is used outside it, the fallthrough block has no PHIs, and executing the report block returns, changes nothing in the world and shows only reports of its check. Runs that never enter the report block need none of this.
- `Silent`, for meaning across erasure: the erased instructions change nothing in the world and show only reports of the check.
- `Proper`, for meaning across the merging of blocks: a value is used only in blocks that its block dominates, and PHIs have entries for exactly the predecessors of their block, equal ones for equal predecessors. Bypassing, erasing and merging keep that.

`Witness` gives a function of the inline-ASan shape, and a machine, that meet `Healthy`, `Guarded` and `Skippable`.

### Where the code and what one may expect differ

- `bypassReportBlock` does not ask whether the report block is the entry block. It has no predecessors then, so the test passes, and the entry block is deleted: `Witness.EntryBlockIsDeleted` gives a function, and `RemoveCheckSlice` states the exact condition for one check. For a whole run over many marks the checkable condition is `Guard.Guarded`. Call a block loose if it holds a marked plain check, but neither an instruction that no step removes nor a check that stays. The function is guarded if its entry block holds such an instruction or check, or if the entry block is not loose and every edge to a loose block comes from a conditional branch with two different targets, not both loose. Bypassing, erasing and merging keep that.
- A constant-expression cast has no arm of its own in the tracer. It is answered with the normalized base and a known offset of zero, so the offsets of GEPs inside the expression are lost: the addresses of two fields of a global, cast to integers, get the same region and, even with static offsets told apart, the same group. `RegionTrace.ConstantCastClaim` and `VariableGroups.ConstantCastsShareAGroup` say exactly when that is right; soundness covers the constant casts for which it is.
- `HasStaticByteOffset` is kept across truncations, sign extensions, sums of other widths, sums of two unknowns or of two constants, and other operators. There the claim value = base + offset holds iff the operand fits, its sign bit is clear, the sum does not overflow, the right side is zero, or the constants are equal; for other operators there is an environment that breaks it. Beyond depth 32 the offset below the point where the tracer stops is lost at a merge; `RegionTrace.DepthLimitIsSharp` shows that the limit is exact.
- `normalizeVariable` shares one visited set between the operands of a select or a PHI. When their walks meet before the leaf, the second search stops at the meeting point and the merge keeps its own name, although both lead to one variable: `RegionWalk.SelectVariable` gives the exact condition.
- The comment on the retention policy speaks of the first READ after a WRITE or UNKNOWN barrier. In effect a READ is dropped iff the access right before it in the group is a READ.
- In `bypassReportBlock` the exits behind the commit loop (lines 419-423) are unreachable.
- In `canEraseInstruction` the test that all users lie in the slice adds nothing, since an erased instruction must have no users.
- `identifyCoreChecks` continues past entries below the ratio instead of stopping; as ratios fall along the list, the result is a prefix all the same.

## Model

| member | source | states |
|---|---|---|
| `TreePivot.UpdateTree` | motivating_example/treeup.c:49-147 | The whole update on a linked tree with right sizes: afterwards the links are one tree in which the path from `iplus` to `iminus` is reversed under `jplus` and every other parent is as before; `depth` is the subtree size at every node; the potentials of exactly the nodes below `iminus` have moved, all by one amount, and the difference of potentials between tail and head of `bea` has grown by sigma, whichever end is `iplus`; orientation, flow, arc and size of every node in closed form |
| `TreePivot.RerootTree` | motivating_example/treeup.c:79-120 | The re-rooting as a whole: a linked tree over the same nodes, parents and node data in closed form, sizes off only above `jminus` and `jplus` |
| `TreeUpdate.Reroot` | motivating_example/treeup.c:79-120 | The while loop ends, and at its exit the invariant of every loop head holds for the full path: one tree, sizes off by a known amount, data handed along the path |
| `TreeUpdate.RerootPassAt` | motivating_example/treeup.c:84-120 | One pass takes the invariant of a loop head to that of the next; the tree is the old one with the subtree of `temp` moved to the front of the children of `new_pred` |
| `TreeUpdate.RerootStep` | motivating_example/treeup.c:86-117 | A pass keeps links and the size accounting and exchanges the data carried with the data of `temp` |
| `TreeUpdate.Rehang` | motivating_example/treeup.c:86-98 | The list surgery on `pred`, `child`, `sibling`, `sibling_prev` implements moving a subtree to be a first child, and the result is a well-formed linked tree |
| `TreeUpdate.RehangLists` | motivating_example/treeup.c:86-98 | All sibling lists after the surgery: `temp` left its old list and heads its new one, every other list is untouched |
| `TreeUpdate.Unlink` | motivating_example/treeup.c:86-90 | Unlinking takes exactly `temp` out of the doubly linked list of its parent |
| `TreeUpdate.LinkFirst` | motivating_example/treeup.c:94-98 | Linking makes `temp` the head of the list of `new_pred` |
| `TreeUpdate.Exchange` | motivating_example/treeup.c:100-117 | The arc of `temp` turned round, its flow plus or minus delta and the complement of its size are carried on; `temp` takes what was carried |
| `TreeUpdate.MoveFirstWellFormed` | motivating_example/treeup.c:93-98 | Moving a subtree to a node outside it keeps a tree with matching child lists |
| `TreeUpdate.RerootReady` | motivating_example/treeup.c:84-91 | At every loop head `temp` still has its old parent and neither `new_pred` nor `jplus` lies below it, so the move is legal |
| `TreeUpdate.RerootPass` | motivating_example/treeup.c:84-120 | A pass extends the closed form of the tree from k to k+1 moved path nodes |
| `TreeUpdate.SizeStep` | motivating_example/treeup.c:106-117 | The shift `depth_iminus - depth_temp` keeps the relation between `depth` and the true subtree sizes through a pass, at every node |
| `TreeUpdate.PathUpFacts` | motivating_example/treeup.c:79-120 | The path from `iplus` up to `iminus` is exactly the set of nodes between them, each the child of the next |
| `Ancestry.MoveAbove` | motivating_example/treeup.c:93-98 | How the ancestor relation changes when a subtree is moved, both directions |
| `Ancestry.MoveKeepsTree` | motivating_example/treeup.c:93-98 | The parent map after a move is again one tree, with explicit ranks as witness |
| `Ancestry.MoveSizes` | motivating_example/treeup.c:93-98 | Subtree sizes after a move: lost above the old place, gained above the new one |
| `PotentialWalk.RaisePotentials` | motivating_example/treeup.c:55-75 | The goto traversal terminates and adds sigma once to each node below `iminus` and to no other |
| `PotentialWalk.StepDown` | motivating_example/treeup.c:57-60 | What is left to visit does not change when the walk descends to a first child or finds none |
| `PotentialWalk.StepOn` | motivating_example/treeup.c:66-73 | What is left to visit does not change when the walk goes to the next sibling or back up |
| `TreePivot.Walk` | motivating_example/treeup.c:124-139 | A repair loop ends at `w` and changes exactly the nodes strictly below `w` on its walk |
| `TreePivot.RepairAbove` | motivating_example/treeup.c:122-147 | The four repair loops: sizes are right afterwards, and the flows on both walks are in closed form |
| `TreePivot.WalksFit` | motivating_example/treeup.c:122-147 | The walks in the re-rooted tree are those of the old tree, for any common ancestor `w` |
| `TreePivot.FinalSize` | motivating_example/treeup.c:122-147 | Between the lowest common ancestor and `w` the corrections cancel, so the size is right |
| `TreeBalance.FlowIsConserved` | motivating_example/treeup.c:79-147 | Net outflow of every node over the tree arcs is what it was, counting the entering and the leaving arc; if the walks move no flow, exactly the cycle amount is missing between `jminus` and `jplus` |
| `TreeBalance.OutflowAlong` | motivating_example/treeup.c:100-117 | Flow balance after k passes of the re-rooting loop |
| `TreeBalance.OutflowWalk` | motivating_example/treeup.c:124-139 | A walk moves its amount from `w` to its start and leaves all nodes between in balance |
| `TreeBalance.BasisExchange` | motivating_example/treeup.c:105-117 | For every arc, the number of nodes that hold it drops by one for the old arc of `iminus` and grows by one for `bea` |
| `TreeBalance.DifferencesKept` | motivating_example/treeup.c:49-75 | Potential differences along all arcs of the new tree but `bea` are kept |
| `TreeBalance.PathReversed` | motivating_example/treeup.c:79-120 | The new parents: `iplus` hangs under `jplus`, each node of the path under its old child, every other node where it was |
| `TreeBalance.ArcsStillFit` | motivating_example/treeup.c:100-117 | If every basic arc joins its node with the parent in the direction its orientation tells, and `bea` joins `iplus` with `jplus`, then this is so afterwards |
| `TreeBalance.ArcFlow` | motivating_example/treeup.c:100-147 | The flow of every basic arc that stays: on the `jplus` side of the cycle it gains delta if it has the cycle's orientation and loses delta otherwise, on the path and the `jminus` side the other way round, elsewhere it is unchanged |
| `SliceRemover.CheckSliceRemover.AddInstruction` | lib/CheckSliceRemover.cpp:228-239 | An instruction is added iff it is sanitizer-only and new |
| `SliceRemover.CheckSliceRemover.AddBlock` | lib/CheckSliceRemover.cpp:241-255 | A new block is added with all its sanitizer-only instructions and nothing else |
| `SliceRemover.CheckSliceRemover.CollectBackwardFromInstruction` | lib/CheckSliceRemover.cpp:257-265 | The slice grows by the least set closed over sanitizer-only operands; it terminates on PHI cycles |
| `SliceRemover.CheckSliceRemover.CollectBackwardFromValue` | lib/CheckSliceRemover.cpp:267-277 | The same for one operand, which is skipped when it is no new sanitizer-only instruction |
| `SliceRemover.CheckSliceRemover.CollectOperandSlice` | lib/CheckSliceRemover.cpp:100-101 | The first phase collects exactly the check call and what is reached backwards over operands through sanitizer-only instructions |
| `SliceSpec.LeastIsBackwardSlice` | lib/CheckSliceRemover.cpp:257-277 | The least closed set is the set of instructions reachable backwards from the check |
| `SliceRemover.CheckSliceRemover.CollectControlFlowSlice` | lib/CheckSliceRemover.cpp:279-307 | The slice blocks are exactly those reached backwards through sanitizer-only predecessors, and the start block if it is sanitizer-only. Every sanitizer-only terminator that decides about the way to them is in the slice with its operands, and whatever stands outside the slice blocks has its operands there; every member stands in a slice block or is needed by the check or by such a terminator. No plain call of another check gets in |
| `SliceSpec.FlowDone` | lib/CheckSliceRemover.cpp:288-306 | An empty worklist means that every such block has been found |
| `SliceRemover.CheckSliceRemover.CollectCheckSlice` | lib/CheckSliceRemover.cpp:95-108 | Both phases: the backward slice of the check is contained, the blocks are exact, and no instruction is missing or there without a reason, as above |
| `SliceSpec.CollectedTerm` | lib/CheckSliceRemover.cpp:292-299 | Adding a terminator that decides about the way to the check, with its operands, adds only what the terminator depends on |
| `SliceSpec.CollectedBlock` | lib/CheckSliceRemover.cpp:301-304 | Adding a block adds its sanitizer instructions and nothing else |
| `SliceSpec.GrownUpper` | lib/CheckSliceRemover.cpp:257-277 | Following operands adds nothing that the instruction does not depend on |
| `SliceRemover.CheckSliceRemover.IsSanitizerOnlyBlock` | lib/CheckSliceRemover.cpp:309-322 | True iff all instructions are sanitizer-only and no check but the target stands in the block |
| `Bypass.SanitizerKindExact` | lib/CheckSliceRemover.cpp:110-144 | What is not sanitizer-only: writes, allocations, atomic and volatile accesses, side effects, switches and returns, and calls other than checks, MemSan runtime calls, empty assembly and no-op intrinsics |
| `Bypass.ServesOnlyExact` | lib/CheckSliceRemover.cpp:309-322 | The same for a block, with the target as its only check |
| `SliceSpec.ErasableExact` | lib/CheckSliceRemover.cpp:326-355 | Of these, terminators and calls that are only empty assembly are never erased, and all others can be |
| `SliceRemover.CheckSliceRemover.CanEraseInstruction` | lib/CheckSliceRemover.cpp:324-355 | True iff the instruction is an erasable member of the slice without users; the test for users inside the slice adds nothing |
| `SliceRemover.CheckSliceRemover.EraseDeadSliceInstructions` | lib/CheckSliceRemover.cpp:439-456 | Erases exactly the least set of erasable slice instructions that contains all their users, counts it, and leaves no reference to an erased instruction |
| `SliceSpec.SliceOrderIsIrrelevant` | lib/CheckSliceRemover.cpp:443-453 | Two slices that list the same instructions, in whatever order, leave the same function |
| `SliceSpec.LeastIsDetached` | lib/CheckSliceRemover.cpp:443-453 | The erased set holds erasable slice instructions only, with all their users, so nothing that is left refers to it |
| `SliceSpec.ErasingDone` | lib/CheckSliceRemover.cpp:443-453 | When a round erases nothing the least set has been erased |
| `SliceRemover.CheckSliceRemover.Validate` | lib/CheckSliceRemover.cpp:369-398 | True iff every predecessor of the report block branches, and there is one other block such that it and the report block lead nowhere else |
| `Bypass.DivertsToSafe` | lib/CheckSliceRemover.cpp:374-397 | The block a predecessor is redirected to is the one the edges determine, on whichever arm of the branch the report block is |
| `Bypass.CanBypassExact` | lib/CheckSliceRemover.cpp:357-398 | When a bypass succeeds, in terms of instructions and edges alone, both directions |
| `SliceRemover.CheckSliceRemover.Commit` | lib/CheckSliceRemover.cpp:400-417 | All predecessors are redirected and nothing else changes |
| `Bypass.CommitStep` | lib/CheckSliceRemover.cpp:404-416 | One pass of the commit loop redirects one predecessor more; the choice of target is still possible |
| `Bypass.CommitDone` | lib/CheckSliceRemover.cpp:419-423 | After the commit loop the report block has no predecessor, so the two late exits cannot fire |
| `SliceRemover.CheckSliceRemover.BypassReportBlock` | lib/CheckSliceRemover.cpp:357-427 | All or nothing: succeeds iff the block holds nothing but sanitizer instructions and this check, ends in an unconditional branch or `unreachable`, and every predecessor can be diverted to one other block; then the function is the bypassed one, otherwise it is unchanged |
| `Bypass.BypassedEdge` | lib/CheckSliceRemover.cpp:400-426 | The edges of the bypassed function, both directions; a redirected block leads to the block its edges and those of the report block determine |
| `Bypass.BypassKeepsReachability` | lib/CheckSliceRemover.cpp:400-426 | A block is reachable after the bypass iff it was reachable before and is not the report block |
| `BypassMeaning.NeverReports` | lib/CheckSliceRemover.cpp:357-427 | Every run that never enters the report block is step for step a run of the bypassed function |
| `BypassMeaning.FallsThroughForward` | lib/CheckSliceRemover.cpp:369-417 | If the report block falls through, every old run has a new run with the same trace once the reports of the check are erased |
| `BypassMeaning.FallsThroughBackward` | lib/CheckSliceRemover.cpp:369-417 | Conversely every new run comes from an old run with that trace |
| `BypassMeaning.SameOutcomes` | lib/CheckSliceRemover.cpp:357-427 | Both functions finish in the same worlds with the same traces, reports of the check erased |
| `SliceRemover.CheckSliceRemover.EraseDirectCheckCall` | lib/CheckSliceRemover.cpp:429-437 | Erases the call iff it is a plain call without users |
| `ErasureMeaning.ErasureForward` | lib/CheckSliceRemover.cpp:429-456 | Erasing instructions that nothing left refers to: every old run has a matching new run |
| `ErasureMeaning.ErasureBackward` | lib/CheckSliceRemover.cpp:429-456 | Conversely every new run comes from an old run |
| `ErasureMeaning.ErasureUnnoticed` | lib/CheckSliceRemover.cpp:429-456 | Hence both functions finish in the same worlds with the same traces |
| `ErasureMeaning.CheckRemovalUnnoticed` | lib/CheckSliceRemover.cpp:164-170 | Erasing a check call and then the dead part of its slice cannot be noticed, except that its reports are missing |
| `SliceRemover.CheckSliceRemover.CleanupDeadInstructions` | lib/CheckSliceRemover.cpp:176-199 | Deletes exactly the least set of trivially dead kinds that contains all their users, and leaves no dead instruction |
| `Guard.DeadKindExact` | lib/CheckSliceRemover.cpp:187-188 | Which kinds those are: no terminators, writes, atomics or calls, no volatile loads, no side effects |
| `Removal.DeadSetLeavesNone` | lib/CheckSliceRemover.cpp:176-199 | Without that set, every instruction of such a kind has a user |
| `SliceRemover.CheckSliceRemover.EliminateUnreachableBlocks` | lib/CheckSliceRemover.cpp:208 | Exactly the unreachable blocks go; nothing changes when there are none |
| `SliceRemover.CheckSliceRemover.MergeBlockIntoPredecessor` | lib/CheckSliceRemover.cpp:216 | A block is merged iff it has one predecessor, which ends in a branch to it alone, and no PHI of it is its own operand; a merge folds all its PHIs, appends the rest, removes a block and keeps every check, and otherwise nothing changes |
| `SliceRemover.MergeableExact` | lib/CheckSliceRemover.cpp:216 | Which blocks can be merged, in terms of edges and PHIs alone |
| `SliceRemover.CheckSliceRemover.SimplifyCFG` | lib/CheckSliceRemover.cpp:201-226 | Terminates after a number of merges and nothing else, keeps every check, leaves no block that can be merged, and says whether the function has changed |
| `Merge.SpliceKeeps` | lib/CheckSliceRemover.cpp:216 | Appending a block to its only predecessor keeps validity, reachability and all checks |
| `Merge.FoldKeeps` | lib/CheckSliceRemover.cpp:216 | So does folding a PHI of such a block |
| `Health.MinusKeeps` | lib/CheckSliceRemover.cpp:439-456 | Erasing harmless instructions keeps the function healthy and loses exactly the checks among them |
| `Health.SliceKeeps` | lib/CheckSliceRemover.cpp:164-170 | Erasing the dead slice of a check loses no other check |
| `Health.BypassKeeps` | lib/CheckSliceRemover.cpp:357-427 | Bypassing a report block other than the entry block loses its check and no other |
| `SliceRemover.CheckSliceRemover.StripCheck` | lib/CheckSliceRemover.cpp:146-171 | Up to the merging of blocks, the function becomes exactly what the way taken makes of it: bypassed, or without the call and the least dead part of the slice of this check, and then without dead instructions; none is left |
| `SliceRemover.CheckSliceRemover.RemoveCheckSlice` | lib/CheckSliceRemover.cpp:146-174 | Removes the check iff it is a plain call. It leaves a healthy function that has lost exactly this check iff the check does not stand in an entry block that can be bypassed; otherwise the entry block is gone. Then the function is what the way taken makes of it after some merges, and no block is left that can be merged. On failure nothing changes |
| `Removal.WayDecides` | lib/CheckSliceRemover.cpp:146-171 | The same before any block is merged, as a condition on the function and the check alone, in both directions |
| `Witness.EntryBlockIsDeleted` | lib/CheckSliceRemover.cpp:357-427 | A function on which it fails: a check and a branch in the entry block |
| `Guard.GuardedIsSafe` | lib/CheckSliceRemover.cpp:361-367 | In a guarded function no marked plain check stands in an entry block that can be bypassed |
| `Health.MinusGuards` | lib/CheckSliceRemover.cpp:429-456 | Erasing keeps a function guarded |
| `Health.BypassGuards` | lib/CheckSliceRemover.cpp:400-426 | So does bypassing the report block of a marked check |
| `Merge.SplicedGuards` | lib/CheckSliceRemover.cpp:216 | So does merging a block into its predecessor |
| `RemovalMeaning.RemovalUnnoticed` | lib/CheckSliceRemover.cpp:146-171 | What the remover makes of a function before it merges blocks has the same outcomes, reports of the check erased, whichever way it took |
| `RemovalMeaning.GoodRunsKept` | lib/CheckSliceRemover.cpp:400-426 | Where the report block does not return, every run that does not report is matched all the same |
| `MergeMeaning.DominatesAnti` | lib/CheckSliceRemover.cpp:216 | Two reachable blocks that dominate each other are the same block |
| `MergeMeaning.FoldIsIncoming` | lib/CheckSliceRemover.cpp:216 | The value that replaces a folded PHI is the one that comes in over the only edge, and never the PHI itself |
| `MergeMeaning.SteadyStep` | lib/CheckSliceRemover.cpp:216 | Wherever the PHI may be used, it has the value that replaces it, at every step of every run |
| `MergeMeaning.FoldUnnoticed` | lib/CheckSliceRemover.cpp:216 | Folding a PHI of a block with one predecessor keeps all outcomes of a function in SSA form |
| `MergeMeaning.ProperFolded` | lib/CheckSliceRemover.cpp:216 | It leaves a function in SSA form |
| `MergeMeaning.SpliceForward` | lib/CheckSliceRemover.cpp:216 | Appending a block without PHIs to its only predecessor: every run before has a run after with the same trace |
| `MergeMeaning.SpliceBackward` | lib/CheckSliceRemover.cpp:216 | Conversely every run after comes from a run before |
| `MergeMeaning.ProperSpliced` | lib/CheckSliceRemover.cpp:216 | It leaves a function in SSA form |
| `MergeMeaning.MergesUnnoticed` | lib/CheckSliceRemover.cpp:211-222 | Any number of merges keeps all outcomes of a function in SSA form |
| `WholeMeaning.DominatesBypassed` | lib/CheckSliceRemover.cpp:400-426 | Blocks other than the report block dominate after the bypass what they dominated before |
| `WholeMeaning.ProperAfter` | lib/CheckSliceRemover.cpp:146-171 | Whichever way it takes, the remover leaves a function in SSA form before it merges blocks |
| `WholeMeaning.WholeRemovalUnnoticed` | lib/CheckSliceRemover.cpp:146-174 | Removing a check, with the cleanup and the merging of blocks, cannot be noticed: a function in SSA form finishes in the same worlds with the same traces, reports of the check erased |
| `WholeMeaning.GoodRunsFinish` | lib/CheckSliceRemover.cpp:146-174 | Where the report block does not return, what a run that does not report finishes with, the final function finishes with as well |
| `Retention.ReadRetentionState.ShouldKeep` | lib/RedundantCheckEliminator.cpp:21-52 | The automaton answers as its closed form says, after any history |
| `Retention.KeptTwice` | lib/RedundantCheckEliminator.cpp:19-53 | The policy is idempotent |
| `Retention.KeptBarriers` | lib/RedundantCheckEliminator.cpp:17-53 | Every WRITE and UNKNOWN survives, and a group with a READ keeps one |
| `Retention.KeptApart` | lib/RedundantCheckEliminator.cpp:94-107 | No two READs that follow each other survive |
| `Retention.KeptRun` | lib/RedundantCheckEliminator.cpp:94-107 | Of a run of READs exactly one survives |
| `Retention.KeptJoin` | lib/RedundantCheckEliminator.cpp:94-107 | Where no READ follows a READ the parts of a history are treated separately |
| `Retention.DroppedFailureDetected` | lib/RedundantCheckEliminator.cpp:94-107 | On a straight-line run, behind every dropped failing check stands an earlier kept failing READ with only READs between |
| `Eliminator.RedundantCheckEliminator.MarkForRemoval` | lib/RedundantCheckEliminator.cpp:61-88 | A check is marked and recorded once; the record carries no pointer to it |
| `Eliminator.RedundantCheckEliminator.MarkGroup` | lib/RedundantCheckEliminator.cpp:94-107 | Exactly the READs right behind a READ of the group are marked |
| `Eliminator.RedundantExact` | lib/RedundantCheckEliminator.cpp:94-107 | In terms of the group alone: a READ is marked iff the nearest member before it that has a call is a READ |
| `Eliminator.RedundantCheckEliminator.EraseCalls` | lib/RedundantCheckEliminator.cpp:119-126 | The loop removes exactly the marked plain calls iff the function still has its entry block, and a guarded function does; no removal deletes a call that is still marked |
| `Eliminator.RedundantCheckEliminator.EraseMarkedChecks` | lib/RedundantCheckEliminator.cpp:112-131 | Iff the entry block is still there, marked plain calls are gone, unmarked checks and marked invokes survive; then checks before = checks after + Removed, and no block is left that can be merged, if anything was marked. A guarded function keeps its entry block |
| `Eliminator.RedundantCheckEliminator.EliminateRedundantChecks` | lib/RedundantCheckEliminator.cpp:90-110 | For every check and all groups: it disappears iff it is a plain call and redundant in its group, as long as the entry block is still there, which it is if the function is guarded for the redundant checks |
| `CheckGraph.InstructionComesBefore` | lib/CheckGraphBuilder.cpp:45-56 | True iff the second instruction stands later in the block |
| `CheckGraph.Search` | lib/CheckGraphBuilder.cpp:301-324 | The breadth-first search answers true iff there is a path |
| `CheckGraph.IsReachable` | lib/CheckGraphBuilder.cpp:292-325 | Exact: a path between different blocks, strict order within one |
| `CheckGraph.ComputeReachability` | lib/CheckGraphBuilder.cpp:220-238 | Successor and predecessor lists are the related nodes in node order |
| `CheckGraph.ListsAreInverse` | lib/CheckGraphBuilder.cpp:220-238 | The lists hold no node twice and are inverse to each other |
| `CheckGraph.StrictOrder` | lib/CheckGraphBuilder.cpp:220-238 | On an acyclic control flow graph the relation is a strict partial order |
| `VariableGroups.KeyOrder` | lib/CheckGraphBuilder.cpp:120-145 | The key order is strict, transitive, and total up to a static offset whose flag is off |
| `VariableGroups.SameGroup` | lib/CheckGraphBuilder.cpp:270-283 | Two variables share a group iff sanitizer and base agree, the static starts agree if they are told apart, and the offsets of those without a start agree unless they are grouped by base |
| `VariableGroups.LowerBound` | lib/CheckGraphBuilder.cpp:180 | The place of a key among groups sorted by the order |
| `VariableGroups.Push` | lib/CheckGraphBuilder.cpp:180 | Inserting through the order alone keeps the groups the partition by key equality |
| `VariableGroups.CheckGraphBuilder.GroupChecksByVariable` | lib/CheckGraphBuilder.cpp:155-186 | The groups are the partition of all analyzable core checks by key, in module order; a second call changes nothing |
| `VariableGroups.CheckGraphBuilder.GroupFunction` | lib/CheckGraphBuilder.cpp:165-181 | One function adds its selected checks and no others |
| `VariableGroups.OneGroupEach` | lib/CheckGraphBuilder.cpp:155-186 | Every check is in exactly one group, the one with its key |
| `VariableGroups.WithKeyJoin` | lib/CheckGraphBuilder.cpp:180 | A group lists its variables in the order in which they were found |
| `VariableGroups.InModuleExact` | lib/CheckGraphBuilder.cpp:162-180 | A variable is grouped iff some call in a function with a body is a check of it, and one of the core checks if there are any |
| `VariableGroups.SelectedJoin` | lib/CheckGraphBuilder.cpp:165-181 | The selection keeps the order of the calls |
| `VariableGroups.SelectedOne` | lib/CheckGraphBuilder.cpp:170-180 | What is selected of one call, with and without core checks |
| `VariableGroups.SameGroupSameAddress` | lib/CheckGraphBuilder.cpp:270-283 | With static offsets told apart, two checks of a group whose offsets are known and whose addresses are traceable guard the same address in every environment |
| `VariableGroups.ConstantCastsShareAGroup` | lib/CheckGraphBuilder.cpp:270-283 | Not so for constant casts: over one base they share a group under every switch, and guard the same address iff their offsets are congruent |
| `VariableGroups.GlobalFieldsShareAGroup` | lib/CheckGraphBuilder.cpp:270-283 | A failing input: two fields of one global |
| `VariableGroups.LoadsShareAGroup` | lib/CheckGraphBuilder.cpp:270-283 | Checks of two loads through one pointer share a group under every switch |
| `VariableGroups.DroppedReadIsCovered` | lib/RedundantCheckEliminator.cpp:94-107 | With static offsets told apart, a dropped READ with a known offset guards the address of an earlier kept READ of its group, with only READs between |
| `RegionTrace.TraceImpl` | lib/CheckedVariableAnalyzer.cpp:768-900 | The recursive tracer computes its specification |
| `RegionTrace.TraceIncoming` | lib/CheckedVariableAnalyzer.cpp:807-836 | The merge loop over PHI inputs keeps a region iff all inputs agree on it |
| `RegionTrace.NormalizeImpl` | lib/CheckedVariableAnalyzer.cpp:1058-1120 | normalizeVariable with its visited set, shared between the inputs of a PHI, and its early exit |
| `RegionTrace.TraceAddress` | lib/CheckedVariableAnalyzer.cpp:763-766 | The answer is sound in every environment for traceable values at most 32 levels deep |
| `RegionWalk.TraceAlong` | lib/CheckedVariableAnalyzer.cpp:768-897 | The answer for a value is that for the end of the walk over the operands followed: the same base; known iff the end's is and no load, GEP without a constant offset or sum that gives up lies between; the offsets met on the way; the start moved by theirs |
| `RegionWalk.WalkDecides` | lib/CheckedVariableAnalyzer.cpp:763-899 | For a walk that ends at a leaf, repeats or is cut off: the base is that leaf, or the value where the walk repeats or has gone 33 steps; the offset is unknown iff some value on the walk gives it up; offsets and start are those of the walk |
| `RegionWalk.CompleteWalk` | lib/CheckedVariableAnalyzer.cpp:768-776 | Every value has a complete walk: it ends, repeats or is cut off |
| `RegionWalk.FirstNonConstantExact` | lib/CheckedVariableAnalyzer.cpp:139-145 | Which operand of a sum is followed |
| `RegionWalk.StripAlong` | lib/CheckedVariableAnalyzer.cpp:778 | Stripping ends at the first value behind the pointer casts that is none |
| `RegionWalk.LoadsShareABase` | lib/CheckedVariableAnalyzer.cpp:796-801 | Two loads through one pointer get one base and one list of offsets, and both offsets are unknown |
| `RegionWalk.MergeExact` | lib/CheckedVariableAnalyzer.cpp:812-836 | The inputs of a PHI are merged iff all agree with the first in normalized base, offsets and start |
| `RegionWalk.PhiAnswer` | lib/CheckedVariableAnalyzer.cpp:807-840 | The answer at a PHI: what its inputs agree on, or the PHI itself with unknown offset |
| `RegionWalk.SelectAnswer` | lib/CheckedVariableAnalyzer.cpp:842-865 | The same at a select |
| `RegionWalk.MergeOfOneRegion` | lib/CheckedVariableAnalyzer.cpp:807-865 | A merge all of whose inputs get one region at a leaf answers with this region |
| `RegionWalk.NormalizeDecides` | lib/CheckedVariableAnalyzer.cpp:1058-1120 | The variable of a value is the leaf at the end of its walk, or where the walk repeats or is cut off |
| `RegionWalk.SelectVariable` | lib/CheckedVariableAnalyzer.cpp:1103-1111 | A select has the variable of its operands iff their walks do not meet before the leaf |
| `RegionWalk.PhiVariable` | lib/CheckedVariableAnalyzer.cpp:1089-1101 | A PHI whose inputs lead to variables over walks that meet nowhere else has that variable if it is one, and is its own otherwise |
| `RegionTrace.TraceSound` | lib/CheckedVariableAnalyzer.cpp:768-900 | The induction: at any depth and with any visited set of deeper values |
| `RegionTrace.GepSound` | lib/CheckedVariableAnalyzer.cpp:213-237 | A constant GEP shifts a sound region soundly; any other GEP gives the offset up |
| `RegionTrace.ArithSound` | lib/CheckedVariableAnalyzer.cpp:867-894 | So does adding or subtracting one constant; subtracting from a constant gives the offset up |
| `RegionTrace.ArmSound` | lib/CheckedVariableAnalyzer.cpp:777-899 | One level of the tracer keeps soundness in every arm |
| `RegionTrace.MergeSound` | lib/CheckedVariableAnalyzer.cpp:812-833 | A merged region is right for every input of the PHI |
| `RegionTrace.StaticOffsetIsSound` | lib/CheckedVariableAnalyzer.cpp:768-900 | A known static offset means value = base + offset modulo 2^64, and the base is a leaf |
| `RegionTrace.SlipSound` | lib/CheckedVariableAnalyzer.cpp:1058-1080 | What the normalizer loses on its way through casts and constant GEPs is exactly the sum of their offsets |
| `RegionTrace.SameStartSameAddress` | lib/CheckedVariableAnalyzer.cpp:122-129 | Two addresses with the same base are equal iff their static offsets are |
| `RegionTrace.DirectIsKnown` | lib/CheckedVariableAnalyzer.cpp:768-900 | For casts, constant GEPs and sums with one constant the offset is always known |
| `RegionTrace.ConstantCastClaim` | lib/CheckedVariableAnalyzer.cpp:899 | A constant cast is answered with its normalized base and offset zero, which is right iff the offsets in between sum to zero modulo 2^64 |
| `RegionTrace.ConstantHasSlip` | lib/CheckedVariableAnalyzer.cpp:1069-1080 | That condition is defined for every constant expression |
| `RegionTrace.GlobalFieldsFail` | lib/CheckedVariableAnalyzer.cpp:899 | A failing input: the addresses of two fields of a global, cast to integers, are both answered with the global itself |
| `RegionTrace.TruncationClaim` | lib/CheckedVariableAnalyzer.cpp:803-805 | Across a truncation the claim holds iff the operand's word fits the width |
| `RegionTrace.SignExtensionClaim` | lib/CheckedVariableAnalyzer.cpp:803-805 | Across a sign extension it holds iff the sign bit of the operand is clear |
| `RegionTrace.NarrowSumClaim` | lib/CheckedVariableAnalyzer.cpp:867-894 | For a sum narrower than 64 bits with one constant it holds iff the sum does not leave the width |
| `RegionTrace.UnknownSumClaim` | lib/CheckedVariableAnalyzer.cpp:867-897 | For a 64-bit sum or difference of two unknowns it holds iff the right side is zero |
| `RegionTrace.ConstantSumClaim` | lib/CheckedVariableAnalyzer.cpp:867-881 | For a 64-bit sum of two constants it holds iff they are equal, since the left one counts twice |
| `RegionTrace.OtherOperatorBreaks` | lib/CheckedVariableAnalyzer.cpp:867-897 | For any other operator some environment breaks the claim |
| `RegionTrace.UnknownSumBreaks` | lib/CheckedVariableAnalyzer.cpp:867-897 | So does one for a sum with an unknown leaf on the right |
| `RegionTrace.DepthLimitIsSharp` | lib/CheckedVariableAnalyzer.cpp:774-776 | Under a PHI, a chain of k constant GEPs is claimed rightly iff k is at most 32 |
| `UseSearch.Scan` | lib/CheckedVariableAnalyzer.cpp:1140-1166 | The users of one value: reads, writes and trace-through users, exactly |
| `UseSearch.UserExact` | lib/CheckedVariableAnalyzer.cpp:1140-1166 | Kind by kind, which users read, write or lead on; the check itself and users in other functions do not count |
| `UseSearch.ScanLevel` | lib/CheckedVariableAnalyzer.cpp:1136-1167 | One level of the search visits exactly the new values of the worklist |
| `UseSearch.NextLevel` | lib/CheckedVariableAnalyzer.cpp:1133-1169 | After level d exactly the values within distance d have been visited |
| `UseSearch.InferAccess` | lib/CheckedVariableAnalyzer.cpp:1122-1176 | READ iff a read and no write lies within distance 11, WRITE the other way round |
| `UseSearch.OrderDoesNotMatter` | lib/CheckedVariableAnalyzer.cpp:1136-1166 | The answer does not depend on the order or multiplicity in which users are listed |
| `Collector.SanitizerCheckCollector.RecordCheck` | lib/SanitizerCheckCollector.cpp:166-173 | Counts stay the numbers of recorded checks, add up to the sanitizer totals, and those to the overall total |
| `Collector.BumpedSums` | lib/SanitizerCheckCollector.cpp:170-171 | The sum of the counts of each sanitizer stays its total when a check is recorded |
| `Collector.SanitizerCheckCollector.GetStatsForSanitizer` | lib/SanitizerCheckCollector.cpp:175-216 | One entry per check type with its count and ratio, sorted |
| `Collector.BeforeOrder` | lib/SanitizerCheckCollector.cpp:209-213 | The sort order is strict and transitive, and total on different check types |
| `Collector.BeforeExact` | lib/SanitizerCheckCollector.cpp:280-287 | By falling count, then by the name of the sanitizer, then by check type |
| `Collector.TypeLessMeans` | lib/SanitizerCheckCollector.cpp:209-213 | Strings compare at the first place where they differ, or by which ends first |
| `Collector.RatioShares` | lib/SanitizerCheckCollector.cpp:190-193 | Ratios are shares of the sanitizer's total: they add up, and the whole is 100 |
| `Collector.SortedUnique` | lib/SanitizerCheckCollector.cpp:280-287 | The sorted list is determined by its entries |
| `Collector.MeetingFirst` | lib/SanitizerCheckCollector.cpp:267-275 | Entries that reach the ratio come first in the sorted list |
| `Collector.PickCore` | lib/SanitizerCheckCollector.cpp:266-277 | The entries added are a prefix: at least one, no more than a nonzero limit, after the first only entries that reach the ratio, and all of those unless the limit is exhausted, although the loop continues instead of stopping |
| `Collector.PickedIsUnique` | lib/SanitizerCheckCollector.cpp:266-277 | There is only one such prefix |
| `Collector.SanitizerCheckCollector.IdentifyCoreChecks` | lib/SanitizerCheckCollector.cpp:256-290 | The result is those prefixes of the three sanitizers, sorted together |

## Left out

- Scripts, measured results, build files and SPEC configurations.
- The LLM-assisted analyzer, command-line handling in the pass plugin, and all dump and print functions.
- Name classification of callees: a callee is a record of the facts the pass asks for (a check, a MemSan runtime call, empty inline assembly, a no-op intrinsic), and each call site knows which check it is.
- Integer width in `update_tree`: potentials, flows and sizes are unbounded integers, so overflow of `LONG` is not modelled.
- `treeup.h` is not part of this model; the fields are those that `treeup.c` uses.
- One function stands for the module: the set of touched functions is the flag `touched`, and checks in other functions are simply unrelated.
- `SliceRemover.CheckSliceRemover.Predecessors` lists each predecessor once. A block that branches to the report block with both arms fails validation, so multiplicity never matters for a bypass.
- `removePredecessor` may replace a PHI of the report block that has one input left by that input. Here the entries are only dropped; the block and its PHIs are deleted in the end either way.
- `WholeMeaning.WholeRemovalUnnoticed` is about one check; that a run over many marks cannot be noticed is not composed from it.
- `SliceRemover.CheckSliceRemover.CleanupDeadInstructions`: the number of deleted instructions and the deletion of unused calls to side-effect-free functions are not modelled.
- `SliceRemover.CheckSliceRemover.MergeBlockIntoPredecessor`: only `br` and conditional branches are merged into, not a switch with one destination; merging a conditional branch with equal arms may leave its condition dead, as in the original, which does not clean up again. The theorems on its meaning are for functions in SSA form (`Proper`).
- What happens to a function that has lost its entry block is not modelled: `RemoveCheckSlice` merges no blocks then, and `EraseCalls` stops. LLVM would take the next block in layout order as the entry block.
- `Eliminator.RedundantCheckEliminator.EliminateRedundantChecks`: that the entry block survives is shown for guarded functions; for a single check the condition is exact (`RemoveCheckSlice`), for a set of marks it is sufficient, as the outcome then depends on the order of the set and of the merges.
- `Eliminator.RedundantCheckEliminator.MarkForRemoval`: the printed text and the block name in the record are only dumped and not modelled.
- `SliceRemover.CheckSliceRemover.CollectControlFlowSlice`: the instructions are bounded from both sides and not given as one set; whether the operands of an instruction in a slice block are followed depends on what was added before it.
- `SliceRemover.CheckSliceRemover.CollectCheckSlice`: the same; the slice is closed over operands outside the slice blocks only, because adding a block does not collect the operands of its instructions.
- Instructions erased earlier have no parent; the test for that (line 326) becomes membership of the function, so an erased instruction is never looked at again.
- An invoke of a check is never removed; its report stays.
- `findCheckAnchor`, `computeDominance` and `buildGraphForVariable`: nodes come with their anchor and block.
- `RegionTrace.Trace` leaves out the `Address` field, the tracer for checks other than ASan, and integer types wider than 64 bits. Operands are never null. A cycle made of pointer casts only, possible in unreachable code, ends the trace.
- An environment gives each value one word. A value that is computed anew in a loop has one in each iteration, so the theorems compare addresses within an iteration.
- `Collector.SanitizerCheckCollector.GetStatsForSanitizer`: the overall and run-time ratios of an entry are only printed and not modelled.
- The UBSan and MemSan operand searches, access sizes, and the fallback to a recovered pointer.
- `Collector.SanitizerCheckCollector.IdentifyCoreChecks`: ratios are reals, counters are unbounded, and overall and run-time ratios, which are only printed, are not modelled; neither is the profile.
- Detection of failures over branching control flow: the policy follows program order, so the claim is made for straight-line runs.
