# Control flow, live ranges and bit-field recovery of the decompiler, in Dafny

The decompiler turns a function into a graph of basic blocks and then structures it. This project
models the part of that work where the reasoning is global, and proves what each algorithm leaves
behind for every input, every run or every reachable state:

- **Blocks and edges** (`FlowGraph`, `EdgeLabels`, `EdgePairing`, `EdgeCounts`, `EdgeFlags`, `EdgeOrder`, `Quotient`, `EdgeEdits`).
  Every edge is stored at both of its ends, each end naming the slot of the other. All edge edits keep
  that pairing, change the edge multiset as stated, and collapsing a set of blocks gives the quotient graph,
  whose edges carry the flags of all they stand for.
- **Spanning tree, irreducible edges, loops** (`SpanningTheory`, `SpanningSearch`, `SpanningRoots`,
  `RootLists`, `SpanningFacts`, `SpanningSteps`, `Reducibility`, `IrreducibleSteps`, `ReducibleGraph`,
  `SpanningTree`, `StaleRoot`). An explicit-stack depth-first search that classifies every edge, the search
  for irreducible edges on top of it, the proof that what is left is a reducible graph, and when the list of
  roots is that of the trees.
- **Dominators** (`DominatorTheory`, `Dominators`, `RootDominance`). The iterative solver, with and without
  a virtual root: it terminates, and its fixed point is the closest strict dominator over all walks.
- **Tracing the loop-DAG** (`LoopDag`, `TraceTree`, `TraceLedger`, `BadEdges`, `TraceRun`, `TraceDag`). Traces are
  pushed through the loop-DAG; when all are stuck, the best scored candidate is cut and becomes a goto. A
  ghost ledger says at each step who holds each edge: a pending trace, a cut, or a retired branch. A whole
  run is a sequence of legal moves, each made in turn.
- **Live ranges** (`CoverBlocks`, `CoverTheory`, `CoverLiveness`, `CoverUses`, `Covers`). The cover of a
  varnode, built backwards from its reads, is exactly its liveness in the sense of walks.
- **Bit fields** (`BitWords`, `BitTrace`, `BitSteps`, `FieldLayout`, `BitFieldInsert`, `BitFindings`). A
  store to a container of bit fields is taken apart into INSERTs; folding them over the original value
  rebuilds what was stored, whenever the operations that were followed are traced rightly.

State that the program updates in place is a class with those fields (`BlockArena`, `BlockGraph`,
`TraceDag`, `EdgeArena`, `InsertTransform`, `LiveRange`); the arguments about it are lemmas on values.

`dafny verify dfyconfig.toml` checks everything. Nothing of the original program was executed.

## Model

| member | source | states |
|---|---|---|
| `Dominators.BlockArena.CalcForwardDominator` | src/block.rs:3033-3134 | for any list of roots that has the first block: every other block gets its closest strict dominator over all walks from the entry, with an edge from the entry to each further root; roots get none; the graph, its indices and unlisted blocks are as before, so the virtual root is gone; the error is returned exactly when there is at most one root, the first block has in-edges and is not that root |
| `Dominators.BlockArena.Recompute` | src/block.rs:3077-3110 | the new candidate of a block is the block whose ancestor chain is exactly what the chains of all its solved predecessors have in common |
| `Dominators.BlockArena.Intersect` | src/block.rs:3090-3107 | climbing with two fingers stops where the chain is the intersection of the two chains |
| `Dominators.BlockArena.Solve` | src/block.rs:3065-3116 | the changed-loop ends, and then every block is settled |
| `DominatorTheory.MeetMovesUp` | src/block.rs:3077-3110 | during a pass the recomputed candidate is an ancestor of the stored one, although blocks in front of it may have changed in the same pass |
| `DominatorTheory.UpdateKeepsInvariant` | src/block.rs:3068-3116 | writing a recomputed candidate at one position of a pass keeps the solver's whole invariant at the next position |
| `DominatorTheory.ChangeIsProgress` | src/block.rs:3068-3116 | a candidate that differs from the stored one strictly lowers the total weight, so the changed-loop ends |
| `DominatorTheory.SolutionIsExact` | src/block.rs:3068-3116 | at a fixed point each non-entry candidate is the closest strict dominator over all walks |
| `RootDominance.JoinedDominators` | src/block.rs:2390-2396 | with the virtual root folded into the entry, a block dominates exactly when it is the entry or lies on every walk from every root |
| `RootDominance.StoredIsClosestIff` | src/block.rs:3087-3132 | with several roots the stored block is the closest one common to the walks from all roots if and only if some other block is common to them; otherwise the entry is stored |
| `RootDominance.TwoRootsMistaken` | src/block.rs:3087-3132 | a block joined from two roots has no common strict dominator, yet the entry is stored for it |
| `SpanningTree.BlockGraph.FindSpanningTree` | src/block.rs:2398-2546 | never reports the failure; the list becomes a permutation of itself in reverse post-order with matching indices; the tree roots reach every block; each edge's label agrees with the visit and index order (tree, forward, cross, back), the descendant counts delimit exactly the tree paths, loop edges are the back edges, irreducible and loop-exit labels are gone, and goto and default-switch labels stay; the first root is the first listed block without in-edges, or the first listed block when all have some; that root comes first in the new list too, and the root list is that of the trees, if and only if some block has no in-edges or every block that leads to the first block is led to from it |
| `SpanningTree.BlockGraph.SearchStep` | src/block.rs:2478-2515 | one turn of the explicit-stack search keeps arrays, stacks and labels in agreement with the abstract search, and gets closer to its end |
| `SpanningTree.BlockGraph.SecondPass` | src/block.rs:2429-2534 | a second pass, from the roots the first one collected, needs no extra root |
| `SpanningTree.BlockGraph.Relist` | src/block.rs:2540-2545 | the reverse post-order has every block once and becomes the list; the root of the last tree comes first |
| `SpanningFacts.FoundIsExact` | src/block.rs:2472-2515 | after a complete search every label means what it says and the interval of a block's visit number and descendant count is exactly its tree descendants |
| `SpanningRoots.CompleteReaches` | src/block.rs:2443-2477 | the collected roots reach every listed block |
| `SpanningRoots.NothingLeft` | src/block.rs:2443-2519 | a search from roots that reach everything leaves no block unvisited |
| `SpanningRoots.ClosedLast` | src/block.rs:2478-2545 | when the search is done, the block that was closed last, and so takes index 0, is the root of the last tree |
| `RootLists.NotNeededIff` | src/block.rs:2516-2534 | given roots that the first block does not lead to, they reach everything without it exactly when some block leads to it and not back |
| `RootLists.GrowingEnds` | src/block.rs:2443-2519 | at the end of a pass a listed root is left unused exactly when the roots before the last one reach everything |
| `RootLists.TwoPassesExact` | src/block.rs:2427-2534 | over both passes: the last root collected first is the only one that can be left over, and the condition for it; it is last in the root list again at the end |
| `StaleRoot.StaleRootKept` | src/block.rs:2443-2534 | a graph of two loops, the second leading to the first, meets the condition: its first block stays in the root list and is no tree root |
| `StaleRoot.StaleRootHasDominator` | src/funcdata/funcdata_block.rs:636-637 | in the order of that search another block lies on every walk to it, but as a listed root it gets no dominator |
| `SpanningTree.BlockGraph.FindIrreducible` | src/block.rs:2548-2613 | only forward and cross edges are labelled irreducible, so a rebuild is never asked for; without them every back edge leads to a block on every walk from the tree roots to its source; none is labelled if and only if the graph was reducible to begin with |
| `SpanningTree.BlockGraph.ProcessHead` | src/block.rs:2557-2611 | handling one loop head collects its body, labels the edges that enter it from outside and collapses it, keeping the invariant for all inner loops |
| `Reducibility.BackEdgeTargetDominates` | src/block.rs:2548-2613 | in the graph without irreducible edges, a walk to the source of a back edge has visited its target |
| `Reducibility.EdgeBypasses` | src/block.rs:2576-2606 | an edge into a loop body from outside the head's subtree gives a walk that reaches the loop around its head |
| `ReducibleGraph.GraphIsReducible` | src/block.rs:2548-2613 | the labels the finder leaves make the graph of blocks reducible |
| `ReducibleGraph.LabelledIffIrreducible` | src/block.rs:2548-2613 | the set of labelled edges is empty exactly when the graph as given is reducible |
| `SpanningTree.BlockGraph.CalcLoop` | src/block.rs:3184-3217 | no loop edge is added when labels and order come from the spanning tree, and all marks are cleared |
| `SpanningTree.BlockGraph.StructureLoops` | src/block.rs:3252-3277 | one turn suffices; what it leaves is reducible, rooted in the root list, labelled consistently and listed in index order; the first root is the entry of the list as given, and comes first in the list under the condition of `FindSpanningTree` |
| `SpanningTree.StructuredForDominators` | src/block.rs:3252-3277 | a structured graph meets what the dominator solver needs: distinct listed roots with the first block among them, and an order in which every other block has an earlier predecessor |
| `SpanningTree.StructuredForTrace` | src/blockaction.rs:1313-1333 | for a trace from one loop head or from all blocks without in-edges, a structured graph has a rank that climbs along loop-DAG edges, and indices that tell exits apart |
| `SpanningTree.LabelsKeepSetting` | src/blockaction.rs:1313-1333 | labels that only take edges out of the loop-DAG, such as goto and loop-exit marks, keep both |
| `ReducibleGraph.LoopDagRanked` | src/block.rs:2478-2515 | edges of the loop-DAG climb the block order |
| `ReducibleGraph.RootsOrder` | src/block.rs:2478-2545 | in the final list every block but the roots has an earlier predecessor |
| `TraceDagging.TraceDag.Initialize` | src/blockaction.rs:1023-1033 | the state before the first step meets the run's invariant |
| `TraceDagging.TraceDag.CheckOpen` | src/blockaction.rs:882-910 | true exactly when the edges lumped here or cut make up all loop-DAG edges into the destination, or the trace is a root, and the finish block is not entered from within |
| `TraceDagging.TraceDag.CheckRetirement` | src/blockaction.rs:934-971 | true exactly when the branch may be retired, with the exit all its open paths share |
| `TraceDagging.TraceDag.OpenBranch` | src/blockaction.rs:912-932 | opens a block that was not open, keeps the whole invariant and every cut, and returns the first trace of the new branch, or the trace itself when it ended |
| `TraceDagging.TraceDag.RetireBranch` | src/blockaction.rs:973-1011 | folds a branch into its parent trace, which it returns, keeps the invariant and every cut, and lowers the size of the tree; at the root it ends the run |
| `TraceDagging.TraceDag.RemoveTrace` | src/blockaction.rs:743-782 | the emitted goto is a loop-DAG edge out of an opened block, that edge is cut in the ledger, and the visit count grows by the lumped edges; a trace on its first edge is dropped and the paths behind it, with the branches derived from them, move down one slot, any other trace ends |
| `TraceDagging.TraceDag.SelectBadEdge` | src/blockaction.rs:815-868 | a candidate exists whenever all traces are stuck, and the one returned is the best in the sense of `BadEdges.Select` |
| `TraceDagging.TraceDag.CutStep` | src/blockaction.rs:1044-1048 | when a full round found no move, the edge of the best candidate in the sense of `BadEdges.Select` becomes the goto |
| `TraceDagging.TraceDag.ScanStep` | src/blockaction.rs:1043-1060 | each turn is made at the trace whose turn it is, and keeps the invariant and opens a block, or shrinks the tree, or moves on in the round |
| `TraceDagging.TraceDag.PushBranches` | src/blockaction.rs:1035-1062 | the run is a sequence of legal moves from the given state to one where nothing is active, and the gotos are those of its cuts, in order; each move is made at the first trace, in the order of the active list and round it, at which anything can be done, and there a branch is retired rather than a block opened; the scan goes on at the first new trace, at the trace folded into, or after a cut at the front; a cut is legal only where every active trace is stuck, and takes the best candidate in the sense of `BadEdges.Select`; every goto is a loop-DAG edge out of an opened block and is cut; every cut edge leads to the end of a goto; every loop-DAG edge into an opened block other than a root leaves an opened block and is cut or absorbed; each loop-DAG walk from the roots that takes no edge to the end of a goto stays within opened blocks; visit counts are back at zero |
| `TraceRun.CutIffStuck` | src/blockaction.rs:1044-1060 | a legal move proposes a goto if and only if every active trace is stuck |
| `TraceRun.TurnIsOnly` | src/blockaction.rs:1035-1060 | two legal moves made in turn from the same state and position are the same move, unless both are cuts |
| `TraceRun.EdgesAreGotos` | src/blockaction.rs:1035-1062 | over a whole run the list grows by exactly the gotos of the cuts, in order |
| `TraceRun.NoGotoIffNeverStuck` | src/blockaction.rs:1035-1062 | a run proposes no goto if and only if it is never stuck |
| `TraceLedger.CandidateExists` | src/blockaction.rs:815-835 | if no active trace can open or retire, one of them may be cut |
| `TraceLedger.StuckHasSiblings` | src/blockaction.rs:934-971 | a stuck trace below the root has siblings, so removing its path leaves its branch some |
| `TraceLedger.OpenTakesAll` | src/blockaction.rs:882-910 | the count test means that every loop-DAG in-edge of the block is either held by this trace or cut |
| `TraceLedger.OpenIsExclusive` | src/blockaction.rs:882-910 | no other waiting trace leads to the block that is opened |
| `TraceLedger.UncutIsOpen` | src/blockaction.rs:1035-1062 | at the end, walks from the roots along edges that are not cut lead to opened blocks |
| `BadEdges.Select` | src/blockaction.rs:815-868 | of the trace returned: no candidate has fewer siblings; of those with as few, none leads to a block without out-edges unless it does; of those, none is farther from its nearest rival; of those, none branches deeper; and of those, none has an exit, branch block or path that comes earlier |
| `BadEdges.ScoredMeans` | src/blockaction.rs:784-813 | a computed score is the number of candidates with the same exit and branch point, the distance to the nearest candidate with the same exit or -1, and whether the exit has no way on |
| `BadEdges.ProcessExitConflict` | src/blockaction.rs:784-813 | comparing every pair of a group once gives each entry what all others say about it, and leaves no branch marked |
| `BadEdges.MarkPath` | src/blockaction.rs:690-697 | the marks of a branch and all its ancestors are turned over, and no other |
| `BadEdges.BranchDistance` | src/blockaction.rs:699-711 | the distance is the way up to the first marked ancestor and down again |
| `BadEdges.GapIsShortest` | src/blockaction.rs:699-711 | that distance is the least over all common ancestors, and is attained |
| `BadEdges.GapSymmetric` | src/blockaction.rs:699-711 | it does not matter which of the two branches is marked |
| `BadEdges.FirstBest` | src/blockaction.rs:861-867 | every entry has as many siblings or more, and among equals the order is by dead end, distance and depth; every entry before the one found is worse |
| `BadEdges.FirstBestIsBest` | src/blockaction.rs:595-633 | the first of the best entries in the sorted list is the best of all candidates, ties going to the smaller exit, branch block and path index |
| `EdgeEdits.EdgeArena.AddInEdge` | src/block.rs:810-815 | one edge more, both ends paired |
| `EdgeEdits.EdgeArena.RemoveInEdge` | src/block.rs:860-864 | one edge less; all later slots are renumbered at their other ends |
| `EdgeEdits.EdgeArena.RemoveOutEdge` | src/block.rs:866-870 | the same from the source |
| `EdgeEdits.EdgeArena.ReplaceInEdge` | src/block.rs:872-884 | the edge keeps its slot and target and gets another source |
| `EdgeEdits.EdgeArena.ReplaceOutEdge` | src/block.rs:886-898 | the edge keeps its slot and source and gets another target |
| `EdgeEdits.EdgeArena.ReplaceEdgesThru` | src/block.rs:900-919 | an in-edge and an out-edge of a block become one edge past it, also when the block is its own neighbour |
| `EdgeEdits.EdgeArena.SwapEdges` | src/block.rs:921-928 | the two out-edges change places, in both ends' numbering, and no edge count changes |
| `EdgePairing.ReplaceThruKeeps` | src/block.rs:900-919 | bypassing a block keeps every edge paired, self-loops included |
| `EdgePairing.HalfDeleteFillsHole` | src/block.rs:838-847 | deleting the half of an edge whose other half is gone restores the pairing |
| `EdgeCounts.ReplaceThruCounts` | src/block.rs:900-919 | the edge multiset loses the two edges and gains the direct one |
| `EdgeEdits.EdgeArena.EliminateInDups` | src/block.rs:948-967 | at most one edge from that source is left and the pairing holds; at the block it has a flag if and only if some merged edge had it there, at the source it keeps the label of one of them; all other edges keep their counts and labels; the block's list keeps the first edge from that source in its place, and all lists their order |
| `EdgeEdits.EdgeArena.EliminateOutDups` | src/block.rs:969-988 | the same for edges to one target, with the flags joined at the source |
| `EdgeFlags.MergeOnce` | src/block.rs:948-967 | relabelling the first edge with both flag sets and removing the second leaves the flags at the block, and every label elsewhere, as they were |
| `EdgeEdits.EdgeArena.FindDups` | src/block.rs:990-1006 | lists exactly the blocks named at least twice and leaves no mark |
| `EdgeEdits.EdgeArena.Dedup` | src/block.rs:1008-1021 | all multiple edges of the block become single; at the block each has exactly the flags of those merged into it, at the other end one of their labels; the rest of the graph is as before, labels included |
| `EdgeEdits.EdgeArena.SelfIdentify` | src/block.rs:2312-2354 | moving all boundary edges of the children to the block gives the quotient graph, with the labels of `Quotient.MergedIsQuotient` |
| `EdgeEdits.EdgeArena.IdentifyInternal` | src/block.rs:2356-2374 | the nodes become the children of the new block, in order, and leave the graph's list, whose other blocks stay in order; the edges become the quotient; leaf counts add up |
| `Quotient.MergedIsQuotient` | src/block.rs:2312-2354 | redirected and deduplicated edges join an outsider with the new block exactly when some edge joined it with a member, once; an edge of the new block has a flag if and only if some edge it stands for had it at the outsider's end, where it keeps the label of one of them; inside and outside edges are as before, labels included, and none crosses |
| `Quotient.MoveLabels` | src/block.rs:872-898 | an edge redirected to the new block keeps its label at the outsider's end and has it at the new block |
| `Covers.LiveRange.Rebuild` | src/cover.rs:498-517 | all reads, through implied varnodes too, are in the range; the exit of a block other than the definition's is in it if and only if a walk that avoids the definition leads from there to a read; each arc starts at the definition or the beginning of its block and stops at the definition, at a read, or at the end of a block whose exit is live |
| `Covers.LiveRange.AddRefPoint` | src/cover.rs:533-572 | adding a read keeps the range closed under predecessors, loses nothing, covers the read and the exits a MULTIEQUAL takes it from, and covers no exit but those that lead to it |
| `Covers.LiveRange.AddRefRecurse` | src/cover.rs:300-325 | the backwards walk ends, makes the block live at its exit and closes the range again, also where a MULTIEQUAL at the start of a block had stopped it |
| `Covers.LiveRange.AddDefPoint` | src/cover.rs:519-531 | the range of the definition alone |
| `CoverLiveness.LiveIsCovered` | src/cover.rs:300-325 | a closed range with all reads has every exit from which a walk that avoids the definition leads to a read |
| `CoverUses.AllAreListed` | src/cover.rs:498-517 | a finished work list has every implied varnode computed from the given one, by operations that read what is on the way and write an implied varnode |
| `CoverUses.Implied` | src/cover.rs:505-511 | a varnode is followed if and only if the operation writes it and it is implied |
| `CoverBlocks.IntersectIndices` | src/cover.rs:173-198 | 0 exactly for disjoint arcs, 1 exactly when they meet only where one starts and the other stops, 2 otherwise |
| `CoverBlocks.Merge` | src/cover.rs:231-263 | the merged arc covers both, and nothing else when they share a point; when they are apart it goes from the lesser start to the stop of the other arc |
| `FieldLayout.EstablishFields` | src/bitfield.rs:204-251 | for every list of fields, with holes followed: the ranges have bits of the container exactly when each field outside it still ends after what was reached; they tile it exactly when the fields inside it are in order too; whenever they have bits they cover all of it; and each field inside it has its own range, whose position holds the bits that the field's bytes hold, in either byte order |
| `FieldLayout.TranslateLsb` | src/address.rs:1026-1036 | a field's lowest bit is in the same byte and bit of storage whether counted in the field's bytes or in the container, in either byte order |
| `FieldLayout.RightIffUnbased` | src/bitfield.rs:216-241 | the fields have their ranges where they are if and only if none with a range belongs to a nested structure |
| `FieldLayout.RightIffFlat` | src/bitfield.rs:204-251 | for ascending fields inside the container, the ranges tile it with every field in its place if and only if no field belongs to a nested structure |
| `FieldLayout.NestedMistaken` | src/types/compound.rs:220-268 | two structures of two four-bit fields each, written together: the second one's fields are laid over the first one's and the ranges do not tile |
| `FieldLayout.NestedUnsized` | src/types/compound.rs:220-268 | the second structure written alone: a range of negative size |
| `BitSteps.AndBack` | src/bitfield.rs:731-756 | an AND with a constant of at most 8 bytes: followed if and only if every traced bit of the constant is set, zero if and only if none is, given up otherwise; followed bits are the same and zero ones clear in every valuation the masks allow |
| `BitSteps.OrBack` | src/bitfield.rs:758-776 | an OR of at most 8 bytes: followed to the one operand that may be set there, or to a constant second operand that is all ones there, and given up otherwise; followed bits are the same |
| `BitSteps.AddBack` | src/bitfield.rs:778-797 | an addition of at most 8 bytes: followed if and only if no bit may be set in both operands and exactly one may be set there, and then to that one; followed bits are the same |
| `BitSteps.LeftBack` | src/bitfield.rs:799-825 | a left shift by a constant that reads as 0 to 63: followed if and only if all traced bits come from the input, zero if and only if none does; followed bits are the same when the constant fits 32 bits |
| `BitSteps.RightBack` | src/bitfield.rs:827-845 | an arithmetic right shift by a constant that reads as 0 to 63: followed if and only if no traced bit is a copy of the sign beyond it; the bits are the same when the constant fits 32 bits, or for the sign bit alone |
| `BitSteps.ZextBack` | src/bitfield.rs:847-868 | a zero extension is followed if and only if all traced bits are in the input; the bits are the same |
| `BitSteps.MultBack` | src/bitfield.rs:870-897 | a multiplication is followed if and only if the second operand is a constant with one bit set and all traced bits come from the input; the bits are the same |
| `BitSteps.SubpieceBack` | src/bitfield.rs:899-915 | a truncation is followed if and only if the bits, moved down by the 32-bit byte offset times eight, are in the input; they are the same when no low byte is dropped |
| `BitSteps.FollowsOnce` | src/bitfield.rs:974-1000 | by the conditions on masks, constants and sizes an operation leads to one place, clears the bits, or neither, and never two of these |
| `BitSteps.TrailKeeps` | src/bitfield.rs:957-1018 | along a trail of followed operations, each followed rightly, the bits are the same at both ends, whatever else the data holds |
| `BitTrace.AddSame` | src/bitfield.rs:778-797 | where the operands' masks are disjoint, the sum's bits are those of the operand that may be set there |
| `BitFieldInsert.ConstantIsSound` | src/bitfield.rs:671-695 | the constant recorded for a field has the traced bits, sign-extended or not |
| `BitFieldInsert.InsertTransform.ProcessBackward` | src/bitfield.rs:957-1018 | the states passed are a trail of followed operations, and nothing on it would have settled the range; where it ends, the outcome is fixed case by case: a constant is recorded as the field's bits with the sign the field asks for; bits in place in a varnode known to hold the original value, or pulled from one, are kept; a field alone at the bottom is recorded as the varnode; without a definition the range is refused; a call may return the original value; cleared bits are recorded as zero; an operation that cannot be followed still settles a field whose bits cannot be set, or are the only ones in use that can be; what is then taken for the original value is fixed too |
| `BitFieldInsert.InsertTransform.DoTrace` | src/bitfield.rs:1181-1194 | the records are those of the ranges, in order, each run ending as in `ProcessBackward` and starting from what the one before took for the original; it succeeds if and only if every range is settled or has no field and is overwritten later, there is a record, and the original verifies; it stops at the first other range; if it succeeds and each operation and pull on its trails is followed rightly, the records rebuild the root on every settled bit and leave the others the original's |
| `BitFieldInsert.HullsCompare` | src/bitfield.rs:1003-1016 | comparing the two masked ranges tells exactly whether a bit of the field may be set and whether another bit in use may |
| `BitFieldInsert.RunsRebuild` | src/bitfield.rs:1181-1194 | folding the INSERTs of exact runs over the original gives, bit by bit, the root where a range was settled and the original elsewhere |
| `BitFieldInsert.OriginalBit` | src/bitfield.rs:605-669 | a bit traced to its own place in the original, or to a pull that keeps its place, is the original's |
| `BitFieldInsert.Recover` | src/bitfield.rs:1181-1194 | fields and trace together: the ranges cover the container, the trace succeeds exactly as `DoTrace` says, and if nothing on the trails is followed wrongly and no range is skipped, folding the INSERTs over the original value gives the stored value, in every valuation the non-zero masks allow |
| `BitWords.DisjointAddIsOr` | src/bitfield.rs:778-797 | adding words without common bits is OR, for every width |
| `BitWords.MultIsShift` | src/bitfield.rs:870-897 | multiplying by a word with one bit set is a left shift, modulo the width |
| `BitFindings.StepExactIff` | src/bitfield.rs:799-915 | the condition put on a followed shift or truncation holds if and only if every input word shows its bits where they are looked for |
| `BitFindings.PullExactIff` | src/bitfield.rs:605-623 | the condition put on a pull that passes for the original holds if and only if every source word has its bits there |
| `BitFindings.SubpieceExact` | src/bitfield.rs:899-915 | a truncation that is followed is traced rightly for all words if and only if it drops no low byte |
| `BitFindings.LeftExact` | src/bitfield.rs:799-825 | a left shift that is followed is traced rightly for all words if and only if its constant is below 2^32 |
| `BitFindings.RightExact` | src/bitfield.rs:827-845 | an arithmetic right shift that is followed is traced rightly if and only if its constant is below 2^32 or the traced bit is the sign alone |
| `BitFindings.PullExact` | src/bitfield.rs:605-623 | a pull that passes for the original is the original's bits if and only if it starts at bit 0 or is one sign-extended bit |
| `BitFindings.TruncationMistaken` | src/bitfield.rs:899-915 | dropping one byte of three: the second byte of the result is looked for in the first byte of the input, but is its third |
| `BitFindings.BigShiftMistaken` | src/bitfield.rs:799-825 | a shift by 2^32 + 4 clears the value but is traced as a shift by 4 |
| `BitFindings.HighPullMistaken` | src/bitfield.rs:605-623 | a pull of bits 4 to 7 passes for the original's bits 4 to 7, but has them at 0 to 3 |

## Findings

Where a promised property fails, each with an input and the exact condition:

- A truncation with a non-zero byte offset is followed to bits below those it kept, not above
  (`BitFindings.TruncationMistaken`, `BitFindings.SubpieceExact`).
- Shift constants are cut to 32 bits before they are used (`BitFindings.BigShiftMistaken`,
  `BitFindings.LeftExact`, `BitFindings.RightExact`).
- A pulled field is taken for the original's bits at its source position, while a pull puts its bits at 0
  (`BitFindings.HighPullMistaken`, `BitFindings.PullExact`).
- Fields of nested structures are collected with a base offset that only the sort uses, so their ranges
  are computed without it (`FieldLayout.NestedMistaken`, `FieldLayout.NestedUnsized`,
  `FieldLayout.RightIffUnbased`, `FieldLayout.RightIffFlat`).
- With several roots, a block that no other block dominates gets the first listed block as its dominator:
  that block stands in for the virtual root when two chains meet there (`RootDominance.TwoRootsMistaken`,
  `RootDominance.StoredIsClosestIff`).
- After a second pass the root list may keep the first block although it is no tree root
  (`StaleRoot.StaleRootKept`; the condition is an ensures of `SpanningTree.BlockGraph.FindSpanningTree`).
  The dominator solver takes it for a root and stores no dominator for it, although it may have one
  (`StaleRoot.StaleRootHasDominator`).

Two things that the code provides for never happen: `FindSpanningTree` cannot fail, and `FindIrreducible`
never asks for a rebuild, so the repeat of src/block.rs:3252-3277 and its loop-edge search do nothing.

## Left out

- `BitFieldInsert.InsertTransform.DoTrace`: rebuilding is stated for runs that follow no operation wrongly; `BitFindings` gives, per operation, the exact condition and an input outside it. Whether a hole is overwritten later and whether the original's other bits verify (src/bitfield.rs:472-603) are parameters.
- `BitFieldInsert.InsertTransform.ProcessBackward`: which varnodes and calls hold the original value is given as two sets; the tests of storage and of the containing block (src/bitfield.rs:625-656, 917-955) are not part of this model.
- `BitFieldInsert.Recover`: starts from fields whose ranges have bits; `FieldLayout.EstablishFields` says exactly when they do.
- `FieldLayout.EstablishFields`: fields have at least one bit; the lookup that collects and sorts them (src/types/compound.rs:220-268) is not modelled.
- `Dominators.BlockArena.CalcForwardDominator`: takes the order that the spanning tree leaves (every block but the roots has an earlier predecessor) and, for several roots, distinct listed ones with the first block among them; `SpanningTree.StructuredForDominators` shows that structuring provides both.
- `SpanningTree.BlockGraph.FindSpanningTree`: starts from an empty root list and preorder, as both callers do.
- `SpanningTree.BlockGraph.StructureLoops`: one turn of the repeat, whose result says whether there would be another; there never is.
- `SpanningTree.StructuredForTrace`: is about the graph as structured and relabelled, before collapses change it, and asks that blocks outside the list have no out-edges.
- `EdgeEdits.EdgeArena.SelfIdentify`: the switch-out flag of the new block is left out.
- `EdgeEdits.EdgeArena.IdentifyInternal`: interior-goto flags, index and structure depth of the new block are left out.
- `TraceDagging.TraceDag.PushBranches`: runs from a rank that climbs along loop-DAG edges and is the same for all roots (`RootsApart`), and from indices that differ between exits; both are what `SpanningTree.StructuredForTrace` gives for the two kinds of roots the caller uses. The marks of branch points are a set, empty between calls.
- `BadEdges.Select`: the library's stable sort is an insertion sort.
- `Covers.LiveRange.Rebuild`: asks that implied varnodes are computed without a cycle (otherwise the work list never ends) and that a MULTIEQUAL alone has index 0 in its block; INDIRECT operations have the index of the operation they belong to.
- Arena identifiers are natural numbers and their records parallel sequences or maps; edge labels are the bits the modelled code reads or writes.
- Collapse rules, goto marking and loop bodies (src/blockaction.rs outside the trace), block printing and encoding.
- The scheduler of actions and rules, the call graph, heritage and merging, types, p-code emulation, the language front ends and output would need models of their own and are not part of this one.
- Cover intersection over lists of blocks and operation sets (src/cover.rs:346-490) only repeats the arc test per block.
