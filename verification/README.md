# Verification of the LJIT middle end

This project models the middle end of LJIT, a small SSA just-in-time compiler, in Dafny and proves what its
passes promise. The C++ sources work by changing state, so most passes are methods or classes with loops;
each one is proved against a specification function or relation, and the theorems are lemmas about those.

| files | model |
|---|---|
| `LinearScan`, `RegisterRule`, `RegisterPool`, `RegAllocator` | linear-scan register allocation with K registers: safety and optimality of the spilling rule, and the rule in terms of intervals only |
| `Ir`, `Liveness`, `LivenessProofs`, `IntervalProofs`, `LivenessLaws`, `LivenessAnalyzer`, `Allocation` | backward liveness with loop extension against path-based liveness, exact intervals, and the end-to-end theorem with the allocator |
| `ScanRows`, `LivenessSteps`, `BackEdgeReads` | following pass and scan on a given program; a loop whose phi reads an overwritten value |
| `Graphs`, `DfsState`, `Dfs`, `RecursiveSearch`, `SearchSteps` | the iterative depth-first search, its orders, the recursive search that it refines, and how to follow it on a given graph |
| `Dsu`, `DomSpec`, `DomTree`, `Dominators` | the disjoint-set forest, semidominators, the dominator tree and its query |
| `SearchTrees`, `TreeDominance`, `ChainDominance`, `TreeSoundness`, `SoundGraph` | dominance in the graph by semidominators along the search tree; exactly when the tree is sound, and exactly what it reports |
| `Occurrences`, `Code`, `Runs`, `CheckRuns`, `Redundancy`, `ChecksElimination`, `EliminationLaws`, `LadderProgram` | check elimination: what is erased, by lists and paths, and that runs stay the same |
| `Arithmetic`, `ArithmeticLaws`, `DefUse`, `Rewriting`, `Equivalence`, `FoldSteps`, `PeepHole`, `PeepHoleLaws`, `PeepHoleProofs`, `PeepHolePass`, `MergeProgram`, `ConstantFolding` | the operators and their laws, the def-use graph, peephole rules and constant folding, that runs stay the same, and two programs whose runs change |
| `IntrusiveList` | the intrusive list over sentinel rings |
| `LoopSpec`, `LoopTrace`, `LoopSearch`, `LoopFilling`, `LoopOwnership`, `LoopAnalyzer`, `LoopTables` | natural loops: collection of back edges, backward search, owners, nesting and the root loop; what holds in any graph |
| `LoopFlags`, `GuardedLoop` | when a loop is flagged reducible, and an ordinary one that is not |
| `LinearOrder`, `BlockLayout`, `BlockOrder` | the linear order of blocks, and exactly when it provides what liveness assumes about loops |
| `BranchInLoop`, `BranchProgram` | a branch in a loop, where it does not, and a program that this costs a value |
| `Pipeline` | loops, linear order, liveness and registers together |
| `Wrappers`, `FiniteSets` | an option type and cardinality facts |

How the parts fit together:

* The allocator theorem `Allocation.OccupiedPlacesDiffer` joins `IntervalProofs.LiveIsCovered` (intervals cover
  path-based liveness) with `LinearScan.RunIsSafe`.
* The builder of the dominator tree is proved equal to a definition without a forest (`DomSpec.Sdom`, `FirstIdom`,
  `Idom`). The parent the builder stores is the node discovered just before, so the tree is about the graph with one
  more edge per node (`Chained`); and the root of the forest takes part in the minimum. Both effects are measured
  against true dominance. Of the graph with the added edges the tree is exact if and only if the minimum is harmless
  (`TreeIsExactIff`). Of the graph itself it reports only dominators if and only if each idom passes a test along the
  search tree (`TreeIsSoundIff`); `LadderIsWrong` is an input where it fails, `LadderProgram.RunChanges` a program that
  check elimination then changes. A dominator is missed exactly if an added edge opens a way around it
  (`ReportedIff`); `GuardedLoop.LoopIsMissed` is a loop that is therefore taken for irreducible.
* The loop analyzer is compared with natural loops, defined by paths. From that `LinearOrders.BuildLinearOrder` gets
  contiguous loops. The liveness theorems also need every block before its successors, back edges apart;
  `BlockOrders.LoopsContiguousIff` says when the order has that, in terms of the order in which the search backwards
  meets the blocks of a loop. `BranchInLoop` is an if with two sides in a loop where it has not, and
  `BranchProgram.BranchSharesRegister` shows two live values in one register. `Pipeline.PlacesDiffer` joins all of this
  with the allocator.
* Beside each specification function that a pass is proved equal to stand laws that do not mention it:
  `RegisterRule` for the scan, `LivenessLaws` for reads, numbers and intervals, `ArithmeticLaws` for the operators,
  `EliminationLaws` and `PeepHoleLaws` for what the passes change, `RecursiveSearch` for the two searches,
  `DomSpec.SdomIsLeastDetour` and `IdomIs` for the tree, and `LoopTables` for the loops of any graph.
* The transformations share one machine (`Runs`). Its key fact is `AboveIsSettled`: at every point of every run
  the definitions above the point satisfy their defining equations with the current values. From it follow
  erasing dominated checks, exchanging equal instructions and erasing dead ones; the peephole and folding passes
  are chains of such steps.

## Model

| member | source | states |
|---|---|---|
| `RegisterPools.RegisterPool.AllocateReg` | include/analysis/regalloc.hh:29-45 | None exactly when every register is in use; otherwise the lowest free index, and the set of used registers grows by that index alone |
| `RegisterPools.RegisterPool.DeallocateReg` | include/analysis/regalloc.hh:47-56 | the used set loses exactly the given register, the count stays its size |
| `RegisterPools.CountOfUpdate` | include/analysis/regalloc.hh:38-39 | flipping one bit changes the number of set bits by one, so count and bit set stay in step |
| `LinearScan.LastIsMax` | include/analysis/regalloc.hh:157-161 | the last of the active queue ends no earlier than any other active interval |
| `LinearScan.ExpireLeaves` | include/analysis/regalloc.hh:137-149 | expiry, which stops at the first later end, leaves exactly the active intervals that end after the current start |
| `LinearScan.InsertKeepsQueue` | include/analysis/regalloc.hh:176-182 | inserting by end keeps the queue ordered and adds exactly the new interval; that it goes behind equal ends is `RegisterRule.InsertRanked` |
| `LinearScan.StepKeepsInv` | include/analysis/regalloc.hh:116-135 | one visit keeps: registers of active intervals distinct and below K, every active end after the start, equal registers only for disjoint intervals, stack slots distinct |
| `LinearScan.RunKeepsInv` | include/analysis/regalloc.hh:116-182 | the same over the whole run, for every K and every list sorted by start |
| `LinearScan.RunIsSafe` | include/analysis/regalloc.hh:116-182 | at the end every interval has a register or a stack slot; two with one register are disjoint, no two share a slot |
| `LinearScan.Exchange` | include/analysis/regalloc.hh:157-174 | among K+1 intervals overlapping at a point, a rival choice can give up the one that ends last for one it lacks without overloading any point |
| `LinearScan.RunImproves` | include/analysis/regalloc.hh:116-174 | after any number of visits every rival choice can be turned into one at least as large that avoids what was spilled |
| `LinearScan.SpillingIsOptimal` | include/analysis/regalloc.hh:116-174 | no set of intervals with at most K overlapping anywhere is larger than the set left in registers |
| `LinearScan.NoSpillIffFits` | include/analysis/regalloc.hh:121-133 | nothing is spilled if and only if at most K intervals ever overlap |
| `RegisterRule.InsertRanked` | include/analysis/regalloc.hh:176-182 | the new interval goes behind those that end with it: the queue is ordered by end and then by visit |
| `RegisterRule.RunRanked` | include/analysis/regalloc.hh:116-182 | the queue of the whole run is |
| `RegisterRule.ScanFollowsRule` | include/analysis/regalloc.hh:116-182 | every visit, by ranges and order of visits only: with fewer than K holders the lowest register nobody holds; else, exactly if a holder ends strictly later, the holder that ends last, of several the one visited last, goes to the next slot and gives its register to the new one; else the new one goes there |
| `RegisterRule.RuleIsDetermined` | include/analysis/regalloc.hh:116-182 | this rule leaves no choice: it determines all registers and slots |
| `RegAllocators.RegAllocator.constructor` | include/analysis/regalloc.hh:68-72 | the allocator has run the whole scan: its queue, locations and stack position are those of the rule on the sorted intervals |
| `RegAllocators.RegAllocator.BuildSortedLiveIntervals` | include/analysis/regalloc.hh:94-114 | a duplicate-free list of exactly the non-empty intervals, by start |
| `RegAllocators.RegAllocator.RunLinearScan` | include/analysis/regalloc.hh:116-135 | the loop computes the run of the rule over the list |
| `RegAllocators.RegAllocator.Visit` | include/analysis/regalloc.hh:118-134 | one visit is one step of the rule |
| `RegAllocators.RegAllocator.ExpireOldIntervals` | include/analysis/regalloc.hh:137-149 | the active queue is the expired one and the pool holds exactly the registers of what is left |
| `RegAllocators.RegAllocator.AllocateFor` | include/analysis/regalloc.hh:125-133 | with a free register: the interval takes the lowest one |
| `RegAllocators.RegAllocator.MoveToStack` | include/analysis/regalloc.hh:151-155 | the interval gets the next stack slot and the counter advances; no other location changes |
| `RegAllocators.RegAllocator.SpillAtInterval` | include/analysis/regalloc.hh:157-174 | with no free register: the step of the rule, by which the last active interval hands its register over if it ends strictly later, else the new one is spilled; `RegisterRule.ScanFollowsRule` says this of the intervals |
| `RegAllocators.RegAllocator.GetLocation` | include/analysis/regalloc.hh:84-91 | none for a value without an interval or with an empty one, else its register or slot |
| `LivenessAnalyzers.LivenessAnalyzer.FillLiveNumbers` | include/analysis/liveness.hh:88-111 | phis carry the number of their block start, other instructions count up by two, block ranges meet end to start |
| `LivenessAnalyzers.LivenessAnalyzer.UpdateLiveInterval` | include/analysis/liveness.hh:79-86 | a new interval is stored, an old one widened to the hull |
| `LivenessAnalyzers.LivenessAnalyzer.ProcessSucc` | include/analysis/liveness.hh:125-147 | adds the live set of a processed successor and what its phis read from this block, nothing for an unprocessed one |
| `LivenessAnalyzers.LivenessAnalyzer.CalcInitLiveSet` | include/analysis/liveness.hh:113-123 | the live set at the end of a block as specified |
| `LivenessAnalyzers.LivenessAnalyzer.ProcessInst` | include/analysis/liveness.hh:168-181 | going back over one instruction is the specified step on set and intervals |
| `LivenessAnalyzers.LivenessAnalyzer.ProcessInputs` | include/analysis/liveness.hh:212-255 | every operand, by kind of instruction, becomes live and is widened back to the block start; `LivenessLaws.InputsAreLive` says which these are |
| `LivenessAnalyzers.LivenessAnalyzer.ExtendOverLoop` | include/analysis/liveness.hh:191-198 | values live at a reducible header are widened to the end of the last block of the loop |
| `LivenessAnalyzers.LivenessAnalyzer.ProcessBlock` | include/analysis/liveness.hh:160-199 | one block of the backward pass |
| `LivenessAnalyzers.LivenessAnalyzer.CalcLiveRanges` | include/analysis/liveness.hh:157-210 | the pass computes the specified intervals of all blocks |
| `LivenessAnalyzers.LivenessAnalyzer.ReduceToEmpty` | include/analysis/liveness.hh:201-209 | instructions without a result end with an empty interval, others keep theirs |
| `LivenessAnalyzers.LivenessAnalyzer.constructor` | include/analysis/liveness.hh:37-43 | the analyzer holds the specified intervals of the code |
| `LivenessProofs.LiveAtIffForwardLive` | include/analysis/liveness.hh:125-147 | a value is in the live set of a point if and only if some forward path leads from it to a read without passing the definition |
| `LivenessProofs.LiveIsCarried` | include/analysis/liveness.hh:191-198 | a value live at a point but not along forward paths is live at the header of a reducible loop whose run contains the point |
| `LivenessProofs.LiveAfterDef` | include/analysis/liveness.hh:168-181 | in SSA form a value is live only where its definition dominates |
| `IntervalProofs.LiveIsCovered` | include/analysis/liveness.hh:157-210 | wherever a value is live along any path, around loops included, its interval covers the point |
| `IntervalProofs.IntervalStartsAtDef` | include/analysis/liveness.hh:172-178 | every interval starts exactly at the definition, at the block start for a phi |
| `IntervalProofs.DefinitionIsCovered` | include/analysis/liveness.hh:172-178 | a result that nobody reads still covers its definition |
| `IntervalProofs.IntervalEndIsNeeded` | include/analysis/liveness.hh:79-86 | every interval ends where a read, its definition or a carried loop needs it: it is not longer than the analysis has a reason for |
| `IntervalProofs.BackEdgeReadCovered` | include/analysis/liveness.hh:127-129 | a read by a phi over a back edge, which the pass does not see, is covered if and only if some other need reaches the end of the source block |
| `LivenessLaws.InputsAreLive` | include/analysis/liveness.hh:212-255 | every input of every instruction that is no phi is live before it, and its interval reaches the number of the instruction |
| `LivenessLaws.EntriesAreLive` | include/analysis/liveness.hh:125-147 | what a phi takes from a block that is not later is live at the end of that block, and its interval reaches the end |
| `LivenessLaws.ControlHasNoValue` | include/analysis/liveness.hh:201-209 | exactly branches, jumps and returns have no result |
| `LivenessLaws.EmptyIsControl` | include/analysis/liveness.hh:201-209 | and exactly their intervals end empty, among what is no phi |
| `LivenessLaws.IntervalIsExact` | include/analysis/liveness.hh:157-210 | a value has an interval if and only if a read, its definition or a carried loop needs it; it starts at the definition and ends at the last need |
| `LivenessLaws.NumbersByTwos` | include/analysis/liveness.hh:88-111 | the numbers without the functions that count them: phis at the block start, two steps between one instruction and the next and over a block border |
| `BackEdgeReads.LoopIsContiguous` | include/analysis/liveness.hh:191-198 | the loop of that example has everything liveness assumes about loops |
| `BackEdgeReads.BackEdgeReadIsLost` | include/analysis/liveness.hh:127-129 | in a concrete loop, in SSA form and contiguous, such a read is not covered, and with any number of registers another value gets the same location before the read |
| `ScanRows.OneScanOrder` | include/analysis/regalloc.hh:94-114 | intervals with different starts are visited in one order only |
| `ScanRows.RowSharesRegister` | include/analysis/regalloc.hh:116-135 | intervals that follow one another share the first register, however many there are |
| `ScanRows.RowBesideShares` | include/analysis/regalloc.hh:116-174 | beside one interval that outlasts them all, a row of intervals shares one register, and with K = 1 the long one is spilled |
| `Allocation.OccupiedPlacesDiffer` | include/analysis/regalloc.hh:84-174 | two different values live or being defined at the same point never have equal locations |
| `Allocation.AllocateRegisters` | include/analysis/regalloc.hh:68-72 | analysis, sorting and scan together: the locations are those of the rule on the intervals of the code |
| `Dfs.DepthFirstSearch` | include/graph/dfs.hh:43-97 | an entry gives a finished search whose events are the visitor calls; no entry gives none |
| `Dfs.Visit` | include/graph/dfs.hh:65-96 | one round of the loop keeps the invariant of the search and lowers unvisited nodes plus unscanned edges |
| `Dfs.FindUnvisited` | include/graph/dfs.hh:71-85 | scans to the next unvisited successor, reporting exactly the edges to open nodes it passes |
| `DfsState.LookGreyKeeps` | include/graph/dfs.hh:77-81 | reporting an edge to an open node keeps the invariant |
| `DfsState.LeaveKeeps` | include/graph/dfs.hh:87-92 | finishing a node keeps the invariant |
| `DfsState.DescendKeeps` | include/graph/dfs.hh:94-96 | discovering a node keeps the invariant |
| `Dfs.OneSearch` | include/graph/dfs.hh:43-97 | the search of a graph is determined: two finished searches have the same events and tables |
| `RecursiveSearch.SearchIsWalk` | include/graph/dfs.hh:43-97 | the loop with its stack refines recursion: the events are those of the recursive search that takes successors in order |
| `Dfs.SearchIsComplete` | include/graph/dfs.hh:43-97 | exactly the reachable nodes are discovered once and finished once, and the events nest like brackets |
| `Dfs.BackEdgesAreExact` | include/graph/dfs.hh:77-81 | an edge occurrence is reported once if its target is the source or a tree ancestor of it, and not otherwise |
| `Dfs.OnlyEdgesAreReported` | include/graph/dfs.hh:77-81 | nothing but edges of reachable nodes is reported |
| `Dfs.ForwardWalksDescend` | include/graph/dfs.hh:155-161 | without the reported edges the reachable graph is acyclic and finish ranks fall along every walk |
| `Dfs.DominatorFinishesLater` | include/graph/dfs.hh:155-161 | a strict dominator of a reachable node finishes after it |
| `Dfs.PreOrder` | include/graph/dfs.hh:140-145 | the order of discovery: each reachable node once, the entry first, every other node after one of its predecessors |
| `Dfs.OneOrder` | include/graph/dfs.hh:140-145 | there is only one such order |
| `Dfs.PostOrder` | include/graph/dfs.hh:147-153 | the finished nodes in order |
| `Dfs.ReversePostOrder` | include/graph/dfs.hh:155-161 | the finished nodes, last one first |
| `Dfs.ReversePostOrderFacts` | include/graph/dfs.hh:155-161 | no node twice; dominators and sources of unreported edges come first |
| `Dsu.DSU.Find` | include/graph/dsu.hh:47-64 | returns the vertex of least semidominator on the uncompressed way from the vertex to its root, both ends included, the nearest one if several |
| `Dsu.DSU.Unite` | include/graph/dsu.hh:66-69 | links a root to an earlier vertex and keeps the forest valid |
| `Dsu.Compress` | include/graph/dsu.hh:54-63 | one step of compression keeps the label least on the part of the way it skips |
| `Dsu.RootDecreases` | include/graph/dom_tree.hh:208-211 | lowering the semidominator of a root at any time keeps the forest valid |
| `Dsu.UniteKeepsForest` | include/graph/dsu.hh:66-69 | linking keeps every parent and label right |
| `DomTrees.DomTreeBuilder.FindMinSdom` | include/graph/dom_tree.hh:203-214 | the semidominator of a node by the forest-free definition |
| `DomTrees.DomTreeBuilder.FillIdoms` | include/graph/dom_tree.hh:216-231 | the first idom values of exactly the nodes filed under a node |
| `DomTrees.DomTreeBuilder.CalcSdoms` | include/graph/dom_tree.hh:233-254 | all semidominators and first idom values equal their direct definitions |
| `DomTrees.DomTreeBuilder.CalcIdoms` | include/graph/dom_tree.hh:256-277 | final idoms by their definition, and a tree that lists every later node once, under its idom |
| `DomTrees.DomTreeBuilder.constructor` | include/graph/dom_tree.hh:113-120 | the builder ends with the specified semidominators, idoms and tree |
| `DomTrees.FindsArgMin` | include/graph/dom_tree.hh:218-220 | what the forest finds is the specified place of the least semidominator on the chain |
| `DomSpec.SdomIsEarlier` | include/graph/dom_tree.hh:203-214 | every node but the entry has a semidominator discovered before it |
| `DomSpec.IdomIsEarlier` | include/graph/dom_tree.hh:256-277 | every node but the entry has an idom discovered before it, so the tree spans all nodes from the entry |
| `DomSpec.SdomIsLeastDetour` | include/graph/dom_tree.hh:203-214 | a semidominator is the least node with a path to the node through later ones only, in the graph with an edge from each node to the one discovered next |
| `DomSpec.IdomIs` | include/graph/dom_tree.hh:216-277 | the idom in terms of semidominators alone: the semidominator if the root wins the minimum alone or nothing behind it goes before it, else the idom of the nearest node with the least one |
| `DomSpec.HarmlessIff` | include/graph/dsu.hh:55-63 | harm is done exactly if the root alone has the least semidominator of the chain and a node behind it has one before it |
| `DomSpec.ChainedDominanceIff` | include/graph/dom_tree.hh:198-199 | in the graph with an edge from each node to the one discovered next, dominance is decided by semidominators |
| `DomSpec.IdomsExactIff` | include/graph/dsu.hh:55-63 | all computed idoms are the latest nodes that no semidominator in between goes before, if and only if letting the root take part in the minimum does no harm at any node |
| `ChainDominance.TreeIsExactIff` | include/graph/dsu.hh:55-63 | every computed idom is the closest dominator in that graph if and only if letting the root take part in the minimum does no harm at any node |
| `ChainDominance.ChainedDominatorIsReported` | include/graph/dom_tree.hh:48-73 | a dominator of that graph is always reported: the minimum can only make the tree report too much |
| `ChainDominance.ReportedIff` | include/graph/dom_tree.hh:48-73 | without harm the tree reports exactly the dominators of that graph, so it misses a dominator exactly if an added edge opens a way around it |
| `SearchTrees.IsSearchTree` | include/graph/dom_tree.hh:185-201 | in DFS times the parents of the search form a tree in which an edge to a later node goes down and subtrees are intervals |
| `TreeDominance.TreeDominanceIff` | include/graph/dom_tree.hh:203-214 | dominance in the graph itself is decided by semidominators along the path of the search tree |
| `TreeDominance.SoundIff` | include/graph/dom_tree.hh:48-73 | the tree reports only dominators of the graph if and only if every computed idom passes that test |
| `TreeSoundness.TreeIsSoundIff` | include/graph/dom_tree.hh:48-73 | the same for blocks and the search that the builder itself has made |
| `TreeSoundness.BlockReportedIff` | include/graph/dom_tree.hh:48-73 | for blocks: a dominator that survives the added edges is reported; without harm nothing else is |
| `TreeSoundness.HarmlessIsSound` | include/graph/dom_tree.hh:48-73 | without harm the tree is sound |
| `SoundGraph.SoundWithHarm` | include/graph/dsu.hh:55-63 | a graph whose tree is sound although the minimum does harm |
| `DomSpec.LadderIsWrong` | include/graph/dom_tree.hh:198-199 | a concrete graph where the tree reports a dominator that is none |
| `Dominators.IsDominator` | include/graph/dom_tree.hh:48-73 | the stack walk without a visited set ends and decides exactly the ancestor relation |
| `Dominators.EntryIsAbove` | include/graph/dom_tree.hh:48-73 | the entry is above every node |
| `Dominators.AncestorTransitive` | include/graph/dom_tree.hh:48-73 | the ancestor relation is transitive |
| `Dominators.AncestorIsEarlier` | include/graph/dom_tree.hh:48-73 | an ancestor is discovered no later, so the relation is antisymmetric |
| `Dominators.AncestorsAreOrdered` | include/graph/dom_tree.hh:48-73 | the ancestors of a node form a chain |
| `Dominators.BuildDomTree` | include/graph/dom_tree.hh:113-120 | search, renaming by DFS time and builder together meet what the builder requires |
| `Dominators.RenamedIsDiscovered` | include/graph/dom_tree.hh:185-201 | in DFS times every later node has an earlier predecessor |
| `Graphs.NoReturn` | include/graph/dom_tree.hh:32-47 | between the last visit to a dominating node and the node it dominates no path meets a strict dominator of the former |
| `Occurrences.FreshAt` | include/opt/checks_elimination.hh:80-84 | on every path an instruction that stands above has run, and nothing above it has run since |
| `Runs.AboveIsSettled` | include/opt/checks_elimination.hh:80-84 | along every run, loops included, each check above passes and each definition above, constants included, has the value its inputs have now |
| `CheckRuns.ErasingPreservesRuns` | include/opt/checks_elimination.hh:60-117 | erasing checks below equal ones changes no run of any machine: same blocks, values, world and failing check |
| `ChecksEliminations.ChecksElimination.FillCandidates` | include/opt/checks_elimination.hh:119-150 | exactly the checks of the given blocks, each once |
| `ChecksEliminations.ChecksElimination.IsDominator` | include/graph/dom_tree.hh:32-47 | list order within a block, the tree across blocks; what follows for lists and paths is in `EliminationLaws` |
| `ChecksEliminations.UserIsEqual` | include/opt/checks_elimination.hh:69-79 | what passes the test on a user is an equal check, if no check compares a value with itself |
| `ChecksEliminations.SelfBoundLooksEqual` | include/opt/checks_elimination.hh:100-106 | and what passes it otherwise |
| `ChecksEliminations.ChecksElimination.ZeroCheckElim` | include/opt/checks_elimination.hh:60-86 | unless it comes to a user that has been deleted, erases the candidate exactly when a remaining equal check stands above it, whatever the order of the users |
| `ChecksEliminations.ChecksElimination.BoundsCheckElim` | include/opt/checks_elimination.hh:88-117 | the same for bounds checks with the same index and bound; it comes to a deleted user only if an erased check has the index as its bound |
| `ChecksEliminations.ChecksElimination.Run` | include/opt/checks_elimination.hh:18-57 | ends well if no redundant bounds check has as bound what a later candidate compares, and then has erased exactly the reachable checks that had an equal check above them at the start |
| `Redundancy.TopmostAbove` | include/opt/checks_elimination.hh:60-117 | above every redundant check stands an equal one that is not redundant |
| `Redundancy.ErasedIsCovered` | include/opt/checks_elimination.hh:60-117 | every erased check is strictly below an equal survivor |
| `Redundancy.SurvivorsAreUnrelated` | include/opt/checks_elimination.hh:60-117 | no two equal survivors are related by list order or the tree |
| `Redundancy.SoundIsTrulyAbove` | include/graph/dom_tree.hh:32-73 | if the tree reports only dominators, an equal check truly dominates every check called redundant |
| `Redundancy.EliminationPreservesRuns` | include/opt/checks_elimination.hh:18-57 | if an equal check truly dominates every check called redundant, the pass preserves every run |
| `Redundancy.SoundEliminationPreservesRuns` | include/opt/checks_elimination.hh:18-57 | the pass preserves every run on graphs whose tree is sound, in particular where the minimum does no harm |
| `EliminationLaws.LaterIsErased` | include/opt/checks_elimination.hh:60-117 | of two equal checks in the list of one reachable block the later one is erased |
| `EliminationLaws.DominatedIsErased` | include/opt/checks_elimination.hh:60-117 | a reachable check is erased if an equal one stands in another block that dominates its block even with the edges the tree adds |
| `EliminationLaws.ErasedHasEqual` | include/opt/checks_elimination.hh:60-117 | and no other check is: an equal one stands earlier in its list, or in another block that, where the minimum does no harm, dominates with those edges |
| `EliminationLaws.RestStays` | include/opt/checks_elimination.hh:108-117 | nothing but checks goes, and every block lists what is left of it |
| `EliminationLaws.AboveIff` | include/graph/dom_tree.hh:32-47 | dominance between instructions by places in the lists and paths |
| `LadderProgram.LadderIsNamed` | include/graph/dfs.hh:43-97 | the search of the ladder graph discovers its nodes in the order of their names |
| `LadderProgram.PassAccepts` | include/opt/checks_elimination.hh:18-57 | a program on that graph that meets everything the pass asks for |
| `LadderProgram.SecondIsErased` | include/opt/checks_elimination.hh:80-84 | whatever tables the builder ends with, of its checks the pass erases exactly one, which is needed |
| `LadderProgram.RunChanges` | include/opt/checks_elimination.hh:80-84 | and a run that failed there returns |
| `IntrusiveLists.InsertBefore` | include/intrusive_list/intrusive_list.hh:70-84 | the new node joins the ring right before the point |
| `IntrusiveLists.Remove` | include/intrusive_list/intrusive_list.hh:103-116 | the ring closes over the removed node, whose links are null |
| `IntrusiveLists.MoveBefore` | include/intrusive_list/intrusive_list.hh:118-145 | on one ring or two, the range is taken out and put before the point in the same order, and both rings are doubly linked |
| `IntrusiveLists.Relink` | include/intrusive_list/intrusive_list.hh:133-144 | the six pointer writes join exactly the three cut places |
| `IntrusiveLists.Rotate` | include/intrusive_list/intrusive_list.hh:297-315 | a ring may be told from any of its nodes |
| `IntrusiveLists.IList.Insert` | include/intrusive_list/intrusive_list.hh:349-353 | the list with the node at the position |
| `IntrusiveLists.IList.RemoveAt` | include/intrusive_list/intrusive_list.hh:360-365 | the list without the node; the position moves to the next one |
| `IntrusiveLists.IList.EraseRange` | include/intrusive_list/intrusive_list.hh:374-382 | the list without the range |
| `IntrusiveLists.IList.Splice` | include/intrusive_list/intrusive_list.hh:392-396 | the range leaves one list and enters the other before the position, nothing else moves |
| `IntrusiveLists.IList.SpliceWithin` | include/intrusive_list/intrusive_list.hh:392-396 | the same within one list |
| `IntrusiveLists.IList.SpliceThereAndBack` | include/intrusive_list/intrusive_list.hh:392-396 | splicing back restores both lists |
| `DefUse.Body.AddInput` | include/ir/inst.hh:136-141 | the input is appended and users stay exact |
| `DefUse.Body.SetInput` | include/ir/inst.hh:185-196 | one input is replaced; the old value loses the user only if it was used once; users stay exact |
| `DefUse.Body.ClearInputs` | include/ir/inst.hh:198-207 | succeeds if and only if no input is repeated, and then users stay exact |
| `DefUse.Body.SwapInputs` | include/ir/inst.hh:209-214 | two inputs change places, users stay exact |
| `DefUse.Body.SetUsersFrom` | include/ir/inst.hh:239-249 | every reader of the other value reads this one, nobody reads the other any more, users stay exact |
| `DefUse.Body.ReplaceInst` | include/ir/basic_block.hh:291-295 | the new instruction stands where the old one stood and its users read it |
| `DefUse.Body.RemoveInst` | include/ir/basic_block.hh:412-416 | the instruction leaves its block and its inputs lose it as a user |
| `DefUse.RedirectedConsistent` | include/ir/inst.hh:239-249 | redirecting users keeps user sets equal to the instructions that list the value |
| `Arithmetic.Eval` | include/opt/constant_folding.hh:118-183 | every operator stays in the range of the type; only a shift amount out of range has no result; what the results are is in `ArithmeticLaws` |
| `ArithmeticLaws.LimitIsPower` | include/opt/constant_folding.hh:118-183 | a type holds two to the number of its digits on each side of zero |
| `ArithmeticLaws.WrapIsCongruent` | include/opt/constant_folding.hh:118-183 | the cast keeps a number up to whole turns of the type, and whether it is zero for booleans |
| `ArithmeticLaws.OneInRange` | include/opt/constant_folding.hh:118-183 | which leaves one number of the type |
| `ArithmeticLaws.AddNext` | include/opt/constant_folding.hh:131-133 | addition by recursion: zero, and one more |
| `ArithmeticLaws.SubUndoesAdd` | include/opt/constant_folding.hh:134-136 | subtraction undoes addition and addition subtraction |
| `ArithmeticLaws.MulNext` | include/opt/constant_folding.hh:137-146 | multiplication by recursion: zero, and one more addition |
| `ArithmeticLaws.Booleans` | include/opt/constant_folding.hh:131-146 | the three on booleans: or, differ, and |
| `ArithmeticLaws.EqIsZeroDifference` | include/opt/constant_folding.hh:150-152 | equality gives 1 exactly if the difference is 0 |
| `ArithmeticLaws.LeIsOrder` | include/opt/constant_folding.hh:147-149 | the comparison is a strict order, total together with equality |
| `ArithmeticLaws.ShrIsDivision` | include/opt/constant_folding.hh:153-171 | a shift by an amount in range is division by that power of two, rounding down |
| `ArithmeticLaws.OrIsBitwise` | include/opt/constant_folding.hh:172-175 | or sets each bit that one of the operands has |
| `Arithmetic.ShiftIsDivision` | include/opt/constant_folding.hh:169-169 | the shift is division by a power of two towards minus infinity |
| `Arithmetic.ShiftsMergeIff` | include/opt/peephole.hh:157-186 | two shifts equal one shift by the sum if and only if the sum is in range |
| `Arithmetic.OrWithOnes` | include/opt/peephole.hh:216-224 | or with all bits set gives all bits set in every type |
| `Arithmetic.OrWithZero` | include/opt/peephole.hh:196-214 | or with zero gives the other operand |
| `Arithmetic.Commutes` | include/opt/peephole.hh:75-87 | moving the constant to the right keeps the result |
| `Rewriting.RewritingPreservesRuns` | include/opt/peephole.hh:229-250 | instructions that agree wherever the definitions above are settled may be exchanged in every run |
| `Rewriting.ErasingDeadPreservesRuns` | include/ir/basic_block.hh:412-416 | a pure instruction that cannot fail and that nobody reads may be erased or inserted |
| `Equivalence.ChainPreserves` | include/opt/peephole.hh:20-29 | any chain of such steps keeps what an observer sees of every run |
| `FoldSteps.RedirectStep` | include/ir/inst.hh:239-249 | users of an instruction may read another value that always equals its result |
| `FoldSteps.PutInPlace` | include/ir/basic_block.hh:291-295 | what is put before an instruction that then goes stands exactly in its place |
| `PeepHoles.DoAdd` | include/opt/peephole.hh:110-130 | addition of zero: users read the left operand and the addition goes; else nothing changes |
| `PeepHoles.DoShr` | include/opt/peephole.hh:132-189 | shift by zero, and two shifts by constants merged when nobody else reads the first |
| `PeepHoles.DoOr` | include/opt/peephole.hh:191-227 | or with zero and with ones |
| `PeepHoles.DoBinFold` | include/opt/peephole.hh:68-108 | no users: nothing; a constant left operand is swapped; then the rule of the operator |
| `PeepHoles.Run` | include/opt/peephole.hh:20-44 | every binary operation of the reachable blocks is visited in reverse post-order; each visit swaps if the operands ask for it and takes the rule that applies, or changes nothing if none does or nobody reads the operation; it ends well exactly if no visit meets an assertion |
| `PeepHoles.CandidateIff` | include/opt/peephole.hh:31-65 | the candidates are the binary operations that reachable blocks list |
| `PeepHoleLaws.RuleIff` | include/opt/peephole.hh:110-227 | the rules by what the operators compute: the left operand replaces the operation exactly if the right one is a constant that changes no number of the type, the right one if the operation is an or and nothing changes that constant |
| `PeepHoleLaws.ZeroGoes` | include/opt/peephole.hh:75-127 | zero on either side of an addition or an or: who read the operation reads the other operand, in the same places, and the operation is in no block |
| `PeepHoleLaws.OnesGo` | include/opt/peephole.hh:216-224 | all bits on either side of an or: they read that constant |
| `PeepHoleLaws.RightZeroGoes` | include/opt/peephole.hh:75-87 | of two constants only the right one counts |
| `PeepHoleLaws.ZeroShiftGoes` | include/opt/peephole.hh:150-155 | shift by zero |
| `PeepHoleLaws.ShiftsMerge` | include/opt/peephole.hh:157-186 | a constant shift of a constant shift that nobody else reads: one shift by a new sum, which stands where the inner shift stood |
| `PeepHoleLaws.OthersStay` | include/opt/peephole.hh:68-108 | in all other cases nothing changes |
| `PeepHoleProofs.RulePreserves` | include/opt/peephole.hh:115-127 | the rules for zero and ones keep every run |
| `PeepHoleProofs.MergedSsaIff` | include/opt/peephole.hh:178-185 | putting the sum of two amounts where the first shift stood leaves definitions above their uses if and only if the second amount stands above that shift |
| `PeepHoleProofs.MergePreserves` | include/opt/peephole.hh:157-186 | merging shifts keeps every run if the second amount stands above the first shift and the amounts and their sum are in range |
| `MergeProgram.LateAmountChangesRun` | include/opt/peephole.hh:178-185 | a program where the second amount is defined behind the first shift: the pass merges, and the run shows another result |
| `MergeProgram.LargeSumChangesRun` | include/opt/peephole.hh:157-186 | a program with amounts in range whose sum is not: after the pass the run fails |
| `PeepHolePass.PassPreserves` | include/opt/peephole.hh:20-44 | by what the code is like before the pass, each visit keeps it well formed and the whole pass is a chain of steps that keep runs; instructions stay in their order |
| `PeepHolePass.PeepHolePreservesRuns` | include/opt/peephole.hh:20-29 | what `Run` ensures implies that an observer sees the same of every run, if phis take no candidate that a rule may remove and the merges are in range and early enough |
| `ConstantFolding.Fold` | include/opt/constant_folding.hh:90-116 | folds exactly when the operator has a result on the two distinct constants, reports a bad shift amount, aborts otherwise |
| `ConstantFolding.FindFoldable` | include/opt/constant_folding.hh:48-88 | the operations on two constants of the reachable blocks, in order |
| `ConstantFolding.Run` | include/opt/constant_folding.hh:31-45 | folds what was found at the start, each fold a constant step; it succeeds exactly if everything found has a result and reads two different constants and nothing is found twice, and reports an error exactly if the first failure is a shift amount out of range, all by the code at the start |
| `ConstantFolding.FoldAll` | include/opt/constant_folding.hh:31-45 | the loop of the pass, with the same outcome |
| `ConstantFolding.FoundIff` | include/opt/constant_folding.hh:48-88 | what is folded are the binary operations in reachable blocks both of whose operands are constants |
| `ConstantFolding.ConstStepPreserves` | include/opt/constant_folding.hh:35-44 | one fold keeps every run |
| `ConstantFolding.FoldingPreservesRuns` | include/opt/constant_folding.hh:31-45 | what `Run` ensures implies that an observer sees the same of every run, if no phi of the code takes what is folded |
| `LoopTrace.HeadsAreExact` | include/analysis/loop_analyzer.hh:272-292 | the headers in finish order are exactly the targets of back edges: when a header is finished, a back edge to it has been seen |
| `LoopTrace.HeadsAreOrdered` | include/analysis/loop_analyzer.hh:216-222 | the header populated later never is dominated by an earlier one: inner headers come first |
| `LoopTrace.SourcesJoin` | include/analysis/loop_analyzer.hh:280-292 | latches are listed in the order in which their edges are reported |
| `LoopTrace.FoundFirst` | include/analysis/loop_analyzer.hh:280-292 | a loop is found before another if the first edge back to it comes before every edge back to that one |
| `LoopTrace.LoopsAreNatural` | include/analysis/loop_analyzer.hh:280-292 | if every header dominates the sources of its back edges, what the search reports is a natural loop structure |
| `LoopSpec.HeaderDominates` | include/analysis/loop_analyzer.hh:143-197 | a header dominates every node that reaches a source of a back edge without passing it |
| `LoopSpec.Nested` | include/analysis/loop_analyzer.hh:184-190 | two loops that share a node are nested: the header finished first lies in the loop of the other |
| `LoopSpec.InnerInside` | include/analysis/loop_analyzer.hh:184-190 | a loop whose header lies in another one lies in it with all its nodes |
| `LoopAnalyzers.CollectLoops` | include/analysis/loop_analyzer.hh:295-304 | dominator tree, search and visitor: latches by header, headers and other blocks in finish order, and the flag of each loop is the answer of the tree on its first back edge |
| `LoopAnalyzers.CollectBackEdges` | include/analysis/loop_analyzer.hh:280-292 | the tables after all events of the search |
| `LoopSearches.SearchIsExact` | include/analysis/loop_analyzer.hh:166-196 | a finished backward search has visited exactly the nodes that reach a source of a back edge without passing the header |
| `LoopSearches.GoOnTo` | include/analysis/loop_analyzer.hh:194-196 | going on to an unvisited predecessor keeps the invariant of the backward search |
| `LoopSearches.OneMeetOrder` | include/analysis/loop_analyzer.hh:153-197 | the order in which the search meets the blocks of a loop is determined by the predecessor lists and the latches |
| `LoopSearches.MeetOrderIsOnce` | include/analysis/loop_analyzer.hh:153-197 | it has each node of the loop but the latches once |
| `RecursiveSearch.MeetOrderIsWalk` | include/analysis/loop_analyzer.hh:153-197 | and is that of the recursive search backwards from the latches, the last one first, predecessors in order |
| `LoopAnalyzers.LoopAnalyzer.SearchBack` | include/analysis/loop_analyzer.hh:153-197 | the search ends, meets the blocks backwards from the latches, depth first, in that one order, and its effect is that of meeting them in it |
| `LoopAnalyzers.LoopAnalyzer.Populate` | include/analysis/loop_analyzer.hh:143-197 | latches without an owner get the loop; an irreducible loop gets nothing else; a reducible one is filled in the order of the search |
| `LoopAnalyzers.LoopAnalyzer.Meet` | include/analysis/loop_analyzer.hh:177-190 | a free node enters the body; the loop of an owned one becomes an inner loop if it has no outer loop yet |
| `LoopFilling.MeetAllIs` | include/analysis/loop_analyzer.hh:172-193 | whatever the order in which nodes are met: the free ones are owned, exactly the touched loops without outer loop are linked, and each new part is listed once |
| `LoopOwnership.NextLoop` | include/analysis/loop_analyzer.hh:216-222 | filling the next loop moves from the specified owners, outer loops and bodies to the specified ones |
| `LoopOwnership.FilledInOrder` | include/analysis/loop_analyzer.hh:172-193 | the new parts of a body are its own blocks as they are met, and a loop right inside when the first block of its own is met |
| `LoopOwnership.OwnerIsInside` | include/analysis/loop_analyzer.hh:184-190 | the owner of a block lies inside every loop with the block that is populated later |
| `LoopAnalyzers.LoopAnalyzer.constructor` | include/analysis/loop_analyzer.hh:210-244 | flags are the answers of the tree; in a regular graph every reachable block has one owner, a header its own loop, another block the innermost loop with it, what is left the root; outer loops are innermost too, and bodies list the latches and then the other parts in the order of the search; there is a root loop exactly if some reachable block is in no loop, its body is these blocks in finish order and then the loops in no other one as they were found, and exactly these have it for their outer loop; in any graph, one loop after the other is populated and then the root is added |
| `LoopAnalyzers.LoopAnalyzer.FillRoot` | include/analysis/loop_analyzer.hh:229-243 | blocks without a loop enter the root loop in finish order, and behind them the loops without an outer one as they were found; nothing else changes |
| `LoopAnalyzers.RootIsNeeded` | include/analysis/loop_analyzer.hh:224-225 | the counts are equal exactly if every reachable block has an owner |
| `LoopAnalyzers.RootedIs` | include/analysis/loop_analyzer.hh:229-243 | the root loop in terms of natural loops |
| `LoopTables.AnalysisOnce` | include/analysis/loop_analyzer.hh:210-244 | what the visitor recorded determines the tables, in any graph |
| `LoopTables.AnalysisCovers` | include/analysis/loop_analyzer.hh:210-244 | in any graph exactly the reachable blocks have owners, a header its own loop, and outer loops are loops or the root |
| `LoopTables.IrreducibleHasLatches` | include/analysis/loop_analyzer.hh:143-151 | the body of an irreducible loop is its latches, and every latch belongs to some loop other than the root |
| `LoopFlags.FlagIff` | include/analysis/loop_analyzer.hh:280-292 | the flag of a loop is set if its header dominates its first latch even with the edges the tree adds; without harm, only then |
| `LoopFlags.RegularFromGraph` | include/analysis/loop_analyzer.hh:210-244 | if with those edges every header still dominates its latches, the loops are natural and flagged so |
| `GuardedLoop.LoopIsMissed` | include/analysis/loop_analyzer.hh:280-292 | on edges 0-1, 0-2, 1-2, 1-3, 3-1 every analysis flags the loop of 1 irreducible although 1 dominates its latch 3 |
| `GuardedLoop.GuardedIsHarmless` | include/graph/dom_tree.hh:198-199 | which is not due to the minimum |
| `LoopAnalyzers.AllOwned` | include/analysis/loop_analyzer.hh:224-225 | if as many blocks are owned as were visited, no block is left for a root loop |
| `LinearOrders.InnerBefore` | include/analysis/loop_analyzer.hh:216-222 | the header of an inner loop is finished before that of the outer one, so outer links have no cycle |
| `LinearOrders.BodiesNest` | include/analysis/loop_analyzer.hh:86-101 | the recursion over inner loops ends |
| `LinearOrders.GetLinearOrder` | include/analysis/loop_analyzer.hh:86-101 | header, then the parts of the body backwards |
| `LinearOrders.GetLastBB` | include/analysis/loop_analyzer.hh:103-112 | the block found at the front of the bodies is the last one of the linear order of the loop |
| `LinearOrders.LastIsLatch` | include/analysis/loop_analyzer.hh:103-112 | which is the source of the first back edge; the order starts with the header |
| `LinearOrders.LoopOrderHas` | include/analysis/loop_analyzer.hh:86-101 | the linear order of a loop holds its header and the nodes of its natural loop, nothing else |
| `LinearOrders.LoopOrderOnce` | include/analysis/loop_analyzer.hh:86-101 | and none of them twice, if no back edge is doubled and no inner loop owns a latch |
| `LinearOrders.RepeatedLatch` | include/analysis/loop_analyzer.hh:86-101 | and only then |
| `LinearOrders.SomePartHolds` | include/analysis/loop_analyzer.hh:177-190 | every node of a loop is an own block of it or in a loop right inside |
| `LinearOrders.PartsDisjoint` | include/analysis/loop_analyzer.hh:177-190 | and in only one of them |
| `LinearOrders.InnerPiece` | include/analysis/loop_analyzer.hh:86-101 | the order of an inner loop is a contiguous piece of that of the outer one |
| `LinearOrders.BuildLinearOrder` | include/analysis/liveness.hh:269-303 | the order lists exactly the reachable blocks, the entry first; no block twice, and the closing assertion holds, if and only if no back edge is doubled and no inner loop owns a latch; every loop is one contiguous piece, and these pieces follow the reverse post-order |
| `LinearOrders.LoopIsFresh` | include/analysis/liveness.hh:281-296 | when a header is laid out none of the blocks of its loop has been |
| `LinearOrders.SharedFilling` | include/analysis/loop_analyzer.hh:80-84 | two loops with one latch: what the populating makes of their bodies |
| `LinearOrders.SharedLatchTwice` | include/analysis/loop_analyzer.hh:86-101 | and the latch then stands twice in the order of the outer loop |
| `LinearOrders.HeaderFilling` | include/analysis/loop_analyzer.hh:172-190 | three loops where a header is a latch: what the populating makes of their bodies |
| `LinearOrders.UnmetLoopOnce` | include/analysis/liveness.hh:281-303 | one of them is in no body, so although its latch belongs to an inner loop nothing is laid out twice |
| `BlockLayouts.RunIsLoop` | include/analysis/liveness.hh:191-198 | the places from a header to its last block hold exactly the loop |
| `BlockLayouts.LayoutIsValid` | include/analysis/liveness.hh:37-43 | the code laid out in this order is code that liveness takes |
| `BlockLayouts.LayoutServesLiveness` | include/analysis/liveness.hh:37-43 | what liveness assumes about loops holds of it if and only if no edge goes back in the order but back edges of the search; the rows on `BlockOrders` say when |
| `BlockOrders.UnitsGoOn` | include/analysis/liveness.hh:281-296 | between the loops no other edge goes back: an edge leads to no earlier block of the reverse post-order or its loop |
| `BlockOrders.LoopsContiguousIff` | include/analysis/loop_analyzer.hh:86-101 | what liveness assumes about loops holds of the code laid out if and only if in every loop the search backwards meets what a part leads to before the part |
| `BlockOrders.PlainLoopIff` | include/analysis/loop_analyzer.hh:153-197 | for a loop that owns all its blocks: every block is met after those it leads to |
| `BlockOrders.AnalysisGivesOrder` | include/analysis/liveness.hh:269-303 | analyzer and order together give what that theorem needs |
| `BranchInLoop.OrderFound` | include/analysis/liveness.hh:269-303 | the order of a loop with a branch in its body, whatever the analysis: one side stands before the branch |
| `BranchInLoop.BranchIsNotContiguous` | include/analysis/liveness.hh:269-303 | so its code never is as liveness wants it |
| `BranchProgram.BranchSharesRegister` | include/analysis/liveness.hh:125-147 | a program on it, in SSA form: two values live at one point, the interval of one has ended, and with any number of registers they get the same |
| `Pipeline.PlacesDiffer` | include/analysis/regalloc.hh:84-174 | from loop analysis, linear order, liveness and scan together: where in every loop blocks are met after their successors, two values that occupy places at one point have different locations |

## Left out

- Names instead of pointers: values, instructions, blocks and nodes are numbers; a pointer into a table is the
  key of its entry. `LiveInterval` is kept in two tables by value, one for start and end, one for the location.
- Blocks in the liveness model are named by their position in the linear order; nodes in the dominator tree and
  in the forest by their DFS time. The renaming from a graph is `Dominators.BuildDomTree`.
- `kNumRegs` is any K > 0. Live numbers, stack slots and counts do not overflow.
- `std::sort` and `std::multiset` with equal keys: insertion with ties kept in order; the theorems on the rule
  hold for every order by start.
- Hash sets: the order of users is arbitrary in `ZeroCheckElim`, `BoundsCheckElim` and `SetUsersFrom`.
- Liveness hypotheses: forward edges go forward in the linear order and each backward edge goes to a reducible
  header whose contiguous run contains its source (`LoopsContiguous`). `BlockOrders.LoopsContiguousIff` says when
  code laid out in the linear order has this; `BranchInLoop` does not.
- Loops: graphs without self edges. Owners, nesting and the linear order are proved for `Regular` graphs: each header
  dominates the sources of its back edges and is flagged so, and every inner loop has a block of its own that is no
  latch of the next outer loop (`LoopsAreMet`; `LinearOrders.UnmetLoopOnce` is a graph without). The first part
  follows from the graph if headers dominate even with the edges the tree adds (`StaysReducible`). Of other
  graphs the constructor and `LoopTables` say what the tables hold, but not which natural loops these are.
- Allocation.OccupiedPlacesDiffer: needs `LoopsContiguous`, which the layout does not always give, and counts the phi
  reads that the pass sees; see `BranchProgram` and `BackEdgeReads` for what happens otherwise.
- `ReadOnExit` counts the phi reads the pass sees; for those on back edges `BackEdgeReadCovered` says exactly
  when they are covered.
- `m_linearNum` is written by the pass and read nowhere.
- The dominator tree requires every predecessor of a reachable block to be reachable; the original throws
  otherwise.
- Check elimination: after erasing the candidate the original goes on with an iterator it has invalidated; the
  model stops there. An erased check stays among the users of its bound in the original, which reads it again when
  a later candidate compares that value; the model then ends with `ok` false and claims nothing more. No check
  compares a value with itself (`IndicesDiffer`, see `SelfBoundLooksEqual`).
- Redundancy.EliminationPreservesRuns: needs `TrulyAbove`, which `LadderProgram` does not meet.
- PeepHoleProofs.MergePreserves: needs amounts and sum in range and the second amount above the first shift, because
  the rule checks neither; see `MergeProgram`. The pass theorem asks the same of its merges (`MayMerge`).
- Peephole and folding: a phi must not take an instruction that is removed (`PhisTakeWhatStays`, `NoPhiReads`),
  because `setUsersFrom` does not update the entries. `replaceInst` leaves the block pointer of the new instruction
  unset; the model sets it.
- Machine: the phis of a block run one after the other, each on the values the ones before it have written, and not
  all at once on entry; the sources leave open which it is.
- `ConstantFolding`: overflow of 32- and 64-bit arithmetic, undefined in the original, wraps. Folding of casts
  reads the source constant in the destination type and is not modelled.
- `PeepHoles.DoBinFold` and `ConstantFolding.Fold` report when the original stops at an assertion; nothing is
  claimed of the state after that.
- `IntrusiveLists`: nodes are not deallocated, iterators are the nodes they point to.
- `updateLinks`, which erases from the vector it iterates over, inlining, printing, the command line, allocation
  traits and iterator plumbing.
