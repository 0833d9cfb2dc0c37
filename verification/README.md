# Verification model of MIRNext

MIRNext is a small just-in-time compiler. This project models the part of it between
machine code generation and relocatable bytes, and proves what its passes are for: that the
graph analyses compute their path-based meaning, that register allocation does not change
what a program computes, that vector lowering is exact lane by lane, and that layout,
frames and relocation put things where they are later looked for.

The C++ code works in place; so does the model. Every pass is a Dafny method with the loops
of the original, proved against a specification, or a class where the original is an object
whose methods update it (`EdgeEditor.Editor`, `BranchLayout.Engine`). Local vectors and maps
are `seq` and `map` variables that the methods reassign; byte buffers are arrays. Straight-line
code that emits instructions is a term builder with an evaluator. `SparseBitSet` is a set of
naturals. Opcodes are uninterpreted functions, so that every result holds for all of them.

## How it fits together

* **Graph analyses.** `Graphs`, `Traversal` (depth-first numbering with an explicit stack),
  `Ancestry`, `Dominance`, `Dominators`, `Intervals` (the dominator fixpoint and constant-time
  queries), `DataFlow` and `Liveness` (two worklists and two block summaries), `DisjointSets`,
  `NaturalLoops`, `LoopForest` (loop trees built with path compression). Each method's contract is the
  path-based meaning: dominance is "every path from the entry", liveness is "some path to a use
  before a kill", a loop is "what reaches a back edge without passing the header".
* **Register allocation.** `MachineCode`, `Renaming`, `ConflictMatrix`, `Rings`, `Coalescing`,
  `CoalescingPass`; `LiveScan`, `PointCompression`, `LiveRanges`; `AllocationState`, `Reservation`,
  `GapEviction`, `GapSearch`, `RegisterChoice`, `EvictionPlan`, `StackSlots`, `Assignment`;
  `EdgeSpillSemantics`, `EdgeSpills`, `EdgeSpillPlacement`. `LiveCheck` compares the liveness analysis
  with the range scan, and `AllocationSafety` joins the live-range scan, the compression and the
  assignment into statements about single instructions. `SpillSlots` gives spilled registers their
  slots, `FunctionRuns` runs a function over physical registers and stack, and `OperandRuns` and
  `AllocatedRuns` prove that the allocated function with its spill code runs like the original, ending
  in `AllocatedRuns.Allocate`.
* **Edges and dead code.** `Topology`, `EdgeEdits`, `EdgeGraphs`, `EdgeEditor`, `ControlFlow` split
  control-flow edges while the edge lists stay the canonical graph and runs stay the same;
  `SpillSplits` splits the edges that spill code needs;
  `DeadCode` deletes results nobody reads.
* **Vectors.** `Words`, `WordCode`, `Rounding` (IEEE 754-2019 section 5.9 rounding on bit patterns),
  `VectorShuffle`, `VectorCompare`, `VectorMultiply`, `VectorPopcount`.
* **Layout and relocation.** `BranchLayout`, `ByteOrder`, `BranchFields`, `BlockRelocation`.
* **Frames and calls.** `FrameMachine`, `X86Frame`, `AArch64Frame`, `CallArea`.
* `Optional`, `Finite`, `Sorting`, `LiveRange` and `Alignment` hold shared definitions.

## What the proofs found

Five properties hold only under a condition. The code is modelled as it is; the condition is
stated as an if-and-only-if.

* **Short branches across switch tables.** The estimate pass counts table cells but not the
  padding before a table, so a branch chosen as short can miss its field. A switch recipe is safe
  in every body exactly when its conservative size exceeds the emitted size by 7 or more
  (`BranchLayout.TableRoomExact`). The only switch recipe emits 11 bytes and is planned as 12, so
  the short-branch property holds of bodies without switches (`BranchLayout.AllFit`) and not of
  those with them (`BranchLayout.SwitchesUnsafe`, `BranchLayout.TablePaddingOverflows`).
* **The variadic save area on AArch64 Linux.** When its offsets do not fit an address, the base
  register is loaded with the offset alone and never with the stack pointer, so the argument
  registers are stored near address zero. The area is filled for all callers exactly when the frame
  is small enough (`AArch64Frame.ArgumentsSavedIff`).
* **The outgoing call area.** The reserving walk skips a leading return block before it takes the
  registers away from variadic arguments, and the placing walk after. Both agree exactly when the
  call does not start with a variadic return block (`CallArea.PlacedIsReserved`). IR verification
  (lib/IR/IR.cpp:1026-1028) supplies that (`CallArea.VerifiedAgrees`).
* **The live-in check.** The liveness analysis removes the results of a call after adding the
  globals it reads, and adds its arguments after removing early clobbers; the range scan does both
  the other way round. They agree exactly when a call neither writes a global it does not read nor
  loses an argument to an early clobber (`LiveCheck.AgreeExactly`).
* **Edges that cannot be split.** A single edge out of a block that several edges enter is refused
  when the block ends in a conditional branch or a switch, and a shared destination when a
  conditional branch without labels falls into it. `EdgeEditor.Editor.Split` says exactly which
  edges are refused; spill code asks for none of them (`SpillSplits.SplitEdges`).

## Model

| member | source | states |
|---|---|---|
| `Traversal.Enumerate` | lib/Analysis/FunctionGraph.cpp:96-126 | Numbers are given to exactly the reachable blocks; reverse postorder numbers are distinct, least at the entry, and every other reachable block has a predecessor below it; an edge is a back edge exactly when it does not go up from a reachable block |
| `Traversal.Advance` | lib/Analysis/FunctionGraph.cpp:107-121 | One step of the stack walk keeps all invariants of the half-finished numbering and makes progress, which is what makes the loop terminate |
| `Dominance.Intersect` | lib/Analysis/FunctionGraph.cpp:145-151 | The block where two parent chains meet has as ancestors exactly the common ancestors of both |
| `Dominance.MeetPredecessors` | lib/Analysis/FunctionGraph.cpp:158-163 | The candidate parent has as ancestors exactly the common ancestors of all predecessors that have a parent yet |
| `Dominators.Visit` | lib/Analysis/FunctionGraph.cpp:156-168 | A visit that changes a parent lowers the sum of parent ranks, and one that changes nothing leaves the block at its fixpoint equation |
| `Dominators.ComputeParents` | lib/Analysis/FunctionGraph.cpp:152-169 | The sweeps terminate, exactly reachable blocks get a parent, and ancestry in the tree of parents is path dominance |
| `Dominators.SortByRank` | lib/Analysis/FunctionGraph.cpp:122-125 | The visiting order lists every block by rank, blocks of equal rank in layout order |
| `Dominance.FixpointIsDominance` | lib/Analysis/FunctionGraph.cpp:152-169 | At any fixpoint of the sweep the ancestors of a block are exactly the blocks on every path to it from the entry |
| `Intervals.Number` | lib/Analysis/FunctionGraph.cpp:170-189 | Begin and end times nest exactly when one block is an ancestor of the other |
| `Dominators.AnalyzeDominators` | lib/Analysis/FunctionGraph.cpp:127-191 | The interval query answers dominance for all pairs of blocks: true exactly when every path from the entry to the block passes the candidate, and true for unreachable blocks |
| `DataFlow.Enqueue` | lib/Analysis/FunctionGraph.cpp:255-284 | A ring of one more cell than blocks never overflows, and enqueuing appends to its contents in order |
| `DataFlow.Dequeue` | lib/Analysis/FunctionGraph.cpp:263-267 | Dequeuing takes the oldest entry and clears its mark |
| `DataFlow.RingWorklist` | lib/Analysis/FunctionGraph.cpp:255-286 | The ring-buffer worklist terminates in a solution of all equations that holds nothing without a path demanding it |
| `DataFlow.SoundSolutionIsExact` | lib/Analysis/FunctionGraph.cpp:200-286 | Such a solution holds a register at a block exactly when some path from there reaches a use before a kill |
| `DataFlow.SoundSolutionIsLeast` | lib/Analysis/FunctionGraph.cpp:255-286 | It lies below every other solution of the equations |
| `Liveness.SummarizeForward` | lib/Analysis/FunctionGraph.cpp:225-254 | The forward scan of a block computes the uses before definitions and the definitions |
| `Liveness.SummarizeBackward` | lib/CodeGen/Liveness.cpp:203-238 | The reverse scan of a block computes the same summary |
| `Liveness.VisitBlock` | lib/CodeGen/Liveness.cpp:252-270 | Every block that is not scheduled satisfies its equation, and a visit either schedules nothing or strictly shrinks what is missing |
| `Liveness.EpochWorklist` | lib/CodeGen/Liveness.cpp:240-273 | The worklist that swaps two lists between epochs terminates in the same least solution |
| `DisjointSets.Find` | lib/Analysis/FunctionGraph.cpp:306-315 | Path compression returns the root that walking the links would reach, and changes no root of any node |
| `LoopForest.CollectLoop` | lib/Analysis/FunctionGraph.cpp:328-355 | The backward search ends with the natural loop of the header, by representatives, or finds the entry in it exactly when the entry belongs to it |
| `LoopForest.AddLoop` | lib/Analysis/FunctionGraph.cpp:356-366 | The new node's blocks are the natural loop of its header and older loops are unchanged |
| `LoopForest.BuildLoops` | lib/Analysis/FunctionGraph.cpp:316-366 | Inner loops first, every header whose loop the entry is not in gets one node with exactly its natural loop |
| `LoopForest.AnalyzeLoops` | lib/Analysis/FunctionGraph.cpp:295-376 | The loop tree: parents after children under one root, a node for each header whose loop the entry is outside of and for no other, and the blocks under each loop node are exactly the natural loop of its header |
| `NaturalLoops.HeaderDominates` | lib/Analysis/FunctionGraph.cpp:341-356 | A header dominates all members of its loop, and the sources of its back edges, exactly when the entry is not a member |
| `NaturalLoops.NestedMember` | lib/Analysis/FunctionGraph.cpp:328-366 | Natural loops of different headers nest or are apart |
| `LoopForest.Depth` | lib/Analysis/FunctionGraph.cpp:287-294 | Walking the parents counts the loops above a block |
| `LoopForest.Depths` | lib/CodeGen/GraphAnalysis.cpp:129-137 | One pass from the last node down computes the same depth for every block |
| `LoopForest.DepthCountsLoops` | lib/CodeGen/GraphAnalysis.cpp:49-137 | A depth is the number of natural loops around the block |
| `ConflictMatrix.BitDeterminesPair` | lib/CodeGen/Coalescing.cpp:33-38 | Cells of the triangular conflict matrix belong to one unordered pair each |
| `ConflictMatrix.Mark` | lib/CodeGen/Coalescing.cpp:132-140 | Marking records exactly the new conflicts, in both directions |
| `Rings.RenameRing` | lib/CodeGen/Coalescing.cpp:187-192 | The walk gives every member of the ring the new representative and finds its last member |
| `Rings.Join` | lib/CodeGen/Coalescing.cpp:187-196 | Splicing two circular lists keeps the classes a partition and moves exactly one class under the other representative |
| `Rings.RingsDisjoint` | lib/CodeGen/Coalescing.cpp:152-196 | Rings of different representatives share no register |
| `Coalescing.SelectRegisters` | lib/CodeGen/Coalescing.cpp:94-102 | The scan numbers registers of moves up to its limit, all of them if the limit is not reached |
| `Coalescing.ScanBody` | lib/CodeGen/Coalescing.cpp:126-147 | The reverse walk of a block adds exactly the conflicts of its definitions, a move's source excepted, and arrives at what is live above |
| `Coalescing.ScanConflicts` | lib/CodeGen/Coalescing.cpp:125-150 | The matrix holds exactly the conflicts of the program, and the check against live-in sets never fails |
| `Coalescing.ConflictBetween` | lib/CodeGen/Coalescing.cpp:158-172 | The nested ring walk finds a conflict exactly when some pair of members conflicts |
| `Coalescing.MergeMoves` | lib/CodeGen/Coalescing.cpp:173-197 | Merged classes are free of conflicts, each is named by its hardware-bound member or else by its least one, and each move either is inside a class or its classes conflict or are both bound |
| `Coalescing.MergedIsSafe` | lib/CodeGen/Coalescing.cpp:125-197 | Conflict-free classes are safe to rename: no instruction writes a class while another member with a different value is live |
| `Renaming.RunsAgree` | lib/CodeGen/Coalescing.cpp:198-242 | Renaming registers to representatives and deleting moves inside a class keeps every run, for any number of steps: two live members of a class always hold equal values |
| `Renaming.SelfMovesGone` | lib/CodeGen/Coalescing.cpp:198-242 | No move of a renamed body has equal operands |
| `CoalescingPass.Coalesce` | lib/CodeGen/Coalescing.cpp:74-249 | The whole pass: every run makes the same progress and bound registers keep their names; when the moves name fewer registers than the limit the result is the renamed program, without moves inside a class, and each move is merged or kept apart by a conflict or by two hardware bindings, and otherwise nothing changes |
| `LiveScan.ScanCall` | lib/CodeGen/LiveRanges.cpp:114-138 | Above a call exactly the virtual registers live there are recorded as crossing; clobbers, arguments and what lives across share a point, and nothing else is at that point; it fails exactly when the points run out |
| `LiveScan.ScanInst` | lib/CodeGen/LiveRanges.cpp:107-153 | What one step of the instruction touches or finds alive shares a point, every new point holds only registers of one such step, earlier points gain nothing, the living set becomes the live set above, and exactly so many points are used; it fails exactly when they run out |
| `LiveScan.ScanBlock` | lib/CodeGen/LiveRanges.cpp:98-171 | It fails exactly when the live-in set disagrees with the instructions or the points run out; a block's ranges are large enough for every instruction, each new point holds only what one step of an instruction touches or finds alive, or what is live into the block, and exactly the registers that live through without a reference get a whole-block range |
| `LiveCheck.AgreeExactly` | lib/CodeGen/Liveness.cpp:207-237 | The liveness analysis and the range scan agree about an instruction, whatever is live below it, exactly when no early clobber hits a call argument and no call writes a global that it does not also read |
| `LiveCheck.Summarize` | lib/CodeGen/Liveness.cpp:204-238 | The block summary collected from the end acts like the analysis of one instruction after the other |
| `LiveCheck.CheckHolds` | lib/CodeGen/LiveRanges.cpp:154-155 | Where they agree, live-in sets that solve the liveness equations pass the check of the scan |
| `PointCompression.MapPoints` | lib/CodeGen/LiveRanges.cpp:182-193 | The renumbering is monotone, separates a death from every later birth, and gives two events one point whenever no birth follows a death between them |
| `PointCompression.MeetExactly` | lib/CodeGen/LiveRanges.cpp:182-198 | Two ranges intersect after renumbering exactly when they did before |
| `PointCompression.Join` | lib/CodeGen/LiveRanges.cpp:194-212 | Merging keeps the points each register covers, apart for whole-block ranges and for others, and leaves a point between neighbours of one kind |
| `PointCompression.Compress` | lib/CodeGen/LiveRanges.cpp:172-212 | Registers interfere after compression exactly when they did before |
| `LiveRanges.BuildRanges` | lib/CodeGen/LiveRanges.cpp:60-213 | Ranges of a whole function: those of two registers meet exactly when somewhere both are live, or one is written, clobbered or early-clobbered, or passed to a call, while the other is live or touched at the same step; marked with a block exactly when the register only crosses it, exact about crossing calls, compressed; it fails exactly when some live-in set disagrees or the points of all blocks exceed the limit, never after compression; the kill sets hold what each block refers to |
| `AllocationState.Reserve` | lib/CodeGen/Assignment.cpp:138-156 | Bits are set or cleared at exactly the points of a range |
| `GapSearch.FindGaps` | lib/CodeGen/Assignment.cpp:208-235 | What is added are exactly the gaps of the register over the range, from left to right, without the first where the list ended with it already, and the total is what they cost, capped just above the largest deduction |
| `GapSearch.GapsDisjoint` | lib/CodeGen/Assignment.cpp:156-235 | Gaps of one physical register never overlap |
| `RegisterChoice.Consider` | lib/CodeGen/Assignment.cpp:262-297 | A register is possible exactly when each range of the value finds it free, held only by gaps, or can itself be given up; a possible candidate comes with a plan that names every gap in the way and nothing that is not, and its profit is the frequency of the value less what the plan costs; the cost arithmetic does not overflow while one spill cost a point is affordable |
| `RegisterChoice.Choose` | lib/CodeGen/Assignment.cpp:253-310 | A free register always wins over evictions, and of the free ones the first that calls clobber; otherwise none is chosen exactly when no possible candidate breaks even, and the one chosen is the first that no other beats by profit, by being clobbered by calls, or by the points it takes from gaps; its plan makes room for every range that stays |
| `EvictionPlan.EvictPlan` | lib/CodeGen/Assignment.cpp:332-344 | Evicting the plan keeps all bookkeeping, marks every block of an evicted range as spilled and touches nothing else |
| `Reservation.PlaceRegister` | lib/CodeGen/Assignment.cpp:345-356 | Reserving the register's ranges keeps all bookkeeping: firm ranges in both sets, whole-block ranges as gaps |
| `StackSlots.Conflicts` | lib/CodeGen/Assignment.cpp:246-252 | Exactly the registers and stack units held at some point of the value are collected |
| `StackSlots.FindReusable` | lib/CodeGen/Assignment.cpp:316-327 | A slot is reused exactly when an aligned one inside the stack is free of every conflicting unit, and then the lowest such slot |
| `Assignment.AssignStack` | lib/CodeGen/Assignment.cpp:110-115 | A register on the stack has 16 bytes if it is wide and 8 otherwise, at a multiple of its size, and shares no byte with a register it overlaps; addressable slots are never shared |
| `SpillSlots.PreserveAll` | lib/CodeGen/SpillEmitter.cpp:110-148 | Every register that is to be preserved gets a slot, reused where nothing live with it holds the units; slots and stack locations of registers that share a point stay disjoint, and stack locations stay where they are |
| `Assignment.AssignOne` | lib/CodeGen/Assignment.cpp:237-356 | One register of the priority order is placed: in the preferred free register without evicting anything if there is one; others keep their locations and all invariants hold; it cannot fail without evictions, nor while one spill cost a point is affordable |
| `Assignment.Assign` | lib/CodeGen/Assignment.cpp:110-356 | The whole run succeeds without evictions, and with them while one spill cost a point is affordable; then every register with a range has a location, in registers that accept it, only hardware registers are recorded as spilled and only in blocks they cross, and all invariants hold |
| `Assignment.NeverDoubleBooked` | lib/CodeGen/Assignment.cpp:156-356 | At each point a physical register holds at most one resident range |
| `Assignment.UsedNotBusyIsGaps` | lib/CodeGen/Assignment.cpp:156-356 | `used` without `busy` is exactly what the gaps cover |
| `Assignment.CallsPreserve` | lib/CodeGen/Assignment.cpp:241-292 | A value that crosses a call is on the stack, in a register the call preserves for its type, or spilled in every block of the crossing range |
| `AllocationSafety.BuiltRangesFit` | lib/CodeGen/LiveRanges.cpp:172-213 | Built ranges meet everything the assignment assumes of ranges |
| `AllocationSafety.LiveAcrossCall` | lib/CodeGen/LiveRanges.cpp:114-138 | At every call instruction, each virtual register live across it is on the stack, preserved, or recorded as spilled in that block |
| `AllocationSafety.SharersSpill` | lib/CodeGen/Assignment.cpp:332-356 | Two registers with a live point in common share a physical register only if one of them is recorded as spilled in that block |
| `AllocationSafety.SpilledCrosses` | lib/CodeGen/Assignment.cpp:332-344 | A register recorded as spilled in a block lives through it, sits in hardware elsewhere, and no instruction of the block refers to it |
| `AllocationSafety.WritesSpareLive` | lib/CodeGen/LiveRanges.cpp:107-153 | What an instruction writes, virtual or physical (results, call clobbers, early clobbers, argument registers), is never the physical register of another value live there, unless that value is recorded as spilled and only crosses the block |
| `Sorting.Sort` | lib/CodeGen/EdgeSpills.cpp:301-305 | Sorting gives a sorted permutation and keeps elements distinct |
| `Sorting.Unique` | lib/CodeGen/EdgeSpills.cpp:373 | Dropping equal neighbours keeps the elements and their order |
| `EdgeSpills.CollectElements` | lib/CodeGen/EdgeSpills.cpp:278-295 | Exactly the stores and restores that an edge demands are collected |
| `EdgeSpills.MarkEdges` | lib/CodeGen/EdgeSpills.cpp:312-319 | Edges are marked for their source unless a branch that reads registers stands in the way of a restore |
| `EdgeSpills.Decide` | lib/CodeGen/EdgeSpills.cpp:306-346 | The decision for every edge with work to do: hoisted exactly when all edges of its source agree and its destination does not take it alone, sunk exactly when all edges of its destination agree and its source does not take it, never needlessly both |
| `EdgeSpillPlacement.Arrange` | lib/CodeGen/EdgeSpills.cpp:347-373 | One placement for each wanted element, in emission order, without duplicates |
| `EdgeSpillPlacement.Emit` | lib/CodeGen/EdgeSpills.cpp:374-387 | Insertions leave each list in the order in which it runs |
| `EdgeSpillPlacement.Insert` | lib/CodeGen/EdgeSpills.cpp:277-387 | The code met along every edge stores and restores exactly what the edge needs, stores before restores |
| `EdgeSpillSemantics.ServeFinds` | lib/CodeGen/EdgeSpills.cpp:277-387 | Code that serves an edge takes values found at the end of its source to values found at the start of its destination |
| `EdgeSpillPlacement.FoundOnEveryPath` | lib/CodeGen/EdgeSpills.cpp:277-387 | On every path, every live-in value is in its slot on entering a block that holds it spilled, and in its register otherwise, if the blocks themselves keep values where they belong |
| `EdgeSpillPlacement.BranchSeesRegisters` | lib/CodeGen/EdgeSpills.cpp:312-316 | Code above a branch never changes a register the branch may read |
| `OperandRuns.ReferencedWritable` | lib/CodeGen/Assignment.cpp:110-356 | An operand of a block is where the block has its value, and its cells are apart from those of every register live beside it |
| `OperandRuns.InstRelated` | lib/CodeGen/LiveRanges.cpp:107-153 | An instruction whose operands moved to their locations reads the same values, has the same effect and leaves live values where the block has them |
| `AllocatedRuns.LiveSlotsApart` | lib/CodeGen/SpillEmitter.cpp:119-148 | The slot of a register shares no unit with the slot or the stack location of a register live together with it |
| `AllocatedRuns.FactsAreValid` | lib/CodeGen/EdgeSpills.cpp:246-276 | An allocation supplies everything the placement of spill code assumes |
| `AllocatedRuns.EndCommutes` | lib/CodeGen/EdgeSpills.cpp:374-387 | Spill code above the branch at the end of a block could as well run after it |
| `AllocatedRuns.EdgeRelated` | lib/CodeGen/EdgeSpills.cpp:277-387 | Along every edge spill code takes values from where the source block has them to where the destination has them |
| `AllocatedRuns.SameRuns` | lib/CodeGen/Assignment.cpp:110-356 | After any number of blocks the allocated function is where the original is, has read the same values in every instruction and left the world in the same state |
| `AllocatedRuns.Allocate` | lib/CodeGen/Assignment.cpp:60-356 | Live ranges, assignment and spill code one after the other give a function that no run can tell from the original; only the points of the scan or the eviction costs can make them fail |
| `SpillSplits.StrandedIsCritical` | lib/CodeGen/EdgeSpills.cpp:306-346 | Only edges out of a block with several exits into a block with several entries keep code of their own |
| `SpillSplits.OnEdgeIsStranded` | lib/CodeGen/EdgeSpills.cpp:347-367 | Code on an edge was neither hoisted nor sunk |
| `SpillSplits.NotRefused` | lib/CodeGen/EdgeSpills.cpp:116-211 | An edge whose source has another exit is not refused where branches that fall on have several exits |
| `SpillSplits.SplitEdges` | lib/CodeGen/EdgeSpills.cpp:352-367 | Splitting all edges that keep code never fails: each gets a new node that is entered by that edge and by nothing else, and runs stay the same |
| `ControlFlow.BlockEdges` | lib/CodeGen/MachineIR.cpp:950-970 | The edges out of one block are exactly falling on and its label operands |
| `ControlFlow.Build` | lib/CodeGen/MachineIR.cpp:919-985 | The built graph holds each direct edge once, and an entry or exit edge exactly for nodes with none |
| `EdgeEditor.Editor.constructor` | lib/CodeGen/EdgeSpills.cpp:55-75 | The linked node lists hold each edge of the graph once, by source and by destination |
| `EdgeEditor.Editor.Connect` | lib/CodeGen/EdgeSpills.cpp:98-104 | A new edge is appended to both lists |
| `EdgeEditor.Editor.Redirect` | lib/CodeGen/EdgeSpills.cpp:105-109 | An edge moves to the end of another incoming list and nothing else changes |
| `EdgeEditor.Editor.SplitFalling` | lib/CodeGen/EdgeSpills.cpp:125-147 | A block between a block and the one it falls into: edges stay canonical, runs stay the same |
| `EdgeEditor.Editor.SplitJump` | lib/CodeGen/EdgeSpills.cpp:133-148 | The jump moves into a block of its own: edges stay canonical, runs stay the same |
| `EdgeEditor.Editor.SplitLabel` | lib/CodeGen/EdgeSpills.cpp:149-163 | The label moves up into a block of its own: edges stay canonical, runs stay the same |
| `EdgeEditor.Editor.SplitTarget` | lib/CodeGen/EdgeSpills.cpp:200-208 | A fresh label before a shared destination: edges stay canonical, runs stay the same |
| `EdgeEditor.Editor.ClearFall` | lib/CodeGen/EdgeSpills.cpp:174-199 | Nothing falls into the destination any more, by a jump or a trampoline; refused exactly for an idle branch |
| `EdgeEditor.Editor.Split` | lib/CodeGen/EdgeSpills.cpp:116-211 | Splitting any edge: exactly which edges are refused; otherwise the edges are the canonical graph of the edited function, every run is the same with new blocks erased, the returned node is passed exactly when the edge is taken, and the entry stays first when nothing enters it |
| `EdgeGraphs.SplitsMatch` | lib/CodeGen/EdgeSpills.cpp:124-209 | Replacing one edge by a path through a new block keeps entry and exit edges right |
| `Topology.HopsKeepRuns` | lib/CodeGen/EdgeSpills.cpp:116-211 | Hops over added blocks that do nothing change no run, in both directions and for every length |
| `ControlFlow.Finish` | lib/CodeGen/EdgeSpills.cpp:212-243 | The final comparison with a fresh graph as multisets always succeeds |
| `ControlFlow.VisitsFollowEdge` | lib/CodeGen/EdgeSpills.cpp:116-211 | A run comes to a node that is the only destination of an edge only from that edge's source |
| `ControlFlow.VisitsTakeEdge` | lib/CodeGen/EdgeSpills.cpp:132-133 | A run that leaves a node with a single edge out takes that edge |
| `DeadCode.SweepBlock` | lib/CodeGen/PostAllocation.cpp:494-552 | What is left are the instructions at the kept places in order, or one anchor where an unlabelled block would be empty; an instruction is dropped exactly when it defines something, is neither observable nor a call, its first operand is not pinned, no kept instruction below it and no successor reads what it defines, and no overflow branch below reads its flag; the live set holds exactly what the rest reads |
| `DeadCode.LiveIsDemanded` | lib/CodeGen/PostAllocation.cpp:499-542 | The set carried upwards is at every place what the survivors below read before they overwrite it, or leave for the successors |
| `DeadCode.FrontierIsSearch` | lib/CodeGen/PostAllocation.cpp:543-549 | After every deletion the flag equals a fresh forward search over surviving moves and extensions |
| `DeadCode.SweptLive` | lib/CodeGen/PostAllocation.cpp:499-542 | The sweep never finds more registers live than the analysis without deletion |
| `DeadCode.BlockPreserved` | lib/CodeGen/PostAllocation.cpp:494-552 | Every run of a swept block ends with the same live-out registers, memory and observable effects |
| `DeadCode.RunPreserved` | lib/CodeGen/PostAllocation.cpp:494-552 | Every run of the swept function visits the same blocks with the same memory and observable effects |
| `WordCode.ChooseSelects` | lib/CodeGen/VectorPreparation.cpp:343-347 | The mask arithmetic selects one of two words, for all words |
| `Rounding.CodeRounds` | lib/CodeGen/VectorPreparation.cpp:434-469 | The emitted code computes ceil, floor, trunc and nearest-even for every 32-bit and 64-bit pattern: carries, signed zeros, subnormals, infinities and quieted NaNs included |
| `Rounding.RoundingUnique` | lib/CodeGen/VectorPreparation.cpp:434-469 | The rounding of a pattern is one pattern, so the code agrees with the standard's operation bit for bit |
| `Rounding.StepRounds` | lib/CodeGen/VectorPreparation.cpp:449-466 | Dropping the fraction, with the increment of the mode, is rounding of the value |
| `VectorShuffle.Recognise` | lib/CodeGen/VectorPreparation.cpp:174-185 | Identity and broadcast masks are recognised exactly |
| `VectorShuffle.RecogniseOrder` | lib/CodeGen/VectorPreparation.cpp:190-196 | Contiguous and reversed masks are recognised exactly |
| `VectorShuffle.ShuffleNeon` | lib/CodeGen/VectorPreparation.cpp:174-222 | The NEON term selects exactly the lanes of the mask, for every mask and all inputs, by every shortcut and by table lookup |
| `VectorShuffle.Immediate` | lib/CodeGen/VectorPreparation.cpp:225-238 | The immediate holds the double word of each lane, and the mask's sides are found |
| `VectorShuffle.GeneralTerm` | lib/CodeGen/VectorPreparation.cpp:252-263 | Isolating each lane by shifts and joining them selects the mask, for every mask |
| `VectorShuffle.ShuffleSse2` | lib/CodeGen/VectorPreparation.cpp:174-264 | The SSE2 term selects exactly the lanes of the mask, for every mask, lane kind and input |
| `VectorShuffle.SplatShuffles` | lib/CodeGen/VectorPreparation.cpp:111-155 | Taking a lane out and spreading it over the vector is a broadcast, whatever partial writes leave behind |
| `VectorCompare.FromParts` | lib/CodeGen/VectorPreparation.cpp:318-330 | 64-bit order is the order of high halves, then of unsigned low halves |
| `VectorCompare.CompareExact` | lib/CodeGen/VectorPreparation.cpp:265-334 | All six comparisons of 32-bit and 64-bit lanes, signed and unsigned, give all ones exactly when the numbers compare so |
| `VectorMultiply.HalvesProduct` | lib/CodeGen/VectorPreparation.cpp:412-432 | Modulo 2^64 a product is that of the low halves plus the shifted low half of the cross products |
| `VectorMultiply.Multiply64Sse2Exact` | lib/CodeGen/VectorPreparation.cpp:412-418 | 64-bit lanes multiply exactly modulo 2^64 on SSE2 |
| `VectorMultiply.Multiply64NeonExact` | lib/CodeGen/VectorPreparation.cpp:420-432 | 64-bit lanes multiply exactly modulo 2^64 on NEON |
| `VectorMultiply.Multiply32Sse2Exact` | lib/CodeGen/VectorPreparation.cpp:404-411 | 32-bit lanes multiply exactly modulo 2^32 on SSE2 |
| `VectorPopcount.PopcountExact` | lib/CodeGen/VectorPreparation.cpp:618-630 | Sideways addition with 16-bit shifts counts the ones of each byte, with no leak between bytes |
| `BranchLayout.Engine.Estimate` | lib/CodeGen/X86Encoding.cpp:427-455 | The first pass assigns conservative offsets, and fails exactly when they exceed the signed 32-bit range |
| `BranchLayout.Engine.Run` | lib/CodeGen/X86Encoding.cpp:427-517 | Layout resolves every displacement to its final label, within a signed byte or double word: each item starts where the one before it ends, padding included, the fixups are those of the branches in order, each inside the bytes of its branch, and each branch is short exactly when its label is near; without switches it fails only on a too large estimate, so the range check never fires |
| `BranchLayout.LaidOut` | lib/CodeGen/X86Encoding.cpp:464-500 | Every body is laid out that way: positions by emitted sizes, one fixup a branch, and the short form exactly for a label at most 124 bytes behind with the planned size of the branch, or at most 129 bytes ahead by the estimate |
| `BranchLayout.LabelOffset` | lib/CodeGen/X86Encoding.cpp:431-472 | A label's offset is the estimate until it is emitted, and the actual offset then |
| `BranchLayout.ShortReaches` | lib/CodeGen/X86Patterns.cpp:194-202 | A branch chosen as short reaches its label within a signed byte |
| `BranchLayout.AllFit` | lib/CodeGen/X86Encoding.cpp:503-516 | Without switches, or with room for the padding of their tables, every displacement fits its field, label alignment included |
| `BranchLayout.BranchesLand` | lib/CodeGen/X86Encoding.cpp:503-516 | A displacement leads from the end of its field to the label's final place |
| `BranchLayout.TablePaddingOverflows` | lib/CodeGen/X86Encoding.cpp:413-422 | A body with the switch recipe of this encoder in which a branch chosen as short does not fit |
| `BranchLayout.TableRoomExact` | lib/CodeGen/X86Encoding.cpp:427-517 | Whatever the branch encodings, a switch recipe is safe in every body whose estimate is in range exactly when its conservative size exceeds the emitted one by the longest padding |
| `BranchLayout.SwitchesUnsafe` | include/mirnext/Target/X86Patterns.def:422-423 | The one switch recipe, 11 bytes planned as 12, is not safe |
| `ByteOrder.ReadPatched` | lib/CodeGen/CompiledBlock.cpp:14-21 | Reading a patched field gives the low bytes of what was written |
| `ByteOrder.WriteBytes` | lib/CodeGen/CompiledBlock.cpp:19-21 | Bytes are written little-endian in place and no other byte changes |
| `BlockRelocation.DifferenceExact` | lib/CodeGen/CompiledBlock.cpp:22-34 | The unsigned subtraction gives the exact difference, exactly when it is in range |
| `BranchFields.FieldExact` | lib/CodeGen/AArch64Encoding.cpp:12-19 | A branch field exists exactly for aligned displacements in range |
| `BranchFields.Patch26` | lib/CodeGen/CompiledBlock.cpp:148-151 | The patched long branch decodes to the displacement and keeps its opcode bits |
| `BranchFields.Patch19` | lib/CodeGen/CompiledBlock.cpp:148-151 | So does the patched conditional branch |
| `BranchFields.PatchAddress` | lib/CodeGen/CompiledBlock.cpp:135-139 | And the patched address instruction |
| `BlockRelocation.NeighboursDecide` | lib/CodeGen/CompiledBlock.cpp:85-88 | In sorted order, comparing neighbours decides whether all ranges are pairwise apart |
| `BlockRelocation.Verify` | lib/CodeGen/CompiledBlock.cpp:36-90 | A block is accepted exactly when every site is well formed, told by instruction words, and no byte would be patched twice, by two sites, by a site and the block itself, or by two relocations of its own |
| `BlockRelocation.SiteForms` | lib/CodeGen/CompiledBlock.cpp:45-84 | The mask tests of a site accept exactly these words: a clear address or displacement, the two long branches with field 0, the address instruction with field 0 and any register, and conditional branches with field 0 before a slot that holds a NOP |
| `BlockRelocation.FarDone` | lib/CodeGen/CompiledBlock.cpp:140-147 | The far expansion of a conditional branch leads to its target through the slot |
| `BlockRelocation.PatchSite` | lib/CodeGen/CompiledBlock.cpp:118-152 | Patching succeeds exactly when the address is in reach of the site; the site then decodes to that address and only its bytes change |
| `BlockRelocation.Relocate` | lib/CodeGen/CompiledBlock.cpp:91-155 | Relocation succeeds exactly when the block is well formed and every target resolves, is aligned and is in reach; every site then decodes to its target at the final address and all bytes outside sites are unchanged |
| `FrameMachine.SaveAll` | lib/CodeGen/Frame.cpp:55-70 | Saving puts every register in its place, near or far, and leaves other memory and registers alone |
| `FrameMachine.RestoreAll` | lib/CodeGen/Frame.cpp:55-70 | Restoring reads every register back and leaves other registers alone |
| `X86Frame.PlanFrame` | lib/CodeGen/X86Frame.cpp:15-119 | The planner refuses exactly an unknown ABI, a spill area that is odd or too large, a function that needs a frame pointer and has none, and a bad list of saved registers; it sets nothing up exactly for a leaf that saves and keeps nothing, and otherwise builds the plan the theorems are about |
| `X86Frame.Layout` | lib/CodeGen/X86Frame.cpp:37-43 | Saves, room for the spill slots, variadic area, saved frame pointer and return address do not overlap, and the stack stays aligned |
| `X86Frame.FrameInRange` | lib/CodeGen/X86Frame.cpp:19-43 | Every accepted frame fits a signed 32-bit offset |
| `X86Frame.FrameUndone` | lib/CodeGen/X86Frame.cpp:50-117 | Prologue, any body that respects the frame, and epilogue restore stack pointer, frame pointer and every saved register, in jump frames too |
| `X86Frame.SavesBelow` | lib/CodeGen/X86Frame.cpp:38-85 | In every accepted frame the saves stay below the saved frame pointer, variadic stores below it too, and nothing below the stack pointer where the red zone is not to be used; a jump frame keeps the stack aligned |
| `X86Frame.PrologueAboveStack` | lib/CodeGen/X86Frame.cpp:50-71 | The prologue touches memory below the stack pointer exactly when it has a frame pointer and may use the red zone |
| `X86Frame.EpilogueAboveStack` | lib/CodeGen/X86Frame.cpp:106-117 | So does the epilogue |
| `X86Frame.VectorSavesAligned` | lib/CodeGen/X86Frame.cpp:82-105 | Saved integer registers take 8 bytes, saved vectors all 16, at multiples of 16 |
| `X86Frame.VariadicsSaved` | lib/CodeGen/X86Frame.cpp:54-81 | After the prologue of a variadic function the System V save area holds the six integer argument registers in consecutive words and the low halves of the eight vectors 16 bytes apart, and on Windows the four homes above the return address hold the argument registers |
| `AArch64Frame.PlanFrame` | lib/CodeGen/Frame.cpp:124-203 | The planner refuses exactly frames whose spill slots and aggregate area exceed the offset range less 4096, sets nothing up exactly for a leaf that saves and keeps nothing, and otherwise builds the plan the theorems are about |
| `AArch64Frame.Layout` | lib/CodeGen/Frame.cpp:147-163 | Header, spill slots, saves and variadic area follow one another without overlap; integer saves take 8 bytes, vector saves 16 at multiples of 16 |
| `AArch64Frame.FrameInRange` | lib/CodeGen/Frame.cpp:128-163 | Every accepted frame with its aggregate area fits a signed 32-bit offset |
| `AArch64Frame.PrologueSaves` | lib/CodeGen/Frame.cpp:157-198 | After the prologue the frame pointer, the link register, the stack pointer of the caller where it is kept, and every saved register are in their places, and the stack pointer is below frame and aggregate area |
| `AArch64Frame.FrameUndone` | lib/CodeGen/Frame.cpp:157-201 | Prologue, any body that respects the frame, and epilogue restore stack pointer, frame pointer, link register and every saved register |
| `AArch64Frame.ArgumentsSavedIff` | lib/CodeGen/Frame.cpp:174-184 | The eight vector registers, 16 bytes apart, and behind them the eight integer registers lie below the stack pointer of the caller, for all callers exactly when the last of their offsets is below 4096 |
| `CallArea.PlacedIsReserved` | lib/CodeGen/AArch64Lowering.cpp:437-541 | The second walk's stack arguments end exactly where the first walk's reservation ends, exactly when the call is not skewed |
| `CallArea.AreasDisjoint` | lib/CodeGen/AArch64Lowering.cpp:437-562 | Stack arguments and copied blocks are pairwise disjoint, copies above arguments, all inside the aligned adjustment |
| `CallArea.CheckCallArea` | lib/CodeGen/AArch64Lowering.cpp:345-405 | The preflight passes exactly when the rounded area stays in the signed 64-bit range |
| `CallArea.LowerCall` | lib/CodeGen/AArch64Lowering.cpp:437-562 | After a passed preflight no 64-bit sum wraps; every argument is in the register or stack place that counting the arguments in front of it gives, slots are packed, and copies of large blocks follow one another above them |
| `CallArea.AreaCounts` | lib/CodeGen/AArch64Lowering.cpp:437-541 | The walks lay out what the counts say: floats and vectors leave the registers after eight of them, integers and addresses after eight words, a small block when it does not fit whole, variadic arguments where they go to the stack; wide slots lie at multiples of 16 |
| `CallArea.HomesApart` | lib/CodeGen/AArch64Lowering.cpp:455-534 | No two arguments share a register or a byte of the stack, and only argument registers are used |
| `CallArea.VerifiedAgrees` | lib/IR/IR.cpp:1015-1029 | IR verification admits no variadic return block, and without one both walks agree |
| `CallArea.SkewOverlaps` | lib/CodeGen/AArch64Lowering.cpp:438-454 | A call that verification rejects, whose stack arguments would lie inside the copy of a block |

## Left out

- Enumerate: preorder numbers say only what is reachable, which is all their readers use.
- AllFit: one direction only for bodies with switch tables; a body without room for table padding may still happen to fit.
- Choose: how spill costs and frequencies are computed; they are parameters. A gap that lies over two ranges of the value may be charged twice, as in the code.
- Assign: the priority order is a parameter; the narrowing of frequencies to 32 bits is modelled only as a possible overflow.
- Coalesce: address-taken registers and hardware-bound globals; the label given to a block emptied by a deleted move.
- ScanBlock: the compact mode without physical registers, and the layout order of optimization level 1.
- AnalyzeLoops: follows lib/Analysis/FunctionGraph.cpp; the machine variant's epoch marks and the representatives of root children are not modelled, its depth pass is.
- EpochWorklist: register pressure and frequencies.
- CodeRounds: which payload a quieted NaN carries beyond its quiet bit is that of the input, as in the code.
- CompareExact: lanes of 8 and 16 bits, which have native comparisons, and floating-point lanes.
- BranchLayout: byte contents of instructions and the constant pool; sizes are parameters with the hypothesis that a short recipe is no larger than its long form.
- Relocate: relocation of the block's own function code is a parameter that leaves successor sites alone; error texts.
- Split: indirect jumps, and labels that are referenced outside the last instruction of a block.
- FoundOnEveryPath: indirect jumps, and branches with a single target inside the function.
- Allocate: registers bound to hardware, address-taken registers, virtual registers live at function entry, and what a branch might write; operands on the stack are read and written in place, where the code uses temporary registers; slots for preserved registers are chosen before the spill code is placed, in any order.
- RunPreserved: instructions keep no value in a register across an early clobber, which allocation guarantees; multi-block `Ret` observation is part of the uninterpreted effect.
- FrameUndone: callee-saved sets are parameters that exclude the stack pointer, the scratch register and a frame pointer in use.
- VariadicsSaved: functions that return by a jump, which IR verification (lib/IR/IR.cpp:1108-1112) allows no parameters; neither are the alignment of their vector saves and the red zone in their epilogues modelled.
- PlanFrame: the placement of x86 spill slots inside the block, whose displacement function is in a target header that is not part of this model.
- Spill code that reaches far slots through temporaries.
- Calls with several virtual results, local address instructions, x87 values.
- Property specialization of blocks, instruction combining, operand legalization and register rewriting.
- Execution sessions, linking, code memory, entry stubs, dumps and diagnostics.
