# Verified models of the Banjo compiler's middle and back end

The project states in Dafny what the hardest parts of the compiler are meant to do, models the code that does it, and
proves that it does, for all inputs.

* **Register allocation** (`liveness`, `live_ranges`, `func_ranges`, `roles`, `clobbers`, `operand_lists`, `bundles`,
  `worklist`, `worklist_ends`, `suggestions`, `registers_suffice`, `alloc_step`, `alloc_context`, `spills`, `spill_order`, `spill_reach`,
  `rewrite`, `machine`, `simulation`, `placement`, `placement_sound`, `reg_alloc_pass`, `limits`, `stale_reads`). The chain runs from the dataflow
  fixpoint to meaning: block liveness is exactly liveness along paths; the backward scan turns it into ranges that cover
  the live points; coalescing conserves them; the worklist keeps allocations apart over whole runs and ends; the rewritten
  instructions find every value in its register or slot; and the program over physical registers, spill slots and inserted
  loads and stores stays in step with the one over virtual registers, from every state and for any number of steps.
  `RegAllocPass.Run` is the whole pass, end to end. Where the pass does not do what it is meant to, there is an input on
  which it fails and the exact condition under which it does not (see "Hypotheses").
* **Dominators, loops and code motion** (`dominance`, `cfg_order`, `dominator_tree`, `loop_analysis`, `ssa`, `licm`,
  `licm_meaning`, `licm_pass`, `licm_limits`). The iterative algorithm that intersects predecessors is totally correct: it
  ends, at the latest after as many sweeps as there are nodes, with the immediate dominators. Loops are the natural loops
  of the reported back edges. Code motion keeps SSA validity and meaning, over whole runs of the function.
* **Jump threading** (`jump_threading`, `control_flow_opt`). Bypassing a block that only branches keeps meaning: the new
  program is, after any number of blocks, where the old one gets to a little later. This holds for the whole pass over the
  branches of a function, which keeps asking the dominator tree of the function it started from.
* **The language server's index** (`workspace`). After any sequence of edits, which may change the extents of files, the
  index agrees with the latest analysis of every module, and each edit has exactly the recorded dependents analysed again,
  which include all transitive users.
* **Tokens, expressions and integer literals** (`lexer_spec`, `lexer_tokens`, `lexer`, `expr_grammar`, `expr_round_trip`,
  `expr_soundness`, `expr_strict`, `expr_precedence`, `expr_liberties`, `expr_parser`, `int_literal`). The lexer finds exactly the tokens that start one after
  the other in the source, and tokens and attachments together are the source text if and only if every character is known
  where it stands and no literal is left open. Parsing the tokens of a tree gives the tree back, and a tree that is
  accepted stands for exactly the tokens that were consumed, if and only if their parentheses balance and no closer has a
  comma before it, unless that is the only one in a group; both are told from the tokens alone. A literal is accepted exactly if its number fits 64 bits.
* **Address folding** (`addr_folding`). Folding pointer arithmetic into an addressing mode keeps the address.

Classes model the source's objects with the fields that their methods update; what a method does to its state is tied to a
function or relation of the old state, about which the lemmas speak. Instruction semantics, target descriptions and
semantic analysis are parameters.

## Hypotheses

What the main theorem about register allocation asks of its input, and why it has to:

* `Placement.VirtualsPlain`: a virtual register listed as DEF is listed once, and a USE_DEF comes ahead of a USE of the same
  register. What the AArch64 analyzer collects with `insert_reg`, which is all it lists of virtual registers, is merged and
  keeps to this (`OperandLists.MergedIsWellFormed`). The analyzer for x86-64 does not merge, as a FIXME there says: when an
  instruction loads into a register from the address in it, the definition that is listed first hides the use
  (`OperandLists.KeptIffUseIsFirst`), and the value is lost on the way from another block (`OperandLists.ReloadIsNotKept`).
* `Spills.SpillsWrittenOnce`: two operands of an instruction that name the same register are both plain uses, if the register
  was spilled. Then the first of the allocations born there takes all these operands, but each allocation loads and stores its
  own register. `SpillOrder.FirstDecides` says for each order what is read and what is stored, and `SpillOrder.AlwaysRightIff`
  that all orders are right exactly if all these operands have one role. Otherwise, and with registers free there, some run
  of the worklist gets to a wrong order (`SpillReach.SpillCanGoWrong`; `Limits.SpilledUpdateIsLost` is a whole run). If no
  instruction writes a register and names it again, this and the first hold (`Placement.WrittenOnceIsPlain`).
* `PlacementSound.InputCovered` has two parts. No virtual register is read twice in a block before the block defines it,
  unless it is live into the block: this is exactly when all operands are covered (`FuncRanges.OperandsCoveredIff`,
  `Limits.DeadUpdatesAreNotCovered`). And physical registers are covered, by ranges or by kill points, where they hold
  values: `Clobbers.PhysicalsCoveredIff` says exactly when, in terms of the roles that instructions play. It fails for a
  register that a call both kills and defines if the result is not read by the next instruction
  (`Limits.LateResultIsNotCovered`), and for one in which a call takes an argument and leaves a result, from the move of the
  argument on (`Limits.EarlyArgumentIsNotCovered`); on x86-64, calls can list RAX and XMM0 like this.
* `RegAllocPass.SpillsFit`: bundles born of spills always find a register or can evict. This is exactly when there is a bound
  on the length of all runs of the worklist (`WorklistEnds.RunsEndIff`); otherwise spilling recreates the same bundle with
  a new slot for ever (`WorklistEnds.StuckRunsForever`, and `Limits.WorklistNeedNotEnd` for a function of four instructions).
  It holds if at every instruction each class has as many registers that are not reserved there as there are operands that
  may take one of them, plus virtual registers of other classes that may and are live there
  (`RegistersSuffice.EnoughRegistersFit`). If no register belongs to two classes, these are the operands of the class
  (`RegistersSuffice.EnoughWhenApart`).
* `RegAllocPass.LegalFor`: candidates and suggested registers are legal for the class they are for, unless what is suggested
  is in use where the bundle needs it. Which registers are legal is free to choose, and if all are, nothing is asked; the
  conclusion that registers are legal is then empty, too. The targets suggest the physical register beside a move at the
  start or the end of a range. What they suggest is legal exactly if it is for the operands of single instructions
  (`Suggestions.LegalIff`), and so if moves are between registers of one class (`Suggestions.InClassIsLegal`). It fails on
  x86-64, whose analyzer takes any physical register beside a move: the address in `movss xmm0, [v]` gets an SSE register
  (`Suggestions.AddressGetsFloatRegister`).
* `Machine.StaleReadsHarmless`: an instruction that reads, through an in-place update, a register whose value was not kept
  on entry to the block has no other effect. It holds on all machines exactly if no reachable instruction reads such a
  register (`StaleReads.HarmlessIff`). Otherwise an update that is only made for its flags may see the value of another
  register (`StaleReads.SubtractionIsSpoiled`, on a function that satisfies all else: `StaleReads.OtherwiseFine`).
* `Machine.RemovableIsNop`: what the target calls removable does nothing.

Loop code motion asks that the entry block, if it jumps to itself, is not jumped to by exactly one other block
(`LicmPasses.EntryLoopHasOneWayIn`). The pass would move code from it to that other block, which runs later; for every graph
like this there is code that changes its meaning (`LicmLimits.EntryLoopIsSpoiled`). Other loops through the entry are not
reported, because `is_dominated_by` never answers yes for the entry, except for itself.

In the meaning of SSA code, a load reads memory, a store writes it, and a call may do both. Of the other opcodes, those with a
result compute it from their operands, and those without one may write memory.

## Model

| member | source | states |
|---|---|---|
| `RegAllocFunc.IntersectsMeansSharedPoint` | src/banjo/codegen/reg_alloc_func.hpp:33-39 | `intersects` holds exactly if the two ranges share a half-instruction |
| `RegAllocFunc.ContainsMeansEveryPoint` | src/banjo/codegen/reg_alloc_func.hpp:41-47 | `contains` holds exactly if every point of one range is a point of the other |
| `Liveness.LivenessAnalysis.CollectBlocksPostOrder` | src/banjo/codegen/liveness.cpp:87-104 | the search lists each newly reached block once, reaches nothing else and leaves no successor out; inserting index 0 again does no harm |
| `Liveness.LivenessAnalysis.ComputeInsAndOuts` | src/banjo/codegen/liveness.cpp:45-85 | the fixpoint loop ends, and `ins` and `outs` are exactly liveness along paths for every block reachable from block 0 |
| `Liveness.LivenessAnalysis.Sweep` | src/banjo/codegen/liveness.cpp:55-84 | a round that changes something adds facts, and one that reports no change leaves all equations settled, so comparing sizes detects every change |
| `LivenessSpec.PathLiveUnfold` | src/banjo/codegen/liveness.cpp:60-83 | path liveness satisfies the dataflow equation in both directions |
| `Liveness.LivenessAnalysis.ComputePreciseLiveRanges` | src/banjo/codegen/liveness.cpp:106-169 | the scan over all registers at once finds for each register the ranges of its own scan, and lists all kill points |
| `LiveRanges.BlockRangesCover` | src/banjo/codegen/liveness.cpp:123-165 | the ranges of a block are well formed, share no instruction, and cover exactly the points where the register is live or written, from where they start |
| `LiveRanges.OccurrencesCoveredIff` | src/banjo/codegen/liveness.cpp:127-152 | every operand naming a register is covered if and only if the register is live into the block or not read twice before it is defined |
| `FuncRanges.LivePointsCovered` | src/banjo/codegen/liveness.cpp:106-169 | around every instruction a register whose value matters lies in one of its ranges |
| `FuncRanges.OnlyNeededPointsCovered` | src/banjo/codegen/liveness.cpp:106-169 | ranges cover no point where the register is neither live nor written |
| `FuncRanges.OperandsCoveredIff` | src/banjo/codegen/liveness.cpp:127-152 | the same condition for the ranges of a whole function |
| `FuncRanges.RangesDoNotShareInstructions` | src/banjo/codegen/liveness.cpp:123-165 | two ranges of one register never touch the same instruction |
| `FuncRanges.KillsAre` | src/banjo/codegen/liveness.cpp:153-160 | the kill points are exactly the KILL operands of the function |
| `Roles.CoveredIffProtected` | src/banjo/codegen/liveness.cpp:123-165 | for one register in one block, the points that need it are covered exactly if the block is protected: a condition on which instructions clobber, read and write it |
| `Clobbers.CoveredAgrees` | src/banjo/codegen/liveness.cpp:123-165 | the ranges found for a block cover exactly the points that the scan of the roles covers |
| `Clobbers.PhysicalsCoveredIff` | src/banjo/codegen/liveness.cpp:106-165 | all physical registers are covered where they hold values if and only if every block is protected |
| `OperandLists.OperandList.InsertReg` | src/banjo/target/aarch64/aarch64_reg_analyzer.cpp:325-341 | a register stays listed once, with the role that all its occurrences together have |
| `OperandLists.MergedIsWellFormed` | src/banjo/target/aarch64/aarch64_reg_analyzer.cpp:325-341 | merged lists read and write what was given and satisfy what live ranges and spilling ask of operand lists |
| `OperandLists.KeptIffUseIsFirst` | src/banjo/codegen/liveness.cpp:32-43 | where the first operands of a block for a register are a use and a definition in one instruction, the block needs its old value, for the analysis, exactly if the use is listed first |
| `OperandLists.ReloadIsNotKept` | src/banjo/target/x86_64/x86_64_reg_analyzer.cpp:350-358 | listed as definition and then as use, a register is in no range from its definition to the end of the block before the load, while another register has one there |
| `OperandLists.MergedReloadIsKept` | src/banjo/target/aarch64/aarch64_reg_analyzer.cpp:325-341 | merged into one operand, it has a range all the way |
| `RegAllocPass.ReserveFixedRanges` | src/banjo/codegen/reg_alloc_pass.cpp:130-160 | each block reserves exactly the ranges of physical registers in it and its kill points |
| `Bundles.CreateBundles` | src/banjo/codegen/reg_alloc_pass.cpp:162-187 | bundles hold exactly the ranges found, one register each, pairwise disjoint and of the register's class |
| `Bundles.CoalesceBundles` | src/banjo/codegen/reg_alloc_pass.cpp:189-211 | merging conserves the multiset of segments and keeps bundles disjoint inside, apart in registers and of one class; no deleted bundle is left; what was added to a bundle has a move in common with what is before it; a bundle could not take another one that was still as given when it was tried; and there are fewer bundles than before if two of them belong together |
| `Bundles.SurvivorsDoNotMerge` | src/banjo/codegen/reg_alloc_pass.cpp:189-240 | two bundles that survive as they were given do not belong together |
| `Bundles.ShouldMergeIff` | src/banjo/codegen/reg_alloc_pass.cpp:213-254 | bundles belong together exactly if they are of one class, do not clash, the second has one segment, and a move copies that to or from a segment of the first |
| `Bundles.TryCoalesce` | src/banjo/codegen/reg_alloc_pass.cpp:213-240 | two bundles are merged exactly if a move connects them, they are of one class, do not intersect, and the second has one segment |
| `Bundles.MergeConservesSegments` | src/banjo/codegen/reg_alloc_pass.cpp:226-236 | a merge conserves the multiset of segments of the bundles that are not deleted |
| `Bundles.MergeKeepsGood` | src/banjo/codegen/reg_alloc_pass.cpp:226-236 | a merge keeps the bundles well formed |
| `Bundles.NeverMergedWithItself` | src/banjo/codegen/reg_alloc_pass.cpp:213-240 | a bundle is never merged with itself |
| `Worklist.StepKeepsSafe` | src/banjo/codegen/reg_alloc_pass.cpp:266-441 | assigning, evicting and spilling keep allocations of one register apart, off its reserved segments, and in registers legal for their class, whatever legal registers are suggested |
| `Worklist.EvictKeepsSafe` | src/banjo/codegen/reg_alloc_pass.cpp:340-383 | eviction is safe because every new segment lies inside an evicted one |
| `Worklist.RunKeepsSafe` | src/banjo/codegen/reg_alloc_pass.cpp:54-58 | safety in every state of every run, whatever order bundles are popped in |
| `Worklist.StepDecreases` | src/banjo/codegen/reg_alloc_pass.cpp:266-284 | every step that does not spill a bundle born of a spill decreases the lexicographic measure |
| `WorklistEnds.StuckRunsForever` | src/banjo/codegen/reg_alloc_pass.cpp:266-441 | from a reachable state in which a bundle born of a spill finds no register, there are runs of every length |
| `WorklistEnds.RunsEndIff` | src/banjo/codegen/reg_alloc_pass.cpp:54-58 | there is a bound on the length of all runs if and only if no such state is reachable |
| `RegistersSuffice.StepKeepsNeeds` | src/banjo/codegen/reg_alloc_pass.cpp:266-441 | no step makes the bundles of a class need more registers at an instruction than its operands do |
| `RegistersSuffice.EnoughRegistersFit` | src/banjo/codegen/reg_alloc_pass.cpp:266-441 | bundles born of spills always fit, whatever is suggested, if at every instruction each class has an unreserved register for each operand that may take one of them and for each live virtual register of another class that may |
| `RegistersSuffice.EnoughWhenApart` | src/banjo/codegen/reg_alloc_pass.cpp:266-307 | if no register belongs to two classes, this is a register for each operand of the class |
| `Suggestions.SuggestRegs` | src/banjo/target/x86_64/x86_64_reg_analyzer.cpp:58-77 | the loop suggests the physical registers that moves at the starts of ranges read and moves at their ends write |
| `Suggestions.SuggestedIff` | src/banjo/target/x86_64/x86_64_reg_analyzer.cpp:58-77 | a register is suggested exactly if a move at the start of a range reads it or one at an end writes it |
| `Suggestions.SuggestedInOrder` | src/banjo/target/x86_64/x86_64_reg_analyzer.cpp:63-76 | what a move at the start reads is suggested ahead of what one at the end writes, and segments are gone through in order |
| `Suggestions.RangesAreOk` | src/banjo/codegen/liveness.cpp:123-165 | a range starts and ends at an operand of its register, or at an end of a block where the register is live |
| `Suggestions.LegalIff` | src/banjo/target/x86_64/x86_64_reg_analyzer.cpp:58-77 | what is suggested is legal wherever it can be assigned if and only if it is for the operands of single instructions |
| `Suggestions.InClassIsLegal` | src/banjo/target/aarch64/aarch64_reg_analyzer.cpp:36-55 | it is if moves that name virtual registers are between registers of one class, whatever moves stand at the ends of blocks |
| `Suggestions.AddressGetsFloatRegister` | src/banjo/target/x86_64/x86_64_reg_analyzer.cpp:70-75 | a run from what analysis leaves behind gives the address of a load the register loaded into, of another class |
| `Worklist.StepConserves` | src/banjo/codegen/reg_alloc_pass.cpp:266-441 | queued and allocated bundles, plus those spilled, are the initial ones plus those born of spills, with multiplicities |
| `Worklist.BornAllocsStay` | src/banjo/codegen/reg_alloc_pass.cpp:340-358 | an allocated bundle that was born of a spill is never evicted |
| `AllocStep.PossibleIffFree` | src/banjo/codegen/reg_alloc_pass.cpp:309-338 | a register is possible for a bundle exactly if neither the function nor another bundle has it at any point the bundle covers, where ranges are well formed |
| `AllocStep.BundleIsTreated` | src/banjo/codegen/reg_alloc_pass.cpp:266-383 | a bundle gets the first free register of the suggested ones and the candidates; if there is none and it was born of a spill, the first allocation that can gives way; else it is spilled |
| `AllocStep.StepTreatsOne` | src/banjo/codegen/reg_alloc_pass.cpp:54-58 | every step of the worklist does this to one of the bundles that wait |
| `AllocStep.SpilledIsHopeless` | src/banjo/codegen/reg_alloc_pass.cpp:266-284 | what is spilled waited in a state in which none of its registers was free, and is no bundle born of a spill |
| `AllocContext.Context.IsAllocPossible` | src/banjo/codegen/reg_alloc_pass.cpp:309-338 | possible exactly if no reserved segment and no allocation of the register intersects the bundle |
| `AllocContext.Context.TryAssign` | src/banjo/codegen/reg_alloc_pass.cpp:286-307 | takes the first register of the list that is possible, and fails only if none is |
| `AllocContext.Context.CanEvictAlloc` | src/banjo/codegen/reg_alloc_pass.cpp:360-383 | an allocation can be evicted exactly if it is evictable, of the same class, and contains every segment |
| `AllocContext.Context.TryEvict` | src/banjo/codegen/reg_alloc_pass.cpp:340-358 | the first such allocation gives way and returns to the queue; its register goes to the new bundle |
| `AllocContext.Context.Spill` | src/banjo/codegen/reg_alloc_pass.cpp:385-441 | queues one bundle for each operand inside the segments, all with one new slot |
| `AllocContext.Context.TryAllocate` | src/banjo/codegen/reg_alloc_pass.cpp:266-284 | suggested registers, then candidates, then eviction, then spilling: the bundle is appended with the first free register and nothing else changes, or one allocation gives way, or the bundle is spilled because nothing is free and nobody can give way |
| `AllocContext.Context.AllocateAll` | src/banjo/codegen/reg_alloc_pass.cpp:54-58 | the worklist runs dry, with a safe allocation that steps of it lead to and that conserves the bundles; only evictable bundles were spilled, and each one in a state in which none of its registers was free |
| `Spills.BornAllOnce` | src/banjo/codegen/reg_alloc_pass.cpp:385-441 | each operand that is written has one bundle, in one spill |
| `Rewrite.Rewriter.ApplyAlloc` | src/banjo/codegen/reg_alloc_pass.cpp:443-482 | one load before, replaced operands inside the segments, one store after, and nothing else changes |
| `Rewrite.Rewriter.ReplaceInSegment` | src/banjo/codegen/reg_alloc_pass.cpp:459-469 | the operands that name the register are replaced in every instruction the segment touches |
| `Rewrite.RewrittenOperand` | src/banjo/codegen/reg_alloc_pass.cpp:443-493 | an operand ends up in the register of the first allocation that replaces it |
| `SpillOrder.ReadsSlotIff` | src/banjo/codegen/reg_alloc_pass.cpp:443-493 | the operands of a spilled register read its slot exactly if an allocation with the register of the first one loads it |
| `SpillOrder.UpdatesSlotIff` | src/banjo/codegen/reg_alloc_pass.cpp:443-493 | the slot receives what they write exactly if the first allocation that stores has the register of the first one |
| `SpillOrder.FirstDecides` | src/banjo/codegen/reg_alloc_pass.cpp:443-493 | with a register for each operand, it is the role of the operand whose allocation comes first that decides both |
| `SpillOrder.AlwaysRightIff` | src/banjo/codegen/reg_alloc_pass.cpp:443-493 | spilling is right for every order of allocations exactly if all operands that name the register have one role |
| `SpillOrder.OperandsGoToFirst` | src/banjo/codegen/reg_alloc_pass.cpp:471-493 | all operands that name the register end up in the register of the first allocation |
| `SpillReach.AnyOrderIsReached` | src/banjo/codegen/reg_alloc_pass.cpp:54-58 | bundles that wait together are allocated in any order by some run, if each finds its register in turn |
| `SpillReach.PiecesAreReached` | src/banjo/codegen/reg_alloc_pass.cpp:286-338 | with as many candidates free at an instruction as it has operands, their bundles get registers of their own, suggested or not, in any order |
| `SpillReach.SpillCanGoWrong` | src/banjo/codegen/reg_alloc_pass.cpp:266-441 | where a bundle has to be spilled over an instruction that names its register in two roles, and registers are free there, a run goes on to allocations that read or store the wrong value |
| `Rewrite.Rewriter.RemoveUselessInstrs` | src/banjo/codegen/reg_alloc_pass.cpp:527-535 | exactly the removable instructions are taken out |
| `Placement.AllocatedOrSpilledOnce` | src/banjo/codegen/reg_alloc_pass.cpp:54-62 | every bundle of registers ends up in one allocation or one spill |
| `Placement.OneOwner` | src/banjo/codegen/reg_alloc_pass.cpp:162-211 | all ranges of a virtual register stay in one bundle |
| `Placement.BornAllocOrigin` | src/banjo/codegen/reg_alloc_pass.cpp:385-441 | every unevictable allocation stands for one operand of a spilled register |
| `Placement.BornIsAllocated` | src/banjo/codegen/reg_alloc_pass.cpp:385-441 | every bundle born of a spill gets a register |
| `Placement.PlainPhysicalIsCovered` | src/banjo/codegen/liveness.cpp:127-165 | ranges of a physical register in plain operands cover where it holds a value |
| `PlacementSound.OneOccupant` | src/banjo/codegen/reg_alloc_pass.cpp:309-338 | a physical register belongs to one register at a time, virtual or physical |
| `PlacementSound.OperandSurvivesIff` | src/banjo/codegen/reg_alloc_pass.cpp:443-493 | a virtual operand survives rewriting exactly if it lies outside all ranges of its register |
| `PlacementSound.OperandIsSound` | src/banjo/codegen/reg_alloc_pass.cpp:443-493 | every operand names the home of its register, or a register loaded from and stored to its slot |
| `PlacementSound.LoadsAreClear` | src/banjo/codegen/reg_alloc_pass.cpp:443-456 | an inserted load overwrites no value that is still needed |
| `PlacementSound.WritesAreClear` | src/banjo/codegen/reg_alloc_pass.cpp:309-338 | a result overwrites no value that is still needed |
| `PlacementSound.StoresAreClear` | src/banjo/codegen/reg_alloc_pass.cpp:385-482 | a store to a slot that registers of a coalesced bundle share is the store of the register the slot holds |
| `PlacementSound.SlotHoldsOne` | src/banjo/codegen/reg_alloc_pass.cpp:385-388 | registers that share a slot are never live at the same point |
| `PlacementSound.AllocationIsSound` | src/banjo/codegen/reg_alloc_pass.cpp:39-69 | the code that a finished allocation leaves keeps every value where it belongs |
| `Simulation.InstrStep` | src/banjo/codegen/reg_alloc_pass.cpp:443-482 | one instruction with its loads and stores keeps the two programs related |
| `Simulation.RunsStayInStep` | src/banjo/codegen/reg_alloc_pass.cpp:39-69 | from related states the two programs are at the same place, in the same environment, with every needed value in its home, after any number of steps |
| `RegAllocPass.Run` | src/banjo/codegen/reg_alloc_pass.cpp:39-69 | the whole pass produces such code, for every machine and every start, if spilled registers are not written beside another operand of theirs; if no virtual register is live in, each run sees and does what it did before |
| `RegAllocPass.SameObservations` | src/banjo/codegen/reg_alloc_pass.cpp:39-69 | a function that reads no virtual register before it is written sees and does the same after allocation, step by step |
| `Placement.WrittenOnceIsPlain` | src/banjo/codegen/liveness.cpp:106-169 | operand lists in which what is written is named once are in the form that live ranges are computed for |
| `Limits.DeadUpdatesAreNotCovered` | src/banjo/codegen/liveness.cpp:145-152 | the first of two dead in-place updates lies in no live range |
| `Limits.LateResultIsNotCovered` | src/banjo/codegen/liveness.cpp:153-160 | the result of a call that also kills its register is unprotected until it is read |
| `Limits.EarlyArgumentIsNotCovered` | src/banjo/codegen/liveness.cpp:127-160 | an argument in the register that its call also kills and defines is unprotected on its way to the call |
| `Limits.SpilledUpdateIsLost` | src/banjo/codegen/reg_alloc_pass.cpp:385-482 | a run from what analysis and coalescing leave behind ends with allocations under which a spilled register loses the update of an instruction that also reads it |
| `StaleReads.HarmlessIff` | src/banjo/codegen/liveness.cpp:45-85 | in-place updates whose results are dead do no harm on any machine if and only if no reachable instruction reads a register whose value was not kept on entry to its block |
| `StaleReads.SubtractionIsSpoiled` | src/banjo/codegen/liveness.cpp:45-169 | an update that sets flags and whose result is dead reads another value after allocation, from every state |
| `StaleReads.OtherwiseFine` | src/banjo/codegen/liveness.cpp:45-169 | that function satisfies everything else that is asked of functions |
| `Limits.WorklistNeedNotEnd` | src/banjo/codegen/reg_alloc_pass.cpp:266-441 | a function whose only register is taken at a use has runs of every length |
| `CfgOrder.SortInPostOrder` | src/banjo/ssa/control_flow_graph.cpp:49-94 | renumbers the graph one to one, with the entry last and a later predecessor for every other node; an edge that does not lead to a lower number closes a cycle |
| `CfgOrder.CollectNodesInPostOrder` | src/banjo/ssa/control_flow_graph.cpp:79-94 | numbers the nodes newly reached, each before a predecessor of it; whatever a node has an edge to and is not numbered before it leads back to it |
| `DominatorTrees.Intersect` | src/banjo/ssa/control_flow_graph.cpp:182-194 | the ancestors of the result are exactly the common ancestors of the two nodes |
| `DominatorTrees.NewIdom` | src/banjo/ssa/control_flow_graph.cpp:143-148 | the deepest common ancestor of the predecessors that are in the tree |
| `DominatorTrees.Sweep` | src/banjo/ssa/control_flow_graph.cpp:136-154 | a sweep keeps the tree sound, makes it exact for one retreating edge more, and changes nothing after as many sweeps as there are nodes |
| `DominatorTrees.MeetIsExact` | src/banjo/ssa/control_flow_graph.cpp:143-153 | the new parent is on every path with one retreating edge more |
| `DominatorTrees.MeetIsSound` | src/banjo/ssa/control_flow_graph.cpp:143-153 | no dominator is lost when a parent changes |
| `DominatorTrees.ComputeIdoms` | src/banjo/ssa/control_flow_graph.cpp:129-166 | the loop ends, and every parent is the immediate dominator, with the entry its own parent |
| `DominatorTrees.AncestorsAreDominators` | src/banjo/ssa/control_flow_graph.cpp:168-180 | the ancestors of a node in the tree are exactly its dominators |
| `DominatorTrees.DominatorTree.constructor` | src/banjo/ssa/control_flow_graph.cpp:119-127 | parents, children and frontiers of the finished tree |
| `DominatorTrees.DominatorTree.DominatesNode` | src/banjo/ssa/control_flow_graph.cpp:168-180 | the walk down the tree answers dominance by paths, both ways |
| `DominatorTrees.DominatorTree.WalkUp` | src/banjo/ssa/control_flow_graph.cpp:206-214 | adds a node to the frontiers of exactly those passed on the way up to its parent |
| `DominatorTrees.FrontierIff` | src/banjo/ssa/control_flow_graph.cpp:196-216 | a node is in a frontier exactly if it is in the dominance frontier and, when it is the entry, also is not its own and has two predecessors |
| `DominatorTrees.FrontiersExactIff` | src/banjo/ssa/control_flow_graph.cpp:196-216 | all frontiers are the dominance frontiers if and only if no edge leads to the entry |
| `LoopAnalysis.LoopAnalyzer.Analyze` | src/banjo/passes/loop_analysis.cpp:9-21 | one natural loop for each reported back edge, and no others |
| `LoopAnalysis.LoopAnalyzer.IsDominatedBy` | src/banjo/passes/loop_analysis.cpp:23-39 | yes exactly if the nodes are equal, or the second dominates the first and is not the entry |
| `LoopAnalysis.LoopAnalyzer.AnalyzeBackEdge` | src/banjo/passes/loop_analysis.cpp:41-63 | appends the natural loop of the edge |
| `LoopAnalysis.LoopAnalyzer.CollectBodyNodes` | src/banjo/passes/loop_analysis.cpp:65-75 | adds nodes that reach the tail without the header, and every predecessor of a node it adds |
| `LoopAnalysis.HeaderDominatesBody` | src/banjo/passes/loop_analysis.cpp:41-75 | the header dominates every node of the body |
| `LoopAnalysis.EntersThroughHeader` | src/banjo/passes/loop_analysis.cpp:52-56 | the edges that enter the body are exactly those from the entries to the header |
| `Licm.OutsideReachesEntry` | src/banjo/passes/licm_pass.cpp:59-90 | a definition outside the loop that reaches into it reaches the block before the loop |
| `Licm.EntryDominatesBody` | src/banjo/passes/licm_pass.cpp:37-39 | the only entry of a loop dominates all of its body |
| `Licm.HoistKeepsValid` | src/banjo/passes/licm_pass.cpp:64-92 | after a move every use is still reached by its one definition on every path |
| `LicmMeaning.HoistKeepsMeaning` | src/banjo/passes/licm_pass.cpp:64-92 | after a move the function visits the same blocks with the same memory and returns the same, from every state |
| `LicmMeaning.HoistedValueIsCurrent` | src/banjo/passes/licm_pass.cpp:64-92 | in every iteration the moved instruction would compute the value it computed before the loop |
| `LicmPasses.LicmPass.RunLoop` | src/banjo/passes/licm_pass.cpp:36-95 | moving, and running again while something changed, ends when every instruction of the loop is a load, store, call or member pointer, has no result, or reads a register the loop defines; it only makes moves, and on a loop that qualifies they leave valid code with the same meaning |
| `LicmPasses.LeadsLeavesStaying` | src/banjo/passes/licm_pass.cpp:63-67 | however many moves are made, loads, stores, calls, member pointers and what has no result stay in their blocks, in their order |
| `LicmPasses.LeadsKeepsMeaning` | src/banjo/passes/licm_pass.cpp:60-95 | any number of moves out of a loop with one way in keeps validity and meaning |
| `LicmPasses.LicmPass.HoistFromBlock` | src/banjo/passes/licm_pass.cpp:61-93 | walks one block; each move takes one register out of the loop's definitions |
| `LicmPasses.HoistShrinksLoop` | src/banjo/passes/licm_pass.cpp:85-91 | a move takes exactly the moved register out of what the loop defines |
| `LicmPasses.RunOnFunction` | src/banjo/passes/licm_pass.cpp:20-34 | dominators, loops and code motion together keep validity and meaning, unless the entry is a loop of its own with one other way in; on any function the result is reached by moves out of the reported loops, in their order |
| `LicmLimits.EntryLoopIsSpoiled` | src/banjo/passes/licm_pass.cpp:20-95 | for every graph whose entry is a loop of its own with one other way in, there is valid code of which the pass makes code with another meaning |
| `JumpThreading.SubstValues` | src/banjo/passes/control_flow_opt_pass.cpp:259-284 | reading operands after the parameters are bound is reading their simultaneous substitution before |
| `JumpThreading.JumpThrough` | src/banjo/passes/control_flow_opt_pass.cpp:132-182 | a jump replaced by the branch of its target goes where the two branches went, with the same parameter values |
| `JumpThreading.ArmThrough` | src/banjo/passes/control_flow_opt_pass.cpp:184-257 | an arm replaced by the decided arm of its target does the same |
| `JumpThreading.BypassKeepsMeaning` | src/banjo/passes/control_flow_opt_pass.cpp:132-257 | over whole runs the new program is where the old one gets to a little later |
| `ControlFlowOpt.CollectEscaping` | src/banjo/passes/control_flow_opt_pass.cpp:32-48 | finds exactly the blocks whose parameters are read in other blocks, by instructions or branch arguments |
| `ControlFlowOpt.StepKeepsCover` | src/banjo/passes/control_flow_opt_pass.cpp:32-48 | the set, computed once, stays large enough after a step |
| `ControlFlowOpt.ControlFlowOptPass.IsRegAlwaysDefined` | src/banjo/passes/control_flow_opt_pass.cpp:286-294 | yes exactly if a definition of the register dominates the block |
| `ControlFlowOpt.ControlFlowOptPass.TryReplaceReg` | src/banjo/passes/control_flow_opt_pass.cpp:259-284 | parameters become arguments; any other register must be defined on all paths |
| `ControlFlowOpt.ControlFlowOptPass.TryInlineIntoJmp` | src/banjo/passes/control_flow_opt_pass.cpp:132-182 | replaces the jump exactly when the conditions hold, by the substituted branch, and keeps what an iteration relies on, with the dominator tree of its start |
| `ControlFlowOpt.ControlFlowOptPass.TryInlineIntoCjmp` | src/banjo/passes/control_flow_opt_pass.cpp:184-257 | replaces the arm exactly when the conditions hold, by the decided arm, and keeps what an iteration relies on, too |
| `ControlFlowOpt.ThreadKeepsScope` | src/banjo/passes/control_flow_opt_pass.cpp:132-294 | every use stays in scope in the graph a step leaves behind |
| `ControlFlowOpt.StepIsConsistent` | src/banjo/passes/control_flow_opt_pass.cpp:132-294 | after a step the tree of the old graph still answers for all blocks that were not bypassed, and those that were define nothing that matters |
| `ControlFlowOpt.JumpIsConsistent` | src/banjo/passes/control_flow_opt_pass.cpp:132-182 | replacing a jump is such a step |
| `ControlFlowOpt.ArmIsConsistent` | src/banjo/passes/control_flow_opt_pass.cpp:184-257 | replacing an arm is such a step |
| `ControlFlowOpt.StepKeepsMeaning` | src/banjo/passes/control_flow_opt_pass.cpp:132-257 | a step of the pass keeps the meaning of the function |
| `ControlFlowOpt.InlineBranches` | src/banjo/passes/control_flow_opt_pass.cpp:67-83 | the loop over all blocks, with one dominator tree, keeps scope and meaning, and visits the blocks in order: of each, the jump, or one arm after the other, is replaced exactly if it can be |
| `ControlFlowOpt.JumpDoneMeans` | src/banjo/passes/control_flow_opt_pass.cpp:132-182 | a jump is replaced exactly if its target holds nothing but a branch, keeps its parameters to itself, and names only its parameters and registers defined in dominating blocks; the new branch is that one with arguments for parameters |
| `ControlFlowOpt.ArmDoneMeans` | src/banjo/passes/control_flow_opt_pass.cpp:184-257 | an arm is replaced exactly if its target is such a block and jumps, or compares what are numbers once the parameters are replaced; it then leads to where control goes on, and nothing else changes |
| `ControlFlowOpt.BothArmsAreTried` | src/banjo/passes/control_flow_opt_pass.cpp:74-82 | after the visit, each arm that led to a block with nothing but a jump leads to where that jumps |
| `Workspaces.Workspace.CollectDependents` | src/banjo-lsp/workspace.cpp:202-213 | the closure walk ends on cyclic graphs and adds reachable modules only, leaving none out |
| `Workspaces.Workspace.ModulesToAnalyse` | src/banjo-lsp/workspace.cpp:58-60 | the modules analysed again are exactly those reachable through recorded dependents, and include every transitive user |
| `Workspaces.Workspace.BuildIndex` | src/banjo-lsp/workspace.cpp:123-200 | after erasing and recording, the index agrees with the analysis of all modules, those left alone included; only users are added as dependents, and those of modules analysed again are forgotten |
| `Workspaces.Workspace.RecordUse` | src/banjo-lsp/workspace.cpp:161-197 | a use is resolved to where its name is defined now, and its module is recorded as a dependent |
| `Workspaces.Workspace.Initialize` | src/banjo-lsp/workspace.cpp:26-45 | the index, names and extents agree with the analysis of all modules, and the recorded dependents are exactly the users |
| `Workspaces.Workspace.Update` | src/banjo-lsp/workspace.cpp:47-81 | they agree again after any edit, whatever extent it gives the file; exactly the recorded dependents are analysed again, and only users are added to them; unknown files change nothing |
| `Workspaces.Serve` | src/banjo-lsp/server.cpp:78-89 | after any sequence of edits the index agrees with the latest analysis of every module |
| `Workspaces.BareAnalyzes` | src/banjo-lsp/workspace.cpp:47-81 | there is an analysis for every edit: what is asked of it excludes none |
| `Workspaces.UsersAreAnalysed` | src/banjo-lsp/workspace.cpp:58-60 | everything that uses the edited module, however indirectly, is analysed again |
| `Workspaces.UnaffectedResolved` | src/banjo-lsp/workspace.cpp:123-126 | references of modules left alone never point into a replaced module |
| `LexerSpec.KeptIffClean` | src/banjo/lexer/lexer.cpp:65-209 | from any place on, what is found is the source, character by character, exactly if each piece is followed by another within the source up to its end |
| `LexerSpec.CleanIffBalanced` | src/banjo/lexer/lexer.cpp:65-201 | this is so exactly if, read one character after the other, every character is known where it stands and no literal is left open |
| `LexerTokens.WordIsLongest` | src/banjo/lexer/lexer.cpp:97-105 | an identifier is the longest word of letters, digits and underscores that does not start with a digit |
| `LexerTokens.NumberIsLongest` | src/banjo/lexer/lexer.cpp:107-117 | a number goes on for as long as its characters do and there are not two dots in a row |
| `LexerTokens.BlanksAreLongest` | src/banjo/lexer/lexer.cpp:77-95 | whitespace is as long as it goes on |
| `LexerTokens.CommentIsLongest` | src/banjo/lexer/lexer.cpp:137-143 | a comment takes the rest of its line |
| `LexerTokens.LiteralEndsWithQuote` | src/banjo/lexer/lexer.cpp:119-135 | a literal ends with the first quote of its kind that has an even number of backslashes before it |
| `LexerTokens.PunctuationIsLongest` | src/banjo/lexer/lexer.cpp:145-201 | punctuation is the longest of a list of 46 that stands there |
| `LexerTokens.StartsAre` | src/banjo/lexer/lexer.cpp:65-75 | nothing else starts anything |
| `LexerTokens.MarkedIffLineBreaks` | src/banjo/lexer/lexer.cpp:77-95 | with optional semicolons a token is marked exactly if a line break follows it before the next token |
| `LexerTokens.AttachedAre` | src/banjo/lexer/lexer.cpp:77-95 | whitespace and comments are attached, in order, and nothing else is |
| `LexerSpec.PiecesInOrder` | src/banjo/lexer/lexer.cpp:203-232 | pieces are parts of the source, one after the other |
| `LexerSpec.UnknownIsDropped` | src/banjo/lexer/lexer.cpp:145-198 | a character that starts nothing is dropped |
| `LexerSpec.EmbeddedEndCuts` | src/banjo/lexer/lexer.cpp:46 | an end-of-file character in the source ends the text |
| `LexerSpec.OpenLiteralOverruns` | src/banjo/lexer/lexer.cpp:119-135 | a literal left open takes an end-of-file character with it |
| `Lexers.TokenIsAppended` | src/banjo/lexer/lexer.cpp:203-209 | finishing a token adds its value to the end of the text |
| `Lexers.AttachedIsAppended` | src/banjo/lexer/lexer.cpp:217-232 | attaching a token adds its value, too, wherever the last attachment started |
| `Lexers.Lexer.SkipPast` | src/banjo/lexer/lexer.cpp:119-135 | stops past the terminator that is not escaped, or past an end-of-file character |
| `Lexers.Lexer.ReadRest` | src/banjo/lexer/lexer.cpp:145-201 | takes the longest punctuation |
| `Lexers.Lexer.ReadToken` | src/banjo/lexer/lexer.cpp:65-75 | records exactly the piece that starts here, up to where it ends, or passes over a character that starts nothing |
| `Lexers.Lexer.Tokenize` | src/banjo/lexer/lexer.cpp:36-63 | the lists hold exactly the tokens, with the marks of those that end a line, and the attached pieces of the source; attachments partition them; read together they are the source if and only if every character is known where it stands and no literal is left open; nothing outside the buffer is read |
| `ExprRoundTrip.ParsesTree` | src/banjo/parser/expr_parser.cpp:21-245 | parsing at a level reads any tree that fits there, if the next token does not go on with it |
| `ExprRoundTrip.RoundTrip` | src/banjo/parser/expr_parser.cpp:21-23 | every tree that respects levels and left associativity is read back from its tokens, and exactly those are consumed |
| `ExprRoundTrip.Unambiguous` | src/banjo/parser/expr_parser.cpp:21-119 | no two such trees have the same tokens |
| `ExprSoundness.SpellMeans` | src/banjo/parser/expr_parser.cpp:21-245 | spelling a tree without liberties is its list of tokens |
| `ExprSoundness.LevelIsSound` | src/banjo/parser/expr_parser.cpp:21-245 | parsing at a level returns a tree that fits there and is spelled by the tokens consumed |
| `ExprSoundness.Soundness` | src/banjo/parser/expr_parser.cpp:21-23 | what is accepted is spelled by the tokens consumed; they are exactly the tokens of the tree if and only if every closer is the right one and no comma trails |
| `ExprStrict.TokensDecide` | src/banjo/parser/expr_parser.cpp:21-245 | a wrong closer was consumed exactly if the parentheses consumed do not balance; the tokens are those of the tree if and only if they do and, reading them once, no comma stands right before a closer, unless it is the only one in a group that is not for arguments |
| `ExprPrecedence.ChainIsGrouped` | src/banjo/parser/expr_parser.cpp:30-119 | in a chain of operands and operators of any length, the operator made last is the last of those in the group that binds least; from the one that binds least, the groups are the range operator, logical or, logical and, comparisons, bitwise or, xor, bitwise and, shifts, sums, products, and casts with type checks |
| `ExprPrecedence.SecondIsFirst` | src/banjo/parser/expr_parser.cpp:30-119 | of two operators the second one is made first exactly if it is in a later group |
| `ExprPrecedence.ExceptBindsMore` | src/banjo/parser/expr_parser.cpp:121-142 | `except` binds more than every operator on either side, and the second of two is made first |
| `ExprPrecedence.PrefixBindsMore` | src/banjo/parser/expr_parser.cpp:144-173 | each of eleven prefix operators, `ref mut` included, becomes part of the operand before `except` and operators are made |
| `ExprPrecedence.MemberBindsMost` | src/banjo/parser/expr_parser.cpp:175-200 | a member access is made before prefix operators |
| `ExprPrecedence.ArgsBindMost` | src/banjo/parser/expr_parser.cpp:175-200 | so is a call |
| `ExprPrecedence.BracketsBindMost` | src/banjo/parser/expr_parser.cpp:175-200 | so are brackets |
| `ExprPrecedence.PostIsOperand` | src/banjo/parser/expr_parser.cpp:144-200 | what can be followed by members, arguments and brackets can be an operand of everything |
| `ExprPrecedence.SimpleOperands` | src/banjo/parser/expr_parser.cpp:463-490 | single tokens, and whole expressions in parentheses, can be |
| `ExprPrecedence.CommasMakeTuples` | src/banjo/parser/expr_parser.cpp:463-484 | parentheses with commas make a tuple |
| `ExprPrecedence.CommaMakesTuple` | src/banjo/parser/expr_parser.cpp:463-484 | so does a comma after one element |
| `ExprLiberties.CommaAfterArgs` | src/banjo/parser/parser.cpp:201-247 | a comma may come after the last argument |
| `ExprLiberties.CommaInBrackets` | src/banjo/parser/parser.cpp:201-247 | the same in brackets |
| `ExprLiberties.CommaAfterElements` | src/banjo/parser/expr_parser.cpp:469-481 | a comma may come after the last element of a tuple |
| `ExprParsers.ExprParser.BinaryLevel` | src/banjo/parser/expr_parser.cpp:673-706 | the loop of a level computes the level's parse |
| `ExprParsers.ExprParser.UnaryLevel` | src/banjo/parser/expr_parser.cpp:144-173 | prefix operators, `ref mut` included |
| `ExprParsers.ExprParser.PostOperand` | src/banjo/parser/expr_parser.cpp:175-200 | an operand with member accesses, calls and brackets |
| `ExprParsers.ExprParser.ParenExpr` | src/banjo/parser/expr_parser.cpp:463-490 | parentheses and tuples |
| `ExprParsers.ExprParser.Parse` | src/banjo/parser/expr_parser.cpp:21-23 | the parser over its token stream returns the tree the tokens stand for |
| `ExprParsers.CloserIsNotChecked` | src/banjo/parser/expr_parser.cpp:486-489 | whatever stands inside, any token that does not go on with the expression closes a parenthesis |
| `IntLiterals.ValidateIntegerRange` | src/banjo/parser/expr_parser.cpp:708-735 | comparing digit strings decides whether the number is at most 2^64 - 1 |
| `IntLiterals.ParseIntLiteral` | src/banjo/parser/expr_parser.cpp:255-302 | a literal is accepted exactly if it has digits, all of its base, and its number is at most 2^64 - 1 |
| `IntLiterals.PrefixTellsBase` | src/banjo/parser/expr_parser.cpp:261-274 | what follows `0x`, `0b` and `0o` is accepted as a hexadecimal, binary and octal number, and what starts with none of them as a decimal one |
| `IntLiterals.DigitsInOrder` | src/banjo/parser/expr_parser.cpp:755-767 | the digits are 0 to 9 and a to f, in both cases, in the order of their values |
| `IntLiterals.MaxDigitsAreMax` | src/banjo/parser/expr_parser.cpp:711-717 | the table of largest literals says 2^64 - 1 in all four bases |
| `AddrFolding.SsaLowerer.GetProducer` | src/banjo/codegen/ssa_lowerer.cpp:543-553 | the last instruction of the block that defines the register, if there is one |
| `AddrFolding.FoldKeepsAddress` | src/banjo/codegen/ssa_lowerer.cpp:597-632 | folding the producer of the base into the components does not change the address, seen from any later instruction |
| `AddrFolding.SsaLowerer.CollectAddr` | src/banjo/codegen/ssa_lowerer.cpp:586-640 | the loop ends; base, constant and scaled register stand for the address of the operand, and nothing more can be folded |

## Left out

- Bundle weights and the order of the priority queue: any bundle may be popped, which covers every order.
- The target: operand lists, candidate and suggested registers, `is_move_from` and removable instructions are parameters. On
  x86-64 `insert_load` may fold a load into a memory operand; the model always inserts the load.
- Address operands with base and offset registers: the model replaces registers in the operand list, wherever in the
  instruction they stand.
- Stack frame layout and sizes of spill slots: a slot holds one value.
- `Precomputing`, the merging of blocks and the four iterations of control-flow optimisation: the theorem is about the loop
  over branches of one iteration.
- Dumps and logging.
- Source positions, reports and completion: only the index of definitions, uses and dependents is modelled.
- ExprParsers.ExprParser.ParenExpr: the parser goes on with an error node after an error, and so may build a valid node around
  it; the model stops, here and elsewhere.
- ExprParsers.ExprParser.PostOperand: struct literals after an operand are not modelled; neither are array and closure
  literals, function types, `self.type` and `meta`. Tokens are taken as already classified.
- Floating-point, character and string literals.
- The lexer's completion token and its mode without attachments, where whitespace and comments are lost by design. Keywords
  are identifiers here, and which punctuation a token is, is not recorded.
- `discard_use`: the counts that tell the lowerer which instructions not to lower after folding. Addresses do not wrap around.
- Clobbers.PhysicalsCoveredIff: an instruction that both reads and defines a physical register has a role only if it clobbers
  the register first and lists the definition last, as calls do.
