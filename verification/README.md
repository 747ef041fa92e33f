# A verified model of the compiler's middle and back end

The compiler turns a C-like language into x86-64 assembly. This project models, and proves correct, the path a
function takes from structured statements to registers and a frame:

- `Precedence` reads operator expressions; `Structured`, `LoweredCode`, `Implements`, `ImplementsLoops` and
  `Desugaring` lower statements to blocks of three-address code.
- `Graphs`, `Postorder`, `IdomTree`, `DomFixpoint`, `Stamps`, `Dominators` and `Frontiers` compute dominance.
- `Ssa`, `Rewrites`, `SsaValid`, `GraphEdits`, `GraphSurgery`, `Reachables`, `Wiring`, `Functions` and `Stuttering`
  give functions in SSA form, what running one does, when one is valid, and the edits on the function object.
- `SlotUses`, `RenameSpec`, `Promotion`, `RenameSteps`, `RenameBlocks`, `RenameWalk`, `Renamer`, `Prepare`,
  `Erasure`, `Promoted`, `PromotedShape`, `PromotedHeads` and `Mem2Reg` promote slots to values; `WholeMemory`,
  `PromotedWhole` and `AddressTaken` do so over a memory the outside world can write to.
- `CriticalEdges`, `SplitUses`, `CopyProp`, `SecondRun`, `BlockMerging`, `MergedUses`, `RetainedUses`, `Renumbering`,
  `Heads` and `Rounds` split edges, propagate copies and merge blocks.
- `ParallelCopies`, `Tac`, `Destruct` and `LeaveSsa` leave SSA form; `ParallelMoves` shuffles registers.
- `Vregs`, `Linear`, `Liveness`, `Intervals`, `LinearScan`, `Contention`, `Frame` and `AllocSim` allocate registers;
  `LinearMachine` runs the emitted code from its first instruction, and `Backend` is the back end as a whole.
- `ThroughSsa`, `LinearCode`, `LinearRuns` and `Allocated` put the stages together.

Running is modelled block by block (`Ssa.Run`), instruction by instruction on virtual and on physical registers
(`AllocSim`), by the index of the emitted instruction (`LinearMachine`), and by fuel on structured statements
(`Structured.Exec`). What is observed is the result and the list of events, each a call, an access to memory other code
can reach or the handing out of an address, with the words it read. Every statement about runs covers runs that never
end.

The main results, in the order a function meets them: `Desugaring.LoweringContext.LowerFunction`,
`Mem2Reg.PromoteSlots` with `PromotedWhole.PromoteEligible`, `Rounds.Optimize`, `LeaveSsa.LeavingKeepsRuns`,
`AllocSim.AllocationKeepsRuns`, `LinearMachine.OrderKeepsRuns`, and `Allocated.CompileFunction`, which composes
everything from the function in memory to emitted code on registers and frame.

## Findings

- `src/middle/ssa/passes/copyprop.rs:24-29` says that a second run changes nothing. It may: in `x = phi(a, y)`,
  `y = phi(x)` the first run drops `y` and leaves `x = phi(a, x)`, a copy. `SecondRun.SecondRunStops` gives the exact
  condition, `SecondRun.SecondRunMayChange` the function. The fixed point the pipeline runs to is reached all the
  same (`Rounds.Optimize`).
- `src/middle/ssa/destruct.rs:314-320` takes the absence of critical edges to be what lowering phis needs. It is not
  enough: a phi with one argument in a block a branch leads to owes a copy its predecessor cannot make
  (`LeaveSsa.CriticalFreeIsNotEnough`); `LeaveSsa.CriticalFreeLowers` has the exact condition. Promotion never makes
  such a phi, and the passes modelled here keep it so (`ThroughSsa.JoinsLower`).
- `src/middle/ssa/dom.rs:329-355` computes the dominance frontiers of all blocks exactly when nothing branches into the
  entry (`Frontiers.FrontiersExactIff`), which construction sees to.
- `src/middle/ssa/passes/blocks.rs:24-40` relies on the same: an entry that is jumped to can be absorbed, and the
  function then does nothing (`BlockMerging.EntryMustNotBeEntered`).
- `src/backend/linear.rs:57-60` moves blocks without instructions behind all others. For the entry that would be wrong:
  emitted code starts at the entry exactly when the entry has instructions, or no block has
  (`LinearMachine.StartsAtEntry`). Code that left SSA form always has some (`LinearCode.LastLeaves`).

## Model

| member | source | states |
|---|---|---|
| Precedence.Parser.ParseExpr | src/frontend/parser.rs:677-695 | returns the expression the grammar of C11 derives from the tokens consumed, which written out in order gives those tokens back but for parentheses, and fails only when they read as no expression; there is never a second reading |
| Precedence.Parser.ParseBinaryExpr | src/frontend/parser.rs:702-717 | the same for operators binding at least as tightly as the level asked for |
| Precedence.Parser.ParseUnary | src/frontend/parser.rs:719-742 | the same for prefix operators |
| Precedence.Parser.ParsePrimary | src/frontend/parser.rs:814-852 | the same for names, literals and parenthesised groups |
| Precedence.OneExpr | src/frontend/parser.rs:677-695 | a token sequence has at most one reading as an expression |
| Precedence.GrammarIsPrecedence | src/frontend/parser.rs:861-883 | what fits a level, and the expression the parser makes of it, is what the productions of sections 6.5.3 and 6.5.5 to 6.5.14 of the C11 standard derive, operator by operator and punctuator by punctuator |
| Precedence.BindingIsSection | src/frontend/parser.rs:861-883 | a token denotes exactly the operator whose production has it as its punctuator, and binds as the section of that production says |
| Precedence.FitsSpelled | src/frontend/parser.rs:702-717 | the expression made of what is written spells it, operand by operand, without the parentheses |
| Desugaring.LoweringContext.LowerFunction | src/middle/desuger.rs:178-220 | the code ends exactly when the function does, with its value and calls; for every fuel it makes the calls the function makes and, if the function still runs, runs on at least that long; and it never makes others |
| Desugaring.FunctionMeans | src/middle/desuger.rs:178-220 | the same, from what is written into the blocks |
| Desugaring.LoweringContext.LowerStatement | src/middle/desuger.rs:294-475 | the code from here on does what the statement does, a break or continue reaching the innermost loop's targets, and only new blocks and the current one were written |
| Desugaring.LoweringContext.LowerShortCircuit | src/middle/desuger.rs:1357-1415 | the code leaves zero or one as the logical operator says and evaluates the right operand only when needed |
| Postorder.ReversePostorder | src/middle/ssa/dom.rs:116-149 | lists exactly the reachable blocks, each once, the entry first and every other after one of its predecessors; an edge that does not go forward goes to a block above its source in the search tree |
| Dominators.Intersect | src/middle/ssa/dom.rs:363-383 | returns the lowest common ancestor, and whatever dominates both blocks dominates it |
| Dominators.Build | src/middle/ssa/dom.rs:194-259 | the sweep ends, and the tree answers dominance, defined over all paths from the entry, exactly |
| Dominators.ImmediateIsNearest | src/middle/ssa/dom.rs:267-270 | the immediate dominator strictly dominates and is dominated by every other strict dominator; only the entry has none |
| Stamps.StampPreorder | src/middle/ssa/dom.rs:393-438 | one block's stamps lie inside another's exactly when it is below it in the tree |
| Frontiers.ComputeFrontiers | src/middle/ssa/dom.rs:329-355 | the frontiers of every block but for the entry as a member, exactly |
| Frontiers.FrontiersExactIff | src/middle/ssa/dom.rs:329-355 | they are exact everywhere if and only if nothing branches into the entry |
| Frontiers.PlaceSlot | src/middle/ssa/mem2reg.rs:95-119 | the iterated frontier: the least set closed under the frontiers of itself and of the definitions |
| Frontiers.PhiPlacement | src/middle/ssa/mem2reg.rs:87-123 | that, for every slot read before it is written in some block, and nothing for the others |
| SlotUses.Compute | src/middle/ssa/mem2reg.rs:48-73 | the blocks storing to each slot, and the slots some block loads with no store before, exactly |
| SlotUses.Promotable | src/middle/ssa/promote.rs:70-128 | exactly the scalar slots no instruction takes the address of or indexes, none if control may return twice |
| Renamer.Renaming.RenameBlock | src/middle/ssa/mem2reg.rs:259-367 | one block becomes what the renaming specification says and its successors' phis get their arguments |
| Renamer.Renaming.Walk | src/middle/ssa/mem2reg.rs:212-251 | the walk with stacks renames every block as the specification over the dominator tree does |
| Mem2Reg.PromoteSlots | src/middle/ssa/mem2reg.rs:135-162 | the result is valid SSA with the same edges and phis only where edges meet, no promoted slot is loaded or stored any more, and on every machine every run takes the same blocks, with the same events, result, remaining values and remaining memory |
| Promoted.PromotionKeepsRuns | src/middle/ssa/mem2reg.rs:135-162 | that equality, after every number of blocks |
| Promoted.PromotionIsValid | src/middle/ssa/mem2reg.rs:135-162 | after promotion every use is dominated by its one definition |
| Mem2Reg.PhisHoldMemory | src/middle/ssa/mem2reg.rs:87-123 | in every run each phi holds what its slot held in memory at that point |
| Mem2Reg.SlotsAreGone | src/middle/ssa/mem2reg.rs:290-330 | no load or store of a promoted slot is left |
| WholeMemory.WholeIsSplit | src/middle/ssa/promote.rs:3-7 | over one memory that indexing and the outside world can write, slots reached only by name keep a memory of their own |
| PromotedWhole.PromotionKeepsWholeRuns | src/middle/ssa/promote.rs:3-13 | over that memory, promoting slots reached only by name keeps every run |
| PromotedWhole.PromoteEligible | src/driver/mod.rs:159-160 | gate and pass together promote exactly the slots reached only by name and keep every run over the whole memory |
| AddressTaken.AddressTakenMustStay | src/middle/ssa/promote.rs:99-102 | a function whose address-taken slot is promoted returns 5 where its run in memory returns 7 |
| AddressTaken.PromotePastTheGate | src/middle/ssa/promote.rs:99-102 | the pass, called past the gate on that function, makes that result |
| Functions.Function.SubstituteOperands | src/middle/ssa/mod.rs:695-725 | every operand is read through the replacement, everything else stays, and the object stays well formed |
| Functions.Function.RetainPhis | src/middle/ssa/mod.rs:732-749 | the phis asked for go, and the recorded definition sites are those of the phis that stay |
| Functions.Function.SetTerminator | src/middle/ssa/mod.rs:813-838 | edges are added and taken away as often as the new terminator asks, with their phi columns, and lists on both sides agree again |
| Functions.Function.SplitEdge | src/middle/ssa/mod.rs:875-903 | a new block takes the edge's place on both sides, keeping the order of predecessors |
| Functions.Function.MergeBlocks | src/middle/ssa/mod.rs:950-990 | the first block does what both did, and its successors' predecessor entries are renamed in place |
| Functions.Function.RetainReachable | src/middle/ssa/mod.rs:1006-1083 | exactly the reachable blocks stay, in order, renumbered throughout, without the columns of deleted predecessors |
| CriticalEdges.SplitCriticalEdges | src/middle/ssa/build.rs:60-79 | the critical edges are gone and all others there, the old blocks and the order of their predecessors stay, valid SSA stays valid, and each run shows what the other shows |
| Stuttering.FollowersEndAlike | src/middle/ssa/build.rs:49-59 | a function followed through extra blocks ends exactly when the other does, alike |
| CopyProp.DirectCopies | src/middle/ssa/passes/copyprop.rs:76-96 | the copies and the phis of one value, all of them and nothing else |
| CopyProp.Resolve | src/middle/ssa/passes/copyprop.rs:127-142 | the end of the chain of copies, and nothing only if the chain closes on itself |
| CopyProp.EveryCopyResolves | src/middle/ssa/passes/copyprop.rs:39-46 | in valid SSA no chain closes on itself |
| CopyProp.RunKeepsCopies | src/middle/ssa/passes/copyprop.rs:3-8 | in every run each copy in scope equals what it copies |
| CopyProp.PropagationKeepsRuns | src/middle/ssa/passes/copyprop.rs:30-72 | every run stays the same but for the values dropped |
| CopyProp.PropagationKeepsValid | src/middle/ssa/passes/copyprop.rs:30-72 | valid SSA stays valid |
| CopyProp.PropagationShrinks | src/middle/ssa/passes.rs:3-7 | a run that reports a change leaves strictly fewer phis and copies |
| CopyProp.Propagate | src/middle/ssa/passes/copyprop.rs:30-72 | reports a change exactly when there was a copy, and then the function is the substituted one without its copies |
| SecondRun.SecondRunStops | src/middle/ssa/passes/copyprop.rs:24-29 | a second run finds nothing exactly when no phi becomes a copy by the substitution |
| SecondRun.SecondRunMayChange | src/middle/ssa/passes/copyprop.rs:24-29 | a valid function on which the second run does change something |
| BlockMerging.NextMerge | src/middle/ssa/passes/blocks.rs:43-56 | the first pair that can be merged, and none only if there is none |
| BlockMerging.MergeAll | src/middle/ssa/passes/blocks.rs:24-40 | merges until nothing is left to merge, deletes the absorbed blocks, reports exactly that, keeps valid SSA and the absence of critical edges, and runs alike |
| BlockMerging.MergeFollows | src/middle/ssa/mod.rs:950-990 | every run of the merged function is followed by one through both blocks |
| BlockMerging.EntryMustNotBeEntered | src/middle/ssa/passes/blocks.rs:43-56 | a well-formed function with an edge into its entry whose merge loses the call it makes |
| MergedUses.MergedUsesOk | src/middle/ssa/mod.rs:950-990 | after a merge every use is still dominated by its definition |
| RetainedUses.RetainedIsValid | src/middle/ssa/mod.rs:1006-1083 | deleting what cannot be reached, where nothing reached is entered from it, leaves valid SSA |
| Renumbering.RetainedRun | src/middle/ssa/mod.rs:1006-1083 | the run of what is kept is the old run with its blocks renumbered |
| Renumbering.AlikeEnd | src/middle/ssa/passes/blocks.rs:24-40 | functions running alike end exactly together |
| Rounds.Optimize | src/middle/ssa/passes.rs:46-55 | rounds of the two passes always stop, with no copy left and nothing to merge, in valid SSA showing what it showed before |
| Rounds.ShowsEnd | src/middle/ssa/passes.rs:46-55 | functions that show the same end exactly together |
| Destruct.Lowering.Sequentialize | src/middle/ssa/destruct.rs:353-420 | every destination ends with what its source held at the start, nothing else changes, and there is one extra move and temporary for each cycle, no more |
| Destruct.Lowering.LowerOutgoingPhis | src/middle/ssa/destruct.rs:305-337 | the moves realising what the phis of the one successor ask along this edge, none for other blocks |
| Destruct.ToCfg | src/middle/ssa/destruct.rs:58-83 | every block is its instructions, those moves and its transfer |
| LeaveSsa.LeavingKeepsRuns | src/middle/ssa/destruct.rs:58-83 | after every number of blocks the code is where the function is, with every value in its home and the same memory, events and result |
| LeaveSsa.CriticalFreeLowers | src/middle/ssa/destruct.rs:314-320 | without critical edges, phis can be lowered exactly when no branching block is the only predecessor of a block with phis |
| LeaveSsa.CriticalFreeIsNotEnough | src/middle/ssa/destruct.rs:314-320 | a function without critical edges whose phi cannot be lowered |
| LeaveSsa.TransfersComeLast | src/middle/ssa/destruct.rs:96-116 | behind an instruction that transfers control there are only others |
| LeaveSsa.ParamsSitBeforeCalls | src/middle/ssa/destruct.rs:190-206 | the arguments of a call sit directly before it |
| ThroughSsa.JoinsLower | src/middle/ssa/destruct.rs:305-337 | valid SSA without critical edges and with phis only where edges meet can be lowered |
| ThroughSsa.OptimizeThroughSsa | src/driver/mod.rs:145-169 | the slots reached only by name are promoted, so that no operation of the function or the code names one; without optimisation nothing else is done, with it no copy and nothing to merge is left; and the code shows, on every machine and over the whole memory, what the function in memory shows |
| ThroughSsa.GateLeavesNone | src/middle/ssa/promote.rs:70-128 | once the loads and stores of the slots let through are gone, nothing names them, since nothing took their address or indexed them |
| ThroughSsa.CodeEnds | src/driver/mod.rs:136-144 | that code ends exactly when the function does, alike |
| ParallelMoves.Emission.EmitParallelMoves | src/backend/x86/lower.rs:883-918 | the moves emitted act as if all happened at once, whatever the registers held |
| ParallelMoves.StuckIsPermutation | src/backend/x86/lower.rs:896-917 | when no move is ready the sources are the destinations in another order |
| ParallelMoves.KeepLastWritePerRegister | src/backend/x86/lower.rs:1025-1039 | keeps the last write to each register, in order |
| ParallelMoves.LastWritesAre | src/backend/x86/lower.rs:1025-1039 | which are exactly the moves no later one overwrites, with different destinations |
| ParallelMoves.Emission.LowerIncomingArguments | src/backend/x86/lower.rs:579-609 | every parameter ends with the argument that arrived for it, those in the frame included |
| Linear.DepthFirstOrder | src/backend/linear.rs:99-129 | the reachable labels in depth-first preorder from the entry, each next one the first unlisted successor of the latest label that has one, then the other blocks, each once |
| Linear.OneDepthFirst | src/backend/linear.rs:99-129 | there is only one such preorder |
| Linear.LinearizeCfg | src/backend/linear.rs:61-95 | the labels with code in that order, then those without; the blocks lie one after another without gap or overlap, each with its own instructions, none missing, the entry first if it has any |
| LinearMachine.AddressIs | src/backend/x86/lower.rs:92-96 | a label with code stands at the start of its block's instructions, every other label behind all code |
| LinearMachine.StartsAtEntry | src/backend/linear.rs:57-60 | emitted code starts at the entry if and only if the entry has code or nothing has |
| LinearMachine.OrderKeepsRuns | src/backend/linear.rs:61-95 | run from its first instruction, going on to the next or jumping to a label's address, the emitted code does step by step what it does block by block |
| LinearCode.OperationReads | src/backend/vreg.rs:126-175 | what an encoded operation reads is the variable it names, where it reads one, and every operand in order; what it writes is its result if it has a value, or the variable it stores to |
| LinearCode.CodeReads | src/backend/vreg.rs:126-175 | the same for moves, arguments, calls, parameters, jumps, branches and returns |
| LinearCode.CodeUses | src/backend/vreg.rs:63-82 | the registers liveness counts as used are exactly those of these operands |
| LoweredCode.DependsOnUses | src/backend/vreg.rs:126-175 | an instruction goes on and computes alike wherever the registers it uses hold the same |
| LoweredCode.ChangesOnlyDef | src/backend/vreg.rs:126-175 | and changes no register but the one it defines |
| LoweredCode.BranchUses | src/backend/vreg.rs:164 | a conditional branch of either kind uses its condition and nothing else |
| Liveness.ComputeLiveOut | src/backend/liveness.rs:183-224 | a value is in a block's set exactly when some path from its end reads it before writing it, reads and writes being those of `LinearCode.CodeReads` |
| Intervals.ComputeLiveIntervals | src/backend/liveness.rs:86-148 | one interval a value, in order of start, holding every index where the value is live or written, and beginning and ending at such an index |
| Intervals.FindCallSites | src/backend/liveness.rs:61-72 | every call and nothing else, by position |
| LinearScan.LinearScan | src/backend/regalloc.rs:134-223 | overlapping intervals never share a home, what is live across a call is in a preserved register or a slot, and the preserved registers reported are those used, in order of preference; each interval in turn gets the first register it may use that no earlier interval is still in, or, there being none, takes that of the last to end of those it may take from if that ends after it, or goes to a slot |
| Contention.SpilledWhy | src/backend/regalloc.rs:129-133 | an interval is in the frame only if, when it or one that took its register and ends before it was placed, every register that one may use was held by an interval not over yet, and it was the last of them to end |
| Contention.FewNeedNoFrame | src/backend/regalloc.rs:129-133 | where no more values are wanted at once than there are registers for each of them, nothing is spilled |
| LinearScan.PickRegister | src/backend/regalloc.rs:231-238 | the first free register that is allowed, none only if there is none |
| LinearScan.CrossesAnyCall | src/backend/regalloc.rs:272-278 | true exactly when the interval is live on both sides of some call |
| Frame.Plan | src/backend/frame.rs:79-124 | spill slots, aggregates and address-taken variables get areas that tile the frame without overlap, below the saved registers |
| Frame.PinnedHome | src/backend/frame.rs:158-168 | an address-taken variable is read from the slot its address names |
| Frame.HomesApart | src/backend/frame.rs:158-168 | no two values with homes in the frame share a byte of it |
| Frame.HomeOutsideObjects | src/backend/frame.rs:93-114 | a home in the frame lies outside every aggregate and below the saved registers |
| AllocSim.AllocationKeepsRuns | src/backend/target.rs:64-83 | with calls destroying every register a callee may use, code on homes is where code on virtual registers is after every step, with the same events and result and every live value in its home |
| Backend.FrameRequirements | src/backend/target.rs:96-122 | the aggregates the code mentions, with their sizes, and the variables it takes the address of, exactly |
| Backend.Compile | src/backend/target.rs:64-83 | the stages in order: the intervals are tight, the allocation is the scan's, the frame has room for exactly the aggregates and pinned variables of the code under as many saved registers as the allocation uses, and if no address is taken the emitted code, run from its first instruction on registers and frame, shows what the code on virtual registers shows |
| LinearCode.LoweredIsCompilable | src/middle/ssa/destruct.rs:428-475 | code that left SSA form has its transfers last, naming successors, the very last one unconditional, and its arguments next to their calls |
| LinearRuns.RunsMirror | src/middle/ssa/destruct.rs:154-299 | instruction by instruction on virtual registers the code does what it does block by block |
| Allocated.EncodedNames | src/backend/target.rs:104-122 | encoded code mentions exactly the variables its operations name and takes exactly the addresses they take |
| Allocated.CompileFunction | src/backend/target.rs:64-83 | splitting, promotion, rounds, leaving SSA form, linear order, intervals, allocation and frame together: the slots reached only by name occur nowhere in the emitted code, and that code, run from its first instruction on registers and frame, shows what the function in memory shows, on every run |
| Allocated.PhysicalEnds | src/backend/target.rs:64-83 | that machine ends exactly when the function does, with its result and its events |

## Left out

- Widths, signs and wrap-around: every value is one unbounded word and binary and conversion operators are
  uninterpreted, so nothing depends on how they are computed.
- The lexer, types, scopes and semantic checks, and in the parser calls, subscripts, members, `++` and `--`, casts,
  `sizeof`, declarations and statements.
- Lowering of `~`, arrays, structs, pointers, nested assignments and declarations with initialisers.
- Construction of SSA form up to the function in memory; its last step, splitting critical edges, is modelled.
- Rounds.Optimize: has two passes where the pipeline has six; sccp, simplify, gvn and dce are not modelled.
- Instruction selection for x86 apart from parallel moves and incoming arguments, among it stack arguments of calls.
- AllocSim.AllocationKeepsRuns: covers functions without variables pinned to the frame, which other code may write to
  between two reads of their home; their areas and homes are `Frame.Plan` and `Frame.PinnedHome`.
- Allocated.CompileFunction: is for functions that do not take the address of a slot, for the same reason, and an
  access to an array is an event that names it; the stages up to leaving SSA form have no such limit.
- LeaveSsa.LeavingKeepsRuns: compares with a function whose undefined variables hold zero, which is what the code puts
  there.
- Instructions are kept in their blocks instead of an arena with ids, and labels, versions and variable names are
  numbers; ids do not run out.
- Sets and maps have no iteration order, so the order in which phis for different slots are added is open.
- The edge lists the statement lowering keeps by hand are derived from the transfers.
- The run of `Structured.Exec` counts loop iterations; recursion between functions is an event.
