# Verification model of the jx C compiler's IR optimiser, preprocessor and record layout

The IR of the compiler is a control-flow graph of basic blocks with phis, predecessor and
successor arrays and use lists, which function passes rewrite in place. This project models
the parts of it whose correctness is hard to see by reading, in Dafny, and proves what they
are for:

- **SSA construction** (`ssa_*.dfy`, `dead_allocas.dfy`): a round of alloca promotion over
  sealed and filled blocks, with incomplete phis and recursive removal of trivial phis. The
  promoted function runs like the original on every machine, for all arguments, in every world
  and after every number of edges, and exactly the allocas that can be promoted are.
- **Dominators** (`dominance.dfy`, `dom_tree.dfy`): the fixpoint over reverse postorder numbers
  stops, and at its end every link is the immediate dominator by the definition over all paths.
- **Call graph** (`scc.dfy`, `call_graph.dfy`): Tarjan's algorithm lists exactly the strongly
  connected components, callees first.
- **Inlining** (`calls.dfy`, `inline_*.dfy`, `replace_uses.dfy`, `hoist_allocas.dfy`): one
  inlined call keeps every execution that does not go wrong, step for step; the whole pass
  does. In a function that is a component of the call graph by itself no call to another
  function flagged for inlining is left, and where no call cycle can be reached none at all.
- **CFG maintenance** (`cfg_edges.dfy`, `cfg_merge.dfy`, `cfg_split.dfy`, `split_runs.dfy`,
  `cfg_ops.dfy`): branches, predecessor arrays, successor arrays and phi operands stay in
  agreement under append, remove, conversion of a decided branch, freeing, merging and
  splitting of blocks, and runs are kept.
- **CFG simplification and dead code elimination** (`simplify_cfg.dfy`, `dce.dfy`,
  `dce_pass.dfy`, with `cfg_uses.dfy` and `simplify_uses.dfy`): all runs from the entry are
  kept, what is left is characterised, and if definitions dominated uses before, no use is
  left without its definition.
- **Use lists** (`use_lists.dfy`): the doubly linked lists on the heap hold each operand exactly
  once.
- **Local value numbering** (`value_numbering.dfy`, `numbering_*.dfy`): the pass over all
  blocks, phis included, with uses replaced in the whole function. The numbered function runs
  like the original on every well-behaved machine, and when a block is done nothing in it is
  computed twice.
- **Constant folding** (`const_fold.dfy`, `const_fold_pass.dfy`, `const_fold_div.dfy`,
  `const_fold_laws.dfy`): every folded instruction keeps its meaning, although payloads of
  constants are not normalised, and the exact payloads for which division, remainder and
  shifts are folded right.
- **Macro expansion** (`macros.dfy`, `macro_calls.dfy`, `macro_runs.dfy`, `macro_ends.dfy`,
  `macro_laws.dfy`) with hide sets, as in section 6.10.3.4 of C11: it ends, also with
  function-like macros, no macro is expanded again in what came out of it, and what stands
  behind an invocation stays behind it.
- **String literals** (`string_literals.dfy`, `string_laws.dfy`): quoting and reading back.
- **Struct layout and bit-fields** (`layout.dfy`, `bitfields.dfy`): the front end's layout loop,
  the IR's member list and the lowering of bit-field stores and loads, with the exact widths,
  offsets and units for which a store or a load is right.

Values are integers; what an instruction computes, apart from accesses to private slots, is up
to an arbitrary machine, so that the results hold for every instruction set. Phis are evaluated
together on entry through an edge. Hash maps are finite maps, interned strings are names, and
objects that the passes only read are values.

Where the code and its evident intent differ, the model follows the code or restricts the claim:

- A second SSA round starts from the sealed and filled flags of the first one
  (`src/jir_pass.c:490-507`). A round is right from cleared flags, and from such flags if every
  predecessor of a block is earlier in the block list (`SimpleSSA.Promote`). Over a back edge a
  read finds a block that counts as filled but has not been walked, and misses its stores:
  `SsaStale.RunChanges` has a loop that returns before the round and never ends after it.
- The list of users in the removal of trivial phis can hold a phi that an inner call has removed
  (`src/jir_pass.c:812-817`); such a user is skipped.
- Reverse postorder numbers count down from the number of all blocks
  (`src/jir.c:903-916`), so the sweep, which starts at the second place, finds a block other
  than the entry in every place if and only if every block is reachable
  (`DomTree.SweepNeeds`); the dominator claim is for such graphs.
- The loop that hoists allocas of an inlined callee reads the next link after the move
  (`src/jir_pass.c:4155-4164`). It ends if and only if not both entries begin with an alloca
  (`HoistAllocas.HoistEnds`), and then it has moved at most one alloca
  (`HoistAllocas.MoveAllocas`); the inliner's claims are for callees without leading allocas.
- Masks of bit-field accesses are computed in 32 bits (`src/jir_gen.c:879-888`, `1005`). A
  shift count of 32 or more, which C leaves undefined, counts modulo 32 here, as on x86. The
  value of a field of w bits is stored if and only if w < 32 (`Bitfields.StoreIsRight`), other
  bits of an n-bit unit are kept if and only if n <= 32 or the field has 32 bits or more and
  ends the unit (`Bitfields.StoreKeepsOthers`), and a load is right if and only if w < 32 or
  w = n (`Bitfields.LoadIsRight`). All bit-fields of a laid-out struct can be stored and loaded
  if and only if every declared width is less than 32 (`Bitfields.StructAccess`); fields of 40
  and then 20 bits lose bits (`Bitfields.WideUnitLoses`).
- The value of an assignment to a bit-field is the merged unit (`src/jir_gen.c:897-898`), which
  is the field's value for all units and values if and only if the field is the whole unit
  (`Bitfields.AssignedIsRight`), and for a narrower field if and only if the bits above it, and
  below it the whole unit, are zero (`Bitfields.AssignedOnce`).
- A loaded bit-field is never sign-extended (`src/jir_gen.c:998-1008`), so a negative value of a
  signed field narrower than its unit does not read back: `Bitfields.StoreThenLoad` says exactly
  which values do.
- The search for the end of a string literal steps over whatever follows a backslash
  (`src/jcc.c:7787-7796`), also over the end of the text; `StringLiterals.EndIs` says for which
  texts it leaves them.
- An escaped character that stands for itself is a signed char widened to 32 bits
  (`src/jcc.c:7773-7775`), so a backslash before the byte 255 reads as the error value. So do an
  x without a hexadecimal digit, which is meant, and an x with digits of which the last eight
  are all F: `StringLiterals.EscapeFails` says that these three are all.
- A split graph can be stopped on its way from the first half of the block to the second, in a
  block that the original does not have (`src/jir.c:1540-1598`); all its other outcomes are
  outcomes of the original (`SplitRuns.SplitSame`).
- Value numbering forgets its map between blocks and does not look at a phi again when one of
  its operands is replaced later (`src/jir_pass.c:3677-3716`). Two phis that stay are equal after
  a block if and only if at every place they had the same operand before it or two that were
  merged in it (`NumberingPhis.PhisEqualAfter`); phis of a loop header can become equal like this
  (`NumberingPhis.LoopPhisAgree`), and stay. Phis with different operands that are not computed in
  the block do not (`NumberingPhis.PhisStayDifferent`).
- Truncation and bitcast of a constant keep its 64-bit payload (`src/jir_pass.c:1606-1638`), and
  division, remainder and shifts to the right compute with all of it (`1440-1490`, `1584-1604`).
  By a divisor whose payload is its number, a quotient is right if and only if the dividend's
  payload exceeds its number by a multiple of 2^w times the divisor, and the number is divided
  without remainder or has the payload's sign; a remainder needs a multiple of the divisor, a
  shift by s places one of 2^(w+s) (`ConstFoldDiv.FoldDivRight`, `FoldRemRight`,
  `FoldShrRight`). For example, 300 truncated to 8 bits is 44, but divided by 7 it yields 42
  (`ConstFoldDiv.TruncatedFolds`).
- Quoting does not escape newlines (`src/jcc.c:9637-9641`), so a quoted string reads back if and
  only if it has none: `StringLiterals.QuoteThenRead`.

## Model

| member | source | states |
|---|---|---|
| SimpleSSA.Promote | src/jir_pass.c:484-602 | For a round from cleared flags, and for a later round if every predecessor is earlier in the list: running the promoted function gives the same outcome as running the original, for every machine, arguments, world and number of edges; no access to a promoted alloca is left and every phi has one pair per predecessor edge |
| SimpleSSA.IsAllocaPromotable | src/jir_pass.c:604-640 | Succeeds exactly if every instruction that names the alloca loads something or stores something else than it, and no terminator and no phi names it |
| SimpleSSA.FindPromotable | src/jir_pass.c:509-523 | Collects exactly the allocas of the entry block of which that holds |
| SimpleSSA.PromotableIs | src/jir_pass.c:604-640 | What promotable means, said of the uses |
| SimpleSSA.Promoter.ReadVariable | src/jir_pass.c:663-671 | The value returned is live and equals the content of the slot on every path to the place of the read |
| SimpleSSA.Promoter.ReadVariableR | src/jir_pass.c:673-707 | The same for a slot without entry: through a waiting phi, the single predecessor or a new phi; the recursion ends |
| SimpleSSA.Promoter.AddPhiOperands | src/jir_pass.c:717-731 | Afterwards the phi has one pair per predecessor edge and two different operands besides itself, or it has been replaced by a live value |
| SimpleSSA.Promoter.TryRemoveTrivialPhi | src/jir_pass.c:733-828 | The phi goes if and only if it has no two different operands besides itself, otherwise nothing changes; returns the end of the replacement chain; each removal leaves fewer phis |
| SimpleSSA.Promoter.ReplaceVariable | src/jir_pass.c:709-715 | All uses of the replaced value now name the end of the chain, and the map says so |
| SimpleSSA.Promoter.GetReplacementValue | src/jir_pass.c:930-939 | The chase through the replacement map ends, at the value that all later replacements lead to |
| SimpleSSA.Promoter.TrySealBlock | src/jir_pass.c:891-923 | A block is sealed exactly if it was or all its predecessors are filled |
| SimpleSSA.Promoter.FillBlock | src/jir_pass.c:873-884 | The block is filled, and whatever can be sealed by that is |
| SimpleSSA.Promoter.WalkBlocks | src/jir_pass.c:531-574 | After one walk, for every list order, all blocks are filled and sealed, no incomplete phi is left and every phi is complete |
| SimpleSSA.Promoter.TryRemoveDeadAlloca | src/jir_pass.c:830-866 | If all users are stores, nothing that is left is the alloca or names it, and every other instruction stays, in order; otherwise nothing changes |
| DeadAllocas.RemovedAll | src/jir_pass.c:851-864 | Removing the users from the use list and the alloca leaves exactly the instructions that do not touch it |
| DeadAllocas.OthersAreStripped | src/jir_pass.c:836-864 | What is left is determined by that: the blocks without the alloca and the stores to it |
| SsaStale.BodyIsMissed | src/jir_pass.c:673-707 | With all blocks sealed, a read in a loop header finds no definition in the body that stores to the slot, and its phi is trivial |
| SsaStale.RunChanges | src/jir_pass.c:490-507 | The loop returns 1 before such a round and never ends after it, on every machine |
| SimpleSSA.RemoveDeadAllocas | src/jir_pass.c:576-581 | All promoted allocas and their stores are gone |
| SsaReplace.ReplaceSound | src/jir_pass.c:709-715 | A value equal to x where x is computed may stand for x wherever x is available: it has not been recomputed since |
| SsaFacts.TrivialPhiReplace | src/jir_pass.c:733-765 | A phi whose operands are itself and one other value equals that value, also around loops |
| SsaFacts.LoadReplace | src/jir_pass.c:552-564 | A value known to equal the slot may replace the load |
| SsaFacts.SoundFromPred | src/jir_pass.c:687-689 | What holds at the end of the single predecessor holds at the top of the block |
| SsaCorrect.PromotionPreservesRuns | src/jir_pass.c:531-581 | Every result that satisfies the pass's final invariant runs like the original |
| SsaCorrect.PromotedAreDead | src/jir_pass.c:830-866 | After the walk the promoted allocas have store users only, so the removal takes all of them |
| SsaCorrect.NoSlotAccess | src/jir_pass.c:576-581 | No instruction of the result names a promoted alloca |
| DomTree.DomTree.DepthFirstWalk | src/jir.c:843-867 | Numbers everything reachable once, in postorder from the largest number down |
| DomTree.DomTree.NumberBlocks | src/jir.c:891-904 | Numbers what the entry reaches; the order has a block other than the entry from the second place on if and only if every block is reachable |
| DomTree.SweepNeeds | src/jir.c:903-930 | The same of a finished walk; the entry's number is one more than the count of unreachable blocks |
| DomTree.NumberedAre | src/jir.c:843-867 | Exactly the reachable blocks get a number |
| DomTree.DomTree.CollectOrder | src/jir.c:906-921 | The blocks in the order of their numbers |
| DomTree.DomTree.Intersect | src/jir.c:869-883 | Ends, at the last common member of both chains, below which all common members are |
| DomTree.DomTree.NewImmDom | src/jir.c:934-952 | The meet of the chains of all processed predecessors |
| DomTree.DomTree.BuildPass | src/jir.c:927-959 | Keeps the pass invariant; no change means a fixpoint, and after as many passes as blocks nothing changes |
| DomTree.DomTree.Update | src/jir.c:885-993 | Ends, with the immediate dominator of every block but the entry |
| Dominance.FixpointIsImmDom | src/jir.c:924-959 | At a fixpoint every link is the immediate dominator by the definition over all paths |
| Dominance.FixpointChain | src/jir.c:869-883 | A block's chain of links is exactly the set of its dominators |
| Dominance.BoundIsExact | src/jir.c:924-959 | After as many passes as blocks chains hold dominators only, so the outer loop ends |
| Dominance.NoChange | src/jir.c:954-957 | Then the meet computed for a block is the link it has |
| Dominance.ImmDomUnique | src/jir.c:924-959 | A reachable block has one immediate dominator |
| Dominance.ImmDomMeans | src/jir.c:924-959 | The immediate dominator said of paths: on every path to the block, with everything else that is |
| CallGraphs.CallGraph.BuildEdges | src/jir_pass.c:4303-4338 | Every node lists each function it calls once |
| CallGraphs.CallGraph.StrongConnect | src/jir_pass.c:4371-4409 | Keeps the stack invariant; the node ends with the right low link or with its component listed |
| CallGraphs.CallGraph.PopComponent | src/jir_pass.c:4397-4408 | Takes exactly the part of the stack from the node up |
| CallGraphs.CallGraph.FindComponents | src/jir_pass.c:4340-4355 | The list partitions the nodes into strongly connected components, callees first |
| CallGraphs.CallGraph.Build | src/jir_pass.c:4301-4357 | The same for the graph of direct calls |
| Components.TopIsScc | src/jir_pass.c:4396-4408 | If no edge leads further down the stack, the top part is one whole component |
| Components.Pop | src/jir_pass.c:4397-4408 | Listing the top component keeps the invariant of the algorithm |
| Components.Leave | src/jir_pass.c:4371-4409 | A node that reaches a lower one may wait on the stack |
| Components.LowChild | src/jir_pass.c:4383-4388 | The minimum of low links over a walked child is the low link so far |
| Components.WalkOver | src/jir_pass.c:4411-4423 | With an empty stack the emitted list is complete and in callees-first order |
| Components.SccListMeans | src/jir_pass.c:4340-4355 | Two nodes are in one component of the list if and only if each can be reached from the other; edges lead into the same component or an earlier one |
| InlineFuncs.Inliner.MapArguments | src/jir_pass.c:4077-4088 | Formal arguments are mapped to the operands of the call |
| InlineFuncs.Inliner.NameClones | src/jir_pass.c:4090-4112 | Every result of the callee gets a fresh name |
| InlineFuncs.Inliner.CloneBlocks | src/jir_pass.c:4114-4153 | The cloned blocks are the callee's under the value map |
| InlineFuncs.Inliner.ClonePhis | src/jir.c:1540-1598 | Phis of caller and callee after the split, with moved predecessors |
| InlineFuncs.Inliner.BranchOutOfClones | src/jir_pass.c:4185-4214 | Every return becomes a branch to the continuation, and its value a pair of the result phi |
| InlineFuncs.Inliner.SpliceClones | src/jir_pass.c:4114-4214 | The blocks of caller, clones and continuation with their branches, and a pair for every return |
| InlineFuncs.Inliner.ReplaceCall | src/jir_pass.c:4185-4234 | From these and the result phi, the function is the inlined one by the definition of inlining |
| InlineFuncs.Inliner.ReplaceAllUses | src/jir_pass.c:4216-4231 | The result has no use left, the phi has its uses besides its own, no other use changes; wherever both have the same value, every instruction, terminator and phi does what it did |
| ReplaceUses.ReplacedMeans | src/jir.c:2793-2837 | Where two values are equal, replacing all uses of one by the other changes no instruction's, terminator's or phi's effect |
| ReplaceUses.UsesMoved | src/jir.c:2793-2837 | It moves all uses, and only those |
| InlineFuncs.Inliner.InlineCall | src/jir_pass.c:4066-4238 | The caller is the inlined function by the definition of inlining; the module stays valid |
| InlineFuncs.Inliner.ProcessNode | src/jir_pass.c:4031-4055 | Refines the module; calls of the node to other functions flagged inline are gone, its other calls stay; with clean callees the node ends clean |
| InlineFuncs.Inliner.Run | src/jir_pass.c:4004-4064 | The pass refines the module. In a function that is a component by itself every call to another function flagged inline is gone and every other call stays; functions of larger components are as they were; a function from which no cycle is reachable ends without calls to functions flagged inline |
| InlineFuncs.InlinedSettles | src/jir_pass.c:4041-4051 | Inlining a call removes it for good, as clones have new names, and keeps the calls still to be looked at |
| InlineSim.StepSame | src/jir_pass.c:4066-4238 | One step of the original and one of the inlined module keep the configurations related |
| InlineSim.InliningRefines | src/jir_pass.c:4066-4238 | Every execution that does not go wrong looks the same after every number of steps, for every function, machine, arguments and world |
| InlineValid.InliningKeepsOk | src/jir_pass.c:4066-4238 | Results stay defined once and before use, phis stay complete, targets valid |
| HoistAllocas.HoistEnds | src/jir_pass.c:4154-4164 | The loop ends if and only if not both the caller's entry and the clone of the callee's begin with an alloca |
| HoistAllocas.MoveAllocas | src/jir_pass.c:4154-4164 | When it ends, the first alloca has moved to the caller's entry, if there is one, and nothing else |
| InlineFuncs.InlinedCalls | src/jir_pass.c:4027-4057 | A call in the result was another call of the caller or a call of the callee |
| InlineFuncs.KeptCalls | src/jir_pass.c:4027-4057 | The other calls of the caller stay |
| InlineFuncs.NoCycleNext | src/jir_pass.c:4027-4057 | Without reachable cycles a callee is another function without reachable cycles |
| Calls.RefinesTrans | src/jir_pass.c:4027-4057 | Refinements compose over the calls of the pass |
| CfgOps.FuncGraph.RemovePred | src/jir.c:4114-4151 | One entry leaves the predecessor array and the first pair for it each phi of the block, and nothing else changes |
| CfgOps.FuncGraph.RemoveSucc | src/jir.c:4153-4170 | The first entry leaves the successor array |
| CfgOps.FuncGraph.RemoveTerminator | src/jir.c:1453-1504 | The terminator goes with all its edges and pairs |
| CfgOps.FuncGraph.AppendTerminator | src/jir.c:1320-1341 | The terminator comes with all its edges |
| CfgOps.FuncGraph.ConvertCondBranch | src/jir.c:1512-1532 | The branch not taken goes with one edge; the invariant is kept |
| CfgOps.FuncGraph.FreeBlock | src/jir_pass.c:203-208 | A block that nothing else leads to leaves the list; the invariant is kept and the list is one shorter |
| CfgOps.FuncGraph.MergeIntoPredecessor | src/jir_pass.c:210-254 | The predecessor has both bodies and the block's terminator; the invariant is kept and the list is one shorter |
| CfgOps.FuncGraph.SplitAt | src/jir.c:1540-1598 | The code behind the split and the terminator move to a new block, which follows in the list; all other code stays; the invariant is kept |
| CfgOps.FuncGraph.UsesInPhis | src/jir.c:1549-1566 | One value per use of the block by a phi, the one paired with it |
| CfgEdges.UnterminatedOk | src/jir.c:1482-1503 | Removing a terminator keeps predecessor counts, successors and phi pairs in agreement |
| CfgEdges.TerminatedOk | src/jir.c:1320-1341 | Appending one keeps predecessor counts and successors in agreement |
| CfgEdges.ConvertedOk | src/jir.c:1512-1532 | Conversion keeps the whole invariant, also if both targets are the same block |
| CfgEdges.BlockFreedOk | src/jir.c:4063-4078 | Destroying an isolated block keeps the whole invariant |
| CfgMerge.MergedOk | src/jir_pass.c:210-254 | Merging keeps the whole invariant |
| CfgMerge.MergedShape | src/jir_pass.c:217-251 | Phis keep their pairs up to the renamed predecessor: the branch's removal after the renaming takes none |
| CfgSplit.SplitOk | src/jir.c:1540-1598 | Splitting keeps the whole invariant: phis of the targets list the new block as often as the old one before |
| SplitRuns.SplitIncoming | src/jir.c:1549-1592 | Each phi of a target gets from the new block the value it had from the old one, and from every other predecessor what it had |
| SplitRuns.SplitSame | src/jir.c:1540-1598 | The split graph returns what the graph returns and does all that it does; whatever it does the graph does, if and only if it is not stopped on its way into the new block |
| SimplifyCfg.Simplify | src/jir_pass.c:191-344 | Ends; returned values are the same and the result does nothing the original does not; if definitions dominated uses, no reachable block needs a value that lost its definition; every listed block but the entry has a predecessor besides itself, and if only one, that has another successor or there is a phi at the top; one block less per change |
| SimplifyCfg.CanMergeWithSinglePredecessor | src/jir_pass.c:349-370 | Succeeds exactly if there is one predecessor with one successor and no phi at the top |
| SimplifyCfg.FreeSame | src/jir_pass.c:203-208 | Freeing an isolated block changes no run |
| SimplifyCfg.MergeSame | src/jir_pass.c:210-254 | Merging changes no run |
| SimplifyCfg.MergeForward | src/jir_pass.c:210-254 | What a run returns, the run of the merged graph returns, with no more edges |
| SimplifyCfg.MergeBackward | src/jir_pass.c:210-254 | Every outcome of the merged graph is one of the original |
| SimplifyCfg.ConvertSame | src/jir_pass.c:1041-1061 | Converting a branch whose condition is a constant changes no run |
| SimplifyUses.FreedUses | src/jir_pass.c:203-208 | Freeing an isolated block keeps, for every value a reachable block needs, a reachable definition |
| SimplifyUses.MergedUses | src/jir_pass.c:210-254 | Merging keeps the same |
| CfgUses.DominatedDefined | src/jir_pass.c:191-344 | If definitions dominate uses, whatever a reachable block needs is defined in a reachable block |
| DcePass.Eliminator.RemoveDeadPhis | src/jir_pass.c:3564-3577 | Phis without use go; runs are kept and no removed value is used |
| DcePass.Eliminator.RemoveDeadBody | src/jir_pass.c:3564-3577 | The same for instructions; nothing that was dead stays |
| DcePass.Eliminator.Visit | src/jir_pass.c:3555-3604 | Cleans what is reachable through unvisited blocks, and only that; everything visited has its targets visited |
| DcePass.Eliminator.EmptyUnvisited | src/jir_pass.c:3517-3535 | Unvisited blocks lose code and edges, visited ones only predecessors and pairs that came from those |
| DcePass.Eliminator.FreeUnvisited | src/jir_pass.c:3537-3548 | Exactly the visited blocks stay listed |
| DcePass.Eliminator.Eliminate | src/jir_pass.c:3489-3553 | Runs are equal if removed allocas are private; exactly the blocks reachable from the entry stay; every phi and instruction left in them is a store, a call or was used in the original, and all their stores and calls are left; if definitions dominated uses, no value that lost its definition is used anywhere in the final graph |
| DcePass.NeededMeans | src/jir.h:712-721 | Used means that an instruction, a terminator or a phi has the value as an operand |
| Dce.DropInstr | src/jir.h:712-721 | Removing an instruction that is dead by the code's test changes no run |
| Dce.DropPhi | src/jir.h:712-721 | The same for a phi |
| DcePass.VisitedReachable | src/jir_pass.c:3555-3604 | From nothing, the walk visits exactly the reachable blocks |
| DcePass.EmptiedRuns | src/jir_pass.c:3517-3535 | Emptying what is not reachable changes no run |
| DcePass.FinalUses | src/jir_pass.c:3517-3548 | After unvisited blocks are emptied and freed, every value still used is still defined, if definitions dominated uses |
| UseLists.AddUse | src/jir.c:2740-2754 | The use is last in the value's list, which stays well linked |
| UseLists.KillUse | src/jir.c:2756-2791 | Exactly that use leaves the list |
| UseLists.AddOperand | src/jir.c:2928-2933 | The new operand's use is last in its value's list; all other lists and operands are the same |
| UseLists.RemoveOperand | src/jir.c:2935-2940 | The operand leaves the array and its use its list; all else is the same |
| UseLists.SetValue | src/jir.c:2879-2891 | The use moves from its old value's list to the end of the new one's |
| UseLists.ReplaceOperand | src/jir.c:2942-2956 | The same for an operand by index, with null for an index out of range |
| UseLists.ReplaceAllUsesWith | src/jir.c:2793-2837 | The old list is empty, the new one has its uses appended in order, and every operand that named the old value names the new one |
| UseLists.UsesExactly | src/jir.c:2740-2956 | A value's list holds exactly the operands that name it, each once, and no list shares a use with another |
| NumberingPass.Numberer.Run | src/jir_pass.c:3666-3725 | On every well-behaved machine, for all arguments, worlds and numbers of edges, the function left has the outcome of the original; when the blocks up to b were done, two instructions of b with the same key were loads with a store or call between them, and phis of b with operands from outside differed |
| NumberingPass.Numberer.NumberBlock | src/jir_pass.c:3676-3719 | Starts with an empty map; drops results of this block only; nothing in the block is computed twice when it is done |
| NumberingPass.Numberer.NumberInstr | src/jir_pass.c:3680-3716 | Drops the instruction exactly if its key is in the map, for the mapped value and in all uses; the walk's invariant is kept |
| NumberingPass.Numberer.NumberPhi | src/jir_pass.c:3702-3713 | The same for a phi, in whatever order the phis of the block come |
| NumberingPass.Numberer.ForgetLoads | src/jir_pass.c:3691-3699 | Exactly the loads leave the map |
| NumberingLaws.OperationsDiffer | src/jir_pass.c:3727-3779 | In a finished block two numbered operations with the same opcode differ in their operands, for commutative opcodes also in reverse order |
| NumberingLaws.LoadsDiffer | src/jir_pass.c:3683-3700 | In a finished block two loads from one address have a store or a call between them |
| NumberingLaws.PhisDoDiffer | src/jir_pass.c:3770-3779 | Phis of a finished block with operands from outside differ |
| NumberingRuns.NumberingPreservesRuns | src/jir_pass.c:3666-3725 | A function whose dropped values may all be replaced runs like the original once they are gone |
| NumberingRuns.StepMatches | src/jir_pass.c:3702-3713 | An instruction is dropped without being missed, or does the same with its renamed operands |
| NumberingRuns.PhiMatches | src/jir_pass.c:3706-3709 | A phi that stays gets over every edge, all phis together, the value it got before |
| NumberingSteps.TrackedNext | src/jir_pass.c:3704-3713 | An instruction whose key is not in the map repeats no earlier one |
| NumberingPhis.PhisEqualAfter | src/jir_pass.c:3677-3716 | Two phis that stay are equal after a block if and only if operands at each place were equal before or merged in it |
| NumberingPhis.PhisStayDifferent | src/jir_pass.c:3677-3716 | Phis that differ in operands from outside the block stay different |
| NumberingPhis.LoopPhisAgree | src/jir_pass.c:3677-3716 | Two different phis of a loop header become equal when one of two equal operations of the body is dropped |
| NumberingSteps.FrontKept | src/jir_pass.c:3706-3709 | Dropping a result renames nothing above its definition in the block |
| ValueNumbering.InstrReplace | src/jir_pass.c:3704-3709 | An instruction whose key is in the map equals the mapped value on every path, and may be replaced by it in the whole function |
| ValueNumbering.PhiReplace | src/jir_pass.c:3770-3779 | A phi with the operands of an earlier phi of the block may be replaced by it |
| ValueNumbering.PhiValue | src/jir_pass.c:3770-3779 | On entry through every edge a phi has the value of its renamed operand at the end of that edge's block |
| ValueNumbering.InstrEntry | src/jir_pass.c:3710-3712 | An instruction that stays is what its key computes, right behind it |
| ValueNumbering.PhiEntry | src/jir_pass.c:3710-3712 | A phi that stays is what its operands bring in |
| ValueNumbering.EntryNext | src/jir_pass.c:3683-3700 | An entry survives an instruction unless it is a load and the instruction a store or call |
| ConstFold.FoldCorrect | src/jir_pass.c:1241-1787 | For constants with any payload, the fold's value modulo the type's width is the operation on the operands' values |
| ConstFold.FoldArithmetic | src/jir_pass.c:1365-1438 | The same for add, sub and mul, signed and unsigned |
| ConstFold.FoldBitwise | src/jir_pass.c:1492-1560 | The same for and, or and xor |
| ConstFold.FoldCompare | src/jir_pass.c:1241-1363 | Comparisons give the comparison of the values, for every valid payload |
| ConstFold.FoldConversion | src/jir_pass.c:1606-1638 | Truncation and integer bitcast, which leave the payload as it is |
| ConstFold.FoldExtend | src/jir_pass.c:1640-1708 | Zero and sign extension |
| ConstFold.BitwiseLow | src/jir_pass.c:1492-1560 | Bitwise operations commute with reduction modulo a power of two |
| ConstFoldLaws.CompareMeans | src/jir_pass.c:1241-1363 | Each folded comparison compares the numbers that the operands' low bits are in their type |
| ConstFoldLaws.CompareLaws | src/jir_pass.c:1241-1363 | They are an order: nothing is less than itself, GE, GT and NE are the opposites of LT, LE and EQ, LE is LT or EQ |
| ConstFoldLaws.LessThanNext | src/jir_pass.c:1241-1388 | A value is less than the folded sum with one if and only if that does not overflow |
| ConstFoldLaws.ArithmeticMeans | src/jir_pass.c:1365-1438 | Folded sums, differences and products are those of the low bits, modulo 2^w |
| ConstFoldLaws.BitwiseMeans | src/jir_pass.c:1492-1560 | Each bit of a folded and, or and xor depends on that bit of the operands, as it should |
| ConstFoldLaws.BitwiseLaws | src/jir_pass.c:1492-1560 | An and is at most each operand, and with the or sums up to both operands; the xor is their difference |
| ConstFoldLaws.TruncMeans | src/jir_pass.c:1606-1638 | Truncation keeps the low bits |
| ConstFoldLaws.ZextMeans | src/jir_pass.c:1640-1673 | Zero extension keeps the bits |
| ConstFoldLaws.SextMeans | src/jir_pass.c:1675-1708 | Sign extension keeps the number |
| ConstFoldDiv.FoldDivRight | src/jir_pass.c:1440-1463 | By a normalised divisor, a quotient is right if and only if the dividend's payload exceeds its number by a multiple of 2^w times the divisor, and the number has no remainder or the payload's sign |
| ConstFoldDiv.FoldRemRight | src/jir_pass.c:1465-1490 | The remainder: by a multiple of the divisor, with the same condition on the sign |
| ConstFoldDiv.FoldDivWide | src/jir_pass.c:1440-1463 | By a divisor that is not normalised, a normalised dividend's quotient is right if and only if it is zero |
| ConstFoldDiv.FoldRemWide | src/jir_pass.c:1465-1490 | The remainder: also of the least number if the divisor's payload is its negation |
| ConstFoldDiv.RemainderRange | src/jir_pass.c:1440-1490 | Divisor times quotient and the remainder make the dividend; the remainder is smaller than the divisor and has the dividend's sign |
| ConstFoldDiv.FoldShrRight | src/jir_pass.c:1584-1604 | A shift to the right by s is right if and only if the payload exceeds the number by a multiple of 2^(w+s) |
| ConstFoldDiv.FoldShlRight | src/jir_pass.c:1562-1582 | A shift to the left is right for every payload |
| ConstFoldDiv.NormalFolds | src/jir_pass.c:1440-1604 | Normalised operands are always folded right |
| ConstFoldDiv.ArithmeticNormal | src/jir_pass.c:1365-1560 | Sums, differences, products and bitwise results are normalised |
| ConstFoldDiv.TruncNormal | src/jir_pass.c:1606-1638 | A truncated constant is normalised if and only if its number is one of the smaller type |
| ConstFoldDiv.TruncatedFolds | src/jir_pass.c:1440-1638 | 300 truncated to 8 bits: wrong quotient, remainder and shift |
| ConstFoldPass.FoldAll | src/jir_pass.c:1025-1239 | Ends; every folded instruction is a constant of its type with its value in every environment, operands name constants for it, and no instruction with constant operands is left |
| ConstFoldPass.FoldNode | src/jir_pass.c:1062-1225 | Folding an instruction with known operands gives its value |
| ConstFoldPass.ConstantsFold | src/jir_pass.c:1032-1234 | Whatever depends on constants only ends up folded |
| Macros.Preprocess | src/jcc.c:8854-8869 | The loop over the token list ends for every list and table of object-like macros, with the recursive expansion |
| Macros.ExpandMacro | src/jcc.c:9035-9071 | Expands exactly defined names that are not hidden, to the body in front of the rest |
| Macros.AddHideSet | src/jcc.c:9381-9404 | Every token of the body gets the hide set in addition to its own |
| Macros.ExpansionHides | src/jcc.c:9055-9071 | Every token from an expansion carries the macro's name and all names hidden before, and is not expandable |
| Macros.RemainingNames | src/jcc.c:9035-9071 | A macro name left in the output hides itself |
| Macros.ExpandTwice | src/jcc.c:8854-8869 | Expanding the output again changes nothing |
| Macros.ExpandConcat | src/jcc.c:8854-8869 | Expansion of object-like macros works token by token |
| Macros.ReplacementRank | src/jcc.c:9055-9071 | A replacement has smaller rank than the token it replaces: why the loop ends |
| Macros.DepthBound | src/jcc.c:9055-9071 | Expansion is nested at most as deep as there are names not yet hidden |
| Macros.TotalWork | src/jcc.c:8854-8869 | The number of steps is at most tokens times (longest body + 1) to the number of macros |
| MacroCalls.ReadMacroArg | src/jcc.c:9293-9346 | The tokens up to the first comma or closing parenthesis outside of inner parentheses, or an error if there is none |
| MacroCalls.ReadMacroArgs | src/jcc.c:9224-9291 | Succeeds exactly if the list begins with an invocation with that many arguments, and returns those |
| MacroCalls.ArgumentsUnique | src/jcc.c:9224-9291 | There is at most one way to read the arguments |
| MacroCalls.ArgumentBalanced | src/jcc.c:9293-9346 | Parentheses in an argument match |
| MacroCalls.LevelIs | src/jcc.c:9293-9346 | The level counts opening and closing parentheses |
| MacroCalls.HideSetIntersection | src/jcc.c:10118-10133 | The names of the first set that are in the second, in order |
| MacroCalls.IntersectionIs | src/jcc.c:10118-10133 | Membership in the intersection is membership in both |
| MacroCalls.ExpandInvocation | src/jcc.c:9081-9102 | Tokens of the substituted body hide the macro's name and what both the name and the closing parenthesis hide; the macro is not expanded again in them |
| MacroEnds.Preprocess | src/jcc.c:8854-8869 | The loop with function-like macros ends for every list and table of macros, with the run's output, or with an error where arguments are missing |
| MacroEnds.RunEnds | src/jcc.c:9073-9102 | Every run ends, whatever the tokens hide at first, although an invocation's result hides only what both its name and its closing parenthesis hide |
| MacroEnds.NextEnds | src/jcc.c:9081-9102 | Why: the list behind the replaced tokens is as it was, and the new tokens hide a larger base than the closing parenthesis |
| MacroEnds.WholeHides | src/jcc.c:9035-9102 | In the whole run no macro is expanded again in what came out of it, itself or as part of an argument |
| MacroEnds.WholeLeaves | src/jcc.c:9035-9102 | A macro's name left in the output is hidden or that of a function-like macro |
| MacroEnds.WholeExpands | src/jcc.c:8854-8869 | With object-like macros alone the result is the recursive expansion |
| MacroLaws.WholeBehind | src/jcc.c:8854-8869 | The output for a list is that for its front, if there is one, and then that for the rest, unless the rest begins with an opening parenthesis |
| MacroLaws.CallThenText | src/jcc.c:9097-9102 | Text without macros behind an invocation follows its output |
| MacroLaws.CallIs | src/jcc.c:9078-9102 | An invocation puts out what its body with the expanded arguments puts out when scanned again, with the hide set of the name and the closing parenthesis; it fails exactly if an argument does |
| MacroLaws.CallTexts | src/jcc.c:9078-9102 | If no macro is left in that, its texts |
| MacroLaws.FilledJoin | src/jcc.c:9428-9566 | A body is filled part by part |
| MacroLaws.FilledParam | src/jcc.c:9537-9551 | A parameter stands for the whole output of its argument |
| MacroLaws.FilledOther | src/jcc.c:9552-9557 | Any other token stands for itself |
| MacroLaws.IdentityMacro | src/jcc.c:9073-9102 | A macro whose body is its parameter puts out the texts of the expanded argument |
| MacroLaws.ConstantMacro | src/jcc.c:9073-9102 | A macro without parameters and macros in its body puts out the body |
| MacroLaws.ObjectIs | src/jcc.c:9055-9071 | The name of an object-like macro puts out what its body does, with the name and what it hid in the hide sets |
| MacroLaws.TokenStays | src/jcc.c:9035-9076 | A token that is no macro or hides it is put out, and so is a function-like macro's name without a parenthesis behind it |
| MacroLaws.BadCall | src/jcc.c:9224-9291 | An invocation without the right arguments is an error |
| MacroRuns.ExpandList | src/jcc.c:8854-8869 | The loop computes the run that is defined by steps |
| MacroRuns.Substitute | src/jcc.c:9535-9560 | Parameters in a body are replaced by their arguments, each expanded completely before |
| MacroRuns.RunHides | src/jcc.c:9035-9102 | Over the whole run, a token hides every macro it came out of, itself or within an argument, so no macro is expanded again in what it yielded |
| MacroRuns.RunExpands | src/jcc.c:8854-8869 | With object-like macros alone, the run ends within as many steps as the recursive expansion takes, with its result |
| StringLiterals.QuoteString | src/jcc.c:9623-9647 | Fills the measured buffer exactly, with the quoted string and its NUL |
| StringLiterals.FindStringLiteralEnd | src/jcc.c:7785-7799 | The outcome of the search: an end, none, or past the text |
| StringLiterals.EndIs | src/jcc.c:7785-7799 | The end is the first quote that no backslash hides; the search leaves the text exactly if it ends with a backslash that is not hidden, before any quote or newline |
| StringLiterals.ReadEscapedChar | src/jcc.c:7725-7782 | At most three octal digits, all hexadecimal digits in 32 bits, the control letters, or the character itself as a signed char |
| StringLiterals.EscapeFails | src/jcc.c:7725-7782 | The error value is read if and only if byte 255 follows, or an x without hexadecimal digit, or an x and digits of which the last eight are F |
| StringLiterals.ReadStringLiteral | src/jcc.c:7801-7847 | Decodes up to the closing quote within a buffer of the text's length; says when the search left the text |
| StringLiterals.DecodedFits | src/jcc.c:7809-7830 | A literal stands for no more bytes than its text has |
| StringLiterals.EscapeInside | src/jcc.c:7818-7825 | Reading an escape sequence never passes the closing quote |
| StringLiterals.EndFound | src/jcc.c:7785-7799 | The closing quote of a quoted string is found exactly if the string has no newline |
| StringLiterals.QuoteThenRead | src/jcc.c:9623-9647 | Reading a quoted string gives it back wherever it stands, if and only if it has no newline |
| StringLaws.EscapedAppend | src/jcc.c:9636-9641 | Exactly backslash and double quote get a backslash |
| StringLaws.ControlLetters | src/jcc.c:7763-7771 | The control letters stand for their ASCII characters |
| StringLaws.OtherBytes | src/jcc.c:7772-7775 | Other bytes stand for themselves, as signed chars |
| StringLaws.DigitIs | src/jcc.c:7749-7751 | The value of each hexadecimal digit |
| StringLaws.HexAppend | src/jcc.c:7749-7751 | One digit more: sixteen times the value so far and the digit, in 32 bits |
| StringLaws.OctalEscape | src/jcc.c:7729-7739 | Up to three octal digits |
| StringLaws.DecodedFirst | src/jcc.c:7818-7830 | The bytes of a literal from left to right |
| StringLaws.EndFirst | src/jcc.c:7787-7796 | Where the search for the end stops and what it steps over |
| StructLayout.LayOut | src/jcc.c:5650-5715 | Members are disjoint, aligned unless packed, within their units, each unit as wide as its first field asks for, and each index selects the IR member at the same byte offset |
| StructLayout.LayIsGood | src/jcc.c:5650-5715 | The same of the layout of every list of declared members |
| StructLayout.LayoutIs | src/jcc.c:5650-5715 | The first member begins at zero; every other one shares the unit of a bit-field before it if there is room, and begins otherwise as early as its alignment allows, a bit-field in the smallest unit that holds it |
| StructLayout.BuildIrMembers | src/jir_gen.c:1916-1930 | The member list the IR's offsets are computed from |
| StructLayout.MembersDisjoint | src/jcc.c:5650-5715 | No bit belongs to two members |
| StructLayout.WideSlots | src/jcc.c:5671-5678 | In a 64-bit unit the first field has more than 32 bits and every other begins behind bit 32 |
| Bitfields.StoreIsRight | src/jir_gen.c:876-896 | A store always leaves the value in the field if and only if the field has less than 32 bits |
| Bitfields.StoreKeepsOthers | src/jir_gen.c:876-896 | A store always keeps all other bits if and only if the unit has at most 32 bits, or the field has 32 or more and ends the unit |
| Bitfields.LoadIsRight | src/jir_gen.c:994-1009 | A load always yields the field's bits with zeros above if and only if the field has less than 32 bits or is the whole unit |
| Bitfields.StoreThenLoad | src/jir_gen.c:876-896 | The bits stored are loaded; the value is loaded back if and only if it has no bits above the field |
| Bitfields.ReadBackIsRight | src/jir_gen.c:876-1009 | A load after a store always gives the value's bits back if and only if the field has less than 32 |
| Bitfields.OtherFieldKept | src/jir_gen.c:876-896 | In units of up to 32 bits every disjoint field, of any width, reads the same after a store |
| Bitfields.OtherFieldReads | src/jir_gen.c:876-1009 | In a unit of any width, a disjoint field always reads the same after a store if and only if the bits read are out of reach of the 32-bit mask |
| Bitfields.AssignedIsRight | src/jir_gen.c:876-898 | The value of an assignment is always the value of the field if and only if the field is the whole unit |
| Bitfields.AssignedOnce | src/jir_gen.c:876-898 | For a narrower field, the values and units for which it is |
| Bitfields.MemberAccess | src/jir_gen.c:876-1009 | A bit-field of a good layout can be stored, loaded and leaves the rest alone if and only if it has less than 32 bits and its unit at most 32 |
| Bitfields.StructAccess | src/jir_gen.c:876-1009 | All bit-fields of a laid-out struct can, if and only if all declared widths are less than 32 |
| Bitfields.WideUnitLoses | src/jir_gen.c:879-888 | The layout puts fields of 40 and 20 bits into one 64-bit unit, and a store into the second clears the first's upper bits |

## Left out

- SimpleSSA.Promote: that the result of a round is well formed input for the next is not shown; the entry block has no predecessors, every block is reachable, definitions dominate uses, pairs of a phi for the same predecessor agree, types are not checked, an unwritten slot is zero.
- SimpleSSA.Promoter.TryRemoveTrivialPhi: users are taken in any order and removed users are skipped; memory of removed phis is not modelled.
- DomTree.DomTree.Update: graphs with unreachable blocks, in which the sweep reads an empty place or unlinks the entry (`DomTree.SweepNeeds`).
- InlineFuncs.Inliner.InlineCall: callees with leading allocas (what the hoisting loop does with them is in `HoistAllocas`), the place of the new blocks in the block list (they are appended), previous-block pointers, and calls through pointers.
- InlineFuncs.Inliner.Run: functions of larger components keep their calls, and a call cloned into a function that can reach a call cycle may be flagged for inlining, both as in the code; of those calls only the meaning is shown.
- InlineSim.InliningRefines: says nothing of executions that read a value before it is computed.
- SimplifyCfg.Simplify: use lists of the instructions in freed blocks; the disabled branch for blocks that only jump.
- DcePass.Eliminator.Eliminate: one walk, as the visited flags are not reset, so an operand that becomes unused later stays.
- UseLists.ReplaceAllUsesWith: users that are constants or branch targets, which the code does not implement or handles elsewhere.
- NumberingPass.Numberer.Run: hash collisions; uses without a dominating definition, or above it in an unreachable block; the order of phis within a block, which is arbitrary.
- ConstFold.FoldCorrect: floating point and pointer conversions; division, remainder and shifts are in `ConstFoldDiv`.
- ConstFoldPass.FoldAll: division, remainder and shifts are not in the sweep, nor is the conversion of branches (`SimplifyCfg.ConvertSame`).
- ConstFoldDiv.FoldDivRight: quotients of which neither operand is normalised, division by a payload of zero and of -2^63 by -1, which C leaves undefined.
- Macros.Preprocess: directives, built-in macros and file inclusion; function-like macros are in `MacroRuns`.
- MacroEnds.Preprocess: `#`, `##` and variadic parameters.
- MacroCalls.ReadMacroArgs: variadic macros.
- MacroCalls.ExpandInvocation: substitution of arguments is a parameter; `MacroRuns.Substitute` models it without `#` and `##`.
- StringLiterals.QuoteThenRead: the value that the `#` operator stores beside the text (it keeps the escapes), and UTF-16 and UTF-32 literals.
- StructLayout.LayOut: total size and alignment of the struct, widths of zero or above 64, wrap-around of 32-bit offsets, unions.
- Bitfields.StoreThenLoad: the conversion of the assigned value to the unit's type; fields of 32 bits and more are in `Bitfields.ReadBackIsRight`.
- The bit sets of 3rdparty/jlib, which serve the register allocator.
- Reordering of blocks, peephole rules and the other small passes: single rewrites with little state.
- The machine-level IR, register allocation and the x64 encoder.
- The expression and statement parser, types, file handling, logging and memory management.
