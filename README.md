# pydrofoil's SSA optimizer, modelled in Dafny

pydrofoil turns the Sail description of an instruction set into a fast
emulator. Its middle end reads each Sail function as a flat list of
statements and builds a control-flow graph in SSA form. That graph has blocks,
operations, phis and terminators. Cleanup passes and peephole rules are then
applied until nothing changes. Calls are specialized on the argument types
known at the call site. Before code is emitted, the graph is taken out of SSA
form again. This project models that middle end and proves properties of it.
It also models the code generator's bookkeeping and the pre-SSA
single-use-temporary folding.

The model, file by file:

- `wrappers.dfy`, `types.dfy`, `text.dfy`: `Option`/`Result`, the Sail types,
  and the decimal numerals that Python's `str` writes.
- `ir.dfy` (module `Ir`): values, operations, phis and terminators. Python
  object identity is modelled by an arena: blocks and operations are named by
  ids, and a graph maps the ids to their current contents.
- `graph.dfy` (module `IrGraph`): the `Graph` class and its methods. These
  are `iterblocks` (a depth-first walk, proved equal to a specification
  function `Dfs`), `make_entrymap`, `check`, `replace_ops`, `Block.split`
  and `replace_prev`.
- `topo.dfy`: `topo_order` (Kahn's algorithm) and `topo_order_best_attempt`.
- `parse.dfy`, `construct.dfy`, `ssa.dfy`, `pipeline.dfy`: the statement
  language, the cutting of a body into blocks, `compute_entryblocks`,
  `SSABuilder`, and `construct_ir`/`build_ssa` from end to end.
- `passes.dfy`, `branches.dfy`, `joins.dfy`, `asserts.dfy`: `remove_dead`,
  `swap_not`, `simplify_phis`, `remove_if_true_false` with
  `_remove_unreachable_phi_prevvalues`, `remove_empty_blocks`, `join_blocks`
  and `convert_sail_assert_to_exception`.
- `dataflow.dfy`, `cse.dfy`: `find_anticipated_casts` and `cse`.
- `localopt.dfy` (module `Peephole`), `optimizer.dfy`: the peephole rules of
  `LocalOptimizer`, and the `BaseOptimizer.optimize` walk that applies them.
- `driver.dfy`: `repeat` with its 1000-round limit, `_bare_optimize`,
  `light_simplify`, `localopt` and `remove_useless_switch`.
- `specialize.dfy`: `usefully_specializable`, `Specializer` and
  `SpecializingOptimizer._optimize_op`.
- `emit.dfy`: `remove_critical_edges`, `remove_phis`, and the block numbering
  of `CodeEmitter.__init__`.
- `preopt.dfy`: `find_decl_defs_uses`, `identify_replacements` and
  `do_replacements` from `optimize.py`, with the examples of its tests.
- `makecode.dfy`: the `Codegen` name tables, indentation, declaration cache
  and enum numbering. It also has `BitVectorConstant.gettyp` and
  `NamedType.resolve_type`.

Most passes are imperative in the source, and the model keeps that form. A
pass is a method on the `Graph` whose loops carry invariants. Its `ensures`
tie the new graph to a ghost specification of the walk (`OptimizeWalk`,
`EmptyWalk`, `FoldWalk`, `CseWalk`, `SplitAll`, …). Lemmas then state what
the pass promises about that specification. A failed `assert` or an
exception of the source is a `Failure` result.

Things the model takes as parameters:

- the code generator's builtin-name map;
- the runtime library's pure functions and their constant folding (`Support`
  in `driver.dfy`);
- the narrowing of a specialized variant's return type (`narrow` in
  `specialize.dfy`).

The order of iteration over a Python `set` or `dict` is a ghost choice.
Where a property depends on it, the property is proved for every order.

## Model

| member | source | states |
|---|---|---|
| Text.ParseNatToString | pydrofoil/makecode.py:117-119 | reading back the numeral that `str(n)` writes gives `n` again |
| Text.NatToStringInjective | pydrofoil/makecode.py:117-119 | two numbers with the same numeral are equal |
| Text.SplitAtLastUnderscore | pydrofoil/makecode.py:117-119 | a name `<prefix>_<numeral>` determines both its prefix and its number |
| Ir.NextBlocks | pydrofoil/ir.py:992-994 | `next_blocks` is `[target]` for a `Goto`, `[falsetarget, truetarget]` for a `ConditionalGoto` and empty otherwise |
| Ir.ReplaceNextBlocks | pydrofoil/ir.py:1053-1056 | `replace_next` renames exactly the successor list, leaves the arguments alone, changes nothing when the block is not a successor, and leaves no edge to the old block |
| Ir.Present | pydrofoil/ir.py:844-846 | a phi's arguments are exactly its inputs that are not placeholders |
| Ir.ReplaceInDefSpec | pydrofoil/ir.py:719-727 | `replace_ops` on an operation or phi replaces exactly the arguments that are keys, changes nothing when none is, and with a resolved map a second round changes nothing |
| Ir.ReplaceInNextSpec | pydrofoil/ir.py:1016-1021 | `replace_ops` on a terminator replaces its value or condition, keeps its successors, and is idempotent for a resolved map |
| Ir.ReplaceArgsResolved | pydrofoil/ir.py:651-659 | after one round with a resolved map no argument names a key, so the round is idempotent |
| IrGraph.DfsWalk | pydrofoil/ir.py:599-609 | the explicit-stack walk yields exactly the depth-first order `Dfs` |
| IrGraph.DfsDistinct | pydrofoil/ir.py:599-609 | the walk yields no block twice and none already seen |
| IrGraph.DfsWithin | pydrofoil/ir.py:599-609 | the walk never leaves a successor-closed set holding its work list |
| IrGraph.DfsClosed | pydrofoil/ir.py:599-609 | what was seen plus what the walk yields is closed under successors |
| IrGraph.DfsOrder | pydrofoil/ir.py:599-609 | `iterblocks` starts at the start block, yields each block once and yields exactly the reachable blocks |
| IrGraph.DfsShape | pydrofoil/ir.py:599-609 | the walk depends only on the edges, so graphs with the same edges are walked alike |
| IrGraph.LeadingPhis | pydrofoil/ir.py:466-474 | the leading phis of a block are a prefix of its operations, all phis, followed by a non-phi |
| IrGraph.Graph.IterBlocks | pydrofoil/ir.py:599-609 | the materialised walk starts at the start block, has no repeats and is the reachable set |
| IrGraph.Graph.MakeEntrymap | pydrofoil/ir.py:615-628 | the result is exactly `Entrymap`, the loop's walk from the start block with the start block's list emptied, so each list has the loop's order and multiplicity; it also holds the predecessor lists of the reachable blocks |
| IrGraph.EntrymapIsEntrymap | pydrofoil/ir.py:615-628 | in the entry map every reachable block has a list, the start block's is empty, and a block is in the list of `s` exactly when it is reachable and jumps to `s` |
| IrGraph.DiamondEntrymap | pydrofoil/ir.py:619-625 | on 0 branching to 2 and 1, 1 jumping to 2 and 2 to 3, block 2 is pushed twice before it is popped, so the list of block 3 is `[2, 2]` |
| IrGraph.EntryReach | pydrofoil/ir.py:615-628 | when the work list of `make_entrymap` is empty, the blocks seen are the reachable ones |
| IrGraph.Graph.Check | pydrofoil/ir.py:629-650 | `check` succeeds exactly when the phi, uniqueness and definedness assertions all hold |
| IrGraph.Graph.CheckPhis | pydrofoil/ir.py:629-642 | the first loop succeeds exactly when every visited block's phis agree with its predecessors, and collects the defined values |
| IrGraph.Graph.CheckArgs | pydrofoil/ir.py:643-650 | the second loop succeeds exactly when every visited block's arguments are defined and its operations unique |
| IrGraph.NoDuplicates | pydrofoil/ir.py:645 | succeeds exactly when the list has no repeats |
| IrGraph.Graph.ReplacePrev | pydrofoil/ir.py:466-474 | every input block `a` of the leading phis becomes `c`; it fails exactly when one of them already names `c` |
| IrGraph.PrevblocksFromPhis | pydrofoil/ir.py:475-485 | succeeds exactly when the leading phis with inputs share one list of input blocks, which is returned |
| IrGraph.Graph.Split | pydrofoil/ir.py:554-566 | a fresh block takes the tail and terminator, the successors' phis are retargeted to it, the block ends in a `Goto` to it; it cannot fail without a repeated successor |
| IrGraph.RetargetSucceeds | pydrofoil/ir.py:554-566 | retargeting the successors' phis to a fresh block never fails when no successor is listed twice |
| IrGraph.Graph.ReplaceOps | pydrofoil/ir.py:651-659 | one round over the reachable blocks; it fails exactly when a reachable operation is a key, and otherwise replaces every argument once and reports whether any named a key |
| IrGraph.ReplaceInBlocks | pydrofoil/ir.py:651-659 | the loop over the blocks replaces exactly in their operations and terminators, and reports a change exactly when a key was mentioned |
| IrGraph.ReplaceDefsUnion | pydrofoil/ir.py:651-659 | replacing in two disjoint sets of operations in turn is replacing in their union |
| Construct.CollectJumpTargets | pydrofoil/ir.py:80-84 | the jump targets are every statement's target, 0 for those without one, plus the index after each conditional jump |
| Construct.SplitIntoBlocks | pydrofoil/ir.py:86-97 | the body is cut at the jump targets into blocks closed by a `Goto` where they would fall through; it succeeds exactly when the body is empty or index 0 starts a block |
| Construct.NoFallThrough | pydrofoil/ir.py:93-97 | every block is non-empty and its last statement ends the block |
| Construct.AppendedGoto | pydrofoil/ir.py:93-97 | an appended `Goto` leads to the index right after the block's statements |
| Construct.FollowerStarts | pydrofoil/ir.py:86-97 | the index right after a block's statements starts the next block unless it is the end of the body |
| Construct.EveryStatementKept | pydrofoil/ir.py:86-91 | every statement of the body sits, at its own offset, in the block of the last start at or before it |
| Construct.ComputeEntryblocks | pydrofoil/ir.py:108-115 | each label's list holds, in increasing order, every block whose statements jump to it, once per jump |
| Construct.RecordJumps | pydrofoil/ir.py:111-114 | one block's jumps are added to its targets' lists, keeping the lists sorted and complete for the blocks done |
| Ssa.Builder.AddOp | pydrofoil/ir.py:404-410 | the operation gets the next id and joins the current block; the value is the unit constant exactly when its type is `Unit` |
| Ssa.Builder.GetArg | pydrofoil/ir.py:337-393 | a bound variable, a named constant, a literal or a let value is returned without new operations; an unknown variable becomes a fresh `GlobalRead` |
| Ssa.Builder.GetArgs | pydrofoil/ir.py:334-336 | one value per expression, in order, each equal to the plain value where there is one |
| Ssa.Builder.BuildCondition | pydrofoil/ir.py:394-403 | a comparison or variant check yields a new boolean operation; an expression is evaluated |
| Ssa.Builder.Store | pydrofoil/ir.py:411-416 | a name that is not a local (or is `current_exception`) gets a `GlobalWrite` of the value; otherwise the variable is rebound and nothing is emitted |
| Ssa.Builder.BuildDeclaration | pydrofoil/ir.py:239-250 | the declared variable is bound again; without an initializer a non-struct is bound to its type's default value and nothing is emitted |
| Ssa.Builder.CastTo | pydrofoil/ir.py:264-267 | a value of the expected type is kept; otherwise a fresh cast to that type is emitted and returned |
| Ssa.Builder.BuildJump | pydrofoil/ir.py:309-319 | a conditional jump must be followed by a `Goto` that ends the block; the terminator is a `ConditionalGoto` to the jump's target, falling to the `Goto`'s target |
| Ssa.Builder.BuildTerminator | pydrofoil/ir.py:303-325 | `End` returns the value of `return`, `Goto` jumps, `Exit` raises its kind, `Arbitrary` returns the result type's default, `JustStop` stops |
| Ssa.Builder.BuildBlock | pydrofoil/ir.py:237-333 | the statements run in order; a block whose last statement ends it gets its terminator |
| Ssa.Builder.MergeVar | pydrofoil/ir.py:189-209 | a variable at a join gets its merged value: unset if unset on some path, the common value if all agree, unit for unit type, else a new phi over the predecessors' values |
| Ssa.MergeCases | pydrofoil/ir.py:195-200 | without a phi the merge is the plain one, and a known value |
| Ssa.MergedPhi | pydrofoil/ir.py:203-209 | a phi over the first value and the others is the merged value when the predecessors disagree |
| Ssa.Builder.SetupMerge | pydrofoil/ir.py:185-209 | every variable of the first predecessor's map gets its merged value |
| Ssa.Builder.LoopVar | pydrofoil/ir.py:210-236 | a variable at a loop header gets a phi over all predecessors whose first input is the first predecessor's value, the others linked; unit and unset values get no phi |
| Ssa.Builder.SetupLoop | pydrofoil/ir.py:210-236 | every variable of the first predecessor's map gets its loop phi or constant |
| Ssa.Builder.DetectLoop | pydrofoil/ir.py:163-167 | the block is a loop header exactly when a predecessor is at or after it, and `has_loop` records it |
| Ssa.Builder.SetupStart | pydrofoil/ir.py:168-181 | the start block succeeds exactly when it is the start label and every argument name has a type; its map binds the arguments, the extra arguments and `return` |
| Ssa.StartOkIff | pydrofoil/ir.py:172-175 | the argument map can be built exactly when every name has a type paired with it |
| Ssa.ZipArgsLast | pydrofoil/ir.py:173-174 | in the comprehension a repeated name takes the type of its last pair |
| Ssa.WithExtraAt | pydrofoil/ir.py:176-179 | an extra argument binds its name to itself; other names keep their value |
| Ssa.Builder.SetupCopy | pydrofoil/ir.py:183-184 | a block with one predecessor copies that predecessor's final map, which must exist |
| Ssa.Builder.SetupVariableMap | pydrofoil/ir.py:162-236 | the variable map is set up by the case of `_setup_variable_map`, and `has_loop` grows by the back edges |
| Ssa.Builder.FinishBlock | pydrofoil/ir.py:143-150 | the patches waiting for the block are applied, its patch list closed and its final map recorded |
| Ssa.ApplyPatches | pydrofoil/ir.py:143-148 | every waiting patch fills its phi input with the final value of its variable |
| Ssa.LinkInputsAsWritten | pydrofoil/ir.py:232-236 | registering the loop phi's patches as written fails exactly when a later predecessor was already built |
| Ssa.LinkInputs | pydrofoil/ir.py:232-236 | the corrected registration keeps the builder invariant and changes only the new phi, whose inputs from already built predecessors are filled at once |
| Ssa.LinkFill | pydrofoil/ir.py:143-148 | the corrected registration: an already built predecessor's input takes that block's final value at once |
| Ssa.Builder.Build | pydrofoil/ir.py:131-155 | the graph has the function's name, arguments and start block, one block per label, `has_loop` exactly when some block has a back edge, and every phi's inputs final |
| Ssa.FinalInputs | pydrofoil/ir.py:137-150 | once every block is built no phi input is pending: each is its predecessor's final value of the variable |
| Ssa.GraphOk | pydrofoil/ir.py:152 | the finished blocks form a well-formed arena in which no operation is shared |
| Pipeline.Body | pydrofoil/ir.py:76-78 | with `singleblock` the body gets one `JustStop` appended; otherwise it is unchanged |
| Pipeline.ConstructIr | pydrofoil/ir.py:72-105 | the body is cut into blocks (failing unless it is empty or index 0 starts a block) and built into a valid graph named after the function, starting at 0 |
| Pipeline.BuildSsa | pydrofoil/ir.py:417-420 | the entry lists are those of `compute_entryblocks`; the graph is valid, keeps the name and start block, and has a loop exactly when some block is entered from itself or a later label |
| Pipeline.Finish | pydrofoil/ir.py:156-157 | after the lowered asserts and `light_simplify`, a graph that `light_simplify` changed passes `check` |
| Driver.Repeated | pydrofoil/ir.py:1173-1197 | at most 1000 rounds; every round but the last reported a change and the last none unless the limit was hit; the result is whether the first round changed anything, and a changed graph passes `check` |
| Driver.LocalOptRound | pydrofoil/ir.py:1234-1236 | one local-optimizer run; when it reports no change the graph is as it was (the source may leave dead operations of failing rules, see "## Left out") |
| Driver.SwapNotRound | pydrofoil/ir.py:1321-1336 | the result is whether some visited block ends in a branch on a negated condition; a failing swap fails the round; when nothing was swapped the graph is as it was |
| Driver.UnswitchedSpec | pydrofoil/ir.py:1514-1530 | unswitching keeps every block's operations and successor set, leaves no useless switch among the covered blocks and changes nothing when there was none |
| Driver.UnswitchOn | pydrofoil/ir.py:1518-1527 | the loop fails exactly when a useless switch's target starts with a phi; otherwise the blocks are unswitched, and a change is reported exactly when there was a useless switch |
| Driver.UselessSwitchRound | pydrofoil/ir.py:1518-1527 | over the `iterblocks` order the graph is unswitched, failing exactly on a phi at a collapsed target |
| Driver.RemoveUselessSwitch | pydrofoil/ir.py:1514-1530 | the result is whether some visited block had one target for both outcomes; a phi at such a target fails the pass; when nothing changed the graph is as it was |
| Driver.BareOptimize | pydrofoil/ir.py:1215-1231 | the passes run in their fixed order, one result each, and the result is whether any reported a change |
| Driver.LightSimplify | pydrofoil/ir.py:1198-1200 | `_bare_optimize` repeated, with the guarantees of `repeat` |
| Passes.RemoveFirst | pydrofoil/ir.py:1271-1272 | `list.remove` drops exactly one element when the value occurs and nothing otherwise |
| Passes.LiveSpec | pydrofoil/ir.py:1275 | an operation is kept by the filter exactly when it is in the block and is needed or cannot be removed |
| Passes.LiveConcat | pydrofoil/ir.py:1275 | the filter works piece by piece, so kept operations stay in their order |
| Passes.NeededSpec | pydrofoil/ir.py:1268-1273 | a value is needed exactly when some walked block's operations or terminator use it |
| Passes.SelfUseIgnored | pydrofoil/ir.py:1271-1272 | a phi's use of itself does not count as a use |
| Passes.RemoveDead | pydrofoil/ir.py:1253-1279 | the walked blocks keep exactly the needed operations and those that may have side effects; the result is whether any operation was dropped |
| Passes.DeadSpec | pydrofoil/ir.py:1254-1279 | an operation stays in a walked block exactly when it was there and is used by a walked block or cannot be removed |
| Passes.SwapNext | pydrofoil/ir.py:1325-1331 | a branch on `@not(x)` becomes a branch on `x` with its targets exchanged; other terminators are kept; an `@not` with other than one argument fails |
| Passes.SwapNextTaken | pydrofoil/ir.py:1325-1331 | the swapped branch goes, for each truth value of `x`, where the old branch on its negation went, and has the same successors |
| Passes.SwapOn | pydrofoil/ir.py:1322-1331 | the walk fails exactly on an `@not` that cannot be unpacked; otherwise every walked `@not` branch is swapped and a change is reported exactly when there was one |
| Passes.SwapNot | pydrofoil/ir.py:1321-1336 | on the graph, in `iterblocks` order, with the graph unchanged on failure |
| Passes.PhiValue | pydrofoil/ir.py:1343-1347 | a trivial phi's one other input, present exactly when its inputs other than itself are a single value |
| Passes.FirstTrivial | pydrofoil/ir.py:1341-1351 | the index of the first trivial phi of a block, with none before it |
| Passes.ReplaceRoundSpec | pydrofoil/ir.py:651-659 | a replacement round keeps every block's operations, and every reachable use of a key now names its replacement |
| Passes.SimplifyStepSpec | pydrofoil/ir.py:1341-1351 | a block without a trivial phi is left alone; otherwise exactly its first trivial phi is deleted and recorded with its one other input |
| Passes.SimplifyStepUses | pydrofoil/ir.py:1350 | after the deletion every reachable use of the removed phi names its replacement |
| Passes.SimplifyWalkKeeps | pydrofoil/ir.py:1337-1352 | the walk keeps every phi that was not trivial and every non-phi operation |
| Passes.SimplifyPhis | pydrofoil/ir.py:1337-1352 | the corrected round: the graph is the walk's result and the result is whether a phi was removed |
| Passes.SimplifyPhisAsWritten | pydrofoil/ir.py:1337-1352 | the round as written: the graph is the walk's result and the result is always false |
| Passes.SimplifyRemoved | pydrofoil/ir.py:1341-1351 | a round removes a phi exactly when some walked block starts the round with a trivial phi, and one that removes none changes nothing |
| Passes.SimplifyKeepsRemoved | pydrofoil/ir.py:1341-1351 | once a phi is removed the round reports it |
| Passes.SimplifyLeavesSecondPhi | pydrofoil/ir.py:1352 | on a block with two trivial phis one round removes only the first, so the as-written `repeat` stops with a trivial phi left |
| Branches.FoldNext | pydrofoil/ir.py:1359-1366 | a branch on a boolean constant becomes a `Goto` to the target it always takes; other terminators are kept; no new edge appears |
| Branches.FoldWalk | pydrofoil/ir.py:1355-1367 | the walk is the walk of the folded graph, only the blocks it visits are folded, and a change is reported exactly when one of them branched on a constant |
| Branches.FoldedInThinned | pydrofoil/ir.py:1359-1366 | folding only touches terminators and never adds an edge |
| Branches.FoldedIdle | pydrofoil/ir.py:1359-1366 | without a branch on a constant nothing changes |
| Branches.Zip | pydrofoil/ir.py:1380 | `zip` pairs the two lists up to the shorter one |
| Branches.PrunedPhiSpec | pydrofoil/ir.py:1380-1385 | the pruned phi's inputs are exactly the original ones from reachable blocks, each value looked up in the replacements |
| Branches.KeptBlocksSpec | pydrofoil/ir.py:1380-1385 | the blocks a pruned phi keeps do not depend on the replacements |
| Branches.PrunePhiOn | pydrofoil/ir.py:1380-1385 | the `zip` loop builds exactly the pruned phi |
| Branches.PruneOp | pydrofoil/ir.py:1376-1389 | pruning one operation keeps the set of definitions and keeps only operations that were kept or this one |
| Branches.SingleIffCollapses | pydrofoil/ir.py:1386-1388 | a pruned phi is dropped exactly when one input from a reachable block is left |
| Branches.PruneAll | pydrofoil/ir.py:1374-1391 | pruning all reachable blocks keeps the edges and the well-formedness of the state |
| Branches.PruneOn | pydrofoil/ir.py:1374-1391 | the loop over the set yields each reachable block once, in some order, and computes the pruning in that order |
| Branches.RemoveUnreachablePhiPrevvalues | pydrofoil/ir.py:1372-1393 | the graph becomes the pruning of the reachable blocks, over an order that covers exactly the reachable blocks |
| Branches.RemoveIfTrueFalse | pydrofoil/ir.py:1355-1370 | the result is whether a visited block branched on a constant; then the folded graph's phis are pruned; otherwise nothing changes |
| Branches.SkipEmpty | pydrofoil/ir.py:1285-1295 | skipping an empty successor keeps every block's operations and a closed graph, and reporting no change means nothing changed |
| Branches.EmptyWalk | pydrofoil/ir.py:1282-1297 | the walk over the graph as it is being retargeted keeps every block's operations, and no change reported means the blocks are as they were |
| Branches.NamedIff | pydrofoil/ir.py:475-485 | the common input blocks of the leading phis contain exactly the blocks some phi names |
| Branches.RenameIdle | pydrofoil/ir.py:1293 | renaming a block no phi names changes nothing |
| Branches.EmptyReach | pydrofoil/ir.py:1282-1297 | every block reachable afterwards was reachable before |
| Branches.EmptyWalkSpec | pydrofoil/ir.py:1282-1297 | every block keeps its operations and terminator kind, and each new successor is reached from an old one through empty blocks ending in a `Goto` |
| Branches.RemoveEmptyBlocks | pydrofoil/ir.py:1282-1297 | as written: the blocks become those of the walk and the result is whether an edge was retargeted, even onto itself |
| Branches.RemoveEmptyBlocksCorrected | pydrofoil/ir.py:1282-1297 | the same walk, reporting a change exactly when the blocks changed |
| Branches.EmptyChain | pydrofoil/ir.py:1285-1295 | an empty block between two others is skipped: `0 -> 1 -> 2` becomes `0 -> 2`, with a change reported |
| Branches.EmptySelfLoop | pydrofoil/ir.py:1285-1295 | an empty block that jumps to itself is skipped onto itself: nothing changes, yet a change is reported |
| Branches.SelfLoopWalk | pydrofoil/ir.py:1282-1297 | on that graph the whole walk leaves the blocks unchanged and reports a change |
| Joins.JoinStep | pydrofoil/ir.py:1303-1317 | one absorption: `b` jumps to a block with one entry, which is neither `b` nor already absorbed; `b` takes its operations and terminator |
| Joins.JoinChain | pydrofoil/ir.py:1303-1317 | the inner loop absorbs a chain; a change is reported exactly when a block was absorbed, and no change means nothing changed |
| Joins.JoinMoves | pydrofoil/ir.py:1310-1312 | a join moves operations without losing or doubling any |
| Joins.JoinAllMoves | pydrofoil/ir.py:1298-1320 | `join_blocks` loses and duplicates no operation, empties every absorbed block, and keeps each other block's operations in front of those it takes over |
| Joins.FindPhi | pydrofoil/ir.py:1308-1309 | finds a phi exactly when the absorbed block holds one |
| Joins.FindJoined | pydrofoil/ir.py:1315-1316 | finds an absorbed successor exactly when one is listed |
| Joins.JoinChainOn | pydrofoil/ir.py:1303-1317 | the inner loop computes exactly `JoinChain` |
| Joins.JoinAllOn | pydrofoil/ir.py:1301-1317 | the outer loop computes exactly the joins over the entry map's blocks in the given order |
| Joins.PairJoined | pydrofoil/ir.py:1298-1320 | on two blocks where the first jumps to the second, the second is absorbed and then visiting it does nothing |
| Joins.DiamondStaysApart | pydrofoil/ir.py:1303-1310 | with that repeated list, block 2 does not absorb block 3 although 3 has one predecessor |
| Joins.JoinBlocks | pydrofoil/ir.py:1298-1320 | the entry map of `make_entrymap` is built, its blocks are gone through in some order, and the graph takes the result; the result is whether a block was absorbed; a failure leaves the graph unchanged |
| Asserts.FirstAssert | pydrofoil/ir.py:1443-1449 | the index of the first operation that is a `zsail_assert` under the builtin names, with none before it |
| Asserts.FirstAssertOn | pydrofoil/ir.py:1443-1449 | the loop finds exactly `FirstAssert` |
| Asserts.AddRaiseBlock | pydrofoil/ir.py:1451-1452 | a fresh block that raises the assertion's message is added |
| Asserts.LowerAssert | pydrofoil/ir.py:1450-1457 | the block is split at the assertion, dropping it, and branches on its condition to the tail or to a fresh raising block; it fails exactly when the call has fewer than two arguments or the split fails |
| Asserts.LoweredIsLoweredAt | pydrofoil/ir.py:1450-1457 | the blocks left behind are in the lowered form, with a comment exactly when the message is a string constant |
| Asserts.LowerFirst | pydrofoil/ir.py:1443-1461 | only the first assertion of the block is lowered; the result says whether there was one |
| Asserts.ConvertSailAsserts | pydrofoil/ir.py:1440-1463 | the blocks are listed first; the result is whether a listed block held an assertion; every listed block ends lowered and each other block is untouched |
| Topo.AddPreds | pydrofoil/ir.py:3097-3100 | each successor of the block gains it as an incoming block; every other entry is unchanged |
| Topo.BuildIncoming | pydrofoil/ir.py:3097-3100 | the `incoming` map holds, for each listed block, exactly its predecessors among the listed blocks |
| Topo.HasPred | pydrofoil/ir.py:3097-3100 | every reachable block other than the start has a reachable predecessor |
| Topo.RankStart | pydrofoil/ir.py:3101 | in an acyclic reachable set the start block has no predecessor, so it is the only block that starts with nothing incoming |
| Topo.OrderRanking | pydrofoil/ir.py:3093-3116 | a topological order of the reachable blocks exists only when they are acyclic |
| Topo.Children | pydrofoil/ir.py:3106 | `set(block.next.next_blocks())`: the successors once each |
| Topo.Release | pydrofoil/ir.py:3106-3110 | the popped block is discarded from each child's incoming set; the children left with none are appended to `no_incoming` and deleted from the map |
| Topo.ReleasedWaited | pydrofoil/ir.py:3106-3110 | in an acyclic set a released child was still waiting and had not yet been placed or queued |
| Topo.KahnSound | pydrofoil/ir.py:3102-3115 | when the worklist empties having placed every reachable block once, each block comes after all its reachable predecessors and the start comes first |
| Topo.KahnComplete | pydrofoil/ir.py:3102-3113 | on an acyclic reachable set the worklist empties with every block placed exactly once |
| Topo.Kahn | pydrofoil/ir.py:3101-3115 | the sort succeeds exactly when the reachable blocks are acyclic, and then its order is topological |
| Topo.TopoOrder | pydrofoil/ir.py:3093-3116 | `topo_order` succeeds exactly when the blocks reachable from the start are acyclic, and then lists each once with every block after its predecessors |
| Topo.ReleaseWaiting | pydrofoil/ir.py:3143-3148 | only children still in `incoming` are discarded from; those left with none are queued and deleted |
| Topo.FirstWaiting | pydrofoil/ir.py:3152-3156 | the first block of the DFS order that is still waiting is picked |
| Topo.IncomingKeys | pydrofoil/ir.py:3133 | the incoming map's keys together with the start block are exactly the reachable blocks |
| Topo.TakeOne | pydrofoil/ir.py:3139-3148 | one pop keeps the loop invariant and places one more block |
| Topo.TakeReady | pydrofoil/ir.py:3138-3148 | the inner loop drains `no_incoming` keeping the invariant and never growing the waiting set |
| Topo.BestCovered | pydrofoil/ir.py:3140 | the asserted cover: waiting, placed and queued blocks together are the reachable set |
| Topo.StuckCycle | pydrofoil/ir.py:3149-3156 | when the queue is empty and blocks still wait, the reachable blocks hold a cycle |
| Topo.OrderedSorted | pydrofoil/ir.py:3157 | an order with no block picked out of turn is a topological order |
| Topo.BestLoop | pydrofoil/ir.py:3137-3156 | the result lists each reachable block once, starting with the start; every block not picked to break a loop follows all its predecessors; a pick happens only on a cycle |
| Topo.BestKahn | pydrofoil/ir.py:3126-3157 | the attempt succeeds exactly when the start has no reachable predecessor, and then its result is as in BestLoop |
| Topo.TopoOrderBestAttempt | pydrofoil/ir.py:3117-3157 | without `has_loop` it is `topo_order`; with it, it succeeds exactly when the start has no predecessor and lists each reachable block once, start first, in topological order except for the picked blocks, which exist only on a cycle; on acyclic graphs it is always topological |
| Dataflow.NonRaising | pydrofoil/ir.py:3224-3225 | the successors kept are exactly those not ending in `Raise` |
| Dataflow.Meet | pydrofoil/ir.py:3227-3230 | the intersection: a cast is in it exactly when it is in every listed successor's set, casts of constants compared by value |
| Dataflow.AnticipatedPrefix | pydrofoil/ir.py:3215-3239 | the sets computed for the first i blocks do not depend on the blocks processed later |
| Dataflow.AnticipatedAt | pydrofoil/ir.py:3218-3238 | each block's set is the meet of its non-raising successors when all were processed before it (otherwise empty), plus the casts to small bitvectors and `int_to_int64` calls within the block |
| Dataflow.ReversedTopo | pydrofoil/ir.py:3212-3213 | in the reversed topological order every successor of a block comes before it |
| Dataflow.AnticipatedAcyclic | pydrofoil/ir.py:3211-3240 | on an acyclic graph every reachable block gets a set, each being the meet over all its non-raising successors plus its own casts |
| Dataflow.CastsInOn | pydrofoil/ir.py:3234-3238 | the loop over the block's operations collects exactly its anticipated casts |
| Dataflow.MeetOn | pydrofoil/ir.py:3228-3230 | the update-then-intersect loop computes the meet |
| Dataflow.AnticipatedOn | pydrofoil/ir.py:3215-3239 | the loop over the blocks computes the anticipated-cast sets of the specification |
| Dataflow.FindAnticipatedCasts | pydrofoil/ir.py:3211-3240 | on success the map covers the reachable blocks in reversed best-attempt order and equals the specification; it succeeds on every acyclic graph, and without `has_loop` exactly on those |
| Cse.LStrip | pydrofoil/ir.py:3259 | the result is a suffix of the name, everything dropped was `@`, and it does not start with `@` |
| Cse.FieldsUpTo | pydrofoil/ir.py:3289-3292 | a tuple struct construction makes each field value (through the replacements) available as a read of that field of the construction; other entries are kept |
| Cse.CseOp | pydrofoil/ir.py:3283-3299 | one operation: among well-formed field operations it fails exactly on a tuple-struct field write into a `StructConstruction` (the assertion); a replaceable operation is replaced by the table's entry exactly when its key is present, and otherwise becomes available under its key; a tuple field write makes the written value available; no other replacement changes |
| Cse.CseOps | pydrofoil/ir.py:3282-3299 | over a block's operations the table and replacements only grow, and each new replacement is a replaceable operation of the block |
| Cse.EntryTable | pydrofoil/ir.py:3269-3280 | the table a block starts from: it exists exactly when the block has no predecessors or the first was walked; empty without predecessors; otherwise the first predecessor's entries on which every predecessor agrees |
| Cse.CseBlock | pydrofoil/ir.py:3268-3299 | one block: it succeeds exactly when the block has an entry and its entry table and operation walk succeed; only its own table is recorded and the replacements only grow, by replaceable operations of the block |
| Cse.CseWalk | pydrofoil/ir.py:3263-3299 | the walk records a table for each walked block, and every replacement is a replaceable operation of a walked block |
| Cse.WalkStepRepl | pydrofoil/ir.py:3268-3297 | one more block keeps every replacement an operation of the walked blocks |
| Cse.Kept | pydrofoil/ir.py:3302 | exactly the unreplaced operations survive, in order and without duplicates |
| Cse.Compacted | pydrofoil/ir.py:3301-3302 | only walked blocks lose operations, none keeps a replaced one, and the terminators are untouched |
| Cse.AgreeOn | pydrofoil/ir.py:3277-3278 | true exactly when every predecessor has the same value under the key |
| Cse.EntryTableOn | pydrofoil/ir.py:3269-3280 | the loop computes the entry table of the specification |
| Cse.FieldsOn | pydrofoil/ir.py:3290-3292 | the `zip` loop over names and arguments gives the specification's table up to the shorter length |
| Cse.CseOpOn | pydrofoil/ir.py:3283-3299 | the loop body computes the specification's step |
| Cse.CseOpsOn | pydrofoil/ir.py:3282-3299 | the loop over a block's operations computes the specification's walk |
| Cse.CseOpsFailed | pydrofoil/ir.py:3285 | a failed prefix fails the whole block with the same message |
| Cse.CseBlockOn | pydrofoil/ir.py:3268-3299 | the block body computes the specification's step |
| Cse.CseWalkStep | pydrofoil/ir.py:3268-3299 | one block more either fails the whole walk or extends the walk by that block |
| Cse.CseWalkOn | pydrofoil/ir.py:3268-3299 | the loop over the blocks computes the specification's walk |
| Cse.CompactedThinned | pydrofoil/ir.py:3301-3302 | dropping the replaced operations only thins blocks and keeps every edge |
| Cse.CseDropsReplaced | pydrofoil/ir.py:3296-3302 | the operations left in the walked blocks are exactly those that were not replaced, and every replacement was one of their operations |
| Cse.CseOrder | pydrofoil/ir.py:3266-3267 | the entry map of `make_entrymap`, with its lists' order, and a best-attempt order that lists the reachable blocks once, topologically whenever they are acyclic |
| Cse.ApplyReplacements | pydrofoil/ir.py:3300-3303 | the replaced operations are dropped and `replace_ops` is applied to the reachable blocks and their definitions |
| Cse.CommonSubexpressions | pydrofoil/ir.py:3241-3305 | over the entry map of `make_entrymap`, so `prev_blocks[0]` is the source's first predecessor, `cse` fails where no order is found or the walk fails; it reports a change exactly when the walk replaced something, and then the graph is the compacted blocks with the replacements applied; otherwise the graph is unchanged |
| Cse.JoinTables | pydrofoil/ir.py:3271-3280 | a join keeps an entry on which both predecessors agree, drops one on which they differ, and fails when the first predecessor was not walked |
| Cse.SecondCastReplaced | pydrofoil/ir.py:3294-3297 | of two equal casts the second is replaced by the first |
| Cse.ReadAfterWrite | pydrofoil/ir.py:3284-3288 | a tuple-struct field read after a write of that field is replaced by the written value |
| Peephole.LStrip | pydrofoil/ir.py:1767 | the result is a suffix of the name, everything dropped was `$` or `@`, and it starts with neither |
| Peephole.GetReplacement | pydrofoil/ir.py:1636-1639 | a value that is no key is itself; on a resolved map the result is the value's final replacement; it is always the value or one of the map's values |
| Peephole.GetReplacementChain | pydrofoil/ir.py:1637-1638 | a chain that ends at a value that is no key is followed to that end |
| Peephole.GetReplacementEnds | pydrofoil/ir.py:1637 | when chains have length at most two the loop ends at a value that is no key |
| Peephole.Args | pydrofoil/ir.py:1641-1642 | each argument is followed through the replacements, in order |
| Peephole.ExtractSmallFixed | pydrofoil/ir.py:1647-1668 | a small bitvector value is itself; any value found has the type returned, which is a small bitvector type or the one anticipated cast; a new cast is built only for a value that is not a cast with exactly one anticipated type; looking through a cast that fails is an error |
| Peephole.HomeBlock | pydrofoil/ir.py:1702-1707 | the block found holds the operation and is the unconditional target of one of the phi's input blocks |
| Peephole.ExtractMachineInt | pydrofoil/ir.py:1669-1709 | a machine integer is itself; anything found is a machine integer or the argument of the widening it looks through; an integer constant matches only when constants are wanted; an `int_to_int64` is built only for an anticipated machine-integer cast; a new phi keeps the input blocks of the phi it narrows and is only built when recursion is allowed |
| Peephole.Demote | pydrofoil/ir.py:1539 | a failed match stays a no-match or an error |
| Peephole.ExtractInputs | pydrofoil/ir.py:1691-1696 | the phi's inputs are narrowed one for one |
| Peephole.ExtractNumber | pydrofoil/ir.py:1710-1718 | a number is found exactly when narrowing the argument gives a machine constant, and it is that constant's value |
| Peephole.ConvertToMachineInt | pydrofoil/ir.py:1623-1628 | it never fails to match: when narrowing finds nothing it calls `int_to_int64` on the argument |
| Peephole.SymmetricSpec | pydrofoil/ir.py:1534-1545 | the decorated rule tries the given order first and the swapped order only when the first raised `NoMatchException`; it finds a rewrite exactly when one of those does |
| Peephole.OptimizeCast | pydrofoil/ir.py:1734-1745 | a cast to the type its argument already has is that argument; anything found has the cast's type; a cast with other than one argument is an error; a cast of a cast is folded when that is enabled |
| Peephole.OptimizeNot | pydrofoil/ir.py:2902-2917 | a boolean constant is negated; a double negation gives the inner argument; otherwise only a name other than `@not` is rewritten, to `@not` with type Bool |
| Peephole.EqBool | pydrofoil/ir.py:2880-2893 | it matches exactly when the first argument is a boolean constant: `true == x` is `x` and `false == x` is `@not(x)` |
| Peephole.OptimizeInt64ToInt | pydrofoil/ir.py:1994-2005 | a machine constant becomes the integer constant of the same number; otherwise a match is only `int64_to_int(int_to_int64(x))` giving `x` |
| Peephole.OptimizeIntToInt64 | pydrofoil/ir.py:2006-2020 | an integer constant that fits a Python `int` becomes the machine constant, one that does not is an error; otherwise a match is only `int_to_int64(int64_to_int(x))` giving `x` |
| Peephole.WidenedRight | pydrofoil/ir.py:2463-2471 | `add_int`/`mult_int` become the machine-integer variant exactly when the second argument narrows, with that narrowed argument second |
| Peephole.SubArgs | pydrofoil/ir.py:2483-2490 | the two arguments, through the replacements, of a definition with the given name; no match for any other value |
| Peephole.OptimizeAddOI | pydrofoil/ir.py:2473-2501 | adding zero gives the other argument; `(x - n) + n` gives `x`, with the two `n` compared by value, widened back when the subtraction was on machine integers; otherwise the first argument is narrowed to add machine integers |
| Peephole.PowerOfTwoExponent | pydrofoil/ir.py:2583-2586 | the bit test `n & (n - 1) == 0` holds exactly for powers of two, and then the exponent is `n.bit_length() - 1` |
| Peephole.EvenPow2 | pydrofoil/ir.py:2583 | every power of two above one is even |
| Peephole.OptimizeMultOI | pydrofoil/ir.py:2572-2611 | times one is the argument, times zero the integer 0, times `2^k` a left shift by `k`; a negative constant is left alone; another positive constant multiplies machine integers only when the result's cast is anticipated |
| Peephole.MultShiftExact | pydrofoil/ir.py:2583-2593 | the emitted shift multiplies by exactly the constant |
| Peephole.FoldArgs | pydrofoil/ir.py:1794-1811 | the arguments convert exactly when each does |
| Peephole.TryFold | pydrofoil/ir.py:1793-1826 | a fold is found exactly when every argument converts and the library gives a result, and it is that result; it is an error exactly when an argument cannot convert |
| Peephole.ConstantsOf | pydrofoil/ir.py:1794-1803 | the constants of the arguments, in order |
| Peephole.FirstNonConstant | pydrofoil/ir.py:1828-1839 | the index of the first argument that is not a constant |
| Peephole.FoldEach | pydrofoil/ir.py:1843-1856 | every input of the phi folds, and the results are those folds in order |
| Peephole.ConstVals | pydrofoil/ir.py:1859 | the folded constants become phi inputs, one for one |
| Peephole.TryFoldPhi | pydrofoil/ir.py:1827-1862 | with a foldable phi argument the result is the common constant when all folds agree and otherwise a new phi of the folds over the same blocks; a fold that fails gives no match |
| Peephole.PhiPosition | pydrofoil/ir.py:1829-1840 | the phi can only be the first argument that is not a constant |
| Peephole.UnwrapArgs | pydrofoil/ir.py:1751-1759 | the letters convert the arguments one for one, `o` keeping the argument and `i` narrowing it; another letter, or a conversion that is an error, is an error |
| Peephole.NamedRule | pydrofoil/ir.py:1767-1775 | the rule named by the operation, whose rewrite refers only to values that exist |
| Peephole.OptimizeOperation | pydrofoil/ir.py:1746-1792 | an unwrapped variant is used when the library has one, with the same number of arguments (a different count is an error); otherwise the named rule decides, and the generic fold applies only to a pure library function whose result is not a real and whose name does not mention `undefined` |
| Peephole.OptimizeOp | pydrofoil/ir.py:1721-1733 | a non-SSA assignment, and only that, is removed; a phi or any class other than cast and operation is kept; a replacement refers only to values that exist |
| Optimizer.AddOp | pydrofoil/ir.py:1606-1616 | `newop`/`newcast`: the operation takes the next free slot and is the value returned; the arena only grows |
| Optimizer.AddPhi | pydrofoil/ir.py:1618-1621 | `newphi`: the phi takes the next free slot, reusing an input-block list already in use |
| Optimizer.Emit | pydrofoil/ir.py:1606-1621 | emitting a term gives a value of the term's type: a plain value is itself and anything built is the last new slot; the arena only grows |
| Optimizer.EmitAll | pydrofoil/ir.py:1606-1621 | emitting several terms gives one value each and only grows the arena |
| Optimizer.EmitOrder | pydrofoil/ir.py:1600-1621 | emitting a term keeps the operations that existed before in their order in the new list |
| Optimizer.OptimizeStep | pydrofoil/ir.py:1583-1589 | one operation: replacements only grow, a removal is never forgotten, and when nothing is removed or replaced the operation is simply appended (what a failing rule emitted is not kept, see "## Left out") |
| Optimizer.Replace | pydrofoil/ir.py:1587-1589 | a rewrite succeeds exactly when its value has the operation's type (the assertion), and the operation is then replaced by that value |
| Optimizer.OptimizeOps | pydrofoil/ir.py:1583-1589 | the loop over a block's operations only grows the replacements and keeps the terminators |
| Optimizer.FoldJump | pydrofoil/ir.py:1590-1599 | a conditional jump whose condition, through the replacements, is a boolean constant becomes a jump to the target it picks; any other terminator is unchanged, and no new target appears |
| Optimizer.OptimizeBlock | pydrofoil/ir.py:1581-1600 | the block's operations and terminator are rewritten, keeping the block set closed and never dropping a replacement, a removal or the dead-block flag |
| Optimizer.FinishClosed | pydrofoil/ir.py:1598-1600 | folding the jump keeps the blocks closed under successors |
| Optimizer.OptimizeWalk | pydrofoil/ir.py:1563-1567 | the walk over the blocks in `iterblocks` order keeps the graph closed and only accumulates replacements and flags |
| Optimizer.BlockKeeps | pydrofoil/ir.py:1581-1600 | the old operations left in the block are exactly those neither replaced nor removed, in their old order |
| Optimizer.BlockJumps | pydrofoil/ir.py:1590-1599 | only this block's terminator changes, to its folded form, and the dead-block flag is set exactly when a jump was folded |
| Optimizer.BlockSound | pydrofoil/ir.py:1581-1600 | one block keeps the walk's soundness invariant: no operation in two blocks, replaced operations out of every block, existing values only |
| Optimizer.WalkSound | pydrofoil/ir.py:1563-1567 | the whole walk keeps the soundness invariant |
| Optimizer.OpsIdle | pydrofoil/ir.py:1583-1589 | when no operation is replaced or removed, the block's operations stay as they were (no dead operations of failing rules, see "## Left out") |
| Optimizer.WalkIdle | pydrofoil/ir.py:1563-1579 | a walk that neither replaces, removes nor folds leaves the graph unchanged, so `optimize` reports no change exactly then (no dead operations of failing rules, see "## Left out") |
| Optimizer.OptimizeBlockOn | pydrofoil/ir.py:1581-1600 | the loop of `optimize_block` computes the specification's block rewrite |
| Optimizer.OptimizeStepOn | pydrofoil/ir.py:599-609 | one pop of the `iterblocks` work list either fails as the walk does, or keeps the walk invariant and makes progress |
| Optimizer.OptimizeOn | pydrofoil/ir.py:1565-1567 | the loop over `iterblocks` computes the specification's walk |
| Optimizer.ReplaceUntilStable | pydrofoil/ir.py:1570-1573 | `replace_ops` is repeated until a round reports no change; it succeeds exactly when the rounds do and leaves their graph |
| Optimizer.RoundsNotInUse | pydrofoil/ir.py:1570-1573 | when no replaced operation is still in a block, the rounds can only fail by not settling |
| Optimizer.StoreState | pydrofoil/ir.py:1600 | the walk's blocks, arena and counter become the graph's, which stays valid |
| Optimizer.RewriteBlocks | pydrofoil/ir.py:1564-1567 | the graph becomes the result of the specification's walk from the start block, and is unchanged when the walk changed nothing |
| Optimizer.Settle | pydrofoil/ir.py:1568-1575 | the replacements are applied until they settle; it succeeds exactly when the specification's rounds do, leaving their graph |
| Optimizer.Apply | pydrofoil/ir.py:1568-1578 | the replacements settle; without a folded jump the graph is the settled one, with one the unreachable phi inputs are pruned over the reachable blocks; with nothing to do the graph is unchanged |
| Optimizer.LocalOptimize | pydrofoil/ir.py:1234-1236 | the anticipated casts are those of the reversed best-attempt order; the graph is the walk's result, settled and pruned; the result reports a change exactly when something was removed, replaced or folded, and no change leaves the graph as it was (no dead operations of failing rules, see "## Left out") |
| Optimizer.RewriteAndApply | pydrofoil/ir.py:1563-1579 | for one configuration: the walk, the settling and the pruning, with the change reported exactly when something was removed, replaced or folded |
| Optimizer.AnticipatedCasts | pydrofoil/ir.py:1554 | the anticipated casts stored at construction are the specification's over the reversed order |
| Emit.SplitEdge | pydrofoil/emitfunction.py:186-192 | one edge: splitting keeps the maps well shaped and only adds blocks; the arena keeps its slots |
| Emit.SplitBlock | pydrofoil/emitfunction.py:180-192 | one block of the outer loop keeps the maps well shaped and only adds blocks |
| Emit.SplitAll | pydrofoil/emitfunction.py:179-192 | the loop over the walk keeps the maps well shaped and only adds blocks |
| Emit.TwoEdges | pydrofoil/emitfunction.py:183-192 | the two rounds over a conditional jump touch only that block and fresh blocks, and split exactly its critical edges |
| Emit.SplitAllSpec | pydrofoil/emitfunction.py:177-192 | blocks outside the walk and all operations stay; exactly the critical edges out of each walked conditional jump get a fresh empty block jumping to the old target; nothing else is added |
| Emit.SplitEdgeKeep | pydrofoil/emitfunction.py:191-192 | after one split every input block of a leading phi still jumps to the phi's block |
| Emit.SplitAllPreds | pydrofoil/emitfunction.py:177-192 | only the input blocks of phis change, and every leading phi's input blocks still jump to its block |
| Emit.PredsAfterSplit | pydrofoil/emitfunction.py:191-192 | `replace_prev` on the target renames the split block in its leading phis, so their input blocks stay predecessors |
| Emit.SplitAllOn | pydrofoil/emitfunction.py:179-192 | the loops compute the specification's splitting |
| Emit.RemoveCriticalEdges | pydrofoil/emitfunction.py:177-192 | the entry map of `make_entrymap`, repeats included, and the walk are computed before any split, and the graph becomes the specification's splitting of them; it stays valid |
| Emit.AppendAllSpec | pydrofoil/emitfunction.py:195-203 | the `defaultdict(list)` holds for each block the moves found for it, in the order they were found |
| Emit.CollectMoves | pydrofoil/emitfunction.py:195-203 | the first loop collects the specification's moves of every phi of the walk |
| Emit.MovesSpec | pydrofoil/emitfunction.py:197-203 | a move is in a block's list exactly when some walked phi has an input from that block that is not the phi itself |
| Emit.AppendMoves | pydrofoil/emitfunction.py:207-208 | one assignment per move is appended, each in the next free slot |
| Emit.AppendMovesSpec | pydrofoil/emitfunction.py:207-208 | appending keeps the arena sound and changes only the block being appended to |
| Emit.EmitAll | pydrofoil/emitfunction.py:205-208 | the emission keeps the set of blocks |
| Emit.EmitOn | pydrofoil/emitfunction.py:205-208 | the loop over the dictionary, in some order of its keys, computes the specification's emission |
| Emit.NonPhisSpec | pydrofoil/emitfunction.py:210 | the filter keeps exactly the operations that are not phis, without repeats |
| Emit.DropOn | pydrofoil/emitfunction.py:209-210 | the last loop computes the specification's dropping of the phis |
| Emit.RemovePhisSpec | pydrofoil/emitfunction.py:204-210 | afterwards no walked block holds a phi, and every block holds its kept old operations followed by one assignment per move from it |
| Emit.RemovePhis | pydrofoil/emitfunction.py:194-210 | the moves are those of the walk; it fails exactly when some block's targets and sources overlap (the assertion), and then, as with no moves, the graph is unchanged; otherwise the graph is the emission followed by the dropping |
| Emit.AssignmentsIndependent | pydrofoil/emitfunction.py:206-208 | no appended assignment reads a phi another assignment of the same block writes |
| Emit.AssignPcs | pydrofoil/emitfunction.py:19-21 | each block is numbered by its position in the walk |
| Emit.NumberedExact | pydrofoil/emitfunction.py:19-21 | with no repeats the program counters are exactly 0 to n-1 in walk order and distinct |
| Emit.NewEmitter | pydrofoil/emitfunction.py:11-24 | `CodeEmitter.__init__`: after the splitting and the phi removal, the blocks are the walk, numbered in order, with the entry map `make_entrymap` computes on the result |
| MakeCode.BitVectorConstantType | pydrofoil/makecode.py:490-494 | a type is given exactly to a literal starting with `0b` or `0x` (otherwise the assertion fails), and it is a fixed-width bitvector type |
| MakeCode.LiteralFitsWidth | pydrofoil/makecode.py:490-494 | the width given to a well-formed literal always holds its value: one bit per binary digit, four per hex digit |
| MakeCode.ResolveNamedType | pydrofoil/makecode.py:588-608 | the generic bitvector type comes exactly from `%bv`; an unknown name is a failure (the `xxx` NameError) |
| MakeCode.ResolveTypeName | pydrofoil/makecode.py:588-607 | every primitive type's name resolves back to that type |
| MakeCode.ResolveFixedName | pydrofoil/makecode.py:596-597 | `%bv<n>` resolves to the fixed bitvector of width n |
| MakeCode.ResolveSmallName | pydrofoil/makecode.py:606-607 | `%sbv<n>` resolves to the small bitvector of width n |
| MakeCode.ResolvedAreNamed | pydrofoil/makecode.py:588-608 | only primitive type names resolve at all |
| MakeCode.IndentationShape | pydrofoil/makecode.py:104 | the indentation of a level is four spaces per level |
| MakeCode.EmittedLineShape | pydrofoil/makecode.py:100-104 | a blank line is stored as the empty string, any other line verbatim behind four spaces per level |
| MakeCode.DeclNameInjective | pydrofoil/makecode.py:119 | distinct (prefix, number) pairs give distinct names `<prefix>_<n>` |
| MakeCode.EnumMemberLinesAt | pydrofoil/makecode.py:167-169 | member i of an enum is emitted as `<name> = <start + i>` |
| MakeCode.Codegen.constructor | pydrofoil/makecode.py:17-35 | `Codegen.__init__`: empty tables and code lists, level and enum counter 0, no local scope, and exactly the predefined globals |
| MakeCode.Codegen.AddGlobal | pydrofoil/makecode.py:37-40 | a new name is added with its Python name and type; a name already present is refused (the assertion) and nothing changes |
| MakeCode.Codegen.AddNamedType | pydrofoil/makecode.py:42-45 | a new type name is added; one already present is refused |
| MakeCode.Codegen.GetName | pydrofoil/makecode.py:57-60 | a local name is its own Python name, any other is looked up globally; outside a scope or for an unknown global it fails |
| MakeCode.Codegen.GetInfo | pydrofoil/makecode.py:62-66 | a local entry shadows a global one; it fails outside a scope or for an unknown name |
| MakeCode.Codegen.EnterScope | pydrofoil/makecode.py:75-77 | a fresh empty local table, the previous one handed back |
| MakeCode.Codegen.ExitScope | pydrofoil/makecode.py:79-80 | the scope's table is handed back and the outer one restored |
| MakeCode.Codegen.Emit | pydrofoil/makecode.py:100-104 | exactly one line, indented by the current level, is appended to the current list and no other list changes |
| MakeCode.Codegen.BeginIndent | pydrofoil/makecode.py:83-85 | the header is emitted at the old level and the level rises by one |
| MakeCode.Codegen.EndIndent | pydrofoil/makecode.py:87 | the level drops by one |
| MakeCode.Codegen.BeginCodeType | pydrofoil/makecode.py:90-94 | lines go to the target at level 0, the old target and level saved |
| MakeCode.Codegen.EndCodeType | pydrofoil/makecode.py:96-98 | the saved target and level come back exactly when the body left the level at 0 (the assertion); otherwise nothing is restored |
| MakeCode.Codegen.CachedDeclaration | pydrofoil/makecode.py:110-121 | a pair seen before gets its cached name and its lines go to a fresh dummy list; a new pair gets `<prefix>_<n>` with the next number of its prefix, is cached, and its lines go to the declarations |
| MakeCode.Codegen.Remember | pydrofoil/makecode.py:117-119 | a new pair takes the next number of its prefix and is cached under `<prefix>_<n>` |
| MakeCode.Codegen.CachedNamesDistinct | pydrofoil/makecode.py:117-119 | two different cached pairs never share a name |
| MakeCode.Codegen.RegisterEnumMembers | pydrofoil/makecode.py:167-169 | the member loop succeeds exactly when no member name is taken or repeated, and then registers each as `<pyname>.<member>` and emits its numbered line |
| MakeCode.Codegen.MemberStep | pydrofoil/makecode.py:167-169 | one member extends the loop's registrations and lines, or shows a name is taken |
| MakeCode.Codegen.AddEnumMember | pydrofoil/makecode.py:168-169 | one member is registered exactly when its name is free, and its line is emitted |
| MakeCode.Codegen.DeclareEnum | pydrofoil/makecode.py:163-172 | `Enum.make_code` succeeds exactly when the members and the type name are free; then the class header, the numbered members at one level deeper and a blank line are emitted, `last_enum` advances by the member count plus one, and the enum is a named type |
| MakeCode.EnumGlobalsHas | pydrofoil/makecode.py:167-168 | the registered globals are exactly the member names |
| MakeCode.EnumGlobalsAt | pydrofoil/makecode.py:168 | each member of an enum with distinct names is registered as `<pyname>.<member>` with the enum's type |
| MakeCode.EnumMemberStep | pydrofoil/makecode.py:167-169 | one member either shows a name is taken or extends the registrations and lines by that member |
| PreOpt.ReplaceVarSpec | pydrofoil/optimize.py:43-44 | replacing a variable by another expression changes an expression exactly when it reads the variable, and then it reads the expression's variables instead |
| PreOpt.ReplaceVarAllSpec | pydrofoil/optimize.py:43-44 | the same for a list of expressions |
| PreOpt.CondReplaceSpec | pydrofoil/optimize.py:43-44 | the same for conditions |
| PreOpt.ReplaceInStmtSpec | pydrofoil/optimize.py:43-44 | `replace_var` changes a statement exactly when it reads the variable (so `assert newop != useop` holds for a real use), keeps what it defines, and swaps the variable's read for the expression's reads |
| PreOpt.OccurrencesSpec | pydrofoil/optimize.py:69-78 | the positions recorded up to a point are exactly those before it where the name plays the role, in walk order |
| PreOpt.WhereSpec | pydrofoil/optimize.py:65-79 | each list holds exactly the positions where the name is used, defined or declared, in walk order |
| PreOpt.WhereSingle | pydrofoil/optimize.py:10-16 | a one-element list means the name plays the role there and nowhere else |
| PreOpt.WhereOnly | pydrofoil/optimize.py:10-16 | a name that plays the role at one position only has just that position in its list |
| PreOpt.RecordUses | pydrofoil/optimize.py:72-73 | every variable the statement reads gets this position appended; no list is created empty |
| PreOpt.StepUpTo | pydrofoil/optimize.py:70-78 | one statement more extends the tables up to the next position |
| PreOpt.BlockUpTo | pydrofoil/optimize.py:69-70 | the end of a block is the start of the next |
| PreOpt.FindDeclDefsUses | pydrofoil/optimize.py:65-79 | it succeeds exactly when no variable is declared twice (the assertion), and then the uses, definitions and declarations are exactly where each variable is read, defined and declared |
| PreOpt.SelectionSpec | pydrofoil/optimize.py:9-28 | the loop picks a variable, with its positions, exactly when it is used once, defined once and declared, all in one block, by a definition that is no `@`/`$` operation and whose own variables are each defined once |
| PreOpt.FoldableUsed | pydrofoil/optimize.py:9 | every variable the rule picks is a key of `uses`, so the loop meets it |
| PreOpt.IdentifyReplacements | pydrofoil/optimize.py:6-29 | it fails exactly when a variable is declared twice; otherwise the map holds exactly the variables the rule picks, with their positions |
| PreOpt.InsertSorted | pydrofoil/optimize.py:33 | insertion keeps the list sorted by (block, definition index) |
| PreOpt.SortReplacements | pydrofoil/optimize.py:32-33 | the list holds exactly the map's entries, sorted by (block, definition index) |
| PreOpt.RewriteOneSpec | pydrofoil/optimize.py:34-49 | one fold changes only the use statement, which read the variable and then reads it no longer unless the folded expression does; block lengths stay, so every queued index is still valid; the definition and declaration are queued |
| PreOpt.FilterSpec | pydrofoil/optimize.py:53-59 | the rebuilt block holds exactly the statements at the undeleted indices, in order |
| PreOpt.KeepUndeleted | pydrofoil/optimize.py:55-58 | the inner loop computes the filtered block |
| PreOpt.RewriteUses | pydrofoil/optimize.py:34-49 | the first loop computes the specification's folds and queue |
| PreOpt.DeleteQueued | pydrofoil/optimize.py:50-59 | the second loop rebuilds each queued block once, giving the specification's deletion |
| PreOpt.RewriteQueued | pydrofoil/optimize.py:34-49 | the folds keep every block's length, and every queued block is a block of the list |
| PreOpt.DoReplacements | pydrofoil/optimize.py:31-59 | the variables are folded in (block, definition index) order and only then are the queued statements deleted; it succeeds exactly when the folds do |
| PreOptExample.SelectsBvUsedOnce | pydrofoil/test/test_optimize.py:87-89 | in the test block `bvusedonce` is picked with declaration 7, definition 8 and use 10 |
| PreOptExample.UsedOnceUse | pydrofoil/test/test_optimize.py:63 | `bvusedonce` is read once, at 10 |
| PreOptExample.UsedOnceDef | pydrofoil/test/test_optimize.py:61 | `bvusedonce` is assigned once, at 8 |
| PreOptExample.Bv32Def | pydrofoil/test/test_optimize.py:54 | `bv32` is assigned once, at 1 |
| PreOptExample.KeepsBv32 | pydrofoil/test/test_optimize.py:91-100 | `bv32` is not picked: its definition reads `zargz3`, which nothing defines |
| Specialize.SpecializableType | pydrofoil/specialize.py:17 | holds exactly for the `Int`, `GenericBitVector`, `MachineInt` and `Bool` argument types |
| Specialize.UsefullySpecializable | pydrofoil/specialize.py:16-25 | true iff some argument has a specializable type, no block reachable from the start returns without a value, and fewer than 100 blocks are reachable |
| Specialize.LastReturnTypeSpec | pydrofoil/specialize.py:31-34 | the recorded result type is None iff no reachable block returns a value, and otherwise the type of the value returned by the last such block in `iterblocks` order |
| Specialize.ResultType | pydrofoil/specialize.py:31-34 | the loop over `iterblocks` computes that last returned type |
| Specialize.DemandedArgtypes | pydrofoil/specialize.py:36-44 | one entry per argument; an entry is set only to `MachineInt`, and only for an `Int` argument whose cast to `MachineInt` is anticipated at the start block |
| Specialize.Params | pydrofoil/specialize.py:35 | one parameter per graph argument, carrying that argument's type |
| Specialize.Fallback | pydrofoil/specialize.py:186-192 | a demanded `MachineInt` becomes an `int_to_int64` conversion of the argument and marks the key useful; otherwise the argument is passed with its own type and no value |
| Specialize.SmallValue | pydrofoil/specialize.py:163-166 | a value is recorded exactly for a machine-integer constant between 0 and 64, and it is that constant |
| Specialize.KeyEntry | pydrofoil/specialize.py:156-192 | the key item for one argument: integer values only for machine-integer constants in 0..64, boolean values only for boolean constants of a `Bool` parameter, "not useful" only for a `MachineInt` parameter without a value, the fallback otherwise; an argument already of machine-integer type always takes the integer branch |
| Specialize.Entries | pydrofoil/specialize.py:156 | the entries for the first n zipped positions, one per position |
| Specialize.EntriesAt | pydrofoil/specialize.py:156-192 | each computed entry is the key entry of its own position |
| Specialize.KeyOf | pydrofoil/specialize.py:193-197 | no key unless the usefulness flag is set; a key holds the items and the passed arguments; failure (the length assertion) exactly when useful and the zip was shorter than the call's arguments |
| Specialize.UsefulAsWrittenUseful | pydrofoil/specialize.py:169 | the flag as written (each later entry overwrites it) implies some entry is useful |
| Specialize.ExtractKeyCorrected | pydrofoil/specialize.py:155-197 | with the flag ORed over all entries: failure iff an entry fails or the zip is short of a useful call, a key exists iff some entry is useful, and the key has one item per argument; whenever the code as written yields a key, the corrected one yields the same |
| Specialize.LateArgumentDropsKey | pydrofoil/specialize.py:169 | a call `(TRUE, x)` with parameter types `Bool, MachineInt` gets no key as written, although its first argument is a useful boolean constant; the corrected key keeps it |
| Specialize.ExtractKey | pydrofoil/specialize.py:152-198 | the loop computes the key as written, error included |
| Specialize.MakePiece | pydrofoil/specialize.py:79-108 | the stub parameter has the key's type; a conversion op is referenced by the call argument, a direct argument is not an op; the piece fails exactly on the source's two assertions (a changed type that is neither `MachineInt` nor a small fixed bitvector, a value on a type other than `Bool` or `MachineInt`) |
| Specialize.StubPieces | pydrofoil/specialize.py:79-108 | for n positions there are n tags, n parameters, n call arguments and at most n conversion ops |
| Specialize.StubPiecesRefs | pydrofoil/specialize.py:89-96 | every op referenced by a call argument is one of the stub's ops |
| Specialize.BitsTag | pydrofoil/specialize.py:97 | a small fixed bitvector of width w in place of a generic one is tagged `bv<w>` |
| Specialize.ConstantTag | pydrofoil/specialize.py:84-85 | a machine-integer constant in place of an `Int` is tagged with its decimal digits |
| Specialize.OpenTag | pydrofoil/specialize.py:106-108 | an unchanged type without a value is tagged `o` |
| Specialize.Returned | pydrofoil/specialize.py:118-146 | the narrowed return type always fits the declared one |
| Specialize.MakeStubSpec | pydrofoil/specialize.py:74-150 | a stub exists only when a result type was recorded; its name starts with `<name>_specialized_`, it has one parameter per zipped position, and its last op calls the original function with the recorded result type and one argument per position |
| Specialize.StubPiecesTypes | pydrofoil/specialize.py:79-108 | when every key item fits its parameter, building the pieces succeeds and every call argument has its parameter's original type |
| Specialize.PieceType | pydrofoil/specialize.py:80-107 | a fitting item gives a piece whose call argument has the parameter's original type |
| Specialize.StubKeepsSignature | pydrofoil/specialize.py:109 | the inner call passes arguments of exactly the original parameter types |
| Specialize.StubName | pydrofoil/specialize.py:112-146 | the stub's name is `<name>_specialized_` followed by the tags joined by `_`, then the narrowing suffix |
| Specialize.StubNameSubrange | pydrofoil/test/test_specialize.py:80-92 | `zis_zzero_subrange` specialized on a 52-bit vector, the constant 51 and an open `Int` is named `zis_zzero_subrange_specialized_bv52_51_o` |
| Specialize.StubNameRor | pydrofoil/test/test_specialize.py:170-181 | `zROR` specialized on a 32-bit vector and the constant 2, with a 32-bit result, is named `zROR_specialized_bv32_2__bv32` and returns a 32-bit vector |
| Specialize.BuildStub | pydrofoil/specialize.py:74-150 | the loop builds the stub the specification function describes, error included |
| Specialize.StubFits | pydrofoil/specialize.py:147 | a stub's result type fits the recorded result type |
| Specialize.Redirect | pydrofoil/specialize.py:64-72 | the result is the call to the stub or one conversion wrapped around it; it has the call site's type exactly when the stub's type fits it |
| Specialize.Specializer.constructor | pydrofoil/specialize.py:29-46 | the new specializer keeps the given fields and has an empty cache |
| Specialize.Specializer.Variant | pydrofoil/specialize.py:52-63 | a cached key returns its entry and leaves the cache alone; past 64 variants nothing is built; otherwise the stub is built, and the cache maps the key to it (or to the in-progress marker if building failed) |
| Specialize.Specializer.SpecializeCall | pydrofoil/specialize.py:48-72 | no key gives no rewrite and no cache change; a key that is in progress gives no rewrite; otherwise the call is redirected to the cached or new stub, with the cache updated exactly as `Variant` states |
| Specialize.SpecializeOp | pydrofoil/specialize.py:201-209 | only an operation whose name has a specializer is rewritten; a rewrite of a call whose function's result type equals the call's type has that type |
| Specialize.Create | pydrofoil/specialize.py:29-46 | the specializer has the graph's name, parameters and last returned type, an empty cache, and the demanded types computed from the casts anticipated at the start block; it is created whenever the reachable blocks are acyclic |

## Left out

- Inlining is not modelled: `inline`, `_inline`, `copy_ops`, `copy_blocks`
  and `should_inline` (`pydrofoil/ir.py:2987-3092`), and
  `Block.copy_operations` (`pydrofoil/ir.py:486-511`). Copying a callee's
  graph into its caller would need a second arena of ids and a renaming
  proof. The model does not go that far.
- `remove_if_phi_constant` (`pydrofoil/ir.py:1395-1439`), `remove_superfluous_enum_cases` (`pydrofoil/ir.py:1472-1513`) and `remove_double_exception_check` (`pydrofoil/ir.py:3158-3210`) are not modelled; they are further instances of the jump rewriting of `Branches`.
- Driver.BareOptimize: runs the passes of `_bare_optimize` in their order but without `inline`, `remove_if_phi_constant` and `remove_superfluous_enum_cases`, which are not modelled; its result is therefore the disjunction over the modelled passes only.
- Driver.RunRound: states only that the graph stays valid; it dispatches one round of a pass, and what each round does is stated by the pass's own member (`RemoveDead`, `RemoveEmptyBlocks`, `JoinBlocks`, `SwapNotRound`, `SimplifyPhisAsWritten`, `RemoveIfTrueFalse`, `ConvertSailAsserts`, `CommonSubexpressions`, `LocalOptRound`, `BareOptimize`).
- `optimize` (`pydrofoil/ir.py:1202-1213`) is not modelled. It runs `SpecializingOptimizer` in a loop of up to 100 rounds, and that optimizer's walk over a whole graph needs inlining and `Codegen.specialization_functions`. Only `light_simplify` is modelled, as `Driver.LightSimplify`. The specializer's per-operation decision is modelled as `Specialize.SpecializeOp`.
- Specialize.MakeStubSpec: the stub is described as `_make_stub` builds it before `_inline` and `simplify` run on it (`pydrofoil/specialize.py:114-116`); the narrowing of the single returned value (`pydrofoil/specialize.py:118-146`) is the parameter `narrow`, so `__i`/`__bv<width>` suffixes follow from what `narrow` returns; `emit_extra_graph` and the `specialization_functions` registration (`pydrofoil/specialize.py:147-149`) belong to the code generator and are left out.
- Ssa.Builder.Build: constants are compared structurally when the join merge asks whether all predecessors agree (`pydrofoil/ir.py:197`), whereas the source compares constant objects by identity, and only `TRUE`, `FALSE` and `UNIT` are shared objects; so `x = 3` on both sides of a join gives `3` in the model and a phi of two `3`s in the source.
- Passes.SimplifyPhis: a phi whose inputs are equal constants counts as trivial here (structural comparison in `set(op.prevvalues)`, `pydrofoil/ir.py:1343`); in the source two distinct constant objects of the same value keep the phi. The same holds for Passes.SimplifyPhisAsWritten and Passes.PhiValue.
- Cse.EntryTable: the intersection of the predecessors' tables compares op ids, and the keys compare constants structurally, as the source's `comparison_key` does (`pydrofoil/ir.py:3288`); the two agree except that the model never distinguishes two constant objects of the same value.
- Optimizer.OptimizeStep: a peephole rule is a pure `Term`, so what a rule emits before it finds no match is not kept. In the source, `newop`, `newcast`, `_make_int_to_int64` and `_extract_smallfixedbitvector` append to `newoperations` as they run (`pydrofoil/ir.py:1601-1616`, `1633-1634`, `1660`), and a later `NoMatchException` (`pydrofoil/ir.py:1725-1727`, `1771-1772`) leaves those operations dead in the block until `remove_dead`. An example is `add_int(a, p)` with a phi `p` whose first input is narrowed by `int_to_int64` and whose second cannot be.
- Optimizer.OpsIdle: "the operations stay as they were" holds for the model; in the source the block can also gain the dead operations of failing rules (see Optimizer.OptimizeStep).
- Optimizer.WalkIdle: the same gap; the source's walk can add dead operations while reporting no change.
- Optimizer.LocalOptimize: the same gap; "no change leaves the graph as it was" is not promised of the source, whose graph can hold dead operations of failing rules.
- Driver.LocalOptRound: the same gap, over one `localopt` round.
- Peephole.OptimizeAddOI: the `(x - n) + n` rewrite compares the two machine constants by value. The source's `self._args(arg0)[1] == num1` (`pydrofoil/ir.py:2491-2496`) compares objects, and `MachineIntConstant` objects are not shared, so two separate literals `5` match here and not in the source.
- Dataflow.Meet: the casts are `(Value, Type)` pairs with constants compared by value; the source intersects sets of `(op.args[0], type)` tuples (`pydrofoil/ir.py:3227-3238`), which compare constant objects by identity, so a cast of the literal `5` in each of two successors survives the meet here and not in the source.
- Cse.CseOp: malformed field operations do not fail here. A tuple-struct `FieldWrite` with one argument records nothing, where the source raises `IndexError` at `op.args[1]` (`pydrofoil/ir.py:3286`). A `FieldWrite` or `FieldAccess` with no arguments passes, where `is_tuplestruct` raises `IndexError` (`pydrofoil/ir.py:3245`).
- Struct assignments are not modelled. These are `StructElementAssignment`,
  `GeneralAssignment` (including `RefAssignment`), `StructConstruction`
  expressions with their per-field casts, and the shortcut for a
  `FieldAccess` of a `StructConstruction` (`pydrofoil/ir.py:269-301`,
  `358-373`). The statement language of `parse.dfy` does not have them, so
  the builder never emits `FieldWrite`, `StructConstruction` or
  `RefAssignment` operations. The passes still handle those operations when
  a graph contains them.
- Ssa.Builder.BuildOperation: states the builder invariant and that the arena only grows; the operation it emits and the new binding of the result variable are not stated.
- Ssa.Builder.BuildAssignment: states the builder invariant and that the arena only grows; the new binding of the assigned variable is not stated.
- Topo.Kahn: on a cycle through the start block, with a graph that claims to have no loop, the source never stops. After `del incoming[child]`, the `defaultdict` re-creates an empty entry, and the start block is pushed again and again (`pydrofoil/ir.py:3103-3110`). The model bounds the loop by the number of reachable blocks and reports a failure instead.
- Topo.TopoOrder: the same non-termination; the model reports failure where the source loops forever.
- The peephole rules that are not modelled are the other `optimize_*` methods (`pydrofoil/ir.py:1966-2984`) and `_optimize_Phi`, `_optimize_GlobalWrite` and `_optimize_VectorUpdate` (`pydrofoil/ir.py:1863-1961`). `Peephole.NamedRule` finds no match for them, and `Peephole.OptimizeOp` keeps phis unchanged. No property stated here depends on which rules fire.
- Peephole.TryFold: the runtime library's pure functions (`supportcode`) are not part of this model; folding is the parameter `fold`, and the `Integer`/`r_uint` conversions of the arguments are not modelled.
- The integers are mathematical. Nothing models the `r_uint`/`rbigint` machine words, or the 64-bit wrap-around of a machine integer.
- `repeat` is modelled with its 1000-round limit. Its timings and its `LIMIT REACHED!` print are not. Neither are `print_graph_construction`, `Graph.view`, the dot output, or the prints in `specialize.py`.
- `optimize.py`'s `specialize_ops`/`OptVisitor` are not modelled, because they are unfinished (both stop in `pdb`). The text that `CodeEmitter` and `make_code` generate is not modelled either.
- The `parse` and `types` modules are modelled only as the datatypes of `parse.dfy` and `types.dfy`, with types compared structurally.

## Findings

| source | as written | input that shows it | evidently intended | confidence | as-written member | corrected member |
|---|---|---|---|---|---|---|
| pydrofoil/ir.py:232-236 | a loop header registers a patch in `patch_phis[otherprevpc]` for every predecessor after the first, but a predecessor with a smaller label is already built and its entry is `None` (set at line 150), so `append` raises `AttributeError` | labels 0: declare `x`; 1: conditional jump to 3; 2: goto 3; 3: conditional jump to 3; 4: end. Label 3 has predecessors `[0, 2, 3]` and predecessor 2 is built before 3 | an already built predecessor's phi input is filled at once with that block's final value of the variable | not executed | Ssa.LinkInputsAsWritten | Ssa.LinkFill (used by Ssa.LinkInputs and Ssa.Builder.Build) |
| pydrofoil/ir.py:1352 | `simplify_phis` removes at most one phi per block and then returns `False`, so `repeat` stops after the first round and skips `check` | a block whose first two phis are both trivial (each has only one input besides itself) | the pass reports `True` when it removed a phi, so `repeat` runs again until no trivial phi is left | not executed | Passes.SimplifyLeavesSecondPhi | Passes.SimplifyPhis |
| pydrofoil/ir.py:1285-1295 | `remove_empty_blocks` retargets an edge to an empty block that jumps to itself onto that same block and reports a change, so `repeat` runs all 1000 rounds | a block 0 that goes to block 1, where block 1 has no operations and jumps to itself | the pass reports a change only when it actually changed a successor | not executed | Branches.EmptySelfLoop | Branches.RemoveEmptyBlocksCorrected |
| pydrofoil/specialize.py:169 | the integer branch of `_extract_key` assigns `useful = …` rather than or-ing it into the flag. A later argument that is not useful therefore cancels an earlier useful one | a call `(TRUE, x)` to a function with parameters `Bool, MachineInt`, where `x` is a machine-integer argument that is not a constant: no key, although `TRUE` is a useful bool constant | the key is useful when any argument is useful | not executed | Specialize.LateArgumentDropsKey | Specialize.ExtractKeyCorrected |

The SSA builder uses the corrected registration. Elsewhere the passes keep
the code as written:

- `Driver.RunRound` runs `Passes.SimplifyPhisAsWritten` and
  `Branches.RemoveEmptyBlocks`;
- `Specialize.Specializer.SpecializeCall` uses the key as written.

That way the driver's results are the source's. The corrected definitions
are proved beside them.
