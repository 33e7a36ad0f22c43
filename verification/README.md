# Verified models of a SPIR-V back end

The repository vendors glslang's SPIR-V back end. This project models the parts of it that decide whether a
shader still means the same afterwards, and proves what they promise. `dafny verify dfyconfig.toml` checks everything.

- **Readable block order** (`Cfg`, `ReadableOrder`, `ReadableOrderTraverser`). The recursive traversal with its
  visited, delayed and reached sets calls back each block once, in dominator order, and reports unreachable merge and
  continue blocks; `DepthFirst` gives the order among successors and targets. It finds all reachable blocks exactly
  when it reports no reachable block dead, and then everything a header leads to comes before its targets, in any
  graph. Under structured control flow no reachable block is reported dead.
- **Post-processing.** `PostProcessCfg` removes unreachable code and keeps all behaviour exactly under that condition.
  `Samplers` brings OpSampledImage into the blocks that use it. `Alignment` (with `Bits`) recomputes the Aligned
  operand.
- **Lowering.** `ShaderAst` gives meaning to structured programs, `SpirvBuilder` to blocks. `Lowering` and
  `StatementLowering` translate one to the other, `Traverser` does so step by step as the source does.
  `FunctionLowering.LoweredBodyAgrees` is the main result: blocks and program have exactly the same results.
  `LoweredBodyIsStructured` (in `LoweredConstructs`, with `ConstructRegions` and `LoweredGraph`) is the other one: the
  blocks of every body obey structured control flow, so what is said above holds of all of them (`FrontEndOrder`).
  `UserCalls` does the same for copy-in and copy-out, `StructLayout` for member offsets, `StringLiterals` for strings.
- **The remapper.** `Binary`, `RemapBinary` and `Strip` work on words: where the ids of an instruction are, renaming
  in place, removing ranges in place; `WordPasses` says what both together do to the instructions, and
  `OperandGrammar` writes instructions operand by operand and proves that just what was written is found. `DebugText`
  reads the text that debug stripping compares. `IdMap` chooses new ids. `OptLoadStore` forwards the values of local
  variables stored once, and the modules beside it (`OptLoadStoreMeaning`, `OptLoadStoreCorrect`,
  `OptLoadStoreTheorem`, `OptLoadStoreVolatile`) prove that every execution is preserved, and say what becomes of
  volatile accesses. `Survival` says what removal by reference count leaves, and `DeadFunctions`, `DeadVars` and
  `DeadTypes` apply it. `Remap` puts the passes together (with `ModuleShape`, `FunctionShape`, `RemapPasses`,
  `OptLoadStoreShape`): a closed module stays closed, and the result is what the chosen passes make of it.

Places where the code does not do what its comments or names suggest, each with the exact condition or an example:

- A block that is reported dead and reached by control flow later loses its code in post-processing. The walks of a
  function survive if and only if all such blocks are in canonical form already (`BehaviourPreservedIff`,
  `LateReachLosesCode`, `LoseCode`).
- A volatile store does not keep its variable: the code erases the id that equals the mask word (`CandidatesExactly`,
  `VolatileStoreRemovedIff`, `VolatileStoreIsRemoved`). The volatile accesses of a run are kept if and only if the run
  passes no such store (`VolatileKeptIff`).
- A memory access that both makes available and makes visible names two scopes; the remapper takes the second one for
  the next operand and does not rename it (`DecodeWrittenIff`, `CopyMemoryLosesScope`).
- The words of an entry point's name, save the first, are counted as ids of variables (`EntryPointCounts`).
- Counting calls or uses keeps cycles that nothing refers to. What is left is reachable if and only if every cycle is
  (`OnlyReachableIff`, `CycleSurvives`).
- An id equal to the header bound is not an error (`BuildIdMap`, `IdAtBound`).
- The white list of debug stripping does not see member names: the member's number is read as text instead
  (`MemberNameKeptIff`, `ListedMemberNameIsLost`).

## Model

| member | source | states |
|---|---|---|
| ReadableOrderTraverser.Traverser.Visit | ShaderCompiler/include/glslangSPIRV/InReadableOrder.cpp:71-116 | the recursive visit, changing the sets `visited`, `delayed`, `reached` and making callbacks in place, has the effect of the function `Visited` that the order theorems are about; it ends because blocks to visit run out |
| ReadableOrderTraverser.Traverser.VisitSuccessors | ShaderCompiler/include/glslangSPIRV/InReadableOrder.cpp:95-99 | the successor loop has the effect of `VisitedFrom` |
| ReadableOrderTraverser.Traverser.Release | ShaderCompiler/include/glslangSPIRV/InReadableOrder.cpp:100-115 | releasing a delayed continue or merge block: the reason is control flow exactly if the block is in the reached set at that moment |
| ReadableOrderTraverser.InReadableOrder | ShaderCompiler/include/glslangSPIRV/InReadableOrder.cpp:128-131 | the callbacks are those of a traversal from the root with empty sets |
| ReadableOrderTraverser.OnceInDominatorOrder | ShaderCompiler/include/glslangSPIRV/InReadableOrder.cpp:35-39 | in every graph, structured or not: the root comes first, no block is called back twice, and every dominator of a block reached by control flow is called back, by control flow, no later than the block |
| ReadableOrder.DominatorsComeFirst | ShaderCompiler/include/glslangSPIRV/InReadableOrder.cpp:35-39 | any log in which each control-flow entry is the root or has an earlier control-flow predecessor is in dominator order |
| ReadableOrderTraverser.VisitGrows | ShaderCompiler/include/glslangSPIRV/InReadableOrder.cpp:71-116 | what every activation keeps and adds: no callback is undone, everything held back by others stays held back, everything it started is finished, and reached blocks are visited or held back |
| ReadableOrderTraverser.FlowCallbacksAreReachable | ShaderCompiler/include/glslangSPIRV/InReadableOrder.cpp:77-116 | control-flow callbacks are reachable blocks, always; they are all the reachable blocks if and only if no reachable block was reported dead |
| ReadableOrderTraverser.TargetsAreReported | ShaderCompiler/include/glslangSPIRV/InReadableOrder.cpp:80-115 | each dead report is for the merge or continue block of an earlier header with the reason for that role, and the targets of every called-back header are called back |
| ReadableOrderTraverser.StructuredIsComplete | ShaderCompiler/include/glslangSPIRV/InReadableOrder.cpp:77-116 | under structured control flow (SPIR-V section 2.11) no reachable block is reported dead and the control-flow callbacks are exactly the reachable blocks |
| ReadableOrder.WhitePathCalled | ShaderCompiler/include/glslangSPIRV/InReadableOrder.cpp:80-115 | merge delay in any graph: when a target of a header is released, every block at the end of a path through blocks that were neither visited nor delayed when the header was entered, past no other target still to be released, has been called back via control flow since then, unless a block control can reach was reported dead |
| ReadableOrderTraverser.WhitePathsComeFirst | ShaderCompiler/include/glslangSPIRV/InReadableOrder.cpp:71-116 | the same for whole traversals of any closed graph without a reachable block reported dead: for every control-flow callback, all blocks on white paths come before each of the header's own targets that is not called before it, and the continue target before the merge block |
| ReadableOrder.WhiteBeforeTarget | ShaderCompiler/include/glslangSPIRV/InReadableOrder.cpp:100-115 | what a release has called back stays in front of the target in every longer log |
| ReadableOrder.BodyCalled | ShaderCompiler/include/glslangSPIRV/InReadableOrder.cpp:80-115 | in structured graphs the white paths include all paths through the header's own construct, so when a target is released the construct has been called back, via control flow, since the header was entered |
| ReadableOrder.NotHeldByOthers | ShaderCompiler/include/glslangSPIRV/InReadableOrder.cpp:77-78 | a reachable interior block of a construct is neither visited nor delayed when its header is entered |
| ReadableOrderTraverser.ConstructsComeFirst | ShaderCompiler/include/glslangSPIRV/InReadableOrder.cpp:80-115 | merge delay under structured control flow: for every reachable header all blocks of its construct are called back before its continue target and its merge block, and the continue target before the merge block |
| DepthFirst.TraversalIsLaid | ShaderCompiler/include/glslangSPIRV/InReadableOrder.cpp:71-116 | the order of the callbacks in every closed graph: after each one come, without gaps, what the visits of its successors make, in their listed order, and then what the releases of its continue and its merge block make; a successor is called back in its turn if and only if it is free then, a target if and only if it has not been called back |
| DepthFirst.FreeSuccessorIsNext | ShaderCompiler/include/glslangSPIRV/InReadableOrder.cpp:95-99 | a first successor that is free is the next callback, by control flow and without a header |
| LoweredConstructs.LoweredBodyIsStructured | ShaderCompiler/include/glslangSPIRV/GlslangToSpv.cpp:4426-4800 | for every function body, with selections, loops, switches and short-circuit operators nested in any way: the graph of its blocks is closed, obeys the discipline of structured control flow, and headers strictly dominate their own targets |
| LoweredConstructs.StmtLowered | ShaderCompiler/include/glslangSPIRV/GlslangToSpv.cpp:4426-4800 | every header that a statement makes has a region of new blocks with its targets in it, entered from the header or from inside only and not out of the merge block; regions are nested, and only break and continue branch out of the statement |
| LoweredConstructs.ItemsLowered | ShaderCompiler/include/glslangSPIRV/GlslangToSpv.cpp:4652-4661 | the segments of a switch branch to later segments, to the merge block, or where continue goes, whatever code is in them |
| LoweredGraph.ExprLowered | ShaderCompiler/include/glslangSPIRV/GlslangToSpv.cpp:2438-2485 | every selection made for an expression has such a region, and no block of an expression branches out of it |
| FrontEndOrder.LoweredBodyOrder | ShaderCompiler/include/glslangSPIRV/InReadableOrder.cpp:71-116 | for every function body the control-flow callbacks are exactly the reachable blocks, and every construct comes before its targets |
| FrontEndOrder.LoweredBodySurvives | ShaderCompiler/include/glslangSPIRV/SpvPostProcess.cpp:341-399 | post-processing changes no walk and no block on a walk of such a body |
| PostProcessCfg.Builder.PostProcessCfg | ShaderCompiler/include/glslangSPIRV/SpvPostProcess.cpp:341-399 | over all functions: blocks reported dead get their canonical form, all other blocks are untouched, the decorations left are those whose target is not defined in dead code, in order, and a module whose blocks begin with labels is well-formed again |
| PostProcessCfg.Builder.FindUnreachable | ShaderCompiler/include/glslangSPIRV/SpvPostProcess.cpp:345-375 | the sets collected are the dead merges, the dead continues with their headers, and exactly the ids defined in dead code (all instructions of unvisited blocks, all but the label of dead-reported ones) |
| PostProcessCfg.Builder.RecordCallbacks | ShaderCompiler/include/glslangSPIRV/SpvPostProcess.cpp:355-361 | after the callbacks of a function the sets describe all callbacks so far |
| PostProcessCfg.Builder.CollectDefinitions | ShaderCompiler/include/glslangSPIRV/SpvPostProcess.cpp:362-374 | adds exactly the results of the dead instructions of the function's blocks |
| PostProcessCfg.Builder.RewriteUnreachable | ShaderCompiler/include/glslangSPIRV/SpvPostProcess.cpp:377-388 | each collected block becomes label and OpUnreachable, or label and a branch to its own header, no other block changes |
| PostProcessCfg.Builder.RemoveDecorations | ShaderCompiler/include/glslangSPIRV/SpvPostProcess.cpp:390-398 | erasing in place keeps the other decorations in order |
| PostProcessCfg.DeadBlock | ShaderCompiler/include/glslangSPIRV/SpvPostProcess.cpp:377-388 | what becomes of a block reported dead: its label stays; a merge block then has OpUnreachable and no successor, a continue block OpBranch to its header and that header as its successor, and nothing else |
| PostProcessCfg.ResultWellFormed | ShaderCompiler/include/glslangSPIRV/SpvPostProcess.cpp:341-399 | functions keep their own blocks afterwards: every block mentioned exists and belongs to the function that mentions it |
| PostProcessCfg.CallbacksOfFunction | ShaderCompiler/include/glslangSPIRV/SpvPostProcess.cpp:352-361 | the callbacks of one function decide how its blocks are reported; other functions do not interfere |
| PostProcessCfg.BehaviourPreservedIff | ShaderCompiler/include/glslangSPIRV/SpvPostProcess.cpp:341-399 | the walks from a function's entry and the contents of the blocks on them are unchanged if and only if every reachable block that was reported dead already had its canonical form |
| PostProcessCfg.StructuredBehaviourPreserved | ShaderCompiler/include/glslangSPIRV/SpvPostProcess.cpp:341-399 | under structured control flow the pass changes no walk and no block on a walk |
| PostProcessCfg.DecorationsKeptIff | ShaderCompiler/include/glslangSPIRV/SpvPostProcess.cpp:390-398 | a decoration survives, as often as it occurred, unless its target is defined in dead code |
| PostProcessCfg.DeadDefinitionIff | ShaderCompiler/include/glslangSPIRV/SpvPostProcess.cpp:362-374 | with unique results an id counts as defined in dead code if and only if its own instruction is dead: in an unvisited block, or after the label of a dead-reported block |
| PostProcessCfg.DecoratedIsDefined | ShaderCompiler/include/glslangSPIRV/SpvPostProcess.cpp:362-398 | of the decorations of ids defined in blocks exactly those are left whose id is still defined afterwards, in a block that the traversal visits |
| PostProcessCfg.ReachableDecorationsKept | ShaderCompiler/include/glslangSPIRV/SpvPostProcess.cpp:390-398 | in structured code no decoration of an id defined in a reachable block is lost |
| PostProcessCfg.LateReachIsReportedDead | ShaderCompiler/include/glslangSPIRV/InReadableOrder.cpp:77-78 | a concrete unstructured graph, every header with a successor, in which a block that control reaches later is reported dead |
| PostProcessCfg.LateReachLosesCode | ShaderCompiler/include/glslangSPIRV/SpvPostProcess.cpp:377-388 | on that graph the pass throws away code that is executed |
| PostProcessCfg.LateModule | ShaderCompiler/include/glslangSPIRV/SpvPostProcess.cpp:377-388 | a module with that graph that meets everything the pass asks for |
| PostProcessCfg.LoseCode | ShaderCompiler/include/glslangSPIRV/SpvPostProcess.cpp:341-399 | running the pass on that module changes what it does |
| Samplers.SamplerPass.PostProcessSamplers | ShaderCompiler/include/glslangSPIRV/SpvPostProcess.cpp:494-539 | every use of an OpSampledImage is in the block of a definition and after it, result ids stay unique, the id counter moves by the number of copies, and erasing the copies while mapping fresh ids back gives the original instructions, block by block in order; each fresh id is the result of an OpSampledImage with the type, the image and the sampler, in this order, of one in another block, and the next original instruction uses it |
| Samplers.SamplerPass.FindSampledImages | ShaderCompiler/include/glslangSPIRV/SpvPostProcess.cpp:496-506 | the map holds exactly the OpSampledImage results of the module |
| Samplers.SamplerPass.FixInstruction | ShaderCompiler/include/glslangSPIRV/SpvPostProcess.cpp:512-533 | one instruction's operand loop, inserting in front of the instruction while the index moves with it |
| Samplers.SamplerPass.FixBlock | ShaderCompiler/include/glslangSPIRV/SpvPostProcess.cpp:510-536 | a block ends with each of its instructions preceded by the copies for its foreign operands |
| Samplers.FixLocal | ShaderCompiler/include/glslangSPIRV/SpvPostProcess.cpp:507-538 | copies and rewritten users see images only after a definition in their own block |
| Samplers.FixUnique | ShaderCompiler/include/glslangSPIRV/SpvPostProcess.cpp:507-538 | results afterwards are the old ones and the fresh ones, each once |
| Samplers.FixRestored | ShaderCompiler/include/glslangSPIRV/SpvPostProcess.cpp:507-538 | erasing copies and mapping fresh ids back is the identity on the whole module |
| Samplers.FixCopies | ShaderCompiler/include/glslangSPIRV/SpvPostProcess.cpp:516-526 | every copy, whatever the module: opcode, type and two operands are those of an OpSampledImage of the module, and its result is the fresh id that the next original instruction uses in its place |
| Samplers.MidwayStep | ShaderCompiler/include/glslangSPIRV/SpvPostProcess.cpp:515-533 | after each operand the instruction list is the original one with the copies so far in front of the instruction and its first operands replaced |
| Alignment.PostProcessAccess | ShaderCompiler/include/glslangSPIRV/SpvPostProcess.cpp:240-320 | the alignment operand becomes the largest power of two dividing the old operand and all values met; no other operand changes, and accesses through other pointers are left alone |
| Alignment.WalkChain | ShaderCompiler/include/glslangSPIRV/SpvPostProcess.cpp:267-304 | the accumulated bits have exactly the common power-of-two divisors of every Offset, MatrixStride and ArrayStride met, up to the first non-aggregate type |
| Alignment.MetExactly | ShaderCompiler/include/glslangSPIRV/SpvPostProcess.cpp:263-304 | the values merged are exactly the Offset and MatrixStride of the members that the indices select and the ArrayStride of the arrays that they pass |
| Alignment.MergeMember | ShaderCompiler/include/glslangSPIRV/SpvPostProcess.cpp:274-283 | all Offset and MatrixStride decorations of the member are merged and no others |
| Alignment.MergeElement | ShaderCompiler/include/glslangSPIRV/SpvPostProcess.cpp:289-296 | all ArrayStride decorations of the array are merged and no others |
| Alignment.LowestIsLargest | ShaderCompiler/include/glslangSPIRV/SpvPostProcess.cpp:313-318 | clearing all bits but the lowest gives the largest common power of two, and 0 only when every value is 0 |
| Alignment.SkipsMultiples | ShaderCompiler/include/glslangSPIRV/SpvPostProcess.cpp:263-304 | the bytes that offsets, index*stride and column*MatrixStride skip are a multiple of every power of two that divides the values met, for all index values |
| Alignment.AddressIsAligned | ShaderCompiler/include/glslangSPIRV/SpvPostProcess.cpp:245-318 | whenever the base is a multiple of the old operand, the address is a multiple of the new one, and the new one divides the old one |
| Bits.LowestBit | ShaderCompiler/include/glslangSPIRV/SpvPostProcess.cpp:315-316 | `a & ~(a & (a-1))` is the power of two whose exponent bounds exactly the powers of two that divide `a` |
| Bits.OrDivides | ShaderCompiler/include/glslangSPIRV/SpvPostProcess.cpp:263-314 | a power of two divides a bitwise or if and only if it divides both operands |
| StructLayout.UpdateMemberOffset | ShaderCompiler/include/glslangSPIRV/GlslangToSpv.cpp:5958-6034 | the member is placed at the first offset, from the user's offset or the running one on, that is aligned and does not straddle improperly, with the HLSL adjustments; the next offset is its end; without a layout the offset is the user's or -1 |
| StructLayout.BumpedIsFirstFit | ShaderCompiler/include/glslangSPIRV/GlslangToSpv.cpp:6025-6031 | rounding to the alignment and then to 16 finds the least fitting offset, the bump to 16 keeps any power-of-two alignment, and less than alignment + 16 bytes are skipped |
| StructLayout.NextSixteen | ShaderCompiler/include/glslangSPIRV/GlslangToSpv.cpp:6028-6031 | after an improper straddle the next multiple of 16 is aligned, proper, and the first such offset |
| Bits.RoundsUp | ShaderCompiler/include/glslang/Include/Common.h:281-285 | `RoundToPow2`: the result is the least multiple not below the number |
| StructLayout.SixteenIsProper | ShaderCompiler/include/glslang/MachineIndependent/linkValidate.cpp:2571-2578 | no member straddles improperly at a multiple of 16 |
| StructLayout.StraddlesIff | ShaderCompiler/include/glslang/MachineIndependent/linkValidate.cpp:2571-2578 | a vector, or a matrix stored as one vector, straddles improperly if and only if a multiple of 16 lies inside it or, above 16 bytes, it does not start at one |
| StructLayout.SizeToLastComponent | ShaderCompiler/include/glslangSPIRV/GlslangToSpv.cpp:6012-6022 | under HLSL rules a std140 array or matrix ends behind the last component of its last vector, else after the whole stride |
| StructLayout.AlignmentIs | ShaderCompiler/include/glslangSPIRV/GlslangToSpv.cpp:6005-6010 | under HLSL rules exactly single vectors whose components need at most four bytes, outside of arrays and structs, are aligned like their components; everything else is aligned as the packing says |
| StructLayout.StructDecorator.DecorateStructType | ShaderCompiler/include/glslangSPIRV/GlslangToSpv.cpp:5562-5629 | the member loop emits the offsets of `After`: hidden members are skipped, transform-feedback offsets are emitted as they are and do not move the running offset |
| StructLayout.LayoutIsLegal | ShaderCompiler/include/glslangSPIRV/GlslangToSpv.cpp:5562-5629 | with no user offsets, each visible member gets one offset, aligned and properly placed, members are disjoint and in order, and padding before a member is below alignment + 16 |
| StructLayout.LayoutIsTightest | ShaderCompiler/include/glslangSPIRV/GlslangToSpv.cpp:5562-5629 | no legal layout of the same members places any member earlier |
| StructLayout.PlacedIff | ShaderCompiler/include/glslangSPIRV/GlslangToSpv.cpp:5562-5629 | whatever offsets the user gives, a member is placed if and only if it is in the translated struct, is not filtered from a block, and has a transform-feedback offset or a layout |
| StructLayout.PlacementsAre | ShaderCompiler/include/glslangSPIRV/GlslangToSpv.cpp:5562-5629 | each placement is for its member's index in the translated struct, and at the transform-feedback offset where there is one |
| ShaderAst.PureKeepsStore | ShaderCompiler/include/glslangSPIRV/GlslangToSpv.cpp:10740-10743 | an expression without effectful operators leaves the store as it is |
| LoweringCorrect.TrivialIsPure | ShaderCompiler/include/glslangSPIRV/GlslangToSpv.cpp:10711-10795 | in GLSL a scalar operand judged trivial has no side effects and no operator that may fail |
| LoweringCorrect.BothSidesArePure | ShaderCompiler/include/glslangSPIRV/GlslangToSpv.cpp:4446-4473 | when both sides of a short-circuiting selection are evaluated, neither has side effects |
| Lowering.RightOperandInline | ShaderCompiler/include/glslangSPIRV/GlslangToSpv.cpp:10711-10795 | a scalar right operand is translated without new blocks if and only if it is a constant or a symbol of seven storage classes, or one of thirteen operations on such |
| Lowering.ChoiceInline | ShaderCompiler/include/glslangSPIRV/GlslangToSpv.cpp:4446-4553 | a selection between leaves makes no blocks if and only if its type can be selected and, where it short-circuits, both sides are symbols or constants |
| Lowering.LowerExpr | ShaderCompiler/include/glslangSPIRV/GlslangToSpv.cpp:2438-2485 | translating an expression only appends to the build point and adds blocks, leaves an open build point, restores the builder's stacks, and returns an id below the next one |
| LoweringCorrect.SimExpr | ShaderCompiler/include/glslangSPIRV/GlslangToSpv.cpp:2438-2485 | the blocks made for an expression compute its value and its effects, in evaluation order, for any operators |
| LoweringCorrect.SimStrict | ShaderCompiler/include/glslangSPIRV/GlslangToSpv.cpp:2445-2485 | evaluating a trivial right operand unconditionally gives the value and effects of the short-circuiting operator |
| LoweringCorrect.SimShortCircuit | ShaderCompiler/include/glslangSPIRV/GlslangToSpv.cpp:10799-10842 | the right operand runs exactly when the left one does not decide, and OpPhi picks the right value for both operators |
| LoweringCorrect.SimBothSides | ShaderCompiler/include/glslangSPIRV/GlslangToSpv.cpp:4446-4553 | evaluating both sides and selecting, by OpSelect or by storing in a variable, has the selection's value and effects |
| LoweringCorrect.SimOneSide | ShaderCompiler/include/glslangSPIRV/GlslangToSpv.cpp:4555-4600 | exactly the selected side is executed and its value is the result |
| Lowering.BeginIfShape | ShaderCompiler/include/glslangSPIRV/SpvBuilder.cpp:4002-4023 | opening an if leaves the header unterminated with its merge declared and two new empty blocks |
| Lowering.OneArmed | ShaderCompiler/include/glslangSPIRV/SpvBuilder.cpp:4040-4055 | closing an if without else: the header branches to then or merge, the arm to merge, nothing else changes |
| Lowering.TwoArmed | ShaderCompiler/include/glslangSPIRV/SpvBuilder.cpp:4026-4055 | closing an if with else: the header branches to the two arms, both arms to merge, nothing else changes |
| StatementLowering.LowerStmt | ShaderCompiler/include/glslangSPIRV/GlslangToSpv.cpp:4426-4800 | translating a statement touches no finished block, adds only its own blocks, restores loop, switch and break stacks, and leaves an open build point |
| StatementLowering.LowerItems | ShaderCompiler/include/glslangSPIRV/GlslangToSpv.cpp:4652-4661 | emitting segments changes only segment blocks and new blocks and restores the stacks |
| StatementLowering.TestFirstSteps | ShaderCompiler/include/glslangSPIRV/GlslangToSpv.cpp:4698-4717 | in a while or for loop the body runs with break to the loop's merge block and continue to its continue target |
| StatementLowering.TestLastSteps | ShaderCompiler/include/glslangSPIRV/GlslangToSpv.cpp:4718-4743 | in a do-while loop, or one without test, the body runs with the same targets and the test comes after the terminal expression |
| StatementCorrect.SimReturn | ShaderCompiler/include/glslangSPIRV/GlslangToSpv.cpp:4778-4796 | a return ends the run with the value of its expression after the expression's effects |
| StatementCorrect.AfterBodyRun | ShaderCompiler/include/glslangSPIRV/GlslangToSpv.cpp:4707-4714 | a body that ends normally or by continue gets to the continue target with its store |
| SwitchCorrect.CaseTarget | ShaderCompiler/include/glslangSPIRV/SpvBuilder.cpp:4080-4084 | the switch operands send a value to the segment after its case label |
| SwitchCorrect.DefaultTarget | ShaderCompiler/include/glslangSPIRV/GlslangToSpv.cpp:4631-4633 | the default segment is the one after the last default label |
| SwitchCorrect.LastCase | ShaderCompiler/include/glslangSPIRV/GlslangToSpv.cpp:4641-4645 | a case label that no code follows is the last entry of the table, so the extra segment is made for it |
| SwitchCorrect.SelectedTarget | ShaderCompiler/include/glslangSPIRV/SpvBuilder.cpp:4073-4085 | for every value the switch goes to the selected label's segment, which exists, or to the merge block |
| LoweringTheorem.SimIf | ShaderCompiler/include/glslangSPIRV/GlslangToSpv.cpp:4555-4600 | the blocks of an if statement, with or without else, run exactly the selected arm and go on after it, unless the arm leaves |
| LoweringTheorem.SimTestFirst | ShaderCompiler/include/glslangSPIRV/GlslangToSpv.cpp:4698-4717 | loops that test first follow the program for any number of iterations, through break and continue |
| LoweringTheorem.SimTestLast | ShaderCompiler/include/glslangSPIRV/GlslangToSpv.cpp:4718-4743 | do-while loops and loops without test follow the program |
| LoweringTheorem.SimSwitch | ShaderCompiler/include/glslangSPIRV/GlslangToSpv.cpp:4614-4666 | switches follow the program through fall-through, break, nested loops and a missing last segment |
| LoweringTheorem.SimStmt | ShaderCompiler/include/glslangSPIRV/GlslangToSpv.cpp:4426-4800 | every statement's blocks end where the statement ends: at the build point, at the innermost right break or continue target, or at a return or discard, with the program's store; a program out of fuel has made as many steps |
| FunctionLowering.NestedOutcome | ShaderCompiler/include/glslangSPIRV/GlslangToSpv.cpp:4769-4777 | break and continue never leave a statement that is not inside something to leave |
| FunctionLowering.RunBody | ShaderCompiler/include/glslangSPIRV/SpvBuilder.cpp:2729-2742 | the run of a whole body, including the return that is added at its end, with an undefined value in a function that has a result |
| FunctionLowering.LoweredBodyAgrees | ShaderCompiler/include/glslangSPIRV/GlslangToSpv.cpp:4426-4800 | the blocks of a function body end if and only if the program does, with the same outcome, returned value and store, whatever values ids start with and whatever operators do that fail on some operands, so the blocks fail only when the program does; and no run gets stuck |
| Traverser.GlslangToSpv.VisitExpr | ShaderCompiler/include/glslangSPIRV/GlslangToSpv.cpp:2438-2485 | the traverser, changing the builder's state step by step, makes exactly the blocks of `LowerExpr` |
| Traverser.GlslangToSpv.CreateShortCircuit | ShaderCompiler/include/glslangSPIRV/GlslangToSpv.cpp:10799-10842 | makes exactly the blocks of a short-circuited operator, which never evaluate the right operand needlessly |
| Traverser.GlslangToSpv.VisitSelection | ShaderCompiler/include/glslangSPIRV/GlslangToSpv.cpp:4426-4612 | makes exactly the blocks of a selection, by the same choice between evaluating both sides and one |
| Traverser.GlslangToSpv.ExecuteOneSide | ShaderCompiler/include/glslangSPIRV/GlslangToSpv.cpp:4555-4600 | makes exactly the blocks that evaluate one side |
| Traverser.GlslangToSpv.SelectByVariable | ShaderCompiler/include/glslangSPIRV/GlslangToSpv.cpp:4523-4551 | makes exactly the blocks that store one of two values and load it |
| Traverser.GlslangToSpv.VisitStmt | ShaderCompiler/include/glslangSPIRV/GlslangToSpv.cpp:4426-4800 | makes exactly the blocks of `LowerStmt`, for any statement |
| Traverser.GlslangToSpv.VisitIf | ShaderCompiler/include/glslangSPIRV/GlslangToSpv.cpp:4555-4600 | makes exactly the blocks of an if statement |
| Traverser.GlslangToSpv.VisitLoop | ShaderCompiler/include/glslangSPIRV/GlslangToSpv.cpp:4680-4747 | makes exactly the blocks of a loop, pushing and popping the loop and break stacks |
| Traverser.GlslangToSpv.VisitBranch | ShaderCompiler/include/glslangSPIRV/GlslangToSpv.cpp:4749-4796 | ends the build point with the branch to the current target, the return or the kill |
| Traverser.GlslangToSpv.VisitSwitch | ShaderCompiler/include/glslangSPIRV/GlslangToSpv.cpp:4614-4666 | makes exactly the blocks of a switch, pushing and popping the switch and break stacks |
| Traverser.GlslangToSpv.CollectSegments | ShaderCompiler/include/glslangSPIRV/GlslangToSpv.cpp:4623-4645 | sorting the children gives the code segments, each case value with the number of segments before it, the last default's number, and one more segment if the last label has no code |
| Traverser.GlslangToSpv.MakeSwitchBlocks | ShaderCompiler/include/glslangSPIRV/SpvBuilder.cpp:4058-4089 | makes the segment blocks and the merge block and ends the header with the switch |
| Traverser.GlslangToSpv.EmitSegments | ShaderCompiler/include/glslangSPIRV/GlslangToSpv.cpp:4652-4661 | emits each segment in its block, falling through, and a break in the extra one |
| Traverser.GlslangToSpv.NextSwitchSegment | ShaderCompiler/include/glslangSPIRV/SpvBuilder.cpp:4100-4111 | falls through into the segment unless the build point is terminated |
| Traverser.GlslangToSpv.FinishSwitch | ShaderCompiler/include/glslangSPIRV/SpvBuilder.cpp:4114-4124 | ends the last segment and goes on at the merge block on top of the stack, which is popped |
| Traverser.GlslangToSpv.MakeNewLoopBlocks | ShaderCompiler/include/glslangSPIRV/SpvBuilder.cpp:4134-4147 | makes the four blocks of a loop and pushes them |
| Traverser.GlslangToSpv.MakeStatementTerminator | ShaderCompiler/include/glslangSPIRV/SpvBuilder.cpp:2752-2756 | what follows a terminator goes to a block that nothing branches to |
| Traverser.GlslangToSpv.TranslateBody | ShaderCompiler/include/glslangSPIRV/SpvBuilder.cpp:2729-2742 | the body is followed by a return, with an undefined value in a function that has a result |
| UserCalls.CallBuilder.HandleUserFunctionCall | ShaderCompiler/include/glslangSPIRV/GlslangToSpv.cpp:7046-7131 | the three loops emit the code of `CallCode`, with counters into the saved l-values and r-values |
| UserCalls.CallBuilder.EvaluateArguments | ShaderCompiler/include/glslangSPIRV/GlslangToSpv.cpp:7046-7064 | saves l-values and evaluates r-values, each in argument order |
| UserCalls.CallBuilder.PrepareArguments | ShaderCompiler/include/glslangSPIRV/GlslangToSpv.cpp:7069-7110 | each argument is prepared from what was saved for it |
| UserCalls.CallBuilder.CopyBackArguments | ShaderCompiler/include/glslangSPIRV/GlslangToSpv.cpp:7117-7131 | each out and inout argument is copied back to its own l-value |
| UserCalls.SavedFor | ShaderCompiler/include/glslangSPIRV/GlslangToSpv.cpp:7074-7109 | counting arguments of a kind finds the l-value or r-value that the same argument saved |
| UserCalls.AfterPrepared | ShaderCompiler/include/glslangSPIRV/GlslangToSpv.cpp:7069-7110 | before the call the function gets, for each parameter, its original, its copied-in value, an empty place, or its value |
| UserCalls.AfterCopiedBack | ShaderCompiler/include/glslangSPIRV/GlslangToSpv.cpp:7117-7131 | afterwards memory is the left-to-right fold of the copy-backs |
| UserCalls.CallIsCopyInCopyOut | ShaderCompiler/include/glslangSPIRV/GlslangToSpv.cpp:7046-7131 | for any mix of parameters the code implements copy-in, call and copy-out of GLSL 4.60 section 6.1.1 |
| StringLiterals.StringRoundTrip | ShaderCompiler/include/glslangSPIRV/GlslangToSpv.cpp:1421-1443 | for every nul-free string, reading the packed words gives the string, whatever stands around them |
| StringLiterals.PaddingIsZero | ShaderCompiler/include/glslangSPIRV/GlslangToSpv.cpp:1438-1443 | the packed bytes are the string followed by one to four zeros (SPIR-V section 2.2.1) |
| StringLiterals.PackString | ShaderCompiler/include/glslangSPIRV/GlslangToSpv.cpp:1421-1443 | the character loop with its four-byte buffer produces the packed words, (length + 4) / 4 of them |
| StringLiterals.LiteralString | ShaderCompiler/include/glslangSPIRV/SPVRemapper.cpp:307-325 | the shifting loop reads the characters before the first zero |
| StringLiterals.StringFits | ShaderCompiler/include/glslangSPIRV/SPVRemapper.h:212 | a string that can be read occupies (length + 4) / 4 words of the module and has no zero in it |
| StringLiterals.StringShifted | ShaderCompiler/include/glslangSPIRV/SPVRemapper.cpp:307-325 | what is read depends on those words only |
| Binary.OperandIds | ShaderCompiler/include/glslangSPIRV/SPVRemapper.cpp:581-725 | id positions are inside the instruction and strictly increasing |
| Binary.InstIds | ShaderCompiler/include/glslangSPIRV/SPVRemapper.cpp:549-573 | id positions of a whole instruction are inside it, strictly increasing, and never its first word |
| Binary.OperandIdsStable | ShaderCompiler/include/glslangSPIRV/SPVRemapper.cpp:581-725 | id positions do not change when only words at id positions change and switch selectors keep their literal sizes |
| Binary.InstIdsStable | ShaderCompiler/include/glslangSPIRV/SPVRemapper.cpp:531-728 | a renamed instruction has its ids at the same positions, also an OpSwitch whose selector was renamed |
| OperandGrammar.DecodeWrittenIff | ShaderCompiler/include/glslangSPIRV/SPVRemapper.cpp:531-728 | instructions are written operand by operand (ids, literals, strings, memory access and tensor masks with what they bring, lists, switch cases, an embedded opcode, extended instructions); their words decode to just what was written, with exactly the ids marked as ids, if and only if no memory access both makes available and makes visible |
| OperandGrammar.WrittenRenamed | ShaderCompiler/include/glslangSPIRV/SPVRemapper.cpp:327-342 | replacing the ids in the words gives the words of the instructions with their ids replaced: masks, alignments, strings and literals stay |
| OperandGrammar.CopyMemoryLosesScope | ShaderCompiler/include/glslangSPIRV/SPVRemapper.cpp:660-665 | an OpCopyMemory whose mask has both bits: its second scope is not found to be an id |
| RemapBinary.EncodeDecode | ShaderCompiler/include/glslangSPIRV/SPVRemapper.cpp:731-751 | encoding the decoded instructions gives the words back |
| RemapBinary.DecodeRenamed | ShaderCompiler/include/glslangSPIRV/SPVRemapper.cpp:327-342 | replacing ids in the words and decoding equals decoding and renaming: opcodes, word counts, literals, strings and switch literals stay |
| RemapBinary.RenameBack | ShaderCompiler/include/glslangSPIRV/SPVRemapper.cpp:327-342 | applying the inverse map restores the words |
| RemapBinary.SpirvBin.ApplyMap | ShaderCompiler/include/glslangSPIRV/SPVRemapper.cpp:327-342 | all instructions in place: the header stays and the words become the renamed ones |
| RemapBinary.SpirvBin.MapInstruction | ShaderCompiler/include/glslangSPIRV/SPVRemapper.cpp:531-728 | one instruction in place: exactly its id words are mapped, nothing else in the module changes |
| RemapBinary.SpirvBin.MapOperands | ShaderCompiler/include/glslangSPIRV/SPVRemapper.cpp:575-728 | the operand loop with its circular buffer of four ids, which holds the old selector when OpSwitch looks up its literal size mid-rewrite |
| RemapBinary.SpirvBin.MapLabels | ShaderCompiler/include/glslangSPIRV/SPVRemapper.cpp:617-638 | the labels of a switch, between literals of any size |
| RemapBinary.SpirvBin.MapAccess | ShaderCompiler/include/glslangSPIRV/SPVRemapper.cpp:654-669 | the id that a memory access mask brings, after an alignment literal if there is one |
| RemapBinary.SpirvBin.MapTensor | ShaderCompiler/include/glslangSPIRV/SPVRemapper.cpp:671-686 | the ids that a tensor addressing mask brings |
| RemapBinary.SpirvBin.MapExtInst | ShaderCompiler/include/glslangSPIRV/SPVRemapper.cpp:560-573 | extended instructions: everything but the instruction number is an id |
| Strip.FirstDecides | ShaderCompiler/include/glslangSPIRV/SPVRemapper.cpp:1470-1474 | in sorted ranges, overlapping, nested or repeated, the first one not yet passed decides whether a word is covered |
| Strip.Stripper.Strip | ShaderCompiler/include/glslangSPIRV/SPVRemapper.cpp:1456-1478 | the words left are exactly those covered by no range, in order, and no range is left |
| Strip.SortRanges | ShaderCompiler/include/glslangSPIRV/SPVRemapper.cpp:1462 | sorted, and the same ranges |
| Strip.StripInsts | ShaderCompiler/include/glslangSPIRV/SPVRemapper.h:264 | ranges of whole instructions leave the header and the words of the other instructions |
| Strip.StrippedDecodes | ShaderCompiler/include/glslangSPIRV/SPVRemapper.cpp:1456-1481 | the result decodes to the instructions that were not stripped, in order |
| WordPasses.RenamedInsts | ShaderCompiler/include/glslangSPIRV/SPVRemapper.cpp:327-342 | replacing the id words of instructions is renaming them |
| WordPasses.StripThenMap | ShaderCompiler/include/glslangSPIRV/SPVRemapper.cpp:1456-1481 | stripping the words of whole instructions and then replacing ids decodes to the other instructions, in order and renamed; this joins the passes on words with those on instructions |
| WordPasses.StripAndMap | ShaderCompiler/include/glslangSPIRV/SPVRemapper.cpp:1456-1481 | both passes in place, one after the other, give such words, and the header stays |
| IdMap.SetAddsOne | ShaderCompiler/include/glslangSPIRV/SPVRemapper.h:255-260 | setting a bit after growing the bit set adds exactly that id |
| IdMap.Mapper.SetMapped | ShaderCompiler/include/glslangSPIRV/SPVRemapper.h:258 | the set of new ids in use grows by the id |
| IdMap.Mapper.NextUnusedId | ShaderCompiler/include/glslangSPIRV/SPVRemapper.cpp:259-265 | the first id from the start on that is not in use |
| IdMap.Mapper.LocalId | ShaderCompiler/include/glslangSPIRV/SPVRemapper.cpp:267-303 | an entry is set; ids above the bound, unused ids, mapped ids and taken new ids are errors that give no id a new one |
| IdMap.Mapper.BuildIdMap | ShaderCompiler/include/glslangSPIRV/SPVRemapper.cpp:418-503 | exactly the ids of the module are marked unmapped; there is an error if and only if some id is above the bound, so an id equal to the bound passes |
| IdMap.IdAtBound | ShaderCompiler/include/glslangSPIRV/SPVRemapper.cpp:271-274 | an id equal to the bound of the header is marked without an error |
| IdMap.SearchEnds | ShaderCompiler/include/glslangSPIRV/SPVRemapper.cpp:259-265 | pigeonhole: a search from a start passes fewer ids than there are ids in use |
| IdMap.ImageSize | ShaderCompiler/include/glslangSPIRV/SPVRemapper.cpp:267-303 | there are at most as many new ids as mapped ids |
| IdMap.MapOne | ShaderCompiler/include/glslangSPIRV/SPVRemapper.cpp:267-303 | mapping one id to a free one keeps the map injective and the bit set equal to its image |
| IdMap.Mapper.MapByHash | ShaderCompiler/include/glslangSPIRV/SPVRemapper.cpp:1440-1452 | for any hash values each request ends mapped, without an error, and an id requested first here gets the first free new id from its hash, modulo the limit, above the first id; no other entry changes |
| IdMap.Mapper.MapTypeConst | ShaderCompiler/include/glslangSPIRV/SPVRemapper.cpp:1431-1453 | every type and constant ends with its own new id, the first free one from its hash modulo 3011 above 8, without an error; other entries stay |
| IdMap.Mapper.MapNames | ShaderCompiler/include/glslangSPIRV/SPVRemapper.cpp:754-770 | every named id that is still unmapped gets the first free new id from its hash modulo 3011 above 3019, without an error; other entries stay |
| IdMap.Mapper.MapFnBodies | ShaderCompiler/include/glslangSPIRV/SPVRemapper.cpp:773-901 | both passes over function bodies give the first free new id from the hash modulo 19071 above 6203 and keep the map injective and the bit set equal to its image, without an error; other entries stay |
| IdMap.Mapper.MapRemainder | ShaderCompiler/include/glslangSPIRV/SPVRemapper.cpp:345-376 | every id left gets a new one below which all ids from 1 on are in use, and the bound is one more than the largest new id |
| IdMap.Mapper.AssignIds | ShaderCompiler/include/glslangSPIRV/SPVRemapper.cpp:345-376 | over all four passes: no error, the map is injective and total on used ids, never 0 or a sentinel, the bit set equals its image, the bound is tight and at most 25273 + N for N used ids, and each new id is the first free one from where the first request for the old id says, or from 1 |
| Survival.SurvivorsExactly | ShaderCompiler/include/glslangSPIRV/SPVRemapper.cpp:1126-1166 | what is left after removing unreferenced nodes until none is left is exactly what roots and cycles lead to |
| Survival.AcyclicSurvivors | ShaderCompiler/include/glslangSPIRV/SPVRemapper.cpp:1126-1166 | without cycles it is exactly what is reachable from the roots |
| Survival.OnlyReachableIff | ShaderCompiler/include/glslangSPIRV/SPVRemapper.cpp:1126-1166 | only reachable nodes are left if and only if every cycle is reachable |
| Survival.ChainSurvives | ShaderCompiler/include/glslangSPIRV/SPVRemapper.cpp:1131-1135 | everything that a chain from a root leads to survives |
| DeadFunctions.CallCounter.BuildCalls | ShaderCompiler/include/glslangSPIRV/SPVRemapper.cpp:467-487 | the counts are the numbers of calls in the module |
| DeadFunctions.CallCounter.Uncount | ShaderCompiler/include/glslangSPIRV/SPVRemapper.cpp:1143-1158 | after the calls of a removed function are taken out, the counts are those of the rest |
| DeadFunctions.CallCounter.DceFuncs | ShaderCompiler/include/glslangSPIRV/SPVRemapper.cpp:1121-1167 | whatever the order of iteration: the functions left are the largest set whose members are the entry point or called from the set, and the counts are the calls in it; it ends because functions run out |
| DeadFunctions.CycleSurvives | ShaderCompiler/include/glslangSPIRV/SPVRemapper.cpp:1126-1166 | two functions that call only each other are kept, although no chain of calls leads to them |
| RemapPasses.CalledFnStays | ShaderCompiler/include/glslangSPIRV/SPVRemapper.cpp:1121-1167 | no instruction of a function that the entry point calls, directly or not, is removed |
| RemapPasses.DeadFnIff | ShaderCompiler/include/glslangSPIRV/SPVRemapper.cpp:1121-1167 | without recursion an instruction in a function is removed if and only if no chain of calls leads from the entry point to its function |
| RemapPasses.DeadFnUnused | ShaderCompiler/include/glslangSPIRV/SPVRemapper.cpp:1121-1167 | nothing outside dead functions uses an id defined in one, debug instructions aside |
| DeadVars.DceVars | ShaderCompiler/include/glslangSPIRV/SPVRemapper.cpp:1170-1213 | exactly the variables, names and decorations with use count one are marked |
| DeadVars.MarkedIff | ShaderCompiler/include/glslangSPIRV/SPVRemapper.cpp:1177-1193 | a variable is marked if and only if nothing counts it again: no interface list, no second declaration, no use after it |
| DeadVars.MarkedUnused | ShaderCompiler/include/glslangSPIRV/SPVRemapper.cpp:1198-1212 | a marked variable is used by debug instructions only |
| DeadVars.MarkedOps | ShaderCompiler/include/glslangSPIRV/SPVRemapper.cpp:1198-1212 | only OpVariable, OpName and OpDecorate are marked |
| DeadVars.DebugMarkedIff | ShaderCompiler/include/glslangSPIRV/SPVRemapper.cpp:1204-1208 | a name or decoration of a variable is marked if and only if nothing counts the variable again |
| DeadVars.OthersUnmarked | ShaderCompiler/include/glslangSPIRV/SPVRemapper.cpp:1204-1208 | a name or decoration of an id that no variable declares and no entry point lists is not marked |
| DeadVars.EntryPointCounts | ShaderCompiler/include/glslangSPIRV/SPVRemapper.cpp:1182-1186 | of an entry point the interface variables are counted, and all words of its name but the first |
| DeadVars.InterfaceStays | ShaderCompiler/include/glslangSPIRV/SPVRemapper.cpp:1182-1186 | a variable in the interface of an entry point is never marked |
| DeadTypes.DceTypes | ShaderCompiler/include/glslangSPIRV/SPVRemapper.cpp:1216-1255 | the fixpoint is the largest part of the module in which every type and constant is used by the part, and nothing in it is counted once; it ends because instructions run out |
| DeadTypes.DeadTypeIff | ShaderCompiler/include/glslangSPIRV/SPVRemapper.cpp:1216-1255 | when types and constants come before their users, exactly those that no other instruction uses, directly or through types and constants, are removed |
| DeadTypes.CountedOnce | ShaderCompiler/include/glslangSPIRV/SPVRemapper.cpp:1234-1250 | a type or constant is counted once if and only if nothing refers to it |
| DeadTypes.RemovedUnmentioned | ShaderCompiler/include/glslangSPIRV/SPVRemapper.cpp:1242-1250 | nothing that is left mentions the id of a removed type or constant |
| DeadTypes.FixpointSustained | ShaderCompiler/include/glslangSPIRV/SPVRemapper.cpp:1228-1254 | when nothing is counted once, everything left is used by what is left |
| RemapPasses.StripDebug | ShaderCompiler/include/glslangSPIRV/SPVRemapper.cpp:379-390 | exactly the debug instructions are marked whose text contains no white-listed string |
| DebugText.FindListed | ShaderCompiler/include/glslangSPIRV/SPVRemapper.cpp:168-178 | looks for each white-listed string in the text read at the second operand word |
| RemapPasses.NameKeptIff | ShaderCompiler/include/glslangSPIRV/SPVRemapper.cpp:159-181 | an OpName is kept if and only if a string of the white list stands in its name |
| RemapPasses.NothingListed | ShaderCompiler/include/glslangSPIRV/SPVRemapper.cpp:159-181 | without a white list the instructions stripped are OpSource, OpSourceExtension, OpName, OpMemberName and OpLine |
| DebugText.MemberNameKeptIff | ShaderCompiler/include/glslangSPIRV/SPVRemapper.cpp:159-181 | an OpMemberName is kept if and only if the bytes of the member's number up to a zero, and the name only behind four bytes that are not zero, contain a white-listed string |
| DebugText.ListedMemberNameIsLost | ShaderCompiler/include/glslangSPIRV/SPVRemapper.cpp:159-181 | a white-listed name of a first member that is stripped |
| RemapPasses.StripDeadRefs | ShaderCompiler/include/glslangSPIRV/SPVRemapper.cpp:393-415 | exactly the names and decorations of ids without a definition are marked |
| RemapPasses.DeadRefsGone | ShaderCompiler/include/glslangSPIRV/SPVRemapper.cpp:393-415 | afterwards every id that is mentioned is defined |
| ModuleShape.RemoveClosed | ShaderCompiler/include/glslangSPIRV/SPVRemapper.cpp:1456-1481 | removing instructions whose ids are used only by what goes with them keeps every other id defined |
| ModuleShape.CompactTwice | ShaderCompiler/include/glslangSPIRV/SPVRemapper.cpp:1456-1481 | stripping twice is stripping once |
| FunctionShape.RemoveKeepsReady | ShaderCompiler/include/glslangSPIRV/SPVRemapper.cpp:1484-1541 | removing instructions without results keeps what the later passes need |
| FunctionShape.ShaderIsReady | ShaderCompiler/include/glslangSPIRV/SPVRemapper.cpp:1484-1541 | a fragment shader with an entry point, an execution mode and an output variable meets what the passes ask for |
| OptLoadStoreShape.OptKeepsReady | ShaderCompiler/include/glslangSPIRV/SPVRemapper.cpp:972-1118 | load/store forwarding keeps ids defined once, in their functions and below the bound |
| Remap.RenameClosed | ShaderCompiler/include/glslangSPIRV/SPVRemapper.cpp:327-342 | a one-to-one renaming keeps a module closed |
| Remap.Remapper.Prepare | ShaderCompiler/include/glslangSPIRV/SPVRemapper.cpp:1496-1503 | debug stripping and load/store forwarding, each if chosen |
| Remap.Remapper.RemoveDeadCode | ShaderCompiler/include/glslangSPIRV/SPVRemapper.cpp:1508-1518 | dead functions, unused variables and unused types, each if chosen, are gone and nothing else is |
| Remap.VariableDebugKeptIff | ShaderCompiler/include/glslangSPIRV/SPVRemapper.cpp:1508-1518 | after dead code removal a name or decoration of a variable, outside of functions, is left if and only if something counts the variable again or unused variables are not to be removed |
| Remap.Remapper.CleanUp | ShaderCompiler/include/glslangSPIRV/SPVRemapper.cpp:1520-1521 | names and decorations of ids without a definition are gone, and the module is closed |
| Remap.Remapper.ChooseIds | ShaderCompiler/include/glslangSPIRV/SPVRemapper.cpp:1525-1536 | exactly the used ids get new names, one to one, from 1 to a tight bound of at most 25273 plus their number |
| Remap.Remapper.MapIds | ShaderCompiler/include/glslangSPIRV/SPVRemapper.cpp:1525-1540 | the module is renamed by such a map and its header bound is set |
| Remap.Remapper.Remap | ShaderCompiler/include/glslangSPIRV/SPVRemapper.cpp:1484-1541 | for any combination of options: every id of the result is defined, once, and below the header bound, and the result is what the chosen passes make of the module one after the other |
| Remap.NothingChosen | ShaderCompiler/include/glslangSPIRV/SPVRemapper.cpp:1484-1541 | without any option only names and decorations of undefined ids are removed |
| OptLoadStore.FindCandidates | ShaderCompiler/include/glslangSPIRV/SPVRemapper.cpp:979-1065 | after each instruction the candidate set, the stored values and the block numbers describe every local variable declared so far |
| OptLoadStore.TrackInstruction | ShaderCompiler/include/glslangSPIRV/SPVRemapper.cpp:981-1064 | one instruction keeps that invariant in every case |
| OptLoadStore.TrackLoad | ShaderCompiler/include/glslangSPIRV/SPVRemapper.cpp:1001-1025 | a load before any store, a volatile load, or a load in another block drops the variable |
| OptLoadStore.TrackStore | ShaderCompiler/include/glslangSPIRV/SPVRemapper.cpp:1027-1053 | a second store or a store in another block drops the variable; a volatile store erases its mask word, not the variable |
| OptLoadStore.DropMentioned | ShaderCompiler/include/glslangSPIRV/SPVRemapper.cpp:1058-1064 | any other mention drops the variable |
| OptLoadStore.CandidatesExactly | ShaderCompiler/include/glslangSPIRV/SPVRemapper.cpp:979-1065 | a variable is a candidate if and only if it is an uninitialized local with one store, only non-volatile loads after it, all accesses in one block, no other use, and no volatile store to a variable that was then a candidate has a mask word equal to its id |
| OptLoadStore.RemovedVariableIff | ShaderCompiler/include/glslangSPIRV/SPVRemapper.cpp:979-1065 | in the words of the instructions: a local variable without initializer goes if and only if it is never mentioned again, or stored to once and after that only loaded, in the same block and by loads whose memory-access word is even; asked only of variables whose number is no volatile store's memory-access word |
| OptLoadStore.VolatileLoadsStay | ShaderCompiler/include/glslangSPIRV/SPVRemapper.cpp:1010-1014 | no load whose memory-access word is odd is removed |
| OptLoadStore.VolatileStoreRemovedIff | ShaderCompiler/include/glslangSPIRV/SPVRemapper.cpp:1027-1053 | a store whose memory-access word is odd is removed if and only if its variable is a candidate in that sense |
| OptLoadStore.VolatileStoreIsRemoved | ShaderCompiler/include/glslangSPIRV/SPVRemapper.cpp:1038-1042 | a concrete function whose volatile store is removed: the code erases the mask word instead of the variable |
| OptLoadStore.LoadHasStore | ShaderCompiler/include/glslangSPIRV/SPVRemapper.cpp:1004-1022 | each load of a candidate has a store of it earlier in the same block |
| OptLoadStore.OneStore | ShaderCompiler/include/glslangSPIRV/SPVRemapper.cpp:1030-1036 | a candidate is stored to at one place |
| OptLoadStore.LinkLoads | ShaderCompiler/include/glslangSPIRV/SPVRemapper.cpp:1070-1076 | each removed load is linked to the value stored to its variable |
| OptLoadStore.LinksDescend | ShaderCompiler/include/glslangSPIRV/SPVRemapper.cpp:1081-1093 | each link goes to something defined strictly earlier, so chains end |
| OptLoadStore.RootAfterUpdate | ShaderCompiler/include/glslangSPIRV/SPVRemapper.cpp:1087-1093 | shortening one chain changes the end of no chain |
| OptLoadStore.ChaseChains | ShaderCompiler/include/glslangSPIRV/SPVRemapper.cpp:1087-1093 | whatever the order, each entry ends as the end of its original chain; the inner loop terminates |
| OptLoadStore.OptLoadStore | ShaderCompiler/include/glslangSPIRV/SPVRemapper.cpp:972-1118 | the pass as a whole: candidates' instructions are gone and every other instruction is renamed by the chain ends |
| OptLoadStoreMeaning.CellHoldsStored | ShaderCompiler/include/glslangSPIRV/SPVRemapper.cpp:1016-1022 | between store and load the variable holds the stored value |
| OptLoadStoreMeaning.LoadedValue | ShaderCompiler/include/glslangSPIRV/SPVRemapper.cpp:1070-1076 | as long as the stored id is not computed anew, the result of a removed load equals it |
| OptLoadStoreCorrect.ChainValue | ShaderCompiler/include/glslangSPIRV/SPVRemapper.cpp:1087-1093 | wherever a removed load dominates, its result equals the end of its chain, also around loops |
| OptLoadStoreCorrect.PhiSame | ShaderCompiler/include/glslangSPIRV/SPVRemapper.cpp:1109-1111 | an OpPhi selects the same value before and after, from the values at the end of the predecessor |
| OptLoadStoreCorrect.Simulation | ShaderCompiler/include/glslangSPIRV/SPVRemapper.cpp:972-1118 | after every run the states agree on memory, world and all ids and variables that are still there |
| OptLoadStoreTheorem.RunShrinks | ShaderCompiler/include/glslangSPIRV/SPVRemapper.cpp:1095-1117 | every run of the function is, without the removed instructions, a run of the optimized module |
| OptLoadStoreTheorem.NoNewRuns | ShaderCompiler/include/glslangSPIRV/SPVRemapper.cpp:1095-1117 | every run of the optimized function comes from a run of the original one |
| OptLoadStoreTheorem.OptimizedRunAgrees | ShaderCompiler/include/glslangSPIRV/SPVRemapper.cpp:972-1118 | on every execution trace the optimized module reaches an agreeing state |
| OptLoadStoreTheorem.SurvivorReadsAlike | ShaderCompiler/include/glslangSPIRV/SPVRemapper.cpp:972-1118 | every surviving instruction is executed with the same opcode, type, literals and operand values |
| OptLoadStoreVolatile.VolatileEvents | ShaderCompiler/include/glslangSPIRV/SPVRemapper.cpp:972-1118 | the volatile accesses along every run, with their operand values, loaded value and world: the optimized function has those of the original one in order, but for the stores to candidates |
| OptLoadStoreVolatile.VolatileKeptIff | ShaderCompiler/include/glslangSPIRV/SPVRemapper.cpp:1010-1042 | all volatile accesses of a run are kept if and only if it passes no volatile store that is removed |

## Left out

Program meaning and lowering:

- Values and states of memory are numbers, operators and the reading of leaves are arbitrary functions of them; floating point, precision and decorations do not appear. Arithmetic and conversions other than to bool may fail, comparisons and logic do not; operations on specialization constants are done before the program runs.
- Index operators are ordinary operators here; access chains, swizzles and multi-type stores are not modelled.
- Void selections, widening a scalar condition to a vector before SPIR-V 1.4, and copying operands of differently decorated types are not modelled.
- OpTerminateInvocation behaves like discard; demoting to a helper invocation (SPIR-V 1.6) does not end a statement and is left out.
- A value returned with another type or precision goes through a copy in the source; here it is returned directly.
- An undefined value is an arbitrary function of the store here, so it is the same each time it is made in one store.
- The order in which the builder appends blocks to a function is not modelled; blocks are named by when they are made.
- UserCalls.CallIsCopyInCopyOut: evaluating an argument has no side effects and does not change the places of other arguments, as in the source's own assumption.
- UserCalls: which arguments are passed by original depends on the argument's type; that decision is a parameter here.

Post-processing:

- getMemberAlignment and getBaseAlignmentScalar are not part of this model: alignments and sizes of member types are parameters, with alignments that are powers of two.
- StructLayout.LayoutIsLegal: members with user or transform-feedback offsets are placed as the source places them, but nothing is promised about overlaps with them.
- Alignment.AddressIsAligned: the selection of a component inside a matrix column or vector is covered by the old operand, and for row-major matrices the first index selects with the MatrixStride here; words of 2^31 and above are not negative here.
- Samplers.SamplerPass.PostProcessSamplers: no OpSampledImage has the result of another one as an operand, and within a block images are defined before they are used.
- Capabilities, extensions and types collected in post-processing are left out.

Remapper:

- The tables of opcodes are a parameter that gives each opcode its operand classes; classes that hold no id and take one word are one class.
- Malformed modules: reading past the end and unhandled operand classes stop or misread in the source; the passes here ask for a module that decodes. OpExecutionModeId's trailing ids are not id positions in the source either.
- The passes that remove and forward work on decoded instructions; StripThenMap joins stripping and renaming of words with them, while choosing what to strip or rename is modelled on instructions only.
- RemapPasses.StripDebug: a text that does not end before the module does makes the source read behind its words; here it contains no white-listed string.
- Hash values are arbitrary, and names to map are given as requests.
- Remap.Remapper.Remap: asks for what the code does not establish: entry points that all name one function, ids of a function's body used only inside it, functions named only by calls, in their own bodies or, the entry point, by any instruction, and not stored, variables declared before use and named by no other variable's initializer, at most one id in names and decorations, and ids below the header bound.
- OptLoadStoreTheorem.OptimizedRunAgrees: asks for definitions that dominate their uses, types that are not loaded and labels that are not stored; memory other than private local variables is one state that every other instruction may read and change.
- OptLoadStoreVolatile.VolatileEvents: asks in addition that memory-access words are literals.
- OptLoadStore.OptLoadStore: asks that local variables are used as pointers only, never as a stored value or an index; OpName and OpDecorate of a forwarded value are left where they are.
- forwardLoadStores is left out: it is documented as experimental and as producing invalid modules.
- matchType, findType and the hashing of types, names and bodies are left out, and so are header validation, file input and output, and message logging.
