# A verified model of the ternary toolchain's hard core

The repository is a toolchain for a balanced-ternary language: compiler, bytecode VM,
runtime and support libraries. This project models its most intricate code in Dafny and
proves what that code is for. `dafny verify dfyconfig.toml` checks everything.

| files | what they model |
|---|---|
| `Bytes`, `Vm`, `Optimizer`, `Passes`, `Relocation`, `Blocks`, `CanonicalRuns`, `Simulation`, `Fusion`, `FusionLaws`, `Emitter`, `Frames`, `FastCalls`, `LoweringLaws`, `Pipeline`, `Witnesses` | the bytecode optimizer: pattern fusion, position map, jump re-patching, the meaning of both bytecodes, frame sizing, call lowering, and all of them in a row |
| `InstructionLaws` | what instructions mean to each other: arithmetic, comparisons, branches, slots, handlers |
| `Calls`, `CallLaws`, `CallRuns` | the machine with its stack of pending activations and its one memory of locals, and whole runs of both bytecodes across calls and returns |
| `DeadValues`, `DeadRuns`, `Heights` | runs with fused increments: which stack values they leave, that the runs agree without exactly those, and a condition on the chunk under which nothing uses one |
| `Modular`, `Mpmc`, `MpmcSolo`, `MpmcQueue` | the multi-producer multi-consumer queue, one atomic operation a step, any number of threads |
| `Spsc` | the single-producer single-consumer ring with stale index copies |
| `Scheduler`, `TriPriority`, `QueuedScheduler`, `WorkerOrder`, `WorkerTurns` | the three-priority scheduler over first-in first-out queues, and on its real queues: what every run keeps, in which order a worker asks, and what an undisturbed round does |
| `Field`, `GaussJordan` | Gauss-Jordan elimination in place over Q(sqrt 3) |
| `Tafpu`, `TafpuDivision`, `Gcd`, `Normalization` | the exact numbers (a + b sqrt 3) 3^(s/2) in 64-bit coefficients |
| `Bits`, `NQueens` | the bitmask backtracking search and its counting theorem |
| `Lru` | the set-associative cache model against recency and stack distance |
| `Utf8`, `Utf8Bits` | the UTF-8 helpers against RFC 3629, on numbers and on machine words |
| `TosCache`, `InlineCache`, `Arena`, `Gemm` | top-of-stack cache, polymorphic inline cache, arena allocator, ternary matrix kernels |

How to read the bytecode part. `Translated` says what the two passes leave behind;
`Passes.TranslateChunk` proves that the loops produce it, `Pipeline.Optimize` does the rest. `Sound` is what a caller can check
about a chunk: no jump goes strictly inside a loop header or an increment, headers have
the shape the emitter writes (`Emitter.EmittedHeaderFuses` shows that it does), and
either a HALT is appended or the chunk ends in a HALT instruction that nothing jumps
past. `FusionLaws` says, on the chunk and the output alone, which instructions are fused and into
which bytes. `Map` carries states of the canonical machine to states of the optimized one:
program counter and exception handlers go through the position map, all else is equal.

`Vm` executes one activation and hands calls and returns over; `Calls` executes those. A
`Thread` is a state with its pending activations, the first free slot and the locals below
its own. `CallRuns.Source` is the canonical chunk as such a program, `CallRuns.Target` its
translation, `Finished.Optimized()` what the whole optimizer returns. `Ready` adds to `Sound`
what a caller can check about calls: entries are not inside a loop header or an increment, the
canonical chunk holds no fast form yet, and calls without a function table were not moved.
`Finish` says whether returns are lowered and whether the end was left without its HALT.

Concurrent code is a machine over atomic steps with a class beside it: each method of the
class is one atomic operation on the fields, proved equal to one step of the machine, and
the theorems hold for every sequence of steps.

## What turned out false

Each of these is kept as the code has it, with the exact condition proved.

- `OP_INCR_LOCAL_IMM` drops the value that the canonical increment leaves on the stack
  (vm.cpp:2006-2028 against the peeking store at 1108-1121), so a chunk with a fused
  increment keeps its meaning only up to that value. The exact condition for one step is
  `Fusion.BlockExactIff`; whole runs across calls are `DeadRuns.FusionUpToDeadValues`, and
  `Heights.CertifiedFusion` for every chunk with the heights that `Heights.Certified` asks for
  (`Witnesses.IncrementIsCertified`). A chunk that underflows is
  `Witnesses.IncrementUnderflows`; it has no such heights (`Witnesses.IncrementIsNotCertified`).
  The emitter writes that very sequence (emitter.cpp:1866-1872).
- A range loop entered with step zero exits in the canonical code and traps when fused
  (vm.cpp:2187-2190): `Fusion.BlockExactIff`, for whole runs `Fusion.TrapsIff` and
  `Pipeline.OptimizerExactIff`, a chunk is `Witnesses.ZeroStepTraps`.
- The end sentinel is decided by the last byte, not the last instruction
  (opt_bytecode.hpp:719-723): `Fusion.SentinelMissed`. Calls are lowered before that byte is
  looked at, and a lowered call ends in its frame size, so a last call with a frame of 255
  slots looks like a HALT: `Pipeline.SentinelLostIff`, and for whole runs
  `Pipeline.OptimizerExactIff`; such a run is `Witnesses.LastCallLosesSentinel`.
- `OP_RET_FAST` takes its value off the stack without a look, where `OP_RET` finds a default
  value on an empty one (vm.cpp:1735-1740 against 1815-1817). Lowering keeps whole runs across
  calls if and only if no such return is met, nor an open end: `Pipeline.LoweredRunsAgreeIff`;
  a run that meets one is `Witnesses.EmptyReturnParts`.
- A chunk without a function table calls code positions, and those operands are not sent
  through the position map, unlike the tables (opt_bytecode.hpp:445-449 against 479-496):
  `CallRuns.DirectCallLandsIff`, `Witnesses.DirectEntryIsStale`.
- Loop and increment fusion do not consult the jump targets, unlike what
  superinstruction.hpp:84-94 says of fusions: `Relocation.TargetIsBoundary`,
  `Relocation.TargetInsideLoopIsLost`.
- The frame pass keeps function frame sizes in 16 bits, so a slot above 65526 ends up
  outside the frame it asked for (opt_bytecode.hpp:681-686): `Frames.VerifiedFramesCoverIff`,
  `Witnesses.WideSlotOutsideFrame`.
- A queue of capacity one passes the power-of-two assertion (lockfree_queue.hpp:96) and
  loses data: `Mpmc.FaithfulIffTwoCells`, `Mpmc.SingleCellOverwrites`.
- The solver's comment promises no rounding (gauss_jordan.hpp:14), but its division
  rounds: `TafpuDivision.DivisionExactIff`, `TafpuDivision.HalfIsRounded`.
- The comparison's comment rules overflow out (native_runtime.hpp:99), but the squares can
  exceed 128 bits: `Tafpu.CmpIsSignIff`, `Tafpu.LargeComparisonFails`; below 2^61 it is right:
  `Tafpu.SmallNumbersCompare`. The product can too:
  `Tafpu.MulSaturatesIff`, `Tafpu.LargeProductVanishes`.
- The encoder's comment says that invalid code points become the replacement character
  (text.hpp:16-17); surrogates do not: `Utf8.ReplacedIff`.
- Invalidating any class un-sticks a megamorphic call site, against the comment at
  inline_cache.hpp:66: a site is megamorphic exactly when more than four classes have been
  met since the last invalidation, not ever: `InlineCache.MegamorphicIff`,
  `InlineCache.ChangeStartsAnew`.
- The arena adds up sizes in 64 bits, so a request close to 2^64 passes its space test and
  later ranges overlap earlier ones (arena.hpp:53): `Arena.AllocatedOkIff`,
  `Arena.HugeRequestOverlaps`. Its total counts blocks, not bytes:
  `Arena.ArenaAllocator.TotalAllocated`.

## Model

| member | source | states |
|---|---|---|
| Fusion.FusionPreservesMeaning | Compiler/Code/include/vm/opt_bytecode.hpp:149-484 | Whole runs: after any number of optimized steps from any state between blocks, the optimized machine is the mapped canonical machine after at least as many canonical steps; or it has trapped, and then the canonical machine reaches a range loop with step zero in the very state of the trap. For chunks in which no increment was fused |
| Fusion.TrapsIff | Compiler/Code/src/vm/vm.cpp:2176-2199 | The optimized run traps if and only if the canonical run ever reaches a range loop with step zero |
| DeadRuns.FusionUpToDeadValues | Compiler/Code/include/vm/opt_bytecode.hpp:149-726 | Whole runs of what the optimizer returns, with fused increments, across calls and returns: as long as nothing in the canonical run uses a value that an increment left, the optimized run is the mapped canonical run without exactly the values that are computed along it, on the current stack and under every pending call; or it has parted where the codes part |
| Heights.CertifiedFusion | Compiler/Code/include/vm/opt_bytecode.hpp:149-726 | The same with a condition on the chunk alone: a height for every instruction, how many values from the top are live there, checked instruction by instruction |
| Heights.CertifiedIsLive | Compiler/Code/include/vm/opt_bytecode.hpp:295-316 | In a chunk with such heights no instruction, call or return ever uses a value that an increment left, in any run |
| DeadRuns.RefinedUpTo | Compiler/Code/include/vm/opt_bytecode.hpp:149-484 | For any two machines of which one refines the other block by block up to dead values: their runs agree up to the values noted block by block, or the first ends on its own where it may |
| DeadValues.InstrUpTo | Compiler/Code/src/vm/vm.cpp:1099-1596 | An instruction whose operands are live does the same on a stack with dead values in between |
| CanonicalRuns.CanonicalNeverTraps | Compiler/Code/src/vm/vm.cpp:283-410 | A canonical run whose jumps are sound stays on instruction starts, never traps and never reads outside the code |
| Fusion.OptimizedRunIsReference | Compiler/Code/include/vm/opt_bytecode.hpp:149-484 | Whole runs with every fused form, increments included: the optimized run is the mapped run of the canonical blocks in which an increment drops its value and a zero step traps |
| Fusion.StoppingRunsAgree | Compiler/Code/include/vm/opt_bytecode.hpp:149-484 | A canonical run that stops within n steps is matched by an optimized run that stops within n, with the same outcome if and only if the canonical run meets no range loop with step zero |
| Fusion.ReferenceIsCanonical | Compiler/Code/include/vm/opt_bytecode.hpp:149-484 | The block-by-block reference is the canonical run, with an exact count of canonical steps; if it traps, the canonical run reaches that state, a range loop with step zero |
| Fusion.BlockExactIff | Compiler/Code/src/vm/vm.cpp:2006-2199 | One optimized step gives the mapped outcome of the canonical instructions it replaces if and only if it is neither a fused increment nor a loop header whose step is zero |
| Fusion.BlockSimulated | Compiler/Code/include/vm/opt_bytecode.hpp:149-465 | For every pattern, one optimized step is the mapped outcome of the block, and control lands on the next block or on a jump destination |
| Fusion.GoodKept | Compiler/Code/include/vm/opt_bytecode.hpp:149-484 | Control never leaves the block boundaries, and never runs off the end unless a HALT was appended there |
| Fusion.LocalsOffFusesNoIncrement | Compiler/Code/include/vm/opt_bytecode.hpp:295-316 | With the local-slot forms disabled no increment is fused, so the main theorem needs no further condition |
| Fusion.SentinelMissed | Compiler/Code/include/vm/opt_bytecode.hpp:719-723 | A two-byte chunk whose last operand byte is 0xFF: the canonical run halts at the end, the optimized run reads past it |
| Fusion.OperandFFIsCopied | Compiler/Code/include/vm/opt_bytecode.hpp:432-464 | The optimizer leaves that two-byte chunk as it is |
| Relocation.RelocationIsExact | Compiler/Code/include/vm/opt_bytecode.hpp:432-484 | For every jump kind in a sound chunk: the rewritten offset keeps its sign, never grows, and added to its base lands on the mapped destination |
| Relocation.JumpLandsIff | Compiler/Code/include/vm/opt_bytecode.hpp:472-478 | For any chunk at all: a rewritten jump lands on the mapped destination if and only if the distance still fits 16 bits |
| Relocation.JumpToBoundaryLands | Compiler/Code/include/vm/opt_bytecode.hpp:472-478 | The same with its exactness, for one jump whose destination is a block boundary |
| Relocation.NeverStretches | Compiler/Code/include/vm/opt_bytecode.hpp:149-465 | Between any two boundaries the optimized distance is at most the canonical one |
| Relocation.PcMapMonotone | Compiler/Code/include/vm/opt_bytecode.hpp:149-465 | The position map is monotone and stays inside the output |
| Relocation.TargetIsBoundary | Compiler/Code/src/vm/superinstruction.cpp:93-172 | An instruction start that fusion protects is a block boundary if and only if it is not strictly inside a loop header or an increment |
| Relocation.ArmsReachBoundaries | Compiler/Code/src/vm/superinstruction.cpp:6-91 | Every jump of a sound chunk, the exit of a fused loop included, goes to a boundary |
| Relocation.DirectTargetCollected | Compiler/Code/src/vm/superinstruction.cpp:6-91 | The target collector finds the destination of every jump, try and branch it walks over |
| Relocation.TargetInsideLoopIsLost | Compiler/Code/include/vm/opt_bytecode.hpp:165-207 | Loop fusion ignores the collected targets: a destination inside a header is mapped to the start of the fused instruction |
| Optimizer.CollectJumpTargets | Compiler/Code/src/vm/superinstruction.cpp:6-91 | The walking loop computes the entry points plus the destinations of all instructions |
| Optimizer.CanFuseRange | Compiler/Code/src/vm/superinstruction.cpp:93-172 | The scanning loop answers whether the range is whole instructions with no barrier and no collected target inside |
| Optimizer.Recognise | Compiler/Code/include/vm/opt_bytecode.hpp:165-383 | The chain of pattern tests, in source order, picks the block kind; which one that is, `FusionLaws.KindIff` says |
| FusionLaws.KindIff | Compiler/Code/include/vm/opt_bytecode.hpp:165-383 | Which fusion is picked at an instruction, from the opcodes that stand there, the switches, and whether control can come to an inner instruction from elsewhere |
| FusionLaws.FusedIff | Compiler/Code/include/vm/opt_bytecode.hpp:149-465 | In the output of the passes every fused opcode stands exactly where the chunk and the switches ask for it, and nowhere else |
| FusionLaws.MulAddFused | Compiler/Code/include/vm/opt_bytecode.hpp:214-238 | Wherever load a, load b, multiply, load c, add, store d, pop begin a block and nothing enters them inside, nine bytes with the slots a, b, c, d stand, whatever the slots |
| FusionLaws.AddMulFused | Compiler/Code/include/vm/opt_bytecode.hpp:239-263 | The same of load c, load a, load b, multiply, add, store d, pop |
| FusionLaws.AddStoreFused | Compiler/Code/include/vm/opt_bytecode.hpp:269-289 | Load a, load b, add, store d, pop become seven bytes with the slots a, b, d |
| FusionLaws.StorePopFused | Compiler/Code/include/vm/opt_bytecode.hpp:322-339 | Store, pop become one byte for the slots 0 to 3 and three bytes for the others |
| FusionLaws.LoadLoadFused | Compiler/Code/include/vm/opt_bytecode.hpp:345-360 | Two loads that begin no longer fused pattern become five bytes with both slots |
| FusionLaws.IncrementFused | Compiler/Code/include/vm/opt_bytecode.hpp:295-316 | Load, push, add, store of one slot with a constant of 16 bits become five bytes with slot and constant, whatever enters them |
| FusionLaws.HeaderFused | Compiler/Code/include/vm/opt_bytecode.hpp:165-207 | The sixteen instructions of a loop head become nine bytes: variable, stop, step and exit, whatever enters them |
| FusionLaws.SmallSlotShortened | Compiler/Code/include/vm/opt_bytecode.hpp:365-383 | Loads and stores of the slots 0 to 3 that no longer form takes become one byte |
| FusionLaws.OthersCopied | Compiler/Code/include/vm/opt_bytecode.hpp:432-465 | Every other instruction keeps its opcode and its operands, relative ones excepted |
| FusionLaws.BlockStartIff | Compiler/Code/include/vm/opt_bytecode.hpp:149-465 | Blocks begin exactly where the position map moves on |
| FusionLaws.TargetsIff | Compiler/Code/src/vm/superinstruction.cpp:6-91 | The collected targets are exactly the entries and the destinations that decoding the instructions gives |
| FusionLaws.CanFuseIff | Compiler/Code/src/vm/superinstruction.cpp:93-172 | A range may be fused exactly when it is whole instructions and none but the first is a target or a barrier |
| Optimizer.OptimizedChunk.Translate | Compiler/Code/include/vm/opt_bytecode.hpp:149-465 | One block appends exactly its translation with zero placeholders and reports exactly its patches |
| Optimizer.WholeAt | Compiler/Code/include/vm/opt_bytecode.hpp:76-116 | Blocks tile the instructions: every block starts at an instruction start of the length table |
| Optimizer.BlockFits | Compiler/Code/include/vm/opt_bytecode.hpp:149-465 | Whichever pattern is picked, its bytes are there and end at an instruction start |
| Passes.Pass1 | Compiler/Code/include/vm/opt_bytecode.hpp:149-465 | The fusion loop lays the blocks out side by side, records their patches and fills the position map |
| Passes.Pass2 | Compiler/Code/include/vm/opt_bytecode.hpp:472-478 | The patch loop overwrites exactly the recorded operands with the new relative offsets |
| Passes.PatchListDone | Compiler/Code/include/vm/opt_bytecode.hpp:472-478 | After the patches every block stands in the output with its final operands and nothing else has changed |
| Passes.Rewrite | Compiler/Code/include/vm/opt_bytecode.hpp:149-484 | Both passes together leave the translation of the whole chunk |
| Passes.TranslateChunk | Compiler/Code/include/vm/opt_bytecode.hpp:119-496 | Both passes leave the translation of the chunk, with its entry tables relocated |
| Passes.RelocateEntries | Compiler/Code/include/vm/opt_bytecode.hpp:479-496 | Function and method entries are sent through the position map |
| BlockSemantics.RunHeader | Compiler/Code/src/compiler/emitter.cpp:854-871 | Sixteen canonical instructions of a loop header only decide where to go: into the body while the range lasts, else to the exit |
| BlockSemantics.RunMulAddA | Compiler/Code/include/vm/opt_bytecode.hpp:214-238 | The seven canonical instructions of the first multiply-add order store the fused result |
| BlockSemantics.RunMulAddB | Compiler/Code/include/vm/opt_bytecode.hpp:239-263 | So do those of the second order |
| BlockSemantics.RunAddStore | Compiler/Code/include/vm/opt_bytecode.hpp:269-289 | Load, load, add, store, pop stores the sum and leaves the stack alone |
| BlockSemantics.RunIncrement | Compiler/Code/include/vm/opt_bytecode.hpp:295-316 | Load, push, add, store leaves the new value on the stack |
| Vm.FusedMulAddIsMulThenAdd | Compiler/Code/src/vm/vm.cpp:2756-2803 | The fused multiply-add with its 48-bit fast path equals multiplication followed by addition |
| InstructionLaws.BranchIsCascade | Compiler/Code/src/vm/vm.cpp:1567-1595 | The three-way branch goes where a cascade of two-way jumps on less than zero, equal to zero and otherwise goes, and leaves the same state |
| InstructionLaws.ArithmeticIs | Compiler/Code/src/vm/vm.cpp:1139-1201 | Addition, subtraction and multiplication are those of the integers up to whole turns of 64 bits, left operand pushed first |
| InstructionLaws.SubThenAdd | Compiler/Code/src/vm/vm.cpp:1139-1180 | Adding back what was subtracted gives the 64-bit number back |
| InstructionLaws.UnderflowIff | Compiler/Code/src/vm/vm.cpp:1099-1596 | A run ends for want of operands exactly at an instruction that finds fewer than it takes |
| InstructionLaws.NegIsSub | Compiler/Code/src/vm/vm.cpp:1251-1260 | Negation is subtraction from zero |
| InstructionLaws.ComparisonsAgree | Compiler/Code/src/vm/vm.cpp:1298-1420 | Exactly one of less, equal and greater holds, and the other three comparisons are their opposites |
| InstructionLaws.MinMaxAre | Compiler/Code/src/vm/vm.cpp:1262-1297 | The ternary minimum and maximum are the lattice operations, and stay booleans on booleans |
| InstructionLaws.RunJumpIfFalse | Compiler/Code/src/vm/vm.cpp:1558-1565 | The jump is taken on false, nil and zero, and on nothing else |
| InstructionLaws.StoreThenLoad | Compiler/Code/src/vm/vm.cpp:1099-1121 | A store leaves its value on the stack and in its slot, and no other slot changes |
| InstructionLaws.TryThenPopTry | Compiler/Code/src/vm/vm.cpp:4664-4683 | A handler is noted with its position and the stack's depth, and the latest note is taken away again |
| Simulation.DecodeBlock | Compiler/Code/include/vm/opt_bytecode.hpp:165-464 | The bytes of every translated block decode to the intended instruction |
| Simulation.HeaderExec | Compiler/Code/src/vm/vm.cpp:2176-2199 | The fused range test takes the same way as the 46 bytes, and traps when the step is zero |
| Simulation.BranchIsMapped | Compiler/Code/src/vm/vm.cpp:1421-1596 | A copied jump, conditional jump, three-way branch or try with its rewritten operands gives the mapped outcome, handlers included |
| Emitter.EmitRangeHeader | Compiler/Code/src/compiler/emitter.cpp:854-871 | The emitter's calls append exactly the 46 bytes of the header |
| Emitter.EmittedHeaderFuses | Compiler/Code/src/compiler/emitter.cpp:854-871 | An emitted header meets what loop fusion needs: repeated slots equal, immediates zero; its three slots are the emitter's |
| Bytes.WordLosesLargeOffsets | Compiler/Code/include/vm/opt_bytecode.hpp:472-478 | A stored 16-bit offset reads back as itself if and only if it is in range |
| Frames.RunsStayInFrames | Compiler/Code/include/vm/opt_bytecode.hpp:502-686 | In every run, whatever the optimized machine is about to execute uses only local slots inside the frame that the pass sized for its function |
| Frames.VerifiedFramesCoverIff | Compiler/Code/include/vm/opt_bytecode.hpp:677-686 | The returned frames cover every slot if and only if no function needs more than its 16-bit size can say beyond what it had declared |
| Frames.FrameIs | Compiler/Code/include/vm/opt_bytecode.hpp:665-686 | A frame is as declared or eight slots more than up to the largest used, whichever is more, until the 16-bit size loses its top bit |
| Frames.OwnerIs | Compiler/Code/include/vm/opt_bytecode.hpp:574-579 | A position belongs to the last function from number 1 up that starts at or before it |
| Frames.VerifyFrames | Compiler/Code/include/vm/opt_bytecode.hpp:496-686 | The scan and the two raising steps return the declared sizes raised to the largest slot plus nine |
| Frames.ScanMaxima | Compiler/Code/include/vm/opt_bytecode.hpp:571-675 | The scanning loop finds the largest slot of the top level and of every function |
| Frames.FindOwner | Compiler/Code/include/vm/opt_bytecode.hpp:574-579 | The inner loop finds the last function from number 1 up that starts at or before the position |
| Frames.ScanNotesTouched | Compiler/Code/include/vm/opt_bytecode.hpp:589-672 | At every emitted instruction the pass notes exactly the slots that the instruction uses |
| Frames.OtherSlotsUntouched | Compiler/Code/src/vm/vm.cpp:1099-2803 | An instruction neither reads nor writes any slot it does not name |
| Frames.NamedSlotsMatter | Compiler/Code/src/vm/vm.cpp:1099-2803 | Conversely a change of a slot that it names shows in some state |
| Frames.ScanVisitsBlocks | Compiler/Code/include/vm/opt_bytecode.hpp:507-675 | With its own length table the scan steps exactly from block to block of the translated code |
| FastCalls.LoweringIsExact | Compiler/Code/include/vm/opt_bytecode.hpp:688-717 | The pass walks over the same instructions and leaves each as it was, except that a fast call pushes the very frame, entry and return address of the ordinary call and a return takes its fast form |
| FastCalls.LowerCalls | Compiler/Code/include/vm/opt_bytecode.hpp:688-717 | The lowering loop overwrites the code in place as its specification says |
| FastCalls.LoweredHere | Compiler/Code/include/vm/opt_bytecode.hpp:688-717 | After the whole pass every instruction holds exactly its own lowering, whatever was lowered before it |
| LoweringLaws.CallShortenedIff | Compiler/Code/include/vm/opt_bytecode.hpp:688-712 | In the returned code a call is short exactly when lowering is on, its function has an entry below 2^16, it has at most one argument and its frame at most 255 slots; it then holds entry and frame, and otherwise its old bytes |
| LoweringLaws.OthersKept | Compiler/Code/include/vm/opt_bytecode.hpp:688-717 | Every return is short when lowering is on, and no other block is touched |
| Pipeline.Optimize | Compiler/Code/include/vm/opt_bytecode.hpp:119-726 | The whole optimizer in source order, passes, frame scan, call lowering, sentinel: what it returns is the sealed lowering of the translation, with the scanned frames |
| Calls.FramesNeverOverlap | Compiler/Code/src/vm/vm.cpp:1686-1699 | In every run of any code, every frame starts behind the end of its caller's: the overlap assertion in the call handlers never fails |
| Calls.CallersKeepLocals | Compiler/Code/src/vm/vm.cpp:1684-1743 | While an activation is pending, nothing that it has called, directly or not, changes its locals, its callers' locals, or where they return to |
| Calls.MemorySplits | Compiler/Code/src/vm/vm.cpp:1684-1743 | The memory of locals, split at any base and put together again, is the same memory |
| CallLaws.CallPassesArguments | Compiler/Code/src/vm/vm.cpp:1684-1722 | For any values pushed onto any stack: after the call the i-th is in slot i, the slots above hold what the memory held, nothing below has changed, and the noted stack is the one below the arguments |
| CallLaws.ArgumentIsLoaded | Compiler/Code/src/vm/vm.cpp:1684-1722 | A run: a call and a first instruction of the callee that loads slot i leave the i-th argument on the stack |
| CallLaws.CallIsOneOperation | Compiler/Code/src/vm/vm.cpp:1598-1828 | A call whose activation, whatever that calls in turn, returns v puts v in place of the arguments and goes on behind the call, with every local and every free slot of the caller as before |
| CallLaws.CallOperands | Compiler/Code/src/vm/vm.cpp:1598-1613 | What the operands of the ordinary and the fast calls say: entry, arguments, frame and return address |
| CallLaws.FrameSizeIs | Compiler/Code/include/vm/opt_bytecode.hpp:45-52 | A frame is as declared, 32 slots by default, and has room for the arguments and eight more; no larger |
| CallLaws.ReturnIs | Compiler/Code/src/vm/vm.cpp:1727-1828 | A return of the outermost activation halts; without a value the ordinary one gives nil and the fast one has none |
| CallRuns.EntryIsGoodIff | Compiler/Code/include/vm/opt_bytecode.hpp:479-496 | A function or method entry is sent to its mapped position, and execution can start there between blocks if and only if it is not inside a loop header or an increment |
| CallRuns.CallMapped | Compiler/Code/include/vm/opt_bytecode.hpp:445-449 | A copied call goes to the mapped entry with the same arguments and frame and returns to the mapped place |
| CallRuns.DirectCallLandsIff | Compiler/Code/include/vm/opt_bytecode.hpp:445-449 | In a chunk without a function table a copied call reaches the mapped entry if and only if the map leaves that entry where it was |
| CallRuns.NextSimulated | Compiler/Code/src/vm/vm.cpp:1598-1743 | One step of a thread in the translated code, calls and returns included, is the mapped step of the block-by-block reference |
| CallRuns.CanonicalNeverStrays | Compiler/Code/src/vm/vm.cpp:1598-1743 | A canonical run across calls and returns stays on instruction starts, never traps and never reads outside the code |
| Pipeline.LoweredRunsAgreeIff | Compiler/Code/include/vm/opt_bytecode.hpp:688-726 | Whole runs across calls and returns: lowering, with the sentinel test after it, keeps every run if and only if the run reaches no lowered return with a pending activation and an empty operand stack, and no open end |
| Pipeline.OptimizedCallsSimulated | Compiler/Code/include/vm/opt_bytecode.hpp:119-726 | Whole runs of what the optimizer returns, with everything fused: the mapped run of the reference, block by block, through all calls and returns |
| Pipeline.OptimizerPreservesMeaning | Compiler/Code/include/vm/opt_bytecode.hpp:119-726 | Whole runs of what the optimizer returns, through all calls and returns: after any number of steps the mapped canonical run after at least as many; or it has parted from it at a range loop with step zero, at a lowered return without a value or at an open end, and ends there as named |
| Pipeline.OptimizerExactIff | Compiler/Code/include/vm/opt_bytecode.hpp:119-726 | All its runs are mapped canonical runs if and only if the canonical run meets none of these three |
| Pipeline.SentinelLostIff | Compiler/Code/include/vm/opt_bytecode.hpp:688-723 | Lowering before the sentinel test loses the HALT if and only if the code ends in a lowered call whose frame has 255 slots |
| Pipeline.LoweredRunsStayInFrames | Compiler/Code/include/vm/opt_bytecode.hpp:502-717 | In every run of the returned code, across calls and returns, whatever is about to execute stays in the frame that was sized before the calls were lowered |
| Witnesses.IncrementUnderflows | Compiler/Code/src/vm/vm.cpp:2006-2028 | LOAD 0, PUSH_INT 1, ADD, STORE 0, POP, HALT is sound; from an empty stack the canonical run halts and the optimized one underflows |
| Witnesses.ZeroStepTraps | Compiler/Code/src/vm/vm.cpp:2176-2199 | An emitted range loop with step slot zero is sound; the canonical run leaves the loop and halts, the optimized one traps at its first step |
| Witnesses.IncrementIsCertified | Compiler/Code/src/vm/vm.cpp:2006-2028 | The same chunk with NOP for POP has heights, so its runs agree up to the value left |
| Witnesses.IncrementIsNotCertified | Compiler/Code/src/vm/vm.cpp:2006-2028 | With POP it has none |
| Witnesses.WideSlotOutsideFrame | Compiler/Code/include/vm/opt_bytecode.hpp:681-686 | A sound chunk with a function that loads slot 65527 keeps its declared frame of 32 slots, which does not contain it |
| Witnesses.LastCallLosesSentinel | Compiler/Code/include/vm/opt_bytecode.hpp:688-723 | A sound chunk that jumps to a last call with a frame of 255 slots gets no HALT: from its start, the function returns behind the call, where the canonical run halts and the optimized one reads outside the code |
| Witnesses.EmptyReturnParts | Compiler/Code/src/vm/vm.cpp:1724-1828 | A sound chunk that calls a bare return: from its start the canonical run gets a default value and halts, the optimized one takes its value from below the stack |
| Witnesses.DirectEntryIsStale | Compiler/Code/include/vm/opt_bytecode.hpp:445-449 | A sound chunk that calls position 8 directly, while fusion moves that entry to 6: the optimized call enters past it and returns another value |
| Mpmc.QueueIsSafe | Compiler/Code/include/runtime/lockfree_queue.hpp:118-165 | Every interleaving of any number of threads: claimed tickets stay within capacity, each delivered value is the one pushed under its ticket, and no two threads hold one cell's data |
| Mpmc.RefinesFifo | Compiler/Code/include/runtime/lockfree_queue.hpp:118-165 | Every atomic step is one step of a bounded first-in first-out queue or none: a claimed push appends and there was room, a claimed pop removes the oldest, all else leaves the contents |
| Mpmc.ReadsItsTicket | Compiler/Code/include/runtime/lockfree_queue.hpp:145-165 | Whoever claimed a ticket reads out of the cell exactly the value pushed under it |
| Mpmc.OfferIsKept | Compiler/Code/include/runtime/lockfree_queue.hpp:118-138 | Whatever step any thread takes, a thread inside push still offers its value, or has claimed a ticket for that very value, or is refused: it has the value back and no cell, position or history has changed |
| Mpmc.PushLosesNothing | Compiler/Code/include/runtime/lockfree_queue.hpp:118-138 | Over any interleaving during one call of push, the value is with its caller or in the queue's history |
| Mpmc.DeliveredOnce | Compiler/Code/include/runtime/lockfree_queue.hpp:145-165 | A pop that returns delivers the pushed value of a ticket not delivered before |
| Mpmc.FullReportedIff | Compiler/Code/include/runtime/lockfree_queue.hpp:118-138 | push reports full if and only if its position is current and the ticket one round earlier is not delivered |
| Mpmc.EmptyReportedIff | Compiler/Code/include/runtime/lockfree_queue.hpp:145-165 | pop reports empty if and only if its position is current and that ticket is not published |
| MpmcSolo.SoloPush | Compiler/Code/include/runtime/lockfree_queue.hpp:118-138 | Whatever the other threads are in the middle of: a push that is not disturbed appends its value in five atomic steps if and only if the ticket one round earlier is delivered; otherwise it is refused and nothing else changes |
| MpmcSolo.SoloPop | Compiler/Code/include/runtime/lockfree_queue.hpp:145-165 | A pop that is not disturbed delivers the oldest value if and only if that is published; otherwise nothing changes |
| Mpmc.FaithfulIffTwoCells | Compiler/Code/include/runtime/lockfree_queue.hpp:94-165 | All runs deliver what was pushed if and only if the capacity is at least two |
| Mpmc.SingleCellOverwrites | Compiler/Code/include/runtime/lockfree_queue.hpp:94-138 | With the capacity of one that the assertion admits, the second push overwrites the first |
| Mpmc.HistoryGrows | Compiler/Code/include/runtime/lockfree_queue.hpp:118-165 | No step rewrites what was pushed or delivered |
| Mpmc.StepKeeps | Compiler/Code/include/runtime/lockfree_queue.hpp:118-165 | Every atomic step of any thread, compare-exchange failures included, keeps the invariant |
| MpmcObject.MPMCQueue.constructor | Compiler/Code/include/runtime/lockfree_queue.hpp:104-110 | Cell i starts with sequence number i |
| MpmcObject.MPMCQueue.LoadEnqueuePos | Compiler/Code/include/runtime/lockfree_queue.hpp:118-122 | The load of the enqueue position is one step of the machine |
| MpmcObject.MPMCQueue.LoadSequenceForPush | Compiler/Code/include/runtime/lockfree_queue.hpp:122-135 | The load of the cell's sequence decides between claiming, reporting full and starting over |
| MpmcObject.MPMCQueue.CompareExchangeEnqueue | Compiler/Code/include/runtime/lockfree_queue.hpp:124-128 | The claim moves the position only if it is still the expected one |
| MpmcObject.MPMCQueue.WriteData | Compiler/Code/include/runtime/lockfree_queue.hpp:129-138 | The write of the claimed cell is one step |
| MpmcObject.MPMCQueue.PublishSequence | Compiler/Code/include/runtime/lockfree_queue.hpp:129-138 | Publishing stores the ticket plus one |
| MpmcObject.MPMCQueue.LoadSequenceForPop | Compiler/Code/include/runtime/lockfree_queue.hpp:145-165 | The consumer's load decides between claiming, reporting empty and starting over |
| MpmcObject.MPMCQueue.CompareExchangeDequeue | Compiler/Code/include/runtime/lockfree_queue.hpp:145-165 | The consumer's claim |
| MpmcObject.MPMCQueue.ReadData | Compiler/Code/include/runtime/lockfree_queue.hpp:145-165 | The read of the claimed cell |
| MpmcObject.MPMCQueue.ReleaseSequence | Compiler/Code/include/runtime/lockfree_queue.hpp:145-165 | Releasing stores the ticket plus the capacity |
| Spsc.RingIsFifo | Compiler/Code/include/runtime/lockfree_queue.hpp:31-68 | Every interleaving: values are received in the order sent, nothing lost or invented, at most capacity many inside, and both stale copies on the safe side |
| Spsc.RefinesBoundedFifo | Compiler/Code/include/runtime/lockfree_queue.hpp:31-68 | Each step appends when there is room, removes the front, or leaves the contents alone |
| Spsc.FullReportedIff | Compiler/Code/include/runtime/lockfree_queue.hpp:31-42 | push reports full if and only if the ring is full when it reloads the tail |
| Spsc.EmptyReportedIff | Compiler/Code/include/runtime/lockfree_queue.hpp:57-68 | pop reports empty if and only if the ring is empty when it reloads the head |
| Spsc.SoloPush | Compiler/Code/include/runtime/lockfree_queue.hpp:31-42 | A push that is not disturbed appends if and only if there is room, and reads the tail only when its copy shows none |
| Spsc.SoloPop | Compiler/Code/include/runtime/lockfree_queue.hpp:57-68 | A pop that is not disturbed takes the front if and only if there is one, and reads the head only when its copy shows none |
| Spsc.SPSCQueue.BeginPush | Compiler/Code/include/runtime/lockfree_queue.hpp:31-38 | push decides from its stale copy whether to refresh it |
| Spsc.SPSCQueue.AdvancePush | Compiler/Code/include/runtime/lockfree_queue.hpp:33-42 | Each later access of push is one step of the machine; true is returned on publication only |
| Spsc.SPSCQueue.BeginPop | Compiler/Code/include/runtime/lockfree_queue.hpp:57-64 | pop decides from its stale copy whether to refresh it |
| Spsc.SPSCQueue.AdvancePop | Compiler/Code/include/runtime/lockfree_queue.hpp:59-68 | Each later access of pop is one step; a returned value was at the front |
| Scheduler.SchedulerConserves | Compiler/Code/include/runtime/async_scheduler.hpp:55-125 | Every run over first-in first-out queues: the active counter equals the accepted tasks waiting, queued or held; each accepted task is in exactly the place recorded; no body runs twice. `QueuedScheduler.EveryRunIsFifo` carries this to the real queues |
| Scheduler.ZeroMeansDone | Compiler/Code/include/runtime/async_scheduler.hpp:76-80 | The counter is zero if and only if every accepted task has run exactly once and been reported; then all queues are empty |
| Scheduler.HighCoreSkipsLow | Compiler/Code/include/runtime/async_scheduler.hpp:87-108 | In every run the dedicated core never holds a LOW task |
| Scheduler.ExitMeansDone | Compiler/Code/include/runtime/async_scheduler.hpp:87-125 | A worker leaves its loop only when nothing accepted is unfinished |
| Scheduler.StepKeeps | Compiler/Code/include/runtime/async_scheduler.hpp:46-125 | Every step of spawn, the workers and stop keeps the invariant |
| QueuedScheduler.EveryRunIsFifo | Compiler/Code/include/runtime/async_scheduler.hpp:27-131 | The scheduler on its three real queues, every push and pop interleaved atomic step by atomic step with all other threads: each run stands for a run of the scheduler over first-in first-out queues, in no more steps |
| QueuedScheduler.StepRefines | Compiler/Code/include/runtime/async_scheduler.hpp:46-125 | Every atomic step, inside a queue or outside, is at most one step of that scheduler |
| QueuedScheduler.PushRefines | Compiler/Code/include/runtime/async_scheduler.hpp:60-72 | In the retry loop the successful claim is the push; refused and failed attempts are nothing |
| QueuedScheduler.PopRefines | Compiler/Code/include/runtime/async_scheduler.hpp:94-107 | In the worker loop the successful claim takes the oldest task, which is the one delivered; an empty report moves on to the next queue |
| QueuedScheduler.RefusedPushKeepsTask | Compiler/Code/include/runtime/async_scheduler.hpp:60-72 | A refused push leaves its item with the spawner and changes nothing else: no cell, position, other queue or other thread |
| QueuedScheduler.NoTaskRunsTwice | Compiler/Code/include/runtime/async_scheduler.hpp:55-125 | On the real queues, in every interleaving, no body runs twice |
| QueuedScheduler.ZeroMeansDone | Compiler/Code/include/runtime/async_scheduler.hpp:76-80 | On the real queues: the counter reads zero if and only if every task that ever entered a queue has run exactly once, all three are empty, and no counted task is still to be pushed or reported |
| QueuedScheduler.HighCoreSkipsLow | Compiler/Code/include/runtime/async_scheduler.hpp:87-108 | On the real queues the dedicated core never looks into the LOW queue and never holds a LOW task |
| QueuedScheduler.ExitMeansDone | Compiler/Code/include/runtime/async_scheduler.hpp:87-125 | On the real queues a worker leaves its loop only when everything that was spawned is finished |
| WorkerOrder.AsksInOrder | Compiler/Code/include/runtime/async_scheduler.hpp:87-107 | In every run on the real queues: a worker inside pop on a queue, so also one that claims a task there, was told empty by every queue of higher priority since its last look at the flag or the counter, and nothing there was published at that instant |
| WorkerOrder.RoundEndsWhenAllEmpty | Compiler/Code/include/runtime/async_scheduler.hpp:94-125 | A worker goes back to the top without a task only when every queue has told it so, LOW too unless it is the dedicated core |
| WorkerOrder.LeavesOnlyAfterStop | Compiler/Code/include/runtime/async_scheduler.hpp:46-53 | No worker leaves its loop before stop |
| WorkerOrder.QueuesByPriority | Compiler/Code/include/runtime/async_scheduler.hpp:60-72 | In every run, whatever was ever in a queue has that queue's priority |
| WorkerTurns.UndisturbedRound | Compiler/Code/include/runtime/async_scheduler.hpp:87-125 | On the real queues a worker that nobody disturbs runs and reports the oldest task of the first queue with a published one, HIGH before NORMAL before LOW; finds none and is back where it was; or leaves, if and only if stopped with nothing unfinished |
| WorkerTurns.SpawnBegins | Compiler/Code/include/runtime/async_scheduler.hpp:55-58 | A spawn draws the next number, counts its task, and is about to push it with the priority it was given |
| WorkerTurns.UndisturbedPush | Compiler/Code/include/runtime/async_scheduler.hpp:60-72 | A push of a task that is not disturbed hands it to the end of the queue of its priority if and only if that has room at the position it finds; otherwise the spawner has it back |
| WorkerTurns.StopLetsLeave | Compiler/Code/include/runtime/async_scheduler.hpp:46-53 | After stop a worker at the top of its loop leaves when nothing is unfinished |
| SchedulerObject.TriPriorityScheduler.constructor | Compiler/Code/include/runtime/async_scheduler.hpp:27-40 | Zero requested threads become four |
| SchedulerObject.TriPriorityScheduler.DrawId | Compiler/Code/include/runtime/async_scheduler.hpp:55-57 | spawn draws a fresh id |
| SchedulerObject.TriPriorityScheduler.CountTask | Compiler/Code/include/runtime/async_scheduler.hpp:57-58 | From the increment on a spawned item is accepted |
| SchedulerObject.TriPriorityScheduler.PushTask | Compiler/Code/include/runtime/async_scheduler.hpp:60-72 | One attempt of the retry loop on the abstract queue |
| SchedulerObject.TriPriorityScheduler.WorkerStep | Compiler/Code/include/runtime/async_scheduler.hpp:87-125 | One step of a worker's loop |
| SchedulerObject.TriPriorityScheduler.RequestStop | Compiler/Code/include/runtime/async_scheduler.hpp:46-47 | stop clears the running flag |
| SchedulerObject.TriPriorityScheduler.Finished | Compiler/Code/include/runtime/async_scheduler.hpp:76-80 | One look of wait_all at the counter: true if and only if every accepted task is finished |
| GaussJordan.Solve | Compiler/Code/include/stdtaf/gauss_jordan.hpp:17-71 | Over exact division: a vector is returned if and only if the matrix is regular, and it is the only solution; a division never fails |
| GaussJordan.FindPivot | Compiler/Code/include/stdtaf/gauss_jordan.hpp:31-39 | The first row from the diagonal down with a non-zero entry |
| GaussJordan.DivideRow | Compiler/Code/include/stdtaf/gauss_jordan.hpp:46-54 | The row is divided by its pivot from the column on; it fails if and only if the pivot's norm is zero |
| GaussJordan.EliminateColumn | Compiler/Code/include/stdtaf/gauss_jordan.hpp:57-64 | Afterwards the column is a unit column and the null space is unchanged |
| GaussJordan.SwapKeeps | Compiler/Code/include/stdtaf/gauss_jordan.hpp:41-44 | Swapping two rows keeps the null space |
| GaussJordan.DivideKeeps | Compiler/Code/include/stdtaf/gauss_jordan.hpp:46-54 | Dividing a row by an invertible element keeps the null space |
| GaussJordan.EliminateKeeps | Compiler/Code/include/stdtaf/gauss_jordan.hpp:57-64 | Subtracting a multiple of another row keeps the null space |
| GaussJordan.DependencyAnnihilates | Compiler/Code/include/stdtaf/gauss_jordan.hpp:36-38 | Without a pivot the column is a combination of the earlier ones: an explicit non-zero kernel vector |
| GaussJordan.OnlySolutionIsRegular | Compiler/Code/include/stdtaf/gauss_jordan.hpp:66-70 | A system with one solution has no singular matrix |
| Field.NormNonZero | Compiler/Code/src/tafpu/tafpu.cpp:228-234 | A non-zero field element never has norm zero |
| Field.RootThreeIrrational | Compiler/Code/src/tafpu/tafpu.cpp:228-234 | x^2 == 3 y^2 has no integer solution but zero |
| Field.Div | Compiler/Code/src/tafpu/tafpu.cpp:226-256 | The quotient times the divisor is the dividend |
| Field.QuotientInField | Compiler/Code/src/tafpu/tafpu.cpp:226-256 | Quotients by anything but zero exist and stay rational |
| TafpuDivision.Div | Compiler/Code/src/tafpu/tafpu.cpp:226-293 | The division with its scale loop computes the rounded, rationalised quotient |
| TafpuDivision.DivisionExactIff | Compiler/Code/src/tafpu/tafpu.cpp:226-293 | Quotient times divisor is the dividend if and only if the norm divides both scaled numerators |
| TafpuDivision.RoundDivNearest | Compiler/Code/src/tafpu/tafpu.cpp:245-253 | The rounded quotient is a nearest integer, and of two the one farther from zero |
| TafpuDivision.QuotientIsNearest | Compiler/Code/src/tafpu/tafpu.cpp:226-256 | Each coefficient of a quotient is the nearest integer to its scaled fraction, at the exponent of the fraction, whether exact or not |
| TafpuDivision.RoundDivExactIff | Compiler/Code/src/tafpu/tafpu.cpp:245-253 | Rounding changes nothing if and only if the division is even |
| TafpuDivision.IsotropicIff | Compiler/Code/src/tafpu/tafpu.cpp:230-234 | The isotropic exception is thrown if and only if the divisor is zero |
| TafpuDivision.HalfIsRounded | Compiler/Code/src/tafpu/tafpu.cpp:245-256 | One divided by two is one, at any exponent: the division used by the solver is not exact |
| Tafpu.AddC | Compiler/Code/include/compiler/native_runtime.hpp:55-73 | Aligned or even-gap addition, with its power-of-three loop, is the exact sum reduced to 64 bits |
| Tafpu.SubC | Compiler/Code/include/compiler/native_runtime.hpp:75-80 | Likewise subtraction, also through the negated operand |
| Tafpu.AddExactIff | Compiler/Code/include/compiler/native_runtime.hpp:55-73 | With an even exponent gap the sum is the true sum if and only if its coefficients fit in 64 bits |
| Tafpu.SubExactIff | Compiler/Code/include/compiler/native_runtime.hpp:75-80 | The same for the difference |
| Tafpu.MulExactIff | Compiler/Code/include/compiler/native_runtime.hpp:84-97 | The product is the true product if and only if its coefficients fit in 64 bits |
| Tafpu.MulSaturatesIff | Compiler/Code/include/compiler/native_runtime.hpp:84-97 | Otherwise it saturates towards the right side if and only if the coefficient fits in 128 bits |
| Tafpu.MulIsNearest | Compiler/Code/include/compiler/native_runtime.hpp:84-97 | Exponents add up, and a coefficient that fits in 128 bits becomes the nearest that can be stored |
| Tafpu.LargeProductVanishes | Compiler/Code/include/compiler/native_runtime.hpp:84-97 | With every coefficient at the least 64-bit integer the product's first coefficient comes out as zero |
| Tafpu.CmpIsSignIff | Compiler/Code/include/compiler/native_runtime.hpp:100-128 | At equal exponents the comparison is the true sign of the difference unless the differences oppose each other, one square loses more turns of 2^128 than the other and the squares are less than those turns apart |
| Tafpu.CmpRightWhenSquaresFit | Compiler/Code/include/compiler/native_runtime.hpp:100-128 | When both squares fit in 128 bits the comparison is the true sign |
| Tafpu.SmallNumbersCompare | Compiler/Code/include/compiler/native_runtime.hpp:100-128 | Numbers whose coefficients are at most 2^61 are always compared correctly |
| Tafpu.CmpZeroIff | Compiler/Code/include/compiler/native_runtime.hpp:100-128 | Zero is returned if and only if the operands are equal |
| Tafpu.LargeComparisonFails | Compiler/Code/include/compiler/native_runtime.hpp:100-128 | A comparison that comes out with the wrong sign |
| Tafpu.SameNumber | Compiler/Code/include/compiler/native_runtime.hpp:30-46 | At one exponent equal numbers have equal coefficients |
| Normalization.NormalizePeriodic | Compiler/Code/include/tafpu/normalization.hpp:73-104 | The number is kept exactly, the coefficients never grow, the fast path returns its argument; the slow path goes to the first number that is not to be reduced, takes out its common factors of three, and leaves nothing to reduce |
| Normalization.Shift3adic | Compiler/Code/include/tafpu/normalization.hpp:50-66 | The swapping loop keeps the number, never grows it, and stops at the first number that is not to be reduced |
| Normalization.SwapKeeps | Compiler/Code/include/tafpu/normalization.hpp:46-62 | 3 a' + b sqrt 3 == (b + a' sqrt 3) sqrt 3: one swap is one step of the exponent |
| Normalization.ThreeDividesIff | Compiler/Code/include/tafpu/normalization.hpp:92-101 | Three divides the computed divisor if and only if it divides both coefficients |
| Gcd.FastBinaryGcd | Compiler/Code/include/tafpu/normalization.hpp:15-33 | The shift-and-subtract loop returns Euclid's divisor of the absolute values |
| Gcd.EuclidLoop | Compiler/Code/include/tafpu/normalization.hpp:15-40 | So does the fallback loop |
| Gcd.EuclidIsGreatest | Compiler/Code/include/tafpu/normalization.hpp:15-40 | Euclid's divisor divides both numbers, and every common divisor divides it |
| Gcd.EuclidOfOddParts | Compiler/Code/include/tafpu/normalization.hpp:22-33 | The common power of two comes out, and the odd parts have the rest |
| Gcd.OrTrailingZeros | Compiler/Code/include/tafpu/normalization.hpp:22-22 | The trailing zeros of the bitwise or are the fewer of the two |
| NQueens.CountQueens | Compiler/Code/bench/heavy_bench.py:62-80 | The top call returns the number of complete legal boards |
| NQueens.SolveNQueens | Compiler/Code/bench/heavy_bench.py:62-76 | A call whose masks describe a legal prefix returns the number of its legal completions, and terminates |
| NQueens.AvailableColumns | Compiler/Code/bench/heavy_bench.py:66-68 | The computed mask has exactly the columns that keep the board legal |
| NQueens.NextMasks | Compiler/Code/bench/heavy_bench.py:72-72 | The shifted masks of the recursive call describe the longer board |
| NQueens.TryColumn | Compiler/Code/bench/heavy_bench.py:69-72 | Trying a column adds exactly the completions through it, each once |
| NQueens.AllBoards | Compiler/Code/bench/heavy_bench.py:62-76 | The boards counted are all choices of one column per row |
| Bits.LowestBit | Compiler/Code/bench/heavy_bench.py:70-70 | x & -x isolates the lowest set bit |
| Bits.AndBits | Compiler/Code/bench/heavy_bench.py:68-70 | The recursive conjunction is bitwise, on negative numbers too |
| Lru.LinesAreMostRecent | Compiler/Code/bench/hardware_profiler.cpp:55-79 | After any trace a set holds its most recently used distinct lines in recency order, then zeros |
| Lru.HitIff | Compiler/Code/bench/hardware_profiler.cpp:55-79 | A line other than zero hits if and only if it was used before and fewer than `ways` other lines were used since |
| Lru.CacheHitIff | Compiler/Code/bench/hardware_profiler.cpp:55-79 | In the whole cache: a line other than zero hits if and only if it was used before and since then fewer than `ways` other lines with the same remainder by the number of sets were |
| Lru.ZeroHitIff | Compiler/Code/bench/hardware_profiler.cpp:31-33 | Line zero cannot be told from an unused way: it hits even before its first use while fewer than `ways` others were used |
| Lru.MoreWaysFewerMisses | Compiler/Code/bench/hardware_profiler.cpp:55-79 | With the same number of sets, more ways never mean more misses, on any trace |
| Lru.NarrowIsPrefix | Compiler/Code/bench/hardware_profiler.cpp:55-79 | A narrow set is always a prefix of a wider one |
| Lru.AheadAreSince | Compiler/Code/bench/hardware_profiler.cpp:55-79 | Ahead of a line in the recency list stand exactly the lines used since its last use |
| Lru.CacheModel.AccessLine | Compiler/Code/bench/hardware_profiler.cpp:55-79 | One access in place: hit or miss as the trace decides, counters and all sets as the longer trace has them |
| Lru.CacheModel.Place | Compiler/Code/bench/hardware_profiler.cpp:60-78 | The search and the shifting loops move the line to the front or evict the last |
| Lru.CacheModel.Access | Compiler/Code/bench/hardware_profiler.cpp:82-91 | An access touches its line, or its first and last line, and hits if all touched lines hit |
| Lru.CacheModel.Reset | Compiler/Code/bench/hardware_profiler.cpp:47-53 | Reset forgets the trace |
| Lru.CacheModel.constructor | Compiler/Code/bench/hardware_profiler.cpp:41-45 | An empty cache of the requested geometry |
| Utf8.TextRoundTrip | Compiler/Code/include/vm/text.hpp:18-95 | Decoding the concatenated encodings of any scalar values gives them back |
| Utf8.DecodeIff | Compiler/Code/include/vm/text.hpp:42-82 | At every index either one character of the RFC grammar is consumed and its value returned, or none starts there and the replacement character is returned one byte on |
| Utf8.Utf8CharIff | Compiler/Code/include/vm/text.hpp:18-82 | The grammar of section 4 of RFC 3629 describes exactly the encodings of scalar values |
| Utf8.RoundTrip | Compiler/Code/include/vm/text.hpp:18-82 | Whatever surrounds it, an encoded scalar value decodes to itself |
| Utf8.EncodesBackIff | Compiler/Code/include/vm/text.hpp:18-95 | Decoding and encoding again gives a byte string back if and only if it is the encoding of some text, texts with real replacement characters included |
| Utf8Bits.EncodeWordIs | Compiler/Code/include/vm/text.hpp:18-37 | The encoder's shifts, masks and bitwise ors on machine words give the bytes of the arithmetic encoder, for every word |
| Utf8Bits.DecodeWordIs | Compiler/Code/include/vm/text.hpp:42-82 | The decoder's mask tests, shifts and bitwise ors give the result of the arithmetic decoder, at every index of every byte string |
| Utf8.ReplacedIff | Compiler/Code/include/vm/text.hpp:16-37 | Of the values that are not scalar, those above the last code point are replaced and the surrogates are not |
| Utf8.CodepointCount | Compiler/Code/include/vm/text.hpp:85-95 | The loop terminates with the number of decoded code points, which for encoded text is the number encoded |
| Utf8.EncodeBytes | Compiler/Code/include/vm/text.hpp:18-37 | The byte-by-byte encoder builds the encoding |
| Utf8.EncodingInjective | Compiler/Code/include/vm/text.hpp:18-37 | Different scalar values have different encodings |
| TosCache.RunGeneric | Compiler/Code/include/vm/tos_cache.hpp:40-111 | Any program of pushes, pops, peeks, operations and flushes on a cache of any depth that its one-byte counter can say answers like a plain stack |
| TosCache.RunPair | Compiler/Code/include/vm/tos_cache.hpp:151-221 | So does the register pair, hence the two agree |
| TosCache.GenericCache.Push | Compiler/Code/include/vm/tos_cache.hpp:40-59 | Memory plus slots gains the value on top, with as many slots in use as there are registers for |
| TosCache.GenericCache.Pop | Compiler/Code/include/vm/tos_cache.hpp:61-90 | Memory plus slots loses its top, with the refill from memory |
| TosCache.GenericCache.Peek | Compiler/Code/include/vm/tos_cache.hpp:92-100 | The top is shown |
| TosCache.GenericCache.Flush | Compiler/Code/include/vm/tos_cache.hpp:102-111 | Afterwards memory alone is the stack |
| TosCache.PairCache.Push | Compiler/Code/include/vm/tos_cache.hpp:151-164 | The register pair gains the value on top, and memory is used only when both registers are |
| TosCache.PairCache.Pop | Compiler/Code/include/vm/tos_cache.hpp:166-182 | The register pair loses its top |
| TosCache.PairCache.BinaryOp | Compiler/Code/include/vm/tos_cache.hpp:186-201 | The two top values are replaced by the operation on them, in order, at every fill level |
| TosCache.PairCache.Flush | Compiler/Code/include/vm/tos_cache.hpp:209-221 | Afterwards memory alone is the stack |
| InlineCache.HitsAreCurrent | Compiler/Code/include/vm/inline_cache.hpp:46-122 | After any run of calls and class changes, each change followed by invalidation, a hit is the receiver's current target |
| InlineCache.RunIsSound | Compiler/Code/include/vm/inline_cache.hpp:46-122 | Every such run keeps the entries current and the state in agreement with their number |
| InlineCache.ChangeKeeps | Compiler/Code/include/vm/inline_cache.hpp:103-122 | An invalidation drops exactly the entries of that class, and the others are still current |
| InlineCache.MegamorphicIff | Compiler/Code/include/vm/inline_cache.hpp:65-101 | Since the last invalidation a site has become megamorphic if and only if more than four classes were called or had an entry then; otherwise it has an entry for exactly those |
| InlineCache.ChangeStartsAnew | Compiler/Code/include/vm/inline_cache.hpp:103-122 | After any run an invalidation, of whatever class, ends the megamorphic state and starts that count anew |
| InlineCache.CallHitsIff | Compiler/Code/include/vm/inline_cache.hpp:46-63 | Since the last invalidation, a call hits, with the current target, if and only if at most four classes have been called or had an entry then and the receiver's is one of them |
| InlineCache.HitIff | Compiler/Code/include/vm/inline_cache.hpp:46-63 | A receiver hits if and only if the site is not megamorphic and its class has an entry |
| InlineCache.UpdateIs | Compiler/Code/include/vm/inline_cache.hpp:65-101 | After an update the receiver hits with that target, unless there was neither an entry of it nor room; no other entry changes |
| InlineCache.MethodIC.ProbeEntry | Compiler/Code/include/vm/inline_cache.hpp:46-63 | The search returns the first matching entry and counts hits and misses in 16 bits |
| InlineCache.MethodIC.UpdateEntry | Compiler/Code/include/vm/inline_cache.hpp:65-101 | Replaces the matching entry, adds one, or turns megamorphic |
| InlineCache.MethodIC.InvalidateVtable | Compiler/Code/include/vm/inline_cache.hpp:103-122 | The compaction in place keeps exactly the other entries, in order, and resets the state |
| Arena.ArenaAllocator.Allocate | Compiler/Code/include/compiler/arena.hpp:48-66 | With 64-bit sums: the layout left is exactly the specified one; the range is aligned, inside its block and apart from all ranges since the last reset if and only if no sum wraps around |
| Arena.AllocatedOkIff | Compiler/Code/include/compiler/arena.hpp:48-66 | Ranges stay inside their blocks and apart if and only if `offset + padding + size`, or `size + alignment` for a new block, stays below 2^64 |
| Arena.HugeRequestOverlaps | Compiler/Code/include/compiler/arena.hpp:48-66 | A request of 2^64 - 8 bytes at offset 16 passes the space test, ends far outside its block and moves the offset back, so that the next range overlaps the first |
| Arena.ArenaAllocator.Make | Compiler/Code/include/compiler/arena.hpp:69-82 | The object's range, and a cleanup node exactly for types with a destructor; all ranges stay apart while the sums of both requests fit in 64 bits |
| Arena.ArenaAllocator.Reset | Compiler/Code/include/compiler/arena.hpp:85-90 | Every tracked object is destroyed exactly once, last built first, and one fresh block is left |
| Arena.ArenaAllocator.RunDestructors | Compiler/Code/include/compiler/arena.hpp:104-113 | The list walk runs the tracked destructors in reverse order of construction |
| Arena.ArenaAllocator.AllocateNewBlock | Compiler/Code/include/compiler/arena.hpp:115-119 | A new block, the offset at its start; all earlier ranges stay valid |
| Arena.ArenaAllocator.TotalAllocated | Compiler/Code/include/compiler/arena.hpp:92-95 | The reported total is the memory in all blocks if and only if no block is oversized and the product fits in 64 bits |
| Arena.NewRangeKeeps | Compiler/Code/include/compiler/arena.hpp:48-66 | Taking bytes after the offset keeps every range in its block and all ranges apart |
| Arena.NewBlockIff | Compiler/Code/include/compiler/arena.hpp:48-66 | A new block is taken if and only if offset, least padding and size come to more than one unit in 64-bit sums; it has one unit, or size and alignment if that is more |
| Gemm.GenericKernel | Compiler/Code/include/compiler/native_runtime.hpp:189-211 | Each output row is the plain dot product in 64 bits |
| Gemm.UnrolledKernel | Compiler/Code/include/compiler/native_runtime.hpp:213-252 | So is each row of the four-way unrolled kernel, for all sizes and inputs |
| Gemm.LanesAddUp | Compiler/Code/include/compiler/native_runtime.hpp:223-243 | The four lanes add up to the dot product |
| Gemm.RowExactIff | Compiler/Code/include/compiler/native_runtime.hpp:189-211 | With inputs at one exponent a row is the true dot product in Q(sqrt 3) if and only if both sums fit in 64 bits |
| Gemm.DotIsProducts | Compiler/Code/include/compiler/native_runtime.hpp:189-211 | On ternary weights the additions and subtractions are the sum of the products |
| Gemm.PackedByte | Compiler/Code/include/tafpu/bitnet_engine.hpp:25-54 | Four weights in a byte, the first lowest, 1 as one and -1 as two |
| Gemm.PackedTernaryTensor.constructor | Compiler/Code/include/tafpu/bitnet_engine.hpp:33-37 | A fresh tensor is all zeros |
| Gemm.PackedTernaryTensor.Set | Compiler/Code/include/tafpu/bitnet_engine.hpp:44-56 | Setting changes exactly one two-bit cell |
| Gemm.PackedTernaryTensor.Get | Compiler/Code/include/tafpu/bitnet_engine.hpp:58-67 | Reading returns the stored weight |
| Gemm.StoreFacts | Compiler/Code/include/tafpu/bitnet_engine.hpp:54-55 | The mask and or change one cell of the byte |
| Gemm.Forward | Compiler/Code/include/tafpu/bitnet_engine.hpp:108-145 | Each output is the sign, the positive part, the threshold or the identity of bias plus the sum of products of its row in 64 bits, for every activation but GELU |
## Left out

- Fusion.FusionPreservesMeaning: is stated for chunks without a fused increment, because with one the property is false; `DeadRuns.FusionUpToDeadValues` covers those up to the values left on the stack.
- DeadRuns.FusionUpToDeadValues: assumes that nothing in the canonical run uses such a value, because then the two machines go on with different values; `Heights.Certified` is a sufficient condition on the chunk, not a necessary one. It leaves the stack depth that a pending handler notes aside, because the two stacks differ in depth; throwing itself leaves the modelled machine.
- Pipeline.OptimizerPreservesMeaning: covers chunks without a fused increment, for the same reason; `Heights.CertifiedFusion` covers the others. Calls and returns are those of the cached dispatch loop with fast frames switched on (vm.cpp:1598-1828), and both codes are run with the frames that the scan sized.
- GaussJordan.Solve: works over exact rationals, because the coefficients' own division rounds and may overflow; `TafpuDivision.DivisionExactIff` tells when one division agrees.
- Gcd.FastBinaryGcd: takes unbounded integers, because the absolute value of the least 64-bit integer is undefined in the source; the same goes for the absolute values in `Normalization`.
- TafpuDivision.DivisionExactIff: does not model overflow of the 128-bit intermediates or the final cast, because inputs that large have no defined result.
- Normalization.NormalizePeriodic: does not model wrap-around of the 32-bit exponent, because an exponent that overflows 32 bits has no defined value.
- Tafpu.AddExactIff: takes the exponent gap as an unbounded integer, because overflow of the 32-bit difference is undefined in the source; signed 64-bit overflow, undefined too, is taken as wrap-around.
- InlineCache.HitsAreCurrent: assumes that every class change is followed by an invalidation, because the VM leaves that to its callers; one call site is modelled, the table of all call sites is a map of them.
- Mpmc.QueueIsSafe: uses sequentially consistent steps and unbounded tickets, because memory-order weakening and size_t wrap-around are outside this model; `pos & mask` is `pos % capacity`.
- Scheduler.SchedulerConserves: the queue operations are atomic first-in first-out steps that may fail spuriously; `QueuedScheduler.EveryRunIsFifo` shows that the real queues give no more. Liveness, yielding, sleeping and thread joins are not modelled, because the source promises none of them in terms of steps.
- TosCache.RunGeneric: allows depths up to 255, because the depth counter is one byte; the source documents 0 to 4.
- Lru.HitIff: leaves line zero out, because the source keeps zero in unused ways and cannot tell them apart; `Lru.ZeroHitIff` is its exact condition.
- WorkerTurns.UndisturbedRound: is about one worker alone between two of its looks; with others interleaved, `WorkerOrder` holds.
- Arena.AllocatedOkIff: is an equivalence for alignments that added to the last block's size stay below 2^64, because a larger one can wrap around and still land in unused bytes; memory itself never runs out in the model.
- Frames.RunsStayInFrames: covers code with the field inline caches switched off, because the two length tables disagree on them (3 bytes at opt_bytecode.hpp:393-394, 7 at 544-546).
- FastCalls.LoweringIsExact: compares what a call pushes and that a return is a return, because it is about single instructions; the runs are in `Pipeline.LoweredRunsAgreeIff`.
- Calls.CallersKeepLocals: is about locals, and about operand stacks only as far as a return gives the caller its own back: an activation that takes values from below its own operand stack ends the modelled run as an underflow, in both codes alike, while the source reads its caller's.
- The other dispatch loops (vm.cpp:3403-3612), where a call or return on a short stack throws or takes less, the growth of the locals' memory, and the end of the frame that a store outside it moves (vm.cpp:1112): verified frames exclude the last.
- Field inline caches, opcode quickening at run time, and the warm-up pass.
- Values other than nil, booleans and 64-bit integers: strings, floats, arrays, objects and exact numbers; a heap-allocated integer and an immediate one are the same value.
- Host calls, indirect and method calls, and the remaining opcodes: an instruction outside the modelled set stops the run with its operands, in both machines alike.
- Debug line tables, telemetry counters and the warm-up counters of the optimized chunk.
- The emitter beyond the head of a range loop; that its jumps are sound is a hypothesis a caller can check.
- The floating-point fallbacks of addition and comparison at odd or unequal exponents (the model reports that they were taken), and the quadratic solver.
- The activation GELU, softmax confidence, the engine registry and the AVX dispatch; the unrolled kernel is modelled coefficient by coefficient.
- `clear` of the top-of-stack caches and the profiling counters beside them.
- Construction and destruction of objects in the arena beyond their order, and move construction of arenas.
- The ternary search tree, symbol tables, frame arenas and the VM stack: correct but easy.
- JIT tiers and their call counters, intermediate representations, garbage collector and its safepoints, parser, type checker and quantum simulator: not part of this model.
