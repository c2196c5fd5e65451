# Verified models of the compiler, simulator and tool projects

The repository is a collection of independent programs. This project models their cores in Dafny 4.11 and proves
what those cores are for. `dafny verify dfyconfig.toml` checks everything.

* **RISC-V pipeline** (`Riscv*.dfy`). Five stages with forwarding and flush, as classes whose fields are the latches.
  The pipeline computes what one-instruction-at-a-time execution computes, as long as no branch's rd field names a
  source of one of the next two instructions and no load is followed by a use; a program that breaks this shows the
  difference, and a bypass is exact if and only if the register matches no instruction that does not write it. Which
  tick is the last is stated exactly, in terms of sequential execution and of the words fetched ahead of it.
  The sequential meaning is the code's own: unsigned branches, pc-relative JALR. What it is for every instruction word
  is said in numbers and bits (`RiscvMeanings.dfy`), over words put together from registers and signed immediates.
* **Compiler IR.** Semidominators over a path-compressing forest and the immediate dominators that come of them
  (`ControlFlow.dfy`, `Dfs*.dfy`, `Dsu.dfy`, `SemiDominators.dfy`, `ImmediateDominators.dfy`, `DomTree.dfy`); liveness
  and linear scan (`Live*.dfy`, `LinearScan*.dfy`), joined in `LiveAllocation.dfy`; dead code elimination (`Dce*.dfy`)
  and check elimination (`Check*.dfy`), which preserve what a program does; natural loops (`Loop*.dfy`); traversal, graph
  copy, the intrusive instruction list and the stamped markers (`Traversals.dfy`, `GraphCopy*.dfy`, `BlockList.dfy`,
  `Markers.dfy`).
* **Toy language back end** (`Lang*.dfy`). Tree to assembly, the text of operands included, assembly to bytes in two
  passes, bytes to effects: the composition does what the source statement means, and exactly which numbers get
  through `%lg` and `sscanf` is stated. The byte code is listed in numbers
  (`LangListing.dfy`). `LangDisk.dfy` is the tree's way over the disk.
* **Mandelbrot** (`Mandelbrot.dfy`). The eight-lane kernel paints the picture of the scalar one, over real numbers, and
  what the picture is, pixel by pixel.
* **Binary translator** (`X86*.dfy`). Layout and emission agree byte for byte, and jumps land; the bytes of
  every command are listed in `X86Listing.dfy`.
* **File format of the virtual machine** (`Leech*.dfy`). What is written is read back, and the
  layout of the bytes themselves is stated (`LeechLayout.dfy`).

A `double` is a real number where arithmetic matters and eight opaque bytes elsewhere; the language back end only
assumes that addition, multiplication and equality commute, that small integers are exact, and that six decimal digits
survive in a double. Exceptions and failed assertions are results. Pops in `StackPop() op StackPop()` happen left to
right. Where a pass asks for dominance, it is dominance by paths. Ghost members (`list`, `paths`,
`order` and the like) record what a structure stands for.

Proofs follow one pattern: a predicate says what the tables mean while an algorithm is under way, small lemmas say
what one step does to it, and the method's contract ties the run to a path-based or functional definition.

## What the proofs brought out

* `PushForwardInstruction` in a block with phis and other instructions leaves the last phi pointing past the new
  instruction (ir/BasicBlock.cpp:178-182); `BlockList.BasicBlock.PushInstruction` states exactly when the list is good.
  The same holds for `InsertAfter` a phi, `InsertBefore` the first non-phi behind phis, and splitting behind the last phi.
* A pop into an immediate reserves one byte and emits eleven (`X86Encoding.SizedIff`).
* A number from a million on is printed with `e+`, which the assembler takes for a register plus the exponent
  (`LangOperands.MillionIsSix`, `LangOperands.LoadedIff`).
* `computeSDoms` links a block before it drains the block's bucket, so that the forest also answers with the block
  itself; some immediate dominators are wrong, and exactly which is stated (`ImmediateDominators.SettledIff`).
* Words behind a jump are decoded before they are flushed, so one that cannot be decoded ends the run even when the
  jump is taken (`RiscvProgress.TickFaultsIff`).
* An object merged from another marker manager can read as marked by a marker held at that moment
  (`Markers.GuestLooksMarked`).
* A loaded file has lost its argument counts, and one with a None constant does not load (`LeechFiles.FileBack`).
* `LiveIntervals::begin` visits intervals last first, although the allocator's comment says ascending; in that order no
  register is ever released, except by intervals that are empty (`LinearScanTheorems.DescendingApart`).

## Model

| member | source | states |
|---|---|---|
| RiscvRefinement.Refinement | riscv-pipelined-cpu-sim/pipeline/pipeline.cpp:13-254 | after any number of ticks that the run gets to from reset, completing the instructions in MEM and WB gives exactly the registers, memory and next address of executing the retired instructions one at a time; wrong-path instructions leave no trace |
| RiscvProgress.TickFaultsIff | riscv-pipelined-cpu-sim/pipeline/pipeline.cpp:13-80 | a tick is the last of a run if and only if a retired instruction faults, the next one goes to a misaligned address, the word now to be decoded cannot be, or the fetch is outside the section with no jump or branch being decoded; words fetched behind a jump are decoded whether or not it is taken |
| RiscvProgress.Progress | riscv-pipelined-cpu-sim/pipeline/pipeline.cpp:13-119 | as long as sequential execution goes on, over words that can be decoded and with the next two inside the section, the pipeline goes on ticking |
| RiscvProgress.RefinementOfClearRuns | riscv-pipelined-cpu-sim/pipeline/pipeline.cpp:13-254 | for such programs, with nothing assumed of the run: n ticks succeed, show what executing the retired instructions leaves, and have retired at least a third of n less the pipeline fill |
| RiscvRefinement.Simulates | riscv-pipelined-cpu-sim/pipeline/pipeline.cpp:13-254 | a tick with a bubble in EX changes nothing a programmer sees; any other tick is one sequential step |
| RiscvRefinement.Throughput | riscv-pipelined-cpu-sim/pipeline/pipeline.cpp:194-254 | n successful ticks retire at least a third of n instructions, less the two that fill the pipeline: nothing is dropped or starved |
| RiscvRefinement.RegisterFileCatchesUp | riscv-pipelined-cpu-sim/pipeline/pipeline.cpp:82-119 | two ticks later, if they succeed, the register file itself holds what draining the pipeline foresees |
| RiscvRefinement.BypassExactIff | riscv-pipelined-cpu-sim/pipeline/pipeline.cpp:194-247 | a bypass delivers the architectural value for all data in flight if and only if the register number matches no instruction in flight that does not write it |
| RiscvRefinement.BypassIsExact | riscv-pipelined-cpu-sim/pipeline/pipeline.cpp:194-247 | the bypass selected for a register gives its value after MEM and WB complete |
| RiscvRefinement.OperandsExact | riscv-pipelined-cpu-sim/pipeline/pipeline.cpp:121-160 | EX sees the architectural operands and nothing stalls |
| RiscvRefinement.ExecuteIsStep | riscv-pipelined-cpu-sim/pipeline/pipeline.cpp:121-160 | what EX computes is the sequential meaning of its instruction, redirection and misaligned targets included |
| RiscvRefinement.MemoryCompletes | riscv-pipelined-cpu-sim/pipeline/pipeline.cpp:162-178 | the memory stage completes its instruction: its effect is the write that waits in WB |
| RiscvRefinement.DecodeFacts | riscv-pipelined-cpu-sim/pipeline/control_unit.h:30-189 | formats without rs1 or rs2 do not depend on that operand; loads, stores and branches have the write signals they need |
| RiscvRefinement.ResetHolds | riscv-pipelined-cpu-sim/pipeline/pipeline.cpp:8-11 | the reset state stands for the initial registers and memory |
| RiscvCounterexample.AliasedBranchForwardsZero | riscv-pipelined-cpu-sim/pipeline/pipeline.cpp:208-240 | a three-instruction program whose branch has rd-field bits naming a later source: five ticks leave 0 where one-at-a-time execution leaves 5 |
| RiscvPipeline.Pipeline.Tick | riscv-pipelined-cpu-sim/pipeline/pipeline.cpp:13-30 | the stage methods in the order of the source compute the tick the refinement is about, faults included |
| RiscvPipeline.Pipeline.DoFetch | riscv-pipelined-cpu-sim/pipeline/pipeline.cpp:32-80 | fetch, next address and the start of shutdown, with every exception |
| RiscvPipeline.Pipeline.DoDecode | riscv-pipelined-cpu-sim/pipeline/pipeline.cpp:82-119 | write-before-read register file, control signals and the EX latch |
| RiscvPipeline.Pipeline.DoExecute | riscv-pipelined-cpu-sim/pipeline/pipeline.cpp:121-160 | operand selection, ALU, comparison, redirection and the MEM latch |
| RiscvPipeline.Pipeline.DoMemory | riscv-pipelined-cpu-sim/pipeline/pipeline.cpp:162-178 | data memory access, WB latch and the value bypassed from MEM |
| RiscvPipeline.Pipeline.HazardUnitTick | riscv-pipelined-cpu-sim/pipeline/pipeline.cpp:194-247 | flush on redirect, bypass selection, stall and restart |
| RiscvPipeline.RegFile.Tick | riscv-pipelined-cpu-sim/modules/regfile.h:14-25 | writes before it reads, and never writes register 0 |
| RiscvPipeline.Register.Tick | riscv-pipelined-cpu-sim/modules/register.h:14-19 | the latch moves only when enabled |
| RiscvPipeline.ControlUnit.Tick | riscv-pipelined-cpu-sim/pipeline/control_unit.h:30-189 | the signals of the decode table, or its exception |
| RiscvRun.RunPipeline | riscv-pipelined-cpu-sim/pipeline/pipeline.cpp:256-264 | a run ends at the first fault or shutdown tick and not before; a run without one shows the registers of sequential execution |
| RiscvMeanings.RegisterInstruction | riscv-pipelined-cpu-sim/pipeline/control_unit.h:61-103 | the sequential step on a word of opcode 0x33 writes to rd, as funct3 and funct7 say, the sum, the difference, the shift by places with the sign filling in for SRA, the signed or unsigned comparison, or the XOR, OR or AND bit by bit; other values of funct7 fault for ADD/SUB and SRL/SRA |
| RiscvMeanings.ImmediateInstruction | riscv-pipelined-cpu-sim/pipeline/control_unit.h:104-144 | the word of opcode 0x13 with a signed immediate does the same with the immediate modulo 2^32 as second operand |
| RiscvMeanings.Lui | riscv-pipelined-cpu-sim/pipeline/control_unit.h:145-148 | writes the upper twenty bits |
| RiscvMeanings.Auipc | riscv-pipelined-cpu-sim/pipeline/control_unit.h:145-148 | adds them to the address of the instruction |
| RiscvMeanings.Jal | riscv-pipelined-cpu-sim/pipeline/pipeline.cpp:121-160 | jumps by the signed immediate, keeps the next address in rd, faults on a misaligned target |
| RiscvMeanings.Jalr | riscv-pipelined-cpu-sim/pipeline/pipeline.cpp:121-160 | the same by register plus immediate with the low bit cleared, counted from the instruction itself |
| RiscvMeanings.BranchInstruction | riscv-pipelined-cpu-sim/modules/cmp.h:46-66 | for each funct3 when the branch is taken, both orders being the unsigned one, and where it goes |
| RiscvMeanings.LoadInstruction | riscv-pipelined-cpu-sim/modules/data_mem_unit.h:102-160 | signed and unsigned loads from the bytes at register plus immediate, the fault beyond 16384 and the modes that are none |
| RiscvMeanings.StoreInstruction | riscv-pipelined-cpu-sim/modules/data_mem_unit.h:76-143 | every byte of memory after a store of one, two or four bytes, and when it faults |
| RiscvMeanings.SystemWord | riscv-pipelined-cpu-sim/pipeline/control_unit.h:31-37 | which words end the run as unsupported or as a breakpoint |
| RiscvMeanings.UnknownWord | riscv-pipelined-cpu-sim/pipeline/control_unit.h:41-48 | a word of any other opcode writes 0 to the register in its rd places |
| RiscvMeanings.NothingLoaded | riscv-pipelined-cpu-sim/modules/instr_mem_unit.h:28-30 | beyond what is loaded memory reads as words that do nothing |
| RiscvMeanings.UndecodableIff | riscv-pipelined-cpu-sim/pipeline/control_unit.h:30-189 | exactly which words cannot be decoded, by opcode, funct3 and funct7 |
| RiscvMeanings.ComparesIff | riscv-pipelined-cpu-sim/pipeline/instruction.h:71-78 | which registers a word uses and which the hazard unit compares, by the places of the word |
| RiscvBits.BitwiseBits | riscv-pipelined-cpu-sim/modules/alu.h:73-78 | every bit of the AND, OR and XOR of two words |
| RiscvBits.ShiftBits | riscv-pipelined-cpu-sim/modules/alu.h:79-88 | every bit of the three shifts by the low five bits of the amount |
| RiscvEncoding.IImmediate | riscv-pipelined-cpu-sim/pipeline/instruction.h:150-155 | the immediate of an I-type word is the signed number it was put together from, modulo 2^32 |
| RiscvEncoding.SImmediate | riscv-pipelined-cpu-sim/pipeline/instruction.h:156-162 | the same for stores |
| RiscvEncoding.BImmediate | riscv-pipelined-cpu-sim/pipeline/instruction.h:163-170 | the same for branches, whose bit 11 stands apart |
| RiscvEncoding.JImmediate | riscv-pipelined-cpu-sim/pipeline/instruction.h:171-178 | the same for jumps, whose bits are out of order |
| RiscvEncoding.UImmediate | riscv-pipelined-cpu-sim/pipeline/instruction.h:179-181 | the upper immediate at its place |
| RiscvEncoding.Fields | riscv-pipelined-cpu-sim/pipeline/instruction.h:23-45 | the fields of a word put together from them |
| RiscvEncoding.EveryWord | riscv-pipelined-cpu-sim/pipeline/instruction.h:23-45 | every word is put together from its fields |
| DomTree.DomTreeBuilder.Build | JIT-AOT-Compilers-master/analysis/DomTree.h:158-192 | reports whether all blocks can be reached; if so the visit numbers form a depth-first tree, the table entry of every block but the entry is its semidominator by paths, and the block entered as immediate dominator is the immediate dominator, by paths, if and only if the block is settled right |
| ImmediateDominators.SettledIff | JIT-AOT-Compilers-master/analysis/DomTree.h:172-192 | what the two passes settle on is the immediate dominator exactly when nothing between the block and its semidominator reaches past it, or what reaches furthest does not fall short of the semidominator and is settled right itself |
| ImmediateDominators.AllSettledIff | JIT-AOT-Compilers-master/analysis/DomTree.h:172-192 | all immediate dominators are right exactly when no block is missed: something between reaches past the semidominator, but the semidominator of that reaches further |
| ImmediateDominators.CrossedIsWrong | JIT-AOT-Compilers-master/analysis/DomTree.cpp:54-68 | five blocks on which the last settles on block 2, although 0, 1, 3, 4 is a path |
| ImmediateDominators.SemiIsIdom | JIT-AOT-Compilers-master/analysis/DomTree.cpp:59-64 | the semidominator is the immediate dominator when nothing between reaches past it |
| ImmediateDominators.SameIdom | JIT-AOT-Compilers-master/analysis/DomTree.h:176-179 | otherwise the immediate dominator is that of the block between that reaches furthest |
| ImmediateDominators.SemiBypassed | JIT-AOT-Compilers-master/analysis/DomTree.cpp:59-68 | and the semidominator does not even dominate |
| DomTree.DomTreeBuilder.ComputeIDoms | JIT-AOT-Compilers-master/analysis/DomTree.h:172-192 | the ascending loop follows each choice once, to a settled block |
| DomTree.DomTreeBuilder.ComputeSDoms | JIT-AOT-Compilers-master/analysis/DomTree.cpp:43-70 | the descending loop leaves the semidominator of every block in the table, and for every block the choice that linking before draining makes |
| DomTree.AnswerIsChosen | JIT-AOT-Compilers-master/analysis/DomTree.cpp:59-68 | the forest answer for a block includes its semidominator, and is the lowest block of least semidominator down to there |
| DomTree.DomTreeBuilder.DfsTraverse | JIT-AOT-Compilers-master/analysis/DomTree.cpp:26-41 | numbers a subtree: new blocks are descendants, finished, and old ones are untouched |
| DomTree.AnswerContributes | JIT-AOT-Compilers-master/analysis/DomTree.cpp:47-52 | the forest answer for a predecessor is the least semidominator that predecessor contributes |
| DomTree.BlockDone | JIT-AOT-Compilers-master/analysis/DomTree.cpp:47-52 | the minimum over the predecessors is the semidominator |
| SemiDominators.MinimumIsSemi | JIT-AOT-Compilers-master/analysis/DomTree.cpp:43-57 | the recurrence over predecessors and their ancestors computes the path-based semidominator |
| SemiDominators.LowerBound | JIT-AOT-Compilers-master/analysis/DomTree.cpp:47-52 | no semi-path starts at a number below the computed minimum |
| SemiDominators.Attained | JIT-AOT-Compilers-master/analysis/DomTree.cpp:47-52 | the computed minimum is the number of a block with a semi-path |
| DfsTree.Interval | JIT-AOT-Compilers-master/analysis/DomTree.cpp:26-41 | descendants have a contiguous range of visit numbers |
| DfsTree.PathAbove | JIT-AOT-Compilers-master/analysis/DomTree.cpp:26-41 | a path that stays at or above the number of its first block stays in its subtree |
| DfsSearch.Completed | JIT-AOT-Compilers-master/analysis/DomTree.cpp:26-41 | when all blocks are numbered and finished, every edge goes down the tree or to a smaller number |
| Dsu.DSU.Find | JIT-AOT-Compilers-master/analysis/DSU.cpp:5-13 | answers with the first block of least semidominator on the uncompressed path to the root, root excluded |
| Dsu.DSU.Compress | JIT-AOT-Compilers-master/analysis/DSU.cpp:15-31 | recursive compression keeps the tables a picture of the links and leaves blocks off the path alone |
| Dsu.DSU.Unite | JIT-AOT-Compilers-master/analysis/DSU.h:33-35 | adds one link to the forest |
| Dsu.CompressStep | JIT-AOT-Compilers-master/analysis/DSU.cpp:25-30 | pointing a block at the root and taking the better label keeps every answer |
| Dsu.AnswersAgree | JIT-AOT-Compilers-master/analysis/DSU.cpp:5-31 | the block answered depends on the links alone, never on earlier compression |
| Dsu.RootsMayChange | JIT-AOT-Compilers-master/analysis/DomTree.cpp:47-52 | semidominators of blocks not linked yet may change freely |
| LangProgram.ProgramCorrect | ProgrammingLanguage-main/backend/tree_to_asm.cpp:6-274 | printing, assembling and running a statement halts; RAM then shows every variable with its value in the source language, for the tree whose numbers are what `push` of their printed text delivers, which is the tree itself if and only if every number survives |
| LangProgram.CompileAndRun | ProgrammingLanguage-main/execution/proc/proc.cpp:57-74 | the three stages as they run: the processor holds the assembled lines of the program and runs them for at most n commands; it stops exactly when that run halts, which it does from some number of commands on, it never fails, and when it has stopped RAM is right |
| LangProgram.BoundedRun | ProgrammingLanguage-main/execution/proc/proc.cpp:57-74 | for any assembled file of the program there is a number of commands from which on every run halts; no run fails, and every halted one shows the result |
| LangListing.LineListing | ProgrammingLanguage-main/execution/general_includes/codegen/cmds.h:5-252 | the bytes of every line, ids and flags in numbers |
| LangListing.ArithmeticListing | ProgrammingLanguage-main/execution/general_includes/codegen/cmds.h:47-67 | what the bytes 2, 3, 4, 5 and 19 do to the stack |
| LangListing.JumpListing | ProgrammingLanguage-main/execution/general_includes/codegen/cmds.h:107-207 | what the bytes 9, 14, 15 and 17 do: the destination is the number behind the command |
| LangListing.ControlListing | ProgrammingLanguage-main/execution/general_includes/codegen/cmds.h:210-222 | what the bytes 0, 18 and 28 do |
| LangListing.PushListing | ProgrammingLanguage-main/execution/general_includes/codegen/cmds.h:12-25 | what push of a number, of a register and of RAM at their sum does, by its command byte |
| LangListing.PopRamListing | ProgrammingLanguage-main/execution/general_includes/codegen/cmds.h:28-44 | what pop into RAM at the sum of number and register does, by its command byte |
| LangListing.PopRegListing | ProgrammingLanguage-main/execution/general_includes/codegen/cmds.h:28-44 | what pop into a register does, by its command byte |
| LangListing.AssignmentLines | ProgrammingLanguage-main/backend/tree_to_asm.cpp:6-23 | the lines of the program that assigns a number to a variable |
| LangListing.AssignmentBytes | ProgrammingLanguage-main/execution/asm/asm.cpp:49-109 | and all of its bytes, with the addresses of its slot and of `main` |
| LangOperands.LoadedIff | ProgrammingLanguage-main/backend/tree_to_asm.cpp:255-258 | a pushed number reaches the machine as it is in the tree if and only if it has at most six significant digits and is printed below a million |
| LangOperands.ConstantParsed | ProgrammingLanguage-main/execution/asm/asm.cpp:166-208 | what the assembler makes of the printed text of any double: the decimal shown, or register 0 plus the exponent when it is printed with `e+` |
| LangOperands.MillionIsSix | ProgrammingLanguage-main/execution/asm/asm.cpp:180-190 | `x = 1000000` prints `push 1e+06`, which is read as a register plus 6, and leaves 6 in `x` |
| LangOperands.AllLoadedIff | ProgrammingLanguage-main/backend/tree_to_asm.cpp:255-258 | the numbers loaded are those of the tree exactly when all of them survive |
| LangOperands.SurvivingDecimal | ProgrammingLanguage-main/backend/tree_to_asm.cpp:255-258 | every decimal of at most six digits below a million survives |
| LangOperands.SlotParsed | ProgrammingLanguage-main/execution/asm/asm.cpp:257-273 | the text of a slot is read as its number plus rax, in RAM |
| LangOperands.RegisterParsed | ProgrammingLanguage-main/execution/asm/asm.cpp:296-307 | a register is read by its letter |
| LangNumerals.NumeralRead | ProgrammingLanguage-main/backend/tree_to_asm.cpp:257-257 | reading back what `%lg` prints of any double gives the six digits and the exponent shown, whatever follows |
| LangNumerals.LargeExample | ProgrammingLanguage-main/backend/tree_to_asm.cpp:257-257 | a million is printed `1e+06` |
| LangNumerals.FractionExample | ProgrammingLanguage-main/backend/tree_to_asm.cpp:257-257 | the printed form of a decimal fraction |
| LangNumerals.TinyExample | ProgrammingLanguage-main/backend/tree_to_asm.cpp:257-257 | the printed form of a small number, with its exponent |
| LangProgram.HaltedStays | ProgrammingLanguage-main/execution/proc/proc.cpp:57-74 | a halted run is the same whatever the bound on commands |
| LangProgram.PrintCmdsInFile | ProgrammingLanguage-main/backend/tree_to_asm.cpp:6-23 | the prologue, the body and the epilogue of the file |
| LangProgram.NamesDistinct | ProgrammingLanguage-main/backend/tree_to_asm.cpp:277-307 | no variable gets two slots |
| LangStatements.StmtCorrect | ProgrammingLanguage-main/backend/tree_to_asm.cpp:45-168 | a statement does to RAM what it means, at the slots of its variables and nowhere else, and leaves the stack as it was |
| LangStatements.CondCorrect | ProgrammingLanguage-main/backend/tree_to_asm.cpp:118-130 | a condition falls through when it holds and jumps to its label when not |
| LangTheorem.ExprCorrect | ProgrammingLanguage-main/backend/tree_to_asm.cpp:79-274 | an expression pushes its value over the numbers that are loaded, and changes nothing else |
| LangLabels.LabelRange | ProgrammingLanguage-main/backend/tree_to_asm.cpp:139-159 | printing defines labels numbered from the counter before to the counter after |
| LangLabels.Layout | ProgrammingLanguage-main/backend/tree_to_asm.cpp:139-159 | a conditional has its labels once and in the places the jumps expect |
| LangPrinter.Printer.PrintOperation | ProgrammingLanguage-main/backend/tree_to_asm.cpp:26-274 | the recursive printer with its counters and name table prints the functional form the proofs use |
| LangPrinter.Printer.GetVariablePos | ProgrammingLanguage-main/backend/tree_to_asm.cpp:277-307 | finds a variable or appends it at the next slot |
| LangAssembler.RawToBin | ProgrammingLanguage-main/execution/asm/asm.cpp:23-47 | after two passes every line has its bytes in place and every jump holds the byte position of the label it names |
| LangAssembler.Assembler.HandlePushPop | ProgrammingLanguage-main/execution/asm/asm.cpp:166-208 | the three scanning patterns one after the other put the command byte, the number and the register that the text stands for in place |
| LangAssembler.Assembler.EachLineToBin | ProgrammingLanguage-main/execution/asm/asm.cpp:49-55 | one pass leaves the label table of its lines; a pass that started from it assembles them |
| LangAssembler.Assembler.CmdsToZero | ProgrammingLanguage-main/execution/asm/asm.cpp:58-62 | the second pass starts over behind the header |
| LangAssembler.SecondPass | ProgrammingLanguage-main/execution/asm/asm.cpp:127-163 | a second pass over the same lines leaves the table alone |
| LangAssembler.TableKeeps | ProgrammingLanguage-main/execution/asm/asm.cpp:127-163 | after a pass every label met is found, and none is lost or moved |
| LangMachine.Processor.Execute | ProgrammingLanguage-main/execution/proc/proc.cpp:57-74 | the loop over commands is the step relation iterated |
| LangMachine.Processor.ProcessCommand | ProgrammingLanguage-main/execution/general_includes/codegen/cmds.h:5-252 | one opcode body does what the step relation says to stack, registers, RAM and ip |
| LangDisk.DiskRoundTrip | ProgrammingLanguage-main/frontend/write_on_disk.cpp:18-61 | a tree written to disk is read back, with call names as names and nothing left over, if and only if names stand exactly where function names are expected, variables have no children, every operation has a word, and every number has at most six significant digits and is no infinity or NaN without a sign |
| LangDisk.ReadsBack | ProgrammingLanguage-main/backend/parser_backend.cpp:22-91 | storable trees come back whatever follows them |
| LangDisk.Misread | ProgrammingLanguage-main/backend/parser_backend.cpp:22-91 | any other tree comes back different, whatever follows it |
| LangDisk.WordsReturn | ProgrammingLanguage-main/backend/parser_backend.cpp:328-374 | exactly which operation words are read as the operation written |
| LangDisk.DiskListing | ProgrammingLanguage-main/frontend/write_on_disk.cpp:18-61 | the pieces of an operation on disk: prefix order, braces, `nil` for a missing child |
| LangDisk.NameListing | ProgrammingLanguage-main/frontend/write_on_disk.cpp:18-61 | the pieces of a function name with and without a parameter, and of a call name |
| LangDisk.TreeWriter.RecPrintNode | ProgrammingLanguage-main/frontend/write_on_disk.cpp:18-61 | the recursive writer appends the printed form |
| LangDisk.TreeReader.RecGetChild | ProgrammingLanguage-main/backend/parser_backend.cpp:22-91 | the recursive reader advances over exactly one tree, with the function-name flag threaded |
| LangDisk.TreeReader.FillTokensArray | ProgrammingLanguage-main/backend/parser_backend.cpp:207-286 | the tokens of the file, ended by the terminator |
| LangDisk.TreeReader.GetGrammar | ProgrammingLanguage-main/backend/parser_backend.cpp:9-19 | reading a written file gives the expected tree exactly when it was storable |
| LinearScanRegAlloc.Allocator.AllocateAndAssignRegs | JIT-AOT-Compilers-master/codegen/LinearScanRegAlloc.cpp:22-33 | the loop computes the allocation the theorems are about, or stops where there is nothing to spill |
| LinearScanRegAlloc.Allocator.ExpireOldIntervals | JIT-AOT-Compilers-master/codegen/LinearScanRegAlloc.cpp:35-47 | releases the registers of intervals that ended, in order |
| LinearScanRegAlloc.Allocator.SpillAtInterval | JIT-AOT-Compilers-master/codegen/LinearScanRegAlloc.cpp:49-61 | the visited interval goes to the next slot when the last active one ends before it; otherwise that one does, and the visited interval has its register |
| LinearScanRegAlloc.Allocator.AddActiveInterval | JIT-AOT-Compilers-master/codegen/LinearScanRegAlloc.cpp:63-71 | inserts where the active list stays sorted by end |
| LinearScanRegAlloc.RegMap.AcquireReg | JIT-AOT-Compilers-master/codegen/RegMap.h:32-41 | takes the least free register |
| LinearScanChoice.VisitChoice | JIT-AOT-Compilers-master/codegen/LinearScanRegAlloc.cpp:24-61 | every visit: the lowest register not in use; if there is none, the interval that ends last goes to the next stack slot, on a tie the active one, and the visited interval has its register; no answer exactly when no interval is active |
| LinearScanChoice.VisitFull | JIT-AOT-Compilers-master/codegen/LinearScanRegAlloc.cpp:49-61 | the choice of the interval that goes to the stack when the map is full |
| LinearScanChoice.VisitFree | JIT-AOT-Compilers-master/codegen/LinearScanRegAlloc.cpp:80-85 | the choice of the register when one is free |
| LinearScanTheorems.RunFailsIff | JIT-AOT-Compilers-master/codegen/LinearScanRegAlloc.cpp:22-61 | the run has no answer exactly when some visit finds every register swapped away |
| LinearScanTheorems.OverlappingApart | JIT-AOT-Compilers-master/codegen/LinearScanRegAlloc.cpp:22-85 | intervals in increasing order of begin: overlapping ones end in different locations |
| LinearScanTheorems.DescendingApart | JIT-AOT-Compilers-master/codegen/LinearScanRegAlloc.cpp:22-85 | intervals in the order the code visits them, last first, empty ones among them: no two that are not empty share a location |
| LinearScanTheorems.DescendingSlots | JIT-AOT-Compilers-master/codegen/LinearScanRegAlloc.cpp:22-85 | in that order everything beyond the first registers costs a stack slot each |
| LinearScanTheorems.HeldCount | JIT-AOT-Compilers-master/codegen/LinearScanRegAlloc.cpp:22-85 | active intervals and register swaps together are the registers held |
| LinearScanTheorems.FullIff | JIT-AOT-Compilers-master/codegen/RegMap.h:28-30 | the map reads full exactly when all registers are held |
| LinearScanTheorems.NoVictimIff | JIT-AOT-Compilers-master/codegen/LinearScanRegAlloc.cpp:49-61 | the allocator finds no interval to spill exactly when every register was swapped away |
| LinearScanTheorems.NothingSpilled | JIT-AOT-Compilers-master/codegen/LinearScanRegAlloc.cpp:22-33 | when never more intervals overlap than there are registers, nothing goes to the stack |
| LiveAllocation.AnalyseAndAllocate | JIT-AOT-Compilers-master/codegen/LinearScanRegAlloc.cpp:15-33 | analysis and allocation run one after the other: the intervals are the least ones around the live positions, the locations those of the linear scan over them; it finishes exactly when no visit finds every register swapped away, and then values live at the same position have different locations |
| LiveAllocation.LiveTogetherApart | JIT-AOT-Compilers-master/codegen/LinearScanRegAlloc.cpp:22-85 | the same for the intervals of any graph in strict form, in the order the container iterates |
| LiveAllocation.HullsFall | JIT-AOT-Compilers-master/ir/LiveAnalysisStructs.h:220-225 | that order visits the intervals that are not empty with falling begins |
| LiveOrder.BirthsComplete | JIT-AOT-Compilers-master/analysis/LivenessAnalyzer.cpp:40-52 | every definition is among the intervals |
| LiveOrder.BirthsDistinct | JIT-AOT-Compilers-master/analysis/LivenessAnalyzer.cpp:40-52 | and no value is there twice |
| LiveOrder.FirstCovered | JIT-AOT-Compilers-master/analysis/LivenessAnalyzer.cpp:75-78 | the first live position of a value is that of its definition, or for a phi the begin of its block |
| LiveOrder.LiveOutPlace | JIT-AOT-Compilers-master/analysis/LivenessAnalyzer.cpp:54-110 | a value is live out only of its own block and later ones |
| LiveAllocation.HullLeast | JIT-AOT-Compilers-master/ir/LiveAnalysisStructs.h:123-128 | the interval of a value is the least one around its live positions |
| LivenessAnalyzer.LivenessAnalyzer.Run | JIT-AOT-Compilers-master/analysis/LivenessAnalyzer.cpp:9-19 | live-in sets are liveness by paths, ranges stay ordered and apart and cover exactly the live positions, and no assertion fails |
| LivenessAnalyzer.LivenessAnalyzer.CalculateLiveRanges | JIT-AOT-Compilers-master/analysis/LivenessAnalyzer.cpp:54-99 | one block backwards keeps the ranges exact |
| LivenessAnalyzer.LivenessAnalyzer.CalculateInitialLiveSet | JIT-AOT-Compilers-master/analysis/LivenessAnalyzer.cpp:101-110 | the live-out set: successors and the phi inputs of their edges |
| LivenessAnalyzer.LivenessAnalyzer.OrderInstructions | JIT-AOT-Compilers-master/analysis/LivenessAnalyzer.cpp:40-52 | phis share the number of the block, other instructions are two apart |
| LiveGraph.LiveInEquation | JIT-AOT-Compilers-master/analysis/LivenessAnalyzer.cpp:54-110 | the data-flow equation follows from liveness by paths |
| LiveGraph.UnusedElsewhere | JIT-AOT-Compilers-master/analysis/LivenessAnalyzer.cpp:71-89 | a value not live out of its block is used in no other block |
| LivePositions.WholeBlock | JIT-AOT-Compilers-master/analysis/LivenessAnalyzer.cpp:65-67 | adding the whole block for live-out values is exact |
| LivePositions.UseStep | JIT-AOT-Compilers-master/analysis/LivenessAnalyzer.cpp:84-88 | adding the range up to a use is exact |
| LivePositions.DefStep | JIT-AOT-Compilers-master/analysis/LivenessAnalyzer.cpp:75-78 | cutting the range at the definition is exact |
| LiveRanges.AddCovers | JIT-AOT-Compilers-master/ir/LiveAnalysisStructs.cpp:21-34 | adding a range adds exactly its positions and fails no assertion |
| LiveRanges.SetCovers | JIT-AOT-Compilers-master/ir/LiveAnalysisStructs.cpp:12-19 | setting the begin cuts exactly the positions before it |
| DcePass.DcePass.Run | JIT-AOT-Compilers-master/optimization/DCE.cpp:6-30 | the blocks keep exactly the instructions that feed a side effect, in order; the answer says whether any went |
| DcePass.DcePass.MarkAlive | JIT-AOT-Compilers-master/optimization/DCE.cpp:32-43 | marking ends on cyclic phi graphs, marks only what feeds the start, and closes what it marks under inputs |
| DcePass.DcePass.RemoveDead | JIT-AOT-Compilers-master/optimization/DCE.cpp:53-58 | unlinking takes exactly the dead instructions out |
| DcePass.DcePreserves | JIT-AOT-Compilers-master/optimization/DCE.cpp:6-58 | every execution of the trimmed program shows the same side effects with the same operand values |
| DceModel.NeededIsLeast | JIT-AOT-Compilers-master/optimization/DCE.cpp:32-43 | what is kept is the least set with the side effects and closed under inputs |
| DceModel.RunAgrees | JIT-AOT-Compilers-master/optimization/DCE.cpp:6-58 | runs agree step by step on kept values, loops and phis included |
| CheckElimination.CheckElimination.Run | JIT-AOT-Compilers-master/optimization/CheckElimination.cpp:8-23 | every removed check repeats a surviving dominating one, none that repeats another survives, and the answer says whether any went |
| CheckElimination.CheckElimination.TryRemoveCheck | JIT-AOT-Compilers-master/optimization/CheckElimination.cpp:25-56 | unlinks exactly the users that repeat the check |
| CheckElimination.CheckElimination.SingleInputCheckDominates | JIT-AOT-Compilers-master/optimization/CheckElimination.cpp:58-73 | the same for checks of one value |
| CheckElimination.CheckElimination.BoundsCheckDominates | JIT-AOT-Compilers-master/optimization/CheckElimination.cpp:75-95 | the same for bounds checks of the same array and index |
| CheckElimination.CheckElimination.IsEarlierInBasicBlock | JIT-AOT-Compilers-master/ir/InstructionBase.cpp:52-64 | walks the block to see which of two instructions comes first |
| CheckElimination.CoverStep | JIT-AOT-Compilers-master/optimization/CheckElimination.cpp:58-95 | removing the repetitions of a surviving check leaves every removed check covered |
| CheckModel.OutcomePreserved | JIT-AOT-Compilers-master/optimization/CheckElimination.cpp:8-95 | on every path and for every input the first failing check, its kind and values are unchanged |
| CheckModel.RunPreserved | JIT-AOT-Compilers-master/optimization/CheckElimination.cpp:8-95 | the same from any block where the checks passed so far still hold |
| CheckModel.DominatorFresh | JIT-AOT-Compilers-master/ir/InstructionBase.cpp:39-50 | a dominating check has passed on the values that are still current, also in loops that redefine them |
| LoopAnalyzer.LoopAnalyzer.Run | JIT-AOT-Compilers-master/analysis/LoopAnalyzer.cpp:7-20 | every block is in its innermost natural loop, every loop hangs under the one immediately around it, the lists agree with the links, and the root holds the blocks in no loop |
| LoopAnalyzer.LoopAnalyzer.CollectBackEdges | JIT-AOT-Compilers-master/analysis/LoopAnalyzer.cpp:30-34 | the search lists every block once, dominators later, and records exactly the back edges |
| LoopAnalyzer.LoopAnalyzer.DfsBackEdgesSearch | JIT-AOT-Compilers-master/analysis/LoopAnalyzer.cpp:74-89 | an edge to a grey block is an edge to a dominator, and to no other block |
| LoopAnalyzer.LoopAnalyzer.AddLoopInfo | JIT-AOT-Compilers-master/analysis/LoopAnalyzer.cpp:91-107 | records one back edge and makes the loop at the first |
| LoopAnalyzer.LoopAnalyzer.PopulateReducibleLoop | JIT-AOT-Compilers-master/analysis/LoopAnalyzer.cpp:109-117 | fills one loop so that the tables are right one header further |
| LoopAnalyzer.LoopAnalyzer.DfsPopulateLoops | JIT-AOT-Compilers-master/analysis/LoopAnalyzer.cpp:119-138 | the backward walk sees only blocks of the loop and everything that leads to what it saw |
| LoopAnalyzer.LoopAnalyzer.PopulateLoops | JIT-AOT-Compilers-master/analysis/LoopAnalyzer.cpp:36-53 | loops are filled inner before outer |
| LoopAnalyzer.LoopAnalyzer.BuildLoopTree | JIT-AOT-Compilers-master/analysis/LoopAnalyzer.cpp:55-72 | what is left without a loop goes to the root, block by block |
| LoopAnalyzer.FirstIsInnermost | JIT-AOT-Compilers-master/analysis/LoopAnalyzer.cpp:36-53 | the first header in finish order that holds a block is the innermost one |
| LoopAnalyzer.LoopIsInnermost | JIT-AOT-Compilers-master/analysis/LoopAnalyzer.cpp:119-138 | the loop a block is claimed for is the innermost it is in |
| LoopAnalyzer.OuterIsInnermost | JIT-AOT-Compilers-master/analysis/LoopAnalyzer.cpp:129-133 | the loop another is nested in is the one immediately around it |
| LoopTheory.HeaderNested | JIT-AOT-Compilers-master/analysis/LoopAnalyzer.cpp:119-138 | two natural loops that share a block are nested, header in loop |
| LoopTheory.LoopInside | JIT-AOT-Compilers-master/analysis/LoopAnalyzer.cpp:119-138 | a loop whose header is in another lies inside it |
| LoopTheory.RetreatingIsBack | JIT-AOT-Compilers-master/analysis/LoopAnalyzer.cpp:78-80 | in a reducible graph an edge back onto the search path goes to a dominator |
| LoopTheory.Comparable | JIT-AOT-Compilers-master/analysis/LoopAnalyzer.cpp:74-89 | dominators of one block dominate one another |
| LoopNesting.IsIn | JIT-AOT-Compilers-master/ir/Loop.h:95-105 | walking the outer links ends and tells whether all blocks of one loop lie in another |
| LoopNesting.LinkRises | JIT-AOT-Compilers-master/ir/Loop.h:95-105 | outer links lead to loops around fewer loops |
| Traversals.DFO.DoRPO | JIT-AOT-Compilers-master/analysis/Traversals.h:108-121 | every reachable block once, dominators before what they dominate, and an edge that goes back closes a cycle |
| Traversals.DFO.TraverseImpl | JIT-AOT-Compilers-master/analysis/Traversals.h:61-75 | marks and hands on everything below a block, each block once, and counts them |
| Traversals.OrderRight | JIT-AOT-Compilers-master/analysis/Traversals.h:108-121 | finish order reversed is a reverse post-order |
| GraphCopyHelper.GraphCopyHelper.CreateCopy | JIT-AOT-Compilers-master/ir/GraphCopyHelper.cpp:6-14 | the block counts agree if and only if all blocks can be reached, and then the copy is isomorphic: one-to-one on blocks and instructions, kinds, successor order, inputs and phi sources kept, phis of a block reversed |
| GraphCopyHelper.GraphCopyHelper.DfoCopy | JIT-AOT-Compilers-master/ir/GraphCopyHelper.cpp:16-41 | copies each block found once, cycles included, and connects the copies of all its successors in order |
| GraphCopyHelper.GraphCopyHelper.CopyBlock | JIT-AOT-Compilers-master/ir/BasicBlock.cpp:310-333 | one block: bare copies under fresh ids, remembered both ways |
| GraphCopyHelper.GraphCopyHelper.FixDFG | JIT-AOT-Compilers-master/ir/GraphCopyHelper.cpp:43-75 | sets every input and phi source of every copy by translation |
| GraphCopyHelper.CountsAgreeIff | JIT-AOT-Compilers-master/ir/GraphCopyHelper.cpp:10-10 | as many copies as blocks exactly when everything can be reached |
| GraphCopy.PartStep | JIT-AOT-Compilers-master/ir/GraphTranslationHelper.h:22-28 | a new pair keeps the two instruction maps inverse to each other |
| GraphCopy.BlockCopied | JIT-AOT-Compilers-master/ir/BasicBlock.cpp:321-333 | one more block keeps numbering and maps exact |
| GraphCopy.PartConnectedStep | JIT-AOT-Compilers-master/ir/GraphCopyHelper.cpp:30-40 | connecting the next successor adds an edge that was not there |
| BlockList.BasicBlock.PushInstruction | JIT-AOT-Compilers-master/ir/BasicBlock.cpp:157-202 | a phi goes to the front, another instruction to an end; the chain stays good exactly unless a front push meets both phis and others, where the last phi is not linked |
| BlockList.BasicBlock.InsertBefore | JIT-AOT-Compilers-master/ir/BasicBlock.cpp:212-229 | the list gains the instruction there; good exactly behind the phi boundary |
| BlockList.BasicBlock.InsertAfter | JIT-AOT-Compilers-master/ir/BasicBlock.cpp:231-247 | the list gains the instruction there; good exactly behind a non-phi |
| BlockList.BasicBlock.UnlinkInstruction | JIT-AOT-Compilers-master/ir/BasicBlock.cpp:250-289 | the list loses the instruction, which is detached, and ends and count follow |
| BlockList.BasicBlock.SplitAfterInstruction | JIT-AOT-Compilers-master/ir/BasicBlock.cpp:335-383 | the list falls into two blocks; good exactly when the place is not right behind the last phi |
| BlockList.Spliced | JIT-AOT-Compilers-master/ir/BasicBlock.cpp:212-247 | neighbours pointing to the new instruction make one chain |
| BlockList.Cut | JIT-AOT-Compilers-master/ir/BasicBlock.cpp:250-264 | neighbours pointing to each other make one chain |
| BlockList.InsertedPhis | JIT-AOT-Compilers-master/ir/BasicBlock.cpp:157-229 | phis stay in front exactly when a non-phi comes in behind them |
| Markers.MarkersAreSets | JIT-AOT-Compilers-master/ir/marker/marker.h:31-87 | after any run of acquire, release, set, clear and merge a held marker is seen exactly on the objects it was set on and not cleared from |
| Markers.AcquireFresh | JIT-AOT-Compilers-master/ir/marker/marker.h:31-44 | a new marker is four times the next counter value plus the first free slot; it is set on nothing, whatever stale stamps remain, and no held marker notices |
| Markers.AcquireFailsIff | JIT-AOT-Compilers-master/ir/marker/marker.h:31-44 | acquiring fails exactly when four markers are held or the counter is used up |
| Markers.SetAdds | JIT-AOT-Compilers-master/ir/marker/marker.h:69-76 | setting adds one object to one marker, and the answer is whether it was new |
| Markers.ClearRemoves | JIT-AOT-Compilers-master/ir/marker/marker.h:83-87 | clearing takes one object out of one marker |
| Markers.ReleaseKeeps | JIT-AOT-Compilers-master/ir/marker/marker.h:45-48 | releasing touches no object and no other marker |
| Markers.MergeIff | JIT-AOT-Compilers-master/ir/marker/marker.h:52-55 | objects of another manager leave everything in order exactly when none carries the stamp of a held marker in its slot |
| Markers.FreshAfterMerge | JIT-AOT-Compilers-master/ir/marker/marker.h:52-55 | markers acquired after merging are fresh on all objects |
| Markers.GuestLooksMarked | JIT-AOT-Compilers-master/ir/marker/marker.h:52-55 | an object with the stamp of a marker held while it joins reads as marked |
| Markers.MarkerManager.GetNewMarker | JIT-AOT-Compilers-master/ir/marker/marker.h:31-44 | the slot search computes the acquisition |
| Mandelbrot.SamePicture | Mandelbrot-Fractal-main/mandelbrot.cpp:84-221 | two canvases painted as either kernel paints them agree in every pixel |
| Mandelbrot.DrawMndlSet | Mandelbrot-Fractal-main/mandelbrot.cpp:84-127 | the scalar loops give every pixel the colour of its point: (580, 300) is the origin moved by the offsets, neighbours are one scale apart, red and green are five and ten times the first of 256 steps with square norm 100 or more |
| Mandelbrot.DrawMndlSetAVX | Mandelbrot-Fractal-main/mandelbrot.cpp:131-188 | the eight-lane loops paint the same picture |
| Mandelbrot.PixelColor | Mandelbrot-Fractal-main/mandelbrot.cpp:88-122 | the point and the colour of every pixel, in numbers |
| Mandelbrot.OriginIsBlack | Mandelbrot-Fractal-main/include/mandelbrot.hpp:14-24 | without offsets pixel (580, 300) is black |
| Mandelbrot.CalcOneCycle | Mandelbrot-Fractal-main/mandelbrot.cpp:191-221 | each lane counts as the scalar loop would, although it runs on after escaping and may take a 257th step |
| Mandelbrot.Iterations | Mandelbrot-Fractal-main/mandelbrot.cpp:84-127 | the inner loop computes the escape time |
| Mandelbrot.InsideCounts | Mandelbrot-Fractal-main/mandelbrot.cpp:191-221 | the number of steps inside, summed by mask, is the escape time |
| Mandelbrot.StaysEscaped | Mandelbrot-Fractal-main/mandelbrot.cpp:191-221 | once the square norm is 100 or more it stays so on every orbit that starts at its own constant |
| Mandelbrot.Growth | Mandelbrot-Fractal-main/mandelbrot.cpp:191-221 | the nonlinear bound behind it |
| X86Translator.Translator.Translate | BinaryTranslator-main/src/translation.cpp:3-85 | addresses, labels and emission together: every jump, call and library call in the buffer goes where it should, and a jump to the native address of a command goes to the first byte of the code of that command |
| X86Translator.Translator.StartTranslation | BinaryTranslator-main/src/translation.cpp:3-85 | the buffer is the concatenation of the encodings, although each piece is stored eight bytes wide |
| X86Translator.Translator.WriteCmd | BinaryTranslator-main/src/translation.cpp:90-96 | an eight-byte store then an advance by the size appends exactly the sized bytes |
| X86Translator.Translator.FillCmdIp | BinaryTranslator-main/src/parser.cpp:208-226 | every command gets the sum of the sizes before it, native and x86; skipped ones stay as they are |
| X86Translator.Translator.FillJumpLabels | BinaryTranslator-main/src/parser.cpp:241-256 | every jump gets the x86 address of the command at its native target |
| X86Translator.Translator.FindJumpIp | BinaryTranslator-main/src/parser.cpp:259-273 | the first command with that native address |
| X86Translator.Translator.HandleImmStorage | BinaryTranslator-main/src/optimizer.cpp:81-107 | push of a number and pop into a register become one move |
| X86Translator.TargetFound | BinaryTranslator-main/src/parser.cpp:259-273 | the search finds the address the command really has |
| X86Translator.JumpReaches | BinaryTranslator-main/src/translation.cpp:407-483 | a jump to a native address lands on the first byte of the command there |
| X86Encoding.SizedIff | BinaryTranslator-main/include/parser.h:124-184 | the size reserved is the size emitted, except for a pop into a number |
| X86Listing.MathListing | BinaryTranslator-main/src/translation.cpp:239-282 | the 26 bytes of an arithmetic command |
| X86Listing.ConditionListing | BinaryTranslator-main/src/translation.cpp:432-483 | the bytes of a conditional jump, its displacement counted from its end |
| X86Listing.JumpListing | BinaryTranslator-main/src/translation.cpp:407-423 | the bytes of a jump and a call |
| X86Listing.PlainListing | BinaryTranslator-main/include/translation.h:63-97 | the bytes of return, halt and square root |
| X86Listing.MoveListing | BinaryTranslator-main/src/translation.cpp:117-122 | the bytes of the move of a number into a register |
| X86Listing.OutListing | BinaryTranslator-main/src/translation.cpp:181-201 | the bytes of output and its call |
| X86Listing.InListing | BinaryTranslator-main/src/translation.cpp:211-223 | the bytes of input and its call |
| X86Listing.PushPopListing | BinaryTranslator-main/src/translation.cpp:130-172 | the bytes of push and pop of a number and a register, and which forms emit nothing |
| X86Listing.RamListing | BinaryTranslator-main/src/translation.cpp:291-392 | the bytes of push and pop of memory, with and without a register |
| X86Listing.PrologueListing | BinaryTranslator-main/src/translation.cpp:7-9 | the ten bytes that load the memory pointer |
| X86Listing.FormedSizes | BinaryTranslator-main/include/parser.h:124-184 | native and x86 sizes of every parsed command |
| X86Layout.ParsedSizedIff | BinaryTranslator-main/src/parser.cpp:155-205 | the commands of the parser have the sizes that are emitted if and only if none pops into a number |
| X86Layout.MergedSized | BinaryTranslator-main/src/optimizer.cpp:81-107 | merging keeps the sizes right |
| X86Layout.EmittedAt | BinaryTranslator-main/src/translation.cpp:3-85 | when a command is translated the buffer stands at its computed address |
| X86Layout.Located | BinaryTranslator-main/src/translation.cpp:3-85 | its bytes are in the final buffer at that address |
| X86Layout.JumpsLand | BinaryTranslator-main/src/translation.cpp:181-483 | each displacement leads to its goal; the output call lands just past the last command |
| X86Layout.MergeKeepsAddresses | BinaryTranslator-main/src/optimizer.cpp:81-107 | merging moves no other native address |
| X86Merge.MergeMeans | BinaryTranslator-main/src/optimizer.cpp:81-107 | every run of the merged program is one of the original, if in the run of the original nothing but the push leads to the pop |
| X86Merge.OnlyFromPushNeverEnters | BinaryTranslator-main/src/optimizer.cpp:81-107 | which is so when none of its other commands, where it stands, leads there |
| X86Merge.JumpsElsewhere | BinaryTranslator-main/src/optimizer.cpp:81-107 | as on a machine whose jumps jump, for programs without returns in which no jump names the pop |
| X86Merge.LoopMerges | BinaryTranslator-main/src/optimizer.cpp:81-107 | a loop over a push and a pop, merged and not, on that machine |
| X86Merge.PushThenPop | BinaryTranslator-main/src/optimizer.cpp:99-107 | the move does to stack and registers what push and pop do |
| X86Merge.PopIsGone | BinaryTranslator-main/src/optimizer.cpp:81-107 | a jump to the pop would find no command |
| LeechFormat.ObjBack | leechVM-master/include/leechobj/leechobj.hh:29-50 | reading what was written for an object of any depth leaves what follows and gives it back, None as a missing object |
| LeechFormat.PlainComesBack | leechVM-master/include/leechobj/leechobj.hh:312-328 | an object comes back as it was exactly when there is no None in it |
| LeechFormat.ValueBack | leechVM-master/include/common/common.hh:54-57 | numbers come back from their bytes |
| LeechFiles.FuncBack | leechVM-master/src/leechfile/leechfile.cc:26-72 | a function comes back with name, address, argument count, constants and names |
| LeechFiles.FileBack | leechVM-master/src/leechfile/leechfile.cc:114-141 | for every enumeration order exactly the files without None constants and unknown opcodes load, with their argument counts zeroed |
| LeechFiles.SameFileIff | leechVM-master/src/leechfile/leechfile.cc:96-105 | the loaded file is the one written exactly when every argument count was zero |
| LeechFiles.EntriesBack | leechVM-master/src/leechfile/leechfile.cc:96-105 | the copies make the map written, or fail at the first missing constant |
| LeechFiles.CodeBack | leechVM-master/src/leechfile/leechfile.cc:135-138 | the code comes back exactly when every opcode is known |
| LeechLayout.LittleIff | leechVM-master/include/common/common.hh:54-57 | a number is written in eight bytes, byte i of them n / 256^i % 256 |
| LeechLayout.ObjIff | leechVM-master/include/leechobj/leechobj.hh:29-50 | the bytes of an object are its type, 1, 2, 3, 4 or 6, its size in eight bytes unless it is None, and its value, and no others are |
| LeechLayout.FuncIff | leechVM-master/src/leechfile/leechfile.cc:26-44 | the bytes of a function are address, argument count, constants and names, each list behind its length |
| LeechLayout.CodeIff | leechVM-master/src/leechfile/leechfile.cc:122-125 | two bytes an instruction, opcode first |
| LeechLayout.FileIff | leechVM-master/src/leechfile/leechfile.cc:114-126 | the bytes of a file are the eight of the magic, the functions behind their number and the code behind its length |
| LeechLayout.ObjRead | leechVM-master/include/leechobj/leechobj.hh:312-328 | bytes laid out as an object are read as it, whatever follows |
| LeechLayout.OtherKinds | leechVM-master/include/leechobj/leechobj.hh:312-328 | any other type byte is a missing object |
| LeechLayout.FileRead | leechVM-master/src/leechfile/leechfile.cc:128-141 | bytes laid out as a file are read as it, if it can be loaded |
| LeechStream.OutStream.SerializeObj | leechVM-master/include/leechobj/leechobj.hh:29-50 | appends type, size and value as laid out; fails exactly when there is a class inside |
| LeechStream.OutStream.SerializeFuncMeta | leechVM-master/src/leechfile/leechfile.cc:26-44 | appends the fields of a function as laid out |
| LeechStream.OutStream.SerializeFile | leechVM-master/src/leechfile/leechfile.cc:114-126 | appends magic, functions and code as laid out |
| LeechStream.InStream.DeserializeObj | leechVM-master/include/leechobj/leechobj.hh:312-328 | the recursive reader with its tuple loop |
| LeechStream.InStream.DeserializeFuncMeta | leechVM-master/src/leechfile/leechfile.cc:46-72 | reads one function |
| LeechStream.InStream.DeserializeMeta | leechVM-master/src/leechfile/leechfile.cc:96-105 | reads the map by copying |
| LeechStream.InStream.DeserializeFile | leechVM-master/src/leechfile/leechfile.cc:128-141 | reads a whole file, magic first |

## Left out

- RISC-V: ticks after the first of the shutdown at the end of the code section; what a stalled load-use pair computes;
  instruction fetch beyond the section; data bytes beyond the memory array. Loads take part only where no stall arises.
- DomTree.DomTreeBuilder.Build: the lists of dominated blocks, which repeat the immediate dominators the other way round.
- RiscvRun.RunPipeline: stops at the first tick of the shutdown; the source counts three more ticks down.
- Liveness across back edges: the loop-header branch does nothing; the theorem is about edges that go forward.
- LinearScanRegAlloc.RegMap.AcquireReg: the shifts are of `1`, an `int`; more than 30 registers are not as in the source.
- Resolution of phis, the register allocation checker, the stack slot limit, linear ordering, branch elimination,
  inlining, peepholes, and the IR builder.
- DcePass.DcePass.Run: the marker is never released, which only costs a slot. The order in which dead instructions are
  listed is kept, logging is not.
- CheckElimination.CheckElimination.Run: an unlinked user has no block; `Dominates` is read as false on it. Block lists
  are fixed and unlinking clears a flag.
- LoopAnalyzer.LoopAnalyzer.Run: graphs with irreducible loops, duplicate successors and unreachable blocks are excluded.
- GraphCopyHelper.GraphCopyHelper.CreateCopy: predecessor lists of the copy are not kept, nor users, properties of
  allocation, or the differences among instruction classes, which are one `kind`.
- BlockList.BasicBlock.SplitAfterInstruction: the successors and the loop, which move to the new block, are not part of
  the list.
- Mandelbrot.DrawMndlSetAVX: arithmetic is over reals, so rounding, which differs between the kernels, is not modelled.
- LangProgram.ProgramCorrect: WHILE, which is not compiled, calls with parameters, IS_BT, where the assembler matches
  `ja` before `jae`, COS, which emits sine, input and output, and the text of assembly lines but for the operands of
  push and pop.
  Hexadecimal numerals and capital letters, which are never printed, are not read, and buffers do not overflow.
  RAM beyond its size is excluded by the precondition; a label may be at most a C `int`.
- LangDisk.DiskRoundTrip: the characters of words and names.
- X86Layout.JumpsLand: meant for the forms the size table knows; a pop into an immediate, where reserved and emitted
  sizes differ, is excluded by its precondition. Constant folding, writing the ELF file and the meaning of x86 bytes.
- X86Merge.MergeMeans: commands other than push, pop and move are an arbitrary function of the state. That a return
  does not lead to the pop is a condition on the run, not on the text.
- LeechStream.OutStream.SerializeFile: streams do not fail. Classes cannot be written, and reading them is not supported
  by the format.
- The interpreter of the virtual machine and its assembler, the derivative calculator, drawing, LaTeX, logging,
  allocators, garbage collection stubs, and parsers generated by flex and bison.
