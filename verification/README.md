# Verified models of the systems labs

This project models, in Dafny, the hardest parts of a collection of systems programs written in C and proves that they
do what they are for:

- **The Y86-64 tools** (`ch4sim`): the instruction-set interpreter, the five-stage pipelined simulator PIPE with
  forwarding, stalls, branch squashing and return bubbles, the sequential simulator SEQ, the assembler with its text
  format, and the compiler from HCL control logic to C.
- **The storage allocator** (`malloclab-handout`): segregated, address-ordered free lists with boundary tags in one
  array of words, and the trace driver that checks an allocator.
- **The cache lab** (`cachelab-handout`): the LRU cache simulator and the blocked matrix transposes.
- **The proxy** (`proxylab-handout`): the object cache with its readers-writers locking, and the bounded buffer.

`dafny verify dfyconfig.toml` checks everything.

## How it is organized

Each component has its own modules. Where the C code computes a value, the model is a function; where it changes things
in place, the model is a class or a method over arrays, proved equal to a function of the old state, and the properties
are proved about that function.

| modules | what they hold |
|---|---|
| `Words`, `Arith` | 64-bit words, options, division |
| `Memory`, `Store`, `Isa`, `IsaTrace`, `IsaMachine`, `IsaMeaning` | byte memory, registers, the interpreter and its runs; in place in `Store` and `IsaMachine`; every instruction told by its bytes in `IsaMeaning` |
| `PipeControl`, `PipeCore` | the control logic of PIPE; one clock cycle |
| `PipeStaged`, `PipeChain`, `PipeStep`, `PipeTrace`, `PipeTheorem`, `PipeRun`, `PipeCorrect` | the refinement proof |
| `PipeCut`, `PipeMeaning` | runs that the limit cuts; the timing told by the bytes of the instructions |
| `PipeSim` | PIPE in place |
| `PipeHazards` | two programs on which PIPE and ISA disagree, and one on which they agree without a base register |
| `SeqCore`, `SeqSim` | SEQ, its refinement, and SEQ in place |
| `SizeClass`, `HeapSpec`, `FreeList`, `HeapMem`, `Allocator`, `Coalescing`, `AllocatorMeaning` | the allocator, from blocks and lists as values down to words in place; what it promises, in bytes |
| `MallocDriver` | the trace driver |
| `LruSpec`, `Csim` | LRU lists and their laws; the simulator with time stamps |
| `Transpose` | the transposes |
| `ObjectCache`, `ReadersWriters`, `CacheCalls`, `Sbuf` | the object cache; the two concurrent protocols as state machines; the calls of the cache followed through every run |
| `Hcl`, `HclCorrect`, `HclMeaning` | HCL, C's expression grammar, the generated code; the preservation proof; types, operators and numerals |
| `YoText`, `Yas`, `Assembler`, `AssemblerCorrect`, `AssemblyMeaning` | the text format, the encoding, the two passes in place, the end-to-end proof; the bytes of every mnemonic, the layout of the lines, and where control goes |

Definitions that several parts share, such as the operations of the ALU, the table of mnemonics or the comparisons of HCL,
are also tied to what they mean by laws that do not mention them: bit by bit, in numerals, by position, or by a separate
reference definition. The modules whose names end in `Meaning` hold most of these laws.

The pipeline proof follows one idea: at any clock edge the five pipeline registers and the ISA states between them form
a chain. Each register holds a bubble, an instruction of the ISA run, or junk that will be squashed, and each cycle
moves the chain one step on. The chain also says in which cycle each instruction retires, which gives the cycle counts.

The allocator proof separates three views: the set of blocks that tile the heap, the sixteen sorted lists, and the words
that represent both. Every operation is a change of the first two views; lemmas say which words may change without
disturbing them.

In the two protocols every step of a thread is one semaphore operation or one access to shared memory (under its lock, a
writer of the object cache evicts an entry, and places its own, in one step each), and the theorems hold for any number
of threads and every interleaving.

## What the proofs brought to light

Where the code and what it promises differ, the code is modelled as it is, and the exact condition under which the
promise holds is proved.

- PIPE: the count that `sim_run_pipe` returns as instructions is the number of cycles, because the control logic reports
  a bubble's status as AOK (`PipeRun.InstructionCountIsCycleCount`). The instruction limit therefore limits cycles.
- PIPE: an instruction that computes with a missing register is given what an older instruction forwards for it
  (`PipeHazards.BaselessOperandDiffers`). It is given the 0 of the ISA exactly in the cases of `PipeTheorem.MissingTold`,
  for instance behind a bubble or a nop (`PipeHazards.BaselessBehindNopRefines`).
- PIPE: a store into one of the next three instructions can come too late (`PipeHazards.CloseStoreDiffers`): it does
  exactly if it is still in flight when they are fetched and changes their bytes.
- PIPE: together these are the exact condition for every instruction to be fetched and decoded as in the ISA
  (`PipeCorrect.PipeFollowsIsa`). They are computed from the ISA run alone, and the refinement theorem assumes no more.
- PIPE: when the limit cuts a run short, registers, memory and condition codes end at different points of the ISA run
  (`PipeCut.CutRunCommits`).
- PIPE: an instruction within the last five bytes of memory is an address error even when it is shorter
  (`PipeCorrect.PipeRefinesIsa` is an if and only if).
- SEQ: when the limit cuts a run short, the last instruction is never committed, so the check against the ISA succeeds
  exactly if that instruction changed only the pc (`SeqCore.CutRunLagsBehind`).
- Allocator: shrinking in place does not coalesce the part it gives back; two free neighbours remain exactly if the next
  block was free (`Coalescing.ReallocCoalescesUnlessShrinking`).
- Allocator: deleting the only element of a list writes word 0 of the heap; the word is 0 before and after.
- Trace driver: it compares the bytes of a resized block as signed characters, so that every served resize under an id
  whose low byte is 128 or more is reported as lost data, although the bytes are all there
  (`MallocDriver.Driver.EvalMmValid`); a trace of the repository has such a resize
  (`MallocDriver.Driver.ResizeUnderId439`).
- Trace driver: its range test lets exactly those bad payloads through that lie around recorded ones
  (`MallocDriver.TestMisses`); the allocator never produces one.
- Object cache: writing a key again does not replace the old entry, and which of the two is read depends on their slots
  (`ObjectCache.WriteSeenUnlessBehind`).
- HCL compiler: the elements of a set are never type-checked, because the loop walks from the wrong node. The arms of a
  case in a set are linked into the chain of its elements: the later ones leak into the set
  (`HclCorrect.CaseInSetMiscompiled`, with the exact condition in `HclCorrect.SetPreservedExactly`), and before another
  element the loop over the arms can run on into a null pointer (`HclCorrect.OpenCaseReadsNull`). Numerals with leading
  zeros turn octal (`HclCorrect.LeadingZeros`).
- Assembler: a label on a `.pos` or `.align` line has the address before the move, not the one shown
  (`AssemblerCorrect.ShownWhereItStarts`); below address 0, `.align` rounds the wrong way. What follows the operands of an instruction is ignored.

## Model

| member | source | states |
|---|---|---|
| Words.AndBit | ch4sim/misc/isa.c:470-472 | every one of the 64 bits of the conjunction is the product of the two bits |
| Words.XorBit | ch4sim/misc/isa.c:473-475 | every one of the 64 bits of the exclusive disjunction is 1 exactly where the two bits differ |
| Memory.WordRoundTrip | ch4sim/misc/isa.c:310-343 | a word stored at an address is the word read there, for every 64-bit value; both succeed for the same addresses |
| Memory.WordFrame | ch4sim/misc/isa.c:310-343 | storing a word changes no word that does not share a byte with it |
| Memory.RegisterMemory | ch4sim/misc/isa.c:405-424 | writing a register in the byte array behind the register file changes that register to the value and no other |
| Memory.LittleEndian | ch4sim/misc/isa.c:310-343 | a word is, modulo 2^64, the sum of its eight bytes in memory, byte k weighted with 256^k |
| Store.GetByteVal | ch4sim/misc/isa.c:302-308 | fails exactly outside the memory |
| Store.GetWordVal | ch4sim/misc/isa.c:310-323 | the loop over eight bytes reads the little-endian two's-complement word, failing exactly when part of it is outside |
| Store.SetWordVal | ch4sim/misc/isa.c:333-343 | the loop stores the eight bytes of the word and leaves the memory alone when it fails |
| Store.GetRegVal | ch4sim/misc/isa.c:405-412 | the value of a real register, 0 for none |
| Store.SetRegVal | ch4sim/misc/isa.c:414-424 | the register file with that one register changed; nothing for no register |
| Isa.SubFlagsDecideComparison | ch4sim/misc/isa.c:482-516 | the flags of a subtraction, read by each of the seven conditions, decide the exact signed comparison of all 64-bit pairs, overflow included |
| IsaMachine.Machine.constructor | ch4sim/misc/isa.c:540-548 | a machine with its pc, flags and registers reset and a memory of zeros, of the least number of whole lines that holds the bytes asked for |
| IsaMachine.Machine.Step | ch4sim/misc/isa.c:627-675 | one step in place gives the state and the status of the functional step, on success and on every failure |
| IsaMachine.Machine.Switch | ch4sim/misc/isa.c:676-939 | the same for the instructions that do not touch memory or the stack |
| IsaMachine.Machine.Move | ch4sim/misc/isa.c:733-791 | the same for the moves |
| IsaMachine.Machine.Stack | ch4sim/misc/isa.c:824-908 | the same for call, ret, pushq and popq |
| IsaTrace.IsaRunFrom | ch4sim/pipe/psim.c:239-241 | the reference run of the check ends at the halt, in the state of that many single steps |
| IsaTrace.IsaRunCompletes | ch4sim/pipe/psim.c:239-241 | without a halt it ends at the limit |
| IsaTrace.HaltChangesNothing | ch4sim/misc/isa.c:680-682 | a halting step leaves the whole state as it is |
| IsaMeaning.AddStep | ch4sim/misc/isa.c:792-805 | a step at the bytes of `addq`: rB becomes the sum modulo 2^64 and nothing else changes but the flags, ZF and SF of the value, and OF exactly if the exact sum is no 64-bit word |
| IsaMeaning.SubStep | ch4sim/misc/isa.c:792-805 | the same for `subq`, with rB less rA |
| IsaMeaning.AndStep | ch4sim/misc/isa.c:792-805 | a step at the bytes of `andq`: every bit of rB becomes the product of the two old bits, with ZF and SF of the value and OF clear |
| IsaMeaning.XorStep | ch4sim/misc/isa.c:792-805 | the same for `xorq`, with bits that are 1 exactly where the old ones differ |
| IsaMeaning.XorClears | ch4sim/misc/isa.c:792-805 | `xorq` of a register with itself leaves 0 in it and sets ZF |
| IsaMeaning.AddConstantStep | ch4sim/misc/isa.c:909-935 | a step at the bytes of `iaddq`: the sum with the constant, and the flags of that sum |
| IsaMeaning.MoveStep | ch4sim/misc/isa.c:683-708 | a step at the bytes of `rrmovq` or a conditional move copies rA to rB exactly if the condition holds, and leaves the flags alone |
| IsaMeaning.LoadConstantStep | ch4sim/misc/isa.c:709-732 | a step at the bytes of `irmovq` puts the constant into the register |
| IsaMeaning.StoreStep | ch4sim/misc/isa.c:733-764 | a step at the bytes of `rmmovq` stores the register at displacement plus base and changes no other byte; if that is no memory, nothing changes and the status is an address error |
| IsaMeaning.LoadStep | ch4sim/misc/isa.c:765-791 | a step at the bytes of `mrmovq` loads the register from displacement plus base, or is an address error |
| IsaMeaning.JumpStep | ch4sim/misc/isa.c:806-823 | a step at the bytes of a jump changes only the pc: to the destination if the condition holds, else to nine bytes on |
| IsaMeaning.CallStep | ch4sim/misc/isa.c:824-846 | a step at the bytes of `call` stores the address nine bytes on below the stack and goes to the destination; without room the stack address has moved and nothing else |
| IsaMeaning.ReturnStep | ch4sim/misc/isa.c:847-859 | a step at the byte of `ret` goes to the address on top of the stack and takes it off |
| IsaMeaning.CallThenReturn | ch4sim/misc/isa.c:824-859 | a return from the stack that a call left goes on behind the call, with the stack address as before |
| IsaMeaning.PushStep | ch4sim/misc/isa.c:860-883 | a step at the bytes of `pushq` stores the old value of the register below the stack, even that of %rsp; without room the stack address has moved |
| IsaMeaning.PopStep | ch4sim/misc/isa.c:884-908 | a step at the bytes of `popq` takes the top of the stack into the register; for %rsp the value wins over the new stack address |
| IsaMeaning.PushThenPop | ch4sim/misc/isa.c:860-908 | what is pushed from one register is popped into another, and the stack address is as before |
| IsaMeaning.IdleSteps | ch4sim/misc/isa.c:677-682 | `nop` changes the pc only, `halt` nothing |
| IsaMeaning.InvalidStep | ch4sim/misc/isa.c:936-939 | a code above 12 is an instruction error and changes nothing |
| IsaMeaning.UnknownOperationStep | ch4sim/misc/isa.c:476-479 | an operation above 3 leaves 0 and its flags |
| IsaMeaning.NoRegisterStep | ch4sim/misc/isa.c:683-935 | where an instruction needs a register, register 15 is an instruction error that changes nothing |
| IsaMeaning.MissingRegisterStep | ch4sim/misc/isa.c:792-805 | an addition reads register 15 as 0 and drops a result for it, but sets the flags |
| IsaMeaning.TruncatedStep | ch4sim/misc/isa.c:641-674 | code that runs past the end of memory: which parts missing make an address error, and which an instruction error |
| IsaMeaning.FreshStart | ch4sim/misc/isa.c:540-548 | a run starts at address 0 with clear registers and with the flags of a result of 0 |
| PipeCore.NoConflict | ch4sim/pipe/psim.c:1580-1604 | no pipeline register is ever told to stall and to bubble in the same cycle, whatever the registers hold |
| PipeStaged.FetchDecodes | ch4sim/pipe/psim.c:1387-1450 | what the fetch stage latches is what the ISA decodes at that address |
| PipeStaged.StagesCompute | ch4sim/pipe/psim.c:1452-1575 | an instruction that completes changes registers, memory, flags and pc in the ISA exactly as its five stages do, with or without register operands |
| PipeStaged.StatusAgrees | ch4sim/pipe/psim.c:1387-1430 | the pipeline gives an instruction the status the ISA gives it, except an address error within the last five bytes of memory |
| PipeChain.StopFacts | ch4sim/pipe/psim.c:1387-1575 | the instruction that stops the pipeline sets no flags, stores nothing and is no jump |
| PipeChain.LoadDestReal | ch4sim/pipe/pipe-full.c:96-100 | a load that completes has a real destination |
| PipeChain.StoresReal | ch4sim/pipe/pipe-full.c:67-74 | a store that completes stores the value of a real register |
| PipeChain.ExecuteOk | ch4sim/pipe/psim.c:1491-1530 | operands an instruction does not use do not influence what execute makes of it |
| PipeChain.MemoryOk | ch4sim/pipe/psim.c:1537-1575 | nor what the memory stage makes of it |
| PipeChain.ForwardingDelivers | ch4sim/pipe/pipe-full.c:102-122 | the forwarding logic delivers the value the register will have after the three older instructions, whatever mix of bubbles and instructions they are |
| PipeStep.SlotRegisters | ch4sim/pipe/psim.c:597-616 | write-back of an instruction makes the ISA's next register file, of a bubble none, with valM after valE |
| PipeStep.MemoryStage | ch4sim/pipe/psim.c:1537-1575 | the memory stage of a pipeline full of instructions reads the memory the ISA reads |
| PipeStep.ExecuteStage | ch4sim/pipe/psim.c:1491-1530 | the execute stage uses the flags the ISA uses, although the instruction before may still be pending |
| PipeStep.OperandCorrect | ch4sim/pipe/pipe-full.c:67-122 | the value forwarded for a register that is read is the one the ISA reads |
| PipeStep.MissingForwarded | ch4sim/pipe/pipe-full.c:102-122 | what is supplied for a missing register depends only on the ISA instructions in execute, memory and write-back |
| PipeStep.MissingCases | ch4sim/pipe/pipe-full.c:102-122 | and is 0 behind a bubble, the ALU result of an instruction in execute that writes no register with it, the address of a load in memory (or, behind a pop, in write-back), and 0 otherwise |
| PipeStep.DecodeStage | ch4sim/pipe/psim.c:1452-1481 | both operands latched for execute are those of the ISA, up to unused ones, if and only if a missing register that is computed with is given as 0 |
| PipeStep.Signals | ch4sim/pipe/pipe-full.c:225-292 | the load/use, ret and misprediction signals of a cycle hold exactly for the instructions of the run that cause them, even behind junk |
| PipeStep.FetchPcCorrect | ch4sim/pipe/pipe-full.c:9-14 | whenever the fetched instruction will be kept, it is fetched from the ISA's pc |
| PipeStep.NextFetched | ch4sim/pipe/pipe-full.c:61-65 | the predicted pc is right unless a jump is not taken, a ret is fetched or the run stops |
| PipeStep.ShapeAdvances | ch4sim/pipe/pipe-full.c:225-292 | squashing and stalling leave junk only where it will be squashed |
| PipeStep.PcAdvances | ch4sim/pipe/pipe-full.c:9-65 | the prediction stays right, or a redirection is on its way, in every cycle |
| PipeStep.HoldsAdvances | ch4sim/pipe/psim.c:687-745 | every pipeline register holds, after the clock edge, what the advanced chain of ISA states says |
| PipeStep.CycleAdvances | ch4sim/pipe/psim.c:687-745 | one cycle takes the whole invariant one step along the ISA run, for every mix of hazards |
| PipeTrace.FetchCoherent | ch4sim/pipe/psim.c:1387-1450 | a fetch that overtakes older stores gets the instruction the ISA executes if and only if they leave its bytes as they are |
| PipeTrace.FetchExact | ch4sim/pipe/psim.c:1387-1450 | two memories give the same instruction at an address if and only if they agree on the bytes that are read, whether or not it is cut off by the end of memory |
| PipeRun.StatusNeverBubble | ch4sim/pipe/pipe-full.c:219-223 | the processor status is never a bubble |
| PipeRun.InstructionCountIsCycleCount | ch4sim/pipe/psim.c:755-773 | the count that the run returns as completed instructions is the number of cycles it ran |
| PipeTheorem.RetireCloses | ch4sim/pipe/pipe-full.c:230-267 | the retirement cycle is 4 plus the index plus one per load/use pair, two per jump not taken and three per ret before it |
| PipeTheorem.NotYet | ch4sim/pipe/psim.c:687-745 | the pipeline does not stop before the stopping instruction is due |
| PipeTheorem.FetchedInRun | ch4sim/pipe/psim.c:1387-1450 | what is fetched for keeps is the next instruction of the ISA run if and only if the stores not yet committed in its fetch cycle leave its bytes as they are |
| PipeTheorem.FetchOnTime | ch4sim/pipe/pipe-full.c:225-292 | and is fetched in exactly the cycle that its retirement requires |
| PipeTheorem.FetchDue | ch4sim/pipe/pipe-full.c:225-292 | a cycle fetches for keeps if and only if the next instruction is due in it |
| PipeTheorem.FetchedAt | ch4sim/pipe/pipe-full.c:225-292 | every instruction of the run is fetched for keeps in the cycle computed for it |
| PipeTheorem.DecodedAt | ch4sim/pipe/pipe-full.c:225-292 | every instruction of the run leaves decode in the cycle computed for it |
| PipeTheorem.FetchToRetire | ch4sim/pipe/pipe-full.c:225-292 | it retires four cycles after that fetch, five if it waited for a load |
| PipeTheorem.MissingInRun | ch4sim/pipe/pipe-full.c:102-122 | the instructions that decide what a missing register is given are those retiring one, two and three cycles earlier |
| PipeTheorem.MissingTold | ch4sim/pipe/pipe-full.c:102-122 | what any instruction of any run is given for a missing register, told by those instructions alone |
| PipeTheorem.InFlightClose | ch4sim/pipe/psim.c:597-647 | a store not committed at a fetch is at most three instructions ahead |
| PipeTheorem.MissingStoresFit | ch4sim/pipe/psim.c:1387-1450 | so a store further ahead, or one that misses the bytes, never matters |
| PipeTheorem.PlacedAdvances | ch4sim/pipe/psim.c:687-745 | every cycle leaves each instruction of the run in the stage its retirement cycle requires |
| PipeCorrect.FinalEdge | ch4sim/pipe/psim.c:687-700 | the edge at which the stopping instruction enters write-back commits all older instructions and nothing else, even with updates disabled |
| PipeCorrect.NoCcAtStop | ch4sim/pipe/psim.c:687-700 | when the stopping instruction executes, no flags are pending |
| PipeCorrect.StepInvariant | ch4sim/pipe/psim.c:687-745 | a step keeps the invariant, the timing and the performance counters |
| PipeCorrect.RunToStop | ch4sim/pipe/psim.c:755-773 | from any reachable cycle, the run ends at the stopping instruction |
| PipeCorrect.PipeStopsPrecisely | ch4sim/pipe/psim.c:755-773 | PIPE stops with the registers, memory and flags of exactly the instructions before the stopping one, with its status, after exactly the computed number of cycles, if every missing register that is computed with is given as 0 and no store in flight changes an instruction when it is fetched |
| PipeCorrect.FetchIsExact | ch4sim/pipe/psim.c:1387-1450 | in its fetch cycle an instruction is fetched as the ISA decodes it if and only if no store in flight changes its bytes |
| PipeCorrect.OperandsAreExact | ch4sim/pipe/pipe-full.c:67-122 | in its decode cycle an instruction latches the operands of the ISA, whatever is in flight, if and only if a missing register that it computes with is given as 0 |
| PipeCorrect.PipeFollowsIsa | ch4sim/pipe/psim.c:687-745 | THE EXACT CONDITION: all instructions of a run, ending or not, are fetched and get their operands as in the ISA if and only if both conditions, which speak of the ISA run alone, hold for all of them |
| PipeCorrect.StopsSomewhere | ch4sim/pipe/psim.c:1387-1430 | a halting run stops the pipeline at the halt, or at the first instruction it cannot fetch |
| PipeCorrect.PipeRefinesIsa | ch4sim/pipe/psim.c:234-270 | PIPE REFINES THE ISA: for a halting run that meets the exact condition, the run ends in HLT and the simulator's own check against the ISA succeeds if and only if all executed instructions lie at least six bytes before the end of memory |
| PipeCorrect.CyclesExact | ch4sim/pipe/psim.c:731-739 | at the halt, cycles are instructions + load/use pairs + 2 per jump not taken + 3 per ret |
| PipeMeaning.FetchableTold | ch4sim/pipe/psim.c:1387-1400 | what the refinement theorem asks of an instruction: its address and the five bytes behind it are memory |
| PipeMeaning.LoadUseTold | ch4sim/pipe/pipe-full.c:230-270 | a stall for a load happens exactly if a completing `mrmovq` or `popq` loads a register that the next instruction reads, told by a table of who reads what |
| PipeMeaning.NotTakenTold | ch4sim/pipe/pipe-full.c:230-270 | the penalties for jumps and returns: code 7 with a condition that does not hold, and code 9 |
| PipeMeaning.CyclesTold | ch4sim/pipe/psim.c:731-739 | THE TIMING OF PIPE, told by the bytes of the instructions: a halting run of n + 1 instructions takes n + 1 cycles from the first retirement, plus one per load that the next instruction reads, two per jump not taken and three per return, and ends like the ISA |
| PipeHazards.BaselessOperandDiffers | ch4sim/pipe/pipe-full.c:102-122 | a program whose memory operand has no base register halts with different registers in PIPE and ISA: a value is forwarded for the missing register |
| PipeHazards.CloseStoreDiffers | ch4sim/pipe/psim.c:1387-1450 | a program that stores into its next instruction halts differently in PIPE and ISA |
| PipeHazards.BaselessBehindNopRefines | ch4sim/pipe/psim.c:234-270 | a program with a memory operand without base register, behind a nop, that meets every hypothesis of the refinement |
| PipeCut.LastEdge | ch4sim/pipe/psim.c:687-700 | the last edge of a cut run, with updates disabled or not |
| PipeCut.PenultimateEdge | ch4sim/pipe/psim.c:687-700 | the edge before it, which can hold back only the flags |
| PipeCut.CutRunCommits | ch4sim/pipe/psim.c:755-780 | a run cut by the limit, of a program that halts later or never, ends in AOK with the registers, the memory and the flags each of its own computed point of the ISA run |
| PipeCut.CutRunCheck | ch4sim/pipe/psim.c:234-270 | and the check then succeeds if and only if these agree with the ISA state after as many instructions as the limit says |
| PipeSim.Simulator.constructor | ch4sim/pipe/psim.c:563-594 | a reset simulator with the program loaded |
| PipeSim.Simulator.UpdateState | ch4sim/pipe/psim.c:597-647 | pending register, memory and flag updates are committed, memory and flags only when enabled |
| PipeSim.Simulator.UpdatePipe | ch4sim/pipe/psim.c:1279-1307 | one pipeline register loads, keeps or empties |
| PipeSim.Simulator.UpdatePipes | ch4sim/pipe/psim.c:1279-1307 | all five do |
| PipeSim.Simulator.DoIfStage | ch4sim/pipe/psim.c:1387-1450 | the assignments of the fetch stage leave, for predicted pc and decode register, what the pure stage function gives for the old registers |
| PipeSim.Simulator.DoMemStage | ch4sim/pipe/psim.c:1537-1575 | the assignments of the memory stage leave the pending write and the write-back register of the pure stage function |
| PipeSim.Simulator.DoExStage | ch4sim/pipe/psim.c:1491-1530 | the assignments of the execute stage leave the pending flags and the memory register of the pure stage function |
| PipeSim.Simulator.DoIdWbStages | ch4sim/pipe/psim.c:1452-1481 | decode and write-back, evaluated after memory and execute, see the forwarded values of the same cycle |
| PipeSim.Simulator.DoStallCheck | ch4sim/pipe/psim.c:1594-1604 | the operation of each pipeline register at the next edge |
| PipeSim.Simulator.RunStages | ch4sim/pipe/psim.c:716-721 | evaluated one after the other, the stages compute the combinational logic of the old registers |
| PipeSim.Simulator.ClockEdge | ch4sim/pipe/psim.c:694-700 | commit and latch together are one clock edge |
| PipeSim.Simulator.CountCycle | ch4sim/pipe/psim.c:731-739 | cycles count from the first retirement on, instructions only retirements |
| PipeSim.Simulator.SimStepPipe | ch4sim/pipe/psim.c:687-745 | one step in place is one step of the machine of the theorems |
| PipeSim.Simulator.SimRunPipe | ch4sim/pipe/psim.c:755-780 | a run in place returns the counts, status and flags of the run of the theorems |
| SeqCore.FetchDecodes | ch4sim/seq/seq-full.c:9-40 | what SEQ fetches is what the ISA decodes |
| SeqCore.StepRefinesIsa | ch4sim/seq/ssim.c:660-784 | a step shows the state its predecessor left pending and leaves pending exactly the ISA's next state, with its status |
| SeqCore.RunFollowsIsa | ch4sim/seq/ssim.c:795-810 | the run is one ISA step behind throughout |
| SeqCore.HaltEndsRun | ch4sim/seq/ssim.c:795-810 | a halt ends the run whatever limit is left |
| SeqCore.SeqRefinesIsa | ch4sim/seq/ssim.c:247-282 | SEQ REFINES THE ISA: every halting program ends in HLT with the ISA's pc, registers, memory and flags, with no hypothesis on registers, stores or addresses |
| SeqCore.CutRunLagsBehind | ch4sim/seq/ssim.c:247-282 | cut by the limit, the run misses its last instruction: the check then succeeds if and only if that instruction changed only the pc |
| SeqSim.Simulator.UpdateState | ch4sim/seq/ssim.c:615-656 | pending updates committed in place |
| SeqSim.Simulator.FetchInstruction | ch4sim/seq/ssim.c:674-713 | the sequence of reads, advancing the address as it goes, is one pure fetch |
| SeqSim.Simulator.SimStep | ch4sim/seq/ssim.c:660-784 | one step in place is one step of the machine of the theorems |
| SeqSim.Simulator.AccessMemory | ch4sim/seq/ssim.c:750-767 | reads fail, and stores will fail, exactly outside memory; a failing read leaves the old value |
| SeqSim.Simulator.Execute | ch4sim/seq/ssim.c:735-748 | ALU result, condition and new flags |
| SeqSim.Simulator.Finish | ch4sim/seq/ssim.c:735-783 | the stages after the fetch leave exactly the pending updates of the pure evaluation |
| SeqSim.Simulator.SimRun | ch4sim/seq/ssim.c:795-810 | a run in place is the run of the theorems |
| SizeClass.MsbIsFloorLog2 | malloclab-handout/mm.c:84-102 | the bit trick computes floor(log2) of every nonzero 32-bit word |
| SizeClass.ClassMonotone | malloclab-handout/mm.c:460-485 | a larger size is never in a lower class |
| SizeClass.ClassRange | malloclab-handout/mm.c:416-440 | block sizes use the classes 4 to 15 only |
| HeapSpec.MarkTiles | malloclab-handout/mm.c:445-453 | changing the allocation bit of a block keeps the heap tiled |
| HeapSpec.SplitTiles | malloclab-handout/mm.c:487-502 | cutting a block in two keeps the heap tiled |
| HeapSpec.MergeTiles | malloclab-handout/mm.c:349-388 | joining two neighbours keeps the heap tiled |
| HeapSpec.ExtendTiles | malloclab-handout/mm.c:390-411 | a block over the old epilogue keeps the heap tiled up to the new one |
| FreeList.UnlinkedChain | malloclab-handout/mm.c:241-272 | the writes that delete an element leave the list without it: ordered, with inverse links and the right head |
| FreeList.LinkedChain | malloclab-handout/mm.c:274-328 | the writes that insert an element between its neighbours leave the list with it |
| HeapMem.LowClassEmpty | malloclab-handout/mm.c:241-272 | lists 0 to 3 stay empty and word 0 stays 0, although deleting the only element of a list writes it |
| HeapMem.TagsKept | malloclab-handout/mm.c:241-328 | list surgery changes no boundary tag |
| HeapMem.UnlinkLists | malloclab-handout/mm.c:241-272 | deleting from one list leaves all other lists intact |
| HeapMem.LinkLists | malloclab-handout/mm.c:274-328 | inserting into one list leaves all other lists intact |
| HeapMem.TagsRebuilt | malloclab-handout/mm.c:349-388 | rewriting one stretch of words leaves the tags of all blocks outside it |
| HeapMem.ListsRebuilt | malloclab-handout/mm.c:349-388 | and the lists whose members lie outside it |
| HeapMem.Retag | malloclab-handout/mm.c:349-388 | writing the two tags of a rebuilt block represents the rebuilt heap |
| Allocator.TagDecodes | malloclab-handout/mm.c:445-453 | a tag gives back size and allocation bit |
| Allocator.Regroup | malloclab-handout/mm.c:349-388 | blocks give way to one new block when only its tags are written; all other payloads and lists stay |
| Allocator.RegroupTwo | malloclab-handout/mm.c:487-502 | the same for an allocated block followed by a free one |
| Allocator.ExtendState | malloclab-handout/mm.c:390-411 | a free block and a new epilogue written at the end extend the heap |
| Allocator.PayloadState | malloclab-handout/mm.c:595-620 | writing inside a live payload disturbs no tag, no list and no other payload |
| Allocator.Adjusted | malloclab-handout/mm.c:513-518 | the block size is the smallest multiple of 8, at least 16, that holds the request and its tags |
| Allocator.Heap.GetClass | malloclab-handout/mm.c:84-102 | the class computed by the bit trick |
| Allocator.Heap.DeleteFromFreeList | malloclab-handout/mm.c:241-272 | removes the block from its list in all four cases; heap, other lists and all live payloads stay; the error exits are not reached |
| Allocator.Heap.Unlink | malloclab-handout/mm.c:258-271 | its writes, read back from the links it overwrites, are those of removing the element from the list |
| Allocator.Heap.InsertIntoFreeList | malloclab-handout/mm.c:274-328 | puts the block at its address-ordered place in the list of its class; the rest stays |
| Allocator.Heap.FindPlace | malloclab-handout/mm.c:292-307 | the walk finds the last element before the block |
| Allocator.Heap.LinkAfter | malloclab-handout/mm.c:309-327 | its writes at the head, in the middle and at the tail are those of inserting the element into the list |
| Allocator.Heap.Coalesce | malloclab-handout/mm.c:349-388 | in all four cases the block ends up joined with exactly its free neighbours, listed, and no live payload changes |
| Allocator.Heap.JoinNext | malloclab-handout/mm.c:358-365 | case 2: joined with the next block, both unlisted and the result listed, with every live payload unchanged |
| Allocator.Heap.JoinPrev | malloclab-handout/mm.c:367-375 | case 3: the same with the previous block |
| Allocator.Heap.JoinBoth | malloclab-handout/mm.c:377-386 | case 4: the same with both |
| Allocator.Heap.FindFit | malloclab-handout/mm.c:460-485 | GLOBAL BEST FIT: the smallest free block in the whole heap that fits, the lowest address on a tie; NULL exactly if no free block fits |
| Allocator.Heap.BestInClass | malloclab-handout/mm.c:467-478 | the best fit of one list |
| Allocator.Heap.HigherClassesLarger | malloclab-handout/mm.c:460-485 | the best fit of the first class that has one is the best of all |
| Allocator.Heap.WriteTwo | malloclab-handout/mm.c:490-497 | a block split, with the rest listed |
| Allocator.Heap.WriteOne | malloclab-handout/mm.c:498-501 | a block taken whole |
| Allocator.Heap.Place | malloclab-handout/mm.c:487-502 | the free block is unlisted and marked, and its end split off and listed exactly if it can hold a block |
| Allocator.Heap.MemSbrk | malloclab-handout/memlib.c:51-61 | the break moves up by the increment or, past the end of the storage, not at all |
| Allocator.Heap.ExtendHeap | malloclab-handout/mm.c:390-411 | the heap grows by the least even number of words that is at least 4 and at least what is asked for, coalesced with a free block at its end, or stays as it is |
| Allocator.Heap.constructor | malloclab-handout/memlib.c:25-34 | fresh storage with an empty heap |
| Allocator.Heap.Init | malloclab-handout/mm.c:416-439 | succeeds exactly if there is room for 20 words and the first chunk of 1024, and then leaves a valid heap whose only block, besides the prologue, is that chunk, free |
| Allocator.Heap.Free | malloclab-handout/mm.c:445-458 | the block is free, coalesced and listed; every other live payload is unchanged |
| Allocator.Heap.Malloc | malloclab-handout/mm.c:504-542 | the best fit is placed, or the heap grows, or NULL with nothing changed; every live payload is unchanged |
| Allocator.MallocDelivers | malloclab-handout/mm.c:504-542 | a successful request delivers an aligned block inside the heap that holds the size and overlaps no block that was live |
| Allocator.Heap.Realloc | malloclab-handout/mm.c:562-642 | on all three paths the result holds the new size and the first min(old payload, new size) bytes; all other live payloads are unchanged; on failure the block itself is |
| Allocator.Heap.Shrink | malloclab-handout/mm.c:575-594 | the path that gives back the end of the block |
| Allocator.Heap.UnlistNext | malloclab-handout/mm.c:615-617 | the next block is taken from its list |
| Allocator.Heap.Regrow | malloclab-handout/mm.c:619-637 | the two blocks become one, or one and a rest |
| Allocator.Heap.Absorb | malloclab-handout/mm.c:615-642 | the path that grows into the next block |
| Allocator.Heap.CopyPayload | malloclab-handout/mm.c:607-610 | copying between disjoint live payloads |
| Allocator.Heap.CopyAndFree | malloclab-handout/mm.c:607-611 | copying into the new block and freeing the old one keeps the payload and every other live one |
| Allocator.Heap.Move | malloclab-handout/mm.c:601-613 | the path that allocates anew |
| Allocator.Heap.Store | malloclab-handout/mdriver.c:602-607 | a program writing into its own payload keeps the heap in order |
| Coalescing.CoalescingSettles | malloclab-handout/mm.c:349-388 | if only around one block two neighbours may be free, then coalescing it leaves no two free neighbours |
| Coalescing.FreeCoalesces | malloclab-handout/mm.c:445-458 | freeing keeps no two neighbours free |
| Coalescing.MallocKeepsCoalesced | malloclab-handout/mm.c:504-542 | so does allocating, whether it splits or grows the heap |
| Coalescing.ReallocCoalescesUnlessShrinking | malloclab-handout/mm.c:562-642 | reallocating keeps no two neighbours free if and only if it does not give back the end of a block that a free block follows |
| Coalescing.ShrinkingLeavesFreeNeighbours | malloclab-handout/mm.c:575-593 | a heap in which shrinking leaves two free neighbours |
| Coalescing.MallocedTiles | malloclab-handout/mm.c:504-542 | a request, whether placed or grown, leaves the heap tiled up to the new break |
| Coalescing.MallocedKeepsBlock | malloclab-handout/mm.c:504-542 | every live block stays where it is, with its size |
| Coalescing.PayloadsApart | malloclab-handout/mm.c:504-542 | payloads of different blocks share no byte, are 8-byte aligned and lie inside the heap |
| Coalescing.WalkFit | malloclab-handout/mm_textbook.c:178-185 | the plain heap walk returns the lowest block that fits, NULL exactly if none does |
| Coalescing.FindBoth | malloclab-handout/mm.c:460-485 | segregated search and heap walk find something for the same requests, the search never a larger block |
| AllocatorMeaning.AdjustedServes | malloclab-handout/mm.c:514-518 | the block size is the least multiple of 8 that holds the request and two tags, and at least 16 |
| AllocatorMeaning.MallocFails | malloclab-handout/mm.c:504-542 | `mm_malloc` returns null exactly if the size is 0, or no free block is large enough and the storage has no room for the larger of 4096 bytes and the block; then nothing changes |
| AllocatorMeaning.MallocTight | malloclab-handout/mm.c:487-542 | a request takes the least free block that fits, the lowest on a tie, or the new end of the heap joined with a free block before it; less than 16 bytes too many are given away, and a larger rest becomes a free block |
| AllocatorMeaning.FreedIsFree | malloclab-handout/mm.c:445-458 | a freed block lies in a free block, every other live block stays, and no live block appears |
| AllocatorMeaning.ReallocStays | malloclab-handout/mm.c:562-642 | `mm_realloc` keeps the block where it is exactly if the block size fits into it, or into it and a free block behind it; it then has less than 16 bytes too many; null means size 0 or a refused request that changed nothing |
| MallocDriver.Fill | malloclab-handout/mdriver.c:602-607 | memset, byte by byte inside words: the first bytes of the payload and nothing else |
| MallocDriver.StillFilled | malloclab-handout/mdriver.c:636-648 | the loop over the old bytes, which are compared as signed characters, accepts exactly an unchanged filling below 128, or no bytes at all |
| MallocDriver.StillThere | malloclab-handout/mdriver.c:636-648 | after a reallocation the first bytes of the result, up to the smaller size, are those the block was filled with, whatever the filling |
| MallocDriver.NewRangeClear | malloclab-handout/mdriver.c:374-419 | a live block of the heap that no record mentions always passes the range check |
| MallocDriver.ReallocApart | malloclab-handout/mm.c:562-642 | a reallocated block is where no other live block was |
| MallocDriver.Rerecorded | malloclab-handout/mdriver.c:560-672 | a step that gives up one block and fills another leaves every other id's bytes as filled |
| MallocDriver.Driver.constructor | malloclab-handout/mdriver.c:560-571 | a driver without records |
| MallocDriver.Driver.AddRange | malloclab-handout/mdriver.c:374-419 | accepts exactly aligned ranges inside the heap whose ends lie in no recorded range |
| MallocDriver.Driver.RemoveRange | malloclab-handout/mdriver.c:424-438 | removes the first record at the address |
| MallocDriver.WithoutMembers | malloclab-handout/mdriver.c:424-438 | which removes that record and no other |
| MallocDriver.Driver.DoAlloc | malloclab-handout/mdriver.c:586-612 | an allocation of the trace fails only for size 0 or with memory exhausted, and else keeps records and bytes in order and free blocks apart |
| MallocDriver.Driver.DoResize | malloclab-handout/mdriver.c:614-655 | the same for a resize whose filling is below 128; otherwise the driver reports lost data although all bytes are there; free blocks stay apart unless it shrinks before a free block |
| MallocDriver.Driver.Rerecord | malloclab-handout/mdriver.c:624-655 | the part of it after the reallocation: range recorded, bytes checked, block filled again |
| MallocDriver.Driver.DoRelease | malloclab-handout/mdriver.c:657-663 | the same for a release |
| MallocDriver.Driver.EvalMmValid | malloclab-handout/mdriver.c:560-672 | WHAT THE DRIVER FINDS: for every trace, never a bad range; lost data exactly at the first resize of an id whose low byte is 128 or more, if it is reached and not refused, with the bytes all there; else a refusal for size 0 or memory exhausted, or acceptance |
| MallocDriver.FirstIs | malloclab-handout/mdriver.c:636-637 | the first such resize of a trace |
| MallocDriver.Driver.ResizeUnderId439 | malloclab-handout/mdriver.c:636-648 | an allocation and a resize under id 439, as in `bash.rep`, are never accepted |
| MallocDriver.TestMisses | malloclab-handout/mdriver.c:374-419 | the driver lets a misaligned, outlying or overlapping payload through exactly if its only fault is to lie around recorded ones |
| LruSpec.TouchOk | cachelab-handout/csim.c:109-149 | a touched tag comes to the front; only a full set evicts, one tag |
| LruSpec.RunOk | cachelab-handout/csim.c:109-149 | no set ever holds a tag twice or more tags than it has ways |
| LruSpec.TallyBalances | cachelab-handout/csim.c:264-285 | every access is a hit or a miss; misses minus evictions is what the cache holds, throughout every run |
| LruSpec.LruInclusion | cachelab-handout/csim.c:109-149 | for every run and every moment, the cache with more ways holds all that the one with fewer holds, has no fewer hits and no more misses |
| LruSpec.TouchKeepsFront | cachelab-handout/csim.c:109-149 | the smaller set stays the front part of the larger one under every access |
| LruSpec.HoldsMostRecent | cachelab-handout/csim.c:109-149 | every set holds the most recently used tags in the order of their last use, and what it lost is older than all it holds |
| Csim.TagAndSetNameBlock | cachelab-handout/csim.c:102-107 | tag and set of two addresses agree exactly if they lie in the same block, when the tags fit an int |
| Csim.RowSize | cachelab-handout/csim.c:109-149 | a set is full exactly if it has no invalid line, and holds no tag twice |
| Csim.RowHit | cachelab-handout/csim.c:128-131 | a new stamp on a line moves its tag to the front of the recency list |
| Csim.RowMiss | cachelab-handout/csim.c:137-146 | a new tag in a free or the oldest line enters at the front, and the oldest leaves |
| Csim.OldestLine | cachelab-handout/csim.c:124-127 | the smallest stamp is on the last line of the recency order |
| Csim.HitOutcome | cachelab-handout/csim.c:128-131 | a hit of the scan is a hit of the recency list |
| Csim.MissOutcome | cachelab-handout/csim.c:137-146 | a miss of the scan is a miss of the recency list, evicting the same tag under the same condition |
| Csim.Cache.constructor | cachelab-handout/csim.c:40-77 | all lines invalid: the empty lists |
| Csim.Cache.Touch | cachelab-handout/csim.c:109-149 | the scan with time stamps refines the recency list of the set: same hit, same eviction, same contents after |
| Csim.LoadIsValidLines | cachelab-handout/csim.c:264-285 | the lists hold as many tags as there are valid lines |
| Csim.ParseTrace | cachelab-handout/csim.c:238-285 | for every trace, the counts printed are those of the recency lists plus one hit per record M; hits and misses together are the records L, S and M plus the records M; misses minus evictions is the number of valid lines; it fails exactly on a record L, S or M of size 0 |
| Csim.MoreWaysNeverHurt | cachelab-handout/csim.c:238-285 | of two finished simulations the one with more ways has no fewer hits, no more misses, and all the tags of the other |
| Csim.AddressParts | cachelab-handout/csim.c:102-107 | the set is the block number modulo the number of sets, and the tag, as far as it fits an int, the block number divided by it |
| Csim.CountsTold | cachelab-handout/csim.c:238-287 | in the letters of the trace: hits and misses together are the records L, S and M plus the records M |
| Csim.BadTold | cachelab-handout/csim.c:259-262 | the simulation fails exactly on a record L, S or M of size 0 |
| Csim.OthersIgnored | cachelab-handout/csim.c:259-260 | records with any other letter change nothing |
| Csim.TouchIsLast | cachelab-handout/csim.c:264-274 | every record L, S or M touches the set and the tag of its address, once |
| Transpose.Trans | cachelab-handout/trans.c:198-207 | B is the transpose of A |
| Transpose.Tile | cachelab-handout/trans.c:98-118 | one tile is transposed and the rest of B unchanged |
| Transpose.TransposeSubmit | cachelab-handout/trans.c:91-190 | B is the transpose of A for all sizes, N at least 1: tiles, bottom strip, right strip and corner, with the indices carried over |
| Transpose.Row | cachelab-handout/trans.c:34-46 | a row of a block is transposed although its diagonal element is written last |
| Transpose.Transpose32 | cachelab-handout/trans.c:26-50 | for all sizes, exactly the part covered by whole 8 by 8 blocks is transposed, the rest of B is unchanged |
| Transpose.Transpose64 | cachelab-handout/trans.c:52-88 | for all sizes with at most 3 columns left over, exactly the part covered by whole 4 by 8 blocks is transposed |
| Transpose.BufferRow | cachelab-handout/trans.c:72-74 | four elements are buffered, the other rows kept |
| Transpose.StoreBlock | cachelab-handout/trans.c:81-85 | the buffered block ends up in its transposed place |
| ObjectCache.MadeFairly | proxylab-handout/cache.c:66-69 | making room evicts no entry touched more often than one that stays, changes no survivor and reaches the room |
| ObjectCache.LastVictimNeeded | proxylab-handout/cache.c:66-69 | the last eviction was still needed |
| ObjectCache.WriteKeeps | proxylab-handout/cache.c:58-100 | after a write the sizes sum to at most the bound, the new entry is there and every other entry was there before |
| ObjectCache.PlacedAt | proxylab-handout/cache.c:78-94 | the entry takes the first free slot or a new one |
| ObjectCache.LookupAt | proxylab-handout/cache.c:31-46 | the scan finds the first entry with the key |
| ObjectCache.TouchedAt | proxylab-handout/cache.c:31-46 | and the touch goes to that entry |
| ObjectCache.SecondWriteUnseen | proxylab-handout/cache.c:58-100 | after two writes of a key, a read returns the first data |
| ObjectCache.WriteSeenUnlessBehind | proxylab-handout/cache.c:58-100 | for every write: the next read of its key finds what was written if and only if, in the slots that the eviction leaves (those before the write, if nothing is evicted), no entry in front of the first free one has the key with other data; too large an object changes no read |
| ObjectCache.OneRoom | proxylab-handout/cache.c:66-69 | which slots the eviction leaves is determined |
| ObjectCache.Cache.MakeRoom | proxylab-handout/cache.c:66-69 | the eviction loop ends with just the room made |
| ObjectCache.Cache.Place | proxylab-handout/cache.c:71-94 | the placing loop puts the entry into the first free slot or a new one |
| ObjectCache.Cache.constructor | proxylab-handout/cache.c:7-14 | the empty cache |
| ObjectCache.Cache.Evict | proxylab-handout/cache.c:102-127 | the least touched entry, the first on a tie, is removed and the size kept in step; an empty cache is unchanged |
| ObjectCache.Cache.Write | proxylab-handout/cache.c:58-100 | the loop ends, and the entries are those of a write, within the bound |
| ObjectCache.Cache.Read | proxylab-handout/cache.c:31-46 | the data of the first entry with the key, whose touch count goes up by one if asked and else nothing changes |
| ObjectCache.FrontGoesFirst | proxylab-handout/cache.c:102-131 | of the entries touched least often, the one in the first slot is evicted |
| ObjectCache.BoundsTold | proxylab-handout/cache.c:4-5 | an object is stored exactly if it has at most 102400 bytes, and everything stored together has at most 1049000 |
| ReadersWriters.LockedKept | proxylab-handout/cache.c:16-56 | every step keeps the accounts of both semaphores and the reader count, although loads and stores of the count are separate steps |
| ReadersWriters.Exclusion | proxylab-handout/cache.c:20-52 | while one thread writes no other writes or reads; at most one reader counts touches |
| ReadersWriters.StoredKept | proxylab-handout/cache.c:58-127 | every step keeps the size bound and only entries that were written |
| ReadersWriters.OthersOk | proxylab-handout/cache.c:16-100 | a step of one thread disturbs what no other thread has seen |
| ReadersWriters.ReaderOk | proxylab-handout/cache.c:31-46 | a scan, slot by slot among other readers, finds what a lookup in the cache at its entry finds |
| ReadersWriters.WriterOk | proxylab-handout/cache.c:58-100 | a write, eviction by eviction, does what one write does to the cache at its entry |
| ReadersWriters.InvKept | proxylab-handout/cache.c:16-100 | every step of every thread keeps the invariant |
| ReadersWriters.RunKeepsInv | proxylab-handout/cache.c:16-100 | so does every run |
| ReadersWriters.EveryRunIsSafe | proxylab-handout/cache.c:16-100 | for any number of threads and every interleaving: exclusion, one toucher, the bound; a hit returns bytes written under the key and in the cache at entry |
| ReadersWriters.InsideFrozen | proxylab-handout/cache.c:20-52 | while a reader is inside no step changes an entry's key or data |
| ReadersWriters.OnlySemaphoresBlock | proxylab-handout/cache.c:16-127 | a thread waits for semaphores only: no slot it goes to is gone, and a writer that needs room finds a victim |
| ReadersWriters.SomeoneCanGo | proxylab-handout/cache.c:16-100 | no deadlock: while a thread is inside a call, some thread inside can go on |
| ReadersWriters.EvictionEnds | proxylab-handout/cache.c:66-69 | every eviction leaves fewer entries |
| CacheCalls.ArgumentsKept | proxylab-handout/cache.c:16-100 | in every run, every call works with its own key and data, and of the readers exactly those that raised the reader count from 0 to 1 are to count a touch |
| CacheCalls.TouchesCounted | proxylab-handout/cache.c:20-41 | WHAT COUNTS AS A TOUCH: in every run, an entry has been touched once for its placing and once for each hit by a reader that was first in |
| CacheCalls.OnlyFirstTouches | proxylab-handout/cache.c:38-41 | a step of a reader changes the slots only if it was first in, and then only by the touch of its key |
| CacheCalls.LoneScan | proxylab-handout/cache.c:31-46 | the scan of a reader alone ends with what a lookup returns, and the touch counted |
| CacheCalls.LoneRead | proxylab-handout/cache.c:16-56 | a read while no other call goes on comes to its end, and leaves everything as it was but for one more touch of the entry that answers |
| CacheCalls.LoneWrite | proxylab-handout/cache.c:58-100 | a write while no other call goes on comes to its end and leaves the entries of that write; one of more than 102400 bytes leaves everything as it is |
| CacheCalls.QuietCache | proxylab-handout/cache.c:16-100 | between the calls both semaphores are free and no reader is counted |
| Sbuf.BalancedKept | proxylab-handout/sbuf.c:29-46 | every step keeps the account of slots, items and claims |
| Sbuf.QueuedKept | proxylab-handout/sbuf.c:29-46 | every step keeps the unread items in their slots and the order of removal |
| Sbuf.BufferIsQueue | proxylab-handout/sbuf.c:29-46 | so does every run |
| Sbuf.RunFromStart | proxylab-handout/sbuf.c:3-46 | for any number of threads and every interleaving: at most n items, slots + items + claims in flight = n, and what was removed is a prefix of what was inserted |
| Sbuf.StoresIntoFreeSlot | proxylab-handout/sbuf.c:29-35 | no store hits a slot whose item has not been taken |
| Sbuf.SomeoneCanGo | proxylab-handout/sbuf.c:29-46 | no deadlock inside calls, and no remainder by zero |
| Sbuf.ItemsConserved | proxylab-handout/sbuf.c:29-46 | NO ITEM IS LOST OR MADE UP: in every run, every value was given to insertions as often as it was stored or is on its way in, and taken as often as removals returned it or have it on their way out |
| Sbuf.EachCallItsItem | proxylab-handout/sbuf.c:29-46 | in every run, an insertion carries the item it was given, at the position its own store advanced rear over, and a removal the item stored at the position its own load advanced front over |
| Sbuf.QuietBuffer | proxylab-handout/sbuf.c:3-10 | between the calls, an insertion can start exactly if fewer than n items are in the buffer, and a removal exactly if one is |
| Sbuf.LoneInsert | proxylab-handout/sbuf.c:29-35 | an insertion that nothing disturbs comes to its end, and leaves the item in the slot behind the last one |
| Sbuf.LoneRemove | proxylab-handout/sbuf.c:38-46 | a removal that nothing disturbs comes to its end, and returns the item stored longest ago of those not taken |
| HclCorrect.BuildsElements | ch4sim/misc/node.c:187-196 | concatenation builds the chain of set elements in order |
| HclCorrect.BuildsArms | ch4sim/misc/node.c:187-196 | and the chain of arms |
| HclCorrect.ParenParses | ch4sim/misc/node.c:522-565 | a binary expression in parentheses is read as that expression wherever it stands |
| HclCorrect.Parses | ch4sim/misc/node.c:479-643 | C's precedence grammar reads the code of an expression, followed by anything, as one operand with the intended tree |
| HclCorrect.ParsesElements | ch4sim/misc/node.c:566-586 | a set is read as a chain of comparisons joined by or, the later arms of a case in it counting as elements |
| HclCorrect.ParsesArms | ch4sim/misc/node.c:618-636 | a case is read as nested conditionals, the default ending them |
| HclCorrect.BooleanValue | ch4sim/misc/node.c:238-272 | what passes the check for a Boolean argument has the value 0 or 1 |
| HclCorrect.TreeMeans | ch4sim/misc/node.c:479-643 | the tree has the value claimed for the code |
| HclCorrect.HclCompiled | ch4sim/misc/node.c:479-643 | WHAT THE CODE COMPUTES: for every accepted expression no null pointer is read, C reads the text as one expression, and its value is the HCL value with the sets enlarged by what leaks from cases in them |
| HclCorrect.FormedSafe | ch4sim/misc/node.c:479-643 | no null pointer is read |
| HclCorrect.NodesAre | ch4sim/misc/node.c:566-636 | the values that the code of a set tests for are those of its elements and those of cases over a proper part, at the end, of the arms of a case in it |
| HclCorrect.SetPreservedExactly | ch4sim/misc/node.c:566-636 | THE EXACT CONDITION: the code of a set differs from the HCL value if and only if the value tested is no member and equals such a partial case |
| HclCorrect.SingleArmsKeep | ch4sim/misc/node.c:566-636 | a case of one arm in a set leaks nothing |
| HclCorrect.OpenCaseReadsNull | ch4sim/misc/node.c:618-636 | a case in a set that does not end in a default, before a signal, a numeral or a negation, makes the generator read a null pointer |
| HclCorrect.NeighboursMerge | ch4sim/misc/node.c:187-196 | two cases side by side in a set build the same tree as one case with the arms of both |
| HclCorrect.HclPreserved | ch4sim/misc/node.c:479-643 | COMPILATION PRESERVES MEANING: the text generated for every accepted expression is read by C as one expression with the value of the HCL expression (first matching arm, 0 if none, set membership, logical and and or), unless a value leaks into a set that it is no member of |
| HclCorrect.LeadingZeros | ch4sim/misc/node.c:503-521 | a numeral with leading zeros, octal in C, is accepted and keeps its value if and only if all its digits but the last are 0 and the last is below 8 |
| HclCorrect.CaseInSetMiscompiled | ch4sim/misc/node.c:566-586 | an accepted expression with a case as last set element whose code has another value |
| HclMeaning.CheckedIsTyped | ch4sim/misc/node.c:238-315 | CHECKING IS TYPING: what is accepted where a Boolean or an integer is wanted is exactly what a typing judgement gives that type, and an expression is accepted exactly if it has a type |
| HclMeaning.NodeType | ch4sim/misc/node.c:238-272 | the flag of the node that is built is the type that the checks look at |
| HclMeaning.Compared | ch4sim/misc/node.c:297-302 | the six comparisons by the sign of the difference |
| HclMeaning.Connectives | ch4sim/misc/node.c:522-560 | on truth values conjunction is the smaller and disjunction the greater, in HCL and for the operators of C that stand for them |
| HclMeaning.FirstArmTold | ch4sim/misc/node.c:619-640 | a case is the value of its first arm whose condition holds, by position, and 0 if there is none |
| HclMeaning.InTold | ch4sim/misc/node.c:304-308 | membership in a set is equality with the element at some position |
| HclMeaning.NumeralsRead | ch4sim/misc/node.c:619-626 | a decimal numeral, with or without a sign, reads as the number it was written from |
| HclMeaning.WrittenIsRead | ch4sim/misc/node.c:503-521 | the same for every base up to ten, so for the octal reading too |
| HclMeaning.AndBit | ch4sim/misc/node.c:522-530 | every bit of the bitwise conjunction, for numbers of any sign |
| HclMeaning.OrBit | ch4sim/misc/node.c:531-539 | every bit of the bitwise disjunction |
| YoText.NumberOfHex | ch4sim/misc/yas.c:122-131 | the printed address digits read as the address |
| YoText.BytesOfHex | ch4sim/misc/yas.c:122-131 | the printed code digits read as the code |
| YoText.ReadsWhatWasPrinted | ch4sim/misc/isa.c:211-269 | the line printed for code at an address below 0x10000 is read back as that code at that address, whatever the text after it |
| YoText.BlankSkipped | ch4sim/misc/isa.c:217-223 | a line printed without an address is skipped |
| YoText.HexStuff | ch4sim/misc/yas.c:122-131 | writes the digits in place and nothing else |
| YoText.FillAddress | ch4sim/misc/yas.c:145-169 | the address in the empty line |
| YoText.FillCode | ch4sim/misc/yas.c:157-171 | the code bytes in their columns |
| YoText.PrintCode | ch4sim/misc/yas.c:133-190 | the whole line, in both formats; an error exactly past 0xFFFF |
| YoText.SkipFrom | ch4sim/misc/isa.c:217-219 | the loop over white space |
| YoText.ReadAddress | ch4sim/misc/isa.c:226-231 | the loop over the address |
| YoText.StoreCode | ch4sim/misc/isa.c:254-269 | the loop over the code stores byte by byte until the memory ends |
| YoText.OneLine | ch4sim/misc/isa.c:211-298 | one line read into memory |
| YoText.LoadMem | ch4sim/misc/isa.c:194-300 | a file read into memory, with the number of bytes, or 0 at the first faulty line |
| YoText.DigitsTold | ch4sim/misc/yas.c:120-131 | every digit printed for a number, by its place |
| YoText.CodeTold | ch4sim/misc/yas.c:150-151 | every byte of the code is printed as two digits |
| YoText.ColumnsTold | ch4sim/misc/yas.c:155-174 | what stands in which column of a line below 0x1000: address, colon, code, spaces, bar, text |
| YoText.WideColumnsTold | ch4sim/misc/yas.c:136-154 | the same from 0x1000 on |
| YoText.EitherCase | ch4sim/misc/isa.c:183-192 | digits are read in both cases |
| Yas.TableConsistent | ch4sim/misc/isa.c:63-104 | every instruction of the table has the size, operand places and operation code with which the processor decodes its form |
| Yas.MemoryCode | ch4sim/misc/yas.c:397-437 | a register and a memory operand fill the same bytes in either order |
| Yas.ArgsEncode | ch4sim/misc/yas.c:397-437 | the generic walk over the tokens fails exactly if they are not operands of the instruction's form and else leaves the instruction's code |
| Yas.CodeFits | ch4sim/misc/yas.c:77-81 | no instruction of the table overruns the ten-byte code buffer |
| Assembler.Assembler.constructor | ch4sim/misc/yas.c:602-613 | before the first pass |
| Assembler.Assembler.FindSymbol | ch4sim/misc/yas.c:514-522 | the address of the first symbol of the name, or an error |
| Assembler.Assembler.GetReg | ch4sim/misc/yas.c:205-223 | one half of a byte set to the register, or an error exactly if there is none |
| Assembler.Assembler.PutBytesAt | ch4sim/misc/yas.c:242-245 | the loop over the bytes stores the number, little-endian, and nothing else |
| Assembler.Assembler.GetNum | ch4sim/misc/yas.c:227-246 | a number or a label stored, or an error exactly if there is neither |
| Assembler.Assembler.ReadMem | ch4sim/misc/yas.c:255-285 | all forms of a memory operand |
| Assembler.Assembler.GetMem | ch4sim/misc/yas.c:255-291 | a memory operand stored |
| Assembler.Assembler.GetArgs | ch4sim/misc/yas.c:400-437 | both arguments and the comma |
| Assembler.Assembler.Encode | ch4sim/misc/yas.c:397-441 | the second pass over an instruction prints exactly its code at its address, or is in error |
| Assembler.Assembler.FinishFrom | ch4sim/misc/yas.c:344-395 | directives and instructions, in both passes |
| Assembler.Assembler.FinishLine | ch4sim/misc/yas.c:305-443 | a line in either pass: same move of the address, labels in the first, text in the second, errors exactly where the line cannot be assembled |
| Assembler.FirstPass | ch4sim/misc/yas.c:602-608 | the first pass collects all labels with the addresses of their lines |
| Assembler.SecondPass | ch4sim/misc/yas.c:610-620 | the second pass prints every line at the address the first pass gave it |
| Assembler.Assemble | ch4sim/misc/yas.c:548-623 | assembly succeeds if and only if every line can be assembled where it comes to lie, and both passes agree on all addresses |
| AssemblerCorrect.ConditionNames | ch4sim/misc/isa.c:62-104 | after `subq a, b`, a conditional jump or move is taken exactly if b compares with a as its name says, for all 64-bit values |
| AssemblerCorrect.LabelResolves | ch4sim/misc/yas.c:505-522 | with distinct labels, a label is the address at which its line starts |
| AssemblerCorrect.ShownWhereItStarts | ch4sim/misc/yas.c:350-379 | a line is shown at the address of its label if and only if it is not a .pos with another address nor an .align by a number that does not divide the address (or, below 0, by any number but 1) |
| AssemblerCorrect.AlignKeeps | ch4sim/misc/yas.c:364-379 | when rounding up to a multiple, with the division of C, keeps an address |
| AssemblerCorrect.PrintedLoads | ch4sim/misc/isa.c:211-269 | loading a printed line stores its code and nothing else, and counts its bytes |
| AssemblerCorrect.LoadsLines | ch4sim/misc/isa.c:194-300 | loading all of them stores the code of every line, if no two overlap, and counts all their bytes |
| AssemblerCorrect.CodeDecodes | ch4sim/misc/isa.c:627-674 | a step of the processor at the code of an instruction executes that instruction with its operands and goes on after it |
| AssemblerCorrect.WrittenIsRun | ch4sim/misc/yas.c:305-443 | WHAT IS WRITTEN IS WHAT RUNS: assembled, printed, loaded and stepped, every instruction line executes as written |
| AssemblyMeaning.RegisterNumbers | ch4sim/misc/isa.c:14-46 | the names of the registers and the numbers they encode |
| AssemblyMeaning.BareCode | ch4sim/misc/isa.c:64-91 | the bytes of `halt`, `nop` and `ret`, in numerals |
| AssemblyMeaning.RegRegCode | ch4sim/misc/isa.c:66-81 | the bytes of the moves and operations between registers, in numerals, rA in the upper half |
| AssemblyMeaning.OneRegCode | ch4sim/misc/isa.c:92-93 | the bytes of `pushq` and `popq`, in numerals |
| AssemblyMeaning.ImmRegCode | ch4sim/misc/isa.c:75-94 | the bytes of `irmovq` and `iaddq`, with the number or the address of the label behind them |
| AssemblyMeaning.DestCode | ch4sim/misc/isa.c:83-90 | the bytes of the jumps and `call`, in numerals, with the destination behind them |
| AssemblyMeaning.StoreCode | ch4sim/misc/isa.c:76-76 | the bytes of `rmmovq`, for every form of memory operand |
| AssemblyMeaning.LoadCode | ch4sim/misc/isa.c:77-77 | the bytes of `mrmovq`, for every form of memory operand |
| AssemblyMeaning.MemOperandTold | ch4sim/misc/yas.c:246-291 | a memory operand stands for its displacement and its base, either of which may be missing |
| AssemblyMeaning.DataCode | ch4sim/misc/isa.c:99-102 | `.byte`, `.word`, `.long` and `.quad` store the low 1, 2, 4 and 8 bytes |
| AssemblyMeaning.BytesOfNumber | ch4sim/misc/yas.c:240-241 | byte k of a stored number is the number divided by 256^k, modulo 256, for numbers of any sign |
| AssemblyMeaning.LookupFirst | ch4sim/misc/yas.c:505-522 | the first label of a name counts |
| AssemblyMeaning.FaultyIfMalformed | ch4sim/misc/yas.c:324-385 | the first pass rejects exactly the lines with a name and no colon, no or an unknown mnemonic, a .pos without a number, or an .align without a positive one |
| AssemblyMeaning.Assembles | ch4sim/misc/yas.c:305-443 | WHICH LINES ASSEMBLE: exactly those that the first pass does not reject and whose mnemonic has its operands, with a comma between two and every label defined |
| AssemblyMeaning.NextLine | ch4sim/misc/yas.c:380-388 | NO GAPS: a line without directive is shown where it starts, and the next line starts exactly where its code ends |
| AssemblyMeaning.PosLine | ch4sim/misc/yas.c:350-363 | after `.pos v` the next line starts at the number in the low 32 bits of v |
| AssemblyMeaning.AlignLine | ch4sim/misc/yas.c:364-379 | after `.align a` the next line starts at the least multiple of a from the address on, for addresses from 0 on, and at which one for negative addresses |
| AssemblyMeaning.NextCode | ch4sim/misc/yas.c:380-388 | the next line with code begins where the code of a line ends, if no directive is between |
| AssemblyMeaning.ListingTold | ch4sim/misc/yas.c:133-190 | behind the bar every printed line repeats its source line; a line without tokens has nothing in front of it |
| AssemblyMeaning.LineAtPc | ch4sim/misc/isa.c:194-300 | assembled, printed and loaded, the code of a line lies at the address at which the line was shown |
| AssemblyMeaning.AndqRuns | ch4sim/misc/isa.c:792-805 | the source line `andq a, b` leaves in b the bitwise product: names, bytes, layout, loading and execution composed |
| AssemblyMeaning.FallsThrough | ch4sim/misc/isa.c:627-674 | CONTROL FALLS THROUGH: an instruction that completes and does not jump leaves the processor at the next line with code |
| AssemblyMeaning.JumpsLand | ch4sim/misc/isa.c:806-846 | JUMPS LAND: a taken jump or a call to a label leaves the processor where the labelled line is shown |
| AssemblyMeaning.LoadedCount | ch4sim/misc/isa.c:194-300 | the number of bytes loaded is that of all code, and 0 exactly if no line has any |

## Left out

- PipeCorrect.PipeRefinesIsa: is about halting runs within the limit whose inputs fit throughout, which is exact for the inputs of every instruction (`PipeCorrect.PipeFollowsIsa`) and sufficient for the final state: a wrong input can by chance leave no trace. Runs that end in an address or instruction error are covered by `PipeCorrect.PipeStopsPrecisely` up to the status of the pipeline, since ISA and simulators commit different parts of a failing instruction; for runs cut by the limit see `PipeCut.CutRunCommits`.
- PipeCorrect.PipeStopsPrecisely: the performance counters are stated for instructions other than the unused code `pop2`, which the simulator does not count.
- SeqCore.SeqRefinesIsa: is about halting runs; for runs cut by the limit see `SeqCore.CutRunLagsBehind`.
- Isa.SubFlagsDecideComparison: only subtraction; addition and the logical operations have no comparison to decide.
- Allocator.Heap.Malloc: requests above 0x7fff0000 bytes, for which the conversions between `size_t`, `int` and `unsigned` wrap, are excluded, and the heap is smaller than 2^31 bytes. Addresses are word indices from the start of the heap; links are stored as byte offsets, as in the source.
- Allocator.Heap.Realloc: reallocating NULL is excluded, because the source reads the header before it tests for NULL.
- Allocator.Heap.Free: takes a live block, as its caller must ensure.
- Coalescing.WalkFit: the textbook walk runs over the heap of the segregated allocator, not over the textbook allocator's own, which differs only in what lies before the prologue.
- MallocDriver.Driver.EvalMmValid: traces resize and release only ids that hold a block and ask for sizes that do not wrap; `char` is signed, as on the machine the Makefile builds for; reading trace files, utilization and speed are not modelled.
- Csim.Cache.Touch: the counter does not wrap, that is, fewer than 2^32 - 1 touches; block contents are not modelled, as the source never fills them.
- Csim.ParseTrace: starts from parsed records; the text of the trace file is not modelled, and the totals are unbounded integers.
- Transpose.Transpose64: with 4 to 7 columns left over the source reads past the end of its rows, so these sizes are excluded. A and B are different arrays.
- ObjectCache.Cache.Write: object sizes are the lengths of the data; allocation never fails.
- ReadersWriters.EveryRunIsSafe: safety and freedom from deadlock, not freedom from starvation: writers can starve. A read inside the critical section is split at the accesses to slots and a write at its evictions; one eviction, the placing of an entry, and the copy of one object's bytes are one step each.
- Sbuf.RunFromStart: the indices `front` and `rear` are unbounded, where the source's would overflow after 2^31 items; `sbuf_empty` and `sbuf_full` only read.
- HclCorrect.HclPreserved: starts from trees that the grammar can produce; Boolean signals are 0 or 1; the C text of a signal is one opaque operand in its parentheses. That no value leaks into a set is exact for one set (`HclCorrect.SetPreservedExactly`) and sufficient for a whole expression, where a wrong subterm need not show. Line breaking, the Verilog and UCLID outputs and the surrounding function text are not modelled.
- HclCorrect.HclCompiled: a case in a set is the last element or ends in a default. Other cases read a null pointer (`HclCorrect.OpenCaseReadsNull`), or build the same tree as one case with the arms of the case behind them too (`HclCorrect.NeighboursMerge`), of which this lemma then speaks; before a binary operation or a membership test, which are no word-valued elements, what the code computes is not stated.
- Hcl.Build: nodes are values; that a node could be shared between two trees is not captured.
- Assembler.Assemble: starts from lines of tokens; the scanner, Verilog output, more than 1000 labels, lines of more than 4095 characters and lines of more tokens than the fixed token array of the source holds are not modelled, and what is printed for a line in error is not stated.
- AssemblerCorrect.WrittenIsRun: for code that fits the memory without overlapping; labels must be distinct for `AssemblerCorrect.LabelResolves`.
- YoText.LoadMem: addresses are unbounded; one with 16 or more hex digits wraps in the source.
- The exit branches of `delete_from_free_list`, and the checkers in `mm.c`: the first are proved unreachable, the second do not handle an empty class.
- The other allocators (`mm_exp_list_*.c`, `mm_textbook.c` apart from its heap walk): near copies of the allocator modelled here, with a single list or none.
- The SEQ+ variant: its control file is not part of this model.
- Graphics, logging, command lines, option parsing and reports: they compute nothing that the properties speak of.
- The debugging fields of the pipeline registers (`stage_pc`, `srca` and `srcb` beyond execute): no stage reads them.
- The servers, the thread pool, the shell, the bit puzzles, the attack and bomb labs, and the C support library: plumbing, or facts a solver decides at once.
