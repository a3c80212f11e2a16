# Richard CPU: a verified model

Richard is a five-stage in-order RV64I core in SystemVerilog with a CSR unit, a trap controller and a
stand-alone TLB; its test benches bring a byte-addressed memory and an instruction encoder. This project models
those parts in Dafny and proves what they are for:

* **The pipeline refines the instruction set.** `Isa` is a one-instruction-per-step RV64I interpreter written from
  the RISC-V Unprivileged ISA 20240411 (sections 2.4 to 2.7 and chapter 4). `RichardCore.Step` is one clock edge of
  the whole core: PC, four pipeline registers, register file and CSRs at once. `Pipeline` puts the core in the
  compliance harness, and `Refinement` and `WriteTrace` prove that every register value, every memory state and
  every write on the memory port is the sequential one, in exactly predicted cycles. The scope is the one the core
  is wired for: memory always ready, and a sequential run whose first `k` instructions are legal RV64I or FENCE words
  with naturally aligned data and 4-byte-aligned transfer targets. Instructions may come from a separate memory or,
  as in the harness, from the data memory itself; the only condition, shown to be exact, is that no instruction's word
  is changed by a store still on its way when the word is fetched. Wrong-path words and interrupt pins are arbitrary.
* **The TLB is a cache of page tables.** Lookup, fences and refills agree with a radix-table walk over all runs,
  with duplicate entries, superpages and global pages; replacement is a bounded queue.
* **The privilege state machine.** The two status registers mirror each other, form a two-level stack of privilege
  contexts, and trap entry and return nest. What a trap, a return or a CSR instruction leaves behind is stated at the
  addresses software uses and carried through a clock edge of the whole core.
* **Codecs and lanes.** Legal words and encodable instructions correspond one to one; load and store lanes against
  little-endian memory; the two-instruction constant loader; the ALU by unsigned values, two's complement values and
  bits.

Modules follow the RTL file by file: `Decoder`, `Execute` (ALU, branch unit and execute stage), `MemStage`,
`WriteBack`, `HazardUnit`, `PipeRegs` (the PC, the pipeline registers and the register file), `CsrUnit`, `TrapCtrl`,
`RichardCore`, `Tlb`; `ByteMemory` and `Pipeline.Harness` are the compliance runner, `Encoders` and `LoadImmediate`
the program generator of the core test bench. Sequential elements are classes whose `Clock` methods are proved
against next-state functions; combinational logic is functions. The proofs are in `Sequential`, `SequentialProof`,
`QuietStep`, `StageSteps`, `PipelineProof`, `Refinement` and `WriteTrace` (pipeline), `Immediates`, `WordOps`,
`LaneAccess` and `LaneRoundTrip` (datapath), `CsrAccess`, `ExceptionCauses`, `Privilege`, `TrapRuns` and `TrapNesting`
(privilege), and `PageTable`, `PageEdits`, `TlbArithmetic`, `TlbHits`, `TlbCoherence` and `TlbFifo` (translation).
Words are bit-vectors of the width of the hardware; cycle counts and page arithmetic are integers.

The core and its references share some definitions: operators, the map from register fields to numbers, address maps,
byte accesses. Each is stated on its own, in numbers and literal encodings: `BitString`, `BitArithmetic` and
`AluMeaning` (values and bits of the operators), `Assembler` and `SystemWords` (encodings), `LaneBits` and
`MemoryMeaning` (addresses, bytes, alignment), `CsrMap` and `StatusBits` (CSR addresses and status bits),
`TrapDecisions` and `TrappingStep` (what traps and returns do), `TlbHits` (the modes and when an entry serves).

## Model

| member | source | states |
|---|---|---|
| PipeRegs.IfStage.Clock | rtl/core/if_stage.sv:46-58 | reset, then a trap redirect even when stalled, then stall, then a branch redirect, then pc + 4 |
| PipeRegs.IfIdReg.Clock | rtl/core/if_id_reg.sv:43-55 | reset and flush load a NOP at pc 0; a flush wins over a stall |
| PipeRegs.IdExReg.Clock | rtl/core/id_ex_reg.sv:121-214 | a flush clears the control word but keeps the stale operands and source addresses |
| PipeRegs.ExMemReg.Clock | rtl/core/ex_mem_reg.sv:111-198 | reset, flush, stall or latch of the EX/MEM fields |
| PipeRegs.MemWbReg.Clock | rtl/core/mem_wb_reg.sv:92-149 | a flush clears the write enable and the system flags and nothing else |
| PipeRegs.RegFile.Read | rtl/core/regfile.sv:46-52 | the port already shows what the register will hold after the edge; x0 reads zero |
| PipeRegs.RegFile.Clock | rtl/core/regfile.sv:55-65 | the reset loop zeroes every register; a write changes its register unless that is x0 |
| RichardCore.Machine.Clock | rtl/core/richard_core.sv:221-643 | clocking the elements in turn reaches the state of one simultaneous edge |
| ByteMemory.Memory.WriteByte | tb/compliance/compliance_runner.cc:52-54 | updates one byte of the map and no other |
| ByteMemory.Memory.ReadValue | tb/compliance/compliance_runner.cc:64-78 | the accumulating loop returns the little-endian value of the bytes, unwritten bytes being zero |
| ByteMemory.Memory.WriteStore | tb/compliance/compliance_runner.cc:80-108 | the store loop writes byte i of the access from the lane that its address selects |
| Pipeline.Harness.Cycle | tb/compliance/compliance_runner.cc:306-321 | one tick answers the read ports, clocks the core and applies the write request that follows the edge |
| Pipeline.Harness.Poll | tb/compliance/compliance_runner.cc:382-397 | a verdict is seen if and only if a write of this cycle reaches the host word and leaves 1 or 3 there; 1 is a pass |
| Pipeline.Harness.Run | tb/compliance/compliance_runner.cc:376-400 | the loop reaches the state the theorems speak about after the cycles it counts, and stops at the first verdict or at the limit |
| Sequential.DecodeControls | rtl/core/decoder.sv:138-436 | every legal word gets exactly the load, store, branch, jump and write-back controls of its instruction and no system effect |
| Sequential.DecodeOperands | rtl/core/decoder.sv:87-359 | every legal word selects the operands, immediate and ALU operation its instruction needs; LUI reads x0 |
| Sequential.DecodeSizes | rtl/core/decoder.sv:230-254 | the size code of a legal load or store is its access size and signedness |
| Sequential.DecodeOpImm | rtl/core/decoder.sv:256-297 | immediate operations decode to their ALU operation, shift amounts included |
| Immediates.ImmediatesAgree | rtl/core/decoder.sv:98-113 | the five concatenated immediates are the signed values of the pieces the instruction formats name |
| Assembler.IndexIsValue | rtl/core/decoder.sv:88-91 | a register number is the unsigned value of its five-bit field |
| Assembler.ParseEncode | tb/core/tb_core.cc:90-164 | every encodable instruction, written with literal opcode and function codes and register numbers, is read back by decoder and interpreter with its operation, registers and immediate |
| Assembler.EncodeParse | rtl/core/decoder.sv:138-359 | every legal word but a fence is the encoding of the instruction it parses to, so no two encodings and no two instructions are confused |
| SystemWords.EnvironmentWords | tb/core/tb_core.cc:168-171 | the words of ecall, ebreak, mret, sret and wfi raise their own signal and no other; a return above the mode is illegal |
| SystemWords.BlankWords | tb/core/tb_core.cc:134 | the all-zero and the all-one word are illegal in every mode |
| SystemWords.CsrWords | tb/core/tb_core.cc:172-183 | a CSR word keeps its operation, registers and address if the mode reaches bits 9:8 of the address and is illegal otherwise |
| SystemWords.SfenceWords | rtl/core/decoder.sv:361-408 | sfence.vma decodes above U and is illegal in U |
| SystemWords.IllegalExactly | rtl/core/decoder.sv:138-436 | the words flagged illegal are exactly those whose literal opcode and function fields name no instruction, M-extension words included |
| SystemWords.IgnoredFields | rtl/core/decoder.sv:138-359 | the function fields the decoder does not look at: words differing in them alone have the same controls |
| SystemWords.CarriedCodes | rtl/core/decoder.sv:218-254 | loads, stores and branches carry funct3 even where it names no access or condition, and stores and branches write no register |
| AluMeaning.AluComputes | rtl/core/alu.sv:30-65 | add and sub modulo 2^64, shifts bit by bit by the amount modulo 64, comparisons by unsigned and two's complement value, bitwise operations bit by bit |
| AluMeaning.WordComputes | rtl/core/ex_stage.sv:61-106 | word operations on the low 32 bits, shift amounts modulo 32, bit 31 copied upwards |
| AluMeaning.BranchCompares | rtl/core/branch_unit.sv:30-52 | each funct3 compares unsigned or two's complement values; the two unused codes never branch |
| AluMeaning.PcAdvances | rtl/core/if_stage.sv:46-58 | the next instruction is four bytes on, modulo 2^64 |
| SequentialProof.ExecuteComputes | rtl/core/ex_stage.sv:54-106 | the execute stage returns the interpreter's result, and that result is the operation on values and bits, for 64-bit and word forms |
| SequentialProof.ResultCorrect | rtl/core/wb_stage.sv:102-114 | the value selected in write-back is the architectural result of every instruction with a destination |
| SequentialProof.ControlCorrect | rtl/core/ex_stage.sv:104-112 | the branch decision and target are those of the instruction set, bit 0 cleared only where JALR asks for it |
| SequentialProof.MemoryCorrect | rtl/core/mem_stage.sv:104-182 | a store through lanes and strobes leaves memory as a little-endian store does |
| SequentialProof.DatapathCorrect | rtl/core/ex_stage.sv:54-112 | decode, execute, memory and write-back of one instruction together are one step of the instruction set |
| SequentialProof.QuietRetirement | rtl/core/mem_stage.sv:234-241 | a legal aligned instruction reaches write-back without any trap flag |
| SequentialProof.ForwardsResult | rtl/core/richard_core.sv:396-411 | the ALU result that MEM forwards is the value that will be written back, for every writer but loads and jumps |
| QuietStep.StepIsQuiet | rtl/core/richard_core.sv:221-643 | without a trap in write-back a clock edge reduces to the branch, interlock and advance cases, for any interrupt pins |
| StageSteps.BypassOverBubble | rtl/core/hazard_unit.sv:98-117 | with MEM empty, forwarding from WB or the latched read gives the register value after retirement |
| StageSteps.BypassOverInstruction | rtl/core/hazard_unit.sv:98-117 | with an instruction in MEM, forwarding gives the register value after it, and a MEM-forwarded producer writes back its ALU result |
| PipelineProof.RegsStep | rtl/core/regfile.sv:55-65 | a clock edge retires exactly the instruction in WB |
| PipelineProof.WbStep | rtl/core/mem_wb_reg.sv:92-149 | the instruction in MEM arrives in WB with its sequential load value |
| PipelineProof.MemStep | rtl/core/ex_mem_reg.sv:111-198 | the instruction in EX arrives in MEM with its sequential result and its store applied |
| PipelineProof.ExStep | rtl/core/id_ex_reg.sv:121-214 | EX receives the next instruction of the sequential run when its lag is over and an inert bubble otherwise |
| PipelineProof.FrontStep | rtl/core/if_stage.sv:46-58 | fetch and decode hold the next sequential instruction on time, through stalls, redirects and stores to later code |
| PipelineProof.FetchedWord | tb/compliance/compliance_runner.cc:306-308 | a fetch sees the stores of all older instructions but those its fetch index leaves out, at most two, so the word is the sequential one |
| PipelineProof.OperandsAreSequential | rtl/core/richard_core.sv:396-428 | both bypassed operands, and so the whole EX/MEM input, are the sequential ones |
| PipelineProof.RedirectIsTransfer | rtl/core/hazard_unit.sv:132-145 | the front end is redirected exactly by a taken transfer in EX and to its target; a bubble never redirects |
| PipelineProof.WaitIsInterlock | rtl/core/hazard_unit.sv:125-127 | the load-use stall fires exactly when a load with rd not x0 is in EX and its successor in ID names rd |
| Refinement.Invariant | rtl/core/richard_core.sv:221-643 | in every cycle up to the first instruction out of scope, each stage holds the instruction of the sequential run the cycle law names |
| Refinement.RegistersRefine | rtl/core/richard_core.sv:221-643 | after n retirements and until the next, the register file is that of n sequential steps |
| Refinement.MemoryRefines | rtl/core/mem_stage.sv:124-182 | data memory is that of n sequential steps from the cycle instruction n-1 enters MEM until instruction n does |
| Refinement.RetiresOnTime | rtl/core/hazard_unit.sv:125-188 | instruction n retires at edge 5 + n + L + 2B with its sequential word, pc and result, L counting interlocked pairs and B earlier transfers |
| Refinement.NothingElseRetires | rtl/core/id_ex_reg.sv:154-180 | in all other cycles WB holds a bubble that changes no register and no CSR state, so retirements are a prefix of the sequential run |
| Refinement.BypassCorrect | rtl/core/richard_core.sv:396-411 | in its execute cycle an instruction sees its sequential operands, and anything forwarded from MEM is an ALU result |
| Refinement.WrongPathNeverExecutes | rtl/core/hazard_unit.sv:178-186 | whatever a wrong path fetches, EX holds a sequential instruction in its own cycle or an inert bubble |
| Refinement.Progress | rtl/core/hazard_unit.sv:150-188 | once full and until the scope ends, in every window of three cycles write-back holds an instruction of the sequential run |
| Refinement.RetireBound | rtl/core/hazard_unit.sv:150-188 | instruction n is in write-back between cycles 4 + n and 4 + 3n, so it retires between edges 5 + n and 5 + 3n |
| Refinement.DecodedWord | rtl/core/if_id_reg.sv:43-55 | behind an instruction that does not transfer, decode holds the word of the memory without the stores still on their way |
| Refinement.SettledIsNecessary | rtl/core/if_id_reg.sv:43-55 | so the word decoded is the sequential one if and only if those stores leave it alone: the condition on fetching is exact |
| WriteTrace.WritesAreStores | rtl/core/mem_stage.sv:124-126 | the writes on the memory port, address and bytes, are exactly the stores of the sequential run, once each and in order |
| MemoryMeaning.StoresMakeMemory | tb/compliance/compliance_runner.cc:80-108 | replaying the store trace of n sequential instructions, byte by byte at successive addresses, gives their memory |
| MemoryMeaning.PortMakesMemory | tb/compliance/compliance_runner.cc:306-321 | in every run, in scope or not, replaying the requests on the write port gives the memory of the harness |
| MemoryMeaning.ScopeExactly | rtl/core/mem_stage.sv:104-141 | the interpreter's scope is a legal word whose data address is divisible by its size and whose transfer target is divisible by four |
| WordOps.WordOperation | rtl/core/ex_stage.sv:61-106 | ADDW, SUBW, SLLW, SRLW and SRAW on the conditioned 64-bit ALU are the sign-extended 32-bit operations |
| WordOps.WordDependsOnLowHalves | rtl/core/ex_stage.sv:61-106 | a word operation depends only on low halves, and on five bits of a shift amount |
| LaneAccess.StoreThroughBus | rtl/core/mem_stage.sv:143-182 | shifted store data written by lanes is a little-endian store at the unaligned address |
| LaneAccess.LoadThroughBus | rtl/core/mem_stage.sv:187-214 | the aligner extracts from the surrounding doubleword the little-endian load, sign- or zero-extended |
| LaneRoundTrip.StrobeSelectsLanes | rtl/core/mem_stage.sv:143-178 | the strobe has exactly the bits of the accessed lanes |
| LaneRoundTrip.StoreIsStrobed | tb/compliance/compliance_runner.cc:80-108 | a store changes a byte exactly when the strobe selects its lane in the doubleword of the address, and never uses lane 8 or above |
| LaneRoundTrip.StoreThenLoad | rtl/core/mem_stage.sv:104-214 | a matching load after a store returns the low bytes of rs2, sign- or zero-extended |
| LaneRoundTrip.DisjointLoad | rtl/core/mem_stage.sv:104-214 | a load of other bytes is unchanged by a store |
| MemoryMeaning.PlusValue | tb/compliance/compliance_runner.cc:64-78 | byte i of an access is i addresses on, modulo 2^64 |
| MemoryMeaning.ReadBits | tb/compliance/compliance_runner.cc:64-78 | bit j of byte k of an access is bit 8k + j of the value read, and the bits past the access are zero |
| MemoryMeaning.FetchedBytes | tb/compliance/compliance_runner.cc:64-70 | the fetched word is the four bytes from its address on |
| MemoryMeaning.FreshMemory | tb/compliance/compliance_runner.cc:52-62 | unwritten memory reads as zero |
| MemoryMeaning.MisalignedFaults | rtl/core/mem_stage.sv:104-141 | an access whose size does not divide its address asks for nothing on the bus and retires as a fault with that address |
| MemoryMeaning.UnusedSizes | rtl/core/mem_stage.sv:143-214 | size codes that name no access have no strobe, no store data, no load data and no alignment fault |
| MemoryMeaning.TouchesIsOverlap | tb/compliance/compliance_runner.cc:382-397 | the harness test for the host word is an interval test modulo 2^64, and away from the top the overlap of the two accesses |
| Encoders.DecodeR | tb/core/tb_core.cc:90-92 | decoding an R-type word returns its six fields |
| Encoders.DecodeI | tb/core/tb_core.cc:95-97 | decoding an I-type word returns its fields and the sign-extended 12-bit immediate |
| Encoders.DecodeS | tb/core/tb_core.cc:100-104 | decoding an S-type word returns its fields and the sign-extended 12-bit immediate |
| Encoders.DecodeU | tb/core/tb_core.cc:107-109 | decoding a U-type word returns its register and the shifted, sign-extended immediate |
| Encoders.DecodeJ | tb/core/tb_core.cc:112-119 | decoding a J-type word returns the offset if and only if it is even and fits 21 signed bits |
| Encoders.DecodeB | tb/core/tb_core.cc:122-130 | decoding a B-type word returns the offset if and only if it is even and fits 13 signed bits |
| Encoders.EncodeR | rtl/core/decoder.sv:87-92 | any word is rebuilt from its R fields |
| Encoders.EncodeI | rtl/core/decoder.sv:101 | any word is rebuilt from its I fields and decoded immediate |
| Encoders.EncodeS | rtl/core/decoder.sv:104 | any word is rebuilt from its S fields and decoded immediate |
| Encoders.EncodeU | rtl/core/decoder.sv:110 | any word is rebuilt from its U fields and decoded immediate |
| Encoders.EncodeJ | rtl/core/decoder.sv:113 | any word has an encodable J offset and is rebuilt from it |
| Encoders.EncodeB | rtl/core/decoder.sv:107 | any word has an encodable B offset and is rebuilt from it |
| LoadImmediate.Program.EmitLoadImm64 | tb/core/tb_core.cc:185-193 | appends the LUI and ADDI words of the rounded upper part and the signed low part |
| LoadImmediate.PairLoads | tb/core/tb_core.cc:185-193 | run through the datapath, the pair loads the constant if and only if it lies in -2^31 - 2^11 to 2^31 - 2^11 - 1, and always its low half |
| CsrUnit.Unit.Clock | rtl/core/csr_unit.sv:163-311 | the assignments in source order, later ones winning, amount to the priority trap, sret, mret, write, count |
| CsrUnit.PlainInOrder | rtl/core/csr_unit.sv:195-283 | for every register the last assignment is the trap's, else the CSR write's, else the counter's |
| CsrAccess.ModifyBits | rtl/core/csr_unit.sv:323-336 | CSR operations replace, set or clear bit by bit |
| CsrAccess.ReadsBack | rtl/core/csr_unit.sv:201-254 | an enabled write is read back through the same address, aliases included, in the bits the register has |
| CsrAccess.ReadOnlyAccess | rtl/core/csr_unit.sv:129-135 | an access that does not write, such as a set or clear with zero, changes only the counters |
| CsrAccess.IllegalAccessExactly | rtl/core/csr_unit.sv:159-160 | an access is illegal exactly when no register has the literal address, or it writes misa, an identification register or time |
| CsrMap.PlainNextAt | rtl/core/csr_unit.sv:195-283 | by literal address: after an edge each register holds the trap's value, else the written one, else the counted one, else what it held |
| CsrMap.FloatNextAt | rtl/core/csr_unit.sv:239-254 | fcsr is fflags with frm above it, and a write to one address changes the others accordingly |
| CsrMap.FixedRead | rtl/core/csr_unit.sv:443-483 | misa reads its constant; identification registers and missing addresses read zero |
| CsrMap.ResetReads | rtl/core/csr_unit.sv:163-194 | after reset the machine is in M mode and every address but misa reads zero |
| CsrMap.ControllerAddresses | rtl/core/csr_unit.sv:145-152 | the vectors, delegation masks, saved pcs and status words used by the trap controller are those at the addresses software writes |
| CsrMap.TrapByAddress | rtl/core/csr_unit.sv:256-283 | a trap to M is read back at 0x341 to 0x343 and one to S at 0x141 to 0x143, and latches the vector at 0x305 or 0x105 |
| CsrMap.CountersCount | rtl/core/csr_unit.sv:195-199 | unwritten counters advance by one modulo 2^64 at both their addresses, instret not in a trap |
| CsrMap.LatchHolds | rtl/core/csr_unit.sv:256-258 | without a trap the latched vector and destination outputs hold |
| StatusBits.StatusNextBits | rtl/core/csr_unit.sv:201-309 | every bit of mstatus and sstatus after any mix of trap, returns and CSR write, the bits outside the context included |
| StatusBits.ModeNext | rtl/core/csr_unit.sv:256-309 | the mode after any edge: the trap's, else SPP's, else MPP's, else the old one |
| StatusBits.ContextByBits | rtl/core/csr_unit.sv:65-72 | the privilege context is bits 3, 7 and 12:11 at 0x300 and bits 1, 5 and 8 at 0x100 |
| ExceptionCauses.DecodedFlags | rtl/core/decoder.sv:138-436 | no word in any mode decodes to two of illegal, CSR, ebreak, ecall, load, store, mret, sret |
| ExceptionCauses.DecodedPrivileges | rtl/core/decoder.sv:361-408 | mret decodes in M only, sret above U only, a CSR access only at or above the rank in its address |
| ExceptionCauses.CauseIsException | rtl/core/trap_ctrl.sv:85-130 | the instruction in write-back raises at most one exception, and cause and value are those of that exception |
| ExceptionCauses.ExceptionDelegation | rtl/core/trap_ctrl.sv:165-172 | an exception below M goes to the supervisor if and only if medeleg has the bit of its code |
| ExceptionCauses.TrapTarget | rtl/core/trap_ctrl.sv:184-194 | trap targets are 4-byte aligned; a vectored interrupt enters the slot of its source by priority, all else the base |
| TrapDecisions.Decision | rtl/core/trap_ctrl.sv:85-180 | in every cycle: whether there is a trap, its pc, number, value and destination by mode and delegation bit at 0x302 or 0x303, and that a return without a trap is performed |
| TrapDecisions.DecisionTarget | rtl/core/trap_ctrl.sv:179-203 | the pc goes to the vector at 0x305 or 0x105, or back to the pc at 0x341 or 0x141 |
| TrapDecisions.MretReturns | rtl/core/trap_ctrl.sv:174-199 | an mret that meets no trap flushes, goes to the pc at 0x341 and enters the mode of MPP, whatever the enable bits |
| TrapDecisions.SretReturns | rtl/core/trap_ctrl.sv:174-202 | an sret that meets no trap flushes, goes to the pc at 0x141 and enters the mode of SPP |
| TrapDecisions.LastWriteSelects | rtl/core/trap_ctrl.sv:165-202 | the value last written at 0x305, 0x105, 0x302, 0x303, 0x341 or 0x141 selects target, destination and return pc |
| TrappingStep.DivertedEdge | rtl/core/richard_core.sv:221-643 | a trap or return edge redirects fetch, empties decode, execute and write-back, and lets the instruction in execute go on |
| TrappingStep.OrdinaryEdge | rtl/core/richard_core.sv:221-643 | any other edge, in any mode and with any CSR traffic: redirect, interlock or advance, decoding in the current mode |
| TrappingStep.TrapEntry | rtl/core/richard_core.sv:221-643 | one edge after a trap in write-back its pc, cause and value are at the addresses of the mode entered |
| TrappingStep.CsrInstruction | rtl/core/wb_stage.sv:90-121 | a CSR instruction leaves the old value in rd and applies its operation with its register or register number; on a missing or read-only register it traps and writes nothing |
| TrappingStep.OperandNumber | rtl/core/wb_stage.sv:94-97 | the operand of an immediate CSR form is its register number |
| TrappingStep.LeavingFields | rtl/core/wb_stage.sv:126-135 | the trap controller sees the pc, word, system signals and access faults of the instruction that was decoded |
| TrappingStep.WriteSource | rtl/core/wb_stage.sv:102-114 | the value for rd is the old CSR value, or by the select code the result, the load data or pc + 4 |
| TrappingStep.BypassShowsRetired | rtl/core/richard_core.sv:396-411 | forwarding from write-back shows the register as it retires, CSR values and blocked writes included |
| TrappingStep.ResetEdge | rtl/core/richard_core.sv:221-643 | reset starts at 0x8000_0000 in M mode with zero registers and an empty pipeline |
| TrappingStep.MemoryStallHolds | rtl/core/hazard_unit.sv:150-188 | a memory stall holds four stages, but a transfer in execute is redirected without being taken over by the memory stage |
| TrappingStep.WaitsForMemory | rtl/core/mem_stage.sv:128-138 | a load waits for request and response, a store for its request, and nothing waits with both ready |
| Privilege.MirrorStep | rtl/core/csr_unit.sv:201-309 | any simultaneous mix of trap, mret, sret and CSR write keeps SIE, SPIE and SPP equal in both registers |
| Privilege.AlwaysMirrored | rtl/core/csr_unit.sv:163-311 | the registers are mirrored in every state reachable from reset |
| Privilege.ContextStep | rtl/core/csr_unit.sv:256-309 | the status bits implement a two-level stack of mode and interrupt enable |
| TrapRuns.OnlyReturnsLower | rtl/core/trap_ctrl.sv:165-178 | a trap never lowers the mode; a lower mode comes only from mret or sret |
| TrapRuns.ModeNeverFalls | rtl/core/trap_ctrl.sv:165-178 | over any run without returns the mode never falls |
| TrapRuns.NoReentry | rtl/core/trap_ctrl.sv:133-159 | after a trap to M no interrupt is taken for any pins until an mret or a write to mstatus, whatever else happens |
| TrapRuns.DelegatedTrapDoesNotMask | rtl/core/trap_ctrl.sv:133-168 | after a delegated trap the next interrupt is taken if and only if MIE was set and a pin is high |
| TrapRuns.TrapSavesMode | rtl/core/csr_unit.sv:256-283 | SPP or MPP names the interrupted mode exactly |
| TrapRuns.MppIsInterruptedMode | rtl/core/csr_unit.sv:272-283 | MPP keeps naming it through delegated traps, srets and sstatus writes |
| TrapRuns.MachineTrapKeepsSupervisor | rtl/core/trap_ctrl.sv:165-175 | a trap taken in M is never delegated and leaves sepc, scause, stval and the supervisor's status bits alone |
| TrapNesting.VisitRestores | rtl/core/csr_unit.sv:272-297 | a machine trap, calm cycles and an mret that meets no trap restore mode, MIE and pc and keep the supervisor context |
| TrapNesting.BodyKeeps | rtl/core/csr_unit.sv:256-309 | any sequence of calm cycles and machine visits keeps what a supervisor handler needs to return |
| TrapNesting.SupervisorRoundTrip | rtl/core/trap_ctrl.sv:167-202 | a delegated trap, such a body and an sret that meets no trap restore mode, SIE, MIE and pc |
| Tlb.Buffer.MakeVpnMask | rtl/core/mmu/tlb.sv:130-153 | the loop sets exactly the bits from level times stride up to the width |
| Tlb.Buffer.Translate | rtl/core/mmu/tlb.sv:238-311 | bypasses, faults, first-match lookup and the resulting response |
| Tlb.Buffer.FenceEntries | rtl/core/mmu/tlb.sv:333-357 | the fence loops clear the valid bit of the selected entries only |
| Tlb.Buffer.Clock | rtl/core/mmu/tlb.sv:314-376 | reset, fence, then refill at the replacement pointer, which survives the fence |
| TlbArithmetic.MaskMatchIsSamePage | rtl/core/mmu/tlb.sv:130-195 | the mask match holds if and only if the page numbers agree after division by the page size |
| TlbArithmetic.VpnIsPageNumber | rtl/core/mmu/tlb.sv:155-170 | the extracted field is the address divided by 4096, modulo the mode's width |
| TlbArithmetic.AddressIsTranslation | rtl/core/mmu/tlb.sv:288-304 | for a level of the mode the address is the leaf's base rounded down to the page size plus the offset |
| TlbHits.LookupDecides | rtl/core/mmu/tlb.sv:183-311 | every response: nothing, fault or bypass by literal mode and privilege, and otherwise a walk is asked for exactly when no valid entry of the mode, global or of the address space, has the request's page number down to its level |
| TlbHits.AcceptedExactly | rtl/core/mmu/tlb.sv:359-374 | a refill is taken if and only if it is valid and of mode 1, 9 or 10 |
| TlbHits.ShiftIsOffset | rtl/core/mmu/tlb.sv:288-304 | the page offset has twelve bits and those of the levels below, kept to six bits of shift |
| TlbCoherence.MatchIsWalk | rtl/core/mmu/tlb.sv:183-195 | every matching entry, first or not, is the leaf the walk finds for the request |
| TlbCoherence.LookupIsWalk | rtl/core/mmu/tlb.sv:238-311 | with entries from a set of tables, every own answer has the address and permission verdict of the walk of one of them; with one table, of its walk |
| TlbCoherence.FenceIsExact | rtl/core/mmu/tlb.sv:333-357 | a fence clears exactly the covered leaves, superpages included, and touches nothing else |
| TlbCoherence.PageEditIsCovered | rtl/core/mmu/tlb.sv:333-357 | replacing the entry of one page, superpage included, is covered by each kind of fence meant for it: all; any page number of the page; its address space if non-global; both together |
| TlbCoherence.FenceSuffices | rtl/core/mmu/tlb.sv:333-374 | entries of any earlier tables, after a fence covering the edits, are coherent with the new table if and only if a refill of that cycle is from it |
| TlbCoherence.AlwaysWithin | rtl/core/mmu/tlb.sv:314-376 | in every run entries come from a table in force since the last fence that covered all edits, however long edits wait for their fence |
| TlbCoherence.AlwaysCoherent | rtl/core/mmu/tlb.sv:314-376 | in every run, once a fence has covered all edits the TLB is coherent with the table in force |
| TlbCoherence.RunLookupIsWalk | rtl/core/mmu/tlb.sv:238-376 | in every run a request answered without a walk gets the answer of the walk of a table still pending |
| TlbCoherence.EditThenFence | rtl/core/mmu/tlb.sv:314-376 | a page edit, traffic with refills from either table, then a fence naming the page: the TLB is coherent with the edited table |
| TlbCoherence.UnmappedPageAsks | rtl/core/mmu/tlb.sv:238-376 | after unmapping a page, superpage included, and a fence naming it, no request to the page is answered from the TLB |
| TlbCoherence.RemappedPageAnswers | rtl/core/mmu/tlb.sv:238-376 | after remapping a page and a fence naming it, a request to the page gets the new entry's address and verdict or asks for a walk |
| TlbFifo.RangeIsExact | rtl/core/mmu/tlb.sv:93 | the replacement pointer wraps at ENTRIES if and only if that is a power of two above one |
| TlbFifo.RangeIsLeastPower | rtl/core/mmu/tlb.sv:93 | the pointer counts to the least power of two not below ENTRIES, and to 4 for one entry |
| TlbFifo.QueueIsHistory | rtl/core/mmu/tlb.sv:314-376 | for such sizes the entries are the last min(n, ENTRIES) accepted refills, less those fenced since |
| TlbFifo.RefilledPageAnswers | rtl/core/mmu/tlb.sv:359-374 | requests in a refilled page, superpages and other address spaces of a global page included, hit or fault without a walk until a fence selects it or ENTRIES further refills are accepted |
| TlbFifo.OtherSizesDropRefills | rtl/core/mmu/tlb.sv:359-374 | for any other size, a single entry included, the refill after the first ENTRIES is dropped |
| TlbFifo.RefillsLandExactly | rtl/core/mmu/tlb.sv:359-374 | every refill of every run lands in an entry if and only if ENTRIES is a power of two above one |

## Left out

- Precise traps in the full pipeline: the comment at rtl/core/trap_ctrl.sv:25 promises them, but the EX/MEM flush is
  tied off (rtl/core/richard_core.sv:434), so the instruction in EX survives a trap and a store in MEM is not gated.
  The pipeline theorems are trap-free; `TrappingStep.DivertedEdge` states the trap edge as it is, and the properties
  of trap sequences are proved on the CSR unit and the trap controller.
- CSR and SYSTEM instructions inside the pipeline theorems, where a CSR value read by the very next instruction is not
  forwarded (rtl/core/richard_core.sv:396-411 against rtl/core/wb_stage.sv:102-105); their single edges are in
  `TrappingStep`.
- Memory stalls: request and response are tied ready (rtl/core/richard_core.sv:524-525). The stall paths are modelled
  and, but for `TrappingStep.MemoryStallHolds`, never taken.
- Pipeline.Harness.Cycle: a store whose size code is illegal and whose lanes leave the doubleword, which shifts past
  the word width in the harness, is dropped.
- Runs past an instruction whose word is changed by a store still on its way at the fetch: the core decodes the old
  word there, as `Refinement.DecodedWord` shows.
- ByteMemory.Memory.WriteStore: does not model lanes past 7, whose shift is undefined in the source language.
- LoadImmediate.PairLoads: the source promises nothing for x0, which stays zero.
- TlbCoherence.LookupIsWalk: requests marked as fetch and store at once have no reference access kind.
- ASID width and the 45-bit width of page-number ports: ASIDs are integers, page numbers doublewords of which the
  mode's field is compared.
- Deviations of the code from the privileged specification kept as they are: interrupts gated by MIE alone, access
  faults for misaligned data, no instruction-misaligned trap, writable counter aliases, no canonical-address check.
- The M, A, F, D and C extensions, caches, AXI, the page-table walker and peripherals, which the RTL does not contain.
- Command-line handling, ELF loading, signature output and test orchestration.
