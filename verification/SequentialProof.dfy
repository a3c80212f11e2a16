/** The datapath, used for one instruction at a time, executes RV64I. */
module SequentialProof {
  import opened Rv64Pkg
  import opened Bits
  import opened Lanes
  import opened ByteMemory
  import opened Decoder
  import opened Execute
  import opened MemStage
  import opened PipeRegs
  import opened WriteBack
  import opened RichardCore
  import opened Isa
  import opened WordOps
  import opened AluMeaning
  import opened LaneAccess
  import opened Sequential

  // Arithmetic

  lemma SignedOrder(a: bv64, b: bv64)
    ensures SignedLess(a, b) == Below(a, b)
  {}

  lemma AluIsArith(op: AluOp, a: bv64, b: bv64)
    ensures Alu(op, a, b) == Arith(op, a, b)
  {
    hide Add, Sub, Sll, Srl, Sra, SignedLess, Below;
    SignedOrder(a, b);
    match op case AluAdd => case AluSub => case AluSll => case AluSlt => case AluSltu => case AluXor =>
    case AluSrl => case AluSra => case AluOr => case AluAnd =>
  }

  /** The execute stage of a computational instruction: the interpreter's result, and what that result is. */
  lemma ExecuteComputes(op: AluOp, word: bool, imm: bool, pc: bv64, rs1: bv64, rs2: bv64, k: bv64)
    requires word ==> IsWordOp(op)
    ensures var r, b := ExStage(EX_IDLE.(aluOp := op, isWordOp := word, src2Imm := imm), pc, rs1, rs2, k).aluResult,
                        if imm then k else rs2;
      r == Compute(op, word, rs1, b) && if word then ComputesWord(op, rs1, b, r) else Computes(op, rs1, b, r)
  {
    hide Alu, Arith, Arith32, Compute, SignExtend32, Low32, WordOperandA, WordOperandB, Computes, ComputesWord;
    var b := if imm then k else rs2;
    if word {
      WordOperation(op, rs1, b);
      WordComputes(op, rs1, b);
    } else {
      AluIsArith(op, rs1, b);
      AluComputes(op, rs1, b);
      NotWord(op, rs1, b);
    }
  }

  lemma NotWord(op: AluOp, a: bv64, b: bv64)
    ensures Compute(op, false, a, b) == Arith(op, a, b)
  {}

  // Shift amounts taken from an I-type immediate

  lemma ImmShamt(w: bv32)
    ensures ImmI(w) & 0x3F == ((w >> 20) & 0x3F) as bv64
    ensures ((w >> 20) & 0x3F) as bv64 & 0x3F == ((w >> 20) & 0x3F) as bv64
  {}

  lemma ShiftsUseSixBits(a: bv64, b: bv64)
    ensures Sll(a, b) == Sll(a, b & 0x3F) && Srl(a, b) == Srl(a, b & 0x3F) && Sra(a, b) == Sra(a, b & 0x3F)
  {}

  lemma ImmShamt32(w: bv32)
    ensures Low32(ImmI(w)) & 0x1F == Low32(((w >> 20) & 0x1F) as bv64) & 0x1F
  {
    assert Low32(((w >> 20) & 0x1F) as bv64) == (w >> 20) & 0x1F;
    assert ImmI(w) & 0x1F == ((w >> 20) & 0x1F) as bv64;
    LowFive(ImmI(w));
  }

  lemma LowFive(x: bv64)
    ensures (Low32(x) & 0x1F) as bv64 == x & 0x1F
  {}

  lemma Shifts32UseFiveBits(x: bv32, y: bv32)
    ensures Sll32(x, y) == Sll32(x, y & 0x1F) && Srl32(x, y) == Srl32(x, y & 0x1F) && Sra32(x, y) == Sra32(x, y & 0x1F)
  {}

  lemma WordShiftByImmediate(op: AluOp, a: bv32, w: bv32)
    requires IsShiftOp(op)
    ensures Arith32(op, a, Low32(ImmI(w))) == Arith32(op, a, Low32(Shamt(w, true)))
  {
    hide Sll32, Srl32, Sra32, ImmI, Low32;
    var y, z := Low32(ImmI(w)), Low32(((w >> 20) & 0x1F) as bv64);
    ImmShamt32(w);
    Shifts32UseFiveBits(a, y);
    Shifts32UseFiveBits(a, z);
  }

  lemma WideShiftByImmediate(op: AluOp, a: bv64, w: bv32)
    requires IsShiftOp(op)
    ensures Arith(op, a, ImmI(w)) == Arith(op, a, Shamt(w, false))
  {
    hide Sll, Srl, Sra, ImmI;
    ImmShamt(w);
    ShiftsUseSixBits(a, ImmI(w));
    ShiftsUseSixBits(a, ((w >> 20) & 0x3F) as bv64);
  }

  /** Shifting by the whole immediate is shifting by its shift-amount field. */
  lemma ShiftByImmediate(op: AluOp, word: bool, a: bv64, w: bv32)
    requires IsShiftOp(op)
    ensures Compute(op, word, a, ImmI(w)) == Compute(op, word, a, Shamt(w, word))
  {
    hide Arith, Arith32, ImmI, Shamt, Low32, SignExtend32;
    if word {
      WordShiftByImmediate(op, Low32(a), w);
    } else {
      WideShiftByImmediate(op, a, w);
    }
  }

  // Results, instruction by instruction

  /** Every non-computational instruction adds in the execute stage. */
  lemma ExecuteAdds(c: ExCtrl, pc: bv64, rs1: bv64, rs2: bv64, k: bv64)
    requires c.aluOp == AluAdd && !c.isWordOp
    ensures var x := ExStage(c, pc, rs1, rs2, k);
      x.aluResult == Add(if c.src1Pc then pc else rs1, if c.src2Imm then k else rs2)
      && x.branchTarget == ClearBit0(x.aluResult)
  {
    hide Add, ClearBit0, BranchTaken;
  }

  /** The fields of an executed instruction, in terms of its decoding. */
  lemma ExecutedFields(h: Hart, w: bv32)
    ensures var d, q := Decode(w, M), Executed(h, w);
      var x := ExStage(d.ctrl.ex, h.pc, ReadReg(h.regs, d.rs1), ReadReg(h.regs, d.rs2), d.imm);
      q.pc == h.pc && q.aluResult == x.aluResult && q.branchTaken == x.branchTaken && q.branchTarget == x.branchTarget
      && q.rs2Data == ReadReg(h.regs, d.rs2) && q.mem == d.ctrl.mem && q.wb == d.ctrl.wb && q.sys == d.ctrl.sys
  {
    hide Decode, ExStage, ReadReg;
  }

  lemma AccessedFields(h: Hart, w: bv32)
    ensures var q, r := Executed(h, w), Accessed(h, w);
      r.pc == q.pc && r.wb == q.wb && r.aluResult == q.aluResult
      && r.memRdata == LoadData(q.mem.memSize, q.aluResult, BusRead(h.mem, q))
  {
    hide Executed, LoadData, BusRead, LoadMisaligned, StoreMisaligned;
  }

  lemma AddressComputed(h: Hart, w: bv32)
    requires Parse(w).Some? && (Parse(w).value.Load? || Parse(w).value.Store?)
    ensures var i, q := Parse(w).value, Executed(h, w);
      q.aluResult == Address(h, i.rs1, i.offset) && (i.Store? ==> q.rs2Data == ReadReg(h.regs, i.rs2))
  {
    hide Decode, Parse, Executed, ExStage, ReadReg, Add, ClearBit0;
    var d := Decode(w, M);
    DecodeOperands(w, M);
    ExecutedFields(h, w);
    ExecuteAdds(d.ctrl.ex, h.pc, ReadReg(h.regs, d.rs1), ReadReg(h.regs, d.rs2), d.imm);
  }

  /** A naturally aligned access passes the gate of the memory stage. */
  lemma AlignedPassesGate(size: bv3, addr: bv64)
    requires size != 7 && NaturallyAligned(addr, ParseAccess(size & 3))
    ensures !AddrMisaligned(size, addr)
  {
    if size == 0 {} else if size == 1 {} else if size == 2 {} else if size == 3 {}
    else if size == 4 {} else if size == 5 {} else {}
  }

  lemma InScopeAligned(h: Hart, w: bv32)
    requires InScope(h, w)
    ensures Parse(w).Some?
    ensures var q := Executed(h, w);
      !LoadMisaligned(q.mem, q.aluResult) && !StoreMisaligned(q.mem, q.aluResult)
  {
    var i, q := Parse(w).value, Executed(h, w);
    hide Decode, Parse, Executed, Address, NaturallyAligned, AddrMisaligned, ParseAccess, Transfers, NextPc;
    DecodeControls(w, M);
    DecodeSizes(w, M);
    ExecutedFields(h, w);
    if i.Load? || i.Store? {
      AddressComputed(h, w);
      StoreSizeLow(q.mem.memSize);
      AlignedPassesGate(q.mem.memSize, q.aluResult);
    }
  }

  lemma StoreSizeLow(size: bv3)
    ensures size & 4 == 0 ==> size & 3 == size && size != 7
  {}

  lemma QuietRetirement(h: Hart, w: bv32)
    requires InScope(h, w)
    ensures Accessed(h, w).sys == WB_SYS_IDLE
  {
    hide Decode, Parse, Executed, NoException, LoadMisaligned, StoreMisaligned, LoadData, BusRead;
    InScopeAligned(h, w);
    DecodeControls(w, M);
    ExecutedFields(h, w);
  }

  lemma ParsedWordOp(w: bv32)
    requires Parse(w).Some?
    ensures var i := Parse(w).value; (i.OpImm? || i.Op?) && i.word ==> IsWordOp(i.op)
  {
    hide RegIndex, ImmediateI, ImmediateS, ImmediateB, ImmediateU, ImmediateJ, ParseAccess;
  }

  lemma RegisterResult(h: Hart, w: bv32)
    requires Parse(w).Some? && Parse(w).value.Op?
    ensures Executed(h, w).aluResult == Result(h, Parse(w).value)
  {
    var i, d := Parse(w).value, Decode(w, M);
    hide Decode, Parse, Executed, ExStage, ReadReg, Compute, Computes, ComputesWord, IsWordOp, OperandsOf;
    DecodeOperands(w, M);
    OpOperands(i, d);
    ExecutedFields(h, w);
    ParsedWordOp(w);
    ExecuteComputes(i.op, i.word, false, h.pc, ReadReg(h.regs, d.rs1), ReadReg(h.regs, d.rs2), d.imm);
  }

  /** The result for the whole immediate. */
  lemma ImmediateExecuted(h: Hart, w: bv32)
    requires Parse(w).Some? && Parse(w).value.OpImm?
    ensures var i := Parse(w).value;
      Executed(h, w).aluResult == Compute(i.op, i.word, ReadReg(h.regs, i.rs1), ImmI(w))
      && i.imm == if IsShiftOp(i.op) then Shamt(w, i.word) else ImmI(w)
  {
    var i, d := Parse(w).value, Decode(w, M);
    hide Decode, Parse, Executed, ExStage, ReadReg, Compute, Computes, ComputesWord, IsWordOp, ImmI, Shamt, IsShiftOp;
    DecodeOpImm(w, M);
    ExecutedFields(h, w);
    ParsedWordOp(w);
    ExecuteComputes(i.op, i.word, true, h.pc, ReadReg(h.regs, d.rs1), ReadReg(h.regs, d.rs2), d.imm);
  }

  lemma ResultOfOpImm(h: Hart, i: Instr)
    requires i.OpImm?
    ensures Result(h, i) == Compute(i.op, i.word, ReadReg(h.regs, i.rs1), i.imm)
  {
    hide Compute, ReadReg;
  }

  lemma ImmediateResult(h: Hart, w: bv32)
    requires Parse(w).Some? && Parse(w).value.OpImm?
    ensures Executed(h, w).aluResult == Result(h, Parse(w).value)
  {
    hide *;
    var i := Parse(w).value;
    ImmediateExecuted(h, w);
    ResultOfOpImm(h, i);
    if IsShiftOp(i.op) {
      ShiftByImmediate(i.op, i.word, ReadReg(h.regs, i.rs1), w);
    }
  }

  lemma AddZero(x: bv64)
    ensures Add(0, x) == x
  {}

  lemma UpperResult(h: Hart, w: bv32)
    requires Parse(w).Some? && (Parse(w).value.Lui? || Parse(w).value.Auipc?)
    ensures Executed(h, w).aluResult == Result(h, Parse(w).value)
  {
    var d := Decode(w, M);
    hide Decode, Parse, Executed, ExStage, Add, ClearBit0;
    DecodeOperands(w, M);
    ExecutedFields(h, w);
    ExecuteAdds(d.ctrl.ex, h.pc, ReadReg(h.regs, d.rs1), ReadReg(h.regs, d.rs2), d.imm);
    AddZero(d.imm);
  }

  lemma LoadResult(h: Hart, w: bv32)
    requires InScope(h, w) && Parse(w).value.Load?
    ensures Accessed(h, w).memRdata == Result(h, Parse(w).value)
  {
    var i, q := Parse(w).value, Executed(h, w);
    InScopeAligned(h, w);
    hide Decode, Parse, Executed, Accessed, Address, NaturallyAligned, AddrMisaligned, ParseAccess, Transfers, NextPc;
    hide LoadData, LoadValue, ReadU64, Aligned;
    DecodeControls(w, M);
    DecodeSizes(w, M);
    ExecutedFields(h, w);
    AccessedFields(h, w);
    AddressComputed(h, w);
    LoadThroughBus(h.mem, q.aluResult, q.mem.memSize);
  }

  /** The write-back value of an instruction is its architectural result. */
  lemma ResultCorrect(h: Hart, w: bv32)
    requires InScope(h, w) && WritesRd(Parse(w).value)
    ensures Selected(Accessed(h, w)) == Result(h, Parse(w).value)
  {
    var i := Parse(w).value;
    hide Decode, Parse, Executed, Accessed, NoException, PcPlus4, Add, Compute, LoadValue;
    DecodeControls(w, M);
    ExecutedFields(h, w);
    AccessedFields(h, w);
    match i
    case Lui(_, _) => UpperResult(h, w);
    case Auipc(_, _) => UpperResult(h, w);
    case Load(_, _, _, _, _) => LoadResult(h, w);
    case OpImm(_, _, _, _, _) => ImmediateResult(h, w);
    case Op(_, _, _, _, _) => RegisterResult(h, w);
    case _ =>
  }

  // Control transfers

  lemma BranchDecision(c: ExCtrl, pc: bv64, rs1: bv64, rs2: bv64, k: bv64, cond: Condition)
    requires !c.isJump && c.isBranch && ParseCondition(c.branchOp) == Some(cond)
    ensures ExStage(c, pc, rs1, rs2, k).branchTaken == Holds(cond, rs1, rs2)
  {
    hide Alu, SignedLess, Below, WordOperandA, WordOperandB, ClearBit0;
    SignedOrder(rs1, rs2);
  }

  lemma EvenTarget(x: bv64)
    requires x & 3 == 0
    ensures ClearBit0(x) == x
  {}

  lemma JumpTarget(h: Hart, w: bv32)
    requires InScope(h, w) && (Parse(w).value.Jal? || Parse(w).value.Jalr?)
    ensures var i := Parse(w).value;
      NextPc(h, i) & 3 == 0
      && NextPc(h, i) == if i.Jal? then Add(h.pc, i.offset) else ClearBit0(Add(ReadReg(h.regs, i.rs1), i.offset))
  {
    hide Parse, ReadReg, NaturallyAligned, Add, PcPlus4, ClearBit0;
    var i := Parse(w).value;
    if i.Jalr? {
      ClearsBit0(Add(ReadReg(h.regs, i.rs1), i.offset));
    }
  }

  lemma JumpControl(h: Hart, w: bv32)
    requires InScope(h, w) && (Parse(w).value.Jal? || Parse(w).value.Jalr?)
    ensures Executed(h, w).branchTaken && Executed(h, w).branchTarget == NextPc(h, Parse(w).value)
  {
    var i, d := Parse(w).value, Decode(w, M);
    JumpTarget(h, w);
    hide Decode, Parse, Executed, ExStage, ReadReg, NoException, NextPc, Add, PcPlus4, ClearBit0;
    DecodeOperands(w, M);
    ExecutedFields(h, w);
    JumpTaken(d.ctrl.ex, h.pc, ReadReg(h.regs, d.rs1), ReadReg(h.regs, d.rs2), d.imm);
    ExecuteAdds(d.ctrl.ex, h.pc, ReadReg(h.regs, d.rs1), ReadReg(h.regs, d.rs2), d.imm);
    if i.Jal? {
      EvenTarget(Add(h.pc, d.imm));
    }
  }

  lemma JumpTaken(c: ExCtrl, pc: bv64, rs1: bv64, rs2: bv64, k: bv64)
    requires c.isJump
    ensures ExStage(c, pc, rs1, rs2, k).branchTaken
  {
    hide Alu, BranchTaken, ClearBit0;
  }

  lemma ClearsBit0(x: bv64)
    ensures ClearBit0(x) == x & 0xFFFF_FFFF_FFFF_FFFE
  {}

  lemma BranchTarget(h: Hart, w: bv32)
    requires InScope(h, w) && Parse(w).value.Branch?
    ensures var i := Parse(w).value;
      Transfers(h, i) == Holds(i.cond, ReadReg(h.regs, i.rs1), ReadReg(h.regs, i.rs2))
      && (Transfers(h, i) ==> NextPc(h, i) == Add(h.pc, i.offset) && Add(h.pc, i.offset) & 3 == 0)
  {
    hide Parse, ReadReg, NaturallyAligned, Add, PcPlus4, Holds;
  }

  lemma BranchControl(h: Hart, w: bv32)
    requires InScope(h, w) && Parse(w).value.Branch?
    ensures var i, q := Parse(w).value, Executed(h, w);
      q.branchTaken == Transfers(h, i) && (q.branchTaken ==> q.branchTarget == NextPc(h, i))
  {
    var i, d := Parse(w).value, Decode(w, M);
    var a, b := ReadReg(h.regs, d.rs1), ReadReg(h.regs, d.rs2);
    BranchTarget(h, w);
    hide Decode, Parse, Executed, ExStage, ReadReg, NoException, Add, PcPlus4, ClearBit0, Holds, ParseCondition;
    hide Transfers, NextPc;
    DecodeOperands(w, M);
    ExecutedFields(h, w);
    ExecuteAdds(d.ctrl.ex, h.pc, a, b, d.imm);
    BranchDecision(d.ctrl.ex, h.pc, a, b, d.imm, i.cond);
    if Transfers(h, i) {
      EvenTarget(Add(h.pc, i.offset));
    }
  }

  /** The execute stage takes the transfer of the sequential machine. */
  lemma ControlCorrect(h: Hart, w: bv32)
    requires InScope(h, w)
    ensures var i, q := Parse(w).value, Executed(h, w);
      q.branchTaken == Transfers(h, i)
      && NextPc(h, i) == if q.branchTaken then q.branchTarget else PcPlus4(h.pc)
  {
    var i := Parse(w).value;
    if i.Jal? || i.Jalr? {
      JumpControl(h, w);
    } else if i.Branch? {
      BranchControl(h, w);
    } else {
      hide Decode, Parse, Executed, ReadReg, Alu, ClearBit0, PcPlus4, BranchTaken;
      DecodeControls(w, M);
      ExecutedFields(h, w);
    }
    hide Decode, Parse, Executed, ReadReg, Holds, NoException, PcPlus4, Add;
  }

  // Memory

  lemma MemoryCorrect(h: Hart, w: bv32)
    requires InScope(h, w)
    ensures BusStore(h.mem, Executed(h, w)) == NextMem(h, Parse(w).value)
  {
    var i, q := Parse(w).value, Executed(h, w);
    InScopeAligned(h, w);
    hide Decode, Parse, Executed, Address, NaturallyAligned, AddrMisaligned, ParseAccess, Transfers, NextPc;
    hide StoreData, StoreValue, BusWrite, Lane, SizeBytes;
    DecodeControls(w, M);
    ExecutedFields(h, w);
    if i.Store? {
      DecodeSizes(w, M);
      StoreSizeLow(q.mem.memSize);
      AddressComputed(h, w);
      LowSizes(q.mem.memSize);
      StoreThroughBus(h.mem, q.aluResult, q.mem.memSize, q.rs2Data);
    }
  }

  lemma LowSizes(size: bv3)
    ensures size & 4 == 0 ==> StoreSize(size)
  {}

  /** One instruction through the datapath is one step of the sequential machine. */
  lemma DatapathCorrect(h: Hart, w: bv32)
    requires InScope(h, w)
    ensures DatapathNext(h, w) == Next(h, w)
  {
    InScopeAligned(h, w);
    hide Decode, Parse, Executed, Accessed, NoException, PcPlus4, Result, Selected, BusStore, NextMem, NextPc;
    hide WriteReg, Transfers;
    ControlCorrect(h, w);
    MemoryCorrect(h, w);
    DecodeControls(w, M);
    ExecutedFields(h, w);
    AccessedFields(h, w);
    if WritesRd(Parse(w).value) {
      ResultCorrect(h, w);
    }
  }

  /** What the memory stage forwards is what will be written back. */
  lemma ForwardsResult(h: Hart, w: bv32)
    requires InScope(h, w) && WritesRd(Parse(w).value) && !Parse(w).value.Load? && !Executed(h, w).branchTaken
    ensures Executed(h, w).aluResult == Selected(Accessed(h, w))
  {
    hide Decode, Parse, Executed, Accessed, NoException, Transfers;
    InScopeAligned(h, w);
    DecodeControls(w, M);
    ExecutedFields(h, w);
    AccessedFields(h, w);
    ControlCorrect(h, w);
    JumpsTransfer(h, Parse(w).value);
  }

  lemma JumpsTransfer(h: Hart, i: Instr)
    ensures i.Jal? || i.Jalr? ==> Transfers(h, i)
  {}
}
