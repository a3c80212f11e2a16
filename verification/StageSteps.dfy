/** One quiet clock step, stage by stage, against the sequential machine. */
module StageSteps {
  import opened Rv64Pkg
  import opened Bits
  import opened ByteMemory
  import opened Decoder
  import opened Execute
  import opened MemStage
  import opened PipeRegs
  import opened HazardUnit
  import opened WriteBack
  import opened RichardCore
  import opened Sequential
  import opened SequentialProof
  import opened QuietStep
  import Isa

  // Slots without an instruction

  predicate InertEx(q: IdEx) {
    !q.ctrl.mem.isLoad && !q.ctrl.mem.isStore && !q.ctrl.ex.isBranch && !q.ctrl.ex.isJump
    && (q.ctrl.wb.regWrite ==> q.ctrl.wb.rd == 0) && Benign(q.ctrl.sys)
  }

  predicate InertMem(q: ExMem) {
    !q.mem.isLoad && !q.mem.isStore && (q.wb.regWrite ==> q.wb.rd == 0) && Benign(q.sys)
  }

  predicate InertWb(q: MemWb) { (q.wb.regWrite ==> q.wb.rd == 0) && q.sys == WB_SYS_IDLE }

  lemma InertThroughMem(q: ExMem, rdata: bv64)
    requires InertMem(q)
    ensures InertWb(MemOutput(q, rdata))
  {
    hide LoadData, AddrMisaligned;
  }

  lemma InertThroughEx(q: IdEx, a: bv64, b: bv64)
    requires InertEx(q)
    ensures InertMem(ExOutput(q, a, b)) && !ExOutput(q, a, b).branchTaken
  {
    hide Alu, ClearBit0, SignExtend32, Low32;
  }

  lemma InertStore(m: Bytes, q: ExMem)
    requires InertMem(q)
    ensures BusStore(m, q) == m
  {
    hide BusWrite, SizeBytes;
  }

  lemma NopIsInert(regs: Regs, pc: bv64)
    ensures InertEx(Latched(regs, pc, NOP_INSTR))
  {
    hide ReadReg;
  }

  // Write-back and memory

  lemma Retires(h: Isa.Hart, w: bv32)
    requires Isa.InScope(h, w)
    ensures WrittenBack(h.regs, Accessed(h, w)) == Isa.Next(h, w).regs
  {
    hide Accessed, Executed, WriteReg, Selected, Isa.InScope, Isa.Next;
    DatapathCorrect(h, w);
  }

  lemma InertRetires(regs: Regs, q: MemWb)
    requires InertWb(q)
    ensures WrittenBack(regs, q) == regs
  {
    hide Selected;
  }

  lemma LoadsDoNotStore(h: Isa.Hart, w: bv32)
    requires Isa.InScope(h, w)
    ensures BusRead(Isa.Next(h, w).mem, Executed(h, w)) == BusRead(h.mem, Executed(h, w))
  {
    hide Decode, Isa.Parse, Executed, Isa.NoException, ReadU64, Aligned, Isa.NextPc, Isa.NextRegs, Isa.StoreValue;
    DecodeControls(w, M);
    ExecutedFields(h, w);
  }

  /** The read of the memory stage happens after the instruction's own store, which a load does not have. */
  lemma Completes(h: Isa.Hart, w: bv32, q: ExMem)
    requires Isa.InScope(h, w) && q == Executed(h, w)
    ensures MemOutput(q, BusRead(Isa.Next(h, w).mem, q)) == Accessed(h, w)
  {
    hide MemOutput, BusRead, Executed, Isa.InScope, Isa.Next;
    LoadsDoNotStore(h, w);
  }

  lemma Stores(h: Isa.Hart, w: bv32)
    requires Isa.InScope(h, w)
    ensures BusStore(h.mem, Executed(h, w)) == Isa.Next(h, w).mem
  {
    hide Accessed, Executed, WriteReg, Selected, Isa.InScope, Isa.Next, BusStore;
    DatapathCorrect(h, w);
  }

  // Operand bypass

  /** The write-back stage forwards, or the register file already holds, the value after retirement. */
  lemma BypassFromWb(regs: Regs, q: MemWb, rs: Reg)
    ensures (if q.wb.regWrite && q.wb.rd != 0 && q.wb.rd == rs then Selected(q) else ReadReg(regs, rs))
         == ReadReg(WrittenBack(regs, q), rs)
  {
    hide Selected;
  }

  /** Nothing in the memory stage. */
  lemma BypassOverBubble(c: Core, rs: Reg)
    requires Quiet(c) && InertMem(c.exMem)
    ensures Forwarded(c, rs, ReadReg(c.regs, rs)) == ReadReg(WrittenBack(c.regs, c.memWb), rs)
    ensures !ForwardSelect(rs, c.exMem.wb.regWrite, c.exMem.wb.rd, WriteEnable(c.memWb), c.memWb.wb.rd).FromMem?
  {
    hide WriteData, WriteEnable, Selected, WrittenBack, ReadReg, QuietCsrs;
    PlainWriteBack(c);
    BypassFromWb(c.regs, c.memWb, rs);
  }

  /** The instruction in MEM neither jumped nor loads the register wanted. */
  predicate Forwardable(h: Isa.Hart, w: bv32, rs: Reg) {
    var q := Executed(h, w);
    !q.branchTaken && !(q.mem.isLoad && q.wb.rd != 0 && q.wb.rd == rs)
  }

  /** A source register after an instruction, in terms of what the instruction carries to write-back. */
  lemma SourceAfter(h: Isa.Hart, w: bv32, rs: Reg)
    requires Isa.InScope(h, w)
    ensures var q := Executed(h, w);
      ReadReg(Isa.Next(h, w).regs, rs)
      == if q.wb.regWrite && q.wb.rd != 0 && q.wb.rd == rs then Selected(Accessed(h, w)) else ReadReg(h.regs, rs)
  {
    hide Selected, WrittenBack, Executed, Accessed, Isa.Next, Isa.InScope;
    Retires(h, w);
    AccessedFields(h, w);
    BypassFromWb(h.regs, Accessed(h, w), rs);
  }

  lemma ForwardedResult(h: Isa.Hart, w: bv32)
    requires Isa.InScope(h, w)
    ensures var q := Executed(h, w);
      q.wb.regWrite && !q.mem.isLoad && !q.branchTaken
      ==> q.wb.wbSel == WB_ALU && q.aluResult == Selected(Accessed(h, w))
  {
    var i, q := Isa.Parse(w).value, Executed(h, w);
    hide Selected, Executed, Accessed, Decode, Isa.Parse, Isa.NoException, Isa.Transfers, Isa.NextPc;
    ExecutedFields(h, w);
    DecodeControls(w, M);
    ControlCorrect(h, w);
    JumpsTransfer(h, i);
    if q.wb.regWrite && !q.mem.isLoad && !q.branchTaken {
      ForwardsResult(h, w);
    }
  }

  lemma BypassOverInstruction(c: Core, h: Isa.Hart, w: bv32, rs: Reg)
    requires Quiet(c) && Isa.InScope(h, w) && c.exMem == Executed(h, w)
    requires h.regs == WrittenBack(c.regs, c.memWb) && Forwardable(h, w, rs)
    ensures Forwarded(c, rs, ReadReg(c.regs, rs)) == ReadReg(Isa.Next(h, w).regs, rs)
    ensures ForwardSelect(rs, c.exMem.wb.regWrite, c.exMem.wb.rd, WriteEnable(c.memWb), c.memWb.wb.rd).FromMem?
        ==> c.exMem.wb.wbSel == WB_ALU
  {
    hide WriteData, WriteEnable, Selected, WrittenBack, QuietCsrs, Executed, Accessed, Isa.InScope, Isa.Next, ReadReg;
    PlainWriteBack(c);
    BypassFromWb(c.regs, c.memWb, rs);
    SourceAfter(h, w, rs);
    ForwardedResult(h, w);
  }
}
