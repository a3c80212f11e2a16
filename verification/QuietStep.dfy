/** A clock step in M mode with interrupts masked and nothing trapping in write-back. */
module QuietStep {
  import opened Rv64Pkg
  import opened Bits
  import opened Decoder
  import opened Execute
  import opened MemStage
  import opened PipeRegs
  import opened HazardUnit
  import opened CsrUnit
  import opened TrapCtrl
  import opened WriteBack
  import opened RichardCore
  import opened Sequential
  import opened SequentialProof

  predicate QuietCsrs(s: Csrs) { s.priv == M && !Has(s.mstatus, MIE_BIT) }

  predicate Quiet(c: Core) { QuietCsrs(c.csrs) && c.memWb.sys == WB_SYS_IDLE }

  lemma NoRequest(c: Core, pins: Pins)
    requires Quiet(c)
    ensures !CsrRequest(c.memWb).req
    ensures var t := Request(c.csrs, Retire(c.memWb), pins); !t.trigger && !t.mretEn && !t.sretEn
  {
    hide Cause, Delegated, ExceptionValue, Has;
  }

  lemma PlainWriteBack(c: Core)
    requires Quiet(c)
    ensures WriteEnable(c.memWb) == c.memWb.wb.regWrite
    ensures WriteData(c.memWb, c.csrs) == Selected(c.memWb)
  {
    hide Selected, ReadCsr, CanonicalAddr, IsSupported, IsWritable, Has;
  }

  lemma QuietCsrsNext(s: Csrs, r: CsrReq, t: TrapReq)
    requires QuietCsrs(s) && !r.req && !t.trigger && !t.mretEn && !t.sretEn
    ensures QuietCsrs(CsrNext(s, r, t))
  {
    hide PlainAll, Has, IsSupported, IsWritable, CanonicalAddr;
  }

  predicate MustWait(c: Core) {
    var d := Decode(c.ifId.instr, M);
    LoadUse(c.idEx.ctrl.mem.isLoad, c.idEx.ctrl.wb.rd, d.rs1, d.rs2)
  }

  /** Register file after the instruction in write-back has retired. */
  function WrittenBack(regs: Regs, q: MemWb): Regs {
    if q.wb.regWrite then WriteReg(regs, q.wb.rd, Selected(q)) else regs
  }

  /** State after a quiet edge; the flushed ID/EX register keeps its stale operands. */
  function StepQuietly(c: Core, i: Inputs, csrs: Csrs): Core {
    var x := ExResult(c);
    var regs := WrittenBack(c.regs, c.memWb);
    Core(
      if x.branchTaken then x.branchTarget else if MustWait(c) then c.pc else PcPlus4(c.pc),
      if x.branchTaken then IF_ID_RESET else if MustWait(c) then c.ifId else IfId(c.pc, i.imemRdata),
      if x.branchTaken || MustWait(c) then c.idEx.(instr := 0, ctrl := CTRL_IDLE)
      else Latched(regs, c.ifId.pc, c.ifId.instr),
      ExOutput(c.idEx, OperandA(c), OperandB(c)),
      MemOutput(c.exMem, i.dmemRdata),
      regs,
      csrs)
  }

  lemma QuietIdOutput(c: Core)
    requires Quiet(c)
    ensures IdOutput(c) == Latched(WrittenBack(c.regs, c.memWb), c.ifId.pc, c.ifId.instr)
  {
    hide WriteEnable, WriteData, Selected, RegPort, WriteReg, ReadReg, Decode, Has;
    var d := Decode(c.ifId.instr, M);
    PlainWriteBack(c);
    WriteThrough(c.regs, d.rs1, c.memWb.wb.regWrite, c.memWb.wb.rd, Selected(c.memWb));
    WriteThrough(c.regs, d.rs2, c.memWb.wb.regWrite, c.memWb.wb.rd, Selected(c.memWb));
  }

  lemma StepIsQuiet(c: Core, i: Inputs)
    requires Quiet(c)
    ensures QuietCsrs(Step(c, false, i).csrs)
    ensures Step(c, false, i) == StepQuietly(c, i, Step(c, false, i).csrs)
  {
    hide WriteEnable, WriteData, Selected, ReadReg, Decode, Has, Request, Retire, CsrRequest, CsrNext, NextPc;
    hide ExOutput, MemOutput, IdOutput, ExResult, Latched, WriteReg;
    NoRequest(c, i.pins);
    PlainWriteBack(c);
    QuietCsrsNext(c.csrs, CsrRequest(c.memWb), Request(c.csrs, Retire(c.memWb), i.pins));
    QuietIdOutput(c);
  }

  /** The same, field by field. */
  lemma QuietEdge(c: Core, i: Inputs)
    requires Quiet(c)
    ensures var n, x := Step(c, false, i), ExResult(c);
      QuietCsrs(n.csrs)
      && n.regs == WrittenBack(c.regs, c.memWb)
      && n.memWb == MemOutput(c.exMem, i.dmemRdata)
      && n.exMem == ExOutput(c.idEx, OperandA(c), OperandB(c))
      && n.idEx == (if x.branchTaken || MustWait(c) then c.idEx.(instr := 0, ctrl := CTRL_IDLE)
                    else Latched(n.regs, c.ifId.pc, c.ifId.instr))
      && n.ifId == (if x.branchTaken then IF_ID_RESET else if MustWait(c) then c.ifId else IfId(c.pc, i.imemRdata))
      && n.pc == (if x.branchTaken then x.branchTarget else if MustWait(c) then c.pc else PcPlus4(c.pc))
  {
    hide Step, Quiet, QuietCsrs, ExResult, MustWait, WrittenBack, MemOutput, ExOutput, OperandA, OperandB;
    hide Latched, PcPlus4;
    StepIsQuiet(c, i);
  }

  /** The front end alone. */
  lemma QuietFront(c: Core, i: Inputs)
    requires Quiet(c)
    ensures var n, x := Step(c, false, i), ExResult(c);
      n.ifId == (if x.branchTaken then IF_ID_RESET else if MustWait(c) then c.ifId else IfId(c.pc, i.imemRdata))
      && n.pc == (if x.branchTaken then x.branchTarget else if MustWait(c) then c.pc else PcPlus4(c.pc))
  {
    hide *;
    QuietEdge(c, i);
  }

  /** The input of the memory stage alone. */
  lemma QuietMem(c: Core, i: Inputs)
    requires Quiet(c)
    ensures Step(c, false, i).exMem == ExOutput(c.idEx, OperandA(c), OperandB(c))
  {
    hide *;
    QuietEdge(c, i);
  }
}
