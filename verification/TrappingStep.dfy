/** Clock edges of the whole core with a trap, a return or a CSR instruction in write-back. */
module TrappingStep {
  import opened Rv64Pkg
  import opened Bits
  import BitString
  import BitArithmetic
  import AluMeaning
  import opened Decoder
  import opened Encoders
  import opened Assembler
  import opened Execute
  import opened MemStage
  import opened PipeRegs
  import opened HazardUnit
  import opened CsrUnit
  import opened CsrAccess
  import opened CsrMap
  import opened TrapCtrl
  import opened TrapDecisions
  import opened WriteBack
  import opened RichardCore
  import opened ExceptionCauses
  import opened SystemWords
  import opened StageSteps

  /** The instruction in write-back traps or returns. */
  predicate Diverts(c: Core, pins: Pins) {
    var w := Retire(c.memWb);
    Trapping(c.csrs, w, pins) || w.isMret || w.isSret
  }

  /** Registers after the instruction in write-back: its own exception blocks the write, an interrupt does not. */
  function RetiredRegs(c: Core): Regs {
    if c.memWb.wb.regWrite && !Faulted(Retire(c.memWb)) then
      WriteReg(c.regs, c.memWb.wb.rd, WriteData(c.memWb, c.csrs))
    else c.regs
  }

  lemma FaultBlocks(q: MemWb)
    ensures WriteEnable(q) <==> q.wb.regWrite && !Faulted(Retire(q))
  {
    hide IllegalAccess, CsrRequest;
  }

  lemma FlushIsDiversion(c: Core, i: Inputs)
    ensures Wires(c, i).flush <==> Diverts(c, i.pins)
  {
    hide Request, Retire, NextPc, Trapping, ExResult, IdOutput, ExOutput, MemOutput, WriteEnable, WriteData, CsrRequest;
    Decision(c.csrs, Retire(c.memWb), i.pins);
    RetiredReturns(c);
  }

  lemma RetiredReturns(c: Core)
    ensures Retire(c.memWb).isMret == c.memWb.sys.isMret && Retire(c.memWb).isSret == c.memWb.sys.isSret
  {
    hide IllegalAccess, CsrRequest;
  }

  /**
    The edge of a trap or return: fetch goes to the target, decode and execute are emptied, write-back is emptied,
    and the instruction that was in execute moves on to the memory stage.
   */
  lemma DivertedEdge(c: Core, i: Inputs)
    requires Diverts(c, i.pins)
    ensures var n, w := Step(c, false, i), Retire(c.memWb);
      n.pc == NextPc(c.csrs, w, i.pins) && n.ifId == IfId(0, 0x0000_0013)
      && InertEx(n.idEx) && n.idEx.ctrl == CTRL_IDLE && InertWb(n.memWb) && !n.memWb.wb.regWrite
      && n.exMem == ExOutput(c.idEx, OperandA(c), OperandB(c)) && n.regs == RetiredRegs(c)
      && n.csrs == CsrNext(c.csrs, CsrRequest(c.memWb), Request(c.csrs, w, i.pins))
  {
    hide Request, Retire, NextPc, ExResult, IdOutput, ExOutput, MemOutput, WriteEnable, WriteData, CsrRequest, Diverts;
    hide CsrNext, OperandA, OperandB, FlushRequest, Faulted, WriteReg;
    FlushIsDiversion(c, i);
    FaultBlocks(c.memWb);
  }

  /** Any other edge, in whatever mode: redirect, interlock or advance. */
  lemma OrdinaryEdge(c: Core, i: Inputs)
    requires !Diverts(c, i.pins)
    ensures var n, x, d := Step(c, false, i), ExResult(c), Decode(c.ifId.instr, c.csrs.priv);
      var wait := LoadUse(c.idEx.ctrl.mem.isLoad, c.idEx.ctrl.wb.rd, d.rs1, d.rs2);
      n.pc == (if x.branchTaken then x.branchTarget else if wait then c.pc else PcPlus4(c.pc))
      && n.ifId == (if x.branchTaken then IfId(0, 0x0000_0013) else if wait then c.ifId else IfId(c.pc, i.imemRdata))
      && n.idEx == (if x.branchTaken || wait then c.idEx.(instr := 0, ctrl := CTRL_IDLE)
                    else IdEx(c.ifId.instr, c.ifId.pc, ReadReg(n.regs, d.rs1), ReadReg(n.regs, d.rs2),
                              d.rs1, d.rs2, d.imm, d.ctrl))
      && n.exMem == ExOutput(c.idEx, OperandA(c), OperandB(c)) && n.memWb == MemOutput(c.exMem, i.dmemRdata)
      && n.regs == RetiredRegs(c) && n.csrs == Written(c.csrs, CsrRequest(c.memWb))
  {
    hide Request, Retire, NextPc, ExResult, IdOutput, ExOutput, MemOutput, WriteEnable, WriteData, CsrRequest, Diverts;
    hide CsrNext, OperandA, OperandB, FlushRequest, Faulted, WriteReg, Decode, LoadUse, PcPlus4;
    FlushIsDiversion(c, i);
    FaultBlocks(c.memWb);
    NoTrapRequest(c, i.pins);
    DecodedInstruction(c);
  }

  /** Decode takes the mode of the CSR unit and reads the registers as write-back leaves them. */
  lemma DecodedInstruction(c: Core)
    ensures var d, regs := Decode(c.ifId.instr, c.csrs.priv), RetiredRegs(c);
      IdOutput(c) == IdEx(c.ifId.instr, c.ifId.pc, ReadReg(regs, d.rs1), ReadReg(regs, d.rs2),
                          d.rs1, d.rs2, d.imm, d.ctrl)
  {
    hide Decode, WriteEnable, WriteData, RegPort, ReadReg, WriteReg, Faulted, Retire;
    var d, we, data := Decode(c.ifId.instr, c.csrs.priv), WriteEnable(c.memWb), WriteData(c.memWb, c.csrs);
    FaultBlocks(c.memWb);
    WriteThrough(c.regs, d.rs1, we, c.memWb.wb.rd, data);
    WriteThrough(c.regs, d.rs2, we, c.memWb.wb.rd, data);
  }

  lemma NoTrapRequest(c: Core, pins: Pins)
    requires !Diverts(c, pins)
    ensures Request(c.csrs, Retire(c.memWb), pins) == IDLE_TRAP
  {
    hide Retire, Trapping, Cause, ExceptionValue, Delegated, HasInterrupt, HasException;
    Decision(c.csrs, Retire(c.memWb), pins);
  }

  /** Reset starts at 0x8000_0000 in M mode with zero registers and nothing in the pipeline. */
  lemma ResetEdge(c: Core, i: Inputs)
    ensures var n := Step(c, true, i);
      n == ResetCore() && n.pc == 0x8000_0000 && n.csrs.priv == M && (forall r: Reg :: n.regs[r] == 0)
      && n.ifId.instr == 0x0000_0013 && InertEx(n.idEx) && InertMem(n.exMem) && InertWb(n.memWb)
  {
    hide Wires;
  }

  /** The bypass over an empty memory stage shows the registers as write-back leaves them, CSR values included. */
  lemma BypassShowsRetired(c: Core, rs: Reg)
    requires !(c.exMem.wb.regWrite && c.exMem.wb.rd != 0 && c.exMem.wb.rd == rs)
    ensures Forwarded(c, rs, ReadReg(c.regs, rs)) == ReadReg(RetiredRegs(c), rs)
  {
    hide WriteEnable, WriteData, Faulted, Retire;
    FaultBlocks(c.memWb);
  }

  /** What the trap controller sees of an instruction is what was decoded, with the faults of its access. */
  lemma LeavingFields(d: IdEx, a: bv64, b: bv64, rdata: bv64)
    ensures var q := MemOutput(ExOutput(d, a, b), rdata);
      var w, s, addr := Leaving(d, a, b, rdata), d.ctrl.sys, ExOutput(d, a, b).aluResult;
      w.pc == d.pc && w.instr == d.instr && w.isMret == s.isMret && w.isSret == s.isSret
      && w.isEcall == s.isEcall && w.isEbreak == s.isEbreak
      && w.illegal == (s.illegal || IllegalAccess(CsrRequest(q)))
      && w.loadFault == LoadMisaligned(d.ctrl.mem, addr) && w.storeFault == StoreMisaligned(d.ctrl.mem, addr)
      && (w.loadFault || w.storeFault ==> w.badAddr == addr)
  {
    hide ExStage, LoadData, AddrMisaligned, IllegalAccess, CsrRequest;
  }

  /** A trap of the instruction in write-back, as its handler finds it. */
  lemma TrapEntry(c: Core, i: Inputs)
    requires Trapping(c.csrs, Retire(c.memWb), i.pins)
    ensures var n, w, toS := Step(c, false, i), Retire(c.memWb), Request(c.csrs, Retire(c.memWb), i.pins).toS;
      var cause := CauseOf(Number(c.csrs, w, i.pins), Interrupted(c.csrs, i.pins));
      n.csrs.priv == (if toS then S else M)
      && ReadCsr(n.csrs, if toS then 0x141 else 0x341) == c.memWb.pc
      && ReadCsr(n.csrs, if toS then 0x142 else 0x342) == cause
      && ReadCsr(n.csrs, if toS then 0x143 else 0x343) == TrapValue(c.csrs, w, i.pins)
  {
    hide *;
    var w := Retire(c.memWb);
    TrapDiverts(c, i.pins);
    DivertedEdge(c, i);
    Decision(c.csrs, w, i.pins);
    TrapByAddress(c.csrs, CsrRequest(c.memWb), Request(c.csrs, w, i.pins));
    RetiredPc(c.memWb);
  }

  lemma TrapDiverts(c: Core, pins: Pins)
    requires Trapping(c.csrs, Retire(c.memWb), pins)
    ensures Diverts(c, pins)
  {
    hide Trapping, Retire;
  }

  lemma RetiredPc(q: MemWb)
    ensures Retire(q).pc == q.pc
  {
    hide IllegalAccess, CsrRequest;
  }

  /** The value for the destination: the old CSR value, or by select 0 to 2 result, load data or next pc, else zero. */
  lemma WriteSource(q: MemWb, s: Csrs)
    ensures WriteData(q, s)
         == if q.sys.isCsr then ReadCsr(s, (q.imm & 0xFFF) as bv12)
            else if q.wb.wbSel == 0 then q.aluResult else if q.wb.wbSel == 1 then q.memRdata
            else if q.wb.wbSel == 2 then Add(q.pc, 4) else 0
  {
    hide ReadCsr, PcPlus4, Add;
    AluMeaning.PcIsSum(q.pc);
  }

  // CSR instructions

  /** A CSR instruction as decoded in mode p, with the value a of its source register. */
  predicate DecodedCsr(d: IdEx, csr: bv12, rs1: Reg, f3: bv3, rd: Reg, p: Priv) {
    var w := Decode(WordI(csr as bv32, rs1, f3, rd, 0x73), p);
    d.ctrl == w.ctrl && d.imm == w.imm && d.rs1 == w.rs1
  }

  /** The operand of a CSR instruction: its register, or its register number in the immediate forms. */
  function CsrOperand(f3: bv3, rs1: Reg, a: bv64): bv64 { if f3 & 4 != 0 then Field(rs1) as bv64 else a }

  /** The number used by an immediate form is the register number. */
  lemma OperandNumber(r: Reg)
    ensures BitString.Value(Field(r) as bv64) == r
  {
    hide *;
    var x := Field(r) as bv64;
    FieldIndex(r);
    IndexIsValue(Field(r));
    BitString.LowSplit(x, 5, 59);
    NoHighField(Field(r));
    BitArithmetic.LowZero(59);
    ValueOf(x);
  }

  lemma ValueOf(x: bv64)
    ensures BitString.Value(x) == BitString.Low(x, 64)
  {}

  lemma NoHighField(x: bv5)
    ensures BitString.Drop(x as bv64, 5) == 0
  {
    hide BitString.Drop;
    BitString.DropDrop(x as bv64, 4, 1);
    BitArithmetic.RightSmall(x as bv64);
    BitArithmetic.RightSmall((x as bv64) >> 4);
    FiveShift(x);
  }

  lemma FiveShift(x: bv5)
    ensures (x as bv64) >> 4 >> 1 == 0
  {}

  lemma AddressKept(csr: bv12)
    ensures (SignExtend12(csr) & 0xFFF) as bv12 == csr
  {
    if csr & 0x800 != 0 {} else {}
  }

  /** In write-back the instruction asks for its register, its operation and its operand. */
  lemma CsrRequested(d: IdEx, csr: bv12, rs1: Reg, f3: bv3, rd: Reg, p: Priv, a: bv64, b: bv64, rdata: bv64)
    requires f3 != 0 && DecodedCsr(d, csr, rs1, f3, rd, p) && Reaches(p, csr)
    ensures var q := MemOutput(ExOutput(d, a, b), rdata);
      CsrRequest(q) == CsrReq(true, f3, csr, CsrOperand(f3, rs1, a)) && q.wb == WbCtrl(true, rd, WB_ALU)
      && q.sys == WB_SYS_IDLE.(isCsr := true)
  {
    hide WordI, Decode, Reaches, SignExtend12, Field, LoadData, AddrMisaligned, ExStage;
    CsrWords(csr, rs1, f3, rd, p);
    AddressKept(csr);
  }

  /** The registers and CSRs after a CSR instruction that meets no interrupt. */
  lemma CsrInstruction(c: Core, i: Inputs, d: IdEx, csr: bv12, rs1: Reg, f3: bv3, rd: Reg, p: Priv,
                       a: bv64, b: bv64, rdata: bv64)
    requires f3 != 0 && DecodedCsr(d, csr, rs1, f3, rd, p) && Reaches(p, csr)
    requires c.memWb == MemOutput(ExOutput(d, a, b), rdata) && !Interrupted(c.csrs, i.pins)
    ensures var n, illegal := Step(c, false, i), !Exists(csr) || (Modifies(f3) && ReadOnly(csr));
      Faulted(Retire(c.memWb)) == illegal && Retire(c.memWb).illegal == illegal
      && (illegal ==> n.regs == c.regs && n.pc == NextPc(c.csrs, Retire(c.memWb), i.pins))
      && (!illegal ==> n.regs == WriteReg(c.regs, rd, ReadCsr(c.csrs, csr))
                       && n.csrs == Written(c.csrs, CsrReq(true, f3, csr, CsrOperand(f3, rs1, a))))
  {
    hide Step, DecodedCsr, Reaches, MemOutput, ExOutput, Exists, ReadOnly, ReadCsr, Written, CsrNext, CsrOperand;
    hide Request, NextPc, InertEx, InertWb, OperandA, OperandB, ExResult, IdOutput, Decode, Interrupted, LoadUse;
    hide IllegalAccess, CsrRequest, PcPlus4, WriteReg;
    CsrRequested(d, csr, rs1, f3, rd, p, a, b, rdata);
    IllegalAccessExactly(CsrRequest(c.memWb));
    if Diverts(c, i.pins) {
      DivertedEdge(c, i);
    } else {
      OrdinaryEdge(c, i);
    }
  }

  // Memory stalls

  /** A load waits for its request and its response, a store for its request; nothing else waits. */
  lemma WaitsForMemory(c: MemCtrl, reqReady: bool, rspValid: bool)
    ensures !StallRequest(c, true, true)
    ensures StallRequest(c, reqReady, rspValid)
       <==> (c.isLoad && !(reqReady && rspValid)) || (c.isStore && !reqReady)
  {}

  /**
    A memory stall holds the pc and the three registers before the memory stage, unless the instruction in execute
    transfers: then fetch is redirected and decode and execute are emptied although the memory stage does not take
    the transfer over.
   */
  lemma MemoryStallHolds(pc: bv64, ifId: IfId, idEx: IdEx, exMem: ExMem, loadUse: bool, taken: bool, target: bv64,
                         f: IfId, d: IdEx, e: ExMem)
    ensures var h, r := PipelineControls(false, true, loadUse, taken), RedirectSelect(false, 0, taken, target);
      !r.isTrap && ExMemNext(exMem, false, h.exMemStall, false, e) == exMem
      && PcNext(pc, false, h.ifStall, r.sel, r.target, r.isTrap) == (if taken then target else pc)
      && IfIdNext(ifId, false, h.ifIdStall, h.ifIdFlush, f) == (if taken then IF_ID_RESET else ifId)
      && IdExNext(idEx, false, h.idExStall, h.idExFlush, d)
         == (if taken then idEx.(instr := 0, ctrl := CTRL_IDLE) else idEx)
  {}
}
