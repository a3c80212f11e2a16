/** The whole core: one clock step over the PC, four pipeline registers, register file and CSRs. */
module RichardCore {
  import opened Rv64Pkg
  import opened Decoder
  import opened Execute
  import opened MemStage
  import opened PipeRegs
  import opened HazardUnit
  import opened CsrUnit
  import opened TrapCtrl
  import opened WriteBack

  datatype Core = Core(
    pc: bv64, ifId: IfId, idEx: IdEx, exMem: ExMem, memWb: MemWb, regs: Regs, csrs: Csrs)

  /** What the outside drives in one cycle. */
  datatype Inputs = Inputs(imemRdata: bv32, dmemRdata: bv64, pins: Pins)

  function ResetCore(): Core {
    Core(RESET_VECTOR, IF_ID_RESET, ID_EX_RESET, EX_MEM_RESET, MEM_WB_RESET, ZERO_REGS, CsrsReset())
  }

  // Operand bypass

  function Forwarded(c: Core, rs: Reg, fromRegFile: bv64): bv64 {
    match ForwardSelect(rs, c.exMem.wb.regWrite, c.exMem.wb.rd, WriteEnable(c.memWb), c.memWb.wb.rd)
    case FromMem => c.exMem.aluResult
    case FromWb => WriteData(c.memWb, c.csrs)
    case FromRegFile => fromRegFile
  }

  function OperandA(c: Core): bv64 { Forwarded(c, c.idEx.rs1, c.idEx.rs1Data) }
  function OperandB(c: Core): bv64 { Forwarded(c, c.idEx.rs2, c.idEx.rs2Data) }

  function ExResult(c: Core): ExOut {
    ExStage(c.idEx.ctrl.ex, c.idEx.pc, OperandA(c), OperandB(c), c.idEx.imm)
  }

  // Register inputs

  function IdOutput(c: Core): IdEx {
    var d := Decode(c.ifId.instr, c.csrs.priv);
    var we, rd, data := WriteEnable(c.memWb), c.memWb.wb.rd, WriteData(c.memWb, c.csrs);
    IdEx(c.ifId.instr, c.ifId.pc,
         RegPort(c.regs, d.rs1, we, rd, data), RegPort(c.regs, d.rs2, we, rd, data),
         d.rs1, d.rs2, d.imm, d.ctrl)
  }

  function ExOutput(q: IdEx, a: bv64, b: bv64): ExMem {
    var x := ExStage(q.ctrl.ex, q.pc, a, b, q.imm);
    ExMem(q.instr, q.pc, x.aluResult, x.branchTaken, x.branchTarget,
          a, b, q.rs1, q.imm, q.ctrl.mem, q.ctrl.wb, q.ctrl.sys)
  }

  function MemOutput(q: ExMem, rdata: bv64): MemWb {
    var loadFault, storeFault := LoadMisaligned(q.mem, q.aluResult), StoreMisaligned(q.mem, q.aluResult);
    MemWb(q.instr, q.pc, q.aluResult, LoadData(q.mem.memSize, q.aluResult, rdata), q.rs1Data, q.rs1, q.imm,
          q.wb, q.sys.csrOp,
          WbSys(q.sys.isCsr, q.sys.illegal, q.sys.isEcall, q.sys.isEbreak, q.sys.isMret, q.sys.isSret,
                loadFault, storeFault, if loadFault || storeFault then q.aluResult else 0))
  }

  // Control

  /** Memory request and response are tied ready, so the memory stage never stalls. */
  function Control(c: Core, trapFlush: bool): Controls {
    var d := Decode(c.ifId.instr, c.csrs.priv);
    PipelineControls(
      trapFlush, StallRequest(c.exMem.mem, true, true),
      LoadUse(c.idEx.ctrl.mem.isLoad, c.idEx.ctrl.wb.rd, d.rs1, d.rs2),
      ExResult(c).branchTaken)
  }

  /** Every value a sequential element samples at a clock edge. */
  datatype Wiring = Wiring(
    h: Controls, redirect: Redirect, flush: bool, ifId: IfId, idEx: IdEx, exMem: ExMem, memWb: MemWb,
    we: bool, rd: Reg, data: bv64, req: CsrReq, trap: TrapReq)

  function Wires(c: Core, i: Inputs): Wiring {
    var wb := Retire(c.memWb);
    var trap := Request(c.csrs, wb, i.pins);
    var flush := FlushRequest(trap);
    var x := ExResult(c);
    Wiring(
      Control(c, flush),
      RedirectSelect(flush, NextPc(c.csrs, wb, i.pins), x.branchTaken, x.branchTarget),
      flush,
      IfId(c.pc, i.imemRdata), IdOutput(c), ExOutput(c.idEx, OperandA(c), OperandB(c)),
      MemOutput(c.exMem, i.dmemRdata),
      WriteEnable(c.memWb), c.memWb.wb.rd, WriteData(c.memWb, c.csrs),
      CsrRequest(c.memWb), trap)
  }

  /** State after a clock edge. */
  function Step(c: Core, rst: bool, i: Inputs): Core {
    var s := Wires(c, i);
    Core(
      PcNext(c.pc, rst, s.h.ifStall, s.redirect.sel, s.redirect.target, s.redirect.isTrap),
      IfIdNext(c.ifId, rst, s.h.ifIdStall, s.h.ifIdFlush, s.ifId),
      IdExNext(c.idEx, rst, s.h.idExStall, s.h.idExFlush, s.idEx),
      ExMemNext(c.exMem, rst, s.h.exMemStall, false, s.exMem),
      MemWbNext(c.memWb, rst, false, s.flush, s.memWb),
      RegsNext(c.regs, rst, s.we, s.rd, s.data),
      if rst then CsrsReset() else CsrNext(c.csrs, s.req, s.trap))
  }

  // Data-memory write port

  predicate DmemWrite(c: Core) { WriteRequest(c.exMem.mem, c.exMem.aluResult) }
  function DmemWdata(c: Core): bv64 { BusWriteData(c.exMem.mem, c.exMem.aluResult, c.exMem.rs2Data) }

  /** The assembled core; its clock edge updates every sequential element from the same old state. */
  class Machine {
    const ifStage: IfStage
    const ifIdReg: IfIdReg
    const idExReg: IdExReg
    const exMemReg: ExMemReg
    const memWbReg: MemWbReg
    const regFile: RegFile
    const csrUnit: Unit

    ghost predicate Valid()
      reads this, regFile
    {
      regFile.Valid()
    }

    constructor ()
      ensures Valid() && fresh(regFile.regs) && Value() == ResetCore()
      ensures fresh({ifStage, ifIdReg, idExReg, exMemReg, memWbReg, regFile, csrUnit})
    {
      ifStage := new IfStage();
      ifIdReg := new IfIdReg();
      idExReg := new IdExReg();
      exMemReg := new ExMemReg();
      memWbReg := new MemWbReg();
      regFile := new RegFile();
      csrUnit := new Unit();
    }

    function Value(): Core
      requires Valid()
      reads this, ifStage, ifIdReg, idExReg, exMemReg, memWbReg, regFile, regFile.regs, csrUnit
    {
      Core(ifStage.pcReg, ifIdReg.q, idExReg.q, exMemReg.q, memWbReg.q, regFile.Value(), csrUnit.q)
    }

    /** The elements in front of the execute stage. */
    method ClockFront(rst: bool, s: Wiring)
      modifies ifStage, ifIdReg, idExReg
      ensures ifStage.pcReg
           == PcNext(old(ifStage.pcReg), rst, s.h.ifStall, s.redirect.sel, s.redirect.target, s.redirect.isTrap)
      ensures ifIdReg.q == IfIdNext(old(ifIdReg.q), rst, s.h.ifIdStall, s.h.ifIdFlush, s.ifId)
      ensures idExReg.q == IdExNext(old(idExReg.q), rst, s.h.idExStall, s.h.idExFlush, s.idEx)
    {
      hide *;
      ifStage.Clock(rst, s.h.ifStall, s.redirect.sel, s.redirect.target, s.redirect.isTrap);
      ifIdReg.Clock(rst, s.h.ifIdStall, s.h.ifIdFlush, s.ifId);
      idExReg.Clock(rst, s.h.idExStall, s.h.idExFlush, s.idEx);
    }

    /** The elements behind the execute stage. */
    method ClockBack(rst: bool, s: Wiring)
      modifies exMemReg, memWbReg, csrUnit
      ensures exMemReg.q == ExMemNext(old(exMemReg.q), rst, s.h.exMemStall, false, s.exMem)
      ensures memWbReg.q == MemWbNext(old(memWbReg.q), rst, false, s.flush, s.memWb)
      ensures csrUnit.q == if rst then CsrsReset() else CsrNext(old(csrUnit.q), s.req, s.trap)
    {
      hide *;
      exMemReg.Clock(rst, s.h.exMemStall, false, s.exMem);
      memWbReg.Clock(rst, false, s.flush, s.memWb);
      csrUnit.Clock(rst, s.req, s.trap);
    }

    method Clock(rst: bool, i: Inputs)
      requires Valid()
      modifies ifStage, ifIdReg, idExReg, exMemReg, memWbReg, regFile.regs, csrUnit
      ensures Valid() && Value() == Step(old(Value()), rst, i)
    {
      hide Wires, PcNext, IfIdNext, IdExNext, ExMemNext, MemWbNext, RegsNext, CsrNext, CsrsReset;
      var c := Value();
      var s := Wires(c, i);
      ClockFront(rst, s);
      ClockBack(rst, s);
      regFile.Clock(rst, s.we, s.rd, s.data);
    }
  }
}
