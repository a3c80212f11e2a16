/** Write-back stage: result selection, trap blocking, CSR routing. */
module WriteBack {
  import opened Rv64Pkg
  import opened Bits
  import opened PipeRegs
  import opened CsrUnit
  import opened TrapCtrl

  predicate HasTrap(q: MemWb) {
    q.sys.illegal || q.sys.isEcall || q.sys.isEbreak || q.sys.loadFault || q.sys.storeFault
  }

  /** Immediate CSR operations use the rs1 field itself as data. */
  function CsrRequest(q: MemWb): CsrReq {
    CsrReq(
      q.sys.isCsr && !HasTrap(q), q.csrOp, (q.imm & 0xFFF) as bv12,
      if q.csrOp & 4 != 0 then Field(q.rs1) as bv64 else q.rs1Data)
  }

  function Selected(q: MemWb): bv64 {
    if q.wb.wbSel == WB_ALU then q.aluResult
    else if q.wb.wbSel == WB_MEM then q.memRdata
    else if q.wb.wbSel == WB_PC4 then PcPlus4(q.pc)
    else 0
  }

  function WriteData(q: MemWb, csrs: Csrs): bv64 {
    if q.sys.isCsr then ReadCsr(csrs, CsrRequest(q).addr) else Selected(q)
  }

  /** Traps of the instruction itself block its register write; interrupts do not. */
  predicate WriteEnable(q: MemWb) {
    q.wb.regWrite && !HasTrap(q) && !IllegalAccess(CsrRequest(q))
  }

  /** The page-fault inputs of the trap controller are tied low. */
  function Retire(q: MemWb): Retiring {
    Retiring(
      q.pc, q.instr, q.sys.illegal || IllegalAccess(CsrRequest(q)), q.sys.isEcall, q.sys.isEbreak,
      q.sys.isMret, q.sys.isSret, q.sys.loadFault, q.sys.storeFault, q.sys.faultAddr, false, false, false)
  }
}
