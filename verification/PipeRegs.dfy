/** Contents of the pipeline registers and the sequential elements that hold them. */
module PipeRegs {
  import opened Rv64Pkg
  import opened Bits

  datatype IfId = IfId(pc: bv64, instr: bv32)

  datatype IdEx = IdEx(
    instr: bv32, pc: bv64, rs1Data: bv64, rs2Data: bv64, rs1: Reg, rs2: Reg, imm: bv64, ctrl: Ctrl)

  datatype ExMem = ExMem(
    instr: bv32, pc: bv64, aluResult: bv64, branchTaken: bool, branchTarget: bv64,
    rs1Data: bv64, rs2Data: bv64, rs1: Reg, imm: bv64, mem: MemCtrl, wb: WbCtrl, sys: SysCtrl)

  /** System signals that travel as far as write-back. */
  datatype WbSys = WbSys(
    isCsr: bool, illegal: bool, isEcall: bool, isEbreak: bool, isMret: bool, isSret: bool,
    loadFault: bool, storeFault: bool, faultAddr: bv64)

  datatype MemWb = MemWb(
    instr: bv32, pc: bv64, aluResult: bv64, memRdata: bv64, rs1Data: bv64, rs1: Reg, imm: bv64,
    wb: WbCtrl, csrOp: bv3, sys: WbSys)

  const IF_ID_RESET := IfId(0, NOP_INSTR)
  const ID_EX_RESET := IdEx(0, 0, 0, 0, 0, 0, 0, CTRL_IDLE)
  const EX_MEM_RESET := ExMem(0, 0, 0, false, 0, 0, 0, 0, 0, MEM_IDLE, WB_IDLE, SYS_IDLE)
  const WB_SYS_IDLE := WbSys(false, false, false, false, false, false, false, false, 0)
  const MEM_WB_RESET := MemWb(0, 0, 0, 0, 0, 0, 0, WB_IDLE, 0, WB_SYS_IDLE)

  // Next-state functions; flush has priority over stall everywhere.

  function PcNext(pc: bv64, rst: bool, stall: bool, redirect: bool, target: bv64, isTrap: bool): bv64 {
    if rst then RESET_VECTOR
    else if redirect && isTrap then target
    else if stall then pc
    else if redirect then target
    else PcPlus4(pc)
  }

  function IfIdNext(q: IfId, rst: bool, stall: bool, flush: bool, d: IfId): IfId {
    if rst || flush then IF_ID_RESET else if stall then q else d
  }

  /** A flush clears the control word and the instruction but keeps stale operands. */
  function IdExNext(q: IdEx, rst: bool, stall: bool, flush: bool, d: IdEx): IdEx {
    if rst then ID_EX_RESET
    else if flush then q.(instr := 0, ctrl := CTRL_IDLE)
    else if stall then q
    else d
  }

  function ExMemNext(q: ExMem, rst: bool, stall: bool, flush: bool, d: ExMem): ExMem {
    if rst then EX_MEM_RESET
    else if flush then q.(instr := 0, branchTaken := false, mem := MEM_IDLE, wb := WB_IDLE, sys := SYS_IDLE)
    else if stall then q
    else d
  }

  /** A flush leaves the datapath fields, the destination and the CSR operation as they were. */
  function MemWbNext(q: MemWb, rst: bool, stall: bool, flush: bool, d: MemWb): MemWb {
    if rst then MEM_WB_RESET
    else if flush then q.(wb := q.wb.(regWrite := false), sys := WB_SYS_IDLE)
    else if stall then q
    else d
  }

  function RegsNext(regs: Regs, rst: bool, we: bool, rd: Reg, data: bv64): Regs {
    if rst then ZERO_REGS else if we then WriteReg(regs, rd, data) else regs
  }

  /** Read port with the same-cycle write-through bypass. */
  function RegPort(regs: Regs, r: Reg, we: bool, rd: Reg, data: bv64): bv64 {
    if r == 0 then 0 else if r == rd && we then data else regs[r]
  }

  /** The write-through port shows the register file as it will be after the edge. */
  lemma WriteThrough(regs: Regs, r: Reg, we: bool, rd: Reg, data: bv64)
    ensures RegPort(regs, r, we, rd, data) == ReadReg(RegsNext(regs, false, we, rd, data), r)
  {}

  // Each register class holds the outputs of its module as one bundle.

  class IfStage {
    var pcReg: bv64

    constructor ()
      ensures pcReg == RESET_VECTOR
    {
      pcReg := RESET_VECTOR;
    }

    method Clock(rst: bool, stall: bool, redirect: bool, target: bv64, isTrap: bool)
      modifies this
      ensures pcReg == PcNext(old(pcReg), rst, stall, redirect, target, isTrap)
    {
      if rst {
        pcReg := RESET_VECTOR;
      } else if redirect && isTrap {
        pcReg := target;
      } else if !stall {
        if redirect {
          pcReg := target;
        } else {
          pcReg := PcPlus4(pcReg);
        }
      }
    }
  }

  class IfIdReg {
    var q: IfId

    constructor ()
      ensures q == IF_ID_RESET
    {
      q := IF_ID_RESET;
    }

    method Clock(rst: bool, stall: bool, flush: bool, d: IfId)
      modifies this
      ensures q == IfIdNext(old(q), rst, stall, flush, d)
    {
      if rst {
        q := IF_ID_RESET;
      } else if flush {
        q := IfId(0, NOP_INSTR);
      } else if !stall {
        q := d;
      }
    }
  }

  class IdExReg {
    var q: IdEx

    constructor ()
      ensures q == ID_EX_RESET
    {
      q := ID_EX_RESET;
    }

    method Clock(rst: bool, stall: bool, flush: bool, d: IdEx)
      modifies this
      ensures q == IdExNext(old(q), rst, stall, flush, d)
    {
      if rst {
        q := ID_EX_RESET;
      } else if flush {
        q := q.(instr := 0, ctrl := CTRL_IDLE);
      } else if !stall {
        q := d;
      }
    }
  }

  class ExMemReg {
    var q: ExMem

    constructor ()
      ensures q == EX_MEM_RESET
    {
      q := EX_MEM_RESET;
    }

    method Clock(rst: bool, stall: bool, flush: bool, d: ExMem)
      modifies this
      ensures q == ExMemNext(old(q), rst, stall, flush, d)
    {
      if rst {
        q := EX_MEM_RESET;
      } else if flush {
        q := q.(instr := 0, branchTaken := false, mem := MEM_IDLE, wb := WB_IDLE, sys := SYS_IDLE);
      } else if !stall {
        q := d;
      }
    }
  }

  class MemWbReg {
    var q: MemWb

    constructor ()
      ensures q == MEM_WB_RESET
    {
      q := MEM_WB_RESET;
    }

    method Clock(rst: bool, stall: bool, flush: bool, d: MemWb)
      modifies this
      ensures q == MemWbNext(old(q), rst, stall, flush, d)
    {
      if rst {
        q := MEM_WB_RESET;
      } else if flush {
        q := q.(wb := q.wb.(regWrite := false), sys := WB_SYS_IDLE);
      } else if !stall {
        q := d;
      }
    }
  }

  class RegFile {
    const regs: array<bv64>

    ghost predicate Valid()
      reads this
    {
      regs.Length == 32
    }

    function Value(): Regs
      requires Valid()
      reads this, regs
    {
      regs[..]
    }

    constructor ()
      ensures Valid() && fresh(regs) && Value() == ZERO_REGS
    {
      regs := new bv64[32](i => 0);
    }

    /** The port reads what the register will hold after the edge. */
    method Read(r: Reg, we: bool, rd: Reg, data: bv64) returns (v: bv64)
      requires Valid()
      ensures v == ReadReg(RegsNext(Value(), false, we, rd, data), r)
    {
      WriteThrough(Value(), r, we, rd, data);
      v := if r == 0 then 0 else if r == rd && we then data else regs[r];
    }

    method Clock(rst: bool, we: bool, rd: Reg, data: bv64)
      requires Valid()
      modifies regs
      ensures Value() == RegsNext(old(Value()), rst, we, rd, data)
    {
      if rst {
        for i := 0 to 32
          invariant forall j :: 0 <= j < i ==> regs[j] == 0
        {
          regs[i] := 0;
        }
      } else if we && rd != 0 {
        regs[rd] := data;
      }
    }
  }
}
