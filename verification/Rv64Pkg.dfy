/** Global definitions: opcodes, operation selects, register indices. */
module Rv64Pkg {

  datatype Option<+T> = None | Some(value: T)

  /** Architectural register number. */
  type Reg = r: nat | r < 32

  function RegIndex(x: bv5): Reg {
    (if x & 16 != 0 then 16 else 0) + (if x & 8 != 0 then 8 else 0) + (if x & 4 != 0 then 4 else 0)
    + (if x & 2 != 0 then 2 else 0) + (if x & 1 != 0 then 1 else 0)
  }

  /** Binary digit of weight p. */
  predicate OddAt(r: nat, p: nat)
    requires p > 0
  {
    r / p % 2 == 1
  }

  /** The five-bit field of a register number. */
  function Field(r: Reg): bv5 {
    (if OddAt(r, 16) then 16 else 0) | (if OddAt(r, 8) then 8 else 0) | (if OddAt(r, 4) then 4 else 0)
    | (if OddAt(r, 2) then 2 else 0) | if OddAt(r, 1) then 1 else 0
  }

  /** Contents of the 32 architectural registers. */
  type Regs = s: seq<bv64> | |s| == 32 witness ZERO_REGS

  const ZERO_REGS: seq<bv64> :=
    [0, 0, 0, 0, 0, 0, 0, 0, 0, 0, 0, 0, 0, 0, 0, 0, 0, 0, 0, 0, 0, 0, 0, 0, 0, 0, 0, 0, 0, 0, 0, 0]

  /** x0 reads as zero whatever the array holds. */
  function ReadReg(regs: Regs, r: Reg): bv64 {
    if r == 0 then 0 else regs[r]
  }

  function WriteReg(regs: Regs, r: Reg, v: bv64): Regs {
    if r == 0 then regs else regs[r := v]
  }

  const RESET_VECTOR: bv64 := 0x8000_0000
  const NOP_INSTR: bv32 := 0x0000_0013

  const OPCODE_LOAD: bv7 := 0x03
  const OPCODE_MISC_MEM: bv7 := 0x0F
  const OPCODE_OP_IMM: bv7 := 0x13
  const OPCODE_AUIPC: bv7 := 0x17
  const OPCODE_OP_IMM_32: bv7 := 0x1B
  const OPCODE_STORE: bv7 := 0x23
  const OPCODE_OP: bv7 := 0x33
  const OPCODE_LUI: bv7 := 0x37
  const OPCODE_OP_32: bv7 := 0x3B
  const OPCODE_BRANCH: bv7 := 0x63
  const OPCODE_JALR: bv7 := 0x67
  const OPCODE_JAL: bv7 := 0x6F
  const OPCODE_SYSTEM: bv7 := 0x73

  datatype AluOp = AluAdd | AluSub | AluSll | AluSlt | AluSltu | AluXor | AluSrl | AluSra | AluOr | AluAnd

  /** Branch selects are the funct3 field of the instruction. */
  const BRANCH_EQ: bv3 := 0
  const BRANCH_NE: bv3 := 1
  const BRANCH_LT: bv3 := 4
  const BRANCH_GE: bv3 := 5
  const BRANCH_LTU: bv3 := 6
  const BRANCH_GEU: bv3 := 7

  /** Writeback source: 0 = ALU result, 1 = memory data, 2 = PC + 4. */
  const WB_ALU: bv2 := 0
  const WB_MEM: bv2 := 1
  const WB_PC4: bv2 := 2

  /** Privilege mode; the encoding 2 is never held by the mode register. */
  datatype Priv = U | S | M

  datatype ExCtrl = ExCtrl(
    aluOp: AluOp, src1Pc: bool, src2Imm: bool, isWordOp: bool,
    isBranch: bool, branchOp: bv3, isJump: bool)

  datatype MemCtrl = MemCtrl(isLoad: bool, isStore: bool, memSize: bv3)

  datatype WbCtrl = WbCtrl(regWrite: bool, rd: Reg, wbSel: bv2)

  datatype SysCtrl = SysCtrl(
    isCsr: bool, csrOp: bv3, illegal: bool, isEcall: bool, isEbreak: bool, isMret: bool, isSret: bool,
    isWfi: bool, isSfenceVma: bool, isFence: bool, isFenceI: bool)

  datatype Ctrl = Ctrl(ex: ExCtrl, mem: MemCtrl, wb: WbCtrl, sys: SysCtrl)

  /** Control word of a squashed slot. */
  const EX_IDLE := ExCtrl(AluAdd, false, false, false, false, BRANCH_EQ, false)
  const MEM_IDLE := MemCtrl(false, false, 0)
  const WB_IDLE := WbCtrl(false, 0, WB_ALU)
  const SYS_IDLE := SysCtrl(false, 0, false, false, false, false, false, false, false, false, false)
  const CTRL_IDLE := Ctrl(EX_IDLE, MEM_IDLE, WB_IDLE, SYS_IDLE)
}
