/** Instruction decoder for RV64I, Zicsr and Zifencei. */
module Decoder {
  import opened Rv64Pkg
  import opened Bits

  datatype Decoded = Decoded(rs1: Reg, rs2: Reg, imm: bv64, ctrl: Ctrl)

  // Field extraction

  function Opcode(w: bv32): bv7 { (w & 0x7F) as bv7 }
  function RdField(w: bv32): bv5 { ((w >> 7) & 0x1F) as bv5 }
  function Funct3(w: bv32): bv3 { ((w >> 12) & 0x7) as bv3 }
  function Rs1Field(w: bv32): bv5 { ((w >> 15) & 0x1F) as bv5 }
  function Rs2Field(w: bv32): bv5 { ((w >> 20) & 0x1F) as bv5 }
  function Funct7(w: bv32): bv7 { ((w >> 25) & 0x7F) as bv7 }
  function CsrField(w: bv32): bv12 { ((w >> 20) & 0xFFF) as bv12 }

  predicate SignBit(w: bv32) { w & 0x8000_0000 != 0 }

  /** Copies of the instruction's sign bit in every position selected by mask. */
  function Fill(w: bv32, mask: bv64): bv64 { if SignBit(w) then mask else 0 }

  // Immediate generation, one function per format

  function ImmI(w: bv32): bv64 { SignExtend12(((w >> 20) & 0xFFF) as bv12) }

  function ImmS(w: bv32): bv64 {
    SignExtend12((((w >> 20) & 0xFE0) | ((w >> 7) & 0x1F)) as bv12)
  }

  /** The bits of a B immediate below its sign. */
  function BranchBits(w: bv32): bv32 { ((w << 4) & 0x800) | ((w >> 20) & 0x7E0) | ((w >> 7) & 0x1E) }

  function ImmB(w: bv32): bv64 { Join(Fill(w, 0xFFFF_FFFF_FFFF_F000), ZeroExtend32(BranchBits(w))) }

  function ImmU(w: bv32): bv64 { SignExtend32(w & 0xFFFF_F000) }

  /** The bits of a J immediate below its sign. */
  function JumpBits(w: bv32): bv32 { (w & 0xF_F000) | ((w >> 9) & 0x800) | ((w >> 20) & 0x7FE) }

  function ImmJ(w: bv32): bv64 { Join(Fill(w, 0xFFFF_FFFF_FFF0_0000), ZeroExtend32(JumpBits(w))) }

  // Privilege checks

  function PrivRank(p: Priv): nat {
    match p case U => 0 case S => 1 case M => 3
  }

  predicate PrivGe(cur: Priv, req: Priv) { PrivRank(cur) >= PrivRank(req) }

  /** Bits 9:8 of a CSR address are the lowest mode that may access it. */
  predicate CsrAccessAllowed(cur: Priv, csr: bv12) {
    var req := (csr >> 8) & 3;
    PrivRank(cur) >= if req == 0 then 0 else if req == 1 then 1 else if req == 2 then 2 else 3
  }

  function ShiftRightOp(f7: bv7): AluOp { if f7 & 0x20 != 0 then AluSra else AluSrl }

  function OpImmAlu(f3: bv3, f7: bv7): AluOp {
    if f3 == 0 then AluAdd else if f3 == 1 then AluSll else if f3 == 2 then AluSlt else if f3 == 3 then AluSltu
    else if f3 == 4 then AluXor else if f3 == 5 then ShiftRightOp(f7) else if f3 == 6 then AluOr else AluAnd
  }

  function OpAlu(f3: bv3, f7: bv7): AluOp {
    if f3 == 0 then (if f7 & 0x20 != 0 then AluSub else AluAdd) else OpImmAlu(f3, f7)
  }

  function Illegal(rd: Reg): Ctrl {
    CTRL_IDLE.(wb := WbCtrl(false, rd, WB_ALU), sys := SYS_IDLE.(illegal := true))
  }

  /** A control word that writes rd from the given source and has no system effect. */
  function Writes(rd: Reg, ex: ExCtrl, wbSel: bv2): Ctrl {
    CTRL_IDLE.(ex := ex, wb := WbCtrl(true, rd, wbSel))
  }

  function DecodeSystem(w: bv32, priv: Priv, rd: Reg): (Ctrl, bv64) {
    var f3, f12 := Funct3(w), CsrField(w);
    var none := CTRL_IDLE.(wb := WbCtrl(false, rd, WB_ALU));
    if f3 == 0 then
      var ctrl :=
        if f12 == 0x000 then none.(sys := SYS_IDLE.(isEcall := true))
        else if f12 == 0x001 then none.(sys := SYS_IDLE.(isEbreak := true))
        else if f12 == 0x302 then
          if priv == M then none.(sys := SYS_IDLE.(isMret := true)) else Illegal(rd)
        else if f12 == 0x102 then
          if PrivGe(priv, S) then none.(sys := SYS_IDLE.(isSret := true)) else Illegal(rd)
        else if f12 == 0x105 then none.(sys := SYS_IDLE.(isWfi := true))
        else if Funct7(w) == 0x09 && PrivGe(priv, S) then none.(sys := SYS_IDLE.(isSfenceVma := true))
        else Illegal(rd);
      (ctrl, 0)
    else if CsrAccessAllowed(priv, f12) then
      (none.(wb := WbCtrl(true, rd, WB_ALU), sys := SYS_IDLE.(isCsr := true, csrOp := f3)), ImmI(w))
    else
      (Illegal(rd).(sys := SYS_IDLE.(illegal := true, csrOp := f3)), ImmI(w))
  }

  /** Control word and immediate. */
  function DecodeCtrl(w: bv32, priv: Priv, rd: Reg): (Ctrl, bv64) {
    var op, f3, f7 := Opcode(w), Funct3(w), Funct7(w);
    var regImm := EX_IDLE.(src2Imm := true);
    var pcImm := regImm.(src1Pc := true);
    if op == OPCODE_LUI then (Writes(rd, regImm, WB_ALU), ImmU(w))
    else if op == OPCODE_AUIPC then (Writes(rd, pcImm, WB_ALU), ImmU(w))
    else if op == OPCODE_JAL then (Writes(rd, pcImm.(isJump := true), WB_PC4), ImmJ(w))
    else if op == OPCODE_JALR then (Writes(rd, regImm.(isJump := true), WB_PC4), ImmI(w))
    else if op == OPCODE_BRANCH then
      (CTRL_IDLE.(ex := pcImm.(isBranch := true, branchOp := f3), wb := WbCtrl(false, rd, WB_ALU)), ImmB(w))
    else if op == OPCODE_LOAD then
      (Writes(rd, regImm, WB_MEM).(mem := MemCtrl(true, false, f3)), ImmI(w))
    else if op == OPCODE_STORE then
      (CTRL_IDLE.(ex := regImm, mem := MemCtrl(false, true, f3), wb := WbCtrl(false, rd, WB_ALU)), ImmS(w))
    else if op == OPCODE_OP_IMM then (Writes(rd, regImm.(aluOp := OpImmAlu(f3, f7)), WB_ALU), ImmI(w))
    else if op == OPCODE_OP_IMM_32 then
      var ctrl := Writes(rd, regImm.(isWordOp := true), WB_ALU);
      if f3 == 0 || f3 == 1 || f3 == 5 then (ctrl.(ex := ctrl.ex.(aluOp := OpImmAlu(f3, f7))), ImmI(w))
      else (ctrl.(sys := SYS_IDLE.(illegal := true)), ImmI(w))
    else if op == OPCODE_OP then
      var ctrl := Writes(rd, EX_IDLE, WB_ALU);
      if f7 == 1 then (ctrl.(sys := SYS_IDLE.(illegal := true)), 0)
      else (ctrl.(ex := EX_IDLE.(aluOp := OpAlu(f3, f7))), 0)
    else if op == OPCODE_OP_32 then
      var ctrl := Writes(rd, EX_IDLE.(isWordOp := true), WB_ALU);
      if f7 != 1 && (f3 == 0 || f3 == 1 || f3 == 5) then (ctrl.(ex := ctrl.ex.(aluOp := OpAlu(f3, f7))), 0)
      else (ctrl.(sys := SYS_IDLE.(illegal := true)), 0)
    else if op == OPCODE_MISC_MEM then
      var ctrl := CTRL_IDLE.(wb := WbCtrl(false, rd, WB_ALU));
      if f3 == 0 then (ctrl.(sys := SYS_IDLE.(isFence := true)), 0)
      else if f3 == 1 then (ctrl.(sys := SYS_IDLE.(isFenceI := true)), 0)
      else (Illegal(rd), 0)
    else if op == OPCODE_SYSTEM then DecodeSystem(w, priv, rd)
    else (Illegal(rd), 0)
  }

  /** The rs1 address of LUI is forced to x0 so that the ALU adds zero. */
  function Decode(w: bv32, priv: Priv): Decoded {
    var (ctrl, imm) := DecodeCtrl(w, priv, RegIndex(RdField(w)));
    Decoded(
      if Opcode(w) == OPCODE_LUI then 0 else RegIndex(Rs1Field(w)),
      RegIndex(Rs2Field(w)), imm, ctrl)
  }
}
