/** ALU, branch unit and the execute stage around them. */
module Execute {
  import opened Rv64Pkg
  import opened Bits

  function Alu(op: AluOp, a: bv64, b: bv64): bv64 {
    match op
    case AluAdd => Add(a, b)
    case AluSub => Sub(a, b)
    case AluSll => Sll(a, b)
    case AluSlt => if SignedLess(a, b) then 1 else 0
    case AluSltu => if a < b then 1 else 0
    case AluXor => a ^ b
    case AluSrl => Srl(a, b)
    case AluSra => Sra(a, b)
    case AluOr => a | b
    case AluAnd => a & b
  }

  predicate BranchTaken(isBranch: bool, op: bv3, a: bv64, b: bv64) {
    isBranch &&
    if op == BRANCH_EQ then a == b
    else if op == BRANCH_NE then a != b
    else if op == BRANCH_LT then SignedLess(a, b)
    else if op == BRANCH_GE then !SignedLess(a, b)
    else if op == BRANCH_LTU then a < b
    else if op == BRANCH_GEU then a >= b
    else false
  }

  /** Word operations widen operand a the way the 64-bit shifter needs it. */
  function WordOperandA(op: AluOp, a: bv64): bv64 {
    match op
    case AluSra => SignExtend32(Low32(a))
    case AluSrl => ZeroExtend32(Low32(a))
    case _ => a
  }

  /** Word shifts use five bits of shift amount. */
  function WordOperandB(op: AluOp, b: bv64): bv64 {
    if op == AluSll || op == AluSrl || op == AluSra then FiveBits(b) else b
  }

  function ClearBit0(x: bv64): bv64 { x & 0xFFFF_FFFF_FFFF_FFFE }

  datatype ExOut = ExOut(aluResult: bv64, branchTaken: bool, branchTarget: bv64)

  function ExStage(c: ExCtrl, pc: bv64, rs1: bv64, rs2: bv64, imm: bv64): ExOut {
    var muxA := if c.src1Pc then pc else rs1;
    var muxB := if c.src2Imm then imm else rs2;
    var raw :=
      if c.isWordOp then Alu(c.aluOp, WordOperandA(c.aluOp, muxA), WordOperandB(c.aluOp, muxB))
      else Alu(c.aluOp, muxA, muxB);
    ExOut(
      if c.isWordOp then SignExtend32(Low32(raw)) else raw,
      c.isJump || (c.isBranch && BranchTaken(c.isBranch, c.branchOp, rs1, rs2)),
      ClearBit0(raw))
  }
}
