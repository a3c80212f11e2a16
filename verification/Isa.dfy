/**
  The sequential machine: RV64I with FENCE, one instruction per step.
  RISC-V Unprivileged ISA 20240411, sections 2.4 to 2.7 and chapter 4.
 */
module Isa {
  import opened Rv64Pkg
  import opened Bits
  import opened ByteMemory
  import opened Decoder

  datatype Access = Byte | Half | Word | Double

  datatype Condition = Eq | Ne | Lt | Ge | Ltu | Geu

  datatype Instr =
    | Lui(rd: Reg, imm: bv64)
    | Auipc(rd: Reg, imm: bv64)
    | Jal(rd: Reg, offset: bv64)
    | Jalr(rd: Reg, rs1: Reg, offset: bv64)
    | Branch(cond: Condition, rs1: Reg, rs2: Reg, offset: bv64)
    | Load(access: Access, signed: bool, rd: Reg, rs1: Reg, offset: bv64)
    | Store(access: Access, rs1: Reg, rs2: Reg, offset: bv64)
    | OpImm(op: AluOp, word: bool, rd: Reg, rs1: Reg, imm: bv64)
    | Op(op: AluOp, word: bool, rd: Reg, rs1: Reg, rs2: Reg)
    | Fence

  /** A hart: program counter, registers and data memory. */
  datatype Hart = Hart(pc: bv64, regs: Regs, mem: Bytes)

  // Immediates: the pieces of figure 2.4 gathered, then taken as a two's complement number

  /** The signed value of a field whose most significant bit is `sign`. */
  function Signed(x: bv64, sign: bv64): bv64 { (x ^ sign) - sign }

  function FieldB(w: bv32): bv32 {
    ((w >> 31) << 12) | (((w >> 7) & 1) << 11) | (((w >> 25) & 0x3F) << 5) | (((w >> 8) & 0xF) << 1)
  }

  function FieldJ(w: bv32): bv32 {
    ((w >> 31) << 20) | (((w >> 12) & 0xFF) << 12) | (((w >> 20) & 1) << 11) | (((w >> 21) & 0x3FF) << 1)
  }

  function ImmediateI(w: bv32): bv64 { Signed(ZeroExtend32(w >> 20), 0x800) }
  function ImmediateS(w: bv32): bv64 { Signed(ZeroExtend32(((w >> 25) << 5) | ((w >> 7) & 0x1F)), 0x800) }
  function ImmediateB(w: bv32): bv64 { Signed(ZeroExtend32(FieldB(w)), 0x1000) }
  function ImmediateU(w: bv32): bv64 { Signed(ZeroExtend32((w >> 12) << 12), 0x8000_0000) }
  function ImmediateJ(w: bv32): bv64 { Signed(ZeroExtend32(FieldJ(w)), 0x10_0000) }

  // Legal encodings

  function ParseCondition(f3: bv3): Option<Condition> {
    if f3 == 0 then Some(Eq) else if f3 == 1 then Some(Ne) else if f3 == 4 then Some(Lt)
    else if f3 == 5 then Some(Ge) else if f3 == 6 then Some(Ltu) else if f3 == 7 then Some(Geu) else None
  }

  function ParseAccess(low: bv3): Access {
    if low == 0 then Byte else if low == 1 then Half else if low == 2 then Word else Double
  }

  /** Register-register operations: funct7 is zero except for SUB and SRA. */
  function ParseOp(f3: bv3, f7: bv7): Option<AluOp> {
    if f7 == 0 then Some(
      if f3 == 0 then AluAdd else if f3 == 1 then AluSll else if f3 == 2 then AluSlt else if f3 == 3 then AluSltu
      else if f3 == 4 then AluXor else if f3 == 5 then AluSrl else if f3 == 6 then AluOr else AluAnd)
    else if f7 == 0x20 && f3 == 0 then Some(AluSub)
    else if f7 == 0x20 && f3 == 5 then Some(AluSra)
    else None
  }

  predicate HasWordForm(f3: bv3) { f3 == 0 || f3 == 1 || f3 == 5 }
  predicate IsShift(f3: bv3) { f3 == 1 || f3 == 5 }

  /** Shift-immediate forms carry the amount in the low bits of the immediate. */
  function ParseOpImm(w: bv32, word: bool): Option<Instr> {
    var f3, f7, rd, rs1 := Funct3(w), Funct7(w), RegIndex(RdField(w)), RegIndex(Rs1Field(w));
    if word && !HasWordForm(f3) then None
    else if !IsShift(f3) then
      match ParseOp(f3, 0) case Some(op) => Some(OpImm(op, word, rd, rs1, ImmediateI(w))) case None => None
    else
      var shamt := ((w >> 20) & (if word then 0x1F else 0x3F)) as bv64;
      match ParseOp(f3, if word then f7 else f7 & 0x7E)
      case Some(op) => Some(OpImm(op, word, rd, rs1, shamt))
      case None => None
  }

  function Parse(w: bv32): Option<Instr> {
    var op, f3, f7 := Opcode(w), Funct3(w), Funct7(w);
    var rd, rs1, rs2 := RegIndex(RdField(w)), RegIndex(Rs1Field(w)), RegIndex(Rs2Field(w));
    if op == OPCODE_LUI then Some(Lui(rd, ImmediateU(w)))
    else if op == OPCODE_AUIPC then Some(Auipc(rd, ImmediateU(w)))
    else if op == OPCODE_JAL then Some(Jal(rd, ImmediateJ(w)))
    else if op == OPCODE_JALR && f3 == 0 then Some(Jalr(rd, rs1, ImmediateI(w)))
    else if op == OPCODE_BRANCH then
      match ParseCondition(f3) case Some(c) => Some(Branch(c, rs1, rs2, ImmediateB(w))) case None => None
    else if op == OPCODE_LOAD && f3 != 7 then Some(Load(ParseAccess(f3 & 3), f3 & 4 == 0, rd, rs1, ImmediateI(w)))
    else if op == OPCODE_STORE && f3 & 4 == 0 then Some(Store(ParseAccess(f3), rs1, rs2, ImmediateS(w)))
    else if op == OPCODE_OP_IMM then ParseOpImm(w, false)
    else if op == OPCODE_OP_IMM_32 then ParseOpImm(w, true)
    else if op == OPCODE_OP then
      match ParseOp(f3, f7) case Some(a) => Some(Op(a, false, rd, rs1, rs2)) case None => None
    else if op == OPCODE_OP_32 && HasWordForm(f3) then
      match ParseOp(f3, f7) case Some(a) => Some(Op(a, true, rd, rs1, rs2)) case None => None
    else if op == OPCODE_MISC_MEM && (f3 == 0 || f3 == 1) then Some(Fence)
    else None
  }

  // Meaning

  /** Signed order is unsigned order with the sign bits flipped. */
  predicate Below(a: bv64, b: bv64) {
    a ^ 0x8000_0000_0000_0000 < b ^ 0x8000_0000_0000_0000
  }

  function Arith(op: AluOp, a: bv64, b: bv64): bv64 {
    match op
    case AluAdd => Add(a, b)
    case AluSub => Sub(a, b)
    case AluSll => Sll(a, b)
    case AluSlt => if Below(a, b) then 1 else 0
    case AluSltu => if a < b then 1 else 0
    case AluXor => a ^ b
    case AluSrl => Srl(a, b)
    case AluSra => Sra(a, b)
    case AluOr => a | b
    case AluAnd => a & b
  }

  /** Word operations: 32-bit arithmetic on the low halves, result sign-extended. */
  function Arith32(op: AluOp, a: bv32, b: bv32): bv32 {
    match op
    case AluAdd => Add32(a, b)
    case AluSub => Sub32(a, b)
    case AluSll => Sll32(a, b)
    case AluSrl => Srl32(a, b)
    case AluSra => Sra32(a, b)
    case _ => 0
  }

  function Compute(op: AluOp, word: bool, a: bv64, b: bv64): bv64 {
    if word then SignExtend32(Arith32(op, Low32(a), Low32(b))) else Arith(op, a, b)
  }

  predicate Holds(c: Condition, a: bv64, b: bv64) {
    match c
    case Eq => a == b
    case Ne => a != b
    case Lt => Below(a, b)
    case Ge => !Below(a, b)
    case Ltu => a < b
    case Geu => a >= b
  }

  function AccessBytes(a: Access): (n: nat)
    ensures n <= 8
  {
    match a case Byte => 1 case Half => 2 case Word => 4 case Double => 8
  }

  predicate NaturallyAligned(addr: bv64, a: Access) {
    match a case Byte => true case Half => addr & 1 == 0 case Word => addr & 3 == 0 case Double => addr & 7 == 0
  }

  /** Sign or zero extension of a value of the given access size. */
  function Extend(v: bv64, a: Access, signed: bool): bv64 {
    match a
    case Byte => if signed && v & 0x80 != 0 then v | 0xFFFF_FFFF_FFFF_FF00 else v
    case Half => if signed && v & 0x8000 != 0 then v | 0xFFFF_FFFF_FFFF_0000 else v
    case Word => if signed && v & 0x8000_0000 != 0 then v | 0xFFFF_FFFF_0000_0000 else v
    case Double => v
  }

  /** Data accesses are little-endian. */
  function LoadValue(m: Bytes, addr: bv64, a: Access, signed: bool): bv64 {
    Extend(ReadPrefix(m, addr, AccessBytes(a)), a, signed)
  }

  function StoreValue(m: Bytes, addr: bv64, a: Access, v: bv64): Bytes {
    WriteBytes(m, addr, v, 0, AccessBytes(a))
  }

  /** Address of a load or store, or of a jump target. */
  function Address(h: Hart, rs1: Reg, offset: bv64): bv64 { Add(ReadReg(h.regs, rs1), offset) }

  function NextPc(h: Hart, i: Instr): bv64 {
    match i
    case Jal(_, offset) => Add(h.pc, offset)
    case Jalr(_, rs1, offset) => Address(h, rs1, offset) & 0xFFFF_FFFF_FFFF_FFFE
    case Branch(c, rs1, rs2, offset) =>
      if Holds(c, ReadReg(h.regs, rs1), ReadReg(h.regs, rs2)) then Add(h.pc, offset) else PcPlus4(h.pc)
    case _ => PcPlus4(h.pc)
  }

  predicate WritesRd(i: Instr) { !i.Branch? && !i.Store? && !i.Fence? }

  /** The value an instruction leaves in its destination register. */
  function Result(h: Hart, i: Instr): bv64
    requires WritesRd(i)
  {
    match i
    case Lui(_, imm) => imm
    case Auipc(_, imm) => Add(h.pc, imm)
    case Jal(_, _) => PcPlus4(h.pc)
    case Jalr(_, _, _) => PcPlus4(h.pc)
    case Load(a, signed, _, rs1, offset) => LoadValue(h.mem, Address(h, rs1, offset), a, signed)
    case OpImm(op, word, _, rs1, imm) => Compute(op, word, ReadReg(h.regs, rs1), imm)
    case Op(op, word, _, rs1, rs2) => Compute(op, word, ReadReg(h.regs, rs1), ReadReg(h.regs, rs2))
  }

  function NextRegs(h: Hart, i: Instr): Regs {
    if WritesRd(i) then WriteReg(h.regs, i.rd, Result(h, i)) else h.regs
  }

  function NextMem(h: Hart, i: Instr): Bytes {
    match i
    case Store(a, rs1, rs2, offset) => StoreValue(h.mem, Address(h, rs1, offset), a, ReadReg(h.regs, rs2))
    case _ => h.mem
  }

  function Effect(h: Hart, i: Instr): Hart { Hart(NextPc(h, i), NextRegs(h, i), NextMem(h, i)) }

  /** Taken branch or jump. */
  predicate Transfers(h: Hart, i: Instr) {
    i.Jal? || i.Jalr? || (i.Branch? && Holds(i.cond, ReadReg(h.regs, i.rs1), ReadReg(h.regs, i.rs2)))
  }

  /** No exception: natural alignment of data, 4-byte alignment of transfer targets. */
  predicate NoException(h: Hart, i: Instr) {
    (i.Load? || i.Store? ==> NaturallyAligned(Address(h, i.rs1, i.offset), i.access))
    && (Transfers(h, i) ==> NextPc(h, i) & 3 == 0)
  }

  /** The word is a legal encoding and executes without an exception. */
  predicate InScope(h: Hart, w: bv32) {
    match Parse(w) case Some(i) => NoException(h, i) case None => false
  }

  function Next(h: Hart, w: bv32): Hart {
    match Parse(w) case Some(i) => Effect(h, i) case None => h
  }
}
