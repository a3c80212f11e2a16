/** Instruction encoders of the core's test program generator, against the fields of the decoder. */
module Encoders {
  import opened Bits
  import opened Decoder

  function RType(funct7: bv32, rs2: bv32, rs1: bv32, funct3: bv32, rd: bv32, opcode: bv32): bv32 {
    (funct7 << 25) | (rs2 << 20) | (rs1 << 15) | (funct3 << 12) | (rd << 7) | opcode
  }

  function IType(imm12: bv32, rs1: bv32, funct3: bv32, rd: bv32, opcode: bv32): bv32 {
    ((imm12 & 0xFFF) << 20) | (rs1 << 15) | (funct3 << 12) | (rd << 7) | opcode
  }

  function SType(imm12: bv32, rs2: bv32, rs1: bv32, funct3: bv32, opcode: bv32): bv32 {
    (((imm12 >> 5) & 0x7F) << 25) | (rs2 << 20) | (rs1 << 15) | (funct3 << 12) | ((imm12 & 0x1F) << 7) | opcode
  }

  function UType(imm20: bv32, rd: bv32, opcode: bv32): bv32 {
    ((imm20 & 0xF_FFFF) << 12) | (rd << 7) | opcode
  }

  function JType(offset: bv32, rd: bv32, opcode: bv32): bv32 {
    (((offset >> 20) & 0x1) << 31) | (((offset >> 1) & 0x3FF) << 21) | (((offset >> 11) & 0x1) << 20)
    | (((offset >> 12) & 0xFF) << 12) | (rd << 7) | opcode
  }

  function BType(offset: bv32, rs2: bv32, rs1: bv32, funct3: bv32, opcode: bv32): bv32 {
    (((offset >> 12) & 0x1) << 31) | (((offset >> 5) & 0x3F) << 25) | (rs2 << 20) | (rs1 << 15)
    | (funct3 << 12) | (((offset >> 1) & 0xF) << 8) | (((offset >> 11) & 0x1) << 7) | opcode
  }

  // Encoding, then decoding

  lemma DecodeR(funct7: bv7, rs2: bv5, rs1: bv5, funct3: bv3, rd: bv5, opcode: bv7)
    ensures var w := RType(funct7 as bv32, rs2 as bv32, rs1 as bv32, funct3 as bv32, rd as bv32, opcode as bv32);
      Funct7(w) == funct7 && Rs2Field(w) == rs2 && Rs1Field(w) == rs1 && Funct3(w) == funct3
      && RdField(w) == rd && Opcode(w) == opcode
  {}

  lemma DecodeI(imm12: bv32, rs1: bv5, funct3: bv3, rd: bv5, opcode: bv7)
    ensures var w := IType(imm12, rs1 as bv32, funct3 as bv32, rd as bv32, opcode as bv32);
      ImmI(w) == SignExtend12((imm12 & 0xFFF) as bv12) && Rs1Field(w) == rs1 && Funct3(w) == funct3
      && RdField(w) == rd && Opcode(w) == opcode
  {}

  lemma DecodeS(imm12: bv32, rs2: bv5, rs1: bv5, funct3: bv3, opcode: bv7)
    ensures var w := SType(imm12, rs2 as bv32, rs1 as bv32, funct3 as bv32, opcode as bv32);
      ImmS(w) == SignExtend12((imm12 & 0xFFF) as bv12) && Rs2Field(w) == rs2 && Rs1Field(w) == rs1
      && Funct3(w) == funct3 && Opcode(w) == opcode
  {}

  /** The value of an upper immediate. */
  function InUpper(imm20: bv32): bv32 { imm20 << 12 }

  lemma DecodeU(imm20: bv32, rd: bv5, opcode: bv7)
    ensures var w := UType(imm20, rd as bv32, opcode as bv32);
      ImmU(w) == SignExtend32(InUpper(imm20)) && RdField(w) == rd && Opcode(w) == opcode
  {}

  // Offsets of jumps and branches

  function High(x: bv32): bv64 { 0xFFFF_FFFF_0000_0000 | (x as bv64) }

  lemma SignExtendCases(x: bv32)
    ensures SignExtend32(x) == if x & 0x8000_0000 != 0 then High(x) else ZeroExtend32(x)
  {}

  lemma LowOfHalves(x: bv32)
    ensures Low32(High(x)) == x && Low32(ZeroExtend32(x)) == x
  {}

  lemma LowOfSignExtend(x: bv32)
    ensures Low32(SignExtend32(x)) == x
  {
    hide *;
    SignExtendCases(x);
    LowOfHalves(x);
  }

  /** Even, and in the signed range of 21 bits. */
  predicate JumpOffset(offset: bv32) {
    offset & 1 == 0 && (offset & 0xFFF0_0000 == 0 || offset & 0xFFF0_0000 == 0xFFF0_0000)
  }

  /** What the J format keeps of an offset. */
  function JumpField(offset: bv32): bv32 {
    if offset & 0x10_0000 != 0 then 0xFFF0_0000 | (offset & 0xF_FFFE) else offset & 0xF_FFFE
  }

  lemma JumpFieldExact(offset: bv32)
    ensures JumpField(offset) == offset <==> JumpOffset(offset)
  {
    if offset & 0x10_0000 != 0 {
      BackwardJump(offset);
    } else {
      ForwardJump(offset);
    }
  }

  lemma BackwardJump(offset: bv32)
    requires offset & 0x10_0000 != 0
    ensures 0xFFF0_0000 | (offset & 0xF_FFFE) == offset <==> offset & 1 == 0 && offset & 0xFFF0_0000 == 0xFFF0_0000
  {}

  lemma ForwardJump(offset: bv32)
    requires offset & 0x10_0000 == 0
    ensures offset & 0xF_FFFE == offset <==> offset & 1 == 0 && offset & 0xFFF0_0000 == 0
  {}

  lemma JumpParts(offset: bv32, rd: bv5, opcode: bv7)
    ensures var w := JType(offset, rd as bv32, opcode as bv32);
      (SignBit(w) <==> offset & 0x10_0000 != 0) && JumpBits(w) == offset & 0xF_FFFE
      && RdField(w) == rd && Opcode(w) == opcode
  {}

  lemma JumpImmediateZero(w: bv32)
    requires !SignBit(w)
    ensures ImmJ(w) == ZeroExtend32(JumpBits(w))
  {
    hide SignBit, JumpBits, ZeroExtend32;
  }

  lemma JumpBitsPositive(w: bv32)
    ensures JumpBits(w) & 0x8000_0000 == 0
  {}

  lemma JumpImmediateForward(w: bv32)
    requires !SignBit(w)
    ensures ImmJ(w) == SignExtend32(JumpBits(w))
  {
    hide *;
    JumpImmediateZero(w);
    JumpBitsPositive(w);
    SignExtendCases(JumpBits(w));
  }

  lemma JumpImmediateBackward(w: bv32)
    requires SignBit(w)
    ensures ImmJ(w) == SignExtend32(0xFFF0_0000 | JumpBits(w))
  {}

  lemma JumpImmediate(w: bv32)
    ensures ImmJ(w) == SignExtend32(if SignBit(w) then 0xFFF0_0000 | JumpBits(w) else JumpBits(w))
  {
    hide *;
    if SignBit(w) {
      JumpImmediateBackward(w);
    } else {
      JumpImmediateForward(w);
    }
  }

  /** The J format carries exactly the offsets of its range. */
  lemma DecodeJ(offset: bv32, rd: bv5, opcode: bv7)
    ensures var w := JType(offset, rd as bv32, opcode as bv32);
      (ImmJ(w) == SignExtend32(offset) <==> JumpOffset(offset)) && RdField(w) == rd && Opcode(w) == opcode
  {
    var w := JType(offset, rd as bv32, opcode as bv32);
    hide JType, ImmJ, SignBit, JumpBits, SignExtend32, JumpOffset, RdField, Opcode, Low32;
    JumpParts(offset, rd, opcode);
    JumpImmediate(w);
    JumpFieldExact(offset);
    LowOfSignExtend(offset);
    LowOfSignExtend(JumpField(offset));
  }

  /** Even, and in the signed range of 13 bits. */
  predicate BranchOffset(offset: bv32) {
    offset & 1 == 0 && (offset & 0xFFFF_F000 == 0 || offset & 0xFFFF_F000 == 0xFFFF_F000)
  }

  /** What the B format keeps of an offset. */
  function BranchField(offset: bv32): bv32 {
    if offset & 0x1000 != 0 then 0xFFFF_F000 | (offset & 0xFFE) else offset & 0xFFE
  }

  lemma BranchFieldExact(offset: bv32)
    ensures BranchField(offset) == offset <==> BranchOffset(offset)
  {
    if offset & 0x1000 != 0 {
      BackwardBranch(offset);
    } else {
      ForwardBranch(offset);
    }
  }

  lemma BackwardBranch(offset: bv32)
    requires offset & 0x1000 != 0
    ensures 0xFFFF_F000 | (offset & 0xFFE) == offset <==> offset & 1 == 0 && offset & 0xFFFF_F000 == 0xFFFF_F000
  {}

  lemma ForwardBranch(offset: bv32)
    requires offset & 0x1000 == 0
    ensures offset & 0xFFE == offset <==> offset & 1 == 0 && offset & 0xFFFF_F000 == 0
  {}

  lemma BranchParts(offset: bv32, rs2: bv5, rs1: bv5, funct3: bv3, opcode: bv7)
    ensures var w := BType(offset, rs2 as bv32, rs1 as bv32, funct3 as bv32, opcode as bv32);
      (SignBit(w) <==> offset & 0x1000 != 0) && BranchBits(w) == offset & 0xFFE
      && Rs2Field(w) == rs2 && Rs1Field(w) == rs1 && Funct3(w) == funct3 && Opcode(w) == opcode
  {}

  lemma BranchImmediateZero(w: bv32)
    requires !SignBit(w)
    ensures ImmB(w) == ZeroExtend32(BranchBits(w))
  {
    hide SignBit, BranchBits, ZeroExtend32;
  }

  lemma BranchBitsPositive(w: bv32)
    ensures BranchBits(w) & 0x8000_0000 == 0
  {}

  lemma BranchImmediateForward(w: bv32)
    requires !SignBit(w)
    ensures ImmB(w) == SignExtend32(BranchBits(w))
  {
    hide *;
    BranchImmediateZero(w);
    BranchBitsPositive(w);
    SignExtendCases(BranchBits(w));
  }

  lemma BranchImmediateBackward(w: bv32)
    requires SignBit(w)
    ensures ImmB(w) == SignExtend32(0xFFFF_F000 | BranchBits(w))
  {}

  lemma BranchImmediate(w: bv32)
    ensures ImmB(w) == SignExtend32(if SignBit(w) then 0xFFFF_F000 | BranchBits(w) else BranchBits(w))
  {
    hide *;
    if SignBit(w) {
      BranchImmediateBackward(w);
    } else {
      BranchImmediateForward(w);
    }
  }

  /** The B format carries exactly the offsets of its range. */
  lemma DecodeB(offset: bv32, rs2: bv5, rs1: bv5, funct3: bv3, opcode: bv7)
    ensures var w := BType(offset, rs2 as bv32, rs1 as bv32, funct3 as bv32, opcode as bv32);
      (ImmB(w) == SignExtend32(offset) <==> BranchOffset(offset)) && Rs2Field(w) == rs2 && Rs1Field(w) == rs1
      && Funct3(w) == funct3 && Opcode(w) == opcode
  {
    var w := BType(offset, rs2 as bv32, rs1 as bv32, funct3 as bv32, opcode as bv32);
    hide BType, ImmB, SignBit, BranchBits, SignExtend32, BranchOffset, Rs2Field, Rs1Field, Funct3, Opcode, Low32;
    BranchParts(offset, rs2, rs1, funct3, opcode);
    BranchImmediate(w);
    BranchFieldExact(offset);
    LowOfSignExtend(offset);
    LowOfSignExtend(BranchField(offset));
  }

  // Decoding, then encoding: any word of a format is rebuilt from its decoded fields

  lemma EncodeR(w: bv32)
    ensures RType(Funct7(w) as bv32, Rs2Field(w) as bv32, Rs1Field(w) as bv32, Funct3(w) as bv32, RdField(w) as bv32,
                  Opcode(w) as bv32) == w
  {}

  lemma EncodeI(w: bv32)
    ensures IType(Low32(ImmI(w)), Rs1Field(w) as bv32, Funct3(w) as bv32, RdField(w) as bv32, Opcode(w) as bv32) == w
  {
    if SignBit(w) {} else {}
  }

  lemma EncodeS(w: bv32)
    ensures SType(Low32(ImmS(w)), Rs2Field(w) as bv32, Rs1Field(w) as bv32, Funct3(w) as bv32, Opcode(w) as bv32) == w
  {
    if SignBit(w) {} else {}
  }

  lemma EncodeU(w: bv32)
    ensures UType(Low32(ImmU(w)) >> 12, RdField(w) as bv32, Opcode(w) as bv32) == w
  {
    if SignBit(w) {} else {}
  }

  /** The J immediate as a 32-bit number. */
  function Jump32(w: bv32): bv32 { if SignBit(w) then 0xFFF0_0000 | JumpBits(w) else JumpBits(w) }

  lemma LowImmJ(w: bv32)
    ensures Low32(ImmJ(w)) == Jump32(w)
  {
    hide ImmJ, SignExtend32, SignBit, JumpBits, Low32;
    JumpImmediate(w);
    LowOfSignExtend(Jump32(w));
  }

  /** Two words with the same J-format fields are equal. */
  lemma SameJ(u: bv32, w: bv32)
    requires SignBit(u) == SignBit(w) && JumpBits(u) == JumpBits(w)
    requires RdField(u) == RdField(w) && Opcode(u) == Opcode(w)
    ensures u == w
  {}

  lemma Jump32Parts(w: bv32)
    ensures (Jump32(w) & 0x10_0000 != 0 <==> SignBit(w)) && Jump32(w) & 0xF_FFFE == JumpBits(w)
    ensures JumpOffset(Jump32(w))
  {
    if SignBit(w) {} else {}
  }

  lemma RebuildJ(w: bv32)
    ensures JumpOffset(Jump32(w)) && JType(Jump32(w), RdField(w) as bv32, Opcode(w) as bv32) == w
  {
    hide *;
    Jump32Parts(w);
    JumpParts(Jump32(w), RdField(w), Opcode(w));
    SameJ(JType(Jump32(w), RdField(w) as bv32, Opcode(w) as bv32), w);
  }

  lemma EncodeJ(w: bv32)
    ensures JumpOffset(Low32(ImmJ(w))) && JType(Low32(ImmJ(w)), RdField(w) as bv32, Opcode(w) as bv32) == w
  {
    hide *;
    LowImmJ(w);
    RebuildJ(w);
  }

  /** The B immediate as a 32-bit number. */
  function Branch32(w: bv32): bv32 { if SignBit(w) then 0xFFFF_F000 | BranchBits(w) else BranchBits(w) }

  lemma LowImmB(w: bv32)
    ensures Low32(ImmB(w)) == Branch32(w)
  {
    hide ImmB, SignExtend32, SignBit, BranchBits, Low32;
    BranchImmediate(w);
    LowOfSignExtend(Branch32(w));
  }

  /** Two words with the same B-format fields are equal. */
  lemma SameB(u: bv32, w: bv32)
    requires SignBit(u) == SignBit(w) && BranchBits(u) == BranchBits(w)
    requires Rs2Field(u) == Rs2Field(w) && Rs1Field(u) == Rs1Field(w)
    requires Funct3(u) == Funct3(w) && Opcode(u) == Opcode(w)
    ensures u == w
  {}

  lemma Branch32Parts(w: bv32)
    ensures (Branch32(w) & 0x1000 != 0 <==> SignBit(w)) && Branch32(w) & 0xFFE == BranchBits(w)
    ensures BranchOffset(Branch32(w))
  {
    if SignBit(w) {} else {}
  }

  lemma RebuildB(w: bv32)
    ensures BranchOffset(Branch32(w))
    ensures BType(Branch32(w), Rs2Field(w) as bv32, Rs1Field(w) as bv32, Funct3(w) as bv32, Opcode(w) as bv32) == w
  {
    hide *;
    Branch32Parts(w);
    BranchParts(Branch32(w), Rs2Field(w), Rs1Field(w), Funct3(w), Opcode(w));
    SameB(BType(Branch32(w), Rs2Field(w) as bv32, Rs1Field(w) as bv32, Funct3(w) as bv32, Opcode(w) as bv32), w);
  }

  lemma EncodeB(w: bv32)
    ensures BranchOffset(Low32(ImmB(w)))
    ensures BType(Low32(ImmB(w)), Rs2Field(w) as bv32, Rs1Field(w) as bv32, Funct3(w) as bv32, Opcode(w) as bv32) == w
  {
    hide *;
    LowImmB(w);
    RebuildB(w);
  }
}
