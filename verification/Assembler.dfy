/** An assembler for RV64I: legal words and encodable instructions correspond one to one. */
module Assembler {
  import opened Rv64Pkg
  import opened Bits
  import BitString
  import BitArithmetic
  import opened Decoder
  import opened Encoders
  import opened Isa
  import opened Immediates
  import opened WordOps
  import opened Sequential

  // Register numbers

  lemma FieldBits(r: Reg)
    ensures (Field(r) & 16 != 0 <==> OddAt(r, 16)) && (Field(r) & 8 != 0 <==> OddAt(r, 8))
    ensures (Field(r) & 4 != 0 <==> OddAt(r, 4)) && (Field(r) & 2 != 0 <==> OddAt(r, 2))
    ensures Field(r) & 1 != 0 <==> OddAt(r, 1)
  {
    hide OddAt;
  }

  lemma Binary(r: Reg)
    ensures r == (if OddAt(r, 16) then 16 else 0) + (if OddAt(r, 8) then 8 else 0) + (if OddAt(r, 4) then 4 else 0)
               + (if OddAt(r, 2) then 2 else 0) + if OddAt(r, 1) then 1 else 0
  {}

  lemma FieldIndex(r: Reg)
    ensures RegIndex(Field(r)) == r
  {
    hide Field, OddAt;
    FieldBits(r);
    Binary(r);
  }

  lemma WideBits(x: bv5)
    ensures ((x as bv64) & 16 != 0 <==> x & 16 != 0) && ((x as bv64) & 8 != 0 <==> x & 8 != 0)
    ensures ((x as bv64) & 4 != 0 <==> x & 4 != 0) && ((x as bv64) & 2 != 0 <==> x & 2 != 0)
    ensures (x as bv64) & 1 != 0 <==> x & 1 != 0
  {}

  /** A register number is the value of its field. */
  lemma IndexIsValue(x: bv5)
    ensures RegIndex(x) == BitString.Low(x as bv64, 5)
  {
    hide BitString.Low;
    WideBits(x);
    BitArithmetic.AmountSteps(x as bv64);
  }

  lemma SameIndex(x: bv5, y: bv5)
    requires RegIndex(x) == RegIndex(y)
    ensures x == y
  {}

  lemma IndexField(x: bv5)
    ensures Field(RegIndex(x)) == x
  {
    hide *;
    FieldIndex(RegIndex(x));
    SameIndex(Field(RegIndex(x)), x);
  }

  // Function codes

  function ConditionCode(c: Condition): bv3 {
    match c case Eq => 0 case Ne => 1 case Lt => 4 case Ge => 5 case Ltu => 6 case Geu => 7
  }

  function AccessCode(a: Access, signed: bool): bv3 {
    match a
    case Byte => if signed then 0 else 4
    case Half => if signed then 1 else 5
    case Word => if signed then 2 else 6
    case Double => 3
  }

  function OpCode(op: AluOp): bv3 {
    match op
    case AluAdd => 0 case AluSub => 0 case AluSll => 1 case AluSlt => 2 case AluSltu => 3
    case AluXor => 4 case AluSrl => 5 case AluSra => 5 case AluOr => 6 case AluAnd => 7
  }

  function OpCode7(op: AluOp): bv7 { if op == AluSub || op == AluSra then 0x20 else 0 }

  // Words of each format, by register number

  function WordR(f7: bv7, rs2: Reg, rs1: Reg, f3: bv3, rd: Reg, opcode: bv7): bv32 {
    RType(f7 as bv32, Field(rs2) as bv32, Field(rs1) as bv32, f3 as bv32, Field(rd) as bv32, opcode as bv32)
  }

  function WordI(imm12: bv32, rs1: Reg, f3: bv3, rd: Reg, opcode: bv7): bv32 {
    IType(imm12, Field(rs1) as bv32, f3 as bv32, Field(rd) as bv32, opcode as bv32)
  }

  function WordS(imm12: bv32, rs2: Reg, rs1: Reg, f3: bv3, opcode: bv7): bv32 {
    SType(imm12, Field(rs2) as bv32, Field(rs1) as bv32, f3 as bv32, opcode as bv32)
  }

  function WordB(offset: bv32, rs2: Reg, rs1: Reg, f3: bv3, opcode: bv7): bv32 {
    BType(offset, Field(rs2) as bv32, Field(rs1) as bv32, f3 as bv32, opcode as bv32)
  }

  function WordU(imm20: bv32, rd: Reg, opcode: bv7): bv32 { UType(imm20, Field(rd) as bv32, opcode as bv32) }
  function WordJ(offset: bv32, rd: Reg, opcode: bv7): bv32 { JType(offset, Field(rd) as bv32, opcode as bv32) }

  /** Arithmetic right shifts are marked by bit 10 of the immediate. */
  function ShiftField(op: AluOp, amount: bv64): bv32 {
    if op == AluSra then Low32(amount) | 0x400 else Low32(amount)
  }

  function UpperField(imm: bv64): bv32 { Low32(imm) >> 12 }
  function Field12(imm12: bv32): bv12 { (imm12 & 0xFFF) as bv12 }

  function Encode(i: Instr): bv32 {
    match i
    case Lui(rd, imm) => WordU(UpperField(imm), rd, 0x37)
    case Auipc(rd, imm) => WordU(UpperField(imm), rd, 0x17)
    case Jal(rd, offset) => WordJ(Low32(offset), rd, 0x6F)
    case Jalr(rd, rs1, offset) => WordI(Low32(offset), rs1, 0, rd, 0x67)
    case Branch(c, rs1, rs2, offset) => WordB(Low32(offset), rs2, rs1, ConditionCode(c), 0x63)
    case Load(a, signed, rd, rs1, offset) => WordI(Low32(offset), rs1, AccessCode(a, signed), rd, 0x03)
    case Store(a, rs1, rs2, offset) => WordS(Low32(offset), rs2, rs1, AccessCode(a, true), 0x23)
    case OpImm(op, word, rd, rs1, imm) =>
      WordI(if IsShiftOp(op) then ShiftField(op, imm) else Low32(imm), rs1, OpCode(op), rd, if word then 0x1B else 0x13)
    case Op(op, word, rd, rs1, rs2) => WordR(OpCode7(op), rs2, rs1, OpCode(op), rd, if word then 0x3B else 0x33)
    case Fence => 0x0F
  }

  predicate FitsI(imm: bv64) { imm == SignExtend12(Field12(Low32(imm))) }
  predicate FitsU(imm: bv64) { imm == SignExtend32(Low32(imm)) && Low32(imm) & 0xFFF == 0 }
  predicate FitsJ(offset: bv64) { offset == SignExtend32(Low32(offset)) && JumpOffset(Low32(offset)) }
  predicate FitsB(offset: bv64) { offset == SignExtend32(Low32(offset)) && BranchOffset(Low32(offset)) }

  /** The instruction exists and its immediate fits its format. */
  predicate Encodable(i: Instr) {
    match i
    case Lui(_, imm) => FitsU(imm)
    case Auipc(_, imm) => FitsU(imm)
    case Jal(_, offset) => FitsJ(offset)
    case Jalr(_, _, offset) => FitsI(offset)
    case Branch(_, _, _, offset) => FitsB(offset)
    case Load(a, signed, _, _, offset) => FitsI(offset) && (a == Double ==> signed)
    case Store(_, _, _, offset) => FitsI(offset)
    case OpImm(op, word, _, _, imm) =>
      op != AluSub && (word ==> IsWordOp(op))
      && if IsShiftOp(op) then imm < if word then 32 else 64 else FitsI(imm)
    case Op(op, word, _, _, _) => word ==> IsWordOp(op)
    case Fence => true
  }

  // What the decoder makes of a legal word

  predicate DecodesTo(w: bv32, p: Priv, i: Instr) {
    var d := Decode(w, p);
    Benign(d.ctrl.sys) && d.ctrl.mem.isLoad == i.Load? && d.ctrl.mem.isStore == i.Store?
    && d.ctrl.wb.regWrite == WritesRd(i) && (WritesRd(i) ==> d.ctrl.wb.rd == i.rd)
    && OperandsOf(i, d) && (i.OpImm? ==> ImmediateOperands(i, d, w))
  }

  lemma DecodesAsParsed(w: bv32, p: Priv)
    requires Parse(w).Some?
    ensures DecodesTo(w, p, Parse(w).value)
  {
    hide Parse, Decode, OperandsOf, ImmediateOperands;
    DecodeControls(w, p);
    DecodeOperands(w, p);
    if Parse(w).value.OpImm? {
      DecodeOpImm(w, p);
    }
  }

  // Encoding, then parsing: the fields of each format

  lemma UnfoldR(f7: bv7, rs2: Reg, rs1: Reg, f3: bv3, rd: Reg, opcode: bv7)
    ensures WordR(f7, rs2, rs1, f3, rd, opcode)
         == RType(f7 as bv32, Field(rs2) as bv32, Field(rs1) as bv32, f3 as bv32, Field(rd) as bv32, opcode as bv32)
  {
    hide RType, Field;
  }

  lemma UnfoldB(offset: bv32, rs2: Reg, rs1: Reg, f3: bv3, opcode: bv7)
    ensures WordB(offset, rs2, rs1, f3, opcode)
         == BType(offset, Field(rs2) as bv32, Field(rs1) as bv32, f3 as bv32, opcode as bv32)
  {
    hide BType, Field;
  }

  lemma FieldsR(f7: bv7, rs2: Reg, rs1: Reg, f3: bv3, rd: Reg, opcode: bv7)
    ensures var w := WordR(f7, rs2, rs1, f3, rd, opcode);
      Opcode(w) == opcode && Funct3(w) == f3 && Funct7(w) == f7
      && RegIndex(RdField(w)) == rd && RegIndex(Rs1Field(w)) == rs1 && RegIndex(Rs2Field(w)) == rs2
  {
    hide *;
    UnfoldR(f7, rs2, rs1, f3, rd, opcode);
    DecodeR(f7, Field(rs2), Field(rs1), f3, Field(rd), opcode);
    FieldIndex(rd);
    FieldIndex(rs1);
    FieldIndex(rs2);
  }

  lemma FieldsI(imm12: bv32, rs1: Reg, f3: bv3, rd: Reg, opcode: bv7)
    ensures var w := WordI(imm12, rs1, f3, rd, opcode);
      Opcode(w) == opcode && Funct3(w) == f3 && ImmediateI(w) == SignExtend12(Field12(imm12))
      && RegIndex(RdField(w)) == rd && RegIndex(Rs1Field(w)) == rs1
  {
    hide IType, Opcode, Funct3, RdField, Rs1Field, RegIndex, Field, ImmI, ImmediateI, SignExtend12;
    DecodeI(imm12, Field(rs1), f3, Field(rd), opcode);
    ImmediatesAgree(WordI(imm12, rs1, f3, rd, opcode));
    FieldIndex(rd);
    FieldIndex(rs1);
  }

  lemma FieldsS(imm12: bv32, rs2: Reg, rs1: Reg, f3: bv3, opcode: bv7)
    ensures var w := WordS(imm12, rs2, rs1, f3, opcode);
      Opcode(w) == opcode && Funct3(w) == f3 && ImmediateS(w) == SignExtend12(Field12(imm12))
      && RegIndex(Rs1Field(w)) == rs1 && RegIndex(Rs2Field(w)) == rs2
  {
    hide SType, Opcode, Funct3, Rs1Field, Rs2Field, RegIndex, Field, ImmS, ImmediateS, SignExtend12;
    DecodeS(imm12, Field(rs2), Field(rs1), f3, opcode);
    ImmediatesAgree(WordS(imm12, rs2, rs1, f3, opcode));
    FieldIndex(rs1);
    FieldIndex(rs2);
  }

  lemma FieldsB(offset: bv32, rs2: Reg, rs1: Reg, f3: bv3, opcode: bv7)
    ensures var w := WordB(offset, rs2, rs1, f3, opcode);
      Opcode(w) == opcode && Funct3(w) == f3 && (ImmediateB(w) == SignExtend32(offset) <==> BranchOffset(offset))
      && RegIndex(Rs1Field(w)) == rs1 && RegIndex(Rs2Field(w)) == rs2
  {
    hide *;
    UnfoldB(offset, rs2, rs1, f3, opcode);
    DecodeB(offset, Field(rs2), Field(rs1), f3, opcode);
    ImmediatesAgree(WordB(offset, rs2, rs1, f3, opcode));
    FieldIndex(rs1);
    FieldIndex(rs2);
  }

  lemma FieldsU(imm20: bv32, rd: Reg, opcode: bv7)
    ensures var w := WordU(imm20, rd, opcode);
      Opcode(w) == opcode && ImmediateU(w) == SignExtend32(InUpper(imm20)) && RegIndex(RdField(w)) == rd
  {
    hide UType, Opcode, RdField, RegIndex, Field, ImmU, ImmediateU, SignExtend32, InUpper;
    DecodeU(imm20, Field(rd), opcode);
    ImmediatesAgree(WordU(imm20, rd, opcode));
    FieldIndex(rd);
  }

  lemma FieldsJ(offset: bv32, rd: Reg, opcode: bv7)
    ensures var w := WordJ(offset, rd, opcode);
      Opcode(w) == opcode && (ImmediateJ(w) == SignExtend32(offset) <==> JumpOffset(offset))
      && RegIndex(RdField(w)) == rd
  {
    hide JType, Opcode, RdField, RegIndex, Field, ImmJ, ImmediateJ, SignExtend32, JumpOffset;
    DecodeJ(offset, Field(rd), opcode);
    ImmediatesAgree(WordJ(offset, rd, opcode));
    FieldIndex(rd);
  }

  lemma UpperKept(x: bv32)
    requires x & 0xFFF == 0
    ensures InUpper(x >> 12) == x
  {}

  lemma UpperFits(imm: bv64)
    requires FitsU(imm)
    ensures SignExtend32(InUpper(UpperField(imm))) == imm
  {
    hide InUpper, SignExtend32, Low32;
    UpperKept(Low32(imm));
  }

  // Instruction by instruction

  lemma UpperWord(w: bv32, rd: Reg, imm: bv64)
    requires RegIndex(RdField(w)) == rd && ImmediateU(w) == imm
    ensures Opcode(w) == 0x37 ==> Parse(w) == Some(Lui(rd, imm))
    ensures Opcode(w) == 0x17 ==> Parse(w) == Some(Auipc(rd, imm))
  {
    hide Opcode, RdField, RegIndex, ImmediateU, ParseOpImm, ParseOp, ParseAccess, ParseCondition;
  }

  lemma ParseUppers(i: Instr)
    requires (i.Lui? || i.Auipc?) && Encodable(i)
    ensures Parse(Encode(i)) == Some(i)
  {
    hide Parse, WordU, Opcode, RdField, RegIndex, ImmediateU, SignExtend32, Low32, InUpper, UpperField, FitsU;
    UpperFits(i.imm);
    FieldsU(UpperField(i.imm), i.rd, if i.Lui? then 0x37 else 0x17);
    UpperWord(Encode(i), i.rd, i.imm);
  }

  lemma ParseJumps(i: Instr)
    requires (i.Jal? || i.Jalr?) && Encodable(i)
    ensures Parse(Encode(i)) == Some(i)
  {
    hide WordI, WordJ, Opcode, Funct3, RdField, Rs1Field;
    hide RegIndex, ImmediateI, ImmediateJ, SignExtend12, SignExtend32, Low32;
    hide JumpOffset;
    if i.Jal? {
      FieldsJ(Low32(i.offset), i.rd, 0x6F);
    } else {
      FieldsI(Low32(i.offset), i.rs1, 0, i.rd, 0x67);
    }
  }

  lemma ParseBranches(i: Instr)
    requires i.Branch? && Encodable(i)
    ensures Parse(Encode(i)) == Some(i)
  {
    hide WordB, Opcode, Funct3, Rs1Field, Rs2Field, RegIndex, ImmediateB, SignExtend32, Low32, BranchOffset;
    FieldsB(Low32(i.offset), i.rs2, i.rs1, ConditionCode(i.cond), 0x63);
    match i.cond case Eq => case Ne => case Lt => case Ge => case Ltu => case Geu =>
  }

  lemma LoadWord(w: bv32, a: Access, signed: bool, rd: Reg, rs1: Reg, offset: bv64)
    requires Opcode(w) == 0x03 && Funct3(w) == AccessCode(a, signed) && (a == Double ==> signed)
    requires RegIndex(RdField(w)) == rd && RegIndex(Rs1Field(w)) == rs1 && ImmediateI(w) == offset
    ensures Parse(w) == Some(Load(a, signed, rd, rs1, offset))
  {
    hide Opcode, Funct3, RdField, Rs1Field, RegIndex, ImmediateI, ParseOpImm, ParseOp, ParseCondition;
    match a
    case Byte => if signed {} else {}
    case Half => if signed {} else {}
    case Word => if signed {} else {}
    case Double =>
  }

  lemma StoreWord(w: bv32, a: Access, rs1: Reg, rs2: Reg, offset: bv64)
    requires Opcode(w) == 0x23 && Funct3(w) == AccessCode(a, true)
    requires RegIndex(Rs1Field(w)) == rs1 && RegIndex(Rs2Field(w)) == rs2 && ImmediateS(w) == offset
    ensures Parse(w) == Some(Store(a, rs1, rs2, offset))
  {
    hide Opcode, Funct3, Rs1Field, Rs2Field, RegIndex, ImmediateS, ParseOpImm, ParseOp, ParseCondition;
    match a case Byte => case Half => case Word => case Double =>
  }

  lemma ParseAccesses(i: Instr)
    requires (i.Load? || i.Store?) && Encodable(i)
    ensures Parse(Encode(i)) == Some(i)
  {
    hide Parse, WordI, WordS, Opcode, Funct3, RdField;
    hide Rs1Field, Rs2Field, RegIndex, ImmediateI, ImmediateS, SignExtend12;
    hide Low32, Field12, AccessCode;
    if i.Load? {
      FieldsI(Low32(i.offset), i.rs1, AccessCode(i.access, i.signed), i.rd, 0x03);
      LoadWord(Encode(i), i.access, i.signed, i.rd, i.rs1, i.offset);
    } else {
      FieldsS(Low32(i.offset), i.rs2, i.rs1, AccessCode(i.access, true), 0x23);
      StoreWord(Encode(i), i.access, i.rs1, i.rs2, i.offset);
    }
  }

  lemma ParseRegisters(i: Instr)
    requires i.Op? && Encodable(i)
    ensures Parse(Encode(i)) == Some(i)
  {
    hide WordR, Opcode, Funct3, Funct7, RdField, Rs1Field, Rs2Field, RegIndex;
    FieldsR(OpCode7(i.op), i.rs2, i.rs1, OpCode(i.op), i.rd, if i.word then 0x3B else 0x33);
    match i.op case AluAdd => case AluSub => case AluSll => case AluSlt => case AluSltu => case AluXor =>
    case AluSrl => case AluSra => case AluOr => case AluAnd =>
  }

  lemma ImmediateWord(w: bv32, op: AluOp, word: bool, rd: Reg, rs1: Reg, imm: bv64)
    requires Opcode(w) == (if word then 0x1B else 0x13) && Funct3(w) == OpCode(op) && !IsShiftOp(op) && op != AluSub
    requires word ==> op == AluAdd
    requires RegIndex(RdField(w)) == rd && RegIndex(Rs1Field(w)) == rs1 && ImmediateI(w) == imm
    ensures Parse(w) == Some(OpImm(op, word, rd, rs1, imm))
  {
    hide Opcode, Funct3, RdField, Rs1Field, RegIndex, ImmediateI, ParseAccess, ParseCondition;
    match op case AluAdd => case AluSlt => case AluSltu => case AluXor => case AluOr => case AluAnd =>
  }

  lemma ParsePlainImmediates(i: Instr)
    requires i.OpImm? && !IsShiftOp(i.op) && Encodable(i)
    ensures Parse(Encode(i)) == Some(i)
  {
    hide Parse, WordI, Opcode, Funct3, RdField, Rs1Field, RegIndex, ImmediateI, SignExtend12, Low32, Field12, OpCode;
    FieldsI(Low32(i.imm), i.rs1, OpCode(i.op), i.rd, if i.word then 0x1B else 0x13);
    ImmediateWord(Encode(i), i.op, i.word, i.rd, i.rs1, i.imm);
  }

  /** The amount and the marker of a shift by an immediate. */
  function Amount64(w: bv32): bv64 { ((w >> 20) & 0x3F) as bv64 }
  function Amount32(w: bv32): bv64 { ((w >> 20) & 0x1F) as bv64 }
  function Marker64(w: bv32): bv7 { Funct7(w) & 0x7E }

  lemma ShiftFields(imm12: bv32, rs1: bv5, f3: bv3, rd: bv5, opcode: bv7)
    ensures var w := IType(imm12, rs1 as bv32, f3 as bv32, rd as bv32, opcode as bv32);
      Amount64(w) == (imm12 & 0x3F) as bv64 && Amount32(w) == (imm12 & 0x1F) as bv64
      && Funct7(w) == ((imm12 >> 5) & 0x7F) as bv7 && Marker64(w) == ((imm12 >> 5) & 0x7E) as bv7
  {}

  lemma WideAmount(op: AluOp, amount: bv64)
    requires amount < 64
    ensures var x := ShiftField(op, amount);
      (x & 0x3F) as bv64 == amount && ((x >> 5) & 0x7E) as bv7 == if op == AluSra then 0x20 else 0
  {}

  lemma WordAmount(op: AluOp, amount: bv64)
    requires amount < 32
    ensures var x := ShiftField(op, amount);
      (x & 0x1F) as bv64 == amount && ((x >> 5) & 0x7F) as bv7 == if op == AluSra then 0x20 else 0
  {}

  lemma EncodedShift(i: Instr)
    requires i.OpImm? && IsShiftOp(i.op)
    ensures Encode(i) == WordI(ShiftField(i.op, i.imm), i.rs1, OpCode(i.op), i.rd, if i.word then 0x1B else 0x13)
  {
    hide WordI, ShiftField, OpCode;
  }

  lemma UnfoldI(imm12: bv32, rs1: Reg, f3: bv3, rd: Reg, opcode: bv7)
    ensures WordI(imm12, rs1, f3, rd, opcode)
         == IType(imm12, Field(rs1) as bv32, f3 as bv32, Field(rd) as bv32, opcode as bv32)
  {
    hide IType, Field;
  }

  lemma WideShiftFields(op: AluOp, amount: bv64, rs1: Reg, f3: bv3, rd: Reg, opcode: bv7)
    requires amount < 64
    ensures var w := WordI(ShiftField(op, amount), rs1, f3, rd, opcode);
      Amount64(w) == amount && Marker64(w) == if op == AluSra then 0x20 else 0
  {
    hide *;
    UnfoldI(ShiftField(op, amount), rs1, f3, rd, opcode);
    ShiftFields(ShiftField(op, amount), Field(rs1), f3, Field(rd), opcode);
    WideAmount(op, amount);
  }

  lemma WordShiftFields(op: AluOp, amount: bv64, rs1: Reg, f3: bv3, rd: Reg, opcode: bv7)
    requires amount < 32
    ensures var w := WordI(ShiftField(op, amount), rs1, f3, rd, opcode);
      Amount32(w) == amount && Funct7(w) == if op == AluSra then 0x20 else 0
  {
    hide *;
    UnfoldI(ShiftField(op, amount), rs1, f3, rd, opcode);
    ShiftFields(ShiftField(op, amount), Field(rs1), f3, Field(rd), opcode);
    WordAmount(op, amount);
  }

  predicate HasAmount(w: bv32, op: AluOp, word: bool, amount: bv64) {
    if word then Amount32(w) == amount && Funct7(w) == OpCode7(op)
    else Amount64(w) == amount && Marker64(w) == OpCode7(op)
  }

  lemma AmountKept(i: Instr)
    requires i.OpImm? && IsShiftOp(i.op) && Encodable(i)
    ensures HasAmount(Encode(i), i.op, i.word, i.imm)
  {
    hide WordI, Amount64, Amount32, Marker64, Funct7, ShiftField, OpCode, FitsI, Encode;
    var opcode := if i.word then 0x1B else 0x13;
    EncodedShift(i);
    if i.word {
      WordShiftFields(i.op, i.imm, i.rs1, OpCode(i.op), i.rd, opcode);
    } else {
      WideShiftFields(i.op, i.imm, i.rs1, OpCode(i.op), i.rd, opcode);
    }
  }

  lemma ShiftByOpcode(w: bv32, word: bool)
    requires Opcode(w) == (if word then 0x1B else 0x13) && IsShift(Funct3(w))
    ensures Parse(w)
         == match ParseOp(Funct3(w), if word then Funct7(w) else Marker64(w))
            case Some(op) =>
              Some(OpImm(op, word, RegIndex(RdField(w)), RegIndex(Rs1Field(w)),
                         if word then Amount32(w) else Amount64(w)))
            case None => None
  {
    hide Opcode, Funct3, Funct7, RdField, Rs1Field, RegIndex, ImmediateI, ParseAccess, ParseCondition, ParseOp;
    if word {} else {}
  }

  lemma ShiftCode(op: AluOp)
    requires IsShiftOp(op)
    ensures ParseOp(OpCode(op), OpCode7(op)) == Some(op) && IsShift(OpCode(op))
  {}

  lemma ParseShifts(i: Instr)
    requires i.OpImm? && IsShiftOp(i.op) && Encodable(i)
    ensures Parse(Encode(i)) == Some(i)
  {
    hide Parse, Encode, Encodable, Opcode, Funct3, Funct7, RdField, Rs1Field, RegIndex, Amount32, Amount64, Marker64;
    hide OpCode, OpCode7, ParseOp, IsShiftOp, IsShift;
    AmountKept(i);
    EncodedShiftFields(i);
    ShiftCode(i.op);
    ShiftByOpcode(Encode(i), i.word);
  }

  lemma EncodedShiftFields(i: Instr)
    requires i.OpImm? && IsShiftOp(i.op)
    ensures var w := Encode(i);
      Opcode(w) == (if i.word then 0x1B else 0x13) && Funct3(w) == OpCode(i.op)
      && RegIndex(RdField(w)) == i.rd && RegIndex(Rs1Field(w)) == i.rs1
  {
    hide WordI, Opcode, Funct3, RdField, Rs1Field, RegIndex, ImmediateI, SignExtend12, Field12, OpCode, ShiftField;
    FieldsI(ShiftField(i.op, i.imm), i.rs1, OpCode(i.op), i.rd, if i.word then 0x1B else 0x13);
  }

  /** The decoder and the interpreter read back every encodable instruction, registers and immediate included. */
  lemma ParseEncode(i: Instr, p: Priv)
    requires Encodable(i)
    ensures Parse(Encode(i)) == Some(i) && DecodesTo(Encode(i), p, i)
  {
    hide Parse, Encode, Encodable, DecodesTo, IsShiftOp;
    if i.Lui? || i.Auipc? {
      ParseUppers(i);
    } else if i.Jal? || i.Jalr? {
      ParseJumps(i);
    } else if i.Branch? {
      ParseBranches(i);
    } else if i.Load? || i.Store? {
      ParseAccesses(i);
    } else if i.Op? {
      ParseRegisters(i);
    } else if i.OpImm? {
      if IsShiftOp(i.op) {
        ParseShifts(i);
      } else {
        ParsePlainImmediates(i);
      }
    } else {
      ParseFence();
    }
    DecodesAsParsed(Encode(i), p);
  }

  lemma ParseFence()
    ensures Parse(Encode(Fence)) == Some(Fence)
  {}

  // Parsing, then encoding: a legal word is the encoding of its instruction

  lemma Narrowed(x: bv12)
    ensures Field12(Low32(SignExtend12(x))) == x
  {
    if x & 0x800 != 0 {} else {}
  }

  lemma ImmediatesFit(w: bv32)
    ensures FitsI(ImmI(w)) && FitsI(ImmS(w)) && FitsJ(ImmJ(w)) && FitsB(ImmB(w)) && FitsU(ImmU(w))
  {
    hide SignExtend12, SignExtend32, Low32, Field12, ImmJ, ImmB, JumpOffset, BranchOffset, Jump32, Branch32;
    Narrowed(((w >> 20) & 0xFFF) as bv12);
    Narrowed((((w >> 20) & 0xFE0) | ((w >> 7) & 0x1F)) as bv12);
    JumpFits(w);
    BranchFits(w);
    LowOfSignExtend(w & 0xFFFF_F000);
    assert w & 0xFFFF_F000 & 0xFFF == 0;
  }

  lemma JumpFits(w: bv32)
    ensures FitsJ(ImmJ(w))
  {
    hide SignExtend32, Low32, ImmJ, JumpOffset, JumpBits, SignBit;
    EncodeJ(w);
    JumpImmediate(w);
    LowImmJ(w);
  }

  lemma BranchFits(w: bv32)
    ensures FitsB(ImmB(w))
  {
    hide SignExtend32, Low32, ImmB, BranchOffset, BranchBits, SignBit;
    EncodeB(w);
    BranchImmediate(w);
    LowImmB(w);
  }

  lemma UnfoldRest(x: bv32, y: bv64, z: bv32, rs2: Reg, rs1: Reg, f3: bv3, rd: Reg, opcode: bv7)
    ensures WordS(x, rs2, rs1, f3, opcode)
         == SType(x, Field(rs2) as bv32, Field(rs1) as bv32, f3 as bv32, opcode as bv32)
    ensures WordU(UpperField(y), rd, opcode) == UType(Low32(y) >> 12, Field(rd) as bv32, opcode as bv32)
    ensures WordJ(z, rd, opcode) == JType(z, Field(rd) as bv32, opcode as bv32)
  {
    hide SType, UType, JType, Field, Low32;
  }

  /** Words of each format from the fields of a word. */
  lemma Refields(w: bv32)
    ensures var rd, rs1, rs2 := RegIndex(RdField(w)), RegIndex(Rs1Field(w)), RegIndex(Rs2Field(w));
      WordR(Funct7(w), rs2, rs1, Funct3(w), rd, Opcode(w)) == w
      && WordI(Low32(ImmI(w)), rs1, Funct3(w), rd, Opcode(w)) == w
      && WordS(Low32(ImmS(w)), rs2, rs1, Funct3(w), Opcode(w)) == w
      && WordB(Low32(ImmB(w)), rs2, rs1, Funct3(w), Opcode(w)) == w
      && WordU(UpperField(ImmU(w)), rd, Opcode(w)) == w && WordJ(Low32(ImmJ(w)), rd, Opcode(w)) == w
  {
    hide *;
    var rd, rs1, rs2 := RegIndex(RdField(w)), RegIndex(Rs1Field(w)), RegIndex(Rs2Field(w));
    UnfoldR(Funct7(w), rs2, rs1, Funct3(w), rd, Opcode(w));
    UnfoldI(Low32(ImmI(w)), rs1, Funct3(w), rd, Opcode(w));
    UnfoldB(Low32(ImmB(w)), rs2, rs1, Funct3(w), Opcode(w));
    UnfoldRest(Low32(ImmS(w)), ImmU(w), Low32(ImmJ(w)), rs2, rs1, Funct3(w), rd, Opcode(w));
    IndexField(RdField(w));
    IndexField(Rs1Field(w));
    IndexField(Rs2Field(w));
    EncodeR(w);
    EncodeI(w);
    EncodeS(w);
    EncodeB(w);
    EncodeU(w);
    EncodeJ(w);
  }

  lemma AccessCodes(f3: bv3)
    ensures f3 != 7 ==> AccessCode(ParseAccess(f3 & 3), f3 & 4 == 0) == f3
    ensures ParseAccess(f3 & 3) == Double && f3 != 7 ==> f3 & 4 == 0
    ensures f3 & 4 == 0 ==> AccessCode(ParseAccess(f3), true) == f3
  {
    if f3 == 0 {} else if f3 == 1 {} else if f3 == 2 {} else if f3 == 3 {}
    else if f3 == 4 {} else if f3 == 5 {} else if f3 == 6 {} else {}
  }

  lemma OpCodes(f3: bv3, f7: bv7)
    requires ParseOp(f3, f7).Some?
    ensures var op := ParseOp(f3, f7).value;
      OpCode(op) == f3 && OpCode7(op) == f7 && (IsShiftOp(op) <==> IsShift(f3)) && (HasWordForm(f3) <==> IsWordOp(op))
  {
    if f3 == 0 {} else if f3 == 1 {} else if f3 == 2 {} else if f3 == 3 {}
    else if f3 == 4 {} else if f3 == 5 {} else if f3 == 6 {} else {}
  }

  predicate Rebuilt(w: bv32) { Parse(w).Some? && Encodable(Parse(w).value) && Encode(Parse(w).value) == w }

  lemma ImmediateKind(w: bv32, word: bool)
    ensures ParseOpImm(w, word).Some? ==> ParseOpImm(w, word).value.OpImm?
  {
    hide RegIndex, RdField, Rs1Field, Funct3, Funct7, ParseOp, ImmediateI;
  }

  lemma RebuildTransfers(w: bv32)
    requires Parse(w).Some? && Opcode(w) in {OPCODE_LUI, OPCODE_AUIPC, OPCODE_JAL, OPCODE_JALR, OPCODE_BRANCH}
    ensures Rebuilt(w)
  {
    hide RegIndex, RdField, Rs1Field, Rs2Field, Funct3, Funct7, Opcode, ParseOpImm, ParseOp, ParseAccess, AccessCode;
    hide ImmediateI, ImmediateS, ImmediateB, ImmediateU, ImmediateJ, ImmI, ImmS, ImmB, ImmU, ImmJ, Low32, UpperField;
    hide FitsI, FitsU, FitsJ, FitsB, WordR, WordI, WordS, WordB, WordU, WordJ;
    ImmediatesAgree(w);
    ImmediatesFit(w);
    Refields(w);
    var op := Opcode(w);
    if op == OPCODE_LUI {} else if op == OPCODE_AUIPC {} else if op == OPCODE_JAL {} else if op == OPCODE_JALR {}
    else {}
  }

  lemma RebuildAccesses(w: bv32)
    requires Parse(w).Some? && Opcode(w) in {OPCODE_LOAD, OPCODE_STORE}
    ensures Rebuilt(w)
  {
    hide RegIndex, RdField, Rs1Field, Rs2Field, Funct3, Funct7, Opcode, ParseOpImm, ParseOp, ParseAccess, AccessCode;
    hide ImmediateI, ImmediateS, ImmediateB, ImmediateU, ImmediateJ, ImmI, ImmS, ImmB, ImmU, ImmJ, Low32, UpperField;
    hide FitsI, FitsU, FitsJ, FitsB, WordR, WordI, WordS, WordB, WordU, WordJ;
    ImmediatesAgree(w);
    ImmediatesFit(w);
    Refields(w);
    AccessCodes(Funct3(w));
    if Opcode(w) == OPCODE_LOAD {} else {}
  }

  lemma OtherOpcodes(w: bv32)
    requires Parse(w).Some? && !Parse(w).value.OpImm? && !Parse(w).value.Op? && !Parse(w).value.Fence?
    ensures Opcode(w) in {OPCODE_LUI, OPCODE_AUIPC, OPCODE_JAL, OPCODE_JALR, OPCODE_BRANCH, OPCODE_LOAD, OPCODE_STORE}
  {
    hide RegIndex, RdField, Rs1Field, Rs2Field, Funct3, Funct7, Opcode, ParseOpImm, ParseOp, ParseAccess;
    hide ImmediateI, ImmediateS, ImmediateB, ImmediateU, ImmediateJ;
    ImmediateKind(w, false);
    ImmediateKind(w, true);
  }

  lemma RebuildRegisters(w: bv32)
    requires Parse(w).Some? && Parse(w).value.Op?
    ensures Rebuilt(w)
  {
    hide RegIndex, RdField, Rs1Field, Rs2Field, Funct3, Funct7, Opcode, ParseAccess, ParseOp, OpCode, OpCode7;
    hide ImmediateI, ImmediateS, ImmediateB, ImmediateU, ImmediateJ, ImmI, ImmS, ImmB, ImmU, ImmJ, Low32, UpperField;
    hide WordR, WordI, WordS, WordB, WordU, WordJ, IsWordOp, HasWordForm, IsShift, IsShiftOp;
    Refields(w);
    if ParseOp(Funct3(w), Funct7(w)).Some? {
      OpCodes(Funct3(w), Funct7(w));
    }
  }

  lemma SameI(u: bv32, w: bv32)
    requires CsrField(u) == CsrField(w) && Rs1Field(u) == Rs1Field(w) && Funct3(u) == Funct3(w)
    requires RdField(u) == RdField(w) && Opcode(u) == Opcode(w)
    ensures u == w
  {}

  lemma TopOfI(imm12: bv32, rs1: bv5, f3: bv3, rd: bv5, opcode: bv7)
    ensures CsrField(IType(imm12, rs1 as bv32, f3 as bv32, rd as bv32, opcode as bv32)) == Field12(imm12)
  {}

  lemma TopOfWord(imm12: bv32, rs1: Reg, f3: bv3, rd: Reg, opcode: bv7)
    ensures CsrField(WordI(imm12, rs1, f3, rd, opcode)) == Field12(imm12)
  {
    hide *;
    UnfoldI(imm12, rs1, f3, rd, opcode);
    TopOfI(imm12, Field(rs1), f3, Field(rd), opcode);
  }

  lemma LogicalTop(w: bv32)
    ensures ((w >> 25) & 0x7F) as bv7 & 0x7E == 0 ==>
      (Low32(((w >> 20) & 0x3F) as bv64) & 0xFFF) as bv12 == ((w >> 20) & 0xFFF) as bv12
    ensures ((w >> 25) & 0x7F) as bv7 == 0 ==>
      (Low32(((w >> 20) & 0x1F) as bv64) & 0xFFF) as bv12 == ((w >> 20) & 0xFFF) as bv12
  {}

  lemma ArithmeticTop(w: bv32)
    ensures ((w >> 25) & 0x7F) as bv7 & 0x7E == 0x20 ==>
      ((Low32(((w >> 20) & 0x3F) as bv64) | 0x400) & 0xFFF) as bv12 == ((w >> 20) & 0xFFF) as bv12
    ensures ((w >> 25) & 0x7F) as bv7 == 0x20 ==>
      ((Low32(((w >> 20) & 0x1F) as bv64) | 0x400) & 0xFFF) as bv12 == ((w >> 20) & 0xFFF) as bv12
  {}

  lemma ShiftTop(w: bv32, op: AluOp, word: bool, amount: bv64)
    requires IsShiftOp(op) && HasAmount(w, op, word, amount)
    ensures Field12(ShiftField(op, amount)) == CsrField(w) && amount < if word then 32 else 64
  {
    LogicalTop(w);
    ArithmeticTop(w);
    SmallAmounts(w);
    hide Low32;
  }

  lemma SmallAmounts(w: bv32)
    ensures Amount64(w) < 64 && Amount32(w) < 32
  {}

  lemma RebuildShift(w: bv32, op: AluOp, word: bool, amount: bv64)
    requires IsShiftOp(op) && HasAmount(w, op, word, amount)
    requires Opcode(w) == (if word then 0x1B else 0x13) && Funct3(w) == OpCode(op)
    ensures var rd, rs1 := RegIndex(RdField(w)), RegIndex(Rs1Field(w));
      WordI(ShiftField(op, amount), rs1, OpCode(op), rd, if word then 0x1B else 0x13) == w
  {
    hide *;
    var x, rd, rs1 := ShiftField(op, amount), RegIndex(RdField(w)), RegIndex(Rs1Field(w));
    var u := WordI(x, rs1, OpCode(op), rd, if word then 0x1B else 0x13);
    ShiftTop(w, op, word, amount);
    FieldsI(x, rs1, OpCode(op), rd, if word then 0x1B else 0x13);
    TopOfWord(x, rs1, OpCode(op), rd, if word then 0x1B else 0x13);
    SameIndex(RdField(u), RdField(w));
    SameIndex(Rs1Field(u), Rs1Field(w));
    SameI(u, w);
  }

  lemma RebuildShifts(w: bv32, word: bool)
    requires Opcode(w) == (if word then 0x1B else 0x13) && IsShift(Funct3(w)) && Parse(w).Some?
    ensures Rebuilt(w)
  {
    hide Parse, Opcode, Funct3, Funct7, RdField, Rs1Field, RegIndex, Amount32, Amount64, Marker64, WordI, ShiftField;
    hide OpCode, OpCode7, ParseOp, IsShiftOp, IsShift, HasWordForm, FitsI, Low32;
    ShiftByOpcode(w, word);
    var i := Parse(w).value;
    OpCodes(Funct3(w), if word then Funct7(w) else Marker64(w));
    ShiftTop(w, i.op, word, i.imm);
    RebuildShift(w, i.op, word, i.imm);
    ShiftsHaveWordForm(i.op);
  }

  lemma ShiftsHaveWordForm(op: AluOp)
    requires IsShiftOp(op)
    ensures IsWordOp(op) && op != AluSub
  {}

  /** Other immediate operations. */
  lemma PlainByOpcode(w: bv32, word: bool)
    requires Opcode(w) == (if word then 0x1B else 0x13) && !IsShift(Funct3(w)) && Parse(w).Some?
    ensures ParseOp(Funct3(w), 0).Some? && (word ==> HasWordForm(Funct3(w)))
    ensures Parse(w).value
         == OpImm(ParseOp(Funct3(w), 0).value, word, RegIndex(RdField(w)), RegIndex(Rs1Field(w)), ImmediateI(w))
  {
    hide Opcode, Funct3, Funct7, RdField, Rs1Field, RegIndex, ImmediateI, ParseAccess, ParseCondition;
    if word {} else {}
  }

  lemma RebuildPlain(w: bv32, word: bool)
    requires Opcode(w) == (if word then 0x1B else 0x13) && !IsShift(Funct3(w)) && Parse(w).Some?
    ensures Rebuilt(w)
  {
    hide Parse, Opcode, Funct3, RdField, Rs1Field, RegIndex, WordR;
    hide WordI, WordS, WordB, WordU, WordJ, UpperField, ShiftField, Low32;
    hide OpCode, ParseOp, IsShiftOp, IsShift, HasWordForm, IsWordOp, FitsI, ImmI, ImmediateI;
    PlainByOpcode(w, word);
    OpCodes(Funct3(w), 0);
    ImmediatesAgree(w);
    ImmediatesFit(w);
    Refields(w);
  }

  /** Every legal word but a fence, whose other fields are ignored, is the encoding of what it parses to. */
  lemma EncodeParse(w: bv32)
    requires Parse(w).Some? && !Parse(w).value.Fence?
    ensures Encodable(Parse(w).value) && Encode(Parse(w).value) == w
  {
    hide Parse, Encode, Encodable, Opcode, Funct3, IsShift;
    if Parse(w).value.OpImm? {
      OpImmOpcode(w);
      if IsShift(Funct3(w)) {
        RebuildShifts(w, Opcode(w) == 0x1B);
      } else {
        RebuildPlain(w, Opcode(w) == 0x1B);
      }
    } else if Parse(w).value.Op? {
      RebuildRegisters(w);
    } else {
      OtherOpcodes(w);
      if Opcode(w) == OPCODE_LOAD || Opcode(w) == OPCODE_STORE {
        RebuildAccesses(w);
      } else {
        RebuildTransfers(w);
      }
    }
  }
}
