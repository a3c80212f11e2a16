/** The datapath of the core used for one instruction at a time, without a pipeline. */
module Sequential {
  import opened Rv64Pkg
  import opened Bits
  import opened Lanes
  import opened ByteMemory
  import opened Decoder
  import opened Execute
  import opened MemStage
  import opened PipeRegs
  import opened WriteBack
  import opened RichardCore
  import opened Isa
  import opened Immediates

  /** A decoded instruction with its source registers as read from regs. */
  function Latched(regs: Regs, pc: bv64, w: bv32): IdEx {
    var d := Decode(w, M);
    IdEx(w, pc, ReadReg(regs, d.rs1), ReadReg(regs, d.rs2), d.rs1, d.rs2, d.imm, d.ctrl)
  }

  /** The instruction with its operands, as the execute stage should see it. */
  function Issued(h: Hart, w: bv32): IdEx { Latched(h.regs, h.pc, w) }

  function Executed(h: Hart, w: bv32): ExMem {
    var q := Issued(h, w);
    ExOutput(q, q.rs1Data, q.rs2Data)
  }

  /** The harness answers a read request with the doubleword around the address. */
  function BusRead(m: Bytes, q: ExMem): bv64 {
    if ReadRequest(q.mem, q.aluResult) then ReadU64(m, Aligned(q.aluResult)) else 0
  }

  function Accessed(h: Hart, w: bv32): MemWb {
    var q := Executed(h, w);
    MemOutput(q, BusRead(h.mem, q))
  }

  function BusStore(m: Bytes, q: ExMem): Bytes {
    if WriteRequest(q.mem, q.aluResult) && Lane(q.aluResult) + SizeBytes(q.mem.memSize) <= 8 then
      BusWrite(m, q.aluResult, BusWriteData(q.mem, q.aluResult, q.rs2Data), q.mem.memSize)
    else m
  }

  /** The same state change as the sequential machine, computed by the datapath. */
  function DatapathNext(h: Hart, w: bv32): Hart {
    var q, r := Executed(h, w), Accessed(h, w);
    Hart(
      if q.branchTaken then q.branchTarget else PcPlus4(h.pc),
      if r.wb.regWrite then WriteReg(h.regs, r.wb.rd, Selected(r)) else h.regs,
      BusStore(h.mem, q))
  }

  // Decoding of legal words

  /** No CSR access, no trap, no return. */
  predicate Benign(s: SysCtrl) {
    !s.isCsr && !s.illegal && !s.isEcall && !s.isEbreak && !s.isMret && !s.isSret
  }

  lemma DecodeControls(w: bv32, p: Priv)
    requires Parse(w).Some?
    ensures var i, c := Parse(w).value, Decode(w, p).ctrl;
      Benign(c.sys)
      && c.mem.isLoad == i.Load? && c.mem.isStore == i.Store?
      && c.wb.regWrite == WritesRd(i) && (WritesRd(i) ==> c.wb.rd == i.rd)
      && c.wb.wbSel == (if i.Load? then WB_MEM else if i.Jal? || i.Jalr? then WB_PC4 else WB_ALU)
      && c.ex.isJump == (i.Jal? || i.Jalr?) && c.ex.isBranch == i.Branch?
  {
    hide RegIndex, ImmI, ImmS, ImmB, ImmU, ImmJ, ParseAccess, DecodeSystem;
    hide ImmediateI, ImmediateS, ImmediateB, ImmediateU, ImmediateJ;
    var op := Opcode(w);
    if op == OPCODE_LUI {} else if op == OPCODE_AUIPC {} else if op == OPCODE_JAL {} else if op == OPCODE_JALR {}
    else if op == OPCODE_BRANCH {} else if op == OPCODE_LOAD {} else if op == OPCODE_STORE {}
    else if op == OPCODE_OP_IMM {} else if op == OPCODE_OP_IMM_32 {} else if op == OPCODE_OP {}
    else if op == OPCODE_OP_32 {} else {}
  }

  /** The operands, immediate and operation that an instruction needs, for all but the immediate operations. */
  predicate OperandsOf(i: Instr, d: Decoded) {
    var x := d.ctrl.ex;
    match i
    case Lui(_, imm) => d.rs1 == 0 && d.imm == imm && x == EX_IDLE.(src2Imm := true)
    case Auipc(_, imm) => d.imm == imm && x == EX_IDLE.(src1Pc := true, src2Imm := true)
    case Jal(_, offset) => d.imm == offset && x == EX_IDLE.(src1Pc := true, src2Imm := true, isJump := true)
    case Jalr(_, rs1, offset) => d.rs1 == rs1 && d.imm == offset && x == EX_IDLE.(src2Imm := true, isJump := true)
    case Branch(c, rs1, rs2, offset) =>
      d.rs1 == rs1 && d.rs2 == rs2 && d.imm == offset && ParseCondition(x.branchOp) == Some(c)
      && x == EX_IDLE.(src1Pc := true, src2Imm := true, isBranch := true, branchOp := x.branchOp)
    case Load(_, _, _, rs1, offset) => d.rs1 == rs1 && d.imm == offset && x == EX_IDLE.(src2Imm := true)
    case Store(_, rs1, rs2, offset) =>
      d.rs1 == rs1 && d.rs2 == rs2 && d.imm == offset && x == EX_IDLE.(src2Imm := true)
    case Op(op, word, _, rs1, rs2) =>
      d.rs1 == rs1 && d.rs2 == rs2 && x == EX_IDLE.(aluOp := op, isWordOp := word)
    case Fence => x == EX_IDLE
    case OpImm(_, _, _, _, _) => true
  }

  lemma OpOperands(i: Instr, d: Decoded)
    requires i.Op? && OperandsOf(i, d)
    ensures d.rs1 == i.rs1 && d.rs2 == i.rs2 && d.ctrl.ex == EX_IDLE.(aluOp := i.op, isWordOp := i.word)
  {}

  lemma DecodeTransfers(w: bv32, p: Priv)
    requires Parse(w).Some?
    requires Opcode(w) == OPCODE_JAL || Opcode(w) == OPCODE_JALR || Opcode(w) == OPCODE_BRANCH
    ensures OperandsOf(Parse(w).value, Decode(w, p))
  {
    hide RegIndex, ImmI, ImmS, ImmB, ImmU, ImmJ, ParseAccess, DecodeSystem;
    hide ImmediateI, ImmediateS, ImmediateB, ImmediateU, ImmediateJ;
    ImmediatesAgree(w);
    var op := Opcode(w);
    if op == OPCODE_JAL {} else if op == OPCODE_JALR {} else {}
  }

  lemma DecodeAccesses(w: bv32, p: Priv)
    requires Parse(w).Some? && (Opcode(w) == OPCODE_LOAD || Opcode(w) == OPCODE_STORE)
    ensures OperandsOf(Parse(w).value, Decode(w, p))
  {
    hide RegIndex, ImmI, ImmS, ImmB, ImmU, ImmJ, ParseAccess, DecodeSystem;
    hide ImmediateI, ImmediateS, ImmediateB, ImmediateU, ImmediateJ;
    ImmediatesAgree(w);
    if Opcode(w) == OPCODE_LOAD {} else {}
  }

  lemma DecodeUppers(w: bv32, p: Priv)
    requires Parse(w).Some? && (Opcode(w) == OPCODE_LUI || Opcode(w) == OPCODE_AUIPC)
    ensures OperandsOf(Parse(w).value, Decode(w, p))
  {
    hide RegIndex, ImmI, ImmS, ImmB, ImmU, ImmJ, ParseAccess, DecodeSystem;
    hide ImmediateI, ImmediateS, ImmediateB, ImmediateU, ImmediateJ;
    ImmediatesAgree(w);
    if Opcode(w) == OPCODE_LUI {} else {}
  }

  lemma DecodeOps(w: bv32, p: Priv)
    requires Parse(w).Some? && (Opcode(w) == OPCODE_OP || Opcode(w) == OPCODE_OP_32)
    ensures OperandsOf(Parse(w).value, Decode(w, p))
  {
    hide RegIndex, ImmI, ImmS, ImmB, ImmU, ImmJ, ParseAccess, DecodeSystem;
    hide ImmediateI, ImmediateS, ImmediateB, ImmediateU, ImmediateJ;
    if Opcode(w) == OPCODE_OP {} else {}
  }

  lemma DecodeOthers(w: bv32, p: Priv)
    requires Parse(w).Some?
    requires Opcode(w) == OPCODE_OP_IMM || Opcode(w) == OPCODE_OP_IMM_32 || Opcode(w) == OPCODE_MISC_MEM
    ensures OperandsOf(Parse(w).value, Decode(w, p))
  {
    hide RegIndex, ImmI, ImmS, ImmB, ImmU, ImmJ, ParseAccess, DecodeSystem;
    hide ImmediateI, ImmediateS, ImmediateB, ImmediateU, ImmediateJ;
    if Opcode(w) == OPCODE_OP_IMM {} else if Opcode(w) == OPCODE_OP_IMM_32 {} else {}
  }

  lemma LegalOpcode(w: bv32)
    requires Parse(w).Some?
    ensures Opcode(w) in {OPCODE_LUI, OPCODE_AUIPC, OPCODE_JAL, OPCODE_JALR, OPCODE_BRANCH, OPCODE_LOAD, OPCODE_STORE,
                          OPCODE_OP_IMM, OPCODE_OP_IMM_32, OPCODE_OP, OPCODE_OP_32, OPCODE_MISC_MEM}
  {
    hide RegIndex, ParseAccess, ParseOpImm, ParseOp, ParseCondition;
  }

  /** Operand selection of everything but the register-immediate operations. */
  lemma DecodeOperands(w: bv32, p: Priv)
    requires Parse(w).Some?
    ensures OperandsOf(Parse(w).value, Decode(w, p))
  {
    hide Parse, Decode, OperandsOf, Opcode;
    var op := Opcode(w);
    if op == OPCODE_JAL || op == OPCODE_JALR || op == OPCODE_BRANCH {
      DecodeTransfers(w, p);
    } else if op == OPCODE_LOAD || op == OPCODE_STORE {
      DecodeAccesses(w, p);
    } else if op == OPCODE_LUI || op == OPCODE_AUIPC {
      DecodeUppers(w, p);
    } else if op == OPCODE_OP || op == OPCODE_OP_32 {
      DecodeOps(w, p);
    } else {
      LegalOpcode(w);
      DecodeOthers(w, p);
    }
  }

  lemma DecodeSizes(w: bv32, p: Priv)
    requires Parse(w).Some?
    ensures var i, m := Parse(w).value, Decode(w, p).ctrl.mem;
      (i.Load? ==> m.memSize != 7 && i.access == ParseAccess(m.memSize & 3) && i.signed == (m.memSize & 4 == 0))
      && (i.Store? ==> m.memSize & 4 == 0 && i.access == ParseAccess(m.memSize))
  {
    hide RegIndex, ImmI, ImmS, ImmB, ImmU, ImmJ, ParseAccess, DecodeSystem;
    hide ImmediateI, ImmediateS, ImmediateB, ImmediateU, ImmediateJ;
    var op := Opcode(w);
    if op == OPCODE_LUI {} else if op == OPCODE_AUIPC {} else if op == OPCODE_JAL {} else if op == OPCODE_JALR {}
    else if op == OPCODE_BRANCH {} else if op == OPCODE_LOAD {} else if op == OPCODE_STORE {}
    else if op == OPCODE_OP_IMM {} else if op == OPCODE_OP_IMM_32 {} else if op == OPCODE_OP {}
    else if op == OPCODE_OP_32 {} else {}
  }

  /** The shift-amount field of an I-type word. */
  function Shamt(w: bv32, word: bool): bv64 {
    if word then ((w >> 20) & 0x1F) as bv64 else ((w >> 20) & 0x3F) as bv64
  }

  predicate IsShiftOp(op: AluOp) { op == AluSll || op == AluSrl || op == AluSra }

  predicate ImmediateOperands(i: Instr, d: Decoded, w: bv32)
    requires i.OpImm?
  {
    d.rs1 == i.rs1 && d.imm == ImmI(w) && d.ctrl.ex == EX_IDLE.(aluOp := i.op, isWordOp := i.word, src2Imm := true)
    && i.imm == if IsShiftOp(i.op) then Shamt(w, i.word) else ImmI(w)
  }

  lemma DecodeOpImm64(w: bv32, p: Priv)
    requires Parse(w).Some? && Opcode(w) == OPCODE_OP_IMM
    ensures Parse(w).value.OpImm? && ImmediateOperands(Parse(w).value, Decode(w, p), w)
  {
    hide RegIndex, ImmI, ImmediateI, DecodeSystem;
    ImmediatesAgree(w);
  }

  lemma DecodeOpImm32(w: bv32, p: Priv)
    requires Parse(w).Some? && Opcode(w) == OPCODE_OP_IMM_32
    ensures Parse(w).value.OpImm? && ImmediateOperands(Parse(w).value, Decode(w, p), w)
  {
    hide RegIndex, ImmI, ImmediateI, DecodeSystem;
    ImmediatesAgree(w);
  }

  lemma OpImmOpcode(w: bv32)
    requires Parse(w).Some? && Parse(w).value.OpImm?
    ensures Opcode(w) == OPCODE_OP_IMM || Opcode(w) == OPCODE_OP_IMM_32
  {
    hide RegIndex, ParseAccess;
  }

  lemma DecodeOpImm(w: bv32, p: Priv)
    requires Parse(w).Some? && Parse(w).value.OpImm?
    ensures ImmediateOperands(Parse(w).value, Decode(w, p), w)
  {
    hide Parse, Decode, ImmediateOperands, Opcode;
    OpImmOpcode(w);
    if Opcode(w) == OPCODE_OP_IMM {
      DecodeOpImm64(w, p);
    } else {
      DecodeOpImm32(w, p);
    }
  }
}
