/** The SYSTEM, FENCE and illegal words, by their encodings. */
module SystemWords {
  import opened Rv64Pkg
  import opened Bits
  import opened Decoder
  import opened Encoders
  import opened Assembler

  function OnlySys(s: SysCtrl): Ctrl { CTRL_IDLE.(sys := s) }

  /** The environment words and returns of the test program generator; a return above the mode is illegal. */
  lemma EnvironmentWords(p: Priv)
    ensures Decode(0x0000_0073, p).ctrl == OnlySys(SYS_IDLE.(isEcall := true))
    ensures Decode(0x0010_0073, p).ctrl == OnlySys(SYS_IDLE.(isEbreak := true))
    ensures Decode(0x3020_0073, p).ctrl
         == OnlySys(if p == M then SYS_IDLE.(isMret := true) else SYS_IDLE.(illegal := true))
    ensures Decode(0x1020_0073, p).ctrl
         == OnlySys(if p == U then SYS_IDLE.(illegal := true) else SYS_IDLE.(isSret := true))
    ensures Decode(0x1050_0073, p).ctrl == OnlySys(SYS_IDLE.(isWfi := true))
  {
    hide ImmI, ImmS, ImmB, ImmU, ImmJ, OpImmAlu, OpAlu, CsrAccessAllowed;
    match p case U => case S => case M =>
  }

  /** The all-zero and the all-one word are illegal. */
  lemma BlankWords(p: Priv)
    ensures Decode(0, p).ctrl == OnlySys(SYS_IDLE.(illegal := true))
    ensures Decode(0xFFFF_FFFF, p).ctrl.sys == SYS_IDLE.(illegal := true)
  {}

  /** Bits 9:8 of a CSR address: 00 for every mode, 01 for S and M, 1x for M. */
  predicate Reaches(p: Priv, csr: bv12) {
    p == M || (csr & 0x200 == 0 && (p == S || csr & 0x100 == 0))
  }

  lemma RankReached(p: Priv, csr: bv12)
    ensures CsrAccessAllowed(p, csr) <==> Reaches(p, csr)
  {
    if csr & 0x200 != 0 {
      if csr & 0x100 != 0 {} else {}
    } else {
      if csr & 0x100 != 0 {} else {}
    }
  }

  lemma CsrWordFields(csr: bv12, rs1: Reg, f3: bv3, rd: Reg)
    ensures var w := WordI(csr as bv32, rs1, f3, rd, 0x73);
      Opcode(w) == 0x73 && Funct3(w) == f3 && CsrField(w) == csr && ImmI(w) == SignExtend12(csr)
      && RegIndex(RdField(w)) == rd && RegIndex(Rs1Field(w)) == rs1
  {
    hide *;
    UnfoldI(csr as bv32, rs1, f3, rd, 0x73);
    DecodeI(csr as bv32, Field(rs1), f3, Field(rd), 0x73);
    TopOfWord(csr as bv32, rs1, f3, rd, 0x73);
    FieldIndex(rd);
    FieldIndex(rs1);
    Masked(csr);
  }

  lemma Masked(csr: bv12)
    ensures ((csr as bv32) & 0xFFF) as bv12 == csr && Field12(csr as bv32) == csr
  {}

  /** A CSR word carries its operation, register numbers and address when the mode reaches the address. */
  lemma CsrWords(csr: bv12, rs1: Reg, f3: bv3, rd: Reg, p: Priv)
    requires f3 != 0
    ensures var d := Decode(WordI(csr as bv32, rs1, f3, rd, 0x73), p);
      d.rs1 == rs1 && d.imm == SignExtend12(csr)
      && d.ctrl == if Reaches(p, csr)
                   then CTRL_IDLE.(wb := WbCtrl(true, rd, WB_ALU), sys := SYS_IDLE.(isCsr := true, csrOp := f3))
                   else CTRL_IDLE.(wb := WbCtrl(false, rd, WB_ALU), sys := SYS_IDLE.(illegal := true, csrOp := f3))
  {
    hide WordI, Opcode, Funct3, CsrField, Funct7, RdField, Rs1Field, Rs2Field, RegIndex, ImmI, SignExtend12;
    hide CsrAccessAllowed, Reaches, OpImmAlu, OpAlu;
    CsrWordFields(csr, rs1, f3, rd);
    RankReached(p, csr);
  }

  lemma SfenceFields(rs2: Reg, rs1: Reg, rd: Reg)
    ensures CsrField(WordR(9, rs2, rs1, 0, rd, 0x73)) & 0xFE0 == 0x120
  {
    hide WordR, RType, Field;
    UnfoldR(9, rs2, rs1, 0, rd, 0x73);
    TopOfR(9, Field(rs2), Field(rs1), Field(rd));
  }

  lemma TopOfR(f7: bv7, rs2: bv5, rs1: bv5, rd: bv5)
    ensures CsrField(RType(f7 as bv32, rs2 as bv32, rs1 as bv32, 0, rd as bv32, 0x73)) & 0xFE0 == (f7 as bv12) << 5
  {}

  /** SFENCE.VMA above U mode. */
  lemma SfenceWords(rs2: Reg, rs1: Reg, rd: Reg, p: Priv)
    ensures Decode(WordR(9, rs2, rs1, 0, rd, 0x73), p).ctrl
         == CTRL_IDLE.(wb := WbCtrl(false, rd, WB_ALU),
                       sys := if p == U then SYS_IDLE.(illegal := true) else SYS_IDLE.(isSfenceVma := true))
  {
    hide WordR, Opcode, Funct3, CsrField, Funct7, RdField, Rs1Field, Rs2Field, RegIndex, ImmI, OpImmAlu, OpAlu;
    FieldsR(9, rs2, rs1, 0, rd, 0x73);
    SfenceFields(rs2, rs1, rd);
  }

  /** Fields for which the decoder has no instruction. */
  predicate Unknown(opcode: bv7, f3: bv3, f7: bv7, f12: bv12, p: Priv) {
    if opcode in {0x37, 0x17, 0x6F, 0x67, 0x63, 0x03, 0x23, 0x13} then false
    else if opcode == 0x1B then f3 !in {0, 1, 5}
    else if opcode == 0x33 then f7 == 1
    else if opcode == 0x3B then f7 == 1 || f3 !in {0, 1, 5}
    else if opcode == 0x0F then f3 !in {0, 1}
    else if opcode == 0x73 then
      if f3 != 0 then !Reaches(p, f12)
      else if f12 == 0x000 || f12 == 0x001 || f12 == 0x105 then false
      else if f12 == 0x302 then p != M
      else if f12 == 0x102 then p == U
      else f7 != 9 || p == U
    else true
  }

  /** The words flagged illegal, M-extension words included, are exactly those without an instruction. */
  lemma IllegalExactly(w: bv32, p: Priv)
    ensures Decode(w, p).ctrl.sys.illegal <==> Unknown(Opcode(w), Funct3(w), Funct7(w), CsrField(w), p)
  {
    hide Opcode, Funct3, CsrField, Funct7, RdField, Rs1Field, Rs2Field, RegIndex, ImmI, ImmS, ImmB, ImmU, ImmJ;
    hide CsrAccessAllowed, Reaches, OpImmAlu, OpAlu;
    RankReached(p, CsrField(w));
    var op := Opcode(w);
    if op == 0x37 {} else if op == 0x17 {} else if op == 0x6F {} else if op == 0x67 {} else if op == 0x63 {}
    else if op == 0x03 {} else if op == 0x23 {} else if op == 0x13 {} else if op == 0x1B {} else if op == 0x33 {}
    else if op == 0x3B {} else if op == 0x0F {} else if op == 0x73 {} else {}
  }

  predicate SameRegisterFunction(u: bv32, w: bv32) {
    Funct3(u) == Funct3(w) && Funct7(u) & 0x20 == Funct7(w) & 0x20 && Funct7(u) != 1 && Funct7(w) != 1
  }

  predicate SameImmediateFunction(u: bv32, w: bv32) {
    Funct3(u) == Funct3(w) && (Funct3(w) == 5 ==> Funct7(u) & 0x20 == Funct7(w) & 0x20)
  }

  /**
    What the decoder does not look at: funct3 of a jump through a register, funct7 of a register operation but for
    bit 30 of the word and the value 1, funct7 of an immediate operation but for that bit in right shifts.
   */
  lemma IgnoredFields(u: bv32, w: bv32, p: Priv)
    requires Opcode(u) == Opcode(w) && RdField(u) == RdField(w)
    ensures Opcode(w) in {0x37, 0x17, 0x6F, 0x67} ==> Decode(u, p).ctrl == Decode(w, p).ctrl
    ensures Opcode(w) in {0x33, 0x3B} && SameRegisterFunction(u, w) ==> Decode(u, p).ctrl == Decode(w, p).ctrl
    ensures Opcode(w) in {0x13, 0x1B} && SameImmediateFunction(u, w) ==> Decode(u, p).ctrl == Decode(w, p).ctrl
  {
    hide Opcode, Funct3, CsrField, Funct7, RdField, Rs1Field, Rs2Field, RegIndex, ImmI, ImmS, ImmB, ImmU, ImmJ;
    hide CsrAccessAllowed;
    var op := Opcode(w);
    if op == 0x37 {} else if op == 0x17 {} else if op == 0x6F {} else if op == 0x67 {} else if op == 0x13 {}
    else if op == 0x1B {} else if op == 0x33 {} else if op == 0x3B {} else {}
  }

  /** Loads, stores and branches carry funct3 whatever it is, and stores and branches write no register. */
  lemma CarriedCodes(w: bv32, p: Priv)
    ensures var c, f3 := Decode(w, p).ctrl, Funct3(w);
      (Opcode(w) == 0x03 ==> c.mem == MemCtrl(true, false, f3) && c.wb == WbCtrl(true, RegIndex(RdField(w)), WB_MEM))
      && (Opcode(w) == 0x23 ==> c.mem == MemCtrl(false, true, f3) && !c.wb.regWrite)
      && (Opcode(w) == 0x63 ==> c.ex.isBranch && c.ex.branchOp == f3 && !c.wb.regWrite && c.mem == MEM_IDLE)
  {
    hide Opcode, Funct3, CsrField, Funct7, RdField, Rs1Field, Rs2Field, RegIndex, ImmI, ImmS, ImmB, ImmU, ImmJ;
    hide CsrAccessAllowed, OpImmAlu, OpAlu;
    var op := Opcode(w);
    if op == 0x03 {} else if op == 0x23 {} else if op == 0x63 {} else {}
  }
}
