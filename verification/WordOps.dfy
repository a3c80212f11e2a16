/** Word operations on the 64-bit ALU. */
module WordOps {
  import opened Rv64Pkg
  import opened Bits
  import opened Execute
  import opened Isa

  predicate IsWordOp(op: AluOp) { op in {AluAdd, AluSub, AluSll, AluSrl, AluSra} }

  /** What the execute stage returns for a word operation. */
  function WordResult(op: AluOp, a: bv64, b: bv64): bv64 {
    SignExtend32(Low32(Alu(op, WordOperandA(op, a), WordOperandB(op, b))))
  }

  // Each operation: the low half of the 64-bit result is the 32-bit result of the low halves

  lemma LowAdd(a: bv64, b: bv64)
    ensures Low32(Add(a, b)) == Add32(Low32(a), Low32(b))
  {
    assert Low32(a + b) == Add32((a & 0xFFFF_FFFF) as bv32, (b & 0xFFFF_FFFF) as bv32);
  }

  lemma LowSub(a: bv64, b: bv64)
    ensures Low32(Sub(a, b)) == Sub32(Low32(a), Low32(b))
  {
    assert Low32(a - b) == Sub32((a & 0xFFFF_FFFF) as bv32, (b & 0xFFFF_FFFF) as bv32);
  }

  // Shifts: first on plain operators, then with the left operators named, then the right ones

  lemma Amount(b: bv64)
    ensures b & 0x1F & 0x3F == b & 0x1F
  {}

  lemma RawSll(a: bv64, b: bv64)
    ensures ((a << (b & 0x1F)) & 0xFFFF_FFFF) as bv32
         == ((a & 0xFFFF_FFFF) as bv32) << ((b & 0xFFFF_FFFF) as bv32 & 0x1F)
  {}

  lemma RawSrl(x: bv32, b: bv64)
    ensures (((x as bv64) >> (b & 0x1F)) & 0xFFFF_FFFF) as bv32 == x >> ((b & 0xFFFF_FFFF) as bv32 & 0x1F)
  {}

  /** The complement turns the ones shifted in into zeros. */
  lemma RawSra(x: bv32, b: bv64)
    requires x & 0x8000_0000 != 0
    ensures (!(!(0xFFFF_FFFF_0000_0000 | (x as bv64)) >> (b & 0x1F)) & 0xFFFF_FFFF) as bv32
         == !(!x >> ((b & 0xFFFF_FFFF) as bv32 & 0x1F))
  {}

  lemma LowOfSll(a: bv64, b: bv64)
    ensures Low32(a << (b & 0x1F)) == ((a & 0xFFFF_FFFF) as bv32) << ((b & 0xFFFF_FFFF) as bv32 & 0x1F)
  {
    RawSll(a, b);
  }

  lemma LowOfSrl(x: bv32, b: bv64)
    ensures Low32((x as bv64) >> (b & 0x1F)) == x >> ((b & 0xFFFF_FFFF) as bv32 & 0x1F)
  {
    RawSrl(x, b);
  }

  lemma LowOfSra(x: bv32, b: bv64)
    requires x & 0x8000_0000 != 0
    ensures Low32(!(!(0xFFFF_FFFF_0000_0000 | (x as bv64)) >> (b & 0x1F)))
         == !(!x >> ((b & 0xFFFF_FFFF) as bv32 & 0x1F))
  {
    RawSra(x, b);
  }

  lemma SllOf(a: bv64, b: bv64)
    ensures Sll(a, b & 0x1F) == a << (b & 0x1F)
  {
    Amount(b);
  }

  lemma SrlOf(a: bv64, b: bv64)
    ensures Srl(a, b & 0x1F) == a >> (b & 0x1F)
  {
    Amount(b);
  }

  lemma SraOfNegative(x: bv32, b: bv64)
    ensures Sra(0xFFFF_FFFF_0000_0000 | (x as bv64), b & 0x1F)
         == !(!(0xFFFF_FFFF_0000_0000 | (x as bv64)) >> (b & 0x1F))
  {
    Amount(b);
  }

  lemma SraIsSrl(a: bv64, b: bv64)
    requires a & 0x8000_0000_0000_0000 == 0
    ensures Sra(a, b) == Srl(a, b)
  {}

  lemma Sll32Of(x: bv32, b: bv64)
    ensures Sll32(x, (b & 0xFFFF_FFFF) as bv32) == x << ((b & 0xFFFF_FFFF) as bv32 & 0x1F)
  {}

  lemma Srl32Of(x: bv32, b: bv64)
    ensures Srl32(x, (b & 0xFFFF_FFFF) as bv32) == x >> ((b & 0xFFFF_FFFF) as bv32 & 0x1F)
  {}

  lemma Sra32Of(x: bv32, b: bv64)
    requires x & 0x8000_0000 != 0
    ensures Sra32(x, (b & 0xFFFF_FFFF) as bv32) == !(!x >> ((b & 0xFFFF_FFFF) as bv32 & 0x1F))
  {}

  lemma Sra32IsSrl32(x: bv32, y: bv32)
    requires x & 0x8000_0000 == 0
    ensures Sra32(x, y) == Srl32(x, y)
  {}

  lemma ShiftLeft(a: bv64, b: bv64)
    ensures Low32(Sll(a, b & 0x1F)) == Sll32((a & 0xFFFF_FFFF) as bv32, (b & 0xFFFF_FFFF) as bv32)
  {
    hide *;
    LowOfNamedSll(a, b);
    Sll32Of((a & 0xFFFF_FFFF) as bv32, b);
  }

  lemma LowOfNamedSll(a: bv64, b: bv64)
    ensures Low32(Sll(a, b & 0x1F)) == ((a & 0xFFFF_FFFF) as bv32) << ((b & 0xFFFF_FFFF) as bv32 & 0x1F)
  {
    hide *;
    SllOf(a, b);
    LowOfSll(a, b);
  }

  lemma ShiftRight(x: bv32, b: bv64)
    ensures Low32(Srl(x as bv64, b & 0x1F)) == Srl32(x, (b & 0xFFFF_FFFF) as bv32)
  {
    hide *;
    SrlOf(x as bv64, b);
    LowOfSrl(x, b);
    Srl32Of(x, b);
  }

  lemma ShiftNegative(x: bv32, b: bv64)
    requires x & 0x8000_0000 != 0
    ensures Low32(Sra(0xFFFF_FFFF_0000_0000 | (x as bv64), b & 0x1F)) == Sra32(x, (b & 0xFFFF_FFFF) as bv32)
  {
    hide *;
    LowOfNamedSra(x, b);
    Sra32Of(x, b);
  }

  lemma LowOfNamedSra(x: bv32, b: bv64)
    requires x & 0x8000_0000 != 0
    ensures Low32(Sra(0xFFFF_FFFF_0000_0000 | (x as bv64), b & 0x1F))
         == !(!x >> ((b & 0xFFFF_FFFF) as bv32 & 0x1F))
  {
    hide *;
    SraOfNegative(x, b);
    LowOfSra(x, b);
  }

  lemma WideNegative(x: bv32)
    ensures (0xFFFF_FFFF_0000_0000 | (x as bv64)) & 0x8000_0000_0000_0000 != 0
    ensures (x as bv64) & 0x8000_0000_0000_0000 == 0
    ensures SignExtend32(x) == if x & 0x8000_0000 != 0 then 0xFFFF_FFFF_0000_0000 | (x as bv64) else x as bv64
  {}

  /** The named conversions, written out. */
  lemma Conversions(a: bv64, x: bv32)
    ensures Low32(a) == (a & 0xFFFF_FFFF) as bv32
    ensures ZeroExtend32(x) == x as bv64
    ensures FiveBits(a) == a & 0x1F
  {}

  lemma LowSll(a: bv64, b: bv64)
    ensures Low32(Sll(a, FiveBits(b))) == Sll32(Low32(a), Low32(b))
  {
    hide *;
    Conversions(a, 0);
    Conversions(b, 0);
    ShiftLeft(a, b);
  }

  lemma LowSrl(x: bv32, b: bv64)
    ensures Low32(Srl(ZeroExtend32(x), FiveBits(b))) == Srl32(x, Low32(b))
  {
    hide *;
    Conversions(b, x);
    ShiftRight(x, b);
  }

  lemma LowSra(x: bv32, b: bv64)
    ensures Low32(Sra(SignExtend32(x), FiveBits(b))) == Sra32(x, Low32(b))
  {
    hide *;
    Conversions(b, x);
    WideNegative(x);
    if x & 0x8000_0000 != 0 {
      ShiftNegative(x, b);
    } else {
      ShiftRight(x, b);
      SraIsSrl(x as bv64, b & 0x1F);
      Sra32IsSrl32(x, (b & 0xFFFF_FFFF) as bv32);
    }
  }

  /** The conditioned 64-bit ALU computes the 32-bit operation. */
  lemma WordOperation(op: AluOp, a: bv64, b: bv64)
    requires IsWordOp(op)
    ensures WordResult(op, a, b) == Compute(op, true, a, b)
  {
    hide Low32, SignExtend32, ZeroExtend32, FiveBits, Add, Sub, Sll, Srl, Sra, Add32, Sub32, Sll32, Srl32, Sra32;
    match op
    case AluAdd => LowAdd(a, b);
    case AluSub => LowSub(a, b);
    case AluSll => LowSll(a, b);
    case AluSrl => LowSrl(Low32(a), b);
    case AluSra => LowSra(Low32(a), b);
  }

  predicate IsWordShift(op: AluOp) { op == AluSll || op == AluSrl || op == AluSra }

  /** Only the low half of each operand matters, and only five bits of a shift amount. */
  lemma WordDependsOnLowHalves(op: AluOp, a: bv64, b: bv64, c: bv64, d: bv64)
    requires IsWordOp(op) && Low32(a) == Low32(c)
    requires if IsWordShift(op) then FiveBits(b) == FiveBits(d) else Low32(b) == Low32(d)
    ensures WordResult(op, a, b) == WordResult(op, c, d)
  {
    hide Low32, SignExtend32, FiveBits, Alu, Arith32, WordOperandA;
    WordOperation(op, a, if IsWordShift(op) then d else b);
    WordOperation(op, c, d);
  }
}
