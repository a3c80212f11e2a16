/** What the execute stage computes, in terms of unsigned and two's complement values and of bits. */
module AluMeaning {
  import opened Rv64Pkg
  import opened Bits
  import opened BitString
  import opened BitArithmetic
  import opened Execute
  import opened WordOps

  /** A shift amount is taken modulo the width. */
  function Shift64(b: bv64): (s: nat)
    ensures s < 64
  {
    Value(b) % 64
  }

  function Shift32(b: bv64): (s: nat)
    ensures s < 32
  {
    Value(b) % 32
  }

  /** r is the 64-bit result of op on a and b. */
  ghost predicate Computes(op: AluOp, a: bv64, b: bv64, r: bv64) {
    match op
    case AluAdd => Value(r) == (Value(a) + Value(b)) % Pow2(64)
    case AluSub => Value(r) == (Value(a) - Value(b)) % Pow2(64)
    case AluSll => forall i | 0 <= i < 64 :: Bit(r, i) <==> i >= Shift64(b) && Bit(a, i - Shift64(b))
    case AluSrl => forall i | 0 <= i < 64 :: Bit(r, i) <==> i + Shift64(b) < 64 && Bit(a, i + Shift64(b))
    case AluSra =>
      forall i | 0 <= i < 64 :: Bit(r, i) <==> Bit(a, if i + Shift64(b) < 64 then i + Shift64(b) else 63)
    case AluSlt => Value(r) == if SignedValue(a) < SignedValue(b) then 1 else 0
    case AluSltu => Value(r) == if Value(a) < Value(b) then 1 else 0
    case AluXor => forall i | 0 <= i < 64 :: Bit(r, i) <==> Bit(a, i) != Bit(b, i)
    case AluOr => forall i | 0 <= i < 64 :: Bit(r, i) <==> Bit(a, i) || Bit(b, i)
    case AluAnd => forall i | 0 <= i < 64 :: Bit(r, i) <==> Bit(a, i) && Bit(b, i)
  }

  /** The high half is copies of bit 31. */
  ghost predicate WordExtended(r: bv64) { forall i | 32 <= i < 64 :: Bit(r, i) <==> Bit(r, 31) }

  /** r is the sign-extended 32-bit result of op on the low halves of a and b. */
  ghost predicate ComputesWord(op: AluOp, a: bv64, b: bv64, r: bv64)
    requires IsWordOp(op)
  {
    WordExtended(r)
    && match op
       case AluAdd => Low(r, 32) == (Low(a, 32) + Low(b, 32)) % Pow2(32)
       case AluSub => Low(r, 32) == (Low(a, 32) - Low(b, 32)) % Pow2(32)
       case AluSll => forall i | 0 <= i < 32 :: Bit(r, i) <==> i >= Shift32(b) && Bit(a, i - Shift32(b))
       case AluSrl => forall i | 0 <= i < 32 :: Bit(r, i) <==> i + Shift32(b) < 32 && Bit(a, i + Shift32(b))
       case AluSra =>
         forall i | 0 <= i < 32 :: Bit(r, i) <==> Bit(a, if i + Shift32(b) < 32 then i + Shift32(b) else 31)
  }

  // Shift amounts

  lemma ShiftsAreLow(b: bv64)
    ensures Shift64(b) == Low(b, 6) && Shift32(b) == Low(b, 5)
  {
    hide Low, Pow2;
    ValueSplit(b, 6);
    ValueSplit(b, 5);
    SmallPowers();
    Pow2Steps(5);
  }

  lemma FiveBitMasks(b: bv64)
    ensures FiveBits(b) & 32 == 0 && FiveBits(b) & 16 == b & 16 && FiveBits(b) & 8 == b & 8
    ensures FiveBits(b) & 4 == b & 4 && FiveBits(b) & 2 == b & 2 && FiveBits(b) & 1 == b & 1
  {}

  lemma FiveBitAmount(b: bv64)
    ensures Low(FiveBits(b), 6) == Low(b, 5)
  {
    hide *;
    FiveBitMasks(b);
    AmountSteps(b);
    AmountSteps(FiveBits(b));
  }

  // Operations on doublewords

  lemma Subtracted(x: nat, y: nat, z: nat, p: nat)
    requires p > 0 && z < p && x == (z + y) % p && x < p
    ensures z == (x - y) % p
  {
    var q := (z + y) / p;
    assert z + y == p * q + x;
    assert x - y == p * (-q) + z;
    SignedDivMod(z, -q, p, x - y);
  }

  lemma SignedDivMod(a: nat, q: int, p: nat, v: int)
    requires p > 0 && a < p && v == a + p * q
    ensures v % p == a
  {
    var d, r := v / p, v % p;
    assert v == p * d + r;
    assert p * (d - q) == p * d - p * q;
    SmallMultiple(p, d - q, a - r);
  }

  /** Subtraction is subtraction modulo 2^n of the n low bits. */
  lemma SubIsModular(a: bv64, b: bv64, n: nat)
    requires n <= 64
    ensures Low(Sub(a, b), n) == (Low(a, n) - Low(b, n)) % Pow2(n)
  {
    hide *;
    SubLow(a, b, n);
    LowBound(a, n);
    LowBound(Sub(a, b), n);
    Subtracted(Low(a, n), Low(b, n), Low(Sub(a, b), n), Pow2(n));
  }

  lemma ShiftBits(a: bv64, b: bv64, i: nat)
    requires i < 64
    ensures Bit(Sll(a, b), i) <==> i >= Shift64(b) && Bit(a, i - Shift64(b))
    ensures Bit(Srl(a, b), i) <==> i + Shift64(b) < 64 && Bit(a, i + Shift64(b))
    ensures Bit(Sra(a, b), i) <==> Bit(a, if i + Shift64(b) < 64 then i + Shift64(b) else 63)
  {
    hide *;
    ShiftsAreLow(b);
    SllBits(a, b, i);
    SrlBits(a, b, i);
    SraBits(a, b, i);
  }

  lemma NamedShifts(a: bv64, b: bv64)
    ensures Alu(AluSll, a, b) == Sll(a, b) && Alu(AluSrl, a, b) == Srl(a, b) && Alu(AluSra, a, b) == Sra(a, b)
  {
    hide Sll, Srl, Sra;
  }

  lemma Shifts(op: AluOp, a: bv64, b: bv64)
    requires op == AluSll || op == AluSrl || op == AluSra
    ensures Computes(op, a, b, Alu(op, a, b))
  {
    hide Alu, Low, Bit, Sll, Srl, Sra, Shift64;
    NamedShifts(a, b);
    forall i: nat | i < 64
      ensures Bit(Sll(a, b), i) <==> i >= Shift64(b) && Bit(a, i - Shift64(b))
      ensures Bit(Srl(a, b), i) <==> i + Shift64(b) < 64 && Bit(a, i + Shift64(b))
      ensures Bit(Sra(a, b), i) <==> Bit(a, if i + Shift64(b) < 64 then i + Shift64(b) else 63)
    {
      ShiftBits(a, b, i);
    }
  }

  lemma Named(a: bv64, b: bv64)
    ensures Alu(AluXor, a, b) == Xor(a, b) && Alu(AluOr, a, b) == Or(a, b) && Alu(AluAnd, a, b) == And(a, b)
  {}

  lemma Bitwise(op: AluOp, a: bv64, b: bv64)
    requires op == AluXor || op == AluOr || op == AluAnd
    ensures Computes(op, a, b, Alu(op, a, b))
  {
    hide Bit, Alu, Xor, Or, And;
    Named(a, b);
    forall i: nat | i < 64
      ensures Bit(And(a, b), i) == (Bit(a, i) && Bit(b, i))
      ensures Bit(Or(a, b), i) == (Bit(a, i) || Bit(b, i))
      ensures Bit(Xor(a, b), i) == (Bit(a, i) != Bit(b, i))
    {
      BitOps(a, b, i);
    }
  }

  lemma Compares(op: AluOp, a: bv64, b: bv64)
    requires op == AluSlt || op == AluSltu
    ensures Computes(op, a, b, Alu(op, a, b))
  {
    ValueOrder(a, b);
    SignedValueOrder(a, b);
    BitValues();
    hide Value, SignedValue, SignedLess;
  }

  lemma Adds(op: AluOp, a: bv64, b: bv64)
    requires op == AluAdd || op == AluSub
    ensures Computes(op, a, b, Alu(op, a, b))
  {
    hide Low, Pow2, Add, Sub;
    AddLow(a, b, 64);
    SubIsModular(a, b, 64);
  }

  /** Each ALU operation by its meaning on values and bits. */
  lemma AluComputes(op: AluOp, a: bv64, b: bv64)
    ensures Computes(op, a, b, Alu(op, a, b))
  {
    hide Computes, Alu;
    match op
    case AluAdd => Adds(op, a, b);
    case AluSub => Adds(op, a, b);
    case AluSll => Shifts(op, a, b);
    case AluSrl => Shifts(op, a, b);
    case AluSra => Shifts(op, a, b);
    case AluSlt => Compares(op, a, b);
    case AluSltu => Compares(op, a, b);
    case AluXor => Bitwise(op, a, b);
    case AluOr => Bitwise(op, a, b);
    case AluAnd => Bitwise(op, a, b);
  }

  // Word operations

  function WordOf(z: bv64): bv64 {
    if z & 0x8000_0000 != 0 then 0xFFFF_FFFF_0000_0000 | (z & 0xFFFF_FFFF) else z & 0xFFFF_FFFF
  }

  lemma ExtendedWord(z: bv64)
    ensures SignExtend32((z & 0xFFFF_FFFF) as bv32) == WordOf(z)
    ensures ZeroExtend32((z & 0xFFFF_FFFF) as bv32) == z & 0xFFFF_FFFF
  {}

  lemma ShiftedWord(z: bv64)
    ensures Sra(z << 32, 32) == WordOf(z) && Srl(z << 32, 32) == z & 0xFFFF_FFFF && Sll(z, 32) == z << 32
  {
    if z & 0x8000_0000 != 0 {} else {}
  }

  lemma LowHalf(z: bv64)
    ensures Low32(z) == (z & 0xFFFF_FFFF) as bv32
  {}

  lemma Extensions(z: bv64)
    ensures SignExtend32(Low32(z)) == Sra(Sll(z, 32), 32) && ZeroExtend32(Low32(z)) == Srl(Sll(z, 32), 32)
  {
    hide *;
    LowHalf(z);
    ExtendedWord(z);
    ShiftedWord(z);
  }

  lemma Amount32()
    ensures Low(32, 6) == 32
  {
    AmountSteps(32);
    hide Low;
  }

  lemma ExtendedBits(z: bv64, i: nat)
    requires i < 64
    ensures Bit(SignExtend32(Low32(z)), i) <==> Bit(z, if i < 32 then i else 31)
    ensures Bit(ZeroExtend32(Low32(z)), i) <==> i < 32 && Bit(z, i)
  {
    hide *;
    Extensions(z);
    Amount32();
    SraBits(Sll(z, 32), 32, i);
    SrlBits(Sll(z, 32), 32, i);
    SllBits(z, 32, if i < 32 then i + 32 else 63);
  }

  lemma WordIsExtended(z: bv64)
    ensures WordExtended(SignExtend32(Low32(z)))
  {
    hide Bit, SignExtend32, Low32;
    forall i | 31 <= i < 64
      ensures Bit(SignExtend32(Low32(z)), i) <==> Bit(z, 31)
    {
      ExtendedBits(z, i);
    }
  }

  lemma WordKeepsLow(z: bv64)
    ensures Low(SignExtend32(Low32(z)), 32) == Low(z, 32)
  {
    hide *;
    forall i | 0 <= i < 32
      ensures Bit(SignExtend32(Low32(z)), i) == Bit(z, i)
    {
      ExtendedBits(z, i);
    }
    SameBitsSameLow(SignExtend32(Low32(z)), z, 32);
  }

  lemma WordLeft(a: bv64, b: bv64, i: nat)
    requires i < 32
    ensures Bit(SignExtend32(Low32(Sll(a, FiveBits(b)))), i) <==> i >= Shift32(b) && Bit(a, i - Shift32(b))
  {
    hide *;
    ShiftsAreLow(b);
    FiveBitAmount(b);
    ExtendedBits(Sll(a, FiveBits(b)), i);
    SllBits(a, FiveBits(b), i);
  }

  lemma WordRight(a: bv64, b: bv64, i: nat)
    requires i < 32
    ensures Bit(SignExtend32(Low32(Srl(ZeroExtend32(Low32(a)), FiveBits(b)))), i)
       <==> i + Shift32(b) < 32 && Bit(a, i + Shift32(b))
  {
    hide *;
    var x := ZeroExtend32(Low32(a));
    ShiftsAreLow(b);
    FiveBitAmount(b);
    ExtendedBits(Srl(x, FiveBits(b)), i);
    SrlBits(x, FiveBits(b), i);
    ExtendedBits(a, i + Shift32(b));
  }

  lemma WordSignedRight(a: bv64, b: bv64, i: nat)
    requires i < 32
    ensures Bit(SignExtend32(Low32(Sra(SignExtend32(Low32(a)), FiveBits(b)))), i)
       <==> Bit(a, if i + Shift32(b) < 32 then i + Shift32(b) else 31)
  {
    hide *;
    var x := SignExtend32(Low32(a));
    ShiftsAreLow(b);
    FiveBitAmount(b);
    ExtendedBits(Sra(x, FiveBits(b)), i);
    SraBits(x, FiveBits(b), i);
    ExtendedBits(a, i + Shift32(b));
  }

  lemma WordShifts(op: AluOp, a: bv64, b: bv64)
    requires op == AluSll || op == AluSrl || op == AluSra
    ensures ComputesWord(op, a, b, WordResult(op, a, b))
  {
    hide Low, Bit, Shift32, SignExtend32, ZeroExtend32, Low32, FiveBits, Sll, Srl, Sra, Add, Sub, SignedLess;
    hide WordExtended;
    WordIsExtended(Alu(op, WordOperandA(op, a), WordOperandB(op, b)));
    forall i: nat | i < 32
      ensures op == AluSll ==> (Bit(WordResult(op, a, b), i) <==> i >= Shift32(b) && Bit(a, i - Shift32(b)))
      ensures op == AluSrl ==> (Bit(WordResult(op, a, b), i) <==> i + Shift32(b) < 32 && Bit(a, i + Shift32(b)))
      ensures op == AluSra ==>
        (Bit(WordResult(op, a, b), i) <==> Bit(a, if i + Shift32(b) < 32 then i + Shift32(b) else 31))
    {
      WordLeft(a, b, i);
      WordRight(a, b, i);
      WordSignedRight(a, b, i);
    }
  }

  lemma WordAdds(op: AluOp, a: bv64, b: bv64)
    requires op == AluAdd || op == AluSub
    ensures ComputesWord(op, a, b, WordResult(op, a, b))
  {
    hide Low, Pow2, Add, Sub, SignExtend32, Low32, WordExtended;
    WordIsExtended(Alu(op, a, b));
    WordKeepsLow(Alu(op, a, b));
    AddLow(a, b, 32);
    SubIsModular(a, b, 32);
  }

  /** Each word operation by its meaning on the low halves. */
  lemma WordComputes(op: AluOp, a: bv64, b: bv64)
    requires IsWordOp(op)
    ensures ComputesWord(op, a, b, WordResult(op, a, b))
  {
    hide ComputesWord, WordResult;
    if op == AluAdd || op == AluSub {
      WordAdds(op, a, b);
    } else {
      WordShifts(op, a, b);
    }
  }

  // Branches and the program counter

  /** The comparison a branch makes, by its funct3 field. */
  lemma BranchCompares(f3: bv3, a: bv64, b: bv64)
    ensures BranchTaken(true, f3, a, b)
       <==> if f3 == 0 then Value(a) == Value(b)
            else if f3 == 1 then Value(a) != Value(b)
            else if f3 == 4 then SignedValue(a) < SignedValue(b)
            else if f3 == 5 then SignedValue(a) >= SignedValue(b)
            else if f3 == 6 then Value(a) < Value(b)
            else f3 == 7 && Value(a) >= Value(b)
  {
    ValueOrder(a, b);
    SignedValueOrder(a, b);
    hide Value, SignedValue, SignedLess;
  }

  lemma PcIsSum(pc: bv64)
    ensures PcPlus4(pc) == Add(pc, 4)
  {}

  lemma Four()
    ensures Value(4) == 4
  {
    FourSteps();
    LowZero(61);
    hide Tail, Odd;
    assert Low(4, 64) == 2 * Low(2, 63);
    assert Low(2, 63) == 2 * Low(1, 62);
    assert Low(1, 62) == 2 * Low(0, 61) + 1;
  }

  lemma FourSteps()
    ensures Tail(4) == 2 && Tail(2) == 1 && Tail(1) == 0 && !Odd(4) && !Odd(2) && Odd(1)
  {}

  /** The following instruction is four bytes on, modulo the address width. */
  lemma PcAdvances(pc: bv64)
    ensures Value(PcPlus4(pc)) == (Value(pc) + 4) % Pow2(64)
  {
    hide Low, Pow2, Add, PcPlus4;
    PcIsSum(pc);
    AddLow(pc, 4, 64);
    Four();
  }
}
