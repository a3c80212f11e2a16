/** The two-instruction constant loader of the test program generator, run through the datapath. */
module LoadImmediate {
  import opened Rv64Pkg
  import opened Bits
  import opened Decoder
  import opened Encoders
  import opened Isa
  import opened Immediates
  import opened WordOps
  import opened Sequential
  import opened SequentialProof

  /** Rounding to a multiple of 4096 lets the signed low part be added back. */
  function Rounded(imm: bv64): bv64 { imm + 0x800 }

  function TopBits(y: bv64): bv64 { y >> 12 }

  function Upper(imm: bv64): bv64 { TopBits(Rounded(imm)) }

  function LuiWord(rd: bv32, imm20: bv32): bv32 { UType(imm20, rd, 0x37) }
  function AddiWord(rd: bv32, rs1: bv32, imm: bv32): bv32 { IType(imm & 0xFFF, rs1, 0, rd, 0x13) }

  /** The low twelve bits as a signed number. */
  function Lower(imm: bv64): bv32 {
    var low := (imm & 0xFFF) as bv32;
    if low >= 2048 then low - 4096 else low
  }

  function LoadImm(rd: bv32, imm: bv64): seq<bv32> { [LuiWord(rd, Low32(Upper(imm))), AddiWord(rd, rd, Lower(imm))] }

  /** A test program under construction. */
  class Program {
    var words: seq<bv32>

    constructor ()
      ensures words == []
    {
      words := [];
    }

    method EmitLoadImm64(rd: bv32, imm: bv64)
      modifies this
      ensures words == old(words) + LoadImm(rd, imm)
    {
      hide LuiWord, AddiWord, Low32, Upper;
      var lower := (imm & 0xFFF) as bv32;
      if lower >= 2048 {
        lower := lower - 4096;
      }
      words := words + [LuiWord(rd, Low32(Upper(imm)))];
      words := words + [AddiWord(rd, rd, lower)];
    }
  }

  // What the two words do

  function LowPart(imm: bv64): bv64 { SignExtend12((imm & 0xFFF) as bv12) }

  /** The constant rounded to a multiple of 4096. */
  function HighPart(imm: bv64): bv64 { Multiple(Rounded(imm)) }

  function Multiple(y: bv64): bv64 { y & 0xFFFF_FFFF_FFFF_F000 }

  lemma LuiParses(imm: bv64, rd: bv5)
    ensures Parse(LoadImm(rd as bv32, imm)[0])
         == Some(Instr.Lui(RegIndex(rd), SignExtend32(Low32(HighPart(imm)))))
  {
    hide RegIndex, SignExtend32, ImmU, ImmediateU;
    ImmediatesAgree(LoadImm(rd as bv32, imm)[0]);
    DecodeU(Low32(Upper(imm)), rd, OPCODE_LUI);
    UpperShifted(imm);
  }

  lemma UpperShifted(imm: bv64)
    ensures InUpper(Low32(Upper(imm))) == Low32(HighPart(imm))
  {
    hide TopBits, Multiple, Rounded, Low32, InUpper;
    TopBitsShifted(Rounded(imm));
  }

  lemma LowTopBits(y: bv64)
    ensures Low32(TopBits(y)) == ((y >> 12) & 0xFFFF_FFFF) as bv32
  {}

  lemma LowMultiple(y: bv64)
    ensures Low32(Multiple(y)) == (y & 0xFFFF_F000) as bv32
  {}

  lemma RawShifted(y: bv64)
    ensures InUpper(((y >> 12) & 0xFFFF_FFFF) as bv32) == (y & 0xFFFF_F000) as bv32
  {}

  lemma TopBitsShifted(y: bv64)
    ensures InUpper(Low32(TopBits(y))) == Low32(Multiple(y))
  {
    hide *;
    LowTopBits(y);
    LowMultiple(y);
    RawShifted(y);
  }

  lemma LowIs(x: bv64)
    ensures Low32(x) == (x & 0xFFFF_FFFF) as bv32
  {}

  lemma AddiParses(imm: bv64, rd: bv5)
    ensures Parse(LoadImm(rd as bv32, imm)[1])
         == Some(OpImm(AluAdd, false, RegIndex(rd), RegIndex(rd), LowPart(imm)))
  {
    hide RegIndex, ImmI, ImmediateI, SignExtend12;
    ImmediatesAgree(LoadImm(rd as bv32, imm)[1]);
    DecodeI(Lower(imm) & 0xFFF, rd, 0, rd, OPCODE_OP_IMM);
    LowerKept(imm);
  }

  lemma LowerKept(imm: bv64)
    ensures (Lower(imm) & 0xFFF & 0xFFF) as bv12 == (imm & 0xFFF) as bv12
  {}

  lemma LoadImmLength(rd: bv32, imm: bv64)
    ensures |LoadImm(rd, imm)| == 2
  {}

  /** The value the pair leaves in its register, whatever the state before. */
  lemma PairValue(h: Hart, rd: bv5, imm: bv64)
    requires rd != 0
    ensures var p := LoadImm(rd as bv32, imm);
      ReadReg(DatapathNext(DatapathNext(h, p[0]), p[1]).regs, RegIndex(rd))
      == Add(SignExtend32(Low32(HighPart(imm))), LowPart(imm))
  {
    hide LoadImm, Parse, DatapathNext, RegIndex, Add, SignExtend32, Low32, HighPart, LowPart, PcPlus4;
    LoadImmLength(rd as bv32, imm);
    var p := LoadImm(rd as bv32, imm);
    LuiParses(imm, rd);
    AddiParses(imm, rd);
    NonZeroIndex(rd);
    DatapathCorrect(h, p[0]);
    DatapathCorrect(Next(h, p[0]), p[1]);
  }

  lemma NonZeroIndex(rd: bv5)
    requires rd != 0
    ensures RegIndex(rd) != 0
  {}

  // Arithmetic of the pair

  /** The rest of the rounded constant, with the rounding taken off. */
  function Rest(y: bv64): bv64 { (y & 0xFFF) - 0x800 }

  lemma LowPartIsRest(imm: bv64)
    ensures LowPart(imm) == Rest(Rounded(imm))
  {
    if imm & 0x800 != 0 {} else {}
  }

  lemma MultipleAndRest(y: bv64)
    ensures Add(Multiple(y), Rest(y)) == y - 0x800
  {
    assert (y & 0xFFFF_FFFF_FFFF_F000) + (y & 0xFFF) == y;
  }

  lemma Unrounded(imm: bv64)
    ensures Rounded(imm) - 0x800 == imm
  {}

  lemma PartsSum(imm: bv64)
    ensures Add(HighPart(imm), LowPart(imm)) == imm
  {
    hide Rounded, Rest, Multiple, Add, LowPart;
    LowPartIsRest(imm);
    MultipleAndRest(Rounded(imm));
    Unrounded(imm);
  }

  lemma AddThenSub(x: bv64, z: bv64)
    ensures Sub(Add(x, z), z) == x
  {
    assert Sub(x + z, z) == x;
  }

  lemma AddCancels(x: bv64, y: bv64, z: bv64)
    ensures Add(x, z) == Add(y, z) <==> x == y
  {
    hide *;
    AddThenSub(x, z);
    AddThenSub(y, z);
  }

  /** The result always has the low half of the constant. */
  lemma PairLowHalf(imm: bv64)
    ensures Low32(Add(SignExtend32(Low32(HighPart(imm))), LowPart(imm))) == Low32(imm)
  {
    hide *;
    var x := Low32(HighPart(imm));
    PartsSum(imm);
    LowAdd(HighPart(imm), LowPart(imm));
    LowAdd(SignExtend32(x), LowPart(imm));
    LowOfSignExtend(x);
  }

  const PAIR_MIN: bv64 := 0xFFFF_FFFF_7FFF_F800
  const PAIR_MAX: bv64 := 0x7FFF_F7FF

  /** Signed range -2^31 - 2^11 .. 2^31 - 2^11 - 1. */
  predicate PairRange(imm: bv64) { !SignedLess(imm, PAIR_MIN) && !SignedLess(PAIR_MAX, imm) }

  lemma FitsNegative(x: bv64)
    requires x & 0x8000_0000 != 0
    ensures High((x & 0xFFFF_FFFF) as bv32) == x <==> x & 0xFFFF_FFFF_8000_0000 == 0xFFFF_FFFF_8000_0000
    ensures x & 0xFFFF_FFFF_8000_0000 != 0
  {}

  lemma FitsPositive(x: bv64)
    requires x & 0x8000_0000 == 0
    ensures ZeroExtend32((x & 0xFFFF_FFFF) as bv32) == x <==> x & 0xFFFF_FFFF_8000_0000 == 0
    ensures x & 0xFFFF_FFFF_8000_0000 != 0xFFFF_FFFF_8000_0000
  {}

  lemma SignOfLow(x: bv64)
    ensures ((x & 0xFFFF_FFFF) as bv32) & 0x8000_0000 != 0 <==> x & 0x8000_0000 != 0
  {}

  predicate Fits(x: bv64) {
    x & 0xFFFF_FFFF_8000_0000 == 0 || x & 0xFFFF_FFFF_8000_0000 == 0xFFFF_FFFF_8000_0000
  }

  lemma Fits32(x: bv64)
    ensures SignExtend32(Low32(x)) == x <==> Fits(x)
  {
    hide SignExtend32, Low32, High, ZeroExtend32;
    LowIs(x);
    SignOfLow(x);
    SignExtendCases((x & 0xFFFF_FFFF) as bv32);
    if x & 0x8000_0000 != 0 {
      FitsNegative(x);
    } else {
      FitsPositive(x);
    }
  }

  lemma RangeOfHighPart(imm: bv64)
    ensures Fits(HighPart(imm)) <==> PairRange(imm)
  {
    hide Fits, Multiple, Rounded, PairRange;
    FitsMultiple(Rounded(imm));
    FitsRounded(imm);
  }

  lemma FitsIs(x: bv64)
    ensures Fits(x) <==> x & 0xFFFF_FFFF_8000_0000 == 0 || x & 0xFFFF_FFFF_8000_0000 == 0xFFFF_FFFF_8000_0000
  {}

  lemma MultipleIs(y: bv64)
    ensures Multiple(y) == y & 0xFFFF_FFFF_FFFF_F000
  {}

  lemma RawMultiple(y: bv64)
    ensures (y & 0xFFFF_FFFF_FFFF_F000) & 0xFFFF_FFFF_8000_0000 == y & 0xFFFF_FFFF_8000_0000
  {}

  lemma FitsMultiple(y: bv64)
    ensures Fits(Multiple(y)) <==> Fits(y)
  {
    hide *;
    MultipleIs(y);
    FitsIs(y);
    FitsIs(y & 0xFFFF_FFFF_FFFF_F000);
    RawMultiple(y);
  }

  lemma RawRounded(imm: bv64)
    ensures (imm + 0x800) & 0xFFFF_FFFF_8000_0000 == 0 <==> imm < 0x7FFF_F800 || imm >= 0xFFFF_FFFF_FFFF_F800
    ensures (imm + 0x800) & 0xFFFF_FFFF_8000_0000 == 0xFFFF_FFFF_8000_0000
       <==> 0xFFFF_FFFF_7FFF_F800 <= imm < 0xFFFF_FFFF_FFFF_F800
  {}

  lemma RoundedIs(imm: bv64)
    ensures Rounded(imm) == imm + 0x800
  {}

  lemma PairRangeIs(imm: bv64)
    ensures PairRange(imm) <==> imm < 0x7FFF_F800 || 0xFFFF_FFFF_7FFF_F800 <= imm
  {
    if Negative(imm) {} else {}
  }

  lemma FitsRounded(imm: bv64)
    ensures Fits(Rounded(imm)) <==> PairRange(imm)
  {
    hide *;
    RoundedIs(imm);
    FitsIs(imm + 0x800);
    RawRounded(imm);
    PairRangeIs(imm);
  }

  /** The pair loads exactly the constants of its range; the rest only modulo 2^32. */
  lemma PairLoads(h: Hart, rd: bv5, imm: bv64)
    requires rd != 0
    ensures var p := LoadImm(rd as bv32, imm);
      var v := ReadReg(DatapathNext(DatapathNext(h, p[0]), p[1]).regs, RegIndex(rd));
      (v == imm <==> PairRange(imm)) && Low32(v) == Low32(imm)
  {
    hide *;
    PairValue(h, rd, imm);
    PairLowHalf(imm);
    PartsSum(imm);
    AddCancels(SignExtend32(Low32(HighPart(imm))), HighPart(imm), LowPart(imm));
    Fits32(HighPart(imm));
    RangeOfHighPart(imm);
  }
}
