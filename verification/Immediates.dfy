/** The decoder's immediates are those of the instruction set. */
module Immediates {
  import opened Bits
  import opened Decoder
  import opened Isa

  lemma NegativeField(x: bv32)
    requires x & 0xFFFF_F000 == 0 && x & 0x800 != 0
    ensures Signed(ZeroExtend32(x), 0x800) == 0xFFFF_FFFF_FFFF_F000 | (x as bv64)
  {
    assert ((x as bv64) ^ 0x800) - 0x800 == 0xFFFF_FFFF_FFFF_F000 | (x as bv64);
  }

  lemma PositiveField(x: bv32)
    requires x & 0xFFFF_F000 == 0 && x & 0x800 == 0
    ensures Signed(ZeroExtend32(x), 0x800) == x as bv64
  {
    assert ((x as bv64) ^ 0x800) - 0x800 == x as bv64;
  }

  lemma ExtendedField(x: bv32)
    requires x & 0xFFFF_F000 == 0
    ensures SignExtend12((x & 0xFFF) as bv12)
         == if x & 0x800 != 0 then 0xFFFF_FFFF_FFFF_F000 | (x as bv64) else x as bv64
  {
    if x & 0x800 != 0 {} else {}
  }

  lemma SignedField(x: bv32)
    requires x & 0xFFFF_F000 == 0
    ensures SignExtend12((x & 0xFFF) as bv12) == Signed(ZeroExtend32(x), 0x800)
  {
    hide *;
    ExtendedField(x);
    if x & 0x800 != 0 {
      NegativeField(x);
    } else {
      PositiveField(x);
    }
  }

  lemma TopField(w: bv32)
    ensures (w >> 20) & 0xFFFF_F000 == 0
  {}

  lemma AgreeI(w: bv32)
    ensures ImmI(w) == ImmediateI(w)
  {
    hide Signed, ZeroExtend32, SignExtend12;
    TopField(w);
    SignedField(w >> 20);
  }

  /** The two pieces of a store offset. */
  function FieldS(w: bv32): bv32 { ((w >> 25) << 5) | ((w >> 7) & 0x1F) }

  lemma PiecesS(w: bv32)
    ensures FieldS(w) & 0xFFFF_F000 == 0
    ensures (((w >> 20) & 0xFE0) | ((w >> 7) & 0x1F)) as bv12 == (FieldS(w) & 0xFFF) as bv12
  {}

  lemma DecodedS(w: bv32)
    ensures ImmS(w) == SignExtend12((((w >> 20) & 0xFE0) | ((w >> 7) & 0x1F)) as bv12)
  {}

  lemma GatheredS(w: bv32)
    ensures ImmediateS(w) == Signed(ZeroExtend32(FieldS(w)), 0x800)
  {}

  lemma AgreeS(w: bv32)
    ensures ImmS(w) == ImmediateS(w)
  {
    hide *;
    DecodedS(w);
    GatheredS(w);
    PiecesS(w);
    SignedField(FieldS(w));
  }

  lemma UpperField(w: bv32)
    ensures (w >> 12) << 12 == w & 0xFFFF_F000
  {}

  lemma NegativeWord(x: bv32)
    requires x & 0x8000_0000 != 0
    ensures Signed(ZeroExtend32(x), 0x8000_0000) == 0xFFFF_FFFF_0000_0000 | (x as bv64)
  {
    assert ((x as bv64) ^ 0x8000_0000) - 0x8000_0000 == 0xFFFF_FFFF_0000_0000 | (x as bv64);
  }

  lemma PositiveWord(x: bv32)
    requires x & 0x8000_0000 == 0
    ensures Signed(ZeroExtend32(x), 0x8000_0000) == x as bv64
  {
    assert ((x as bv64) ^ 0x8000_0000) - 0x8000_0000 == x as bv64;
  }

  lemma SignedWord(x: bv32)
    ensures Signed(ZeroExtend32(x), 0x8000_0000) == SignExtend32(x)
  {
    hide Signed, ZeroExtend32;
    if x & 0x8000_0000 != 0 {
      NegativeWord(x);
    } else {
      PositiveWord(x);
    }
  }

  lemma AgreeU(w: bv32)
    ensures ImmU(w) == ImmediateU(w)
  {
    hide Signed, ZeroExtend32, SignExtend32;
    UpperField(w);
    SignedWord(w & 0xFFFF_F000);
  }

  lemma JoinNothing(x: bv64)
    ensures Join(0, x) == x
  {}

  lemma JoinIs(high: bv64, low: bv64)
    ensures Join(high, low) == high | low
  {}

  lemma PiecesBackB(w: bv32)
    requires SignBit(w)
    ensures FieldB(w) == 0x1000 | BranchBits(w)
  {}

  lemma PiecesOnB(w: bv32)
    requires !SignBit(w)
    ensures FieldB(w) == BranchBits(w)
  {}

  lemma SmallB(w: bv32)
    ensures BranchBits(w) & 0xFFFF_F000 == 0
  {}

  lemma PiecesB(w: bv32)
    ensures FieldB(w) == if SignBit(w) then 0x1000 | BranchBits(w) else BranchBits(w)
    ensures BranchBits(w) & 0xFFFF_F000 == 0
  {
    hide *;
    SmallB(w);
    if SignBit(w) {
      PiecesBackB(w);
    } else {
      PiecesOnB(w);
    }
  }

  lemma ForwardB(x: bv32)
    requires x & 0xFFFF_F000 == 0
    ensures Signed(ZeroExtend32(x), 0x1000) == ZeroExtend32(x)
  {
    assert ((x as bv64) ^ 0x1000) - 0x1000 == x as bv64;
  }

  lemma WrappedB(x: bv32)
    requires x & 0xFFFF_F000 == 0
    ensures Signed(ZeroExtend32(0x1000 | x), 0x1000) == 0xFFFF_FFFF_FFFF_F000 | ZeroExtend32(x)
  {
    assert (((0x1000 | x) as bv64) ^ 0x1000) - 0x1000 == 0xFFFF_FFFF_FFFF_F000 | (x as bv64);
  }

  lemma BackwardB(x: bv32)
    requires x & 0xFFFF_F000 == 0
    ensures Signed(ZeroExtend32(0x1000 | x), 0x1000) == Join(0xFFFF_FFFF_FFFF_F000, ZeroExtend32(x))
  {
    hide *;
    WrappedB(x);
    JoinIs(0xFFFF_FFFF_FFFF_F000, ZeroExtend32(x));
  }

  lemma DecodedB(w: bv32)
    ensures ImmB(w)
         == if SignBit(w) then Join(0xFFFF_FFFF_FFFF_F000, ZeroExtend32(BranchBits(w))) else ZeroExtend32(BranchBits(w))
  {
    hide SignBit, BranchBits, ZeroExtend32, Join;
    JoinNothing(ZeroExtend32(BranchBits(w)));
  }

  lemma GatheredB(w: bv32)
    ensures ImmediateB(w) == Signed(ZeroExtend32(FieldB(w)), 0x1000)
  {}

  lemma AgreeB(w: bv32)
    ensures ImmB(w) == ImmediateB(w)
  {
    hide *;
    DecodedB(w);
    GatheredB(w);
    PiecesB(w);
    if SignBit(w) {
      BackwardB(BranchBits(w));
    } else {
      ForwardB(BranchBits(w));
    }
  }

  lemma PiecesBackJ(w: bv32)
    requires SignBit(w)
    ensures FieldJ(w) == 0x10_0000 | JumpBits(w)
  {}

  lemma PiecesOnJ(w: bv32)
    requires !SignBit(w)
    ensures FieldJ(w) == JumpBits(w)
  {}

  lemma SmallJ(w: bv32)
    ensures JumpBits(w) & 0xFFF0_0000 == 0
  {}

  lemma PiecesJ(w: bv32)
    ensures FieldJ(w) == if SignBit(w) then 0x10_0000 | JumpBits(w) else JumpBits(w)
    ensures JumpBits(w) & 0xFFF0_0000 == 0
  {
    hide *;
    SmallJ(w);
    if SignBit(w) {
      PiecesBackJ(w);
    } else {
      PiecesOnJ(w);
    }
  }

  lemma ForwardJ(x: bv32)
    requires x & 0xFFF0_0000 == 0
    ensures Signed(ZeroExtend32(x), 0x10_0000) == ZeroExtend32(x)
  {
    assert ((x as bv64) ^ 0x10_0000) - 0x10_0000 == x as bv64;
  }

  lemma WrappedJ(x: bv32)
    requires x & 0xFFF0_0000 == 0
    ensures Signed(ZeroExtend32(0x10_0000 | x), 0x10_0000) == 0xFFFF_FFFF_FFF0_0000 | ZeroExtend32(x)
  {
    assert (((0x10_0000 | x) as bv64) ^ 0x10_0000) - 0x10_0000 == 0xFFFF_FFFF_FFF0_0000 | (x as bv64);
  }

  lemma BackwardJ(x: bv32)
    requires x & 0xFFF0_0000 == 0
    ensures Signed(ZeroExtend32(0x10_0000 | x), 0x10_0000) == Join(0xFFFF_FFFF_FFF0_0000, ZeroExtend32(x))
  {
    hide *;
    WrappedJ(x);
    JoinIs(0xFFFF_FFFF_FFF0_0000, ZeroExtend32(x));
  }

  lemma DecodedJ(w: bv32)
    ensures ImmJ(w)
         == if SignBit(w) then Join(0xFFFF_FFFF_FFF0_0000, ZeroExtend32(JumpBits(w))) else ZeroExtend32(JumpBits(w))
  {
    hide SignBit, JumpBits, ZeroExtend32, Join;
    JoinNothing(ZeroExtend32(JumpBits(w)));
  }

  lemma GatheredJ(w: bv32)
    ensures ImmediateJ(w) == Signed(ZeroExtend32(FieldJ(w)), 0x10_0000)
  {}

  lemma AgreeJ(w: bv32)
    ensures ImmJ(w) == ImmediateJ(w)
  {
    hide *;
    DecodedJ(w);
    GatheredJ(w);
    PiecesJ(w);
    if SignBit(w) {
      BackwardJ(JumpBits(w));
    } else {
      ForwardJ(JumpBits(w));
    }
  }

  /** Two formulations of the five immediates: concatenation with sign fill, and gathered pieces as signed numbers. */
  lemma ImmediatesAgree(w: bv32)
    ensures ImmI(w) == ImmediateI(w) && ImmS(w) == ImmediateS(w) && ImmB(w) == ImmediateB(w)
    ensures ImmU(w) == ImmediateU(w) && ImmJ(w) == ImmediateJ(w)
  {
    hide *;
    AgreeI(w);
    AgreeS(w);
    AgreeB(w);
    AgreeU(w);
    AgreeJ(w);
  }
}
