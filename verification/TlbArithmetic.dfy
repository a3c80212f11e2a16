/** Masks, page numbers and physical addresses of the TLB as arithmetic. */
module TlbArithmetic {
  import opened Rv64Pkg
  import opened BitString
  import opened BitArithmetic
  import opened Tlb
  import opened PageTable

  // The mask match

  lemma {:induction false} MaskBits(lo: nat, hi: nat, j: nat)
    requires j < 64
    ensures Bit(MaskRange(lo, hi), j) <==> lo <= j < hi
    decreases hi
  {
    hide Bit, Or, OneAt;
    if hi <= lo {
      ZeroBits(j);
    } else {
      MaskBits(lo, hi - 1, j);
      BitOps(MaskRange(lo, hi - 1), OneAt(hi - 1), j);
      OneAtBits(hi - 1, j);
    }
  }

  lemma MaskedBit(x: bv64, y: bv64, lo: nat, hi: nat, j: nat)
    requires j < 64
    ensures Bit(And(Xor(x, y), MaskRange(lo, hi)), j) <==> lo <= j < hi && Bit(x, j) != Bit(y, j)
  {
    hide Bit, And, Xor, MaskRange;
    MaskBits(lo, hi, j);
    BitOps(Xor(x, y), MaskRange(lo, hi), j);
    BitOps(x, y, j);
  }

  /** x and y have the same bits lo to hi - 1. */
  ghost predicate Agree(x: bv64, y: bv64, lo: nat, hi: nat) {
    forall j :: lo <= j < hi ==> Bit(x, j) == Bit(y, j)
  }

  lemma MatchAgrees(x: bv64, y: bv64, lo: nat, hi: nat)
    requires hi <= 64 && SameUnderMask(x, y, MaskRange(lo, hi))
    ensures Agree(x, y, lo, hi)
  {
    hide Bit, And, Xor, MaskRange;
    forall j | lo <= j < hi
      ensures Bit(x, j) == Bit(y, j)
    {
      ZeroBits(j);
      MaskedBit(x, y, lo, hi, j);
    }
  }

  lemma AgreeMatches(x: bv64, y: bv64, lo: nat, hi: nat)
    requires hi <= 64 && Agree(x, y, lo, hi)
    ensures SameUnderMask(x, y, MaskRange(lo, hi))
  {
    hide Bit, And, Xor, MaskRange;
    var z := And(Xor(x, y), MaskRange(lo, hi));
    forall j | 0 <= j < 64
      ensures !Bit(z, j)
    {
      MaskedBit(x, y, lo, hi, j);
    }
    IsZero(z);
  }

  lemma AgreeSameLow(x: bv64, y: bv64, lo: nat, n: nat)
    requires Agree(x, y, lo, lo + n)
    ensures Low(Drop(x, lo), n) == Low(Drop(y, lo), n)
  {
    hide Bit, Low, Drop;
    forall i | 0 <= i < n
      ensures Bit(Drop(x, lo), i) == Bit(Drop(y, lo), i)
    {
      BitDrop(x, lo, i);
      BitDrop(y, lo, i);
    }
    SameBitsSameLow(Drop(x, lo), Drop(y, lo), n);
  }

  lemma SameLowAgrees(x: bv64, y: bv64, lo: nat, n: nat)
    requires Low(Drop(x, lo), n) == Low(Drop(y, lo), n)
    ensures Agree(x, y, lo, lo + n)
  {
    hide Bit, Low, Drop;
    forall j | lo <= j < lo + n
      ensures Bit(x, j) == Bit(y, j)
    {
      SameLowSameBits(Drop(x, lo), Drop(y, lo), n, j - lo);
      BitDrop(x, lo, j - lo);
      BitDrop(y, lo, j - lo);
    }
  }

  /** The masked comparison compares the fields above the mask's lower end. */
  lemma MaskedCompare(x: bv64, y: bv64, lo: nat, hi: nat)
    requires lo <= hi <= 64
    ensures SameUnderMask(x, y, MaskRange(lo, hi)) <==> Low(Drop(x, lo), hi - lo) == Low(Drop(y, lo), hi - lo)
  {
    hide Low, Drop, MaskRange, SameUnderMask, Agree;
    if SameUnderMask(x, y, MaskRange(lo, hi)) {
      MatchAgrees(x, y, lo, hi);
      AgreeSameLow(x, y, lo, hi - lo);
    }
    if Low(Drop(x, lo), hi - lo) == Low(Drop(y, lo), hi - lo) {
      SameLowAgrees(x, y, lo, hi - lo);
      AgreeMatches(x, y, lo, hi);
    }
  }

  /** Dividing a bounded field drops its low bits. */
  lemma LowDivided(x: bv64, k: nat, w: nat)
    ensures Low(x, w) / Pow2(k) == if k <= w then Low(Drop(x, k), w - k) else 0
  {
    hide Low, Drop, Pow2;
    if k <= w {
      LowSplit(x, k, w - k);
      LowBound(x, k);
      DivMod(Low(x, k), Low(Drop(x, k), w - k), Pow2(k), Low(x, w));
    } else {
      LowBound(x, w);
      Pow2Grows(w, k);
      DivMod(Low(x, w), 0, Pow2(k), Low(x, w));
    }
  }

  /** A virtual page number of the mode. */
  function VpnNum(mode: bv4, vpn: bv64): nat { Value(vpn) % Pow2(VpnWidth(mode)) }

  lemma VpnNumIsLow(mode: bv4, vpn: bv64)
    ensures VpnNum(mode, vpn) == Low(vpn, VpnWidth(mode))
  {
    hide Low, Drop, Pow2;
    ValueSplit(vpn, VpnWidth(mode));
  }

  /** The loop-built mask match is equality of page numbers after division by the page size. */
  lemma MaskMatchIsSamePage(mode: bv4, level: Level, x: bv64, y: bv64)
    ensures SameUnderMask(x, y, VpnMask(mode, level)) <==> SamePage(mode, level, VpnNum(mode, x), VpnNum(mode, y))
  {
    hide Bit, Low, Drop, Pow2, MaskRange, SameUnderMask;
    var k, w := level * VpnStride(mode), VpnWidth(mode);
    VpnNumIsLow(mode, x);
    VpnNumIsLow(mode, y);
    LowDivided(x, k, w);
    LowDivided(y, k, w);
    if k <= w {
      MaskedCompare(x, y, k, w);
    } else {
      EmptyMask(x, y, k, w);
    }
  }

  lemma EmptyMask(x: bv64, y: bv64, lo: nat, hi: nat)
    requires hi <= lo && hi <= 64
    ensures SameUnderMask(x, y, MaskRange(lo, hi))
  {
    AgreeMatches(x, y, lo, hi);
  }

  // The page number of an address

  function Shift12(x: bv64): bv64 { x >> 12 }

  lemma EightThenFour(x: bv64)
    ensures Byte(x) >> 4 == Shift12(x)
  {
    assert x >> 8 >> 4 == x >> 12;
  }

  lemma TwelveTails(x: bv64)
    ensures Drop(x, 12) == Shift12(x)
  {
    hide Drop, Byte, Shift12;
    DropByte(x);
    DropDrop(x, 8, 4);
    RightSmall(Byte(x));
    EightThenFour(x);
  }

  /** The field mask of a mode. */
  function FieldMask(mode: bv4): bv64 {
    if mode == MODE_SV32 then 0xF_FFFF
    else if mode == MODE_SV48 then 0xF_FFFF_FFFF
    else if mode == MODE_SV57 then 0x1FFF_FFFF_FFFF
    else 0
  }

  lemma FieldOfAddress(vaddr: bv64, mode: bv4)
    ensures VaddrToVpn(vaddr, mode) == And(Shift12(vaddr), FieldMask(mode))
  {
    if mode == MODE_SV32 {} else if mode == MODE_SV48 {} else if mode == MODE_SV57 {} else {
      assert (vaddr >> 12) & 0 == 0;
    }
  }

  lemma NibbleOnes(x: bv64, n: nat, b: nat)
    requires b < n && n in {4, 5, 8}
    requires if n == 4 then x & 0xF == 0xF else if n == 5 then x & 0x1F == 0x1F else x & 0xFF == 0xFF
    ensures Bit(x, b)
  {
    ByteBit(x, b);
    hide Bit;
    if b == 0 {} else if b == 1 {} else if b == 2 {} else if b == 3 {} else if b == 4 {} else {}
  }

  /** Ones in byte m of a field mask. */
  function FieldByte(mode: bv4, m: nat): nat {
    if 8 * m + 8 <= VpnWidth(mode) then 8 else if 8 * m < VpnWidth(mode) then VpnWidth(mode) - 8 * m else 0
  }

  lemma FieldBytes(mode: bv4, m: nat)
    requires m < 6
    ensures var x, n := Bytes(FieldMask(mode), m), FieldByte(mode, m);
      (n == 8 ==> x & 0xFF == 0xFF) && (n == 4 ==> x & 0xF == 0xF) && (n == 5 ==> x & 0x1F == 0x1F) && n in {0, 4, 5, 8}
  {
    BytesAreShifts(FieldMask(mode));
    if mode == MODE_SV32 {
      if m == 0 {} else if m == 1 {} else if m == 2 {} else {}
    } else if mode == MODE_SV48 {
      if m == 0 {} else if m == 1 {} else if m == 2 {} else if m == 3 {} else if m == 4 {} else {}
    } else if mode == MODE_SV57 {
      if m == 0 {} else if m == 1 {} else if m == 2 {} else if m == 3 {} else if m == 4 {} else {}
    }
  }

  lemma FieldBits(mode: bv4, j: nat)
    requires j < VpnWidth(mode)
    ensures Bit(FieldMask(mode), j)
  {
    hide Bit, Drop, Bytes, FieldMask;
    var m, b := j / 8, j % 8;
    DropBytes(FieldMask(mode), m);
    BitDrop(FieldMask(mode), 8 * m, b);
    FieldBytes(mode, m);
    NibbleOnes(Bytes(FieldMask(mode), m), FieldByte(mode, m), b);
  }

  lemma BitsUnderMask(x: bv64, mask: bv64, n: nat)
    requires forall j :: 0 <= j < n ==> Bit(mask, j)
    ensures forall j :: 0 <= j < n ==> Bit(And(x, mask), j) == Bit(x, j)
  {
    hide *;
    forall j | 0 <= j < n
      ensures Bit(And(x, mask), j) == Bit(x, j)
    {
      BitOps(x, mask, j);
    }
  }

  lemma FieldLow(x: bv64, mode: bv4)
    ensures Low(And(x, FieldMask(mode)), VpnWidth(mode)) == Low(x, VpnWidth(mode))
  {
    hide *;
    forall j | 0 <= j < VpnWidth(mode)
      ensures Bit(FieldMask(mode), j)
    {
      FieldBits(mode, j);
    }
    BitsUnderMask(x, FieldMask(mode), VpnWidth(mode));
    SameBitsSameLow(And(x, FieldMask(mode)), x, VpnWidth(mode));
  }

  lemma VpnBits(mode: bv4, vaddr: bv64)
    ensures Low(VaddrToVpn(vaddr, mode), VpnWidth(mode)) == Low(Drop(vaddr, 12), VpnWidth(mode))
  {
    hide *;
    FieldOfAddress(vaddr, mode);
    TwelveTails(vaddr);
    FieldLow(Shift12(vaddr), mode);
  }

  lemma Pow12()
    ensures Pow2(12) == 4096
  {
    assert Pow2(4) == 16;
    Pow2Add(4, 4);
    Pow2Add(8, 4);
  }

  /** The extracted field is the page number of the address. */
  lemma VpnIsPageNumber(mode: bv4, vaddr: bv64)
    ensures VpnNum(mode, VaddrToVpn(vaddr, mode)) == PageNumber(mode, Value(vaddr))
  {
    hide Low, Drop, Pow2, VaddrToVpn;
    var w, d := VpnWidth(mode), Drop(vaddr, 12);
    VpnNumIsLow(mode, VaddrToVpn(vaddr, mode));
    VpnBits(mode, vaddr);
    ValueSplit(vaddr, 12);
    Pow12();
    LowSplit(d, w, 52 - w);
    LowBound(d, w);
    DivMod(Low(d, w), Low(Drop(d, w), 52 - w), Pow2(w), Low(d, 52));
  }

  // The physical address

  lemma {:induction false} DoublesLow(x: bv64, k: nat, n: nat)
    requires k <= n <= 64
    ensures Low(Doubles(x, k), n) == Pow2(k) * Low(x, n - k)
    decreases k
  {
    hide Low, Double;
    if k > 0 {
      DoublesLow(x, k - 1, n - 1);
      DoubledLow(Doubles(x, k - 1), n);
      DoubledProduct(Pow2(k - 1), Low(x, n - k));
    }
  }

  lemma EightUpFour(ppn: Ppn)
    ensures (ppn << 8) << 4 == PpnBase(ppn)
  {}

  lemma TwelveDoubles(ppn: Ppn)
    ensures Doubles(ppn, 12) == PpnBase(ppn)
  {
    hide Doubles, PpnBase;
    LeftSmall(ppn);
    LeftSmall(ppn << 8);
    DoublesTwice(ppn, 8, 4);
    EightUpFour(ppn);
  }

  lemma PpnSmall(ppn: Ppn)
    ensures Drop(ppn, 48) == 0
  {
    hide Drop, Bytes;
    DropBytes(ppn, 6);
    BytesAreShifts(ppn);
    assert ppn >> 48 == 0;
  }

  /** The page base is 4096 times the page number. */
  lemma PpnBaseValue(ppn: Ppn)
    ensures Value(PpnBase(ppn)) == Value(ppn) * 4096
  {
    hide Low, Drop, Pow2, Doubles;
    TwelveDoubles(ppn);
    DoublesLow(ppn, 12, 64);
    Pow12();
    PpnSmall(ppn);
    LowSplit(ppn, 48, 4);
    LowSplit(ppn, 48, 16);
    LowZero(4);
    LowZero(16);
  }

  lemma MergedBit(base: bv64, v: bv64, s: nat, j: nat)
    requires j < 64
    ensures Bit(Or(And(base, Not(LowMask(s))), And(v, LowMask(s))), j) == if j < s then Bit(v, j) else Bit(base, j)
  {
    hide Bit, And, Or, Not, LowMask;
    LowMaskBits(s, j);
    BitOps(And(base, Not(LowMask(s))), And(v, LowMask(s)), j);
    BitAndNot(base, LowMask(s), j);
    BitOps(v, LowMask(s), j);
  }

  /** Merging under a low mask takes the offset from one number and the rest from the other. */
  lemma MergedValue(base: bv64, v: bv64, s: nat)
    requires s <= 64
    ensures Value(Or(And(base, Not(LowMask(s))), And(v, LowMask(s))))
         == Value(base) - Value(base) % Pow2(s) + Value(v) % Pow2(s)
  {
    hide Bit, Low, Drop, And, Or, Not, LowMask, Pow2;
    var m := Or(And(base, Not(LowMask(s))), And(v, LowMask(s)));
    forall j | 0 <= j < s
      ensures Bit(m, j) == Bit(v, j)
    {
      MergedBit(base, v, s, j);
    }
    SameBitsSameLow(m, v, s);
    forall j | 0 <= j < 64 - s
      ensures Bit(Drop(m, s), j) == Bit(Drop(base, s), j)
    {
      MergedBit(base, v, s, s + j);
      BitDrop(m, s, j);
      BitDrop(base, s, j);
    }
    SameBitsSameLow(Drop(m, s), Drop(base, s), 64 - s);
    LowSplit(m, s, 64 - s);
    LowSplit(base, s, 64 - s);
    ValueSplit(v, s);
    ValueSplit(base, s);
  }

  /** For a level of the mode the shift does not wrap. */
  lemma ShiftFits(mode: bv4, level: Level)
    requires level <= TopLevel(mode)
    ensures PageShift(mode, level) == 12 + level * VpnStride(mode) < 64
  {}

  /** The TLB's address is the reference translation: page base from the leaf, offset from the address. */
  lemma AddressIsTranslation(page: Page, vaddr: bv64)
    requires page.level <= TopLevel(page.mode)
    ensures Value(PhysicalAddress(page, vaddr))
         == Translation(page.mode, Leaf(page.ppn, page.level, page.perms), Value(vaddr))
  {
    hide Low, And, Or, Not, LowMask, Pow2, PpnBase;
    ShiftFits(page.mode, page.level);
    MergedValue(PpnBase(page.ppn), vaddr, PageShift(page.mode, page.level));
    PpnBaseValue(page.ppn);
  }
}
