/** Bits and unsigned values of doublewords. */
module BitString {

  // Operators under a name, so that proofs about bits can treat them as opaque

  function Tail(x: bv64): bv64 { x >> 1 }
  predicate Odd(x: bv64) { x & 1 != 0 }
  function Double(x: bv64): bv64 { x << 1 }
  function And(x: bv64, y: bv64): bv64 { x & y }
  function Or(x: bv64, y: bv64): bv64 { x | y }
  function Xor(x: bv64, y: bv64): bv64 { x ^ y }
  function Not(x: bv64): bv64 { !x }
  function Minus1(x: bv64): bv64 { x - 1 }

  predicate Bit(x: bv64, i: nat) { if i == 0 then Odd(x) else Bit(Tail(x), i - 1) }

  /** x without its k low bits. */
  function Drop(x: bv64, k: nat): bv64 { if k == 0 then x else Drop(Tail(x), k - 1) }

  /** The doubleword with only bit i set. */
  function OneAt(i: nat): bv64 { if i == 0 then 1 else Double(OneAt(i - 1)) }

  function Pow2(n: nat): (p: nat)
    ensures p > 0
  {
    if n == 0 then 1 else 2 * Pow2(n - 1)
  }

  /** Unsigned value of the n low bits. */
  function Low(x: bv64, n: nat): nat {
    if n == 0 then 0 else 2 * Low(Tail(x), n - 1) + if Odd(x) then 1 else 0
  }

  function Value(x: bv64): nat { Low(x, 64) }

  // Bits of the operators

  lemma TailAnd(x: bv64, y: bv64)
    ensures Tail(And(x, y)) == And(Tail(x), Tail(y)) && Odd(And(x, y)) == (Odd(x) && Odd(y))
  {
    assert Tail(x & y) == And(x >> 1, y >> 1);
    assert Odd(x & y) == (Odd(x) && Odd(y));
  }

  lemma TailOr(x: bv64, y: bv64)
    ensures Tail(Or(x, y)) == Or(Tail(x), Tail(y)) && Odd(Or(x, y)) == (Odd(x) || Odd(y))
  {
    assert Tail(x | y) == Or(x >> 1, y >> 1);
    assert Odd(x | y) == (Odd(x) || Odd(y));
  }

  lemma TailXor(x: bv64, y: bv64)
    ensures Tail(Xor(x, y)) == Xor(Tail(x), Tail(y)) && Odd(Xor(x, y)) == (Odd(x) != Odd(y))
  {
    assert Tail(x ^ y) == Xor(x >> 1, y >> 1);
    assert Odd(x ^ y) == (Odd(x) != Odd(y));
  }

  lemma {:induction false} BitOps(x: bv64, y: bv64, i: nat)
    ensures Bit(And(x, y), i) == (Bit(x, i) && Bit(y, i))
    ensures Bit(Or(x, y), i) == (Bit(x, i) || Bit(y, i))
    ensures Bit(Xor(x, y), i) == (Bit(x, i) != Bit(y, i))
    decreases i
  {
    hide Tail, Odd, And, Or, Xor;
    TailAnd(x, y);
    TailOr(x, y);
    TailXor(x, y);
    if i > 0 {
      BitOps(Tail(x), Tail(y), i - 1);
    }
  }

  lemma OddAndNot(x: bv64, y: bv64)
    ensures Odd(And(x, Not(y))) == (Odd(x) && !Odd(y))
  {
    assert Odd(x & !y) == (Odd(x) && !Odd(y));
  }

  lemma ShiftAndNot(x: bv64, y: bv64)
    ensures (x & !y) >> 1 == (x >> 1) & !(y >> 1)
  {}

  lemma AndNotIs(x: bv64, y: bv64)
    ensures And(x, Not(y)) == x & !y
  {}

  lemma TailIs(x: bv64)
    ensures Tail(x) == x >> 1
  {}

  lemma TailAndNot(x: bv64, y: bv64)
    ensures Tail(And(x, Not(y))) == And(Tail(x), Not(Tail(y)))
  {
    hide *;
    AndNotIs(x, y);
    TailIs(x & !y);
    ShiftAndNot(x, y);
    TailIs(x);
    TailIs(y);
    AndNotIs(x >> 1, y >> 1);
  }

  lemma {:induction false} BitAndNot(x: bv64, y: bv64, i: nat)
    ensures Bit(And(x, Not(y)), i) == (Bit(x, i) && !Bit(y, i))
    decreases i
  {
    hide Tail, Odd, And, Not;
    OddAndNot(x, y);
    TailAndNot(x, y);
    if i > 0 {
      BitAndNot(Tail(x), Tail(y), i - 1);
    }
  }

  lemma ZeroSteps()
    ensures Tail(0) == 0 && !Odd(0)
  {}

  lemma {:induction false} ZeroBits(i: nat)
    ensures !Bit(0, i)
  {
    hide Tail, Odd;
    ZeroSteps();
    if i > 0 {
      ZeroBits(i - 1);
    }
  }

  lemma {:induction false} BitDrop(x: bv64, k: nat, i: nat)
    ensures Bit(Drop(x, k), i) == Bit(x, k + i)
    decreases k
  {
    hide Tail, Odd;
    if k > 0 {
      BitDrop(Tail(x), k - 1, i);
    }
  }

  lemma {:induction false} DropDrop(x: bv64, a: nat, b: nat)
    ensures Drop(Drop(x, a), b) == Drop(x, a + b)
    decreases a
  {
    hide Tail;
    if a > 0 {
      DropDrop(Tail(x), a - 1, b);
    }
  }

  // Byte by byte, to reach the fixed width

  function Byte(x: bv64): bv64 { x >> 8 }
  function Bytes(x: bv64, m: nat): bv64 { if m == 0 then x else Byte(Bytes(x, m - 1)) }

  lemma TailShifts(x: bv64)
    ensures Tail(x) == x >> 1 && Tail(x >> 1) == x >> 2 && Tail(x >> 2) == x >> 3 && Tail(x >> 3) == x >> 4
    ensures Tail(x >> 4) == x >> 5 && Tail(x >> 5) == x >> 6 && Tail(x >> 6) == x >> 7 && Tail(x >> 7) == Byte(x)
  {}

  lemma DropByte(x: bv64)
    ensures Drop(x, 8) == Byte(x)
  {
    TailShifts(x);
    hide Tail, Byte;
    assert Drop(x, 8) == Drop(x >> 1, 7);
    assert Drop(x >> 1, 7) == Drop(x >> 2, 6);
    assert Drop(x >> 2, 6) == Drop(x >> 3, 5);
    assert Drop(x >> 3, 5) == Drop(x >> 4, 4);
    assert Drop(x >> 4, 4) == Drop(x >> 5, 3);
    assert Drop(x >> 5, 3) == Drop(x >> 6, 2);
    assert Drop(x >> 6, 2) == Drop(x >> 7, 1);
    assert Drop(x >> 7, 1) == Drop(Byte(x), 0);
  }

  lemma {:induction false} DropBytes(x: bv64, m: nat)
    ensures Drop(x, 8 * m) == Bytes(x, m)
  {
    hide Tail, Byte, Drop;
    if m == 0 {
      DropNone(x);
    } else {
      DropBytes(x, m - 1);
      DropByte(Bytes(x, m - 1));
      DropDrop(x, 8 * (m - 1), 8);
    }
  }

  lemma DropNone(x: bv64)
    ensures Drop(x, 0) == x
  {}

  lemma BytesAreShifts(x: bv64)
    ensures Bytes(x, 1) == x >> 8 && Bytes(x, 2) == x >> 16 && Bytes(x, 3) == x >> 24 && Bytes(x, 4) == x >> 32
    ensures Bytes(x, 5) == x >> 40 && Bytes(x, 6) == x >> 48 && Bytes(x, 7) == x >> 56 && Bytes(x, 8) == 0
  {
    ByteShifts(x);
    hide Byte;
    assert Bytes(x, 1) == x >> 8;
    assert Bytes(x, 3) == x >> 24;
    assert Bytes(x, 5) == x >> 40;
    assert Bytes(x, 7) == x >> 56;
  }

  lemma ByteShifts(x: bv64)
    ensures Byte(x) == x >> 8 && Byte(x >> 8) == x >> 16 && Byte(x >> 16) == x >> 24 && Byte(x >> 24) == x >> 32
    ensures Byte(x >> 32) == x >> 40 && Byte(x >> 40) == x >> 48 && Byte(x >> 48) == x >> 56 && Byte(x >> 56) == 0
  {}

  /** No bits beyond the 64th. */
  lemma DropAll(x: bv64)
    ensures Drop(x, 64) == 0
  {
    hide Drop, Bytes;
    DropBytes(x, 8);
    BytesAreShifts(x);
  }

  /** The low eight bits, by shifts. */
  lemma ByteBit(x: bv64, b: nat)
    requires b < 8
    ensures Bit(x, b)
         == if b == 0 then Odd(x) else if b == 1 then Odd(x >> 1) else if b == 2 then Odd(x >> 2)
            else if b == 3 then Odd(x >> 3) else if b == 4 then Odd(x >> 4) else if b == 5 then Odd(x >> 5)
            else if b == 6 then Odd(x >> 6) else Odd(x >> 7)
  {
    TailShifts(x);
    hide Tail, Odd;
    if b > 0 { assert Bit(x, b) == Bit(x >> 1, b - 1); }
    if b > 1 { assert Bit(x >> 1, b - 1) == Bit(x >> 2, b - 2); }
    if b > 2 { assert Bit(x >> 2, b - 2) == Bit(x >> 3, b - 3); }
    if b > 3 { assert Bit(x >> 3, b - 3) == Bit(x >> 4, b - 4); }
    if b > 4 { assert Bit(x >> 4, b - 4) == Bit(x >> 5, b - 5); }
    if b > 5 { assert Bit(x >> 5, b - 5) == Bit(x >> 6, b - 6); }
    if b > 6 { assert Bit(x >> 6, b - 6) == Bit(x >> 7, b - 7); }
  }

  const ONES: bv64 := 0xFFFF_FFFF_FFFF_FFFF

  lemma LowByteOnes(x: bv64, b: nat)
    requires b < 8 && x & 0xFF == 0xFF
    ensures Bit(x, b)
  {
    ByteBit(x, b);
    hide Bit;
  }

  lemma OnesBits(i: nat)
    requires i < 64
    ensures Bit(ONES, i)
  {
    hide Bit, Drop, Bytes;
    var m, b := i / 8, i % 8;
    DropBytes(ONES, m);
    BitDrop(ONES, 8 * m, b);
    OnesBytes(m);
    LowByteOnes(Bytes(ONES, m), b);
  }

  lemma OnesBytes(m: nat)
    requires m < 8
    ensures Bytes(ONES, m) & 0xFF == 0xFF
  {
    BytesAreShifts(ONES);
    if m == 0 {} else if m == 1 {} else if m == 2 {} else if m == 3 {}
    else if m == 4 {} else if m == 5 {} else if m == 6 {} else {}
  }

  lemma {:induction false} ZeroFromBits(x: bv64, n: nat)
    requires Drop(x, n) == 0 && forall i :: 0 <= i < n ==> !Bit(x, i)
    ensures x == 0
    decreases n
  {
    if n > 0 {
      assert !Bit(x, 0);
      forall i | 0 <= i < n - 1
        ensures !Bit(Tail(x), i)
      {
        assert !Bit(x, i + 1);
      }
      ZeroFromBits(Tail(x), n - 1);
      ZeroStep(x);
    }
    hide Tail, Odd;
  }

  lemma ZeroStep(x: bv64)
    requires Tail(x) == 0 && !Odd(x)
    ensures x == 0
  {}

  lemma IsZero(x: bv64)
    requires forall i :: 0 <= i < 64 ==> !Bit(x, i)
    ensures x == 0
  {
    hide Bit, Drop;
    DropAll(x);
    ZeroFromBits(x, 64);
  }

  // Single bits and masks

  lemma DoubleSteps(x: bv64)
    ensures !Odd(Double(x)) && Tail(Double(x)) == And(x, Tail(ONES))
  {}

  lemma BitDouble(x: bv64, i: nat)
    requires i < 64
    ensures Bit(Double(x), i) == (i > 0 && Bit(x, i - 1))
  {
    hide Tail, Odd, Double, And;
    DoubleSteps(x);
    if i > 0 {
      BitOps(x, Tail(ONES), i - 1);
      OnesBits(i);
    }
  }

  lemma OneBits(i: nat)
    ensures Bit(1, i) <==> i == 0
  {
    OneSteps();
    hide Tail, Odd;
    if i > 0 {
      ZeroBits(i - 1);
    }
  }

  lemma OneSteps()
    ensures Odd(1) && Tail(1) == 0
  {}

  lemma {:induction false} OneAtBits(i: nat, j: nat)
    requires j < 64
    ensures Bit(OneAt(i), j) <==> i == j
  {
    hide Bit, Double;
    if i == 0 {
      OneBits(j);
    } else {
      BitDouble(OneAt(i - 1), j);
      if j > 0 {
        OneAtBits(i - 1, j - 1);
      }
    }
  }

  /** The s low bits. */
  function LowMask(s: nat): bv64 { Minus1(OneAt(s)) }

  lemma MaskSteps(x: bv64)
    ensures Minus1(Double(x)) == Or(Double(Minus1(x)), 1) && Minus1(1) == 0
  {}

  lemma {:induction false} LowMaskBits(s: nat, j: nat)
    requires j < 64
    ensures Bit(LowMask(s), j) <==> j < s
  {
    hide Bit, Double, Minus1, Or;
    if s == 0 {
      MaskSteps(0);
      ZeroBits(j);
    } else {
      var x := OneAt(s - 1);
      MaskSteps(x);
      BitOps(Double(Minus1(x)), 1, j);
      BitDouble(Minus1(x), j);
      OneBits(j);
      if j > 0 {
        LowMaskBits(s - 1, j - 1);
      }
    }
  }

  // Values

  lemma {:induction false} LowBound(x: bv64, n: nat)
    ensures Low(x, n) < Pow2(n)
    decreases n
  {
    hide Tail, Odd;
    if n > 0 {
      LowBound(Tail(x), n - 1);
    }
  }

  lemma {:induction false} SameBitsSameLow(x: bv64, y: bv64, n: nat)
    requires forall i :: 0 <= i < n ==> Bit(x, i) == Bit(y, i)
    ensures Low(x, n) == Low(y, n)
    decreases n
  {
    if n > 0 {
      assert Bit(x, 0) == Bit(y, 0);
      forall i | 0 <= i < n - 1
        ensures Bit(Tail(x), i) == Bit(Tail(y), i)
      {
        assert Bit(x, i + 1) == Bit(y, i + 1);
      }
      SameBitsSameLow(Tail(x), Tail(y), n - 1);
    }
    hide Tail, Odd;
  }

  lemma {:induction false} SameLowSameBits(x: bv64, y: bv64, n: nat, i: nat)
    requires Low(x, n) == Low(y, n) && i < n
    ensures Bit(x, i) == Bit(y, i)
    decreases i
  {
    hide Tail, Odd;
    if i > 0 {
      SameLowSameBits(Tail(x), Tail(y), n - 1, i - 1);
    }
  }

  lemma {:induction false} LowSplit(x: bv64, k: nat, n: nat)
    ensures Low(x, k + n) == Low(x, k) + Pow2(k) * Low(Drop(x, k), n)
    decreases k
  {
    hide Tail, Odd;
    if k > 0 {
      LowSplit(Tail(x), k - 1, n);
      Doubled(Low(Tail(x), k - 1), Pow2(k - 1), Low(Drop(x, k), n));
    }
  }

  lemma Doubled(a: nat, p: nat, b: nat)
    ensures 2 * (a + p * b) == 2 * a + (2 * p) * b
  {}

  /** A product of a positive factor is outside the open interval of that factor. */
  lemma SmallMultiple(p: int, d: int, r: int)
    requires p > 0 && p * d == r && -p < r < p
    ensures d == 0
  {}

  lemma DivMod(a: nat, q: nat, p: nat, v: nat)
    requires p > 0 && a < p && v == a + p * q
    ensures v / p == q && v % p == a
  {
    var d, r := v / p, v % p;
    assert v == p * d + r;
    assert p * (d - q) == p * d - p * q;
    SmallMultiple(p, d - q, a - r);
  }

  /** Dropping low bits divides, keeping them takes the remainder. */
  lemma ValueSplit(x: bv64, k: nat)
    requires k <= 64
    ensures Value(x) % Pow2(k) == Low(x, k) && Value(x) / Pow2(k) == Low(Drop(x, k), 64 - k)
  {
    hide Low, Drop, Pow2;
    LowSplit(x, k, 64 - k);
    LowBound(x, k);
    DivMod(Low(x, k), Low(Drop(x, k), 64 - k), Pow2(k), Value(x));
  }

  lemma Pow2Steps(n: nat)
    ensures Pow2(0) == 1 && Pow2(n + 1) == 2 * Pow2(n)
  {}

  lemma DoubledProduct(p: nat, q: nat)
    ensures 2 * (p * q) == (2 * p) * q
  {}

  lemma {:induction false} Pow2Add(a: nat, b: nat)
    ensures Pow2(a + b) == Pow2(a) * Pow2(b)
  {
    hide Pow2;
    if a == 0 {
      Pow2Steps(0);
    } else {
      Pow2Add(a - 1, b);
      Pow2Steps(a - 1);
      Pow2Steps(a - 1 + b);
      DoubledProduct(Pow2(a - 1), Pow2(b));
    }
  }

  lemma {:induction false} Pow2Grows(a: nat, b: nat)
    requires a <= b
    ensures Pow2(a) <= Pow2(b)
    decreases b
  {
    if a < b {
      Pow2Grows(a, b - 1);
    }
  }
}
