/** Addition, order and shifts of doublewords in terms of their bits and unsigned values. */
module BitArithmetic {
  import opened Bits
  import opened BitString

  // Addition

  function Twice1(x: bv64): bv64 { (x << 1) | 1 }

  lemma Halves(x: bv64)
    ensures x == if Odd(x) then Twice1(Tail(x)) else Double(Tail(x))
  {
    if Odd(x) {} else {}
  }

  lemma SubIs(a: bv64, b: bv64)
    ensures Sub(a, b) == a - b
  {}

  lemma DoubleIsSum(a: bv64)
    ensures Double(a) == Add(a, a)
  {}

  lemma AddDoubles(a: bv64, b: bv64)
    ensures Add(Double(a), Double(b)) == Double(Add(a, b))
  {
    hide *;
    DoubleIsSum(a);
    DoubleIsSum(b);
    DoubleIsSum(Add(a, b));
    AddSwaps(a, a, Add(b, b));
    AddAssociates(a, b, b);
    AddSwaps(a, b, Add(a, b));
    AddAssociates(a, b, Add(a, b));
    AddAssociates(b, a, b);
    AddAssociates(a, a, Add(b, b));
    AddAssociates(a, Add(b, b), a);
  }

  lemma TwicePlusOne(a: bv64)
    ensures Twice1(a) == Add(Double(a), 1)
  {
    assert (a << 1) | 1 == (a << 1) + 1;
  }

  lemma OnePlusOne()
    ensures Add(1, 1) == Double(1)
  {}

  lemma AddAssociates(a: bv64, b: bv64, c: bv64)
    ensures Add(Add(a, b), c) == Add(a, Add(b, c)) && Add(a, b) == Add(b, a)
  {
    assert (a + b) + c == a + (b + c);
  }

  lemma AddSwaps(a: bv64, b: bv64, c: bv64)
    ensures Add(Add(a, b), c) == Add(Add(a, c), b)
  {
    hide *;
    AddAssociates(a, b, c);
    AddAssociates(a, c, b);
    AddAssociates(b, c, a);
  }

  /** Two numbers and a carry. */
  function Sum3(x: bv64, y: bv64, carry: bool): bv64 { if carry then Add(Add(x, y), 1) else Add(x, y) }

  /** s plus one, k times. */
  function Stepped(s: bv64, k: nat): bv64 { if k == 0 then s else Add(Stepped(s, k - 1), 1) }

  function Count(p: bool, q: bool, r: bool): (k: nat)
    ensures k <= 3
  {
    (if p then 1 else 0) + (if q then 1 else 0) + if r then 1 else 0
  }

  lemma PlusFew(s: bv64)
    ensures Stepped(s, 0) == s && Stepped(s, 1) == Add(s, 1) && Stepped(s, 2) == Add(Add(s, 1), 1)
    ensures Stepped(s, 3) == Add(Add(Add(s, 1), 1), 1)
  {
    hide Add;
    assert Stepped(s, 1) == Add(s, 1);
    assert Stepped(s, 2) == Add(Stepped(s, 1), 1);
  }

  lemma SumOfHalves(a: bv64, b: bv64, p: bool, q: bool, carry: bool)
    ensures Sum3(if p then Twice1(a) else Double(a), if q then Twice1(b) else Double(b), carry)
         == Stepped(Double(Add(a, b)), Count(p, q, carry))
  {
    hide Add, Double, Twice1, Stepped;
    var u, v := Double(a), Double(b);
    AddDoubles(a, b);
    TwicePlusOne(a);
    TwicePlusOne(b);
    PlusFew(Add(u, v));
    AddSwaps(u, 1, v);
    AddAssociates(u, v, 1);
    AddAssociates(Add(u, 1), v, 1);
  }

  lemma PlusDoubled(s: bv64)
    ensures Stepped(Double(s), 0) == Double(s) && Stepped(Double(s), 1) == Twice1(s)
    ensures Stepped(Double(s), 2) == Double(Add(s, 1)) && Stepped(Double(s), 3) == Twice1(Add(s, 1))
  {
    hide Add, Double, Twice1, Stepped;
    PlusFew(Double(s));
    TwicePlusOne(s);
    TwicePlusOne(Add(s, 1));
    AddAssociates(Double(s), 1, 1);
    OnePlusOne();
    AddDoubles(s, 1);
  }

  /** One step of the ripple: the low bit of the sum, and the carry into the rest. */
  lemma SumStep(x: bv64, y: bv64, carry: bool)
    ensures var k := Count(Odd(x), Odd(y), carry);
      var rest := Sum3(Tail(x), Tail(y), k >= 2);
      Sum3(x, y, carry) == if k % 2 == 1 then Twice1(rest) else Double(rest)
  {
    hide Add, Double, Twice1, Stepped, Odd, Tail;
    var k := Count(Odd(x), Odd(y), carry);
    Halves(x);
    Halves(y);
    SumOfHalves(Tail(x), Tail(y), Odd(x), Odd(y), carry);
    PlusDoubled(Add(Tail(x), Tail(y)));
    if k == 0 {} else if k == 1 {} else if k == 2 {} else {}
  }

  lemma BitStep(x: bv64, i: nat)
    ensures Bit(x, i + 1) == Bit(Tail(x), i)
  {
    hide Tail;
  }

  lemma TailKeepsLow(x: bv64, n: nat)
    requires n <= 63
    ensures Low(And(x, Tail(ONES)), n) == Low(x, n)
  {
    hide *;
    forall i | 0 <= i < n
      ensures Bit(And(x, Tail(ONES)), i) == Bit(x, i)
    {
      BitOps(x, Tail(ONES), i);
      OnesBits(i + 1);
      BitStep(ONES, i);
    }
    SameBitsSameLow(And(x, Tail(ONES)), x, n);
  }

  lemma LowStep(x: bv64, n: nat)
    requires n > 0
    ensures Low(x, n) == 2 * Low(Tail(x), n - 1) + if Odd(x) then 1 else 0
  {
    hide Tail, Odd;
  }

  lemma Twice1Steps(x: bv64)
    ensures Odd(Twice1(x)) && Tail(Twice1(x)) == And(x, Tail(ONES))
  {}

  lemma DoubledLow(x: bv64, n: nat)
    requires 0 < n <= 64
    ensures Low(Double(x), n) == 2 * Low(x, n - 1) && Low(Twice1(x), n) == 2 * Low(x, n - 1) + 1
  {
    hide *;
    DoubleSteps(x);
    Twice1Steps(x);
    LowStep(Double(x), n);
    LowStep(Twice1(x), n);
    TailKeepsLow(x, n - 1);
  }

  lemma ModStep(m: nat, o: nat, p: nat)
    requires o <= 1 && p > 0
    ensures (2 * m + o) % (2 * p) == 2 * (m % p) + o
  {
    var q, r := m / p, m % p;
    assert m == p * q + r;
    assert 2 * (p * q) == (2 * p) * q;
    DivMod(2 * r + o, q, 2 * p, 2 * m + o);
  }

  lemma {:induction false} SumLow(x: bv64, y: bv64, carry: bool, n: nat)
    requires n <= 64
    ensures Low(Sum3(x, y, carry), n) == (Low(x, n) + Low(y, n) + if carry then 1 else 0) % Pow2(n)
    decreases n
  {
    hide Low, Pow2, Sum3, Odd, Tail;
    if n == 0 {
      LowNone(x, y, Sum3(x, y, carry));
    } else {
      var k := Count(Odd(x), Odd(y), carry);
      var rest := Sum3(Tail(x), Tail(y), k >= 2);
      SumStep(x, y, carry);
      SumLow(Tail(x), Tail(y), k >= 2, n - 1);
      DoubledLow(rest, n);
      LowStep(x, n);
      LowStep(y, n);
      Pow2Steps(n - 1);
      ModStep(Low(Tail(x), n - 1) + Low(Tail(y), n - 1) + (if k >= 2 then 1 else 0), k % 2, Pow2(n - 1));
    }
  }

  lemma LowNone(x: bv64, y: bv64, z: bv64)
    ensures Low(x, 0) == 0 && Low(y, 0) == 0 && Low(z, 0) == 0 && Pow2(0) == 1
  {}

  lemma {:induction false} LowZero(n: nat)
    ensures Low(0, n) == 0
  {
    hide Tail, Odd;
    ZeroSteps();
    if n > 0 {
      LowZero(n - 1);
    }
  }

  lemma BitValues()
    ensures Value(0) == 0 && Value(1) == 1
  {
    hide *;
    OneSteps();
    ZeroSteps();
    LowStep(1, 64);
    LowZero(63);
    LowZero(64);
    ValueIs(0);
    ValueIs(1);
  }

  lemma ValueIs(x: bv64)
    ensures Value(x) == Low(x, 64)
  {}

  /** Addition is addition modulo 2^n of the n low bits. */
  lemma AddLow(x: bv64, y: bv64, n: nat)
    requires n <= 64
    ensures Low(Add(x, y), n) == (Low(x, n) + Low(y, n)) % Pow2(n)
  {
    hide Low, Pow2, Add;
    SumLow(x, y, false, n);
  }

  lemma AddBack(x: bv64, y: bv64)
    ensures Add(x - y, y) == x
  {}

  lemma SubAdds(x: bv64, y: bv64)
    ensures Add(Sub(x, y), y) == x
  {
    hide *;
    SubIs(x, y);
    AddBack(x, y);
  }

  /** Subtraction undoes addition. */
  lemma SubLow(x: bv64, y: bv64, n: nat)
    requires n <= 64
    ensures Low(x, n) == (Low(Sub(x, y), n) + Low(y, n)) % Pow2(n)
  {
    hide *;
    SubAdds(x, y);
    AddLow(Sub(x, y), y, n);
  }

  // Order

  predicate Less(x: bv64, y: bv64) { x < y }

  lemma LessAsymmetric(x: bv64, y: bv64)
    ensures !(Less(x, y) && Less(y, x))
  {}

  lemma TailOrder(x: bv64, y: bv64)
    ensures Less(Tail(x), Tail(y)) ==> Less(x, y)
  {}

  lemma LastBitOrder(a: bv64)
    ensures Less(Double(a), Twice1(a)) && !Less(Twice1(a), Double(a)) && Double(a) != Twice1(a)
  {}

  /** With the same rest, the last bit decides. */
  lemma SameTailOrder(x: bv64, y: bv64)
    requires Tail(x) == Tail(y)
    ensures (Less(x, y) <==> !Odd(x) && Odd(y)) && (x == y <==> Odd(x) == Odd(y))
  {
    hide *;
    Halves(x);
    Halves(y);
    LastBitOrder(Tail(x));
    LessAsymmetric(Double(Tail(x)), Double(Tail(x)));
    LessAsymmetric(Twice1(Tail(x)), Twice1(Tail(x)));
  }

  lemma {:induction false} LowOrder(x: bv64, y: bv64, n: nat)
    requires Drop(x, n) == 0 && Drop(y, n) == 0
    ensures (Less(x, y) <==> Low(x, n) < Low(y, n)) && (x == y <==> Low(x, n) == Low(y, n))
    decreases n
  {
    hide Tail, Odd, Less;
    if n == 0 {
      LessAsymmetric(0, 0);
    } else {
      LowOrder(Tail(x), Tail(y), n - 1);
      LowOrder(Tail(y), Tail(x), n - 1);
      LessAsymmetric(x, y);
      TailOrder(x, y);
      TailOrder(y, x);
      if Tail(x) == Tail(y) {
        SameTailOrder(x, y);
      }
    }
  }

  /** Unsigned comparison compares values. */
  lemma ValueOrder(x: bv64, y: bv64)
    ensures (x < y <==> Value(x) < Value(y)) && (x == y <==> Value(x) == Value(y))
  {
    hide Low, Drop;
    DropAll(x);
    DropAll(y);
    LowOrder(x, y, 64);
  }

  /** The value as a two's complement number. */
  function SignedValue(x: bv64): int { if Bit(x, 63) then Value(x) - Pow2(64) else Value(x) }

  lemma TopBit(x: bv64)
    ensures Negative(x) <==> Bit(x, 63)
  {
    hide Bit, Drop, Bytes;
    BitDrop(x, 56, 7);
    DropBytes(x, 7);
    BytesAreShifts(x);
    ByteBit(x >> 56, 7);
    TopShift(x);
  }

  lemma TopShift(x: bv64)
    ensures Odd(x >> 56 >> 7) <==> Negative(x)
  {}

  /** Signed comparison compares two's complement values. */
  lemma SignedValueOrder(x: bv64, y: bv64)
    ensures SignedLess(x, y) <==> SignedValue(x) < SignedValue(y)
  {
    hide Low, Pow2, Bit, Negative;
    TopBit(x);
    TopBit(y);
    ValueOrder(x, y);
    LowBound(x, 64);
    LowBound(y, 64);
  }

  // Shifts

  function Doubles(x: bv64, k: nat): bv64 { if k == 0 then x else Double(Doubles(x, k - 1)) }

  lemma {:induction false} BitDoubles(x: bv64, k: nat, i: nat)
    requires i < 64
    ensures Bit(Doubles(x, k), i) <==> i >= k && Bit(x, i - k)
    decreases k
  {
    hide Bit, Double;
    if k > 0 {
      BitDouble(Doubles(x, k - 1), i);
      if i > 0 {
        BitDoubles(x, k - 1, i - 1);
      }
    }
  }

  lemma {:induction false} DoublesTwice(x: bv64, a: nat, b: nat)
    ensures Doubles(Doubles(x, a), b) == Doubles(x, a + b)
    decreases b
  {
    hide Double;
    if b > 0 {
      DoublesTwice(x, a, b - 1);
    }
  }

  lemma DoubleShifts(x: bv64)
    ensures Double(x) == x << 1 && Double(x << 1) == x << 2 && Double(x << 2) == x << 3 && Double(x << 3) == x << 4
    ensures Double(x << 4) == x << 5 && Double(x << 5) == x << 6 && Double(x << 6) == x << 7 && Double(x << 7) == x << 8
  {}

  lemma LeftSmall(x: bv64)
    ensures Doubles(x, 1) == x << 1 && Doubles(x, 2) == x << 2 && Doubles(x, 4) == x << 4 && Doubles(x, 8) == x << 8
  {
    DoubleShifts(x);
    hide Double;
    assert Doubles(x, 1) == x << 1;
    assert Doubles(x, 3) == x << 3;
    assert Doubles(x, 5) == x << 5;
    assert Doubles(x, 7) == x << 7;
  }

  function ByteUp(x: bv64): bv64 { x << 8 }

  lemma ByteUpIs(x: bv64)
    ensures Doubles(x, 8) == ByteUp(x)
  {
    hide Doubles;
    LeftSmall(x);
  }

  lemma ByteUpSteps(x: bv64)
    ensures ByteUp(ByteUp(x)) == x << 16 && ByteUp(ByteUp(x << 16)) == x << 32
  {}

  lemma LeftLarge(x: bv64)
    ensures Doubles(x, 16) == x << 16 && Doubles(x, 32) == x << 32
  {
    hide Doubles, ByteUp;
    ByteUpIs(x);
    ByteUpIs(ByteUp(x));
    DoublesTwice(x, 8, 8);
    ByteUpSteps(x);
    ByteUpIs(x << 16);
    ByteUpIs(ByteUp(x << 16));
    DoublesTwice(x << 16, 8, 8);
    DoublesTwice(x, 16, 16);
  }

  lemma RightSmall(x: bv64)
    ensures Drop(x, 1) == x >> 1 && Drop(x, 2) == x >> 2 && Drop(x, 4) == x >> 4
  {
    TailShifts(x);
    hide Tail;
    assert Drop(x, 4) == Drop(x >> 1, 3);
    assert Drop(x >> 1, 3) == Drop(x >> 2, 2);
    assert Drop(x >> 2, 2) == Drop(x >> 3, 1);
    assert Drop(x, 2) == Drop(x >> 1, 1);
  }

  lemma RightLarge(x: bv64)
    ensures Drop(x, 8) == x >> 8 && Drop(x, 16) == x >> 16 && Drop(x, 32) == x >> 32
  {
    hide Drop, Bytes;
    DropBytes(x, 1);
    DropBytes(x, 2);
    DropBytes(x, 4);
    BytesAreShifts(x);
  }

  /** Left shifts by the powers of two. */
  lemma SllPowers(x: bv64)
    ensures Sll(x, 1) == Doubles(x, 1) && Sll(x, 2) == Doubles(x, 2) && Sll(x, 4) == Doubles(x, 4)
    ensures Sll(x, 8) == Doubles(x, 8) && Sll(x, 16) == Doubles(x, 16) && Sll(x, 32) == Doubles(x, 32)
  {
    LeftSmall(x);
    LeftLarge(x);
    hide Doubles;
  }

  lemma SrlPowers(x: bv64)
    ensures Srl(x, 1) == Drop(x, 1) && Srl(x, 2) == Drop(x, 2) && Srl(x, 4) == Drop(x, 4)
    ensures Srl(x, 8) == Drop(x, 8) && Srl(x, 16) == Drop(x, 16) && Srl(x, 32) == Drop(x, 32)
  {
    RightSmall(x);
    RightLarge(x);
    hide Drop;
  }

  // With a power of two set in the amount, the shift by it comes last

  lemma SllStage32(x: bv64, n: bv64)
    requires n & 32 != 0
    ensures Sll(x, n) == Sll(Sll(x, n & 31), 32)
  {}

  lemma SllStage16(x: bv64, n: bv64)
    requires n & 16 != 0
    ensures Sll(x, n & 31) == Sll(Sll(x, n & 15), 16)
  {}

  lemma SllStage8(x: bv64, n: bv64)
    requires n & 8 != 0
    ensures Sll(x, n & 15) == Sll(Sll(x, n & 7), 8)
  {}

  lemma SllStage4(x: bv64, n: bv64)
    requires n & 4 != 0
    ensures Sll(x, n & 7) == Sll(Sll(x, n & 3), 4)
  {}

  lemma SllStage2(x: bv64, n: bv64)
    requires n & 2 != 0
    ensures Sll(x, n & 3) == Sll(Sll(x, n & 1), 2)
  {}

  lemma SrlStage32(x: bv64, n: bv64)
    requires n & 32 != 0
    ensures Srl(x, n) == Srl(Srl(x, n & 31), 32)
  {}

  lemma SrlStage16(x: bv64, n: bv64)
    requires n & 16 != 0
    ensures Srl(x, n & 31) == Srl(Srl(x, n & 15), 16)
  {}

  lemma SrlStage8(x: bv64, n: bv64)
    requires n & 8 != 0
    ensures Srl(x, n & 15) == Srl(Srl(x, n & 7), 8)
  {}

  lemma SrlStage4(x: bv64, n: bv64)
    requires n & 4 != 0
    ensures Srl(x, n & 7) == Srl(Srl(x, n & 3), 4)
  {}

  lemma SrlStage2(x: bv64, n: bv64)
    requires n & 2 != 0
    ensures Srl(x, n & 3) == Srl(Srl(x, n & 1), 2)
  {}

  lemma NoShift(x: bv64)
    ensures Sll(x, 0) == x && Srl(x, 0) == x
  {}

  lemma DoublesNone(x: bv64)
    ensures Doubles(x, 0) == x
  {}

  lemma SixBitsShift(x: bv64, n: bv64)
    ensures Sll(x, n) == Sll(x, n & 63) && Srl(x, n) == Srl(x, n & 63)
  {}

  /** A bit of the amount that is clear can be left out of the mask. */
  lemma ClearMasks(n: bv64)
    ensures n & 32 == 0 ==> n & 63 == n & 31
    ensures n & 16 == 0 ==> n & 31 == n & 15
    ensures n & 8 == 0 ==> n & 15 == n & 7
    ensures n & 4 == 0 ==> n & 7 == n & 3
    ensures n & 2 == 0 ==> n & 3 == n & 1
    ensures n & 1 == 0 || n & 1 == 1
  {}

  lemma ClearTop(x: bv64, n: bv64)
    requires n & 32 == 0
    ensures Sll(x, n) == Sll(x, n & 31) && Srl(x, n) == Srl(x, n & 31)
  {
    hide *;
    SixBitsShift(x, n);
    ClearMasks(n);
  }

  lemma AmountBits(n: bv64)
    ensures Bit(n, 5) == (n & 32 != 0) && Bit(n, 4) == (n & 16 != 0) && Bit(n, 3) == (n & 8 != 0)
    ensures Bit(n, 2) == (n & 4 != 0) && Bit(n, 1) == (n & 2 != 0) && Bit(n, 0) == (n & 1 != 0)
  {
    ByteBit(n, 0);
    ByteBit(n, 1);
    ByteBit(n, 2);
    ByteBit(n, 3);
    ByteBit(n, 4);
    ByteBit(n, 5);
    hide Bit;
  }

  lemma {:induction false} LowTop(x: bv64, n: nat)
    ensures Low(x, n + 1) == Low(x, n) + if Bit(x, n) then Pow2(n) else 0
    decreases n
  {
    hide Tail, Odd;
    if n > 0 {
      LowTop(Tail(x), n - 1);
    }
  }

  lemma SmallPowers()
    ensures Pow2(0) == 1 && Pow2(1) == 2 && Pow2(2) == 4 && Pow2(3) == 8 && Pow2(4) == 16 && Pow2(5) == 32
  {
    assert Pow2(1) == 2;
    assert Pow2(3) == 8;
  }

  /** The amount of a shift, bit by bit. */
  lemma AmountSteps(n: bv64)
    ensures Low(n, 0) == 0 && Low(n, 1) == Low(n, 0) + if n & 1 != 0 then 1 else 0
    ensures Low(n, 2) == Low(n, 1) + if n & 2 != 0 then 2 else 0
    ensures Low(n, 3) == Low(n, 2) + if n & 4 != 0 then 4 else 0
    ensures Low(n, 4) == Low(n, 3) + if n & 8 != 0 then 8 else 0
    ensures Low(n, 5) == Low(n, 4) + if n & 16 != 0 then 16 else 0
    ensures Low(n, 6) == Low(n, 5) + if n & 32 != 0 then 32 else 0
  {
    AmountBits(n);
    LowNone(n, n, n);
    SmallPowers();
    LowTop(n, 0);
    LowTop(n, 1);
    LowTop(n, 2);
    LowTop(n, 3);
    LowTop(n, 4);
    LowTop(n, 5);
    hide *;
  }

  lemma SllDoubles(x: bv64, n: bv64)
    ensures Sll(x, n) == Doubles(x, Low(n, 6))
  {
    hide *;
    AmountSteps(n);
    ClearMasks(n);
    NoShift(x);
    DoublesNone(x);
    SllPowers(x);
    assert Sll(x, n & 1) == Doubles(x, Low(n, 1));
    if n & 2 != 0 { SllStage2(x, n); SllPowers(Sll(x, n & 1)); DoublesTwice(x, Low(n, 1), 2); }
    assert Sll(x, n & 3) == Doubles(x, Low(n, 2));
    if n & 4 != 0 { SllStage4(x, n); SllPowers(Sll(x, n & 3)); DoublesTwice(x, Low(n, 2), 4); }
    assert Sll(x, n & 7) == Doubles(x, Low(n, 3));
    if n & 8 != 0 { SllStage8(x, n); SllPowers(Sll(x, n & 7)); DoublesTwice(x, Low(n, 3), 8); }
    assert Sll(x, n & 15) == Doubles(x, Low(n, 4));
    if n & 16 != 0 { SllStage16(x, n); SllPowers(Sll(x, n & 15)); DoublesTwice(x, Low(n, 4), 16); }
    assert Sll(x, n & 31) == Doubles(x, Low(n, 5));
    if n & 32 != 0 { SllStage32(x, n); SllPowers(Sll(x, n & 31)); DoublesTwice(x, Low(n, 5), 32); }
    else { ClearTop(x, n); }
  }

  lemma SrlDrops(x: bv64, n: bv64)
    ensures Srl(x, n) == Drop(x, Low(n, 6))
  {
    hide *;
    AmountSteps(n);
    ClearMasks(n);
    NoShift(x);
    DropNone(x);
    SrlPowers(x);
    assert Srl(x, n & 1) == Drop(x, Low(n, 1));
    if n & 2 != 0 { SrlStage2(x, n); SrlPowers(Srl(x, n & 1)); DropDrop(x, Low(n, 1), 2); }
    assert Srl(x, n & 3) == Drop(x, Low(n, 2));
    if n & 4 != 0 { SrlStage4(x, n); SrlPowers(Srl(x, n & 3)); DropDrop(x, Low(n, 2), 4); }
    assert Srl(x, n & 7) == Drop(x, Low(n, 3));
    if n & 8 != 0 { SrlStage8(x, n); SrlPowers(Srl(x, n & 7)); DropDrop(x, Low(n, 3), 8); }
    assert Srl(x, n & 15) == Drop(x, Low(n, 4));
    if n & 16 != 0 { SrlStage16(x, n); SrlPowers(Srl(x, n & 15)); DropDrop(x, Low(n, 4), 16); }
    assert Srl(x, n & 31) == Drop(x, Low(n, 5));
    if n & 32 != 0 { SrlStage32(x, n); SrlPowers(Srl(x, n & 31)); DropDrop(x, Low(n, 5), 32); }
    else { ClearTop(x, n); }
  }

  lemma SraOfPositive(a: bv64, b: bv64)
    requires !Negative(a)
    ensures Sra(a, b) == Srl(a, b)
  {}

  lemma SraIs(a: bv64, b: bv64)
    requires Negative(a)
    ensures Sra(a, b) == Not(!a >> (b & 0x3F))
  {}

  lemma SrlOfNot(a: bv64, b: bv64)
    ensures Srl(!a, b) == !a >> (b & 0x3F)
  {}

  lemma NotIs(x: bv64)
    ensures Not(x) == !x
  {}

  lemma SraOfRawNot(a: bv64, b: bv64)
    requires Negative(a)
    ensures Sra(a, b) == Not(Srl(!a, b))
  {
    hide *;
    SraIs(a, b);
    SrlOfNot(a, b);
  }

  lemma SraOfNegative(a: bv64, b: bv64)
    requires Negative(a)
    ensures Sra(a, b) == Not(Srl(Not(a), b))
  {
    hide *;
    SraOfRawNot(a, b);
    NotIs(a);
  }

  /** Left shift: bit i comes from bit i - s, zeros from below. */
  lemma SllBits(a: bv64, b: bv64, i: nat)
    requires i < 64
    ensures Bit(Sll(a, b), i) <==> i >= Low(b, 6) && Bit(a, i - Low(b, 6))
  {
    hide *;
    SllDoubles(a, b);
    BitDoubles(a, Low(b, 6), i);
  }

  lemma NoHighBits(x: bv64, i: nat)
    requires i >= 64
    ensures !Bit(x, i)
  {
    hide *;
    DropAll(x);
    BitDrop(x, 64, i - 64);
    ZeroBits(i - 64);
  }

  /** Logical right shift: bit i comes from bit i + s, zeros from above. */
  lemma SrlBits(a: bv64, b: bv64, i: nat)
    ensures Bit(Srl(a, b), i) <==> i + Low(b, 6) < 64 && Bit(a, i + Low(b, 6))
  {
    hide *;
    SrlDrops(a, b);
    BitDrop(a, Low(b, 6), i);
    if i + Low(b, 6) >= 64 {
      NoHighBits(a, i + Low(b, 6));
    }
  }

  lemma NotBits(x: bv64, i: nat)
    requires i < 64
    ensures Bit(Not(x), i) == !Bit(x, i)
  {
    hide *;
    NotMasks(x);
    BitAndNot(ONES, x, i);
    OnesBits(i);
  }

  lemma NotMasks(x: bv64)
    ensures Not(x) == And(ONES, Not(x))
  {}

  /** Arithmetic right shift: bit i comes from bit i + s, copies of the sign from above. */
  lemma SraBits(a: bv64, b: bv64, i: nat)
    requires i < 64
    ensures Bit(Sra(a, b), i) <==> Bit(a, if i + Low(b, 6) < 64 then i + Low(b, 6) else 63)
  {
    hide *;
    var s := Low(b, 6);
    TopBit(a);
    if Negative(a) {
      SraOfNegative(a, b);
      NotBits(Srl(Not(a), b), i);
      SrlBits(Not(a), b, i);
      if i + s < 64 {
        NotBits(a, i + s);
      }
    } else {
      SraOfPositive(a, b);
      SrlBits(a, b, i);
    }
  }
}
