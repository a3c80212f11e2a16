/** The eight byte lanes of a doubleword. */
module Lanes {

  /** Lane of an address within its doubleword. */
  function Lane(addr: bv64): (k: nat)
    ensures k < 8
  {
    (if addr & 4 != 0 then 4 else 0) + (if addr & 2 != 0 then 2 else 0) + (if addr & 1 != 0 then 1 else 0)
  }

  /** A lane number as an address offset. */
  function Num(k: nat): bv64
    requires k <= 8
  {
    if k == 0 then 0 else if k == 1 then 1 else if k == 2 then 2 else if k == 3 then 3
    else if k == 4 then 4 else if k == 5 then 5 else if k == 6 then 6 else if k == 7 then 7 else 8
  }

  function LowByte(x: bv64): bv8 { (x & 0xFF) as bv8 }

  function ByteAt(x: bv64, k: nat): bv8
    requires k < 8
  {
    if k == 0 then LowByte(x) else if k == 1 then LowByte(x >> 8)
    else if k == 2 then LowByte(x >> 16) else if k == 3 then LowByte(x >> 24)
    else if k == 4 then LowByte(x >> 32) else if k == 5 then LowByte(x >> 40)
    else if k == 6 then LowByte(x >> 48) else LowByte(x >> 56)
  }

  lemma LaneNum(addr: bv64)
    ensures Num(Lane(addr)) == addr & 7
  {}

  function Sum(x: bv64, y: bv64): bv64 { x + y }

  lemma SumAssociates(x: bv64, y: bv64, z: bv64)
    ensures Sum(Sum(x, y), z) == Sum(x, Sum(y, z)) && Sum(x, 0) == x
  {}

  lemma NumStep(k: nat)
    requires k < 8
    ensures Num(k + 1) == Sum(Num(k), 1)
  {
    if k == 0 {} else if k == 1 {} else if k == 2 {} else if k == 3 {}
    else if k == 4 {} else if k == 5 {} else if k == 6 {} else {}
  }

  lemma {:induction false} NumAdd(a: nat, b: nat)
    requires a + b <= 8
    ensures Num(a + b) == Sum(Num(a), Num(b))
  {
    hide *;
    NumZero();
    SumAssociates(Num(a), 0, 0);
    if b > 0 {
      NumAdd(a, b - 1);
      NumStep(a + b - 1);
      NumStep(b - 1);
      SumAssociates(Num(a), Num(b - 1), 1);
    }
  }

  lemma NumZero()
    ensures Num(0) == 0
  {}

  /** A byte moved up to lane k, all other lanes zero. */
  function ToLane(b: bv8, k: nat): bv64
    requires k < 8
  {
    var x := b as bv64;
    if k == 0 then x else if k == 1 then x << 8 else if k == 2 then x << 16 else if k == 3 then x << 24
    else if k == 4 then x << 32 else if k == 5 then x << 40 else if k == 6 then x << 48 else x << 56
  }

  /** Two doublewords with the same eight bytes are equal. */
  lemma SameBytes(x: bv64, y: bv64)
    requires forall k :: 0 <= k < 8 ==> ByteAt(x, k) == ByteAt(y, k)
    ensures x == y
  {
    assert ByteAt(x, 0) == ByteAt(y, 0) && ByteAt(x, 1) == ByteAt(y, 1);
    assert ByteAt(x, 2) == ByteAt(y, 2) && ByteAt(x, 3) == ByteAt(y, 3);
    assert ByteAt(x, 4) == ByteAt(y, 4) && ByteAt(x, 5) == ByteAt(y, 5);
    assert ByteAt(x, 6) == ByteAt(y, 6) && ByteAt(x, 7) == ByteAt(y, 7);
  }

  /** The accumulation step of the byte-wise reads. */
  function Or64(x: bv64, y: bv64): bv64 { x | y }

  /** Or-ing a byte into an empty lane sets that lane and no other. */
  lemma FillLane(x: bv64, b: bv8, k: nat, j: nat)
    requires k < 8 && j < 8 && ByteAt(x, k) == 0
    ensures ByteAt(Or64(x, ToLane(b, k)), j) == if j == k then b else ByteAt(x, j)
  {
    hide *;
    ByteOfOr(x, ToLane(b, k), j);
    ByteOfLane(b, k, j);
    if j == k {
      assert ByteAt(x, j) == ByteAt(x, k);
    }
    OrZero(ByteAt(x, j), b);
  }

  lemma OrZero(x: bv8, b: bv8)
    ensures x | 0 == x && 0 | b == b
  {}

  lemma ByteOfOr(x: bv64, y: bv64, j: nat)
    requires j < 8
    ensures ByteAt(Or64(x, y), j) == ByteAt(x, j) | ByteAt(y, j)
  {
    if j == 0 {} else if j == 1 {} else if j == 2 {} else if j == 3 {}
    else if j == 4 {} else if j == 5 {} else if j == 6 {} else {}
  }

  lemma ByteOfLane(b: bv8, k: nat, j: nat)
    requires k < 8 && j < 8
    ensures ByteAt(ToLane(b, k), j) == if j == k then b else 0
  {
    hide ToLane;
    LaneBytes(b, k);
    if j == 0 {} else if j == 1 {} else if j == 2 {} else if j == 3 {}
    else if j == 4 {} else if j == 5 {} else if j == 6 {} else {}
  }

  lemma LaneBytes(b: bv8, k: nat)
    requires k < 8
    ensures ByteAt(ToLane(b, k), 0) == if k == 0 then b else 0
    ensures ByteAt(ToLane(b, k), 1) == if k == 1 then b else 0
    ensures ByteAt(ToLane(b, k), 2) == if k == 2 then b else 0
    ensures ByteAt(ToLane(b, k), 3) == if k == 3 then b else 0
    ensures ByteAt(ToLane(b, k), 4) == if k == 4 then b else 0
    ensures ByteAt(ToLane(b, k), 5) == if k == 5 then b else 0
    ensures ByteAt(ToLane(b, k), 6) == if k == 6 then b else 0
    ensures ByteAt(ToLane(b, k), 7) == if k == 7 then b else 0
  {
    if k == 0 {} else if k == 1 {} else if k == 2 {} else if k == 3 {}
    else if k == 4 {} else if k == 5 {} else if k == 6 {} else {}
  }
}
