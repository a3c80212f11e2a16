/** The lane logic of the memory stage against little-endian memory accesses. */
module LaneAccess {
  import opened Rv64Pkg
  import opened Bits
  import opened Lanes
  import opened ByteMemory
  import opened MemStage
  import opened Isa

  // Shifting by lanes

  function OneUp(x: bv64): bv64 { x << 8 }
  function OneDown(x: bv64): bv64 { x >> 8 }

  /** x moved up by k lanes. */
  function UpLanes(x: bv64, k: nat): bv64 { if k == 0 then x else OneUp(UpLanes(x, k - 1)) }

  /** x moved down by k lanes. */
  function DownLanes(x: bv64, k: nat): bv64 { if k == 0 then x else OneDown(DownLanes(x, k - 1)) }

  lemma OneUpShifts(x: bv64)
    ensures OneUp(x) == x << 8 && OneUp(x << 8) == x << 16 && OneUp(x << 16) == x << 24
    ensures OneUp(x << 24) == x << 32 && OneUp(x << 32) == x << 40 && OneUp(x << 40) == x << 48
    ensures OneUp(x << 48) == x << 56
  {}

  lemma OneDownShifts(x: bv64)
    ensures OneDown(x) == x >> 8 && OneDown(x >> 8) == x >> 16 && OneDown(x >> 16) == x >> 24
    ensures OneDown(x >> 24) == x >> 32 && OneDown(x >> 32) == x >> 40 && OneDown(x >> 40) == x >> 48
    ensures OneDown(x >> 48) == x >> 56
  {}

  lemma UpLanesValues(x: bv64)
    ensures UpLanes(x, 0) == x && UpLanes(x, 1) == x << 8 && UpLanes(x, 2) == x << 16
    ensures UpLanes(x, 3) == x << 24 && UpLanes(x, 4) == x << 32 && UpLanes(x, 5) == x << 40
    ensures UpLanes(x, 6) == x << 48 && UpLanes(x, 7) == x << 56
  {
    OneUpShifts(x);
    hide OneUp;
    assert UpLanes(x, 1) == x << 8;
    assert UpLanes(x, 3) == x << 24;
    assert UpLanes(x, 5) == x << 40;
  }

  lemma DownLanesValues(x: bv64)
    ensures DownLanes(x, 0) == x && DownLanes(x, 1) == x >> 8 && DownLanes(x, 2) == x >> 16
    ensures DownLanes(x, 3) == x >> 24 && DownLanes(x, 4) == x >> 32 && DownLanes(x, 5) == x >> 40
    ensures DownLanes(x, 6) == x >> 48 && DownLanes(x, 7) == x >> 56
  {
    OneDownShifts(x);
    hide OneDown;
    assert DownLanes(x, 1) == x >> 8;
    assert DownLanes(x, 3) == x >> 24;
    assert DownLanes(x, 5) == x >> 40;
  }

  lemma ShiftUpIsLanes(x: bv64, addr: bv64)
    ensures ShiftUp(x, LaneShift(addr)) == UpLanes(x, Lane(addr))
  {
    var k := Lane(addr);
    LaneNum(addr);
    UpLanesValues(x);
    hide Lane, UpLanes;
    if k == 0 { assert LaneShift(addr) == 0; assert ShiftUp(x, 0) == x; }
    else if k == 1 { assert LaneShift(addr) == 8; assert ShiftUp(x, 8) == x << 8; }
    else if k == 2 { assert LaneShift(addr) == 16; assert ShiftUp(x, 16) == x << 16; }
    else if k == 3 { assert LaneShift(addr) == 24; assert ShiftUp(x, 24) == x << 24; }
    else if k == 4 { assert LaneShift(addr) == 32; assert ShiftUp(x, 32) == x << 32; }
    else if k == 5 { assert LaneShift(addr) == 40; assert ShiftUp(x, 40) == x << 40; }
    else if k == 6 { assert LaneShift(addr) == 48; assert ShiftUp(x, 48) == x << 48; }
    else { assert LaneShift(addr) == 56; assert ShiftUp(x, 56) == x << 56; }
  }

  lemma ShiftDownIsLanes(x: bv64, addr: bv64)
    ensures ShiftDown(x, LaneShift(addr)) == DownLanes(x, Lane(addr))
  {
    var k := Lane(addr);
    LaneNum(addr);
    DownLanesValues(x);
    hide Lane, DownLanes;
    if k == 0 { assert LaneShift(addr) == 0; assert ShiftDown(x, 0) == x; }
    else if k == 1 { assert LaneShift(addr) == 8; assert ShiftDown(x, 8) == x >> 8; }
    else if k == 2 { assert LaneShift(addr) == 16; assert ShiftDown(x, 16) == x >> 16; }
    else if k == 3 { assert LaneShift(addr) == 24; assert ShiftDown(x, 24) == x >> 24; }
    else if k == 4 { assert LaneShift(addr) == 32; assert ShiftDown(x, 32) == x >> 32; }
    else if k == 5 { assert LaneShift(addr) == 40; assert ShiftDown(x, 40) == x >> 40; }
    else if k == 6 { assert LaneShift(addr) == 48; assert ShiftDown(x, 48) == x >> 48; }
    else { assert LaneShift(addr) == 56; assert ShiftDown(x, 56) == x >> 56; }
  }

  // Bytes of shifted and masked doublewords

  lemma OneUpByte(x: bv64, j: nat)
    requires j < 7
    ensures ByteAt(OneUp(x), j + 1) == ByteAt(x, j)
  {
    if j == 0 {} else if j == 1 {} else if j == 2 {} else if j == 3 {}
    else if j == 4 {} else if j == 5 {} else {}
  }

  lemma OneDownByte(x: bv64, j: nat)
    requires j < 7
    ensures ByteAt(OneDown(x), j) == ByteAt(x, j + 1)
  {
    if j == 0 {} else if j == 1 {} else if j == 2 {} else if j == 3 {}
    else if j == 4 {} else if j == 5 {} else {}
  }

  lemma {:induction false} UpLanesByte(x: bv64, k: nat, j: nat)
    requires k + j < 8
    ensures ByteAt(UpLanes(x, k), k + j) == ByteAt(x, j)
  {
    hide ByteAt, OneUp;
    if k > 0 {
      UpLanesByte(x, k - 1, j);
      OneUpByte(UpLanes(x, k - 1), k - 1 + j);
    }
  }

  lemma {:induction false} DownLanesByte(x: bv64, k: nat, j: nat)
    requires k + j < 8
    ensures ByteAt(DownLanes(x, k), j) == ByteAt(x, k + j)
  {
    hide ByteAt, OneDown;
    if k > 0 {
      DownLanesByte(x, k - 1, j + 1);
      OneDownByte(DownLanes(x, k - 1), j);
    }
  }

  /** The low n bytes of x. */
  function LowBytes(x: bv64, n: nat): bv64
    requires n in {1, 2, 4, 8}
  {
    if n == 1 then x & 0xFF else if n == 2 then x & 0xFFFF else if n == 4 then x & 0xFFFF_FFFF else x
  }

  lemma LowBytesByte(x: bv64, n: nat, j: nat)
    requires n in {1, 2, 4, 8} && j < 8
    ensures ByteAt(LowBytes(x, n), j) == if j < n then ByteAt(x, j) else 0
  {
    if n == 1 {
      if j == 0 {} else if j == 1 {} else if j == 2 {} else if j == 3 {} else if j < 6 {} else {}
    } else if n == 2 {
      if j == 0 {} else if j == 1 {} else if j == 2 {} else if j == 3 {} else if j < 6 {} else {}
    } else if n == 4 {
      if j == 0 {} else if j == 1 {} else if j == 2 {} else if j == 3 {} else if j < 6 {} else {}
    } else {}
  }

  // Stores

  predicate StoreSize(size: bv3) { size == 0 || size == 1 || size == 2 || size == 3 }

  /** An access that passes the alignment gate stays in its doubleword. */
  lemma AlignedFits(size: bv3, addr: bv64)
    requires size != 7 && !AddrMisaligned(size, addr)
    ensures Lane(addr) + SizeBytes(size) <= 8
  {}

  lemma StoreDataIsLanes(size: bv3, addr: bv64, v: bv64)
    requires StoreSize(size) && !AddrMisaligned(size, addr)
    ensures StoreData(size, addr, v) == UpLanes(LowBytes(v, SizeBytes(size)), Lane(addr))
  {
    ShiftUpIsLanes(LowBytes(v, SizeBytes(size)), addr);
    hide ShiftUp, LaneShift;
    if size == 0 {} else if size == 1 {} else if size == 2 {} else {
      DoubleLane(addr);
      hide Lane;
    }
  }

  lemma DoubleLane(addr: bv64)
    requires addr & 7 == 0
    ensures Lane(addr) == 0
  {}

  /** Lane lane+i of the write data is byte i of the source register. */
  lemma StoreByte(size: bv3, addr: bv64, v: bv64, i: nat)
    requires StoreSize(size) && !AddrMisaligned(size, addr) && i < SizeBytes(size)
    ensures Lane(addr) + i < 8 && ByteAt(StoreData(size, addr, v), Lane(addr) + i) == ByteAt(v, i)
  {
    AlignedFits(size, addr);
    StoreDataIsLanes(size, addr, v);
    hide *;
    UpLanesByte(LowBytes(v, SizeBytes(size)), Lane(addr), i);
    LowBytesByte(v, SizeBytes(size), i);
  }

  lemma {:induction false} SameStore(m: Bytes, addr: bv64, v: bv64, lane: nat, w: bv64, n: nat)
    requires lane + n <= 8
    requires forall i :: 0 <= i < n ==> ByteAt(v, lane + i) == ByteAt(w, i)
    ensures WriteBytes(m, addr, v, lane, n) == WriteBytes(m, addr, w, 0, n)
  {
    hide ByteAt, Plus;
    if n > 0 {
      SameStore(m, addr, v, lane, w, n - 1);
    }
  }

  /** The bus write of a store leaves memory as a little-endian store does. */
  lemma StoreThroughBus(m: Bytes, addr: bv64, size: bv3, v: bv64)
    requires StoreSize(size) && !AddrMisaligned(size, addr)
    ensures Lane(addr) + SizeBytes(size) <= 8
    ensures BusWrite(m, addr, StoreData(size, addr, v), size) == StoreValue(m, addr, ParseAccess(size), v)
  {
    AlignedFits(size, addr);
    assert SizeBytes(size) == AccessBytes(ParseAccess(size));
    hide StoreData, Lane, AddrMisaligned, ByteAt;
    forall i | 0 <= i < SizeBytes(size)
      ensures ByteAt(StoreData(size, addr, v), Lane(addr) + i) == ByteAt(v, i)
    {
      StoreByte(size, addr, v, i);
    }
    SameStore(m, addr, StoreData(size, addr, v), Lane(addr), v, SizeBytes(size));
  }

  // Loads

  predicate LoadSize(size: bv3) { size != 7 }

  lemma ByteExtension(x: bv64)
    ensures (if x & 0x80 != 0 then 0xFFFF_FFFF_FFFF_FF00 | (x & 0xFF) else x & 0xFF) == Extend(x & 0xFF, Byte, true)
  {}

  lemma HalfExtension(x: bv64)
    ensures (if x & 0x8000 != 0 then 0xFFFF_FFFF_FFFF_0000 | (x & 0xFFFF) else x & 0xFFFF)
         == Extend(x & 0xFFFF, Half, true)
  {}

  lemma WordExtension(x: bv64)
    ensures SignExtend32(Low32(x)) == Extend(x & 0xFFFF_FFFF, Word, true)
  {
    assert Low32(x) == (x & 0xFFFF_FFFF) as bv32;
  }

  lemma SignedExtension(size: bv3, x: bv64)
    requires size & 4 == 0
    ensures ExtendLoad(size, x) == Extend(LowBytes(x, SizeBytes(size)), ParseAccess(size), true)
  {
    hide SignExtend32, Low32, Extend;
    if size == 0 {
      ByteExtension(x);
    } else if size == 1 {
      HalfExtension(x);
    } else if size == 2 {
      WordExtension(x);
    } else {
      NoExtension(x, Double, true);
    }
  }

  lemma UnsignedExtension(size: bv3, x: bv64)
    requires size & 4 != 0 && size != 7
    ensures ExtendLoad(size, x) == Extend(LowBytes(x, SizeBytes(size)), ParseAccess(size & 3), false)
  {
    hide SignExtend32, Low32, Extend;
    NoExtension(LowBytes(x, SizeBytes(size)), ParseAccess(size & 3), false);
    if size == 4 {
    } else if size == 5 {
    } else {
    }
  }

  /** The load aligner extends the low bytes of the shifted doubleword. */
  lemma LoadDataIsExtension(size: bv3, addr: bv64, rdata: bv64)
    requires LoadSize(size)
    ensures LoadData(size, addr, rdata)
         == Extend(LowBytes(ShiftDown(rdata, LaneShift(addr)), SizeBytes(size)), ParseAccess(size & 3), size & 4 == 0)
  {
    hide ShiftDown, LaneShift, ExtendLoad, Extend, LowBytes, SizeBytes, ParseAccess;
    if size & 4 == 0 {
      assert size & 3 == size;
      SignedExtension(size, ShiftDown(rdata, LaneShift(addr)));
    } else {
      UnsignedExtension(size, ShiftDown(rdata, LaneShift(addr)));
    }
  }

  lemma NoExtension(v: bv64, a: Access, signed: bool)
    requires signed ==> a == Double
    ensures Extend(v, a, signed) == v
  {}

  /** Byte j of the shifted bus word is byte j of the access. */
  lemma LoadByte(m: Bytes, addr: bv64, n: nat, j: nat)
    requires n in {1, 2, 4, 8} && Lane(addr) + n <= 8 && j < 8
    ensures ByteAt(LowBytes(DownLanes(ReadU64(m, Aligned(addr)), Lane(addr)), n), j)
         == if j < n then ReadByte(m, Plus(addr, j)) else 0
  {
    var r, k := ReadU64(m, Aligned(addr)), Lane(addr);
    hide ReadU64, Lane, Aligned, ByteAt, LowBytes, DownLanes, Plus, ReadByte;
    LowBytesByte(DownLanes(r, k), n, j);
    if j < n {
      DownLanesByte(r, k, j);
      AlignedPlusLane(addr, j);
    }
  }

  lemma PrefixByte(m: Bytes, addr: bv64, n: nat, j: nat)
    requires n <= 8 && j < 8
    ensures ByteAt(ReadPrefix(m, addr, n), j) == if j < n then ReadByte(m, Plus(addr, j)) else 0
  {
    hide ByteAt, ReadPrefix, Plus, ReadByte;
  }

  lemma LoadBytes(m: Bytes, addr: bv64, n: nat)
    requires n in {1, 2, 4, 8} && Lane(addr) + n <= 8
    ensures LowBytes(ShiftDown(ReadU64(m, Aligned(addr)), LaneShift(addr)), n) == ReadPrefix(m, addr, n)
  {
    var x := LowBytes(DownLanes(ReadU64(m, Aligned(addr)), Lane(addr)), n);
    ShiftDownIsLanes(ReadU64(m, Aligned(addr)), addr);
    hide *;
    forall j | 0 <= j < 8
      ensures ByteAt(x, j) == ByteAt(ReadPrefix(m, addr, n), j)
    {
      LoadByte(m, addr, n, j);
      PrefixByte(m, addr, n, j);
    }
    SameBytes(x, ReadPrefix(m, addr, n));
  }

  /** Reading the doubleword around an aligned address and aligning it is a little-endian load. */
  lemma LoadThroughBus(m: Bytes, addr: bv64, size: bv3)
    requires LoadSize(size) && !AddrMisaligned(size, addr)
    ensures LoadData(size, addr, ReadU64(m, Aligned(addr)))
         == LoadValue(m, addr, ParseAccess(size & 3), size & 4 == 0)
  {
    AlignedFits(size, addr);
    LoadDataIsExtension(size, addr, ReadU64(m, Aligned(addr)));
    LoadBytes(m, addr, SizeBytes(size));
    assert SizeBytes(size) == AccessBytes(ParseAccess(size & 3));
    hide LoadData, ReadU64, Aligned, Lane, AddrMisaligned, Extend, LowBytes, ShiftDown, LaneShift, ReadPrefix;
  }

  // Round trip and frame

  lemma UpdateOther(m: Bytes, p: bv64, b: bv8, x: bv64)
    requires x != p
    ensures ReadByte(m[At(p) := b], x) == ReadByte(m, x)
  {}

  lemma {:induction false} WrittenByte(m: Bytes, addr: bv64, v: bv64, lane: nat, n: nat, i: nat)
    requires i < n && lane + n <= 8
    ensures ReadByte(WriteBytes(m, addr, v, lane, n), Plus(addr, i)) == ByteAt(v, lane + i)
  {
    hide ByteAt, Plus;
    if i < n - 1 {
      PlusInjective(addr, i, n - 1);
      UpdateOther(WriteBytes(m, addr, v, lane, n - 1), Plus(addr, n - 1), ByteAt(v, lane + n - 1), Plus(addr, i));
      WrittenByte(m, addr, v, lane, n - 1, i);
    }
  }

  lemma {:induction false} UntouchedByte(m: Bytes, addr: bv64, v: bv64, lane: nat, n: nat, x: bv64)
    requires lane + n <= 8 && forall i :: 0 <= i < n ==> x != Plus(addr, i)
    ensures ReadByte(WriteBytes(m, addr, v, lane, n), x) == ReadByte(m, x)
  {
    hide ByteAt, Plus;
    if n > 0 {
      UpdateOther(WriteBytes(m, addr, v, lane, n - 1), Plus(addr, n - 1), ByteAt(v, lane + n - 1), x);
      UntouchedByte(m, addr, v, lane, n - 1, x);
    }
  }

  lemma PlusInjective(addr: bv64, i: nat, j: nat)
    requires i < j < 8
    ensures Plus(addr, i) != Plus(addr, j)
  {
    hide *;
    NumInjective(i, j);
    PlusIsSum(addr, i);
    PlusIsSum(addr, j);
    if Plus(addr, i) == Plus(addr, j) {
      SumCancels(addr, Num(i), Num(j));
    }
  }

  lemma PlusIsSum(addr: bv64, i: nat)
    requires i < 8
    ensures Plus(addr, i) == Sum(addr, Num(i))
  {}

  lemma SumCancels(a: bv64, x: bv64, y: bv64)
    requires Sum(a, x) == Sum(a, y)
    ensures x == y
  {
    hide *;
    SumNegates(a, x);
    SumNegates(a, y);
  }

  lemma SumNegates(a: bv64, x: bv64)
    ensures Sum(0 - a, Sum(a, x)) == x
  {
    assert Sum(0 - a, a + x) == x;
  }

  lemma NumInjective(i: nat, j: nat)
    requires i < j < 8
    ensures Num(i) != Num(j)
  {
    if j == 1 {} else if j == 2 {} else if j == 3 {} else if j == 4 {} else if j == 5 {} else if j == 6 {} else {}
  }
}
