/** Stores followed by loads, through the lane logic and the harness memory. */
module LaneRoundTrip {
  import opened Lanes
  import opened ByteMemory
  import opened MemStage
  import opened LaneAccess
  import opened Isa

  // Which bytes a store writes

  predicate StrobeBit(strobe: bv8, k: nat)
    requires k < 8
  {
    if k == 0 then strobe & 0x01 != 0 else if k == 1 then strobe & 0x02 != 0
    else if k == 2 then strobe & 0x04 != 0 else if k == 3 then strobe & 0x08 != 0
    else if k == 4 then strobe & 0x10 != 0 else if k == 5 then strobe & 0x20 != 0
    else if k == 6 then strobe & 0x40 != 0 else strobe & 0x80 != 0
  }

  /** The strobe selects the lanes of the access and no others. */
  lemma StrobeSelectsLanes(size: bv3, addr: bv64, k: nat)
    requires StoreSize(size) && !AddrMisaligned(size, addr) && k < 8
    ensures StrobeBit(WriteStrobe(size, addr), k) <==> Lane(addr) <= k < Lane(addr) + SizeBytes(size)
  {
    if size == 0 { ByteStrobe(addr, k); }
    else if size == 1 { HalfStrobe(addr, k); }
    else if size == 2 { WordStrobe(addr, k); }
    else {
      DoubleLane(addr);
      hide Lane;
    }
  }

  lemma ByteStrobe(addr: bv64, k: nat)
    requires k < 8
    ensures StrobeBit(WriteStrobe(0, addr), k) <==> k == Lane(addr)
  {
    if k == 0 {} else if k == 1 {} else if k == 2 {} else if k == 3 {}
    else if k == 4 {} else if k == 5 {} else if k == 6 {} else {}
  }

  lemma HalfStrobe(addr: bv64, k: nat)
    requires addr & 1 == 0 && k < 8
    ensures StrobeBit(WriteStrobe(1, addr), k) <==> Lane(addr) <= k < Lane(addr) + 2
  {
    if k == 0 {} else if k == 1 {} else if k == 2 {} else if k == 3 {}
    else if k == 4 {} else if k == 5 {} else if k == 6 {} else {}
  }

  lemma WordStrobe(addr: bv64, k: nat)
    requires addr & 3 == 0 && k < 8
    ensures StrobeBit(WriteStrobe(2, addr), k) <==> Lane(addr) <= k < Lane(addr) + 4
  {
    if k == 0 {} else if k == 1 {} else if k == 2 {} else if k == 3 {}
    else if k == 4 {} else if k == 5 {} else if k == 6 {} else {}
  }

  // Addresses as doubleword and lane

  lemma SplitSum(a: bv64, c: bv64)
    requires c & 0xFFFF_FFFF_FFFF_FFF8 == 0
    ensures Aligned(Sum(Aligned(a), c)) == Aligned(a) && Sum(Aligned(a), c) & 7 == c
  {}

  lemma NumIsLow(k: nat)
    requires k < 8
    ensures Num(k) & 0xFFFF_FFFF_FFFF_FFF8 == 0
  {}

  lemma SplitPlus(addr: bv64, k: nat)
    requires k < 8
    ensures Aligned(Plus(Aligned(addr), k)) == Aligned(addr) && Lane(Plus(Aligned(addr), k)) == k
  {
    hide Sum, Num, Aligned, Lane;
    var x := Plus(Aligned(addr), k);
    NumIsLow(k);
    SplitSum(addr, Num(k));
    LaneNum(x);
    if Lane(x) < k {
      NumInjective(Lane(x), k);
    } else if Lane(x) > k {
      NumInjective(k, Lane(x));
    }
  }

  /** x is byte i of the access at addr exactly when it is in the doubleword of addr, i lanes up. */
  lemma ByteOfAccess(addr: bv64, x: bv64, i: nat)
    requires Lane(addr) + i < 8
    ensures x == Plus(addr, i) <==> Aligned(x) == Aligned(addr) && Lane(x) == Lane(addr) + i
  {
    hide Sum, Num, Aligned, Lane;
    AlignedPlusLane(addr, i);
    SplitPlus(addr, Lane(addr) + i);
    AlignedLane(x);
  }

  /**
    A store leaves memory as a byte-strobed doubleword port would: a byte changes only in the doubleword of the
    address, in a strobed lane, and takes the value of its own lane.
   */
  lemma StoreIsStrobed(m: Bytes, addr: bv64, size: bv3, v: bv64, x: bv64)
    requires StoreSize(size) && !AddrMisaligned(size, addr)
    ensures Lane(addr) + SizeBytes(size) <= 8
    ensures ReadByte(BusWrite(m, addr, StoreData(size, addr, v), size), x)
         == if Aligned(x) == Aligned(addr) && StrobeBit(WriteStrobe(size, addr), Lane(x))
            then ByteAt(StoreData(size, addr, v), Lane(x)) else ReadByte(m, x)
  {
    var n, k := SizeBytes(size), Lane(addr);
    AlignedFits(size, addr);
    StrobeSelectsLanes(size, addr, Lane(x));
    hide StoreData, Lane, AddrMisaligned, ByteAt, SizeBytes, StoreSize, StrobeBit, WriteStrobe, Aligned, Plus;
    hide WriteBytes, ReadByte;
    var d := StoreData(size, addr, v);
    if Aligned(x) == Aligned(addr) && k <= Lane(x) < k + n {
      ByteOfAccess(addr, x, Lane(x) - k);
      WrittenByte(m, addr, d, k, n, Lane(x) - k);
    } else {
      forall i | 0 <= i < n
        ensures x != Plus(addr, i)
      {
        ByteOfAccess(addr, x, i);
      }
      UntouchedByte(m, addr, d, k, n, x);
    }
  }

  // Round trip

  /** Reading back the bytes just written gives the low bytes of the value. */
  lemma ReadBack(m: Bytes, addr: bv64, v: bv64, n: nat)
    requires n in {1, 2, 4, 8}
    ensures ReadPrefix(WriteBytes(m, addr, v, 0, n), addr, n) == LowBytes(v, n)
  {
    hide ByteAt, Plus, ReadByte, WriteBytes, ReadPrefix, LowBytes;
    var r := ReadPrefix(WriteBytes(m, addr, v, 0, n), addr, n);
    forall j | 0 <= j < 8
      ensures ByteAt(r, j) == ByteAt(LowBytes(v, n), j)
    {
      LowBytesByte(v, n, j);
      PrefixByte(WriteBytes(m, addr, v, 0, n), addr, n, j);
      if j < n {
        WrittenByte(m, addr, v, 0, n, j);
      }
    }
    SameBytes(r, LowBytes(v, n));
  }

  /** A load that matches an earlier store returns the stored low bytes, sign- or zero-extended. */
  lemma StoreThenLoad(m: Bytes, addr: bv64, size: bv3, v: bv64, load: bv3)
    requires StoreSize(size) && !AddrMisaligned(size, addr) && LoadSize(load) && load & 3 == size
    ensures Lane(addr) + SizeBytes(size) <= 8
    ensures LoadData(load, addr, ReadU64(BusWrite(m, addr, StoreData(size, addr, v), size), Aligned(addr)))
         == Extend(LowBytes(v, SizeBytes(size)), ParseAccess(size), load & 4 == 0)
  {
    StoreThroughBus(m, addr, size, v);
    SameGate(load, addr);
    AccessOfSize(size);
    hide LoadData, StoreData, ReadU64, Aligned, Lane, AddrMisaligned, Extend, LowBytes, BusWrite, WriteBytes;
    hide ParseAccess;
    var after := BusWrite(m, addr, StoreData(size, addr, v), size);
    LoadThroughBus(after, addr, load);
    ReadBack(m, addr, v, SizeBytes(size));
  }

  lemma SameGate(load: bv3, addr: bv64)
    requires load != 7
    ensures AddrMisaligned(load, addr) == AddrMisaligned(load & 3, addr)
  {}

  lemma AccessOfSize(size: bv3)
    requires StoreSize(size)
    ensures AccessBytes(ParseAccess(size)) == SizeBytes(size)
  {}

  /** A load of other bytes is not affected by a store. */
  lemma DisjointLoad(m: Bytes, addr: bv64, size: bv3, v: bv64, other: bv64, load: bv3)
    requires StoreSize(size) && !AddrMisaligned(size, addr) && LoadSize(load) && !AddrMisaligned(load, other)
    requires forall i, j :: 0 <= i < SizeBytes(size) && 0 <= j < SizeBytes(load) ==> Plus(addr, i) != Plus(other, j)
    ensures Lane(addr) + SizeBytes(size) <= 8
    ensures LoadData(load, other, ReadU64(BusWrite(m, addr, StoreData(size, addr, v), size), Aligned(other)))
         == LoadData(load, other, ReadU64(m, Aligned(other)))
  {
    AlignedFits(size, addr);
    LoadBytesCount(load);
    hide LoadData, StoreData, ReadU64, Aligned, Lane, AddrMisaligned, Extend, BusWrite, WriteBytes, ParseAccess;
    hide StoreSize, Plus, ByteAt;
    hide ReadPrefix, ReadByte, SizeBytes;
    var n := SizeBytes(load);
    var after := BusWrite(m, addr, StoreData(size, addr, v), size);
    LoadThroughBus(m, other, load);
    LoadThroughBus(after, other, load);
    forall j | 0 <= j < 8
      ensures ByteAt(ReadPrefix(after, other, n), j) == ByteAt(ReadPrefix(m, other, n), j)
    {
      PrefixByte(m, other, n, j);
      PrefixByte(after, other, n, j);
      if j < n {
        BusWriteUnfolds(m, addr, StoreData(size, addr, v), size);
        UntouchedByte(m, addr, StoreData(size, addr, v), Lane(addr), SizeBytes(size), Plus(other, j));
      }
    }
    SameBytes(ReadPrefix(after, other, n), ReadPrefix(m, other, n));
  }

  lemma BusWriteUnfolds(m: Bytes, addr: bv64, d: bv64, size: bv3)
    requires Lane(addr) + SizeBytes(size) <= 8
    ensures BusWrite(m, addr, d, size) == WriteBytes(m, addr, d, Lane(addr), SizeBytes(size))
  {}

  lemma LoadBytesCount(load: bv3)
    requires load != 7
    ensures AccessBytes(ParseAccess(load & 3)) == SizeBytes(load)
  {}
}
