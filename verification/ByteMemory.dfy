/** The byte-addressed memory of the compliance harness. */
module ByteMemory {
  import opened Bits
  import opened Lanes

  /** A memory location. */
  datatype Location = At(addr: bv64)

  type Bytes = map<Location, bv8>

  /** Bytes never written read as zero. */
  function ReadByte(m: Bytes, addr: bv64): bv8 {
    if At(addr) in m then m[At(addr)] else 0
  }

  /** Address of byte i of an access; addresses wrap around. */
  function Plus(addr: bv64, i: nat): bv64
    requires i <= 8
  {
    Sum(addr, Num(i))
  }

  function Aligned(addr: bv64): bv64 { addr & 0xFFFF_FFFF_FFFF_FFF8 }

  /** Bytes moved by an access of the given size code. */
  function SizeBytes(size: bv3): (n: nat)
    ensures n in {1, 2, 4, 8}
  {
    if size == 0 || size == 4 then 1
    else if size == 1 || size == 5 then 2
    else if size == 2 || size == 6 then 4
    else 8
  }

  /** Stores n bytes of v, from byte `lane` on, at addr and up. */
  function WriteBytes(m: Bytes, addr: bv64, v: bv64, lane: nat, n: nat): Bytes
    requires lane + n <= 8
  {
    if n == 0 then m else WriteBytes(m, addr, v, lane, n - 1)[At(Plus(addr, n - 1)) := ByteAt(v, lane + n - 1)]
  }

  /** Effect of a bus write: every byte comes from the lane its address selects. */
  function BusWrite(m: Bytes, addr: bv64, wdata: bv64, size: bv3): Bytes
    requires Lane(addr) + SizeBytes(size) <= 8
  {
    WriteBytes(m, addr, wdata, Lane(addr), SizeBytes(size))
  }

  /** v is the little-endian value of the n bytes from addr on. */
  ghost predicate IsReadOf(v: bv64, m: Bytes, addr: bv64, n: nat)
    requires n <= 8
  {
    forall k :: 0 <= k < 8 ==> ByteAt(v, k) == if k < n then ReadByte(m, Plus(addr, k)) else 0
  }

  lemma ZeroBytes(k: nat)
    requires k < 8
    ensures ByteAt(0, k) == 0
  {
    if k == 0 {} else if k == 1 {} else if k == 2 {} else if k == 3 {}
    else if k == 4 {} else if k == 5 {} else if k == 6 {} else {}
  }

  lemma ZeroIsEmptyRead(m: Bytes, addr: bv64)
    ensures IsReadOf(0, m, addr, 0)
  {
    forall k | 0 <= k < 8
      ensures ByteAt(0, k) == 0
    {
      ZeroBytes(k);
    }
  }

  lemma ReadStep(v: bv64, m: Bytes, addr: bv64, n: nat)
    requires n < 8 && IsReadOf(v, m, addr, n)
    ensures IsReadOf(Or64(v, ToLane(ReadByte(m, Plus(addr, n)), n)), m, addr, n + 1)
  {
    var b := ReadByte(m, Plus(addr, n));
    hide ByteAt, Or64, ToLane, Plus, ReadByte;
    forall k | 0 <= k < 8
      ensures ByteAt(Or64(v, ToLane(b, n)), k) == if k < n + 1 then ReadByte(m, Plus(addr, k)) else 0
    {
      FillLane(v, b, n, k);
    }
  }

  /** What the accumulating read returns. */
  function ReadPrefix(m: Bytes, addr: bv64, n: nat): (v: bv64)
    requires n <= 8
    ensures IsReadOf(v, m, addr, n)
  {
    if n == 0 then
      ZeroIsEmptyRead(m, addr);
      0
    else
      var v := ReadPrefix(m, addr, n - 1);
      ReadStep(v, m, addr, n - 1);
      Or64(v, ToLane(ReadByte(m, Plus(addr, n - 1)), n - 1))
  }

  function ReadU64(m: Bytes, addr: bv64): (v: bv64)
    ensures IsReadOf(v, m, addr, 8)
  {
    ReadPrefix(m, addr, 8)
  }

  /** The four bytes from addr on. */
  function ReadU32(m: Bytes, addr: bv64): bv32 { Low32(ReadPrefix(m, addr, 4)) }

  /** Within a doubleword, lane arithmetic agrees with address arithmetic. */
  lemma AlignedPlusLane(addr: bv64, i: nat)
    requires Lane(addr) + i < 8
    ensures Plus(Aligned(addr), Lane(addr) + i) == Plus(addr, i)
  {
    hide Sum, Num, Aligned, Lane;
    AlignedLane(addr);
    NumAdd(Lane(addr), i);
    SumAssociates(Aligned(addr), Num(Lane(addr)), Num(i));
  }

  lemma AlignedLane(addr: bv64)
    ensures Sum(Aligned(addr), Num(Lane(addr))) == addr
  {
    var k := Lane(addr);
    if k == 0 {} else if k == 1 {} else if k == 2 {} else if k == 3 {}
    else if k == 4 {} else if k == 5 {} else if k == 6 {} else {}
  }

  class Memory {
    var bytes: Bytes

    constructor ()
      ensures bytes == map[]
    {
      bytes := map[];
    }

    method WriteByte(addr: bv64, value: bv8)
      modifies this
      ensures bytes == old(bytes)[At(addr) := value]
    {
      bytes := bytes[At(addr) := value];
    }

    /** The accumulating loop of the 32-bit and 64-bit reads. */
    method ReadValue(addr: bv64, n: nat) returns (value: bv64)
      requires n <= 8
      ensures value == ReadPrefix(bytes, addr, n)
    {
      hide Or64, ToLane, ReadByte, Plus;
      value := 0;
      var i := 0;
      while i < n
        invariant 0 <= i <= n
        invariant value == ReadPrefix(bytes, addr, i)
      {
        value := Or64(value, ToLane(ReadByte(bytes, Plus(addr, i)), i));
        i := i + 1;
      }
    }

    /** A lane past 7 would shift by the full width, which the language leaves undefined. */
    method WriteStore(addr: bv64, wdata: bv64, size: bv3)
      requires Lane(addr) + SizeBytes(size) <= 8
      modifies this
      ensures bytes == BusWrite(old(bytes), addr, wdata, size)
    {
      hide Plus, ByteAt, Aligned, Lane, SizeBytes;
      var n := SizeBytes(size);
      var offset, aligned := Lane(addr), Aligned(addr);
      var i := 0;
      while i < n
        invariant 0 <= i <= n
        invariant bytes == WriteBytes(old(bytes), addr, wdata, offset, i)
      {
        AlignedPlusLane(addr, i);
        WriteByte(Plus(aligned, offset + i), ByteAt(wdata, offset + i));
        i := i + 1;
      }
    }
  }
}
