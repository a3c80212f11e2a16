/** Memory accesses by address values, bytes and bits, and the memory as a replay of its writes. */
module MemoryMeaning {
  import opened Rv64Pkg
  import opened Bits
  import opened BitString
  import opened BitArithmetic
  import opened LaneBits
  import opened Lanes
  import opened ByteMemory
  import opened Decoder
  import opened MemStage
  import opened PipeRegs
  import opened TrapCtrl
  import opened WriteBack
  import opened RichardCore
  import opened Sequential
  import opened Pipeline
  import Isa

  // Addresses and bytes

  lemma NumValues(i: nat)
    requires i <= 8
    ensures Value(Num(i)) == i
  {
    hide *;
    BitValues();
    NumZero();
    if i > 0 {
      NumValues(i - 1);
      NumStep(i - 1);
      SumIsAdd(Num(i - 1), 1);
      AddValue(Num(i - 1), 1);
      EightFits();
      SmallRemainder(i, Pow2(64));
    }
  }

  lemma SmallRemainder(a: nat, b: nat)
    requires a < b
    ensures a % b == a
  {}

  lemma AddValue(x: bv64, y: bv64)
    ensures Value(Add(x, y)) == (Value(x) + Value(y)) % Pow2(64)
  {
    hide Add, Low, Pow2;
    AddLow(x, y, 64);
  }

  lemma EightFits()
    ensures Pow2(64) > 8
  {
    SmallPowers();
    hide Pow2;
    Pow2Add(4, 60);
    Pow2Grows(0, 60);
  }

  lemma SumIsAdd(x: bv64, y: bv64)
    ensures Sum(x, y) == Add(x, y)
  {}

  /** Byte i of an access is i addresses on, modulo the address width. */
  lemma PlusValue(addr: bv64, i: nat)
    requires i <= 8
    ensures Value(Plus(addr, i)) == (Value(addr) + i) % Pow2(64)
  {
    hide Num, Sum, Low, Pow2, Add;
    NumValues(i);
    SumIsAdd(addr, Num(i));
    AddValue(addr, Num(i));
  }

  /** A read of n bytes is little-endian: bit j of the byte at offset k is bit 8k + j, and the rest is zero. */
  lemma ReadBits(m: Bytes, addr: bv64, n: nat, k: nat, j: nat)
    requires n <= 8 && k < 8 && j < 8
    ensures Bit(ReadPrefix(m, addr, n), 8 * k + j)
       <==> k < n && Bit(ReadByte(m, Plus(addr, k)) as bv64, j)
  {
    hide Bit, ByteAt, ReadPrefix, ReadByte, Plus;
    var v := ReadPrefix(m, addr, n);
    ByteBits(v, k, j);
    assert ByteAt(v, k) == if k < n then ReadByte(m, Plus(addr, k)) else 0;
    ZeroBits(j);
  }

  lemma LowHalfBytes(x: bv64, k: nat)
    requires k < 4
    ensures ByteAt(ZeroExtend32(Low32(x)), k) == ByteAt(x, k)
  {
    if k == 0 {} else if k == 1 {} else if k == 2 {} else {}
  }

  /** The fetched word is the four bytes from its address on. */
  lemma FetchedBytes(m: Bytes, addr: bv64, k: nat)
    requires k < 4
    ensures ByteAt(ZeroExtend32(ReadU32(m, addr)), k) == ReadByte(m, Plus(addr, k))
  {
    hide ByteAt, ReadPrefix, ReadByte, Plus, Low32, ZeroExtend32;
    var v := ReadPrefix(m, addr, 4);
    LowHalfBytes(v, k);
    assert ByteAt(v, k) == ReadByte(m, Plus(addr, k));
  }

  // Alignment and faults

  lemma LowRemainders(addr: bv64)
    ensures Value(addr) % 2 == Low(addr, 1) && Value(addr) % 4 == Low(addr, 2) && Value(addr) % 8 == Low(addr, 3)
  {
    hide Low, Pow2;
    SmallPowers();
    ValueSplit(addr, 1);
    ValueSplit(addr, 2);
    ValueSplit(addr, 3);
  }

  lemma LowMasks(addr: bv64)
    ensures addr & 3 != 0 <==> addr & 1 != 0 || addr & 2 != 0
    ensures addr & 7 != 0 <==> addr & 1 != 0 || addr & 2 != 0 || addr & 4 != 0
  {}

  lemma MaskRemainders(addr: bv64)
    ensures (addr & 1 == 0 <==> Value(addr) % 2 == 0) && (addr & 3 == 0 <==> Value(addr) % 4 == 0)
    ensures addr & 7 == 0 <==> Value(addr) % 8 == 0
  {
    hide Low;
    LowMasks(addr);
    LowRemainders(addr);
    AmountSteps(addr);
  }

  /** The gate passes an access when its size divides the address. */
  lemma AlignmentIsDivision(size: bv3, addr: bv64)
    requires size != 7
    ensures AddrMisaligned(size, addr) <==> Value(addr) % SizeBytes(size) != 0
  {
    hide Value;
    MaskRemainders(addr);
  }

  /** A misaligned load or store asks for nothing on the bus and retires as a fault with its address. */
  lemma MisalignedFaults(q: ExMem, rdata: bv64)
    requires q.mem.memSize != 7
    ensures var w, odd := Retire(MemOutput(q, rdata)), Value(q.aluResult) % SizeBytes(q.mem.memSize) != 0;
      (w.loadFault <==> q.mem.isLoad && odd) && (w.storeFault <==> q.mem.isStore && odd)
      && (ReadRequest(q.mem, q.aluResult) <==> q.mem.isLoad && !odd)
      && (WriteRequest(q.mem, q.aluResult) <==> q.mem.isStore && !odd)
      && (w.loadFault || w.storeFault ==> w.badAddr == q.aluResult) && w.pc == q.pc && w.instr == q.instr
  {
    hide Value, AddrMisaligned, SizeBytes, LoadData, CsrRequest;
    AlignmentIsDivision(q.mem.memSize, q.aluResult);
  }

  /** Size codes without an access move nothing. */
  lemma UnusedSizes(size: bv3, addr: bv64, x: bv64, c: MemCtrl)
    ensures size & 4 != 0 ==> StoreData(size, addr, x) == 0 && WriteStrobe(size, addr) == 0
    ensures LoadData(7, addr, x) == 0 && !AddrMisaligned(7, addr) && SizeBytes(7) == 8
    ensures !c.isStore ==> BusWriteData(c, addr, x) == 0
  {
    hide LaneShift, ShiftUp, ShiftDown;
  }

  /** Unwritten memory reads as zero. */
  lemma {:induction false} FreshMemory(addr: bv64, n: nat)
    requires n <= 8
    ensures ReadPrefix(map[], addr, n) == 0
  {
    hide Plus, ToLane, Or64;
    if n > 0 {
      FreshMemory(addr, n - 1);
      NothingAdded(n - 1);
    }
  }

  lemma NothingAdded(k: nat)
    requires k < 8
    ensures Or64(0, ToLane(0, k)) == 0
  {
    if k == 0 {} else if k == 1 {} else if k == 2 {} else if k == 3 {}
    else if k == 4 {} else if k == 5 {} else if k == 6 {} else {}
  }

  /** The interpreter's scope: a legal word, data addresses divisible by the access, targets divisible by four. */
  lemma ScopeExactly(h: Isa.Hart, w: bv32)
    ensures Isa.InScope(h, w) <==>
      match Isa.Parse(w)
      case None => false
      case Some(i) =>
        (i.Load? || i.Store? ==> Value(Isa.Address(h, i.rs1, i.offset)) % Isa.AccessBytes(i.access) == 0)
        && (i.Jal? || i.Jalr? || (i.Branch? && Isa.Holds(i.cond, ReadReg(h.regs, i.rs1), ReadReg(h.regs, i.rs2))) ==>
              Value(Isa.NextPc(h, i)) % 4 == 0)
  {
    hide Isa.Parse, Isa.Address, Isa.NextPc, Isa.Holds, Value, Isa.NaturallyAligned, Isa.AccessBytes;
    match Isa.Parse(w)
    case None =>
    case Some(i) =>
      MaskRemainders(Isa.NextPc(h, i));
      if i.Load? || i.Store? {
        NaturalIsDivision(Isa.Address(h, i.rs1, i.offset), i.access);
      }
  }

  lemma NaturalIsDivision(addr: bv64, a: Isa.Access)
    ensures Isa.NaturallyAligned(addr, a) <==> Value(addr) % Isa.AccessBytes(a) == 0
  {
    hide Value;
    MaskRemainders(addr);
  }

  // The host address

  predicate AtMost(x: bv64, y: bv64) { x <= y }

  lemma AtMostIs(x: bv64, y: bv64)
    ensures AtMost(x, y) <==> !(y < x)
  {}

  lemma AtMostValue(x: bv64, y: bv64)
    ensures AtMost(x, y) <==> Value(x) <= Value(y)
  {
    hide Value, AtMost;
    AtMostIs(x, y);
    ValueOrder(y, x);
  }

  lemma TouchesRaw(addr: bv64, toHost: bv64)
    ensures Touches(addr, toHost) <==> AtMost(addr, toHost + 3) && AtMost(toHost, addr + 7)
  {}

  lemma AddIs(x: bv64, y: bv64)
    ensures Add(x, y) == x + y
  {}

  lemma TouchesIs(addr: bv64, toHost: bv64)
    ensures Touches(addr, toHost) <==> AtMost(addr, Add(toHost, 3)) && AtMost(toHost, Add(addr, 7))
  {
    hide *;
    TouchesRaw(addr, toHost);
    AddIs(toHost, 3);
    AddIs(addr, 7);
  }

  /** The test of the harness: away from the top, the overlap of eight bytes with the four of the host word. */
  lemma TouchesIsOverlap(addr: bv64, toHost: bv64)
    ensures var x, y, size := Value(addr), Value(toHost), Pow2(64);
      (Touches(addr, toHost) <==> x <= (y + 3) % size && y <= (x + 7) % size)
      && (x + 7 < size && y + 3 < size ==> (Touches(addr, toHost) <==> x < y + 4 && y < x + 8))
  {
    hide *;
    TouchesIs(addr, toHost);
    SmallNumerals();
    NumValues(3);
    NumValues(7);
    AddValue(toHost, Num(3));
    AddValue(addr, Num(7));
    AtMostValue(addr, Add(toHost, 3));
    AtMostValue(toHost, Add(addr, 7));
    var x, y, size := Value(addr), Value(toHost), Pow2(64);
    if x + 7 < size && y + 3 < size {
      SmallRemainder(y + 3, size);
      SmallRemainder(x + 7, size);
    }
  }

  lemma SmallNumerals()
    ensures Num(3) == 3 && Num(7) == 7
  {}

  // Memory as a replay of its writes

  /** The address i bytes on. */
  function After(addr: bv64, i: nat): bv64 { if i == 0 then addr else Sum(After(addr, i - 1), 1) }

  /** The memory with the given bytes at successive addresses. */
  function Deposit(m: Bytes, addr: bv64, bytes: seq<bv8>): Bytes {
    if bytes == [] then m
    else
      var n := |bytes| - 1;
      Deposit(m, addr, bytes[..n])[At(After(addr, n)) := bytes[n]]
  }

  function Replay(m: Bytes, es: seq<WriteEvent>): Bytes {
    if es == [] then m
    else Deposit(Replay(m, es[..|es| - 1]), es[|es| - 1].addr, es[|es| - 1].bytes)
  }

  lemma {:induction false} AfterIsPlus(addr: bv64, i: nat)
    requires i <= 8
    ensures After(addr, i) == Plus(addr, i)
  {
    hide Sum, Num;
    NumZero();
    SumAssociates(addr, 0, 0);
    if i > 0 {
      AfterIsPlus(addr, i - 1);
      NumStep(i - 1);
      SumAssociates(addr, Num(i - 1), 1);
    }
  }

  lemma {:induction false} DepositIsWrite(m: Bytes, addr: bv64, v: bv64, lane: nat, n: nat)
    requires lane + n <= 8
    ensures Deposit(m, addr, BytesFrom(v, lane, n)) == WriteBytes(m, addr, v, lane, n)
  {
    hide ByteAt, Plus, After;
    if n > 0 {
      assert BytesFrom(v, lane, n)[..n - 1] == BytesFrom(v, lane, n - 1);
      DepositIsWrite(m, addr, v, lane, n - 1);
      AfterIsPlus(addr, n - 1);
    }
  }

  lemma ReplayOne(m: Bytes, es: seq<WriteEvent>, tail: seq<WriteEvent>)
    requires |tail| <= 1
    ensures Replay(m, es + tail)
         == if tail == [] then Replay(m, es) else Deposit(Replay(m, es), tail[0].addr, tail[0].bytes)
  {
    hide Deposit;
    if tail == [] {
      assert es + tail == es;
    } else {
      assert (es + tail)[..|es + tail| - 1] == es;
    }
  }

  lemma StoreReplays(m: Bytes, h: Isa.Hart, w: bv32)
    requires h.mem == m
    ensures var es := StoreEvents(h, w);
      |es| <= 1 && Isa.Next(h, w).mem == if es == [] then m else Deposit(m, es[0].addr, es[0].bytes)
  {
    hide Isa.Parse, Isa.Address, Deposit, BytesFrom, WriteBytes, Isa.AccessBytes, Isa.NextPc, Isa.NextRegs;
    match Isa.Parse(w)
    case Some(Store(a, rs1, rs2, offset)) =>
      DepositIsWrite(m, Isa.Address(h, rs1, offset), ReadReg(h.regs, rs2), 0, Isa.AccessBytes(a));
    case _ =>
  }

  /** The memory after n instructions is the initial one with their stores replayed. */
  lemma {:induction false} StoresMakeMemory(p: Setting, n: nat)
    ensures Replay(p.mem, StoreTrace(p, n)) == HartAt(p, n).mem
  {
    hide Replay, StoreEvents, Isa.Next, WordAt;
    if n == 0 {
      ReplayNone(p.mem);
    } else {
      StoresMakeMemory(p, n - 1);
      StoreReplays(HartAt(p, n - 1).mem, HartAt(p, n - 1), WordAt(p, n - 1));
      ReplayOne(p.mem, StoreTrace(p, n - 1), StoreEvents(HartAt(p, n - 1), WordAt(p, n - 1)));
      HartNext(p, n - 1);
    }
  }

  lemma HartNext(p: Setting, n: nat)
    ensures HartAt(p, n + 1) == Isa.Next(HartAt(p, n), WordAt(p, n))
  {
    hide Isa.Next;
  }

  lemma ReplayNone(m: Bytes)
    ensures Replay(m, []) == m
  {}

  lemma PortReplays(m: Bytes, c: Core)
    ensures var es := PortEvents(c);
      |es| <= 1 && BusStore(m, c.exMem) == if es == [] then m else Deposit(m, es[0].addr, es[0].bytes)
  {
    hide Lane, SizeBytes, Deposit, BytesFrom, WriteBytes, WriteRequest, BusWriteData;
    var q := c.exMem;
    if WriteRequest(q.mem, q.aluResult) && Lane(q.aluResult) + SizeBytes(q.mem.memSize) <= 8 {
      DepositIsWrite(m, q.aluResult, DmemWdata(c), Lane(q.aluResult), SizeBytes(q.mem.memSize));
    }
  }

  /** In every run whatsoever the memory is the initial one with the requests of the write port replayed. */
  lemma {:induction false} PortMakesMemory(p: Setting, t: nat)
    ensures Replay(p.mem, PortTrace(p, t + 1)) == SystemAt(p, t).mem
  {
    hide Replay, PortEvents, Step, BusStore, ResetCore;
    if t == 0 {
      NoPortAtReset();
      ReplayNone(p.mem);
      assert PortTrace(p, 1) == PortTrace(p, 0) + PortEvents(SystemAt(p, 0).core);
    } else {
      PortMakesMemory(p, t - 1);
      PortReplays(SystemAt(p, t - 1).mem, SystemAt(p, t).core);
      ReplayOne(p.mem, PortTrace(p, t), PortEvents(SystemAt(p, t).core));
    }
  }

  lemma NoPortAtReset()
    ensures PortEvents(ResetCore()) == []
  {
    hide BytesFrom, Lane, SizeBytes;
  }
}
