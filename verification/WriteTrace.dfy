/** The data-memory writes of the core are the stores of the sequential run. */
module WriteTrace {
  import opened Rv64Pkg
  import opened Bits
  import opened Lanes
  import opened ByteMemory
  import opened Decoder
  import opened MemStage
  import opened PipeRegs
  import opened RichardCore
  import opened LaneAccess
  import opened Sequential
  import opened SequentialProof
  import opened StageSteps
  import opened Pipeline
  import opened PipelineProof
  import opened Refinement
  import Isa

  lemma StoreBytes(size: bv3, addr: bv64, v: bv64)
    requires StoreSize(size) && !AddrMisaligned(size, addr)
    ensures Lane(addr) + SizeBytes(size) <= 8
    ensures BytesFrom(StoreData(size, addr, v), Lane(addr), SizeBytes(size)) == BytesFrom(v, 0, SizeBytes(size))
  {
    AlignedFits(size, addr);
    hide StoreData, Lane, AddrMisaligned, ByteAt, SizeBytes, StoreSize;
    forall i | 0 <= i < SizeBytes(size)
      ensures ByteAt(StoreData(size, addr, v), Lane(addr) + i) == ByteAt(v, i)
    {
      StoreByte(size, addr, v, i);
    }
  }

  lemma AccessSize(size: bv3)
    requires StoreSize(size)
    ensures SizeBytes(size) == Isa.AccessBytes(Isa.ParseAccess(size))
  {}

  lemma QuietPort(c: Core)
    requires !c.exMem.mem.isStore
    ensures PortEvents(c) == []
  {
    hide Lane, SizeBytes, BytesFrom, StoreData, AddrMisaligned;
  }

  lemma BusyPort(c: Core)
    requires c.exMem.mem.isStore && StoreSize(c.exMem.mem.memSize) && !StoreMisaligned(c.exMem.mem, c.exMem.aluResult)
    ensures var n := SizeBytes(c.exMem.mem.memSize);
      PortEvents(c) == [WriteEvent(c.exMem.aluResult, BytesFrom(c.exMem.rs2Data, 0, n))]
  {
    hide Lane, SizeBytes, BytesFrom, StoreData, AddrMisaligned, StoreSize;
    StoreBytes(c.exMem.mem.memSize, c.exMem.aluResult, c.exMem.rs2Data);
  }

  lemma StorePort(c: Core, h: Isa.Hart, w: bv32)
    requires Isa.InScope(h, w) && c.exMem == Executed(h, w)
    ensures PortEvents(c) == StoreEvents(h, w)
  {
    hide Decode, Isa.Parse, Executed, Isa.Address, StoreMisaligned, Isa.ParseAccess, Isa.NoException;
    hide PortEvents, SizeBytes, BytesFrom, Isa.AccessBytes, StoreSize;
    var size := c.exMem.mem.memSize;
    InScopeAligned(h, w);
    DecodeControls(w, M);
    ExecutedFields(h, w);
    if Isa.Parse(w).value.Store? {
      DecodeSizes(w, M);
      LowSizes(size);
      AddressComputed(h, w);
      AccessSize(size);
      BusyPort(c);
    } else {
      QuietPort(c);
    }
  }

  lemma {:induction false} TraceByOccupancy(p: Setting, k: nat, t: nat)
    requires Scope(p, k) && t <= ExecuteCycle(p, k)
    ensures PortTrace(p, t + 1) == StoreTrace(p, OccupancyAt(p, t).ExIndex())
    decreases t, 1
  {
    hide ExecuteCycle, HartAt, WordAt, SystemAt, RegsOk, WbOk, ExOk, LagOk, FrontOk, PortEvents, StoreEvents;
    hide Executed, Isa.InScope, Penalty, OccupancyAt;
    var v, s := OccupancyAt(p, t), SystemAt(p, t);
    Invariant(p, k, t);
    Earlier(p, k, t);
    if v.mem {
      Positions(p, t, v.MemIndex());
      Positions(p, t, k);
      StorePort(s.core, HartAt(p, v.MemIndex()), WordAt(p, v.MemIndex()));
    } else {
      QuietPort(s.core);
    }
  }

  /** The trace before the cycle is that of the instructions older than the one in MEM. */
  lemma {:induction false} Earlier(p: Setting, k: nat, t: nat)
    requires Scope(p, k) && t <= ExecuteCycle(p, k)
    ensures PortTrace(p, t) == StoreTrace(p, OccupancyAt(p, t).MemIndex())
    decreases t, 0
  {
    hide Scope, ExecuteCycle, HartAt, WordAt, SystemAt, PortEvents, StoreEvents, Penalty, LagOk;
    if t > 0 {
      TraceByOccupancy(p, k, t - 1);
      OccupancyNextLag(p, OccupancyAt(p, t - 1));
    }
  }

  /** Each store is issued once, in program order, with its address and bytes; nothing else is ever written. */
  lemma WritesAreStores(p: Setting, k: nat, n: nat, t: nat)
    requires Scope(p, k) && n <= k
    requires (n > 0 ==> ExecuteCycle(p, n - 1) + 1 < t) && 0 < t <= ExecuteCycle(p, n) + 1
    ensures PortTrace(p, t) == StoreTrace(p, n)
  {
    hide Scope, ExecuteCycle, OccupancyAt, PortTrace, StoreTrace, LagOk;
    Ordered(p, n, k);
    TraceByOccupancy(p, k, t - 1);
    Positions(p, t - 1, n);
    if n > 0 {
      Positions(p, t - 1, n - 1);
    }
  }
}
