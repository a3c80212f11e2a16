/** The core in its harness, cycle by cycle, beside the sequential machine it should be. */
module Pipeline {
  import opened Rv64Pkg
  import opened Bits
  import opened Lanes
  import opened ByteMemory
  import opened Decoder
  import opened MemStage
  import opened PipeRegs
  import opened HazardUnit
  import opened CsrUnit
  import opened TrapCtrl
  import opened WriteBack
  import opened RichardCore
  import opened Sequential
  import Isa

  /** How the instruction port reads a word; it may read the data memory. */
  type Fetch = (Bytes, bv64) -> bv32

  /** The instruction port, the initial data memory, and the interrupt pins of every cycle. */
  datatype Setting = Setting(fetch: Fetch, mem: Bytes, pins: nat -> Pins)

  datatype System = System(core: Core, mem: Bytes)

  /** One clock cycle: answer the read ports, clock the core, apply the write request that follows the edge. */
  function Tick(s: System, fetch: Fetch, pins: Pins): System {
    var c := Step(s.core, false, Inputs(fetch(s.mem, s.core.pc), BusRead(s.mem, s.core.exMem), pins));
    System(c, BusStore(s.mem, c.exMem))
  }

  function SystemAt(p: Setting, t: nat): System {
    if t == 0 then System(ResetCore(), p.mem) else Tick(SystemAt(p, t - 1), p.fetch, p.pins(t - 1))
  }

  /** The eight bytes from addr on reach the word at the host address. */
  predicate Touches(addr: bv64, toHost: bv64) { addr <= toHost + 3 && addr + 7 >= toHost }

  function Status(s: System, toHost: bv64): bv32 { Low32(ReadU64(s.mem, toHost)) }

  lemma StatusIs(s: System, toHost: bv64)
    ensures Status(s, toHost) == Low32(ReadPrefix(s.mem, toHost, 8))
  {}

  /** A write reaches the host address and leaves a verdict there: 1 for pass, 3 for fail. */
  predicate Reports(s: System, toHost: bv64) {
    DmemWrite(s.core) && toHost != 0 && Touches(s.core.exMem.aluResult, toHost)
    && (Status(s, toHost) == 1 || Status(s, toHost) == 3)
  }

  /** The harness around the assembled core, with one memory for instructions and data. */
  class Harness {
    const machine: Machine
    const memory: Memory

    ghost predicate Valid()
      reads this, machine, machine.regFile
    {
      machine.Valid()
    }

    function Value(): System
      requires Valid()
      reads this, machine, machine.ifStage, machine.ifIdReg, machine.idExReg, machine.exMemReg, machine.memWbReg
      reads machine.regFile, machine.regFile.regs, machine.csrUnit, memory
    {
      System(machine.Value(), memory.bytes)
    }

    constructor ()
      ensures Valid() && Value() == System(ResetCore(), map[])
    {
      machine := new Machine();
      memory := new Memory();
    }

    /** A write whose lanes leave the doubleword (an illegal store size) has no defined effect and is dropped. */
    method Cycle(pins: Pins)
      requires Valid()
      modifies machine.ifStage, machine.ifIdReg, machine.idExReg, machine.exMemReg, machine.memWbReg
      modifies machine.regFile.regs, machine.csrUnit, memory
      ensures Valid() && Value() == Tick(old(Value()), ReadU32, pins)
    {
      hide Step, Lane, SizeBytes, WriteRequest, ReadRequest, BusWriteData, ReadU64, Aligned, BusWrite;
      var c := machine.Value();
      var word := memory.ReadValue(c.pc, 4);
      machine.Clock(false, Inputs(Low32(word), BusRead(memory.bytes, c.exMem), pins));
      var q := machine.exMemReg.q;
      if WriteRequest(q.mem, q.aluResult) && Lane(q.aluResult) + SizeBytes(q.mem.memSize) <= 8 {
        memory.WriteStore(q.aluResult, BusWriteData(q.mem, q.aluResult, q.rs2Data), q.mem.memSize);
      }
    }

    /** The check after each tick for a verdict of the program. */
    method Poll(toHost: bv64) returns (sawToHost: bool, pass: bool)
      requires Valid()
      ensures sawToHost <==> Reports(Value(), toHost)
      ensures pass <==> sawToHost && Status(Value(), toHost) == 1
    {
      hide Status, Touches, WriteRequest, ReadPrefix;
      sawToHost, pass := false, false;
      var q := machine.exMemReg.q;
      if WriteRequest(q.mem, q.aluResult) && toHost != 0 && Touches(q.aluResult, toHost) {
        var word := memory.ReadValue(toHost, 8);
        StatusIs(Value(), toHost);
        var status := Low32(word);
        if status == 1 {
          sawToHost, pass := true, true;
        } else if status == 3 {
          sawToHost := true;
        }
      }
    }

    /** The main loop: clock until the program reports to the host address or the cycles run out. */
    method Run(mem: Bytes, pins: nat -> Pins, maxCycles: nat, toHost: bv64)
      returns (cycles: nat, sawToHost: bool, pass: bool)
      requires Valid() && Value() == System(ResetCore(), mem)
      modifies machine.ifStage, machine.ifIdReg, machine.idExReg, machine.exMemReg, machine.memWbReg
      modifies machine.regFile.regs, machine.csrUnit, memory
      ensures Valid() && cycles <= maxCycles && Value() == SystemAt(Setting(ReadU32, mem, pins), cycles)
      ensures forall i: nat :: 1 <= i < cycles ==> !Reports(SystemAt(Setting(ReadU32, mem, pins), i), toHost)
      ensures sawToHost <==> cycles > 0 && Reports(SystemAt(Setting(ReadU32, mem, pins), cycles), toHost)
      ensures !sawToHost ==> cycles == maxCycles
      ensures pass <==> sawToHost && Status(SystemAt(Setting(ReadU32, mem, pins), cycles), toHost) == 1
    {
      hide Tick, ResetCore, Status, Reports, Value;
      ghost var p := Setting(ReadU32, mem, pins);
      cycles, sawToHost, pass := 0, false, false;
      while cycles < maxCycles && !sawToHost
        invariant Valid() && cycles <= maxCycles && Value() == SystemAt(p, cycles)
        invariant forall i: nat :: 1 <= i < cycles ==> !Reports(SystemAt(p, i), toHost)
        invariant sawToHost <==> cycles > 0 && Reports(SystemAt(p, cycles), toHost)
        invariant pass <==> sawToHost && Status(SystemAt(p, cycles), toHost) == 1
        decreases maxCycles - cycles, !sawToHost
      {
        Cycle(pins(cycles));
        cycles := cycles + 1;
        sawToHost, pass := Poll(toHost);
      }
    }
  }

  // The sequential run

  function HartAt(p: Setting, n: nat): Isa.Hart {
    if n == 0 then Isa.Hart(RESET_VECTOR, ZERO_REGS, p.mem)
    else Isa.Next(HartAt(p, n - 1), p.fetch(HartAt(p, n - 1).mem, HartAt(p, n - 1).pc))
  }

  /** The word executed by instruction n. */
  function WordAt(p: Setting, n: nat): bv32 { p.fetch(HartAt(p, n).mem, HartAt(p, n).pc) }

  // The cycle law

  /** Instruction n is a taken branch or a jump. */
  predicate Taken(p: Setting, n: nat) {
    match Isa.Parse(WordAt(p, n)) case Some(i) => Isa.Transfers(HartAt(p, n), i) case None => false
  }

  predicate NamesSource(w: bv32, rd: Reg) { Decode(w, M).rs1 == rd || Decode(w, M).rs2 == rd }

  /** Instruction n is a load whose destination is named by a source field of instruction n+1. */
  predicate Interlocked(p: Setting, n: nat) {
    match Isa.Parse(WordAt(p, n))
    case Some(i) => i.Load? && i.rd != 0 && NamesSource(WordAt(p, n + 1), i.rd)
    case None => false
  }

  /** Interlocked pairs among instructions 0 to n. */
  function Interlocks(p: Setting, n: nat): nat {
    if n == 0 then 0 else Interlocks(p, n - 1) + if Interlocked(p, n - 1) then 1 else 0
  }

  /** Taken branches and jumps before instruction n. */
  function TakenBefore(p: Setting, n: nat): nat {
    if n == 0 then 0 else TakenBefore(p, n - 1) + if Taken(p, n - 1) then 1 else 0
  }

  /** The cycle in which instruction n is in the execute stage. */
  function ExecuteCycle(p: Setting, n: nat): nat { 2 + n + Interlocks(p, n) + 2 * TakenBefore(p, n) }

  /** Cycles lost between instruction n and its successor. */
  function Penalty(p: Setting, n: nat): nat {
    (if Taken(p, n) then 2 else 0) + if Interlocked(p, n) then 1 else 0
  }

  lemma ExecuteCycleStep(p: Setting, n: nat)
    ensures ExecuteCycle(p, n + 1) == ExecuteCycle(p, n) + 1 + Penalty(p, n)
    ensures Penalty(p, n) <= 2
  {
    hide WordAt, HartAt, NamesSource, Isa.Parse;
  }

  lemma {:induction false} ExecuteCycleIncreases(p: Setting, i: nat, j: nat)
    requires i < j
    ensures ExecuteCycle(p, i) + (j - i) <= ExecuteCycle(p, j) <= ExecuteCycle(p, i) + 3 * (j - i)
  {
    hide Penalty, ExecuteCycle;
    ExecuteCycleStep(p, j - 1);
    if i < j - 1 {
      ExecuteCycleIncreases(p, i, j - 1);
    }
  }

  // Scope

  /**
    The memory in which the word of instruction n is fetched, as the number of instructions whose stores are in it:
    all before n after a transfer; otherwise all but the last one, or the last two when those are back to back.
   */
  function FetchIndex(p: Setting, n: nat): nat {
    if n == 0 || Taken(p, n - 1) then n else if n >= 2 && Penalty(p, n - 2) == 0 then n - 2 else n - 1
  }

  /** The word fetched for instruction n is the one the sequential run executes. */
  ghost predicate Settled(p: Setting, n: nat) {
    p.fetch(HartAt(p, FetchIndex(p, n)).mem, HartAt(p, n).pc) == WordAt(p, n)
  }

  /**
    The first k instructions of the sequential run are legal and raise no exception, and no instruction up to
    instruction k has its word changed by a store still on its way when it is fetched.
   */
  ghost predicate Scope(p: Setting, k: nat) {
    (forall n: nat :: n < k ==> Isa.InScope(HartAt(p, n), WordAt(p, n)))
    && forall n: nat :: n <= k ==> Settled(p, n)
  }

  // The data-memory write port as a stream of events

  /** The bytes written at successive addresses. */
  datatype WriteEvent = WriteEvent(addr: bv64, bytes: seq<bv8>)

  /** n bytes of v from byte `lane` on. */
  function BytesFrom(v: bv64, lane: nat, n: nat): seq<bv8>
    requires lane + n <= 8
  {
    seq(n, i requires 0 <= i < n => ByteAt(v, lane + i))
  }

  /** The request on the write port in one cycle. */
  function PortEvents(c: Core): seq<WriteEvent> {
    var addr, n := c.exMem.aluResult, SizeBytes(c.exMem.mem.memSize);
    if DmemWrite(c) && Lane(addr) + n <= 8 then [WriteEvent(addr, BytesFrom(DmemWdata(c), Lane(addr), n))] else []
  }

  /** The store of one sequential step. */
  function StoreEvents(h: Isa.Hart, w: bv32): seq<WriteEvent> {
    match Isa.Parse(w)
    case Some(Store(a, rs1, rs2, offset)) =>
      [WriteEvent(Isa.Address(h, rs1, offset), BytesFrom(ReadReg(h.regs, rs2), 0, Isa.AccessBytes(a)))]
    case _ => []
  }

  /** Requests on the write port in the cycles before t. */
  function PortTrace(p: Setting, t: nat): seq<WriteEvent> {
    if t == 0 then [] else PortTrace(p, t - 1) + PortEvents(SystemAt(p, t - 1).core)
  }

  /** Stores of the first n instructions. */
  function StoreTrace(p: Setting, n: nat): seq<WriteEvent> {
    if n == 0 then [] else StoreTrace(p, n - 1) + StoreEvents(HartAt(p, n - 1), WordAt(p, n - 1))
  }
}
