/** The pipelined core refines the sequential machine, with an exact cycle for every instruction. */
module Refinement {
  import opened Rv64Pkg
  import opened Bits
  import opened ByteMemory
  import opened Decoder
  import opened MemStage
  import opened PipeRegs
  import opened HazardUnit
  import opened CsrUnit
  import opened WriteBack
  import opened RichardCore
  import opened Sequential
  import opened QuietStep
  import opened StageSteps
  import opened Pipeline
  import opened PipelineProof
  import Isa

  // The occupancy follows the cycle law

  predicate OnTime(p: Setting, t: nat, v: Occupancy) {
    ExecuteCycle(p, v.NextIndex()) == t + v.lag
    && (v.ex ==> ExecuteCycle(p, v.ExIndex()) == t)
    && (v.mem ==> ExecuteCycle(p, v.MemIndex()) + 1 == t)
    && (v.wb ==> ExecuteCycle(p, v.retired) + 2 == t)
    && (v.retired > 0 ==> ExecuteCycle(p, v.retired - 1) + 3 <= t)
  }

  lemma FirstCycle(p: Setting)
    ensures ExecuteCycle(p, 0) == 2
  {}

  lemma OnTimeStep(p: Setting, t: nat, v: Occupancy)
    requires LagOk(p, v) && OnTime(p, t, v)
    ensures OnTime(p, t + 1, OccupancyNext(p, v))
  {
    hide Penalty, Taken, ExecuteCycle;
    ExecuteCycleStep(p, v.NextIndex());
  }

  lemma {:induction false} OccupancyOnTime(p: Setting, t: nat)
    ensures OnTime(p, t, OccupancyAt(p, t))
  {
    hide Penalty, ExecuteCycle, LagOk, OccupancyNext;
    if t == 0 {
      FirstCycle(p);
    } else {
      OccupancyOnTime(p, t - 1);
      OnTimeStep(p, t - 1, OccupancyAt(p, t - 1));
      hide OnTime;
    }
  }

  /** Position of instruction n relative to the occupancy, from its cycle alone. */
  lemma Positions(p: Setting, t: nat, n: nat)
    ensures var v, e := OccupancyAt(p, t), ExecuteCycle(p, n);
      (n >= v.NextIndex() <==> t < e) && (v.ex && n == v.ExIndex() <==> t == e)
      && (v.mem && n == v.MemIndex() <==> t == e + 1) && (v.wb && n == v.retired <==> t == e + 2)
      && (n < v.retired <==> e + 3 <= t)
  {
    hide ExecuteCycle, OccupancyAt, LagOk;
    var v := OccupancyAt(p, t);
    OccupancyOnTime(p, t);
    LagIsPositive(p, t);
    if n < v.retired {
      Ordered(p, n, v.retired - 1);
    } else if v.wb && n == v.retired {
    } else if v.mem && n == v.MemIndex() {
    } else if v.ex && n == v.ExIndex() {
    } else {
      Ordered(p, v.NextIndex(), n);
    }
  }

  lemma LagIsPositive(p: Setting, t: nat)
    ensures OccupancyAt(p, t).lag > 0
  {
    assert LagOk(p, OccupancyAt(p, t));
  }

  lemma Ordered(p: Setting, i: nat, j: nat)
    requires i <= j
    ensures ExecuteCycle(p, i) + (j - i) <= ExecuteCycle(p, j)
  {
    hide ExecuteCycle;
    if i < j {
      ExecuteCycleIncreases(p, i, j);
    }
  }

  // The invariant over a run

  lemma ResetOk(p: Setting)
    ensures AllOk(p, SystemAt(p, 0), OccupancyAt(p, 0))
  {
    hide Penalty;
  }

  lemma TickOk(p: Setting, k: nat, t: nat)
    requires Scope(p, k) && OccupancyAt(p, t).NextIndex() <= k && AllOk(p, SystemAt(p, t), OccupancyAt(p, t))
    ensures BackOk(p, SystemAt(p, t + 1), OccupancyAt(p, t + 1))
    ensures OccupancyAt(p, t + 1).NextIndex() <= k ==> FrontOk(p, SystemAt(p, t + 1).core, OccupancyAt(p, t + 1))
  {
    hide Scope, Step, Penalty, RegsOk, WbOk, MemOk, ExOk, FrontOk, LagOk, BusRead, BusStore;
    var s, v := SystemAt(p, t), OccupancyAt(p, t);
    var i := Inputs(p.fetch(s.mem, s.core.pc), BusRead(s.mem, s.core.exMem), p.pins(t));
    OccupancyNextLag(p, v);
    RegsStep(p, k, s.core, v, i);
    WbStep(p, k, s, v, i);
    MemStep(p, k, s, v, p.fetch, p.pins(t));
    ExStep(p, k, s, v, i);
    if OccupancyNext(p, v).NextIndex() <= k {
      FrontStep(p, k, s, v, p.pins(t));
    }
  }

  /** Until the first instruction out of scope reaches EX, every stage holds what the sequential run says. */
  lemma {:induction false} Invariant(p: Setting, k: nat, t: nat)
    requires Scope(p, k) && t <= ExecuteCycle(p, k)
    ensures BackOk(p, SystemAt(p, t), OccupancyAt(p, t))
    ensures OccupancyAt(p, t).NextIndex() <= k ==> FrontOk(p, SystemAt(p, t).core, OccupancyAt(p, t))
  {
    hide Scope, ExecuteCycle, BackOk, FrontOk, SystemAt, OccupancyAt, LagOk;
    if t == 0 {
      ResetOk(p);
    } else {
      Invariant(p, k, t - 1);
      Positions(p, t - 1, k);
      TickOk(p, k, t - 1);
    }
  }

  /** The back of the pipeline drains correctly whatever follows. */
  lemma DrainRegs(p: Setting, k: nat, t: nat)
    requires Scope(p, k) && t <= ExecuteCycle(p, k) + 2
    ensures RegsOk(p, SystemAt(p, t).core, OccupancyAt(p, t))
    ensures t < ExecuteCycle(p, k) + 2 ==> WbOk(p, SystemAt(p, t).core, OccupancyAt(p, t))
  {
    hide Scope, ExecuteCycle, RegsOk, WbOk, MemOk, ExOk, FrontOk, LagOk, Step, BusRead, BusStore, Penalty;
    if t <= ExecuteCycle(p, k) {
      Invariant(p, k, t);
    } else {
      var s, v := SystemAt(p, t - 1), OccupancyAt(p, t - 1);
      var i := Inputs(p.fetch(s.mem, s.core.pc), BusRead(s.mem, s.core.exMem), p.pins(t - 1));
      if t == ExecuteCycle(p, k) + 1 {
        Invariant(p, k, t - 1);
        Positions(p, t - 1, k);
        WbStep(p, k, s, v, i);
        RegsStep(p, k, s.core, v, i);
      } else {
        DrainRegs(p, k, t - 1);
        Positions(p, t - 1, k);
        RegsStep(p, k, s.core, v, i);
      }
    }
  }

  // Main results, for a program whose first k instructions are in scope

  /** After n instructions have retired, and until the next one does, the register file is the sequential one. */
  lemma RegistersRefine(p: Setting, k: nat, n: nat, t: nat)
    requires Scope(p, k) && n <= k
    requires (n > 0 ==> ExecuteCycle(p, n - 1) + 3 <= t) && t < ExecuteCycle(p, n) + 3
    ensures SystemAt(p, t).core.regs == HartAt(p, n).regs
  {
    hide Scope, ExecuteCycle, HartAt, SystemAt, OccupancyAt, WbOk;
    Ordered(p, n, k);
    DrainRegs(p, k, t);
    Positions(p, t, n);
    if n > 0 {
      Positions(p, t, n - 1);
    }
  }

  /** Data memory changes with the instruction that enters the memory stage. */
  lemma MemoryRefines(p: Setting, k: nat, n: nat, t: nat)
    requires Scope(p, k) && n <= k
    requires (n > 0 ==> ExecuteCycle(p, n - 1) < t) && t <= ExecuteCycle(p, n)
    ensures SystemAt(p, t).mem == HartAt(p, n).mem
  {
    hide Scope, ExecuteCycle, HartAt, SystemAt, OccupancyAt, RegsOk, WbOk, ExOk, FrontOk, LagOk, InertMem;
    Ordered(p, n, k);
    Invariant(p, k, t);
    Positions(p, t, n);
    if n > 0 {
      Positions(p, t, n - 1);
    }
  }

  lemma InWriteBack(p: Setting, k: nat, n: nat)
    requires Scope(p, k) && n < k
    ensures SystemAt(p, ExecuteCycle(p, n) + 2).core.memWb == Accessed(HartAt(p, n), WordAt(p, n))
  {
    hide Scope, ExecuteCycle, HartAt, WordAt, SystemAt, OccupancyAt, RegsOk, Accessed, LagOk;
    Ordered(p, n, k);
    Positions(p, ExecuteCycle(p, n) + 2, n);
    DrainRegs(p, k, ExecuteCycle(p, n) + 2);
  }

  /**
    Instruction n retires at edge 5 + n + (interlocked pairs up to n) + 2 (transfers before n): in the cycle
    before that edge, write-back holds its word, its pc and its result.
   */
  lemma RetiresOnTime(p: Setting, k: nat, n: nat)
    requires Scope(p, k) && n < k
    ensures SystemAt(p, 4 + n + Interlocks(p, n) + 2 * TakenBefore(p, n)).core.memWb
         == Accessed(HartAt(p, n), WordAt(p, n))
  {
    hide Scope, HartAt, WordAt, SystemAt, Accessed, Interlocks, TakenBefore;
    InWriteBack(p, k, n);
  }

  /** In every other cycle write-back holds a bubble that changes no register and no privileged state. */
  lemma NothingElseRetires(p: Setting, k: nat, t: nat)
    requires Scope(p, k) && t < ExecuteCycle(p, k) + 2
    requires forall n: nat :: n < k ==> t != ExecuteCycle(p, n) + 2
    ensures InertWb(SystemAt(p, t).core.memWb)
  {
    hide Scope, ExecuteCycle, HartAt, WordAt, SystemAt, OccupancyAt, RegsOk, Accessed, InertWb;
    var v := OccupancyAt(p, t);
    DrainRegs(p, k, t);
    Positions(p, t, k);
    Positions(p, t, v.retired);
  }

  /** Both muxed operands are the sequential register values; a MEM-forwarded value is an ALU result. */
  lemma BypassCorrect(p: Setting, k: nat, n: nat)
    requires Scope(p, k) && n <= k
    ensures var c, h, d := SystemAt(p, ExecuteCycle(p, n)).core, HartAt(p, n), Decode(WordAt(p, n), M);
      OperandA(c) == ReadReg(h.regs, d.rs1) && OperandB(c) == ReadReg(h.regs, d.rs2)
    ensures var c := SystemAt(p, ExecuteCycle(p, n)).core;
      forall rs | rs == c.idEx.rs1 || rs == c.idEx.rs2 ::
        ForwardSelect(rs, c.exMem.wb.regWrite, c.exMem.wb.rd, WriteEnable(c.memWb), c.memWb.wb.rd).FromMem?
        ==> c.exMem.wb.wbSel == WB_ALU
  {
    hide Scope, ExecuteCycle, HartAt, WordAt, SystemAt, OccupancyAt, RegsOk, WbOk, MemOk, LagOk, FrontOk;
    hide Latched, Decode;
    hide OperandA, OperandB, ReadReg, ForwardSelect, WriteEnable;
    var t := ExecuteCycle(p, n);
    var s, v, w := SystemAt(p, t), OccupancyAt(p, t), WordAt(p, n);
    Ordered(p, n, k);
    Invariant(p, k, t);
    Positions(p, t, n);
    OperandsAreSequential(p, k, s, v);
    LatchedFields(s.core.regs, HartAt(p, n).pc, w);
    var c := s.core;
    forall rs | rs == c.idEx.rs1 || rs == c.idEx.rs2
      ensures ForwardSelect(rs, c.exMem.wb.regWrite, c.exMem.wb.rd, WriteEnable(c.memWb), c.memWb.wb.rd).FromMem?
        ==> c.exMem.wb.wbSel == WB_ALU
    {
      OperandIsSequential(p, k, s, v, rs);
    }
  }

  /** Squash safety: EX holds an instruction of the sequential run in its own cycle, otherwise an inert bubble. */
  lemma WrongPathNeverExecutes(p: Setting, k: nat, t: nat)
    requires Scope(p, k) && t <= ExecuteCycle(p, k)
    ensures var q := SystemAt(p, t).core.idEx;
      (forall n: nat | n <= k && t == ExecuteCycle(p, n) ::
        q.pc == HartAt(p, n).pc && q.instr == WordAt(p, n) && q.ctrl == Decode(WordAt(p, n), M).ctrl)
      && ((forall n: nat | n <= k :: t != ExecuteCycle(p, n)) ==> InertEx(q))
  {
    hide Scope, ExecuteCycle, HartAt, WordAt, SystemAt, OccupancyAt, RegsOk, WbOk, MemOk, LagOk, FrontOk;
    hide Latched, Decode, InertEx;
    var c, v := SystemAt(p, t).core, OccupancyAt(p, t);
    Invariant(p, k, t);
    forall n: nat | n <= k && t == ExecuteCycle(p, n)
      ensures c.idEx.pc == HartAt(p, n).pc && c.idEx.instr == WordAt(p, n)
      ensures c.idEx.ctrl == Decode(WordAt(p, n), M).ctrl
    {
      Positions(p, t, n);
      LatchedFields(c.regs, HartAt(p, n).pc, WordAt(p, n));
    }
    Positions(p, t, v.ExIndex());
    Positions(p, t, k);
    if v.ex && v.ExIndex() > k {
      Ordered(p, k, v.ExIndex());
    }
  }

  lemma ExecutesSoon(p: Setting, t: nat) returns (n: nat)
    requires t >= 4
    ensures t <= ExecuteCycle(p, n) + 2 < t + 3
  {
    hide ExecuteCycle, OccupancyAt, LagOk;
    var v := OccupancyAt(p, t);
    OccupancyOnTime(p, t);
    FirstCycle(p);
    n := v.retired;
    if !v.wb && !v.mem && !v.ex {
      LagIsPositive(p, t);
      ExecuteCycleIncreases(p, v.retired - 1, v.retired);
    }
  }

  /** Once the pipeline is full and until the scope ends, an instruction retires in every window of three cycles. */
  lemma Progress(p: Setting, k: nat, t: nat)
    requires Scope(p, k) && 4 <= t < ExecuteCycle(p, k)
    ensures exists n: nat ::
      n < k && t <= ExecuteCycle(p, n) + 2 < t + 3
      && SystemAt(p, ExecuteCycle(p, n) + 2).core.memWb == Accessed(HartAt(p, n), WordAt(p, n))
  {
    hide Scope, ExecuteCycle, HartAt, WordAt, SystemAt, Accessed;
    var n := ExecutesSoon(p, t);
    if n >= k {
      Ordered(p, k, n);
    }
    InWriteBack(p, k, n);
  }

  /** Instruction n retires at the earliest at edge 5 + n and at the latest at edge 5 + 3n. */
  lemma RetireBound(p: Setting, k: nat, n: nat)
    requires Scope(p, k) && n < k
    ensures exists t: nat ::
      4 + n <= t <= 4 + 3 * n
      && SystemAt(p, t).core.memWb == Accessed(HartAt(p, n), WordAt(p, n))
  {
    hide Scope, ExecuteCycle, HartAt, WordAt, SystemAt, Accessed;
    FirstCycle(p);
    if n > 0 {
      ExecuteCycleIncreases(p, 0, n);
    }
    InWriteBack(p, k, n);
  }

  // The scope of fetching is exact

  /** The instruction behind k is decoded, while k executes, with the word of the memory its fetch index names. */
  lemma DecodedWord(p: Setting, k: nat)
    requires Scope(p, k) && Isa.InScope(HartAt(p, k), WordAt(p, k)) && !Taken(p, k)
    ensures var next := HartAt(p, k + 1).pc;
      SystemAt(p, ExecuteCycle(p, k)).core.ifId == IfId(next, p.fetch(HartAt(p, FetchIndex(p, k + 1)).mem, next))
  {
    hide Scope, ExecuteCycle, HartAt, WordAt, OccupancyAt, Isa.InScope, Isa.Next, Taken;
    hide Interlocked, Penalty, FetchIndex, RegsOk, WbOk, ExOk, InertMem, Step, PcPlus4, BusRead, BusStore;
    ExecutesFromTwo(p, k);
    var t := ExecuteCycle(p, k) - 1;
    var s, v := SystemAt(p, t), OccupancyAt(p, t);
    NextToExecute(p, k);
    Invariant(p, k, t);
    FrontEdge(p, k, s, v, p.pins(t));
    FetchedMemory(p, v);
    PenaltyCases(p, k);
    SuccessorPc(p, k);
  }

  lemma ExecutesFromTwo(p: Setting, k: nat)
    ensures ExecuteCycle(p, k) >= 2
  {}

  /** In the cycle before k executes, k is the next instruction to enter EX, with lag one. */
  lemma NextToExecute(p: Setting, k: nat)
    requires ExecuteCycle(p, k) >= 2
    ensures var v := OccupancyAt(p, ExecuteCycle(p, k) - 1); v.NextIndex() == k && v.lag == 1 && LagOk(p, v)
  {
    hide ExecuteCycle;
    var t := ExecuteCycle(p, k) - 1;
    OccupancyOnTime(p, t);
    Positions(p, t, k);
    LagIsPositive(p, t);
    Ordered(p, OccupancyAt(p, t).NextIndex(), k);
    hide OccupancyAt, LagOk;
  }

  /** So the core decodes the sequential word exactly when the stores still on their way leave it alone. */
  lemma SettledIsNecessary(p: Setting, k: nat)
    requires Scope(p, k) && Isa.InScope(HartAt(p, k), WordAt(p, k)) && !Taken(p, k)
    ensures SystemAt(p, ExecuteCycle(p, k)).core.ifId.instr == WordAt(p, k + 1) <==> Settled(p, k + 1)
  {
    hide Scope, ExecuteCycle, HartAt, SystemAt, Isa.InScope, Taken, FetchIndex;
    DecodedWord(p, k);
  }
}
