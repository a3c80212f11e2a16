/** The pipeline invariant: which instruction of the sequential run each stage holds. */
module PipelineProof {
  import opened Rv64Pkg
  import opened Bits
  import opened ByteMemory
  import opened Decoder
  import opened MemStage
  import opened PipeRegs
  import opened HazardUnit
  import opened TrapCtrl
  import opened WriteBack
  import opened RichardCore
  import opened Sequential
  import opened SequentialProof
  import opened QuietStep
  import opened StageSteps
  import opened Pipeline
  import Isa

  /**
    Occupancy of the back of the pipeline. Live stages hold consecutive instructions, oldest first;
    `lag` is the number of cycles until the next instruction enters the execute stage.
   */
  datatype Occupancy = Occupancy(retired: nat, wb: bool, mem: bool, ex: bool, lag: nat) {
    function MemIndex(): nat { retired + if wb then 1 else 0 }
    function ExIndex(): nat { MemIndex() + if mem then 1 else 0 }
    function NextIndex(): nat { ExIndex() + if ex then 1 else 0 }
  }

  function OccupancyNext(p: Setting, v: Occupancy): Occupancy
    requires v.lag > 0
  {
    Occupancy(v.MemIndex(), v.mem, v.ex, v.lag == 1, if v.lag == 1 then 1 + Penalty(p, v.NextIndex()) else v.lag - 1)
  }

  predicate LagOk(p: Setting, v: Occupancy) {
    1 <= v.lag <= 3 && (v.ex ==> v.lag == 1 + Penalty(p, v.ExIndex())) && (!v.ex ==> v.lag <= 2)
    && (v.ex && v.mem ==> Penalty(p, v.MemIndex()) == 0)
    && (!v.ex && v.lag == 2 && v.NextIndex() > 0 ==> Taken(p, v.NextIndex() - 1))
    && (!v.ex && v.lag == 1 && v.NextIndex() > 0 ==> Penalty(p, v.NextIndex() - 1) > 0)
  }

  function OccupancyAt(p: Setting, t: nat): (v: Occupancy)
    ensures LagOk(p, v)
  {
    if t == 0 then Occupancy(0, false, false, false, 2)
    else
      var u := OccupancyAt(p, t - 1);
      OccupancyNextLag(p, u);
      OccupancyNext(p, u)
  }

  lemma OccupancyNextLag(p: Setting, v: Occupancy)
    requires LagOk(p, v)
    ensures LagOk(p, OccupancyNext(p, v))
    ensures OccupancyNext(p, v).MemIndex() == v.ExIndex() && OccupancyNext(p, v).ExIndex() == v.NextIndex()
  {
    hide Penalty, Taken, Interlocked;
    PenaltyCases(p, v.NextIndex());
    PenaltyCases(p, v.ExIndex());
    if v.NextIndex() > 0 {
      PenaltyCases(p, v.NextIndex() - 1);
    }
  }

  /** A load is not a transfer, so at most one of the two penalties applies. */
  lemma PenaltyCases(p: Setting, n: nat)
    ensures Penalty(p, n) == if Taken(p, n) then 2 else if Interlocked(p, n) then 1 else 0
  {
    hide HartAt, WordAt, Isa.Parse, NamesSource;
  }

  // Invariant, stage by stage

  predicate RegsOk(p: Setting, c: Core, v: Occupancy) {
    QuietCsrs(c.csrs) && c.regs == HartAt(p, v.retired).regs
  }

  predicate WbOk(p: Setting, c: Core, v: Occupancy) {
    if v.wb then c.memWb == Accessed(HartAt(p, v.retired), WordAt(p, v.retired)) else InertWb(c.memWb)
  }

  predicate MemOk(p: Setting, s: System, v: Occupancy) {
    s.mem == HartAt(p, v.ExIndex()).mem
    && if v.mem then s.core.exMem == Executed(HartAt(p, v.MemIndex()), WordAt(p, v.MemIndex()))
       else InertMem(s.core.exMem)
  }

  predicate ExOk(p: Setting, c: Core, v: Occupancy) {
    if v.ex then c.idEx == Latched(c.regs, HartAt(p, v.ExIndex()).pc, WordAt(p, v.ExIndex())) else InertEx(c.idEx)
  }

  /** Two cycles before an instruction enters EX it is being fetched, one cycle before it is being decoded. */
  predicate FrontOk(p: Setting, c: Core, v: Occupancy) {
    var n := v.NextIndex();
    var pc, w := HartAt(p, n).pc, WordAt(p, n);
    (v.lag == 1 || (v.lag == 2 && v.ex) ==> c.ifId == IfId(pc, w) && c.pc == PcPlus4(pc))
    && (v.lag == 2 && !v.ex ==> c.ifId.instr == NOP_INSTR && c.pc == pc)
  }

  // Facts about the sequential run

  lemma HartStep(p: Setting, n: nat)
    ensures HartAt(p, n + 1) == Isa.Next(HartAt(p, n), WordAt(p, n))
  {
    hide Isa.Next;
  }

  lemma TakenInExecute(p: Setting, n: nat)
    requires Isa.InScope(HartAt(p, n), WordAt(p, n))
    ensures var q := Executed(HartAt(p, n), WordAt(p, n));
      q.branchTaken == Taken(p, n)
      && HartAt(p, n + 1).pc == if q.branchTaken then q.branchTarget else PcPlus4(HartAt(p, n).pc)
  {
    hide HartAt, WordAt, Executed, Isa.Parse, Isa.NoException, Isa.Transfers, Isa.NextPc, PcPlus4;
    HartStep(p, n);
    ControlCorrect(HartAt(p, n), WordAt(p, n));
  }

  lemma InterlockInDecode(p: Setting, n: nat)
    requires Isa.InScope(HartAt(p, n), WordAt(p, n))
    ensures var d, e := Decode(WordAt(p, n), M).ctrl, Decode(WordAt(p, n + 1), M);
      Interlocked(p, n) == LoadUse(d.mem.isLoad, d.wb.rd, e.rs1, e.rs2)
  {
    hide HartAt, WordAt, Decode, Isa.Parse, Isa.NoException;
    DecodeControls(WordAt(p, n), M);
  }

  lemma InScopeBefore(p: Setting, k: nat, n: nat)
    requires Scope(p, k) && n < k
    ensures Isa.InScope(HartAt(p, n), WordAt(p, n))
  {
    hide HartAt, WordAt, Isa.InScope, Settled;
  }

  // Steps

  lemma StagesQuiet(p: Setting, k: nat, c: Core, v: Occupancy)
    requires Scope(p, k) && v.MemIndex() <= k && RegsOk(p, c, v) && WbOk(p, c, v)
    ensures Quiet(c)
  {
    hide HartAt, WordAt, QuietCsrs, Isa.InScope, Accessed;
    if v.wb {
      QuietRetirement(HartAt(p, v.retired), WordAt(p, v.retired));
    }
  }

  /** Register file as the instruction in MEM finds it. */
  lemma WrittenBackIsNext(p: Setting, k: nat, c: Core, v: Occupancy)
    requires Scope(p, k) && v.MemIndex() <= k && RegsOk(p, c, v) && WbOk(p, c, v)
    ensures WrittenBack(c.regs, c.memWb) == HartAt(p, v.MemIndex()).regs
  {
    hide HartAt, WordAt, QuietCsrs, Isa.InScope, Isa.Next, Accessed, WrittenBack;
    if v.wb {
      HartStep(p, v.retired);
      Retires(HartAt(p, v.retired), WordAt(p, v.retired));
    } else {
      InertRetires(c.regs, c.memWb);
    }
  }

  lemma RegsStep(p: Setting, k: nat, c: Core, v: Occupancy, i: Inputs)
    requires Scope(p, k) && v.MemIndex() <= k && LagOk(p, v) && RegsOk(p, c, v) && WbOk(p, c, v)
    ensures RegsOk(p, Step(c, false, i), OccupancyNext(p, v))
  {
    hide Scope, HartAt, WordAt, Quiet, QuietCsrs, WbOk, Step, WrittenBack, LagOk, Penalty;
    hide ExResult, MustWait, MemOutput, ExOutput, OperandA, OperandB, Latched;
    StagesQuiet(p, k, c, v);
    QuietEdge(c, i);
    WrittenBackIsNext(p, k, c, v);
  }

  lemma WbStep(p: Setting, k: nat, s: System, v: Occupancy, i: Inputs)
    requires Scope(p, k) && v.ExIndex() <= k && LagOk(p, v)
    requires RegsOk(p, s.core, v) && WbOk(p, s.core, v) && MemOk(p, s, v)
    requires i.dmemRdata == BusRead(s.mem, s.core.exMem)
    ensures WbOk(p, Step(s.core, false, i), OccupancyNext(p, v))
  {
    hide HartAt, WordAt, QuietCsrs, Quiet, Step, WrittenBack, LagOk, Penalty, InertMem, InertWb, Executed, Accessed;
    hide MemOutput, BusRead, Isa.InScope, Isa.Next, RegsOk, ExResult, MustWait, ExOutput, OperandA, OperandB, Latched;
    var n := v.MemIndex();
    StagesQuiet(p, k, s.core, v);
    QuietEdge(s.core, i);
    if v.mem {
      HartStep(p, n);
      Completes(HartAt(p, n), WordAt(p, n), s.core.exMem);
    } else {
      InertThroughMem(s.core.exMem, i.dmemRdata);
    }
  }

  // The execute stage

  predicate SourceOf(w: bv32, rs: Reg) { rs == Decode(w, M).rs1 || rs == Decode(w, M).rs2 }

  /** No penalty between neighbours: the older one neither transfers nor loads a source of the younger. */
  lemma NeighbourForwards(p: Setting, k: nat, n: nat, rs: Reg)
    requires Scope(p, k) && n < k && Penalty(p, n) == 0 && SourceOf(WordAt(p, n + 1), rs)
    ensures Forwardable(HartAt(p, n), WordAt(p, n), rs)
  {
    hide HartAt, WordAt, Decode, Executed, Isa.InScope, Taken, Interlocked;
    PenaltyCases(p, n);
    TakenInExecute(p, n);
    InterlockInDecode(p, n);
    ExecutedFields(HartAt(p, n), WordAt(p, n));
  }

  /** Bypass: a source of the instruction in EX has its sequential value. */
  lemma OperandIsSequential(p: Setting, k: nat, s: System, v: Occupancy, rs: Reg)
    requires Scope(p, k) && v.ExIndex() <= k && LagOk(p, v) && v.ex
    requires RegsOk(p, s.core, v) && WbOk(p, s.core, v) && MemOk(p, s, v)
    requires SourceOf(WordAt(p, v.ExIndex()), rs)
    ensures var c := s.core;
      Forwarded(c, rs, ReadReg(c.regs, rs)) == ReadReg(HartAt(p, v.ExIndex()).regs, rs)
      && (ForwardSelect(rs, c.exMem.wb.regWrite, c.exMem.wb.rd, WriteEnable(c.memWb), c.memWb.wb.rd).FromMem?
          ==> c.exMem.wb.wbSel == WB_ALU)
  {
    hide HartAt, WordAt, Decode, Quiet, WrittenBack, Penalty, Executed, Accessed, ReadReg, Forwarded, ForwardSelect;
    hide WriteEnable, InertMem, Forwardable, Isa.InScope, Isa.Next, WbOk, SourceOf;
    var n := v.MemIndex();
    StagesQuiet(p, k, s.core, v);
    WrittenBackIsNext(p, k, s.core, v);
    if v.mem {
      NeighbourForwards(p, k, n, rs);
      HartStep(p, n);
      BypassOverInstruction(s.core, HartAt(p, n), WordAt(p, n), rs);
    } else {
      BypassOverBubble(s.core, rs);
    }
  }

  lemma LatchedFields(regs: Regs, pc: bv64, w: bv32)
    ensures var d, q := Decode(w, M), Latched(regs, pc, w);
      q.rs1 == d.rs1 && q.rs2 == d.rs2 && q.rs1Data == ReadReg(regs, d.rs1) && q.rs2Data == ReadReg(regs, d.rs2)
      && q.ctrl == d.ctrl && q.pc == pc && q.instr == w
  {
    hide Decode, ReadReg;
  }

  /** Execution takes the operands from the bypass, not from the latched register values. */
  lemma ExecutedFromOperands(regs: Regs, h: Isa.Hart, w: bv32)
    ensures ExOutput(Latched(regs, h.pc, w), ReadReg(h.regs, Decode(w, M).rs1), ReadReg(h.regs, Decode(w, M).rs2))
         == Executed(h, w)
  {
    hide Decode, ReadReg;
  }

  lemma OperandsAreSequential(p: Setting, k: nat, s: System, v: Occupancy)
    requires Scope(p, k) && v.ExIndex() <= k && LagOk(p, v) && v.ex
    requires RegsOk(p, s.core, v) && WbOk(p, s.core, v) && MemOk(p, s, v) && ExOk(p, s.core, v)
    ensures var c, h, d := s.core, HartAt(p, v.ExIndex()), Decode(WordAt(p, v.ExIndex()), M);
      OperandA(c) == ReadReg(h.regs, d.rs1) && OperandB(c) == ReadReg(h.regs, d.rs2)
      && ExOutput(c.idEx, OperandA(c), OperandB(c)) == Executed(h, WordAt(p, v.ExIndex()))
  {
    hide HartAt, WordAt, Decode, Latched, Executed, ReadReg, Forwarded, LagOk, Isa.InScope, RegsOk, WbOk, MemOk;
    hide ExOutput;
    var h, w := HartAt(p, v.ExIndex()), WordAt(p, v.ExIndex());
    OperandIsSequential(p, k, s, v, Decode(w, M).rs1);
    OperandIsSequential(p, k, s, v, Decode(w, M).rs2);
    LatchedFields(s.core.regs, h.pc, w);
    ExecutedFromOperands(s.core.regs, h, w);
  }

  lemma MemStep(p: Setting, k: nat, s: System, v: Occupancy, fetch: Fetch, pins: Pins)
    requires Scope(p, k) && v.NextIndex() <= k && LagOk(p, v)
    requires RegsOk(p, s.core, v) && WbOk(p, s.core, v) && MemOk(p, s, v) && ExOk(p, s.core, v)
    ensures MemOk(p, Tick(s, fetch, pins), OccupancyNext(p, v))
  {
    hide HartAt, WordAt, LagOk, Quiet, QuietCsrs, Step, WrittenBack, Penalty, InertMem, InertEx, Executed;
    hide MemOutput, BusRead, BusStore, Isa.InScope, Isa.Next, RegsOk, WbOk, ExResult, MustWait, ExOutput;
    hide OperandA, OperandB;
    hide Latched, PcPlus4;
    var n := v.ExIndex();
    StagesQuiet(p, k, s.core, v);
    QuietMem(s.core, Inputs(fetch(s.mem, s.core.pc), BusRead(s.mem, s.core.exMem), pins));
    if v.ex {
      OperandsAreSequential(p, k, s, v);
      HartStep(p, n);
      Stores(HartAt(p, n), WordAt(p, n));
    } else {
      InertThroughEx(s.core.idEx, OperandA(s.core), OperandB(s.core));
      InertStore(s.mem, ExOutput(s.core.idEx, OperandA(s.core), OperandB(s.core)));
    }
  }

  // The front of the pipeline

  predicate BackOk(p: Setting, s: System, v: Occupancy) {
    LagOk(p, v) && RegsOk(p, s.core, v) && WbOk(p, s.core, v) && MemOk(p, s, v) && ExOk(p, s.core, v)
  }

  lemma ExResultIsOutput(c: Core)
    ensures var x, q := ExResult(c), ExOutput(c.idEx, OperandA(c), OperandB(c));
      x.branchTaken == q.branchTaken && x.branchTarget == q.branchTarget
  {
    hide Forwarded;
  }

  /** The redirect of the execute stage is the transfer of its instruction; a bubble never redirects. */
  lemma RedirectIsTransfer(p: Setting, k: nat, s: System, v: Occupancy)
    requires Scope(p, k) && v.NextIndex() <= k && BackOk(p, s, v)
    ensures var x, n := ExResult(s.core), v.ExIndex();
      x.branchTaken == (v.ex && Taken(p, n))
      && (v.ex ==> HartAt(p, n + 1).pc == if x.branchTaken then x.branchTarget else PcPlus4(HartAt(p, n).pc))
  {
    hide HartAt, WordAt, Taken, Executed, ExResult, ExOutput, OperandA, OperandB, Isa.InScope, LagOk, RegsOk;
    hide WbOk, MemOk, PcPlus4;
    hide Latched, InertEx;
    var n := v.ExIndex();
    ExResultIsOutput(s.core);
    if v.ex {
      OperandsAreSequential(p, k, s, v);
      TakenInExecute(p, n);
    } else {
      InertThroughEx(s.core.idEx, OperandA(s.core), OperandB(s.core));
    }
  }

  /** The interlock fires exactly for a load in EX whose destination the decoded successor names. */
  lemma WaitIsInterlock(p: Setting, k: nat, s: System, v: Occupancy)
    requires Scope(p, k) && v.NextIndex() <= k && BackOk(p, s, v)
    requires v.ex ==> s.core.ifId.instr == WordAt(p, v.NextIndex())
    ensures MustWait(s.core) == (v.ex && Interlocked(p, v.ExIndex()))
  {
    hide HartAt, WordAt, Interlocked, Decode, Isa.InScope, LagOk, RegsOk, WbOk, MemOk, Latched;
    if v.ex {
      LatchedFields(s.core.regs, HartAt(p, v.ExIndex()).pc, WordAt(p, v.ExIndex()));
      InterlockInDecode(p, v.ExIndex());
    }
  }

  predicate AllOk(p: Setting, s: System, v: Occupancy) { BackOk(p, s, v) && FrontOk(p, s.core, v) }

  /** What the hazard unit decides, by the lag of the next instruction. */
  lemma Decisions(p: Setting, k: nat, s: System, v: Occupancy)
    requires Scope(p, k) && v.NextIndex() <= k && AllOk(p, s, v)
    ensures var taken, wait := ExResult(s.core).branchTaken, MustWait(s.core);
      (v.lag == 1 ==> !taken && !wait) && (v.lag == 3 ==> taken)
      && (v.lag == 2 ==> !taken && wait == v.ex)
  {
    hide HartAt, WordAt, Taken, Interlocked, Penalty, Isa.InScope, RegsOk, WbOk, MemOk, ExOk, ExResult, MustWait;
    RedirectIsTransfer(p, k, s, v);
    PenaltyCases(p, v.ExIndex());
    if !Taken(p, v.ExIndex()) || !v.ex {
      WaitIsInterlock(p, k, s, v);
    }
  }

  lemma ExStep(p: Setting, k: nat, s: System, v: Occupancy, i: Inputs)
    requires Scope(p, k) && v.NextIndex() <= k && AllOk(p, s, v)
    ensures ExOk(p, Step(s.core, false, i), OccupancyNext(p, v))
  {
    hide HartAt, WordAt, Quiet, QuietCsrs, Step, WrittenBack, Penalty, InertEx, Isa.InScope, RegsOk, WbOk, MemOk;
    hide ExResult, MustWait, MemOutput, ExOutput, OperandA, OperandB, Latched, PcPlus4, ExOk;
    var c := s.core;
    StagesQuiet(p, k, c, v);
    QuietEdge(c, i);
    Decisions(p, k, s, v);
    if v.lag == 1 {
      LatchedIsOk(p, Step(c, false, i), OccupancyNext(p, v));
    } else if v.lag == 2 && !v.ex {
      NopIsInert(Step(c, false, i).regs, c.ifId.pc);
      InertIsOk(p, Step(c, false, i), OccupancyNext(p, v));
    } else {
      FlushIsInert(c.idEx);
      InertIsOk(p, Step(c, false, i), OccupancyNext(p, v));
    }
  }

  lemma FlushIsInert(q: IdEx)
    ensures InertEx(q.(instr := 0, ctrl := CTRL_IDLE))
  {}

  lemma InertIsOk(p: Setting, c: Core, v: Occupancy)
    requires !v.ex && InertEx(c.idEx)
    ensures ExOk(p, c, v)
  {}

  lemma LatchedIsOk(p: Setting, c: Core, v: Occupancy)
    requires v.ex && c.idEx == Latched(c.regs, HartAt(p, v.ExIndex()).pc, WordAt(p, v.ExIndex()))
    ensures ExOk(p, c, v)
  {}

  lemma DecodingNext(p: Setting, c: Core, v: Occupancy)
    requires v.lag != 2 || v.ex
    requires v.lag < 3 ==> c.ifId == IfId(HartAt(p, v.NextIndex()).pc, WordAt(p, v.NextIndex()))
    requires v.lag < 3 ==> c.pc == PcPlus4(HartAt(p, v.NextIndex()).pc)
    ensures FrontOk(p, c, v)
  {}

  lemma FetchingNext(p: Setting, c: Core, v: Occupancy)
    requires v.lag == 2 && !v.ex && c.ifId.instr == NOP_INSTR && c.pc == HartAt(p, v.NextIndex()).pc
    ensures FrontOk(p, c, v)
  {}

  lemma FrontStep(p: Setting, k: nat, s: System, v: Occupancy, pins: Pins)
    requires Scope(p, k) && v.NextIndex() <= k && AllOk(p, s, v)
    requires OccupancyNext(p, v).NextIndex() <= k
    ensures FrontOk(p, Tick(s, p.fetch, pins).core, OccupancyNext(p, v))
  {
    hide Scope, HartAt, WordAt, Isa.InScope, Step, Tick, Penalty, Taken, Interlocked, FetchIndex;
    hide PcPlus4, RegsOk, WbOk, MemOk, ExOk;
    var n, u, d := v.NextIndex(), OccupancyNext(p, v), Tick(s, p.fetch, pins).core;
    FrontEdge(p, k, s, v, pins);
    OccupancyNextLag(p, v);
    FetchedMemory(p, v);
    PenaltyCases(p, n);
    if v.lag == 1 {
      InScopeBefore(p, k, n);
      SuccessorPc(p, n);
      if !Taken(p, n) {
        FetchedWord(p, k, s, v, n + 1);
      }
      DecodingNext(p, d, u);
    } else if v.lag == 2 && !v.ex {
      FetchedWord(p, k, s, v, n);
      DecodingNext(p, d, u);
    } else if v.lag == 2 {
      DecodingNext(p, d, u);
    } else {
      FetchingNext(p, d, u);
    }
  }

  /** The front registers after the edge, by the lag of the next instruction. */
  lemma FrontEdge(p: Setting, k: nat, s: System, v: Occupancy, pins: Pins)
    requires Scope(p, k) && v.NextIndex() <= k && AllOk(p, s, v)
    ensures var c, d := s.core, Tick(s, p.fetch, pins).core;
      MemOk(p, s, v)
      && if v.lag == 3 then d.ifId.instr == NOP_INSTR && d.pc == HartAt(p, v.NextIndex()).pc
         else if v.lag == 2 && v.ex then d.ifId == c.ifId && d.pc == c.pc
         else d.ifId == IfId(c.pc, p.fetch(s.mem, c.pc)) && d.pc == PcPlus4(c.pc)
  {
    hide Scope, HartAt, WordAt, Quiet, Step, Penalty, Taken, RegsOk, WbOk, MemOk, ExOk, FrontOk;
    hide ExResult, MustWait, PcPlus4, BusRead, BusStore;
    StagesQuiet(p, k, s.core, v);
    QuietFront(s.core, Inputs(p.fetch(s.mem, s.core.pc), BusRead(s.mem, s.core.exMem), pins));
    Decisions(p, k, s, v);
    RedirectIsTransfer(p, k, s, v);
  }

  /** Memory at a fetch is the one the fetch index names. */
  lemma FetchedMemory(p: Setting, v: Occupancy)
    requires LagOk(p, v)
    ensures v.lag == 1 && !Taken(p, v.NextIndex()) ==> FetchIndex(p, v.NextIndex() + 1) == v.ExIndex()
    ensures v.lag == 2 && !v.ex ==> FetchIndex(p, v.NextIndex()) == v.ExIndex()
  {
    hide Penalty, Taken;
  }

  lemma FetchedWord(p: Setting, k: nat, s: System, v: Occupancy, n: nat)
    requires Scope(p, k) && MemOk(p, s, v) && FetchIndex(p, n) == v.ExIndex() && n <= k
    ensures p.fetch(s.mem, HartAt(p, n).pc) == WordAt(p, n)
  {
    hide HartAt, WordAt, Isa.InScope, Executed, InertMem, FetchIndex;
    assert Settled(p, n);
  }

  /** An instruction that does not transfer is followed by the next word. */
  lemma SuccessorPc(p: Setting, n: nat)
    requires Isa.InScope(HartAt(p, n), WordAt(p, n))
    ensures Penalty(p, n) < 2 ==> HartAt(p, n + 1).pc == PcPlus4(HartAt(p, n).pc)
  {
    hide HartAt, WordAt, Penalty, Taken, Interlocked, Executed, Isa.InScope, PcPlus4;
    PenaltyCases(p, n);
    TakenInExecute(p, n);
  }
}
