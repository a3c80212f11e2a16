/** The CSR file by address: what each address holds after a clock edge. */
module CsrMap {
  import opened Rv64Pkg
  import opened Bits
  import opened BitString
  import opened BitArithmetic
  import opened CsrUnit
  import opened CsrAccess

  // The address map

  /** No two addresses share a slot, but for the aliases. */
  lemma OneSlot(a: bv12, b: bv12)
    requires SlotAt(a).Some? && SlotAt(a) == SlotAt(b)
    ensures a == b
  {}

  lemma PlainSlots(a: bv12)
    requires IsPlain(a)
    ensures SlotAt(View(a)).Some? && CanonicalAddr(a) == View(a)
    ensures var n := SlotAt(View(a)).value;
      n != FFLAGS && n != FRM && (n == MCYCLE <==> View(a) == 0xB00) && (n == TIME <==> a == 0xC01)
      && (n == MINSTRET <==> View(a) == 0xB02) && (n == MEPC <==> a == 0x341) && (n == MCAUSE <==> a == 0x342)
      && (n == MTVAL <==> a == 0x343) && (n == SEPC <==> a == 0x141) && (n == SCAUSE <==> a == 0x142)
      && (n == STVAL <==> a == 0x143)
  {}

  lemma PlainIsOther(a: bv12)
    requires IsPlain(a)
    ensures View(a) !in {0x003, 0x100, 0x300, 0x301}
  {}

  lemma PlainRead(s: Csrs, a: bv12)
    requires IsPlain(a)
    ensures SlotAt(View(a)).Some? && ReadCsr(s, a) == s.plain[SlotAt(View(a)).value]
  {
    hide Fcsr, SlotAt, IsPlain, View, CanonicalAddr;
    PlainSlots(a);
    PlainIsOther(a);
  }

  /** misa has its constant, and addresses without a register read as zero. */
  lemma FixedRead(s: Csrs, a: bv12)
    requires IsFixed(a) || !Exists(a)
    ensures ReadCsr(s, a) == if a == 0x301 then 0x8000_0000_0050_112D else 0
  {
    hide Fcsr;
  }

  /** After reset the machine is in M mode and every register but misa reads as zero. */
  lemma ResetReads(a: bv12)
    ensures CsrsReset().priv == M && CsrsReset().trapVector == 0 && !CsrsReset().trapToS
    ensures ReadCsr(CsrsReset(), a) == if a == 0x301 then 0x8000_0000_0050_112D else 0
  {
    hide SlotAt, Fcsr;
    ZeroFcsr();
    NoSlotForMisa();
  }

  lemma NoSlotForMisa()
    ensures SlotAt(0x301) == None
  {}

  lemma ZeroFcsr()
    ensures Fcsr(CsrsReset()) == 0 && forall n: Slot :: CsrsReset().plain[n] == 0
  {}

  // What an address holds after an edge

  /** A counter advances by one; the instruction counter not in a trap. */
  function Counted(t: TrapReq, a: bv12, v: bv64): bv64 {
    if View(a) == 0xB00 || a == 0xC01 || (View(a) == 0xB02 && !t.trigger) then Add(v, 1) else v
  }

  /** A trap leaves pc, cause and value at the addresses of the mode it goes to. */
  function Trapped(t: TrapReq, a: bv12, v: bv64): bv64 {
    if !t.trigger then v
    else if a == (if t.toS then 0x141 else 0x341) then t.epc
    else if a == (if t.toS then 0x142 else 0x342) then t.cause
    else if a == (if t.toS then 0x143 else 0x343) then t.tval
    else v
  }

  lemma IncIsAdd(v: bv64)
    ensures Inc(v) == Add(v, 1)
  {}

  lemma SlotNext(s: Csrs, r: CsrReq, t: TrapReq, n: Slot)
    ensures CsrNext(s, r, t).plain[n] == TrapSelect(t, n, WriteSelect(s, r, n, CountSelect(s.plain[n], t.trigger, n)))
  {
    hide TrapSelect, WriteSelect, CountSelect, StatusNext;
  }

  lemma KeepsAll(n: Slot, v: bv64)
    requires n != FFLAGS && n != FRM
    ensures Keep(n, v) == v
  {}

  lemma WritesSlot(r: CsrReq, a: bv12)
    requires IsPlain(a)
    ensures SlotAt(View(a)).Some? && (WritesPlain(r, SlotAt(View(a)).value) <==> WritesTo(r, a))
  {
    hide SlotAt, Exists, ReadOnly, WriteEnabled, Enabled, View, CanonicalAddr;
    PlainSlots(a);
    EnabledIs(r);
    Supported(r.addr);
    if SlotAt(View(r.addr)) == SlotAt(View(a)) {
      OneSlot(View(a), View(r.addr));
    }
  }

  /** Each plain address after a clock edge: the trap's value, else the written one, else the counted one. */
  lemma PlainNextAt(s: Csrs, r: CsrReq, t: TrapReq, a: bv12)
    requires IsPlain(a)
    ensures ReadCsr(CsrNext(s, r, t), a)
         == Trapped(t, a, if WritesTo(r, a) then WriteNext(ReadCsr(s, a), r.data, r.op)
                          else Counted(t, a, ReadCsr(s, a)))
  {
    hide SlotAt, IsPlain, WritesPlain, WritesTo, CsrNext, ReadCsr, WriteNext, Keep, Inc, Add, View, CsrUnit.Writes;
    PlainSlots(a);
    var n := SlotAt(View(a)).value;
    PlainRead(s, a);
    PlainRead(CsrNext(s, r, t), a);
    SlotNext(s, r, t, n);
    WritesSlot(r, a);
    KeepsAll(n, WriteNext(s.plain[n], r.data, r.op));
    IncIsAdd(s.plain[n]);
  }

  // The floating-point status

  lemma FloatReads(s: Csrs)
    ensures ReadCsr(s, 0x001) == s.plain[FFLAGS] && ReadCsr(s, 0x002) == s.plain[FRM] && ReadCsr(s, 0x003) == Fcsr(s)
  {
    hide Fcsr;
  }

  lemma Packed(s: Csrs)
    ensures Fcsr(s) == Or(s.plain[FFLAGS], Sll(s.plain[FRM], 5))
  {}

  lemma FloatKeeps(v: bv64)
    ensures Keep(FFLAGS, v) == Flags(v) && Keep(FRM, v) == And(v, 7) && Keep(FRM, FrmField(v)) == Rounding(v)
  {
    FcsrFields(v);
  }

  lemma WritesFloat(r: CsrReq)
    ensures (WritesPlain(r, FFLAGS) <==> WritesTo(r, 0x001)) && (WritesPlain(r, FRM) <==> WritesTo(r, 0x002))
    ensures CsrUnit.Writes(r, CSR_FCSR) <==> WritesTo(r, 0x003)
  {
    hide WriteEnabled, Enabled;
    EnabledIs(r);
  }

  /** fcsr is the flags with the rounding mode above them; a write to it is a write to both. */
  lemma FloatNextAt(s: Csrs, r: CsrReq, t: TrapReq)
    ensures ReadCsr(s, 0x003) == Or(ReadCsr(s, 0x001), Sll(ReadCsr(s, 0x002), 5))
    ensures var u, v := CsrNext(s, r, t), WriteNext(ReadCsr(s, 0x003), r.data, r.op);
      ReadCsr(u, 0x001) == (if WritesTo(r, 0x001) then Flags(WriteNext(ReadCsr(s, 0x001), r.data, r.op))
                            else if WritesTo(r, 0x003) then Flags(v) else ReadCsr(s, 0x001))
      && ReadCsr(u, 0x002) == (if WritesTo(r, 0x002) then And(WriteNext(ReadCsr(s, 0x002), r.data, r.op), 7)
                               else if WritesTo(r, 0x003) then Rounding(v) else ReadCsr(s, 0x002))
  {
    hide WritesPlain, WritesTo, CsrNext, ReadCsr, WriteNext, Keep, Inc, Fcsr, FrmField, Flags, Rounding, CsrUnit.Writes;
    hide And, Or, Sll;
    var u := CsrNext(s, r, t);
    FloatReads(s);
    FloatReads(u);
    Packed(s);
    SlotNext(s, r, t, FFLAGS);
    SlotNext(s, r, t, FRM);
    WritesFloat(r);
    FloatKeeps(WriteNext(s.plain[FFLAGS], r.data, r.op));
    FloatKeeps(WriteNext(s.plain[FRM], r.data, r.op));
    FloatKeeps(WriteNext(Fcsr(s), r.data, r.op));
  }

  // The addresses the trap controller goes by

  /** The trap controller's registers are those software sees at their addresses. */
  lemma ControllerAddresses(s: Csrs)
    ensures s.plain[MTVEC] == ReadCsr(s, 0x305) && s.plain[STVEC] == ReadCsr(s, 0x105)
    ensures s.plain[MEDELEG] == ReadCsr(s, 0x302) && s.plain[MIDELEG] == ReadCsr(s, 0x303)
    ensures s.plain[MEPC] == ReadCsr(s, 0x341) && s.plain[SEPC] == ReadCsr(s, 0x141)
    ensures s.mstatus == ReadCsr(s, 0x300) && s.sstatus == ReadCsr(s, 0x100)
  {
    hide Fcsr;
  }

  /** A trap is visible at the addresses of its mode, and the vector it used at the latched output. */
  lemma TrapByAddress(s: Csrs, r: CsrReq, t: TrapReq)
    requires t.trigger
    ensures var u := CsrNext(s, r, t);
      u.trapToS == t.toS
      && if t.toS then ReadCsr(u, 0x141) == t.epc && ReadCsr(u, 0x142) == t.cause && ReadCsr(u, 0x143) == t.tval
                       && u.priv == S && u.trapVector == ReadCsr(s, 0x105)
         else ReadCsr(u, 0x341) == t.epc && ReadCsr(u, 0x342) == t.cause && ReadCsr(u, 0x343) == t.tval
              && u.priv == M && u.trapVector == ReadCsr(s, 0x305)
  {
    var u := CsrNext(s, r, t);
    hide ReadCsr, WriteNext, WritesTo, Add, StatusNext, PlainAll;
    ControllerAddresses(s);
    PlainNextAt(s, r, t, if t.toS then 0x141 else 0x341);
    PlainNextAt(s, r, t, if t.toS then 0x142 else 0x342);
    PlainNextAt(s, r, t, if t.toS then 0x143 else 0x343);
  }

  /** Without a trap the latched outputs hold. */
  lemma LatchHolds(s: Csrs, r: CsrReq, t: TrapReq)
    requires !t.trigger
    ensures CsrNext(s, r, t).trapVector == s.trapVector && CsrNext(s, r, t).trapToS == s.trapToS
  {
    hide StatusNext, PlainAll, PrivNext;
  }

  /** The counters count edges and retired instructions, modulo 2^64. */
  lemma CountersCount(s: Csrs, r: CsrReq, t: TrapReq, a: bv12)
    requires a in {0xB00, 0xC00, 0xC01, 0xB02, 0xC02} && !WritesTo(r, a)
    ensures Value(ReadCsr(CsrNext(s, r, t), a))
         == if t.trigger && (a == 0xB02 || a == 0xC02) then Value(ReadCsr(s, a))
            else (Value(ReadCsr(s, a)) + 1) % Pow2(64)
  {
    hide ReadCsr, WriteNext, WritesTo, Add, CsrNext, Low, Pow2;
    PlainNextAt(s, r, t, a);
    AddLow(ReadCsr(s, a), 1, 64);
    BitValues();
  }
}
