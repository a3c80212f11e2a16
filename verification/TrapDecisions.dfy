/** What the trap controller decides in a cycle, by pins, flags and the registers software sees. */
module TrapDecisions {
  import opened Rv64Pkg
  import opened BitString
  import opened CsrUnit
  import opened CsrAccess
  import opened CsrMap
  import opened StatusBits
  import opened TrapCtrl
  import opened ExceptionCauses

  /** An interrupt pin is high and MIE is set. */
  predicate Interrupted(s: Csrs, pins: Pins) {
    Bit(ReadCsr(s, 0x300), 3) && (pins.external || pins.software || pins.timer)
  }

  /** Some exception flag is set. */
  predicate Faulted(w: Retiring) {
    w.illegal || w.isEbreak || w.isEcall || w.loadFault || w.storeFault
    || w.instrPageFault || w.loadPageFault || w.storePageFault
  }

  predicate Trapping(s: Csrs, w: Retiring, pins: Pins) { Interrupted(s, pins) || Faulted(w) }

  /** The number of the trap: external, software, timer interrupt; then the exceptions by priority. */
  function Number(s: Csrs, w: Retiring, pins: Pins): (n: nat)
    requires Trapping(s, w, pins)
    ensures n < 16
  {
    if Interrupted(s, pins) then if pins.external then 11 else if pins.software then 3 else 7
    else if w.illegal then 2
    else if w.isEbreak then 3
    else if w.isEcall then (match s.priv case U => 8 case S => 9 case M => 11)
    else if w.loadFault then 5
    else if w.storeFault then 7
    else if w.instrPageFault then 12
    else if w.loadPageFault then 13
    else 15
  }

  /** The number as a doubleword. */
  function Numeral(n: nat): bv64
    requires n < 16
  {
    if n == 2 then 2 else if n == 3 then 3 else if n == 5 then 5 else if n == 7 then 7
    else if n == 8 then 8 else if n == 9 then 9 else if n == 11 then 11
    else if n == 12 then 12 else if n == 13 then 13 else if n == 15 then 15 else 0
  }

  predicate IsNumber(n: nat) { n in {2, 3, 5, 7, 8, 9, 11, 12, 13, 15} }

  lemma NumeralBits(x: bv64, n: nat)
    requires IsNumber(n)
    ensures Numeral(n) & 0x3F < 64 && BitAt(x, Numeral(n) & 0x3F) == Bit(x, n)
  {
    hide Bit, BitAt;
    if n < 8 {
      LowMaskBit(x, n);
    } else {
      HighMaskBit(x, n);
    }
  }

  /** The cause register's value: the number, with the top bit for an interrupt. */
  function CauseOf(n: nat, interrupt: bool): bv64
    requires n < 16
  {
    if interrupt then 0x8000_0000_0000_0000 | Numeral(n) else Numeral(n)
  }

  lemma IndexOfCause(n: nat, interrupt: bool)
    requires IsNumber(n)
    ensures CauseOf(n, interrupt) & 0x3F == Numeral(n) & 0x3F
  {}

  lemma InterruptIs(s: Csrs, pins: Pins)
    ensures HasInterrupt(s, pins) <==> Interrupted(s, pins)
  {
    hide Has, Bit, ReadCsr, OneAt;
    ControllerAddresses(s);
    Masks();
    HasIsBit(s.mstatus, 3);
  }

  lemma CauseIs(s: Csrs, w: Retiring, pins: Pins)
    requires Trapping(s, w, pins)
    ensures var n := Number(s, w, pins);
      IsNumber(n) && Cause(s, w, pins) == CauseOf(n, Interrupted(s, pins))
  {
    hide Interrupted, HasInterrupt;
    InterruptIs(s, pins);
  }

  /** The faulting word, the pc of a breakpoint, or the faulting address; zero for an interrupt and an ecall. */
  function TrapValue(s: Csrs, w: Retiring, pins: Pins): bv64 {
    if Interrupted(s, pins) then 0
    else if w.illegal then w.instr as bv64
    else if w.isEbreak then w.pc
    else if w.isEcall then 0
    else w.badAddr
  }

  /** A trap below M mode goes to the supervisor exactly when the delegation register has the bit of its number. */
  lemma DelegatedIs(s: Csrs, w: Retiring, pins: Pins)
    requires Trapping(s, w, pins)
    ensures Delegated(s, w, pins)
       <==> s.priv != M && Bit(ReadCsr(s, if Interrupted(s, pins) then 0x303 else 0x302), Number(s, w, pins))
  {
    hide Interrupted, HasInterrupt, Bit, BitAt, ReadCsr, Number, Cause, CauseOf, Numeral, IsNumber;
    InterruptIs(s, pins);
    ControllerAddresses(s);
    CauseIs(s, w, pins);
    var n := Number(s, w, pins);
    IndexOfCause(n, Interrupted(s, pins));
    NumeralBits(s.plain[MIDELEG], n);
    NumeralBits(s.plain[MEDELEG], n);
  }

  /** Every cycle: whether there is a trap, what it reports, where it goes, and whether a return is performed. */
  lemma Decision(s: Csrs, w: Retiring, pins: Pins)
    ensures var t := Request(s, w, pins);
      (t.trigger <==> Trapping(s, w, pins)) && (t.mretEn <==> w.isMret && !t.trigger)
      && (t.sretEn <==> w.isSret && !t.trigger) && (FlushRequest(t) <==> t.trigger || w.isMret || w.isSret)
      && (!t.trigger ==> !t.toS)
    ensures var t := Request(s, w, pins);
      t.trigger ==>
        t.epc == w.pc && t.cause == CauseOf(Number(s, w, pins), Interrupted(s, pins))
        && t.tval == TrapValue(s, w, pins)
        && (t.toS <==> s.priv != M
                       && Bit(ReadCsr(s, if Interrupted(s, pins) then 0x303 else 0x302), Number(s, w, pins)))
  {
    hide Interrupted, HasInterrupt, Bit, BitAt, ReadCsr, Number, Cause, CauseOf, Delegated;
    InterruptIs(s, pins);
    if Trapping(s, w, pins) {
      CauseIs(s, w, pins);
      DelegatedIs(s, w, pins);
    } else {
      NotDelegated(s, w, pins);
    }
  }

  lemma NotDelegated(s: Csrs, w: Retiring, pins: Pins)
    requires !Triggered(s, w, pins)
    ensures !Delegated(s, w, pins)
  {
    hide BitAt, Cause;
  }

  /** Where the pipeline is sent: the vector of the mode trapped to, or the saved pc of the mode returned from. */
  lemma DecisionTarget(s: Csrs, w: Retiring, pins: Pins)
    ensures var t, pc := Request(s, w, pins), NextPc(s, w, pins);
      if t.trigger then
        var vector := ReadCsr(s, if t.toS then 0x105 else 0x305);
        pc == if !Vectored(vector) || !Interrupted(s, pins) then Base(vector)
              else Offset(Base(vector), if pins.external then 44 else if pins.software then 12 else 28)
      else if w.isMret then pc == ReadCsr(s, 0x341)
      else pc == if w.isSret then ReadCsr(s, 0x141) else 0
  {
    hide Interrupted, HasInterrupt, HasException, Delegated, ReadCsr, Cause, ExceptionValue, VectorTarget, Base;
    hide Vectored, Offset;
    InterruptIs(s, pins);
    ControllerAddresses(s);
    if Triggered(s, w, pins) {
      TrapTarget(s, w, pins);
    }
  }

  /** An mret that meets no trap returns: to mepc, in the mode of MPP, flushing the pipeline. */
  lemma MretReturns(s: Csrs, w: Retiring, pins: Pins, r: CsrReq)
    requires w.isMret && !w.isSret && !Trapping(s, w, pins)
    ensures var t, m := Request(s, w, pins), ReadCsr(s, 0x300);
      FlushRequest(t) && NextPc(s, w, pins) == ReadCsr(s, 0x341)
      && CsrNext(s, r, t).priv == if Bit(m, 12) then M else if Bit(m, 11) then S else U
  {
    hide *;
    Decision(s, w, pins);
    DecisionTarget(s, w, pins);
    ModeNext(s, r, Request(s, w, pins));
  }

  /** An sret that meets no trap returns: to sepc, in the mode of SPP, flushing the pipeline. */
  lemma SretReturns(s: Csrs, w: Retiring, pins: Pins, r: CsrReq)
    requires w.isSret && !w.isMret && !Trapping(s, w, pins)
    ensures var t, z := Request(s, w, pins), ReadCsr(s, 0x100);
      FlushRequest(t) && NextPc(s, w, pins) == ReadCsr(s, 0x141)
      && CsrNext(s, r, t).priv == if Bit(z, 8) then S else U
  {
    hide *;
    Decision(s, w, pins);
    DecisionTarget(s, w, pins);
    ModeNext(s, r, Request(s, w, pins));
  }

  predicate WritesWhole(r: CsrReq) { r.req && r.op & 3 == 1 }

  lemma WholeWrite(s: Csrs, r: CsrReq)
    requires WritesWhole(r) && r.addr in {0x105, 0x141, 0x302, 0x303, 0x305, 0x341}
    ensures ReadCsr(Written(s, r), r.addr) == r.data
  {
    hide ReadCsr, Written, WriteNext;
    ReadsBack(s, r);
    WriteIs(ReadCsr(s, r.addr), r.data, r.op);
  }

  /** The value last written to a vector, delegation or exception-pc register is the one that is used. */
  lemma LastWriteSelects(s: Csrs, r: CsrReq, w: Retiring, pins: Pins)
    requires WritesWhole(r)
    ensures var u := Written(s, r);
      var t, pc := Request(u, w, pins), NextPc(u, w, pins);
      var trap := Trapping(u, w, pins);
      (r.addr == (if t.toS then 0x105 else 0x305) && trap && !Interrupted(u, pins) ==> pc == Base(r.data))
      && (r.addr == 0x341 && w.isMret && !trap ==> pc == r.data)
      && (r.addr == 0x141 && w.isSret && !w.isMret && !trap ==> pc == r.data)
      && (r.addr == (if Interrupted(u, pins) then 0x303 else 0x302) && trap ==>
          (t.toS <==> u.priv != M && Bit(r.data, Number(u, w, pins))))
  {
    var u := Written(s, r);
    hide Written, ReadCsr, Interrupted, Faulted, Request, NextPc, Base, Offset, Vectored, Bit, Number, WritesWhole;
    Decision(u, w, pins);
    DecisionTarget(u, w, pins);
    if r.addr in {0x105, 0x141, 0x302, 0x303, 0x305, 0x341} {
      WholeWrite(s, r);
    }
  }
}
