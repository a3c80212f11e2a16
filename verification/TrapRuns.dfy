/** Runs of the privilege state machine: nesting, re-entry, and what saved modes mean. */
module TrapRuns {
  import opened Rv64Pkg
  import opened CsrUnit
  import opened TrapCtrl
  import opened Privilege
  import Decoder

  /** What drives the machine in one cycle: the retiring instruction, the interrupt pins, a CSR access. */
  datatype Cycle = Cycle(w: Retiring, pins: Pins, csr: CsrReq)

  function TrapOf(s: Csrs, e: Cycle): TrapReq { Request(s, e.w, e.pins) }

  function After(s: Csrs, e: Cycle): Csrs { CsrNext(s, e.csr, TrapOf(s, e)) }

  function AfterAll(s: Csrs, es: seq<Cycle>): Csrs {
    if es == [] then s else After(AfterAll(s, es[..|es| - 1]), es[|es| - 1])
  }

  lemma {:induction false} AfterConcat(s: Csrs, a: seq<Cycle>, b: seq<Cycle>)
    ensures AfterAll(s, a + b) == AfterAll(AfterAll(s, a), b)
  {
    hide After;
    if b == [] {
      assert a + b == a;
    } else {
      var c := b[..|b| - 1];
      assert (a + b)[..|a + b| - 1] == a + c;
      AfterConcat(s, a, c);
    }
  }

  lemma {:induction false} StaysMirrored(s: Csrs, es: seq<Cycle>)
    requires Mirrored(s)
    ensures Mirrored(AfterAll(s, es))
  {
    hide Mirrored, CsrNext, Request;
    if es != [] {
      var u := AfterAll(s, es[..|es| - 1]);
      StaysMirrored(s, es[..|es| - 1]);
      MirrorStep(u, es[|es| - 1].csr, TrapOf(u, es[|es| - 1]));
    }
  }

  /** P holds of every cycle in the state it happens in. */
  ghost predicate EveryCycle(s: Csrs, es: seq<Cycle>, p: (Csrs, Cycle) -> bool) {
    forall i | 0 <= i < |es| :: p(AfterAll(s, es[..i]), es[i])
  }

  lemma EveryCyclePrefix(s: Csrs, es: seq<Cycle>, p: (Csrs, Cycle) -> bool)
    requires EveryCycle(s, es, p) && es != []
    ensures EveryCycle(s, es[..|es| - 1], p) && p(AfterAll(s, es[..|es| - 1]), es[|es| - 1])
  {
    hide AfterAll;
    var c := es[..|es| - 1];
    forall i | 0 <= i < |c|
      ensures p(AfterAll(s, c[..i]), c[i])
    {
      assert c[..i] == es[..i];
    }
  }

  // Shape of the requests

  lemma RequestShape(s: Csrs, w: Retiring, pins: Pins)
    ensures var t := Request(s, w, pins);
      (t.toS ==> t.trigger && s.priv != M) && (t.mretEn || t.sretEn ==> !t.trigger)
      && (t.trigger ==> t.epc == w.pc)
      && (t.mretEn ==> w.isMret) && (t.sretEn ==> w.isSret)
      && (!t.trigger ==> !HasInterrupt(s, pins))
  {
    hide Cause, BitAt, HasInterrupt, HasException, ExceptionValue;
  }

  // Privilege monotonicity

  /** A trap never lowers the mode; only mret and sret do. */
  lemma OnlyReturnsLower(s: Csrs, e: Cycle)
    ensures var t := TrapOf(s, e);
      (Decoder.PrivRank(After(s, e).priv) < Decoder.PrivRank(s.priv) ==> t.mretEn || t.sretEn)
      && (t.trigger ==> Decoder.PrivRank(After(s, e).priv) >= Decoder.PrivRank(s.priv))
  {
    hide Request, StatusNext, PlainAll;
    RequestShape(s, e.w, e.pins);
  }

  predicate NoReturn(s: Csrs, e: Cycle) { !TrapOf(s, e).mretEn && !TrapOf(s, e).sretEn }

  lemma {:induction false} ModeNeverFalls(s: Csrs, es: seq<Cycle>)
    requires EveryCycle(s, es, NoReturn)
    ensures Decoder.PrivRank(AfterAll(s, es).priv) >= Decoder.PrivRank(s.priv)
  {
    hide After, TrapOf, EveryCycle;
    if es != [] {
      EveryCyclePrefix(s, es, NoReturn);
      ModeNeverFalls(s, es[..|es| - 1]);
      OnlyReturnsLower(AfterAll(s, es[..|es| - 1]), es[|es| - 1]);
    }
  }

  // The machine level of the context stack

  /** The machine side of a context follows ContextNext whatever is written to sstatus. */
  lemma MachineSide(s: Csrs, r: CsrReq, t: TrapReq)
    requires Mirrored(s)
    requires t.trigger || t.mretEn || t.sretEn || !CsrUnit.Writes(r, CSR_MSTATUS)
    ensures var c, d := ContextOf(CsrNext(s, r, t)), ContextNext(ContextOf(s), t);
      c.priv == d.priv && c.mie == d.mie && c.mpie == d.mpie && c.mpp == d.mpp
  {
    hide CopyShared, TrapSstatus, TrapMstatus, SretSstatus, MretMstatus, WriteNext, CsrUnit.Writes, PlainAll;
    hide Has, DecodePriv, Mirrored;
    if t.trigger || t.mretEn || t.sretEn || !WritesStatus(r) {
      ContextStep(s, r, t);
    } else {
      CopyKeepsMachine(s.mstatus, WriteNext(s.sstatus, r.data, r.op));
    }
  }

  predicate MachineTrap(s: Csrs, e: Cycle) { TrapOf(s, e).trigger && !TrapOf(s, e).toS }

  /** Neither an mret nor a CSR write to mstatus takes effect. */
  predicate KeepsMasked(s: Csrs, e: Cycle) {
    var t := TrapOf(s, e);
    !t.mretEn && (t.trigger || t.sretEn || !CsrUnit.Writes(e.csr, CSR_MSTATUS))
  }

  lemma {:induction false} StaysMasked(s: Csrs, es: seq<Cycle>)
    requires Mirrored(s) && !ContextOf(s).mie && EveryCycle(s, es, KeepsMasked)
    ensures !ContextOf(AfterAll(s, es)).mie
  {
    hide Mirrored, CsrNext, Request, EveryCycle, ContextOf, CsrUnit.Writes;
    if es != [] {
      var u, e := AfterAll(s, es[..|es| - 1]), es[|es| - 1];
      EveryCyclePrefix(s, es, KeepsMasked);
      StaysMasked(s, es[..|es| - 1]);
      StaysMirrored(s, es[..|es| - 1]);
      MachineSide(u, e.csr, TrapOf(u, e));
    }
  }

  /**
    No handler re-entry: after a trap to M mode no interrupt is taken, whatever the pins, until an mret or a
    write to mstatus; delegated traps, srets and writes to sstatus do not matter.
   */
  lemma NoReentry(s: Csrs, e: Cycle, es: seq<Cycle>, pins: Pins)
    requires Mirrored(s) && MachineTrap(s, e) && EveryCycle(After(s, e), es, KeepsMasked)
    ensures !HasInterrupt(AfterAll(After(s, e), es), pins)
  {
    hide Mirrored, CsrNext, Request, EveryCycle;
    MirrorStep(s, e.csr, TrapOf(s, e));
    MachineSide(s, e.csr, TrapOf(s, e));
    StaysMasked(After(s, e), es);
    hide CsrUnit.Writes, Has, DecodePriv;
  }

  /** A delegated trap masks nothing: the next cycle takes an interrupt exactly when MIE was set and a pin is high. */
  lemma DelegatedTrapDoesNotMask(s: Csrs, e: Cycle, pins: Pins)
    requires Mirrored(s) && TrapOf(s, e).toS
    ensures HasInterrupt(After(s, e), pins)
       <==> Has(s.mstatus, MIE_BIT) && (pins.external || pins.software || pins.timer)
  {
    hide Mirrored, CsrNext, Request;
    RequestShape(s, e.w, e.pins);
    MachineSide(s, e.csr, TrapOf(s, e));
    hide CsrUnit.Writes, Has, DecodePriv;
  }

  // What a saved mode means

  /** The mode saved by a delegated trap. */
  function SavedSupervisor(c: Context): Priv { if c.spp then S else U }

  /** A trap saves the interrupted mode exactly: in MPP, or in SPP when the mode was below M. */
  lemma TrapSavesMode(s: Csrs, e: Cycle)
    requires Mirrored(s) && TrapOf(s, e).trigger
    ensures var c := ContextOf(After(s, e));
      if TrapOf(s, e).toS then SavedSupervisor(c) == s.priv else c.mpp == s.priv
  {
    hide Mirrored, CsrNext, Request, Has, DecodePriv;
    RequestShape(s, e.w, e.pins);
    ContextStep(s, e.csr, TrapOf(s, e));
  }

  predicate KeepsSavedMode(s: Csrs, e: Cycle) { KeepsMasked(s, e) && !MachineTrap(s, e) }

  lemma {:induction false} SavedModeKept(s: Csrs, es: seq<Cycle>)
    requires Mirrored(s) && EveryCycle(s, es, KeepsSavedMode)
    ensures ContextOf(AfterAll(s, es)).mpp == ContextOf(s).mpp
  {
    hide Mirrored, CsrNext, Request, EveryCycle, ContextOf, CsrUnit.Writes;
    if es != [] {
      var u, e := AfterAll(s, es[..|es| - 1]), es[|es| - 1];
      EveryCyclePrefix(s, es, KeepsSavedMode);
      SavedModeKept(s, es[..|es| - 1]);
      StaysMirrored(s, es[..|es| - 1]);
      RequestShape(u, e.w, e.pins);
      MachineSide(u, e.csr, TrapOf(u, e));
    }
  }

  /** MPP names the interrupted mode until the next machine trap, mret or write to mstatus. */
  lemma MppIsInterruptedMode(s: Csrs, e: Cycle, es: seq<Cycle>)
    requires Mirrored(s) && MachineTrap(s, e) && EveryCycle(After(s, e), es, KeepsSavedMode)
    ensures DecodePriv(AfterAll(After(s, e), es).mstatus) == s.priv
  {
    hide Mirrored, CsrNext, Request, EveryCycle, Has, DecodePriv;
    MirrorStep(s, e.csr, TrapOf(s, e));
    TrapSavesMode(s, e);
    SavedModeKept(After(s, e), es);
  }

  /** A trap taken in M mode leaves the supervisor's context alone. */
  lemma MachineTrapKeepsSupervisor(s: Csrs, e: Cycle)
    requires Mirrored(s) && s.priv == M && TrapOf(s, e).trigger
    ensures !TrapOf(s, e).toS && After(s, e).priv == M
    ensures var c, d := ContextOf(After(s, e)), ContextOf(s); c.spp == d.spp && c.sie == d.sie && c.spie == d.spie
    ensures forall n: Slot | n in {SEPC, SCAUSE, STVAL} ::
      !WritesPlain(e.csr, n) ==> After(s, e).plain[n] == s.plain[n]
  {
    hide Mirrored, StatusNext, Request, Has, DecodePriv, PlainNext;
    RequestShape(s, e.w, e.pins);
    ContextStep(s, e.csr, TrapOf(s, e));
    forall n: Slot | n in {SEPC, SCAUSE, STVAL} && !WritesPlain(e.csr, n)
      ensures After(s, e).plain[n] == s.plain[n]
    {
      SlotKept(s, e.csr, TrapOf(s, e), n);
    }
  }

  /** A slot that no trap and no write reaches. */
  lemma SlotKept(s: Csrs, r: CsrReq, t: TrapReq, n: Slot)
    requires !WritesPlain(r, n) && n !in {FFLAGS, FRM, MCYCLE, MINSTRET, TIME}
    requires t.trigger ==> n !in (if t.toS then {SEPC, SCAUSE, STVAL} else {MEPC, MCAUSE, MTVAL})
    ensures CsrNext(s, r, t).plain[n] == s.plain[n]
  {
    hide WritesPlain, StatusNext, CsrUnit.Writes, Inc;
  }
}
