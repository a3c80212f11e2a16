/** Trap controller: cause selection, interrupt gating, delegation, redirect target. */
module TrapCtrl {
  import opened Rv64Pkg
  import opened CsrUnit

  /** Signals of the instruction in write-back. */
  datatype Retiring = Retiring(
    pc: bv64, instr: bv32, illegal: bool, isEcall: bool, isEbreak: bool, isMret: bool, isSret: bool,
    loadFault: bool, storeFault: bool, badAddr: bv64,
    instrPageFault: bool, loadPageFault: bool, storePageFault: bool)

  datatype Pins = Pins(timer: bool, software: bool, external: bool)

  const INTERRUPT_BIT: bv64 := 0x8000_0000_0000_0000

  predicate HasException(w: Retiring) {
    w.illegal || w.isEbreak || w.isEcall || w.loadFault || w.storeFault
    || w.instrPageFault || w.loadPageFault || w.storePageFault
  }

  function ExceptionCause(w: Retiring, priv: Priv): bv64 {
    if w.illegal then 2
    else if w.isEbreak then 3
    else if w.isEcall then (match priv case U => 8 case S => 9 case M => 11)
    else if w.loadFault then 5
    else if w.storeFault then 7
    else if w.instrPageFault then 12
    else if w.loadPageFault then 13
    else if w.storePageFault then 15
    else 0
  }

  function ExceptionValue(w: Retiring): bv64 {
    if w.illegal then w.instr as bv64
    else if w.isEbreak then w.pc
    else if w.isEcall then 0
    else if HasException(w) then w.badAddr
    else 0
  }

  /** Interrupts are gated by MIE alone, in every mode. */
  predicate HasInterrupt(s: Csrs, pins: Pins) {
    Has(s.mstatus, MIE_BIT) && (pins.external || pins.software || pins.timer)
  }

  function InterruptCause(pins: Pins): bv64 {
    INTERRUPT_BIT | (if pins.external then 11 else if pins.software then 3 else 7)
  }

  predicate Triggered(s: Csrs, w: Retiring, pins: Pins) { HasInterrupt(s, pins) || HasException(w) }

  function Cause(s: Csrs, w: Retiring, pins: Pins): bv64 {
    if HasInterrupt(s, pins) then InterruptCause(pins) else ExceptionCause(w, s.priv)
  }

  predicate BitAt(mask: bv64, index: bv64)
    requires index < 64
  {
    (mask >> index) & 1 == 1
  }

  /** Only traps from below M mode are delegated. */
  predicate Delegated(s: Csrs, w: Retiring, pins: Pins) {
    Triggered(s, w, pins) && s.priv != M
    && BitAt(if HasInterrupt(s, pins) then s.plain[MIDELEG] else s.plain[MEDELEG], Cause(s, w, pins) & 0x3F)
  }

  function Request(s: Csrs, w: Retiring, pins: Pins): TrapReq {
    var trigger := Triggered(s, w, pins);
    TrapReq(
      trigger, Delegated(s, w, pins),
      if trigger then w.pc else 0,
      if trigger then Cause(s, w, pins) else 0,
      if trigger && !HasInterrupt(s, pins) then ExceptionValue(w) else 0,
      w.isMret && !trigger, w.isSret && !trigger)
  }

  /** Traps and returns flush the pipeline and take over the PC. */
  predicate FlushRequest(t: TrapReq) { t.trigger || t.mretEn || t.sretEn }

  /** Vectored mode sends interrupts to four bytes per cause above the base. */
  function VectorTarget(vector: bv64, interrupt: bool, cause: bv64): bv64 {
    var base := vector & 0xFFFF_FFFF_FFFF_FFFC;
    if vector & 3 == 1 && interrupt then base + ((cause & 0x3F) << 2) else base
  }

  function NextPc(s: Csrs, w: Retiring, pins: Pins): bv64 {
    var t := Request(s, w, pins);
    if t.trigger then VectorTarget(s.plain[if t.toS then STVEC else MTVEC], HasInterrupt(s, pins), t.cause)
    else if t.mretEn then s.plain[MEPC]
    else if t.sretEn then s.plain[SEPC]
    else 0
  }
}
