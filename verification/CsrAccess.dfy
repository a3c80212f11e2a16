/** CSR instructions: what is read back, and what a write leaves alone. */
module CsrAccess {
  import opened Rv64Pkg
  import opened BitString
  import opened CsrUnit

  // The three operations, bit by bit

  lemma WriteIs(cur: bv64, data: bv64, op: bv3)
    requires op & 3 == 1
    ensures WriteNext(cur, data, op) == data
  {}

  lemma SetIs(cur: bv64, data: bv64, op: bv3)
    requires op & 3 == 2
    ensures WriteNext(cur, data, op) == Or(cur, data)
  {}

  lemma ClearIs(cur: bv64, data: bv64, op: bv3)
    requires op & 3 == 3
    ensures WriteNext(cur, data, op) == And(cur, Not(data))
  {
    hide *;
    ClearRaw(cur, data, op);
    AndNotIs(cur, data);
  }

  lemma ClearRaw(cur: bv64, data: bv64, op: bv3)
    requires op & 3 == 3
    ensures WriteNext(cur, data, op) == cur & !data
  {}

  /** Write replaces every bit, set raises and clear lowers the bits of the operand. */
  lemma ModifyBits(cur: bv64, data: bv64, op: bv3, i: nat)
    requires op & 3 != 0
    ensures Bit(WriteNext(cur, data, op), i)
         == if op & 3 == 1 then Bit(data, i)
            else if op & 3 == 2 then Bit(cur, i) || Bit(data, i) else Bit(cur, i) && !Bit(data, i)
  {
    hide Bit, And, Or, Not, WriteNext;
    OpCases(op);
    if op & 3 == 1 {
      WriteIs(cur, data, op);
    } else if op & 3 == 2 {
      SetIs(cur, data, op);
      BitOps(cur, data, i);
    } else {
      ClearIs(cur, data, op);
      BitAndNot(cur, data, i);
    }
  }

  lemma OpCases(op: bv3)
    ensures op & 3 == 0 || op & 3 == 1 || op & 3 == 2 || op & 3 == 3
  {}

  // Addresses

  /** The user counters are other names of the machine counters. */
  function View(a: bv12): bv12 { if a == 0xC00 then 0xB00 else if a == 0xC02 then 0xB02 else a }

  /** Addresses of full-width registers with no relation to others. */
  predicate IsPlain(a: bv12) {
    a in {0x104, 0x105, 0x106, 0x140, 0x141, 0x142, 0x143, 0x144, 0x180}
    || a in {0x302, 0x303, 0x304, 0x305, 0x306, 0x340, 0x341, 0x342, 0x343, 0x344}
    || a in {0xB00, 0xB02, 0xC00, 0xC01, 0xC02}
  }

  /** misa and the identification registers. */
  predicate IsFixed(a: bv12) { a in {0x301, 0xF11, 0xF12, 0xF13, 0xF14} }

  /** The floating-point flags, the rounding mode, and both of them. */
  predicate IsFloat(a: bv12) { a in {0x001, 0x002, 0x003} }

  predicate IsStatus(a: bv12) { a == 0x100 || a == 0x300 }

  predicate Exists(a: bv12) { IsPlain(a) || IsFixed(a) || IsFloat(a) || IsStatus(a) }

  /** The time counter and the fixed registers cannot be written. */
  predicate ReadOnly(a: bv12) { IsFixed(a) || a == 0xC01 }

  predicate Modifies(op: bv3) { op & 3 != 0 }

  /** The request writes: always for a write, for set and clear when the operand is not zero. */
  predicate Enabled(r: CsrReq) {
    r.req && Exists(r.addr) && !ReadOnly(r.addr) && Modifies(r.op) && (r.op & 3 == 1 || r.data != 0)
  }

  predicate WritesTo(r: CsrReq, a: bv12) { Enabled(r) && View(r.addr) == View(a) }

  lemma Supported(a: bv12)
    ensures IsSupported(CanonicalAddr(a)) <==> Exists(a)
    ensures IsWritable(CanonicalAddr(a)) <==> !ReadOnly(a)
    ensures CanonicalAddr(a) == View(a)
  {}

  lemma EnabledIs(r: CsrReq)
    ensures WriteEnabled(r) <==> Enabled(r)
  {
    hide IsSupported, IsWritable, CanonicalAddr, Exists, ReadOnly;
    Supported(r.addr);
  }

  /** An access is illegal when the register does not exist, or cannot be written and the operation is a write. */
  lemma IllegalAccessExactly(r: CsrReq)
    ensures IllegalAccess(r) <==> r.req && (!Exists(r.addr) || (Modifies(r.op) && ReadOnly(r.addr)))
  {
    hide IsSupported, IsWritable, CanonicalAddr, Exists, ReadOnly;
    Supported(r.addr);
  }

  // Read back

  const IDLE_TRAP := TrapReq(false, false, 0, 0, 0, false, false)

  function Written(s: Csrs, r: CsrReq): Csrs { CsrNext(s, r, IDLE_TRAP) }

  /** The bits a CSR has; the floating-point registers are narrow. */
  function Implemented(a: bv12, v: bv64): bv64 {
    if a == 0x001 then v & 0x1F else if a == 0x002 then v & 0x7 else if a == 0x003 then v & 0xFF else v
  }

  lemma SlotWritten(s: Csrs, r: CsrReq, n: Slot)
    requires WriteEnabled(r) && SlotAt(CanonicalAddr(r.addr)) == Some(n)
    ensures Written(s, r).plain[n] == Keep(n, WriteNext(s.plain[n], r.data, r.op))
  {
    hide SlotAt, WriteEnabled, CanonicalAddr, WriteNext, Keep, StatusNext, Inc;
  }

  lemma FcsrPacks(v: bv64)
    ensures (v & 0x1F) | (((v >> 5) & 0x7) << 5) == v & 0xFF
  {}

  /** The flag and rounding fields of a value written to fcsr. */
  function Flags(v: bv64): bv64 { v & 0x1F }
  function Rounding(v: bv64): bv64 { (v >> 5) & 0x7 }

  lemma WrittenSlot(s: Csrs, r: CsrReq, n: Slot)
    ensures Written(s, r).plain[n] == WriteSelect(s, r, n, CountSelect(s.plain[n], false, n))
  {
    hide WriteSelect, CountSelect, StatusNext;
  }

  lemma FcsrFields(v: bv64)
    ensures Keep(FFLAGS, v) == Flags(v) && Keep(FRM, FrmField(v)) == Rounding(v)
  {}

  lemma FcsrSlots(s: Csrs, r: CsrReq)
    requires WriteEnabled(r) && CanonicalAddr(r.addr) == CSR_FCSR
    ensures var v, p := WriteNext(Fcsr(s), r.data, r.op), Written(s, r).plain;
      p[FFLAGS] == Flags(v) && p[FRM] == Rounding(v)
  {
    hide Written, SlotAt, WriteEnabled, CanonicalAddr, WriteNext, Fcsr, Keep, FrmField, Flags, Rounding, CountSelect;
    FcsrIsNotPlain();
    WrittenSlot(s, r, FFLAGS);
    WrittenSlot(s, r, FRM);
    FcsrFields(WriteNext(Fcsr(s), r.data, r.op));
  }

  lemma FcsrJoined(s: Csrs, v: bv64)
    requires s.plain[FFLAGS] == Flags(v) && s.plain[FRM] == Rounding(v)
    ensures Fcsr(s) == v & 0xFF
  {
    FcsrPacks(v);
  }

  lemma FcsrWritten(s: Csrs, r: CsrReq)
    requires WriteEnabled(r) && CanonicalAddr(r.addr) == CSR_FCSR
    ensures Fcsr(Written(s, r)) == WriteNext(Fcsr(s), r.data, r.op) & 0xFF
  {
    hide *;
    FcsrSlots(s, r);
    FcsrJoined(Written(s, r), WriteNext(Fcsr(s), r.data, r.op));
  }

  lemma ReadsBackAt(s: Csrs, r: CsrReq)
    requires WriteEnabled(r)
    ensures ReadCsr(Written(s, r), r.addr)
         == Implemented(CanonicalAddr(r.addr), WriteNext(ReadCsr(s, r.addr), r.data, r.op))
  {
    var a := CanonicalAddr(r.addr);
    hide WriteNext, Fcsr, CopyShared, PlainAll;
    if a == CSR_FCSR {
      FcsrWritten(s, r);
    } else if SlotAt(a).Some? {
      SlotWritten(s, r, SlotAt(a).value);
      PlainAddresses(a);
      hide SlotAt, WriteEnabled, CanonicalAddr;
    }
  }

  lemma ImplementedView(a: bv12, v: bv64)
    ensures Implemented(View(a), v) == Implemented(a, v)
  {}

  /** Outside traps and returns, an enabled write is read back at its address in the bits the register has. */
  lemma ReadsBack(s: Csrs, r: CsrReq)
    requires Enabled(r)
    ensures ReadCsr(Written(s, r), r.addr) == Implemented(r.addr, WriteNext(ReadCsr(s, r.addr), r.data, r.op))
  {
    hide *;
    EnabledIs(r);
    Supported(r.addr);
    ReadsBackAt(s, r);
    ImplementedView(r.addr, WriteNext(ReadCsr(s, r.addr), r.data, r.op));
  }

  lemma PlainAddresses(a: bv12)
    requires SlotAt(a).Some?
    ensures a != CSR_MSTATUS && a != CSR_SSTATUS && a != CSR_FCSR && a != CSR_MISA
    ensures SlotAt(a).value == FFLAGS <==> a == CSR_FFLAGS
    ensures SlotAt(a).value == FRM <==> a == CSR_FRM
  {}

  /** Registers that count by themselves. */
  predicate IsCounter(n: Slot) { n == MCYCLE || n == TIME || n == MINSTRET }

  /** An access that does not write changes nothing but the counters. */
  lemma ReadOnlyAccess(s: Csrs, r: CsrReq)
    requires !Enabled(r)
    ensures var u := Written(s, r);
      u.mstatus == s.mstatus && u.sstatus == s.sstatus && u.priv == s.priv
      && forall n: Slot | !IsCounter(n) :: u.plain[n] == s.plain[n]
  {
    hide WriteEnabled, Enabled, SlotAt, CanonicalAddr, Inc, Fcsr, WriteNext;
    EnabledIs(r);
  }
}
