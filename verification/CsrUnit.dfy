/** CSR file and privilege state machine. */
module CsrUnit {
  import opened Rv64Pkg

  const CSR_FFLAGS: bv12 := 0x001
  const CSR_FRM: bv12 := 0x002
  const CSR_FCSR: bv12 := 0x003
  const CSR_SSTATUS: bv12 := 0x100
  const CSR_SIE: bv12 := 0x104
  const CSR_STVEC: bv12 := 0x105
  const CSR_SCOUNTEREN: bv12 := 0x106
  const CSR_SSCRATCH: bv12 := 0x140
  const CSR_SEPC: bv12 := 0x141
  const CSR_SCAUSE: bv12 := 0x142
  const CSR_STVAL: bv12 := 0x143
  const CSR_SIP: bv12 := 0x144
  const CSR_SATP: bv12 := 0x180
  const CSR_MSTATUS: bv12 := 0x300
  const CSR_MISA: bv12 := 0x301
  const CSR_MEDELEG: bv12 := 0x302
  const CSR_MIDELEG: bv12 := 0x303
  const CSR_MIE: bv12 := 0x304
  const CSR_MTVEC: bv12 := 0x305
  const CSR_MCOUNTEREN: bv12 := 0x306
  const CSR_MSCRATCH: bv12 := 0x340
  const CSR_MEPC: bv12 := 0x341
  const CSR_MCAUSE: bv12 := 0x342
  const CSR_MTVAL: bv12 := 0x343
  const CSR_MIP: bv12 := 0x344
  const CSR_MCYCLE: bv12 := 0xB00
  const CSR_MINSTRET: bv12 := 0xB02
  const CSR_CYCLE: bv12 := 0xC00
  const CSR_TIME: bv12 := 0xC01
  const CSR_INSTRET: bv12 := 0xC02
  const CSR_MVENDORID: bv12 := 0xF11
  const CSR_MARCHID: bv12 := 0xF12
  const CSR_MIMPID: bv12 := 0xF13
  const CSR_MHARTID: bv12 := 0xF14

  const MISA_VALUE: bv64 := 0x8000_0000_0050_112D

  /** Slots of the registers other than the two status registers. */
  type Slot = n: nat | n < 24

  const FFLAGS: Slot := 0
  const FRM: Slot := 1
  const SIE: Slot := 2
  const STVEC: Slot := 3
  const SCOUNTEREN: Slot := 4
  const SSCRATCH: Slot := 5
  const SEPC: Slot := 6
  const SCAUSE: Slot := 7
  const STVAL: Slot := 8
  const SIP: Slot := 9
  const SATP: Slot := 10
  const MEDELEG: Slot := 11
  const MIDELEG: Slot := 12
  const MIE: Slot := 13
  const MTVEC: Slot := 14
  const MCOUNTEREN: Slot := 15
  const MSCRATCH: Slot := 16
  const MEPC: Slot := 17
  const MCAUSE: Slot := 18
  const MTVAL: Slot := 19
  const MIP: Slot := 20
  const MCYCLE: Slot := 21
  const MINSTRET: Slot := 22
  const TIME: Slot := 23

  type Slots = p: seq<bv64> | |p| == 24 witness ZERO_SLOTS

  const ZERO_SLOTS: seq<bv64> :=
    [0, 0, 0, 0, 0, 0, 0, 0, 0, 0, 0, 0, 0, 0, 0, 0, 0, 0, 0, 0, 0, 0, 0, 0]

  function SlotAt(a: bv12): Option<Slot> {
    if a == CSR_FFLAGS then Some(FFLAGS)
    else if a == CSR_FRM then Some(FRM)
    else if a == CSR_SIE then Some(SIE)
    else if a == CSR_STVEC then Some(STVEC)
    else if a == CSR_SCOUNTEREN then Some(SCOUNTEREN)
    else if a == CSR_SSCRATCH then Some(SSCRATCH)
    else if a == CSR_SEPC then Some(SEPC)
    else if a == CSR_SCAUSE then Some(SCAUSE)
    else if a == CSR_STVAL then Some(STVAL)
    else if a == CSR_SIP then Some(SIP)
    else if a == CSR_SATP then Some(SATP)
    else if a == CSR_MEDELEG then Some(MEDELEG)
    else if a == CSR_MIDELEG then Some(MIDELEG)
    else if a == CSR_MIE then Some(MIE)
    else if a == CSR_MTVEC then Some(MTVEC)
    else if a == CSR_MCOUNTEREN then Some(MCOUNTEREN)
    else if a == CSR_MSCRATCH then Some(MSCRATCH)
    else if a == CSR_MEPC then Some(MEPC)
    else if a == CSR_MCAUSE then Some(MCAUSE)
    else if a == CSR_MTVAL then Some(MTVAL)
    else if a == CSR_MIP then Some(MIP)
    else if a == CSR_MCYCLE then Some(MCYCLE)
    else if a == CSR_MINSTRET then Some(MINSTRET)
    else if a == CSR_TIME then Some(TIME)
    else None
  }

  /** The register file, the privilege mode and the latched trap outputs. */
  datatype Csrs = Csrs(
    mstatus: bv64, sstatus: bv64, priv: Priv, plain: Slots, trapVector: bv64, trapToS: bool)

  function CsrsReset(): Csrs { Csrs(0, 0, M, ZERO_SLOTS, 0, false) }

  // Status bits

  const MIE_BIT: bv64 := 0x08
  const MPIE_BIT: bv64 := 0x80
  const MPP_BITS: bv64 := 0x1800
  const SIE_BIT: bv64 := 0x02
  const SPIE_BIT: bv64 := 0x20
  const SPP_BIT: bv64 := 0x100

  /** The status bits held in both registers. */
  const SHARED_BITS: bv64 := 0x122

  predicate Has(x: bv64, bit: bv64) { x & bit != 0 }

  function Put(x: bv64, bit: bv64, v: bool): bv64 { if v then x | bit else x & !bit }

  /** Replaces the shared bits of x by those of y. */
  function CopyShared(x: bv64, y: bv64): bv64 { (x & !SHARED_BITS) | (y & SHARED_BITS) }

  function DecodePriv(mstatus: bv64): Priv {
    var mpp := mstatus & MPP_BITS;
    if mpp == 0 then U else if mpp == 0x800 then S else M
  }

  function PutPriv(mstatus: bv64, p: Priv): bv64 {
    (mstatus & !MPP_BITS) | (match p case U => 0 case S => 0x800 case M => 0x1800)
  }

  // CSR access

  function CanonicalAddr(a: bv12): bv12 {
    if a == CSR_CYCLE then CSR_MCYCLE else if a == CSR_INSTRET then CSR_MINSTRET else a
  }

  predicate IsWritable(a: bv12) {
    a != CSR_MISA && a != CSR_MVENDORID && a != CSR_MARCHID && a != CSR_MIMPID && a != CSR_MHARTID
    && a != CSR_TIME
  }

  predicate IsSupported(a: bv12) {
    SlotAt(a).Some? || a == CSR_MSTATUS || a == CSR_SSTATUS || a == CSR_FCSR || a == CSR_CYCLE || a == CSR_INSTRET
    || a == CSR_MISA || a == CSR_MVENDORID || a == CSR_MARCHID || a == CSR_MIMPID || a == CSR_MHARTID
  }

  /** The two low bits of a CSR operation: 1 write, 2 set, 3 clear. */
  function WriteNext(cur: bv64, data: bv64, op: bv3): bv64 {
    var kind := op & 3;
    if kind == 1 then data else if kind == 2 then cur | data else if kind == 3 then cur & !data else cur
  }

  /** The rounding-mode field of fcsr sits above the five flag bits. */
  function FrmField(fcsr: bv64): bv64 { fcsr >> 5 }

  function Fcsr(s: Csrs): bv64 { s.plain[FFLAGS] | (s.plain[FRM] << 5) }

  /** The vendor, architecture, implementation and hart identifiers are zero by default. */
  function ReadCsr(s: Csrs, addr: bv12): bv64 {
    var a := CanonicalAddr(addr);
    if a == CSR_MSTATUS then s.mstatus
    else if a == CSR_SSTATUS then s.sstatus
    else if a == CSR_FCSR then Fcsr(s)
    else if a == CSR_MISA then MISA_VALUE
    else match SlotAt(a) case Some(n) => s.plain[n] case None => 0
  }

  datatype CsrReq = CsrReq(req: bool, op: bv3, addr: bv12, data: bv64)

  /** Set and clear with a zero operand do not write. */
  predicate WriteEnabled(r: CsrReq) {
    var a := CanonicalAddr(r.addr);
    r.req && IsSupported(a) && r.op & 3 != 0 && (r.op & 3 == 1 || r.data != 0) && IsWritable(a)
  }

  predicate IllegalAccess(r: CsrReq) {
    var a := CanonicalAddr(r.addr);
    r.req && (!IsSupported(a) || (r.op & 3 != 0 && !IsWritable(a)))
  }

  predicate Writes(r: CsrReq, a: bv12) { WriteEnabled(r) && CanonicalAddr(r.addr) == a }

  /** Requests of the trap controller. */
  datatype TrapReq = TrapReq(
    trigger: bool, toS: bool, epc: bv64, cause: bv64, tval: bv64, mretEn: bool, sretEn: bool)

  // Status updates

  function TrapSstatus(s: Csrs): bv64 {
    Put(Put(Put(s.sstatus, SPIE_BIT, Has(s.sstatus, SIE_BIT)), SIE_BIT, false), SPP_BIT, s.priv == S)
  }

  function TrapMstatus(s: Csrs): bv64 {
    PutPriv(Put(Put(s.mstatus, MPIE_BIT, Has(s.mstatus, MIE_BIT)), MIE_BIT, false), s.priv)
  }

  function MretMstatus(s: Csrs): bv64 {
    PutPriv(Put(Put(s.mstatus, MIE_BIT, Has(s.mstatus, MPIE_BIT)), MPIE_BIT, true), U)
  }

  function SretSstatus(s: Csrs): bv64 {
    Put(Put(Put(s.sstatus, SIE_BIT, Has(s.sstatus, SPIE_BIT)), SPIE_BIT, true), SPP_BIT, false)
  }

  /** mstatus and sstatus after a clock edge, by priority: trap, sret, mret, CSR write. */
  function StatusNext(s: Csrs, r: CsrReq, t: TrapReq): (bv64, bv64) {
    if t.trigger && t.toS then (CopyShared(s.mstatus, TrapSstatus(s)), TrapSstatus(s))
    else if t.trigger then (TrapMstatus(s), CopyShared(s.sstatus, TrapMstatus(s)))
    else if t.sretEn then (CopyShared(s.mstatus, SretSstatus(s)), SretSstatus(s))
    else if t.mretEn then (MretMstatus(s), CopyShared(s.sstatus, MretMstatus(s)))
    else if Writes(r, CSR_MSTATUS) then
      var v := WriteNext(s.mstatus, r.data, r.op);
      (v, CopyShared(s.sstatus, v))
    else if Writes(r, CSR_SSTATUS) then
      var v := WriteNext(s.sstatus, r.data, r.op);
      (CopyShared(s.mstatus, v), v)
    else (s.mstatus, s.sstatus)
  }

  function PrivNext(s: Csrs, t: TrapReq): Priv {
    if t.trigger then (if t.toS then S else M)
    else if t.sretEn then (if Has(s.sstatus, SPP_BIT) then S else U)
    else if t.mretEn then DecodePriv(s.mstatus)
    else s.priv
  }

  /** Bits a register keeps of a value written to it. */
  function Keep(n: Slot, v: bv64): bv64 {
    if n == FFLAGS then v & 0x1F else if n == FRM then v & 0x7 else v
  }

  predicate WritesPlain(r: CsrReq, n: Slot) { WriteEnabled(r) && SlotAt(CanonicalAddr(r.addr)) == Some(n) }

  /** A trap saves its context in the slots of the mode it goes to. */
  function TrapSelect(t: TrapReq, n: Slot, otherwise: bv64): bv64 {
    if t.trigger && n == (if t.toS then SEPC else MEPC) then t.epc
    else if t.trigger && n == (if t.toS then SCAUSE else MCAUSE) then t.cause
    else if t.trigger && n == (if t.toS then STVAL else MTVAL) then t.tval
    else otherwise
  }

  function WriteSelect(s: Csrs, r: CsrReq, n: Slot, otherwise: bv64): bv64 {
    if WritesPlain(r, n) then Keep(n, WriteNext(s.plain[n], r.data, r.op))
    else if n == FFLAGS && Writes(r, CSR_FCSR) then Keep(n, WriteNext(Fcsr(s), r.data, r.op))
    else if n == FRM && Writes(r, CSR_FCSR) then Keep(n, FrmField(WriteNext(Fcsr(s), r.data, r.op)))
    else otherwise
  }

  /** A trap does not count as a retired instruction. */
  function CountSelect(v: bv64, trap: bool, n: Slot): bv64 {
    if n == MCYCLE || n == TIME || (n == MINSTRET && !trap) then Inc(v) else v
  }

  /** Value of one register after a clock edge: a trap wins over a CSR write, a write over a counter step. */
  function PlainNext(s: Csrs, r: CsrReq, t: TrapReq, n: Slot): bv64 {
    TrapSelect(t, n, WriteSelect(s, r, n, CountSelect(s.plain[n], t.trigger, n)))
  }

  function PlainAll(s: Csrs, r: CsrReq, t: TrapReq): Slots {
    seq(24, n requires 0 <= n < 24 => PlainNext(s, r, t, n))
  }

  /** State after a clock edge out of reset, register by register. */
  function CsrNext(s: Csrs, r: CsrReq, t: TrapReq): Csrs {
    var (mstatus, sstatus) := StatusNext(s, r, t);
    Csrs(
      mstatus, sstatus, PrivNext(s, t),
      PlainAll(s, r, t),
      if t.trigger then s.plain[if t.toS then STVEC else MTVEC] else s.trapVector,
      if t.trigger then t.toS else s.trapToS)
  }

  // The update of the plain registers in the order of the source

  function CountPlain(p: Slots, trap: bool): Slots {
    var counted := p[MCYCLE := Inc(p[MCYCLE])][TIME := Inc(p[TIME])];
    if trap then counted else counted[MINSTRET := Inc(p[MINSTRET])]
  }

  /** p with the addressed register assigned from its current value in s. */
  function WritePlain(s: Csrs, p: Slots, r: CsrReq): Slots {
    var a := CanonicalAddr(r.addr);
    if !WriteEnabled(r) then p
    else if a == CSR_FCSR then
      var v := WriteNext(Fcsr(s), r.data, r.op);
      p[FFLAGS := Keep(FFLAGS, v)][FRM := Keep(FRM, FrmField(v))]
    else match SlotAt(a)
      case Some(n) => p[n := Keep(n, WriteNext(s.plain[n], r.data, r.op))]
      case None => p
  }

  function TrapPlain(p: Slots, t: TrapReq): Slots {
    if !t.trigger then p
    else if t.toS then p[SEPC := t.epc][SCAUSE := t.cause][STVAL := t.tval]
    else p[MEPC := t.epc][MCAUSE := t.cause][MTVAL := t.tval]
  }

  function Inc(x: bv64): bv64 { x + 1 }

  lemma FcsrIsNotPlain()
    ensures SlotAt(CSR_FCSR) == None
  {}

  lemma CountAt(p: Slots, trap: bool, n: Slot)
    ensures CountPlain(p, trap)[n] == CountSelect(p[n], trap, n)
  {
    hide Inc;
  }

  lemma TrapAt(p: Slots, t: TrapReq, n: Slot)
    ensures TrapPlain(p, t)[n] == TrapSelect(t, n, p[n])
  {
    if !t.trigger {
    } else if t.toS {
      if n == SEPC {} else if n == SCAUSE {} else if n == STVAL {} else {}
    } else {
      if n == MEPC {} else if n == MCAUSE {} else if n == MTVAL {} else {}
    }
  }

  lemma WriteAt(s: Csrs, p: Slots, r: CsrReq, n: Slot)
    ensures WritePlain(s, p, r)[n] == WriteSelect(s, r, n, p[n])
  {
    FcsrIsNotPlain();
    hide SlotAt, WriteEnabled, CanonicalAddr, WriteNext, Keep, Fcsr, FrmField;
  }

  lemma PlainAt(s: Csrs, r: CsrReq, t: TrapReq, n: Slot)
    ensures TrapPlain(WritePlain(s, CountPlain(s.plain, t.trigger), r), t)[n] == PlainNext(s, r, t, n)
  {
    hide TrapPlain, WritePlain, CountPlain, TrapSelect, WriteSelect, CountSelect;
    var counted := CountPlain(s.plain, t.trigger);
    CountAt(s.plain, t.trigger, n);
    WriteAt(s, counted, r, n);
    TrapAt(WritePlain(s, counted, r), t, n);
  }

  /** Later assignments override earlier ones: the sequence is the priority order of PlainNext. */
  lemma PlainInOrder(s: Csrs, r: CsrReq, t: TrapReq)
    ensures TrapPlain(WritePlain(s, CountPlain(s.plain, t.trigger), r), t) == PlainAll(s, r, t)
  {
    hide TrapPlain, WritePlain, CountPlain, PlainNext;
    forall n | 0 <= n < 24
      ensures TrapPlain(WritePlain(s, CountPlain(s.plain, t.trigger), r), t)[n] == PlainNext(s, r, t, n)
    {
      PlainAt(s, r, t, n);
    }
  }

  /** The state machine in the order of its source. */
  class Unit {
    var q: Csrs

    constructor ()
      ensures q == CsrsReset()
    {
      q := CsrsReset();
    }

    method Clock(rst: bool, r: CsrReq, t: TrapReq)
      modifies this
      ensures q == if rst then CsrsReset() else CsrNext(old(q), r, t)
    {
      if rst {
        q := CsrsReset();
        return;
      }
      PlainInOrder(q, r, t);
      hide WriteNext, CopyShared, TrapSstatus, TrapMstatus, MretMstatus, SretSstatus, Has, DecodePriv;
      hide CountPlain, WritePlain, TrapPlain, PlainAll, WriteEnabled, CanonicalAddr;
      var n := q.(plain := TrapPlain(WritePlain(q, CountPlain(q.plain, t.trigger), r), t));
      if Writes(r, CSR_MSTATUS) {
        var mstatus := WriteNext(q.mstatus, r.data, r.op);
        n := n.(mstatus := mstatus, sstatus := CopyShared(q.sstatus, mstatus));
      } else if Writes(r, CSR_SSTATUS) {
        var sstatus := WriteNext(q.sstatus, r.data, r.op);
        n := n.(sstatus := sstatus, mstatus := CopyShared(q.mstatus, sstatus));
      }
      if t.trigger {
        n := n.(trapVector := q.plain[if t.toS then STVEC else MTVEC], trapToS := t.toS);
        if t.toS {
          var sstatus := TrapSstatus(q);
          n := n.(sstatus := sstatus, mstatus := CopyShared(q.mstatus, sstatus), priv := S);
        } else {
          var mstatus := TrapMstatus(q);
          n := n.(mstatus := mstatus, sstatus := CopyShared(q.sstatus, mstatus), priv := M);
        }
      } else {
        if t.mretEn {
          var mstatus := MretMstatus(q);
          n := n.(mstatus := mstatus, sstatus := CopyShared(q.sstatus, mstatus), priv := DecodePriv(q.mstatus));
        }
        if t.sretEn {
          var sstatus := SretSstatus(q);
          n := n.(sstatus := sstatus, mstatus := CopyShared(q.mstatus, sstatus));
          n := n.(priv := if Has(q.sstatus, SPP_BIT) then S else U);
        }
      }
      q := n;
    }
  }
}
