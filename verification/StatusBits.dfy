/** The two status registers, bit by bit at their addresses. */
module StatusBits {
  import opened Rv64Pkg
  import opened BitString
  import opened CsrUnit
  import opened CsrAccess
  import opened CsrMap
  import opened Privilege

  // The update operators

  lemma Masks()
    ensures SIE_BIT == OneAt(1) && MIE_BIT == OneAt(3) && SPIE_BIT == OneAt(5) && MPIE_BIT == OneAt(7)
    ensures SPP_BIT == OneAt(8)
    ensures SHARED_BITS == Or(Or(OneAt(1), OneAt(5)), OneAt(8)) && MPP_BITS == Or(OneAt(11), OneAt(12))
    ensures OneAt(11) == 0x800
  {
    Doublings();
    hide Double, Or;
    assert OneAt(2) == 4;
    assert OneAt(4) == 0x10;
    assert OneAt(6) == 0x40;
    assert OneAt(8) == 0x100;
    assert OneAt(10) == 0x400;
    assert OneAt(12) == 0x1000;
  }

  lemma Doublings()
    ensures Double(1) == 2 && Double(2) == 4 && Double(4) == 8 && Double(8) == 0x10 && Double(0x10) == 0x20
    ensures Double(0x20) == 0x40 && Double(0x40) == 0x80 && Double(0x80) == 0x100 && Double(0x100) == 0x200
    ensures Double(0x200) == 0x400 && Double(0x400) == 0x800 && Double(0x800) == 0x1000
    ensures Or(Or(2, 0x20), 0x100) == 0x122 && Or(0x800, 0x1000) == 0x1800
  {}

  lemma HasIsAnd(x: bv64, bit: bv64)
    ensures Has(x, bit) <==> And(x, bit) != 0
  {}

  lemma HasIsBit(x: bv64, k: nat)
    requires k < 64
    ensures Has(x, OneAt(k)) <==> Bit(x, k)
  {
    hide *;
    HasIsAnd(x, OneAt(k));
    BitOps(x, OneAt(k), k);
    OneAtBits(k, k);
    ZeroBits(k);
    if !Bit(x, k) {
      forall i | 0 <= i < 64
        ensures !Bit(And(x, OneAt(k)), i)
      {
        BitOps(x, OneAt(k), i);
        OneAtBits(k, i);
      }
      IsZero(And(x, OneAt(k)));
    }
  }

  lemma PutIs(x: bv64, bit: bv64, v: bool)
    ensures Put(x, bit, v) == if v then Or(x, bit) else And(x, Not(bit))
  {
    AndNotIs(x, bit);
    hide And, Not;
  }

  lemma PutBits(x: bv64, k: nat, v: bool, i: nat)
    requires i < 64
    ensures Bit(Put(x, OneAt(k), v), i) == if i == k then v else Bit(x, i)
  {
    hide *;
    PutIs(x, OneAt(k), v);
    BitOps(x, OneAt(k), i);
    BitAndNot(x, OneAt(k), i);
    OneAtBits(k, i);
  }

  lemma CopyIs(x: bv64, y: bv64)
    ensures CopyShared(x, y) == Or(And(x, Not(SHARED_BITS)), And(y, SHARED_BITS))
  {
    AndNotIs(x, SHARED_BITS);
    hide Not;
  }

  /** The bits held in both registers. */
  predicate IsShared(i: nat) { i == 1 || i == 5 || i == 8 }

  lemma CopyBits(x: bv64, y: bv64, i: nat)
    requires i < 64
    ensures Bit(CopyShared(x, y), i) == if IsShared(i) then Bit(y, i) else Bit(x, i)
  {
    hide Bit, And, Or, Not, CopyShared, OneAt;
    Masks();
    CopyIs(x, y);
    BitOps(And(x, Not(SHARED_BITS)), And(y, SHARED_BITS), i);
    BitAndNot(x, SHARED_BITS, i);
    BitOps(y, SHARED_BITS, i);
    BitOps(Or(OneAt(1), OneAt(5)), OneAt(8), i);
    BitOps(OneAt(1), OneAt(5), i);
    OneAtBits(1, i);
    OneAtBits(5, i);
    OneAtBits(8, i);
  }

  function PrivCode(p: Priv): bv64 { match p case U => 0 case S => 0x800 case M => 0x1800 }

  lemma PutPrivIs(x: bv64, p: Priv)
    ensures PutPriv(x, p) == Or(And(x, Not(MPP_BITS)), PrivCode(p))
  {
    AndNotIs(x, MPP_BITS);
    hide Not;
  }

  lemma PrivCodeBits(p: Priv, i: nat)
    requires i < 64
    ensures Bit(PrivCode(p), i) <==> (i == 11 && p != U) || (i == 12 && p == M)
  {
    hide Bit, Or, OneAt;
    Masks();
    ZeroBits(i);
    BitOps(OneAt(11), OneAt(12), i);
    OneAtBits(11, i);
    OneAtBits(12, i);
  }

  lemma PutPrivBits(x: bv64, p: Priv, i: nat)
    requires i < 64
    ensures Bit(PutPriv(x, p), i) == if i == 11 then p != U else if i == 12 then p == M else Bit(x, i)
  {
    hide Bit, And, Or, Not, OneAt, PutPriv, PrivCode;
    Masks();
    PutPrivIs(x, p);
    BitOps(And(x, Not(MPP_BITS)), PrivCode(p), i);
    BitAndNot(x, MPP_BITS, i);
    BitOps(OneAt(11), OneAt(12), i);
    OneAtBits(11, i);
    OneAtBits(12, i);
    PrivCodeBits(p, i);
  }

  lemma DecodeByHas(x: bv64)
    ensures DecodePriv(x) == if Has(x, 0x1000) then M else if Has(x, 0x800) then S else U
  {}

  lemma TopMask()
    ensures OneAt(12) == 0x1000
  {
    Masks();
    Doublings();
    hide Double, Or;
    assert OneAt(12) == Double(OneAt(11));
  }

  /** The saved mode by the two bits of MPP; 2'b10 decodes as M. */
  lemma DecodeByBits(x: bv64)
    ensures DecodePriv(x) == if Bit(x, 12) then M else if Bit(x, 11) then S else U
  {
    hide DecodePriv, Has, Bit, OneAt, Or;
    Masks();
    TopMask();
    DecodeByHas(x);
    HasIsBit(x, 11);
    HasIsBit(x, 12);
  }

  /** The privilege context as software reads it from the status registers. */
  lemma ContextByBits(s: Csrs)
    ensures var m, z := ReadCsr(s, 0x300), ReadCsr(s, 0x100);
      ContextOf(s) == Context(s.priv, Bit(m, 3), Bit(m, 7), if Bit(m, 12) then M else if Bit(m, 11) then S else U,
                              Bit(z, 1), Bit(z, 5), Bit(z, 8))
  {
    hide DecodePriv, Has, Bit, OneAt, Or, ReadCsr;
    ControllerAddresses(s);
    Masks();
    DecodeByBits(s.mstatus);
    HasIsBit(s.mstatus, 3);
    HasIsBit(s.mstatus, 7);
    HasIsBit(s.sstatus, 1);
    HasIsBit(s.sstatus, 5);
    HasIsBit(s.sstatus, 8);
  }

  // After a clock edge

  /** Bit i of sstatus after the edge. */
  predicate SstatusBit(s: Csrs, r: CsrReq, t: TrapReq, i: nat) {
    var m, z := ReadCsr(s, 0x300), ReadCsr(s, 0x100);
    if t.trigger && t.toS then
      if i == 5 then Bit(z, 1) else if i == 1 then false else if i == 8 then s.priv == S else Bit(z, i)
    else if !t.trigger && t.sretEn then
      if i == 1 then Bit(z, 5) else if i == 5 then true else if i == 8 then false else Bit(z, i)
    else if t.trigger || t.mretEn then Bit(if IsShared(i) then m else z, i)
    else if WritesTo(r, 0x300) && IsShared(i) then Bit(WriteNext(m, r.data, r.op), i)
    else if WritesTo(r, 0x100) then Bit(WriteNext(z, r.data, r.op), i)
    else Bit(z, i)
  }

  /** Bit i of mstatus after the edge. */
  predicate MstatusBit(s: Csrs, r: CsrReq, t: TrapReq, i: nat) {
    var m := ReadCsr(s, 0x300);
    if (t.trigger && t.toS) || (!t.trigger && t.sretEn) then
      if IsShared(i) then SstatusBit(s, r, t, i) else Bit(m, i)
    else if t.trigger then
      if i == 7 then Bit(m, 3) else if i == 3 then false
      else if i == 11 then s.priv != U else if i == 12 then s.priv == M else Bit(m, i)
    else if t.mretEn then
      if i == 3 then Bit(m, 7) else if i == 7 then true else if i == 11 || i == 12 then false else Bit(m, i)
    else if WritesTo(r, 0x300) then Bit(WriteNext(m, r.data, r.op), i)
    else if WritesTo(r, 0x100) && IsShared(i) then SstatusBit(s, r, t, i)
    else Bit(m, i)
  }

  lemma TrapSstatusBits(s: Csrs, i: nat)
    requires i < 64
    ensures Bit(TrapSstatus(s), i)
         == if i == 5 then Bit(s.sstatus, 1) else if i == 1 then false else if i == 8 then s.priv == S
            else Bit(s.sstatus, i)
  {
    hide Put, Has, Bit, OneAt, Or;
    Masks();
    var x := Put(s.sstatus, SPIE_BIT, Has(s.sstatus, SIE_BIT));
    PutBits(Put(x, SIE_BIT, false), 8, s.priv == S, i);
    PutBits(x, 1, false, i);
    PutBits(s.sstatus, 5, Has(s.sstatus, SIE_BIT), i);
    HasIsBit(s.sstatus, 1);
  }

  lemma SretSstatusBits(s: Csrs, i: nat)
    requires i < 64
    ensures Bit(SretSstatus(s), i)
         == if i == 1 then Bit(s.sstatus, 5) else if i == 5 then true else if i == 8 then false else Bit(s.sstatus, i)
  {
    hide Put, Has, Bit, OneAt, Or;
    Masks();
    var x := Put(s.sstatus, SIE_BIT, Has(s.sstatus, SPIE_BIT));
    PutBits(Put(x, SPIE_BIT, true), 8, false, i);
    PutBits(x, 5, true, i);
    PutBits(s.sstatus, 1, Has(s.sstatus, SPIE_BIT), i);
    HasIsBit(s.sstatus, 5);
  }

  lemma TrapMstatusBits(s: Csrs, i: nat)
    requires i < 64
    ensures Bit(TrapMstatus(s), i)
         == if i == 7 then Bit(s.mstatus, 3) else if i == 3 then false
            else if i == 11 then s.priv != U else if i == 12 then s.priv == M else Bit(s.mstatus, i)
  {
    hide Put, PutPriv, Has, Bit, OneAt, Or;
    Masks();
    var x := Put(s.mstatus, MPIE_BIT, Has(s.mstatus, MIE_BIT));
    PutPrivBits(Put(x, MIE_BIT, false), s.priv, i);
    PutBits(x, 3, false, i);
    PutBits(s.mstatus, 7, Has(s.mstatus, MIE_BIT), i);
    HasIsBit(s.mstatus, 3);
  }

  lemma MretMstatusBits(s: Csrs, i: nat)
    requires i < 64
    ensures Bit(MretMstatus(s), i)
         == if i == 3 then Bit(s.mstatus, 7) else if i == 7 then true else if i == 11 || i == 12 then false
            else Bit(s.mstatus, i)
  {
    hide Put, PutPriv, Has, Bit, OneAt, Or;
    Masks();
    var x := Put(s.mstatus, MIE_BIT, Has(s.mstatus, MPIE_BIT));
    PutPrivBits(Put(x, MPIE_BIT, true), U, i);
    PutBits(x, 7, true, i);
    PutBits(s.mstatus, 3, Has(s.mstatus, MPIE_BIT), i);
    HasIsBit(s.mstatus, 7);
  }

  lemma WritesStatusAt(r: CsrReq)
    ensures CsrUnit.Writes(r, CSR_MSTATUS) <==> WritesTo(r, 0x300)
    ensures CsrUnit.Writes(r, CSR_SSTATUS) <==> WritesTo(r, 0x100)
    ensures !(WritesTo(r, 0x300) && WritesTo(r, 0x100))
  {
    hide WriteEnabled, Enabled;
    EnabledIs(r);
  }

  lemma StatusNextIs(s: Csrs, r: CsrReq, t: TrapReq)
    ensures var u := CsrNext(s, r, t);
      ReadCsr(u, 0x300) == StatusNext(s, r, t).0 && ReadCsr(u, 0x100) == StatusNext(s, r, t).1
  {
    hide ReadCsr, StatusNext, PlainAll;
    ControllerAddresses(CsrNext(s, r, t));
  }

  lemma EventBits(s: Csrs, r: CsrReq, t: TrapReq, i: nat)
    requires i < 64 && (t.trigger || t.mretEn || t.sretEn)
    ensures Bit(StatusNext(s, r, t).0, i) <==> MstatusBit(s, r, t, i)
    ensures Bit(StatusNext(s, r, t).1, i) <==> SstatusBit(s, r, t, i)
  {
    hide Bit, ReadCsr, WriteNext, CopyShared, TrapSstatus, TrapMstatus, SretSstatus, MretMstatus, WritesTo;
    hide CsrUnit.Writes;
    ControllerAddresses(s);
    if t.trigger && t.toS {
      TrapSstatusBits(s, i);
      CopyBits(s.mstatus, TrapSstatus(s), i);
    } else if t.trigger {
      TrapMstatusBits(s, i);
      CopyBits(s.sstatus, TrapMstatus(s), i);
    } else if t.sretEn {
      SretSstatusBits(s, i);
      CopyBits(s.mstatus, SretSstatus(s), i);
    } else {
      MretMstatusBits(s, i);
      CopyBits(s.sstatus, MretMstatus(s), i);
    }
  }

  /** Without a trap or return the status registers change by a CSR write alone. */
  lemma AccessNext(s: Csrs, r: CsrReq, t: TrapReq)
    requires !t.trigger && !t.mretEn && !t.sretEn
    ensures var m, z := WriteNext(s.mstatus, r.data, r.op), WriteNext(s.sstatus, r.data, r.op);
      StatusNext(s, r, t)
      == if WritesTo(r, 0x300) then (m, CopyShared(s.sstatus, m))
         else if WritesTo(r, 0x100) then (CopyShared(s.mstatus, z), z) else (s.mstatus, s.sstatus)
  {
    hide WriteNext, CopyShared, WritesTo, CsrUnit.Writes, TrapSstatus, TrapMstatus, SretSstatus, MretMstatus;
    WritesStatusAt(r);
  }

  lemma AccessBits(s: Csrs, r: CsrReq, t: TrapReq, i: nat)
    requires i < 64 && !t.trigger && !t.mretEn && !t.sretEn
    ensures Bit(StatusNext(s, r, t).0, i) <==> MstatusBit(s, r, t, i)
    ensures Bit(StatusNext(s, r, t).1, i) <==> SstatusBit(s, r, t, i)
  {
    hide StatusNext, Bit, ReadCsr, WriteNext, CopyShared, WritesTo;
    ControllerAddresses(s);
    WritesStatusAt(r);
    AccessNext(s, r, t);
    if WritesTo(r, 0x300) {
      CopyBits(s.sstatus, WriteNext(s.mstatus, r.data, r.op), i);
    } else if WritesTo(r, 0x100) {
      CopyBits(s.mstatus, WriteNext(s.sstatus, r.data, r.op), i);
    }
  }

  /** Both status registers after any clock edge, by address and bit. */
  lemma StatusNextBits(s: Csrs, r: CsrReq, t: TrapReq, i: nat)
    requires i < 64
    ensures Bit(ReadCsr(CsrNext(s, r, t), 0x300), i) <==> MstatusBit(s, r, t, i)
    ensures Bit(ReadCsr(CsrNext(s, r, t), 0x100), i) <==> SstatusBit(s, r, t, i)
  {
    hide *;
    StatusNextIs(s, r, t);
    if t.trigger || t.mretEn || t.sretEn {
      EventBits(s, r, t, i);
    } else {
      AccessBits(s, r, t, i);
    }
  }

  /** The mode after any clock edge. */
  lemma ModeNext(s: Csrs, r: CsrReq, t: TrapReq)
    ensures var m, z := ReadCsr(s, 0x300), ReadCsr(s, 0x100);
      CsrNext(s, r, t).priv
      == if t.trigger then (if t.toS then S else M)
         else if t.sretEn then (if Bit(z, 8) then S else U)
         else if t.mretEn then (if Bit(m, 12) then M else if Bit(m, 11) then S else U)
         else s.priv
  {
    hide Bit, ReadCsr, StatusNext, PlainAll, Has, DecodePriv, OneAt, Or;
    ControllerAddresses(s);
    Masks();
    DecodeByBits(s.mstatus);
    HasIsBit(s.sstatus, 8);
  }
}
