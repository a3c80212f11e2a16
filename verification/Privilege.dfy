/** The CSR unit and the trap controller as one state machine over privilege contexts. */
module Privilege {
  import opened Rv64Pkg
  import Decoder
  import opened CsrUnit
  import opened TrapCtrl

  // Status mirroring

  /** Both status registers hold the same SIE, SPIE and SPP. */
  predicate Mirrored(s: Csrs) { Shared(s.mstatus) == Shared(s.sstatus) }

  function Shared(x: bv64): bv64 { x & SHARED_BITS }

  lemma CopyIsShared(x: bv64, y: bv64)
    ensures Shared(CopyShared(x, y)) == Shared(y)
  {}

  /** Any mix of trap, mret, sret and CSR write in one cycle keeps the registers mirrored. */
  lemma MirrorStep(s: Csrs, r: CsrReq, t: TrapReq)
    requires Mirrored(s)
    ensures Mirrored(CsrNext(s, r, t))
  {
    hide Shared, CopyShared, TrapSstatus, TrapMstatus, SretSstatus, MretMstatus, WriteNext, CsrUnit.Writes;
    hide PlainAll, PrivNext;
    CopyIsShared(s.mstatus, TrapSstatus(s));
    CopyIsShared(s.sstatus, TrapMstatus(s));
    CopyIsShared(s.mstatus, SretSstatus(s));
    CopyIsShared(s.sstatus, MretMstatus(s));
    CopyIsShared(s.sstatus, WriteNext(s.mstatus, r.data, r.op));
    CopyIsShared(s.mstatus, WriteNext(s.sstatus, r.data, r.op));
  }

  /** Requests of one cycle, unconstrained. */
  datatype Requests = Requests(csr: CsrReq, trap: TrapReq)

  function RunRequests(es: seq<Requests>): Csrs {
    if es == [] then CsrsReset()
    else CsrNext(RunRequests(es[..|es| - 1]), es[|es| - 1].csr, es[|es| - 1].trap)
  }

  lemma {:induction false} AlwaysMirrored(es: seq<Requests>)
    ensures Mirrored(RunRequests(es))
  {
    hide CsrNext, Mirrored;
    if es == [] {
      ResetMirrored();
    } else {
      AlwaysMirrored(es[..|es| - 1]);
      MirrorStep(RunRequests(es[..|es| - 1]), es[|es| - 1].csr, es[|es| - 1].trap);
    }
  }

  lemma ResetMirrored()
    ensures Mirrored(CsrsReset())
  {}

  // Privilege contexts

  /** The mode and the two levels of saved mode and interrupt enable. */
  datatype Context = Context(priv: Priv, mie: bool, mpie: bool, mpp: Priv, sie: bool, spie: bool, spp: bool)

  function ContextOf(s: Csrs): Context {
    Context(s.priv, Has(s.mstatus, MIE_BIT), Has(s.mstatus, MPIE_BIT), DecodePriv(s.mstatus),
            Has(s.sstatus, SIE_BIT), Has(s.sstatus, SPIE_BIT), Has(s.sstatus, SPP_BIT))
  }

  /** x holds the supervisor bits of c. */
  predicate SharedAgrees(x: bv64, c: Context) {
    Has(x, SIE_BIT) == c.sie && Has(x, SPIE_BIT) == c.spie && Has(x, SPP_BIT) == c.spp
  }

  lemma SharedHas(x: bv64)
    ensures Has(x, SIE_BIT) == Has(Shared(x), SIE_BIT)
    ensures Has(x, SPIE_BIT) == Has(Shared(x), SPIE_BIT)
    ensures Has(x, SPP_BIT) == Has(Shared(x), SPP_BIT)
  {}

  lemma MirroredAgrees(s: Csrs)
    requires Mirrored(s)
    ensures SharedAgrees(s.mstatus, ContextOf(s))
  {
    hide Shared, Has, DecodePriv;
    SharedHas(s.mstatus);
    SharedHas(s.sstatus);
  }

  lemma CopyKeepsMachine(x: bv64, y: bv64)
    ensures Has(CopyShared(x, y), MIE_BIT) == Has(x, MIE_BIT)
    ensures Has(CopyShared(x, y), MPIE_BIT) == Has(x, MPIE_BIT)
    ensures DecodePriv(CopyShared(x, y)) == DecodePriv(x)
  {}

  lemma CopyTakesShared(x: bv64, y: bv64)
    ensures Has(CopyShared(x, y), SIE_BIT) == Has(y, SIE_BIT)
    ensures Has(CopyShared(x, y), SPIE_BIT) == Has(y, SPIE_BIT)
    ensures Has(CopyShared(x, y), SPP_BIT) == Has(y, SPP_BIT)
  {}

  lemma TrapMstatusFields(s: Csrs)
    ensures var x := TrapMstatus(s);
      !Has(x, MIE_BIT) && Has(x, MPIE_BIT) == Has(s.mstatus, MIE_BIT) && DecodePriv(x) == s.priv
    ensures var x := TrapMstatus(s);
      Has(x, SIE_BIT) == Has(s.mstatus, SIE_BIT) && Has(x, SPIE_BIT) == Has(s.mstatus, SPIE_BIT)
      && Has(x, SPP_BIT) == Has(s.mstatus, SPP_BIT)
  {
    if Has(s.mstatus, MIE_BIT) {
      match s.priv case U => case S => case M =>
    } else {
      match s.priv case U => case S => case M =>
    }
  }

  lemma MretMstatusFields(s: Csrs)
    ensures var x := MretMstatus(s);
      Has(x, MIE_BIT) == Has(s.mstatus, MPIE_BIT) && Has(x, MPIE_BIT) && DecodePriv(x) == U
    ensures var x := MretMstatus(s);
      Has(x, SIE_BIT) == Has(s.mstatus, SIE_BIT) && Has(x, SPIE_BIT) == Has(s.mstatus, SPIE_BIT)
      && Has(x, SPP_BIT) == Has(s.mstatus, SPP_BIT)
  {
    if Has(s.mstatus, MPIE_BIT) {} else {}
  }

  lemma TrapBits(x: bv64, enabled: bool, fromS: bool)
    ensures var y := Put(Put(Put(x, SPIE_BIT, enabled), SIE_BIT, false), SPP_BIT, fromS);
      !Has(y, SIE_BIT) && Has(y, SPIE_BIT) == enabled && Has(y, SPP_BIT) == fromS
  {
    if enabled {
      if fromS {} else {}
    } else {
      if fromS {} else {}
    }
  }

  lemma TrapSstatusFields(s: Csrs)
    ensures var x := TrapSstatus(s);
      !Has(x, SIE_BIT) && Has(x, SPIE_BIT) == Has(s.sstatus, SIE_BIT) && Has(x, SPP_BIT) == (s.priv == S)
  {
    hide Put, Has;
    TrapBits(s.sstatus, Has(s.sstatus, SIE_BIT), s.priv == S);
  }

  lemma SretSstatusFields(s: Csrs)
    ensures var x := SretSstatus(s);
      Has(x, SIE_BIT) == Has(s.sstatus, SPIE_BIT) && Has(x, SPIE_BIT) && !Has(x, SPP_BIT)
  {
    if Has(s.sstatus, SPIE_BIT) {} else {}
  }

  /** What a cycle does to the context when its CSR access leaves the status registers alone. */
  function ContextNext(c: Context, t: TrapReq): Context {
    if t.trigger && t.toS then c.(priv := S, spie := c.sie, sie := false, spp := c.priv == S)
    else if t.trigger then c.(priv := M, mpie := c.mie, mie := false, mpp := c.priv)
    else if t.sretEn then c.(priv := if c.spp then S else U, sie := c.spie, spie := true, spp := false)
    else if t.mretEn then c.(priv := c.mpp, mie := c.mpie, mpie := true, mpp := U)
    else c
  }

  predicate WritesStatus(r: CsrReq) { CsrUnit.Writes(r, CSR_MSTATUS) || CsrUnit.Writes(r, CSR_SSTATUS) }

  /** The status registers implement a two-level stack of privilege contexts. */
  lemma ContextStep(s: Csrs, r: CsrReq, t: TrapReq)
    requires Mirrored(s)
    requires t.trigger || t.mretEn || t.sretEn || !WritesStatus(r)
    ensures ContextOf(CsrNext(s, r, t)) == ContextNext(ContextOf(s), t)
  {
    hide CopyShared, TrapSstatus, TrapMstatus, SretSstatus, MretMstatus, WriteNext, CsrUnit.Writes, PlainAll;
    hide Has, DecodePriv, Mirrored;
    MirroredAgrees(s);
    if t.trigger && t.toS {
      TrapSstatusFields(s);
      CopyKeepsMachine(s.mstatus, TrapSstatus(s));
    } else if t.trigger {
      TrapMstatusFields(s);
      CopyTakesShared(s.sstatus, TrapMstatus(s));
    } else if t.sretEn {
      SretSstatusFields(s);
      CopyKeepsMachine(s.mstatus, SretSstatus(s));
    } else if t.mretEn {
      MretMstatusFields(s);
      CopyTakesShared(s.sstatus, MretMstatus(s));
    }
  }
}
