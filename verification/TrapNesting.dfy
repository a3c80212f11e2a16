/** Trap entry and return as a two-level stack: what a handler, with machine traps inside, restores. */
module TrapNesting {
  import opened Rv64Pkg
  import opened CsrUnit
  import opened TrapCtrl
  import opened Privilege
  import opened TrapRuns
  import opened CsrMap
  import opened TrapDecisions

  /** A CSR access that leaves the status and exception-pc registers alone. */
  predicate Keeps(r: CsrReq) { !WritesStatus(r) && !WritesPlain(r, MEPC) && !WritesPlain(r, SEPC) }

  /** No trap, no return, and a CSR access that keeps the context. */
  predicate Calm(s: Csrs, e: Cycle) {
    var t := TrapOf(s, e);
    !t.trigger && !t.mretEn && !t.sretEn && Keeps(e.csr)
  }

  predicate SameContext(s: Csrs, u: Csrs) {
    ContextOf(u) == ContextOf(s) && u.plain[MEPC] == s.plain[MEPC] && u.plain[SEPC] == s.plain[SEPC]
  }

  lemma CalmKeeps(s: Csrs, e: Cycle)
    requires Mirrored(s) && Calm(s, e)
    ensures SameContext(s, After(s, e))
  {
    hide Mirrored, CsrNext, Request, ContextOf, WritesStatus, WritesPlain;
    ContextStep(s, e.csr, TrapOf(s, e));
    SlotKept(s, e.csr, TrapOf(s, e), MEPC);
    SlotKept(s, e.csr, TrapOf(s, e), SEPC);
  }

  lemma {:induction false} CalmRunKeeps(s: Csrs, es: seq<Cycle>)
    requires Mirrored(s) && EveryCycle(s, es, Calm)
    ensures SameContext(s, AfterAll(s, es))
  {
    hide Mirrored, After, Calm, EveryCycle, ContextOf;
    if es != [] {
      EveryCyclePrefix(s, es, Calm);
      CalmRunKeeps(s, es[..|es| - 1]);
      StaysMirrored(s, es[..|es| - 1]);
      CalmKeeps(AfterAll(s, es[..|es| - 1]), es[|es| - 1]);
    }
  }

  /** A trap to M mode, handler work, and the matching mret. */
  datatype Visit = Visit(trap: Cycle, work: seq<Cycle>, ret: Cycle) {
    function Cycles(): seq<Cycle> { [trap] + work + [ret] }
  }

  function BeforeReturn(s: Csrs, v: Visit): Csrs { AfterAll(After(s, v.trap), v.work) }

  ghost predicate VisitOk(s: Csrs, v: Visit) {
    MachineTrap(s, v.trap) && !WritesPlain(v.trap.csr, SEPC)
    && EveryCycle(After(s, v.trap), v.work, Calm)
    && MachineReturn(BeforeReturn(s, v), v.ret)
  }

  /** An mret that meets no trap. */
  predicate MachineReturn(s: Csrs, e: Cycle) {
    e.w.isMret && !e.w.isSret && !Trapping(s, e.w, e.pins) && !WritesPlain(e.csr, SEPC)
  }

  lemma VisitCycles(s: Csrs, v: Visit)
    ensures AfterAll(s, v.Cycles()) == After(BeforeReturn(s, v), v.ret)
  {
    hide After;
    AfterConcat(s, [v.trap], v.work);
    AfterConcat(s, [v.trap] + v.work, [v.ret]);
    AfterOne(s, v.trap);
    AfterOne(BeforeReturn(s, v), v.ret);
  }

  lemma AfterOne(s: Csrs, e: Cycle)
    ensures AfterAll(s, [e]) == After(s, e)
  {
    hide After;
    assert [e][..0] == [];
  }

  lemma MachineTrapEffect(s: Csrs, e: Cycle)
    requires Mirrored(s) && MachineTrap(s, e) && !WritesPlain(e.csr, SEPC)
    ensures var u, c := After(s, e), ContextOf(s);
      ContextOf(u) == c.(priv := M, mpie := c.mie, mie := false, mpp := c.priv)
      && u.plain[MEPC] == e.w.pc && u.plain[SEPC] == s.plain[SEPC]
  {
    hide Mirrored, StatusNext, Request, ContextOf, WritesPlain, PrivNext;
    RequestShape(s, e.w, e.pins);
    ContextStep(s, e.csr, TrapOf(s, e));
    SlotKept(s, e.csr, TrapOf(s, e), SEPC);
  }

  lemma MachineReturnEffect(s: Csrs, e: Cycle)
    requires Mirrored(s) && MachineReturn(s, e)
    ensures var u, c := After(s, e), ContextOf(s);
      ContextOf(u) == c.(priv := c.mpp, mie := c.mpie, mpie := true, mpp := U)
      && u.plain[SEPC] == s.plain[SEPC] && NextPc(s, e.w, e.pins) == s.plain[MEPC]
  {
    hide Mirrored, CsrNext, Request, ContextOf, WritesPlain, NextPc, Trapping, ReadCsr;
    Decision(s, e.w, e.pins);
    DecisionTarget(s, e.w, e.pins);
    ControllerAddresses(s);
    ContextStep(s, e.csr, TrapOf(s, e));
    SlotKept(s, e.csr, TrapOf(s, e), SEPC);
  }

  /** A machine trap and its mret restore mode, MIE and pc, and leave the supervisor's context as it was. */
  lemma VisitRestores(s: Csrs, v: Visit)
    requires Mirrored(s) && VisitOk(s, v)
    ensures var u, c := AfterAll(s, v.Cycles()), ContextOf(s);
      ContextOf(u) == c.(mpie := true, mpp := U) && u.plain[SEPC] == s.plain[SEPC]
      && NextPc(BeforeReturn(s, v), v.ret.w, v.ret.pins) == v.trap.w.pc
  {
    hide Mirrored, After, MachineTrap, MachineReturn, EveryCycle, ContextOf, WritesPlain, NextPc, AfterAll;
    MachineTrapEffect(s, v.trap);
    StaysMirroredOnce(s, v.trap);
    CalmRunKeeps(After(s, v.trap), v.work);
    StaysMirrored(After(s, v.trap), v.work);
    MachineReturnEffect(BeforeReturn(s, v), v.ret);
    VisitCycles(s, v);
  }

  lemma StaysMirroredOnce(s: Csrs, e: Cycle)
    requires Mirrored(s)
    ensures Mirrored(After(s, e))
  {
    hide Mirrored, CsrNext, Request;
    MirrorStep(s, e.csr, TrapOf(s, e));
  }

  // A supervisor handler

  datatype Segment = Work(cycle: Cycle) | Nested(visit: Visit) {
    function Cycles(): seq<Cycle> {
      match this case Work(e) => [e] case Nested(v) => v.Cycles()
    }
  }

  ghost predicate SegmentOk(s: Csrs, g: Segment) {
    match g case Work(e) => Calm(s, e) case Nested(v) => VisitOk(s, v)
  }

  function CyclesOf(body: seq<Segment>): seq<Cycle> {
    if body == [] then [] else body[0].Cycles() + CyclesOf(body[1..])
  }

  /** Any number of calm cycles and matched machine visits, in any order. */
  ghost predicate BodyOk(s: Csrs, body: seq<Segment>)
    decreases |body|
  {
    body == [] || (SegmentOk(s, body[0]) && BodyOk(AfterAll(s, body[0].Cycles()), body[1..]))
  }

  /** What the body of a supervisor handler preserves. */
  predicate SameSupervisor(s: Csrs, u: Csrs) {
    var c, d := ContextOf(s), ContextOf(u);
    d.priv == c.priv && d.mie == c.mie && d.sie == c.sie && d.spie == c.spie && d.spp == c.spp
    && u.plain[SEPC] == s.plain[SEPC]
  }

  lemma SegmentKeeps(s: Csrs, g: Segment)
    requires Mirrored(s) && SegmentOk(s, g)
    ensures SameSupervisor(s, AfterAll(s, g.Cycles()))
  {
    hide Mirrored, After, Calm, VisitOk, ContextOf, AfterAll;
    match g
    case Work(e) =>
      AfterOne(s, e);
      CalmKeeps(s, e);
    case Nested(v) =>
      VisitRestores(s, v);
  }

  lemma {:induction false} BodyKeeps(s: Csrs, body: seq<Segment>)
    requires Mirrored(s) && BodyOk(s, body)
    ensures SameSupervisor(s, AfterAll(s, CyclesOf(body)))
    decreases |body|
  {
    hide Mirrored, After, SegmentOk, ContextOf, AfterAll;
    if body == [] {
      AfterNone(s);
    } else {
      var u := AfterAll(s, body[0].Cycles());
      SegmentKeeps(s, body[0]);
      StaysMirrored(s, body[0].Cycles());
      BodyKeeps(u, body[1..]);
      AfterConcat(s, body[0].Cycles(), CyclesOf(body[1..]));
    }
  }

  lemma AfterNone(s: Csrs)
    ensures AfterAll(s, []) == s
  {}

  lemma DelegatedTrapEffect(s: Csrs, e: Cycle)
    requires Mirrored(s) && TrapOf(s, e).toS
    ensures var u, c := After(s, e), ContextOf(s);
      ContextOf(u) == c.(priv := S, spie := c.sie, sie := false, spp := c.priv == S)
      && u.plain[SEPC] == e.w.pc && s.priv != M
  {
    hide Mirrored, StatusNext, Request, Has, DecodePriv, WritesPlain, PrivNext;
    RequestShape(s, e.w, e.pins);
    ContextStep(s, e.csr, TrapOf(s, e));
  }

  /** An sret that meets no trap. */
  predicate SupervisorReturn(s: Csrs, e: Cycle) {
    e.w.isSret && !e.w.isMret && !Trapping(s, e.w, e.pins)
  }

  lemma SupervisorReturnEffect(s: Csrs, e: Cycle)
    requires Mirrored(s) && SupervisorReturn(s, e)
    ensures var u, c := After(s, e), ContextOf(s);
      ContextOf(u) == c.(priv := if c.spp then S else U, sie := c.spie, spie := true, spp := false)
      && NextPc(s, e.w, e.pins) == s.plain[SEPC]
  {
    hide Mirrored, CsrNext, Request, ContextOf, NextPc, Trapping, ReadCsr;
    Decision(s, e.w, e.pins);
    DecisionTarget(s, e.w, e.pins);
    ControllerAddresses(s);
    ContextStep(s, e.csr, TrapOf(s, e));
  }

  /** A delegated trap, its handler and sret restore mode, SIE, MIE and pc. */
  lemma SupervisorRoundTrip(s: Csrs, trap: Cycle, body: seq<Segment>, ret: Cycle)
    requires Mirrored(s) && TrapOf(s, trap).toS && BodyOk(After(s, trap), body)
    requires SupervisorReturn(AfterAll(After(s, trap), CyclesOf(body)), ret)
    ensures var u := AfterAll(After(s, trap), CyclesOf(body));
      var c, d := ContextOf(s), ContextOf(After(u, ret));
      d.priv == c.priv && d.sie == c.sie && d.mie == c.mie && NextPc(u, ret.w, ret.pins) == trap.w.pc
  {
    hide Mirrored, After, TrapOf, BodyOk, AfterAll, NextPc, Has, DecodePriv, SupervisorReturn;
    var u := AfterAll(After(s, trap), CyclesOf(body));
    DelegatedTrapEffect(s, trap);
    StaysMirroredOnce(s, trap);
    BodyKeeps(After(s, trap), body);
    StaysMirrored(After(s, trap), CyclesOf(body));
    SupervisorReturnEffect(u, ret);
  }
}
