/** When the TLB answers a request by itself: the match in terms of page numbers and address spaces. */
module TlbHits {
  import opened Rv64Pkg
  import opened BitString
  import opened Tlb
  import opened PageTable
  import opened TlbArithmetic
  import opened TlbCoherence

  /** Levels of a page table and address bits per level, by the number of the mode in satp. */
  datatype Radix = Radix(levels: nat, bits: nat)

  function RadixOf(mode: bv4): Option<Radix> {
    if mode == 1 then Some(Radix(2, 10))
    else if mode == 9 then Some(Radix(4, 9))
    else if mode == 10 then Some(Radix(5, 9))
    else None
  }

  /** v without its digits below the given level and above the root. */
  function Prefix(g: Radix, level: nat, v: nat): nat { v % Pow2(g.levels * g.bits) / Pow2(level * g.bits) }

  /**
    The entry holds the page of the request: a valid page of the mode, global or of the address space, that has the
    request's page number down to its own level.
   */
  predicate Serves(e: Entry, q: Req) {
    match RadixOf(q.mode)
    case None => false
    case Some(g) =>
      e.valid && e.page.mode == q.mode && (e.page.perms.g || e.page.asid == q.asid)
      && Prefix(g, e.page.level, Value(e.page.vpn)) == Prefix(g, e.page.level, Value(q.vaddr) / 4096)
  }

  /** The constants of the modes. */
  lemma Geometry(mode: bv4)
    ensures Translates(mode) <==> RadixOf(mode).Some?
    ensures IsSupportedMode(mode) <==> mode == 0 || RadixOf(mode).Some?
    ensures mode == MODE_BARE <==> mode == 0
    ensures RadixOf(mode).Some? ==>
      var g := RadixOf(mode).value;
      g.levels == TopLevel(mode) + 1 && g.bits == VpnStride(mode) && g.levels * g.bits == VpnWidth(mode)
  {}

  /** A refill is taken exactly when it is valid and of a translating mode. */
  lemma AcceptedExactly(r: Refill)
    ensures Accepted(r) <==> r.valid && RadixOf(r.page.mode).Some?
  {
    Geometry(r.page.mode);
    hide IsSupportedMode, RadixOf;
  }

  lemma ServesTranslates(e: Entry, q: Req)
    requires Serves(e, q)
    ensures e.valid && e.page.mode == q.mode && RadixOf(q.mode).Some?
  {
    hide RadixOf, Prefix;
  }

  lemma MatchIsServing(e: Entry, q: Req)
    requires Translates(q.mode)
    ensures EntryMatch(e, VaddrToVpn(q.vaddr, q.mode), q.asid, q.mode) <==> Serves(e, q)
  {
    hide Low, Pow2, VpnMask, SameUnderMask, VaddrToVpn, VpnWidth, VpnStride, RadixOf;
    Geometry(q.mode);
    MaskMatchIsSamePage(e.page.mode, e.page.level, e.page.vpn, VaddrToVpn(q.vaddr, q.mode));
    VpnIsPageNumber(q.mode, q.vaddr);
  }

  /**
    Every response: invalid requests get nothing, unknown modes fault, bare and M-mode requests pass unchanged, and
    any other request is left to the walker exactly when no entry serves it, and otherwise hits or faults.
   */
  lemma LookupDecides(entries: seq<Entry>, q: Req)
    ensures var r := Respond(entries, q);
      r.valid == q.valid && (!r.hit ==> r.paddr == q.vaddr)
      && if !q.valid then !r.hit && !r.pageFault && !r.needPtw
         else if q.mode !in {0, 1, 9, 10} then !r.hit && r.pageFault && !r.needPtw
         else if q.mode == 0 || q.priv == 3 then r.hit && r.paddr == q.vaddr && !r.pageFault && !r.needPtw
         else (r.needPtw <==> forall e :: e in entries ==> !Serves(e, q))
              && (r.hit || r.pageFault <==> !r.needPtw) && !(r.hit && r.pageFault)
  {
    hide EntryMatch, VaddrToVpn, FirstMatch, Serves, AllowAccess, PhysicalAddress;
    Geometry(q.mode);
    FirstMatchMatches(entries, VaddrToVpn(q.vaddr, q.mode), q.asid, q.mode);
    if Translates(q.mode) {
      forall e | e in entries
        ensures EntryMatch(e, VaddrToVpn(q.vaddr, q.mode), q.asid, q.mode) <==> Serves(e, q)
      {
        MatchIsServing(e, q);
      }
    }
  }

  /** The offset of a page has twelve bits and those of the levels below it; the sum is kept to six bits. */
  lemma ShiftIsOffset(mode: bv4, level: Level)
    requires RadixOf(mode).Some?
    ensures PageShift(mode, level) == (12 + level * RadixOf(mode).value.bits) % 64
  {
    Geometry(mode);
  }
}
