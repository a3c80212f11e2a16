/** The TLB as a cache of page tables: coherence over runs, and which fences restore it. */
module TlbCoherence {
  import opened Rv64Pkg
  import opened BitString
  import opened Tlb
  import opened PageTable
  import opened PageEdits
  import opened TlbArithmetic

  /** A cached page is the leaf its table has for it. */
  predicate IsLeafOf(t: Tables, p: Page) {
    Translates(p.mode) && WalkOf(t, p.mode, p.asid, VpnNum(p.mode, p.vpn)) == Some(Leaf(p.ppn, p.level, p.perms))
  }

  ghost predicate Coherent(t: Tables, entries: seq<Entry>) {
    forall e :: e in entries && e.valid ==> IsLeafOf(t, e.page)
  }

  /** A leaf of one of the given tables. */
  ghost predicate IsLeafOfAny(ts: seq<Tables>, p: Page) { exists k :: 0 <= k < |ts| && IsLeafOf(ts[k], p) }

  /** Every valid entry is a leaf of one of the given tables. */
  ghost predicate Within(ts: seq<Tables>, entries: seq<Entry>) {
    forall e :: e in entries && e.valid ==> IsLeafOfAny(ts, e.page)
  }

  /** A global leaf is the same in every address space. */
  ghost predicate GlobalsAgree(t: Tables) {
    forall mode, a, b, v ::
      Translates(mode) && InRange(mode, v) && WalkOf(t, mode, a, v).Some? && WalkOf(t, mode, a, v).value.perms.g
      ==> WalkOf(t, mode, b, v) == WalkOf(t, mode, a, v)
  }

  /** A page number taken from a port is in the range of its mode. */
  lemma VpnInRange(mode: bv4, vpn: bv64)
    ensures InRange(mode, VpnNum(mode, vpn))
  {
    hide Low, Pow2;
    VpnNumIsLow(mode, vpn);
    LowBound(vpn, VpnWidth(mode));
  }

  // Lookup

  lemma {:induction false} FirstMatchMatches(entries: seq<Entry>, vpn: bv64, asid: nat, mode: bv4)
    ensures var r := FirstMatch(entries, vpn, asid, mode);
      if r.Some? then exists e :: e in entries && EntryMatch(e, vpn, asid, mode) && e.page == r.value
      else forall e :: e in entries ==> !EntryMatch(e, vpn, asid, mode)
  {
    hide EntryMatch;
    if entries != [] {
      if EntryMatch(entries[0], vpn, asid, mode) {
        assert entries[0] in entries;
      } else {
        FirstMatchMatches(entries[1..], vpn, asid, mode);
        assert forall e :: e in entries ==> e == entries[0] || e in entries[1..];
      }
    }
  }

  /** Every match, not only the first, is the walk's leaf for the requested page. */
  lemma MatchIsWalk(t: Tables, e: Entry, vpn: bv64, asid: nat, mode: bv4)
    requires GlobalsAgree(t) && IsLeafOf(t, e.page) && EntryMatch(e, vpn, asid, mode)
    ensures WalkOf(t, mode, asid, VpnNum(mode, vpn)) == Some(Leaf(e.page.ppn, e.page.level, e.page.perms))
  {
    hide VpnNum, SameUnderMask, VpnMask, Walk, Pow2;
    var p := e.page;
    MaskMatchIsSamePage(mode, p.level, p.vpn, vpn);
    VpnInRange(mode, p.vpn);
    assert WalkOf(t, mode, asid, VpnNum(mode, p.vpn)) == WalkOf(t, mode, p.asid, VpnNum(mode, p.vpn));
    LeafServesPage(t(mode, asid), TopLevel(mode), VpnStride(mode), VpnNum(mode, p.vpn), VpnNum(mode, vpn));
  }

  function AccessOf(q: Req): AccessKind { if q.isFetch then Fetch else if q.isStore then Store else Load }

  lemma AllowIsPermitted(q: Req, p: Perms)
    requires !(q.isFetch && q.isStore)
    ensures AllowAccess(q.isFetch, q.isStore, q.priv == 0, q.sum, q.mxr, p)
         == Permitted(AccessOf(q), q.priv == 0, q.sum, q.mxr, p)
  {}

  /** What the page-table walk and the access rules say about a request. */
  ghost predicate AnsweredBy(t: Tables, q: Req, r: Resp) {
    match WalkOf(t, q.mode, q.asid, PageNumber(q.mode, Value(q.vaddr)))
    case Some(leaf) =>
      if Permitted(AccessOf(q), q.priv == 0, q.sum, q.mxr, leaf.perms)
      then r.hit && !r.pageFault && Value(r.paddr) == Translation(q.mode, leaf, Value(q.vaddr))
      else !r.hit && r.pageFault
    case None => false
  }

  /** The response to a matched page is the reference's answer. */
  lemma MatchAnswers(t: Tables, e: Entry, q: Req)
    requires GlobalsAgree(t) && IsLeafOf(t, e.page) && EntryMatch(e, VaddrToVpn(q.vaddr, q.mode), q.asid, q.mode)
    requires Translates(q.mode) && !(q.isFetch && q.isStore)
    ensures var r := Answer(q, Some(e.page)); r.valid && !r.needPtw && AnsweredBy(t, q, r)
  {
    hide EntryMatch, VaddrToVpn, VpnNum, PhysicalAddress, Walk, AllowAccess, Permitted, Translation, GlobalsAgree;
    hide PageNumber, Low;
    var vpn := VaddrToVpn(q.vaddr, q.mode);
    VpnIsPageNumber(q.mode, q.vaddr);
    MatchValid(e, vpn, q.asid, q.mode);
    MatchIsWalk(t, e, vpn, q.asid, q.mode);
    AllowIsPermitted(q, e.page.perms);
    AddressIsTranslation(e.page, q.vaddr);
  }

  /**
    With every valid entry a leaf of some table in ts, a request is answered as the reference walk of one of them
    answers it, or left to the walker; with one table, as the walk of that table.
   */
  lemma LookupIsWalk(ts: seq<Tables>, entries: seq<Entry>, q: Req)
    requires Within(ts, entries) && forall k :: 0 <= k < |ts| ==> GlobalsAgree(ts[k])
    requires q.valid && Translates(q.mode) && q.priv != 3 && !(q.isFetch && q.isStore)
    ensures var r := Respond(entries, q);
      r.valid && (r.needPtw || exists k :: 0 <= k < |ts| && AnsweredBy(ts[k], q, r))
  {
    hide EntryMatch, VaddrToVpn, IsLeafOf, GlobalsAgree, FirstMatch, Answer, AnsweredBy;
    FirstMatchMatches(entries, VaddrToVpn(q.vaddr, q.mode), q.asid, q.mode);
    var found := Found(entries, q);
    if found.Some? {
      var e :| e in entries && EntryMatch(e, VaddrToVpn(q.vaddr, q.mode), q.asid, q.mode) && e.page == found.value;
      MatchValid(e, VaddrToVpn(q.vaddr, q.mode), q.asid, q.mode);
      var k :| 0 <= k < |ts| && IsLeafOf(ts[k], e.page);
      MatchAnswers(ts[k], e, q);
    } else {
      NoMatchAsks(q);
    }
  }

  lemma NoMatchAsks(q: Req)
    ensures Answer(q, None).valid && Answer(q, None).needPtw
  {}

  lemma MatchValid(e: Entry, vpn: bv64, asid: nat, mode: bv4)
    requires EntryMatch(e, vpn, asid, mode)
    ensures e.valid && e.page.mode == mode
  {
    hide VpnMask, SameUnderMask;
  }

  // Fences

  /** What a fence covers, in terms of the page table: a leaf at a page number of one address space. */
  predicate Covers(f: Fence, mode: bv4, asid: nat, v: nat, leaf: Leaf) {
    f.all
    || ((f.asidValid || f.vpnValid)
        && (f.asidValid ==> !leaf.perms.g && asid == f.asid)
        && (f.vpnValid ==> mode == f.mode && SamePage(mode, leaf.level, v, VpnNum(mode, f.vpn))))
  }

  /** Every leaf that the edit from t to u removes or changes is covered by the fence. */
  ghost predicate EditCovered(t: Tables, u: Tables, f: Fence) {
    forall mode, asid, v ::
      Translates(mode) && InRange(mode, v)
      && WalkOf(t, mode, asid, v).Some? && WalkOf(u, mode, asid, v) != WalkOf(t, mode, asid, v)
      ==> Covers(f, mode, asid, v, WalkOf(t, mode, asid, v).value)
  }

  /** What the fence must name to cover an edit of the page of v, with leaf l, in the given spaces. */
  ghost predicate FenceNames(f: Fence, mode: bv4, spaces: Spaces, v: nat, l: Leaf) {
    f.all
    || ((f.asidValid || f.vpnValid)
        && (f.asidValid ==> !l.perms.g && forall a: nat :: spaces(a) ==> a == f.asid)
        && (f.vpnValid ==> f.mode == mode && SamePage(mode, l.level, v, VpnNum(mode, f.vpn))))
  }

  /**
    Each kind of fence covers the edits it is for. Replacing the entry of one page, superpage included, is covered
    by a fence of everything; of any page number in the page; of its address space, for a non-global leaf; or of
    both together.
   */
  lemma PageEditIsCovered(t: Tables, mode: bv4, spaces: Spaces, v: nat, l: Leaf, node: Node, f: Fence)
    requires Translates(mode) && InRange(mode, v)
    requires forall a: nat :: spaces(a) && WalkOf(t, mode, a, v).Some? ==> WalkOf(t, mode, a, v) == Some(l)
    requires FenceNames(f, mode, spaces, v, l)
    ensures EditCovered(t, EditPage(t, mode, spaces, v, node), f)
  {
    hide Walk, Pow2, EditPage, VpnNum, VpnWidth, FenceNames;
    var u := EditPage(t, mode, spaces, v, node);
    forall m, a, w |
      Translates(m) && InRange(m, w) && WalkOf(t, m, a, w).Some? && WalkOf(u, m, a, w) != WalkOf(t, m, a, w)
      ensures Covers(f, m, a, w, WalkOf(t, m, a, w).value)
    {
      EditIsLocal(t, mode, spaces, v, node, m, a, w);
      LeafServesPage(t(mode, a), TopLevel(mode), VpnStride(mode), v, w);
      NamedIsCovered(f, mode, spaces, v, l, a, w);
    }
  }

  lemma NamedIsCovered(f: Fence, mode: bv4, spaces: Spaces, v: nat, l: Leaf, a: nat, w: nat)
    requires FenceNames(f, mode, spaces, v, l) && spaces(a) && SamePage(mode, l.level, v, w)
    ensures Covers(f, mode, a, w, l)
  {
    hide Pow2, VpnNum;
  }

  /** The mask match of the fence logic selects exactly the covered entries, superpages included. */
  lemma SelectsIsCovers(f: Fence, p: Page)
    ensures Selects(f, p) <==> Covers(f, p.mode, p.asid, VpnNum(p.mode, p.vpn), Leaf(p.ppn, p.level, p.perms))
  {
    hide VpnNum, SameUnderMask, VpnMask, SamePage;
    MaskMatchIsSamePage(p.mode, p.level, p.vpn, f.vpn);
  }

  /** A fence without refill clears the covered entries and leaves every other entry as it was. */
  lemma FenceIsExact(s: State, f: Fence, r: Refill, i: nat)
    requires i < |s.entries| && !Accepted(r)
    ensures var e, d := s.entries[i], StateNext(s, f, r).entries[i];
      var p := e.page;
      if Covers(f, p.mode, p.asid, VpnNum(p.mode, p.vpn), Leaf(p.ppn, p.level, p.perms))
      then d == e.(valid := false) else d == e
  {
    hide VpnNum, SameUnderMask, VpnMask, SamePage, Selects, Covers;
    SelectsIsCovers(f, s.entries[i].page);
  }

  lemma SurvivorIsLeaf(t: Tables, u: Tables, f: Fence, p: Page)
    requires IsLeafOf(t, p) && EditCovered(t, u, f) && !Selects(f, p)
    ensures IsLeafOf(u, p)
  {
    hide VpnNum, Selects, Covers, Walk, InRange;
    SelectsIsCovers(f, p);
    VpnInRange(p.mode, p.vpn);
  }

  /** The fence covers the edit from each of the given tables to u. */
  ghost predicate AllCovered(ts: seq<Tables>, u: Tables, f: Fence) {
    forall k :: 0 <= k < |ts| ==> EditCovered(ts[k], u, f)
  }

  lemma FencedCoherent(ts: seq<Tables>, u: Tables, entries: seq<Entry>, f: Fence)
    requires Within(ts, entries) && AllCovered(ts, u, f)
    ensures Coherent(u, FencedAll(entries, f))
  {
    hide IsLeafOf, Selects, EditCovered;
    var r := FencedAll(entries, f);
    forall e | e in r && e.valid
      ensures IsLeafOf(u, e.page)
    {
      var i :| 0 <= i < |r| && r[i] == e;
      assert entries[i] in entries;
      var k :| 0 <= k < |ts| && IsLeafOf(ts[k], e.page);
      SurvivorIsLeaf(ts[k], u, f, e.page);
    }
  }

  /** The condition on a refill that lands with a fence: it survives the fence, so it must be from the new table. */
  predicate RefillIsCurrent(u: Tables, s: State, r: Refill) {
    Accepted(r) && s.ptr < |s.entries| ==> IsLeafOf(u, r.page)
  }

  /**
    Fence sufficiency: entries of any of the tables in ts, after a fence that covers the edits to u, are coherent
    with u exactly when a refill of the same cycle, if any, is a leaf of u.
   */
  lemma FenceSuffices(ts: seq<Tables>, u: Tables, s: State, f: Fence, r: Refill)
    requires Within(ts, s.entries) && AllCovered(ts, u, f)
    ensures Coherent(u, StateNext(s, f, r).entries) <==> RefillIsCurrent(u, s, r)
  {
    hide IsLeafOf, FencedAll, AllCovered, Within, Accepted, PointerRange;
    var fenced, next := FencedAll(s.entries, f), StateNext(s, f, r).entries;
    FencedCoherent(ts, u, s.entries, f);
    if Accepted(r) && s.ptr < |s.entries| {
      assert next == fenced[s.ptr := Entry(true, r.page)];
      assert next[s.ptr] in next;
      if IsLeafOf(u, r.page) {
        forall e | e in next && e.valid
          ensures IsLeafOf(u, e.page)
        {
          var i :| 0 <= i < |next| && next[i] == e;
          if i != s.ptr {
            assert fenced[i] in fenced;
          }
        }
      }
    }
  }

  // Runs

  /** One cycle of traffic, with the table in force from this cycle on. */
  datatype Traffic = Traffic(fence: Fence, refill: Refill, table: Tables)

  function RunTlb(n: nat, es: seq<Traffic>): State {
    if es == [] then ResetState(n)
    else StateNext(RunTlb(n, es[..|es| - 1]), es[|es| - 1].fence, es[|es| - 1].refill)
  }

  function TableAfter(t: Tables, es: seq<Traffic>): Tables { if es == [] then t else es[|es| - 1].table }

  /**
    The tables in force since the last fence that covered all edits before it: a table may be edited any number of
    cycles before its fence.
   */
  ghost function Pending(t: Tables, es: seq<Traffic>): (ts: seq<Tables>)
    ensures ts != [] && ts[|ts| - 1] == TableAfter(t, es)
  {
    if es == [] then [t]
    else
      var before, last := Pending(t, es[..|es| - 1]), es[|es| - 1];
      if AllCovered(before, last.table, last.fence) then [last.table] else before + [last.table]
  }

  /** The walker refills leaves of a table that was in force since that fence. */
  ghost predicate Disciplined(t: Tables, es: seq<Traffic>) {
    forall i | 0 < i <= |es| ::
      Accepted(es[i - 1].refill) ==> IsLeafOfAny(Pending(t, es[..i]), es[i - 1].refill.page)
  }

  lemma ResetWithin(ts: seq<Tables>, n: nat)
    ensures Within(ts, ResetState(n).entries)
  {
    hide IsLeafOf;
  }

  lemma OnlyOne(u: Tables, p: Page)
    ensures IsLeafOfAny([u], p) <==> IsLeafOf(u, p)
  {
    hide IsLeafOf;
    if IsLeafOf(u, p) {
      assert IsLeafOf([u][0], p);
    }
  }

  lemma CoherentIsWithin(u: Tables, entries: seq<Entry>)
    ensures Coherent(u, entries) <==> Within([u], entries)
  {
    hide IsLeafOf, IsLeafOfAny;
    forall e | e in entries
      ensures IsLeafOfAny([u], e.page) <==> IsLeafOf(u, e.page)
    {
      OnlyOne(u, e.page);
    }
  }

  /** Without a covering fence the new table joins those the entries may come from. */
  lemma WidensWithin(ts: seq<Tables>, u: Tables, s: State, f: Fence, r: Refill)
    requires Within(ts, s.entries) && (Accepted(r) ==> IsLeafOfAny(ts + [u], r.page))
    ensures Within(ts + [u], StateNext(s, f, r).entries)
  {
    hide IsLeafOf, Accepted, PointerRange, Selects;
    var next := StateNext(s, f, r).entries;
    forall e | e in next && e.valid
      ensures IsLeafOfAny(ts + [u], e.page)
    {
      var i :| 0 <= i < |next| && next[i] == e;
      if !(Accepted(r) && i == s.ptr) {
        assert s.entries[i] in s.entries && s.entries[i].page == e.page;
        var k :| 0 <= k < |ts| && IsLeafOf(ts[k], e.page);
        assert (ts + [u])[k] == ts[k];
      }
    }
  }

  /** Over every run, entries come from a table in force since the last fence that covered all edits. */
  lemma {:induction false} AlwaysWithin(t: Tables, n: nat, es: seq<Traffic>)
    requires Disciplined(t, es)
    ensures Within(Pending(t, es), RunTlb(n, es).entries)
  {
    hide IsLeafOfAny, AllCovered, Accepted, Within, StateNext, ResetState;
    if es == [] {
      ResetWithin([t], n);
    } else {
      var before, last := es[..|es| - 1], es[|es| - 1];
      assert es[..|es|] == es;
      assert forall i | 0 < i <= |before| :: before[..i] == es[..i];
      AlwaysWithin(t, n, before);
      var ts := Pending(t, before);
      if AllCovered(ts, last.table, last.fence) {
        OnlyOne(last.table, last.refill.page);
        FenceSuffices(ts, last.table, RunTlb(n, before), last.fence, last.refill);
        CoherentIsWithin(last.table, RunTlb(n, es).entries);
      } else {
        WidensWithin(ts, last.table, RunTlb(n, before), last.fence, last.refill);
      }
    }
  }

  /** Once a fence has covered all edits, the TLB is coherent with the table in force. */
  lemma AlwaysCoherent(t: Tables, n: nat, es: seq<Traffic>)
    requires Disciplined(t, es) && |Pending(t, es)| == 1
    ensures Coherent(TableAfter(t, es), RunTlb(n, es).entries)
  {
    hide Disciplined, RunTlb, Within, Coherent;
    AlwaysWithin(t, n, es);
    CoherentIsWithin(TableAfter(t, es), RunTlb(n, es).entries);
    assert Pending(t, es) == [TableAfter(t, es)];
  }

  /** In every run, a request the TLB answers by itself gets the answer of the walk of a table still pending. */
  lemma RunLookupIsWalk(t: Tables, n: nat, es: seq<Traffic>, q: Req)
    requires Disciplined(t, es) && forall k :: 0 <= k < |Pending(t, es)| ==> GlobalsAgree(Pending(t, es)[k])
    requires q.valid && Translates(q.mode) && q.priv != 3 && !(q.isFetch && q.isStore)
    ensures var r, ts := Respond(RunTlb(n, es).entries, q), Pending(t, es);
      r.valid && (r.needPtw || exists k :: 0 <= k < |ts| && AnsweredBy(ts[k], q, r))
  {
    hide GlobalsAgree, Disciplined, Respond, AnsweredBy, RunTlb, Within, Pending;
    AlwaysWithin(t, n, es);
    LookupIsWalk(Pending(t, es), RunTlb(n, es).entries, q);
  }

  // An edit and its fence

  lemma {:induction false} PendingFromTwo(t: Tables, u: Tables, es: seq<Traffic>, k: nat)
    requires forall i | 0 <= i < |es| :: es[i].table == t || es[i].table == u
    requires k < |Pending(t, es)|
    ensures Pending(t, es)[k] == t || Pending(t, es)[k] == u
    decreases |es|
  {
    hide AllCovered;
    if es != [] {
      var before := es[..|es| - 1];
      if k < |Pending(t, before)| {
        PendingFromTwo(t, u, before, k);
      }
    }
  }

  lemma NothingToCover(u: Tables, f: Fence)
    ensures EditCovered(u, u, f)
  {}

  /**
    A page is edited at some cycle, traffic goes on with refills from either table, and a fence that names the page
    follows: from then on the TLB is coherent with the edited table.
   */
  lemma EditThenFence(t: Tables, mode: bv4, spaces: Spaces, v: nat, l: Leaf, node: Node,
                      n: nat, es: seq<Traffic>, last: Traffic)
    requires Translates(mode) && InRange(mode, v)
    requires forall a: nat :: spaces(a) && WalkOf(t, mode, a, v).Some? ==> WalkOf(t, mode, a, v) == Some(l)
    requires last.table == EditPage(t, mode, spaces, v, node) && FenceNames(last.fence, mode, spaces, v, l)
    requires forall i | 0 <= i < |es| :: es[i].table == t || es[i].table == last.table
    requires Disciplined(t, es + [last])
    ensures Coherent(last.table, RunTlb(n, es + [last]).entries)
  {
    hide EditCovered, EditPage, WalkOf, FenceNames, Disciplined, RunTlb, Coherent, InRange;
    var u, all := last.table, es + [last];
    assert all[..|all| - 1] == es && all[|all| - 1] == last;
    PageEditIsCovered(t, mode, spaces, v, l, node, last.fence);
    NothingToCover(u, last.fence);
    forall k | 0 <= k < |Pending(t, es)|
      ensures EditCovered(Pending(t, es)[k], u, last.fence)
    {
      PendingFromTwo(t, u, es, k);
    }
    AlwaysCoherent(t, n, all);
  }

  /** A page that was unmapped and then fenced is never answered from the TLB again: the request goes to the walker. */
  lemma UnmappedPageAsks(t: Tables, mode: bv4, spaces: Spaces, v: nat, l: Leaf,
                         n: nat, es: seq<Traffic>, last: Traffic, q: Req)
    requires Translates(mode) && InRange(mode, v)
    requires forall a: nat :: spaces(a) && WalkOf(t, mode, a, v).Some? ==> WalkOf(t, mode, a, v) == Some(l)
    requires last.table == EditPage(t, mode, spaces, v, Fault) && FenceNames(last.fence, mode, spaces, v, l)
    requires forall i | 0 <= i < |es| :: es[i].table == t || es[i].table == last.table
    requires Disciplined(t, es + [last]) && GlobalsAgree(last.table)
    requires q.valid && q.mode == mode && q.priv != 3 && !(q.isFetch && q.isStore)
    requires spaces(q.asid) && WalkOf(t, mode, q.asid, v).Some?
    requires SamePage(mode, l.level, v, PageNumber(mode, Value(q.vaddr)))
    ensures Respond(RunTlb(n, es + [last]).entries, q).needPtw
  {
    hide EditPage, WalkOf, FenceNames, Disciplined, RunTlb, Coherent, Within, GlobalsAgree, Respond;
    hide InRange, PageNumber;
    var u, entries := last.table, RunTlb(n, es + [last]).entries;
    EditThenFence(t, mode, spaces, v, l, Fault, n, es, last);
    CoherentIsWithin(u, entries);
    LookupIsWalk([u], entries, q);
    EditInside(t, mode, spaces, v, Fault, q.asid, PageNumber(mode, Value(q.vaddr)));
  }

  /** A page that was remapped and then fenced is translated by its new entry or left to the walker. */
  lemma RemappedPageAnswers(t: Tables, mode: bv4, spaces: Spaces, v: nat, l: Leaf, ppn: Ppn, perms: Perms,
                            n: nat, es: seq<Traffic>, last: Traffic, q: Req)
    requires Translates(mode) && InRange(mode, v)
    requires forall a: nat :: spaces(a) && WalkOf(t, mode, a, v).Some? ==> WalkOf(t, mode, a, v) == Some(l)
    requires last.table == EditPage(t, mode, spaces, v, LeafNode(ppn, perms))
    requires FenceNames(last.fence, mode, spaces, v, l)
    requires forall i | 0 <= i < |es| :: es[i].table == t || es[i].table == last.table
    requires Disciplined(t, es + [last]) && GlobalsAgree(last.table)
    requires q.valid && q.mode == mode && q.priv != 3 && !(q.isFetch && q.isStore)
    requires spaces(q.asid) && WalkOf(t, mode, q.asid, v).Some?
    requires SamePage(mode, l.level, v, PageNumber(mode, Value(q.vaddr)))
    ensures var r := Respond(RunTlb(n, es + [last]).entries, q);
      r.needPtw
      || if Permitted(AccessOf(q), q.priv == 0, q.sum, q.mxr, perms)
         then r.hit && Value(r.paddr) == Translation(mode, Leaf(ppn, l.level, perms), Value(q.vaddr))
         else r.pageFault
  {
    hide EditPage, WalkOf, FenceNames, Disciplined, RunTlb, Coherent, Within, GlobalsAgree, Respond;
    hide InRange, PageNumber, Translation, Permitted;
    var u, entries := last.table, RunTlb(n, es + [last]).entries;
    EditThenFence(t, mode, spaces, v, l, LeafNode(ppn, perms), n, es, last);
    CoherentIsWithin(u, entries);
    LookupIsWalk([u], entries, q);
    EditInside(t, mode, spaces, v, LeafNode(ppn, perms), q.asid, PageNumber(mode, Value(q.vaddr)));
  }
}
