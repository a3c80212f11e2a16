/** The translation look-aside buffer: lookup, fences, refill. */
module Tlb {
  import opened Rv64Pkg
  import opened BitString

  const MODE_BARE: bv4 := 0
  const MODE_SV32: bv4 := 1
  const MODE_SV48: bv4 := 9
  const MODE_SV57: bv4 := 10

  predicate IsSupportedMode(mode: bv4) {
    mode == MODE_BARE || mode == MODE_SV32 || mode == MODE_SV48 || mode == MODE_SV57
  }

  function VpnWidth(mode: bv4): (n: nat)
    ensures n <= 45
  {
    if mode == MODE_SV32 then 20 else if mode == MODE_SV48 then 36 else if mode == MODE_SV57 then 45 else 0
  }

  function VpnStride(mode: bv4): nat {
    if mode == MODE_SV32 then 10 else if mode == MODE_SV48 || mode == MODE_SV57 then 9 else 0
  }

  type Level = n: nat | n < 8

  /** A 44-bit physical page number. */
  type Ppn = p: bv64 | p & 0xFFFF_F000_0000_0000 == 0

  datatype Perms = Perms(g: bool, u: bool, r: bool, w: bool, x: bool, a: bool, d: bool)

  /** A cached leaf: its key, its page number and level, its permission bits. */
  datatype Page = Page(mode: bv4, asid: nat, vpn: bv64, ppn: Ppn, level: Level, perms: Perms)

  datatype Entry = Entry(valid: bool, page: Page)

  const RESET_ENTRY := Entry(false, Page(MODE_BARE, 0, 0, 0, 0, Perms(false, false, false, false, false, false, false)))

  // Match

  /** Bits lo to hi - 1. */
  function MaskRange(lo: nat, hi: nat): bv64 {
    if hi <= lo then 0 else Or(MaskRange(lo, hi - 1), OneAt(hi - 1))
  }

  /** The bits of a virtual page number that a page of the given level distinguishes. */
  function VpnMask(mode: bv4, level: Level): bv64 { MaskRange(level * VpnStride(mode), VpnWidth(mode)) }

  predicate SameUnderMask(x: bv64, y: bv64, mask: bv64) { And(Xor(x, y), mask) == 0 }

  predicate EntryMatch(e: Entry, vpn: bv64, asid: nat, mode: bv4) {
    e.valid && e.page.mode == mode && (e.page.perms.g || e.page.asid == asid)
    && SameUnderMask(e.page.vpn, vpn, VpnMask(e.page.mode, e.page.level))
  }

  function VaddrToVpn(vaddr: bv64, mode: bv4): bv64 {
    if mode == MODE_SV32 then (vaddr >> 12) & 0xF_FFFF
    else if mode == MODE_SV48 then (vaddr >> 12) & 0xF_FFFF_FFFF
    else if mode == MODE_SV57 then (vaddr >> 12) & 0x1FFF_FFFF_FFFF
    else 0
  }

  // Permission and address

  predicate AllowAccess(isFetch: bool, isStore: bool, user: bool, sum: bool, mxr: bool, p: Perms) {
    var isLoad := !isFetch && !isStore;
    var readable := p.r || (mxr && p.x);
    var privOk := if p.u then (if user then true else !isFetch && sum) else !user;
    p.a && privOk && ((isFetch && p.x) || (isStore && p.w && p.d) || (isLoad && readable))
  }

  /** Six bits wide. */
  function PageShift(mode: bv4, level: Level): (s: nat)
    ensures s < 64
  {
    (12 + level * VpnStride(mode)) % 64
  }

  function PpnBase(ppn: Ppn): bv64 { ppn << 12 }

  function PhysicalAddress(page: Page, vaddr: bv64): bv64 {
    var lowMask := LowMask(PageShift(page.mode, page.level));
    Or(And(PpnBase(page.ppn), Not(lowMask)), And(vaddr, lowMask))
  }

  // Lookup

  datatype Req = Req(
    valid: bool, vaddr: bv64, asid: nat, mode: bv4, priv: bv2, isFetch: bool, isStore: bool, sum: bool, mxr: bool)

  datatype Resp = Resp(valid: bool, hit: bool, paddr: bv64, pageFault: bool, needPtw: bool)

  /** The matching entry of the lowest index. */
  function FirstMatch(entries: seq<Entry>, vpn: bv64, asid: nat, mode: bv4): Option<Page> {
    if entries == [] then None
    else if EntryMatch(entries[0], vpn, asid, mode) then Some(entries[0].page)
    else FirstMatch(entries[1..], vpn, asid, mode)
  }

  /** Bare mode and M mode bypass translation. */
  predicate Bypasses(q: Req) { q.mode == MODE_BARE || q.priv == 3 }

  function Found(entries: seq<Entry>, q: Req): Option<Page> {
    FirstMatch(entries, VaddrToVpn(q.vaddr, q.mode), q.asid, q.mode)
  }

  function Answer(q: Req, found: Option<Page>): Resp {
    match found
    case Some(page) =>
      if AllowAccess(q.isFetch, q.isStore, q.priv == 0, q.sum, q.mxr, page.perms)
      then Resp(true, true, PhysicalAddress(page, q.vaddr), false, false)
      else Resp(true, false, q.vaddr, true, false)
    case None => Resp(true, false, q.vaddr, false, true)
  }

  function Respond(entries: seq<Entry>, q: Req): Resp {
    if !q.valid then Resp(false, false, q.vaddr, false, false)
    else if !IsSupportedMode(q.mode) then Resp(true, false, q.vaddr, true, false)
    else if Bypasses(q) then Resp(true, true, q.vaddr, false, false)
    else Answer(q, Found(entries, q))
  }

  // Invalidation and refill

  datatype Fence = Fence(all: bool, asidValid: bool, asid: nat, vpnValid: bool, vpn: bv64, mode: bv4)

  /** Whether a fence selects an entry; an ASID fence spares global entries. */
  predicate Selects(f: Fence, p: Page) {
    f.all
    || ((f.asidValid || f.vpnValid)
        && (f.asidValid ==> !p.perms.g && p.asid == f.asid)
        && (f.vpnValid ==> p.mode == f.mode && SameUnderMask(p.vpn, f.vpn, VpnMask(p.mode, p.level))))
  }

  function Fenced(e: Entry, f: Fence): Entry { if Selects(f, e.page) then e.(valid := false) else e }

  function FencedAll(entries: seq<Entry>, f: Fence): (r: seq<Entry>)
    ensures |r| == |entries|
  {
    seq(|entries|, i requires 0 <= i < |entries| => Fenced(entries[i], f))
  }

  datatype Refill = Refill(valid: bool, page: Page)

  predicate Accepted(r: Refill) { r.valid && IsSupportedMode(r.page.mode) && r.page.mode != MODE_BARE }

  /**
    Range of the replacement pointer: the least power of two that is not below n. For a single entry the declared
    range is [-1:0], which is two bits wide.
   */
  function PointerRange(n: nat): (r: nat)
    ensures r > 0 && r >= n
  {
    if n <= 1 then 4 else DoubledTo(1, n)
  }

  function DoubledTo(p: nat, n: nat): (r: nat)
    requires p > 0
    ensures r >= p && r >= n
    decreases n - p
  {
    if p >= n then p else DoubledTo(2 * p, n)
  }

  datatype State = State(entries: seq<Entry>, ptr: nat)

  function ResetState(n: nat): State { State(seq(n, i => RESET_ENTRY), 0) }

  /** A fence acts first; a refill in the same cycle survives it. A pointer past the last entry writes nothing. */
  function StateNext(s: State, f: Fence, r: Refill): State {
    var fenced := FencedAll(s.entries, f);
    if Accepted(r) then
      State(if s.ptr < |fenced| then fenced[s.ptr := Entry(true, r.page)] else fenced,
            (s.ptr + 1) % PointerRange(|s.entries|))
    else State(fenced, s.ptr)
  }

  /** The buffer as it is clocked. */
  class Buffer {
    const entries: array<Entry>
    var replPtr: nat

    constructor (n: nat)
      ensures fresh(entries) && Value() == ResetState(n)
    {
      entries := new Entry[n](i => RESET_ENTRY);
      replPtr := 0;
      new;
      assert entries[..] == ResetState(n).entries;
    }

    function Value(): State
      reads this, entries
    {
      State(entries[..], replPtr)
    }

    /** The mask loop. */
    static method MakeVpnMask(mode: bv4, level: Level) returns (mask: bv64)
      ensures mask == VpnMask(mode, level)
    {
      hide Or, OneAt;
      mask := 0;
      var width, ignored := VpnWidth(mode), level * VpnStride(mode);
      if width > 0 {
        var i := ignored;
        while i < width
          invariant ignored <= i && (i <= width || i == ignored)
          invariant mask == MaskRange(ignored, i)
        {
          mask := Or(mask, OneAt(i));
          i := i + 1;
        }
      }
    }

    /** The lookup loop keeps the first match. */
    method Translate(q: Req) returns (resp: Resp)
      ensures resp == Respond(entries[..], q)
    {
      hide EntryMatch, VaddrToVpn, AllowAccess, PhysicalAddress;
      if !q.valid {
        return Resp(false, false, q.vaddr, false, false);
      }
      if !IsSupportedMode(q.mode) {
        return Resp(true, false, q.vaddr, true, false);
      }
      if Bypasses(q) {
        return Resp(true, true, q.vaddr, false, false);
      }
      var vpn := VaddrToVpn(q.vaddr, q.mode);
      var found: Option<Page> := None;
      for k := 0 to entries.Length
        invariant FirstMatch(entries[..], vpn, q.asid, q.mode)
               == if found.Some? then found else FirstMatch(entries[k..], vpn, q.asid, q.mode)
      {
        if found.None? && EntryMatch(entries[k], vpn, q.asid, q.mode) {
          found := Some(entries[k].page);
        }
        assert entries[k..][1..] == entries[k + 1..];
      }
      match found
      case Some(page) =>
        if !AllowAccess(q.isFetch, q.isStore, q.priv == 0, q.sum, q.mxr, page.perms) {
          resp := Resp(true, false, q.vaddr, true, false);
        } else {
          resp := Resp(true, true, PhysicalAddress(page, q.vaddr), false, false);
        }
      case None =>
        resp := Resp(true, false, q.vaddr, false, true);
    }

    method FenceEntries(f: Fence)
      modifies entries
      ensures entries[..] == FencedAll(old(entries[..]), f)
    {
      hide Selects;
      for i := 0 to entries.Length
        invariant forall j :: 0 <= j < i ==> entries[j] == Fenced(old(entries[j]), f)
        invariant forall j :: i <= j < entries.Length ==> entries[j] == old(entries[j])
      {
        if Selects(f, entries[i].page) {
          entries[i] := entries[i].(valid := false);
        }
      }
    }

    method Clock(rst: bool, f: Fence, r: Refill)
      modifies this, entries
      ensures Value() == if rst then ResetState(entries.Length) else StateNext(old(Value()), f, r)
    {
      hide Selects, IsSupportedMode, PointerRange;
      if rst {
        replPtr := 0;
        for i := 0 to entries.Length
          modifies entries
          invariant forall j :: 0 <= j < i ==> entries[j] == RESET_ENTRY
        {
          entries[i] := RESET_ENTRY;
        }
        assert entries[..] == ResetState(entries.Length).entries;
      } else {
        FenceEntries(f);
        if Accepted(r) {
          if replPtr < entries.Length {
            entries[replPtr] := Entry(true, r.page);
          }
          replPtr := (replPtr + 1) % PointerRange(entries.Length);
        }
      }
    }
  }
}
