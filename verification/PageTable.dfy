/**
  Radix page tables and their walk: the reference for the TLB.
  RISC-V Privileged ISA 20211203, sections 4.3 to 4.6.
 */
module PageTable {
  import opened Rv64Pkg
  import opened BitString
  import opened Tlb

  datatype Node = Fault | LeafNode(ppn: Ppn, perms: Perms) | Table(children: seq<Node>)

  datatype Leaf = Leaf(ppn: Ppn, level: nat, perms: Perms)

  /** A page table for every mode and address space. */
  type Tables = (bv4, nat) -> seq<Node>

  predicate Translates(mode: bv4) { mode == MODE_SV32 || mode == MODE_SV48 || mode == MODE_SV57 }

  /** The level of the root: two, four or five levels in all. */
  function TopLevel(mode: bv4): nat {
    if mode == MODE_SV32 then 1 else if mode == MODE_SV48 then 3 else if mode == MODE_SV57 then 4 else 0
  }

  /** VPN[level], counted in digits of `stride` bits. */
  function Digit(vpn: nat, stride: nat, level: nat): nat { vpn / Pow2(level * stride) % Pow2(stride) }

  function Walk(table: seq<Node>, level: nat, stride: nat, vpn: nat): (r: Option<Leaf>)
    ensures r.Some? ==> r.value.level <= level
  {
    var d := Digit(vpn, stride, level);
    if d >= |table| then None
    else match table[d]
      case Fault => None
      case LeafNode(ppn, perms) => Some(Leaf(ppn, level, perms))
      case Table(children) => if level == 0 then None else Walk(children, level - 1, stride, vpn)
  }

  function WalkOf(t: Tables, mode: bv4, asid: nat, vpn: nat): (r: Option<Leaf>)
    ensures r.Some? ==> r.value.level <= TopLevel(mode)
  {
    Walk(t(mode, asid), TopLevel(mode), VpnStride(mode), vpn)
  }

  /** A page number of the mode. */
  predicate InRange(mode: bv4, v: nat) { v < Pow2(VpnWidth(mode)) }

  /** Both numbers lie in the same page of the given level. */
  predicate SamePage(mode: bv4, level: nat, v: nat, w: nat) {
    v / Pow2(level * VpnStride(mode)) == w / Pow2(level * VpnStride(mode))
  }

  // A leaf serves its whole page

  lemma DivDiv(v: nat, a: nat, b: nat)
    ensures v / Pow2(a + b) == v / Pow2(a) / Pow2(b)
  {
    hide Pow2;
    Pow2Add(a, b);
    DivProduct(v, Pow2(a), Pow2(b));
  }

  lemma DivProduct(v: nat, p: nat, q: nat)
    requires p > 0 && q > 0
    ensures p * q > 0 && v / (p * q) == v / p / q
  {
    Quotient(v, p);
    Quotient(v / p, q);
    Regroup(p, q, v / p / q, v / p % q, v % p);
    DivMod(v % p + p * (v / p % q), v / p / q, p * q, v);
  }

  lemma Quotient(v: nat, p: nat)
    requires p > 0
    ensures v == v % p + p * (v / p) && v % p < p
  {}

  lemma Regroup(p: nat, q: nat, y: nat, r: nat, low: nat)
    requires low < p && r < q
    ensures low + p * (r + q * y) == (low + p * r) + (p * q) * y
    ensures low + p * r < p * q && p * q > 0
  {
    assert p * (r + q * y) == p * r + (p * q) * y;
    assert p * r <= p * (q - 1);
  }

  lemma SameDigit(v: nat, w: nat, stride: nat, low: nat, level: nat)
    requires low <= level && v / Pow2(low * stride) == w / Pow2(low * stride)
    ensures Digit(v, stride, level) == Digit(w, stride, level)
  {
    assert level * stride == low * stride + (level - low) * stride;
    DivDiv(v, low * stride, (level - low) * stride);
    DivDiv(w, low * stride, (level - low) * stride);
  }

  /** A page number in the same page finds the same leaf. */
  lemma {:induction false} LeafServesPage(table: seq<Node>, level: nat, stride: nat, v: nat, w: nat)
    requires Walk(table, level, stride, v).Some?
    requires var l := Walk(table, level, stride, v).value.level; v / Pow2(l * stride) == w / Pow2(l * stride)
    ensures Walk(table, level, stride, w) == Walk(table, level, stride, v)
    decreases level
  {
    hide Pow2, Digit;
    var l := Walk(table, level, stride, v).value.level;
    SameDigit(v, w, stride, l, level);
    if table[Digit(v, stride, level)].Table? {
      LeafServesPage(table[Digit(v, stride, level)].children, level - 1, stride, v, w);
    }
  }

  // The verdict of the reference

  datatype AccessKind = Fetch | Load | Store

  /** U pages need U mode, or SUM for a supervisor data access; MXR makes executable pages loadable. */
  predicate Permitted(access: AccessKind, user: bool, sum: bool, mxr: bool, p: Perms) {
    p.a
    && (if user then p.u else !p.u || (sum && !access.Fetch?))
    && match access
       case Fetch => p.x
       case Load => p.r || (mxr && p.x)
       case Store => p.w && p.d
  }

  /** v rounded down to a multiple of size. */
  function Floor(v: nat, size: nat): (r: nat)
    requires size > 0
  {
    RemainderFits(v, size);
    v - v % size
  }

  lemma RemainderFits(v: nat, size: nat)
    requires size > 0
    ensures v % size <= v
  {
    if v < size {
    } else {
      assert v % size < size;
    }
  }

  /** The offset within the page comes from the virtual address, the rest from the leaf. */
  function Translation(mode: bv4, leaf: Leaf, vaddr: nat): nat {
    var size := Pow2(12 + leaf.level * VpnStride(mode));
    Floor(Value(leaf.ppn) * 4096, size) + vaddr % size
  }

  /** The page number of a virtual address. */
  function PageNumber(mode: bv4, vaddr: nat): nat { vaddr / 4096 % Pow2(VpnWidth(mode)) }
}
