/** Editing one page of a table: the walk changes inside that page and nowhere else. */
module PageEdits {
  import opened Rv64Pkg
  import opened BitString
  import opened Tlb
  import opened PageTable

  /** The table with the entry that serves v replaced. */
  function Replace(table: seq<Node>, level: nat, stride: nat, v: nat, node: Node): seq<Node>
    requires Walk(table, level, stride, v).Some?
  {
    var d := Digit(v, stride, level);
    match table[d]
    case Table(children) => table[d := Table(Replace(children, level - 1, stride, v, node))]
    case _ => table[d := node]
  }

  /** Equal above a digit and in it is equal from it on. */
  lemma Recompose(v: nat, w: nat, stride: nat, level: nat)
    requires v / Pow2((level + 1) * stride) == w / Pow2((level + 1) * stride)
    requires Digit(v, stride, level) == Digit(w, stride, level)
    ensures v / Pow2(level * stride) == w / Pow2(level * stride)
  {
    hide Pow2;
    assert (level + 1) * stride == level * stride + stride;
    DivDiv(v, level * stride, stride);
    DivDiv(w, level * stride, stride);
    Quotient(v / Pow2(level * stride), Pow2(stride));
    Quotient(w / Pow2(level * stride), Pow2(stride));
  }

  /** Outside the page of v the walk is as before. */
  lemma {:induction false} ReplaceElsewhere(table: seq<Node>, level: nat, stride: nat, v: nat, w: nat, node: Node)
    requires Walk(table, level, stride, v).Some?
    requires v / Pow2((level + 1) * stride) == w / Pow2((level + 1) * stride)
    requires var l := Walk(table, level, stride, v).value.level; v / Pow2(l * stride) != w / Pow2(l * stride)
    ensures Walk(Replace(table, level, stride, v, node), level, stride, w) == Walk(table, level, stride, w)
    decreases level
  {
    hide Pow2, Digit;
    var d := Digit(v, stride, level);
    if Digit(w, stride, level) == d {
      Recompose(v, w, stride, level);
      ReplaceElsewhere(table[d].children, level - 1, stride, v, w, node);
    }
  }

  /** What the walk makes of an entry at the given level. */
  function LeafAt(node: Node, level: nat): Option<Leaf>
    requires !node.Table?
  {
    match node case Fault => None case LeafNode(ppn, perms) => Some(Leaf(ppn, level, perms))
  }

  /** After the edit, the whole page has the new entry. */
  lemma {:induction false} ReplaceInside(table: seq<Node>, level: nat, stride: nat, v: nat, w: nat, node: Node)
    requires !node.Table? && Walk(table, level, stride, v).Some?
    requires var l := Walk(table, level, stride, v).value.level; v / Pow2(l * stride) == w / Pow2(l * stride)
    ensures Walk(Replace(table, level, stride, v, node), level, stride, w)
         == LeafAt(node, Walk(table, level, stride, v).value.level)
    decreases level
  {
    hide Pow2, Digit;
    var d := Digit(v, stride, level);
    SameDigit(v, w, stride, Walk(table, level, stride, v).value.level, level);
    if table[d].Table? {
      ReplaceInside(table[d].children, level - 1, stride, v, w, node);
    }
  }

  /** A set of address spaces. */
  type Spaces = nat -> bool

  /** In each of the given spaces, the entry that serves v replaced. */
  function EditPage(t: Tables, mode: bv4, spaces: Spaces, v: nat, node: Node): Tables {
    (m: bv4, a: nat) =>
      if m == mode && spaces(a) && WalkOf(t, mode, a, v).Some? then
        Replace(t(m, a), TopLevel(mode), VpnStride(mode), v, node)
      else t(m, a)
  }

  lemma ModeDigits(mode: bv4)
    requires Translates(mode)
    ensures (TopLevel(mode) + 1) * VpnStride(mode) == VpnWidth(mode)
  {}

  lemma SmallQuotient(v: nat, p: nat)
    requires v < p
    ensures v / p == 0
  {}

  /** The walk of an edited table differs only inside the page of v, in the given spaces. */
  lemma EditIsLocal(t: Tables, mode: bv4, spaces: Spaces, v: nat, node: Node, m: bv4, a: nat, w: nat)
    requires Translates(m) && InRange(m, w) && InRange(mode, v)
    requires WalkOf(EditPage(t, mode, spaces, v, node), m, a, w) != WalkOf(t, m, a, w)
    ensures m == mode && spaces(a) && WalkOf(t, mode, a, v).Some?
    ensures SamePage(mode, WalkOf(t, mode, a, v).value.level, v, w)
  {
    hide Pow2, Digit, Walk, Replace;
    if m == mode && spaces(a) && WalkOf(t, mode, a, v).Some? {
      var top, stride := TopLevel(mode), VpnStride(mode);
      if !SamePage(mode, WalkOf(t, mode, a, v).value.level, v, w) {
        ModeDigits(mode);
        SmallQuotient(v, Pow2(VpnWidth(mode)));
        SmallQuotient(w, Pow2(VpnWidth(mode)));
        ReplaceElsewhere(t(m, a), top, stride, v, w, node);
      }
    }
  }

  /** Inside the page the walk finds the new entry, at the level of the old one. */
  lemma EditInside(t: Tables, mode: bv4, spaces: Spaces, v: nat, node: Node, a: nat, w: nat)
    requires !node.Table? && spaces(a) && WalkOf(t, mode, a, v).Some?
    requires SamePage(mode, WalkOf(t, mode, a, v).value.level, v, w)
    ensures WalkOf(EditPage(t, mode, spaces, v, node), mode, a, w)
         == LeafAt(node, WalkOf(t, mode, a, v).value.level)
  {
    hide Walk, Replace, Pow2;
    ReplaceInside(t(mode, a), TopLevel(mode), VpnStride(mode), v, w, node);
  }
}
