/** Replacement: with a power of two of entries, at least two, the TLB is a bounded queue of its refills. */
module TlbFifo {
  import opened Rv64Pkg
  import opened BitString
  import opened Tlb
  import opened PageTable
  import opened TlbCoherence
  import opened TlbHits

  // The pointer

  ghost predicate PowerOfTwo(n: nat) { exists k: nat :: n == Pow2(k) }

  lemma {:induction false} DoublingReaches(j: nat, k: nat)
    requires j <= k
    ensures DoubledTo(Pow2(j), Pow2(k)) == Pow2(k)
    decreases k - j
  {
    if j < k {
      Pow2Strict(j, k);
      DoublingReaches(j + 1, k);
    }
  }

  lemma {:induction false} Pow2Strict(j: nat, k: nat)
    requires j < k
    ensures Pow2(j) < Pow2(k)
    decreases k
  {
    if j < k - 1 {
      Pow2Strict(j, k - 1);
    }
  }

  lemma {:induction false} DoublingIsPower(j: nat, n: nat)
    ensures PowerOfTwo(DoubledTo(Pow2(j), n))
    decreases n - Pow2(j)
  {
    if Pow2(j) < n {
      assert Pow2(j + 1) == 2 * Pow2(j);
      DoublingIsPower(j + 1, n);
    }
  }

  /** A size for which the pointer has just the range of the entries. */
  ghost predicate QueueSize(n: nat) { n >= 2 && PowerOfTwo(n) }

  /** The pointer wraps at the number of entries exactly for powers of two above one. */
  lemma RangeIsExact(n: nat)
    ensures PointerRange(n) == n <==> QueueSize(n)
  {
    assert Pow2(0) == 1;
    DoublingIsPower(0, n);
    if QueueSize(n) {
      var k: nat :| n == Pow2(k);
      DoublingReaches(0, k);
    }
  }

  lemma {:induction false} DoublingIsTight(p: nat, n: nat)
    requires 0 < p < n
    ensures n <= DoubledTo(p, n) < 2 * n
    decreases n - p
  {
    if 2 * p < n {
      DoublingIsTight(2 * p, n);
    }
  }

  /** The pointer counts to the least power of two that is not below the number of entries, and to 4 for one entry. */
  lemma RangeIsLeastPower(n: nat)
    requires n > 0
    ensures if n == 1 then PointerRange(n) == 4
            else PowerOfTwo(PointerRange(n)) && n <= PointerRange(n) < 2 * n
  {
    hide DoubledTo;
    assert Pow2(0) == 1;
    DoublingIsPower(0, n);
    if n > 1 {
      DoublingIsTight(1, n);
    }
  }

  // The queue

  /** Entries from the oldest slot to the newest. */
  function Queue(s: State): seq<Entry>
    requires s.ptr < |s.entries|
  {
    s.entries[s.ptr..] + s.entries[..s.ptr]
  }

  /** A bounded queue: a refill drops the oldest slot and joins at the end. */
  function QueueNext(q: seq<Entry>, f: Fence, r: Refill): seq<Entry>
    requires q != []
  {
    if Accepted(r) then FencedAll(q, f)[1..] + [Entry(true, r.page)] else FencedAll(q, f)
  }

  /** Replacing slot k and moving the pointer past it drops the oldest and appends. */
  lemma Rotated<T>(e: seq<T>, k: nat, x: T)
    requires k < |e|
    ensures var d, next := e[k := x], if k + 1 < |e| then k + 1 else 0;
      d[next..] + d[..next] == (e[k..] + e[..k])[1..] + [x]
  {
    var d := e[k := x];
    assert (e[k..] + e[..k])[1..] == e[k + 1..] + e[..k];
    assert e[k + 1..] + e[..k] + [x] == e[k + 1..] + (e[..k] + [x]);
    assert d[..k + 1] == e[..k] + [x];
    if k + 1 < |e| {
      assert d[k + 1..] == e[k + 1..];
    } else {
      assert d[0..] + d[..0] == d[..k + 1];
    }
  }

  lemma SuffixAppended<T>(g: seq<T>, n: nat, x: T)
    requires 0 < n <= |g|
    ensures g[|g| - n..][1..] + [x] == (g + [x])[|g| + 1 - n..]
  {}

  lemma FencedQueue(e: seq<Entry>, k: nat, f: Fence)
    requires k <= |e|
    ensures FencedAll(e[k..] + e[..k], f) == FencedAll(e, f)[k..] + FencedAll(e, f)[..k]
    ensures FencedAll(e[k..], f) == FencedAll(e, f)[k..]
  {
    hide Fenced;
  }

  lemma QueueStep(s: State, f: Fence, r: Refill)
    requires QueueSize(|s.entries|) && s.ptr < |s.entries|
    ensures var d := StateNext(s, f, r);
      |d.entries| == |s.entries| && d.ptr < |d.entries| && Queue(d) == QueueNext(Queue(s), f, r)
  {
    hide Accepted, FencedAll, PointerRange, QueueSize;
    RangeIsExact(|s.entries|);
    var n, k, e := |s.entries|, s.ptr, FencedAll(s.entries, f);
    FencedQueue(s.entries, k, f);
    if Accepted(r) {
      Rotated(e, k, Entry(true, r.page));
      Wraps(k, n);
    }
  }

  lemma Wraps(k: nat, n: nat)
    requires k < n
    ensures (k + 1) % n == if k + 1 < n then k + 1 else 0
  {}

  /** Every accepted refill in order, behind the reset entries, each cleared by any later fence that selects it. */
  function History(n: nat, es: seq<Traffic>): (h: seq<Entry>)
    ensures |h| >= n
  {
    if es == [] then seq(n, i => RESET_ENTRY)
    else
      var before := FencedAll(History(n, es[..|es| - 1]), es[|es| - 1].fence);
      if Accepted(es[|es| - 1].refill) then before + [Entry(true, es[|es| - 1].refill.page)] else before
  }

  /** The entries are exactly the last n of the history: min(n, refills) refills minus those fenced since. */
  lemma {:induction false} QueueIsHistory(n: nat, es: seq<Traffic>)
    requires QueueSize(n)
    ensures var s, h := RunTlb(n, es), History(n, es);
      |s.entries| == n && s.ptr < n && Queue(s) == h[|h| - n..]
  {
    hide QueueSize, Accepted, FencedAll, StateNext, Queue;
    SizeIsPositive(n);
    if es == [] {
      EmptyQueue(n);
    }
    if es != [] {
      var before, last := es[..|es| - 1], es[|es| - 1];
      var g := History(n, before);
      QueueIsHistory(n, before);
      QueueStep(RunTlb(n, before), last.fence, last.refill);
      FencedQueue(g, |g| - n, last.fence);
      if Accepted(last.refill) {
        SuffixAppended(FencedAll(g, last.fence), n, Entry(true, last.refill.page));
      }
    }
  }

  lemma EmptyQueue(n: nat)
    requires n > 0
    ensures Queue(ResetState(n)) == ResetState(n).entries
  {}

  lemma SizeIsPositive(n: nat)
    requires QueueSize(n)
    ensures n > 0
  {}

  // A refilled page stays

  function RunFrom(s: State, es: seq<Traffic>): State {
    if es == [] then s else StateNext(RunFrom(s, es[..|es| - 1]), es[|es| - 1].fence, es[|es| - 1].refill)
  }

  function Refills(es: seq<Traffic>): nat {
    if es == [] then 0 else Refills(es[..|es| - 1]) + if Accepted(es[|es| - 1].refill) then 1 else 0
  }

  predicate NeverFenced(p: Page, es: seq<Traffic>) {
    forall i | 0 <= i < |es| :: !Selects(es[i].fence, p)
  }

  /** An entry no fence selects moves one place forward with every accepted refill. */
  lemma MovesForward(q: seq<Entry>, f: Fence, r: Refill, p: Page, i: nat)
    requires i < |q| && q[i] == Entry(true, p) && !Selects(f, p) && (Accepted(r) ==> i > 0)
    ensures QueueNext(q, f, r)[if Accepted(r) then i - 1 else i] == Entry(true, p)
  {
    hide Accepted, Selects;
    assert FencedAll(q, f)[i] == Entry(true, p);
  }

  lemma {:induction false} StaysQueued(s: State, es: seq<Traffic>, p: Page, i: nat)
    requires QueueSize(|s.entries|) && s.ptr < |s.entries|
    requires Refills(es) <= i < |s.entries| && Queue(s)[i] == Entry(true, p) && NeverFenced(p, es)
    ensures var d := RunFrom(s, es);
      |d.entries| == |s.entries| && d.ptr < |d.entries| && Queue(d)[i - Refills(es)] == Entry(true, p)
  {
    hide QueueSize, Accepted, Selects, StateNext, QueueNext;
    if es != [] {
      var before, last := es[..|es| - 1], es[|es| - 1];
      assert forall j | 0 <= j < |before| :: before[j] == es[j];
      StaysQueued(s, before, p, i);
      hide Queue;
      var u := RunFrom(s, before);
      QueueStep(u, last.fence, last.refill);
      MovesForward(Queue(u), last.fence, last.refill, p, i - Refills(before));
    }
  }

  /**
    After an accepted refill, a request in the page, or in any address space if the page is global, is answered
    without a walk until a fence selects the page or as many further refills as there are entries have been accepted.
   */
  lemma RefilledPageAnswers(s: State, f: Fence, r: Refill, es: seq<Traffic>, q: Req)
    requires QueueSize(|s.entries|) && s.ptr < |s.entries| && r.valid && Serves(Entry(true, r.page), q)
    requires Refills(es) < |s.entries| && NeverFenced(r.page, es)
    ensures var resp := Respond(RunFrom(StateNext(s, f, r), es).entries, q);
      !resp.needPtw && (q.valid ==> resp.hit || resp.pageFault)
  {
    hide QueueSize, Accepted, Selects, StateNext, RunFrom, Respond, Serves, NeverFenced, Refills;
    ServesTranslates(Entry(true, r.page), q);
    AcceptedExactly(r);
    QueueStep(s, f, r);
    var n := |s.entries|;
    StaysQueued(StateNext(s, f, r), es, r.page, n - 1);
    var d := RunFrom(StateNext(s, f, r), es);
    assert Entry(true, r.page) in d.entries by {
      assert Queue(d)[n - 1 - Refills(es)] in Queue(d);
    }
    LookupDecides(d.entries, q);
  }

  // Other sizes

  lemma {:induction false} PointerCounts(n: nat, es: seq<Traffic>)
    requires Refills(es) < PointerRange(n)
    ensures RunTlb(n, es).ptr == Refills(es) && |RunTlb(n, es).entries| == n
  {
    hide PointerRange, Accepted, FencedAll;
    if es != [] {
      PointerCounts(n, es[..|es| - 1]);
      if Refills(es) > 0 {
        SmallMod(Refills(es), PointerRange(n));
      }
    }
  }

  lemma SmallMod(a: nat, b: nat)
    requires a < b
    ensures a % b == a
  {}

  /** For any other size, one included, the refill after the first n is dropped and its page needs a walk. */
  lemma OtherSizesDropRefills(n: nat, es: seq<Traffic>, f: Fence, r: Refill)
    requires !QueueSize(n) && Refills(es) == n && Accepted(r)
    ensures StateNext(RunTlb(n, es), f, r).entries == FencedAll(RunTlb(n, es).entries, f)
  {
    hide QueueSize, Accepted, FencedAll, PointerRange;
    RangeIsExact(n);
    assert PointerRange(n) >= n;
    PointerCounts(n, es);
  }

  const NO_FENCE := Fence(false, false, 0, false, 0, MODE_BARE)

  /** k accepted refills. */
  function Filler(k: nat, t: Tables): (es: seq<Traffic>)
    ensures Refills(es) == k
  {
    if k == 0 then []
    else
      var page := Page(MODE_SV32, 0, 0, 0, 0, Perms(false, false, false, false, false, false, false));
      var before := Filler(k - 1, t);
      var es := before + [Traffic(NO_FENCE, Refill(true, page), t)];
      assert es[..|es| - 1] == before;
      es
  }

  /** The replacement pointer always names an entry exactly when the size is a power of two above one. */
  lemma RefillsLandExactly(n: nat, t: Tables)
    requires n > 0
    ensures QueueSize(n) <==> forall es :: RunTlb(n, es).ptr < n
  {
    hide QueueSize, RunTlb, PointerRange;
    if QueueSize(n) {
      forall es
        ensures RunTlb(n, es).ptr < n
      {
        QueueIsHistory(n, es);
      }
    } else {
      RangeIsExact(n);
      assert PointerRange(n) >= n;
      PointerCounts(n, Filler(n, t));
    }
  }
}
