/** Partitioning the code buffer into regions, and the per-region trees seen as one index. */
module TcgRegion {
  import opened Arithmetic
  import opened Wrappers
  import opened TbTree

  const TWO_64: nat := 0x1_0000_0000_0000_0000
  const REGION_TARGET: nat := 0x20_0000

  /** `total` excludes the last guard page; `diff` is the distance of the executable alias. */
  datatype Layout = Layout(start: nat, after: nat, n: nat, size: nat, stride: nat, total: nat, diff: nat)

  function Guard(c: Layout): int {
    c.stride - c.size
  }

  predicate WellLaid(c: Layout) {
    c.n >= 1 && 0 < c.size < c.stride && Times(c.n, c.stride) <= c.total + Guard(c) &&
    c.start <= c.after <= c.start + c.size && c.start + c.total + Guard(c) < TWO_64
  }

  // ---------- region_init ----------

  function NRegions(tbSize: nat, maxThreads: nat): nat {
    if maxThreads == 1 then 1
    else
      var n := tbSize / REGION_TARGET;
      if n <= maxThreads then maxThreads
      else
        var most := maxThreads * 8 % 0x1_0000_0000;
        if n < most then n else most
  }

  /** There is a region for every thread, as long as eight per thread can be counted in 32 bits or the buffer
      is below 2^50 bytes. */
  lemma EnoughRegions(tbSize: nat, maxThreads: nat)
    requires 1 <= maxThreads < 0x1_0000_0000
    requires maxThreads * 8 < 0x1_0000_0000 || tbSize < 0x4_0000_0000_0000
    ensures NRegions(tbSize, maxThreads) >= maxThreads
  {
  }

  function AlignDown(x: nat, page: nat): nat
    requires page > 0
  {
    Times(Quot(x, page), page)
  }

  /** The layout, or nothing when a region would have no room for a code page and a guard page. */
  function InitLayout(start: nat, diff: nat, tbSize: nat, page: nat, maxThreads: nat): Option<Layout>
    requires page > 0 && NRegions(tbSize, maxThreads) > 0
  {
    var n := NRegions(tbSize, maxThreads);
    var regionSize := AlignDown(Quot(tbSize, n), page);
    if regionSize < 2 * page || tbSize < page then None
    else Some(Layout(start, start, n, regionSize - page, regionSize, tbSize - page, diff))
  }

  lemma InitIsWellLaid(start: nat, diff: nat, tbSize: nat, page: nat, maxThreads: nat)
    requires page > 0 && NRegions(tbSize, maxThreads) > 0 && start + tbSize < TWO_64
    requires InitLayout(start, diff, tbSize, page, maxThreads).Some?
    ensures var c := InitLayout(start, diff, tbSize, page, maxThreads).value;
            WellLaid(c) && Guard(c) == page && c.n == NRegions(tbSize, maxThreads) && c.size >= page &&
            c.total + page == tbSize
  {
    hide Times, Quot, Rem, NRegions;
    var n := NRegions(tbSize, maxThreads);
    var share := Quot(tbSize, n);
    QuotRem(tbSize, n);
    QuotRem(share, page);
    TimesLaws(page, Quot(share, page), 0);
    TimesMono(n, AlignDown(share, page), share);
  }

  lemma TimesMono(n: nat, a: nat, b: nat)
    requires a <= b
    ensures Times(n, a) <= Times(n, b)
  {
    MulMono(n, n, a, b);
  }

  // ---------- bounds ----------

  function Start(c: Layout, r: nat): nat {
    if r == 0 then c.after else c.start + Times(r, c.stride)
  }

  function End(c: Layout, r: nat): nat {
    if r == c.n - 1 then c.start + c.total else c.start + Times(r, c.stride) + c.size
  }

  /** Regions are non-empty up to the prologue, lie in the buffer, and the last ends where the buffer does. */
  lemma BoundsInBuffer(c: Layout, r: nat)
    requires WellLaid(c) && r < c.n
    ensures c.start <= Start(c, r) <= End(c, r) <= c.start + c.total
    ensures r > 0 ==> Start(c, r) + c.size <= End(c, r)
    ensures Times(r, c.stride) + c.size <= c.total && c.start + Times(r, c.stride) <= Start(c, r)
  {
    hide Times;
    TimesLaws(r, c.stride, 0);
    TimesMonoLeft(r + 1, c.n, c.stride);
    TimesStep(r, c.stride);
    TimesZero(c.stride);
  }

  lemma TimesStep(r: nat, m: nat)
    ensures Times(r + 1, m) == Times(r, m) + m
  {
  }

  lemma TimesMonoLeft(a: nat, b: nat, m: nat)
    requires a <= b
    ensures Times(a, m) <= Times(b, m)
  {
    MulMono(a, b, m, m);
  }

  /** Two regions are separated by at least a guard page. */
  lemma RegionsApart(c: Layout, i: nat, j: nat)
    requires WellLaid(c) && i < j < c.n
    ensures End(c, i) + Guard(c) <= Start(c, j)
  {
    hide Times;
    TimesStep(i, c.stride);
    TimesMonoLeft(i + 1, j, c.stride);
  }

  // ---------- which tree ----------

  /** Unsigned subtraction, so that an address below the buffer is far above it. */
  function Minus(p: nat, q: nat): (d: nat)
    ensures d < TWO_64
  {
    (p - q) % TWO_64
  }

  predicate InBuffer(c: Layout, p: nat) {
    Minus(p, c.start) <= c.total
  }

  lemma QuotWithin(d: nat, m: nat, k: nat)
    requires m > 0 && d <= Times(m, k)
    ensures Quot(d, m) <= k
  {
    hide Times, Quot, Rem;
    QuotRem(d, m);
    if Quot(d, m) > k {
      TimesOrder(k, Quot(d, m), m);
    }
  }

  function TreeOf(c: Layout, p: nat): (r: Option<nat>)
    requires c.n >= 1 && c.stride > 0
    ensures r.Some? ==> r.value < c.n
  {
    var q := if InBuffer(c, p) then p else Minus(p, c.diff);
    if !InBuffer(c, q) then None
    else if q < c.start then Some(0)
    else if q - c.start > Times(c.stride, c.n - 1) then Some(c.n - 1)
    else
      QuotWithin(q - c.start, c.stride, c.n - 1);
      Some(Quot(q - c.start, c.stride))
  }

  /** The address lies in region `r`, in the writable buffer or in its executable alias. */
  predicate InRegion(c: Layout, r: nat, p: nat) {
    r < c.n && p < TWO_64 &&
    (Start(c, r) <= p < End(c, r) || (!InBuffer(c, p) && Start(c, r) <= Minus(p, c.diff) < End(c, r)))
  }

  lemma InBufferMeans(c: Layout, p: nat)
    requires WellLaid(c) && p < TWO_64
    ensures InBuffer(c, p) <==> c.start <= p <= c.start + c.total
  {
  }

  /** The tree of an address in a region is the region's, for writable and executable addresses alike. */
  lemma TreeInvertsBounds(c: Layout, r: nat, p: nat)
    requires WellLaid(c) && InRegion(c, r, p)
    ensures TreeOf(c, p) == Some(r)
  {
    hide Times, Quot, Minus;
    BoundsInBuffer(c, r);
    InBufferMeans(c, p);
    InBufferMeans(c, Minus(p, c.diff));
    var q := if InBuffer(c, p) then p else Minus(p, c.diff);
    assert Start(c, r) <= q < End(c, r);
    OffsetGivesIndex(c, r, q - c.start);
  }

  lemma OffsetGivesIndex(c: Layout, r: nat, d: nat)
    requires WellLaid(c) && r < c.n && Times(r, c.stride) <= d && c.start + d < End(c, r)
    ensures (if d > Times(c.stride, c.n - 1) then c.n - 1 else Quot(d, c.stride)) == r
  {
    hide Times, Quot;
    TimesLaws(c.stride, c.n - 1, 0);
    TimesLaws(c.stride, r, 0);
    if r < c.n - 1 {
      TimesStep(r, c.stride);
      TimesMonoLeft(r + 1, c.n - 1, c.stride);
      QuotRemUnique(d, c.stride, r, d - Times(r, c.stride));
    } else if d == Times(c.stride, r) {
      QuotRemUnique(d, c.stride, r, 0);
    }
  }

  /** Any address in the buffer, guard pages included, belongs to the last region that starts no later; an address
      outside the buffer is taken for one in the executable alias, and has no tree when it is not there either. */
  lemma TreeOfAddress(c: Layout, p: nat)
    requires WellLaid(c) && p < TWO_64
    ensures var q := if c.start <= p <= c.start + c.total then p else Minus(p, c.diff);
            if c.start <= q <= c.start + c.total then
              exists r: nat :: TreeOf(c, p) == Some(r) && r < c.n && c.start + Times(r, c.stride) <= q &&
                               (r < c.n - 1 ==> q < c.start + Times(r + 1, c.stride))
            else TreeOf(c, p).None?
  {
    hide Times, Quot, Rem, Minus;
    InBufferMeans(c, p);
    var q := if InBuffer(c, p) then p else Minus(p, c.diff);
    InBufferMeans(c, q);
    if InBuffer(c, q) {
      var d := q - c.start;
      QuotRem(d, c.stride);
      TimesLaws(c.stride, Quot(d, c.stride), 0);
      TimesStep(Quot(d, c.stride), c.stride);
      TimesLaws(c.stride, c.n - 1, 0);
    }
  }

  // ---------- one flat index ----------

  /** A block that lies inside one region. */
  predicate Placed(c: Layout, r: nat, tc: Tc) {
    tc.size > 0 && forall p :: tc.ptr <= p < tc.ptr + tc.size ==> InRegion(c, r, p)
  }

  ghost predicate Live(c: Layout, live: set<Entry>) {
    (forall e :: e in live ==> exists r :: Placed(c, r, e.tc)) &&
    (forall d, e :: d in live && e in live && d != e ==> Apart(d.tc, e.tc))
  }

  /** The trees hold exactly the live blocks, each in the tree of its region. */
  ghost predicate Agrees(c: Layout, trees: seq<Tree>, live: set<Entry>) {
    |trees| == c.n && (forall r :: 0 <= r < |trees| ==> Ordered(trees[r])) &&
    (forall r, e :: 0 <= r < |trees| ==> (In(trees[r], e) <==> e in live && Placed(c, r, e.tc)))
  }

  lemma PlacedTree(c: Layout, r: nat, tc: Tc, p: nat)
    requires WellLaid(c) && Placed(c, r, tc) && Covers(tc, p)
    ensures r < c.n && TreeOf(c, p) == Some(r)
  {
    assert InRegion(c, r, p);
    TreeInvertsBounds(c, r, p);
  }

  function LookupAll(c: Layout, trees: seq<Tree>, p: nat): Option<Entry>
    requires c.n >= 1 && c.stride > 0 && |trees| == c.n
  {
    match TreeOf(c, p)
    case None => None
    case Some(r) => Lookup(trees[r], Key(p))
  }

  /** Looking an address up in the region trees gives the live block that covers it, or nothing. */
  lemma LookupIsFlat(c: Layout, trees: seq<Tree>, live: set<Entry>, p: nat)
    requires WellLaid(c) && Live(c, live) && Agrees(c, trees, live)
    ensures var r := LookupAll(c, trees, p);
            && (r.Some? ==> r.value in live && Covers(r.value.tc, p))
            && (forall e :: e in live && Covers(e.tc, p) ==> r == Some(e))
  {
    hide TreeOf, Placed, Lookup, In;
    if TreeOf(c, p).Some? {
      LookupFindsCover(trees[TreeOf(c, p).value], p);
    }
    forall e | e in live && Covers(e.tc, p) ensures LookupAll(c, trees, p) == Some(e) {
      var r: nat :| Placed(c, r, e.tc);
      PlacedTree(c, r, e.tc, p);
      LookupFindsCover(trees[r], p);
    }
  }

  function InsertAll(c: Layout, trees: seq<Tree>, e: Entry): seq<Tree>
    requires c.n >= 1 && c.stride > 0 && |trees| == c.n
  {
    match TreeOf(c, e.tc.ptr)
    case None => trees
    case Some(r) => trees[r := Insert(trees[r], e)]
  }

  function RemoveAll(c: Layout, trees: seq<Tree>, e: Entry): seq<Tree>
    requires c.n >= 1 && c.stride > 0 && |trees| == c.n
  {
    match TreeOf(c, e.tc.ptr)
    case None => trees
    case Some(r) => trees[r := Remove(trees[r], e.tc)]
  }

  lemma PlacedOnce(c: Layout, r: nat, q: nat, tc: Tc)
    requires WellLaid(c) && Placed(c, r, tc) && Placed(c, q, tc)
    ensures r == q
  {
    hide Placed;
    PlacedStart(c, r, tc);
    PlacedStart(c, q, tc);
  }

  lemma PlacedStart(c: Layout, r: nat, tc: Tc)
    requires WellLaid(c) && Placed(c, r, tc)
    ensures r < c.n && TreeOf(c, tc.ptr) == Some(r)
  {
    PlacedTree(c, r, tc, tc.ptr);
  }

  lemma InsertKeepsAgreement(c: Layout, trees: seq<Tree>, live: set<Entry>, e: Entry)
    requires WellLaid(c) && Live(c, live + {e}) && e !in live && Agrees(c, trees, live)
    ensures Agrees(c, InsertAll(c, trees, e), live + {e})
  {
    hide TreeOf, Placed, Insert, In, Ordered;
    assert e in live + {e};
    var r: nat :| Placed(c, r, e.tc);
    PlacedStart(c, r, e.tc);
    InsertedTree(c, trees, live, e, r);
    var after := InsertAll(c, trees, e);
    forall q, x | 0 <= q < |after| ensures In(after[q], x) <==> x in live + {e} && Placed(c, q, x.tc) {
      if q != r && Placed(c, q, e.tc) {
        PlacedOnce(c, r, q, e.tc);
      }
    }
  }

  lemma InsertedTree(c: Layout, trees: seq<Tree>, live: set<Entry>, e: Entry, r: nat)
    requires Live(c, live + {e}) && e !in live && Agrees(c, trees, live) && r < |trees| && Placed(c, r, e.tc)
    ensures Ordered(Insert(trees[r], e)) && forall x :: In(Insert(trees[r], e), x) <==> In(trees[r], x) || x == e
  {
    hide In, Insert, Ordered;
    assert e.tc.size > 0;
    forall x | In(trees[r], x) ensures Apart(x.tc, e.tc) {
      assert x in live + {e} && e in live + {e};
    }
    InsertAdds(trees[r], e);
  }

  lemma RemoveKeepsAgreement(c: Layout, trees: seq<Tree>, live: set<Entry>, e: Entry)
    requires WellLaid(c) && Live(c, live) && e in live && Agrees(c, trees, live)
    ensures Agrees(c, RemoveAll(c, trees, e), live - {e}) && Live(c, live - {e})
  {
    hide TreeOf, Placed, Remove, In, Ordered;
    var r: nat :| Placed(c, r, e.tc);
    PlacedStart(c, r, e.tc);
    RemoveRemoves(trees[r], e);
    var after := RemoveAll(c, trees, e);
    forall q, x | 0 <= q < |after| ensures In(after[q], x) <==> x in live - {e} && Placed(c, q, x.tc) {
      if q != r && Placed(c, q, e.tc) {
        PlacedOnce(c, r, q, e.tc);
      }
    }
  }

  /** After a reset every tree is empty, and so is the index. */
  lemma ResetAgrees(c: Layout, trees: seq<Tree>)
    requires |trees| == c.n && forall r :: 0 <= r < |trees| ==> trees[r] == Leaf
    ensures Agrees(c, trees, {})
  {
  }

  // ---------- runs of the index ----------

  datatype IndexOp = Add(entry: Entry) | Drop(entry: Entry) | Clear

  /** The trees beside the set of live blocks they stand for. */
  datatype Index = Index(trees: seq<Tree>, live: set<Entry>)

  /** Blocks are added inside a region and apart from the live ones, and only live blocks are dropped. */
  ghost predicate Allowed(c: Layout, x: Index, op: IndexOp) {
    match op
    case Add(e) => e !in x.live && Live(c, x.live + {e})
    case Drop(e) => e in x.live
    case Clear => true
  }

  function ApplyIndex(c: Layout, x: Index, op: IndexOp): (q: Index)
    requires c.n >= 1 && c.stride > 0 && |x.trees| == c.n
    ensures |q.trees| == c.n
  {
    match op
    case Add(e) => Index(InsertAll(c, x.trees, e), x.live + {e})
    case Drop(e) => Index(RemoveAll(c, x.trees, e), x.live - {e})
    case Clear => Index(seq(c.n, _ => Leaf), {})
  }

  /** A run of the index; operations that are not allowed do not happen. */
  ghost function RunIndex(c: Layout, ops: seq<IndexOp>): (x: Index)
    requires c.n >= 1 && c.stride > 0
    ensures |x.trees| == c.n
  {
    if ops == [] then Index(seq(c.n, _ => Leaf), {})
    else
      var x := RunIndex(c, ops[..|ops| - 1]);
      var op := ops[|ops| - 1];
      if Allowed(c, x, op) then ApplyIndex(c, x, op) else x
  }

  lemma {:induction false} RunsAgree(c: Layout, ops: seq<IndexOp>)
    requires WellLaid(c)
    ensures var x := RunIndex(c, ops); Live(c, x.live) && Agrees(c, x.trees, x.live)
  {
    hide Live, Agrees, InsertAll, RemoveAll;
    if ops == [] {
      NothingLive(c);
    } else {
      var x, op := RunIndex(c, ops[..|ops| - 1]), ops[|ops| - 1];
      RunsAgree(c, ops[..|ops| - 1]);
      if Allowed(c, x, op) {
        match op
        case Add(e) => InsertKeepsAgreement(c, x.trees, x.live, e);
        case Drop(e) => RemoveKeepsAgreement(c, x.trees, x.live, e);
        case Clear => NothingLive(c);
      }
    }
  }

  lemma NothingLive(c: Layout)
    ensures Live(c, {}) && Agrees(c, seq(c.n, _ => Leaf), {})
  {
    ResetAgrees(c, seq(c.n, _ => Leaf));
  }

  /** After every sequence of insertions, removals and resets, a lookup gives the live block that covers the
      address, or nothing. */
  lemma RunsLookUpLiveBlocks(c: Layout, ops: seq<IndexOp>, p: nat)
    requires WellLaid(c)
    ensures var x := RunIndex(c, ops);
            var r := LookupAll(c, x.trees, p);
            && (r.Some? ==> r.value in x.live && Covers(r.value.tc, p))
            && (forall e :: e in x.live && Covers(e.tc, p) ==> r == Some(e))
  {
    hide RunIndex, LookupAll, Live, Agrees;
    RunsAgree(c, ops);
    LookupIsFlat(c, RunIndex(c, ops).trees, RunIndex(c, ops).live, p);
  }

  /** The i-th operation added the block, and no later one dropped it or cleared the index. */
  ghost predicate AddedAt(c: Layout, ops: seq<IndexOp>, e: Entry, i: nat) {
    c.n >= 1 && c.stride > 0 && i < |ops| && ops[i] == Add(e) && Allowed(c, RunIndex(c, ops[..i]), ops[i]) &&
    forall j :: i < j < |ops| ==> ops[j] != Drop(e) && ops[j] != Clear
  }

  ghost predicate Added(c: Layout, ops: seq<IndexOp>, e: Entry) {
    exists i :: AddedAt(c, ops, e, i)
  }

  /** The live blocks of a run are the blocks added and neither dropped nor cleared since. */
  lemma {:induction false} LiveBlocksWereAdded(c: Layout, ops: seq<IndexOp>, e: Entry)
    requires c.n >= 1 && c.stride > 0
    ensures e in RunIndex(c, ops).live <==> Added(c, ops, e)
    decreases |ops|
  {
    hide Live, InsertAll, RemoveAll, Added;
    if ops == [] {
      NothingAdded(c, e);
    } else {
      var last := |ops| - 1;
      LiveBlocksWereAdded(c, ops[..last], e);
      AddedLast(c, ops[..last], ops[last], e);
      assert ops == ops[..last] + [ops[last]];
    }
  }

  lemma NothingAdded(c: Layout, e: Entry)
    ensures !Added(c, [], e)
  {
  }

  lemma AddedBefore(c: Layout, front: seq<IndexOp>, op: IndexOp, e: Entry, i: nat)
    requires i < |front|
    ensures AddedAt(c, front + [op], e, i) <==> AddedAt(c, front, e, i) && op != Drop(e) && op != Clear
  {
    hide Allowed, RunIndex;
    var ops := front + [op];
    assert ops[..i] == front[..i];
    assert ops[|front|] == op && forall j :: 0 <= j < |front| ==> ops[j] == front[j];
    if AddedAt(c, ops, e, i) {
      assert forall j :: i < j < |front| ==> front[j] == ops[j];
    }
  }

  lemma AddedLast(c: Layout, front: seq<IndexOp>, op: IndexOp, e: Entry)
    requires c.n >= 1 && c.stride > 0
    ensures Added(c, front + [op], e) <==> (op == Add(e) && Allowed(c, RunIndex(c, front), op)) ||
                                           (Added(c, front, e) && op != Drop(e) && op != Clear)
  {
    hide Allowed, RunIndex, AddedAt;
    var ops := front + [op];
    forall i: nat | i < |front|
      ensures AddedAt(c, ops, e, i) <==> AddedAt(c, front, e, i) && op != Drop(e) && op != Clear
    {
      AddedBefore(c, front, op, e, i);
    }
    AddedNow(c, front, op, e);
    InRange(c, front, e);
    InRange(c, ops, e);
  }

  lemma AddedNow(c: Layout, front: seq<IndexOp>, op: IndexOp, e: Entry)
    requires c.n >= 1 && c.stride > 0
    ensures AddedAt(c, front + [op], e, |front|) <==> op == Add(e) && Allowed(c, RunIndex(c, front), op)
  {
    hide Allowed, RunIndex;
    assert (front + [op])[..|front|] == front;
  }

  lemma InRange(c: Layout, ops: seq<IndexOp>, e: Entry)
    ensures forall i: nat :: AddedAt(c, ops, e, i) ==> i < |ops|
  {
  }
}
