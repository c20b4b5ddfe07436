/** Handing regions to translation contexts, and accounting for the code they hold. */
module TcgAllocation {
  import opened Arithmetic
  import opened Wrappers
  import opened TcgRegion

  /** A context fills the code buffer it was given; `held` is the region that buffer is. */
  datatype Context = Context(buffer: nat, ptr: nat, size: nat, highwater: int, held: nat)

  datatype Regions = Regions(layout: Layout, reserve: nat, current: nat, full: int, contexts: seq<Context>)

  function RegionSize(c: Layout, r: nat): int {
    End(c, r) - Start(c, r)
  }

  function Assign(c: Layout, reserve: nat, r: nat): Context
    requires WellLaid(c) && r < c.n
  {
    BoundsInBuffer(c, r);
    Context(Start(c, r), Start(c, r), RegionSize(c, r), End(c, r) - reserve, r)
  }

  predicate Shaped(s: Regions) {
    WellLaid(s.layout) && s.current <= s.layout.n
  }

  /** A new context takes the next region; there is none when the assertion in the source would fail. */
  function InitialAlloc(s: Regions): (r: Option<Regions>)
    requires Shaped(s)
    ensures r.Some? ==> Shaped(r.value)
  {
    if s.current == s.layout.n then None
    else Some(s.(current := s.current + 1,
                 contexts := s.contexts + [Assign(s.layout, s.reserve, s.current)]))
  }

  /** A context whose region filled up takes the next one; true means there is none. */
  function Alloc(s: Regions, i: nat): (r: (Regions, bool))
    requires Shaped(s) && i < |s.contexts|
    ensures Shaped(r.0)
  {
    if s.current == s.layout.n then (s, true)
    else (s.(current := s.current + 1, full := s.full + (s.contexts[i].size - s.reserve),
             contexts := s.contexts[i := Assign(s.layout, s.reserve, s.current)]), false)
  }

  function ResetFrom(s: Regions, i: nat): (r: Option<Regions>)
    requires Shaped(s) && i <= |s.contexts|
    ensures r.Some? ==> Shaped(r.value)
    decreases |s.contexts| - i
  {
    if i == |s.contexts| then Some(s)
    else if s.current == s.layout.n then None
    else ResetFrom(s.(current := s.current + 1,
                      contexts := s.contexts[i := Assign(s.layout, s.reserve, s.current)]), i + 1)
  }

  /** Every registered context starts over with a region of its own. */
  function ResetAll(s: Regions): (r: Option<Regions>)
    requires Shaped(s)
    ensures r.Some? ==> Shaped(r.value)
  {
    ResetFrom(s.(current := 0, full := 0), 0)
  }

  /** The context generates code up to `ptr`. */
  function Emit(s: Regions, i: nat, ptr: nat): Regions
    requires i < |s.contexts|
  {
    s.(contexts := s.contexts[i := s.contexts[i].(ptr := ptr)])
  }

  /** Deducts the prologue from the first region, which its context has to itself. */
  function SetPrologue(s: Regions, after: nat): Regions
    requires Shaped(s) && |s.contexts| > 0 && s.layout.start <= after <= s.layout.start + s.layout.size
  {
    var c := s.layout.(after := after);
    s.(layout := c, contexts := s.contexts[0 := Assign(c, s.reserve, 0)])
  }

  function Used(cs: seq<Context>): int {
    if cs == [] then 0 else Used(cs[..|cs| - 1]) + (cs[|cs| - 1].ptr - cs[|cs| - 1].buffer)
  }

  function CodeSize(s: Regions): int {
    s.full + Used(s.contexts)
  }

  function CodeCapacity(s: Regions): int
    requires Shaped(s)
  {
    s.layout.total - Times(s.layout.n - 1, s.layout.stride - s.layout.size) - Times(s.layout.n, s.reserve)
  }

  // ---------- no region is shared ----------

  predicate Holding(s: Regions, x: Context) {
    x.held < s.current && x.held < s.layout.n && x.buffer == Start(s.layout, x.held) &&
    x.size == RegionSize(s.layout, x.held) && x.highwater == End(s.layout, x.held) - s.reserve
  }

  predicate Held(cs: seq<Context>, r: nat) {
    exists i :: 0 <= i < |cs| && cs[i].held == r
  }

  predicate Distinct(cs: seq<Context>) {
    forall i, j :: 0 <= i < j < |cs| ==> cs[i].held != cs[j].held
  }

  /** Room in the regions below `k` that nobody holds any more. */
  function Retired(c: Layout, reserve: nat, cs: seq<Context>, k: nat): int {
    if k == 0 then 0
    else Retired(c, reserve, cs, k - 1) + if Held(cs, k - 1) then 0 else RegionSize(c, k - 1) - reserve
  }

  predicate Inv(s: Regions) {
    Shaped(s) && (forall i :: 0 <= i < |s.contexts| ==> Holding(s, s.contexts[i])) && Distinct(s.contexts) &&
    s.full == Retired(s.layout, s.reserve, s.contexts, s.current)
  }

  /** The buffers of two contexts are separated by a guard page, and both lie in the code buffer. */
  lemma ContextsNeverShare(s: Regions, i: nat, j: nat)
    requires Inv(s) && i < |s.contexts| && j < |s.contexts| && i != j
    ensures var a, b := s.contexts[i], s.contexts[j];
            && (a.buffer + a.size + Guard(s.layout) <= b.buffer || b.buffer + b.size + Guard(s.layout) <= a.buffer)
            && s.layout.start <= a.buffer && a.buffer + a.size <= s.layout.start + s.layout.total
  {
    hide Start, End;
    assert Holding(s, s.contexts[i]) && Holding(s, s.contexts[j]);
    var p, q := s.contexts[i].held, s.contexts[j].held;
    BoundsInBuffer(s.layout, p);
    if p < q {
      RegionsApart(s.layout, p, q);
    } else {
      RegionsApart(s.layout, q, p);
    }
  }

  // ---------- what each operation keeps ----------

  lemma {:induction false} RetiredSame(c: Layout, reserve: nat, cs: seq<Context>, ds: seq<Context>, k: nat)
    requires forall r: nat :: r < k ==> (Held(cs, r) <==> Held(ds, r))
    ensures Retired(c, reserve, cs, k) == Retired(c, reserve, ds, k)
  {
    if k > 0 {
      RetiredSame(c, reserve, cs, ds, k - 1);
      assert Held(cs, k - 1) <==> Held(ds, k - 1);
    }
  }

  /** Giving up region `r` adds its room. */
  lemma {:induction false} RetiredGains(c: Layout, reserve: nat, cs: seq<Context>, ds: seq<Context>, r: nat, k: nat)
    requires Held(cs, r) && !Held(ds, r) && forall q: nat :: q < k && q != r ==> (Held(cs, q) <==> Held(ds, q))
    ensures Retired(c, reserve, ds, k) ==
            Retired(c, reserve, cs, k) + if r < k then RegionSize(c, r) - reserve else 0
  {
    if k > 0 {
      RetiredGains(c, reserve, cs, ds, r, k - 1);
      assert k - 1 != r ==> (Held(cs, k - 1) <==> Held(ds, k - 1));
    }
  }

  lemma HeldAppend(cs: seq<Context>, x: Context, r: nat)
    ensures Held(cs + [x], r) <==> Held(cs, r) || x.held == r
  {
    if Held(cs, r) {
      var i :| 0 <= i < |cs| && cs[i].held == r;
      assert (cs + [x])[i].held == r;
    }
    assert (cs + [x])[|cs|] == x;
  }

  lemma HeldUpdate(cs: seq<Context>, i: nat, x: Context, r: nat)
    requires i < |cs| && Distinct(cs)
    ensures Held(cs[i := x], r) <==> (Held(cs, r) && r != cs[i].held) || x.held == r
  {
    var ds := cs[i := x];
    if Held(cs, r) && r != cs[i].held {
      var j :| 0 <= j < |cs| && cs[j].held == r;
      assert ds[j].held == r;
    }
    assert ds[i] == x;
    if Held(ds, r) && x.held != r {
      var j :| 0 <= j < |ds| && ds[j].held == r;
      assert cs[j].held == r;
    }
  }

  lemma InitialAllocKeeps(s: Regions)
    requires Inv(s) && s.current < s.layout.n
    ensures Inv(InitialAlloc(s).value)
  {
    hide Start, End, Held;
    var x := Assign(s.layout, s.reserve, s.current);
    var q := InitialAlloc(s).value;
    forall i | 0 <= i < |q.contexts| ensures Holding(q, q.contexts[i]) {
      if i < |s.contexts| {
        assert Holding(s, s.contexts[i]);
      }
    }
    HeldAppend(s.contexts, x, s.current);
    forall r: nat | r < s.current ensures Held(s.contexts, r) <==> Held(q.contexts, r) {
      HeldAppend(s.contexts, x, r);
    }
    RetiredSame(s.layout, s.reserve, s.contexts, q.contexts, s.current);
  }

  lemma AllocKeeps(s: Regions, i: nat)
    requires Inv(s) && i < |s.contexts|
    ensures Inv(Alloc(s, i).0)
  {
    hide Start, End, Held;
    if s.current < s.layout.n {
      var x := Assign(s.layout, s.reserve, s.current);
      var q := Alloc(s, i).0;
      assert Holding(s, s.contexts[i]);
      var old_ := s.contexts[i].held;
      forall j | 0 <= j < |q.contexts| ensures Holding(q, q.contexts[j]) {
        if j != i {
          assert Holding(s, s.contexts[j]);
        }
      }
      AllocDistinct(s, i, x);
      forall r: nat ensures Held(q.contexts, r) <==> (Held(s.contexts, r) && r != old_) || s.current == r {
        HeldUpdate(s.contexts, i, x, r);
      }
      HeldHere(s.contexts, i);
      RetiredGains(s.layout, s.reserve, s.contexts, q.contexts, old_, s.current);
    }
  }

  lemma HeldHere(cs: seq<Context>, i: nat)
    requires i < |cs|
    ensures Held(cs, cs[i].held)
  {
  }

  lemma AllocDistinct(s: Regions, i: nat, x: Context)
    requires Inv(s) && i < |s.contexts| && x.held == s.current
    ensures Distinct(s.contexts[i := x])
  {
    forall j | 0 <= j < |s.contexts| ensures s.contexts[j].held < s.current {
      assert Holding(s, s.contexts[j]);
    }
  }

  lemma EmitKeeps(s: Regions, i: nat, ptr: nat)
    requires Inv(s) && i < |s.contexts|
    ensures Inv(Emit(s, i, ptr))
  {
    hide Start, End, Held;
    var q := Emit(s, i, ptr);
    forall j | 0 <= j < |q.contexts| ensures Holding(q, q.contexts[j]) {
      assert Holding(s, s.contexts[j]);
    }
    forall r: nat ensures Held(s.contexts, r) <==> Held(q.contexts, r) {
      HeldUpdate(s.contexts, i, q.contexts[i], r);
      HeldHere(s.contexts, i);
    }
    RetiredSame(s.layout, s.reserve, s.contexts, q.contexts, s.current);
  }

  /** Contexts before `i` hold regions `0 .. i` after a reset. */
  predicate Restarted(s: Regions, i: nat) {
    Shaped(s) && s.current == i <= |s.contexts| && s.full == 0 &&
    forall j :: 0 <= j < i ==> s.contexts[j] == Context(Start(s.layout, j), Start(s.layout, j), RegionSize(s.layout, j),
                                                        End(s.layout, j) - s.reserve, j)
  }

  /** A reset never runs out of regions exactly when there are at least as many regions as contexts; then every
      context has the region of its own number and no region counts as full. */
  lemma {:induction false} ResetSpec(s: Regions, i: nat)
    requires Restarted(s, i)
    ensures ResetFrom(s, i).Some? <==> |s.contexts| <= s.layout.n || |s.contexts| == i
    ensures ResetFrom(s, i).Some? ==>
              var q := ResetFrom(s, i).value;
              Restarted(q, |s.contexts|) && |q.contexts| == |s.contexts| && q.layout == s.layout &&
              q.reserve == s.reserve
    decreases |s.contexts| - i
  {
    hide Start, End;
    if i < |s.contexts| && i < s.layout.n {
      ResetSpec(s.(current := i + 1, contexts := s.contexts[i := Assign(s.layout, s.reserve, i)]), i + 1);
    }
  }

  lemma ResetKeeps(s: Regions)
    requires Inv(s)
    ensures ResetAll(s).Some? <==> |s.contexts| <= s.layout.n
    ensures ResetAll(s).Some? ==> Inv(ResetAll(s).value) && |ResetAll(s).value.contexts| == |s.contexts|
  {
    hide Start, End, ResetFrom;
    var z := s.(current := 0, full := 0);
    ResetSpec(z, 0);
    if ResetAll(s).Some? {
      var q := ResetAll(s).value;
      forall j | 0 <= j < |q.contexts| ensures Holding(q, q.contexts[j]) {
      }
      NothingRetired(q.layout, q.reserve, q.contexts, q.current);
    }
  }

  lemma {:induction false} NothingRetired(c: Layout, reserve: nat, cs: seq<Context>, k: nat)
    requires k <= |cs| && forall j :: 0 <= j < k ==> cs[j].held == j
    ensures Retired(c, reserve, cs, k) == 0
  {
    if k > 0 {
      NothingRetired(c, reserve, cs, k - 1);
      assert cs[k - 1].held == k - 1;
    }
  }

  /** With as many regions as threads may need, a reset succeeds for any number of contexts up to that. */
  lemma ResetNeverTrips(s: Regions, tbSize: nat, maxThreads: nat)
    requires Inv(s) && s.layout.n == NRegions(tbSize, maxThreads) && |s.contexts| <= maxThreads
    requires 1 <= maxThreads < 0x1_0000_0000
    requires maxThreads * 8 < 0x1_0000_0000 || tbSize < 0x4_0000_0000_0000
    ensures ResetAll(s).Some?
  {
    hide ResetAll, Start, End;
    EnoughRegions(tbSize, maxThreads);
    ResetKeeps(s);
  }

  // ---------- accounting ----------

  /** Room of all regions below `k`. */
  function Room(c: Layout, reserve: nat, k: nat): int {
    if k == 0 then 0 else Room(c, reserve, k - 1) + RegionSize(c, k - 1) - reserve
  }

  function HeldRoom(c: Layout, reserve: nat, cs: seq<Context>): int {
    if cs == [] then 0 else HeldRoom(c, reserve, cs[..|cs| - 1]) + RegionSize(c, cs[|cs| - 1].held) - reserve
  }

  lemma {:induction false} NobodyHolds(c: Layout, reserve: nat, k: nat)
    ensures Retired(c, reserve, [], k) == Room(c, reserve, k)
  {
    if k > 0 {
      NobodyHolds(c, reserve, k - 1);
    }
  }

  /** What is held and what is retired make up all the room handed out. */
  lemma {:induction false} RoomIsConserved(c: Layout, reserve: nat, cs: seq<Context>, k: nat)
    requires Distinct(cs) && forall i :: 0 <= i < |cs| ==> cs[i].held < k
    ensures HeldRoom(c, reserve, cs) + Retired(c, reserve, cs, k) == Room(c, reserve, k)
    decreases |cs|
  {
    hide Held, Start, End;
    if cs == [] {
      NobodyHolds(c, reserve, k);
    } else {
      var ds := cs[..|cs| - 1];
      var x := cs[|cs| - 1];
      assert ds + [x] == cs;
      RoomIsConserved(c, reserve, ds, k);
      forall r: nat ensures Held(cs, r) <==> Held(ds, r) || x.held == r {
        HeldAppend(ds, x, r);
      }
      NotHeldBefore(cs);
      RetiredGains(c, reserve, cs, ds, x.held, k);
    }
  }

  lemma NotHeldBefore(cs: seq<Context>)
    requires cs != [] && Distinct(cs)
    ensures !Held(cs[..|cs| - 1], cs[|cs| - 1].held)
  {
  }

  /** Every context stays below its high-water mark. */
  predicate BelowHighwater(s: Regions) {
    forall i :: 0 <= i < |s.contexts| ==> s.contexts[i].ptr <= s.contexts[i].highwater
  }

  lemma {:induction false} UsedFits(s: Regions, m: nat)
    requires Inv(s) && BelowHighwater(s) && m <= |s.contexts|
    ensures Used(s.contexts[..m]) <= HeldRoom(s.layout, s.reserve, s.contexts[..m])
  {
    hide Start, End;
    if m > 0 {
      UsedFits(s, m - 1);
      assert s.contexts[..m][..m - 1] == s.contexts[..m - 1];
      assert Holding(s, s.contexts[m - 1]);
    }
  }

  lemma {:induction false} RoomGrows(c: Layout, reserve: nat, k: nat, n: nat)
    requires k <= n && forall r: nat :: r < n ==> RegionSize(c, r) >= reserve
    ensures Room(c, reserve, k) <= Room(c, reserve, n)
    decreases n
  {
    hide RegionSize;
    if k < n {
      RoomGrows(c, reserve, k, n - 1);
      assert RegionSize(c, n - 1) >= reserve;
    }
  }

  lemma {:induction false} RoomTelescopes(c: Layout, reserve: nat, k: nat)
    requires WellLaid(c) && k < c.n
    ensures Room(c, reserve, k) == Times(k, c.size) - Times(k, reserve) - (if k > 0 then c.after - c.start else 0)
  {
    hide Times;
    TimesZero(c.size);
    TimesZero(reserve);
    TimesZero(c.stride);
    if k > 0 {
      RoomTelescopes(c, reserve, k - 1);
      TimesStep(k - 1, c.size);
      TimesStep(k - 1, reserve);
    }
  }

  lemma TimesMinus(k: nat, a: nat, b: nat)
    requires b <= a
    ensures Times(k, a) == Times(k, b) + Times(k, a - b)
  {
    TimesLaws(k, b, a - b);
  }

  /** All room together is the capacity less the prologue. */
  lemma RoomIsCapacity(s: Regions)
    requires Shaped(s)
    ensures Room(s.layout, s.reserve, s.layout.n) == CodeCapacity(s) - (s.layout.after - s.layout.start)
  {
    hide Times;
    var c := s.layout;
    RoomTelescopes(c, s.reserve, c.n - 1);
    TimesStep(c.n - 1, s.reserve);
    TimesMinus(c.n - 1, c.stride, c.size);
    TimesZero(c.stride);
    TimesZero(c.size);
    TimesZero(s.reserve);
    TimesZero(c.stride - c.size);
  }

  /** The code in all regions never exceeds the capacity, when contexts stay below their marks and every region
      has room for the reserve. */
  lemma CodeFitsCapacity(s: Regions)
    requires Inv(s) && BelowHighwater(s)
    requires forall r: nat :: r < s.layout.n ==> RegionSize(s.layout, r) >= s.reserve
    ensures CodeSize(s) <= CodeCapacity(s) - (s.layout.after - s.layout.start) <= CodeCapacity(s)
  {
    hide RegionSize, Retired, Room, CodeCapacity, Used, HeldRoom;
    UsedFits(s, |s.contexts|);
    assert s.contexts[..|s.contexts|] == s.contexts;
    forall i | 0 <= i < |s.contexts| ensures s.contexts[i].held < s.current {
      assert Holding(s, s.contexts[i]);
    }
    RoomIsConserved(s.layout, s.reserve, s.contexts, s.current);
    RoomGrows(s.layout, s.reserve, s.current, s.layout.n);
    RoomIsCapacity(s);
  }

  // ---------- who gets a region ----------

  /** The context holds region `r` from its start, and generates code below its end less the reserve. */
  predicate HasWhole(s: Regions, x: Context, r: nat) {
    x.held == r && x.buffer == x.ptr == Start(s.layout, r) && x.buffer + x.size == End(s.layout, r) &&
    x.highwater == End(s.layout, r) - s.reserve
  }

  /** A refill is refused exactly when every region has been given out, and then changes nothing. Otherwise its context
      gets the next region whole, and the room of the old one is accounted as full; no other context changes. */
  lemma RefillExactly(s: Regions, i: nat)
    requires Inv(s) && i < |s.contexts|
    ensures var (q, refused) := Alloc(s, i);
            && (refused <==> s.current >= s.layout.n) && (refused ==> q == s)
            && (!refused ==>
                  && |q.contexts| == |s.contexts| && HasWhole(q, q.contexts[i], s.current)
                  && q.full == s.full + s.contexts[i].size - s.reserve && q.current == s.current + 1
                  && q.layout == s.layout && q.reserve == s.reserve
                  && forall j :: 0 <= j < |s.contexts| && j != i ==> q.contexts[j] == s.contexts[j])
  {
    hide Start, End;
    if s.current < s.layout.n {
      RegionEnds(s.layout, s.current);
    }
  }

  /** A new context is refused exactly then, and otherwise gets the next region whole. */
  lemma RegisterExactly(s: Regions)
    requires Inv(s)
    ensures var r := InitialAlloc(s);
            && (r.None? <==> s.current >= s.layout.n)
            && (r.Some? ==>
                  && |r.value.contexts| == |s.contexts| + 1 && r.value.contexts[..|s.contexts|] == s.contexts
                  && HasWhole(r.value, r.value.contexts[|s.contexts|], s.current)
                  && r.value.current == s.current + 1 && r.value.full == s.full
                  && r.value.layout == s.layout && r.value.reserve == s.reserve)
  {
    hide Start, End;
    if s.current < s.layout.n {
      RegionEnds(s.layout, s.current);
    }
  }

  lemma RegionEnds(c: Layout, r: nat)
    requires WellLaid(c) && r < c.n
    ensures Start(c, r) + RegionSize(c, r) == End(c, r)
  {
    BoundsInBuffer(c, r);
  }

  // ---------- runs ----------

  /** Right after initialization and the prologue: one context, in the first region. */
  function Initialized(c: Layout, reserve: nat, after: nat): (s: Regions)
    requires WellLaid(c) && c.start <= after <= c.start + c.size
    ensures Shaped(s)
  {
    SetPrologue(InitialAlloc(Regions(c, reserve, 0, 0, [])).value, after)
  }

  datatype Op = Register | Refill(i: nat) | Generate(i: nat, ptr: nat) | Reset

  /** An operation on a context that does not exist, or one that trips the assertion, ends the run. */
  function Step(s: Regions, op: Op): (r: Option<Regions>)
    requires Shaped(s)
    ensures r.Some? ==> Shaped(r.value)
  {
    match op
    case Register => InitialAlloc(s)
    case Refill(i) => if i < |s.contexts| then Some(Alloc(s, i).0) else None
    case Generate(i, ptr) => if i < |s.contexts| then Some(Emit(s, i, ptr)) else None
    case Reset => ResetAll(s)
  }

  lemma InitializedInv(c: Layout, reserve: nat, after: nat)
    requires WellLaid(c) && c.start <= after <= c.start + c.size
    ensures Inv(Initialized(c, reserve, after))
  {
    hide End;
    var s := Initialized(c, reserve, after);
    assert s.contexts[0].held == 0;
    HeldHere(s.contexts, 0);
    assert Retired(s.layout, reserve, s.contexts, 1) == Retired(s.layout, reserve, s.contexts, 0);
  }

  lemma StepKeeps(s: Regions, op: Op)
    requires Inv(s) && Step(s, op).Some?
    ensures Inv(Step(s, op).value)
  {
    hide Inv, ResetAll, Alloc, InitialAlloc;
    InvShape(s);
    match op
    case Register =>
      InitialAllocKeeps(s) by {
        RegisterHasRegion(s);
      }
    case Refill(i) => AllocKeeps(s, i);
    case Generate(i, ptr) => EmitKeeps(s, i, ptr);
    case Reset => ResetKeeps(s);
  }

  lemma InvShape(s: Regions)
    requires Inv(s)
    ensures Shaped(s)
  {
  }

  lemma RegisterHasRegion(s: Regions)
    requires Shaped(s) && InitialAlloc(s).Some?
    ensures s.current < s.layout.n
  {
  }

  function Run(s: Regions, ops: seq<Op>): (r: Option<Regions>)
    requires Shaped(s)
    ensures r.Some? ==> Shaped(r.value)
    decreases |ops|
  {
    if ops == [] then Some(s)
    else
      match Step(s, ops[0])
      case None => None
      case Some(next) => Run(next, ops[1..])
  }

  lemma {:induction false} RunKeeps(s: Regions, ops: seq<Op>)
    requires Inv(s) && Run(s, ops).Some?
    ensures Inv(Run(s, ops).value)
    decreases |ops|
  {
    hide Inv, Step;
    InvShape(s);
    if ops != [] {
      StepKeeps(s, ops[0]);
      RunKeeps(Step(s, ops[0]).value, ops[1..]);
    }
  }

  // ---------- every region once per epoch ----------

  function HeldBy(cs: seq<Context>): (rs: seq<nat>)
    ensures |rs| == |cs|
  {
    seq(|cs|, i requires 0 <= i < |cs| => cs[i].held)
  }

  /** The regions handed out since the last reset, read off the contexts that received one. */
  function Given(s: Regions, op: Op, given: seq<nat>): seq<nat>
    requires Shaped(s) && Step(s, op).Some?
  {
    var q := Step(s, op).value;
    match op
    case Register => given + [q.contexts[|s.contexts|].held]
    case Refill(i) => if q == s then given else given + [q.contexts[i].held]
    case Generate(_, _) => given
    case Reset => HeldBy(q.contexts)
  }

  function RunGiven(s: Regions, ops: seq<Op>, given: seq<nat>): seq<nat>
    requires Shaped(s) && Run(s, ops).Some?
    decreases |ops|
  {
    if ops == [] then given else RunGiven(Step(s, ops[0]).value, ops[1..], Given(s, ops[0], given))
  }

  function Upto(n: nat): (rs: seq<nat>)
    ensures |rs| == n && forall i :: 0 <= i < n ==> rs[i] == i
  {
    seq(n, i => i)
  }

  lemma ResetGives(s: Regions)
    requires Shaped(s) && ResetAll(s).Some?
    ensures HeldBy(ResetAll(s).value.contexts) == Upto(ResetAll(s).value.current)
  {
    hide Start, End, ResetFrom;
    ResetSpec(s.(current := 0, full := 0), 0);
  }

  lemma StepGives(s: Regions, op: Op)
    requires Shaped(s) && Step(s, op).Some?
    ensures Given(s, op, Upto(s.current)) == Upto(Step(s, op).value.current)
  {
    hide Start, End, ResetAll;
    if op.Reset? {
      ResetGives(s);
    }
  }

  lemma {:induction false} RunGives(s: Regions, ops: seq<Op>)
    requires Shaped(s) && Run(s, ops).Some?
    ensures RunGiven(s, ops, Upto(s.current)) == Upto(Run(s, ops).value.current)
    decreases |ops|
  {
    hide Step, Given;
    if ops != [] {
      StepGives(s, ops[0]);
      RunGives(Step(s, ops[0]).value, ops[1..]);
    }
  }

  /** Over every run: the regions handed out since the last reset are 0, 1, 2, ... in order, each once; no region
      is held by two contexts, what is no longer held is exactly what the counter of full regions says, and a
      reset can fail only when there are more contexts than regions. */
  lemma RunsKeepRegions(c: Layout, reserve: nat, after: nat, ops: seq<Op>)
    requires WellLaid(c) && c.start <= after <= c.start + c.size
    requires Run(Initialized(c, reserve, after), ops).Some?
    ensures var s := Run(Initialized(c, reserve, after), ops).value;
            && RunGiven(Initialized(c, reserve, after), ops, [0]) == Upto(s.current) && s.current <= s.layout.n
            && Distinct(s.contexts) && s.full == Retired(s.layout, s.reserve, s.contexts, s.current)
            && (ResetAll(s).Some? <==> |s.contexts| <= s.layout.n)
  {
    var first := Initialized(c, reserve, after);
    assert first.current == 1 && Upto(1) == [0];
    hide Run, Initialized, ResetAll, Retired, RunGiven;
    RunGives(first, ops);
    InitializedInv(c, reserve, after);
    RunKeeps(first, ops);
    ResetKeeps(Run(first, ops).value);
  }
}
