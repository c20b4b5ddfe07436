/** Every run of the frame protocol reuses and frees only what the GPU has finished with. */
module FramesSafety {
  import opened Frames

  // ---------- what is proved ----------

  /** The frame that owns a resource; pages are dealt out in blocks. */
  predicate OwnedBy(r: Resource, f: nat) {
    match r
    case Allocator(g) => g == f
    case Page(p) => f * PAGES_PER_FRAME <= p < f * PAGES_PER_FRAME + PAGES_PER_FRAME
    case Upload(g, _) => g == f
    case Shared(_) => true
    case Temporary(t) => t.frame == f
  }

  /** At the time of the touch, every executed list that uses the resource had finished; and what was freed
      is used by no later list. */
  ghost predicate TouchSafe(tr: Trace, t: Touch) {
    t.lists <= |tr.lists| &&
    (forall i :: 0 <= i < t.lists && t.resource in tr.lists[i].uses ==> tr.lists[i].tag < t.reached) &&
    (t.resource.Temporary? ==> forall i :: t.lists <= i < |tr.lists| ==> t.resource !in tr.lists[i].uses)
  }

  /** The resource is not shared by the frames, or the touch is safe. */
  ghost predicate OwnTouchSafe(tr: Trace, t: Touch) {
    t.resource.Shared? || TouchSafe(tr, t)
  }

  ghost predicate OwnSafe(tr: Trace) {
    forall k :: 0 <= k < |tr.touches| ==> OwnTouchSafe(tr, tr.touches[k])
  }

  /** Owners are unique, and the pages of the three frames fit the descriptor heap. */
  lemma OwnersAreUnique(r: Resource, f: nat, g: nat)
    requires OwnedBy(r, f) && OwnedBy(r, g) && !r.Shared?
    ensures f == g
    ensures r.Page? && f < FRAMES ==> r.page < DESCRIPTOR_PAGES
  {
  }

  // ---------- invariant ----------

  predicate AllOwned(uses: set<Resource>, f: nat) {
    forall r :: r in uses ==> OwnedBy(r, f)
  }

  predicate AllFrom(ts: seq<Transient>, f: nat) {
    forall i :: 0 <= i < |ts| ==> ts[i].frame == f
  }

  /** Only upload buffers and shared buffers. */
  predicate OnlyFills(stale: set<Resource>) {
    forall x :: x in stale ==> x.Upload? || x.Shared?
  }

  /** The fence of a list's frame is at least the one signalled after the list, unless that was reached. */
  predicate Guarded(s: Device, l: List)
    requires WellFormed(s)
  {
    l.frame < FRAMES && l.tag < s.fence && AllOwned(l.uses, l.frame) && OnlyFills(l.stale) &&
    (l.tag < s.trace.reached || l.tag < s.frames[l.frame].fence)
  }

  ghost predicate Sound(s: Device) {
    WellFormed(s) && s.trace.reached <= s.fence &&
    (forall f :: 0 <= f < FRAMES ==> s.frames[f].fence <= s.fence && AllFrom(Live(s, f), f)) &&
    (forall i :: 0 <= i < |s.trace.lists| ==> Guarded(s, s.trace.lists[i])) &&
    OwnSafe(s.trace)
  }

  /** The GPU has finished every list of the frame. */
  predicate Idle(s: Device, f: nat) {
    forall i :: 0 <= i < |s.trace.lists| && s.trace.lists[i].frame == f ==> s.trace.lists[i].tag < s.trace.reached
  }

  function Ledger(done: multiset<nat>, a: seq<nat>, b: seq<nat>, c: seq<nat>): multiset<nat> {
    done + multiset(a) + multiset(b) + multiset(c)
  }

  lemma LedgerDrain(done: multiset<nat>, a: seq<nat>, b: seq<nat>, c: seq<nat>)
    ensures Ledger(done + multiset(a), [], b, c) == Ledger(done, a, b, c)
    ensures Ledger(done + multiset(b), a, [], c) == Ledger(done, a, b, c)
    ensures Ledger(done + multiset(c), a, b, []) == Ledger(done, a, b, c)
  {
  }

  /** Each transient created so far was released once or is held by one frame. */
  function TransientLedger(s: Device): multiset<nat>
    requires WellFormed(s)
  {
    Ledger(multiset(s.trace.released),
           TransientSerials(Live(s, 0)), TransientSerials(Live(s, 1)), TransientSerials(Live(s, 2)))
  }

  ghost predicate OnceEach(m: multiset<nat>, n: nat) {
    forall t: nat :: m[t] == if t < n then 1 else 0
  }

  predicate TouchesReleased(tr: Trace) {
    forall k :: 0 <= k < |tr.touches| && tr.touches[k].resource.Temporary? ==>
      tr.touches[k].resource.t.serial in tr.released
  }

  ghost predicate TransientsOnce(s: Device) {
    WellFormed(s) && OnceEach(TransientLedger(s), s.trace.created) && TouchesReleased(s.trace)
  }

  function CompletedSerials(cs: seq<Completion>): (r: seq<nat>)
    ensures |r| == |cs| && forall i :: 0 <= i < |r| ==> r[i] == cs[i].serial
  {
    seq(|cs|, i requires 0 <= i < |cs| => cs[i].serial)
  }

  /** Each writeback queued so far was completed once, dropped once, or waits in one frame. */
  function WritebackLedger(s: Device): multiset<nat>
    requires WellFormed(s)
  {
    Ledger(multiset(CompletedSerials(s.trace.completions)) + multiset(s.trace.dropped),
           Serials(Pending(s, 0)), Serials(Pending(s, 1)), Serials(Pending(s, 2)))
  }

  ghost predicate WritebacksOnce(s: Device) {
    WellFormed(s) && OnceEach(WritebackLedger(s), s.trace.queued)
  }

  predicate DistinctBounds(ws: seq<Writeback>) {
    forall i, j :: 0 <= i < j < |ws| ==> ws[i].bound != ws[j].bound
  }

  ghost predicate Bounded(s: Device) {
    WellFormed(s) &&
    forall f :: 0 <= f < FRAMES ==>
      |Live(s, f)| <= MAX_TRANSIENTS && |Pending(s, f)| <= MAX_WRITEBACKS && DistinctBounds(Pending(s, f))
  }

  ghost predicate Inv(s: Device) {
    Sound(s) && TransientsOnce(s) && WritebacksOnce(s) && Bounded(s)
  }

  // ---------- storing and selecting change nothing that matters ----------

  predicate SameContents(s: Device, q: Device)
  {
    WellFormed(s) && WellFormed(q) && q.fence == s.fence && q.trace == s.trace &&
    (forall f :: 0 <= f < FRAMES ==>
      Pending(q, f) == Pending(s, f) && Live(q, f) == Live(s, f) && q.frames[f].fence == s.frames[f].fence)
  }

  lemma StoreKeeps(s: Device)
    requires WellFormed(s)
    ensures SameContents(s, StoreFrame(s))
  {
  }

  lemma SelectKeeps(s: Device, f: nat)
    requires WellFormed(s) && f < FRAMES
    ensures SameContents(s, SelectFrame(s, f))
  {
  }

  lemma SameSound(s: Device, q: Device)
    requires SameContents(s, q) && Sound(s)
    ensures Sound(q)
    ensures forall f :: Idle(s, f) ==> Idle(q, f)
  {
  }

  lemma SameLedgers(s: Device, q: Device)
    requires SameContents(s, q)
    ensures TransientLedger(q) == TransientLedger(s) && WritebackLedger(q) == WritebackLedger(s)
  {
  }

  lemma SameInv(s: Device, q: Device)
    requires SameContents(s, q) && Inv(s)
    ensures Inv(q)
  {
    hide Sound;
    SameSound(s, q);
    SameLedgers(s, q);
  }

  // ---------- waiting ----------

  /** The device after the wait for its selected frame ended. */
  function Seen(s: Device, w: Wait): Device
    requires WellFormed(s)
  {
    var fence := s.frames[s.frameIndex].fence;
    if fence == 0 then s else s.(trace := s.trace.(reached := SeenReached(s.trace.reached, w, fence, s.fence)))
  }

  lemma SeenSound(s: Device, w: Wait)
    requires Sound(s)
    ensures Sound(Seen(s, w)) && Idle(Seen(s, w), s.frameIndex)
    ensures s.trace.reached <= Seen(s, w).trace.reached
  {
    var q := Seen(s, w);
    forall i | 0 <= i < |s.trace.lists|
      ensures Guarded(q, s.trace.lists[i])
      ensures s.trace.lists[i].frame == s.frameIndex ==> s.trace.lists[i].tag < q.trace.reached
    {
      assert Guarded(s, s.trace.lists[i]);
    }
    forall k | 0 <= k < |s.trace.touches| ensures OwnTouchSafe(q.trace, s.trace.touches[k]) {
      assert OwnTouchSafe(s.trace, s.trace.touches[k]);
    }
  }

  lemma RetireWritebacksSound(s: Device)
    requires Sound(s)
    ensures Sound(RetireWritebacks(s))
    ensures forall f :: Idle(s, f) ==> Idle(RetireWritebacks(s), f)
  {
    hide OwnTouchSafe;
    var q := RetireWritebacks(s);
    forall i | 0 <= i < |s.trace.lists| ensures Guarded(q, s.trace.lists[i]) {
      assert Guarded(s, s.trace.lists[i]);
    }
    forall k | 0 <= k < |s.trace.touches| ensures OwnTouchSafe(q.trace, s.trace.touches[k]) {
      SameListsTouch(s.trace, q.trace, s.trace.touches[k]);
    }
  }

  lemma SameListsTouch(tr: Trace, ur: Trace, t: Touch)
    requires OwnTouchSafe(tr, t) && ur.lists == tr.lists
    ensures OwnTouchSafe(ur, t)
  {
  }

  /** A touch of the idle frame's resources is safe. */
  lemma IdleTouch(s: Device, r: Resource, f: nat)
    requires Sound(s) && OwnedBy(r, f) && Idle(s, f)
    ensures OwnTouchSafe(s.trace, Touch(r, |s.trace.lists|, s.trace.reached))
  {
    forall i | 0 <= i < |s.trace.lists| && r in s.trace.lists[i].uses && !r.Shared?
      ensures s.trace.lists[i].tag < s.trace.reached
    {
      assert Guarded(s, s.trace.lists[i]);
      OwnersAreUnique(r, f, s.trace.lists[i].frame);
    }
  }

  lemma RetireTransientsSound(s: Device)
    requires Sound(s) && Idle(s, s.frameIndex)
    ensures Sound(RetireTransients(s)) && Idle(RetireTransients(s), s.frameIndex)
  {
    hide OwnTouchSafe;
    var q := RetireTransients(s);
    forall i | 0 <= i < |s.trace.lists| ensures Guarded(q, s.trace.lists[i]) {
      assert Guarded(s, s.trace.lists[i]);
    }
    forall k | 0 <= k < |q.trace.touches| ensures OwnTouchSafe(q.trace, q.trace.touches[k]) {
      if k < |s.trace.touches| {
        SameListsTouch(s.trace, q.trace, s.trace.touches[k]);
      } else {
        var t := s.transients[k - |s.trace.touches|];
        assert AllFrom(Live(s, s.frameIndex), s.frameIndex);
        IdleTouch(s, Temporary(t), s.frameIndex);
        SameListsTouch(s.trace, q.trace, q.trace.touches[k]);
      }
    }
  }

  /** Moves the pending writebacks of the selected frame to the completed or the dropped ones. */
  lemma RetireWritebacksOnce(s: Device)
    requires WellFormed(s)
    ensures WritebackLedger(RetireWritebacks(s)) == WritebackLedger(s)
  {
    hide Ledger;
    var q := RetireWritebacks(s);
    RetiredWritebacks(s);
    LedgerDrain(multiset(CompletedSerials(s.trace.completions)) + multiset(s.trace.dropped),
                Serials(Pending(s, 0)), Serials(Pending(s, 1)), Serials(Pending(s, 2)));
    assert forall f :: 0 <= f < FRAMES && f != s.frameIndex ==> Pending(q, f) == Pending(s, f);
  }

  lemma RetiredWritebacks(s: Device)
    requires WellFormed(s)
    ensures var q := RetireWritebacks(s);
            multiset(CompletedSerials(q.trace.completions)) + multiset(q.trace.dropped) ==
            multiset(CompletedSerials(s.trace.completions)) + multiset(s.trace.dropped) +
            multiset(Serials(s.writebacks))
    ensures Serials(Pending(RetireWritebacks(s), s.frameIndex)) == []
  {
    var q := RetireWritebacks(s);
    if s.frames[s.frameIndex].fence != 0 {
      assert CompletedSerials(q.trace.completions) == CompletedSerials(s.trace.completions) + Serials(s.writebacks);
      Rotate(multiset(CompletedSerials(s.trace.completions)), multiset(s.trace.dropped),
             multiset(Serials(s.writebacks)));
    } else {
      assert multiset(q.trace.dropped) == multiset(s.trace.dropped) + multiset(Serials(s.writebacks));
    }
  }

  lemma Rotate(a: multiset<nat>, b: multiset<nat>, c: multiset<nat>)
    ensures a + c + b == a + b + c && a + (b + c) == a + b + c
  {
  }

  lemma RetireTransientsOnce(s: Device)
    requires WellFormed(s)
    ensures TransientLedger(RetireTransients(s)) == TransientLedger(s)
  {
    hide Ledger;
    var q := RetireTransients(s);
    assert multiset(q.trace.released) == multiset(s.trace.released) + multiset(TransientSerials(s.transients));
    LedgerDrain(multiset(s.trace.released),
                TransientSerials(Live(s, 0)), TransientSerials(Live(s, 1)), TransientSerials(Live(s, 2)));
    assert TransientSerials([]) == [];
    assert forall f :: 0 <= f < FRAMES && f != s.frameIndex ==> Live(q, f) == Live(s, f);
  }

  lemma SameTouches(tr: Trace, ur: Trace)
    requires TouchesReleased(tr) && ur.touches == tr.touches && ur.released == tr.released
    ensures TouchesReleased(ur)
  {
  }

  lemma RetireTransientsTouches(s: Device)
    requires WellFormed(s) && TouchesReleased(s.trace)
    ensures TouchesReleased(RetireTransients(s).trace)
  {
    var q := RetireTransients(s);
    forall k | 0 <= k < |q.trace.touches| && q.trace.touches[k].resource.Temporary?
      ensures q.trace.touches[k].resource.t.serial in q.trace.released
    {
      if k >= |s.trace.touches| {
        assert q.trace.touches[k].resource.t.serial == TransientSerials(s.transients)[k - |s.trace.touches|];
      }
    }
  }

  /** The parts of a wait, in order. */
  lemma WaitUnfold(env: Environment, s: Device, f: nat)
    requires WellFormed(s) && f < FRAMES
    ensures var selected := SelectFrame(s, f);
            var waited := selected.(trace := selected.trace.(waits := s.trace.waits + 1));
            var w := env(s.trace.waits);
            WaitFrame(env, s, f) ==
              if TimesOut(w, selected.frames[f].fence, s.fence) then (waited, false)
              else (StoreFrame(RetireTransients(RetireWritebacks(Seen(waited, w)))),
                    !(selected.frames[f].fence != 0 && selected.writebacks != [] && w.faulty))
  {
    hide RetireTransients, RetireWritebacks, TimesOut, SeenReached;
  }

  /** The parts of the trace that the invariant speaks of. */
  predicate SameTrace(tr: Trace, ur: Trace) {
    ur.lists == tr.lists && ur.reached == tr.reached && ur.touches == tr.touches && ur.created == tr.created &&
    ur.released == tr.released && ur.queued == tr.queued && ur.completions == tr.completions && ur.dropped == tr.dropped
  }

  lemma SameTraceInv(s: Device, ur: Trace)
    requires Inv(s) && SameTrace(s.trace, ur)
    ensures Inv(s.(trace := ur))
    ensures forall f :: Idle(s, f) ==> Idle(s.(trace := ur), f)
  {
    hide OwnTouchSafe;
    var q := s.(trace := ur);
    forall i | 0 <= i < |s.trace.lists| ensures Guarded(q, s.trace.lists[i]) {
      assert Guarded(s, s.trace.lists[i]);
    }
    forall k | 0 <= k < |s.trace.touches| ensures OwnTouchSafe(q.trace, s.trace.touches[k]) {
      SameListsTouch(s.trace, q.trace, s.trace.touches[k]);
    }
    assert forall f :: 0 <= f < FRAMES ==> Live(q, f) == Live(s, f) && Pending(q, f) == Pending(s, f);
  }

  lemma SeenInv(s: Device, w: Wait)
    requires Inv(s)
    ensures WellFormed(Seen(s, w)) && Inv(Seen(s, w)) && Idle(Seen(s, w), s.frameIndex)
  {
    hide Sound;
    SeenSound(s, w);
    var q := Seen(s, w);
    assert forall f :: 0 <= f < FRAMES ==> Live(q, f) == Live(s, f) && Pending(q, f) == Pending(s, f);
  }

  lemma RetireInv(s: Device)
    requires Inv(s) && Idle(s, s.frameIndex)
    ensures Inv(RetireTransients(RetireWritebacks(s)))
    ensures Idle(RetireTransients(RetireWritebacks(s)), s.frameIndex)
  {
    hide Sound, TransientLedger, WritebackLedger, OnceEach, Idle, TouchesReleased, RetireTransients, RetireWritebacks;
    var q := RetireWritebacks(s);
    var r := RetireTransients(q);
    RetiredShape(s);
    RetireWritebacksSound(s);
    RetireTransientsSound(q);
    RetireWritebacksOnce(s);
    RetireTransientsOnce(q);
    LedgerOfTransients(s, q);
    LedgerOfWritebacks(q, r);
    SameTouches(s.trace, q.trace);
    RetireTransientsTouches(q);
    RetiredBounds(s);
  }

  /** What retiring the selected frame leaves alone. */
  lemma RetiredShape(s: Device)
    requires WellFormed(s)
    ensures var q := RetireWritebacks(s); var r := RetireTransients(q);
            && WellFormed(q) && WellFormed(r) && q.frameIndex == s.frameIndex == r.frameIndex
            && q.trace.released == s.trace.released && q.trace.touches == s.trace.touches
            && q.trace.created == s.trace.created == r.trace.created
            && q.trace.queued == s.trace.queued == r.trace.queued
            && r.trace.completions == q.trace.completions && r.trace.dropped == q.trace.dropped
            && (forall f :: 0 <= f < FRAMES ==> Live(q, f) == Live(s, f) && Pending(r, f) == Pending(q, f))
  {
  }

  lemma RetiredBounds(s: Device)
    requires Bounded(s)
    ensures Bounded(RetireTransients(RetireWritebacks(s)))
  {
    var r := RetireTransients(RetireWritebacks(s));
    assert Live(r, s.frameIndex) == [] && Pending(r, s.frameIndex) == [];
    assert forall f :: 0 <= f < FRAMES && f != s.frameIndex ==>
           Live(r, f) == Live(s, f) && Pending(r, f) == Pending(s, f);
  }

  lemma LedgerOfTransients(s: Device, q: Device)
    requires WellFormed(s) && WellFormed(q) && q.trace.released == s.trace.released
    requires Live(q, 0) == Live(s, 0) && Live(q, 1) == Live(s, 1) && Live(q, 2) == Live(s, 2)
    ensures TransientLedger(q) == TransientLedger(s)
  {
  }

  lemma LedgerOfWritebacks(s: Device, q: Device)
    requires WellFormed(s) && WellFormed(q)
    requires q.trace.completions == s.trace.completions && q.trace.dropped == s.trace.dropped
    requires Pending(q, 0) == Pending(s, 0) && Pending(q, 1) == Pending(s, 1) && Pending(q, 2) == Pending(s, 2)
    ensures WritebackLedger(q) == WritebackLedger(s)
  {
  }

  /** A wait keeps the invariant; when it succeeds the frame is idle and holds nothing. */
  lemma WaitKeeps(env: Environment, s: Device, f: nat)
    requires Inv(s) && f < FRAMES
    ensures var (q, ok) := WaitFrame(env, s, f);
            Inv(q) && (ok ==> Idle(q, f) && q.transients == [] && q.writebacks == [])
  {
    hide Inv, Idle, TimesOut, WaitFrame, Seen, RetireTransients, RetireWritebacks;
    InvShape(s);
    WaitUnfold(env, s, f);
    var selected := SelectFrame(s, f);
    var w := env(s.trace.waits);
    SelectKeeps(s, f);
    SameInv(s, selected);
    SameTraceInv(selected, selected.trace.(waits := s.trace.waits + 1));
    var waited := selected.(trace := selected.trace.(waits := s.trace.waits + 1));
    SeenInv(waited, w);
    var seen := Seen(waited, w);
    InvShape(seen);
    SeenShape(waited, w);
    var retired := RetireTransients(RetireWritebacks(seen));
    RetireInv(seen);
    InvShape(retired);
    RetiredEmpty(seen);
    StoreKeeps(retired);
    SameInv(retired, StoreFrame(retired));
    StoreIdle(retired, f);
  }

  lemma SeenShape(s: Device, w: Wait)
    requires WellFormed(s)
    ensures Seen(s, w).frameIndex == s.frameIndex
  {
  }

  lemma RetiredEmpty(s: Device)
    requires WellFormed(s)
    ensures var r := RetireTransients(RetireWritebacks(s));
            r.frameIndex == s.frameIndex && r.transients == [] && r.writebacks == []
  {
  }

  lemma InvShape(s: Device)
    requires Inv(s)
    ensures WellFormed(s)
  {
  }

  lemma StoreIdle(s: Device, f: nat)
    requires WellFormed(s) && Idle(s, f)
    ensures Idle(StoreFrame(s), f)
  {
  }

  // ---------- recording ----------

  lemma TouchKeeps(s: Device, r: Resource, f: nat, stale: set<Resource>)
    requires Inv(s) && OwnedBy(r, f) && Idle(s, f) && !r.Temporary?
    ensures var q := s.(trace := Touched(s.trace, r).(stale := stale)); Inv(q) && Idle(q, f)
  {
    hide OwnTouchSafe, OwnedBy, OnceEach;
    var q := s.(trace := Touched(s.trace, r).(stale := stale));
    IdleTouch(s, r, f);
    forall i | 0 <= i < |s.trace.lists| ensures Guarded(q, s.trace.lists[i]) {
      assert Guarded(s, s.trace.lists[i]);
    }
    forall k | 0 <= k < |q.trace.touches| ensures OwnTouchSafe(q.trace, q.trace.touches[k]) {
      SameListsTouch(s.trace, q.trace, q.trace.touches[k]);
    }
    assert forall f :: 0 <= f < FRAMES ==> Live(q, f) == Live(s, f) && Pending(q, f) == Pending(s, f);
  }

  lemma LedgerAdds(done: multiset<nat>, a: seq<nat>, b: seq<nat>, c: seq<nat>, x: nat)
    ensures Ledger(done, a + [x], b, c) == Ledger(done, a, b, c) + multiset{x}
    ensures Ledger(done, a, b + [x], c) == Ledger(done, a, b, c) + multiset{x}
    ensures Ledger(done, a, b, c + [x]) == Ledger(done, a, b, c) + multiset{x}
  {
  }

  lemma OneMore(m: multiset<nat>, n: nat)
    requires OnceEach(m, n)
    ensures OnceEach(m + multiset{n}, n + 1)
  {
  }

  function Created(s: Device): Device {
    s.(transients := s.transients + [Transient(s.frameIndex, s.trace.created)],
       trace := s.trace.(created := s.trace.created + 1))
  }

  lemma CreateSound(s: Device)
    requires Sound(s)
    ensures Sound(Created(s))
    ensures Idle(s, s.frameIndex) ==> Idle(Created(s), s.frameIndex)
  {
    hide OwnTouchSafe;
    var q := Created(s);
    forall i | 0 <= i < |s.trace.lists| ensures Guarded(q, s.trace.lists[i]) {
      assert Guarded(s, s.trace.lists[i]);
    }
    forall k | 0 <= k < |q.trace.touches| ensures OwnTouchSafe(q.trace, q.trace.touches[k]) {
      SameListsTouch(s.trace, q.trace, q.trace.touches[k]);
    }
    forall f | 0 <= f < FRAMES ensures AllFrom(Live(q, f), f) {
      assert AllFrom(Live(s, f), f);
    }
  }

  lemma CreateOnce(s: Device)
    requires TransientsOnce(s)
    ensures TransientsOnce(Created(s))
  {
    hide Ledger, OnceEach;
    var q := Created(s);
    assert TransientSerials(q.transients) == TransientSerials(s.transients) + [s.trace.created];
    LedgerAdds(multiset(s.trace.released),
               TransientSerials(Live(s, 0)), TransientSerials(Live(s, 1)), TransientSerials(Live(s, 2)),
               s.trace.created);
    assert forall f :: 0 <= f < FRAMES && f != s.frameIndex ==> Live(q, f) == Live(s, f);
    assert TransientLedger(q) == TransientLedger(s) + multiset{s.trace.created};
    OneMore(TransientLedger(s), s.trace.created);
  }

  lemma CreateKeeps(s: Device)
    requires Inv(s) && |s.transients| < MAX_TRANSIENTS
    ensures Inv(Created(s))
    ensures Idle(s, s.frameIndex) ==> Idle(Created(s), s.frameIndex)
  {
    hide Sound, Idle, TransientsOnce, OnceEach;
    CreateSound(s);
    CreateOnce(s);
    var q := Created(s);
    LedgerOfWritebacks(s, q);
    assert forall f :: 0 <= f < FRAMES ==> Pending(q, f) == Pending(s, f);
    assert forall f :: 0 <= f < FRAMES && f != s.frameIndex ==> Live(q, f) == Live(s, f);
  }

  function WithWriteback(s: Device, bound: nat, address: nat, size: nat): Device {
    s.(writebacks := s.writebacks + [Writeback(bound, address, size, s.trace.queued)],
       trace := s.trace.(queued := s.trace.queued + 1))
  }

  lemma QueueSound(s: Device, bound: nat, address: nat, size: nat)
    requires Sound(s)
    ensures Sound(WithWriteback(s, bound, address, size))
    ensures Idle(s, s.frameIndex) ==> Idle(WithWriteback(s, bound, address, size), s.frameIndex)
  {
    hide OwnTouchSafe;
    var q := WithWriteback(s, bound, address, size);
    forall i | 0 <= i < |s.trace.lists| ensures Guarded(q, s.trace.lists[i]) {
      assert Guarded(s, s.trace.lists[i]);
    }
    forall k | 0 <= k < |q.trace.touches| ensures OwnTouchSafe(q.trace, q.trace.touches[k]) {
      SameListsTouch(s.trace, q.trace, q.trace.touches[k]);
    }
    assert forall f :: 0 <= f < FRAMES ==> Live(q, f) == Live(s, f);
  }

  lemma QueueOnce(s: Device, bound: nat, address: nat, size: nat)
    requires WritebacksOnce(s)
    ensures WritebacksOnce(WithWriteback(s, bound, address, size))
  {
    hide Ledger, OnceEach;
    var q := WithWriteback(s, bound, address, size);
    assert Serials(q.writebacks) == Serials(s.writebacks) + [s.trace.queued];
    LedgerAdds(multiset(CompletedSerials(s.trace.completions)) + multiset(s.trace.dropped),
               Serials(Pending(s, 0)), Serials(Pending(s, 1)), Serials(Pending(s, 2)), s.trace.queued);
    assert forall f :: 0 <= f < FRAMES && f != s.frameIndex ==> Pending(q, f) == Pending(s, f);
    assert WritebackLedger(q) == WritebackLedger(s) + multiset{s.trace.queued};
    OneMore(WritebackLedger(s), s.trace.queued);
  }

  lemma QueueKeeps(s: Device, bound: nat, address: nat, size: nat)
    requires Inv(s) && |s.writebacks| < MAX_WRITEBACKS && !Queued(s.writebacks, bound)
    ensures Inv(WithWriteback(s, bound, address, size))
    ensures Idle(s, s.frameIndex) ==> Idle(WithWriteback(s, bound, address, size), s.frameIndex)
  {
    hide Sound, Idle, WritebacksOnce, OnceEach;
    QueueSound(s, bound, address, size);
    QueueOnce(s, bound, address, size);
    var q := WithWriteback(s, bound, address, size);
    LedgerOfTransients(s, q);
    assert forall f :: 0 <= f < FRAMES ==> Live(q, f) == Live(s, f);
    assert forall f :: 0 <= f < FRAMES && f != s.frameIndex ==> Pending(q, f) == Pending(s, f);
    assert DistinctBounds(Pending(s, s.frameIndex));
  }

  /** A list that refers only to what its frame owns, and to transients it still holds. */
  ghost predicate Executable(r: Recording) {
    Inv(r.device) && AllOwned(r.uses, r.device.frameIndex) &&
    (forall t :: Temporary(t) in r.uses ==> t in r.device.transients) && OnlyFills(r.device.trace.stale)
  }

  ghost predicate Recordable(r: Recording) {
    Executable(r) && Idle(r.device, r.device.frameIndex) &&
    r.device.frameIndex * PAGES_PER_FRAME <= r.device.page <= r.device.limit &&
    r.device.limit == r.device.frameIndex * PAGES_PER_FRAME + PAGES_PER_FRAME &&
    PagesBelow(r.uses, r.device.page)
  }

  /** The recording refers only to pages it was dealt. */
  ghost predicate PagesBelow(uses: set<Resource>, page: nat) {
    forall p: nat :: Page(p) in uses ==> p < page
  }

  lemma BeginKeeps(s: Device, f: nat)
    requires Inv(s) && s.frameIndex == f && Idle(s, f) && s.writebacks == []
    ensures Recordable(BeginRecording(s, f))
  {
    hide Inv, Idle;
    InvShape(s);
    TouchKeeps(s, Allocator(f), f, {});
    var q := s.(trace := Opening(s.trace, f));
    PagesKeep(q, f * PAGES_PER_FRAME, f * PAGES_PER_FRAME + PAGES_PER_FRAME);
  }

  lemma PagesKeep(s: Device, page: nat, limit: nat)
    requires Inv(s)
    ensures Inv(s.(page := page, limit := limit))
    ensures forall f :: Idle(s, f) ==> Idle(s.(page := page, limit := limit), f)
  {
    hide Sound, TransientLedger, WritebackLedger;
    var q := s.(page := page, limit := limit);
    assert SameContents(s, q);
    SameInv(s, q);
    SameSound(s, q);
  }

  lemma RecordKeeps(r: Recording, a: Action)
    requires Recordable(r)
    ensures WellFormed(r.device) && Recordable(Record(r, a))
  {
    hide Inv, Idle, Queued;
    var s := r.device;
    InvShape(s);
    match a
    case TakePage =>
      if s.page < s.limit {
        var tr := Overwritten(s.trace, r.uses, Page(s.page));
        TouchKeeps(s, Page(s.page), s.frameIndex, tr.stale);
        PagesKeep(s.(trace := tr), s.page + 1, s.limit);
      }
    case FillUpload(bound) =>
      var x := Upload(s.frameIndex, bound);
      TouchKeeps(s, x, s.frameIndex, Overwritten(s.trace, r.uses, x).stale);
    case FillShared(id) =>
      TouchKeeps(s, Shared(id), s.frameIndex, Overwritten(s.trace, r.uses, Shared(id)).stale);
    case UseShared(id) =>
    case Evict(ids) =>
      SameTraceInv(s, Evicted(s, ids).trace);
    case CreateTransient =>
      if |s.transients| < MAX_TRANSIENTS {
        CreateKeeps(s);
      }
    case QueueWriteback(bound, address, size) =>
      if !(Queued(s.writebacks, bound) || |s.writebacks| >= MAX_WRITEBACKS) {
        QueueKeeps(s, bound, address, size);
      }
  }

  lemma RecordableShape(r: Recording)
    requires Recordable(r)
    ensures WellFormed(r.device)
  {
  }

  lemma {:induction false} RecordAllKeeps(r: Recording, actions: seq<Action>)
    requires Recordable(r)
    ensures WellFormed(r.device) && Recordable(RecordAll(r, actions))
    decreases |actions|
  {
    hide Recordable, Record;
    RecordableShape(r);
    if actions != [] {
      RecordAllKeeps(r, actions[..|actions| - 1]);
      RecordKeeps(RecordAll(r, actions[..|actions| - 1]), actions[|actions| - 1]);
    }
  }

  // ---------- executing and signalling ----------

  lemma ExecuteSound(r: Recording)
    requires Executable(r)
    ensures Sound(Signal(Execute(r)))
  {
    hide OwnTouchSafe, TransientLedger, WritebackLedger, OnceEach, Bounded;
    var s := r.device;
    var q := Signal(Execute(r));
    forall i | 0 <= i < |q.trace.lists| ensures Guarded(q, q.trace.lists[i]) {
      if i < |s.trace.lists| {
        assert Guarded(s, s.trace.lists[i]);
      }
    }
    forall k | 0 <= k < |q.trace.touches| ensures OwnTouchSafe(q.trace, q.trace.touches[k]) {
      ListAppendedTouch(r, s.trace.touches[k]);
    }
    assert forall f :: 0 <= f < FRAMES ==> Live(q, f) == Live(s, f);
  }

  /** A freed transient is not in use by the list being recorded. */
  lemma ListAppendedTouch(r: Recording, t: Touch)
    requires Executable(r) && t in r.device.trace.touches && OwnTouchSafe(r.device.trace, t)
    ensures OwnTouchSafe(Execute(r).trace, t)
  {
    hide TransientLedger, WritebackLedger, Bounded;
    if t.resource.Temporary? && t.resource in r.uses {
      LiveIsNotReleased(r.device, t.resource.t);
    }
  }

  lemma LiveIsNotReleased(s: Device, t: Transient)
    requires TransientsOnce(s) && t in s.transients
    ensures t.serial !in s.trace.released
  {
    var ts := TransientSerials(s.transients);
    var i :| 0 <= i < |s.transients| && s.transients[i] == t;
    assert ts[i] == t.serial && ts == TransientSerials(Live(s, s.frameIndex));
    assert t.serial in multiset(ts);
    assert TransientLedger(s)[t.serial] >= multiset(s.trace.released)[t.serial] + 1;
  }

  lemma SignalKeeps(s: Device)
    requires Inv(s)
    ensures Inv(Signal(s))
  {
    hide OwnTouchSafe, TransientLedger, WritebackLedger, OnceEach;
    var q := Signal(s);
    forall i | 0 <= i < |s.trace.lists| ensures Guarded(q, s.trace.lists[i]) {
      assert Guarded(s, s.trace.lists[i]);
    }
    forall k | 0 <= k < |s.trace.touches| ensures OwnTouchSafe(q.trace, s.trace.touches[k]) {
      SameListsTouch(s.trace, q.trace, s.trace.touches[k]);
    }
    assert forall f :: 0 <= f < FRAMES ==> Live(q, f) == Live(s, f) && Pending(q, f) == Pending(s, f);
    LedgerOfTransients(s, q);
    LedgerOfWritebacks(s, q);
  }

  lemma ExecuteKeeps(r: Recording)
    requires Executable(r)
    ensures Inv(Signal(Execute(r)))
  {
    hide Sound, TransientLedger, WritebackLedger, OnceEach, Idle, AllOwned;
    ExecuteSound(r);
    var s := r.device;
    var q := Signal(Execute(r));
    SoundShape(q);
    assert forall f :: 0 <= f < FRAMES ==> Live(q, f) == Live(s, f) && Pending(q, f) == Pending(s, f);
    LedgerOfTransients(s, q);
    LedgerOfWritebacks(s, q);
    SameTouches(s.trace, q.trace);
  }

  lemma SoundShape(s: Device)
    requires Sound(s)
    ensures WellFormed(s)
  {
  }

  // ---------- whole calls ----------

  predicate Empty(s: Device, f: nat)
    requires WellFormed(s) && f < FRAMES
  {
    Idle(s, f) && Pending(s, f) == [] && Live(s, f) == []
  }

  /** A wait for one frame leaves what was idle and empty so. */
  lemma WaitOthers(env: Environment, s: Device, f: nat, g: nat)
    requires Inv(s) && f < FRAMES && g < FRAMES && g != f
    ensures var q := WaitFrame(env, s, f).0;
            q.trace.lists == s.trace.lists && q.trace.reached >= s.trace.reached &&
            Pending(q, g) == Pending(s, g) && Live(q, g) == Live(s, g)
  {
    hide Inv, TimesOut, WaitFrame, CompletedSerials;
    InvShape(s);
    WaitUnfold(env, s, f);
  }

  lemma {:induction false} WaitFromKeeps(env: Environment, s: Device, i: nat)
    requires Inv(s) && i <= FRAMES && (forall f :: 0 <= f < i ==> Empty(s, f))
    ensures var (q, ok) := WaitFrom(env, s, i);
            Inv(q) && (ok ==> forall f :: 0 <= f < FRAMES ==> Empty(q, f))
    decreases FRAMES - i
  {
    hide Inv, Idle, WaitFrame;
    InvShape(s);
    if i < FRAMES {
      WaitKeeps(env, s, i);
      var (q, ok) := WaitFrame(env, s, i);
      if ok {
        forall f | 0 <= f < i ensures Empty(q, f) {
          assert Empty(s, f);
          WaitOthers(env, s, i, f);
          StaysIdle(s, q, f);
        }
        WaitFromKeeps(env, q, i + 1);
      } else {
        ReadyKeeps(q, false);
      }
    }
  }

  lemma StaysIdle(s: Device, q: Device, f: nat)
    requires Idle(s, f) && q.trace.lists == s.trace.lists && q.trace.reached >= s.trace.reached
    ensures Idle(q, f)
  {
  }

  lemma ReadyKeeps(s: Device, ready: bool)
    requires Inv(s)
    ensures Inv(s.(ready := ready))
  {
    hide Sound, TransientLedger, WritebackLedger;
    SoundShape(s);
    assert SameContents(s, s.(ready := ready));
    SameInv(s, s.(ready := ready));
  }

  lemma NextFrameKeeps(s: Device, n: nat)
    requires Inv(s) && n < FRAMES
    ensures Inv(s.(nextFrame := n))
  {
    hide Sound, TransientLedger, WritebackLedger;
    SoundShape(s);
    assert SameContents(s, s.(nextFrame := n));
    SameInv(s, s.(nextFrame := n));
  }

  /** After a finish that succeeds, the GPU has finished every list and no frame holds anything. */
  lemma FinishKeeps(env: Environment, s: Device)
    requires Inv(s)
    ensures var (q, ok) := DoFinish(env, s);
            Inv(q) && (ok ==> forall f :: 0 <= f < FRAMES ==> Empty(q, f))
  {
    hide Inv, Empty, WaitFrom;
    InvShape(s);
    if s.ready {
      StoreKeeps(s);
      SameInv(s, StoreFrame(s));
      SignalKeeps(StoreFrame(s));
      WaitFromKeeps(env, Signal(StoreFrame(s)), 0);
    }
  }

  lemma SubmitKeeps(env: Environment, s: Device, actions: seq<Action>, aborted: bool)
    requires Inv(s)
    ensures Inv(DoSubmit(env, s, actions, aborted).0)
  {
    hide Inv, Idle, WaitFrame, RecordAll, Execute, Signal;
    InvShape(s);
    if s.ready {
      var f := s.nextFrame;
      NextFrameKeeps(s, (f + 1) % FRAMES);
      var t := s.(nextFrame := (f + 1) % FRAMES);
      WaitKeeps(env, t, f);
      var (waited, ok) := WaitFrame(env, t, f);
      if ok {
        BeginKeeps(waited, f);
        RecordAllKeeps(BeginRecording(waited, f), actions);
        var recorded := RecordAll(BeginRecording(waited, f), actions);
        if !aborted {
          ExecuteKeeps(recorded);
          InvShape(Signal(Execute(recorded)));
          StoreKeeps(Signal(Execute(recorded)));
          SameInv(Signal(Execute(recorded)), StoreFrame(Signal(Execute(recorded))));
        }
      } else {
        ReadyKeeps(waited, false);
      }
    }
  }

  lemma BarrierExecutable(s: Device)
    requires Inv(s) && s.frameIndex < FRAMES && Empty(s, s.frameIndex)
    ensures Executable(Recording(s.(trace := Opening(s.trace, s.frameIndex)), {Allocator(s.frameIndex)}))
  {
    hide Inv;
    TouchKeeps(s, Allocator(s.frameIndex), s.frameIndex, {});
  }

  lemma PublishKeeps(env: Environment, s: Device, transition: bool)
    requires Inv(s)
    ensures Inv(DoPublish(env, s, transition).0)
  {
    hide Inv, Empty, DoFinish, Executable, Execute, Signal;
    InvShape(s);
    FinishKeeps(env, s);
    var (q, ok) := DoFinish(env, s);
    if ok {
      InvShape(q);
      if transition {
        BarrierExecutable(q);
        ExecuteKeeps(Recording(q.(trace := Opening(q.trace, q.frameIndex)), {Allocator(q.frameIndex)}));
      } else {
        SignalKeeps(q);
      }
    }
  }

  lemma FinishBarrier(env: Environment, s: Device, r: Recording)
    requires WellFormed(s) && s.ready
    requires r == Recording(s.(trace := Opening(s.trace, s.frameIndex)), {Allocator(s.frameIndex)})
    ensures WellFormed(Barrier(s)) && DoFinish(env, Barrier(s)) == WaitFrom(env, StoreFrame(Signal(Execute(r))), 0)
  {
    hide WaitFrom;
    assert Signal(StoreFrame(Barrier(s))).frames == StoreFrame(Signal(Barrier(s))).frames;
  }

  lemma ReadKeeps(env: Environment, s: Device)
    requires Inv(s)
    ensures var (q, ok) := DoRead(env, s);
            Inv(q) && (ok ==> forall f :: 0 <= f < FRAMES ==> Empty(q, f))
  {
    hide Inv, Empty, DoFinish, Executable, Execute, Signal, WaitFrom;
    InvShape(s);
    FinishKeeps(env, s);
    var (q, ok) := DoFinish(env, s);
    if ok {
      InvShape(q);

      BarrierExecutable(q);
      var r := Recording(q.(trace := Opening(q.trace, q.frameIndex)), {Allocator(q.frameIndex)});
      ExecuteKeeps(r);
      InvShape(Signal(Execute(r)));
      StoreKeeps(Signal(Execute(r)));
      SameInv(Signal(Execute(r)), StoreFrame(Signal(Execute(r))));
      FinishBarrier(env, q, r);
      WaitFromKeeps(env, StoreFrame(Signal(Execute(r))), 0);
    }
  }

  lemma StepKeeps(env: Environment, s: Device, c: Call)
    requires Inv(s)
    ensures WellFormed(s) && Inv(Step(env, s, c))
  {
    hide Inv, DoSubmit, DoFinish, DoPublish, DoRead, Empty;
    InvShape(s);
    match c
    case Submit(actions, aborted) => SubmitKeeps(env, s, actions, aborted);
    case Finish => FinishKeeps(env, s);
    case Publish(transition) => PublishKeeps(env, s, transition);
    case ReadSurface => ReadKeeps(env, s);
  }

  lemma CreatedInv()
    ensures Inv(CREATED)
  {
  }

  lemma {:induction false} RunInv(env: Environment, calls: seq<Call>)
    ensures Inv(Run(env, CREATED, calls))
    decreases |calls|
  {
    hide Inv, Step;
    if calls == [] {
      CreatedInv();
    } else {
      RunInv(env, calls[..|calls| - 1]);
      StepKeeps(env, Run(env, CREATED, calls[..|calls| - 1]), calls[|calls| - 1]);
    }
  }

  /** Over every run: what a frame owns is reused or freed by its own calls only when it is used by no unfinished
      list, and what they freed by no later one; and no list was given anything to read that was overwritten while
      it was recorded, but upload buffers and shared buffers. */
  lemma OwnedTouchesAreSafe(env: Environment, calls: seq<Call>)
    ensures var tr := Run(env, CREATED, calls).trace;
            OwnSafe(tr) && forall i :: 0 <= i < |tr.lists| ==> OnlyFills(tr.lists[i].stale)
  {
    hide Run;
    RunInv(env, calls);
    var s := Run(env, CREATED, calls);
    forall i | 0 <= i < |s.trace.lists| ensures OnlyFills(s.trace.lists[i].stale) {
      assert Guarded(s, s.trace.lists[i]);
    }
  }

  /** Over every run, no transient is freed twice and no writeback is completed twice, or both completed and
      dropped; and after a finish that succeeds all of them have been. */
  lemma EverythingIsRetiredOnce(env: Environment, calls: seq<Call>, x: nat)
    ensures var s := Run(env, CREATED, calls);
            && multiset(s.trace.released)[x] <= (if x < s.trace.created then 1 else 0)
            && multiset(CompletedSerials(s.trace.completions))[x] + multiset(s.trace.dropped)[x] <=
                 (if x < s.trace.queued then 1 else 0)
    ensures var (q, ok) := DoFinish(env, Run(env, CREATED, calls));
            ok ==>
              && multiset(q.trace.released)[x] == (if x < q.trace.created then 1 else 0)
              && multiset(CompletedSerials(q.trace.completions))[x] + multiset(q.trace.dropped)[x] ==
                   (if x < q.trace.queued then 1 else 0)
  {
    hide Sound, Run, DoFinish, Idle, TouchesReleased, Bounded, Live, Pending;
    RunInv(env, calls);
    var s := Run(env, CREATED, calls);
    RetiredOnce(s, x);
    FinishKeeps(env, s);
    var (q, ok) := DoFinish(env, s);
    if ok {
      assert Empty(q, 0) && Empty(q, 1) && Empty(q, 2);
      RetiredOnce(q, x);
    }
  }

  lemma RetiredOnce(s: Device, x: nat)
    requires Inv(s) && WellFormed(s)
    ensures multiset(s.trace.released)[x] <= (if x < s.trace.created then 1 else 0)
    ensures multiset(CompletedSerials(s.trace.completions))[x] + multiset(s.trace.dropped)[x] <=
              (if x < s.trace.queued then 1 else 0)
    ensures Live(s, 0) == Live(s, 1) == Live(s, 2) == [] ==>
              multiset(s.trace.released)[x] == (if x < s.trace.created then 1 else 0)
    ensures Pending(s, 0) == Pending(s, 1) == Pending(s, 2) == [] ==>
              multiset(CompletedSerials(s.trace.completions))[x] + multiset(s.trace.dropped)[x] ==
              (if x < s.trace.queued then 1 else 0)
  {
    hide Sound, TouchesReleased, Bounded, Live, Pending;
    assert TransientLedger(s)[x] == (if x < s.trace.created then 1 else 0);
    assert WritebackLedger(s)[x] == (if x < s.trace.queued then 1 else 0);
  }
}
