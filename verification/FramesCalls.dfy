/** What each call hands to the GPU, what it touches, and when it succeeds. */
module FramesCalls {
  import opened Frames
  import opened FramesSafety
  import opened FramesWritebacks
  import opened FramesEvictions
  import opened FramesReadbacks

  // ---------- waits ----------

  /** After a wait the CPU knows the largest of what it knew, the value it read (the GPU reaches nothing that was not
      signalled), and the value it waited for. */
  lemma ReachedIsSeen(reached: nat, w: Wait, fence: nat, signalled: nat)
    ensures var r := SeenReached(reached, w, fence, signalled);
            var read := if w.now < signalled then w.now else signalled;
            r in {reached, read, fence} && r >= reached && r >= read && r >= fence
  {
  }

  /** A wait fails exactly when the frame was signalled and either its value was not reached in time or a readback could
      not be written to the guest. */
  lemma WaitSucceedsExactly(env: Environment, s: Device, f: nat)
    requires WellFormed(s) && f < FRAMES
    ensures var w, fence := env(s.trace.waits), s.frames[f].fence;
            var late := w.timeout && (w.now < fence || s.fence < fence);
            WaitFrame(env, s, f).1 <==> fence == 0 || (!late && !(w.faulty && Pending(s, f) != []))
  {
    hide RetireTransients, RetireWritebacks, SeenReached, WaitFrame;
    WaitUnfold(env, s, f);
    assert SelectFrame(s, f).writebacks == Pending(s, f) && SelectFrame(s, f).frames[f].fence == s.frames[f].fence;
  }

  // ---------- what one wait does to lists, touches and counters ----------

  predicate SameSubmitted(s: Device, q: Device) {
    q.trace.lists == s.trace.lists && q.fence == s.fence && q.trace.evictions == s.trace.evictions &&
    q.trace.cleared == s.trace.cleared && q.trace.created == s.trace.created && q.trace.queued == s.trace.queued
  }

  /** A wait that is not cut short frees the frame's transients, each with a touch; nothing else is touched. */
  lemma WaitTouches(env: Environment, s: Device, f: nat)
    requires WellFormed(s) && f < FRAMES
    ensures var q := WaitFrame(env, s, f).0;
            && SameSubmitted(s, q) && q.frameIndex == f && q.nextFrame == s.nextFrame
            && q.trace.touches == s.trace.touches +
                 (if TimesOut(env(s.trace.waits), s.frames[f].fence, s.fence) then []
                  else FreeTouches(Live(s, f), |s.trace.lists|, q.trace.reached))
            && (WaitFrame(env, s, f).1 ==> q.transients == [])
  {
    hide TimesOut, SeenReached, WaitFrame, Completions, Serials, TransientSerials;
    WaitUnfold(env, s, f);
    assert SelectFrame(s, f).transients == Live(s, f) && SelectFrame(s, f).frames[f].fence == s.frames[f].fence;
  }

  lemma {:induction false} WaitFromKeepsLists(env: Environment, s: Device, i: nat)
    requires WellFormed(s) && i < FRAMES
    ensures var (q, ok) := WaitFrom(env, s, i);
            q.trace.lists == s.trace.lists && q.fence == s.fence && (ok ==> q.frameIndex == FRAMES - 1)
    decreases FRAMES - i
  {
    hide WaitFrame;
    WaitTouches(env, s, i);
    var (q, ok) := WaitFrame(env, s, i);
    if ok && i + 1 < FRAMES {
      WaitFromKeepsLists(env, q, i + 1);
    }
  }

  /** A finish executes nothing, signals once, and leaves the last frame selected. */
  lemma FinishExecutesNothing(env: Environment, s: Device)
    requires WellFormed(s)
    ensures var (q, ok) := DoFinish(env, s);
            q.trace.lists == s.trace.lists && q.fence == (if s.ready then s.fence + 1 else s.fence) &&
            (ok ==> q.frameIndex == FRAMES - 1 && s.ready)
  {
    hide WaitFrom;
    if s.ready {
      WaitFromKeepsLists(env, Signal(StoreFrame(s)), 0);
    }
  }

  // ---------- publish and read ----------

  /** The list a publication or a readback records: it refers only to the allocator of its frame and copies no
      writeback. */
  predicate IsBarrier(l: List, frame: nat, tag: nat) {
    l.frame == frame && l.tag == tag && l.uses == {Allocator(frame)} && l.copies == [] && l.bounds == {} &&
    l.stale == {}
  }

  lemma BarrierExecutes(s: Device)
    requires WellFormed(s) && s.writebacks == []
    ensures var q := Barrier(s);
            && |q.trace.lists| == |s.trace.lists| + 1 && q.trace.lists[..|s.trace.lists|] == s.trace.lists
            && IsBarrier(q.trace.lists[|s.trace.lists|], s.frameIndex, s.fence)
            && q.fence == s.fence && q.frameIndex == s.frameIndex
            && q.trace.touches == s.trace.touches + [Touch(Allocator(s.frameIndex), |s.trace.lists|, s.trace.reached)]
  {
    EmptyBounds();
  }

  /** A readback that succeeds has executed exactly one list between its two finishes, in the allocator of the selected
      frame, and the GPU has finished it. */
  lemma ReadExecutesOneList(env: Environment, s: Device)
    requires Inv(s) && WellFormed(s) && DoRead(env, s).1
    ensures var q := DoRead(env, s).0;
            && |q.trace.lists| == |s.trace.lists| + 1 && q.trace.lists[..|s.trace.lists|] == s.trace.lists
            && IsBarrier(q.trace.lists[|s.trace.lists|], FRAMES - 1, s.fence + 1)
            && q.trace.lists[|s.trace.lists|].tag < q.trace.reached && q.fence == s.fence + 2
  {
    hide DoFinish, Barrier, Inv, Idle;
    FinishExecutesNothing(env, s);
    FinishKeeps(env, s);
    var (q, ok) := DoFinish(env, s);
    assert Empty(q, q.frameIndex);
    BarrierExecutes(q);
    BarrierQuiet(q);
    FinishExecutesNothing(env, Barrier(q));
    ReadKeeps(env, s);
    var r := DoRead(env, s).0;
    assert Empty(r, FRAMES - 1);
    LastIsFinished(r, |s.trace.lists|);
  }

  lemma LastIsFinished(s: Device, i: nat)
    requires i < |s.trace.lists| && Idle(s, s.trace.lists[i].frame)
    ensures s.trace.lists[i].tag < s.trace.reached
  {
  }

  /** A publication that succeeds has executed one list when a transition was needed and none otherwise, and signalled
      after it. */
  lemma PublishExecutes(env: Environment, s: Device, transition: bool)
    requires Inv(s) && WellFormed(s) && DoPublish(env, s, transition).1
    ensures var q := DoPublish(env, s, transition).0;
            && |q.trace.lists| == |s.trace.lists| + (if transition then 1 else 0)
            && q.trace.lists[..|s.trace.lists|] == s.trace.lists
            && (transition ==> IsBarrier(q.trace.lists[|s.trace.lists|], FRAMES - 1, s.fence + 1))
            && q.fence == s.fence + 2 == q.frames[FRAMES - 1].fence && q.frameIndex == FRAMES - 1
  {
    hide DoFinish, Inv, Idle;
    FinishExecutesNothing(env, s);
    FinishKeeps(env, s);
    var (q, ok) := DoFinish(env, s);
    assert Empty(q, q.frameIndex);
    BarrierExecutes(q);
  }

  /** Both succeed exactly when their finishes do. */
  lemma FinishesSuffice(env: Environment, s: Device, transition: bool)
    requires WellFormed(s)
    ensures DoPublish(env, s, transition).1 <==> DoFinish(env, s).1
    ensures DoRead(env, s).1 <==> DoFinish(env, s).1 && DoFinish(env, Barrier(DoFinish(env, s).0)).1
  {
    hide WaitFrom;
  }

  // ---------- what a recording refers to ----------

  /** The cache entry still exists when action `k` comes. */
  predicate LiveAt(cleared: set<nat>, actions: seq<Action>, k: nat, id: nat)
    requires k <= |actions|
  {
    id !in cleared && forall j :: 0 <= j < k && actions[j].Evict? ==> id !in actions[j].ids
  }

  function CountOf(actions: seq<Action>, a: Action): nat {
    if actions == [] then 0 else CountOf(actions[..|actions| - 1], a) + if actions[|actions| - 1] == a then 1 else 0
  }

  predicate Fills(cleared: set<nat>, actions: seq<Action>, a: Action, id: nat) {
    exists k :: 0 <= k < |actions| && actions[k] == a && LiveAt(cleared, actions, k, id)
  }

  /** What the actions make the recording refer to, read off the actions: the pages dealt in order, the frame's buffers
      and the shared resources of entries that still exist, and the transients created in order. */
  predicate Refers(d: Device, actions: seq<Action>, x: Resource) {
    match x
    case Allocator(_) => false
    case Page(p) => d.page <= p < d.page + CountOf(actions, TakePage) && p < d.limit
    case Upload(f, b) => f == d.frameIndex && Fills(d.trace.cleared, actions, FillUpload(b), b)
    case Shared(id) =>
      Fills(d.trace.cleared, actions, FillShared(id), id) || Fills(d.trace.cleared, actions, UseShared(id), id)
    case Temporary(t) =>
      t.frame == d.frameIndex && d.trace.created <= t.serial < d.trace.created + CountOf(actions, CreateTransient) &&
      t.serial - d.trace.created + |d.transients| < MAX_TRANSIENTS
  }

  /** The resources that the actions overwrite. */
  predicate Overwrites(d: Device, actions: seq<Action>, x: Resource) {
    (x.Page? || x.Upload? || (x.Shared? && Fills(d.trace.cleared, actions, FillShared(x.id), x.id))) &&
    Refers(d, actions, x)
  }

  lemma FillsGrows(cleared: set<nat>, actions: seq<Action>, a: Action, id: nat)
    requires actions != []
    ensures var before, n := actions[..|actions| - 1], |actions| - 1;
            Fills(cleared, actions, a, id) <==>
              Fills(cleared, before, a, id) || (actions[n] == a && LiveAt(cleared, actions, n, id))
  {
    var before, n := actions[..|actions| - 1], |actions| - 1;
    forall k: nat | k <= n ensures LiveAt(cleared, before, k, id) <==> LiveAt(cleared, actions, k, id) {
      assert forall j :: 0 <= j < k ==> before[j] == actions[j];
    }
    if Fills(cleared, before, a, id) {
      var k :| 0 <= k < |before| && before[k] == a && LiveAt(cleared, before, k, id);
      assert actions[k] == a;
    }
    if Fills(cleared, actions, a, id) {
      var k :| 0 <= k < |actions| && actions[k] == a && LiveAt(cleared, actions, k, id);
      if k < n {
        assert before[k] == a;
      }
    }
  }

  lemma LiveGrows(cleared: set<nat>, actions: seq<Action>, id: nat)
    requires actions != []
    ensures var n := |actions| - 1;
            && (LiveAt(cleared, actions, n, id) <==> LiveAt(cleared, actions[..n], n, id))
            && (LiveAt(cleared, actions, n + 1, id) <==>
                  LiveAt(cleared, actions, n, id) && !(actions[n].Evict? && id in actions[n].ids))
  {
    var n := |actions| - 1;
    assert forall j :: 0 <= j < n ==> actions[..n][j] == actions[j];
  }

  /** The counters of a recording follow the numbers of its actions. */
  predicate Counted(d: Device, q: Device, actions: seq<Action>) {
    var pages, made := CountOf(actions, TakePage), CountOf(actions, CreateTransient);
    q.frameIndex == d.frameIndex && q.limit == d.limit && q.trace.lists == d.trace.lists &&
    q.page == (if d.page + pages < d.limit then d.page + pages else d.limit) &&
    q.trace.created == d.trace.created + (if |d.transients| + made < MAX_TRANSIENTS then made
                                          else MAX_TRANSIENTS - |d.transients|) &&
    |q.transients| == |d.transients| + (q.trace.created - d.trace.created)
  }

  /** What one action does to the counters and to the freed entries. */
  lemma RecordOne(r: Recording, a: Action)
    requires WellFormed(r.device)
    ensures var s, q := r.device, Record(r, a).device;
            && q.frameIndex == s.frameIndex && q.limit == s.limit && q.trace.lists == s.trace.lists
            && q.page == (if a == TakePage && s.page < s.limit then s.page + 1 else s.page)
            && q.trace.created ==
                 (if a == CreateTransient && |s.transients| < MAX_TRANSIENTS then s.trace.created + 1
                  else s.trace.created)
            && |q.transients| == |s.transients| + (q.trace.created - s.trace.created)
            && q.trace.cleared == (if a.Evict? then s.trace.cleared + a.ids else s.trace.cleared)
  {
    hide Queued, LeavesDangling;
  }

  lemma {:induction false} RecordCounts(r: Recording, actions: seq<Action>)
    requires WellFormed(r.device) && r.device.page <= r.device.limit && |r.device.transients| <= MAX_TRANSIENTS
    ensures Counted(r.device, RecordAll(r, actions).device, actions)
    decreases |actions|
  {
    hide Record, CountOf;
    if actions == [] {
      CountsNothing();
    } else {
      var last := |actions| - 1;
      RecordCounts(r, actions[..last]);
      RecordOne(RecordAll(r, actions[..last]), actions[last]);
      CountGrows(actions, TakePage);
      CountGrows(actions, CreateTransient);
    }
  }

  lemma CountsNothing()
    ensures CountOf([], TakePage) == 0 && CountOf([], CreateTransient) == 0
  {
  }

  lemma {:induction false} RecordClears(r: Recording, actions: seq<Action>, id: nat)
    requires WellFormed(r.device)
    ensures id in RecordAll(r, actions).device.trace.cleared <==>
              !LiveAt(r.device.trace.cleared, actions, |actions|, id)
    decreases |actions|
  {
    hide Record, LiveAt;
    if actions != [] {
      var last := |actions| - 1;
      RecordClears(r, actions[..last], id);
      RecordOne(RecordAll(r, actions[..last]), actions[last]);
      LiveGrows(r.device.trace.cleared, actions, id);
    } else {
      AliveAtFirst(r.device.trace.cleared, id);
    }
  }

  lemma AliveAtFirst(cleared: set<nat>, id: nat)
    ensures LiveAt(cleared, [], 0, id) <==> id !in cleared
  {
  }

  lemma RefersNothing(d: Device, x: Resource)
    ensures !Refers(d, [], x) && !Overwrites(d, [], x)
  {
  }

  /** What the last action adds. */
  lemma RefersGrows(r: Recording, actions: seq<Action>, x: Resource)
    requires WellFormed(r.device) && r.device.page <= r.device.limit && |r.device.transients| <= MAX_TRANSIENTS
    requires actions != []
    ensures var before, a := actions[..|actions| - 1], actions[|actions| - 1];
            Refers(r.device, actions, x) <==>
              Refers(r.device, before, x) || x in Record(Recording(RecordAll(r, before).device, {}), a).uses
  {
    hide Queued, LeavesDangling, LiveAt, Fills, RecordAll, CountOf, Evicted;
    var before, a := actions[..|actions| - 1], actions[|actions| - 1];
    var d, b := r.device, RecordAll(r, before);
    RecordCounts(r, before);
    CountGrows(actions, TakePage);
    CountGrows(actions, CreateTransient);
    match x
    case Upload(_, id) => EntryGrows(r, actions, FillUpload(id), id);
    case Shared(id) =>
      EntryGrows(r, actions, FillShared(id), id);
      EntryGrows(r, actions, UseShared(id), id);
    case _ =>
  }

  lemma CountGrows(actions: seq<Action>, a: Action)
    requires actions != []
    ensures CountOf(actions, a) ==
            CountOf(actions[..|actions| - 1], a) + if actions[|actions| - 1] == a then 1 else 0
  {
  }

  lemma EntryGrows(r: Recording, actions: seq<Action>, a: Action, id: nat)
    requires WellFormed(r.device) && actions != []
    ensures var before, n := actions[..|actions| - 1], |actions| - 1;
            Fills(r.device.trace.cleared, actions, a, id) <==>
              Fills(r.device.trace.cleared, before, a, id) ||
              (actions[n] == a && id !in RecordAll(r, before).device.trace.cleared)
  {
    hide LiveAt, Fills, RecordAll;
    var before := actions[..|actions| - 1];
    FillsGrows(r.device.trace.cleared, actions, a, id);
    RecordClears(r, before, id);
    LiveGrows(r.device.trace.cleared, actions, id);
  }

  lemma UsesAdd(r: Recording, a: Action)
    requires WellFormed(r.device)
    ensures Record(r, a).uses == r.uses + Record(Recording(r.device, {}), a).uses
  {
    hide Queued, LeavesDangling, Evicted;
  }

  /** A recording refers to exactly what its actions make it refer to. */
  lemma {:induction false} RecordRefers(r: Recording, actions: seq<Action>, x: Resource)
    requires WellFormed(r.device) && r.device.page <= r.device.limit && |r.device.transients| <= MAX_TRANSIENTS
    ensures x in RecordAll(r, actions).uses <==> x in r.uses || Refers(r.device, actions, x)
    decreases |actions|
  {
    hide Refers, Record;
    if actions == [] {
      RefersNothing(r.device, x);
    } else {
      RecordRefers(r, actions[..|actions| - 1], x);
      RefersGrows(r, actions, x);
      UsesAdd(RecordAll(r, actions[..|actions| - 1]), actions[|actions| - 1]);
    }
  }

  // ---------- what a recording overwrites ----------

  /** Among the touches from the n-th on is one of the resource, after the lists executed so far. */
  predicate TouchedAfter(tr: Trace, n: nat, x: Resource, lists: nat) {
    exists k :: n <= k < |tr.touches| && tr.touches[k].resource == x && tr.touches[k].lists == lists
  }

  /** One action touches what it overwrites, and nothing else. */
  lemma RecordTouches(r: Recording, a: Action)
    requires WellFormed(r.device)
    ensures var d, q := r.device, Record(r, a).device;
            var x := Record(Recording(r.device, {}), a).uses;
            && (q.trace.touches == d.trace.touches ||
                (|q.trace.touches| == |d.trace.touches| + 1 && q.trace.touches[..|d.trace.touches|] == d.trace.touches))
            && (|q.trace.touches| > |d.trace.touches| ==>
                  var t := q.trace.touches[|d.trace.touches|];
                  t.resource in x && t.lists == |d.trace.lists| && t.reached == d.trace.reached)
            && (|q.trace.touches| > |d.trace.touches| <==>
                  x != {} && (a.TakePage? || a.FillUpload? || a.FillShared?))
            && q.trace.lists == d.trace.lists && q.trace.reached == d.trace.reached
  {
    hide Queued, LeavesDangling;
  }

  /** Recording touches exactly what its actions overwrite. */
  lemma {:induction false} RecordAllTouches(r: Recording, actions: seq<Action>, x: Resource)
    requires WellFormed(r.device) && r.device.page <= r.device.limit && |r.device.transients| <= MAX_TRANSIENTS
    ensures var d, q := r.device, RecordAll(r, actions).device;
            && |d.trace.touches| <= |q.trace.touches| && q.trace.touches[..|d.trace.touches|] == d.trace.touches
            && (TouchedAfter(q.trace, |d.trace.touches|, x, |d.trace.lists|) <==> Overwrites(d, actions, x))
            && q.trace.lists == d.trace.lists && q.trace.reached == d.trace.reached
    decreases |actions|
  {
    hide Overwrites, Record, Queued;
    if actions == [] {
      RefersNothing(r.device, x);
    } else {
      var before, a := actions[..|actions| - 1], actions[|actions| - 1];
      var b := RecordAll(r, before);
      RecordAllTouches(r, before, x);
      RecordTouches(b, a);
      OverwritesGrows(r, actions, x);
      TouchesGrow(r.device.trace, b.device.trace, Record(b, a).device.trace, x);
    }
  }

  lemma TouchesGrow(tr: Trace, ur: Trace, vr: Trace, x: Resource)
    requires |tr.touches| <= |ur.touches| <= |vr.touches| <= |ur.touches| + 1
    requires ur.touches[..|tr.touches|] == tr.touches && vr.touches[..|ur.touches|] == ur.touches
    ensures vr.touches[..|tr.touches|] == tr.touches
    ensures TouchedAfter(vr, |tr.touches|, x, |tr.lists|) <==>
              TouchedAfter(ur, |tr.touches|, x, |tr.lists|) ||
              (|vr.touches| > |ur.touches| && vr.touches[|ur.touches|].resource == x &&
               vr.touches[|ur.touches|].lists == |tr.lists|)
  {
    forall k | 0 <= k < |ur.touches| ensures vr.touches[k] == ur.touches[k] {
      assert vr.touches[..|ur.touches|][k] == ur.touches[k];
    }
    if TouchedAfter(ur, |tr.touches|, x, |tr.lists|) {
      var k :| |tr.touches| <= k < |ur.touches| && ur.touches[k].resource == x && ur.touches[k].lists == |tr.lists|;
      assert vr.touches[k] == ur.touches[k];
    }
  }

  lemma OverwritesGrows(r: Recording, actions: seq<Action>, x: Resource)
    requires WellFormed(r.device) && r.device.page <= r.device.limit && |r.device.transients| <= MAX_TRANSIENTS
    requires actions != []
    ensures var before, a := actions[..|actions| - 1], actions[|actions| - 1];
            var added := Record(Recording(RecordAll(r, before).device, {}), a).uses;
            && (Overwrites(r.device, actions, x) <==>
                  Overwrites(r.device, before, x) || (x in added && (a.TakePage? || a.FillUpload? || a.FillShared?)))
            && (a.TakePage? || a.FillUpload? || a.FillShared? ==> forall y, z :: y in added && z in added ==> y == z)
  {
    hide Queued, LeavesDangling, LiveAt, Fills, RecordAll, CountOf, Evicted, Refers;
    RefersGrows(r, actions, x);
    if x.Shared? {
      EntryGrows(r, actions, FillShared(x.id), x.id);
      EntryGrows(r, actions, UseShared(x.id), x.id);
      SharedRefers(r.device, actions, x);
      SharedRefers(r.device, actions[..|actions| - 1], x);
    }
    OtherKinds(r.device, actions, x);
  }

  lemma SharedRefers(d: Device, actions: seq<Action>, x: Resource)
    requires x.Shared?
    ensures Refers(d, actions, x) <==>
              Fills(d.trace.cleared, actions, FillShared(x.id), x.id) ||
              Fills(d.trace.cleared, actions, UseShared(x.id), x.id)
  {
  }

  lemma OtherKinds(d: Device, actions: seq<Action>, x: Resource)
    ensures x.Allocator? ==> !Refers(d, actions, x)
  {
  }

  // ---------- a submission ----------

  /** A submission that is not refused hands over exactly one list, with the frame's allocator and what its actions
      refer to, tagged before its signal; it has reset the allocator and touched what its actions overwrite. It
      succeeds exactly when the device is ready, the wait for its frame does, and it is not aborted. */
  lemma SubmitExecutes(env: Environment, s: Device, actions: seq<Action>, aborted: bool, x: Resource, f: nat, w: Device,
                       waited: bool)
    requires Inv(s) && WellFormed(s) && f == s.nextFrame
    requires (w, waited) == WaitFrame(env, s.(nextFrame := (f + 1) % FRAMES), f)
    ensures var (q, ok) := DoSubmit(env, s, actions, aborted);
            var b := BeginRecording(w, f).device;
            && (ok <==> s.ready && waited && !aborted)
            && (!ok ==> q.trace.lists == s.trace.lists)
            && (ok ==>
                  && |q.trace.lists| == |s.trace.lists| + 1 && q.trace.lists[..|s.trace.lists|] == s.trace.lists
                  && var l := q.trace.lists[|s.trace.lists|];
                  && l.frame == f && l.tag == s.fence && q.fence == s.fence + 1 == q.frames[f].fence
                  && (x in l.uses <==> x == Allocator(f) || Refers(b, actions, x)))
            && (s.ready && waited ==>
                  (TouchedAfter(q.trace, |w.trace.touches|, x, |s.trace.lists|) <==>
                     x == Allocator(f) || Overwrites(b, actions, x)))
  {
    hide WaitFrame, RecordAll, Refers, Overwrites, Inv, Idle, TouchedAfter;
    var t := s.(nextFrame := (f + 1) % FRAMES);
    NextFrameKeeps(s, (f + 1) % FRAMES);
    WaitKeeps(env, t, f);
    WaitTouches(env, t, f);
    if s.ready && waited {
      var b := BeginRecording(w, f);
      RecordRefers(b, actions, x);
      RecordAllTouches(b, actions, x);
      OpeningTouch(w, RecordAll(b, actions).device.trace, f, x);
      SameTouchedAfter(RecordAll(b, actions).device.trace, DoSubmit(env, s, actions, aborted).0.trace,
                       |w.trace.touches|, x, |s.trace.lists|);
    }
  }

  lemma SameTouchedAfter(tr: Trace, ur: Trace, n: nat, x: Resource, lists: nat)
    requires ur.touches == tr.touches
    ensures TouchedAfter(ur, n, x, lists) <==> TouchedAfter(tr, n, x, lists)
  {
  }

  lemma OpeningTouch(w: Device, tr: Trace, f: nat, x: Resource)
    requires |w.trace.touches| < |tr.touches|
    requires tr.touches[..|w.trace.touches| + 1] == Opening(w.trace, f).touches
    ensures TouchedAfter(tr, |w.trace.touches|, x, |w.trace.lists|) <==>
              x == Allocator(f) || TouchedAfter(tr, |w.trace.touches| + 1, x, |w.trace.lists|)
  {
    var n := |w.trace.touches|;
    assert tr.touches[n] == tr.touches[..n + 1][n] == Touch(Allocator(f), |w.trace.lists|, w.trace.reached);
  }
}
