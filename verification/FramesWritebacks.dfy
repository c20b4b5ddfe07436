/** Which writebacks a wait completes, and when their copies were recorded. */
module FramesWritebacks {
  import opened Frames
  import opened FramesSafety

  // ---------- genuine completions ----------

  predicate CopiedIn(l: List, serial: nat) {
    serial in l.copies
  }

  /** The completed readback was written by a list that the GPU had finished. */
  ghost predicate Genuine(lists: seq<List>, c: Completion) {
    c.lists <= |lists| &&
    exists i :: 0 <= i < c.lists && CopiedIn(lists[i], c.serial) && lists[i].tag < c.reached
  }

  ghost predicate AllGenuine(tr: Trace) {
    forall k :: 0 <= k < |tr.completions| ==> Genuine(tr.lists, tr.completions[k])
  }

  /** A list of frame `f` copies the writeback. */
  predicate CopiedBy(lists: seq<List>, f: nat, serial: nat) {
    exists i :: 0 <= i < |lists| && lists[i].frame == f && CopiedIn(lists[i], serial)
  }

  predicate Backed(s: Device, f: nat)
    requires WellFormed(s) && f < FRAMES
  {
    forall i :: 0 <= i < |Pending(s, f)| ==> CopiedBy(s.trace.lists, f, Pending(s, f)[i].serial)
  }

  /** What is known between calls: a signalled frame's writebacks were copied by its lists. */
  ghost predicate Tracked(s: Device) {
    WellFormed(s) && AllGenuine(s.trace) &&
    (forall f :: 0 <= f < FRAMES && s.frames[f].fence != 0 ==> Backed(s, f)) &&
    (forall i, x: nat :: 0 <= i < |s.trace.lists| && CopiedIn(s.trace.lists[i], x) ==> x < s.trace.queued)
  }

  // ---------- waiting ----------

  /** What one wait does to the writebacks. */
  lemma WaitEffect(env: Environment, s: Device, f: nat)
    requires WellFormed(s) && f < FRAMES
    ensures var (q, ok) := WaitFrame(env, s, f);
            var expired := TimesOut(env(s.trace.waits), s.frames[f].fence, s.fence);
            && q.trace.lists == s.trace.lists && q.trace.queued == s.trace.queued
            && (ok ==> !expired)
            && (expired ==> q.trace.completions == s.trace.completions && q.trace.dropped == s.trace.dropped)
            && (!expired && s.frames[f].fence != 0 ==>
                  q.trace.completions == s.trace.completions + Completions(q.trace, Pending(s, f)) &&
                  q.trace.dropped == s.trace.dropped)
            && (!expired && s.frames[f].fence == 0 ==>
                  q.trace.completions == s.trace.completions &&
                  q.trace.dropped == s.trace.dropped + Serials(Pending(s, f)))
            && (!expired ==> q.frames[f].fence == 0 && Pending(q, f) == [])
            && (expired ==> q.frames[f].fence == s.frames[f].fence && Pending(q, f) == Pending(s, f))
  {
    hide TimesOut, WaitFrame, SeenReached;
    WaitUnfold(env, s, f);
    var selected := SelectFrame(s, f);
    assert selected.writebacks == Pending(s, f) && selected.frames[f].fence == s.frames[f].fence;
  }

  lemma WaitElsewhere(env: Environment, s: Device, f: nat, g: nat)
    requires WellFormed(s) && f < FRAMES && g < FRAMES && g != f
    ensures var q := WaitFrame(env, s, f).0; q.frames[g].fence == s.frames[g].fence && Pending(q, g) == Pending(s, g)
  {
    hide TimesOut, WaitFrame, SeenReached, Completed, Released, Serials;
    WaitUnfold(env, s, f);
  }

  /** Not expired, the frame's lists are all finished. */
  lemma WaitIdle(env: Environment, s: Device, f: nat)
    requires Inv(s) && f < FRAMES
    requires WellFormed(s) && !TimesOut(env(s.trace.waits), s.frames[f].fence, s.fence)
    ensures Idle(WaitFrame(env, s, f).0, f)
  {
    hide Inv, Idle, TimesOut, WaitFrame, Seen, RetireTransients, RetireWritebacks;
    WaitUnfold(env, s, f);
    var selected := SelectFrame(s, f);
    var w := env(s.trace.waits);
    SelectKeeps(s, f);
    SameInv(s, selected);
    SameTraceInv(selected, selected.trace.(waits := s.trace.waits + 1));
    var waited := selected.(trace := selected.trace.(waits := s.trace.waits + 1));
    SeenInv(waited, w);
    var seen := Seen(waited, w);
    InvShape(seen);
    SeenShape(waited, w);
    RetireInv(seen);
    RetiredEmpty(seen);
    StoreIdle(RetireTransients(RetireWritebacks(seen)), f);
  }

  lemma NewCompletionGenuine(s: Device, q: Device, f: nat, i: nat)
    requires WellFormed(s) && f < FRAMES && i < |Pending(s, f)|
    requires Backed(s, f) && q.trace.lists == s.trace.lists && Idle(q, f)
    ensures Genuine(q.trace.lists, Complete(q.trace, Pending(s, f)[i]))
  {
    var x := Pending(s, f)[i].serial;
    assert CopiedBy(s.trace.lists, f, x);
    var j :| 0 <= j < |s.trace.lists| && s.trace.lists[j].frame == f && CopiedIn(s.trace.lists[j], x);
    assert s.trace.lists[j].tag < q.trace.reached;
  }

  lemma WaitTracked(env: Environment, s: Device, f: nat)
    requires Inv(s) && Tracked(s) && f < FRAMES
    ensures Tracked(WaitFrame(env, s, f).0)
  {
    hide Inv, Idle, Genuine, CopiedBy, CopiedIn, TimesOut, WaitFrame, Pending;
    WaitEffect(env, s, f);
    var q := WaitFrame(env, s, f).0;
    var expired := TimesOut(env(s.trace.waits), s.frames[f].fence, s.fence);
    if !expired {
      WaitIdle(env, s, f);
    }
    forall k | 0 <= k < |q.trace.completions| ensures Genuine(q.trace.lists, q.trace.completions[k]) {
      if k < |s.trace.completions| {
        assert Genuine(s.trace.lists, s.trace.completions[k]);
      } else {
        NewCompletionGenuine(s, q, f, k - |s.trace.completions|);
      }
    }
    forall g | 0 <= g < FRAMES && q.frames[g].fence != 0 ensures Backed(q, g) {
      if g != f {
        WaitElsewhere(env, s, f, g);
      }
    }
  }

  // ---------- recording and executing ----------

  lemma RecordTracked(r: Recording, a: Action)
    requires Tracked(r.device) && r.device.frames[r.device.frameIndex].fence == 0
    ensures WellFormed(r.device) && Tracked(Record(r, a).device)
  {
    hide Queued, Genuine, CopiedBy, CopiedIn;
    var s := r.device;
    var q := Record(r, a).device;
    assert forall f :: 0 <= f < FRAMES && f != s.frameIndex ==> Pending(q, f) == Pending(s, f);
    forall f | 0 <= f < FRAMES && q.frames[f].fence != 0 ensures Backed(q, f) {
      assert Backed(s, f);
    }
  }

  lemma {:induction false} RecordAllTracked(r: Recording, actions: seq<Action>)
    requires Tracked(r.device) && r.device.frames[r.device.frameIndex].fence == 0
    ensures WellFormed(r.device) && Tracked(RecordAll(r, actions).device)
    decreases |actions|
  {
    hide Tracked, Record;
    TrackedShape(r.device);
    if actions != [] {
      RecordAllTracked(r, actions[..|actions| - 1]);
      RecordTracked(RecordAll(r, actions[..|actions| - 1]), actions[|actions| - 1]);
    }
  }

  /** No list copies a writeback that is queued by this recording. */
  lemma {:induction false} FreshUncopied(r: Recording, actions: seq<Action>, n: nat)
    requires WellFormed(r.device) && r.device.writebacks == [] && r.device.trace.queued == n
    ensures var d := RecordAll(r, actions).device;
            d.trace.lists == r.device.trace.lists && d.trace.completions == r.device.trace.completions &&
            d.trace.dropped == r.device.trace.dropped && d.trace.queued >= n &&
            forall i :: 0 <= i < |d.writebacks| ==> d.writebacks[i].serial >= n
    decreases |actions|
  {
    hide Queued;
    if actions != [] {
      FreshUncopied(r, actions[..|actions| - 1], n);
    }
  }

  lemma PendingIssued(s: Device, f: nat, i: nat)
    requires WritebacksOnce(s) && f < FRAMES && i < |Pending(s, f)|
    ensures Pending(s, f)[i].serial < s.trace.queued
  {
    var x := Pending(s, f)[i].serial;
    assert Serials(Pending(s, f))[i] == x;
    assert x in multiset(Serials(Pending(s, f)));
    assert WritebackLedger(s)[x] >= 1;
  }

  lemma GenuineStays(lists: seq<List>, l: List, c: Completion)
    requires Genuine(lists, c)
    ensures Genuine(lists + [l], c)
  {
    var i :| 0 <= i < c.lists && CopiedIn(lists[i], c.serial) && lists[i].tag < c.reached;
    assert (lists + [l])[i] == lists[i];
  }

  lemma CopiedByStays(lists: seq<List>, l: List, f: nat, x: nat)
    requires CopiedBy(lists, f, x)
    ensures CopiedBy(lists + [l], f, x)
  {
    var i :| 0 <= i < |lists| && lists[i].frame == f && CopiedIn(lists[i], x);
    assert (lists + [l])[i] == lists[i];
  }

  lemma ExecuteTracked(r: Recording)
    requires Tracked(r.device) && Inv(r.device)
    ensures Tracked(Signal(Execute(r)))
  {
    hide Inv, Genuine, CopiedBy;
    var s := r.device;
    var q := Signal(Execute(r));
    var l := ListOf(r);
    assert q.trace.lists == s.trace.lists + [l];
    assert forall f :: 0 <= f < FRAMES ==> Pending(q, f) == Pending(s, f);
    forall k | 0 <= k < |q.trace.completions| ensures Genuine(q.trace.lists, q.trace.completions[k]) {
      GenuineStays(s.trace.lists, l, s.trace.completions[k]);
    }
    forall f | 0 <= f < FRAMES && q.frames[f].fence != 0 ensures Backed(q, f) {
      ExecuteBacked(r, f);
    }
    forall i, x: nat | 0 <= i < |q.trace.lists| && CopiedIn(q.trace.lists[i], x) ensures x < q.trace.queued {
      if i == |s.trace.lists| {
        var j :| 0 <= j < |l.copies| && l.copies[j] == x;
        InvWritebacks(s);
        PendingIssued(s, s.frameIndex, j);
      }
    }
  }

  lemma InvWritebacks(s: Device)
    requires Inv(s)
    ensures WritebacksOnce(s)
  {
  }

  lemma ExecuteBacked(r: Recording, f: nat)
    requires Tracked(r.device) && f < FRAMES
    requires f == r.device.frameIndex || r.device.frames[f].fence != 0
    ensures Backed(Signal(Execute(r)), f)
  {
    hide Genuine;
    var s := r.device;
    var q := Signal(Execute(r));
    var l := ListOf(r);
    forall i | 0 <= i < |Pending(q, f)| ensures CopiedBy(q.trace.lists, f, Pending(q, f)[i].serial) {
      if f == s.frameIndex {
        assert l.copies[i] == Pending(q, f)[i].serial;
        assert q.trace.lists[|s.trace.lists|] == l;
      } else {
        assert Pending(q, f) == Pending(s, f) && Backed(s, f);
        CopiedByStays(s.trace.lists, l, f, Pending(q, f)[i].serial);
      }
    }
  }

  lemma SameTracked(s: Device, q: Device)
    requires SameContents(s, q) && Tracked(s)
    ensures Tracked(q)
  {
    hide Genuine, CopiedBy, CopiedIn;
    forall f | 0 <= f < FRAMES && q.frames[f].fence != 0 ensures Backed(q, f) {
      assert Backed(s, f);
    }
  }

  /** A signal keeps the tracking when the selected frame's writebacks were copied. */
  lemma SignalTracked(s: Device)
    requires Tracked(s) && Backed(s, s.frameIndex)
    ensures Tracked(Signal(s))
  {
    hide Genuine, CopiedBy, CopiedIn;
    var q := Signal(s);
    forall f | 0 <= f < FRAMES && q.frames[f].fence != 0 ensures Backed(q, f) {
      assert Pending(q, f) == Pending(s, f) && Backed(s, f);
    }
  }

  // ---------- whole calls ----------

  lemma {:induction false} WaitFromTracked(env: Environment, s: Device, i: nat)
    requires Inv(s) && Tracked(s) && i <= FRAMES
    ensures Tracked(WaitFrom(env, s, i).0)
    decreases FRAMES - i
  {
    hide Inv, Tracked, WaitFrame;
    InvShape(s);
    if i < FRAMES {
      WaitTracked(env, s, i);
      WaitKeeps(env, s, i);
      var (q, ok) := WaitFrame(env, s, i);
      if ok {
        WaitFromTracked(env, q, i + 1);
      } else {
        SameTracked(q, q.(ready := false));
      }
    }
  }

  /** A finish after anything but an aborted recording completes only what finished lists copied. */
  lemma FinishTracked(env: Environment, s: Device)
    requires Inv(s) && Tracked(s) && Backed(s, s.frameIndex)
    ensures Tracked(DoFinish(env, s).0)
  {
    hide Inv, Tracked, WaitFrom, Backed;
    InvShape(s);
    if s.ready {
      StoreKeeps(s);
      SameInv(s, StoreFrame(s));
      SameTracked(s, StoreFrame(s));
      SameBacked(s, StoreFrame(s), s.frameIndex);
      SignalTracked(StoreFrame(s));
      SignalKeeps(StoreFrame(s));
      WaitFromTracked(env, Signal(StoreFrame(s)), 0);
    }
  }

  lemma SameBacked(s: Device, q: Device, f: nat)
    requires SameContents(s, q) && f < FRAMES && Backed(s, f)
    ensures Backed(q, f)
  {
  }

  /** The selected frame's writebacks were copied, or the device refuses to go on. */
  predicate Settled(s: Device)
    requires WellFormed(s)
  {
    !s.ready || Backed(s, s.frameIndex)
  }

  lemma FinishSettles(env: Environment, s: Device)
    requires Inv(s) && Tracked(s) && Settled(s)
    ensures var (q, ok) := DoFinish(env, s); Tracked(q) && Settled(q) && (ok ==> Backed(q, q.frameIndex))
  {
    hide Inv, Tracked, Backed, WaitFrom;
    InvShape(s);
    if s.ready {
      FinishTracked(env, s);
      FinishKeeps(env, s);
      var (q, ok) := DoFinish(env, s);
      if ok {
        assert Empty(q, q.frameIndex);
        EmptyBacked(q, q.frameIndex);
      } else {
        WaitFromFails(env, Signal(StoreFrame(s)), 0);
      }
    }
  }

  lemma EmptyBacked(s: Device, f: nat)
    requires WellFormed(s) && f < FRAMES && Pending(s, f) == []
    ensures Backed(s, f)
  {
  }

  lemma {:induction false} WaitFromFails(env: Environment, s: Device, i: nat)
    requires WellFormed(s) && i <= FRAMES
    ensures var (q, ok) := WaitFrom(env, s, i); !ok ==> !q.ready
    decreases FRAMES - i
  {
    hide WaitFrame;
    if i < FRAMES {
      WaitFromFails(env, WaitFrame(env, s, i).0, i + 1);
    }
  }

  /** A submission keeps the tracking even when it follows an aborted one. */
  lemma SubmitTracked(env: Environment, s: Device, actions: seq<Action>, aborted: bool)
    requires Inv(s) && Tracked(s)
    ensures var q := DoSubmit(env, s, actions, aborted).0; Tracked(q) && (s.ready && !aborted ==> Settled(q))
  {
    hide Inv, Tracked, Idle, WaitFrame, RecordAll, Backed, Recordable;
    InvShape(s);
    if s.ready {
      var f := s.nextFrame;
      var t := s.(nextFrame := (f + 1) % FRAMES);
      NextFrameKeeps(s, (f + 1) % FRAMES);
      SameTracked(s, t);
      WaitKeeps(env, t, f);
      WaitTracked(env, t, f);
      WaitEffect(env, t, f);
      var (waited, ok) := WaitFrame(env, t, f);
      if !ok {
        SameTracked(waited, waited.(ready := false));
      } else {
        BeginKeeps(waited, f);
        BeginTracked(waited, f);
        var b := BeginRecording(waited, f);
        RecordAllTracked(b, actions);
        RecordAllKeeps(b, actions);
        var r := RecordAll(b, actions);
        if !aborted {
          SubmittedTracked(r);
        }
      }
    }
  }

  lemma BeginTracked(s: Device, f: nat)
    requires Tracked(s) && f == s.frameIndex && s.writebacks == []
    ensures Tracked(BeginRecording(s, f).device)
  {
    hide Genuine, CopiedBy, CopiedIn;
    var q := BeginRecording(s, f).device;
    forall g | 0 <= g < FRAMES && q.frames[g].fence != 0 ensures Backed(q, g) {
      assert Backed(s, g) && Pending(q, g) == Pending(s, g);
    }
  }

  lemma SubmittedTracked(r: Recording)
    requires Tracked(r.device) && Recordable(r)
    ensures var q := StoreFrame(Signal(Execute(r))); Tracked(q) && Settled(q)
  {
    hide Tracked, Inv, Backed, Idle, AllOwned;
    TrackedShape(r.device);
    var d := Signal(Execute(r));
    ExecuteTracked(r);
    ExecuteBacked(r, r.device.frameIndex);
    StoreKeeps(d);
    SameTracked(d, StoreFrame(d));
    SameBacked(d, StoreFrame(d), d.frameIndex);
  }

  lemma TrackedShape(s: Device)
    requires Tracked(s)
    ensures WellFormed(s)
  {
  }

  lemma BarrierTracked(s: Device)
    requires Inv(s) && Tracked(s) && Empty(s, s.frameIndex)
    ensures Tracked(Signal(Barrier(s))) && Backed(Signal(Barrier(s)), s.frameIndex)
  {
    hide Tracked, Inv, Backed, Executable, Idle;
    InvShape(s);
    var t := s.(trace := Opening(s.trace, s.frameIndex));
    TrackedTouch(s, t);
    TouchKeeps(s, Allocator(s.frameIndex), s.frameIndex, {});
    var r := Recording(t, {Allocator(s.frameIndex)});
    ExecuteTracked(r);
    ExecuteBacked(r, s.frameIndex);
  }

  lemma TrackedTouch(s: Device, q: Device)
    requires Tracked(s) && q == s.(trace := Opening(s.trace, s.frameIndex))
    ensures Tracked(q)
  {
    hide Genuine, CopiedBy, CopiedIn;
    forall f | 0 <= f < FRAMES && q.frames[f].fence != 0 ensures Backed(q, f) {
      assert Backed(s, f) && Pending(q, f) == Pending(s, f);
    }
  }

  lemma PublishSettles(env: Environment, s: Device, transition: bool)
    requires Inv(s) && Tracked(s) && Settled(s)
    ensures var q := DoPublish(env, s, transition).0; Tracked(q) && Settled(q)
  {
    hide Inv, Tracked, Backed, Idle, DoFinish, Barrier, Signal;
    InvShape(s);
    FinishSettles(env, s);
    FinishKeeps(env, s);
    var (q, ok) := DoFinish(env, s);
    if ok {
      assert Empty(q, q.frameIndex);
      if transition {
        BarrierTracked(q);
        BarrierFrame(q);
      } else {
        SignalTracked(q);
        SignalPending(q);
        EmptyBacked(Signal(q), q.frameIndex);
      }
    }
  }

  lemma SignalPending(s: Device)
    requires WellFormed(s)
    ensures Signal(s).frameIndex == s.frameIndex && WellFormed(Signal(s)) &&
            Pending(Signal(s), s.frameIndex) == Pending(s, s.frameIndex)
  {
  }

  lemma BarrierFrame(s: Device)
    requires WellFormed(s)
    ensures Barrier(s).frameIndex == s.frameIndex && Signal(Barrier(s)).frameIndex == s.frameIndex
    ensures WellFormed(Signal(Barrier(s)))
  {
  }

  lemma ReadSettles(env: Environment, s: Device)
    requires Inv(s) && Tracked(s) && Settled(s)
    ensures var q := DoRead(env, s).0; Tracked(q) && Settled(q)
  {
    hide Inv, Tracked, Backed, Idle, DoFinish, Signal, WaitFrom, Empty, Execute;
    InvShape(s);
    FinishSettles(env, s);
    FinishKeeps(env, s);
    ReadKeeps(env, s);
    var (q, ok) := DoFinish(env, s);
    if ok {
      InvShape(q);
      assert Empty(q, q.frameIndex);
      BarrierTracked(q);
      BarrierFrame(q);
      BarrierInv(q);
      var r := Recording(q.(trace := Opening(q.trace, q.frameIndex)), {Allocator(q.frameIndex)});
      FinishBarrier(env, q, r);
      var b := Signal(Barrier(q));
      StoreKeeps(b);
      SameTracked(b, StoreFrame(b));
      SameInv(b, StoreFrame(b));
      WaitFromTracked(env, StoreFrame(b), 0);
      WaitFromSettles(env, StoreFrame(b));
    }
  }

  lemma BarrierInv(s: Device)
    requires Inv(s) && s.frameIndex < FRAMES && Empty(s, s.frameIndex)
    ensures WellFormed(Signal(Barrier(s))) && Inv(Signal(Barrier(s)))
  {
    hide Inv, Executable, Empty;
    InvShape(s);
    BarrierFrame(s);
    BarrierExecutable(s);
    ExecuteKeeps(Recording(s.(trace := Opening(s.trace, s.frameIndex)), {Allocator(s.frameIndex)}));
    InvShape(Signal(Barrier(s)));
  }

  lemma WaitFromSettles(env: Environment, s: Device)
    requires Inv(s) && WellFormed(s)
    ensures Settled(WaitFrom(env, s, 0).0)
  {
    hide Inv, Backed, WaitFrom, Idle;
    WaitFromKeeps(env, s, 0);
    WaitFromFails(env, s, 0);
    var (q, ok) := WaitFrom(env, s, 0);
    if ok {
      assert Empty(q, q.frameIndex);
      EmptyBacked(q, q.frameIndex);
    }
  }

  // ---------- runs ----------

  /** No wait-all call directly follows an aborted recording. */
  predicate Resubmits(calls: seq<Call>) {
    forall i :: 0 < i < |calls| && Aborts(calls[i - 1]) ==> calls[i].Submit?
  }

  predicate Aborts(c: Call) {
    c.Submit? && c.aborted
  }

  lemma CreatedTracked()
    ensures Tracked(CREATED) && Settled(CREATED)
  {
  }

  lemma CallTracked(env: Environment, s: Device, c: Call)
    requires Inv(s) && Tracked(s) && (Settled(s) || c.Submit?)
    ensures var q := Step(env, s, c); Tracked(q) && (!Aborts(c) ==> Settled(q))
  {
    hide Inv, Tracked, Backed, DoSubmit, DoFinish, DoPublish, DoRead;
    InvShape(s);
    match c
    case Submit(actions, aborted) =>
      SubmitTracked(env, s, actions, aborted);
      if !s.ready {
        RefusedSubmit(env, s, actions, aborted);
      }
    case Finish => FinishSettles(env, s);
    case Publish(transition) => PublishSettles(env, s, transition);
    case ReadSurface => ReadSettles(env, s);
  }

  lemma RefusedSubmit(env: Environment, s: Device, actions: seq<Action>, aborted: bool)
    requires WellFormed(s) && !s.ready
    ensures DoSubmit(env, s, actions, aborted) == (s, false)
  {
  }

  /** Over every run in which an aborted recording is followed by another submission, each completed writeback
      was copied by a list of its frame that the GPU had finished. */
  lemma {:induction false} RunsCompleteGenuinely(env: Environment, calls: seq<Call>)
    requires Resubmits(calls)
    ensures var s := Run(env, CREATED, calls);
            Tracked(s) && AllGenuine(s.trace) && (calls == [] || !Aborts(calls[|calls| - 1]) ==> Settled(s))
    decreases |calls|
  {
    hide Inv, Step, Tracked, Settled;
    if calls == [] {
      CreatedTracked();
    } else {
      var before := calls[..|calls| - 1];
      RunsCompleteGenuinely(env, before);
      RunInv(env, before);
      CallTracked(env, Run(env, CREATED, before), calls[|calls| - 1]);
    }
    TrackedGenuine(Run(env, CREATED, calls));
  }

  lemma TrackedGenuine(s: Device)
    requires Tracked(s)
    ensures AllGenuine(s.trace)
  {
  }

  // ---------- a finish right after an aborted recording ----------

  lemma {:induction false} WaitFromCompletes(env: Environment, s: Device, i: nat, f: nat, k: nat)
    requires WellFormed(s) && i <= f < FRAMES && s.frames[f].fence != 0 && k < |Pending(s, f)|
    ensures var (q, ok) := WaitFrom(env, s, i);
            ok ==> q.trace.lists == s.trace.lists &&
                   exists c :: c in q.trace.completions && c.serial == Pending(s, f)[k].serial
    decreases FRAMES - i
  {
    hide WaitFrame, TimesOut, Pending;
    var (q, ok) := WaitFrame(env, s, i);
    WaitEffect(env, s, i);
    if ok {
      if i < f {
        WaitElsewhere(env, s, i, f);
        WaitFromCompletes(env, q, i + 1, f, k);
      } else {
        var c := Completions(q.trace, Pending(s, f))[k];
        assert c == q.trace.completions[|s.trace.completions| + k];
        WaitFromGrows(env, q, i + 1);
        assert c in WaitFrom(env, q, i + 1).0.trace.completions;
      }
    }
  }

  lemma {:induction false} WaitFromGrows(env: Environment, s: Device, i: nat)
    requires WellFormed(s) && i <= FRAMES
    ensures var q := WaitFrom(env, s, i).0;
            q.trace.lists == s.trace.lists && forall c :: c in s.trace.completions ==> c in q.trace.completions
    decreases FRAMES - i
  {
    hide WaitFrame, TimesOut, Pending;
    if i < FRAMES {
      WaitEffect(env, s, i);
      WaitFromGrows(env, WaitFrame(env, s, i).0, i + 1);
    }
  }

  /** A finish directly after an aborted recording completes only copied writebacks exactly when that
      recording had queued none. */
  lemma FinishAfterAbort(env: Environment, s: Device, actions: seq<Action>)
    requires Inv(s) && Tracked(s) && s.ready
    ensures var q := DoSubmit(env, s, actions, true).0;
            var (r, ok) := DoFinish(env, q);
            ok ==> (AllGenuine(r.trace) <==> q.writebacks == [])
  {
    hide Inv, Tracked, Backed, AllGenuine, DoSubmit, WaitFrom;
    InvShape(s);
    SubmitKeeps(env, s, actions, true);
    SubmitTracked(env, s, actions, true);
    var q := DoSubmit(env, s, actions, true).0;
    var (r, ok) := DoFinish(env, q);
    if ok {
      if q.writebacks == [] {
        EmptyBacked(q, q.frameIndex);
        FinishTracked(env, q);
        TrackedGenuine(r);
      } else {
        AbortUncopied(env, s, actions);
        var t := Signal(StoreFrame(q));
        StoredPending(q);
        WaitFromCompletes(env, t, 0, q.frameIndex, 0);
        WaitFromGrows(env, t, 0);
        var c :| c in r.trace.completions && c.serial == q.writebacks[0].serial;
        NotGenuine(r.trace, c);
      }
    }
  }

  lemma StoredPending(s: Device)
    requires WellFormed(s)
    ensures var t := Signal(StoreFrame(s));
            WellFormed(t) && t.frameIndex == s.frameIndex && t.trace == s.trace && t.frames[s.frameIndex].fence != 0 &&
            Pending(t, s.frameIndex) == s.writebacks
  {
  }

  lemma NotGenuine(tr: Trace, c: Completion)
    requires c in tr.completions && forall i :: 0 <= i < |tr.lists| ==> !CopiedIn(tr.lists[i], c.serial)
    ensures !AllGenuine(tr)
  {
    var k :| 0 <= k < |tr.completions| && tr.completions[k] == c;
    assert !Genuine(tr.lists, tr.completions[k]);
  }

  lemma AbortUncopied(env: Environment, s: Device, actions: seq<Action>)
    requires Inv(s) && Tracked(s) && s.ready
    ensures var q := DoSubmit(env, s, actions, true).0;
            q.ready ==> forall k, i :: 0 <= k < |q.writebacks| && 0 <= i < |q.trace.lists| ==>
              !CopiedIn(q.trace.lists[i], q.writebacks[k].serial)
  {
    hide Inv, Idle, WaitFrame, RecordAll, Genuine, CopiedIn, Backed;
    var f := s.nextFrame;
    var t := s.(nextFrame := (f + 1) % FRAMES);
    NextFrameKeeps(s, (f + 1) % FRAMES);
    SameTracked(s, t);
    WaitKeeps(env, t, f);
    WaitTracked(env, t, f);
    var (waited, ok) := WaitFrame(env, t, f);
    if ok {
      FreshUncopied(BeginRecording(waited, f), actions, waited.trace.queued);
    }
  }

  // ---------- nothing is dropped unless a recording aborts ----------

  /** Frames that hold writebacks are signalled, and none was dropped. */
  predicate Fenced(s: Device) {
    WellFormed(s) && s.trace.dropped == [] &&
    forall f :: 0 <= f < FRAMES && s.frames[f].fence == 0 ==> Pending(s, f) == []
  }

  lemma WaitFenced(env: Environment, s: Device, f: nat)
    requires Fenced(s) && f < FRAMES
    ensures Fenced(WaitFrame(env, s, f).0)
  {
    hide WaitFrame, TimesOut, Pending;
    WaitEffect(env, s, f);
    var q := WaitFrame(env, s, f).0;
    forall g | 0 <= g < FRAMES && q.frames[g].fence == 0 ensures Pending(q, g) == [] {
      if g != f {
        WaitElsewhere(env, s, f, g);
      }
    }
  }

  lemma {:induction false} WaitFromFenced(env: Environment, s: Device, i: nat)
    requires Fenced(s) && i <= FRAMES
    ensures Fenced(WaitFrom(env, s, i).0)
    decreases FRAMES - i
  {
    hide WaitFrame;
    if i < FRAMES {
      WaitFenced(env, s, i);
      var q := WaitFrame(env, s, i).0;
      if WaitFrame(env, s, i).1 {
        WaitFromFenced(env, q, i + 1);
      } else {
        SameFenced(q, q.(ready := false));
      }
    }
  }

  lemma SameFenced(s: Device, q: Device)
    requires Fenced(s) && SameContents(s, q)
    ensures Fenced(q)
  {
  }

  lemma SignalFenced(s: Device)
    requires Fenced(s)
    ensures Fenced(Signal(s))
  {
    var q := Signal(s);
    assert forall f :: 0 <= f < FRAMES ==> Pending(q, f) == Pending(s, f);
  }

  lemma FinishFenced(env: Environment, s: Device)
    requires Fenced(s)
    ensures Fenced(DoFinish(env, s).0)
  {
    hide Fenced, WaitFrom;
    FencedShape(s);
    if s.ready {
      StoreKeeps(s);
      SameFenced(s, StoreFrame(s));
      SignalFenced(StoreFrame(s));
      WaitFromFenced(env, Signal(StoreFrame(s)), 0);
    }
  }

  lemma FencedShape(s: Device)
    requires Fenced(s)
    ensures WellFormed(s) && s.trace.dropped == []
  {
  }

  lemma SubmittedFenced(waited: Device, f: nat, actions: seq<Action>)
    requires Fenced(waited) && f == waited.frameIndex && waited.writebacks == []
    ensures Fenced(StoreFrame(Signal(Execute(RecordAll(BeginRecording(waited, f), actions)))))
  {
    hide RecordAll;
    var r := RecordAll(BeginRecording(waited, f), actions);
    FreshUncopied(BeginRecording(waited, f), actions, waited.trace.queued);
    var q := Signal(Execute(r));
    forall g | 0 <= g < FRAMES && q.frames[g].fence == 0 ensures Pending(q, g) == [] {
      assert g != f && Pending(q, g) == Pending(waited, g);
    }
    StoreKeeps(q);
    SameFenced(q, StoreFrame(q));
  }

  lemma SubmitFenced(env: Environment, s: Device, actions: seq<Action>)
    requires Fenced(s)
    ensures Fenced(DoSubmit(env, s, actions, false).0)
  {
    hide Fenced, WaitFrame, RecordAll, BeginRecording, Execute, Signal, TimesOut;
    FencedShape(s);
    if s.ready {
      var f := s.nextFrame;
      var t := s.(nextFrame := (f + 1) % FRAMES);
      assert SameContents(s, t);
      SameFenced(s, t);
      WaitFenced(env, t, f);
      WaitEffect(env, t, f);
      var (waited, ok) := WaitFrame(env, t, f);
      if ok {
        SubmittedFenced(waited, f, actions);
      } else {
        SameFenced(waited, waited.(ready := false));
      }
    }
  }

  lemma BarrierFenced(s: Device)
    requires Fenced(s)
    ensures Fenced(Barrier(s))
  {
    var q := Barrier(s);
    assert forall f :: 0 <= f < FRAMES ==> Pending(q, f) == Pending(s, f);
  }

  lemma CallFenced(env: Environment, s: Device, c: Call)
    requires Fenced(s) && !Aborts(c)
    ensures Fenced(Step(env, s, c))
  {
    hide Fenced, DoSubmit, DoFinish, Barrier, Signal;
    FencedShape(s);
    match c
    case Submit(actions, aborted) => SubmitFenced(env, s, actions);
    case Finish => FinishFenced(env, s);
    case Publish(transition) =>
      FinishFenced(env, s);
      var q := DoFinish(env, s).0;
      BarrierFenced(q);
      SignalFenced(q);
      SignalFenced(Barrier(q));
    case ReadSurface =>
      FinishFenced(env, s);
      var q := DoFinish(env, s).0;
      BarrierFenced(q);
      FencedShape(Barrier(q));
      FinishFenced(env, Barrier(q));
  }

  /** Without aborted recordings, a finish that succeeds has completed every writeback exactly once, each after
      the GPU finished a list that copied it. */
  lemma AllCompleteOnce(env: Environment, calls: seq<Call>, x: nat)
    requires forall i :: 0 <= i < |calls| ==> !Aborts(calls[i])
    ensures var (q, ok) := DoFinish(env, Run(env, CREATED, calls));
            ok ==> AllGenuine(q.trace) &&
                   multiset(CompletedSerials(q.trace.completions))[x] == (if x < q.trace.queued then 1 else 0)
  {
    hide Fenced, Tracked, Run, DoFinish, Settled, AllGenuine, Inv;
    RunFenced(env, calls);
    RunInv(env, calls);
    RunsCompleteGenuinely(env, calls);
    var s := Run(env, CREATED, calls);
    EverythingIsRetiredOnce(env, calls, x);
    FinishFenced(env, s);
    FencedShape(DoFinish(env, s).0);
    FinishSettles(env, s);
    TrackedGenuine(DoFinish(env, s).0);
  }

  lemma {:induction false} RunFenced(env: Environment, calls: seq<Call>)
    requires forall i :: 0 <= i < |calls| ==> !Aborts(calls[i])
    ensures Fenced(Run(env, CREATED, calls))
    decreases |calls|
  {
    hide Step;
    if calls != [] {
      RunFenced(env, calls[..|calls| - 1]);
      CallFenced(env, Run(env, CREATED, calls[..|calls| - 1]), calls[|calls| - 1]);
    }
  }
}
