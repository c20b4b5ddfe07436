/** What happens without a wait: evicting cache entries and filling buffers that all frames share. */
module FramesEvictions {
  import opened Frames
  import opened FramesSafety
  import opened FramesWritebacks

  // ---------- what is safe ----------

  /** The resource belongs to one of the cache entries. */
  predicate OfEntries(r: Resource, ids: set<nat>) {
    (r.Upload? && r.bound in ids) || (r.Shared? && r.id in ids)
  }

  ghost predicate UsesNone(uses: set<Resource>, ids: set<nat>) {
    forall r :: r in uses ==> !OfEntries(r, ids)
  }

  /** At the time of the eviction every list that uses the entries had finished, and no later list uses them. */
  ghost predicate EvictionSafe(tr: Trace, e: Eviction) {
    forall i :: 0 <= i < |tr.lists| ==>
      UsesNone(tr.lists[i].uses, e.ids) || (i < e.lists && tr.lists[i].tag < e.reached)
  }

  /** Every list was executed with what its commands referred to when they were recorded. */
  ghost predicate AllFresh(tr: Trace) {
    forall i :: 0 <= i < |tr.lists| ==> tr.lists[i].stale == {}
  }

  /** Nothing was overwritten or freed under an executed list or under the commands of one that was being recorded,
      and no queued writeback points to a freed resource. */
  ghost predicate Safe(tr: Trace) {
    (forall k :: 0 <= k < |tr.touches| ==> TouchSafe(tr, tr.touches[k])) && AllFresh(tr) &&
    (forall k :: 0 <= k < |tr.evictions| ==> EvictionSafe(tr, tr.evictions[k])) &&
    !tr.dangling
  }

  // ---------- what a caller can check before an action ----------

  /** Every list that uses the entries is known to be finished. */
  ghost predicate Unused(tr: Trace, ids: set<nat>) {
    forall i :: 0 <= i < |tr.lists| ==> UsesNone(tr.lists[i].uses, ids) || tr.lists[i].tag < tr.reached
  }

  ghost predicate Finished(tr: Trace, r: Resource) {
    forall i :: 0 <= i < |tr.lists| && r in tr.lists[i].uses ==> tr.lists[i].tag < tr.reached
  }

  /** A buffer is filled when the open recording does not refer to it, and a shared one when no unfinished list
      does; entries are evicted when no unfinished list, not the open recording, and no queued writeback refers to
      them. A recording that will be aborted may refer to what is overwritten or evicted. */
  ghost predicate Clear(r: Recording, a: Action, aborted: bool)
    requires WellFormed(r.device)
  {
    match a
    case FillUpload(bound) =>
      bound in r.device.trace.cleared || aborted || Upload(r.device.frameIndex, bound) !in r.uses
    case FillShared(id) =>
      id in r.device.trace.cleared || (Finished(r.device.trace, Shared(id)) && (aborted || Shared(id) !in r.uses))
    case Evict(ids) =>
      Unused(r.device.trace, ids) && (aborted || UsesNone(r.uses, ids)) && !LeavesDangling(r.device, ids)
    case _ => true
  }

  ghost predicate AllClear(r: Recording, actions: seq<Action>, aborted: bool)
    requires WellFormed(r.device)
  {
    forall k :: 0 <= k < |actions| ==> ClearAt(r, actions, k, aborted)
  }

  ghost predicate ClearAt(r: Recording, actions: seq<Action>, k: nat, aborted: bool)
    requires WellFormed(r.device) && k < |actions|
  {
    Clear(RecordAll(r, actions[..k]), actions[k], aborted)
  }

  /** The recording a submission starts with, when it starts one. */
  function Opened(env: Environment, s: Device): (r: (Recording, bool))
    requires WellFormed(s)
    ensures WellFormed(r.0.device)
  {
    var f := s.nextFrame;
    var (waited, ok) := WaitFrame(env, s.(nextFrame := (f + 1) % FRAMES), f);
    (BeginRecording(waited, f), s.ready && ok)
  }

  ghost predicate CallClear(env: Environment, s: Device, c: Call)
    requires WellFormed(s)
  {
    c.Submit? && Opened(env, s).1 ==> AllClear(Opened(env, s).0, c.actions, c.aborted)
  }

  ghost predicate RunClear(env: Environment, calls: seq<Call>) {
    forall i :: 0 <= i < |calls| ==> CallClear(env, Run(env, CREATED, calls[..i]), calls[i])
  }

  // ---------- steps that evict nothing ----------

  /** What was freed is what the evictions name, and nothing speaks of lists to come. */
  ghost predicate Known(tr: Trace) {
    (forall k :: 0 <= k < |tr.evictions| ==>
       tr.evictions[k].ids <= tr.cleared && tr.evictions[k].lists <= |tr.lists|) &&
    (forall x :: x in tr.cleared ==> exists k :: 0 <= k < |tr.evictions| && x in tr.evictions[k].ids) &&
    (forall k :: 0 <= k < |tr.touches| ==> tr.touches[k].lists <= |tr.lists|)
  }

  /** The trace goes on with lists and touches that concern no cache entry that is shared or was freed. */
  ghost predicate Quiet(tr: Trace, ur: Trace) {
    && |tr.lists| <= |ur.lists| && ur.lists[..|tr.lists|] == tr.lists
    && (forall i :: |tr.lists| <= i < |ur.lists| ==> UsesNone(ur.lists[i].uses, tr.cleared) && ur.lists[i].stale == {})
    && |tr.touches| <= |ur.touches| && ur.touches[..|tr.touches|] == tr.touches
    && (forall k :: |tr.touches| <= k < |ur.touches| ==> !ur.touches[k].resource.Shared?)
    && ur.evictions == tr.evictions && ur.cleared == tr.cleared && ur.dangling == tr.dangling
  }

  lemma QuietTwice(tr: Trace, ur: Trace, vr: Trace)
    requires Quiet(tr, ur) && Quiet(ur, vr)
    ensures Quiet(tr, vr)
  {
    hide UsesNone;
    forall i | 0 <= i < |tr.lists| ensures vr.lists[i] == tr.lists[i] {
      assert ur.lists[..|tr.lists|][i] == tr.lists[i] && vr.lists[..|ur.lists|][i] == ur.lists[i];
    }
    forall k | 0 <= k < |tr.touches| ensures vr.touches[k] == tr.touches[k] {
      assert ur.touches[..|tr.touches|][k] == tr.touches[k] && vr.touches[..|ur.touches|][k] == ur.touches[k];
    }
    forall i | |tr.lists| <= i < |vr.lists|
      ensures UsesNone(vr.lists[i].uses, tr.cleared) && vr.lists[i].stale == {}
    {
      if i < |ur.lists| {
        assert vr.lists[..|ur.lists|][i] == ur.lists[i];
      }
    }
    forall k | |tr.touches| <= k < |vr.touches| ensures !vr.touches[k].resource.Shared? {
      if k < |ur.touches| {
        assert vr.touches[..|ur.touches|][k] == ur.touches[k];
      }
    }
  }

  lemma SmallerUsesNone(uses: set<Resource>, ids: set<nat>, more: set<nat>)
    requires UsesNone(uses, more) && ids <= more
    ensures UsesNone(uses, ids)
  {
  }

  lemma QuietKnown(tr: Trace, ur: Trace)
    requires Known(tr) && Quiet(tr, ur) && OwnSafe(ur)
    ensures Known(ur)
  {
    forall k | 0 <= k < |ur.touches| ensures ur.touches[k].lists <= |ur.lists| {
      if k < |tr.touches| {
        assert ur.touches[..|tr.touches|][k] == tr.touches[k];
      } else {
        assert OwnTouchSafe(ur, ur.touches[k]);
      }
    }
  }

  /** Quiet steps neither break safety nor restore it. */
  lemma QuietSafe(tr: Trace, ur: Trace)
    requires Known(tr) && Quiet(tr, ur) && OwnSafe(tr) && OwnSafe(ur)
    ensures Safe(ur) <==> Safe(tr)
  {
    hide UsesNone, TouchSafe, EvictionSafe;
    forall i | 0 <= i < |tr.lists| ensures ur.lists[i] == tr.lists[i] {
      assert ur.lists[..|tr.lists|][i] == tr.lists[i];
    }
    forall k | 0 <= k < |tr.touches|
      ensures ur.touches[k] == tr.touches[k] && (TouchSafe(ur, ur.touches[k]) <==> TouchSafe(tr, tr.touches[k]))
    {
      assert ur.touches[..|tr.touches|][k] == tr.touches[k];
      assert OwnTouchSafe(tr, tr.touches[k]) && OwnTouchSafe(ur, ur.touches[k]);
      if tr.touches[k].resource.Shared? {
        PrefixTouch(tr, ur, tr.touches[k]);
      }
    }
    forall k | |tr.touches| <= k < |ur.touches| ensures TouchSafe(ur, ur.touches[k]) {
      assert OwnTouchSafe(ur, ur.touches[k]);
    }
    forall k | 0 <= k < |tr.evictions|
      ensures EvictionSafe(ur, ur.evictions[k]) <==> EvictionSafe(tr, tr.evictions[k])
    {
      PrefixEviction(tr, ur, tr.evictions[k]);
    }
  }

  lemma PrefixTouch(tr: Trace, ur: Trace, t: Touch)
    requires |tr.lists| <= |ur.lists| && forall i :: 0 <= i < |tr.lists| ==> ur.lists[i] == tr.lists[i]
    requires t.lists <= |tr.lists| && t.resource.Shared?
    ensures TouchSafe(ur, t) <==> TouchSafe(tr, t)
  {
  }

  lemma PrefixEviction(tr: Trace, ur: Trace, e: Eviction)
    requires |tr.lists| <= |ur.lists| && forall i :: 0 <= i < |tr.lists| ==> ur.lists[i] == tr.lists[i]
    requires forall i :: |tr.lists| <= i < |ur.lists| ==> UsesNone(ur.lists[i].uses, tr.cleared)
    requires e.ids <= tr.cleared
    ensures EvictionSafe(ur, e) <==> EvictionSafe(tr, e)
  {
    hide UsesNone;
    forall i | |tr.lists| <= i < |ur.lists| ensures UsesNone(ur.lists[i].uses, e.ids) {
      SmallerUsesNone(ur.lists[i].uses, e.ids, tr.cleared);
    }
  }

  lemma WaitQuiet(env: Environment, s: Device, f: nat)
    requires WellFormed(s) && f < FRAMES
    ensures Quiet(s.trace, WaitFrame(env, s, f).0.trace)
  {
    hide TimesOut, WaitFrame, SeenReached, Completed, Serials;
    WaitUnfold(env, s, f);
    CompletedQuiet(s.trace);
  }

  lemma CompletedQuiet(tr: Trace)
    ensures forall ur: Trace, ws: seq<Writeback> ::
              var vr := Completed(ur, ws);
              vr.lists == ur.lists && vr.touches == ur.touches && vr.evictions == ur.evictions &&
              vr.cleared == ur.cleared && vr.dangling == ur.dangling
  {
  }

  lemma {:induction false} WaitFromQuiet(env: Environment, s: Device, i: nat)
    requires WellFormed(s) && i <= FRAMES
    ensures Quiet(s.trace, WaitFrom(env, s, i).0.trace)
    decreases FRAMES - i
  {
    hide WaitFrame, Quiet;
    if i < FRAMES {
      WaitQuiet(env, s, i);
      var (q, ok) := WaitFrame(env, s, i);
      if ok {
        WaitFromQuiet(env, q, i + 1);
        QuietTwice(s.trace, q.trace, WaitFrom(env, q, i + 1).0.trace);
      }
    } else {
      QuietSame(s.trace);
    }
  }

  lemma QuietSame(tr: Trace)
    ensures Quiet(tr, tr)
  {
  }

  lemma FinishQuiet(env: Environment, s: Device)
    requires WellFormed(s)
    ensures Quiet(s.trace, DoFinish(env, s).0.trace)
  {
    hide WaitFrom, Quiet;
    if s.ready {
      WaitFromQuiet(env, Signal(StoreFrame(s)), 0);
    } else {
      QuietSame(s.trace);
    }
  }

  lemma BarrierQuiet(s: Device)
    requires WellFormed(s)
    ensures WellFormed(Barrier(s)) && Quiet(s.trace, Barrier(s).trace)
  {
  }

  lemma PublishQuiet(env: Environment, s: Device, transition: bool)
    requires WellFormed(s)
    ensures Quiet(s.trace, DoPublish(env, s, transition).0.trace)
  {
    hide DoFinish, Quiet, Barrier;
    FinishQuiet(env, s);
    var q := DoFinish(env, s).0;
    BarrierQuiet(q);
    QuietTwice(s.trace, q.trace, Barrier(q).trace);
  }

  lemma ReadQuiet(env: Environment, s: Device)
    requires WellFormed(s)
    ensures Quiet(s.trace, DoRead(env, s).0.trace)
  {
    hide DoFinish, Quiet, Barrier;
    FinishQuiet(env, s);
    var (q, ok) := DoFinish(env, s);
    if ok {
      BarrierQuiet(q);
      QuietTwice(s.trace, q.trace, Barrier(q).trace);
      BarrierFrame(q);
      FinishQuiet(env, Barrier(q));
      QuietTwice(s.trace, Barrier(q).trace, DoFinish(env, Barrier(q)).0.trace);
    }
  }

  // ---------- recording ----------

  /** Safe so far, and the open recording refers to nothing that was freed or overwritten, unless it will be
      aborted. */
  ghost predicate SafeSoFar(r: Recording, aborted: bool) {
    Safe(r.device.trace) && (aborted || (UsesNone(r.uses, r.device.trace.cleared) && r.device.trace.stale == {}))
  }

  lemma RecordExact(r: Recording, a: Action, aborted: bool)
    requires Recordable(r) && Known(r.device.trace)
    ensures WellFormed(r.device)
    ensures Known(Record(r, a).device.trace)
    ensures SafeSoFar(Record(r, a), aborted) <==> SafeSoFar(r, aborted) && Clear(r, a, aborted)
  {
    hide Recordable, Safe, Known, UsesNone, Clear, Gone, Evicted;
    RecordableShape(r);
    RecordKeeps(r, a);
    RecordableOwn(r);
    RecordableOwn(Record(r, a));
    if a.Evict? {
      EvictKnown(r.device, a.ids);
      EvictExact(r, a.ids, aborted);
    } else if a.FillShared? {
      FillExact(r, a.id, aborted);
    } else if a.FillUpload? {
      FillUploadExact(r, a.bound, aborted);
    } else {
      NewPage(r);
      OtherExact(r, a, aborted);
    }
  }

  /** The next page was not referred to yet. */
  lemma NewPage(r: Recording)
    requires Recordable(r)
    ensures Page(r.device.page) !in r.uses
  {
  }

  lemma RecordableOwn(r: Recording)
    requires Recordable(r)
    ensures OwnSafe(r.device.trace)
  {
  }

  lemma EvictKnown(s: Device, ids: set<nat>)
    requires WellFormed(s) && Known(s.trace)
    ensures Known(Evicted(s, ids).trace)
  {
    hide LeavesDangling;
    var tr, ur := s.trace, Evicted(s, ids).trace;
    forall x | x in ur.cleared ensures exists k :: 0 <= k < |ur.evictions| && x in ur.evictions[k].ids {
      if x in tr.cleared {
        var k :| 0 <= k < |tr.evictions| && x in tr.evictions[k].ids;
        assert ur.evictions[k] == tr.evictions[k];
      } else {
        assert ur.evictions[|tr.evictions|].ids == ids;
      }
    }
  }

  lemma EvictExact(r: Recording, ids: set<nat>, aborted: bool)
    requires WellFormed(r.device) && Known(r.device.trace)
    ensures SafeSoFar(Record(r, Evict(ids)), aborted) <==> SafeSoFar(r, aborted) && Clear(r, Evict(ids), aborted)
  {
    hide LeavesDangling, TouchSafe, EvictionSafe, UsesNone;
    var tr, ur := r.device.trace, Evicted(r.device, ids).trace;
    var e := Eviction(ids, |tr.lists|, tr.reached);
    UnionUsesNone(r.uses, tr.cleared, ids);
    forall k | 0 <= k < |tr.touches| ensures TouchSafe(ur, tr.touches[k]) <==> TouchSafe(tr, tr.touches[k]) {
      SameTouchSafe(tr, ur, tr.touches[k]);
    }
    forall k | 0 <= k < |tr.evictions|
      ensures EvictionSafe(ur, ur.evictions[k]) <==> EvictionSafe(tr, tr.evictions[k])
    {
      assert ur.evictions[k] == tr.evictions[k];
      SameEvictionSafe(tr, ur, tr.evictions[k]);
    }
    NewEviction(tr, ur, e);
    assert ur.evictions[|tr.evictions|] == e;
    assert Safe(ur) <==> Safe(tr) && Unused(tr, ids) && !LeavesDangling(r.device, ids);
  }

  lemma UnionUsesNone(uses: set<Resource>, ids: set<nat>, more: set<nat>)
    ensures UsesNone(uses, ids + more) <==> UsesNone(uses, ids) && UsesNone(uses, more)
  {
    if UsesNone(uses, ids + more) {
      SmallerUsesNone(uses, ids, ids + more);
      SmallerUsesNone(uses, more, ids + more);
    }
  }

  lemma SameTouchSafe(tr: Trace, ur: Trace, t: Touch)
    requires ur.lists == tr.lists
    ensures TouchSafe(ur, t) <==> TouchSafe(tr, t)
  {
  }

  lemma SameEvictionSafe(tr: Trace, ur: Trace, e: Eviction)
    requires ur.lists == tr.lists
    ensures EvictionSafe(ur, e) <==> EvictionSafe(tr, e)
  {
  }

  lemma NewEviction(tr: Trace, ur: Trace, e: Eviction)
    requires ur.lists == tr.lists && e.lists == |tr.lists| && e.reached == tr.reached
    ensures EvictionSafe(ur, e) <==> Unused(tr, e.ids)
  {
  }

  lemma FillExact(r: Recording, id: nat, aborted: bool)
    requires WellFormed(r.device) && Known(r.device.trace)
    ensures Known(Record(r, FillShared(id)).device.trace)
    ensures SafeSoFar(Record(r, FillShared(id)), aborted) <==>
              SafeSoFar(r, aborted) && Clear(r, FillShared(id), aborted)
  {
    hide TouchSafe, EvictionSafe, UsesNone, Finished, AllFresh;
    var tr := r.device.trace;
    if id !in tr.cleared {
      var ur := Overwritten(tr, r.uses, Shared(id));
      var t := Touch(Shared(id), |tr.lists|, tr.reached);
      MoreUses(r.uses, Shared(id), tr.cleared);
      SameListsFresh(tr, ur);
      forall k | 0 <= k < |tr.touches|
        ensures ur.touches[k] == tr.touches[k] && (TouchSafe(ur, tr.touches[k]) <==> TouchSafe(tr, tr.touches[k]))
      {
        SameTouchSafe(tr, ur, tr.touches[k]);
      }
      forall k | 0 <= k < |tr.evictions|
        ensures EvictionSafe(ur, tr.evictions[k]) <==> EvictionSafe(tr, tr.evictions[k])
      {
        SameEvictionSafe(tr, ur, tr.evictions[k]);
      }
      NewTouch(tr, ur, t);
      assert ur.touches[|tr.touches|] == t;
      assert Safe(ur) <==> Safe(tr) && Finished(tr, Shared(id));
      assert ur.stale == {} <==> tr.stale == {} && Shared(id) !in r.uses;
    }
  }

  lemma SameListsFresh(tr: Trace, ur: Trace)
    requires ur.lists == tr.lists
    ensures AllFresh(ur) <==> AllFresh(tr)
  {
  }

  /** The touch is safe whatever the recording refers to, but the overwritten buffer may not be. */
  lemma FillUploadExact(r: Recording, bound: nat, aborted: bool)
    requires WellFormed(r.device) && Known(r.device.trace)
    requires OwnSafe(r.device.trace) && OwnSafe(Record(r, FillUpload(bound)).device.trace)
    ensures Known(Record(r, FillUpload(bound)).device.trace)
    ensures SafeSoFar(Record(r, FillUpload(bound)), aborted) <==>
              SafeSoFar(r, aborted) && Clear(r, FillUpload(bound), aborted)
  {
    hide Known, Safe, UsesNone, OwnSafe;
    var tr, x := r.device.trace, Upload(r.device.frameIndex, bound);
    if bound !in tr.cleared {
      var ur := Overwritten(tr, r.uses, x);
      assert Quiet(tr, ur);
      QuietKnown(tr, ur);
      QuietSafe(tr, ur);
      MoreUses(r.uses, x, tr.cleared);
      assert ur.stale == {} <==> tr.stale == {} && x !in r.uses;
    }
  }

  lemma MoreUses(uses: set<Resource>, r: Resource, ids: set<nat>)
    ensures UsesNone(uses + {r}, ids) <==> UsesNone(uses, ids) && !OfEntries(r, ids)
  {
    if UsesNone(uses + {r}, ids) {
      assert r in uses + {r};
      forall x | x in uses ensures !OfEntries(x, ids) {
        assert x in uses + {r};
      }
    }
  }

  lemma NewTouch(tr: Trace, ur: Trace, t: Touch)
    requires ur.lists == tr.lists && t.resource.Shared? && t.lists == |tr.lists| && t.reached == tr.reached
    ensures TouchSafe(ur, t) <==> Finished(tr, t.resource)
  {
  }

  /** The other actions touch only what their frame owns, and use only live entries. */
  lemma OtherExact(r: Recording, a: Action, aborted: bool)
    requires WellFormed(r.device) && Known(r.device.trace) && !a.Evict? && !a.FillShared? && !a.FillUpload?
    requires Page(r.device.page) !in r.uses
    requires OwnSafe(r.device.trace) && OwnSafe(Record(r, a).device.trace)
    ensures Known(Record(r, a).device.trace) && Clear(r, a, aborted)
    ensures SafeSoFar(Record(r, a), aborted) <==> SafeSoFar(r, aborted)
  {
    hide Known, Safe, UsesNone, OwnSafe, Queued;
    var s, q := r.device, Record(r, a).device;
    assert Quiet(s.trace, q.trace);
    QuietKnown(s.trace, q.trace);
    QuietSafe(s.trace, q.trace);
    MoreUses(r.uses, Page(s.page), s.trace.cleared);
    MoreUses(r.uses, Temporary(Transient(s.frameIndex, s.trace.created)), s.trace.cleared);
    if a.UseShared? {
      MoreUses(r.uses, Shared(a.id), s.trace.cleared);
    }
  }

  lemma {:induction false} RecordAllExact(r: Recording, actions: seq<Action>, aborted: bool)
    requires Recordable(r) && Known(r.device.trace)
    ensures WellFormed(r.device) && Recordable(RecordAll(r, actions))
    ensures Known(RecordAll(r, actions).device.trace)
    ensures SafeSoFar(RecordAll(r, actions), aborted) <==> SafeSoFar(r, aborted) && AllClear(r, actions, aborted)
    decreases |actions|
  {
    hide Recordable, Known, SafeSoFar, Clear, Record, ClearAt;
    RecordableShape(r);
    if actions != [] {
      hide AllClear;
      var before, last := actions[..|actions| - 1], actions[|actions| - 1];
      RecordAllExact(r, before, aborted);
      RecordAllKeeps(r, actions);
      RecordExact(RecordAll(r, before), last, aborted);
      AllClearGrows(r, actions, aborted);
    }
  }

  lemma AllClearGrows(r: Recording, actions: seq<Action>, aborted: bool)
    requires WellFormed(r.device) && actions != []
    ensures var before, last := actions[..|actions| - 1], actions[|actions| - 1];
            AllClear(r, actions, aborted) <==>
              AllClear(r, before, aborted) && Clear(RecordAll(r, before), last, aborted)
  {
    hide ClearAt, RecordAll, Clear;
    var before, n := actions[..|actions| - 1], |actions| - 1;
    forall k: nat | k < n ensures ClearAt(r, actions, k, aborted) <==> ClearAt(r, before, k, aborted) {
      ClearBefore(r, actions, k, aborted);
    }
    ClearBefore(r, actions, n, aborted);
  }

  lemma ClearBefore(r: Recording, actions: seq<Action>, k: nat, aborted: bool)
    requires WellFormed(r.device) && k < |actions|
    ensures k < |actions| - 1 ==>
              (ClearAt(r, actions, k, aborted) <==> ClearAt(r, actions[..|actions| - 1], k, aborted))
    ensures k == |actions| - 1 ==>
              (ClearAt(r, actions, k, aborted) <==> Clear(RecordAll(r, actions[..k]), actions[k], aborted))
  {
    hide RecordAll, Clear;
    if k < |actions| - 1 {
      assert actions[..|actions| - 1][..k] == actions[..k];
    }
  }

  // ---------- whole calls ----------

  /** Executing the recording shows whether it refers to something freed. */
  lemma ExecuteExact(r: Recording)
    requires Known(r.device.trace) && OwnSafe(r.device.trace) && OwnSafe(Execute(r).trace)
    ensures Known(Execute(r).trace)
    ensures Safe(Execute(r).trace) <==> SafeSoFar(r, false)
  {
    var tr, ur := r.device.trace, Execute(r).trace;
    if UsesNone(r.uses, tr.cleared) && tr.stale == {} {
      assert Quiet(tr, ur);
      QuietKnown(tr, ur);
      QuietSafe(tr, ur);
    } else if tr.stale != {} {
      assert ur.lists[|tr.lists|].stale != {};
    } else {
      var x :| x in r.uses && OfEntries(x, tr.cleared);
      var id := if x.Upload? then x.bound else x.id;
      var k :| 0 <= k < |tr.evictions| && id in tr.evictions[k].ids;
      FreedAndUsed(tr, ur, tr.evictions[k], x);
    }
  }

  lemma FreedAndUsed(tr: Trace, ur: Trace, e: Eviction, x: Resource)
    requires |ur.lists| == |tr.lists| + 1 && x in ur.lists[|tr.lists|].uses && OfEntries(x, e.ids)
    requires e.lists <= |tr.lists|
    ensures !EvictionSafe(ur, e)
  {
    assert !UsesNone(ur.lists[|tr.lists|].uses, e.ids);
  }

  lemma OpenedRecordable(env: Environment, s: Device)
    requires Inv(s) && WellFormed(s) && Opened(env, s).1
    ensures Recordable(Opened(env, s).0)
  {
    hide Inv, Idle, WaitFrame;
    NextFrameKeeps(s, (s.nextFrame + 1) % FRAMES);
    var t := s.(nextFrame := (s.nextFrame + 1) % FRAMES);
    WaitKeeps(env, t, s.nextFrame);
    BeginKeeps(WaitFrame(env, t, s.nextFrame).0, s.nextFrame);
  }

  lemma OpenedQuiet(env: Environment, s: Device)
    requires WellFormed(s)
    ensures Quiet(s.trace, Opened(env, s).0.device.trace)
  {
    hide WaitFrame;
    var t := s.(nextFrame := (s.nextFrame + 1) % FRAMES);
    var waited := WaitFrame(env, t, s.nextFrame).0;
    WaitQuiet(env, t, s.nextFrame);
    QuietTwice(s.trace, waited.trace, Opening(waited.trace, s.nextFrame));
  }

  /** The trace a submission leaves. */
  lemma SubmitUnfold(env: Environment, s: Device, actions: seq<Action>, aborted: bool)
    requires WellFormed(s) && Opened(env, s).1
    ensures var r := RecordAll(Opened(env, s).0, actions);
            DoSubmit(env, s, actions, aborted).0.trace == if aborted then r.device.trace else Execute(r).trace
  {
    hide WaitFrame, RecordAll, BeginRecording;
  }

  lemma RefusedQuiet(env: Environment, s: Device, actions: seq<Action>, aborted: bool)
    requires WellFormed(s) && !Opened(env, s).1
    ensures Quiet(s.trace, DoSubmit(env, s, actions, aborted).0.trace)
  {
    hide WaitFrame, Quiet;
    QuietSame(s.trace);
    WaitQuiet(env, s.(nextFrame := (s.nextFrame + 1) % FRAMES), s.nextFrame);
  }

  lemma InvOwn(s: Device)
    requires Inv(s)
    ensures WellFormed(s) && OwnSafe(s.trace)
  {
  }

  lemma SubmitExact(env: Environment, s: Device, actions: seq<Action>, aborted: bool)
    requires Inv(s) && WellFormed(s) && Known(s.trace)
    ensures var q := DoSubmit(env, s, actions, aborted).0;
            Known(q.trace) && (Safe(q.trace) <==> Safe(s.trace) && CallClear(env, s, Submit(actions, aborted)))
  {
    hide Inv, DoSubmit, Opened, Known, Safe, Quiet, Recordable, OwnSafe, AllClear, UsesNone, RecordAll, Execute;
    var q := DoSubmit(env, s, actions, aborted).0;
    InvOwn(s);
    SubmitKeeps(env, s, actions, aborted);
    InvOwn(q);
    var (b, begun) := Opened(env, s);
    if begun {
      OpenedRecordable(env, s);
      OpenedQuiet(env, s);
      RecordableOwn(b);
      QuietKnown(s.trace, b.device.trace);
      QuietSafe(s.trace, b.device.trace);
      OpenedUses(env, s);
      RecordAllExact(b, actions, aborted);
      SubmitUnfold(env, s, actions, aborted);
      RecordableOwn(RecordAll(b, actions));
      if !aborted {
        ExecuteExact(RecordAll(b, actions));
      }
    } else {
      RefusedQuiet(env, s, actions, aborted);
      QuietKnown(s.trace, q.trace);
      QuietSafe(s.trace, q.trace);
    }
  }

  lemma OpenedUses(env: Environment, s: Device)
    requires WellFormed(s)
    ensures UsesNone(Opened(env, s).0.uses, Opened(env, s).0.device.trace.cleared)
    ensures Opened(env, s).0.device.trace.stale == {}
  {
  }

  lemma CallExact(env: Environment, s: Device, c: Call)
    requires Inv(s) && WellFormed(s) && Known(s.trace)
    ensures var q := Step(env, s, c);
            Known(q.trace) && (Safe(q.trace) <==> Safe(s.trace) && CallClear(env, s, c))
  {
    hide Inv, DoSubmit, DoFinish, DoPublish, DoRead, Known, Safe, Quiet, OwnSafe, Opened, AllClear;
    if c.Submit? {
      SubmitExact(env, s, c.actions, c.aborted);
    } else {
      var q := Step(env, s, c);
      StepKeeps(env, s, c);
      InvOwn(s);
      InvOwn(q);
      match c {
        case Finish => FinishQuiet(env, s);
        case Publish(transition) => PublishQuiet(env, s, transition);
        case ReadSurface => ReadQuiet(env, s);
      }
      QuietKnown(s.trace, q.trace);
      QuietSafe(s.trace, q.trace);
    }
  }

  // ---------- every run ----------

  lemma CreatedSafe()
    ensures Safe(CREATED.trace) && Known(CREATED.trace)
  {
  }

  lemma {:induction false} RunExact(env: Environment, calls: seq<Call>)
    ensures Known(Run(env, CREATED, calls).trace)
    ensures Safe(Run(env, CREATED, calls).trace) <==> RunClear(env, calls)
    decreases |calls|
  {
    hide Inv, Step, Safe, Known, CallClear;
    if calls == [] {
      CreatedSafe();
    } else {
      var before, last := calls[..|calls| - 1], calls[|calls| - 1];
      RunExact(env, before);
      RunInv(env, before);
      CallExact(env, Run(env, CREATED, before), last);
      forall i | 0 <= i < |before| ensures calls[..i] == before[..i] && calls[i] == before[i] {
      }
      assert RunClear(env, calls) <==> RunClear(env, before) && CallClear(env, Run(env, CREATED, before), last);
    }
  }

  /** Over every run: nothing is overwritten under an unfinished list or under earlier commands of its own list,
      nothing is freed that an unfinished list or a later one uses, and no queued writeback loses its resource, if
      and only if every fill and every eviction was clear when it came. */
  lemma RunsAreSafe(env: Environment, calls: seq<Call>)
    ensures Safe(Run(env, CREATED, calls).trace) <==> RunClear(env, calls)
    ensures OwnSafe(Run(env, CREATED, calls).trace)
  {
    hide Run, Safe, RunClear, OwnSafe;
    RunExact(env, calls);
    OwnedTouchesAreSafe(env, calls);
  }

  // ---------- what a completion reads ----------

  ghost predicate AllLive(tr: Trace) {
    forall k :: 0 <= k < |tr.completions| ==> tr.completions[k].live
  }

  ghost predicate NoneFreed(s: Device)
    requires WellFormed(s)
  {
    forall f :: 0 <= f < FRAMES ==> !PointsInto(Pending(s, f), s.trace.cleared)
  }

  /** Unless an eviction left a queued writeback dangling, the queues point to live resources, and so did every
      writeback that was completed. */
  ghost predicate Attached(s: Device) {
    WellFormed(s) && (s.trace.dangling || (NoneFreed(s) && AllLive(s.trace)))
  }

  lemma AttachedShape(s: Device)
    requires Attached(s)
    ensures WellFormed(s)
  {
  }

  lemma CompletionsLive(tr: Trace, ws: seq<Writeback>)
    requires !PointsInto(ws, tr.cleared)
    ensures forall c :: c in Completions(tr, ws) ==> c.live
  {
  }

  lemma WaitAttached(env: Environment, s: Device, f: nat)
    requires Attached(s) && f < FRAMES
    ensures Attached(WaitFrame(env, s, f).0)
  {
    hide WaitFrame, TimesOut, Pending, PointsInto;
    WaitEffect(env, s, f);
    WaitQuiet(env, s, f);
    var q := WaitFrame(env, s, f).0;
    if !s.trace.dangling {
      CompletionsLive(q.trace, Pending(s, f));
      EmptyPointsNowhere(q.trace.cleared);
      forall g | 0 <= g < FRAMES ensures !PointsInto(Pending(q, g), q.trace.cleared) {
        if g != f {
          WaitElsewhere(env, s, f, g);
        }
      }
    }
  }

  lemma EmptyPointsNowhere(ids: set<nat>)
    ensures !PointsInto([], ids)
  {
  }

  lemma SameAttached(s: Device, q: Device)
    requires Attached(s) && SameContents(s, q)
    ensures Attached(q)
  {
    hide PointsInto;
  }

  /** Queues and cache entries stay as they are. */
  predicate SameQueues(s: Device, q: Device) {
    WellFormed(s) && WellFormed(q) && q.trace.completions == s.trace.completions &&
    q.trace.cleared == s.trace.cleared && q.trace.dangling == s.trace.dangling &&
    forall f :: 0 <= f < FRAMES ==> Pending(q, f) == Pending(s, f)
  }

  lemma SameQueuesAttached(s: Device, q: Device)
    requires Attached(s) && SameQueues(s, q)
    ensures Attached(q)
  {
    hide PointsInto;
  }

  lemma UnionPointsInto(ws: seq<Writeback>, ids: set<nat>, more: set<nat>)
    ensures PointsInto(ws, ids + more) <==> PointsInto(ws, ids) || PointsInto(ws, more)
  {
  }

  lemma OneMorePointsInto(ws: seq<Writeback>, w: Writeback, ids: set<nat>)
    requires !PointsInto(ws, ids) && w.bound !in ids
    ensures !PointsInto(ws + [w], ids)
  {
  }

  lemma RecordAttached(r: Recording, a: Action)
    requires Attached(r.device)
    ensures Attached(Record(r, a).device)
  {
    hide PointsInto, Queued, Pending;
    var s, q := r.device, Record(r, a).device;
    if a.Evict? {
      forall f | 0 <= f < FRAMES
        ensures Pending(q, f) == Pending(s, f)
        ensures PointsInto(Pending(s, f), s.trace.cleared + a.ids) <==>
                  PointsInto(Pending(s, f), s.trace.cleared) || PointsInto(Pending(s, f), a.ids)
      {
        PendingOf(s, q, f);
        UnionPointsInto(Pending(s, f), s.trace.cleared, a.ids);
      }
    } else if a.QueueWriteback? {
      forall f | 0 <= f < FRAMES && !s.trace.dangling ensures !PointsInto(Pending(q, f), q.trace.cleared) {
        assert !PointsInto(Pending(s, f), s.trace.cleared);
        QueuedPending(r, a, f);
      }
    } else {
      forall f | 0 <= f < FRAMES ensures Pending(q, f) == Pending(s, f) {
        PendingOf(s, q, f);
      }
    }
  }

  lemma PendingOf(s: Device, q: Device, f: nat)
    requires WellFormed(s) && WellFormed(q) && f < FRAMES
    requires q.frames == s.frames && q.frameIndex == s.frameIndex && q.writebacks == s.writebacks
    ensures Pending(q, f) == Pending(s, f)
  {
  }

  lemma QueuedPending(r: Recording, a: Action, f: nat)
    requires WellFormed(r.device) && a.QueueWriteback? && f < FRAMES
    requires !PointsInto(Pending(r.device, f), r.device.trace.cleared)
    ensures !PointsInto(Pending(Record(r, a).device, f), r.device.trace.cleared)
  {
    hide PointsInto, Queued;
    var s := r.device;
    if f == s.frameIndex && a.bound !in s.trace.cleared {
      OneMorePointsInto(s.writebacks, Writeback(a.bound, a.address, a.size, s.trace.queued), s.trace.cleared);
    }
  }

  lemma {:induction false} RecordAllAttached(r: Recording, actions: seq<Action>)
    requires Attached(r.device)
    ensures WellFormed(r.device) && Attached(RecordAll(r, actions).device)
    decreases |actions|
  {
    hide Attached, Record;
    AttachedShape(r.device);
    if actions != [] {
      RecordAllAttached(r, actions[..|actions| - 1]);
      RecordAttached(RecordAll(r, actions[..|actions| - 1]), actions[|actions| - 1]);
    }
  }

  lemma {:induction false} WaitFromAttached(env: Environment, s: Device, i: nat)
    requires Attached(s) && i <= FRAMES
    ensures WellFormed(s) && Attached(WaitFrom(env, s, i).0)
    decreases FRAMES - i
  {
    hide Attached, WaitFrame;
    AttachedShape(s);
    if i < FRAMES {
      WaitAttached(env, s, i);
      var (q, ok) := WaitFrame(env, s, i);
      if ok {
        WaitFromAttached(env, q, i + 1);
      } else {
        SameQueuesAttached(q, q.(ready := false));
      }
    }
  }

  lemma SignalQueues(s: Device)
    requires WellFormed(s)
    ensures SameQueues(s, Signal(s)) && SameQueues(s, Barrier(s)) && SameQueues(s, StoreFrame(s))
    ensures Signal(s).ready == s.ready == Barrier(s).ready == StoreFrame(s).ready
  {
  }

  lemma FinishAttached(env: Environment, s: Device)
    requires Attached(s)
    ensures WellFormed(s) && Attached(DoFinish(env, s).0)
  {
    hide Attached, WaitFrom, SameQueues, Signal, StoreFrame, Barrier;
    AttachedShape(s);
    if s.ready {
      SignalQueues(s);
      SameQueuesAttached(s, StoreFrame(s));
      AttachedShape(StoreFrame(s));
      SignalQueues(StoreFrame(s));
      SameQueuesAttached(StoreFrame(s), Signal(StoreFrame(s)));
      WaitFromAttached(env, Signal(StoreFrame(s)), 0);
    }
  }

  lemma BeginAttached(s: Device, f: nat)
    requires Attached(s) && f == s.frameIndex
    ensures Attached(BeginRecording(s, f).device)
  {
    hide PointsInto;
    var q := BeginRecording(s, f).device;
    EmptyPointsNowhere(q.trace.cleared);
    forall g | 0 <= g < FRAMES ensures g != f ==> Pending(q, g) == Pending(s, g) {
    }
  }

  lemma OpenedAttached(env: Environment, s: Device)
    requires Attached(s)
    ensures WellFormed(s) && Attached(Opened(env, s).0.device)
  {
    hide WaitFrame, Attached, BeginRecording;
    AttachedShape(s);
    var t := s.(nextFrame := (s.nextFrame + 1) % FRAMES);
    assert SameContents(s, t);
    SameAttached(s, t);
    WaitAttached(env, t, s.nextFrame);
    BeginAttached(WaitFrame(env, t, s.nextFrame).0, s.nextFrame);
  }

  lemma ExecutedQueues(r: Recording)
    requires WellFormed(r.device)
    ensures WellFormed(Execute(r)) && WellFormed(Signal(Execute(r)))
    ensures SameQueues(r.device, StoreFrame(Signal(Execute(r))))
  {
  }

  /** What a submission leaves. */
  lemma SubmitWhole(env: Environment, s: Device, actions: seq<Action>, aborted: bool)
    requires WellFormed(s)
    ensures var q := DoSubmit(env, s, actions, aborted).0;
            var t := s.(nextFrame := (s.nextFrame + 1) % FRAMES);
            var r := RecordAll(Opened(env, s).0, actions);
            q == if !s.ready then s
                 else if !Opened(env, s).1 then WaitFrame(env, t, s.nextFrame).0.(ready := false)
                 else if aborted then r.device
                 else StoreFrame(Signal(Execute(r)))
  {
    hide WaitFrame, RecordAll, BeginRecording;
  }

  lemma SubmitAttached(env: Environment, s: Device, actions: seq<Action>, aborted: bool)
    requires Attached(s)
    ensures WellFormed(s) && Attached(DoSubmit(env, s, actions, aborted).0)
  {
    hide Attached, WaitFrame, Opened, RecordAll, DoSubmit, SameQueues, Execute, Signal, StoreFrame;
    AttachedShape(s);
    SubmitWhole(env, s, actions, aborted);
    var t := s.(nextFrame := (s.nextFrame + 1) % FRAMES);
    assert SameContents(s, t);
    SameAttached(s, t);
    WaitAttached(env, t, s.nextFrame);
    var waited := WaitFrame(env, t, s.nextFrame).0;
    assert SameContents(waited, waited.(ready := false));
    SameAttached(waited, waited.(ready := false));
    OpenedAttached(env, s);
    RecordAllAttached(Opened(env, s).0, actions);
    var r := RecordAll(Opened(env, s).0, actions);
    AttachedShape(r.device);
    ExecutedQueues(r);
    SameQueuesAttached(r.device, StoreFrame(Signal(Execute(r))));
  }

  lemma CallAttached(env: Environment, s: Device, c: Call)
    requires Attached(s)
    ensures WellFormed(s) && Attached(Step(env, s, c))
  {
    hide Attached, DoSubmit, DoFinish, Barrier, Signal, SameQueues;
    AttachedShape(s);
    match c
    case Submit(actions, aborted) => SubmitAttached(env, s, actions, aborted);
    case Finish => FinishAttached(env, s);
    case Publish(transition) =>
      FinishAttached(env, s);
      var q := DoFinish(env, s).0;
      var b := if transition then Barrier(q) else q;
      SignalQueues(q);
      SameQueuesAttached(q, Barrier(q));
      AttachedShape(b);
      SignalQueues(b);
      SameQueuesAttached(b, Signal(b));
    case ReadSurface =>
      FinishAttached(env, s);
      var q := DoFinish(env, s).0;
      SignalQueues(q);
      SameQueuesAttached(q, Barrier(q));
      FinishAttached(env, Barrier(q));
  }

  lemma CreatedAttached()
    ensures Attached(CREATED)
  {
  }

  lemma {:induction false} RunAttached(env: Environment, calls: seq<Call>)
    ensures Attached(Run(env, CREATED, calls))
    decreases |calls|
  {
    hide Attached, Step;
    if calls == [] {
      CreatedAttached();
    } else {
      RunAttached(env, calls[..|calls| - 1]);
      CallAttached(env, Run(env, CREATED, calls[..|calls| - 1]), calls[|calls| - 1]);
    }
  }

  /** Without aborted recordings, a finish that succeeds has completed every writeback exactly once, each after
      the GPU finished a list that copied it; and when every eviction was clear, each from a resource that still
      existed. */
  lemma EveryWritebackCompletesOnce(env: Environment, calls: seq<Call>, x: nat)
    requires forall i :: 0 <= i < |calls| ==> !Aborts(calls[i])
    ensures var (q, ok) := DoFinish(env, Run(env, CREATED, calls));
            && (ok ==> AllGenuine(q.trace) &&
                       multiset(CompletedSerials(q.trace.completions))[x] == (if x < q.trace.queued then 1 else 0))
            && (RunClear(env, calls) ==> AllLive(q.trace))
  {
    hide Run, DoFinish, AllGenuine, RunClear, Quiet, Known, AllLive;
    AllCompleteOnce(env, calls, x);
    RunAttached(env, calls);
    RunExact(env, calls);
    FinishAttached(env, Run(env, CREATED, calls));
    FinishQuiet(env, Run(env, CREATED, calls));
    if RunClear(env, calls) {
      FinishedLive(Run(env, CREATED, calls).trace, DoFinish(env, Run(env, CREATED, calls)).0);
    }
  }

  lemma FinishedLive(tr: Trace, q: Device)
    requires Safe(tr) && Quiet(tr, q.trace) && Attached(q)
    ensures AllLive(q.trace)
  {
  }

  // ---------- runs that are not clear ----------

  /** A fence that nothing has reached yet. */
  function Slow(n: nat): Wait {
    Wait(0, false, false)
  }

  /** The first submission of a run, in which a list uses a frame's buffer and shared resources of entry 7. */
  lemma FirstSubmission(actions: seq<Action>)
    ensures Run(Slow, CREATED, [Submit(actions, false)]) == DoSubmit(Slow, CREATED, actions, false).0
  {
    assert [Submit(actions, false)][..0] == [];
    assert Run(Slow, CREATED, []) == CREATED;
  }

  lemma OneFill(a: Action, x: Resource)
    requires (a == FillUpload(7) && x == Upload(0, 7)) || (a == FillShared(7) && x == Shared(7))
    ensures var s := DoSubmit(Slow, CREATED, [a], false).0;
            && s.ready && s.nextFrame == 1 && s.frames[1].fence == 0 && |s.trace.lists| == 1
            && x in s.trace.lists[0].uses && s.trace.lists[0].tag == 0 == s.trace.reached && s.trace.cleared == {}
  {
    hide WaitFrame;
    var t := CREATED.(nextFrame := 1);
    WaitUnfold(Slow, t, 0);
    var b := BeginRecording(WaitFrame(Slow, t, 0).0, 0);
    assert [a][..0] == [];
    assert RecordAll(b, [a]) == Record(b, a);
  }

  /** A second submission that comes while the first list is unfinished. */
  lemma SecondOpens(s: Device)
    requires WellFormed(s) && s.ready && s.nextFrame == 1 && s.frames[1].fence == 0
    ensures var (b, begun) := Opened(Slow, s);
            begun && b.device.trace.lists == s.trace.lists && b.device.trace.reached == s.trace.reached &&
            b.device.trace.cleared == s.trace.cleared
  {
    hide WaitFrame;
    WaitUnfold(Slow, s.(nextFrame := 2), 1);
  }

  lemma SecondIsNotClear(first: Action, x: Resource, second: Action)
    requires (first == FillUpload(7) && x == Upload(0, 7)) || (first == FillShared(7) && x == Shared(7))
    requires second == Evict({7}) || (second == FillShared(7) && x == Shared(7))
    ensures !RunClear(Slow, [Submit([first], false), Submit([second], false)])
  {
    hide Run, DoSubmit, Opened;
    var calls := [Submit([first], false), Submit([second], false)];
    assert calls[..1] == [Submit([first], false)];
    FirstSubmission([first]);
    OneFill(first, x);
    var s := Run(Slow, CREATED, calls[..1]);
    SecondOpens(s);
    var b := Opened(Slow, s).0;
    assert [second][..0] == [] && RecordAll(b, [second][..0]) == b;
    assert OfEntries(x, {7});
    assert x in b.device.trace.lists[0].uses;
    assert !ClearAt(b, [second], 0, false);
    assert !CallClear(Slow, s, calls[1]);
  }

  /** Evicting a full cache's entry can free the upload buffer of a list that is still running, and filling a
      shared buffer can overwrite it. */
  lemma EvictionCanFreeWhatIsInUse()
    ensures !Safe(Run(Slow, CREATED, [Submit([FillUpload(7)], false), Submit([Evict({7})], false)]).trace)
    ensures !Safe(Run(Slow, CREATED, [Submit([FillShared(7)], false), Submit([FillShared(7)], false)]).trace)
  {
    hide Run, Safe, RunClear;
    SecondIsNotClear(FillUpload(7), Upload(0, 7), Evict({7}));
    SecondIsNotClear(FillShared(7), Shared(7), FillShared(7));
    RunsAreSafe(Slow, [Submit([FillUpload(7)], false), Submit([Evict({7})], false)]);
    RunsAreSafe(Slow, [Submit([FillShared(7)], false), Submit([FillShared(7)], false)]);
  }

  /** The first recording of a run, and what it refers to after one fill. */
  lemma FirstOpens(a: Action, x: Resource)
    requires (a == FillUpload(7) && x == Upload(0, 7)) || (a == FillShared(7) && x == Shared(7))
    ensures var (b, begun) := Opened(Slow, CREATED);
            begun && b.device.frameIndex == 0 && b.device.trace.cleared == {} &&
            x in Record(b, a).uses && Record(b, a).device.frameIndex == 0 &&
            Record(b, a).device.trace.cleared == {}
  {
    hide WaitFrame;
    WaitUnfold(Slow, CREATED.(nextFrame := 1), 0);
  }

  /** Two commands of one submission that fill the same buffer, as two draws that hit the same cache entry do: the
      first reads what the second overwrote. */
  lemma RefillOverwritesItsOwnList(a: Action)
    requires a == FillUpload(7) || a == FillShared(7)
    ensures !Safe(Run(Slow, CREATED, [Submit([a, a], false)]).trace)
  {
    hide Run, Safe, Opened, WaitFrame;
    var x := if a == FillUpload(7) then Upload(0, 7) else Shared(7);
    var calls := [Submit([a, a], false)];
    assert calls[..0] == [];
    assert Run(Slow, CREATED, calls[..0]) == CREATED by {
      NoCalls();
    }
    FirstOpens(a, x);
    var b := Opened(Slow, CREATED).0;
    assert [a, a][..1] == [a] && [a][..0] == [];
    assert RecordAll(b, [a, a][..1]) == Record(b, a);
    assert !ClearAt(b, [a, a], 1, false);
    assert !CallClear(Slow, CREATED, calls[0]);
    RunsAreSafe(Slow, calls);
  }

  lemma NoCalls()
    ensures Run(Slow, CREATED, []) == CREATED
  {
  }
}
