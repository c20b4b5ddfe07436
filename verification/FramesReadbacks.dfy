/** The readback buffer of a bound resource is one for all frames: when nobody writes it while it is read. */
module FramesReadbacks {
  import opened Frames
  import opened FramesSafety
  import opened FramesWritebacks
  import opened FramesEvictions

  // ---------- a bound resource queued in one frame only ----------

  /** No bound resource waits in the queues of two frames. */
  ghost predicate Exclusive(s: Device)
    requires WellFormed(s)
  {
    forall f, g :: 0 <= f < FRAMES && 0 <= g < FRAMES && f != g ==> Disjoint(s, f, g)
  }

  predicate Disjoint(s: Device, f: nat, g: nat)
    requires WellFormed(s) && f < FRAMES && g < FRAMES
  {
    BoundsOf(Pending(s, f)) !! BoundsOf(Pending(s, g))
  }

  /** What an unfinished list copies still waits in the queue of its frame. */
  predicate Waiting(s: Device, l: List)
    requires WellFormed(s)
  {
    l.frame < FRAMES && (l.tag < s.trace.reached || l.bounds <= BoundsOf(Pending(s, l.frame)))
  }

  ghost predicate Linked(s: Device) {
    WellFormed(s) && forall i :: 0 <= i < |s.trace.lists| ==> Waiting(s, s.trace.lists[i])
  }

  ghost predicate AllAlone(tr: Trace) {
    forall k :: 0 <= k < |tr.completions| ==> tr.completions[k].alone
  }

  lemma LinkedShape(s: Device)
    requires Linked(s)
    ensures WellFormed(s)
  {
  }

  // ---------- waiting ----------

  lemma WaitReaches(env: Environment, s: Device, f: nat)
    requires WellFormed(s) && f < FRAMES
    ensures WaitFrame(env, s, f).0.trace.reached >= s.trace.reached
  {
    hide TimesOut, WaitFrame, Completions, FreeTouches, Serials, TransientSerials;
    WaitUnfold(env, s, f);
  }

  lemma WaitLinked(env: Environment, s: Device, f: nat)
    requires Inv(s) && Linked(s) && f < FRAMES
    ensures Linked(WaitFrame(env, s, f).0)
  {
    hide Inv, TimesOut, WaitFrame, Pending, BoundsOf;
    WaitEffect(env, s, f);
    WaitReaches(env, s, f);
    var q := WaitFrame(env, s, f).0;
    var expired := TimesOut(env(s.trace.waits), s.frames[f].fence, s.fence);
    if !expired {
      WaitIdle(env, s, f);
    }
    forall i | 0 <= i < |q.trace.lists| ensures Waiting(q, q.trace.lists[i]) {
      assert Waiting(s, s.trace.lists[i]);
      if s.trace.lists[i].frame != f {
        WaitElsewhere(env, s, f, s.trace.lists[i].frame);
      }
    }
  }

  /** A frame's writebacks are read alone when no other frame has queued the same bound resources. */
  lemma CompletionAlone(s: Device, q: Device, f: nat, k: nat)
    requires Linked(s) && f < FRAMES && k < |Pending(s, f)| && Exclusive(s)
    requires q.trace.lists == s.trace.lists && q.trace.reached >= s.trace.reached && Idle(q, f)
    ensures Alone(q.trace, Pending(s, f)[k].bound)
  {
    hide Pending;
    var b := Pending(s, f)[k].bound;
    assert b in BoundsOf(Pending(s, f));
    forall i | 0 <= i < |q.trace.lists| && b in q.trace.lists[i].bounds
      ensures q.trace.lists[i].tag < q.trace.reached
    {
      var l := s.trace.lists[i];
      assert Waiting(s, l);
      if l.frame != f && l.tag >= s.trace.reached {
        assert Disjoint(s, f, l.frame);
      }
    }
  }

  lemma WaitAlone(env: Environment, s: Device, f: nat)
    requires Inv(s) && Linked(s) && f < FRAMES && WellFormed(s) && Exclusive(s) && AllAlone(s.trace)
    ensures AllAlone(WaitFrame(env, s, f).0.trace) && Exclusive(WaitFrame(env, s, f).0)
  {
    hide Inv, TimesOut, WaitFrame, Pending, BoundsOf, Idle, Linked, Alone;
    WaitEffect(env, s, f);
    WaitReaches(env, s, f);
    var q := WaitFrame(env, s, f).0;
    var expired := TimesOut(env(s.trace.waits), s.frames[f].fence, s.fence);
    if !expired {
      WaitIdle(env, s, f);
    }
    forall k | 0 <= k < |q.trace.completions| ensures q.trace.completions[k].alone {
      if k >= |s.trace.completions| {
        CompletionAlone(s, q, f, k - |s.trace.completions|);
      }
    }
    EmptyBounds();
    forall g, h | 0 <= g < FRAMES && 0 <= h < FRAMES && g != h ensures Disjoint(q, g, h) {
      assert Disjoint(s, g, h);
      if g != f {
        WaitElsewhere(env, s, f, g);
      }
      if h != f {
        WaitElsewhere(env, s, f, h);
      }
    }
  }

  lemma EmptyBounds()
    ensures BoundsOf([]) == {}
  {
  }

  lemma {:induction false} WaitFromLinked(env: Environment, s: Device, i: nat)
    requires Inv(s) && Linked(s) && i <= FRAMES
    ensures WellFormed(s) && Linked(WaitFrom(env, s, i).0)
    ensures Exclusive(s) && AllAlone(s.trace) ==> AllAlone(WaitFrom(env, s, i).0.trace)
    decreases FRAMES - i
  {
    hide Inv, Linked, WaitFrame, AllAlone, Exclusive;
    LinkedShape(s);
    if i < FRAMES {
      WaitLinked(env, s, i);
      WaitKeeps(env, s, i);
      if Exclusive(s) && AllAlone(s.trace) {
        WaitAlone(env, s, i);
      }
      var (q, ok) := WaitFrame(env, s, i);
      if ok {
        WaitFromLinked(env, q, i + 1);
      } else {
        SameLinked(q, q.(ready := false));
      }
    }
  }

  // ---------- the other steps ----------

  /** Lists and queues stay as they are. */
  predicate SameGpu(s: Device, q: Device) {
    WellFormed(s) && WellFormed(q) && q.trace.lists == s.trace.lists && q.trace.reached == s.trace.reached &&
    q.trace.completions == s.trace.completions && forall f :: 0 <= f < FRAMES ==> Pending(q, f) == Pending(s, f)
  }

  lemma SameLinked(s: Device, q: Device)
    requires SameGpu(s, q)
    ensures Linked(s) ==> Linked(q)
    ensures Exclusive(s) ==> Exclusive(q)
    ensures AllAlone(s.trace) ==> AllAlone(q.trace)
  {
    hide Pending, BoundsOf;
    if Linked(s) {
      forall i | 0 <= i < |q.trace.lists| ensures Waiting(q, q.trace.lists[i]) {
        assert Waiting(s, s.trace.lists[i]);
      }
    }
    if Exclusive(s) {
      forall f, g | 0 <= f < FRAMES && 0 <= g < FRAMES && f != g ensures Disjoint(q, f, g) {
        assert Disjoint(s, f, g);
      }
    }
  }

  lemma StoreSignalSame(s: Device)
    requires WellFormed(s)
    ensures SameGpu(s, StoreFrame(s)) && SameGpu(s, Signal(s)) && SameGpu(s, Signal(StoreFrame(s)))
  {
  }

  lemma FinishLinked(env: Environment, s: Device)
    requires Inv(s) && Linked(s)
    ensures WellFormed(s) && Linked(DoFinish(env, s).0)
    ensures Exclusive(s) && AllAlone(s.trace) ==> AllAlone(DoFinish(env, s).0.trace)
  {
    hide Inv, Linked, WaitFrom, SameGpu, AllAlone, Exclusive;
    LinkedShape(s);
    if s.ready {
      StoreKeeps(s);
      SameInv(s, StoreFrame(s));
      SignalKeeps(StoreFrame(s));
      StoreSignalSame(s);
      SameLinked(s, Signal(StoreFrame(s)));
      WaitFromLinked(env, Signal(StoreFrame(s)), 0);
    }
  }

  /** Recording touches only the queue of its frame, all of whose lists are finished. */
  lemma RecordedLinked(s: Device, q: Device)
    requires Linked(s) && WellFormed(q) && q.frameIndex == s.frameIndex && Idle(s, s.frameIndex)
    requires q.frames == s.frames && q.trace.lists == s.trace.lists && q.trace.reached == s.trace.reached
    ensures Linked(q)
  {
    hide BoundsOf;
    forall i | 0 <= i < |q.trace.lists| ensures Waiting(q, q.trace.lists[i]) {
      assert Waiting(s, s.trace.lists[i]);
    }
  }

  lemma {:induction false} RecordAllSame(r: Recording, actions: seq<Action>)
    requires WellFormed(r.device)
    ensures var d := RecordAll(r, actions).device;
            && d.trace.lists == r.device.trace.lists && d.trace.reached == r.device.trace.reached
            && d.trace.completions == r.device.trace.completions
    decreases |actions|
  {
    hide Queued, LeavesDangling;
    if actions != [] {
      RecordAllSame(r, actions[..|actions| - 1]);
    }
  }

  /** The new list's writebacks wait in its frame. */
  lemma ExecuteLinked(r: Recording)
    requires Linked(r.device)
    ensures WellFormed(Execute(r)) && Linked(Execute(r)) && Execute(r).trace.completions == r.device.trace.completions
  {
    hide BoundsOf;
    var s, q := r.device, Execute(r);
    forall i | 0 <= i < |q.trace.lists| ensures Waiting(q, q.trace.lists[i]) {
      if i < |s.trace.lists| {
        assert Waiting(s, s.trace.lists[i]);
      }
    }
  }

  lemma RecordableIdle(r: Recording)
    requires Recordable(r)
    ensures WellFormed(r.device) && Idle(r.device, r.device.frameIndex) && Inv(r.device)
  {
  }

  lemma OpenedLinked(env: Environment, s: Device)
    requires Inv(s) && Linked(s) && WellFormed(s)
    ensures var w := WaitFrame(env, s.(nextFrame := (s.nextFrame + 1) % FRAMES), s.nextFrame).0;
            Linked(w) && (Exclusive(s) && AllAlone(s.trace) ==> AllAlone(w.trace))
  {
    hide Inv, Linked, WaitFrame, AllAlone, Exclusive;
    var t := s.(nextFrame := (s.nextFrame + 1) % FRAMES);
    NextFrameKeeps(s, (s.nextFrame + 1) % FRAMES);
    assert SameGpu(s, t);
    SameLinked(s, t);
    WaitLinked(env, t, s.nextFrame);
    if Exclusive(s) && AllAlone(s.trace) {
      WaitAlone(env, t, s.nextFrame);
    }
  }

  lemma BeginSame(s: Device, f: nat)
    requires WellFormed(s) && f == s.frameIndex
    ensures var b := BeginRecording(s, f).device;
            && b.frames == s.frames && b.frameIndex == s.frameIndex && b.trace.lists == s.trace.lists
            && b.trace.reached == s.trace.reached && b.trace.completions == s.trace.completions
            && forall g :: Idle(s, g) ==> Idle(b, g)
  {
  }

  lemma SubmitLinked(env: Environment, s: Device, actions: seq<Action>, aborted: bool)
    requires Inv(s) && Linked(s)
    ensures var q := DoSubmit(env, s, actions, aborted).0;
            WellFormed(s) && Linked(q) && (Exclusive(s) && AllAlone(s.trace) ==> AllAlone(q.trace))
  {
    hide Inv, Linked, WaitFrame, RecordAll, DoSubmit, SameGpu, Execute, AllAlone, Exclusive, Idle, BeginRecording;
    LinkedShape(s);
    SubmitWhole(env, s, actions, aborted);
    if s.ready {
      var t := s.(nextFrame := (s.nextFrame + 1) % FRAMES);
      var w := WaitFrame(env, t, s.nextFrame).0;
      OpenedLinked(env, s);
      if !Opened(env, s).1 {
        assert SameGpu(w, w.(ready := false)) by {
          ReadySame(w);
        }
        SameLinked(w, w.(ready := false));
      } else {
        SubmittedLinked(env, s, actions, aborted);
      }
    }
  }

  lemma ReadySame(s: Device)
    requires WellFormed(s)
    ensures SameGpu(s, s.(ready := false))
  {
  }

  lemma SameAlone(tr: Trace, ur: Trace)
    requires AllAlone(tr) && ur.completions == tr.completions
    ensures AllAlone(ur)
  {
  }

  lemma SubmittedLinked(env: Environment, s: Device, actions: seq<Action>, aborted: bool)
    requires Inv(s) && Linked(s) && WellFormed(s) && s.ready && Opened(env, s).1
    ensures var q := DoSubmit(env, s, actions, aborted).0;
            Linked(q) && (Exclusive(s) && AllAlone(s.trace) ==> AllAlone(q.trace))
  {
    hide Inv, Linked, WaitFrame, RecordAll, DoSubmit, SameGpu, Execute, AllAlone, Exclusive, Idle, BeginRecording;
    SubmitWhole(env, s, actions, aborted);
    OpenedLinked(env, s);
    OpenedRecordable(env, s);
    var w := WaitFrame(env, s.(nextFrame := (s.nextFrame + 1) % FRAMES), s.nextFrame).0;
    var b := Opened(env, s).0;
    RecordableIdle(b);
    BeginSame(w, s.nextFrame);
    BeginIdle(w, s.nextFrame);
    RecordedLinked(w, b.device);
    RecordAllSame(b, actions);
    var r := RecordAll(b, actions);
    RecordedLinked(b.device, r.device);
    ExecuteLinked(r);
    StoreSignalSame(Execute(r));
    StoreSignalSame(Signal(Execute(r)));
    SameLinked(Execute(r), Signal(Execute(r)));
    SameLinked(Signal(Execute(r)), StoreFrame(Signal(Execute(r))));
    if Exclusive(s) && AllAlone(s.trace) {
      SameAlone(w.trace, r.device.trace);
      SameAlone(w.trace, Execute(r).trace);
    }
  }

  /** A recording changes nothing the idleness of a frame depends on. */
  lemma BeginIdle(s: Device, f: nat)
    requires WellFormed(s) && Idle(BeginRecording(s, f).device, f)
    ensures Idle(s, f)
  {
  }

  lemma BarrierLinked(s: Device)
    requires Linked(s) && Idle(s, s.frameIndex)
    ensures WellFormed(Barrier(s)) && Linked(Barrier(s)) && Barrier(s).trace.completions == s.trace.completions
  {
    hide Linked, Execute, Idle;
    LinkedShape(s);
    var t := s.(trace := Opening(s.trace, s.frameIndex));
    RecordedLinked(s, t);
    ExecuteLinked(Recording(t, {Allocator(s.frameIndex)}));
  }

  lemma EmptyExclusive(s: Device)
    requires WellFormed(s) && forall f :: 0 <= f < FRAMES ==> Empty(s, f)
    ensures Exclusive(s) && Exclusive(Barrier(s)) && Idle(s, s.frameIndex)
  {
    EmptyBounds();
    assert Empty(s, s.frameIndex);
    assert forall f :: 0 <= f < FRAMES ==> Empty(s, f) && Pending(Barrier(s), f) == Pending(s, f);
  }

  lemma PublishLinked(env: Environment, s: Device, transition: bool)
    requires Inv(s) && Linked(s)
    ensures var q := DoPublish(env, s, transition).0;
            WellFormed(s) && Linked(q) && (Exclusive(s) && AllAlone(s.trace) ==> AllAlone(q.trace))
  {
    hide Inv, Linked, DoFinish, Barrier, SameGpu, AllAlone, Exclusive, Empty, Idle, Signal;
    LinkedShape(s);
    FinishLinked(env, s);
    FinishKeeps(env, s);
    var (q, ok) := DoFinish(env, s);
    if ok {
      LinkedShape(q);
      EmptyExclusive(q);
      BarrierLinked(q);
      var b := if transition then Barrier(q) else q;
      StoreSignalSame(b);
      SameLinked(b, Signal(b));
      if Exclusive(s) && AllAlone(s.trace) {
        SameAlone(q.trace, b.trace);
      }
    }
  }

  lemma ReadLinked(env: Environment, s: Device)
    requires Inv(s) && Linked(s)
    ensures var q := DoRead(env, s).0;
            WellFormed(s) && Linked(q) && (Exclusive(s) && AllAlone(s.trace) ==> AllAlone(q.trace))
  {
    hide Inv, Linked, DoFinish, Barrier, SameGpu, AllAlone, Exclusive, Empty, Idle, WaitFrom;
    LinkedShape(s);
    FinishLinked(env, s);
    FinishKeeps(env, s);
    var (q, ok) := DoFinish(env, s);
    if ok {
      LinkedShape(q);
      EmptyExclusive(q);
      BarrierLinked(q);
      BarrierStoredInv(q);
      var b := StoreFrame(Signal(Barrier(q)));
      StoreSignalSame(Barrier(q));
      StoreSignalSame(Signal(Barrier(q)));
      SameLinked(Barrier(q), Signal(Barrier(q)));
      SameLinked(Signal(Barrier(q)), b);
      FinishBarrierIs(env, q);
      if Exclusive(s) && AllAlone(s.trace) {
        SameAlone(q.trace, Barrier(q).trace);
      }
      WaitFromLinked(env, b, 0);
    }
  }

  lemma BarrierStoredInv(s: Device)
    requires Inv(s) && WellFormed(s) && forall f :: 0 <= f < FRAMES ==> Empty(s, f)
    ensures WellFormed(Barrier(s)) && WellFormed(Signal(Barrier(s))) && Inv(StoreFrame(Signal(Barrier(s))))
  {
    hide Inv, Empty, Barrier;
    assert Empty(s, s.frameIndex);
    BarrierFrame(s);
    BarrierQuiet(s);
    BarrierInv(s);
    StoreKeeps(Signal(Barrier(s)));
    SameInv(Signal(Barrier(s)), StoreFrame(Signal(Barrier(s))));
  }

  lemma FinishBarrierIs(env: Environment, s: Device)
    requires WellFormed(s) && s.ready
    ensures WellFormed(Barrier(s)) && WellFormed(Signal(Barrier(s)))
    ensures DoFinish(env, Barrier(s)) == WaitFrom(env, StoreFrame(Signal(Barrier(s))), 0)
  {
    hide WaitFrom;
    FinishBarrier(env, s, Recording(s.(trace := Opening(s.trace, s.frameIndex)), {Allocator(s.frameIndex)}));
  }

  // ---------- runs ----------

  lemma CallLinked(env: Environment, s: Device, c: Call)
    requires Inv(s) && Linked(s)
    ensures WellFormed(s) && Linked(Step(env, s, c))
    ensures Exclusive(s) && AllAlone(s.trace) ==> AllAlone(Step(env, s, c).trace)
  {
    hide Inv, Linked, DoSubmit, DoFinish, DoPublish, DoRead, AllAlone, Exclusive;
    LinkedShape(s);
    match c
    case Submit(actions, aborted) => SubmitLinked(env, s, actions, aborted);
    case Finish => FinishLinked(env, s);
    case Publish(transition) => PublishLinked(env, s, transition);
    case ReadSurface => ReadLinked(env, s);
  }

  lemma CreatedLinked()
    ensures Linked(CREATED) && AllAlone(CREATED.trace)
  {
  }

  /** Before no call a bound resource waits in two frames. */
  ghost predicate RunExclusive(env: Environment, calls: seq<Call>) {
    forall i :: 0 <= i < |calls| ==> Exclusive(Run(env, CREATED, calls[..i]))
  }

  lemma {:induction false} RunLinked(env: Environment, calls: seq<Call>)
    ensures Linked(Run(env, CREATED, calls))
    ensures RunExclusive(env, calls) ==> AllAlone(Run(env, CREATED, calls).trace)
    decreases |calls|
  {
    hide Inv, Linked, Step, AllAlone, Exclusive;
    if calls == [] {
      CreatedLinked();
    } else {
      var before := calls[..|calls| - 1];
      RunLinked(env, before);
      RunInv(env, before);
      CallLinked(env, Run(env, CREATED, before), calls[|calls| - 1]);
      if RunExclusive(env, calls) {
        forall i | 0 <= i < |before| ensures Exclusive(Run(env, CREATED, before[..i])) {
          assert before[..i] == calls[..i];
        }
      }
    }
  }

  /** Over every run in which no bound resource waits in two frames, a readback buffer is read only when no
      unfinished list copies to it. */
  lemma ReadbacksAreAlone(env: Environment, calls: seq<Call>)
    requires RunExclusive(env, calls)
    ensures AllAlone(Run(env, CREATED, calls).trace)
  {
    hide Run, AllAlone;
    RunLinked(env, calls);
  }

  // ---------- runs that read what is being written, or was never written ----------

  const QUEUE: Action := QueueWriteback(7, 0, 4)

  /** A wait on a frame that was never signalled, in which nothing is queued. */
  lemma IdleWait(s: Device, f: nat)
    requires WellFormed(s) && f < FRAMES && s.frames[f].fence == 0 && Pending(s, f) == []
    ensures var (q, ok) := WaitFrame(Slow, s, f);
            && ok && q.trace.lists == s.trace.lists && q.trace.reached == s.trace.reached
            && q.trace.cleared == s.trace.cleared && q.trace.completions == s.trace.completions
            && q.frames[f].fence == 0 && q.writebacks == []
            && (forall g :: 0 <= g < FRAMES && g != f ==> q.frames[g] == StoreFrame(s).frames[g])
  {
    hide WaitFrame, Released, Completed, SeenReached;
    WaitUnfold(Slow, s, f);
    RetiresNothing(s, f);
  }

  lemma RetiresNothing(s: Device, f: nat)
    requires WellFormed(s) && f < FRAMES
    ensures forall tr: Trace, ts: seq<Transient> ::
              var ur := Released(tr, ts);
              ur.lists == tr.lists && ur.reached == tr.reached && ur.cleared == tr.cleared &&
              ur.completions == tr.completions
  {
  }

  /** What a submission that queues one writeback leaves. */
  lemma SlowQueue(s: Device, aborted: bool)
    requires WellFormed(s) && s.ready && s.frames[s.nextFrame].fence == 0 && Pending(s, s.nextFrame) == []
    requires 7 !in s.trace.cleared
    ensures var f, q := s.nextFrame, DoSubmit(Slow, s, [QUEUE], aborted).0;
            && q.ready && q.nextFrame == (f + 1) % FRAMES && q.frameIndex == f
            && Pending(q, f) == [Writeback(7, 0, 4, s.trace.queued)] && q.trace.cleared == s.trace.cleared
            && q.trace.reached == s.trace.reached && q.trace.completions == s.trace.completions
            && (!aborted ==>
                  && q.fence == s.fence + 1 == q.frames[f].fence && |q.trace.lists| == |s.trace.lists| + 1
                  && q.trace.lists[|s.trace.lists|].tag == s.fence && q.trace.lists[|s.trace.lists|].bounds == {7}
                  && (forall g :: 0 <= g < FRAMES && g != f ==>
                        q.frames[g].fence == s.frames[g].fence && Pending(q, g) == Pending(s, g)))
  {
    hide WaitFrame, StoreFrame;
    var t := s.(nextFrame := (s.nextFrame + 1) % FRAMES);
    IdleWait(t, s.nextFrame);
    WaitEffect(Slow, t, s.nextFrame);
    var w := WaitFrame(Slow, t, s.nextFrame).0;
    var b := BeginRecording(w, s.nextFrame);
    assert [QUEUE][..0] == [];
    assert RecordAll(b, [QUEUE]) == Record(b, QUEUE);
    var r := Record(b, QUEUE);
    OneQueued(s.trace.queued);
    StoresFrames(t, w, Signal(Execute(r)));
  }

  lemma OneQueued(serial: nat)
    ensures !Queued([], 7) && BoundsOf([Writeback(7, 0, 4, serial)]) == {7}
  {
    var ws := [Writeback(7, 0, 4, serial)];
    assert ws[0].bound == 7;
    assert 7 in BoundsOf(ws);
  }

  /** Storing keeps queues and fences. */
  lemma StoresFrames(t: Device, w: Device, q: Device)
    requires WellFormed(t) && WellFormed(q)
    ensures StoreFrame(q) == q.(frames := StoreFrame(q).frames) && WellFormed(StoreFrame(q))
    ensures forall g :: 0 <= g < FRAMES ==>
              StoreFrame(q).frames[g].fence == q.frames[g].fence && Pending(StoreFrame(q), g) == Pending(q, g)
    ensures forall g :: 0 <= g < FRAMES ==>
              StoreFrame(t).frames[g].fence == t.frames[g].fence && StoreFrame(t).frames[g].writebacks == Pending(t, g)
  {
  }

  lemma {:induction false} SlowNeverFails(s: Device, i: nat)
    requires WellFormed(s) && i <= FRAMES
    ensures WaitFrom(Slow, s, i).1
    decreases FRAMES - i
  {
    hide WaitFrame, RetireTransients, RetireWritebacks, SeenReached;
    if i < FRAMES {
      WaitUnfold(Slow, s, i);
      SlowNeverFails(WaitFrame(Slow, s, i).0, i + 1);
    }
  }

  /** The finish of a run after one submission. */
  lemma FinishAfterOne(c: Call)
    ensures Run(Slow, CREATED, [c, Finish]) == DoFinish(Slow, Step(Slow, CREATED, c)).0
  {
    hide DoSubmit, DoFinish, DoPublish, DoRead;
    assert [c, Finish][..1] == [c] && [c][..0] == [];
    NoCalls();
  }

  /** A recording that queued a writeback and was aborted, then a finish: the writeback is completed although no list
      copied it. */
  lemma AbortedWritebackIsCompleted()
    ensures !AllGenuine(Run(Slow, CREATED, [Submit([QUEUE], true), Finish]).trace)
  {
    hide DoSubmit, DoFinish, Run, AllGenuine;
    CreatedTracked();
    CreatedInv();
    SlowQueue(CREATED, true);
    FinishAfterOne(Submit([QUEUE], true));
    FinishAfterAbort(Slow, CREATED, [QUEUE]);
    var q := DoSubmit(Slow, CREATED, [QUEUE], true).0;
    SlowFinishes(q);
  }

  lemma SlowFinishes(s: Device)
    requires WellFormed(s) && s.ready
    ensures DoFinish(Slow, s).1
  {
    hide WaitFrom;
    SlowNeverFails(Signal(StoreFrame(s)), 0);
  }

  /** The first wait of a finish reads the queue of frame 0 while another frame's list still copies the resource. */
  lemma FinishRaces(s: Device, i: nat)
    requires WellFormed(s) && s.ready && s.frameIndex != 0 && s.frames[0].fence == 1 && s.trace.reached == 0
    requires Pending(s, 0) != [] && i < |s.trace.lists| && s.trace.lists[i].tag >= 1
    requires Pending(s, 0)[0].bound in s.trace.lists[i].bounds
    ensures !AllAlone(DoFinish(Slow, s).0.trace)
  {
    hide WaitFrame, WaitFrom, Pending;
    var t := Signal(StoreFrame(s));
    StoreSignalSame(s);
    WaitEffect(Slow, t, 0);
    SlowReaches(t, 0);
    var q := WaitFrame(Slow, t, 0).0;
    var c := Complete(q.trace, Pending(t, 0)[0]);
    assert c == q.trace.completions[|t.trace.completions|];
    WaitFromGrows(Slow, q, 1);
    SlowFirst(t);
    var after := DoFinish(Slow, s).0.trace;
    assert c in after.completions && !c.alone;
  }

  lemma SlowReaches(s: Device, f: nat)
    requires WellFormed(s) && f < FRAMES && s.frames[f].fence == 1 && s.trace.reached == 0
    ensures WaitFrame(Slow, s, f).0.trace.reached == 1 && WaitFrame(Slow, s, f).1
  {
    hide WaitFrame, Completions, FreeTouches, Serials, TransientSerials;
    WaitUnfold(Slow, s, f);
  }

  lemma SlowFirst(s: Device)
    requires WellFormed(s) && WaitFrame(Slow, s, 0).1
    ensures WaitFrom(Slow, s, 0) == WaitFrom(Slow, WaitFrame(Slow, s, 0).0, 1)
  {
    hide WaitFrame;
  }

  /** Two submissions in flight that write the same resource: the finish reads its buffer for the first of them while
      the second may still be writing it. */
  lemma ReadbackCanRace()
    ensures !AllAlone(Run(Slow, CREATED, [Submit([QUEUE], false), Submit([QUEUE], false), Finish]).trace)
  {
    hide DoSubmit, DoFinish, Pending, AllAlone;
    var calls := [Submit([QUEUE], false), Submit([QUEUE], false), Finish];
    assert calls[..2] == [Submit([QUEUE], false), Submit([QUEUE], false)];
    assert calls[..2][..1] == [Submit([QUEUE], false)] && calls[..2][..1][..0] == [];
    NoCalls();
    var s1 := DoSubmit(Slow, CREATED, [QUEUE], false).0;
    var s2 := DoSubmit(Slow, s1, [QUEUE], false).0;
    assert Run(Slow, CREATED, calls[..2][..1]) == s1;
    assert Run(Slow, CREATED, calls[..2]) == s2;
    CreatedPending();
    SlowQueue(CREATED, false);
    SlowQueue(s1, false);
    FinishRaces(s2, 1);
  }

  lemma CreatedPending()
    ensures forall f :: 0 <= f < FRAMES ==> Pending(CREATED, f) == [] && CREATED.frames[f].fence == 0
  {
  }
}
