/** The renderer's frame bookkeeping, updated in place and proved against the frame protocol. */
module FramesDevice {
  import opened Frames

  class FrameDevice {
    const frames: array<Frame>
    var frameIndex: nat
    var nextFrame: nat
    var fence: nat
    var writebacks: seq<Writeback>
    var transients: seq<Transient>
    var page: nat
    var limit: nat
    var ready: bool
    var trace: Trace

    ghost predicate Valid()
      reads this
    {
      frames.Length == FRAMES && frameIndex < FRAMES && nextFrame < FRAMES
    }

    function State(): Device
      reads this, frames
    {
      Device(frames[..], frameIndex, nextFrame, fence, writebacks, transients, page, limit, ready, trace)
    }

    constructor ()
      ensures Valid() && fresh(frames) && State() == CREATED
    {
      frames := new Frame[FRAMES](_ => Frame(0, [], []));
      frameIndex, nextFrame, fence, page, limit := 0, 0, 0, 0, 0;
      writebacks, transients, ready, trace := [], [], true, EMPTY_TRACE;
      new;
      assert frames[..] == CREATED.frames;
    }

    method Store()
      requires Valid()
      modifies frames
      ensures Valid() && State() == StoreFrame(old(State()))
    {
      frames[frameIndex] := frames[frameIndex].(writebacks := writebacks, transients := transients);
    }

    method Select(f: nat)
      requires Valid() && f < FRAMES
      modifies this, frames
      ensures Valid() && State() == SelectFrame(old(State()), f)
    {
      Store();
      frameIndex := f;
      writebacks, transients := frames[f].writebacks, frames[f].transients;
    }

    method SignalFence()
      requires Valid()
      modifies this, frames
      ensures Valid() && State() == Signal(old(State()))
    {
      fence := fence + 1;
      frames[frameIndex] := frames[frameIndex].(fence := fence);
    }

    /** Reads back every queued writeback of the selected frame. */
    method CompleteWritebacks()
      requires Valid()
      modifies this`writebacks, this`trace
      ensures writebacks == [] && trace == Completed(old(trace), old(writebacks))
    {
      ghost var done := Completions(trace, writebacks);
      for i := 0 to |writebacks|
        invariant writebacks == old(writebacks)
        invariant trace == old(trace).(completions := old(trace).completions + done[..i])
      {
        trace := trace.(completions := trace.completions + [Complete(trace, writebacks[i])]);
        assert done[..i + 1] == done[..i] + [done[i]];
      }
      assert done[..|writebacks|] == done;
      writebacks := [];
    }

    /** Frees the transients of the selected frame. */
    method ReleaseTransients()
      requires Valid()
      modifies this`transients, this`trace
      ensures transients == [] && trace == Released(old(trace), old(transients))
    {
      ghost var serials := TransientSerials(transients);
      ghost var freed := FreeTouches(transients, |trace.lists|, trace.reached);
      for i := 0 to |transients|
        invariant transients == old(transients)
        invariant trace == old(trace).(released := old(trace).released + serials[..i],
                                       touches := old(trace).touches + freed[..i])
      {
        trace := trace.(released := trace.released + [transients[i].serial],
                        touches := trace.touches + [Touch(Temporary(transients[i]), |trace.lists|, trace.reached)]);
        assert serials[..i + 1] == serials[..i] + [serials[i]] && freed[..i + 1] == freed[..i] + [freed[i]];
      }
      assert serials[..|transients|] == serials && freed[..|transients|] == freed;
      transients := [];
    }

    method Wait(env: Environment, f: nat) returns (ok: bool)
      requires Valid() && f < FRAMES
      modifies this, frames
      ensures Valid() && (State(), ok) == WaitFrame(env, old(State()), f)
    {
      hide TimesOut, SeenReached, Completed, Released, Serials;
      Select(f);
      var w := env(trace.waits);
      var due := frames[f].fence;
      trace := trace.(waits := trace.waits + 1);
      if TimesOut(w, due, fence) {
        return false;
      }
      ok := !(due != 0 && writebacks != [] && w.faulty);
      if due != 0 {
        trace := trace.(reached := SeenReached(trace.reached, w, due, fence));
        CompleteWritebacks();
      } else {
        trace := trace.(dropped := trace.dropped + Serials(writebacks));
        writebacks := [];
      }
      ReleaseTransients();
      frames[f] := frames[f].(fence := 0);
      Store();
    }

    /** True when the writeback is queued now or was before; a full queue refuses it. */
    method QueueWriteback(bound: nat, address: nat, size: nat) returns (ok: bool)
      requires Valid() && bound !in trace.cleared
      modifies this`writebacks, this`trace
      ensures State() == Record(Recording(old(State()), {}), Action.QueueWriteback(bound, address, size)).device
      ensures ok == (Queued(old(writebacks), bound) || |old(writebacks)| < MAX_WRITEBACKS)
    {
      for i := 0 to |writebacks|
        invariant forall j :: 0 <= j < i ==> writebacks[j].bound != bound
      {
        if writebacks[i].bound == bound {
          return true;
        }
      }
      if |writebacks| >= MAX_WRITEBACKS {
        return false;
      }
      writebacks := writebacks + [Writeback(bound, address, size, trace.queued)];
      trace := trace.(queued := trace.queued + 1);
      ok := true;
    }

    /** Frees cache entries at once, whatever refers to them; nothing but the trace knows. */
    method EvictEntries(ids: set<nat>)
      requires Valid()
      modifies this`trace
      ensures State() == Evicted(old(State()), ids)
    {
      trace := Evicted(State(), ids).trace;
    }

    /** One resource action of the packet loop; `uses` is what the open list refers to. */
    method Act(a: Action, uses: set<Resource>) returns (used: set<Resource>)
      requires Valid()
      modifies this
      ensures Valid() && Recording(State(), used) == Record(Recording(old(State()), uses), a)
    {
      hide LeavesDangling, Evicted;
      used := uses;
      if Gone(trace.cleared, a) {
        return;
      }
      match a
      case TakePage =>
        if page < limit {
          trace := Overwritten(trace, used, Page(page));
          used := used + {Page(page)};
          page := page + 1;
        }
      case FillUpload(bound) =>
        trace := Overwritten(trace, used, Upload(frameIndex, bound));
        used := used + {Upload(frameIndex, bound)};
      case FillShared(id) =>
        trace := Overwritten(trace, used, Shared(id));
        used := used + {Shared(id)};
      case UseShared(id) =>
        used := used + {Shared(id)};
      case CreateTransient =>
        if |transients| < MAX_TRANSIENTS {
          var t := Transient(frameIndex, trace.created);
          transients := transients + [t];
          trace := trace.(created := trace.created + 1);
          used := used + {Temporary(t)};
        }
      case QueueWriteback(bound, address, size) =>
        var _ := QueueWriteback(bound, address, size);
      case Evict(ids) =>
        EvictEntries(ids);
    }

    /** Resets the frame's allocator and deals out its descriptor pages. */
    method OpenList(f: nat) returns (uses: set<Resource>)
      requires Valid()
      modifies this`trace, this`page, this`limit, this`writebacks
      ensures Recording(State(), uses) == BeginRecording(old(State()), f)
    {
      trace := Opening(trace, f);
      uses := {Allocator(f)};
      page := f * PAGES_PER_FRAME;
      limit := page + PAGES_PER_FRAME;
      writebacks := [];
    }

    /** What the packet loop does with the frame's resources. */
    method RecordPackets(actions: seq<Action>, uses: set<Resource>) returns (used: set<Resource>)
      requires Valid()
      modifies this
      ensures Valid() && Recording(State(), used) == RecordAll(Recording(old(State()), uses), actions)
    {
      used := uses;
      for i := 0 to |actions|
        invariant Valid() && Recording(State(), used) == RecordAll(Recording(old(State()), uses), actions[..i])
      {
        used := Act(actions[i], used);
        assert actions[..i + 1][..i] == actions[..i] && actions[..i + 1][i] == actions[i];
      }
      assert actions[..|actions|] == actions;
    }

    method Submit(env: Environment, actions: seq<Action>, aborted: bool) returns (ok: bool)
      requires Valid()
      modifies this, frames
      ensures Valid() && (State(), ok) == DoSubmit(env, old(State()), actions, aborted)
    {
      hide WaitFrame, RecordAll, StoreFrame, Signal, Execute;
      if !ready {
        return false;
      }
      var f := nextFrame;
      nextFrame := (f + 1) % FRAMES;
      ok := Wait(env, f);
      if !ok {
        ready := false;
        return;
      }
      var uses := OpenList(f);
      uses := RecordPackets(actions, uses);
      if aborted {
        return false;
      }
      Launch(uses);
      SignalFence();
      Store();
    }

    method Launch(uses: set<Resource>)
      requires Valid()
      modifies this`trace
      ensures State() == Execute(Recording(old(State()), uses))
    {
      trace := trace.(lists := trace.lists + [ListOf(Recording(State(), uses))]);
    }

    /** Signals the fence and waits for every frame. */
    method FinishAll(env: Environment) returns (ok: bool)
      requires Valid()
      modifies this, frames
      ensures Valid() && (State(), ok) == DoFinish(env, old(State()))
    {
      hide WaitFrame, StoreFrame, Signal;
      if !ready {
        return false;
      }
      Store();
      SignalFence();
      ghost var begun := State();
      for i := 0 to FRAMES
        invariant Valid() && WaitFrom(env, begun, 0) == WaitFrom(env, State(), i)
      {
        ok := Wait(env, i);
        if !ok {
          ready := false;
          return;
        }
      }
      ok := true;
    }

    method PublishSurface(env: Environment, transition: bool) returns (ok: bool)
      requires Valid()
      modifies this, frames
      ensures Valid() && (State(), ok) == DoPublish(env, old(State()), transition)
    {
      ok := FinishAll(env);
      if !ok {
        return;
      }
      if transition {
        trace := Opening(trace, frameIndex);
        Launch({Allocator(frameIndex)});
      }
      SignalFence();
    }

    method ReadBack(env: Environment) returns (ok: bool)
      requires Valid()
      modifies this, frames
      ensures Valid() && (State(), ok) == DoRead(env, old(State()))
    {
      ok := FinishAll(env);
      if !ok {
        return;
      }
      trace := Opening(trace, frameIndex);
      Launch({Allocator(frameIndex)});
      ok := FinishAll(env);
    }
  }
}
