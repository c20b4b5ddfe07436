/** Which writebacks a recording queues, and what becomes of them in a submission and a wait. */
module FramesQueues {
  import opened Frames
  import opened FramesSafety
  import opened FramesCalls

  /** Action k asks for a writeback of a bound resource that still exists, as the first to do so. */
  predicate First(cleared: set<nat>, actions: seq<Action>, k: nat) {
    k < |actions| && Asks(cleared, actions, k) &&
    forall j :: 0 <= j < k && Asks(cleared, actions, j) ==> actions[j].bound != actions[k].bound
  }

  predicate Asks(cleared: set<nat>, actions: seq<Action>, k: nat)
    requires k < |actions|
  {
    actions[k].QueueWriteback? && LiveAt(cleared, actions, k, actions[k].bound)
  }

  /** The positions of those actions, in order. */
  function Firsts(cleared: set<nat>, actions: seq<Action>): seq<nat> {
    if actions == [] then []
    else
      var last := |actions| - 1;
      Firsts(cleared, actions[..last]) + if First(cleared, actions, last) then [last] else []
  }

  /** They are all those positions, each once. */
  lemma {:induction false} FirstsAreAll(cleared: set<nat>, actions: seq<Action>)
    ensures forall k: nat :: k in Firsts(cleared, actions) <==> First(cleared, actions, k)
    ensures forall i, j :: 0 <= i < j < |Firsts(cleared, actions)| ==>
              Firsts(cleared, actions)[i] < Firsts(cleared, actions)[j]
    decreases |actions|
  {
    hide First;
    FirstInRange(cleared, actions);
    if actions != [] {
      FirstsAreAll(cleared, actions[..|actions| - 1]);
      FirstInRange(cleared, actions[..|actions| - 1]);
      FirstsGrow(cleared, actions);
      var front := Firsts(cleared, actions[..|actions| - 1]);
      forall i | 0 <= i < |front| ensures front[i] < |actions| - 1 {
        assert front[i] in front;
      }
    }
  }

  lemma FirstInRange(cleared: set<nat>, actions: seq<Action>)
    ensures forall k: nat :: First(cleared, actions, k) ==> k < |actions|
  {
  }

  lemma FirstsGrow(cleared: set<nat>, actions: seq<Action>)
    requires actions != []
    ensures var last := |actions| - 1;
            forall k: nat :: k < last ==> (First(cleared, actions, k) <==> First(cleared, actions[..last], k))
  {
    var last := |actions| - 1;
    forall k: nat | k < last ensures Asks(cleared, actions, k) <==> Asks(cleared, actions[..last], k) {
      SameLife(cleared, actions, k);
    }
    forall k: nat | k < last ensures First(cleared, actions, k) <==> First(cleared, actions[..last], k) {
      assert forall j :: 0 <= j < k ==> actions[j] == actions[..last][j];
      assert forall j: nat :: j < k ==> (Asks(cleared, actions, j) <==> Asks(cleared, actions[..last], j));
    }
  }

  lemma SameLife(cleared: set<nat>, actions: seq<Action>, k: nat)
    requires k < |actions| - 1
    ensures forall id: nat :: LiveAt(cleared, actions, k, id) <==> LiveAt(cleared, actions[..|actions| - 1], k, id)
  {
    assert forall j :: 0 <= j < k ==> actions[j] == actions[..|actions| - 1][j];
  }

  function Least(a: nat, b: nat): nat {
    if a < b then a else b
  }

  /** The queue holds the first 256 of what was asked for. */
  predicate Holds(ws: seq<Writeback>, actions: seq<Action>, ks: seq<nat>, serial: nat) {
    |ws| == Least(|ks|, 256) && forall i :: 0 <= i < |ws| ==> Asked(ws[i], actions, ks[i], serial + i)
  }

  /** The writeback that action k asks for. */
  predicate Asked(w: Writeback, actions: seq<Action>, k: nat, serial: nat) {
    k < |actions| && actions[k].QueueWriteback? &&
    w == Writeback(actions[k].bound, actions[k].address, actions[k].size, serial)
  }

  /** One request per bound resource: a second one is not first, and a first one is not queued yet. */
  lemma QueuedMeans(cleared: set<nat>, actions: seq<Action>, ws: seq<Writeback>, serial: nat)
    requires actions != []
    requires var last := |actions| - 1;
             Holds(ws, actions[..last], Firsts(cleared, actions[..last]), serial)
    ensures var last := |actions| - 1;
            Asks(cleared, actions, last) ==>
              (First(cleared, actions, last) ==> !Queued(ws, actions[last].bound)) &&
              (!First(cleared, actions, last) ==> Queued(ws, actions[last].bound) || |ws| >= 256)
  {
    var last := |actions| - 1;
    var front := actions[..last];
    var ks := Firsts(cleared, front);
    FirstsAreAll(cleared, front);
    FirstsGrow(cleared, actions);
    if Asks(cleared, actions, last) {
      if Queued(ws, actions[last].bound) {
        var i :| 0 <= i < |ws| && ws[i].bound == actions[last].bound;
        assert Asked(ws[i], front, ks[i], serial + i);
        assert First(cleared, front, ks[i]) && First(cleared, actions, ks[i]);
        assert actions[ks[i]].bound == actions[last].bound;
      }
      if !First(cleared, actions, last) {
        var j: nat :| j < last && Asks(cleared, actions, j) && actions[j].bound == actions[last].bound;
        var k := Earliest(cleared, actions, j);
        assert First(cleared, front, k);
        var i :| 0 <= i < |ks| && ks[i] == k;
        if |ws| < 256 {
          assert Asked(ws[i], front, ks[i], serial + i);
          assert ws[i].bound == actions[last].bound;
        }
      }
    }
  }

  lemma {:induction false} Earliest(cleared: set<nat>, actions: seq<Action>, j: nat) returns (k: nat)
    requires j < |actions| && Asks(cleared, actions, j)
    ensures k <= j && First(cleared, actions, k) && actions[k].bound == actions[j].bound
    decreases j
  {
    k := j;
    if !First(cleared, actions, j) {
      var i: nat :| i < j && Asks(cleared, actions, i) && actions[i].bound == actions[j].bound;
      k := Earliest(cleared, actions, i);
    }
  }

  lemma RecordedQueue(r: Recording, a: Action)
    requires WellFormed(r.device)
    ensures var s, q := r.device, Record(r, a).device;
            if a.QueueWriteback? && a.bound !in s.trace.cleared && !Queued(s.writebacks, a.bound) &&
               |s.writebacks| < 256
            then q.writebacks == s.writebacks + [Writeback(a.bound, a.address, a.size, s.trace.queued)] &&
                 q.trace.queued == s.trace.queued + 1
            else q.writebacks == s.writebacks && q.trace.queued == s.trace.queued
  {
    hide LeavesDangling, Queued;
  }

  /** The queue grows with the requests. */
  lemma HoldsGrows(cleared: set<nat>, actions: seq<Action>, ws: seq<Writeback>, serial: nat)
    requires actions != []
    requires Holds(ws, actions[..|actions| - 1], Firsts(cleared, actions[..|actions| - 1]), serial)
    ensures var a := actions[|actions| - 1];
            var vs := if First(cleared, actions, |actions| - 1) && |ws| < 256
                      then ws + [Writeback(a.bound, a.address, a.size, serial + |ws|)] else ws;
            Holds(vs, actions, Firsts(cleared, actions), serial)
  {
    hide First;
    var last := |actions| - 1;
    var front := Firsts(cleared, actions[..last]);
    forall i | 0 <= i < |ws| ensures Asked(ws[i], actions, front[i], serial + i) {
      assert Asked(ws[i], actions[..last], front[i], serial + i);
    }
    LastAsks(cleared, actions);
  }

  lemma LastAsks(cleared: set<nat>, actions: seq<Action>)
    requires actions != []
    ensures First(cleared, actions, |actions| - 1) ==> Asks(cleared, actions, |actions| - 1)
  {
  }

  /** A recording that starts with an empty queue queues one writeback for each bound resource asked for, in the order
      and with the range of the first request for it, up to 256 of them. */
  lemma {:induction false} RecordQueues(r: Recording, actions: seq<Action>)
    requires WellFormed(r.device) && r.device.writebacks == []
    ensures var q, cleared := RecordAll(r, actions).device, r.device.trace.cleared;
            Holds(q.writebacks, actions, Firsts(cleared, actions), r.device.trace.queued) &&
            q.trace.queued == r.device.trace.queued + |q.writebacks|
    decreases |actions|
  {
    hide Record, Queued, First, LiveAt, Firsts, Holds;
    if actions == [] {
      NothingQueued(r.device);
    } else {
      var last := |actions| - 1;
      RecordQueues(r, actions[..last]);
      var b := RecordAll(r, actions[..last]);
      var cleared := r.device.trace.cleared;
      RecordedQueue(b, actions[last]);
      HoldsGrows(cleared, actions, b.device.writebacks, r.device.trace.queued);
      LastAsks(cleared, actions);
      if actions[last].QueueWriteback? {
        RecordClears(r, actions[..last], actions[last].bound);
        LiveGrows(cleared, actions, actions[last].bound);
        QueuedMeans(cleared, actions, b.device.writebacks, r.device.trace.queued);
      }
    }
  }

  lemma NothingQueued(s: Device)
    requires s.writebacks == []
    ensures Holds(s.writebacks, [], Firsts(s.trace.cleared, []), s.trace.queued)
  {
  }

  /** A submission that succeeds leaves those writebacks, and no others, waiting in its frame, and its list copies
      exactly them. */
  lemma SubmitQueues(env: Environment, s: Device, actions: seq<Action>, f: nat, w: Device, q: Device)
    requires Inv(s) && WellFormed(s) && f == s.nextFrame
    requires w == WaitFrame(env, s.(nextFrame := (f + 1) % FRAMES), f).0
    requires DoSubmit(env, s, actions, false) == (q, true)
    ensures Holds(q.writebacks, actions, Firsts(w.trace.cleared, actions), w.trace.queued)
    ensures q.frameIndex == f && q.frames[f].writebacks == q.writebacks && |q.trace.lists| == |s.trace.lists| + 1
    ensures var l := q.trace.lists[|s.trace.lists|];
            l.copies == Serials(q.writebacks) && l.bounds == BoundsOf(q.writebacks)
  {
    hide WaitFrame, RecordAll, Inv, Idle, Firsts, Holds;
    RecordQueues(BeginRecording(w, f), actions);
    SubmitExecutes(env, s, actions, false, Allocator(0), f, w, true);
  }

  /** A wait completes every writeback of its frame, in order, when the frame was signalled and the wait does not time
      out; it drops them when the frame was not signalled, and otherwise touches none. */
  lemma WaitCompletes(env: Environment, s: Device, f: nat)
    requires WellFormed(s) && f < FRAMES
    ensures var q := WaitFrame(env, s, f).0;
            var ws, fence := Pending(s, f), s.frames[f].fence;
            if TimesOut(env(s.trace.waits), fence, s.fence) then
              q.writebacks == ws && q.trace.completions == s.trace.completions && q.trace.dropped == s.trace.dropped
            else
              && q.writebacks == []
              && (fence == 0 ==> q.trace.completions == s.trace.completions &&
                                 q.trace.dropped == s.trace.dropped + Serials(ws))
              && (fence != 0 ==> q.trace.dropped == s.trace.dropped &&
                                 exists tr :: q.trace.completions == s.trace.completions + Completions(tr, ws))
  {
    hide TimesOut, SeenReached, Completions;
    assert SelectFrame(s, f).writebacks == Pending(s, f) && SelectFrame(s, f).frames[f].fence == s.frames[f].fence;
  }
}
