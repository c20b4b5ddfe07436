/** Frames in flight: three rotating frames with fences, descriptor pages, transients and writebacks.

    The device state carries a trace of the GPU side: the lists handed to the queue, the fence value the CPU
    has seen reached, and every reuse, release or completion the CPU performs. */
module Frames {
  const FRAMES: nat := 3
  const DESCRIPTOR_PAGES: nat := 1953
  const PAGES_PER_FRAME: nat := 651
  const MAX_WRITEBACKS: nat := 256
  const MAX_TRANSIENTS: nat := 128

  // ---------- data model ----------

  /** What a command list can refer to and the CPU later reuses or frees. `Upload` is a frame's own upload buffer
      of a bound resource; `Shared` is what all frames use of a cache entry: the upload buffer, texture and readback
      of a bound resource, or a pipeline. Each allocation has a number of its own. */
  datatype Resource =
    | Allocator(frame: nat) | Page(page: nat) | Upload(frame: nat, bound: nat) | Shared(id: nat)
    | Temporary(t: Transient)

  datatype Transient = Transient(frame: nat, serial: nat)

  datatype Writeback = Writeback(bound: nat, address: nat, size: nat, serial: nat)

  datatype Frame = Frame(fence: nat, writebacks: seq<Writeback>, transients: seq<Transient>)

  /** A list executed by the queue; `tag` is the fence counter at that time, so that the GPU is known to have
      finished the list once the fence has reached a value above `tag`. It copies the writebacks `copies` of the bound
      resources `bounds`; `stale` was overwritten while it was recorded, after one of its commands referred to it. */
  datatype List = List(frame: nat, tag: nat, uses: set<Resource>, copies: seq<nat>, bounds: set<nat>,
                       stale: set<Resource>)

  /** The CPU overwrote or freed `resource` when `lists` lists had been executed and `reached` was seen. */
  datatype Touch = Touch(resource: Resource, lists: nat, reached: nat)

  /** The writeback `serial` was read back under the same circumstances; `live` tells whether its bound resource
      still existed, `alone` whether no unfinished list copied the same bound resource. */
  datatype Completion = Completion(serial: nat, lists: nat, reached: nat, live: bool, alone: bool)

  /** Cache entries were freed under the same circumstances. */
  datatype Eviction = Eviction(ids: set<nat>, lists: nat, reached: nat)

  /** `cleared` are the entries freed so far; `dangling` tells whether a queued writeback ever lost its bound
      resource; `stale` is what the open recording overwrote after it referred to it. */
  datatype Trace = Trace(lists: seq<List>, reached: nat, waits: nat, touches: seq<Touch>,
                         created: nat, released: seq<nat>, queued: nat, completions: seq<Completion>,
                         dropped: seq<nat>, evictions: seq<Eviction>, cleared: set<nat>, dangling: bool,
                         stale: set<Resource>)

  datatype Device = Device(frames: seq<Frame>, frameIndex: nat, nextFrame: nat, fence: nat,
                           writebacks: seq<Writeback>, transients: seq<Transient>, page: nat, limit: nat,
                           ready: bool, trace: Trace)

  /** What the n-th fence wait meets: the fence value at that moment, whether waiting would time out, and
      whether a guest write of a readback fails. */
  datatype Wait = Wait(now: nat, timeout: bool, faulty: bool)

  type Environment = nat -> Wait

  /** What the packet loop did with the frame's resources. Filling a shared buffer waits for nothing; evicting
      entries from a full cache, or replacing resources of another size, frees them without a wait. */
  datatype Action =
    | TakePage
    | FillUpload(bound: nat)
    | FillShared(id: nat)
    | UseShared(id: nat)
    | CreateTransient
    | QueueWriteback(bound: nat, address: nat, size: nat)
    | Evict(ids: set<nat>)

  datatype Call =
    | Submit(actions: seq<Action>, aborted: bool)
    | Finish
    | Publish(transition: bool)
    | ReadSurface

  predicate WellFormed(s: Device) {
    |s.frames| == FRAMES && s.frameIndex < FRAMES && s.nextFrame < FRAMES
  }

  // ---------- frames ----------

  function StoreFrame(s: Device): Device
    requires s.frameIndex < |s.frames|
  {
    s.(frames := s.frames[s.frameIndex :=
                            s.frames[s.frameIndex].(writebacks := s.writebacks, transients := s.transients)])
  }

  function Pending(s: Device, f: nat): seq<Writeback>
    requires WellFormed(s) && f < FRAMES
  {
    if f == s.frameIndex then s.writebacks else s.frames[f].writebacks
  }

  function Live(s: Device, f: nat): seq<Transient>
    requires WellFormed(s) && f < FRAMES
  {
    if f == s.frameIndex then s.transients else s.frames[f].transients
  }

  function SelectFrame(s: Device, f: nat): Device
    requires s.frameIndex < |s.frames| && f < |s.frames|
  {
    var stored := StoreFrame(s);
    stored.(frameIndex := f, writebacks := stored.frames[f].writebacks, transients := stored.frames[f].transients)
  }

  function Serials(ws: seq<Writeback>): (r: seq<nat>)
    ensures |r| == |ws| && forall i :: 0 <= i < |r| ==> r[i] == ws[i].serial
  {
    seq(|ws|, i requires 0 <= i < |ws| => ws[i].serial)
  }

  function TransientSerials(ts: seq<Transient>): (r: seq<nat>)
    ensures |r| == |ts| && forall i :: 0 <= i < |r| ==> r[i] == ts[i].serial
  {
    seq(|ts|, i requires 0 <= i < |ts| => ts[i].serial)
  }

  function Touched(tr: Trace, r: Resource): Trace {
    tr.(touches := tr.touches + [Touch(r, |tr.lists|, tr.reached)])
  }

  /** The CPU overwrites `x` while a list is recorded that refers to `uses`. */
  function Overwritten(tr: Trace, uses: set<Resource>, x: Resource): Trace {
    Touched(tr, x).(stale := tr.stale + if x in uses then {x} else {})
  }

  /** A recording begins with the reset of its allocator. */
  function Opening(tr: Trace, f: nat): Trace {
    Touched(tr, Allocator(f)).(stale := {})
  }

  function FreeTouches(ts: seq<Transient>, lists: nat, reached: nat): (r: seq<Touch>)
    ensures |r| == |ts| && forall i :: 0 <= i < |r| ==> r[i] == Touch(Temporary(ts[i]), lists, reached)
  {
    seq(|ts|, i requires 0 <= i < |ts| => Touch(Temporary(ts[i]), lists, reached))
  }

  function Complete(tr: Trace, w: Writeback): Completion {
    Completion(w.serial, |tr.lists|, tr.reached, w.bound !in tr.cleared, Alone(tr, w.bound))
  }

  /** No unfinished list copies the bound resource to its readback buffer. */
  predicate Alone(tr: Trace, bound: nat) {
    forall i :: 0 <= i < |tr.lists| && bound in tr.lists[i].bounds ==> tr.lists[i].tag < tr.reached
  }

  function BoundsOf(ws: seq<Writeback>): set<nat> {
    set i | 0 <= i < |ws| :: ws[i].bound
  }

  function Completions(tr: Trace, ws: seq<Writeback>): (r: seq<Completion>)
    ensures |r| == |ws| && forall i :: 0 <= i < |r| ==> r[i] == Complete(tr, ws[i])
  {
    seq(|ws|, i requires 0 <= i < |ws| => Complete(tr, ws[i]))
  }

  function Released(tr: Trace, ts: seq<Transient>): Trace {
    tr.(released := tr.released + TransientSerials(ts),
        touches := tr.touches + FreeTouches(ts, |tr.lists|, tr.reached))
  }

  function Completed(tr: Trace, ws: seq<Writeback>): Trace {
    tr.(completions := tr.completions + Completions(tr, ws))
  }

  /** The fence value the CPU knows to be reached once it stops waiting for `fence`; the GPU never reaches
      a value that was not signalled. */
  function SeenReached(reached: nat, w: Wait, fence: nat, signalled: nat): nat {
    var now := if w.now > signalled then signalled else w.now;
    var seen := if now < fence then fence else now;
    if seen < reached then reached else seen
  }

  predicate TimesOut(w: Wait, fence: nat, signalled: nat) {
    fence != 0 && w.timeout && (if w.now > signalled then signalled else w.now) < fence
  }

  /** The end of a wait: writebacks are completed, or dropped if the frame was never signalled. */
  function RetireWritebacks(s: Device): (r: Device)
    requires s.frameIndex < |s.frames|
    ensures r.frames == s.frames && r.frameIndex == s.frameIndex
  {
    if s.frames[s.frameIndex].fence != 0 then
      s.(writebacks := [], trace := Completed(s.trace, s.writebacks))
    else
      s.(writebacks := [], trace := s.trace.(dropped := s.trace.dropped + Serials(s.writebacks)))
  }

  function RetireTransients(s: Device): (r: Device)
    requires s.frameIndex < |s.frames|
    ensures |r.frames| == |s.frames| && r.frameIndex == s.frameIndex
  {
    s.(transients := [], trace := Released(s.trace, s.transients),
       frames := s.frames[s.frameIndex := s.frames[s.frameIndex].(fence := 0)])
  }

  function WaitFrame(env: Environment, s: Device, f: nat): (r: (Device, bool))
    requires WellFormed(s) && f < FRAMES
    ensures WellFormed(r.0) && r.0.frameIndex == f && r.0.nextFrame == s.nextFrame && r.0.fence == s.fence
    ensures r.0.ready == s.ready
  {
    var selected := SelectFrame(s, f);
    var fence := selected.frames[f].fence;
    var w := env(s.trace.waits);
    var waited := selected.(trace := selected.trace.(waits := s.trace.waits + 1));
    if TimesOut(w, fence, s.fence) then
      (waited, false)
    else
      var seen := if fence == 0 then waited
                  else waited.(trace := waited.trace.(reached := SeenReached(s.trace.reached, w, fence, s.fence)));
      (StoreFrame(RetireTransients(RetireWritebacks(seen))), !(fence != 0 && selected.writebacks != [] && w.faulty))
  }

  // ---------- recording ----------

  datatype Recording = Recording(device: Device, uses: set<Resource>)

  predicate Queued(ws: seq<Writeback>, bound: nat) {
    exists i :: 0 <= i < |ws| && ws[i].bound == bound
  }

  /** A queued writeback points to one of the entries. */
  predicate PointsInto(ws: seq<Writeback>, ids: set<nat>) {
    exists i :: 0 <= i < |ws| && ws[i].bound in ids
  }

  predicate LeavesDangling(s: Device, ids: set<nat>)
    requires WellFormed(s)
  {
    exists f :: 0 <= f < FRAMES && PointsInto(Pending(s, f), ids)
  }

  function Evicted(s: Device, ids: set<nat>): Device
    requires WellFormed(s)
  {
    s.(trace := s.trace.(evictions := s.trace.evictions + [Eviction(ids, |s.trace.lists|, s.trace.reached)],
                         cleared := s.trace.cleared + ids,
                         dangling := s.trace.dangling || LeavesDangling(s, ids)))
  }

  /** The entry of a cache action; entries that were freed do not come up again. */
  predicate Gone(cleared: set<nat>, a: Action) {
    match a
    case FillUpload(bound) => bound in cleared
    case FillShared(id) => id in cleared
    case UseShared(id) => id in cleared
    case QueueWriteback(bound, _, _) => bound in cleared
    case _ => false
  }

  function Record(r: Recording, a: Action): (q: Recording)
    requires WellFormed(r.device)
    ensures q.device.frames == r.device.frames && q.device.frameIndex == r.device.frameIndex
    ensures q.device.nextFrame == r.device.nextFrame && q.device.fence == r.device.fence
  {
    var s := r.device;
    if Gone(s.trace.cleared, a) then r
    else
      match a
      case TakePage =>
        if s.page >= s.limit then r
        else
          Recording(s.(page := s.page + 1, trace := Overwritten(s.trace, r.uses, Page(s.page))),
                    r.uses + {Page(s.page)})
      case FillUpload(bound) =>
        var x := Upload(s.frameIndex, bound);
        Recording(s.(trace := Overwritten(s.trace, r.uses, x)), r.uses + {x})
      case FillShared(id) =>
        Recording(s.(trace := Overwritten(s.trace, r.uses, Shared(id))), r.uses + {Shared(id)})
      case UseShared(id) =>
        Recording(s, r.uses + {Shared(id)})
      case CreateTransient =>
        if |s.transients| >= MAX_TRANSIENTS then r
        else
          var t := Transient(s.frameIndex, s.trace.created);
          Recording(s.(transients := s.transients + [t], trace := s.trace.(created := s.trace.created + 1)),
                    r.uses + {Temporary(t)})
      case QueueWriteback(bound, address, size) =>
        if Queued(s.writebacks, bound) || |s.writebacks| >= MAX_WRITEBACKS then r
        else
          Recording(s.(writebacks := s.writebacks + [Writeback(bound, address, size, s.trace.queued)],
                       trace := s.trace.(queued := s.trace.queued + 1)), r.uses)
      case Evict(ids) => Recording(Evicted(s, ids), r.uses)
  }

  function RecordAll(r: Recording, actions: seq<Action>): (q: Recording)
    requires WellFormed(r.device)
    ensures q.device.frames == r.device.frames && q.device.frameIndex == r.device.frameIndex
    ensures q.device.nextFrame == r.device.nextFrame && q.device.fence == r.device.fence
    decreases |actions|
  {
    if actions == [] then r else Record(RecordAll(r, actions[..|actions| - 1]), actions[|actions| - 1])
  }

  function BeginRecording(s: Device, f: nat): Recording {
    Recording(s.(page := f * PAGES_PER_FRAME, limit := f * PAGES_PER_FRAME + PAGES_PER_FRAME, writebacks := [],
                 trace := Opening(s.trace, f)),
              {Allocator(f)})
  }

  /** Execute the recorded list, then signal the next fence value for the frame. */
  function Execute(r: Recording): (s: Device)
    ensures s.frames == r.device.frames && s.frameIndex == r.device.frameIndex && s.nextFrame == r.device.nextFrame
  {
    r.device.(trace := r.device.trace.(lists := r.device.trace.lists + [ListOf(r)]))
  }

  function ListOf(r: Recording): List {
    var s := r.device;
    List(s.frameIndex, s.fence, r.uses, Serials(s.writebacks), BoundsOf(s.writebacks), s.trace.stale)
  }

  function Signal(s: Device): Device
    requires s.frameIndex < |s.frames|
  {
    s.(fence := s.fence + 1, frames := s.frames[s.frameIndex := s.frames[s.frameIndex].(fence := s.fence + 1)])
  }

  // ---------- entry points ----------

  function DoSubmit(env: Environment, s: Device, actions: seq<Action>, aborted: bool): (r: (Device, bool))
    requires WellFormed(s)
    ensures WellFormed(r.0)
  {
    if !s.ready then (s, false)
    else
      var f := s.nextFrame;
      var (waited, ok) := WaitFrame(env, s.(nextFrame := (f + 1) % FRAMES), f);
      if !ok then (waited.(ready := false), false)
      else
        var recorded := RecordAll(BeginRecording(waited, f), actions);
        if aborted then (recorded.device, false)
        else (StoreFrame(Signal(Execute(recorded))), true)
  }

  function WaitFrom(env: Environment, s: Device, i: nat): (r: (Device, bool))
    requires WellFormed(s) && i <= FRAMES
    ensures WellFormed(r.0) && (r.1 ==> r.0.ready == s.ready)
    decreases FRAMES - i
  {
    if i == FRAMES then (s, true)
    else
      var (waited, ok) := WaitFrame(env, s, i);
      if ok then WaitFrom(env, waited, i + 1) else (waited.(ready := false), false)
  }

  function DoFinish(env: Environment, s: Device): (r: (Device, bool))
    requires WellFormed(s)
    ensures WellFormed(r.0) && (r.1 ==> r.0.ready)
  {
    if !s.ready then (s, false) else WaitFrom(env, Signal(StoreFrame(s)), 0)
  }

  /** Reset the selected allocator, record a barrier or copy, and execute it. */
  function Barrier(s: Device): Device {
    Execute(Recording(s.(trace := Opening(s.trace, s.frameIndex)), {Allocator(s.frameIndex)}))
  }

  function DoPublish(env: Environment, s: Device, transition: bool): (r: (Device, bool))
    requires WellFormed(s)
    ensures WellFormed(r.0)
  {
    var (finished, ok) := DoFinish(env, s);
    if !ok then (finished, false)
    else (Signal(if transition then Barrier(finished) else finished), true)
  }

  function DoRead(env: Environment, s: Device): (r: (Device, bool))
    requires WellFormed(s)
    ensures WellFormed(r.0)
  {
    var (finished, ok) := DoFinish(env, s);
    if !ok then (finished, false) else DoFinish(env, Barrier(finished))
  }

  function Step(env: Environment, s: Device, c: Call): (r: Device)
    requires WellFormed(s)
    ensures WellFormed(r)
  {
    match c
    case Submit(actions, aborted) => DoSubmit(env, s, actions, aborted).0
    case Finish => DoFinish(env, s).0
    case Publish(transition) => DoPublish(env, s, transition).0
    case ReadSurface => DoRead(env, s).0
  }

  function Run(env: Environment, s: Device, calls: seq<Call>): (r: Device)
    requires WellFormed(s)
    ensures WellFormed(r)
    decreases |calls|
  {
    if calls == [] then s else Step(env, Run(env, s, calls[..|calls| - 1]), calls[|calls| - 1])
  }

  const EMPTY_TRACE := Trace([], 0, 0, [], 0, [], 0, [], [], [], {}, false, {})

  const CREATED :=
    Device([Frame(0, [], []), Frame(0, [], []), Frame(0, [], [])], 0, 0, 0, [], [], 0, 0, true, EMPTY_TRACE)
}
