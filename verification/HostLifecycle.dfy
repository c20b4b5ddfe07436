/** The embedding lifecycle: API threads and the loop thread interleave between critical sections. */
module HostLifecycle {
  const EINVAL: int := -22
  const EBUSY: int := -16

  /** The globals behind the state lock. */
  datatype Flags = Flags(initializing: bool, initialized: bool, running: bool, loopExited: bool, threadStarted: bool,
                         joinActive: bool, stepActive: bool, cleaned: bool, exitStatus: int)

  /** A critical section either lets the call go on to its long operation or returns from it. */
  datatype Verdict = Proceed | Return(code: int)

  // ---------- critical sections ----------

  function InitEnter(f: Flags): (Flags, Verdict) {
    if f.initializing || f.initialized then (f, Return(EBUSY)) else (f.(initializing := true), Proceed)
  }

  function InitLeave(f: Flags): Flags {
    Flags(false, true, false, false, false, false, false, false, 0)
  }

  function StartEnter(f: Flags): (Flags, Verdict) {
    if !f.initialized || f.cleaned then (f, Return(EINVAL))
    else if f.running || f.threadStarted || f.stepActive || f.loopExited then (f, Return(EBUSY))
    else (f.(running := true, threadStarted := true), Proceed)
  }

  function StepEnter(f: Flags): (Flags, Verdict) {
    if !f.initialized || f.cleaned || f.threadStarted then (f, Return(EINVAL))
    else if f.loopExited then (f, Return(1))
    else if f.stepActive then (f, Return(EBUSY))
    else (f.(stepActive := true), Proceed)
  }

  function StepLeave(f: Flags, exited: bool, status: int): Flags {
    var g := f.(stepActive := false);
    if exited then g.(exitStatus := status, loopExited := true) else g
  }

  function JoinEnter(f: Flags): (Flags, Verdict) {
    if f.joinActive then (f, Return(EBUSY))
    else if !f.threadStarted then (f, Return(EINVAL))
    else (f.(joinActive := true), Proceed)
  }

  function JoinLeave(f: Flags): Flags {
    f.(threadStarted := false, joinActive := false)
  }

  function CleanupEnter(f: Flags): (Flags, Verdict) {
    if !f.initialized || f.cleaned || f.running || f.threadStarted || f.joinActive || f.stepActive
    then (f, Return(EINVAL))
    else (f.(cleaned := true), Proceed)
  }

  function StoreStatus(f: Flags, status: int): Flags {
    f.(exitStatus := status)
  }

  function StopRunning(f: Flags): Flags {
    f.(running := false, loopExited := true)
  }

  // ---------- the machine ----------

  /** A joiner is ahead of the wait for the thread, waits for the created thread, or was handed a handle no
      thread had been created for; that wait does not wait. */
  datatype Wait = Ahead | OnThread | OnNothing

  /** What an API thread is doing outside the lock. */
  datatype Pc = Idle | InInit | Creating | Stepping | Joining(wait: Wait) | Cleaning

  const JOINING: Pc := Joining(Ahead)

  /** The loop thread; the status is the one the main loop returned. */
  datatype LoopThread = Absent | Looping | Returned(status: int) | Stored(status: int) | Finished(status: int)

  /** `inits`, `starts` and `cleanups` count how often the long operations began, `exits` how often a step saw the
      main loop exit, and `early` how often a join waited on a handle without a thread; `joined` keeps the
      statuses that joins returned. */
  datatype Host = Host(flags: Flags, pcs: map<nat, Pc>, loop: LoopThread, inits: nat, starts: nat, cleanups: nat,
                       exits: nat, early: nat, joined: seq<int>)

  function PcOf(s: Host, t: nat): Pc {
    if t in s.pcs then s.pcs[t] else Idle
  }

  /** All joiners count as one population. */
  predicate At(s: Host, t: nat, pc: Pc) {
    if pc.Joining? then PcOf(s, t).Joining? else PcOf(s, t) == pc
  }

  datatype Action =
    | CallInit(t: nat) | EndInit(t: nat)
    | CallStart(t: nat) | CreateThread(t: nat)
    | CallStep(t: nat) | EndStep(t: nat, exited: bool, status: int)
    | CallJoin(t: nat) | CallWait(t: nat) | EndJoin(t: nat)
    | CallCleanup(t: nat) | EndCleanup(t: nat)
    | LoopReturns(status: int) | LoopStores | LoopFinishes

  /** The action can happen now; a join on a thread ends only once that thread has. */
  predicate Enabled(s: Host, a: Action) {
    match a
    case CallInit(t) => PcOf(s, t) == Idle
    case CallStart(t) => PcOf(s, t) == Idle
    case CallStep(t) => PcOf(s, t) == Idle
    case CallJoin(t) => PcOf(s, t) == Idle
    case CallCleanup(t) => PcOf(s, t) == Idle
    case EndInit(t) => PcOf(s, t) == InInit
    case CreateThread(t) => PcOf(s, t) == Creating
    case EndStep(t, _, _) => PcOf(s, t) == Stepping
    case CallWait(t) => PcOf(s, t) == Joining(Ahead)
    case EndJoin(t) => PcOf(s, t) == Joining(OnNothing) || (PcOf(s, t) == Joining(OnThread) && s.loop.Finished?)
    case EndCleanup(t) => PcOf(s, t) == Cleaning
    case LoopReturns(_) => s.loop.Looping?
    case LoopStores => s.loop.Returned?
    case LoopFinishes => s.loop.Stored?
  }

  function Enter(s: Host, t: nat, r: (Flags, Verdict), pc: Pc): Host {
    if r.1 == Proceed then s.(flags := r.0, pcs := s.pcs[t := pc]) else s
  }

  function Leave(s: Host, t: nat, f: Flags): Host {
    s.(flags := f, pcs := s.pcs[t := Idle])
  }

  function Count(r: (Flags, Verdict)): nat {
    if r.1 == Proceed then 1 else 0
  }

  function Act(s: Host, a: Action): Host
    requires Enabled(s, a)
  {
    match a
    case CallInit(t) =>
      var r := InitEnter(s.flags);
      Enter(s, t, r, InInit).(inits := s.inits + Count(r))
    case EndInit(t) => Leave(s, t, InitLeave(s.flags))
    case CallStart(t) =>
      var r := StartEnter(s.flags);
      Enter(s, t, r, Creating).(starts := s.starts + Count(r))
    case CreateThread(t) => Leave(s, t, s.flags).(loop := Looping)
    case CallStep(t) => Enter(s, t, StepEnter(s.flags), Stepping)
    case EndStep(t, exited, status) =>
      Leave(s, t, StepLeave(s.flags, exited, status)).(exits := s.exits + if exited then 1 else 0)
    case CallJoin(t) => Enter(s, t, JoinEnter(s.flags), JOINING)
    case CallWait(t) =>
      if s.loop == Absent then s.(pcs := s.pcs[t := Joining(OnNothing)], early := s.early + 1)
      else s.(pcs := s.pcs[t := Joining(OnThread)])
    case EndJoin(t) => Leave(s, t, JoinLeave(s.flags)).(joined := s.joined + [s.flags.exitStatus])
    case CallCleanup(t) =>
      var r := CleanupEnter(s.flags);
      Enter(s, t, r, Cleaning).(cleanups := s.cleanups + Count(r))
    case EndCleanup(t) => Leave(s, t, s.flags)
    case LoopReturns(status) => s.(loop := Returned(status))
    case LoopStores => s.(loop := Stored(s.loop.status), flags := StoreStatus(s.flags, s.loop.status))
    case LoopFinishes => s.(loop := Finished(s.loop.status), flags := StopRunning(s.flags))
  }

  const BOOT: Host :=
    Host(Flags(false, false, false, false, false, false, false, false, 0), map[], Absent, 0, 0, 0, 0, 0, [])

  function Next(s: Host, a: Action): Host {
    if Enabled(s, a) then Act(s, a) else s
  }

  /** A run: actions that are not enabled do not happen. */
  function Run(actions: seq<Action>): Host
    decreases |actions|
  {
    if actions == [] then BOOT else Next(Run(actions[..|actions| - 1]), actions[|actions| - 1])
  }

  lemma RunNext(actions: seq<Action>, a: Action)
    ensures Run(actions + [a]) == Next(Run(actions), a)
  {
    assert (actions + [a])[..|actions|] == actions;
  }

  // ---------- invariants ----------

  ghost predicate AtMostOne(s: Host, pc: Pc) {
    forall t: nat, u: nat :: At(s, t, pc) && At(s, u, pc) ==> t == u
  }

  ghost predicate Nobody(s: Host, pc: Pc) {
    forall t: nat :: !At(s, t, pc)
  }

  predicate LoopBusy(s: Host) {
    s.loop.Looping? || s.loop.Returned? || s.loop.Stored?
  }

  /** Initialized and not cleaned. */
  ghost predicate Ready(s: Host) {
    s.inits == 1 && Nobody(s, InInit) && s.cleanups == 0
  }

  /** A thread was started that no join has returned for. */
  predicate Unjoined(s: Host) {
    s.starts == 1 && s.joined == []
  }

  predicate Exited(s: Host) {
    s.exits > 0 || s.loop.Finished?
  }

  /** What the flags say about the threads, in every interleaving. */
  ghost predicate Base(s: Host) {
    var f := s.flags;
    && (f.initializing <==> !Nobody(s, InInit)) && AtMostOne(s, InInit)
    && (f.stepActive <==> !Nobody(s, Stepping)) && AtMostOne(s, Stepping)
    && (f.joinActive <==> !Nobody(s, JOINING)) && AtMostOne(s, JOINING)
    && AtMostOne(s, Creating)
    && !(f.initializing && f.initialized)
    && (!f.initialized ==> s.loop == Absent && !f.running && !f.threadStarted && !f.stepActive && !f.joinActive &&
                           !f.cleaned && !f.loopExited && Nobody(s, Creating) && Nobody(s, Cleaning) && s.starts == 0)
    && (f.running <==> !Nobody(s, Creating) || LoopBusy(s))
    && (!Nobody(s, Creating) ==> s.loop == Absent)
    && (f.threadStarted <==> Unjoined(s))
    && (f.joinActive ==> f.threadStarted) && (s.joined != [] ==> s.starts == 1)
    && (f.loopExited <==> Exited(s))
    && (f.cleaned ==> !f.running && !f.threadStarted && !f.stepActive && !f.joinActive)
    && (!f.cleaned ==> Nobody(s, Cleaning))
    && s.inits == (if f.initializing || f.initialized then 1 else 0)
    && s.starts == (if s.loop != Absent || !Nobody(s, Creating) then 1 else 0)
    && s.cleanups == (if f.cleaned then 1 else 0)
  }

  ghost predicate NoStray(s: Host) {
    forall t: nat :: PcOf(s, t) != Joining(OnNothing)
  }

  /** What holds besides as long as no join waited on a handle without a thread. */
  ghost predicate Orderly(s: Host) {
    var f := s.flags;
    && NoStray(s)
    && (f.running || s.loop.Finished? ==> !f.stepActive)
    && (f.running ==> f.threadStarted && s.exits == 0)
    && (f.threadStarted ==> f.running || s.loop.Finished?)
    && (s.loop.Stored? || s.loop.Finished? ==> f.exitStatus == s.loop.status)
    && (forall k :: 0 <= k < |s.joined| ==> s.loop == Finished(s.joined[k]))
  }

  ghost predicate Inv(s: Host) {
    Base(s) && (s.early == 0 ==> Orderly(s))
  }

  /** How the population of one program point changes when one thread moves. */
  lemma Moved(s: Host, q: Host, t: nat, pc: Pc)
    requires forall u: nat :: u != t ==> PcOf(q, u) == PcOf(s, u)
    ensures At(s, t, pc) ==> !Nobody(s, pc)
    ensures At(q, t, pc) ==> !Nobody(q, pc)
    ensures At(s, t, pc) == At(q, t, pc) ==>
              Nobody(q, pc) == Nobody(s, pc) && AtMostOne(q, pc) == AtMostOne(s, pc)
    ensures At(s, t, pc) && !At(q, t, pc) && AtMostOne(s, pc) ==> Nobody(q, pc)
    ensures Nobody(s, pc) && At(q, t, pc) ==> AtMostOne(q, pc)
    ensures Nobody(q, pc) ==> AtMostOne(q, pc)
  {
    assert forall u: nat :: u != t ==> At(q, u, pc) == At(s, u, pc);
    if At(s, t, pc) == At(q, t, pc) {
      assert forall u: nat :: At(q, u, pc) == At(s, u, pc);
    }
  }

  function ThreadOf(a: Action): nat {
    if a.LoopReturns? || a.LoopStores? || a.LoopFinishes? then 0 else a.t
  }

  lemma OneMoves(s: Host, a: Action)
    requires Enabled(s, a)
    ensures forall u: nat :: u != ThreadOf(a) ==> PcOf(Act(s, a), u) == PcOf(s, u)
  {
  }

  lemma StepKeepsBase(s: Host, a: Action)
    requires Base(s) && Enabled(s, a)
    ensures Base(Act(s, a))
  {
    hide Nobody, AtMostOne;
    var q, t := Act(s, a), ThreadOf(a);
    OneMoves(s, a);
    Moved(s, q, t, InInit);
    Moved(s, q, t, Creating);
    Moved(s, q, t, Stepping);
    Moved(s, q, t, JOINING);
    Moved(s, q, t, Cleaning);
  }

  lemma NotStray(s: Host, t: nat)
    requires NoStray(s)
    ensures PcOf(s, t) != Joining(OnNothing)
  {
  }

  lemma StrayNeedsEarly(s: Host, a: Action)
    requires NoStray(s) && Enabled(s, a) && Act(s, a).early == s.early
    ensures NoStray(Act(s, a))
  {
    var q := Act(s, a);
    OneMoves(s, a);
    forall t: nat
      ensures PcOf(q, t) != Joining(OnNothing)
    {
      assert PcOf(s, t) != Joining(OnNothing);
    }
  }

  lemma StepKeeps(s: Host, a: Action)
    requires Inv(s) && Enabled(s, a)
    ensures Inv(Act(s, a))
  {
    hide Nobody, AtMostOne, NoStray;
    StepKeepsBase(s, a);
    var q := Act(s, a);
    if q.early == 0 {
      StrayNeedsEarly(s, a);
      NotStray(s, ThreadOf(a));
      OneMoves(s, a);
      Moved(s, q, ThreadOf(a), Stepping);
      Moved(s, q, ThreadOf(a), Creating);
      Moved(s, q, ThreadOf(a), JOINING);
    }
  }

  lemma BootInv()
    ensures Inv(BOOT)
  {
  }

  lemma {:induction false} RunInv(actions: seq<Action>)
    ensures Inv(Run(actions))
    decreases |actions|
  {
    hide Inv, Act;
    if actions == [] {
      BootInv();
    } else {
      RunInv(actions[..|actions| - 1]);
      var s := Run(actions[..|actions| - 1]);
      if Enabled(s, actions[|actions| - 1]) {
        StepKeeps(s, actions[|actions| - 1]);
      }
    }
  }

  // ---------- every interleaving ----------

  /** The loop thread and a step never coexist, running implies that the loop thread was started, a cleaned machine
      is at rest, and a join returned the main loop's status. */
  ghost predicate Safe(s: Host) {
    && (LoopBusy(s) || !Nobody(s, Creating) ==> Nobody(s, Stepping))
    && (s.flags.running ==> s.flags.threadStarted)
    && (s.flags.cleaned ==> !LoopBusy(s) && Nobody(s, Creating) && Nobody(s, Stepping) && Nobody(s, JOINING))
    && (forall k :: 0 <= k < |s.joined| ==> s.loop == Finished(s.joined[k]))
  }

  /** Each long operation begins at most once, and is exclusive where it must be. */
  lemma OperationsBeginOnce(actions: seq<Action>)
    ensures var s := Run(actions);
            && s.inits <= 1 && s.starts <= 1 && s.cleanups <= 1 && |s.joined| <= 1
            && AtMostOne(s, Stepping) && AtMostOne(s, JOINING) && AtMostOne(s, Creating)
    decreases |actions|
  {
    hide Act, AtMostOne;
    RunInv(actions);
    if actions != [] {
      OperationsBeginOnce(actions[..|actions| - 1]);
      RunInv(actions[..|actions| - 1]);
      JoinedOnce(Run(actions[..|actions| - 1]), actions[|actions| - 1]);
    }
  }

  lemma JoinedOnce(s: Host, a: Action)
    requires Inv(s) && |s.joined| <= 1
    ensures |Next(s, a).joined| <= 1
  {
    if a.EndJoin? && Enabled(s, a) {
      assert At(s, a.t, JOINING);
    }
  }

  /** Every interleaving in which no join waited on a handle without a thread is safe. */
  lemma EveryInterleavingIsSafe(actions: seq<Action>)
    requires Run(actions).early == 0
    ensures Safe(Run(actions))
  {
    RunInv(actions);
  }

  /** A join that is let through meets a created thread exactly when no start is between its section and the
      creation of the thread; the same holds when it comes to wait. */
  lemma JoinMeetsTheThread(actions: seq<Action>, t: nat)
    ensures var s := Run(actions);
            && (JoinEnter(s.flags).1 == Proceed || PcOf(s, t).Joining? ==>
                  (s.loop == Absent <==> !Nobody(s, Creating)))
            && (Enabled(s, CallWait(t)) ==>
                  (Run(actions + [CallWait(t)]).early == s.early <==> Nobody(s, Creating)))
  {
    RunInv(actions);
    RunNext(actions, CallWait(t));
    var s := Run(actions);
    if PcOf(s, t).Joining? {
      assert At(s, t, JOINING);
    }
  }

  /** The run has no further wait on a handle without a thread, and stays safe. */
  ghost predicate SafeAfter(actions: seq<Action>, more: seq<Action>) {
    Run(actions + more).early == Run(actions).early ==> Safe(Run(actions + more))
  }

  /** Coming to wait is safe whatever happens later exactly when no start is about to create the thread. */
  lemma WaitIsSafeExactly(actions: seq<Action>, t: nat)
    requires Run(actions).early == 0 && Enabled(Run(actions), CallWait(t))
    ensures (forall more: seq<Action> :: SafeAfter(actions + [CallWait(t)], more)) <==> Nobody(Run(actions), Creating)
  {
    hide Run, Act, Enabled, Inv, Nobody;
    JoinMeetsTheThread(actions, t);
    if Nobody(Run(actions), Creating) {
      forall more: seq<Action>
        ensures SafeAfter(actions + [CallWait(t)], more)
      {
        if Run(actions + [CallWait(t)] + more).early == 0 {
          EveryInterleavingIsSafe(actions + [CallWait(t)] + more);
        }
      }
    } else {
      var u: nat := SomebodyCreates(Run(actions));
      EarlyWaitBreaks(actions, t, u);
    }
  }

  lemma SomebodyCreates(s: Host) returns (u: nat)
    requires !Nobody(s, Creating)
    ensures PcOf(s, u) == Creating
  {
    var t: nat :| At(s, t, Creating);
    u := t;
  }

  /** After a wait on a handle without a thread, the join ends, the thread is created, and a step begins beside it. */
  lemma EarlyWaitBreaks(actions: seq<Action>, t: nat, u: nat)
    requires Run(actions).early == 0 && Enabled(Run(actions), CallWait(t)) && PcOf(Run(actions), u) == Creating
    ensures !SafeAfter(actions + [CallWait(t)], [EndJoin(t), CreateThread(u), CallStep(t)])
  {
    hide Inv, Nobody, Run;
    var s := Run(actions);
    RunInv(actions);
    CreatingNow(s, u);
    var s1, s2 := Next(s, CallWait(t)), Next(Next(s, CallWait(t)), EndJoin(t));
    var s3 := Next(s2, CreateThread(u));
    var s4 := Next(s3, CallStep(t));
    var a1 := actions + [CallWait(t)];
    RunNext(actions, CallWait(t));
    RunNext(a1, EndJoin(t));
    RunNext(a1 + [EndJoin(t)], CreateThread(u));
    RunNext(a1 + [EndJoin(t)] + [CreateThread(u)], CallStep(t));
    assert a1 + [EndJoin(t)] + [CreateThread(u)] + [CallStep(t)]
        == a1 + [EndJoin(t), CreateThread(u), CallStep(t)];
    SteppingNow(s4, t);
  }

  /** While a start is creating the thread, the flags let no step in, and would let one in after a join. */
  lemma CreatingNow(s: Host, u: nat)
    requires Inv(s) && s.early == 0 && PcOf(s, u) == Creating
    ensures s.loop == Absent && s.flags.initialized && !s.flags.cleaned && s.flags.threadStarted
    ensures !s.flags.loopExited && !s.flags.stepActive
  {
    assert At(s, u, Creating);
  }

  lemma SteppingNow(s: Host, t: nat)
    requires PcOf(s, t) == Stepping && LoopBusy(s)
    ensures !Safe(s)
  {
    assert At(s, t, Stepping);
  }

  /** Such a wait can happen: `start` lets go of the lock before it creates the thread. */
  lemma JoinMayPrecedeCreation()
    ensures exists actions: seq<Action> :: Run(actions).early == 1 && Run(actions).loop == Absent
  {
    hide Run;
    var calls := [] + [CallInit(0)] + [EndInit(0)] + [CallStart(0)] + [CallJoin(1)] + [CallWait(1)];
    RunNext([], CallInit(0));
    RunNext([] + [CallInit(0)], EndInit(0));
    RunNext([] + [CallInit(0)] + [EndInit(0)], CallStart(0));
    RunNext([] + [CallInit(0)] + [EndInit(0)] + [CallStart(0)], CallJoin(1));
    RunNext([] + [CallInit(0)] + [EndInit(0)] + [CallStart(0)] + [CallJoin(1)], CallWait(1));
    StartsBlank();
    assert Run(calls).early == 1 && Run(calls).loop == Absent;
  }

  lemma StartsBlank()
    ensures Run([]) == BOOT
  {
  }

  /** Once cleaned, always cleaned. */
  lemma {:induction false} CleanedForever(actions: seq<Action>, more: seq<Action>)
    requires Run(actions).flags.cleaned
    ensures Run(actions + more).flags.cleaned
    decreases |more|
  {
    hide Inv, Act;
    if more == [] {
      assert actions + more == actions;
    } else {
      var before := more[..|more| - 1];
      CleanedForever(actions, before);
      assert (actions + more)[..|actions + more| - 1] == actions + before;
      RunInv(actions + before);
      var s := Run(actions + before);
      if Enabled(s, more[|more| - 1]) {
        CleanedStays(s, more[|more| - 1]);
      }
    }
  }

  lemma CleanedStays(s: Host, a: Action)
    requires Inv(s) && s.flags.cleaned && Enabled(s, a)
    ensures Act(s, a).flags.cleaned
  {
    if a.EndInit? {
      assert At(s, a.t, InInit);
    }
  }

  // ---------- what the sections decide ----------

  /** The flags of a run say what has happened and what is going on. */
  lemma FlagsMean(actions: seq<Action>)
    ensures var s := Run(actions);
            && (s.flags.initialized && !s.flags.cleaned <==> Ready(s))
            && (s.flags.threadStarted <==> Unjoined(s)) && (s.flags.loopExited <==> Exited(s))
            && (s.flags.stepActive <==> !Nobody(s, Stepping)) && (s.flags.joinActive <==> !Nobody(s, JOINING))
            && (s.flags.running <==> !Nobody(s, Creating) || LoopBusy(s))
            && ((s.flags.running || s.flags.threadStarted || s.flags.loopExited) <==> s.starts == 1 || s.exits > 0)
            && (s.early == 0 ==> (s.flags.running ==> s.flags.threadStarted) && NoStray(s))
            && (s.early == 0 && s.loop.Finished? ==> s.flags.exitStatus == s.loop.status)
  {
    RunInv(actions);
  }

  lemma InitEnds(s: Host, t: nat)
    requires PcOf(s, t) == InInit
    ensures Next(s, EndInit(t)).flags == InitLeave(s.flags)
  {
  }

  lemma StepEnds(s: Host, t: nat, exited: bool, status: int)
    requires PcOf(s, t) == Stepping
    ensures var q := Next(s, EndStep(t, exited, status));
            q.flags == StepLeave(s.flags, exited, status) && (exited ==> Exited(q))
  {
  }

  // ---------- the critical sections over the globals ----------

  /** The ghost history is the run whose flags the globals hold. */
  class HostState {
    var initializing: bool
    var initialized: bool
    var running: bool
    var loopExited: bool
    var threadStarted: bool
    var joinActive: bool
    var stepActive: bool
    var cleaned: bool
    var exitStatus: int
    ghost var history: seq<Action>

    ghost function State(): Flags
      reads this
    {
      Flags(initializing, initialized, running, loopExited, threadStarted, joinActive, stepActive, cleaned, exitStatus)
    }

    ghost function Machine(): Host
      reads this
    {
      Run(history)
    }

    ghost predicate Valid()
      reads this
    {
      State() == Machine().flags
    }

    constructor ()
      ensures Valid() && Machine() == BOOT
    {
      initializing, initialized, running, loopExited, threadStarted := false, false, false, false, false;
      joinActive, stepActive, cleaned, exitStatus := false, false, false, 0;
      history := [];
    }

    /** Something happens outside the lock. */
    ghost method Observe(a: Action)
      requires Valid() && Enabled(Machine(), a) && Act(Machine(), a).flags == State()
      modifies this`history
      ensures Valid() && history == old(history) + [a] && Machine() == Act(old(Machine()), a)
    {
      RunNext(history, a);
      history := history + [a];
    }

    method EnterInit(ghost t: nat) returns (v: Verdict)
      requires Valid() && PcOf(Machine(), t) == Idle
      modifies this
      ensures Valid() && history == old(history) + [CallInit(t)]
      ensures v == (if old(Machine()).inits == 0 then Proceed else Return(EBUSY))
      ensures v == Proceed ==> PcOf(Machine(), t) == InInit
      ensures v != Proceed ==> Machine() == old(Machine())
    {
      RunInv(history);
      RunNext(history, CallInit(t));
      history := history + [CallInit(t)];
      if initializing || initialized {
        return Return(EBUSY);
      }
      initializing := true;
      v := Proceed;
    }

    method LeaveInit(ghost t: nat)
      requires Valid() && PcOf(Machine(), t) == InInit
      modifies this
      ensures Valid() && history == old(history) + [EndInit(t)] && Ready(Machine()) && exitStatus == 0
    {
      hide Ready, Nobody, Next, Run;
      InitEnds(Machine(), t);
      RunNext(history, EndInit(t));
      history := history + [EndInit(t)];
      initializing, initialized, running, loopExited, threadStarted := false, true, false, false, false;
      joinActive, stepActive, cleaned, exitStatus := false, false, false, 0;
      FlagsMean(history);
    }

    /** A start goes on once in the life of the machine, and only while nothing steps and no step saw the exit. */
    method EnterStart(ghost t: nat) returns (v: Verdict)
      requires Valid() && PcOf(Machine(), t) == Idle
      modifies this
      ensures Valid() && history == old(history) + [CallStart(t)]
      ensures v == if !Ready(old(Machine())) then Return(EINVAL)
                   else if old(Machine()).starts == 1 || old(Machine()).exits > 0 || !Nobody(old(Machine()), Stepping)
                   then Return(EBUSY)
                   else Proceed
      ensures v == Proceed ==> PcOf(Machine(), t) == Creating && Unjoined(Machine())
      ensures v != Proceed ==> Machine() == old(Machine())
    {
      hide Nobody, Ready;
      FlagsMean(history);
      OperationsBeginOnce(history);
      RunNext(history, CallStart(t));
      history := history + [CallStart(t)];
      if !initialized || cleaned {
        return Return(EINVAL);
      }
      if running || threadStarted || stepActive || loopExited {
        return Return(EBUSY);
      }
      running, threadStarted := true, true;
      v := Proceed;
      FlagsMean(history);
    }

    /** A step goes on only alone: no other step, and, unless a join waited on nothing, no loop thread. */
    method EnterStep(ghost t: nat) returns (v: Verdict)
      requires Valid() && PcOf(Machine(), t) == Idle
      modifies this
      ensures Valid() && history == old(history) + [CallStep(t)]
      ensures v == if !Ready(old(Machine())) || Unjoined(old(Machine())) then Return(EINVAL)
                   else if Exited(old(Machine())) then Return(1)
                   else if !Nobody(old(Machine()), Stepping) then Return(EBUSY)
                   else Proceed
      ensures v == Proceed ==> PcOf(Machine(), t) == Stepping && AtMostOne(Machine(), Stepping)
      ensures v == Proceed && Machine().early == 0 ==> !LoopBusy(Machine()) && Nobody(Machine(), Creating)
      ensures v != Proceed ==> Machine() == old(Machine())
    {
      hide Nobody, Ready, AtMostOne;
      FlagsMean(history);
      RunNext(history, CallStep(t));
      history := history + [CallStep(t)];
      FlagsMean(history);
      OperationsBeginOnce(history);
      if !initialized || cleaned || threadStarted {
        return Return(EINVAL);
      }
      if loopExited {
        return Return(1);
      }
      if stepActive {
        return Return(EBUSY);
      }
      stepActive := true;
      v := Proceed;
    }

    method LeaveStep(ghost t: nat, exited: bool, status: int)
      requires Valid() && PcOf(Machine(), t) == Stepping
      modifies this
      ensures Valid() && history == old(history) + [EndStep(t, exited, status)]
      ensures exited ==> Exited(Machine()) && exitStatus == status
    {
      hide Next, Run;
      StepEnds(Machine(), t, exited, status);
      RunNext(history, EndStep(t, exited, status));
      history := history + [EndStep(t, exited, status)];
      stepActive := false;
      if exited {
        exitStatus := status;
        loopExited := true;
      }
    }

    /** A join goes on alone, for a thread that was started and not joined; the thread exists already unless a start
        is about to create it. */
    method EnterJoin(ghost t: nat) returns (v: Verdict)
      requires Valid() && PcOf(Machine(), t) == Idle
      modifies this
      ensures Valid() && history == old(history) + [CallJoin(t)]
      ensures v == if !Nobody(old(Machine()), JOINING) then Return(EBUSY)
                   else if !Unjoined(old(Machine())) then Return(EINVAL)
                   else Proceed
      ensures v == Proceed ==> PcOf(Machine(), t) == JOINING && AtMostOne(Machine(), JOINING)
      ensures v == Proceed ==> (Machine().loop == Absent <==> !Nobody(Machine(), Creating))
      ensures v != Proceed ==> Machine() == old(Machine())
    {
      hide Nobody, AtMostOne;
      FlagsMean(history);
      RunNext(history, CallJoin(t));
      history := history + [CallJoin(t)];
      OperationsBeginOnce(history);
      JoinMeetsTheThread(history, t);
      if joinActive {
        return Return(EBUSY);
      }
      if !threadStarted {
        return Return(EINVAL);
      }
      joinActive := true;
      v := Proceed;
    }

    /** Unless a join waited on nothing, the status is the one the main loop returned. */
    method LeaveJoin(ghost t: nat) returns (status: int)
      requires Valid() && Enabled(Machine(), EndJoin(t))
      modifies this
      ensures Valid() && history == old(history) + [EndJoin(t)] && !Unjoined(Machine())
      ensures Machine().early == 0 ==> Machine().loop == Finished(status)
    {
      FlagsMean(history);
      RunNext(history, EndJoin(t));
      history := history + [EndJoin(t)];
      threadStarted, joinActive := false, false;
      status := exitStatus;
    }

    /** A cleanup goes on once, when nothing runs, steps, joins or waits to be joined. */
    method EnterCleanup(ghost t: nat) returns (v: Verdict, status: int)
      requires Valid() && PcOf(Machine(), t) == Idle
      modifies this
      ensures Valid() && history == old(history) + [CallCleanup(t)] && status == exitStatus
      ensures v == var m := old(Machine());
                   if Ready(m) && !Unjoined(m) && !LoopBusy(m) &&
                      Nobody(m, Creating) && Nobody(m, Stepping) && Nobody(m, JOINING)
                   then Proceed else Return(EINVAL)
      ensures v == Proceed ==> PcOf(Machine(), t) == Cleaning && Machine().cleanups == 1
      ensures v != Proceed ==> Machine() == old(Machine())
    {
      hide Nobody, Ready;
      FlagsMean(history);
      RunNext(history, CallCleanup(t));
      history := history + [CallCleanup(t)];
      CleanupCounts(history);
      status := exitStatus;
      if !initialized || cleaned || running || threadStarted || joinActive || stepActive {
        return Return(EINVAL), status;
      }
      cleaned := true;
      v := Proceed;
    }

    /** The two sections at the end of the loop thread. */
    method StoreExitStatus(status: int)
      requires Valid() && Machine().loop == Returned(status)
      modifies this
      ensures Valid() && history == old(history) + [LoopStores]
    {
      RunNext(history, LoopStores);
      history := history + [LoopStores];
      exitStatus := status;
    }

    method LeaveLoop()
      requires Valid() && Machine().loop.Stored?
      modifies this
      ensures Valid() && history == old(history) + [LoopFinishes] && Exited(Machine())
    {
      RunNext(history, LoopFinishes);
      history := history + [LoopFinishes];
      running := false;
      loopExited := true;
    }
  }

  lemma CleanupCounts(actions: seq<Action>)
    ensures Run(actions).cleanups == if Run(actions).flags.cleaned then 1 else 0
  {
    RunInv(actions);
  }
}
