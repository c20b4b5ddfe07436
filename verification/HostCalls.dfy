/** The mount calls from outside: which of them succeed, and what is mounted after any run of them. */
module HostCalls {
  import opened MountPaths
  import opened HostStorage

  /** What a caller must give for a mount. */
  predicate Mountable(m: Mount) {
    PathValid(m.path) && m.object_ != 0 && (m.stream != 0 || m.kind == FolderMount)
  }

  /** A mount succeeds exactly with good arguments, before the machine is initialized, with callbacks registered and
      nothing mounted at its path; the first of these that is missing is reported, and nothing is changed. A mount that
      succeeded can be unmounted, which leaves the mounts of before and gives back every reference taken. */
  lemma MountExactly(s: Storage, m: Mount, busy: bool)
    requires Inv(s)
    ensures var (q, e) := AddMount(s, m, busy);
            && (e == 0 <==> Mountable(m) && !busy && s.table != 0 && forall x :: x in s.mounts ==> x.path != m.path)
            && (e == EINVAL <==> !Mountable(m)) && (e == EBUSY <==> Mountable(m) && busy)
            && (e == ENOSYS <==> Mountable(m) && !busy && s.table == 0)
            && (e == 0 || e == EINVAL || e == EBUSY || e == ENOSYS || e == EEXIST) && (e != 0 ==> q == s)
            && (e == 0 ==>
                  var (r, f) := RemoveMount(q, m.path, false);
                  f == 0 && r.mounts == s.mounts && r.table == q.table == s.table &&
                  forall t: nat, o: nat :: o != 0 ==> Balance(r.log, t, o) == Balance(s.log, t, o))
  {
    hide PathValid, Balance, Retains, Releases, Holds;
    var (q, e) := AddMount(s, m, busy);
    if e == 0 {
      AddMountKeeps(s, m, busy);
      RemoveMountKeeps(q, m.path, false);
      assert q.mounts[|s.mounts|].path == m.path;
      var i := IndexOf(q.mounts, m.path);
      assert i == |s.mounts|;
      assert q.mounts[..i] + q.mounts[i + 1..] == s.mounts;
    }
  }

  /** An unmount succeeds exactly for the path of a mount, before the machine is initialized, and takes away that mount
      only. */
  lemma UnmountExactly(s: Storage, p: string, busy: bool)
    requires Inv(s)
    ensures var (q, e) := RemoveMount(s, p, busy);
            && (e == 0 <==> !busy && exists x :: x in s.mounts && x.path == p)
            && (e == EINVAL <==> !PathValid(p)) && (e == EBUSY <==> PathValid(p) && busy)
            && (e == 0 || e == EINVAL || e == EBUSY || e == ENOENT) && (e != 0 ==> q == s)
            && (e == 0 ==> q.table == s.table && forall x :: x in q.mounts <==> x in s.mounts && x.path != p)
  {
    hide PathValid, Balance, Releases, Holds;
    var (q, e) := RemoveMount(s, p, busy);
    if e == 0 {
      RemoveMountKeeps(s, p, busy);
      forall x | x in q.mounts ensures x in s.mounts && x.path != p {
        var j: nat :| j < |q.mounts| && q.mounts[j] == x;
      }
    }
  }

  /** Callbacks can be registered exactly while nothing is mounted and the machine is not initialized. */
  lemma RegisterExactly(s: Storage, table: nat, complete: bool, busy: bool)
    ensures var (q, e) := Register(s, table, complete, busy);
            && (e == 0 <==> complete && table != 0 && !busy && s.mounts == [])
            && (e == EINVAL <==> !(complete && table != 0)) && (e == 0 || e == EINVAL || e == EBUSY)
            && q == if e == 0 then Storage(table, s.mounts, s.log) else s
  {
  }

  /** A call acts on what the calls before it left, and before the first nothing is registered or mounted. */
  lemma RunStep(calls: seq<Call>, c: Call)
    ensures Run(calls + [c]) == Step(Run(calls), c) && Run([]) == Storage(0, [], [])
  {
    assert (calls + [c])[..|calls|] == calls;
  }

  // ---------- what is mounted after a run ----------

  /** Call i mounted m, and no later call unmounted its path or cleaned up. */
  predicate MountedAt(calls: seq<Call>, m: Mount, i: nat) {
    i < |calls| && calls[i] == CallMount(m, false) && AddMount(Run(calls[..i]), m, false).1 == 0 &&
    forall j :: i < j < |calls| ==> calls[j] != CallUnmount(m.path, false) && calls[j] != CallCleanup
  }

  ghost predicate Mounted(calls: seq<Call>, m: Mount) {
    exists i :: MountedAt(calls, m, i)
  }

  /** After any run of calls, exactly those mounts are there that were made and neither unmounted nor cleaned up
      since. */
  lemma {:induction false} MountsAreThoseMade(calls: seq<Call>, m: Mount)
    ensures m in Run(calls).mounts <==> Mounted(calls, m)
    decreases |calls|
  {
    hide Mounted, Step, Inv;
    if calls == [] {
      NothingMounted(m);
    } else {
      var front, c := calls[..|calls| - 1], calls[|calls| - 1];
      MountsAreThoseMade(front, m);
      RunsBalance(front);
      MountedLast(front, c, m);
      assert calls == front + [c];
      OneCall(Run(front), c, m);
    }
  }

  lemma NothingMounted(m: Mount)
    ensures !Mounted([], m) && Run([]).mounts == []
  {
  }

  lemma OneCall(s: Storage, c: Call, m: Mount)
    requires Inv(s)
    ensures m in Step(s, c).mounts <==>
              (c == CallMount(m, false) && AddMount(s, m, false).1 == 0) ||
              (m in s.mounts && c != CallUnmount(m.path, false) && c != CallCleanup)
  {
    match c
    case CallMount(n, busy) => MountExactly(s, n, busy);
    case CallUnmount(p, busy) => UnmountExactly(s, p, busy);
    case CallRegister(table, complete, busy) => RegisterExactly(s, table, complete, busy);
    case CallCleanup =>
  }

  lemma MountedBefore(front: seq<Call>, c: Call, m: Mount, i: nat)
    requires i < |front|
    ensures MountedAt(front + [c], m, i) <==>
              MountedAt(front, m, i) && c != CallUnmount(m.path, false) && c != CallCleanup
  {
    hide Run, AddMount;
    var calls := front + [c];
    assert calls[..i] == front[..i];
    assert calls[|front|] == c && forall j :: 0 <= j < |front| ==> calls[j] == front[j];
    if MountedAt(calls, m, i) {
      assert forall j :: i < j < |front| ==> front[j] == calls[j];
    }
  }

  lemma MountedLast(front: seq<Call>, c: Call, m: Mount)
    ensures Mounted(front + [c], m) <==>
              (c == CallMount(m, false) && AddMount(Run(front), m, false).1 == 0) ||
              (Mounted(front, m) && c != CallUnmount(m.path, false) && c != CallCleanup)
  {
    hide MountedAt, AddMount;
    forall i: nat | i < |front|
      ensures MountedAt(front + [c], m, i) <==>
                MountedAt(front, m, i) && c != CallUnmount(m.path, false) && c != CallCleanup
    {
      MountedBefore(front, c, m, i);
    }
    MountedNow(front, c, m);
    InRange(front, m);
    InRange(front + [c], m);
  }

  lemma MountedNow(front: seq<Call>, c: Call, m: Mount)
    ensures MountedAt(front + [c], m, |front|) <==> c == CallMount(m, false) && AddMount(Run(front), m, false).1 == 0
  {
    hide AddMount;
    assert (front + [c])[..|front|] == front;
  }

  lemma InRange(calls: seq<Call>, m: Mount)
    ensures forall i: nat :: MountedAt(calls, m, i) ==> i < |calls|
  {
  }
}
