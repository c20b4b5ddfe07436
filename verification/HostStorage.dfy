/** Mounting brokered storage, publishing handles, and releasing everything once. */
module HostStorage {
  import opened MountPaths

  const EINVAL: int := -22
  const EBUSY: int := -16
  const ENOSYS: int := -38
  const EEXIST: int := -17
  const ENOENT: int := -2

  const FIRST_HANDLE: nat := 0x4000_0000_0000_0000
  const LAST_HANDLE: nat := 0x7fff_ffff_ffff_fffe
  const HANDLES: nat := 0x3fff_ffff_ffff_ffff

  /** A reference taken or given back through callback table `table`. */
  datatype Reference = Retain(table: nat, object_: nat) | Release(table: nat, object_: nat)

  /** `table` is 0 when no callbacks are registered. */
  datatype Storage = Storage(table: nat, mounts: seq<Mount>, log: seq<Reference>)

  // ---------- mounts ----------

  function Register(s: Storage, table: nat, complete: bool, busy: bool): (Storage, int) {
    if !complete || table == 0 then (s, EINVAL)
    else if busy || s.mounts != [] then (s, EBUSY)
    else (s.(table := table), 0)
  }

  predicate HasPath(ms: seq<Mount>, p: string) {
    exists i :: 0 <= i < |ms| && ms[i].path == p
  }

  function Retains(table: nat, m: Mount): seq<Reference> {
    [Retain(table, m.object_)] + if m.stream != 0 then [Retain(table, m.stream)] else []
  }

  function Releases(table: nat, m: Mount): seq<Reference> {
    if table == 0 then []
    else (if m.stream != 0 then [Release(table, m.stream)] else []) + [Release(table, m.object_)]
  }

  function AddMount(s: Storage, m: Mount, busy: bool): (Storage, int) {
    if !PathValid(m.path) || m.object_ == 0 || (m.kind == FileMount && m.stream == 0) then (s, EINVAL)
    else if busy then (s, EBUSY)
    else if s.table == 0 then (s, ENOSYS)
    else if HasPath(s.mounts, m.path) then (s, EEXIST)
    else (s.(mounts := s.mounts + [m], log := s.log + Retains(s.table, m)), 0)
  }

  function IndexOf(ms: seq<Mount>, p: string): (i: nat)
    requires HasPath(ms, p)
    ensures i < |ms| && ms[i].path == p
    ensures forall j :: 0 <= j < i ==> ms[j].path != p
  {
    if ms[0].path == p then 0
    else
      assert HasPath(ms[1..], p) by {
        var k :| 0 <= k < |ms| && ms[k].path == p;
        assert ms[1..][k - 1].path == p;
      }
      1 + IndexOf(ms[1..], p)
  }

  function RemoveMount(s: Storage, p: string, busy: bool): (Storage, int) {
    if !PathValid(p) then (s, EINVAL)
    else if busy then (s, EBUSY)
    else if !HasPath(s.mounts, p) then (s, ENOENT)
    else
      var i := IndexOf(s.mounts, p);
      (s.(mounts := s.mounts[..i] + s.mounts[i + 1..], log := s.log + Releases(s.table, s.mounts[i])), 0)
  }

  function ReleaseAll(table: nat, ms: seq<Mount>): seq<Reference> {
    if ms == [] then [] else ReleaseAll(table, ms[..|ms| - 1]) + Releases(table, ms[|ms| - 1])
  }

  /** Frees every mount, then forgets the callbacks. */
  function CleanMounts(s: Storage): Storage {
    Storage(0, [], s.log + ReleaseAll(s.table, s.mounts))
  }

  // ---------- balance of references ----------

  function Weight(r: Reference, table: nat, object_: nat): int {
    if r == Retain(table, object_) then 1 else if r == Release(table, object_) then -1 else 0
  }

  /** Retains less releases of the object through the table. */
  function Balance(log: seq<Reference>, table: nat, object_: nat): int {
    if log == [] then 0 else Balance(log[..|log| - 1], table, object_) + Weight(log[|log| - 1], table, object_)
  }

  function One(b: bool): nat {
    if b then 1 else 0
  }

  /** How often live mounts hold the object. */
  function Holds(ms: seq<Mount>, object_: nat): nat {
    if ms == [] then 0
    else
      var m := ms[|ms| - 1];
      Holds(ms[..|ms| - 1], object_) + One(m.object_ == object_) + One(m.stream == object_)
  }

  /** Paths are valid and distinct; every reference goes through the current table, and is held by a mount. */
  ghost predicate Inv(s: Storage) {
    PathsValid(s.mounts) && PathsDistinct(s.mounts) && (s.table == 0 ==> s.mounts == []) &&
    forall t: nat, o: nat :: o != 0 ==> Balance(s.log, t, o) == if t == s.table && t != 0 then Holds(s.mounts, o) else 0
  }

  lemma {:induction false} BalanceAppend(a: seq<Reference>, b: seq<Reference>, t: nat, o: nat)
    ensures Balance(a + b, t, o) == Balance(a, t, o) + Balance(b, t, o)
    decreases |b|
  {
    if b == [] {
      assert a + b == a;
    } else {
      BalanceAppend(a, b[..|b| - 1], t, o);
      assert (a + b)[..|a + b| - 1] == a + b[..|b| - 1];
    }
  }

  lemma MountBalance(m: Mount, table: nat, t: nat, o: nat)
    requires o != 0 && table != 0
    ensures Balance(Retains(table, m), t, o) == if t == table then One(m.object_ == o) + One(m.stream == o) else 0
    ensures Balance(Releases(table, m), t, o) == if t == table then -(One(m.object_ == o) + One(m.stream == o)) else 0
  {
    BalanceOne(Retain(table, m.object_), t, o);
    BalanceOne(Release(table, m.object_), t, o);
    if m.stream != 0 {
      BalanceOne(Retain(table, m.stream), t, o);
      BalanceOne(Release(table, m.stream), t, o);
      BalanceAppend([Retain(table, m.object_)], [Retain(table, m.stream)], t, o);
      BalanceAppend([Release(table, m.stream)], [Release(table, m.object_)], t, o);
    } else {
      assert Retains(table, m) == [Retain(table, m.object_)];
      assert Releases(table, m) == [Release(table, m.object_)];
    }
  }

  lemma BalanceOne(r: Reference, t: nat, o: nat)
    ensures Balance([r], t, o) == Weight(r, t, o)
  {
    assert [r][..0] == [];
  }

  lemma {:induction false} HoldsRemove(ms: seq<Mount>, i: nat, o: nat)
    requires i < |ms|
    ensures Holds(ms, o) == Holds(ms[..i] + ms[i + 1..], o) + One(ms[i].object_ == o) + One(ms[i].stream == o)
    decreases |ms|
  {
    var rest := ms[..i] + ms[i + 1..];
    if i == |ms| - 1 {
      assert rest == ms[..|ms| - 1];
    } else {
      HoldsRemove(ms[..|ms| - 1], i, o);
      assert rest[..|rest| - 1] == ms[..|ms| - 1][..i] + ms[..|ms| - 1][i + 1..];
    }
  }

  lemma AddMountKeeps(s: Storage, m: Mount, busy: bool)
    requires Inv(s)
    ensures Inv(AddMount(s, m, busy).0)
  {
    hide PathValid, Balance, Retains;
    var (q, e) := AddMount(s, m, busy);
    if e == 0 {
      assert q.mounts[..|q.mounts| - 1] == s.mounts;
      forall t: nat, o: nat | o != 0
        ensures Balance(q.log, t, o) == if t == q.table && t != 0 then Holds(q.mounts, o) else 0
      {
        BalanceAppend(s.log, Retains(s.table, m), t, o);
        MountBalance(m, s.table, t, o);
      }
    }
  }

  lemma RemoveMountKeeps(s: Storage, p: string, busy: bool)
    requires Inv(s)
    ensures Inv(RemoveMount(s, p, busy).0)
    ensures RemoveMount(s, p, busy).1 == 0 ==>
              !HasPath(RemoveMount(s, p, busy).0.mounts, p) &&
              forall x :: x in s.mounts && x.path != p ==> x in RemoveMount(s, p, busy).0.mounts
  {
    hide PathValid, Balance, Releases, Holds;
    var (q, e) := RemoveMount(s, p, busy);
    if e == 0 {
      var i := IndexOf(s.mounts, p);
      forall t: nat, o: nat | o != 0
        ensures Balance(q.log, t, o) == if t == q.table && t != 0 then Holds(q.mounts, o) else 0
      {
        BalanceAppend(s.log, Releases(s.table, s.mounts[i]), t, o);
        MountBalance(s.mounts[i], s.table, t, o);
        HoldsRemove(s.mounts, i, o);
      }
    }
  }

  lemma RegisterKeeps(s: Storage, table: nat, complete: bool, busy: bool)
    requires Inv(s)
    ensures Inv(Register(s, table, complete, busy).0)
  {
    hide PathValid, Balance;
  }

  lemma {:induction false} ReleaseAllBalance(ms: seq<Mount>, table: nat, t: nat, o: nat)
    requires o != 0 && table != 0
    ensures Balance(ReleaseAll(table, ms), t, o) == if t == table then -(Holds(ms, o) as int) else 0
    decreases |ms|
  {
    hide Releases, Balance;
    if ms == [] {
      BalanceNothing(t, o);
    } else {
      ReleaseAllBalance(ms[..|ms| - 1], table, t, o);
      BalanceAppend(ReleaseAll(table, ms[..|ms| - 1]), Releases(table, ms[|ms| - 1]), t, o);
      MountBalance(ms[|ms| - 1], table, t, o);
    }
  }

  lemma BalanceNothing(t: nat, o: nat)
    ensures Balance([], t, o) == 0
  {
  }

  /** After the cleanup every object was released as often as it was retained, through the same table. */
  lemma CleanupReleasesEverything(s: Storage, t: nat, o: nat)
    requires Inv(s) && o != 0
    ensures Balance(CleanMounts(s).log, t, o) == 0
    ensures Inv(CleanMounts(s))
  {
    hide PathValid, Balance, ReleaseAll, Holds;
    forall u: nat, x: nat | x != 0 ensures Balance(CleanMounts(s).log, u, x) == 0 {
      BalanceAppend(s.log, ReleaseAll(s.table, s.mounts), u, x);
      if s.table != 0 {
        ReleaseAllBalance(s.mounts, s.table, u, x);
      } else {
        NoMounts(u, x);
      }
    }
  }

  lemma NoMounts(t: nat, o: nat)
    ensures Balance(ReleaseAll(0, []), t, o) == 0 && Holds([], o) == 0
  {
  }

  datatype Call = CallRegister(table: nat, complete: bool, busy: bool) | CallMount(m: Mount, busy: bool)
                | CallUnmount(path: string, busy: bool) | CallCleanup

  function Step(s: Storage, c: Call): Storage {
    match c
    case CallRegister(table, complete, busy) => Register(s, table, complete, busy).0
    case CallMount(m, busy) => AddMount(s, m, busy).0
    case CallUnmount(path, busy) => RemoveMount(s, path, busy).0
    case CallCleanup => CleanMounts(s)
  }

  function Run(calls: seq<Call>): Storage {
    if calls == [] then Storage(0, [], []) else Step(Run(calls[..|calls| - 1]), calls[|calls| - 1])
  }

  /** Over every sequence of calls: mount paths stay valid and distinct, so lookups are unambiguous, and for each
      object the retains less the releases are exactly the live mounts that hold it. */
  lemma {:induction false} RunsBalance(calls: seq<Call>)
    ensures Inv(Run(calls))
    decreases |calls|
  {
    hide Inv, Step;
    if calls == [] {
      assert Inv(Storage(0, [], [])) by {
        EmptyInv();
      }
    } else {
      RunsBalance(calls[..|calls| - 1]);
      StepKeeps(Run(calls[..|calls| - 1]), calls[|calls| - 1]);
    }
  }

  lemma EmptyInv()
    ensures Inv(Storage(0, [], []))
  {
  }

  lemma StepKeeps(s: Storage, c: Call)
    requires Inv(s)
    ensures Inv(Step(s, c))
  {
    hide Inv, Register, AddMount, RemoveMount, CleanMounts;
    match c
    case CallRegister(table, complete, busy) => RegisterKeeps(s, table, complete, busy);
    case CallMount(m, busy) => AddMountKeeps(s, m, busy);
    case CallUnmount(path, busy) => RemoveMountKeeps(s, path, busy);
    case CallCleanup => CleanupReleasesEverything(s, 0, 1);
  }
}
