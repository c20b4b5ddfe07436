/** The brokered storage of the host: its mount array and handle table, updated in place. */
module HostBroker {
  import opened Wrappers
  import opened MountPaths
  import opened HostStorage

  datatype Handle = Handle(backend: int, virtualPath: string, relativePath: string)

  function Advance(n: nat): nat {
    if n >= LAST_HANDLE then FIRST_HANDLE else n + 1
  }

  predicate InRange(n: int) {
    FIRST_HANDLE <= n <= LAST_HANDLE
  }

  // ---------- the handle table over a run ----------

  /** The live handles, and the number the next search starts from. */
  datatype Table = Table(handles: map<int, Handle>, next: nat)

  const NO_HANDLES: Table := Table(map[], FIRST_HANDLE)

  /** A call of the broker: a publication with the handle it returned, a close with the backend's answer, a
      cleanup, or one of the mount calls, which leave the table alone. */
  datatype Call = Publish(h: int, x: Handle) | Close(h: int, refuses: bool) | Clean | Mounting

  /** Counting on from `start` and wrapping, `x` comes before `h`. */
  predicate ComesBefore(start: nat, h: int, x: int) {
    InRange(x) && if start <= h then start <= x < h else start <= x || x < h
  }

  /** A publication returns the first number, counting on from `next`, that is not live. */
  ghost predicate Possible(t: Table, c: Call) {
    c.Publish? ==> InRange(c.h) && c.h !in t.handles && forall x :: ComesBefore(t.next, c.h, x) ==> x in t.handles
  }

  function Apply(t: Table, c: Call): Table {
    match c
    case Publish(h, x) => Table(t.handles[h := x], if InRange(h) then Advance(h) else t.next)
    case Close(h, refuses) => if refuses then t else t.(handles := t.handles - {h})
    case Clean => NO_HANDLES
    case Mounting => t
  }

  function Replay(calls: seq<Call>): Table {
    if calls == [] then NO_HANDLES else Apply(Replay(calls[..|calls| - 1]), calls[|calls| - 1])
  }

  /** Every call was possible when it happened. */
  ghost predicate Legal(calls: seq<Call>) {
    forall i :: 0 <= i < |calls| ==> Possible(Replay(calls[..i]), calls[i])
  }

  lemma ReplayStep(calls: seq<Call>, k: nat)
    requires 0 < k <= |calls|
    ensures Replay(calls[..k]) == Apply(Replay(calls[..k - 1]), calls[k - 1])
  {
    assert calls[..k][..k - 1] == calls[..k - 1] && calls[..k][k - 1] == calls[k - 1];
  }

  predicate Ends(c: Call, h: int) {
    c == Close(h, false) || c == Clean
  }

  lemma {:induction false} ResolvesUntilClosed(calls: seq<Call>, i: nat, k: nat)
    requires Legal(calls) && i < k <= |calls| && calls[i].Publish?
    requires forall j :: i < j < k ==> !Ends(calls[j], calls[i].h)
    ensures var t := Replay(calls[..k]); calls[i].h in t.handles && t.handles[calls[i].h] == calls[i].x
    ensures forall j :: i < j < k && calls[j].Publish? ==> calls[j].h != calls[i].h
    decreases k
  {
    hide Replay, ComesBefore;
    ReplayStep(calls, k);
    if i < k - 1 {
      ResolvesUntilClosed(calls, i, k - 1);
      assert Possible(Replay(calls[..k - 1]), calls[k - 1]);
      assert !Ends(calls[k - 1], calls[i].h);
    }
  }

  lemma LegalStep(calls: seq<Call>, c: Call)
    requires Legal(calls) && Possible(Replay(calls), c)
    ensures Legal(calls + [c]) && Replay(calls + [c]) == Apply(Replay(calls), c)
  {
    hide Possible;
    var more := calls + [c];
    assert more[..|calls|] == calls;
    forall i | 0 <= i < |more| ensures Possible(Replay(more[..i]), more[i]) {
      if i < |calls| {
        assert more[..i] == calls[..i];
      }
    }
  }

  /** Whatever calls were made on a broker: a public handle resolves to the backend handle it was published for,
      and is not published again, until it is closed or the broker is cleaned up. */
  lemma HandlesResolveUntilClosed(b: Broker, i: nat)
    requires b.Valid() && i < |b.calls| && b.calls[i].Publish?
    requires forall j :: i < j < |b.calls| ==> !Ends(b.calls[j], b.calls[i].h)
    ensures b.calls[i].h in b.handles && b.handles[b.calls[i].h] == b.calls[i].x
    ensures forall j :: i < j < |b.calls| && b.calls[j].Publish? ==> b.calls[j].h != b.calls[i].h
  {
    ResolvesUntilClosed(b.calls, i, |b.calls|);
    assert b.calls[..|b.calls|] == b.calls;
  }

  /** And conversely: every live handle was published by a call that neither a close nor a cleanup followed. */
  lemma LiveHandlesWerePublished(b: Broker, h: int) returns (i: nat)
    requires b.Valid() && h in b.handles
    ensures i < |b.calls| && b.calls[i] == Publish(h, b.handles[h])
    ensures forall j :: i < j < |b.calls| ==> !Ends(b.calls[j], h)
  {
    i := PublishedBy(b.calls, h);
  }

  lemma {:induction false} PublishedBy(calls: seq<Call>, h: int) returns (i: nat)
    requires h in Replay(calls).handles
    ensures i < |calls| && calls[i] == Publish(h, Replay(calls).handles[h])
    ensures forall j :: i < j < |calls| ==> !Ends(calls[j], h)
    decreases |calls|
  {
    var last := |calls| - 1;
    i := last;
    if !(calls[last].Publish? && calls[last].h == h) {
      i := PublishedBy(calls[..last], h);
    }
  }

  lemma EmptyOrMember(s: set<int>)
    ensures s == {} || exists h :: h in s
  {
    if forall h :: h !in s {
      assert s == {};
    }
  }

  lemma SubsetSize(a: set<int>, b: set<int>)
    requires a <= b
    ensures |a| <= |b|
  {
    assert b == a + (b - a);
  }

  /** `tried` are the candidates from `start` up to but not including `current`, each once. */
  ghost predicate Tried(tried: set<int>, start: nat, current: nat, wrapped: bool) {
    InRange(start) && InRange(current) &&
    if wrapped then
      current <= start && |tried| == LAST_HANDLE + 1 - start + (current - FIRST_HANDLE) &&
      forall x :: x in tried ==> x >= start || x < current
    else
      start <= current && |tried| == current - start && forall x :: x in tried ==> start <= x < current
  }

  /** All numbers from `start` up to `current` were tried. */
  ghost predicate TriedAll(tried: set<int>, start: nat, current: nat, wrapped: bool) {
    forall x :: InRange(x) && (if wrapped then start <= x || x < current else start <= x < current) ==> x in tried
  }

  lemma OneMoreOfAll(tried: set<int>, start: nat, current: nat, wrapped: bool)
    requires InRange(current) && TriedAll(tried, start, current, wrapped)
    ensures TriedAll(tried + {current}, start, Advance(current), wrapped || current == LAST_HANDLE)
  {
  }

  lemma TriedOrder(tried: set<int>, start: nat, current: nat, wrapped: bool)
    requires Tried(tried, start, current, wrapped)
    ensures InRange(start) && if wrapped then current <= start else start <= current
  {
  }

  lemma FirstFree(tried: set<int>, start: nat, h: nat, wrapped: bool)
    requires TriedAll(tried, start, h, wrapped) && InRange(h) && h !in tried && InRange(start)
    requires if wrapped then h <= start else start <= h
    ensures forall x :: ComesBefore(start, h, x) ==> x in tried
  {
  }

  lemma TriedNothing(start: nat)
    requires InRange(start)
    ensures Tried({}, start, start, false) && TriedAll({}, start, start, false)
  {
  }

  lemma OneMoreTried(tried: set<int>, start: nat, current: nat, wrapped: bool)
    requires Tried(tried, start, current, wrapped) && |tried| < HANDLES
    ensures current !in tried
    ensures Tried(tried + {current}, start, Advance(current), wrapped || current == LAST_HANDLE)
  {
  }

  class Broker {
    var table: nat
    var mounts: seq<Mount>
    ghost var log: seq<Reference>
    var handles: map<int, Handle>
    var next: nat
    /** Backend handles passed to the backend's close, in order. */
    var closed: seq<int>
    /** Every call so far. */
    ghost var calls: seq<Call>

    ghost predicate Valid()
      reads this
    {
      Inv(State()) && InRange(next) && Legal(calls) && Table(handles, next) == Replay(calls)
    }

    ghost function State(): Storage
      reads this
    {
      Storage(table, mounts, log)
    }

    constructor ()
      ensures Valid() && State() == Storage(0, [], []) && handles == map[] && closed == []
    {
      table, mounts, log, handles, next, closed, calls := 0, [], [], map[], FIRST_HANDLE, [], [];
      new;
      EmptyInv();
    }

    /** Callbacks cannot be replaced while a mount holds references taken through them. */
    method RegisterCallbacks(newTable: nat, complete: bool, busy: bool) returns (e: int)
      requires Valid()
      modifies this
      ensures Valid() && (State(), e) == Register(old(State()), newTable, complete, busy)
      ensures handles == old(handles) && closed == old(closed) && next == old(next) && calls == old(calls) + [Mounting]
    {
      hide Inv;
      RegisterKeeps(State(), newTable, complete, busy);
      LegalStep(calls, Mounting);
      calls := calls + [Mounting];
      if !complete || newTable == 0 {
        return EINVAL;
      }
      if busy || mounts != [] {
        return EBUSY;
      }
      table := newTable;
      e := 0;
    }

    method CheckPath(p: string) returns (ok: bool)
      ensures ok == PathValid(p)
    {
      if |p| <= 1 || p[0] != '/' || '\\' in p {
        return false;
      }
      var i := 1;
      while true
        invariant 1 <= i <= |p|
        invariant ComponentsValid(p, 1) == ComponentsValid(p, i)
        decreases |p| - i
      {
        var end := NextSlash(p, i);
        if p[i..end] == "" || p[i..end] == "." || p[i..end] == ".." {
          return false;
        }
        if end == |p| {
          break;
        }
        if end + 1 == |p| {
          return false;
        }
        i := end + 1;
      }
      ok := true;
    }

    method Mounted(p: string) returns (found: bool)
      ensures found == HasPath(mounts, p)
    {
      for i := 0 to |mounts|
        invariant forall j :: 0 <= j < i ==> mounts[j].path != p
      {
        if mounts[i].path == p {
          return true;
        }
      }
      found := false;
    }

    method MountStorage(m: Mount, busy: bool) returns (e: int)
      requires Valid()
      modifies this
      ensures Valid() && (State(), e) == AddMount(old(State()), m, busy)
      ensures handles == old(handles) && closed == old(closed) && next == old(next) && calls == old(calls) + [Mounting]
    {
      hide Inv, PathValid, Balance, Holds;
      AddMountKeeps(State(), m, busy);
      LegalStep(calls, Mounting);
      calls := calls + [Mounting];
      var ok := CheckPath(m.path);
      if !ok || m.object_ == 0 || (m.kind == FileMount && m.stream == 0) {
        return EINVAL;
      }
      if busy {
        return EBUSY;
      }
      if table == 0 {
        return ENOSYS;
      }
      var found := Mounted(m.path);
      if found {
        return EEXIST;
      }
      log := log + Retains(table, m);
      mounts := mounts + [m];
      e := 0;
    }

    method UnmountStorage(p: string, busy: bool) returns (e: int)
      requires Valid()
      modifies this
      ensures Valid() && (State(), e) == RemoveMount(old(State()), p, busy)
      ensures handles == old(handles) && closed == old(closed) && next == old(next) && calls == old(calls) + [Mounting]
    {
      hide Inv, PathValid, Balance, Holds;
      RemoveMountKeeps(State(), p, busy);
      LegalStep(calls, Mounting);
      calls := calls + [Mounting];
      var ok := CheckPath(p);
      if !ok {
        return EINVAL;
      }
      if busy {
        return EBUSY;
      }
      for i := 0 to |mounts|
        invariant State() == old(State()) && next == old(next) && handles == old(handles) && closed == old(closed)
        invariant calls == old(calls) + [Mounting] && Inv(State()) && Inv(RemoveMount(State(), p, busy).0)
        invariant Legal(calls) && Table(handles, next) == Replay(calls)
        invariant forall j :: 0 <= j < i ==> mounts[j].path != p
      {
        if mounts[i].path == p {
          FirstIndex(mounts, p, i);
          log := log + Releases(table, mounts[i]);
          mounts := mounts[..i] + mounts[i + 1..];
          return 0;
        }
      }
      e := ENOENT;
    }

    /** The longest mount that matches, with the rest of the path. */
    method LookUp(p: string) returns (best: Option<Mount>, relative: string)
      requires Valid()
      ensures best.None? ==> forall x :: x in mounts ==> !Matches(x, p)
      ensures best.Some? ==> Longest(mounts, p, best.value) && relative == RelativePath(best.value, p)
    {
      hide PathValid, Matches, BestOf;
      best, relative := None, "";
      InvPaths(State());
      BestNothing(mounts, p);
      for i := 0 to |mounts|
        invariant best == BestOf(mounts, p, i)
      {
        best := Better(best, mounts[i], p);
        BestStep(mounts, p, i);
      }
      FindsLongest(mounts, p);
      if best.Some? {
        relative := RelativePath(best.value, p);
      }
    }

    /** A new public handle: the first number, counting on from the last one and wrapping, that is not live. */
    method PublishHandle(backend: int, virtualPath: string, relativePath: string) returns (h: int)
      requires Valid() && |handles| < HANDLES
      modifies this`handles, this`next, this`calls
      ensures Valid() && InRange(h) && h !in old(handles)
      ensures forall x :: ComesBefore(old(next), h, x) ==> x in old(handles)
      ensures calls == old(calls) + [Publish(h, Handle(backend, virtualPath, relativePath))]
      ensures handles == old(handles)[h := Handle(backend, virtualPath, relativePath)]
      ensures next == Advance(h)
    {
      hide Inv, Tried, TriedAll, Replay, ComesBefore;
      TriedNothing(next);
      ghost var start, wrapped := next, false;
      ghost var tried: set<int> := {};
      h := next;
      next := Advance(next);
      while h in handles
        invariant InRange(h) && next == Advance(h) && handles == old(handles) && State() == old(State())
        invariant calls == old(calls)
        invariant Tried(tried, start, h, wrapped) && TriedAll(tried, start, h, wrapped) && tried <= handles.Keys
        decreases |handles| - |tried|
      {
        SubsetSize(tried, handles.Keys);
        SameSize(handles);
        OneMoreTried(tried, start, h, wrapped);
        OneMoreOfAll(tried, start, h, wrapped);
        SubsetSize(tried + {h}, handles.Keys);
        tried := tried + {h};
        wrapped := wrapped || h == LAST_HANDLE;
        h := next;
        next := Advance(next);
      }
      TriedOrder(tried, start, h, wrapped);
      FirstFree(tried, start, h, wrapped);
      ghost var c := Publish(h, Handle(backend, virtualPath, relativePath));
      LegalStep(calls, c);
      calls := calls + [c];
      handles := handles[h := Handle(backend, virtualPath, relativePath)];
    }

    /** Closes through the backend; the handle stays live when the backend refuses. */
    method CloseHandle(h: int, refuses: bool) returns (known: bool)
      requires Valid()
      modifies this`handles, this`closed, this`calls
      ensures Valid() && known == (h in old(handles))
      ensures calls == old(calls) + [Close(h, refuses)]
      ensures known ==> closed == old(closed) + [old(handles)[h].backend]
      ensures handles == if known && !refuses then old(handles) - {h} else old(handles)
      ensures !known ==> closed == old(closed)
    {
      LegalStep(calls, Close(h, refuses));
      calls := calls + [Close(h, refuses)];
      known := h in handles;
      if known {
        closed := closed + [handles[h].backend];
        if !refuses {
          handles := handles - {h};
        }
      }
    }

    /** The backend handles of all live handles, in some order. */
    method CollectHandles() returns (order: seq<int>, backends: seq<int>)
      ensures Listing(handles, order) && |order| == |handles|
      ensures backends == Backends(handles, order)
    {
      order, backends := [], [];
      var rest := handles.Keys;
      while |rest| > 0
        invariant rest <= handles.Keys && Listed(handles, order) && |order| + |rest| == |handles.Keys|
        invariant forall h :: h in handles <==> h in rest || h in order
        invariant forall h :: h in rest ==> h !in order
        invariant backends == Backends(handles, order)
        decreases |rest|
      {
        EmptyOrMember(rest);
        var h :| h in rest;
        BackendsStep(handles, order, h);
        order := order + [h];
        backends := backends + [handles[h].backend];
        rest := rest - {h};
      }
      SameSize(handles);
    }

    /** Closes every live handle once, releases every mount, and forgets the callbacks. */
    method CleanUp() returns (order: seq<int>)
      requires Valid()
      modifies this
      ensures Valid() && State() == CleanMounts(old(State())) && handles == map[] && next == FIRST_HANDLE
      ensures calls == old(calls) + [Clean]
      ensures Listing(old(handles), order) && |order| == |old(handles)|
      ensures closed == if old(table) != 0 then old(closed) + Backends(old(handles), order) else old(closed)
    {
      hide Inv, Listed;
      CleanupReleasesEverything(State(), 0, 1);
      var backends;
      order, backends := CollectHandles();
      LegalStep(calls, Clean);
      calls, handles := calls + [Clean], map[];
      if table != 0 {
        closed := closed + backends;
      }
      log := log + ReleaseAll(table, mounts);
      mounts, table, next := [], 0, FIRST_HANDLE;
    }
  }

  /** Live handles, none twice. */
  predicate Listed(handles: map<int, Handle>, order: seq<int>) {
    (forall i :: 0 <= i < |order| ==> order[i] in handles) &&
    forall i, j :: 0 <= i < j < |order| ==> order[i] != order[j]
  }

  /** Every live handle exactly once. */
  predicate Listing(handles: map<int, Handle>, order: seq<int>) {
    Listed(handles, order) && forall h :: h in handles ==> h in order
  }

  function Better(best: Option<Mount>, m: Mount, p: string): Option<Mount> {
    var length := if best.Some? then |best.value.path| else 0;
    if Matches(m, p) && |m.path| > length then Some(m) else best
  }

  lemma BestNothing(ms: seq<Mount>, p: string)
    ensures BestOf(ms, p, 0) == None
  {
  }

  lemma BestStep(ms: seq<Mount>, p: string, i: nat)
    requires i < |ms|
    ensures BestOf(ms, p, i + 1) == Better(BestOf(ms, p, i), ms[i], p)
  {
  }

  lemma InvPaths(s: Storage)
    requires Inv(s)
    ensures PathsDistinct(s.mounts) && PathsValid(s.mounts)
  {
  }

  lemma FirstIndex(ms: seq<Mount>, p: string, i: nat)
    requires i < |ms| && ms[i].path == p && forall j :: 0 <= j < i ==> ms[j].path != p
    ensures HasPath(ms, p) && IndexOf(ms, p) == i
  {
    assert HasPath(ms, p);
  }

  lemma SameSize(handles: map<int, Handle>)
    ensures |handles.Keys| == |handles|
  {
  }

  function Backends(handles: map<int, Handle>, order: seq<int>): (s: seq<int>)
    requires Listed(handles, order)
  {
    seq(|order|, i requires 0 <= i < |order| => handles[order[i]].backend)
  }

  lemma BackendsStep(handles: map<int, Handle>, order: seq<int>, h: int)
    requires Listed(handles, order) && h in handles && h !in order
    ensures Listed(handles, order + [h]) &&
            Backends(handles, order + [h]) == Backends(handles, order) + [handles[h].backend]
  {
  }
}
