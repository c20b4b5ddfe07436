/** Backup and restore: copy beside the destination, then commit by renames. */
module SaveCommit {
  import opened Wrappers
  import opened SaveStorage
  import opened SaveBackup

  /** The four trees of an operation; the last two are the ".tmp" and ".old" names of the destination. */
  datatype Names = Names(source: Path, destination: Path, temporary: Path, previous: Path)

  predicate AllApart(x: Names) {
    Apart(x.source, x.destination) && Apart(x.source, x.temporary) && Apart(x.source, x.previous) &&
    Apart(x.destination, x.temporary) && Apart(x.destination, x.previous) && Apart(x.temporary, x.previous)
  }

  /** `aside` tells whether the old tree was moved to ".old", `back` whether it was moved back. */
  datatype Outcome = Outcome(disk: Disk, ok: bool, aside: bool, back: bool)

  /** The copy beside the destination, after a cleanup of what was left there. */
  function Copying(w: World, d: Disk, x: Names): Copied
    requires AllApart(x)
  {
    CopyTree(w, CleanUp(w, d, x.temporary), x.source, x.temporary, 0, 0)
  }

  /** A status query that fails counts as an absent destination. */
  function HasDestination(w: World, d: Disk, x: Names): bool {
    !Fails(w, d) && x.destination in d.nodes
  }

  /** Nothing sits at ".old" any more, unless the cleanup failed. */
  function Cleared(w: World, d: Disk, x: Names): Disk {
    CleanUp(w, Look(d), x.previous)
  }

  function MoveAside(w: World, d: Disk, x: Names): (Disk, bool) {
    if HasDestination(w, d, x) then Rename(w, Cleared(w, d, x), x.destination, x.previous)
    else (Cleared(w, d, x), true)
  }

  function Place(w: World, d: Disk, x: Names): (Disk, bool) {
    var (e, ok) := MoveAside(w, d, x);
    if ok then Rename(w, e, x.temporary, x.destination) else (e, false)
  }

  function MoveBack(w: World, d: Disk, x: Names): (Disk, bool) {
    var e := Place(w, d, x).0;
    if HasDestination(w, d, x) then Rename(w, e, x.previous, x.destination) else (e, false)
  }

  /** The renames after a complete copy. */
  function Commit(w: World, d: Disk, x: Names): Outcome {
    var aside := HasDestination(w, d, x) && MoveAside(w, d, x).1;
    var (e, ok) := Place(w, d, x);
    if ok then Outcome(CleanUp(w, e, x.previous), true, aside, false)
    else
      var (f, back) := MoveBack(w, d, x);
      Outcome(CleanUp(w, f, x.temporary), false, aside, back)
  }

  /** Copies the source beside the destination and moves it there. */
  function Operate(w: World, d: Disk, x: Names): Outcome
    requires AllApart(x)
  {
    var r := Copying(w, d, x);
    if !r.ok then Outcome(CleanUp(w, r.disk, x.temporary), false, false, false) else Commit(w, r.disk, x)
  }

  // ---------- what a storage state holds ----------

  /** The tree to keep lies at `root` of storage `n`; the copy, if there is one, at the temporary name of `made`. */
  datatype Stake = Stake(n: Nodes, root: Path, copied: bool, made: Nodes)

  ghost predicate Holds(g: Stake, m: Nodes, p: Path) {
    SameTree(g.n, g.root, m, p)
  }

  ghost predicate Shows(g: Stake, x: Names, m: Nodes) {
    g.copied && SameTree(g.made, x.temporary, m, x.destination)
  }

  /** A complete old or new tree sits at the destination or at its ".old" name. */
  ghost predicate Protected(g: Stake, x: Names, m: Nodes) {
    Holds(g, m, x.destination) || Holds(g, m, x.previous) || Shows(g, x, m)
  }

  /** Every storage state from `d` to `e` is protected. */
  ghost predicate AllProtected(g: Stake, x: Names, d: Disk, e: Disk) {
    |d.steps| <= |e.steps| && e.steps[..|d.steps|] == d.steps &&
    forall k :: |d.steps| <= k < |e.steps| ==> Protected(g, x, e.steps[k])
  }

  lemma ProtectedTwice(g: Stake, x: Names, d: Disk, e: Disk, f: Disk)
    requires AllProtected(g, x, d, e) && AllProtected(g, x, e, f)
    ensures AllProtected(g, x, d, f)
  {
    hide Protected;
    assert f.steps[..|d.steps|] == f.steps[..|e.steps|][..|d.steps|];
    forall k | |d.steps| <= k < |f.steps| ensures Protected(g, x, f.steps[k]) {
      if k < |e.steps| {
        assert f.steps[..|e.steps|][k] == e.steps[k];
      }
    }
  }

  lemma TreeThrough(n: Nodes, p: Path, m: Nodes, q: Path, o: Nodes, r: Path)
    requires SameTree(n, p, m, q) && SameTree(m, q, o, r)
    ensures SameTree(n, p, o, r)
  {
    forall s: Path ensures At(n, p + s) == At(o, r + s) {
      assert At(n, p + s) == At(m, q + s);
      assert At(m, q + s) == At(o, r + s);
    }
  }

  /** Changes confined to a tree elsewhere keep what a path holds. */
  lemma ElsewhereHolds(n: Nodes, p: Path, m: Nodes, q: Path, o: Nodes, c: Path)
    requires SameTree(n, p, m, q) && SameOutside(m, o, c) && Apart(c, q)
    ensures SameTree(n, p, o, q)
  {
    hide SameTree, SameOutside, Apart;
    ApartTree(m, o, c, q);
    TreeThrough(n, p, m, q, o, q);
  }

  /** Work confined below the temporary name, or at ".old" while the destination holds a tree, protects every
      step. */
  lemma ConfinedProtects(g: Stake, x: Names, d: Disk, e: Disk, c: Path)
    requires AllApart(x) && Confined(d, e, c) && Protected(g, x, d.nodes)
    requires c == x.temporary ||
             (c == x.previous && (Holds(g, d.nodes, x.destination) || Shows(g, x, d.nodes)))
    ensures AllProtected(g, x, d, e) && Protected(g, x, e.nodes)
    ensures Holds(g, d.nodes, x.destination) ==> Holds(g, e.nodes, x.destination)
    ensures Shows(g, x, d.nodes) ==> Shows(g, x, e.nodes)
    ensures c == x.temporary && Holds(g, d.nodes, x.previous) ==> Holds(g, e.nodes, x.previous)
  {
    hide SameTree, SameOutside, Apart;
    ApartSym(x);
    StateProtected(g, x, d.nodes, e.nodes, c);
    forall k | |d.steps| <= k < |e.steps| ensures Protected(g, x, e.steps[k]) {
      StateProtected(g, x, d.nodes, e.steps[k], c);
    }
  }

  lemma ApartSym(x: Names)
    requires AllApart(x)
    ensures Apart(x.temporary, x.destination) && Apart(x.temporary, x.previous) && Apart(x.previous, x.destination)
    ensures Apart(x.temporary, x.source) && Apart(x.previous, x.source) && Apart(x.destination, x.source)
    ensures Apart(x.previous, x.temporary) && Apart(x.destination, x.previous)
  {
  }

  lemma StateProtected(g: Stake, x: Names, n: Nodes, m: Nodes, c: Path)
    requires AllApart(x) && SameOutside(n, m, c) && Protected(g, x, n)
    requires c == x.temporary || (c == x.previous && (Holds(g, n, x.destination) || Shows(g, x, n)))
    ensures Protected(g, x, m)
    ensures Holds(g, n, x.destination) ==> Holds(g, m, x.destination)
    ensures Shows(g, x, n) ==> Shows(g, x, m)
    ensures c == x.temporary && Holds(g, n, x.previous) ==> Holds(g, m, x.previous)
  {
    hide SameTree, SameOutside, Apart;
    ApartSym(x);
    if Holds(g, n, x.destination) {
      ElsewhereHolds(g.n, g.root, n, x.destination, m, c);
    }
    if Shows(g, x, n) {
      ElsewhereHolds(g.made, x.temporary, n, x.destination, m, c);
    }
    if c == x.temporary && Holds(g, n, x.previous) {
      ElsewhereHolds(g.n, g.root, n, x.previous, m, c);
    }
  }

  lemma SelfTree(n: Nodes, p: Path)
    ensures SameTree(n, p, n, p)
  {
  }

  /** Where a tree that is not empty sits, its root is. */
  lemma RootThere(n: Nodes, p: Path, m: Nodes, q: Path)
    requires SameTree(n, p, m, q)
    ensures p in n <==> q in m
  {
    assert p + [] == p && q + [] == q;
    assert At(n, p + []) == At(m, q + []);
  }

  // ---------- the copying phase ----------

  lemma CopyingConfined(w: World, d: Disk, x: Names)
    requires AllApart(x)
    ensures Confined(d, CleanUp(w, d, x.temporary), x.temporary)
    ensures Confined(d, Copying(w, d, x).disk, x.temporary)
    ensures Confined(d, CleanUp(w, Copying(w, d, x).disk, x.temporary), x.temporary)
  {
    hide Confined, CopyTree, CleanUp, Apart;
    var c := CleanUp(w, d, x.temporary);
    var r := Copying(w, d, x);
    CleanUpRemoves(w, d, x.temporary);
    CopyStaysBelow(w, c, x.source, x.temporary, 0, 0);
    ConfinedTwice(d, c, r.disk, x.temporary);
    CleanUpRemoves(w, r.disk, x.temporary);
    ConfinedTwice(d, r.disk, CleanUp(w, r.disk, x.temporary), x.temporary);
  }

  ghost function StakeOf(w: World, d: Disk, x: Names, root: Path): Stake
    requires AllApart(x)
  {
    Stake(d.nodes, root, Copying(w, d, x).ok, Copying(w, d, x).disk.nodes)
  }

  /** Until the copy is complete, what was at the destination and at ".old" stays. */
  lemma CopyingProtects(w: World, d: Disk, x: Names, root: Path)
    requires AllApart(x) && (root == x.destination || root == x.previous)
    ensures var g, r := StakeOf(w, d, x, root), Copying(w, d, x);
            && AllProtected(g, x, d, r.disk) && Holds(g, r.disk.nodes, root)
            && AllProtected(g, x, r.disk, CleanUp(w, r.disk, x.temporary))
            && Holds(g, CleanUp(w, r.disk, x.temporary).nodes, root)
  {
    hide Confined, Copying, CleanUp, SameTree, AllProtected, Apart;
    var g, r := StakeOf(w, d, x, root), Copying(w, d, x);
    CopyingConfined(w, d, x);
    SelfTree(d.nodes, root);
    ConfinedProtects(g, x, d, r.disk, x.temporary);
    CleanUpRemoves(w, r.disk, x.temporary);
    ConfinedProtects(g, x, r.disk, CleanUp(w, r.disk, x.temporary), x.temporary);
  }

  // ---------- the renames, onto an existing destination ----------

  /** One rename: either state is as good as the other. */
  lemma RenameProtects(w: World, g: Stake, x: Names, d: Disk, a: Path, b: Path)
    requires Protected(g, x, d.nodes) && Protected(g, x, Rename(w, d, a, b).0.nodes)
    ensures AllProtected(g, x, d, Rename(w, d, a, b).0)
  {
    hide Protected, Moved;
  }

  /** The old tree is at the destination, or at ".old" with nothing at the destination. */
  ghost predicate OldKept(g: Stake, x: Names, m: Nodes, aside: bool) {
    if aside then Holds(g, m, x.previous) && Nothing(m, x.destination) else Holds(g, m, x.destination)
  }

  lemma AsideProtects(w: World, d: Disk, x: Names, g: Stake)
    requires AllApart(x) && g.root == x.destination && g.root in g.n && Holds(g, d.nodes, x.destination)
    ensures var (e, ok) := MoveAside(w, d, x);
            && AllProtected(g, x, d, e)
            && OldKept(g, x, e.nodes, ok && HasDestination(w, d, x))
  {
    hide Rename, CleanUp, SameTree, AllProtected, Apart, Confined, Nothing;
    LookProtects(g, x, d);
    var e := Cleared(w, d, x);
    CleanUpRemoves(w, Look(d), x.previous);
    ConfinedProtects(g, x, Look(d), e, x.previous);
    ProtectedTwice(g, x, d, Look(d), e);
    if HasDestination(w, d, x) {
      RenameMoves(w, e, x.destination, x.previous);
      var (f, ok) := Rename(w, e, x.destination, x.previous);
      if ok {
        TreeThrough(g.n, g.root, e.nodes, x.destination, f.nodes, x.previous);
      }
      RenameProtects(w, g, x, e, x.destination, x.previous);
      ProtectedTwice(g, x, d, e, f);
    }
  }

  lemma LookProtects(g: Stake, x: Names, d: Disk)
    requires Protected(g, x, d.nodes)
    ensures AllProtected(g, x, d, Look(d))
  {
    hide Protected;
  }

  /** The copy is still complete at the temporary name. */
  lemma CopyStays(w: World, d: Disk, x: Names)
    requires AllApart(x)
    ensures SameTree(d.nodes, x.temporary, MoveAside(w, d, x).0.nodes, x.temporary)
  {
    hide Rename, CleanUp, SameTree, Apart, Confined, Nothing, SameOutside;
    ApartSym(x);
    var e := Cleared(w, d, x);
    CleanUpRemoves(w, Look(d), x.previous);
    ConfinedNow(Look(d), e, x.previous);
    ApartTree(d.nodes, e.nodes, x.previous, x.temporary);
    if HasDestination(w, d, x) {
      RenameElsewhere(w, e, x.destination, x.previous, x.temporary);
      TreeThrough(d.nodes, x.temporary, e.nodes, x.temporary, MoveAside(w, d, x).0.nodes, x.temporary);
    }
  }

  lemma ConfinedNow(d: Disk, e: Disk, p: Path)
    requires Confined(d, e, p)
    ensures SameOutside(d.nodes, e.nodes, p)
  {
  }

  /** A rename leaves trees that are apart from both names alone. */
  lemma RenameElsewhere(w: World, d: Disk, a: Path, b: Path, c: Path)
    requires Apart(a, c) && Apart(b, c)
    ensures SameTree(d.nodes, c, Rename(w, d, a, b).0.nodes, c)
  {
    RenameMoves(w, d, a, b);
    forall s: Path ensures At(d.nodes, c + s) == At(Rename(w, d, a, b).0.nodes, c + s) {
      ApartBelow(a, c, s);
      ApartBelow(b, c, s);
    }
  }

  lemma PlaceProtects(w: World, d: Disk, x: Names, g: Stake)
    requires AllApart(x) && g.root == x.destination && g.root in g.n && Holds(g, d.nodes, x.destination)
    requires g.copied && SameTree(g.made, x.temporary, d.nodes, x.temporary)
    ensures var (e, ok) := Place(w, d, x);
            && AllProtected(g, x, d, e)
            && (if ok then Shows(g, x, e.nodes) && Nothing(e.nodes, x.temporary)
                else OldKept(g, x, e.nodes, HasDestination(w, d, x) && MoveAside(w, d, x).1))
  {
    hide Rename, MoveAside, SameTree, AllProtected, Apart, Nothing;
    AsideProtects(w, d, x, g);
    CopyStays(w, d, x);
    var (e, ok) := MoveAside(w, d, x);
    if ok {
      TreeThrough(g.made, x.temporary, d.nodes, x.temporary, e.nodes, x.temporary);
      RenameMoves(w, e, x.temporary, x.destination);
      var (f, placed) := Rename(w, e, x.temporary, x.destination);
      if placed {
        TreeThrough(g.made, x.temporary, e.nodes, x.temporary, f.nodes, x.destination);
      }
      RenameProtects(w, g, x, e, x.temporary, x.destination);
      ProtectedTwice(g, x, d, e, f);
    }
  }

  lemma MoveBackProtects(w: World, d: Disk, x: Names, g: Stake)
    requires AllApart(x) && g.root == x.destination && g.root in g.n && Holds(g, d.nodes, x.destination)
    requires g.copied && SameTree(g.made, x.temporary, d.nodes, x.temporary) && !Place(w, d, x).1
    ensures var (e, back) := MoveBack(w, d, x);
            var aside := HasDestination(w, d, x) && MoveAside(w, d, x).1;
            && AllProtected(g, x, d, e) && (back ==> aside)
            && OldKept(g, x, e.nodes, aside && !back)
  {
    hide Rename, MoveAside, Place, SameTree, AllProtected, Apart, Nothing;
    PlaceProtects(w, d, x, g);
    var e := Place(w, d, x).0;
    var aside := HasDestination(w, d, x) && MoveAside(w, d, x).1;
    if HasDestination(w, d, x) {
      RenameMoves(w, e, x.previous, x.destination);
      var (f, back) := Rename(w, e, x.previous, x.destination);
      if !aside {
        RootThere(g.n, g.root, e.nodes, x.destination);
        RefusedOnto(w, e, x.previous, x.destination);
      } else if back {
        TreeThrough(g.n, g.root, e.nodes, x.previous, f.nodes, x.destination);
      }
      RenameProtects(w, g, x, e, x.previous, x.destination);
      ProtectedTwice(g, x, d, e, f);
    }
  }

  lemma RefusedOnto(w: World, d: Disk, a: Path, b: Path)
    requires b in d.nodes
    ensures !Rename(w, d, a, b).1
  {
  }

  lemma OldKeptProtected(g: Stake, x: Names, m: Nodes, aside: bool)
    requires OldKept(g, x, m, aside)
    ensures Protected(g, x, m)
  {
  }

  lemma CommitProtects(w: World, d: Disk, x: Names, g: Stake)
    requires AllApart(x) && g.root == x.destination && g.root in g.n && Holds(g, d.nodes, x.destination)
    requires g.copied && SameTree(g.made, x.temporary, d.nodes, x.temporary)
    ensures var o := Commit(w, d, x);
            && AllProtected(g, x, d, o.disk)
            && (if o.ok then Shows(g, x, o.disk.nodes) && Nothing(o.disk.nodes, x.temporary)
                else OldKept(g, x, o.disk.nodes, o.aside && !o.back))
  {
    hide Place, MoveBack, MoveAside, CleanUp, Confined, SameTree, AllProtected, Apart, Nothing, HasDestination;
    PlaceProtects(w, d, x, g);
    var (e, ok) := Place(w, d, x);
    if ok {
      CleanUpRemoves(w, e, x.previous);
      ConfinedProtects(g, x, e, CleanUp(w, e, x.previous), x.previous);
      ProtectedTwice(g, x, d, e, CleanUp(w, e, x.previous));
      ApartSym(x);
      NothingStays(e, CleanUp(w, e, x.previous), x.previous, x.temporary);
    } else {
      MoveBackProtects(w, d, x, g);
      var (f, back) := MoveBack(w, d, x);
      var aside := HasDestination(w, d, x) && MoveAside(w, d, x).1;
      OldKeptProtected(g, x, f.nodes, aside && !back);
      CleanUpRemoves(w, f, x.temporary);
      ConfinedProtects(g, x, f, CleanUp(w, f, x.temporary), x.temporary);
      ProtectedTwice(g, x, d, f, CleanUp(w, f, x.temporary));
      ApartSym(x);
      if aside && !back {
        NothingStays(f, CleanUp(w, f, x.temporary), x.temporary, x.destination);
      }
    }
  }

  lemma NothingStays(d: Disk, e: Disk, c: Path, p: Path)
    requires Confined(d, e, c) && Apart(c, p) && Nothing(d.nodes, p)
    ensures Nothing(e.nodes, p)
  {
    ApartTree(d.nodes, e.nodes, c, p);
    forall s: Path ensures At(e.nodes, p + s) == None {
      assert At(d.nodes, p + s) == At(e.nodes, p + s);
    }
  }

  /** Onto an existing destination, whatever fails: at every storage state a complete old or new tree sits at the
      destination or at ".old". Success leaves the new tree at the destination and nothing at the temporary name;
      failure leaves the old tree at the destination, unless it was moved aside and could not be moved back, and
      then it is intact at ".old". */
  lemma EveryStepIsProtected(w: World, d: Disk, x: Names)
    requires AllApart(x) && x.destination in d.nodes
    ensures var g, o := StakeOf(w, d, x, x.destination), Operate(w, d, x);
            && AllProtected(g, x, d, o.disk)
            && (if o.ok then Shows(g, x, o.disk.nodes) && Nothing(o.disk.nodes, x.temporary)
                else OldKept(g, x, o.disk.nodes, o.aside && !o.back))
  {
    hide Copying, Commit, CleanUp, SameTree, AllProtected, Apart, Nothing;
    var g, r := StakeOf(w, d, x, x.destination), Copying(w, d, x);
    CopyingProtects(w, d, x, x.destination);
    if r.ok {
      SelfTree(r.disk.nodes, x.temporary);
      CommitProtects(w, r.disk, x, g);
      ProtectedTwice(g, x, d, r.disk, Commit(w, r.disk, x).disk);
    } else {
      ProtectedTwice(g, x, d, r.disk, CleanUp(w, r.disk, x.temporary));
    }
  }

  // ---------- success ----------

  /** A rename onto the destination that succeeds brings the copy there. */
  lemma PlaceShows(w: World, d: Disk, x: Names)
    requires AllApart(x) && Place(w, d, x).1
    ensures SameTree(d.nodes, x.temporary, Place(w, d, x).0.nodes, x.destination)
    ensures Nothing(Place(w, d, x).0.nodes, x.temporary)
  {
    hide Rename, MoveAside, SameTree, Apart, Nothing;
    CopyStays(w, d, x);
    var e := MoveAside(w, d, x).0;
    RenameMoves(w, e, x.temporary, x.destination);
    TreeThrough(d.nodes, x.temporary, e.nodes, x.temporary, Place(w, d, x).0.nodes, x.destination);
  }

  lemma SuccessShows(w: World, d: Disk, x: Names)
    requires AllApart(x) && Operate(w, d, x).ok
    ensures var o, r := Operate(w, d, x), Copying(w, d, x);
            && r.ok && SameTree(r.disk.nodes, x.temporary, o.disk.nodes, x.destination)
            && Nothing(o.disk.nodes, x.temporary)
            && (!Fails(w, Place(w, r.disk, x).0) ==> Nothing(o.disk.nodes, x.previous))
  {
    hide Copying, Place, CleanUp, SameTree, Apart, Nothing, Confined, SameOutside;
    var r := Copying(w, d, x);
    PlaceShows(w, r.disk, x);
    var e := Place(w, r.disk, x).0;
    var f := CleanUp(w, e, x.previous);
    CleanUpRemoves(w, e, x.previous);
    ConfinedNow(e, f, x.previous);
    ApartSym(x);
    ElsewhereHolds(r.disk.nodes, x.temporary, e.nodes, x.destination, f.nodes, x.previous);
    NothingStays(e, f, x.previous, x.temporary);
  }

  /** After an operation that succeeds the destination shows exactly the tree of the source as it was at the start, if
      and only if the source covers what the first cleanup left at the temporary name, and so whenever that
      cleanup worked. */
  lemma SuccessCopiesTheSource(w: World, d: Disk, x: Names)
    requires AllApart(x) && Sound(w, d.nodes, x.source) && Operate(w, d, x).ok
    ensures var o := Operate(w, d, x);
            && (Mirrors(d.nodes, x.source, o.disk.nodes, x.destination) <==>
                  Covered(d.nodes, x.source, CleanUp(w, d, x.temporary).nodes, x.temporary))
            && (!Fails(w, d) ==> Mirrors(d.nodes, x.source, o.disk.nodes, x.destination))
            && SizeAt(w, d.nodes, x.source, 0) <= MAX_TOTAL && Shallow(d.nodes, x.source, 0)
  {
    hide Operate, CopyTree, CleanUp, SameTree, Sound, Apart, Nothing, Confined, SameOutside, Merges, Covered, Shallow;
    var o, r, c := Operate(w, d, x), Copying(w, d, x), CleanUp(w, d, x.temporary);
    SuccessShows(w, d, x);
    CleanUpRemoves(w, d, x.temporary);
    ConfinedNow(d, c, x.temporary);
    ApartSym(x);
    ApartTree(d.nodes, c.nodes, x.temporary, x.source);
    CopyMerges(w, d.nodes, c, x.source, x.temporary, 0, 0);
    MergedMirrors(d.nodes, x.source, c.nodes, x.temporary, r.disk.nodes, 0);
    NothingIsCovered(d.nodes, x.source, c.nodes, x.temporary);
    MirrorsMoved(d.nodes, x.source, r.disk.nodes, x.temporary, o.disk.nodes, x.destination);
  }

  lemma MirrorsMoved(n: Nodes, p: Path, m: Nodes, q: Path, o: Nodes, r: Path)
    requires SameTree(m, q, o, r)
    ensures Mirrors(n, p, m, q) <==> Mirrors(n, p, o, r)
  {
    hide SameTree;
    if Mirrors(n, p, m, q) {
      TreeThrough(n, p, m, q, o, r);
    }
    if Mirrors(n, p, o, r) {
      TreeBack(m, q, o, r);
      TreeThrough(n, p, o, r, m, q);
    }
  }

  lemma TreeBack(n: Nodes, p: Path, m: Nodes, q: Path)
    requires SameTree(n, p, m, q)
    ensures SameTree(m, q, n, p)
  {
    forall s: Path ensures At(m, q + s) == At(n, p + s) {
      assert At(n, p + s) == At(m, q + s);
    }
  }

  // ---------- when only the ".old" tree is left ----------

  /** The cleanup of ".old" removes nothing. */
  predicate PreviousSurvives(w: World, d: Disk, x: Names) {
    Cleared(w, d, x).nodes == d.nodes
  }

  lemma EmptyDestination(w: World, d: Disk, x: Names)
    requires Nothing(d.nodes, x.destination)
    ensures x.destination !in d.nodes && !HasDestination(w, d, x)
  {
    assert x.destination + [] == x.destination;
    assert At(d.nodes, x.destination + []) == None;
  }

  /** A cleanup that removes nothing changes nothing on the way. */
  lemma SurvivingSteps(w: World, d: Disk, p: Path)
    requires CleanUp(w, d, p).nodes == d.nodes && p in d.nodes
    ensures CleanUp(w, d, p) == Next(d, d.nodes)
  {
    CleanUpRemoves(w, d, p);
    RootIsSomething(d.nodes, p);
  }

  lemma RootIsSomething(n: Nodes, p: Path)
    requires p in n
    ensures !Nothing(n, p)
  {
    assert p + [] == p;
    assert At(n, p + []) != None;
  }

  lemma SurvivorProtects(w: World, d: Disk, x: Names, g: Stake)
    requires AllApart(x) && g.root == x.previous && g.root in g.n && Holds(g, d.nodes, x.previous)
    requires Nothing(d.nodes, x.destination) && PreviousSurvives(w, d, x)
    requires g.copied && SameTree(g.made, x.temporary, d.nodes, x.temporary)
    ensures AllProtected(g, x, d, Commit(w, d, x).disk)
  {
    hide Rename, CleanUp, SameTree, AllProtected, Apart, Nothing, Confined, HasDestination;
    EmptyDestination(w, d, x);
    RootThere(g.n, g.root, d.nodes, x.previous);
    LookProtects(g, x, d);
    SurvivingSteps(w, Look(d), x.previous);
    var e := Cleared(w, d, x);
    LookProtects(g, x, Look(d));
    ProtectedTwice(g, x, d, Look(d), e);
    RenameMoves(w, e, x.temporary, x.destination);
    var (f, placed) := Rename(w, e, x.temporary, x.destination);
    assert Place(w, d, x) == (f, placed) && (!placed ==> MoveBack(w, d, x) == (f, false));
    if placed {
      TreeThrough(g.made, x.temporary, e.nodes, x.temporary, f.nodes, x.destination);
    }
    RenameProtects(w, g, x, e, x.temporary, x.destination);
    ProtectedTwice(g, x, d, e, f);
    var c := if placed then x.previous else x.temporary;
    CleanUpRemoves(w, f, c);
    ConfinedProtects(g, x, f, CleanUp(w, f, c), c);
    ProtectedTwice(g, x, d, f, CleanUp(w, f, c));
  }

  /** The steps of `e` go on from those of `d`. */
  predicate GoesOn(d: Disk, e: Disk) {
    |d.steps| <= |e.steps| && e.steps[..|d.steps|] == d.steps
  }

  lemma GoesOnTwice(d: Disk, e: Disk, f: Disk)
    requires GoesOn(d, e) && GoesOn(e, f)
    ensures GoesOn(d, f)
  {
    assert f.steps[..|d.steps|] == f.steps[..|e.steps|][..|d.steps|];
  }

  lemma RenameGoesOn(w: World, d: Disk, a: Path, b: Path)
    ensures GoesOn(d, Rename(w, d, a, b).0)
  {
    hide Moved;
  }

  lemma CleanUpGoesOn(w: World, d: Disk, p: Path)
    ensures GoesOn(d, CleanUp(w, d, p))
    ensures var e := CleanUp(w, d, p); |e.steps| > |d.steps| && e.steps[|e.steps| - 1] == e.nodes
  {
    hide Remains;
  }

  lemma CommitGoesOn(w: World, d: Disk, x: Names)
    ensures GoesOn(d, Cleared(w, d, x)) && GoesOn(Cleared(w, d, x), Commit(w, d, x).disk)
    ensures var e := Cleared(w, d, x); |e.steps| > |d.steps| && e.steps[|e.steps| - 1] == e.nodes
  {
    hide GoesOn, Rename, CleanUp, HasDestination;
    assert GoesOn(d, Look(d)) by {
      LookGoesOn(d);
    }
    CleanUpGoesOn(w, Look(d), x.previous);
    var c := Cleared(w, d, x);
    GoesOnTwice(d, Look(d), c);
    RenameGoesOn(w, c, x.destination, x.previous);
    SameGoesOn(c);
    var e, f := MoveAside(w, d, x).0, Place(w, d, x).0;
    RenameGoesOn(w, e, x.temporary, x.destination);
    SameGoesOn(e);
    GoesOnTwice(c, e, f);
    RenameGoesOn(w, f, x.previous, x.destination);
    SameGoesOn(f);
    var h := MoveBack(w, d, x).0;
    GoesOnTwice(c, f, h);
    CleanUpGoesOn(w, h, x.temporary);
    CleanUpGoesOn(w, f, x.previous);
    GoesOnTwice(c, h, CleanUp(w, h, x.temporary));
    GoesOnTwice(c, f, CleanUp(w, f, x.previous));
  }

  lemma LookGoesOn(d: Disk)
    ensures GoesOn(d, Look(d))
  {
  }

  lemma SameGoesOn(d: Disk)
    ensures GoesOn(d, d)
  {
  }

  /** When the removal of ".old" took something, no complete tree is left after it. */
  lemma RemovalUnprotects(w: World, d: Disk, x: Names, g: Stake)
    requires AllApart(x) && g.root == x.previous && g.root in g.n && Holds(g, d.nodes, x.previous)
    requires Nothing(d.nodes, x.destination) && !PreviousSurvives(w, d, x)
    requires g.copied && x.temporary in g.made
    ensures !AllProtected(g, x, d, Commit(w, d, x).disk)
  {
    hide Commit, CleanUp, SameTree, Apart, Confined, SameOutside;
    var e := Cleared(w, d, x);
    CommitGoesOn(w, d, x);
    CleanUpRemoves(w, Look(d), x.previous);
    ConfinedNow(Look(d), e, x.previous);
    ApartSym(x);
    NothingStays(Look(d), e, x.previous, x.destination);
    EmptyDestination(w, e, x);
    if Holds(g, e.nodes, x.destination) {
      RootThere(g.n, g.root, e.nodes, x.destination);
    }
    if Shows(g, x, e.nodes) {
      RootThere(g.made, x.temporary, e.nodes, x.destination);
    }
    if Holds(g, e.nodes, x.previous) {
      SameAgain(g, d.nodes, e.nodes, x.previous);
    }
    assert !Protected(g, x, e.nodes);
    assert Commit(w, d, x).disk.steps[..|e.steps|][|e.steps| - 1] == e.nodes;
  }

  lemma SameAgain(g: Stake, n: Nodes, m: Nodes, p: Path)
    requires Holds(g, n, p) && Holds(g, m, p) && SameOutside(n, m, p)
    ensures n == m
  {
    forall q: Path ensures At(n, q) == At(m, q) {
      if Under(p, q) {
        UnderSplit(p, q);
        assert At(g.n, g.root + q[|p|..]) == At(n, p + q[|p|..]);
        assert At(g.n, g.root + q[|p|..]) == At(m, p + q[|p|..]);
      }
    }
    SameEverywhere(n, m);
  }

  lemma CopyLeavesRoot(w: World, d: Disk, x: Names)
    requires AllApart(x) && Copying(w, d, x).ok
    ensures x.temporary in Copying(w, d, x).disk.nodes
  {
    hide CopyEntries, Mkdir, CleanUp, Apart;
    var c := CleanUp(w, d, x.temporary);
    var e := Mkdir(w, c, x.temporary).0;
    MkdirMakes(w, c, x.temporary);
    EntriesKeepFolder(w, Look(e), x.source, x.temporary, 0, 0, 0);
  }

  lemma MkdirMakes(w: World, d: Disk, p: Path)
    ensures Mkdir(w, d, p).1 ==> p in Mkdir(w, d, p).0.nodes
  {
  }

  lemma {:induction false} EntriesKeepFolder(w: World, d: Disk, source: Path, target: Path, i: nat, depth: nat,
                                             total: nat)
    requires Apart(source, target) && depth <= MAX_DEPTH && i <= |w.list(source)| && target in d.nodes
    ensures target in CopyEntries(w, d, source, target, i, depth, total).disk.nodes
    decreases |w.list(source)| - i
  {
    hide CopyEntry, Under, Confined;
    if !Fails(w, d) && i < |w.list(source)| {
      var e, l := Look(d), w.list(source)[i];
      var r := CopyEntry(w, e, source, target, l, depth, total);
      EntryStaysBelow(w, e, source, target, l, depth, total);
      ConfinedNow(e, r.disk, target + [l.name]);
      OtherChild(target, l.name, l.name + "x", []);
      assert At(r.disk.nodes, target) == At(e.nodes, target);
      if r.ok {
        EntriesKeepFolder(w, r.disk, source, target, i + 1, depth, r.total);
      }
    }
  }

  /** With a complete tree at the destination, or only at ".old": every step is protected if and only if it is at the
      destination, or the copy fails, or the cleanup of ".old" removes nothing. */
  lemma ProtectedExactly(w: World, d: Disk, x: Names, root: Path)
    requires AllApart(x) && root in d.nodes
    requires root == x.destination || (root == x.previous && Nothing(d.nodes, x.destination))
    ensures var r := Copying(w, d, x);
            AllProtected(StakeOf(w, d, x, root), x, d, Operate(w, d, x).disk) <==>
              x.destination in d.nodes || !r.ok || PreviousSurvives(w, r.disk, x)
  {
    hide Copying, Commit, CleanUp, SameTree, AllProtected, Apart, Nothing, PreviousSurvives, Confined;
    var g, r := StakeOf(w, d, x, root), Copying(w, d, x);
    if root == x.destination {
      EveryStepIsProtected(w, d, x);
    } else {
      EmptyDestination(w, d, x);
      CopyingProtects(w, d, x, root);
      CopyingConfined(w, d, x);
      ApartSym(x);
      NothingStays(d, r.disk, x.temporary, x.destination);
      if !r.ok {
        ProtectedTwice(g, x, d, r.disk, CleanUp(w, r.disk, x.temporary));
      } else {
        SelfTree(r.disk.nodes, x.temporary);
        var o := Commit(w, r.disk, x);
        if PreviousSurvives(w, r.disk, x) {
          SurvivorProtects(w, r.disk, x, g);
          ProtectedTwice(g, x, d, r.disk, o.disk);
        } else {
          CopyLeavesRoot(w, d, x);
          RemovalUnprotects(w, r.disk, x, g);
          CommitGoesOn(w, r.disk, x);
          GoesOnTwice(r.disk, Cleared(w, r.disk, x), o.disk);
          StepsSuffice(g, x, d, r.disk, o.disk);
        }
      }
    }
  }

  /** Steps that are protected from the start are protected from any later point. */
  lemma StepsSuffice(g: Stake, x: Names, d: Disk, e: Disk, f: Disk)
    requires AllProtected(g, x, d, e) && !AllProtected(g, x, e, f)
    requires GoesOn(e, f)
    ensures !AllProtected(g, x, d, f)
  {
    hide Protected;
  }

  /** No operation fails, and the source folder is empty. */
  const CALM: World := World((n: nat) => false, (p: Path) => [], (n: nat) => {}, (n: nat) => 0)

  const NAMES: Names := Names(["save"], ["copy"], ["copy.tmp"], ["copy.old"])

  const OLD_ONLY: Disk := Disk(map[[] := Folder, ["save"] := Folder, ["copy.old"] := Folder], [])

  lemma NamesApart()
    ensures AllApart(NAMES) && NAMES.previous in OLD_ONLY.nodes && Nothing(OLD_ONLY.nodes, NAMES.destination)
  {
    SinglesApart("save", "copy");
    SinglesApart("save", "copy.tmp");
    SinglesApart("save", "copy.old");
    SinglesApart("copy", "copy.tmp");
    SinglesApart("copy", "copy.old");
    SinglesApart("copy.tmp", "copy.old");
    forall s: Path ensures At(OLD_ONLY.nodes, NAMES.destination + s) == None {
      assert (NAMES.destination + s)[0] == "copy";
    }
  }

  lemma SinglesApart(a: string, b: string)
    requires a != b
    ensures Apart([a], [b])
  {
    assert [b][..1] == [b] && [a][..1] == [a];
    assert [a][0] != [b][0];
  }

  lemma CalmCleanUp(d: Disk, p: Path)
    ensures Nothing(CleanUp(CALM, d, p).nodes, p) && SameOutside(d.nodes, CleanUp(CALM, d, p).nodes, p)
  {
    CleanUpRemoves(CALM, d, p);
  }

  lemma EmptyCopySucceeds(d: Disk)
    requires AllApart(NAMES) && IsFolder(d.nodes, []) && IsFolder(d.nodes, NAMES.source)
    ensures Copying(CALM, d, NAMES).ok
  {
    hide CleanUp;
    var c := CleanUp(CALM, d, NAMES.temporary);
    CalmCleanUp(d, NAMES.temporary);
    assert At(c.nodes, []) == At(d.nodes, []) && At(c.nodes, NAMES.source) == At(d.nodes, NAMES.source);
    var e := Mkdir(CALM, c, NAMES.temporary).0;
    assert IsFolder(e.nodes, NAMES.source);
  }

  /** When only the ".old" tree is left, as after an interruption between the two renames, an operation in which
      nothing fails passes a state without a complete tree. */
  lemma OldTreeAloneIsUnprotected()
    ensures AllApart(NAMES) && NAMES.previous in OLD_ONLY.nodes
    ensures !AllProtected(StakeOf(CALM, OLD_ONLY, NAMES, NAMES.previous), NAMES, OLD_ONLY,
                          Operate(CALM, OLD_ONLY, NAMES).disk)
  {
    hide Copying, Commit, CleanUp, SameTree, AllProtected, Apart, Nothing, Confined, SameOutside;
    NamesApart();
    EmptyCopySucceeds(OLD_ONLY);
    CopyingConfined(CALM, OLD_ONLY, NAMES);
    var r := Copying(CALM, OLD_ONLY, NAMES).disk;
    ConfinedNow(OLD_ONLY, r, NAMES.temporary);
    ApartSym(NAMES);
    ApartTree(OLD_ONLY.nodes, r.nodes, NAMES.temporary, NAMES.previous);
    RootThere(OLD_ONLY.nodes, NAMES.previous, r.nodes, NAMES.previous);
    CalmCleanUp(Look(r), NAMES.previous);
    RootIsSomething(r.nodes, NAMES.previous);
    EmptyDestination(CALM, OLD_ONLY, NAMES);
    ProtectedExactly(CALM, OLD_ONLY, NAMES, NAMES.previous);
  }

  // ---------- when the first cleanup fails ----------

  /** Only the first operation fails, and it removes nothing. */
  const SLOPPY: World :=
    World((n: nat) => n == 0, (p: Path) => [], (n: nat) => {["copy.tmp"], ["copy.tmp", "x"]}, (n: nat) => 0)

  /** An empty source, and a file that an earlier operation left below the temporary name. */
  const LEFTOVER: Disk :=
    Disk(map[[] := Folder, ["save"] := Folder, ["copy.tmp"] := Folder, ["copy.tmp", "x"] := File([])], [])

  lemma LeftoverStays()
    ensures var c := CleanUp(SLOPPY, LEFTOVER, NAMES.temporary);
            c.nodes == LEFTOVER.nodes && |c.steps| == 1
  {
    var keeps := {["copy.tmp"], ["copy.tmp", "x"]};
    var q := ["copy.tmp", "x"];
    assert q[..1] == ["copy.tmp"] && q[..2] == q && ["copy.tmp"][..1] == ["copy.tmp"];
    assert Kept(keeps, NAMES.temporary, q) && Kept(keeps, NAMES.temporary, NAMES.temporary);
    SinglesApart("save", "copy.tmp");
    assert !Under(NAMES.temporary, []) && !Under(NAMES.temporary, ["save"]);
    assert Remains(LEFTOVER.nodes, keeps, NAMES.temporary) == LEFTOVER.nodes;
  }

  /** The copy finds its folder made and nothing to copy. */
  lemma LeftoverCopies()
    ensures AllApart(NAMES)
    ensures var r := Copying(SLOPPY, LEFTOVER, NAMES);
            r.ok && r.disk.nodes == LEFTOVER.nodes && |r.disk.steps| > 0
  {
    hide CleanUp;
    NamesApart();
    LeftoverStays();
    var c := CleanUp(SLOPPY, LEFTOVER, NAMES.temporary);
    assert Mkdir(SLOPPY, c, NAMES.temporary) == (Look(c), true);
  }

  lemma LeftoverCommits(d: Disk)
    requires d.nodes == LEFTOVER.nodes && |d.steps| > 0 && AllApart(NAMES)
    ensures Commit(SLOPPY, d, NAMES).ok
  {
    hide CleanUp, Moved, Under;
    assert !HasDestination(SLOPPY, d, NAMES);
    var e := Cleared(SLOPPY, d, NAMES);
    CleanUpGoesOn(SLOPPY, Look(d), NAMES.previous);
    CleanUpRemoves(SLOPPY, Look(d), NAMES.previous);
    ConfinedNow(Look(d), e, NAMES.previous);
    RootIsApart();
    ApartSym(NAMES);
    assert At(e.nodes, []) == At(d.nodes, []) && At(e.nodes, NAMES.temporary) == At(d.nodes, NAMES.temporary);
    assert At(e.nodes, NAMES.destination) == At(d.nodes, NAMES.destination);
    assert Parent(NAMES.destination) == [];
  }

  lemma RootIsApart()
    ensures !Under(NAMES.previous, []) && !Under(NAMES.previous, NAMES.temporary)
    ensures !Under(NAMES.previous, NAMES.destination)
  {
    NamesApart();
  }

  lemma EmptySourceIsSound(n: Nodes)
    requires n == LEFTOVER.nodes
    ensures Sound(SLOPPY, n, NAMES.source) && NAMES.source + ["x"] !in n
  {
    forall s: Path, name: string ensures NAMES.source + (s + [name]) !in n {
      assert (NAMES.source + (s + [name]))[0] == "save";
      assert |NAMES.source + (s + [name])| >= 2;
    }
    forall s: Path | IsFolder(n, NAMES.source + s) ensures ListsFolder(SLOPPY, n, NAMES.source + s) {
      forall name: string ensures NAMES.source + s + [name] !in n {
        assert NAMES.source + s + [name] == NAMES.source + (s + [name]);
      }
    }
    assert NAMES.source + ["x"] == NAMES.source + ([] + ["x"]);
  }

  /** When the first cleanup fails, an operation can succeed and leave at the destination what is not in the source. */
  lemma LeftoversReachTheDestination()
    ensures AllApart(NAMES) && Operate(SLOPPY, LEFTOVER, NAMES).ok
    ensures !Mirrors(LEFTOVER.nodes, NAMES.source, Operate(SLOPPY, LEFTOVER, NAMES).disk.nodes, NAMES.destination)
  {
    hide Copying, Commit, CleanUp, Sound, Mirrors;
    LeftoverCopies();
    LeftoverCommits(Copying(SLOPPY, LEFTOVER, NAMES).disk);
    EmptySourceIsSound(LEFTOVER.nodes);
    LeftoverStays();
    SuccessCopiesTheSource(SLOPPY, LEFTOVER, NAMES);
    assert NAMES.temporary + ["x"] == ["copy.tmp", "x"];
    assert !Covered(LEFTOVER.nodes, NAMES.source, LEFTOVER.nodes, NAMES.temporary);
  }

  // ---------- how it ends ----------

  /** Onto an empty destination a failure leaves it empty. */
  lemma EmptyFailure(w: World, d: Disk, x: Names)
    requires AllApart(x) && Nothing(d.nodes, x.destination) && !Operate(w, d, x).ok
    ensures Nothing(Operate(w, d, x).disk.nodes, x.destination) && !Operate(w, d, x).aside
  {
    hide Copying, CleanUp, SameTree, Apart, Nothing, Confined, HasDestination;
    var r := Copying(w, d, x);
    ApartSym(x);
    CopyingConfined(w, d, x);
    NothingStays(d, r.disk, x.temporary, x.destination);
    NothingStays(d, CleanUp(w, r.disk, x.temporary), x.temporary, x.destination);
    if r.ok {
      EmptyDestination(w, r.disk, x);
      var e := Cleared(w, r.disk, x);
      CleanUpRemoves(w, Look(r.disk), x.previous);
      NothingStays(Look(r.disk), e, x.previous, x.destination);
      RenameMoves(w, e, x.temporary, x.destination);
      var f := Rename(w, e, x.temporary, x.destination).0;
      CleanUpRemoves(w, f, x.temporary);
      NothingStays(f, CleanUp(w, f, x.temporary), x.temporary, x.destination);
    }
  }

  /** Success leaves exactly the copy at the destination, nothing at the temporary name, and nothing at ".old" unless
      the last cleanup failed; failure leaves the destination as it was exactly unless the old tree was moved aside
      and could not be moved back, and then it is at ".old". */
  lemma CommitIsAllOrNothing(w: World, d: Disk, x: Names)
    requires AllApart(x) && (x.destination in d.nodes || Nothing(d.nodes, x.destination))
    ensures var o, r := Operate(w, d, x), Copying(w, d, x);
            && (o.ok ==> r.ok && SameTree(r.disk.nodes, x.temporary, o.disk.nodes, x.destination) &&
                         Nothing(o.disk.nodes, x.temporary) &&
                         (!Fails(w, Place(w, r.disk, x).0) ==> Nothing(o.disk.nodes, x.previous)))
            && (!o.ok ==> (SameTree(d.nodes, x.destination, o.disk.nodes, x.destination) <==>
                             !(o.aside && !o.back)))
            && (!o.ok && o.aside && !o.back ==> SameTree(d.nodes, x.destination, o.disk.nodes, x.previous))
  {
    hide Copying, Commit, CleanUp, SameTree, AllProtected, Apart, Nothing;
    var o := Operate(w, d, x);
    if o.ok {
      SuccessShows(w, d, x);
    } else if x.destination in d.nodes {
      EveryStepIsProtected(w, d, x);
      if o.aside && !o.back {
        NotEmpty(d.nodes, x.destination, o.disk.nodes, x.destination);
      }
    } else {
      EmptyFailure(w, d, x);
      BothEmpty(d.nodes, x.destination, o.disk.nodes, x.destination);
    }
  }

  lemma NotEmpty(n: Nodes, p: Path, m: Nodes, q: Path)
    requires p in n && Nothing(m, q)
    ensures !SameTree(n, p, m, q)
  {
    assert p + [] == p;
    assert At(n, p + []) != None && At(m, q + []) == None;
  }

  lemma BothEmpty(n: Nodes, p: Path, m: Nodes, q: Path)
    requires Nothing(n, p) && Nothing(m, q)
    ensures SameTree(n, p, m, q)
  {
    forall s: Path ensures At(n, p + s) == At(m, q + s) {
      assert At(n, p + s) == None && At(m, q + s) == None;
    }
  }

  // ---------- other trees ----------

  /** Every storage state from `d` to `e` has the same tree at `p`. */
  ghost predicate TreeKept(d: Disk, e: Disk, p: Path) {
    |d.steps| <= |e.steps| && e.steps[..|d.steps|] == d.steps && SameTree(d.nodes, p, e.nodes, p) &&
    forall k :: |d.steps| <= k < |e.steps| ==> SameTree(d.nodes, p, e.steps[k], p)
  }

  lemma KeptTwice(d: Disk, e: Disk, f: Disk, p: Path)
    requires TreeKept(d, e, p) && TreeKept(e, f, p)
    ensures TreeKept(d, f, p)
  {
    hide SameTree;
    TreeThrough(d.nodes, p, e.nodes, p, f.nodes, p);
    assert f.steps[..|d.steps|] == f.steps[..|e.steps|][..|d.steps|];
    forall k | |d.steps| <= k < |f.steps| ensures SameTree(d.nodes, p, f.steps[k], p) {
      if k < |e.steps| {
        assert f.steps[..|e.steps|][k] == e.steps[k];
      } else {
        TreeThrough(d.nodes, p, e.nodes, p, f.steps[k], p);
      }
    }
  }

  lemma ConfinedKeeps(d: Disk, e: Disk, c: Path, p: Path)
    requires Confined(d, e, c) && Apart(c, p)
    ensures TreeKept(d, e, p)
  {
    hide SameOutside, SameTree, Apart;
    ApartTree(d.nodes, e.nodes, c, p);
    forall k | |d.steps| <= k < |e.steps| ensures SameTree(d.nodes, p, e.steps[k], p) {
      ApartTree(d.nodes, e.steps[k], c, p);
    }
  }

  lemma CleanUpKeeps(w: World, d: Disk, c: Path, p: Path)
    requires Apart(c, p)
    ensures TreeKept(d, CleanUp(w, d, c), p)
  {
    hide Confined, TreeKept, CleanUp, Apart;
    CleanUpRemoves(w, d, c);
    ConfinedKeeps(d, CleanUp(w, d, c), c, p);
  }

  lemma LookKeeps(d: Disk, p: Path)
    ensures TreeKept(d, Look(d), p)
  {
    SelfTree(d.nodes, p);
  }

  lemma RenameKeeps(w: World, d: Disk, a: Path, b: Path, p: Path)
    requires Apart(a, p) && Apart(b, p)
    ensures TreeKept(d, Rename(w, d, a, b).0, p)
  {
    hide Moved, SameTree, Apart;
    RenameElsewhere(w, d, a, b, p);
  }

  /** However an operation ends, at every step the source is what it was, and so is every other tree apart from the
      destination and its ".tmp" and ".old" names. */
  lemma OtherTreesStay(w: World, d: Disk, x: Names, p: Path)
    requires AllApart(x) && Apart(x.destination, p) && Apart(x.temporary, p) && Apart(x.previous, p)
    ensures TreeKept(d, Operate(w, d, x).disk, p)
  {
    hide Copying, CleanUp, Rename, TreeKept, Apart, Confined, HasDestination;
    CopyingConfined(w, d, x);
    var r := Copying(w, d, x);
    if r.ok {
      ConfinedKeeps(d, r.disk, x.temporary, p);
      CommitKeeps(w, r.disk, x, p);
      KeptTwice(d, r.disk, Commit(w, r.disk, x).disk, p);
    } else {
      ConfinedKeeps(d, CleanUp(w, r.disk, x.temporary), x.temporary, p);
    }
  }

  lemma CommitKeeps(w: World, d: Disk, x: Names, p: Path)
    requires Apart(x.destination, p) && Apart(x.temporary, p) && Apart(x.previous, p)
    ensures TreeKept(d, Commit(w, d, x).disk, p)
  {
    hide CleanUp, Rename, TreeKept, Apart, Confined, HasDestination;
    LookKeeps(d, p);
    var c := Cleared(w, d, x);
    CleanUpKeeps(w, Look(d), x.previous, p);
    KeptTwice(d, Look(d), c, p);
    var (e, aside) := MoveAside(w, d, x);
    if HasDestination(w, d, x) {
      RenameKeeps(w, c, x.destination, x.previous, p);
      KeptTwice(d, c, e, p);
    }
    var (f, placed) := Place(w, d, x);
    if aside {
      RenameKeeps(w, e, x.temporary, x.destination, p);
      KeptTwice(d, e, f, p);
    }
    if placed {
      CleanUpKeeps(w, f, x.previous, p);
      KeptTwice(d, f, CleanUp(w, f, x.previous), p);
    } else {
      var (h, back) := MoveBack(w, d, x);
      if HasDestination(w, d, x) {
        RenameKeeps(w, f, x.previous, x.destination, p);
        KeptTwice(d, f, h, p);
      }
      CleanUpKeeps(w, h, x.temporary, p);
      KeptTwice(d, h, CleanUp(w, h, x.temporary), p);
    }
  }
}
