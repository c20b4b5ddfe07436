/** When a copy and a backup succeed. */
module SaveSuccess {
  import opened Wrappers
  import opened GuestMemory
  import opened SaveStorage
  import opened SaveBackup
  import opened SaveCommit

  /** None of the operations from `d` to `e` failed. */
  predicate Unfailing(w: World, d: Disk, e: Disk) {
    |d.steps| <= |e.steps| && forall k :: |d.steps| <= k < |e.steps| ==> !w.fails(k)
  }

  lemma UnfailingTwice(w: World, d: Disk, e: Disk, f: Disk)
    requires |d.steps| <= |e.steps| <= |f.steps|
    ensures Unfailing(w, d, f) <==> Unfailing(w, d, e) && Unfailing(w, e, f)
  {
  }

  // ---------- files ----------

  lemma {:induction false} DataSucceeds(w: World, d: Disk, from: Path, to: Path, done: nat, total: nat)
    requires from != to && IsFile(d.nodes, from) && IsFile(d.nodes, to) && done <= |d.nodes[from].content|
    ensures var r := CopyData(w, d, from, to, done, total);
            |d.steps| < |r.disk.steps| &&
            (r.ok <==> Unfailing(w, d, r.disk) && total + |d.nodes[from].content| - done <= MAX_TOTAL)
    decreases |d.nodes[from].content| - done
  {
    var content := d.nodes[from].content;
    var size := if |content| - done < CHUNK then |content| - done else CHUNK;
    if !(Fails(w, d) || total > MAX_TOTAL || size > MAX_TOTAL - total) && size > 0 {
      var e := Look(d);
      var (f, ok) := Append(w, e, to, content[done..done + size]);
      AppendKeeps(w, e, to, content[done..done + size], from);
      assert !w.fails(|d.steps|);
      if ok {
        DataSucceeds(w, f, from, to, done + size, total + size);
        var r := CopyData(w, f, from, to, done + size, total + size);
        assert |f.steps| == |d.steps| + 2 && !w.fails(|d.steps| + 1);
      }
    }
  }

  /** A file is copied exactly when it can be opened, its copy can be made, the limit is kept and nothing fails. */
  lemma FileSucceeds(w: World, d: Disk, from: Path, to: Path, total: nat)
    requires from != to
    ensures var r := CopyFile(w, d, from, to, total);
            |d.steps| < |r.disk.steps| &&
            (r.ok <==> Unfailing(w, d, r.disk) && IsFile(d.nodes, from) && IsFolder(d.nodes, Parent(to)) &&
                       (to in d.nodes ==> d.nodes[to].File?) && total + |d.nodes[from].content| <= MAX_TOTAL)
  {
    hide CopyData;
    var e := Look(d);
    CreateKeeps(w, e, to, from);
    var (f, ok) := Create(w, e, to);
    if !Fails(w, d) && IsFile(d.nodes, from) && ok {
      DataSucceeds(w, f, from, to, 0, total);
      assert At(f.nodes, from) == At(d.nodes, from);
      assert !w.fails(|d.steps|) && !w.fails(|d.steps| + 1);
    }
  }

  // ---------- trees ----------

  /** The entry at `s` below the source can be made at `s` below the target: it is a file or folder, not too deep,
      in a folder, and not in the place of something else. */
  predicate FitsAt(n: Nodes, source: Path, m: Nodes, target: Path, depth: nat, s: Path) {
    source + s in n ==>
      match n[source + s]
      case Folder => depth + |s| <= MAX_DEPTH && (target + s in m || Holder(m, target, s))
      case File(_) => (target + s in m ==> m[target + s].File?) && Holder(m, target, s)
      case Special => false
  }

  /** The folder around `s` is there, or will have been made. */
  predicate Holder(m: Nodes, target: Path, s: Path) {
    if s == [] then IsFolder(m, Parent(target))
    else target + s[..|s| - 1] in m ==> m[target + s[..|s| - 1]].Folder?
  }

  predicate NamedAt(n: Nodes, source: Path, target: Path, s: Path) {
    s != [] && source + s in n ==> NameValid(source + s[..|s| - 1], target + s[..|s| - 1], s[|s| - 1])
  }

  /** Everything in the source's tree fits and has a name that can be copied. */
  ghost predicate Fits(n: Nodes, source: Path, m: Nodes, target: Path, depth: nat) {
    forall s: Path :: FitsAt(n, source, m, target, depth, s) && NamedAt(n, source, target, s)
  }

  /** The same of one entry of the source. */
  ghost predicate EntryFits(n: Nodes, source: Path, m: Nodes, target: Path, depth: nat, name: string) {
    NameValid(source, target, name) &&
    forall s: Path :: FitsAt(n, source, m, target, depth, [name] + s) && NamedAt(n, source, target, [name] + s)
  }

  lemma FitsBelow(n: Nodes, source: Path, m: Nodes, o: Nodes, target: Path, depth: nat, name: string)
    requires IsFolder(n, source) && source + [name] in n && SameTree(m, target + [name], o, target + [name])
    requires At(o, target) == (if target in m then At(m, target) else Some(Folder))
    ensures EntryFits(n, source, m, target, depth, name) <==>
              NameValid(source, target, name) && Fits(n, source + [name], o, target + [name], depth + 1)
  {
    hide NameValid;
    forall s: Path
      ensures FitsAt(n, source, m, target, depth, [name] + s) <==>
                FitsAt(n, source + [name], o, target + [name], depth + 1, s)
      ensures NamedAt(n, source, target, [name] + s) <==>
                (s == [] ==> NameValid(source, target, name)) && NamedAt(n, source + [name], target + [name], s)
    {
      BelowAt(n, source, m, o, target, depth, name, s);
    }
  }

  lemma BelowAt(n: Nodes, source: Path, m: Nodes, o: Nodes, target: Path, depth: nat, name: string, s: Path)
    requires source + [name] in n && SameTree(m, target + [name], o, target + [name])
    requires At(o, target) == (if target in m then At(m, target) else Some(Folder))
    ensures FitsAt(n, source, m, target, depth, [name] + s) <==>
              FitsAt(n, source + [name], o, target + [name], depth + 1, s)
    ensures NamedAt(n, source, target, [name] + s) <==>
              (s == [] ==> NameValid(source, target, name)) && NamedAt(n, source + [name], target + [name], s)
  {
    hide NameValid;
    Deeper(source, name, s);
    Deeper(target, name, s);
    assert At(m, target + [name] + s) == At(o, target + [name] + s);
    var long := [name] + s;
    var front := long[..|long| - 1];
    assert Parent(target + [name]) == target;
    if s == [] {
      assert front == [] && target + front == target && source + front == source;
      assert source + [name] + s == source + [name];
    } else {
      assert front == [name] + s[..|s| - 1] && long[|long| - 1] == s[|s| - 1];
      Deeper(source, name, s[..|s| - 1]);
      Deeper(target, name, s[..|s| - 1]);
      assert At(m, target + [name] + s[..|s| - 1]) == At(o, target + [name] + s[..|s| - 1]);
    }
  }

  ghost predicate EntriesFit(w: World, n: Nodes, source: Path, m: Nodes, target: Path, depth: nat, i: nat) {
    forall j :: i <= j < |w.list(source)| ==> EntryFits(n, source, m, target, depth, w.list(source)[j].name)
  }

  /** A tree fits when its root and its entries do. */
  lemma FitsTree(w: World, n: Nodes, source: Path, m: Nodes, target: Path, depth: nat)
    requires Sound(w, n, source) && IsFolder(n, source)
    ensures Fits(n, source, m, target, depth) <==>
              FitsAt(n, source, m, target, depth, []) && EntriesFit(w, n, source, m, target, depth, 0)
  {
    hide FitsAt, Sound;
    if Fits(n, source, m, target, depth) {
      forall j | 0 <= j < |w.list(source)| ensures EntryFits(n, source, m, target, depth, w.list(source)[j].name) {
        EntryOfTree(w, n, source, m, target, depth, j);
      }
    }
    if FitsAt(n, source, m, target, depth, []) && EntriesFit(w, n, source, m, target, depth, 0) {
      forall s: Path ensures FitsAt(n, source, m, target, depth, s) && NamedAt(n, source, target, s) {
        if s != [] {
          assert s == [s[0]] + s[1..];
          if Lists(w.list(source), s[0]) {
            var j :| 0 <= j < |w.list(source)| && w.list(source)[j].name == s[0];
            assert EntryFits(n, source, m, target, depth, w.list(source)[j].name);
          } else {
            NotListed(w, n, source, s);
            AbsentFits(n, source, m, target, depth, s);
          }
        }
      }
    }
  }

  lemma AbsentFits(n: Nodes, source: Path, m: Nodes, target: Path, depth: nat, s: Path)
    requires source + s !in n
    ensures FitsAt(n, source, m, target, depth, s)
  {
  }

  lemma EntryOfTree(w: World, n: Nodes, source: Path, m: Nodes, target: Path, depth: nat, j: nat)
    requires Sound(w, n, source) && IsFolder(n, source) && Fits(n, source, m, target, depth) && j < |w.list(source)|
    ensures EntryFits(n, source, m, target, depth, w.list(source)[j].name)
  {
    hide FitsAt, NameValid;
    var name := w.list(source)[j].name;
    ListedEntry(w, n, source, j);
    assert NamedAt(n, source, target, [name]);
    assert [name][..0] == [] && source + [] == source && target + [] == target;
  }

  lemma ListedEntry(w: World, n: Nodes, source: Path, j: nat)
    requires Sound(w, n, source) && IsFolder(n, source) && j < |w.list(source)|
    ensures HasEntry(n, source, w.list(source)[j])
  {
    hide HasEntry;
    assert source + [] == source;
    assert ListsFolder(w, n, source + []);
  }

  lemma {:induction false} SizesGrow(w: World, n: Nodes, p: Path, i: nat, j: nat, depth: nat)
    requires depth <= MAX_DEPTH && i <= j <= |w.list(p)|
    ensures SizeOf(w, n, p, i, depth) <= SizeOf(w, n, p, j, depth)
    decreases j
  {
    if i < j {
      SizesGrow(w, n, p, i, j - 1, depth);
    }
  }

  lemma SizeStep(w: World, n: Nodes, p: Path, i: nat, depth: nat)
    requires depth <= MAX_DEPTH && i < |w.list(p)|
    ensures SizeOf(w, n, p, i + 1, depth) ==
              SizeOf(w, n, p, i, depth) + SizeAt(w, n, p + [w.list(p)[i].name], depth + 1)
  {
  }

  /** A copy succeeds exactly when none of its operations fails, its source is a folder, everything in it fits below
      the target, and its files stay within the limit. */
  lemma {:induction false} CopySucceedsExactly(w: World, n: Nodes, d: Disk, source: Path, target: Path, depth: nat,
                                               total: nat)
    requires Apart(source, target) && Sound(w, n, source) && SameBelow(n, d.nodes, source) && total <= MAX_TOTAL
    ensures var r := CopyTree(w, d, source, target, depth, total);
            && |d.steps| <= |r.disk.steps|
            && (r.ok <==> Unfailing(w, d, r.disk) && IsFolder(n, source) && Fits(n, source, d.nodes, target, depth) &&
                          total + SizeAt(w, n, source, depth) <= MAX_TOTAL)
    decreases if depth > MAX_DEPTH then 0 else MAX_DEPTH + 1 - depth, 2, 0
  {
    hide CopyEntries, Sound, Under, SameTree, SizeOf, EntriesFit, Fits, MAX_TOTAL;
    BelowOf(n, d.nodes, source, []);
    assert source + [] == source && target + [] == target;
    RootFits(n, source, d.nodes, target, depth);
    if depth <= MAX_DEPTH {
      var (e, ok) := Mkdir(w, d, target);
      MkdirConfined(w, d, target);
      SourceStays(n, d.nodes, e.nodes, source, target);
      BelowOf(n, e.nodes, source, []);
      if ok && !Fails(w, e) && IsFolder(n, source) {
        var f := Look(e);
        MkdirStarts(w, n, d, source, target);
        EntriesSucceed(w, n, d.nodes, f, source, target, 0, depth, total);
        FitsTree(w, n, source, d.nodes, target, depth);
        SizeOfNone(w, n, source, depth);
        UnfailingTwice(w, d, f, CopyEntries(w, f, source, target, 0, depth, total).disk);
      }
    }
  }

  lemma RootFits(n: Nodes, source: Path, m: Nodes, target: Path, depth: nat)
    ensures IsFolder(n, source) && Fits(n, source, m, target, depth) ==>
              depth <= MAX_DEPTH && (target in m || IsFolder(m, Parent(target)))
  {
    assert source + [] == source && target + [] == target;
    assert Fits(n, source, m, target, depth) ==> FitsAt(n, source, m, target, depth, []);
  }

  lemma {:induction false} EntriesSucceed(w: World, n: Nodes, m: Nodes, d: Disk, source: Path, target: Path, i: nat,
                                          depth: nat, total: nat)
    requires Apart(source, target) && Sound(w, n, source) && SameBelow(n, d.nodes, source) && IsFolder(n, source)
    requires depth <= MAX_DEPTH && i <= |w.list(source)| && total <= MAX_TOTAL
    requires Done(w, n, source, m, target, d.nodes, i)
    ensures var r := CopyEntries(w, d, source, target, i, depth, total);
            && |d.steps| <= |r.disk.steps|
            && (r.ok <==> Unfailing(w, d, r.disk) && EntriesFit(w, n, source, m, target, depth, i) &&
                          total + SizeOf(w, n, source, |w.list(source)|, depth) - SizeOf(w, n, source, i, depth) <=
                            MAX_TOTAL)
    decreases MAX_DEPTH + 1 - depth, 1, |w.list(source)| - i
  {
    hide CopyEntry, Sound, Under, Done, SameTree, SizeAt, SizeOf, Merges, Shallow, Fits, EntryFits, MAX_TOTAL;
    if !Fails(w, d) && i < |w.list(source)| {
      var e := Look(d);
      var l := w.list(source)[i];
      var r := CopyEntry(w, e, source, target, l, depth, total);
      EntrySucceeds(w, n, m, e, source, target, i, depth, total);
      SizeStep(w, n, source, i, depth);
      SizesGrow(w, n, source, i + 1, |w.list(source)|, depth);
      UnfailingTwice(w, d, e, r.disk);
      if r.ok {
        EntryMerges(w, n, e, source, target, l, i, depth, total);
        EntryStaysBelow(w, e, source, target, l, depth, total);
        OutsideWider(e.nodes, r.disk.nodes, target, [l.name]);
        SourceStays(n, e.nodes, r.disk.nodes, source, target);
        DoneStep(w, n, source, m, target, e.nodes, r.disk.nodes, i);
        EntriesSucceed(w, n, m, r.disk, source, target, i + 1, depth, r.total);
        UnfailingTwice(w, d, r.disk, CopyEntries(w, r.disk, source, target, i + 1, depth, r.total).disk);
      }
    }
  }

  lemma {:induction false} EntrySucceeds(w: World, n: Nodes, m: Nodes, d: Disk, source: Path, target: Path, i: nat,
                                         depth: nat, total: nat)
    requires Apart(source, target) && Sound(w, n, source) && SameBelow(n, d.nodes, source) && IsFolder(n, source)
    requires depth <= MAX_DEPTH && i < |w.list(source)| && total <= MAX_TOTAL
    requires Done(w, n, source, m, target, d.nodes, i)
    ensures var l := w.list(source)[i];
            var r := CopyEntry(w, d, source, target, l, depth, total);
            && |d.steps| <= |r.disk.steps|
            && (r.ok <==> Unfailing(w, d, r.disk) && EntryFits(n, source, m, target, depth, l.name) &&
                          total + SizeAt(w, n, source + [l.name], depth + 1) <= MAX_TOTAL)
    decreases MAX_DEPTH + 1 - depth, 0, 0
  {
    hide CopyTree, CopyFile, Sound, Under, SizeAt, Fits, SameTree, EntryFits, NameValid, MAX_TOTAL;
    var l := w.list(source)[i];
    var from, to := source + [l.name], target + [l.name];
    ChildrenApart(source, target, l.name, l.name);
    SoundBelow(w, n, source, l.name);
    ChildSame(n, d.nodes, source, l.name);
    ListedEntry(w, n, source, i);
    DoneHere(w, n, source, m, target, d.nodes, i);
    FitsBelow(n, source, m, d.nodes, target, depth, l.name);
    if l.kind == FolderKind {
      CopySucceedsExactly(w, n, d, from, to, depth + 1, total);
    } else if l.kind == FileKind {
      FileEntrySucceeds(w, n, d, source, target, l.name, depth, total);
    } else {
      SpecialFitsNowhere(n, from, d.nodes, to, depth + 1);
    }
  }

  lemma DoneHere(w: World, n: Nodes, source: Path, m: Nodes, target: Path, o: Nodes, i: nat)
    requires Sound(w, n, source) && IsFolder(n, source) && i < |w.list(source)|
    requires Done(w, n, source, m, target, o, i)
    ensures var name := w.list(source)[i].name; SameTree(m, target + [name], o, target + [name])
    ensures At(o, target) == (if target in m then At(m, target) else Some(Folder))
  {
    hide Sound, SameTree, Merges;
    DistinctEntries(w, n, source, i);
  }

  lemma SpecialFitsNowhere(n: Nodes, source: Path, m: Nodes, target: Path, depth: nat)
    requires source in n && n[source].Special?
    ensures !Fits(n, source, m, target, depth)
  {
    assert source + [] == source;
    assert !FitsAt(n, source, m, target, depth, []);
  }

  lemma FileEntrySucceeds(w: World, n: Nodes, d: Disk, source: Path, target: Path, name: string, depth: nat,
                          total: nat)
    requires Apart(source, target) && Sound(w, n, source) && IsFile(n, source + [name])
    requires At(d.nodes, source + [name]) == At(n, source + [name]) && source + [name] != target + [name]
    ensures var r := CopyFile(w, d, source + [name], target + [name], total);
            && |d.steps| <= |r.disk.steps|
            && (r.ok <==> Unfailing(w, d, r.disk) &&
                          Fits(n, source + [name], d.nodes, target + [name], depth + 1) &&
                          total + SizeAt(w, n, source + [name], depth + 1) <= MAX_TOTAL)
  {
    hide CopyFile, Sound, Under, MAX_TOTAL, NameValid;
    var from, to := source + [name], target + [name];
    FileSucceeds(w, d, from, to, total);
    assert SizeAt(w, n, from, depth + 1) == |n[from].content|;
    FileFits(w, n, d.nodes, source, to, name, depth + 1);
  }

  lemma FileFits(w: World, n: Nodes, m: Nodes, source: Path, to: Path, name: string, depth: nat)
    requires Sound(w, n, source) && IsFile(n, source + [name])
    ensures Fits(n, source + [name], m, to, depth) <==>
              IsFolder(m, Parent(to)) && (to in m ==> m[to].File?)
  {
    hide Sound, NameValid;
    var from := source + [name];
    assert from + [] == from && to + [] == to;
    assert FitsAt(n, from, m, to, depth, []) <==> IsFolder(m, Parent(to)) && (to in m ==> m[to].File?);
    forall s: Path ensures FitsAt(n, from, m, to, depth, s) && NamedAt(n, from, to, s) <==>
                             s != [] || FitsAt(n, from, m, to, depth, [])
    {
      FileAlone(w, n, source, name, s);
    }
  }

  // ---------- the whole operation ----------

  /** A source for a copy to an empty place: files and folders with names that can be copied, not too deep. */
  ghost predicate Copyable(n: Nodes, source: Path, target: Path) {
    forall s: Path :: CopyableAt(n, source, s) && NamedAt(n, source, target, s)
  }

  predicate CopyableAt(n: Nodes, source: Path, s: Path) {
    source + s in n ==> !n[source + s].Special? && (n[source + s].Folder? ==> |s| <= MAX_DEPTH)
  }

  lemma FitsEmpty(n: Nodes, source: Path, m: Nodes, target: Path)
    requires Nothing(m, target) && IsFolder(n, source)
    ensures Fits(n, source, m, target, 0) <==> IsFolder(m, Parent(target)) && Copyable(n, source, target)
  {
    hide NameValid, NamedAt;
    assert source + [] == source;
    forall s: Path
      ensures FitsAt(n, source, m, target, 0, s) <==>
                CopyableAt(n, source, s) && (s == [] ==> IsFolder(m, Parent(target)))
    {
      assert At(m, target + s) == None;
      if s != [] {
        assert At(m, target + s[..|s| - 1]) == None;
      }
    }
    if Fits(n, source, m, target, 0) {
      assert FitsAt(n, source, m, target, 0, []);
    }
  }

  /** From here on no operation fails. */
  ghost predicate Calm(w: World, d: Disk) {
    forall k :: |d.steps| <= k ==> !w.fails(k)
  }

  lemma ParentOutside(p: Path, q: Path)
    requires Apart(p, q)
    ensures !Under(p, Parent(q)) && !Under(q, Parent(q))
  {
    if |p| <= |Parent(q)| {
      assert Parent(q)[..|p|] == q[..|p|];
    }
  }

  lemma FolderStays(n: Nodes, m: Nodes, c: Path, p: Path)
    requires SameOutside(n, m, c) && !Under(c, p)
    ensures IsFolder(n, p) <==> IsFolder(m, p)
  {
    assert At(n, p) == At(m, p);
  }

  /** The names of an operation lie in one folder. */
  predicate Siblings(x: Names) {
    AllApart(x) && Parent(x.temporary) == Parent(x.destination) == Parent(x.previous)
  }

  lemma CopyingSucceeds(w: World, d: Disk, x: Names)
    requires Siblings(x) && Sound(w, d.nodes, x.source) && Calm(w, d)
    ensures Copying(w, d, x).ok <==>
              IsFolder(d.nodes, x.source) && IsFolder(d.nodes, Parent(x.destination)) &&
              Copyable(d.nodes, x.source, x.temporary) && SizeAt(w, d.nodes, x.source, 0) <= MAX_TOTAL
    ensures Calm(w, Copying(w, d, x).disk)
    ensures IsFolder(Copying(w, d, x).disk.nodes, Parent(x.destination)) <==>
              IsFolder(d.nodes, Parent(x.destination))
    ensures Copying(w, d, x).ok ==> x.temporary in Copying(w, d, x).disk.nodes
  {
    hide CopyTree, CleanUp, Apart, Sound, Fits, Copyable, SizeAt, MAX_TOTAL, SameOutside, SameTree, Nothing, Merges,
         Shallow;
    ApartSym(x);
    ParentOutside(x.source, x.temporary);
    var c := CleanUp(w, d, x.temporary);
    CleanUpRemoves(w, d, x.temporary);
    ConfinedNow(d, c, x.temporary);
    ApartTree(d.nodes, c.nodes, x.temporary, x.source);
    FolderStays(d.nodes, c.nodes, x.temporary, Parent(x.temporary));
    CopySucceedsExactly(w, d.nodes, c, x.source, x.temporary, 0, 0);
    if IsFolder(d.nodes, x.source) {
      FitsEmpty(d.nodes, x.source, c.nodes, x.temporary);
    }
    var r := Copying(w, d, x);
    CopyStaysBelow(w, c, x.source, x.temporary, 0, 0);
    ConfinedNow(c, r.disk, x.temporary);
    FolderStays(c.nodes, r.disk.nodes, x.temporary, Parent(x.temporary));
    if r.ok {
      CopyMerges(w, d.nodes, c, x.source, x.temporary, 0, 0);
      CopyHasRoot(d.nodes, x.source, c.nodes, x.temporary, r.disk.nodes);
    }
  }

  lemma CopyHasRoot(n: Nodes, source: Path, m: Nodes, target: Path, after: Nodes)
    requires Merges(n, source, m, target, after) && IsFolder(n, source)
    ensures target in after
  {
    assert source + [] == source && target + [] == target;
    assert At(after, target + []) == Merged(n, source, m, target, []);
  }

  /** The renames cannot be refused after a complete copy. */
  lemma PlaceSucceeds(w: World, d: Disk, x: Names)
    requires Siblings(x) && Calm(w, d) && x.temporary in d.nodes && IsFolder(d.nodes, Parent(x.destination))
    ensures Place(w, d, x).1
  {
    hide CleanUp, Apart, SameOutside, SameTree, Nothing, Moved;
    ApartSym(x);
    ParentOutside(x.previous, x.destination);
    var e := Cleared(w, d, x);
    CleanUpRemoves(w, Look(d), x.previous);
    ConfinedNow(Look(d), e, x.previous);
    Absent(e.nodes, x.previous);
    FolderStays(d.nodes, e.nodes, x.previous, Parent(x.destination));
    ApartTree(d.nodes, e.nodes, x.previous, x.temporary);
    RootThere(d.nodes, x.temporary, e.nodes, x.temporary);
    ApartTree(d.nodes, e.nodes, x.previous, x.destination);
    RootThere(d.nodes, x.destination, e.nodes, x.destination);
    if x.destination in d.nodes {
      var f := Rename(w, e, x.destination, x.previous).0;
      RenameMoves(w, e, x.destination, x.previous);
      RenameElsewhere(w, e, x.destination, x.previous, x.temporary);
      RootThere(e.nodes, x.temporary, f.nodes, x.temporary);
      Absent(f.nodes, x.destination);
      assert At(f.nodes, Parent(x.destination)) == At(e.nodes, Parent(x.destination));
    }
  }

  lemma Absent(n: Nodes, p: Path)
    requires Nothing(n, p)
    ensures p !in n
  {
    assert p + [] == p;
    assert At(n, p + []) == None;
  }

  /** When no operation on the storage fails, a backup succeeds exactly for a source folder whose tree can be copied
      and keeps the limit, next to an existing folder; what was at the destination and beside it does not matter. */
  lemma OperationSucceedsExactly(w: World, d: Disk, x: Names)
    requires Siblings(x) && Sound(w, d.nodes, x.source) && Calm(w, d)
    ensures Operate(w, d, x).ok <==>
              IsFolder(d.nodes, x.source) && IsFolder(d.nodes, Parent(x.destination)) &&
              Copyable(d.nodes, x.source, x.temporary) && SizeAt(w, d.nodes, x.source, 0) <= MAX_TOTAL
  {
    hide Copying, Place, MoveBack, CleanUp, Sound, Copyable, SizeAt, MAX_TOTAL, HasDestination, MoveAside;
    CopyingSucceeds(w, d, x);
    if Copying(w, d, x).ok {
      PlaceSucceeds(w, Copying(w, d, x).disk, x);
    }
  }

  lemma CleanedUp(w: World, d: Disk, p: Path)
    requires Calm(w, d)
    ensures Nothing(CleanUp(w, d, p).nodes, p)
  {
    CleanUpRemoves(w, d, p);
  }

  lemma PlacedSteps(w: World, d: Disk, x: Names)
    ensures |d.steps| <= |Place(w, d, x).0.steps| && |d.steps| <= |MoveBack(w, d, x).0.steps|
  {
    hide Moved, Remains;
  }

  /** When nothing fails, nothing is left beside the destination: the temporary tree is gone in any case, and the old
      one after a success. */
  lemma NothingIsLeft(w: World, d: Disk, x: Names)
    requires Siblings(x) && Sound(w, d.nodes, x.source) && Calm(w, d)
    ensures var o := Operate(w, d, x);
            Nothing(o.disk.nodes, x.temporary) && (o.ok ==> Nothing(o.disk.nodes, x.previous))
  {
    hide Copying, MoveAside, Place, MoveBack, CleanUp, Sound, Nothing, Calm, Apart, HasDestination;
    CopyingSucceeds(w, d, x);
    var r := Copying(w, d, x);
    CleanedUp(w, r.disk, x.temporary);
    if r.ok {
      var e := Place(w, r.disk, x).0;
      PlacedSteps(w, r.disk, x);
      StillCalm(w, r.disk, e);
      CleanedUp(w, e, x.previous);
      if Place(w, r.disk, x).1 {
        PlaceMoves(w, r.disk, x);
        CleanUpRemoves(w, e, x.previous);
        NothingStays(e, CleanUp(w, e, x.previous), x.previous, x.temporary);
      }
      StillCalm(w, r.disk, MoveBack(w, r.disk, x).0);
      CleanedUp(w, MoveBack(w, r.disk, x).0, x.temporary);
    }
  }

  lemma StillCalm(w: World, d: Disk, e: Disk)
    requires Calm(w, d) && |d.steps| <= |e.steps|
    ensures Calm(w, e)
  {
  }

  lemma PlaceMoves(w: World, d: Disk, x: Names)
    requires AllApart(x) && Place(w, d, x).1
    ensures Nothing(Place(w, d, x).0.nodes, x.temporary) && Apart(x.previous, x.temporary)
  {
    hide MoveAside, Nothing;
    ApartSym(x);
    RenameMoves(w, MoveAside(w, d, x).0, x.temporary, x.destination);
  }

  /** A path as the storage is given it. */
  function Rendered(p: Path): string {
    if p == [] then "" else Rendered(p[..|p| - 1]) + "/" + p[|p| - 1]
  }

  lemma {:induction false} LengthOfPath(p: Path)
    ensures Length(p) == |Rendered(p)|
    decreases |p|
  {
    if p != [] {
      LengthOfPath(p[..|p| - 1]);
    }
  }

  /** The names that can be copied: plain ones whose paths on both sides are shorter than 512 characters. */
  lemma NamesExactly(source: Path, target: Path, name: string)
    ensures NameValid(source, target, name) <==>
              name !in {"", ".", ".."} && '/' !in name && '\\' !in name &&
              |Rendered(source + [name])| <= 511 && |Rendered(target + [name])| <= 511
  {
    LengthOfPath(source + [name]);
    LengthOfPath(target + [name]);
  }
}
