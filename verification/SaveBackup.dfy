/** Copying a save directory on a storage whose operations may fail. */
module SaveBackup {
  import opened Wrappers
  import opened GuestMemory
  import opened SaveStorage

  const MAX_TOTAL: nat := 512 * 1024 * 1024
  const CHUNK: nat := 64 * 1024
  const MAX_DEPTH: nat := 16
  const MAX_PATH: nat := 512

  // ---------- the copy ----------

  /** The characters of a path, with a slash before each component. */
  function Length(p: Path): nat {
    if p == [] then 0 else Length(p[..|p| - 1]) + 1 + |p[|p| - 1]|
  }

  predicate NameValid(source: Path, target: Path, name: string) {
    name != "" && name != "." && name != ".." && '/' !in name && '\\' !in name &&
    Length(source + [name]) < MAX_PATH && Length(target + [name]) < MAX_PATH
  }

  datatype Copied = Copied(disk: Disk, ok: bool, total: nat)

  /** Reads and writes chunks until a read returns nothing; a chunk that would exceed the limit ends the copy. */
  function CopyData(w: World, d: Disk, from: Path, to: Path, done: nat, total: nat): (r: Copied)
    requires from != to && IsFile(d.nodes, from) && IsFile(d.nodes, to) && done <= |d.nodes[from].content|
    decreases |d.nodes[from].content| - done
  {
    var content := d.nodes[from].content;
    var size := if |content| - done < CHUNK then |content| - done else CHUNK;
    var e := Look(d);
    if Fails(w, d) || total > MAX_TOTAL || size > MAX_TOTAL - total then Copied(e, false, total)
    else if size == 0 then Copied(Look(e), !Fails(w, e), total)
    else
      var (f, ok) := Append(w, e, to, content[done..done + size]);
      if !ok then Copied(f, false, total) else CopyData(w, f, from, to, done + size, total + size)
  }

  function CopyFile(w: World, d: Disk, from: Path, to: Path, total: nat): Copied
    requires from != to
  {
    var e := Look(d);
    if Fails(w, d) || !IsFile(d.nodes, from) then Copied(e, false, total)
    else
      var (f, ok) := Create(w, e, to);
      if !ok then Copied(f, false, total) else CopyData(w, f, from, to, 0, total)
  }

  /** Makes the folder, then copies what the source folder lists. */
  function CopyTree(w: World, d: Disk, source: Path, target: Path, depth: nat, total: nat): (r: Copied)
    requires Apart(source, target)
    ensures r.ok ==> depth <= MAX_DEPTH
    decreases if depth > MAX_DEPTH then 0 else MAX_DEPTH + 1 - depth, 2, 0
  {
    if depth > MAX_DEPTH then Copied(d, false, total)
    else
      var (e, ok) := Mkdir(w, d, target);
      if !ok then Copied(e, false, total)
      else if Fails(w, e) || !IsFolder(e.nodes, source) then Copied(Look(e), false, total)
      else CopyEntries(w, Look(e), source, target, 0, depth, total)
  }

  function CopyEntry(w: World, d: Disk, source: Path, target: Path, l: Listed, depth: nat, total: nat): Copied
    requires Apart(source, target) && depth <= MAX_DEPTH
    decreases MAX_DEPTH + 1 - depth, 0, 0
  {
    ChildrenApart(source, target, l.name, l.name);
    if !NameValid(source, target, l.name) then Copied(d, false, total)
    else if l.kind == FolderKind then CopyTree(w, d, source + [l.name], target + [l.name], depth + 1, total)
    else if l.kind == FileKind then CopyFile(w, d, source + [l.name], target + [l.name], total)
    else Copied(d, false, total)
  }

  /** The entries from the i-th on; each is read from the listing first. */
  function CopyEntries(w: World, d: Disk, source: Path, target: Path, i: nat, depth: nat, total: nat): Copied
    requires Apart(source, target) && depth <= MAX_DEPTH && i <= |w.list(source)|
    decreases MAX_DEPTH + 1 - depth, 1, |w.list(source)| - i
  {
    var e := Look(d);
    if Fails(w, d) then Copied(e, false, total)
    else if i == |w.list(source)| then Copied(e, true, total)
    else
      var r := CopyEntry(w, e, source, target, w.list(source)[i], depth, total);
      if !r.ok then r else CopyEntries(w, r.disk, source, target, i + 1, depth, r.total)
  }

  lemma ChildrenApart(source: Path, target: Path, x: string, y: string)
    requires Apart(source, target)
    ensures Apart(source + [x], target + [y]) && Apart(source, target + [y]) && source + [x] != target + [y]
  {
    ApartBelow(source, target, [y]);
    ApartBelow(target, source, [x]);
    UnderSelf(source, [x]);
    UnderSelf(target, [y]);
    if Under(source + [x], target + [y]) {
      UnderThrough(source, source + [x], target + [y]);
    }
    if Under(target + [y], source + [x]) {
      UnderThrough(target, target + [y], source + [x]);
    }
    if Under(target + [y], source) {
      UnderThrough(target, target + [y], source);
    }
  }

  // ---------- the copy stays below its target ----------

  lemma {:induction false} DataConfined(w: World, d: Disk, from: Path, to: Path, done: nat, total: nat)
    requires from != to && IsFile(d.nodes, from) && IsFile(d.nodes, to) && done <= |d.nodes[from].content|
    ensures Confined(d, CopyData(w, d, from, to, done, total).disk, to)
    decreases |d.nodes[from].content| - done
  {
    hide Confined, Append;
    var content := d.nodes[from].content;
    var size := if |content| - done < CHUNK then |content| - done else CHUNK;
    var e := Look(d);
    ConfinedNone(d, to);
    ConfinedNone(e, to);
    ConfinedTwice(d, e, Look(e), to);
    if !(Fails(w, d) || total > MAX_TOTAL || size > MAX_TOTAL - total) && size > 0 {
      AppendConfined(w, e, to, content[done..done + size]);
      var (f, ok) := Append(w, e, to, content[done..done + size]);
      ConfinedTwice(d, e, f, to);
      if ok {
        AppendKeeps(w, e, to, content[done..done + size], from);
        DataConfined(w, f, from, to, done + size, total + size);
        ConfinedTwice(d, f, CopyData(w, f, from, to, done + size, total + size).disk, to);
      }
    }
  }

  lemma AppendKeeps(w: World, d: Disk, p: Path, data: seq<Byte>, q: Path)
    requires IsFile(d.nodes, p) && q != p
    ensures At(Append(w, d, p, data).0.nodes, q) == At(d.nodes, q)
    ensures var (e, ok) := Append(w, d, p, data);
            IsFile(e.nodes, p) && (ok ==> e.nodes[p].content == d.nodes[p].content + data)
  {
  }

  lemma CreateKeeps(w: World, d: Disk, p: Path, q: Path)
    requires q != p
    ensures At(Create(w, d, p).0.nodes, q) == At(d.nodes, q)
    ensures var (e, ok) := Create(w, d, p);
            ok ==> IsFolder(d.nodes, Parent(p)) && e.nodes == d.nodes[p := File([])] &&
                   (p in d.nodes ==> d.nodes[p].File?)
  {
  }

  lemma FileConfined(w: World, d: Disk, from: Path, to: Path, total: nat)
    requires from != to
    ensures Confined(d, CopyFile(w, d, from, to, total).disk, to)
  {
    hide Confined, Create, CopyData;
    var e := Look(d);
    ConfinedNone(d, to);
    if !Fails(w, d) && IsFile(d.nodes, from) {
      CreateConfined(w, e, to);
      CreateKeeps(w, e, to, from);
      var (f, ok) := Create(w, e, to);
      ConfinedTwice(d, e, f, to);
      if ok {
        DataConfined(w, f, from, to, 0, total);
        ConfinedTwice(d, f, CopyData(w, f, from, to, 0, total).disk, to);
      }
    }
  }

  /** Whatever fails, at every step of a copy only the tree at its target differs from what was there before. */
  lemma {:induction false} CopyStaysBelow(w: World, d: Disk, source: Path, target: Path, depth: nat, total: nat)
    requires Apart(source, target)
    ensures Confined(d, CopyTree(w, d, source, target, depth, total).disk, target)
    decreases if depth > MAX_DEPTH then 0 else MAX_DEPTH + 1 - depth, 2, 0
  {
    hide Confined, Mkdir, CopyEntries, Under;
    ConfinedNone(d, target);
    if depth <= MAX_DEPTH {
      MkdirConfined(w, d, target);
      var (e, ok) := Mkdir(w, d, target);
      if ok {
        ConfinedNone(e, target);
        ConfinedTwice(d, e, Look(e), target);
        if !Fails(w, e) && IsFolder(e.nodes, source) {
          EntriesStayBelow(w, Look(e), source, target, 0, depth, total);
          ConfinedTwice(d, Look(e), CopyEntries(w, Look(e), source, target, 0, depth, total).disk, target);
        }
      }
    }
  }

  lemma {:induction false} EntryStaysBelow(w: World, d: Disk, source: Path, target: Path, l: Listed, depth: nat,
                                           total: nat)
    requires Apart(source, target) && depth <= MAX_DEPTH
    ensures Confined(d, CopyEntry(w, d, source, target, l, depth, total).disk, target + [l.name])
    decreases MAX_DEPTH + 1 - depth, 0, 0
  {
    hide Confined, CopyTree, CopyFile, Under;
    ConfinedNone(d, target + [l.name]);
    ChildrenApart(source, target, l.name, l.name);
    if l.kind == FolderKind {
      CopyStaysBelow(w, d, source + [l.name], target + [l.name], depth + 1, total);
    } else if l.kind == FileKind {
      FileConfined(w, d, source + [l.name], target + [l.name], total);
    }
  }

  lemma {:induction false} EntriesStayBelow(w: World, d: Disk, source: Path, target: Path, i: nat, depth: nat,
                                            total: nat)
    requires Apart(source, target) && depth <= MAX_DEPTH && i <= |w.list(source)|
    ensures Confined(d, CopyEntries(w, d, source, target, i, depth, total).disk, target)
    decreases MAX_DEPTH + 1 - depth, 1, |w.list(source)| - i
  {
    hide Confined, CopyEntry, Under;
    var e := Look(d);
    ConfinedNone(d, target);
    if !Fails(w, d) && i < |w.list(source)| {
      var l := w.list(source)[i];
      var r := CopyEntry(w, e, source, target, l, depth, total);
      EntryStaysBelow(w, e, source, target, l, depth, total);
      ConfinedWider(e, r.disk, target, [l.name]);
      ConfinedTwice(d, e, r.disk, target);
      if r.ok {
        EntriesStayBelow(w, r.disk, source, target, i + 1, depth, r.total);
        ConfinedTwice(d, r.disk, CopyEntries(w, r.disk, source, target, i + 1, depth, r.total).disk, target);
      }
    }
  }

  // ---------- what a copy that succeeds leaves ----------

  function KindOf(x: Node): Kind {
    match x
    case File(_) => FileKind
    case Folder => FolderKind
    case Special => OtherKind
  }

  predicate Lists(ls: seq<Listed>, name: string) {
    exists i :: 0 <= i < |ls| && ls[i].name == name
  }

  /** The listing of a folder names each of its entries once, with its kind. */
  ghost predicate ListsFolder(w: World, n: Nodes, q: Path) {
    (forall i, j :: 0 <= i < j < |w.list(q)| ==> w.list(q)[i].name != w.list(q)[j].name) &&
    (forall i :: 0 <= i < |w.list(q)| ==> HasEntry(n, q, w.list(q)[i])) &&
    (forall name: string :: q + [name] in n ==> Lists(w.list(q), name))
  }

  predicate HasEntry(n: Nodes, q: Path, l: Listed) {
    q + [l.name] in n && KindOf(n[q + [l.name]]) == l.kind
  }

  /** Folders below the source list what is in them, and every entry lies in a folder. */
  ghost predicate Sound(w: World, n: Nodes, source: Path) {
    (forall s: Path :: IsFolder(n, source + s) ==> ListsFolder(w, n, source + s)) &&
    (forall s: Path, name: string :: source + (s + [name]) in n ==> IsFolder(n, source + s))
  }

  /** The entry a copy leaves below the target: a file's copy, the folder that was there or a new one, and
      whatever was there where the source has nothing. */
  function Merged(n: Nodes, source: Path, m: Nodes, target: Path, s: Path): Option<Node> {
    if IsFile(n, source + s) then Some(n[source + s])
    else if source + s in n && target + s !in m then Some(Folder)
    else At(m, target + s)
  }

  ghost predicate Merges(n: Nodes, source: Path, m: Nodes, target: Path, after: Nodes) {
    forall s: Path :: At(after, target + s) == Merged(n, source, m, target, s)
  }

  lemma {:induction false} DataCopies(w: World, d: Disk, from: Path, to: Path, done: nat, total: nat)
    requires from != to && IsFile(d.nodes, from) && IsFile(d.nodes, to) && done <= |d.nodes[from].content|
    requires d.nodes[to].content == d.nodes[from].content[..done]
    requires CopyData(w, d, from, to, done, total).ok
    ensures var r := CopyData(w, d, from, to, done, total);
            && IsFile(r.disk.nodes, to) && r.disk.nodes[to] == d.nodes[from]
            && r.total == total + |d.nodes[from].content| - done && r.total <= MAX_TOTAL
    decreases |d.nodes[from].content| - done
  {
    hide Append;
    var content := d.nodes[from].content;
    var size := if |content| - done < CHUNK then |content| - done else CHUNK;
    if size > 0 {
      var e := Look(d);
      var f := Append(w, e, to, content[done..done + size]).0;
      AppendKeeps(w, e, to, content[done..done + size], from);
      assert content[..done] + content[done..done + size] == content[..done + size];
      DataCopies(w, f, from, to, done + size, total + size);
    } else {
      assert content[..done] == content;
    }
  }

  lemma FileCopies(w: World, d: Disk, from: Path, to: Path, total: nat)
    requires from != to && CopyFile(w, d, from, to, total).ok
    ensures var r := CopyFile(w, d, from, to, total);
            && IsFile(d.nodes, from) && At(r.disk.nodes, to) == At(d.nodes, from)
            && (to in d.nodes ==> d.nodes[to].File?)
            && r.total == total + |d.nodes[from].content| && r.total <= MAX_TOTAL
  {
    hide Create, CopyData;
    var e := Look(d);
    CreateKeeps(w, e, to, from);
    var f := Create(w, e, to).0;
    DataCopies(w, f, from, to, 0, total);
  }

  /** How many bytes the files below a path have, as the listings show them. */
  function SizeAt(w: World, n: Nodes, p: Path, depth: nat): nat
    decreases if depth > MAX_DEPTH then 0 else MAX_DEPTH + 1 - depth, 1, 0
  {
    match At(n, p)
    case Some(File(content)) => |content|
    case Some(Folder) => if depth > MAX_DEPTH then 0 else SizeOf(w, n, p, |w.list(p)|, depth)
    case _ => 0
  }

  function SizeOf(w: World, n: Nodes, p: Path, i: nat, depth: nat): nat
    requires depth <= MAX_DEPTH && i <= |w.list(p)|
    decreases MAX_DEPTH + 1 - depth, 0, i
  {
    if i == 0 then 0
    else SizeOf(w, n, p, i - 1, depth) + SizeAt(w, n, p + [w.list(p)[i - 1].name], depth + 1)
  }

  ghost predicate SameBelow(n: Nodes, m: Nodes, p: Path) {
    SameTree(n, p, m, p)
  }

  lemma BelowOf(n: Nodes, m: Nodes, p: Path, s: Path)
    requires SameBelow(n, m, p)
    ensures At(m, p + s) == At(n, p + s)
  {
    assert At(n, p + s) == At(m, p + s);
  }

  /** The first `i` entries of the listing are merged, the others as they were, and the target is a folder or what
      it was. */
  ghost predicate Done(w: World, n: Nodes, source: Path, m: Nodes, target: Path, after: Nodes, i: nat)
    requires i <= |w.list(source)|
  {
    At(after, target) == (if target in m then At(m, target) else Some(Folder)) &&
    forall name: string ::
      if Lists(w.list(source)[..i], name) then Merges(n, source + [name], m, target + [name], after)
      else SameTree(m, target + [name], after, target + [name])
  }

  lemma Deeper(p: Path, name: string, s: Path)
    ensures p + [name] + s == p + ([name] + s)
  {
  }

  /** When all entries are merged, so is the tree. */
  lemma DoneMerges(w: World, n: Nodes, source: Path, m: Nodes, target: Path, after: Nodes)
    requires Sound(w, n, source) && IsFolder(n, source) && Done(w, n, source, m, target, after, |w.list(source)|)
    ensures Merges(n, source, m, target, after)
  {
    var ls := w.list(source);
    assert ls[..|ls|] == ls;
    forall s: Path ensures At(after, target + s) == Merged(n, source, m, target, s) {
      if s == [] {
        assert source + s == source && target + s == target;
      } else {
        var name, rest := s[0], s[1..];
        assert s == [name] + rest;
        Deeper(source, name, rest);
        Deeper(target, name, rest);
        if Lists(ls, name) {
          assert Merges(n, source + [name], m, target + [name], after);
          assert At(after, target + [name] + rest) == Merged(n, source + [name], m, target + [name], rest);
        } else {
          NotListed(w, n, source, s);
          assert SameTree(m, target + [name], after, target + [name]);
          assert At(m, target + [name] + rest) == At(after, target + [name] + rest);
        }
      }
    }
  }

  lemma NotNamed(w: World, n: Nodes, source: Path, name: string)
    requires Sound(w, n, source) && IsFolder(n, source) && !Lists(w.list(source), name)
    ensures source + [name] !in n
  {
    hide Lists;
    assert source + [] == source;
    assert ListsFolder(w, n, source + []);
  }

  /** What the source's listing does not name does not exist, nor anything below it. */
  lemma {:induction false} NotListed(w: World, n: Nodes, source: Path, s: Path)
    requires Sound(w, n, source) && IsFolder(n, source) && s != [] && !Lists(w.list(source), s[0])
    ensures source + s !in n
    decreases |s|
  {
    hide Sound, Lists;
    var front, name := s[..|s| - 1], s[|s| - 1];
    assert s == front + [name];
    if |s| == 1 {
      NotNamed(w, n, source, name);
      assert s == [name];
    } else {
      NotListed(w, n, source, front);
      NothingBelow(w, n, source, front, name);
    }
  }

  lemma NothingBelow(w: World, n: Nodes, source: Path, s: Path, name: string)
    requires Sound(w, n, source) && !IsFolder(n, source + s)
    ensures source + (s + [name]) !in n
  {
  }

  lemma SoundBelow(w: World, n: Nodes, source: Path, name: string)
    requires Sound(w, n, source)
    ensures Sound(w, n, source + [name])
  {
    forall s: Path | IsFolder(n, source + [name] + s) ensures ListsFolder(w, n, source + [name] + s) {
      Deeper(source, name, s);
      assert IsFolder(n, source + ([name] + s));
    }
    forall s: Path, x: string | source + [name] + (s + [x]) in n ensures IsFolder(n, source + [name] + s) {
      Deeper(source, name, s + [x]);
      Deeper(source, name, s);
      assert [name] + (s + [x]) == [name] + s + [x];
      assert source + (([name] + s) + [x]) in n;
    }
  }

  /** What a copy that succeeds has shown: the target holds the merged tree, the bytes were counted within the
      limit, and the source is at most so deep. */
  ghost predicate Succeeded(w: World, n: Nodes, source: Path, d: Disk, target: Path, depth: nat, total: nat, r: Copied)
  {
    Merges(n, source, d.nodes, target, r.disk.nodes) &&
    r.total == total + SizeAt(w, n, source, depth) && r.total <= MAX_TOTAL &&
    Shallow(n, source, depth)
  }

  /** Files and folders only, no deeper than the limit. */
  ghost predicate Shallow(n: Nodes, source: Path, depth: nat) {
    forall s: Path :: source + s in n ==> depth + |s| <= MAX_DEPTH + 1 && !n[source + s].Special?
  }

  /** A copy that succeeds merges the source's tree into what was at the target. The source is read while the
      target is written, so the two are apart and the source is that of storage `n`. */
  lemma {:induction false} CopyMerges(w: World, n: Nodes, d: Disk, source: Path, target: Path, depth: nat, total: nat)
    requires Apart(source, target) && Sound(w, n, source) && SameBelow(n, d.nodes, source) && total <= MAX_TOTAL
    requires CopyTree(w, d, source, target, depth, total).ok
    ensures IsFolder(n, source)
    ensures Succeeded(w, n, source, d, target, depth, total, CopyTree(w, d, source, target, depth, total))
    decreases if depth > MAX_DEPTH then 0 else MAX_DEPTH + 1 - depth, 2, 0
  {
    hide CopyEntries, Sound, Under, Mkdir, SameTree, SizeOf, Merges, Shallow;
    var e := Mkdir(w, d, target).0;
    var f := Look(e);
    MkdirConfined(w, d, target);
    SourceStays(n, d.nodes, e.nodes, source, target);
    BelowOf(n, d.nodes, source, []);
    BelowOf(n, e.nodes, source, []);
    assert source + [] == source;
    MkdirStarts(w, n, d, source, target);
    EntriesMerge(w, n, d.nodes, f, source, target, 0, depth, total);
    DoneMerges(w, n, source, d.nodes, target, CopyEntries(w, f, source, target, 0, depth, total).disk.nodes);
    ShallowTree(w, n, source, depth);
    SizeOfNone(w, n, source, depth);
  }

  lemma SizeOfNone(w: World, n: Nodes, p: Path, depth: nat)
    requires depth <= MAX_DEPTH
    ensures SizeOf(w, n, p, 0, depth) == 0
  {
  }

  lemma SourceStays(n: Nodes, m: Nodes, after: Nodes, source: Path, target: Path)
    requires Apart(source, target) && SameBelow(n, m, source) && SameOutside(m, after, target)
    ensures SameBelow(n, after, source)
  {
    ApartTree(m, after, target, source);
    forall s: Path ensures At(n, source + s) == At(after, source + s) {
      assert At(n, source + s) == At(m, source + s);
      assert At(m, source + s) == At(after, source + s);
    }
  }

  lemma MkdirStarts(w: World, n: Nodes, d: Disk, source: Path, target: Path)
    requires Mkdir(w, d, target).1
    ensures Done(w, n, source, d.nodes, target, Mkdir(w, d, target).0.nodes, 0)
  {
    var after := Mkdir(w, d, target).0.nodes;
    forall name: string ensures SameTree(d.nodes, target + [name], after, target + [name]) {
      forall s: Path ensures At(d.nodes, target + [name] + s) == At(after, target + [name] + s) {
        assert |target + [name] + s| > |target|;
      }
    }
  }

  ghost predicate ShallowEntries(w: World, n: Nodes, source: Path, depth: nat, i: nat)
    requires i <= |w.list(source)|
  {
    forall j :: 0 <= j < i ==> Shallow(n, source + [w.list(source)[j].name], depth + 1)
  }

  lemma ShallowTree(w: World, n: Nodes, source: Path, depth: nat)
    requires Sound(w, n, source) && IsFolder(n, source) && depth <= MAX_DEPTH
    requires ShallowEntries(w, n, source, depth, |w.list(source)|)
    ensures Shallow(n, source, depth)
  {
    forall s: Path | source + s in n ensures depth + |s| <= MAX_DEPTH + 1 && !n[source + s].Special? {
      if s == [] {
        assert source + s == source;
      } else {
        var name, rest := s[0], s[1..];
        assert s == [name] + rest;
        Deeper(source, name, rest);
        if !Lists(w.list(source), name) {
          NotListed(w, n, source, s);
        } else {
          var j :| 0 <= j < |w.list(source)| && w.list(source)[j].name == name;
          assert Shallow(n, source + [w.list(source)[j].name], depth + 1);
          assert source + [name] + rest in n;
        }
      }
    }
  }

  lemma {:induction false} EntriesMerge(w: World, n: Nodes, m: Nodes, d: Disk, source: Path, target: Path, i: nat,
                                        depth: nat, total: nat)
    requires Apart(source, target) && Sound(w, n, source) && SameBelow(n, d.nodes, source) && IsFolder(n, source)
    requires depth <= MAX_DEPTH && i <= |w.list(source)| && total <= MAX_TOTAL
    requires Done(w, n, source, m, target, d.nodes, i) && ShallowEntries(w, n, source, depth, i)
    requires CopyEntries(w, d, source, target, i, depth, total).ok
    ensures var r := CopyEntries(w, d, source, target, i, depth, total);
            && Done(w, n, source, m, target, r.disk.nodes, |w.list(source)|)
            && r.total + SizeOf(w, n, source, i, depth) == total + SizeOf(w, n, source, |w.list(source)|, depth)
            && r.total <= MAX_TOTAL && ShallowEntries(w, n, source, depth, |w.list(source)|)
    decreases MAX_DEPTH + 1 - depth, 1, |w.list(source)| - i
  {
    hide CopyEntry, Sound, Under, Done, SameTree, SizeAt, Merges, Shallow;
    if i < |w.list(source)| {
      var e := Look(d);
      var l := w.list(source)[i];
      var r := CopyEntry(w, e, source, target, l, depth, total);
      EntryMerges(w, n, e, source, target, l, i, depth, total);
      EntryStaysBelow(w, e, source, target, l, depth, total);
      OutsideWider(e.nodes, r.disk.nodes, target, [l.name]);
      SourceStays(n, e.nodes, r.disk.nodes, source, target);
      DoneStep(w, n, source, m, target, e.nodes, r.disk.nodes, i);
      EntriesMerge(w, n, m, r.disk, source, target, i + 1, depth, r.total);
    }
  }

  /** The entry's tree is merged into what is at its target now. */
  lemma {:induction false} EntryMerges(w: World, n: Nodes, d: Disk, source: Path, target: Path, l: Listed, i: nat,
                                       depth: nat, total: nat)
    requires Apart(source, target) && Sound(w, n, source) && SameBelow(n, d.nodes, source) && IsFolder(n, source)
    requires depth <= MAX_DEPTH && total <= MAX_TOTAL && i < |w.list(source)| && l == w.list(source)[i]
    requires CopyEntry(w, d, source, target, l, depth, total).ok
    ensures Succeeded(w, n, source + [l.name], d, target + [l.name], depth + 1, total,
                      CopyEntry(w, d, source, target, l, depth, total))
    decreases MAX_DEPTH + 1 - depth, 0, 0
  {
    hide CopyTree, CopyFile, Sound, Under, SizeAt, Merges, Shallow;
    ChildrenApart(source, target, l.name, l.name);
    SoundBelow(w, n, source, l.name);
    ChildSame(n, d.nodes, source, l.name);
    if l.kind == FolderKind {
      CopyMerges(w, n, d, source + [l.name], target + [l.name], depth + 1, total);
    } else {
      FileEntryMerges(w, n, d, source, target, l, i, depth, total);
    }
  }

  lemma ChildSame(n: Nodes, m: Nodes, p: Path, name: string)
    requires SameBelow(n, m, p)
    ensures SameBelow(n, m, p + [name]) && At(m, p + [name]) == At(n, p + [name])
  {
    BelowOf(n, m, p, [name]);
    forall s: Path ensures At(n, p + [name] + s) == At(m, p + [name] + s) {
      Deeper(p, name, s);
      BelowOf(n, m, p, [name] + s);
    }
  }

  lemma FileEntryMerges(w: World, n: Nodes, d: Disk, source: Path, target: Path, l: Listed, i: nat, depth: nat,
                        total: nat)
    requires Apart(source, target) && Sound(w, n, source) && SameBelow(n, d.nodes, source) && IsFolder(n, source)
    requires depth <= MAX_DEPTH && total <= MAX_TOTAL && source + [l.name] != target + [l.name]
    requires CopyFile(w, d, source + [l.name], target + [l.name], total).ok
    ensures Succeeded(w, n, source + [l.name], d, target + [l.name], depth + 1, total,
                      CopyFile(w, d, source + [l.name], target + [l.name], total))
  {
    hide CopyFile, Sound, Under, SameTree, SameOutside;
    var from, to := source + [l.name], target + [l.name];
    var after := CopyFile(w, d, from, to, total).disk.nodes;
    BelowOf(n, d.nodes, source, [l.name]);
    FileCopies(w, d, from, to, total);
    FileConfined(w, d, from, to, total);
    forall s: Path ensures At(after, to + s) == Merged(n, from, d.nodes, to, s) {
      FileAlone(w, n, source, l.name, s);
      if s == [] {
        assert from + s == from && to + s == to;
      } else {
        FileTouchesItself(w, d, from, to, total, s);
      }
    }
    forall s: Path | from + s in n ensures depth + 1 + |s| <= MAX_DEPTH + 1 && !n[from + s].Special? {
      FileAlone(w, n, source, l.name, s);
      assert s == [] && from + s == from;
    }
  }

  /** Nothing lies below a file. */
  lemma {:induction false} FileAlone(w: World, n: Nodes, source: Path, name: string, s: Path)
    requires Sound(w, n, source) && IsFile(n, source + [name])
    ensures s != [] ==> source + [name] + s !in n
    decreases |s|
  {
    if s != [] {
      hide Sound;
      var front, last := s[..|s| - 1], s[|s| - 1];
      FileAlone(w, n, source, name, front);
      assert source + [name] + [] == source + [name];
      SoundBelow(w, n, source, name);
      NothingBelow(w, n, source + [name], front, last);
      assert front + [last] == s;
    }
  }

  lemma {:induction false} DataTouches(w: World, d: Disk, from: Path, to: Path, done: nat, total: nat, q: Path)
    requires from != to && IsFile(d.nodes, from) && IsFile(d.nodes, to) && done <= |d.nodes[from].content| && q != to
    ensures At(CopyData(w, d, from, to, done, total).disk.nodes, q) == At(d.nodes, q)
    decreases |d.nodes[from].content| - done
  {
    hide Append;
    var content := d.nodes[from].content;
    var size := if |content| - done < CHUNK then |content| - done else CHUNK;
    if !(Fails(w, d) || total > MAX_TOTAL || size > MAX_TOTAL - total) && size > 0 {
      var e := Look(d);
      var (f, ok) := Append(w, e, to, content[done..done + size]);
      AppendKeeps(w, e, to, content[done..done + size], q);
      AppendKeeps(w, e, to, content[done..done + size], from);
      if ok {
        DataTouches(w, f, from, to, done + size, total + size, q);
      }
    }
  }

  lemma FileTouchesItself(w: World, d: Disk, from: Path, to: Path, total: nat, s: Path)
    requires from != to && s != []
    ensures At(CopyFile(w, d, from, to, total).disk.nodes, to + s) == At(d.nodes, to + s)
  {
    hide Create, CopyData;
    var e := Look(d);
    assert |to + s| > |to|;
    CreateKeeps(w, e, to, to + s);
    CreateKeeps(w, e, to, from);
    var (f, ok) := Create(w, e, to);
    if !Fails(w, d) && IsFile(d.nodes, from) && ok {
      DataTouches(w, f, from, to, 0, total, to + s);
    }
  }

  lemma ListsOneMore(ls: seq<Listed>, i: nat, name: string)
    requires i < |ls|
    ensures Lists(ls[..i + 1], name) <==> Lists(ls[..i], name) || ls[i].name == name
  {
    if Lists(ls[..i], name) {
      var j :| 0 <= j < i && ls[..i][j].name == name;
      assert ls[..i + 1][j].name == name;
    }
    if ls[i].name == name {
      assert ls[..i + 1][i].name == name;
    }
  }

  lemma DistinctEntries(w: World, n: Nodes, source: Path, i: nat)
    requires Sound(w, n, source) && IsFolder(n, source) && i < |w.list(source)|
    ensures !Lists(w.list(source)[..i], w.list(source)[i].name)
  {
    assert source + [] == source;
    assert ListsFolder(w, n, source + []);
  }

  lemma OtherChild(p: Path, x: string, y: string, s: Path)
    requires x != y
    ensures !Under(p + [x], p + [y] + s) && !Under(p + [x], p)
  {
    assert (p + [y] + s)[|p|] == y;
    if Under(p + [x], p + [y] + s) {
      UnderAt(p, x, p + [y] + s);
    }
  }

  lemma UnderAt(p: Path, x: string, r: Path)
    requires Under(p + [x], r)
    ensures |r| > |p| && r[|p|] == x
  {
    assert r[..|p| + 1][|p|] == (p + [x])[|p|];
  }

  lemma DoneStep(w: World, n: Nodes, source: Path, m: Nodes, target: Path, before: Nodes, after: Nodes, i: nat)
    requires i < |w.list(source)| && Sound(w, n, source) && IsFolder(n, source)
    requires Done(w, n, source, m, target, before, i)
    requires var name := w.list(source)[i].name;
             SameOutside(before, after, target + [name]) &&
             Merges(n, source + [name], before, target + [name], after)
    ensures Done(w, n, source, m, target, after, i + 1)
  {
    hide Sound;
    var ls := w.list(source);
    var mine := ls[i].name;
    DistinctEntries(w, n, source, i);
    OtherChild(target, mine, mine + "x", []);
    forall name: string
      ensures if Lists(ls[..i + 1], name) then Merges(n, source + [name], m, target + [name], after)
              else SameTree(m, target + [name], after, target + [name])
    {
      ListsOneMore(ls, i, name);
      if name == mine {
        MergesLater(n, source + [name], m, before, target + [name], after);
      } else {
        forall s: Path ensures At(after, target + [name] + s) == At(before, target + [name] + s) {
          OtherChild(target, mine, name, s);
        }
        ElsewhereSame(n, source + [name], m, target + [name], before, after);
      }
    }
  }

  lemma MergesLater(n: Nodes, source: Path, m: Nodes, before: Nodes, target: Path, after: Nodes)
    requires SameTree(m, target, before, target) && Merges(n, source, before, target, after)
    ensures Merges(n, source, m, target, after)
  {
    forall s: Path ensures At(after, target + s) == Merged(n, source, m, target, s) {
      assert At(m, target + s) == At(before, target + s);
      assert At(after, target + s) == Merged(n, source, before, target, s);
    }
  }

  lemma ElsewhereSame(n: Nodes, source: Path, m: Nodes, target: Path, before: Nodes, after: Nodes)
    requires forall s: Path :: At(after, target + s) == At(before, target + s)
    ensures Merges(n, source, m, target, before) ==> Merges(n, source, m, target, after)
    ensures SameTree(m, target, before, target) ==> SameTree(m, target, after, target)
  {
    if Merges(n, source, m, target, before) {
      forall s: Path ensures At(after, target + s) == Merged(n, source, m, target, s) {
        assert At(before, target + s) == Merged(n, source, m, target, s);
      }
    }
    if SameTree(m, target, before, target) {
      forall s: Path ensures At(m, target + s) == At(after, target + s) {
        assert At(m, target + s) == At(before, target + s);
      }
    }
  }

  // ---------- when the copy is exact ----------

  /** What is left at the target has a counterpart in the source that takes its place. */
  ghost predicate Covered(n: Nodes, source: Path, m: Nodes, target: Path) {
    forall s: Path :: target + s in m ==> source + s in n && (IsFolder(n, source + s) ==> IsFolder(m, target + s))
  }

  /** The target shows the same names, folders and contents as the source, all the way down. */
  ghost predicate Mirrors(n: Nodes, source: Path, after: Nodes, target: Path) {
    SameTree(n, source, after, target)
  }

  /** Merged trees are those of the source exactly when it covers what was there. */
  lemma MergedMirrors(n: Nodes, source: Path, m: Nodes, target: Path, after: Nodes, depth: nat)
    requires Merges(n, source, m, target, after) && Shallow(n, source, depth)
    ensures Mirrors(n, source, after, target) <==> Covered(n, source, m, target)
  {
    if Mirrors(n, source, after, target) {
      forall s: Path | target + s in m
        ensures source + s in n && (IsFolder(n, source + s) ==> IsFolder(m, target + s))
      {
        assert At(n, source + s) == At(after, target + s) == Merged(n, source, m, target, s);
      }
    }
    if Covered(n, source, m, target) {
      forall s: Path ensures At(n, source + s) == At(after, target + s) {
        assert At(after, target + s) == Merged(n, source, m, target, s);
      }
    }
  }

  /** A copy that succeeds leaves exactly the source's tree at the target if and only if the source covers what was
      there before, so in particular when nothing was; it is at most 17 folders deep and was counted byte by
      byte within the limit. */
  lemma CopyMirrors(w: World, d: Disk, source: Path, target: Path)
    requires Apart(source, target) && Sound(w, d.nodes, source) && CopyTree(w, d, source, target, 0, 0).ok
    ensures var r := CopyTree(w, d, source, target, 0, 0);
            && (Mirrors(d.nodes, source, r.disk.nodes, target) <==> Covered(d.nodes, source, d.nodes, target))
            && (Nothing(d.nodes, target) ==> Mirrors(d.nodes, source, r.disk.nodes, target))
            && r.total == SizeAt(w, d.nodes, source, 0) <= MAX_TOTAL
            && Shallow(d.nodes, source, 0)
  {
    hide CopyTree, Sound, SizeAt, Mirrors, Covered, Merges, Shallow;
    CopyMerges(w, d.nodes, d, source, target, 0, 0);
    var r := CopyTree(w, d, source, target, 0, 0);
    MergedMirrors(d.nodes, source, d.nodes, target, r.disk.nodes, 0);
    NothingIsCovered(d.nodes, source, d.nodes, target);
  }

  lemma NothingIsCovered(n: Nodes, source: Path, m: Nodes, target: Path)
    ensures Nothing(m, target) ==> Covered(n, source, m, target)
  {
    forall s: Path | Nothing(m, target) ensures target + s !in m {
      assert At(m, target + s) == None;
    }
  }
}
