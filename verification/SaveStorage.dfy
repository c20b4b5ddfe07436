/** The host storage as a map from paths to entries, with operations that can fail at any moment. */
module SaveStorage {
  import opened Wrappers
  import opened GuestMemory

  /** A path is the sequence of its components. */
  type Path = seq<string>

  datatype Node = File(content: seq<Byte>) | Folder | Special

  type Nodes = map<Path, Node>

  datatype Kind = FileKind | FolderKind | OtherKind

  datatype Listed = Listed(name: string, kind: Kind)

  /** The n-th operation on the storage fails when `fails(n)`; a failing removal keeps `keeps(n)` and a failing write
      stores `short(n)` bytes. Reading the folder at a path lists `list` of it. */
  datatype World = World(fails: nat -> bool, list: Path -> seq<Listed>, keeps: nat -> set<Path>, short: nat -> nat)

  /** The storage, and what it was after each operation so far. */
  datatype Disk = Disk(nodes: Nodes, steps: seq<Nodes>)

  // ---------- trees ----------

  predicate Under(p: Path, q: Path) {
    |p| <= |q| && q[..|p|] == p
  }

  predicate Apart(p: Path, q: Path) {
    !Under(p, q) && !Under(q, p)
  }

  function At(n: Nodes, p: Path): Option<Node> {
    if p in n then Some(n[p]) else None
  }

  predicate IsFolder(n: Nodes, p: Path) {
    p in n && n[p].Folder?
  }

  predicate IsFile(n: Nodes, p: Path) {
    p in n && n[p].File?
  }

  function Parent(p: Path): Path {
    if p == [] then [] else p[..|p| - 1]
  }

  /** Nothing changed outside the tree at `p`. */
  ghost predicate SameOutside(n: Nodes, m: Nodes, p: Path) {
    forall q: Path :: !Under(p, q) ==> At(m, q) == At(n, q)
  }

  /** The tree at `q` in `m` is the tree at `p` in `n`, or neither exists. */
  ghost predicate SameTree(n: Nodes, p: Path, m: Nodes, q: Path) {
    forall s: Path :: At(n, p + s) == At(m, q + s)
  }

  ghost predicate Nothing(n: Nodes, p: Path) {
    forall s: Path :: At(n, p + s) == None
  }

  lemma UnderSelf(p: Path, s: Path)
    ensures Under(p, p + s) && (p + s)[|p|..] == s
  {
  }

  lemma UnderSplit(p: Path, q: Path)
    requires Under(p, q)
    ensures q == p + q[|p|..]
  {
  }

  lemma UnderThrough(p: Path, q: Path, r: Path)
    requires Under(p, q) && Under(q, r)
    ensures Under(p, r)
  {
    assert r[..|p|] == r[..|q|][..|p|];
  }

  lemma UnderBoth(p: Path, q: Path, r: Path)
    requires Under(p, r) && Under(q, r)
    ensures !Apart(p, q)
  {
    if |p| <= |q| {
      assert r[..|q|][..|p|] == r[..|p|];
    } else {
      assert r[..|p|][..|q|] == r[..|q|];
    }
  }

  /** Trees that are apart stay apart all the way down. */
  lemma ApartBelow(p: Path, q: Path, s: Path)
    requires Apart(p, q)
    ensures !Under(p, q + s)
  {
    UnderSelf(q, s);
    if Under(p, q + s) {
      UnderBoth(p, q, q + s);
    }
  }

  lemma ApartTree(n: Nodes, m: Nodes, p: Path, q: Path)
    requires SameOutside(n, m, p) && Apart(p, q)
    ensures SameTree(n, q, m, q)
  {
    forall s: Path ensures At(n, q + s) == At(m, q + s) {
      ApartBelow(p, q, s);
    }
  }

  lemma OutsideTwice(n: Nodes, m: Nodes, o: Nodes, p: Path)
    requires SameOutside(n, m, p) && SameOutside(m, o, p)
    ensures SameOutside(n, o, p)
  {
  }

  /** A change inside a subtree is a change inside the tree. */
  lemma OutsideWider(n: Nodes, m: Nodes, p: Path, s: Path)
    requires SameOutside(n, m, p + s)
    ensures SameOutside(n, m, p)
  {
    forall q: Path | !Under(p, q) ensures At(m, q) == At(n, q) {
      if Under(p + s, q) {
        UnderSelf(p, s);
        UnderThrough(p, p + s, q);
      }
    }
  }

  // ---------- operations ----------

  function Next(d: Disk, n: Nodes): Disk {
    Disk(n, d.steps + [n])
  }

  function Fails(w: World, d: Disk): bool {
    w.fails(|d.steps|)
  }

  /** Reads, listings, opens for reading and flushes change nothing. */
  function Look(d: Disk): Disk {
    Next(d, d.nodes)
  }

  /** An entry that exists already is as good as made. */
  function Mkdir(w: World, d: Disk, p: Path): (Disk, bool) {
    if Fails(w, d) then (Look(d), false)
    else if p in d.nodes then (Look(d), true)
    else if !IsFolder(d.nodes, Parent(p)) then (Look(d), false)
    else (Next(d, d.nodes[p := Folder]), true)
  }

  /** Opens for writing, making or emptying the file. */
  function Create(w: World, d: Disk, p: Path): (r: (Disk, bool))
    ensures r.1 ==> IsFile(r.0.nodes, p)
  {
    if Fails(w, d) || !IsFolder(d.nodes, Parent(p)) || (p in d.nodes && !d.nodes[p].File?) then (Look(d), false)
    else (Next(d, d.nodes[p := File([])]), true)
  }

  function Shortened(data: seq<Byte>, size: nat): seq<Byte> {
    if size < |data| then data[..size] else data
  }

  /** A write that fails may have stored the beginning. */
  function Append(w: World, d: Disk, p: Path, data: seq<Byte>): (r: (Disk, bool))
    requires IsFile(d.nodes, p)
    ensures IsFile(r.0.nodes, p)
  {
    var stored := if Fails(w, d) then Shortened(data, w.short(|d.steps|)) else data;
    (Next(d, d.nodes[p := File(d.nodes[p].content + stored)]), !Fails(w, d))
  }

  predicate Kept(keeps: set<Path>, p: Path, q: Path) {
    forall k :: |p| <= k <= |q| ==> q[..k] in keeps
  }

  function Remains(n: Nodes, keeps: set<Path>, p: Path): Nodes {
    map q | q in n && (!Under(p, q) || Kept(keeps, p, q)) :: n[q]
  }

  /** Removes a tree, first some of it and then the rest; a failing removal stops in between. */
  function CleanUp(w: World, d: Disk, p: Path): Disk {
    var some := Next(d, Remains(d.nodes, w.keeps(|d.steps|), p));
    if Fails(w, d) then some else Next(some, Remains(some.nodes, {}, p))
  }

  function Moved(n: Nodes, a: Path, b: Path): Nodes {
    var stays := set q | q in n && !Under(a, q) && !Under(b, q);
    var comes := set q | q in n && Under(a, q) :: b + q[|a|..];
    map q | q in stays + comes ::
      if Under(b, q) && a + q[|b|..] in n then n[a + q[|b|..]] else if q in n then n[q] else Folder
  }

  /** Moves a tree to a path where nothing is; refused otherwise. */
  function Rename(w: World, d: Disk, a: Path, b: Path): (Disk, bool) {
    if Fails(w, d) || a !in d.nodes || b in d.nodes || !Apart(a, b) || !IsFolder(d.nodes, Parent(b))
    then (Look(d), false)
    else (Next(d, Moved(d.nodes, a, b)), true)
  }

  // ---------- what they do ----------

  lemma MovedAt(n: Nodes, a: Path, b: Path, q: Path)
    requires Apart(a, b)
    ensures At(Moved(n, a, b), q) ==
              if Under(b, q) then At(n, a + q[|b|..]) else if Under(a, q) then None else At(n, q)
  {
    if Under(b, q) {
      UnderSplit(b, q);
      UnderSelf(a, q[|b|..]);
      ApartBelow(a, b, q[|b|..]);
      forall x | x in n && Under(a, x) && b + x[|a|..] == q ensures x == a + q[|b|..] {
        UnderSplit(a, x);
        UnderSelf(b, x[|a|..]);
      }
    } else {
      forall x | x in n && Under(a, x) ensures b + x[|a|..] != q {
        UnderSelf(b, x[|a|..]);
      }
    }
  }

  /** A rename that succeeds puts exactly the tree at `a` at `b`, leaves nothing at `a`, and changes nothing else; one
      that fails changes nothing. */
  lemma RenameMoves(w: World, d: Disk, a: Path, b: Path)
    ensures var (e, ok) := Rename(w, d, a, b);
            if ok then
              && SameTree(d.nodes, a, e.nodes, b) && Nothing(e.nodes, a) && a in d.nodes && b in e.nodes
              && (forall q: Path :: !Under(a, q) && !Under(b, q) ==> At(e.nodes, q) == At(d.nodes, q))
            else e.nodes == d.nodes
  {
    hide Moved;
    var (e, ok) := Rename(w, d, a, b);
    if ok {
      forall s: Path ensures At(e.nodes, b + s) == At(d.nodes, a + s) && At(e.nodes, a + s) == None {
        UnderSelf(a, s);
        UnderSelf(b, s);
        ApartBelow(b, a, s);
        MovedAt(d.nodes, a, b, b + s);
        MovedAt(d.nodes, a, b, a + s);
      }
      forall q: Path | !Under(a, q) && !Under(b, q) ensures At(e.nodes, q) == At(d.nodes, q) {
        MovedAt(d.nodes, a, b, q);
      }
      assert b + [] == b && a + [] == a;
      assert At(e.nodes, b + []) == At(d.nodes, a + []);
    }
  }

  /** Renaming back restores the storage. */
  lemma RenameBackRestores(w: World, d: Disk, a: Path, b: Path)
    requires Rename(w, d, a, b).1 && Rename(w, Rename(w, d, a, b).0, b, a).1 && Nothing(d.nodes, b)
    ensures Rename(w, Rename(w, d, a, b).0, b, a).0.nodes == d.nodes
  {
    hide Rename;
    RenameMoves(w, d, a, b);
    var e := Rename(w, d, a, b).0;
    RenameMoves(w, e, b, a);
    var f := Rename(w, e, b, a).0;
    forall q: Path ensures At(f.nodes, q) == At(d.nodes, q) {
      if Under(a, q) {
        UnderSplit(a, q);
        assert At(e.nodes, b + q[|a|..]) == At(d.nodes, a + q[|a|..]);
      } else if Under(b, q) {
        UnderSplit(b, q);
        assert At(f.nodes, b + q[|b|..]) == None == At(d.nodes, b + q[|b|..]);
      }
    }
    SameEverywhere(d.nodes, f.nodes);
  }

  lemma SameEverywhere(n: Nodes, m: Nodes)
    requires forall q: Path :: At(n, q) == At(m, q)
    ensures n == m
  {
    forall q: Path ensures q in n <==> q in m {
      assert At(n, q) == At(m, q);
    }
    forall q: Path | q in n ensures n[q] == m[q] {
      assert At(n, q) == At(m, q);
    }
  }

  /** The operations so far, and the storage after them, changed nothing outside the tree at `p`. */
  ghost predicate Confined(d: Disk, e: Disk, p: Path) {
    |d.steps| <= |e.steps| && e.steps[..|d.steps|] == d.steps && SameOutside(d.nodes, e.nodes, p) &&
    forall k :: |d.steps| <= k < |e.steps| ==> SameOutside(d.nodes, e.steps[k], p)
  }

  lemma ConfinedStep(d: Disk, n: Nodes, p: Path)
    requires SameOutside(d.nodes, n, p)
    ensures Confined(d, Next(d, n), p)
  {
  }

  lemma ConfinedNone(d: Disk, p: Path)
    ensures Confined(d, d, p) && Confined(d, Look(d), p)
  {
  }

  lemma ConfinedTwice(d: Disk, e: Disk, f: Disk, p: Path)
    requires Confined(d, e, p) && Confined(e, f, p)
    ensures Confined(d, f, p)
  {
    hide SameOutside;
    OutsideTwice(d.nodes, e.nodes, f.nodes, p);
    assert f.steps[..|d.steps|] == f.steps[..|e.steps|][..|d.steps|];
    forall k | |d.steps| <= k < |f.steps| ensures SameOutside(d.nodes, f.steps[k], p) {
      if k < |e.steps| {
        assert f.steps[..|e.steps|][k] == e.steps[k];
      } else {
        OutsideTwice(d.nodes, e.nodes, f.steps[k], p);
      }
    }
  }

  lemma ConfinedWider(d: Disk, e: Disk, p: Path, s: Path)
    requires Confined(d, e, p + s)
    ensures Confined(d, e, p)
  {
    hide SameOutside;
    OutsideWider(d.nodes, e.nodes, p, s);
    forall k | |d.steps| <= k < |e.steps| ensures SameOutside(d.nodes, e.steps[k], p) {
      OutsideWider(d.nodes, e.steps[k], p, s);
    }
  }

  lemma RemainsOutside(n: Nodes, keeps: set<Path>, p: Path)
    ensures SameOutside(n, Remains(n, keeps, p), p)
    ensures keeps == {} ==> Nothing(Remains(n, keeps, p), p)
  {
    forall s: Path | keeps == {} ensures At(Remains(n, keeps, p), p + s) == None {
      UnderSelf(p, s);
      assert (p + s)[..|p|] !in keeps;
    }
  }

  /** A cleanup changes only its tree, and removes it unless it fails. */
  lemma CleanUpRemoves(w: World, d: Disk, p: Path)
    ensures Confined(d, CleanUp(w, d, p), p)
    ensures !Fails(w, d) ==> Nothing(CleanUp(w, d, p).nodes, p)
  {
    hide Remains, SameOutside;
    var n := Remains(d.nodes, w.keeps(|d.steps|), p);
    RemainsOutside(d.nodes, w.keeps(|d.steps|), p);
    ConfinedStep(d, n, p);
    var some := Next(d, n);
    RemainsOutside(some.nodes, {}, p);
    ConfinedStep(some, Remains(some.nodes, {}, p), p);
    ConfinedTwice(d, some, Next(some, Remains(some.nodes, {}, p)), p);
  }

  /** A path that is updated lies under itself. */
  lemma UpdateOutside(n: Nodes, p: Path, x: Node)
    ensures SameOutside(n, n[p := x], p)
  {
  }

  lemma MkdirConfined(w: World, d: Disk, p: Path)
    ensures Confined(d, Mkdir(w, d, p).0, p)
  {
    UpdateOutside(d.nodes, p, Folder);
    ConfinedStep(d, d.nodes[p := Folder], p);
    ConfinedNone(d, p);
  }

  lemma CreateConfined(w: World, d: Disk, p: Path)
    ensures Confined(d, Create(w, d, p).0, p)
  {
    UpdateOutside(d.nodes, p, File([]));
    ConfinedStep(d, d.nodes[p := File([])], p);
    ConfinedNone(d, p);
  }

  lemma AppendConfined(w: World, d: Disk, p: Path, data: seq<Byte>)
    requires IsFile(d.nodes, p)
    ensures Confined(d, Append(w, d, p, data).0, p)
  {
    var n := Append(w, d, p, data).0.nodes;
    UpdateOutside(d.nodes, p, n[p]);
    ConfinedStep(d, n, p);
  }
}
