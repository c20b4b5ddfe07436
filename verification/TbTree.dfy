/** The search tree that indexes translation blocks by the code they occupy. */
module TbTree {
  import opened Wrappers

  /** Where the code of a block lies; a size of 0 marks a lookup key. */
  datatype Tc = Tc(ptr: nat, size: nat)

  datatype Entry = Entry(tc: Tc, tb: nat)

  datatype Tree = Leaf | Node(left: Tree, entry: Entry, right: Tree)

  function ComparePointer(p: nat, s: Tc): int {
    if p >= s.ptr + s.size then 1 else if p < s.ptr then -1 else 0
  }

  /** The comparator given to the tree. */
  function Compare(a: Tc, b: Tc): int {
    if a.size != 0 && b.size != 0 then
      if a.ptr > b.ptr then 1 else if a.ptr < b.ptr then -1 else 0
    else if a.size == 0 then ComparePointer(a.ptr, b)
    else ComparePointer(b.ptr, a)
  }

  predicate Covers(tc: Tc, p: nat) {
    tc.ptr <= p < tc.ptr + tc.size
  }

  predicate Before(a: Tc, b: Tc) {
    a.ptr + a.size <= b.ptr
  }

  predicate Apart(a: Tc, b: Tc) {
    Before(a, b) || Before(b, a)
  }

  function Key(p: nat): Tc {
    Tc(p, 0)
  }

  /** On live blocks the comparator is the order of their code; a lookup key falls between two blocks the same
      way whichever of them it is compared with. */
  lemma ComparatorIsConsistent(a: Tc, b: Tc, p: nat)
    requires a.size > 0 && b.size > 0 && Apart(a, b)
    ensures Compare(a, b) == -1 <==> Before(a, b)
    ensures Compare(a, b) == -Compare(b, a)
    ensures Compare(Key(p), a) == 0 <==> Covers(a, p)
    ensures Compare(a, b) == -1 && Compare(Key(p), b) >= 0 ==> Compare(Key(p), a) == 1
    ensures Compare(a, b) == -1 && Compare(Key(p), a) <= 0 ==> Compare(Key(p), b) == -1
  {
  }

  /** With the key on the right the sign is not reversed: the tree must pass the key first. It makes no
      difference exactly when the block covers the key. */
  lemma KeyMustComeFirst(a: Tc, p: nat)
    requires a.size > 0
    ensures Compare(a, Key(p)) == Compare(Key(p), a)
    ensures Compare(a, Key(p)) == -Compare(Key(p), a) <==> Covers(a, p)
  {
  }

  // ---------- operations ----------

  function Lookup(t: Tree, key: Tc): Option<Entry> {
    match t
    case Leaf => None
    case Node(l, e, r) =>
      var c := Compare(key, e.tc);
      if c == 0 then Some(e) else if c < 0 then Lookup(l, key) else Lookup(r, key)
  }

  /** A block with the key of another one replaces it. */
  function Insert(t: Tree, e: Entry): Tree {
    match t
    case Leaf => Node(Leaf, e, Leaf)
    case Node(l, x, r) =>
      var c := Compare(e.tc, x.tc);
      if c == 0 then Node(l, Entry(x.tc, e.tb), r)
      else if c < 0 then Node(Insert(l, e), x, r)
      else Node(l, x, Insert(r, e))
  }

  function Least(t: Tree): Entry
    requires t.Node?
  {
    if t.left.Leaf? then t.entry else Least(t.left)
  }

  function RemoveLeast(t: Tree): Tree
    requires t.Node?
  {
    if t.left.Leaf? then t.right else Node(RemoveLeast(t.left), t.entry, t.right)
  }

  function Remove(t: Tree, key: Tc): Tree {
    match t
    case Leaf => Leaf
    case Node(l, x, r) =>
      var c := Compare(key, x.tc);
      if c < 0 then Node(Remove(l, key), x, r)
      else if c > 0 then Node(l, x, Remove(r, key))
      else if r.Leaf? then l
      else Node(l, Least(r), RemoveLeast(r))
  }

  // ---------- contents ----------

  predicate In(t: Tree, e: Entry) {
    t.Node? && (t.entry == e || In(t.left, e) || In(t.right, e))
  }

  ghost predicate AllBefore(t: Tree, tc: Tc) {
    forall e :: In(t, e) ==> Before(e.tc, tc)
  }

  ghost predicate AllAfter(t: Tree, tc: Tc) {
    forall e :: In(t, e) ==> Before(tc, e.tc)
  }

  /** Blocks are non-empty and lie in the order of the tree, whatever its shape. */
  ghost predicate Ordered(t: Tree) {
    t.Node? ==> t.entry.tc.size > 0 && AllBefore(t.left, t.entry.tc) && AllAfter(t.right, t.entry.tc) &&
                Ordered(t.left) && Ordered(t.right)
  }

  lemma {:induction false} OrderedSizes(t: Tree, e: Entry)
    requires Ordered(t) && In(t, e)
    ensures e.tc.size > 0
  {
    if e != t.entry {
      if In(t.left, e) { OrderedSizes(t.left, e); } else { OrderedSizes(t.right, e); }
    }
  }

  /** A lookup returns the block that covers the address, and nothing when none does. */
  lemma {:induction false} LookupFindsCover(t: Tree, p: nat)
    requires Ordered(t)
    ensures var r := Lookup(t, Key(p));
            && (r.Some? ==> In(t, r.value) && Covers(r.value.tc, p))
            && (forall e :: In(t, e) && Covers(e.tc, p) ==> r == Some(e))
  {
    if t.Node? {
      LookupFindsCover(t.left, p);
      LookupFindsCover(t.right, p);
    }
  }

  lemma {:induction false} InsertAdds(t: Tree, e: Entry)
    requires Ordered(t) && e.tc.size > 0 && forall x :: In(t, x) ==> Apart(x.tc, e.tc)
    ensures Ordered(Insert(t, e)) && forall x :: In(Insert(t, e), x) <==> In(t, x) || x == e
  {
    if t.Node? {
      assert In(t, t.entry);
      if Compare(e.tc, t.entry.tc) < 0 {
        InsertAdds(t.left, e);
      } else {
        InsertAdds(t.right, e);
      }
    }
  }

  /** Inserting at the place of a live block keeps that block's code and takes the new block. */
  lemma {:induction false} InsertReplaces(t: Tree, e: Entry, x: Entry)
    requires Ordered(t) && In(t, x) && e.tc == x.tc
    ensures forall d :: In(Insert(t, e), d) <==> d == e || (In(t, d) && d != x)
  {
    OrderedSizes(t, x);
    if x == t.entry {
    } else if In(t.left, x) {
      InsertReplaces(t.left, e, x);
    } else {
      InsertReplaces(t.right, e, x);
    }
  }

  lemma {:induction false} LeastFirst(t: Tree)
    requires Ordered(t) && t.Node?
    ensures In(t, Least(t)) && Ordered(RemoveLeast(t)) && AllAfter(RemoveLeast(t), Least(t).tc)
    ensures forall x :: In(RemoveLeast(t), x) <==> In(t, x) && x != Least(t)
    ensures Least(t).tc.size > 0
  {
    if t.left.Node? {
      LeastFirst(t.left);
    }
  }

  lemma {:induction false} RemoveRemoves(t: Tree, e: Entry)
    requires Ordered(t) && In(t, e)
    ensures Ordered(Remove(t, e.tc)) && forall x :: In(Remove(t, e.tc), x) <==> In(t, x) && x != e
  {
    OrderedSizes(t, e);
    if e == t.entry {
      if t.right.Node? {
        LeastFirst(t.right);
      }
    } else if In(t.left, e) {
      RemoveRemoves(t.left, e);
    } else {
      RemoveRemoves(t.right, e);
    }
  }
}
