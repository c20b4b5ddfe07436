/** The region state and the array of trees, updated in place. */
module TcgState {
  import opened Wrappers
  import opened TbTree
  import opened TcgRegion
  import opened TcgAllocation

  class RegionState {
    var layout: Layout
    const reserve: nat
    var current: nat
    var full: int
    var contexts: seq<Context>
    const trees: array<Tree>

    ghost predicate Valid()
      reads this
    {
      Shaped(State()) && trees.Length == layout.n
    }

    ghost function State(): Regions
      reads this
    {
      Regions(layout, reserve, current, full, contexts)
    }

    constructor (c: Layout, reserve: nat)
      requires WellLaid(c)
      ensures Valid() && fresh(trees) && State() == Regions(c, reserve, 0, 0, [])
      ensures Agrees(c, trees[..], {})
    {
      layout, this.reserve, current, full, contexts := c, reserve, 0, 0, [];
      trees := new Tree[c.n](_ => Leaf);
      new;
      ResetAgrees(c, trees[..]);
    }

    /** The context for the next region; true when there is none. */
    method AllocLocked() returns (x: Context, err: bool)
      requires Valid()
      modifies this`current
      ensures Valid() && err == (old(current) == layout.n)
      ensures err ==> current == old(current)
      ensures !err ==> current == old(current) + 1 && x == Assign(layout, reserve, old(current))
    {
      if current == layout.n {
        return Context(0, 0, 0, 0, 0), true;
      }
      x := Assign(layout, reserve, current);
      current := current + 1;
      err := false;
    }

    method AllocRegion(i: nat) returns (err: bool)
      requires Valid() && i < |contexts|
      modifies this
      ensures Valid() && layout == old(layout) && (State(), err) == Alloc(old(State()), i)
    {
      var sizeFull := contexts[i].size;
      var x;
      x, err := AllocLocked();
      if !err {
        contexts := contexts[i := x];
        full := full + (sizeFull - reserve);
      }
    }

    /** The first region of a new context; false where the source asserts. */
    method RegisterContext() returns (ok: bool)
      requires Valid()
      modifies this
      ensures Valid() && layout == old(layout) && ok == InitialAlloc(old(State())).Some?
      ensures ok ==> State() == InitialAlloc(old(State())).value
    {
      var x, err := AllocLocked();
      ok := !err;
      if ok {
        contexts := contexts + [x];
      }
    }

    /** Starts a new epoch: a region for every context, and empty trees. */
    method ResetRegions() returns (ok: bool)
      requires Valid()
      modifies this, trees
      ensures Valid() && layout == old(layout) && ok == ResetAll(old(State())).Some?
      ensures ok ==> State() == ResetAll(old(State())).value && Agrees(layout, trees[..], {})
    {
      current, full := 0, 0;
      ghost var start := State();
      for i := 0 to |contexts|
        invariant Valid() && layout == old(layout) && |contexts| == |old(contexts)|
        invariant ResetFrom(start, 0) == ResetFrom(State(), i)
      {
        var x, err := AllocLocked();
        if err {
          return false;
        }
        contexts := contexts[i := x];
      }
      for r := 0 to trees.Length
        invariant Valid() && forall q :: 0 <= q < r ==> trees[q] == Leaf
        invariant State() == ResetAll(old(State())).value && layout == old(layout)
      {
        trees[r] := Leaf;
      }
      ResetAgrees(layout, trees[..]);
      ok := true;
    }

    /** All code in the cache: the full regions and what each context has generated. */
    method CountCode() returns (total: int)
      requires Valid()
      ensures total == CodeSize(State())
    {
      total := full;
      for i := 0 to |contexts|
        invariant total == full + Used(contexts[..i])
      {
        total := total + (contexts[i].ptr - contexts[i].buffer);
        assert contexts[..i + 1][..i] == contexts[..i];
      }
      assert contexts[..|contexts|] == contexts;
    }

    method InsertTb(e: Entry) returns (ok: bool)
      requires Valid()
      modifies trees
      ensures Valid() && ok == TreeOf(layout, e.tc.ptr).Some?
      ensures trees[..] == InsertAll(layout, old(trees[..]), e)
    {
      var r := TreeOf(layout, e.tc.ptr);
      ok := r.Some?;
      if ok {
        trees[r.value] := Insert(trees[r.value], e);
      }
    }

    method RemoveTb(e: Entry) returns (ok: bool)
      requires Valid()
      modifies trees
      ensures Valid() && ok == TreeOf(layout, e.tc.ptr).Some?
      ensures trees[..] == RemoveAll(layout, old(trees[..]), e)
    {
      var r := TreeOf(layout, e.tc.ptr);
      ok := r.Some?;
      if ok {
        trees[r.value] := Remove(trees[r.value], e.tc);
      }
    }

    /** Walks down the tree of the address. */
    method LookupTb(p: nat, ghost live: set<Entry>) returns (found: Option<Entry>)
      requires Valid() && Live(layout, live) && Agrees(layout, trees[..], live)
      ensures found.Some? ==> found.value in live && Covers(found.value.tc, p)
      ensures forall e :: e in live && Covers(e.tc, p) ==> found == Some(e)
    {
      LookupIsFlat(layout, trees[..], live, p);
      var r := TreeOf(layout, p);
      if r.None? {
        return None;
      }
      var t := trees[r.value];
      while t.Node? && Compare(Key(p), t.entry.tc) != 0
        invariant Lookup(trees[r.value], Key(p)) == Lookup(t, Key(p))
        decreases t
      {
        t := if Compare(Key(p), t.entry.tc) < 0 then t.left else t.right;
      }
      found := if t.Node? then Some(t.entry) else None;
    }
  }
}
