/** What loading leaves, and when it succeeds, read off the program headers alone. */
module LoaderHeaders {
  import opened Wrappers
  import opened GuestMemory
  import opened Loader

  /** The loadable headers, in order. */
  function Loadables(headers: seq<Header>): (ls: seq<Header>)
    ensures forall h :: h in ls <==> h in headers && h.loadable
  {
    if headers == [] then []
    else
      var last := headers[|headers| - 1];
      assert headers == headers[..|headers| - 1] + [last];
      Loadables(headers[..|headers| - 1]) + if last.loadable then [last] else []
  }

  /** The guest range of a header. */
  function Range(b: Bases, h: Header): Buffer {
    Buffer(b.physical + h.vaddr, h.memorySize)
  }

  /** The bytes of the header's guest range are those of its file range, followed by zeros. */
  predicate Loaded(mem: Memory, b: Bases, f: File, h: Header) {
    h.fileSize <= h.memorySize && InFile(f, h) && forall k :: 0 <= k < h.memorySize ==> LoadedByte(mem, b, f, h, k)
  }

  predicate InFile(f: File, h: Header) {
    h.source.Some? && (h.fileSize == 0 || h.source.value + h.fileSize <= |f.bytes|)
  }

  predicate LoadedByte(mem: Memory, b: Bases, f: File, h: Header, k: nat)
    requires InFile(f, h)
  {
    var a := b.physical + h.vaddr + k;
    a in mem && mem[a] == if k < h.fileSize then f.bytes[h.source.value + k] else 0
  }

  /** The segment a header gives. */
  predicate IsSegmentOf(b: Bases, h: Header, s: Segment) {
    s.virtualAddr == b.virtual + h.vaddr && s.physicalAddr == b.physical + h.vaddr &&
    s.fileSize == h.fileSize && s.memorySize == h.memorySize && s.flags == h.flags
  }

  /** One segment, and one file offset, for each header. */
  predicate Recorded(b: Bases, hs: seq<Header>, st: Loading) {
    |st.segments| == |hs| && |st.sources| == |hs| &&
    forall i :: 0 <= i < |hs| ==> IsSegmentOf(b, hs[i], st.segments[i]) && hs[i].source == Some(st.sources[i])
  }

  // ---------- when a header is accepted ----------

  /** The header's own fields fit the file, the address space and the guest RAM. */
  predicate FieldsFit(b: Bases, f: File, mapped: set<int>, h: Header) {
    0 < h.memorySize && h.fileSize <= h.memorySize &&
    b.physical + h.vaddr < TWO_64 && h.vaddr + h.memorySize < TWO_64 && b.virtual + h.vaddr < TWO_64 &&
    b.physical + h.vaddr + h.memorySize <= b.limit &&
    h.source.Some? && h.source.value + h.fileSize <= f.length &&
    (h.fileSize > 0 ==> h.source.value + h.fileSize <= |f.bytes|) &&
    forall a :: b.physical + h.vaddr <= a < b.physical + h.vaddr + h.memorySize ==> a in mapped
  }

  predicate RangesApart(b: Bases, h: Header, earlier: Header) {
    Disjoint(Range(b, h), Range(b, earlier))
  }

  /** A loadable header after the headers `earlier`: at most fifteen others, its own fields fit, and its range is apart
      from theirs. */
  predicate Accepted(b: Bases, f: File, mapped: set<int>, earlier: seq<Header>, h: Header) {
    |earlier| < 16 && FieldsFit(b, f, mapped, h) &&
    forall i :: 0 <= i < |earlier| ==> RangesApart(b, h, earlier[i])
  }

  lemma {:induction false} CopiesExactly(f: File, offset: nat, size: nat, mem: Memory, physical: nat, copied: nat)
    requires copied <= size
    ensures CopySegment(f, offset, size, mem, physical, copied).1.None? <==>
              (copied == size || offset + size <= |f.bytes|) && Mapped(mem, physical + copied, size - copied)
    decreases size - copied
  {
    hide Poke;
    if copied < size {
      var chunk := Min(size - copied, COPY_CHUNK);
      if offset + copied + chunk <= |f.bytes| && Mapped(mem, physical + copied, chunk) {
        var written := Poke(mem, physical + copied, f.bytes[offset + copied..offset + copied + chunk]);
        CopiesExactly(f, offset, size, written, physical, copied + chunk);
        MappedSplit(mem, physical + copied, chunk, size - copied);
        SameMapped(mem, written, physical + copied + chunk, size - copied - chunk);
      } else if offset + size <= |f.bytes| {
        MappedSplit(mem, physical + copied, chunk, size - copied);
      }
    }
  }

  lemma MappedSplit(mem: Memory, a: int, n: nat, size: nat)
    requires n <= size
    ensures Mapped(mem, a, size) <==> Mapped(mem, a, n) && Mapped(mem, a + n, size - n)
  {
  }

  lemma SameMapped(m1: Memory, m2: Memory, a: int, size: nat)
    requires m1.Keys == m2.Keys
    ensures Mapped(m1, a, size) <==> Mapped(m2, a, size)
  {
    assert forall x :: x in m1 <==> x in m1.Keys;
    assert forall x :: x in m2 <==> x in m2.Keys;
  }

  lemma FillsExactly(f: File, offset: nat, fileSize: nat, memorySize: nat, mem: Memory, physical: nat)
    requires fileSize <= memorySize
    ensures FillSegment(f, offset, fileSize, memorySize, mem, physical).1.None? <==>
              (fileSize == 0 || offset + fileSize <= |f.bytes|) && Mapped(mem, physical, memorySize)
  {
    hide CopySegment, Poke, Mapped;
    CopiesExactly(f, offset, fileSize, mem, physical, 0);
    var copied := CopySegment(f, offset, fileSize, mem, physical, 0).0;
    SameMapped(mem, copied, physical + fileSize, memorySize - fileSize);
    MappedSplit(mem, physical, fileSize, memorySize);
  }

  /** The checks before anything is written pass exactly for these fields beside these segments, and give the
      header's own file offset. */
  lemma ChecksExactly(b: Bases, f: File, st: Loading, earlier: seq<Header>, h: Header)
    requires Recorded(b, earlier, st) && |earlier| <= 16
    ensures CheckSegment(b, f, st.segments, h).Ok? <==>
              && 0 < h.memorySize && h.fileSize <= h.memorySize && b.physical + h.vaddr < TWO_64
              && h.vaddr + h.memorySize < TWO_64 && b.physical + h.vaddr + h.memorySize <= b.limit
              && |earlier| < 16 && h.source.Some? && h.source.value + h.fileSize <= f.length
              && NoneMeets(b, h, earlier)
    ensures CheckSegment(b, f, st.segments, h).Ok? ==> h.source == Some(CheckSegment(b, f, st.segments, h).value)
  {
    if b.physical + h.vaddr < TWO_64 {
      NoOverlap(b, st, earlier, h);
    }
  }

  predicate NoneMeets(b: Bases, h: Header, earlier: seq<Header>) {
    forall i :: 0 <= i < |earlier| ==> RangesApart(b, h, earlier[i])
  }

  lemma NoOverlap(b: Bases, st: Loading, earlier: seq<Header>, h: Header)
    requires Recorded(b, earlier, st) && b.physical + h.vaddr < TWO_64
    ensures OverlapsAny(st.segments, b.physical + h.vaddr, h.memorySize) <==> !NoneMeets(b, h, earlier)
  {
    forall i | 0 <= i < |earlier|
      ensures Overlapping(b.physical + h.vaddr, h.memorySize, st.segments[i].physicalAddr, st.segments[i].memorySize)
              <==> !RangesApart(b, h, earlier[i])
    {
      assert IsSegmentOf(b, earlier[i], st.segments[i]);
    }
    if OverlapsAny(st.segments, b.physical + h.vaddr, h.memorySize) {
      var j :| 0 <= j < |st.segments| && Overlapping(b.physical + h.vaddr, h.memorySize, st.segments[j].physicalAddr,
                                                     st.segments[j].memorySize);
      assert !RangesApart(b, h, earlier[j]);
    }
    if !NoneMeets(b, h, earlier) {
      var i :| 0 <= i < |earlier| && !RangesApart(b, h, earlier[i]);
      assert Overlapping(b.physical + h.vaddr, h.memorySize, st.segments[i].physicalAddr, st.segments[i].memorySize);
    }
  }

  /** One header: accepted exactly under `Accepted`, and then recorded with its own fields and file offset. */
  lemma PlacesExactly(b: Bases, f: File, st: Loading, earlier: seq<Header>, h: Header)
    requires Recorded(b, earlier, st) && |earlier| <= 16 && h.loadable
    ensures var (q, e) := PlaceSegment(b, f, st, h);
            && (e.None? <==> Accepted(b, f, st.memory.Keys, earlier, h))
            && (e.None? ==> Recorded(b, earlier + [h], q)) && q.memory.Keys == st.memory.Keys
  {
    hide FillSegment, CheckSegment;
    ChecksExactly(b, f, st, earlier, h);
    if CheckSegment(b, f, st.segments, h).Ok? {
      FillsExactly(f, h.source.value, h.fileSize, h.memorySize, st.memory, b.physical + h.vaddr);
    }
  }

  // ---------- all headers ----------

  /** Every loadable header is accepted after the loadable ones before it. */
  predicate AllAccepted(b: Bases, f: File, mapped: set<int>, headers: seq<Header>, from: nat) {
    forall k :: from <= k < |headers| && headers[k].loadable ==> AcceptedAt(b, f, mapped, headers, k)
  }

  predicate AcceptedAt(b: Bases, f: File, mapped: set<int>, headers: seq<Header>, k: nat)
    requires k < |headers|
  {
    Accepted(b, f, mapped, Loadables(headers[..k]), headers[k])
  }

  lemma {:induction false} PlacesFrom(b: Bases, f: File, st: Loading, headers: seq<Header>, k: nat)
    requires k <= |headers| && Recorded(b, Loadables(headers[..k]), st) && |Loadables(headers[..k])| <= 16
    ensures var (q, e) := PlaceFrom(b, f, st, headers[k..]);
            && (e.None? <==> AllAccepted(b, f, st.memory.Keys, headers, k))
            && (e.None? ==> Recorded(b, Loadables(headers), q))
    decreases |headers| - k
  {
    hide PlaceSegment, Accepted, Recorded;
    if k == |headers| {
      assert headers[..k] == headers;
    } else {
      assert headers[k..][1..] == headers[k + 1..];
      assert headers[..k + 1][..k] == headers[..k];
      var h := headers[k];
      assert Loadables(headers[..k + 1]) == Loadables(headers[..k]) + if h.loadable then [h] else [];
      if h.loadable {
        PlacesExactly(b, f, st, Loadables(headers[..k]), h);
        assert AcceptedAt(b, f, st.memory.Keys, headers, k) <==> PlaceSegment(b, f, st, h).1.None?;
        AtMostFifteen(b, f, st.memory.Keys, Loadables(headers[..k]), h);
      } else {
        SkipsOthers(b, f, st, h);
        assert Loadables(headers[..k + 1]) == Loadables(headers[..k]);
      }
      var (next, e) := PlaceSegment(b, f, st, h);
      if e.None? {
        PlacesFrom(b, f, next, headers, k + 1);
      }
    }
  }

  lemma AtMostFifteen(b: Bases, f: File, mapped: set<int>, earlier: seq<Header>, h: Header)
    ensures Accepted(b, f, mapped, earlier, h) ==> |earlier + [h]| <= 16
  {
  }

  lemma SkipsOthers(b: Bases, f: File, st: Loading, h: Header)
    requires !h.loadable
    ensures PlaceSegment(b, f, st, h) == (st, None)
  {
  }

  /** Loading succeeds exactly when every loadable header is accepted after those before it; and then each of them has
      its file bytes, followed by zeros, in its guest range, and its segment in order. */
  lemma HeadersAreLoaded(b: Bases, f: File, mem: Memory, headers: seq<Header>)
    ensures var (q, e) := PlaceFrom(b, f, Loading(mem, [], []), headers);
            && (e.None? <==> AllAccepted(b, f, mem.Keys, headers, 0))
            && (e.None? ==> forall h :: h in headers && h.loadable ==> Loaded(q.memory, b, f, h))
            && (e.None? ==> |q.segments| == |Loadables(headers)| &&
                            forall i :: 0 <= i < |q.segments| ==> IsSegmentOf(b, Loadables(headers)[i], q.segments[i]))
  {
    hide PlaceFrom, AllAccepted, Placed, Loaded, AllHold, Confined;
    var st := Loading(mem, [], []);
    assert headers[..0] == [] && headers[0..] == headers;
    PlacesFrom(b, f, st, headers, 0);
    NothingPlaced(b, f, mem);
    LoadingIsConfined(b, f, st, headers);
    var (q, e) := PlaceFrom(b, f, st, headers);
    if e.None? {
      forall h | h in headers && h.loadable ensures Loaded(q.memory, b, f, h) {
        EachLoaded(b, f, headers, q, h);
      }
    }
  }

  lemma NothingPlaced(b: Bases, f: File, mem: Memory)
    ensures Placed(b, []) && AllHold(mem, f, [], [])
  {
  }

  lemma EachLoaded(b: Bases, f: File, headers: seq<Header>, q: Loading, h: Header)
    requires Recorded(b, Loadables(headers), q) && Placed(b, q.segments) && AllHold(q.memory, f, q.segments, q.sources)
    requires h in headers && h.loadable
    ensures Loaded(q.memory, b, f, h)
  {
    hide Holds, PlacedAt, Loaded;
    var ls := Loadables(headers);
    assert h in ls;
    var i :| 0 <= i < |ls| && ls[i] == h;
    assert Holds(q.memory, f, q.segments[i], q.sources[i]) && PlacedAt(b, q.segments[i]);
    HoldsLoaded(q.memory, b, f, h, q.segments[i], q.sources[i]);
  }

  lemma HoldsLoaded(mem: Memory, b: Bases, f: File, h: Header, s: Segment, source: Word64)
    requires Holds(mem, f, s, source) && IsSegmentOf(b, h, s) && h.source == Some(source) && PlacedAt(b, s)
    ensures Loaded(mem, b, f, h)
  {
    forall k: nat | k < h.memorySize ensures LoadedByte(mem, b, f, h, k) {
      var a := s.physicalAddr + k;
      assert a in mem && mem[a] == FileByte(f, source, s.fileSize, a - s.physicalAddr);
    }
  }
}
