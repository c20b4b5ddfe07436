/** Placing the segments of an image in guest RAM and applying its relocations. */
module Loader {
  import opened Wrappers
  import opened GuestMemory

  const MAX_SEGMENTS: nat := 16
  const COPY_CHUNK: nat := 0x10_0000

  const R_64: nat := 1
  const R_GLOB_DAT: nat := 6
  const R_JUMP_SLOT: nat := 7
  const R_RELATIVE: nat := 8
  const R_DTPMOD64: nat := 16

  type Int64 = i: int | -0x8000_0000_0000_0000 <= i < 0x8000_0000_0000_0000

  // ---------- checked arithmetic ----------

  predicate RangeValid(offset: Word64, size: Word64, limit: Word64) {
    offset <= limit && size <= limit - offset
  }

  function AddValid(left: Word64, right: Word64): (r: Option<Word64>)
    ensures r.Some? <==> left + right < TWO_64
    ensures r.Some? ==> r.value == left + right
  {
    if right > TWO_64 - 1 - left then None else Some(left + right)
  }

  /** Succeeds exactly when the true sum fits 64 bits; no intermediate value overflows. */
  function AddSignedValid(base: Word64, addend: Int64): (r: Option<Word64>)
    ensures r.Some? <==> 0 <= base + addend < TWO_64
    ensures r.Some? ==> r.value == base + addend
  {
    if addend >= 0 then AddValid(base, addend)
    else
      var lifted: Int64 := -(addend + 1);
      var magnitude: Word64 := lifted + 1;
      if base < magnitude then None else Some(base - magnitude)
  }

  // ---------- segments ----------

  datatype Header = Header(loadable: bool, flags: nat, vaddr: Word64, fileSize: Word64, memorySize: Word64,
                           source: Option<Word64>)

  datatype Segment = Segment(virtualAddr: Word64, physicalAddr: Word64, fileSize: Word64, memorySize: Word64,
                             flags: nat)

  datatype Bases = Bases(virtual: Word64, physical: Word64, limit: Word64)

  /** `bytes` is what can be read; `length` is the size the host reports. */
  datatype File = File(bytes: seq<Byte>, length: Word64)

  datatype LoadError =
    | InvalidSegment | OutsideMemory | TooManySegments | Overlap | NoSource | PastFile | ReadFailed | WriteFailed
    | VirtualOverflow

  datatype Loading = Loading(memory: Memory, segments: seq<Segment>, sources: seq<Word64>)

  /** The ranges share a byte, as the loader tests it. */
  predicate Overlapping(a: int, aSize: int, b: int, bSize: int) {
    a < b + bSize && b < a + aSize
  }

  predicate OverlapsAny(segments: seq<Segment>, physical: Word64, size: Word64) {
    exists j :: 0 <= j < |segments| && Overlapping(physical, size, segments[j].physicalAddr, segments[j].memorySize)
  }

  /** The checks before anything is written; gives the file offset. */
  function CheckSegment(b: Bases, f: File, segments: seq<Segment>, h: Header): Result<Word64, LoadError> {
    if h.memorySize == 0 || h.fileSize > h.memorySize || AddValid(b.physical, h.vaddr).None? ||
       AddValid(h.vaddr, h.memorySize).None? then Err(InvalidSegment)
    else if !RangeValid(b.physical + h.vaddr, h.memorySize, b.limit) then Err(OutsideMemory)
    else if |segments| == MAX_SEGMENTS then Err(TooManySegments)
    else if OverlapsAny(segments, b.physical + h.vaddr, h.memorySize) then Err(Overlap)
    else if h.source.None? then Err(NoSource)
    else if !RangeValid(h.source.value, h.fileSize, f.length) then Err(PastFile)
    else Ok(h.source.value)
  }

  function Min(a: nat, b: nat): nat {
    if a < b then a else b
  }

  /** Copies the file range in chunks; an error leaves what was copied so far. */
  function CopySegment(f: File, offset: nat, size: nat, mem: Memory, physical: nat, copied: nat)
    : (r: (Memory, Option<LoadError>))
    requires copied <= size
    ensures r.0.Keys == mem.Keys
    decreases size - copied
  {
    if copied == size then (mem, None)
    else
      var chunk := Min(size - copied, COPY_CHUNK);
      if offset + copied + chunk > |f.bytes| then (mem, Some(ReadFailed))
      else
        var written := Poke(mem, physical + copied, f.bytes[offset + copied..offset + copied + chunk]);
        if !Mapped(mem, physical + copied, chunk) then (written, Some(WriteFailed))
        else CopySegment(f, offset, size, written, physical, copied + chunk)
  }

  /** File bytes, then a cleared tail. */
  function FillSegment(f: File, offset: nat, fileSize: nat, memorySize: nat, mem: Memory, physical: nat)
    : (r: (Memory, Option<LoadError>))
    requires fileSize <= memorySize
    ensures r.0.Keys == mem.Keys
  {
    var (copied, e) := CopySegment(f, offset, fileSize, mem, physical, 0);
    if e.Some? then (copied, e)
    else
      var cleared := Poke(copied, physical + fileSize, Zeros(memorySize - fileSize));
      (cleared, if Mapped(copied, physical + fileSize, memorySize - fileSize) then None else Some(WriteFailed))
  }

  function PlaceSegment(b: Bases, f: File, st: Loading, h: Header): (Loading, Option<LoadError>) {
    if !h.loadable then (st, None)
    else
      match CheckSegment(b, f, st.segments, h)
      case Err(e) => (st, Some(e))
      case Ok(source) =>
        var physical := b.physical + h.vaddr;
        var (filled, e) := FillSegment(f, source, h.fileSize, h.memorySize, st.memory, physical);
        if e.Some? then (st.(memory := filled), e)
        else if AddValid(b.virtual, h.vaddr).None? then (st.(memory := filled), Some(VirtualOverflow))
        else
          (Loading(filled, st.segments + [Segment(b.virtual + h.vaddr, physical, h.fileSize, h.memorySize, h.flags)],
                   st.sources + [source]), None)
  }

  function PlaceFrom(b: Bases, f: File, st: Loading, headers: seq<Header>): (Loading, Option<LoadError>)
    decreases |headers|
  {
    if headers == [] then (st, None)
    else
      var (next, e) := PlaceSegment(b, f, st, headers[0]);
      if e.Some? then (next, e) else PlaceFrom(b, f, next, headers[1..])
  }

  // ---------- what placement guarantees ----------

  predicate Within(s: Segment, a: int) {
    s.physicalAddr <= a < s.physicalAddr + s.memorySize
  }

  /** Segments are non-empty, below the limit, pairwise disjoint, and all moved by the same distance. */
  predicate Placed(b: Bases, segments: seq<Segment>) {
    |segments| <= MAX_SEGMENTS &&
    (forall i :: 0 <= i < |segments| ==> PlacedAt(b, segments[i])) &&
    (forall i, j :: 0 <= i < j < |segments| ==> SegmentsApart(segments[i], segments[j]))
  }

  predicate PlacedAt(b: Bases, s: Segment) {
    0 < s.memorySize && s.fileSize <= s.memorySize && s.physicalAddr + s.memorySize <= b.limit &&
    s.virtualAddr - b.virtual == s.physicalAddr - b.physical >= 0
  }

  predicate SegmentsApart(s: Segment, t: Segment) {
    s.physicalAddr + s.memorySize <= t.physicalAddr || t.physicalAddr + t.memorySize <= s.physicalAddr
  }

  /** The segment's bytes are the file's, followed by zeros. */
  predicate Holds(mem: Memory, f: File, s: Segment, source: Word64) {
    Filled(mem, f, source, s.fileSize, s.memorySize, s.physicalAddr)
  }

  predicate Filled(mem: Memory, f: File, source: nat, fileSize: nat, memorySize: nat, physical: nat) {
    (fileSize == 0 || source + fileSize <= |f.bytes|) &&
    forall a :: physical <= a < physical + memorySize ==>
      a in mem && mem[a] == FileByte(f, source, fileSize, a - physical)
  }

  function FileByte(f: File, source: nat, fileSize: nat, k: nat): Byte
    requires fileSize == 0 || source + fileSize <= |f.bytes|
  {
    if k < fileSize then f.bytes[source + k] else 0
  }

  predicate AllHold(mem: Memory, f: File, segments: seq<Segment>, sources: seq<Word64>) {
    |sources| == |segments| && forall i :: 0 <= i < |segments| ==> Holds(mem, f, segments[i], sources[i])
  }

  /** The bytes from index `from` on are the file's. */
  predicate Copied(m: Memory, f: File, offset: nat, size: nat, physical: nat, from: nat) {
    (from >= size || offset + size <= |f.bytes|) &&
    forall a :: physical + from <= a < physical + size ==> a in m && m[a] == f.bytes[offset + (a - physical)]
  }

  /** Copying changes nothing outside the range. */
  lemma {:induction false} CopyFrame(f: File, offset: nat, size: nat, mem: Memory, physical: nat, copied: nat)
    requires copied <= size
    ensures var m := CopySegment(f, offset, size, mem, physical, copied).0;
            forall a :: a in mem && !(physical + copied <= a < physical + size) ==> m[a] == mem[a]
    decreases size - copied
  {
    if copied < size {
      var chunk := Min(size - copied, COPY_CHUNK);
      if offset + copied + chunk <= |f.bytes| {
        var written := Poke(mem, physical + copied, f.bytes[offset + copied..offset + copied + chunk]);
        CopyFrame(f, offset, size, written, physical, copied + chunk);
      }
    }
  }

  lemma {:induction false} CopyWhole(f: File, offset: nat, size: nat, mem: Memory, physical: nat, copied: nat)
    requires copied <= size
    ensures var (m, e) := CopySegment(f, offset, size, mem, physical, copied);
            && (forall a :: a in mem && !(physical + copied <= a < physical + size) ==> m[a] == mem[a])
            && (e.None? ==> Copied(m, f, offset, size, physical, copied))
    decreases size - copied
  {
    hide Poke;
    CopyFrame(f, offset, size, mem, physical, copied);
    if copied < size {
      hide Copied;
      var chunk := Min(size - copied, COPY_CHUNK);
      if offset + copied + chunk <= |f.bytes| && Mapped(mem, physical + copied, chunk) {
        var written := Poke(mem, physical + copied, f.bytes[offset + copied..offset + copied + chunk]);
        CopyWhole(f, offset, size, written, physical, copied + chunk);
        var (m, e) := CopySegment(f, offset, size, mem, physical, copied);
        if e.None? {
          ChunkCopied(m, f, offset, size, physical, copied, chunk, mem);
        }
      }
    }
  }

  lemma ChunkCopied(m: Memory, f: File, offset: nat, size: nat, physical: nat, copied: nat, chunk: nat, mem: Memory)
    requires copied + chunk <= size && chunk > 0 && offset + copied + chunk <= |f.bytes|
    requires Mapped(mem, physical + copied, chunk) && m.Keys == mem.Keys
    requires Copied(m, f, offset, size, physical, copied + chunk)
    requires var written := Poke(mem, physical + copied, f.bytes[offset + copied..offset + copied + chunk]);
             forall a :: a in mem && !(physical + copied + chunk <= a < physical + size) ==> m[a] == written[a]
    ensures Copied(m, f, offset, size, physical, copied)
  {
    var piece := f.bytes[offset + copied..offset + copied + chunk];
    forall a | physical + copied <= a < physical + size
      ensures a in m && m[a] == f.bytes[offset + (a - physical)]
    {
      if a < physical + copied + chunk {
        assert a in mem && piece[a - (physical + copied)] == f.bytes[offset + (a - physical)];
      }
    }
  }

  lemma FillWhole(f: File, offset: nat, fileSize: nat, memorySize: nat, mem: Memory, physical: nat)
    requires fileSize <= memorySize
    ensures var (m, e) := FillSegment(f, offset, fileSize, memorySize, mem, physical);
            && (forall a :: a in mem && !(physical <= a < physical + memorySize) ==> m[a] == mem[a])
            && (e.None? ==> Filled(m, f, offset, fileSize, memorySize, physical))
  {
    hide CopySegment;
    CopyWhole(f, offset, fileSize, mem, physical, 0);
  }

  /** The address lies in the range of a header that passes the checks beside these segments. */
  predicate Claims(b: Bases, f: File, segments: seq<Segment>, h: Header, a: int) {
    h.loadable && CheckSegment(b, f, segments, h).Ok? &&
    b.physical + h.vaddr <= a < b.physical + h.vaddr + h.memorySize
  }

  lemma CheckedIsPlaced(b: Bases, f: File, segments: seq<Segment>, h: Header)
    requires Placed(b, segments) && CheckSegment(b, f, segments, h).Ok? && AddValid(b.virtual, h.vaddr).Some?
    ensures b.physical + h.vaddr < TWO_64
    ensures var s := Segment(b.virtual + h.vaddr, b.physical + h.vaddr, h.fileSize, h.memorySize, h.flags);
            Placed(b, segments + [s])
  {
    var s := Segment(b.virtual + h.vaddr, b.physical + h.vaddr, h.fileSize, h.memorySize, h.flags);
    forall i | 0 <= i < |segments| ensures SegmentsApart(segments[i], s) {
      assert PlacedAt(b, segments[i]);
      assert !Overlapping(s.physicalAddr, s.memorySize, segments[i].physicalAddr, segments[i].memorySize);
    }
  }

  lemma StillHolds(mem: Memory, after: Memory, f: File, s: Segment, source: Word64, physical: nat, size: nat)
    requires Holds(mem, f, s, source) && after.Keys == mem.Keys
    requires s.physicalAddr + s.memorySize <= physical || physical + size <= s.physicalAddr
    requires forall a :: a in mem && !(physical <= a < physical + size) ==> after[a] == mem[a]
    ensures Holds(after, f, s, source)
  {
  }

  /** One program header: what it may change, and what is in place after it. */
  lemma PlaceSegmentKeeps(b: Bases, f: File, st: Loading, h: Header)
    requires Placed(b, st.segments) && AllHold(st.memory, f, st.segments, st.sources)
    ensures var (q, e) := PlaceSegment(b, f, st, h);
            && q.memory.Keys == st.memory.Keys && Placed(b, q.segments)
            && (forall a :: a in st.memory && !Claims(b, f, st.segments, h, a) ==> q.memory[a] == st.memory[a])
            && (e.Some? ==> q.segments == st.segments)
            && (e.None? ==> AllHold(q.memory, f, q.segments, q.sources))
            && (e.None? ==> if h.loadable then Appended(b, st.segments, h, q.segments) else q == st)
  {
    hide FillSegment, Filled, Placed;
    if h.loadable && CheckSegment(b, f, st.segments, h).Ok? {
      var source := CheckSegment(b, f, st.segments, h).value;
      var physical := b.physical + h.vaddr;
      FillWhole(f, source, h.fileSize, h.memorySize, st.memory, physical);
      var (q, e) := PlaceSegment(b, f, st, h);
      if e.None? {
        CheckedIsPlaced(b, f, st.segments, h);
        forall i | 0 <= i < |q.segments| ensures Holds(q.memory, f, q.segments[i], q.sources[i]) {
          if i < |st.segments| {
            CheckedApart(b, f, st.segments, h, i);
            StillHolds(st.memory, q.memory, f, st.segments[i], st.sources[i], physical, h.memorySize);
          }
        }
      }
    }
  }

  /** The header's segment comes after the others. */
  predicate Appended(b: Bases, segments: seq<Segment>, h: Header, after: seq<Segment>) {
    |after| == |segments| + 1 && after[..|segments|] == segments &&
    var s := after[|segments|];
    s.virtualAddr == b.virtual + h.vaddr && s.physicalAddr == b.physical + h.vaddr &&
    s.fileSize == h.fileSize && s.memorySize == h.memorySize && s.flags == h.flags
  }

  lemma CheckedApart(b: Bases, f: File, segments: seq<Segment>, h: Header, i: nat)
    requires Placed(b, segments) && CheckSegment(b, f, segments, h).Ok? && i < |segments|
    ensures var s := segments[i]; var p := b.physical + h.vaddr;
            s.physicalAddr + s.memorySize <= p || p + h.memorySize <= s.physicalAddr
  {
    assert PlacedAt(b, segments[i]);
    assert !Overlapping(b.physical + h.vaddr, h.memorySize, segments[i].physicalAddr, segments[i].memorySize);
  }

  /** The header at which loading stops, or the number of headers. */
  function Stop(b: Bases, f: File, st: Loading, headers: seq<Header>): (k: nat)
    ensures k <= |headers|
    decreases |headers|
  {
    if headers == [] then 0
    else
      var (next, e) := PlaceSegment(b, f, st, headers[0]);
      if e.Some? then 0 else 1 + Stop(b, f, next, headers[1..])
  }

  /** The address lies in one of the segments after the first `n`. */
  predicate InSegments(segments: seq<Segment>, n: nat, a: int) {
    exists i :: n <= i < |segments| && Within(segments[i], a)
  }

  function Loadable(headers: seq<Header>): (n: nat) {
    if headers == [] then 0 else (if headers[0].loadable then 1 else 0) + Loadable(headers[1..])
  }

  /** The changed bytes lie in accepted segments, or in the range of the header where loading stopped, if that
      one passed the checks. */
  predicate Confined(b: Bases, f: File, st: Loading, q: Loading, headers: seq<Header>, stop: nat, a: int)
    requires st.memory.Keys == q.memory.Keys && a in st.memory
  {
    InSegments(q.segments, |st.segments|, a) ||
    (stop < |headers| && Claims(b, f, q.segments, headers[stop], a)) ||
    q.memory[a] == st.memory[a]
  }

  /** However loading ends, the segments are placed, and only bytes of accepted segments and of the one header
      that passed the checks when loading stopped may have changed; loading succeeds exactly when no header stops
      it, and then there is one segment for each loadable header and every segment holds its file contents. */
  lemma {:induction false} LoadingIsConfined(b: Bases, f: File, st: Loading, headers: seq<Header>)
    requires Placed(b, st.segments) && AllHold(st.memory, f, st.segments, st.sources)
    ensures var (q, e) := PlaceFrom(b, f, st, headers);
            var stop := Stop(b, f, st, headers);
            && q.memory.Keys == st.memory.Keys && Placed(b, q.segments)
            && |q.segments| == |st.segments| + Loadable(headers[..stop]) && q.segments[..|st.segments|] == st.segments
            && (forall a :: a in st.memory ==> Confined(b, f, st, q, headers, stop, a))
            && (e.None? <==> stop == |headers|)
            && (e.None? ==> AllHold(q.memory, f, q.segments, q.sources))
    decreases |headers|
  {
    hide PlaceSegment, Placed, AllHold, Claims, Confined;
    if headers != [] {
      PlaceSegmentKeeps(b, f, st, headers[0]);
      var (next, e) := PlaceSegment(b, f, st, headers[0]);
      if e.None? {
        LoadingIsConfined(b, f, next, headers[1..]);
        var (q, stop) := (PlaceFrom(b, f, st, headers).0, Stop(b, f, st, headers));
        assert headers[..stop][1..] == headers[1..][..stop - 1];
        forall a | a in st.memory ensures Confined(b, f, st, q, headers, stop, a) {
          assert Confined(b, f, next, q, headers[1..], stop - 1, a);
          ConfinedEarlier(b, f, st, next, q, headers, stop, a);
        }
      } else {
        forall a | a in st.memory ensures Confined(b, f, st, next, headers, 0, a) {
          ConfinedHere(b, f, st, next, headers, a);
        }
      }
    } else {
      forall a | a in st.memory ensures Confined(b, f, st, st, headers, 0, a) {
        ConfinedHere(b, f, st, st, headers, a);
      }
    }
  }

  lemma ConfinedHere(b: Bases, f: File, st: Loading, q: Loading, headers: seq<Header>, a: int)
    requires st.memory.Keys == q.memory.Keys && a in st.memory && q.segments == st.segments
    requires q.memory[a] == st.memory[a] || (|headers| > 0 && Claims(b, f, st.segments, headers[0], a))
    ensures Confined(b, f, st, q, headers, 0, a)
  {
  }

  lemma ConfinedEarlier(b: Bases, f: File, st: Loading, next: Loading, q: Loading, headers: seq<Header>, stop: nat,
                        a: int)
    requires st.memory.Keys == next.memory.Keys == q.memory.Keys && a in st.memory && headers != [] && stop > 0
    requires Confined(b, f, next, q, headers[1..], stop - 1, a)
    requires |next.segments| <= |q.segments| && q.segments[..|next.segments|] == next.segments
    requires if headers[0].loadable then Appended(b, st.segments, headers[0], next.segments) else next == st
    requires next.memory[a] == st.memory[a] || Claims(b, f, st.segments, headers[0], a)
    ensures Confined(b, f, st, q, headers, stop, a)
  {
    if InSegments(q.segments, |next.segments|, a) {
      var i :| |next.segments| <= i < |q.segments| && Within(q.segments[i], a);
      assert InSegments(q.segments, |st.segments|, a);
    } else if headers[0].loadable && Claims(b, f, st.segments, headers[0], a) {
      var s := q.segments[..|next.segments|][|st.segments|];
      assert s == q.segments[|st.segments|] && Within(s, a);
    }
  }
}
