/** The loader and linker loops over their arrays, proved against the placement, relocation and link functions. */
module ModuleLoader {
  import opened Wrappers
  import opened GuestMemory
  import opened Loader
  import opened Relocation
  import opened Linker

  /** The image being loaded, with its fixed segment table and its allocated pending table. */
  class ImageInfo {
    var memory: Memory
    const segments: array<Segment>
    var segmentCount: nat
    const pending: array<Pending>
    var pendingCount: nat
    const name: Option<string>
    const virtualBase: Word64
    const physicalBase: Word64
    const tlsModule: Word
    const symbols: seq<Symbol>
    var relocations: nat
    var applied: nat
    var unresolved: nat
    ghost var sources: seq<Word64>

    ghost predicate Valid()
      reads this
    {
      segments.Length == MAX_SEGMENTS && segmentCount <= MAX_SEGMENTS && pendingCount <= pending.Length
    }

    ghost function Segments(): seq<Segment>
      reads this, segments
      requires Valid()
    {
      segments[..segmentCount]
    }

    ghost function Placing(): Loading
      reads this, segments
      requires Valid()
    {
      Loading(memory, Segments(), sources)
    }

    ghost function State(): Relocation.State
      reads this, segments, pending
      requires Valid()
    {
      Relocation.State(memory, Image(name, virtualBase, physicalBase, tlsModule, Segments(), symbols,
                                     pending[..pendingCount], relocations, applied, unresolved))
    }

    /** Zeroed counters; room for one pending entry per table entry. */
    constructor (mem: Memory, name: Option<string>, b: Bases, tlsModule: Word, symbols: seq<Symbol>, capacity: nat)
      ensures Valid() && fresh(segments) && fresh(pending) && pending.Length == capacity
      ensures Placing() == Loading(mem, [], [])
      ensures State() == Relocation.State(mem, Image(name, b.virtual, b.physical, tlsModule, [], symbols, [], 0, 0, 0))
    {
      memory := mem;
      segments := new Segment[MAX_SEGMENTS](_ => Segment(0, 0, 0, 0, 0));
      pending := new Pending[capacity](_ => Pending(0, 0, 0, 0, false, false));
      segmentCount, pendingCount, relocations, applied, unresolved := 0, 0, 0, 0, 0;
      this.name, this.tlsModule, this.symbols := name, tlsModule, symbols;
      virtualBase, physicalBase := b.virtual, b.physical;
      sources := [];
    }

    method CopyIn(f: File, offset: nat, size: nat, physical: nat) returns (e: Option<LoadError>)
      modifies this`memory
      ensures (memory, e) == CopySegment(f, offset, size, old(memory), physical, 0)
    {
      var copied := 0;
      while copied < size
        invariant copied <= size
        invariant CopySegment(f, offset, size, old(memory), physical, 0) ==
                  CopySegment(f, offset, size, memory, physical, copied)
      {
        var chunk := Min(size - copied, COPY_CHUNK);
        if offset + copied + chunk > |f.bytes| {
          return Some(ReadFailed);
        }
        var mapped := Mapped(memory, physical + copied, chunk);
        memory := Poke(memory, physical + copied, f.bytes[offset + copied..offset + copied + chunk]);
        if !mapped {
          return Some(WriteFailed);
        }
        copied := copied + chunk;
      }
      e := None;
    }

    /** The overlap test against the segments placed so far. */
    method Overlaps(physical: Word64, size: Word64) returns (r: bool)
      requires Valid()
      ensures r == OverlapsAny(Segments(), physical, size)
    {
      for j := 0 to segmentCount
        invariant forall k :: 0 <= k < j ==>
                    !Overlapping(physical, size, segments[k].physicalAddr, segments[k].memorySize)
      {
        if Overlapping(physical, size, segments[j].physicalAddr, segments[j].memorySize) {
          assert Segments()[j] == segments[j];
          return true;
        }
      }
      r := false;
    }

    method Check(b: Bases, f: File, h: Header) returns (r: Result<Word64, LoadError>)
      requires Valid()
      ensures r == CheckSegment(b, f, Segments(), h)
    {
      if h.memorySize == 0 || h.fileSize > h.memorySize || AddValid(b.physical, h.vaddr).None? ||
         AddValid(h.vaddr, h.memorySize).None? {
        return Err(InvalidSegment);
      }
      if !RangeValid(b.physical + h.vaddr, h.memorySize, b.limit) {
        return Err(OutsideMemory);
      }
      if segmentCount == MAX_SEGMENTS {
        return Err(TooManySegments);
      }
      var overlaps := Overlaps(b.physical + h.vaddr, h.memorySize);
      if overlaps {
        return Err(Overlap);
      }
      if h.source.None? {
        return Err(NoSource);
      }
      if !RangeValid(h.source.value, h.fileSize, f.length) {
        return Err(PastFile);
      }
      r := Ok(h.source.value);
    }

    method Place(b: Bases, f: File, h: Header) returns (e: Option<LoadError>)
      requires Valid()
      modifies this`memory, this`segmentCount, this`sources, segments
      ensures Valid() && (Placing(), e) == PlaceSegment(b, f, old(Placing()), h)
    {
      if !h.loadable {
        return None;
      }
      var checked := Check(b, f, h);
      if checked.Err? {
        return Some(checked.error);
      }
      var source := checked.value;
      var physical := b.physical + h.vaddr;
      e := Fill(f, source, h.fileSize, h.memorySize, physical);
      if e.Some? {
        return;
      }
      var virtual := AddValid(b.virtual, h.vaddr);
      if virtual.None? {
        return Some(VirtualOverflow);
      }
      segments[segmentCount] := Segment(virtual.value, physical, h.fileSize, h.memorySize, h.flags);
      segmentCount := segmentCount + 1;
      assert Segments() == old(Segments()) + [segments[segmentCount - 1]];
      sources := sources + [source];
    }

    method Fill(f: File, source: nat, fileSize: nat, memorySize: nat, physical: nat) returns (e: Option<LoadError>)
      requires fileSize <= memorySize
      modifies this`memory
      ensures (memory, e) == FillSegment(f, source, fileSize, memorySize, old(memory), physical)
    {
      e := CopyIn(f, source, fileSize, physical);
      if e.None? {
        var mapped := Mapped(memory, physical + fileSize, memorySize - fileSize);
        memory := Poke(memory, physical + fileSize, Zeros(memorySize - fileSize));
        e := if mapped then None else Some(WriteFailed);
      }
    }

    method PlaceAll(b: Bases, f: File, headers: seq<Header>) returns (e: Option<LoadError>)
      requires Valid()
      modifies this`memory, this`segmentCount, this`sources, segments
      ensures Valid() && (Placing(), e) == PlaceFrom(b, f, old(Placing()), headers)
    {
      hide PlaceSegment;
      for i := 0 to |headers|
        invariant Valid()
        invariant PlaceFrom(b, f, old(Placing()), headers) == PlaceFrom(b, f, Placing(), headers[i..])
      {
        e := Place(b, f, headers[i]);
        if e.Some? {
          return;
        }
        assert headers[i..][1..] == headers[i + 1..];
      }
      e := None;
    }

    method FindSegment(offset: Word64) returns (r: Option<nat>)
      requires Valid()
      ensures r == RelocationTarget(State().image, offset)
    {
      var address := AddValid(virtualBase, offset);
      if address.None? {
        return None;
      }
      for i := 0 to segmentCount
        invariant FindTarget(Segments(), address.value) == FindTarget(Segments()[i..], address.value)
      {
        var s := segments[i];
        assert Segments()[i..][0] == s && Segments()[i..][1..] == Segments()[i + 1..];
        if s.virtualAddr <= address.value {
          var delta := address.value - s.virtualAddr;
          if delta <= s.memorySize && 8 <= s.memorySize - delta {
            return Some(s.physicalAddr + delta);
          }
        }
      }
      r := None;
    }

    /** Applies one table; the pending table was allocated with room for every entry. */
    method ApplyRelocations(table: seq<Rela>) returns (ok: bool)
      requires Valid() && pendingCount + |table| <= pending.Length
      modifies this`memory, this`pendingCount, this`relocations, this`applied, this`unresolved, pending
      ensures Valid() && (State(), ok) == ApplyTable(old(State()), table)
      ensures pendingCount <= old(pendingCount) + |table|
    {
      hide ApplyOne;
      for i := 0 to |table|
        invariant Valid() && pendingCount <= old(pendingCount) + i
        invariant ApplyTable(old(State()), table) == ApplyTable(State(), table[i..])
      {
        ok := Apply(table[i]);
        if !ok {
          return;
        }
        assert table[i..][1..] == table[i + 1..];
      }
      ok := true;
    }

    method Apply(r: Rela) returns (ok: bool)
      requires Valid() && pendingCount < pending.Length
      modifies this`memory, this`pendingCount, this`relocations, this`applied, this`unresolved, pending
      ensures Valid() && (State(), ok) == ApplyOne(old(State()), r)
      ensures old(pendingCount) <= pendingCount <= old(pendingCount) + 1
    {
      hide FindTarget, PutWord;
      relocations := relocations + 1;
      var target := FindSegment(r.offset);
      if target.None? {
        return false;
      }
      match ValueOf(virtualBase, tlsModule, symbols, r) {
        case Rejected =>
          ok := false;
        case Deferred =>
          pending[pendingCount] := Pending(target.value, r.addend, r.symbol, r.kind, symbols[r.symbol].weak, false);
          pendingCount := pendingCount + 1;
          assert pending[..pendingCount] == old(pending[..pendingCount]) + [pending[pendingCount - 1]];
          unresolved := unresolved + 1;
          ok := true;
        case Value(v) =>
          ok := Mapped(memory, target.value, 8);
          memory := PutWord(memory, target.value, v);
          if ok {
            applied := applied + 1;
          }
      }
    }
  }

  /** The set of loaded images the linker walks over. */
  class LinkSet {
    var memory: Memory
    const images: array<Image>

    ghost function State(): Program
      reads this, images
    {
      Program(memory, images[..])
    }

    constructor (mem: Memory, loaded: seq<Image>)
      ensures fresh(images) && State() == Program(mem, loaded)
    {
      memory := mem;
      images := new Image[|loaded|](i requires 0 <= i < |loaded| => loaded[i]);
    }

    /** The provider search, with the synthetic image first for the heap family of one consumer. */
    method Search(i: Symbol, preferHle: bool) returns (found: Option<Word64>)
      ensures found == SearchImages(i, images[..], preferHle, 0)
    {
      found := None;
      var order := 0;
      while order < images.Length && found.None?
        invariant order <= images.Length
        invariant found.None? ==>
                  SearchImages(i, images[..], preferHle, 0) == SearchImages(i, images[..], preferHle, order)
        invariant found.Some? ==> SearchImages(i, images[..], preferHle, 0) == found
      {
        var provider := images[ProviderIndex(preferHle, order, images.Length)];
        var s := 0;
        while s < |provider.symbols| && found.None?
          invariant s <= |provider.symbols|
          invariant found.None? ==> SearchSymbols(i, provider, 0) == SearchSymbols(i, provider, s)
          invariant found.Some? ==> SearchSymbols(i, provider, 0) == found
        {
          found := Offers(i, provider, s);
          s := s + 1;
        }
        order := order + 1;
      }
    }

    method LinkSlotAt(i: nat, r: nat) returns (ok: bool)
      requires IsSlot(images[..], i, r)
      modifies this, images
      ensures (State(), ok) == LinkOne(old(State()), i, r)
    {
      hide PutWord, Mapped, SearchImages;
      var p := images[i].pending[r];
      if p.applied {
        return true;
      }
      if p.symbol >= |images[i].symbols| {
        return false;
      }
      var wanted := images[i].symbols[p.symbol];
      var found := Search(wanted, PreferHle(images[i], wanted));
      if found.None? {
        if !p.weak {
          return true;
        }
        found := Some(0);
      }
      var value := Linked(p.kind, found, p.addend);
      if value.None? {
        return false;
      }
      ok := Mapped(memory, p.address, 8);
      memory := PutWord(memory, p.address, value.value);
      if ok {
        images[i] := MarkApplied(images[i], r);
      }
    }

    method LinkModules() returns (ok: bool)
      modifies this, images
      ensures (State(), ok) == Link(old(State()))
    {
      hide LinkOne;
      var i := 0;
      while i < images.Length
        invariant i <= images.Length
        invariant Link(old(State())) == LinkFrom(State(), i, 0)
      {
        var r := 0;
        while r < |images[i].pending|
          invariant r <= |images[i].pending|
          invariant Link(old(State())) == LinkFrom(State(), i, r)
        {
          LinkOneImages(State(), i, r);
          SamePending(State().images, LinkOne(State(), i, r).0.images, i);
          ok := LinkSlotAt(i, r);
          if !ok {
            return;
          }
          r := r + 1;
        }
        i := i + 1;
      }
      ok := true;
    }
  }
}
