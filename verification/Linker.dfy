/** Binding the deferred imports of a set of loaded images. */
module Linker {
  import opened Wrappers
  import opened GuestMemory
  import opened Loader
  import opened Relocation

  // ---------- symbol lookup ----------

  predicate SymbolsMatch(i: Symbol, e: Symbol) {
    !i.defined && e.defined && i.nid.Some? && i.library.Some? && i.unit.Some? && e.nid.Some? && e.library.Some? &&
    e.unit.Some? && i.kind == e.kind && i.version == e.version && i.nid == e.nid && i.library == e.library &&
    i.unit == e.unit
  }

  const HEAP_NIDS: set<string> :=
    {"gQX+4GDQjpM", "tIhsqj0qsFE", "2X5agFjKxMc", "Y7aJ1uydPMo", "Ujf3KzMvRmI", "cVSk9y8URbc", "NDcSfcYZRC8"}

  predicate PreferHle(consumer: Image, i: Symbol) {
    consumer.name == Some("ps2-emu-compiler.self") && i.nid.Some? &&
    (i.unit == Some("libc") || i.unit == Some("libSceLibcInternal")) && i.nid.value in HEAP_NIDS
  }

  /** The image visited in place `order`; the synthetic image is the last one. */
  function ProviderIndex(preferHle: bool, order: nat, count: nat): (k: nat)
    requires order < count
    ensures k < count
  {
    if preferHle then (if order > 0 then order - 1 else count - 1) else order
  }

  /** Both search orders visit every image exactly once. */
  lemma SearchOrderIsAPermutation(preferHle: bool, count: nat, k: nat)
    requires k < count
    ensures exists order :: 0 <= order < count && ProviderIndex(preferHle, order, count) == k
    ensures forall a: nat, b: nat :: (a < count && b < count &&
              ProviderIndex(preferHle, a, count) == ProviderIndex(preferHle, b, count)) ==> a == b
  {
    var order := if preferHle then (if k == count - 1 then 0 else k + 1) else k;
    assert ProviderIndex(preferHle, order, count) == k;
  }

  /** The address the export gives the import, when it matches and does not overflow. */
  function Offers(i: Symbol, provider: Image, s: nat): Option<Word64> {
    if s < |provider.symbols| && SymbolsMatch(i, provider.symbols[s])
    then AddValid(provider.virtualBase, provider.symbols[s].value)
    else None
  }

  function SearchSymbols(i: Symbol, provider: Image, s: nat): Option<Word64>
    requires s <= |provider.symbols|
    decreases |provider.symbols| - s
  {
    if s == |provider.symbols| then None
    else if Offers(i, provider, s).Some? then Offers(i, provider, s)
    else SearchSymbols(i, provider, s + 1)
  }

  function SearchImages(i: Symbol, images: seq<Image>, preferHle: bool, order: nat): Option<Word64>
    requires order <= |images|
    decreases |images| - order
  {
    if order == |images| then None
    else
      var found := SearchSymbols(i, images[ProviderIndex(preferHle, order, |images|)], 0);
      if found.Some? then found else SearchImages(i, images, preferHle, order + 1)
  }

  /** Position `(order, s)` is the first usable export. */
  ghost predicate FirstUsable(i: Symbol, images: seq<Image>, preferHle: bool, order: nat, s: nat) {
    order < |images| && Usable(i, images, preferHle, order, s) &&
    (forall t :: 0 <= t < s ==> !Usable(i, images, preferHle, order, t)) &&
    (forall o, t: nat :: 0 <= o < order ==> !Usable(i, images, preferHle, o, t))
  }

  predicate Usable(i: Symbol, images: seq<Image>, preferHle: bool, order: nat, s: nat)
  {
    order < |images| && Offers(i, images[ProviderIndex(preferHle, order, |images|)], s).Some?
  }

  lemma {:induction false} SearchSymbolsSpec(i: Symbol, provider: Image, s: nat)
    requires s <= |provider.symbols|
    ensures var r := SearchSymbols(i, provider, s);
            && (r.None? ==> forall t: nat :: s <= t ==> Offers(i, provider, t).None?)
            && (r.Some? ==> exists t: nat :: s <= t && Offers(i, provider, t) == r &&
                              forall u: nat :: s <= u < t ==> Offers(i, provider, u).None?)
    decreases |provider.symbols| - s
  {
    hide SymbolsMatch;
    if s < |provider.symbols| && Offers(i, provider, s).None? {
      SearchSymbolsSpec(i, provider, s + 1);
    }
  }

  /** The search finds the first usable export in search order, or there is none. */
  lemma {:induction false} SearchFindsFirst(i: Symbol, images: seq<Image>, preferHle: bool, order: nat)
    requires order <= |images|
    requires forall o, t: nat :: 0 <= o < order ==> !Usable(i, images, preferHle, o, t)
    ensures var r := SearchImages(i, images, preferHle, order);
            && (r.None? ==> forall o, t: nat :: 0 <= o < |images| ==> !Usable(i, images, preferHle, o, t))
            && (r.Some? ==> exists o, t: nat :: FirstUsable(i, images, preferHle, o, t) &&
                              r == Offers(i, images[ProviderIndex(preferHle, o, |images|)], t))
    decreases |images| - order
  {
    hide Offers, ProviderIndex;
    if order < |images| {
      var provider := images[ProviderIndex(preferHle, order, |images|)];
      SearchSymbolsSpec(i, provider, 0);
      var found := SearchSymbols(i, provider, 0);
      if found.Some? {
        var t: nat :| Offers(i, provider, t) == found && forall u: nat :: 0 <= u < t ==> Offers(i, provider, u).None?;
        assert Usable(i, images, preferHle, order, t);
        assert FirstUsable(i, images, preferHle, order, t);
      } else {
        forall o, t: nat | 0 <= o < order + 1 ensures !Usable(i, images, preferHle, o, t) {
          if o == order {
            assert Offers(i, provider, t).None?;
          }
        }
        SearchFindsFirst(i, images, preferHle, order + 1);
      }
    }
  }

  // ---------- which export binds an import ----------

  /** What two symbols must have in common. */
  function Identity(s: Symbol): (Option<string>, Option<string>, Option<string>, nat, nat) {
    (s.nid, s.library, s.unit, s.kind, s.version)
  }

  predicate Named(s: Symbol) {
    s.nid.Some? && s.library.Some? && s.unit.Some?
  }

  /** The provider defines the named symbol that the import asks for, at an address that fits 64 bits. */
  predicate Exports(i: Symbol, provider: Image, s: nat) {
    s < |provider.symbols| && !i.defined && provider.symbols[s].defined && Named(i) &&
    Identity(i) == Identity(provider.symbols[s]) && provider.virtualBase + provider.symbols[s].value < TWO_64
  }

  predicate Provides(i: Symbol, provider: Image) {
    exists s :: 0 <= s < |provider.symbols| && Exports(i, provider, s)
  }

  /** The allocator family of libc, imported by the one program that cannot use the title's libc. */
  predicate HeapFamily(consumer: Image, i: Symbol) {
    consumer.name == Some("ps2-emu-compiler.self") && i.nid.Some? && i.nid.value in HEAP_NIDS &&
    i.unit in {Some("libc"), Some("libSceLibcInternal")}
  }

  /** No image before the k-th provides the import. */
  predicate NoneBefore(i: Symbol, images: seq<Image>, k: nat) {
    k <= |images| && forall j :: 0 <= j < k ==> !Provides(i, images[j])
  }

  /** The image that provides the import: the last one for the allocator family of that program, if it does; otherwise
      the first that does. */
  predicate ProvidedBy(images: seq<Image>, consumer: Image, i: Symbol, k: nat) {
    k < |images| && Provides(i, images[k]) &&
    if HeapFamily(consumer, i) && Provides(i, images[|images| - 1]) then k == |images| - 1
    else NoneBefore(i, images, k)
  }

  lemma OffersExactly(i: Symbol, provider: Image, s: nat)
    ensures Offers(i, provider, s).Some? <==> Exports(i, provider, s)
    ensures Exports(i, provider, s) ==> Offers(i, provider, s).value == provider.virtualBase + provider.symbols[s].value
  {
  }

  lemma PrefersExactly(consumer: Image, i: Symbol)
    ensures PreferHle(consumer, i) <==> HeapFamily(consumer, i)
  {
  }

  /** Visiting the images in either order until one is usable finds the image that provides the import. */
  lemma OrderFinds(images: seq<Image>, consumer: Image, i: Symbol, o: nat, t: nat)
    requires FirstUsable(i, images, PreferHle(consumer, i), o, t)
    ensures ProvidedBy(images, consumer, i, ProviderIndex(PreferHle(consumer, i), o, |images|))
  {
    hide Offers, Exports, PreferHle, HeapFamily;
    var prefer, n := PreferHle(consumer, i), |images|;
    PrefersExactly(consumer, i);
    var k := ProviderIndex(prefer, o, n);
    OffersExactly(i, images[k], t);
    assert Usable(i, images, prefer, o, t) && Exports(i, images[k], t);
    InSymbols(i, images[k], t);
    forall e: nat | e < o ensures !Provides(i, images[ProviderIndex(prefer, e, n)]) {
      UnusableProvidesNothing(images, i, prefer, e);
    }
    if prefer && o > 0 {
      assert ProviderIndex(prefer, 0, n) == n - 1;
    }
    forall j: nat | j < k && !(prefer && o == 0) ensures !Provides(i, images[j]) {
      assert ProviderIndex(prefer, if prefer then j + 1 else j, n) == j;
    }
  }

  lemma UnusableProvidesNothing(images: seq<Image>, i: Symbol, prefer: bool, o: nat)
    requires o < |images| && forall s: nat :: !Usable(i, images, prefer, o, s)
    ensures !Provides(i, images[ProviderIndex(prefer, o, |images|)])
  {
    hide Offers, Exports;
    var provider := images[ProviderIndex(prefer, o, |images|)];
    forall s: nat ensures !Exports(i, provider, s) {
      assert !Usable(i, images, prefer, o, s);
      OffersExactly(i, provider, s);
    }
  }

  lemma InSymbols(i: Symbol, provider: Image, s: nat)
    requires Exports(i, provider, s)
    ensures Provides(i, provider)
  {
  }

  /** The search gives the address of the first matching export of the image that provides the import, or nothing when
      no image does. */
  lemma SearchBinds(images: seq<Image>, consumer: Image, i: Symbol)
    ensures var found := SearchImages(i, images, PreferHle(consumer, i), 0);
            && (found.None? <==> NoneBefore(i, images, |images|))
            && (found.Some? ==> exists k: nat, s: nat :: BindsTo(images, consumer, i, k, s) &&
                                  found.value == images[k].virtualBase + images[k].symbols[s].value)
  {
    hide Offers, Exports, PreferHle, HeapFamily, ProviderIndex, Provides, SearchImages;
    var prefer := PreferHle(consumer, i);
    SearchFindsFirst(i, images, prefer, 0);
    var found := SearchImages(i, images, prefer, 0);
    if found.Some? {
      var o: nat, t: nat :| FirstUsable(i, images, prefer, o, t) &&
                            found == Offers(i, images[ProviderIndex(prefer, o, |images|)], t);
      OrderFinds(images, consumer, i, o, t);
      var k := ProviderIndex(prefer, o, |images|);
      forall s: nat ensures Offers(i, images[k], s).Some? <==> Exports(i, images[k], s) {
        OffersExactly(i, images[k], s);
      }
      assert Usable(i, images, prefer, o, t);
      forall s: nat | s < t ensures !Exports(i, images[k], s) {
        assert !Usable(i, images, prefer, o, s);
      }
      ExportInRange(i, images[k], t);
      OffersExactly(i, images[k], t);
      assert BindsTo(images, consumer, i, k, t);
    } else {
      forall k: nat | k < |images| ensures !Provides(i, images[k]) {
        NotFoundNotProvided(images, i, prefer, k);
      }
    }
  }

  lemma ExportInRange(i: Symbol, provider: Image, s: nat)
    requires Exports(i, provider, s)
    ensures s < |provider.symbols|
  {
  }

  lemma NotFoundNotProvided(images: seq<Image>, i: Symbol, prefer: bool, k: nat)
    requires k < |images| && forall o, t: nat :: 0 <= o < |images| ==> !Usable(i, images, prefer, o, t)
    ensures !Provides(i, images[k])
  {
    SearchOrderIsAPermutation(prefer, |images|, k);
    var o :| 0 <= o < |images| && ProviderIndex(prefer, o, |images|) == k;
    UnusableProvidesNothing(images, i, prefer, o);
  }

  /** The import is bound to symbol `s` of image `k`. */
  ghost predicate BindsTo(images: seq<Image>, consumer: Image, i: Symbol, k: nat, s: nat) {
    ProvidedBy(images, consumer, i, k) && s < |images[k].symbols| && Exports(i, images[k], s) &&
    forall t: nat :: t < s ==> !Exports(i, images[k], t)
  }

  // ---------- linking ----------

  /** What the linker wants for a pending relocation. */
  datatype Want = Bound(value: Word64) | Unbound | Broken

  predicate IsSlot(images: seq<Image>, i: nat, r: nat) {
    i < |images| && r < |images[i].pending|
  }

  function WantFor(images: seq<Image>, i: nat, r: nat): Want
    requires IsSlot(images, i, r)
  {
    var p := images[i].pending[r];
    if p.symbol >= |images[i].symbols| then Broken
    else
      var import_ := images[i].symbols[p.symbol];
      var found := SearchImages(import_, images, PreferHle(images[i], import_), 0);
      if found.None? && !p.weak then Unbound
      else
        match Linked(p.kind, if found.Some? then found else Some(0), p.addend)
        case Some(v) => Bound(v)
        case None => Broken
  }

  /** The value of the symbol the import is bound to. */
  ghost predicate IsProvided(images: seq<Image>, i: nat, import_: Symbol, s: int)
    requires i < |images|
  {
    exists k: nat, t: nat :: BindsTo(images, images[i], import_, k, t) &&
      s == images[k].virtualBase + images[k].symbols[t].value
  }

  ghost predicate HasProvider(images: seq<Image>, import_: Symbol) {
    !NoneBefore(import_, images, |images|)
  }

  ghost predicate BoundTo(images: seq<Image>, i: nat, import_: Symbol, s: int)
    requires i < |images|
  {
    if HasProvider(images, import_) then IsProvided(images, i, import_, s) else s == 0
  }

  /** What is stored for the symbol value `s`: S + A for R_X86_64_64, S otherwise. */
  function Stored(p: Pending, s: int): int {
    s + if p.kind == R_64 then p.addend else 0
  }

  /** A pending relocation is bound to S + A for R_X86_64_64 and to S otherwise, where S is the value of the export
      that the import is bound to, or 0 for a weak import that no image provides; a strong import that none provides
      stays unbound, and a value that does not fit 64 bits is an error. */
  lemma WantedValue(images: seq<Image>, i: nat, r: nat)
    requires IsSlot(images, i, r) && images[i].pending[r].symbol < |images[i].symbols|
    ensures var p := images[i].pending[r];
            var import_ := images[i].symbols[p.symbol];
            && (WantFor(images, i, r).Unbound? <==> !HasProvider(images, import_) && !p.weak)
            && (!WantFor(images, i, r).Unbound? ==>
                  exists s: int :: BoundTo(images, i, import_, s) &&
                    WantFor(images, i, r) ==
                      if 0 <= Stored(p, s) < TWO_64 then Bound(Stored(p, s)) else Broken)
  {
    hide SearchImages, PreferHle, NoneBefore, BindsTo;
    var p := images[i].pending[r];
    var import_ := images[i].symbols[p.symbol];
    SearchBinds(images, images[i], import_);
    var found := SearchImages(import_, images, PreferHle(images[i], import_), 0);
    if found.Some? {
      assert IsProvided(images, i, import_, found.value);
      assert BoundTo(images, i, import_, found.value);
    } else {
      assert BoundTo(images, i, import_, 0);
    }
  }

  datatype Program = Program(memory: Memory, images: seq<Image>)

  /** An unsigned 32-bit decrement. */
  function Decrement(n: nat): nat {
    if n == 0 then 0xffff_ffff else n - 1
  }

  function MarkApplied(image: Image, r: nat): Image
    requires r < |image.pending|
  {
    image.(pending := image.pending[r := image.pending[r].(applied := true)],
           applied := image.applied + 1, unresolved := Decrement(image.unresolved))
  }

  function LinkOne(g: Program, i: nat, r: nat): (Program, bool)
    requires IsSlot(g.images, i, r)
  {
    var p := g.images[i].pending[r];
    if p.applied then (g, true)
    else
      match WantFor(g.images, i, r)
      case Broken => (g, false)
      case Unbound => (g, true)
      case Bound(v) =>
        var mem := PutWord(g.memory, p.address, v);
        if !Mapped(g.memory, p.address, 8) then (g.(memory := mem), false)
        else (Program(mem, g.images[i := MarkApplied(g.images[i], r)]), true)
  }

  /** Links from relocation `r` of image `i` on. */
  function LinkFrom(g: Program, i: nat, r: nat): (Program, bool)
    requires i <= |g.images| && (i < |g.images| ==> r <= |g.images[i].pending|)
    decreases |g.images| - i, if i < |g.images| then |g.images[i].pending| - r else 0
  {
    if i == |g.images| then (g, true)
    else if r == |g.images[i].pending| then LinkFrom(g, i + 1, 0)
    else
      var (next, ok) := LinkOne(g, i, r);
      if ok then LinkFrom(next, i, r + 1) else (next, false)
  }

  function Link(g: Program): (Program, bool) {
    LinkFrom(g, 0, 0)
  }

  // ---------- what linking leaves alone ----------

  predicate SameRelocation(p: Pending, q: Pending) {
    q.(applied := p.applied) == p
  }

  predicate SameSlots(a: Image, b: Image) {
    SameImage(a, b) && a.relocations == b.relocations && |b.pending| == |a.pending| &&
    forall r :: 0 <= r < |a.pending| ==> SameRelocation(a.pending[r], b.pending[r])
  }

  predicate SameProgram(a: seq<Image>, b: seq<Image>) {
    |b| == |a| && forall i :: 0 <= i < |a| ==> SameSlots(a[i], b[i])
  }

  lemma {:induction false} SameSearchSymbols(i: Symbol, a: Image, b: Image, s: nat)
    requires SameImage(a, b) && s <= |a.symbols|
    ensures SearchSymbols(i, b, s) == SearchSymbols(i, a, s)
    decreases |a.symbols| - s
  {
    hide SymbolsMatch;
    if s < |a.symbols| {
      SameSearchSymbols(i, a, b, s + 1);
    }
  }

  lemma {:induction false} SameSearch(i: Symbol, a: seq<Image>, b: seq<Image>, preferHle: bool, order: nat)
    requires SameProgram(a, b) && order <= |a|
    ensures SearchImages(i, b, preferHle, order) == SearchImages(i, a, preferHle, order)
    decreases |a| - order
  {
    hide ProviderIndex, SearchSymbols;
    if order < |a| {
      var k := ProviderIndex(preferHle, order, |a|);
      assert SameSlots(a[k], b[k]);
      SameSearchSymbols(i, a[k], b[k], 0);
      SameSearch(i, a, b, preferHle, order + 1);
    }
  }

  /** What a relocation wants does not depend on what was linked before. */
  lemma SameWant(a: seq<Image>, b: seq<Image>, i: nat, r: nat)
    requires SameProgram(a, b) && IsSlot(a, i, r)
    ensures IsSlot(b, i, r) && WantFor(b, i, r) == WantFor(a, i, r)
  {
    hide SearchImages, PreferHle, Linked;
    assert SameSlots(a[i], b[i]) && SameRelocation(a[i].pending[r], b[i].pending[r]);
    var p := a[i].pending[r];
    if p.symbol < |a[i].symbols| {
      SamePreference(a[i], b[i], a[i].symbols[p.symbol]);
      SameSearch(a[i].symbols[p.symbol], a, b, PreferHle(a[i], a[i].symbols[p.symbol]), 0);
    }
  }

  lemma SamePreference(a: Image, b: Image, i: Symbol)
    requires SameImage(a, b)
    ensures PreferHle(a, i) == PreferHle(b, i)
  {
  }

  predicate InSlot(images: seq<Image>, i: nat, r: nat, a: int)
    requires IsSlot(images, i, r)
  {
    images[i].pending[r].address <= a < images[i].pending[r].address + 8
  }

  predicate IsApplied(images: seq<Image>, i: nat, r: nat)
    requires IsSlot(images, i, r)
  {
    images[i].pending[r].applied
  }

  lemma LinkOneImages(g: Program, i: nat, r: nat)
    requires IsSlot(g.images, i, r)
    ensures var (q, ok) := LinkOne(g, i, r);
            && q.memory.Keys == g.memory.Keys && SameProgram(g.images, q.images)
            && (ok ==> IsApplied(q.images, i, r) == (IsApplied(g.images, i, r) || WantFor(g.images, i, r).Bound?))
            && (ok ==> WantFor(g.images, i, r) != Broken || IsApplied(g.images, i, r))
  {
    hide WantFor, PutWord, Mapped;
  }

  lemma LinkOneElsewhere(g: Program, i: nat, r: nat, j: nat, k: nat)
    requires IsSlot(g.images, i, r) && IsSlot(g.images, j, k) && (j != i || k != r)
    ensures var q := LinkOne(g, i, r).0;
            IsSlot(q.images, j, k) && IsApplied(q.images, j, k) == IsApplied(g.images, j, k)
  {
    hide WantFor, PutWord, Mapped;
  }

  lemma LinkOneMemory(g: Program, i: nat, r: nat)
    requires IsSlot(g.images, i, r)
    ensures var (q, ok) := LinkOne(g, i, r);
            && (forall a :: a in g.memory && (InSlot(g.images, i, r, a) ==> IsApplied(g.images, i, r)) ==>
                  q.memory[a] == g.memory[a])
            && (ok && !IsApplied(g.images, i, r) && WantFor(g.images, i, r).Bound? ==>
                  HasWord(q.memory, g.images[i].pending[r].address, WantFor(g.images, i, r).value))
  {
    hide WantFor, PutWord, HasWord, Mapped;
    var p := g.images[i].pending[r];
    if !p.applied && WantFor(g.images, i, r).Bound? {
      PutFrame(g.memory, p.address, WantFor(g.images, i, r).value);
      if Mapped(g.memory, p.address, 8) {
        PutHasWord(g.memory, p.address, WantFor(g.images, i, r).value);
      }
    }
  }

  lemma PutFrame(mem: Memory, p: nat, v: Word64)
    ensures forall a :: a in mem && !(p <= a < p + 8) ==> PutWord(mem, p, v)[a] == mem[a]
  {
    hide Encode;
  }

  predicate Later(i: nat, r: nat, j: nat, k: nat) {
    i < j || (i == j && r <= k)
  }

  lemma SameProgramTrans(a: seq<Image>, b: seq<Image>, c: seq<Image>)
    requires SameProgram(a, b) && SameProgram(b, c)
    ensures SameProgram(a, c)
  {
    forall i | 0 <= i < |a| ensures SameSlots(a[i], c[i]) {
      assert SameSlots(a[i], b[i]) && SameSlots(b[i], c[i]);
      forall r | 0 <= r < |a[i].pending| ensures SameRelocation(a[i].pending[r], c[i].pending[r]) {
        assert SameRelocation(a[i].pending[r], b[i].pending[r]) && SameRelocation(b[i].pending[r], c[i].pending[r]);
      }
    }
  }

  lemma SameProgramSelf(a: seq<Image>)
    ensures SameProgram(a, a)
  {
  }

  /** Linking changes no symbol, address or addend. */
  lemma {:induction false} LinkKeepsProgram(g: Program, i: nat, r: nat)
    requires i <= |g.images| && (i < |g.images| ==> r <= |g.images[i].pending|)
    ensures var q := LinkFrom(g, i, r).0; SameProgram(g.images, q.images) && q.memory.Keys == g.memory.Keys
    decreases |g.images| - i, if i < |g.images| then |g.images[i].pending| - r else 0
  {
    hide LinkOne, SameProgram;
    if i == |g.images| {
      SameProgramSelf(g.images);
    } else if r == |g.images[i].pending| {
      LinkKeepsProgram(g, i + 1, 0);
    } else {
      LinkOneImages(g, i, r);
      var (next, ok) := LinkOne(g, i, r);
      SamePending(g.images, next.images, i);
      if ok {
        LinkKeepsProgram(next, i, r + 1);
        SameProgramTrans(g.images, next.images, LinkFrom(next, i, r + 1).0.images);
      }
    }
  }

  lemma SamePending(a: seq<Image>, b: seq<Image>, i: nat)
    requires SameProgram(a, b) && i < |a|
    ensures |b| == |a| && |b[i].pending| == |a[i].pending| && SameImage(a[i], b[i])
    ensures forall r: nat :: IsSlot(a, i, r) ==> IsSlot(b, i, r) && SameRelocation(a[i].pending[r], b[i].pending[r])
  {
    assert SameSlots(a[i], b[i]);
  }

  /** Earlier slots keep their state, and bytes outside the later open slots keep their value. */
  lemma {:induction false} LinkFrame(g: Program, i: nat, r: nat)
    requires i <= |g.images| && (i < |g.images| ==> r <= |g.images[i].pending|)
    ensures var q := LinkFrom(g, i, r).0;
            && (forall j: nat, k: nat :: IsSlot(g.images, j, k) && !Later(i, r, j, k) ==>
                  IsSlot(q.images, j, k) && IsApplied(q.images, j, k) == IsApplied(g.images, j, k))
            && (forall a :: a in g.memory && Untouched(g.images, i, r, a) ==>
                  a in q.memory && q.memory[a] == g.memory[a])
    decreases |g.images| - i, if i < |g.images| then |g.images[i].pending| - r else 0
  {
    hide LinkOne, IsApplied, InSlot;
    if i < |g.images| {
      if r == |g.images[i].pending| {
        LinkFrame(g, i + 1, 0);
        forall a | Untouched(g.images, i, r, a) ensures Untouched(g.images, i + 1, 0, a) {
        }
      } else {
        LinkFrameStep(g, i, r);
        var (next, ok) := LinkOne(g, i, r);
        LinkOneImages(g, i, r);
        SamePending(g.images, next.images, i);
        if ok {
          LinkFrame(next, i, r + 1);
        }
      }
    }
  }

  ghost predicate Untouched(images: seq<Image>, i: nat, r: nat, a: int) {
    forall j: nat, k: nat :: IsSlot(images, j, k) && Later(i, r, j, k) && InSlot(images, j, k, a) ==>
        IsApplied(images, j, k)
  }

  lemma LinkFrameStep(g: Program, i: nat, r: nat)
    requires IsSlot(g.images, i, r)
    ensures var q := LinkOne(g, i, r).0;
            && q.memory.Keys == g.memory.Keys
            && (forall j: nat, k: nat :: IsSlot(g.images, j, k) && !Later(i, r, j, k) ==>
                  IsSlot(q.images, j, k) && IsApplied(q.images, j, k) == IsApplied(g.images, j, k))
            && (forall a :: a in g.memory && Untouched(g.images, i, r, a) ==>
                  q.memory[a] == g.memory[a] && Untouched(q.images, i, r + 1, a))
  {
    hide LinkOne, IsApplied, SameProgram;
    var q := LinkOne(g, i, r).0;
    LinkOneImages(g, i, r);
    LinkOneMemory(g, i, r);
    forall j: nat, k: nat | IsSlot(g.images, j, k) && !Later(i, r, j, k)
      ensures IsSlot(q.images, j, k) && IsApplied(q.images, j, k) == IsApplied(g.images, j, k)
    {
      LinkOneElsewhere(g, i, r, j, k);
    }
    forall a | a in g.memory && Untouched(g.images, i, r, a)
      ensures q.memory[a] == g.memory[a] && Untouched(q.images, i, r + 1, a)
    {
      forall j: nat, k: nat | IsSlot(q.images, j, k) && Later(i, r + 1, j, k) && InSlot(q.images, j, k, a)
        ensures IsApplied(q.images, j, k)
      {
        SameSlotBack(g.images, q.images, j, k, a);
        LinkOneElsewhere(g, i, r, j, k);
      }
    }
  }

  lemma SameSlotBack(a: seq<Image>, b: seq<Image>, j: nat, k: nat, x: int)
    requires SameProgram(a, b) && IsSlot(b, j, k)
    ensures IsSlot(a, j, k) && InSlot(a, j, k, x) == InSlot(b, j, k, x)
  {
    assert SameSlots(a[j], b[j]);
    assert SameRelocation(a[j].pending[k], b[j].pending[k]);
  }

  /** The words of the open relocations do not share a byte. */
  ghost predicate DistinctSlots(images: seq<Image>) {
    forall i: nat, r: nat, j: nat, k: nat, a: int ::
      IsSlot(images, i, r) && IsSlot(images, j, k) && InSlot(images, i, r, a) && InSlot(images, j, k, a) ==>
          i == j && r == k
  }

  lemma SameDistinct(a: seq<Image>, b: seq<Image>)
    requires SameProgram(a, b) && DistinctSlots(a)
    ensures DistinctSlots(b)
  {
    hide SameProgram, InSlot;
    forall i: nat, r: nat, j: nat, k: nat, x: int |
      IsSlot(b, i, r) && IsSlot(b, j, k) && InSlot(b, i, r, x) && InSlot(b, j, k, x)
      ensures i == j && r == k
    {
      SameSlotBack(a, b, i, r, x);
      SameSlotBack(a, b, j, k, x);
    }
  }

  /** What a successful run leaves in slot `(j, k)`. */
  ghost predicate SlotDone(g: Program, q: Program, j: nat, k: nat)
    requires IsSlot(g.images, j, k)
  {
    IsSlot(q.images, j, k) &&
    IsApplied(q.images, j, k) == (IsApplied(g.images, j, k) || WantFor(g.images, j, k).Bound?) &&
    (!IsApplied(g.images, j, k) && WantFor(g.images, j, k).Bound? ==>
      HasWord(q.memory, g.images[j].pending[k].address, WantFor(g.images, j, k).value)) &&
    (IsApplied(g.images, j, k) || WantFor(g.images, j, k) != Broken)
  }

  lemma {:induction false} LinkSlot(g: Program, i: nat, r: nat, j: nat, k: nat)
    requires i <= |g.images| && (i < |g.images| ==> r <= |g.images[i].pending|)
    requires IsSlot(g.images, j, k) && Later(i, r, j, k)
    requires DistinctSlots(g.images) && LinkFrom(g, i, r).1
    ensures SlotDone(g, LinkFrom(g, i, r).0, j, k)
    decreases |g.images| - i, if i < |g.images| then |g.images[i].pending| - r else 0
  {
    hide LinkOne, WantFor, HasWord, IsApplied, DistinctSlots, InSlot, SlotDone;
    if r == |g.images[i].pending| {
      LinkSlot(g, i + 1, 0, j, k);
    } else {
      var next := LinkOne(g, i, r).0;
      LinkOneImages(g, i, r);
      SamePending(g.images, next.images, i);
      SameDistinct(g.images, next.images);
      if i == j && r == k {
        LinkSlotHere(g, i, r);
      } else {
        LinkOneElsewhere(g, i, r, j, k);
        LinkSlot(next, i, r + 1, j, k);
        SlotDoneBack(g, next, LinkFrom(next, i, r + 1).0, j, k);
      }
    }
  }

  lemma SlotDoneBack(g: Program, next: Program, q: Program, j: nat, k: nat)
    requires SameProgram(g.images, next.images) && IsSlot(g.images, j, k) && IsSlot(next.images, j, k)
    requires IsApplied(next.images, j, k) == IsApplied(g.images, j, k) && SlotDone(next, q, j, k)
    ensures SlotDone(g, q, j, k)
  {
    hide WantFor, HasWord;
    SameWant(g.images, next.images, j, k);
    SamePending(g.images, next.images, j);
  }

  lemma LinkSlotHere(g: Program, i: nat, r: nat)
    requires IsSlot(g.images, i, r) && DistinctSlots(g.images) && LinkFrom(g, i, r).1
    ensures SlotDone(g, LinkFrom(g, i, r).0, i, r)
  {
    hide LinkOne, WantFor, HasWord, DistinctSlots, SameProgram;
    var next := LinkOne(g, i, r).0;
    LinkOneImages(g, i, r);
    LinkOneMemory(g, i, r);
    SamePending(g.images, next.images, i);
    LinkFrame(next, i, r + 1);
    LinkKeepsProgram(next, i, r + 1);
    var q := LinkFrom(next, i, r + 1).0;
    assert IsSlot(next.images, i, r) && !Later(i, r + 1, i, r);
    if !IsApplied(g.images, i, r) && WantFor(g.images, i, r).Bound? {
      SameDistinct(g.images, next.images);
      var p := g.images[i].pending[r].address;
      forall a | p <= a < p + 8 && a in next.memory ensures q.memory[a] == next.memory[a] {
        assert InSlot(next.images, i, r, a);
        OnlyOneSlot(next.images, i, r, a);
      }
      KeepsWord(next.memory, q.memory, p, WantFor(g.images, i, r).value);
    }
  }

  lemma OnlyOneSlot(images: seq<Image>, i: nat, r: nat, a: int)
    requires IsSlot(images, i, r) && InSlot(images, i, r, a) && DistinctSlots(images)
    ensures Untouched(images, i, r + 1, a)
  {
  }

  /** What linking leaves in an open slot: S or S + A of the export that the import is bound to, or of 0 for a weak
      import that no image provides; nothing when it is strong. */
  ghost predicate SlotBound(g: Program, q: Program, j: nat, k: nat)
    requires IsSlot(g.images, j, k) && IsSlot(q.images, j, k)
    requires g.images[j].pending[k].symbol < |g.images[j].symbols|
  {
    var p := g.images[j].pending[k];
    var import_ := g.images[j].symbols[p.symbol];
    if !HasProvider(g.images, import_) && !p.weak then !IsApplied(q.images, j, k)
    else
      IsApplied(q.images, j, k) &&
      exists s: int :: BoundTo(g.images, j, import_, s) && 0 <= Stored(p, s) < TWO_64 &&
        HasWord(q.memory, p.address, Stored(p, s))
  }

  /** After a successful link with distinct targets, every pending relocation that was open holds S, or S + A, of the
      export that provides its import (0 for a weak import without one) and is applied; one without a provider that is
      strong stays open; and one that was applied stays so. */
  lemma LinkBindsEverySlot(g: Program, j: nat, k: nat)
    requires DistinctSlots(g.images) && Link(g).1 && IsSlot(g.images, j, k)
    ensures SlotDone(g, Link(g).0, j, k)
    ensures !IsApplied(g.images, j, k) ==>
              g.images[j].pending[k].symbol < |g.images[j].symbols| && SlotBound(g, Link(g).0, j, k)
    ensures IsApplied(g.images, j, k) ==> IsApplied(Link(g).0.images, j, k)
  {
    hide LinkFrom, HasWord, HasProvider, BoundTo, IsApplied, DistinctSlots;
    LinkSlot(g, 0, 0, j, k);
    if !IsApplied(g.images, j, k) {
      BrokenSymbol(g.images, j, k);
      hide WantFor;
      WantedValue(g.images, j, k);
    }
  }

  lemma BrokenSymbol(images: seq<Image>, j: nat, k: nat)
    requires IsSlot(images, j, k) && WantFor(images, j, k) != Broken
    ensures images[j].pending[k].symbol < |images[j].symbols|
  {
  }

  /** Bytes outside the words of open relocations keep their value, whether or not linking succeeds. */
  lemma LinkTouchesOnlyOpenSlots(g: Program, a: int)
    requires a in g.memory
    requires forall j: nat, k: nat :: IsSlot(g.images, j, k) && InSlot(g.images, j, k, a) ==> IsApplied(g.images, j, k)
    ensures a in Link(g).0.memory && Link(g).0.memory[a] == g.memory[a]
  {
    LinkFrame(g, 0, 0);
    assert Untouched(g.images, 0, 0, a);
  }

  // ---------- when linking succeeds ----------

  /** The slot is done already, wants nothing, or has a value and a mapped word for it. */
  predicate Linkable(mapped: set<int>, images: seq<Image>, j: nat, k: nat)
    requires IsSlot(images, j, k)
  {
    IsApplied(images, j, k) ||
    match WantFor(images, j, k)
    case Broken => false
    case Unbound => true
    case Bound(_) => WordIn(mapped, images[j].pending[k].address)
  }

  ghost predicate AllLinkable(mapped: set<int>, images: seq<Image>, i: nat, r: nat) {
    forall j: nat, k: nat :: IsSlot(images, j, k) && Later(i, r, j, k) ==> Linkable(mapped, images, j, k)
  }

  lemma LinksOne(g: Program, i: nat, r: nat)
    requires IsSlot(g.images, i, r)
    ensures LinkOne(g, i, r).1 <==> Linkable(g.memory.Keys, g.images, i, r)
  {
    hide WantFor, PutWord;
  }

  lemma StillLinkable(g: Program, next: Program, j: nat, k: nat)
    requires SameProgram(g.images, next.images) && next.memory.Keys == g.memory.Keys && IsSlot(g.images, j, k)
    requires IsSlot(next.images, j, k) && IsApplied(next.images, j, k) == IsApplied(g.images, j, k)
    ensures Linkable(next.memory.Keys, next.images, j, k) <==> Linkable(g.memory.Keys, g.images, j, k)
  {
    hide WantFor, WordIn;
    SameWant(g.images, next.images, j, k);
    SamePending(g.images, next.images, j);
  }

  lemma {:induction false} LinksFrom(g: Program, i: nat, r: nat)
    requires i <= |g.images| && (i < |g.images| ==> r <= |g.images[i].pending|)
    ensures LinkFrom(g, i, r).1 <==> AllLinkable(g.memory.Keys, g.images, i, r)
    decreases |g.images| - i, if i < |g.images| then |g.images[i].pending| - r else 0
  {
    hide LinkOne, Linkable, SameProgram;
    if i < |g.images| {
      if r == |g.images[i].pending| {
        LinksFrom(g, i + 1, 0);
      } else {
        LinksOne(g, i, r);
        LinkOneImages(g, i, r);
        var (next, ok) := LinkOne(g, i, r);
        SamePending(g.images, next.images, i);
        assert Later(i, r, i, r);
        if ok {
          LinksFrom(next, i, r + 1);
          LinkableAfter(g, i, r);
        }
      }
    }
  }

  lemma LinkableAfter(g: Program, i: nat, r: nat)
    requires IsSlot(g.images, i, r) && LinkOne(g, i, r).1
    ensures var next := LinkOne(g, i, r).0;
            AllLinkable(g.memory.Keys, g.images, i, r) <==> AllLinkable(next.memory.Keys, next.images, i, r + 1)
  {
    hide LinkOne, Linkable, SameProgram, IsApplied;
    LinksOne(g, i, r);
    LinkOneImages(g, i, r);
    var next := LinkOne(g, i, r).0;
    forall j: nat, k: nat | IsSlot(g.images, j, k) && Later(i, r + 1, j, k)
      ensures IsSlot(next.images, j, k) &&
              (Linkable(next.memory.Keys, next.images, j, k) <==> Linkable(g.memory.Keys, g.images, j, k))
    {
      LinkOneElsewhere(g, i, r, j, k);
      StillLinkable(g, next, j, k);
    }
    forall j: nat, k: nat | IsSlot(next.images, j, k) ensures IsSlot(g.images, j, k) {
      SameSlotBack(g.images, next.images, j, k, 0);
    }
  }

  /** Linking succeeds exactly when every open relocation names a symbol of its image, is bound to a value that fits 64
      bits or stays open, and the word of a bound one is mapped, as images and mapping stand before. */
  lemma LinkSucceedsExactly(g: Program)
    ensures Link(g).1 <==> AllLinkable(g.memory.Keys, g.images, 0, 0)
  {
    hide LinkFrom, AllLinkable;
    LinksFrom(g, 0, 0);
  }

  // ---------- linking again ----------

  /** Every slot from `(i, r)` on is applied or wants nothing. */
  ghost predicate Settled(images: seq<Image>, i: nat, r: nat) {
    forall j: nat, k: nat :: IsSlot(images, j, k) && Later(i, r, j, k) ==>
      IsApplied(images, j, k) || WantFor(images, j, k).Unbound?
  }

  lemma {:induction false} NothingLeft(g: Program, i: nat, r: nat)
    requires i <= |g.images| && (i < |g.images| ==> r <= |g.images[i].pending|)
    requires Settled(g.images, i, r)
    ensures LinkFrom(g, i, r) == (g, true)
    decreases |g.images| - i, if i < |g.images| then |g.images[i].pending| - r else 0
  {
    hide WantFor, PutWord, MarkApplied, Mapped;
    if i < |g.images| {
      if r == |g.images[i].pending| {
        NothingLeft(g, i + 1, 0);
      } else {
        assert IsSlot(g.images, i, r) && Later(i, r, i, r);
        NothingLeft(g, i, r + 1);
      }
    }
  }

  lemma {:induction false} LinkSettles(g: Program, i: nat, r: nat)
    requires i <= |g.images| && (i < |g.images| ==> r <= |g.images[i].pending|) && LinkFrom(g, i, r).1
    ensures Settled(LinkFrom(g, i, r).0.images, i, r)
    decreases |g.images| - i, if i < |g.images| then |g.images[i].pending| - r else 0
  {
    hide LinkOne, WantFor, IsApplied, SameProgram;
    LinkKeepsProgram(g, i, r);
    var q := LinkFrom(g, i, r).0;
    SameCount(g.images, q.images);
    if i < |g.images| {
      if r == |g.images[i].pending| {
        LinkSettles(g, i + 1, 0);
        SamePending(g.images, q.images, i);
      } else {
        var next := LinkOne(g, i, r).0;
        LinkOneImages(g, i, r);
        SamePending(g.images, next.images, i);
        LinkSettles(next, i, r + 1);
        LinkFrame(next, i, r + 1);
        LinkKeepsProgram(next, i, r + 1);
        assert IsSlot(next.images, i, r) && !Later(i, r + 1, i, r);
        SameWant(g.images, q.images, i, r);
      }
    }
  }

  lemma SameCount(a: seq<Image>, b: seq<Image>)
    requires SameProgram(a, b)
    ensures |a| == |b|
  {
  }

  /** Linking the same images again writes nothing and changes no counter. */
  lemma RelinkingWritesNothing(g: Program)
    requires Link(g).1
    ensures Link(Link(g).0) == (Link(g).0, true)
  {
    hide LinkFrom;
    LinkSettles(g, 0, 0);
    NothingLeft(Link(g).0, 0, 0);
  }

  // ---------- counters ----------

  ghost predicate AllBalanced(images: seq<Image>) {
    forall i :: 0 <= i < |images| ==> Balanced(images[i])
  }

  lemma {:induction false} OpenUpdate(ps: seq<Pending>, r: nat)
    requires r < |ps| && !ps[r].applied
    ensures Open(ps) == Open(ps[r := ps[r].(applied := true)]) + 1
    decreases |ps|
  {
    var qs := ps[r := ps[r].(applied := true)];
    if r == |ps| - 1 {
      assert qs[..|qs| - 1] == ps[..|ps| - 1];
    } else {
      OpenUpdate(ps[..|ps| - 1], r);
      assert qs[..|qs| - 1] == ps[..|ps| - 1][r := ps[r].(applied := true)];
    }
  }

  lemma LinkOneBalanced(g: Program, i: nat, r: nat)
    requires AllBalanced(g.images) && IsSlot(g.images, i, r)
    ensures AllBalanced(LinkOne(g, i, r).0.images)
  {
    hide WantFor, PutWord, Mapped;
    if !g.images[i].pending[r].applied {
      OpenUpdate(g.images[i].pending, r);
      assert Balanced(g.images[i]);
    }
  }

  /** For every image, relocations = applied + unresolved, and the unresolved counter equals the number of
      relocations still open, however far linking gets. */
  lemma {:induction false} LinkKeepsBalance(g: Program, i: nat, r: nat)
    requires AllBalanced(g.images) && i <= |g.images| && (i < |g.images| ==> r <= |g.images[i].pending|)
    ensures AllBalanced(LinkFrom(g, i, r).0.images)
    decreases |g.images| - i, if i < |g.images| then |g.images[i].pending| - r else 0
  {
    hide LinkOne, Balanced, SameProgram;
    if i < |g.images| {
      if r == |g.images[i].pending| {
        LinkKeepsBalance(g, i + 1, 0);
      } else {
        LinkOneBalanced(g, i, r);
        LinkOneImages(g, i, r);
        var (next, ok) := LinkOne(g, i, r);
        SamePending(g.images, next.images, i);
        if ok {
          LinkKeepsBalance(next, i, r + 1);
        }
      }
    }
  }
}
