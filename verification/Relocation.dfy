/** Applying the relocation tables of one image; imports are deferred to the linker. */
module Relocation {
  import opened Wrappers
  import opened GuestMemory
  import opened Loader

  datatype Symbol = Symbol(nid: Option<string>, library: Option<string>, unit: Option<string>, version: nat, kind: nat,
                           weak: bool, value: Word64, defined: bool)

  datatype Pending = Pending(address: nat, addend: Int64, symbol: nat, kind: nat, weak: bool, applied: bool)

  datatype Rela = Rela(offset: Word64, symbol: nat, kind: nat, addend: Int64)

  datatype Image = Image(name: Option<string>, virtualBase: Word64, physicalBase: Word64, tlsModule: Word,
                         segments: seq<Segment>, symbols: seq<Symbol>, pending: seq<Pending>,
                         relocations: nat, applied: nat, unresolved: nat)

  datatype State = State(memory: Memory, image: Image)

  // ---------- targets ----------

  /** The first segment at or after `i` that holds the 8 bytes at the virtual address. */
  function FindTarget(segments: seq<Segment>, address: Word64): (r: Option<nat>)
    decreases |segments|
  {
    if segments == [] then None
    else
      var s := segments[0];
      if s.virtualAddr <= address && address - s.virtualAddr <= s.memorySize &&
         8 <= s.memorySize - (address - s.virtualAddr)
      then Some(s.physicalAddr + (address - s.virtualAddr))
      else FindTarget(segments[1..], address)
  }

  function RelocationTarget(image: Image, offset: Word64): Option<nat> {
    match AddValid(image.virtualBase, offset)
    case None => None
    case Some(address) => FindTarget(image.segments, address)
  }

  /** The 8 bytes at physical address `p` lie inside the segment. */
  predicate HoldsWord(s: Segment, p: int) {
    s.physicalAddr <= p && p + 8 <= s.physicalAddr + s.memorySize
  }

  predicate InSomeSegment(segments: seq<Segment>, p: int) {
    exists i :: 0 <= i < |segments| && HoldsWord(segments[i], p)
  }

  lemma {:induction false} FindTargetSpec(b: Bases, segments: seq<Segment>, address: Word64)
    requires forall i :: 0 <= i < |segments| ==> PlacedAt(b, segments[i])
    requires address >= b.virtual
    ensures FindTarget(segments, address) ==
            if InSomeSegment(segments, b.physical + (address - b.virtual))
            then Some(b.physical + (address - b.virtual)) else None
    decreases |segments|
  {
    var p := b.physical + (address - b.virtual);
    if segments != [] {
      assert PlacedAt(b, segments[0]);
      FindTargetSpec(b, segments[1..], address);
      assert InSomeSegment(segments, p) <==> HoldsWord(segments[0], p) || InSomeSegment(segments[1..], p) by {
        if InSomeSegment(segments[1..], p) {
          var i :| 0 <= i < |segments[1..]| && HoldsWord(segments[1..][i], p);
          assert HoldsWord(segments[i + 1], p);
        }
        if InSomeSegment(segments, p) && !HoldsWord(segments[0], p) {
          var i :| 0 <= i < |segments| && HoldsWord(segments[i], p);
          assert HoldsWord(segments[1..][i - 1], p);
        }
      }
    }
  }

  predicate Based(image: Image, limit: Word64) {
    Placed(Bases(image.virtualBase, image.physicalBase, limit), image.segments)
  }

  /** A target is the relocation offset above the physical base, accepted exactly when the whole word lies in
      one segment; so it never straddles two. */
  lemma TargetIsTranslated(image: Image, limit: Word64, offset: Word64)
    requires Based(image, limit)
    ensures RelocationTarget(image, offset) ==
            if image.virtualBase + offset < TWO_64 && InSomeSegment(image.segments, image.physicalBase + offset)
            then Some(image.physicalBase + offset) else None
  {
    if image.virtualBase + offset < TWO_64 {
      FindTargetSpec(Bases(image.virtualBase, image.physicalBase, limit), image.segments, image.virtualBase + offset);
    }
  }

  // ---------- one entry ----------

  datatype Outcome = Value(value: Word64) | Deferred | Rejected

  function Valued(v: Option<Word64>): Outcome {
    if v.Some? then Value(v.value) else Rejected
  }

  predicate Binds(kind: nat) {
    kind == R_64 || kind == R_GLOB_DAT || kind == R_JUMP_SLOT
  }

  /** S + A for R_X86_64_64, S for the others. */
  function Linked(kind: nat, s: Option<Word64>, addend: Int64): Option<Word64> {
    if s.Some? && kind == R_64 then AddSignedValid(s.value, addend) else s
  }

  function ValueOf(virtualBase: Word64, tlsModule: Word, symbols: seq<Symbol>, r: Rela): (o: Outcome)
    ensures o.Deferred? ==> r.symbol < |symbols|
  {
    if r.kind == R_RELATIVE then Valued(AddSignedValid(virtualBase, r.addend))
    else if r.kind == R_DTPMOD64 then Value(tlsModule)
    else if Binds(r.kind) then
      if r.symbol >= |symbols| then Rejected
      else if !symbols[r.symbol].defined then Deferred
      else Valued(Linked(r.kind, AddValid(virtualBase, symbols[r.symbol].value), r.addend))
    else Rejected
  }

  function Evaluate(image: Image, r: Rela): Outcome {
    ValueOf(image.virtualBase, image.tlsModule, image.symbols, r)
  }

  /** What a relocation evaluates to, from the symbol's value S, the addend A and the base B: S + A for
      R_X86_64_64, S for GLOB_DAT and JUMP_SLOT, B + A for RELATIVE, the TLS module for DTPMOD64; a value
      that does not fit 64 bits is rejected. */
  lemma EvaluatedValue(image: Image, r: Rela)
    ensures r.kind == R_RELATIVE ==>
              Evaluate(image, r) == Fitting(image.virtualBase + r.addend)
    ensures r.kind == R_DTPMOD64 ==> Evaluate(image, r) == Value(image.tlsModule)
    ensures Binds(r.kind) && r.symbol < |image.symbols| && image.symbols[r.symbol].defined ==>
              var s := image.virtualBase + image.symbols[r.symbol].value;
              Evaluate(image, r) ==
                if s >= TWO_64 then Rejected else if r.kind == R_64 then Fitting(s + r.addend) else Value(s)
    ensures Evaluate(image, r).Deferred? <==>
              Binds(r.kind) && r.symbol < |image.symbols| && !image.symbols[r.symbol].defined
  {
  }

  function Fitting(v: int): Outcome {
    if 0 <= v < TWO_64 then Value(v) else Rejected
  }

  /** The little-endian word is stored where it is mapped; the store succeeds when all of it is. */
  function PutWord(mem: Memory, p: nat, v: Word64): (m: Memory)
    ensures m.Keys == mem.Keys
  {
    Poke(mem, p, Encode(v, 8))
  }

  /** Reading the word gives the value. */
  predicate HasWord(mem: Memory, p: nat, v: Word64) {
    Mapped(mem, p, 8) && Decode(Peek(mem, p, 8)) == v
  }

  function ApplyOne(st: State, r: Rela): (State, bool) {
    var image := st.image.(relocations := st.image.relocations + 1);
    match RelocationTarget(image, r.offset)
    case None => (st.(image := image), false)
    case Some(p) =>
      match Evaluate(image, r)
      case Rejected => (st.(image := image), false)
      case Deferred =>
        var pending := Pending(p, r.addend, r.symbol, r.kind, image.symbols[r.symbol].weak, false);
        (st.(image := image.(pending := image.pending + [pending], unresolved := image.unresolved + 1)), true)
      case Value(v) =>
        if Mapped(st.memory, p, 8) then
          (State(PutWord(st.memory, p, v), image.(applied := image.applied + 1)), true)
        else
          (State(PutWord(st.memory, p, v), image), false)
  }

  function ApplyTable(st: State, table: seq<Rela>): (State, bool)
    decreases |table|
  {
    if table == [] then (st, true)
    else
      var (next, ok) := ApplyOne(st, table[0]);
      if ok then ApplyTable(next, table[1..]) else (next, false)
  }

  /** The ordinary table, then the table of the procedure linkage. */
  function ApplyTables(st: State, rela: seq<Rela>, jmprel: seq<Rela>): (State, bool) {
    var (next, ok) := ApplyTable(st, rela);
    if ok then ApplyTable(next, jmprel) else (next, false)
  }

  // ---------- counters ----------

  function Open(ps: seq<Pending>): (n: nat)
    ensures n <= |ps|
  {
    if ps == [] then 0 else Open(ps[..|ps| - 1]) + if ps[|ps| - 1].applied then 0 else 1
  }

  /** Every relocation was applied or waits for the linker. */
  predicate Balanced(image: Image) {
    image.relocations == image.applied + image.unresolved && image.unresolved == Open(image.pending)
  }

  lemma OpenAppend(ps: seq<Pending>, p: Pending)
    ensures Open(ps + [p]) == Open(ps) + if p.applied then 0 else 1
  {
    assert (ps + [p])[..|ps|] == ps;
  }

  /** Static parts of an image that relocation and linking never change. */
  predicate SameImage(a: Image, b: Image) {
    a.name == b.name && a.virtualBase == b.virtualBase && a.physicalBase == b.physicalBase &&
    a.tlsModule == b.tlsModule &&
    a.segments == b.segments && a.symbols == b.symbols
  }

  lemma ApplyOneCounts(st: State, r: Rela)
    requires Balanced(st.image)
    ensures var (q, ok) := ApplyOne(st, r);
            && SameImage(q.image, st.image) && |q.image.pending| <= |st.image.pending| + 1
            && q.image.relocations == st.image.relocations + 1
            && (ok <==> Balanced(q.image)) && q.image.unresolved == Open(q.image.pending)
  {
    hide FindTarget, Encode, Poke;
    var image := st.image;
    match RelocationTarget(image.(relocations := image.relocations + 1), r.offset)
    case None =>
    case Some(p) =>
      if r.symbol < |image.symbols| {
        var pending := Pending(p, r.addend, r.symbol, r.kind, image.symbols[r.symbol].weak, false);
        OpenAppend(image.pending, pending);
      }
  }

  /** The entry's target lies in a segment, its value fits 64 bits or is left to the linker, and a word that gets a
      value is mapped. */
  predicate Appliable(mapped: set<int>, image: Image, r: Rela) {
    RelocationTarget(image, r.offset).Some? && !Evaluate(image, r).Rejected? &&
    (Evaluate(image, r).Value? ==> WordIn(mapped, RelocationTarget(image, r.offset).value))
  }

  predicate WordIn(mapped: set<int>, p: int) {
    forall a :: p <= a < p + 8 ==> a in mapped
  }

  predicate AllAppliable(mapped: set<int>, image: Image, table: seq<Rela>) {
    forall k :: 0 <= k < |table| ==> Appliable(mapped, image, table[k])
  }

  lemma SameAppliable(mapped: set<int>, a: Image, b: Image, r: Rela)
    requires SameImage(a, b)
    ensures Appliable(mapped, a, r) <==> Appliable(mapped, b, r)
  {
    SameTargets(a, b, r.offset);
    SameOutcome(a, b, r);
  }

  lemma AppliesOne(st: State, r: Rela)
    ensures ApplyOne(st, r).1 <==> Appliable(st.memory.Keys, st.image, r)
  {
    hide FindTarget, ValueOf, Poke, Encode;
    var image := st.image.(relocations := st.image.relocations + 1);
    SameTargets(st.image, image, r.offset);
    SameOutcome(st.image, image, r);
  }

  /** A table is applied completely exactly when each of its entries can be, as image and mapping stand before it. */
  lemma {:induction false} AppliesExactly(st: State, table: seq<Rela>)
    ensures ApplyTable(st, table).1 <==> AllAppliable(st.memory.Keys, st.image, table)
    decreases |table|
  {
    hide ApplyOne, Appliable;
    if table != [] {
      AppliesOne(st, table[0]);
      ApplyOneFrame(st, table[0]);
      var next := ApplyOne(st, table[0]).0;
      AppliesExactly(next, table[1..]);
      forall k | 0 < k < |table|
        ensures Appliable(st.memory.Keys, st.image, table[k]) <==>
                  Appliable(next.memory.Keys, next.image, table[1..][k - 1])
      {
        SameAppliable(st.memory.Keys, st.image, next.image, table[k]);
      }
      AppliableFromFront(st, next, table);
    }
  }

  lemma AppliableFromFront(st: State, next: State, table: seq<Rela>)
    requires table != []
    requires forall k :: 0 < k < |table| ==>
               (Appliable(st.memory.Keys, st.image, table[k]) <==>
                Appliable(next.memory.Keys, next.image, table[1..][k - 1]))
    ensures AllAppliable(st.memory.Keys, st.image, table) <==>
              Appliable(st.memory.Keys, st.image, table[0]) &&
              AllAppliable(next.memory.Keys, next.image, table[1..])
  {
    hide Appliable;
    if AllAppliable(next.memory.Keys, next.image, table[1..]) {
      forall k | 0 < k < |table| ensures Appliable(st.memory.Keys, st.image, table[k]) {
        assert Appliable(next.memory.Keys, next.image, table[1..][k - 1]);
      }
    }
    if AllAppliable(st.memory.Keys, st.image, table) {
      forall k | 0 <= k < |table[1..]| ensures Appliable(next.memory.Keys, next.image, table[1..][k]) {
        assert Appliable(st.memory.Keys, st.image, table[k + 1]);
      }
    }
  }

  lemma {:induction false} TableCounts(st: State, table: seq<Rela>)
    requires Balanced(st.image)
    ensures var (q, ok) := ApplyTable(st, table);
            && SameImage(q.image, st.image) && (ok <==> Balanced(q.image))
            && |q.image.pending| <= |st.image.pending| + |table|
            && (ok ==> q.image.relocations == st.image.relocations + |table|)
    decreases |table|
  {
    hide Balanced, ApplyOne;
    if table != [] {
      ApplyOneCounts(st, table[0]);
      var (next, ok) := ApplyOne(st, table[0]);
      if ok {
        TableCounts(next, table[1..]);
      }
    }
  }

  /** The counters balance after a table exactly when it was applied completely, which is exactly when each of its
      entries has a target in a segment, a value that fits or a symbol for the linker, and a mapped word for its value;
      and the pending entries never outnumber the table entries they were allocated for. */
  lemma CountersBalance(st: State, table: seq<Rela>)
    requires Balanced(st.image)
    ensures var (q, ok) := ApplyTable(st, table);
            && SameImage(q.image, st.image) && (ok <==> Balanced(q.image))
            && (Balanced(q.image) <==> AllAppliable(st.memory.Keys, st.image, table))
            && |q.image.pending| <= |st.image.pending| + |table|
            && (ok ==> q.image.relocations == st.image.relocations + |table|)
  {
    hide Balanced, ApplyTable, AllAppliable;
    TableCounts(st, table);
    AppliesExactly(st, table);
  }

  /** A table that fails: the first entry of an image without segments is counted, but neither applied nor
      deferred. */
  lemma FailedEntryUnbalances() returns (st: State, r: Rela)
    ensures st.image.segments == [] && Balanced(st.image) && r.kind == R_RELATIVE
    ensures var q := ApplyTable(st, [r]).0.image;
            q.relocations == 1 && q.applied == 0 && q.unresolved == 0 && !Balanced(q)
  {
    hide ApplyTable;
    st := State(map[], Image(None, 0, 0, 0, [], [], [], 0, 0, 0));
    r := Rela(0, 0, R_RELATIVE, 0);
    NoSegmentFails(st, r);
  }

  lemma NoSegmentFails(st: State, r: Rela)
    requires st.image.segments == [] && Balanced(st.image)
    ensures var q := ApplyTable(st, [r]).0.image;
            q == st.image.(relocations := st.image.relocations + 1) && !Balanced(q)
  {
    assert RelocationTarget(st.image, r.offset).None?;
    assert !Appliable(st.memory.Keys, st.image, [r][0]);
    CountersBalance(st, [r]);
    assert ApplyTable(st, [r]) == ApplyOne(st, r);
  }

  lemma TablesBalance(st: State, rela: seq<Rela>, jmprel: seq<Rela>)
    requires Balanced(st.image) && st.image.pending == []
    ensures var (q, ok) := ApplyTables(st, rela, jmprel);
            && (ok <==> Balanced(q.image)) && |q.image.pending| <= |rela| + |jmprel|
            && (ok ==> q.image.relocations == st.image.relocations + |rela| + |jmprel|)
  {
    hide Balanced, ApplyTable;
    CountersBalance(st, rela);
    var (next, ok) := ApplyTable(st, rela);
    if ok {
      CountersBalance(next, jmprel);
    }
  }

  // ---------- memory ----------

  /** The address lies in a word some entry of the table relocates. */
  predicate Relocates(image: Image, r: Rela, a: int) {
    RelocationTarget(image, r.offset).Some? &&
    RelocationTarget(image, r.offset).value <= a < RelocationTarget(image, r.offset).value + 8
  }

  predicate RelocatesAny(image: Image, table: seq<Rela>, a: int) {
    exists i :: 0 <= i < |table| && Relocates(image, table[i], a)
  }

  lemma SameTargets(a: Image, b: Image, offset: Word64)
    requires SameImage(a, b)
    ensures RelocationTarget(a, offset) == RelocationTarget(b, offset)
  {
  }

  lemma ApplyOneFrame(st: State, r: Rela)
    ensures var q := ApplyOne(st, r).0;
            && q.memory.Keys == st.memory.Keys && SameImage(q.image, st.image)
            && (forall a :: a in st.memory && !Relocates(st.image, r, a) ==> q.memory[a] == st.memory[a])
  {
    hide FindTarget, Evaluate, Encode;
  }

  /** Only words of the table's targets change, however the table ends; those lie inside segments. */
  lemma {:induction false} RelocationFrame(st: State, table: seq<Rela>)
    ensures var q := ApplyTable(st, table).0;
            && q.memory.Keys == st.memory.Keys && SameImage(q.image, st.image)
            && (forall a :: a in st.memory && !RelocatesAny(st.image, table, a) ==> q.memory[a] == st.memory[a])
    decreases |table|
  {
    hide ApplyOne, Relocates;
    if table != [] {
      ApplyOneFrame(st, table[0]);
      assert forall a :: Relocates(st.image, table[0], a) ==> RelocatesAny(st.image, table, a);
      var (next, ok) := ApplyOne(st, table[0]);
      if ok {
        RelocationFrame(next, table[1..]);
        forall a | RelocatesAny(next.image, table[1..], a) ensures RelocatesAny(st.image, table, a) {
          var i :| 0 <= i < |table[1..]| && Relocates(next.image, table[1..][i], a);
          SameRelocates(st.image, next.image, table[i + 1], a);
        }
      }
    }
  }

  lemma SameRelocates(a: Image, b: Image, r: Rela, x: int)
    requires SameImage(a, b)
    ensures Relocates(a, r, x) <==> Relocates(b, r, x)
  {
    SameTargets(a, b, r.offset);
  }

  /** Relocation writes stay inside the image's segments. */
  lemma RelocatedBytesAreInSegments(image: Image, limit: Word64, r: Rela, a: int)
    requires Based(image, limit) && Relocates(image, r, a)
    ensures exists i :: 0 <= i < |image.segments| && Within(image.segments[i], a)
    ensures a < limit
  {
    TargetIsTranslated(image, limit, r.offset);
    var p := image.physicalBase + r.offset;
    var i :| 0 <= i < |image.segments| && HoldsWord(image.segments[i], p);
    assert Within(image.segments[i], a) &&
           PlacedAt(Bases(image.virtualBase, image.physicalBase, limit), image.segments[i]);
  }

  /** The targets of the entries do not share a byte. */
  predicate DistinctTargets(image: Image, table: seq<Rela>) {
    forall i, j :: 0 <= i < j < |table| ==> TargetsApart(image, table[i], table[j])
  }

  predicate TargetsApart(image: Image, r: Rela, q: Rela) {
    var a, b := RelocationTarget(image, r.offset), RelocationTarget(image, q.offset);
    a.Some? && b.Some? ==> a.value + 8 <= b.value || b.value + 8 <= a.value
  }

  lemma PutHasWord(mem: Memory, p: nat, v: Word64)
    requires Mapped(mem, p, 8)
    ensures HasWord(PutWord(mem, p, v), p, v)
  {
    hide Encode, Decode;
    PeekPoke(mem, p, Encode(v, 8));
    Pow256Constants();
    DecodeEncode(v, 8);
  }

  lemma KeepsWord(mem: Memory, after: Memory, p: nat, v: Word64)
    requires HasWord(mem, p, v) && after.Keys == mem.Keys
    requires forall a :: p <= a < p + 8 && a in mem ==> after[a] == mem[a]
    ensures HasWord(after, p, v)
  {
    hide Decode;
    assert Peek(after, p, 8) == Peek(mem, p, 8);
  }

  /** After a table with distinct targets was applied, every entry that has a value here holds it. */
  lemma {:induction false} AppliedValues(st: State, table: seq<Rela>, k: nat)
    requires ApplyTable(st, table).1 && DistinctTargets(st.image, table) && k < |table|
    requires Evaluate(st.image, table[k]).Value?
    ensures RelocationTarget(st.image, table[k].offset).Some?
    ensures HasWord(ApplyTable(st, table).0.memory, RelocationTarget(st.image, table[k].offset).value,
                    Evaluate(st.image, table[k]).value)
    decreases |table|
  {
    hide ApplyOne, RelocationTarget, Evaluate, HasWord;
    var next := ApplyOne(st, table[0]).0;
    ApplyOneFrame(st, table[0]);
    if k == 0 {
      AppliedFirst(st, table[0]);
      RelocationFrame(next, table[1..]);
      var p := RelocationTarget(st.image, table[0].offset).value;
      forall a | p <= a < p + 8 && a in next.memory ensures !RelocatesAny(next.image, table[1..], a) {
        OthersMiss(st.image, next.image, table, a);
      }
      KeepsWord(next.memory, ApplyTable(st, table).0.memory, p, Evaluate(st.image, table[0]).value);
    } else {
      TailDistinct(st.image, next.image, table);
      SameOutcome(st.image, next.image, table[k]);
      SameTargets(st.image, next.image, table[k].offset);
      AppliedValues(next, table[1..], k - 1);
    }
  }

  lemma AppliedFirst(st: State, r: Rela)
    requires ApplyOne(st, r).1 && Evaluate(st.image, r).Value?
    ensures RelocationTarget(st.image, r.offset).Some?
    ensures HasWord(ApplyOne(st, r).0.memory, RelocationTarget(st.image, r.offset).value, Evaluate(st.image, r).value)
  {
    hide HasWord, PutWord;
    var image := st.image.(relocations := st.image.relocations + 1);
    SameTargets(st.image, image, r.offset);
    SameOutcome(st.image, image, r);
    if RelocationTarget(st.image, r.offset).Some? && Mapped(st.memory, RelocationTarget(st.image, r.offset).value, 8) {
      PutHasWord(st.memory, RelocationTarget(st.image, r.offset).value, Evaluate(st.image, r).value);
    }
  }

  lemma SameOutcome(a: Image, b: Image, r: Rela)
    requires SameImage(a, b)
    ensures Evaluate(a, r) == Evaluate(b, r)
  {
  }

  lemma OthersMiss(image: Image, later: Image, table: seq<Rela>, a: int)
    requires table != [] && DistinctTargets(image, table) && SameImage(image, later)
    requires Relocates(image, table[0], a)
    ensures !RelocatesAny(later, table[1..], a)
  {
    forall i | 0 <= i < |table[1..]| ensures !Relocates(later, table[1..][i], a) {
      SameRelocates(image, later, table[i + 1], a);
      assert TargetsApart(image, table[0], table[i + 1]);
    }
  }

  lemma TailDistinct(image: Image, later: Image, table: seq<Rela>)
    requires table != [] && DistinctTargets(image, table) && SameImage(image, later)
    ensures DistinctTargets(later, table[1..])
  {
    hide RelocationTarget;
    forall i, j | 0 <= i < j < |table[1..]| ensures TargetsApart(later, table[1..][i], table[1..][j]) {
      assert TargetsApart(image, table[i + 1], table[j + 1]);
      SameTargets(image, later, table[i + 1].offset);
      SameTargets(image, later, table[j + 1].offset);
    }
  }
}
