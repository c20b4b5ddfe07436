/** What executing one packet leaves in guest memory, and exactly which packets fail. */
module Pm4Packets {
  import opened Arithmetic
  import opened Wrappers
  import opened GuestMemory
  import opened Pm4
  import opened Pm4Inlining
  import opened Pm4Effects

  // ---------- fields ----------

  /** A field is what was put between the bits below and above it. */
  lemma FieldDecodes(w: Word, unit: nat, bits: nat, low: nat, value: nat, high: nat)
    requires unit > 0 && value < bits && low < unit
    requires w == low + unit * (value + bits * high)
    ensures Field(w, unit, bits) == value
  {
    DivModUnique(w, unit, value + bits * high, low);
    DivModUnique(value + bits * high, bits, high, value);
  }

  /** A type-3 header holds its opcode in bits 8 to 15 and one less than its payload count in bits 16 to 29. */
  lemma HeaderDecodes(header: Word, opcode: nat, count: nat, low: nat)
    requires opcode < 0x100 && 1 <= count <= 0x4000 && low < 0x100
    requires header == 0xc000_0000 + (count - 1) * 0x1_0000 + opcode * 0x100 + low
    ensures PacketType(header) == 3 && Opcode(header) == opcode && PayloadCount(header) == count
    ensures IsIndirect(header) <==> opcode == 0x33 || opcode == 0x3f
  {
    FieldDecodes(header, 0x100, 0x100, low, opcode, count - 1 + 0xc000);
    FieldDecodes(header, 0x1_0000, 0x4000, opcode * 0x100 + low, count - 1, 3);
  }

  /** Headers of the other types: a type-0 header counts its payload like a type-3 header, a type-1 header has two
      words and a type-2 header none; none of them names an indirect buffer. */
  lemma OtherHeadersDecode(header: Word, count: nat, low: nat)
    requires 1 <= count <= 0x4000 && low < 0x1_0000
    ensures header == (count - 1) * 0x1_0000 + low ==> PacketType(header) == 0 && PayloadCount(header) == count
    ensures 0x4000_0000 <= header < 0x8000_0000 ==> PayloadCount(header) == 2
    ensures 0x8000_0000 <= header < 0xc000_0000 ==> PayloadCount(header) == 0
    ensures header < 0xc000_0000 ==> !IsIndirect(header)
  {
    if header == (count - 1) * 0x1_0000 + low {
      FieldDecodes(header, 0x1_0000, 0x4000, low, count - 1, 0);
    }
  }

  /** An indirect buffer is named by a 48-bit address and a count of 20 bits; the bits above them do not matter. */
  lemma IndirectDecodes(p: seq<Word>, lo: Word, hi: nat, words: nat, above: nat, over: nat)
    requires |p| >= 4 && hi < 0x1_0000 && words < 0x10_0000
    requires p[1] == lo && p[2] == hi + 0x1_0000 * above && p[3] == words + 0x10_0000 * over
    ensures IndirectAddress(p) == lo + hi * 0x1_0000_0000 && IndirectWords(p) == words
  {
  }

  // ---------- which packets fail ----------

  /** A word of the packet has no four mapped bytes at its address. */
  predicate WordMissing(mem: Memory, address: Word64, oneAddress: bool, k: nat) {
    !Readable(mem, WordTarget(address, oneAddress, k), 4)
  }

  predicate WriteDataFails(mem: Memory, p: seq<Word>)
    requires |p| > 4
  {
    var select, one, address := Field(p[1], 0x100, 0x10), Field(p[1], 0x1_0000, 2) == 1, Join64(p[2], p[3]);
    select !in {2, 5} || address == 0 || exists k :: 0 <= k < |p| - 4 && WordMissing(mem, address, one, k)
  }

  /** A four-byte piece of the destination, or what is left of it, is not mapped. */
  predicate PieceMissing(mem: Memory, destination: Word64, size: nat, j: nat) {
    4 * j < size && !Readable(mem, Wrap64(destination + 4 * j), Piece(size, j))
  }

  function Piece(size: nat, j: nat): nat {
    if size <= 4 * j then 0 else if size - 4 * j < 4 then size - 4 * j else 4
  }

  predicate DmaFails(mem: Memory, p: seq<Word>)
    requires |p| > 6
  {
    var from, to := Field(p[1], 0x2000_0000, 4), Field(p[1], 0x10_0000, 4);
    var source, destination, size := Join64(p[2], p[3]), Join64(p[4], p[5]), p[6] % 0x20_0000;
    p[4] != 0x3022c &&
    (to !in {0, 3} || from == 1 ||
     if from == 2 then exists j :: 0 <= j < size && PieceMissing(mem, destination, size, j)
     else size > 0 && (source == 0 || !Readable(mem, source, size) || !Readable(mem, destination, size)))
  }

  function EopSize(select: nat): nat {
    if select == 0 then 0 else if select == 1 then 4 else 8
  }

  predicate EopFails(mem: Memory, p: seq<Word>)
    requires |p| > 5
  {
    var select := Field(p[3], 0x2000_0000, 8);
    select > 4 || !Readable(mem, Address48(p[2], p[3]), EopSize(select))
  }

  lemma SameReadable(m1: Memory, m2: Memory, a: int, size: nat)
    requires m1.Keys == m2.Keys
    ensures Readable(m1, a, size) <==> Readable(m2, a, size)
  {
    assert forall x :: x in m1 <==> x in m1.Keys;
    assert forall x :: x in m2 <==> x in m2.Keys;
  }

  lemma {:induction false} WordsFail(mem: Memory, address: Word64, one: bool, words: seq<Word>, i: nat)
    ensures WriteWords(mem, address, one, words, i).1 <==>
              !exists k :: i <= k < |words| && WordMissing(mem, address, one, k)
    decreases |words| - i
  {
    hide Store, Encode, Readable, Wrap64;
    if i < |words| {
      var after := Store(mem, WordTarget(address, one, i), Encode(words[i], 4));
      WordsFail(after, address, one, words, i + 1);
      forall k: nat ensures WordMissing(after, address, one, k) <==> WordMissing(mem, address, one, k) {
        SameReadable(mem, after, WordTarget(address, one, k), 4);
      }
      if WordMissing(mem, address, one, i) {
        assert i <= i < |words| && WordMissing(mem, address, one, i);
      }
    }
  }

  lemma {:induction false} FillFails(mem: Memory, destination: Word64, value: Word, size: nat, j: nat)
    ensures FillBytes(mem, destination, value, size, 4 * j).1 <==>
              !exists i :: j <= i < size && PieceMissing(mem, destination, size, i)
    decreases size - j
  {
    hide Store, Encode, Readable, Wrap64;
    if 4 * j < size {
      var chunk := if size - 4 * j < 4 then size - 4 * j else 4;
      var after := Store(mem, Wrap64(destination + 4 * j), Encode(value, 4)[..chunk]);
      FillFails(after, destination, value, size, j + 1);
      FillStep(mem, destination, value, size, j);
      forall i: nat ensures PieceMissing(after, destination, size, i) <==> PieceMissing(mem, destination, size, i) {
        SameReadable(mem, after, Wrap64(destination + 4 * i), Piece(size, i));
      }
      if PieceMissing(mem, destination, size, j) {
        assert j <= j < size && PieceMissing(mem, destination, size, j);
      }
    } else {
      forall i | j <= i < size ensures !PieceMissing(mem, destination, size, i) {
      }
    }
  }

  /** One piece further; after the last, shorter one there is nothing left. */
  lemma FillStep(mem: Memory, destination: Word64, value: Word, size: nat, j: nat)
    requires 4 * j < size
    ensures var chunk := if size - 4 * j < 4 then size - 4 * j else 4;
            var after := Store(mem, Wrap64(destination + 4 * j), Encode(value, 4)[..chunk]);
            FillBytes(mem, destination, value, size, 4 * j) ==
              if Readable(mem, Wrap64(destination + 4 * j), chunk)
              then FillBytes(after, destination, value, size, 4 * (j + 1))
              else (after, false)
  {
    hide Store, Encode, Readable, Wrap64;
  }

  /** WRITE_DATA fails exactly for these control fields and mapped ranges. */
  lemma WriteDataFailsExactly(st: Machine, p: seq<Word>)
    requires |p| > 4
    ensures ExecWriteData(st, p).failure.Some? <==> WriteDataFails(st.mem, p)
    ensures ExecWriteData(st, p).st.ticks == st.ticks
  {
    hide WriteWords, Field;
    WordsFail(st.mem, Join64(p[2], p[3]), Field(p[1], 0x1_0000, 2) == 1, p[4..], 0);
  }

  lemma DmaFailsExactly(st: Machine, p: seq<Word>)
    requires |p| > 6
    ensures ExecDma(st, p).failure.Some? <==> DmaFails(st.mem, p)
    ensures ExecDma(st, p).st.ticks == st.ticks
    ensures p[4] == 0x3022c ==> ExecDma(st, p).st == st
  {
    hide FillBytes, Field, Store, Load, Readable;
    FillFails(st.mem, Join64(p[4], p[5]), p[2], p[6] % 0x20_0000, 0);
    EmptyReadable(st.mem, Join64(p[4], p[5]), p[6] % 0x20_0000);
  }

  /** Nothing is mapped at the null address. */
  lemma EmptyReadable(mem: Memory, a: int, size: nat)
    ensures Readable(mem, a, size) && size > 0 ==> a != 0
  {
  }

  lemma EopFailsExactly(clock: nat -> Word64, st: Machine, p: seq<Word>)
    requires |p| > 5
    ensures ExecEop(clock, st, p).failure.Some? <==> EopFails(st.mem, p)
  {
    hide Readable, Store, Encode, Field;
  }

  // ---------- what is left when a packet fails halfway ----------

  /** The bytes before the first unmapped one are stored. */
  lemma {:induction false} PrefixIsMapped(mem: Memory, a: int, size: nat, x: int)
    requires a <= x < a + size && forall y :: a <= y <= x ==> y in mem
    ensures x < a + MappedPrefix(mem, a, size)
    decreases size
  {
    if x > a {
      PrefixIsMapped(mem, a + 1, size - 1, x);
    }
  }

  /** A write stores every byte before the first unmapped one, and no other. */
  lemma PartialStore(mem: Memory, a: int, data: seq<Byte>, x: int)
    requires InAddressSpace(a, |data|) && a <= x < a + |data| && x in mem
    ensures Store(mem, a, data)[x] == if forall y :: a <= y <= x ==> y in mem then data[x - a] else mem[x]
  {
    if forall y :: a <= y <= x ==> y in mem {
      PrefixIsMapped(mem, a, |data|, x);
    }
  }

  /** Words before the one that cannot be written are stored, of that one what can be, and no later one. */
  lemma {:induction false} WordsBeforeFailure(mem: Memory, address: Word64, one: bool, words: seq<Word>, i: nat, k: nat)
    requires i <= k < |words| && WordMissing(mem, address, one, k)
    requires forall j :: i <= j < k ==> !WordMissing(mem, address, one, j)
    ensures WriteWords(mem, address, one, words[..k], i).1
    ensures WriteWords(mem, address, one, words, i).0 ==
            Store(WriteWords(mem, address, one, words[..k], i).0, WordTarget(address, one, k), Encode(words[k], 4))
    decreases k - i
  {
    hide Store, Encode, Readable, Wrap64;
    if i < k {
      assert !WordMissing(mem, address, one, i);
      var after := Store(mem, WordTarget(address, one, i), Encode(words[i], 4));
      forall j: nat ensures WordMissing(after, address, one, j) <==> WordMissing(mem, address, one, j) {
        SameReadable(mem, after, WordTarget(address, one, j), 4);
      }
      WordsBeforeFailure(after, address, one, words, i + 1, k);
      assert words[..k][i] == words[i];
    }
  }

  // ---------- executing one packet ----------

  /** A stream of one complete packet: the machine after it, or why it failed. */
  lemma OnePacket(clock: nat -> Word64, st: Machine, p: seq<Word>, pos: nat, depth: nat)
    requires IsPacket(p) && depth <= MAX_IB_DEPTH
    ensures var o, e := Exec(clock, st, p, pos, depth), ExecPacket(clock, st, p);
            o.st == e.st && (o.error.Some? <==> e.failure.Some?) &&
            (o.error.Some? ==> o.error.value.reason == e.failure.value && o.error.value.header == p[0])
  {
    hide Exec, ExecPacket;
    assert [p][1..] == [];
    assert Concat([p]) == p + Concat([p][1..]) == p;
    assert Run(clock, ExecPacket(clock, st, p).st, [p][1..]) == Finish(ExecPacket(clock, st, p).st, None);
    FlatExecIsRun(clock, st, [p], pos, depth);
  }

  /** Executing a WRITE_DATA packet fails exactly for the wrong destinations and unmapped words, and otherwise leaves
      its words in memory. */
  lemma WriteDataPacket(clock: nat -> Word64, st: Machine, p: seq<Word>, depth: nat)
    requires IsPacket(p) && depth <= MAX_IB_DEPTH && PacketType(p[0]) == 3 && Opcode(p[0]) == 0x37
    ensures var o := Exec(clock, st, p, 0, depth);
            && o.st.ticks == st.ticks
            && (|p| <= 4 ==> o.st == st && o.error.None?)
            && (|p| > 4 ==> (o.error.Some? <==> WriteDataFails(st.mem, p)))
            && (|p| > 4 && o.error.None? ==>
                  var address := Join64(p[2], p[3]);
                  if Field(p[1], 0x1_0000, 2) == 1 then WordAt(o.st.mem, address) == p[|p| - 1]
                  else address + 4 * (|p| - 4) <= TWO_64 ==>
                         forall k: nat :: k < |p| - 4 ==> WordAt(o.st.mem, address + 4 * k) == p[4 + k])
  {
    hide Exec, WriteDataFails, Field, WordAt, WriteWords;
    OnePacket(clock, st, p, 0, depth);
    assert ExecPacket(clock, st, p) == ExecWriteData(st, p);
    if |p| > 4 {
      hide ExecWriteData;
      WriteDataFailsExactly(st, p);
      if ExecWriteData(st, p).failure.None? {
        WriteDataStores(st, p);
      }
    }
  }

  /** Executing a DMA_DATA packet fails exactly for the wrong selectors and unmapped ranges, and otherwise leaves the
      repeated value or the bytes the source held before. */
  lemma DmaPacket(clock: nat -> Word64, st: Machine, p: seq<Word>, depth: nat)
    requires IsPacket(p) && depth <= MAX_IB_DEPTH && PacketType(p[0]) == 3 && Opcode(p[0]) == 0x50
    ensures var o := Exec(clock, st, p, 0, depth);
            && o.st.ticks == st.ticks
            && (|p| <= 6 || p[4] == 0x3022c ==> o.st == st && o.error.None?)
            && (|p| > 6 ==> (o.error.Some? <==> DmaFails(st.mem, p)))
            && (|p| > 6 && p[4] != 0x3022c && o.error.None? ==>
                  var source, destination, size := Join64(p[2], p[3]), Join64(p[4], p[5]), p[6] % 0x20_0000;
                  destination + size <= TWO_64 ==>
                    forall x :: destination <= x < destination + size ==>
                      ByteAt(o.st.mem, x) ==
                        if Field(p[1], 0x2000_0000, 4) == 2 then PatternByte(p[2], x - destination)
                        else ByteAt(st.mem, source + (x - destination)))
  {
    hide Exec, DmaFails, Field, FillBytes, CopyBytes, PatternByte;
    OnePacket(clock, st, p, 0, depth);
    assert ExecPacket(clock, st, p) == ExecDma(st, p);
    if |p| > 6 {
      hide ExecDma;
      DmaFailsExactly(st, p);
      if ExecDma(st, p).failure.None? && p[4] != 0x3022c {
        DmaMoves(st, p);
      }
    }
  }

  /** Executing an EVENT_WRITE_EOP packet fails exactly for selectors above 4 and unmapped ranges, and otherwise leaves
      its value or the time. */
  lemma EopPacket(clock: nat -> Word64, st: Machine, p: seq<Word>, depth: nat)
    requires IsPacket(p) && depth <= MAX_IB_DEPTH && PacketType(p[0]) == 3 && Opcode(p[0]) == 0x47
    ensures var o := Exec(clock, st, p, 0, depth);
            && (|p| <= 5 ==> o.st == st && o.error.None?)
            && (|p| > 5 ==> (o.error.Some? <==> EopFails(st.mem, p)))
            && (|p| > 5 && o.error.None? ==>
                  var select, address := Field(p[3], 0x2000_0000, 8), Address48(p[2], p[3]);
                  && o.st.ticks == st.ticks + (if select >= 3 then 1 else 0)
                  && (select == 0 ==> o.st.mem == st.mem)
                  && (select == 1 ==> WordAt(o.st.mem, address) == p[4])
                  && (select == 2 ==> Peeks(o.st.mem, address, Join64(p[4], p[5])))
                  && (select >= 3 ==> Peeks(o.st.mem, address, clock(st.ticks))))
  {
    hide Exec, EopFails, Field, WordAt, Peeks;
    OnePacket(clock, st, p, 0, depth);
    assert ExecPacket(clock, st, p) == ExecEop(clock, st, p);
    if |p| > 5 {
      hide ExecEop;
      EopFailsExactly(clock, st, p);
      if ExecEop(clock, st, p).failure.None? {
        EopWrites(clock, st, p);
      }
    }
  }

  /** Every other packet leaves the machine alone and succeeds. */
  lemma OtherPackets(clock: nat -> Word64, st: Machine, p: seq<Word>, depth: nat)
    requires IsPacket(p) && depth <= MAX_IB_DEPTH
    requires PacketType(p[0]) != 3 || Opcode(p[0]) !in {0x37, 0x47, 0x50}
    ensures Exec(clock, st, p, 0, depth) == Outcome(st, None)
  {
    hide Exec, Field;
    OnePacket(clock, st, p, 0, depth);
  }

  // ---------- streams without packets, and indirect buffers ----------

  /** A stream that ends in zeros and empty type-2 headers ends there, for the executor and for flattening. */
  lemma PaddingStreams(clock: nat -> Word64, st: Machine, s: seq<Word>, pos: nat, depth: nat, length: nat)
    requires depth <= 8 && forall i :: 0 <= i < |s| ==> s[i] == 0 || s[i] == 0x8000_0000
    ensures Exec(clock, st, s, pos, depth) == Outcome(st, None)
    ensures Inline(st.mem, s, pos, depth, length) == Ok(Inlined([], {}))
  {
  }

  /** A packet that announces more words than are left stops both, and leaves the machine alone. */
  lemma TruncatedStreams(clock: nat -> Word64, st: Machine, s: seq<Word>, pos: nat, depth: nat, length: nat)
    requires depth <= 8 && |s| > 0 && !TailPadding(s) && |s| <= PayloadCount(s[0])
    ensures Exec(clock, st, s, pos, depth) ==
              Outcome(st, Some(ParseError(pos, s[0], if s[0] >= 0xc000_0000 then TruncatedType3
                                                     else TruncatedType0OrType1)))
    ensures Inline(st.mem, s, pos, depth, length) == Err(ParseError(pos, s[0], TruncatedPacketDuringFlatten))
  {
    hide PayloadCount;
  }

  /** The depth limit: eight levels of indirect buffers, the ninth is refused. */
  lemma TooDeep(clock: nat -> Word64, st: Machine, s: seq<Word>, pos: nat, depth: nat, length: nat)
    requires depth > 8
    ensures Exec(clock, st, s, pos, depth) == Outcome(st, Some(ParseError(0, 0, IndirectBufferDepth)))
    ensures Inline(st.mem, s, pos, depth, length) == Err(ParseError(0, 0, IndirectBufferDepth))
  {
  }

  /** Why an indirect buffer cannot be entered. */
  function Barred(mem: Memory, p: seq<Word>): Option<Reason>
    requires |p| >= 4
  {
    if IndirectAddress(p) == 0 || IndirectWords(p) == 0 then Some(IndirectBufferRange)
    else if !Readable(mem, IndirectAddress(p), 4 * IndirectWords(p)) then Some(IndirectBufferMemory)
    else None
  }

  /** Executing a stream of one indirect buffer packet is executing the words of its buffer, one level deeper; it fails
      for a buffer that is null, empty or not readable, and is ignored when it names none. */
  lemma IndirectPacket(clock: nat -> Word64, st: Machine, p: seq<Word>, pos: nat, depth: nat)
    requires |p| > 0 && |p| == PayloadCount(p[0]) + 1 && IsIndirect(p[0]) && depth <= 8
    ensures Exec(clock, st, p, pos, depth) ==
              if |p| < 4 then Outcome(st, None)
              else match Barred(st.mem, p)
                   case Some(reason) => Outcome(st, Some(ParseError(pos, p[0], reason)))
                   case None =>
                     Exec(clock, st, LoadWords(st.mem, IndirectAddress(p), IndirectWords(p)), 0, depth + 1)
  {
    hide Field, Readable, LoadWords, PayloadCount, IndirectAddress, IndirectWords;
    NotPadding(p);
    assert p[..|p|] == p && p[|p|..] == [];
    EndsAt(clock, ExecStep(clock, st, p, pos, depth).st, pos + |p|, depth);
    StepsInto(clock, st, p, pos, depth);
  }

  lemma NotPadding(p: seq<Word>)
    requires |p| > 0 && IsIndirect(p[0])
    ensures !TailPadding(p)
  {
    assert !IsPadding(p[0]);
  }

  lemma EndsAt(clock: nat -> Word64, st: Machine, pos: nat, depth: nat)
    requires depth <= 8
    ensures Exec(clock, st, [], pos, depth) == Outcome(st, None)
  {
  }

  lemma StepsInto(clock: nat -> Word64, st: Machine, p: seq<Word>, pos: nat, depth: nat)
    requires |p| > 0 && |p| == PayloadCount(p[0]) + 1 && IsIndirect(p[0]) && depth <= 8
    ensures Exec(clock, st, p, pos, depth) == ExecStep(clock, st, p, pos, depth)
  {
    hide Field, PayloadCount, ExecStep;
    NotPadding(p);
    assert p[..|p|] == p && p[|p|..] == [];
    EndsAt(clock, ExecStep(clock, st, p, pos, depth).st, pos + |p|, depth);
  }

  /** Flattening a stream of one packet: an indirect buffer gives what its words give, and the buffer itself; any other
      packet gives itself, as long as the flattened words do not exceed their limit. */
  lemma PacketInlines(mem: Memory, p: seq<Word>, pos: nat, depth: nat, length: nat)
    requires |p| > 0 && |p| == PayloadCount(p[0]) + 1 && !TailPadding(p) && depth <= 8
    ensures Inline(mem, p, pos, depth, length) ==
              if !IsIndirect(p[0]) then
                if length + |p| <= 8 * 0xf_ffff then Ok(Inlined([p], {}))
                else Err(ParseError(pos, p[0], FlattenedBufferTooLarge))
              else if |p| < 4 then Err(ParseError(pos, p[0], TruncatedIndirectBuffer))
              else match Barred(mem, p)
                   case Some(reason) => Err(ParseError(pos, p[0], reason))
                   case None =>
                     var inner := Inline(mem, LoadWords(mem, IndirectAddress(p), IndirectWords(p)), 0, depth + 1,
                                         length);
                     if inner.Err? then inner
                     else Ok(Inlined(inner.value.packets,
                                     inner.value.sources + {Buffer(IndirectAddress(p), 4 * IndirectWords(p))}))
  {
    hide Field, PayloadCount, IndirectAddress, IndirectWords, Readable, LoadWords;
    InlinesInto(mem, p, pos, depth, length);
  }

  lemma InlineNothing(mem: Memory, pos: nat, depth: nat, length: nat)
    requires depth <= 8
    ensures Inline(mem, [], pos, depth, length) == Ok(Inlined([], {}))
  {
  }

  lemma InlinesInto(mem: Memory, p: seq<Word>, pos: nat, depth: nat, length: nat)
    requires |p| > 0 && |p| == PayloadCount(p[0]) + 1 && !TailPadding(p) && depth <= 8
    ensures Inline(mem, p, pos, depth, length) == InlineStep(mem, p, pos, depth, length)
  {
    hide Field, PayloadCount, InlineStep;
    assert p[..|p|] == p && p[|p|..] == [];
    var first := InlineStep(mem, p, pos, depth, length);
    if first.Ok? {
      InlineNothing(mem, pos + |p|, depth, length + |Concat(first.value.packets)|);
      assert first.value.packets + [] == first.value.packets && first.value.sources + {} == first.value.sources;
    }
  }
}
