/** Why inlining needs its side condition: a stream that rewrites an indirect buffer before entering it. */
module Pm4SelfModifying {
  import opened Wrappers
  import opened GuestMemory
  import opened Pm4
  import opened Pm4Inlining

  const BUFFER: Word64 := 0x1000
  /** A WRITE_DATA of one word, POISON, to BUFFER. */
  const WRITE: seq<Word> := [0xc003_3700, 0x200, 0x1000, 0, 0xc005_1000]
  /** An INDIRECT_BUFFER of the two words at BUFFER. */
  const ENTER: seq<Word> := [0xc002_3f00, 0x1000, 0, 2]
  /** The header of a packet longer than the buffer. */
  const POISON: Word := 0xc005_1000

  lemma Headers()
    ensures PacketType(WRITE[0]) == 3 && PayloadCount(WRITE[0]) == 4 && Opcode(WRITE[0]) == WRITE_DATA
    ensures PacketType(ENTER[0]) == 3 && PayloadCount(ENTER[0]) == 3 && Opcode(ENTER[0]) == INDIRECT_BUFFER
    ensures PacketType(POISON) == 3 && PayloadCount(POISON) == 6
    ensures Field(WRITE[1], 0x100, 0x10) == 2 && Field(WRITE[1], 0x1_0000, 2) == 0
  {
  }

  lemma StreamParts()
    ensures (WRITE + ENTER)[..5] == WRITE && (WRITE + ENTER)[5..] == ENTER
    ensures ENTER[..4] == ENTER && ENTER[4..] == [] && WRITE[4..] == [POISON]
    ensures !TailPadding(WRITE + ENTER) && !TailPadding(ENTER)
  {
    assert !IsPadding((WRITE + ENTER)[0]) && !IsPadding(ENTER[0]);
  }

  ghost predicate Blank(mem: Memory) {
    Readable(mem, BUFFER, 8) && forall a :: BUFFER <= a < BUFFER + 8 ==> ByteAt(mem, a) == 0
  }

  lemma TwoWords(mem: Memory, a: int)
    ensures LoadWords(mem, a, 2) == [WordAt(mem, a), WordAt(mem, a + 4)]
  {
    hide WordAt;
    assert LoadWords(mem, a + 4, 1) == [WordAt(mem, a + 4)] + LoadWords(mem, a + 8, 0);
  }

  lemma BlankWords(mem: Memory)
    requires Blank(mem)
    ensures LoadWords(mem, BUFFER, 2) == [0, 0]
  {
    hide LoadWords;
    TwoWords(mem, BUFFER);
  }

  lemma InlinesEnter(mem: Memory) returns (r: Inlined)
    requires Blank(mem)
    ensures Inline(mem, ENTER, 5, 0, 5) == Ok(r) && r.packets == []
  {
    hide PacketType, PayloadCount, Opcode, LoadWords, Readable, TailPadding;
    Headers();
    StreamParts();
    BlankWords(mem);
    PaddingInlines(mem, [0, 0], 0, 1, 5);
    var step := Inlined([], {} + {Buffer(BUFFER, 8)});
    assert InlineStep(mem, ENTER, 5, 0, 5) == Ok(step);
    PaddingInlines(mem, [], 9, 0, 5);
    r := Inlined([] + [], step.sources + {});
  }

  lemma PaddingInlines(mem: Memory, s: seq<Word>, pos: nat, depth: nat, length: nat)
    requires depth <= MAX_IB_DEPTH && forall i :: 0 <= i < |s| ==> s[i] == 0
    ensures Inline(mem, s, pos, depth, length) == Ok(Inlined([], {}))
  {
  }

  lemma InlinesStream(mem: Memory) returns (r: Inlined)
    requires Blank(mem)
    ensures Inline(mem, WRITE + ENTER, 0, 0, 0) == Ok(r) && r.packets == [WRITE]
  {
    hide PacketType, PayloadCount, Opcode, LoadWords, Readable, TailPadding;
    Headers();
    StreamParts();
    var rest := InlinesEnter(mem);
    assert InlineStep(mem, WRITE, 0, 0, 0) == Ok(Inlined([WRITE], {}));
    assert Concat([WRITE]) == WRITE;
    r := Inlined([WRITE] + rest.packets, {} + rest.sources);
  }

  lemma PoisonBytes()
    ensures Encode(POISON, 4) == [0x00, 0x10, 0x05, 0xc0]
  {
    assert Encode(0xc0, 1) == [0xc0] + Encode(0, 0);
    assert Encode(0xc005, 2) == [0x05] + Encode(0xc0, 1);
    assert Encode(0xc0_0510, 3) == [0x10] + Encode(0xc005, 2);
  }

  lemma StoredPoison(mem: Memory, data: seq<Byte>) returns (after: Memory)
    requires Blank(mem) && data == [0x00, 0x10, 0x05, 0xc0]
    ensures after == Store(mem, BUFFER, data) && Readable(after, BUFFER, 8)
    ensures WordAt(after, BUFFER) == POISON && WordAt(after, BUFFER + 4) == 0
  {
    after := Store(mem, BUFFER, data);
    assert MappedPrefix(mem, BUFFER, 4) == 4;
    assert ByteAt(after, BUFFER) == 0 && ByteAt(after, BUFFER + 1) == 0x10 && ByteAt(after, BUFFER + 2) == 5
        && ByteAt(after, BUFFER + 3) == 0xc0;
    assert forall a :: BUFFER + 4 <= a < BUFFER + 8 ==> ByteAt(after, a) == ByteAt(mem, a) == 0;
  }

  lemma WriteTakesEffect(mem: Memory) returns (after: Memory)
    requires Blank(mem)
    ensures WriteWords(mem, BUFFER, false, [POISON], 0) == (after, true)
    ensures Readable(after, BUFFER, 8) && LoadWords(after, BUFFER, 2) == [POISON, 0]
  {
    hide Encode, Store, WordAt, LoadWords;
    PoisonBytes();
    after := StoredPoison(mem, Encode(POISON, 4));
    TwoWords(after, BUFFER);
    assert WriteWords(after, BUFFER, false, [POISON], 1) == (after, true);
  }

  lemma WritePacketRuns(clock: nat -> Word64, st: Machine, after: Memory)
    requires WriteWords(st.mem, BUFFER, false, [POISON], 0) == (after, true)
    ensures ExecPacket(clock, st, WRITE) == Effect(st.(mem := after), None)
  {
    hide PacketType, PayloadCount, Opcode, Field, WriteWords;
    Headers();
    StreamParts();
  }

  lemma PoisonFails(clock: nat -> Word64, st: Machine)
    ensures Exec(clock, st, [POISON, 0], 0, 1).error.Some?
  {
    hide PacketType, PayloadCount, Opcode, ExecStep;
    Headers();
    assert !IsPadding([POISON, 0][0]);
  }

  lemma EnterFails(clock: nat -> Word64, st: Machine)
    requires Readable(st.mem, BUFFER, 8) && LoadWords(st.mem, BUFFER, 2) == [POISON, 0]
    ensures Exec(clock, st, ENTER, 5, 0).error.Some?
  {
    hide PacketType, PayloadCount, Opcode, LoadWords, Readable, Exec, ExecPacket, TailPadding;
    Headers();
    StreamParts();
    PoisonFails(clock, st);
    ExecUnfold(clock, st, ENTER, 5, 0);
  }

  /** The flattened stream succeeds, because the buffer was read before the packet that rewrites it ran;
      the nested stream fails on the rewritten buffer. */
  lemma RewritingABufferChangesMeaning(clock: nat -> Word64, st: Machine) returns (r: Inlined)
    requires Blank(st.mem)
    ensures Inline(st.mem, WRITE + ENTER, 0, 0, 0) == Ok(r)
    ensures Exec(clock, st, Concat(r.packets), 0, 0).error.None?
    ensures Exec(clock, st, WRITE + ENTER, 0, 0).error.Some?
  {
    hide Inline, Exec, ExecPacket, PacketType, PayloadCount, Opcode, LoadWords, Readable, TailPadding;
    Headers();
    StreamParts();
    r := InlinesStream(st.mem);
    var after := WriteTakesEffect(st.mem);
    WritePacketRuns(clock, st, after);
    assert r.packets[1..] == [];
    FlatExecIsRun(clock, st, r.packets, 0, 0);
    ExecUnfold(clock, st, WRITE + ENTER, 0, 0);
    EnterFails(clock, st.(mem := after));
  }
}
