/** The PM4 packet grammar and the meaning of a command stream in guest memory. */
module Pm4 {
  import opened Wrappers
  import opened GuestMemory

  const MAX_COMMAND_DWORDS: nat := 0xfffff
  const MAX_IB_DEPTH: nat := 8
  const MAX_FLATTENED_DWORDS: nat := MAX_COMMAND_DWORDS * MAX_IB_DEPTH
  const MAX_DMA_SIZE: nat := 0x20_0000

  const NOP: int := 0x10
  const INDIRECT_BUFFER_CONST: int := 0x33
  const WRITE_DATA: int := 0x37
  const INDIRECT_BUFFER: int := 0x3f
  const EVENT_WRITE_EOP: int := 0x47
  const DMA_DATA: int := 0x50
  const SET_CONTEXT_REG: int := 0x69
  const SET_SH_REG: int := 0x76

  datatype Reason =
    | IndirectBufferDepth
    | TruncatedPacketDuringFlatten
    | TruncatedIndirectBuffer
    | IndirectBufferRange
    | IndirectBufferMemory
    | FlattenedBufferTooLarge
    | TruncatedType0OrType1
    | TruncatedType3
    | WriteDataDestination
    | WriteDataMemory
    | DmaDestinationOrSize
    | DmaFillMemory
    | DmaCopyMemory
    | DmaSource
    | EopDataSelect
    | EopMemory
    | InvalidRegisterPacket

  datatype ParseError = ParseError(offset: nat, header: Word, reason: Reason)

  // ---------- packet framing ----------

  /** The field of `bits` (a power of two) values starting at the bit worth `unit`. */
  function Field(w: Word, unit: int, bits: int): (r: nat)
    requires unit > 0 && bits > 0
    ensures r < bits
  {
    w / unit % bits
  }

  function PacketType(header: Word): (t: nat)
    ensures t < 4
  {
    header / 0x4000_0000
  }

  function Opcode(header: Word): nat {
    Field(header, 0x100, 0x100)
  }

  function PayloadCount(header: Word): (n: nat)
    ensures n <= 0x4000
    ensures n == 0 <==> PacketType(header) == 2
  {
    if PacketType(header) == 2 then 0
    else if PacketType(header) == 1 then 2
    else Field(header, 0x1_0000, 0x4000) + 1
  }

  predicate IsIndirect(header: Word) {
    PacketType(header) == 3 &&
    (Opcode(header) == INDIRECT_BUFFER_CONST || Opcode(header) == INDIRECT_BUFFER)
  }

  predicate IsPadding(w: Word) {
    w == 0 || w == 0x8000_0000
  }

  predicate TailPadding(s: seq<Word>) {
    forall i :: 0 <= i < |s| ==> IsPadding(s[i])
  }

  /** A header followed by exactly the payload it announces, to be executed in place. */
  predicate IsPacket(p: seq<Word>) {
    |p| > 0 && |p| == PayloadCount(p[0]) + 1 && !IsIndirect(p[0])
  }

  predicate ArePackets(ps: seq<seq<Word>>) {
    forall i :: 0 <= i < |ps| ==> IsPacket(ps[i])
  }

  function Concat(ps: seq<seq<Word>>): seq<Word> {
    if |ps| == 0 then [] else ps[0] + Concat(ps[1..])
  }

  lemma {:induction false} ConcatAppend(ps: seq<seq<Word>>, qs: seq<seq<Word>>)
    ensures Concat(ps + qs) == Concat(ps) + Concat(qs)
  {
    if |ps| == 0 {
      assert ps + qs == qs;
    } else {
      assert (ps + qs)[1..] == ps[1..] + qs;
      ConcatAppend(ps[1..], qs);
    }
  }

  // ---------- inlining of indirect buffers ----------

  function Address48(lo: Word, hi: int): Word64 {
    lo + (hi % 0x1_0000) * 0x1_0000_0000
  }

  function IndirectAddress(p: seq<Word>): Word64
    requires |p| >= 3
  {
    Address48(p[1], p[2])
  }

  function IndirectWords(p: seq<Word>): (n: nat)
    requires |p| >= 4
    ensures n <= MAX_COMMAND_DWORDS
  {
    p[3] % 0x10_0000
  }

  /** What inlining produces: the packets in order, and every indirect buffer that was read. */
  datatype Inlined = Inlined(packets: seq<seq<Word>>, sources: set<Buffer>)

  /** Inlines the stream `s`, which starts `pos` words into its buffer at nesting `depth`, when
      `length` words have been produced already. */
  ghost function Inline(mem: Memory, s: seq<Word>, pos: nat, depth: nat, length: nat)
    : (r: Result<Inlined, ParseError>)
    ensures r.Ok? ==> ArePackets(r.value.packets)
    ensures r.Ok? && length <= MAX_FLATTENED_DWORDS ==>
              length + |Concat(r.value.packets)| <= MAX_FLATTENED_DWORDS
    decreases MAX_IB_DEPTH + 1 - depth, |s|
  {
    if depth > MAX_IB_DEPTH then Err(ParseError(0, 0, IndirectBufferDepth))
    else if |s| == 0 || TailPadding(s) then Ok(Inlined([], {}))
    else
      var header := s[0];
      var n := PayloadCount(header);
      if n > |s| - 1 then Err(ParseError(pos, header, TruncatedPacketDuringFlatten))
      else
        var p, rest := s[..n + 1], s[n + 1..];
        var first := InlineStep(mem, p, pos, depth, length);
        if first.Err? then first
        else
          var second := Inline(mem, rest, pos + n + 1, depth, length + |Concat(first.value.packets)|);
          if second.Err? then second
          else
            ConcatAppend(first.value.packets, second.value.packets);
            Ok(Inlined(first.value.packets + second.value.packets,
                       first.value.sources + second.value.sources))
  }

  /** Inlines one framed packet: an indirect buffer becomes its packets, anything else stays. */
  ghost function InlineStep(mem: Memory, p: seq<Word>, pos: nat, depth: nat, length: nat)
    : (r: Result<Inlined, ParseError>)
    requires |p| > 0 && |p| == PayloadCount(p[0]) + 1
    requires depth <= MAX_IB_DEPTH
    ensures r.Ok? ==> ArePackets(r.value.packets)
    ensures r.Ok? && length <= MAX_FLATTENED_DWORDS ==>
              length + |Concat(r.value.packets)| <= MAX_FLATTENED_DWORDS
    decreases MAX_IB_DEPTH + 1 - depth, 0
  {
    if !IsIndirect(p[0]) then
      if |p| > MAX_FLATTENED_DWORDS - length then Err(ParseError(pos, p[0], FlattenedBufferTooLarge))
      else
        assert Concat([p]) == p;
        Ok(Inlined([p], {}))
    else if |p| - 1 < 3 then Err(ParseError(pos, p[0], TruncatedIndirectBuffer))
    else
      var address, words := IndirectAddress(p), IndirectWords(p);
      if address == 0 || words == 0 then Err(ParseError(pos, p[0], IndirectBufferRange))
      else if !Readable(mem, address, 4 * words) then Err(ParseError(pos, p[0], IndirectBufferMemory))
      else
        var inner := Inline(mem, LoadWords(mem, address, words), 0, depth + 1, length);
        if inner.Err? then inner
        else Ok(Inlined(inner.value.packets, inner.value.sources + {Buffer(address, 4 * words)}))
  }

  // ---------- memory effects ----------

  /** Guest memory together with the number of times the virtual clock has been read. */
  datatype Machine = Machine(mem: Memory, ticks: nat)

  /** The machine after a step, and why the step failed if it did. */
  datatype Effect = Effect(st: Machine, failure: Option<Reason>)

  function WriteWords(mem: Memory, address: Word64, oneAddress: bool, words: seq<Word>, i: nat): (r: (Memory, bool))
    ensures r.0.Keys == mem.Keys
    decreases |words| - i
  {
    if i >= |words| then (mem, true)
    else
      var a := Wrap64(address + if oneAddress then 0 else 4 * i);
      var after := Store(mem, a, Encode(words[i], 4));
      if Readable(mem, a, 4) then WriteWords(after, address, oneAddress, words, i + 1)
      else (after, false)
  }

  function FillBytes(mem: Memory, destination: Word64, value: Word, size: nat, done: nat): (r: (Memory, bool))
    ensures r.0.Keys == mem.Keys
    decreases size - done
  {
    if done >= size then (mem, true)
    else
      var chunk := if size - done < 4 then size - done else 4;
      var a := Wrap64(destination + done);
      var after := Store(mem, a, Encode(value, 4)[..chunk]);
      if Readable(mem, a, chunk) then FillBytes(after, destination, value, size, done + chunk)
      else (after, false)
  }

  function CopyBytes(mem: Memory, destination: Word64, source: Word64, size: nat): (r: (Memory, bool))
    ensures r.0.Keys == mem.Keys
  {
    if size == 0 then (mem, true)
    else if size > MAX_DMA_SIZE || destination == 0 || source == 0 then (mem, false)
    else if !Readable(mem, source, size) then (mem, false)
    else (Store(mem, destination, Load(mem, source, size)), Readable(mem, destination, size))
  }

  function ExecWriteData(st: Machine, p: seq<Word>): (r: Effect)
    requires |p| > 0
    ensures r.st.mem.Keys == st.mem.Keys
  {
    if |p| - 1 < 4 then Effect(st, None)
    else
      var select := Field(p[1], 0x100, 0x10);
      var oneAddress := Field(p[1], 0x1_0000, 2) == 1;
      var address := Join64(p[2], p[3]);
      if (select != 2 && select != 5) || address == 0 then Effect(st, Some(WriteDataDestination))
      else
        var (mem, ok) := WriteWords(st.mem, address, oneAddress, p[4..], 0);
        Effect(st.(mem := mem), if ok then None else Some(WriteDataMemory))
  }

  function ExecDma(st: Machine, p: seq<Word>): (r: Effect)
    requires |p| > 0
    ensures r.st.mem.Keys == st.mem.Keys
  {
    if |p| - 1 < 6 || p[4] == 0x3022c then Effect(st, None)
    else
      var sourceSelect := Field(p[1], 0x2000_0000, 4);
      var destinationSelect := Field(p[1], 0x10_0000, 4);
      var source := Join64(p[2], p[3]);
      var destination := Join64(p[4], p[5]);
      var size := p[6] % 0x20_0000;
      if (destinationSelect != 0 && destinationSelect != 3) || size > MAX_DMA_SIZE then
        Effect(st, Some(DmaDestinationOrSize))
      else if sourceSelect == 2 then
        var (mem, ok) := FillBytes(st.mem, destination, p[2], size, 0);
        Effect(st.(mem := mem), if ok then None else Some(DmaFillMemory))
      else if sourceSelect == 0 || sourceSelect == 3 then
        var (mem, ok) := CopyBytes(st.mem, destination, source, size);
        Effect(st.(mem := mem), if ok then None else Some(DmaCopyMemory))
      else Effect(st, Some(DmaSource))
  }

  function ExecEop(clock: nat -> Word64, st: Machine, p: seq<Word>): (r: Effect)
    requires |p| > 0
    ensures r.st.mem.Keys == st.mem.Keys
  {
    if |p| - 1 < 5 then Effect(st, None)
    else
      var select := Field(p[3], 0x2000_0000, 8);
      var address := Address48(p[2], p[3]);
      var timed := select == 3 || select == 4;
      var value := if timed then clock(st.ticks) else Join64(p[4], p[5]);
      var size := if select == 1 then 4 else if select == 2 || timed then 8 else 0;
      if select > 4 then Effect(st, Some(EopDataSelect))
      else
        var data := Encode(value, size);
        Effect(Machine(Store(st.mem, address, data), if timed then st.ticks + 1 else st.ticks),
               if Readable(st.mem, address, size) then None else Some(EopMemory))
  }

  /** The effect in guest memory of one packet that is not an indirect buffer. */
  function ExecPacket(clock: nat -> Word64, st: Machine, p: seq<Word>): (r: Effect)
    requires |p| > 0
    ensures r.st.mem.Keys == st.mem.Keys
  {
    if PacketType(p[0]) != 3 then Effect(st, None)
    else if Opcode(p[0]) == WRITE_DATA then ExecWriteData(st, p)
    else if Opcode(p[0]) == DMA_DATA then ExecDma(st, p)
    else if Opcode(p[0]) == EVENT_WRITE_EOP then ExecEop(clock, st, p)
    else Effect(st, None)
  }

  // ---------- the recursive memory executor ----------

  datatype Outcome = Outcome(st: Machine, error: Option<ParseError>)

  /** Executes the stream `s`, which starts `pos` words into its buffer at nesting `depth`,
      entering indirect buffers where it meets them. */
  function Exec(clock: nat -> Word64, st: Machine, s: seq<Word>, pos: nat, depth: nat): (r: Outcome)
    ensures r.st.mem.Keys == st.mem.Keys
    decreases MAX_IB_DEPTH + 1 - depth, |s|
  {
    if depth > MAX_IB_DEPTH then Outcome(st, Some(ParseError(0, 0, IndirectBufferDepth)))
    else if |s| == 0 || TailPadding(s) then Outcome(st, None)
    else
      var header := s[0];
      var n := PayloadCount(header);
      if n > |s| - 1 then
        Outcome(st, Some(ParseError(pos, header,
          if PacketType(header) == 3 then TruncatedType3 else TruncatedType0OrType1)))
      else
        var first := ExecStep(clock, st, s[..n + 1], pos, depth);
        if first.error.Some? then first
        else Exec(clock, first.st, s[n + 1..], pos + n + 1, depth)
  }

  /** Executes one framed packet. */
  function ExecStep(clock: nat -> Word64, st: Machine, p: seq<Word>, pos: nat, depth: nat): (r: Outcome)
    requires |p| > 0 && |p| == PayloadCount(p[0]) + 1
    requires depth <= MAX_IB_DEPTH
    ensures r.st.mem.Keys == st.mem.Keys
    decreases MAX_IB_DEPTH + 1 - depth, 0
  {
    if !IsIndirect(p[0]) then
      var e := ExecPacket(clock, st, p);
      Outcome(e.st, if e.failure.Some? then Some(ParseError(pos, p[0], e.failure.value)) else None)
    else if |p| - 1 < 3 then Outcome(st, None)
    else
      var address, words := IndirectAddress(p), IndirectWords(p);
      if address == 0 || words == 0 then Outcome(st, Some(ParseError(pos, p[0], IndirectBufferRange)))
      else if !Readable(st.mem, address, 4 * words) then
        Outcome(st, Some(ParseError(pos, p[0], IndirectBufferMemory)))
      else Exec(clock, st, LoadWords(st.mem, address, words), 0, depth + 1)
  }

  // ---------- one packet further ----------

  ghost function Prepend(done: Inlined, r: Result<Inlined, ParseError>): Result<Inlined, ParseError> {
    if r.Err? then r else Ok(Inlined(done.packets + r.value.packets, done.sources + r.value.sources))
  }

  lemma InlineUnfold(mem: Memory, s: seq<Word>, pos: nat, depth: nat, length: nat)
    requires depth <= MAX_IB_DEPTH && |s| > 0 && !TailPadding(s)
    ensures var n := PayloadCount(s[0]);
            Inline(mem, s, pos, depth, length) ==
              if n > |s| - 1 then Err(ParseError(pos, s[0], TruncatedPacketDuringFlatten))
              else
                var first := InlineStep(mem, s[..n + 1], pos, depth, length);
                if first.Err? then first
                else Prepend(first.value,
                             Inline(mem, s[n + 1..], pos + n + 1, depth, length + |Concat(first.value.packets)|))
  {
    hide InlineStep, LoadWords, Field;
  }

  lemma InlineTooDeep(mem: Memory, s: seq<Word>, pos: nat, depth: nat, length: nat)
    requires depth > MAX_IB_DEPTH
    ensures Inline(mem, s, pos, depth, length) == Err(ParseError(0, 0, IndirectBufferDepth))
  {
  }

  lemma InlineEnds(mem: Memory, s: seq<Word>, pos: nat, depth: nat, length: nat)
    requires depth <= MAX_IB_DEPTH && (|s| == 0 || TailPadding(s))
    ensures Inline(mem, s, pos, depth, length) == Ok(Inlined([], {}))
  {
  }

  lemma ExecUnfold(clock: nat -> Word64, st: Machine, s: seq<Word>, pos: nat, depth: nat)
    requires depth <= MAX_IB_DEPTH && |s| > 0 && !TailPadding(s)
    ensures var n := PayloadCount(s[0]);
            Exec(clock, st, s, pos, depth) ==
              if n > |s| - 1 then
                Outcome(st, Some(ParseError(pos, s[0],
                  if PacketType(s[0]) == 3 then TruncatedType3 else TruncatedType0OrType1)))
              else
                var first := ExecStep(clock, st, s[..n + 1], pos, depth);
                if first.error.Some? then first
                else Exec(clock, first.st, s[n + 1..], pos + n + 1, depth)
  {
    hide ExecStep, Field;
  }

  lemma ExecEnds(clock: nat -> Word64, st: Machine, s: seq<Word>, pos: nat, depth: nat)
    requires depth > MAX_IB_DEPTH || |s| == 0 || TailPadding(s)
    ensures Exec(clock, st, s, pos, depth) ==
              Outcome(st, if depth > MAX_IB_DEPTH then Some(ParseError(0, 0, IndirectBufferDepth)) else None)
  {
  }
}
