/** The loops of the GPU front end that walk a command stream: flattening, memory execution,
    register parsing and recording, each proved against its specification function. */
module GpuStream {
  import opened Wrappers
  import opened GuestMemory
  import opened Pm4
  import opened Pm4Registers

  /** The guest processor whose memory and virtual clock the commands act on. */
  class GuestCpu {
    var memory: Memory
    var ticks: nat
    const clock: nat -> Word64

    constructor (memory: Memory, clock: nat -> Word64)
      ensures this.memory == memory && this.clock == clock && ticks == 0
    {
      this.memory, this.clock, this.ticks := memory, clock, 0;
    }

    ghost function State(): Machine
      reads this
    {
      Machine(memory, ticks)
    }

    method ReadWords(address: int, count: nat) returns (ok: bool, words: seq<Word>)
      ensures ok == Readable(memory, address, 4 * count)
      ensures ok ==> words == LoadWords(memory, address, count)
    {
      ok := Readable(memory, address, 4 * count);
      words := LoadWords(memory, address, count);
    }

    method Write(address: int, data: seq<Byte>) returns (ok: bool)
      modifies this`memory
      ensures ok == old(Readable(memory, address, |data|))
      ensures memory == Store(old(memory), address, data)
    {
      ok := Readable(memory, address, |data|);
      memory := Store(memory, address, data);
    }
  }

  /** A growable array of words. */
  class WordArray {
    var words: seq<Word>

    constructor ()
      ensures words == []
    {
      words := [];
    }
  }

  method IsTailPadding(commands: seq<Word>, offset: nat) returns (b: bool)
    requires offset <= |commands|
    ensures b == TailPadding(commands[offset..])
  {
    for i := offset to |commands|
      invariant forall k :: offset <= k < i ==> IsPadding(commands[k])
    {
      if !IsPadding(commands[i]) {
        assert !IsPadding(commands[offset..][i - offset]);
        return false;
      }
    }
    return true;
  }

  // ---------- flattening ----------

  lemma InlineContinues(mem: Memory, done: Inlined, first: Inlined, rest: Result<Inlined, ParseError>)
    ensures Prepend(done, Prepend(first, rest))
         == Prepend(Inlined(done.packets + first.packets, done.sources + first.sources), rest)
  {
    if rest.Ok? {
      assert done.packets + (first.packets + rest.value.packets) == done.packets + first.packets + rest.value.packets;
      assert done.sources + (first.sources + rest.value.sources) == done.sources + first.sources + rest.value.sources;
    }
  }

  lemma InlineStart(r: Result<Inlined, ParseError>)
    ensures Prepend(Inlined([], {}), r) == r
  {
    if r.Ok? {
      assert [] + r.value.packets == r.value.packets;
      assert {} + r.value.sources == r.value.sources;
    }
  }

  /** Appends the inlined stream to `flattened`, or reports why it cannot be inlined. */
  method Flatten(cs: GuestCpu, commands: seq<Word>, depth: nat, flattened: WordArray)
    returns (error: Option<ParseError>)
    requires |flattened.words| <= MAX_FLATTENED_DWORDS
    modifies flattened
    ensures var r := old(Inline(cs.memory, commands, 0, depth, |flattened.words|));
            if r.Ok? then error == None && flattened.words == old(flattened.words) + Concat(r.value.packets)
            else error == Some(r.error)
    decreases MAX_IB_DEPTH + 1 - depth
  {
    hide Inline, InlineStep, Concat, TailPadding, Field;
    ghost var length := |flattened.words|;
    if depth > MAX_IB_DEPTH {
      InlineTooDeep(cs.memory, commands, 0, depth, length);
      return Some(ParseError(0, 0, IndirectBufferDepth));
    }
    var offset := 0;
    ghost var done := Inlined([], {});
    InlineStart(Inline(cs.memory, commands, 0, depth, length));
    assert commands[0..] == commands;
    FlattenedNothing(flattened.words);
    while offset < |commands|
      invariant offset <= |commands|
      invariant flattened.words == old(flattened.words) + Concat(done.packets)
      invariant |flattened.words| <= MAX_FLATTENED_DWORDS
      invariant Inline(cs.memory, commands, 0, depth, length)
             == Prepend(done, Inline(cs.memory, commands[offset..], offset, depth, length + |Concat(done.packets)|))
    {
      var header := commands[offset];
      ghost var rest := commands[offset..];
      var padding := IsPadding(header);
      if padding {
        padding := IsTailPadding(commands, offset);
      }
      if padding {
        InlineEnds(cs.memory, rest, offset, depth, length + |Concat(done.packets)|);
        FlattenedAll(done);
        return None;
      }
      NotPadding(rest, header, padding);
      InlineUnfold(cs.memory, rest, offset, depth, length + |Concat(done.packets)|);
      var n := PayloadCount(header);
      if n > |commands| - offset - 1 {
        return Some(ParseError(offset, header, TruncatedPacketDuringFlatten));
      }
      var packet := commands[offset..offset + n + 1];
      assert packet == rest[..n + 1] && commands[offset + n + 1..] == rest[n + 1..];
      ghost var before := flattened.words;
      error := FlattenPacket(cs, packet, offset, depth, flattened);
      if error.Some? {
        return;
      }
      ghost var first := InlineStep(cs.memory, packet, offset, depth, |before|).value;
      ConcatAppend(done.packets, first.packets);
      InlineContinues(cs.memory, done, first,
                      Inline(cs.memory, rest[n + 1..], offset + n + 1, depth, |before| + |Concat(first.packets)|));
      done := Inlined(done.packets + first.packets, done.sources + first.sources);
      offset := offset + n + 1;
    }
    InlineEnds(cs.memory, commands[offset..], offset, depth, length + |Concat(done.packets)|);
    FlattenedAll(done);
    return None;
  }

  /** One packet of the stream: an indirect buffer is read and flattened, anything else is appended. */
  method FlattenPacket(cs: GuestCpu, packet: seq<Word>, offset: nat, depth: nat, flattened: WordArray)
    returns (error: Option<ParseError>)
    requires |packet| > 0 && |packet| == PayloadCount(packet[0]) + 1 && depth <= MAX_IB_DEPTH
    requires |flattened.words| <= MAX_FLATTENED_DWORDS
    modifies flattened
    ensures var r := old(InlineStep(cs.memory, packet, offset, depth, |flattened.words|));
            if r.Ok? then error == None && flattened.words == old(flattened.words) + Concat(r.value.packets)
            else error == Some(r.error)
    ensures error.None? ==> |flattened.words| <= MAX_FLATTENED_DWORDS
    decreases MAX_IB_DEPTH + 1 - depth, 0
  {
    hide Inline, LoadWords, Field;
    var header := packet[0];
    if IsIndirect(header) {
      if |packet| - 1 < 3 {
        return Some(ParseError(offset, header, TruncatedIndirectBuffer));
      }
      var address, words := IndirectAddress(packet), IndirectWords(packet);
      if address == 0 || words == 0 || words > MAX_COMMAND_DWORDS {
        return Some(ParseError(offset, header, IndirectBufferRange));
      }
      var ok, indirect := cs.ReadWords(address, words);
      if !ok {
        return Some(ParseError(offset, header, IndirectBufferMemory));
      }
      error := Flatten(cs, indirect, depth + 1, flattened);
    } else {
      if |packet| > MAX_FLATTENED_DWORDS - |flattened.words| {
        return Some(ParseError(offset, header, FlattenedBufferTooLarge));
      }
      assert Concat([packet]) == packet;
      flattened.words := flattened.words + packet;
      error := None;
    }
  }

  lemma FlattenedNothing(words: seq<Word>)
    ensures words == words + Concat([])
  {
  }

  lemma FlattenedAll(done: Inlined)
    ensures done.packets + [] == done.packets && done.sources + {} == done.sources
  {
  }

  lemma NotPadding(s: seq<Word>, header: Word, padding: bool)
    requires |s| > 0 && s[0] == header
    requires !IsPadding(header) || padding == TailPadding(s)
    requires !padding
    ensures !TailPadding(s)
  {
  }

  // ---------- memory execution ----------

  /** WRITE_DATA, word by word. */
  method WriteData(cs: GuestCpu, p: seq<Word>) returns (failure: Option<Reason>)
    requires |p| > 0
    modifies cs
    ensures Effect(cs.State(), failure) == ExecWriteData(old(cs.State()), p)
  {
    hide Store, Encode;
    if |p| - 1 < 4 {
      return None;
    }
    var select := Field(p[1], 0x100, 0x10);
    var oneAddress := Field(p[1], 0x1_0000, 2) == 1;
    var address := Join64(p[2], p[3]);
    if (select != 2 && select != 5) || address == 0 {
      return Some(WriteDataDestination);
    }
    var words := p[4..];
    ghost var goal := WriteWords(cs.memory, address, oneAddress, words, 0);
    var i := 0;
    while i < |words|
      invariant i <= |words| && cs.ticks == old(cs.ticks)
      invariant WriteWords(cs.memory, address, oneAddress, words, i) == goal
    {
      hide Readable;
      var ok := cs.Write(Wrap64(address + if oneAddress then 0 else 4 * i), Encode(words[i], 4));
      if !ok {
        return Some(WriteDataMemory);
      }
      i := i + 1;
    }
    return None;
  }

  /** DMA_DATA: a fill in four-byte chunks, or a copy through a bounce buffer. */
  method Dma(cs: GuestCpu, p: seq<Word>) returns (failure: Option<Reason>)
    requires |p| > 0
    modifies cs
    ensures Effect(cs.State(), failure) == ExecDma(old(cs.State()), p)
  {
    hide Store, Encode, Load;
    if |p| - 1 < 6 || p[4] == 0x3022c {
      return None;
    }
    var sourceSelect := Field(p[1], 0x2000_0000, 4);
    var destinationSelect := Field(p[1], 0x10_0000, 4);
    var source := Join64(p[2], p[3]);
    var destination := Join64(p[4], p[5]);
    var size := p[6] % 0x20_0000;
    if (destinationSelect != 0 && destinationSelect != 3) || size > MAX_DMA_SIZE {
      return Some(DmaDestinationOrSize);
    }
    if sourceSelect == 2 {
      ghost var goal := FillBytes(cs.memory, destination, p[2], size, 0);
      var done := 0;
      while done < size
        invariant done <= size && cs.ticks == old(cs.ticks)
        invariant FillBytes(cs.memory, destination, p[2], size, done) == goal
      {
        hide Readable;
        var chunk := if size - done < 4 then size - done else 4;
        var ok := cs.Write(Wrap64(destination + done), Encode(p[2], 4)[..chunk]);
        if !ok {
          return Some(DmaFillMemory);
        }
        done := done + chunk;
      }
      return None;
    }
    if sourceSelect == 0 || sourceSelect == 3 {
      var ok := CopyGuest(cs, destination, source, size);
      return if ok then None else Some(DmaCopyMemory);
    }
    return Some(DmaSource);
  }

  method CopyGuest(cs: GuestCpu, destination: Word64, source: Word64, size: nat) returns (ok: bool)
    modifies cs`memory
    ensures (cs.memory, ok) == CopyBytes(old(cs.memory), destination, source, size)
  {
    if size == 0 {
      return true;
    }
    if size > MAX_DMA_SIZE || destination == 0 || source == 0 || !Readable(cs.memory, source, size) {
      return false;
    }
    ok := cs.Write(destination, Load(cs.memory, source, size));
  }

  /** EVENT_WRITE_EOP; selectors 3 and 4 read the virtual clock. */
  method EventWriteEop(cs: GuestCpu, p: seq<Word>) returns (failure: Option<Reason>)
    requires |p| > 0
    modifies cs
    ensures Effect(cs.State(), failure) == ExecEop(cs.clock, old(cs.State()), p)
  {
    if |p| - 1 < 5 {
      return None;
    }
    var select := Field(p[3], 0x2000_0000, 8);
    var address := Address48(p[2], p[3]);
    var value := Join64(p[4], p[5]);
    var size := 0;
    if select == 1 {
      size := 4;
    } else if select == 2 {
      size := 8;
    } else if select == 3 || select == 4 {
      value := cs.clock(cs.ticks);
      cs.ticks := cs.ticks + 1;
      size := 8;
    } else if select != 0 {
      return Some(EopDataSelect);
    }
    if size != 0 {
      var ok := cs.Write(address, Encode(value, size));
      if !ok {
        return Some(EopMemory);
      }
    } else {
      assert Encode(value, 0) == [];
    }
    return None;
  }

  method ExecutePacket(cs: GuestCpu, p: seq<Word>) returns (failure: Option<Reason>)
    requires |p| > 0
    modifies cs
    ensures Effect(cs.State(), failure) == ExecPacket(cs.clock, old(cs.State()), p)
  {
    hide ExecWriteData, ExecDma, ExecEop;
    failure := None;
    if PacketType(p[0]) == 3 {
      if Opcode(p[0]) == WRITE_DATA {
        failure := WriteData(cs, p);
      } else if Opcode(p[0]) == DMA_DATA {
        failure := Dma(cs, p);
      } else if Opcode(p[0]) == EVENT_WRITE_EOP {
        failure := EventWriteEop(cs, p);
      }
    }
  }

  /** Executes the memory effects of a stream, entering indirect buffers as it meets them. */
  method ExecuteMemory(cs: GuestCpu, commands: seq<Word>, depth: nat) returns (error: Option<ParseError>)
    modifies cs
    ensures Outcome(cs.State(), error) == Exec(cs.clock, old(cs.State()), commands, 0, depth)
    decreases MAX_IB_DEPTH + 1 - depth
  {
    hide Exec, ExecStep, TailPadding, Field;
    if depth > MAX_IB_DEPTH {
      ExecEnds(cs.clock, cs.State(), commands, 0, depth);
      return Some(ParseError(0, 0, IndirectBufferDepth));
    }
    ghost var goal := Exec(cs.clock, cs.State(), commands, 0, depth);
    assert commands[0..] == commands;
    var offset := 0;
    while offset < |commands|
      invariant offset <= |commands|
      invariant Exec(cs.clock, cs.State(), commands[offset..], offset, depth) == goal
    {
      var header := commands[offset];
      ghost var rest := commands[offset..];
      var padding := IsPadding(header);
      if padding {
        padding := IsTailPadding(commands, offset);
      }
      if padding {
        ExecEnds(cs.clock, cs.State(), rest, offset, depth);
        return None;
      }
      NotPadding(rest, header, padding);
      ExecUnfold(cs.clock, cs.State(), rest, offset, depth);
      var n := PayloadCount(header);
      if n > |commands| - offset - 1 {
        return Some(ParseError(offset, header,
                               if PacketType(header) == 3 then TruncatedType3 else TruncatedType0OrType1));
      }
      var packet := commands[offset..offset + n + 1];
      assert packet == rest[..n + 1] && commands[offset + n + 1..] == rest[n + 1..];
      error := ExecuteStep(cs, packet, offset, depth);
      if error.Some? {
        return;
      }
      offset := offset + n + 1;
    }
    ExecEnds(cs.clock, cs.State(), commands[offset..], offset, depth);
    return None;
  }

  method ExecuteStep(cs: GuestCpu, packet: seq<Word>, offset: nat, depth: nat) returns (error: Option<ParseError>)
    requires |packet| > 0 && |packet| == PayloadCount(packet[0]) + 1 && depth <= MAX_IB_DEPTH
    modifies cs
    ensures Outcome(cs.State(), error) == ExecStep(cs.clock, old(cs.State()), packet, offset, depth)
    decreases MAX_IB_DEPTH + 1 - depth, 0
  {
    hide Exec, ExecPacket, LoadWords, Field;
    var header := packet[0];
    if IsIndirect(header) {
      if |packet| - 1 < 3 {
        return None;
      }
      var address, words := IndirectAddress(packet), IndirectWords(packet);
      if address == 0 || words == 0 || words > MAX_COMMAND_DWORDS {
        return Some(ParseError(offset, header, IndirectBufferRange));
      }
      var ok, indirect := cs.ReadWords(address, words);
      if !ok {
        return Some(ParseError(offset, header, IndirectBufferMemory));
      }
      error := ExecuteMemory(cs, indirect, depth + 1);
    } else {
      var failure := ExecutePacket(cs, packet);
      return if failure.Some? then Some(ParseError(offset, header, failure.value)) else None;
    }
  }

  // ---------- register parsing ----------

  method SetRegisters(registers: array<Word>, payload: seq<Word>) returns (ok: bool)
    modifies registers
    ensures ok == RunFits(registers.Length, payload)
    ensures registers[..] == if ok then SetRun(old(registers[..]), payload) else old(registers[..])
  {
    if |payload| < 2 {
      return false;
    }
    var offset := payload[0];
    if offset >= registers.Length || |payload| - 1 > registers.Length - offset {
      return false;
    }
    for i := 1 to |payload|
      invariant forall k :: 0 <= k < registers.Length ==>
                  registers[k] == if offset <= k < offset + i - 1 then payload[k - offset + 1] else old(registers[k])
    {
      registers[offset + i - 1] := payload[i];
    }
    return true;
  }

  ghost function Banks(context: array<Word>, shader: array<Word>): Registers
    reads context, shader
  {
    Registers(context[..], shader[..])
  }

  /** The register writes of one packet, in place; false when the packet is not acceptable. */
  method ParsePacket(p: seq<Word>, context: array<Word>, shader: array<Word>) returns (valid: bool)
    requires |p| > 0 && context != shader && Banks(context, shader).Valid()
    modifies context, shader
    ensures valid == Acceptable(p) && Banks(context, shader).Valid()
    ensures valid ==> Banks(context, shader) == ApplyPacket(old(Banks(context, shader)), p)
  {
    valid := true;
    if PacketType(p[0]) == 3 {
      if Opcode(p[0]) == SET_CONTEXT_REG {
        valid := SetRegisters(context, p[1..]);
      } else if Opcode(p[0]) == SET_SH_REG {
        valid := SetRegisters(shader, p[1..]);
      } else if Opcode(p[0]) == WRITE_DATA {
        valid := |p| - 1 >= 3;
      }
    }
  }

  /** Validates the stream and leaves its register writes in the two banks, which start as copies of
      the saved ones. */
  method ParseCommands(commands: seq<Word>, context: array<Word>, shader: array<Word>)
    returns (error: Option<ParseError>, packets: nat)
    requires context != shader && Banks(context, shader).Valid()
    modifies context, shader
    ensures Banks(context, shader).Valid()
    ensures var r := ParseStream(old(Banks(context, shader)), commands, 0, 0);
            if error.None? then r == Parsed(Banks(context, shader), packets) else r == Rejected(error.value)
  {
    hide ParseStream, ApplyPacket, Acceptable, TailPadding, Field;
    ghost var goal := ParseStream(Banks(context, shader), commands, 0, 0);
    assert commands[0..] == commands;
    var offset := 0;
    packets := 0;
    while offset < |commands|
      invariant offset <= |commands| && Banks(context, shader).Valid()
      invariant ParseStream(Banks(context, shader), commands[offset..], offset, packets) == goal
    {
      var header := commands[offset];
      ghost var rest := commands[offset..];
      var padding := IsPadding(header);
      if padding {
        padding := IsTailPadding(commands, offset);
      }
      if padding {
        ParseEnds(Banks(context, shader), rest, offset, packets);
        return None, packets;
      }
      NotPadding(rest, header, padding);
      ParseUnfold(Banks(context, shader), rest, offset, packets);
      var n := PayloadCount(header);
      if n > |commands| - offset - 1 {
        return Some(ParseError(offset, header,
                               if PacketType(header) == 3 then TruncatedType3 else TruncatedType0OrType1)), packets;
      }
      var packet := commands[offset..offset + n + 1];
      assert packet == rest[..n + 1] && commands[offset + n + 1..] == rest[n + 1..];
      var valid := ParsePacket(packet, context, shader);
      if !valid {
        return Some(ParseError(offset, header, InvalidRegisterPacket)), packets;
      }
      packets := packets + 1;
      offset := offset + n + 1;
    }
    ParseEnds(Banks(context, shader), commands[offset..], offset, packets);
    return None, packets;
  }

  // ---------- recording ----------

  /** The recorder's walk over a stream: `None` when it gives up on the command list. */
  class CommandRecorder {
    const context: array<Word>
    const shader: array<Word>
    var indexBase: Word64
    var indexType: nat
    var instances: Word
    var indirectBase: Word64
    var events: seq<Event>

    ghost predicate Valid()
      reads this, context, shader
    {
      context != shader && Banks(context, shader).Valid()
    }

    ghost function State(): Recorder
      reads this, context, shader
    {
      Recorder(Banks(context, shader), indexBase, indexType, instances, indirectBase, events)
    }

    constructor (saved: Registers)
      requires saved.Valid()
      ensures Valid() && fresh(context) && fresh(shader)
      ensures State() == StartRecording(saved)
    {
      context := new Word[REGISTER_COUNT](i requires 0 <= i < REGISTER_COUNT => saved.context[i]);
      shader := new Word[REGISTER_COUNT](i requires 0 <= i < REGISTER_COUNT => saved.shader[i]);
      indexBase, indexType, instances, indirectBase, events := 0, 0, 1, 0, [];
      new;
      assert context[..] == saved.context && shader[..] == saved.shader;
      context[HOST_PRIMITIVE] := 4;
    }

    /** The register writes of a type-3 packet; false aborts the recording. */
    method UpdateRegisters(p: seq<Word>) returns (ok: bool)
      requires Valid() && |p| > 0 && |p| == PayloadCount(p[0]) + 1
      modifies context, shader
      ensures Valid() && ok == !Refused(p)
      ensures ok ==> Banks(context, shader) == RecordRegisters(old(Banks(context, shader)), p)
    {
      ok := true;
      if Opcode(p[0]) == SET_CONTEXT_REG && |p| - 1 >= 2 {
        ok := SetRegisters(context, p[1..]);
      }
      if Opcode(p[0]) == SET_SH_REG && |p| - 1 >= 2 {
        ok := SetRegisters(shader, p[1..]);
      }
      if Opcode(p[0]) == SET_UCONFIG_REG && |p| - 1 >= 2 {
        var reg := p[1];
        if reg <= UCONFIG_PRIMITIVE_TYPE && reg + (|p| - 1) - 1 > UCONFIG_PRIMITIVE_TYPE {
          context[HOST_PRIMITIVE] := p[2 + UCONFIG_PRIMITIVE_TYPE - reg] % 0x40;
        }
      }
    }

    method UpdateState(p: seq<Word>)
      requires Valid() && |p| > 0
      modifies this
      ensures Valid() && State() == RecordState(old(State()), p)
    {
      if Opcode(p[0]) == INDEX_BASE && |p| - 1 >= 2 {
        indexBase := Join64(p[1] - p[1] % 2, p[2] % 0x100);
      } else if Opcode(p[0]) == INDEX_TYPE && |p| - 1 >= 1 {
        indexType := p[1] % 4;
      } else if Opcode(p[0]) == NUM_INSTANCES && |p| - 1 >= 1 {
        instances := if p[1] == 0 then 1 else p[1];
      } else if Opcode(p[0]) == SET_BASE && |p| - 1 >= 3 && p[1] % 0x10 == 1 {
        indirectBase := Address48(p[2], p[3]);
      }
    }

    method EmitEvent(p: seq<Word>)
      requires Valid() && |p| > 0
      modifies this`events
      ensures Valid()
      ensures State() == old(State()).(events := old(events) + EventOf(old(State()), p))
    {
      var opcode := Opcode(p[0]);
      if IsDraw(opcode) {
        var regs := Registers(context[..], shader[..]);
        events := events + [Draw(opcode, p[1..], regs, indexBase, indexType, instances, indirectBase)];
      } else if IsDispatch(opcode) {
        events := events + [Dispatch(opcode, p[1..], shader[..], indirectBase)];
      } else if IsSync(opcode) {
        events := events + [Sync(opcode, p[1..])];
      } else {
        assert events == events + [];
      }
    }

    method RecordOne(p: seq<Word>) returns (ok: bool)
      requires Valid() && |p| > 0 && |p| == PayloadCount(p[0]) + 1 && PacketType(p[0]) == 3
      modifies this, context, shader
      ensures Valid() && ok == !Refused(p)
      ensures ok ==> State() == RecordPacket(old(State()), p)
    {
      hide RecordRegisters, RecordState, EventOf;
      ok := UpdateRegisters(p);
      if ok {
        UpdateState(p);
        EmitEvent(p);
      }
    }

    method Record(commands: seq<Word>) returns (ok: bool)
      requires Valid()
      modifies this, context, shader
      ensures Valid()
      ensures RecordStream(old(State()), commands) == if ok then Some(State()) else None
    {
      hide RecordStream, RecordPacket, Refused, TailPadding, Field;
      ghost var goal := RecordStream(State(), commands);
      assert commands[0..] == commands;
      var offset := 0;
      while offset < |commands|
        invariant offset <= |commands| && Valid()
        invariant RecordStream(State(), commands[offset..]) == goal
      {
        var header := commands[offset];
        ghost var rest := commands[offset..];
        var padding := IsPadding(header);
        if padding {
          padding := IsTailPadding(commands, offset);
        }
        if padding {
          RecordEnds(State(), rest);
          return true;
        }
        NotPadding(rest, header, padding);
        RecordUnfold(State(), rest);
        var n := PayloadCount(header);
        if n > |commands| - offset - 1 {
          return false;
        }
        if PacketType(header) == 3 {
          var packet := commands[offset..offset + n + 1];
          assert packet == rest[..n + 1];
          var accepted := RecordOne(packet);
          if !accepted {
            return false;
          }
        } else {
          RecordSkips(State(), rest[..n + 1]);
        }
        assert commands[offset + n + 1..] == rest[n + 1..];
        offset := offset + n + 1;
      }
      RecordEnds(State(), commands[offset..]);
      return true;
    }
  }

  lemma RecordSkips(rec: Recorder, p: seq<Word>)
    requires rec.regs.Valid() && |p| > 0 && |p| == PayloadCount(p[0]) + 1 && PacketType(p[0]) != 3
    ensures RecordPacket(rec, p) == rec
  {
  }
}
