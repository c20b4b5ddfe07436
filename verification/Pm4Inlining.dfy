/** Inlining indirect buffers preserves the meaning of a command stream. */
module Pm4Inlining {
  import opened Wrappers
  import opened GuestMemory
  import opened Pm4

  datatype Fault = Fault(header: Word, reason: Reason)

  /** How an execution ended, leaving out the word offset, which is relative to the buffer
      the faulting packet was read from. */
  datatype Finish = Finish(st: Machine, fault: Option<Fault>)

  function Verdict(o: Outcome): Finish {
    Finish(o.st, if o.error.Some? then Some(Fault(o.error.value.header, o.error.value.reason)) else None)
  }

  /** The packets executed one after another, up to the first that fails. */
  function Run(clock: nat -> Word64, st: Machine, ps: seq<seq<Word>>): Finish
    requires ArePackets(ps)
    decreases |ps|
  {
    if |ps| == 0 then Finish(st, None)
    else
      var e := ExecPacket(clock, st, ps[0]);
      if e.failure.Some? then Finish(e.st, Some(Fault(ps[0][0], e.failure.value)))
      else Run(clock, e.st, ps[1..])
  }

  /** No packet that executes changes what `buffers` held in `original`. */
  ghost predicate Stable(clock: nat -> Word64, st: Machine, ps: seq<seq<Word>>, original: Memory, buffers: set<Buffer>)
    requires ArePackets(ps)
    decreases |ps|
  {
    |ps| == 0 ||
    var e := ExecPacket(clock, st, ps[0]);
    e.failure.None? ==> Agree(e.st.mem, original, buffers) && Stable(clock, e.st, ps[1..], original, buffers)
  }

  lemma {:induction false} RunAppend(clock: nat -> Word64, st: Machine, ps: seq<seq<Word>>, qs: seq<seq<Word>>)
    requires ArePackets(ps) && ArePackets(qs)
    ensures ArePackets(ps + qs)
    ensures var first := Run(clock, st, ps);
            Run(clock, st, ps + qs) == if first.fault.Some? then first else Run(clock, first.st, qs)
    decreases |ps|
  {
    if |ps| == 0 {
      assert ps + qs == qs;
    } else {
      assert (ps + qs)[1..] == ps[1..] + qs;
      RunAppend(clock, ExecPacket(clock, st, ps[0]).st, ps[1..], qs);
    }
  }

  lemma {:induction false} StableAppend(clock: nat -> Word64, st: Machine, ps: seq<seq<Word>>, qs: seq<seq<Word>>,
                                        original: Memory, buffers: set<Buffer>)
    requires ArePackets(ps) && ArePackets(qs) && ArePackets(ps + qs)
    requires Agree(st.mem, original, buffers)
    requires Stable(clock, st, ps + qs, original, buffers)
    ensures Stable(clock, st, ps, original, buffers)
    ensures var first := Run(clock, st, ps);
            first.fault.None? ==>
                Agree(first.st.mem, original, buffers) && Stable(clock, first.st, qs, original, buffers)
    decreases |ps|
  {
    if |ps| == 0 {
      assert ps + qs == qs;
    } else {
      assert (ps + qs)[1..] == ps[1..] + qs;
      var e := ExecPacket(clock, st, ps[0]);
      if e.failure.None? {
        StableAppend(clock, e.st, ps[1..], qs, original, buffers);
      }
    }
  }

  lemma InlinedParts(mem: Memory, s: seq<Word>, pos: nat, depth: nat, length: nat, r: Inlined)
    returns (n: nat, first: Inlined, second: Inlined)
    requires Inline(mem, s, pos, depth, length) == Ok(r)
    requires |s| > 0 && !TailPadding(s)
    ensures depth <= MAX_IB_DEPTH && n == PayloadCount(s[0]) < |s|
    ensures InlineStep(mem, s[..n + 1], pos, depth, length) == Ok(first)
    ensures Inline(mem, s[n + 1..], pos + n + 1, depth, length + |Concat(first.packets)|) == Ok(second)
    ensures ArePackets(first.packets) && ArePackets(second.packets)
    ensures r.packets == first.packets + second.packets && r.sources == first.sources + second.sources
  {
    hide Inline, InlineStep, TailPadding, IsPacket, Concat, Field;
    if depth > MAX_IB_DEPTH {
      InlineTooDeep(mem, s, pos, depth, length);
    }
    InlineUnfold(mem, s, pos, depth, length);
    n := PayloadCount(s[0]);
    first := InlineStep(mem, s[..n + 1], pos, depth, length).value;
    second := Inline(mem, s[n + 1..], pos + n + 1, depth, length + |Concat(first.packets)|).value;
  }

  lemma {:induction false} PaddingIsRun(clock: nat -> Word64, original: Memory, st: Machine, s: seq<Word>, pos: nat,
                                        depth: nat, length: nat, r: Inlined)
    requires Inline(original, s, pos, depth, length) == Ok(r)
    requires |s| == 0 || TailPadding(s)
    ensures Verdict(Exec(clock, st, s, pos, depth)) == Run(clock, st, r.packets)
  {
    hide ExecStep, ExecPacket, InlineStep, LoadWords;
  }

  // ---------- what the nested execution enters ----------

  /** The indirect buffer holds the words that inlining read. */
  predicate HoldsInlined(mem: Memory, original: Memory, address: Word64, words: nat) {
    Readable(mem, address, 4 * words) && Readable(original, address, 4 * words) &&
    LoadWords(mem, address, words) == LoadWords(original, address, words)
  }

  /** At the moment the nested execution of the stream enters an indirect buffer, it holds the words that inlining
      read; what happens to it before and afterwards does not matter. */
  ghost predicate Faithful(clock: nat -> Word64, st: Machine, original: Memory, s: seq<Word>, pos: nat, depth: nat)
    decreases MAX_IB_DEPTH + 1 - depth, |s|
  {
    depth > MAX_IB_DEPTH || |s| == 0 || TailPadding(s) || PayloadCount(s[0]) > |s| - 1 ||
    var p := s[..PayloadCount(s[0]) + 1];
    var first := ExecStep(clock, st, p, pos, depth);
    FaithfulStep(clock, st, original, p, depth) &&
    (first.error.None? ==> Faithful(clock, first.st, original, s[|p|..], pos + |p|, depth))
  }

  ghost predicate FaithfulStep(clock: nat -> Word64, st: Machine, original: Memory, p: seq<Word>, depth: nat)
    requires |p| > 0 && |p| == PayloadCount(p[0]) + 1 && depth <= MAX_IB_DEPTH
    decreases MAX_IB_DEPTH + 1 - depth, 0
  {
    !IsIndirect(p[0]) || |p| - 1 < 3 ||
    var address, words := IndirectAddress(p), IndirectWords(p);
    HoldsInlined(st.mem, original, address, words) &&
    Faithful(clock, st, original, LoadWords(st.mem, address, words), 0, depth + 1)
  }

  lemma FaithfulUnfold(clock: nat -> Word64, st: Machine, original: Memory, s: seq<Word>, pos: nat, depth: nat)
    requires depth <= MAX_IB_DEPTH && |s| > 0 && !TailPadding(s) && PayloadCount(s[0]) < |s|
    ensures var p := s[..PayloadCount(s[0]) + 1];
            Faithful(clock, st, original, s, pos, depth) <==>
              var first := ExecStep(clock, st, p, pos, depth);
              FaithfulStep(clock, st, original, p, depth) &&
              (first.error.None? ==> Faithful(clock, first.st, original, s[|p|..], pos + |p|, depth))
  {
    hide ExecStep, FaithfulStep, Field;
  }

  lemma FaithfulEnds(clock: nat -> Word64, st: Machine, original: Memory, s: seq<Word>, pos: nat, depth: nat)
    requires |s| == 0 || TailPadding(s)
    ensures Faithful(clock, st, original, s, pos, depth)
  {
  }

  /** Executing a nested stream is running the packets that inlining it produces, as long as each indirect buffer
      holds what inlining read when it is entered. */
  lemma {:induction false} NestedIsRun(clock: nat -> Word64, original: Memory, st: Machine, s: seq<Word>, pos: nat,
                                       depth: nat, length: nat, r: Inlined)
    requires Inline(original, s, pos, depth, length) == Ok(r) && Faithful(clock, st, original, s, pos, depth)
    ensures Verdict(Exec(clock, st, s, pos, depth)) == Run(clock, st, r.packets)
    decreases MAX_IB_DEPTH + 1 - depth, |s|
  {
    hide Inline, InlineStep, Exec, ExecStep, ExecPacket, Run, Faithful, FaithfulStep, Concat, PayloadCount, IsPacket,
         LoadWords;
    if |s| == 0 || TailPadding(s) {
      PaddingIsRun(clock, original, st, s, pos, depth, length, r);
    } else {
      var n, first, second := InlinedParts(original, s, pos, depth, length, r);
      RunAppend(clock, st, first.packets, second.packets);
      FaithfulUnfold(clock, st, original, s, pos, depth);
      NestedStepIsRun(clock, original, st, s[..n + 1], pos, depth, length, first);
      ExecUnfold(clock, st, s, pos, depth);
      var step := Run(clock, st, first.packets);
      if step.fault.None? {
        NestedIsRun(clock, original, step.st, s[n + 1..], pos + n + 1, depth, length + |Concat(first.packets)|, second);
      }
    }
  }

  lemma {:induction false} NestedStepIsRun(clock: nat -> Word64, original: Memory, st: Machine, p: seq<Word>, pos: nat,
                                           depth: nat, length: nat, r: Inlined)
    requires |p| > 0 && |p| == PayloadCount(p[0]) + 1 && depth <= MAX_IB_DEPTH
    requires InlineStep(original, p, pos, depth, length) == Ok(r) && FaithfulStep(clock, st, original, p, depth)
    ensures Verdict(ExecStep(clock, st, p, pos, depth)) == Run(clock, st, r.packets)
    decreases MAX_IB_DEPTH + 1 - depth, 0
  {
    hide Inline, Exec, ExecPacket, LoadWords, Faithful;
    if !IsIndirect(p[0]) {
      assert [p][1..] == [];
    } else {
      var address, words := IndirectAddress(p), IndirectWords(p);
      var inner := Inline(original, LoadWords(original, address, words), 0, depth + 1, length).value;
      NestedIsRun(clock, original, st, LoadWords(original, address, words), 0, depth + 1, length, inner);
    }
  }

  /** When no executed packet changes an indirect buffer that was read, each of them still holds what was read
      whenever it is entered. */
  lemma {:induction false} StableIsFaithful(clock: nat -> Word64, original: Memory, st: Machine, s: seq<Word>, pos: nat,
                                            depth: nat, length: nat, r: Inlined, buffers: set<Buffer>)
    requires Inline(original, s, pos, depth, length) == Ok(r) && r.sources <= buffers
    requires Agree(st.mem, original, buffers) && Stable(clock, st, r.packets, original, buffers)
    ensures Faithful(clock, st, original, s, pos, depth)
    decreases MAX_IB_DEPTH + 1 - depth, |s|
  {
    hide Inline, InlineStep, Exec, ExecStep, ExecPacket, Run, Stable, Agree, Faithful, FaithfulStep, Concat,
         PayloadCount, IsPacket, LoadWords;
    if |s| == 0 || TailPadding(s) {
      FaithfulEnds(clock, st, original, s, pos, depth);
    } else {
      var n, first, second := InlinedParts(original, s, pos, depth, length, r);
      StableAppend(clock, st, first.packets, second.packets, original, buffers);
      StableStepIsFaithful(clock, original, st, s[..n + 1], pos, depth, length, first, buffers);
      NestedStepIsRun(clock, original, st, s[..n + 1], pos, depth, length, first);
      FaithfulUnfold(clock, st, original, s, pos, depth);
      var step := Run(clock, st, first.packets);
      if step.fault.None? {
        StableIsFaithful(clock, original, step.st, s[n + 1..], pos + n + 1, depth, length + |Concat(first.packets)|,
                         second, buffers);
      }
    }
  }

  lemma {:induction false} StableStepIsFaithful(clock: nat -> Word64, original: Memory, st: Machine, p: seq<Word>,
                                                pos: nat, depth: nat, length: nat, r: Inlined, buffers: set<Buffer>)
    requires |p| > 0 && |p| == PayloadCount(p[0]) + 1 && depth <= MAX_IB_DEPTH
    requires InlineStep(original, p, pos, depth, length) == Ok(r) && r.sources <= buffers
    requires Agree(st.mem, original, buffers) && Stable(clock, st, r.packets, original, buffers)
    ensures FaithfulStep(clock, st, original, p, depth)
    decreases MAX_IB_DEPTH + 1 - depth, 0
  {
    hide Inline, Exec, ExecPacket, LoadWords, Faithful, Stable;
    if IsIndirect(p[0]) {
      var address, words := IndirectAddress(p), IndirectWords(p);
      var inner := Inline(original, LoadWords(original, address, words), 0, depth + 1, length).value;
      assert Buffer(address, 4 * words) in buffers;
      LoadWordsAgree(st.mem, original, address, words);
      StableIsFaithful(clock, original, st, LoadWords(original, address, words), 0, depth + 1, length, inner, buffers);
    }
  }

  /** The same, as long as no executed packet changes an indirect buffer that was read. */
  lemma ExecIsRun(clock: nat -> Word64, original: Memory, st: Machine, s: seq<Word>, pos: nat, depth: nat, length: nat,
                  r: Inlined, buffers: set<Buffer>)
    requires Inline(original, s, pos, depth, length) == Ok(r) && r.sources <= buffers
    requires Agree(st.mem, original, buffers) && Stable(clock, st, r.packets, original, buffers)
    ensures Verdict(Exec(clock, st, s, pos, depth)) == Run(clock, st, r.packets)
  {
    hide Inline, Exec, Run, Stable, Agree, Faithful;
    StableIsFaithful(clock, original, st, s, pos, depth, length, r, buffers);
    NestedIsRun(clock, original, st, s, pos, depth, length, r);
  }

  /** Packets made only of padding words have no effect, so stopping at them changes nothing. */
  lemma {:induction false} PaddingRuns(clock: nat -> Word64, st: Machine, ps: seq<seq<Word>>)
    requires ArePackets(ps) && TailPadding(Concat(ps))
    ensures Run(clock, st, ps) == Finish(st, None)
    decreases |ps|
  {
    if |ps| > 0 {
      assert Concat(ps)[0] == ps[0][0];
      assert forall i :: 0 <= i < |Concat(ps[1..])| ==> Concat(ps[1..])[i] == Concat(ps)[|ps[0]| + i];
      PaddingRuns(clock, st, ps[1..]);
    }
  }

  /** A stream of complete packets executes as its packets in turn; framing is recovered exactly. */
  lemma {:induction false} FlatExecIsRun(clock: nat -> Word64, st: Machine, ps: seq<seq<Word>>, pos: nat, depth: nat)
    requires ArePackets(ps) && depth <= MAX_IB_DEPTH
    ensures Verdict(Exec(clock, st, Concat(ps), pos, depth)) == Run(clock, st, ps)
    decreases |ps|
  {
    hide Exec, ExecPacket, LoadWords, Field, PayloadCount;
    var s := Concat(ps);
    if TailPadding(s) {
      PaddingRuns(clock, st, ps);
      ExecEnds(clock, st, s, pos, depth);
    } else {
      var p := ps[0];
      assert s[..|p|] == p && s[|p|..] == Concat(ps[1..]) && s[0] == p[0];
      ExecUnfold(clock, st, s, pos, depth);
      FlatExecIsRun(clock, ExecPacket(clock, st, p).st, ps[1..], pos + |p|, depth);
    }
  }

  /** The stream that inlining produces has the memory effects, clock reads and verdict of the nested stream, as long
      as each indirect buffer holds what inlining read when the nested stream enters it. */
  lemma InliningPreservesMeaningWhenEntered(clock: nat -> Word64, st: Machine, s: seq<Word>, r: Inlined)
    requires Inline(st.mem, s, 0, 0, 0) == Ok(r)
    requires Faithful(clock, st, st.mem, s, 0, 0)
    ensures Verdict(Exec(clock, st, Concat(r.packets), 0, 0)) == Verdict(Exec(clock, st, s, 0, 0))
  {
    hide Inline, Exec, Run, Faithful;
    FlatExecIsRun(clock, st, r.packets, 0, 0);
    NestedIsRun(clock, st.mem, st, s, 0, 0, 0, r);
  }

  /** In particular unless an executed packet rewrites an indirect buffer. */
  lemma InliningPreservesMeaning(clock: nat -> Word64, st: Machine, s: seq<Word>, r: Inlined)
    requires Inline(st.mem, s, 0, 0, 0) == Ok(r)
    requires Stable(clock, st, r.packets, st.mem, r.sources)
    ensures Verdict(Exec(clock, st, Concat(r.packets), 0, 0)) == Verdict(Exec(clock, st, s, 0, 0))
  {
    hide Inline, Exec, ExecPacket, Run, Stable, Faithful;
    StableIsFaithful(clock, st.mem, st, s, 0, 0, 0, r, r.sources);
    InliningPreservesMeaningWhenEntered(clock, st, s, r);
  }

  // ---------- a condition on the packets alone ----------

  function WordTarget(address: Word64, oneAddress: bool, k: nat): Word64 {
    Wrap64(address + if oneAddress then 0 else 4 * k)
  }

  predicate WordAvoids(address: Word64, oneAddress: bool, k: nat, b: Buffer) {
    Disjoint(Buffer(WordTarget(address, oneAddress, k), 4), b)
  }

  predicate ByteAvoids(address: Word64, k: nat, b: Buffer) {
    var a := Wrap64(address + k);
    a < b.address || b.address + b.size <= a
  }

  /** No address this packet may write lies in `b`. */
  ghost predicate PacketAvoids(p: seq<Word>, b: Buffer)
    requires |p| > 0
  {
    if PacketType(p[0]) != 3 then true
    else if Opcode(p[0]) == WRITE_DATA && |p| > 4 then
      var address, oneAddress := Join64(p[2], p[3]), Field(p[1], 0x1_0000, 2) == 1;
      forall k :: 0 <= k < |p| - 4 ==> WordAvoids(address, oneAddress, k, b)
    else if Opcode(p[0]) == DMA_DATA && |p| > 6 then
      forall k :: 0 <= k < p[6] % 0x20_0000 ==> ByteAvoids(Join64(p[4], p[5]), k, b)
    else if Opcode(p[0]) == EVENT_WRITE_EOP && |p| > 5 then
      Disjoint(Buffer(Address48(p[2], p[3]), 8), b)
    else true
  }

  lemma {:induction false} WriteWordsFrame(mem: Memory, address: Word64, oneAddress: bool, words: seq<Word>, i: nat,
                                           b: Buffer)
    requires forall k :: i <= k < |words| ==> WordAvoids(address, oneAddress, k, b)
    ensures SameBytes(WriteWords(mem, address, oneAddress, words, i).0, mem, b)
    decreases |words| - i
  {
    if i < |words| {
      assert WordAvoids(address, oneAddress, i, b);
      var a := WordTarget(address, oneAddress, i);
      var after := Store(mem, a, Encode(words[i], 4));
      StoreFrame(mem, a, Encode(words[i], 4), b);
      WriteWordsFrame(after, address, oneAddress, words, i + 1, b);
    }
  }

  lemma StoreAvoids(mem: Memory, destination: Word64, done: nat, data: seq<Byte>, size: nat, b: Buffer)
    requires done + |data| <= size
    requires forall k :: 0 <= k < size ==> ByteAvoids(destination, k, b)
    ensures SameBytes(Store(mem, Wrap64(destination + done), data), mem, b)
  {
    var a := Wrap64(destination + done);
    if a + |data| <= TWO_64 {
      forall x | x in mem && a <= x < a + |data| ensures x < b.address || b.address + b.size <= x {
        assert ByteAvoids(destination, done + (x - a), b);
        assert Wrap64(destination + (done + (x - a))) == x;
      }
    }
  }

  lemma {:induction false} FillBytesFrame(mem: Memory, destination: Word64, value: Word, size: nat, done: nat,
                                          b: Buffer)
    requires forall k :: 0 <= k < size ==> ByteAvoids(destination, k, b)
    ensures SameBytes(FillBytes(mem, destination, value, size, done).0, mem, b)
    decreases size - done
  {
    hide Store, Encode, Wrap64;
    if done < size {
      var chunk := if size - done < 4 then size - done else 4;
      var a := Wrap64(destination + done);
      var after := Store(mem, a, Encode(value, 4)[..chunk]);
      StoreAvoids(mem, destination, done, Encode(value, 4)[..chunk], size, b);
      FillBytesFrame(after, destination, value, size, done + chunk, b);
    }
  }

  lemma {:induction false} CopyBytesFrame(mem: Memory, destination: Word64, source: Word64, size: nat, b: Buffer)
    requires forall k :: 0 <= k < size ==> ByteAvoids(destination, k, b)
    ensures SameBytes(CopyBytes(mem, destination, source, size).0, mem, b)
  {
    hide Store, Load;
    if 0 < size && Readable(mem, source, size) {
      assert Wrap64(destination) == destination;
      StoreAvoids(mem, destination, 0, Load(mem, source, size), size, b);
    }
  }

  /** Executing a packet leaves alone every buffer it avoids, whether or not it succeeds. */
  lemma PacketFrame(clock: nat -> Word64, st: Machine, p: seq<Word>, b: Buffer)
    requires |p| > 0 && PacketAvoids(p, b)
    ensures SameBytes(ExecPacket(clock, st, p).st.mem, st.mem, b)
  {
    hide WriteWords, FillBytes, CopyBytes, Store;
    if PacketType(p[0]) == 3 && Opcode(p[0]) == WRITE_DATA && |p| > 4 {
      WriteWordsFrame(st.mem, Join64(p[2], p[3]), Field(p[1], 0x1_0000, 2) == 1, p[4..], 0, b);
    } else if PacketType(p[0]) == 3 && Opcode(p[0]) == DMA_DATA && |p| > 6 {
      FillBytesFrame(st.mem, Join64(p[4], p[5]), p[2], p[6] % 0x20_0000, 0, b);
      CopyBytesFrame(st.mem, Join64(p[4], p[5]), Join64(p[2], p[3]), p[6] % 0x20_0000, b);
    } else if PacketType(p[0]) == 3 && Opcode(p[0]) == EVENT_WRITE_EOP && |p| > 5 {
      EopFrame(clock, st, p, b);
    }
  }

  lemma EopFrame(clock: nat -> Word64, st: Machine, p: seq<Word>, b: Buffer)
    requires |p| > 5 && Disjoint(Buffer(Address48(p[2], p[3]), 8), b)
    ensures SameBytes(ExecEop(clock, st, p).st.mem, st.mem, b)
  {
  }

  ghost predicate AllAvoid(ps: seq<seq<Word>>, buffers: set<Buffer>)
    requires ArePackets(ps)
  {
    forall i, b :: 0 <= i < |ps| && b in buffers ==> PacketAvoids(ps[i], b)
  }

  lemma {:induction false} AvoidingIsStable(clock: nat -> Word64, st: Machine, ps: seq<seq<Word>>, original: Memory,
                                            buffers: set<Buffer>)
    requires ArePackets(ps) && AllAvoid(ps, buffers) && Agree(st.mem, original, buffers)
    ensures Stable(clock, st, ps, original, buffers)
    decreases |ps|
  {
    hide ExecPacket, PacketAvoids;
    if |ps| > 0 {
      var e := ExecPacket(clock, st, ps[0]);
      forall b | b in buffers ensures SameBytes(e.st.mem, original, b) {
        PacketFrame(clock, st, ps[0], b);
      }
      AvoidingIsStable(clock, e.st, ps[1..], original, buffers);
    }
  }

  /** The same with a condition that can be read off the inlined stream before executing it. */
  lemma InliningPreservesMeaningOfDisjointStreams(clock: nat -> Word64, st: Machine, s: seq<Word>, r: Inlined)
    requires Inline(st.mem, s, 0, 0, 0) == Ok(r)
    requires AllAvoid(r.packets, r.sources)
    ensures Verdict(Exec(clock, st, Concat(r.packets), 0, 0)) == Verdict(Exec(clock, st, s, 0, 0))
  {
    hide Inline, Exec, ExecPacket, AllAvoid, Run, Stable;
    AvoidingIsStable(clock, st, r.packets, st.mem, r.sources);
    InliningPreservesMeaning(clock, st, s, r);
  }
}
