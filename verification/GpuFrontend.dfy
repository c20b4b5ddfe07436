/** The GPU front end: atomic submission and ring queues rung by doorbells. */
module GpuFrontend {
  import opened Arithmetic
  import opened Wrappers
  import opened GuestMemory
  import opened Pm4
  import opened Pm4Inlining
  import opened Pm4Registers
  import opened GpuStream

  const MAX_QUEUES: nat := 64

  datatype Queue = Queue(submits: Word64, completedFence: Word64, ringAddr: Word64, readPtrAddr: Word64,
                         ringDwords: Word, readOffset: Word, mapped: bool)

  const UNMAPPED: Queue := Queue(0, 0, 0, 0, 0, 0, false)

  /** The counters and registers of the front end; the queues are kept beside them. */
  datatype Counters = Counters(submits: Word64, parsedPackets: Word64, rejected: Word64, lastFence: Word64)

  datatype Front = Front(counters: Counters, regs: Registers, queues: seq<Queue>) {
    predicate Valid() {
      regs.Valid() && |queues| == MAX_QUEUES &&
      forall q :: 0 <= q < MAX_QUEUES && queues[q].mapped ==> queues[q].readOffset < queues[q].ringDwords
    }

    function Reject(): Front {
      this.(counters := counters.(rejected := Wrap64(counters.rejected + 1)))
    }
  }

  /** What the D3D12 back end does to guest memory while a stream is submitted to it: nothing when it
      is absent or not ready, otherwise finished write-backs leave `after`. */
  datatype Backend = NotReady | Ready(after: Memory)

  function AfterBackend(backend: Backend, st: Machine, dwords: nat): (r: Machine)
    requires backend.Ready? ==> backend.after.Keys == st.mem.Keys
    ensures r.mem.Keys == st.mem.Keys
  {
    if backend.Ready? && dwords > 0 then st.(mem := backend.after) else st
  }

  datatype Submission = Submission(front: Front, st: Machine, accepted: bool)

  /** Submits `commands` on a queue, with an optional fence write. */
  ghost function Submit(front: Front, clock: nat -> Word64, st: Machine, backend: Backend, commands: seq<Word>,
                        queueId: nat, fenceAddr: Word64, fenceValue: Word64): (r: Submission)
    requires front.Valid()
    requires backend.Ready? ==> backend.after.Keys == st.mem.Keys
    ensures r.front.Valid()
  {
    if |commands| == 0 || |commands| > MAX_COMMAND_DWORDS || queueId >= MAX_QUEUES then
      Submission(front.Reject(), st, false)
    else
      var checked := Check(front, st.mem, commands);
      if checked.None? then Submission(front.Reject(), st, false)
      else Complete(front, clock, AfterBackend(backend, st, |checked.value.flat|), checked.value, queueId, fenceAddr,
                    fenceValue)
  }

  datatype Checked = Checked(flat: seq<Word>, regs: Registers, packets: nat)

  /** Flattening and parsing, which touch neither guest memory nor the saved registers. */
  ghost function Check(front: Front, mem: Memory, commands: seq<Word>): (r: Option<Checked>)
    requires front.Valid()
    ensures r.Some? ==> r.value.regs.Valid()
  {
    var inlined := Inline(mem, commands, 0, 0, 0);
    if inlined.Err? then None
    else
      var flat := Concat(inlined.value.packets);
      var parse := ParseStream(front.regs, flat, 0, 0);
      if parse.Rejected? then None else Some(Checked(flat, parse.regs, parse.packets))
  }

  /** Memory execution, the fence, and only then the commit. */
  function Complete(front: Front, clock: nat -> Word64, st: Machine, checked: Checked, queueId: nat,
                    fenceAddr: Word64, fenceValue: Word64): (r: Submission)
    requires front.Valid() && checked.regs.Valid() && queueId < MAX_QUEUES
    ensures r.front.Valid()
  {
    var run := Exec(clock, st, checked.flat, 0, 0);
    if run.error.Some? then Submission(front.Reject(), run.st, false)
    else if fenceAddr == 0 then Submission(Commit(front, checked, queueId, fenceValue), run.st, true)
    else
      var fenced := run.st.(mem := Store(run.st.mem, fenceAddr, Encode(fenceValue, 8)));
      if Readable(run.st.mem, fenceAddr, 8) then Submission(Commit(front, checked, queueId, fenceValue), fenced, true)
      else Submission(front.Reject(), fenced, false)
  }

  function Commit(front: Front, checked: Checked, queueId: nat, fenceValue: Word64): (r: Front)
    requires front.Valid() && checked.regs.Valid() && queueId < MAX_QUEUES
    ensures r.Valid()
  {
    var c := front.counters;
    var q := front.queues[queueId];
    Front(c.(parsedPackets := Wrap64(c.parsedPackets + checked.packets), submits := Wrap64(c.submits + 1),
             lastFence := fenceValue),
          checked.regs,
          front.queues[queueId := q.(submits := Wrap64(q.submits + 1), completedFence := fenceValue)])
  }

  /** A failed submission changes nothing in the front end but the rejection count. A successful one
      installs exactly the fold of the flattened packets, all of them acceptable, and leaves every
      other queue and every ring position alone. */
  lemma SubmissionIsAtomic(front: Front, clock: nat -> Word64, st: Machine, backend: Backend, commands: seq<Word>,
                           queueId: nat, fenceAddr: Word64, fenceValue: Word64)
    requires front.Valid()
    requires backend.Ready? ==> backend.after.Keys == st.mem.Keys
    ensures var r := Submit(front, clock, st, backend, commands, queueId, fenceAddr, fenceValue);
            if !r.accepted then
              r.front == front.(counters := front.counters.(rejected := Wrap64(front.counters.rejected + 1)))
            else
              && Inline(st.mem, commands, 0, 0, 0).Ok?
              && var ps := Inline(st.mem, commands, 0, 0, 0).value.packets;
              && AllAcceptable(ps) && r.front.regs == Fold(front.regs, ps)
              && r.front.counters.rejected == front.counters.rejected
              && r.front.counters.submits == Wrap64(front.counters.submits + 1)
              && r.front.counters.lastFence == fenceValue == r.front.queues[queueId].completedFence
              && r.front.queues[queueId].submits == Wrap64(front.queues[queueId].submits + 1)
              && (forall q :: 0 <= q < MAX_QUEUES && q != queueId ==> r.front.queues[q] == front.queues[q])
              && SameRing(front.queues[queueId], r.front.queues[queueId])
  {
    hide Inline, Exec, ParseStream, Store, Encode, Readable, Fold;
    var inlined := Inline(st.mem, commands, 0, 0, 0);
    if inlined.Ok? {
      ParseIsFold(front.regs, inlined.value.packets, 0, 0);
    }
  }

  predicate SameRing(a: Queue, b: Queue) {
    a.ringAddr == b.ringAddr && a.readPtrAddr == b.readPtrAddr && a.ringDwords == b.ringDwords &&
    a.readOffset == b.readOffset && a.mapped == b.mapped
  }

  /** On a flattened stream the memory executor can fail only in a packet's own effect, never in
      framing or in an indirect buffer. */
  predicate IsEffectFailure(r: Reason) {
    r == WriteDataDestination || r == WriteDataMemory || r == DmaDestinationOrSize || r == DmaFillMemory ||
    r == DmaCopyMemory || r == DmaSource || r == EopDataSelect || r == EopMemory
  }

  lemma {:induction false} RunFaultsAreEffects(clock: nat -> Word64, st: Machine, ps: seq<seq<Word>>)
    requires ArePackets(ps)
    ensures Run(clock, st, ps).fault.Some? ==> IsEffectFailure(Run(clock, st, ps).fault.value.reason)
    decreases |ps|
  {
    hide WriteWords, FillBytes, CopyBytes, Store, Encode;
    if |ps| > 0 && ExecPacket(clock, st, ps[0]).failure.None? {
      RunFaultsAreEffects(clock, ExecPacket(clock, st, ps[0]).st, ps[1..]);
    }
  }

  /** Everything a successful flatten promises its three consumers: at most MAX_FLATTENED_DWORDS of
      complete packets without indirect buffers, a parser that can reject only an unacceptable packet,
      an executor that can fail only in a packet's effect, and a recorder that never gives up on a
      stream the parser accepts. */
  lemma FlattenedStreamsAreWellFormed(mem: Memory, commands: seq<Word>, regs: Registers, rec: Recorder,
                                      clock: nat -> Word64, st: Machine, flattened: Inlined)
    requires Inline(mem, commands, 0, 0, 0) == Ok(flattened)
    requires regs.Valid() && rec.regs.Valid() && SameButPrimitive(rec.regs, regs)
    ensures ArePackets(flattened.packets) && |Concat(flattened.packets)| <= MAX_FLATTENED_DWORDS
    ensures var flat := Concat(flattened.packets);
            && (ParseStream(regs, flat, 0, 0).Parsed? <==> AllAcceptable(flattened.packets))
            && (ParseStream(regs, flat, 0, 0).Rejected? ==>
                  ParseStream(regs, flat, 0, 0).error.reason == InvalidRegisterPacket)
            && (ParseStream(regs, flat, 0, 0).Parsed? ==> RecordStream(rec, flat).Some?)
            && var error := Exec(clock, st, flat, 0, 0).error;
               error.Some? ==> IsEffectFailure(error.value.reason)
  {
    hide Exec, ParseStream, RecordStream, Run, Acceptable;
    var ps := flattened.packets;
    ParseIsFold(regs, ps, 0, 0);
    if AllAcceptable(ps) {
      RecorderAgrees(rec, regs, Concat(ps), 0, 0);
    }
    FlatExecIsRun(clock, st, ps, 0, 0);
    RunFaultsAreEffects(clock, st, ps);
  }

  // ---------- a submission has the effect of the nested stream ----------

  /** The nested stream ran to its end, and what the fence did to its memory. */
  function Fenced(nested: Outcome, fenceAddr: Word64, fenceValue: Word64): Machine {
    if nested.error.Some? || fenceAddr == 0 then nested.st
    else nested.st.(mem := Store(nested.st.mem, fenceAddr, Encode(fenceValue, 8)))
  }

  /** When no packet has a target in a buffer that was inlined, and the back end leaves those buffers alone, a
      submission that parses leaves the memory and clock of the nested stream followed by its fence, and is
      accepted exactly when the nested stream succeeds and the fence can be written. */
  lemma SubmissionRunsTheNestedStream(front: Front, clock: nat -> Word64, st: Machine, backend: Backend,
                                      commands: seq<Word>, queueId: nat, fenceAddr: Word64, fenceValue: Word64,
                                      r: Inlined)
    requires front.Valid() && 0 < |commands| <= MAX_COMMAND_DWORDS && queueId < MAX_QUEUES
    requires backend.Ready? ==> backend.after.Keys == st.mem.Keys
    requires Inline(st.mem, commands, 0, 0, 0) == Ok(r) && AllAcceptable(r.packets) && AllAvoid(r.packets, r.sources)
    requires Agree(AfterBackend(backend, st, |Concat(r.packets)|).mem, st.mem, r.sources)
    ensures var s := Submit(front, clock, st, backend, commands, queueId, fenceAddr, fenceValue);
            var nested := Exec(clock, AfterBackend(backend, st, |Concat(r.packets)|), commands, 0, 0);
            && s.st == Fenced(nested, fenceAddr, fenceValue)
            && (s.accepted <==> nested.error.None? && (fenceAddr == 0 || Readable(nested.st.mem, fenceAddr, 8)))
  {
    hide Inline, Exec, ParseStream, Store, Encode, Readable, Fold, AllAvoid, Agree, Run, Stable, Concat;
    var start := AfterBackend(backend, st, |Concat(r.packets)|);
    ParseIsFold(front.regs, r.packets, 0, 0);
    AvoidingIsStable(clock, start, r.packets, st.mem, r.sources);
    ExecIsRun(clock, st.mem, start, commands, 0, 0, 0, r, r.sources);
    FlatExecIsRun(clock, start, r.packets, 0, 0);
  }

  // ---------- ring queues ----------

  predicate IsPowerOfTwo(n: nat) {
    n == 1 || (n > 1 && n % 2 == 0 && IsPowerOfTwo(n / 2))
  }

  /** A block of dwords submitted from a ring, and the memory it was read from. */
  datatype Block = Block(words: seq<Word>, mem: Memory)

  function Total(blocks: seq<Block>): nat {
    if |blocks| == 0 then 0 else Total(blocks[..|blocks| - 1]) + |blocks[|blocks| - 1].words|
  }

  /** The front end, guest memory, and per queue the blocks submitted from its ring since it was mapped. */
  datatype Rings = Rings(front: Front, st: Machine, history: seq<seq<Block>>) {
    predicate Valid() {
      front.Valid() && |history| == MAX_QUEUES
    }

    ghost predicate Consistent() {
      Valid() && forall q :: 0 <= q < MAX_QUEUES ==> RingConsistent(front.queues[q], history[q])
    }
  }

  function RingAddress(q: Queue, position: nat): int {
    q.ringAddr + 4 * position
  }

  /** What `mem` holds at ring position n, counting on past the end of the ring. */
  function WordInRing(q: Queue, mem: Memory, n: nat): Word
    requires q.ringDwords > 0
  {
    WordAt(mem, RingAddress(q, n % q.ringDwords))
  }

  /** The n-th dword ever submitted from the ring came from position n modulo the ring size. */
  ghost predicate ConsumesInOrder(q: Queue, blocks: seq<Block>)
    requires q.ringDwords > 0
  {
    forall i, j :: 0 <= i < |blocks| && 0 <= j < |blocks[i].words| ==>
      blocks[i].words[j] == WordInRing(q, blocks[i].mem, Total(blocks[..i]) + j)
  }

  ghost predicate RingConsistent(q: Queue, blocks: seq<Block>) {
    q.mapped ==>
      && 0 < q.ringDwords <= MAX_COMMAND_DWORDS && q.ringAddr + 4 * q.ringDwords < TWO_64
      && q.readOffset == Total(blocks) % q.ringDwords
      && ConsumesInOrder(q, blocks)
  }

  /** The dwords between the read offset and `next`, in ring order. */
  function Pending(q: Queue, next: nat): (n: nat)
    requires q.readOffset < q.ringDwords && next < q.ringDwords
    ensures n < q.ringDwords
  {
    if next >= q.readOffset then next - q.readOffset else q.ringDwords - q.readOffset + next
  }

  function TailCount(q: Queue, next: nat): (n: nat)
    requires q.readOffset < q.ringDwords && next < q.ringDwords
    ensures n <= Pending(q, next)
  {
    if Pending(q, next) < q.ringDwords - q.readOffset then Pending(q, next) else q.ringDwords - q.readOffset
  }

  predicate RingReadable(q: Queue, mem: Memory, next: nat)
    requires q.readOffset < q.ringDwords && next < q.ringDwords
  {
    Readable(mem, RingAddress(q, q.readOffset), 4 * TailCount(q, next)) &&
    (Pending(q, next) > TailCount(q, next) ==> Readable(mem, q.ringAddr, 4 * (Pending(q, next) - TailCount(q, next))))
  }

  function RingBlock(q: Queue, mem: Memory, next: nat): (words: seq<Word>)
    requires q.readOffset < q.ringDwords && next < q.ringDwords
    ensures |words| == Pending(q, next)
  {
    LoadWords(mem, RingAddress(q, q.readOffset), TailCount(q, next)) +
    LoadWords(mem, q.ringAddr, Pending(q, next) - TailCount(q, next))
  }

  datatype Rung = Rung(rings: Rings, ok: bool)

  function Fail(r: Rings): Rung {
    Rung(r.(front := r.front.Reject()), false)
  }

  /** Rings the doorbell of queue `queueId` (counted from one) with a new write offset. */
  ghost function DingDong(r: Rings, clock: nat -> Word64, backend: Backend, queueId: nat, next: nat): (d: Rung)
    requires r.Valid() && (backend.Ready? ==> backend.after.Keys == r.st.mem.Keys)
    ensures d.rings.Valid()
  {
    if queueId == 0 || queueId > MAX_QUEUES then Fail(r)
    else
      var i := queueId - 1;
      var q := r.front.queues[i];
      if !q.mapped || next >= q.ringDwords then Fail(r)
      else if next == q.readOffset then PublishReadPointer(r, i)
      else if !RingReadable(q, r.st.mem, next) then Fail(r)
      else
        var block := RingBlock(q, r.st.mem, next);
        var s := Submit(r.front, clock, r.st, backend, block, i, 0, 0);
        if !s.accepted then Rung(Rings(s.front, s.st, r.history), false)
        else
          var moved := s.front.queues[i].(readOffset := next);
          PublishReadPointer(
            Rings(s.front.(queues := s.front.queues[i := moved]), s.st,
                  r.history[i := r.history[i] + [Block(block, r.st.mem)]]), i)
  }

  function PublishReadPointer(r: Rings, i: nat): (d: Rung)
    requires r.Valid() && i < MAX_QUEUES
    ensures d.rings.Valid()
  {
    var q := r.front.queues[i];
    var st' := r.st.(mem := Store(r.st.mem, q.readPtrAddr, Encode(q.readOffset, 4)));
    if Readable(r.st.mem, q.readPtrAddr, 4) then Rung(r.(st := st'), true)
    else Rung(r.(front := r.front.Reject(), st := st'), false)
  }

  predicate MapArguments(front: Front, pipeId: Word, queueId: Word, ringAddr: Word64, ringDwords: Word,
                         readPtrAddr: Word64)
    requires front.Valid()
  {
    pipeId < 8 && queueId < 8 && ringAddr != 0 && ringAddr % 0x100 == 0 && ringDwords != 0 &&
    ringDwords <= MAX_COMMAND_DWORDS && IsPowerOfTwo(ringDwords) && readPtrAddr != 0 &&
    ringAddr <= TWO_64 - 1 - 4 * ringDwords && readPtrAddr % 4 == 0 && !front.queues[pipeId * 8 + queueId].mapped
  }

  function MapQueue(r: Rings, pipeId: Word, queueId: Word, ringAddr: Word64, ringDwords: Word,
                    readPtrAddr: Word64): (d: Rung)
    requires r.Valid()
    ensures d.rings.Valid()
  {
    if !MapArguments(r.front, pipeId, queueId, ringAddr, ringDwords, readPtrAddr) then Fail(r)
    else
      var i := pipeId * 8 + queueId;
      var st' := r.st.(mem := Store(r.st.mem, readPtrAddr, Encode(0, 4)));
      if !Readable(r.st.mem, readPtrAddr, 4) then Rung(r.(front := r.front.Reject(), st := st'), false)
      else
        var q := r.front.queues[i].(ringAddr := ringAddr, readPtrAddr := readPtrAddr, ringDwords := ringDwords,
                                    readOffset := 0, mapped := true);
        Rung(Rings(r.front.(queues := r.front.queues[i := q]), st', r.history[i := []]), true)
  }

  function UnmapQueue(r: Rings, queueId: nat): (d: Rung)
    requires r.Valid()
    ensures d.rings.Valid()
  {
    if queueId == 0 || queueId > MAX_QUEUES || !r.front.queues[queueId - 1].mapped then Rung(r, false)
    else
      Rung(r.(front := r.front.(queues := r.front.queues[queueId - 1 := UNMAPPED]),
              history := r.history[queueId - 1 := []]), true)
  }

  // ---------- rings over whole runs ----------

  /** What can happen between two looks at the rings; `GuestRuns` is the guest changing its own memory. */
  datatype Action =
    | Doorbell(backend: Backend, queueId: nat, next: nat)
    | DirectSubmit(backend: Backend, commands: seq<Word>, submitQueue: nat, fenceAddr: Word64, fenceValue: Word64)
    | Map(pipeId: Word, pipeQueue: Word, ringAddr: Word64, ringDwords: Word, readPtrAddr: Word64)
    | Unmap(unmapQueue: nat)
    | GuestRuns(st: Machine)

  ghost predicate Possible(r: Rings, a: Action) {
    match a
    case Doorbell(backend, _, _) => backend.Ready? ==> backend.after.Keys == r.st.mem.Keys
    case DirectSubmit(backend, _, _, _, _) => backend.Ready? ==> backend.after.Keys == r.st.mem.Keys
    case _ => true
  }

  ghost function Step(r: Rings, clock: nat -> Word64, a: Action): (next: Rings)
    requires r.Valid() && Possible(r, a)
    ensures next.Valid()
  {
    match a
    case Doorbell(backend, queueId, next) => DingDong(r, clock, backend, queueId, next).rings
    case DirectSubmit(backend, commands, queueId, fenceAddr, fenceValue) =>
      var s := Submit(r.front, clock, r.st, backend, commands, queueId, fenceAddr, fenceValue);
      r.(front := s.front, st := s.st)
    case Map(pipeId, queueId, ringAddr, ringDwords, readPtrAddr) =>
      MapQueue(r, pipeId, queueId, ringAddr, ringDwords, readPtrAddr).rings
    case Unmap(queueId) => UnmapQueue(r, queueId).rings
    case GuestRuns(st) => r.(st := st)
  }

  lemma {:induction false} LoadWordsAt(mem: Memory, address: int, count: nat, i: nat)
    requires i < count
    ensures LoadWords(mem, address, count)[i] == WordAt(mem, address + 4 * i)
    decreases count
  {
    hide WordAt;
    if i > 0 {
      LoadWordsAt(mem, address + 4, count - 1, i - 1);
    }
  }

  /** The j-th pending dword sits where reading on from the dwords already taken would look. */
  lemma RingBlockAt(q: Queue, mem: Memory, next: nat, taken: nat, j: nat)
    requires q.readOffset < q.ringDwords && next < q.ringDwords && q.readOffset == taken % q.ringDwords
    requires j < Pending(q, next)
    ensures RingBlock(q, mem, next)[j] == WordInRing(q, mem, taken + j)
  {
    hide WordAt, LoadWords;
    ModAdd(taken, j, q.ringDwords);
    var tail := TailCount(q, next);
    if j < tail {
      ModSmall(q.readOffset + j, q.ringDwords);
      LoadWordsAt(mem, RingAddress(q, q.readOffset), tail, j);
    } else {
      ModStep(q.readOffset + j, q.ringDwords);
      ModSmall(q.readOffset + j - q.ringDwords, q.ringDwords);
      LoadWordsAt(mem, q.ringAddr, Pending(q, next) - tail, j - tail);
    }
  }

  lemma OffsetContinues(q: Queue, next: nat, taken: nat)
    requires q.readOffset < q.ringDwords && next < q.ringDwords && q.readOffset == taken % q.ringDwords
    ensures next == (taken + Pending(q, next)) % q.ringDwords
  {
    ModAdd(taken, Pending(q, next), q.ringDwords);
    if next < q.readOffset {
      ModStep(q.readOffset + Pending(q, next), q.ringDwords);
    }
    ModSmall(next, q.ringDwords);
  }

  /** A submitted block continues the ring exactly where the previous one ended. */
  lemma BlockContinues(q: Queue, blocks: seq<Block>, mem: Memory, next: nat)
    requires q.mapped && RingConsistent(q, blocks) && next < q.ringDwords && q.readOffset < q.ringDwords
    ensures RingConsistent(q.(readOffset := next), blocks + [Block(RingBlock(q, mem, next), mem)])
  {
    hide WordInRing, RingBlock, Pending;
    var block := Block(RingBlock(q, mem, next), mem);
    var all := blocks + [block];
    assert all[..|blocks|] == blocks;
    OffsetContinues(q, next, Total(blocks));
    assert Total(all) == Total(blocks) + |block.words|;
    var moved := q.(readOffset := next);
    forall i, j | 0 <= i < |all| && 0 <= j < |all[i].words|
      ensures all[i].words[j] == WordInRing(moved, all[i].mem, Total(all[..i]) + j)
    {
      SameWord(q, moved, all[i].mem, Total(all[..i]) + j);
      if i < |blocks| {
        assert all[..i] == blocks[..i];
      } else {
        RingBlockAt(q, mem, next, Total(blocks), j);
      }
    }
  }

  lemma SameWord(a: Queue, b: Queue, mem: Memory, n: nat)
    requires a.ringAddr == b.ringAddr && a.ringDwords == b.ringDwords > 0
    ensures WordInRing(a, mem, n) == WordInRing(b, mem, n)
  {
    hide WordAt;
  }

  /** The part of a queue that rings depend on. */
  lemma RingDependsOn(a: Queue, b: Queue, blocks: seq<Block>)
    requires SameRing(a, b) && RingConsistent(a, blocks)
    ensures RingConsistent(b, blocks)
  {
    hide WordInRing;
    if a.mapped {
      forall i, j | 0 <= i < |blocks| && 0 <= j < |blocks[i].words|
        ensures blocks[i].words[j] == WordInRing(b, blocks[i].mem, Total(blocks[..i]) + j)
      {
        SameWord(a, b, blocks[i].mem, Total(blocks[..i]) + j);
      }
    }
  }

  lemma SubmitKeepsRings(front: Front, clock: nat -> Word64, st: Machine, backend: Backend, commands: seq<Word>,
                         queueId: nat, fenceAddr: Word64, fenceValue: Word64, history: seq<seq<Block>>)
    requires front.Valid() && (backend.Ready? ==> backend.after.Keys == st.mem.Keys)
    requires Rings(front, st, history).Consistent()
    ensures var s := Submit(front, clock, st, backend, commands, queueId, fenceAddr, fenceValue);
            Rings(s.front, s.st, history).Consistent() &&
            forall q :: 0 <= q < MAX_QUEUES ==> SameRing(front.queues[q], s.front.queues[q])
  {
    hide Submit, RingConsistent;
    SubmissionIsAtomic(front, clock, st, backend, commands, queueId, fenceAddr, fenceValue);
    var s := Submit(front, clock, st, backend, commands, queueId, fenceAddr, fenceValue);
    forall q | 0 <= q < MAX_QUEUES ensures RingConsistent(s.front.queues[q], history[q]) {
      RingDependsOn(front.queues[q], s.front.queues[q], history[q]);
    }
  }

  lemma DoorbellKeepsRings(r: Rings, clock: nat -> Word64, backend: Backend, queueId: nat, next: nat)
    requires r.Consistent() && (backend.Ready? ==> backend.after.Keys == r.st.mem.Keys)
    ensures DingDong(r, clock, backend, queueId, next).rings.Consistent()
  {
    hide Submit, RingConsistent, RingBlock, RingReadable, Store, Encode, Readable;
    if 0 < queueId <= MAX_QUEUES {
      var i := queueId - 1;
      var q := r.front.queues[i];
      if q.mapped && next < q.ringDwords && q.readOffset < q.ringDwords && next != q.readOffset &&
         RingReadable(q, r.st.mem, next) {
        var block := RingBlock(q, r.st.mem, next);
        SubmitKeepsRings(r.front, clock, r.st, backend, block, i, 0, 0, r.history);
        var s := Submit(r.front, clock, r.st, backend, block, i, 0, 0);
        BlockContinues(q, r.history[i], r.st.mem, next);
        RingDependsOn(q.(readOffset := next), s.front.queues[i].(readOffset := next),
                      r.history[i] + [Block(block, r.st.mem)]);
      }
    }
  }

  lemma StepKeepsRings(r: Rings, clock: nat -> Word64, a: Action)
    requires r.Consistent() && Possible(r, a)
    ensures Step(r, clock, a).Consistent()
  {
    hide DingDong, Submit, Store, Encode;
    match a {
      case Doorbell(backend, queueId, next) => DoorbellKeepsRings(r, clock, backend, queueId, next);
      case DirectSubmit(backend, commands, queueId, fenceAddr, fenceValue) =>
        SubmitKeepsRings(r.front, clock, r.st, backend, commands, queueId, fenceAddr, fenceValue, r.history);
      case Map(pipeId, queueId, ringAddr, ringDwords, readPtrAddr) => MapKeepsRings(r, a);
      case Unmap(queueId) =>
      case GuestRuns(st) =>
    }
  }

  lemma MapKeepsRings(r: Rings, a: Action)
    requires r.Consistent() && a.Map?
    ensures MapQueue(r, a.pipeId, a.pipeQueue, a.ringAddr, a.ringDwords, a.readPtrAddr).rings.Consistent()
  {
    hide Store, Encode, Readable, IsPowerOfTwo;
    if a.ringDwords > 0 {
      ModSmall(0, a.ringDwords);
    }
  }

  ghost predicate IsRun(states: seq<Rings>, clock: nat -> Word64, actions: seq<Action>) {
    |states| == |actions| + 1 &&
    forall i :: 0 <= i < |actions| ==>
      states[i].Valid() && Possible(states[i], actions[i]) && states[i + 1] == Step(states[i], clock, actions[i])
  }

  /** Over any run that starts with every queue unmapped, each mapped ring has been consumed exactly
      once and in order, across any number of wrap-arounds, and its read offset is in range. */
  lemma {:induction false} RingsAreConsumedInOrder(states: seq<Rings>, clock: nat -> Word64, actions: seq<Action>,
                                                   k: nat)
    requires IsRun(states, clock, actions) && k <= |actions|
    requires states[0].Valid() && forall q :: 0 <= q < MAX_QUEUES ==> !states[0].front.queues[q].mapped
    ensures states[k].Consistent()
    ensures forall q :: 0 <= q < MAX_QUEUES && states[k].front.queues[q].mapped ==>
              states[k].front.queues[q].readOffset < states[k].front.queues[q].ringDwords
  {
    hide Step, ConsumesInOrder;
    if k > 0 {
      RingsAreConsumedInOrder(states, clock, actions, k - 1);
      StepKeepsRings(states[k - 1], clock, actions[k - 1]);
    }
  }

  /** A successful doorbell leaves the read offset at `next` and publishes it to the guest; a doorbell
      whose submission fails leaves the ring where it was. */
  lemma DoorbellOutcome(r: Rings, clock: nat -> Word64, backend: Backend, queueId: nat, next: nat)
    requires r.Consistent() && (backend.Ready? ==> backend.after.Keys == r.st.mem.Keys)
    requires 0 < queueId <= MAX_QUEUES && next < 0x1_0000_0000
    ensures var d := DingDong(r, clock, backend, queueId, next);
            var was, now := r.front.queues[queueId - 1], d.rings.front.queues[queueId - 1];
            && (d.ok ==>
                  && now.mapped && now.readOffset == next
                  && Readable(d.rings.st.mem, now.readPtrAddr, 4)
                  && Decode(Load(d.rings.st.mem, now.readPtrAddr, 4)) == next)
            && (d.rings.history[queueId - 1] == r.history[queueId - 1] ==> SameRing(was, now))
            && (d.rings.history[queueId - 1] != r.history[queueId - 1] ==>
                  was.mapped && next < was.ringDwords && SameRing(was.(readOffset := next), now) &&
                  d.rings.history[queueId - 1] == r.history[queueId - 1] +
                      [Block(RingBlock(was, r.st.mem, next), r.st.mem)])
  {
    hide Submit, RingConsistent, RingBlock, RingReadable, Store, Encode, Decode, Load;
    var i := queueId - 1;
    var q := r.front.queues[i];
    if q.mapped && next < q.ringDwords && q.readOffset < q.ringDwords {
      if next != q.readOffset && RingReadable(q, r.st.mem, next) {
        var block := RingBlock(q, r.st.mem, next);
        SubmissionIsAtomic(r.front, clock, r.st, backend, block, i, 0, 0);
        var s := Submit(r.front, clock, r.st, backend, block, i, 0, 0);
        PublishedPointer(s.st.mem, q.readPtrAddr, next);
      } else {
        PublishedPointer(r.st.mem, q.readPtrAddr, next);
      }
    }
  }

  lemma PublishedPointer(mem: Memory, address: Word64, value: nat)
    requires value < 0x1_0000_0000
    ensures var after := Store(mem, address, Encode(value, 4));
            Readable(mem, address, 4) ==>
              Readable(after, address, 4) && Decode(Load(after, address, 4)) == value
  {
    if Readable(mem, address, 4) {
      LoadStore(mem, address, Encode(value, 4));
      Pow256Constants();
      DecodeEncode(value, 4);
    }
  }

  // ---------- the front end as an object ----------

  class Gpu {
    var submitCount: Word64
    var parsedPacketCount: Word64
    var rejectedSubmitCount: Word64
    var lastFenceValue: Word64
    const contextRegisters: array<Word>
    const shaderRegisters: array<Word>
    const queues: array<Queue>
    ghost var history: seq<seq<Block>>

    ghost predicate Valid()
      reads this, contextRegisters, shaderRegisters, queues
    {
      contextRegisters != shaderRegisters && View().Valid() && |history| == MAX_QUEUES
    }

    ghost function View(): Front
      reads this, contextRegisters, shaderRegisters, queues
    {
      Front(Counters(submitCount, parsedPacketCount, rejectedSubmitCount, lastFenceValue),
            Banks(contextRegisters, shaderRegisters), queues[..])
    }

    ghost function Whole(cs: GuestCpu): Rings
      reads this, contextRegisters, shaderRegisters, queues, cs
    {
      Rings(View(), cs.State(), history)
    }

    constructor ()
      ensures Valid() && fresh(contextRegisters) && fresh(shaderRegisters) && fresh(queues)
      ensures View().counters == Counters(0, 0, 0, 0)
      ensures View().regs == Registers(seq(REGISTER_COUNT, _ => 0), seq(REGISTER_COUNT, _ => 0))
      ensures View().queues == seq(MAX_QUEUES, _ => UNMAPPED)
      ensures forall q :: 0 <= q < MAX_QUEUES ==> history[q] == []
    {
      submitCount, parsedPacketCount, rejectedSubmitCount, lastFenceValue := 0, 0, 0, 0;
      contextRegisters := new Word[REGISTER_COUNT](_ => 0);
      shaderRegisters := new Word[REGISTER_COUNT](_ => 0);
      queues := new Queue[MAX_QUEUES](_ => UNMAPPED);
      history := seq(MAX_QUEUES, _ => []);
    }

    method ReportReject()
      requires Valid()
      modifies this`rejectedSubmitCount
      ensures Valid() && View() == old(View()).Reject()
    {
      rejectedSubmitCount := Wrap64(rejectedSubmitCount + 1);
    }

    method SubmitCommands(cs: GuestCpu, backend: Backend, commands: seq<Word>, queueId: nat,
                          fenceAddr: Word64, fenceValue: Word64)
      returns (ok: bool)
      requires Valid() && (backend.Ready? ==> backend.after.Keys == cs.memory.Keys)
      modifies this, contextRegisters, shaderRegisters, queues, cs
      ensures Valid() && history == old(history)
      ensures Submission(View(), cs.State(), ok) ==
                Submit(old(View()), cs.clock, old(cs.State()), backend, commands, queueId, fenceAddr, fenceValue)
    {
      hide Check, Complete, RecordStream;
      if |commands| == 0 || |commands| > MAX_COMMAND_DWORDS || queueId >= MAX_QUEUES {
        ReportReject();
        return false;
      }
      ghost var before := View();
      var flat, context, shader, packets;
      ok, flat, context, shader, packets := Validate(cs, commands);
      if !ok {
        ReportReject();
        return false;
      }
      if backend.Ready? && |flat| > 0 {
        var recorder := new CommandRecorder(Registers(contextRegisters[..], shaderRegisters[..]));
        RecorderAgrees(recorder.State(), before.regs, flat, 0, 0);
        var recorded := recorder.Record(flat);
        assert recorded;
        cs.memory := backend.after;
      }
      ok := Conclude(cs, flat, context, shader, packets, queueId, fenceAddr, fenceValue);
    }

    /** Flattens and parses into scratch registers; nothing is changed when it fails. */
    method Validate(cs: GuestCpu, commands: seq<Word>)
      returns (ok: bool, flat: seq<Word>, context: array<Word>, shader: array<Word>, packets: nat)
      requires Valid()
      ensures fresh(context) && fresh(shader) && context != shader
      ensures var checked := Check(View(), cs.memory, commands);
              ok == checked.Some? && (ok ==> checked.value == Checked(flat, Banks(context, shader), packets))
      ensures ok ==> ParseStream(View().regs, flat, 0, 0).Parsed?
    {
      hide Inline, ParseStream, Acceptable;
      context := new Word[REGISTER_COUNT](
        i requires 0 <= i < contextRegisters.Length reads contextRegisters => contextRegisters[i]);
      shader := new Word[REGISTER_COUNT](
        i requires 0 <= i < shaderRegisters.Length reads shaderRegisters => shaderRegisters[i]);
      assert context[..] == contextRegisters[..] && shader[..] == shaderRegisters[..];
      packets := 0;
      var flattened := new WordArray();
      var error := Flatten(cs, commands, 0, flattened);
      flat := flattened.words;
      if error.Some? {
        return false, flat, context, shader, packets;
      }
      assert flat == Concat(Inline(cs.memory, commands, 0, 0, 0).value.packets);
      error, packets := ParseCommands(flat, context, shader);
      ok := error.None?;
    }

    /** Executes the checked stream and commits it. */
    method Conclude(cs: GuestCpu, flat: seq<Word>, context: array<Word>, shader: array<Word>, packets: nat,
                    queueId: nat, fenceAddr: Word64, fenceValue: Word64)
      returns (ok: bool)
      requires Valid() && Banks(context, shader).Valid() && queueId < MAX_QUEUES
      requires context != contextRegisters && context != shaderRegisters
      requires shader != contextRegisters && shader != shaderRegisters
      modifies this, contextRegisters, shaderRegisters, queues, cs
      ensures Valid() && history == old(history)
      ensures Submission(View(), cs.State(), ok) ==
                Complete(old(View()), cs.clock, old(cs.State()), Checked(flat, old(Banks(context, shader)), packets),
                         queueId, fenceAddr, fenceValue)
    {
      hide Exec, Store, Encode, Readable, Commit;
      var error := ExecuteMemory(cs, flat, 0);
      if error.Some? {
        ReportReject();
        return false;
      }
      if fenceAddr != 0 {
        ok := cs.Write(fenceAddr, Encode(fenceValue, 8));
        if !ok {
          ReportReject();
          return false;
        }
      }
      Install(flat, context, shader, packets, queueId, fenceValue);
      return true;
    }

    method Install(ghost flat: seq<Word>, context: array<Word>, shader: array<Word>, packets: nat, queueId: nat,
                   fenceValue: Word64)
      requires Valid() && Banks(context, shader).Valid() && queueId < MAX_QUEUES
      requires context != contextRegisters && context != shaderRegisters
      requires shader != contextRegisters && shader != shaderRegisters
      modifies this, contextRegisters, shaderRegisters, queues
      ensures Valid() && history == old(history)
      ensures View() == Commit(old(View()), Checked(flat, old(Banks(context, shader)), packets), queueId, fenceValue)
    {
      CopyBank(context, contextRegisters);
      CopyBank(shader, shaderRegisters);
      parsedPacketCount := Wrap64(parsedPacketCount + packets);
      submitCount := Wrap64(submitCount + 1);
      queues[queueId] := queues[queueId].(submits := Wrap64(queues[queueId].submits + 1), completedFence := fenceValue);
      lastFenceValue := fenceValue;
    }

    method CopyBank(source: array<Word>, destination: array<Word>)
      requires source.Length == destination.Length
      modifies destination
      ensures destination[..] == old(source[..])
    {
      forall i | 0 <= i < destination.Length {
        destination[i] := source[i];
      }
    }

    method MapRing(cs: GuestCpu, pipeId: Word, queueId: Word, ringAddr: Word64, ringDwords: Word, readPtrAddr: Word64)
      returns (id: int)
      requires Valid()
      modifies this, queues, cs
      ensures Valid()
      ensures var d := MapQueue(old(Whole(cs)), pipeId, queueId, ringAddr, ringDwords, readPtrAddr);
              Whole(cs) == d.rings && id == if d.ok then pipeId * 8 + queueId + 1 else -1
    {
      hide Store, Encode, IsPowerOfTwo;
      if pipeId >= 8 || queueId >= 8 || ringAddr == 0 || ringAddr % 0x100 != 0 || ringDwords == 0 ||
         ringDwords > MAX_COMMAND_DWORDS || !IsPowerOfTwo(ringDwords) || readPtrAddr == 0 ||
         ringAddr > TWO_64 - 1 - 4 * ringDwords || readPtrAddr % 4 != 0 || queues[pipeId * 8 + queueId].mapped {
        ReportReject();
        return -1;
      }
      var index := pipeId * 8 + queueId;
      var ok := cs.Write(readPtrAddr, Encode(0, 4));
      if !ok {
        ReportReject();
        return -1;
      }
      queues[index] := queues[index].(ringAddr := ringAddr, readPtrAddr := readPtrAddr, ringDwords := ringDwords,
                                      readOffset := 0, mapped := true);
      history := history[index := []];
      return index + 1;
    }

    method UnmapRing(ghost cs: GuestCpu, queueId: nat) returns (ok: bool)
      requires Valid()
      modifies this, queues
      ensures Valid()
      ensures Rung(Whole(cs), ok) == UnmapQueue(old(Whole(cs)), queueId)
    {
      if queueId == 0 || queueId > MAX_QUEUES || !queues[queueId - 1].mapped {
        return false;
      }
      queues[queueId - 1] := UNMAPPED;
      history := history[queueId - 1 := []];
      return true;
    }

    method Ring(cs: GuestCpu, backend: Backend, queueId: nat, next: nat) returns (ok: bool)
      requires Valid() && (backend.Ready? ==> backend.after.Keys == cs.memory.Keys)
      modifies this, contextRegisters, shaderRegisters, queues, cs
      ensures Valid()
      ensures Rung(Whole(cs), ok) == DingDong(old(Whole(cs)), cs.clock, backend, queueId, next)
    {
      hide Submit, RingReadable, RingBlock, PublishReadPointer;
      if queueId == 0 || queueId > MAX_QUEUES {
        ReportReject();
        return false;
      }
      var i := queueId - 1;
      if !queues[i].mapped || next >= queues[i].ringDwords {
        ReportReject();
        return false;
      }
      if next != queues[i].readOffset {
        var commands;
        ok, commands := ReadRing(cs, queues[i], next);
        if !ok {
          ReportReject();
          return false;
        }
        ghost var mem := cs.memory;
        SubmitKeepsRing(View(), cs.clock, cs.State(), backend, commands, i);
        ok := SubmitCommands(cs, backend, commands, i, 0, 0);
        if !ok {
          return false;
        }
        queues[i] := queues[i].(readOffset := next);
        history := history[i := history[i] + [Block(commands, mem)]];
      }
      ok := WriteReadPointer(cs, i);
    }

    /** The pending dwords, read in two pieces when the ring wraps. */
    method ReadRing(cs: GuestCpu, q: Queue, next: nat) returns (ok: bool, commands: seq<Word>)
      requires q.readOffset < q.ringDwords && next < q.ringDwords
      ensures ok == RingReadable(q, cs.memory, next)
      ensures ok ==> commands == RingBlock(q, cs.memory, next)
    {
      hide Readable, LoadWords;
      var count := if next >= q.readOffset then next - q.readOffset else q.ringDwords - q.readOffset + next;
      var tail := if count < q.ringDwords - q.readOffset then count else q.ringDwords - q.readOffset;
      ok, commands := cs.ReadWords(q.ringAddr + q.readOffset * 4, tail);
      if ok && count > tail {
        var wrapped;
        ok, wrapped := cs.ReadWords(q.ringAddr, count - tail);
        commands := commands + wrapped;
      } else if ok {
        NoWords(cs.memory, q.ringAddr);
        assert commands == commands + [];
      }
    }

    method WriteReadPointer(cs: GuestCpu, i: nat) returns (ok: bool)
      requires Valid() && i < MAX_QUEUES
      modifies this`rejectedSubmitCount, cs
      ensures Valid()
      ensures Rung(Whole(cs), ok) == PublishReadPointer(old(Whole(cs)), i)
    {
      hide Store, Encode, Readable;
      ok := cs.Write(queues[i].readPtrAddr, Encode(queues[i].readOffset, 4));
      if !ok {
        ReportReject();
      }
    }
  }

  lemma SubmitKeepsRing(front: Front, clock: nat -> Word64, st: Machine, backend: Backend, commands: seq<Word>, i: nat)
    requires front.Valid() && i < MAX_QUEUES && (backend.Ready? ==> backend.after.Keys == st.mem.Keys)
    ensures SameRing(front.queues[i], Submit(front, clock, st, backend, commands, i, 0, 0).front.queues[i])
  {
    hide Submit;
    SubmissionIsAtomic(front, clock, st, backend, commands, i, 0, 0);
  }

  lemma NoWords(mem: Memory, address: int)
    ensures LoadWords(mem, address, 0) == []
  {
  }
}
