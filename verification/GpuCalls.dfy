/** The calls of the GPU front end from outside: when each succeeds, and everything it leaves behind. */
module GpuCalls {
  import opened Arithmetic
  import opened Wrappers
  import opened GuestMemory
  import opened Pm4
  import opened Pm4Inlining
  import opened Pm4Registers
  import opened GpuStream
  import opened GpuFrontend

  // ---------- submissions ----------

  /** The first k packets are those the parser looks at: nothing but padding follows them, and less would leave more. */
  ghost predicate Counted(ps: seq<seq<Word>>, k: nat) {
    k <= |ps| && TailPadding(Concat(ps[k..])) && forall i: nat :: i < k ==> !TailPadding(Concat(ps[i..]))
  }

  lemma {:induction false} ParseCounts(regs: Registers, ps: seq<seq<Word>>, pos: nat, count: nat) returns (k: nat)
    requires regs.Valid() && ArePackets(ps) && AllAcceptable(ps)
    ensures Counted(ps, k) && ParseStream(regs, Concat(ps), pos, count) == Parsed(Fold(regs, ps), count + k)
    decreases |ps|
  {
    hide ApplyPacket, Acceptable, Field, PayloadCount, ParseStream, AcceptedPrefix, TailPadding, Fold;
    var s := Concat(ps);
    assert ps[0..] == ps;
    if TailPadding(s) {
      ParseEnds(regs, s, pos, count);
      PaddingAccepted(regs, ps);
      return 0;
    }
    assert |ps| > 0 by { NothingIsPadding(); }
    var p := ps[0];
    assert |s| > 0 && s[..|p|] == p && s[|p|..] == Concat(ps[1..]) && s[0] == p[0];
    ParseUnfold(regs, s, pos, count);
    k := ParseCounts(ApplyPacket(regs, p), ps[1..], pos + |p|, count + 1);
    FoldFromFront(regs, ps);
    assert ps[1..][k..] == ps[k + 1..];
    forall i: nat | i < k + 1 ensures !TailPadding(Concat(ps[i..])) {
      if i > 0 {
        assert ps[1..][i - 1..] == ps[i..];
      }
    }
    k := k + 1;
  }

  lemma NothingIsPadding()
    ensures TailPadding(Concat([]))
  {
  }

  /** What has to hold for a submission to be accepted, and what it leaves in the machine. */
  ghost predicate Runs(clock: nat -> Word64, start: Machine, ps: seq<seq<Word>>, fenceAddr: Word64) {
    ArePackets(ps) && Run(clock, start, ps).fault.None? &&
    (fenceAddr == 0 || Readable(Run(clock, start, ps).st.mem, fenceAddr, 8))
  }

  /** A submission is accepted exactly when its size and queue are in range, its indirect buffers can be read, every
      packet is acceptable, all of them run and the fence can be written. */
  lemma SubmissionExactly(front: Front, clock: nat -> Word64, st: Machine, backend: Backend, commands: seq<Word>,
                          queueId: nat, fenceAddr: Word64, fenceValue: Word64)
    requires front.Valid() && (backend.Ready? ==> backend.after.Keys == st.mem.Keys)
    ensures var inlined := Inline(st.mem, commands, 0, 0, 0);
            Submit(front, clock, st, backend, commands, queueId, fenceAddr, fenceValue).accepted <==>
              0 < |commands| <= 0xf_ffff && queueId < 64 && inlined.Ok? && AllAcceptable(inlined.value.packets) &&
              var start := AfterBackend(backend, st, |Concat(inlined.value.packets)|);
              Runs(clock, start, inlined.value.packets, fenceAddr)
  {
    hide Inline, Exec, Run, Store, Encode, Readable, Fold, Concat, Acceptable, AllAcceptable;
    var inlined := Inline(st.mem, commands, 0, 0, 0);
    if inlined.Ok? {
      var ps := inlined.value.packets;
      ParseIsFold(front.regs, ps, 0, 0);
      FlatExecIsRun(clock, AfterBackend(backend, st, |Concat(ps)|), ps, 0, 0);
    }
  }

  /** An accepted submission leaves the memory of its packets run in order, with the fence in it, and has counted the
      packets up to the padding. */
  lemma SubmissionLeaves(front: Front, clock: nat -> Word64, st: Machine, backend: Backend, commands: seq<Word>,
                         queueId: nat, fenceAddr: Word64, fenceValue: Word64)
    requires front.Valid() && (backend.Ready? ==> backend.after.Keys == st.mem.Keys)
    requires Submit(front, clock, st, backend, commands, queueId, fenceAddr, fenceValue).accepted
    ensures var r := Submit(front, clock, st, backend, commands, queueId, fenceAddr, fenceValue);
            && Inline(st.mem, commands, 0, 0, 0).Ok?
            && var ps := Inline(st.mem, commands, 0, 0, 0).value.packets;
            && var done := Run(clock, AfterBackend(backend, st, |Concat(ps)|), ps).st;
            && r.st.ticks == done.ticks
            && r.st.mem == (if fenceAddr == 0 then done.mem else Store(done.mem, fenceAddr, Encode(fenceValue, 8)))
            && exists k :: Counted(ps, k) &&
                           r.front.counters.parsedPackets == Wrap64(front.counters.parsedPackets + k)
  {
    hide Inline, Exec, Run, Store, Encode, Readable, Fold, Concat, Acceptable, AllAcceptable, Counted;
    var ps := Inline(st.mem, commands, 0, 0, 0).value.packets;
    ParseIsFold(front.regs, ps, 0, 0);
    FlatExecIsRun(clock, AfterBackend(backend, st, |Concat(ps)|), ps, 0, 0);
    var k := ParseCounts(front.regs, ps, 0, 0);
  }

  /** The back end is handed every stream that is not empty, when it is ready. */
  lemma BackendSeesStreams(backend: Backend, st: Machine, dwords: nat)
    requires backend.Ready? ==> backend.after.Keys == st.mem.Keys
    ensures backend.Ready? && dwords > 0 ==> AfterBackend(backend, st, dwords) == Machine(backend.after, st.ticks)
    ensures !backend.Ready? || dwords == 0 ==> AfterBackend(backend, st, dwords) == st
  {
  }

  // ---------- mapping a ring ----------

  /** Mapping succeeds exactly for arguments in range, a queue that is not mapped and a read pointer that can be
      written. The queue with the returned number then reads the ring that was given from its start, no other queue
      has changed, and unmapping that number gives the number back. */
  lemma MapExactly(r: Rings, pipeId: Word, queueId: Word, ringAddr: Word64, ringDwords: Word, readPtrAddr: Word64)
    requires r.Valid()
    ensures var d := MapQueue(r, pipeId, queueId, ringAddr, ringDwords, readPtrAddr);
            var id := pipeId * 8 + queueId + 1;
            && (d.ok <==>
                  && pipeId < 8 && queueId < 8 && !r.front.queues[id - 1].mapped
                  && ringAddr > 0 && ringAddr % 0x100 == 0 && ringAddr + 4 * ringDwords < 0x1_0000_0000_0000_0000
                  && ringDwords <= 0xf_ffff && (exists k: nat :: ringDwords == Pow2(k))
                  && readPtrAddr > 0 && readPtrAddr % 4 == 0 && Readable(r.st.mem, readPtrAddr, 4))
            && (d.ok ==>
                  && 1 <= id <= MAX_QUEUES
                  && var q := d.rings.front.queues[id - 1];
                  && q.mapped && q.ringAddr == ringAddr && q.ringDwords == ringDwords && q.readOffset == 0
                  && q.readPtrAddr == readPtrAddr && d.rings.history[id - 1] == []
                  && q.submits == r.front.queues[id - 1].submits
                  && q.completedFence == r.front.queues[id - 1].completedFence
                  && Decode(Load(d.rings.st.mem, readPtrAddr, 4)) == 0
                  && OthersStay(r, d.rings, id - 1) && d.rings.front.counters == r.front.counters
                  && UnmapQueue(d.rings, id).ok)
            && (!d.ok ==> d.rings.front == r.front.Reject() && d.rings.history == r.history)
  {
    hide Store, Encode, Decode, Load, Readable, IsPowerOfTwo;
    PublishedPointer(r.st.mem, readPtrAddr, 0);
    RingSizes(ringDwords);
  }

  /** Every queue but the i-th, the registers and the histories are the same. */
  predicate OthersStay(a: Rings, b: Rings, i: nat) {
    |a.front.queues| == |b.front.queues| && |a.history| == |b.history| && a.front.regs == b.front.regs &&
    (forall j :: 0 <= j < |a.front.queues| && j != i ==> a.front.queues[j] == b.front.queues[j]) &&
    (forall j :: 0 <= j < |a.history| && j != i ==> a.history[j] == b.history[j])
  }

  /** The size of a ring is a power of two. */
  lemma {:induction false} RingSizes(n: nat)
    ensures IsPowerOfTwo(n) <==> exists k: nat :: n == Pow2(k)
    decreases n
  {
    if IsPowerOfTwo(n) {
      if n == 1 {
        assert Pow2(0) == 1;
      } else {
        RingSizes(n / 2);
        var k: nat :| n / 2 == Pow2(k);
        assert n == Pow2(k + 1);
      }
    }
    if k: nat :| n == Pow2(k) {
      if k > 0 {
        assert n / 2 == Pow2(k - 1);
        RingSizes(n / 2);
      }
    }
  }

  /** Unmapping succeeds exactly for the number of a mapped queue and clears that queue only. */
  lemma UnmapExactly(r: Rings, id: nat)
    requires r.Valid()
    ensures var d := UnmapQueue(r, id);
            && (d.ok <==> 1 <= id <= MAX_QUEUES && r.front.queues[id - 1].mapped)
            && (d.ok ==> d.rings.front.queues[id - 1] == UNMAPPED && OthersStay(r, d.rings, id - 1) &&
                         d.rings.front.counters == r.front.counters && d.rings.st == r.st)
            && (!d.ok ==> d.rings == r)
  {
  }

  // ---------- doorbells ----------

  /** The pending dwords can be read, and their submission is accepted. */
  ghost predicate Consumes(r: Rings, clock: nat -> Word64, backend: Backend, i: nat, next: nat)
    requires r.Valid() && (backend.Ready? ==> backend.after.Keys == r.st.mem.Keys)
    requires i < MAX_QUEUES && r.front.queues[i].mapped && next < r.front.queues[i].ringDwords
  {
    var q := r.front.queues[i];
    RingReadable(q, r.st.mem, next) &&
    Submit(r.front, clock, r.st, backend, RingBlock(q, r.st.mem, next), i, 0, 0).accepted
  }

  predicate WordReadable(mem: Memory, a: int, j: nat) {
    Readable(mem, a + 4 * j, 4)
  }

  lemma WordsReadable(mem: Memory, a: int, n: nat)
    ensures Readable(mem, a, 4 * n) <==> forall j: nat :: j < n ==> WordReadable(mem, a, j)
  {
    if n > 0 && forall j: nat :: j < n ==> WordReadable(mem, a, j) {
      assert WordReadable(mem, a, 0) && WordReadable(mem, a, n - 1);
      forall x | a <= x < a + 4 * n ensures x in mem {
        assert WordReadable(mem, a, (x - a) / 4);
      }
    }
  }

  /** The j-th pending dword can be read where it lies in the ring. */
  predicate PendingWord(q: Queue, mem: Memory, j: nat)
    requires q.ringDwords > 0
  {
    WordReadable(mem, q.ringAddr, (q.readOffset + j) % q.ringDwords)
  }

  lemma PendingPlace(q: Queue, mem: Memory, next: nat, j: nat)
    requires q.readOffset < q.ringDwords && next < q.ringDwords && j < Pending(q, next)
    ensures PendingWord(q, mem, j) <==>
              if j < TailCount(q, next) then WordReadable(mem, RingAddress(q, q.readOffset), j)
              else WordReadable(mem, q.ringAddr, j - TailCount(q, next))
  {
    hide Readable;
    if j < TailCount(q, next) {
      ModSmall(q.readOffset + j, q.ringDwords);
    } else {
      ModStep(q.readOffset + j, q.ringDwords);
      ModSmall(q.readOffset + j - q.ringDwords, q.ringDwords);
    }
  }

  /** What is pending can be read exactly when each of its dwords can, where it lies in the ring. */
  lemma PendingReadable(q: Queue, mem: Memory, next: nat)
    requires q.readOffset < q.ringDwords && next < q.ringDwords
    ensures Pending(q, next) == (next - q.readOffset) % q.ringDwords
    ensures RingReadable(q, mem, next) <==> forall j: nat :: j < Pending(q, next) ==> PendingWord(q, mem, j)
  {
    hide Readable, WordReadable, PendingWord;
    if next >= q.readOffset {
      ModSmall(next - q.readOffset, q.ringDwords);
    } else {
      ModStep(next - q.readOffset + q.ringDwords, q.ringDwords);
      ModSmall(next - q.readOffset + q.ringDwords, q.ringDwords);
    }
    var tail, pending := TailCount(q, next), Pending(q, next);
    WordsReadable(mem, RingAddress(q, q.readOffset), tail);
    WordsReadable(mem, q.ringAddr, pending - tail);
    forall j: nat | j < pending
      ensures PendingWord(q, mem, j) <==> if j < tail then WordReadable(mem, RingAddress(q, q.readOffset), j)
                                          else WordReadable(mem, q.ringAddr, j - tail)
    {
      PendingPlace(q, mem, next, j);
    }
    if forall j: nat :: j < pending ==> PendingWord(q, mem, j) {
      forall j: nat | j < tail ensures WordReadable(mem, RingAddress(q, q.readOffset), j) {
        assert PendingWord(q, mem, j);
      }
      forall j: nat | j < pending - tail ensures WordReadable(mem, q.ringAddr, j) {
        assert PendingWord(q, mem, tail + j);
      }
    }
  }

  lemma PublishesExactly(r: Rings, i: nat)
    requires r.Valid() && i < MAX_QUEUES
    ensures var d := PublishReadPointer(r, i);
            && (d.ok <==> Readable(d.rings.st.mem, r.front.queues[i].readPtrAddr, 4))
            && d.rings.history == r.history && d.rings.front.queues == r.front.queues
            && d.rings.front.counters.rejected ==
                 (if d.ok then r.front.counters.rejected else Wrap64(r.front.counters.rejected + 1))
  {
    hide Store, Encode, Readable;
    StillMapped(r.st.mem, r.front.queues[i].readPtrAddr, Encode(r.front.queues[i].readOffset, 4), 4);
  }

  /** The rings a doorbell has when it comes to publish the read pointer, or None when it fails before. */
  ghost function Taken(r: Rings, clock: nat -> Word64, backend: Backend, i: nat, next: nat): (t: Option<Rings>)
    requires r.Valid() && (backend.Ready? ==> backend.after.Keys == r.st.mem.Keys)
    requires i < MAX_QUEUES && r.front.queues[i].mapped && next < r.front.queues[i].ringDwords
    ensures t.Some? ==> t.value.Valid()
  {
    var q := r.front.queues[i];
    if next == q.readOffset then Some(r)
    else if !Consumes(r, clock, backend, i, next) then None
    else
      var block := RingBlock(q, r.st.mem, next);
      var s := Submit(r.front, clock, r.st, backend, block, i, 0, 0);
      Some(Rings(s.front.(queues := s.front.queues[i := s.front.queues[i].(readOffset := next)]), s.st,
                 r.history[i := r.history[i] + [Block(block, r.st.mem)]]))
  }

  lemma DingDongTaken(r: Rings, clock: nat -> Word64, backend: Backend, id: nat, next: nat)
    requires r.Valid() && (backend.Ready? ==> backend.after.Keys == r.st.mem.Keys)
    requires 1 <= id <= MAX_QUEUES && r.front.queues[id - 1].mapped && next < r.front.queues[id - 1].ringDwords
    ensures var t := Taken(r, clock, backend, id - 1, next);
            if t.Some? then DingDong(r, clock, backend, id, next) == PublishReadPointer(t.value, id - 1)
            else !DingDong(r, clock, backend, id, next).ok
  {
    hide Submit, RingBlock, RingReadable, PublishReadPointer;
  }

  lemma TakenKeeps(r: Rings, clock: nat -> Word64, backend: Backend, i: nat, next: nat, t: Rings)
    requires r.Valid() && (backend.Ready? ==> backend.after.Keys == r.st.mem.Keys)
    requires i < MAX_QUEUES && r.front.queues[i].mapped && next < r.front.queues[i].ringDwords
    requires Taken(r, clock, backend, i, next) == Some(t)
    ensures t.front.queues[i].readPtrAddr == r.front.queues[i].readPtrAddr
    ensures t.front.counters.rejected == r.front.counters.rejected
    ensures forall j :: 0 <= j < MAX_QUEUES && j != i ==>
              t.front.queues[j] == r.front.queues[j] && t.history[j] == r.history[j]
  {
    hide Submit, RingBlock, RingReadable;
    if next != r.front.queues[i].readOffset {
      SubmissionIsAtomic(r.front, clock, r.st, backend, RingBlock(r.front.queues[i], r.st.mem, next), i, 0, 0);
    }
  }

  lemma NotTaken(r: Rings, clock: nat -> Word64, backend: Backend, id: nat, next: nat)
    requires r.Valid() && (backend.Ready? ==> backend.after.Keys == r.st.mem.Keys)
    requires 1 <= id <= MAX_QUEUES && r.front.queues[id - 1].mapped && next < r.front.queues[id - 1].ringDwords
    requires Taken(r, clock, backend, id - 1, next).None?
    ensures var d := DingDong(r, clock, backend, id, next);
            d.rings.front == r.front.Reject() && d.rings.history == r.history
  {
    hide Submit, RingBlock, RingReadable, PublishReadPointer;
    var q := r.front.queues[id - 1];
    if RingReadable(q, r.st.mem, next) {
      SubmissionIsAtomic(r.front, clock, r.st, backend, RingBlock(q, r.st.mem, next), id - 1, 0, 0);
    }
  }

  lemma TakenExactly(r: Rings, clock: nat -> Word64, backend: Backend, i: nat, next: nat)
    requires r.Valid() && (backend.Ready? ==> backend.after.Keys == r.st.mem.Keys)
    requires i < MAX_QUEUES && r.front.queues[i].mapped && next < r.front.queues[i].ringDwords
    ensures Taken(r, clock, backend, i, next).Some? <==>
              next == r.front.queues[i].readOffset || Consumes(r, clock, backend, i, next)
  {
    hide Consumes, Submit, RingBlock;
  }

  lemma DoorbellInRange(r: Rings, clock: nat -> Word64, backend: Backend, id: nat, next: nat)
    requires r.Valid() && (backend.Ready? ==> backend.after.Keys == r.st.mem.Keys)
    requires 1 <= id <= MAX_QUEUES && r.front.queues[id - 1].mapped && next < r.front.queues[id - 1].ringDwords
    ensures var d := DingDong(r, clock, backend, id, next);
            && (d.ok <==> (next == r.front.queues[id - 1].readOffset || Consumes(r, clock, backend, id - 1, next)) &&
                          Readable(d.rings.st.mem, r.front.queues[id - 1].readPtrAddr, 4))
            && (!d.ok ==> d.rings.front.counters.rejected == Wrap64(r.front.counters.rejected + 1))
            && forall j :: 0 <= j < MAX_QUEUES && j != id - 1 ==>
                 d.rings.front.queues[j] == r.front.queues[j] && d.rings.history[j] == r.history[j]
  {
    hide DingDong, Taken, PublishReadPointer, Readable, Consumes, Wrap64;
    var t := Taken(r, clock, backend, id - 1, next);
    TakenExactly(r, clock, backend, id - 1, next);
    DingDongTaken(r, clock, backend, id, next);
    if t.Some? {
      TakenKeeps(r, clock, backend, id - 1, next, t.value);
      PublishesExactly(t.value, id - 1);
    } else {
      NotTaken(r, clock, backend, id, next);
    }
  }

  /** A doorbell succeeds exactly for a mapped queue and an offset in its ring, when what is pending can be read and
      its submission is accepted, or nothing is pending, and the read pointer can be written. Every failure counts one
      rejection, and no other queue changes. */
  lemma DoorbellExactly(r: Rings, clock: nat -> Word64, backend: Backend, id: nat, next: nat)
    requires r.Valid() && (backend.Ready? ==> backend.after.Keys == r.st.mem.Keys)
    ensures var d := DingDong(r, clock, backend, id, next);
            && (d.ok <==>
                  && 1 <= id <= MAX_QUEUES && r.front.queues[id - 1].mapped && next < r.front.queues[id - 1].ringDwords
                  && (next == r.front.queues[id - 1].readOffset || Consumes(r, clock, backend, id - 1, next))
                  && Readable(d.rings.st.mem, r.front.queues[id - 1].readPtrAddr, 4))
            && (!d.ok ==> d.rings.front.counters.rejected == Wrap64(r.front.counters.rejected + 1))
            && forall j :: 0 <= j < MAX_QUEUES && j != id - 1 ==>
                 d.rings.front.queues[j] == r.front.queues[j] && d.rings.history[j] == r.history[j]
  {
    hide DingDong, Consumes, Readable, Wrap64;
    if 1 <= id <= MAX_QUEUES && r.front.queues[id - 1].mapped && next < r.front.queues[id - 1].ringDwords {
      DoorbellInRange(r, clock, backend, id, next);
    } else {
      NoDoorbell(r, clock, backend, id, next);
    }
  }

  lemma NoDoorbell(r: Rings, clock: nat -> Word64, backend: Backend, id: nat, next: nat)
    requires r.Valid() && (backend.Ready? ==> backend.after.Keys == r.st.mem.Keys)
    requires !(1 <= id <= MAX_QUEUES && r.front.queues[id - 1].mapped && next < r.front.queues[id - 1].ringDwords)
    ensures DingDong(r, clock, backend, id, next) == Fail(r)
  {
  }

  lemma StillMapped(mem: Memory, address: int, data: seq<Byte>, size: nat)
    ensures Readable(Store(mem, address, data), address, size) <==> Readable(mem, address, size)
  {
    hide Store;
    var after := Store(mem, address, data);
    assert forall x :: x in mem <==> x in mem.Keys;
    assert forall x :: x in after <==> x in after.Keys;
  }
}
