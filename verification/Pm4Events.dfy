/** What recorded draws and dispatches see besides the registers: the last setting of each kind before them. */
module Pm4Events {
  import opened Wrappers
  import opened GuestMemory
  import opened Pm4
  import opened Pm4Inlining
  import opened Pm4Registers

  datatype Setting = IndexBuffer | IndexSize | Instances | IndirectBase | Primitive

  function Wide(lo: nat, hi: nat): nat {
    lo + hi * 0x1_0000_0000
  }

  /** The value the packet gives the setting, if it gives one. */
  function Given(k: Setting, p: seq<Word>): Option<nat>
    requires |p| > 0
  {
    var n := |p| - 1;
    if PacketType(p[0]) != 3 then None
    else
      match k
      case IndexBuffer =>
        if Opcode(p[0]) == 0x26 && n >= 2 then Some(Wide(p[1] / 2 * 2, p[2] % 0x100)) else None
      case IndexSize => if Opcode(p[0]) == 0x2a && n >= 1 then Some(p[1] % 4) else None
      case Instances => if Opcode(p[0]) == 0x2f && n >= 1 then Some(if p[1] == 0 then 1 else p[1]) else None
      case IndirectBase =>
        if Opcode(p[0]) == 0x11 && n >= 3 && p[1] % 0x10 == 1 then Some(Wide(p[2], p[3] % 0x1_0000))
        else None
      case Primitive =>
        if Opcode(p[0]) == 0x69 && n >= 2 && p[1] <= 0x3ff < p[1] + n - 1 then Some(p[2 + 0x3ff - p[1]])
        else if Opcode(p[0]) == 0x79 && n >= 2 && p[1] <= 0x242 < p[1] + n - 1 then Some(p[2 + 0x242 - p[1]] % 0x40)
        else None
  }

  function Seen(k: Setting, rec: Recorder): nat
    requires rec.regs.Valid()
  {
    match k
    case IndexBuffer => rec.indexBase
    case IndexSize => rec.indexType
    case Instances => rec.instances
    case IndirectBase => rec.indirectBase
    case Primitive => rec.regs.context[0x3ff]
  }

  lemma PacketGives(rec: Recorder, p: seq<Word>, k: Setting)
    requires rec.regs.Valid() && |p| > 0 && |p| == PayloadCount(p[0]) + 1 && Acceptable(p)
    requires PacketType(p[0]) == 3 ==> !Refused(p)
    ensures Seen(k, RecordPacket(rec, p)) == match Given(k, p) case Some(v) => v case None => Seen(k, rec)
  {
    hide Field, PayloadCount;
  }

  predicate Silent(k: Setting, ps: seq<seq<Word>>, from: nat)
    requires ArePackets(ps)
  {
    forall j :: from <= j < |ps| ==> Given(k, ps[j]).None?
  }

  predicate GivenLast(k: Setting, ps: seq<seq<Word>>, i: nat, v: nat)
    requires ArePackets(ps)
  {
    i < |ps| && Given(k, ps[i]) == Some(v) && Silent(k, ps, i + 1)
  }

  /** The last of the packets that gives the setting a value gives it v; when none does, v is the initial one. */
  ghost predicate IsLatest(k: Setting, ps: seq<seq<Word>>, initial: nat, v: nat)
    requires ArePackets(ps)
  {
    (v == initial && Silent(k, ps, 0)) || exists i: nat :: GivenLast(k, ps, i, v)
  }

  lemma LatestExtends(k: Setting, ps: seq<seq<Word>>, initial: nat, v: nat)
    requires ArePackets(ps) && |ps| > 0 && IsLatest(k, ps[..|ps| - 1], initial, v)
    ensures IsLatest(k, ps, initial, match Given(k, ps[|ps| - 1]) case Some(w) => w case None => v)
  {
    hide Given, Field, PayloadCount;
    var last := |ps| - 1;
    var front := ps[..last];
    if Given(k, ps[last]).Some? {
      assert GivenLast(k, ps, last, Given(k, ps[last]).value);
    } else if !(v == initial && Silent(k, front, 0)) {
      var i: nat :| GivenLast(k, front, i, v);
      assert GivenLast(k, ps, i, v);
    }
  }

  lemma {:induction false} FoldKeepsLatest(rec: Recorder, ps: seq<seq<Word>>, k: Setting)
    requires rec.regs.Valid() && ArePackets(ps) && AllAcceptable(ps)
    ensures IsLatest(k, ps, Seen(k, rec), Seen(k, RecordFold(rec, ps)))
    decreases |ps|
  {
    hide RecordPacket, Acceptable, Given, Seen, Field, PayloadCount, IsLatest;
    if |ps| > 0 {
      var last := |ps| - 1;
      FoldKeepsLatest(rec, ps[..last], k);
      var before := RecordFold(rec, ps[..last]);
      AcceptableIsRecorded(ps[last]);
      PacketGives(before, ps[last], k);
      LatestExtends(k, ps, Seen(k, rec), Seen(k, before));
    } else {
      NothingGiven(k, ps, Seen(k, rec));
    }
  }

  lemma NothingGiven(k: Setting, ps: seq<seq<Word>>, initial: nat)
    requires ArePackets(ps) && |ps| == 0
    ensures IsLatest(k, ps, initial, initial)
  {
  }

  /** What the event took over from the settings. */
  ghost predicate SeesLatest(e: Event, rec: Recorder, ps: seq<seq<Word>>)
    requires rec.regs.Valid() && ArePackets(ps)
  {
    match e
    case Draw(_, _, regs, indexBase, indexType, instances, indirectBase) =>
      regs.Valid() &&
      IsLatest(IndexBuffer, ps, rec.indexBase, indexBase) && IsLatest(IndexSize, ps, rec.indexType, indexType) &&
      IsLatest(Instances, ps, rec.instances, instances) &&
      IsLatest(IndirectBase, ps, rec.indirectBase, indirectBase) &&
      IsLatest(Primitive, ps, rec.regs.context[0x3ff], regs.context[0x3ff])
    case Dispatch(_, _, _, indirectBase) => IsLatest(IndirectBase, ps, rec.indirectBase, indirectBase)
    case Sync(_, _) => true
  }

  lemma NewEventSees(rec: Recorder, ps: seq<seq<Word>>, p: seq<Word>)
    requires rec.regs.Valid() && ArePackets(ps) && AllAcceptable(ps) && IsPacket(p) && Acceptable(p) && IsEvent(p)
    ensures var before := RecordFold(rec, ps);
            PacketType(p[0]) == 3 && !Refused(p) &&
            var r := RecordPacket(before, p);
            |r.events| == |before.events| + 1 && SeesLatest(r.events[|before.events|], rec, ps)
  {
    hide RecordFold, Acceptable, Given, IsLatest, Field, PayloadCount, Refused;
    AcceptableIsRecorded(p);
    FoldKeepsLatest(rec, ps, IndexBuffer);
    FoldKeepsLatest(rec, ps, IndexSize);
    FoldKeepsLatest(rec, ps, Instances);
    FoldKeepsLatest(rec, ps, IndirectBase);
    FoldKeepsLatest(rec, ps, Primitive);
  }

  lemma {:induction false} FoldEventsSee(rec: Recorder, ps: seq<seq<Word>>, j: nat)
    requires rec.regs.Valid() && ArePackets(ps) && AllAcceptable(ps) && j < |ps| && IsEvent(ps[j])
    ensures var k := |rec.events| + EventCount(ps[..j]);
            k < |RecordFold(rec, ps).events| && SeesLatest(RecordFold(rec, ps).events[k], rec, ps[..j])
    decreases |ps|
  {
    hide RecordPacket, ApplyPacket, EventMatches, Acceptable, IsEvent, Field, PayloadCount, SeesLatest;
    var last := |ps| - 1;
    var front := ps[..last];
    FoldSeesPrefixes(rec, rec.regs, front);
    var before := RecordFold(rec, front);
    if j < last {
      FoldEventsSee(rec, front, j);
      assert front[..j] == ps[..j];
      PacketAgrees(before, Fold(rec.regs, front), ps[last]);
      RecordPacketEvents(before, Fold(rec.regs, front), ps[last]);
      assert before.events == RecordFold(rec, ps).events[..|before.events|];
    } else {
      NewEventSees(rec, front, ps[last]);
    }
  }

  /** Every draw uses the index buffer, index size, instance count, indirect base and primitive type last set before
      it in the stream, and every dispatch the indirect base; a packet of its own stream that comes later changes
      nothing in it. */
  lemma EventsSeeLatestSettings(rec: Recorder, ps: seq<seq<Word>>, j: nat)
    requires rec.regs.Valid() && ArePackets(ps) && AllAcceptable(ps) && j < |ps| && IsEvent(ps[j])
    ensures RecordStream(rec, Concat(ps)).Some?
    ensures var k, events := |rec.events| + EventCount(ps[..j]), RecordStream(rec, Concat(ps)).value.events;
            k < |events| && SeesLatest(events[k], rec, ps[..j])
  {
    hide RecordStream, RecordFold, Acceptable, IsEvent, Field, PayloadCount, SeesLatest;
    RecordIsFold(rec, ps);
    FoldEventsSee(rec, ps, j);
  }

  /** Before any setting, a recording draws one instance of triangles with 16-bit indices from address 0. */
  lemma FreshSettings(regs: Registers, k: Setting)
    requires regs.Valid()
    ensures Seen(k, StartRecording(regs)) == if k.Instances? then 1 else if k.Primitive? then 4 else 0
  {
  }

  // ---------- which packets ----------

  /** The packets that give rise to events, and to which. */
  lemma EventPackets(rec: Recorder, p: seq<Word>)
    requires |p| > 0
    ensures IsEvent(p) <==>
              PacketType(p[0]) == 3 &&
              Opcode(p[0]) in {0x15, 0x16, 0x24, 0x25, 0x27, 0x2d, 0x35, 0x38, 0x3c, 0x42, 0x43, 0x46, 0x47, 0x49, 0x58,
                               0x9d}
    ensures Opcode(p[0]) in {0x24, 0x25, 0x27, 0x2d, 0x35, 0x38, 0x9d} ==>
              |EventOf(rec, p)| == 1 && EventOf(rec, p)[0].Draw?
    ensures Opcode(p[0]) in {0x15, 0x16} ==> |EventOf(rec, p)| == 1 && EventOf(rec, p)[0].Dispatch?
    ensures Opcode(p[0]) in {0x3c, 0x42, 0x43, 0x46, 0x47, 0x49, 0x58} ==>
              |EventOf(rec, p)| == 1 && EventOf(rec, p)[0].Sync?
  {
    hide Field;
  }

  /** The parser refuses a register run that is empty or leaves its bank of 1024, and a WRITE_DATA without a word to
      write; the recorder refuses only runs that leave their bank. */
  lemma RefusedPackets(p: seq<Word>)
    requires |p| > 0
    ensures Acceptable(p) <==>
              PacketType(p[0]) != 3 ||
              ((Opcode(p[0]) in {0x69, 0x76} ==> |p| >= 3 && p[1] + |p| - 2 <= 0x400) &&
               (Opcode(p[0]) == 0x37 ==> |p| >= 4))
    ensures Refused(p) <==> Opcode(p[0]) in {0x69, 0x76} && |p| >= 3 && p[1] + |p| - 2 > 0x400
  {
    hide Field;
  }
}
