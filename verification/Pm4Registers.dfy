/** The two register interpreters of a flattened stream: the validating parser of the common
    front end and the recorder of the D3D12 back end. */
module Pm4Registers {
  import opened Wrappers
  import opened GuestMemory
  import opened Pm4

  const REGISTER_COUNT: nat := 0x400
  const HOST_PRIMITIVE: nat := 0x3ff
  const UCONFIG_PRIMITIVE_TYPE: nat := 0x242
  const SET_BASE: int := 0x11
  const INDEX_BASE: int := 0x26
  const INDEX_TYPE: int := 0x2a
  const NUM_INSTANCES: int := 0x2f
  const SET_UCONFIG_REG: int := 0x79

  datatype Registers = Registers(context: seq<Word>, shader: seq<Word>) {
    predicate Valid() {
      |context| == REGISTER_COUNT && |shader| == REGISTER_COUNT
    }
  }

  /** The payload names a run of registers inside a bank of `count`. */
  predicate RunFits(count: nat, payload: seq<Word>) {
    |payload| >= 2 && payload[0] < count && |payload| - 1 <= count - payload[0]
  }

  function SetRun(bank: seq<Word>, payload: seq<Word>): (r: seq<Word>)
    requires RunFits(|bank|, payload)
    ensures |r| == |bank|
    ensures forall i :: 0 <= i < |bank| ==>
              r[i] == if payload[0] <= i < payload[0] + |payload| - 1 then payload[i - payload[0] + 1] else bank[i]
  {
    bank[..payload[0]] + payload[1..] + bank[payload[0] + |payload| - 1..]
  }

  // ---------- the parser ----------

  /** What the parser asks of a packet; it does not depend on register values. */
  predicate Acceptable(p: seq<Word>)
    requires |p| > 0
  {
    PacketType(p[0]) != 3 ||
    (if Opcode(p[0]) == SET_CONTEXT_REG || Opcode(p[0]) == SET_SH_REG then RunFits(REGISTER_COUNT, p[1..])
     else if Opcode(p[0]) == WRITE_DATA then |p| - 1 >= 3
     else true)
  }

  function ApplyPacket(regs: Registers, p: seq<Word>): (r: Registers)
    requires regs.Valid() && |p| > 0 && Acceptable(p)
    ensures r.Valid()
  {
    if PacketType(p[0]) != 3 then regs
    else if Opcode(p[0]) == SET_CONTEXT_REG then regs.(context := SetRun(regs.context, p[1..]))
    else if Opcode(p[0]) == SET_SH_REG then regs.(shader := SetRun(regs.shader, p[1..]))
    else regs
  }

  datatype Parse = Parsed(regs: Registers, packets: nat) | Rejected(error: ParseError)

  function ParseStream(regs: Registers, s: seq<Word>, pos: nat, count: nat): (r: Parse)
    requires regs.Valid()
    ensures r.Parsed? ==> r.regs.Valid()
    decreases |s|
  {
    if |s| == 0 || TailPadding(s) then Parsed(regs, count)
    else
      var n := PayloadCount(s[0]);
      if n > |s| - 1 then
        Rejected(ParseError(pos, s[0], if PacketType(s[0]) == 3 then TruncatedType3 else TruncatedType0OrType1))
      else if !Acceptable(s[..n + 1]) then Rejected(ParseError(pos, s[0], InvalidRegisterPacket))
      else ParseStream(ApplyPacket(regs, s[..n + 1]), s[n + 1..], pos + n + 1, count + 1)
  }

  // ---------- the recorder ----------

  datatype Event =
    | Draw(opcode: nat, payload: seq<Word>, regs: Registers, indexBase: Word64, indexType: nat,
           instances: Word, indirectBase: Word64)
    | Dispatch(opcode: nat, payload: seq<Word>, shader: seq<Word>, indirectBase: Word64)
    | Sync(opcode: nat, payload: seq<Word>)

  datatype Recorder = Recorder(regs: Registers, indexBase: Word64, indexType: nat, instances: Word,
                               indirectBase: Word64, events: seq<Event>)

  function StartRecording(regs: Registers): (r: Recorder)
    requires regs.Valid()
    ensures r.regs.Valid()
  {
    Recorder(regs.(context := regs.context[HOST_PRIMITIVE := 4]), 0, 0, 1, 0, [])
  }

  predicate IsDraw(opcode: int) {
    opcode == 0x24 || opcode == 0x25 || opcode == 0x27 || opcode == 0x2d || opcode == 0x35 || opcode == 0x38 ||
    opcode == 0x9d
  }

  predicate IsDispatch(opcode: int) {
    opcode == 0x15 || opcode == 0x16
  }

  predicate IsSync(opcode: int) {
    opcode == 0x3c || opcode == 0x42 || opcode == 0x43 || opcode == 0x46 || opcode == 0x47 || opcode == 0x49 ||
    opcode == 0x58
  }

  /** Register packets the recorder refuses; a packet too short to carry a value is skipped. */
  predicate Refused(p: seq<Word>)
    requires |p| > 0
  {
    (Opcode(p[0]) == SET_CONTEXT_REG || Opcode(p[0]) == SET_SH_REG) && |p| - 1 >= 2 &&
    !RunFits(REGISTER_COUNT, p[1..])
  }

  function RecordRegisters(regs: Registers, p: seq<Word>): (r: Registers)
    requires regs.Valid() && |p| > 0 && |p| == PayloadCount(p[0]) + 1 && !Refused(p)
    ensures r.Valid()
  {
    if Opcode(p[0]) == SET_CONTEXT_REG && |p| - 1 >= 2 then
      regs.(context := SetRun(regs.context, p[1..]))
    else if Opcode(p[0]) == SET_SH_REG && |p| - 1 >= 2 then
      regs.(shader := SetRun(regs.shader, p[1..]))
    else if Opcode(p[0]) == SET_UCONFIG_REG && |p| - 1 >= 2 && p[1] <= UCONFIG_PRIMITIVE_TYPE &&
            p[1] + (|p| - 1) - 1 > UCONFIG_PRIMITIVE_TYPE then
      regs.(context := regs.context[HOST_PRIMITIVE := p[2 + UCONFIG_PRIMITIVE_TYPE - p[1]] % 0x40])
    else regs
  }

  function RecordState(rec: Recorder, p: seq<Word>): (r: Recorder)
    requires |p| > 0
    ensures r.regs == rec.regs && r.events == rec.events
  {
    if Opcode(p[0]) == INDEX_BASE && |p| - 1 >= 2 then
      rec.(indexBase := Join64(p[1] - p[1] % 2, p[2] % 0x100))
    else if Opcode(p[0]) == INDEX_TYPE && |p| - 1 >= 1 then rec.(indexType := p[1] % 4)
    else if Opcode(p[0]) == NUM_INSTANCES && |p| - 1 >= 1 then
      rec.(instances := if p[1] == 0 then 1 else p[1])
    else if Opcode(p[0]) == SET_BASE && |p| - 1 >= 3 && p[1] % 0x10 == 1 then
      rec.(indirectBase := Address48(p[2], p[3]))
    else rec
  }

  function EventOf(rec: Recorder, p: seq<Word>): seq<Event>
    requires |p| > 0
  {
    var opcode := Opcode(p[0]);
    if IsDraw(opcode) then
      [Draw(opcode, p[1..], rec.regs, rec.indexBase, rec.indexType, rec.instances, rec.indirectBase)]
    else if IsDispatch(opcode) then [Dispatch(opcode, p[1..], rec.regs.shader, rec.indirectBase)]
    else if IsSync(opcode) then [Sync(opcode, p[1..])]
    else []
  }

  function RecordPacket(rec: Recorder, p: seq<Word>): (r: Recorder)
    requires rec.regs.Valid() && |p| > 0 && |p| == PayloadCount(p[0]) + 1
    requires PacketType(p[0]) == 3 ==> !Refused(p)
    ensures r.regs.Valid()
  {
    if PacketType(p[0]) != 3 then rec
    else
      var updated := RecordState(rec.(regs := RecordRegisters(rec.regs, p)), p);
      updated.(events := rec.events + EventOf(updated, p))
  }

  /** None when recording is aborted. */
  function RecordStream(rec: Recorder, s: seq<Word>): (r: Option<Recorder>)
    requires rec.regs.Valid()
    ensures r.Some? ==> r.value.regs.Valid()
    decreases |s|
  {
    if |s| == 0 || TailPadding(s) then Some(rec)
    else
      var n := PayloadCount(s[0]);
      if n > |s| - 1 then None
      else if PacketType(s[0]) == 3 && Refused(s[..n + 1]) then None
      else RecordStream(RecordPacket(rec, s[..n + 1]), s[n + 1..])
  }

  // ---------- the two agree ----------

  predicate SameButPrimitive(a: Registers, b: Registers) {
    a.shader == b.shader && |a.context| == |b.context| &&
    forall i :: 0 <= i < |a.context| && i != HOST_PRIMITIVE ==> a.context[i] == b.context[i]
  }

  lemma PacketAgrees(rec: Recorder, regs: Registers, p: seq<Word>)
    requires rec.regs.Valid() && regs.Valid() && SameButPrimitive(rec.regs, regs)
    requires |p| > 0 && |p| == PayloadCount(p[0]) + 1 && Acceptable(p)
    ensures PacketType(p[0]) == 3 ==> !Refused(p)
    ensures SameButPrimitive(RecordPacket(rec, p).regs, ApplyPacket(regs, p))
  {
  }

  /** On every stream the parser accepts, the recorder does not abort and ends with the parser's
      registers, except for the slot it keeps the host primitive in. */
  lemma {:induction false} RecorderAgrees(rec: Recorder, regs: Registers, s: seq<Word>, pos: nat, count: nat)
    requires rec.regs.Valid() && regs.Valid() && SameButPrimitive(rec.regs, regs)
    requires ParseStream(regs, s, pos, count).Parsed?
    ensures RecordStream(rec, s).Some?
    ensures SameButPrimitive(RecordStream(rec, s).value.regs, ParseStream(regs, s, pos, count).regs)
    decreases |s|
  {
    hide ApplyPacket, RecordPacket, Refused, Acceptable, SameButPrimitive;
    if |s| > 0 && !TailPadding(s) {
      var n := PayloadCount(s[0]);
      var p := s[..n + 1];
      PacketAgrees(rec, regs, p);
      RecorderAgrees(RecordPacket(rec, p), ApplyPacket(regs, p), s[n + 1..], pos + n + 1, count + 1);
    }
  }

  // ---------- what the parser and the draws see on a flattened stream ----------

  predicate AllAcceptable(ps: seq<seq<Word>>)
    requires ArePackets(ps)
  {
    forall i :: 0 <= i < |ps| ==> Acceptable(ps[i])
  }

  /** The registers after the packets, in order. */
  function Fold(regs: Registers, ps: seq<seq<Word>>): (r: Registers)
    requires regs.Valid() && ArePackets(ps) && AllAcceptable(ps)
    ensures r.Valid()
  {
    if |ps| == 0 then regs
    else
      var last := |ps| - 1;
      ApplyPacket(Fold(regs, ps[..last]), ps[last])
  }

  lemma {:induction false} FoldFromFront(regs: Registers, ps: seq<seq<Word>>)
    requires regs.Valid() && ArePackets(ps) && AllAcceptable(ps) && |ps| > 0
    ensures Fold(regs, ps) == Fold(ApplyPacket(regs, ps[0]), ps[1..])
  {
    hide ApplyPacket, Acceptable, IsPacket;
    var last := |ps| - 1;
    if last == 0 {
      assert ps[..0] == [] && ps[1..] == [];
    } else {
      FoldFromFront(regs, ps[..last]);
      assert ps[..last][1..] == ps[1..][..last - 1];
    }
  }

  lemma {:induction false} PaddingAccepted(regs: Registers, ps: seq<seq<Word>>)
    requires regs.Valid() && ArePackets(ps) && TailPadding(Concat(ps))
    ensures AllAcceptable(ps) && Fold(regs, ps) == regs
  {
    if |ps| > 0 {
      assert Concat(ps)[0] == ps[0][0];
      assert forall i :: 0 <= i < |Concat(ps[1..])| ==> Concat(ps[1..])[i] == Concat(ps)[|ps[0]| + i];
      PaddingAccepted(regs, ps[1..]);
      FoldFromFront(regs, ps);
    }
  }

  /** The number of packets before the first the parser refuses. */
  function AcceptedPrefix(ps: seq<seq<Word>>): (k: nat)
    requires ArePackets(ps)
    ensures k <= |ps| && AllAcceptable(ps[..k])
    ensures k < |ps| ==> !Acceptable(ps[k])
  {
    if |ps| == 0 || !Acceptable(ps[0]) then 0
    else
      var k := AcceptedPrefix(ps[1..]);
      assert forall i :: 0 < i <= k ==> ps[i] == ps[1..][i - 1];
      k + 1
  }

  /** The parser accepts a stream of complete packets exactly when every packet is acceptable, and
      then yields the fold of them; it can reject only an unacceptable packet, and does so at the first. */
  lemma {:induction false} ParseIsFold(regs: Registers, ps: seq<seq<Word>>, pos: nat, count: nat)
    requires regs.Valid() && ArePackets(ps)
    ensures var r := ParseStream(regs, Concat(ps), pos, count);
            if AllAcceptable(ps) then r.Parsed? && r.regs == Fold(regs, ps)
            else
              var k := AcceptedPrefix(ps);
              k < |ps| && r == Rejected(ParseError(pos + |Concat(ps[..k])|, ps[k][0], InvalidRegisterPacket))
    decreases |ps|
  {
    hide ApplyPacket, Acceptable, Field, PayloadCount, ParseStream, AllAcceptable, AcceptedPrefix, Fold;
    var s := Concat(ps);
    if TailPadding(s) {
      PaddingAccepted(regs, ps);
      ParseEnds(regs, s, pos, count);
    } else {
      var p := ps[0];
      assert s[..|p|] == p && s[|p|..] == Concat(ps[1..]) && s[0] == p[0];
      ParseUnfold(regs, s, pos, count);
      if Acceptable(p) {
        ParseIsFold(ApplyPacket(regs, p), ps[1..], pos + |p|, count + 1);
        AcceptedFromFront(regs, ps);
      } else {
        AcceptsNone(ps);
      }
    }
  }

  lemma AcceptsNone(ps: seq<seq<Word>>)
    requires ArePackets(ps) && |ps| > 0 && !Acceptable(ps[0])
    ensures !AllAcceptable(ps) && AcceptedPrefix(ps) == 0 && Concat(ps[..0]) == []
  {
    assert ps[..0] == [];
  }

  lemma ParseEnds(regs: Registers, s: seq<Word>, pos: nat, count: nat)
    requires regs.Valid() && (|s| == 0 || TailPadding(s))
    ensures ParseStream(regs, s, pos, count) == Parsed(regs, count)
  {
  }

  lemma ParseUnfold(regs: Registers, s: seq<Word>, pos: nat, count: nat)
    requires regs.Valid() && |s| > 0 && !TailPadding(s)
    ensures var n := PayloadCount(s[0]);
            ParseStream(regs, s, pos, count) ==
              if n > |s| - 1 then
                Rejected(ParseError(pos, s[0], if PacketType(s[0]) == 3 then TruncatedType3 else TruncatedType0OrType1))
              else if !Acceptable(s[..n + 1]) then Rejected(ParseError(pos, s[0], InvalidRegisterPacket))
              else ParseStream(ApplyPacket(regs, s[..n + 1]), s[n + 1..], pos + n + 1, count + 1)
  {
    hide ApplyPacket, Acceptable, Field;
  }

  lemma {:induction false} AcceptedFromFront(regs: Registers, ps: seq<seq<Word>>)
    requires regs.Valid() && ArePackets(ps) && |ps| > 0 && Acceptable(ps[0])
    ensures AllAcceptable(ps) <==> AllAcceptable(ps[1..])
    ensures AllAcceptable(ps) ==> Fold(regs, ps) == Fold(ApplyPacket(regs, ps[0]), ps[1..])
    ensures var k := AcceptedPrefix(ps[1..]);
            AcceptedPrefix(ps) == k + 1 && Concat(ps[..k + 1]) == ps[0] + Concat(ps[1..][..k])
  {
    hide ApplyPacket, Acceptable, IsPacket;
    assert forall i :: 0 < i < |ps| ==> ps[i] == ps[1..][i - 1];
    if AllAcceptable(ps) {
      FoldFromFront(regs, ps);
    }
    var k := AcceptedPrefix(ps[1..]);
    assert ps[..k + 1][1..] == ps[1..][..k];
  }

  // ---------- what each recorded event sees ----------

  function RecordFold(rec: Recorder, ps: seq<seq<Word>>): (r: Recorder)
    requires rec.regs.Valid() && ArePackets(ps) && AllAcceptable(ps)
    ensures r.regs.Valid()
  {
    if |ps| == 0 then rec
    else
      var last := |ps| - 1;
      RecordPacket(RecordFold(rec, ps[..last]), ps[last])
  }

  lemma {:induction false} RecordFoldFromFront(rec: Recorder, ps: seq<seq<Word>>)
    requires rec.regs.Valid() && ArePackets(ps) && AllAcceptable(ps) && |ps| > 0
    ensures RecordFold(rec, ps) == RecordFold(RecordPacket(rec, ps[0]), ps[1..])
    decreases |ps|
  {
    hide RecordPacket, IsPacket;
    var last := |ps| - 1;
    if last == 0 {
      assert ps[..0] == [] && ps[1..] == [];
    } else {
      RecordFoldFromFront(rec, ps[..last]);
      assert ps[..last][1..] == ps[1..][..last - 1];
    }
  }

  lemma {:induction false} PaddingRecorded(rec: Recorder, ps: seq<seq<Word>>)
    requires rec.regs.Valid() && ArePackets(ps) && AllAcceptable(ps) && TailPadding(Concat(ps))
    ensures RecordFold(rec, ps) == rec
    decreases |ps|
  {
    if |ps| > 0 {
      assert Concat(ps)[0] == ps[0][0];
      assert forall i :: 0 <= i < |Concat(ps[1..])| ==> Concat(ps[1..])[i] == Concat(ps)[|ps[0]| + i];
      PaddingRecorded(rec, ps[1..]);
      RecordFoldFromFront(rec, ps);
    }
  }

  lemma RecordEnds(rec: Recorder, s: seq<Word>)
    requires rec.regs.Valid() && (|s| == 0 || TailPadding(s))
    ensures RecordStream(rec, s) == Some(rec)
  {
  }

  lemma RecordUnfold(rec: Recorder, s: seq<Word>)
    requires rec.regs.Valid() && |s| > 0 && !TailPadding(s)
    ensures var n := PayloadCount(s[0]);
            RecordStream(rec, s) ==
              if n > |s| - 1 || (PacketType(s[0]) == 3 && Refused(s[..n + 1])) then None
              else RecordStream(RecordPacket(rec, s[..n + 1]), s[n + 1..])
  {
    hide RecordPacket, Refused, Field;
  }

  lemma AcceptableIsRecorded(p: seq<Word>)
    requires |p| > 0 && |p| == PayloadCount(p[0]) + 1 && Acceptable(p)
    ensures PacketType(p[0]) == 3 ==> !Refused(p)
  {
  }

  /** On a flattened stream of acceptable packets, recording is the fold of the packets. */
  lemma {:induction false} RecordIsFold(rec: Recorder, ps: seq<seq<Word>>)
    requires rec.regs.Valid() && ArePackets(ps) && AllAcceptable(ps)
    ensures RecordStream(rec, Concat(ps)) == Some(RecordFold(rec, ps))
    decreases |ps|
  {
    hide RecordPacket, Field, PayloadCount, Acceptable, RecordFold;
    var s := Concat(ps);
    if TailPadding(s) {
      PaddingRecorded(rec, ps);
    } else {
      var p := ps[0];
      assert s[..|p|] == p && s[|p|..] == Concat(ps[1..]) && s[0] == p[0];
      RecordUnfold(rec, s);
      AcceptableIsRecorded(p);
      RecordIsFold(RecordPacket(rec, p), ps[1..]);
      RecordFoldFromFront(rec, ps);
    }
  }

  predicate IsEvent(p: seq<Word>)
    requires |p| > 0
  {
    PacketType(p[0]) == 3 && (IsDraw(Opcode(p[0])) || IsDispatch(Opcode(p[0])) || IsSync(Opcode(p[0])))
  }

  function EventCount(ps: seq<seq<Word>>): nat
    requires ArePackets(ps)
  {
    if |ps| == 0 then 0
    else EventCount(ps[..|ps| - 1]) + if IsEvent(ps[|ps| - 1]) then 1 else 0
  }

  /** The event is the one packet `p` gives rise to, with the registers `regs`. */
  predicate EventMatches(e: Event, p: seq<Word>, regs: Registers)
    requires |p| > 0
  {
    e.opcode == Opcode(p[0]) && e.payload == p[1..] &&
    match e
    case Draw(_, _, seen, _, _, _, _) => IsDraw(e.opcode) && SameButPrimitive(seen, regs)
    case Dispatch(_, _, shader, _) => IsDispatch(e.opcode) && shader == regs.shader
    case Sync(_, _) => IsSync(e.opcode)
  }

  lemma RecordPacketEvents(rec: Recorder, regs: Registers, p: seq<Word>)
    requires rec.regs.Valid() && regs.Valid() && SameButPrimitive(rec.regs, regs)
    requires |p| > 0 && |p| == PayloadCount(p[0]) + 1 && Acceptable(p)
    ensures var r := RecordPacket(rec, p);
            if IsEvent(p) then |r.events| == |rec.events| + 1 && r.events[..|rec.events|] == rec.events &&
                               EventMatches(r.events[|rec.events|], p, regs)
            else r.events == rec.events
  {
  }

  lemma {:induction false} FoldSeesPrefixes(rec: Recorder, regs: Registers, ps: seq<seq<Word>>)
    requires rec.regs.Valid() && regs.Valid() && SameButPrimitive(rec.regs, regs)
    requires ArePackets(ps) && AllAcceptable(ps)
    ensures SameButPrimitive(RecordFold(rec, ps).regs, Fold(regs, ps))
    ensures var events := RecordFold(rec, ps).events;
            && |events| == |rec.events| + EventCount(ps) && events[..|rec.events|] == rec.events
            && forall j :: 0 <= j < |ps| && IsEvent(ps[j]) ==>
                 var k := |rec.events| + EventCount(ps[..j]);
                 k < |events| && EventMatches(events[k], ps[j], Fold(regs, ps[..j]))
    decreases |ps|
  {
    hide RecordPacket, ApplyPacket, SameButPrimitive, EventMatches, Acceptable, IsEvent, Field, PayloadCount;
    if |ps| > 0 {
      var last := |ps| - 1;
      FoldSeesPrefixes(rec, regs, ps[..last]);
      var before := RecordFold(rec, ps[..last]);
      PacketAgrees(before, Fold(regs, ps[..last]), ps[last]);
      RecordPacketEvents(before, Fold(regs, ps[..last]), ps[last]);
      var events := RecordFold(rec, ps).events;
      assert before.events == events[..|before.events|];
      forall j | 0 <= j < |ps| && IsEvent(ps[j])
        ensures var k := |rec.events| + EventCount(ps[..j]);
                k < |events| && EventMatches(events[k], ps[j], Fold(regs, ps[..j]))
      {
        if j < last {
          assert ps[..last][..j] == ps[..j] && ps[..last][j] == ps[j];
        }
      }
    }
  }

  /** Recording yields one event for each draw, dispatch and synchronisation packet, in stream order,
      and each sees exactly the fold of the packets before it. */
  lemma EventsSeePrefixFold(rec: Recorder, regs: Registers, ps: seq<seq<Word>>)
    requires rec.regs.Valid() && regs.Valid() && SameButPrimitive(rec.regs, regs)
    requires ArePackets(ps) && AllAcceptable(ps)
    ensures RecordStream(rec, Concat(ps)).Some?
    ensures var events := RecordStream(rec, Concat(ps)).value.events;
            && |events| == |rec.events| + EventCount(ps) && events[..|rec.events|] == rec.events
            && forall j :: 0 <= j < |ps| && IsEvent(ps[j]) ==>
                 var k := |rec.events| + EventCount(ps[..j]);
                 k < |events| && EventMatches(events[k], ps[j], Fold(regs, ps[..j]))
  {
    hide RecordStream, RecordFold, SameButPrimitive, EventMatches, Acceptable, IsEvent, Field, PayloadCount;
    RecordIsFold(rec, ps);
    FoldSeesPrefixes(rec, regs, ps);
  }
}
