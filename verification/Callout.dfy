/** The timer list of a guest: 32-byte records in guest memory, linked in order of their deadlines from a
    40-byte context. */
module Callout {
  import opened GuestMemory

  const GUEST_USER_MIN: int := 0x400_0000
  const MAX_WALK: nat := 256
  const CONTEXT_SIZE: nat := 40
  const RECORD_SIZE: nat := 32

  const OK: Word64 := 0
  const INVALID: Word64 := 0x8055_8001
  const ALREADY_ACTIVE: Word64 := 0x8055_8002
  const BUSY: Word64 := 0x8055_8006
  const EFAULT: Word64 := 14

  // ---------- guest accesses ----------

  predicate GuestReadable(mem: Memory, a: int, size: nat) {
    a >= GUEST_USER_MIN && Readable(mem, a, size)
  }

  /** What a write attempt leaves; it succeeded when the range is readable. */
  function GuestWrite(mem: Memory, a: int, data: seq<Byte>): (m: Memory)
    ensures m.Keys == mem.Keys
  {
    if a >= GUEST_USER_MIN then Store(mem, a, data) else mem
  }

  function Bytes(mem: Memory, a: int, n: nat): (s: seq<Byte>)
    ensures |s| == n
  {
    seq<Byte>(n, i requires 0 <= i < n => ByteAt(mem, a + i))
  }

  function U64At(mem: Memory, a: int): Word64 {
    DecodeBound(Bytes(mem, a, 8));
    Decode(Bytes(mem, a, 8))
  }

  lemma {:induction false} DecodeBelow(s: seq<Byte>)
    ensures Decode(s) < Pow256(|s|)
    decreases |s|
  {
    if s != [] {
      DecodeBelow(s[1..]);
    }
  }

  lemma DecodeBound(s: seq<Byte>)
    requires |s| == 8
    ensures 0 <= Decode(s) < TWO_64
  {
    DecodeBelow(s);
    Pow256Constants();
  }

  /** The value as a signed 64-bit integer. */
  function Signed(v: Word64): int {
    if v < 0x8000_0000_0000_0000 then v else v - TWO_64
  }

  // ---------- records ----------

  function Next(mem: Memory, a: int): Word64 { U64At(mem, a) }

  function Handler(mem: Memory, a: int): Word64 { U64At(mem, a + 8) }

  function Deadline(mem: Memory, a: int): int { Signed(U64At(mem, a + 16)) }

  function Argument(mem: Memory, a: int): Word64 { U64At(mem, a + 24) }

  function RecordBytes(next: Word64, handler: Word64, deadline: Word64, argument: Word64): (s: seq<Byte>)
    ensures |s| == RECORD_SIZE
  {
    Encode(next, 8) + Encode(handler, 8) + Encode(deadline, 8) + Encode(argument, 8)
  }

  function Active(mem: Memory, context: int): Word { WordAt(mem, context + 24) }

  function Head(mem: Memory, context: int): Word64 { U64At(mem, context + 32) }

  // ---------- the call ----------

  datatype Operation = Init | Term | Start | Start64 | Stop

  /** How the duplicate check ended. */
  datatype Check = Clear | Duplicate | CheckFault

  function CheckFrom(mem: Memory, current: Word64, entry: Word64, i: nat): Check
    requires i <= MAX_WALK
    decreases MAX_WALK - i
  {
    if current == 0 then Clear
    else if i == MAX_WALK || current == entry then Duplicate
    else if !GuestReadable(mem, current, 8) then CheckFault
    else CheckFrom(mem, Next(mem, current), entry, i + 1)
  }

  datatype Place = At(previous: Word64, current: Word64) | Full | PlaceFault

  /** The first node that is due no earlier than `deadline`, and the one before it. */
  function PlaceFrom(mem: Memory, previous: Word64, current: Word64, deadline: int, i: nat): Place
    requires i <= MAX_WALK
    decreases MAX_WALK - i
  {
    if current == 0 then At(previous, current)
    else if i == MAX_WALK then Full
    else if !GuestReadable(mem, current, RECORD_SIZE) then PlaceFault
    else if Deadline(mem, current) >= deadline then At(previous, current)
    else PlaceFrom(mem, current, Next(mem, current), deadline, i + 1)
  }

  datatype Search = Hit(previous: Word64, next: Word64) | Miss | SearchFault

  function SearchFrom(mem: Memory, previous: Word64, current: Word64, entry: Word64, i: nat): Search
    requires i <= MAX_WALK
    decreases MAX_WALK - i
  {
    if current == 0 || i == MAX_WALK then Miss
    else if !GuestReadable(mem, current, RECORD_SIZE) then SearchFault
    else if current == entry then Hit(previous, Next(mem, current))
    else SearchFrom(mem, current, Next(mem, current), entry, i + 1)
  }

  /** Microseconds of the virtual clock plus the delay, in 64-bit arithmetic. */
  function DueTime(op: Operation, nowNs: nat, delay: Word64): Word64 {
    Wrap64(nowNs / 1000 + if op == Start then delay % 0x1_0000_0000 else delay)
  }

  function SetHead(mem: Memory, context: int, head: Word64): (m: Memory)
    ensures m.Keys == mem.Keys
  {
    GuestWrite(mem, context, Bytes(mem, context, 32) + Encode(head, 8))
  }

  function Insert(mem: Memory, context: Word64, entry: Word64, due: Word64, handler: Word64, argument: Word64)
    : (r: (Memory, Word64))
  {
    match PlaceFrom(mem, 0, Head(mem, context), Signed(due), 0)
    case PlaceFault => (mem, INVALID)
    case Full => (mem, BUSY)
    case At(previous, current) =>
      var written := GuestWrite(mem, entry, RecordBytes(current, handler, due, argument));
      if !GuestReadable(mem, entry, RECORD_SIZE) then (written, INVALID)
      else if previous != 0 then
        (GuestWrite(written, previous, Encode(entry, 8)), if GuestReadable(written, previous, 8) then OK else INVALID)
      else
        // The context bytes are the ones read before the record was written.
        (GuestWrite(written, context, Bytes(mem, context, 32) + Encode(entry, 8)), OK)
  }

  /** Reports through `removed`, unless it is null. */
  function Report(mem: Memory, removed: Word64, value: Word): (Memory, Word64) {
    if removed == 0 then (mem, OK)
    else (GuestWrite(mem, removed, Encode(value, 4)), if GuestReadable(mem, removed, 4) then OK else EFAULT)
  }

  function Unlink(mem: Memory, context: Word64, entry: Word64, removed: Word64): (Memory, Word64) {
    match SearchFrom(mem, 0, Head(mem, context), entry, 0)
    case SearchFault => (mem, INVALID)
    case Miss => Report(mem, removed, 0)
    case Hit(previous, next) =>
      if previous == 0 then Report(SetHead(mem, context, next), removed, 1)
      else if !GuestReadable(mem, previous, 8) then (GuestWrite(mem, previous, Encode(next, 8)), INVALID)
      else Report(GuestWrite(mem, previous, Encode(next, 8)), removed, 1)
  }

  function ContextBytes(front: seq<Byte>, active: Word, flag: Word, head: Word64): (s: seq<Byte>)
    requires |front| == 24
    ensures |s| == CONTEXT_SIZE
  {
    front + Encode(active, 4) + Encode(flag, 4) + Encode(head, 8)
  }

  function Call(mem: Memory, op: Operation, context: Word64, entry: Word64, delay: Word64, handler: Word64,
                argument: Word64, nowNs: nat): (Memory, Word64)
  {
    if context == 0 || !GuestReadable(mem, context, CONTEXT_SIZE) then (mem, INVALID)
    else if op == Init then
      if Active(mem, context) != 0 then (mem, ALREADY_ACTIVE)
      else (GuestWrite(mem, context, ContextBytes(Zeros(24), 1, 0, 0)), OK)
    else if Active(mem, context) == 0 then (mem, INVALID)
    else if op == Term then (GuestWrite(mem, context, ContextBytes(Bytes(mem, context, 24), 0, 1, 0)), OK)
    else if entry == 0 then (mem, INVALID)
    else if op == Stop then Unlink(mem, context, entry, delay)
    else
      match CheckFrom(mem, Head(mem, context), entry, 0)
      case Duplicate => (mem, BUSY)
      case CheckFault => (mem, INVALID)
      case Clear => Insert(mem, context, entry, DueTime(op, nowNs, delay), handler, argument)
  }
}
