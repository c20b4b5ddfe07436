/** The timer calls on any memory at all: lists that are cyclic, unreadable or too long included. */
module CalloutFaults {
  import opened GuestMemory
  import opened Callout

  /** The k-th record from `a` on, following the links. */
  function Nth(mem: Memory, a: Word64, k: nat): Word64 {
    if k == 0 then a else Next(mem, Nth(mem, a, k - 1))
  }

  function Previous(mem: Memory, a: Word64, k: nat): Word64 {
    if k == 0 then 0 else Nth(mem, a, k - 1)
  }

  // ---------- where the three walks end ----------

  /** The duplicate check goes past the first k records. */
  predicate Checked(mem: Memory, head: Word64, entry: Word64, k: nat) {
    k <= 256 && forall j: nat :: j < k ==>
      Nth(mem, head, j) != 0 && Nth(mem, head, j) != entry && GuestReadable(mem, Nth(mem, head, j), 8)
  }

  lemma {:induction false} CheckEnds(mem: Memory, head: Word64, entry: Word64, i: nat) returns (k: nat)
    requires Checked(mem, head, entry, i)
    ensures Checked(mem, head, entry, k)
    ensures var last := Nth(mem, head, k);
            match CheckFrom(mem, Nth(mem, head, i), entry, i)
            case Clear => last == 0
            case Duplicate => last != 0 && (k == 256 || last == entry)
            case CheckFault => k < 256 && last != 0 && last != entry && !GuestReadable(mem, last, 8)
    decreases MAX_WALK - i
  {
    hide Next, GuestReadable;
    k := i;
    var current := Nth(mem, head, i);
    if current != 0 && i < MAX_WALK && current != entry && GuestReadable(mem, current, 8) {
      k := CheckEnds(mem, head, entry, i + 1);
    }
  }

  /** The first k records are due earlier. */
  predicate Earlier(mem: Memory, head: Word64, due: int, k: nat) {
    k <= 256 && forall j: nat :: j < k ==>
      Nth(mem, head, j) != 0 && GuestReadable(mem, Nth(mem, head, j), 32) && Deadline(mem, Nth(mem, head, j)) < due
  }

  lemma {:induction false} PlaceEnds(mem: Memory, head: Word64, due: int, i: nat) returns (k: nat)
    requires Earlier(mem, head, due, i)
    ensures Earlier(mem, head, due, k)
    ensures var last := Nth(mem, head, k);
            match PlaceFrom(mem, Previous(mem, head, i), Nth(mem, head, i), due, i)
            case At(previous, current) =>
              previous == Previous(mem, head, k) && current == last &&
              (last != 0 ==> k < 256 && GuestReadable(mem, last, 32) && Deadline(mem, last) >= due)
            case Full => k == 256 && last != 0
            case PlaceFault => k < 256 && last != 0 && !GuestReadable(mem, last, 32)
    decreases MAX_WALK - i
  {
    hide Next, GuestReadable, Deadline;
    k := i;
    var current := Nth(mem, head, i);
    if current != 0 && i < MAX_WALK && GuestReadable(mem, current, RECORD_SIZE) && Deadline(mem, current) < due {
      k := PlaceEnds(mem, head, due, i + 1);
    }
  }

  /** The search goes past the first k records. */
  predicate Passed(mem: Memory, head: Word64, entry: Word64, k: nat) {
    k <= 256 && forall j: nat :: j < k ==>
      Nth(mem, head, j) != 0 && Nth(mem, head, j) != entry && GuestReadable(mem, Nth(mem, head, j), 32)
  }

  lemma {:induction false} SearchEnds(mem: Memory, head: Word64, entry: Word64, i: nat) returns (k: nat)
    requires Passed(mem, head, entry, i)
    ensures Passed(mem, head, entry, k)
    ensures var last := Nth(mem, head, k);
            match SearchFrom(mem, Previous(mem, head, i), Nth(mem, head, i), entry, i)
            case Hit(previous, next) =>
              k < 256 && last == entry && last != 0 && GuestReadable(mem, last, 32) &&
              previous == Previous(mem, head, k) && next == Nth(mem, head, k + 1)
            case Miss => last == 0 || k == 256
            case SearchFault => k < 256 && last != 0 && !GuestReadable(mem, last, 32)
    decreases MAX_WALK - i
  {
    hide Next, GuestReadable;
    k := i;
    var current := Nth(mem, head, i);
    if current != 0 && i < MAX_WALK && GuestReadable(mem, current, RECORD_SIZE) && current != entry {
      k := SearchEnds(mem, head, entry, i + 1);
    }
  }

  // ---------- the calls ----------

  /** A call is let through to its list: the context can be read and is active, and the entry is not null. */
  predicate LetThrough(mem: Memory, context: Word64, entry: Word64) {
    context != 0 && GuestReadable(mem, context, 40) && Active(mem, context) != 0 && entry != 0
  }

  /** Calls that are not let through change nothing; INIT is refused on an active context, with a code of its own. */
  lemma RefusedCalls(mem: Memory, op: Operation, context: Word64, entry: Word64, delay: Word64, handler: Word64,
                     argument: Word64, nowNs: nat)
    ensures var r := Call(mem, op, context, entry, delay, handler, argument, nowNs);
            && (context == 0 || !GuestReadable(mem, context, 40) ==> r == (mem, 0x8055_8001))
            && (context != 0 && GuestReadable(mem, context, 40) ==>
                  && (op == Init && Active(mem, context) != 0 ==> r == (mem, 0x8055_8002))
                  && (op != Init && Active(mem, context) == 0 ==> r == (mem, 0x8055_8001))
                  && (op.Start? || op.Start64? || op.Stop? ==> entry == 0 ==> r == (mem, 0x8055_8001)))
  {
    hide GuestReadable, Active, CheckFrom, Insert, Unlink;
  }

  /** START is refused as busy exactly when within 256 readable links it meets its own record, or when it meets neither
      that nor the end; it is refused as invalid when it meets a record it cannot follow. */
  lemma StartChecks(mem: Memory, op: Operation, context: Word64, entry: Word64, delay: Word64, handler: Word64,
                    argument: Word64, nowNs: nat) returns (k: nat)
    requires LetThrough(mem, context, entry) && (op == Start || op == Start64)
    ensures Checked(mem, Head(mem, context), entry, k)
    ensures var r := Call(mem, op, context, entry, delay, handler, argument, nowNs);
            var last := Nth(mem, Head(mem, context), k);
            if last == 0 then
              r == Insert(mem, context, entry, DueTime(op, nowNs, delay), handler, argument)
            else if k == 256 || last == entry then r == (mem, 0x8055_8006)
            else !GuestReadable(mem, last, 8) && r == (mem, 0x8055_8001)
  {
    hide GuestReadable, Active, Insert, Head, Next, DueTime, CheckFrom, Nth;
    StartsAtHead(mem, Head(mem, context));
    k := CheckEnds(mem, Head(mem, context), entry, 0);
  }

  lemma StartsAtHead(mem: Memory, head: Word64)
    ensures Nth(mem, head, 0) == head && Previous(mem, head, 0) == 0
  {
  }

  /** Past the check, the record goes before the first that is due no earlier, or to the end; the link to it is written
      after it. An unreadable record on the way, or a record or link that cannot be written, makes the call invalid. */
  lemma StartInserts(mem: Memory, context: Word64, entry: Word64, due: Word64, handler: Word64, argument: Word64)
    returns (k: nat)
    requires context >= GUEST_USER_MIN
    ensures Earlier(mem, Head(mem, context), Signed(due), k)
    ensures var head := Head(mem, context);
            var last := Nth(mem, head, k);
            var r := Insert(mem, context, entry, due, handler, argument);
            var written := GuestWrite(mem, entry, RecordBytes(last, handler, due, argument));
            if last != 0 && k == 256 then r == (mem, 0x8055_8006)
            else if last != 0 && !GuestReadable(mem, last, 32) then r == (mem, 0x8055_8001)
            else if !GuestReadable(mem, entry, 32) then r == (written, 0x8055_8001)
            else if k == 0 then
              r == (Store(written, context, Bytes(mem, context, 32) + Encode(entry, 8)), 0)
            else
              r == (GuestWrite(written, Nth(mem, head, k - 1), Encode(entry, 8)),
                    if GuestReadable(written, Nth(mem, head, k - 1), 8) then 0 else 0x8055_8001)
    ensures var last := Nth(mem, Head(mem, context), k);
            last != 0 && k < 256 && GuestReadable(mem, last, 32) ==> Deadline(mem, last) >= Signed(due)
  {
    hide GuestReadable, Head, Next, Deadline, Encode, RecordBytes, PlaceFrom, Signed, Nth, Bytes, Store;
    var head := Head(mem, context);
    StartsAtHead(mem, head);
    k := PlaceEnds(mem, head, Signed(due), 0);
    if k > 0 {
      assert Nth(mem, head, k - 1) != 0;
    }
  }

  /** STOP searches 256 readable records: without a hit nothing changes but the report, and an unreadable record makes
      the call invalid; a hit writes the link that was to the record past it. */
  lemma StopUnlinks(mem: Memory, context: Word64, entry: Word64, removed: Word64) returns (k: nat)
    requires entry != 0 && context >= GUEST_USER_MIN
    ensures Passed(mem, Head(mem, context), entry, k)
    ensures var head := Head(mem, context);
            var last := Nth(mem, head, k);
            var r := Unlink(mem, context, entry, removed);
            if last == 0 || k == 256 then r == Report(mem, removed, 0)
            else if !GuestReadable(mem, last, 32) then r == (mem, 0x8055_8001)
            else if k == 0 then
              last == entry && r == Report(Store(mem, context, Bytes(mem, context, 32) +
                                                   Encode(Nth(mem, head, 1), 8)), removed, 1)
            else
              last == entry &&
              var linked := GuestWrite(mem, Nth(mem, head, k - 1), Encode(Nth(mem, head, k + 1), 8));
              r == (if GuestReadable(mem, Nth(mem, head, k - 1), 8) then Report(linked, removed, 1)
                    else (linked, 0x8055_8001))
  {
    hide GuestReadable, Head, Next, Encode, SearchFrom, Nth, Bytes, Store, Report;
    var head := Head(mem, context);
    StartsAtHead(mem, head);
    k := SearchEnds(mem, head, entry, 0);
    if k > 0 {
      assert Nth(mem, head, k - 1) != 0;
    }
  }

  /** The report is four bytes, or nothing when it goes to the null address. */
  lemma ReportWrites(mem: Memory, removed: Word64, value: Word)
    ensures var (m, r) := Report(mem, removed, value);
            && (removed == 0 ==> m == mem && r == 0)
            && (removed != 0 && GuestReadable(mem, removed, 4) ==> r == 0 && WordAt(m, removed) == value)
            && (removed != 0 && !GuestReadable(mem, removed, 4) ==> r == 14)
            && (0 < removed < 0x400_0000 ==> m == mem)
  {
    hide Encode, Store;
    if removed != 0 && GuestReadable(mem, removed, 4) {
      StoredWord(mem, removed, value);
    }
  }
}
