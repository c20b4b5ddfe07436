/** The timer call of the guest, with its three bounded walks over guest memory. */
module CalloutService {
  import opened GuestMemory
  import opened Callout

  class TimerService {
    var memory: Memory

    constructor (mem: Memory)
      ensures memory == mem
    {
      memory := mem;
    }

    /** One guest call; the clock is read when a record is started. */
    method NpCallout(op: Operation, context: Word64, entry: Word64, delay: Word64, handler: Word64, argument: Word64,
                     nowNs: nat)
      returns (r: Word64)
      modifies this
      ensures (memory, r) == Call(old(memory), op, context, entry, delay, handler, argument, nowNs)
    {
      hide GuestWrite, GuestReadable, Active, Head, Next, Encode, Bytes;
      if context == 0 || !GuestReadable(memory, context, CONTEXT_SIZE) {
        return INVALID;
      }
      var active := Active(memory, context);
      if op == Init {
        if active != 0 {
          return ALREADY_ACTIVE;
        }
        memory := GuestWrite(memory, context, ContextBytes(Zeros(24), 1, 0, 0));
        return OK;
      }
      if active == 0 {
        return INVALID;
      }
      if op == Term {
        memory := GuestWrite(memory, context, ContextBytes(Bytes(memory, context, 24), 0, 1, 0));
        return OK;
      }
      if entry == 0 {
        return INVALID;
      }
      if op == Stop {
        r := StopEntry(context, entry, delay);
        return;
      }
      r := StartEntry(context, entry, DueTime(op, nowNs, delay), handler, argument);
    }

    method StartEntry(context: Word64, entry: Word64, due: Word64, handler: Word64,
                      argument: Word64) returns (r: Word64)
      modifies this
      ensures (memory, r) ==
              match CheckFrom(old(memory), Head(old(memory), context), entry, 0)
              case Duplicate => (old(memory), BUSY)
              case CheckFault => (old(memory), INVALID)
              case Clear => Insert(old(memory), context, entry, due, handler, argument)
    {
      hide GuestWrite, GuestReadable, Head, Next, Encode, Bytes, Deadline;
      var head := Head(memory, context);
      var current, i := head, 0;
      while current != 0 && i < MAX_WALK
        invariant i <= MAX_WALK && memory == old(memory)
        invariant CheckFrom(memory, head, entry, 0) == CheckFrom(memory, current, entry, i)
        decreases MAX_WALK - i
      {
        if current == entry {
          return BUSY;
        }
        if !GuestReadable(memory, current, 8) {
          return INVALID;
        }
        current := Next(memory, current);
        i := i + 1;
      }
      if current != 0 {
        return BUSY;
      }
      var kept := Bytes(memory, context, 32);
      var previous: Word64 := 0;
      current, i := head, 0;
      while current != 0 && i < MAX_WALK
        invariant i <= MAX_WALK && memory == old(memory)
        invariant PlaceFrom(memory, 0, head, Signed(due), 0) == PlaceFrom(memory, previous, current, Signed(due), i)
        decreases MAX_WALK - i
      {
        if !GuestReadable(memory, current, RECORD_SIZE) {
          return INVALID;
        }
        if Deadline(memory, current) >= Signed(due) {
          break;
        }
        previous := current;
        current := Next(memory, current);
        i := i + 1;
      }
      if current != 0 && i == MAX_WALK {
        return BUSY;
      }
      var writable := GuestReadable(memory, entry, RECORD_SIZE);
      memory := GuestWrite(memory, entry, RecordBytes(current, handler, due, argument));
      if !writable {
        return INVALID;
      }
      if previous != 0 {
        r := if GuestReadable(memory, previous, 8) then OK else INVALID;
        memory := GuestWrite(memory, previous, Encode(entry, 8));
        return;
      }
      memory := GuestWrite(memory, context, kept + Encode(entry, 8));
      r := OK;
    }

    method StopEntry(context: Word64, entry: Word64, removed: Word64) returns (r: Word64)
      modifies this
      ensures (memory, r) == Unlink(old(memory), context, entry, removed)
    {
      hide GuestWrite, GuestReadable, Head, Next, Encode, Bytes;
      var previous: Word64 := 0;
      var current, i := Head(memory, context), 0;
      while current != 0 && i < MAX_WALK
        invariant i <= MAX_WALK && memory == old(memory)
        invariant SearchFrom(memory, 0, Head(memory, context), entry, 0) ==
                  SearchFrom(memory, previous, current, entry, i)
        decreases MAX_WALK - i
      {
        if !GuestReadable(memory, current, RECORD_SIZE) {
          return INVALID;
        }
        var next := Next(memory, current);
        if current == entry {
          if previous == 0 {
            memory := SetHead(memory, context, next);
          } else {
            var writable := GuestReadable(memory, previous, 8);
            memory := GuestWrite(memory, previous, Encode(next, 8));
            if !writable {
              return INVALID;
            }
          }
          r := ReportStop(removed, 1);
          return;
        }
        previous := current;
        current := next;
        i := i + 1;
      }
      r := ReportStop(removed, 0);
    }

    method ReportStop(removed: Word64, value: Word) returns (r: Word64)
      modifies this
      ensures (memory, r) == Report(old(memory), removed, value)
    {
      if removed == 0 {
        return OK;
      }
      r := if GuestReadable(memory, removed, 4) then OK else EFAULT;
      memory := GuestWrite(memory, removed, Encode(value, 4));
    }
  }
}
