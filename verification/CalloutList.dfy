/** The records in guest memory stay a sorted, duplicate-free list whatever is started and stopped. */
module CalloutList {
  import opened GuestMemory
  import opened Callout

  // ---------- memory ----------

  predicate SameRange(m1: Memory, m2: Memory, a: int, n: nat) {
    forall x :: a <= x < a + n ==> ByteAt(m1, x) == ByteAt(m2, x)
  }

  predicate RangesApart(a: int, n: nat, b: int, k: nat) {
    a + n <= b || b + k <= a
  }

  lemma WriteElsewhere(mem: Memory, a: int, data: seq<Byte>, b: int, n: nat)
    requires RangesApart(a, |data|, b, n)
    ensures SameRange(mem, GuestWrite(mem, a, data), b, n)
  {
  }

  lemma WriteHere(mem: Memory, a: int, data: seq<Byte>)
    requires GuestReadable(mem, a, |data|)
    ensures Bytes(GuestWrite(mem, a, data), a, |data|) == data
  {
    var m := GuestWrite(mem, a, data);
    if |data| > 0 {
      assert MappedPrefix(mem, a, |data|) == |data|;
      forall i | 0 <= i < |data| ensures ByteAt(m, a + i) == data[i] {
        assert a + i in mem;
      }
    }
  }

  lemma StillReadable(mem: Memory, a: int, data: seq<Byte>, b: int, n: nat)
    ensures GuestReadable(GuestWrite(mem, a, data), b, n) <==> GuestReadable(mem, b, n)
  {
    var m := GuestWrite(mem, a, data);
    assert forall x :: x in m <==> x in mem;
  }

  lemma SameU64(m1: Memory, m2: Memory, a: int, n: nat, off: nat)
    requires SameRange(m1, m2, a, n) && off + 8 <= n
    ensures U64At(m1, a + off) == U64At(m2, a + off)
  {
    hide Decode;
    assert Bytes(m1, a + off, 8) == Bytes(m2, a + off, 8);
  }

  lemma U64Of(mem: Memory, a: int, n: nat, off: nat, v: Word64)
    requires off + 8 <= n && Bytes(mem, a, n)[off..off + 8] == Encode(v, 8)
    ensures U64At(mem, a + off) == v
  {
    hide Decode, Encode;
    assert Bytes(mem, a + off, 8) == Bytes(mem, a, n)[off..off + 8];
    Pow256Constants();
    DecodeEncode(v, 8);
  }

  lemma RecordParts(next: Word64, handler: Word64, deadline: Word64, argument: Word64)
    ensures var r := RecordBytes(next, handler, deadline, argument);
            r[0..8] == Encode(next, 8) && r[8..16] == Encode(handler, 8) && r[16..24] == Encode(deadline, 8) &&
            r[24..32] == Encode(argument, 8)
  {
    hide Encode;
  }

  /** The fields of a record just written. */
  lemma RecordWritten(mem: Memory, a: int, next: Word64, handler: Word64, deadline: Word64, argument: Word64)
    requires GuestReadable(mem, a, RECORD_SIZE)
    ensures var m := GuestWrite(mem, a, RecordBytes(next, handler, deadline, argument));
            Next(m, a) == next && Handler(m, a) == handler && Deadline(m, a) == Signed(deadline) &&
            Argument(m, a) == argument
  {
    hide Encode, U64At, Bytes, RecordBytes, GuestWrite;
    var r := RecordBytes(next, handler, deadline, argument);
    var m := GuestWrite(mem, a, r);
    WriteHere(mem, a, r);
    RecordParts(next, handler, deadline, argument);
    U64Of(m, a, 32, 0, next);
    U64Of(m, a, 32, 8, handler);
    U64Of(m, a, 32, 16, deadline);
    U64Of(m, a, 32, 24, argument);
  }

  /** Rewriting the link of a record changes no other field. */
  lemma LinkWritten(mem: Memory, a: int, next: Word64)
    requires GuestReadable(mem, a, RECORD_SIZE)
    ensures var m := GuestWrite(mem, a, Encode(next, 8));
            Next(m, a) == next && SameRange(mem, m, a + 8, 24)
  {
    hide Encode, U64At, Bytes;
    var m := GuestWrite(mem, a, Encode(next, 8));
    assert GuestReadable(mem, a, 8);
    WriteHere(mem, a, Encode(next, 8));
    assert Bytes(m, a, 8)[0..8] == Encode(next, 8);
    U64Of(m, a, 8, 0, next);
    WriteElsewhere(mem, a, Encode(next, 8), a + 8, 24);
  }

  /** Rewriting the head of a context changes nothing else in it. */
  lemma HeadWritten(mem: Memory, before: Memory, context: int, head: Word64)
    requires GuestReadable(mem, context, CONTEXT_SIZE) && SameRange(before, mem, context, CONTEXT_SIZE)
    ensures var m := GuestWrite(mem, context, Bytes(before, context, 32) + Encode(head, 8));
            Head(m, context) == head && Active(m, context) == Active(mem, context)
  {
    hide Encode, U64At, GuestWrite, Word32;
    var data := Bytes(before, context, 32) + Encode(head, 8);
    var m := GuestWrite(mem, context, data);
    WriteHere(mem, context, data);
    assert Bytes(m, context, 40)[32..40] == Encode(head, 8);
    U64Of(m, context, 40, 32, head);
    forall x | context <= x < context + 32 ensures ByteAt(m, x) == ByteAt(mem, x) {
      assert data[x - context] == Bytes(m, context, 40)[x - context];
    }
  }

  // ---------- the list ----------

  const MAX_NODES: nat := 257

  function NodeAt(ns: seq<Word64>, i: nat): Word64 {
    if i < |ns| then ns[i] else 0
  }

  function Before(ns: seq<Word64>, i: nat): Word64 {
    if 0 < i <= |ns| then ns[i - 1] else 0
  }

  /** A record of the list, linked to its successor. */
  predicate NodeOk(mem: Memory, ns: seq<Word64>, i: nat)
    requires i < |ns|
  {
    GuestReadable(mem, ns[i], RECORD_SIZE) && Next(mem, ns[i]) == NodeAt(ns, i + 1)
  }

  predicate Separate(context: int, ns: seq<Word64>) {
    (forall i :: 0 <= i < |ns| ==> RangesApart(context, CONTEXT_SIZE, ns[i], RECORD_SIZE)) &&
    (forall i, j :: 0 <= i < j < |ns| ==> RangesApart(ns[i], RECORD_SIZE, ns[j], RECORD_SIZE))
  }

  predicate Sorted(mem: Memory, ns: seq<Word64>) {
    forall i, j :: 0 <= i < j < |ns| ==> Deadline(mem, ns[i]) <= Deadline(mem, ns[j])
  }

  predicate ContextOk(mem: Memory, context: int, ns: seq<Word64>) {
    GuestReadable(mem, context, CONTEXT_SIZE) && Active(mem, context) != 0 && Head(mem, context) == NodeAt(ns, 0)
  }

  /** The context heads the list `ns` of disjoint records, sorted by signed deadline. */
  predicate Queue(mem: Memory, context: int, ns: seq<Word64>) {
    ContextOk(mem, context, ns) && |ns| <= MAX_NODES && (forall i :: 0 <= i < |ns| ==> NodeOk(mem, ns, i)) &&
    Separate(context, ns) && Sorted(mem, ns)
  }

  /** Disjoint records are distinct, so the list has no duplicate and no cycle. */
  lemma NoDuplicates(mem: Memory, context: int, ns: seq<Word64>, i: nat, j: nat)
    requires Queue(mem, context, ns) && i < j < |ns|
    ensures ns[i] != ns[j] && ns[i] != 0
  {
    assert RangesApart(ns[i], RECORD_SIZE, ns[j], RECORD_SIZE);
    assert NodeOk(mem, ns, i);
  }

  // ---------- the walks ----------

  lemma {:induction false} CheckWalk(mem: Memory, context: int, ns: seq<Word64>, entry: Word64, i: nat)
    requires Queue(mem, context, ns) && i <= |ns| && i <= MAX_WALK && entry != 0
    ensures CheckFrom(mem, NodeAt(ns, i), entry, i) ==
            if entry in ns[i..] || |ns| > MAX_WALK then Duplicate else Clear
    decreases MAX_WALK - i
  {
    hide Next, Sorted, Separate, ContextOk;
    if i < |ns| {
      assert NodeOk(mem, ns, i);
      ReadableParts(mem, ns[i]);
      if i < MAX_WALK && ns[i] != entry {
        CheckWalk(mem, context, ns, entry, i + 1);
        assert ns[i..] == [ns[i]] + ns[i + 1..];
      }
    }
  }

  lemma ReadableParts(mem: Memory, a: int)
    requires GuestReadable(mem, a, RECORD_SIZE)
    ensures a != 0 && GuestReadable(mem, a, 8)
  {
  }

  /** The first position from `i` on whose deadline is not before `d`. */
  function Position(mem: Memory, ns: seq<Word64>, d: int, i: nat): (k: nat)
    requires i <= |ns|
    ensures i <= k <= |ns|
    ensures forall j :: i <= j < k ==> Deadline(mem, ns[j]) < d
    ensures k < |ns| ==> Deadline(mem, ns[k]) >= d
    decreases |ns| - i
  {
    if i == |ns| || Deadline(mem, ns[i]) >= d then i else Position(mem, ns, d, i + 1)
  }

  lemma {:induction false} PlaceWalk(mem: Memory, context: int, ns: seq<Word64>, d: int, i: nat)
    requires Queue(mem, context, ns) && i <= |ns| <= MAX_WALK
    ensures var k := Position(mem, ns, d, i);
            PlaceFrom(mem, Before(ns, i), NodeAt(ns, i), d, i) == At(Before(ns, k), NodeAt(ns, k))
    decreases |ns| - i
  {
    hide Next, Deadline, Sorted, Separate, ContextOk;
    if i < |ns| {
      assert NodeOk(mem, ns, i);
      ReadableParts(mem, ns[i]);
      if Deadline(mem, ns[i]) < d {
        PlaceWalk(mem, context, ns, d, i + 1);
      }
    }
  }

  lemma {:induction false} SearchWalk(mem: Memory, context: int, ns: seq<Word64>, entry: Word64, i: nat)
    requires Queue(mem, context, ns) && i <= |ns| && i <= MAX_WALK
    ensures var r := SearchFrom(mem, Before(ns, i), NodeAt(ns, i), entry, i);
            && (forall k :: i <= k < |ns| && k < MAX_WALK && ns[k] == entry ==>
                  r == Hit(Before(ns, k), NodeAt(ns, k + 1)))
            && ((forall k :: i <= k < |ns| && k < MAX_WALK ==> ns[k] != entry) ==> r == Miss)
    decreases MAX_WALK - i
  {
    hide Next, Sorted, ContextOk;
    if i < |ns| {
      assert NodeOk(mem, ns, i);
      ReadableParts(mem, ns[i]);
      forall k | i < k < |ns| ensures ns[k] != ns[i] {
        NoDuplicates(mem, context, ns, i, k);
      }
      if i < MAX_WALK && ns[i] != entry {
        SearchWalk(mem, context, ns, entry, i + 1);
      }
    }
  }

  // ---------- inserting ----------

  function Inserted(ns: seq<Word64>, k: nat, entry: Word64): seq<Word64>
    requires k <= |ns|
  {
    ns[..k] + [entry] + ns[k..]
  }

  /** The entry is none of the records and overlaps none of them. */
  predicate Fresh(context: int, ns: seq<Word64>, entry: int) {
    RangesApart(context, CONTEXT_SIZE, entry, RECORD_SIZE) &&
    forall i :: 0 <= i < |ns| ==> RangesApart(ns[i], RECORD_SIZE, entry, RECORD_SIZE)
  }

  /** The record keeps its handler, deadline and argument. */
  predicate SamePayload(m1: Memory, m2: Memory, a: int) {
    Handler(m2, a) == Handler(m1, a) && Deadline(m2, a) == Deadline(m1, a) && Argument(m2, a) == Argument(m1, a)
  }

  lemma PayloadKept(m1: Memory, m2: Memory, a: int)
    requires SameRange(m1, m2, a + 8, 24)
    ensures SamePayload(m1, m2, a)
  {
    hide U64At;
    SameU64(m1, m2, a + 8, 24, 0);
    SameU64(m1, m2, a + 8, 24, 8);
    SameU64(m1, m2, a + 8, 24, 16);
  }

  lemma RecordKept(m1: Memory, m2: Memory, a: int)
    requires SameRange(m1, m2, a, RECORD_SIZE)
    ensures Next(m2, a) == Next(m1, a) && SamePayload(m1, m2, a)
  {
    hide U64At;
    SameU64(m1, m2, a, 32, 0);
    PayloadKept(m1, m2, a);
  }

  lemma ContextKept(m1: Memory, m2: Memory, context: int)
    requires SameRange(m1, m2, context, CONTEXT_SIZE)
    ensures Head(m2, context) == Head(m1, context) && Active(m2, context) == Active(m1, context)
  {
    hide U64At, Word32;
    SameU64(m1, m2, context, 40, 32);
  }

  /** What the two writes of an insertion do to the record at position `i`. */
  predicate Relinked(m0: Memory, m: Memory, ns: seq<Word64>, i: nat, k: nat, link: Word64)
    requires i < |ns|
  {
    GuestReadable(m, ns[i], RECORD_SIZE) && SamePayload(m0, m, ns[i]) &&
    Next(m, ns[i]) == if i + 1 == k then link else Next(m0, ns[i])
  }

  lemma InsertedIsQueue(m0: Memory, m: Memory, context: int, ns: seq<Word64>, k: nat, entry: Word64)
    requires Queue(m0, context, ns) && |ns| < MAX_NODES && k <= |ns| && Fresh(context, ns, entry)
    requires forall i :: 0 <= i < |ns| ==> Relinked(m0, m, ns, i, k, entry)
    requires GuestReadable(m, entry, RECORD_SIZE) && Next(m, entry) == NodeAt(ns, k)
    requires forall i :: 0 <= i < k ==> Deadline(m0, ns[i]) < Deadline(m, entry)
    requires k < |ns| ==> Deadline(m0, ns[k]) >= Deadline(m, entry)
    requires GuestReadable(m, context, CONTEXT_SIZE) && Active(m, context) != 0
    requires Head(m, context) == if k == 0 then entry else Head(m0, context)
    ensures Queue(m, context, Inserted(ns, k, entry))
  {
    hide Next, Deadline, Handler, Argument, Active, Head, GuestReadable, RangesApart;
    var q := Inserted(ns, k, entry);
    InsertedSeparate(context, ns, k, entry);
    forall i | 0 <= i < |q| ensures NodeOk(m, q, i) {
      if i < k {
        assert Relinked(m0, m, ns, i, k, entry) && NodeOk(m0, ns, i);
      } else if i > k {
        assert Relinked(m0, m, ns, i - 1, k, entry) && NodeOk(m0, ns, i - 1);
      }
    }
    forall i, j | 0 <= i < j < |q| ensures Deadline(m, q[i]) <= Deadline(m, q[j]) {
      InsertedOrder(m0, m, context, ns, k, entry, i, j);
    }
  }

  lemma InsertedSeparate(context: int, ns: seq<Word64>, k: nat, entry: Word64)
    requires Separate(context, ns) && Fresh(context, ns, entry) && k <= |ns|
    ensures Separate(context, Inserted(ns, k, entry))
  {
    var q := Inserted(ns, k, entry);
    forall i, j | 0 <= i < j < |q| ensures RangesApart(q[i], RECORD_SIZE, q[j], RECORD_SIZE) {
      if i != k && j != k {
        var a, b := if i < k then i else i - 1, if j < k then j else j - 1;
        assert q[i] == ns[a] && q[j] == ns[b] && a < b;
      }
    }
  }

  lemma InsertedOrder(m0: Memory, m: Memory, context: int, ns: seq<Word64>, k: nat, entry: Word64, i: nat, j: nat)
    requires Queue(m0, context, ns) && k <= |ns| && i < j <= |ns|
    requires forall i :: 0 <= i < |ns| ==> Relinked(m0, m, ns, i, k, entry)
    requires forall i :: 0 <= i < k ==> Deadline(m0, ns[i]) < Deadline(m, entry)
    requires k < |ns| ==> Deadline(m0, ns[k]) >= Deadline(m, entry)
    ensures Deadline(m, Inserted(ns, k, entry)[i]) <= Deadline(m, Inserted(ns, k, entry)[j])
  {
    hide Next, Deadline, Handler, Argument, GuestReadable, NodeOk, Separate, ContextOk;
    var q := Inserted(ns, k, entry);
    if i < k {
      assert Relinked(m0, m, ns, i, k, entry) && q[i] == ns[i];
    } else if i > k {
      assert Relinked(m0, m, ns, i - 1, k, entry) && q[i] == ns[i - 1];
    }
    if j < k {
      assert Relinked(m0, m, ns, j, k, entry) && q[j] == ns[j];
    } else if j > k {
      assert Relinked(m0, m, ns, j - 1, k, entry) && q[j] == ns[j - 1];
    }
  }

  /** The memory after the record of `entry` was written and linked in at position `k`. */
  function Linked(m0: Memory, context: int, ns: seq<Word64>, k: nat, entry: Word64, record: seq<Byte>): Memory
    requires k <= |ns|
  {
    var m1 := GuestWrite(m0, entry, record);
    if k == 0 then GuestWrite(m1, context, Bytes(m0, context, 32) + Encode(entry, 8))
    else GuestWrite(m1, ns[k - 1], Encode(entry, 8))
  }

  lemma LinkedRecord(m0: Memory, context: int, ns: seq<Word64>, k: nat, entry: Word64, record: seq<Byte>, i: nat)
    requires Queue(m0, context, ns) && k <= |ns| && Fresh(context, ns, entry) && |record| == RECORD_SIZE && i < |ns|
    ensures Relinked(m0, Linked(m0, context, ns, k, entry, record), ns, i, k, entry)
  {
    hide Next, Handler, Deadline, Argument, GuestWrite, Encode, Bytes, GuestReadable, Sorted, ContextOk, SamePayload;
    var m1 := GuestWrite(m0, entry, record);
    var x := ns[i];
    assert NodeOk(m0, ns, i);
    WriteElsewhere(m0, entry, record, x, 32);
    StillReadable(m0, entry, record, x, 32);
    RecordKept(m0, m1, x);
    if k == 0 {
      var data := Bytes(m0, context, 32) + Encode(entry, 8);
      WriteElsewhere(m1, context, data, x, 32);
      StillReadable(m1, context, data, x, 32);
      RecordKept(m1, GuestWrite(m1, context, data), x);
      PayloadTrans(m0, m1, GuestWrite(m1, context, data), x);
    } else {
      var p := ns[k - 1];
      var m2 := GuestWrite(m1, p, Encode(entry, 8));
      StillReadable(m1, p, Encode(entry, 8), x, 32);
      if i == k - 1 {
        LinkWritten(m1, p, entry);
        PayloadKept(m1, m2, x);
      } else {
        NodesApart(context, ns, k - 1, i);
        WriteElsewhere(m1, p, Encode(entry, 8), x, 32);
        RecordKept(m1, m2, x);
      }
      PayloadTrans(m0, m1, m2, x);
    }
  }

  lemma NodesApart(context: int, ns: seq<Word64>, i: nat, j: nat)
    requires Separate(context, ns) && i < |ns| && j < |ns| && i != j
    ensures RangesApart(ns[i], RECORD_SIZE, ns[j], RECORD_SIZE) && RangesApart(ns[i], 8, ns[j], RECORD_SIZE)
  {
  }

  lemma PayloadSelf(mem: Memory, x: int)
    ensures SamePayload(mem, mem, x)
  {
  }

  lemma PayloadTrans(m0: Memory, m1: Memory, m2: Memory, x: int)
    requires SamePayload(m0, m1, x) && SamePayload(m1, m2, x)
    ensures SamePayload(m0, m2, x)
  {
    hide Handler, Deadline, Argument;
  }

  lemma LinkedEntry(m0: Memory, context: int, ns: seq<Word64>, k: nat, entry: Word64, next: Word64, handler: Word64,
                    due: Word64, argument: Word64)
    requires Queue(m0, context, ns) && k <= |ns| && Fresh(context, ns, entry) && GuestReadable(m0, entry, RECORD_SIZE)
    ensures var m := Linked(m0, context, ns, k, entry, RecordBytes(next, handler, due, argument));
            && GuestReadable(m, entry, RECORD_SIZE) && Next(m, entry) == next && Handler(m, entry) == handler
            && Deadline(m, entry) == Signed(due) && Argument(m, entry) == argument
  {
    hide Next, Handler, Deadline, Argument, GuestWrite, Encode, Bytes, GuestReadable, Sorted, ContextOk, RecordBytes,
         NodeOk;
    var record := RecordBytes(next, handler, due, argument);
    var m1 := GuestWrite(m0, entry, record);
    RecordWritten(m0, entry, next, handler, due, argument);
    StillReadable(m0, entry, record, entry, 32);
    var (a, data) := if k == 0 then (context, Bytes(m0, context, 32) + Encode(entry, 8))
                     else (ns[k - 1] as int, Encode(entry, 8));
    WriteElsewhere(m1, a, data, entry, 32);
    StillReadable(m1, a, data, entry, 32);
    RecordKept(m1, GuestWrite(m1, a, data), entry);
  }

  lemma LinkedContext(m0: Memory, context: int, ns: seq<Word64>, k: nat, entry: Word64, record: seq<Byte>)
    requires Queue(m0, context, ns) && k <= |ns| && Fresh(context, ns, entry) && |record| == RECORD_SIZE
    ensures var m := Linked(m0, context, ns, k, entry, record);
            && GuestReadable(m, context, CONTEXT_SIZE) && Active(m, context) == Active(m0, context)
            && Head(m, context) == if k == 0 then entry else Head(m0, context)
  {
    hide Active, Head, GuestWrite, Encode, Bytes, GuestReadable, Sorted, NodeOk;
    var m1 := GuestWrite(m0, entry, record);
    WriteElsewhere(m0, entry, record, context, 40);
    StillReadable(m0, entry, record, context, 40);
    ContextKept(m0, m1, context);
    if k == 0 {
      HeadWritten(m1, m0, context, entry);
      StillReadable(m1, context, Bytes(m0, context, 32) + Encode(entry, 8), context, 40);
    } else {
      var p := ns[k - 1];
      WriteElsewhere(m1, p, Encode(entry, 8), context, 40);
      StillReadable(m1, p, Encode(entry, 8), context, 40);
      ContextKept(m1, GuestWrite(m1, p, Encode(entry, 8)), context);
    }
  }

  // ---------- START ----------

  /** A write that overlaps neither the context nor a record keeps the list and every payload. */
  lemma ElsewhereKeepsQueue(mem: Memory, context: int, ns: seq<Word64>, a: int, data: seq<Byte>)
    requires Queue(mem, context, ns) && RangesApart(a, |data|, context, CONTEXT_SIZE)
    requires forall i :: 0 <= i < |ns| ==> RangesApart(a, |data|, ns[i], RECORD_SIZE)
    ensures Queue(GuestWrite(mem, a, data), context, ns)
    ensures forall i :: 0 <= i < |ns| ==> SamePayload(mem, GuestWrite(mem, a, data), ns[i])
  {
    hide GuestWrite, Next, Deadline, Handler, Argument, Active, Head, GuestReadable, RangesApart, Separate;
    var m := GuestWrite(mem, a, data);
    forall i | 0 <= i < |ns| ensures NodeOk(m, ns, i) && SamePayload(mem, m, ns[i]) {
      assert NodeOk(mem, ns, i);
      WriteElsewhere(mem, a, data, ns[i], 32);
      StillReadable(mem, a, data, ns[i], 32);
      RecordKept(mem, m, ns[i]);
    }
    WriteElsewhere(mem, a, data, context, 40);
    StillReadable(mem, a, data, context, 40);
    ContextKept(mem, m, context);
  }

  predicate Starts(op: Operation) {
    op == Start || op == Start64
  }

  lemma InsertUnfold(mem: Memory, context: Word64, ns: seq<Word64>, entry: Word64, due: Word64, handler: Word64,
                     argument: Word64)
    requires Queue(mem, context, ns) && |ns| <= MAX_WALK && Fresh(context, ns, entry)
    ensures var k := Position(mem, ns, Signed(due), 0);
            var record := RecordBytes(NodeAt(ns, k), handler, due, argument);
            Insert(mem, context, entry, due, handler, argument) ==
              if GuestReadable(mem, entry, RECORD_SIZE) then (Linked(mem, context, ns, k, entry, record), OK)
              else (GuestWrite(mem, entry, record), INVALID)
  {
    hide GuestWrite, Next, Deadline, Handler, Argument, Active, Encode, Bytes, RecordBytes, Sorted, Separate, Position,
         PlaceFrom, Fresh;
    var k := Position(mem, ns, Signed(due), 0);
    PlaceWalk(mem, context, ns, Signed(due), 0);
    var record := RecordBytes(NodeAt(ns, k), handler, due, argument);
    if k > 0 {
      assert NodeOk(mem, ns, k - 1);
      ReadableParts(mem, ns[k - 1]);
      StillReadable(mem, entry, record, ns[k - 1], 8);
    }
  }

  lemma CallStarts(mem: Memory, op: Operation, context: Word64, ns: seq<Word64>, entry: Word64, delay: Word64,
                   handler: Word64, argument: Word64, nowNs: nat)
    requires Starts(op) && entry != 0 && Queue(mem, context, ns)
    ensures Call(mem, op, context, entry, delay, handler, argument, nowNs) ==
            if entry in ns || |ns| > MAX_WALK then (mem, BUSY)
            else Insert(mem, context, entry, DueTime(op, nowNs, delay), handler, argument)
  {
    hide Insert, Sorted, Separate, NodeOk, Active, Head, Next, DueTime;
    CheckWalk(mem, context, ns, entry, 0);
    assert ns[0..] == ns;
    assert context != 0;
  }

  /** The due time in microseconds of the virtual clock: the 64-bit delay later, or with the first form of START the
      low half of it; it wraps at 64 bits and is read as a signed number. */
  lemma DueTimeParts(op: Operation, microseconds: nat, rest: nat, lo: Word, hi: Word)
    requires rest < 1000 && Starts(op)
    ensures var later := microseconds + lo + if op == Start64 then 0x1_0000_0000 * hi else 0;
            && (later < 0x8000_0000_0000_0000 ==>
                  Signed(DueTime(op, 1000 * microseconds + rest, Join64(lo, hi))) == later)
            && (0x8000_0000_0000_0000 <= later < 0x1_8000_0000_0000_0000 ==>
                  Signed(DueTime(op, 1000 * microseconds + rest, Join64(lo, hi))) == later - 0x1_0000_0000_0000_0000)
  {
    var delay := Join64(lo, hi);
    assert delay % 0x1_0000_0000 == lo;
    assert (1000 * microseconds + rest) / 1000 == microseconds;
  }

  /** What START leaves when it succeeds. */
  predicate Started(mem: Memory, m: Memory, context: int, ns: seq<Word64>, entry: Word64, due: int, handler: Word64,
                    argument: Word64)
  {
    Queue(m, context, Inserted(ns, Position(mem, ns, due, 0), entry)) &&
    Handler(m, entry) == handler && Deadline(m, entry) == due && Argument(m, entry) == argument &&
    forall i :: 0 <= i < |ns| ==> SamePayload(mem, m, ns[i])
  }

  lemma LinkedIsStarted(mem: Memory, context: int, ns: seq<Word64>, entry: Word64, due: Word64, handler: Word64,
                        argument: Word64)
    requires Queue(mem, context, ns) && |ns| <= MAX_WALK && Fresh(context, ns, entry)
    requires GuestReadable(mem, entry, RECORD_SIZE)
    ensures var k := Position(mem, ns, Signed(due), 0);
            Started(mem, Linked(mem, context, ns, k, entry, RecordBytes(NodeAt(ns, k), handler, due, argument)),
                    context, ns, entry, Signed(due), handler, argument)
  {
    hide GuestWrite, Next, Deadline, Handler, Argument, Active, Head, Encode, Bytes, RecordBytes, Sorted, Separate,
         GuestReadable, Linked, NodeOk, Fresh, SamePayload, Signed;
    var k := Position(mem, ns, Signed(due), 0);
    var record := RecordBytes(NodeAt(ns, k), handler, due, argument);
    var m := Linked(mem, context, ns, k, entry, record);
    forall i | 0 <= i < |ns| ensures Relinked(mem, m, ns, i, k, entry) && SamePayload(mem, m, ns[i]) {
      LinkedRecord(mem, context, ns, k, entry, record, i);
    }
    LinkedEntry(mem, context, ns, k, entry, NodeAt(ns, k), handler, due, argument);
    LinkedContext(mem, context, ns, k, entry, record);
    InsertedIsQueue(mem, m, context, ns, k, entry);
  }

  /** START adds exactly its entry, before the first record that is due no earlier; a record that is already
      listed, or a list of 257, is refused; an entry that cannot be written leaves the list as it was. */
  lemma StartAddsItsEntry(mem: Memory, op: Operation, context: Word64, ns: seq<Word64>, entry: Word64, delay: Word64,
                          handler: Word64, argument: Word64, nowNs: nat)
    requires Starts(op) && entry != 0 && Queue(mem, context, ns) && (entry in ns || Fresh(context, ns, entry))
    ensures var (m, r) := Call(mem, op, context, entry, delay, handler, argument, nowNs);
            if entry in ns || |ns| > MAX_WALK then m == mem && r == BUSY
            else if !GuestReadable(mem, entry, RECORD_SIZE) then r == INVALID && Queue(m, context, ns)
            else r == OK && Started(mem, m, context, ns, entry, Signed(DueTime(op, nowNs, delay)), handler, argument)
  {
    hide Queue, GuestWrite, RecordBytes, Position, Call, Insert, GuestReadable, Linked, DueTime, Started, Signed;
    CallStarts(mem, op, context, ns, entry, delay, handler, argument, nowNs);
    if !(entry in ns || |ns| > MAX_WALK) {
      var due := DueTime(op, nowNs, delay);
      InsertUnfold(mem, context, ns, entry, due, handler, argument);
      if GuestReadable(mem, entry, RECORD_SIZE) {
        LinkedIsStarted(mem, context, ns, entry, due, handler, argument);
      } else {
        var k := Position(mem, ns, Signed(due), 0);
        ElsewhereKeepsQueue(mem, context, ns, entry, RecordBytes(NodeAt(ns, k), handler, due, argument));
      }
    }
  }

  // ---------- STOP ----------

  function Removed(ns: seq<Word64>, k: nat): seq<Word64>
    requires k < |ns|
  {
    ns[..k] + ns[k + 1..]
  }

  lemma RemovedIsQueue(m0: Memory, m: Memory, context: int, ns: seq<Word64>, k: nat, link: Word64)
    requires Queue(m0, context, ns) && k < |ns| && link == NodeAt(ns, k + 1)
    requires forall i :: 0 <= i < |ns| ==> Relinked(m0, m, ns, i, k, link)
    requires GuestReadable(m, context, CONTEXT_SIZE) && Active(m, context) != 0
    requires Head(m, context) == if k == 0 then NodeAt(ns, 1) else Head(m0, context)
    ensures Queue(m, context, Removed(ns, k))
  {
    hide Next, Deadline, Handler, Argument, Active, Head, GuestReadable, RangesApart;
    var q := Removed(ns, k);
    forall i | 0 <= i < |q| ensures NodeOk(m, q, i) {
      var a := if i < k then i else i + 1;
      assert Relinked(m0, m, ns, a, k, link) && NodeOk(m0, ns, a);
    }
    forall i, j | 0 <= i < j < |q| ensures Deadline(m, q[i]) <= Deadline(m, q[j]) {
      var a, b := if i < k then i else i + 1, if j < k then j else j + 1;
      assert Relinked(m0, m, ns, a, k, link) && Relinked(m0, m, ns, b, k, link);
      assert q[i] == ns[a] && q[j] == ns[b];
    }
    RemovedSeparate(context, ns, k);
  }

  lemma RemovedSeparate(context: int, ns: seq<Word64>, k: nat)
    requires Separate(context, ns) && k < |ns|
    ensures Separate(context, Removed(ns, k))
  {
  }

  /** The memory after position `k` was unlinked. */
  function Unlinked(m0: Memory, context: int, ns: seq<Word64>, k: nat): Memory
    requires k < |ns|
  {
    if k == 0 then SetHead(m0, context, NodeAt(ns, 1)) else GuestWrite(m0, ns[k - 1], Encode(NodeAt(ns, k + 1), 8))
  }

  lemma UnlinkedIsQueue(m0: Memory, context: int, ns: seq<Word64>, k: nat)
    requires Queue(m0, context, ns) && k < |ns|
    ensures Queue(Unlinked(m0, context, ns, k), context, Removed(ns, k))
    ensures forall i :: 0 <= i < |ns| ==> SamePayload(m0, Unlinked(m0, context, ns, k), ns[i])
  {
    hide Next, Deadline, Handler, Argument, Active, Head, GuestReadable, Sorted, Encode, Bytes, GuestWrite, SamePayload;
    var m := Unlinked(m0, context, ns, k);
    var (a, data) := if k == 0 then (context, Bytes(m0, context, 32) + Encode(NodeAt(ns, 1), 8))
                     else (ns[k - 1] as int, Encode(NodeAt(ns, k + 1), 8));
    var link := NodeAt(ns, k + 1);
    assert m == GuestWrite(m0, a, data);
    forall i | 0 <= i < |ns| ensures Relinked(m0, m, ns, i, k, link) && SamePayload(m0, m, ns[i]) {
      assert NodeOk(m0, ns, i);
      StillReadable(m0, a, data, ns[i], 32);
      if i + 1 == k {
        LinkWritten(m0, a, NodeAt(ns, k + 1));
        PayloadKept(m0, m, ns[i]);
      } else {
        if k > 0 {
          NodesApart(context, ns, k - 1, i);
        }
        WriteElsewhere(m0, a, data, ns[i], 32);
        RecordKept(m0, m, ns[i]);
      }
    }
    StillReadable(m0, a, data, context, 40);
    if k == 0 {
      HeadWritten(m0, m0, context, NodeAt(ns, 1));
    } else {
      WriteElsewhere(m0, a, data, context, 40);
      ContextKept(m0, m, context);
    }
    RemovedIsQueue(m0, m, context, ns, k, link);
  }

  /** The report goes nowhere or to four bytes outside the context and the records. */
  predicate ReportApart(context: int, ns: seq<Word64>, removed: Word64) {
    removed == 0 ||
    (RangesApart(removed, 4, context, CONTEXT_SIZE) &&
     forall i :: 0 <= i < |ns| ==> RangesApart(removed, 4, ns[i], RECORD_SIZE))
  }

  lemma CallStops(mem: Memory, context: Word64, ns: seq<Word64>, entry: Word64, removed: Word64, handler: Word64,
                  argument: Word64, nowNs: nat)
    requires entry != 0 && Queue(mem, context, ns)
    ensures var r := Call(mem, Stop, context, entry, removed, handler, argument, nowNs);
            && (forall k :: 0 <= k < |ns| && k < MAX_WALK && ns[k] == entry ==>
                  r == Report(Unlinked(mem, context, ns, k), removed, 1))
            && ((forall k :: 0 <= k < |ns| && k < MAX_WALK ==> ns[k] != entry) ==> r == Report(mem, removed, 0))
  {
    hide Sorted, Separate, Active, Head, Next, Report, GuestWrite, SetHead, Encode;
    SearchWalk(mem, context, ns, entry, 0);
    assert context != 0;
    forall k | 0 <= k < |ns| ensures NodeOk(mem, ns, k) && ns[k] != 0 && GuestReadable(mem, ns[k], 8) {
      assert NodeOk(mem, ns, k);
      ReadableParts(mem, ns[k]);
    }
  }

  /** STOP unlinks exactly its entry when that is among the first 256, and reports 1; otherwise it changes
      nothing in the list and reports 0. */
  lemma StopUnlinksItsEntry(mem: Memory, context: Word64, ns: seq<Word64>, entry: Word64, removed: Word64,
                            handler: Word64, argument: Word64, nowNs: nat, k: nat)
    requires entry != 0 && Queue(mem, context, ns) && ReportApart(context, ns, removed)
    requires k < |ns| && k < MAX_WALK ==> ns[k] == entry
    requires k >= |ns| || k >= MAX_WALK ==> forall i :: 0 <= i < |ns| && i < MAX_WALK ==> ns[i] != entry
    ensures var (m, r) := Call(mem, Stop, context, entry, removed, handler, argument, nowNs);
            var found := k < |ns| && k < MAX_WALK;
            && Queue(m, context, if found then Removed(ns, k) else ns)
            && (forall i :: 0 <= i < |ns| ==> SamePayload(mem, m, ns[i]))
            && (r == OK <==> removed == 0 || GuestReadable(mem, removed, 4))
            && (removed != 0 && r == OK ==> Bytes(m, removed, 4) == Encode(if found then 1 else 0, 4))
  {
    hide Queue, Call, Unlinked, GuestWrite, Next, Encode, Bytes, SamePayload, GuestReadable, RangesApart;
    CallStops(mem, context, ns, entry, removed, handler, argument, nowNs);
    if k < |ns| && k < MAX_WALK {
      UnlinkedIsQueue(mem, context, ns, k);
      UnlinkedReadable(mem, context, ns, k, removed);
      ReportKeeps(mem, Unlinked(mem, context, ns, k), context, ns, Removed(ns, k), removed, 1);
    } else {
      forall i | 0 <= i < |ns| ensures SamePayload(mem, mem, ns[i]) {
        PayloadSelf(mem, ns[i]);
      }
      ReportKeeps(mem, mem, context, ns, ns, removed, 0);
    }
  }

  lemma UnlinkedReadable(m0: Memory, context: int, ns: seq<Word64>, k: nat, a: int)
    requires k < |ns|
    ensures GuestReadable(Unlinked(m0, context, ns, k), a, 4) <==> GuestReadable(m0, a, 4)
  {
    hide GuestWrite, Encode, Bytes, GuestReadable;
    StillReadable(m0, context, Bytes(m0, context, 32) + Encode(NodeAt(ns, 1), 8), a, 4);
    if k > 0 {
      StillReadable(m0, ns[k - 1], Encode(NodeAt(ns, k + 1), 8), a, 4);
    }
  }

  /** The report leaves the list `q`, whose records are some of `ns`, and the payloads alone. */
  lemma ReportKeeps(m0: Memory, mem: Memory, context: int, ns: seq<Word64>, q: seq<Word64>, removed: Word64,
                    value: Word)
    requires Queue(mem, context, q) && ReportApart(context, ns, removed) && (forall x :: x in q ==> x in ns)
    requires forall i :: 0 <= i < |ns| ==> SamePayload(m0, mem, ns[i])
    ensures var (m, r) := Report(mem, removed, value);
            && Queue(m, context, q) && (forall i :: 0 <= i < |ns| ==> SamePayload(m0, m, ns[i]))
            && (r == OK <==> removed == 0 || GuestReadable(mem, removed, 4))
            && (removed != 0 && r == OK ==> Bytes(m, removed, 4) == Encode(value, 4))
  {
    hide Queue, GuestWrite, Encode, Bytes, GuestReadable, SamePayload;
    if removed != 0 {
      var data := Encode(value, 4);
      var m := GuestWrite(mem, removed, data);
      forall i | 0 <= i < |q| ensures RangesApart(removed, 4, q[i], RECORD_SIZE) {
        assert q[i] in ns;
      }
      ElsewhereKeepsQueue(mem, context, q, removed, data);
      forall i | 0 <= i < |ns| ensures SamePayload(m0, m, ns[i]) {
        WriteElsewhere(mem, removed, data, ns[i], 32);
        RecordKept(mem, m, ns[i]);
        PayloadTrans(m0, mem, m, ns[i]);
      }
      if GuestReadable(mem, removed, 4) {
        WriteHere(mem, removed, data);
      }
    }
  }

  // ---------- INIT and TERM ----------

  lemma ActiveWritten(mem: Memory, context: int, data: seq<Byte>, active: Word, head: Word64)
    requires GuestReadable(mem, context, CONTEXT_SIZE) && |data| == CONTEXT_SIZE
    requires data[24..28] == Encode(active, 4) && data[32..40] == Encode(head, 8)
    ensures var m := GuestWrite(mem, context, data); Active(m, context) == active && Head(m, context) == head
  {
    hide Encode, U64At, GuestWrite;
    var m := GuestWrite(mem, context, data);
    WriteHere(mem, context, data);
    U64Of(m, context, 40, 32, head);
    forall x | context + 24 <= x < context + 28 ensures ByteAt(m, x) == Encode(active, 4)[x - (context + 24)] {
      assert Bytes(m, context, 40)[x - context] == data[24..28][x - (context + 24)];
    }
    EncodedWord(active);
  }

  /** INIT makes an inactive context the head of an empty list. */
  lemma InitMakesAnEmptyList(mem: Memory, context: Word64, entry: Word64, delay: Word64, handler: Word64,
                             argument: Word64, nowNs: nat)
    requires GuestReadable(mem, context, CONTEXT_SIZE) && Active(mem, context) == 0
    ensures var (m, r) := Call(mem, Init, context, entry, delay, handler, argument, nowNs);
            r == OK && Queue(m, context, [])
  {
    hide GuestWrite, Encode, Active, Head;
    var data := ContextBytes(Zeros(24), 1, 0, 0);
    ActiveWritten(mem, context, data, 1, 0);
    StillReadable(mem, context, data, context, CONTEXT_SIZE);
  }

  /** After TERM every call but INIT is refused and changes nothing. */
  lemma TermDeactivates(mem: Memory, context: Word64, ns: seq<Word64>, entry: Word64, delay: Word64, handler: Word64,
                        argument: Word64, nowNs: nat, op: Operation)
    requires Queue(mem, context, ns)
    ensures var (m, r) := Call(mem, Term, context, entry, delay, handler, argument, nowNs);
            r == OK && (op != Init ==> Call(m, op, context, entry, delay, handler, argument, nowNs) == (m, INVALID))
  {
    hide GuestWrite, Encode, Bytes, Unlink, Insert, Head;
    var data := ContextBytes(Bytes(mem, context, 24), 0, 1, 0);
    ActiveWritten(mem, context, data, 0, 0);
    StillReadable(mem, context, data, context, CONTEXT_SIZE);
  }

  // ---------- runs ----------

  datatype Request = Request(op: Operation, entry: Word64, delay: Word64, handler: Word64, argument: Word64, nowNs: nat)

  function Run(mem: Memory, context: Word64, calls: seq<Request>): Memory
    decreases |calls|
  {
    if calls == [] then mem
    else
      var c := calls[|calls| - 1];
      Call(Run(mem, context, calls[..|calls| - 1]), c.op, context, c.entry, c.delay, c.handler, c.argument, c.nowNs).0
  }

  /** The records lie apart from each other and from the context. */
  predicate Family(context: Word64, records: set<Word64>) {
    (forall x :: x in records ==> RangesApart(context, CONTEXT_SIZE, x, RECORD_SIZE)) &&
    (forall x, y :: x in records && y in records && x != y ==> RangesApart(x, RECORD_SIZE, y, RECORD_SIZE))
  }

  /** Starts and stops records of the family; reports go elsewhere. */
  predicate Mannered(context: Word64, records: set<Word64>, c: Request) {
    c.op != Init && c.op != Term && c.entry != 0 && c.entry in records &&
    (c.op == Stop && c.delay != 0 ==>
       RangesApart(c.delay, 4, context, CONTEXT_SIZE) && forall x :: x in records ==>
           RangesApart(c.delay, 4, x, RECORD_SIZE))
  }

  lemma CallKeepsList(mem: Memory, context: Word64, ns: seq<Word64>, records: set<Word64>, c: Request)
    returns (q: seq<Word64>)
    requires Queue(mem, context, ns) && Family(context, records) && (forall x :: x in ns ==> x in records)
    requires Mannered(context, records, c)
    ensures Queue(Call(mem, c.op, context, c.entry, c.delay, c.handler, c.argument, c.nowNs).0, context, q)
    ensures forall x :: x in q ==> x in records
  {
    hide Queue, Call, DueTime, RangesApart, GuestReadable, Signed, Started, Position;
    if c.op == Stop {
      if i: nat :| i < |ns| && i < MAX_WALK && ns[i] == c.entry {
        StopUnlinksItsEntry(mem, context, ns, c.entry, c.delay, c.handler, c.argument, c.nowNs, i);
        q := Removed(ns, i);
      } else {
        StopUnlinksItsEntry(mem, context, ns, c.entry, c.delay, c.handler, c.argument, c.nowNs, |ns|);
        q := ns;
      }
    } else {
      if c.entry !in ns {
        FamilyFresh(context, ns, records, c.entry);
      }
      StartAddsItsEntry(mem, c.op, context, ns, c.entry, c.delay, c.handler, c.argument, c.nowNs);
      var due := Signed(DueTime(c.op, c.nowNs, c.delay));
      if c.entry in ns || |ns| > MAX_WALK || !GuestReadable(mem, c.entry, RECORD_SIZE) {
        q := ns;
      } else {
        q := Inserted(ns, Position(mem, ns, due, 0), c.entry);
        StartedQueue(mem, Call(mem, c.op, context, c.entry, c.delay, c.handler, c.argument, c.nowNs).0,
                     context, ns, c.entry, due, c.handler, c.argument);
      }
    }
  }

  lemma StartedQueue(mem: Memory, m: Memory, context: int, ns: seq<Word64>, entry: Word64, due: int, handler: Word64,
                     argument: Word64)
    requires Started(mem, m, context, ns, entry, due, handler, argument)
    ensures Queue(m, context, Inserted(ns, Position(mem, ns, due, 0), entry))
  {
  }

  lemma FamilyFresh(context: Word64, ns: seq<Word64>, records: set<Word64>, entry: Word64)
    requires Family(context, records) && (forall x :: x in ns ==> x in records) && entry in records && entry !in ns
    ensures Fresh(context, ns, entry)
  {
    forall i | 0 <= i < |ns| ensures RangesApart(ns[i], RECORD_SIZE, entry, RECORD_SIZE) {
      assert ns[i] in records;
    }
  }

  /** Whatever is started and stopped, the context heads an acyclic, duplicate-free list of at most 257 records
      of the family, sorted by signed deadline. */
  lemma {:induction false} RunsKeepTheList(mem: Memory, context: Word64, records: set<Word64>, calls: seq<Request>)
    returns (ns: seq<Word64>)
    requires Queue(mem, context, []) && Family(context, records)
    requires forall i :: 0 <= i < |calls| ==> Mannered(context, records, calls[i])
    ensures Queue(Run(mem, context, calls), context, ns) && |ns| <= MAX_NODES
    ensures forall x :: x in ns ==> x in records
    decreases |calls|
  {
    hide Call, Family, Mannered;
    if calls == [] {
      ns := [];
    } else {
      var before := RunsKeepTheList(mem, context, records, calls[..|calls| - 1]);
      ns := CallKeepsList(Run(mem, context, calls[..|calls| - 1]), context, before, records, calls[|calls| - 1]);
    }
  }
}
