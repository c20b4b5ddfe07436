/** What the memory packets leave in guest memory when they succeed. */
module Pm4Effects {
  import opened GuestMemory
  import opened Pm4
  import opened Pm4Inlining

  lemma WholeStore(mem: Memory, a: int, data: seq<Byte>)
    requires Readable(mem, a, |data|)
    ensures forall x :: a <= x < a + |data| ==> ByteAt(Store(mem, a, data), x) == data[x - a]
  {
    if |data| > 0 {
      assert MappedPrefix(mem, a, |data|) == |data|;
    }
  }

  lemma SameWordAt(m1: Memory, m2: Memory, a: int)
    requires SameBytes(m1, m2, Buffer(a, 4))
    ensures WordAt(m1, a) == WordAt(m2, a)
  {
    hide Word32;
    assert forall x :: a <= x < a + 4 ==> ByteAt(m1, x) == ByteAt(m2, x);
  }

  lemma {:induction false} WordsStored(mem: Memory, address: Word64, words: seq<Word>, i: nat)
    requires address + 4 * |words| <= TWO_64 && WriteWords(mem, address, false, words, i).1
    ensures forall k: nat :: i <= k < |words| ==>
            WordAt(WriteWords(mem, address, false, words, i).0, address + 4 * k) == words[k]
    decreases |words| - i
  {
    hide Encode, Store, WordAt, Readable;
    if i < |words| {
      var a := address + 4 * i;
      var after := Store(mem, a, Encode(words[i], 4));
      StoredWord(mem, a, words[i]);
      WordsStored(after, address, words, i + 1);
      forall k: nat | i + 1 <= k < |words| ensures WordAvoids(address, false, k, Buffer(a, 4)) {
      }
      WriteWordsFrame(after, address, false, words, i + 1, Buffer(a, 4));
      SameWordAt(after, WriteWords(after, address, false, words, i + 1).0, a);
    }
  }

  lemma {:induction false} LastWordStored(mem: Memory, address: Word64, words: seq<Word>, i: nat)
    requires i < |words| && WriteWords(mem, address, true, words, i).1
    ensures WordAt(WriteWords(mem, address, true, words, i).0, address) == words[|words| - 1]
    decreases |words| - i
  {
    hide Encode, Store, WordAt, Readable;
    var after := Store(mem, address, Encode(words[i], 4));
    StoredWord(mem, address, words[i]);
    if i + 1 < |words| {
      LastWordStored(after, address, words, i + 1);
    }
  }

  /** A WRITE_DATA that succeeds leaves its words at consecutive addresses, or the last one at its one address. */
  lemma WriteDataStores(st: Machine, p: seq<Word>)
    requires |p| > 4 && ExecWriteData(st, p).failure.None?
    ensures var after := ExecWriteData(st, p).st.mem; var address := Join64(p[2], p[3]);
            if Field(p[1], 0x1_0000, 2) == 1 then WordAt(after, address) == p[|p| - 1]
            else address + 4 * (|p| - 4) <= TWO_64 ==>
                   forall k: nat :: k < |p| - 4 ==> WordAt(after, address + 4 * k) == p[4 + k]
  {
    hide WriteWords, WordAt, Field;
    var address := Join64(p[2], p[3]);
    var words := p[4..];
    if Field(p[1], 0x1_0000, 2) == 1 {
      LastWordStored(st.mem, address, words, 0);
    } else if address + 4 * |words| <= TWO_64 {
      WordsStored(st.mem, address, words, 0);
      forall k: nat | k < |p| - 4 ensures WordAt(ExecWriteData(st, p).st.mem, address + 4 * k) == p[4 + k] {
        assert words[k] == p[4 + k];
      }
    }
  }

  function PatternByte(value: Word, k: nat): Byte {
    Encode(value, 4)[k % 4]
  }

  /** From the `done`-th byte on, the destination holds the repeated value. */
  predicate HoldsPattern(m: Memory, destination: Word64, value: Word, size: nat, done: nat) {
    forall x :: destination + done <= x < destination + size ==> ByteAt(m, x) == PatternByte(value, x - destination)
  }

  lemma {:induction false} Filled(mem: Memory, destination: Word64, value: Word, size: nat, done: nat)
    requires destination + size <= TWO_64 && done % 4 == 0 && FillBytes(mem, destination, value, size, done).1
    ensures HoldsPattern(FillBytes(mem, destination, value, size, done).0, destination, value, size, done)
    decreases size - done
  {
    hide Encode, Store, Readable, HoldsPattern;
    if done + 4 < size {
      var a := destination + done;
      var data := Encode(value, 4)[..4];
      var after := Store(mem, a, data);
      Filled(after, destination, value, size, done + 4);
      FillTail(after, destination, value, size, done + 4, Buffer(a, 4));
      ChunkStored(mem, FillBytes(after, destination, value, size, done + 4).0, destination, value, size, done, 4);
    } else if done < size {
      var chunk := size - done;
      var after := Store(mem, destination + done, Encode(value, 4)[..chunk]);
      assert FillBytes(after, destination, value, size, size).0 == after;
      PatternEnds(after, destination, value, size, size);
      ChunkStored(mem, after, destination, value, size, done, chunk);
    } else {
      PatternEnds(mem, destination, value, size, done);
    }
  }

  lemma PatternEnds(m: Memory, destination: Word64, value: Word, size: nat, done: nat)
    requires size <= done
    ensures HoldsPattern(m, destination, value, size, done)
  {
  }

  lemma ChunkStored(mem: Memory, m: Memory, destination: Word64, value: Word, size: nat, done: nat, chunk: nat)
    requires done % 4 == 0 && 0 < chunk <= 4 && done + chunk <= size && Readable(mem, destination + done, chunk)
    requires SameBytes(m, Store(mem, destination + done, Encode(value, 4)[..chunk]), Buffer(destination + done, chunk))
    requires HoldsPattern(m, destination, value, size, done + chunk)
    ensures HoldsPattern(m, destination, value, size, done)
  {
    hide Encode, Store, Readable;
    var a := destination + done;
    var data := Encode(value, 4)[..chunk];
    WholeStore(mem, a, data);
    forall x | a <= x < a + chunk ensures ByteAt(m, x) == PatternByte(value, x - destination) {
      assert ByteAt(m, x) == ByteAt(Store(mem, a, data), x) == data[x - a];
      assert (x - destination) % 4 == x - a;
    }
  }

  lemma {:induction false} FillTail(mem: Memory, destination: Word64, value: Word, size: nat, done: nat, b: Buffer)
    requires destination + size <= TWO_64 && b.address + b.size <= destination + done
    ensures SameBytes(FillBytes(mem, destination, value, size, done).0, mem, b)
    decreases size - done
  {
    hide Encode, Store, Readable;
    if done < size {
      var chunk := if size - done < 4 then size - done else 4;
      var data := Encode(value, 4)[..chunk];
      StoreFrame(mem, destination + done, data, b);
      FillTail(Store(mem, destination + done, data), destination, value, size, done + chunk, b);
    }
  }

  /** A DMA_DATA that succeeds leaves the repeated value, or the bytes the source held before, at its destination. */
  lemma DmaMoves(st: Machine, p: seq<Word>)
    requires |p| > 6 && p[4] != 0x3022c && ExecDma(st, p).failure.None?
    ensures var after := ExecDma(st, p).st.mem;
            var source, destination, size := Join64(p[2], p[3]), Join64(p[4], p[5]), p[6] % 0x20_0000;
            destination + size <= TWO_64 ==>
              forall x :: destination <= x < destination + size ==>
                ByteAt(after, x) ==
                  if Field(p[1], 0x2000_0000, 4) == 2 then PatternByte(p[2], x - destination)
                  else ByteAt(st.mem, source + (x - destination))
  {
    hide FillBytes, CopyBytes, Encode, Field;
    var source, destination, size := Join64(p[2], p[3]), Join64(p[4], p[5]), p[6] % 0x20_0000;
    if destination + size <= TWO_64 {
      if Field(p[1], 0x2000_0000, 4) == 2 {
        Filled(st.mem, destination, p[2], size, 0);
      } else {
        Copied(st.mem, destination, source, size);
      }
    }
  }

  lemma Copied(mem: Memory, destination: Word64, source: Word64, size: nat)
    requires CopyBytes(mem, destination, source, size).1
    ensures forall x :: destination <= x < destination + size ==>
              ByteAt(CopyBytes(mem, destination, source, size).0, x) == ByteAt(mem, source + (x - destination))
  {
    hide Store;
    if size > 0 {
      WholeStore(mem, destination, Load(mem, source, size));
    }
  }

  /** An EVENT_WRITE_EOP that succeeds leaves its value, or the time it read, in four or eight bytes; the clock
      is read exactly when the selector asks for the time. */
  lemma EopWrites(clock: nat -> Word64, st: Machine, p: seq<Word>)
    requires |p| > 5 && ExecEop(clock, st, p).failure.None?
    ensures var e := ExecEop(clock, st, p);
            var select, address := Field(p[3], 0x2000_0000, 8), Address48(p[2], p[3]);
            && select <= 4
            && e.st.ticks == st.ticks + (if select >= 3 then 1 else 0)
            && (select == 0 ==> e.st.mem == st.mem)
            && (select == 1 ==> WordAt(e.st.mem, address) == p[4])
            && (select == 2 ==> Peeks(e.st.mem, address, Join64(p[4], p[5])))
            && (select >= 3 ==> Peeks(e.st.mem, address, clock(st.ticks)))
  {
    hide Encode, Store, Field, WordAt;
    var select, address := Field(p[3], 0x2000_0000, 8), Address48(p[2], p[3]);
    if select == 0 {
      StoreNothing(st.mem, address, Join64(p[4], p[5]));
    } else if select == 1 {
      EncodeLow(p[4], p[5]);
      StoredWord(st.mem, address, p[4]);
    } else {
      WholeStore(st.mem, address, Encode(if select == 2 then Join64(p[4], p[5]) else clock(st.ticks), 8));
    }
  }

  /** The eight bytes hold the value. */
  predicate Peeks(mem: Memory, address: int, value: Word64) {
    forall x :: address <= x < address + 8 ==> ByteAt(mem, x) == Encode(value, 8)[x - address]
  }

  lemma StoreNothing(mem: Memory, address: int, value: Word64)
    ensures Store(mem, address, Encode(value, 0)) == mem
  {
  }

  lemma ByteCarry(v: nat, m: nat)
    ensures (v + 0x100 * m) % 0x100 == v % 0x100 && (v + 0x100 * m) / 0x100 == v / 0x100 + m
  {
  }

  lemma TimesAssociates(a: nat, b: nat, c: nat)
    ensures (a * b) * c == a * (b * c)
  {
  }

  /** Bytes above the encoded ones do not matter. */
  lemma {:induction false} EncodeLowBytes(v: nat, k: nat, size: nat)
    ensures Encode(v + Pow256(size) * k, size) == Encode(v, size)
    decreases size
  {
    if size > 0 {
      var p := Pow256(size - 1);
      ByteCarry(v, p * k);
      assert Pow256(size) * k == 0x100 * (p * k) by {
        TimesAssociates(0x100, p, k);
      }
      EncodeLowBytes(v / 0x100, k, size - 1);
    }
  }

  /** The low four bytes of a pair of words are the first word. */
  lemma EncodeLow(lo: Word, hi: Word)
    ensures Encode(Join64(lo, hi), 4) == Encode(lo, 4)
  {
    hide Encode;
    Pow256Constants();
    EncodeLowBytes(lo, hi, 4);
  }
}
