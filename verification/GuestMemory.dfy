/** Guest memory as the emulator reaches it: a map from mapped byte addresses to bytes.
    A write that runs into an unmapped byte has already stored the bytes before it. */
module GuestMemory {

  type Byte = b: int | 0 <= b < 0x100
  type Word = w: int | 0 <= w < 0x1_0000_0000
  type Word64 = w: int | 0 <= w < 0x1_0000_0000_0000_0000

  const TWO_64: int := 0x1_0000_0000_0000_0000

  type Memory = map<int, Byte>

  /** Unsigned 64-bit addition as C performs it. */
  function Wrap64(a: int): (r: Word64)
    ensures 0 <= a < TWO_64 ==> r == a
  {
    a % TWO_64
  }

  function Join64(lo: Word, hi: Word): Word64 {
    lo + hi * 0x1_0000_0000
  }

  /** Little-endian bytes of the low 8 * `size` bits of `value`. */
  function Encode(value: nat, size: nat): (s: seq<Byte>)
    ensures |s| == size
    decreases size
  {
    if size == 0 then [] else [value % 0x100] + Encode(value / 0x100, size - 1)
  }

  function Decode(s: seq<Byte>): nat {
    if |s| == 0 then 0 else s[0] + 0x100 * Decode(s[1..])
  }

  function Pow256(n: nat): (p: nat)
    ensures p > 0
  {
    if n == 0 then 1 else 0x100 * Pow256(n - 1)
  }

  /** Storing and loading an integer of `size` bytes gives the integer back. */
  lemma {:induction false} DecodeEncode(value: nat, size: nat)
    requires value < Pow256(size)
    ensures Decode(Encode(value, size)) == value
  {
    if size > 0 {
      assert Encode(value, size)[1..] == Encode(value / 0x100, size - 1);
      DecodeEncode(value / 0x100, size - 1);
    }
  }

  lemma Pow256Constants()
    ensures Pow256(4) == 0x1_0000_0000
    ensures Pow256(8) == TWO_64
  {
    assert Pow256(2) == 0x1_0000;
    assert Pow256(4) == 0x1_0000 * Pow256(2);
    assert Pow256(6) == 0x1_0000 * Pow256(4);
    assert Pow256(8) == 0x1_0000 * Pow256(6);
  }

  /** The address range is usable: not null and not past the end of the address space. */
  predicate InAddressSpace(address: int, size: nat) {
    0 < address && address + size <= TWO_64
  }

  predicate Readable(mem: Memory, address: int, size: nat) {
    size == 0 ||
    (InAddressSpace(address, size) && forall a :: address <= a < address + size ==> a in mem)
  }

  function Load(mem: Memory, address: int, size: nat): (s: seq<Byte>)
    requires Readable(mem, address, size)
    ensures |s| == size
    ensures forall i :: 0 <= i < size ==> s[i] == mem[address + i]
  {
    seq(size, i requires 0 <= i < size => mem[address + i])
  }

  /** How many of the `size` bytes at `address` are mapped before the first hole. */
  function MappedPrefix(mem: Memory, address: int, size: nat): (n: nat)
    ensures n <= size
    ensures forall a :: address <= a < address + n ==> a in mem
    ensures n < size ==> address + n !in mem
    decreases size
  {
    if size == 0 || address !in mem then 0 else 1 + MappedPrefix(mem, address + 1, size - 1)
  }

  /** The memory after an attempted write. */
  function Store(mem: Memory, address: int, data: seq<Byte>): (m: Memory)
    ensures m.Keys == mem.Keys
  {
    if |data| == 0 || !InAddressSpace(address, |data|) then mem
    else
      var n := MappedPrefix(mem, address, |data|);
      map a | a in mem :: if address <= a < address + n then data[a - address] else mem[a]
  }

  /** A stretch of guest memory. */
  datatype Buffer = Buffer(address: int, size: nat)

  ghost predicate SameBytes(m1: Memory, m2: Memory, b: Buffer) {
    forall a :: b.address <= a < b.address + b.size ==> (a in m1 <==> a in m2) && (a in m1 ==> m1[a] == m2[a])
  }

  ghost predicate Agree(m1: Memory, m2: Memory, buffers: set<Buffer>) {
    forall b :: b in buffers ==> SameBytes(m1, m2, b)
  }

  predicate Disjoint(b: Buffer, c: Buffer) {
    b.address + b.size <= c.address || c.address + c.size <= b.address
  }

  lemma StoreFrame(mem: Memory, address: int, data: seq<Byte>, b: Buffer)
    requires Disjoint(Buffer(address, |data|), b)
    ensures SameBytes(Store(mem, address, data), mem, b)
  {
  }

  /** A whole write followed by a read of the same range gives the data back. */
  lemma LoadStore(mem: Memory, address: int, data: seq<Byte>)
    requires Readable(mem, address, |data|)
    ensures Readable(Store(mem, address, data), address, |data|)
    ensures Load(Store(mem, address, data), address, |data|) == data
  {
    if |data| > 0 {
      var n := MappedPrefix(mem, address, |data|);
      assert n == |data|;
    }
  }

  /** Every byte of the range is mapped. */
  predicate Mapped(mem: Memory, address: int, size: nat) {
    forall a :: address <= a < address + size ==> a in mem
  }

  function Peek(mem: Memory, address: int, size: nat): (s: seq<Byte>)
    requires Mapped(mem, address, size)
    ensures |s| == size
  {
    seq(size, i requires 0 <= i < size => mem[address + i])
  }

  /** Memory with the mapped bytes of the range replaced. */
  function Poke(mem: Memory, address: int, data: seq<Byte>): (m: Memory)
    ensures m.Keys == mem.Keys
  {
    map a | a in mem :: if address <= a < address + |data| then data[a - address] else mem[a]
  }

  lemma PeekPoke(mem: Memory, address: int, data: seq<Byte>)
    requires Mapped(mem, address, |data|)
    ensures Mapped(Poke(mem, address, data), address, |data|)
    ensures Peek(Poke(mem, address, data), address, |data|) == data
  {
  }

  function Word32(b0: int, b1: int, b2: int, b3: int): (w: Word)
    requires 0 <= b0 < 0x100 && 0 <= b1 < 0x100 && 0 <= b2 < 0x100 && 0 <= b3 < 0x100
  {
    b0 + 0x100 * b1 + 0x1_0000 * b2 + 0x100_0000 * b3
  }

  /** The four bytes of a word make the word again. */
  lemma EncodedWord(w: Word)
    ensures var e := Encode(w, 4); Word32(e[0], e[1], e[2], e[3]) == w
  {
    var w1 := w / 0x100;
    var w2 := w1 / 0x100;
    var w3 := w2 / 0x100;
    assert Encode(w3, 1) == [w3 % 0x100];
    assert Encode(w2, 2) == [w2 % 0x100, w3 % 0x100];
    assert Encode(w1, 3) == [w1 % 0x100, w2 % 0x100, w3 % 0x100];
    assert Encode(w, 4) == [w % 0x100, w1 % 0x100, w2 % 0x100, w3 % 0x100];
  }

  function ByteAt(mem: Memory, a: int): Byte {
    if a in mem then mem[a] else 0
  }

  function WordAt(mem: Memory, address: int): Word {
    Word32(ByteAt(mem, address), ByteAt(mem, address + 1), ByteAt(mem, address + 2), ByteAt(mem, address + 3))
  }

  lemma StoredWord(mem: Memory, a: int, w: Word)
    requires Readable(mem, a, 4)
    ensures WordAt(Store(mem, a, Encode(w, 4)), a) == w
  {
    hide Encode, Word32;
    LoadStore(mem, a, Encode(w, 4));
    EncodedWord(w);
  }

  /** The `count` little-endian 32-bit words at `address`. */
  function LoadWords(mem: Memory, address: int, count: nat): (w: seq<Word>)
    ensures |w| == count
    decreases count
  {
    if count == 0 then []
    else
      var word := WordAt(mem, address);
      [word] + LoadWords(mem, address + 4, count - 1)
  }

  lemma {:induction false} LoadWordsAgree(m1: Memory, m2: Memory, address: int, count: nat)
    requires SameBytes(m1, m2, Buffer(address, 4 * count))
    ensures Readable(m1, address, 4 * count) <==> Readable(m2, address, 4 * count)
    ensures LoadWords(m1, address, count) == LoadWords(m2, address, count)
    decreases count
  {
    hide Word32;
    if count > 0 {
      assert forall a :: address <= a < address + 4 ==> ByteAt(m1, a) == ByteAt(m2, a);
      LoadWordsAgree(m1, m2, address + 4, count - 1);
    }
  }

  function Zeros(n: nat): (s: seq<Byte>)
    ensures |s| == n && forall i :: 0 <= i < n ==> s[i] == 0
  {
    seq(n, _ => 0)
  }
}
