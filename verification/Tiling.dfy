/** GCN tiled-image addressing: where the texel (x, y) of a slice lies in guest memory. */
module Tiling {
  import opened Arithmetic
  import opened GuestMemory

  /** The fields of an image resource that addressing depends on. */
  datatype Layout = Layout(pitch: nat, bytes: nat, tilingMode: nat, arrayMode: nat, microTileMode: nat,
                           microTileThickness: nat, pipeConfig: nat, bankWidth: nat, bankHeight: nat,
                           numBanks: nat, aspect: nat, bankSwizzle: Word)

  /** What the image descriptor decoder can produce. */
  predicate Supported(r: Layout) {
    r.pitch <= 0x1_0000 &&
    (r.bytes == 1 || r.bytes == 2 || r.bytes == 4 || r.bytes == 8 || r.bytes == 16) &&
    (IsMacroTiled(r) ==>
       r.bankWidth <= 8 && r.bankHeight <= 8 &&
       (r.numBanks == 2 || r.numBanks == 4 || r.numBanks == 8 || r.numBanks == 16) &&
       (r.aspect == 1 || r.aspect == 2 || r.aspect == 4 || r.aspect == 8) && r.aspect <= r.numBanks)
  }

  predicate IsMacroTiled(r: Layout) {
    r.arrayMode == 4 && r.microTileThickness == 1 && r.bankWidth != 0 && r.bankHeight != 0 &&
    r.numBanks != 0 && r.aspect != 0
  }

  predicate IsMicroTiled(r: Layout) {
    r.tilingMode == 5 || r.tilingMode == 9 || r.tilingMode == 13
  }

  function Bit(n: nat, unit: nat): (b: nat)
    requires unit > 0
    ensures b < 2
  {
    n / unit % 2
  }

  function Xor(a: nat, b: nat): (c: nat)
    ensures c < 2
  {
    (a + b) % 2
  }

  /** Six bits, the first of them the least significant. */
  function SixBits(b0: nat, b1: nat, b2: nat, b3: nat, b4: nat, b5: nat): nat {
    b0 + 2 * b1 + 4 * b2 + 8 * b3 + 16 * b4 + 32 * b5
  }

  function MicroPixel(r: Layout, x: nat, y: nat): (p: nat)
    ensures p < 64
  {
    var x0, x1, x2 := Bit(x, 1), Bit(x, 2), Bit(x, 4);
    var y0, y1, y2 := Bit(y, 1), Bit(y, 2), Bit(y, 4);
    if r.microTileMode != 0 then SixBits(x0, y0, x1, y1, x2, y2)
    else if r.bytes == 1 then SixBits(x0, x1, x2, y1, y0, y2)
    else if r.bytes == 2 then SixBits(x0, x1, x2, y0, y1, y2)
    else if r.bytes == 4 then SixBits(x0, x1, y0, x2, y1, y2)
    else if r.bytes == 8 then SixBits(x0, y0, x1, x2, y1, y2)
    else SixBits(y0, x0, x1, x2, y1, y2)
  }

  function Pipes(r: Layout): (p: nat)
    ensures p == 2 || p == 8
  {
    if r.pipeConfig == 0 then 2 else 8
  }

  function TiledPipe(r: Layout, x: nat, y: nat): (p: nat)
    ensures p < Pipes(r)
  {
    var tx, ty := x / 8, y / 8;
    var x3, x4, x5 := Bit(tx, 1), Bit(tx, 2), Bit(tx, 4);
    var y3, y4, y5 := Bit(ty, 1), Bit(ty, 2), Bit(ty, 4);
    if r.pipeConfig == 0 then Xor(x3, y3)
    else if r.pipeConfig == 10 then Xor(Xor(x4, y3), x5) + 2 * Xor(x3, y4) + 4 * Xor(x5, y5)
    else Xor(Xor(x3, y3), x4) + 2 * Xor(x4, y4) + 4 * Xor(x5, y5)
  }

  /** The bank bits before slice rotation and swizzle. */
  function BankBit(banks: nat, tx: nat, ty: nat, i: nat): (b: nat)
    requires i < 4
    ensures b < 2
  {
    var x3, x4, x5, x6 := Bit(tx, 1), Bit(tx, 2), Bit(tx, 4), Bit(tx, 8);
    var y3, y4, y5, y6 := Bit(ty, 1), Bit(ty, 2), Bit(ty, 4), Bit(ty, 8);
    if banks == 16 then
      if i == 0 then Xor(x3, y6)
      else if i == 1 then Xor(Xor(x4, y5), y6)
      else if i == 2 then Xor(x5, y4)
      else Xor(x6, y3)
    else if banks == 8 then
      if i == 0 then Xor(x3, y5) else if i == 1 then Xor(Xor(x4, y4), y5) else if i == 2 then Xor(x5, y3) else 0
    else if banks == 4 then
      if i == 0 then Xor(x3, y4) else if i == 1 then Xor(x4, y3) else 0
    else if i == 0 then Xor(x3, y3) else 0
  }

  function Unit(i: nat): (u: nat)
    requires i < 4
    ensures u > 0
  {
    if i == 0 then 1 else if i == 1 then 2 else if i == 2 then 4 else 8
  }

  /** Bit i of the bank number after both exclusive-ors and the mask. */
  function FinalBankBit(r: Layout, tx: nat, ty: nat, slice: nat, i: nat): (b: nat)
    requires i < 4
    ensures b < 2
  {
    if Unit(i) >= r.numBanks then 0
    else
      var rotation := if r.arrayMode == 4 then Bit(Times(r.numBanks / 2 - 1, slice), Unit(i)) else 0;
      Xor(Xor(BankBit(r.numBanks, tx, ty, i), rotation), Bit(r.bankSwizzle, Unit(i)))
  }

  function TiledBank(r: Layout, x: nat, y: nat, slice: nat): (bank: nat)
    requires r.bankWidth > 0 && r.bankHeight > 0
    ensures bank < 16
  {
    var tx := Quot(x / 8, Times(r.bankWidth, Pipes(r)));
    var ty := Quot(y / 8, r.bankHeight);
    FinalBankBit(r, tx, ty, slice, 0) + 2 * FinalBankBit(r, tx, ty, slice, 1) +
    4 * FinalBankBit(r, tx, ty, slice, 2) + 8 * FinalBankBit(r, tx, ty, slice, 3)
  }

  function RoundUp(n: nat, unit: nat): nat
    requires unit > 0
  {
    Times(Quot(n + unit - 1, unit), unit)
  }

  function MacroPitch(r: Layout): nat {
    8 * Times(Times(r.bankWidth, Pipes(r)), r.aspect)
  }

  function MacroHeight(r: Layout): nat
    requires r.aspect > 0
  {
    Quot(8 * Times(r.bankHeight, r.numBanks), r.aspect)
  }

  function MacroBytes(r: Layout): nat
    requires r.aspect > 0 && r.numBanks > 0
  {
    Quot(Times(Times(64 * r.bytes, MacroPitch(r) / 8), MacroHeight(r) / 8), Times(Pipes(r), r.numBanks))
  }

  /** The macro tiles in one row of the padded image. */
  function MacroColumns(r: Layout): nat
    requires MacroPitch(r) > 0
  {
    Quot(RoundUp(r.pitch, MacroPitch(r)), MacroPitch(r))
  }

  function TileRow(r: Layout, y: nat): (n: nat)
    requires r.bankHeight > 0
    ensures n < r.bankHeight
  {
    Rem(y / 8, r.bankHeight)
  }

  function TileColumn(r: Layout, x: nat): (n: nat)
    requires r.bankWidth > 0
    ensures n < r.bankWidth
  {
    Rem(x / 8 / Pipes(r), r.bankWidth)
  }

  /** The address inside one pipe and bank, before 32-bit arithmetic wraps it. */
  function MacroTotal(r: Layout, x: nat, y: nat): nat
    requires r.bankWidth > 0 && r.bankHeight > 0 && r.aspect > 0 && r.numBanks > 0
    requires MacroPitch(r) > 0 && MacroHeight(r) > 0
  {
    Times(Times(Quot(y, MacroHeight(r)), MacroColumns(r)) + Quot(x, MacroPitch(r)), MacroBytes(r)) +
    Times(MicroPixel(r, x, y), r.bytes) +
    Times(Times(TileRow(r, y), r.bankWidth) + TileColumn(r, x), 64 * r.bytes)
  }

  /** The pipe and bank numbers go between the low eight bits of the total and the rest of it. */
  function Interleave(r: Layout, total: nat, pipe: nat, bank: nat): nat {
    total % 0x100 + 0x100 * (pipe + Times(Pipes(r), bank + Times(r.numBanks, total / 0x100)))
  }

  lemma MacroSizes(r: Layout)
    requires Supported(r) && IsMacroTiled(r)
    ensures r.numBanks == Times(r.aspect, r.numBanks / r.aspect)
    ensures MacroPitch(r) == 8 * Times(Pipes(r), Times(r.bankWidth, r.aspect)) > 0
    ensures MacroHeight(r) == 8 * Times(r.bankHeight, r.numBanks / r.aspect) > 0
    ensures MacroBytes(r) == Times(64 * r.bytes, Times(r.bankWidth, r.bankHeight)) > 0
  {
    hide Times, Quot;
    var p, w, h, a, b := Pipes(r), r.bankWidth, r.bankHeight, r.aspect, r.numBanks / r.aspect;
    assert r.numBanks == Times(a, b) by {
      BanksSplit(r);
    }
    TimesLaws(w, p, a);
    TimesLaws(p, w, a);
    TimesLaws(h, a, b);
    TimesLaws(a, h, b);
    EightTimes(a, Times(h, b));
    QuotExact(a, 8 * Times(h, b));
    var micro := 64 * r.bytes;
    TimesShuffle(micro, w, p, a, h, b);
    QuotExact(Times(p, r.numBanks), Times(micro, Times(w, h)));
  }

  lemma BanksSplit(r: Layout)
    requires Supported(r) && IsMacroTiled(r)
    ensures r.numBanks == Times(r.aspect, r.numBanks / r.aspect)
  {
  }

  lemma EightTimes(a: nat, n: nat)
    ensures 8 * Times(a, n) == Times(a, 8 * n)
  {
  }

  lemma TimesShuffle(m: nat, w: nat, p: nat, a: nat, h: nat, b: nat)
    ensures Times(Times(m, Times(p, Times(w, a))), Times(h, b)) == Times(Times(p, Times(a, b)), Times(m, Times(w, h)))
  {
    hide Times;
    TimesLaws(p, w, a);
    TimesLaws(p, a, b);
    var pa := Times(p, a);
    TimesLaws(w, p, a);
    TimesLaws(m, w, pa);
    TimesLaws(w, a, p);
    TimesLaws(a, p, 0);
    TimesLaws(Times(m, w), pa, Times(h, b));
    TimesLaws(pa, h, b);
    TimesLaws(h, pa, b);
    TimesLaws(Times(m, w), h, Times(pa, b));
    TimesLaws(m, w, h);
    TimesLaws(Times(m, Times(w, h)), Times(pa, b), 0);
  }

  // ---------- the bits ----------

  lemma ThreeDigits(n: nat)
    ensures n % 8 == n % 2 + 2 * (n / 2 % 2) + 4 * (n / 4 % 2)
  {
    var m, k := n / 2, n / 4;
    assert n == 2 * m + n % 2;
    assert m == 2 * k + m % 2;
    assert k == 2 * (k / 2) + k % 2;
    assert n == 8 * (k / 2) + (n % 2 + 2 * (m % 2) + 4 * (k % 2));
  }

  lemma EightCells(n: nat)
    ensures n % 8 == Bit(n, 1) + 2 * Bit(n, 2) + 4 * Bit(n, 4)
  {
    ThreeDigits(n);
  }

  lemma SixBitsUnique(a0: nat, a1: nat, a2: nat, a3: nat, a4: nat, a5: nat,
                      b0: nat, b1: nat, b2: nat, b3: nat, b4: nat, b5: nat)
    requires a0 < 2 && a1 < 2 && a2 < 2 && a3 < 2 && a4 < 2 && a5 < 2
    requires b0 < 2 && b1 < 2 && b2 < 2 && b3 < 2 && b4 < 2 && b5 < 2
    requires SixBits(a0, a1, a2, a3, a4, a5) == SixBits(b0, b1, b2, b3, b4, b5)
    ensures a0 == b0 && a1 == b1 && a2 == b2 && a3 == b3 && a4 == b4 && a5 == b5
  {
    OddEven(a0, a1 + 2 * a2 + 4 * a3 + 8 * a4 + 16 * a5, b0, b1 + 2 * b2 + 4 * b3 + 8 * b4 + 16 * b5);
    OddEven(a1, a2 + 2 * a3 + 4 * a4 + 8 * a5, b1, b2 + 2 * b3 + 4 * b4 + 8 * b5);
    OddEven(a2, a3 + 2 * a4 + 4 * a5, b2, b3 + 2 * b4 + 4 * b5);
    OddEven(a3, a4 + 2 * a5, b3, b4 + 2 * b5);
    OddEven(a4, a5, b4, b5);
  }

  lemma OddEven(a: nat, n: nat, b: nat, m: nat)
    requires a < 2 && b < 2 && a + 2 * n == b + 2 * m
    ensures a == b && n == m
  {
  }

  /** Every micro-tile order is a permutation of the six coordinate bits. */
  lemma MicroPixelInjective(r: Layout, x1: nat, y1: nat, x2: nat, y2: nat)
    requires MicroPixel(r, x1, y1) == MicroPixel(r, x2, y2)
    ensures x1 % 8 == x2 % 8 && y1 % 8 == y2 % 8
  {
    hide Bit, SixBits;
    EightCells(x1);
    EightCells(y1);
    EightCells(x2);
    EightCells(y2);
    var a0, a1, a2, b0, b1, b2 := Bit(x1, 1), Bit(x1, 2), Bit(x1, 4), Bit(y1, 1), Bit(y1, 2), Bit(y1, 4);
    var c0, c1, c2, d0, d1, d2 := Bit(x2, 1), Bit(x2, 2), Bit(x2, 4), Bit(y2, 1), Bit(y2, 2), Bit(y2, 4);
    if r.microTileMode != 0 {
      SixBitsUnique(a0, b0, a1, b1, a2, b2, c0, d0, c1, d1, c2, d2);
    } else if r.bytes == 1 {
      SixBitsUnique(a0, a1, a2, b1, b0, b2, c0, c1, c2, d1, d0, d2);
    } else if r.bytes == 2 {
      SixBitsUnique(a0, a1, a2, b0, b1, b2, c0, c1, c2, d0, d1, d2);
    } else if r.bytes == 4 {
      SixBitsUnique(a0, a1, b0, a2, b1, b2, c0, c1, d0, c2, d1, d2);
    } else if r.bytes == 8 {
      SixBitsUnique(a0, b0, a1, a2, b1, b2, c0, d0, c1, c2, d1, d2);
    } else {
      SixBitsUnique(b0, a0, a1, a2, b1, b2, d0, c0, c1, c2, d1, d2);
    }
  }

  lemma XorCancels(a: nat, b: nat, c: nat)
    requires a < 2 && b < 2 && Xor(a, c) == Xor(b, c)
    ensures a == b
  {
  }

  lemma FourBitsUnique(a0: nat, a1: nat, a2: nat, a3: nat, b0: nat, b1: nat, b2: nat, b3: nat)
    requires a0 < 2 && a1 < 2 && a2 < 2 && a3 < 2 && b0 < 2 && b1 < 2 && b2 < 2 && b3 < 2
    requires a0 + 2 * a1 + 4 * a2 + 8 * a3 == b0 + 2 * b1 + 4 * b2 + 8 * b3
    ensures a0 == b0 && a1 == b1 && a2 == b2 && a3 == b3
  {
  }

  /** Slice rotation and swizzle are constant over a slice, so equal banks have equal raw bank bits. */
  lemma FinalBankCancels(r: Layout, tx1: nat, ty1: nat, tx2: nat, ty2: nat, slice: nat, i: nat)
    requires i < 4 && Unit(i) < r.numBanks
    requires FinalBankBit(r, tx1, ty1, slice, i) == FinalBankBit(r, tx2, ty2, slice, i)
    ensures BankBit(r.numBanks, tx1, ty1, i) == BankBit(r.numBanks, tx2, ty2, i)
  {
    hide BankBit, Bit, Xor, Times;
    var rotation := if r.arrayMode == 4 then Bit(Times(r.numBanks / 2 - 1, slice), Unit(i)) else 0;
    var b1, b2 := BankBit(r.numBanks, tx1, ty1, i), BankBit(r.numBanks, tx2, ty2, i);
    XorCancels(Xor(b1, rotation), Xor(b2, rotation), Bit(r.bankSwizzle, Unit(i)));
    XorCancels(b1, b2, rotation);
  }

  /** Halving a quotient by a power of two splits off one bit. */
  lemma SplitBit(n: nat, unit: nat)
    requires unit == 1 || unit == 2 || unit == 4 || unit == 8
    ensures n / unit == 2 * (n / (2 * unit)) + Bit(n, unit)
  {
  }

  /** n is known once its quotient by a power of two and the bits below that power are. */
  lemma BitsBelow(n: nat, m: nat, unit: nat)
    requires unit == 1 || unit == 2 || unit == 4 || unit == 8 || unit == 16
    requires n / unit == m / unit
    requires unit > 1 ==> Bit(n, 1) == Bit(m, 1)
    requires unit > 2 ==> Bit(n, 2) == Bit(m, 2)
    requires unit > 4 ==> Bit(n, 4) == Bit(m, 4)
    requires unit > 8 ==> Bit(n, 8) == Bit(m, 8)
    ensures n == m
  {
    hide Bit;
    SplitBits(n);
    SplitBits(m);
  }

  lemma SplitBits(n: nat)
    ensures n == 2 * (n / 2) + Bit(n, 1)
    ensures n / 2 == 2 * (n / 4) + Bit(n, 2)
    ensures n / 4 == 2 * (n / 8) + Bit(n, 4)
    ensures n / 8 == 2 * (n / 16) + Bit(n, 8)
  {
    hide Bit;
    SplitBit(n, 1);
    SplitBit(n, 2);
    SplitBit(n, 4);
    SplitBit(n, 8);
  }

  lemma XorSolves(a: nat, b: nat, c: nat, d: nat)
    requires a < 2 && b < 2 && c < 2 && d < 2 && Xor(a, b) == Xor(c, d)
    ensures a == c <==> b == d
  {
  }

  /** The bank bits determine the low bits of tx and ty that the macro tile leaves open. */
  lemma BankSolves(banks: nat, aspect: nat, tx1: nat, ty1: nat, tx2: nat, ty2: nat)
    requires banks == 2 || banks == 4 || banks == 8 || banks == 16
    requires aspect == 1 || aspect == 2 || aspect == 4 || aspect == 8
    requires aspect <= banks
    requires tx1 / aspect == tx2 / aspect && ty1 / (banks / aspect) == ty2 / (banks / aspect)
    requires forall i :: 0 <= i < 4 && Unit(i) < banks ==> BankBit(banks, tx1, ty1, i) == BankBit(banks, tx2, ty2, i)
    ensures tx1 == tx2 && ty1 == ty2
  {
    hide Bit, Xor;
    assert Unit(0) == 1 && Unit(1) == 2 && Unit(2) == 4 && Unit(3) == 8;
    var rows := banks / aspect;
    assert BankBit(banks, tx1, ty1, 0) == BankBit(banks, tx2, ty2, 0);
    assert banks > 2 ==> BankBit(banks, tx1, ty1, 1) == BankBit(banks, tx2, ty2, 1);
    assert banks > 4 ==> BankBit(banks, tx1, ty1, 2) == BankBit(banks, tx2, ty2, 2);
    assert banks > 8 ==> BankBit(banks, tx1, ty1, 3) == BankBit(banks, tx2, ty2, 3);
    KnownBits(tx1, tx2, aspect);
    KnownBits(ty1, ty2, rows);
    if banks == 2 {
      XorSolves(Bit(tx1, 1), Bit(ty1, 1), Bit(tx2, 1), Bit(ty2, 1));
    } else if banks == 4 {
      XorSolves(Bit(tx1, 1), Bit(ty1, 2), Bit(tx2, 1), Bit(ty2, 2));
      XorSolves(Bit(tx1, 2), Bit(ty1, 1), Bit(tx2, 2), Bit(ty2, 1));
    } else if banks == 8 {
      XorSolves(Bit(tx1, 1), Bit(ty1, 4), Bit(tx2, 1), Bit(ty2, 4));
      XorSolves(Xor(Bit(tx1, 2), Bit(ty1, 2)), Bit(ty1, 4), Xor(Bit(tx2, 2), Bit(ty2, 2)), Bit(ty2, 4));
      if Bit(ty1, 4) == Bit(ty2, 4) {
        XorSolves(Bit(tx1, 2), Bit(ty1, 2), Bit(tx2, 2), Bit(ty2, 2));
      }
      XorSolves(Bit(tx1, 4), Bit(ty1, 1), Bit(tx2, 4), Bit(ty2, 1));
    } else {
      XorSolves(Bit(tx1, 1), Bit(ty1, 8), Bit(tx2, 1), Bit(ty2, 8));
      XorSolves(Xor(Bit(tx1, 2), Bit(ty1, 4)), Bit(ty1, 8), Xor(Bit(tx2, 2), Bit(ty2, 4)), Bit(ty2, 8));
      if Bit(ty1, 8) == Bit(ty2, 8) {
        XorSolves(Bit(tx1, 2), Bit(ty1, 4), Bit(tx2, 2), Bit(ty2, 4));
      }
      XorSolves(Bit(tx1, 4), Bit(ty1, 2), Bit(tx2, 4), Bit(ty2, 2));
      XorSolves(Bit(tx1, 8), Bit(ty1, 1), Bit(tx2, 8), Bit(ty2, 1));
    }
    BitsBelow(tx1, tx2, aspect);
    BitsBelow(ty1, ty2, rows);
  }

  lemma KnownBit(n: nat, m: nat, unit: nat)
    requires unit == 1 || unit == 2 || unit == 4 || unit == 8
    requires n / unit == m / unit
    ensures Bit(n, unit) == Bit(m, unit) && n / (2 * unit) == m / (2 * unit)
  {
    SplitBit(n, unit);
    SplitBit(m, unit);
  }

  /** The bits from a power of two upwards are those of the quotient by it. */
  lemma KnownBits(n: nat, m: nat, unit: nat)
    requires unit == 1 || unit == 2 || unit == 4 || unit == 8 || unit == 16
    requires n / unit == m / unit
    ensures unit <= 1 ==> Bit(n, 1) == Bit(m, 1)
    ensures unit <= 2 ==> Bit(n, 2) == Bit(m, 2)
    ensures unit <= 4 ==> Bit(n, 4) == Bit(m, 4)
    ensures unit <= 8 ==> Bit(n, 8) == Bit(m, 8)
  {
    hide Bit;
    if unit == 1 { KnownBit(n, m, 1); }
    if unit <= 2 { KnownBit(n, m, 2); }
    if unit <= 4 { KnownBit(n, m, 4); }
    if unit <= 8 { KnownBit(n, m, 8); }
  }

  /** Within one row of micro tiles, the pipe determines the tile column modulo the pipe count. */
  lemma PipeSolves(r: Layout, x1: nat, y1: nat, x2: nat, y2: nat)
    requires y1 / 8 == y2 / 8 && TiledPipe(r, x1, y1) == TiledPipe(r, x2, y2)
    ensures x1 / 8 % Pipes(r) == x2 / 8 % Pipes(r)
  {
    hide Bit, Xor;
    var tx1, tx2, ty := x1 / 8, x2 / 8, y1 / 8;
    EightCells(tx1);
    EightCells(tx2);
    TwoCells(tx1);
    TwoCells(tx2);
    var u3, u4, u5 := Bit(tx1, 1), Bit(tx1, 2), Bit(tx1, 4);
    var v3, v4, v5 := Bit(tx2, 1), Bit(tx2, 2), Bit(tx2, 4);
    var y3, y4, y5 := Bit(ty, 1), Bit(ty, 2), Bit(ty, 4);
    if r.pipeConfig == 0 {
      XorSolves(u3, y3, v3, y3);
    } else {
      XorSolves(u5, y5, v5, y5);
      if r.pipeConfig == 10 {
        XorSolves(u3, y4, v3, y4);
        XorSolves(Xor(u4, y3), u5, Xor(v4, y3), v5);
        XorSolves(u4, y3, v4, y3);
      } else {
        XorSolves(u4, y4, v4, y4);
        XorSolves(Xor(u3, y3), u4, Xor(v3, y3), v4);
        XorSolves(u3, y3, v3, y3);
      }
    }
  }

  lemma TwoCells(n: nat)
    ensures n % 2 == Bit(n, 1)
  {
  }

  // ---------- the macro-tiled map ----------

  const TWO_32: nat := 0x1_0000_0000

  /** The offset of a texel, whose total is computed in 32-bit arithmetic. */
  function MacroOffset(r: Layout, x: nat, y: nat, slice: nat): nat
    requires r.bankWidth > 0 && r.bankHeight > 0 && r.aspect > 0 && r.numBanks > 0
    requires MacroPitch(r) > 0 && MacroHeight(r) > 0
  {
    Interleave(r, MacroTotal(r, x, y) % TWO_32, TiledPipe(r, x, y), TiledBank(r, x, y, slice))
  }

  /** The bytes one slice takes in each pipe and bank; the code computes this number as well. */
  function SliceBytes(r: Layout, height: nat): nat
    requires r.aspect > 0 && r.numBanks > 0 && MacroPitch(r) > 0 && MacroHeight(r) > 0
  {
    Times(Times(MacroColumns(r), Quot(RoundUp(height, MacroHeight(r)), MacroHeight(r))), MacroBytes(r))
  }

  lemma ColumnsCover(x: nat, extent: nat, unit: nat)
    requires unit > 0 && x < extent
    ensures Quot(x, unit) < Quot(RoundUp(extent, unit), unit)
  {
    hide Times, Quot, Rem;
    var n := Quot(extent + unit - 1, unit);
    QuotExact(unit, n);
    QuotRem(x, unit);
    QuotRem(extent + unit - 1, unit);
    if Quot(x, unit) >= n {
      if n < Quot(x, unit) {
        TimesOrder(n, Quot(x, unit), unit);
      }
    }
  }

  /** The macro-tile index, then the micro tile inside it, then the pixel: the digits of the total. */
  function TileIndex(r: Layout, x: nat, y: nat): nat
    requires MacroPitch(r) > 0 && r.aspect > 0 && MacroHeight(r) > 0
  {
    Times(MacroColumns(r), Quot(y, MacroHeight(r))) + Quot(x, MacroPitch(r))
  }

  function MicroIndex(r: Layout, x: nat, y: nat): nat
    requires r.bankWidth > 0 && r.bankHeight > 0 && r.aspect > 0 && MacroPitch(r) > 0 && MacroHeight(r) > 0
  {
    Times(r.bankWidth, Times(r.bankHeight, TileIndex(r, x, y)) + TileRow(r, y)) + TileColumn(r, x)
  }

  lemma ConstTimes(a: nat, n: nat)
    ensures Times(64 * a, n) == Times(a, 64 * n)
  {
  }

  lemma MacroDigits(r: Layout, x: nat, y: nat)
    requires Supported(r) && IsMacroTiled(r)
    requires MacroPitch(r) > 0 && MacroHeight(r) > 0
    ensures MacroTotal(r, x, y) == Times(r.bytes, 64 * MicroIndex(r, x, y) + MicroPixel(r, x, y))
  {
    hide Times, Quot, Rem, MicroPixel, MacroPitch, MacroHeight, MacroBytes, MacroColumns, TileRow, TileColumn;
    MacroSizes(r);
    var w, h, b := r.bankWidth, r.bankHeight, r.bytes;
    var index, row, column, pixel := TileIndex(r, x, y), TileRow(r, y), TileColumn(r, x), MicroPixel(r, x, y);
    TimesLaws(Quot(y, MacroHeight(r)), MacroColumns(r), 0);
    TimesLaws(index, MacroBytes(r), 0);
    TimesLaws(64 * b, Times(w, h), index);
    TimesLaws(w, h, index);
    TimesLaws(pixel, b, 0);
    TimesLaws(row, w, 0);
    TimesLaws(Times(w, row) + column, 64 * b, 0);
    TimesLaws(w, Times(h, index), row);
    var outer, inner := Times(w, Times(h, index)), Times(w, row) + column;
    ConstTimes(b, outer);
    ConstTimes(b, inner);
    TimesLaws(b, 64 * outer, 64 * inner);
    TimesLaws(b, 64 * (outer + inner), pixel);
  }

  lemma MacroTotalBelow(r: Layout, height: nat, x: nat, y: nat)
    requires Supported(r) && IsMacroTiled(r)
    requires MacroPitch(r) > 0 && MacroHeight(r) > 0
    requires x < r.pitch && y < height
    ensures MacroTotal(r, x, y) + r.bytes <= SliceBytes(r, height)
  {
    hide Times, Quot, Rem, MicroPixel, MacroPitch, MacroHeight, MacroBytes, MacroTotal, RoundUp, TileRow, TileColumn;
    MacroSizes(r);
    MacroDigits(r, x, y);
    var w, h, b := r.bankWidth, r.bankHeight, r.bytes;
    var columns, rows := MacroColumns(r), Quot(RoundUp(height, MacroHeight(r)), MacroHeight(r));
    ColumnsCover(x, r.pitch, MacroPitch(r));
    ColumnsCover(y, height, MacroHeight(r));
    var index := TileIndex(r, x, y);
    TimesOrder(Quot(y, MacroHeight(r)), rows, columns);
    assert index < Times(columns, rows);
    TimesOrder(index, Times(columns, rows), h);
    var micro := Times(h, index) + TileRow(r, y);
    assert micro < Times(h, Times(columns, rows));
    TimesOrder(micro, Times(h, Times(columns, rows)), w);
    var cells := Times(w, Times(h, Times(columns, rows)));
    assert MicroIndex(r, x, y) < cells;
    TimesOrder(64 * MicroIndex(r, x, y) + MicroPixel(r, x, y), 64 * cells, b);
    ConstTimes(b, cells);
    TimesLaws(w, h, Times(columns, rows));
    TimesLaws(64 * b, Times(w, h), Times(columns, rows));
    TimesLaws(Times(columns, rows), MacroBytes(r), 0);
  }

  lemma MacroTotalUnique(r: Layout, x1: nat, y1: nat, x2: nat, y2: nat)
    requires Supported(r) && IsMacroTiled(r)
    requires MacroPitch(r) > 0 && MacroHeight(r) > 0
    requires x1 < r.pitch && x2 < r.pitch
    requires MacroTotal(r, x1, y1) == MacroTotal(r, x2, y2)
    ensures MicroPixel(r, x1, y1) == MicroPixel(r, x2, y2)
    ensures TileRow(r, y1) == TileRow(r, y2) && TileColumn(r, x1) == TileColumn(r, x2)
    ensures Quot(x1, MacroPitch(r)) == Quot(x2, MacroPitch(r)) && Quot(y1, MacroHeight(r)) == Quot(y2, MacroHeight(r))
  {
    hide Times, Quot, Rem, MicroPixel, MacroPitch, MacroHeight, MacroTotal, RoundUp, TileRow, TileColumn;
    MacroDigits(r, x1, y1);
    MacroDigits(r, x2, y2);
    DigitsUnique(r.bytes, 64 * MicroIndex(r, x1, y1) + MicroPixel(r, x1, y1), 0,
                 64 * MicroIndex(r, x2, y2) + MicroPixel(r, x2, y2), 0);
    DigitsUnique(r.bankWidth, Times(r.bankHeight, TileIndex(r, x1, y1)) + TileRow(r, y1), TileColumn(r, x1),
                 Times(r.bankHeight, TileIndex(r, x2, y2)) + TileRow(r, y2), TileColumn(r, x2));
    DigitsUnique(r.bankHeight, TileIndex(r, x1, y1), TileRow(r, y1), TileIndex(r, x2, y2), TileRow(r, y2));
    ColumnsCover(x1, r.pitch, MacroPitch(r));
    ColumnsCover(x2, r.pitch, MacroPitch(r));
    DigitsUnique(MacroColumns(r), Quot(y1, MacroHeight(r)), Quot(x1, MacroPitch(r)),
                 Quot(y2, MacroHeight(r)), Quot(x2, MacroPitch(r)));
  }

  lemma BankBelow(r: Layout, x: nat, y: nat, slice: nat)
    requires Supported(r) && IsMacroTiled(r)
    ensures TiledBank(r, x, y, slice) < r.numBanks
  {
    hide BankBit, Bit, Xor, Times, Quot;
  }

  lemma InterleaveUnique(r: Layout, t1: nat, p1: nat, b1: nat, t2: nat, p2: nat, b2: nat)
    requires p1 < Pipes(r) && p2 < Pipes(r) && b1 < r.numBanks && b2 < r.numBanks
    requires Interleave(r, t1, p1, b1) == Interleave(r, t2, p2, b2)
    ensures t1 == t2 && p1 == p2 && b1 == b2
  {
    hide Times, Pipes;
    DigitsUnique(Pipes(r), b1 + Times(r.numBanks, t1 / 0x100), p1, b2 + Times(r.numBanks, t2 / 0x100), p2);
    DigitsUnique(r.numBanks, t1 / 0x100, b1, t2 / 0x100, b2);
  }

  /** The tile coordinates above the bank: what the macro tile fixes of them. */
  lemma TileCoordinates(r: Layout, x: nat, y: nat)
    requires Supported(r) && IsMacroTiled(r)
    requires MacroPitch(r) > 0 && MacroHeight(r) > 0
    ensures Quot(x, MacroPitch(r)) == Quot(x / 8, Times(r.bankWidth, Pipes(r))) / r.aspect
    ensures Quot(y, MacroHeight(r)) == Quot(y / 8, r.bankHeight) / (r.numBanks / r.aspect)
    ensures x / 8 == Pipes(r) * (x / 8 / Pipes(r)) + x / 8 % Pipes(r)
    ensures x / 8 / Pipes(r) ==
              Times(r.bankWidth, Quot(x / 8, Times(r.bankWidth, Pipes(r)))) + TileColumn(r, x)
    ensures y / 8 == Times(r.bankHeight, Quot(y / 8, r.bankHeight)) + TileRow(r, y)
  {
    MacroSizes(r);
    var p, w, h, a, b := Pipes(r), r.bankWidth, r.bankHeight, r.aspect, r.numBanks / r.aspect;
    QuotByEight(x, Times(p, Times(w, a)));
    QuotByEight(y, Times(h, b));
    assert Quot(x, MacroPitch(r)) == Quot(Quot(x / 8, Times(w, p)), a) by {
      hide Times, Quot, MacroPitch;
      TimesLaws(p, w, a);
      TimesLaws(p, w, 0);
      QuotQuot(x / 8, Times(w, p), a);
    }
    assert Quot(y, MacroHeight(r)) == Quot(Quot(y / 8, h), b) by {
      hide Times, Quot, MacroHeight;
      QuotQuot(y / 8, h, b);
    }
    assert Quot(x / 8, Times(w, p)) == Quot(Quot(x / 8, p), w) by {
      hide Times, Quot;
      TimesLaws(w, p, 0);
      QuotQuot(x / 8, p, w);
    }
    QuotRem(Quot(x / 8, p), w);
    QuotRem(y / 8, h);
  }

  lemma QuotByEight(n: nat, m: nat)
    requires m > 0
    ensures Quot(n, 8 * m) == Quot(n / 8, m)
  {
    hide Quot;
    QuotQuot(n, 8, m);
    QuotIsDiv(n, 8);
    TimesIsMul(8, m);
  }

  lemma QuotIsDiv(n: nat, m: nat)
    requires m > 0
    ensures Quot(n, m) == n / m
  {
  }

  lemma TimesIsMul(a: nat, b: nat)
    ensures Times(a, b) == a * b
  {
  }

  /** Pixel, micro tile, macro tile, pipe and bank together determine the texel. */
  lemma TexelFromParts(r: Layout, x1: nat, y1: nat, x2: nat, y2: nat, slice: nat)
    requires Supported(r) && IsMacroTiled(r)
    requires MacroPitch(r) > 0 && MacroHeight(r) > 0
    requires MicroPixel(r, x1, y1) == MicroPixel(r, x2, y2)
    requires TileRow(r, y1) == TileRow(r, y2) && TileColumn(r, x1) == TileColumn(r, x2)
    requires Quot(x1, MacroPitch(r)) == Quot(x2, MacroPitch(r)) && Quot(y1, MacroHeight(r)) == Quot(y2, MacroHeight(r))
    requires TiledPipe(r, x1, y1) == TiledPipe(r, x2, y2)
    requires TiledBank(r, x1, y1, slice) == TiledBank(r, x2, y2, slice)
    ensures x1 == x2 && y1 == y2
  {
    hide Times, Quot, Rem, MicroPixel, MacroPitch, MacroHeight, TiledPipe, TileRow, TileColumn, FinalBankBit, BankBit;
    MicroPixelInjective(r, x1, y1, x2, y2);
    TileCoordinates(r, x1, y1);
    TileCoordinates(r, x2, y2);
    var tx1, tx2 := Quot(x1 / 8, Times(r.bankWidth, Pipes(r))), Quot(x2 / 8, Times(r.bankWidth, Pipes(r)));
    var ty1, ty2 := Quot(y1 / 8, r.bankHeight), Quot(y2 / 8, r.bankHeight);
    FourBitsUnique(
      FinalBankBit(r, tx1, ty1, slice, 0), FinalBankBit(r, tx1, ty1, slice, 1),
      FinalBankBit(r, tx1, ty1, slice, 2), FinalBankBit(r, tx1, ty1, slice, 3),
      FinalBankBit(r, tx2, ty2, slice, 0), FinalBankBit(r, tx2, ty2, slice, 1),
      FinalBankBit(r, tx2, ty2, slice, 2), FinalBankBit(r, tx2, ty2, slice, 3));
    forall i | 0 <= i < 4 && Unit(i) < r.numBanks
      ensures BankBit(r.numBanks, tx1, ty1, i) == BankBit(r.numBanks, tx2, ty2, i)
    {
      assert i == 0 || i == 1 || i == 2 || i == 3;
      FinalBankCancels(r, tx1, ty1, tx2, ty2, slice, i);
    }
    BankSolves(r.numBanks, r.aspect, tx1, ty1, tx2, ty2);
    PipeSolves(r, x1, y1, x2, y2);
    assert x1 == 8 * (x1 / 8) + x1 % 8 && x2 == 8 * (x2 / 8) + x2 % 8;
    assert y1 == 8 * (y1 / 8) + y1 % 8 && y2 == 8 * (y2 / 8) + y2 % 8;
  }

  /** The slice's bytes in one pipe and bank can be counted in 32 bits, as the code counts them. */
  predicate SliceFits(r: Layout, height: nat) {
    IsMacroTiled(r) && MacroPitch(r) > 0 && MacroHeight(r) > 0 ==> SliceBytes(r, height) <= TWO_32
  }

  lemma MacroOffsetInjective(r: Layout, height: nat, x1: nat, y1: nat, x2: nat, y2: nat, slice: nat)
    requires Supported(r) && IsMacroTiled(r) && SliceFits(r, height)
    requires MacroPitch(r) > 0 && MacroHeight(r) > 0
    requires x1 < r.pitch && x2 < r.pitch && y1 < height && y2 < height
    requires MacroOffset(r, x1, y1, slice) == MacroOffset(r, x2, y2, slice)
    ensures x1 == x2 && y1 == y2
  {
    hide Times, Quot, Rem, MicroPixel, MacroPitch, MacroHeight, MacroTotal, TiledPipe, TiledBank, TileRow, TileColumn,
         SliceBytes, Interleave;
    MacroTotalBelow(r, height, x1, y1);
    MacroTotalBelow(r, height, x2, y2);
    BankBelow(r, x1, y1, slice);
    BankBelow(r, x2, y2, slice);
    InterleaveUnique(r, MacroTotal(r, x1, y1), TiledPipe(r, x1, y1), TiledBank(r, x1, y1, slice),
                     MacroTotal(r, x2, y2), TiledPipe(r, x2, y2), TiledBank(r, x2, y2, slice));
    MacroTotalUnique(r, x1, y1, x2, y2);
    TexelFromParts(r, x1, y1, x2, y2, slice);
  }

  // ---------- every layout ----------

  /** The byte offset of the element (x, y) inside its slice. */
  function ElementOffset(r: Layout, x: nat, y: nat, slice: nat): nat
    requires Supported(r)
  {
    if IsMacroTiled(r) then
      MacroSizes(r);
      MacroOffset(r, x, y, slice)
    else if IsMicroTiled(r) then
      Times(Times(y / 8, (r.pitch + 7) / 8) + x / 8, 64 * r.bytes) + Times(MicroPixel(r, x, y), r.bytes)
    else Times(Times(y, r.pitch) + x, r.bytes)
  }

  /** The micro tile an element of a micro-tiled image lies in, counting along rows. */
  function MicroTile(r: Layout, x: nat, y: nat): nat {
    Times((r.pitch + 7) / 8, y / 8) + x / 8
  }

  /** The bytes that the elements of a slice of the given height lie in. */
  function SliceExtent(r: Layout, height: nat): nat
    requires Supported(r)
  {
    if IsMacroTiled(r) then
      MacroSizes(r);
      0x100 * Times(Pipes(r), Times(r.numBanks, (SliceBytes(r, height) + 0xff) / 0x100))
    else if IsMicroTiled(r) then Times(64 * r.bytes, Times((r.pitch + 7) / 8, (height + 7) / 8))
    else Times(r.bytes, Times(r.pitch, height))
  }

  /** The offset as a number of elements. */
  lemma MicroOffsetDigits(r: Layout, x: nat, y: nat)
    requires Supported(r) && !IsMacroTiled(r) && IsMicroTiled(r)
    ensures ElementOffset(r, x, y, 0) ==
              Times(r.bytes, 64 * MicroTile(r, x, y) + MicroPixel(r, x, y))
  {
    hide Times, MicroPixel;
    var tile, pixel := MicroTile(r, x, y), MicroPixel(r, x, y);
    TimesLaws(y / 8, (r.pitch + 7) / 8, 0);
    TimesLaws(tile, 64 * r.bytes, 0);
    ConstTimes(r.bytes, tile);
    TimesLaws(pixel, r.bytes, 0);
    TimesLaws(r.bytes, 64 * tile, pixel);
  }

  lemma LinearOffsetDigits(r: Layout, x: nat, y: nat)
    requires Supported(r) && !IsMacroTiled(r) && !IsMicroTiled(r)
    ensures ElementOffset(r, x, y, 0) == Times(r.bytes, Times(r.pitch, y) + x)
  {
    hide Times;
    TimesLaws(y, r.pitch, 0);
    TimesLaws(Times(r.pitch, y) + x, r.bytes, 0);
  }

  lemma OnlyMacroUsesSlices(r: Layout, x: nat, y: nat, slice: nat)
    requires Supported(r) && !IsMacroTiled(r)
    ensures ElementOffset(r, x, y, slice) == ElementOffset(r, x, y, 0)
  {
  }

  /** Taking a remainder by a multiple of the element size, and adding such multiples, keeps multiples. */
  lemma MultipleParts(bytes: nat, total: nat, m: nat, modulus: nat, parts: nat, high: nat) returns (k: nat)
    requires bytes > 0 && total == Times(bytes, m) && modulus == Times(bytes, parts) > 0
    ensures total % modulus + modulus * high == Times(bytes, k)
  {
    var q := total / modulus;
    assert total == modulus * q + total % modulus;
    assert bytes * m - bytes * (parts * q) == bytes * (m - parts * q) by {
      assert modulus * q == bytes * (parts * q);
    }
    FactorNonNegative(bytes, m - parts * q);
    k := m - parts * q + parts * high;
    assert bytes * k == bytes * (m - parts * q) + bytes * (parts * high);
    assert modulus * high == bytes * (parts * high);
  }

  lemma Granularity(r: Layout)
    requires Supported(r)
    ensures 0x100 == Times(r.bytes, 0x100 / r.bytes) && TWO_32 == Times(r.bytes, TWO_32 / r.bytes)
  {
  }

  /** Element sizes divide 256, so offsets are multiples of the element size in every layout. */
  lemma OffsetIsMultiple(r: Layout, x: nat, y: nat, slice: nat) returns (k: nat)
    requires Supported(r)
    ensures ElementOffset(r, x, y, slice) == Times(r.bytes, k)
  {
    hide Times, Quot, Rem, MicroPixel, MacroPitch, MacroHeight, MacroTotal, TiledPipe, TiledBank, MacroColumns,
         TileRow, TileColumn, Pipes;
    if IsMacroTiled(r) {
      MacroSizes(r);
      MacroDigits(r, x, y);
      Granularity(r);
      var total := MacroTotal(r, x, y);
      var m := MultipleParts(r.bytes, total, 64 * MicroIndex(r, x, y) + MicroPixel(r, x, y), TWO_32, TWO_32 / r.bytes,
                             0);
      var wrapped := total % TWO_32;
      var high := TiledPipe(r, x, y) + Times(Pipes(r), TiledBank(r, x, y, slice) + Times(r.numBanks, wrapped / 0x100));
      k := MultipleParts(r.bytes, wrapped, m, 0x100, 0x100 / r.bytes, high);
    } else {
      OnlyMacroUsesSlices(r, x, y, slice);
      if IsMicroTiled(r) {
        MicroOffsetDigits(r, x, y);
        k := 64 * MicroTile(r, x, y) + MicroPixel(r, x, y);
      } else {
        LinearOffsetDigits(r, x, y);
        k := Times(r.pitch, y) + x;
      }
    }
  }

  /** The address map is injective on a slice in every layout. */
  lemma OffsetInjective(r: Layout, height: nat, x1: nat, y1: nat, x2: nat, y2: nat, slice: nat)
    requires Supported(r) && SliceFits(r, height)
    requires x1 < r.pitch && x2 < r.pitch && y1 < height && y2 < height
    requires ElementOffset(r, x1, y1, slice) == ElementOffset(r, x2, y2, slice)
    ensures x1 == x2 && y1 == y2
  {
    hide Times, Quot, Rem, MicroPixel, MacroPitch, MacroHeight, MacroTotal, MacroOffset, SliceBytes;
    if IsMacroTiled(r) {
      MacroSizes(r);
      MacroOffsetInjective(r, height, x1, y1, x2, y2, slice);
    } else {
      OnlyMacroUsesSlices(r, x1, y1, slice);
      OnlyMacroUsesSlices(r, x2, y2, slice);
      if IsMicroTiled(r) {
        MicroOffsetDigits(r, x1, y1);
        MicroOffsetDigits(r, x2, y2);
        var t1, t2 := MicroTile(r, x1, y1), MicroTile(r, x2, y2);
        DigitsUnique(r.bytes, 64 * t1 + MicroPixel(r, x1, y1), 0, 64 * t2 + MicroPixel(r, x2, y2), 0);
        DigitsUnique((r.pitch + 7) / 8, y1 / 8, x1 / 8, y2 / 8, x2 / 8);
        MicroPixelInjective(r, x1, y1, x2, y2);
      } else {
        LinearOffsetDigits(r, x1, y1);
        LinearOffsetDigits(r, x2, y2);
        DigitsUnique(r.bytes, Times(r.pitch, y1) + x1, 0, Times(r.pitch, y2) + x2, 0);
        DigitsUnique(r.pitch, y1, x1, y2, x2);
      }
    }
  }

  /** No two elements of a slice share a byte. */
  lemma TexelsNeverOverlap(r: Layout, height: nat, x1: nat, y1: nat, x2: nat, y2: nat, slice: nat)
    requires Supported(r) && SliceFits(r, height)
    requires x1 < r.pitch && x2 < r.pitch && y1 < height && y2 < height && (x1 != x2 || y1 != y2)
    ensures Disjoint(Buffer(ElementOffset(r, x1, y1, slice), r.bytes), Buffer(ElementOffset(r, x2, y2, slice), r.bytes))
  {
    hide ElementOffset, SliceFits, Times;
    var k1 := OffsetIsMultiple(r, x1, y1, slice);
    var k2 := OffsetIsMultiple(r, x2, y2, slice);
    if k1 == k2 {
      OffsetInjective(r, height, x1, y1, x2, y2, slice);
    } else if k1 < k2 {
      TimesOrder(k1, k2, r.bytes);
    } else {
      TimesOrder(k2, k1, r.bytes);
    }
  }

  // ---------- extents ----------

  lemma InterleaveWithin(r: Layout, total: nat, pipe: nat, bank: nat, bytes: nat, blocks: nat)
    requires pipe < Pipes(r) && bank < r.numBanks
    requires total / 0x100 < blocks && total % 0x100 + bytes <= 0x100
    ensures Interleave(r, total, pipe, bank) + bytes <= 0x100 * Times(Pipes(r), Times(r.numBanks, blocks))
  {
    hide Times, Pipes;
    var high := bank + Times(r.numBanks, total / 0x100);
    TimesOrder(total / 0x100, blocks, r.numBanks);
    TimesOrder(high, Times(r.numBanks, blocks), Pipes(r));
  }

  lemma LowByteFits(r: Layout, total: nat, m: nat)
    requires Supported(r) && total == Times(r.bytes, m)
    ensures total % 0x100 + r.bytes <= 0x100
  {
    hide Times;
    Granularity(r);
    var k := MultipleParts(r.bytes, total, m, 0x100, 0x100 / r.bytes, 0);
    if k >= 0x100 / r.bytes {
      if k > 0x100 / r.bytes {
        TimesOrder(0x100 / r.bytes, k, r.bytes);
      }
    } else {
      TimesOrder(k, 0x100 / r.bytes, r.bytes);
    }
  }

  lemma BlocksCover(total: nat, bytes: nat, bound: nat)
    requires bytes > 0 && total + bytes <= bound
    ensures total / 0x100 < (bound + 0xff) / 0x100
  {
  }

  /** Every element lies inside its slice's extent. */
  lemma OffsetWithinSlice(r: Layout, height: nat, x: nat, y: nat, slice: nat)
    requires Supported(r) && SliceFits(r, height) && x < r.pitch && y < height
    ensures ElementOffset(r, x, y, slice) + r.bytes <= SliceExtent(r, height)
  {
    hide Times, Quot, Rem, MicroPixel, MacroPitch, MacroHeight, MacroTotal, TiledPipe, TiledBank, MacroColumns,
         TileRow, TileColumn, Pipes, Interleave, SliceBytes;
    if IsMacroTiled(r) {
      MacroSizes(r);
      MacroTotalBelow(r, height, x, y);
      MacroDigits(r, x, y);
      BankBelow(r, x, y, slice);
      var total := MacroTotal(r, x, y);
      LowByteFits(r, total, 64 * MicroIndex(r, x, y) + MicroPixel(r, x, y));
      BlocksCover(total, r.bytes, SliceBytes(r, height));
      InterleaveWithin(r, total, TiledPipe(r, x, y), TiledBank(r, x, y, slice), r.bytes,
                       (SliceBytes(r, height) + 0xff) / 0x100);
    } else {
      OnlyMacroUsesSlices(r, x, y, slice);
      if IsMicroTiled(r) {
        MicroOffsetDigits(r, x, y);
        var columns, rows := (r.pitch + 7) / 8, (height + 7) / 8;
        TimesOrder(y / 8, rows, columns);
        TimesLaws(64 * r.bytes, Times(columns, rows), 0);
        ConstTimes(r.bytes, Times(columns, rows));
        TimesOrder(64 * MicroTile(r, x, y) + MicroPixel(r, x, y), 64 * Times(columns, rows), r.bytes);
      } else {
        LinearOffsetDigits(r, x, y);
        TimesOrder(y, height, r.pitch);
        TimesOrder(Times(r.pitch, y) + x, Times(r.pitch, height), r.bytes);
      }
    }
  }

  // ---------- when 32-bit totals suffice ----------

  lemma PaddedExtent(extent: nat, unit: nat)
    requires unit > 0
    ensures Times(Quot(RoundUp(extent, unit), unit), unit) <= extent + unit - 1
  {
    hide Times, Quot, Rem;
    var n := Quot(extent + unit - 1, unit);
    QuotExact(unit, n);
    QuotRem(extent + unit - 1, unit);
    TimesLaws(unit, n, 0);
  }

  lemma MacroBounds(r: Layout)
    requires Supported(r) && IsMacroTiled(r)
    ensures 0 < MacroPitch(r) <= 4096 && 0 < MacroHeight(r) <= 1024
    ensures MacroBytes(r) <= 4 * Times(MacroPitch(r), MacroHeight(r))
  {
    hide Times, MacroPitch, MacroHeight, MacroBytes, Pipes;
    MacroSizes(r);
    var p, w, h, a, b := Pipes(r), r.bankWidth, r.bankHeight, r.aspect, r.numBanks / r.aspect;
    SmallTimes(w, 8, a, 8);
    SmallTimes(p, 8, Times(w, a), 64);
    SmallTimes(h, 8, b, 16);
    // The macro tile covers 64 * pipes * banks * w * h elements.
    TimesShuffle(64, w, p, a, h, b);
    TimesLaws(64, Times(p, Times(w, a)), Times(h, b));
    ConstTimes(1, Times(p, Times(w, a)));
    SixtyFour(Times(p, Times(w, a)), Times(h, b));
    var units := Times(p, r.numBanks);
    var cells := Times(64, Times(w, h));
    assert Times(MacroPitch(r), MacroHeight(r)) == Times(units, cells);
    FourUnits(p, r.numBanks);
    LargeTimes(4, units, cells);
    ConstTimes(r.bytes, Times(w, h));
    TimesLaws(r.bytes, 64 * Times(w, h), 0);
    SixtyFourTimes(Times(w, h));
    SmallTimes(r.bytes, 16, cells, cells);
    SixteenTimes(cells);
  }

  lemma SmallTimes(a: nat, b: nat, c: nat, d: nat)
    requires a <= b && c <= d
    ensures Times(a, c) <= b * d
  {
    MulMono(a, b, c, d);
  }

  lemma LargeTimes(a: nat, b: nat, c: nat)
    requires a <= b
    ensures a * c <= Times(b, c)
  {
    MulMono(a, b, c, c);
  }

  lemma FourUnits(p: nat, n: nat)
    requires p >= 2 && n >= 2
    ensures Times(p, n) >= 4
  {
    MulMono(2, p, 2, n);
  }

  lemma SixtyFour(m: nat, n: nat)
    ensures Times(8 * m, 8 * n) == Times(Times(64, m), n)
  {
    assert (8 * m) * (8 * n) == 64 * (m * n);
    assert (64 * m) * n == 64 * (m * n);
  }

  lemma SixtyFourTimes(n: nat)
    ensures Times(64, n) == 64 * n
  {
  }

  lemma SixteenTimes(n: nat)
    ensures 16 * n == 4 * (4 * n)
  {
  }

  lemma ProductBound(c: nat, p: nat, n: nat, q: nat, m: nat, cp: nat, nq: nat)
    requires Times(c, p) <= cp && Times(n, q) <= nq && m <= 4 * Times(p, q)
    ensures Times(Times(c, n), m) <= 4 * (cp * nq)
  {
    hide Times;
    SmallTimes(Times(c, n), Times(c, n), m, 4 * Times(p, q));
    FourFold(Times(c, n), Times(p, q));
    TimesLaws(c, n, Times(p, q));
    TimesLaws(n, p, q);
    TimesLaws(p, n, q);
    TimesLaws(c, p, Times(n, q));
    SmallTimes(Times(c, p), cp, Times(n, q), nq);
  }

  lemma FourFold(m: nat, n: nat)
    ensures m * (4 * n) == 4 * Times(m, n)
  {
  }

  /** Images within the descriptor's limit of 16384 by 16384 elements always fit. */
  lemma HardwareLimitsFit(r: Layout, height: nat)
    requires Supported(r) && r.pitch <= 0x4000 && height <= 0x4000
    ensures SliceFits(r, height)
  {
    hide Times, Quot, RoundUp, MacroPitch, MacroHeight, MacroBytes;
    if IsMacroTiled(r) {
      MacroSizes(r);
      MacroBounds(r);
      PaddedExtent(r.pitch, MacroPitch(r));
      PaddedExtent(height, MacroHeight(r));
      var c, n := MacroColumns(r), Quot(RoundUp(height, MacroHeight(r)), MacroHeight(r));
      ProductBound(c, MacroPitch(r), n, MacroHeight(r), MacroBytes(r), 20479, 17407);
    }
  }

  const MAX_SLICE: nat := 4 * TWO_32

  lemma FourParts(pipes: nat, banks: nat, bytes: nat)
    requires pipes >= 2 && banks >= 2
    ensures 0x100 * Times(pipes, Times(banks, (bytes + 0xff) / 0x100)) >= 4 * bytes
  {
    var blocks := (bytes + 0xff) / 0x100;
    MulMono(2, banks, blocks, blocks);
    MulMono(2, pipes, 2 * blocks, banks * blocks);
  }

  /** A slice that takes at most 2^34 bytes with its padding fits; the copies refuse images beyond 2^31. */
  lemma PaddedSizeFits(r: Layout, height: nat)
    requires Supported(r) && SliceExtent(r, height) <= MAX_SLICE
    ensures SliceFits(r, height)
  {
    hide Times, Quot, MacroPitch, MacroHeight, SliceBytes;
    if IsMacroTiled(r) {
      MacroSizes(r);
      FourParts(Pipes(r), r.numBanks, SliceBytes(r, height));
    }
  }

  lemma QuotZero(m: nat)
    requires m > 0
    ensures Quot(0, m) == 0 && Rem(0, m) == 0
  {
    QuotRemUnique(0, m, 0, 0);
    TimesZero(m);
  }

  lemma ZeroBits(n: nat, k: nat)
    requires n == 16 * k
    ensures Bit(n, 1) == 0 && Bit(n, 2) == 0 && Bit(n, 4) == 0 && Bit(n, 8) == 0
  {
    assert n / 2 == 8 * k && n / 4 == 4 * k && n / 8 == 2 * k;
  }

  lemma SixteenFold(m: nat, k: nat)
    ensures Times(m, 16 * k) == 16 * Times(m, k)
  {
  }

  lemma EightFold(n: nat)
    ensures 8 * n / 8 == n
  {
  }

  /** Where a column of macro tiles returns to: the first element of macro-tile row 16 * k. */
  lemma FarTile(r: Layout, k: nat) returns (y: nat)
    requires Supported(r) && IsMacroTiled(r)
    requires MacroPitch(r) > 0 && MacroHeight(r) > 0
    ensures y == Times(MacroHeight(r), 16 * k) && y % 8 == 0 && Quot(y, MacroHeight(r)) == 16 * k
    ensures TileRow(r, y) == 0 && Quot(y / 8, r.bankHeight) == 16 * Times(r.numBanks / r.aspect, k)
    ensures y / 8 == 16 * Times(Times(r.bankHeight, r.numBanks / r.aspect), k)
  {
    hide Times, Quot, Rem, MacroHeight, MacroPitch;
    MacroSizes(r);
    var h, b := r.bankHeight, r.numBanks / r.aspect;
    y := Times(MacroHeight(r), 16 * k);
    QuotExact(MacroHeight(r), 16 * k);
    TimesLaws(8 * Times(h, b), 16 * k, 0);
    EightTimes(16 * k, Times(h, b));
    TimesLaws(Times(h, b), 16 * k, 0);
    EightFold(Times(Times(h, b), 16 * k));
    SixteenFold(Times(h, b), k);
    TimesLaws(h, b, 16 * k);
    SixteenFold(b, k);
    QuotRemUnique(y / 8, h, Times(b, 16 * k), 0);
  }

  lemma OriginParts(r: Layout, y: nat, slice: nat, n: nat, m: nat)
    requires Supported(r) && IsMacroTiled(r)
    requires y / 8 == 16 * n && Quot(y / 8, r.bankHeight) == 16 * m
    ensures TiledPipe(r, 0, y) == 0
    ensures TiledBank(r, 0, y, slice) == TiledBank(r, 0, 0, slice)
  {
    hide Times, Quot, Bit;
    ZeroBits(0, 0);
    ZeroBits(16 * n, n);
    ZeroBits(16 * m, m);
    QuotZero(r.bankHeight);
    QuotZero(Times(r.bankWidth, Pipes(r)));
  }

  lemma OriginPixel(r: Layout, y: nat)
    requires y % 8 == 0
    ensures MicroPixel(r, 0, y) == 0
  {
    EightCells(y);
    EightCells(0);
  }

  /** When 16 * k rows of macro tiles fill exactly 2^32 bytes of each pipe and bank, the element below them
      has the offset of the first element. */
  lemma ColumnWraps(r: Layout, slice: nat, k: nat) returns (y: nat)
    requires Supported(r) && IsMacroTiled(r) && k > 0
    requires MacroPitch(r) > 0 && MacroHeight(r) > 0
    requires Times(Times(16 * k, MacroColumns(r)), MacroBytes(r)) == TWO_32
    ensures y == Times(MacroHeight(r), 16 * k) && ElementOffset(r, 0, y, slice) == ElementOffset(r, 0, 0, slice)
  {
    hide Times, Quot, Rem, MacroPitch, MacroHeight, MacroColumns, MacroBytes, MicroPixel, TiledPipe, TiledBank,
         Interleave, Bit;
    y := FarTile(r, k);
    OriginPixel(r, y);
    OriginPixel(r, 0);
    OriginParts(r, y, slice, Times(Times(r.bankHeight, r.numBanks / r.aspect), k), Times(r.numBanks / r.aspect, k));
    QuotZero(r.bankHeight);
    OriginParts(r, 0, slice, 0, 0);
    QuotZero(MacroPitch(r));
    QuotZero(MacroHeight(r));
    QuotZero(r.bankWidth);
    TimesZero(r.bytes);
    TimesZero(r.bankWidth);
    TimesZero(64 * r.bytes);
    TimesZero(MacroColumns(r));
    TimesZero(MacroBytes(r));
    assert MacroTotal(r, 0, 0) == 0;
    assert MacroTotal(r, 0, y) == TWO_32;
  }

  /** 65536 elements of 16 bytes in a row, two pipes and two banks. */
  const WIDE: Layout := Layout(0x1_0000, 16, 14, 4, 0, 1, 0, 8, 8, 2, 1, 0)

  /** The bound of `PaddedSizeFits` is exact: a layout whose first 16384 rows take 2^34 bytes wraps just below them. */
  lemma LargeSlicesWrap(slice: nat)
    ensures Supported(WIDE) && SliceExtent(WIDE, 0x4000) == MAX_SLICE && !SliceFits(WIDE, 0x4001)
    ensures ElementOffset(WIDE, 0, 0x4000, slice) == ElementOffset(WIDE, 0, 0, slice)
  {
    hide ElementOffset, SliceExtent, SliceFits, Times, MacroPitch, MacroHeight, MacroColumns, MacroBytes;
    WideSizes();
    WideExtent();
    var y := ColumnWraps(WIDE, slice, 8);
  }

  lemma WideExtent()
    ensures SliceExtent(WIDE, 0x4000) == MAX_SLICE && !SliceFits(WIDE, 0x4001)
  {
    hide MacroPitch, MacroHeight, MacroColumns, MacroBytes, RoundUp, Quot;
    WideSizes();
    assert SliceBytes(WIDE, 0x4000) == Times(Times(512, 128), 0x1_0000);
    assert SliceBytes(WIDE, 0x4001) == Times(Times(512, 129), 0x1_0000);
  }

  lemma WideSizes()
    ensures Supported(WIDE) && IsMacroTiled(WIDE) && Times(MacroHeight(WIDE), 128) == 0x4000
    ensures MacroPitch(WIDE) == 128 && MacroHeight(WIDE) == 128 && MacroBytes(WIDE) == 0x1_0000
    ensures MacroColumns(WIDE) == 512
    ensures Quot(RoundUp(0x4000, 128), 128) == 128 && Quot(RoundUp(0x4001, 128), 128) == 129
    ensures Times(Times(128, 512), 0x1_0000) == TWO_32 < Times(Times(512, 129), 0x1_0000)
  {
  }

  // ---------- the code's way of computing it ----------

  /** Counts the bank bits, then puts pipe and bank between the low eight bits and the rest of the total. */
  method MacroTiledOffset(r: Layout, x: nat, y: nat, slice: nat) returns (offset: nat)
    requires Supported(r) && IsMacroTiled(r)
    requires MacroPitch(r) > 0 && MacroHeight(r) > 0
    ensures offset == MacroOffset(r, x, y, slice)
  {
    hide MacroTotal, TiledPipe, TiledBank, MacroPitch, MacroHeight, MacroColumns;
    var pipeBits := if r.pipeConfig == 0 then 1 else 3;
    var total := MacroTotal(r, x, y) % TWO_32;
    var pipe := TiledPipe(r, x, y);
    var bank := TiledBank(r, x, y, slice);
    var bankBits := 0;
    while Pow2(bankBits) < r.numBanks
      invariant bankBits <= 4 && Pow2(bankBits) <= r.numBanks
      decreases 4 - bankBits
    {
      SmallPowers();
      bankBits := bankBits + 1;
    }
    SmallPowers();
    ShiftsAreProducts(r, pipeBits, bankBits);
    offset := total % 0x100 + pipe * Pow2(8) + bank * Pow2(8 + pipeBits) +
              total / 0x100 * Pow2(8 + pipeBits + bankBits);
    InterleaveExpanded(r, total, pipe, bank);
  }

  lemma SmallPowers()
    ensures Pow2(0) == 1 && Pow2(1) == 2 && Pow2(2) == 4 && Pow2(3) == 8 && Pow2(4) == 16 && Pow2(8) == 0x100
  {
    assert Pow2(4) == 16;
    assert Pow2(6) == 64;
  }

  lemma {:induction false} Pow2Sum(m: nat, n: nat)
    ensures Pow2(m + n) == Pow2(m) * Pow2(n)
  {
    if n > 0 {
      Pow2Sum(m, n - 1);
    }
  }

  lemma ShiftsAreProducts(r: Layout, pipeBits: nat, bankBits: nat)
    requires Pow2(pipeBits) == Pipes(r) && Pow2(bankBits) == r.numBanks
    ensures Pow2(8 + pipeBits) == 0x100 * Pipes(r)
    ensures Pow2(8 + pipeBits + bankBits) == 0x100 * Pipes(r) * r.numBanks
  {
    SmallPowers();
    Pow2Sum(8, pipeBits);
    Pow2Sum(8 + pipeBits, bankBits);
  }

  lemma InterleaveExpanded(r: Layout, total: nat, pipe: nat, bank: nat)
    ensures Interleave(r, total, pipe, bank) ==
              total % 0x100 + pipe * 0x100 + bank * (0x100 * Pipes(r)) + total / 0x100 * (0x100 * Pipes(r) * r.numBanks)
  {
    var n, p, t := r.numBanks, Pipes(r), total / 0x100;
    assert p * (bank + n * t) == p * bank + p * (n * t);
    assert p * (n * t) == t * (p * n);
  }
}
