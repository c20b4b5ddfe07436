/** The tiled address map in closed form: tables, neighbours and digits instead of bits. */
module TilingForms {
  import opened Arithmetic
  import opened GuestMemory
  import opened Tiling

  // ---------- the order of the elements in a micro tile ----------

  lemma BitDigits(n: nat)
    ensures Bit(n, 1) == n % 2 && Bit(n, 2) == n / 2 % 2 && Bit(n, 4) == n / 4 % 2 && Bit(n, 8) == n / 8 % 2
    ensures n / 2 % 4 == Bit(n, 2) + 2 * Bit(n, 4) && n % 4 == Bit(n, 1) + 2 * Bit(n, 2)
  {
    var k := n / 2;
    assert k == 2 * (k / 2) + k % 2 && k / 2 == n / 4;
    assert k % 4 == k % 2 + 2 * (k / 2 % 2) by {
      FourDigits(k);
    }
    FourDigits(n);
  }

  lemma FourDigits(n: nat)
    ensures n % 4 == n % 2 + 2 * (n / 2 % 2)
  {
  }

  /** Outside mode 0, elements are in Z-order: each level of the square contributes one bit of x and one of y. */
  lemma ThinTilesAreZOrdered(r: Layout, x: nat, y: nat, a: nat, b: nat)
    requires r.microTileMode != 0 && a < 2 && b < 2
    ensures MicroPixel(r, 2 * x + a, 2 * y + b) == (4 * MicroPixel(r, x, y) + a + 2 * b) % 64
  {
    ShiftedBits(x, a);
    ShiftedBits(y, b);
    hide Bit;
    LevelsShift(a, b, Bit(x, 1), Bit(y, 1), Bit(x, 2), Bit(y, 2), Bit(x, 4), Bit(y, 4));
    hide SixBits;
  }

  lemma LevelsShift(a: nat, b: nat, x0: nat, y0: nat, x1: nat, y1: nat, x2: nat, y2: nat)
    requires a < 2 && b < 2 && x0 < 2 && y0 < 2 && x1 < 2 && y1 < 2 && x2 < 2 && y2 < 2
    ensures SixBits(a, b, x0, y0, x1, y1) == (4 * SixBits(x0, y0, x1, y1, x2, y2) + a + 2 * b) % 64
  {
    var shifted := 4 * SixBits(x0, y0, x1, y1, x2, y2) + a + 2 * b;
    DivModUnique(shifted, 64, x2 + 2 * y2, SixBits(a, b, x0, y0, x1, y1));
  }

  lemma ThinTilesStart(r: Layout)
    requires r.microTileMode != 0
    ensures MicroPixel(r, 0, 0) == 0
  {
  }

  lemma ShiftedBits(n: nat, a: nat)
    requires a < 2
    ensures Bit(2 * n + a, 1) == a && Bit(2 * n + a, 2) == Bit(n, 1) && Bit(2 * n + a, 4) == Bit(n, 2)
  {
    assert (2 * n + a) / 2 == n && (2 * n + a) / 4 == n / 2;
  }

  /** In mode 0 the order depends on the element size: rows of eight, blocks of four by two, or of two by two, then the
      rest of x and y; the last case puts y first. */
  function DisplayOrder(bytes: nat, x: nat, y: nat): nat {
    if bytes == 1 then x % 8 + 8 * (y / 2 % 2) + 16 * (y % 2) + 32 * (y / 4 % 2)
    else if bytes == 2 then x % 8 + 8 * (y % 8)
    else if bytes == 4 then x % 4 + 4 * (y % 2) + 8 * (x / 4 % 2) + 16 * (y / 2 % 4)
    else if bytes == 8 then x % 2 + 2 * (y % 2) + 4 * (x / 2 % 4) + 16 * (y / 2 % 4)
    else y % 2 + 2 * (x % 8) + 16 * (y / 2 % 4)
  }

  lemma DisplayTiles(r: Layout, x: nat, y: nat)
    requires r.microTileMode == 0
    ensures MicroPixel(r, x, y) == DisplayOrder(r.bytes, x, y)
  {
    BitDigits(x);
    BitDigits(y);
    EightCells(x);
    EightCells(y);
    hide Bit;
  }

  // ---------- pipes and banks ----------

  /** The exclusive-or of the low `bits` bits. */
  function Exclusive(a: nat, b: nat, bits: nat): nat {
    if bits == 0 then 0 else (a + b) % 2 + 2 * Exclusive(a / 2, b / 2, bits - 1)
  }

  /** The pipes of the tiles in the first row, and what each row flips in them. */
  const PIPES_10: seq<nat> := [0, 2, 1, 3, 5, 7, 4, 6]
  const PIPES_OTHER: seq<nat> := [0, 1, 3, 2, 4, 5, 7, 6]

  lemma LowBits(n: nat, m: nat, unit: nat)
    requires m == 2 || m == 4 || m == 8 || m == 16
    requires unit == 1 || unit == 2 || unit == 4 || unit == 8
    ensures Bit(n % m, unit) == if unit < m then Bit(n, unit) else 0
  {
    LowDigits(n, m);
    FourBitDigits(Bit(n, 1), if m > 2 then Bit(n, 2) else 0, if m > 4 then Bit(n, 4) else 0,
                  if m > 8 then Bit(n, 8) else 0);
    hide Bit;
  }

  lemma LowDigits(n: nat, m: nat)
    requires m == 2 || m == 4 || m == 8 || m == 16
    ensures n % m == Bit(n, 1) + (if m > 2 then 2 * Bit(n, 2) else 0) + (if m > 4 then 4 * Bit(n, 4) else 0) +
                     if m > 8 then 8 * Bit(n, 8) else 0
  {
    hide Bit;
    SplitBits(n);
  }

  lemma FourBitDigits(a: nat, b: nat, c: nat, d: nat)
    requires a < 2 && b < 2 && c < 2 && d < 2
    ensures var n := a + 2 * b + 4 * c + 8 * d; Bit(n, 1) == a && Bit(n, 2) == b && Bit(n, 4) == c && Bit(n, 8) == d
  {
    var n := a + 2 * b + 4 * c + 8 * d;
    assert n / 2 == b + 2 * c + 4 * d && n / 4 == c + 2 * d && n / 8 == d;
  }

  lemma ExclusiveStep(a: nat, b: nat, bits: nat)
    requires bits > 0
    ensures Exclusive(a, b, bits) == Xor(a % 2, b % 2) + 2 * Exclusive(a / 2, b / 2, bits - 1)
  {
    OddSum(a, b);
  }

  lemma Exclusive3(a: nat, b: nat)
    ensures Exclusive(a, b, 3) ==
            Xor(Bit(a, 1), Bit(b, 1)) + 2 * Xor(Bit(a, 2), Bit(b, 2)) + 4 * Xor(Bit(a, 4), Bit(b, 4))
  {
    assert Exclusive(a / 2 / 2 / 2, b / 2 / 2 / 2, 0) == 0;
    hide Exclusive, Xor;
    ExclusiveStep(a, b, 3);
    ExclusiveStep(a / 2, b / 2, 2);
    ExclusiveStep(a / 2 / 2, b / 2 / 2, 1);
    Halves(a);
    Halves(b);
  }

  lemma Exclusive4(a: nat, b: nat)
    ensures Exclusive(a, b, 4) ==
            Xor(Bit(a, 1), Bit(b, 1)) + 2 * Xor(Bit(a, 2), Bit(b, 2)) + 4 * Xor(Bit(a, 4), Bit(b, 4)) +
            8 * Xor(Bit(a, 8), Bit(b, 8))
  {
    assert Exclusive(a / 2 / 2 / 2 / 2, b / 2 / 2 / 2 / 2, 0) == 0;
    hide Exclusive, Xor;
    ExclusiveStep(a, b, 4);
    ExclusiveStep(a / 2, b / 2, 3);
    ExclusiveStep(a / 2 / 2, b / 2 / 2, 2);
    ExclusiveStep(a / 2 / 2 / 2, b / 2 / 2 / 2, 1);
    Halves(a);
    Halves(b);
  }

  lemma Halves(n: nat)
    ensures n / 2 / 2 == n / 4 && n / 2 / 2 / 2 == n / 8
    ensures n % 2 == Bit(n, 1) && n / 2 % 2 == Bit(n, 2) && n / 4 % 2 == Bit(n, 4) && n / 8 % 2 == Bit(n, 8)
  {
  }

  lemma OddSum(a: nat, b: nat)
    ensures (a + b) % 2 == (a % 2 + b % 2) % 2
  {
  }

  /** The pipe of a micro tile: a checkerboard with two pipes; with eight, the pipe of its column in the first row,
      exclusive-or the number of its row. */
  lemma PipeOfTile(r: Layout, x: nat, y: nat)
    ensures r.pipeConfig == 0 ==> TiledPipe(r, x, y) == (x / 8 + y / 8) % 2
    ensures r.pipeConfig == 10 ==> TiledPipe(r, x, y) == Exclusive(PIPES_10[x / 8 % 8], y / 8 % 8, 3)
    ensures r.pipeConfig != 0 && r.pipeConfig != 10 ==>
            TiledPipe(r, x, y) == Exclusive(PIPES_OTHER[x / 8 % 8], y / 8 % 8, 3)
  {
    if r.pipeConfig == 0 {
      OddSum(x / 8, y / 8);
    } else {
      EightPipes(r, x, y);
    }
  }

  lemma EightPipes(r: Layout, x: nat, y: nat)
    requires r.pipeConfig != 0
    ensures TiledPipe(r, x, y) ==
            Exclusive(if r.pipeConfig == 10 then PIPES_10[x / 8 % 8] else PIPES_OTHER[x / 8 % 8], y / 8 % 8, 3)
  {
    hide Bit, Exclusive, Xor;
    var tx, ty := x / 8, y / 8;
    var column := if r.pipeConfig == 10 then PIPES_10[tx % 8] else PIPES_OTHER[tx % 8];
    PipeColumns(tx % 8);
    Exclusive3(column, ty % 8);
    ThreeLow(tx);
    ThreeLow(ty);
    XorRotates(Bit(tx, 2), Bit(ty, 1), Bit(tx, 4));
    XorRotates(Bit(tx, 1), Bit(ty, 1), Bit(tx, 2));
  }

  lemma ThreeLow(n: nat)
    ensures Bit(n % 8, 1) == Bit(n, 1) && Bit(n % 8, 2) == Bit(n, 2) && Bit(n % 8, 4) == Bit(n, 4)
  {
    LowBits(n, 8, 1);
    LowBits(n, 8, 2);
    LowBits(n, 8, 4);
  }

  lemma XorRotates(a: nat, b: nat, c: nat)
    ensures Xor(Xor(a, b), c) == Xor(Xor(a, c), b)
  {
  }

  lemma PipeColumns(n: nat)
    requires n < 8
    ensures var c := PIPES_10[n];
            Bit(c, 1) == Xor(Bit(n, 2), Bit(n, 4)) && Bit(c, 2) == Bit(n, 1) && Bit(c, 4) == Bit(n, 4)
    ensures var c := PIPES_OTHER[n];
            Bit(c, 1) == Xor(Bit(n, 1), Bit(n, 2)) && Bit(c, 2) == Bit(n, 2) && Bit(c, 4) == Bit(n, 4)
  {
  }

  /** What each row of micro tiles flips in the bank. */
  const ROWS_16: seq<nat> := [0, 8, 4, 12, 2, 10, 6, 14, 3, 11, 7, 15, 1, 9, 5, 13]
  const ROWS_8: seq<nat> := [0, 4, 2, 6, 3, 7, 1, 5]
  const ROWS_4: seq<nat> := [0, 2, 1, 3]
  const ROWS_2: seq<nat> := [0, 1]

  function RowFlip(banks: nat, row: nat): nat
    requires (banks == 2 || banks == 4 || banks == 8 || banks == 16) && row < banks
  {
    if banks == 16 then ROWS_16[row] else if banks == 8 then ROWS_8[row] else if banks == 4 then ROWS_4[row]
    else ROWS_2[row]
  }

  lemma RowFlipBits(banks: nat, row: nat)
    requires (banks == 2 || banks == 4 || banks == 8 || banks == 16) && row < banks
    ensures var c := RowFlip(banks, row);
            banks == 16 ==> Bit(c, 1) == Bit(row, 8) && Bit(c, 2) == Xor(Bit(row, 4), Bit(row, 8)) &&
                            Bit(c, 4) == Bit(row, 2) && Bit(c, 8) == Bit(row, 1)
    ensures var c := RowFlip(banks, row);
            banks == 8 ==> Bit(c, 1) == Bit(row, 4) && Bit(c, 2) == Xor(Bit(row, 2), Bit(row, 4)) &&
                           Bit(c, 4) == Bit(row, 1) && Bit(c, 8) == 0
    ensures var c := RowFlip(banks, row);
            banks == 4 ==> Bit(c, 1) == Bit(row, 2) && Bit(c, 2) == Bit(row, 1) && Bit(c, 4) == Bit(c, 8) == 0
    ensures var c := RowFlip(banks, row);
            banks == 2 ==> Bit(c, 1) == Bit(row, 1) && Bit(c, 2) == Bit(c, 4) == Bit(c, 8) == 0
  {
    if banks == 16 {
      if row < 8 { LowRows(row); } else { HighRows(row); }
    } else if banks == 8 {
      EightRows(row);
    }
  }

  lemma LowRows(row: nat)
    requires row < 8
    ensures var c := ROWS_16[row]; Bit(c, 1) == Bit(row, 8) && Bit(c, 2) == Xor(Bit(row, 4), Bit(row, 8)) &&
                                   Bit(c, 4) == Bit(row, 2) && Bit(c, 8) == Bit(row, 1)
  {
  }

  lemma HighRows(row: nat)
    requires 8 <= row < 16
    ensures var c := ROWS_16[row]; Bit(c, 1) == Bit(row, 8) && Bit(c, 2) == Xor(Bit(row, 4), Bit(row, 8)) &&
                                   Bit(c, 4) == Bit(row, 2) && Bit(c, 8) == Bit(row, 1)
  {
  }

  lemma EightRows(row: nat)
    requires row < 8
    ensures var c := ROWS_8[row]; Bit(c, 1) == Bit(row, 4) && Bit(c, 2) == Xor(Bit(row, 2), Bit(row, 4)) &&
                                  Bit(c, 4) == Bit(row, 1) && Bit(c, 8) == 0
  {
  }

  lemma XorAssociates(a: nat, b: nat, c: nat)
    requires a < 2
    ensures Xor(Xor(a, b), c) == Xor(a, Xor(b, c)) && Xor(a, 0) == a
  {
  }

  /** Bit i of the bank before rotation and swizzle. */
  lemma RawBank(banks: nat, tx: nat, ty: nat, i: nat)
    requires i < 4 && (banks == 2 || banks == 4 || banks == 8 || banks == 16)
    ensures (if Unit(i) < banks then BankBit(banks, tx, ty, i) else 0) ==
            Xor(Bit(tx % banks, Unit(i)), Bit(RowFlip(banks, ty % banks), Unit(i)))
  {
    hide Bit, Xor, RowFlip;
    RowFlipBits(banks, ty % banks);
    LowBits(tx, banks, Unit(i));
    LowBits(ty, banks, 1);
    LowBits(ty, banks, 2);
    LowBits(ty, banks, 4);
    LowBits(ty, banks, 8);
    var b := if banks == 16 then Bit(ty, 4) else Bit(ty, 2);
    XorAssociates(Bit(tx, 2), b, if banks == 16 then Bit(ty, 8) else Bit(ty, 4));
    XorAssociates(0, 0, 0);
  }

  /** The bits of an exclusive-or of numbers below sixteen. */
  lemma ExclusiveBits(a: nat, b: nat, i: nat)
    requires i < 4
    ensures Bit(Exclusive(a, b, 4), Unit(i)) == Xor(Bit(a, Unit(i)), Bit(b, Unit(i)))
  {
    Exclusive4(a, b);
    FourBitDigits(Xor(Bit(a, 1), Bit(b, 1)), Xor(Bit(a, 2), Bit(b, 2)), Xor(Bit(a, 4), Bit(b, 4)),
                  Xor(Bit(a, 8), Bit(b, 8)));
  }

  /** What the slice flips in the bank. */
  function SliceFlip(r: Layout, slice: nat): nat
    requires r.numBanks > 1
  {
    if r.arrayMode == 4 then Times(r.numBanks / 2 - 1, slice) % r.numBanks else 0
  }

  /** Bank number without rotation: the column of the bank-sized tile, flipped by its row. */
  function FirstBank(r: Layout, x: nat, y: nat): nat
    requires Supported(r) && IsMacroTiled(r)
  {
    var column, row := Quot(x / 8, Times(r.bankWidth, Pipes(r))), Quot(y / 8, r.bankHeight);
    Exclusive(column % r.numBanks, RowFlip(r.numBanks, row % r.numBanks), 4)
  }

  function SwizzleFlip(r: Layout): nat
    requires r.numBanks > 0
  {
    r.bankSwizzle % r.numBanks
  }

  lemma FirstBankBit(r: Layout, x: nat, y: nat, i: nat)
    requires Supported(r) && IsMacroTiled(r) && i < 4
    ensures var tx, ty := Quot(x / 8, Times(r.bankWidth, Pipes(r))), Quot(y / 8, r.bankHeight);
            Bit(FirstBank(r, x, y), Unit(i)) == if Unit(i) < r.numBanks then BankBit(r.numBanks, tx, ty, i) else 0
  {
    hide Bit, Xor, Exclusive, BankBit, RowFlip, Quot, Times, Unit, Pipes;
    var tx, ty := Quot(x / 8, Times(r.bankWidth, Pipes(r))), Quot(y / 8, r.bankHeight);
    RawBank(r.numBanks, tx, ty, i);
    ExclusiveBits(tx % r.numBanks, RowFlip(r.numBanks, ty % r.numBanks), i);
  }

  lemma FlipBits(r: Layout, slice: nat, i: nat)
    requires (r.numBanks == 2 || r.numBanks == 4 || r.numBanks == 8 || r.numBanks == 16) && i < 4
    ensures Bit(SliceFlip(r, slice), Unit(i)) ==
              if Unit(i) < r.numBanks && r.arrayMode == 4 then Bit(Times(r.numBanks / 2 - 1, slice), Unit(i)) else 0
    ensures Bit(SwizzleFlip(r), Unit(i)) == if Unit(i) < r.numBanks then Bit(r.bankSwizzle, Unit(i)) else 0
  {
    hide Bit, Times;
    LowBits(r.bankSwizzle, r.numBanks, Unit(i));
    LowBits(Times(r.numBanks / 2 - 1, slice), r.numBanks, Unit(i));
    NoBits(i);
  }

  lemma BankDigit(r: Layout, x: nat, y: nat, slice: nat, i: nat)
    requires Supported(r) && IsMacroTiled(r) && i < 4
    ensures FinalBankBit(r, Quot(x / 8, Times(r.bankWidth, Pipes(r))), Quot(y / 8, r.bankHeight), slice, i) ==
            Bit(Exclusive(Exclusive(FirstBank(r, x, y), SliceFlip(r, slice), 4), SwizzleFlip(r), 4), Unit(i))
  {
    var rotated := Exclusive(FirstBank(r, x, y), SliceFlip(r, slice), 4);
    hide Bit, Xor, Exclusive, BankBit, Quot, Times, FirstBank, SliceFlip, SwizzleFlip, Unit, Pipes;
    FirstBankBit(r, x, y, i);
    FlipBits(r, slice, i);
    ExclusiveBits(FirstBank(r, x, y), SliceFlip(r, slice), i);
    ExclusiveBits(rotated, SwizzleFlip(r), i);
    XorAssociates(0, 0, 0);
  }

  lemma NoBits(i: nat)
    requires i < 4
    ensures Bit(0, Unit(i)) == 0
  {
  }

  /** The bank of a micro tile: its column of bank-sized tiles, flipped by the row, by the slice in array mode 4 and
      by the swizzle of the image. */
  lemma BankOfTile(r: Layout, x: nat, y: nat, slice: nat)
    requires Supported(r) && IsMacroTiled(r)
    ensures TiledBank(r, x, y, slice) ==
            Exclusive(Exclusive(FirstBank(r, x, y), SliceFlip(r, slice), 4), SwizzleFlip(r), 4)
  {
    var rotated := Exclusive(FirstBank(r, x, y), SliceFlip(r, slice), 4);
    hide Bit, Xor, Exclusive, FinalBankBit, Quot, Times, FirstBank, SliceFlip, SwizzleFlip, Pipes;
    BankDigit(r, x, y, slice, 0);
    BankDigit(r, x, y, slice, 1);
    BankDigit(r, x, y, slice, 2);
    BankDigit(r, x, y, slice, 3);
    ExclusiveIsItsBits(rotated, SwizzleFlip(r));
  }

  lemma ExclusiveIsItsBits(a: nat, b: nat)
    ensures var c := Exclusive(a, b, 4); c == Bit(c, 1) + 2 * Bit(c, 2) + 4 * Bit(c, 4) + 8 * Bit(c, 8)
  {
    hide Bit, Exclusive, Xor;
    Exclusive4(a, b);
    ExclusiveBits(a, b, 0);
    ExclusiveBits(a, b, 1);
    ExclusiveBits(a, b, 2);
    ExclusiveBits(a, b, 3);
  }

  // ---------- where the parts of the address go ----------

  /** Low eight bits of the total, pipe, bank, rest of the total. */
  lemma InterleaveDecodes(r: Layout, total: nat, pipe: nat, bank: nat)
    requires pipe < Pipes(r) && bank < r.numBanks
    ensures var offset := Interleave(r, total, pipe, bank);
            offset % 0x100 == total % 0x100 && offset / 0x100 % Pipes(r) == pipe &&
            offset / 0x100 / Pipes(r) % r.numBanks == bank && offset / 0x100 / Pipes(r) / r.numBanks == total / 0x100
  {
    var inner := bank + Times(r.numBanks, total / 0x100);
    var high := pipe + Times(Pipes(r), inner);
    DivModUnique(Interleave(r, total, pipe, bank), 0x100, high, total % 0x100);
    DivModUnique(high, Pipes(r), inner, pipe);
    DivModUnique(inner, r.numBanks, total / 0x100, bank);
  }

  /** An element's column by its digits, outermost first: the macro tile, one of its `aspect` columns of banks, the
      micro tile of that bank, the pipe and the element. */
  ghost predicate Across(r: Layout, x: nat, macro: nat, bank: nat, tile: nat, pipe: nat, element: nat) {
    bank < r.aspect && tile < r.bankWidth && pipe < Pipes(r) && element < 8 &&
    x == 8 * (Times(Pipes(r), Times(r.bankWidth, Times(r.aspect, macro) + bank) + tile) + pipe) + element
  }

  /** The same for its row; a macro tile is `numBanks / aspect` rows of banks high. */
  ghost predicate Down(r: Layout, y: nat, macro: nat, bank: nat, tile: nat, element: nat)
    requires r.aspect > 0
  {
    bank < r.numBanks / r.aspect && tile < r.bankHeight && element < 8 &&
    y == 8 * (Times(r.bankHeight, Times(r.numBanks / r.aspect, macro) + bank) + tile) + element
  }

  lemma AcrossParts(r: Layout, x: nat, macro: nat, bank: nat, tile: nat, pipe: nat, element: nat)
    requires Supported(r) && IsMacroTiled(r) && MacroPitch(r) > 0 && MacroHeight(r) > 0
    requires Across(r, x, macro, bank, tile, pipe, element)
    ensures Quot(x, MacroPitch(r)) == macro && TileColumn(r, x) == tile && x % 8 == element && x / 8 % Pipes(r) == pipe
    ensures Quot(x / 8, Times(r.bankWidth, Pipes(r))) == Times(r.aspect, macro) + bank
  {
    hide Times, Quot, Rem, MacroPitch, MacroHeight, Pipes;
    TileCoordinates(r, x, 0);
    var high := Times(r.bankWidth, Times(r.aspect, macro) + bank) + tile;
    DivModUnique(x, 8, Times(Pipes(r), high) + pipe, element);
    QuotRemUnique(x / 8, Pipes(r), high, pipe);
    QuotIsDiv(x / 8, Pipes(r));
    RemIsMod(x / 8, Pipes(r));
    QuotRemUnique(high, r.bankWidth, Times(r.aspect, macro) + bank, tile);
    DigitsUnique(r.bankWidth, Times(r.aspect, macro) + bank, tile,
                 Quot(x / 8, Times(r.bankWidth, Pipes(r))), TileColumn(r, x));
    QuotRemUnique(Times(r.aspect, macro) + bank, r.aspect, macro, bank);
    QuotIsDiv(Times(r.aspect, macro) + bank, r.aspect);
  }

  lemma RemIsMod(n: nat, m: nat)
    requires m > 0
    ensures Rem(n, m) == n % m
  {
  }

  lemma DownParts(r: Layout, y: nat, macro: nat, bank: nat, tile: nat, element: nat)
    requires Supported(r) && IsMacroTiled(r) && MacroPitch(r) > 0 && MacroHeight(r) > 0
    requires Down(r, y, macro, bank, tile, element)
    ensures Quot(y, MacroHeight(r)) == macro && TileRow(r, y) == tile && y % 8 == element
    ensures Quot(y / 8, r.bankHeight) == Times(r.numBanks / r.aspect, macro) + bank
  {
    hide Times, Quot, Rem, MacroPitch, MacroHeight;
    TileCoordinates(r, 0, y);
    var high := Times(r.numBanks / r.aspect, macro) + bank;
    DivModUnique(y, 8, Times(r.bankHeight, high) + tile, element);
    DigitsUnique(r.bankHeight, high, tile, Quot(y / 8, r.bankHeight), TileRow(r, y));
    QuotRemUnique(high, r.numBanks / r.aspect, macro, bank);
    QuotIsDiv(high, r.numBanks / r.aspect);
  }

  lemma PixelInTile(r: Layout, x: nat, y: nat)
    ensures MicroPixel(r, x, y) == MicroPixel(r, x % 8, y % 8)
  {
    ThreeLow(x);
    ThreeLow(y);
    hide Bit, SixBits;
  }

  /** The macro tiles that a row of the padded image takes. */
  lemma ColumnsHoldPitch(r: Layout)
    requires MacroPitch(r) > 0
    ensures r.pitch <= Times(MacroPitch(r), MacroColumns(r)) < r.pitch + MacroPitch(r)
  {
    hide Times, Quot, Rem, MacroPitch;
    var m := MacroPitch(r);
    QuotRem(r.pitch + m - 1, m);
    QuotExact(m, Quot(r.pitch + m - 1, m));
  }

  /** In each bank of each pipe, macro tiles follow each other along the rows of the padded image, and each holds the
      micro tiles of its bank along rows, whole. */
  lemma MacroTotalParts(r: Layout, x: nat, y: nat, macroX: nat, bankX: nat, tileX: nat, pipe: nat, dx: nat,
                        macroY: nat, bankY: nat, tileY: nat, dy: nat)
    requires Supported(r) && IsMacroTiled(r) && MacroPitch(r) > 0 && MacroHeight(r) > 0
    requires Across(r, x, macroX, bankX, tileX, pipe, dx) && Down(r, y, macroY, bankY, tileY, dy)
    ensures var tile := Times(r.bankWidth, Times(r.bankHeight, Times(MacroColumns(r), macroY) + macroX) + tileY) +
                        tileX;
            MacroTotal(r, x, y) == Times(r.bytes, 64 * tile + MicroPixel(r, dx, dy))
  {
    hide Times, Quot, Rem, MicroPixel, MacroPitch, MacroHeight, MacroTotal, MacroColumns, TileRow, TileColumn, Pipes,
         Across, Down;
    AcrossParts(r, x, macroX, bankX, tileX, pipe, dx);
    DownParts(r, y, macroY, bankY, tileY, dy);
    PixelInTile(r, x, y);
    MacroDigits(r, x, y);
  }

  /** The offset holds the low eight bits of that total, then the pipe, the bank and the rest of the total. */
  lemma MacroTiledParts(r: Layout, x: nat, y: nat, slice: nat)
    requires Supported(r) && r.arrayMode == 4 && r.microTileThickness == 1
    requires r.bankWidth > 0 && r.bankHeight > 0 && r.numBanks > 0 && r.aspect > 0
    requires MacroPitch(r) > 0 && MacroHeight(r) > 0
    ensures var total, offset := MacroTotal(r, x, y) % TWO_32, ElementOffset(r, x, y, slice);
            offset % 0x100 == total % 0x100 && offset / 0x100 % Pipes(r) == TiledPipe(r, x, y) &&
            offset / 0x100 / Pipes(r) % r.numBanks == TiledBank(r, x, y, slice) &&
            offset / 0x100 / Pipes(r) / r.numBanks == total / 0x100
  {
    hide Times, MacroPitch, MacroHeight, MacroTotal, TiledPipe, TiledBank, MacroColumns, Pipes, Interleave;
    BankBelow(r, x, y, slice);
    InterleaveDecodes(r, MacroTotal(r, x, y) % TWO_32, TiledPipe(r, x, y), TiledBank(r, x, y, slice));
  }

  /** The bank-sized tile that decides the bank, by digits. */
  lemma BankParts(r: Layout, x: nat, y: nat, macroX: nat, bankX: nat, tileX: nat, pipe: nat, dx: nat,
                  macroY: nat, bankY: nat, tileY: nat, dy: nat)
    requires Supported(r) && IsMacroTiled(r) && MacroPitch(r) > 0 && MacroHeight(r) > 0
    requires Across(r, x, macroX, bankX, tileX, pipe, dx) && Down(r, y, macroY, bankY, tileY, dy)
    ensures FirstBank(r, x, y) ==
            Exclusive((Times(r.aspect, macroX) + bankX) % r.numBanks,
                      RowFlip(r.numBanks, (Times(r.numBanks / r.aspect, macroY) + bankY) % r.numBanks), 4)
  {
    hide Times, Quot, Rem, MacroPitch, MacroHeight, TileRow, TileColumn, Pipes, Across, Down, Exclusive, RowFlip;
    AcrossParts(r, x, macroX, bankX, tileX, pipe, dx);
    DownParts(r, y, macroY, bankY, tileY, dy);
  }

  predicate NoMacroTiles(r: Layout) {
    r.bankWidth == 0 || r.bankHeight == 0 || r.numBanks == 0 || r.aspect == 0
  }

  /** A micro-tiled address by digits: micro tiles along the rows of the image, each whole. */
  lemma MicroTiledParts(r: Layout, x: nat, y: nat, slice: nat, tileX: nat, dx: nat, tileY: nat, dy: nat)
    requires Supported(r) && (r.arrayMode != 4 || r.microTileThickness != 1 || NoMacroTiles(r))
    requires r.tilingMode in {5, 9, 13}
    requires dx < 8 && dy < 8 && x == 8 * tileX + dx && y == 8 * tileY + dy
    ensures ElementOffset(r, x, y, slice) ==
            Times(r.bytes, 64 * (Times((r.pitch + 7) / 8, tileY) + tileX) + MicroPixel(r, dx, dy))
  {
    hide Times, MicroPixel;
    DivModUnique(x, 8, tileX, dx);
    DivModUnique(y, 8, tileY, dy);
    PixelInTile(r, x, y);
    OnlyMacroUsesSlices(r, x, y, slice);
    MicroOffsetDigits(r, x, y);
  }

  /** Every other image is linear. */
  lemma LinearParts(r: Layout, x: nat, y: nat, slice: nat)
    requires Supported(r) && (r.arrayMode != 4 || r.microTileThickness != 1 || NoMacroTiles(r))
    requires r.tilingMode !in {5, 9, 13}
    ensures ElementOffset(r, x, y, slice) == Times(r.bytes, Times(r.pitch, y) + x)
  {
    hide Times, MicroPixel;
    OnlyMacroUsesSlices(r, x, y, slice);
    LinearOffsetDigits(r, x, y);
  }
}
