/** Copying images between tiled guest memory and the linear layout of upload and readback buffers. */
module ImageCopy {
  import opened Arithmetic
  import opened GuestMemory
  import opened GpuStream
  import opened Tiling

  const MAX_LEVELS: nat := 16

  /** The image resource; `base` holds the tiling fields shared by all mip levels. */
  datatype Image = Image(width: nat, height: nat, depth: nat, pitch: nat, levels: nat, layers: nat, imageType: nat,
                         compressed: bool, base: Layout, guestAddress: nat, guestSize: nat,
                         mipOffset: seq<nat>, mipSize: seq<nat>, mipPitch: seq<nat>, mipHeight: seq<nat>) {
    predicate Valid() {
      |mipOffset| == |mipSize| == |mipPitch| == |mipHeight| == MAX_LEVELS && Bytes() > 0 && guestSize >= Bytes()
    }

    function Bytes(): nat { base.bytes }

    function Levels(): (n: nat)
      ensures 1 <= n <= MAX_LEVELS
    {
      if levels < 1 then 1 else if levels > MAX_LEVELS then MAX_LEVELS else levels
    }

    function Layers(): (n: nat)
      ensures n >= 1
    {
      if layers < 1 then 1 else layers
    }

    predicate Is3D() { imageType == 10 }

    function MipDepth(mip: nat): (n: nat)
      ensures n >= 1
    {
      if Is3D() then AtLeastOne(Quot(depth, Pow2(mip))) else 1
    }

    function CopyWidth(mip: nat): (n: nat)
      ensures n >= 1
    {
      var w := AtLeastOne(Quot(width, Pow2(mip)));
      if compressed then AtLeastOne((w + 3) / 4) else w
    }

    function CopyHeight(mip: nat): (n: nat)
      ensures n >= 1
    {
      var h := AtLeastOne(Quot(height, Pow2(mip)));
      if compressed then AtLeastOne((h + 3) / 4) else h
    }

    function MipLayout(mip: nat): Layout
      requires Valid() && mip < Levels()
    {
      base.(pitch := if mipPitch[mip] != 0 then mipPitch[mip] else AtLeastOne(Quot(pitch, Pow2(mip))))
    }

    function LayerSize(mip: nat): nat
      requires Valid() && mip < Levels()
    {
      Quot(mipSize[mip], Layers())
    }

    function SliceSize(mip: nat): nat
      requires Valid() && mip < Levels()
    {
      Quot(LayerSize(mip), MipDepth(mip))
    }
  }

  function AtLeastOne(n: nat): nat {
    if n < 1 then 1 else n
  }

  /** Where a subresource lies in the linear buffer. */
  datatype Footprint = Footprint(offset: nat, rowPitch: nat, rows: nat)

  datatype Texel = Texel(layer: nat, mip: nat, z: nat, y: nat, x: nat)

  predicate InImage(im: Image, t: Texel) {
    t.layer < im.Layers() && t.mip < im.Levels() && t.z < im.MipDepth(t.mip) &&
    t.y < im.CopyHeight(t.mip) && t.x < im.CopyWidth(t.mip)
  }

  function Subresource(im: Image, layer: nat, mip: nat): nat {
    if im.Is3D() then mip else mip + Times(layer, im.Levels())
  }

  predicate Footprinted(im: Image, fps: seq<Footprint>) {
    forall layer, mip :: 0 <= layer < im.Layers() && 0 <= mip < im.Levels() ==> Subresource(im, layer, mip) < |fps|
  }

  /** The texel's offset in the linear buffer. */
  function Linear(im: Image, fps: seq<Footprint>, t: Texel): nat
    requires Footprinted(im, fps) && InImage(im, t)
  {
    var fp := fps[Subresource(im, t.layer, t.mip)];
    fp.offset + Times(Times(t.z, fp.rowPitch), fp.rows) + Times(t.y, fp.rowPitch) + Times(t.x, im.Bytes())
  }

  predicate Addressable(im: Image) {
    im.Valid() && forall mip :: 0 <= mip < im.Levels() ==> Supported(im.MipLayout(mip))
  }

  /** The texel's offset from the image's guest address. */
  function Tiled(im: Image, t: Texel): nat
    requires Addressable(im) && InImage(im, t)
  {
    im.mipOffset[t.mip] + Times(t.layer, im.LayerSize(t.mip)) + Times(t.z, im.SliceSize(t.mip)) +
    ElementOffset(im.MipLayout(t.mip), t.x, t.y, SliceNumber(im, t))
  }

  // ---------- the order of the copy loops ----------

  function Tabulate(n: nat, f: nat -> seq<Texel>): seq<Texel> {
    if n == 0 then [] else Tabulate(n - 1, f) + f(n - 1)
  }

  function RowOf(layer: nat, mip: nat, z: nat, y: nat): nat -> seq<Texel> {
    (x: nat) => [Texel(layer, mip, z, y, x)]
  }

  function SliceOf(im: Image, layer: nat, mip: nat, z: nat): nat -> seq<Texel> {
    (y: nat) => Tabulate(im.CopyWidth(mip), RowOf(layer, mip, z, y))
  }

  function MipOf(im: Image, layer: nat, mip: nat): nat -> seq<Texel> {
    (z: nat) => Tabulate(im.CopyHeight(mip), SliceOf(im, layer, mip, z))
  }

  function LayerOf(im: Image, layer: nat): nat -> seq<Texel> {
    (mip: nat) => Tabulate(im.MipDepth(mip), MipOf(im, layer, mip))
  }

  function ImageOf(im: Image): nat -> seq<Texel> {
    (layer: nat) => Tabulate(im.Levels(), LayerOf(im, layer))
  }

  /** All texels of the image, in the order the copy loops visit them. */
  function Texels(im: Image): seq<Texel> {
    Tabulate(im.Layers(), ImageOf(im))
  }

  lemma {:induction false} TabulateMember(n: nat, f: nat -> seq<Texel>, t: Texel)
    ensures t in Tabulate(n, f) <==> exists i :: 0 <= i < n && t in f(i)
  {
    if n > 0 {
      TabulateMember(n - 1, f, t);
    }
  }

  /** The loops visit exactly the texels of the image. */
  lemma TexelsMember(im: Image, t: Texel)
    ensures t in Texels(im) <==> InImage(im, t)
  {
    TabulateMember(im.Layers(), ImageOf(im), t);
    forall layer: nat ensures t in ImageOf(im)(layer) <==> t.layer == layer && InMips(im, t) {
      LayerMember(im, layer, t);
    }
    if t.layer < im.Layers() && InMips(im, t) {
      assert t in ImageOf(im)(t.layer);
    }
  }

  predicate InMips(im: Image, t: Texel) {
    t.mip < im.Levels() && t.z < im.MipDepth(t.mip) && t.y < im.CopyHeight(t.mip) && t.x < im.CopyWidth(t.mip)
  }

  lemma LayerMember(im: Image, layer: nat, t: Texel)
    ensures t in ImageOf(im)(layer) <==> t.layer == layer && InMips(im, t)
  {
    TabulateMember(im.Levels(), LayerOf(im, layer), t);
    forall mip: nat
      ensures t in LayerOf(im, layer)(mip) <==>
                t.layer == layer && t.mip == mip && t.z < im.MipDepth(mip) && t.y < im.CopyHeight(mip) &&
                t.x < im.CopyWidth(mip)
    {
      MipMember(im, layer, mip, t);
    }
    if t.layer == layer && InMips(im, t) {
      assert t in LayerOf(im, layer)(t.mip);
    }
  }

  lemma MipMember(im: Image, layer: nat, mip: nat, t: Texel)
    ensures t in LayerOf(im, layer)(mip) <==>
              t.layer == layer && t.mip == mip && t.z < im.MipDepth(mip) && t.y < im.CopyHeight(mip) &&
              t.x < im.CopyWidth(mip)
  {
    TabulateMember(im.MipDepth(mip), MipOf(im, layer, mip), t);
    forall z: nat
      ensures t in MipOf(im, layer, mip)(z) <==>
                t.layer == layer && t.mip == mip && t.z == z && t.y < im.CopyHeight(mip) && t.x < im.CopyWidth(mip)
    {
      SliceMember(im, layer, mip, z, t);
    }
    if t.layer == layer && t.mip == mip && t.z < im.MipDepth(mip) && t.y < im.CopyHeight(mip) &&
       t.x < im.CopyWidth(mip) {
      assert t in MipOf(im, layer, mip)(t.z);
    }
  }

  lemma SliceMember(im: Image, layer: nat, mip: nat, z: nat, t: Texel)
    ensures t in MipOf(im, layer, mip)(z) <==>
              t.layer == layer && t.mip == mip && t.z == z && t.y < im.CopyHeight(mip) && t.x < im.CopyWidth(mip)
  {
    TabulateMember(im.CopyHeight(mip), SliceOf(im, layer, mip, z), t);
    forall y: nat
      ensures t in SliceOf(im, layer, mip, z)(y) <==>
                t.layer == layer && t.mip == mip && t.z == z && t.y == y && t.x < im.CopyWidth(mip)
    {
      TabulateMember(im.CopyWidth(mip), RowOf(layer, mip, z, y), t);
      if t.layer == layer && t.mip == mip && t.z == z && t.y == y && t.x < im.CopyWidth(mip) {
        assert t in RowOf(layer, mip, z, y)(t.x);
      }
    }
    if t.layer == layer && t.mip == mip && t.z == z && t.y < im.CopyHeight(mip) && t.x < im.CopyWidth(mip) {
      assert t in SliceOf(im, layer, mip, z)(t.y);
    }
  }

  // ---------- moving elements between buffers ----------

  /** One element copy: `size` bytes from offset `from` of the source to offset `to` of the destination. */
  datatype Transfer = Transfer(to: nat, from: nat)

  function CopyElement(into: seq<Byte>, source: seq<Byte>, c: Transfer, size: nat): (r: seq<Byte>)
    requires c.to + size <= |into| && c.from + size <= |source|
    ensures |r| == |into|
    ensures forall a :: 0 <= a < |into| ==>
              r[a] == if c.to <= a < c.to + size then source[c.from + (a - c.to)] else into[a]
  {
    into[..c.to] + source[c.from..c.from + size] + into[c.to + size..]
  }

  predicate Fits(plan: seq<Transfer>, into: nat, source: nat, size: nat) {
    forall i :: 0 <= i < |plan| ==> plan[i].to + size <= into && plan[i].from + size <= source
  }

  /** All element copies of a plan, in order. */
  function Move(into: seq<Byte>, source: seq<Byte>, plan: seq<Transfer>, size: nat): (r: seq<Byte>)
    requires Fits(plan, |into|, |source|, size)
    ensures |r| == |into|
  {
    if |plan| == 0 then into
    else
      var last := |plan| - 1;
      CopyElement(Move(into, source, plan[..last], size), source, plan[last], size)
  }

  /** Destinations of different copies do not overlap. */
  predicate Separate(plan: seq<Transfer>, size: nat) {
    forall i, j :: 0 <= i < |plan| && 0 <= j < |plan| ==> SameOrApart(plan[i], plan[j], size)
  }

  predicate SameOrApart(c: Transfer, d: Transfer, size: nat) {
    c == d || Disjoint(Buffer(c.to, size), Buffer(d.to, size))
  }

  lemma {:induction false} MoveCopies(into: seq<Byte>, source: seq<Byte>, plan: seq<Transfer>, size: nat, i: nat,
                                      k: nat)
    requires Fits(plan, |into|, |source|, size) && Separate(plan, size) && i < |plan| && k < size
    ensures Move(into, source, plan, size)[plan[i].to + k] == source[plan[i].from + k]
    decreases |plan|
  {
    hide SameOrApart;
    var last := |plan| - 1;
    var before := Move(into, source, plan[..last], size);
    assert Move(into, source, plan, size) == CopyElement(before, source, plan[last], size);
    assert SameOrApart(plan[i], plan[last], size);
    hide Move;
    if plan[i] != plan[last] {
      assert plan[..last][i] == plan[i];
      Elsewhere(plan[i], plan[last], size, k);
      MoveCopies(into, source, plan[..last], size, i, k);
    }
  }

  lemma Elsewhere(c: Transfer, d: Transfer, size: nat, k: nat)
    requires SameOrApart(c, d, size) && c != d && k < size
    ensures !(d.to <= c.to + k < d.to + size)
  {
  }

  predicate Touches(plan: seq<Transfer>, size: nat, a: nat) {
    exists i :: 0 <= i < |plan| && plan[i].to <= a < plan[i].to + size
  }

  lemma {:induction false} MoveFrame(into: seq<Byte>, source: seq<Byte>, plan: seq<Transfer>, size: nat, a: nat)
    requires Fits(plan, |into|, |source|, size) && a < |into| && !Touches(plan, size, a)
    ensures Move(into, source, plan, size)[a] == into[a]
    decreases |plan|
  {
    if |plan| > 0 {
      MoveFrame(into, source, plan[..|plan| - 1], size, a);
    }
  }

  function Reverse(plan: seq<Transfer>): (r: seq<Transfer>)
    ensures |r| == |plan|
    ensures forall i :: 0 <= i < |plan| ==> r[i] == Transfer(plan[i].from, plan[i].to)
  {
    seq(|plan|, i requires 0 <= i < |plan| => Transfer(plan[i].from, plan[i].to))
  }

  /** Copying out and back in restores every byte of every element, in both buffers. */
  lemma MoveAndBack(a: seq<Byte>, b: seq<Byte>, blank: seq<Byte>, plan: seq<Transfer>, size: nat)
    requires Fits(plan, |a|, |b|, size) && |blank| == |b|
    requires Separate(plan, size) && Separate(Reverse(plan), size)
    ensures Fits(Reverse(plan), |blank|, |a|, size)
    ensures var back := Move(blank, Move(a, b, plan, size), Reverse(plan), size);
            forall x :: 0 <= x < |b| ==> back[x] == if Touches(Reverse(plan), size, x) then b[x] else blank[x]
  {
    forall x | 0 <= x < |b|
      ensures Move(blank, Move(a, b, plan, size), Reverse(plan), size)[x] ==
                if Touches(Reverse(plan), size, x) then b[x] else blank[x]
    {
      ByteAndBack(a, b, blank, plan, size, x);
    }
  }

  lemma ByteAndBack(a: seq<Byte>, b: seq<Byte>, blank: seq<Byte>, plan: seq<Transfer>, size: nat, x: nat)
    requires Fits(plan, |a|, |b|, size) && |blank| == |b| && x < |b|
    requires Separate(plan, size) && Separate(Reverse(plan), size)
    ensures Fits(Reverse(plan), |blank|, |a|, size)
    ensures Move(blank, Move(a, b, plan, size), Reverse(plan), size)[x] ==
              if Touches(Reverse(plan), size, x) then b[x] else blank[x]
  {
    ReverseFits(a, b, plan, size);
    hide Move, Separate, Fits;
    var back := Reverse(plan);
    var out := Move(a, b, plan, size);
    if Touches(back, size, x) {
      var i :| 0 <= i < |back| && back[i].to <= x < back[i].to + size;
      TouchedAndBack(a, b, blank, plan, size, i, x - back[i].to);
    } else {
      MoveFrame(blank, out, back, size, x);
    }
  }

  lemma ReverseFits(a: seq<Byte>, b: seq<Byte>, plan: seq<Transfer>, size: nat)
    requires Fits(plan, |a|, |b|, size)
    ensures Fits(Reverse(plan), |b|, |a|, size)
  {
  }

  lemma TouchedAndBack(a: seq<Byte>, b: seq<Byte>, blank: seq<Byte>, plan: seq<Transfer>, size: nat, i: nat, k: nat)
    requires Fits(plan, |a|, |b|, size) && |blank| == |b| && i < |plan| && k < size
    requires Fits(Reverse(plan), |blank|, |a|, size)
    requires Separate(plan, size) && Separate(Reverse(plan), size)
    ensures Move(blank, Move(a, b, plan, size), Reverse(plan), size)[plan[i].from + k] == b[plan[i].from + k]
  {
    hide Move, Separate;
    var back := Reverse(plan);
    assert back[i] == Transfer(plan[i].from, plan[i].to);
    MoveCopies(a, b, plan, size, i, k);
    MoveCopies(blank, Move(a, b, plan, size), back, size, i, k);
  }

  // ---------- the plan of an image ----------

  predicate AllInImage(im: Image, ts: seq<Texel>) {
    forall i :: 0 <= i < |ts| ==> InImage(im, ts[i])
  }

  /** Writeback moves texels from the linear buffer to the tiled guest image. */
  function WritebackPlan(im: Image, fps: seq<Footprint>, ts: seq<Texel>): (plan: seq<Transfer>)
    requires Addressable(im) && Footprinted(im, fps) && AllInImage(im, ts)
    ensures |plan| == |ts|
    ensures forall i :: 0 <= i < |ts| ==> plan[i] == Transfer(Tiled(im, ts[i]), Linear(im, fps, ts[i]))
  {
    seq(|ts|, i requires 0 <= i < |ts| => Transfer(Tiled(im, ts[i]), Linear(im, fps, ts[i])))
  }

  lemma TexelsInImage(im: Image)
    ensures AllInImage(im, Texels(im))
  {
    forall i | 0 <= i < |Texels(im)| ensures InImage(im, Texels(im)[i]) {
      TexelsMember(im, Texels(im)[i]);
    }
  }

  /** Rows are stored as long as they are copied, every texel lies in the bytes stored for its slice, and mip
      levels follow one another inside the guest range. */
  ghost predicate WellPlaced(im: Image) {
    && Addressable(im)
    && (forall mip :: 0 <= mip < im.Levels() ==> MipPlaced(im, mip))
    && (forall t :: InImage(im, t) ==> InSlice(im, t))
    && forall m, n :: 0 <= m < n < im.Levels() ==> im.mipOffset[m] + im.mipSize[m] <= im.mipOffset[n]
  }

  predicate MipPlaced(im: Image, mip: nat)
    requires Addressable(im) && mip < im.Levels()
  {
    var layout := im.MipLayout(mip);
    im.CopyWidth(mip) <= layout.pitch && SliceExtent(layout, im.CopyHeight(mip)) <= MAX_SLICE &&
    im.mipOffset[mip] + im.mipSize[mip] <= im.guestSize
  }

  function SliceNumber(im: Image, t: Texel): nat {
    if im.Is3D() then t.z else t.layer
  }

  predicate InSlice(im: Image, t: Texel)
    requires Addressable(im) && InImage(im, t)
  {
    ElementOffset(im.MipLayout(t.mip), t.x, t.y, SliceNumber(im, t)) + im.Bytes() <= im.SliceSize(t.mip)
  }

  /** Slices that are stored with all their padding hold their texels. */
  lemma PaddedSlicesHold(im: Image, t: Texel)
    requires Addressable(im) && InImage(im, t) && im.CopyWidth(t.mip) <= im.MipLayout(t.mip).pitch
    requires SliceExtent(im.MipLayout(t.mip), im.CopyHeight(t.mip)) <= im.SliceSize(t.mip) <= MAX_SLICE
    ensures InSlice(im, t)
  {
    hide ElementOffset, SliceExtent, Supported, SliceFits;
    PaddedSizeFits(im.MipLayout(t.mip), im.CopyHeight(t.mip));
    OffsetWithinSlice(im.MipLayout(t.mip), im.CopyHeight(t.mip), t.x, t.y, SliceNumber(im, t));
  }

  /** Placed footprints as the device reports them: rows wide enough, subresources apart, inside the buffer. */
  predicate WellFootprinted(im: Image, fps: seq<Footprint>, size: nat) {
    && Footprinted(im, fps)
    && (forall layer, mip :: 0 <= layer < im.Layers() && 0 <= mip < im.Levels() ==>
          FootprintHolds(im, fps[Subresource(im, layer, mip)], mip, size))
    && forall l1, m1, l2, m2 ::
         0 <= l1 < im.Layers() && 0 <= m1 < im.Levels() && 0 <= l2 < im.Layers() && 0 <= m2 < im.Levels() ==>
         Subresource(im, l1, m1) == Subresource(im, l2, m2) ||
         Apart(im, fps[Subresource(im, l1, m1)], m1, fps[Subresource(im, l2, m2)], m2)
  }

  function FootprintSize(im: Image, fp: Footprint, mip: nat): nat {
    Times(Times(im.MipDepth(mip), fp.rowPitch), fp.rows)
  }

  predicate FootprintHolds(im: Image, fp: Footprint, mip: nat, size: nat) {
    Times(im.CopyWidth(mip), im.Bytes()) <= fp.rowPitch && im.CopyHeight(mip) <= fp.rows &&
    fp.offset + FootprintSize(im, fp, mip) <= size
  }

  predicate Apart(im: Image, a: Footprint, m: nat, b: Footprint, n: nat) {
    Disjoint(Buffer(a.offset, FootprintSize(im, a, m)), Buffer(b.offset, FootprintSize(im, b, n)))
  }

  /** A part of a larger stretch. */
  predicate Within(b: Buffer, c: Buffer) {
    c.address <= b.address && b.address + b.size <= c.address + c.size
  }

  lemma DisjointParts(a: Buffer, b: Buffer, c: Buffer, d: Buffer)
    requires Within(a, c) && Within(b, d) && Disjoint(c, d)
    ensures Disjoint(a, b)
  {
  }

  /** Consecutive equal stretches: the i-th lies inside the whole and apart from the others. */
  lemma Stretch(start: nat, i: nat, count: nat, unit: nat)
    requires i < count
    ensures Within(Buffer(start + Times(i, unit), unit), Buffer(start, Times(count, unit)))
  {
    hide Times;
    TimesOrder(i, count, unit);
  }

  lemma StretchesApart(start: nat, i: nat, j: nat, unit: nat)
    requires i != j
    ensures Disjoint(Buffer(start + Times(i, unit), unit), Buffer(start + Times(j, unit), unit))
  {
    hide Times;
    if i < j {
      TimesOrder(i, j, unit);
    } else {
      TimesOrder(j, i, unit);
    }
  }

  lemma QuotTimes(x: nat, n: nat)
    requires n > 0
    ensures Times(n, Quot(x, n)) <= x && Times(Quot(x, n), n) <= x
  {
    hide Times, Quot, Rem;
    QuotRem(x, n);
    TimesLaws(n, Quot(x, n), 0);
  }

  // The nested stretches of the guest image: mip level, layer, slice, element.

  function MipBuffer(im: Image, mip: nat): Buffer
    requires Addressable(im) && mip < im.Levels()
  {
    Buffer(im.mipOffset[mip], im.mipSize[mip])
  }

  function LayerBuffer(im: Image, mip: nat, layer: nat): Buffer
    requires Addressable(im) && mip < im.Levels()
  {
    Buffer(im.mipOffset[mip] + Times(layer, im.LayerSize(mip)), im.LayerSize(mip))
  }

  function SliceBuffer(im: Image, mip: nat, layer: nat, z: nat): Buffer
    requires Addressable(im) && mip < im.Levels()
  {
    Buffer(LayerBuffer(im, mip, layer).address + Times(z, im.SliceSize(mip)), im.SliceSize(mip))
  }

  function TexelBuffer(im: Image, t: Texel): Buffer
    requires Addressable(im) && InImage(im, t)
  {
    Buffer(Tiled(im, t), im.Bytes())
  }

  lemma TexelNesting(im: Image, t: Texel)
    requires WellPlaced(im) && InImage(im, t)
    ensures Within(TexelBuffer(im, t), SliceBuffer(im, t.mip, t.layer, t.z))
    ensures Within(SliceBuffer(im, t.mip, t.layer, t.z), LayerBuffer(im, t.mip, t.layer))
    ensures Within(LayerBuffer(im, t.mip, t.layer), MipBuffer(im, t.mip))
    ensures TexelBuffer(im, t).address + TexelBuffer(im, t).size <= im.guestSize
  {
    hide Times, Quot, ElementOffset, SliceFits, SliceExtent, Supported;
    var mip := t.mip;
    assert MipPlaced(im, mip) && InSlice(im, t);
    Stretch(LayerBuffer(im, mip, t.layer).address, t.z, im.MipDepth(mip), im.SliceSize(mip));
    QuotTimes(im.LayerSize(mip), im.MipDepth(mip));
    Stretch(im.mipOffset[mip], t.layer, im.Layers(), im.LayerSize(mip));
    QuotTimes(im.mipSize[mip], im.Layers());
  }

  /** Different texels occupy different bytes of guest memory, over all mips, layers and slices. */
  lemma TiledApart(im: Image, t: Texel, u: Texel)
    requires WellPlaced(im) && InImage(im, t) && InImage(im, u) && t != u
    ensures Disjoint(TexelBuffer(im, t), TexelBuffer(im, u))
  {
    hide Times, ElementOffset, SliceFits, SliceExtent, Supported, MipPlaced;
    TexelNesting(im, t);
    TexelNesting(im, u);
    if t.mip != u.mip {
      DisjointParts(LayerBuffer(im, t.mip, t.layer), LayerBuffer(im, u.mip, u.layer), MipBuffer(im, t.mip),
                    MipBuffer(im, u.mip));
    }
    if t.mip != u.mip || t.layer != u.layer {
      if t.mip == u.mip {
        StretchesApart(im.mipOffset[t.mip], t.layer, u.layer, im.LayerSize(t.mip));
      }
      DisjointParts(SliceBuffer(im, t.mip, t.layer, t.z), SliceBuffer(im, u.mip, u.layer, u.z),
                    LayerBuffer(im, t.mip, t.layer), LayerBuffer(im, u.mip, u.layer));
    } else if t.z != u.z {
      StretchesApart(LayerBuffer(im, t.mip, t.layer).address, t.z, u.z, im.SliceSize(t.mip));
    }
    if t.mip == u.mip && t.layer == u.layer && t.z == u.z {
      assert MipPlaced(im, t.mip);
      SameSliceApart(im, t, u);
    } else {
      DisjointParts(TexelBuffer(im, t), TexelBuffer(im, u),
                    SliceBuffer(im, t.mip, t.layer, t.z), SliceBuffer(im, u.mip, u.layer, u.z));
    }
  }

  lemma SameSliceApart(im: Image, t: Texel, u: Texel)
    requires Addressable(im) && InImage(im, t) && InImage(im, u) && MipPlaced(im, t.mip)
    requires t.mip == u.mip && t.layer == u.layer && t.z == u.z && (t.x != u.x || t.y != u.y)
    ensures Disjoint(TexelBuffer(im, t), TexelBuffer(im, u))
  {
    hide Times, ElementOffset, SliceFits, SliceExtent, Supported;
    PaddedSizeFits(im.MipLayout(t.mip), im.CopyHeight(t.mip));
    TexelsNeverOverlap(im.MipLayout(t.mip), im.CopyHeight(t.mip), t.x, t.y, u.x, u.y, SliceNumber(im, t));
  }

  // The nested stretches of the linear buffer: subresource, slice, row, element.

  function FootprintBuffer(im: Image, fps: seq<Footprint>, t: Texel): Buffer
    requires Footprinted(im, fps) && InImage(im, t)
  {
    var fp := fps[Subresource(im, t.layer, t.mip)];
    Buffer(fp.offset, FootprintSize(im, fp, t.mip))
  }

  function PlaneBuffer(im: Image, fps: seq<Footprint>, t: Texel): Buffer
    requires Footprinted(im, fps) && InImage(im, t)
  {
    var fp := fps[Subresource(im, t.layer, t.mip)];
    Buffer(fp.offset + Times(t.z, Times(fp.rowPitch, fp.rows)), Times(fp.rowPitch, fp.rows))
  }

  function RowBuffer(im: Image, fps: seq<Footprint>, t: Texel): Buffer
    requires Footprinted(im, fps) && InImage(im, t)
  {
    var fp := fps[Subresource(im, t.layer, t.mip)];
    Buffer(PlaneBuffer(im, fps, t).address + Times(t.y, fp.rowPitch), fp.rowPitch)
  }

  function LinearBuffer(im: Image, fps: seq<Footprint>, t: Texel): Buffer
    requires Footprinted(im, fps) && InImage(im, t)
  {
    Buffer(Linear(im, fps, t), im.Bytes())
  }

  lemma LinearNesting(im: Image, fps: seq<Footprint>, size: nat, t: Texel)
    requires WellFootprinted(im, fps, size) && InImage(im, t)
    ensures Within(LinearBuffer(im, fps, t), RowBuffer(im, fps, t))
    ensures Within(RowBuffer(im, fps, t), PlaneBuffer(im, fps, t))
    ensures Within(PlaneBuffer(im, fps, t), FootprintBuffer(im, fps, t))
    ensures LinearBuffer(im, fps, t).address + im.Bytes() <= size
  {
    hide Times;
    var fp := fps[Subresource(im, t.layer, t.mip)];
    assert FootprintHolds(im, fp, t.mip, size);
    TimesLaws(t.z, fp.rowPitch, fp.rows);
    TimesLaws(im.MipDepth(t.mip), fp.rowPitch, fp.rows);
    TimesLaws(fp.rowPitch, fp.rows, 0);
    Stretch(fp.offset, t.z, im.MipDepth(t.mip), Times(fp.rowPitch, fp.rows));
    Stretch(PlaneBuffer(im, fps, t).address, t.y, fp.rows, fp.rowPitch);
    Stretch(RowBuffer(im, fps, t).address, t.x, im.CopyWidth(t.mip), im.Bytes());
  }

  /** The device stores one array layer per subresource, and volumes have no array layers. */
  predicate LayersStored(im: Image) {
    im.Is3D() ==> im.Layers() == 1
  }

  /** Different texels occupy different bytes of the linear buffer. */
  lemma LinearApart(im: Image, fps: seq<Footprint>, size: nat, t: Texel, u: Texel)
    requires WellFootprinted(im, fps, size) && LayersStored(im) && InImage(im, t) && InImage(im, u) && t != u
    ensures Disjoint(LinearBuffer(im, fps, t), LinearBuffer(im, fps, u))
  {
    hide Times, FootprintHolds;
    LinearNesting(im, fps, size, t);
    LinearNesting(im, fps, size, u);
    if Subresource(im, t.layer, t.mip) != Subresource(im, u.layer, u.mip) {
      SubresourcesApart(im, fps, size, t, u);
      DisjointParts(PlaneBuffer(im, fps, t), PlaneBuffer(im, fps, u), FootprintBuffer(im, fps, t),
                    FootprintBuffer(im, fps, u));
      DisjointParts(RowBuffer(im, fps, t), RowBuffer(im, fps, u), PlaneBuffer(im, fps, t), PlaneBuffer(im, fps, u));
      DisjointParts(LinearBuffer(im, fps, t), LinearBuffer(im, fps, u), RowBuffer(im, fps, t), RowBuffer(im, fps, u));
    } else {
      SubresourceUnique(im, t, u);
      var fp := fps[Subresource(im, t.layer, t.mip)];
      if t.z != u.z {
        StretchesApart(fp.offset, t.z, u.z, Times(fp.rowPitch, fp.rows));
        DisjointParts(RowBuffer(im, fps, t), RowBuffer(im, fps, u), PlaneBuffer(im, fps, t), PlaneBuffer(im, fps, u));
        DisjointParts(LinearBuffer(im, fps, t), LinearBuffer(im, fps, u), RowBuffer(im, fps, t), RowBuffer(im, fps, u));
      } else if t.y != u.y {
        StretchesApart(PlaneBuffer(im, fps, t).address, t.y, u.y, fp.rowPitch);
        DisjointParts(LinearBuffer(im, fps, t), LinearBuffer(im, fps, u), RowBuffer(im, fps, t), RowBuffer(im, fps, u));
      } else {
        TimesLaws(t.z, fp.rowPitch, fp.rows);
        StretchesApart(RowBuffer(im, fps, t).address, t.x, u.x, im.Bytes());
      }
    }
  }

  lemma SubresourcesApart(im: Image, fps: seq<Footprint>, size: nat, t: Texel, u: Texel)
    requires WellFootprinted(im, fps, size) && InImage(im, t) && InImage(im, u)
    requires Subresource(im, t.layer, t.mip) != Subresource(im, u.layer, u.mip)
    ensures Disjoint(FootprintBuffer(im, fps, t), FootprintBuffer(im, fps, u))
  {
    hide Times, Subresource, FootprintSize;
    assert Apart(im, fps[Subresource(im, t.layer, t.mip)], t.mip, fps[Subresource(im, u.layer, u.mip)], u.mip);
  }

  lemma SubresourceUnique(im: Image, t: Texel, u: Texel)
    requires LayersStored(im) && InImage(im, t) && InImage(im, u)
    requires Subresource(im, t.layer, t.mip) == Subresource(im, u.layer, u.mip)
    ensures t.layer == u.layer && t.mip == u.mip
  {
    hide Times;
    if !im.Is3D() {
      TimesLaws(t.layer, im.Levels(), 0);
      TimesLaws(u.layer, im.Levels(), 0);
      DigitsUnique(im.Levels(), t.layer, t.mip, u.layer, u.mip);
    }
  }

  // ---------- the round trip ----------

  /** The plan of the whole image. */
  function Plan(im: Image, fps: seq<Footprint>): seq<Transfer>
    requires Addressable(im) && Footprinted(im, fps)
  {
    TexelsInImage(im);
    WritebackPlan(im, fps, Texels(im))
  }

  /** Every element copy of the image stays inside both buffers. */
  predicate CopyFits(im: Image, fps: seq<Footprint>, guestSize: nat, linearSize: nat) {
    Addressable(im) && Footprinted(im, fps) && Fits(Plan(im, fps), guestSize, linearSize, im.Bytes())
  }

  lemma UploadFits(im: Image, fps: seq<Footprint>, guestSize: nat, linearSize: nat)
    requires CopyFits(im, fps, guestSize, linearSize)
    ensures Fits(Reverse(Plan(im, fps)), linearSize, guestSize, im.Bytes())
  {
    hide Plan;
  }

  /** The guest image after the linear image has been written back to it. */
  function WriteBack(im: Image, fps: seq<Footprint>, guest: seq<Byte>, linear: seq<Byte>): (r: seq<Byte>)
    requires CopyFits(im, fps, |guest|, |linear|)
    ensures |r| == |guest|
  {
    Move(guest, linear, Plan(im, fps), im.Bytes())
  }

  /** The linear buffer after the guest image has been uploaded to it. */
  function Upload(im: Image, fps: seq<Footprint>, linear: seq<Byte>, guest: seq<Byte>): (r: seq<Byte>)
    requires CopyFits(im, fps, |guest|, |linear|)
    ensures |r| == |linear|
  {
    UploadFits(im, fps, |guest|, |linear|);
    Move(linear, guest, Reverse(Plan(im, fps)), im.Bytes())
  }

  /** The byte belongs to a texel of the guest image. */
  predicate InTiledImage(im: Image, fps: seq<Footprint>, a: nat)
    requires Addressable(im) && Footprinted(im, fps)
  {
    Touches(Plan(im, fps), im.Bytes(), a)
  }

  /** The byte belongs to a texel of the linear image. */
  predicate InLinearImage(im: Image, fps: seq<Footprint>, b: nat)
    requires Addressable(im) && Footprinted(im, fps)
  {
    Touches(Reverse(Plan(im, fps)), im.Bytes(), b)
  }

  /** What the copies check, and the footprints a device reports. */
  predicate Copyable(im: Image, fps: seq<Footprint>, guestSize: nat, linearSize: nat) {
    CopyFits(im, fps, guestSize, linearSize) && WellFootprinted(im, fps, linearSize) && LayersStored(im)
  }

  /** No two texels share a guest byte. */
  ghost predicate TexelsApart(im: Image)
    requires Addressable(im)
  {
    forall t, u :: InImage(im, t) && InImage(im, u) ==> SameOrElsewhere(im, t, u)
  }

  predicate SameOrElsewhere(im: Image, t: Texel, u: Texel)
    requires Addressable(im) && InImage(im, t) && InImage(im, u)
  {
    t == u || Disjoint(TexelBuffer(im, t), TexelBuffer(im, u))
  }

  lemma CopyableParts(im: Image, fps: seq<Footprint>, guestSize: nat, linearSize: nat)
    requires Copyable(im, fps, guestSize, linearSize)
    ensures Addressable(im) && Footprinted(im, fps) && im.Bytes() > 0
    ensures CopyFits(im, fps, guestSize, linearSize) && WellFootprinted(im, fps, linearSize) && LayersStored(im)
  {
  }

  /** A well-placed image with placed footprints passes the checks of the copies, and its texels are apart. */
  lemma PlacedImagesCopy(im: Image, fps: seq<Footprint>, size: nat)
    requires WellPlaced(im) && WellFootprinted(im, fps, size) && LayersStored(im)
    ensures Copyable(im, fps, im.guestSize, size) && TexelsApart(im)
  {
    hide Texels, Tiled, Linear;
    var ts := Texels(im);
    TexelsInImage(im);
    PlacedIsAddressable(im, fps, size);
    assert CopyFits(im, fps, im.guestSize, size) by {
      hide WellPlaced, WellFootprinted;
      var plan := Plan(im, fps);
      forall i | 0 <= i < |plan|
        ensures plan[i].to + im.Bytes() <= im.guestSize && plan[i].from + im.Bytes() <= size
      {
        TexelNesting(im, ts[i]);
        LinearNesting(im, fps, size, ts[i]);
      }
    }
    forall t, u | InImage(im, t) && InImage(im, u)
      ensures SameOrElsewhere(im, t, u)
    {
      if t != u {
        TiledApart(im, t, u);
      }
    }
  }

  lemma PlacedIsAddressable(im: Image, fps: seq<Footprint>, size: nat)
    requires WellPlaced(im) && WellFootprinted(im, fps, size)
    ensures Addressable(im) && Footprinted(im, fps)
  {
  }

  /** No two copies of an upload overlap. */
  lemma UploadIsSeparate(im: Image, fps: seq<Footprint>, guestSize: nat, linearSize: nat)
    requires Copyable(im, fps, guestSize, linearSize) && Addressable(im) && Footprinted(im, fps)
    ensures Separate(Reverse(Plan(im, fps)), im.Bytes())
  {
    hide Texels, WellFootprinted, Tiled, Linear, Addressable, Footprinted, CopyFits;
    TexelsInImage(im);
    var ts, back := Texels(im), Reverse(Plan(im, fps));
    forall i, j | 0 <= i < |back| && 0 <= j < |back|
      ensures SameOrApart(back[i], back[j], im.Bytes())
    {
      if ts[i] != ts[j] {
        LinearApart(im, fps, linearSize, ts[i], ts[j]);
      }
    }
  }

  /** No two copies of a write-back overlap when no two texels do. */
  lemma WritebackIsSeparate(im: Image, fps: seq<Footprint>)
    requires Addressable(im) && Footprinted(im, fps) && TexelsApart(im)
    ensures Separate(Plan(im, fps), im.Bytes())
  {
    hide Texels, Tiled, Linear, Addressable, Footprinted;
    TexelsInImage(im);
    var ts, plan := Texels(im), Plan(im, fps);
    forall i, j | 0 <= i < |plan| && 0 <= j < |plan|
      ensures SameOrApart(plan[i], plan[j], im.Bytes())
    {
      assert SameOrElsewhere(im, ts[i], ts[j]);
    }
  }

  /** Writing the linear image back and uploading it again gives exactly that image. */
  predicate RoundTrips(im: Image, fps: seq<Footprint>, guest: seq<Byte>, linear: seq<Byte>, blank: seq<Byte>)
    requires CopyFits(im, fps, |guest|, |linear|) && |blank| == |linear|
  {
    var back := Upload(im, fps, blank, WriteBack(im, fps, guest, linear));
    forall b :: 0 <= b < |linear| ==> back[b] == if InLinearImage(im, fps, b) then linear[b] else blank[b]
  }

  ghost predicate AlwaysRoundTrips(im: Image, fps: seq<Footprint>, guestSize: nat, linearSize: nat)
    requires CopyFits(im, fps, guestSize, linearSize)
  {
    forall guest: seq<Byte>, linear: seq<Byte>, blank: seq<Byte> ::
      |guest| == guestSize && |linear| == linearSize && |blank| == linearSize ==>
        RoundTrips(im, fps, guest, linear, blank)
  }

  lemma ApartRoundTrips(im: Image, fps: seq<Footprint>, guest: seq<Byte>, linear: seq<Byte>, blank: seq<Byte>)
    requires Copyable(im, fps, |guest|, |linear|) && |blank| == |linear|
    requires Addressable(im) && TexelsApart(im)
    ensures CopyFits(im, fps, |guest|, |linear|) && RoundTrips(im, fps, guest, linear, blank)
  {
    hide Copyable, CopyFits, Move, Separate, Fits, Plan, Addressable, Footprinted, Touches, TexelsApart;
    CopyableParts(im, fps, |guest|, |linear|);
    PlanFits(im, fps, |guest|, |linear|);
    UploadIsSeparate(im, fps, |guest|, |linear|);
    WritebackIsSeparate(im, fps);
    MoveAndBack(guest, linear, blank, Plan(im, fps), im.Bytes());
  }

  lemma PlanFits(im: Image, fps: seq<Footprint>, guestSize: nat, linearSize: nat)
    requires CopyFits(im, fps, guestSize, linearSize)
    ensures Fits(Plan(im, fps), guestSize, linearSize, im.Bytes())
  {
  }

  /** Where a texel's transfer is in the plan. */
  lemma TexelTransferAt(im: Image, fps: seq<Footprint>, guestSize: nat, linearSize: nat, t: Texel) returns (i: nat)
    requires CopyFits(im, fps, guestSize, linearSize) && InImage(im, t)
    ensures i < |Plan(im, fps)| && Plan(im, fps)[i] == Transfer(Tiled(im, t), Linear(im, fps, t))
    ensures Tiled(im, t) + im.Bytes() <= guestSize && Linear(im, fps, t) + im.Bytes() <= linearSize
  {
    hide Addressable, Footprinted, Texels, Tiled, Linear;
    TexelsMember(im, t);
    TexelsInImage(im);
    i :| 0 <= i < |Texels(im)| && Texels(im)[i] == t;
  }

  /** An upload puts each texel where the footprint says. */
  lemma UploadsTexel(im: Image, fps: seq<Footprint>, guest: seq<Byte>, blank: seq<Byte>, t: Texel, k: nat)
    requires Copyable(im, fps, |guest|, |blank|) && CopyFits(im, fps, |guest|, |blank|)
    requires InImage(im, t) && k < im.Bytes()
    ensures Tiled(im, t) + k < |guest| && Linear(im, fps, t) + k < |blank|
    ensures Upload(im, fps, blank, guest)[Linear(im, fps, t) + k] == guest[Tiled(im, t) + k]
  {
    hide Copyable, CopyFits, Move, Separate, Fits, Plan, Addressable, Footprinted, Tiled, Linear;
    CopyableParts(im, fps, |guest|, |blank|);
    UploadIsSeparate(im, fps, |guest|, |blank|);
    UploadFits(im, fps, |guest|, |blank|);
    var i := TexelTransferAt(im, fps, |guest|, |blank|, t);
    MoveCopies(blank, guest, Reverse(Plan(im, fps)), im.Bytes(), i, k);
  }

  /** Two linear bytes that come from the same guest byte come back equal. */
  lemma SharedByteLoses(im: Image, fps: seq<Footprint>, guestSize: nat, linearSize: nat, t: Texel, k: nat, u: Texel,
                        l: nat)
    requires Copyable(im, fps, guestSize, linearSize) && CopyFits(im, fps, guestSize, linearSize)
    requires InImage(im, t) && InImage(im, u) && k < im.Bytes() && l < im.Bytes()
    requires Tiled(im, t) + k == Tiled(im, u) + l && Linear(im, fps, t) + k != Linear(im, fps, u) + l
    ensures !AlwaysRoundTrips(im, fps, guestSize, linearSize)
  {
    hide Copyable, CopyFits, Addressable, Footprinted, Tiled, Linear, WriteBack, Upload, InLinearImage, Plan, InImage;
    CopyableParts(im, fps, guestSize, linearSize);
    var p, q := Linear(im, fps, t) + k, Linear(im, fps, u) + l;
    var t' := TexelTransferAt(im, fps, guestSize, linearSize, t);
    var u' := TexelTransferAt(im, fps, guestSize, linearSize, u);
    InLinear(im, fps, t', k);
    InLinear(im, fps, u', l);
    var guest: seq<Byte>, blank: seq<Byte> := Zeros(guestSize), Zeros(linearSize);
    var linear := blank[p := 1];
    var written := WriteBack(im, fps, guest, linear);
    UploadsTexel(im, fps, written, blank, t, k);
    UploadsTexel(im, fps, written, blank, u, l);
    assert !RoundTrips(im, fps, guest, linear, blank);
  }

  /** Where two elements share a byte. */
  lemma SharedByte(a: nat, b: nat, size: nat) returns (k: nat, l: nat)
    requires !Disjoint(Buffer(a, size), Buffer(b, size))
    ensures k < size && l < size && a + k == b + l
  {
    k, l := if a < b then b - a else 0, if a < b then 0 else a - b;
  }

  lemma ApartBytesDiffer(a: nat, b: nat, size: nat, k: nat, l: nat)
    requires Disjoint(Buffer(a, size), Buffer(b, size)) && k < size && l < size
    ensures a + k != b + l
  {
  }

  /** Two texels that share a guest byte lose some linear image. */
  lemma OverlapLoses(im: Image, fps: seq<Footprint>, guestSize: nat, linearSize: nat, t: Texel, u: Texel)
    requires Copyable(im, fps, guestSize, linearSize) && CopyFits(im, fps, guestSize, linearSize)
    requires InImage(im, t) && InImage(im, u) && !SameOrElsewhere(im, t, u)
    ensures !AlwaysRoundTrips(im, fps, guestSize, linearSize)
  {
    hide Copyable, CopyFits, Addressable, Footprinted, Tiled, Linear, InImage, Disjoint, AlwaysRoundTrips;
    CopyableParts(im, fps, guestSize, linearSize);
    LinearApart(im, fps, linearSize, t, u);
    var k, l := SharedByte(Tiled(im, t), Tiled(im, u), im.Bytes());
    ApartBytesDiffer(Linear(im, fps, t), Linear(im, fps, u), im.Bytes(), k, l);
    SharedByteLoses(im, fps, guestSize, linearSize, t, k, u, l);
  }

  lemma InLinear(im: Image, fps: seq<Footprint>, i: nat, k: nat)
    requires Addressable(im) && Footprinted(im, fps) && i < |Plan(im, fps)| && k < im.Bytes()
    ensures InLinearImage(im, fps, Plan(im, fps)[i].from + k)
  {
    hide Addressable, Footprinted, Plan;
    assert Reverse(Plan(im, fps))[i].to == Plan(im, fps)[i].from;
  }

  /** For images the copies accept: writing a linear image back and uploading it again returns exactly that
      image, whatever it is, if and only if no two texels share a guest byte. */
  lemma ImageRoundTrip(im: Image, fps: seq<Footprint>, guestSize: nat, linearSize: nat)
    requires Copyable(im, fps, guestSize, linearSize)
    ensures CopyFits(im, fps, guestSize, linearSize) && Addressable(im)
    ensures AlwaysRoundTrips(im, fps, guestSize, linearSize) <==> TexelsApart(im)
  {
    hide Copyable, CopyFits, Addressable, SameOrElsewhere, RoundTrips;
    CopyableParts(im, fps, guestSize, linearSize);
    if TexelsApart(im) {
      forall guest: seq<Byte>, linear: seq<Byte>, blank: seq<Byte>
        | |guest| == guestSize && |linear| == linearSize && |blank| == linearSize
        ensures RoundTrips(im, fps, guest, linear, blank)
      {
        ApartRoundTrips(im, fps, guest, linear, blank);
      }
    } else {
      var t, u :| InImage(im, t) && InImage(im, u) && !SameOrElsewhere(im, t, u);
      OverlapLoses(im, fps, guestSize, linearSize, t, u);
    }
  }

  /** A write-back changes no guest byte outside the texels. */
  lemma WriteBackKeeps(im: Image, fps: seq<Footprint>, guest: seq<Byte>, linear: seq<Byte>, a: nat)
    requires CopyFits(im, fps, |guest|, |linear|) && a < |guest| && !InTiledImage(im, fps, a)
    ensures WriteBack(im, fps, guest, linear)[a] == guest[a]
  {
    hide Move, Plan, Addressable, Footprinted, Touches;
    MoveFrame(guest, linear, Plan(im, fps), im.Bytes(), a);
  }

  /** Each texel lands where the address map puts it. */
  lemma TexelIsPlaced(im: Image, fps: seq<Footprint>, guest: seq<Byte>, linear: seq<Byte>, t: Texel, k: nat)
    requires Copyable(im, fps, |guest|, |linear|) && InImage(im, t) && k < im.Bytes()
    ensures Addressable(im) && CopyFits(im, fps, |guest|, |linear|)
    ensures Tiled(im, t) + k < |guest| && Linear(im, fps, t) + k < |linear|
    ensures TexelsApart(im) ==>
              WriteBack(im, fps, guest, linear)[Tiled(im, t) + k] == linear[Linear(im, fps, t) + k]
    ensures Upload(im, fps, linear, guest)[Linear(im, fps, t) + k] == guest[Tiled(im, t) + k]
  {
    hide Copyable, CopyFits, Move, Separate, Fits, Addressable, Footprinted, Texels, Tiled, Linear, TexelsApart, Plan;
    CopyableParts(im, fps, |guest|, |linear|);
    PlanFits(im, fps, |guest|, |linear|);
    UploadsTexel(im, fps, guest, linear, t, k);
    if TexelsApart(im) {
      WritebackIsSeparate(im, fps);
      var i := TexelTransferAt(im, fps, |guest|, |linear|, t);
      MoveCopies(guest, linear, Plan(im, fps), im.Bytes(), i, k);
    }
  }

  /** Copies that put back what is there already change nothing. */
  lemma {:induction false} MoveSame(into: seq<Byte>, source: seq<Byte>, plan: seq<Transfer>, size: nat)
    requires Fits(plan, |into|, |source|, size)
    requires forall i :: 0 <= i < |plan| ==> SameBytes(into, source, plan[i], size)
    ensures Move(into, source, plan, size) == into
    decreases |plan|
  {
    hide SameBytes;
    if |plan| > 0 {
      var last := |plan| - 1;
      MoveSame(into, source, plan[..last], size);
      CopySame(into, source, plan[last], size);
    }
  }

  predicate SameBytes(into: seq<Byte>, source: seq<Byte>, c: Transfer, size: nat) {
    c.to + size <= |into| && c.from + size <= |source| &&
    into[c.to..c.to + size] == source[c.from..c.from + size]
  }

  lemma CopySame(into: seq<Byte>, source: seq<Byte>, c: Transfer, size: nat)
    requires SameBytes(into, source, c, size)
    ensures CopyElement(into, source, c, size) == into
  {
  }

  /** Uploading the guest image and writing it back unchanged leaves guest memory as it was, also where texels
      share bytes. */
  lemma UploadThenWriteback(im: Image, fps: seq<Footprint>, guest: seq<Byte>, blank: seq<Byte>)
    requires Copyable(im, fps, |guest|, |blank|)
    ensures CopyFits(im, fps, |guest|, |blank|)
    ensures WriteBack(im, fps, guest, Upload(im, fps, blank, guest)) == guest
  {
    hide Copyable, CopyFits, Move, Separate, Fits, Plan, Addressable, Footprinted;
    CopyableParts(im, fps, |guest|, |blank|);
    PlanFits(im, fps, |guest|, |blank|);
    UploadFits(im, fps, |guest|, |blank|);
    UploadIsSeparate(im, fps, |guest|, |blank|);
    var plan, linear := Plan(im, fps), Upload(im, fps, blank, guest);
    forall i | 0 <= i < |plan|
      ensures SameBytes(guest, linear, plan[i], im.Bytes())
    {
      FitsAt(plan, |guest|, |blank|, im.Bytes(), i);
      forall k: nat | k < im.Bytes()
        ensures SameByte(guest, linear, plan[i], k)
      {
        MoveCopies(blank, guest, Reverse(plan), im.Bytes(), i, k);
      }
      EqualBytes(guest, linear, plan[i], im.Bytes());
    }
    MoveSame(guest, linear, plan, im.Bytes());
  }

  predicate SameByte(into: seq<Byte>, source: seq<Byte>, c: Transfer, k: nat) {
    c.to + k < |into| && c.from + k < |source| && source[c.from + k] == into[c.to + k]
  }

  lemma EqualBytes(into: seq<Byte>, source: seq<Byte>, c: Transfer, size: nat)
    requires c.to + size <= |into| && c.from + size <= |source|
    requires forall k: nat :: k < size ==> SameByte(into, source, c, k)
    ensures SameBytes(into, source, c, size)
  {
    var a, b := into[c.to..c.to + size], source[c.from..c.from + size];
    forall k | 0 <= k < size
      ensures a[k] == b[k]
    {
      assert SameByte(into, source, c, k);
    }
  }

  lemma FitsAt(plan: seq<Transfer>, into: nat, source: nat, size: nat, i: nat)
    requires Fits(plan, into, source, size) && i < |plan|
    ensures plan[i].to + size <= into && plan[i].from + size <= source
  {
  }

  // ---------- an image that loses ----------

  /** A linear image of 2 by 2 elements of 4 bytes whose rows are stored one element apart, and its footprint. */
  function Narrow(): (im: Image)
    ensures im.Valid() && im.Levels() == 1 && im.Layers() == 1 && !im.Is3D() && im.Bytes() == 4
    ensures im.CopyWidth(0) == 2 && im.CopyHeight(0) == 2 && im.MipDepth(0) == 1
  {
    var zeros := seq(MAX_LEVELS, _ => 0);
    Image(2, 2, 1, 1, 1, 1, 9, false, Layout(1, 4, 8, 1, 0, 1, 0, 0, 0, 0, 0, 0), 0, 12, zeros, zeros, zeros, zeros)
  }

  const PACKED: seq<Footprint> := [Footprint(0, 8, 2)]

  lemma NarrowPlaces(t: Texel)
    ensures Addressable(Narrow()) && Footprinted(Narrow(), PACKED)
    ensures InImage(Narrow(), t) <==> t.layer == 0 && t.mip == 0 && t.z == 0 && t.y < 2 && t.x < 2
    ensures InImage(Narrow(), t) ==>
              Tiled(Narrow(), t) == 4 * (t.y + t.x) && Linear(Narrow(), PACKED, t) == 8 * t.y + 4 * t.x
  {
    var im := Narrow();
    assert im.MipLayout(0) == im.base;
    assert Subresource(im, 0, 0) == 0;
  }

  lemma NarrowCopies()
    ensures Copyable(Narrow(), PACKED, 12, 16)
  {
    hide Texels, Tiled, Linear, Narrow, InImage;
    var im := Narrow();
    NarrowPlaces(Texel(0, 0, 0, 0, 0));
    TexelsInImage(im);
    var plan := Plan(im, PACKED);
    forall i | 0 <= i < |plan| ensures plan[i].to + im.Bytes() <= 12 && plan[i].from + im.Bytes() <= 16 {
      NarrowPlaces(Texels(im)[i]);
    }
    NarrowFootprint();
  }

  lemma NarrowFootprint()
    ensures WellFootprinted(Narrow(), PACKED, 16) && LayersStored(Narrow())
  {
    hide Narrow;
    var im := Narrow();
    assert Subresource(im, 0, 0) == 0;
    assert FootprintHolds(im, PACKED[0], 0, 16);
  }

  /** The copies accept it, and some linear image does not come back: the last element of a row and the first of the
      next share their bytes. */
  lemma OverlappingTexelsLose()
    ensures CopyFits(Narrow(), PACKED, 12, 16) && !AlwaysRoundTrips(Narrow(), PACKED, 12, 16)
  {
    hide Narrow, Tiled, Linear, InImage, AlwaysRoundTrips, CopyFits;
    var t, u := Texel(0, 0, 0, 0, 1), Texel(0, 0, 0, 1, 0);
    NarrowPlaces(t);
    NarrowPlaces(u);
    NarrowCopies();
    ImageRoundTrip(Narrow(), PACKED, 12, 16);
    assert !SameOrElsewhere(Narrow(), t, u);
  }
}
