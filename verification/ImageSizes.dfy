/** The extents of mip levels, and where a level, layer and slice start in both images. */
module ImageSizes {
  import opened Arithmetic
  import opened GuestMemory
  import opened Tiling
  import opened ImageCopy

  /** An extent halved `mip` times, rounding down, but at least one. */
  predicate Halved(extent: nat, mip: nat, n: nat) {
    n >= 1 && (Times(Pow2(mip), n) <= extent < Times(Pow2(mip), n + 1) || (n == 1 && extent < Pow2(mip)))
  }

  lemma HalvedExtent(extent: nat, mip: nat)
    ensures Halved(extent, mip, AtLeastOne(Quot(extent, Pow2(mip))))
  {
    hide Times, Quot, Rem;
    var n := Quot(extent, Pow2(mip));
    QuotRem(extent, Pow2(mip));
    TimesLaws(Pow2(mip), n, 1);
    UnitTimes(Pow2(mip));
    TimesZero(Pow2(mip));
  }

  lemma UnitTimes(m: nat)
    ensures Times(m, 1) == m
  {
  }

  /** A level has the halved extent of the image in texels, or the least number of 4x4 blocks that covers it; only
      three-dimensional images have more than one slice in a layer. */
  lemma LevelExtents(im: Image, mip: nat) returns (w: nat, h: nat)
    ensures Halved(im.width, mip, w) && Halved(im.height, mip, h)
    ensures var across, down := im.CopyWidth(mip), im.CopyHeight(mip);
            if im.compressed then 4 * (across - 1) < w <= 4 * across && 4 * (down - 1) < h <= 4 * down
            else across == w && down == h
    ensures if im.imageType == 10 then Halved(im.depth, mip, im.MipDepth(mip)) else im.MipDepth(mip) == 1
  {
    HalvedExtent(im.width, mip);
    HalvedExtent(im.height, mip);
    HalvedExtent(im.depth, mip);
    hide Quot;
    w := AtLeastOne(Quot(im.width, Pow2(mip)));
    h := AtLeastOne(Quot(im.height, Pow2(mip)));
  }

  /** The bytes stored for a level are shared out evenly: each layer and each slice of it gets the same whole number,
      and what cannot be shared out is less than one byte for each. */
  lemma StoredSizes(im: Image, mip: nat)
    requires im.Valid() && mip < im.Levels()
    ensures im.Levels() == if im.levels == 0 then 1 else if im.levels <= 16 then im.levels else 16
    ensures im.Layers() == if im.layers == 0 then 1 else im.layers
    ensures Times(im.Layers(), im.LayerSize(mip)) <= im.mipSize[mip] < Times(im.Layers(), im.LayerSize(mip) + 1)
    ensures Times(im.MipDepth(mip), im.SliceSize(mip)) <= im.LayerSize(mip) <
            Times(im.MipDepth(mip), im.SliceSize(mip) + 1)
  {
    hide Times, Quot, Rem;
    QuotRem(im.mipSize[mip], im.Layers());
    QuotRem(im.LayerSize(mip), im.MipDepth(mip));
    TimesLaws(im.Layers(), im.LayerSize(mip), 1);
    TimesLaws(im.MipDepth(mip), im.SliceSize(mip), 1);
    UnitTimes(im.Layers());
    UnitTimes(im.MipDepth(mip));
  }

  /** The row length of a level: the stored one, or else the halved row length of the image. */
  lemma LevelPitch(im: Image, mip: nat)
    requires im.Valid() && mip < im.Levels()
    ensures var pitch := im.MipLayout(mip).pitch;
            if im.mipPitch[mip] > 0 then pitch == im.mipPitch[mip] else Halved(im.pitch, mip, pitch)
    ensures im.MipLayout(mip).(pitch := im.base.pitch) == im.base
  {
    HalvedExtent(im.pitch, mip);
  }

  /** Subresources are numbered level by level, and layer after layer unless the image is a volume. */
  lemma SubresourceOrder(im: Image, layer: nat, mip: nat)
    requires mip < im.Levels()
    ensures im.imageType == 10 ==> Subresource(im, layer, mip) == mip
    ensures im.imageType != 10 ==>
            && Subresource(im, 0, 0) == 0
            && (mip + 1 < im.Levels() ==> Subresource(im, layer, mip + 1) == Subresource(im, layer, mip) + 1)
            && Subresource(im, layer + 1, 0) == Subresource(im, layer, im.Levels() - 1) + 1
  {
    hide Times;
    TimesZero(im.Levels());
    TimesLaws(im.Levels(), layer, 1);
    TimesLaws(layer, im.Levels(), 0);
    TimesLaws(layer + 1, im.Levels(), 0);
    UnitTimes(im.Levels());
  }

  /** A texel's place in the guest image: past the layers and slices before its own, where the address map puts it in a
      slice with the number of its own slice in a volume and of its layer otherwise; and in the linear buffer: past the
      rows before its own in all slices before and in its own, and past the elements before it in its row. */
  lemma TexelPlaces(im: Image, fps: seq<Footprint>, t: Texel)
    requires Addressable(im) && Footprinted(im, fps) && InImage(im, t)
    ensures var number := if im.imageType == 10 then t.z else t.layer;
            Tiled(im, t) - ElementOffset(im.MipLayout(t.mip), t.x, t.y, number) - im.mipOffset[t.mip] ==
              Times(im.LayerSize(t.mip), t.layer) + Times(im.SliceSize(t.mip), t.z)
    ensures var fp := fps[Subresource(im, t.layer, t.mip)];
            Linear(im, fps, t) == fp.offset + Times(fp.rowPitch, Times(fp.rows, t.z) + t.y) + Times(im.Bytes(), t.x)
  {
    hide Times, ElementOffset, Supported;
    var fp := fps[Subresource(im, t.layer, t.mip)];
    TimesLaws(t.layer, im.LayerSize(t.mip), 0);
    TimesLaws(t.z, im.SliceSize(t.mip), 0);
    TimesLaws(t.z, fp.rowPitch, fp.rows);
    TimesLaws(fp.rowPitch, t.z, fp.rows);
    TimesLaws(t.y, fp.rowPitch, 0);
    TimesLaws(t.x, im.Bytes(), 0);
    TimesLaws(t.z, fp.rows, 0);
    TimesLaws(fp.rowPitch, Times(fp.rows, t.z), t.y);
  }
}
