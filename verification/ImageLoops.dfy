/** The copy loops over layers, mips, slices, rows and columns, proved against the plan of the image. */
module ImageLoops {
  import opened GuestMemory
  import opened GpuStream
  import opened ImageCopy

  const INT_MAX: nat := 0x7fff_ffff
  const MAX_UPLOAD: nat := 512 * 1024 * 1024

  /** The device's mapped buffer covers every texel. */
  ghost predicate LinearCovers(im: Image, fps: seq<Footprint>, size: nat) {
    Footprinted(im, fps) &&
    forall t :: InImage(im, t) ==> Linear(im, fps, t) + im.Bytes() <= size
  }

  datatype Job = Job(im: Image, fps: seq<Footprint>, upload: bool, into: seq<Byte>, source: seq<Byte>)

  /** The element copies for the texels `ts`, in the direction of the job. */
  function PlanOf(job: Job, ts: seq<Texel>): (plan: seq<Transfer>)
    requires Addressable(job.im) && Footprinted(job.im, job.fps) && AllInImage(job.im, ts)
    ensures |plan| == |ts|
  {
    if job.upload then Reverse(WritebackPlan(job.im, job.fps, ts)) else WritebackPlan(job.im, job.fps, ts)
  }

  /** The buffer holds the result of copying the texels in `done`, all of which were in bounds. */
  ghost predicate Progress(job: Job, buffer: seq<Byte>, done: seq<Texel>) {
    Addressable(job.im) && Footprinted(job.im, job.fps) && AllInImage(job.im, done) &&
    Fits(PlanOf(job, done), |job.into|, |job.source|, job.im.Bytes()) &&
    buffer == Move(job.into, job.source, PlanOf(job, done), job.im.Bytes())
  }

  lemma ProgressStarts(job: Job)
    requires Addressable(job.im) && Footprinted(job.im, job.fps)
    ensures Progress(job, job.into, [])
  {
  }

  lemma ProgressStep(job: Job, before: seq<Byte>, done: seq<Texel>, t: Texel, after: seq<Byte>)
    requires Progress(job, before, done) && InImage(job.im, t)
    requires Addressable(job.im) && Footprinted(job.im, job.fps)
    requires var c := PlanOf(job, [t])[0];
             c.to + job.im.Bytes() <= |job.into| && c.from + job.im.Bytes() <= |job.source| &&
             |before| == |job.into| && after == CopyElement(before, job.source, c, job.im.Bytes())
    ensures Progress(job, after, done + [t])
  {
    hide Tiled, Linear, CopyElement, InImage, Addressable, Footprinted;
    var plan := PlanOf(job, done + [t]);
    assert (done + [t])[..|done|] == done;
    assert plan[..|done|] == PlanOf(job, done) && plan[|done|] == PlanOf(job, [t])[0];
  }

  lemma TabulateStep(n: nat, f: nat -> seq<Texel>)
    ensures Tabulate(n + 1, f) == Tabulate(n, f) + f(n)
  {
  }

  lemma TabulateNothing(base: seq<Texel>, f: nat -> seq<Texel>)
    ensures base == base + Tabulate(0, f)
  {
  }

  lemma Regroup(a: seq<Texel>, b: seq<Texel>, c: seq<Texel>)
    ensures a + b + c == a + (b + c)
  {
  }

  lemma BeyondTheEnd(im: Image, fps: seq<Footprint>, guestSize: nat, linearSize: nat, t: Texel)
    requires Addressable(im) && Footprinted(im, fps) && InImage(im, t)
    requires Tiled(im, t) + im.Bytes() > guestSize
    ensures !CopyFits(im, fps, guestSize, linearSize)
  {
    hide Tiled, Linear, Texels, InImage, Addressable, Footprinted;
    TexelsMember(im, t);
    TexelsInImage(im);
    var i :| 0 <= i < |Texels(im)| && Texels(im)[i] == t;
    assert Plan(im, fps)[i].to == Tiled(im, t);
  }

  lemma CopiedAll(job: Job, buffer: seq<Byte>, guestSize: nat, linearSize: nat)
    requires Progress(job, buffer, Texels(job.im))
    requires job.upload ==> guestSize == |job.source| && linearSize == |job.into|
    requires !job.upload ==> guestSize == |job.into| && linearSize == |job.source|
    ensures CopyFits(job.im, job.fps, guestSize, linearSize)
    ensures buffer == if job.upload then Upload(job.im, job.fps, job.into, job.source)
                      else WriteBack(job.im, job.fps, job.into, job.source)
  {
    hide Texels, Tiled, Linear, Addressable, Footprinted, Move;
  }

  /** Copies every texel between `buffer` and `source`; stops at the first that is out of bounds of
      the guest image. */
  method CopyTexels(ghost job: Job, im: Image, fps: seq<Footprint>, upload: bool, buffer: array<Byte>,
                    source: seq<Byte>, guestSize: nat)
    returns (ok: bool)
    requires job == Job(im, fps, upload, buffer[..], source)
    requires Addressable(im) && LinearCovers(im, fps, if upload then buffer.Length else |source|)
    requires guestSize == if upload then |source| else buffer.Length
    requires guestSize >= im.Bytes()
    modifies buffer
    ensures ok == CopyFits(im, fps, guestSize, if upload then buffer.Length else |source|)
    ensures ok ==> buffer[..] == if upload then Upload(im, fps, old(buffer[..]), source)
                                 else WriteBack(im, fps, old(buffer[..]), source)
  {
    hide Progress, Tiled, Linear, InImage, Addressable, LinearCovers, CopyFits, Tabulate, Texels, RowOf, SliceOf, MipOf,
         LayerOf, ImageOf, Upload, WriteBack;
    ghost var linearSize := if upload then buffer.Length else |source|;
    CoversFootprints(im, fps, linearSize);
    ProgressStarts(job);
    ghost var done: seq<Texel> := [];
    TabulateNothing([], ImageOf(im));
    var layer := 0;
    while layer < im.Layers()
      invariant layer <= im.Layers()
      invariant done == Tabulate(layer, ImageOf(im)) && Progress(job, buffer[..], done)
    {
      ghost var base := done;
      TabulateNothing(base, LayerOf(im, layer));
      var mip := 0;
      while mip < im.Levels()
        invariant mip <= im.Levels()
        invariant done == base + Tabulate(mip, LayerOf(im, layer)) && Progress(job, buffer[..], done)
      {
        done, ok := CopyMip(job, im, fps, upload, buffer, source, guestSize, layer, mip, done);
        if !ok {
          return;
        }
        MipDone(im, layer, mip, base, done);
        mip := mip + 1;
      }
      LayerDone(im, layer, base, done);
      layer := layer + 1;
    }
    ImageDone(im, done);
    CopiedAll(job, buffer[..], guestSize, linearSize);
    ok := true;
  }

  lemma CoversFootprints(im: Image, fps: seq<Footprint>, size: nat)
    requires LinearCovers(im, fps, size)
    ensures Footprinted(im, fps)
  {
  }

  lemma MipDone(im: Image, layer: nat, mip: nat, base: seq<Texel>, done: seq<Texel>)
    requires done == base + Tabulate(mip, LayerOf(im, layer)) + Tabulate(im.MipDepth(mip), MipOf(im, layer, mip))
    ensures done == base + Tabulate(mip + 1, LayerOf(im, layer))
  {
    Regroup(base, Tabulate(mip, LayerOf(im, layer)), Tabulate(im.MipDepth(mip), MipOf(im, layer, mip)));
    TabulateStep(mip, LayerOf(im, layer));
  }

  lemma LayerDone(im: Image, layer: nat, base: seq<Texel>, done: seq<Texel>)
    requires base == Tabulate(layer, ImageOf(im)) && done == base + Tabulate(im.Levels(), LayerOf(im, layer))
    ensures done == Tabulate(layer + 1, ImageOf(im))
  {
    TabulateStep(layer, ImageOf(im));
  }

  lemma ImageDone(im: Image, done: seq<Texel>)
    requires done == Tabulate(im.Layers(), ImageOf(im))
    ensures done == Texels(im)
  {
  }

  /** The slices, rows and columns of one mip level of one layer. */
  method CopyMip(ghost job: Job, im: Image, fps: seq<Footprint>, upload: bool, buffer: array<Byte>, source: seq<Byte>,
                 guestSize: nat, layer: nat, mip: nat, ghost before: seq<Texel>)
    returns (ghost done: seq<Texel>, ok: bool)
    requires job.im == im && job.fps == fps && job.upload == upload && job.source == source
    requires |job.into| == buffer.Length && layer < im.Layers() && mip < im.Levels()
    requires Addressable(im) && LinearCovers(im, fps, if upload then buffer.Length else |source|)
    requires guestSize == if upload then |source| else buffer.Length
    requires guestSize >= im.Bytes()
    requires Progress(job, buffer[..], before)
    modifies buffer
    ensures ok ==> done == before + Tabulate(im.MipDepth(mip), MipOf(im, layer, mip)) && Progress(job, buffer[..], done)
    ensures !ok ==> !CopyFits(im, fps, guestSize, if upload then buffer.Length else |source|)
  {
    hide Progress, Tiled, Linear, Addressable, LinearCovers, CopyFits, Tabulate, RowOf, SliceOf, MipOf, InImage;
    CoversFootprints(im, fps, if upload then buffer.Length else |source|);
    done := before;
    TabulateNothing(before, MipOf(im, layer, mip));
    var z := 0;
    while z < im.MipDepth(mip)
      invariant z <= im.MipDepth(mip)
      invariant done == before + Tabulate(z, MipOf(im, layer, mip)) && Progress(job, buffer[..], done)
    {
      ghost var plane := done;
      TabulateNothing(plane, SliceOf(im, layer, mip, z));
      var y := 0;
      while y < im.CopyHeight(mip)
        invariant y <= im.CopyHeight(mip)
        invariant done == plane + Tabulate(y, SliceOf(im, layer, mip, z)) && Progress(job, buffer[..], done)
      {
        ghost var row := done;
        TabulateNothing(row, RowOf(layer, mip, z, y));
        var x := 0;
        while x < im.CopyWidth(mip)
          invariant x <= im.CopyWidth(mip)
          invariant done == row + Tabulate(x, RowOf(layer, mip, z, y)) && Progress(job, buffer[..], done)
        {
          var t := Texel(layer, mip, z, y, x);
          CoordinatesInImage(im, t);
          if Tiled(im, t) > guestSize - im.Bytes() {
            BeyondTheEnd(im, fps, guestSize, if upload then buffer.Length else |source|, t);
            return done, false;
          }
          CopyTexel(job, im, fps, upload, buffer, source, t, done);
          RowGrows(layer, mip, z, y, x, row, done);
          done := done + [t];
          x := x + 1;
        }
        SliceGrows(im, layer, mip, z, y, plane, row, done);
        y := y + 1;
      }
      MipGrows(im, layer, mip, z, before, plane, done);
      z := z + 1;
    }
    ok := true;
  }

  lemma CoordinatesInImage(im: Image, t: Texel)
    requires t.layer < im.Layers() && t.mip < im.Levels() && t.z < im.MipDepth(t.mip)
    requires t.y < im.CopyHeight(t.mip) && t.x < im.CopyWidth(t.mip)
    ensures InImage(im, t)
  {
  }

  lemma RowGrows(layer: nat, mip: nat, z: nat, y: nat, x: nat, row: seq<Texel>, done: seq<Texel>)
    requires done == row + Tabulate(x, RowOf(layer, mip, z, y))
    ensures done + [Texel(layer, mip, z, y, x)] == row + Tabulate(x + 1, RowOf(layer, mip, z, y))
  {
    TabulateStep(x, RowOf(layer, mip, z, y));
    Regroup(row, Tabulate(x, RowOf(layer, mip, z, y)), [Texel(layer, mip, z, y, x)]);
  }

  lemma SliceGrows(im: Image, layer: nat, mip: nat, z: nat, y: nat, plane: seq<Texel>, row: seq<Texel>,
                   done: seq<Texel>)
    requires row == plane + Tabulate(y, SliceOf(im, layer, mip, z))
    requires done == row + Tabulate(im.CopyWidth(mip), RowOf(layer, mip, z, y))
    ensures done == plane + Tabulate(y + 1, SliceOf(im, layer, mip, z))
  {
    TabulateStep(y, SliceOf(im, layer, mip, z));
    Regroup(plane, Tabulate(y, SliceOf(im, layer, mip, z)), Tabulate(im.CopyWidth(mip), RowOf(layer, mip, z, y)));
  }

  lemma MipGrows(im: Image, layer: nat, mip: nat, z: nat, before: seq<Texel>, plane: seq<Texel>, done: seq<Texel>)
    requires plane == before + Tabulate(z, MipOf(im, layer, mip))
    requires done == plane + Tabulate(im.CopyHeight(mip), SliceOf(im, layer, mip, z))
    ensures done == before + Tabulate(z + 1, MipOf(im, layer, mip))
  {
    TabulateStep(z, MipOf(im, layer, mip));
    Regroup(before, Tabulate(z, MipOf(im, layer, mip)), Tabulate(im.CopyHeight(mip), SliceOf(im, layer, mip, z)));
  }

  method CopyTexel(ghost job: Job, im: Image, fps: seq<Footprint>, upload: bool, buffer: array<Byte>, source: seq<Byte>,
                   t: Texel, ghost done: seq<Texel>)
    requires job.im == im && job.fps == fps && job.upload == upload && job.source == source
    requires |job.into| == buffer.Length && Addressable(im) && InImage(im, t)
    requires LinearCovers(im, fps, if upload then buffer.Length else |source|)
    requires Tiled(im, t) + im.Bytes() <= if upload then |source| else buffer.Length
    requires Progress(job, buffer[..], done)
    modifies buffer
    ensures Progress(job, buffer[..], done + [t])
  {
    hide Progress, Tiled, Linear, Addressable, LinearCovers, InImage, CopyElement;
    TexelTransfer(job, t, if upload then buffer.Length else |source|);
    ghost var before := buffer[..];
    ghost var c := PlanOf(job, [t])[0];
    var to := if upload then Linear(im, fps, t) else Tiled(im, t);
    var from := if upload then Tiled(im, t) else Linear(im, fps, t);
    CopyInto(buffer, to, source, from, im.Bytes());
    ProgressStep(job, before, done, t, buffer[..]);
  }

  lemma TexelTransfer(job: Job, t: Texel, size: nat)
    requires Addressable(job.im) && InImage(job.im, t) && LinearCovers(job.im, job.fps, size)
    ensures Footprinted(job.im, job.fps) && Linear(job.im, job.fps, t) + job.im.Bytes() <= size
    ensures PlanOf(job, [t])[0] ==
              if job.upload then Transfer(Linear(job.im, job.fps, t), Tiled(job.im, t))
              else Transfer(Tiled(job.im, t), Linear(job.im, job.fps, t))
  {
    hide Tiled, Linear, Addressable, Footprinted;
  }

  method CopyInto(buffer: array<Byte>, to: nat, source: seq<Byte>, from: nat, size: nat)
    requires to + size <= buffer.Length && from + size <= |source|
    modifies buffer
    ensures buffer[..] == CopyElement(old(buffer[..]), source, Transfer(to, from), size)
  {
    forall k | 0 <= k < size {
      buffer[to + k] := source[from + k];
    }
  }

  // ---------- the two entry points ----------

  /** Writes a finished readback buffer to the guest image; on failure guest memory is unchanged. */
  method WritebackImage(cs: GuestCpu, im: Image, fps: seq<Footprint>, mapped: seq<Byte>) returns (ok: bool)
    requires Addressable(im) && LinearCovers(im, fps, |mapped|)
    modifies cs`memory
    ensures ok == (im.guestSize <= INT_MAX && Mapped(old(cs.memory), im.guestAddress, im.guestSize) &&
                   CopyFits(im, fps, im.guestSize, |mapped|))
    ensures !ok ==> cs.memory == old(cs.memory)
    ensures ok ==> cs.memory == Poke(old(cs.memory), im.guestAddress,
                     WriteBack(im, fps, Peek(old(cs.memory), im.guestAddress, im.guestSize), mapped))
  {
    hide CopyFits, LinearCovers, WriteBack;
    if im.guestSize > INT_MAX || !Mapped(cs.memory, im.guestAddress, im.guestSize) {
      return false;
    }
    var was := Peek(cs.memory, im.guestAddress, im.guestSize);
    var guest := new Byte[im.guestSize](i requires 0 <= i < |was| => was[i]);
    assert guest[..] == was;
    ok := CopyTexels(Job(im, fps, false, was, mapped), im, fps, false, guest, mapped, im.guestSize);
    if ok {
      cs.memory := Poke(cs.memory, im.guestAddress, guest[..]);
    }
  }

  /** Fills a zeroed upload buffer from the guest image. */
  method PrepareLinearImage(cs: GuestCpu, im: Image, fps: seq<Footprint>, uploadSize: nat)
    returns (ok: bool, mapped: seq<Byte>)
    requires Addressable(im) && LinearCovers(im, fps, uploadSize)
    ensures ok == (im.guestSize <= MAX_UPLOAD && Mapped(cs.memory, im.guestAddress, im.guestSize) &&
                   CopyFits(im, fps, im.guestSize, uploadSize))
    ensures ok ==> mapped == Upload(im, fps, seq(uploadSize, _ => 0), Peek(cs.memory, im.guestAddress, im.guestSize))
  {
    hide CopyFits, LinearCovers, Upload;
    mapped := [];
    if im.guestSize == 0 || im.guestSize > MAX_UPLOAD || !Mapped(cs.memory, im.guestAddress, im.guestSize) {
      return false, mapped;
    }
    var pixels := Peek(cs.memory, im.guestAddress, im.guestSize);
    var upload := new Byte[uploadSize](_ => 0);
    assert upload[..] == seq(uploadSize, _ => 0);
    ok := CopyTexels(Job(im, fps, true, upload[..], pixels), im, fps, true, upload, pixels, im.guestSize);
    mapped := upload[..];
  }

  /** Well-placed images meet what the loops suppose and pass what they check. */
  lemma PlacedImagesPass(im: Image, fps: seq<Footprint>, size: nat)
    requires WellPlaced(im) && WellFootprinted(im, fps, size) && LayersStored(im)
    ensures Addressable(im) && LinearCovers(im, fps, size) && CopyFits(im, fps, im.guestSize, size)
  {
    hide Tiled, Linear, CopyFits;
    PlacedImagesCopy(im, fps, size);
    forall t | InImage(im, t) ensures Linear(im, fps, t) + im.Bytes() <= size {
      LinearNesting(im, fps, size, t);
    }
  }

  /** Guest memory after a write-back of `linear`. */
  function WrittenBack(im: Image, fps: seq<Footprint>, mem: Memory, linear: seq<Byte>): (after: Memory)
    requires Mapped(mem, im.guestAddress, im.guestSize)
    requires Addressable(im) && CopyFits(im, fps, im.guestSize, |linear|)
    ensures after.Keys == mem.Keys && Mapped(after, im.guestAddress, im.guestSize)
  {
    Poke(mem, im.guestAddress, WriteBack(im, fps, Peek(mem, im.guestAddress, im.guestSize), linear))
  }

  lemma WrittenBackHolds(im: Image, fps: seq<Footprint>, mem: Memory, linear: seq<Byte>)
    requires Mapped(mem, im.guestAddress, im.guestSize)
    requires Addressable(im) && CopyFits(im, fps, im.guestSize, |linear|)
    ensures Peek(WrittenBack(im, fps, mem, linear), im.guestAddress, im.guestSize) ==
              WriteBack(im, fps, Peek(mem, im.guestAddress, im.guestSize), linear)
  {
    hide Addressable, CopyFits, WriteBack, Peek, Poke, Mapped;
    PeekPoke(mem, im.guestAddress, WriteBack(im, fps, Peek(mem, im.guestAddress, im.guestSize), linear));
  }

  lemma PokeAt(mem: Memory, address: int, size: nat, data: seq<Byte>, a: int)
    requires Mapped(mem, address, size) && |data| == size && a in mem
    requires address <= a < address + size ==> data[a - address] == Peek(mem, address, size)[a - address]
    ensures Poke(mem, address, data)[a] == mem[a]
  {
  }

  /** A write-back touches no guest byte outside the image's texels. */
  lemma WriteBackFrame(im: Image, fps: seq<Footprint>, mem: Memory, linear: seq<Byte>, a: int)
    requires Mapped(mem, im.guestAddress, im.guestSize)
    requires Addressable(im) && Footprinted(im, fps) && CopyFits(im, fps, im.guestSize, |linear|)
    requires a in mem && !(im.guestAddress <= a && InTiledImage(im, fps, a - im.guestAddress))
    ensures WrittenBack(im, fps, mem, linear)[a] == mem[a]
  {
    hide Addressable, CopyFits, WriteBack, InTiledImage, Peek, Poke, Mapped, Footprinted;
    var guest := Peek(mem, im.guestAddress, im.guestSize);
    if im.guestAddress <= a < im.guestAddress + im.guestSize {
      WriteBackKeeps(im, fps, guest, linear, a - im.guestAddress);
    }
    PokeAt(mem, im.guestAddress, im.guestSize, WriteBack(im, fps, guest, linear), a);
  }

  /** The round trip through guest memory: both copies succeed, and the upload after the write-back holds
      the linear image. */
  lemma RoundTripThroughMemory(im: Image, fps: seq<Footprint>, mem: Memory, linear: seq<Byte>)
    requires Copyable(im, fps, im.guestSize, |linear|) && im.guestSize <= MAX_UPLOAD
    requires Mapped(mem, im.guestAddress, im.guestSize) && Addressable(im) && TexelsApart(im)
    ensures CopyFits(im, fps, im.guestSize, |linear|) && Footprinted(im, fps)
    ensures var after := WrittenBack(im, fps, mem, linear);
            var back := Upload(im, fps, seq(|linear|, _ => 0), Peek(after, im.guestAddress, im.guestSize));
            forall b :: 0 <= b < |linear| ==> back[b] == if InLinearImage(im, fps, b) then linear[b] else 0
  {
    hide Copyable, Addressable, CopyFits, WriteBack, Upload, InTiledImage, InLinearImage, Peek, Poke, Mapped,
         Footprinted, WrittenBack, TexelsApart;
    CopyableParts(im, fps, im.guestSize, |linear|);
    WrittenBackHolds(im, fps, mem, linear);
    ApartRoundTrips(im, fps, Peek(mem, im.guestAddress, im.guestSize), linear, seq(|linear|, _ => 0));
  }
}
