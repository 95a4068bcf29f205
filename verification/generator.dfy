/** The generation routines of noise/main.cpp: the nested lattice loops that fill an RGBA8
    byte buffer texel by texel, and the images handed to the writer afterwards. */
module Generator {
  import opened Primitives
  import opened Channels
  import opened Lattice
  import opened Textures

  /** What one buffer is filled with: one of the four 3D volumes, or one of the two 2D
      images (which the source computes on the z = 0 face). */
  datatype Job = Volume(volume: VolumeKind) | Image(image: ImageKind)

  /** Number of r-slices the loops visit: all of them for a volume, only r = 0 for an image. */
  function Depth(job: Job, size: nat): (d: nat)
    ensures d <= size
    ensures job.Volume? ==> d == size
    ensures job.Image? && size > 0 ==> d == 1
  {
    if job.Volume? then size else if size == 0 then 0 else 1
  }

  /** Jobs whose texels are packed: one value broadcast to R, G, B with opaque alpha. */
  predicate PackedJob(job: Job) {
    (job.Volume? && job.volume.Packed()) || job == Image(WorleyImage)
  }

  /** Jobs whose alpha channel is the constant 255. */
  predicate OpaqueJob(job: Job) {
    job.Volume? ==> job.volume != BaseShape
  }

  /** The texel a job stores for lattice point (s, t, r). */
  function JobTexel(n: Primitives, job: Job, size: nat, s: nat, t: nat, r: nat): (x: Texel)
    requires MeetsContract(n) && InGrid(size, s, t, r)
    ensures OpaqueJob(job) ==> x.a == 255
    ensures PackedJob(job) ==> IsPacked(x)
  {
    match job
    case Volume(kind) => VolumeTexel(n, kind, size, s, t, r)
    case Image(kind) => ImageTexel(n, kind, size, s, t)
  }

  /** The four bytes of texel number `i`. */
  function TexelAt(buf: seq<Byte>, i: nat): Texel
    requires i * BytesPerTexel + 3 < |buf|
  {
    var a := i * BytesPerTexel;
    Texel(buf[a], buf[a + 1], buf[a + 2], buf[a + 3])
  }

  /** The four stores `texels[addr] .. texels[addr + 3]` for texel number `i`: that texel
      becomes `x` and every other texel keeps its bytes. */
  function WriteTexel(buf: seq<Byte>, i: nat, x: Texel): (r: seq<Byte>)
    requires i * BytesPerTexel + 3 < |buf|
    ensures |r| == |buf|
    ensures TexelAt(r, i) == x
    ensures forall j: nat :: j * BytesPerTexel + 3 < |buf| && j != i ==> TexelAt(r, j) == TexelAt(buf, j)
  {
    var a := i * BytesPerTexel;
    buf[a := x.r][a + 1 := x.g][a + 2 := x.b][a + 3 := x.a]
  }

  /** Loop order of the source: s outermost, then t, then r innermost. Lattice point
      (s', t', r') has been visited before iteration (s, t, r). */
  predicate Visited(s': nat, t': nat, r': nat, s: nat, t: nat, r: nat) {
    s' < s || (s' == s && t' < t) || (s' == s && t' == t && r' < r)
  }

  /** The state before iteration (s, t, r): every lattice point of the first `Depth` slices
      visited so far has been written once with its texel, and no other texel has been
      written. */
  ghost predicate FilledUpTo(n: Primitives, job: Job, size: nat, buf: seq<Byte>, writes: seq<nat>,
                             s: nat, t: nat, r: nat)
  {
    MeetsContract(n) && |buf| == VolumeBytes(size) && |writes| == TexelCount(size) &&
    forall s': nat, t': nat, r': nat :: InGrid(size, s', t', r') ==>
      var done := r' < Depth(job, size) && Visited(s', t', r', s, t, r);
      writes[Index(size, s', t', r')] == (if done then 1 else 0) &&
      (done ==> TexelAt(buf, Index(size, s', t', r')) == JobTexel(n, job, size, s', t', r'))
  }

  /** One iteration of the innermost loop writes the current texel and advances the state. */
  lemma WriteStep(n: Primitives, job: Job, size: nat, buf: seq<Byte>, writes: seq<nat>,
                  s: nat, t: nat, r: nat)
    requires FilledUpTo(n, job, size, buf, writes, s, t, r)
    requires InGrid(size, s, t, r) && r < Depth(job, size)
    ensures Index(size, s, t, r) < |writes|
    ensures FilledUpTo(n, job, size,
                       WriteTexel(buf, Index(size, s, t, r), JobTexel(n, job, size, s, t, r)),
                       writes[Index(size, s, t, r) := writes[Index(size, s, t, r)] + 1],
                       s, t, r + 1)
  {
    var i := Index(size, s, t, r);
    var buf' := WriteTexel(buf, i, JobTexel(n, job, size, s, t, r));
    var writes' := writes[i := writes[i] + 1];
    forall s': nat, t': nat, r': nat | InGrid(size, s', t', r')
      ensures var done := r' < Depth(job, size) && Visited(s', t', r', s, t, r + 1);
        writes'[Index(size, s', t', r')] == (if done then 1 else 0) &&
        (done ==> TexelAt(buf', Index(size, s', t', r')) == JobTexel(n, job, size, s', t', r'))
    {
      if (s', t', r') != (s, t, r) {
        if Index(size, s', t', r') == i {
          IndexInjective(size, s', t', r', s, t, r);
        }
      }
    }
  }

  /** Leaving the r-loop: once every slice of column (s, t) is written, the state is the
      one before column (s, t + 1). */
  lemma ColumnDone(n: Primitives, job: Job, size: nat, buf: seq<Byte>, writes: seq<nat>, s: nat, t: nat)
    requires FilledUpTo(n, job, size, buf, writes, s, t, Depth(job, size))
    ensures FilledUpTo(n, job, size, buf, writes, s, t + 1, 0)
  {
    var depth := Depth(job, size);
    forall s': nat, t': nat, r': nat | r' < depth
      ensures Visited(s', t', r', s, t, depth) == Visited(s', t', r', s, t + 1, 0)
    {
    }
  }

  /** Leaving the t-loop: once every column of plane s is written, the state is the one
      before plane s + 1. */
  lemma PlaneDone(n: Primitives, job: Job, size: nat, buf: seq<Byte>, writes: seq<nat>, s: nat)
    requires FilledUpTo(n, job, size, buf, writes, s, size, 0)
    ensures FilledUpTo(n, job, size, buf, writes, s + 1, 0, 0)
  {
    forall s': nat, t': nat, r': nat | InGrid(size, s', t', r')
      ensures Visited(s', t', r', s, size, 0) == Visited(s', t', r', s + 1, 0, 0)
    {
    }
  }

  /** Before the loops nothing has been visited, so a zeroed buffer with zero counts is in
      the initial state. */
  lemma NothingFilled(n: Primitives, job: Job, size: nat)
    requires MeetsContract(n)
    ensures FilledUpTo(n, job, size, seq(VolumeBytes(size), _ => 0), seq(TexelCount(size), _ => 0), 0, 0, 0)
  {
    var writes: seq<nat> := seq(TexelCount(size), _ => 0);
    forall s': nat, t': nat, r': nat | InGrid(size, s', t', r')
      ensures writes[Index(size, s', t', r')] == 0
    {
    }
  }

  /** After the loops every texel of the first `Depth` slices has been written once with its
      texel, and the write counts are 1 exactly below `size * size * Depth`. */
  lemma AllFilled(n: Primitives, job: Job, size: nat, buf: seq<Byte>, writes: seq<nat>)
    requires FilledUpTo(n, job, size, buf, writes, size, 0, 0)
    ensures forall i :: 0 <= i < |writes| ==> writes[i] == (if i < size * size * Depth(job, size) then 1 else 0)
    ensures forall s: nat, t: nat, r: nat :: InGrid(size, s, t, r) && r < Depth(job, size) ==>
      TexelAt(buf, Index(size, s, t, r)) == JobTexel(n, job, size, s, t, r)
  {
    var depth := Depth(job, size);
    forall i | 0 <= i < |writes|
      ensures writes[i] == (if i < size * size * depth then 1 else 0)
    {
      IndexOnto(size, i);
      var c := CellOf(size, i);
      IndexBelowSlices(size, c.s, c.t, c.r, depth);
    }
  }

  /** Fills one buffer the way the source's nested loops do and returns it together with
      the (ghost) number of times each texel was written. The buffer has the size the source
      allocates, `VolumeBytes(size)`; every texel of the first `Depth` slices is written
      exactly once, with its own texel, and no other texel is written. */
  method Fill(n: Primitives, job: Job, size: nat) returns (buf: seq<Byte>, ghost writes: seq<nat>)
    requires MeetsContract(n)
    ensures |buf| == VolumeBytes(size) && |writes| == TexelCount(size)
    ensures forall i :: 0 <= i < |writes| ==> writes[i] == (if i < size * size * Depth(job, size) then 1 else 0)
    ensures forall s: nat, t: nat, r: nat :: InGrid(size, s, t, r) && r < Depth(job, size) ==>
      TexelAt(buf, Index(size, s, t, r)) == JobTexel(n, job, size, s, t, r)
  {
    var depth := Depth(job, size);
    buf := seq(VolumeBytes(size), _ => 0);
    writes := seq(TexelCount(size), _ => 0);
    NothingFilled(n, job, size);
    var s := 0;
    while s < size
      invariant s <= size
      invariant FilledUpTo(n, job, size, buf, writes, s, 0, 0)
    {
      var t := 0;
      while t < size
        invariant t <= size
        invariant FilledUpTo(n, job, size, buf, writes, s, t, 0)
      {
        var r := 0;
        while r < depth
          invariant r <= depth
          invariant FilledUpTo(n, job, size, buf, writes, s, t, r)
        {
          WriteStep(n, job, size, buf, writes, s, t, r);
          var i := Index(size, s, t, r);
          buf := WriteTexel(buf, i, JobTexel(n, job, size, s, t, r));
          writes := writes[i := writes[i] + 1];
          r := r + 1;
        }
        ColumnDone(n, job, size, buf, writes, s, t);
        t := t + 1;
      }
      PlaneDone(n, job, size, buf, writes, s);
      s := s + 1;
    }
    AllFilled(n, job, size, buf, writes);
  }

  /** An image handed to the writer: file name, dimensions, bytes per pixel and the bytes the
      writer reads. */
  datatype OutputImage = OutputImage(name: string, width: nat, height: nat, channels: nat, bytes: seq<Byte>)

  predicate WellFormed(img: OutputImage) {
    img.channels == BytesPerTexel && |img.bytes| == img.width * img.height * BytesPerTexel
  }

  /** Fills the buffer of one job and hands it to the writer: a volume as its size^2 x size
      atlas, a 2D image as size x size pixels read from the start of the buffer. Every pixel
      the writer reads was written by the loops; packed jobs give packed pixels everywhere
      and opaque jobs an alpha of 255 everywhere. */
  method Emit(n: Primitives, job: Job, size: nat, name: string) returns (img: OutputImage)
    requires MeetsContract(n)
    ensures img.name == name && img.channels == BytesPerTexel && WellFormed(img)
    ensures job.Volume? ==> img.width == size * size && img.height == size
    ensures job.Image? ==> img.width == size && img.height == size
    ensures img.width * img.height == size * size * Depth(job, size)
    ensures forall s: nat, t: nat, r: nat :: InGrid(size, s, t, r) && r < Depth(job, size) ==>
      Index(size, s, t, r) * BytesPerTexel + 3 < |img.bytes| &&
      TexelAt(img.bytes, Index(size, s, t, r)) == JobTexel(n, job, size, s, t, r)
    ensures forall i: nat :: i < img.width * img.height ==>
      (PackedJob(job) ==> IsPacked(TexelAt(img.bytes, i))) &&
      (OpaqueJob(job) ==> TexelAt(img.bytes, i).a == 255)
  {
    var buf;
    ghost var writes;
    buf, writes := Fill(n, job, size);
    var depth := Depth(job, size);
    var width, height;
    if job.Volume? {
      width, height := Atlas(size).width, Atlas(size).height;
    } else {
      width, height := size, size;
      if size > 0 {
        Image2DFitsVolume(size);
      }
    }
    var count := width * height;
    assert count == size * size * depth;
    assert count * BytesPerTexel <= |buf|;
    img := OutputImage(name, width, height, BytesPerTexel, buf[..count * BytesPerTexel]);
    forall s: nat, t: nat, r: nat | InGrid(size, s, t, r) && r < depth
      ensures Index(size, s, t, r) * BytesPerTexel + 3 < |img.bytes|
      ensures TexelAt(img.bytes, Index(size, s, t, r)) == JobTexel(n, job, size, s, t, r)
    {
      IndexBelowSlices(size, s, t, r, depth);
    }
    forall i: nat | i < count
      ensures (PackedJob(job) ==> IsPacked(TexelAt(img.bytes, i))) &&
              (OpaqueJob(job) ==> TexelAt(img.bytes, i).a == 255)
    {
      IndexOnto(size, i);
      var c := CellOf(size, i);
      IndexBelowSlices(size, c.s, c.t, c.r, depth);
      assert TexelAt(img.bytes, i) == JobTexel(n, job, size, c.s, c.t, c.r);
    }
  }

  /** `generate_cloud_shape_textures`: the base-shape volume (128^3) and the erosion volume
      (32^3), each plain and packed, written as atlases of width size^2 and height size. */
  method GenerateCloudShapeTextures(n: Primitives) returns (images: seq<OutputImage>)
    requires MeetsContract(n)
    ensures |images| == 4
    ensures images[0].name == "noise_shape.tga" && images[1].name == "noise_shape_packed.tga"
    ensures images[2].name == "noise_erosion.tga" && images[3].name == "noise_erosion_packed.tga"
    ensures forall k :: 0 <= k < |images| ==> WellFormed(images[k]) && images[k].channels == 4
    ensures images[0].width == 128 * 128 && images[0].height == 128
    ensures images[1].width == 128 * 128 && images[1].height == 128
    ensures images[2].width == 32 * 32 && images[2].height == 32
    ensures images[3].width == 32 * 32 && images[3].height == 32
    ensures |images[0].bytes| == |images[1].bytes| == VolumeBytes(BaseShapeSize)
    ensures |images[2].bytes| == |images[3].bytes| == VolumeBytes(ErosionSize)
    ensures forall k, i: nat :: k in {1, 3} && i < images[k].width * images[k].height ==>
      IsPacked(TexelAt(images[k].bytes, i))
    ensures forall i: nat :: i < images[2].width * images[2].height ==> TexelAt(images[2].bytes, i).a == 255
    ensures forall s: nat, t: nat, r: nat :: InGrid(BaseShapeSize, s, t, r) ==>
      TexelAt(images[0].bytes, Index(BaseShapeSize, s, t, r)) == VolumeTexel(n, BaseShape, BaseShapeSize, s, t, r)
    ensures forall s: nat, t: nat, r: nat :: InGrid(ErosionSize, s, t, r) ==>
      TexelAt(images[2].bytes, Index(ErosionSize, s, t, r)) == VolumeTexel(n, Erosion, ErosionSize, s, t, r)
    ensures forall s: nat, t: nat, r: nat :: InGrid(BaseShapeSize, s, t, r) ==>
      TexelAt(images[1].bytes, Index(BaseShapeSize, s, t, r)) == VolumeTexel(n, BaseShapePacked, BaseShapeSize, s, t, r)
    ensures forall s: nat, t: nat, r: nat :: InGrid(ErosionSize, s, t, r) ==>
      TexelAt(images[3].bytes, Index(ErosionSize, s, t, r)) == VolumeTexel(n, ErosionPacked, ErosionSize, s, t, r)
  {
    var shape := Emit(n, Volume(BaseShape), BaseShapeSize, "noise_shape.tga");
    var shapePacked := Emit(n, Volume(BaseShapePacked), BaseShapeSize, "noise_shape_packed.tga");
    var erosion := Emit(n, Volume(Erosion), ErosionSize, "noise_erosion.tga");
    var erosionPacked := Emit(n, Volume(ErosionPacked), ErosionSize, "noise_erosion_packed.tga");
    images := [shape, shapePacked, erosion, erosionPacked];
  }

  /** `generate_perlin_noise`: a 512 x 512 image of clamped Perlin fBm (R), Perlin-Worley
      (G) and single-octave Perlin (B), opaque. */
  method GeneratePerlinNoise(n: Primitives) returns (image: OutputImage)
    requires MeetsContract(n)
    ensures image.name == "perlin_noise.tga" && WellFormed(image)
    ensures image.width == Image2DSize && image.height == Image2DSize && image.channels == 4
    ensures forall i: nat :: i < image.width * image.height ==> TexelAt(image.bytes, i).a == 255
    ensures forall s: nat, t: nat :: s < Image2DSize && t < Image2DSize ==>
      TexelAt(image.bytes, Index2D(Image2DSize, s, t)) == ImageTexel(n, PerlinImage, Image2DSize, s, t)
  {
    image := Emit(n, Image(PerlinImage), Image2DSize, "perlin_noise.tga");
    forall s: nat, t: nat | s < Image2DSize && t < Image2DSize
      ensures TexelAt(image.bytes, Index2D(Image2DSize, s, t)) == ImageTexel(n, PerlinImage, Image2DSize, s, t)
    {
      assert InGrid(Image2DSize, s, t, 0);
      assert Index2D(Image2DSize, s, t) == Index(Image2DSize, s, t, 0);
    }
  }

  /** `generate_worley_noise`: a 512 x 512 image of the Worley fBm broadcast to R, G, B,
      opaque. */
  method GenerateWorleyNoise(n: Primitives) returns (image: OutputImage)
    requires MeetsContract(n)
    ensures image.name == "worley_fbm.tga" && WellFormed(image)
    ensures image.width == Image2DSize && image.height == Image2DSize && image.channels == 4
    ensures forall i: nat :: i < image.width * image.height ==> IsPacked(TexelAt(image.bytes, i))
    ensures forall s: nat, t: nat :: s < Image2DSize && t < Image2DSize ==>
      TexelAt(image.bytes, Index2D(Image2DSize, s, t)) == ImageTexel(n, WorleyImage, Image2DSize, s, t)
  {
    image := Emit(n, Image(WorleyImage), Image2DSize, "worley_fbm.tga");
    forall s: nat, t: nat | s < Image2DSize && t < Image2DSize
      ensures TexelAt(image.bytes, Index2D(Image2DSize, s, t)) == ImageTexel(n, WorleyImage, Image2DSize, s, t)
    {
      assert InGrid(Image2DSize, s, t, 0);
      assert Index2D(Image2DSize, s, t) == Index(Image2DSize, s, t, 0);
    }
  }

  /** The tool's entry point as the source leaves it: only the Worley image is generated,
      the other two routines being commented out. */
  method RunTool(n: Primitives) returns (images: seq<OutputImage>)
    requires MeetsContract(n)
    ensures |images| == 1 && images[0].name == "worley_fbm.tga" && WellFormed(images[0])
    ensures forall i: nat :: i < images[0].width * images[0].height ==> IsPacked(TexelAt(images[0].bytes, i))
    ensures images[0].width == Image2DSize && images[0].height == Image2DSize
    ensures forall s: nat, t: nat :: s < Image2DSize && t < Image2DSize ==>
      TexelAt(images[0].bytes, Index2D(Image2DSize, s, t)) == ImageTexel(n, WorleyImage, Image2DSize, s, t)
  {
    var worley := GenerateWorleyNoise(n);
    images := [worley];
  }
}
