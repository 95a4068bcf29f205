/** Lattice addressing and buffer layout of the noise-volume generator in noise/main.cpp:
    where lattice point (s, t, r) of a size^3 grid lands in the RGBA8 byte buffer, how big
    that buffer is, and how it is read back as a 2D atlas image. */
module Lattice {
  import opened Primitives

  /** One RGBA8 texel: four unsigned bytes. */
  const BytesPerTexel: nat := 4

  /** Largest value of the 32-bit `int` the source computes byte counts and addresses in. */
  const IntMax: nat := 0x7fff_ffff

  /** Side lengths the source uses: the base-shape volume, the erosion volume and the 2D
      Perlin and Worley images. */
  const BaseShapeSize: nat := 128
  const ErosionSize: nat := 32
  const Image2DSize: nat := 512

  /** A lattice point (s, t, r) of the grid. */
  datatype Cell = Cell(s: nat, t: nat, r: nat)

  predicate InGrid(size: nat, s: nat, t: nat, r: nat) {
    s < size && t < size && r < size
  }

  function TexelCount(size: nat): nat {
    size * size * size
  }

  /** Bytes of one row of texels along s. */
  function RowBytes(size: nat): nat {
    size * BytesPerTexel
  }

  /** Bytes of one slice of size x size texels. */
  function SliceBytes(size: nat): nat {
    RowBytes(size) * size
  }

  /** Bytes allocated for the whole volume: one slice per r. */
  function VolumeBytes(size: nat): (n: nat)
    ensures n == TexelCount(size) * BytesPerTexel
  {
    ProductRegroup(size);
    SliceBytes(size) * size
  }

  /** Texel number of lattice point (s, t, r): s varies fastest, then t, then r. */
  function Index(size: nat, s: nat, t: nat, r: nat): (i: nat)
    requires InGrid(size, s, t, r)
    ensures i < TexelCount(size)
  {
    // r * size * size + t * size + s, grouped as (r * size + t) * size + s
    MixedRadixBound(r, t, size, size);
    MixedRadixBound(r * size + t, s, size, size * size);
    (r * size + t) * size + s
  }

  /** Byte offset of the first channel of lattice point (s, t, r); all four channels fall
      inside the volume buffer. */
  function Addr(size: nat, s: nat, t: nat, r: nat): (a: nat)
    requires InGrid(size, s, t, r)
    ensures a % BytesPerTexel == 0
    ensures a + (BytesPerTexel - 1) < VolumeBytes(size)
  {
    Index(size, s, t, r) * BytesPerTexel
  }

  /** Distinct lattice points have distinct texel numbers. */
  lemma IndexInjective(size: nat, s: nat, t: nat, r: nat, s': nat, t': nat, r': nat)
    requires InGrid(size, s, t, r) && InGrid(size, s', t', r')
    requires Index(size, s, t, r) == Index(size, s', t', r')
    ensures s == s' && t == t' && r == r'
  {
    MixedRadixUnique(r * size + t, s, r' * size + t', s', size);
    MixedRadixUnique(r, t, r', t', size);
  }

  /** The lattice point stored at texel number `i`: its digits in base `size`. */
  function CellOf(size: nat, i: nat): Cell
    requires size > 0
  {
    Cell(i % size, (i / size) % size, (i / size) / size)
  }

  /** Every texel number of the volume is the number of exactly the lattice point
      `CellOf` names, so `Index` maps the grid onto all size^3 texels. */
  lemma IndexOnto(size: nat, i: nat)
    requires i < TexelCount(size)
    ensures size > 0
    ensures InGrid(size, CellOf(size, i).s, CellOf(size, i).t, CellOf(size, i).r)
    ensures Index(size, CellOf(size, i).s, CellOf(size, i).t, CellOf(size, i).r) == i
  {
    NonEmptyGrid(size, i);
    var c := CellOf(size, i);
    Decompose(size, i, i / size, c.s, c.t, c.r);
  }

  /** `CellOf` and `Index` are mutually inverse on the grid. */
  lemma CellOfIndex(size: nat, s: nat, t: nat, r: nat)
    requires InGrid(size, s, t, r)
    ensures size > 0 && CellOf(size, Index(size, s, t, r)) == Cell(s, t, r)
  {
    var i := Index(size, s, t, r);
    IndexOnto(size, i);
    var c := CellOf(size, i);
    IndexInjective(size, c.s, c.t, c.r, s, t, r);
  }

  /** Texel numbers are grouped by r: slice r holds exactly the numbers
      [r * size^2, (r + 1) * size^2). */
  lemma IndexSlice(size: nat, s: nat, t: nat, r: nat)
    requires InGrid(size, s, t, r)
    ensures size * size * r <= Index(size, s, t, r) < size * size * (r + 1)
  {
    MixedRadixBound(t, s, size, size);
    RowMajor(r, t, s, size);
    assert size * size * r == r * (size * size);
    assert size * size * (r + 1) == r * (size * size) + size * size;
  }

  /** A texel number lies below the first `depth` slices exactly when its lattice point
      does. */
  lemma IndexBelowSlices(size: nat, s: nat, t: nat, r: nat, depth: nat)
    requires InGrid(size, s, t, r)
    ensures Index(size, s, t, r) < size * size * depth <==> r < depth
  {
    IndexSlice(size, s, t, r);
    if r < depth {
      MulMonotone(r + 1, depth, size * size);
      assert size * size * (r + 1) == (r + 1) * (size * size);
      assert size * size * depth == depth * (size * size);
    } else {
      MulMonotone(depth, r, size * size);
      assert size * size * r == r * (size * size);
      assert size * size * depth == depth * (size * size);
    }
  }

  /** Shape of the image handed to the writer: `channels` bytes per pixel. */
  datatype AtlasLayout = AtlasLayout(width: nat, height: nat, channels: nat)

  /** The volume is written out as an image of width size^2 and height size. */
  function Atlas(size: nat): (a: AtlasLayout)
    ensures a.width * a.height * a.channels == VolumeBytes(size)
    ensures a.channels == BytesPerTexel
  {
    ProductRegroup(size);
    AtlasLayout(size * size, size, BytesPerTexel)
  }

  /** Pixel (x, y) of the atlas that holds lattice point (s, t, r): row y is the r-slice and
      column x is t * size + s, so slices are stacked along the image height. */
  function AtlasPixel(size: nat, s: nat, t: nat, r: nat): (xy: (nat, nat))
    requires InGrid(size, s, t, r)
    ensures xy.0 < Atlas(size).width && xy.1 < Atlas(size).height
    ensures xy.1 * Atlas(size).width + xy.0 == Index(size, s, t, r)
  {
    MixedRadixBound(t, s, size, size);
    RowMajor(r, t, s, size);
    (t * size + s, r)
  }

  /** The byte count fits the 32-bit `int` the source uses exactly when the side is at most
      812; every byte address lies below the count (`Addr`), so it fits too. The configured
      sizes are well inside. */
  lemma VolumeBytesFitInt(size: nat)
    ensures VolumeBytes(size) <= IntMax <==> size <= 812
  {
    if size <= 812 {
      CubeMonotone(size, 812);
    } else {
      CubeMonotone(813, size);
    }
  }

  /** Texel number in the 2D generators: s varies fastest, then t. */
  function Index2D(size: nat, s: nat, t: nat): (i: nat)
    requires s < size && t < size
    ensures i < size * size
  {
    MixedRadixBound(t, s, size, size);
    t * size + s
  }

  /** Distinct pixels of the 2D generators have distinct texel numbers. */
  lemma Index2DInjective(size: nat, s: nat, t: nat, s': nat, t': nat)
    requires s < size && t < size && s' < size && t' < size
    requires Index2D(size, s, t) == Index2D(size, s', t')
    ensures s == s' && t == t'
  {
    MixedRadixUnique(t, s, t', s', size);
  }

  /** Bytes of a size x size RGBA8 image, the part of its buffer a 2D generator writes. */
  function Image2DBytes(size: nat): nat {
    size * size * BytesPerTexel
  }

  /** The 2D generators allocate a full volume, which always holds the image they write. */
  lemma Image2DFitsVolume(size: nat)
    requires size > 0
    ensures Image2DBytes(size) <= VolumeBytes(size)
  {
    MulMonotone(1, size, size * size);
  }

  /** Normalised lattice coordinate: index i of a grid of side `size` sits at i / size. */
  function Coord(i: nat, size: nat): (c: real)
    requires i < size
    ensures 0.0 <= c < 1.0
  {
    QuotientBelowOne(i as real, size as real);
    i as real / size as real
  }

  /** The point of the unit cube sampled for lattice point (s, t, r). */
  function LatticePoint(size: nat, s: nat, t: nat, r: nat): (p: Point)
    requires InGrid(size, s, t, r)
    ensures InUnitCube(p)
    ensures p.x < 1.0 && p.y < 1.0 && p.z < 1.0
  {
    Point(Coord(s, size), Coord(t, size), Coord(r, size))
  }

  /** The point sampled for pixel (s, t) of the 2D generators: the z = 0 face. */
  function LatticePoint2D(size: nat, s: nat, t: nat): (p: Point)
    requires s < size && t < size
    ensures InUnitCube(p) && p.z == 0.0
  {
    Point(Coord(s, size), Coord(t, size), 0.0)
  }

  // Arithmetic helpers: each isolates one non-linear step.


  lemma ProductRegroup(size: nat)
    ensures size * BytesPerTexel * size * size == size * size * size * BytesPerTexel
    ensures size * size * size * BytesPerTexel == size * size * (size * BytesPerTexel)
  {
  }

  lemma RowMajor(r: nat, t: nat, s: nat, size: nat)
    ensures r * (size * size) + (t * size + s) == (r * size + t) * size + s
  {
  }

  lemma MulMonotone(a: nat, b: nat, c: nat)
    requires a <= b
    ensures a * c <= b * c
  {
  }

  /** A two-digit mixed-radix number with digits below their radix stays below the range. */
  lemma MixedRadixBound(hi: nat, lo: nat, radix: nat, n: nat)
    requires hi < n && lo < radix
    ensures hi * radix + lo < n * radix
  {
    MulMonotone(hi + 1, n, radix);
  }

  /** The digits of a two-digit mixed-radix number are unique. */
  lemma MixedRadixUnique(hi: nat, lo: nat, hi': nat, lo': nat, radix: nat)
    requires lo < radix && lo' < radix
    requires hi * radix + lo == hi' * radix + lo'
    ensures hi == hi' && lo == lo'
  {
    if hi < hi' {
      MulMonotone(hi + 1, hi', radix);
    } else if hi' < hi {
      MulMonotone(hi' + 1, hi, radix);
    }
  }

  lemma Decompose(size: nat, i: nat, q: nat, s: nat, t: nat, r: nat)
    requires size > 0 && i < TexelCount(size)
    requires q == i / size && s == i % size && t == q % size && r == q / size
    ensures InGrid(size, s, t, r) && (r * size + t) * size + s == i
  {
    assert i < (size * size) * size;
    QuotientBelow(i, size, size * size);
    QuotientBelow(q, size, size);
    DivMod(i, size);
    DivMod(q, size);
    Recombine(q, r, t, s, size);
  }

  lemma NonEmptyGrid(size: nat, i: nat)
    requires i < TexelCount(size)
    ensures size > 0
  {
  }

  lemma Recombine(q: nat, r: nat, t: nat, s: nat, size: nat)
    requires q == r * size + t
    ensures (r * size + t) * size + s == q * size + s
  {
  }

  lemma DivMod(i: nat, d: nat)
    requires d > 0
    ensures i == (i / d) * d + i % d && i % d < d
  {
  }

  lemma QuotientBelow(i: nat, d: nat, n: nat)
    requires d > 0 && i < n * d
    ensures i / d < n
  {
    if i / d >= n {
      MulMonotone(n, i / d, d);
    }
  }

  lemma CubeMonotone(a: nat, b: nat)
    requires a <= b
    ensures a * a * a <= b * b * b
  {
    MulMonotone(a, b, a);
    MulMonotone(a, b, b);
    MulMonotone(a * a, a * b, a);
    MulMonotone(a * b, b * b, a);
    MulMonotone(a, b, b * b);
  }

  lemma QuotientBelowOne(a: real, d: real)
    requires 0.0 <= a < d
    ensures 0.0 <= a / d < 1.0
  {
  }
}
