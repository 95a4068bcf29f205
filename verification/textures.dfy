/** The per-texel formulas of noise/main.cpp: which noise samples each texture kind takes at
    a point of the unit cube, how they are combined into channel values, and the RGBA8
    texel that results. */
module Textures {
  import opened Primitives
  import opened Remapping
  import opened Channels
  import opened Lattice

  /** Cell-count multipliers of the Worley bands behind the base-shape Perlin-Worley value. */
  const FrequencyMul: seq<real> := [2.0, 8.0, 14.0, 20.0, 26.0, 32.0]

  /** Base cell counts of the base-shape and erosion Worley bands. */
  const ShapeCellCount: real := 4.0
  const ErosionCellCount: real := 2.0

  /** Perlin fBm parameters of the base-shape texture. */
  const ShapePerlinFrequency: real := 8.0
  const ShapeOctaveCount: int := 3

  /** One inverted Worley sample, `1 - worley(p, cellCount)`. */
  function InvertedWorley(n: Primitives, p: Point, cellCount: real): (w: real)
    requires WorleyInRange(n) && InUnitCube(p) && cellCount > 0.0
    ensures InUnit(w)
  {
    Invert(n.worley(p, cellCount))
  }

  /** The Worley fBm that floors the base-shape Perlin-Worley value: the three lowest bands
      of the `FrequencyMul` table. The source also samples the three higher bands but never
      uses them. */
  function ShapeWorleyFbm(n: Primitives, p: Point): (r: real)
    requires WorleyInRange(n) && InUnitCube(p)
    ensures InUnit(r)
  {
    Fbm3(InvertedWorley(n, p, ShapeCellCount * FrequencyMul[0]),
         InvertedWorley(n, p, ShapeCellCount * FrequencyMul[1]),
         InvertedWorley(n, p, ShapeCellCount * FrequencyMul[2]))
  }

  /** Channel values of one base-shape texel before quantisation. */
  datatype ShapeSample = ShapeSample(perlinWorley: real, fbm0: real, fbm1: real, fbm2: real)

  predicate ShapeSampleInUnit(x: ShapeSample) {
    InUnit(x.perlinWorley) && InUnit(x.fbm0) && InUnit(x.fbm1) && InUnit(x.fbm2)
  }

  /** The base-shape channels at `p`: Perlin-Worley, then three Worley fBm bands of
      decreasing frequency built from cell counts 4 * {2, 4, 8, 16}. The source also samples
      cell count 4 * 1 here and never uses it. */
  function ShapeSampleAt(n: Primitives, p: Point): (x: ShapeSample)
    requires MeetsContract(n) && InUnitCube(p)
    ensures ShapeSampleInUnit(x)
    ensures ShapeWorleyFbm(n, p) <= x.perlinWorley
  {
    var perlin := n.perlin(p, ShapePerlinFrequency, ShapeOctaveCount);
    var perlinWorley := PerlinWorley(perlin, ShapeWorleyFbm(n, p));
    var w1 := InvertedWorley(n, p, ShapeCellCount * 2.0);
    var w2 := InvertedWorley(n, p, ShapeCellCount * 4.0);
    var w3 := InvertedWorley(n, p, ShapeCellCount * 8.0);
    var w4 := InvertedWorley(n, p, ShapeCellCount * 16.0);
    ShapeSample(perlinWorley, Fbm3(w1, w2, w3), Fbm3(w2, w3, w4), Fbm2(w3, w4))
  }

  /** The packed base-shape value: Perlin-Worley remapped against the low-frequency fBm of
      the three bands. */
  function ShapePackedValue(x: ShapeSample): (v: real)
    requires ShapeSampleInUnit(x)
    ensures InUnit(v)
    ensures x.perlinWorley == 1.0 ==> v == 1.0
  {
    PackedDensity(x.perlinWorley, Fbm3(x.fbm0, x.fbm1, x.fbm2))
  }

  /** Channel values of one erosion texel before quantisation. */
  datatype ErosionSample = ErosionSample(fbm0: real, fbm1: real, fbm2: real)

  predicate ErosionSampleInUnit(x: ErosionSample) {
    InUnit(x.fbm0) && InUnit(x.fbm1) && InUnit(x.fbm2)
  }

  /** The erosion channels at `p`: three Worley fBm bands from cell counts 2 * {1, 2, 4, 8}. */
  function ErosionSampleAt(n: Primitives, p: Point): (x: ErosionSample)
    requires WorleyInRange(n) && InUnitCube(p)
    ensures ErosionSampleInUnit(x)
  {
    var w0 := InvertedWorley(n, p, ErosionCellCount * 1.0);
    var w1 := InvertedWorley(n, p, ErosionCellCount * 2.0);
    var w2 := InvertedWorley(n, p, ErosionCellCount * 4.0);
    var w3 := InvertedWorley(n, p, ErosionCellCount * 8.0);
    ErosionSample(Fbm3(w0, w1, w2), Fbm3(w1, w2, w3), Fbm2(w2, w3))
  }

  /** The packed erosion value: the three bands combined once more with the fBm weights. */
  function ErosionPackedValue(x: ErosionSample): (v: real)
    requires ErosionSampleInUnit(x)
    ensures InUnit(v)
  {
    Fbm3(x.fbm0, x.fbm1, x.fbm2)
  }

  /** The four volumes `generate_cloud_shape_textures` writes. */
  datatype VolumeKind = BaseShape | BaseShapePacked | Erosion | ErosionPacked {
    predicate Packed() {
      BaseShapePacked? || ErosionPacked?
    }

    /** Side length of the volume. */
    function Size(): nat {
      if BaseShape? || BaseShapePacked? then BaseShapeSize else ErosionSize
    }
  }

  /** The texel a volume of kind `kind` stores for point `p`. Packed volumes broadcast one
      value to R, G, B with opaque alpha; the erosion volume is opaque; the base-shape red
      channel never drops below the quantised Worley fBm that floors it. */
  function VolumeTexelAt(n: Primitives, kind: VolumeKind, p: Point): (t: Texel)
    requires MeetsContract(n) && InUnitCube(p)
    ensures kind.Packed() ==> IsPacked(t)
    ensures kind == Erosion ==> t.a == 255
    ensures kind == BaseShape ==> Quantise(ShapeWorleyFbm(n, p)) <= t.r
  {
    match kind
    case BaseShape =>
      var x := ShapeSampleAt(n, p);
      QuantiseMonotone(ShapeWorleyFbm(n, p), x.perlinWorley);
      Texel(Quantise(x.perlinWorley), Quantise(x.fbm0), Quantise(x.fbm1), Quantise(x.fbm2))
    case BaseShapePacked =>
      PackedTexel(ShapePackedValue(ShapeSampleAt(n, p)))
    case Erosion =>
      var x := ErosionSampleAt(n, p);
      Texel(Quantise(x.fbm0), Quantise(x.fbm1), Quantise(x.fbm2), Opaque())
    case ErosionPacked =>
      PackedTexel(ErosionPackedValue(ErosionSampleAt(n, p)))
  }

  /** The texel of lattice point (s, t, r) of a volume of side `size`. */
  function VolumeTexel(n: Primitives, kind: VolumeKind, size: nat, s: nat, t: nat, r: nat): (x: Texel)
    requires MeetsContract(n) && InGrid(size, s, t, r)
    ensures kind.Packed() ==> IsPacked(x)
    ensures kind == Erosion ==> x.a == 255
    ensures kind == BaseShape ==> Quantise(ShapeWorleyFbm(n, LatticePoint(size, s, t, r))) <= x.r
  {
    VolumeTexelAt(n, kind, LatticePoint(size, s, t, r))
  }

  /** With tile-able primitives every volume joins seamlessly: a point on a face of the
      unit cube gets the same texel as the matching point on the opposite face. */
  lemma VolumeTexelTiles(n: Primitives, kind: VolumeKind, p: Point)
    requires MeetsContract(n) && Tileable(n) && InUnitCube(p)
    ensures p.x == 0.0 ==> VolumeTexelAt(n, kind, p) == VolumeTexelAt(n, kind, p.(x := 1.0))
    ensures p.y == 0.0 ==> VolumeTexelAt(n, kind, p) == VolumeTexelAt(n, kind, p.(y := 1.0))
    ensures p.z == 0.0 ==> VolumeTexelAt(n, kind, p) == VolumeTexelAt(n, kind, p.(z := 1.0))
  {
    if p.x == 0.0 {
      SameSamplesSameTexel(n, kind, p, p.(x := 1.0));
    }
    if p.y == 0.0 {
      SameSamplesSameTexel(n, kind, p, p.(y := 1.0));
    }
    if p.z == 0.0 {
      SameSamplesSameTexel(n, kind, p, p.(z := 1.0));
    }
  }

  /** Points `p` and `q` at which both primitives agree for every whole positive cell count
      and frequency. */
  ghost predicate SameSamples(n: Primitives, p: Point, q: Point) {
    (forall c: real :: WholePositive(c) ==> n.worley(p, c) == n.worley(q, c)) &&
    (forall f: real, o: int :: WholePositive(f) && o >= 1 ==> n.perlin(p, f, o) == n.perlin(q, f, o))
  }

  /** Two points at which the primitives agree get the same texel in every volume. */
  lemma SameSamplesSameTexel(n: Primitives, kind: VolumeKind, p: Point, q: Point)
    requires MeetsContract(n) && InUnitCube(p) && InUnitCube(q) && SameSamples(n, p, q)
    ensures VolumeTexelAt(n, kind, p) == VolumeTexelAt(n, kind, q)
  {
    SameShapeSample(n, p, q);
    SameErosionSample(n, p, q);
  }

  /** The base-shape samples depend on `p` only through the primitives' values there. */
  lemma SameShapeSample(n: Primitives, p: Point, q: Point)
    requires MeetsContract(n) && InUnitCube(p) && InUnitCube(q) && SameSamples(n, p, q)
    ensures ShapeWorleyFbm(n, p) == ShapeWorleyFbm(n, q)
    ensures ShapeSampleAt(n, p) == ShapeSampleAt(n, q)
  {
    assert WholePositive(8.0) && WholePositive(16.0) && WholePositive(32.0);
    assert WholePositive(56.0) && WholePositive(64.0);
    assert n.perlin(p, 8.0, 3) == n.perlin(q, 8.0, 3);
    assert n.worley(p, 8.0) == n.worley(q, 8.0);
    assert n.worley(p, 16.0) == n.worley(q, 16.0);
    assert n.worley(p, 32.0) == n.worley(q, 32.0);
    assert n.worley(p, 56.0) == n.worley(q, 56.0);
    assert n.worley(p, 64.0) == n.worley(q, 64.0);
  }

  /** The erosion samples depend on `p` only through the Worley values there. */
  lemma SameErosionSample(n: Primitives, p: Point, q: Point)
    requires MeetsContract(n) && InUnitCube(p) && InUnitCube(q) && SameSamples(n, p, q)
    ensures ErosionSampleAt(n, p) == ErosionSampleAt(n, q)
  {
    assert WholePositive(2.0) && WholePositive(4.0) && WholePositive(8.0) && WholePositive(16.0);
    assert n.worley(p, 2.0) == n.worley(q, 2.0);
    assert n.worley(p, 4.0) == n.worley(q, 4.0);
    assert n.worley(p, 8.0) == n.worley(q, 8.0);
    assert n.worley(p, 16.0) == n.worley(q, 16.0);
  }

  /** The two 2D images of `generate_perlin_noise` and `generate_worley_noise`. */
  datatype ImageKind = PerlinImage | WorleyImage

  /** The texel a 2D image of kind `kind` stores for point `p`.
      Perlin image: R = clamp(1.25 * perlin(p, 8, 5)), G = Perlin-Worley of R over the
      inverted Worley fBm of cell counts 4 * {2, 4, 8}, B = clamp(1.5 * perlin(p, 4, 1)).
      Worley image: the fBm of the raw (not inverted) Worley samples of cell counts
      4 * {2, 4, 8}, broadcast to R, G, B. Both are opaque. */
  function ImageTexelAt(n: Primitives, kind: ImageKind, p: Point): (t: Texel)
    requires WorleyInRange(n) && InUnitCube(p)
    ensures t.a == 255
    ensures kind == WorleyImage ==> IsPacked(t)
    ensures kind == PerlinImage ==> t.r <= t.g
  {
    match kind
    case PerlinImage =>
      var red := Clamp(1.25 * n.perlin(p, 8.0, 5), 0.0, 1.0);
      var blue := Clamp(1.5 * n.perlin(p, 4.0, 1), 0.0, 1.0);
      var worleyFbm := Fbm3(InvertedWorley(n, p, 4.0 * 2.0),
                            InvertedWorley(n, p, 4.0 * 4.0),
                            InvertedWorley(n, p, 4.0 * 8.0));
      var green := PerlinWorley(red, worleyFbm);
      RemapAboveOwnInput(red, worleyFbm);
      QuantiseMonotone(red, green);
      Texel(Quantise(red), Quantise(green), Quantise(blue), Opaque())
    case WorleyImage =>
      PackedTexel(Fbm3(n.worley(p, 4.0 * 2.0), n.worley(p, 4.0 * 4.0), n.worley(p, 4.0 * 8.0)))
  }

  /** Perlin-Worley never lies below the Perlin value it remaps when both are in [0, 1]. */
  lemma RemapAboveOwnInput(perlin: real, worleyFbm: real)
    requires InUnit(perlin) && InUnit(worleyFbm)
    ensures perlin <= PerlinWorley(perlin, worleyFbm)
  {
    var r := PerlinWorley(perlin, worleyFbm);
    assert r == worleyFbm + perlin * (1.0 - worleyFbm);
    MulNonNeg(1.0 - perlin, worleyFbm);
  }

  /** The texel of pixel (s, t) of a 2D image of side `size`. */
  function ImageTexel(n: Primitives, kind: ImageKind, size: nat, s: nat, t: nat): (x: Texel)
    requires WorleyInRange(n) && s < size && t < size
    ensures x.a == 255
    ensures kind == WorleyImage ==> IsPacked(x)
  {
    ImageTexelAt(n, kind, LatticePoint2D(size, s, t))
  }
}
