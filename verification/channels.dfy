/** How noise/main.cpp turns noise samples into texel channels: inverted Worley samples,
    the fixed-weight Worley fBm bands, the Perlin-Worley remap, the packed density remap
    and the float-to-byte quantisation. All values are exact reals. */
module Channels {
  import opened Primitives
  import opened Remapping

  /** An unsigned 8-bit channel value. */
  type Byte = x: int | 0 <= x < 256

  /** Values `unsigned char(x)` is defined for: the conversion truncates toward zero and
      the truncated value must fit an unsigned char. */
  predicate Castable(x: real) {
    -1.0 < x < 256.0
  }

  /** `unsigned char(x)`: truncation toward zero of a castable real. */
  function CastToByte(x: real): (b: Byte)
    requires Castable(x)
    ensures 0.0 <= x ==> b as real <= x < b as real + 1.0
    ensures x < 1.0 ==> b == 0
  {
    if x < 0.0 then 0 else x.Floor
  }

  /** `unsigned char(255.0f * v)`: a channel value in [0, 1] scaled to a byte. */
  function Quantise(v: real): (b: Byte)
    requires Castable(255.0 * v)
    ensures 0.0 <= v ==> b as real <= 255.0 * v < b as real + 1.0
    ensures v <= 0.0 ==> b == 0
    ensures v == 1.0 ==> b == 255
  {
    CastToByte(255.0 * v)
  }

  /** The alpha byte of the source, `unsigned char(255.0f)`: fully opaque. */
  function Opaque(): (b: Byte)
    ensures b == 255
  {
    CastToByte(255.0)
  }

  /** Every value of [0, 1] can be quantised. */
  lemma UnitIsCastable(v: real)
    requires InUnit(v)
    ensures Castable(255.0 * v)
  {
  }

  /** Quantisation preserves order. */
  lemma QuantiseMonotone(v1: real, v2: real)
    requires InUnit(v1) && InUnit(v2) && v1 <= v2
    ensures Quantise(v1) <= Quantise(v2)
  {
  }

  /** One Worley sample as the generator uses it: `1 - worley(...)`, so that cells bulge
      rather than pit. */
  function Invert(w: real): (r: real)
    ensures InUnit(w) <==> InUnit(r)
  {
    1.0 - w
  }

  /** Inverting twice gives the sample back. */
  lemma InvertInvolution(w: real)
    ensures Invert(Invert(w)) == w
  {
  }

  /** Weights of the three-band Worley fBm. */
  const Fbm3Weights: seq<real> := [0.625, 0.25, 0.125]

  /** Weights of the two-band Worley fBm used for the lowest-frequency band. */
  const Fbm2Weights: seq<real> := [0.75, 0.25]

  function Min3(a: real, b: real, c: real): real {
    if a <= b && a <= c then a else if b <= c then b else c
  }

  function Max3(a: real, b: real, c: real): real {
    if a >= b && a >= c then a else if b >= c then b else c
  }

  /** `a * 0.625 + b * 0.25 + c * 0.125`: a convex combination, so it lies between its
      smallest and largest band and leaves a constant signal unchanged. */
  function Fbm3(a: real, b: real, c: real): (r: real)
    ensures Min3(a, b, c) <= r <= Max3(a, b, c)
    ensures a == b == c ==> r == a
    ensures InUnit(a) && InUnit(b) && InUnit(c) ==> InUnit(r)
  {
    a * 0.625 + b * 0.25 + c * 0.125
  }

  /** `a * 0.75 + b * 0.25`: a convex combination of two bands. */
  function Fbm2(a: real, b: real): (r: real)
    ensures (if a <= b then a else b) <= r <= (if a <= b then b else a)
    ensures a == b ==> r == a
    ensures InUnit(a) && InUnit(b) ==> InUnit(r)
  {
    a * 0.75 + b * 0.25
  }

  /** Sum of the products of weights and values, an independent reference definition of a
      weighted band combination. */
  function WeightedSum(ws: seq<real>, vs: seq<real>): real
    requires |ws| == |vs|
  {
    if |ws| == 0 then 0.0 else ws[0] * vs[0] + WeightedSum(ws[1..], vs[1..])
  }

  function Sum(ws: seq<real>): real {
    if |ws| == 0 then 0.0 else ws[0] + Sum(ws[1..])
  }

  /** The fBm weight tables are convex: non-negative and summing to one. */
  lemma WeightsAreConvex()
    ensures Sum(Fbm3Weights) == 1.0 && Sum(Fbm2Weights) == 1.0
    ensures forall i :: 0 <= i < |Fbm3Weights| ==> Fbm3Weights[i] >= 0.0
    ensures forall i :: 0 <= i < |Fbm2Weights| ==> Fbm2Weights[i] >= 0.0
  {
    assert Fbm3Weights[1..] == [0.25, 0.125];
    assert Fbm3Weights[1..][1..] == [0.125];
    assert Fbm2Weights[1..] == [0.25];
  }

  /** The band combinations are the weighted sums over their weight tables. */
  lemma FbmIsWeightedSum(a: real, b: real, c: real)
    ensures Fbm3(a, b, c) == WeightedSum(Fbm3Weights, [a, b, c])
    ensures Fbm2(a, b) == WeightedSum(Fbm2Weights, [a, b])
  {
    assert WeightedSum([0.125], [c]) == 0.125 * c + WeightedSum([], []);
    assert WeightedSum([0.25, 0.125], [b, c]) == 0.25 * b + WeightedSum([0.125], [c]);
    assert WeightedSum(Fbm3Weights, [a, b, c]) == 0.625 * a + WeightedSum([0.25, 0.125], [b, c]);
    assert WeightedSum([0.25], [b]) == 0.25 * b + WeightedSum([], []);
    assert WeightedSum(Fbm2Weights, [a, b]) == 0.75 * a + WeightedSum([0.25], [b]);
  }

  /** Non-negative weights applied to values of [0, 1] give a sum between 0 and the total
      weight; with convex weights the result is again in [0, 1]. */
  lemma {:induction false} WeightedSumInRange(ws: seq<real>, vs: seq<real>)
    requires |ws| == |vs|
    requires forall i :: 0 <= i < |ws| ==> ws[i] >= 0.0
    requires forall i :: 0 <= i < |vs| ==> InUnit(vs[i])
    ensures 0.0 <= WeightedSum(ws, vs) <= Sum(ws)
  {
    if |ws| > 0 {
      var w, v := ws[0], vs[0];
      assert forall i :: 0 <= i < |ws[1..]| ==> ws[1..][i] == ws[i + 1];
      assert forall i :: 0 <= i < |vs[1..]| ==> vs[1..][i] == vs[i + 1];
      WeightedSumInRange(ws[1..], vs[1..]);
      assert InUnit(v) && w >= 0.0;
      ScaleBelow(v, w);
      assert v * w == w * v;
      assert WeightedSum(ws, vs) == w * v + WeightedSum(ws[1..], vs[1..]);
      assert Sum(ws) == w + Sum(ws[1..]);
    }
  }

  /** Perlin-Worley: the Perlin sample remapped from [0, 1] onto [worley fBm, 1], so the
      Worley fBm is its floor. */
  function PerlinWorley(perlin: real, worleyFbm: real): (r: real)
    ensures InUnit(perlin) && worleyFbm <= 1.0 ==> worleyFbm <= r <= 1.0
    ensures InUnit(perlin) && InUnit(worleyFbm) ==> InUnit(r)
    ensures perlin == 0.0 ==> r == worleyFbm
    ensures perlin == 1.0 ==> r == 1.0
  {
    var r := Remap(perlin, 0.0, 1.0, worleyFbm, 1.0);
    assert InUnit(perlin) ==> worleyFbm <= r <= 1.0 || 1.0 <= r <= worleyFbm by {
      if InUnit(perlin) { RemapBetween(perlin, 0.0, 1.0, worleyFbm, 1.0); }
    }
    r
  }

  /** The packed base-shape density: the Perlin-Worley value remapped from
      [-(1 - low-frequency fBm), 1] onto [0, 1]. The divisor is 2 - lowFbm, so the source
      needs lowFbm != 2; for inputs of [0, 1] the divisor is at least 1 and the result stays
      in [0, 1]. */
  function PackedDensity(base: real, lowFbm: real): (r: real)
    requires lowFbm != 2.0
    ensures r * (2.0 - lowFbm) == base + 1.0 - lowFbm
    ensures InUnit(base) && InUnit(lowFbm) ==> 2.0 - lowFbm >= 1.0 && InUnit(r)
    ensures base == 1.0 ==> r == 1.0
  {
    var r := Remap(base, -(1.0 - lowFbm), 1.0, 0.0, 1.0);
    assert InUnit(base) && InUnit(lowFbm) ==> InUnit(r) by {
      if InUnit(base) && InUnit(lowFbm) { RemapBetween(base, -(1.0 - lowFbm), 1.0, 0.0, 1.0); }
    }
    r
  }

  /** `std::clamp(v, lo, hi)`; the source requires lo <= hi. */
  function Clamp(v: real, lo: real, hi: real): (r: real)
    requires lo <= hi
    ensures lo <= r <= hi
    ensures lo <= v <= hi ==> r == v
    ensures v < lo ==> r == lo
    ensures hi < v ==> r == hi
  {
    if v < lo then lo else if hi < v then hi else v
  }

  /** An RGBA8 texel. */
  datatype Texel = Texel(r: Byte, g: Byte, b: Byte, a: Byte)

  /** A packed texel: one value broadcast to R, G and B, alpha opaque. */
  predicate IsPacked(t: Texel) {
    t.r == t.g == t.b && t.a == 255
  }

  /** The packed texel of a value of [0, 1]. */
  function PackedTexel(v: real): (t: Texel)
    requires InUnit(v)
    ensures IsPacked(t)
    ensures t.r == Quantise(v)
  {
    var q := Quantise(v);
    Texel(q, q, q, Opaque())
  }
}
