/** The two noise primitives declared in noise/noise.hpp.

    Only their declarations and doc comments are part of this model, so `worley` and
    `perlin` are not given bodies here: a `Primitives` value bundles any pair of functions
    of the declared signatures, and the predicates below state the documented promises
    (values in [0, 1] for points of the unit cube, tile-ability). Everything built on top
    of them is proved relative to those predicates. */
module Primitives {

  /** A point of 3D space (glm::vec3 over exact reals). */
  datatype Point = Point(x: real, y: real, z: real)

  /** The closed unit interval [0, 1]. */
  predicate InUnit(v: real) {
    0.0 <= v <= 1.0
  }

  /** The closed unit cube [0, 1]^3, the documented domain of both primitives. */
  predicate InUnitCube(p: Point) {
    InUnit(p.x) && InUnit(p.y) && InUnit(p.z)
  }

  /** `worley(point, cell_count)` and `perlin(p, frequency, octave_count)`. */
  datatype Primitives = Primitives(
    worley: (Point, real) -> real,
    perlin: (Point, real, int) -> real
  )

  /** A cell count or frequency for which the primitives tile: a positive whole number. */
  predicate WholePositive(v: real) {
    v > 0.0 && v.Floor as real == v
  }

  /** Worley values lie in [0, 1] at every point of the unit cube, for any positive cell
      count. */
  ghost predicate WorleyInRange(n: Primitives) {
    forall p: Point, cellCount: real :: InUnitCube(p) && cellCount > 0.0 ==> InUnit(n.worley(p, cellCount))
  }

  /** Perlin values lie in [0, 1] at every point of the unit cube, for any positive
      frequency and at least one octave (with no octave the octave weights sum to zero). */
  ghost predicate PerlinInRange(n: Primitives) {
    forall p: Point, frequency: real, octaves: int :: InUnitCube(p) && frequency > 0.0 && octaves >= 1 ==>
      InUnit(n.perlin(p, frequency, octaves))
  }

  /** The range half of the documented contract of both primitives. */
  ghost predicate MeetsContract(n: Primitives) {
    WorleyInRange(n) && PerlinInRange(n)
  }

  /** Tile-ability over the unit cube: opposite faces carry the same values, so copies of
      the cube placed side by side join without a seam. The lattice a primitive samples has
      period one only when the cell count or frequency is a whole number, so that is where
      the promise applies. This is an assumption about the primitives, not something proved
      here. */
  ghost predicate Tileable(n: Primitives) {
    (forall p: Point, c: real :: InUnitCube(p) && WholePositive(c) && p.x == 0.0 ==>
      n.worley(p, c) == n.worley(p.(x := 1.0), c)) &&
    (forall p: Point, c: real :: InUnitCube(p) && WholePositive(c) && p.y == 0.0 ==>
      n.worley(p, c) == n.worley(p.(y := 1.0), c)) &&
    (forall p: Point, c: real :: InUnitCube(p) && WholePositive(c) && p.z == 0.0 ==>
      n.worley(p, c) == n.worley(p.(z := 1.0), c)) &&
    (forall p: Point, f: real, o: int :: InUnitCube(p) && WholePositive(f) && o >= 1 && p.x == 0.0 ==>
      n.perlin(p, f, o) == n.perlin(p.(x := 1.0), f, o)) &&
    (forall p: Point, f: real, o: int :: InUnitCube(p) && WholePositive(f) && o >= 1 && p.y == 0.0 ==>
      n.perlin(p, f, o) == n.perlin(p.(y := 1.0), f, o)) &&
    (forall p: Point, f: real, o: int :: InUnitCube(p) && WholePositive(f) && o >= 1 && p.z == 0.0 ==>
      n.perlin(p, f, o) == n.perlin(p.(z := 1.0), f, o))
  }

  /** The documented contract can be met: constant primitives meet it, so the requirements
      placed on callers below are not vacuous. */
  lemma ContractSatisfiable()
    ensures exists n: Primitives :: MeetsContract(n) && Tileable(n)
  {
    var n := Primitives((p: Point, c: real) => 0.5, (p: Point, f: real, o: int) => 0.5);
    assert MeetsContract(n) && Tileable(n);
  }
}
