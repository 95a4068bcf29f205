# Cloud noise-volume generator — Dafny model

This project models the CPU-side noise generator of *physically-based-cloud-rendering*
(`noise/main.cpp` and the primitive declarations in `noise/noise.hpp`). The generator
samples Worley and Perlin noise at every point of a cubic lattice and combines the samples
into "Perlin-Worley" density and Worley fBm bands. It quantises them into RGBA8 texels,
stores each texel at byte offset `(r·size² + t·size + s)·4` of a flat buffer, and hands
the buffer to an image writer as a `size²`×`size` atlas.

Everything is exact: reals stand for the source's 32-bit floats and `nat` for its `int`s.
The primitives `worley` and `perlin` are only declared in the source. Here they are the
two function-valued fields of a `Primitives` value. Their documented promises become the
predicates `MeetsContract` (results in [0, 1] on the unit cube) and `Tileable` (opposite
faces of the unit cube agree). Everything above them is proved relative to those
predicates.

Modules, following the program's structure:

- `Primitives` (`primitives.dfy`): points, the unit cube, the `worley`/`perlin` contract.
- `Remapping` (`remapping.dfy`): `remap` and its algebra.
- `Channels` (`channels.dfy`): inversion, the fixed-weight fBm bands, Perlin-Worley, the
  packed density, `std::clamp`, the float-to-byte cast, texels.
- `Lattice` (`lattice.dfy`): texel numbers and byte addresses, buffer size, the atlas, 32-bit
  fit, lattice coordinates.
- `Textures` (`textures.dfy`): the per-texel formulas of the four volumes and two 2D images.
- `Generator` (`generator.dfy`): the nested fill loops and the images handed to the writer.

Two facts about the code that the model keeps:

- The Perlin-Worley value is not clamped (`main.cpp:59`), and neither is the packed density
  (`main.cpp:91`). `Channels.PerlinWorley` and `Channels.PackedDensity` prove that both lie
  in [0, 1] anyway whenever their inputs do.
- Lattice point (s, t, r) is at byte offset `(r·size² + t·size + s)·4` of an image `size²`
  pixels wide, so it lies in row y = r, column x = t·size + s (`Lattice.AtlasPixel`). The
  renderer uploads the same bytes as a `size`³ 3D texture with x = s, y = t, z = r.

## Model

| member | source | states |
|---|---|---|
| `Remapping.Remap` | physically-based-cloud-rendering/noise/main.cpp:6-9 | the result sits the same fraction along [newMin, newMax] as `value` along [min, max] (cross-multiplied); `min` maps exactly to `newMin`, `max` exactly to `newMax`; remapping a range onto itself is the identity; requires `max != min` because the code divides by `max - min` |
| `Remapping.RemapInverse` | physically-based-cloud-rendering/noise/main.cpp:6-9 | remapping back from the new range onto the old one returns the original value |
| `Remapping.RemapBetween` | physically-based-cloud-rendering/noise/main.cpp:6-9 | a value inside an increasing old range lands inside the new range, whichever way the new range is oriented |
| `Remapping.RemapMonotone` | physically-based-cloud-rendering/noise/main.cpp:6-9 | remap between increasing ranges preserves order |
| `Primitives.ContractSatisfiable` | physically-based-cloud-rendering/noise/noise.hpp:5-11 | some pair of primitives meets both the range contract and tile-ability, so requiring them is not vacuous |
| `Channels.CastToByte` | physically-based-cloud-rendering/noise/main.cpp:81-84 | `unsigned char(x)` truncates toward zero: for x ≥ 0 the byte is the floor of x, values below 1 give 0; defined only when the truncation fits a byte |
| `Channels.Quantise` | physically-based-cloud-rendering/noise/main.cpp:81-84 | `unsigned char(255·v)` is the floor of 255·v for v ≥ 0, 0 for v ≤ 0, and 255 for v = 1 |
| `Channels.Opaque` | physically-based-cloud-rendering/noise/main.cpp:97 | `unsigned char(255.0f)` is 255 |
| `Channels.QuantiseMonotone` | physically-based-cloud-rendering/noise/main.cpp:81-84 | quantisation preserves order on [0, 1] |
| `Channels.Invert` | physically-based-cloud-rendering/noise/main.cpp:64-68 | `1 - w` is in [0, 1] exactly when w is |
| `Channels.InvertInvolution` | physically-based-cloud-rendering/noise/main.cpp:64-68 | inverting twice gives the sample back |
| `Channels.Fbm3` | physically-based-cloud-rendering/noise/main.cpp:71-72 | the 0.625/0.25/0.125 band mix lies between its smallest and largest input, leaves a constant input unchanged and keeps inputs of [0, 1] in [0, 1] |
| `Channels.Fbm2` | physically-based-cloud-rendering/noise/main.cpp:73 | the 0.75/0.25 band mix lies between its two inputs, leaves a constant unchanged and stays in [0, 1] |
| `Channels.WeightsAreConvex` | physically-based-cloud-rendering/noise/main.cpp:51 | both weight tables are non-negative and sum to exactly 1 |
| `Channels.FbmIsWeightedSum` | physically-based-cloud-rendering/noise/main.cpp:134-136 | the band mixes equal the weighted sums over their weight tables |
| `Channels.WeightedSumInRange` | physically-based-cloud-rendering/noise/main.cpp:134-136 | non-negative weights applied to values of [0, 1] give a sum between 0 and the total weight |
| `Channels.PerlinWorley` | physically-based-cloud-rendering/noise/main.cpp:59 | `remap(perlin, 0, 1, worley_fbm, 1)` lies in [worley_fbm, 1] and so in [0, 1]; perlin 0 gives exactly worley_fbm and perlin 1 gives exactly 1 |
| `Channels.PackedDensity` | physically-based-cloud-rendering/noise/main.cpp:89-91 | `remap(base, -(1 - low), 1, 0, 1)` times `2 - low` is `base + 1 - low`; for inputs of [0, 1] the divisor is at least 1 and the result is in [0, 1]; base 1 gives 1 |
| `Channels.Clamp` | physically-based-cloud-rendering/noise/main.cpp:192-193 | `std::clamp` returns a value in [lo, hi], the input itself when it is already there, and the nearer bound otherwise |
| `Channels.PackedTexel` | physically-based-cloud-rendering/noise/main.cpp:94-97 | a packed texel has R = G = B = the quantised value and A = 255 |
| `Lattice.VolumeBytes` | physically-based-cloud-rendering/noise/main.cpp:20-22 | row bytes × size × size is 4 bytes for each of the size³ texels |
| `Lattice.Index` | physically-based-cloud-rendering/noise/main.cpp:76-78 | the texel number of every lattice point is below size³ |
| `Lattice.Addr` | physically-based-cloud-rendering/noise/main.cpp:76-84 | `addr` is a multiple of 4 and `addr + 3` is below the volume's byte count, so all four channel stores are in bounds |
| `Lattice.IndexInjective` | physically-based-cloud-rendering/noise/main.cpp:76-80 | distinct lattice points get distinct texel numbers |
| `Lattice.IndexOnto` | physically-based-cloud-rendering/noise/main.cpp:76-80 | every texel number below size³ is the number of the lattice point `CellOf` names |
| `Lattice.CellOfIndex` | physically-based-cloud-rendering/noise/main.cpp:76-80 | `CellOf` inverts `Index` on the grid |
| `Lattice.IndexSlice` | physically-based-cloud-rendering/noise/main.cpp:76-78 | slice r holds exactly the texel numbers [r·size², (r+1)·size²) |
| `Lattice.IndexBelowSlices` | physically-based-cloud-rendering/noise/main.cpp:76-78 | a texel number is below depth·size² exactly when its r is below depth |
| `Lattice.Atlas` | physically-based-cloud-rendering/noise/main.cpp:103-105 | the atlas of width size² and height size with 4 channels has exactly the volume's byte count |
| `Lattice.AtlasPixel` | physically-based-cloud-rendering/noise/main.cpp:103-105 | lattice point (s, t, r) is atlas pixel (x = t·size + s, y = r), inside the image, at the texel number the loops write |
| `Lattice.VolumeBytesFitInt` | physically-based-cloud-rendering/noise/main.cpp:19-22 | the byte count fits the 32-bit `int` it is computed in exactly when size ≤ 812 |
| `Lattice.Index2D` | physically-based-cloud-rendering/noise/main.cpp:217-221 | the 2D texel number `t·size + s` is below size² |
| `Lattice.Index2DInjective` | physically-based-cloud-rendering/noise/main.cpp:286-290 | distinct pixels get distinct 2D texel numbers |
| `Lattice.Image2DFitsVolume` | physically-based-cloud-rendering/noise/main.cpp:174-177 | the size³·4 buffer the 2D routines allocate holds the size²·4 bytes they write and hand on |
| `Lattice.Coord` | physically-based-cloud-rendering/noise/main.cpp:28-33 | `s / size` lies in [0, 1) for 0 ≤ s < size |
| `Lattice.LatticePoint` | physically-based-cloud-rendering/noise/main.cpp:28-33 | every sampled point lies in the unit cube, so it meets the primitives' documented domain |
| `Lattice.LatticePoint2D` | physically-based-cloud-rendering/noise/main.cpp:183-187 | the 2D routines sample the z = 0 face of the unit cube |
| `Textures.InvertedWorley` | physically-based-cloud-rendering/noise/main.cpp:64-68 | `1 - worley(p, c)` is in [0, 1] on the unit cube |
| `Textures.ShapeWorleyFbm` | physically-based-cloud-rendering/noise/main.cpp:42-51 | the Worley fBm from cell counts 4·{2, 8, 14} is in [0, 1] |
| `Textures.ShapeSampleAt` | physically-based-cloud-rendering/noise/main.cpp:33-73 | all four base-shape channel values are in [0, 1] and Perlin-Worley is never below its Worley fBm |
| `Textures.ShapePackedValue` | physically-based-cloud-rendering/noise/main.cpp:86-92 | the packed base-shape value is in [0, 1] and is 1 where Perlin-Worley is 1 |
| `Textures.ErosionSampleAt` | physically-based-cloud-rendering/noise/main.cpp:126-136 | the three erosion fBm bands from cell counts 2·{1, 2, 4, 8} are in [0, 1] |
| `Textures.ErosionPackedValue` | physically-based-cloud-rendering/noise/main.cpp:147-150 | the packed erosion value is in [0, 1] |
| `Textures.VolumeTexelAt` | physically-based-cloud-rendering/noise/main.cpp:81-97 | packed volumes store R = G = B with A = 255; the erosion volume stores A = 255; the base-shape red byte is never below the quantised Worley fBm |
| `Textures.VolumeTexel` | physically-based-cloud-rendering/noise/main.cpp:139-154 | the same channel laws for every lattice point of a volume: packed volumes packed, erosion alpha 255, base-shape red at or above the quantised Worley fBm of that point |
| `Textures.SameSamplesSameTexel` | physically-based-cloud-rendering/noise/main.cpp:36-154 | a volume texel depends on its point only through the primitives' values there: two points where `worley` and `perlin` agree get the same texel |
| `Textures.VolumeTexelTiles` | physically-based-cloud-rendering/noise/noise.hpp:5-11 | with tile-able primitives a point on a face of the cube gets the same texel as the matching point on the opposite face |
| `Textures.ImageTexelAt` | physically-based-cloud-rendering/noise/main.cpp:187-225 | both 2D images are opaque; the Worley image stores R = G = B; in the Perlin image G is never below R |
| `Textures.RemapAboveOwnInput` | physically-based-cloud-rendering/noise/main.cpp:213 | the Perlin-Worley value is never below the Perlin value it remaps |
| `Textures.ImageTexel` | physically-based-cloud-rendering/noise/main.cpp:286-294 | every pixel of a 2D image is opaque, and packed in the Worley image |
| `Generator.JobTexel` | physically-based-cloud-rendering/noise/main.cpp:142-154 | the packed and opaque laws for whichever buffer is being filled |
| `Generator.WriteTexel` | physically-based-cloud-rendering/noise/main.cpp:81-84 | the four channel stores set exactly texel i and leave every other texel unchanged |
| `Generator.WriteStep` | physically-based-cloud-rendering/noise/main.cpp:26-84 | one innermost iteration extends "every visited point written once with its texel, nothing else written" to the next point |
| `Generator.Fill` | physically-based-cloud-rendering/noise/main.cpp:19-100 | the buffer has the allocated size; after the loops each texel of the visited slices has been written exactly once with its own texel and no other texel has been written |
| `Generator.Emit` | physically-based-cloud-rendering/noise/main.cpp:102-107 | the image handed on is width × height × 4 bytes (size²×size for volumes, size×size for 2D images); every pixel it contains was written, holds its lattice point's texel, and obeys the packed and opaque laws |
| `Generator.GenerateCloudShapeTextures` | physically-based-cloud-rendering/noise/main.cpp:11-170 | four images with the source's file names: 128²×128 and 32²×32 atlases of 128³·4 and 32³·4 bytes, packed images packed everywhere, erosion alpha 255 everywhere, all four images holding each lattice point's texel of their kind |
| `Generator.GeneratePerlinNoise` | physically-based-cloud-rendering/noise/main.cpp:172-239 | one opaque 512×512 image whose pixel (s, t) is the Perlin-image texel of that pixel |
| `Generator.GenerateWorleyNoise` | physically-based-cloud-rendering/noise/main.cpp:241-309 | one 512×512 image, packed everywhere, whose pixel (s, t) is the Worley-image texel of that pixel |
| `Generator.RunTool` | physically-based-cloud-rendering/noise/main.cpp:312-321 | the entry point as shipped writes only `worley_fbm.tga`: 512×512, packed everywhere, pixel (s, t) holding the Worley-image texel of that pixel |

## Left out

- `worley` and `perlin` bodies: not part of this model. They are abstract parameters
  constrained by their doc comments (`noise/noise.hpp:5-11`). This also leaves out the
  hash, the value noise and the octave-weight recurrence that sit beneath them.
- Tile-ability (`Primitives.Tileable`, used by `Textures.VolumeTexelTiles`): assumed from
  the doc comments, not proved. It is stated as agreement of opposite faces of the unit
  cube, for whole positive cell counts and frequencies and at least one octave; the range
  promise is assumed for positive cell counts and frequencies and at least one octave.
- IEEE float rounding: all arithmetic is over exact reals. The source computes in 32-bit
  floats, so a value slightly outside [0, 1] after rounding, and its byte, is outside the model.
- Channels.Quantise: requires its argument to be castable, because the C++ cast is
  undefined outside (-1, 256); the model says nothing about such inputs.
- Remapping.Remap: requires `max != min`. The float code would produce an infinity or NaN
  there, and exact reals have no such value.
- Lattice.VolumeBytes: unbounded `nat`; 32-bit overflow is characterised separately by
  `Lattice.VolumeBytesFitInt` (sizes 32, 128 and 512 all fit).
- The source fills the plain and the packed buffer in the same loop at the same address.
  The model fills them in two runs of `Generator.Fill`. Each texel depends only on its
  lattice point, so the contents are the same.
- Noise samples the source computes but never uses are not computed, since the primitives
  have no side effects: cell counts 4·{20, 26, 32} and 4·1 in the base-shape loop
  (`main.cpp:46-48`, `main.cpp:64`); cell counts 4·16 and 4·32 in both 2D routines
  (`main.cpp:201-202`, `main.cpp:270-271`); the Perlin and Perlin-Worley values in
  `generate_worley_noise`.
- `malloc`/`free`: the buffer is a sequence. Its initial contents do not matter because
  every byte handed to the writer is written. The packed buffers the 2D routines allocate
  and never use are omitted.
- `stbi_write_tga` and `stbi_flip_vertically_on_write(1)`: file I/O. The model returns the
  file name, dimensions and bytes that would be written; the vertical flip is applied by
  the writer and is not modelled.
