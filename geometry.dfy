/** Points and vectors used by the octree.

    Body positions live on an integer lattice: one lattice unit is the finest
    spacing the model resolves (the repository's tests place bodies on half
    units, so their coordinates are doubled here). Mass-weighted sums are
    real-valued vectors, because masses are arbitrary reals. */
module Geometry {

  /** A body position (the `translation` of a body's transform). */
  datatype Pos = Pos(x: int, y: int, z: int)

  /** A real vector: a mass-weighted position sum or a centre of mass. */
  datatype Vec3 = Vec3(x: real, y: real, z: real)

  const VZero := Vec3(0.0, 0.0, 0.0)

  function Plus(a: Vec3, b: Vec3): Vec3 {
    Vec3(a.x + b.x, a.y + b.y, a.z + b.z)
  }

  /** `m * p`, the contribution of a body of mass `m` at `p` to a weighted sum. */
  function Scale(m: real, p: Pos): Vec3 {
    Vec3(m * p.x as real, m * p.y as real, m * p.z as real)
  }
}
