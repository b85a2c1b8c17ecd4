/** The centre-of-mass aggregate `COM` that every octree branch carries:
    the mass-weighted sum of the positions beneath it and their total mass. */
module CenterOfMass {
  import opened Geometry

  datatype Com = Com(sum: Vec3, mass: real)

  /** `COM::ZERO`: the aggregate of no bodies. It weighs nothing, and one body
      added to it gives exactly that body's aggregate. */
  function Zero(): (r: Com)
    ensures r.mass == 0.0
    ensures forall p, m :: Add(r, p, m) == Of(p, m)
  {
    Com(VZero, 0.0)
  }

  /** The aggregate of a single body of mass `m` at `p`. */
  function Of(p: Pos, m: real): Com {
    Com(Scale(m, p), m)
  }

  /** The aggregate of two disjoint groups of bodies. */
  function Merge(a: Com, b: Com): Com {
    Com(Plus(a.sum, b.sum), a.mass + b.mass)
  }

  /** `COM::add`: fold one more body of mass `m` at `p` into `c`. */
  function Add(c: Com, p: Pos, m: real): (r: Com)
    ensures r == Merge(c, Of(p, m))
    ensures r.mass - c.mass == m
  {
    Com(Plus(c.sum, Scale(m, p)), c.mass + m)
  }

  /** `COM::new`: the aggregate of two bodies, the same as adding both to `Zero`. */
  function New(p1: Pos, m1: real, p2: Pos, m2: real): (r: Com)
    ensures r == Add(Add(Zero(), p1, m1), p2, m2)
  {
    Com(Plus(Scale(m1, p1), Scale(m2, p2)), m1 + m2)
  }

  /** `COM::com`: the centre of mass and the total mass. The source divides
      by the mass; the model asks for a positive one. */
  function Centre(c: Com): (r: (Vec3, real))
    requires c.mass > 0.0
    ensures r.1 == c.mass
    ensures r.0.x * c.mass == c.sum.x && r.0.y * c.mass == c.sum.y && r.0.z * c.mass == c.sum.z
  {
    (Vec3(c.sum.x / c.mass, c.sum.y / c.mass, c.sum.z / c.mass), c.mass)
  }

  /** The two bodies given to `COM::new` may be given in either order. */
  lemma NewSymmetric(p1: Pos, m1: real, p2: Pos, m2: real)
    ensures New(p1, m1, p2, m2) == New(p2, m2, p1, m1)
  {
  }

  lemma MergeZero(a: Com)
    ensures Merge(a, Zero()) == a && Merge(Zero(), a) == a
  {
  }

  lemma MergeCommutes(a: Com, b: Com)
    ensures Merge(a, b) == Merge(b, a)
  {
  }

  lemma MergeAssociates(a: Com, b: Com, c: Com)
    ensures Merge(Merge(a, b), c) == Merge(a, Merge(b, c))
  {
  }

  /** The order in which bodies are folded into a COM does not matter. */
  lemma AddCommutes(c: Com, p1: Pos, m1: real, p2: Pos, m2: real)
    ensures Add(Add(c, p1, m1), p2, m2) == Add(Add(c, p2, m2), p1, m1)
  {
  }

  /** The centre of two bodies of equal positive mass is their midpoint. */
  lemma CentreOfEqualPair(p1: Pos, p2: Pos, m: real)
    requires m > 0.0
    ensures Centre(New(p1, m, p2, m)).0
         == Vec3((p1.x + p2.x) as real / 2.0, (p1.y + p2.y) as real / 2.0, (p1.z + p2.z) as real / 2.0)
  {
  }
}
