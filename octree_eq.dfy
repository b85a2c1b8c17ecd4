/** The hand-written `PartialEq` of `Octree` and `COM` and the derived one of
    `OctNode`: two trees are equal when their cubes agree and their slots are
    pairwise equal, which on exact numbers is plain structural equality. */
module OctreeEq {
  import opened Geometry
  import CM = CenterOfMass
  import opened Octree

  /** `impl PartialEq for COM`: equal weighted sums and equal masses. */
  function ComEq(a: CM.Com, b: CM.Com): (r: bool)
    ensures r <==> a == b
  {
    a.sum == b.sum && a.mass == b.mass
  }

  /** The derived `PartialEq` of `OctNode`: the same variant with equal contents. */
  function NodeEq(a: OctNode, b: OctNode): (r: bool)
    ensures r <==> a == b
    decreases a
  {
    match (a, b)
    case (Empty, Empty) => true
    case (Leaf(x), Leaf(y)) => x == y
    case (Branch(c, s), Branch(d, u)) => ComEq(c, d) && TreeEq(s, u)
    case _ => false
  }

  /** `impl PartialEq for Octree`: the same cube and equal slots. */
  function TreeEq(a: Octree, b: Octree): (r: bool)
    ensures r <==> a == b
    decreases a, 1
  {
    a.pos == b.pos && a.size == b.size && SlotsEq(a.children, b.children)
  }

  /** Array equality of the slots: the same length and pairwise equal elements. */
  function SlotsEq(cs: seq<OctNode>, ds: seq<OctNode>): (r: bool)
    ensures r <==> cs == ds
    decreases cs
  {
    if cs == [] || ds == [] then cs == ds
    else
      assert cs == [cs[0]] + cs[1..] && ds == [ds[0]] + ds[1..];
      NodeEq(cs[0], ds[0]) && SlotsEq(cs[1..], ds[1..])
  }

  /** The `tree_eq` test, on the doubled lattice: two new cubes are equal; a
      cube whose slot 7 holds a branch over an empty unit cube differs from a
      new cube; two such cubes are equal. */
  lemma TreeEqTest()
    ensures TreeEq(New(Pos(-2, -2, -2), 4), New(Pos(-2, -2, -2), 4))
    ensures var t := New(Pos(-2, -2, -2), 4);
            var b := Branch(CM.Zero(), New(Pos(0, 0, 0), 2));
            && !TreeEq(t.(children := t.children[7 := b]), t)
            && TreeEq(t.(children := t.children[7 := b]), t.(children := t.children[7 := b]))
  {
    var t := New(Pos(-2, -2, -2), 4);
    var b := Branch(CM.Zero(), New(Pos(0, 0, 0), 2));
    assert t.children[7 := b][7] != t.children[7];
  }
}
