/** What `Octree::add` does to the slot of the new body's octant, arm by arm,
    and what it leaves alone. */
module OctreeAddCases {
  import opened Geometry
  import CM = CenterOfMass
  import opened Octree
  import opened OctreeInvariant

  /** The preconditions of `Add` for a body that resolves. */
  ghost predicate Addable(t: Octree, q: Query, e: Entity)
  {
    Placed(t, q) && e in q && Contains(t, q[e].pos) && Apart(t, q, q[e].pos)
  }

  /** An `Empty` slot becomes `Leaf(e)`; the cube and the other seven slots
      stay as they were. */
  lemma AddIntoEmpty(t: Octree, q: Query, e: Entity)
    requires Addable(t, q, e) && t.children[OctantIndex(t, q[e].pos)] == Empty
    ensures Add(t, q, e) == t.(children := t.children[OctantIndex(t, q[e].pos) := Leaf(e)])
    ensures Leaves(Add(t, q, e)) == Leaves(t) + multiset{e}
  {
    var i := OctantIndex(t, q[e].pos);
    Replace(t, q, i, Leaf(e), multiset{e});
  }

  /** A `Leaf(prior)` slot whose entity resolves becomes a branch: its COM is
      `COM::new` of the two bodies, its subtree is the half-size cube of the
      slot into which `prior` and then `e` are added, so both end up as
      leaves of it, possibly several levels down. The other slots stay. */
  lemma AddIntoLeaf(t: Octree, q: Query, e: Entity)
    requires Addable(t, q, e)
    requires t.children[OctantIndex(t, q[e].pos)].Leaf?
    requires t.children[OctantIndex(t, q[e].pos)].entity in q
    ensures var i, prior := OctantIndex(t, q[e].pos), t.children[OctantIndex(t, q[e].pos)].entity;
            var r := Add(t, q, e);
            && r.pos == t.pos && r.size == t.size
            && r.children == t.children[i := r.children[i]]
            && r.children[i].Branch?
            && r.children[i].com == CM.New(q[prior].pos, q[prior].mass, q[e].pos, q[e].mass)
            && t.size % 2 == 0
            && r.children[i].tree.pos == ChildOrigin(t, i) && r.children[i].tree.size == t.size / 2
            && Placed(r.children[i].tree, q)
            && Leaves(r.children[i].tree) == multiset{prior, e}
  {
    var i := OctantIndex(t, q[e].pos);
    var prior := t.children[i].entity;
    assert Fits(t, i, t.children[i], q);
    SlotInLeaves(t.children, i);
    RoomToSplit(t, q[prior].pos, q[e].pos);
    var n := Split(t, q, i, prior, e);
    assert Fits(t, i, n, q);
  }

  /** The `Leaf` arm, when the resident entity resolves, puts the branch
      `Split` builds in the slot. */
  lemma AddIntoLeafSplits(t: Octree, q: Query, e: Entity)
    requires Addable(t, q, e)
    requires t.children[OctantIndex(t, q[e].pos)].Leaf?
    requires t.children[OctantIndex(t, q[e].pos)].entity in q
    ensures var i, prior := OctantIndex(t, q[e].pos), t.children[OctantIndex(t, q[e].pos)].entity;
            Add(t, q, e) == t.(children := t.children[i := Split(t, q, i, prior, e)])
  {
  }

  /** The steps of `Split`: the half-size cube of the slot takes the
      resident body and then the new one, and the branch holds what results. */
  lemma SplitSteps(t: Octree, q: Query, idx: nat, prior: Entity, e: Entity)
    requires Placed(t, q) && idx < 8 && t.children[idx] == Leaf(prior)
    requires prior in q && e in q && Contains(t, q[e].pos) && OctantIndex(t, q[e].pos) == idx
    requires Apart(t, q, q[e].pos)
    ensures t.size % 2 == 0
    ensures var cube := New(ChildOrigin(t, idx), t.size / 2);
            && Placed(cube, q) && Contains(cube, q[prior].pos) && Apart(cube, q, q[prior].pos)
            && var sub1 := Add(cube, q, prior);
               && Placed(sub1, q) && Contains(sub1, q[e].pos) && Apart(sub1, q, q[e].pos)
               && Split(t, q, idx, prior, e)
                  == Branch(CM.New(q[prior].pos, q[prior].mass, q[e].pos, q[e].mass), Add(sub1, q, e))
  {
    var n := Split(t, q, idx, prior, e);
    var p := q[e].pos;
    assert Fits(t, idx, t.children[idx], q);
    SlotInLeaves(t.children, idx);
    RoomToSplit(t, q[prior].pos, p);
    var cube := New(ChildOrigin(t, idx), t.size / 2);
    ChildPartition(t, cube, idx, q[prior].pos);
    ChildPartition(t, cube, idx, p);
    var sub1 := Add(cube, q, prior);
    assert Leaves(sub1) == multiset{prior};
  }

  /** A `Leaf` slot whose entity no longer resolves is left alone, and the
      new body is dropped. */
  lemma AddIntoStaleLeaf(t: Octree, q: Query, e: Entity)
    requires Addable(t, q, e)
    requires t.children[OctantIndex(t, q[e].pos)].Leaf?
    requires t.children[OctantIndex(t, q[e].pos)].entity !in q
    ensures Add(t, q, e) == t
  {
  }

  /** A `Branch` slot folds the body into its COM (`COM::add`) and passes it
      on to its subtree; the other slots stay. */
  lemma AddIntoBranch(t: Octree, q: Query, e: Entity)
    requires Addable(t, q, e) && t.children[OctantIndex(t, q[e].pos)].Branch?
    ensures var i := OctantIndex(t, q[e].pos);
            var Branch(com, sub) := t.children[i];
            var r := Add(t, q, e);
            && Placed(sub, q) && Contains(sub, q[e].pos) && Apart(sub, q, q[e].pos)
            && r.children == t.children[i := Branch(CM.Add(com, q[e].pos, q[e].mass), Add(sub, q, e))]
            && r.children[i].com.mass == com.mass + q[e].mass
            && r.children[i].com.sum == Plus(com.sum, Scale(q[e].mass, q[e].pos))
  {
    BranchTakes(t, q, e);
  }

  /** The subtree of a `Branch` slot may take the body the tree may take:
      it is placed, it holds the body's position and no body there yet; it
      is the half-size cube of the slot. */
  lemma BranchTakes(t: Octree, q: Query, e: Entity)
    requires Addable(t, q, e) && t.children[OctantIndex(t, q[e].pos)].Branch?
    ensures var i := OctantIndex(t, q[e].pos);
            var sub := t.children[i].tree;
            && Placed(sub, q) && Contains(sub, q[e].pos) && Apart(sub, q, q[e].pos)
            && t.size >= 2 && sub.size == t.size / 2
  {
    var i := OctantIndex(t, q[e].pos);
    var sub := t.children[i].tree;
    assert Fits(t, i, t.children[i], q);
    SlotInLeaves(t.children, i);
    ChildPartition(t, sub, i, q[e].pos);
  }

  /** The `Branch` arm folds the body into the COM before the subtree has had
      its say. When the subtree drops the body (it lands on a leaf whose
      entity no longer resolves, further down), the tree's leaves do not
      change, yet the branch's COM has grown by the body's mass: a COM that
      matched the leaves beneath it no longer does. */
  lemma DroppedBodyStillCounted(t: Octree, q: Query, e: Entity)
    requires Addable(t, q, e) && t.children[OctantIndex(t, q[e].pos)].Branch?
    requires NodeExact(t.children[OctantIndex(t, q[e].pos)], q)
    requires Leaves(Add(t, q, e)) == Leaves(t) && q[e].mass != 0.0
    ensures !ComsExact(Add(t, q, e), q)
  {
    var i := OctantIndex(t, q[e].pos);
    var Branch(com, sub) := t.children[i];
    AddIntoBranch(t, q, e);
    var r := Add(t, q, e);
    var x := Leaves(t);
    SlotLeavesUpdate(t.children, i, r.children[i]);
    assert t.children[i := r.children[i]] == r.children;
    assert x + NodeLeaves(t.children[i]) == x + NodeLeaves(r.children[i]);
    CancelLeft(x, NodeLeaves(t.children[i]), NodeLeaves(r.children[i]));
    assert Leaves(r.children[i].tree) == Leaves(sub);
    assert !NodeExact(r.children[i], q);
  }
}
