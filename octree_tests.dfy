/** The repository's depth tests, on the doubled lattice: every coordinate
    and size is twice the one the test writes, so the half units become whole
    ones; masses stay as written. Entities are any distinct handles. Each test
    adds its bodies to an empty cube in the order they were spawned and
    compares the result with the expected tree. */
module OctreeTests {
  import opened Geometry
  import CM = CenterOfMass
  import opened Octree
  import opened OctreeAddCases

  const Origin := Pos(0, 0, 0)

  /** The lookup of `depth_1`: unit masses half a unit along x, y and z. */
  predicate Depth1Bodies(q: Query, a: Entity, b: Entity, c: Entity)
  {
    && a in q && b in q && c in q
    && q[a] == Body(Pos(1, 0, 0), 1.0) && q[b] == Body(Pos(0, 1, 0), 1.0) && q[c] == Body(Pos(0, 0, 1), 1.0)
  }

  /** `depth_1`: the three bodies land in slots 1, 2 and 4 of the unit cube. */
  lemma Depth1(q: Query, a: Entity, b: Entity, c: Entity)
    requires Depth1Bodies(q, a, b, c)
    ensures var t1 := Octree(Origin, 2, [Empty, Leaf(a), Empty, Empty, Empty, Empty, Empty, Empty]);
            var t2 := Octree(Origin, 2, [Empty, Leaf(a), Leaf(b), Empty, Empty, Empty, Empty, Empty]);
            && Add(New(Origin, 2), q, a) == t1
            && Placed(t1, q) && Apart(t1, q, q[b].pos) && Add(t1, q, b) == t2
            && Placed(t2, q) && Apart(t2, q, q[c].pos)
            && Add(t2, q, c) == Octree(Origin, 2, [Empty, Leaf(a), Leaf(b), Empty, Leaf(c), Empty, Empty, Empty])
  {
    Depth1First(q, a, b, c);
    Depth1Second(q, a, b, c);
    Depth1Third(q, a, b, c);
  }

  lemma Depth1First(q: Query, a: Entity, b: Entity, c: Entity)
    requires Depth1Bodies(q, a, b, c)
    ensures Add(New(Origin, 2), q, a) == Octree(Origin, 2, [Empty, Leaf(a), Empty, Empty, Empty, Empty, Empty, Empty])
  {
    AddIntoEmpty(New(Origin, 2), q, a);
  }

  lemma Depth1Second(q: Query, a: Entity, b: Entity, c: Entity)
    requires Depth1Bodies(q, a, b, c)
    ensures var t1 := Octree(Origin, 2, [Empty, Leaf(a), Empty, Empty, Empty, Empty, Empty, Empty]);
            && Placed(t1, q) && Apart(t1, q, q[b].pos)
            && Add(t1, q, b) == Octree(Origin, 2, [Empty, Leaf(a), Leaf(b), Empty, Empty, Empty, Empty, Empty])
  {
    var t1 := Octree(Origin, 2, [Empty, Leaf(a), Empty, Empty, Empty, Empty, Empty, Empty]);
    LeavesOfEight(t1);
    AddIntoEmpty(t1, q, b);
  }

  lemma Depth1Third(q: Query, a: Entity, b: Entity, c: Entity)
    requires Depth1Bodies(q, a, b, c)
    ensures var t2 := Octree(Origin, 2, [Empty, Leaf(a), Leaf(b), Empty, Empty, Empty, Empty, Empty]);
            && Placed(t2, q) && Apart(t2, q, q[c].pos)
            && Add(t2, q, c) == Octree(Origin, 2, [Empty, Leaf(a), Leaf(b), Empty, Leaf(c), Empty, Empty, Empty])
  {
    var t2 := Octree(Origin, 2, [Empty, Leaf(a), Leaf(b), Empty, Empty, Empty, Empty, Empty]);
    Depth1ThirdReady(q, a, b, c, t2);
    AddIntoEmpty(t2, q, c);
  }

  lemma Depth1ThirdReady(q: Query, a: Entity, b: Entity, c: Entity, t2: Octree)
    requires Depth1Bodies(q, a, b, c)
    requires t2 == Octree(Origin, 2, [Empty, Leaf(a), Leaf(b), Empty, Empty, Empty, Empty, Empty])
    ensures Placed(t2, q) && Apart(t2, q, q[c].pos)
  {
    LeavesOfEight(t2);
  }

  /** The lookup of `depth_2`: unit masses at (0, 1, 0) and (0.5, 1, 0). */
  predicate Depth2Bodies(q: Query, a: Entity, b: Entity)
  {
    && a in q && b in q
    && q[a] == Body(Pos(0, 2, 0), 1.0) && q[b] == Body(Pos(1, 2, 0), 1.0)
  }

  /** `depth_2`: both bodies fall in slot 2 of the cube of size 2; the second
      turns the first one's leaf into a branch whose COM has weighted sum
      (0.5, 2, 0) (doubled here) and mass 2, over the unit cube at (0, 1, 0)
      that holds them in its slots 0 and 1. */
  lemma Depth2(q: Query, a: Entity, b: Entity)
    requires Depth2Bodies(q, a, b)
    ensures var t1 := Octree(Origin, 4, [Empty, Empty, Leaf(a), Empty, Empty, Empty, Empty, Empty]);
            var s2 := Octree(Pos(0, 2, 0), 2, [Leaf(a), Leaf(b), Empty, Empty, Empty, Empty, Empty, Empty]);
            && Add(New(Origin, 4), q, a) == t1
            && Placed(t1, q) && Apart(t1, q, q[b].pos)
            && Add(t1, q, b)
               == Octree(Origin, 4, [Empty, Empty, Branch(CM.Com(Vec3(1.0, 4.0, 0.0), 2.0), s2),
                                     Empty, Empty, Empty, Empty, Empty])
  {
    Depth2First(q, a, b);
    Depth2Second(q, a, b);
  }

  lemma Depth2First(q: Query, a: Entity, b: Entity)
    requires Depth2Bodies(q, a, b)
    ensures Add(New(Origin, 4), q, a) == Octree(Origin, 4, [Empty, Empty, Leaf(a), Empty, Empty, Empty, Empty, Empty])
  {
    AddIntoEmpty(New(Origin, 4), q, a);
  }

  /** The half-size cube the second body of `depth_2` splits slot 2 into. */
  lemma Depth2Sub(q: Query, a: Entity, b: Entity)
    requires Depth2Bodies(q, a, b)
    ensures var s1 := Octree(Pos(0, 2, 0), 2, [Leaf(a), Empty, Empty, Empty, Empty, Empty, Empty, Empty]);
            && Add(New(Pos(0, 2, 0), 2), q, a) == s1
            && Placed(s1, q) && Apart(s1, q, q[b].pos)
            && Add(s1, q, b) == Octree(Pos(0, 2, 0), 2, [Leaf(a), Leaf(b), Empty, Empty, Empty, Empty, Empty, Empty])
  {
    Depth2SubFirst(q, a, b);
    Depth2SubSecond(q, a, b);
  }

  lemma Depth2SubFirst(q: Query, a: Entity, b: Entity)
    requires Depth2Bodies(q, a, b)
    ensures Add(New(Pos(0, 2, 0), 2), q, a) == Octree(Pos(0, 2, 0), 2, [Leaf(a), Empty, Empty, Empty, Empty, Empty, Empty, Empty])
  {
    AddIntoEmpty(New(Pos(0, 2, 0), 2), q, a);
  }

  lemma Depth2SubSecond(q: Query, a: Entity, b: Entity)
    requires Depth2Bodies(q, a, b)
    ensures var s1 := Octree(Pos(0, 2, 0), 2, [Leaf(a), Empty, Empty, Empty, Empty, Empty, Empty, Empty]);
            && Placed(s1, q) && Apart(s1, q, q[b].pos)
            && Add(s1, q, b) == Octree(Pos(0, 2, 0), 2, [Leaf(a), Leaf(b), Empty, Empty, Empty, Empty, Empty, Empty])
  {
    var s1 := Octree(Pos(0, 2, 0), 2, [Leaf(a), Empty, Empty, Empty, Empty, Empty, Empty, Empty]);
    Depth2SubReady(q, a, b, s1);
    AddIntoEmpty(s1, q, b);
  }

  lemma Depth2SubReady(q: Query, a: Entity, b: Entity, s1: Octree)
    requires Depth2Bodies(q, a, b)
    requires s1 == Octree(Pos(0, 2, 0), 2, [Leaf(a), Empty, Empty, Empty, Empty, Empty, Empty, Empty])
    ensures Placed(s1, q) && Apart(s1, q, q[b].pos)
  {
    LeavesOfEight(s1);
  }

  lemma Depth2Second(q: Query, a: Entity, b: Entity)
    requires Depth2Bodies(q, a, b)
    ensures var t1 := Octree(Origin, 4, [Empty, Empty, Leaf(a), Empty, Empty, Empty, Empty, Empty]);
            var s2 := Octree(Pos(0, 2, 0), 2, [Leaf(a), Leaf(b), Empty, Empty, Empty, Empty, Empty, Empty]);
            && Placed(t1, q) && Apart(t1, q, q[b].pos)
            && Add(t1, q, b)
               == Octree(Origin, 4, [Empty, Empty, Branch(CM.Com(Vec3(1.0, 4.0, 0.0), 2.0), s2),
                                     Empty, Empty, Empty, Empty, Empty])
  {
    var t1 := Octree(Origin, 4, [Empty, Empty, Leaf(a), Empty, Empty, Empty, Empty, Empty]);
    Depth2SecondReady(q, a, b, t1);
    var n := Split(t1, q, 2, a, b);
    Depth2Branch(q, a, b, t1);
    Depth2Slot(t1, a, n);
    Depth2Splits(q, a, b, t1);
  }

  lemma Depth2Splits(q: Query, a: Entity, b: Entity, t1: Octree)
    requires Depth2Bodies(q, a, b)
    requires t1 == Octree(Origin, 4, [Empty, Empty, Leaf(a), Empty, Empty, Empty, Empty, Empty])
    requires Placed(t1, q) && Apart(t1, q, q[b].pos)
    requires Contains(t1, q[b].pos) && OctantIndex(t1, q[b].pos) == 2
    ensures t1.(children := t1.children[2 := Split(t1, q, 2, a, b)]) == Add(t1, q, b)
  {
    AddIntoLeafSplits(t1, q, b);
  }

  lemma Depth2Branch(q: Query, a: Entity, b: Entity, t1: Octree)
    requires Depth2Bodies(q, a, b)
    requires t1 == Octree(Origin, 4, [Empty, Empty, Leaf(a), Empty, Empty, Empty, Empty, Empty])
    requires Placed(t1, q) && Apart(t1, q, q[b].pos)
    requires Contains(t1, q[b].pos) && OctantIndex(t1, q[b].pos) == 2
    ensures Split(t1, q, 2, a, b)
            == Branch(CM.Com(Vec3(1.0, 4.0, 0.0), 2.0),
                      Octree(Pos(0, 2, 0), 2, [Leaf(a), Leaf(b), Empty, Empty, Empty, Empty, Empty, Empty]))
  {
    var n := Split(t1, q, 2, a, b);
    Depth2Split(q, a, b, n);
    Depth2Sub(q, a, b);
    Depth2SplitTree(q, a, b, t1);
  }

  lemma Depth2Slot(t1: Octree, a: Entity, n: OctNode)
    requires t1 == Octree(Origin, 4, [Empty, Empty, Leaf(a), Empty, Empty, Empty, Empty, Empty])
    ensures t1.(children := t1.children[2 := n]) == Octree(Origin, 4, [Empty, Empty, n, Empty, Empty, Empty, Empty, Empty])
  {
  }

  lemma Depth2SecondReady(q: Query, a: Entity, b: Entity, t1: Octree)
    requires Depth2Bodies(q, a, b)
    requires t1 == Octree(Origin, 4, [Empty, Empty, Leaf(a), Empty, Empty, Empty, Empty, Empty])
    ensures Placed(t1, q) && Apart(t1, q, q[b].pos)
    ensures Contains(t1, q[b].pos) && OctantIndex(t1, q[b].pos) == 2
  {
    LeavesOfEight(t1);
  }

  /** The branch the second body of `depth_2` turns slot 2 into. */
  lemma Depth2Split(q: Query, a: Entity, b: Entity, n: OctNode)
    requires Depth2Bodies(q, a, b)
    requires n.Branch? && n.com == CM.New(q[a].pos, q[a].mass, q[b].pos, q[b].mass)
    ensures n == Branch(CM.Com(Vec3(1.0, 4.0, 0.0), 2.0), n.tree)
  {
    Depth2Com();
  }

  lemma Depth2SplitTree(q: Query, a: Entity, b: Entity, t1: Octree)
    requires Depth2Bodies(q, a, b)
    requires var s1 := Octree(Pos(0, 2, 0), 2, [Leaf(a), Empty, Empty, Empty, Empty, Empty, Empty, Empty]);
             && Add(New(Pos(0, 2, 0), 2), q, a) == s1
             && Placed(s1, q) && Apart(s1, q, q[b].pos)
             && Add(s1, q, b) == Octree(Pos(0, 2, 0), 2, [Leaf(a), Leaf(b), Empty, Empty, Empty, Empty, Empty, Empty])
    requires t1 == Octree(Origin, 4, [Empty, Empty, Leaf(a), Empty, Empty, Empty, Empty, Empty])
    requires Placed(t1, q) && Apart(t1, q, q[b].pos)
    requires Contains(t1, q[b].pos) && OctantIndex(t1, q[b].pos) == 2
    ensures Split(t1, q, 2, a, b).tree
            == Octree(Pos(0, 2, 0), 2, [Leaf(a), Leaf(b), Empty, Empty, Empty, Empty, Empty, Empty])
  {
    var cube := New(ChildOrigin(t1, 2), t1.size / 2);
    assert cube == New(Pos(0, 2, 0), 2);
  }

  /** `COM::new` of the two unit masses of `depth_2`. */
  lemma Depth2Com()
    ensures CM.New(Pos(0, 2, 0), 1.0, Pos(1, 2, 0), 1.0) == CM.Com(Vec3(1.0, 4.0, 0.0), 2.0)
  {
    assert Scale(1.0, Pos(0, 2, 0)) == Vec3(0.0, 2.0, 0.0);
    assert Scale(1.0, Pos(1, 2, 0)) == Vec3(1.0, 2.0, 0.0);
  }

  /** The lookup of `depth_3`: unit masses at (0, 1, 1) and (0.5, 1, 1). */
  predicate Depth3Bodies(q: Query, a: Entity, b: Entity)
  {
    && a in q && b in q
    && q[a] == Body(Pos(0, 2, 2), 1.0) && q[b] == Body(Pos(1, 2, 2), 1.0)
  }

  /** `depth_3`: both bodies fall in slot 0 of the cube of size 4, then in
      slot 6 of its half, then in slots 0 and 1 of the unit cube at (0, 1, 1):
      the second body splits the first one's leaf twice, and both branches
      carry the COM with weighted sum (0.5, 2, 2) (doubled here) and mass 2. */
  lemma Depth3(q: Query, a: Entity, b: Entity)
    requires Depth3Bodies(q, a, b)
    ensures var t1 := Octree(Origin, 8, [Leaf(a), Empty, Empty, Empty, Empty, Empty, Empty, Empty]);
            var d2 := Octree(Pos(0, 2, 2), 2, [Leaf(a), Leaf(b), Empty, Empty, Empty, Empty, Empty, Empty]);
            var c2 := Octree(Origin, 4, [Empty, Empty, Empty, Empty, Empty, Empty,
                                         Branch(CM.Com(Vec3(1.0, 4.0, 4.0), 2.0), d2), Empty]);
            && Add(New(Origin, 8), q, a) == t1
            && Placed(t1, q) && Apart(t1, q, q[b].pos)
            && Add(t1, q, b)
               == Octree(Origin, 8, [Branch(CM.Com(Vec3(1.0, 4.0, 4.0), 2.0), c2),
                                     Empty, Empty, Empty, Empty, Empty, Empty, Empty])
  {
    Depth3First(q, a, b);
    Depth3Second(q, a, b);
  }

  lemma Depth3First(q: Query, a: Entity, b: Entity)
    requires Depth3Bodies(q, a, b)
    ensures Add(New(Origin, 8), q, a) == Octree(Origin, 8, [Leaf(a), Empty, Empty, Empty, Empty, Empty, Empty, Empty])
  {
    AddIntoEmpty(New(Origin, 8), q, a);
  }

  /** `COM::new` of the two unit masses of `depth_3`. */
  lemma Depth3Com()
    ensures CM.New(Pos(0, 2, 2), 1.0, Pos(1, 2, 2), 1.0) == CM.Com(Vec3(1.0, 4.0, 4.0), 2.0)
  {
    assert Scale(1.0, Pos(0, 2, 2)) == Vec3(0.0, 2.0, 2.0);
    assert Scale(1.0, Pos(1, 2, 2)) == Vec3(1.0, 2.0, 2.0);
  }

  /** A branch `Split` builds from the two bodies of `depth_3`. */
  lemma Depth3Split(q: Query, a: Entity, b: Entity, n: OctNode)
    requires Depth3Bodies(q, a, b)
    requires n.Branch? && n.com == CM.New(q[a].pos, q[a].mass, q[b].pos, q[b].mass)
    ensures n == Branch(CM.Com(Vec3(1.0, 4.0, 4.0), 2.0), n.tree)
  {
    Depth3Com();
  }

  // The unit cube at (0, 1, 1), where the bodies finally part.

  lemma Depth3Inner(q: Query, a: Entity, b: Entity)
    requires Depth3Bodies(q, a, b)
    ensures var d1 := Octree(Pos(0, 2, 2), 2, [Leaf(a), Empty, Empty, Empty, Empty, Empty, Empty, Empty]);
            && Add(New(Pos(0, 2, 2), 2), q, a) == d1
            && Placed(d1, q) && Apart(d1, q, q[b].pos)
            && Add(d1, q, b) == Octree(Pos(0, 2, 2), 2, [Leaf(a), Leaf(b), Empty, Empty, Empty, Empty, Empty, Empty])
  {
    Depth3InnerFirst(q, a, b);
    Depth3InnerSecond(q, a, b);
  }

  lemma Depth3InnerFirst(q: Query, a: Entity, b: Entity)
    requires Depth3Bodies(q, a, b)
    ensures Add(New(Pos(0, 2, 2), 2), q, a) == Octree(Pos(0, 2, 2), 2, [Leaf(a), Empty, Empty, Empty, Empty, Empty, Empty, Empty])
  {
    AddIntoEmpty(New(Pos(0, 2, 2), 2), q, a);
  }

  lemma Depth3InnerSecond(q: Query, a: Entity, b: Entity)
    requires Depth3Bodies(q, a, b)
    ensures var d1 := Octree(Pos(0, 2, 2), 2, [Leaf(a), Empty, Empty, Empty, Empty, Empty, Empty, Empty]);
            && Placed(d1, q) && Apart(d1, q, q[b].pos)
            && Add(d1, q, b) == Octree(Pos(0, 2, 2), 2, [Leaf(a), Leaf(b), Empty, Empty, Empty, Empty, Empty, Empty])
  {
    var d1 := Octree(Pos(0, 2, 2), 2, [Leaf(a), Empty, Empty, Empty, Empty, Empty, Empty, Empty]);
    Depth3InnerReady(q, a, b, d1);
    AddIntoEmpty(d1, q, b);
  }

  lemma Depth3InnerReady(q: Query, a: Entity, b: Entity, d1: Octree)
    requires Depth3Bodies(q, a, b)
    requires d1 == Octree(Pos(0, 2, 2), 2, [Leaf(a), Empty, Empty, Empty, Empty, Empty, Empty, Empty])
    ensures Placed(d1, q) && Apart(d1, q, q[b].pos)
  {
    LeavesOfEight(d1);
  }

  // The cube of size 2 at the origin: slot 6 is split.

  lemma Depth3Mid(q: Query, a: Entity, b: Entity)
    requires Depth3Bodies(q, a, b)
    ensures var c1 := Octree(Origin, 4, [Empty, Empty, Empty, Empty, Empty, Empty, Leaf(a), Empty]);
            var d2 := Octree(Pos(0, 2, 2), 2, [Leaf(a), Leaf(b), Empty, Empty, Empty, Empty, Empty, Empty]);
            && Add(New(Origin, 4), q, a) == c1
            && Placed(c1, q) && Apart(c1, q, q[b].pos)
            && Add(c1, q, b)
               == Octree(Origin, 4, [Empty, Empty, Empty, Empty, Empty, Empty,
                                     Branch(CM.Com(Vec3(1.0, 4.0, 4.0), 2.0), d2), Empty])
  {
    Depth3MidFirst(q, a, b);
    Depth3MidSecond(q, a, b);
  }

  lemma Depth3MidFirst(q: Query, a: Entity, b: Entity)
    requires Depth3Bodies(q, a, b)
    ensures Add(New(Origin, 4), q, a) == Octree(Origin, 4, [Empty, Empty, Empty, Empty, Empty, Empty, Leaf(a), Empty])
  {
    AddIntoEmpty(New(Origin, 4), q, a);
  }

  lemma Depth3MidSecond(q: Query, a: Entity, b: Entity)
    requires Depth3Bodies(q, a, b)
    ensures var c1 := Octree(Origin, 4, [Empty, Empty, Empty, Empty, Empty, Empty, Leaf(a), Empty]);
            var d2 := Octree(Pos(0, 2, 2), 2, [Leaf(a), Leaf(b), Empty, Empty, Empty, Empty, Empty, Empty]);
            && Placed(c1, q) && Apart(c1, q, q[b].pos)
            && Add(c1, q, b)
               == Octree(Origin, 4, [Empty, Empty, Empty, Empty, Empty, Empty,
                                     Branch(CM.Com(Vec3(1.0, 4.0, 4.0), 2.0), d2), Empty])
  {
    var c1 := Octree(Origin, 4, [Empty, Empty, Empty, Empty, Empty, Empty, Leaf(a), Empty]);
    Depth3MidReady(q, a, b, c1);
    var n := Split(c1, q, 6, a, b);
    Depth3MidBranch(q, a, b, c1);
    Depth3MidSlot(c1, a, n);
    Depth3MidSplits(q, a, b, c1);
  }

  lemma Depth3MidReady(q: Query, a: Entity, b: Entity, c1: Octree)
    requires Depth3Bodies(q, a, b)
    requires c1 == Octree(Origin, 4, [Empty, Empty, Empty, Empty, Empty, Empty, Leaf(a), Empty])
    ensures Placed(c1, q) && Apart(c1, q, q[b].pos)
    ensures Contains(c1, q[b].pos) && OctantIndex(c1, q[b].pos) == 6
  {
    LeavesOfEight(c1);
  }

  lemma Depth3MidSlot(c1: Octree, a: Entity, n: OctNode)
    requires c1 == Octree(Origin, 4, [Empty, Empty, Empty, Empty, Empty, Empty, Leaf(a), Empty])
    ensures c1.(children := c1.children[6 := n]) == Octree(Origin, 4, [Empty, Empty, Empty, Empty, Empty, Empty, n, Empty])
  {
  }

  lemma Depth3MidSplits(q: Query, a: Entity, b: Entity, c1: Octree)
    requires Depth3Bodies(q, a, b)
    requires c1 == Octree(Origin, 4, [Empty, Empty, Empty, Empty, Empty, Empty, Leaf(a), Empty])
    requires Placed(c1, q) && Apart(c1, q, q[b].pos)
    requires Contains(c1, q[b].pos) && OctantIndex(c1, q[b].pos) == 6
    ensures c1.(children := c1.children[6 := Split(c1, q, 6, a, b)]) == Add(c1, q, b)
  {
    AddIntoLeafSplits(c1, q, b);
  }

  lemma Depth3MidBranch(q: Query, a: Entity, b: Entity, c1: Octree)
    requires Depth3Bodies(q, a, b)
    requires c1 == Octree(Origin, 4, [Empty, Empty, Empty, Empty, Empty, Empty, Leaf(a), Empty])
    requires Placed(c1, q) && Apart(c1, q, q[b].pos)
    requires Contains(c1, q[b].pos) && OctantIndex(c1, q[b].pos) == 6
    ensures Split(c1, q, 6, a, b)
            == Branch(CM.Com(Vec3(1.0, 4.0, 4.0), 2.0),
                      Octree(Pos(0, 2, 2), 2, [Leaf(a), Leaf(b), Empty, Empty, Empty, Empty, Empty, Empty]))
  {
    var n := Split(c1, q, 6, a, b);
    Depth3Inner(q, a, b);
    Depth3Split(q, a, b, n);
    Depth3MidSplitTree(q, a, b, c1);
  }

  lemma Depth3MidSplitTree(q: Query, a: Entity, b: Entity, c1: Octree)
    requires Depth3Bodies(q, a, b)
    requires var d1 := Octree(Pos(0, 2, 2), 2, [Leaf(a), Empty, Empty, Empty, Empty, Empty, Empty, Empty]);
             && Add(New(Pos(0, 2, 2), 2), q, a) == d1
             && Placed(d1, q) && Apart(d1, q, q[b].pos)
             && Add(d1, q, b) == Octree(Pos(0, 2, 2), 2, [Leaf(a), Leaf(b), Empty, Empty, Empty, Empty, Empty, Empty])
    requires c1 == Octree(Origin, 4, [Empty, Empty, Empty, Empty, Empty, Empty, Leaf(a), Empty])
    requires Placed(c1, q) && Apart(c1, q, q[b].pos)
    requires Contains(c1, q[b].pos) && OctantIndex(c1, q[b].pos) == 6
    ensures Split(c1, q, 6, a, b).tree
            == Octree(Pos(0, 2, 2), 2, [Leaf(a), Leaf(b), Empty, Empty, Empty, Empty, Empty, Empty])
  {
    var cube := New(ChildOrigin(c1, 6), c1.size / 2);
    assert cube == New(Pos(0, 2, 2), 2);
  }

  // The cube of size 4 at the origin: slot 0 is split.

  lemma Depth3Second(q: Query, a: Entity, b: Entity)
    requires Depth3Bodies(q, a, b)
    ensures var t1 := Octree(Origin, 8, [Leaf(a), Empty, Empty, Empty, Empty, Empty, Empty, Empty]);
            var d2 := Octree(Pos(0, 2, 2), 2, [Leaf(a), Leaf(b), Empty, Empty, Empty, Empty, Empty, Empty]);
            var c2 := Octree(Origin, 4, [Empty, Empty, Empty, Empty, Empty, Empty,
                                         Branch(CM.Com(Vec3(1.0, 4.0, 4.0), 2.0), d2), Empty]);
            && Placed(t1, q) && Apart(t1, q, q[b].pos)
            && Add(t1, q, b)
               == Octree(Origin, 8, [Branch(CM.Com(Vec3(1.0, 4.0, 4.0), 2.0), c2),
                                     Empty, Empty, Empty, Empty, Empty, Empty, Empty])
  {
    var t1 := Octree(Origin, 8, [Leaf(a), Empty, Empty, Empty, Empty, Empty, Empty, Empty]);
    Depth3SecondReady(q, a, b, t1);
    var n := Split(t1, q, 0, a, b);
    Depth3Branch(q, a, b, t1);
    Depth3Slot(t1, a, n);
    Depth3Splits(q, a, b, t1);
  }

  lemma Depth3SecondReady(q: Query, a: Entity, b: Entity, t1: Octree)
    requires Depth3Bodies(q, a, b)
    requires t1 == Octree(Origin, 8, [Leaf(a), Empty, Empty, Empty, Empty, Empty, Empty, Empty])
    ensures Placed(t1, q) && Apart(t1, q, q[b].pos)
    ensures Contains(t1, q[b].pos) && OctantIndex(t1, q[b].pos) == 0
  {
    LeavesOfEight(t1);
  }

  lemma Depth3Slot(t1: Octree, a: Entity, n: OctNode)
    requires t1 == Octree(Origin, 8, [Leaf(a), Empty, Empty, Empty, Empty, Empty, Empty, Empty])
    ensures t1.(children := t1.children[0 := n]) == Octree(Origin, 8, [n, Empty, Empty, Empty, Empty, Empty, Empty, Empty])
  {
  }

  lemma Depth3Splits(q: Query, a: Entity, b: Entity, t1: Octree)
    requires Depth3Bodies(q, a, b)
    requires t1 == Octree(Origin, 8, [Leaf(a), Empty, Empty, Empty, Empty, Empty, Empty, Empty])
    requires Placed(t1, q) && Apart(t1, q, q[b].pos)
    requires Contains(t1, q[b].pos) && OctantIndex(t1, q[b].pos) == 0
    ensures t1.(children := t1.children[0 := Split(t1, q, 0, a, b)]) == Add(t1, q, b)
  {
    AddIntoLeafSplits(t1, q, b);
  }

  lemma Depth3Branch(q: Query, a: Entity, b: Entity, t1: Octree)
    requires Depth3Bodies(q, a, b)
    requires t1 == Octree(Origin, 8, [Leaf(a), Empty, Empty, Empty, Empty, Empty, Empty, Empty])
    requires Placed(t1, q) && Apart(t1, q, q[b].pos)
    requires Contains(t1, q[b].pos) && OctantIndex(t1, q[b].pos) == 0
    ensures var d2 := Octree(Pos(0, 2, 2), 2, [Leaf(a), Leaf(b), Empty, Empty, Empty, Empty, Empty, Empty]);
            Split(t1, q, 0, a, b)
            == Branch(CM.Com(Vec3(1.0, 4.0, 4.0), 2.0),
                      Octree(Origin, 4, [Empty, Empty, Empty, Empty, Empty, Empty,
                                         Branch(CM.Com(Vec3(1.0, 4.0, 4.0), 2.0), d2), Empty]))
  {
    var n := Split(t1, q, 0, a, b);
    Depth3Split(q, a, b, n);
    Depth3SplitTree(q, a, b, t1);
  }

  lemma Depth3SplitTree(q: Query, a: Entity, b: Entity, t1: Octree)
    requires Depth3Bodies(q, a, b)
    requires t1 == Octree(Origin, 8, [Leaf(a), Empty, Empty, Empty, Empty, Empty, Empty, Empty])
    requires Placed(t1, q) && Apart(t1, q, q[b].pos)
    requires Contains(t1, q[b].pos) && OctantIndex(t1, q[b].pos) == 0
    ensures var d2 := Octree(Pos(0, 2, 2), 2, [Leaf(a), Leaf(b), Empty, Empty, Empty, Empty, Empty, Empty]);
            Split(t1, q, 0, a, b).tree
            == Octree(Origin, 4, [Empty, Empty, Empty, Empty, Empty, Empty,
                                  Branch(CM.Com(Vec3(1.0, 4.0, 4.0), 2.0), d2), Empty])
  {
    var cube := New(ChildOrigin(t1, 0), t1.size / 2);
    assert cube == New(Origin, 4);
    var n := Split(t1, q, 0, a, b);
    Depth3Mid(q, a, b);
  }
}
