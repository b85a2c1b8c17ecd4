/** The shape `Octree::add` gives a cube depends only on which bodies it
    holds, not on the order they came in. `Canon` builds that shape directly
    from a set of entities: an octant holding no body is `Empty`, one body a
    `Leaf`, two or more a `Branch` whose COM is the aggregate of those bodies,
    over the half-size cube built the same way. Adding a body to the canonical
    tree of a set gives the canonical tree of the set with that body. */
module OctreeCanonical {
  import opened Geometry
  import CM = CenterOfMass
  import opened Octree
  import opened OctreeInvariant
  import opened OctreeAddCases

  /** The entities of `s` whose bodies fall in octant `i` of the cube at
      `pos` of side `size`. */
  ghost function Octant(pos: Pos, size: nat, q: Query, s: set<Entity>, i: nat): set<Entity>
  {
    set e | e in s && e in q && OctantIndex(Octree(pos, size, []), q[e].pos) == i
  }

  /** The tree of the cube at `pos` of side `size` holding the bodies of `s`. */
  ghost function Canon(pos: Pos, size: nat, q: Query, s: set<Entity>): Octree
    decreases size, 1
  {
    Octree(pos, size, seq(8, j requires 0 <= j => CanonSlot(pos, size, q, s, j)))
  }

  /** Slot `i` of `Canon(pos, size, q, s)`. A cube too small to halve cannot
      hold two bodies at different lattice points, so its last case never
      arises for the trees `Add` builds. */
  ghost function CanonSlot(pos: Pos, size: nat, q: Query, s: set<Entity>, i: nat): OctNode
    decreases size, 0
  {
    var part := Octant(pos, size, q, s, i);
    if part == {} then Empty
    else if |part| == 1 then Leaf(Pick(part))
    else if i < 8 && size >= 2 && size % 2 == 0 then
      Branch(Total(multiset(part), q), Canon(ChildOrigin(Octree(pos, size, []), i), size / 2, q, part))
    else Empty
  }

  /** Some element of a non-empty set; the only one of a singleton. */
  ghost function Pick(part: set<Entity>): (x: Entity)
    requires part != {}
    ensures x in part
  {
    var x :| x in part;
    x
  }

  /** Every entity of `s` resolves to a body inside the cube of `t`, and no two
      of them are at the same point. */
  ghost predicate Spread(t: Octree, q: Query, s: set<Entity>)
  {
    && (forall x :: x in s ==> x in q && Contains(t, q[x].pos))
    && (forall x, y :: x in s && y in s && x != y ==> q[x].pos != q[y].pos)
  }

  /** The canonical tree of no bodies is `Octree::new`. */
  lemma CanonOfNone(pos: Pos, size: nat, q: Query)
    ensures Canon(pos, size, q, {}) == New(pos, size)
  {
    forall i | 0 <= i < 8
      ensures CanonSlot(pos, size, q, {}, i) == Empty
    {
      assert Octant(pos, size, q, {}, i) == {};
    }
  }

  /** One more body changes only the slot of its own octant, whose part grows
      by that body. */
  lemma CanonInsert(pos: Pos, size: nat, q: Query, s: set<Entity>, e: Entity)
    requires e in q
    ensures var i := OctantIndex(Octree(pos, size, []), q[e].pos);
            && Octant(pos, size, q, s + {e}, i) == Octant(pos, size, q, s, i) + {e}
            && Canon(pos, size, q, s + {e})
               == Canon(pos, size, q, s).(children := Canon(pos, size, q, s).children[i := CanonSlot(pos, size, q, s + {e}, i)])
  {
    var i := OctantIndex(Octree(pos, size, []), q[e].pos);
    assert Octant(pos, size, q, s + {e}, i) == Octant(pos, size, q, s, i) + {e};
    var c, c' := Canon(pos, size, q, s), Canon(pos, size, q, s + {e});
    var n := CanonSlot(pos, size, q, s + {e}, i);
    forall j | 0 <= j < 8
      ensures c'.children[j] == c.children[i := n][j]
    {
      assert c'.children[j] == CanonSlot(pos, size, q, s + {e}, j);
      assert c.children[j] == CanonSlot(pos, size, q, s, j);
      if j != i {
        assert Octant(pos, size, q, s + {e}, j) == Octant(pos, size, q, s, j);
        assert CanonSlot(pos, size, q, s + {e}, j) == CanonSlot(pos, size, q, s, j);
      }
    }
    assert c'.children == c.children[i := n];
  }

  /** Slot `i` of the canonical tree is `CanonSlot` of `i`. */
  lemma CanonChild(pos: Pos, size: nat, q: Query, s: set<Entity>, i: nat)
    requires i < 8
    ensures |Canon(pos, size, q, s).children| == 8
    ensures Canon(pos, size, q, s).children[i] == CanonSlot(pos, size, q, s, i)
  {
  }

  /** An octant holding one body is a leaf of it. */
  lemma SlotOfOne(pos: Pos, size: nat, q: Query, s: set<Entity>, i: nat, x: Entity)
    requires Octant(pos, size, q, s, i) == {x}
    ensures CanonSlot(pos, size, q, s, i) == Leaf(x)
  {
    assert |{x}| == 1;
  }

  /** An octant holding two bodies or more is a branch over the canonical
      half-size cube of those bodies. */
  lemma SlotOfMany(pos: Pos, size: nat, q: Query, s: set<Entity>, i: nat)
    requires i < 8 && size >= 2 && size % 2 == 0 && |Octant(pos, size, q, s, i)| >= 2
    ensures var part := Octant(pos, size, q, s, i);
            CanonSlot(pos, size, q, s, i)
            == Branch(Total(multiset(part), q), Canon(ChildOrigin(Octree(pos, size, []), i), size / 2, q, part))
  {
  }

  /** Where a body goes and where a slot's cube starts depend on the cube
      only, not on its slots. */
  lemma CubeOnly(t: Octree, p: Pos, i: nat)
    ensures OctantIndex(Octree(t.pos, t.size, []), p) == OctantIndex(t, p)
    ensures i < 8 && t.size % 2 == 0 ==> ChildOrigin(Octree(t.pos, t.size, []), i) == ChildOrigin(t, i)
  {
  }

  /** Adding a body to the canonical tree of `s` gives the canonical tree of
      `s` with that body. */
  lemma {:induction false} AddCanon(t: Octree, q: Query, s: set<Entity>, e: Entity)
    requires Placed(t, q) && t == Canon(t.pos, t.size, q, s) && Spread(t, q, s)
    requires e in q && e !in s && Contains(t, q[e].pos) && Apart(t, q, q[e].pos)
    requires forall x :: x in s ==> q[x].pos != q[e].pos
    ensures Add(t, q, e) == Canon(t.pos, t.size, q, s + {e})
    decreases t.size, 2
  {
    var i := OctantIndex(t, q[e].pos);
    var part := Octant(t.pos, t.size, q, s, i);
    CubeOnly(t, q[e].pos, 0);
    CanonInsert(t.pos, t.size, q, s, e);
    if part == {} {
      AddCanonEmpty(t, q, s, e, i);
    } else if |part| == 1 {
      AddCanonLeaf(t, q, s, e, i);
    } else {
      AddCanonBranch(t, q, s, e, i);
    }
  }

  /** The octant of the new body holds no body yet: it becomes its leaf. */
  lemma AddCanonEmpty(t: Octree, q: Query, s: set<Entity>, e: Entity, i: nat)
    requires Placed(t, q) && t == Canon(t.pos, t.size, q, s)
    requires e in q && Contains(t, q[e].pos) && Apart(t, q, q[e].pos)
    requires i == OctantIndex(t, q[e].pos) && Octant(t.pos, t.size, q, s, i) == {}
    requires Octant(t.pos, t.size, q, s + {e}, i) == {e}
    ensures Add(t, q, e) == t.(children := t.children[i := CanonSlot(t.pos, t.size, q, s + {e}, i)])
  {
    CanonChild(t.pos, t.size, q, s, i);
    SlotOfOne(t.pos, t.size, q, s + {e}, i, e);
    AddIntoEmpty(t, q, e);
  }

  /** The octant of the new body holds one body: the leaf splits into a
      branch over the canonical half-size tree of the two. */
  lemma {:induction false} AddCanonLeaf(t: Octree, q: Query, s: set<Entity>, e: Entity, i: nat)
    requires Placed(t, q) && t == Canon(t.pos, t.size, q, s) && Spread(t, q, s)
    requires e in q && e !in s && Contains(t, q[e].pos) && Apart(t, q, q[e].pos)
    requires i == OctantIndex(t, q[e].pos) && |Octant(t.pos, t.size, q, s, i)| == 1
    requires Octant(t.pos, t.size, q, s + {e}, i) == Octant(t.pos, t.size, q, s, i) + {e}
    ensures Add(t, q, e) == t.(children := t.children[i := CanonSlot(t.pos, t.size, q, s + {e}, i)])
    decreases t.size, 1
  {
    var part := Octant(t.pos, t.size, q, s, i);
    var x :| x in part;
    OnlyOne(part, x);
    CanonChild(t.pos, t.size, q, s, i);
    SlotOfOne(t.pos, t.size, q, s, i, x);
    AddIntoLeafSplits(t, q, e);
    SplitSteps(t, q, i, x, e);
    SplitRoom(t, q, i, x, e);
    var cube := New(ChildOrigin(t, i), t.size / 2);
    LeafPair(cube, q, x, e);
    TotalOfPair(q, x, e);
    LeafSplitSlot(t, q, s, e, i, x, Add(Add(cube, q, x), q, e));
  }

  /** Two bodies at different points added to an empty cube give the
      canonical tree of the two. */
  lemma {:induction false} LeafPair(cube: Octree, q: Query, x: Entity, e: Entity)
    requires cube == New(cube.pos, cube.size) && Placed(cube, q)
    requires x in q && e in q && q[x].pos != q[e].pos
    requires Contains(cube, q[x].pos) && Apart(cube, q, q[x].pos)
    requires var sub1 := Add(cube, q, x);
             Placed(sub1, q) && Contains(sub1, q[e].pos) && Apart(sub1, q, q[e].pos)
    ensures Add(Add(cube, q, x), q, e) == Canon(cube.pos, cube.size, q, {x} + {e})
    decreases cube.size, 3
  {
    CanonOfNone(cube.pos, cube.size, q);
    AddCanon(cube, q, {}, x);
    assert {} + {x} == {x};
    AddCanon(Add(cube, q, x), q, {x}, e);
  }

  /** The slot the `Leaf` case ends with is the canonical slot of the two
      bodies. */
  lemma LeafSplitSlot(t: Octree, q: Query, s: set<Entity>, e: Entity, i: nat, x: Entity, sub: Octree)
    requires e in q && x in q && e != x && i < 8 && t.size >= 2 && t.size % 2 == 0
    requires Octant(t.pos, t.size, q, s + {e}, i) == {x} + {e}
    requires Total(multiset{x, e}, q) == CM.New(q[x].pos, q[x].mass, q[e].pos, q[e].mass)
    requires sub == Canon(ChildOrigin(t, i), t.size / 2, q, {x} + {e})
    ensures Branch(CM.New(q[x].pos, q[x].mass, q[e].pos, q[e].mass), sub) == CanonSlot(t.pos, t.size, q, s + {e}, i)
  {
    assert |{x} + {e}| == 2;
    assert multiset({x} + {e}) == multiset{x, e};
    CubeOnly(t, q[e].pos, i);
    SlotOfMany(t.pos, t.size, q, s + {e}, i);
  }

  /** The octant of the new body holds two bodies or more: the branch folds
      the body into its COM and its canonical subtree takes it. */
  lemma {:induction false} AddCanonBranch(t: Octree, q: Query, s: set<Entity>, e: Entity, i: nat)
    requires Placed(t, q) && t == Canon(t.pos, t.size, q, s) && Spread(t, q, s)
    requires e in q && e !in s && Contains(t, q[e].pos) && Apart(t, q, q[e].pos)
    requires forall x :: x in s ==> q[x].pos != q[e].pos
    requires i == OctantIndex(t, q[e].pos) && |Octant(t.pos, t.size, q, s, i)| >= 2
    requires Octant(t.pos, t.size, q, s + {e}, i) == Octant(t.pos, t.size, q, s, i) + {e}
    ensures Add(t, q, e) == t.(children := t.children[i := CanonSlot(t.pos, t.size, q, s + {e}, i)])
    decreases t.size, 1
  {
    var part := Octant(t.pos, t.size, q, s, i);
    var a :| a in part;
    OneMore(part, a);
    var b :| b in part && b != a;
    RoomToSplit(t, q[a].pos, q[b].pos);
    var sub := Canon(ChildOrigin(t, i), t.size / 2, q, part);
    CanonChild(t.pos, t.size, q, s, i);
    SlotOfMany(t.pos, t.size, q, s, i);
    CubeOnly(t, q[e].pos, i);
    assert t.children[i] == Branch(Total(multiset(part), q), sub);
    AddIntoBranch(t, q, e);
    SubSpread(t, q, s, i, sub);
    AddCanon(sub, q, part, e);
    BranchSlot(t, q, s, e, i, part, Add(sub, q, e));
  }

  /** The bodies of octant `i` lie in the half-size cube of that octant. */
  lemma SubSpread(t: Octree, q: Query, s: set<Entity>, i: nat, sub: Octree)
    requires Spread(t, q, s) && i < 8 && t.size % 2 == 0
    requires sub.pos == ChildOrigin(t, i) && sub.size == t.size / 2
    ensures Spread(sub, q, Octant(t.pos, t.size, q, s, i))
  {
    forall x | x in Octant(t.pos, t.size, q, s, i)
      ensures Contains(sub, q[x].pos)
    {
      ChildPartition(t, sub, i, q[x].pos);
    }
  }

  /** The slot the `Branch` case ends with is the canonical slot of the
      octant's bodies with the new one. */
  lemma BranchSlot(t: Octree, q: Query, s: set<Entity>, e: Entity, i: nat, part: set<Entity>, sub: Octree)
    requires e in q && e !in part && i < 8 && t.size >= 2 && t.size % 2 == 0
    requires |part| >= 2 && Octant(t.pos, t.size, q, s + {e}, i) == part + {e}
    requires sub == Canon(ChildOrigin(t, i), t.size / 2, q, part + {e})
    ensures Branch(CM.Add(Total(multiset(part), q), q[e].pos, q[e].mass), sub) == CanonSlot(t.pos, t.size, q, s + {e}, i)
  {
    assert |part + {e}| == |part| + 1;
    assert multiset(part + {e}) == multiset(part) + multiset{e};
    TotalInsert(multiset(part), q, e);
    CubeOnly(t, q[e].pos, i);
    SlotOfMany(t.pos, t.size, q, s + {e}, i);
  }

  /** A set of one element is the singleton of any of its elements. */
  lemma OnlyOne(part: set<Entity>, x: Entity)
    requires |part| == 1 && x in part
    ensures part == {x}
  {
    assert |part - {x}| == |part| - 1;
  }

  /** A set of two elements or more has one besides any given one. */
  lemma OneMore(part: set<Entity>, a: Entity)
    requires |part| >= 2 && a in part
    ensures exists b :: b in part && b != a
  {
    assert |part - {a}| == |part| - 1;
    var b :| b in part - {a};
  }
}
