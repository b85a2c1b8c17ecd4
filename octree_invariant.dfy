/** The centre-of-mass invariant of the octree: every branch's COM is the
    aggregate of the bodies of the leaves beneath it, and `Add` keeps it. */
module OctreeInvariant {
  import opened Geometry
  import CM = CenterOfMass
  import opened Octree

  /** `COM::add` with the body of `e` when `e` resolves; nothing otherwise. */
  function AddEntity(c: CM.Com, q: Query, e: Entity): (r: CM.Com)
    ensures e in q ==> r.mass == c.mass + q[e].mass
    ensures e !in q ==> r == c
  {
    if e in q then CM.Add(c, q[e].pos, q[e].mass) else c
  }

  /** The aggregate of the bodies of a multiset of entities: `COM::ZERO` with
      every resolvable one folded in, in any order. */
  ghost function Total(ms: multiset<Entity>, q: Query): CM.Com
    decreases |ms|
  {
    if ms == multiset{} then CM.Zero()
    else
      var e :| e in ms;
      AddEntity(Total(ms - multiset{e}, q), q, e)
  }

  /** Folding two entities in either order gives the same aggregate. */
  lemma AddEntityCommutes(c: CM.Com, q: Query, a: Entity, b: Entity)
    ensures AddEntity(AddEntity(c, q, a), q, b) == AddEntity(AddEntity(c, q, b), q, a)
  {
    if a in q && b in q {
      CM.AddCommutes(c, q[a].pos, q[a].mass, q[b].pos, q[b].mass);
    }
  }

  /** Adding one entity to the multiset folds it into the aggregate, whichever
      element `Total` happens to pick first. */
  lemma {:induction false} TotalInsert(ms: multiset<Entity>, q: Query, e: Entity)
    ensures Total(ms + multiset{e}, q) == AddEntity(Total(ms, q), q, e)
    decreases |ms|, 1
  {
    var s := ms + multiset{e};
    assert e in s;
    var x :| x in s && Total(s, q) == AddEntity(Total(s - multiset{x}, q), q, x);
    RemoveFromInsert(ms, e, x);
    if x != e {
      TotalInsertSwap(ms, q, e, x);
    }
  }

  /** Taking `x` back out of `ms + {e}`. */
  lemma RemoveFromInsert(ms: multiset<Entity>, e: Entity, x: Entity)
    requires x in ms + multiset{e}
    ensures x == e ==> (ms + multiset{e}) - multiset{x} == ms
    ensures x != e ==> x in ms && (ms + multiset{e}) - multiset{x} == (ms - multiset{x}) + multiset{e}
  {
  }

  /** The case of `TotalInsert` where `Total` picks an element `x` other than
      the inserted `e`: folding `x` last or `e` last agrees. */
  lemma {:induction false} TotalInsertSwap(ms: multiset<Entity>, q: Query, e: Entity, x: Entity)
    requires x in ms
    ensures AddEntity(Total((ms - multiset{x}) + multiset{e}, q), q, x) == AddEntity(Total(ms, q), q, e)
    decreases |ms|, 0
  {
    var rest := ms - multiset{x};
    assert rest + multiset{x} == ms;
    calc {
      AddEntity(Total(rest + multiset{e}, q), q, x);
      { TotalInsert(rest, q, e); }
      AddEntity(AddEntity(Total(rest, q), q, e), q, x);
      { AddEntityCommutes(Total(rest, q), q, e, x); }
      AddEntity(AddEntity(Total(rest, q), q, x), q, e);
      { TotalInsert(rest, q, x); }
      AddEntity(Total(ms, q), q, e);
    }
  }

  /** The aggregate of two groups of entities is the merge of their two
      aggregates, so a branch's COM is what the COMs of its parts add up to. */
  lemma {:induction false} TotalMerge(a: multiset<Entity>, b: multiset<Entity>, q: Query)
    ensures Total(a + b, q) == CM.Merge(Total(a, q), Total(b, q))
    decreases |b|
  {
    if b == multiset{} {
      assert a + b == a;
      CM.MergeZero(Total(a, q));
    } else {
      var x :| x in b;
      var rest := b - multiset{x};
      assert b == rest + multiset{x};
      assert a + b == (a + rest) + multiset{x};
      TotalMerge(a, rest, q);
      TotalInsert(a + rest, q, x);
      TotalInsert(rest, q, x);
      if x in q {
        CM.MergeAssociates(Total(a, q), Total(rest, q), CM.Of(q[x].pos, q[x].mass));
      }
    }
  }

  /** Every branch's stored COM equals the aggregate of the leaves beneath it. */
  ghost predicate ComsExact(t: Octree, q: Query)
    decreases t, 1
  {
    forall i :: 0 <= i < |t.children| ==> NodeExact(t.children[i], q)
  }

  ghost predicate NodeExact(n: OctNode, q: Query)
    decreases n
  {
    match n
    case Branch(com, sub) => com == Total(Leaves(sub), q) && ComsExact(sub, q)
    case _ => true
  }

  /** The invariant of a tree built by `Add` over one body lookup. */
  ghost predicate MassInvariant(t: Octree, q: Query)
  {
    Placed(t, q) && Resolved(t, q) && ComsExact(t, q)
  }

  /** A new tree of power-of-two size is valid and holds nothing. */
  lemma NewValid(pos: Pos, size: nat, q: Query)
    requires IsPow2(size)
    ensures MassInvariant(New(pos, size), q)
    ensures Total(Leaves(New(pos, size)), q) == CM.Zero()
  {
    var t := New(pos, size);
    forall i | 0 <= i < |t.children|
      ensures NodeExact(t.children[i], q)
    {
      assert t.children[i] in t.children;
    }
  }

  /** Replacing slot `i` by a node whose COMs are exact keeps every COM exact. */
  lemma ComsExactAfterUpdate(t: Octree, q: Query, i: nat, n: OctNode)
    requires ComsExact(t, q) && i < |t.children| && NodeExact(n, q)
    ensures ComsExact(t.(children := t.children[i := n]), q)
  {
    var r := t.(children := t.children[i := n]);
    forall j | 0 <= j < |r.children|
      ensures NodeExact(r.children[j], q)
    {
      if j != i {
        assert r.children[j] == t.children[j];
      }
    }
  }

  /** The aggregate of two bodies is `COM::new` of them. */
  lemma TotalOfPair(q: Query, a: Entity, b: Entity)
    requires a in q && b in q
    ensures Total(multiset{a, b}, q) == CM.New(q[a].pos, q[a].mass, q[b].pos, q[b].mass)
  {
    TotalInsert(multiset{}, q, a);
    assert multiset{} + multiset{a} == multiset{a};
    TotalInsert(multiset{a}, q, b);
    assert multiset{a} + multiset{b} == multiset{a, b};
  }

  /** `Add` keeps the invariant, indexes the new body exactly once, and so
      grows the aggregate of the whole tree by that body. */
  lemma {:induction false} AddKeepsValid(t: Octree, q: Query, e: Entity)
    requires MassInvariant(t, q) && e in q
    requires Contains(t, q[e].pos) && Apart(t, q, q[e].pos)
    ensures MassInvariant(Add(t, q, e), q)
    ensures Leaves(Add(t, q, e)) == Leaves(t) + multiset{e}
    ensures Total(Leaves(Add(t, q, e)), q) == CM.Add(Total(Leaves(t), q), q[e].pos, q[e].mass)
    decreases t.size, 2
  {
    var idx := OctantIndex(t, q[e].pos);
    match t.children[idx] {
      case Empty => AddIntoEmptyValid(t, q, e, idx);
      case Leaf(prior) => AddIntoLeafValid(t, q, e, idx);
      case Branch(_, _) => AddIntoBranchValid(t, q, e, idx);
    }
    TotalInsert(Leaves(t), q, e);
  }

  /** The `Leaf` arm of `Add` keeps the invariant. */
  lemma {:induction false} AddIntoLeafValid(t: Octree, q: Query, e: Entity, idx: nat)
    requires MassInvariant(t, q) && e in q
    requires Contains(t, q[e].pos) && Apart(t, q, q[e].pos)
    requires idx == OctantIndex(t, q[e].pos) && t.children[idx].Leaf?
    ensures MassInvariant(Add(t, q, e), q)
    ensures Leaves(Add(t, q, e)) == Leaves(t) + multiset{e}
    decreases t.size, 1
  {
    var prior := t.children[idx].entity;
    SlotInLeaves(t.children, idx);
    assert prior in q;
    SplitValid(t, q, idx, prior, e);
    var n := Split(t, q, idx, prior, e);
    assert Add(t, q, e) == t.(children := t.children[idx := n]);
    Replace(t, q, idx, n, multiset{e});
    ComsExactAfterUpdate(t, q, idx, n);
  }

  /** The `Branch` arm of `Add` keeps the invariant: the COM is folded with
      the new body and the subtree takes it. */
  lemma {:induction false} AddIntoBranchValid(t: Octree, q: Query, e: Entity, idx: nat)
    requires MassInvariant(t, q) && e in q
    requires Contains(t, q[e].pos) && Apart(t, q, q[e].pos)
    requires idx == OctantIndex(t, q[e].pos) && t.children[idx].Branch?
    ensures MassInvariant(Add(t, q, e), q)
    ensures Leaves(Add(t, q, e)) == Leaves(t) + multiset{e}
    decreases t.size, 1
  {
    var com, sub := t.children[idx].com, t.children[idx].tree;
    assert Fits(t, idx, t.children[idx], q);
    assert NodeExact(t.children[idx], q);
    SlotInLeaves(t.children, idx);
    ChildPartition(t, sub, idx, q[e].pos);
    AddKeepsValid(sub, q, e);
    var n := Branch(CM.Add(com, q[e].pos, q[e].mass), Add(sub, q, e));
    TotalInsert(Leaves(sub), q, e);
    assert Add(t, q, e) == t.(children := t.children[idx := n]);
    Replace(t, q, idx, n, multiset{e});
    ComsExactAfterUpdate(t, q, idx, n);
  }

  /** The `Empty` arm of `Add` keeps the invariant. */
  lemma AddIntoEmptyValid(t: Octree, q: Query, e: Entity, idx: nat)
    requires MassInvariant(t, q) && e in q
    requires Contains(t, q[e].pos) && Apart(t, q, q[e].pos)
    requires idx == OctantIndex(t, q[e].pos) && t.children[idx] == Empty
    ensures MassInvariant(Add(t, q, e), q)
    ensures Leaves(Add(t, q, e)) == Leaves(t) + multiset{e}
  {
    assert Add(t, q, e) == t.(children := t.children[idx := Leaf(e)]);
    Replace(t, q, idx, Leaf(e), multiset{e});
    ComsExactAfterUpdate(t, q, idx, Leaf(e));
  }

  /** The branch `Split` builds has an exact COM and a valid subtree. */
  lemma {:induction false} SplitValid(t: Octree, q: Query, idx: nat, prior: Entity, e: Entity)
    requires MassInvariant(t, q) && idx < 8 && t.children[idx] == Leaf(prior)
    requires prior in q && e in q && Contains(t, q[e].pos) && OctantIndex(t, q[e].pos) == idx
    requires Apart(t, q, q[e].pos)
    ensures NodeExact(Split(t, q, idx, prior, e), q)
    decreases t.size, 0
  {
    var p := q[e].pos;
    assert Fits(t, idx, t.children[idx], q);
    SlotInLeaves(t.children, idx);
    RoomToSplit(t, q[prior].pos, p);
    var cube := New(ChildOrigin(t, idx), t.size / 2);
    NewValid(cube.pos, cube.size, q);
    ChildPartition(t, cube, idx, q[prior].pos);
    ChildPartition(t, cube, idx, p);
    AddKeepsValid(cube, q, prior);
    var sub1 := Add(cube, q, prior);
    AddKeepsValid(sub1, q, e);
    var n := Split(t, q, idx, prior, e);
    assert n == Branch(CM.New(q[prior].pos, q[prior].mass, p, q[e].mass), Add(sub1, q, e));
    TotalOfPair(q, prior, e);
  }
}
