/** Building a tree by adding bodies one after another, as the `build_tree`
    system of the repository's tests does for every body of a query. */
module OctreeBuild {
  import opened Geometry
  import CM = CenterOfMass
  import opened Octree
  import opened OctreeInvariant
  import Heap = OctreeHeap
  import opened OctreeCanonical

  /** The entities of `es` are distinct, resolve, lie in the cube of `t`,
      keep away from the bodies already in `t`, and sit at pairwise different
      positions. */
  ghost predicate Scattered(t: Octree, q: Query, es: seq<Entity>)
  {
    && (forall e :: multiset(es)[e] <= 1)
    && (forall e :: e in es ==> e in q && Contains(t, q[e].pos) && Apart(t, q, q[e].pos))
    && (forall a, b :: a in es && b in es && a != b && a in q && b in q ==> q[a].pos != q[b].pos)
  }

  /** The tree after adding the entities of `es` in order. */
  ghost function AddAll(t: Octree, q: Query, es: seq<Entity>): (r: Octree)
    requires MassInvariant(t, q) && Scattered(t, q, es)
    ensures MassInvariant(r, q) && r.pos == t.pos && r.size == t.size
    ensures Leaves(r) == Leaves(t) + multiset(es)
    decreases |es|
  {
    if es == [] then t
    else
      AddFirst(t, q, es);
      AddAll(Add(t, q, es[0]), q, es[1..])
  }

  /** Adding the first entity keeps the tree valid and the rest scattered,
      and moves that entity from the list to the leaves. */
  lemma AddFirst(t: Octree, q: Query, es: seq<Entity>)
    requires MassInvariant(t, q) && Scattered(t, q, es) && es != []
    ensures MassInvariant(Add(t, q, es[0]), q) && Scattered(Add(t, q, es[0]), q, es[1..])
    ensures Add(t, q, es[0]).pos == t.pos && Add(t, q, es[0]).size == t.size
    ensures Leaves(Add(t, q, es[0])) + multiset(es[1..]) == Leaves(t) + multiset(es)
  {
    var t' := Add(t, q, es[0]);
    AddKeepsValid(t, q, es[0]);
    ScatteredAfterAdd(t, t', q, es);
    MultisetShift(Leaves(t'), Leaves(t), es);
  }

  /** Moving the head of `es` into a multiset. */
  lemma MultisetShift(a: multiset<Entity>, b: multiset<Entity>, es: seq<Entity>)
    requires es != [] && a == b + multiset{es[0]}
    ensures a + multiset(es[1..]) == b + multiset(es)
  {
    assert es == [es[0]] + es[1..];
  }

  /** Building from `es` is adding its first entity, then building from the rest. */
  lemma AddAllCons(t: Octree, q: Query, es: seq<Entity>)
    requires MassInvariant(t, q) && Scattered(t, q, es) && es != []
    ensures MassInvariant(Add(t, q, es[0]), q) && Scattered(Add(t, q, es[0]), q, es[1..])
    ensures AddAll(t, q, es) == AddAll(Add(t, q, es[0]), q, es[1..])
  {
    AddFirst(t, q, es);
  }

  /** The aggregate of the built tree is the aggregate of the tree it
      started from with every body folded in, in the order of `es`. */
  lemma {:induction false} AddAllTotal(t: Octree, q: Query, es: seq<Entity>)
    requires MassInvariant(t, q) && Scattered(t, q, es)
    ensures Total(Leaves(AddAll(t, q, es)), q) == Fold(Total(Leaves(t), q), q, es)
    decreases |es|
  {
    if es != [] {
      var t' := Add(t, q, es[0]);
      AddKeepsValid(t, q, es[0]);
      ScatteredAfterAdd(t, t', q, es);
      AddAllTotal(t', q, es[1..]);
      assert Total(Leaves(t'), q) == AddEntity(Total(Leaves(t), q), q, es[0]);
    }
  }

  /** `COM::add` applied to `c` with the body of every entity of `es`, in order. */
  function Fold(c: CM.Com, q: Query, es: seq<Entity>): (r: CM.Com)
    ensures (forall e :: e in es ==> e !in q) ==> r == c
    decreases |es|
  {
    if es == [] then c else Fold(AddEntity(c, q, es[0]), q, es[1..])
  }

  /** After the first entity is added, the rest are still scattered. */
  lemma ScatteredAfterAdd(t: Octree, r: Octree, q: Query, es: seq<Entity>)
    requires Scattered(t, q, es) && es != []
    requires r.pos == t.pos && r.size == t.size
    requires Leaves(r) == Leaves(t) + multiset{es[0]}
    ensures Scattered(r, q, es[1..])
  {
    var rest := es[1..];
    assert es == [es[0]] + rest;
    assert multiset(es) == multiset{es[0]} + multiset(rest);
    forall e | e in rest
      ensures e in es && e != es[0] && Apart(r, q, q[e].pos)
    {
      assert multiset(es)[e] == multiset{es[0]}[e] + multiset(rest)[e];
      forall l | l in Leaves(r) && l in q
        ensures q[l].pos != q[e].pos
      {
        if l != es[0] {
          assert l in Leaves(t);
        }
      }
    }
    assert forall e :: multiset(rest)[e] <= multiset(es)[e];
  }

  /** `build_tree`: add every entity of `es`, in order, to the tree in place. */
  method BuildTree(tree: Heap.Tree, q: Query, es: seq<Entity>)
    requires tree.Valid() && MassInvariant(tree.model, q) && Scattered(tree.model, q, es)
    modifies tree.Repr
    ensures tree.Valid() && fresh(tree.Repr - old(tree.Repr))
    ensures tree.model == AddAll(old(tree.model), q, es)
  {
    var i := 0;
    while i < |es|
      invariant 0 <= i <= |es|
      invariant tree.Valid() && fresh(tree.Repr - old(tree.Repr))
      invariant MassInvariant(tree.model, q) && Scattered(tree.model, q, es[i..])
      invariant AddAll(tree.model, q, es[i..]) == AddAll(old(tree.model), q, es)
    {
      AddAllCons(tree.model, q, es[i..]);
      assert es[i..][1..] == es[i + 1..];
      tree.Add(q, es[i]);
      i := i + 1;
    }
  }

  /** A tree built from an empty cube is valid, holds every entity once, and
      its aggregate is `COM::ZERO` with every body folded in. The tree itself,
      and so its aggregate, does not depend on the order of `es`. */
  lemma BuildFromEmpty(pos: Pos, size: nat, q: Query, es: seq<Entity>, es': seq<Entity>)
    requires IsPow2(size) && Scattered(New(pos, size), q, es)
    requires multiset(es') == multiset(es)
    ensures MassInvariant(New(pos, size), q) && Scattered(New(pos, size), q, es')
    ensures Leaves(AddAll(New(pos, size), q, es)) == multiset(es)
    ensures Total(Leaves(AddAll(New(pos, size), q, es)), q) == Fold(CM.Zero(), q, es)
    ensures AddAll(New(pos, size), q, es) == AddAll(New(pos, size), q, es')
    ensures Fold(CM.Zero(), q, es) == Fold(CM.Zero(), q, es')
  {
    var t := New(pos, size);
    NewValid(pos, size, q);
    ScatteredPermutation(t, q, es, es');
    AddAllTotal(t, q, es);
    AddAllTotal(t, q, es');
    BuildOrderFree(pos, size, q, es, es');
  }

  /** Two orders of the same entities build the same tree. */
  lemma BuildOrderFree(pos: Pos, size: nat, q: Query, es: seq<Entity>, es': seq<Entity>)
    requires IsPow2(size) && Scattered(New(pos, size), q, es) && Scattered(New(pos, size), q, es')
    requires multiset(es') == multiset(es)
    ensures MassInvariant(New(pos, size), q)
    ensures AddAll(New(pos, size), q, es) == AddAll(New(pos, size), q, es')
  {
    SameElements(es, es');
    BuildCanon(pos, size, q, es);
    BuildCanon(pos, size, q, es');
  }

  /** A tree built from an empty cube is the canonical tree of the entities
      added. */
  lemma BuildCanon(pos: Pos, size: nat, q: Query, es: seq<Entity>)
    requires IsPow2(size) && Scattered(New(pos, size), q, es)
    ensures MassInvariant(New(pos, size), q)
    ensures AddAll(New(pos, size), q, es) == Canon(pos, size, q, Elements(es))
  {
    NewValid(pos, size, q);
    CanonOfNone(pos, size, q);
    AddAllCanon(New(pos, size), q, {}, es);
    assert {} + Elements(es) == Elements(es);
  }

  /** Adding the entities of `es` to the canonical tree of `s` gives the
      canonical tree of `s` with them. */
  lemma {:induction false} AddAllCanon(t: Octree, q: Query, s: set<Entity>, es: seq<Entity>)
    requires MassInvariant(t, q) && Scattered(t, q, es)
    requires t == Canon(t.pos, t.size, q, s) && Spread(t, q, s) && Leaves(t) == multiset(s)
    ensures AddAll(t, q, es) == Canon(t.pos, t.size, q, s + Elements(es))
    decreases |es|
  {
    ElementsCons(s, es);
    if es != [] {
      var t' := Add(t, q, es[0]);
      AddAllCons(t, q, es);
      AddCanonStep(t, q, s, es[0]);
      AddAllCanon(t', q, s + {es[0]}, es[1..]);
    }
  }

  /** The entities of `es` added to a set one by one. */
  lemma ElementsCons(s: set<Entity>, es: seq<Entity>)
    ensures es == [] ==> s + Elements(es) == s
    ensures es != [] ==> (s + {es[0]}) + Elements(es[1..]) == s + Elements(es)
  {
    if es != [] {
      assert es == [es[0]] + es[1..];
    }
  }

  /** One step of `AddAllCanon`: the body joins the set the tree is canonical
      for. */
  lemma AddCanonStep(t: Octree, q: Query, s: set<Entity>, e: Entity)
    requires MassInvariant(t, q) && t == Canon(t.pos, t.size, q, s) && Spread(t, q, s)
    requires Leaves(t) == multiset(s)
    requires e in q && Contains(t, q[e].pos) && Apart(t, q, q[e].pos)
    ensures var t' := Add(t, q, e);
            && t' == Canon(t.pos, t.size, q, s + {e}) && Spread(t', q, s + {e})
            && Leaves(t') == multiset(s + {e})
  {
    NotYetIn(t, q, s, e);
    AddCanon(t, q, s, e);
    AddKeepsValid(t, q, e);
    SpreadInsert(Add(t, q, e), q, s, e);
  }

  /** A body the tree keeps away from is none of its entities and shares a
      point with none of them. */
  lemma NotYetIn(t: Octree, q: Query, s: set<Entity>, e: Entity)
    requires Spread(t, q, s) && Leaves(t) == multiset(s) && e in q && Apart(t, q, q[e].pos)
    ensures e !in s && multiset(s + {e}) == multiset(s) + multiset{e}
    ensures forall x :: x in s ==> q[x].pos != q[e].pos
  {
    assert forall x :: x in s ==> x in Leaves(t);
  }

  /** `Spread` takes one more body at a point of its own. */
  lemma SpreadInsert(t: Octree, q: Query, s: set<Entity>, e: Entity)
    requires Spread(t, q, s) && e in q && Contains(t, q[e].pos)
    requires forall x :: x in s ==> q[x].pos != q[e].pos
    ensures Spread(t, q, s + {e})
  {
  }

  /** The entities listed in `es`. */
  ghost function Elements(es: seq<Entity>): set<Entity>
  {
    set e | e in es
  }

  /** Sequences with the same multiset have the same elements. */
  lemma SameElements(es: seq<Entity>, es': seq<Entity>)
    requires multiset(es') == multiset(es)
    ensures Elements(es) == Elements(es')
  {
    assert forall e :: e in es' <==> e in multiset(es');
    assert forall e :: e in es <==> e in multiset(es);
  }

  /** `Scattered` only looks at which entities are to be added. */
  lemma ScatteredPermutation(t: Octree, q: Query, es: seq<Entity>, es': seq<Entity>)
    requires Scattered(t, q, es) && multiset(es') == multiset(es)
    ensures Scattered(t, q, es')
  {
    assert forall e :: e in es' <==> e in multiset(es');
    assert forall e :: e in es <==> e in multiset(es);
  }
}
