/** The octree spatial index of `src/octree.rs`: a cube (`pos`, `size`) with
    eight child slots, each `Empty`, a `Leaf` holding one body, or a `Branch`
    holding a half-size subtree and the centre-of-mass aggregate of the bodies
    beneath it. Bodies are added one at a time with `Add`.

    This module gives the tree as values: `Add` returns the new tree. The class
    in module `OctreeHeap` updates a tree in place and is proved to agree with
    this `Add`. */
module Octree {
  import opened Geometry
  import CM = CenterOfMass

  /** An opaque handle to a body. */
  type Entity = nat

  /** What looking up an entity yields: its position and its mass. */
  datatype Body = Body(pos: Pos, mass: real)

  /** The body lookup the tree is given on every `Add`; an entity that is not
      a key does not resolve. */
  type Query = map<Entity, Body>

  datatype OctNode = Empty | Leaf(entity: Entity) | Branch(com: CM.Com, tree: Octree)

  /** `children` always has eight elements; slot `i` covers octant `i`. */
  datatype Octree = Octree(pos: Pos, size: nat, children: seq<OctNode>)

  /** The sizes the model allows: halving a power of two stays on the lattice
      until the unit cube, which holds only one lattice point. */
  predicate IsPow2(n: nat)
  {
    n == 1 || (n >= 2 && n % 2 == 0 && IsPow2(n / 2))
  }

  /** `Octree::new`: a cube with eight empty slots. */
  function New(pos: Pos, size: nat): (r: Octree)
    ensures r.pos == pos && r.size == size && |r.children| == 8
    ensures forall n :: n in r.children ==> n == Empty
    ensures Leaves(r) == multiset{}
    ensures IsPow2(size) ==> forall q :: Placed(r, q)
  {
    var r := Octree(pos, size, [Empty, Empty, Empty, Empty, Empty, Empty, Empty, Empty]);
    assert Leaves(r) == multiset{} by {
      assert r.children[1..][1..][1..][1..][1..][1..][1..][1..] == [];
    }
    r
  }

  /** `Octree::contains`: half-open on every axis, so a body on a face shared
      by two cubes belongs to exactly one of them. */
  predicate Contains(t: Octree, p: Pos)
  {
    && t.pos.x <= p.x < t.pos.x + t.size
    && t.pos.y <= p.y < t.pos.y + t.size
    && t.pos.z <= p.z < t.pos.z + t.size
  }

  /** `contains` is half-open: moving a point of the cube onto a lower face
      keeps it inside, and no point of an upper face is inside. */
  lemma ContainsHalfOpen(t: Octree, p: Pos)
    ensures Contains(t, p) ==> Contains(t, Pos(t.pos.x, p.y, p.z))
    ensures Contains(t, p) ==> Contains(t, Pos(p.x, t.pos.y, p.z))
    ensures Contains(t, p) ==> Contains(t, Pos(p.x, p.y, t.pos.z))
    ensures !Contains(t, Pos(t.pos.x + t.size, p.y, p.z))
    ensures !Contains(t, Pos(p.x, t.pos.y + t.size, p.z))
    ensures !Contains(t, Pos(p.x, p.y, t.pos.z + t.size))
  {
  }

  /** The slot a body at `p` goes to: bit 0 is set when `p.x` is at or above
      the midpoint `pos.x + size / 2`, bit 1 likewise for y, bit 2 for z.
      The comparison is written doubled so that it is exact for odd sizes. */
  function OctantIndex(t: Octree, p: Pos): (i: nat)
    ensures i < 8
    ensures i % 2 == 1 <==> 2 * p.x >= 2 * t.pos.x + t.size
    ensures i / 2 % 2 == 1 <==> 2 * p.y >= 2 * t.pos.y + t.size
    ensures i / 4 == 1 <==> 2 * p.z >= 2 * t.pos.z + t.size
  {
    (if 2 * p.x >= 2 * t.pos.x + t.size then 1 else 0)
    + (if 2 * p.y >= 2 * t.pos.y + t.size then 2 else 0)
    + (if 2 * p.z >= 2 * t.pos.z + t.size then 4 else 0)
  }

  /** The origin of the half-size cube of slot `i`: the parent's origin,
      moved by half the size along every axis whose bit is set in `i`. */
  function ChildOrigin(t: Octree, i: nat): (r: Pos)
    requires i < 8 && t.size % 2 == 0
    ensures t.size > 0 ==> Contains(t, r) && OctantIndex(t, r) == i
  {
    var h := t.size / 2;
    Pos(t.pos.x + (if i % 2 == 1 then h else 0),
        t.pos.y + (if i / 2 % 2 == 1 then h else 0),
        t.pos.z + (if i / 4 == 1 then h else 0))
  }

  /** The cube of slot `i` holds exactly the points of the parent whose
      octant index is `i`: the eight child cubes partition the parent. */
  lemma ChildPartition(t: Octree, sub: Octree, i: nat, p: Pos)
    requires i < 8 && t.size % 2 == 0
    requires sub.pos == ChildOrigin(t, i) && sub.size == t.size / 2
    ensures Contains(sub, p) <==> Contains(t, p) && OctantIndex(t, p) == i
  {
  }

  /** The entities held by the leaves of a tree, one occurrence per leaf. */
  ghost function Leaves(t: Octree): multiset<Entity>
    decreases t, 1
  {
    SlotLeaves(t.children)
  }

  ghost function SlotLeaves(cs: seq<OctNode>): multiset<Entity>
    decreases cs
  {
    if cs == [] then multiset{} else NodeLeaves(cs[0]) + SlotLeaves(cs[1..])
  }

  ghost function NodeLeaves(n: OctNode): multiset<Entity>
    decreases n
  {
    match n
    case Empty => multiset{}
    case Leaf(e) => multiset{e}
    case Branch(_, sub) => Leaves(sub)
  }

  /** Every leaf's entity resolves in `q`. */
  ghost predicate Resolved(t: Octree, q: Query)
  {
    forall e :: e in Leaves(t) ==> e in q
  }

  /** No resolvable leaf of `t` is at `p`. */
  ghost predicate Apart(t: Octree, q: Query, p: Pos)
  {
    forall e :: e in Leaves(t) && e in q ==> q[e].pos != p
  }

  /** The shape invariant: eight slots, a power-of-two size, every resolvable
      leaf inside the octant of its slot, every branch's subtree the half-size
      cube of its slot. */
  ghost predicate Placed(t: Octree, q: Query)
    decreases t, 1
  {
    && IsPow2(t.size)
    && |t.children| == 8
    && forall i :: 0 <= i < 8 ==> Fits(t, i, t.children[i], q)
  }

  /** Node `n` may stand in slot `i` of the cube of `t`. */
  ghost predicate Fits(t: Octree, i: nat, n: OctNode, q: Query)
    decreases n
  {
    match n
    case Empty => true
    case Leaf(e) => e in q ==> Contains(t, q[e].pos) && OctantIndex(t, q[e].pos) == i
    case Branch(_, sub) =>
      && i < 8 && t.size >= 2 && t.size % 2 == 0
      && sub.pos == ChildOrigin(t, i) && sub.size == t.size / 2
      && Placed(sub, q)
  }

  /** `Octree::add`. A body that does not resolve is skipped. Otherwise the
      slot of its octant is updated: an `Empty` slot becomes a leaf; a `Leaf`
      slot whose body resolves becomes a branch over a half-size cube into
      which both bodies are added, and is left alone when that body does not
      resolve; a `Branch` slot folds the body into its COM and recurses.

      The source neither checks that the body lies in the cube nor stops when
      two bodies share a position; the model asks for both. */
  function Add(t: Octree, q: Query, e: Entity): (r: Octree)
    requires Placed(t, q)
    requires e in q ==> Contains(t, q[e].pos) && Apart(t, q, q[e].pos)
    ensures r.pos == t.pos && r.size == t.size
    ensures Placed(r, q)
    ensures e !in q ==> r == t
    ensures Leaves(r) == Leaves(t) || Leaves(r) == Leaves(t) + multiset{e}
    ensures e in q && Leaves(r) == Leaves(t) ==> exists l :: l in Leaves(t) && l !in q
    decreases t.size, 1
  {
    if e !in q then t
    else
      var p := q[e].pos;
      var idx := OctantIndex(t, p);
      assert Fits(t, idx, t.children[idx], q);
      match t.children[idx]
      case Empty =>
        var n := Leaf(e);
        Replace(t, q, idx, n, multiset{e});
        t.(children := t.children[idx := n])
      case Leaf(prior) =>
        if prior !in q then
          SlotInLeaves(t.children, idx);
          t
        else
          var n := Split(t, q, idx, prior, e);
          Replace(t, q, idx, n, multiset{e});
          t.(children := t.children[idx := n])
      case Branch(com, sub) =>
        SlotInLeaves(t.children, idx);
        ChildPartition(t, sub, idx, p);
        var sub' := Add(sub, q, e);
        var n := Branch(CM.Add(com, p, q[e].mass), sub');
        Replace(t, q, idx, n, if Leaves(sub') == Leaves(sub) then multiset{} else multiset{e});
        t.(children := t.children[idx := n])
  }

  /** The `Leaf` arm of `Add` when both bodies resolve: a branch whose COM
      holds both bodies, over the half-size cube of slot `idx`, into which the
      resident body and then the new one are added. */
  function Split(t: Octree, q: Query, idx: nat, prior: Entity, e: Entity): (n: OctNode)
    requires Placed(t, q) && idx < 8 && t.children[idx] == Leaf(prior)
    requires prior in q && e in q && Contains(t, q[e].pos) && OctantIndex(t, q[e].pos) == idx
    requires Apart(t, q, q[e].pos)
    ensures n.Branch? && n.com == CM.New(q[prior].pos, q[prior].mass, q[e].pos, q[e].mass)
    ensures Fits(t, idx, n, q)
    ensures Leaves(n.tree) == multiset{prior, e}
    decreases t.size, 0
  {
    var p := q[e].pos;
    SplitRoom(t, q, idx, prior, e);
    var cube := New(ChildOrigin(t, idx), t.size / 2);
    var sub1 := Add(cube, q, prior);
    assert Leaves(sub1) == multiset{prior};
    var sub2 := Add(sub1, q, e);
    assert Leaves(sub2) == multiset{prior} + multiset{e};
    Branch(CM.New(q[prior].pos, q[prior].mass, p, q[e].mass), sub2)
  }

  /** Before a `Leaf` slot is split: the two bodies are at different
      points of the slot's half-size cube, which stays on the lattice. */
  lemma SplitRoom(t: Octree, q: Query, idx: nat, prior: Entity, e: Entity)
    requires Placed(t, q) && idx < 8 && t.children[idx] == Leaf(prior)
    requires prior in q && e in q && Contains(t, q[e].pos) && OctantIndex(t, q[e].pos) == idx
    requires Apart(t, q, q[e].pos)
    ensures t.size >= 2 && t.size % 2 == 0 && IsPow2(t.size / 2)
    ensures var cube := New(ChildOrigin(t, idx), t.size / 2);
            Placed(cube, q) && Contains(cube, q[prior].pos) && Contains(cube, q[e].pos)
    ensures q[prior].pos != q[e].pos
  {
    assert Fits(t, idx, t.children[idx], q);
    SlotInLeaves(t.children, idx);
    RoomToSplit(t, q[prior].pos, q[e].pos);
    var cube := New(ChildOrigin(t, idx), t.size / 2);
    ChildPartition(t, cube, idx, q[prior].pos);
    ChildPartition(t, cube, idx, q[e].pos);
  }

  /** Replacing slot `i` of a placed tree by a node placed for that slot,
      whose leaves are the old slot's plus `added`. */
  lemma Replace(t: Octree, q: Query, i: nat, n: OctNode, added: multiset<Entity>)
    requires Placed(t, q) && i < 8
    requires Fits(t, i, n, q)
    requires NodeLeaves(n) == NodeLeaves(t.children[i]) + added
    ensures Placed(t.(children := t.children[i := n]), q)
    ensures Leaves(t.(children := t.children[i := n])) == Leaves(t) + added
  {
    PlacedAfterUpdate(t, i, n, q);
    SlotLeavesUpdate(t.children, i, n);
    CancelRight(Leaves(t.(children := t.children[i := n])), Leaves(t) + added, NodeLeaves(t.children[i]));
  }

  /** The leaves of a tree are those of its eight slots. */
  lemma LeavesOfEight(t: Octree)
    requires |t.children| == 8
    ensures var c := t.children;
            Leaves(t) == NodeLeaves(c[0]) + NodeLeaves(c[1]) + NodeLeaves(c[2]) + NodeLeaves(c[3])
                       + NodeLeaves(c[4]) + NodeLeaves(c[5]) + NodeLeaves(c[6]) + NodeLeaves(c[7])
  {
    var c := t.children;
    assert SlotLeaves(c[7..]) == NodeLeaves(c[7]) by { assert c[7..][1..] == []; }
    assert SlotLeaves(c[6..]) == NodeLeaves(c[6]) + NodeLeaves(c[7]) by { assert c[6..][1..] == c[7..]; }
    assert SlotLeaves(c[5..]) == NodeLeaves(c[5]) + NodeLeaves(c[6]) + NodeLeaves(c[7]) by { assert c[5..][1..] == c[6..]; }
    assert SlotLeaves(c[4..]) == NodeLeaves(c[4]) + SlotLeaves(c[5..]) by { assert c[4..][1..] == c[5..]; }
    assert SlotLeaves(c[3..]) == NodeLeaves(c[3]) + SlotLeaves(c[4..]) by { assert c[3..][1..] == c[4..]; }
    assert SlotLeaves(c[2..]) == NodeLeaves(c[2]) + SlotLeaves(c[3..]) by { assert c[2..][1..] == c[3..]; }
    assert SlotLeaves(c[1..]) == NodeLeaves(c[1]) + SlotLeaves(c[2..]) by { assert c[1..][1..] == c[2..]; }
    assert c[0..] == c;
  }

  lemma SlotInLeaves(cs: seq<OctNode>, i: nat)
    requires i < |cs|
    ensures NodeLeaves(cs[i]) <= SlotLeaves(cs)
  {
    SlotLeavesUpdate(cs, i, cs[i]);
  }

  lemma CancelRight(a: multiset<Entity>, b: multiset<Entity>, x: multiset<Entity>)
    requires a + x == b + x
    ensures a == b
  {
    assert forall y :: a[y] == (a + x)[y] - x[y] && b[y] == (b + x)[y] - x[y];
  }

  lemma CancelLeft(x: multiset<Entity>, a: multiset<Entity>, b: multiset<Entity>)
    requires x + a == x + b
    ensures a == b
  {
    assert forall y :: a[y] == (x + a)[y] - x[y] && b[y] == (x + b)[y] - x[y];
  }

  /** Two different lattice points in one placed cube: the cube is at least
      two units wide, so it can be halved without leaving the lattice. */
  lemma RoomToSplit(t: Octree, a: Pos, b: Pos)
    requires IsPow2(t.size) && Contains(t, a) && Contains(t, b) && a != b
    ensures t.size >= 2 && t.size % 2 == 0 && IsPow2(t.size / 2)
  {
  }

  /** Replacing slot `i` by `n` removes that slot's leaves and adds `n`'s. */
  lemma {:induction false} SlotLeavesUpdate(cs: seq<OctNode>, i: nat, n: OctNode)
    requires i < |cs|
    ensures SlotLeaves(cs[i := n]) + NodeLeaves(cs[i]) == SlotLeaves(cs) + NodeLeaves(n)
    ensures NodeLeaves(cs[i]) <= SlotLeaves(cs)
  {
    var us := cs[i := n];
    if i == 0 {
      assert us[1..] == cs[1..];
      assert SlotLeaves(us) == NodeLeaves(n) + SlotLeaves(cs[1..]);
    } else {
      var rest := cs[1..];
      SlotLeavesUpdate(rest, i - 1, n);
      assert us[1..] == rest[i - 1 := n];
      assert us[0] == cs[0] && rest[i - 1] == cs[i];
      calc {
        SlotLeaves(us) + NodeLeaves(cs[i]);
        NodeLeaves(cs[0]) + SlotLeaves(rest[i - 1 := n]) + NodeLeaves(rest[i - 1]);
        NodeLeaves(cs[0]) + (SlotLeaves(rest[i - 1 := n]) + NodeLeaves(rest[i - 1]));
        NodeLeaves(cs[0]) + (SlotLeaves(rest) + NodeLeaves(n));
        SlotLeaves(cs) + NodeLeaves(n);
      }
    }
  }

  /** Replacing one slot of a placed tree by a node that fits that slot
      keeps the tree placed. */
  lemma PlacedAfterUpdate(t: Octree, i: nat, n: OctNode, q: Query)
    requires Placed(t, q) && i < 8 && Fits(t, i, n, q)
    ensures Placed(t.(children := t.children[i := n]), q)
  {
    var r := t.(children := t.children[i := n]);
    forall j | 0 <= j < 8
      ensures Fits(r, j, r.children[j], q)
    {
      if j != i {
        assert Fits(t, j, t.children[j], q);
        FitsFrame(t, r, j, t.children[j], q);
      } else {
        FitsFrame(t, r, j, n, q);
      }
    }
    assert Placed(r, q);
  }

  /** Whether a node fits a slot depends only on the cube, not on the other slots. */
  lemma FitsFrame(t: Octree, r: Octree, j: nat, n: OctNode, q: Query)
    requires r.pos == t.pos && r.size == t.size
    ensures Fits(r, j, n, q) == Fits(t, j, n, q)
  {
  }
}
