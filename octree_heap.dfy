/** `Octree` as the source keeps it: a mutable cube whose eight slots live in
    a fixed-size array, with each branch owning a boxed subtree. `Add`
    updates the slot of the new body's octant in place and recurses into the
    boxed subtree; it is proved to leave the tree equal to what `Octree.Add`
    computes on values. */
module OctreeHeap {
  import opened Geometry
  import CM = CenterOfMass
  import opened Octree
  import Values = Octree
  import opened OctreeAddCases

  /** A slot of the array: `OctNode` with its subtree behind a reference. */
  datatype Slot = Empty | Leaf(entity: Entity) | Branch(com: CM.Com, tree: Tree)

  class Tree {
    const pos: Pos
    const size: nat
    const children: array<Slot>

    /** The value this tree stands for, and the objects it owns. */
    ghost var model: Octree
    ghost var Repr: set<object>

    /** The cube of this tree, without its slots: what `OctantIndex` and
        `ChildOrigin` look at. */
    function Cube(): Octree
    {
      Octree(pos, size, [])
    }

    ghost predicate Valid()
      reads this, Repr
      decreases Repr, 1
    {
      && this in Repr && children in Repr && children.Length == 8
      && model.pos == pos && model.size == size && |model.children| == 8
      && (forall i :: 0 <= i < 8 ==> SlotValid(i))
      && (forall i, j :: 0 <= i < j < 8 && children[i].Branch? && children[j].Branch? ==>
            children[i].tree in Repr && children[j].tree in Repr &&
            children[i].tree.Repr !! children[j].tree.Repr)
    }

    /** Slot `i` holds what slot `i` of the model holds; a boxed subtree is
        owned by this tree alone and is valid itself. */
    ghost predicate SlotValid(i: nat)
      requires this in Repr && children in Repr && children.Length == 8 && |model.children| == 8 && i < 8
      reads this, Repr
      decreases Repr, 0
    {
      match children[i]
      case Empty => model.children[i] == OctNode.Empty
      case Leaf(e) => model.children[i] == OctNode.Leaf(e)
      case Branch(c, t) =>
        && t in Repr && t.Repr <= Repr && this !in t.Repr && children !in t.Repr
        && t.Valid()
        && model.children[i] == OctNode.Branch(c, t.model)
    }

    /** `Octree::new`: a cube with eight empty slots. */
    constructor (pos: Pos, size: nat)
      ensures Valid() && fresh(Repr)
      ensures model == New(pos, size)
    {
      this.pos := pos;
      this.size := size;
      children := new Slot[8](_ => Slot.Empty);
      model := New(pos, size);
      Repr := {this, children};
      new;
      assert forall i :: 0 <= i < 8 ==> model.children[i] in model.children;
    }

    /** `Octree::add`, in place: the tree afterwards is the value `Octree.Add`
        computes from the tree before. Objects it starts to own are new. */
    method Add(q: Query, e: Entity)
      requires Valid() && Placed(model, q)
      requires e in q ==> Contains(model, q[e].pos) && Apart(model, q, q[e].pos)
      modifies Repr
      ensures Valid() && fresh(Repr - old(Repr))
      ensures model == Values.Add(old(model), q, e)
      decreases size, 2
    {
      if e !in q {
        return;
      }
      var idx := OctantIndex(Cube(), q[e].pos);
      assert idx == OctantIndex(model, q[e].pos);
      assert SlotValid(idx);
      match children[idx] {
        case Empty =>
          FillEmpty(q, e, idx);
        case Leaf(prior) =>
          if prior in q {
            SplitLeaf(q, e, idx, prior);
          } else {
            AddIntoStaleLeaf(model, q, e);
          }
        case Branch(_, _) =>
          PassToBranch(q, e, idx);
      }
    }

    /** The `Empty` arm: the slot becomes a leaf of the new body. */
    method FillEmpty(q: Query, e: Entity, idx: nat)
      requires Valid() && Placed(model, q) && e in q
      requires Contains(model, q[e].pos) && Apart(model, q, q[e].pos)
      requires idx == OctantIndex(model, q[e].pos) && children[idx] == Slot.Empty
      modifies Repr
      ensures Valid() && fresh(Repr - old(Repr))
      ensures model == Values.Add(old(model), q, e)
    {
      assert SlotValid(idx);
      children[idx] := Slot.Leaf(e);
      model := model.(children := model.children[idx := OctNode.Leaf(e)]);
      assert SlotValid(idx);
      forall j | 0 <= j < 8 && j != idx
        ensures SlotValid(j)
      {
        assert old(SlotValid(j));
        assert children[j] == old(children[j]);
      }
    }

    /** The `Leaf` arm when the resident body resolves: the slot becomes a
        branch over a new half-size tree holding both bodies. */
    method SplitLeaf(q: Query, e: Entity, idx: nat, prior: Entity)
      requires Valid() && Placed(model, q) && e in q
      requires Contains(model, q[e].pos) && Apart(model, q, q[e].pos)
      requires idx == OctantIndex(model, q[e].pos) && children[idx] == Slot.Leaf(prior) && prior in q
      modifies Repr
      ensures Valid() && fresh(Repr - old(Repr))
      ensures model == Values.Add(old(model), q, e)
      decreases size, 1
    {
      assert SlotValid(idx);
      var tree := NewChild(q, idx, prior, e);
      var com := CM.New(q[prior].pos, q[prior].mass, q[e].pos, q[e].mass);
      children[idx] := Slot.Branch(com, tree);
      model := model.(children := model.children[idx := OctNode.Branch(com, tree.model)]);
      Repr := Repr + tree.Repr;
      assert SlotValid(idx);
      forall j | 0 <= j < 8 && j != idx
        ensures SlotValid(j)
        ensures children[j].Branch? ==> children[j].tree.Repr !! tree.Repr
      {
        assert old(SlotValid(j));
        assert children[j] == old(children[j]);
      }
      AddIntoLeafSplits(old(model), q, e);
    }

    /** The `Branch` arm: the body is folded into the slot's COM in place
        (`COM::add`), then added to the boxed subtree. */
    method PassToBranch(q: Query, e: Entity, idx: nat)
      requires Valid() && Placed(model, q) && e in q
      requires Contains(model, q[e].pos) && Apart(model, q, q[e].pos)
      requires idx == OctantIndex(model, q[e].pos) && children[idx].Branch?
      modifies Repr
      ensures Valid() && fresh(Repr - old(Repr))
      ensures model == Values.Add(old(model), q, e)
      decreases size, 1
    {
      assert SlotValid(idx);
      var com, tree := children[idx].com, children[idx].tree;
      BranchTakes(model, q, e);
      assert model.children[idx] == OctNode.Branch(com, tree.model) && tree.Valid();
      assert tree.model.size == tree.size;
      var p, m := q[e].pos, q[e].mass;
      children[idx] := Slot.Branch(CM.Add(com, p, m), tree);
      tree.Add(q, e);
      model := model.(children := model.children[idx := OctNode.Branch(CM.Add(com, p, m), tree.model)]);
      Repr := Repr + tree.Repr;
      assert SlotValid(idx);
      forall j | 0 <= j < 8 && j != idx
        ensures SlotValid(j)
        ensures children[j].Branch? ==> children[j].tree.Repr !! tree.Repr
        ensures children[j].Branch? ==> children[j].tree.Repr == old(children[j].tree.Repr)
      {
        assert old(SlotValid(j));
        assert children[j] == old(children[j]);
        if children[j].Branch? {
          var u := children[j].tree;
          assert old(u.Repr !! tree.Repr) by {
            if j < idx {
              assert old(children[j].tree.Repr !! children[idx].tree.Repr);
            } else {
              assert old(children[idx].tree.Repr !! children[j].tree.Repr);
            }
          }
          assert old(u.Valid());
          assert u in old(u.Repr);
          UntouchedStillValid(u);
        }
      }
      forall i, j | 0 <= i < j < 8 && i != idx && j != idx && children[i].Branch? && children[j].Branch?
        ensures children[i].tree.Repr !! children[j].tree.Repr
      {
        assert old(children[i].tree.Repr !! children[j].tree.Repr);
      }
      AddIntoBranch(old(model), q, e);
    }

    /** The `Leaf` arm when the resident body resolves: a fresh half-size
        tree for slot `idx` into which the resident body and then the new
        one are added; with `COM::new` of the two it is the branch `Split`
        describes. */
    method NewChild(q: Query, idx: nat, prior: Entity, e: Entity) returns (tree: Tree)
      requires Valid() && Placed(model, q) && idx < 8 && model.children[idx] == OctNode.Leaf(prior)
      requires prior in q && e in q && Contains(model, q[e].pos) && OctantIndex(model, q[e].pos) == idx
      requires Apart(model, q, q[e].pos)
      ensures fresh(tree.Repr) && tree.Valid()
      ensures OctNode.Branch(CM.New(q[prior].pos, q[prior].mass, q[e].pos, q[e].mass), tree.model)
              == Split(model, q, idx, prior, e)
      decreases size, 0
    {
      SplitSteps(model, q, idx, prior, e);
      assert ChildOrigin(Cube(), idx) == ChildOrigin(model, idx);
      tree := new Tree(ChildOrigin(Cube(), idx), size / 2);
      tree.Add(q, prior);
      tree.Add(q, e);
    }
  
    /** A tree none of whose objects changed is still valid and stands for
        the same value. */
    static twostate lemma UntouchedStillValid(u: Tree)
      requires old(u.Valid())
      requires forall o :: o in old(u.Repr) ==> unchanged(o)
      ensures u.Valid() && u.Repr == old(u.Repr) && u.model == old(u.model)
    {
    }
  }
}
