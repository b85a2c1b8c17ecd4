# Octree of colonize, modelled in Dafny

colonize is a Bevy-based n-body simulation. It groups its bodies in an
octree. Each node of the tree is a cube with eight slots, one per octant. A
slot is `Empty`, a `Leaf` holding one body entity, or a `Branch` holding a
half-size subtree together with the centre-of-mass accumulator (`COM`) of
everything added beneath it. `Octree::add` files a body into the slot of its
octant:

- an empty slot becomes a leaf;
- an occupied leaf is split into a branch whose subtree receives the old body
  and then the new one;
- a branch folds the body into its `COM` and recurses.

Body positions and masses come from an ECS lookup (`Query`), and a lookup
may fail.

The model:

- **Geometry** (`geometry.dfy`): positions are points of an integer lattice
  (`Pos`). Every coordinate and size is twice the one the repository writes,
  so the half units of its tests become whole units. Cube sizes are powers of
  two. Masses and mass-weighted sums are reals (`Vec3`).
- **Centre of mass** (`center_of_mass.dfy`): `COM` is `Com(sum, mass)`.
  `COM::ZERO`, `COM::new`, `COM::add` and `COM::com` are modelled as
  functions, with their algebra: commutation, associativity and symmetry.
- **The tree as a value** (`octree.dfy`): `Octree`, `OctNode`, `Octree::new`,
  `contains`, the octant index, the child cubes, and `Octree::add` as a pure
  function `Add`. A Bevy query is a `map<Entity, Body>`, and a failed
  `query.get` is a key missing from that map. `Add`'s contract says the cube
  is unchanged and every leaf stays in its own octant. The body is filed
  exactly once, unless a stale leaf on its path makes the source drop it.
- **Each arm of `add`** (`octree_add_cases.dfy`): one lemma per arm gives the
  exact tree it produces.
- **The mass invariant** (`octree_invariant.dfy`): every branch's `COM`
  equals the aggregate of the bodies of the leaves beneath it, and `Add`
  preserves this whenever every lookup resolves. The aggregate is `COM::ZERO`
  with every body folded in by `COM::add`. When a leaf deeper down does not
  resolve, `add` has already folded the body into the branch's `COM` before
  it recurses. The invariant then breaks, and a lemma shows that it does.
- **The tree in place** (`octree_heap.dfy`): the class `Tree` keeps its eight
  slots in an array, with each branch owning a boxed subtree. Its `Add`
  changes that array in place, in the source's order: it first updates the
  slot's `COM`, then recurses. It is proved to leave the tree equal to what
  the value-level `Add` computes.
- **`build_tree`** (`octree_build.dfy`): the repository's test system that
  adds every body of the query. It is a loop over a sequence of entities
  calling the in-place `Add`, specified by `AddAll`, the value-level fold.
  The built tree, and so its aggregate, does not depend on the order of the
  bodies.
- **Canonical trees** (`octree_canonical.dfy`): `Canon` builds the tree of a
  set of bodies directly. An octant holding no body is `Empty`, one body is a
  `Leaf`, and two or more are a `Branch` whose `COM` is their aggregate, over
  the half cube built the same way. `add` of a body takes the canonical tree
  of a set to the canonical tree of the set with that body. So a tree built
  from a new cube is the canonical tree of its bodies, whatever order they
  arrive in.
- **Equality** (`octree_eq.dfy`): the hand-written `PartialEq` of `Octree`
  and `COM` and the derived one of `OctNode`, proved to be structural
  equality.
- **Tests** (`octree_eq.dfy` and `octree_tests.dfy`): the `tree_eq`,
  `depth_1`, `depth_2` and `depth_3` tests, restated on the doubled lattice
  and proved.

## Model

| member | source | states |
|---|---|---|
| Octree.New | src/octree.rs:20-22 | `Octree::new` gives the requested cube with eight `Empty` slots. It holds no leaves, and it is well placed for every lookup when its size is a power of two. |
| Octree.ContainsHalfOpen | src/octree.rs:23-27 | `contains` is half-open on every axis. A contained point moved onto a lower face of the cube is still contained, and no point on an upper face is contained. |
| Octree.ChildOrigin | src/octree.rs:41 | The origin `Vec3::select(bvec, offset, pos)` of the half cube of slot `i` lies in the parent cube, and its octant index is `i`. |
| Octree.OctantIndex | src/octree.rs:31-34 | The index is below 8. Bit 0 is set exactly when x is at or past the midpoint, bit 1 likewise for y, and bit 2 for z. |
| Octree.ChildPartition | src/octree.rs:23-34 | A point lies in the half-open cube of slot `i` (origin `Vec3::select(bvec, offset, pos)`, size `sub_size`) exactly when it lies in the parent and its octant index is `i`, so the eight children partition the parent. |
| Octree.Add | src/octree.rs:29-53 | `add` keeps the cube and keeps every leaf inside its own octant. An entity that does not resolve leaves the tree unchanged. Otherwise the tree gains exactly that entity, or gains nothing only when some leaf in it does not resolve. |
| Octree.Split | src/octree.rs:38-46 | Splitting a leaf yields a `Branch` whose `COM` is `COM::new` of the old and new bodies. Its half-size subtree holds exactly those two leaves and fits the slot. |
| Octree.SplitRoom | src/octree.rs:31-41 | When a resolved leaf and a new body at a different position share an octant, the cube has room to halve. The half cube of that octant is well placed and contains both bodies. |
| CenterOfMass.Zero | src/octree.rs:69 | `COM::ZERO` has mass zero, and adding one body to it gives exactly that body's own accumulator. |
| CenterOfMass.Add | src/octree.rs:76-79 | `COM::add` merges the body's contribution into the accumulator, and the mass grows by exactly the body's mass. |
| CenterOfMass.New | src/octree.rs:69-72 | `COM::new(p1, m1, p2, m2)` equals `COM::ZERO` with both bodies added in turn. |
| CenterOfMass.Centre | src/octree.rs:73-75 | `COM::com` returns the mass, and a centre that times the mass gives back the weighted sum on every axis. |
| CenterOfMass.NewSymmetric | src/octree.rs:70-72 | `COM::new` does not depend on the order of its two bodies. |
| CenterOfMass.MergeZero | src/octree.rs:69 | `COM::ZERO` is neutral for merging accumulators. |
| CenterOfMass.MergeCommutes | src/octree.rs:76-79 | Merging accumulators commutes. |
| CenterOfMass.MergeAssociates | src/octree.rs:76-79 | Merging accumulators associates. |
| CenterOfMass.AddCommutes | src/octree.rs:76-79 | Two `COM::add` calls give the same accumulator in either order. |
| CenterOfMass.CentreOfEqualPair | src/octree.rs:70-75 | The centre of two equal masses is the midpoint of their positions. |
| OctreeInvariant.AddEntity | src/octree.rs:30 | Folding an entity adds its mass when it resolves and changes nothing when it does not. |
| OctreeInvariant.AddEntityCommutes | src/octree.rs:76-79 | Folding two entities commutes. |
| OctreeInvariant.TotalInsert | src/octree.rs:76-79 | The aggregate of a multiset with one more entity is the old aggregate with that entity folded in. |
| OctreeInvariant.TotalInsertSwap | src/octree.rs:76-79 | Folding the element `x` last or the inserted `e` last gives the same aggregate. |
| OctreeInvariant.TotalMerge | src/octree.rs:76-79 | The aggregate of the union of two multisets of entities is the merge of their aggregates, which ties `Merge` to the accumulators `add` builds. |
| OctreeInvariant.TotalOfPair | src/octree.rs:70-72 | The aggregate of two resolvable entities is `COM::new` of their bodies. |
| OctreeInvariant.NewValid | src/octree.rs:20-22 | A new power-of-two cube satisfies the mass invariant, and its aggregate is `COM::ZERO`. |
| OctreeInvariant.AddKeepsValid | src/octree.rs:29-53 | Adding a resolvable, contained body at a fresh position keeps the mass invariant. The tree gains exactly that leaf, and its aggregate is the old one with `COM::add` of the body. |
| OctreeInvariant.AddIntoEmptyValid | src/octree.rs:37 | The `Empty` arm keeps the mass invariant and adds the leaf. |
| OctreeInvariant.AddIntoLeafValid | src/octree.rs:38-46 | The `Leaf` arm keeps the mass invariant and adds the leaf. |
| OctreeInvariant.AddIntoBranchValid | src/octree.rs:47-50 | The `Branch` arm keeps the mass invariant and adds the leaf. |
| OctreeInvariant.SplitValid | src/octree.rs:40-44 | The branch made by a split stores exactly the aggregate of its two leaves, and its subtree is exact. |
| OctreeAddCases.AddIntoEmpty | src/octree.rs:37 | An `Empty` slot becomes `Leaf(new)`, and every other slot is unchanged. |
| OctreeAddCases.AddIntoLeaf | src/octree.rs:38-46 | A resolvable `Leaf` slot becomes a `Branch` with `COM::new(old, new)` over a cube of half the size that holds exactly the two leaves. The other slots are unchanged. |
| OctreeAddCases.AddIntoLeafSplits | src/octree.rs:39-44 | The tree after the `Leaf` arm is the old tree with that slot replaced by the split branch. |
| OctreeAddCases.SplitSteps | src/octree.rs:41-43 | The new sub-cube can take the old body, and then the new one. The split branch is `COM::new` over the sub-cube after both additions. |
| OctreeAddCases.AddIntoStaleLeaf | src/octree.rs:39 | When the resident body does not resolve, the whole tree is unchanged and the new body is dropped. |
| OctreeAddCases.AddIntoBranch | src/octree.rs:47-50 | A `Branch` slot gets `COM::add` of the new body, and its subtree becomes the subtree with the body added. The other slots are unchanged. |
| OctreeAddCases.BranchTakes | src/octree.rs:47-49 | The subtree of the branch in the body's octant is half the size, is well placed, contains the body, and keeps it apart from its leaves. |
| OctreeAddCases.DroppedBodyStillCounted | src/octree.rs:39-50 | When a body reaches a branch but a stale leaf further down drops it, the branch's `COM` still counts it, so the mass invariant no longer holds. |
| OctreeBuild.AddAll | src/octree.rs:124-128 | Adding a list of scattered bodies in turn keeps the invariant and the cube, and the tree gains exactly those leaves. |
| OctreeBuild.AddFirst | src/octree.rs:125-126 | After the first body is added, the rest can still be added, and the leaves accounted so far are unchanged. |
| OctreeBuild.AddAllCons | src/octree.rs:125-126 | Building from a list means adding its head, then building from its tail. |
| OctreeBuild.ScatteredAfterAdd | src/octree.rs:125-126 | Once the head is a leaf, the remaining bodies still lie apart from every leaf. |
| OctreeBuild.AddAllTotal | src/octree.rs:124-128 | The aggregate of the built tree is the starting aggregate with every body folded in, in list order. |
| OctreeBuild.BuildTree | src/octree.rs:124-128 | The loop of `build_tree`, calling the in-place `add` for each body, leaves the tree equal to `AddAll` of the bodies and still valid. |
| OctreeBuild.BuildFromEmpty | src/octree.rs:124-128 | A tree built from a new cube holds every body once, and its aggregate is `COM::ZERO` with every body added. The tree and its aggregate do not depend on the order in which the query yields the bodies. |
| OctreeBuild.BuildOrderFree | src/octree.rs:124-128 | Any two orders of the same scattered bodies, added to a new cube, build the same tree. |
| OctreeBuild.BuildCanon | src/octree.rs:124-128 | A tree built from a new cube is the canonical tree of the set of bodies added. |
| OctreeBuild.AddAllCanon | src/octree.rs:125-126 | Adding a list of bodies to the canonical tree of a set gives the canonical tree of that set together with the listed bodies. |
| OctreeBuild.AddCanonStep | src/octree.rs:126 | One `add` takes the canonical tree of a set to the canonical tree of the set with the new body. The bodies stay inside the cube at distinct points, and the leaves are the new set. |
| OctreeBuild.ScatteredPermutation | src/octree.rs:125 | Whether the bodies can be added does not depend on their order. |
| OctreeCanonical.CanonOfNone | src/octree.rs:20-22 | The canonical tree of no bodies is `Octree::new`. |
| OctreeCanonical.CanonInsert | src/octree.rs:31-35 | One more body changes only the slot of its own octant, and the set of bodies of that octant grows by exactly that body. |
| OctreeCanonical.AddCanon | src/octree.rs:29-53 | `add` of a body inside the cube, at a point of its own, takes the canonical tree of a set of bodies to the canonical tree of the set with that body. |
| OctreeCanonical.AddCanonEmpty | src/octree.rs:37 | When the body's octant holds no body, `add` writes the canonical slot, a leaf of the body. |
| OctreeCanonical.AddCanonLeaf | src/octree.rs:38-46 | When the body's octant holds one body, the split writes the canonical slot: a branch over the canonical half cube of the two bodies. |
| OctreeCanonical.LeafPair | src/octree.rs:41-43 | Adding the old body and then the new one to the new half cube gives the canonical tree of the two. |
| OctreeCanonical.LeafSplitSlot | src/octree.rs:40-44 | The branch with `COM::new` of the two bodies over their canonical half cube is the canonical slot of the octant. |
| OctreeCanonical.AddCanonBranch | src/octree.rs:47-50 | When the body's octant holds two bodies or more, `COM::add` and the recursive `add` write the canonical slot of the octant with the body. |
| OctreeCanonical.BranchSlot | src/octree.rs:47-49 | A branch holding the octant's aggregate with the body added, over the canonical half cube of the octant's bodies and the new one, is the canonical slot. |
| OctreeCanonical.SubSpread | src/octree.rs:31-41 | The bodies that fall in octant `i` lie in the half cube of slot `i`. |
| OctreeEq.ComEq | src/octree.rs:82-86 | The `PartialEq` of `COM` holds exactly when the two accumulators are equal. |
| OctreeEq.NodeEq | src/octree.rs:11-17 | The derived `PartialEq` of `OctNode` holds exactly when the nodes are equal. |
| OctreeEq.TreeEq | src/octree.rs:56-60 | The `PartialEq` of `Octree` holds exactly when the trees are equal. |
| OctreeEq.SlotsEq | src/octree.rs:58 | Slot arrays compare equal exactly when they are equal. |
| OctreeEq.TreeEqTest | src/octree.rs:92-111 | `tree_eq`: two new cubes are equal. A cube with a branch in slot 7 differs from a new cube. Two such cubes are equal. |
| OctreeHeap.Tree.constructor | src/octree.rs:20-22 | `Octree::new` in place: a fresh valid tree whose value is `New(pos, size)`. |
| OctreeHeap.Tree.Add | src/octree.rs:29-53 | In-place `add` keeps the tree valid and leaves it equal to the value-level `Add` of the old tree. The only objects it starts to own are new ones. |
| OctreeHeap.Tree.FillEmpty | src/octree.rs:37 | Writing `Leaf(new)` into the empty slot gives the value-level `Add`. |
| OctreeHeap.Tree.SplitLeaf | src/octree.rs:38-46 | Boxing a new subtree under `COM::new` in the leaf's slot gives the value-level `Add`. |
| OctreeHeap.Tree.PassToBranch | src/octree.rs:47-50 | Updating the slot's `COM` in place and then recursing into the boxed subtree gives the value-level `Add`. |
| OctreeHeap.Tree.NewChild | src/octree.rs:40-43 | A fresh half-size tree into which the old and the new body are added is the subtree of the split branch. |
| OctreeTests.Depth1 | src/octree.rs:129-156 | `depth_1`: the three bodies land as leaves in slots 1, 2 and 4 of the cube. |
| OctreeTests.Depth2 | src/octree.rs:157-199 | `depth_2`: the second body splits slot 2 into a branch with mass 2 and sum (1, 4, 0) on the doubled lattice (the test's (0.5, 2, 0)), over the unit cube at `Vec3::Y` holding both leaves. |
| OctreeTests.Depth2Com | src/octree.rs:171 | `COM::new` of the two `depth_2` bodies is the expected accumulator. |
| OctreeTests.Depth3 | src/octree.rs:200-258 | `depth_3`: two levels of branches, in slot 0 and then in slot 6, each with mass 2 and sum (1, 4, 4) on the doubled lattice (the test's (0.5, 2, 2)), over the unit cube at (0, 1, 1) holding both leaves. |
| OctreeTests.Depth3Com | src/octree.rs:212-224 | `COM::new` of the two `depth_3` bodies is the expected accumulator. |

## Left out

- f32 arithmetic. Positions are exact points of the doubled integer lattice, and masses and sums are exact reals, so rounding in `COM` sums and in the midpoint comparison is not modelled.
- Octree.Add: requires that the body lies inside the cube and sits at a position no resolvable leaf occupies. The source does not check bounds (a TODO notes this). A body outside the cube is filed into whichever octant its comparisons select. Two bodies at the same position make the source split without end.
- Octree.Add: requires cube sizes that are powers of two on the lattice. The source accepts any `f32` size.
- OctreeHeap.Tree.Add: has the same preconditions as the value-level `Add`.
- CenterOfMass.Centre: requires a positive mass. The source divides by the mass and would give infinities or NaN for `COM::ZERO`.
- The Bevy `App`, `World`, `Query`, `Resource` and `Transform`. A query is a map from entities to a position and a mass. Entities are natural numbers. The order in which the query yields bodies is a parameter (`es`) of `build_tree`.
- `build_body` and the entity spawning of the tests. Each test takes any distinct entities whose bodies are those the test spawns.
- The `Debug` derives. The `Default` of `OctNode` appears only as the `Empty` slots of `New`.
- body.rs (the body component and its RK4 integrator), the camera, main, and the bounding-volume hierarchy. They are not part of this model.
