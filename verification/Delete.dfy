/**
 * delete_entry, adjust_root, coalesce_nodes and distribute_nodes: the cascade of borrowing and merging up to
 * the root.
 */
module Delete {
  import opened Keys
  import opened BPlusNode
  import opened Buffers
  import opened NodeOps
  import opened HeapOps
  import opened TreeModel
  import opened InOrder
  import opened InsertProofs
  import opened Insert
  import opened Search
  import opened LeafProofs
  import opened DeleteProofs
  import opened MergeProofs
  import opened ShareSteps

  /** The heap stands for a tree with the bindings of the walk `s`, or for none if there are no bindings left. */
  ghost predicate Outcome(H: Heap, root: Node?, r: Option<Tree>, s: seq<Item>, top: nat) {
    match r
    case None => root == null && Entries(s) == [] && top == 0
    case Some(t) =>
      root == t.id && Proper(H, t) && Entries(Items(t)) == Entries(s) && Height(t) <= top <= Height(t) + 1
  }

  /** The order and the leaf chain that go with `t` below `c`. */
  ghost predicate Ordered(H: Heap, c: Ctx, t: Tree) {
    Sorted(Around(c, t)) && Chained(H, Leaves(Around(c, t)))
  }

  /** adjust_root. */
  method AdjustRoot(root: Node, ghost R: set<object>, ghost S: set<Node>, ghost t: Tree, ghost h: nat)
    returns (newRoot: Node?, ghost r: Option<Tree>)
    requires Owns(R, S) && Deficient(Snap(R, S), Top, t, h) && root == t.id && Ordered(Snap(R, S), Top, t)
    modifies R
    ensures Outcome(Snap(R, S), newRoot, r, Around(Top, t), CtxHeight(Top, h))
  {
    ghost var H := Snap(R, S);
    RootNode(H, t, h);
    if root.numKeys > 0 {
      StillFull(H, Top, t, h);
      return root, Some(t);
    }
    if !root.isLeaf {
      RootGivesWay(H, H, t, h);
      assert H[root].ptrs[0] == Child(t.kids[0].id);
      newRoot := root.pointers[0].node;
      ClearParent(newRoot, R, S);
      RootGivesWay(H, Snap(R, S), t, h);
      r := Some(t.kids[0]);
    } else {
      newRoot, r := null, None;
      EmptyLeaf(t);
    }
  }

  lemma {:induction false} RootNode(H: Heap, t: Tree, h: nat)
    requires Deficient(H, Top, t, h)
    ensures t.id in H && H[t.id].keys == t.keys && H[t.id].isLeaf == t.LeafT?
    ensures t.InnerT? ==> |H[t.id].ptrs| == |t.keys| + 1
    ensures t.LeafT? ==> |t.vals| == |t.keys|
  {}

  lemma {:induction false} EmptyLeaf(t: Tree)
    requires t.LeafT? && t.keys == [] && t.vals == []
    ensures Entries(Around(Top, t)) == []
  {
    assert Around(Top, t) == [Mark(t.id)];
    assert Entries([Mark(t.id)]) == Entries([Mark(t.id)][1..]);
  }

  /* ---------- the node that ran short and its neighbour ---------- */

  // The neighbour delete_entry picks: the left one, or for a leftmost child the right one.
  ghost function Neighbour(c: Ctx): Option<Tree> {
    if c.Top? then None
    else if c.lefts != [] then Some(c.lefts[|c.lefts| - 1])
    else if c.rights != [] then Some(c.rights[0])
    else None
  }

  /** Where delete_entry finds the node, its parent and its neighbour. */
  lemma {:induction false} ShortNode(H: Heap, c: Ctx, t: Tree, h: nat)
    requires Deficient(H, c, t, h)
    ensures t.id in H && H[t.id].keys == t.keys && H[t.id].isLeaf == t.LeafT? && t.LeafT? == (h == 0)
    ensures H[t.id].parent == CtxId(c)
    ensures c.Frame? ==>
      var p := c.id;
      && p in H && !H[p].isLeaf && |H[p].keys| == |c.lk| + |c.rk| > 0 && |H[p].ptrs| == |H[p].keys| + 1
      && |c.lk| == |c.lefts| && |c.rk| == |c.rights| && H[p].ptrs[|c.lefts|] == Child(t.id)
      && (forall j | 0 <= j < |c.lefts| :: H[p].ptrs[j] != Child(t.id))
      && Neighbour(c).Some?
      && H[p].ptrs[if c.lefts == [] then 1 else |c.lefts| - 1] == Child(Neighbour(c).value.id)
  {
    if c.Frame? {
      FocusParts(c, t);
      RootIn(t);
      forall j | 0 <= j < |c.lefts| ensures c.lefts[j].id != t.id {
        IdsOfAt(c.lefts, j);
        assert c.lefts[j].id in CtxIds(c);
      }
    }
  }

  ghost predicate InPlace(H: Heap, n: Tree, parent: Node) {
    && n.id in H && H[n.id].parent == parent
    && H[n.id].keys == n.keys && H[n.id].isLeaf == n.LeafT? && H[n.id].ptrs == PtrsOf(n)
    && |PtrsOf(n)| == (if n.LeafT? then |n.keys| else |n.keys| + 1)
  }

  lemma {:induction false} NeighbourNode(H: Heap, c: Ctx, t: Tree, h: nat)
    requires Deficient(H, c, t, h) && Neighbour(c).Some?
    ensures var n := Neighbour(c).value;
      && InPlace(H, n, c.id) && InPlace(H, t, c.id) && n.LeafT? == t.LeafT? && |n.keys| >= MinKeys(h)
      && n.id != t.id && n.id != c.id && t.id != c.id
  {
    if c.lefts != [] {
      PairWithLeft(H, c, t, h);
      hide Deficient;
      NeighbourPair(H, LeftPair(c), c.lefts[|c.lefts| - 1], c.lk[|c.lefts| - 1], t, h);
    } else {
      PairWithRight(H, c, t, h);
      hide Deficient;
      NeighbourPair(H, RightPair(c), t, c.rk[0], c.rights[0], h);
    }
  }

  lemma {:induction false} NeighbourPair(H: Heap, d: Ctx, a: Tree, sep: Key, b: Tree, h: nat)
    requires Pair(H, d, a, sep, b, h)
    ensures a.LeafT? == b.LeafT? && a.id != b.id && a.id != d.id && b.id != d.id
    ensures InPlace(H, a, d.id) && InPlace(H, b, d.id)
  {
    PairParts(H, d, a, sep, b, h);
    PairIn(H, d, a, sep, b, h);
    PairWf(H, d, a, sep, b, h);
  }

  // The child that distribute_nodes moves.
  ghost function Moving(c: Ctx): Node? {
    match Neighbour(c)
    case None => null
    case Some(n) => if c.lefts != [] then MovingLast(n) else MovingFirst(n)
  }

  lemma {:induction false} MovingApart(H: Heap, c: Ctx, t: Tree, h: nat)
    requires Deficient(H, c, t, h) && Neighbour(c).Some? && t.InnerT?
    ensures var n := Neighbour(c).value; var m := Moving(c);
      && m != null && m in H && m != t.id && m != n.id && m != c.id && n.id in H && n.keys != []
          && |H[n.id].ptrs| == |n.keys| + 1
      && H[n.id].ptrs[if c.lefts != [] then |n.keys| else 0] == Child(m)
  {
    if c.lefts != [] {
      PairWithLeft(H, c, t, h);
      hide Deficient;
      KidApart(H, LeftPair(c), c.lefts[|c.lefts| - 1], c.lk[|c.lefts| - 1], t, h);
    } else {
      PairWithRight(H, c, t, h);
      hide Deficient;
      KidApart(H, RightPair(c), t, c.rk[0], c.rights[0], h);
    }
  }

  lemma {:induction false} KidApart(H: Heap, d: Ctx, a: Tree, sep: Key, b: Tree, h: nat)
    requires Pair(H, d, a, sep, b, h)
    ensures a.id in H && b.id in H && a.LeafT? == b.LeafT?
    ensures a.InnerT? ==>
      && |H[a.id].ptrs| == |a.kids| == |a.keys| + 1 && |H[b.id].ptrs| == |b.kids| == |b.keys| + 1
      && H[a.id].ptrs == ChildPtrs(a.kids) && H[b.id].ptrs == ChildPtrs(b.kids)
      && (forall k | k in a.kids || k in b.kids :: k.id in H && k.id != a.id && k.id != b.id && k.id != d.id)
  {
    PairParts(H, d, a, sep, b, h);
    PairIn(H, d, a, sep, b, h);
    PairWf(H, d, a, sep, b, h);
    hide Pair;
    if a.InnerT? {
      KidsOnce(a, b);
      KidIds(a.kids + b.kids);
      forall k | k in a.kids || k in b.kids ensures k.id in IdsOf(a.kids + b.kids) {
        assert k in a.kids + b.kids;
      }
    }
  }

  /** What both halves of distribute_nodes need to know about the three nodes they rewrite. */
  ghost predicate Seated(H: Heap, c: Ctx, t: Tree) {
    && c.Frame? && Neighbour(c).Some? && c.id in H && t.id in H
    && var n := Neighbour(c).value;
    && n.id in H && H[t.id].parent == c.id
    && n.id != t.id && n.id != c.id && t.id != c.id
    && H[t.id].isLeaf == t.LeafT? && H[n.id].isLeaf == t.LeafT? && !H[c.id].isLeaf
    && |H[t.id].keys| < SIZE - 1 && 1 < |H[n.id].keys| && |c.lefts| <= |H[c.id].keys| && 0 < |H[c.id].keys|
    && (t.InnerT? ==>
          var m := Moving(c);
          && m != null && m in H && m != t.id && m != n.id && m != c.id && |H[n.id].ptrs| == |H[n.id].keys| + 1
          && H[n.id].ptrs[if c.lefts != [] then |H[n.id].keys| else 0] == Child(m))
    && (t.LeafT? ==> Moving(c) == null)
  }

  lemma {:induction false} UnevenSeated(H: Heap, c: Ctx, t: Tree, h: nat)
    requires Neighbour(c).Some? && Uneven(H, c, t, h, Neighbour(c).value)
    ensures Seated(H, c, t)
  {
    ShortNode(H, c, t, h);
    NeighbourNode(H, c, t, h);
    if t.InnerT? { MovingApart(H, c, t, h); }
  }

  method DistributeFromLeft(nd: Node, neighbor: Node, ndIndex: nat,
                            ghost R: set<object>, ghost S: set<Node>, ghost c: Ctx, ghost t: Tree)
    requires Owns(R, S) && Seated(Snap(R, S), c, t) && nd == t.id && neighbor == Neighbour(c).value.id
    requires ndIndex == |c.lefts| && c.lefts != []
    modifies R
    ensures MovedFromLeft(old(Snap(R, S)), Snap(R, S), nd, neighbor, c.id, ndIndex - 1, Moving(c))
  {
    hide MovedFromLeft, Neighbour, Moving;
    if nd.isLeaf {
      ShareLeafFromLeft(nd, neighbor, nd.parent, ndIndex, R, S);
    } else {
      ShareChildFromLeft(nd, neighbor, nd.parent, ndIndex, Moving(c), R, S);
    }
  }

  method DistributeFromRight(nd: Node, neighbor: Node,
                             ghost R: set<object>, ghost S: set<Node>, ghost c: Ctx, ghost t: Tree)
    requires Owns(R, S) && Seated(Snap(R, S), c, t) && nd == t.id && neighbor == Neighbour(c).value.id && c.lefts == []
    modifies R
    ensures MovedFromRight(old(Snap(R, S)), Snap(R, S), nd, neighbor, c.id, Moving(c))
  {
    hide MovedFromRight, Neighbour, Moving;
    if nd.isLeaf {
      ShareLeafFromRight(nd, neighbor, nd.parent, R, S);
    } else {
      ShareChildFromRight(nd, neighbor, nd.parent, Moving(c), R, S);
    }
  }

  /** distribute_nodes. */
  method DistributeNodes(nd: Node, neighbor: Node, ndIndex: nat,
                         ghost R: set<object>, ghost S: set<Node>, ghost c: Ctx, ghost t: Tree, ghost h: nat)
    returns (ghost t': Tree)
    requires Owns(R, S) && nd == t.id && Neighbour(c).Some? && neighbor == Neighbour(c).value.id && ndIndex == |c.lefts|
    requires Uneven(Snap(R, S), c, t, h, Neighbour(c).value)
    modifies R
    ensures Settled(Snap(R, S), t', c, t, h)
  {
    hide Uneven, Seated, Settled, MovedFromLeft, MovedFromRight;
    ghost var H := Snap(R, S);
    UnevenSeated(H, c, t, h);
    if ndIndex != 0 {
      DistributeFromLeft(nd, neighbor, ndIndex, R, S, c, t);
      t' := ShareLeft(H, Snap(R, S), c, t, h);
    } else {
      DistributeFromRight(nd, neighbor, R, S, c, t);
      t' := ShareRight(H, Snap(R, S), c, t, h);
    }
  }

  /* ---------- coalesce_nodes ---------- */

  // Their parent without an entry for the right one, the left sibling, the separator and the right sibling.
  ghost function Couple(c: Ctx, t: Tree): (Ctx, Tree, Key, Tree)
    requires c.Frame? && |c.lk| == |c.lefts| && |c.rk| == |c.rights| && Neighbour(c).Some?
  {
    var n := Neighbour(c).value;
    if c.lefts != [] then (LeftPair(c), n, c.lk[|c.lk| - 1], t) else (RightPair(c), t, c.rk[0], n)
  }

  lemma {:induction false} CouplePair(H: Heap, c: Ctx, t: Tree, h: nat)
    requires Deficient(H, c, t, h) && Neighbour(c).Some?
    ensures c.Frame? && |c.lk| == |c.lefts| && |c.rk| == |c.rights|
    ensures var (d, a, sep, b) := Couple(c, t);
      && d.Frame? && d.up == c.up && d.id == c.id && |d.lefts| + 1 == (if c.lefts != [] then |c.lefts| else 1)
      && Pair(H, d, a, sep, b, h) && PendingItems(d, a, sep, b) == Around(c, t)
      && (MinKeys(h) <= |a.keys| || MinKeys(h) <= |b.keys|)
  {
    if c.lefts != [] {
      PairWithLeft(H, c, t, h);
    } else {
      PairWithRight(H, c, t, h);
    }
  }

  /** The heap MergeCells and Adopt produce is the merged heap. */
  lemma {:induction false} MergedCellsMatch(H: Heap, d: Ctx, a: Tree, sep: Key, b: Tree, h: nat)
    requires Pair(H, d, a, sep, b, h)
    ensures InPlace(H, a, d.id) && InPlace(H, b, d.id) && a.id != b.id && a.LeafT? == b.LeafT?
    ensures |d.lefts| < |H[d.id].keys| && H[d.id].keys[|d.lefts|] == sep
    ensures var x, y := H[a.id], H[b.id];
      if a.LeafT? then
        MergedHeap(H, a, sep, b) == H[a.id := x.(keys := x.keys + y.keys, ptrs := x.ptrs + y.ptrs, next := y.next)]
      else
        var moved := KidNodes(Merged(a, sep, b).kids);
        && MergedHeap(H, a, sep, b)
           == Adopted(H[a.id := x.(keys := x.keys + [sep] + y.keys, ptrs := x.ptrs + y.ptrs)], moved, a.id)
        && x.ptrs + y.ptrs == Children(moved) && forall k <- moved :: k in H
  {
    NeighbourPair(H, d, a, sep, b, h);
    KidApart(H, d, a, sep, b, h);
    assert H[d.id].keys == GrownKeys(d, sep) && |d.lk| == |d.lefts|;
    hide Pair;
    if a.LeafT? {
      assert DataPtrs(a.vals + b.vals) == DataPtrs(a.vals) + DataPtrs(b.vals);
    } else {
      assert ChildPtrs(a.kids + b.kids) == ChildPtrs(a.kids) + ChildPtrs(b.kids);
      KidNodesOf(a.kids + b.kids);
    }
  }

  /** What coalesce_nodes hands on to its parent. */
  lemma {:induction false} Coalesced(H: Heap, c: Ctx, t: Tree, h: nat)
    requires Deficient(H, c, t, h) && Ordered(H, c, t) && Neighbour(c).Some?
    requires |Neighbour(c).value.keys| + |t.keys| <= if t.LeafT? then SIZE - 1 else SIZE - 2
    ensures c.Frame? && |c.lk| == |c.lefts| && |c.rk| == |c.rights|
    ensures var (d, a, sep, b) := Couple(c, t); a.id in H && b.id in H && d.Frame?
    ensures var (d, a, sep, b) := Couple(c, t); var H', p := MergedHeap(H, a, sep, b), Filled(d, Merged(a, sep, b));
      && Removing(H', c.up, p, h + 1, if c.lefts != [] then |c.lefts| else 1)
      && Ordered(H', c.up, p) && Entries(Around(c.up, p)) == Entries(Around(c, t))
      && p.id == c.id && Plug(c.up, p).id == Plug(c, t).id
  {
    var (d, a, sep, b) := Couple(c, t);
    CouplePair(H, c, t, h);
    PairWf(H, d, a, sep, b, h);
    hide Pair, Deficient, Removing;
    MergeRemoving(H, d, a, sep, b, h);
    MergeWalk(H, d, a, sep, b, h);
    PlugRoot(c.up, Filled(d, Merged(a, sep, b)), Filled(c, t));
  }

  /** The left sibling takes over the right one. */
  method JoinSiblings(left: Node, right: Node, sepKey: Key, ghost R: set<object>, ghost S: set<Node>,
                      ghost d: Ctx, ghost a: Tree, ghost b: Tree, ghost h: nat)
    requires Owns(R, S) && Pair(Snap(R, S), d, a, sepKey, b, h) && left == a.id && right == b.id
    requires left in S && right in S
    requires |a.keys| + |b.keys| <= if a.LeafT? then SIZE - 1 else SIZE - 2
    modifies R
    ensures Snap(R, S) == MergedHeap(old(Snap(R, S)), a, sepKey, b)
  {
    ghost var H := Snap(R, S);
    MergedCellsMatch(H, d, a, sepKey, b, h);
    hide Pair, MergedHeap, Adopted;
    MergeCells(left, right, sepKey, R, S);
    if !left.isLeaf {
      Adopt(left, KidNodes(Merged(a, sepKey, b).kids), R, S);
    }
  }

  /** coalesce_nodes. */
  method CoalesceNodes(root: Node, nd: Node, neighbor: Node, ndIndex: nat,
                       ghost R: set<object>, ghost S: set<Node>, ghost c: Ctx, ghost t: Tree, ghost h: nat)
    returns (newRoot: Node?, ghost r: Option<Tree>)
    requires Owns(R, S) && Deficient(Snap(R, S), c, t, h) && Ordered(Snap(R, S), c, t)
    requires nd == t.id && root == Plug(c, t).id
    requires Neighbour(c).Some? && neighbor == Neighbour(c).value.id && ndIndex == |c.lefts|
    requires |Neighbour(c).value.keys| + |t.keys| <= if t.LeafT? then SIZE - 1 else SIZE - 2
    modifies R
    ensures Outcome(Snap(R, S), newRoot, r, Around(c, t), CtxHeight(c, h))
    decreases c, 0, 0
  {
    hide Deficient, Ordered, Pair, Removing, Plug, Around, Outcome, MergedHeap, Neighbour, Node.View;
    ghost var H := Snap(R, S);
    ShortNode(H, c, t, h);
    ghost var d, a, sep, b, p := CoalescePlan(H, c, t, h);
    var left, right, index := neighbor, nd, ndIndex;
    if ndIndex == 0 {
      left, right, index := nd, neighbor, 1;
    }
    var parent := nd.parent;
    ViewAt(parent);
    JoinSiblings(left, right, parent.keys[index - 1], R, S, d, a, b, h);
    newRoot, r := DeleteEntry(root, parent, index, R, S, c.up, p, h + 1);
    OutcomeUp(Snap(R, S), newRoot, r, c, t, h, Around(c.up, p));
  }

  lemma {:induction false} CoalescePlan(H: Heap, c: Ctx, t: Tree, h: nat)
    returns (d: Ctx, a: Tree, sep: Key, b: Tree, p: Tree)
    requires Deficient(H, c, t, h) && Ordered(H, c, t) && Neighbour(c).Some?
    requires |Neighbour(c).value.keys| + |t.keys| <= if t.LeafT? then SIZE - 1 else SIZE - 2
    ensures c.Frame? && c.id in H && Pair(H, d, a, sep, b, h) && a.id in H && b.id in H
    ensures if c.lefts == [] then a.id == t.id && b.id == Neighbour(c).value.id
            else a.id == Neighbour(c).value.id && b.id == t.id
    ensures |a.keys| + |b.keys| <= if a.LeafT? then SIZE - 1 else SIZE - 2
    ensures var index := if c.lefts == [] then 1 else |c.lefts|;
      && index <= |H[c.id].keys| && H[c.id].keys[index - 1] == sep
      && Removing(MergedHeap(H, a, sep, b), c.up, p, h + 1, index)
    ensures Ordered(MergedHeap(H, a, sep, b), c.up, p)
    ensures p.id == c.id && Plug(c.up, p).id == Plug(c, t).id && Entries(Around(c.up, p)) == Entries(Around(c, t))
  {
    CouplePair(H, c, t, h);
    Coalesced(H, c, t, h);
    var (d', a', sep', b') := Couple(c, t);
    d, a, sep, b, p := d', a', sep', b', Filled(d', Merged(a', sep', b'));
    hide Deficient, Ordered, Pair, Removing, Plug, Around;
    MergedCellsMatch(H, d, a, sep, b, h);
  }

  lemma {:induction false} OutcomeUp(H: Heap, root: Node?, r: Option<Tree>, c: Ctx, t: Tree, h: nat, s: seq<Item>)
    requires c.Frame? && Outcome(H, root, r, s, CtxHeight(c.up, h + 1)) && Entries(s) == Entries(Around(c, t))
    ensures Outcome(H, root, r, Around(c, t), CtxHeight(c, h))
  {}

  /** delete_entry. */
  method DeleteEntry(root: Node, nd: Node, index: nat,
                     ghost R: set<object>, ghost S: set<Node>, ghost c: Ctx, ghost t: Tree, ghost h: nat)
    returns (newRoot: Node?, ghost r: Option<Tree>)
    requires Owns(R, S) && Removing(Snap(R, S), c, t, h, index) && Ordered(Snap(R, S), c, t)
    requires nd == t.id && root == Plug(c, t).id
    modifies R
    ensures Outcome(Snap(R, S), newRoot, r, Around(c, t), CtxHeight(c, h))
    decreases c, 1
  {
    hide Deficient, Ordered, Removing, Plug, Around, Outcome, Uneven;
    ghost var H := Snap(R, S);
    RemovingNode(H, c, t, h, index);
    DropEntry(nd, index, R, S);
    ghost var H1 := Snap(R, S);
    RemovedOrdered(H, H1, c, t, h, index);
    ShortNode(H1, c, t, h);
    RootOnTop(c, t, H1, h);
    if nd == root {
      newRoot, r := AdjustRoot(nd, R, S, t, h);
      return;
    }
    var minKeys := if nd.isLeaf then SIZE / 2 else (SIZE - 1) / 2;
    if nd.numKeys >= minKeys {
      StillWhole(H1, c, t, h);
      return root, Some(Plug(c, t));
    }
    newRoot, r := Refill(root, nd, R, S, c, t, h);
  }

  /** The second half of delete_entry: a node that is not the root has too few keys. */
  method Refill(root: Node, nd: Node, ghost R: set<object>, ghost S: set<Node>, ghost c: Ctx, ghost t: Tree,
                ghost h: nat)
    returns (newRoot: Node?, ghost r: Option<Tree>)
    requires Owns(R, S) && Deficient(Snap(R, S), c, t, h) && Ordered(Snap(R, S), c, t)
    requires nd == t.id && root == Plug(c, t).id && c.Frame? && |t.keys| < MinKeys(h)
    modifies R
    ensures Outcome(Snap(R, S), newRoot, r, Around(c, t), CtxHeight(c, h))
    decreases c, 0, 1
  {
    hide Deficient, Ordered, Plug, Around, Outcome, Uneven;
    ghost var H := Snap(R, S);
    ShortNode(H, c, t, h);
    NeighbourNode(H, c, t, h);
    hide Neighbour;
    var ndIndex := ChildIndex(nd.parent, nd, |c.lefts|);
    var neighbor := nd.parent.pointers[if ndIndex == 0 then 1 else ndIndex - 1].node;
    var cap := if nd.isLeaf then SIZE - 1 else SIZE - 2;
    if neighbor.numKeys + nd.numKeys <= cap {
      newRoot, r := CoalesceNodes(root, nd, neighbor, ndIndex, R, S, c, t, h);
    } else {
      RunsUneven(H, c, t, h);
      ghost var t' := DistributeNodes(nd, neighbor, ndIndex, R, S, c, t, h);
      newRoot, r := root, Some(t');
      SettledOutcome(Snap(R, S), t', c, t, h);
    }
  }

  lemma {:induction false} RemovingNode(H: Heap, c: Ctx, t: Tree, h: nat, index: nat)
    requires Removing(H, c, t, h, index)
    ensures t.id in H && H[t.id].isLeaf == t.LeafT? && |H[t.id].ptrs| == |H[t.id].keys| + if t.LeafT? then 0 else 1
    ensures if t.LeafT? then index < |H[t.id].keys| else 0 < index <= |H[t.id].keys|
    ensures RemoveAt(H[t.id].keys, if t.LeafT? then index else index - 1) == t.keys
    ensures RemoveAt(H[t.id].ptrs, index) == PtrsOf(t)
  {}

  lemma {:induction false} RemovedOrdered(H: Heap, H': Heap, c: Ctx, t: Tree, h: nat, index: nat)
    requires Removing(H, c, t, h, index) && Ordered(H, c, t)
    requires H' == H[t.id := H[t.id].(keys := t.keys, ptrs := PtrsOf(t))]
    ensures Deficient(H', c, t, h) && Ordered(H', c, t)
  {
    Removed(H, H', c, t, h, index);
    hide Removing, Deficient;
    ChainedSame(H, H', Leaves(Around(c, t)));
  }

  /** A node is the root exactly when it has no ancestors. */
  lemma {:induction false} RootOnTop(c: Ctx, t: Tree, H: Heap, h: nat)
    requires Deficient(H, c, t, h)
    ensures t.id == Plug(c, t).id <==> c.Top?
  {
    if c.Frame? {
      PlugRootIn(c, t);
      FocusParts(c, t);
    }
  }

  lemma {:induction false} StillWhole(H: Heap, c: Ctx, t: Tree, h: nat)
    requires Deficient(H, c, t, h) && Ordered(H, c, t) && c.Frame? && |t.keys| >= MinKeys(h)
    ensures Outcome(H, Plug(c, t).id, Some(Plug(c, t)), Around(c, t), CtxHeight(c, h))
  {
    StillFull(H, c, t, h);
  }

  lemma {:induction false} RunsUneven(H: Heap, c: Ctx, t: Tree, h: nat)
    requires Deficient(H, c, t, h) && Ordered(H, c, t) && c.Frame? && Neighbour(c).Some? && |t.keys| < MinKeys(h)
    requires |Neighbour(c).value.keys| + |t.keys| > if t.LeafT? then SIZE - 1 else SIZE - 2
    ensures Uneven(H, c, t, h, Neighbour(c).value)
  {}

  lemma {:induction false} SettledOutcome(H: Heap, t': Tree, c: Ctx, t: Tree, h: nat)
    requires Settled(H, t', c, t, h)
    ensures Outcome(H, Plug(c, t).id, Some(t'), Around(c, t), CtxHeight(c, h))
  {}
}
