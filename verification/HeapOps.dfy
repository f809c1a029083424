/** The node steps as changes of a whole heap: which cells they rewrite, and that every other cell stays. */
module HeapOps {
  import opened Keys
  import opened BPlusNode
  import opened Buffers
  import opened NodeOps

  method NewRootNode(left: Node, right: Node, key: Key) returns (root: Node)
    ensures fresh(root) && fresh(root.keys) && fresh(root.pointers) && Sized(root)
    ensures root.View() == Cell(false, [key], [Child(left), Child(right)], Null, null)
  {
    root := new Node(false);
    root.pointers[0] := Child(left);
    root.pointers[1] := Child(right);
    root.keys[0] := key;
    root.numKeys := root.numKeys + 1;
  }

  /** make_new_root. */
  method MakeNewRoot(left: Node, right: Node, key: Key, ghost R: set<object>, ghost S: set<Node>)
    returns (root: Node, ghost Q: set<object>, ghost T: set<Node>)
    requires Owns(R, S) && left in S && right in S && left != right
    modifies left`parent, right`parent
    ensures Owns(Q, T) && S <= T && fresh(Q - R) && root !in S
    ensures var H := old(Snap(R, S)); var H' := Snap(Q, T);
            && H'.Keys == S + {root}
            && H'[root] == Cell(false, [key], [Child(left), Child(right)], Null, null)
            && forall n <- S :: H'[n] == if n == left || n == right then H[n].(parent := root) else H[n]
  {
    root := NewRootNode(left, right, key);
    left.parent := root;
    right.parent := root;
    Q, T := R + {root, root.keys, root.pointers}, S + {root};
    forall n <- S
      ensures n.View() == if n == left || n == right then old(n.View()).(parent := root) else old(n.View())
    {}
  }

  /** insert_into_node. */
  method GrowNode(nd: Node, right: Node, index: nat, key: Key, ghost R: set<object>, ghost S: set<Node>)
    requires Owns(R, S) && nd in S && !nd.isLeaf && nd.numKeys < SIZE - 1 && index <= nd.numKeys
    modifies nd`numKeys, nd.keys, nd.pointers
    ensures var H := old(Snap(R, S));
            Snap(R, S) == H[nd := H[nd].(keys := InsertAt(H[nd].keys, index, key),
                                      ptrs := InsertAt(H[nd].ptrs, index + 1, Child(right)))]
  {
    hide Node.View, InsertAt;
    InsertIntoNode(nd, right, index, key);
  }

  ghost function Children(kids: seq<Node>): (ps: seq<Ptr>)
    ensures |ps| == |kids| && forall i | 0 <= i < |ps| :: ps[i] == Child(kids[i])
  {
    seq(|kids|, i requires 0 <= i < |kids| => Child(kids[i]))
  }

  ghost function Adopted(H: Heap, moved: seq<Node>, parent: Node): Heap {
    map m <- H :: if m in moved then H[m].(parent := parent) else H[m]
  }

  /** The children of `nd` get it as their parent. */
  method Adopt(nd: Node, ghost kids: seq<Node>, ghost R: set<object>, ghost S: set<Node>)
    requires Owns(R, S) && nd in S && !nd.isLeaf && nd.View().ptrs == Children(kids)
    requires forall k <- kids :: k in S
    modifies (set k <- kids)`parent
    ensures Snap(R, S) == Adopted(old(Snap(R, S)), kids, nd)
  {
    forall i | 0 <= i < |kids| ensures nd.pointers[i] == Child(kids[i]) {
      assert nd.View().ptrs[i] == Child(kids[i]);
    }
    AdoptChildren(nd, kids);
    forall n <- S ensures n.View() == if n in kids then old(n.View()).(parent := nd) else old(n.View()) {}
  }

  /** The splitting step of insert_into_node_after_splitting. */
  method SplitInner(nd: Node, right: Node, index: nat, key: Key, ghost R: set<object>, ghost S: set<Node>)
    returns (newNd: Node, newKey: Key, ghost Q: set<object>, ghost T: set<Node>)
    requires Owns(R, S) && nd in S && !nd.isLeaf && nd.numKeys == SIZE - 1 && index <= nd.numKeys
    modifies nd`numKeys, nd.keys, nd.pointers
    ensures Owns(Q, T) && S <= T && fresh(Q - R) && newNd !in S && newNd in T && !newNd.isLeaf
    ensures var H := old(Snap(R, S));
            var ks := InsertAt(H[nd].keys, index, key);
            var ps := InsertAt(H[nd].ptrs, index + 1, Child(right));
            && newKey == ks[SPLIT - 1] && newNd.View().ptrs == ps[SPLIT..]
            && Snap(Q, T) == H[nd := H[nd].(keys := ks[..SPLIT - 1], ptrs := ps[..SPLIT])]
                              [newNd := Cell(false, ks[SPLIT..], ps[SPLIT..], Null, H[nd].parent)]
  {
    hide Node.View, InsertAt;
    newNd, newKey := SplitNode(nd, right, index, key);
    Q, T := R + {newNd, newNd.keys, newNd.pointers}, S + {newNd};
  }

  /** A node and its new right sibling after a split, before the moved children are told. */
  ghost function SplitCells(H: Heap, nd: Node, ks: seq<Key>, ps: seq<Ptr>, n: Node): Heap
    requires nd in H && |ks| == SIZE && |ps| == SIZE + 1
  {
    H[nd := H[nd].(keys := ks[..SPLIT - 1], ptrs := ps[..SPLIT])]
     [n := Cell(false, ks[SPLIT..], ps[SPLIT..], Null, H[nd].parent)]
  }

  /** insert_into_node_after_splitting up to its recursive call. */
  method SplitAndAdopt(nd: Node, right: Node, index: nat, key: Key, ghost R: set<object>, ghost S: set<Node>,
                       ghost ks: seq<Key>, ghost ps: seq<Ptr>, ghost moved: seq<Node>)
    returns (newNd: Node, newKey: Key, ghost Q: set<object>, ghost T: set<Node>)
    requires Owns(R, S) && nd in S && !nd.isLeaf && nd.numKeys == SIZE - 1 && index <= nd.numKeys
    requires ks == InsertAt(nd.View().keys, index, key) && ps == InsertAt(nd.View().ptrs, index + 1, Child(right))
    requires ps[SPLIT..] == Children(moved) && forall k <- moved :: k in S
    modifies R
    ensures Owns(Q, T) && S <= T && fresh(Q - R) && newNd !in S && newNd in T && newKey == ks[SPLIT - 1]
    ensures Snap(Q, T) == Adopted(SplitCells(old(Snap(R, S)), nd, ks, ps, newNd), moved, newNd)
  {
    newNd, newKey, Q, T := SplitInner(nd, right, index, key, R, S);
    Adopt(newNd, moved, Q, T);
  }

  /** insert_into_leaf. */
  method GrowLeaf(leaf: Node, index: nat, key: Key, data: Value, ghost R: set<object>, ghost S: set<Node>)
    requires Owns(R, S) && leaf in S && leaf.isLeaf && leaf.numKeys < SIZE - 1 && index <= leaf.numKeys
    modifies leaf`numKeys, leaf.keys, leaf.pointers
    ensures var H := old(Snap(R, S));
            Snap(R, S) == H[leaf := H[leaf].(keys := InsertAt(H[leaf].keys, index, key),
                                            ptrs := InsertAt(H[leaf].ptrs, index, Data(data)))]
  {
    hide Node.View, InsertAt;
    InsertIntoLeaf(leaf, index, key, data);
  }

  /** The splitting step of insert_into_leaf_after_splitting. */
  method SplitOuter(leaf: Node, index: nat, key: Key, data: Value, ghost R: set<object>, ghost S: set<Node>)
    returns (newLeaf: Node, ghost Q: set<object>, ghost T: set<Node>)
    requires Owns(R, S) && leaf in S && leaf.isLeaf && leaf.numKeys == SIZE - 1 && index <= leaf.numKeys
    modifies leaf`numKeys, leaf.keys, leaf.pointers
    ensures Owns(Q, T) && S <= T && fresh(Q - R) && newLeaf !in S && newLeaf in T && newLeaf.numKeys > 0
    ensures var H := old(Snap(R, S));
            var ks := InsertAt(H[leaf].keys, index, key);
            var ps := InsertAt(H[leaf].ptrs, index, Data(data));
            && newLeaf.keys[0] == ks[SIZE / 2]
            && Snap(Q, T) == H[leaf := H[leaf].(keys := ks[..SIZE / 2], ptrs := ps[..SIZE / 2], next := Child(newLeaf))]
                              [newLeaf := Cell(true, ks[SIZE / 2..], ps[SIZE / 2..], H[leaf].next, H[leaf].parent)]
  {
    hide InsertAt, Node.View;
    newLeaf := SplitLeaf(leaf, index, key, data);
    Q, T := R + {newLeaf, newLeaf.keys, newLeaf.pointers}, S + {newLeaf};
    ViewAt(newLeaf);
  }

  /** remove_entry. */
  method DropEntry(nd: Node, index: nat, ghost R: set<object>, ghost S: set<Node>)
    requires Owns(R, S) && nd in S
    requires if nd.isLeaf then index < nd.numKeys else 0 < index <= nd.numKeys
    modifies nd`numKeys, nd.keys, nd.pointers
    ensures var H := old(Snap(R, S));
            Snap(R, S) == H[nd := H[nd].(keys := RemoveAt(H[nd].keys, if H[nd].isLeaf then index else index - 1),
                                         ptrs := RemoveAt(H[nd].ptrs, index))]
  {
    hide Node.View, RemoveAt;
    RemoveEntry(nd, index);
  }

  /** The new root of adjust_root. */
  method ClearParent(nd: Node, ghost R: set<object>, ghost S: set<Node>)
    requires Owns(R, S) && nd in S
    modifies nd`parent
    ensures Snap(R, S) == old(Snap(R, S))[nd := old(Snap(R, S))[nd].(parent := null)]
  {
    nd.parent := null;
  }

  ghost predicate Family(S: set<Node>, nd: Node, neighbor: Node, parent: Node) {
    nd in S && neighbor in S && parent in S && nd != neighbor && nd != parent && neighbor != parent
  }

  /** Of the heap only these three cells, and the parent of `tmp`, differ. */
  ghost predicate Rewritten(H: Heap, H': Heap, nd: Node, x: Cell, neighbor: Node, y: Cell, parent: Node, z: Cell,
                            tmp: Node?) {
    && nd in H && neighbor in H && parent in H && H'.Keys == H.Keys
    && H'[nd] == x && H'[neighbor] == y && H'[parent] == z
    && forall n <- H | n != nd && n != neighbor && n != parent ::
         H'[n] == if n == tmp then H[n].(parent := nd) else H[n]
  }

  /** The last entry of `neighbor` moved to the front of `nd`, through separator `i` of `parent`. */
  ghost predicate MovedFromLeft(H: Heap, H': Heap, nd: Node, neighbor: Node, parent: Node, i: nat, tmp: Node?) {
    && nd in H && neighbor in H && parent in H
    && var x, y, p := H[nd], H[neighbor], H[parent];
    && |y.keys| > 0 && |y.ptrs| > 0 && i < |p.keys|
    && var n, m := |y.keys| - 1, |y.ptrs| - 1;
    Rewritten(H, H', nd, x.(keys := [if x.isLeaf then y.keys[n] else p.keys[i]] + x.keys, ptrs := [y.ptrs[m]] + x.ptrs),
              neighbor, y.(keys := y.keys[..n], ptrs := y.ptrs[..m]),
              parent, p.(keys := p.keys[i := y.keys[n]]), tmp)
  }

  /** The first entry of `neighbor` moved to the end of `nd`, through the first separator of `parent`. */
  ghost predicate MovedFromRight(H: Heap, H': Heap, nd: Node, neighbor: Node, parent: Node, tmp: Node?) {
    && nd in H && neighbor in H && parent in H
    && var x, y, p := H[nd], H[neighbor], H[parent];
    && |y.keys| > 1 && |y.ptrs| > 0 && |p.keys| > 0
    && Rewritten(H, H', nd, x.(keys := x.keys + [if x.isLeaf then y.keys[0] else p.keys[0]],
        ptrs := x.ptrs + [y.ptrs[0]]),
                 neighbor, y.(keys := y.keys[1..], ptrs := y.ptrs[1..]),
                 parent, p.(keys := p.keys[0 := if x.isLeaf then y.keys[1] else y.keys[0]]), tmp)
  }

  /** distribute_nodes, leaf with a left neighbour. */
  method ShareLeafFromLeft(nd: Node, neighbor: Node, parent: Node, ndIndex: nat, ghost R: set<object>,
                           ghost S: set<Node>)
    requires Owns(R, S) && Family(S, nd, neighbor, parent) && nd.isLeaf && neighbor.isLeaf && !parent.isLeaf
    requires 0 < ndIndex <= parent.numKeys && nd.numKeys < SIZE - 1 && 0 < neighbor.numKeys
    modifies nd`numKeys, nd.keys, nd.pointers, neighbor`numKeys, neighbor.keys, neighbor.pointers, parent.keys
    ensures MovedFromLeft(old(Snap(R, S)), Snap(R, S), nd, neighbor, parent, ndIndex - 1, null)
  {
    hide Node.View;
    BorrowLeafFromLeft(nd, neighbor, parent, ndIndex);
  }

  /** distribute_nodes, leaf with a right neighbour only. */
  method ShareLeafFromRight(nd: Node, neighbor: Node, parent: Node, ghost R: set<object>, ghost S: set<Node>)
    requires Owns(R, S) && Family(S, nd, neighbor, parent) && nd.isLeaf && neighbor.isLeaf && !parent.isLeaf
    requires 0 < parent.numKeys && nd.numKeys < SIZE - 1 && 1 < neighbor.numKeys
    modifies nd`numKeys, nd.keys, nd.pointers, neighbor`numKeys, neighbor.keys, neighbor.pointers, parent.keys
    ensures MovedFromRight(old(Snap(R, S)), Snap(R, S), nd, neighbor, parent, null)
  {
    hide Node.View;
    BorrowLeafFromRight(nd, neighbor, parent);
  }

  /** distribute_nodes, inner node with a left neighbour. */
  method ShareChildFromLeft(nd: Node, neighbor: Node, parent: Node, ndIndex: nat, ghost tmp: Node,
                            ghost R: set<object>, ghost S: set<Node>)
    requires Owns(R, S) && Family(S, nd, neighbor, parent) && !nd.isLeaf && !neighbor.isLeaf && !parent.isLeaf
    requires 0 < ndIndex <= parent.numKeys && nd.numKeys < SIZE - 1 && 0 < neighbor.numKeys
    requires tmp in S && tmp !in {nd, neighbor, parent} && neighbor.pointers[neighbor.numKeys] == Child(tmp)
    modifies nd`numKeys, nd.keys, nd.pointers, neighbor`numKeys, neighbor.keys, neighbor.pointers, parent.keys,
             tmp`parent
    ensures MovedFromLeft(old(Snap(R, S)), Snap(R, S), nd, neighbor, parent, ndIndex - 1, tmp)
  {
    hide Node.View;
    var child := neighbor.pointers[neighbor.numKeys].node;
    ViewAt(neighbor);
    BorrowChildFromLeft(nd, neighbor, parent, ndIndex, child);
    forall n <- S | n !in {nd, neighbor, parent, tmp} ensures n.View() == old(n.View()) {}
  }

  /** distribute_nodes, inner node with a right neighbour only. */
  method ShareChildFromRight(nd: Node, neighbor: Node, parent: Node, ghost tmp: Node,
                             ghost R: set<object>, ghost S: set<Node>)
    requires Owns(R, S) && Family(S, nd, neighbor, parent) && !nd.isLeaf && !neighbor.isLeaf && !parent.isLeaf
    requires 0 < parent.numKeys && nd.numKeys < SIZE - 1 && 1 < neighbor.numKeys
    requires tmp in S && tmp !in {nd, neighbor, parent} && neighbor.pointers[0] == Child(tmp)
    modifies nd`numKeys, nd.keys, nd.pointers, neighbor`numKeys, neighbor.keys, neighbor.pointers, parent.keys,
             tmp`parent
    ensures MovedFromRight(old(Snap(R, S)), Snap(R, S), nd, neighbor, parent, tmp)
  {
    hide Node.View;
    var child := neighbor.pointers[0].node;
    ViewAt(neighbor);
    BorrowChildFromRight(nd, neighbor, parent, child);
    forall n <- S | n !in {nd, neighbor, parent, tmp} ensures n.View() == old(n.View()) {}
  }

  /** The copying step of coalesce_nodes. */
  method MergeCells(neighbor: Node, nd: Node, sep: Key, ghost R: set<object>, ghost S: set<Node>)
    requires Owns(R, S) && nd in S && neighbor in S && nd != neighbor && nd.isLeaf == neighbor.isLeaf
    requires neighbor.numKeys + nd.numKeys <= if nd.isLeaf then SIZE - 1 else SIZE - 2
    modifies R
    ensures var H := old(Snap(R, S)); var a, b := H[neighbor], H[nd];
            Snap(R, S) == H[neighbor := if a.isLeaf
              then a.(keys := a.keys + b.keys, ptrs := a.ptrs + b.ptrs, next := b.next)
              else a.(keys := a.keys + [sep] + b.keys, ptrs := a.ptrs + b.ptrs)]
  {
    hide Node.View;
    MergeInto(neighbor, nd, sep);
  }
}
