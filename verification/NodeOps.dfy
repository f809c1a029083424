/** The steps of bptree.c that rewrite the buffers of one node, or of a node, its neighbour and their parent. */
module NodeOps {
  import opened Keys
  import opened BPlusNode
  import opened Buffers

  ghost predicate Sized(n: Node) {
    n.keys.Length == SIZE - 1 && n.pointers.Length == SIZE
  }

  ghost predicate Apart(m: Node, n: Node) {
    m != n && m.keys != n.keys && m.pointers != n.pointers
  }

  /** The search of insert_into_parent and get_node_index: the slot of `child` in its parent is `at`. */
  method ChildIndex(parent: Node, child: Node, ghost at: nat) returns (i: nat)
    requires Sized(parent) && !parent.isLeaf && at <= parent.numKeys && parent.pointers[at] == Child(child)
    requires forall j | 0 <= j < at :: parent.pointers[j] != Child(child)
    ensures i == at
  {
    i := 0;
    while i < parent.numKeys && parent.pointers[i] != Child(child)
      invariant 0 <= i <= at
    {
      i := i + 1;
    }
  }

  /** insert_into_leaf. */
  method InsertIntoLeaf(leaf: Node, index: nat, key: Key, data: Value)
    requires Sized(leaf) && leaf.isLeaf && leaf.numKeys < SIZE - 1 && index <= leaf.numKeys
    modifies leaf`numKeys, leaf.keys, leaf.pointers
    ensures leaf.View() == old(leaf.View()).(keys := InsertAt(old(leaf.View()).keys, index, key),
                                             ptrs := InsertAt(old(leaf.View()).ptrs, index, Data(data)))
  {
    InsertShift(leaf.keys, index, leaf.numKeys, key);
    InsertShift(leaf.pointers, index, leaf.numKeys, Data(data));
    leaf.numKeys := leaf.numKeys + 1;
  }

  /** insert_into_node. */
  method InsertIntoNode(nd: Node, right: Node, index: nat, key: Key)
    requires Sized(nd) && !nd.isLeaf && nd.numKeys < SIZE - 1 && index <= nd.numKeys
    modifies nd`numKeys, nd.keys, nd.pointers
    ensures nd.View() == old(nd.View()).(keys := InsertAt(old(nd.View()).keys, index, key),
                                         ptrs := InsertAt(old(nd.View()).ptrs, index + 1, Child(right)))
  {
    InsertShift(nd.keys, index, nd.numKeys, key);
    InsertShift(nd.pointers, index + 1, nd.numKeys + 1, Child(right));
    nd.numKeys := nd.numKeys + 1;
  }

  /** The first part of insert_into_leaf_after_splitting: the leaf keeps the lower half, a new leaf takes the rest. */
  method SplitLeaf(leaf: Node, index: nat, key: Key, data: Value) returns (newLeaf: Node)
    requires Sized(leaf) && leaf.isLeaf && leaf.numKeys == SIZE - 1 && index <= leaf.numKeys
    modifies leaf`numKeys, leaf.keys, leaf.pointers
    ensures Sized(newLeaf) && fresh(newLeaf) && fresh(newLeaf.keys) && fresh(newLeaf.pointers)
    ensures var was := old(leaf.View());
            var ks := InsertAt(was.keys, index, key);
            var ps := InsertAt(was.ptrs, index, Data(data));
            && leaf.View() == Cell(true, ks[..SIZE / 2], ps[..SIZE / 2], Child(newLeaf), was.parent)
            && newLeaf.View() == Cell(true, ks[SIZE / 2..], ps[SIZE / 2..], was.next, was.parent)
  {
    ghost var ks := InsertAt(leaf.View().keys, index, key);
    ghost var ps := InsertAt(leaf.View().ptrs, index, Data(data));
    var tempPs := Spread(leaf.pointers, SIZE - 1, index, Data(data));
    var tempKs := Spread(leaf.keys, SIZE - 1, index, key);
    assert tempPs[..] == ps && tempKs[..] == ks;
    var split := SIZE / 2;
    leaf.numKeys := split;
    Fill(tempPs, 0, split, leaf.pointers);
    Fill(tempKs, 0, split, leaf.keys);
    newLeaf := UpperHalf(true, tempKs, tempPs, split);
    LinkNewLeaf(leaf, newLeaf);
  }

  /** The new right sibling of a node split at `split`. */
  method UpperHalf(leaf: bool, tempKs: array<Key>, tempPs: array<Ptr>, split: nat) returns (n: Node)
    requires tempKs.Length == SIZE && tempPs.Length == (if leaf then SIZE else SIZE + 1) && 0 < split < SIZE
    ensures Sized(n) && fresh(n) && fresh(n.keys) && fresh(n.pointers) && n.isLeaf == leaf
    ensures n.View().keys == tempKs[split..] && n.View().ptrs == tempPs[split..]
  {
    n := new Node(leaf);
    n.numKeys := SIZE - split;
    Fill(tempPs, split, tempPs.Length - split, n.pointers);
    Fill(tempKs, split, SIZE - split, n.keys);
  }

  /** A split leaf is followed by the new one, which takes over its link and its parent. */
  method LinkNewLeaf(leaf: Node, newLeaf: Node)
    requires Sized(leaf) && Sized(newLeaf) && Apart(leaf, newLeaf) && leaf.isLeaf && newLeaf.isLeaf
    modifies leaf.pointers, newLeaf`parent, newLeaf.pointers
    ensures leaf.View() == old(leaf.View()).(next := Child(newLeaf))
    ensures newLeaf.View() == old(newLeaf.View()).(next := old(leaf.View()).next, parent := leaf.parent)
  {
    newLeaf.parent := leaf.parent;
    newLeaf.pointers[SIZE - 1] := leaf.pointers[SIZE - 1];
    leaf.pointers[SIZE - 1] := Child(newLeaf);
  }

  // The number of pointers an inner node keeps when it splits.
  const SPLIT := if SIZE % 2 != 0 then SIZE / 2 + 1 else SIZE / 2

  /** The first part of insert_into_node_after_splitting: the middle key moves up. */
  method SplitNode(nd: Node, right: Node, index: nat, key: Key) returns (newNd: Node, newKey: Key)
    requires Sized(nd) && !nd.isLeaf && nd.numKeys == SIZE - 1 && index <= nd.numKeys
    modifies nd`numKeys, nd.keys, nd.pointers
    ensures Sized(newNd) && fresh(newNd) && fresh(newNd.keys) && fresh(newNd.pointers)
    ensures var was := old(nd.View());
            var ks := InsertAt(was.keys, index, key);
            var ps := InsertAt(was.ptrs, index + 1, Child(right));
            && newKey == ks[SPLIT - 1]
            && nd.View() == Cell(false, ks[..SPLIT - 1], ps[..SPLIT], Null, was.parent)
            && newNd.View() == Cell(false, ks[SPLIT..], ps[SPLIT..], Null, was.parent)
  {
    ghost var ks := InsertAt(nd.View().keys, index, key);
    ghost var ps := InsertAt(nd.View().ptrs, index + 1, Child(right));
    var tempPs := Spread(nd.pointers, SIZE, index + 1, Child(right));
    var tempKs := Spread(nd.keys, SIZE - 1, index, key);
    assert tempPs[..] == ps && tempKs[..] == ks;
    nd.numKeys := SPLIT - 1;
    Fill(tempPs, 0, SPLIT, nd.pointers);
    Fill(tempKs, 0, SPLIT - 1, nd.keys);
    newKey := tempKs[SPLIT - 1];
    newNd := UpperHalf(false, tempKs, tempPs, SPLIT);
    newNd.parent := nd.parent;
  }

  /** The loops that point the children of a split or merged node back at it. */
  method AdoptChildren(nd: Node, ghost kids: seq<Node>)
    requires Sized(nd) && !nd.isLeaf && |kids| == nd.numKeys + 1
    requires forall i | 0 <= i < |kids| :: nd.pointers[i] == Child(kids[i])
    modifies (set k <- kids)`parent
    ensures forall k <- kids :: k.parent == nd
  {
    for i := 0 to nd.numKeys + 1
      invariant forall j | 0 <= j < i :: kids[j].parent == nd
    {
      var child := nd.pointers[i].node;
      child.parent := nd;
    }
  }

  /** remove_entry: a leaf drops binding `index`; an inner node drops child `index` and the separator before it. */
  method RemoveEntry(nd: Node, index: nat)
    requires Sized(nd)
    requires if nd.isLeaf then index < nd.numKeys else 0 < index <= nd.numKeys
    modifies nd`numKeys, nd.keys, nd.pointers
    ensures var was := old(nd.View());
            nd.View() == was.(keys := RemoveAt(was.keys, if was.isLeaf then index else index - 1),
                              ptrs := RemoveAt(was.ptrs, index))
  {
    if nd.isLeaf {
      RemoveShift(nd.keys, index, nd.numKeys, NO_KEY);
      RemoveShift(nd.pointers, index, nd.numKeys, Null);
    } else {
      RemoveShift(nd.keys, index - 1, nd.numKeys, NO_KEY);
      RemoveShift(nd.pointers, index, nd.numKeys + 1, Null);
    }
    nd.numKeys := nd.numKeys - 1;
  }

  ghost predicate Siblings(nd: Node, neighbor: Node, parent: Node) {
    Sized(nd) && Sized(neighbor) && Sized(parent)
    && Apart(nd, neighbor) && Apart(nd, parent) && Apart(neighbor, parent)
  }

  lemma {:induction false} ViewAt(n: Node)
    requires Sized(n)
    ensures forall i | 0 <= i < n.numKeys :: n.View().keys[i] == n.keys[i]
    ensures forall i | 0 <= i < |n.View().ptrs| :: n.View().ptrs[i] == n.pointers[i]
  {}

  /* the parts of distribute_nodes, one node at a time */

  method PushFront(nd: Node, key: Key, ptr: Ptr)
    requires Sized(nd) && nd.numKeys < SIZE - 1
    modifies nd`numKeys, nd.keys, nd.pointers
    ensures nd.View() == old(nd.View()).(keys := [key] + old(nd.View()).keys, ptrs := [ptr] + old(nd.View()).ptrs)
  {
    hide InsertAt;
    ghost var a := nd.View();
    InsertFirst(a.keys, key);
    InsertFirst(a.ptrs, ptr);
    InsertShift(nd.keys, 0, nd.numKeys, key);
    InsertShift(nd.pointers, 0, if nd.isLeaf then nd.numKeys else nd.numKeys + 1, ptr);
    nd.numKeys := nd.numKeys + 1;
  }

  lemma {:induction false} InsertFirst<T>(s: seq<T>, x: T)
    ensures InsertAt(s, 0, x) == [x] + s
  {
  }

  method PushBack(nd: Node, key: Key, ptr: Ptr)
    requires Sized(nd) && nd.numKeys < SIZE - 1
    modifies nd`numKeys, nd.keys, nd.pointers
    ensures nd.View() == old(nd.View()).(keys := old(nd.View()).keys + [key], ptrs := old(nd.View()).ptrs + [ptr])
  {
    ghost var a := nd.View();
    nd.keys[nd.numKeys] := key;
    nd.pointers[if nd.isLeaf then nd.numKeys else nd.numKeys + 1] := ptr;
    nd.numKeys := nd.numKeys + 1;
    assert nd.View().keys == a.keys + [key];
    assert nd.View().ptrs == a.ptrs + [ptr];
  }

  method DropLast(nd: Node)
    requires Sized(nd) && 0 < nd.numKeys
    modifies nd`numKeys, nd.keys, nd.pointers
    ensures var b := old(nd.View());
            nd.View() == b.(keys := b.keys[..|b.keys| - 1], ptrs := b.ptrs[..|b.ptrs| - 1])
  {
    ghost var b := nd.View();
    nd.keys[nd.numKeys - 1] := NO_KEY;
    nd.pointers[if nd.isLeaf then nd.numKeys - 1 else nd.numKeys] := Null;
    nd.numKeys := nd.numKeys - 1;
    assert nd.View().keys == b.keys[..|b.keys| - 1];
    assert nd.View().ptrs == b.ptrs[..|b.ptrs| - 1];
  }

  method DropFirst(nd: Node)
    requires Sized(nd) && 0 < nd.numKeys
    modifies nd`numKeys, nd.keys, nd.pointers
    ensures var b := old(nd.View()); nd.View() == b.(keys := b.keys[1..], ptrs := b.ptrs[1..])
  {
    ghost var b := nd.View();
    RemoveShift(nd.keys, 0, nd.numKeys, NO_KEY);
    RemoveShift(nd.pointers, 0, if nd.isLeaf then nd.numKeys else nd.numKeys + 1, Null);
    nd.numKeys := nd.numKeys - 1;
    assert nd.View().keys == b.keys[1..];
    assert nd.View().ptrs == b.ptrs[1..];
  }

  method SetKey(parent: Node, i: nat, key: Key)
    requires Sized(parent) && i < parent.numKeys
    modifies parent.keys
    ensures parent.View() == old(parent.View()).(keys := old(parent.View()).keys[i := key])
  {
    parent.keys[i] := key;
  }

  method SetParent(child: Node, nd: Node)
    requires Sized(child)
    modifies child`parent
    ensures child.View() == old(child.View()).(parent := nd)
  {
    child.parent := nd;
  }

  /** distribute_nodes, leaves: the last binding of the left neighbour moves over. */
  method BorrowLeafFromLeft(nd: Node, neighbor: Node, parent: Node, ndIndex: nat)
    requires Siblings(nd, neighbor, parent) && nd.isLeaf && neighbor.isLeaf && !parent.isLeaf
    requires 0 < ndIndex <= parent.numKeys && nd.numKeys < SIZE - 1 && 0 < neighbor.numKeys
    modifies nd`numKeys, nd.keys, nd.pointers, neighbor`numKeys, neighbor.keys, neighbor.pointers, parent.keys
    ensures var a := old(nd.View()); var b := old(neighbor.View()); var p := old(parent.View());
            var n := |b.keys| - 1;
            && nd.View() == a.(keys := [b.keys[n]] + a.keys, ptrs := [b.ptrs[n]] + a.ptrs)
            && neighbor.View() == b.(keys := b.keys[..n], ptrs := b.ptrs[..n])
            && parent.View() == p.(keys := p.keys[ndIndex - 1 := b.keys[n]])
  {
    hide Node.View;
    ViewAt(neighbor);
    var key := neighbor.keys[neighbor.numKeys - 1];
    PushFront(nd, key, neighbor.pointers[neighbor.numKeys - 1]);
    DropLast(neighbor);
    SetKey(parent, ndIndex - 1, key);
  }

  /**
   * distribute_nodes, inner nodes: the left neighbour's last child moves over, its last key goes up and the
   * separator comes down.
   */
  method BorrowChildFromLeft(nd: Node, neighbor: Node, parent: Node, ndIndex: nat, tmp: Node)
    requires Siblings(nd, neighbor, parent) && !nd.isLeaf && !neighbor.isLeaf && !parent.isLeaf
    requires 0 < ndIndex <= parent.numKeys && nd.numKeys < SIZE - 1 && 0 < neighbor.numKeys
    requires neighbor.pointers[neighbor.numKeys] == Child(tmp) && tmp !in {nd, neighbor, parent}
    requires Sized(tmp) && Apart(tmp, nd) && Apart(tmp, neighbor) && Apart(tmp, parent)
    modifies nd`numKeys, nd.keys, nd.pointers, neighbor`numKeys, neighbor.keys, neighbor.pointers, parent.keys,
             tmp`parent
    ensures var a := old(nd.View()); var b := old(neighbor.View()); var p := old(parent.View());
            var n := |b.keys| - 1;
            && nd.View() == a.(keys := [p.keys[ndIndex - 1]] + a.keys, ptrs := [Child(tmp)] + a.ptrs)
            && neighbor.View() == b.(keys := b.keys[..n], ptrs := b.ptrs[..n + 1])
            && parent.View() == p.(keys := p.keys[ndIndex - 1 := b.keys[n]])
    ensures tmp.View() == old(tmp.View()).(parent := nd)
  {
    hide Node.View;
    ViewAt(neighbor);
    ViewAt(parent);
    PushFront(nd, parent.keys[ndIndex - 1], neighbor.pointers[neighbor.numKeys]);
    SetParent(tmp, nd);
    SetKey(parent, ndIndex - 1, neighbor.keys[neighbor.numKeys - 1]);
    DropLast(neighbor);
  }

  /** distribute_nodes, leaves: the leftmost leaf takes the first binding of its right neighbour. */
  method BorrowLeafFromRight(nd: Node, neighbor: Node, parent: Node)
    requires Siblings(nd, neighbor, parent) && nd.isLeaf && neighbor.isLeaf && !parent.isLeaf
    requires 0 < parent.numKeys && nd.numKeys < SIZE - 1 && 1 < neighbor.numKeys
    modifies nd`numKeys, nd.keys, nd.pointers, neighbor`numKeys, neighbor.keys, neighbor.pointers, parent.keys
    ensures var a := old(nd.View()); var b := old(neighbor.View()); var p := old(parent.View());
            && nd.View() == a.(keys := a.keys + [b.keys[0]], ptrs := a.ptrs + [b.ptrs[0]])
            && neighbor.View() == b.(keys := b.keys[1..], ptrs := b.ptrs[1..])
            && parent.View() == p.(keys := p.keys[0 := b.keys[1]])
  {
    hide Node.View;
    ViewAt(neighbor);
    PushBack(nd, neighbor.keys[0], neighbor.pointers[0]);
    SetKey(parent, 0, neighbor.keys[1]);
    DropFirst(neighbor);
  }

  /**
   * distribute_nodes, inner nodes: the separator comes down and the right neighbour's first key and child move
   * over.
   */
  method BorrowChildFromRight(nd: Node, neighbor: Node, parent: Node, tmp: Node)
    requires Siblings(nd, neighbor, parent) && !nd.isLeaf && !neighbor.isLeaf && !parent.isLeaf
    requires 0 < parent.numKeys && nd.numKeys < SIZE - 1 && 0 < neighbor.numKeys
    requires neighbor.pointers[0] == Child(tmp) && tmp !in {nd, neighbor, parent}
    requires Sized(tmp) && Apart(tmp, nd) && Apart(tmp, neighbor) && Apart(tmp, parent)
    modifies nd`numKeys, nd.keys, nd.pointers, neighbor`numKeys, neighbor.keys, neighbor.pointers, parent.keys,
             tmp`parent
    ensures var a := old(nd.View()); var b := old(neighbor.View()); var p := old(parent.View());
            && nd.View() == a.(keys := a.keys + [p.keys[0]], ptrs := a.ptrs + [Child(tmp)])
            && neighbor.View() == b.(keys := b.keys[1..], ptrs := b.ptrs[1..])
            && parent.View() == p.(keys := p.keys[0 := b.keys[0]])
    ensures tmp.View() == old(tmp.View()).(parent := nd)
  {
    hide Node.View;
    ViewAt(neighbor);
    ViewAt(parent);
    PushBack(nd, parent.keys[0], neighbor.pointers[0]);
    SetParent(tmp, nd);
    SetKey(parent, 0, neighbor.keys[0]);
    DropFirst(neighbor);
  }

  method MergeLeaves(neighbor: Node, nd: Node)
    requires Sized(nd) && Sized(neighbor) && Apart(nd, neighbor) && nd.isLeaf && neighbor.isLeaf
    requires neighbor.numKeys + nd.numKeys <= SIZE - 1
    modifies neighbor`numKeys, neighbor.keys, neighbor.pointers
    ensures var a := old(neighbor.View()); var b := old(nd.View());
            neighbor.View() == a.(keys := a.keys + b.keys, ptrs := a.ptrs + b.ptrs, next := b.next)
  {
    ghost var a, b := neighbor.View(), nd.View();
    var start := neighbor.numKeys;
    Append(nd.keys, nd.numKeys, neighbor.keys, start);
    Append(nd.pointers, nd.numKeys, neighbor.pointers, start);
    neighbor.numKeys := neighbor.numKeys + nd.numKeys;
    neighbor.pointers[SIZE - 1] := nd.pointers[SIZE - 1];
    assert neighbor.View().keys == a.keys + b.keys;
    assert neighbor.View().ptrs == a.ptrs + b.ptrs;
  }

  method MergeInner(neighbor: Node, nd: Node, sep: Key)
    requires Sized(nd) && Sized(neighbor) && Apart(nd, neighbor) && !nd.isLeaf && !neighbor.isLeaf
    requires neighbor.numKeys + nd.numKeys <= SIZE - 2
    modifies neighbor`numKeys, neighbor.keys, neighbor.pointers
    ensures var a := old(neighbor.View()); var b := old(nd.View());
            neighbor.View() == a.(keys := a.keys + [sep] + b.keys, ptrs := a.ptrs + b.ptrs)
  {
    ghost var a, b := neighbor.View(), nd.View();
    var start := neighbor.numKeys;
    neighbor.keys[start] := sep;
    Append(nd.keys, nd.numKeys, neighbor.keys, start + 1);
    Append(nd.pointers, nd.numKeys + 1, neighbor.pointers, start + 1);
    neighbor.numKeys := neighbor.numKeys + nd.numKeys + 1;
    assert neighbor.View().keys == a.keys + [sep] + b.keys;
    assert neighbor.View().ptrs == a.ptrs + b.ptrs;
  }

  /** The copying part of coalesce_nodes: `neighbor` takes over everything its right sibling `nd` holds. */
  method MergeInto(neighbor: Node, nd: Node, sep: Key)
    requires Sized(nd) && Sized(neighbor) && Apart(nd, neighbor) && nd.isLeaf == neighbor.isLeaf
    requires neighbor.numKeys + nd.numKeys <= if nd.isLeaf then SIZE - 1 else SIZE - 2
    modifies neighbor`numKeys, neighbor.keys, neighbor.pointers
    ensures var a := old(neighbor.View()); var b := old(nd.View());
            neighbor.View() == if a.isLeaf
              then a.(keys := a.keys + b.keys, ptrs := a.ptrs + b.ptrs, next := b.next)
              else a.(keys := a.keys + [sep] + b.keys, ptrs := a.ptrs + b.ptrs)
  {
    hide Node.View;
    if nd.isLeaf {
      MergeLeaves(neighbor, nd);
    } else {
      MergeInner(neighbor, nd, sep);
    }
  }
}
