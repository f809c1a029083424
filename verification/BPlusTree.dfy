module BPlusTree {
  import opened Keys
  import opened BPlusNode
  import opened NodeOps
  import opened HeapOps
  import opened TreeModel
  import opened InOrder
  import opened InsertProofs
  import opened Insert
  import opened Search
  import opened LeafProofs
  import opened DeleteProofs
  import opened Delete

  /** The scan of insert: the slot for `key`, or the slot that already has it. */
  method InsertSlot(leaf: Node, key: Key) returns (index: nat, duplicate: bool)
    requires Sized(leaf) && leaf.isLeaf && leaf.numKeys > 0
    ensures index <= leaf.numKeys && forall j | 0 <= j < index :: Lt(leaf.keys[j], key)
    ensures duplicate ==> index < leaf.numKeys && leaf.keys[index] == key
    ensures !duplicate && index < leaf.numKeys ==> Lt(key, leaf.keys[index])
  {
    index := 0;
    var cond := StrCmp(leaf.keys[0], key);
    while index < leaf.numKeys && cond < 0
      invariant 0 <= index <= leaf.numKeys
      invariant forall j | 0 <= j < index :: Lt(leaf.keys[j], key)
      invariant index < leaf.numKeys ==> cond == StrCmp(leaf.keys[index], key)
      invariant index == leaf.numKeys ==> cond < 0
    {
      index := index + 1;
      if index < leaf.numKeys {
        cond := StrCmp(leaf.keys[index], key);
      }
    }
    duplicate := cond == 0;
    if index < leaf.numKeys {
      TotalOrder(leaf.keys[index], key);
    }
  }

  /** The scan of find, is_key_exist and delete. */
  method KeySlot(leaf: Node, key: Key) returns (i: nat)
    requires Sized(leaf) && leaf.isLeaf
    ensures i <= leaf.numKeys && key !in leaf.keys[..i]
    ensures i < leaf.numKeys ==> leaf.keys[i] == key
  {
    i := 0;
    while i < leaf.numKeys && StrCmp(leaf.keys[i], key) != 0
      invariant 0 <= i <= leaf.numKeys && key !in leaf.keys[..i]
    {
      StrCmpZero(leaf.keys[i], key);
      assert leaf.keys[..i + 1] == leaf.keys[..i] + [leaf.keys[i]];
      i := i + 1;
    }
    if i < leaf.numKeys {
      StrCmpZero(leaf.keys[i], key);
    }
  }

  /** insert_into_leaf_after_splitting. */
  method InsertIntoLeafAfterSplitting(root: Node, leaf: Node, index: nat, key: Key, data: Value,
                                      ghost R: set<object>, ghost S: set<Node>, ghost t: Tree, ghost c: Ctx,
                                      ghost lt: Tree)
    returns (newRoot: Node, ghost Q: set<object>, ghost T: set<Node>, ghost t': Tree)
    requires Owns(R, S) && Proper(Snap(R, S), t) && root == t.id
    requires Under(Snap(R, S), t, c, lt, 0) && lt.LeafT? && leaf == lt.id && Narrowed(c, key)
    requires SlotFor(lt.keys, index, key) && leaf in S && leaf.isLeaf && leaf.numKeys == SIZE - 1
               && index <= leaf.numKeys
    modifies R
    ensures Owns(Q, T) && S <= T && fresh(Q - R)
    ensures Proper(Snap(Q, T), t') && newRoot == t'.id
    ensures key !in Bindings(t) && Bindings(t') == Bindings(t)[key := data]
    ensures Height(t) <= Height(t') <= Height(t) + 1
  {
    hide Proper, Under, Narrowed, SlotFor, CtxHeight, Height, Pending, Inserted, Plug, Bindings, Chained, Sorted,
         Leaves, Node.View;
    ghost var H := Snap(R, S);
    ghost var R', S';
    var newLeaf;
    newLeaf, R', S' := SplitOuter(leaf, index, key, data, R, S);
    ghost var H1 := Snap(R', S');
    ghost var l, r := LeafSplits(H, H1, t, c, lt, index, key, data, newLeaf);
    var newKey := newLeaf.keys[0];
    newRoot, Q, T, t' := InsertIntoParent(root, leaf, newLeaf, newKey, R', S', c, l, r, 0);
    UnderHeight(H, t, c, lt);
    InsertedProper(H1, Snap(Q, T), t', c, l, newKey, r);
  }

  /** insert on a tree that is not empty. A key that is already there keeps its record. */
  method InsertKey(root: Node, key: Key, data: Value, ghost R: set<object>, ghost S: set<Node>, ghost t: Tree)
    returns (newRoot: Node, ghost Q: set<object>, ghost T: set<Node>, ghost t': Tree)
    requires Owns(R, S) && Proper(Snap(R, S), t) && root == t.id
    modifies R
    ensures Owns(Q, T) && S <= T && fresh(Q - R)
    ensures Proper(Snap(Q, T), t') && newRoot == t'.id
    ensures if key in Bindings(t) then t' == t && Snap(Q, T) == old(Snap(R, S))
            else Bindings(t') == Bindings(t)[key := data]
    ensures Height(t) <= Height(t') <= Height(t) + 1
  {
    hide Height, Proper, Under, Narrowed, SlotFor, Bindings, Walk;
    ghost var H := Snap(R, S);
    ghost var c, lt;
    var leaf;
    leaf, c, lt := FindLeaf(root, key, R, S, t);
    LeafFacts(H, t, c, lt, key);
    var index, duplicate := InsertSlot(leaf, key);
    if duplicate {
      return root, R, S, t;
    }
    SlotFound(c, lt.id, lt.keys, lt.vals, index, key);
    if leaf.numKeys < SIZE - 1 {
      GrowLeaf(leaf, index, key, data, R, S);
      newRoot, Q, T := root, R, S;
      t' := LeafGrows(H, Snap(R, S), t, c, lt, index, key, data);
    } else {
      newRoot, Q, T, t' := InsertIntoLeafAfterSplitting(root, leaf, index, key, data, R, S, t, c, lt);
    }
  }

  /** delete on a tree that is not empty. */
  method DeleteKey(root: Node, key: Key, ghost R: set<object>, ghost S: set<Node>, ghost t: Tree)
    returns (newRoot: Node?, ghost r: Option<Tree>)
    requires Owns(R, S) && Proper(Snap(R, S), t) && root == t.id
    modifies R
    ensures match r
            case None => newRoot == null && Bindings(t) - {key} == map[] && Height(t) == 0
            case Some(t') =>
              && newRoot == t'.id && Proper(Snap(R, S), t') && Bindings(t') == Bindings(t) - {key}
              && Height(t') <= Height(t) <= Height(t') + 1
    ensures key !in Bindings(t) ==> r == Some(t) && Snap(R, S) == old(Snap(R, S))
  {
    hide Proper, Under, Narrowed, Walk, Removing, Plug, Around, CtxHeight, Height;
    ghost var H := Snap(R, S);
    ghost var c, lt;
    var leaf;
    leaf, c, lt := FindLeaf(root, key, R, S, t);
    LeafFacts(H, t, c, lt, key);
    var i := KeySlot(leaf, key);
    if i == leaf.numKeys {
      assert leaf.keys[..i] == lt.keys;
      assert Bindings(t) - {key} == Bindings(t);
      return root, Some(t);
    }
    ghost var rest := DeleteStart(H, t, c, lt, i);
    newRoot, r := DeleteEntry(root, leaf, i, R, S, c, rest, 0);
    assert lt.keys[i] == key;
  }

  /** The index as its callers hold it: `tree_root` with its `node_root`. */
  class TreeRoot {
    var nodeRoot: Node?
    ghost var tree: Option<Tree>  // the tree the nodes stand for
    ghost var nodes: set<Node>    // every node ever made for it
    ghost var Repr: set<object>   // those nodes and their buffers

    ghost predicate Valid()
      reads this, Repr
    {
      && this !in Repr && Owns(Repr, nodes)
      && match tree
         case None => nodeRoot == null
         case Some(t) => nodeRoot == t.id && Proper(Snap(Repr, nodes), t)
    }

    ghost function Contents(): map<Key, Value>
      reads this
    {
      if tree.None? then map[] else Bindings(tree.value)
    }

    // The number of levels: none for an empty tree.
    ghost function Levels(): nat
      reads this
    {
      if tree.None? then 0 else Height(tree.value) + 1
    }

    constructor ()
      ensures Valid() && fresh(Repr) && Contents() == map[] && nodeRoot == null
    {
      nodeRoot, tree, nodes, Repr := null, None, {}, {};
    }

    /** find. */
    method Find(key: Key) returns (r: Option<Value>)
      requires Valid()
      ensures r == if key in Contents() then Some(Contents()[key]) else None
    {
      if nodeRoot == null {
        return None;
      }
      ghost var c, lt;
      var leaf;
      leaf, c, lt := FindLeaf(nodeRoot, key, Repr, nodes, tree.value);
      LeafFacts(Snap(Repr, nodes), tree.value, c, lt, key);
      var i := KeySlot(leaf, key);
      if i == leaf.numKeys {
        assert leaf.keys[..i] == lt.keys;
        return None;
      }
      assert leaf.View().ptrs[i] == Data(lt.vals[i]) && lt.keys[i] == key;
      r := Some(leaf.pointers[i].value);
    }

    /** is_key_exist. */
    method IsKeyExist(key: Key) returns (b: bool)
      requires Valid()
      ensures b <==> key in Contents()
    {
      if nodeRoot == null {
        return false;
      }
      ghost var c, lt;
      var leaf;
      leaf, c, lt := FindLeaf(nodeRoot, key, Repr, nodes, tree.value);
      LeafFacts(Snap(Repr, nodes), tree.value, c, lt, key);
      var i := KeySlot(leaf, key);
      assert leaf.keys[..leaf.numKeys] == lt.keys;
      assert i < leaf.numKeys ==> lt.keys[i] == key;
      b := i != leaf.numKeys;
    }

    /** insert, or make_new_tree while the tree is empty. */
    method Insert(key: Key, data: Value)
      requires Valid()
      modifies this, Repr
      ensures Valid() && fresh(Repr - old(Repr))
      ensures Contents() == if key in old(Contents()) then old(Contents()) else old(Contents())[key := data]
      ensures old(Levels()) <= Levels() <= old(Levels()) + 1
    {
      hide Proper, Bindings, Height, Owns, Snap, Node.View;
      if nodeRoot == null {
        nodeRoot, nodes, Repr, tree := MakeNewTree(key, data);
      } else {
        ghost var t;
        nodeRoot, Repr, nodes, t := InsertKey(nodeRoot, key, data, Repr, nodes, tree.value);
        tree := Some(t);
      }
    }

    /** delete. */
    method Delete(key: Key)
      requires Valid()
      modifies this, Repr
      ensures Valid() && Repr == old(Repr)
      ensures Contents() == old(Contents()) - {key}
      ensures Levels() <= old(Levels()) <= Levels() + 1
    {
      hide Proper, Bindings, Height, Owns, Snap, Node.View;
      if nodeRoot != null {
        nodeRoot, tree := DeleteKey(nodeRoot, key, Repr, nodes, tree.value);
      }
    }
  }

  /** make_new_tree. */
  method MakeNewTree(key: Key, data: Value)
    returns (root: Node, ghost S: set<Node>, ghost R: set<object>, ghost r: Option<Tree>)
    ensures fresh(R) && Owns(R, S)
    ensures r.Some? && root == r.value.id && Proper(Snap(R, S), r.value)
    ensures Bindings(r.value) == map[key := data] && Height(r.value) == 0
  {
    root := new Node(true);
    root.pointers[0] := Data(data);
    root.keys[0] := key;
    root.pointers[SIZE - 1] := Null;
    root.numKeys := root.numKeys + 1;
    S, R := {root}, {root, root.keys, root.pointers};
    ghost var t := LeafT(root, [key], [data]);
    r := Some(t);
    assert root.View() == Cell(true, [key], [Data(data)], Null, null);
    SingleLeaf(Snap(R, S), root, key, data);
  }

  lemma {:induction false} SingleLeaf(H: Heap, n: Node, key: Key, data: Value)
    requires n in H && H[n] == Cell(true, [key], [Data(data)], Null, null)
    ensures var t := LeafT(n, [key], [data]);
            Proper(H, t) && Bindings(t) == map[key := data] && Height(t) == 0
  {
    var t := LeafT(n, [key], [data]);
    assert Items(t) == [Mark(n), Ent(key, data)];
    var s := Items(t);
    assert s[1..] == [Ent(key, data)] && s[1..][1..] == [];
    assert Entries(s) == Entries(s[1..]) && Entries(s[1..]) == [(key, data)] + Entries(s[1..][1..]);
    assert Entries(s) == [(key, data)];
    assert [(key, data)][..0] == [];
    assert Leaves(s) == [n] + Leaves(s[1..]) && Leaves(s[1..]) == Leaves(s[1..][1..]);
    assert Leaves(s) == [n];
    assert ToMap([(key, data)]) == map[key := data];
    assert DataPtrs([data]) == [Data(data)];
    assert Once(Ids(t)) && Sorted(s);
  }
}
