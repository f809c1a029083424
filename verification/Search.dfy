/** find_leaf, find and is_key_exist: the single path a key is looked up on. */
module Search {
  import opened Keys
  import opened BPlusNode
  import opened NodeOps
  import opened TreeModel
  import opened InOrder

  /** A tree as every operation finds it and leaves it. */
  ghost predicate Proper(H: Heap, t: Tree) {
    Whole(H, t) && Sorted(Items(t)) && Chained(H, Leaves(Items(t)))
  }

  ghost function Bindings(t: Tree): map<Key, Value> {
    ToMap(Entries(Items(t)))
  }

  /** `ct` sits in the tree `t` under the ancestors `c`. */
  ghost predicate Under(H: Heap, t: Tree, c: Ctx, ct: Tree, h: nat) {
    && Plug(c, ct) == t
    && HoldsCtx(H, c, ct.id) && Holds(H, ct) && H[ct.id].parent == CtxId(c)
    && CtxShape(c, h) && Shape(ct, h, LeastKeys(c, h))
    && Once(CtxIds(c) + Ids(ct))
  }

  /** No key outside the subtree in the hole of `c` can be `key`. */
  ghost predicate Narrowed(c: Ctx, key: Key) {
    AllBefore(Left(c), Ent(key, 0)) && AllAfter(Ent(key, 0), Right(c))
  }

  ghost function Into(c: Ctx, t: Tree, i: nat): Ctx
    requires t.InnerT? && i < |t.kids| == |t.keys| + 1
  {
    Frame(c, t.id, t.keys[..i], t.kids[..i], t.keys[i..], t.kids[i + 1..])
  }

  /** One step of find_leaf: the focus moves to child `i`. */
  lemma {:induction false} DescendUnder(H: Heap, t: Tree, c: Ctx, ct: Tree, h: nat, i: nat)
    requires Under(H, t, c, ct, h) && ct.InnerT? && i <= |ct.keys|
    ensures h > 0 && |ct.kids| == |ct.keys| + 1 && Under(H, t, Into(c, ct, i), ct.kids[i], h - 1)
  {
    ChildFills(c, ct, i);
    ChildHolds(H, c, ct, i);
    ChildShape(c, ct, h, i);
    ChildOnce(c, ct, i);
  }

  lemma {:induction false} ChildFills(c: Ctx, ct: Tree, i: nat)
    requires ct.InnerT? && i < |ct.kids| == |ct.keys| + 1
    ensures Filled(Into(c, ct, i), ct.kids[i]) == ct && ct.kids[i] in ct.kids
    ensures ct.keys == ct.keys[..i] + ct.keys[i..] && ct.kids == ct.kids[..i] + [ct.kids[i]] + ct.kids[i + 1..]
  {}

  lemma {:induction false} ChildHolds(H: Heap, c: Ctx, ct: Tree, i: nat)
    requires ct.InnerT? && i < |ct.kids| == |ct.keys| + 1
    requires Holds(H, ct) && HoldsCtx(H, c, ct.id) && H[ct.id].parent == CtxId(c)
    ensures var kid := ct.kids[i];
            HoldsCtx(H, Into(c, ct, i), kid.id) && Holds(H, kid) && H[kid.id].parent == ct.id
  {
    var kid, lefts, rights := ct.kids[i], ct.kids[..i], ct.kids[i + 1..];
    ChildFills(c, ct, i);
    HoldsAllParts3(H, lefts, kid, rights, ct.id);
    assert ChildPtrs(ct.kids) == ChildPtrs(lefts) + [Child(kid.id)] + ChildPtrs(rights);
  }

  lemma {:induction false} HoldsAllParts3(H: Heap, a: seq<Tree>, k: Tree, b: seq<Tree>, id: Node)
    requires HoldsAll(H, a + [k] + b, id)
    ensures HoldsAll(H, a, id) && Holds(H, k) && H[k.id].parent == id && HoldsAll(H, b, id)
  {
    var kids := a + [k] + b;
    forall t <- a ensures t in kids {}
    forall t <- b ensures t in kids {}
    assert k in kids;
  }

  lemma {:induction false} ChildShape(c: Ctx, ct: Tree, h: nat, i: nat)
    requires CtxShape(c, h) && Shape(ct, h, LeastKeys(c, h)) && ct.InnerT? && i <= |ct.keys|
    ensures h > 0 && |ct.kids| == |ct.keys| + 1
    ensures CtxShape(Into(c, ct, i), h - 1) && Shape(ct.kids[i], h - 1, MinKeys(h - 1))
  {
    var lefts, rights := ct.kids[..i], ct.kids[i + 1..];
    forall t <- lefts ensures t in ct.kids {}
    forall t <- rights ensures t in ct.kids {}
    assert ct.kids[i] in ct.kids;
    assert AllShape(lefts, h - 1) && AllShape(rights, h - 1);
  }

  lemma {:induction false} ChildOnce(c: Ctx, ct: Tree, i: nat)
    requires ct.InnerT? && i < |ct.kids| == |ct.keys| + 1 && Once(CtxIds(c) + Ids(ct))
    ensures Once(CtxIds(Into(c, ct, i)) + Ids(ct.kids[i]))
  {
    var kid, lefts, rights := ct.kids[i], ct.kids[..i], ct.kids[i + 1..];
    ChildFills(c, ct, i);
    IdsAround(lefts, kid, rights);
    Regroup3(multiset{ct.id}, IdsOf(lefts), Ids(kid), IdsOf(rights), CtxIds(c));
  }

  lemma {:induction false} Regroup3(p: multiset<Node>, a: multiset<Node>, k: multiset<Node>, b: multiset<Node>,
                                    up: multiset<Node>)
    ensures up + (p + (a + k + b)) == p + a + b + up + k
  {}

  /** One step of find_leaf: child `i` is the only one that can lead to `key`. */
  lemma {:induction false} DescendNarrowed(c: Ctx, ct: Tree, i: nat, key: Key)
    requires Sorted(Left(c) + Items(ct) + Right(c)) && ct.InnerT? && i < |ct.kids| == |ct.keys| + 1
    requires Narrowed(c, key)
    requires i > 0 ==> Le(ct.keys[i - 1], key)
    requires i < |ct.keys| ==> Lt(key, ct.keys[i])
    ensures Narrowed(Into(c, ct, i), key)
  {
    var lk, lefts, rk, rights := ct.keys[..i], ct.kids[..i], ct.keys[i..], ct.kids[i + 1..];
    ChildFills(c, ct, i);
    RowAround(lk, lefts, ct.kids[i], rk, rights);
    SortedNest(Left(c), LeftRow(lk, lefts), Items(ct.kids[i]), RightRow(rk, rights), Right(c));
    LeftStep(Left(c), lk, lefts, key);
    RightStep(Right(c), rk, rights, key);
  }

  lemma {:induction false} LeftStep(a: seq<Item>, lk: seq<Key>, lefts: seq<Tree>, key: Key)
    requires Sorted(a + LeftRow(lk, lefts)) && AllBefore(a, Ent(key, 0))
    requires lk != [] ==> Le(lk[|lk| - 1], key)
    ensures AllBefore(a + LeftRow(lk, lefts), Ent(key, 0))
  {
    hide Row;
    if lk != [] {
      var n := |lk| - 1;
      var r, s := Row(lk[..n], lefts), Sep(lk[n]);
      assert a + LeftRow(lk, lefts) == (a + r) + [s] + [];
      SortedAround(a + r, s, []);
      AllBeforeTrans(a + r, s, Ent(key, 0));
    }
  }

  lemma {:induction false} RightStep(b: seq<Item>, rk: seq<Key>, rights: seq<Tree>, key: Key)
    requires Sorted(RightRow(rk, rights) + b) && AllAfter(Ent(key, 0), b)
    requires rk != [] ==> Lt(key, rk[0])
    ensures AllAfter(Ent(key, 0), RightRow(rk, rights) + b)
  {
    hide Row;
    if rk != [] {
      var r, s := Row(rk[1..], rights), Sep(rk[0]);
      assert RightRow(rk, rights) + b == [] + [s] + (r + b);
      SortedAround([], s, r + b);
      AllAfterTrans(Ent(key, 0), s, r + b);
    }
  }

  lemma {:induction false} SortedNest(a: seq<Item>, l: seq<Item>, m: seq<Item>, r: seq<Item>, b: seq<Item>)
    requires Sorted(a + (l + m + r) + b)
    ensures Sorted(a + l) && Sorted(r + b)
  {
    var s := a + (l + m + r) + b;
    forall i, j | 0 <= i < j < |a + l| ensures Before((a + l)[i], (a + l)[j]) {
      assert s[i] == (a + l)[i] && s[j] == (a + l)[j];
    }
    var d := |a + l + m|;
    forall i, j | 0 <= i < j < |r + b| ensures Before((r + b)[i], (r + b)[j]) {
      assert s[d + i] == (r + b)[i] && s[d + j] == (r + b)[j];
    }
  }

  lemma {:induction false} UnderNode(H: Heap, t: Tree, c: Ctx, ct: Tree, h: nat)
    requires Under(H, t, c, ct, h)
    ensures ct.id in H && H[ct.id].keys == ct.keys && H[ct.id].isLeaf == ct.LeafT?
    ensures ct.InnerT? ==> h > 0 && H[ct.id].ptrs == ChildPtrs(ct.kids)
    ensures ct.LeafT? ==> h == 0 && |ct.keys| == |ct.vals| && H[ct.id].ptrs == DataPtrs(ct.vals)
    ensures Items(t) == Left(c) + Items(ct) + Right(c)
  {
    CtxShapeFramed(c, h);
    ItemsPlug(c, ct);
  }

  lemma {:induction false} UnderRoot(H: Heap, t: Tree)
    requires Whole(H, t)
    ensures Under(H, t, Top, t, Height(t))
  {
    assert CtxIds(Top) + Ids(t) == Ids(t);
  }

  /** The scan of one inner node in find_leaf. */
  method ChildSlot(nd: Node, key: Key) returns (i: nat)
    requires Sized(nd) && !nd.isLeaf
    ensures i <= nd.numKeys
    ensures i > 0 ==> Le(nd.keys[i - 1], key)
    ensures i < nd.numKeys ==> Lt(key, nd.keys[i])
  {
    i := 0;
    while i < nd.numKeys && StrCmp(nd.keys[i], key) <= 0
      invariant 0 <= i <= nd.numKeys
      invariant i > 0 ==> Le(nd.keys[i - 1], key)
    {
      i := i + 1;
    }
    if i < nd.numKeys {
      TotalOrder(nd.keys[i], key);
    }
  }

  /** find_leaf, always stepping to child `i`: it ends in the one leaf where `key` may be. */
  method FindLeaf(root: Node, key: Key, ghost R: set<object>, ghost S: set<Node>, ghost t: Tree)
    returns (nd: Node, ghost c: Ctx, ghost leaf: Tree)
    requires Owns(R, S) && Proper(Snap(R, S), t) && root == t.id
    ensures Under(Snap(R, S), t, c, leaf, 0) && leaf.LeafT? && nd == leaf.id && Narrowed(c, key)
    ensures nd in S && nd.isLeaf
  {
    hide Under, Narrowed, Holds, Items, Row;
    ghost var H := Snap(R, S);
    ghost var h := Height(t);
    nd, c, leaf := root, Top, t;
    UnderRoot(H, t);
    assert Narrowed(Top, key) by { NarrowedTop(key); }
    UnderNode(H, t, c, leaf, h);
    while !nd.isLeaf
      invariant nd in S && nd == leaf.id && Under(H, t, c, leaf, h) && Narrowed(c, key)
      invariant nd.isLeaf == leaf.LeafT?
      decreases h
    {
      UnderNode(H, t, c, leaf, h);
      var i := ChildSlot(nd, key);
      DescendUnder(H, t, c, leaf, h, i);
      DescendNarrowed(c, leaf, i, key);
      assert H[nd].ptrs[i] == Child(leaf.kids[i].id);
      nd := nd.pointers[i].node;
      c, leaf, h := Into(c, leaf, i), leaf.kids[i], h - 1;
      UnderNode(H, t, c, leaf, h);
    }
    UnderNode(H, t, c, leaf, h);
  }

  lemma {:induction false} NarrowedTop(key: Key)
    ensures Narrowed(Top, key)
  {}
}
