/** insert_into_parent and insert_into_node_after_splitting: the cascade of splits up to a new root. */
module Insert {
  import opened Keys
  import opened BPlusNode
  import opened Buffers
  import opened NodeOps
  import opened HeapOps
  import opened TreeModel
  import opened InsertProofs

  /** The cascade leaves a whole tree with the pending entry in it, one level higher at most; no leaf link changes. */
  ghost predicate Inserted(H: Heap, H': Heap, t: Tree, c: Ctx, l: Tree, key: Key, r: Tree, h: nat) {
    && Whole(H', t) && H.Keys <= H'.Keys
    && Items(t) == PendingItems(c, l, key, r)
    && CtxHeight(c, h) <= Height(t) <= CtxHeight(c, h) + 1
    && forall n <- H :: H'[n].next == H[n].next
  }

  /** The root was split: one level more. */
  method GrowRoot(left: Node, right: Node, key: Key, ghost R: set<object>, ghost S: set<Node>,
                  ghost l: Tree, ghost r: Tree, ghost h: nat)
    returns (newRoot: Node, ghost Q: set<object>, ghost T: set<Node>, ghost t: Tree)
    requires Owns(R, S) && Pending(Snap(R, S), Top, l, r, h)
    requires left == l.id && right == r.id && left in S && right in S && left != right
    modifies left`parent, right`parent
    ensures Owns(Q, T) && S <= T && fresh(Q - R)
    ensures newRoot == t.id && Inserted(old(Snap(R, S)), Snap(Q, T), t, Top, l, key, r, h)
  {
    hide Pending, Inserted, PendingItems, CtxHeight, Node.View;
    ghost var H := Snap(R, S);
    newRoot, Q, T := MakeNewRoot(left, right, key, R, S);
    t := InnerT(newRoot, [key], [l, r]);
    NewRootWhole(H, Snap(Q, T), l, key, r, h, newRoot);
  }

  method InsertIntoParent(root: Node, left: Node, right: Node, key: Key,
                          ghost R: set<object>, ghost S: set<Node>,
                          ghost c: Ctx, ghost l: Tree, ghost r: Tree, ghost h: nat)
    returns (newRoot: Node, ghost Q: set<object>, ghost T: set<Node>, ghost t: Tree)
    requires Owns(R, S) && Pending(Snap(R, S), c, l, r, h)
    requires left == l.id && right == r.id && root == Plug(c, l).id
    modifies R
    ensures Owns(Q, T) && S <= T && fresh(Q - R)
    ensures newRoot == t.id && Inserted(old(Snap(R, S)), Snap(Q, T), t, c, l, key, r, h)
    decreases c, 1
  {
    hide Pending, Inserted, Plug, PendingItems, CtxHeight, Node.View, InsertAt;
    ghost var H := Snap(R, S);
    PendingSlot(H, c, l, r, h);
    var parent := left.parent;
    if parent == null {
      newRoot, Q, T, t := GrowRoot(left, right, key, R, S, l, r, h);
      return;
    }
    ViewAt(parent);
    var index := ChildIndex(parent, left, |c.lefts|);
    if parent.numKeys < SIZE - 1 {
      GrowNode(parent, right, index, key, R, S);
      Q, T, newRoot := R, S, root;
      t := ParentGrows(H, Snap(Q, T), c, l, key, r, h);
    } else {
      newRoot, Q, T, t := InsertIntoNodeAfterSplitting(root, parent, right, index, key, R, S, c, l, r, h);
    }
  }

  method InsertIntoNodeAfterSplitting(root: Node, nd: Node, right: Node, index: nat, key: Key,
                                      ghost R: set<object>, ghost S: set<Node>,
                          ghost c: Ctx, ghost l: Tree, ghost r: Tree, ghost h: nat)
    returns (newRoot: Node, ghost Q: set<object>, ghost T: set<Node>, ghost t: Tree)
    requires Owns(R, S) && c.Frame? && Pending(Snap(R, S), c, l, r, h)
    requires nd == c.id && right == r.id && root == Plug(c, l).id
    requires nd.numKeys == SIZE - 1 && index == |c.lefts|
    modifies R
    ensures Owns(Q, T) && S <= T && fresh(Q - R)
    ensures newRoot == t.id && Inserted(old(Snap(R, S)), Snap(Q, T), t, c, l, key, r, h)
    decreases c, 0
  {
    hide Pending, Inserted, Plan, Plug, PendingItems, Node.View, InsertAt, SplitCells, Adopted, Children;
    ghost var H := Snap(R, S);
    PendingSlot(H, c, l, r, h);
    ghost var ks, ps, moved := PlanSplit(H, c, l, r, h, key);
    ghost var R', S';
    var newNd, newKey;
    newNd, newKey, R', S' := SplitAndAdopt(nd, right, index, key, R, S, ks, ps, moved);
    ghost var H2 := Snap(R', S');
    ghost var a, b := SplitPending(H, H2, c, l, key, r, h, newNd, ks, ps, moved);
    newRoot, Q, T, t := InsertIntoParent(root, nd, newNd, newKey, R', S', c.up, a, b, h + 1);
    InsertedUp(H, H2, Snap(Q, T), t, c, l, key, r, h, a, newKey, b);
  }

  /** Where insert_into_parent finds `l` in its parent. */
  lemma {:induction false} PendingSlot(H: Heap, c: Ctx, l: Tree, r: Tree, h: nat)
    requires Pending(H, c, l, r, h)
    ensures l.id in H && r.id in H && l.id != r.id && H[l.id].parent == CtxId(c)
    ensures c.Frame? ==>
      var p := c.id;
      && p in H && !H[p].isLeaf && |H[p].keys| == |c.lk| + |c.rk| && |H[p].ptrs| == |H[p].keys| + 1
      && |c.lk| == |c.lefts| && H[p].ptrs[|c.lefts|] == Child(l.id)
      && forall j | 0 <= j < |c.lefts| :: H[p].ptrs[j] != Child(l.id)
  {
    PendingApart(H, c, l, r, h);
    hide Holds, Once, Ids, IdsOf, CtxIds;
  }

  lemma {:induction false} PendingApart(H: Heap, c: Ctx, l: Tree, r: Tree, h: nat)
    requires Pending(H, c, l, r, h)
    ensures l.id != r.id && (c.Frame? ==> forall j | 0 <= j < |c.lefts| :: c.lefts[j].id != l.id)
  {
    hide Holds, HoldsCtx, Shape, CtxShape;
    RootIn(l);
    RootIn(r);
    OnceParts(CtxIds(c), Ids(l), Ids(r));
    if c.Frame? {
      forall j | 0 <= j < |c.lefts| ensures c.lefts[j].id != l.id {
        IdsOfAt(c.lefts, j);
        assert c.lefts[j].id in CtxIds(c);
      }
    }
  }

  ghost function KidNodes(kids: seq<Tree>): (ns: seq<Node>)
    ensures |ns| == |kids| && forall i | 0 <= i < |ns| :: ns[i] == kids[i].id
  {
    seq(|kids|, i requires 0 <= i < |kids| => kids[i].id)
  }

  /** The content a full parent would have with the new entry, and the children that will move. */
  ghost predicate Plan(c: Ctx, l: Tree, key: Key, r: Tree, ks: seq<Key>, ps: seq<Ptr>, moved: seq<Node>) {
    && c.Frame? && |c.lk| + |c.rk| == SIZE - 1 && |c.lk| == |c.lefts| && |c.rk| == |c.rights|
    && ks == GrownKeys(c, key) && ps == ChildPtrs(GrownKids(c, l, r))
    && moved == KidNodes(GrownKids(c, l, r)[SPLIT..])
  }

  lemma {:induction false} PlanSplit(H: Heap, c: Ctx, l: Tree, r: Tree, h: nat, key: Key)
    returns (ks: seq<Key>, ps: seq<Ptr>, moved: seq<Node>)
    requires Pending(H, c, l, r, h) && c.Frame? && c.id in H && |H[c.id].keys| == SIZE - 1
    ensures |c.lefts| <= SIZE - 1 && |H[c.id].ptrs| == SIZE
    ensures Plan(c, l, key, r, ks, ps, moved) && |ks| == SIZE && |ps| == SIZE + 1
    ensures InsertAt(H[c.id].keys, |c.lefts|, key) == ks && InsertAt(H[c.id].ptrs, |c.lefts| + 1, Child(r.id)) == ps
    ensures ps[SPLIT..] == Children(moved) && forall k <- moved :: k in H && k != c.id
  {
    var kids := GrownKids(c, l, r);
    ks, ps, moved := GrownKeys(c, key), ChildPtrs(kids), KidNodes(kids[SPLIT..]);
    GrownHolds(H, c, l, r, h, key);
    KidsPlaced(H, c, l, r, h);
    assert KidNodes(kids[SPLIT..]) == KidNodes(kids)[SPLIT..];
  }

  lemma {:induction false} KidsPlaced(H: Heap, c: Ctx, l: Tree, r: Tree, h: nat)
    requires c.Frame? && Pending(H, c, l, r, h)
    ensures forall k <- KidNodes(GrownKids(c, l, r)) :: k in H && k != c.id
  {
    var kids := GrownKids(c, l, r);
    PendingWide(H, c, l, r, h);
    WideParts(H, c.up, c.id, kids, h);
    KidIds(kids);
  }

  /** Splitting a full parent moves the pending entry one level up. */
  lemma {:induction false} SplitPending(H: Heap, H2: Heap, c: Ctx, l: Tree, key: Key, r: Tree, h: nat, n: Node,
                     ks: seq<Key>, ps: seq<Ptr>, moved: seq<Node>)
    returns (a: Tree, b: Tree)
    requires Plan(c, l, key, r, ks, ps, moved) && Pending(H, c, l, r, h) && n !in H && c.id in H
    requires |ks| == SIZE && |ps| == SIZE + 1
    requires H2 == Adopted(SplitCells(H, c.id, ks, ps, n), moved, n)
    ensures a.id == c.id && b.id == n && Pending(H2, c.up, a, b, h + 1)
    ensures PendingItems(c.up, a, ks[SPLIT - 1], b) == PendingItems(c, l, key, r)
    ensures Plug(c.up, a).id == Plug(c, l).id
    ensures H.Keys <= H2.Keys && forall m <- H :: H2[m].next == H[m].next
  {
    var kids := GrownKids(c, l, r);
    var lo, hi := kids[..SPLIT], kids[SPLIT..];
    assert kids == lo + hi;
    a, b := InnerT(c.id, ks[..SPLIT - 1], lo), InnerT(n, ks[SPLIT..], hi);
    PendingWide(H, c, l, r, h);
    SplitMoves(H, H2, c.up, c.id, ks, lo, hi, h, n);
    WideSplits(H, H2, c.up, c.id, ks, lo, hi, h, n);
    SplitItems(c.up, c.id, ks, lo, hi, n);
    GrownItems(c, l, key, r);
    PlugRoot(c.up, a, Filled(c, l));
  }

  lemma {:induction false} InsertedUp(H: Heap, H2: Heap, H': Heap, t: Tree, c: Ctx, l: Tree, key: Key, r: Tree,
                                      h: nat, a: Tree, newKey: Key, b: Tree)
    requires c.Frame? && H.Keys <= H2.Keys && forall m <- H :: H2[m].next == H[m].next
    requires PendingItems(c.up, a, newKey, b) == PendingItems(c, l, key, r)
    requires Inserted(H2, H', t, c.up, a, newKey, b, h + 1)
    ensures Inserted(H, H', t, c, l, key, r, h)
  {}

  lemma {:induction false} SplitMoves(H: Heap, H2: Heap, up: Ctx, id: Node, ks: seq<Key>, lo: seq<Tree>,
                                      hi: seq<Tree>, h: nat, n: Node)
    requires Wide(H, up, id, lo + hi, h) && !H[id].isLeaf && n !in H
    requires |lo| == SPLIT && |hi| == SIZE + 1 - SPLIT && |ks| == SIZE
    requires id in H && H2 == Adopted(SplitCells(H, id, ks, ChildPtrs(lo + hi), n), KidNodes(hi), n)
    ensures SplitHeap(H, H2, id, ks, lo, hi, n)
  {
    WideParts(H, up, id, lo + hi, h);
    KidIds(lo + hi);
    forall k <- hi ensures k.id in H && k.id != id { assert k in lo + hi; }
    assert ChildPtrs(lo + hi)[..SPLIT] == ChildPtrs(lo) && ChildPtrs(lo + hi)[SPLIT..] == ChildPtrs(hi);
    MovedUp(H, SplitCells(H, id, ks, ChildPtrs(lo + hi), n), H2, id, ks, lo, hi, n);
  }

  lemma {:induction false} MovedUp(H: Heap, H1: Heap, H2: Heap, id: Node, ks: seq<Key>, lo: seq<Tree>, hi: seq<Tree>,
                                   n: Node)
    requires |lo| == SPLIT && |hi| == SIZE + 1 - SPLIT && |ks| == SIZE
    requires id in H && !H[id].isLeaf && n !in H && forall k <- hi :: k.id in H && k.id != id
    requires H1 == H[id := H[id].(keys := ks[..SPLIT - 1], ptrs := ChildPtrs(lo))]
                    [n := Cell(false, ks[SPLIT..], ChildPtrs(hi), Null, H[id].parent)]
    requires H2 == map m <- H1 :: if m in KidNodes(hi) then H1[m].(parent := n) else H1[m]
    ensures SplitHeap(H, H2, id, ks, lo, hi, n)
  {
    forall k <- hi ensures k.id in KidNodes(hi) {
      var i :| 0 <= i < |hi| && hi[i] == k;
      assert KidNodes(hi)[i] == k.id;
    }
  }

  /** make_new_root completes the tree one level higher. */
  lemma {:induction false} NewRootWhole(H: Heap, H': Heap, l: Tree, key: Key, r: Tree, h: nat, n: Node)
    requires Pending(H, Top, l, r, h) && n !in H && H'.Keys == H.Keys + {n}
    requires H'[n] == Cell(false, [key], [Child(l.id), Child(r.id)], Null, null)
    requires forall m <- H :: H'[m] == if m == l.id || m == r.id then H[m].(parent := n) else H[m]
    ensures Inserted(H, H', InnerT(n, [key], [l, r]), Top, l, key, r, h)
  {
    var t := InnerT(n, [key], [l, r]);
    NewRootHolds(H, H', l, key, r, h, n);
    assert AllShape([l, r], h);
    InnerShape(n, [key], [l, r], h, 1);
    ShapeHeight(t, h + 1, 1);
    TwoItems(l, key, r);
    assert PendingItems(Top, l, key, r) == Items(l) + [Sep(key)] + Items(r);
  }

  lemma {:induction false} NewRootHolds(H: Heap, H': Heap, l: Tree, key: Key, r: Tree, h: nat, n: Node)
    requires Pending(H, Top, l, r, h) && n !in H && H'.Keys == H.Keys + {n}
    requires H'[n] == Cell(false, [key], [Child(l.id), Child(r.id)], Null, null)
    requires forall m <- H :: H'[m] == if m == l.id || m == r.id then H[m].(parent := n) else H[m]
    ensures Holds(H', InnerT(n, [key], [l, r])) && Once(Ids(InnerT(n, [key], [l, r])))
  {
    hide Pending, Shape;
    TwoOnce(H, l, r, h, n);
    HoldsAdopted(H, H', [l, r], n);
    assert ChildPtrs([l, r]) == [Child(l.id), Child(r.id)];
  }

  lemma {:induction false} TwoOnce(H: Heap, l: Tree, r: Tree, h: nat, n: Node)
    requires Pending(H, Top, l, r, h) && n !in H
    ensures Holds(H, l) && Holds(H, r) && Once(IdsOf([l, r])) && forall m <- IdsOf([l, r]) :: m in H
    ensures Once(multiset{n} + IdsOf([l, r]))
  {
    TwoIds(l, r);
    TreeIn(H, l);
    TreeIn(H, r);
    assert CtxIds(Top) + Ids(l) + Ids(r) == IdsOf([l, r]);
    OnceAdd(IdsOf([l, r]), n);
    assert IdsOf([l, r]) + multiset{n} == multiset{n} + IdsOf([l, r]);
  }

  lemma {:induction false} TwoIds(l: Tree, r: Tree)
    ensures IdsOf([l, r]) == Ids(l) + Ids(r)
  {
    assert [l, r][1..] == [r] && [r][1..] == [];
    assert IdsOf([r]) == Ids(r);
  }

  lemma {:induction false} TwoItems(l: Tree, key: Key, r: Tree)
    ensures Row([key], [l, r]) == Items(l) + [Sep(key)] + Items(r)
  {
    assert [key][1..] == [] && [l, r][1..] == [r];
    assert Row([], [r]) == Items(r);
  }

  /** A parent with room takes the pending entry and completes the tree. */
  lemma {:induction false} ParentGrows(H: Heap, H': Heap, c: Ctx, l: Tree, key: Key, r: Tree, h: nat) returns (t: Tree)
    requires Pending(H, c, l, r, h) && c.Frame? && c.id in H && |H[c.id].keys| < SIZE - 1
    requires |c.lefts| <= |H[c.id].keys| && |H[c.id].ptrs| == |H[c.id].keys| + 1
    requires H' == H[c.id := H[c.id].(keys := InsertAt(H[c.id].keys, |c.lefts|, key),
                                      ptrs := InsertAt(H[c.id].ptrs, |c.lefts| + 1, Child(r.id)))]
    ensures Inserted(H, H', t, c, l, key, r, h) && t.id == Plug(c, l).id
  {
    var p := InnerT(c.id, GrownKeys(c, key), GrownKids(c, l, r));
    t := Plug(c.up, p);
    hide Pending, Whole, GrownKeys, GrownKids, InsertAt, Items, PendingItems, Plug, Height, CtxHeight;
    ParentWhole(H, H', c, l, key, r, h);
    ParentItems(H, c, l, key, r, h);
    SameRoot(c, l, p);
  }

  lemma {:induction false} SameRoot(c: Ctx, l: Tree, p: Tree)
    requires c.Frame? && p.id == c.id
    ensures Plug(c.up, p).id == Plug(c, l).id
  {
    PlugRoot(c.up, p, Filled(c, l));
  }

  lemma {:induction false} ParentWhole(H: Heap, H': Heap, c: Ctx, l: Tree, key: Key, r: Tree, h: nat)
    requires Pending(H, c, l, r, h) && c.Frame? && c.id in H && |H[c.id].keys| < SIZE - 1
    requires |c.lefts| <= |H[c.id].keys| && |H[c.id].ptrs| == |H[c.id].keys| + 1
    requires H' == H[c.id := H[c.id].(keys := InsertAt(H[c.id].keys, |c.lefts|, key),
                                      ptrs := InsertAt(H[c.id].ptrs, |c.lefts| + 1, Child(r.id)))]
    ensures var p := InnerT(c.id, GrownKeys(c, key), GrownKids(c, l, r));
            Whole(H', Plug(c.up, p)) && Height(Plug(c.up, p)) == CtxHeight(c, h)
  {
    hide GrownKeys, GrownKids, InsertAt, Items, Left, Right;
    GrownHolds(H, c, l, r, h, key);
    GrownFits(H, H', c, l, key, r, h);
    WholePlug(H', c.up, InnerT(c.id, GrownKeys(c, key), GrownKids(c, l, r)), h + 1);
  }

  lemma {:induction false} ParentItems(H: Heap, c: Ctx, l: Tree, key: Key, r: Tree, h: nat)
    requires Pending(H, c, l, r, h) && c.Frame?
    ensures Items(Plug(c.up, InnerT(c.id, GrownKeys(c, key), GrownKids(c, l, r)))) == PendingItems(c, l, key, r)
  {
    var p := InnerT(c.id, GrownKeys(c, key), GrownKids(c, l, r));
    CtxShapeFramed(c.up, h + 1);
    ItemsPlug(c.up, p);
    GrownItems(c, l, key, r);
  }

  lemma {:induction false} GrownFits(H: Heap, H': Heap, c: Ctx, l: Tree, key: Key, r: Tree, h: nat)
    requires Pending(H, c, l, r, h) && c.Frame? && c.id in H && |H[c.id].keys| < SIZE - 1
    requires H' == H[c.id := H[c.id].(keys := GrownKeys(c, key), ptrs := ChildPtrs(GrownKids(c, l, r)))]
    ensures var p := InnerT(c.id, GrownKeys(c, key), GrownKids(c, l, r));
      && HoldsCtx(H', c.up, c.id) && Holds(H', p) && H'[c.id].parent == CtxId(c.up)
      && Shape(p, h + 1, LeastKeys(c.up, h + 1)) && CtxShape(c.up, h + 1) && Once(CtxIds(c.up) + Ids(p))
  {
    PendingWide(H, c, l, r, h);
    WideFits(H, H', c.up, c.id, GrownKeys(c, key), GrownKids(c, l, r), h);
  }
}
