/** distribute_nodes on the tree: one entry moves between two siblings through their parent. */
module ShareProofs {
  import opened Keys
  import opened BPlusNode
  import opened TreeModel
  import opened InOrder
  import opened InsertProofs
  import opened Search
  import opened LeafProofs
  import opened DeleteProofs
  import opened MergeProofs

  /** `a'`, `sep'`, `b'` hold the same content as `a`, `sep`, `b`, divided at another place. */
  ghost predicate Shared(a: Tree, sep: Key, b: Tree, a': Tree, sep': Key, b': Tree) {
    && a'.id == a.id && b'.id == b.id
    && a.LeafT? == a'.LeafT? == b.LeafT? == b'.LeafT?
    && if a.LeafT? then
         && a'.keys != [] && b'.keys != [] && sep' == b'.keys[0]
         && a'.keys + b'.keys == a.keys + b.keys && a'.vals + b'.vals == a.vals + b.vals
         && |a'.keys| == |a'.vals| && |b'.keys| == |b'.vals|
       else
         && a'.keys + [sep'] + b'.keys == a.keys + [sep] + b.keys && a'.kids + b'.kids == a.kids + b.kids
         && |a'.kids| == |a'.keys| + 1 && |b'.kids| == |b'.keys| + 1
  }

  /**
   * The heap after the nodes of `a` and `b` took the contents of `a'` and `b'`, and the parent the separator
   * `sep'`.
   */
  ghost predicate SharedHeap(H: Heap, H': Heap, d: Ctx, a': Tree, sep': Key, b': Tree) {
    && d.Frame? && d.id in H && a'.id in H && b'.id in H && H'.Keys == H.Keys
    && H'[d.id] == H[d.id].(keys := GrownKeys(d, sep'))
    && H'[a'.id] == H[a'.id].(keys := a'.keys, ptrs := PtrsOf(a'))
    && H'[b'.id] == H[b'.id].(keys := b'.keys, ptrs := PtrsOf(b'))
    && (forall n <- H :: H'[n].next == H[n].next && (n !in {d.id, a'.id, b'.id} ==> SameBody(H[n], H'[n])))
    && (forall n <- H :: H'[n].parent == H[n].parent || IsKid(n, a') || IsKid(n, b'))
    && (a'.InnerT? ==> forall k <- a'.kids :: k.id in H' && H'[k.id].parent == a'.id)
    && (b'.InnerT? ==> forall k <- b'.kids :: k.id in H' && H'[k.id].parent == b'.id)
  }

  ghost predicate IsKid(n: Node, t: Tree) {
    t.InnerT? && exists k <- t.kids :: k.id == n
  }

  lemma {:induction false} SharedWalk(d: Ctx, a: Tree, sep: Key, b: Tree, a': Tree, sep': Key, b': Tree)
    requires Shared(a, sep, b, a', sep', b') && Sorted(PendingItems(d, a, sep, b))
    requires a.LeafT? ==> |a.keys| == |a.vals| && |b.keys| == |b.vals|
    requires a.InnerT? ==> |a.kids| == |a.keys| + 1 && |b.kids| == |b.keys| + 1
    ensures var s, s' := PendingItems(d, a, sep, b), PendingItems(d, a', sep', b');
            Sorted(s') && Entries(s') == Entries(s) && Leaves(s') == Leaves(s)
  {
    if a.LeafT? {
      MergedLeafWalk(d, a, sep, b);
      MergedLeafWalk(d, a', sep', b');
      var ks, vs := a'.keys + b'.keys, a'.vals + b'.vals;
      assert ks[..|a'.keys|] == a'.keys && ks[|a'.keys|..] == b'.keys;
      assert vs[..|a'.keys|] == a'.vals && vs[|a'.keys|..] == b'.vals;
      SplitWalk(d, a.id, ks, vs, |a'.keys|, b.id);
    } else {
      RowSplit(a.keys, a.kids, sep, b.keys, b.kids);
      RowSplit(a'.keys, a'.kids, sep', b'.keys, b'.kids);
    }
  }

  lemma {:induction false} SharedIds(a: Tree, sep: Key, b: Tree, a': Tree, sep': Key, b': Tree)
    requires Shared(a, sep, b, a', sep', b')
    ensures Ids(a') + Ids(b') == Ids(a) + Ids(b)
    ensures a.InnerT? ==> IdsOf(a'.kids) + IdsOf(b'.kids) == IdsOf(a.kids + b.kids)
  {
    if a.InnerT? {
      IdsOfConcat(a.kids, b.kids);
      IdsOfConcat(a'.kids, b'.kids);
      Pairs(multiset{a.id}, IdsOf(a.kids), multiset{b.id}, IdsOf(b.kids));
      Pairs(multiset{a.id}, IdsOf(a'.kids), multiset{b.id}, IdsOf(b'.kids));
    }
  }

  lemma {:induction false} Pairs(x: multiset<Node>, y: multiset<Node>, z: multiset<Node>, w: multiset<Node>)
    ensures (x + y) + (z + w) == x + z + (y + w)
  {}

  lemma {:induction false} SharedHolds(H: Heap, H': Heap, d: Ctx, a: Tree, sep: Key, b: Tree, h: nat, a': Tree,
                                       sep': Key, b': Tree)
    requires Pair(H, d, a, sep, b, h) && Shared(a, sep, b, a', sep', b') && SharedHeap(H, H', d, a', sep', b')
    ensures Holds(H', a') && Holds(H', b')
  {
    PairParts(H, d, a, sep, b, h);
    PairIn(H, d, a, sep, b, h);
    SharedIds(a, sep, b, a', sep', b');
    if a.InnerT? {
      assert forall k <- a.kids + b.kids :: Holds(H, k);
      KidsOnce(a, b);
      KidsIn(H, a.kids + b.kids);
      assert d.id !in IdsOf(a.kids + b.kids);
      hide Pair, Shared;
      HalvesApart(a'.kids, b'.kids);
      HalfAdopted(H, H', d, a', sep', b', a', b');
      HalfAdopted(H, H', d, a', sep', b', b', a');
    }
  }

  /** The children of either half are held by it. */
  lemma {:induction false} HalfAdopted(H: Heap, H': Heap, d: Ctx, a': Tree, sep': Key, b': Tree, x: Tree, y: Tree)
    requires SharedHeap(H, H', d, a', sep', b') && ((x == a' && y == b') || (x == b' && y == a'))
    requires x.InnerT? && y.InnerT? && !H[x.id].isLeaf
    requires (forall k <- x.kids :: Holds(H, k)) && Once(IdsOf(x.kids))
    requires forall n <- IdsOf(x.kids) :: n in H && n !in {d.id, a'.id, b'.id} && n !in IdsOf(y.kids)
    ensures Holds(H', x)
  {
    KidIds(y.kids);
    HoldsAdopted(H, H', x.kids, x.id);
  }

  lemma {:induction false} SharedPlaced(H: Heap, H': Heap, d: Ctx, a: Tree, sep: Key, b: Tree, h: nat, a': Tree,
                                        sep': Key, b': Tree)
    requires Pair(H, d, a, sep, b, h) && Shared(a, sep, b, a', sep', b') && SharedHeap(H, H', d, a', sep', b')
    ensures HoldsCtx(H', d.up, d.id) && H'[d.id].parent == CtxId(d.up)
    ensures Holds(H', InnerT(d.id, GrownKeys(d, sep'), GrownKids(d, a', b')))
  {
    hide Once, Ids, IdsOf, CtxIds, Shape, AllShape, CtxShape;
    SharedOuter(H, H', d, a, sep, b, h, a', sep', b');
    SharedHolds(H, H', d, a, sep, b, h, a', sep', b');
    var kids := GrownKids(d, a', b');
    forall k <- kids ensures Holds(H', k) && H'[k.id].parent == d.id {
      assert k in d.lefts || k == a' || k == b' || k in d.rights;
    }
    assert ChildPtrs(kids) == ChildPtrs(GrownKids(d, a, b));
  }

  /** Only children of the two siblings get another parent. */
  lemma {:induction false} SharedAround(H: Heap, H': Heap, d: Ctx, a: Tree, sep: Key, b: Tree, h: nat, a': Tree,
                                        sep': Key, b': Tree)
    requires Pair(H, d, a, sep, b, h) && Shared(a, sep, b, a', sep', b') && SharedHeap(H, H', d, a', sep', b')
    ensures SameAround(H, H', d)
    ensures H'[a.id].parent == d.id && H'[b.id].parent == d.id && H'[d.id].parent == H[d.id].parent
  {
    hide IsKid, Pair, Ids, IdsOf, CtxIds, Holds, HoldsAll, HoldsCtx, Once;
    PairParts(H, d, a, sep, b, h);
    PairIn(H, d, a, sep, b, h);
    SharedKids(a, sep, b, a', sep', b');
    ParentsKept(H, H', d, a, b, a', sep', b');
  }

  lemma {:induction false} SharedOuter(H: Heap, H': Heap, d: Ctx, a: Tree, sep: Key, b: Tree, h: nat, a': Tree,
                                       sep': Key, b': Tree)
    requires Pair(H, d, a, sep, b, h) && Shared(a, sep, b, a', sep', b') && SharedHeap(H, H', d, a', sep', b')
    ensures HoldsAll(H', d.lefts, d.id) && HoldsAll(H', d.rights, d.id) && HoldsCtx(H', d.up, d.id)
    ensures H'[a.id].parent == d.id && H'[b.id].parent == d.id && H'[d.id].parent == H[d.id].parent
  {
    hide IsKid, Shared, Pair, Holds, HoldsAll, HoldsCtx, SameAround;
    SharedAround(H, H', d, a, sep, b, h, a', sep', b');
    OuterFrame(H, H', d, a, sep, b, h);
  }

  lemma {:induction false} ParentsKept(H: Heap, H': Heap, d: Ctx, a: Tree, b: Tree, a': Tree, sep': Key, b': Tree)
    requires SharedHeap(H, H', d, a', sep', b') && a'.id == a.id && b'.id == b.id
    requires forall n <- CtxIds(d) :: n in H && n !in Ids(a) && n !in Ids(b)
    requires forall n | IsKid(n, a') || IsKid(n, b') :: (n in Ids(a) || n in Ids(b)) && n != a.id && n != b.id
    ensures forall n <- CtxIds(d) :: n in H && n in H' && H'[n].parent == H[n].parent
    ensures H'[a.id].parent == H[a.id].parent && H'[b.id].parent == H[b.id].parent
    ensures forall n <- CtxIds(d) :: n == a.id || n == b.id || n == d.id || SameBody(H[n], H'[n])
  {
    hide IsKid;
  }

  lemma {:induction false} SharedKids(a: Tree, sep: Key, b: Tree, a': Tree, sep': Key, b': Tree)
    requires Shared(a, sep, b, a', sep', b') && Once(Ids(a)) && Once(Ids(b)) && forall n <- Ids(a) :: n !in Ids(b)
    ensures forall n | IsKid(n, a') || IsKid(n, b') :: (n in Ids(a) || n in Ids(b)) && n != a.id && n != b.id
  {
    if a.InnerT? {
      KidsOnce(a, b);
      KidIds(a.kids + b.kids);
      forall n | IsKid(n, a') || IsKid(n, b') ensures n in IdsOf(a.kids + b.kids) {
        var k :| (k in a'.kids || k in b'.kids) && k.id == n;
        assert k in a'.kids + b'.kids;
      }
    }
  }

  lemma {:induction false} SharedShape(d: Ctx, a': Tree, sep': Key, b': Tree, h: nat)
    requires d.Frame? && |d.lk| == |d.lefts| && |d.rk| == |d.rights|
    requires AllShape(d.lefts, h) && AllShape(d.rights, h) && LeastKeys(d.up, h + 1) <= |d.lk| + |d.rk| + 1 < SIZE
    requires Shape(a', h, MinKeys(h)) && Shape(b', h, MinKeys(h))
    ensures Shape(InnerT(d.id, GrownKeys(d, sep'), GrownKids(d, a', b')), h + 1, LeastKeys(d.up, h + 1))
  {
    var kids := GrownKids(d, a', b');
    forall k <- kids ensures Shape(k, h, MinKeys(h)) {
      assert k in d.lefts || k == a' || k == b' || k in d.rights;
    }
    InnerShape(d.id, GrownKeys(d, sep'), kids, h, LeastKeys(d.up, h + 1));
  }

  lemma {:induction false} SharedOnce(H: Heap, d: Ctx, a: Tree, sep: Key, b: Tree, h: nat, a': Tree, sep': Key,
                                      b': Tree)
    requires Pair(H, d, a, sep, b, h) && Shared(a, sep, b, a', sep', b')
    ensures Once(CtxIds(d.up) + Ids(InnerT(d.id, GrownKeys(d, sep'), GrownKids(d, a', b'))))
  {
    var p := InnerT(d.id, GrownKeys(d, sep'), GrownKids(d, a', b'));
    SharedIds(a, sep, b, a', sep', b');
    PairIds(d, a, b);
    PairIds(d, a', b');
    Substitute(CtxIds(d), Ids(a'), Ids(b'), Ids(a), Ids(b));
    assert CtxIds(d.up) + Ids(p) == multiset{d.id} + IdsOf(GrownKids(d, a', b')) + CtxIds(d.up);
  }

  /** distribute_nodes completes the tree: same bindings, same leaves, every node filled. */
  lemma {:induction false} ShareWhole(H: Heap, H': Heap, d: Ctx, a: Tree, sep: Key, b: Tree, h: nat, a': Tree,
                                      sep': Key, b': Tree)
    returns (t: Tree)
    requires Pair(H, d, a, sep, b, h) && Shared(a, sep, b, a', sep', b') && SharedHeap(H, H', d, a', sep', b')
    requires Shape(a', h, MinKeys(h)) && Shape(b', h, MinKeys(h))
    requires var s := PendingItems(d, a, sep, b); Sorted(s) && Chained(H, Leaves(s))
    ensures Proper(H', t) && Entries(Items(t)) == Entries(PendingItems(d, a, sep, b))
    ensures t.id == Plug(d, a).id && Height(t) == CtxHeight(d, h)
  {
    t := Plug(d.up, InnerT(d.id, GrownKeys(d, sep'), GrownKids(d, a', b')));
    PairWf(H, d, a, sep, b, h);
    SharedTree(H, H', d, a, sep, b, h, a', sep', b');
    hide Pair, Shape, Plug, PendingItems, Whole, CtxHeight;
    SharedWalk(d, a, sep, b, a', sep', b');
    ChainedSame(H, H', Leaves(Items(t)));
  }

  lemma {:induction false} SharedTree(H: Heap, H': Heap, d: Ctx, a: Tree, sep: Key, b: Tree, h: nat, a': Tree,
                                      sep': Key, b': Tree)
    requires Pair(H, d, a, sep, b, h) && Shared(a, sep, b, a', sep', b') && SharedHeap(H, H', d, a', sep', b')
    requires Shape(a', h, MinKeys(h)) && Shape(b', h, MinKeys(h))
    ensures var t := Plug(d.up, InnerT(d.id, GrownKeys(d, sep'), GrownKids(d, a', b')));
      Whole(H', t) && Items(t) == PendingItems(d, a', sep', b') && t.id == Plug(d, a).id && Height(t) == CtxHeight(d, h)
  {
    var p := InnerT(d.id, GrownKeys(d, sep'), GrownKids(d, a', b'));
    SharedPlaced(H, H', d, a, sep, b, h, a', sep', b');
    SharedShape(d, a', sep', b', h);
    SharedOnce(H, d, a, sep, b, h, a', sep', b');
    assert CtxShape(d.up, h + 1) && |d.lk| == |d.lefts| && |d.rk| == |d.rights|;
    hide Pair, Shared, SharedHeap, Holds, HoldsCtx, Once, Shape, CtxShape;
    WholePlug(H', d.up, p, h + 1);
    GrownItems(d, a', sep', b');
    PlugRoot(d.up, p, Filled(d, a));
  }
}
