/** coalesce_nodes on the tree: two siblings become one and their parent is left with a dead entry. */
module MergeProofs {
  import opened Keys
  import opened BPlusNode
  import opened Buffers
  import opened HeapOps
  import opened TreeModel
  import opened InOrder
  import opened InsertProofs
  import opened Insert
  import opened LeafProofs
  import opened DeleteProofs

  lemma {:induction false} PairIds(d: Ctx, a: Tree, b: Tree)
    requires d.Frame?
    ensures CtxIds(d) + Ids(a) + Ids(b) == multiset{d.id} + IdsOf(GrownKids(d, a, b)) + CtxIds(d.up)
  {
    GrownIds(d, a, b);
    Regroup(multiset{d.id}, IdsOf(d.lefts), IdsOf(d.rights), CtxIds(d.up), Ids(a), Ids(b));
  }

  /** The nodes around a pair and the nodes of its two members are all different. */
  lemma {:induction false} PairParts(H: Heap, d: Ctx, a: Tree, sep: Key, b: Tree, h: nat)
    requires Pair(H, d, a, sep, b, h)
    ensures Once(CtxIds(d)) && Once(Ids(a)) && Once(Ids(b))
    ensures forall n <- CtxIds(d) :: n in H && n !in Ids(a) && n !in Ids(b)
    ensures forall n <- Ids(a) :: n in H && n !in Ids(b)
    ensures forall n <- Ids(b) :: n in H
    ensures a.id in Ids(a) && b.id in Ids(b) && d.id in CtxIds(d)
  {
    assert d.Frame? && Once(multiset{d.id} + IdsOf(GrownKids(d, a, b)) + CtxIds(d.up));
    PairIn(H, d, a, sep, b, h);
    assert d.id in CtxIds(d);
    hide Pair, CtxIds, Ids, IdsOf, GrownKids, Once;
    PairIds(d, a, b);
    OnceParts(CtxIds(d), Ids(a), Ids(b));
    RootIn(a);
    RootIn(b);
  }

  lemma {:induction false} PairIn(H: Heap, d: Ctx, a: Tree, sep: Key, b: Tree, h: nat)
    requires Pair(H, d, a, sep, b, h)
    ensures HoldsAll(H, d.lefts, d.id) && HoldsAll(H, d.rights, d.id)
    ensures Holds(H, a) && Holds(H, b) && H[a.id].parent == d.id && H[b.id].parent == d.id
    ensures (forall n <- CtxIds(d) :: n in H) && (forall n <- Ids(a) :: n in H) && forall n <- Ids(b) :: n in H
  {
    PairHolds(H, d, a, b);
    KidsIn(H, d.lefts);
    KidsIn(H, d.rights);
    CtxIn(H, d.up, d.id);
    TreeIn(H, a);
    TreeIn(H, b);
  }

  lemma {:induction false} PairHolds(H: Heap, d: Ctx, a: Tree, b: Tree)
    requires d.Frame? && HoldsAll(H, GrownKids(d, a, b), d.id)
    ensures HoldsAll(H, d.lefts, d.id) && HoldsAll(H, d.rights, d.id)
    ensures Holds(H, a) && Holds(H, b) && H[a.id].parent == d.id && H[b.id].parent == d.id
  {
    var kids := GrownKids(d, a, b);
    forall k | k in d.lefts || k == a || k == b || k in d.rights ensures k in kids {
      assert a == kids[|d.lefts|] && b == kids[|d.lefts| + 1];
    }
  }

  lemma {:induction false} OuterHolds(H: Heap, d: Ctx, a: Tree, sep: Key, b: Tree, h: nat)
    requires Pair(H, d, a, sep, b, h)
    ensures d.Frame? && HoldsAll(H, d.lefts, d.id) && HoldsAll(H, d.rights, d.id) && HoldsCtx(H, d.up, d.id)
  {
    hide Holds, HoldsAll, HoldsCtx, Shape, CtxShape;
    PairHolds(H, d, a, b);
  }

  ghost predicate SameAround(H: Heap, H': Heap, d: Ctx)
    requires d.Frame? && H.Keys == H'.Keys
  {
    forall n <- CtxIds(d) :: n in H && H'[n].parent == H[n].parent && (n != d.id ==> SameBody(H[n], H'[n]))
  }

  lemma {:induction false} KidsFrame(H: Heap, H': Heap, d: Ctx, kids: seq<Tree>)
    requires d.Frame? && H.Keys == H'.Keys && SameAround(H, H', d)
    requires HoldsAll(H, kids, d.id) && Once(IdsOf(kids)) && forall n | n in IdsOf(kids) :: n in CtxIds(d) && n != d.id
    ensures HoldsAll(H', kids, d.id)
  {
    HoldsAllFrame(H, H', kids, d.id);
  }

  lemma {:induction false} UpFrame(H: Heap, H': Heap, d: Ctx)
    requires d.Frame? && H.Keys == H'.Keys && SameAround(H, H', d)
    requires HoldsCtx(H, d.up, d.id) && Once(CtxIds(d.up))
    requires forall n | n in CtxIds(d.up) :: n in CtxIds(d) && n != d.id
    ensures HoldsCtx(H', d.up, d.id)
  {
    HoldsCtxFrame(H, H', d.up, d.id);
  }

  /** What surrounds a pair is untouched when only the pair's nodes and the separator change. */
  lemma {:induction false} OuterFrame(H: Heap, H': Heap, d: Ctx, a: Tree, sep: Key, b: Tree, h: nat)
    requires Pair(H, d, a, sep, b, h) && d.Frame? && H.Keys == H'.Keys && SameAround(H, H', d)
    ensures HoldsAll(H', d.lefts, d.id) && HoldsAll(H', d.rights, d.id) && HoldsCtx(H', d.up, d.id)
  {
    hide Pair, SameAround, Holds, HoldsAll, HoldsCtx, Once;
    OuterHolds(H, d, a, sep, b, h);
    OuterOnce(H, d, a, sep, b, h);
    KidsFrame(H, H', d, d.lefts);
    KidsFrame(H, H', d, d.rights);
    UpFrame(H, H', d);
  }

  lemma {:induction false} OuterOnce(H: Heap, d: Ctx, a: Tree, sep: Key, b: Tree, h: nat)
    requires Pair(H, d, a, sep, b, h)
    ensures Once(IdsOf(d.lefts)) && Once(IdsOf(d.rights)) && Once(CtxIds(d.up))
    ensures forall n | n in IdsOf(d.lefts) || n in IdsOf(d.rights) || n in CtxIds(d.up) :: n in CtxIds(d) && n != d.id
  {
    PairParts(H, d, a, sep, b, h);
    var l, r, u := IdsOf(d.lefts), IdsOf(d.rights), CtxIds(d.up);
    assert CtxIds(d) == multiset{d.id} + (l + r) + u;
    OnceParts(multiset{d.id}, l + r, u);
    assert l + r + multiset{} == l + r;
    OnceParts(l, r, multiset{});
  }

  /* ---------- merging ---------- */

  ghost function Merged(a: Tree, sep: Key, b: Tree): Tree {
    match (a, b)
    case (LeafT(id, ks, vs), LeafT(_, ks', vs')) => LeafT(id, ks + ks', vs + vs')
    case (InnerT(id, ks, kids), InnerT(_, ks', kids')) => InnerT(id, ks + [sep] + ks', kids + kids')
    case _ => a
  }

  /** The heap after coalesce_nodes has moved everything from `b` to `a`. */
  ghost function MergedHeap(H: Heap, a: Tree, sep: Key, b: Tree): Heap
    requires a.id in H && b.id in H
  {
    var m := Merged(a, sep, b);
    var x := H[a.id].(keys := m.keys, ptrs := PtrsOf(m));
    if m.LeafT? then H[a.id := x.(next := H[b.id].next)]
    else Adopted(H[a.id := x], KidNodes(m.kids), a.id)
  }

  lemma {:induction false} MergedIds(a: Tree, sep: Key, b: Tree)
    requires a.LeafT? == b.LeafT?
    ensures Ids(Merged(a, sep, b)) + multiset{b.id} == Ids(a) + Ids(b)
  {
    if a.InnerT? {
      IdsOfConcat(a.kids, b.kids);
    }
  }

  lemma {:induction false} MergedShape(a: Tree, sep: Key, b: Tree, h: nat)
    requires Shape(a, h, MinKeys(h) - 1) && Shape(b, h, MinKeys(h) - 1)
    requires MinKeys(h) <= |a.keys| || MinKeys(h) <= |b.keys|
    requires |a.keys| + |b.keys| <= if a.LeafT? then SIZE - 1 else SIZE - 2
    ensures a.LeafT? == b.LeafT? && Shape(Merged(a, sep, b), h, MinKeys(h))
  {
    if a.InnerT? {
      forall k <- a.kids + b.kids ensures Shape(k, h - 1, MinKeys(h - 1)) {
        assert k in a.kids || k in b.kids;
      }
    }
  }

  lemma {:induction false} MergedLeafHolds(H: Heap, a: Tree, sep: Key, b: Tree)
    requires Holds(H, a) && Holds(H, b) && a.LeafT? && b.LeafT?
    ensures Holds(MergedHeap(H, a, sep, b), Merged(a, sep, b))
  {}

  /** What a merge of inner nodes does to the nodes under them. */
  lemma {:induction false} MergedKidCells(H: Heap, a: Tree, sep: Key, b: Tree)
    requires Holds(H, a) && Holds(H, b) && a.InnerT? && b.InnerT?
    requires Once(Ids(a)) && Once(Ids(b)) && forall n <- Ids(a) :: n !in Ids(b)
    ensures var H', kids := MergedHeap(H, a, sep, b), a.kids + b.kids;
            && (forall n <- IdsOf(kids) :: n in H && n in H' && SameBody(H[n], H'[n]))
            && (forall n <- IdsOf(kids) :: H'[n].parent == H[n].parent || exists k <- kids :: k.id == n)
            && (forall k <- kids :: k.id in H' && H'[k.id].parent == a.id)
  {
    var kids := a.kids + b.kids;
    KidsOnce(a, b);
    KidsIn(H, kids);
    KidIds(kids);
    KidNodesOf(kids);
    hide Holds, Ids, IdsOf, KidNodes, Once;
  }

  lemma {:induction false} MergedInnerHolds(H: Heap, a: Tree, sep: Key, b: Tree)
    requires Holds(H, a) && Holds(H, b) && a.InnerT? && b.InnerT?
    requires Once(Ids(a)) && Once(Ids(b)) && forall n <- Ids(a) :: n !in Ids(b)
    ensures Holds(MergedHeap(H, a, sep, b), Merged(a, sep, b))
  {
    KidsOnce(a, b);
    MergedKidCells(H, a, sep, b);
    RootIn(a);
    forall k <- a.kids + b.kids ensures Holds(H, k) { assert k in a.kids || k in b.kids; }
    hide Ids, IdsOf, Once, KidNodes;
    HoldsAdopted(H, MergedHeap(H, a, sep, b), a.kids + b.kids, a.id);
  }

  lemma {:induction false} MergedHolds(H: Heap, a: Tree, sep: Key, b: Tree)
    requires Holds(H, a) && Holds(H, b) && a.LeafT? == b.LeafT?
    requires Once(Ids(a)) && Once(Ids(b)) && forall n <- Ids(a) :: n !in Ids(b)
    ensures Holds(MergedHeap(H, a, sep, b), Merged(a, sep, b))
  {
    hide MergedHeap, Merged, Once, Ids;
    if a.LeafT? {
      MergedLeafHolds(H, a, sep, b);
    } else {
      MergedInnerHolds(H, a, sep, b);
    }
  }

  lemma {:induction false} KidsOnce(a: Tree, b: Tree)
    requires a.InnerT? && b.InnerT? && Once(Ids(a)) && Once(Ids(b)) && forall n <- Ids(a) :: n !in Ids(b)
    ensures var kids := a.kids + b.kids;
            Once(IdsOf(kids)) && a.id !in IdsOf(kids) && b.id !in IdsOf(kids)
            && forall n <- IdsOf(kids) :: n in Ids(a) || n in Ids(b)
  {
    IdsOfConcat(a.kids, b.kids);
    assert multiset{a.id} + IdsOf(a.kids) + multiset{} == Ids(a);
    assert multiset{b.id} + IdsOf(b.kids) + multiset{} == Ids(b);
    OnceParts(multiset{a.id}, IdsOf(a.kids), multiset{});
    OnceParts(multiset{b.id}, IdsOf(b.kids), multiset{});
    RootIn(a);
    RootIn(b);
    forall n <- IdsOf(a.kids) ensures n in Ids(a) && n !in Ids(b) {}
    forall n <- IdsOf(b.kids) ensures n in Ids(b) && n !in Ids(a) {}
  }

  lemma {:induction false} KidNodesOf(kids: seq<Tree>)
    ensures forall k <- kids :: k.id in KidNodes(kids)
    ensures forall n <- KidNodes(kids) :: exists k <- kids :: k.id == n
  {
    forall i | 0 <= i < |kids| ensures kids[i].id in KidNodes(kids) {
      assert KidNodes(kids)[i] == kids[i].id;
    }
    forall n <- KidNodes(kids) ensures exists k <- kids :: k.id == n {
      var i :| 0 <= i < |kids| && KidNodes(kids)[i] == n;
      assert kids[i] in kids;
    }
  }

  /** The nodes whose parent a merge rewrites belong to the pair. */
  lemma {:induction false} MovedInPair(a: Tree, b: Tree)
    requires a.InnerT? && b.InnerT? && Once(Ids(a)) && Once(Ids(b)) && forall n <- Ids(a) :: n !in Ids(b)
    ensures var kids := KidNodes(a.kids + b.kids);
            a.id !in kids && forall n | n in kids :: n in Ids(a) || n in Ids(b)
  {
    var kids := a.kids + b.kids;
    KidsOnce(a, b);
    KidIds(kids);
    forall n | n in KidNodes(kids) ensures n in IdsOf(kids) {
      var i :| 0 <= i < |kids| && KidNodes(kids)[i] == n;
      assert kids[i] in kids;
    }
  }

  lemma {:induction false} MergedCells(H: Heap, d: Ctx, a: Tree, sep: Key, b: Tree, h: nat)
    requires Pair(H, d, a, sep, b, h) && a.LeafT? == b.LeafT?
    ensures a.id in H && b.id in H && MergedHeap(H, a, sep, b).Keys == H.Keys
    ensures forall n <- CtxIds(d) :: n in H && MergedHeap(H, a, sep, b)[n] == H[n]
    ensures MergedHeap(H, a, sep, b)[a.id].parent == d.id
  {
    PairParts(H, d, a, sep, b, h);
    PairIn(H, d, a, sep, b, h);
    if a.InnerT? {
      MovedInPair(a, b);
    }
    hide Pair, CtxIds, Once, Ids, IdsOf, KidNodes, Holds, HoldsAll;
  }

  /** coalesce_nodes: what is left to do is to remove the dead entry from the parent. */
  lemma {:induction false} MergeRemoving(H: Heap, d: Ctx, a: Tree, sep: Key, b: Tree, h: nat)
    requires Pair(H, d, a, sep, b, h) && (MinKeys(h) <= |a.keys| || MinKeys(h) <= |b.keys|)
    requires |a.keys| + |b.keys| <= if a.LeafT? then SIZE - 1 else SIZE - 2
    ensures a.id in H && b.id in H
    ensures Removing(MergedHeap(H, a, sep, b), d.up, Filled(d, Merged(a, sep, b)), h + 1, |d.lefts| + 1)
  {
    var m := Merged(a, sep, b);
    MergedShape(a, sep, b, h);
    MergedCells(H, d, a, sep, b, h);
    var H' := MergedHeap(H, a, sep, b);
    MergedPlaced(H, H', d, a, sep, b, h);
    FilledShape(d, m, h);
    MergedOnce(H, d, a, sep, b, h);
    DeadEntry(H, d, a, sep, b, h);
  }

  lemma {:induction false} MergedPlaced(H: Heap, H': Heap, d: Ctx, a: Tree, sep: Key, b: Tree, h: nat)
    requires Pair(H, d, a, sep, b, h) && a.LeafT? == b.LeafT? && a.id in H && b.id in H
    requires H' == MergedHeap(H, a, sep, b) && H'.Keys == H.Keys && H'[a.id].parent == d.id
    requires forall n <- CtxIds(d) :: n in H && H'[n] == H[n]
    ensures HoldsCtx(H', d.up, d.id) && HoldsAll(H', d.lefts + [Merged(a, sep, b)] + d.rights, d.id)
  {
    OuterFrame(H, H', d, a, sep, b, h);
    PairParts(H, d, a, sep, b, h);
    PairIn(H, d, a, sep, b, h);
    hide Pair, HoldsCtx, Once;
    MergedHolds(H, a, sep, b);
    AllPlaced(H', d, Merged(a, sep, b));
  }

  lemma {:induction false} AllPlaced(H: Heap, d: Ctx, m: Tree)
    requires d.Frame? && HoldsAll(H, d.lefts, d.id) && HoldsAll(H, d.rights, d.id)
    requires Holds(H, m) && H[m.id].parent == d.id
    ensures HoldsAll(H, d.lefts + [m] + d.rights, d.id)
  {
    forall k <- d.lefts + [m] + d.rights ensures Holds(H, k) && H[k.id].parent == d.id {
      assert k in d.lefts || k == m || k in d.rights;
    }
  }

  lemma {:induction false} FilledShape(d: Ctx, m: Tree, h: nat)
    requires d.Frame? && AllShape(d.lefts, h) && AllShape(d.rights, h) && Shape(m, h, MinKeys(h))
    requires |d.lk| == |d.lefts| && |d.rk| == |d.rights|
    requires LeastKeys(d.up, h + 1) <= |d.lk| + |d.rk| + 1 < SIZE
    ensures Shape(Filled(d, m), h + 1, Deficit(d.up, h + 1))
  {
    forall k <- d.lefts + [m] + d.rights ensures Shape(k, h, MinKeys(h)) {
      assert k in d.lefts || k == m || k in d.rights;
    }
    InnerShape(d.id, d.lk + d.rk, d.lefts + [m] + d.rights, h, Deficit(d.up, h + 1));
  }

  lemma {:induction false} OnceLess(m: multiset<Node>, n: Node)
    requires Once(m + multiset{n})
    ensures Once(m)
  {
    OnceSub(m, m + multiset{n});
  }

  lemma {:induction false} Substitute(c: multiset<Node>, m: multiset<Node>, x: multiset<Node>, a: multiset<Node>,
                                      b: multiset<Node>)
    requires m + x == a + b
    ensures c + m + x == c + a + b
  {
    assert c + m + x == c + (m + x) && c + a + b == c + (a + b);
  }

  lemma {:induction false} MergedOnce(H: Heap, d: Ctx, a: Tree, sep: Key, b: Tree, h: nat)
    requires Pair(H, d, a, sep, b, h) && a.LeafT? == b.LeafT?
    ensures Once(CtxIds(d.up) + Ids(Filled(d, Merged(a, sep, b))))
  {
    var m := Merged(a, sep, b);
    assert Once(multiset{d.id} + IdsOf(GrownKids(d, a, b)) + CtxIds(d.up));
    hide Pair, Ids, Once;
    PairIds(d, a, b);
    MergedIds(a, sep, b);
    Substitute(CtxIds(d), Ids(m), multiset{b.id}, Ids(a), Ids(b));
    OnceLess(CtxIds(d) + Ids(m), b.id);
    FilledIds(d, m);
    FilledIsInner(d, m);
  }

  lemma {:induction false} FilledIsInner(d: Ctx, m: Tree)
    requires d.Frame?
    ensures CtxIds(d.up) + Ids(Filled(d, m)) == multiset{d.id} + IdsOf(d.lefts + [m] + d.rights) + CtxIds(d.up)
  {}

  lemma {:induction false} DeadEntry(H: Heap, d: Ctx, a: Tree, sep: Key, b: Tree, h: nat)
    requires Pair(H, d, a, sep, b, h) && a.id == Merged(a, sep, b).id
    ensures var t, x, i := Filled(d, Merged(a, sep, b)), H[d.id], |d.lefts| + 1;
            && |x.keys| == |t.keys| + 1 && |x.ptrs| == |t.kids| + 1 && i < |x.ptrs|
            && t.keys == RemoveAt(x.keys, i - 1) && ChildPtrs(t.kids) == RemoveAt(x.ptrs, i)
  {
    hide Shape, CtxShape, HoldsCtx, Holds, HoldsAll, Once, Ids, IdsOf, CtxIds;
  }

  /* ---------- the walk over merged siblings ---------- */

  lemma {:induction false} FilledAround(d: Ctx, m: Tree)
    requires d.Frame? && |d.lk| == |d.lefts| && |d.rk| == |d.rights|
    ensures Around(d.up, Filled(d, m)) == Around(d, m)
  {
    AroundUp(d, m);
    RowAround(d.lk, d.lefts, m, d.rk, d.rights);
  }

  /** Joined inner nodes are walked as before; joined leaves lose a separator and a mark. */
  lemma {:induction false} MergedInnerItems(a: Tree, sep: Key, b: Tree)
    requires a.InnerT? && b.InnerT? && |a.kids| == |a.keys| + 1 && |b.kids| == |b.keys| + 1
    ensures Items(Merged(a, sep, b)) == Items(a) + [Sep(sep)] + Items(b)
  {
    RowSplit(a.keys, a.kids, sep, b.keys, b.kids);
  }

  lemma {:induction false} MergedLeafWalk(d: Ctx, a: Tree, sep: Key, b: Tree)
    requires a.LeafT? && b.LeafT? && |a.keys| == |a.vals| && |b.keys| == |b.vals|
    ensures var s, w := PendingItems(d, a, sep, b), Walk(d, a.id, a.keys + b.keys, a.vals + b.vals);
      && (Sorted(s) ==> Sorted(w)) && Entries(w) == Entries(s)
      && Leaves(s) == Leaves(Left(d)) + [a.id, b.id] + Leaves(Right(d))
      && Leaves(w) == Leaves(Left(d)) + [a.id] + Leaves(Right(d))
  {
    hide Left, Right, Sorted, Entries, Leaves;
    var e1, e2 := Ents(a.keys, a.vals), Ents(b.keys, b.vals);
    var front, back := Left(d) + [Mark(a.id)] + e1, e2 + Right(d);
    PendingParts(d, a.id, a.keys, a.vals, sep, b.id, b.keys, b.vals);
    EntsConcat(a.keys, a.vals, b.keys, b.vals);
    JoinParts(Left(d), [Mark(a.id)], e1, e2, Right(d));
    if Sorted(PendingItems(d, a, sep, b)) {
      SortedJoin(front, Sep(sep), b.id, back);
    }
    CutEntries(front, sep, b.id, back);
    CutLeaves(Left(d), a.id, e1, sep, b.id, e2, Right(d));
  }

  lemma {:induction false} JoinParts<T>(l: seq<T>, m: seq<T>, e1: seq<T>, e2: seq<T>, r: seq<T>)
    ensures l + (m + (e1 + e2)) + r == (l + m + e1) + (e2 + r)
  {}

  /** A leaf that takes over its right sibling's link skips it in the chain. */
  lemma {:induction false} ChainedJoin(H: Heap, H': Heap, x: seq<Node>, a: Node, b: Node, y: seq<Node>)
    requires Chained(H, x + [a, b] + y) && a in H && b in H && a in H' && H'[a].next == H[b].next
    requires forall m | m in x || m in y :: m in H && m in H' && H'[m].next == H[m].next
    ensures Chained(H', x + [a] + y)
  {
    var s, s' := x + [a, b] + y, x + [a] + y;
    assert s[|x|] == a && s[|x| + 1] == b;
    forall i | 0 <= i < |s'| ensures s'[i] in H' && H'[s'[i]].next == After(s', i) {
      if i < |x| {
        assert s'[i] == s[i] && s'[i + 1] == s[i + 1] && x[i] in x;
      } else {
        var j := i + 1;
        assert i > |x| ==> s'[i] == s[j] && s[j] == y[i - |x| - 1] && y[i - |x| - 1] in y;
        assert H[s[j]].next == After(s, j);
      }
    }
  }

  lemma {:induction false} PairWf(H: Heap, d: Ctx, a: Tree, sep: Key, b: Tree, h: nat)
    requires Pair(H, d, a, sep, b, h)
    ensures d.Frame? && |d.lk| == |d.lefts| && |d.rk| == |d.rights| && a.LeafT? == b.LeafT? == (h == 0)
    ensures a.LeafT? ==> |a.keys| == |a.vals| && |b.keys| == |b.vals|
    ensures a.InnerT? ==> |a.kids| == |a.keys| + 1 && |b.kids| == |b.keys| + 1
  {}

  /** coalesce_nodes keeps the order and the bindings, and its leaf link skips the leaf that goes away. */
  lemma {:induction false} MergeWalk(H: Heap, d: Ctx, a: Tree, sep: Key, b: Tree, h: nat)
    requires Pair(H, d, a, sep, b, h) && a.id in H && b.id in H
    requires var s := PendingItems(d, a, sep, b); Sorted(s) && Chained(H, Leaves(s))
    ensures d.Frame?
    ensures var s, w := PendingItems(d, a, sep, b), Around(d.up, Filled(d, Merged(a, sep, b)));
            Sorted(w) && Entries(w) == Entries(s) && Chained(MergedHeap(H, a, sep, b), Leaves(w))
  {
    var H', m := MergedHeap(H, a, sep, b), Merged(a, sep, b);
    PairWf(H, d, a, sep, b, h);
    FilledAround(d, m);
    if a.LeafT? {
      MergedLeafWalk(d, a, sep, b);
      LeafPairApart(H, d, a, sep, b, h);
      ChainedJoin(H, H', Leaves(Left(d)), a.id, b.id, Leaves(Right(d)));
    } else {
      MergedInnerItems(a, sep, b);
      ChainedSame(H, H', Leaves(PendingItems(d, a, sep, b)));
    }
  }

  lemma {:induction false} LeafPairApart(H: Heap, d: Ctx, a: Tree, sep: Key, b: Tree, h: nat)
    requires Pair(H, d, a, sep, b, h)
    ensures forall n | n in Leaves(Left(d)) || n in Leaves(Right(d)) :: n in H && n != a.id && n != b.id
  {
    PairParts(H, d, a, sep, b, h);
    LeavesInCtx(d);
  }
}
