/** What a split does to the tree: two nodes at one level become an extra entry of their parent. */
module InsertProofs {
  import opened Keys
  import opened BPlusNode
  import opened SeqFacts
  import opened Buffers
  import opened NodeOps
  import opened TreeModel

  /** Below `c`, in place of one subtree, there are now `l` and `r` with separator `key` still to be entered. */
  ghost predicate Pending(H: Heap, c: Ctx, l: Tree, r: Tree, h: nat) {
    && HoldsCtx(H, c, l.id) && Holds(H, l) && Holds(H, r)
    && H[l.id].parent == CtxId(c) && H[r.id].parent == CtxId(c)
    && Once(CtxIds(c) + Ids(l) + Ids(r))
    && CtxShape(c, h) && Shape(l, h, MinKeys(h)) && Shape(r, h, MinKeys(h))
  }

  ghost function PendingItems(c: Ctx, l: Tree, key: Key, r: Tree): seq<Item> {
    Left(c) + (Items(l) + [Sep(key)] + Items(r)) + Right(c)
  }

  ghost function GrownKeys(c: Ctx, key: Key): seq<Key>
    requires c.Frame?
  {
    c.lk + [key] + c.rk
  }

  ghost function GrownKids(c: Ctx, l: Tree, r: Tree): seq<Tree>
    requires c.Frame?
  {
    c.lefts + [l, r] + c.rights
  }

  lemma {:induction false} GrownRow(c: Ctx, l: Tree, key: Key, r: Tree)
    requires c.Frame? && |c.lk| == |c.lefts| && |c.rk| == |c.rights|
    ensures Row(GrownKeys(c, key), GrownKids(c, l, r))
         == LeftRow(c.lk, c.lefts) + (Items(l) + [Sep(key)] + Items(r)) + RightRow(c.rk, c.rights)
  {
    var a, b := LeftRow(c.lk, c.lefts), RightRow(c.rk, c.rights);
    calc {
      Row(GrownKeys(c, key), GrownKids(c, l, r));
      { assert c.lefts + [l] + ([r] + c.rights) == GrownKids(c, l, r); }
      Row(c.lk + [key] + c.rk, c.lefts + [l] + ([r] + c.rights));
      { RowSplit(c.lk, c.lefts + [l], key, c.rk, [r] + c.rights); }
      Row(c.lk, c.lefts + [l]) + [Sep(key)] + Row(c.rk, [r] + c.rights);
      { RowFrom(r, c.rk, c.rights); RowTo(c.lk, c.lefts, l); }
      (a + Items(l)) + [Sep(key)] + (Items(r) + b);
      { Nest(a, Items(l), [Sep(key)], Items(r), b); }
      a + (Items(l) + [Sep(key)] + Items(r)) + b;
    }
  }

  lemma {:induction false} RowTo(lk: seq<Key>, lefts: seq<Tree>, t: Tree)
    requires |lk| == |lefts|
    ensures Row(lk, lefts + [t]) == LeftRow(lk, lefts) + Items(t)
  {
    RowAround(lk, lefts, t, [], []);
    assert lk + [] == lk && lefts + [t] + [] == lefts + [t];
  }

  lemma {:induction false} GrownIds(c: Ctx, l: Tree, r: Tree)
    requires c.Frame?
    ensures IdsOf(GrownKids(c, l, r)) == IdsOf(c.lefts) + Ids(l) + Ids(r) + IdsOf(c.rights)
  {
    hide Ids, IdsOf;
    IdsOfFirst(r, c.rights);
    IdsAround(c.lefts, l, [r] + c.rights);
    assert c.lefts + [l] + ([r] + c.rights) == GrownKids(c, l, r);
    Pairs4(IdsOf(c.lefts), Ids(l), Ids(r), IdsOf(c.rights));
  }

  lemma {:induction false} IdsOfFirst(t: Tree, kids: seq<Tree>)
    ensures IdsOf([t] + kids) == Ids(t) + IdsOf(kids)
  {
    assert ([t] + kids)[1..] == kids;
  }

  lemma {:induction false} Pairs4(a: multiset<Node>, b: multiset<Node>, c: multiset<Node>, d: multiset<Node>)
    ensures a + b + (c + d) == a + b + c + d
  {
  }

  lemma {:induction false} GrownHolds(H: Heap, c: Ctx, l: Tree, r: Tree, h: nat, key: Key)
    requires c.Frame? && Pending(H, c, l, r, h)
    ensures HoldsAll(H, GrownKids(c, l, r), c.id) && AllShape(GrownKids(c, l, r), h)
    ensures InsertAt(H[c.id].ptrs, |c.lefts| + 1, Child(r.id)) == ChildPtrs(GrownKids(c, l, r))
    ensures InsertAt(H[c.id].keys, |c.lk|, key) == GrownKeys(c, key)
  {
    var kids := GrownKids(c, l, r);
    forall k <- kids ensures Holds(H, k) && H[k.id].parent == c.id && Shape(k, h, MinKeys(h)) {
      assert k in c.lefts || k == l || k == r || k in c.rights;
    }
  }

  /** Node `id`, below `up`, is about to hold the children `kids`. */
  ghost predicate Wide(H: Heap, up: Ctx, id: Node, kids: seq<Tree>, h: nat) {
    && id in H && H[id].parent == CtxId(up) && HoldsCtx(H, up, id) && HoldsAll(H, kids, id)
    && Once(multiset{id} + IdsOf(kids) + CtxIds(up))
    && AllShape(kids, h) && CtxShape(up, h + 1)
  }

  lemma {:induction false} Regroup(p: multiset<Node>, a: multiset<Node>, b: multiset<Node>, up: multiset<Node>,
                                   l: multiset<Node>, r: multiset<Node>)
    ensures p + a + b + up + l + r == p + (a + l + r + b) + up
  {}

  lemma {:induction false} PendingWide(H: Heap, c: Ctx, l: Tree, r: Tree, h: nat)
    requires c.Frame? && Pending(H, c, l, r, h)
    ensures Wide(H, c.up, c.id, GrownKids(c, l, r), h)
    ensures CtxIds(c) + Ids(l) + Ids(r) == multiset{c.id} + IdsOf(GrownKids(c, l, r)) + CtxIds(c.up)
  {
    GrownIds(c, l, r);
    GrownHolds(H, c, l, r, h, "");
    Regroup(multiset{c.id}, IdsOf(c.lefts), IdsOf(c.rights), CtxIds(c.up), Ids(l), Ids(r));
  }

  lemma {:induction false} WideParts(H: Heap, up: Ctx, id: Node, kids: seq<Tree>, h: nat)
    requires Wide(H, up, id, kids, h)
    ensures Once(IdsOf(kids)) && Once(CtxIds(up)) && id !in IdsOf(kids) && id !in CtxIds(up)
    ensures forall n <- IdsOf(kids) :: n in H && n !in CtxIds(up)
    ensures forall n <- CtxIds(up) :: n in H
  {
    OnceParts(multiset{id}, IdsOf(kids), CtxIds(up));
    KidsIn(H, kids);
    CtxIn(H, up, id);
  }

  /** insert_into_node: the parent has room for the new entry. */
  lemma {:induction false} WideFits(H: Heap, H': Heap, up: Ctx, id: Node, ks: seq<Key>, kids: seq<Tree>, h: nat)
    requires Wide(H, up, id, kids, h) && !H[id].isLeaf
    requires |kids| == |ks| + 1 && LeastKeys(up, h + 1) <= |ks| < SIZE
    requires H' == H[id := H[id].(keys := ks, ptrs := ChildPtrs(kids))]
    ensures var p := InnerT(id, ks, kids);
            HoldsCtx(H', up, id) && Holds(H', p) && H'[id].parent == CtxId(up) && Shape(p, h + 1, LeastKeys(up, h + 1))
    ensures Once(CtxIds(up) + Ids(InnerT(id, ks, kids)))
  {
    hide Wide, Holds, HoldsAll, HoldsCtx, Shape, CtxShape, Once, CtxIds, Ids, IdsOf;
    WideHolds(H, H', up, id, ks, kids, h);
    WideShape(H, up, id, ks, kids, h);
  }

  lemma {:induction false} WideHolds(H: Heap, H': Heap, up: Ctx, id: Node, ks: seq<Key>, kids: seq<Tree>, h: nat)
    requires Wide(H, up, id, kids, h) && !H[id].isLeaf && |kids| == |ks| + 1
    requires H' == H[id := H[id].(keys := ks, ptrs := ChildPtrs(kids))]
    ensures HoldsCtx(H', up, id) && Holds(H', InnerT(id, ks, kids)) && H'[id].parent == CtxId(up)
  {
    hide Shape, CtxShape, Once, CtxIds, Ids, IdsOf, HoldsCtx;
    WideKids(H, H', up, id, ks, kids, h);
    WideOuter(H, H', up, id, ks, kids, h);
  }

  lemma {:induction false} WideKids(H: Heap, H': Heap, up: Ctx, id: Node, ks: seq<Key>, kids: seq<Tree>, h: nat)
    requires Wide(H, up, id, kids, h) && H' == H[id := H[id].(keys := ks, ptrs := ChildPtrs(kids))]
    ensures HoldsAll(H', kids, id)
  {
    hide Shape, CtxShape, HoldsCtx, Holds, CtxIds, Ids;
    WideParts(H, up, id, kids, h);
    HoldsAllFrame(H, H', kids, id);
  }

  lemma {:induction false} WideOuter(H: Heap, H': Heap, up: Ctx, id: Node, ks: seq<Key>, kids: seq<Tree>, h: nat)
    requires Wide(H, up, id, kids, h) && H' == H[id := H[id].(keys := ks, ptrs := ChildPtrs(kids))]
    ensures HoldsCtx(H', up, id)
  {
    hide Shape, CtxShape, Holds, HoldsAll, IdsOf, Ids;
    WideParts(H, up, id, kids, h);
    HoldsCtxFrame(H, H', up, id);
  }

  lemma {:induction false} WideShape(H: Heap, up: Ctx, id: Node, ks: seq<Key>, kids: seq<Tree>, h: nat)
    requires Wide(H, up, id, kids, h) && |kids| == |ks| + 1 && LeastKeys(up, h + 1) <= |ks| < SIZE
    ensures Shape(InnerT(id, ks, kids), h + 1, LeastKeys(up, h + 1))
    ensures Once(CtxIds(up) + Ids(InnerT(id, ks, kids)))
  {
    hide Holds, HoldsAll, HoldsCtx;
    assert CtxIds(up) + Ids(InnerT(id, ks, kids)) == multiset{id} + IdsOf(kids) + CtxIds(up);
  }

  lemma {:induction false} GrownItems(c: Ctx, l: Tree, key: Key, r: Tree)
    requires c.Frame? && |c.lk| == |c.lefts| && |c.rk| == |c.rights|
    ensures Left(c.up) + Row(GrownKeys(c, key), GrownKids(c, l, r)) + Right(c.up) == PendingItems(c, l, key, r)
  {
    GrownRow(c, l, key, r);
    Nest(Left(c.up), LeftRow(c.lk, c.lefts), Items(l) + [Sep(key)] + Items(r), RightRow(c.rk, c.rights), Right(c.up));
  }

  /* ---------- the parent is full ---------- */

  /** The heap after insert_into_node_after_splitting has split node `id` and moved its upper children to `n`. */
  ghost predicate SplitHeap(H: Heap, H': Heap, id: Node, ks: seq<Key>, lo: seq<Tree>, hi: seq<Tree>, n: Node) {
    && |lo| == SPLIT && |hi| == SIZE + 1 - SPLIT && |ks| == SIZE
    && id in H && !H[id].isLeaf && n !in H && H'.Keys == H.Keys + {n}
    && H'[id] == H[id].(keys := ks[..SPLIT - 1], ptrs := ChildPtrs(lo))
    && H'[n] == Cell(false, ks[SPLIT..], ChildPtrs(hi), Null, H[id].parent)
    && (forall k <- hi :: k.id in H' && H'[k.id].parent == n)
    && forall m <- H | m != id ::
         && SameBody(H[m], H'[m]) && H'[m].next == H[m].next
         && (H'[m].parent == H[m].parent || exists k <- hi :: k.id == m)
  }

  lemma {:induction false} Shuffle(up: multiset<Node>, p: multiset<Node>, lo: multiset<Node>, hi: multiset<Node>,
                                   n: multiset<Node>)
    ensures up + (p + lo) + (n + hi) == p + (lo + hi) + up + n
  {}

  lemma {:induction false} WideIds(H: Heap, up: Ctx, id: Node, lo: seq<Tree>, hi: seq<Tree>, h: nat, n: Node)
    requires Wide(H, up, id, lo + hi, h) && n !in H
    ensures CtxIds(up) + (multiset{id} + IdsOf(lo)) + (multiset{n} + IdsOf(hi))
         == multiset{id} + IdsOf(lo + hi) + CtxIds(up) + multiset{n}
    ensures Once(CtxIds(up) + (multiset{id} + IdsOf(lo)) + (multiset{n} + IdsOf(hi)))
  {
    WideParts(H, up, id, lo + hi, h);
    IdsOfConcat(lo, hi);
    Shuffle(CtxIds(up), multiset{id}, IdsOf(lo), IdsOf(hi), multiset{n});
    OnceAdd(multiset{id} + IdsOf(lo + hi) + CtxIds(up), n);
  }

  lemma {:induction false} HalvesApart(lo: seq<Tree>, hi: seq<Tree>)
    requires Once(IdsOf(lo + hi))
    ensures Once(IdsOf(lo)) && Once(IdsOf(hi))
    ensures forall n <- IdsOf(lo) :: n in IdsOf(lo + hi) && n !in IdsOf(hi)
    ensures forall n <- IdsOf(hi) :: n in IdsOf(lo + hi)
  {
    IdsOfConcat(lo, hi);
    assert IdsOf(lo) + IdsOf(hi) + multiset{} == IdsOf(lo + hi);
    OnceParts(IdsOf(lo), IdsOf(hi), multiset{});
  }

  lemma {:induction false} KidIds(kids: seq<Tree>)
    ensures forall k <- kids :: k.id in IdsOf(kids)
  {
    forall i | 0 <= i < |kids| ensures kids[i].id in IdsOf(kids) {
      IdsOfAt(kids, i);
    }
  }

  lemma {:induction false} HoldsAllParts(H: Heap, lo: seq<Tree>, hi: seq<Tree>, id: Node)
    requires HoldsAll(H, lo + hi, id)
    ensures HoldsAll(H, lo, id) && HoldsAll(H, hi, id)
  {
    forall k <- lo ensures k in lo + hi {}
    forall k <- hi ensures k in lo + hi {}
  }

  lemma {:induction false} AllShapeParts(lo: seq<Tree>, hi: seq<Tree>, h: nat)
    requires AllShape(lo + hi, h)
    ensures AllShape(lo, h) && AllShape(hi, h)
  {
    forall k <- lo ensures k in lo + hi {}
    forall k <- hi ensures k in lo + hi {}
  }

  lemma {:induction false} HalvesShape(id: Node, ks: seq<Key>, lo: seq<Tree>, hi: seq<Tree>, h: nat, n: Node)
    requires AllShape(lo + hi, h) && |lo| == SPLIT && |hi| == SIZE + 1 - SPLIT && |ks| == SIZE
    ensures Shape(InnerT(id, ks[..SPLIT - 1], lo), h + 1, MinKeys(h + 1))
    ensures Shape(InnerT(n, ks[SPLIT..], hi), h + 1, MinKeys(h + 1))
  {
    AllShapeParts(lo, hi, h);
    InnerShape(id, ks[..SPLIT - 1], lo, h, MinKeys(h + 1));
    InnerShape(n, ks[SPLIT..], hi, h, MinKeys(h + 1));
  }

  lemma {:induction false} SplitHolds(H: Heap, H': Heap, up: Ctx, id: Node, ks: seq<Key>, lo: seq<Tree>,
                                      hi: seq<Tree>, h: nat, n: Node)
    requires Wide(H, up, id, lo + hi, h) && SplitHeap(H, H', id, ks, lo, hi, n)
    ensures HoldsAll(H', lo, id) && HoldsAll(H', hi, n) && HoldsCtx(H', up, id)
  {
    WideParts(H, up, id, lo + hi, h);
    HalvesApart(lo, hi);
    HoldsAllParts(H, lo, hi, id);
    KidIds(hi);
    HalfHolds(H, H', id, ks, lo, hi, n);
    HoldsCtxFrame(H, H', up, id);
  }

  lemma {:induction false} HalfHolds(H: Heap, H': Heap, id: Node, ks: seq<Key>, lo: seq<Tree>, hi: seq<Tree>, n: Node)
    requires HoldsAll(H, lo, id) && HoldsAll(H, hi, id) && Once(IdsOf(lo)) && Once(IdsOf(hi))
    requires forall m <- IdsOf(lo) :: m in H && m != id && m !in IdsOf(hi)
    requires forall m <- IdsOf(hi) :: m in H && m != id
    requires SplitHeap(H, H', id, ks, lo, hi, n)
    ensures HoldsAll(H', lo, id) && HoldsAll(H', hi, n)
  {
    KidIds(hi);
    HoldsAllFrame(H, H', lo, id);
    HoldsAdopted(H, H', hi, n);
  }

  /** insert_into_node_after_splitting: both halves of the parent are now pending one level up. */
  lemma {:induction false} WideSplits(H: Heap, H': Heap, up: Ctx, id: Node, ks: seq<Key>, lo: seq<Tree>,
                                      hi: seq<Tree>, h: nat, n: Node)
    requires Wide(H, up, id, lo + hi, h) && SplitHeap(H, H', id, ks, lo, hi, n)
    ensures Pending(H', up, InnerT(id, ks[..SPLIT - 1], lo), InnerT(n, ks[SPLIT..], hi), h + 1)
  {
    SplitHolds(H, H', up, id, ks, lo, hi, h, n);
    WideIds(H, up, id, lo, hi, h, n);
    HalvesShape(id, ks, lo, hi, h, n);
  }

  lemma {:induction false} SplitItems(up: Ctx, id: Node, ks: seq<Key>, lo: seq<Tree>, hi: seq<Tree>, n: Node)
    requires |lo| == SPLIT && |hi| == SIZE + 1 - SPLIT && |ks| == SIZE
    ensures PendingItems(up, InnerT(id, ks[..SPLIT - 1], lo), ks[SPLIT - 1], InnerT(n, ks[SPLIT..], hi))
         == Left(up) + Row(ks, lo + hi) + Right(up)
  {
    RowSplit(ks[..SPLIT - 1], lo, ks[SPLIT - 1], ks[SPLIT..], hi);
    assert ks == ks[..SPLIT - 1] + [ks[SPLIT - 1]] + ks[SPLIT..];
  }
}
