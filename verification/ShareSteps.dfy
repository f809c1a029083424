/** The four cases of distribute_nodes as instances of moving one entry between siblings. */
module ShareSteps {
  import opened Keys
  import opened BPlusNode
  import opened SeqFacts
  import opened HeapOps
  import opened TreeModel
  import opened InOrder
  import opened InsertProofs
  import opened Search
  import opened DeleteProofs
  import opened MergeProofs
  import opened ShareProofs

  /** A node ran one key short, and it and `other` hold too much for one node. */
  ghost predicate Uneven(H: Heap, c: Ctx, t: Tree, h: nat, other: Tree) {
    && Deficient(H, c, t, h) && c.Frame? && |t.keys| < MinKeys(h)
    && Sorted(Around(c, t)) && Chained(H, Leaves(Around(c, t)))
    && |other.keys| + |t.keys| > if t.LeafT? then SIZE - 1 else SIZE - 2
  }

  /** What distribute_nodes leaves behind: a proper tree with the same root, bindings and height. */
  ghost predicate Settled(H': Heap, t': Tree, c: Ctx, t: Tree, h: nat) {
    Proper(H', t') && Entries(Items(t')) == Entries(Around(c, t)) && t'.id == Plug(c, t).id
        && Height(t') == CtxHeight(c, h)
  }

  lemma {:induction false} Divide(H: Heap, H': Heap, c: Ctx, t: Tree, h: nat, d: Ctx, a: Tree, sep: Key, b: Tree,
                                  a': Tree, sep': Key, b': Tree) returns (t': Tree)
    requires c.Frame? && d.Frame? && d.up == c.up && d.id == c.id
    requires Pair(H, d, a, sep, b, h) && PendingItems(d, a, sep, b) == Around(c, t)
    requires Sorted(Around(c, t)) && Chained(H, Leaves(Around(c, t)))
    requires Shared(a, sep, b, a', sep', b') && SharedHeap(H, H', d, a', sep', b')
    requires Shape(a', h, MinKeys(h)) && Shape(b', h, MinKeys(h))
    ensures Settled(H', t', c, t, h)
  {
    hide Pair, Shared, SharedHeap, Shape, Proper;
    t' := ShareWhole(H, H', d, a, sep, b, h, a', sep', b');
    PlugRoot(c.up, Filled(d, a), Filled(c, t));
  }

  /* ---------- the new contents ---------- */

  // The left sibling, the separator and the right sibling after the last entry of `a` moved to `b`.
  ghost function FromLeft(a: Tree, sep: Key, b: Tree): (Tree, Key, Tree)
    requires a.LeafT? == b.LeafT? && a.keys != []
    requires if a.LeafT? then |a.vals| == |a.keys| else |a.kids| == |a.keys| + 1
  {
    var n := |a.keys| - 1;
    if a.LeafT? then
      (LeafT(a.id, a.keys[..n], a.vals[..n]), a.keys[n], LeafT(b.id, [a.keys[n]] + b.keys, [a.vals[n]] + b.vals))
    else
      (InnerT(a.id, a.keys[..n], a.kids[..n + 1]), a.keys[n], InnerT(b.id, [sep] + b.keys, [a.kids[n + 1]] + b.kids))
  }

  // The same after the first entry of `b` moved to `a`.
  ghost function FromRight(a: Tree, sep: Key, b: Tree): (Tree, Key, Tree)
    requires a.LeafT? == b.LeafT? && |b.keys| > 1
    requires if a.LeafT? then |b.vals| == |b.keys| else |b.kids| == |b.keys| + 1
  {
    if a.LeafT? then
      (LeafT(a.id, a.keys + [b.keys[0]], a.vals + [b.vals[0]]), b.keys[1], LeafT(b.id, b.keys[1..], b.vals[1..]))
    else
      (InnerT(a.id, a.keys + [sep], a.kids + [b.kids[0]]), b.keys[0], InnerT(b.id, b.keys[1..], b.kids[1..]))
  }

  lemma {:induction false} FromLeftShared(a: Tree, sep: Key, b: Tree, h: nat)
    requires Shape(a, h, MinKeys(h) + 1) && Shape(b, h, MinKeys(h) - 1) && |b.keys| < MinKeys(h)
    ensures a.LeafT? == b.LeafT?
    ensures var (a', sep', b') := FromLeft(a, sep, b);
            Shared(a, sep, b, a', sep', b') && Shape(a', h, MinKeys(h)) && Shape(b', h, MinKeys(h))
  {
    var n := |a.keys| - 1;
    FrontLast(a.keys);
    Assoc(a.keys[..n], [a.keys[n]], b.keys);
    if a.LeafT? {
      FrontLast(a.vals);
      Assoc(a.vals[..n], [a.vals[n]], b.vals);
    } else {
      FrontLast(a.kids);
      Assoc(a.kids[..n + 1], [a.kids[n + 1]], b.kids);
      Assoc(a.keys, [sep], b.keys);
      assert a.keys[..n] + [a.keys[n]] + ([sep] + b.keys) == a.keys + [sep] + b.keys;
      InnerSub(a.kids, a.kids[..n + 1], h - 1);
      InnerSub(a.kids + b.kids, [a.kids[n + 1]] + b.kids, h - 1);
    }
  }

  lemma {:induction false} InnerSub(kids: seq<Tree>, sub: seq<Tree>, h: nat)
    requires AllShape(kids, h) && forall k <- sub :: k in kids
    ensures AllShape(sub, h)
  {}

  lemma {:induction false} FromRightShared(a: Tree, sep: Key, b: Tree, h: nat)
    requires Shape(b, h, MinKeys(h) + 1) && Shape(a, h, MinKeys(h) - 1) && |a.keys| < MinKeys(h)
    ensures a.LeafT? == b.LeafT?
    ensures var (a', sep', b') := FromRight(a, sep, b);
            Shared(a, sep, b, a', sep', b') && Shape(a', h, MinKeys(h)) && Shape(b', h, MinKeys(h))
  {
    assert b.keys == [b.keys[0]] + b.keys[1..];
    Assoc(a.keys, [b.keys[0]], b.keys[1..]);
    if a.LeafT? {
      assert b.vals == [b.vals[0]] + b.vals[1..];
      Assoc(a.vals, [b.vals[0]], b.vals[1..]);
    } else {
      assert b.kids == [b.kids[0]] + b.kids[1..];
      Assoc(a.kids, [b.kids[0]], b.kids[1..]);
      Assoc(a.keys + [sep], [b.keys[0]], b.keys[1..]);
      InnerSub(b.kids, b.kids[1..], h - 1);
      InnerSub(a.kids + b.kids, a.kids + [b.kids[0]], h - 1);
    }
  }

  /* ---------- the new heap ---------- */

  /** `x` gained what `y` lost; the child that changed sides, if any, is `tmp`. */
  ghost predicate Sides(H: Heap, x: Tree, y: Tree, tmp: Node?) {
    if x.LeafT? then y.LeafT? && tmp == null
    else
      && y.InnerT?
      && (exists k <- x.kids :: k.id == tmp)
      && (forall k <- x.kids :: k.id in H && (k.id == tmp || H[k.id].parent == x.id))
      && forall k <- y.kids :: k.id in H && k.id != tmp && H[k.id].parent == y.id
  }

  lemma {:induction false} RewrittenShared(H: Heap, H': Heap, d: Ctx, a: Tree, sep: Key, b: Tree, h: nat,
                                           a': Tree, sep': Key, b': Tree, x: Tree, y: Tree, tmp: Node?)
    requires Pair(H, d, a, sep, b, h) && Shared(a, sep, b, a', sep', b')
    requires ((x == a' && y == b') || (x == b' && y == a')) && x.id in H && y.id in H && d.id in H
    requires Sides(H, x, y, tmp)
    requires Rewritten(H, H', x.id, H[x.id].(keys := x.keys, ptrs := PtrsOf(x)), y.id,
               H[y.id].(keys := y.keys, ptrs := PtrsOf(y)),
                       d.id, H[d.id].(keys := GrownKeys(d, sep')), tmp)
    ensures SharedHeap(H, H', d, a', sep', b')
  {
    PairParts(H, d, a, sep, b, h);
    SharedKids(a, sep, b, a', sep', b');
    KidsElsewhere(H, d, a, b, a', b');
    hide Pair, Shared;
    SidesHeap(H, H', d, a', sep', b', x, y, tmp);
  }

  lemma {:induction false} SidesHeap(H: Heap, H': Heap, d: Ctx, a': Tree, sep': Key, b': Tree, x: Tree, y: Tree,
                                     tmp: Node?)
    requires d.Frame? && ((x == a' && y == b') || (x == b' && y == a')) && x.id in H && y.id in H && d.id in H
    requires x.id != y.id && x.id != d.id && y.id != d.id && Sides(H, x, y, tmp)
    requires forall n | IsKid(n, a') || IsKid(n, b') :: n !in {a'.id, b'.id, d.id}
    requires Rewritten(H, H', x.id, H[x.id].(keys := x.keys, ptrs := PtrsOf(x)), y.id,
               H[y.id].(keys := y.keys, ptrs := PtrsOf(y)),
                       d.id, H[d.id].(keys := GrownKeys(d, sep')), tmp)
    ensures SharedHeap(H, H', d, a', sep', b')
  {
    if x.InnerT? {
      KidsFollow(H, H', d, sep', x, y, tmp);
      assert IsKid(tmp, x);
    }
    forall n <- H ensures H'[n].next == H[n].next {}
    forall n <- H | n !in {d.id, a'.id, b'.id} ensures SameBody(H[n], H'[n]) {}
  }

  lemma {:induction false} KidsFollow(H: Heap, H': Heap, d: Ctx, sep': Key, x: Tree, y: Tree, tmp: Node?)
    requires d.Frame? && x.InnerT? && Sides(H, x, y, tmp) && x.id in H && y.id in H && d.id in H
    requires forall n | IsKid(n, x) || IsKid(n, y) :: n !in {x.id, y.id, d.id}
    requires Rewritten(H, H', x.id, H[x.id].(keys := x.keys, ptrs := PtrsOf(x)), y.id,
               H[y.id].(keys := y.keys, ptrs := PtrsOf(y)),
                       d.id, H[d.id].(keys := GrownKeys(d, sep')), tmp)
    ensures forall k <- x.kids :: k.id in H' && H'[k.id].parent == x.id
    ensures forall k <- y.kids :: k.id in H' && H'[k.id].parent == y.id
  {
    forall k <- x.kids ensures k.id in H' && H'[k.id].parent == x.id { assert IsKid(k.id, x); }
    forall k <- y.kids ensures k.id in H' && H'[k.id].parent == y.id { assert IsKid(k.id, y); }
  }

  lemma {:induction false} KidsElsewhere(H: Heap, d: Ctx, a: Tree, b: Tree, a': Tree, b': Tree)
    requires a'.id == a.id && b'.id == b.id
    requires forall n <- CtxIds(d) :: n !in Ids(a) && n !in Ids(b)
    requires d.Frame? && d.id in CtxIds(d)
    requires forall n | IsKid(n, a') || IsKid(n, b') :: (n in Ids(a) || n in Ids(b)) && n != a.id && n != b.id
    ensures forall n | IsKid(n, a') || IsKid(n, b') :: n !in {a'.id, b'.id, d.id}
  {
    hide IsKid, Ids;
  }

  /* ---------- the four cases ---------- */

  lemma {:induction false} LeftSides(H: Heap, d: Ctx, a: Tree, sep: Key, b: Tree, h: nat)
    requires Pair(H, d, a, sep, b, h) && a.InnerT? && b.InnerT? && a.keys != [] && |a.kids| == |a.keys| + 1
    ensures var (a', sep', b') := FromLeft(a, sep, b); Sides(H, b', a', a.kids[|a.keys|].id)
  {
    var n := |a.keys|;
    PairIn(H, d, a, sep, b, h);
    PairParts(H, d, a, sep, b, h);
    hide Pair;
    KidsDistinct(a);
    assert a.kids[n] in a.kids;
    var (a', sep', b') := FromLeft(a, sep, b);
    assert b'.kids[0] in b'.kids;
    forall k <- a'.kids ensures k.id in H && k.id != a.kids[n].id && H[k.id].parent == a.id {
      var i :| 0 <= i < n && a.kids[i] == k;
      assert k in a.kids;
    }
    forall k <- b'.kids ensures k.id in H && (k.id == a.kids[n].id || H[k.id].parent == b.id) {
      assert k == a.kids[n] || k in b.kids;
    }
  }

  lemma {:induction false} RightSides(H: Heap, d: Ctx, a: Tree, sep: Key, b: Tree, h: nat)
    requires Pair(H, d, a, sep, b, h) && a.InnerT? && b.InnerT? && |b.keys| > 1 && |b.kids| == |b.keys| + 1
    ensures var (a', sep', b') := FromRight(a, sep, b); Sides(H, a', b', b.kids[0].id)
  {
    PairIn(H, d, a, sep, b, h);
    PairParts(H, d, a, sep, b, h);
    hide Pair;
    KidsDistinct(b);
    assert b.kids[0] in b.kids;
    var (a', sep', b') := FromRight(a, sep, b);
    assert a'.kids[|a.kids|] in a'.kids;
    forall k <- b'.kids ensures k.id in H && k.id != b.kids[0].id && H[k.id].parent == b.id {
      var i :| 0 < i < |b.kids| && b.kids[i] == k;
      assert k in b.kids;
    }
    forall k <- a'.kids ensures k.id in H && (k.id == b.kids[0].id || H[k.id].parent == a.id) {
      assert k == b.kids[0] || k in a.kids;
    }
  }

  lemma {:induction false} KidsDistinct(t: Tree)
    requires t.InnerT? && Once(Ids(t))
    ensures forall i, j | 0 <= i < |t.kids| && 0 <= j < |t.kids| && i != j :: t.kids[i].id != t.kids[j].id
  {
    assert multiset{t.id} + IdsOf(t.kids) + multiset{} == Ids(t);
    OnceParts(multiset{t.id}, IdsOf(t.kids), multiset{});
    forall i, j | 0 <= i < |t.kids| && 0 <= j < |t.kids| && i != j ensures t.kids[i].id != t.kids[j].id {
      RootIn(t.kids[i]);
      IdsApart(t.kids, i, j, t.kids[i].id);
    }
  }

  // The child that changes sides.
  ghost function MovingLast(a: Tree): Node?
  {
    if a.InnerT? && a.kids != [] then a.kids[|a.kids| - 1].id else null
  }

  ghost function MovingFirst(b: Tree): Node?
  {
    if b.InnerT? && b.kids != [] then b.kids[0].id else null
  }

  lemma {:induction false} LeftCells(H: Heap, H': Heap, d: Ctx, a: Tree, sep: Key, b: Tree, h: nat)
    requires Pair(H, d, a, sep, b, h) && a.keys != [] && a.id in H && b.id in H && d.id in H
    requires a.LeafT? == b.LeafT? && if a.LeafT? then |a.vals| == |a.keys| else |a.kids| == |a.keys| + 1
    requires MovedFromLeft(H, H', b.id, a.id, d.id, |d.lefts|, MovingLast(a))
    ensures var (a', sep', b') := FromLeft(a, sep, b);
      Rewritten(H, H', b.id, H[b.id].(keys := b'.keys, ptrs := PtrsOf(b')), a.id,
          H[a.id].(keys := a'.keys, ptrs := PtrsOf(a')),
                d.id, H[d.id].(keys := GrownKeys(d, sep')), MovingLast(a))
  {
    PairIn(H, d, a, sep, b, h);
    PairWf(H, d, a, sep, b, h);
    var (a', sep', b') := FromLeft(a, sep, b);
    assert H[d.id].keys == GrownKeys(d, sep);
    hide Pair;
    assert GrownKeys(d, sep') == GrownKeys(d, sep)[|d.lefts| := sep'];
    if a.LeafT? {
      assert PtrsOf(a') == PtrsOf(a)[..|a.vals| - 1];
      assert PtrsOf(b') == [Data(a.vals[|a.vals| - 1])] + PtrsOf(b);
    } else {
      assert PtrsOf(a') == PtrsOf(a)[..|a.kids| - 1];
      assert PtrsOf(b') == [Child(a.kids[|a.kids| - 1].id)] + PtrsOf(b);
    }
  }

  lemma {:induction false} RightCells(H: Heap, H': Heap, d: Ctx, a: Tree, sep: Key, b: Tree, h: nat)
    requires Pair(H, d, a, sep, b, h) && |b.keys| > 1 && a.id in H && b.id in H && d.id in H && d.Frame?
               && d.lefts == []
    requires a.LeafT? == b.LeafT? && if a.LeafT? then |b.vals| == |b.keys| else |b.kids| == |b.keys| + 1
    requires MovedFromRight(H, H', a.id, b.id, d.id, MovingFirst(b))
    ensures var (a', sep', b') := FromRight(a, sep, b);
      Rewritten(H, H', a.id, H[a.id].(keys := a'.keys, ptrs := PtrsOf(a')), b.id,
          H[b.id].(keys := b'.keys, ptrs := PtrsOf(b')),
                d.id, H[d.id].(keys := GrownKeys(d, sep')), MovingFirst(b))
  {
    PairIn(H, d, a, sep, b, h);
    PairWf(H, d, a, sep, b, h);
    var (a', sep', b') := FromRight(a, sep, b);
    assert H[d.id].keys == GrownKeys(d, sep);
    hide Pair;
    assert GrownKeys(d, sep') == GrownKeys(d, sep)[0 := sep'];
    if a.LeafT? {
      assert PtrsOf(b') == PtrsOf(b)[1..];
      assert PtrsOf(a') == PtrsOf(a) + [Data(b.vals[0])];
    } else {
      assert PtrsOf(b') == PtrsOf(b)[1..];
      assert PtrsOf(a') == PtrsOf(a) + [Child(b.kids[0].id)];
    }
  }

  lemma {:induction false} SidesLeft(H: Heap, d: Ctx, a: Tree, sep: Key, b: Tree, h: nat)
    requires Pair(H, d, a, sep, b, h) && a.LeafT? == b.LeafT? && a.keys != []
    requires if a.LeafT? then |a.vals| == |a.keys| else |a.kids| == |a.keys| + 1
    ensures Sides(H, FromLeft(a, sep, b).2, FromLeft(a, sep, b).0, MovingLast(a))
  {
    if a.InnerT? { LeftSides(H, d, a, sep, b, h); }
  }

  lemma {:induction false} SidesRight(H: Heap, d: Ctx, a: Tree, sep: Key, b: Tree, h: nat)
    requires Pair(H, d, a, sep, b, h) && a.LeafT? == b.LeafT? && |b.keys| > 1
    requires if a.LeafT? then |b.vals| == |b.keys| else |b.kids| == |b.keys| + 1
    ensures Sides(H, FromRight(a, sep, b).0, FromRight(a, sep, b).2, MovingFirst(b))
  {
    if a.InnerT? { RightSides(H, d, a, sep, b, h); }
  }

  /** distribute_nodes with a left neighbour. */
  lemma {:induction false} ShareLeft(H: Heap, H': Heap, c: Ctx, t: Tree, h: nat) returns (t': Tree)
    requires c.Frame? && c.lefts != [] && Uneven(H, c, t, h, c.lefts[|c.lefts| - 1])
    requires var a := c.lefts[|c.lefts| - 1]; MovedFromLeft(H, H', t.id, a.id, c.id, |c.lefts| - 1, MovingLast(a))
    ensures Settled(H', t', c, t, h)
  {
    var i := |c.lefts| - 1;
    var d, a, sep := LeftPair(c), c.lefts[i], c.lk[i];
    PairWithLeft(H, c, t, h);
    PairWf(H, d, a, sep, t, h);
    FromLeftShared(a, sep, t, h);
    var (a', sep', b') := FromLeft(a, sep, t);
    hide Shape, Shared, Deficient, Sorted, Chained, Rewritten, Sides;
    LeftCells(H, H', d, a, sep, t, h);
    SidesLeft(H, d, a, sep, t, h);
    hide Pair, MovedFromLeft;
    RewrittenShared(H, H', d, a, sep, t, h, a', sep', b', b', a', MovingLast(a));
    t' := Divide(H, H', c, t, h, d, a, sep, t, a', sep', b');
  }

  /** distribute_nodes for a leftmost child. */
  lemma {:induction false} ShareRight(H: Heap, H': Heap, c: Ctx, t: Tree, h: nat) returns (t': Tree)
    requires c.Frame? && c.lefts == [] && c.rights != [] && Uneven(H, c, t, h, c.rights[0])
    requires MovedFromRight(H, H', t.id, c.rights[0].id, c.id, MovingFirst(c.rights[0]))
    ensures Settled(H', t', c, t, h)
  {
    var d, b := RightPair(c), c.rights[0];
    PairWithRight(H, c, t, h);
    var sep := c.rk[0];
    PairWf(H, d, t, sep, b, h);
    FromRightShared(t, sep, b, h);
    var (a', sep', b') := FromRight(t, sep, b);
    hide Shape, Shared, Deficient, Sorted, Chained, Rewritten, Sides;
    RightCells(H, H', d, t, sep, b, h);
    SidesRight(H, d, t, sep, b, h);
    hide Pair, MovedFromRight;
    RewrittenShared(H, H', d, t, sep, b, h, a', sep', b', a', b', MovingFirst(b));
    t' := Divide(H, H', c, t, h, d, t, sep, b, a', sep', b');
  }
}
