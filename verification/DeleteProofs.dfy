/** What removing an entry does to the tree: a node that runs short is refilled from a sibling or joined with it. */
module DeleteProofs {
  import opened Keys
  import opened BPlusNode
  import opened SeqFacts
  import opened Buffers
  import opened TreeModel
  import opened InOrder
  import opened InsertProofs
  import opened Search
  import opened LeafProofs

  ghost function PtrsOf(t: Tree): seq<Ptr> {
    if t.LeafT? then DataPtrs(t.vals) else ChildPtrs(t.kids)
  }

  // The fewest keys a node may be left with by remove_entry: one below its minimum, none for a root.
  function Deficit(c: Ctx, h: nat): nat {
    LeastKeys(c, h) - 1
  }

  /** `t` is in place below `c`, but its node may hold one key too few. */
  ghost predicate Deficient(H: Heap, c: Ctx, t: Tree, h: nat) {
    && HoldsCtx(H, c, t.id) && Holds(H, t) && H[t.id].parent == CtxId(c)
    && Once(CtxIds(c) + Ids(t)) && CtxShape(c, h) && Shape(t, h, Deficit(c, h))
  }

  /** Node `t.id` still holds the entry `index`; without it, it would be the root of `t`. */
  ghost predicate Removing(H: Heap, c: Ctx, t: Tree, h: nat, index: nat) {
    && HoldsCtx(H, c, t.id) && t.id in H && H[t.id].parent == CtxId(c) && H[t.id].isLeaf == t.LeafT?
    && Once(CtxIds(c) + Ids(t)) && CtxShape(c, h) && Shape(t, h, Deficit(c, h))
    && var x := H[t.id];
    && |x.keys| == |t.keys| + 1 < SIZE && |x.ptrs| == |PtrsOf(t)| + 1
    && (if t.LeafT? then index < |x.keys| else 0 < index < |x.ptrs|)
    && t.keys == RemoveAt(x.keys, if t.LeafT? then index else index - 1)
    && PtrsOf(t) == RemoveAt(x.ptrs, index)
    && (t.InnerT? ==> HoldsAll(H, t.kids, t.id))
  }

  lemma {:induction false} Removed(H: Heap, H': Heap, c: Ctx, t: Tree, h: nat, index: nat)
    requires Removing(H, c, t, h, index)
    requires H' == H[t.id := H[t.id].(keys := t.keys, ptrs := PtrsOf(t))]
    ensures Deficient(H', c, t, h)
  {
    RemovedHolds(H, H', c, t, h, index);
  }

  lemma {:induction false} RemovedHolds(H: Heap, H': Heap, c: Ctx, t: Tree, h: nat, index: nat)
    requires Removing(H, c, t, h, index)
    requires H' == H[t.id := H[t.id].(keys := t.keys, ptrs := PtrsOf(t))]
    ensures HoldsCtx(H', c, t.id) && Holds(H', t)
  {
    RemovedOuter(H, H', c, t, h, index);
    if t.InnerT? {
      RemovedKids(H, H', c, t, h, index);
    }
    hide Shape, CtxShape, RemoveAt, HoldsCtx, Once, Ids, IdsOf, CtxIds;
  }

  lemma {:induction false} RemovedOuter(H: Heap, H': Heap, c: Ctx, t: Tree, h: nat, index: nat)
    requires Removing(H, c, t, h, index)
    requires H' == H[t.id := H[t.id].(keys := t.keys, ptrs := PtrsOf(t))]
    ensures HoldsCtx(H', c, t.id)
  {
    hide Shape, CtxShape, RemoveAt, Holds, HoldsAll;
    FocusParts(c, t);
    CtxIn(H, c, t.id);
    HoldsCtxFrame(H, H', c, t.id);
  }

  lemma {:induction false} RemovedKids(H: Heap, H': Heap, c: Ctx, t: Tree, h: nat, index: nat)
    requires Removing(H, c, t, h, index) && t.InnerT?
    requires H' == H[t.id := H[t.id].(keys := t.keys, ptrs := PtrsOf(t))]
    ensures HoldsAll(H', t.kids, t.id)
  {
    hide Shape, CtxShape, RemoveAt, HoldsCtx;
    FocusParts(c, t);
    KidsIn(H, t.kids);
    HoldsAllFrame(H, H', t.kids, t.id);
  }

  lemma {:induction false} FocusParts(c: Ctx, t: Tree)
    requires Once(CtxIds(c) + Ids(t))
    ensures Once(CtxIds(c)) && Once(Ids(t)) && t.id !in CtxIds(c) && forall n <- Ids(t) :: n !in CtxIds(c)
    ensures t.InnerT? ==> Once(IdsOf(t.kids)) && t.id !in IdsOf(t.kids)
  {
    RootIn(t);
    assert CtxIds(c) + Ids(t) + multiset{} == CtxIds(c) + Ids(t);
    OnceParts(CtxIds(c), Ids(t), multiset{});
    if t.InnerT? {
      assert multiset{t.id} + IdsOf(t.kids) + multiset{} == Ids(t);
      OnceParts(multiset{t.id}, IdsOf(t.kids), multiset{});
    }
  }

  /** The walk over the whole tree with `t` below `c`. */
  ghost function Around(c: Ctx, t: Tree): seq<Item> {
    Left(c) + Items(t) + Right(c)
  }

  /** remove_entry left enough keys: the tree is whole as it stands. */
  lemma {:induction false} StillFull(H: Heap, c: Ctx, t: Tree, h: nat)
    requires Deficient(H, c, t, h) && Sorted(Around(c, t)) && Chained(H, Leaves(Around(c, t)))
    requires |t.keys| >= LeastKeys(c, h)
    ensures Proper(H, Plug(c, t)) && Items(Plug(c, t)) == Around(c, t) && Height(Plug(c, t)) == CtxHeight(c, h)
  {
    WholePlug(H, c, t, h);
  }

  lemma {:induction false} OnlyKid(H: Heap, t: Tree, h: nat)
    requires Deficient(H, Top, t, h) && t.InnerT? && |t.keys| == 0
    ensures |t.kids| == 1 && t.kids[0].id in H && H[t.id].ptrs == [Child(t.kids[0].id)]
    ensures Holds(H, t.kids[0]) && h > 0 && Shape(t.kids[0], h - 1, MinKeys(h - 1))
    ensures Items(t) == Items(t.kids[0]) && Around(Top, t) == Items(t)
  {
    var k := t.kids[0];
    assert k in t.kids && t.kids == [k] && t.keys == [];
    assert Holds(H, k) && ChildPtrs(t.kids) == [Child(k.id)];
    assert Items(t) == Items(k);
  }

  /** adjust_root: a root left with one child gives way to it. */
  lemma {:induction false} RootGivesWay(H: Heap, H': Heap, t: Tree, h: nat)
    requires Deficient(H, Top, t, h) && Sorted(Around(Top, t)) && Chained(H, Leaves(Around(Top, t)))
    requires t.InnerT? && |t.keys| == 0
    ensures |t.kids| == 1 && t.kids[0].id in H && H[t.id].ptrs == [Child(t.kids[0].id)]
    ensures H' == H[t.kids[0].id := H[t.kids[0].id].(parent := null)] ==>
      Proper(H', t.kids[0]) && Items(t.kids[0]) == Around(Top, t) && Height(t.kids[0]) + 1 == CtxHeight(Top, h)
  {
    hide Sorted, Leaves, Items, Around, Shape, Holds;
    OnlyKid(H, t, h);
    var k := t.kids[0];
    if H' == H[k.id := H[k.id].(parent := null)] {
      RootKid(H, H', t, k);
      ShapeHeight(k, h - 1, MinKeys(h - 1));
      ShapeMono(k, h - 1, MinKeys(h - 1), 1);
      ChainedSame(H, H', Leaves(Items(k)));
    }
  }

  lemma {:induction false} ShapeMono(t: Tree, h: nat, lo: nat, lo': nat)
    requires Shape(t, h, lo) && lo' <= lo
    ensures Shape(t, h, lo')
  {}

  lemma {:induction false} RootKid(H: Heap, H': Heap, t: Tree, k: Tree)
    requires Holds(H, t) && Once(CtxIds(Top) + Ids(t)) && t.InnerT? && t.kids == [k]
    requires k.id in H && H' == H[k.id := H[k.id].(parent := null)]
    ensures Holds(H', k) && Once(Ids(k))
  {
    assert k in t.kids;
    assert IdsOf([k]) == Ids(k) + IdsOf([k][1..]) && [k][1..] == [];
    assert CtxIds(Top) + Ids(t) == multiset{t.id} + Ids(k) + multiset{};
    OnceParts(multiset{t.id}, Ids(k), multiset{});
    TreeIn(H, k);
    HoldsFrame(H, H', k);
  }

  /* ---------- a node and its sibling ---------- */

  /** Adjacent children `a` and `b` of `d.id`, with separator `sep` between them, where `d` has one hole for both. */
  ghost predicate Pair(H: Heap, d: Ctx, a: Tree, sep: Key, b: Tree, h: nat) {
    && d.Frame? && |d.lk| == |d.lefts| && |d.rk| == |d.rights|
    && d.id in H && !H[d.id].isLeaf && H[d.id].parent == CtxId(d.up)
    && H[d.id].keys == GrownKeys(d, sep) && H[d.id].ptrs == ChildPtrs(GrownKids(d, a, b))
    && HoldsCtx(H, d.up, d.id) && HoldsAll(H, GrownKids(d, a, b), d.id)
    && Once(multiset{d.id} + IdsOf(GrownKids(d, a, b)) + CtxIds(d.up))
    && AllShape(d.lefts, h) && AllShape(d.rights, h) && CtxShape(d.up, h + 1)
    && LeastKeys(d.up, h + 1) <= |d.lk| + |d.rk| + 1 < SIZE
    && Shape(a, h, MinKeys(h) - 1) && Shape(b, h, MinKeys(h) - 1)
  }

  ghost function LeftPair(c: Ctx): Ctx
    requires c.Frame? && c.lefts != [] && |c.lk| == |c.lefts|
  {
    c.(lk := c.lk[..|c.lk| - 1], lefts := c.lefts[..|c.lefts| - 1])
  }

  ghost function RightPair(c: Ctx): Ctx
    requires c.Frame? && c.rights != [] && |c.rk| == |c.rights|
  {
    c.(rk := c.rk[1..], rights := c.rights[1..])
  }

  lemma {:induction false} FilledHolds(H: Heap, c: Ctx, t: Tree)
    requires c.Frame? && HoldsCtx(H, c, t.id) && Holds(H, t) && H[t.id].parent == CtxId(c)
    ensures HoldsAll(H, c.lefts + [t] + c.rights, c.id)
    ensures H[c.id].ptrs == ChildPtrs(c.lefts + [t] + c.rights)
  {
    forall k <- c.lefts + [t] + c.rights ensures Holds(H, k) && H[k.id].parent == c.id {
      assert k in c.lefts || k == t || k in c.rights;
    }
  }

  lemma {:induction false} FilledIds(c: Ctx, t: Tree)
    requires c.Frame?
    ensures CtxIds(c) + Ids(t) == multiset{c.id} + IdsOf(c.lefts + [t] + c.rights) + CtxIds(c.up)
  {
    IdsAround(c.lefts, t, c.rights);
    Regroup3(multiset{c.id}, IdsOf(c.lefts), Ids(t), IdsOf(c.rights), CtxIds(c.up));
    assert multiset{c.id} + IdsOf(c.lefts + [t] + c.rights) + CtxIds(c.up)
        == CtxIds(c.up) + (multiset{c.id} + IdsOf(c.lefts + [t] + c.rights));
  }

  /** A node that ran short and a sibling, seen from the context without that sibling. */
  lemma {:induction false} PairAround(H: Heap, c: Ctx, t: Tree, h: nat, d: Ctx, a: Tree, sep: Key, b: Tree)
    requires Deficient(H, c, t, h) && c.Frame? && d.Frame? && d.id == c.id && d.up == c.up
    requires |d.lk| == |d.lefts| && |d.rk| == |d.rights|
    requires GrownKids(d, a, b) == c.lefts + [t] + c.rights && GrownKeys(d, sep) == c.lk + c.rk
    requires AllShape(d.lefts, h) && AllShape(d.rights, h) && Shape(a, h, MinKeys(h) - 1) && Shape(b, h, MinKeys(h) - 1)
    ensures Pair(H, d, a, sep, b, h)
  {
    hide Holds, HoldsAll, Shape, AllShape, Ids, GrownKids, GrownKeys;
    assert |GrownKeys(d, sep)| == |d.lk| + |d.rk| + 1 by { KeysLength(d, sep); }
    FilledHolds(H, c, t);
    FilledIds(c, t);
  }

  lemma {:induction false} KeysLength(d: Ctx, sep: Key)
    requires d.Frame?
    ensures |GrownKeys(d, sep)| == |d.lk| + |d.rk| + 1
  {}

  /** The left neighbour and a node that ran short. */
  lemma {:induction false} PairWithLeft(H: Heap, c: Ctx, t: Tree, h: nat)
    requires Deficient(H, c, t, h) && c.Frame? && c.lefts != []
    ensures |c.lk| == |c.lefts|
    ensures var n := |c.lefts| - 1;
      && Pair(H, LeftPair(c), c.lefts[n], c.lk[n], t, h) && Shape(c.lefts[n], h, MinKeys(h))
      && PendingItems(LeftPair(c), c.lefts[n], c.lk[n], t) == Around(c, t)
  {
    hide Holds, Items, Left, Right, PendingItems, Around, Pair;
    var n := |c.lefts| - 1;
    var d, a, sep := LeftPair(c), c.lefts[n], c.lk[n];
    assert GrownKids(d, a, t) == c.lefts + [t] + c.rights && GrownKeys(d, sep) == c.lk + c.rk;
    PairShape(c, h);
    PairAround(H, c, t, h, d, a, sep, t);
    PairItems(c, d, a, sep, t, t);
  }

  lemma {:induction false} PairShape(c: Ctx, h: nat)
    requires c.Frame? && CtxShape(c, h)
    ensures c.lefts != [] ==> AllShape(c.lefts[..|c.lefts| - 1], h) && Shape(c.lefts[|c.lefts| - 1], h, MinKeys(h))
    ensures c.rights != [] ==> AllShape(c.rights[1..], h) && Shape(c.rights[0], h, MinKeys(h))
  {
    if c.lefts != [] {
      forall k <- c.lefts[..|c.lefts| - 1] ensures k in c.lefts {}
      assert c.lefts[|c.lefts| - 1] in c.lefts;
    }
    if c.rights != [] {
      forall k <- c.rights[1..] ensures k in c.rights {}
      assert c.rights[0] in c.rights;
    }
  }

  lemma {:induction false} PairItems(c: Ctx, d: Ctx, a: Tree, sep: Key, b: Tree, t: Tree)
    requires c.Frame? && |c.lk| == |c.lefts| && |c.rk| == |c.rights|
    requires d.Frame? && |d.lk| == |d.lefts| && |d.rk| == |d.rights| && d.up == c.up
    requires GrownKids(d, a, b) == c.lefts + [t] + c.rights && GrownKeys(d, sep) == c.lk + c.rk
    ensures PendingItems(d, a, sep, b) == Around(c, t)
  {
    hide Row, Left, Right;
    GrownItems(d, a, sep, b);
    RowAround(c.lk, c.lefts, t, c.rk, c.rights);
    AroundUp(c, t);
  }

  lemma {:induction false} AroundUp(c: Ctx, t: Tree)
    requires c.Frame?
    ensures Around(c, t) == Left(c.up) + (LeftRow(c.lk, c.lefts) + Items(t) + RightRow(c.rk, c.rights)) + Right(c.up)
  {
    Nest(Left(c.up), LeftRow(c.lk, c.lefts), Items(t), RightRow(c.rk, c.rights), Right(c.up));
  }

  /** A node that ran short and its right neighbour. */
  lemma {:induction false} PairWithRight(H: Heap, c: Ctx, t: Tree, h: nat)
    requires Deficient(H, c, t, h) && c.Frame? && c.rights != []
    ensures |c.rk| == |c.rights|
    ensures Pair(H, RightPair(c), t, c.rk[0], c.rights[0], h) && Shape(c.rights[0], h, MinKeys(h))
    ensures PendingItems(RightPair(c), t, c.rk[0], c.rights[0]) == Around(c, t)
  {
    hide Holds, Items, Left, Right, PendingItems, Around, Pair;
    var d, b, sep := RightPair(c), c.rights[0], c.rk[0];
    assert GrownKids(d, t, b) == c.lefts + [t] + c.rights && GrownKeys(d, sep) == c.lk + c.rk;
    PairShape(c, h);
    PairAround(H, c, t, h, d, t, sep, b);
    PairItems(c, d, t, sep, b, t);
  }

  /* ---------- the leaf that loses a binding ---------- */

  lemma {:induction false} WalkRemove(c: Ctx, id: Node, ks: seq<Key>, vs: seq<Value>, i: nat)
    requires |ks| == |vs| && i < |ks|
    ensures Walk(c, id, ks, vs)
         == (Left(c) + [Mark(id)] + Ents(ks[..i], vs[..i])) + [Ent(ks[i], vs[i])]
             + (Ents(ks[i + 1..], vs[i + 1..]) + Right(c))
    ensures Walk(c, id, RemoveAt(ks, i), RemoveAt(vs, i))
         == (Left(c) + [Mark(id)] + Ents(ks[..i], vs[..i])) + (Ents(ks[i + 1..], vs[i + 1..]) + Right(c))
  {
    var ks', vs' := RemoveAt(ks, i), RemoveAt(vs, i);
    assert ks == InsertAt(ks', i, ks[i]) && vs == InsertAt(vs', i, vs[i]);
    assert ks'[..i] == ks[..i] && vs'[..i] == vs[..i] && ks'[i..] == ks[i + 1..] && vs'[i..] == vs[i + 1..];
    WalkInsert(c, id, ks', vs', i, ks[i], vs[i]);
    AroundLeaf(c, id, ks', vs', i);
  }

  /** delete: taking the binding out of its leaf drops exactly its key and keeps the leaves in their order. */
  lemma {:induction false} RemovedWalk(c: Ctx, id: Node, ks: seq<Key>, vs: seq<Value>, i: nat)
    requires |ks| == |vs| && i < |ks| && Sorted(Walk(c, id, ks, vs))
    ensures var w, w' := Walk(c, id, ks, vs), Walk(c, id, RemoveAt(ks, i), RemoveAt(vs, i));
            Sorted(w') && Leaves(w') == Leaves(w) && ToMap(Entries(w')) == ToMap(Entries(w)) - {ks[i]}
  {
    hide Left, Right, Walk;
    var a, x, b := Left(c) + [Mark(id)] + Ents(ks[..i], vs[..i]), Ent(ks[i], vs[i]),
        Ents(ks[i + 1..], vs[i + 1..]) + Right(c);
    WalkRemove(c, id, ks, vs, i);
    MapRemove(a, ks[i], vs[i], b);
    LeavesConcat(a, b);
    LeavesConcat(a + [x], b);
    LeavesConcat(a, [x]);
    NoLeaves([x]);
    NoneLeft(Leaves(a));
  }

  /** The leaf without its binding `i`. */
  ghost function Less(leaf: Tree, i: nat): Tree
    requires leaf.LeafT? && i < |leaf.keys| == |leaf.vals|
  {
    LeafT(leaf.id, RemoveAt(leaf.keys, i), RemoveAt(leaf.vals, i))
  }

  lemma {:induction false} LessRemoving(H: Heap, t: Tree, c: Ctx, leaf: Tree, i: nat)
    requires Under(H, t, c, leaf, 0) && leaf.LeafT? && i < |leaf.keys| == |leaf.vals|
    ensures Removing(H, c, Less(leaf, i), 0, i)
  {
    hide Items, Left, Right;
    UnderNode(H, t, c, leaf, 0);
    assert DataPtrs(Less(leaf, i).vals) == RemoveAt(DataPtrs(leaf.vals), i);
    assert Ids(Less(leaf, i)) == Ids(leaf);
  }

  lemma {:induction false} LessItems(H: Heap, t: Tree, c: Ctx, leaf: Tree, i: nat)
    requires Items(t) == Left(c) + Items(leaf) + Right(c) && leaf.LeafT? && i < |leaf.keys| == |leaf.vals|
    requires Sorted(Items(t)) && Chained(H, Leaves(Items(t)))
    ensures var around := Around(c, Less(leaf, i));
            Sorted(around) && Chained(H, Leaves(around)) && ToMap(Entries(around)) == Bindings(t) - {leaf.keys[i]}
  {
    hide Left, Right, Sorted, Chained, ToMap, Entries, Leaves, RemoveAt;
    assert Around(c, Less(leaf, i)) == Walk(c, leaf.id, RemoveAt(leaf.keys, i), RemoveAt(leaf.vals, i));
    assert Items(t) == Walk(c, leaf.id, leaf.keys, leaf.vals);
    RemovedWalk(c, leaf.id, leaf.keys, leaf.vals, i);
  }

  /** delete hands delete_entry a leaf that is about to lose binding `i`. */
  lemma {:induction false} DeleteStart(H: Heap, t: Tree, c: Ctx, leaf: Tree, i: nat) returns (rest: Tree)
    requires Proper(H, t) && Under(H, t, c, leaf, 0) && leaf.LeafT? && i < |leaf.keys|
    ensures rest.id == leaf.id && Removing(H, c, rest, 0, i) && Plug(c, rest).id == t.id
    ensures Sorted(Around(c, rest)) && Chained(H, Leaves(Around(c, rest)))
    ensures ToMap(Entries(Around(c, rest))) == Bindings(t) - {leaf.keys[i]} && CtxHeight(c, 0) == Height(t)
  {
    hide Items, Left, Right, Sorted, Chained, ToMap, Entries, Leaves, RemoveAt, Removing, Around, Bindings, Holds,
         HoldsCtx, Whole;
    UnderNode(H, t, c, leaf, 0);
    rest := Less(leaf, i);
    LessRemoving(H, t, c, leaf, i);
    LessItems(H, t, c, leaf, i);
    CtxHeightPlug(c, leaf, 0);
    PlugRoot(c, leaf, rest);
  }
}
