/** What adding a binding to a leaf, with or without splitting it, does to the in-order walk. */
module LeafProofs {
  import opened Keys
  import opened BPlusNode
  import opened SeqFacts
  import opened Buffers
  import opened TreeModel
  import opened InOrder
  import opened InsertProofs
  import opened Insert
  import opened Search

  lemma {:induction false} EntsConcat(k1: seq<Key>, v1: seq<Value>, k2: seq<Key>, v2: seq<Value>)
    requires |k1| == |v1| && |k2| == |v2|
    ensures Ents(k1 + k2, v1 + v2) == Ents(k1, v1) + Ents(k2, v2)
  {}

  /** The walk as it would be if the leaf could hold any number of bindings. */
  ghost function Walk(c: Ctx, id: Node, ks: seq<Key>, vs: seq<Value>): seq<Item> {
    Left(c) + LeafItems(id, ks, vs) + Right(c)
  }

  lemma {:induction false} AroundLeaf(c: Ctx, id: Node, ks: seq<Key>, vs: seq<Value>, i: nat)
    requires |ks| == |vs| && i <= |ks|
    ensures Walk(c, id, ks, vs) == (Left(c) + [Mark(id)] + Ents(ks[..i], vs[..i])) + (Ents(ks[i..], vs[i..]) + Right(c))
  {
    hide Left, Right, Ents;
    var e1, e2 := Ents(ks[..i], vs[..i]), Ents(ks[i..], vs[i..]);
    EntsConcat(ks[..i], vs[..i], ks[i..], vs[i..]);
    assert ks == ks[..i] + ks[i..] && vs == vs[..i] + vs[i..];
    AroundParts(Left(c), [Mark(id)], e1, [], e2, Right(c));
    NoneLeft(e1);
    NoneLeft(Left(c) + [Mark(id)] + e1);
  }

  lemma {:induction false} AroundParts<T>(l: seq<T>, m: seq<T>, e1: seq<T>, x: seq<T>, e2: seq<T>, r: seq<T>)
    ensures l + (m + (e1 + x + e2)) + r == (l + m + e1) + x + (e2 + r)
  {}

  lemma {:induction false} WalkInsert(c: Ctx, id: Node, ks: seq<Key>, vs: seq<Value>, i: nat, key: Key, v: Value)
    requires |ks| == |vs| && i <= |ks|
    ensures Walk(c, id, InsertAt(ks, i, key), InsertAt(vs, i, v))
         == (Left(c) + [Mark(id)] + Ents(ks[..i], vs[..i])) + [Ent(key, v)] + (Ents(ks[i..], vs[i..]) + Right(c))
  {
    var e1, e2 := Ents(ks[..i], vs[..i]), Ents(ks[i..], vs[i..]);
    EntsInsert(ks, vs, i, key, v);
    AroundParts(Left(c), [Mark(id)], e1, [Ent(key, v)], e2, Right(c));
  }

  lemma {:induction false} EntsInsert(ks: seq<Key>, vs: seq<Value>, i: nat, key: Key, v: Value)
    requires |ks| == |vs| && i <= |ks|
    ensures Ents(InsertAt(ks, i, key), InsertAt(vs, i, v)) == Ents(ks[..i], vs[..i]) + [Ent(key, v)]
              + Ents(ks[i..], vs[i..])
  {}

  /** Where insert stops scanning: `key` lies strictly between the bindings before and after slot `i`. */
  ghost predicate SlotFor(ks: seq<Key>, i: nat, key: Key) {
    && i <= |ks|
    && (forall j | 0 <= j < i :: Lt(ks[j], key))
    && (forall j | i <= j < |ks| :: Lt(key, ks[j]))
  }

  /** Adding a binding at its slot keeps the walk sorted, adds it to the map and passes the same leaves. */
  lemma {:induction false} InsertedWalk(c: Ctx, id: Node, ks: seq<Key>, vs: seq<Value>, i: nat, key: Key, v: Value)
    requires |ks| == |vs| && SlotFor(ks, i, key) && Narrowed(c, key) && Sorted(Walk(c, id, ks, vs))
    ensures var w, w' := Walk(c, id, ks, vs), Walk(c, id, InsertAt(ks, i, key), InsertAt(vs, i, v));
            && Sorted(w') && Leaves(w') == Leaves(w)
            && key !in ToMap(Entries(w)) && ToMap(Entries(w')) == ToMap(Entries(w))[key := v]
  {
    hide Left, Right, Walk, Ents, InsertAt, ToMap, Entries, Leaves;
    var a, x, b := Left(c) + [Mark(id)] + Ents(ks[..i], vs[..i]), Ent(key, v), Ents(ks[i..], vs[i..]) + Right(c);
    AroundLeaf(c, id, ks, vs, i);
    WalkInsert(c, id, ks, vs, i, key, v);
    SlotOrder(c, id, ks, vs, i, key, v);
    SortedAround(a, x, b);
    MapInsert(a, key, v, b);
    LeavesConcat(a, b);
    LeavesConcat(a + [x], b);
    LeavesConcat(a, [x]);
    NoLeaves([x]);
  }

  lemma {:induction false} SlotOrder(c: Ctx, id: Node, ks: seq<Key>, vs: seq<Value>, i: nat, key: Key, v: Value)
    requires |ks| == |vs| && SlotFor(ks, i, key) && Narrowed(c, key)
    ensures AllBefore(Left(c) + [Mark(id)] + Ents(ks[..i], vs[..i]), Ent(key, v))
    ensures AllAfter(Ent(key, v), Ents(ks[i..], vs[i..]) + Right(c))
  {
    hide Left, Right;
    assert AllBefore(Left(c), Ent(key, v)) by {
      forall j | 0 <= j < |Left(c)| ensures Before(Left(c)[j], Ent(key, v)) {
        assert Before(Left(c)[j], Ent(key, 0));
      }
    }
    assert AllAfter(Ent(key, v), Right(c)) by {
      forall j | 0 <= j < |Right(c)| ensures Before(Ent(key, v), Right(c)[j]) {
        assert Before(Ent(key, 0), Right(c)[j]);
      }
    }
  }

  /** The scan of insert stops at the slot of `key`, because the leaf is sorted. */
  lemma {:induction false} SlotFound(c: Ctx, id: Node, ks: seq<Key>, vs: seq<Value>, i: nat, key: Key)
    requires |ks| == |vs| && Sorted(Walk(c, id, ks, vs))
    requires i <= |ks| && (forall j | 0 <= j < i :: Lt(ks[j], key)) && (i < |ks| ==> Lt(key, ks[i]))
    ensures SlotFor(ks, i, key)
  {
    hide Left, Right;
    var w, d := Walk(c, id, ks, vs), |Left(c)| + 1;
    forall j | i < j < |ks| ensures Lt(key, ks[j]) {
      assert w[d + i] == Ent(ks[i], vs[i]) && w[d + j] == Ent(ks[j], vs[j]);
      LtTrans(key, ks[i], ks[j]);
    }
  }

  lemma {:induction false} OutsideKey(s: seq<Item>, key: Key, v: Value)
    requires AllBefore(s, Ent(key, 0)) || AllAfter(Ent(key, 0), s)
    ensures Ent(key, v) !in s
  {
    TotalOrder(key, key);
  }

  /** A key is bound exactly when its one leaf has it. */
  lemma {:induction false} LeafDecides(c: Ctx, id: Node, ks: seq<Key>, vs: seq<Value>, key: Key)
    requires |ks| == |vs| && Narrowed(c, key) && Sorted(Walk(c, id, ks, vs))
    ensures key in ToMap(Entries(Walk(c, id, ks, vs))) <==> key in ks
    ensures forall i | 0 <= i < |ks| && ks[i] == key :: ToMap(Entries(Walk(c, id, ks, vs)))[key] == vs[i]
  {
    hide Left, Right;
    var w := Walk(c, id, ks, vs);
    var m := ToMap(Entries(w));
    forall i | 0 <= i < |ks| && ks[i] == key ensures key in m && m[key] == vs[i] {
      assert w[|Left(c)| + 1 + i] == Ent(key, vs[i]);
      BindingsOf(w, key, vs[i]);
    }
    if key in m {
      BindingsOf(w, key, m[key]);
      OutsideKey(Left(c), key, m[key]);
      OutsideKey(Right(c), key, m[key]);
      assert Ent(key, m[key]) in LeafItems(id, ks, vs);
    }
  }

  /** Splitting an overfull leaf at `i` announces the new leaf by its first key and changes nothing else. */
  lemma {:induction false} SplitWalk(c: Ctx, id: Node, ks: seq<Key>, vs: seq<Value>, i: nat, n: Node)
    requires |ks| == |vs| && 0 < i < |ks| && Sorted(Walk(c, id, ks, vs))
    ensures var s := PendingItems(c, LeafT(id, ks[..i], vs[..i]), ks[i], LeafT(n, ks[i..], vs[i..]));
            && Sorted(s) && Entries(s) == Entries(Walk(c, id, ks, vs))
            && Leaves(s) == Leaves(Left(c)) + [id, n] + Leaves(Right(c))
            && Leaves(Walk(c, id, ks, vs)) == Leaves(Left(c)) + [id] + Leaves(Right(c))
  {
    hide Left, Right, Sorted, Entries, Leaves;
    AroundLeaf(c, id, ks, vs, i);
    PendingParts(c, id, ks[..i], vs[..i], ks[i], n, ks[i..], vs[i..]);
    var e1, e2 := Ents(ks[..i], vs[..i]), Ents(ks[i..], vs[i..]);
    SplitSorted(Left(c) + [Mark(id)], e1, ks[i], n, e2, Right(c));
    CutEntries(Left(c) + [Mark(id)] + e1, ks[i], n, e2 + Right(c));
    CutLeaves(Left(c), id, e1, ks[i], n, e2, Right(c));
  }

  lemma {:induction false} PendingParts(c: Ctx, id: Node, k1: seq<Key>, v1: seq<Value>, sep: Key, n: Node,
                                        k2: seq<Key>, v2: seq<Value>)
    requires |k1| == |v1| && |k2| == |v2|
    ensures PendingItems(c, LeafT(id, k1, v1), sep, LeafT(n, k2, v2))
         == (Left(c) + [Mark(id)] + Ents(k1, v1)) + [Sep(sep), Mark(n)] + (Ents(k2, v2) + Right(c))
  {
    hide Left, Right, Ents;
    PendingRegroup(Left(c), [Mark(id)], Ents(k1, v1), Sep(sep), Mark(n), Ents(k2, v2), Right(c));
  }

  lemma {:induction false} PendingRegroup<T>(l: seq<T>, m: seq<T>, e1: seq<T>, x: T, y: T, e2: seq<T>, r: seq<T>)
    ensures l + ((m + e1) + [x] + ([y] + e2)) + r == (l + m + e1) + [x, y] + (e2 + r)
  {}

  lemma {:induction false} SplitSorted(a: seq<Item>, e1: seq<Item>, k: Key, n: Node, e2: seq<Item>, b: seq<Item>)
    requires e1 != [] && e2 != [] && e1[|e1| - 1].Ent? && e2[0].Ent? && e2[0].key == k
    requires Sorted((a + e1) + (e2 + b))
    ensures Sorted((a + e1) + [Sep(k), Mark(n)] + (e2 + b))
  {
    hide Sorted;
    var m := |e1| - 1;
    assert a + e1 == (a + e1[..m]) + [e1[m]];
    assert e2 + b == [e2[0]] + (e2[1..] + b);
    SortedSplit(a + e1[..m], e1[m], e2[0], n, e2[1..] + b);
    Assoc(a + e1, [Sep(k), Mark(n)], e2 + b);
  }

  lemma {:induction false} CutEntries(a: seq<Item>, k: Key, n: Node, b: seq<Item>)
    ensures Entries(a + [Sep(k), Mark(n)] + b) == Entries(a + b)
  {
    var cut := [Sep(k), Mark(n)];
    EntriesConcat(a, b);
    EntriesConcat(a + cut, b);
    EntriesConcat(a, cut);
    assert Entries(cut) == Entries(cut[1..]) && Entries(cut[1..]) == Entries(cut[1..][1..]);
    NoneLeft(Entries(a));
  }

  lemma {:induction false} CutLeaves(a: seq<Item>, id: Node, e1: seq<Item>, k: Key, n: Node, e2: seq<Item>,
                                     b: seq<Item>)
    requires (forall x <- e1 :: !x.Mark?) && forall x <- e2 :: !x.Mark?
    ensures Leaves((a + [Mark(id)] + e1) + [Sep(k), Mark(n)] + (e2 + b)) == Leaves(a) + [id, n] + Leaves(b)
    ensures Leaves((a + [Mark(id)] + e1) + (e2 + b)) == Leaves(a) + [id] + Leaves(b)
  {
    var cut, front, back := [Sep(k), Mark(n)], a + [Mark(id)] + e1, e2 + b;
    LeafMarks(a, id, e1, e2, b);
    LeavesConcat(front + cut, back);
    LeavesConcat(front, cut);
    LeavesConcat(front, back);
    assert Leaves(cut) == Leaves(cut[1..]) && Leaves(cut[1..]) == [n] + Leaves(cut[1..][1..]);
    Assoc(Leaves(a), [id], [n]);
  }

  lemma {:induction false} LeafMarks(a: seq<Item>, id: Node, e1: seq<Item>, e2: seq<Item>, b: seq<Item>)
    requires (forall x <- e1 :: !x.Mark?) && forall x <- e2 :: !x.Mark?
    ensures Leaves(a + [Mark(id)] + e1) == Leaves(a) + [id] && Leaves(e2 + b) == Leaves(b)
  {
    NoLeaves(e1);
    NoLeaves(e2);
    LeavesConcat(a + [Mark(id)], e1);
    LeavesConcat(a, [Mark(id)]);
    assert Leaves([Mark(id)]) == [id];
    LeavesConcat(e2, b);
    NoneLeft(Leaves(b));
  }

  lemma {:induction false} ChainedSame(H: Heap, H': Heap, s: seq<Node>)
    requires Chained(H, s) && forall n <- s :: n in H' && H'[n].next == H[n].next
    ensures Chained(H', s)
  {}

  /** A leaf linked in after another one continues the chain. */
  lemma {:induction false} ChainedSplit(H: Heap, H': Heap, a: seq<Node>, id: Node, n: Node, b: seq<Node>)
    requires Chained(H, a + [id] + b) && id in H
    requires id in H' && n in H' && H'[id].next == Ptr.Child(n) && H'[n].next == H[id].next
    requires forall m | m in a || m in b :: m in H && m in H' && H'[m].next == H[m].next
    ensures Chained(H', a + [id, n] + b)
  {
    var s, s' := a + [id] + b, a + [id, n] + b;
    assert s[|a|] == id;
    forall i | 0 <= i < |s'| ensures s'[i] in H' && H'[s'[i]].next == After(s', i) {
      if i < |a| {
        assert s'[i] == s[i] && s'[i + 1] == s[i + 1] && a[i] in a;
      } else if i > |a| {
        var j := i - 1;
        assert i > |a| + 1 ==> s'[i] == s[j] && s[j] == b[j - |a| - 1] && b[j - |a| - 1] in b;
        assert H[s[j]].next == After(s, j);
      }
    }
  }

  /** Below `c` there may be nothing but the nodes of the heap, each once. */
  lemma {:induction false} LeafApart(H: Heap, t: Tree, c: Ctx, leaf: Tree)
    requires Under(H, t, c, leaf, 0)
    ensures leaf.id !in CtxIds(c) && Once(CtxIds(c)) && forall n <- CtxIds(c) :: n in H
    ensures leaf.id !in Leaves(Left(c)) && leaf.id !in Leaves(Right(c))
    ensures forall n | n in Leaves(Left(c)) || n in Leaves(Right(c)) :: n in H
  {
    RootIn(leaf);
    assert CtxIds(c) + Ids(leaf) + multiset{} == CtxIds(c) + Ids(leaf);
    OnceParts(CtxIds(c), Ids(leaf), multiset{});
    CtxIn(H, c, leaf.id);
    LeavesInCtx(c);
  }

  lemma {:induction false} DataInsert(vs: seq<Value>, i: nat, v: Value)
    requires i <= |vs|
    ensures InsertAt(DataPtrs(vs), i, Data(v)) == DataPtrs(InsertAt(vs, i, v))
  {}

  lemma {:induction false} UnderHeight(H: Heap, t: Tree, c: Ctx, leaf: Tree)
    requires Under(H, t, c, leaf, 0)
    ensures Height(t) == CtxHeight(c, 0)
  {
    CtxHeightPlug(c, leaf, 0);
  }

  /** insert_into_leaf: the leaf has room. */
  lemma {:induction false} LeafGrows(H: Heap, H': Heap, t: Tree, c: Ctx, leaf: Tree, i: nat, key: Key,
                                     v: Value) returns (t': Tree)
    requires Proper(H, t) && Under(H, t, c, leaf, 0) && leaf.LeafT? && leaf.id in H
    requires Narrowed(c, key) && SlotFor(leaf.keys, i, key) && i <= |leaf.keys| < SIZE - 1
    requires |H[leaf.id].keys| == |H[leaf.id].ptrs| == |leaf.keys|
    requires H' == H[leaf.id := H[leaf.id].(keys := InsertAt(H[leaf.id].keys, i, key),
                                            ptrs := InsertAt(H[leaf.id].ptrs, i, Data(v)))]
    ensures Proper(H', t') && t'.id == t.id && key !in Bindings(t) && Bindings(t') == Bindings(t)[key := v]
    ensures Height(t') == Height(t)
  {
    hide Under, Holds, HoldsCtx, Shape, CtxShape, Once, Narrowed, SlotFor, Left, Right, InsertAt, Height, CtxHeight,
         ToMap, Entries, Sorted;
    assert |leaf.vals| == |leaf.keys| by { UnderNode(H, t, c, leaf, 0); }
    var leaf' := LeafT(leaf.id, InsertAt(leaf.keys, i, key), InsertAt(leaf.vals, i, v));
    t' := Plug(c, leaf');
    GrownLeafUnder(H, H', t, c, leaf, i, key, v);
    UnderHeight(H, t, c, leaf);
    WholePlug(H', c, leaf', 0);
    GrownLeafWalk(H, t, c, leaf, t', leaf', i, key, v);
    ChainedSame(H, H', Leaves(Items(t)));
  }

  lemma {:induction false} GrownLeafWalk(H: Heap, t: Tree, c: Ctx, leaf: Tree, t': Tree, leaf': Tree, i: nat,
                                         key: Key, v: Value)
    requires Under(H, t, c, leaf, 0) && leaf.LeafT? && |leaf.vals| == |leaf.keys| && Sorted(Items(t))
    requires Narrowed(c, key) && SlotFor(leaf.keys, i, key) && t' == Plug(c, leaf')
    requires leaf' == LeafT(leaf.id, InsertAt(leaf.keys, i, key), InsertAt(leaf.vals, i, v))
    requires Items(t') == Left(c) + Items(leaf') + Right(c)
    ensures Sorted(Items(t')) && Leaves(Items(t')) == Leaves(Items(t)) && t'.id == t.id
    ensures key !in Bindings(t) && Bindings(t') == Bindings(t)[key := v]
  {
    PlugRoot(c, leaf, leaf');
    UnderNode(H, t, c, leaf, 0);
    assert Items(t) == Walk(c, leaf.id, leaf.keys, leaf.vals);
    assert Items(t') == Walk(c, leaf.id, leaf'.keys, leaf'.vals);
    InsertedWalk(c, leaf.id, leaf.keys, leaf.vals, i, key, v);
  }

  lemma {:induction false} GrownLeafUnder(H: Heap, H': Heap, t: Tree, c: Ctx, leaf: Tree, i: nat, key: Key, v: Value)
    requires Under(H, t, c, leaf, 0) && leaf.LeafT? && leaf.id in H && i <= |leaf.keys| < SIZE - 1
    requires |H[leaf.id].keys| == |H[leaf.id].ptrs| == |leaf.keys|
    requires H' == H[leaf.id := H[leaf.id].(keys := InsertAt(H[leaf.id].keys, i, key),
                                            ptrs := InsertAt(H[leaf.id].ptrs, i, Data(v)))]
    ensures |leaf.vals| == |leaf.keys|
    ensures var leaf' := LeafT(leaf.id, InsertAt(leaf.keys, i, key), InsertAt(leaf.vals, i, v));
      && HoldsCtx(H', c, leaf.id) && Holds(H', leaf') && H'[leaf.id].parent == CtxId(c)
      && Once(CtxIds(c) + Ids(leaf')) && CtxShape(c, 0) && Shape(leaf', 0, LeastKeys(c, 0))
  {
    GrownLeafCtx(H, H', t, c, leaf);
    DataInsert(leaf.vals, i, v);
  }

  lemma {:induction false} GrownLeafCtx(H: Heap, H': Heap, t: Tree, c: Ctx, leaf: Tree)
    requires Under(H, t, c, leaf, 0) && leaf.id in H && H.Keys <= H'.Keys
    requires forall n <- H | n != leaf.id :: H'[n] == H[n]
    ensures HoldsCtx(H', c, leaf.id)
  {
    hide Shape, CtxShape, Holds, Ids, Items, Left, Right, Leaves, Plug;
    LeafApart(H, t, c, leaf);
    HoldsCtxFrame(H, H', c, leaf.id);
  }

  const HALF := SIZE / 2

  /** The heap after insert_into_leaf_after_splitting has split `id` and linked in the new leaf `n`. */
  ghost predicate LeafSplitHeap(H: Heap, H': Heap, id: Node, i: nat, key: Key, v: Value, n: Node) {
    && id in H && n !in H && |H[id].keys| == |H[id].ptrs| == SIZE - 1 && i < SIZE
    && var ks := InsertAt(H[id].keys, i, key);
    var ps := InsertAt(H[id].ptrs, i, Data(v));
    H' == H[id := H[id].(keys := ks[..HALF], ptrs := ps[..HALF], next := Ptr.Child(n))]
           [n := Cell(true, ks[HALF..], ps[HALF..], H[id].next, H[id].parent)]
  }

  /** insert_into_leaf_after_splitting: the two halves are pending below the leaf's ancestors. */
  lemma {:induction false} LeafSplits(H: Heap, H': Heap, t: Tree, c: Ctx, leaf: Tree, i: nat, key: Key, v: Value,
                                      n: Node)
    returns (l: Tree, r: Tree)
    requires Proper(H, t) && Under(H, t, c, leaf, 0) && leaf.LeafT?
    requires Narrowed(c, key) && SlotFor(leaf.keys, i, key) && LeafSplitHeap(H, H', leaf.id, i, key, v, n)
    ensures l.id == leaf.id && r.id == n && Pending(H', c, l, r, 0) && Plug(c, l).id == t.id
    ensures var s := PendingItems(c, l, InsertAt(H[leaf.id].keys, i, key)[HALF], r);
            && Sorted(s) && Chained(H', Leaves(s))
            && key !in Bindings(t) && ToMap(Entries(s)) == Bindings(t)[key := v]
  {
    hide Holds, HoldsCtx, Shape, CtxShape, Narrowed, SlotFor, Left, Right;
    assert |leaf.vals| == |leaf.keys| && leaf.keys == H[leaf.id].keys by { UnderNode(H, t, c, leaf, 0); }
    var ks, vs := InsertAt(leaf.keys, i, key), InsertAt(leaf.vals, i, v);
    l, r := LeafT(leaf.id, ks[..HALF], vs[..HALF]), LeafT(n, ks[HALF..], vs[HALF..]);
    SplitLeafPending(H, H', t, c, leaf, i, key, v, n);
    PlugRoot(c, leaf, l);
    SplitLeafWalk(H, H', t, c, leaf, i, key, v, n);
  }

  lemma {:induction false} SplitLeafPending(H: Heap, H': Heap, t: Tree, c: Ctx, leaf: Tree, i: nat, key: Key,
                                            v: Value, n: Node)
    requires Under(H, t, c, leaf, 0) && leaf.LeafT? && LeafSplitHeap(H, H', leaf.id, i, key, v, n)
    requires |leaf.vals| == |leaf.keys| == SIZE - 1
    ensures var ks, vs := InsertAt(leaf.keys, i, key), InsertAt(leaf.vals, i, v);
            Pending(H', c, LeafT(leaf.id, ks[..HALF], vs[..HALF]), LeafT(n, ks[HALF..], vs[HALF..]), 0)
  {
    var ks, vs := InsertAt(leaf.keys, i, key), InsertAt(leaf.vals, i, v);
    var l, r := LeafT(leaf.id, ks[..HALF], vs[..HALF]), LeafT(n, ks[HALF..], vs[HALF..]);
    SplitLeafIds(c, leaf, l, r);
    SplitLeafOnce(H, t, c, leaf, n);
    SplitLeafHolds(H, H', t, c, leaf, i, key, v, n);
    hide InsertAt, Items, Left, Right, Leaves, Plug, HoldsCtx, Holds, Once, Ids, CtxIds;
    GrownLeafCtx(H, H', t, c, leaf);
  }

  lemma {:induction false} SplitLeafIds(c: Ctx, leaf: Tree, l: Tree, r: Tree)
    requires leaf.LeafT? && l.LeafT? && r.LeafT? && l.id == leaf.id
    ensures CtxIds(c) + Ids(l) + Ids(r) == CtxIds(c) + Ids(leaf) + multiset{r.id}
  {}

  lemma {:induction false} SplitLeafHolds(H: Heap, H': Heap, t: Tree, c: Ctx, leaf: Tree, i: nat, key: Key, v: Value,
                                          n: Node)
    requires Under(H, t, c, leaf, 0) && leaf.LeafT? && LeafSplitHeap(H, H', leaf.id, i, key, v, n)
    requires |leaf.vals| == |leaf.keys| == SIZE - 1
    ensures var ks, vs := InsertAt(leaf.keys, i, key), InsertAt(leaf.vals, i, v);
            var l, r := LeafT(leaf.id, ks[..HALF], vs[..HALF]), LeafT(n, ks[HALF..], vs[HALF..]);
            && Holds(H', l) && Holds(H', r) && H'[l.id].parent == CtxId(c) && H'[r.id].parent == CtxId(c)
            && Shape(l, 0, MinKeys(0)) && Shape(r, 0, MinKeys(0))
  {
    hide InsertAt, Items, Left, Right, Leaves, Plug, HoldsCtx, Once, Ids, CtxIds, CtxShape;
    var ks, vs := InsertAt(leaf.keys, i, key), InsertAt(leaf.vals, i, v);
    DataInsert(leaf.vals, i, v);
    assert DataPtrs(vs)[..HALF] == DataPtrs(vs[..HALF]) && DataPtrs(vs)[HALF..] == DataPtrs(vs[HALF..]);
  }

  lemma {:induction false} SplitLeafOnce(H: Heap, t: Tree, c: Ctx, leaf: Tree, n: Node)
    requires Under(H, t, c, leaf, 0) && leaf.LeafT? && leaf.id in H && n !in H
    ensures Once(CtxIds(c) + Ids(leaf) + multiset{n})
  {
    hide Once, Items, Left, Right, Leaves, Plug, HoldsCtx, Holds;
    LeafApart(H, t, c, leaf);
    OnceAdd(CtxIds(c) + Ids(leaf), n);
  }

  lemma {:induction false} SplitLeafWalk(H: Heap, H': Heap, t: Tree, c: Ctx, leaf: Tree, i: nat, key: Key, v: Value,
                                         n: Node)
    requires Proper(H, t) && Under(H, t, c, leaf, 0) && leaf.LeafT? && LeafSplitHeap(H, H', leaf.id, i, key, v, n)
    requires Narrowed(c, key) && SlotFor(leaf.keys, i, key) && |leaf.vals| == |leaf.keys| == SIZE - 1
    ensures var ks, vs := InsertAt(leaf.keys, i, key), InsertAt(leaf.vals, i, v);
            var s := PendingItems(c, LeafT(leaf.id, ks[..HALF], vs[..HALF]), ks[HALF],
                LeafT(n, ks[HALF..], vs[HALF..]));
            && Sorted(s) && Chained(H', Leaves(s))
            && key !in Bindings(t) && ToMap(Entries(s)) == Bindings(t)[key := v]
  {
    hide Holds, HoldsCtx, Shape, CtxShape, Narrowed, SlotFor, Left, Right, InsertAt, Sorted, Entries, ToMap,
         PendingItems, Chained, Leaves, Walk;
    var ks, vs := InsertAt(leaf.keys, i, key), InsertAt(leaf.vals, i, v);
    LeafWalk(H, t, c, leaf);
    InsertedWalk(c, leaf.id, leaf.keys, leaf.vals, i, key, v);
    SplitWalk(c, leaf.id, ks, vs, HALF, n);
    SplitChain(H, H', t, c, leaf, i, key, v, n);
  }

  lemma {:induction false} LeafWalk(H: Heap, t: Tree, c: Ctx, leaf: Tree)
    requires Under(H, t, c, leaf, 0) && leaf.LeafT? && |leaf.vals| == |leaf.keys|
    ensures Items(t) == Walk(c, leaf.id, leaf.keys, leaf.vals)
  {
    UnderNode(H, t, c, leaf, 0);
  }

  /** The new leaf enters the chain behind the old one. */
  lemma {:induction false} SplitChain(H: Heap, H': Heap, t: Tree, c: Ctx, leaf: Tree, i: nat, key: Key, v: Value,
                                      n: Node)
    requires Under(H, t, c, leaf, 0) && leaf.LeafT? && LeafSplitHeap(H, H', leaf.id, i, key, v, n)
    requires Chained(H, Leaves(Left(c)) + [leaf.id] + Leaves(Right(c)))
    ensures Chained(H', Leaves(Left(c)) + [leaf.id, n] + Leaves(Right(c)))
  {
    hide Holds, HoldsCtx, Shape, CtxShape, Left, Right, InsertAt, Chained, Leaves;
    LeafApart(H, t, c, leaf);
    ChainedSplit(H, H', Leaves(Left(c)), leaf.id, n, Leaves(Right(c)));
  }

  /** Once the cascade is done the whole tree is proper again. */
  lemma {:induction false} InsertedProper(H: Heap, H': Heap, t: Tree, c: Ctx, l: Tree, key: Key, r: Tree)
    requires Inserted(H, H', t, c, l, key, r, 0)
    requires var s := PendingItems(c, l, key, r); Sorted(s) && Chained(H, Leaves(s))
    ensures Proper(H', t) && Bindings(t) == ToMap(Entries(PendingItems(c, l, key, r)))
    ensures CtxHeight(c, 0) <= Height(t) <= CtxHeight(c, 0) + 1
  {
    ChainedSame(H, H', Leaves(Items(t)));
  }

  /** What the leaf find_leaf ends in tells about the whole tree. */
  lemma {:induction false} LeafFacts(H: Heap, t: Tree, c: Ctx, leaf: Tree, key: Key)
    requires Proper(H, t) && Under(H, t, c, leaf, 0) && leaf.LeafT? && Narrowed(c, key)
    ensures leaf.id in H && H[leaf.id].isLeaf && H[leaf.id].keys == leaf.keys && H[leaf.id].ptrs == DataPtrs(leaf.vals)
    ensures 0 < |leaf.keys| == |leaf.vals| && Sorted(Walk(c, leaf.id, leaf.keys, leaf.vals))
    ensures Bindings(t) == ToMap(Entries(Walk(c, leaf.id, leaf.keys, leaf.vals)))
    ensures key in Bindings(t) <==> key in leaf.keys
    ensures forall i | 0 <= i < |leaf.keys| && leaf.keys[i] == key :: Bindings(t)[key] == leaf.vals[i]
  {
    hide Left, Right, Narrowed;
    UnderNode(H, t, c, leaf, 0);
    LeafDecides(c, leaf.id, leaf.keys, leaf.vals, key);
  }
}
