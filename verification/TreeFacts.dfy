/** What a proper tree guarantees to its users, and what find_leaf does as it is written. */
module TreeFacts {
  import opened Unsigned
  import opened Keys
  import opened BPlusNode
  import opened SeqFacts
  import opened TreeModel
  import opened InOrder
  import opened Search

  /* ---------- parent links ---------- */

  /** Whatever an inner node of the tree points to is in the tree and has that node as its parent. */
  lemma {:induction false} ChildKnowsParent(H: Heap, t: Tree, p: Node, n: Node)
    requires Holds(H, t) && p in Ids(t) && p in H && !H[p].isLeaf && Child(n) in H[p].ptrs && Once(Ids(t))
    ensures n in Ids(t) && n in H && H[n].parent == p
    decreases t
  {
    if t.InnerT? {
      if p == t.id {
        var i :| 0 <= i < |t.kids| && t.kids[i].id == n;
        IdsOfAt(t.kids, i);
        assert t.kids[i] in t.kids;
      } else {
        var i := KidWith(t.kids, p);
        IdsOfAt(t.kids, i);
        OnceSub(Ids(t.kids[i]), Ids(t));
        assert t.kids[i] in t.kids;
        ChildKnowsParent(H, t.kids[i], p, n);
      }
    }
  }

  lemma {:induction false} KidWith(kids: seq<Tree>, n: Node) returns (i: nat)
    requires n in IdsOf(kids)
    ensures i < |kids| && n in Ids(kids[i])
    decreases kids
  {
    if n in Ids(kids[0]) {
      i := 0;
    } else {
      i := KidWith(kids[1..], n);
      i := i + 1;
    }
  }

  /** Every node but the root has a parent in the tree, and that parent points to it. */
  lemma {:induction false} ParentPointsToChild(H: Heap, t: Tree, n: Node)
    requires Holds(H, t) && n in Ids(t) && n != t.id
    ensures n in H && H[n].parent != null && H[n].parent in Ids(t)
    ensures var p := H[n].parent; p in H && !H[p].isLeaf && Child(n) in H[p].ptrs
    decreases t
  {
    var i := KidWith(t.kids, n);
    var k := t.kids[i];
    assert k in t.kids;
    IdsOfAt(t.kids, i);
    if n == k.id {
      assert H[t.id].ptrs[i] == Child(n);
    } else {
      ParentPointsToChild(H, k, n);
    }
  }

  /* ---------- balance ---------- */

  lemma {:induction false} Times(a: nat, b: nat, x: nat)
    requires a <= b
    ensures a * x <= b * x
  {}

  /** A subtree of height `h` holds at least MinKeys(0) * (minimum fan-out)^h bindings. */
  lemma {:induction false} SubtreeSize(t: Tree, h: nat)
    requires Shape(t, h, MinKeys(h))
    ensures SIZE / 2 * Power((SIZE - 1) / 2 + 1, h) <= |Entries(Items(t))| <= (SIZE - 1) * Power(SIZE, h)
    decreases t
  {
    if t.LeafT? {
      LeafSize(t);
    } else {
      var lo, hi := SIZE / 2 * Power((SIZE - 1) / 2 + 1, h - 1), (SIZE - 1) * Power(SIZE, h - 1);
      RowSize(t.keys, t.kids, h - 1, lo, hi);
      Times((SIZE - 1) / 2 + 1, |t.kids|, lo);
      Times(|t.kids|, SIZE, hi);
    }
  }

  lemma {:induction false} LeafSize(t: Tree)
    requires t.LeafT? && |t.vals| == |t.keys|
    ensures |Entries(Items(t))| == |t.keys|
  {
    EntsSize(Ents(t.keys, t.vals));
    EntriesConcat([Mark(t.id)], Ents(t.keys, t.vals));
    assert Entries([Mark(t.id)]) == Entries([Mark(t.id)][1..]);
  }

  lemma {:induction false} EntsSize(s: seq<Item>)
    requires forall i | 0 <= i < |s| :: s[i].Ent?
    ensures |Entries(s)| == |s|
  {
    if s != [] {
      EntsSize(s[1..]);
    }
  }

  lemma {:induction false} RowSize(keys: seq<Key>, kids: seq<Tree>, h: nat, lo: nat, hi: nat)
    requires |kids| == |keys| + 1 && forall k <- kids :: Shape(k, h, MinKeys(h))
    requires lo == SIZE / 2 * Power((SIZE - 1) / 2 + 1, h) && hi == (SIZE - 1) * Power(SIZE, h)
    ensures |kids| * lo <= |Entries(Row(keys, kids))| <= |kids| * hi
    decreases kids, 0
  {
    assert kids[0] in kids;
    SubtreeSize(kids[0], h);
    if keys != [] {
      RowSize(keys[1..], kids[1..], h, lo, hi);
      EntriesConcat(Items(kids[0]) + [Sep(keys[0])], Row(keys[1..], kids[1..]));
      EntriesConcat(Items(kids[0]), [Sep(keys[0])]);
      assert Entries([Sep(keys[0])]) == Entries([Sep(keys[0])][1..]);
      assert |kids| * lo == lo + (|kids| - 1) * lo && |kids| * hi == hi + (|kids| - 1) * hi;
    }
  }

  /** The whole tree: its height is logarithmic in the number of its bindings. */
  lemma {:induction false} TreeSize(H: Heap, t: Tree)
    requires Proper(H, t)
    ensures var h := Height(t); var n := |Entries(Items(t))|;
      && n >= 1 && n <= (SIZE - 1) * Power(SIZE, h)
      && (h > 0 ==> n >= 2 * (SIZE / 2 * Power((SIZE - 1) / 2 + 1, h - 1)))
  {
    var h := Height(t);
    if t.LeafT? {
      LeafSize(t);
    } else {
      var lo, hi := SIZE / 2 * Power((SIZE - 1) / 2 + 1, h - 1), (SIZE - 1) * Power(SIZE, h - 1);
      RowSize(t.keys, t.kids, h - 1, lo, hi);
      Times(2, |t.kids|, lo);
      Times(|t.kids|, SIZE, hi);
    }
  }

  /* ---------- the leaf chain ---------- */

  // The bindings met when reading the cells of `leaves` one after the other.
  ghost function Scan(H: Heap, leaves: seq<Node>): seq<(Key, Value)>
    requires forall n <- leaves :: n in H
  {
    if leaves == [] then [] else CellEntries(H[leaves[0]]) + Scan(H, leaves[1..])
  }

  ghost function CellEntries(c: Cell): seq<(Key, Value)> {
    if |c.keys| == |c.ptrs| then
      seq(|c.keys|, i requires 0 <= i < |c.keys| => (c.keys[i], if c.ptrs[i].Data? then c.ptrs[i].value else 0))
    else []
  }

  lemma {:induction false} ScanConcat(H: Heap, a: seq<Node>, b: seq<Node>)
    requires forall n | n in a || n in b :: n in H
    ensures Scan(H, a + b) == Scan(H, a) + Scan(H, b)
  {
    if a == [] {
      NoneLeft(b);
      NoneLeft(Scan(H, b));
    } else {
      TailOfConcat(a, b);
      ScanConcat(H, a[1..], b);
      Assoc(CellEntries(H[a[0]]), Scan(H, a[1..]), Scan(H, b));
    }
  }

  lemma {:induction false} ScanTree(H: Heap, t: Tree, h: nat, lo: nat)
    requires Holds(H, t) && Shape(t, h, lo)
    ensures (forall n <- Leaves(Items(t)) :: n in H) && Scan(H, Leaves(Items(t))) == Entries(Items(t))
    decreases t
  {
    LeavesInTree(t);
    TreeIn(H, t);
    if t.LeafT? {
      var e := Ents(t.keys, t.vals);
      LeafEntries(e);
      LeavesConcat([Mark(t.id)], e);
      NoLeaves(e);
      EntriesConcat([Mark(t.id)], e);
      assert [Mark(t.id)][1..] == [];
      assert Leaves(Items(t)) == [t.id] && [t.id][1..] == [];
    } else {
      ScanRow(H, t.keys, t.kids, h - 1);
    }
  }

  lemma {:induction false} LeafEntries(s: seq<Item>)
    requires forall i | 0 <= i < |s| :: s[i].Ent?
    ensures Entries(s) == seq(|s|, i requires 0 <= i < |s| => (s[i].key, s[i].value))
  {
    if s != [] {
      LeafEntries(s[1..]);
    }
  }

  lemma {:induction false} ScanRow(H: Heap, keys: seq<Key>, kids: seq<Tree>, h: nat)
    requires |kids| == |keys| + 1 && forall k <- kids :: Holds(H, k) && Shape(k, h, MinKeys(h))
    ensures (forall n <- Leaves(Row(keys, kids)) :: n in H)
    ensures Scan(H, Leaves(Row(keys, kids))) == Entries(Row(keys, kids))
    decreases kids, 0
  {
    assert kids[0] in kids;
    ScanTree(H, kids[0], h, MinKeys(h));
    if keys != [] {
      var first, sep, rest := Items(kids[0]), [Sep(keys[0])], Row(keys[1..], kids[1..]);
      ScanRow(H, keys[1..], kids[1..], h);
      LeavesConcat(first + sep, rest);
      LeavesConcat(first, sep);
      EntriesConcat(first + sep, rest);
      EntriesConcat(first, sep);
      NoLeaves(sep);
      assert Entries(sep) == Entries(sep[1..]);
      NoneLeft(Leaves(first));
      NoneLeft(Entries(first));
      ScanConcat(H, Leaves(first), Leaves(rest));
    }
  }

  /** Reading the leaves along their links meets every binding of the tree, keys strictly increasing. */
  lemma {:induction false} ChainVisitsAll(H: Heap, t: Tree)
    requires Proper(H, t)
    ensures var ls := Leaves(Items(t));
      && Chained(H, ls) && (forall n <- ls :: n in H && H[n].isLeaf)
      && Scan(H, ls) == Entries(Items(t)) && ToMap(Scan(H, ls)) == Bindings(t)
    ensures var es := Entries(Items(t)); forall i, j | 0 <= i < j < |es| :: Lt(es[i].0, es[j].0)
  {
    ScanTree(H, t, Height(t), 1);
    EntriesSorted(Items(t));
    LeavesAreLeaves(H, t);
  }

  lemma {:induction false} LeavesAreLeaves(H: Heap, t: Tree)
    requires Holds(H, t)
    ensures forall n <- Leaves(Items(t)) :: n in H && H[n].isLeaf
    decreases t
  {
    match t
    case LeafT(id, keys, vals) =>
      LeavesConcat([Mark(id)], Items(t)[1..]);
      assert Items(t) == [Mark(id)] + Items(t)[1..];
      NoLeaves(Items(t)[1..]);
    case InnerT(_, keys, kids) =>
      RowLeaves(H, keys, kids);
  }

  lemma {:induction false} RowLeaves(H: Heap, keys: seq<Key>, kids: seq<Tree>)
    requires forall k <- kids :: Holds(H, k)
    ensures forall n <- Leaves(Row(keys, kids)) :: n in H && H[n].isLeaf
    decreases kids, 0
  {
    if kids != [] {
      LeavesAreLeaves(H, kids[0]);
      if keys != [] && |kids| > 1 {
        RowLeaves(H, keys[1..], kids[1..]);
        LeavesConcat(Items(kids[0]) + [Sep(keys[0])], Row(keys[1..], kids[1..]));
        LeavesConcat(Items(kids[0]), [Sep(keys[0])]);
      }
    }
  }

  /* ---------- find_leaf as it is written ---------- */

  // The child slot an inner node's scan stops at.
  ghost function SlotOf(keys: seq<Key>, key: Key): nat {
    if keys == [] || !Le(keys[0], key) then 0 else 1 + SlotOf(keys[1..], key)
  }

  lemma {:induction false} SlotOfBound(keys: seq<Key>, key: Key)
    ensures SlotOf(keys, key) <= |keys|
  {
    if keys != [] && Le(keys[0], key) {
      SlotOfBound(keys[1..], key);
    }
  }

  /** One round of the loop of find_leaf: it only moves on when the child had to be loaded. */
  ghost function LoopRound(H: Heap, nd: Node, key: Key, load: Node -> Node): Node {
    if nd !in H || H[nd].isLeaf then nd
    else
      var i := SlotOf(H[nd].keys, key);
      if i < |H[nd].ptrs| && H[nd].ptrs[i] == Null then load(nd) else nd
  }

  ghost function LoopRounds(H: Heap, nd: Node, key: Key, load: Node -> Node, rounds: nat): Node {
    if rounds == 0 then nd else LoopRounds(H, LoopRound(H, nd, key, load), key, load, rounds - 1)
  }

  /** With every child in memory the loop reaches a leaf, after any number of rounds, only if it began at one. */
  lemma {:induction false} LoopStaysAtRoot(H: Heap, t: Tree, key: Key, load: Node -> Node, rounds: nat)
    requires Holds(H, t) && Shape(t, Height(t), 1)
    ensures LoopRounds(H, t.id, key, load, rounds) == t.id
    ensures H[LoopRounds(H, t.id, key, load, rounds)].isLeaf <==> Height(t) == 0
  {
    if t.InnerT? {
      SlotOfBound(t.keys, key);
    }
    if rounds > 0 {
      LoopStaysAtRoot(H, t, key, load, rounds - 1);
    }
  }

  /** With as many bindings as a node has pointers the tree has an inner root, and the loop as written finds no leaf. */
  lemma {:induction false} LoopMissesLeaves(H: Heap, t: Tree, key: Key, load: Node -> Node, rounds: nat)
    requires Proper(H, t) && |Entries(Items(t))| >= SIZE
    ensures LoopRounds(H, t.id, key, load, rounds) == t.id && !H[t.id].isLeaf
  {
    if t.LeafT? {
      LeafSize(t);
    }
    LoopStaysAtRoot(H, t, key, load, rounds);
  }

  /** What inserting a, b, c, d and e leaves: two leaves under a root. */
  ghost function Sample(root: Node, left: Node, right: Node): Tree {
    InnerT(root, ["c"], [LeafT(left, ["a", "b"], [1, 2]), LeafT(right, ["c", "d", "e"], [3, 4, 5])])
  }

  ghost function SampleHeap(root: Node, left: Node, right: Node): Heap {
    map[root := Cell(false, ["c"], [Child(left), Child(right)], Null, null),
        left := Cell(true, ["a", "b"], [Data(1), Data(2)], Child(right), root),
        right := Cell(true, ["c", "d", "e"], [Data(3), Data(4), Data(5)], Null, root)]
  }

  lemma {:induction false} SampleHolds(root: Node, left: Node, right: Node)
    requires root != left && root != right && left != right
    ensures Holds(SampleHeap(root, left, right), Sample(root, left, right))
    ensures Height(Sample(root, left, right)) == 1 && Shape(Sample(root, left, right), 1, 1)
  {
    var H := SampleHeap(root, left, right);
    var a, b := LeafT(left, ["a", "b"], [1, 2]), LeafT(right, ["c", "d", "e"], [3, 4, 5]);
    assert DataPtrs([1, 2]) == [Data(1), Data(2)] && DataPtrs([3, 4, 5]) == [Data(3), Data(4), Data(5)];
    assert Holds(H, a) && Holds(H, b);
    assert ChildPtrs([a, b]) == [Child(left), Child(right)];
    forall k <- [a, b] ensures Holds(H, k) && H[k.id].parent == root && Shape(k, 0, MinKeys(0)) {
      assert k == a || k == b;
    }
  }

  lemma {:induction false} SampleIds(root: Node, left: Node, right: Node)
    requires root != left && root != right && left != right
    ensures Once(Ids(Sample(root, left, right)))
  {
    var a, b := LeafT(left, ["a", "b"], [1, 2]), LeafT(right, ["c", "d", "e"], [3, 4, 5]);
    assert [a, b][1..] == [b] && [b][1..] == [];
    assert IdsOf([b]) == Ids(b) + IdsOf([]) && IdsOf([a, b]) == Ids(a) + IdsOf([b]);
    assert Ids(Sample(root, left, right)) == multiset{root} + (multiset{left} + multiset{right});
  }

  lemma {:induction false} SampleItems(root: Node, left: Node, right: Node)
    ensures Items(Sample(root, left, right))
         == [Mark(left), Ent("a", 1), Ent("b", 2), Sep("c"), Mark(right), Ent("c", 3), Ent("d", 4), Ent("e", 5)]
  {
    var a, b := LeafT(left, ["a", "b"], [1, 2]), LeafT(right, ["c", "d", "e"], [3, 4, 5]);
    assert [a, b][1..] == [b] && ["c"][1..] == [];
    assert Items(a) == [Mark(left), Ent("a", 1), Ent("b", 2)];
    assert Items(b) == [Mark(right), Ent("c", 3), Ent("d", 4), Ent("e", 5)];
    assert Row(["c"], [a, b]) == Items(a) + [Sep("c")] + Row([], [b]);
    assert Row([], [b]) == Items(b);
  }

  lemma {:induction false} OneChar(a: char, b: char)
    ensures StrCmp([a], [b]) == a as int - b as int
  {
    assert a == b ==> StrCmp([a][1..], [b][1..]) == 0;
  }

  lemma {:induction false} SampleSorted(left: Node, right: Node)
    ensures Sorted([Mark(left), Ent("a", 1), Ent("b", 2), Sep("c"), Mark(right), Ent("c", 3), Ent("d", 4), Ent("e", 5)])
  {
    hide StrCmp;
    forall x: char, y: char ensures StrCmp([x], [y]) == x as int - y as int { OneChar(x, y); }
  }

  lemma {:induction false} SampleLeaves(left: Node, right: Node)
    ensures Leaves([Mark(left), Ent("a", 1), Ent("b", 2), Sep("c"), Mark(right), Ent("c", 3), Ent("d", 4), Ent("e", 5)])
         == [left, right]
  {
    var lower, upper := [Ent("a", 1), Ent("b", 2), Sep("c")], [Ent("c", 3), Ent("d", 4), Ent("e", 5)];
    NoLeaves(lower);
    NoLeaves(upper);
    LeavesConcat([Mark(left)] + lower, [Mark(right)] + upper);
    LeavesConcat([Mark(left)], lower);
    LeavesConcat([Mark(right)], upper);
    assert [Mark(left)][1..] == [] && [Mark(right)][1..] == [];
    assert [Mark(left), Ent("a", 1), Ent("b", 2), Sep("c"), Mark(right), Ent("c", 3), Ent("d", 4), Ent("e", 5)]
        == ([Mark(left)] + lower) + ([Mark(right)] + upper);
  }

  lemma {:induction false} SampleProper(root: Node, left: Node, right: Node)
    requires root != left && root != right && left != right
    ensures Proper(SampleHeap(root, left, right), Sample(root, left, right))
  {
    hide Holds, Shape, Ids, Once, Items, Leaves, Sorted, Height;
    SampleHolds(root, left, right);
    SampleIds(root, left, right);
    SampleItems(root, left, right);
    SampleSorted(left, right);
    SampleLeaves(left, right);
  }

  /** A proper tree of five bindings whose two leaves the loop never reaches. */
  lemma {:induction false} SampleMissed(root: Node, left: Node, right: Node, key: Key, load: Node -> Node, rounds: nat)
    requires root != left && root != right && left != right
    ensures Proper(SampleHeap(root, left, right), Sample(root, left, right))
    ensures LoopRounds(SampleHeap(root, left, right), root, key, load, rounds) == root
    ensures !SampleHeap(root, left, right)[root].isLeaf
  {
    hide Holds, Shape, Proper;
    SampleProper(root, left, right);
    SampleHolds(root, left, right);
    LoopStaysAtRoot(SampleHeap(root, left, right), Sample(root, left, right), key, load, rounds);
  }
}
