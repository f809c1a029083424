/** The tree a heap of nodes stands for, and the path from a node up to the root. */
module TreeModel {
  import opened Keys
  import opened BPlusNode
  import opened SeqFacts

  datatype Tree =
    | LeafT(id: Node, keys: seq<Key>, vals: seq<Value>)
    | InnerT(id: Node, keys: seq<Key>, kids: seq<Tree>)

  // A tree with a hole: the ancestors of a node, innermost first, with the siblings at each level.
  datatype Ctx =
    | Top
    | Frame(up: Ctx, id: Node, lk: seq<Key>, lefts: seq<Tree>, rk: seq<Key>, rights: seq<Tree>)

  datatype Option<+T> = None | Some(value: T)

  // One step of the in-order walk: a leaf begins, a separator, or a binding.
  datatype Item = Mark(leaf: Node) | Sep(key: Key) | Ent(key: Key, value: Value)

  /* ---------- in-order items ---------- */

  ghost function Ents(keys: seq<Key>, vals: seq<Value>): (s: seq<Item>)
    requires |keys| == |vals|
    ensures |s| == |keys| && forall i | 0 <= i < |s| :: s[i] == Ent(keys[i], vals[i])
  {
    seq(|keys|, i requires 0 <= i < |keys| => Ent(keys[i], vals[i]))
  }

  ghost function LeafItems(id: Node, keys: seq<Key>, vals: seq<Value>): seq<Item> {
    [Mark(id)] + if |keys| == |vals| then Ents(keys, vals) else []
  }

  ghost function Items(t: Tree): seq<Item>
    decreases t
  {
    match t
    case LeafT(id, keys, vals) => LeafItems(id, keys, vals)
    case InnerT(_, keys, kids) => Row(keys, kids)
  }

  ghost function Row(keys: seq<Key>, kids: seq<Tree>): seq<Item>
    decreases kids, 0
  {
    if kids == [] then []
    else if keys == [] || |kids| == 1 then Items(kids[0])
    else Items(kids[0]) + [Sep(keys[0])] + Row(keys[1..], kids[1..])
  }

  ghost function LeftRow(keys: seq<Key>, kids: seq<Tree>): seq<Item> {
    if keys == [] then [] else Row(keys[..|keys| - 1], kids) + [Sep(keys[|keys| - 1])]
  }

  ghost function RightRow(keys: seq<Key>, kids: seq<Tree>): seq<Item> {
    if keys == [] then [] else [Sep(keys[0])] + Row(keys[1..], kids)
  }

  ghost function Left(c: Ctx): seq<Item> {
    if c.Top? then [] else Left(c.up) + LeftRow(c.lk, c.lefts)
  }

  ghost function Right(c: Ctx): seq<Item> {
    if c.Top? then [] else RightRow(c.rk, c.rights) + Right(c.up)
  }

  ghost function Filled(c: Ctx, t: Tree): Tree
    requires c.Frame?
  {
    InnerT(c.id, c.lk + c.rk, c.lefts + [t] + c.rights)
  }

  ghost function Plug(c: Ctx, t: Tree): Tree {
    if c.Top? then t else Plug(c.up, Filled(c, t))
  }

  lemma {:induction false} RowSplit(k1: seq<Key>, a: seq<Tree>, k: Key, k2: seq<Key>, b: seq<Tree>)
    requires |a| == |k1| + 1 && |b| == |k2| + 1
    ensures Row(k1 + [k] + k2, a + b) == Row(k1, a) + [Sep(k)] + Row(k2, b)
    decreases a
  {
    TailOfConcat(a, b);
    if k1 == [] {
      assert a[1..] == [] && k1 + [k] + k2 == [k] + k2;
      NoneLeft(b);
      HeadTail(k, k2);
    } else {
      RowSplit(k1[1..], a[1..], k, k2, b);
      Assoc(k1, [k], k2);
      Assoc(k1[1..], [k], k2);
      TailOfConcat(k1, [k] + k2);
      Assoc4(Items(a[0]) + [Sep(k1[0])], Row(k1[1..], a[1..]), [Sep(k)], Row(k2, b));
    }
  }

  lemma {:induction false} RowAround(lk: seq<Key>, lefts: seq<Tree>, t: Tree, rk: seq<Key>, rights: seq<Tree>)
    requires |lk| == |lefts| && |rk| == |rights|
    ensures Row(lk + rk, lefts + [t] + rights) == LeftRow(lk, lefts) + Items(t) + RightRow(rk, rights)
  {
    RowFrom(t, rk, rights);
    Assoc(lefts, [t], rights);
    if lk == [] {
      assert lefts == [];
      NoneLeft(rk);
      NoneLeft([t] + rights);
      NoneLeft(Items(t));
    } else {
      var n := |lk| - 1;
      FrontLast(lk);
      RowSplit(lk[..n], lefts, lk[n], rk, [t] + rights);
      Assoc(Row(lk[..n], lefts) + [Sep(lk[n])], Items(t), RightRow(rk, rights));
    }
  }

  lemma {:induction false} RowFrom(t: Tree, rk: seq<Key>, rights: seq<Tree>)
    requires |rk| == |rights|
    ensures Row(rk, [t] + rights) == Items(t) + RightRow(rk, rights)
  {
    HeadTail(t, rights);
    if rk == [] {
      NoneLeft(Items(t));
    } else {
      Assoc(Items(t), [Sep(rk[0])], Row(rk[1..], rights));
    }
  }

  lemma {:induction false} ItemsPlug(c: Ctx, t: Tree)
    requires Framed(c)
    ensures Items(Plug(c, t)) == Left(c) + Items(t) + Right(c)
    decreases c
  {
    if c.Frame? {
      var l, m, r := LeftRow(c.lk, c.lefts), Items(t), RightRow(c.rk, c.rights);
      RowAround(c.lk, c.lefts, t, c.rk, c.rights);
      ItemsPlug(c.up, Filled(c, t));
      Nest(Left(c.up), l, m, r, Right(c.up));
    }
  }

  /** What hangs below an ancestor does not decide which node is the root. */
  lemma {:induction false} PlugRoot(c: Ctx, t: Tree, u: Tree)
    requires t.id == u.id
    ensures Plug(c, t).id == Plug(c, u).id
    decreases c
  {
    if c.Frame? {
      PlugRoot(c.up, Filled(c, t), Filled(c, u));
    }
  }

  /** Below an ancestor, the root is an ancestor. */
  lemma {:induction false} PlugRootIn(c: Ctx, t: Tree)
    requires c.Frame?
    ensures Plug(c, t).id in CtxIds(c)
    decreases c
  {
    if c.up.Frame? {
      PlugRootIn(c.up, Filled(c, t));
    }
  }

  ghost predicate Framed(c: Ctx) {
    c.Frame? ==> |c.lk| == |c.lefts| && |c.rk| == |c.rights| && Framed(c.up)
  }

  /* ---------- the nodes of a tree ---------- */

  ghost function Ids(t: Tree): multiset<Node>
    decreases t
  {
    match t
    case LeafT(id, _, _) => multiset{id}
    case InnerT(id, _, kids) => multiset{id} + IdsOf(kids)
  }

  ghost function IdsOf(kids: seq<Tree>): multiset<Node>
    decreases kids, 0
  {
    if kids == [] then multiset{} else Ids(kids[0]) + IdsOf(kids[1..])
  }

  ghost function CtxIds(c: Ctx): multiset<Node> {
    if c.Top? then multiset{} else multiset{c.id} + IdsOf(c.lefts) + IdsOf(c.rights) + CtxIds(c.up)
  }

  ghost predicate Once(m: multiset<Node>) {
    forall n <- m :: m[n] <= 1
  }

  lemma {:induction false} IdsOfConcat(a: seq<Tree>, b: seq<Tree>)
    ensures IdsOf(a + b) == IdsOf(a) + IdsOf(b)
    decreases a
  {
    if a == [] {
      assert a + b == b;
    } else {
      calc {
        IdsOf(a + b);
        { TailOfConcat(a, b); }
        Ids(a[0]) + IdsOf(a[1..] + b);
        { IdsOfConcat(a[1..], b); }
        Ids(a[0]) + (IdsOf(a[1..]) + IdsOf(b));
        IdsOf(a) + IdsOf(b);
      }
    }
  }

  lemma {:induction false} IdsOfAt(kids: seq<Tree>, i: nat)
    requires i < |kids|
    ensures Ids(kids[i]) <= IdsOf(kids) && kids[i].id in IdsOf(kids)
    decreases kids
  {
    if i > 0 {
      IdsOfAt(kids[1..], i - 1);
    } 
  }

  lemma {:induction false} IdsAround(lefts: seq<Tree>, t: Tree, rights: seq<Tree>)
    ensures IdsOf(lefts + [t] + rights) == IdsOf(lefts) + Ids(t) + IdsOf(rights)
  {
    IdsOfConcat(lefts + [t], rights);
    IdsOfConcat(lefts, [t]);
  }

  lemma {:induction false} IdsPlug(c: Ctx, t: Tree)
    ensures Ids(Plug(c, t)) == CtxIds(c) + Ids(t)
    decreases c
  {
    if c.Frame? {
      IdsAround(c.lefts, t, c.rights);
      IdsPlug(c.up, Filled(c, t));
    }
  }

  /* ---------- height and occupancy ---------- */

  // size / 2 for leaves, (size - 1) / 2 for inner nodes.
  function MinKeys(h: nat): nat {
    if h == 0 then SIZE / 2 else (SIZE - 1) / 2
  }

  /** Every leaf is `h` levels down; the top node has at least `lo` keys, the others their minimum. */
  ghost predicate Shape(t: Tree, h: nat, lo: nat)
    decreases t
  {
    match t
    case LeafT(_, keys, vals) => h == 0 && lo <= |keys| < SIZE && |vals| == |keys|
    case InnerT(_, keys, kids) =>
      && h > 0 && lo <= |keys| < SIZE && |kids| == |keys| + 1
      && forall k <- kids :: Shape(k, h - 1, MinKeys(h - 1))
  }

  ghost predicate AllShape(kids: seq<Tree>, h: nat) {
    forall k <- kids :: Shape(k, h, MinKeys(h))
  }

  lemma {:induction false} InnerShape(id: Node, ks: seq<Key>, kids: seq<Tree>, h: nat, lo: nat)
    requires AllShape(kids, h) && |kids| == |ks| + 1 && lo <= |ks| < SIZE
    ensures Shape(InnerT(id, ks, kids), h + 1, lo)
  {}

  // The least number of keys of a node at height `h` whose ancestors are `c`: a root may have just one.
  function LeastKeys(c: Ctx, h: nat): nat {
    if c.Top? then 1 else MinKeys(h)
  }

  /** The hole of `c` is at height `h`. */
  ghost predicate CtxShape(c: Ctx, h: nat) {
    c.Frame? ==>
      && |c.lk| == |c.lefts| && |c.rk| == |c.rights|
      && AllShape(c.lefts, h) && AllShape(c.rights, h)
      && LeastKeys(c.up, h + 1) <= |c.lk| + |c.rk| < SIZE
      && CtxShape(c.up, h + 1)
  }

  ghost function CtxHeight(c: Ctx, h: nat): nat {
    if c.Top? then h else CtxHeight(c.up, h + 1)
  }

  lemma {:induction false} ShapePlug(c: Ctx, t: Tree, h: nat)
    requires CtxShape(c, h) && Shape(t, h, LeastKeys(c, h))
    ensures Shape(Plug(c, t), CtxHeight(c, h), 1)
    decreases c
  {
    if c.Frame? {
      ShapePlug(c.up, Filled(c, t), h + 1);
    }
  }

  lemma {:induction false} CtxShapeFramed(c: Ctx, h: nat)
    requires CtxShape(c, h)
    ensures Framed(c)
    decreases c
  {
    if c.Frame? {
      CtxShapeFramed(c.up, h + 1);
    }
  }

  /* ---------- the heap stands for a tree ---------- */

  ghost function DataPtrs(vals: seq<Value>): (s: seq<Ptr>)
    ensures |s| == |vals| && forall i | 0 <= i < |s| :: s[i] == Data(vals[i])
  {
    seq(|vals|, i requires 0 <= i < |vals| => Data(vals[i]))
  }

  ghost function ChildPtrs(kids: seq<Tree>): (s: seq<Ptr>)
    ensures |s| == |kids| && forall i | 0 <= i < |s| :: s[i] == Child(kids[i].id)
  {
    seq(|kids|, i requires 0 <= i < |kids| => Child(kids[i].id))
  }

  /** The nodes of `t` hold what `t` says, and each child's `parent` is the node that points to it. */
  ghost predicate Holds(H: Heap, t: Tree)
    decreases t
  {
    && t.id in H
    && var c := H[t.id];
    && c.keys == t.keys
    && match t
       case LeafT(_, _, vals) => c.isLeaf && c.ptrs == DataPtrs(vals)
       case InnerT(id, _, kids) => 
         && !c.isLeaf && c.ptrs == ChildPtrs(kids)
         && forall k <- kids :: Holds(H, k) && H[k.id].parent == id
  }

  ghost predicate HoldsAll(H: Heap, kids: seq<Tree>, parent: Node) {
    forall k <- kids :: Holds(H, k) && H[k.id].parent == parent
  }

  ghost function CtxId(c: Ctx): Node? {
    if c.Top? then null else c.id
  }

  /** The ancestors in `c` hold what `c` says around the node `hole`. */
  ghost predicate HoldsCtx(H: Heap, c: Ctx, hole: Node) {
    c.Frame? ==>
      && c.id in H
      && var x := H[c.id];
      && !x.isLeaf && x.keys == c.lk + c.rk
      && x.ptrs == ChildPtrs(c.lefts) + [Child(hole)] + ChildPtrs(c.rights)
      && x.parent == CtxId(c.up)
      && HoldsAll(H, c.lefts, c.id) && HoldsAll(H, c.rights, c.id)
      && HoldsCtx(H, c.up, c.id)
  }

  ghost predicate SameBody(a: Cell, b: Cell) {
    a.isLeaf == b.isLeaf && a.keys == b.keys && a.ptrs == b.ptrs
  }

  /** Only nodes of the heap are part of what it holds. */
  lemma {:induction false} TreeIn(H: Heap, t: Tree)
    requires Holds(H, t)
    ensures forall n <- Ids(t) :: n in H
    decreases t
  {
    if t.InnerT? {
      KidsIn(H, t.kids);
    }
  }

  lemma {:induction false} KidsIn(H: Heap, kids: seq<Tree>)
    requires forall k <- kids :: Holds(H, k)
    ensures forall n <- IdsOf(kids) :: n in H
    decreases kids, 0
  {
    if kids != [] {
      TreeIn(H, kids[0]);
      KidsIn(H, kids[1..]);
    }
  }

  lemma {:induction false} CtxIn(H: Heap, c: Ctx, hole: Node)
    requires HoldsCtx(H, c, hole)
    ensures forall n <- CtxIds(c) :: n in H
    decreases c
  {
    if c.Frame? {
      KidsIn(H, c.lefts);
      KidsIn(H, c.rights);
      CtxIn(H, c.up, c.id);
    }
  }

  /** Changing a tree's root parent, leaf links, or any node outside the tree leaves it in place. */
  lemma {:induction false} HoldsFrame(H: Heap, H': Heap, t: Tree)
    requires Holds(H, t) && Once(Ids(t))
    requires forall n <- Ids(t) :: n in H && n in H' && SameBody(H[n], H'[n])
    requires forall n <- Ids(t) :: n != t.id ==> H[n].parent == H'[n].parent
    ensures Holds(H', t)
    decreases t
  {
    if t.InnerT? {
      forall i | 0 <= i < |t.kids|
        ensures Holds(H', t.kids[i]) && H'[t.kids[i].id].parent == t.id
      {
        IdsOfAt(t.kids, i);
        OnceSub(Ids(t.kids[i]), Ids(t));
        assert t.kids[i].id != t.id;
        HoldsFrame(H, H', t.kids[i]);
      }
    }
  }

  lemma {:induction false} OnceSub(a: multiset<Node>, b: multiset<Node>)
    requires a <= b && Once(b)
    ensures Once(a)
  {
    forall n <- a ensures a[n] <= 1 {
      assert n in b;
    }
  }

  lemma {:induction false} OnceParts(a: multiset<Node>, b: multiset<Node>, c: multiset<Node>)
    requires Once(a + b + c)
    ensures Once(a) && Once(b) && Once(c)
    ensures forall n <- a :: n !in b && n !in c
    ensures forall n <- b :: n !in c
  {
    var all := a + b + c;
    forall n | n in a || n in b || n in c ensures a[n] + b[n] + c[n] <= 1 {
      assert n in all;
    }
  }

  lemma {:induction false} OnceAdd(m: multiset<Node>, n: Node)
    requires Once(m) && n !in m
    ensures Once(m + multiset{n})
  {
    forall x <- m + multiset{n} ensures (m + multiset{n})[x] <= 1 {
      assert x in m || x == n;
    }
  }

  lemma {:induction false} RootIn(t: Tree)
    ensures t.id in Ids(t)
  {}

  lemma {:induction false} HoldsAllFrame(H: Heap, H': Heap, kids: seq<Tree>, p: Node)
    requires HoldsAll(H, kids, p) && Once(IdsOf(kids))
    requires forall n <- IdsOf(kids) :: n in H && n in H' && SameBody(H[n], H'[n]) && H[n].parent == H'[n].parent
    ensures HoldsAll(H', kids, p)
  {
    forall i | 0 <= i < |kids|
      ensures Holds(H', kids[i]) && H'[kids[i].id].parent == p
    {
      IdsOfAt(kids, i);
      OnceSub(Ids(kids[i]), IdsOf(kids));
      HoldsFrame(H, H', kids[i]);
    }
  }

  lemma {:induction false} HoldsCtxFrame(H: Heap, H': Heap, c: Ctx, hole: Node)
    requires HoldsCtx(H, c, hole) && Once(CtxIds(c))
    requires forall n <- CtxIds(c) :: n in H && n in H' && SameBody(H[n], H'[n]) && H[n].parent == H'[n].parent
    ensures HoldsCtx(H', c, hole)
    decreases c
  {
    if c.Frame? {
      OnceSub(IdsOf(c.lefts), CtxIds(c));
      OnceSub(IdsOf(c.rights), CtxIds(c));
      OnceSub(CtxIds(c.up), CtxIds(c));
      HoldsAllFrame(H, H', c.lefts, c.id);
      HoldsAllFrame(H, H', c.rights, c.id);
      HoldsCtxFrame(H, H', c.up, c.id);
    }
  }

  lemma {:induction false} HoldsPlug(H: Heap, c: Ctx, t: Tree)
    requires HoldsCtx(H, c, t.id) && Holds(H, t) && H[t.id].parent == CtxId(c)
    ensures Holds(H, Plug(c, t)) && H[Plug(c, t).id].parent == null
    decreases c
  {
    if c.Frame? {
      assert ChildPtrs(c.lefts + [t] + c.rights) == ChildPtrs(c.lefts) + [Child(t.id)] + ChildPtrs(c.rights);
      HoldsPlug(H, c.up, Filled(c, t));
    }
  }

  /** Distinct children share no node. */
  lemma {:induction false} IdsOfTwo(kids: seq<Tree>, i: nat, j: nat, n: Node)
    requires i < j < |kids| && n in Ids(kids[i]) && n in Ids(kids[j])
    ensures IdsOf(kids)[n] >= 2
    decreases kids
  {
    if i == 0 {
      IdsOfAt(kids[1..], j - 1);
      assert IdsOf(kids)[n] == Ids(kids[0])[n] + IdsOf(kids[1..])[n];
    } else {
      IdsOfTwo(kids[1..], i - 1, j - 1, n);
    }
  }

  lemma {:induction false} IdsApart(kids: seq<Tree>, i: nat, j: nat, n: Node)
    requires i < |kids| && j < |kids| && i != j && Once(IdsOf(kids)) && n in Ids(kids[i])
    ensures n != kids[j].id
  {
    RootIn(kids[j]);
    if n == kids[j].id {
      IdsOfTwo(kids, if i < j then i else j, if i < j then j else i, n);
    }
  }

  /** Children whose bodies are untouched and whose parent is now `p` are held by `p`. */
  lemma {:induction false} HoldsAdopted(H: Heap, H': Heap, kids: seq<Tree>, p: Node)
    requires (forall k <- kids :: Holds(H, k)) && Once(IdsOf(kids))
    requires forall n <- IdsOf(kids) :: n in H && n in H' && SameBody(H[n], H'[n])
    requires forall n <- IdsOf(kids) :: H'[n].parent == H[n].parent || exists k <- kids :: k.id == n
    requires forall k <- kids :: k.id in H' && H'[k.id].parent == p
    ensures HoldsAll(H', kids, p)
  {
    forall i | 0 <= i < |kids| ensures Holds(H', kids[i]) {
      IdsOfAt(kids, i);
      OnceSub(Ids(kids[i]), IdsOf(kids));
      forall n <- Ids(kids[i]) | n != kids[i].id ensures H'[n].parent == H[n].parent {
        if H'[n].parent != H[n].parent {
          var j :| 0 <= j < |kids| && kids[j].id == n;
          IdsApart(kids, i, j, n);
          assert false;
        }
      }
      HoldsFrame(H, H', kids[i]);
    }
  }

  /* ---------- whole trees ---------- */

  ghost function Height(t: Tree): nat
    decreases t
  {
    if t.LeafT? || t.kids == [] then 0 else 1 + Height(t.kids[0])
  }

  lemma {:induction false} ShapeHeight(t: Tree, h: nat, lo: nat)
    requires Shape(t, h, lo)
    ensures Height(t) == h
    decreases t
  {
    if t.InnerT? {
      assert t.kids[0] in t.kids;
      ShapeHeight(t.kids[0], h - 1, MinKeys(h - 1));
    }
  }

  /** `t` is a complete tree in the heap: balanced, filled, and with exact parent links up to a root without parent. */
  ghost predicate Whole(H: Heap, t: Tree) {
    Holds(H, t) && H[t.id].parent == null && Once(Ids(t)) && Shape(t, Height(t), 1)
  }

  lemma {:induction false} WholePlug(H: Heap, c: Ctx, t: Tree, h: nat)
    requires HoldsCtx(H, c, t.id) && Holds(H, t) && H[t.id].parent == CtxId(c)
    requires Once(CtxIds(c) + Ids(t)) && CtxShape(c, h) && Shape(t, h, LeastKeys(c, h))
    ensures Whole(H, Plug(c, t)) && Items(Plug(c, t)) == Left(c) + Items(t) + Right(c)
    ensures Ids(Plug(c, t)) == CtxIds(c) + Ids(t) && Height(Plug(c, t)) == CtxHeight(c, h)
  {
    HoldsPlug(H, c, t);
    IdsPlug(c, t);
    ShapePlug(c, t, h);
    ShapeHeight(Plug(c, t), CtxHeight(c, h), 1);
    CtxShapeFramed(c, h);
    ItemsPlug(c, t);
  }

  lemma {:induction false} CtxHeightPlug(c: Ctx, t: Tree, h: nat)
    requires CtxShape(c, h) && Shape(t, h, LeastKeys(c, h))
    ensures Height(Plug(c, t)) == CtxHeight(c, h)
  {
    ShapePlug(c, t, h);
    ShapeHeight(Plug(c, t), CtxHeight(c, h), 1);
  }
}
