/** The order the in-order walk obeys, the bindings it visits and the leaves it passes. */
module InOrder {
  import opened Keys
  import opened BPlusNode
  import opened SeqFacts
  import opened TreeModel

  /** A separator is above every key to its left and at most every key to its right. */
  predicate Before(a: Item, b: Item) {
    if a.Mark? || b.Mark? then true
    else if a.Sep? && b.Ent? then Le(a.key, b.key)
    else Lt(a.key, b.key)
  }

  ghost predicate Sorted(s: seq<Item>) {
    forall i, j | 0 <= i < j < |s| :: Before(s[i], s[j])
  }

  ghost predicate AllBefore(s: seq<Item>, x: Item) {
    forall i | 0 <= i < |s| :: Before(s[i], x)
  }

  ghost predicate AllAfter(x: Item, s: seq<Item>) {
    forall i | 0 <= i < |s| :: Before(x, s[i])
  }

  lemma {:induction false} BeforeTrans(a: Item, b: Item, c: Item)
    requires Before(a, b) && Before(b, c) && !b.Mark?
    ensures Before(a, c)
  {
    if !a.Mark? && !c.Mark? {
      TotalOrder(a.key, b.key);
      TotalOrder(b.key, c.key);
      TotalOrder(a.key, c.key);
      LeLtTrans(a.key, b.key, c.key);
    }
  }

  /** What is before (after) a separator or binding is before (after) everything beyond it. */
  lemma {:induction false} AllBeforeTrans(s: seq<Item>, b: Item, c: Item)
    requires AllBefore(s, b) && Before(b, c) && !b.Mark?
    ensures AllBefore(s, c)
  {
    forall i | 0 <= i < |s| ensures Before(s[i], c) {
      BeforeTrans(s[i], b, c);
    }
  }

  lemma {:induction false} AllAfterTrans(a: Item, b: Item, s: seq<Item>)
    requires Before(a, b) && AllAfter(b, s) && !b.Mark?
    ensures AllAfter(a, s)
  {
    forall i | 0 <= i < |s| ensures Before(a, s[i]) {
      BeforeTrans(a, b, s[i]);
    }
  }

  lemma {:induction false} SortedAround(a: seq<Item>, x: Item, b: seq<Item>)
    ensures Sorted(a + [x] + b) <==> Sorted(a + b) && AllBefore(a, x) && AllAfter(x, b)
  {
    var s, t := a + [x] + b, a + b;
    if Sorted(s) {
      forall i, j | 0 <= i < j < |t| ensures Before(t[i], t[j]) {
        var i', j' := if i < |a| then i else i + 1, if j < |a| then j else j + 1;
        assert t[i] == s[i'] && t[j] == s[j'];
      }
      forall i | 0 <= i < |a| ensures Before(a[i], x) {
        assert a[i] == s[i] && x == s[|a|];
      }
      forall j | 0 <= j < |b| ensures Before(x, b[j]) {
        assert b[j] == s[|a| + 1 + j] && x == s[|a|];
      }
    }
    if Sorted(t) && AllBefore(a, x) && AllAfter(x, b) {
      forall i, j | 0 <= i < j < |s| ensures Before(s[i], s[j]) {
        if i != |a| && j != |a| {
          var i', j' := if i < |a| then i else i - 1, if j < |a| then j else j - 1;
          assert s[i] == t[i'] && s[j] == t[j'];
        }
      }
    }
  }

  /** A new leaf may begin, and be announced by its own first key, anywhere between two bindings. */
  lemma {:induction false} SortedSplit(a: seq<Item>, e: Item, x: Item, m: Node, b: seq<Item>)
    requires e.Ent? && x.Ent? && Sorted(a + [e] + ([x] + b))
    ensures Sorted(a + [e] + ([Sep(x.key), Mark(m)] + ([x] + b)))
  {
    var front, rest, sep := a + [e], [x] + b, Sep(x.key);
    assert a + [e] + rest == front + [x] + b;
    SortedAround(a, e, rest);
    SortedAround(front, x, b);
    assert e in front && Before(e, x);
    assert AllBefore(a, e) && Before(e, sep);
    AllBeforeTrans(a, e, sep);
    TotalOrder(x.key, x.key);
    forall j | 0 <= j < |rest| ensures Before(sep, rest[j]) {
      if j > 0 {
        assert rest[j] == b[j - 1];
        if b[j - 1].Ent? {
          TotalOrder(x.key, b[j - 1].key);
        }
      }
    }
    assert front + rest == front + [x] + b;
    SortedAround(front, sep, rest);
    SortedAround(front + [sep], Mark(m), rest);
    assert front + [sep] + [Mark(m)] + rest == a + [e] + ([sep, Mark(m)] + rest);
  }

  /** A leaf joined to its left neighbour loses its mark and the separator before it. */
  lemma {:induction false} SortedJoin(a: seq<Item>, sep: Item, m: Node, b: seq<Item>)
    requires Sorted(a + [sep, Mark(m)] + b)
    ensures Sorted(a + b)
  {
    assert a + [sep, Mark(m)] + b == a + [sep] + ([Mark(m)] + b);
    SortedAround(a, sep, [Mark(m)] + b);
    assert a + ([Mark(m)] + b) == a + [Mark(m)] + b;
    SortedAround(a, Mark(m), b);
  }

  /* ---------- bindings ---------- */

  ghost function Entries(s: seq<Item>): seq<(Key, Value)> {
    if s == [] then []
    else (if s[0].Ent? then [(s[0].key, s[0].value)] else []) + Entries(s[1..])
  }

  lemma {:induction false} EntriesConcat(a: seq<Item>, b: seq<Item>)
    ensures Entries(a + b) == Entries(a) + Entries(b)
  {
    if a == [] {
      NoneLeft(b);
      assert Entries(a) == [];
      NoneLeft(Entries(b));
    } else {
      EntriesConcat(a[1..], b);
      TailOfConcat(a, b);
      var first := if a[0].Ent? then [(a[0].key, a[0].value)] else [];
      Assoc(first, Entries(a[1..]), Entries(b));
    }
  }

  lemma {:induction false} EntriesOf(s: seq<Item>, k: Key, v: Value)
    ensures (k, v) in Entries(s) <==> Ent(k, v) in s
  {
    if s != [] {
      EntriesOf(s[1..], k, v);
      assert s == [s[0]] + s[1..];
    }
  }

  ghost function ToMap(es: seq<(Key, Value)>): map<Key, Value> {
    if es == [] then map[] else ToMap(es[..|es| - 1])[es[|es| - 1].0 := es[|es| - 1].1]
  }

  /** The bindings of a sorted walk form a map: no key is visited twice. */
  lemma {:induction false} ToMapOf(es: seq<(Key, Value)>)
    requires forall i, j | 0 <= i < j < |es| :: es[i].0 != es[j].0
    ensures forall k, v :: k in ToMap(es) && ToMap(es)[k] == v <==> (k, v) in es
  {
    if es != [] {
      var n := |es| - 1;
      ToMapOf(es[..n]);
      assert es == es[..n] + [es[n]];
    }
  }

  lemma {:induction false} EntriesSorted(s: seq<Item>)
    requires Sorted(s)
    ensures forall i, j | 0 <= i < j < |Entries(s)| :: Lt(Entries(s)[i].0, Entries(s)[j].0)
  {
    if s != [] {
      assert s == [s[0]] + s[1..];
      EntriesSorted(s[1..]);
      if s[0].Ent? {
        var rest := Entries(s[1..]);
        forall j | 0 <= j < |rest| ensures Lt(s[0].key, rest[j].0) {
          EntriesOf(s[1..], rest[j].0, rest[j].1);
          assert Ent(rest[j].0, rest[j].1) in s[1..];
        }
        var es := Entries(s);
        forall i, j | 0 <= i < j < |es| ensures Lt(es[i].0, es[j].0) {
          assert es[j] == rest[j - 1];
          assert i > 0 ==> es[i] == rest[i - 1];
        }
      }
    }
  }

  /** The map of a sorted walk holds exactly the bindings the walk visits. */
  lemma {:induction false} BindingsOf(s: seq<Item>, k: Key, v: Value)
    requires Sorted(s)
    ensures k in ToMap(Entries(s)) && ToMap(Entries(s))[k] == v <==> Ent(k, v) in s
  {
    EntriesSorted(s);
    var es := Entries(s);
    forall i, j | 0 <= i < j < |es| ensures es[i].0 != es[j].0 {
      TotalOrder(es[i].0, es[j].0);
    }
    ToMapOf(es);
    EntriesOf(s, k, v);
  }

  /** Adding a binding to a sorted walk adds exactly that binding to the map. */
  lemma {:induction false} MapInsert(a: seq<Item>, k: Key, v: Value, b: seq<Item>)
    requires Sorted(a + [Ent(k, v)] + b)
    ensures var m := ToMap(Entries(a + b));
            k !in m && ToMap(Entries(a + [Ent(k, v)] + b)) == m[k := v]
  {
    var x, s, t := Ent(k, v), a + [Ent(k, v)] + b, a + b;
    SortedAround(a, x, b);
    var m, m' := ToMap(Entries(t)), ToMap(Entries(s));
    forall k1, v1 ensures Ent(k1, v1) in s <==> Ent(k1, v1) == x || Ent(k1, v1) in t {
      assert Ent(k1, v1) in s <==> Ent(k1, v1) in a || Ent(k1, v1) == x || Ent(k1, v1) in b;
    }
    TotalOrder(k, k);
    if k in m {
      BindingsOf(t, k, m[k]);
      assert false;
    }
    forall k1 ensures k1 in m' <==> k1 == k || k1 in m {
      if k1 in m' { BindingsOf(s, k1, m'[k1]); BindingsOf(t, k1, m'[k1]); }
      if k1 in m { BindingsOf(t, k1, m[k1]); BindingsOf(s, k1, m[k1]); }
      BindingsOf(s, k, v);
    }
    forall k1 | k1 in m' ensures m'[k1] == m[k := v][k1] {
      BindingsOf(s, k1, m'[k1]);
      BindingsOf(t, k1, m'[k1]);
      BindingsOf(s, k, v);
    }
  }

  /** Dropping a binding from a sorted walk drops exactly that key from the map. */
  lemma {:induction false} MapRemove(a: seq<Item>, k: Key, v: Value, b: seq<Item>)
    requires Sorted(a + [Ent(k, v)] + b)
    ensures Sorted(a + b) && ToMap(Entries(a + b)) == ToMap(Entries(a + [Ent(k, v)] + b)) - {k}
  {
    SortedAround(a, Ent(k, v), b);
    MapInsert(a, k, v, b);
  }

  /* ---------- leaves ---------- */

  ghost function Leaves(s: seq<Item>): seq<Node> {
    if s == [] then [] else (if s[0].Mark? then [s[0].leaf] else []) + Leaves(s[1..])
  }

  lemma {:induction false} LeavesConcat(a: seq<Item>, b: seq<Item>)
    ensures Leaves(a + b) == Leaves(a) + Leaves(b)
  {
    if a == [] {
      NoneLeft(b);
      assert Leaves(a) == [];
      NoneLeft(Leaves(b));
    } else {
      LeavesConcat(a[1..], b);
      TailOfConcat(a, b);
      var first := if a[0].Mark? then [a[0].leaf] else [];
      Assoc(first, Leaves(a[1..]), Leaves(b));
    }
  }

  lemma {:induction false} NoLeaves(s: seq<Item>)
    requires forall i | 0 <= i < |s| :: !s[i].Mark?
    ensures Leaves(s) == []
  {
    if s != [] {
      NoLeaves(s[1..]);
    }
  }

  ghost function After(leaves: seq<Node>, i: nat): Ptr {
    if i + 1 < |leaves| then Child(leaves[i + 1]) else Null
  }

  /** The links visit exactly `leaves`, in this order, and then end. */
  ghost predicate Chained(H: Heap, leaves: seq<Node>) {
    forall i | 0 <= i < |leaves| :: leaves[i] in H && H[leaves[i]].next == After(leaves, i)
  }

  /** Every leaf the walk of a tree, or of what surrounds it, passes is one of its nodes. */
  lemma {:induction false} LeavesInTree(t: Tree)
    ensures forall n <- Leaves(Items(t)) :: n in Ids(t)
    decreases t
  {
    match t
    case LeafT(id, keys, vals) =>
      LeavesConcat([Mark(id)], if |keys| == |vals| then Ents(keys, vals) else []);
      NoLeaves(if |keys| == |vals| then Ents(keys, vals) else []);
    case InnerT(_, keys, kids) =>
      LeavesInRow(keys, kids);
  }

  lemma {:induction false} LeavesInRow(keys: seq<Key>, kids: seq<Tree>)
    ensures forall n <- Leaves(Row(keys, kids)) :: n in IdsOf(kids)
    decreases kids, 0
  {
    if kids != [] {
      LeavesInTree(kids[0]);
      if keys != [] && |kids| > 1 {
        LeavesInRow(keys[1..], kids[1..]);
        LeavesConcat(Items(kids[0]) + [Sep(keys[0])], Row(keys[1..], kids[1..]));
        LeavesConcat(Items(kids[0]), [Sep(keys[0])]);
      }
    }
  }

  lemma {:induction false} LeavesInCtx(c: Ctx)
    ensures forall n <- Leaves(Left(c)) :: n in CtxIds(c)
    ensures forall n <- Leaves(Right(c)) :: n in CtxIds(c)
    decreases c
  {
    if c.Frame? {
      LeavesInCtx(c.up);
      LeavesConcat(Left(c.up), LeftRow(c.lk, c.lefts));
      LeavesConcat(RightRow(c.rk, c.rights), Right(c.up));
      LeavesInSides(c);
    }
  }

  lemma {:induction false} LeavesInSides(c: Ctx)
    requires c.Frame?
    ensures forall n <- Leaves(LeftRow(c.lk, c.lefts)) :: n in IdsOf(c.lefts)
    ensures forall n <- Leaves(RightRow(c.rk, c.rights)) :: n in IdsOf(c.rights)
  {
    if c.lk != [] {
      var n := |c.lk| - 1;
      LeavesInRow(c.lk[..n], c.lefts);
      LeavesConcat(Row(c.lk[..n], c.lefts), [Sep(c.lk[n])]);
    }
    if c.rk != [] {
      LeavesInRow(c.rk[1..], c.rights);
      LeavesConcat([Sep(c.rk[0])], Row(c.rk[1..], c.rights));
    }
  }
}
