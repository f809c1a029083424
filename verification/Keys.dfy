/** Keys of the tree are C strings compared by strcmp, the comparison both trees install as `key_cmp`. */
module Keys {

  type Key = string

  /** The sign of strcmp(a, b): the first difference decides, and a proper prefix comes first. */
  function StrCmp(a: Key, b: Key): int {
    if a == [] then (if b == [] then 0 else -1)
    else if b == [] then 1
    else if a[0] != b[0] then a[0] as int - b[0] as int
    else StrCmp(a[1..], b[1..])
  }

  predicate Lt(a: Key, b: Key) {
    StrCmp(a, b) < 0
  }

  predicate Le(a: Key, b: Key) {
    StrCmp(a, b) <= 0
  }

  lemma {:induction false} StrCmpZero(a: Key, b: Key)
    ensures StrCmp(a, b) == 0 <==> a == b
  {
    if a == [] || b == [] || a[0] != b[0] {
      // the first position decides
    } else {
      StrCmpZero(a[1..], b[1..]);
      assert a == [a[0]] + a[1..] && b == [b[0]] + b[1..];
    }
  }

  lemma {:induction false} StrCmpSwap(a: Key, b: Key)
    ensures StrCmp(a, b) < 0 <==> StrCmp(b, a) > 0
  {
    if a == [] || b == [] || a[0] != b[0] {
      // the first position decides
    } else {
      StrCmpSwap(a[1..], b[1..]);
    }
  }

  lemma {:induction false} LtTrans(a: Key, b: Key, c: Key)
    requires Lt(a, b) && Lt(b, c)
    ensures Lt(a, c)
  {
    if a == [] || a[0] != b[0] || b[0] != c[0] {
      // the first position decides, as neither b nor c can be empty
    } else {
      LtTrans(a[1..], b[1..], c[1..]);
    }
  }

  /** The first character that differs decides. */
  lemma {:induction false} FirstDifference(p: Key, x: char, y: char, a: Key, b: Key)
    requires x < y
    ensures Lt(p + [x] + a, p + [y] + b)
    decreases |p|
  {
    if p != [] {
      assert (p + [x] + a)[1..] == p[1..] + [x] + a && (p + [y] + b)[1..] == p[1..] + [y] + b;
      FirstDifference(p[1..], x, y, a, b);
    }
  }

  /** A proper prefix comes first. */
  lemma {:induction false} PrefixFirst(a: Key, b: Key)
    requires b != []
    ensures Lt(a, a + b)
    decreases |a|
  {
    if a == [] {
      assert a + b == b;
    } else {
      assert (a + b)[1..] == a[1..] + b;
      PrefixFirst(a[1..], b);
    }
  }

  /** strcmp is a strict total order whose zero is equality. */
  lemma TotalOrder(a: Key, b: Key)
    ensures Lt(a, b) || a == b || Lt(b, a)
    ensures !(Lt(a, b) && Lt(b, a)) && !Lt(a, a)
    ensures Le(a, b) <==> Lt(a, b) || a == b
    ensures !Le(a, b) <==> Lt(b, a)
  {
    StrCmpZero(a, b);
    StrCmpZero(a, a);
    StrCmpSwap(a, b);
    StrCmpSwap(b, a);
  }

  lemma LeLtTrans(a: Key, b: Key, c: Key)
    ensures Le(a, b) && Lt(b, c) ==> Lt(a, c)
    ensures Lt(a, b) && Le(b, c) ==> Lt(a, c)
  {
    TotalOrder(a, b);
    TotalOrder(b, c);
    if Lt(a, b) && Lt(b, c) {
      LtTrans(a, b, c);
    }
  }
}
