/** Bitwise operations on unsigned numbers of any width, and what they mean in arithmetic. */
module Unsigned {

  function Power(b: nat, e: nat): (r: nat)
    ensures b > 0 ==> r > 0
  {
    if e == 0 then 1 else (Positive(b, Power(b, e - 1)); b * Power(b, e - 1))
  }

  lemma {:induction false} Positive(a: nat, b: nat)
    ensures a > 0 && b > 0 ==> a * b > 0
  {}

  function Pow2(k: nat): (r: nat)
    ensures r > 0
  {
    Power(2, k)
  }

  lemma {:induction false} Powers()
    ensures Pow2(56) == 0x100_0000_0000_0000 && Pow2(64) == 0x1_0000_0000_0000_0000
  {
    assert Pow2(8) == 256;
    assert Pow2(16) == 0x1_0000;
    assert Pow2(24) == 0x100_0000;
    assert Pow2(32) == 0x1_0000_0000;
    assert Pow2(40) == 0x100_0000_0000;
    assert Pow2(48) == 0x1_0000_0000_0000;
    assert Pow2(56) == 0x100_0000_0000_0000;
  }

  /* ---------- x | y ---------- */

  /** x | y on unsigned integers, bit by bit. */
  function BitOr(x: nat, y: nat): nat
    decreases x + y
  {
    if x == 0 then y
    else if y == 0 then x
    else 2 * BitOr(x / 2, y / 2) + if x % 2 == 1 || y % 2 == 1 then 1 else 0
  }

  lemma {:induction false} OrBound(x: nat, y: nat, k: nat)
    requires x < Pow2(k) && y < Pow2(k)
    ensures BitOr(x, y) < Pow2(k)
    decreases k
  {
    if x != 0 && y != 0 {
      OrBound(x / 2, y / 2, k - 1);
    }
  }

  /** Or of parts that do not overlap is their sum. */
  lemma {:induction false} OrDisjoint(x: nat, z: nat, k: nat)
    requires x < Pow2(k)
    ensures BitOr(x, z * Pow2(k)) == x + z * Pow2(k)
    decreases k
  {
    if k == 0 || x == 0 {
      assert x == 0;
    } else if z == 0 {
      assert z * Pow2(k) == 0;
    } else {
      var y, half := z * Pow2(k), z * Pow2(k - 1);
      assert y == 2 * half;
      OrDisjoint(x / 2, z, k - 1);
      assert y > 0;
    }
  }

  /* ---------- x & m ---------- */

  /** x & m on unsigned integers, bit by bit. */
  function BitAnd(x: nat, m: nat): nat
    decreases x
  {
    if x == 0 then 0
    else 2 * BitAnd(x / 2, m / 2) + if x % 2 == 1 && m % 2 == 1 then 1 else 0
  }

  lemma {:induction false} BitAndZero(x: nat)
    ensures BitAnd(x, 0) == 0
    decreases x
  {
    if x > 0 { BitAndZero(x / 2); }
  }

  /** Masking with 2^k - 1 is the remainder by 2^k. */
  lemma {:induction false} BitAndLow(x: nat, k: nat)
    ensures BitAnd(x, Pow2(k) - 1) == x % Pow2(k)
    decreases x, k
  {
    hide BitAnd;
    if k == 0 {
      BitAndZero(x);
    } else if x == 0 {
      NothingLeft(Pow2(k));
    } else {
      BitAndLow(x / 2, k - 1);
      BitAndStep(x, Pow2(k - 1));
    }
  }

  lemma {:induction false} NothingLeft(m: nat)
    requires m > 0
    ensures BitAnd(0, m - 1) == 0 && 0 % m == 0
  {}

  lemma {:induction false} BitAndStep(x: nat, m: nat)
    requires x > 0 && m > 0 && BitAnd(x / 2, m - 1) == (x / 2) % m
    ensures BitAnd(x, 2 * m - 1) == x % (2 * m)
  {
    HalfMod(x, m);
    assert (2 * m - 1) / 2 == m - 1 && (2 * m - 1) % 2 == 1;
  }

  /* ---------- x & ~m ---------- */

  /** x & ~m on unsigned integers, bit by bit. */
  function BitAndNot(x: nat, m: nat): nat
    decreases x
  {
    if x == 0 then 0
    else 2 * BitAndNot(x / 2, m / 2) + if x % 2 == 1 && m % 2 == 0 then 1 else 0
  }

  /** ALIGN_MASK */
  function AlignMask(x: nat, mask: nat): nat {
    BitAndNot(x + mask, mask)
  }

  lemma {:induction false} AndNotZero(x: nat)
    ensures BitAndNot(x, 0) == x
    decreases x
  {
    if x > 0 { AndNotZero(x / 2); }
  }

  /** Clearing the low k bits rounds down to a multiple of 2^k. */
  lemma {:induction false} AndNotLow(x: nat, k: nat)
    ensures BitAndNot(x, Pow2(k) - 1) == x - x % Pow2(k)
    decreases x, k
  {
    hide BitAndNot;
    if k == 0 {
      AndNotZero(x);
    } else if x == 0 {
      ZeroLeft(Pow2(k));
    } else {
      AndNotLow(x / 2, k - 1);
      AndNotStep(x, Pow2(k - 1));
    }
  }

  lemma {:induction false} ZeroLeft(m: nat)
    requires m > 0
    ensures BitAndNot(0, m - 1) == 0 && 0 % m == 0
  {}

  lemma {:induction false} AndNotStep(x: nat, m: nat)
    requires x > 0 && m > 0 && BitAndNot(x / 2, m - 1) == x / 2 - (x / 2) % m
    ensures BitAndNot(x, 2 * m - 1) == x - x % (2 * m)
  {
    HalfMod(x, m);
    assert (2 * m - 1) / 2 == m - 1 && (2 * m - 1) % 2 == 1;
  }

  lemma {:induction false} HalfMod(x: nat, m: nat)
    requires m > 0
    ensures x % (2 * m) == 2 * ((x / 2) % m) + x % 2
  {
    var q, r := x / 2 / m, x / 2 % m;
    assert x / 2 == q * m + r;
    assert x == q * (2 * m) + (2 * r + x % 2);
    QuotientUnique(x, 2 * m, q, 2 * r + x % 2);
  }

  lemma {:induction false} QuotientUnique(x: nat, m: nat, q: nat, r: nat)
    requires m > 0 && r < m && x == q * m + r
    ensures x % m == r && x / m == q
  {
    var d := x / m - q;
    assert x == (x / m) * m + x % m;
    assert d * m == r - x % m;
    if d > 0 { MulMore(d, m); }
  }

  lemma {:induction false} MulMore(d: nat, m: nat)
    requires d > 0
    ensures d * m >= m
  {
    assert d * m == m + (d - 1) * m;
  }

  /** AlignMask(x, 2^k - 1) is the least multiple of 2^k that is at least x. */
  lemma {:induction false} AlignLeast(x: nat, k: nat)
    ensures x <= AlignMask(x, Pow2(k) - 1) < x + Pow2(k)
    ensures Aligned(AlignMask(x, Pow2(k) - 1), k)
    ensures forall y: nat | y >= x && Aligned(y, k) :: y >= AlignMask(x, Pow2(k) - 1)
  {
    hide Pow2, BitAndNot;
    var a, r := Pow2(k), AlignMask(x, Pow2(k) - 1);
    AndNotLow(x + a - 1, k);
    RoundUp(x, a, r);
    forall y: nat | y >= x && Aligned(y, k) ensures y >= r { NoMultipleBetween(y, a, r); }
  }

  lemma {:induction false} RoundUp(x: nat, a: nat, r: nat)
    requires a > 0 && r == x + a - 1 - (x + a - 1) % a
    ensures x <= r < x + a && r % a == 0
  {
    var q := (x + a - 1) / a;
    assert r == q * a;
    QuotientUnique(r, a, q, 0);
  }

  lemma {:induction false} NoMultipleBetween(y: nat, a: nat, r: nat)
    requires a > 0 && y % a == 0 && r % a == 0 && r < y + a
    ensures r <= y
  {
    var d := r / a - y / a;
    assert r == r / a * a && y == y / a * a;
    assert d * a == r / a * a - y / a * a;
    if d > 0 { MulMore(d, a); }
    NotNegative(-d, a);
  }

  lemma {:induction false} NotNegative(d: int, len: nat)
    ensures d >= 0 ==> d * len >= 0
  {
  }

  predicate Aligned(x: nat, k: nat) {
    x % Pow2(k) == 0
  }
}
