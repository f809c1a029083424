/** The arithmetic of the queue's ring: slots, blocks and laps of an index that only grows (lf_rwq.c). */
module Rings {
  import opened Unsigned
  import opened SetFacts

  /** `blk_cnt` blocks of `blk_len` slots; the source makes both powers of two and uses masks and shifts. */
  datatype Ring = Ring(blk_len: nat, blk_cnt: nat) {
    predicate Ok() {
      blk_len > 0 && blk_cnt > 0
    }

    function Len(): (r: nat)
      ensures Ok() ==> r > 0
    {
      Positive(blk_len, blk_cnt);
      blk_len * blk_cnt
    }

    /** idx & (len - 1) */
    function Slot(n: nat): (r: nat)
      requires Ok()
      ensures r < Len()
    {
      n % Len()
    }

    /** (idx & (len - 1)) >> blk_pow */
    function Blk(n: nat): (r: nat)
      requires Ok()
      ensures r < blk_cnt
    {
      Parts(this, n);
      n % Len() / blk_len
    }

    /** idx >> q_pow */
    function Lap(n: nat): nat
      requires Ok()
    {
      n / Len()
    }
  }

  lemma {:induction false} Below(a: nat, x: nat, b: nat, r: nat)
    requires x < b && r < a
    ensures x * a + r < a * b
  {
    assert a * b == x * a + a + (b - x - 1) * a;
    NotNegative(b - x - 1, a);
  }

  /** Block number, offset and lap, without the ring length. */
  lemma {:induction false} Parts(g: Ring, n: nat)
    requires g.Ok()
    ensures var k := n / g.blk_len;
            && n % g.Len() == k % g.blk_cnt * g.blk_len + n % g.blk_len
            && n / g.Len() == k / g.blk_cnt
            && n % g.Len() / g.blk_len == k % g.blk_cnt < g.blk_cnt
  {
    var len, cnt, k, r := g.blk_len, g.blk_cnt, n / g.blk_len, n % g.blk_len;
    var lap, b := k / cnt, k % cnt;
    Below(len, b, cnt, r);
    Regroup(n, len, cnt, k, r, lap, b);
    QuotientUnique(n, len * cnt, lap, b * len + r);
    QuotientUnique(b * len + r, len, b, r);
  }

  lemma {:induction false} Regroup(n: nat, len: nat, cnt: nat, k: nat, r: nat, lap: nat, b: nat)
    requires n == k * len + r && k == lap * cnt + b
    ensures n == lap * (len * cnt) + (b * len + r)
  {}

  /** With both lengths powers of two, the masks of the source find the slot and the place in the block. */
  lemma {:induction false} Masks(g: Ring, j: nat, k: nat, n: nat)
    requires g.Ok() && g.blk_len == Pow2(j) && g.Len() == Pow2(k)
    ensures BitAnd(n, g.Len() - 1) == g.Slot(n)
    ensures BitAnd(g.Slot(n), g.blk_len - 1) == n % g.blk_len
  {
    hide BitAnd, Pow2;
    BitAndLow(n, k);
    BitAndLow(g.Slot(n), j);
    Parts(g, n);
    QuotientUnique(g.Slot(n), g.blk_len, g.Blk(n), n % g.blk_len);
  }

  /**
   * The check of lfrwq_init on a length: halving it down to 1 meets no odd number; `pow` counts
   * the halvings. Zero passes as well.
   */
  method PowerOf(len: nat) returns (ok: bool, pow: nat)
    ensures ok && len > 0 ==> len == Pow2(pow)
    ensures !ok ==> len > 0 && forall k: nat :: len != Pow2(k)
  {
    var quo: nat := len;
    ok, pow := true, 0;
    while quo > 1
      invariant (quo > 0 <==> len > 0) && len == quo * Pow2(pow)
    {
      if quo % 2 != 0 {
        NotPower(len, quo, pow);
        return false, pow;
      }
      quo := quo / 2;
      pow := pow + 1;
    }
  }

  lemma {:induction false} NotPower(len: nat, quo: nat, pow: nat)
    requires quo > 1 && quo % 2 != 0 && len == quo * Pow2(pow)
    ensures forall k: nat :: len != Pow2(k)
    decreases pow
  {
    forall k: nat ensures len != Pow2(k) { OddFactor(quo, pow, k); }
  }

  lemma {:induction false} OddFactor(quo: nat, pow: nat, k: nat)
    requires quo > 1 && quo % 2 != 0
    ensures quo * Pow2(pow) != Pow2(k)
    decreases pow
  {
    if pow > 0 {
      assert quo * Pow2(pow) == 2 * (quo * Pow2(pow - 1));
      if k > 0 { OddFactor(quo, pow - 1, k - 1); }
    }
  }

  /** Indices on one slot are in one block, and the laps tell them apart. */
  lemma {:induction false} SameSlot(g: Ring, m: nat, n: nat)
    requires g.Ok() && g.Slot(m) == g.Slot(n)
    ensures g.Blk(m) == g.Blk(n) && (m < n ==> g.Lap(m) < g.Lap(n))
  {
    var d, len := g.Lap(m) - g.Lap(n), g.Len();
    assert m - n == d * len;
    NotNegative(d, len);
  }

  /** Inside a block the index before belongs to the same block and lap. */
  lemma {:induction false} Inside(g: Ring, n: nat)
    requires g.Ok() && n % g.blk_len != 0
    ensures n > 0 && g.Blk(n - 1) == g.Blk(n) && g.Lap(n - 1) == g.Lap(n)
  {
    QuotientUnique(n - 1, g.blk_len, n / g.blk_len, n % g.blk_len - 1);
    Parts(g, n);
    Parts(g, n - 1);
  }

  /** So does the first index of the block. */
  lemma {:induction false} Start(g: Ring, n: nat)
    requires g.Ok()
    ensures var k := n / g.blk_len;
            && k * g.blk_len <= n < k * g.blk_len + g.blk_len
            && k * g.blk_len / g.blk_len == k
            && g.Blk(k * g.blk_len) == g.Blk(n) && g.Lap(k * g.blk_len) == g.Lap(n)
  {
    var k := n / g.blk_len;
    QuotientUnique(k * g.blk_len, g.blk_len, k, 0);
    Parts(g, n);
    Parts(g, k * g.blk_len);
  }

  /** The first index of ring block `b` in a lap. */
  function Begin(g: Ring, b: nat, lap: nat): nat {
    Natural(lap, g.blk_cnt);
    Natural(lap * g.blk_cnt + b, g.blk_len);
    (lap * g.blk_cnt + b) * g.blk_len
  }

  lemma {:induction false} Natural(a: nat, b: nat)
    ensures a * b >= 0
  {}

  /** The indices of ring block `b` in the laps before `laps`. */
  function Rounds(g: Ring, b: nat, laps: nat): set<nat> {
    if laps == 0 then {}
    else Rounds(g, b, laps - 1) + Span(Begin(g, b, laps - 1), g.blk_len)
  }

  function Span(from: nat, n: nat): (s: set<nat>)
    ensures |s| == n && forall i: nat :: i in s <==> from <= i < from + n
  {
    if n == 0 then {} else Span(from, n - 1) + {from + n - 1}
  }

  lemma {:induction false} RoundsSize(g: Ring, b: nat, laps: nat)
    ensures |Rounds(g, b, laps)| <= laps * g.blk_len
  {
    if laps > 0 {
      RoundsSize(g, b, laps - 1);
      assert laps * g.blk_len == (laps - 1) * g.blk_len + g.blk_len;
    }
  }

  lemma {:induction false} InRounds(g: Ring, b: nat, laps: nat, n: nat)
    requires g.Ok() && g.Blk(n) == b
    ensures n in Rounds(g, b, laps) <==> g.Lap(n) < laps
  {
    hide Span, Ring.Blk, Ring.Lap;
    if laps > 0 {
      InRounds(g, b, laps - 1, n);
      InSpan(g, b, laps - 1, n);
    }
  }

  lemma {:induction false} InSpan(g: Ring, b: nat, lap: nat, n: nat)
    requires g.Ok() && g.Blk(n) == b
    ensures n in Span(Begin(g, b, lap), g.blk_len) <==> g.Lap(n) == lap
  {
    Parts(g, n);
    var k, from := n / g.blk_len, lap * g.blk_cnt + b;
    assert n == k * g.blk_len + n % g.blk_len;
    if g.Lap(n) == lap {
      assert k == from;
    } else if from * g.blk_len <= n < from * g.blk_len + g.blk_len {
      QuotientUnique(n, g.blk_len, from, n - from * g.blk_len);
      QuotientUnique(k, g.blk_cnt, lap, b);
      assert false;
    }
  }

  /** As many reads as all earlier laps of a block hold, none of a later lap: they are exactly those. */
  lemma {:induction false} AllRead(g: Ring, b: nat, laps: nat, seen: set<nat>)
    requires g.Ok() && |seen| >= laps * g.blk_len
    requires forall n | n in seen :: g.Blk(n) == b && g.Lap(n) < laps
    ensures forall n: nat | g.Blk(n) == b && g.Lap(n) < laps :: n in seen
  {
    hide Ring.Blk, Ring.Lap, Rounds;
    forall n | n in seen ensures n in Rounds(g, b, laps) { InRounds(g, b, laps, n); }
    RoundsSize(g, b, laps);
    SubsetEqual(seen, Rounds(g, b, laps));
    forall n: nat | g.Blk(n) == b && g.Lap(n) < laps ensures n in seen { InRounds(g, b, laps, n); }
  }

  /** How many blocks begin below `w`. */
  function Begun(g: Ring, w: nat): nat
    requires g.Ok()
  {
    (w + g.blk_len - 1) / g.blk_len
  }

  lemma {:induction false} BegunBelow(g: Ring, w: nat, k: nat)
    requires g.Ok()
    ensures k * g.blk_len < w <==> k < Begun(g, w)
  {
    var len, c := g.blk_len, Begun(g, w);
    assert w + len - 1 == c * len + (w + len - 1) % len;
    if k < c {
      assert c * len == k * len + (c - k) * len;
      MulMore(c - k, len);
    } else {
      assert k * len == c * len + (k - c) * len;
      assert (k - c) * len >= 0;
    }
  }
}
