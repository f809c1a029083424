/** Facts about single 64-bit values that hold by computation alone, kept away from everything else. */
module RawBits {

  lemma {:induction false} RawSum(a: bv7, b: bv7)
    requires a < 64 && b < 64 && b != 0
    ensures a < a + b
  {}

  lemma {:induction false} RawAnd(a: bv64, b: bv64)
    ensures a & b == (a | b) ^ (a ^ b)
  {}

  lemma {:induction false} RawOr(a: bv64, b: bv64, s: bv7)
    requires s < 64
    ensures ((a | b) >> s) & 1 == ((a >> s) & 1) | ((b >> s) & 1)
  {}

  lemma {:induction false} RawXor(a: bv64, b: bv64, s: bv7)
    requires s < 64
    ensures ((a ^ b) >> s) & 1 == ((a >> s) & 1) ^ ((b >> s) & 1)
  {}

  lemma {:induction false} RawNot(a: bv64)
    ensures !a == a ^ (0xFFFF_FFFF_FFFF_FFFF as bv64)
  {}

  lemma {:induction false} RawBool(x: bv64, y: bv64)
    ensures x & 1 == 0 || x & 1 == 1
    ensures (x & 1) & (y & 1) == 1 <==> x & 1 == 1 && y & 1 == 1
    ensures (x & 1) | (y & 1) == 1 <==> x & 1 == 1 || y & 1 == 1
    ensures (x & 1) ^ (y & 1) == 1 <==> (x & 1 == 1) != (y & 1 == 1)
  {}

  lemma {:induction false} RawConst(s: bv7)
    requires s < 64
    ensures ((0xFFFF_FFFF_FFFF_FFFF as bv64) >> s) & 1 == 1 && ((0 as bv64) >> s) & 1 == 0
  {}

  lemma {:induction false} RawUp(k: bv7, s: bv7)
    requires k < 64 && s < 64
    ensures (((0xFFFF_FFFF_FFFF_FFFF as bv64) << k) >> s) & 1 == 1 <==> k <= s
  {}

  lemma {:induction false} RawOne(k: bv7, s: bv7)
    requires k < 64 && s < 64
    ensures (((1 as bv64) << k) >> s) & 1 == 1 <==> s == k
  {}

  lemma {:induction false} RawDown(k: bv7, s: bv7)
    requires 0 < k < 64 && s < 64
    ensures (((0xFFFF_FFFF_FFFF_FFFF as bv64) >> (64 - k)) >> s) & 1 == 1 <==> s < k
  {}

  lemma {:induction false} RawLow(k: bv7, s: bv7)
    requires 0 < k < 64 && s < 64
    ensures ((((1 as bv64) << k) - 1) >> s) & 1 == 1 <==> s < k
  {}

  lemma {:induction false} RawHalf(w: bv64, s: bv7)
    requires s < 63
    ensures ((w >> 1) >> s) & 1 == (w >> (s + 1)) & 1
    ensures ((w >> 1) >> 63) & 1 == 0
    ensures w != 0 && w & 1 == 0 ==> w >> 1 != 0 && w >> 1 < w
    ensures (w >> 0) & 1 == w & 1
  {}

  lemma {:induction false} RawEqual(a: bv64, b: bv64)
    ensures a ^ b == 0 <==> a == b
  {}

  lemma {:induction false} RawClz(w: bv64, c: bv7, s: bv7)
    requires c < 64 && s < 64 && w >> (63 - c) == 1
    ensures (w >> (63 - c)) & 1 == 1
    ensures 63 - c < s ==> (w >> s) & 1 == 0
  {}

  lemma {:induction false} RawCtz(w: bv64, c: bv7, s: bv7)
    requires c < 64 && s < c && w << (64 - c) == 0
    ensures (w >> s) & 1 == 0
  {}
}
