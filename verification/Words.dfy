/**
 * Machine words (BITS_PER_LONG is 64): single bits, the masks bitops.c and bitmap.c build, and the clz/ctz of
 * bitops.h.
 */
module Words {
  import opened RawBits

  type Word = bv64

  const ONES: Word := 0xFFFF_FFFF_FFFF_FFFF

  /** Bit `i` of `w`, as test_bit computes it. */
  predicate Bit(w: Word, i: nat)
    requires i < 64
  {
    (w >> i) & 1 == 1
  }

  /* ---------- bit positions as shift amounts ---------- */

  lemma {:induction false} PosBound(i: nat)
    requires i < 64
    ensures (i as bv7) < 64
  {}

  lemma {:induction false} PosSucc(i: nat)
    requires i < 64
    ensures (i + 1) as bv7 == (i as bv7) + 1
  {
    if i < 8 {} else if i < 16 {} else if i < 24 {} else if i < 32 {}
    else if i < 40 {} else if i < 48 {} else if i < 56 {} else {}
  }

  lemma {:induction false} PosAdd(i: nat, j: nat)
    requires i + j <= 64
    ensures (i + j) as bv7 == (i as bv7) + (j as bv7)
  {
    if j > 0 {
      PosAdd(i, j - 1);
      PosSucc(i + j - 1);
      PosSucc(j - 1);
    }
  }

  lemma {:induction false} PosNonzero(i: nat)
    requires 0 < i < 64
    ensures (i as bv7) != 0
  {}

  lemma {:induction false} PosOrder(i: nat, j: nat)
    requires i < 64 && j < 64
    ensures i < j <==> (i as bv7) < (j as bv7)
    ensures i == j <==> (i as bv7) == (j as bv7)
  {
    if i < j {
      PosLess(i, j);
    } else if j < i {
      PosLess(j, i);
    }
  }

  lemma {:induction false} PosLess(i: nat, j: nat)
    requires i < j < 64
    ensures (i as bv7) < (j as bv7)
  {
    PosAdd(i, j - i);
    PosBound(i);
    PosBound(j - i);
    PosNonzero(j - i);
    RawSum(i as bv7, (j - i) as bv7);
  }

  lemma {:induction false} PosBack(c: bv7)
    requires c <= 64
    ensures (c as nat) <= 64 && ((c as nat) as bv7) == c
  {}

  /* ---------- the bits of combined words ---------- */

  lemma {:induction false} ConstBit(i: nat)
    requires i < 64
    ensures Bit(ONES, i) && !Bit(0, i)
  {
    PosBound(i);
    RawConst(i as bv7);
  }

  lemma {:induction false} OrBit(a: Word, b: Word, i: nat)
    requires i < 64
    ensures Bit(a | b, i) <==> Bit(a, i) || Bit(b, i)
  {
    PosBound(i);
    RawOr(a, b, i as bv7);
    RawBool(a >> i, b >> i);
  }

  lemma {:induction false} XorBit(a: Word, b: Word, i: nat)
    requires i < 64
    ensures Bit(a ^ b, i) <==> Bit(a, i) != Bit(b, i)
  {
    PosBound(i);
    RawXor(a, b, i as bv7);
    RawBool(a >> i, b >> i);
  }

  lemma {:induction false} SplitBit(both: Word, either: Word, one: Word, i: nat)
    requires i < 64 && both == either ^ one
    ensures Bit(both, i) <==> Bit(either, i) != Bit(one, i)
  {
    XorBit(either, one, i);
  }

  lemma {:induction false} AndSplit(a: Word, b: Word, i: nat)
    requires i < 64
    ensures Bit(a & b, i) <==> Bit(a | b, i) != Bit(a ^ b, i)
  {
    hide Bit;
    RawAnd(a, b);
    SplitBit(a & b, a | b, a ^ b, i);
  }

  lemma {:induction false} AndBit(a: Word, b: Word, i: nat)
    requires i < 64
    ensures Bit(a & b, i) <==> Bit(a, i) && Bit(b, i)
  {
    hide Bit;
    AndSplit(a, b, i);
    XorBit(a, b, i);
    OrBit(a, b, i);
  }

  lemma {:induction false} NotBit(a: Word, i: nat)
    requires i < 64
    ensures Bit(!a, i) <==> !Bit(a, i)
  {
    RawNot(a);
    XorBit(a, ONES, i);
    ConstBit(i);
  }

  /** &, |, ^ and ~ act on each bit by itself. */
  lemma {:induction false} OpsBit(a: Word, b: Word, i: nat)
    requires i < 64
    ensures Bit(a & b, i) <==> Bit(a, i) && Bit(b, i)
    ensures Bit(a | b, i) <==> Bit(a, i) || Bit(b, i)
    ensures Bit(a ^ b, i) <==> Bit(a, i) != Bit(b, i)
    ensures Bit(!a, i) <==> !Bit(a, i)
  {
    hide Bit;
    AndBit(a, b, i);
    OrBit(a, b, i);
    XorBit(a, b, i);
    NotBit(a, i);
  }

  /** The bits from k up. */
  lemma {:induction false} HighBit(k: nat, i: nat)
    requires k < 64 && i < 64
    ensures Bit(ONES << k, i) <==> k <= i
  {
    PosBound(k);
    PosBound(i);
    PosOrder(i, k);
    RawUp(k as bv7, i as bv7);
  }

  /** Bit k alone. */
  lemma {:induction false} OneBit(k: nat, i: nat)
    requires k < 64 && i < 64
    ensures Bit((1 as Word) << k, i) <==> i == k
  {
    PosBound(k);
    PosBound(i);
    PosOrder(i, k);
    RawOne(k as bv7, i as bv7);
  }

  lemma {:induction false} PosMinus(n: nat)
    requires 0 < n < 64
    ensures 0 < (n as bv7) < 64 && (64 - n) as bv7 == 64 - (n as bv7)
  {
    PosBound(n);
    PosNonzero(n);
    PosAdd(64 - n, n);
  }

  /** The lowest n bits. */
  lemma {:induction false} DownBit(n: nat, i: nat)
    requires 0 < n < 64 && i < 64
    ensures Bit(ONES >> (64 - n), i) <==> i < n
  {
    PosMinus(n);
    PosBound(i);
    PosOrder(i, n);
    RawDown(n as bv7, i as bv7);
  }

  /** The lowest n bits again. */
  lemma {:induction false} LowBit(n: nat, i: nat)
    requires 0 < n < 64 && i < 64
    ensures Bit(((1 as Word) << n) - 1, i) <==> i < n
  {
    PosMinus(n);
    PosBound(i);
    PosOrder(i, n);
    RawLow(n as bv7, i as bv7);
  }

  /* ---------- the word operations, each by its effect on single bits ---------- */

  function And(a: Word, b: Word): (r: Word)
    ensures forall i | 0 <= i < 64 :: Bit(r, i) <==> Bit(a, i) && Bit(b, i)
  {
    AndBits(a, b, a & b);
    a & b
  }

  lemma {:induction false} AndBits(a: Word, b: Word, r: Word)
    requires r == a & b
    ensures forall i | 0 <= i < 64 :: Bit(r, i) <==> Bit(a, i) && Bit(b, i)
  {
    hide Bit;
    forall i | 0 <= i < 64 ensures Bit(r, i) <==> Bit(a, i) && Bit(b, i) { AndBit(a, b, i); }
  }

  function Or(a: Word, b: Word): (r: Word)
    ensures forall i | 0 <= i < 64 :: Bit(r, i) <==> Bit(a, i) || Bit(b, i)
  {
    OrBits(a, b, a | b);
    a | b
  }

  lemma {:induction false} OrBits(a: Word, b: Word, r: Word)
    requires r == a | b
    ensures forall i | 0 <= i < 64 :: Bit(r, i) <==> Bit(a, i) || Bit(b, i)
  {
    hide Bit;
    forall i | 0 <= i < 64 ensures Bit(r, i) <==> Bit(a, i) || Bit(b, i) { OrBit(a, b, i); }
  }

  function Xor(a: Word, b: Word): (r: Word)
    ensures forall i | 0 <= i < 64 :: Bit(r, i) <==> Bit(a, i) != Bit(b, i)
  {
    XorBits(a, b, a ^ b);
    a ^ b
  }

  lemma {:induction false} XorBits(a: Word, b: Word, r: Word)
    requires r == a ^ b
    ensures forall i | 0 <= i < 64 :: Bit(r, i) <==> Bit(a, i) != Bit(b, i)
  {
    hide Bit;
    forall i | 0 <= i < 64 ensures Bit(r, i) <==> Bit(a, i) != Bit(b, i) { XorBit(a, b, i); }
  }

  function Not(a: Word): (r: Word)
    ensures forall i | 0 <= i < 64 :: Bit(r, i) <==> !Bit(a, i)
  {
    NotBits(a, !a);
    !a
  }

  lemma {:induction false} NotBits(a: Word, r: Word)
    requires r == !a
    ensures forall i | 0 <= i < 64 :: Bit(r, i) <==> !Bit(a, i)
  {
    hide Bit;
    forall i | 0 <= i < 64 ensures Bit(r, i) <==> !Bit(a, i) { NotBit(a, i); }
  }

  /** ~0UL << k */
  function From(k: nat): (r: Word)
    requires k < 64
    ensures forall i | 0 <= i < 64 :: Bit(r, i) <==> k <= i
  {
    FromBits(k, ONES << k);
    ONES << k
  }

  lemma {:induction false} FromBits(k: nat, r: Word)
    requires k < 64 && r == ONES << k
    ensures forall i | 0 <= i < 64 :: Bit(r, i) <==> k <= i
  {
    hide Bit;
    forall i | 0 <= i < 64 ensures Bit(r, i) <==> k <= i { HighBit(k, i); }
  }

  /** 1UL << k */
  function One(k: nat): (r: Word)
    requires k < 64
    ensures forall i | 0 <= i < 64 :: Bit(r, i) <==> i == k
  {
    OneBits(k, (1 as Word) << k);
    (1 as Word) << k
  }

  lemma {:induction false} OneBits(k: nat, r: Word)
    requires k < 64 && r == (1 as Word) << k
    ensures forall i | 0 <= i < 64 :: Bit(r, i) <==> i == k
  {
    hide Bit;
    forall i | 0 <= i < 64 ensures Bit(r, i) <==> i == k { OneBit(k, i); }
  }

  /** ~0UL >> (BITS_PER_LONG - n) */
  function Down(n: nat): (r: Word)
    requires 0 < n < 64
    ensures forall i | 0 <= i < 64 :: Bit(r, i) <==> i < n
  {
    DownBits(n, ONES >> (64 - n));
    ONES >> (64 - n)
  }

  lemma {:induction false} DownBits(n: nat, r: Word)
    requires 0 < n < 64 && r == ONES >> (64 - n)
    ensures forall i | 0 <= i < 64 :: Bit(r, i) <==> i < n
  {
    hide Bit;
    forall i | 0 <= i < 64 ensures Bit(r, i) <==> i < n { DownBit(n, i); }
  }

  /** (1UL << n) - 1 */
  function Low(n: nat): (r: Word)
    requires 0 < n < 64
    ensures forall i | 0 <= i < 64 :: Bit(r, i) <==> i < n
  {
    LowBits(n, ((1 as Word) << n) - 1);
    ((1 as Word) << n) - 1
  }

  lemma {:induction false} LowBits(n: nat, r: Word)
    requires 0 < n < 64 && r == ((1 as Word) << n) - 1
    ensures forall i | 0 <= i < 64 :: Bit(r, i) <==> i < n
  {
    hide Bit;
    forall i | 0 <= i < 64 ensures Bit(r, i) <==> i < n { LowBit(n, i); }
  }

  /* ---------- a word is its bits ---------- */

  lemma {:induction false} FirstBit(w: Word)
    ensures Bit(w, 0) <==> w & 1 == 1
  {
    RawHalf(w, 0);
  }

  lemma {:induction false} HalfBit(w: Word, i: nat)
    requires i < 64
    ensures Bit(w >> 1, i) <==> i < 63 && Bit(w, i + 1)
  {
    if i < 63 {
      PosLess(i, 63);
      PosSucc(i);
      RawHalf(w, i as bv7);
    } else {
      RawHalf(w, 0);
    }
  }

  /** A word other than zero has a bit. */
  lemma {:induction false} SomeBit(w: Word)
    requires w != 0
    ensures exists i: nat :: i < 64 && Bit(w, i)
    decreases w
  {
    hide Bit;
    FirstBit(w);
    if w & 1 == 1 {
      assert Bit(w, 0);
    } else {
      RawHalf(w, 0);
      RawBool(w, 0);
      SomeBit(w >> 1);
      var i: nat :| i < 64 && Bit(w >> 1, i);
      HalfBit(w, i);
      assert Bit(w, i + 1);
    }
  }

  lemma {:induction false} NotZero(w: Word)
    ensures Not(w) == 0 <==> w == ONES
  {}

  /** Two words with the same bits are equal. */
  lemma {:induction false} SameBits(a: Word, b: Word)
    requires forall i | 0 <= i < 64 :: Bit(a, i) == Bit(b, i)
    ensures a == b
  {
    RawEqual(a, b);
    hide Bit;
    if a != b {
      SomeBit(a ^ b);
      var i: nat :| i < 64 && Bit(a ^ b, i);
      OpsBit(a, b, i);
      assert false;
    }
  }

  /** A word is zero exactly when it has no bit, and all ones exactly when it has every bit. */
  lemma {:induction false} ZeroBits(w: Word)
    ensures w == 0 <==> forall i | 0 <= i < 64 :: !Bit(w, i)
    ensures w == ONES <==> forall i | 0 <= i < 64 :: Bit(w, i)
  {
    hide Bit;
    forall i | 0 <= i < 64 ensures Bit(ONES, i) && !Bit(0, i) { ConstBit(i); }
    if forall i | 0 <= i < 64 :: !Bit(w, i) { SameBits(w, 0); }
    if forall i | 0 <= i < 64 :: Bit(w, i) { SameBits(w, ONES); }
  }

  /* ---------- counting zeros ---------- */

  /** clz32: a binary search for the leading one bit. */
  method Clz32(val: bv32) returns (cnt: bv7)
    ensures cnt <= 32 && (val == 0 <==> cnt == 32)
    ensures val != 0 ==> val >> (31 - cnt) == 1
  {
    var v := val;
    cnt := 0;
    if v & 0xFFFF0000 == 0 { cnt, v := cnt + 16, v << 16; }
    if v & 0xFF000000 == 0 { cnt, v := cnt + 8, v << 8; }
    if v & 0xF0000000 == 0 { cnt, v := cnt + 4, v << 4; }
    if v & 0xC0000000 == 0 { cnt, v := cnt + 2, v << 2; }
    if v & 0x80000000 == 0 { cnt, v := cnt + 1, v << 1; }
    if v & 0x80000000 == 0 { cnt := cnt + 1; }
  }

  /** ctz32: a binary search for the trailing one bit. */
  method Ctz32(val: bv32) returns (cnt: bv7)
    ensures cnt <= 32 && (val == 0 <==> cnt == 32)
    ensures val != 0 ==> (val >> cnt) & 1 == 1 && val << (32 - cnt) == 0
  {
    var v := val;
    cnt := 0;
    if v & 0x0000FFFF == 0 { cnt, v := cnt + 16, v >> 16; }
    if v & 0x000000FF == 0 { cnt, v := cnt + 8, v >> 8; }
    if v & 0x0000000F == 0 { cnt, v := cnt + 4, v >> 4; }
    if v & 0x00000003 == 0 { cnt, v := cnt + 2, v >> 2; }
    if v & 0x00000001 == 0 { cnt, v := cnt + 1, v >> 1; }
    if v & 0x00000001 == 0 { cnt := cnt + 1; }
  }

  /** clz64: the number of zero bits above the highest one, 64 for zero. */
  method Clz64(val: Word) returns (n: nat)
    ensures n <= 64 && (n == 64 <==> val == 0)
    ensures n < 64 ==> Bit(val, 63 - n)
    ensures forall i | 64 - n <= i < 64 :: !Bit(val, i)
  {
    var cnt: bv7 := 0;
    var v := val;
    if v >> 32 == 0 {
      cnt := cnt + 32;
    } else {
      v := v >> 32;
    }
    var low := Clz32((v & 0xFFFF_FFFF) as bv32);
    cnt := cnt + low;
    n := cnt as nat;
    PosBack(cnt);
    ClzBits(val, cnt, n);
  }

  lemma {:induction false} ClzBits(val: Word, cnt: bv7, n: nat)
    requires cnt <= 64 && n == cnt as nat && n as bv7 == cnt && n <= 64
    requires val == 0 <==> cnt == 64
    requires val != 0 ==> val >> (63 - cnt) == 1
    ensures n == 64 <==> val == 0
    ensures n < 64 ==> Bit(val, 63 - n)
    ensures forall i | 64 - n <= i < 64 :: !Bit(val, i)
  {
    hide Bit;
    if val == 0 {
      forall i | 0 <= i < 64 ensures !Bit(val, i) { ConstBit(i); }
    } else {
      Below64(cnt, n);
      ClzTop(val, cnt, n);
      forall i | 64 - n <= i < 64 ensures !Bit(val, i) { ClzAbove(val, cnt, n, i); }
    }
  }

  lemma {:induction false} Below64(cnt: bv7, n: nat)
    requires cnt <= 64 && cnt != 64 && n == cnt as nat && n as bv7 == cnt && n <= 64
    ensures n < 64 && cnt < 64
  {}

  lemma {:induction false} ClzTop(val: Word, cnt: bv7, n: nat)
    requires cnt < 64 && n < 64 && n as bv7 == cnt && val >> (63 - cnt) == 1
    ensures (63 - n) as bv7 == 63 - cnt && Bit(val, 63 - n)
  {
    TopPos(cnt, n);
    RawClz(val, cnt, 0);
  }

  lemma {:induction false} TopPos(cnt: bv7, n: nat)
    requires n < 64 && n as bv7 == cnt
    ensures (63 - n) as bv7 == 63 - cnt
  {
    PosAdd(63 - n, n);
  }

  lemma {:induction false} ClzAbove(val: Word, cnt: bv7, n: nat, i: nat)
    requires cnt < 64 && n < 64 && n as bv7 == cnt && val >> (63 - cnt) == 1 && 63 - n < i < 64
    ensures !Bit(val, i)
  {
    ClzTop(val, cnt, n);
    PosBound(i);
    PosOrder(63 - n, i);
    RawClz(val, cnt, i as bv7);
  }

  /** ctz64: the number of zero bits below the lowest one, 64 for zero. */
  method Ctz64(val: Word) returns (n: nat)
    ensures n <= 64 && (n == 64 <==> val == 0)
    ensures n < 64 ==> Bit(val, n)
    ensures forall i | 0 <= i < n :: !Bit(val, i)
  {
    var cnt: bv7 := 0;
    var v := val;
    if v & 0xFFFF_FFFF == 0 {
      cnt := cnt + 32;
      v := v >> 32;
    }
    var low := Ctz32((v & 0xFFFF_FFFF) as bv32);
    cnt := cnt + low;
    n := cnt as nat;
    PosBack(cnt);
    CtzBits(val, cnt, n);
  }

  lemma {:induction false} CtzBits(val: Word, cnt: bv7, n: nat)
    requires cnt <= 64 && n == cnt as nat && n as bv7 == cnt && n <= 64
    requires val == 0 <==> cnt == 64
    requires val != 0 ==> (val >> cnt) & 1 == 1 && val << (64 - cnt) == 0
    ensures n == 64 <==> val == 0
    ensures n < 64 ==> Bit(val, n)
    ensures forall i | 0 <= i < n :: !Bit(val, i)
  {
    if val == 0 {
      forall i | 0 <= i < 64 ensures !Bit(val, i) { ConstBit(i); }
    } else {
      if n == 64 { assert false; }
      PosBound(n);
      forall i | 0 <= i < n ensures !Bit(val, i) {
        PosBound(i);
        PosOrder(i, n);
        RawCtz(val, cnt, i as bv7);
      }
    }
  }
}
