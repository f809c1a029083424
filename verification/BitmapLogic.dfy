/** The whole-bitmap tests and combinations of bitmap.c, with the one-word fast paths of bitmap.h. */
module BitmapLogic {
  import opened Words
  import opened BitSearch
  import opened Bitmap

  /** A test word per word: `w` marks the positions below `hi` of word `p` that are `bad`. */
  ghost predicate Marks(bad: nat -> bool, w: Word, p: nat, hi: nat) {
    forall i | 0 <= i < 64 :: Bit(w, i) <==> 64 * p + i < hi && bad(64 * p + i)
  }

  ghost predicate NoneBad(bad: nat -> bool, lo: nat, hi: nat) {
    forall j: nat | lo <= j < hi :: !bad(j)
  }

  /** A zero test word means no bad position in its part of the bitmap; any other word means one. */
  lemma {:induction false} TestWord(bad: nat -> bool, w: Word, p: nat, hi: nat)
    requires Marks(bad, w, p, hi)
    ensures w == 0 ==> NoneBad(bad, 64 * p, if hi < 64 * p + 64 then hi else 64 * p + 64)
    ensures w != 0 ==> exists j: nat :: j < hi && bad(j)
  {
    hide Bit;
    ZeroBits(w);
    if w == 0 {
      forall j: nat | 64 * p <= j < hi && j < 64 * p + 64 ensures !bad(j) {
        assert !Bit(w, j - 64 * p) && 64 * p + (j - 64 * p) == j;
      }
    } else {
      var i :| 0 <= i < 64 && Bit(w, i);
      assert bad(64 * p + i);
    }
  }

  /* the positions each test is about */

  function Set(a: seq<Word>): nat -> bool {
    (i: nat) => i < 64 * |a| && BitAt(a, i)
  }

  function Unset(a: seq<Word>): nat -> bool {
    (i: nat) => i < 64 * |a| && !BitAt(a, i)
  }

  function Differ(a: seq<Word>, b: seq<Word>): nat -> bool {
    (i: nat) => i < 64 * |a| && i < 64 * |b| && BitAt(a, i) != BitAt(b, i)
  }

  function Common(a: seq<Word>, b: seq<Word>): nat -> bool {
    (i: nat) => i < 64 * |a| && i < 64 * |b| && BitAt(a, i) && BitAt(b, i)
  }

  /** The bits of word `p` that count when the bitmap has `bits` bits. */
  ghost predicate Counted(mask: Word, p: nat, bits: nat) {
    forall i | 0 <= i < 64 :: Bit(mask, i) <==> 64 * p + i < bits
  }

  lemma {:induction false} CountedLast(bits: nat)
    requires bits > 0
    ensures bits % 64 != 0 ==> Counted(LastMask(bits), bits / 64, bits)
    ensures bits <= 64 ==> Counted(LastMask(bits), 0, bits)
  {
    hide Bit, LastMask;
  }

  lemma {:induction false} CountedAll(p: nat, bits: nat)
    requires 64 * p + 64 <= bits
    ensures Counted(ONES, p, bits)
  {
    hide Bit;
    ConstBits();
  }

  lemma {:induction false} MarkSet(a: seq<Word>, p: nat, mask: Word, bits: nat)
    requires p < |a| && Counted(mask, p, bits)
    ensures Marks(Set(a), And(a[p], mask), p, bits)
  {
    hide Bit, BitAt, And;
    forall i | 0 <= i < 64 ensures Bit(And(a[p], mask), i) <==> 64 * p + i < bits && Set(a)(64 * p + i) {
      Position(a, p, i);
    }
  }

  lemma {:induction false} MarkUnset(a: seq<Word>, p: nat, mask: Word, bits: nat)
    requires p < |a| && Counted(mask, p, bits)
    ensures Marks(Unset(a), And(Not(a[p]), mask), p, bits)
  {
    hide Bit, BitAt, And, Not;
    forall i | 0 <= i < 64 ensures Bit(And(Not(a[p]), mask), i) <==> 64 * p + i < bits && Unset(a)(64 * p + i) {
      Position(a, p, i);
    }
  }

  lemma {:induction false} MarkDiffer(a: seq<Word>, b: seq<Word>, p: nat, mask: Word, bits: nat)
    requires p < |a| && p < |b| && Counted(mask, p, bits)
    ensures Marks(Differ(a, b), And(Xor(a[p], b[p]), mask), p, bits)
  {
    hide Bit, BitAt, And, Xor;
    forall i | 0 <= i < 64
      ensures Bit(And(Xor(a[p], b[p]), mask), i) <==> 64 * p + i < bits && Differ(a, b)(64 * p + i)
    {
      Position(a, p, i);
      Position(b, p, i);
    }
  }

  lemma {:induction false} MarkCommon(a: seq<Word>, b: seq<Word>, p: nat, mask: Word, bits: nat)
    requires p < |a| && p < |b| && Counted(mask, p, bits)
    ensures Marks(Common(a, b), And(And(a[p], b[p]), mask), p, bits)
  {
    hide Bit, BitAt, And;
    forall i | 0 <= i < 64
      ensures Bit(And(And(a[p], b[p]), mask), i) <==> 64 * p + i < bits && Common(a, b)(64 * p + i)
    {
      Position(a, p, i);
      Position(b, p, i);
    }
  }

  lemma {:induction false} AndOnes(w: Word)
    ensures And(w, ONES) == w
  {}

  lemma {:induction false} NotZeroOnes(w: Word)
    ensures And(Not(w), ONES) == Not(w)
  {}

  lemma {:induction false} XorZero(a: Word, b: Word)
    ensures Xor(a, b) == 0 <==> a == b
  {}

  /** The four tests on word `p`, whole or masked: zero moves on, anything else decides. */
  lemma {:induction false} TestWords(a: seq<Word>, b: seq<Word>, p: nat, mask: Word, bits: nat)
    requires p < |a| && p < |b| && Counted(mask, p, bits)
    ensures Decides(Set(a), And(a[p], mask), p, bits)
    ensures Decides(Unset(a), And(Not(a[p]), mask), p, bits)
    ensures Decides(Differ(a, b), And(Xor(a[p], b[p]), mask), p, bits)
    ensures Decides(Common(a, b), And(And(a[p], b[p]), mask), p, bits)
  {
    hide *;
    MarkSet(a, p, mask, bits);
    MarkUnset(a, p, mask, bits);
    MarkDiffer(a, b, p, mask, bits);
    MarkCommon(a, b, p, mask, bits);
    Decision(Set(a), And(a[p], mask), p, bits);
    Decision(Unset(a), And(Not(a[p]), mask), p, bits);
    Decision(Differ(a, b), And(Xor(a[p], b[p]), mask), p, bits);
    Decision(Common(a, b), And(And(a[p], b[p]), mask), p, bits);
  }

  ghost predicate Decides(bad: nat -> bool, w: Word, p: nat, bits: nat) {
    && (w == 0 ==> forall lo: nat | NoneBad(bad, lo, 64 * p) ::
        NoneBad(bad, lo, if bits < 64 * p + 64 then bits else 64 * p + 64))
    && (w != 0 ==> !NoneBad(bad, 0, bits))
  }

  lemma {:induction false} Decision(bad: nat -> bool, w: Word, p: nat, bits: nat)
    requires Marks(bad, w, p, bits)
    ensures Decides(bad, w, p, bits)
  {
    hide Marks;
    TestWord(bad, w, p, bits);
  }

  /** The same for a word that lies inside the bitmap as a whole, where the source applies no mask. */
  lemma {:induction false} TestWhole(a: seq<Word>, b: seq<Word>, p: nat, bits: nat)
    requires p < |a| && p < |b| && 64 * p + 64 <= bits
    ensures Decides(Set(a), a[p], p, bits)
    ensures Decides(Unset(a), Not(a[p]), p, bits)
    ensures Decides(Differ(a, b), Xor(a[p], b[p]), p, bits)
    ensures Decides(Common(a, b), And(a[p], b[p]), p, bits)
  {
    hide *;
    CountedAll(p, bits);
    AndOnes(a[p]);
    NotZeroOnes(a[p]);
    AndOnes(Xor(a[p], b[p]));
    AndOnes(And(a[p], b[p]));
    TestWords(a, b, p, ONES, bits);
  }

  /** A one-word bitmap. */
  lemma {:induction false} TestOnly(a: seq<Word>, b: seq<Word>, bits: nat)
    requires |a| > 0 && |b| > 0 && 0 < bits <= 64
    ensures And(a[0], LastMask(bits)) == 0 <==> NoneBad(Set(a), 0, bits)
    ensures And(Not(a[0]), LastMask(bits)) == 0 <==> NoneBad(Unset(a), 0, bits)
    ensures And(Xor(a[0], b[0]), LastMask(bits)) == 0 <==> NoneBad(Differ(a, b), 0, bits)
    ensures And(And(a[0], b[0]), LastMask(bits)) == 0 <==> NoneBad(Common(a, b), 0, bits)
  {
    hide *;
    CountedLast(bits);
    TestWords(a, b, 0, LastMask(bits), bits);
    Only(Set(a), And(a[0], LastMask(bits)), bits);
    Only(Unset(a), And(Not(a[0]), LastMask(bits)), bits);
    Only(Differ(a, b), And(Xor(a[0], b[0]), LastMask(bits)), bits);
    Only(Common(a, b), And(And(a[0], b[0]), LastMask(bits)), bits);
  }

  lemma {:induction false} Only(bad: nat -> bool, w: Word, bits: nat)
    requires Decides(bad, w, 0, bits) && bits <= 64
    ensures w == 0 <==> NoneBad(bad, 0, bits)
  {
    assert NoneBad(bad, 0, 64 * 0);
  }

  lemma {:induction false} Start(bad: nat -> bool)
    ensures NoneBad(bad, 0, 0)
  {}

  lemma {:induction false} Moved(bad: nat -> bool, w: Word, p: nat, bits: nat)
    requires Decides(bad, w, p, bits) && w == 0 && NoneBad(bad, 0, 64 * p)
    ensures 64 * p + 64 <= bits ==> NoneBad(bad, 0, 64 * (p + 1))
    ensures bits < 64 * p + 64 ==> NoneBad(bad, 0, bits)
  {
    hide NoneBad;
  }

  lemma {:induction false} Stopped(bad: nat -> bool, w: Word, p: nat, bits: nat)
    requires Decides(bad, w, p, bits) && w != 0
    ensures !NoneBad(bad, 0, bits)
  {}

  /* what the four absences say bit by bit */

  lemma {:induction false} ReadSet(a: seq<Word>, n: nat)
    requires n <= 64 * |a|
    ensures NoneBad(Set(a), 0, n) <==> forall i | 0 <= i < n :: !BitAt(a, i)
  {
    hide BitAt;
    if NoneBad(Set(a), 0, n) {
      forall i | 0 <= i < n ensures !BitAt(a, i) { assert !Set(a)(i); }
    }
  }

  lemma {:induction false} ReadUnset(a: seq<Word>, n: nat)
    requires n <= 64 * |a|
    ensures NoneBad(Unset(a), 0, n) <==> forall i | 0 <= i < n :: BitAt(a, i)
  {
    hide BitAt;
    if NoneBad(Unset(a), 0, n) {
      forall i | 0 <= i < n ensures BitAt(a, i) { assert !Unset(a)(i); }
    }
  }

  lemma {:induction false} ReadDiffer(a: seq<Word>, b: seq<Word>, n: nat)
    requires n <= 64 * |a| && n <= 64 * |b|
    ensures NoneBad(Differ(a, b), 0, n) <==> forall i | 0 <= i < n :: BitAt(a, i) == BitAt(b, i)
  {
    hide BitAt;
    if NoneBad(Differ(a, b), 0, n) {
      forall i | 0 <= i < n ensures BitAt(a, i) == BitAt(b, i) { assert !Differ(a, b)(i); }
    }
  }

  lemma {:induction false} ReadCommon(a: seq<Word>, b: seq<Word>, n: nat)
    requires n <= 64 * |a| && n <= 64 * |b|
    ensures NoneBad(Common(a, b), 0, n) <==> forall i | 0 <= i < n :: !(BitAt(a, i) && BitAt(b, i))
  {
    hide BitAt;
    if NoneBad(Common(a, b), 0, n) {
      forall i | 0 <= i < n ensures !(BitAt(a, i) && BitAt(b, i)) { assert !Common(a, b)(i); }
    }
  }

  /* ---------- the tests ---------- */

  /** slow_bitmap_empty */
  method SlowEmpty(bitmap: array<Word>, bits: nat) returns (r: bool)
    requires bits <= 64 * bitmap.Length
    ensures r <==> NoneBad(Set(bitmap[..]), 0, bits)
  {
    hide *;
    ghost var a, bad := bitmap[..], Set(bitmap[..]);
    var k: nat, lim := 0, bits / 64;
    Start(bad);
    while k < lim
      invariant k <= lim && NoneBad(bad, 0, 64 * k)
    {
      TestWhole(a, a, k, bits);
      if bitmap[k] != 0 {
        Stopped(bad, a[k], k, bits);
        return false;
      }
      Moved(bad, a[k], k, bits);
      k := k + 1;
    }
    if bits % 64 != 0 {
      CountedLast(bits);
      TestWords(a, a, k, LastMask(bits), bits);
      if And(bitmap[k], LastMask(bits)) != 0 {
        Stopped(bad, And(a[k], LastMask(bits)), k, bits);
        return false;
      }
      Moved(bad, And(a[k], LastMask(bits)), k, bits);
    }
    return true;
  }

  /** slow_bitmap_full */
  method SlowFull(bitmap: array<Word>, bits: nat) returns (r: bool)
    requires bits <= 64 * bitmap.Length
    ensures r <==> NoneBad(Unset(bitmap[..]), 0, bits)
  {
    hide *;
    ghost var a, bad := bitmap[..], Unset(bitmap[..]);
    var k: nat, lim := 0, bits / 64;
    Start(bad);
    while k < lim
      invariant k <= lim && NoneBad(bad, 0, 64 * k)
    {
      TestWhole(a, a, k, bits);
      if Not(bitmap[k]) != 0 {
        Stopped(bad, Not(a[k]), k, bits);
        return false;
      }
      Moved(bad, Not(a[k]), k, bits);
      k := k + 1;
    }
    if bits % 64 != 0 {
      CountedLast(bits);
      TestWords(a, a, k, LastMask(bits), bits);
      if And(Not(bitmap[k]), LastMask(bits)) != 0 {
        Stopped(bad, And(Not(a[k]), LastMask(bits)), k, bits);
        return false;
      }
      Moved(bad, And(Not(a[k]), LastMask(bits)), k, bits);
    }
    return true;
  }

  /** slow_bitmap_equal */
  method SlowEqual(bitmap1: array<Word>, bitmap2: array<Word>, bits: nat) returns (r: bool)
    requires bits <= 64 * bitmap1.Length && bits <= 64 * bitmap2.Length
    ensures r <==> NoneBad(Differ(bitmap1[..], bitmap2[..]), 0, bits)
  {
    hide *;
    ghost var a, b, bad := bitmap1[..], bitmap2[..], Differ(bitmap1[..], bitmap2[..]);
    var k: nat, lim := 0, bits / 64;
    Start(bad);
    while k < lim
      invariant k <= lim && NoneBad(bad, 0, 64 * k)
    {
      TestWhole(a, b, k, bits);
      XorZero(a[k], b[k]);
      if bitmap1[k] != bitmap2[k] {
        Stopped(bad, Xor(a[k], b[k]), k, bits);
        return false;
      }
      Moved(bad, Xor(a[k], b[k]), k, bits);
      k := k + 1;
    }
    if bits % 64 != 0 {
      CountedLast(bits);
      TestWords(a, b, k, LastMask(bits), bits);
      if And(Xor(bitmap1[k], bitmap2[k]), LastMask(bits)) != 0 {
        Stopped(bad, And(Xor(a[k], b[k]), LastMask(bits)), k, bits);
        return false;
      }
      Moved(bad, And(Xor(a[k], b[k]), LastMask(bits)), k, bits);
    }
    return true;
  }

  /** slow_bitmap_intersects */
  method SlowIntersects(bitmap1: array<Word>, bitmap2: array<Word>, bits: nat) returns (r: bool)
    requires bits <= 64 * bitmap1.Length && bits <= 64 * bitmap2.Length
    ensures r <==> !NoneBad(Common(bitmap1[..], bitmap2[..]), 0, bits)
  {
    hide *;
    ghost var a, b, bad := bitmap1[..], bitmap2[..], Common(bitmap1[..], bitmap2[..]);
    var k: nat, lim := 0, bits / 64;
    Start(bad);
    while k < lim
      invariant k <= lim && NoneBad(bad, 0, 64 * k)
    {
      TestWhole(a, b, k, bits);
      if And(bitmap1[k], bitmap2[k]) != 0 {
        Stopped(bad, And(a[k], b[k]), k, bits);
        return true;
      }
      Moved(bad, And(a[k], b[k]), k, bits);
      k := k + 1;
    }
    if bits % 64 != 0 {
      CountedLast(bits);
      TestWords(a, b, k, LastMask(bits), bits);
      if And(And(bitmap1[k], bitmap2[k]), LastMask(bits)) != 0 {
        Stopped(bad, And(And(a[k], b[k]), LastMask(bits)), k, bits);
        return true;
      }
      Moved(bad, And(And(a[k], b[k]), LastMask(bits)), k, bits);
    }
    return false;
  }

  /** The bits that the fast paths of bitmap.h look at: for a bitmap of no bits still a whole word. */
  function Used(nbits: nat): nat {
    if nbits == 0 then 64 else nbits
  }

  lemma {:induction false} UsedMask(nbits: nat)
    ensures LastMask(nbits) == LastMask(Used(nbits)) && (nbits <= 64 <==> Used(nbits) <= 64)
    ensures nbits > 64 ==> Used(nbits) == nbits
    ensures 0 < Used(nbits)
  {}

  /** bitmap_empty: one word at once, else the loop; the answer is the same. */
  method BitmapEmpty(src: array<Word>, nbits: nat) returns (r: bool)
    requires Used(nbits) <= 64 * src.Length
    ensures r <==> forall i | 0 <= i < Used(nbits) :: !BitAt(src[..], i)
  {
    hide *;
    ReadSet(src[..], Used(nbits));
    UsedMask(nbits);
    if nbits <= 64 {
      TestOnly(src[..], src[..], Used(nbits));
      r := And(src[0], LastMask(nbits)) == 0;
    } else {
      r := SlowEmpty(src, nbits);
    }
  }

  /** bitmap_full */
  method BitmapFull(src: array<Word>, nbits: nat) returns (r: bool)
    requires Used(nbits) <= 64 * src.Length
    ensures r <==> forall i | 0 <= i < Used(nbits) :: BitAt(src[..], i)
  {
    hide *;
    ReadUnset(src[..], Used(nbits));
    UsedMask(nbits);
    if nbits <= 64 {
      TestOnly(src[..], src[..], Used(nbits));
      r := And(Not(src[0]), LastMask(nbits)) == 0;
    } else {
      r := SlowFull(src, nbits);
    }
  }

  /** bitmap_equal */
  method BitmapEqual(src1: array<Word>, src2: array<Word>, nbits: nat) returns (r: bool)
    requires Used(nbits) <= 64 * src1.Length && Used(nbits) <= 64 * src2.Length
    ensures r <==> forall i | 0 <= i < Used(nbits) :: BitAt(src1[..], i) == BitAt(src2[..], i)
  {
    hide *;
    ReadDiffer(src1[..], src2[..], Used(nbits));
    UsedMask(nbits);
    if nbits <= 64 {
      TestOnly(src1[..], src2[..], Used(nbits));
      r := And(Xor(src1[0], src2[0]), LastMask(nbits)) == 0;
    } else {
      r := SlowEqual(src1, src2, nbits);
    }
  }

  /** bitmap_intersects */
  method BitmapIntersects(src1: array<Word>, src2: array<Word>, nbits: nat) returns (r: bool)
    requires Used(nbits) <= 64 * src1.Length && Used(nbits) <= 64 * src2.Length
    ensures r <==> exists i | 0 <= i < Used(nbits) :: BitAt(src1[..], i) && BitAt(src2[..], i)
  {
    hide *;
    ReadCommon(src1[..], src2[..], Used(nbits));
    UsedMask(nbits);
    if nbits <= 64 {
      TestOnly(src1[..], src2[..], Used(nbits));
      r := And(And(src1[0], src2[0]), LastMask(nbits)) != 0;
    } else {
      r := SlowIntersects(src1, src2, nbits);
    }
  }
}
