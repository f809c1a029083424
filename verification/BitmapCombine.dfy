/** The bitmap operations that write a destination: complement, and, or, xor, andnot. */
module BitmapCombine {
  import opened Words
  import opened BitSearch
  import opened BitOps
  import opened Bitmap
  import opened BitmapLogic

  /** BITS_TO_LONGS */
  function Longs(bits: nat): (n: nat)
    ensures 64 * n - 64 < bits <= 64 * n
  {
    (bits + 63) / 64
  }

  /** The first `n` words of `d` combine those of `a` and `b` bit by bit; the others are those of `d0`. */
  ghost predicate Combined(d0: seq<Word>, d: seq<Word>, a: seq<Word>, b: seq<Word>, op: (bool, bool) -> bool, n: nat) {
    && |d| == |d0| && n <= |d| && n <= |a| && n <= |b|
    && forall i | 0 <= i < 64 * |d| :: BitAt(d, i) == if i < 64 * n then op(BitAt(a, i), BitAt(b, i)) else BitAt(d0, i)
  }

  const AND: (bool, bool) -> bool := (x, y) => x && y
  const OR: (bool, bool) -> bool := (x, y) => x || y
  const XOR: (bool, bool) -> bool := (x, y) => x != y
  const ANDNOT: (bool, bool) -> bool := (x, y) => x && !y
  const NOT: (bool, bool) -> bool := (x, y) => !x

  lemma {:induction false} NothingCombined(d0: seq<Word>, a: seq<Word>, b: seq<Word>, op: (bool, bool) -> bool)
    ensures Combined(d0, d0, a, b, op, 0)
  {}

  /** One more word. */
  lemma {:induction false} CombineWord(d0: seq<Word>, d: seq<Word>, a: seq<Word>, b: seq<Word>,
                                       op: (bool, bool) -> bool, k: nat, w: Word)
    requires Combined(d0, d, a, b, op, k) && k < |d| && k < |a| && k < |b|
    requires forall i | 0 <= i < 64 :: Bit(w, i) == op(Bit(a[k], i), Bit(b[k], i))
    ensures Combined(d0, d[k := w], a, b, op, k + 1)
  {
    hide Bit;
    var e := d[k := w];
    forall i | 0 <= i < 64 * |d|
      ensures BitAt(e, i) == if i < 64 * (k + 1) then op(BitAt(a, i), BitAt(b, i)) else BitAt(d0, i)
    {
      if i / 64 == k {
        assert i < 64 * (k + 1) && BitAt(e, i) == Bit(w, i % 64);
      } else {
        assert BitAt(e, i) == BitAt(d, i);
      }
    }
  }

  lemma {:induction false} CombineOps(d0: seq<Word>, d: seq<Word>, a: seq<Word>, b: seq<Word>, k: nat)
    requires k < |d| && k < |a| && k < |b|
    ensures Combined(d0, d, a, b, AND, k) ==> Combined(d0, d[k := And(a[k], b[k])], a, b, AND, k + 1)
    ensures Combined(d0, d, a, b, OR, k) ==> Combined(d0, d[k := Or(a[k], b[k])], a, b, OR, k + 1)
    ensures Combined(d0, d, a, b, XOR, k) ==> Combined(d0, d[k := Xor(a[k], b[k])], a, b, XOR, k + 1)
    ensures Combined(d0, d, a, b, ANDNOT, k) ==> Combined(d0, d[k := And(a[k], Not(b[k]))], a, b, ANDNOT, k + 1)
    ensures Combined(d0, d, a, b, NOT, k) ==> Combined(d0, d[k := Not(a[k])], a, b, NOT, k + 1)
  {
    hide Bit, And, Or, Xor, Not, Combined;
    if Combined(d0, d, a, b, AND, k) { CombineWord(d0, d, a, b, AND, k, And(a[k], b[k])); }
    if Combined(d0, d, a, b, OR, k) { CombineWord(d0, d, a, b, OR, k, Or(a[k], b[k])); }
    if Combined(d0, d, a, b, XOR, k) { CombineWord(d0, d, a, b, XOR, k, Xor(a[k], b[k])); }
    if Combined(d0, d, a, b, ANDNOT, k) { CombineWord(d0, d, a, b, ANDNOT, k, And(a[k], Not(b[k]))); }
    if Combined(d0, d, a, b, NOT, k) { CombineWord(d0, d, a, b, NOT, k, Not(a[k])); }
  }

  /* ---------- the value that and and andnot return ---------- */

  function Surplus(a: seq<Word>, b: seq<Word>): nat -> bool {
    (i: nat) => i < 64 * |a| && i < 64 * |b| && BitAt(a, i) && !BitAt(b, i)
  }

  lemma {:induction false} MarkSurplus(a: seq<Word>, b: seq<Word>, p: nat, bits: nat)
    requires p < |a| && p < |b| && 64 * p + 64 <= bits
    ensures Decides(Surplus(a, b), And(a[p], Not(b[p])), p, bits)
  {
    hide Bit, BitAt, And, Not, Decides;
    var w := And(a[p], Not(b[p]));
    forall i | 0 <= i < 64 ensures Bit(w, i) <==> 64 * p + i < bits && Surplus(a, b)(64 * p + i) {
      Position(a, p, i);
      Position(b, p, i);
    }
    Decision(Surplus(a, b), w, p, bits);
  }

  lemma {:induction false} OrZero(x: Word, y: Word)
    ensures Or(x, y) == 0 <==> x == 0 && y == 0
  {}

  /** `result |= w` keeps: result is zero exactly while nothing was found. */
  lemma {:induction false} Gather(bad: nat -> bool, result: Word, w: Word, p: nat)
    requires Decides(bad, w, p, 64 * (p + 1)) && (result == 0 <==> NoneBad(bad, 0, 64 * p))
    ensures Or(result, w) == 0 <==> NoneBad(bad, 0, 64 * (p + 1))
  {
    hide Or;
    OrZero(result, w);
  }

  /** slow_bitmap_and */
  method SlowAnd(dst: array<Word>, bitmap1: array<Word>, bitmap2: array<Word>, bits: nat) returns (r: bool)
    requires Longs(bits) <= dst.Length && Longs(bits) <= bitmap1.Length && Longs(bits) <= bitmap2.Length
    modifies dst
    ensures Combined(old(dst[..]), dst[..], old(bitmap1[..]), old(bitmap2[..]), AND, Longs(bits))
    ensures r <==> !NoneBad(Common(old(bitmap1[..]), old(bitmap2[..])), 0, 64 * Longs(bits))
  {
    hide *;
    ghost var d, a, b := dst[..], bitmap1[..], bitmap2[..];
    var nr, k: nat := Longs(bits), 0;
    var result: Word := 0;
    Start(Common(a, b));
    NothingCombined(d, a, b, AND);
    while k < nr
      invariant k <= nr && Combined(d, dst[..], a, b, AND, k)
      invariant forall j | k <= j < bitmap1.Length :: bitmap1[j] == a[j]
      invariant forall j | k <= j < bitmap2.Length :: bitmap2[j] == b[j]
      invariant result == 0 <==> NoneBad(Common(a, b), 0, 64 * k)
    {
      CombineOps(d, dst[..], a, b, k);
      TestWhole(a, b, k, 64 * (k + 1));
      Gather(Common(a, b), result, And(a[k], b[k]), k);
      dst[k] := And(bitmap1[k], bitmap2[k]);
      result := Or(result, dst[k]);
      k := k + 1;
    }
    return result != 0;
  }

  /** slow_bitmap_or */
  method SlowOr(dst: array<Word>, bitmap1: array<Word>, bitmap2: array<Word>, bits: nat)
    requires Longs(bits) <= dst.Length && Longs(bits) <= bitmap1.Length && Longs(bits) <= bitmap2.Length
    modifies dst
    ensures Combined(old(dst[..]), dst[..], old(bitmap1[..]), old(bitmap2[..]), OR, Longs(bits))
  {
    hide *;
    ghost var d, a, b := dst[..], bitmap1[..], bitmap2[..];
    var nr, k: nat := Longs(bits), 0;
    NothingCombined(d, a, b, OR);
    while k < nr
      invariant k <= nr && Combined(d, dst[..], a, b, OR, k)
      invariant forall j | k <= j < bitmap1.Length :: bitmap1[j] == a[j]
      invariant forall j | k <= j < bitmap2.Length :: bitmap2[j] == b[j]
    {
      CombineOps(d, dst[..], a, b, k);
      dst[k] := Or(bitmap1[k], bitmap2[k]);
      k := k + 1;
    }
  }

  /** slow_bitmap_xor */
  method SlowXor(dst: array<Word>, bitmap1: array<Word>, bitmap2: array<Word>, bits: nat)
    requires Longs(bits) <= dst.Length && Longs(bits) <= bitmap1.Length && Longs(bits) <= bitmap2.Length
    modifies dst
    ensures Combined(old(dst[..]), dst[..], old(bitmap1[..]), old(bitmap2[..]), XOR, Longs(bits))
  {
    hide *;
    ghost var d, a, b := dst[..], bitmap1[..], bitmap2[..];
    var nr, k: nat := Longs(bits), 0;
    NothingCombined(d, a, b, XOR);
    while k < nr
      invariant k <= nr && Combined(d, dst[..], a, b, XOR, k)
      invariant forall j | k <= j < bitmap1.Length :: bitmap1[j] == a[j]
      invariant forall j | k <= j < bitmap2.Length :: bitmap2[j] == b[j]
    {
      CombineOps(d, dst[..], a, b, k);
      dst[k] := Xor(bitmap1[k], bitmap2[k]);
      k := k + 1;
    }
  }

  /** slow_bitmap_andnot */
  method SlowAndNot(dst: array<Word>, bitmap1: array<Word>, bitmap2: array<Word>, bits: nat) returns (r: bool)
    requires Longs(bits) <= dst.Length && Longs(bits) <= bitmap1.Length && Longs(bits) <= bitmap2.Length
    modifies dst
    ensures Combined(old(dst[..]), dst[..], old(bitmap1[..]), old(bitmap2[..]), ANDNOT, Longs(bits))
    ensures r <==> !NoneBad(Surplus(old(bitmap1[..]), old(bitmap2[..])), 0, 64 * Longs(bits))
  {
    hide *;
    ghost var d, a, b := dst[..], bitmap1[..], bitmap2[..];
    var nr, k: nat := Longs(bits), 0;
    var result: Word := 0;
    Start(Surplus(a, b));
    NothingCombined(d, a, b, ANDNOT);
    while k < nr
      invariant k <= nr && Combined(d, dst[..], a, b, ANDNOT, k)
      invariant forall j | k <= j < bitmap1.Length :: bitmap1[j] == a[j]
      invariant forall j | k <= j < bitmap2.Length :: bitmap2[j] == b[j]
      invariant result == 0 <==> NoneBad(Surplus(a, b), 0, 64 * k)
    {
      CombineOps(d, dst[..], a, b, k);
      MarkSurplus(a, b, k, 64 * (k + 1));
      Gather(Surplus(a, b), result, And(a[k], Not(b[k])), k);
      dst[k] := And(bitmap1[k], Not(bitmap2[k]));
      result := Or(result, dst[k]);
      k := k + 1;
    }
    return result != 0;
  }

  lemma {:induction false} SingleWord(bad: nat -> bool, w: Word)
    requires Decides(bad, w, 0, 64)
    ensures w == 0 <==> NoneBad(bad, 0, 64)
  {
    Only(bad, w, 64);
  }

  lemma {:induction false} OneLong(nbits: nat)
    ensures nbits <= 64 ==> Longs(Used(nbits)) == 1
  {}

  /** bitmap_and: one word at once, else the loop */
  method BitmapAnd(dst: array<Word>, src1: array<Word>, src2: array<Word>, nbits: nat) returns (r: bool)
    requires Longs(Used(nbits)) <= dst.Length && Longs(Used(nbits)) <= src1.Length && Longs(Used(nbits)) <= src2.Length
    modifies dst
    ensures Combined(old(dst[..]), dst[..], old(src1[..]), old(src2[..]), AND, Longs(Used(nbits)))
    ensures r <==> !NoneBad(Common(old(src1[..]), old(src2[..])), 0, 64 * Longs(Used(nbits)))
  {
    hide *;
    UsedMask(nbits);
    OneLong(nbits);
    if nbits <= 64 {
      ghost var d, a, b := dst[..], src1[..], src2[..];
      NothingCombined(d, a, b, AND);
      CombineOps(d, d, a, b, 0);
      TestWhole(a, b, 0, 64);
      SingleWord(Common(a, b), And(a[0], b[0]));
      dst[0] := And(src1[0], src2[0]);
      return dst[0] != 0;
    } else {
      r := SlowAnd(dst, src1, src2, nbits);
    }
  }

  /** bitmap_or: one word at once, else the loop */
  method BitmapOr(dst: array<Word>, src1: array<Word>, src2: array<Word>, nbits: nat)
    requires Longs(Used(nbits)) <= dst.Length && Longs(Used(nbits)) <= src1.Length && Longs(Used(nbits)) <= src2.Length
    modifies dst
    ensures Combined(old(dst[..]), dst[..], old(src1[..]), old(src2[..]), OR, Longs(Used(nbits)))
  {
    hide *;
    UsedMask(nbits);
    OneLong(nbits);
    if nbits <= 64 {
      ghost var d, a, b := dst[..], src1[..], src2[..];
      NothingCombined(d, a, b, OR);
      CombineOps(d, d, a, b, 0);
      dst[0] := Or(src1[0], src2[0]);
    } else {
      SlowOr(dst, src1, src2, nbits);
    }
  }

  /** bitmap_xor: one word at once, else the loop */
  method BitmapXor(dst: array<Word>, src1: array<Word>, src2: array<Word>, nbits: nat)
    requires Longs(Used(nbits)) <= dst.Length && Longs(Used(nbits)) <= src1.Length && Longs(Used(nbits)) <= src2.Length
    modifies dst
    ensures Combined(old(dst[..]), dst[..], old(src1[..]), old(src2[..]), XOR, Longs(Used(nbits)))
  {
    hide *;
    UsedMask(nbits);
    OneLong(nbits);
    if nbits <= 64 {
      ghost var d, a, b := dst[..], src1[..], src2[..];
      NothingCombined(d, a, b, XOR);
      CombineOps(d, d, a, b, 0);
      dst[0] := Xor(src1[0], src2[0]);
    } else {
      SlowXor(dst, src1, src2, nbits);
    }
  }

  /** bitmap_andnot: one word at once, else the loop */
  method BitmapAndNot(dst: array<Word>, src1: array<Word>, src2: array<Word>, nbits: nat) returns (r: bool)
    requires Longs(Used(nbits)) <= dst.Length && Longs(Used(nbits)) <= src1.Length && Longs(Used(nbits)) <= src2.Length
    modifies dst
    ensures Combined(old(dst[..]), dst[..], old(src1[..]), old(src2[..]), ANDNOT, Longs(Used(nbits)))
    ensures r <==> !NoneBad(Surplus(old(src1[..]), old(src2[..])), 0, 64 * Longs(Used(nbits)))
  {
    hide *;
    UsedMask(nbits);
    OneLong(nbits);
    if nbits <= 64 {
      ghost var d, a, b := dst[..], src1[..], src2[..];
      NothingCombined(d, a, b, ANDNOT);
      CombineOps(d, d, a, b, 0);
      MarkSurplus(a, b, 0, 64);
      SingleWord(Surplus(a, b), And(a[0], Not(b[0])));
      dst[0] := And(src1[0], Not(src2[0]));
      return dst[0] != 0;
    } else {
      r := SlowAndNot(dst, src1, src2, nbits);
    }
  }

  /** slow_bitmap_complement: the bits past the end of the last word come out clear. */
  method SlowComplement(dst: array<Word>, src: array<Word>, bits: nat)
    requires Longs(bits) <= dst.Length && Longs(bits) <= src.Length
    modifies dst
    ensures Complemented(old(dst[..]), dst[..], old(src[..]), bits)
  {
    hide *;
    ghost var d, a := dst[..], src[..];
    var k: nat, lim := 0, bits / 64;
    NothingCombined(d, a, a, NOT);
    while k < lim
      invariant k <= lim && Combined(d, dst[..], a, a, NOT, k)
      invariant forall j | k <= j < src.Length :: src[j] == a[j]
    {
      CombineOps(d, dst[..], a, a, k);
      dst[k] := Not(src[k]);
      k := k + 1;
    }
    if bits % 64 != 0 {
      LastComplement(d, dst[..], a, bits);
      dst[k] := And(Not(src[k]), LastMask(bits));
    } else {
      AllComplement(d, dst[..], a, bits);
    }
  }

  /** bitmap_complement */
  method BitmapComplement(dst: array<Word>, src: array<Word>, nbits: nat)
    requires Longs(Used(nbits)) <= dst.Length && Longs(Used(nbits)) <= src.Length
    modifies dst
    ensures Complemented(old(dst[..]), dst[..], old(src[..]), Used(nbits))
  {
    hide *;
    UsedMask(nbits);
    OneLong(nbits);
    if nbits <= 64 {
      ghost var d, a := dst[..], src[..];
      NothingCombined(d, a, a, NOT);
      OnlyComplement(d, a, Used(nbits));
      dst[0] := And(Not(src[0]), LastMask(nbits));
    } else {
      SlowComplement(dst, src, nbits);
    }
  }

  ghost predicate Complemented(d0: seq<Word>, d: seq<Word>, a: seq<Word>, bits: nat) {
    && |d| == |d0| && Longs(bits) <= |d| && Longs(bits) <= |a|
    && forall i | 0 <= i < 64 * |d| ::
         BitAt(d, i) == if i < bits then !BitAt(a, i) else i >= 64 * Longs(bits) && BitAt(d0, i)
  }

  lemma {:induction false} AllComplement(d0: seq<Word>, d: seq<Word>, a: seq<Word>, bits: nat)
    requires bits % 64 == 0 && Combined(d0, d, a, a, NOT, bits / 64)
    ensures Complemented(d0, d, a, bits)
  {
    hide BitAt;
  }

  lemma {:induction false} LastComplement(d0: seq<Word>, d: seq<Word>, a: seq<Word>, bits: nat)
    requires bits % 64 != 0 && bits / 64 < |d| && bits / 64 < |a| && Combined(d0, d, a, a, NOT, bits / 64)
    ensures Complemented(d0, d[bits / 64 := And(Not(a[bits / 64]), LastMask(bits))], a, bits)
  {
    hide Bit, BitAt, And, Not, LastMask;
    var p := bits / 64;
    var w := And(Not(a[p]), LastMask(bits));
    var e := d[p := w];
    forall i | 0 <= i < 64 * |e|
      ensures BitAt(e, i) == if i < bits then !BitAt(a, i) else i >= 64 * Longs(bits) && BitAt(d0, i)
    {
      Position(e, i / 64, i % 64);
      Position(d, i / 64, i % 64);
      if i / 64 == p {
        Position(a, p, i % 64);
        assert Bit(w, i % 64) <==> !Bit(a[p], i % 64) && i % 64 < bits % 64;
      }
    }
  }

  lemma {:induction false} FullMask()
    ensures LastMask(64) == ONES
  {}

  lemma {:induction false} OnlyComplement(d: seq<Word>, a: seq<Word>, bits: nat)
    requires 0 < bits <= 64 && |d| > 0 && |a| > 0 && Combined(d, d, a, a, NOT, 0)
    ensures Complemented(d, d[0 := And(Not(a[0]), LastMask(bits))], a, bits)
  {
    hide Bit, BitAt, And, Not, LastMask, Combined;
    if bits < 64 {
      LastComplement(d, d, a, bits);
    } else {
      FullMask();
      NotZeroOnes(a[0]);
      CombineOps(d, d, a, a, 0);
      AllComplement(d, d[0 := Not(a[0])], a, bits);
    }
  }

  /* ---------- laws ---------- */

  /** Unused bits that are clear in both sources are clear in every combination that maps clear to clear. */
  lemma {:induction false} TailStaysClear(d0: seq<Word>, d: seq<Word>, a: seq<Word>, b: seq<Word>,
                                          op: (bool, bool) -> bool, bits: nat)
    requires Combined(d0, d, a, b, op, Longs(bits)) && !op(false, false)
    requires Without(a, true, bits, 64 * Longs(bits)) && Without(b, true, bits, 64 * Longs(bits))
    ensures Without(d, true, bits, 64 * Longs(bits))
  {
    hide BitAt;
  }

  /** Complementing twice restores the used bits and clears the unused ones. */
  lemma {:induction false} ComplementTwice(d0: seq<Word>, d: seq<Word>, e0: seq<Word>, e: seq<Word>, a: seq<Word>,
                                           bits: nat)
    requires Complemented(d0, d, a, bits) && Complemented(e0, e, d, bits)
    ensures forall i | 0 <= i < 64 * Longs(bits) :: BitAt(e, i) <==> i < bits && BitAt(a, i)
  {
    hide BitAt;
  }

  /** Combining twice with the same bitmap by xor restores the first one. */
  lemma {:induction false} XorTwice(d0: seq<Word>, d: seq<Word>, e0: seq<Word>, e: seq<Word>, a: seq<Word>,
                                    b: seq<Word>, n: nat)
    requires Combined(d0, d, a, b, XOR, n) && Combined(e0, e, d, b, XOR, n)
    ensures e[..n] == a[..n]
  {
    hide BitAt;
    forall i | 0 <= i < 64 * n ensures BitAt(e[..n], i) == BitAt(a[..n], i) {
      PrefixBit(e, n, i);
      PrefixBit(a, n, i);
    }
    SameWords(e[..n], a[..n]);
  }

  lemma {:induction false} PrefixBit(s: seq<Word>, n: nat, i: nat)
    requires n <= |s| && i < 64 * n
    ensures BitAt(s[..n], i) == BitAt(s, i)
  {}

  /**
   * bitmap.c promises that unused bits never affect a result. What bitmap_and returns keeps that
   * promise exactly when the used bits meet or the unused bits of the last word do not.
   */
  lemma {:induction false} AndReturn(a: seq<Word>, b: seq<Word>, bits: nat, r: bool)
    requires Longs(bits) <= |a| && Longs(bits) <= |b|
    requires r <==> !NoneBad(Common(a, b), 0, 64 * Longs(bits))
    ensures (r <==> exists i | 0 <= i < bits :: BitAt(a, i) && BitAt(b, i))
       <==> (exists i | 0 <= i < bits :: BitAt(a, i) && BitAt(b, i))
            || (forall i | bits <= i < 64 * Longs(bits) :: !(BitAt(a, i) && BitAt(b, i)))
  {
    hide BitAt, NoneBad, Common;
    ReadCommon(a, b, bits);
    ReadCommon(a, b, 64 * Longs(bits));
  }

  /** The same for bitmap_andnot. */
  lemma {:induction false} AndNotReturn(a: seq<Word>, b: seq<Word>, bits: nat, r: bool)
    requires Longs(bits) <= |a| && Longs(bits) <= |b|
    requires r <==> !NoneBad(Surplus(a, b), 0, 64 * Longs(bits))
    ensures (r <==> exists i | 0 <= i < bits :: BitAt(a, i) && !BitAt(b, i))
       <==> (exists i | 0 <= i < bits :: BitAt(a, i) && !BitAt(b, i))
            || (forall i | bits <= i < 64 * Longs(bits) :: !(BitAt(a, i) && !BitAt(b, i)))
  {
    hide BitAt;
    assert forall i: nat | i < 64 * Longs(bits) :: Surplus(a, b)(i) <==> BitAt(a, i) && !BitAt(b, i);
  }

  /** A bitmap of one bit: the unused bit 1 alone makes bitmap_and answer yes for bitmaps that do not meet. */
  lemma {:induction false} AndReturnFails()
    ensures var a := [One(1)];
            && !NoneBad(Common(a, a), 0, 64 * Longs(1))
            && !exists i | 0 <= i < 1 :: BitAt(a, i) && BitAt(a, i)
  {
    hide Bit, One;
    var a := [One(1)];
    assert BitAt(a, 1);
    assert Common(a, a)(1);
  }

  /** Likewise bitmap_andnot, when the unused bit is missing from the second bitmap. */
  lemma {:induction false} AndNotReturnFails()
    ensures var a, b := [One(1)], [0 as Word];
            && !NoneBad(Surplus(a, b), 0, 64 * Longs(1))
            && !exists i | 0 <= i < 1 :: BitAt(a, i) && !BitAt(b, i)
  {
    hide Bit, One;
    var a, b := [One(1)], [0 as Word];
    ConstBit(1);
    assert BitAt(a, 1) && !BitAt(b, 1);
    assert Surplus(a, b)(1);
  }
}
