/** Ranges of bits (bitmap_set, bitmap_clear) and the search for a free aligned range, as bitmap.c has them. */
module Bitmap {
  import opened Words
  import opened BitSearch
  import opened BitOps
  import opened Unsigned

  /** BITMAP_LAST_WORD_MASK */
  function LastMask(nbits: nat): (r: Word)
    ensures forall i | 0 <= i < 64 :: Bit(r, i) <==> nbits % 64 == 0 || i < nbits % 64
  {
    hide Bit;
    ConstBits();
    if nbits % 64 != 0 then Low(nbits % 64) else ONES
  }

  lemma {:induction false} ConstBits()
    ensures forall i | 0 <= i < 64 :: Bit(ONES, i) && !Bit(0, i)
  {
    hide Bit;
    forall i | 0 <= i < 64 ensures Bit(ONES, i) && !Bit(0, i) { ConstBit(i); }
  }

  /** The ones of `mask` are the positions of word `p` from `lo` up. */
  ghost predicate Upper(mask: Word, p: nat, lo: nat) {
    forall i | 0 <= i < 64 :: Bit(mask, i) <==> lo <= 64 * p + i
  }

  lemma {:induction false} UpperStart(start: nat)
    ensures Upper(From(start % 64), start / 64, start)
  {
    hide Bit, From;
  }

  lemma {:induction false} UpperAll(p: nat)
    ensures Upper(ONES, p, 64 * p)
  {
    hide Bit;
    ConstBits();
  }

  /** A written word moves the end of the changed range from `mid` to `hi`. */
  lemma {:induction false} Extend(s: seq<Word>, t: seq<Word>, u: seq<Word>, lo: nat, mid: nat, hi: nat, b: bool)
    requires lo <= mid <= hi && Ranged(s, t, lo, mid, b) && Ranged(t, u, mid, hi, b)
    ensures Ranged(s, u, lo, hi, b)
  {
    hide BitAt;
  }

  lemma {:induction false} SetWord(t: seq<Word>, p: nat, mask: Word, mid: nat, hi: nat)
    requires p < |t| && 64 * p <= mid <= hi <= 64 * p + 64
    requires forall i | 0 <= i < 64 :: Bit(mask, i) <==> mid <= 64 * p + i < hi
    ensures Ranged(t, t[p := Or(t[p], mask)], mid, hi, true)
    ensures Ranged(t, t[p := And(t[p], Not(mask))], mid, hi, false)
  {
    hide Bit, Or, And, Not;
    WriteWord(t, p, Or(t[p], mask), mid, hi, true);
    WriteWord(t, p, And(t[p], Not(mask)), mid, hi, false);
  }

  /** A whole step of the loop: the word at `p` from `mid` to its end. */
  lemma {:induction false} FullWord(s: seq<Word>, t: seq<Word>, p: nat, mask: Word, lo: nat, mid: nat)
    requires p < |t| && lo <= mid && 64 * p <= mid <= 64 * p + 64 && Upper(mask, p, mid)
    ensures Ranged(s, t, lo, mid, true) ==> Ranged(s, t[p := Or(t[p], mask)], lo, 64 * p + 64, true)
    ensures Ranged(s, t, lo, mid, false) ==> Ranged(s, t[p := And(t[p], Not(mask))], lo, 64 * p + 64, false)
  {
    hide Bit, Or, And, Not, Ranged;
    SetWord(t, p, mask, mid, 64 * p + 64);
    if Ranged(s, t, lo, mid, true) { Extend(s, t, t[p := Or(t[p], mask)], lo, mid, 64 * p + 64, true); }
    if Ranged(s, t, lo, mid, false) { Extend(s, t, t[p := And(t[p], Not(mask))], lo, mid, 64 * p + 64, false); }
  }

  /** The step after the loop: the word at `p` from `mid` to `size`, which ends inside it. */
  lemma {:induction false} PartWord(s: seq<Word>, t: seq<Word>, p: nat, mask: Word, lo: nat, mid: nat, size: nat)
    requires p < |t| && lo <= mid && 64 * p <= mid < size < 64 * p + 64 && Upper(mask, p, mid)
    ensures var m := And(mask, LastMask(size));
            && (Ranged(s, t, lo, mid, true) ==> Ranged(s, t[p := Or(t[p], m)], lo, size, true))
            && (Ranged(s, t, lo, mid, false) ==> Ranged(s, t[p := And(t[p], Not(m))], lo, size, false))
  {
    hide Bit, Or, And, Not, LastMask, Ranged;
    var m := And(mask, LastMask(size));
    assert size % 64 == size - 64 * p;
    SetWord(t, p, m, mid, size);
    if Ranged(s, t, lo, mid, true) { Extend(s, t, t[p := Or(t[p], m)], lo, mid, size, true); }
    if Ranged(s, t, lo, mid, false) { Extend(s, t, t[p := And(t[p], Not(m))], lo, mid, size, false); }
  }

  lemma {:induction false} NoChange(s: seq<Word>, lo: nat, b: bool)
    ensures Ranged(s, s, lo, lo, b)
  {}

  /** bitmap_set */
  method BitmapSet(buf: array<Word>, start: nat, nr: nat)
    requires start + nr <= 64 * buf.Length
    modifies buf
    ensures Ranged(old(buf[..]), buf[..], start, start + nr, true)
  {
    hide *;
    ghost var s := buf[..];
    var p, size, left: nat, bits := start / 64, start + nr, nr, 64 - start % 64;
    var mask := From(start % 64);
    NoChange(s, start, true);
    UpperStart(start);
    while left - bits >= 0
      invariant left <= nr && bits == 64 * p + 64 - (size - left)
      invariant 64 * p <= size - left <= 64 * p + 64 && 0 < bits
      invariant Upper(mask, p, size - left) && Ranged(s, buf[..], start, size - left, true)
    {
      FullWord(s, buf[..], p, mask, start, size - left);
      buf[p] := Or(buf[p], mask);
      left := left - bits;
      bits := 64;
      mask := ONES;
      p := p + 1;
      UpperAll(p);
    }
    if left != 0 {
      PartWord(s, buf[..], p, mask, start, size - left, size);
      mask := And(mask, LastMask(size));
      buf[p] := Or(buf[p], mask);
    }
  }

  /** bitmap_clear */
  method BitmapClear(buf: array<Word>, start: nat, nr: nat)
    requires start + nr <= 64 * buf.Length
    modifies buf
    ensures Ranged(old(buf[..]), buf[..], start, start + nr, false)
  {
    hide *;
    ghost var s := buf[..];
    var p, size, left: nat, bits := start / 64, start + nr, nr, 64 - start % 64;
    var mask := From(start % 64);
    NoChange(s, start, false);
    UpperStart(start);
    while left - bits >= 0
      invariant left <= nr && bits == 64 * p + 64 - (size - left)
      invariant 64 * p <= size - left <= 64 * p + 64 && 0 < bits
      invariant Upper(mask, p, size - left) && Ranged(s, buf[..], start, size - left, false)
    {
      FullWord(s, buf[..], p, mask, start, size - left);
      buf[p] := And(buf[p], Not(mask));
      left := left - bits;
      bits := 64;
      mask := ONES;
      p := p + 1;
      UpperAll(p);
    }
    if left != 0 {
      PartWord(s, buf[..], p, mask, start, size - left, size);
      mask := And(mask, LastMask(size));
      buf[p] := And(buf[p], Not(mask));
    }
  }

  /** Clearing a range that was set on a bitmap where it was clear gives back every word; and the other way round. */
  lemma {:induction false} ClearUndoesSet(s: seq<Word>, t: seq<Word>, u: seq<Word>, lo: nat, hi: nat, b: bool)
    requires hi <= 64 * |s| && Without(s, b, lo, hi)
    requires Ranged(s, t, lo, hi, b) && Ranged(t, u, lo, hi, !b)
    ensures u == s
  {
    hide BitAt;
    SameWords(u, s);
  }

  /** Setting two ranges in either order gives the same bitmap. */
  lemma {:induction false} SetsCommute(s: seq<Word>, t: seq<Word>, t': seq<Word>, u: seq<Word>, u': seq<Word>,
                                       lo: nat, hi: nat, lo': nat, hi': nat, b: bool)
    requires Ranged(s, t, lo, hi, b) && Ranged(t, u, lo', hi', b)
    requires Ranged(s, t', lo', hi', b) && Ranged(t', u', lo, hi, b)
    ensures u == u'
  {
    hide BitAt;
    SameWords(u, u');
  }

  /* ---------- aligned free areas ---------- */

  /** `x` starts an aligned range of `nr` clear bits inside [start, size). */
  ghost predicate Area(s: seq<Word>, size: nat, start: nat, nr: nat, k: nat, x: nat)
    requires size <= 64 * |s|
  {
    start <= x && Aligned(x, k) && x + nr <= size && Without(s, true, x, x + nr)
  }

  /** No area starts in [start, bound). */
  ghost predicate NoneBefore(s: seq<Word>, size: nat, start: nat, nr: nat, k: nat, bound: nat)
    requires size <= 64 * |s|
  {
    forall x: nat | Area(s, size, start, nr, k, x) :: x >= bound
  }

  /** An area begins with a clear bit, so none begins before the first one, nor before the next multiple of 2^k. */
  lemma {:induction false} Advance(s: seq<Word>, size: nat, start: nat, nr: nat, k: nat, from: nat, index: nat)
    requires size <= 64 * |s| && nr > 0
    requires NoneBefore(s, size, start, nr, k, from) && Least(s, false, size, from, index)
    ensures NoneBefore(s, size, start, nr, k, AlignMask(index, Pow2(k) - 1))
  {
    hide BitAt, AlignMask, Pow2;
    AlignLeast(index, k);
    forall x: nat | Area(s, size, start, nr, k, x) ensures x >= AlignMask(index, Pow2(k) - 1) {
      assert !BitAt(s, x);
    }
  }

  /** A set bit inside the candidate range rules out every area up to it. */
  lemma {:induction false} Blocked(s: seq<Word>, size: nat, start: nat, nr: nat, k: nat, index: nat, i: nat)
    requires size <= 64 * |s| && NoneBefore(s, size, start, nr, k, index)
    requires index <= i < index + nr <= size && BitAt(s, i)
    ensures NoneBefore(s, size, start, nr, k, i + 1)
  {
    hide BitAt, Pow2;
    forall x: nat | Area(s, size, start, nr, k, x) ensures x >= i + 1 {}
  }

  lemma {:induction false} NoneYet(s: seq<Word>, size: nat, start: nat, nr: nat, k: nat)
    requires size <= 64 * |s|
    ensures NoneBefore(s, size, start, nr, k, start)
  {}

  lemma {:induction false} LeastBounds(s: seq<Word>, b: bool, size: nat, from: nat, r: nat)
    requires size <= 64 * |s| && Least(s, b, size, from, r)
    ensures r <= size && (r < size ==> from <= r && BitAt(s, r) == b)
    ensures from < size ==> from <= r && Without(s, b, from, r)
    ensures from >= size ==> r == size
  {}

  lemma {:induction false} TooFar(s: seq<Word>, size: nat, start: nat, nr: nat, k: nat, index: nat)
    requires size <= 64 * |s| && NoneBefore(s, size, start, nr, k, index) && index + nr > size
    ensures forall x: nat :: !Area(s, size, start, nr, k, x)
  {
    hide Pow2;
  }

  lemma {:induction false} Free(s: seq<Word>, size: nat, start: nat, nr: nat, k: nat, index: nat)
    requires size <= 64 * |s| && start <= index && Aligned(index, k) && index + nr <= size
    requires nr > 0 ==> Without(s, true, index, index + nr)
    ensures Area(s, size, start, nr, k, index)
  {
    hide BitAt, Pow2;
  }

  const LONG: nat := 0x1_0000_0000_0000_0000   // 2^64
  const ALL: nat := 0xFFFF_FFFF_FFFF_FFFF      // ~0UL

  /** What the search comes to after some rounds: it starts again, or it returns. */
  datatype Round = Again(start: nat) | Done(value: nat)

  /** The first position in [from, size) with the value `b`, or `size`. */
  function FirstFrom(s: seq<Word>, b: bool, size: nat, from: nat): (r: nat)
    requires size <= 64 * |s|
    ensures r <= size
    decreases size - from
  {
    if from >= size then size
    else if BitAt(s, from) == b then from
    else FirstFrom(s, b, size, from + 1)
  }

  /** It is the one that the scans of bitops.c find. */
  lemma {:induction false} FirstUnique(s: seq<Word>, b: bool, size: nat, from: nat, r: nat)
    requires size <= 64 * |s| && Least(s, b, size, from, r)
    ensures r == FirstFrom(s, b, size, from)
    decreases size - from
  {
    hide BitAt;
    if from < size && BitAt(s, from) != b {
      FirstUnique(s, b, size, from + 1, r);
    }
  }

  lemma {:induction false} FirstLeast(s: seq<Word>, b: bool, size: nat, from: nat)
    requires size <= 64 * |s|
    ensures Least(s, b, size, from, FirstFrom(s, b, size, from))
    decreases size - from
  {
    hide BitAt;
    if from < size && BitAt(s, from) != b {
      FirstLeast(s, b, size, from + 1);
    }
  }

  /** One pass from `again` to the jump back or the return, in 64-bit arithmetic. */
  function AreaRound(s: seq<Word>, size: nat, start: nat, nr: nat, mask: nat): Round
    requires size <= 64 * |s|
  {
    var index := BitAndNot((FirstFrom(s, false, size, start) + mask) % LONG, mask);
    var end := (index + nr) % LONG;
    if end > size then Done(end)
    else
      var i := FirstFrom(s, true, end, index);
      if i < end then Again((i + 1) % LONG) else Done(index)
  }

  function AreaRounds(s: seq<Word>, size: nat, r: Round, nr: nat, mask: nat, n: nat): Round
    requires size <= 64 * |s|
    decreases n
  {
    if n == 0 || r.Done? then r else AreaRounds(s, size, AreaRound(s, size, r.start, nr, mask), nr, mask, n - 1)
  }

  lemma {:induction false} OneRoundMore(s: seq<Word>, size: nat, r: Round, nr: nat, mask: nat, n: nat, start: nat)
    requires size <= 64 * |s| && AreaRounds(s, size, r, nr, mask, n) == Again(start)
    ensures AreaRounds(s, size, r, nr, mask, n + 1) == AreaRound(s, size, start, nr, mask)
    decreases n
  {
    hide AreaRound;
    if n > 0 {
      OneRoundMore(s, size, AreaRound(s, size, r.start, nr, mask), nr, mask, n - 1, start);
    }
  }

  /** The search returns `r`. */
  ghost predicate Returns(s: seq<Word>, size: nat, start: nat, nr: nat, mask: nat, r: nat)
    requires size <= 64 * |s|
  {
    exists n: nat :: AreaRounds(s, size, Again(start), nr, mask, n) == Done(r)
  }

  /** It never returns: after any number of rounds it starts again. */
  ghost predicate NeverReturns(s: seq<Word>, size: nat, start: nat, nr: nat, mask: nat)
    requires size <= 64 * |s|
  {
    forall n: nat :: AreaRounds(s, size, Again(start), nr, mask, n).Again?
  }

  /** What bitmap_find_next_zero_area promises of its result. */
  ghost predicate Right(s: seq<Word>, size: nat, start: nat, nr: nat, k: nat, r: nat)
    requires size <= 64 * |s|
  {
    && (r <= size ==> Area(s, size, start, nr, k, r) && NoneBefore(s, size, start, nr, k, r))
    && (r > size ==> forall x: nat :: !Area(s, size, start, nr, k, x))
  }

  /* ---------- an align_mask of all ones, where the aligned sum wraps ---------- */

  lemma {:induction false} FullMask(x: nat)
    requires x < LONG
    ensures BitAndNot((x + ALL) % LONG, ALL) == 0
  {
    hide BitAndNot, Pow2;
    Powers();
    AndNotLow((x + ALL) % LONG, 64);
  }

  /** Every candidate aligns to 0, so the first round decides, wherever it starts. */
  function FullMaskResult(s: seq<Word>, size: nat, nr: nat): Round
    requires size <= 64 * |s|
  {
    if nr > size then Done(nr)
    else if FirstFrom(s, true, nr, 0) < nr then Again(FirstFrom(s, true, nr, 0) + 1)
    else Done(0)
  }

  lemma {:induction false} FullMaskRound(s: seq<Word>, size: nat, start: nat, nr: nat)
    requires size <= 64 * |s| && size < LONG && nr < LONG
    ensures AreaRound(s, size, start, nr, ALL) == FullMaskResult(s, size, nr)
  {
    hide BitAndNot, FirstFrom;
    FullMask(FirstFrom(s, false, size, start));
  }

  lemma {:induction false} FullMaskRounds(s: seq<Word>, size: nat, start: nat, nr: nat, n: nat)
    requires size <= 64 * |s| && size < LONG && nr < LONG
    ensures AreaRounds(s, size, Again(start), nr, ALL, n) == if n
              == 0 then Again(start) else FullMaskResult(s, size, nr)
    decreases n
  {
    hide AreaRound, FirstFrom;
    if n > 0 {
      FullMaskRounds(s, size, start, nr, n - 1);
      if n == 1 || FullMaskResult(s, size, nr).Again? {
        var from := if n == 1 then start else FullMaskResult(s, size, nr).start;
        OneRoundMore(s, size, Again(start), nr, ALL, n - 1, from);
        FullMaskRound(s, size, from, nr);
      } else {
        DoneStays(s, size, Again(start), nr, ALL, n - 1);
      }
    }
  }

  lemma {:induction false} DoneStays(s: seq<Word>, size: nat, r: Round, nr: nat, mask: nat, n: nat)
    requires size <= 64 * |s| && AreaRounds(s, size, r, nr, mask, n).Done?
    ensures AreaRounds(s, size, r, nr, mask, n + 1) == AreaRounds(s, size, r, nr, mask, n)
    decreases n
  {
    hide AreaRound;
    if n > 0 && r.Again? {
      DoneStays(s, size, AreaRound(s, size, r.start, nr, mask), nr, mask, n - 1);
    }
  }

  lemma {:induction false} FirstSet(s: seq<Word>, nr: nat)
    requires nr <= 64 * |s|
    ensures FirstFrom(s, true, nr, 0) < nr <==> exists i: nat :: i < nr && BitAt(s, i)
  {
    hide BitAt;
    FirstLeast(s, true, nr, 0);
  }

  /** With this mask the search never returns exactly when the area fits and one of the first nr bits is set. */
  lemma {:induction false} NeverReturnsIff(s: seq<Word>, size: nat, start: nat, nr: nat)
    requires size <= 64 * |s| && size < LONG && nr < LONG
    ensures NeverReturns(s, size, start, nr, ALL)
       <==> nr <= size && exists i: nat :: i < nr && BitAt(s, i)
  {
    hide AreaRounds, FirstFrom, BitAt;
    forall n: nat
      ensures AreaRounds(s, size, Again(start), nr, ALL, n) ==
                if n == 0 then Again(start) else FullMaskResult(s, size, nr)
    {
      FullMaskRounds(s, size, start, nr, n);
    }
    assert AreaRounds(s, size, Again(start), nr, ALL, 1) == FullMaskResult(s, size, nr);
    if nr <= size {
      FirstSet(s, nr);
    }
  }

  /** And it returns what it promises exactly when the area does not fit, or is asked for at 0 and is clear there. */
  lemma {:induction false} FullMaskRightIff(s: seq<Word>, size: nat, start: nat, nr: nat)
    requires size <= 64 * |s| && size < LONG && 0 < nr < LONG
    ensures (exists r :: Returns(s, size, start, nr, ALL, r) && Right(s, size, start, nr, 64, r))
       <==> nr > size || (start == 0 && Without(s, true, 0, nr))
  {
    hide AreaRounds, FirstFrom, BitAt, Right, Pow2;
    forall n: nat
      ensures AreaRounds(s, size, Again(start), nr, ALL, n) ==
                if n == 0 then Again(start) else FullMaskResult(s, size, nr)
    {
      FullMaskRounds(s, size, start, nr, n);
    }
    assert AreaRounds(s, size, Again(start), nr, ALL, 1) == FullMaskResult(s, size, nr);
    if nr > size {
      NoRoom(s, size, start, nr);
    } else {
      FirstSet(s, nr);
      OnlyZero(s, size, start, nr);
    }
  }

  lemma {:induction false} NoRoom(s: seq<Word>, size: nat, start: nat, nr: nat)
    requires size <= 64 * |s| && nr > size
    ensures Right(s, size, start, nr, 64, nr)
  {
    hide Pow2, BitAt;
  }

  lemma {:induction false} OnlyZero(s: seq<Word>, size: nat, start: nat, nr: nat)
    requires nr <= size <= 64 * |s| && size < LONG && 0 < nr
    ensures Right(s, size, start, nr, 64, 0) <==> start == 0 && Without(s, true, 0, nr)
  {
    hide Pow2, BitAt;
  }

  lemma {:induction false} Unwrapped(x: nat, mask: nat)
    requires x + mask < LONG
    ensures BitAndNot((x + mask) % LONG, mask) == AlignMask(x, mask)
  {
    hide BitAndNot;
  }

  /** A pass in which no sum leaves 64 bits, as the searches of bitops.c find its positions. */
  lemma {:induction false} RoundIs(s: seq<Word>, size: nat, from: nat, nr: nat, k: nat, index0: nat, i: nat)
    requires size <= 64 * |s| && size + (Pow2(k) - 1) + nr < LONG && Least(s, false, size, from, index0)
    requires var index := AlignMask(index0, Pow2(k) - 1);
             index + nr <= size ==> Least(s, true, index + nr, index, i) && i <= index + nr
    ensures var index := AlignMask(index0, Pow2(k) - 1);
            AreaRound(s, size, from, nr, Pow2(k) - 1) ==
              if index + nr > size then Done(index + nr) else if i < index + nr then Again(i + 1) else Done(index)
  {
    hide BitAndNot, Pow2, FirstFrom, BitAt, AlignMask, Least;
    FirstUnique(s, false, size, from, index0);
    LeastBounds(s, false, size, from, index0);
    AlignBound(index0, k);
    Unwrapped(index0, Pow2(k) - 1);
    var index := AlignMask(index0, Pow2(k) - 1);
    Fits(index + nr);
    if index + nr <= size {
      FirstUnique(s, true, index + nr, index, i);
      Fits(i + 1);
    }
  }

  lemma {:induction false} Fits(x: nat)
    ensures x < LONG ==> x % LONG == x
  {}

  lemma {:induction false} AlignBound(x: nat, k: nat)
    ensures AlignMask(x, Pow2(k) - 1) <= x + (Pow2(k) - 1)
  {
    hide AlignMask, Pow2;
    AlignLeast(x, k);
  }

  /** bitmap_find_next_zero_area with align_mask = 2^k - 1; the jump back to `again` is the loop. */
  method BitmapFindNextZeroArea(buf: array<Word>, size: nat, start: nat, nr: nat, k: nat) returns (r: nat)
    requires size <= 64 * buf.Length
    requires size + (Pow2(k) - 1) + nr < LONG   // no sum below leaves 64 bits
    ensures (nr > 0 || start <= size) && r <= size ==> Area(buf[..], size, start, nr, k, r)
    ensures nr > 0 ==> Right(buf[..], size, start, nr, k, r)
    ensures Returns(buf[..], size, start, nr, Pow2(k) - 1, r)
  {
    hide *;
    ghost var s := buf[..];
    var from := start;
    ghost var rounds: nat := 0;
    NoneYet(s, size, start, nr, k);
    NoRounds(s, size, start, nr, Pow2(k) - 1);
    while true
      invariant start <= from && (from == start || from <= size)
      invariant nr > 0 ==> NoneBefore(s, size, start, nr, k, from)
      invariant AreaRounds(s, size, Again(start), nr, Pow2(k) - 1, rounds) == Again(from)
      decreases size - from
    {
      var index := FindNextZeroBit(buf, size, from);
      ghost var index0 := index;
      LeastBounds(s, false, size, from, index);
      AlignLeast(index, k);
      OneRoundMore(s, size, Again(start), nr, Pow2(k) - 1, rounds, from);
      if nr > 0 { Advance(s, size, start, nr, k, from, index); }
      index := AlignMask(index, Pow2(k) - 1);
      var end := index + nr;
      if end > size {
        RoundIs(s, size, from, nr, k, index0, 0);
        if nr > 0 { TooFar(s, size, start, nr, k, index); }
        AnswerRight(s, size, start, nr, k, end);
        ReturnsAfter(s, size, start, nr, Pow2(k) - 1, rounds + 1, end);
        return end;
      }
      var i := FindNextBit(buf, end, index);
      LeastBounds(s, true, end, index, i);
      RoundIs(s, size, from, nr, k, index0, i);
      if i < end {
        Blocked(s, size, start, nr, k, index, i);
        from := i + 1;
        rounds := rounds + 1;
      } else {
        if nr > 0 || start <= size { Free(s, size, start, nr, k, index); }
        AnswerRight(s, size, start, nr, k, index);
        ReturnsAfter(s, size, start, nr, Pow2(k) - 1, rounds + 1, index);
        return index;
      }
    }
  }

  lemma {:induction false} ReturnsAfter(s: seq<Word>, size: nat, start: nat, nr: nat, mask: nat, n: nat, r: nat)
    requires size <= 64 * |s| && AreaRounds(s, size, Again(start), nr, mask, n) == Done(r)
    ensures Returns(s, size, start, nr, mask, r)
  {}

  lemma {:induction false} NoRounds(s: seq<Word>, size: nat, start: nat, nr: nat, mask: nat)
    requires size <= 64 * |s|
    ensures AreaRounds(s, size, Again(start), nr, mask, 0) == Again(start)
  {}

  lemma {:induction false} AnswerRight(s: seq<Word>, size: nat, start: nat, nr: nat, k: nat, r: nat)
    requires size <= 64 * |s|
    ensures (r <= size ==> Area(s, size, start, nr, k, r) && NoneBefore(s, size, start, nr, k, r))
            && (r > size ==> forall x: nat :: !Area(s, size, start, nr, k, x))
       <==> Right(s, size, start, nr, k, r)
  {}
}
