/** The word-at-a-time searches of bitops.c over an array of 64-bit words. */
module BitSearch {
  import opened Words

  /** Bit number `i` of the bitmap, as test_bit addresses it. */
  predicate BitAt(s: seq<Word>, i: nat)
    requires i < 64 * |s|
  {
    Bit(s[i / 64], i % 64)
  }

  /** No bit of [lo, hi) has the value `b`. */
  ghost predicate Without(s: seq<Word>, b: bool, lo: nat, hi: nat)
    requires hi <= 64 * |s|
  {
    forall i | lo <= i < hi :: BitAt(s, i) != b
  }

  /** `r` is the first position in [offset, size) whose bit is `b`, or `size` when there is none. */
  ghost predicate Least(s: seq<Word>, b: bool, size: nat, offset: nat, r: nat)
    requires size <= 64 * |s|
  {
    if offset >= size then r == size
    else offset <= r <= size && Without(s, b, offset, r) && (r < size ==> BitAt(s, r) == b)
  }

  /** `r` is the last position below `size` whose bit is set, or `size` when there is none. */
  ghost predicate Greatest(s: seq<Word>, size: nat, r: nat)
    requires size <= 64 * |s|
  {
    (r == size && Without(s, true, 0, size))
    || (r < size && BitAt(s, r) && Without(s, true, r + 1, size))
  }

  /**
   * The ones of `w` are the positions of word `p` inside [lo, hi) whose bit is `b`.
   * The scans keep such a word in `tmp` (find_next_zero_bit keeps its complement).
   */
  ghost predicate Window(s: seq<Word>, b: bool, w: Word, p: nat, lo: nat, hi: nat)
    requires p < |s|
  {
    forall i | 0 <= i < 64 :: Bit(w, i) <==> lo <= 64 * p + i < hi && Bit(s[p], i) == b
  }

  lemma {:induction false} Position(s: seq<Word>, p: nat, i: nat)
    requires p < |s| && i < 64
    ensures 64 * p + i < 64 * |s| && (64 * p + i) / 64 == p && (64 * p + i) % 64 == i
    ensures BitAt(s, 64 * p + i) == Bit(s[p], i)
  {
    hide Bit;
    assert p + 1 <= |s|;
  }

  lemma {:induction false} Whole(s: seq<Word>, p: nat, lo: nat, hi: nat)
    requires p < |s| && lo <= 64 * p && 64 * p + 64 <= hi
    ensures Window(s, true, s[p], p, lo, hi) && Window(s, false, Not(s[p]), p, lo, hi)
  {
    hide Bit, Not;
  }

  /** Masking off the bits below the offset. */
  lemma {:induction false} CutLow(s: seq<Word>, p: nat, k: nat, hi: nat)
    requires p < |s| && 0 < k < 64 && 64 * p + 64 <= hi
    ensures Window(s, true, And(s[p], From(k)), p, 64 * p + k, hi)
    ensures Window(s, false, Not(Or(s[p], Down(k))), p, 64 * p + k, hi)
  {
    hide Bit, And, Or, Not, From, Down;
  }

  /** Masking off the bits from the size up. */
  lemma {:induction false} CutHigh(s: seq<Word>, w: Word, p: nat, lo: nat, n: nat)
    requires p < |s| && 0 < n < 64
    ensures Window(s, true, w, p, lo, 64 * p + 64) ==> Window(s, true, And(w, Down(n)), p, lo, 64 * p + n)
    ensures Window(s, false, Not(w), p, lo, 64 * p + 64) ==> Window(s, false, Not(Or(w, From(n))), p, lo, 64 * p + n)
  {
    hide Bit, And, Or, Not, From, Down;
  }

  /** An empty window: nothing up to `hi`. */
  lemma {:induction false} Nothing(s: seq<Word>, b: bool, p: nat, lo: nat, hi: nat, to: nat)
    requires p < |s| && Window(s, b, 0, p, lo, hi)
    requires to <= hi && to <= 64 * p + 64 && Without(s, b, lo, 64 * p)
    ensures to <= 64 * |s| && Without(s, b, lo, to)
  {
    hide Bit, BitAt;
    assert p + 1 <= |s|;
    forall i | lo <= i < to ensures BitAt(s, i) != b {
      if i >= 64 * p {
        Position(s, p, i - 64 * p);
        ConstBit(i - 64 * p);
      }
    }
  }

  /** The lowest one of a window is the answer. */
  lemma {:induction false} LowestOne(s: seq<Word>, b: bool, w: Word, p: nat, lo: nat, hi: nat, n: nat)
    requires p < |s| && Window(s, b, w, p, lo, hi) && Without(s, b, lo, 64 * p)
    requires n < 64 && Bit(w, n) && forall i | 0 <= i < n :: !Bit(w, i)
    requires lo < hi <= 64 * |s|
    ensures Least(s, b, hi, lo, 64 * p + n)
  {
    hide Bit, BitAt;
    Position(s, p, n);
    forall i | lo <= i < 64 * p + n ensures BitAt(s, i) != b {
      if i >= 64 * p {
        Position(s, p, i - 64 * p);
        assert !Bit(w, i - 64 * p);
      }
    }
  }

  /** Its place in the word. */
  method LowestIn(w: Word, ghost s: seq<Word>, ghost b: bool, ghost p: nat, ghost lo: nat, ghost hi: nat)
    returns (zeros: nat)
    requires p < |s| && Window(s, b, w, p, lo, hi) && Without(s, b, lo, 64 * p) && lo < hi <= 64 * |s| && w != 0
    ensures Least(s, b, hi, lo, 64 * p + zeros)
  {
    hide *;
    zeros := Ctz64(w);
    LowestOne(s, b, w, p, lo, hi, zeros);
  }

  /** The highest one of a window, when nothing follows it. */
  lemma {:induction false} HighestOne(s: seq<Word>, w: Word, p: nat, hi: nat, n: nat)
    requires p < |s| && hi <= 64 * |s| && Window(s, true, w, p, 0, hi)
    requires 64 * p + 64 < hi ==> Without(s, true, 64 * p + 64, hi)
    requires n < 64 && Bit(w, n) && forall i | n < i < 64 :: !Bit(w, i)
    ensures Greatest(s, hi, 64 * p + n)
  {
    hide Bit, BitAt;
    Position(s, p, n);
    forall i | 64 * p + n < i < hi ensures !BitAt(s, i) {
      if i < 64 * p + 64 {
        Position(s, p, i - 64 * p);
        assert !Bit(w, i - 64 * p);
      }
    }
  }

  lemma {:induction false} NoneIsLeast(s: seq<Word>, b: bool, size: nat, offset: nat)
    requires size <= 64 * |s| && offset <= size && Without(s, b, offset, size)
    ensures Least(s, b, size, offset, size)
  {}

  /** A whole zero word extends the part already searched. */
  lemma {:induction false} SkipWord(s: seq<Word>, p: nat, lo: nat)
    requires p < |s| && lo <= 64 * p && Without(s, true, lo, 64 * p) && s[p] == 0
    ensures 64 * p + 64 <= 64 * |s| && Without(s, true, lo, 64 * (p + 1))
  {
    hide Without, Window, Bit;
    Whole(s, p, lo, 64 * p + 64);
    Nothing(s, true, p, lo, 64 * p + 64, 64 * p + 64);
  }

  lemma {:induction false} SkipFour(s: seq<Word>, p: nat, lo: nat)
    requires p + 3 < |s| && lo <= 64 * p && Without(s, true, lo, 64 * p)
    requires s[p] == 0 && Or(Or(s[p + 1], s[p + 2]), s[p + 3]) == 0
    ensures 64 * p + 4 * 64 <= 64 * |s| && Without(s, true, lo, 64 * (p + 4))
  {
    hide Without;
    AllZero(s[p + 1], s[p + 2], s[p + 3]);
    SkipWord(s, p, lo);
    SkipWord(s, p + 1, lo);
    SkipWord(s, p + 2, lo);
    SkipWord(s, p + 3, lo);
  }

  lemma {:induction false} AllZero(a: Word, b: Word, c: Word)
    requires Or(Or(a, b), c) == 0
    ensures a == 0 && b == 0 && c == 0
  {}

  /** found_first of find_next_bit: the last word, of which `left` bits count; the place in it, or `left`. */
  method LastSet(w: Word, left: nat, ghost s: seq<Word>, ghost p: nat, ghost lo: nat, ghost hi: nat) returns (r: nat)
    requires p < |s| && 0 < left < 64 && lo < hi == 64 * p + left
    requires Window(s, true, w, p, lo, 64 * p + 64) && Without(s, true, lo, 64 * p)
    ensures Least(s, true, hi, lo, 64 * p + r)
  {
    hide *;
    CutHigh(s, w, p, lo, left);
    var tmp := And(w, Down(left));
    if tmp == 0 {
      Nothing(s, true, p, lo, hi, hi);
      NoneIsLeast(s, true, hi, lo);
      return left;
    }
    r := LowestIn(tmp, s, true, p, lo, hi);
  }

  /** found_first of find_next_zero_bit. */
  method LastClear(w: Word, left: nat, ghost s: seq<Word>, ghost p: nat, ghost lo: nat, ghost hi: nat) returns (r: nat)
    requires p < |s| && 0 < left < 64 && lo < hi == 64 * p + left
    requires Window(s, false, Not(w), p, lo, 64 * p + 64) && Without(s, false, lo, 64 * p)
    ensures Least(s, false, hi, lo, 64 * p + r)
  {
    hide *;
    CutHigh(s, w, p, lo, left);
    var tmp := Or(w, From(left));
    NotZero(tmp);
    if tmp == ONES {
      Nothing(s, false, p, lo, hi, hi);
      NoneIsLeast(s, false, hi, lo);
      return left;
    }
    r := LowestIn(Not(tmp), s, false, p, lo, hi);
  }

  /** find_next_bit: a partial first word, words four at a time, words one by one, a partial last word. */
  method FindNextBit(addr: array<Word>, size: nat, offset: nat) returns (r: nat)
    requires size <= 64 * addr.Length
    ensures Least(addr[..], true, size, offset, r)
  {
    hide *;
    ghost var s := addr[..];
    var p: nat, result: nat, left: nat := offset / 64, offset - offset % 64, size;
    ghost var at: nat := p;
    var tmp: Word;
    if offset >= size {
      AtEnd(s, true, size, offset);
      return size;
    }
    left := left - result;
    var off := offset % 64;
    NothingYet(s, true, offset);
    label Middle: {
      label First: {
        if off != 0 {
          at := p;
          tmp := addr[p];
          p := p + 1;
          tmp := And(tmp, From(off));
          CutLow(s, at, off, 64 * p);
          if left < 64 {
            break First;
          }
          if tmp != 0 {
            Wider(s, true, tmp, at, offset, 64 * p, size);
            break Middle;
          }
          Nothing(s, true, at, offset, 64 * p, 64 * p);
          left := left - 64;
          result := result + 64;
        }
        while left >= 4 * 64
          invariant result == 64 * p && left + result == size && offset <= result
          invariant result <= 64 * |s| && Without(s, true, offset, result)
        {
          at := p;
          tmp := addr[p];
          var d1, d2, d3 := addr[p + 1], addr[p + 2], addr[p + 3];
          if tmp != 0 {
            Whole(s, p, offset, size);
            break Middle;
          }
          if Or(Or(d1, d2), d3) != 0 {
            break;
          }
          SkipFour(s, p, offset);
          p := p + 4;
          result := result + 4 * 64;
          left := left - 4 * 64;
        }
        while left >= 64
          invariant result == 64 * p && left + result == size && offset <= result
          invariant result <= 64 * |s| && Without(s, true, offset, result)
        {
          at := p;
          tmp := addr[p];
          p := p + 1;
          if tmp != 0 {
            Whole(s, p - 1, offset, size);
            break Middle;
          }
          SkipWord(s, p - 1, offset);
          result := result + 64;
          left := left - 64;
        }
        if left == 0 {
          NoneIsLeast(s, true, size, offset);
          return result;
        }
        at := p;
        tmp := addr[p];
        Whole(s, p, offset, result + 64);
      }
      // found_first
      r := LastSet(tmp, left, s, at, offset, size);
      return result + r;
    }
    // found_middle
    var zeros := LowestIn(tmp, s, true, at, offset, size);
    return result + zeros;
  }

  lemma {:induction false} AtEnd(s: seq<Word>, b: bool, size: nat, offset: nat)
    requires size <= 64 * |s| && offset >= size
    ensures Least(s, b, size, offset, size)
  {}

  lemma {:induction false} NothingYet(s: seq<Word>, b: bool, offset: nat)
    requires offset <= 64 * |s|
    ensures Without(s, b, offset, offset - offset % 64)
  {}

  lemma {:induction false} Wider(s: seq<Word>, b: bool, w: Word, p: nat, lo: nat, hi: nat, hi': nat)
    requires p < |s| && 64 * p + 64 <= hi && 64 * p + 64 <= hi' && Window(s, b, w, p, lo, hi)
    ensures Window(s, b, w, p, lo, hi')
  {
    hide Bit;
  }

  /** A word of ones extends the part already searched for a zero. */
  lemma {:induction false} SkipOnes(s: seq<Word>, p: nat, lo: nat)
    requires p < |s| && lo <= 64 * p && Without(s, false, lo, 64 * p) && Not(s[p]) == 0
    ensures 64 * p + 64 <= 64 * |s| && Without(s, false, lo, 64 * (p + 1))
  {
    hide Without, Window, Bit;
    Whole(s, p, lo, 64 * p + 64);
    Nothing(s, false, p, lo, 64 * p + 64, 64 * p + 64);
  }

  /** find_next_zero_bit. */
  method FindNextZeroBit(addr: array<Word>, size: nat, offset: nat) returns (r: nat)
    requires size <= 64 * addr.Length
    ensures Least(addr[..], false, size, offset, r)
  {
    hide *;
    ghost var s := addr[..];
    var p: nat, result: nat, left: nat := offset / 64, offset - offset % 64, size;
    ghost var at: nat := p;
    var tmp: Word;
    if offset >= size {
      AtEnd(s, false, size, offset);
      return size;
    }
    left := left - result;
    var off := offset % 64;
    NothingYet(s, false, offset);
    label Middle: {
      label First: {
        if off != 0 {
          at := p;
          tmp := addr[p];
          p := p + 1;
          tmp := Or(tmp, Down(off));
          CutLow(s, at, off, 64 * p);
          if left < 64 {
            break First;
          }
          if Not(tmp) != 0 {
            Wider(s, false, Not(tmp), at, offset, 64 * p, size);
            break Middle;
          }
          Nothing(s, false, at, offset, 64 * p, 64 * p);
          left := left - 64;
          result := result + 64;
        }
        while left - left % 64 != 0
          invariant result == 64 * p && left + result == size && offset <= result
          invariant result <= 64 * |s| && Without(s, false, offset, result)
        {
          at := p;
          tmp := addr[p];
          p := p + 1;
          if Not(tmp) != 0 {
            Whole(s, p - 1, offset, size);
            break Middle;
          }
          SkipOnes(s, p - 1, offset);
          result := result + 64;
          left := left - 64;
        }
        if left == 0 {
          NoneIsLeast(s, false, size, offset);
          return result;
        }
        at := p;
        tmp := addr[p];
        Whole(s, p, offset, result + 64);
      }
      // found_first
      r := LastClear(tmp, left, s, at, offset, size);
      return result + r;
    }
    // found_middle
    var zeros := LowestIn(Not(tmp), s, false, at, offset, size);
    return result + zeros;
  }

  /** find_last_bit: from the partial last word down. */
  method FindLastBit(addr: array<Word>, size: nat) returns (r: nat)
    requires size <= 64 * addr.Length
    ensures Greatest(addr[..], size, r)
  {
    hide *;
    ghost var s := addr[..];
    var words: nat := size / 64;
    var tmp: Word;
    NoTail(s, size);
    label Found: {
      if size % 64 != 0 {
        tmp := And(addr[words], Down(size % 64));
        Whole(s, words, 0, 64 * words + 64);
        CutHigh(s, addr[words], words, 0, size % 64);
        if tmp != 0 {
          NoTail(s, size);
          break Found;
        }
        EmptyTop(s, words, size);
      }
      while words > 0
        invariant 64 * words <= size && size <= 64 * |s|
        invariant Without(s, true, 64 * words, size)
      {
        words := words - 1;
        tmp := addr[words];
        if tmp != 0 {
          Whole(s, words, 0, size);
          break Found;
        }
        DownOne(s, words, size);
      }
      NoneIsGreatest(s, size);
      return size;
    }
    // found
    var zeros := Clz64(tmp);
    HighestOne(s, tmp, words, size, 63 - zeros);
    return words * 64 + 63 - zeros;
  }

  lemma {:induction false} NoTail(s: seq<Word>, size: nat)
    requires size <= 64 * |s|
    ensures size % 64 == 0 ==> Without(s, true, 64 * (size / 64), size)
  {}

  lemma {:induction false} EmptyTop(s: seq<Word>, p: nat, size: nat)
    requires p < |s| && 64 * p <= size < 64 * p + 64 && Window(s, true, 0, p, 0, size)
    ensures size <= 64 * |s| && Without(s, true, 64 * p, size)
  {
    hide Bit, BitAt;
    forall i | 64 * p <= i < size ensures i < 64 * |s| && !BitAt(s, i) {
      Position(s, p, i - 64 * p);
      ConstBit(i - 64 * p);
    }
  }

  lemma {:induction false} DownOne(s: seq<Word>, p: nat, size: nat)
    requires p < |s| && 64 * (p + 1) <= size <= 64 * |s|
    requires s[p] == 0 && Without(s, true, 64 * (p + 1), size)
    ensures Without(s, true, 64 * p, size)
  {
    hide Bit, BitAt;
    forall i | 64 * p <= i < size ensures !BitAt(s, i) {
      if i < 64 * (p + 1) {
        Position(s, p, i - 64 * p);
        ConstBit(i - 64 * p);
      }
    }
  }

  lemma {:induction false} NoneIsGreatest(s: seq<Word>, size: nat)
    requires size <= 64 * |s| && Without(s, true, 0, size)
    ensures Greatest(s, size, size)
  {}
}
