/** The single-bit operations of bitops.h on an array of words. */
module BitOps {
  import opened Words
  import opened BitSearch

  /** `t` is `s` with the bits of [lo, hi) made `b` and every other bit as it was. */
  ghost predicate Ranged(s: seq<Word>, t: seq<Word>, lo: nat, hi: nat, b: bool) {
    |t| == |s|
    && forall i | 0 <= i < 64 * |s| :: BitAt(t, i) == if lo <= i < hi then b else BitAt(s, i)
  }

  /** A bitmap is its bits. */
  lemma {:induction false} SameWords(s: seq<Word>, t: seq<Word>)
    requires |s| == |t| && forall i | 0 <= i < 64 * |s| :: BitAt(s, i) == BitAt(t, i)
    ensures s == t
  {
    hide Bit, BitAt;
    forall p | 0 <= p < |s| ensures s[p] == t[p] {
      forall i | 0 <= i < 64 ensures Bit(s[p], i) == Bit(t[p], i) {
        Position(s, p, i);
        Position(t, p, i);
      }
      SameBits(s[p], t[p]);
    }
  }

  /** Writing one word whose bits differ exactly in [lo, hi) of that word. */
  lemma {:induction false} WriteWord(s: seq<Word>, p: nat, w: Word, lo: nat, hi: nat, b: bool)
    requires p < |s| && 64 * p <= lo && hi <= 64 * p + 64
    requires forall i | 0 <= i < 64 :: Bit(w, i) == if lo <= 64 * p + i < hi then b else Bit(s[p], i)
    ensures Ranged(s, s[p := w], lo, hi, b)
  {
    hide Bit;
    forall i | 0 <= i < 64 * |s| ensures BitAt(s[p := w], i) == if lo <= i < hi then b else BitAt(s, i) {
      if i / 64 == p {
        assert i == 64 * p + i % 64;
      }
    }
  }

  lemma {:induction false} ChangedSame(s: seq<Word>, w: Word, nr: nat)
    requires nr < 64 * |s|
    requires forall i | 0 <= i < 64 :: Bit(w, i) == if i == nr % 64 then !BitAt(s, nr) else Bit(s[nr / 64], i)
    ensures Ranged(s, s[nr / 64 := w], nr, nr + 1, !BitAt(s, nr))
  {
    hide Bit;
    WriteWord(s, nr / 64, w, nr, nr + 1, !BitAt(s, nr));
  }

  /** set_bit */
  method SetBit(nr: nat, addr: array<Word>)
    requires nr < 64 * addr.Length
    modifies addr
    ensures Ranged(old(addr[..]), addr[..], nr, nr + 1, true)
  {
    hide *;
    var mask, p := One(nr % 64), nr / 64;
    ghost var s := addr[..];
    addr[p] := Or(addr[p], mask);
    WriteWord(s, p, addr[p], nr, nr + 1, true);
  }

  /** clear_bit */
  method ClearBit(nr: nat, addr: array<Word>)
    requires nr < 64 * addr.Length
    modifies addr
    ensures Ranged(old(addr[..]), addr[..], nr, nr + 1, false)
  {
    hide *;
    var mask, p := One(nr % 64), nr / 64;
    ghost var s := addr[..];
    addr[p] := And(addr[p], Not(mask));
    WriteWord(s, p, addr[p], nr, nr + 1, false);
  }

  /** change_bit */
  method ChangeBit(nr: nat, addr: array<Word>)
    requires nr < 64 * addr.Length
    modifies addr
    ensures Ranged(old(addr[..]), addr[..], nr, nr + 1, !BitAt(old(addr[..]), nr))
  {
    hide Bit, One, Xor;
    var mask, p := One(nr % 64), nr / 64;
    ghost var s := addr[..];
    addr[p] := Xor(addr[p], mask);
    ChangedSame(s, addr[p], nr);
  }

  /** test_bit */
  method TestBit(nr: nat, addr: array<Word>) returns (r: bool)
    requires nr < 64 * addr.Length
    ensures r == BitAt(addr[..], nr)
  {
    r := (addr[nr / 64] >> (nr % 64)) & 1 == 1;
  }

  /** The word `old & mask`, with a mask of one bit, is non-zero exactly when that bit is set. */
  lemma {:induction false} OldBit(w: Word, k: nat)
    requires k < 64
    ensures And(w, One(k)) != 0 <==> Bit(w, k)
  {
    hide Bit, And, One;
    ZeroBits(And(w, One(k)));
  }

  /** test_and_set_bit */
  method TestAndSetBit(nr: nat, addr: array<Word>) returns (was: bool)
    requires nr < 64 * addr.Length
    modifies addr
    ensures Ranged(old(addr[..]), addr[..], nr, nr + 1, true) && was == BitAt(old(addr[..]), nr)
  {
    hide Bit, One, And, Or;
    var mask, p := One(nr % 64), nr / 64;
    ghost var s := addr[..];
    var word := addr[p];
    addr[p] := Or(word, mask);
    WriteWord(s, p, addr[p], nr, nr + 1, true);
    OldBit(word, nr % 64);
    return And(word, mask) != 0;
  }

  /** test_and_clear_bit */
  method TestAndClearBit(nr: nat, addr: array<Word>) returns (was: bool)
    requires nr < 64 * addr.Length
    modifies addr
    ensures Ranged(old(addr[..]), addr[..], nr, nr + 1, false) && was == BitAt(old(addr[..]), nr)
  {
    hide Bit, One, And, Not;
    var mask, p := One(nr % 64), nr / 64;
    ghost var s := addr[..];
    var word := addr[p];
    addr[p] := And(word, Not(mask));
    WriteWord(s, p, addr[p], nr, nr + 1, false);
    OldBit(word, nr % 64);
    return And(word, mask) != 0;
  }

  /** test_and_change_bit */
  method TestAndChangeBit(nr: nat, addr: array<Word>) returns (was: bool)
    requires nr < 64 * addr.Length
    modifies addr
    ensures was == BitAt(old(addr[..]), nr)
    ensures Ranged(old(addr[..]), addr[..], nr, nr + 1, !was)
  {
    hide Bit, One, And, Xor;
    var mask, p := One(nr % 64), nr / 64;
    ghost var s := addr[..];
    var word := addr[p];
    addr[p] := Xor(word, mask);
    ChangedSame(s, addr[p], nr);
    OldBit(word, nr % 64);
    return And(word, mask) != 0;
  }
}
