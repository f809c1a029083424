/** Files as byte sequences, and how a bitmap lies in one (little-endian 64-bit words). */
module Layout {
  import opened Words

  type Byte = bv8

  /** What a file holds after `bytes` are written at `at`; a gap past the old end reads as zeros. */
  function Overwrite(data: seq<Byte>, at: nat, bytes: seq<Byte>): (r: seq<Byte>)
    ensures |r| == if bytes == [] || at + |bytes| <= |data| then |data| else at + |bytes|
    ensures bytes != [] ==> r[at..at + |bytes|] == bytes
    ensures forall i | 0 <= i < |data| && (i < at || at + |bytes| <= i) :: r[i] == data[i]
    ensures forall i | |data| <= i < |r| && i < at :: r[i] == 0
  {
    if bytes == [] then data
    else
      var padded := if |data| < at then data + seq(at - |data|, _ => 0) else data;
      padded[..at] + bytes + if at + |bytes| < |padded| then padded[at + |bytes|..] else []
  }

  /** A write leaves every range that it does not touch as it was. */
  lemma {:induction false} OverwriteElsewhere(data: seq<Byte>, at: nat, bytes: seq<Byte>, lo: nat, hi: nat)
    requires lo <= hi <= |data| && (hi <= at || at + |bytes| <= lo)
    ensures Overwrite(data, at, bytes)[lo..hi] == data[lo..hi]
  {}

  /* ---------- words in bytes ---------- */

  function Bytes(w: Word): (b: seq<Byte>)
    ensures |b| == 8
  {
    [(w & 0xFF) as Byte, ((w >> 8) & 0xFF) as Byte, ((w >> 16) & 0xFF) as Byte, ((w >> 24) & 0xFF) as Byte,
     ((w >> 32) & 0xFF) as Byte, ((w >> 40) & 0xFF) as Byte, ((w >> 48) & 0xFF) as Byte, ((w >> 56) & 0xFF) as Byte]
  }

  function FromBytes(b: seq<Byte>): Word
    requires |b| == 8
  {
    (b[0] as Word) | ((b[1] as Word) << 8) | ((b[2] as Word) << 16) | ((b[3] as Word) << 24)
    | ((b[4] as Word) << 32) | ((b[5] as Word) << 40) | ((b[6] as Word) << 48) | ((b[7] as Word) << 56)
  }

  lemma {:induction false} WordRead(w: Word)
    ensures FromBytes(Bytes(w)) == w
  {}

  function Stored(ws: seq<Word>): (b: seq<Byte>)
    ensures |b| == 8 * |ws|
  {
    if ws == [] then [] else Bytes(ws[0]) + Stored(ws[1..])
  }

  function Loaded(b: seq<Byte>): seq<Word>
    requires |b| % 8 == 0
  {
    if b == [] then [] else [FromBytes(b[..8])] + Loaded(b[8..])
  }

  /** Reading back stored words gives the words. */
  lemma {:induction false} LoadStored(ws: seq<Word>)
    ensures Loaded(Stored(ws)) == ws
  {
    hide Bytes, FromBytes;
    if ws != [] {
      WordRead(ws[0]);
      var b := Stored(ws);
      assert b[..8] == Bytes(ws[0]) && b[8..] == Stored(ws[1..]);
      LoadStored(ws[1..]);
    }
  }
}
