/** A zone's file: two headers, then the blocks. Where each block lies, and what any run of saves leaves in the file. */
module BlockFile {
  import opened Layout
  import opened Unsigned

  const ZONE_SIZE: nat := 88     // sizeof(storage_zone) on LP64
  const MEDIA_SIZE: nat := 40    // sizeof(storage_media)

  /** media_len, in bytes */
  function MediaLen(block_count: nat): nat {
    MEDIA_SIZE + (block_count / 8 + 1) * 8
  }

  /** Where block `index` of a zone begins in the file. */
  function Offset(block_count: nat, block_size: nat, index: nat): nat {
    index * block_size + ZONE_SIZE + MediaLen(block_count)
  }

  /** What fread puts in `buffer`: past the end of the file its old contents stay. */
  function Fetched(data: seq<Byte>, at: nat, buffer: seq<Byte>): (r: seq<Byte>)
    ensures |r| == |buffer|
    ensures forall i | 0 <= i < |buffer| :: r[i] == if at + i < |data| then data[at + i] else buffer[i]
  {
    if at >= |data| then buffer
    else if at + |buffer| <= |data| then data[at..at + |buffer|]
    else data[at..] + buffer[|data| - at..]
  }

  /** The `n` bytes at `at`, as far as the file holds them. */
  function Slice(data: seq<Byte>, at: nat, n: nat): seq<Byte> {
    if at >= |data| then [] else if at + n <= |data| then data[at..at + n] else data[at..]
  }

  lemma {:induction false} Spread(i: nat, j: nat, size: nat)
    requires i < j
    ensures i * size + size <= j * size
  {
    assert j * size == i * size + size + (j - i - 1) * size;
    assert 0 <= (j - i - 1) * size;
  }

  /** Blocks do not overlap each other or the headers. */
  lemma {:induction false} BlocksApart(count: nat, size: nat, i: nat, j: nat)
    requires i < j
    ensures ZONE_SIZE + MediaLen(count) <= Offset(count, size, i)
    ensures Offset(count, size, i) + size <= Offset(count, size, j)
  {
    Spread(i, j, size);
  }

  lemma {:induction false} OffsetFits(count: nat, size: nat, i: nat)
    requires i < count
    ensures ZONE_SIZE + MediaLen(count) <= Offset(count, size, i)
    ensures Offset(count, size, i) + size <= Offset(count, size, count)
  {
    BlocksApart(count, size, i, count);
  }

  /** A write inside block `i` leaves the headers and every other block as they were. */
  lemma {:induction false} WriteKeepsOthers(data: seq<Byte>, count: nat, size: nat, i: nat, off: nat,
                                            bytes: seq<Byte>, j: nat)
    requires off + |bytes| <= size && i != j
    requires ZONE_SIZE + MediaLen(count) <= |data|
    ensures var after := Overwrite(data, Offset(count, size, i) + off, bytes);
            && after[..ZONE_SIZE + MediaLen(count)] == data[..ZONE_SIZE + MediaLen(count)]
            && (Offset(count, size, j) + size <= |data|
                ==> Slice(after, Offset(count, size, j), size) == Slice(data, Offset(count, size, j), size))
  {
    hide Overwrite, Offset;
    if i < j { BlocksApart(count, size, i, j); } else { BlocksApart(count, size, j, i); }
    BlocksApart(count, size, i, i + 1);
  }

  /** The headers and all blocks but the i-th are in `after` as in `data`. */
  ghost predicate Untouched(data: seq<Byte>, after: seq<Byte>, count: nat, size: nat, i: nat) {
    && ZONE_SIZE + MediaLen(count) <= |data| <= |after|
    && after[..ZONE_SIZE + MediaLen(count)] == data[..ZONE_SIZE + MediaLen(count)]
    && forall j: nat | j < count && j != i ::
         Slice(after, Offset(count, size, j), size) == Slice(data, Offset(count, size, j), size)
  }

  /** Whatever the file and the bytes, writing `n` bytes at `p` for block `i` touches nothing else. */
  ghost predicate SparesRest(count: nat, size: nat, i: nat, p: nat, n: nat) {
    forall data, bytes | |data| >= Offset(count, size, count) && |bytes| == n ::
      Untouched(data, Overwrite(data, p, bytes), count, size, i)
  }

  /** From `off` on in block `i`, `n` bytes stay off the blocks behind it. */
  predicate Safe(count: nat, size: nat, i: nat, off: nat, n: nat) {
    off + n <= size || i + 1 == count || off >= (count - i) * size
  }

  /** What save_data and save_data_offset would have to check and do not. */
  predicate SafeAt(count: nat, size: nat, i: nat, p: nat, n: nat) {
    n == 0 || (p >= Offset(count, size, i) && Safe(count, size, i, p - Offset(count, size, i), n))
  }

  /**
   * A write at any place spares the headers and all other blocks of the zone exactly when it is empty, or
   * begins in or behind its block and fits it, has no block left to hit, or begins behind the last one.
   */
  lemma {:induction false} SparesIffSafe(count: nat, size: nat, i: nat, p: nat, n: nat)
    requires 0 < size && i < count
    ensures SparesRest(count, size, i, p, n) <==> SafeAt(count, size, i, p, n)
  {
    hide Slice, Offset, Overwrite, SafeAt, Untouched, MediaLen;
    if SafeAt(count, size, i, p, n) {
      forall data, bytes | |data| >= Offset(count, size, count) && |bytes| == n
        ensures Untouched(data, Overwrite(data, p, bytes), count, size, i)
      {
        SafeSpares(data, count, size, i, p, bytes);
      }
    } else {
      Damage(count, size, i, p, n);
    }
  }

  lemma {:induction false} SafeSpares(data: seq<Byte>, count: nat, size: nat, i: nat, p: nat, bytes: seq<Byte>)
    requires 0 < size && i < count && |data| >= Offset(count, size, count) && SafeAt(count, size, i, p, |bytes|)
    ensures Untouched(data, Overwrite(data, p, bytes), count, size, i)
  {
    hide Overwrite, Offset, Slice, MediaLen;
    OffsetFits(count, size, i);
    if bytes == [] {
      EmptyWrite(data, p);
    } else {
      OverwriteElsewhere(data, p, bytes, 0, ZONE_SIZE + MediaLen(count));
      forall j: nat | j < count && j != i
        ensures Slice(Overwrite(data, p, bytes), Offset(count, size, j), size)
             == Slice(data, Offset(count, size, j), size)
      {
        SafeBlock(data, count, size, i, p, bytes, j);
      }
    }
  }

  lemma {:induction false} SafeBlock(data: seq<Byte>, count: nat, size: nat, i: nat, p: nat, bytes: seq<Byte>, j: nat)
    requires 0 < size && i < count && j < count && j != i && |data| >= Offset(count, size, count) && bytes != []
    requires SafeAt(count, size, i, p, |bytes|)
    ensures Slice(Overwrite(data, p, bytes), Offset(count, size, j), size) == Slice(data, Offset(count, size, j), size)
  {
    hide Overwrite, Offset;
    var lo := Offset(count, size, j);
    OffsetFits(count, size, j);
    if j < i { BlocksApart(count, size, j, i); } else { BlocksApart(count, size, i, j); }
    PastTheEnd(count, size, i, p - Offset(count, size, i));
    OverwriteElsewhere(data, p, bytes, lo, lo + size);
  }

  lemma {:induction false} EmptyWrite(data: seq<Byte>, at: nat)
    ensures Overwrite(data, at, []) == data
  {}

  lemma {:induction false} PastTheEnd(count: nat, size: nat, i: nat, off: nat)
    requires i <= count
    ensures off >= (count - i) * size <==> Offset(count, size, i) + off >= Offset(count, size, count)
  {
    assert count * size == i * size + (count - i) * size;
  }

  /** A write that is not safe hits a header or another block: a file of zeros and a write of ones show it. */
  lemma {:induction false} Damage(count: nat, size: nat, i: nat, p: nat, n: nat)
    requires 0 < size && i < count && !SafeAt(count, size, i, p, n)
    ensures !SparesRest(count, size, i, p, n)
  {
    hide Overwrite, Offset, Slice, Safe, Copies, SparesRest, MediaLen;
    var base := Offset(count, size, i);
    OffsetFits(count, size, i);
    if p < ZONE_SIZE + MediaLen(count) {
      HeaderHit(count, size, i, p, n);
    } else if p < base {
      var j := (p - (ZONE_SIZE + MediaLen(count))) / size;
      EarlierBlock(count, size, i, p, j);
      BlockHit(count, size, i, p, n, p, j);
    } else {
      var off := p - base;
      var first := if off < size then size else off;
      UnsafePlace(count, size, i, off, n, first);
      var j := i + first / size;
      HitBlock(count, size, i, first, j);
      BlockHit(count, size, i, p, n, base + first, j);
    }
  }

  lemma {:induction false} HeaderHit(count: nat, size: nat, i: nat, p: nat, n: nat)
    requires n > 0 && p < ZONE_SIZE + MediaLen(count) <= Offset(count, size, count)
    ensures !SparesRest(count, size, i, p, n)
  {
    hide Overwrite, Offset, Slice, MediaLen;
    var data, bytes := Copies(Offset(count, size, count), 0), Copies(n, 1);
    var after := Overwrite(data, p, bytes);
    assert after[p..p + n][0] == 1;
    assert after[..ZONE_SIZE + MediaLen(count)][p] == 1 && data[..ZONE_SIZE + MediaLen(count)][p] == 0;
    assert SparesRest(count, size, i, p, n) ==> Untouched(data, after, count, size, i);
  }

  lemma {:induction false} BlockHit(count: nat, size: nat, i: nat, p: nat, n: nat, q: nat, j: nat)
    requires p <= q < p + n && j < count && j != i
    requires Offset(count, size, j) <= q < Offset(count, size, j) + size <= Offset(count, size, count)
    ensures !SparesRest(count, size, i, p, n)
  {
    hide Overwrite, Offset, Slice, MediaLen, Copies;
    var data, bytes := Copies(Offset(count, size, count), 0), Copies(n, 1);
    Flipped(Offset(count, size, count), n, p, q, Offset(count, size, j), size);
    assert SparesRest(count, size, i, p, n) ==> Untouched(data, Overwrite(data, p, bytes), count, size, i);
  }

  lemma {:induction false} EarlierBlock(count: nat, size: nat, i: nat, p: nat, j: nat)
    requires 0 < size && i < count && ZONE_SIZE + MediaLen(count) <= p < Offset(count, size, i)
    requires j == (p - (ZONE_SIZE + MediaLen(count))) / size
    ensures j < i && Offset(count, size, j) <= p < Offset(count, size, j) + size <= Offset(count, size, count)
  {
    var r := p - (ZONE_SIZE + MediaLen(count));
    assert r == j * size + r % size;
    assert (j - i) * size == j * size - i * size;
    NotNegative(j - i, size);
    OffsetFits(count, size, j);
  }

  lemma {:induction false} UnsafePlace(count: nat, size: nat, i: nat, off: nat, n: nat, first: nat)
    requires 0 < size && 0 < n && i < count && !Safe(count, size, i, off, n)
    requires first == if off < size then size else off
    ensures size <= first < (count - i) * size && off <= first < off + n
  {
    Spread(1, count - i, size);
  }

  function Copies(n: nat, b: Byte): (r: seq<Byte>)
    ensures |r| == n && forall i | 0 <= i < n :: r[i] == b
  {
    seq(n, _ => b)
  }

  lemma {:induction false} Flipped(len: nat, n: nat, at: nat, p: nat, lo: nat, size: nat)
    requires at <= p < at + n && lo <= p < lo + size <= len
    ensures Slice(Overwrite(Copies(len, 0), at, Copies(n, 1)), lo, size) != Slice(Copies(len, 0), lo, size)
  {
    hide Overwrite, Slice;
    var data, bytes := Copies(len, 0), Copies(n, 1);
    SpilledByte(data, at, bytes, p, lo, size);
    SliceByte(data, lo, size, p);
  }

  lemma {:induction false} SliceByte(data: seq<Byte>, lo: nat, size: nat, p: nat)
    requires lo <= p < lo + size <= |data|
    ensures p - lo < |Slice(data, lo, size)| && Slice(data, lo, size)[p - lo] == data[p]
  {}

  lemma {:induction false} HitBlock(count: nat, size: nat, i: nat, first: nat, j: nat)
    requires 0 < size && i < count && size <= first < (count - i) * size && j == i + first / size
    ensures i < j < count
    ensures Offset(count, size, j) <= Offset(count, size, i) + first < Offset(count, size, j) + size
    ensures Offset(count, size, j) + size <= Offset(count, size, count)
  {
    var q := first / size;
    assert first == q * size + first % size;
    assert j * size == i * size + q * size;
    assert (q - (count - i)) * size == q * size - (count - i) * size;
    NotNegative(q - (count - i), size);
    OffsetFits(count, size, j);
  }

  /** Byte `p` of a write, seen in the block at `lo`. */
  lemma {:induction false} SpilledByte(data: seq<Byte>, at: nat, bytes: seq<Byte>, p: nat, lo: nat, size: nat)
    requires at <= p < at + |bytes| && lo <= p < lo + size
    ensures var block := Slice(Overwrite(data, at, bytes), lo, size);
            p - lo < |block| && block[p - lo] == bytes[p - at]
  {
    hide Overwrite;
    var after := Overwrite(data, at, bytes);
    assert after[at..at + |bytes|][p - at] == bytes[p - at];
  }

  /** A save past the end of its block, with a block behind it, overwrites the beginning of that one. */
  lemma {:induction false} LongWriteSpills(data: seq<Byte>, count: nat, size: nat, i: nat, off: nat, bytes: seq<Byte>)
    requires 0 < size && i + 1 < count && off <= size < off + |bytes|
    ensures var next := Slice(Overwrite(data, Offset(count, size, i) + off, bytes), Offset(count, size, i + 1), size);
            |next| > 0 && next[0] == bytes[size - off]
  {
    hide Overwrite;
    assert (i + 1) * size == i * size + size;
    var at := Offset(count, size, i);
    SpilledByte(data, at + off, bytes, at + size, at + size, size);
  }

  /* ---------- what any run of saves leaves in a zone's file ---------- */

  datatype Save = Save(index: nat, off: nat, bytes: seq<Byte>)

  function Replay(data: seq<Byte>, count: nat, size: nat, saves: seq<Save>): seq<Byte>
    decreases |saves|
  {
    if saves == [] then data
    else
      var s := saves[0];
      Replay(Overwrite(data, Offset(count, size, s.index) + s.off, s.bytes), count, size, saves[1..])
  }

  /** Every save stays inside its block. */
  ghost predicate Inside(saves: seq<Save>, count: nat, size: nat) {
    forall k | 0 <= k < |saves| :: saves[k].index < count && saves[k].off + |saves[k].bytes| <= size
  }

  predicate Elsewhere(s: Save, count: nat, size: nat, lo: nat, hi: nat) {
    hi <= Offset(count, size, s.index) + s.off || Offset(count, size, s.index) + s.off + |s.bytes| <= lo
  }

  /** Saves to other places leave a part of the file as it was. */
  lemma {:induction false} ReplayKeeps(data: seq<Byte>, count: nat, size: nat, saves: seq<Save>, lo: nat, hi: nat)
    requires lo <= hi <= |data| && forall k | 0 <= k < |saves| :: Elsewhere(saves[k], count, size, lo, hi)
    ensures |Replay(data, count, size, saves)| >= |data|
    ensures Replay(data, count, size, saves)[lo..hi] == data[lo..hi]
    decreases |saves|
  {
    hide Overwrite, Offset;
    if saves != [] {
      var s := saves[0];
      OverwriteElsewhere(data, Offset(count, size, s.index) + s.off, s.bytes, lo, hi);
      ReplayKeeps(Overwrite(data, Offset(count, size, s.index) + s.off, s.bytes), count, size, saves[1..], lo, hi);
    }
  }

  lemma {:induction false} ReplaySplit(data: seq<Byte>, count: nat, size: nat, before: seq<Save>, after: seq<Save>)
    ensures Replay(data, count, size, before + after) == Replay(Replay(data, count, size, before), count, size, after)
    decreases |before|
  {
    hide Overwrite, Offset;
    if before == [] {
      assert before + after == after;
    } else {
      var s := before[0];
      assert (before + after)[1..] == before[1..] + after;
      ReplaySplit(Overwrite(data, Offset(count, size, s.index) + s.off, s.bytes), count, size, before[1..], after);
    }
  }

  /** Reading block `i` gives the bytes of the last save to that part of it, whatever was saved elsewhere since. */
  lemma {:induction false} LastSaveReads(data: seq<Byte>, count: nat, size: nat, before: seq<Save>, last: Save,
                                         after: seq<Save>, buffer: seq<Byte>)
    requires Inside(after, count, size) && last.off + |last.bytes| <= size == |buffer|
    requires forall k | 0 <= k < |after| :: after[k].index != last.index || Apart(after[k], last.off, |last.bytes|)
    ensures var file := Replay(data, count, size, before + [last] + after);
            Fetched(file, Offset(count, size, last.index), buffer)[last.off..last.off + |last.bytes|] == last.bytes
  {
    hide Overwrite, Offset, Fetched, Replay, Elsewhere;
    var mid := Replay(data, count, size, before + [last]);
    var at, bytes := Offset(count, size, last.index), last.bytes;
    ReplaySplit(data, count, size, before, [last]);
    ReplaySplit(data, count, size, before + [last], after);
    ReplayOne(Replay(data, count, size, before), count, size, last);
    if bytes != [] {
      forall k | 0 <= k < |after| ensures Elsewhere(after[k], count, size, at + last.off, at + last.off + |bytes|) {
        PartsApart(after[k], last, count, size);
      }
      ReplayKeeps(mid, count, size, after, at + last.off, at + last.off + |bytes|);
      FetchedPart(Replay(mid, count, size, after), at, last.off, bytes, buffer);
    }
  }

  /** A save that writes nothing from `off` to `off + n` of its block. */
  predicate Apart(s: Save, off: nat, n: nat) {
    s.off + |s.bytes| <= off || off + n <= s.off
  }

  lemma {:induction false} PartsApart(s: Save, last: Save, count: nat, size: nat)
    requires s.off + |s.bytes| <= size && last.off + |last.bytes| <= size
    requires s.index != last.index || Apart(s, last.off, |last.bytes|)
    ensures var at := Offset(count, size, last.index) + last.off;
            Elsewhere(s, count, size, at, at + |last.bytes|)
  {
    hide Offset;
    if last.index < s.index { BlocksApart(count, size, last.index, s.index); }
    if s.index < last.index { BlocksApart(count, size, s.index, last.index); }
  }

  lemma {:induction false} ReplayOne(data: seq<Byte>, count: nat, size: nat, s: Save)
    ensures Replay(data, count, size, [s]) == Overwrite(data, Offset(count, size, s.index) + s.off, s.bytes)
  {
    hide Overwrite, Offset;
    assert [s][1..] == [];
  }

  lemma {:induction false} FetchedPart(data: seq<Byte>, at: nat, off: nat, bytes: seq<Byte>, buffer: seq<Byte>)
    requires at + off + |bytes| <= |data| && data[at + off..at + off + |bytes|] == bytes && off + |bytes| <= |buffer|
    ensures Fetched(data, at, buffer)[off..off + |bytes|] == bytes
  {
    hide Fetched;
    forall i | 0 <= i < |bytes| ensures Fetched(data, at, buffer)[off + i] == bytes[i] {
      assert data[at + off..at + off + |bytes|][i] == data[at + off + i];
    }
  }

  /** No run of saves touches the zone header, the allocator's header or its bitmap. */
  lemma {:induction false} SavesKeepHeaders(data: seq<Byte>, count: nat, size: nat, saves: seq<Save>)
    requires Inside(saves, count, size) && ZONE_SIZE + MediaLen(count) <= |data|
    ensures var file := Replay(data, count, size, saves);
            |file| >= |data| && file[..ZONE_SIZE + MediaLen(count)] == data[..ZONE_SIZE + MediaLen(count)]
  {
    hide Overwrite, Offset, Replay, MediaLen;
    forall k | 0 <= k < |saves| ensures Elsewhere(saves[k], count, size, 0, ZONE_SIZE + MediaLen(count)) {
      OffsetFits(count, size, saves[k].index);
    }
    ReplayKeeps(data, count, size, saves, 0, ZONE_SIZE + MediaLen(count));
  }
}
