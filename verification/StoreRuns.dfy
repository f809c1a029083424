/** Runs of the block store: allocations, saves and reads on all zones, in any order. */
module StoreRuns {
  import opened Words
  import opened AllocRuns
  import opened Layout
  import opened BlockFile
  import opened StorageIds
  import opened Unsigned
  import opened BlockStore

  /** A run: the states of all zones before and after each call, and the calls. */
  ghost predicate Calls(zones: seq<Zone>, ss: seq<seq<ZoneState>>, ops: seq<Op>) {
    |ss| == |ops| + 1 && forall k | 0 <= k < |ops| :: Next(zones, ss[k], ss[k + 1], ops[k])
  }

  /** The id leads to a block of a block zone. */
  predicate Named(zones: seq<Zone>, id: Id) {
    Served(zones, ZoneOf(id)) && Addressed(zones, id)
  }

  /** The zone of an id that leads to a block. */
  function Target(zones: seq<Zone>, id: Id): Zone
    requires Named(zones, id)
  {
    zones[Find(zones, ZoneOf(id))]
  }

  predicate SameBlock(zones: seq<Zone>, id: Id, id': Id)
    requires Named(zones, id) && Named(zones, id')
  {
    Find(zones, ZoneOf(id)) == Find(zones, ZoneOf(id'))
        && Target(zones, id).BlockOf(id) == Target(zones, id').BlockOf(id')
  }

  /** The indices that lead to block `b` of a zone: file_index is an int, so every 2^32-th lap of the zone does. */
  lemma {:induction false} IndicesOfBlock(z: Zone, id: Id, b: nat)
    requires b < z.block_count
    ensures z.FileOf(id) == 0 && z.BlockOf(id) == b <==> exists m: nat :: IndexOf(id) == b + m * INT * z.block_count
  {
    hide IndexOf;
    var x, count := IndexOf(id), z.block_count;
    AsIntZero(x / count);
    assert x == x / count * count + x % count;
    if z.FileOf(id) == 0 && z.BlockOf(id) == b {
      var m := x / count / INT;
      assert x / count == m * INT;
      assert x == b + m * INT * count;
    }
    if m: nat :| x == b + m * INT * count {
      QuotientUnique(x, count, m * INT, b);
      QuotientUnique(m * INT, INT, m, 0);
    }
  }

  /** Two ids lead to one block exactly when the zones agree and the indices differ by such laps. */
  lemma {:induction false} SameBlockIff(zones: seq<Zone>, id: Id, id': Id)
    requires Named(zones, id) && Named(zones, id')
    ensures SameBlock(zones, id, id')
       <==> ZoneOf(id) == ZoneOf(id')
            && exists m: int :: IndexOf(id) == IndexOf(id') + m * INT * Target(zones, id).block_count
  {
    hide IndexOf, ZoneOf, Zone.FileOf, Zone.BlockOf;
    FindPlace(zones, ZoneOf(id));
    FindPlace(zones, ZoneOf(id'));
    if ZoneOf(id) == ZoneOf(id') {
      var z := Target(zones, id);
      IndicesOfBlock(z, id, z.BlockOf(id));
      IndicesOfBlock(z, id', z.BlockOf(id'));
      var m: nat :| IndexOf(id) == z.BlockOf(id) + m * INT * z.block_count;
      var m': nat :| IndexOf(id') == z.BlockOf(id') + m' * INT * z.block_count;
      LapsApart(IndexOf(id), IndexOf(id'), z.block_count, z.BlockOf(id), z.BlockOf(id'), m, m');
    }
  }

  lemma {:induction false} LapsApart(x: nat, x': nat, count: nat, b: nat, b': nat, m: nat, m': nat)
    requires b < count && b' < count && x == b + m * INT * count && x' == b' + m' * INT * count
    ensures b == b' <==> exists d: int :: x == x' + d * INT * count
  {
    if b == b' {
      assert (m - m') * INT * count == m * INT * count - m' * INT * count;
    }
    if d: int :| x == x' + d * INT * count {
      var e := (m' + d - m) * INT;
      assert e * count == m' * INT * count + d * INT * count - m * INT * count;
      assert b - b' == e * count;
      NoMultiple(b - b', e, count);
    }
  }

  lemma {:induction false} NoMultiple(x: int, e: int, count: nat)
    requires x < count && 0 < x + count && x == e * count
    ensures x == 0
  {
    assert -e * count == -x;
    if e > 0 { MulMore(e, count); }
    if e < 0 { MulMore(-e, count); }
  }

  /** Ids with the index of a block in them, as the allocator hands them out, are different for different blocks. */
  lemma {:induction false} DifferentBlocks(zones: seq<Zone>, id: Id, id': Id)
    requires Named(zones, id) && Named(zones, id')
    requires IndexOf(id) < Target(zones, id).block_count && IndexOf(id') < Target(zones, id').block_count
    ensures SameBlock(zones, id, id') <==> id == id'
  {
    hide Encode, IndexOf, ZoneOf;
    FindPlace(zones, ZoneOf(id));
    FindPlace(zones, ZoneOf(id'));
    DecodeThenEncode(id);
    DecodeThenEncode(id');
    QuotientUnique(IndexOf(id), Target(zones, id).block_count, 0, IndexOf(id));
    QuotientUnique(IndexOf(id'), Target(zones, id').block_count, 0, IndexOf(id'));
  }

  /**
   * The allocator's ids lead to a block, and no other zone or lap does: id 7 and 1000 * 2^32 + 7 share block 7
   * of 1000.
   */
  lemma {:induction false} TwoIdsOneBlock(zones: seq<Zone>)
    requires Served(zones, 0) && zones[Find(zones, 0)].block_count == 1000
    ensures var id, id' := 7, 1000 * INT + 7;
            Named(zones, id) && Named(zones, id') && SameBlock(zones, id, id')
  {
    hide Find;
    var z := zones[Find(zones, 0)];
    assert ZoneOf(7) == 0 && ZoneOf(1000 * INT + 7) == 0;
    assert IndexOf(7) == 7 && IndexOf(1000 * INT + 7) == 1000 * INT + 7;
    assert z.FileOf(7) == 0 && z.FileOf(1000 * INT + 7) == 0;
  }

  /** The save fits the block it leads to. */
  predicate Fits(zones: seq<Zone>, op: Op)
    requires op.SaveOp? && Named(zones, op.id)
  {
    0 <= op.off && op.off + |op.bytes| <= Target(zones, op.id).block_size
  }

  /**
   * Exactly which saves leave the headers and all other blocks alone, whatever the file and the bytes: with a
   * place that fseek accepts, those from the block on that are safe there; with a refused one, where the file stands.
   */
  lemma {:induction false} SaveSparesIff(z: Zone, s: ZoneState, i: nat, off: int, n: nat)
    requires 0 < z.block_size && i < z.block_count
    ensures var count, size, base := z.block_count, z.block_size, Offset(z.block_count, z.block_size, i);
            SparesRest(count, size, i, Place(z, s, i, off), n) <==>
              (n == 0
               || (base + off >= 0 && off >= 0 && Safe(count, size, i, off, n))
               || (base + off < 0 && s.pos >= base && Safe(count, size, i, s.pos - base, n)))
  {
    hide Safe, SparesRest, Offset;
    SparesIffSafe(z.block_count, z.block_size, i, Place(z, s, i, off), n);
  }

  /** Block `id` holds `bytes` from `off` on. */
  ghost predicate Holds(zones: seq<Zone>, s: seq<ZoneState>, id: Id, off: nat, bytes: seq<Byte>)
    requires Named(zones, id) && |s| == |zones|
  {
    var z := Target(zones, id);
    var at, data := Offset(z.block_count, z.block_size, z.BlockOf(id)) + off, s[Find(zones, ZoneOf(id))].data;
    at + |bytes| <= |data| && data[at..at + |bytes|] == bytes
  }

  /** A call leaves bytes `off` to `off + n` of the block alone. */
  predicate Spares(zones: seq<Zone>, id: Id, off: nat, n: nat, op: Op)
    requires Named(zones, id)
  {
    op.SaveOp? && Named(zones, op.id) ==>
      Fits(zones, op) && (SameBlock(zones, op.id, id) ==> op.off + |op.bytes| <= off || off + n <= op.off)
  }

  /** One call that leaves a part of a block alone leaves what it holds. */
  lemma {:induction false} HoldsStays(zones: seq<Zone>, s: seq<ZoneState>, t: seq<ZoneState>, op: Op, id: Id,
                                      off: nat, bytes: seq<Byte>)
    requires Named(zones, id) && Next(zones, s, t, op) && Spares(zones, id, off, |bytes|, op)
    requires off + |bytes| <= zones[Find(zones, ZoneOf(id))].block_size && Holds(zones, s, id, off, bytes)
    ensures Holds(zones, t, id, off, bytes)
  {
    hide Encode, IndexOf, ZoneOf, Find, Alloc, Offset, Overwrite, Zone.FileOf, Zone.BlockOf;
    var k := Find(zones, ZoneOf(id));
    var z := zones[k];
    var at := Offset(z.block_count, z.block_size, z.BlockOf(id)) + off;
    OffsetFits(z.block_count, z.block_size, z.BlockOf(id));
    match op
    case AllocOp(zone_id, _, _) =>
      if Served(zones, zone_id) && Find(zones, zone_id) == k {
        forall i | at <= i < at + |bytes| ensures t[k].data[i] == s[k].data[i] {}
        assert t[k].data[at..at + |bytes|] == s[k].data[at..at + |bytes|];
      }
    case SaveOp(id', off', more) =>
      if Named(zones, id') && Find(zones, ZoneOf(id')) == k {
        PartsApart(Save(z.BlockOf(id'), off', more), Save(z.BlockOf(id), off, bytes), z.block_count, z.block_size);
        OverwriteElsewhere(s[k].data, Place(z, s[k], z.BlockOf(id'), off'), more, at, at + |bytes|);
      }
    case ReadOp(_) =>
  }

  /** A save makes its block hold the bytes. */
  lemma {:induction false} SaveHolds(zones: seq<Zone>, s: seq<ZoneState>, t: seq<ZoneState>, id: Id, off: nat,
                                     bytes: seq<Byte>)
    requires Named(zones, id) && Next(zones, s, t, SaveOp(id, off, bytes)) && bytes != []
    ensures Holds(zones, t, id, off, bytes)
  {
    hide Encode, IndexOf, ZoneOf, Find, Alloc, Offset, Overwrite, Zone.FileOf, Zone.BlockOf;
  }

  lemma {:induction false} HoldsLong(zones: seq<Zone>, ss: seq<seq<ZoneState>>, ops: seq<Op>, i: nat, m: nat, id: Id,
                                     off: nat, bytes: seq<Byte>)
    requires Calls(zones, ss, ops) && i < m <= |ops| && Named(zones, id) && bytes != []
    requires ops[i] == SaveOp(id, off, bytes) && off + |bytes| <= zones[Find(zones, ZoneOf(id))].block_size
    requires forall j | i < j < m :: Spares(zones, id, off, |bytes|, ops[j])
    ensures |ss[m]| == |zones| && Holds(zones, ss[m], id, off, bytes)
    decreases m
  {
    hide Named, Spares, Holds, Next, Find;
    assert Next(zones, ss[m - 1], ss[m - 1 + 1], ops[m - 1]);
    NextSizes(zones, ss[m - 1], ss[m], ops[m - 1]);
    if m == i + 1 {
      SaveHolds(zones, ss[i], ss[m], id, off, bytes);
    } else {
      HoldsLong(zones, ss, ops, i, m - 1, id, off, bytes);
      HoldsStays(zones, ss[m - 1], ss[m], ops[m - 1], id, off, bytes);
    }
  }

  lemma {:induction false} NextSizes(zones: seq<Zone>, s: seq<ZoneState>, t: seq<ZoneState>, op: Op)
    requires Next(zones, s, t, op)
    ensures |s| == |t| == |zones|
  {}

  /**
   * Whatever is allocated, saved and read in between, on this zone and on all others: a read of a block gives the
   * bytes of the last save at their offset, as long as the saves in between fit their blocks and miss those bytes.
   */
  lemma {:induction false} ReadsLastSave(zones: seq<Zone>, ss: seq<seq<ZoneState>>, ops: seq<Op>, i: nat, m: nat,
                                         id: Id, off: nat, bytes: seq<Byte>, buffer: seq<Byte>)
    requires Calls(zones, ss, ops) && i < m <= |ops| && Named(zones, id)
    requires ops[i] == SaveOp(id, off, bytes)
    requires off + |bytes| <= zones[Find(zones, ZoneOf(id))].block_size == |buffer|
    requires forall j | i < j < m :: Spares(zones, id, off, |bytes|, ops[j])
    ensures |ss[m]| == |zones|
    ensures var k := Find(zones, ZoneOf(id)); var z := zones[k];
            var r := Fetched(ss[m][k].data, Offset(z.block_count, z.block_size, z.BlockOf(id)), buffer);
            r[off..off + |bytes|] == bytes
  {
    hide Next, Fetched, Spares, Find, Offset;
    assert Next(zones, ss[m - 1], ss[m - 1 + 1], ops[m - 1]);
    NextSizes(zones, ss[m - 1], ss[m], ops[m - 1]);
    if bytes != [] {
      HoldsLong(zones, ss, ops, i, m, id, off, bytes);
      var k := Find(zones, ZoneOf(id));
      FetchedPart(ss[m][k].data, Offset(zones[k].block_count, zones[k].block_size, zones[k].BlockOf(id)), off,
                  bytes, buffer);
    }
  }

  /* ---------- ids over runs of the whole store ---------- */

  /** The block is marked as taken in its zone. */
  ghost predicate Marked(zones: seq<Zone>, s: seq<ZoneState>, k: nat, index: nat)
    requires k < |zones| == |s|
  {
    index < zones[k].block_count <= 64 * |s[k].bits| && index in Taken(s[k].bits, zones[k].block_count)
  }

  /** No call frees a block. */
  lemma {:induction false} MarkStays(zones: seq<Zone>, s: seq<ZoneState>, t: seq<ZoneState>, op: Op, k: nat, index: nat)
    requires Next(zones, s, t, op) && k < |zones| && Marked(zones, s, k, index)
    ensures Marked(zones, t, k, index)
  {
    hide Encode, IndexOf, ZoneOf, Find, Alloc, Taken;
    if op.AllocOp? && Served(zones, op.zone_id) && Find(zones, op.zone_id) == k {
      AllocTakes(s[k].bits, t[k].bits, zones[k].block_count, op.index);
    }
  }

  lemma {:induction false} MarkLong(zones: seq<Zone>, ss: seq<seq<ZoneState>>, ops: seq<Op>, i: nat, m: nat, k: nat,
                                    index: nat)
    requires Calls(zones, ss, ops) && i <= m <= |ops| && k < |zones| == |ss[i]| && Marked(zones, ss[i], k, index)
    ensures |ss[m]| == |zones| && Marked(zones, ss[m], k, index)
    decreases m
  {
    hide Next, Marked;
    if i < m {
      MarkLong(zones, ss, ops, i, m - 1, k, index);
      assert Next(zones, ss[m - 1], ss[m - 1 + 1], ops[m - 1]);
      NextSizes(zones, ss[m - 1], ss[m], ops[m - 1]);
      MarkStays(zones, ss[m - 1], ss[m], ops[m - 1], k, index);
    }
  }

  /** A call that handed out a block: the zone exists, has a number below 256, and was not full. */
  ghost predicate Granted(zones: seq<Zone>, op: Op) {
    && op.AllocOp? && Served(zones, op.zone_id) && op.zone_id < 256
    && op.index < zones[Find(zones, op.zone_id)].block_count < INT_LIMIT
  }

  lemma {:induction false} GrantMarks(zones: seq<Zone>, s: seq<ZoneState>, t: seq<ZoneState>, op: Op)
    requires Next(zones, s, t, op) && Granted(zones, op)
    ensures var k := Find(zones, op.zone_id);
            !Marked(zones, s, k, op.index) && Marked(zones, t, k, op.index)
  {
    hide Encode, Find, Alloc, Taken;
    var k := Find(zones, op.zone_id);
    AllocCovers(s[k].bits, t[k].bits, zones[k].block_count, op.index);
    AllocTakes(s[k].bits, t[k].bits, zones[k].block_count, op.index);
  }

  lemma {:induction false} AllocCovers(s: seq<Word>, t: seq<Word>, count: nat, r: nat)
    requires Alloc(s, t, count, r)
    ensures count < 64 * |s| && |t| == |s|
  {}

  /** No two blocks that a store ever hands out, in any zones and with any calls in between, have the same id. */
  lemma {:induction false} IdsDiffer(zones: seq<Zone>, ss: seq<seq<ZoneState>>, ops: seq<Op>, i: nat, j: nat)
    requires Calls(zones, ss, ops) && i < j < |ops| && Granted(zones, ops[i]) && Granted(zones, ops[j])
    ensures ops[i].id != ops[j].id
  {
    hide Marked, Find;
    assert Next(zones, ss[i], ss[i + 1], ops[i]) && Next(zones, ss[j], ss[j + 1], ops[j]);
    GrantMarks(zones, ss[i], ss[i + 1], ops[i]);
    GrantMarks(zones, ss[j], ss[j + 1], ops[j]);
    MarkLong(zones, ss, ops, i + 1, j, Find(zones, ops[i].zone_id), ops[i].index);
    GrantedIds(zones, ss[i], ss[i + 1], ops[i]);
    GrantedIds(zones, ss[j], ss[j + 1], ops[j]);
    if ops[i].id == ops[j].id {
      EncodeInjective(ops[i].zone_id, ops[i].index, ops[j].zone_id, ops[j].index);
    }
  }

  lemma {:induction false} GrantedIds(zones: seq<Zone>, s: seq<ZoneState>, t: seq<ZoneState>, op: Op)
    requires Next(zones, s, t, op) && Granted(zones, op)
    ensures op.id == Encode(op.zone_id, op.index) && op.index < TOP
  {
    hide Encode, Find, Alloc;
  }
}
