/** What calls on the store come to, told from the list of zones alone. */
module StoreAnswers {
  import opened Words
  import opened BitSearch
  import opened AllocRuns
  import opened Layout
  import opened BlockFile
  import opened StorageIds
  import opened Unsigned
  import opened BlockStore
  import opened StoreRuns

  /**
   * alloc_block_from_zone on a block zone: the id has the zone's number and the least free index of that zone,
   * which is taken now; on a full zone it has block_count for an index, and nothing is taken. It is never -1.
   */
  lemma {:induction false} AllocAnswer(zones: seq<Zone>, s: seq<ZoneState>, t: seq<ZoneState>, k: nat, id: Id,
                                       index: nat)
    requires Leads(zones, k) && zones[k].zone_id < 256 && zones[k].block_count < INT_LIMIT
    requires Next(zones, s, t, AllocOp(zones[k].zone_id, id, index))
    ensures t == s[k := t[k]] && id != INVALID && ZoneOf(id) == zones[k].zone_id && IndexOf(id) == index
    ensures var count := zones[k].block_count;
            && count <= 64 * |s[k].bits| && |t[k].bits| == |s[k].bits|
            && var taken := Taken(s[k].bits, count);
               && (|taken| < count ==> index < count && index !in taken && Taken(t[k].bits, count) == taken + {index}
                                       && forall j: nat | j < index :: j in taken)
               && (|taken| >= count ==> index == count && Taken(t[k].bits, count) == taken)
  {
    hide Encode, ZoneOf, IndexOf, Find, Taken, Alloc, Leads;
    LeadsThere(zones, k);
    var count := zones[k].block_count;
    AllocCovers(s[k].bits, t[k].bits, count, index);
    AllocTakes(s[k].bits, t[k].bits, count, index);
    SucceedsIffRoom(s[k].bits, t[k].bits, count, index);
    RoundTrip(zones[k].zone_id, index);
    InvalidCode(zones[k].zone_id, index);
    LowerTaken(s[k].bits, t[k].bits, count, index);
  }

  lemma {:induction false} LowerTaken(s: seq<Word>, t: seq<Word>, count: nat, r: nat)
    requires Alloc(s, t, count, r)
    ensures forall j: nat | j < r :: j in Taken(s, count)
  {
    hide BitAt;
  }

  /** It returns -1 exactly when no block zone has this number, and then nothing happens. */
  lemma {:induction false} InvalidIff(zones: seq<Zone>, s: seq<ZoneState>, t: seq<ZoneState>, zone_id: nat, id: Id,
                                      index: nat)
    requires zone_id < 256 && forall k | 0 <= k < |zones| :: zones[k].block_count < INT_LIMIT
    requires Next(zones, s, t, AllocOp(zone_id, id, index))
    ensures id == INVALID <==> !exists k | 0 <= k < |zones| :: Leads(zones, k) && zones[k].zone_id == zone_id
    ensures id == INVALID ==> t == s
  {
    hide Encode, Find, Alloc, Leads;
    ServedIff(zones, zone_id);
    if k :| 0 <= k < |zones| && Leads(zones, k) && zones[k].zone_id == zone_id {
      AllocAnswer(zones, s, t, k, id, index);
    }
  }

  /**
   * save_data and save_data_offset on a block: the bytes are at the offset in it, or where the file
   * stood if fseek refuses that place; all else is as before.
   */
  lemma {:induction false} SaveAnswer(zones: seq<Zone>, s: seq<ZoneState>, t: seq<ZoneState>, k: nat, id: Id, off: int,
                                      bytes: seq<Byte>)
    requires Leads(zones, k) && ZoneOf(id) == zones[k].zone_id && IndexOf(id) < zones[k].block_count
    requires Next(zones, s, t, SaveOp(id, off, bytes)) && bytes != []
    ensures t == s[k := t[k]] && t[k].bits == s[k].bits
    ensures var place := Offset(zones[k].block_count, zones[k].block_size, IndexOf(id)) + off;
            var at, n := if place >= 0 then place else s[k].pos, |bytes|;
            && |t[k].data| == (if at + n <= |s[k].data| then |s[k].data| else at + n)
            && t[k].data[at..at + n] == bytes
            && forall i | 0 <= i < |s[k].data| && (i < at || at + n <= i) :: t[k].data[i] == s[k].data[i]
  {
    hide Encode, ZoneOf, IndexOf, Find, Leads, Offset, Overwrite, Addressed, Zone.BlockOf;
    IdLeads(zones, k, id);
  }

  /**
   * A block that was allocated keeps what its owner last saved at an offset, through any calls on
   * any zones whose saves fit the blocks of their own, different ids.
   */
  lemma {:induction false} OwnerReads(zones: seq<Zone>, ss: seq<seq<ZoneState>>, ops: seq<Op>, h: nat, i: nat, m: nat,
                                      k: nat, off: nat, buffer: seq<Byte>)
    requires Calls(zones, ss, ops) && h < i < m <= |ops| && Leads(zones, k)
    requires ops[h].AllocOp? && ops[h].zone_id == zones[k].zone_id < 256 && |ss[h]| == |zones|
    requires var count := zones[k].block_count;
             count < INT_LIMIT && count <= 64 * |ss[h][k].bits| && |Taken(ss[h][k].bits, count)| < count
    requires ops[i].SaveOp? && ops[i].id == ops[h].id && ops[i].off == off
    requires off + |ops[i].bytes| <= zones[k].block_size == |buffer|
    requires forall j | i < j < m && ops[j].SaveOp? && Named(zones, ops[j].id) ::
               && ops[j].id != ops[h].id && IndexOf(ops[j].id) < Target(zones, ops[j].id).block_count
               && Fits(zones, ops[j])
    ensures |ss[m]| == |zones|
    ensures var z, bytes := zones[k], ops[i].bytes;
            var r := Fetched(ss[m][k].data, Offset(z.block_count, z.block_size, IndexOf(ops[h].id)), buffer);
            r[off..off + |bytes|] == bytes
  {
    hide Encode, ZoneOf, IndexOf, Find, Leads, Offset, Fetched, Next, Taken, Fits, SameBlock;
    var id := ops[h].id;
    assert Next(zones, ss[h], ss[h + 1], ops[h]);
    AllocAnswer(zones, ss[h], ss[h + 1], k, id, ops[h].index);
    IdLeads(zones, k, id);
    forall j | i < j < m ensures Spares(zones, id, off, |ops[i].bytes|, ops[j]) {
      if ops[j].SaveOp? && Named(zones, ops[j].id) { DifferentBlocks(zones, ops[j].id, id); }
    }
    ReadsLastSave(zones, ss, ops, i, m, id, off, ops[i].bytes, buffer);
  }

  /* ---------- block_free_count ---------- */

  /** How many of the calls ask zone `k` for a block. */
  function Asked(zones: seq<Zone>, ops: seq<Op>, k: nat): nat {
    if ops == [] then 0
    else
      var a := ops[|ops| - 1];
      Asked(zones, ops[..|ops| - 1], k)
      + if a.AllocOp? && Served(zones, a.zone_id) && Find(zones, a.zone_id) == k then 1 else 0
  }

  lemma {:induction false} FreeStep(zones: seq<Zone>, s: seq<ZoneState>, t: seq<ZoneState>, op: Op, k: nat)
    requires Next(zones, s, t, op) && k < |zones|
    requires zones[k].block_count <= 64 * |s[k].bits| && |Taken(s[k].bits,
               zones[k].block_count)| <= zones[k].block_count
    ensures t[k].free == s[k].free + Asked(zones, [op], k) && |t[k].bits| == |s[k].bits|
    ensures var count := zones[k].block_count;
            var room := count - |Taken(s[k].bits, count)|;
            |Taken(t[k].bits, count)| == count - if Asked(zones, [op], k) <= room then room - Asked(zones, [op],
                k) else 0
  {
    hide Encode, ZoneOf, IndexOf, Find, Alloc, Taken;
    assert [op][..0] == [];
    if op.AllocOp? && Served(zones, op.zone_id) && Find(zones, op.zone_id) == k {
      AllocCovers(s[k].bits, t[k].bits, zones[k].block_count, op.index);
      SucceedsIffRoom(s[k].bits, t[k].bits, zones[k].block_count, op.index);
    }
  }

  /** Every request for a block adds one to block_free_count, also when it takes a block or finds none. */
  lemma {:induction false} FreeCounts(zones: seq<Zone>, ss: seq<seq<ZoneState>>, ops: seq<Op>, m: nat, k: nat)
    requires Calls(zones, ss, ops) && m <= |ops| && k < |zones| == |ss[0]|
    requires var count := zones[k].block_count;
             count <= 64 * |ss[0][k].bits| && |Taken(ss[0][k].bits, count)| <= count
    ensures |ss[m]| == |zones| && |ss[m][k].bits| == |ss[0][k].bits|
    ensures var count, n := zones[k].block_count, Asked(zones, ops[..m], k);
            var room := count - |Taken(ss[0][k].bits, count)|;
            && ss[m][k].free == ss[0][k].free + n
            && |Taken(ss[m][k].bits, count)| == count - if n <= room then room - n else 0
    decreases m
  {
    hide Next, Taken, Asked;
    if m == 0 {
      AskedMore(zones, ops, 0, k);
    } else {
      FreeCounts(zones, ss, ops, m - 1, k);
      assert Next(zones, ss[m - 1], ss[m - 1 + 1], ops[m - 1]);
      NextSizes(zones, ss[m - 1], ss[m], ops[m - 1]);
      FreeStep(zones, ss[m - 1], ss[m], ops[m - 1], k);
      AskedMore(zones, ops, m, k);
    }
  }

  lemma {:induction false} AskedMore(zones: seq<Zone>, ops: seq<Op>, m: nat, k: nat)
    requires m <= |ops|
    ensures Asked(zones, ops[..m], k)
         == if m == 0 then 0 else Asked(zones, ops[..m - 1], k) + Asked(zones, [ops[m - 1]], k)
  {
    hide Find;
    if m > 0 {
      assert ops[..m][..m - 1] == ops[..m - 1] && [ops[m - 1]][..0] == [];
    }
  }

  /**
   * So block_free_count, right for a new zone, is the number of free blocks exactly as long as nobody
   * asks the zone for a block.
   */
  lemma {:induction false} FreeCountRightIff(zones: seq<Zone>, ss: seq<seq<ZoneState>>, ops: seq<Op>, m: nat, k: nat)
    requires Calls(zones, ss, ops) && m <= |ops| && k < |zones| == |ss[0]|
    requires var count := zones[k].block_count;
             && count <= 64 * |ss[0][k].bits| && |Taken(ss[0][k].bits, count)| <= count
             && ss[0][k].free == count - |Taken(ss[0][k].bits, count)|
    ensures |ss[m]| == |zones| && |ss[m][k].bits| == |ss[0][k].bits|
    ensures var count := zones[k].block_count;
            ss[m][k].free == count - |Taken(ss[m][k].bits, count)| <==> Asked(zones, ops[..m], k) == 0
  {
    hide Next, Taken, Asked;
    FreeCounts(zones, ss, ops, m, k);
  }
}
