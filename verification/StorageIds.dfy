/** Storage ids: the zone in the top byte of a 64-bit word, the block index below it (storage_sys.c). */
module StorageIds {
  import opened Unsigned

  const WORD: nat := 0x1_0000_0000_0000_0000      // 2^64
  const TOP: nat := 0x100_0000_0000_0000          // 2^56
  const INVALID: nat := 0xFFFF_FFFF_FFFF_FFFF     // (unsigned long)-1

  /** unsigned long */
  type Id = x: nat | x < WORD

  /** The id alloc_block_from_zone builds, in 64-bit arithmetic. */
  function Encode(zone: nat, index: nat): Id {
    EncodeFits(zone, index);
    BitOr(index % WORD, (zone * TOP) % WORD)
  }

  /** storage_id >> (BITS_PER_LONG - BITS_PER_BYTE) */
  function ZoneOf(id: nat): nat {
    id / TOP
  }

  /** (storage_id << BITS_PER_BYTE) >> BITS_PER_BYTE */
  function IndexOf(id: nat): nat {
    (id * 256) % WORD / 256
  }

  const INT: nat := 0x1_0000_0000                 // 2^32

  /** What an int keeps of an unsigned long. */
  function AsInt(x: nat): int {
    var low := x % INT;
    if low < INT / 2 then low else low - INT
  }

  lemma {:induction false} AsIntZero(x: nat)
    ensures AsInt(x) == 0 <==> x % INT == 0
  {}

  lemma {:induction false} EncodeFits(zone: nat, index: nat)
    ensures BitOr(index % WORD, (zone * TOP) % WORD) < WORD
  {
    hide BitOr, Pow2;
    Powers();
    OrBound(index % WORD, (zone * TOP) % WORD, 64);
  }

  lemma {:induction false} IndexLow(id: nat)
    requires id < WORD
    ensures IndexOf(id) == id % TOP && ZoneOf(id) < 256
  {
    var q, r := id / TOP, id % TOP;
    assert id * 256 == q * WORD + r * 256;
  }

  /** Decoding gives back the zone and the index exactly when both fit their parts of the word. */
  lemma {:induction false} RoundTrip(zone: nat, index: nat)
    ensures ZoneOf(Encode(zone, index)) == zone && IndexOf(Encode(zone, index)) == index
       <==> zone < 256 && index < TOP
  {
    hide BitOr, Pow2;
    IndexLow(Encode(zone, index));
    if zone < 256 && index < TOP {
      Powers();
      OrDisjoint(index, zone, 56);
      assert Encode(zone, index) == index + zone * TOP;
    }
  }

  /** Different blocks have different ids. */
  lemma {:induction false} EncodeInjective(zone: nat, index: nat, zone': nat, index': nat)
    requires zone < 256 && index < TOP && zone' < 256 && index' < TOP
    requires Encode(zone, index) == Encode(zone', index')
    ensures zone == zone' && index == index'
  {
    hide *;
    RoundTrip(zone, index);
    RoundTrip(zone', index');
  }

  /** The answer for a failed call is the id of one block only, the last index of zone 255. */
  lemma {:induction false} InvalidCode(zone: nat, index: nat)
    requires zone < 256 && index < TOP
    ensures Encode(zone, index) == INVALID <==> zone == 255 && index == TOP - 1
  {
    hide Encode, ZoneOf, IndexOf;
    assert ZoneOf(INVALID) == 255 && IndexOf(INVALID) == TOP - 1 by { InvalidParts(); }
    DecodeThenEncode(INVALID);
    if Encode(zone, index) == INVALID { EncodeInjective(zone, index, 255, TOP - 1); }
  }

  lemma {:induction false} InvalidParts()
    ensures ZoneOf(INVALID) == 255 && IndexOf(INVALID) == TOP - 1
  {}

  /** Past 256 zones ids collide: zone 256 encodes like zone 0. */
  lemma {:induction false} ZonesWrap(index: nat)
    ensures Encode(256, index) == Encode(0, index)
  {}

  /** Every 64-bit id is the code of the zone and index it decodes to. */
  lemma {:induction false} DecodeThenEncode(id: nat)
    requires id < WORD
    ensures Encode(ZoneOf(id), IndexOf(id)) == id
  {
    hide BitOr, Pow2;
    IndexLow(id);
    Powers();
    OrDisjoint(id % TOP, id / TOP, 56);
  }
}
