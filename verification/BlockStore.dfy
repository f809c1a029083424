/** The block store of storage_sys.c: zones of fixed-size blocks, each in one file behind two headers. */
module BlockStore {
  import opened Words
  import opened BitSearch
  import opened BitOps
  import opened AllocRuns
  import opened Layout
  import opened BlockFile
  import opened StorageIds
  import opened Unsigned

  const HEAD: nat := 24          // file_index, file_handle and next, before the block file
  const INT_LIMIT: nat := 0x8000_0000

  datatype ZoneType = BlockType | FreeType

  type Positive = n: nat | n > 0 witness 1

  /** What the operations change in a zone. */
  datatype ZoneState = ZoneState(bits: seq<Word>, free: int, data: seq<Byte>, pos: nat)

  /** An open stream. */
  class File {
    var data: seq<Byte>
    var pos: nat

    constructor ()
      ensures data == [] && pos == 0
    {
      data, pos := [], 0;
    }

    method Seek(offset: nat)
      modifies this
      ensures pos == offset && data == old(data)
    {
      pos := offset;
    }

    method Write(bytes: seq<Byte>)
      modifies this
      ensures data == Overwrite(old(data), old(pos), bytes) && pos == old(pos) + |bytes|
    {
      data := Overwrite(data, pos, bytes);
      pos := pos + |bytes|;
    }

    /** fread of `n` bytes into `buffer`: what lies past the end of the file keeps its old contents. */
    method Read(buffer: seq<Byte>) returns (r: seq<Byte>)
      modifies this
      ensures data == old(data)
      ensures r == Fetched(data, old(pos), buffer)
    {
      r := Fetched(data, pos, buffer);
      pos := if pos + |buffer| <= |data| then pos + |buffer| else if pos <= |data| then |data| else pos;
    }
  }

  /** storage_media of a block zone. */
  class Media {
    var head: seq<Byte>               // file_index and the two pointers, as they lie in memory
    var block_free_count: int
    const bitmap: array<Word>
    const file_handle: File

    constructor (words: nat, free: int, handle: File)
      ensures head == Zeros(HEAD) && block_free_count == free && file_handle == handle
      ensures fresh(bitmap) && bitmap.Length == words && forall i | 0 <= i < words :: bitmap[i] == 0
    {
      head, block_free_count, file_handle := Zeros(HEAD), free, handle;
      bitmap := new Word[words](_ => 0);
    }

    /** The part of the structure after the pointers. */
    function Body(): (b: seq<Byte>)
      reads this, bitmap
      ensures |b| == 8 + 8 * bitmap.Length
    {
      Int(block_free_count) + Zeros(4) + Stored(bitmap[..])
    }
  }

  function Zeros(n: nat): (z: seq<Byte>)
    ensures |z| == n
  {
    seq(n, _ => 0)
  }

  /** The bytes of an int in memory. */
  function Int(x: int): (b: seq<Byte>)
    ensures |b| == 4
  {
    [(x % 256) as Byte, (x / 0x100 % 256) as Byte, (x / 0x1_0000 % 256) as Byte, (x / 0x100_0000 % 256) as Byte]
  }

  /** storage_zone; no modelled operation assigns its fields after registration. */
  class Zone {
    const zone_id: nat
    const zone_type: ZoneType
    const block_size: nat
    const block_count: Positive
    const cur_media: Media

    function Footprint(): set<object> {
      {cur_media, cur_media.bitmap, cur_media.file_handle}
    }

    ghost function Bits(): seq<Word>
      reads cur_media.bitmap
    {
      cur_media.bitmap[..]
    }

    ghost function Data(): seq<Byte>
      reads cur_media.file_handle
    {
      cur_media.file_handle.data
    }

    /** The bitmap, block_free_count, the file and its position. */
    ghost function Look(): ZoneState
      reads cur_media, cur_media.bitmap, cur_media.file_handle
    {
      ZoneState(Bits(), cur_media.block_free_count, Data(), cur_media.file_handle.pos)
    }

    /** int file_index = index / block_count */
    function FileOf(id: Id): int {
      AsInt(IndexOf(id) / block_count)
    }

    /** index % block_count */
    function BlockOf(id: Id): (b: nat)
      ensures b < block_count
    {
      IndexOf(id) % block_count
    }

    /** Sizes fit, and the bitmap in the file is the bitmap in memory. */
    ghost predicate Valid()
      reads cur_media, cur_media.bitmap, cur_media.file_handle
    {
      && 0 < block_size
      && Offset(block_count, block_size, block_count) < INT_LIMIT
      && cur_media.bitmap.Length == block_count / 8 + 2
      && |cur_media.head| == HEAD
      && ZONE_SIZE + MediaLen(block_count) <= |Data()|
      && Data()[ZONE_SIZE + HEAD..ZONE_SIZE + MediaLen(block_count)] == cur_media.Body()
    }

    /** alloc_storage_zone for a block zone: the zone header (`image`), then the media header. */
    constructor (id: nat, image: seq<Byte>, size: nat, per_media_count: Positive)
      requires |image| == ZONE_SIZE && 0 < size
      requires Offset(per_media_count, size, per_media_count) < INT_LIMIT
      ensures Valid() && zone_id == id && zone_type == BlockType && block_size == size && block_count == per_media_count
      ensures fresh(Footprint()) && Without(Bits(), true, 0, block_count) && Look().free == per_media_count
      ensures |Data()| == ZONE_SIZE + MediaLen(per_media_count) && Data()[..ZONE_SIZE] == image
    {
      hide Stored, Int, Without, Offset, Overwrite;
      var len := MediaLen(per_media_count);
      var f := new File();
      f.Write(Zeros(len));             // posix_fallocate, which does not move the position
      f.Seek(0);
      ghost var was := f.data;
      var media := new Media(per_media_count / 8 + 2, per_media_count, f);
      zone_id, zone_type, block_size, block_count := id, BlockType, size, per_media_count;
      cur_media := media;
      new;
      cur_media.file_handle.Write(image);
      cur_media.file_handle.Seek(ZONE_SIZE);
      cur_media.file_handle.Write(cur_media.head + cur_media.Body());
      HeadersLie(was, image, cur_media.head, cur_media.Body());
      NoBits(cur_media.bitmap[..], per_media_count);
    }
  }

  /** Two headers written one after the other over an area of at most their size. */
  lemma {:induction false} HeadersLie(was: seq<Byte>, image: seq<Byte>, head: seq<Byte>, body: seq<Byte>)
    requires |image| == ZONE_SIZE && |head| == HEAD && |was| <= ZONE_SIZE + HEAD + |body|
    ensures var d := Overwrite(Overwrite(was, 0, image), ZONE_SIZE, head + body);
            && |d| == ZONE_SIZE + HEAD + |body|
            && d[..ZONE_SIZE] == image && d[ZONE_SIZE + HEAD..ZONE_SIZE + HEAD + |body|] == body
  {
    hide Overwrite;
    var d := Overwrite(Overwrite(was, 0, image), ZONE_SIZE, head + body);
    assert d[ZONE_SIZE..ZONE_SIZE + |head + body|] == head + body;
    assert d[ZONE_SIZE + HEAD..ZONE_SIZE + HEAD + |body|] == (head + body)[HEAD..];
  }

  lemma {:induction false} NoBits(s: seq<Word>, n: nat)
    requires n <= 64 * |s| && forall i | 0 <= i < |s| :: s[i] == 0
    ensures Without(s, true, 0, n)
  {}

  /* ---------- operations on one zone ---------- */

  /** The bitmap that restore_storage_zone would load from the file is the bitmap in memory. */
  lemma {:induction false} RestoredBitmap(z: Zone)
    requires z.Valid()
    ensures var at, len := ZONE_SIZE + HEAD + 8, 8 * (z.block_count / 8 + 2);
            at + len <= |z.Data()| && Loaded(z.Data()[at..at + len]) == z.Bits()
  {
    hide Stored, Loaded;
    var at, len, ws := ZONE_SIZE + HEAD + 8, 8 * (z.block_count / 8 + 2), z.Bits();
    var body := Int(z.cur_media.block_free_count) + Zeros(4) + Stored(ws);
    assert z.Data()[at..at + len] == body[8..];
    assert body[8..] == Stored(ws);
    LoadStored(ws);
  }

  /** Over any run of allocations on a zone no id of a block is given out twice. */
  lemma {:induction false} IdsNeverTwice(ss: seq<seq<Word>>, rs: seq<nat>, count: nat, zone: nat, i: nat, j: nat)
    requires Run(ss, rs, count) && i < j < |rs| && rs[j] < count < INT_LIMIT && zone < 256
    ensures Encode(zone, rs[i]) != Encode(zone, rs[j])
  {
    hide Encode, Least, Ranged;
    assert Alloc(ss[i], ss[i + 1], count, rs[i]);
    AllocTakes(ss[i], ss[i + 1], count, rs[i]);
    NeverTwice(ss, rs, count, i, j);
    if Encode(zone, rs[i]) == Encode(zone, rs[j]) {
      EncodeInjective(zone, rs[i], zone, rs[j]);
    }
  }

  /* ---------- steps of a zone and of the store ---------- */

  /** One allocation: the bitmap by one step, the file outside the media header not at all. */
  ghost predicate Allocates(z: Zone, s: ZoneState, t: ZoneState, index: nat) {
    && Alloc(s.bits, t.bits, z.block_count, index) && t.free == s.free + 1
    && |t.data| == |s.data|
    && forall i | 0 <= i < |t.data| && (i < ZONE_SIZE || ZONE_SIZE + MediaLen(z.block_count) <= i) ::
         t.data[i] == s.data[i]
  }

  /** Where a save writes: at its offset, or where the file stands when fseek refuses a negative one. */
  function Place(z: Zone, s: ZoneState, index: nat, off: int): nat {
    var at := Offset(z.block_count, z.block_size, index) + off;
    if at >= 0 then at else s.pos
  }

  /** One save: the bytes at their place in the file, the allocator untouched. */
  ghost predicate Saves(z: Zone, s: ZoneState, t: ZoneState, index: nat, off: int, bytes: seq<Byte>) {
    t.bits == s.bits && t.free == s.free && t.data == Overwrite(s.data, Place(z, s, index, off), bytes)
  }

  datatype Op =
    | AllocOp(zone_id: nat, id: Id, index: nat)
    | SaveOp(id: Id, off: int, bytes: seq<Byte>)
    | ReadOp(id: Id)

  /** What one call does to the states of all zones; a call that never returns does nothing. */
  ghost predicate Next(zones: seq<Zone>, s: seq<ZoneState>, t: seq<ZoneState>, op: Op) {
    && |s| == |t| == |zones|
    && match op
       case AllocOp(zone_id, id, index) =>
         if Served(zones, zone_id) then
           var k := Find(zones, zone_id);
           id == Encode(zone_id, index) && t == s[k := t[k]] && Allocates(zones[k], s[k], t[k], index)
         else id == INVALID && t == s
       case SaveOp(id, off, bytes) =>
         if Served(zones, ZoneOf(id)) && Addressed(zones, id) then
           var k := Find(zones, ZoneOf(id));
           t == s[k := t[k]] && Saves(zones[k], s[k], t[k], zones[k].BlockOf(id), off, bytes)
         else t == s
       case ReadOp(id) =>
         forall k | 0 <= k < |zones| :: t[k].bits == s[k].bits && t[k].free == s[k].free && t[k].data == s[k].data
  }

  /** The store: global_zone_head and its list of zones. */
  class Store {
    const zones: seq<Zone>
    ghost const repr: set<object>

    ghost predicate Owned()
      reads this
    {
      forall k | 0 <= k < |zones| :: zones[k].Footprint() <= repr
    }

    /** Every zone is valid, ids differ, and no two zones share memory or a file. */
    ghost predicate Valid()
      reads this, repr
    {
      && Owned()
      && (forall k | 0 <= k < |zones| :: zones[k].Valid())
      && (forall j, k | 0 <= j < k < |zones| ::
            zones[j].zone_id != zones[k].zone_id && zones[j].Footprint() !! zones[k].Footprint())
    }

    /** The states of all zones. */
    ghost function View(): (v: seq<ZoneState>)
      requires Owned()
      reads this, repr
      ensures |v| == |zones| && forall k | 0 <= k < |zones| :: v[k] == zones[k].Look()
    {
      seq(|zones|, k requires 0 <= k < |zones| && Owned() reads this, repr => zones[k].Look())
    }

    constructor (list: seq<Zone>)
      requires forall k | 0 <= k < |list| :: list[k].Valid()
      requires forall j, k | 0 <= j < k < |list| ::
                 list[j].zone_id != list[k].zone_id && list[j].Footprint() !! list[k].Footprint()
      ensures Valid() && zones == list
    {
      hide Zone.Valid, Zone.Footprint;
      zones := list;
      repr := set k, o | 0 <= k < |list| && o in list[k].Footprint() :: o;
    }

    /** get_zone: the place of the zone with this id in the list, or the length of the list (NULL). */
    method GetZone(zone_id: nat) returns (k: nat)
      ensures k == Find(zones, zone_id)
    {
      k := 0;
      while k < |zones|
        invariant k <= |zones| && Find(zones, zone_id) == k + Find(zones[k..], zone_id)
      {
        if zones[k].zone_id == zone_id { return; }
        k := k + 1;
      }
    }

    /** alloc_block_from_zone; `index` is the block found, on a full zone block_count. */
    method AllocBlockFromZone(zone_id: nat) returns (id: Id, ghost index: nat)
      requires Valid()
      modifies repr
      ensures Valid() && Next(zones, old(View()), View(), AllocOp(zone_id, id, index))
    {
      hide Zone.Valid, Encode, Alloc, Find;
      id, index := INVALID, 0;
      ghost var before := View();
      var k := GetZone(zone_id);
      if k < |zones| && zones[k].zone_type == BlockType {
        FindPlace(zones, zone_id);
        var r := AllocInZone(zones[k]);
        id, index := Encode(zone_id, r), r;
        assert View() == before[k := View()[k]];
      } else {
        assert View() == before;
      }
    }

    /** save_data_offset; `ends` is false when find_file_stream never returns. */
    method SaveDataOffset(storage_id: Id, data: seq<Byte>, off: int) returns (ends: bool)
      requires Valid()
      modifies repr
      ensures Owned() && Next(zones, old(View()), View(), SaveOp(storage_id, off, data))
      ensures ends <==> Addressed(zones, storage_id)
      ensures off >= 0 || !ends || !Served(zones, ZoneOf(storage_id)) ==> Valid()
    {
      hide Zone.Valid, Zone.FileOf, Zone.BlockOf, ZoneOf, IndexOf, Find, Offset;
      ends := true;
      ghost var before := View();
      var k := GetZone(ZoneOf(storage_id));
      if k < |zones| && zones[k].zone_type == BlockType {
        ends := FileFound(zones[k].FileOf(storage_id));
        if ends {
          SaveInZone(zones[k], zones[k].BlockOf(storage_id), off, data);
          assert View() == before[k := View()[k]];
        }
      }
      if k == |zones| || zones[k].zone_type != BlockType || !ends { assert View() == before; }
    }

    /** save_data */
    method SaveData(storage_id: Id, data: seq<Byte>) returns (ends: bool)
      requires Valid()
      modifies repr
      ensures Valid() && Next(zones, old(View()), View(), SaveOp(storage_id, 0, data))
      ensures ends <==> Addressed(zones, storage_id)
    {
      hide Zone.Valid, Zone.FileOf, Zone.BlockOf, ZoneOf, IndexOf, Find, Offset;
      ends := true;
      ghost var before := View();
      var k := GetZone(ZoneOf(storage_id));
      if k < |zones| && zones[k].zone_type == BlockType {
        ends := FileFound(zones[k].FileOf(storage_id));
        if ends {
          SaveInZone(zones[k], zones[k].BlockOf(storage_id), 0, data);
          assert View() == before[k := View()[k]];
        }
      }
      if k == |zones| || zones[k].zone_type != BlockType || !ends { assert View() == before; }
    }

    /** read_data; `buffer` is what malloc returned. */
    method ReadData(storage_id: Id, buffer: seq<Byte>) returns (ends: bool, found: bool, r: seq<Byte>)
      requires Valid()
      requires Served(zones, ZoneOf(storage_id)) ==> |buffer| == zones[Find(zones, ZoneOf(storage_id))].block_size
      modifies repr
      ensures Valid() && Next(zones, old(View()), View(), ReadOp(storage_id))
      ensures ends <==> Addressed(zones, storage_id)
      ensures found <==> ends && Served(zones, ZoneOf(storage_id))
      ensures found ==>
                var z := zones[Find(zones, ZoneOf(storage_id))];
                r == Fetched(z.Data(), Offset(z.block_count, z.block_size, z.BlockOf(storage_id)), buffer)
      ensures forall k | 0 <= k < |zones| && Leads(zones, k) && zones[k].zone_id == ZoneOf(storage_id)
                && IndexOf(storage_id) < zones[k].block_count ::
                var at := Offset(zones[k].block_count, zones[k].block_size, IndexOf(storage_id));
                found && r == Fetched(zones[k].Data(), at, buffer)
    {
      hide Leads, Zone.Valid, Zone.FileOf, Zone.BlockOf, ZoneOf, IndexOf, Find, Offset, Fetched;
      ends, found, r := true, false, [];   // NULL
      var k := GetZone(ZoneOf(storage_id));
      if k < |zones| && zones[k].zone_type == BlockType {
        ends := FileFound(zones[k].FileOf(storage_id));
        if ends {
          r := ReadInZone(zones[k], zones[k].BlockOf(storage_id), buffer);
          found := true;
        }
      }
      forall j | 0 <= j < |zones| && Leads(zones, j) && zones[j].zone_id == ZoneOf(storage_id)
        && IndexOf(storage_id) < zones[j].block_count
        ensures found && j == k && zones[j].BlockOf(storage_id) == IndexOf(storage_id)
      {
        IdLeads(zones, j, storage_id);
      }
    }
  }

  /** The id leads to the first media file, when there is such a zone: the search for the file comes to an end. */
  predicate Addressed(zones: seq<Zone>, storage_id: Id) {
    Served(zones, ZoneOf(storage_id)) ==> zones[Find(zones, ZoneOf(storage_id))].FileOf(storage_id) == 0
  }

  /** The zone exists and is a block zone. */
  predicate Served(zones: seq<Zone>, zone_id: nat) {
    var k := Find(zones, zone_id);
    k < |zones| && zones[k].zone_type == BlockType
  }

  function Find(zones: seq<Zone>, zone_id: nat): (k: nat)
    ensures k <= |zones|
  {
    if zones == [] then 0
    else if zones[0].zone_id == zone_id then 0
    else 1 + Find(zones[1..], zone_id)
  }

  lemma {:induction false} FindPlace(zones: seq<Zone>, zone_id: nat)
    ensures var k := Find(zones, zone_id);
            && (k < |zones| ==> zones[k].zone_id == zone_id)
            && forall j | 0 <= j < k :: zones[j].zone_id != zone_id
  {
    if zones != [] && zones[0].zone_id != zone_id {
      FindPlace(zones[1..], zone_id);
      assert forall j | 0 < j < |zones| :: zones[j] == zones[1..][j - 1];
    }
  }

  /** At place `k` of the list stands a block zone, and no zone before it has its id. */
  predicate Leads(zones: seq<Zone>, k: nat) {
    k < |zones| && zones[k].zone_type == BlockType && forall j | 0 <= j < k :: zones[j].zone_id != zones[k].zone_id
  }

  /** Calls with its id go to such a zone. */
  lemma {:induction false} LeadsThere(zones: seq<Zone>, k: nat)
    requires Leads(zones, k)
    ensures Served(zones, zones[k].zone_id) && Find(zones, zones[k].zone_id) == k
  {
    hide Find;
    FindPlace(zones, zones[k].zone_id);
  }

  /** And to no other. */
  lemma {:induction false} ServedIff(zones: seq<Zone>, zone_id: nat)
    ensures Served(zones, zone_id) <==> exists k | 0 <= k < |zones| :: Leads(zones, k) && zones[k].zone_id == zone_id
  {
    hide Find, Leads;
    FindPlace(zones, zone_id);
    if Served(zones, zone_id) { assert Leads(zones, Find(zones, zone_id)) by { ItLeads(zones, zone_id); } }
    if k :| 0 <= k < |zones| && Leads(zones, k) && zones[k].zone_id == zone_id { LeadsThere(zones, k); }
  }

  lemma {:induction false} ItLeads(zones: seq<Zone>, zone_id: nat)
    requires Served(zones, zone_id)
    ensures Leads(zones, Find(zones, zone_id))
  {
    hide Find;
    FindPlace(zones, zone_id);
  }

  /** An id with the number of such a zone and an index below its block_count leads to that block of it. */
  lemma {:induction false} IdLeads(zones: seq<Zone>, k: nat, id: Id)
    requires Leads(zones, k) && ZoneOf(id) == zones[k].zone_id && IndexOf(id) < zones[k].block_count
    ensures Served(zones, ZoneOf(id)) && Find(zones, ZoneOf(id)) == k && Addressed(zones, id)
    ensures zones[k].BlockOf(id) == IndexOf(id)
  {
    hide IndexOf, Find;
    LeadsThere(zones, k);
    QuotientUnique(IndexOf(id), zones[k].block_count, 0, IndexOf(id));
  }

  method AllocInZone(zone: Zone) returns (index: nat)
    requires zone.Valid()
    modifies zone.cur_media, zone.cur_media.bitmap, zone.cur_media.file_handle
    ensures zone.Valid()
    ensures Allocates(zone, old(zone.Look()), zone.Look(), index)
  {
    hide BitAt, Least, Ranged;
    var media := zone.cur_media;
    index := FindNextZeroBit(media.bitmap, zone.block_count, 0);
    LeastWithin(zone.Bits(), false, zone.block_count, 0, index);
    SetBit(index, media.bitmap);
    media.block_free_count := media.block_free_count + 1;
    media.file_handle.Seek(ZONE_SIZE);
    media.file_handle.Write(media.head + media.Body());
  }

  /* ---------- find_file_stream ---------- */

  /** Where the search stands: at an entry of the media list, or at its result. */
  datatype Search = Looking(at: nat) | Stream(at: nat) | NoStream

  /** One round of the loop, with the file indices of the list: the loop has no step to the next entry. */
  function SearchRound(files: seq<int>, wanted: int, l: Search): Search {
    if !l.Looking? then l
    else if l.at >= |files| then NoStream
    else if files[l.at] == wanted then Stream(l.at)
    else l
  }

  function SearchRounds(files: seq<int>, wanted: int, l: Search, rounds: nat): Search
    decreases rounds
  {
    if rounds == 0 then l else SearchRounds(files, wanted, SearchRound(files, wanted, l), rounds - 1)
  }

  lemma {:induction false} SearchStays(files: seq<int>, wanted: int, l: Search, rounds: nat)
    requires SearchRound(files, wanted, l) == l
    ensures SearchRounds(files, wanted, l, rounds) == l
    decreases rounds
  {
    if rounds > 0 {
      SearchStays(files, wanted, l, rounds - 1);
    }
  }

  /**
   * Whatever else the list holds, the search ends exactly when the list is empty or its first file is the one
   * wanted.
   */
  lemma {:induction false} SearchEnds(files: seq<int>, wanted: int)
    ensures (exists n: nat :: !SearchRounds(files, wanted, Looking(0), n).Looking?)
       <==> files == [] || files[0] == wanted
    ensures (exists n: nat :: SearchRounds(files, wanted, Looking(0), n).Stream?)
       <==> files != [] && files[0] == wanted
  {
    forall n: nat ensures var l := SearchRounds(files, wanted, Looking(0), n);
                     l == Looking(0) || l == SearchRound(files, wanted, Looking(0))
    {
      if n > 0 {
        SearchStays(files, wanted, SearchRound(files, wanted, Looking(0)), n - 1);
      }
    }
    assert SearchRounds(files, wanted, SearchRound(files, wanted, Looking(0)), 0)
             == SearchRound(files, wanted, Looking(0));
    assert SearchRounds(files, wanted, Looking(0), 1) == SearchRound(files, wanted, Looking(0));
  }

  /**
   * find_file_stream on the zone's one media file: whether the search ever comes to an end, and then with the
   * stream.
   */
  method FileFound(wanted: int) returns (found: bool)
    ensures found <==> exists n: nat :: SearchRounds([0], wanted, Looking(0), n).Stream?
    ensures !found ==> forall n: nat :: SearchRounds([0], wanted, Looking(0), n).Looking?
    ensures found <==> wanted == 0
  {
    SearchEnds([0], wanted);
    found := wanted == 0;
  }

  method SaveInZone(zone: Zone, index: nat, off: int, data: seq<Byte>)
    requires zone.Valid() && index < zone.block_count
    modifies zone.cur_media.file_handle
    ensures off >= 0 ==> zone.Valid()
    ensures Saves(zone, old(zone.Look()), zone.Look(), index, off, data)
  {
    hide Offset, Overwrite, Stored;
    ghost var was := zone.Data();
    var offset := Offset(zone.block_count, zone.block_size, index) + off;
    OffsetFits(zone.block_count, zone.block_size, index);
    if offset >= 0 {
      zone.cur_media.file_handle.Seek(offset);
    }
    zone.cur_media.file_handle.Write(data);
    if off >= 0 {
      OverwriteElsewhere(was, offset, data, ZONE_SIZE + HEAD, ZONE_SIZE + MediaLen(zone.block_count));
    }
  }

  method ReadInZone(zone: Zone, index: nat, buffer: seq<Byte>) returns (r: seq<Byte>)
    requires zone.Valid() && index < zone.block_count && |buffer| == zone.block_size
    modifies zone.cur_media.file_handle
    ensures zone.Valid() && zone.Data() == old(zone.Data())
    ensures r == Fetched(zone.Data(), Offset(zone.block_count, zone.block_size, index), buffer)
  {
    var offset := Offset(zone.block_count, zone.block_size, index);
    zone.cur_media.file_handle.Seek(offset);
    r := zone.cur_media.file_handle.Read(buffer);
  }

  lemma {:induction false} LeastWithin(s: seq<Word>, b: bool, size: nat, offset: nat, r: nat)
    requires size <= 64 * |s| && Least(s, b, size, offset, r)
    ensures r <= size
  {}
}
