/**
 The file allocation table as src/bootloader/stage2/fat.c reads it: 12-, 16- and 32-bit entries, decoded
 through a cache of five consecutive sectors. The disk is a function from sector number to 512 bytes.
 */
module FatTable {
  import opened Machine

  const SECTOR_SIZE: nat := 512
  const FAT_CACHE_SIZE: nat := 5
  const CACHE_BYTES: nat := FAT_CACHE_SIZE * SECTOR_SIZE
  /** `FatCachePosition` of an empty cache. */
  const NO_POSITION: Word := 0xFFFF_FFFF

  type Sector = s: seq<Byte> | |s| == SECTOR_SIZE witness seq(SECTOR_SIZE, _ => 0)
  type Disk = Word -> Sector

  /** `g_FatType`; every value other than 12 and 16 is treated as 32. */
  datatype FatType = Fat12 | Fat16 | Fat32

  /** Where the table lies and how its entries are packed. */
  datatype Table = Table(disk: Disk, reserved: nat, kind: FatType) {
    ghost predicate Valid() { reserved < 0x1_0000 }

    /** Byte `k` of the table on the disk. */
    function ByteAt(k: nat): Byte
      requires Valid() && k < TWO_TO_THE_32 + CACHE_BYTES
    {
      disk(reserved + k / SECTOR_SIZE)[k % SECTOR_SIZE]
    }

    /** The byte offset of a cluster's entry; the product is a 32-bit one. */
    function EntryIndex(cluster: Word): Word {
      match kind
      case Fat12 => ToWord(cluster * 3) / 2
      case Fat16 => ToWord(cluster * 2)
      case Fat32 => ToWord(cluster * 4)
    }

    /** The entry made of the bytes from its offset on. */
    function DecodeBytes(cluster: Word, b0: Byte, b1: Byte, b2: Byte, b3: Byte): Word {
      match kind
      case Fat12 =>
        var half := if cluster % 2 == 0 then (b0 as int + 0x100 * b1 as int) % 0x1000 else (b0 as int + 0x100 * b1 as int) / 0x10;
        if half >= 0xFF8 then 0xFFFF_F000 + half else half
      case Fat16 =>
        var half := b0 as int + 0x100 * b1 as int;
        if half >= 0xFFF8 then 0xFFFF_0000 + half else half
      case Fat32 =>
        b0 as int + 0x100 * b1 as int + 0x1_0000 * b2 as int + 0x100_0000 * b3 as int
    }

    /** The next cluster according to the disk. */
    function OnDisk(cluster: Word): Word
      requires Valid()
    {
      var i: nat := EntryIndex(cluster);
      DecodeBytes(cluster, ByteAt(i), ByteAt(i + 1), ByteAt(i + 2), ByteAt(i + 3))
    }

    /** The cache position after a lookup of `cluster`. */
    function PositionAfter(position: Word, cluster: Word): Word {
      var sector := EntryIndex(cluster) / SECTOR_SIZE;
      if sector < position || sector >= ToWord(position + FAT_CACHE_SIZE) then sector else position
    }

    /** A 12-bit entry whose second byte lies after the last cached sector. */
    predicate RunsPast(position: Word, cluster: Word) {
      kind == Fat12 && EntryIndex(cluster) as int - position * SECTOR_SIZE == CACHE_BYTES - 1
    }

    /**
     The next cluster as the code finds it with the cache at `position`. An entry that runs past the cached
     sectors takes its second byte from the field after the cache, which is the position itself.
     */
    function Found(position: Word, cluster: Word): Word
      requires Valid()
    {
      if RunsPast(position, cluster) then
        DecodeBytes(cluster, ByteAt(EntryIndex(cluster)), position % 0x100, 0, 0)
      else
        OnDisk(cluster)
    }

    /** An entry that is found right wherever the cache stands. */
    predicate AlwaysFound(cluster: Word)
      requires Valid()
    {
      var i: nat := EntryIndex(cluster);
      kind != Fat12 || i % SECTOR_SIZE != SECTOR_SIZE - 1 || i / SECTOR_SIZE < FAT_CACHE_SIZE - 1 ||
      DecodeBytes(cluster, ByteAt(i), (i / SECTOR_SIZE - (FAT_CACHE_SIZE - 1)) % 0x100, 0, 0) == OnDisk(cluster)
    }
  }

  /** The cache is empty, or it holds five consecutive sectors of the table. */
  ghost predicate CacheOk(t: Table, cache: seq<Byte>, position: Word)
    requires t.Valid()
  {
    && |cache| == CACHE_BYTES
    && (position == NO_POSITION || position < 0x80_0000)
    && (position != NO_POSITION ==> forall k :: CachedByte(t, cache, position, k))
  }

  ghost predicate CachedByte(t: Table, cache: seq<Byte>, position: Word, k: int)
    requires t.Valid() && |cache| == CACHE_BYTES && position < 0x80_0000
  {
    0 <= k < CACHE_BYTES ==> cache[k] == t.ByteAt(position * SECTOR_SIZE + k)
  }

  /** A lookup is right from every cache position exactly for the entries with `AlwaysFound`. */
  lemma FoundEverywhere(t: Table, cluster: Word)
    requires t.Valid()
    ensures (forall before: Word :: (before == NO_POSITION || before < 0x80_0000) ==>
              t.Found(t.PositionAfter(before, cluster), cluster) == t.OnDisk(cluster))
            <==> t.AlwaysFound(cluster)
  {
    var sector := t.EntryIndex(cluster) / SECTOR_SIZE;
    if sector >= FAT_CACHE_SIZE - 1 {
      var before: Word := sector - (FAT_CACHE_SIZE - 1);
      assert t.PositionAfter(before, cluster) == before;
      assert t.RunsPast(before, cluster) <==> t.kind == Fat12 && t.EntryIndex(cluster) % SECTOR_SIZE == SECTOR_SIZE - 1;
    }
  }

  /** The entries of a 12-bit table as bytes: two entries in three bytes. */
  function PackedByte(entries: seq<nat>, k: nat): Byte
    requires forall e :: 0 <= e < |entries| ==> entries[e] < 0x1000
  {
    var e := 2 * (k / 3);
    var low := if e < |entries| then entries[e] else 0;
    var high := if e + 1 < |entries| then entries[e + 1] else 0;
    if k % 3 == 0 then low % 0x100
    else if k % 3 == 1 then low / 0x100 + 0x10 * (high % 0x10)
    else high / 0x10
  }

  lemma LowHalf(low: nat, high: nat)
    requires low < 0x1000 && high < 0x1000
    ensures (low % 0x100 + 0x100 * (low / 0x100 + 0x10 * (high % 0x10))) % 0x1000 == low
  {
    assert low % 0x100 + 0x100 * (low / 0x100 + 0x10 * (high % 0x10)) == low + 0x1000 * (high % 0x10);
  }

  lemma HighHalf(low: nat, high: nat)
    requires low < 0x1000 && high < 0x1000
    ensures (low / 0x100 + 0x10 * (high % 0x10) + 0x100 * (high / 0x10)) / 0x10 == high
  {
    assert low / 0x100 + 0x10 * (high % 0x10) + 0x100 * (high / 0x10) == low / 0x100 + 0x10 * high;
  }

  /** The value of a 12-bit entry as the code hands it on: end marks are widened to 32 bits. */
  function Widened(entry: nat): Word
    requires entry < 0x1000
  {
    if entry >= 0xFF8 then 0xFFFF_F000 + entry else entry
  }

  lemma DecodeTwelve(t: Table, cluster: Word, b0: Byte, b1: Byte, entry: nat)
    requires t.kind == Fat12 && entry < 0x1000
    requires var two := b0 as int + 0x100 * b1 as int;
      entry == if cluster % 2 == 0 then two % 0x1000 else two / 0x10
    ensures t.DecodeBytes(cluster, b0, b1, 0, 0) == Widened(entry)
  {
  }

  lemma PackedIndex(t: Table, cluster: Word, h: nat)
    requires t.kind == Fat12 && cluster <= 0x1000 && h == cluster / 2
    ensures t.EntryIndex(cluster) == if cluster % 2 == 0 then 3 * h else 3 * h + 1
  {
  }

  lemma PackedPair(entries: seq<nat>, h: nat)
    requires 2 * h < |entries| && forall e :: 0 <= e < |entries| ==> entries[e] < 0x1000
    ensures var low, high := entries[2 * h], if 2 * h + 1 < |entries| then entries[2 * h + 1] else 0;
      && PackedByte(entries, 3 * h) == low % 0x100
      && PackedByte(entries, 3 * h + 1) == low / 0x100 + 0x10 * (high % 0x10)
      && PackedByte(entries, 3 * h + 2) == high / 0x10
  {
    assert 3 * h / 3 == h && (3 * h + 1) / 3 == h && (3 * h + 2) / 3 == h;
  }

  lemma LowDecodes(t: Table, entries: seq<nat>, cluster: Word, h: nat)
    requires t.kind == Fat12 && cluster == 2 * h < |entries|
    requires forall e :: 0 <= e < |entries| ==> entries[e] < 0x1000
    ensures t.DecodeBytes(cluster, PackedByte(entries, 3 * h), PackedByte(entries, 3 * h + 1), 0, 0)
         == Widened(entries[cluster])
  {
    PackedPair(entries, h);
    LowHalf(entries[cluster], if 2 * h + 1 < |entries| then entries[2 * h + 1] else 0);
    DecodeTwelve(t, cluster, PackedByte(entries, 3 * h), PackedByte(entries, 3 * h + 1), entries[cluster]);
  }

  lemma HighDecodes(t: Table, entries: seq<nat>, cluster: Word, h: nat)
    requires t.kind == Fat12 && cluster == 2 * h + 1 < |entries|
    requires forall e :: 0 <= e < |entries| ==> entries[e] < 0x1000
    ensures t.DecodeBytes(cluster, PackedByte(entries, 3 * h + 1), PackedByte(entries, 3 * h + 2), 0, 0)
         == Widened(entries[cluster])
  {
    PackedPair(entries, h);
    HighHalf(entries[2 * h], entries[cluster]);
    DecodeTwelve(t, cluster, PackedByte(entries, 3 * h + 1), PackedByte(entries, 3 * h + 2), entries[cluster]);
  }

  /** Decoding inverts 12-bit packing, for odd and for even clusters; end marks are widened to 32 bits. */
  lemma DecodeOfPacked(t: Table, entries: seq<nat>, cluster: Word)
    requires t.kind == Fat12 && cluster < |entries| <= 0x1000
    requires forall e :: 0 <= e < |entries| ==> entries[e] < 0x1000
    ensures var i := t.EntryIndex(cluster);
      t.DecodeBytes(cluster, PackedByte(entries, i), PackedByte(entries, i + 1), 0, 0)
      == Widened(entries[cluster])
  {
    PackedIndex(t, cluster, cluster / 2);
    if cluster % 2 == 0 {
      LowDecodes(t, entries, cluster, cluster / 2);
    } else {
      HighDecodes(t, entries, cluster, cluster / 2);
    }
  }

  /** The part of `g_Data` that serves table lookups. */
  class FatCache {
    const table: Table
    const cache: array<Byte>
    var position: Word

    ghost predicate Valid()
      reads this, cache
    {
      table.Valid() && CacheOk(table, cache[..], position)
    }

    /** The cache as `FAT_Initialize` leaves it: empty. */
    constructor (table: Table)
      requires table.Valid()
      ensures Valid() && this.table == table && fresh(cache) && position == NO_POSITION
    {
      this.table := table;
      cache := new Byte[CACHE_BYTES](_ => 0);
      position := NO_POSITION;
    }

    /** `FAT_ReadFat`: five sectors of the table from sector `lbaIndex` on. */
    method ReadFat(lbaIndex: Word)
      requires table.Valid() && cache.Length == CACHE_BYTES && lbaIndex < 0x80_0000
      modifies cache
      ensures forall k :: 0 <= k < CACHE_BYTES ==> cache[k] == table.ByteAt(lbaIndex * SECTOR_SIZE + k)
    {
      for k := 0 to CACHE_BYTES
        invariant forall m :: 0 <= m < k ==> cache[m] == table.ByteAt(lbaIndex * SECTOR_SIZE + m)
      {
        var sector := table.disk(table.reserved + lbaIndex + k / SECTOR_SIZE);
        assert (lbaIndex * SECTOR_SIZE + k) / SECTOR_SIZE == lbaIndex + k / SECTOR_SIZE;
        cache[k] := sector[k % SECTOR_SIZE];
      }
    }

    /** Makes sure that the cached sectors include the one an entry starts in. */
    method Load(sector: Word)
      requires Valid() && sector < 0x80_0000
      modifies this`position, cache
      ensures Valid() && position <= sector < position + FAT_CACHE_SIZE
      ensures var p := old(position);
        position == if sector < p || sector >= ToWord(p + FAT_CACHE_SIZE) then sector else p
    {
      if sector < position || sector >= ToWord(position + FAT_CACHE_SIZE) {
        ReadFat(sector);
        position := sector;
      }
    }

    /** `FAT_NextCluster`. The byte after the cache is the lowest one of `FatCachePosition`. */
    method NextCluster(cluster: Word) returns (next: Word)
      requires Valid()
      modifies this`position, cache
      ensures Valid()
      ensures position == table.PositionAfter(old(position), cluster)
      ensures next == table.Found(position, cluster)
    {
      var fatIndex: nat := table.EntryIndex(cluster);
      Load(fatIndex / SECTOR_SIZE);
      EntryInside(table, cluster, position);
      FoundInCache(table, cache[..], position, cluster);
      fatIndex := fatIndex - position * SECTOR_SIZE;
      next := DecodeCached(table, cache[..], position, cluster, fatIndex);
    }
  }

  /**
   The read of an entry at offset `at` of the cache. A 16-bit read at the last byte of the cache takes its second
   byte from the field that follows, which is the position.
   */
  function DecodeCached(t: Table, cache: seq<Byte>, position: Word, cluster: Word, at: nat): Word
    requires |cache| == CACHE_BYTES && at < CACHE_BYTES && (t.kind == Fat32 ==> at + 3 < CACHE_BYTES)
  {
    var b1: Byte := if at + 1 < CACHE_BYTES then cache[at + 1] else position % 0x100;
    if t.kind == Fat32 then t.DecodeBytes(cluster, cache[at], b1, cache[at + 2], cache[at + 3])
    else t.DecodeBytes(cluster, cache[at], b1, 0, 0)
  }

  lemma FoundInCache(t: Table, cache: seq<Byte>, position: Word, cluster: Word)
    requires t.Valid() && CacheOk(t, cache, position) && position < 0x80_0000
    requires position <= t.EntryIndex(cluster) / SECTOR_SIZE < position + FAT_CACHE_SIZE
    ensures var at := t.EntryIndex(cluster) as int - position * SECTOR_SIZE;
      && 0 <= at < CACHE_BYTES && (t.kind == Fat32 ==> at + 3 < CACHE_BYTES)
      && DecodeCached(t, cache, position, cluster, at) == t.Found(position, cluster)
  {
    EntryInside(t, cluster, position);
    var at := t.EntryIndex(cluster) as int - position * SECTOR_SIZE;
    assert CachedByte(t, cache, position, at) && CachedByte(t, cache, position, at + 1);
    assert CachedByte(t, cache, position, at + 2) && CachedByte(t, cache, position, at + 3);
    if at + 1 < CACHE_BYTES {
      SameDecode(t, cluster, cache[at], cache[at + 1],
                 if t.kind == Fat32 then cache[at + 2] else 0, if t.kind == Fat32 then cache[at + 3] else 0);
    }
  }

  lemma ByteInside(i: nat, position: nat)
    requires position <= i / SECTOR_SIZE < position + FAT_CACHE_SIZE
    ensures 0 <= i - position * SECTOR_SIZE < CACHE_BYTES
  {
  }

  lemma PairInside(h: nat, position: nat)
    requires 2 * h - position * SECTOR_SIZE < CACHE_BYTES
    ensures 2 * h - position * SECTOR_SIZE + 1 < CACHE_BYTES
  {
  }

  lemma QuadInside(h: nat, position: nat)
    requires 4 * h - position * SECTOR_SIZE < CACHE_BYTES
    ensures 4 * h - position * SECTOR_SIZE + 3 < CACHE_BYTES
  {
  }

  lemma EntryAligned(t: Table, cluster: Word)
    ensures t.kind == Fat16 ==> t.EntryIndex(cluster) % 2 == 0
    ensures t.kind == Fat32 ==> t.EntryIndex(cluster) % 4 == 0
  {
  }

  /** Where an entry lies in a cache that includes its first sector. */
  lemma EntryInside(t: Table, cluster: Word, position: Word)
    requires position <= t.EntryIndex(cluster) / SECTOR_SIZE < position + FAT_CACHE_SIZE
    ensures var at := t.EntryIndex(cluster) as int - position * SECTOR_SIZE;
      && 0 <= at < CACHE_BYTES
      && (t.kind == Fat16 ==> at + 1 < CACHE_BYTES)
      && (t.kind == Fat32 ==> at + 3 < CACHE_BYTES)
      && (t.RunsPast(position, cluster) <==> at + 1 == CACHE_BYTES)
  {
    var i: nat := t.EntryIndex(cluster);
    ByteInside(i, position);
    EntryAligned(t, cluster);
    if t.kind == Fat16 {
      PairInside(i / 2, position);
    } else if t.kind == Fat32 {
      QuadInside(i / 4, position);
    }
  }

  /** Narrow entries use their first two bytes only. */
  lemma SameDecode(t: Table, cluster: Word, b0: Byte, b1: Byte, b2: Byte, b3: Byte)
    requires t.Valid()
    requires b0 == t.ByteAt(t.EntryIndex(cluster)) && b1 == t.ByteAt(t.EntryIndex(cluster) as int + 1)
    requires t.kind == Fat32 ==>
      b2 == t.ByteAt(t.EntryIndex(cluster) as int + 2) && b3 == t.ByteAt(t.EntryIndex(cluster) as int + 3)
    ensures t.DecodeBytes(cluster, b0, b1, b2, b3) == t.OnDisk(cluster)
  {
  }
}
