/**
 Where the boot loader's FAT driver, src/bootloader/stage2/fat.c, finds things on the volume: the entries of a table of
 12, 16 or 32 bits, the sectors of a cluster, and the bytes of a file.
 */
module FatLayout {
  import opened Machine
  import opened FatTable
  import opened FatFiles

  /** One more than the largest entry of a table. */
  function EntryLimit(kind: FatType): nat {
    match kind
    case Fat12 => 0x1000
    case Fat16 => 0x1_0000
    case Fat32 => 0x1_0000_0000
  }

  /** The entries of a table, no more than have an offset of 32 bits. */
  ghost predicate AreEntries(kind: FatType, entries: seq<nat>) {
    && |entries| <= (if kind == Fat32 then 0x4000_0000 else EntryLimit(kind))
    && forall e :: 0 <= e < |entries| ==> entries[e] < EntryLimit(kind)
  }

  /** Byte `k` of a table: two entries of 12 bits in three bytes, or each entry in two or four bytes, lowest first. */
  function TableByte(kind: FatType, entries: seq<nat>, k: nat): Byte
    requires AreEntries(kind, entries)
  {
    match kind
    case Fat12 => PackedByte(entries, k)
    case Fat16 => ShortByte(if k / 2 < |entries| then entries[k / 2] else 0, k % 2)
    case Fat32 => LongByte(if k / 4 < |entries| then entries[k / 4] else 0, k % 4)
  }

  function ShortByte(entry: nat, k: nat): Byte
    requires entry < 0x1_0000
  {
    if k == 0 then entry % 0x100 else entry / 0x100
  }

  function LongByte(entry: Word, k: nat): Byte {
    if k == 0 then entry % 0x100
    else if k == 1 then entry / 0x100 % 0x100
    else if k == 2 then entry / 0x100 / 0x100 % 0x100
    else entry / 0x100 / 0x100 / 0x100
  }

  /** An entry as the code hands it on: the end marks of narrow tables are widened to 32 bits. */
  function HandedOn(kind: FatType, entry: nat): Word
    requires entry < EntryLimit(kind)
  {
    match kind
    case Fat12 => if entry >= 0xFF8 then 0xFFFF_F000 + entry else entry
    case Fat16 => if entry >= 0xFFF8 then 0xFFFF_0000 + entry else entry
    case Fat32 => entry
  }

  /** The disk has the entries behind its reserved sectors. */
  ghost predicate HoldsTable(t: Table, entries: seq<nat>) {
    t.Valid() && AreEntries(t.kind, entries) && forall k: nat :: HoldsByte(t, entries, k)
  }

  ghost predicate HoldsByte(t: Table, entries: seq<nat>, k: nat)
    requires t.Valid() && AreEntries(t.kind, entries)
  {
    k < 4 * |entries| ==> t.disk(t.reserved + k / 512)[k % 512] == TableByte(t.kind, entries, k)
  }

  lemma ShortDecodes(t: Table, cluster: Word, entry: nat, b2: Byte, b3: Byte)
    requires t.kind == Fat16 && entry < 0x1_0000
    ensures t.DecodeBytes(cluster, ShortByte(entry, 0), ShortByte(entry, 1), b2, b3) == HandedOn(Fat16, entry)
  {
  }

  lemma LongDecodes(t: Table, cluster: Word, entry: Word)
    requires t.kind == Fat32
    ensures t.DecodeBytes(cluster, LongByte(entry, 0), LongByte(entry, 1), LongByte(entry, 2), LongByte(entry, 3)) == entry
  {
    WordBytes(entry);
  }

  lemma PackedIsHanded(t: Table, entries: seq<nat>, cluster: Word, b2: Byte, b3: Byte)
    requires t.kind == Fat12 && AreEntries(Fat12, entries) && cluster < |entries|
    ensures var i := t.EntryIndex(cluster);
      i + 1 < 4 * |entries| &&
      t.DecodeBytes(cluster, PackedByte(entries, i), PackedByte(entries, i + 1), b2, b3)
      == HandedOn(Fat12, entries[cluster])
  {
    DecodeOfPacked(t, entries, cluster);
  }

  /** Byte `k` of the table, as the code reads it. */
  lemma ByteIs(t: Table, entries: seq<nat>, k: nat)
    requires HoldsTable(t, entries) && k < 4 * |entries|
    ensures t.ByteAt(k) == TableByte(t.kind, entries, k)
  {
    assert HoldsByte(t, entries, k);
  }

  lemma PackedEntry(t: Table, entries: seq<nat>, cluster: Word)
    requires HoldsTable(t, entries) && cluster < |entries| && t.kind == Fat12
    ensures t.OnDisk(cluster) == HandedOn(Fat12, entries[cluster])
  {
    var i: nat := t.EntryIndex(cluster);
    PackedIsHanded(t, entries, cluster, t.ByteAt(i + 2), t.ByteAt(i + 3));
    ByteIs(t, entries, i);
    ByteIs(t, entries, i + 1);
  }

  lemma ShortTableBytes(entries: seq<nat>, c: nat)
    requires AreEntries(Fat16, entries) && c < |entries|
    ensures TableByte(Fat16, entries, 2 * c) == ShortByte(entries[c], 0)
    ensures TableByte(Fat16, entries, 2 * c + 1) == ShortByte(entries[c], 1)
  {
  }

  lemma ShortEntry(t: Table, entries: seq<nat>, cluster: Word)
    requires HoldsTable(t, entries) && cluster < |entries| && t.kind == Fat16
    ensures t.OnDisk(cluster) == HandedOn(Fat16, entries[cluster])
  {
    var i := 2 * cluster;
    assert t.EntryIndex(cluster) == i;
    ShortTableBytes(entries, cluster);
    ByteIs(t, entries, i);
    ByteIs(t, entries, i + 1);
    ShortDecodes(t, cluster, entries[cluster], t.ByteAt(i + 2), t.ByteAt(i + 3));
  }

  lemma LongTableByte(entries: seq<nat>, c: nat, j: nat)
    requires AreEntries(Fat32, entries) && c < |entries| && j < 4
    ensures TableByte(Fat32, entries, 4 * c + j) == LongByte(entries[c], j)
  {
  }

  lemma LongEntry(t: Table, entries: seq<nat>, cluster: Word)
    requires HoldsTable(t, entries) && cluster < |entries| && t.kind == Fat32
    ensures t.OnDisk(cluster) == entries[cluster]
  {
    var i := 4 * cluster;
    assert t.EntryIndex(cluster) == i;
    forall j: nat | j < 4 ensures t.ByteAt(i + j) == LongByte(entries[cluster], j) {
      LongTableByte(entries, cluster, j);
      ByteIs(t, entries, i + j);
    }
    assert t.ByteAt(i) == t.ByteAt(i + 0);
    LongDecodes(t, cluster, entries[cluster]);
  }

  /** The entry of a cluster is the one that the table on the disk has for it, whatever its width. */
  lemma EntryOnDisk(t: Table, entries: seq<nat>, cluster: Word)
    requires HoldsTable(t, entries) && cluster < |entries|
    ensures t.OnDisk(cluster) == HandedOn(t.kind, entries[cluster])
  {
    match t.kind
    case Fat12 => PackedEntry(t, entries, cluster);
    case Fat16 => ShortEntry(t, entries, cluster);
    case Fat32 => LongEntry(t, entries, cluster);
  }

  /** So does a lookup through the cache, wherever that stands, for an entry that is always found. */
  lemma LookupIsEntry(t: Table, entries: seq<nat>, cluster: Word, before: Word)
    requires HoldsTable(t, entries) && cluster < |entries| && t.AlwaysFound(cluster)
    requires before == NO_POSITION || before < 0x80_0000
    ensures t.Found(t.PositionAfter(before, cluster), cluster) == HandedOn(t.kind, entries[cluster])
  {
    EntryOnDisk(t, entries, cluster);
    FoundEverywhere(t, cluster);
  }

  /** Link `i` of a chain is an entry of the table. */
  ghost predicate FollowsAt(v: Volume, entries: seq<nat>, chain: seq<Word>, i: int)
    requires v.Valid() && AreEntries(v.table.kind, entries)
  {
    0 <= i < |chain| ==>
      && chain[i] < |entries| && chain[i] < END_MARK
      && (i + 1 < |chain| ==>
            HandedOn(v.table.kind, entries[chain[i]]) == chain[i + 1] && v.table.AlwaysFound(chain[i]))
  }

  /** Clusters that follow each other by the entries of the table are a chain. */
  lemma EntriesMakeChain(v: Volume, entries: seq<nat>, chain: seq<Word>)
    requires v.Valid() && HoldsTable(v.table, entries) && chain != [] && forall i :: FollowsAt(v, entries, chain, i)
    ensures v.IsChain(chain[0], chain)
  {
    forall i ensures v.LinkOk(chain[0], chain, i) {
      assert FollowsAt(v, entries, chain, i);
      if 0 <= i < |chain| {
        EntryOnDisk(v.table, entries, chain[i]);
      }
    }
  }

  /** Cluster 2 begins where the data region does, and each cluster where the one before it ends. */
  lemma ClustersAdjoin(v: Volume, cluster: Word)
    requires cluster + 1 < TWO_TO_THE_32
    ensures v.ClusterToLba(2) == v.dataLba
    ensures v.ClusterToLba(cluster + 1) == ToWord(v.ClusterToLba(cluster) + v.perCluster)
  {
    var x := v.dataLba + (cluster - 2) * v.perCluster;
    assert v.dataLba + (cluster + 1 - 2) * v.perCluster == x + v.perCluster;
    WrapSum(x, v.perCluster);
  }

  lemma WrapSum(x: int, y: int)
    ensures ToWord(ToWord(x) + y) == ToWord(x + y)
  {
    var q, r := x / TWO_TO_THE_32, x % TWO_TO_THE_32;
    WrapIs(r + y, x + y, q);
  }

  lemma WrapIs(a: int, b: int, q: int)
    requires b == a + q * TWO_TO_THE_32
    ensures ToWord(a) == ToWord(b)
  {
  }

  lemma Multiples(a: int, b: int, p: nat)
    ensures a <= b ==> a * p <= b * p
    ensures (a + 1) * p == a * p + p
  {
    assert b * p - a * p == (b - a) * p;
  }

  /** Where a cluster begins, if its last sector has a number of 32 bits. */
  lemma ClusterStart(v: Volume, c: Word)
    requires 2 <= c && v.perCluster > 0 && v.dataLba + (c - 1) * v.perCluster <= TWO_TO_THE_32
    ensures v.ClusterToLba(c) == v.dataLba + (c - 2) * v.perCluster <= TWO_TO_THE_32 - v.perCluster
  {
    Multiples(c - 2, c - 2, v.perCluster);
    Multiples(0, c - 2, v.perCluster);
  }

  /** Clusters of a volume whose sector numbers do not wrap share no sector. */
  lemma ClustersApart(v: Volume, c: Word, d: Word, i: nat, j: nat)
    requires 2 <= c && 2 <= d && c != d && i < v.perCluster && j < v.perCluster
    requires v.dataLba + (c - 1) * v.perCluster <= TWO_TO_THE_32 && v.dataLba + (d - 1) * v.perCluster <= TWO_TO_THE_32
    ensures v.ClusterToLba(c) + i != v.ClusterToLba(d) + j
    ensures v.ClusterToLba(c) + i < TWO_TO_THE_32
  {
    ClusterStart(v, c);
    ClusterStart(v, d);
    Multiples(c - 2, d - 2, v.perCluster);
    Multiples(d - 2, c - 2, v.perCluster);
    Multiples(c - 1, d - 2, v.perCluster);
    Multiples(d - 1, c - 2, v.perCluster);
  }

  /** The number of sector `j` of a cluster: clusters begin with number 2, at the start of the data region. */
  function SectorInCluster(v: Volume, cluster: Word, j: nat): Word {
    ToWord(v.dataLba + (cluster - 2) * v.perCluster + j)
  }

  /** The number of the disk's sector that holds sector `s` of a file. */
  function SectorNumber(v: Volume, chain: seq<Word>, s: nat): Word
    requires v.perCluster > 0 && s / v.perCluster < |chain|
  {
    SectorInCluster(v, chain[s / v.perCluster], s % v.perCluster)
  }

  lemma {:induction false} SectorCount(v: Volume, chain: seq<Word>, n: nat)
    requires v.Valid() && n <= |chain|
    ensures |v.Sectors(chain, n)| == n * v.perCluster
  {
    if n > 0 {
      SectorCount(v, chain, n - 1);
      Multiples(n - 1, n - 1, v.perCluster);
    }
  }

  lemma DivideBy(s: nat, p: nat, n: nat)
    requires p > 0 && s < n * p
    ensures 0 <= s / p < n && 0 <= s % p < p && s == s / p * p + s % p
  {
    Multiples(n, s / p, p);
  }

  lemma SectorOfIs(v: Volume, cluster: Word, j: Word)
    ensures v.SectorOf(cluster, j) == v.table.disk(SectorInCluster(v, cluster, j))
  {
    WrapSum(v.dataLba + (cluster - 2) * v.perCluster, j);
  }

  lemma SectorAt(v: Volume, chain: seq<Word>, ci: nat, j: nat, s: nat)
    requires v.Valid() && ci < |chain| && v.Place(chain, ci, chain[ci], j, s)
    ensures s < |v.AllSectors(chain)| && v.AllSectors(chain)[s] == v.table.disk(SectorInCluster(v, chain[ci], j))
  {
    v.PlaceSector(chain, ci, chain[ci], j, s);
    SectorOfIs(v, chain[ci], j);
  }

  lemma CountedPlace(v: Volume, chain: seq<Word>, s: nat)
    requires v.Valid() && s < |v.AllSectors(chain)|
    ensures s / v.perCluster < |chain|
    ensures v.Place(chain, s / v.perCluster, chain[s / v.perCluster], s % v.perCluster, s)
  {
    SectorCount(v, chain, |chain|);
    DivideBy(s, v.perCluster, |chain|);
    var ci: nat := s / v.perCluster;
    SectorCount(v, chain, ci);
  }

  /** The sectors of a file are those of its clusters, one cluster after the other. */
  lemma FileSector(v: Volume, chain: seq<Word>, s: nat)
    requires v.Valid() && s < |v.AllSectors(chain)|
    ensures s / v.perCluster < |chain| && v.AllSectors(chain)[s] == v.table.disk(SectorNumber(v, chain, s))
  {
    CountedPlace(v, chain, s);
    SectorAt(v, chain, s / v.perCluster, s % v.perCluster, s);
  }

  /** Byte `k` of a file, found by counting through its clusters from the start of the data region. */
  lemma FileByte(v: Volume, chain: seq<Word>, content: seq<Byte>, k: nat)
    requires v.Valid() && IsBytes(content, v.AllSectors(chain)) && k < |content|
    ensures k / 512 / v.perCluster < |chain|
    ensures content[k] == v.table.disk(SectorNumber(v, chain, k / 512))[k % 512]
  {
    var s := k / SECTOR_SIZE;
    assert s < |v.AllSectors(chain)| && SectorBytes(content, v.AllSectors(chain), s);
    FileSector(v, chain, s);
    assert content[SECTOR_SIZE * s..SECTOR_SIZE * (s + 1)][k % SECTOR_SIZE] == content[k];
  }

  /** What a read has stored, byte by byte. */
  lemma ReadByte(v: Volume, chain: seq<Word>, content: seq<Byte>, before: seq<Byte>, now: seq<Byte>, at: nat, p: nat,
                 n: nat, k: nat)
    requires v.Valid() && IsBytes(content, v.AllSectors(chain)) && Stored(before, now, at, content, p, n) && k < n
    ensures (p + k) / 512 / v.perCluster < |chain|
    ensures now[at + k] == v.table.disk(SectorNumber(v, chain, (p + k) / 512))[(p + k) % 512]
  {
    assert StoredByte(before, now, at, content, p, n, at + k);
    FileByte(v, chain, content, p + k);
  }

  /** The chain is clusters 2, 3, 4 and so on, and sector numbers do not wrap. */
  ghost predicate Contiguous(v: Volume, chain: seq<Word>) {
    && v.dataLba + |chain| * v.perCluster <= TWO_TO_THE_32
    && forall i :: 0 <= i < |chain| ==> chain[i] == i + 2
  }

  lemma ContiguousNumber(v: Volume, chain: seq<Word>, s: nat)
    requires v.perCluster > 0 && Contiguous(v, chain) && s < |chain| * v.perCluster
    ensures v.dataLba + s < TWO_TO_THE_32 && s / v.perCluster < |chain|
    ensures SectorNumber(v, chain, s) == v.dataLba + s
  {
    DivideBy(s, v.perCluster, |chain|);
    assert chain[s / v.perCluster] - 2 == s / v.perCluster;
  }

  /** A file in the first clusters is the first sectors of the data region, one after the other. */
  lemma ContiguousSectors(v: Volume, chain: seq<Word>, s: nat)
    requires v.Valid() && Contiguous(v, chain) && s < |v.AllSectors(chain)|
    ensures v.dataLba + s < TWO_TO_THE_32 && v.AllSectors(chain)[s] == v.table.disk(v.dataLba + s)
  {
    SectorCount(v, chain, |chain|);
    ContiguousNumber(v, chain, s);
    FileSector(v, chain, s);
  }

  /** And a read of it is a slice of these. */
  lemma ContiguousRead(v: Volume, chain: seq<Word>, content: seq<Byte>, before: seq<Byte>, now: seq<Byte>, at: nat,
                       p: nat, n: nat, k: nat)
    requires v.Valid() && Contiguous(v, chain) && IsBytes(content, v.AllSectors(chain))
    requires Stored(before, now, at, content, p, n) && k < n
    ensures v.dataLba + (p + k) / 512 < TWO_TO_THE_32
    ensures now[at + k] == v.table.disk(v.dataLba + (p + k) / 512)[(p + k) % 512]
  {
    var s := (p + k) / SECTOR_SIZE;
    assert s < |v.AllSectors(chain)|;
    ReadByte(v, chain, content, before, now, at, p, n, k);
    FileSector(v, chain, s);
    ContiguousSectors(v, chain, s);
  }

  /** The first cluster of an entry has the low half and the high half that it says. */
  lemma FirstClusterHalves(e: DirectoryEntry)
    requires e.clusterLow < 0x1_0000 && e.clusterHigh < 0x1_0000
    ensures e.FirstCluster() % 0x1_0000 == e.clusterLow && e.FirstCluster() / 0x1_0000 == e.clusterHigh
  {
  }

  /** An entry is a directory exactly if bit 4 of its attributes is set. */
  lemma DirectoryBit(e: DirectoryEntry, below: nat, bit: nat, above: nat)
    requires below < 0x10 && bit < 2 && above < 8 && e.attributes as int == below + 0x10 * bit + 0x20 * above
    ensures e.IsDirectory() <==> bit == 1
  {
  }
}
