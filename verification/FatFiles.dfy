/**
 The buffered byte stream over a cluster chain of src/bootloader/stage2/fat.c: `FAT_OpenEntry`, `FAT_Read` and
 `FAT_Close` on files other than the root directory. Disk reads are taken to succeed.
 */
module FatFiles {
  import opened Machine
  import opened FatTable

  /** Cluster numbers from here on mark the end of a chain. */
  const END_MARK: Word := 0xFFFF_FFF8

  /** A mounted volume: its table, the first sector of its data region, and the sectors in a cluster. */
  datatype Volume = Volume(table: Table, dataLba: Word, perCluster: nat) {
    ghost predicate Valid() { table.Valid() && 0 < perCluster < 0x100 }

    /** `FAT_ClusterToLba`. */
    function ClusterToLba(cluster: Word): Word {
      ToWord(dataLba + (cluster - 2) * perCluster)
    }

    /** Sector `j` of a cluster. */
    function SectorOf(cluster: Word, j: Word): Sector {
      table.disk(ToWord(ClusterToLba(cluster) + j))
    }

    /** The first `n` sectors of a cluster. */
    ghost function ClusterSectors(cluster: Word, n: nat): (ss: seq<Sector>)
      requires n < 0x100
      ensures |ss| == n
      ensures forall j :: 0 <= j < n ==> ss[j] == SectorOf(cluster, j)
    {
      if n == 0 then [] else ClusterSectors(cluster, n - 1) + [SectorOf(cluster, n - 1)]
    }

    /** The sectors of the first `n` clusters of a chain. */
    ghost function Sectors(chain: seq<Word>, n: nat): seq<Sector>
      requires Valid() && n <= |chain|
    {
      if n == 0 then [] else Sectors(chain, n - 1) + ClusterSectors(chain[n - 1], perCluster)
    }

    /** All sectors of a chain. */
    ghost function AllSectors(chain: seq<Word>): seq<Sector>
      requires Valid()
    {
      Sectors(chain, |chain|)
    }

    lemma {:induction false} SectorsPrefix(chain: seq<Word>, k: nat, n: nat)
      requires Valid() && k <= n <= |chain|
      ensures Sectors(chain, k) <= Sectors(chain, n)
      decreases n
    {
      if k < n {
        SectorsPrefix(chain, k, n - 1);
      }
    }

    /** Sector `j` of the current cluster, which is cluster `ci` of the chain, is sector `s` of the whole chain. */
    ghost predicate Place(chain: seq<Word>, ci: nat, cluster: Word, j: nat, s: int)
      requires Valid()
    {
      ci < |chain| && cluster == chain[ci] && j < perCluster && s == |Sectors(chain, ci)| + j
    }

    lemma ClusterSectorIs(chain: seq<Word>, ci: nat, j: nat)
      requires Valid() && ci < |chain| && j < perCluster
      ensures var one, k := Sectors(chain, ci + 1), |Sectors(chain, ci)| + j;
        k < |one| && one[k] == SectorOf(chain[ci], j)
    {
      var before, cluster := Sectors(chain, ci), ClusterSectors(chain[ci], perCluster);
      assert Sectors(chain, ci + 1) == before + cluster;
      assert (before + cluster)[|before| + j] == cluster[j];
    }

    lemma PlaceSector(chain: seq<Word>, ci: nat, cluster: Word, j: nat, s: int)
      requires Valid() && Place(chain, ci, cluster, j, s)
      ensures 0 <= s < |AllSectors(chain)| && AllSectors(chain)[s] == SectorOf(cluster, j)
    {
      SectorsPrefix(chain, ci + 1, |chain|);
      ClusterSectorIs(chain, ci, j);
    }

    /** The place of the next sector: in the same cluster, at the start of the next one, or past the chain. */
    lemma PlaceNext(chain: seq<Word>, ci: nat, cluster: Word, j: nat, s: int)
      requires Valid() && Place(chain, ci, cluster, j, s)
      ensures j + 1 < perCluster ==> Place(chain, ci, cluster, j + 1, s + 1)
      ensures j + 1 >= perCluster && ci + 1 < |chain| ==> Place(chain, ci + 1, chain[ci + 1], 0, s + 1)
      ensures j + 1 >= perCluster && ci + 1 == |chain| ==> s + 1 == |AllSectors(chain)|
    {
      assert |Sectors(chain, ci + 1)| == |Sectors(chain, ci)| + perCluster;
    }

    /** `chain` is the clusters from `first` on, as far as wanted; nothing is said of what follows the last one. */
    ghost predicate IsChain(first: Word, chain: seq<Word>)
      requires Valid()
    {
      forall i :: LinkOk(first, chain, i)
    }

    /**
     Link `i`: a usable cluster, the first one where it should be. If the chain goes on, the disk names the next
     cluster, and the entry is found wherever the cache stands.
     */
    ghost predicate LinkOk(first: Word, chain: seq<Word>, i: int)
      requires Valid()
    {
      0 <= i < |chain| ==>
        && (i == 0 ==> chain[i] == first)
        && chain[i] < END_MARK
        && (i + 1 < |chain| ==> table.AlwaysFound(chain[i]) && table.OnDisk(chain[i]) == chain[i + 1])
    }

    /**
     The entry of the last cluster is one that `FAT_Read` takes for an end mark. The upper four bits of a 32-bit entry
     are not masked, so that 0x0FFFFFF8 to 0x0FFFFFFF are none.
     */
    ghost predicate Terminated(chain: seq<Word>)
      requires Valid()
    {
      && chain != []
      && table.AlwaysFound(chain[|chain| - 1])
      && table.OnDisk(chain[|chain| - 1]) >= END_MARK
    }

    /**
     A chain either is terminated or goes on with whatever its last entry holds, for the code a cluster like any other.
     */
    lemma TerminatedOrGoesOn(first: Word, chain: seq<Word>)
      requires Valid() && IsChain(first, chain) && chain != [] && table.AlwaysFound(chain[|chain| - 1])
      ensures Terminated(chain) <==> !IsChain(first, chain + [table.OnDisk(chain[|chain| - 1])])
    {
      var n, next := |chain|, table.OnDisk(chain[|chain| - 1]);
      var longer := chain + [next];
      if next < END_MARK {
        forall i ensures LinkOk(first, longer, i) {
          assert LinkOk(first, chain, i);
        }
      } else {
        assert !LinkOk(first, longer, n);
      }
    }

    /** The usual end mark of a 32-bit table does not terminate a chain: the code reads on at that cluster. */
    lemma UsualEndMarkGoesOn(first: Word, chain: seq<Word>)
      requires Valid() && IsChain(first, chain) && chain != [] && table.kind == Fat32
      requires table.OnDisk(chain[|chain| - 1]) < 0x1000_0000
      ensures IsChain(first, chain + [table.OnDisk(chain[|chain| - 1])])
    {
      TerminatedOrGoesOn(first, chain);
    }
  }

  /** `content` is the bytes of the sectors `ss`, one sector after the other. */
  ghost predicate IsBytes(content: seq<Byte>, ss: seq<Sector>) {
    |content| == SECTOR_SIZE * |ss| && forall s :: SectorBytes(content, ss, s)
  }

  ghost predicate SectorBytes(content: seq<Byte>, ss: seq<Sector>, s: int)
    requires |content| == SECTOR_SIZE * |ss|
  {
    0 <= s < |ss| ==> content[SECTOR_SIZE * s..SECTOR_SIZE * (s + 1)] == ss[s]
  }

  /** Every sequence of sectors has its bytes, and only one sequence of bytes is theirs. */
  lemma {:induction false} BytesExist(ss: seq<Sector>) returns (content: seq<Byte>)
    ensures IsBytes(content, ss)
  {
    if ss == [] {
      content := [];
    } else {
      var init := ss[..|ss| - 1];
      var rest := BytesExist(init);
      content := rest + ss[|ss| - 1];
      forall s ensures SectorBytes(content, ss, s) {
        assert SectorBytes(rest, init, s);
        if 0 <= s < |init| {
          assert content[SECTOR_SIZE * s..SECTOR_SIZE * (s + 1)] == rest[SECTOR_SIZE * s..SECTOR_SIZE * (s + 1)];
        }
      }
    }
  }

  lemma BytesUnique(content: seq<Byte>, other: seq<Byte>, ss: seq<Sector>)
    requires IsBytes(content, ss) && IsBytes(other, ss)
    ensures content == other
  {
    forall k | 0 <= k < |content| ensures content[k] == other[k] {
      var s := k / SECTOR_SIZE;
      assert SectorBytes(content, ss, s) && SectorBytes(other, ss, s);
      assert content[SECTOR_SIZE * s..SECTOR_SIZE * (s + 1)][k - SECTOR_SIZE * s] == content[k];
      assert other[SECTOR_SIZE * s..SECTOR_SIZE * (s + 1)][k - SECTOR_SIZE * s] == other[k];
    }
  }

  lemma SliceOfSlice(s: seq<Byte>, lo: nat, hi: nat, a: nat, b: nat)
    requires lo <= hi <= |s| && a <= b <= hi - lo
    ensures s[lo..hi][a..b] == s[lo + a..lo + b]
  {
    var t := s[lo..hi];
    assert forall k :: 0 <= k < |t| ==> t[k] == s[lo + k];
    assert |t[a..b]| == |s[lo + a..lo + b]|;
    assert forall k :: 0 <= k < b - a ==> t[a..b][k] == t[a + k];
  }

  class FileData {
    const buffer: array<Byte>
    var isDirectory: bool
    var position: Word
    var size: Word
    var isOpen: bool
    var firstCluster: Word
    var currentCluster: Word
    var currentSectorInCluster: nat
    /** The cluster chain, the index in it of the current cluster, and the bytes of all its sectors. */
    ghost var chain: seq<Word>
    ghost var ci: nat
    ghost var content: seq<Byte>

    constructor ()
      ensures buffer.Length == SECTOR_SIZE && fresh(buffer) && !isOpen
    {
      buffer := new Byte[SECTOR_SIZE](_ => 0);
      isDirectory, position, size, isOpen := false, 0, 0, false;
      firstCluster, currentCluster, currentSectorInCluster := 0, 0, 0;
      chain, ci, content := [], 0, [];
    }

    /** A directory whose entry gives no size is read until its chain ends. */
    predicate Unbounded()
      reads this
    {
      isDirectory && size == 0
    }

    /** The position at which reading stops. */
    ghost function EndOf(): nat
      reads this
    {
      if Unbounded() then |content| else size
    }

    /**
     The chain covers the file, positions fit 32 bits, and for the sector at the position, if the chain has it,
     buffer, cluster and sector number describe that sector.
     */
    ghost predicate Valid(v: Volume)
      reads this, buffer
    {
      && v.Valid() && buffer.Length == SECTOR_SIZE
      && size <= |content|
      && (Unbounded() ==> |content| < TWO_TO_THE_32 && (v.Terminated(chain) ==> position < |content|))
      && position <= EndOf()
      && forall s :: SectorOk(v, s)
    }

    ghost predicate SectorOk(v: Volume, s: int)
      requires v.Valid()
      reads this, buffer
    {
      && v.IsChain(firstCluster, chain)
      && IsBytes(content, v.AllSectors(chain))
      && (position < |content| && s == position / SECTOR_SIZE ==>
            && v.Place(chain, ci, currentCluster, currentSectorInCluster, s)
            && buffer[..] == v.AllSectors(chain)[s])
    }
  }

  /** The fields of a directory entry that opening it uses. */
  datatype DirectoryEntry = DirectoryEntry(attributes: Byte, size: Word, clusterHigh: nat, clusterLow: nat) {
    /** FAT_ATTRIBUTE_DIRECTORY is 0x10. */
    predicate IsDirectory() { attributes / 0x10 % 2 == 1 }

    /** `FirstClusterLow + (FirstClusterHigh << 16)`. */
    function FirstCluster(): Word { ToWord(clusterLow + clusterHigh * 0x1_0000) }

    /** `chain` is clusters of the entry's chain, `content` is their bytes, and they cover the file. */
    ghost predicate CoveredBy(v: Volume, chain: seq<Word>, content: seq<Byte>)
      requires v.Valid()
    {
      && v.IsChain(FirstCluster(), chain)
      && IsBytes(content, v.AllSectors(chain))
      && size <= |content|
      && (IsDirectory() && size == 0 ==> |content| < TWO_TO_THE_32)
    }
  }

  const MAX_FILE_HANDLES: nat := 10

  class FileSystem {
    const v: Volume
    const fat: FatCache
    const files: seq<FileData>

    /** The file slots and their buffers are different objects. */
    ghost predicate SlotsApart()
      reads this
    {
      && |files| == MAX_FILE_HANDLES
      && (forall i :: 0 <= i < |files| ==> files[i].buffer.Length == SECTOR_SIZE && files[i].buffer != fat.cache)
      && (forall i, j :: 0 <= i < j < |files| ==> files[i] != files[j] && files[i].buffer != files[j].buffer)
    }

    ghost predicate Valid()
      reads this, fat, fat.cache
    {
      v.Valid() && fat.table == v.table && fat.Valid()
    }

    /** `FAT_Initialize`, as far as files go: an empty cache and no open file. */
    constructor (v: Volume)
      requires v.Valid()
      ensures Valid() && SlotsApart() && this.v == v
      ensures forall i :: 0 <= i < |files| ==> !files[i].isOpen
    {
      this.v := v;
      var cache := new FatCache(v.table);
      var slots: seq<FileData> := [];
      while |slots| < MAX_FILE_HANDLES
        invariant |slots| <= MAX_FILE_HANDLES && fresh(cache) && fresh(cache.cache) && cache.Valid() && cache.table == v.table
        invariant forall i :: 0 <= i < |slots| ==>
          fresh(slots[i]) && fresh(slots[i].buffer) && !slots[i].isOpen && slots[i].buffer.Length == SECTOR_SIZE &&
          slots[i].buffer != cache.cache
        invariant forall i, j :: 0 <= i < j < |slots| ==> slots[i] != slots[j] && slots[i].buffer != slots[j].buffer
      {
        var fd := new FileData();
        slots := slots + [fd];
      }
      fat := cache;
      files := slots;
    }

    /** `Partition_ReadSectors` of one sector. */
    method ReadSector(sector: Sector, buffer: array<Byte>)
      requires buffer.Length == SECTOR_SIZE
      modifies buffer
      ensures buffer[..] == sector
    {
      for k := 0 to SECTOR_SIZE
        invariant forall m :: 0 <= m < k ==> buffer[m] == sector[m]
      {
        buffer[k] := sector[k];
      }
    }

    /** The search for a slot that is not in use. */
    method FreeSlot() returns (handle: Option<nat>)
      ensures handle.None? ==> forall i :: 0 <= i < |files| ==> files[i].isOpen
      ensures handle.Some? ==> handle.value < |files| && !files[handle.value].isOpen
      ensures handle.Some? ==> forall i :: 0 <= i < handle.value ==> files[i].isOpen
    {
      var i := 0;
      while i < |files|
        invariant 0 <= i <= |files|
        invariant forall k :: 0 <= k < i ==> files[k].isOpen
      {
        if !files[i].isOpen {
          return Some(i);
        }
        i := i + 1;
      }
      return None;
    }

    /** Sets a slot up for an entry: position 0, with the first sector of the file in the buffer. */
    method SetUp(fd: FileData, entry: DirectoryEntry, ghost chain: seq<Word>, ghost content: seq<Byte>)
      requires v.Valid() && fd.buffer.Length == SECTOR_SIZE
      modifies fd, fd.buffer
      ensures fd.isOpen && fd.isDirectory == entry.IsDirectory() && fd.position == 0 && fd.size == entry.size
      ensures entry.CoveredBy(v, chain, content) ==> fd.Valid(v) && fd.content == content
    {
      fd.isDirectory := entry.IsDirectory();
      fd.position := 0;
      fd.size := entry.size;
      fd.firstCluster := entry.FirstCluster();
      fd.currentCluster := fd.firstCluster;
      fd.currentSectorInCluster := 0;
      fd.chain, fd.ci, fd.content := chain, 0, content;
      ReadSector(v.SectorOf(fd.currentCluster, 0), fd.buffer);
      fd.isOpen := true;
      if entry.CoveredBy(v, chain, content) {
        if chain != [] {
          assert v.LinkOk(fd.firstCluster, chain, 0);
          v.PlaceSector(chain, 0, fd.currentCluster, 0, 0);
        }
        forall s ensures fd.SectorOk(v, s) {
        }
      }
    }

    /** `FAT_OpenEntry`: the first free slot, set up for the entry; None when all slots are in use. */
    method OpenEntry(entry: DirectoryEntry, ghost chain: seq<Word>, ghost content: seq<Byte>) returns (handle: Option<nat>)
      requires Valid() && SlotsApart()
      modifies files, set i | 0 <= i < |files| :: files[i].buffer
      ensures Valid()
      ensures handle.None? ==> forall i :: 0 <= i < |files| ==> old(files[i].isOpen)
      ensures handle.Some? ==> handle.value < |files| && !old(files[handle.value].isOpen) && files[handle.value].isOpen
      ensures handle.Some? && entry.CoveredBy(v, chain, content) ==> var fd := files[handle.value];
        fd.Valid(v) && fd.position == 0 && fd.content == content
      ensures forall i :: 0 <= i < |files| && handle != Some(i) ==> unchanged(files[i]) && unchanged(files[i].buffer)
    {
      handle := FreeSlot();
      if handle.Some? {
        SetUp(files[handle.value], entry, chain, content);
      }
    }

    /** `FAT_Close` of a file other than the root directory. */
    method Close(fd: FileData)
      modifies fd`isOpen
      ensures !fd.isOpen
    {
      fd.isOpen := false;
    }

    /** The next cluster of a chain, as the table lookup finds it; behind the chain, what its last entry holds. */
    method FollowChain(cluster: Word, ghost first: Word, ghost chain: seq<Word>, ghost ci: nat) returns (next: Word)
      requires Valid() && v.IsChain(first, chain) && ci < |chain| && chain[ci] == cluster
      modifies fat`position, fat.cache
      ensures Valid()
      ensures ci + 1 < |chain| ==> next == chain[ci + 1] < END_MARK
      ensures ci + 1 == |chain| && v.table.AlwaysFound(cluster) ==> next == v.table.OnDisk(cluster)
    {
      assert v.LinkOk(first, chain, ci + 1);
      assert v.LinkOk(first, chain, ci);
      FoundEverywhere(v.table, cluster);
      next := fat.NextCluster(cluster);
    }

    /** `next` is what the entry of the last cluster holds, if that entry is found wherever the cache stands. */
    ghost predicate LastFound(chain: seq<Word>, next: Word)
      requires v.Valid()
    {
      && chain != []
      && (v.table.AlwaysFound(chain[|chain| - 1]) ==> next == v.table.OnDisk(chain[|chain| - 1]))
    }

    /** The first sector of the next cluster; behind the chain, of what its last entry holds. */
    method EnterNext(fd: FileData)
      requires Valid() && v.IsChain(fd.firstCluster, fd.chain)
      requires fd.ci < |fd.chain| && fd.chain[fd.ci] == fd.currentCluster
      modifies fd`currentSectorInCluster, fd`currentCluster, fd`ci, fat`position, fat.cache
      ensures Valid() && fd.currentSectorInCluster == 0 && fd.ci == old(fd.ci) + 1
      ensures if fd.ci < |fd.chain| then fd.currentCluster == fd.chain[fd.ci] < END_MARK
              else LastFound(fd.chain, fd.currentCluster)
    {
      fd.currentSectorInCluster := 0;
      fd.currentCluster := FollowChain(fd.currentCluster, fd.firstCluster, fd.chain, fd.ci);
      fd.ci := fd.ci + 1;
    }

    /** The numbers are those of the sector of the position, or the position is behind the last sector. */
    ghost predicate Advanced(fd: FileData)
      requires v.Valid()
      reads this, fd
    {
      var s := fd.position / SECTOR_SIZE;
      || (fd.currentCluster < END_MARK && v.Place(fd.chain, fd.ci, fd.currentCluster, fd.currentSectorInCluster, s))
      || (s == |v.AllSectors(fd.chain)| && LastFound(fd.chain, fd.currentCluster))
    }

    /** Behind the last sector the end of the chain is seen exactly if it is terminated, when its entry is found. */
    ghost predicate EndSeen(chain: seq<Word>, behind: bool, ended: bool)
      requires v.Valid()
    {
      chain != [] && (behind && v.table.AlwaysFound(chain[|chain| - 1]) ==> (ended <==> v.Terminated(chain)))
    }

    lemma EndReached(fd: FileData)
      requires v.Valid() && IsBytes(fd.content, v.AllSectors(fd.chain))
      requires fd.position % SECTOR_SIZE == 0 && Advanced(fd)
      ensures fd.position <= |fd.content| && (fd.currentCluster >= END_MARK ==> fd.position == |fd.content|)
      ensures EndSeen(fd.chain, fd.position == |fd.content|, fd.currentCluster >= END_MARK)
    {
      var s := fd.position / SECTOR_SIZE;
      if v.Place(fd.chain, fd.ci, fd.currentCluster, fd.currentSectorInCluster, s) {
        v.PlaceSector(fd.chain, fd.ci, fd.currentCluster, fd.currentSectorInCluster, s);
      }
    }

    /** The new cluster and sector numbers once a sector is used up; behind the chain, what its last entry holds. */
    method Advance(fd: FileData)
      requires Valid() && v.IsChain(fd.firstCluster, fd.chain)
      requires v.Place(fd.chain, fd.ci, fd.currentCluster, fd.currentSectorInCluster, fd.position / SECTOR_SIZE - 1)
      modifies fd`currentSectorInCluster, fd`currentCluster, fd`ci, fat`position, fat.cache
      ensures Valid() && fd.currentSectorInCluster < v.perCluster && Advanced(fd)
    {
      v.PlaceNext(fd.chain, fd.ci, fd.currentCluster, fd.currentSectorInCluster, fd.position / SECTOR_SIZE - 1);
      assert v.LinkOk(fd.firstCluster, fd.chain, fd.ci);
      fd.currentSectorInCluster := fd.currentSectorInCluster + 1;
      if fd.currentSectorInCluster >= v.perCluster {
        EnterNext(fd);
      }
    }

    /** The position is behind the sector that the numbers say. */
    ghost predicate UsedUp(fd: FileData)
      requires v.Valid()
      reads this, fd
    {
      && fd.buffer.Length == SECTOR_SIZE && fd.position % SECTOR_SIZE == 0
      && v.IsChain(fd.firstCluster, fd.chain) && IsBytes(fd.content, v.AllSectors(fd.chain))
      && v.Place(fd.chain, fd.ci, fd.currentCluster, fd.currentSectorInCluster, fd.position / SECTOR_SIZE - 1)
    }

    /**
     The step of `FAT_Read` to the sector after the one just used up. Behind the chain it ends exactly if the chain is
     terminated; otherwise some other sector is in the buffer.
     */
    method NextSector(fd: FileData) returns (ended: bool)
      requires Valid() && fd.buffer != fat.cache && UsedUp(fd)
      modifies fd`currentSectorInCluster, fd`currentCluster, fd`size, fd`ci, fd.buffer, fat`position, fat.cache
      ensures Valid() && forall s :: fd.SectorOk(v, s)
      ensures fd.position <= |fd.content|
      ensures ended ==> fd.size == fd.position == |fd.content|
      ensures !ended ==> fd.size == old(fd.size)
      ensures EndSeen(fd.chain, fd.position == |fd.content|, ended)
    {
      Advance(fd);
      EndReached(fd);
      ghost var s := fd.position / SECTOR_SIZE;
      if fd.currentCluster >= END_MARK {
        fd.size := fd.position;
        ended := true;
      } else {
        if v.Place(fd.chain, fd.ci, fd.currentCluster, fd.currentSectorInCluster, s) {
          v.PlaceSector(fd.chain, fd.ci, fd.currentCluster, fd.currentSectorInCluster, s);
        }
        ReadSector(v.SectorOf(fd.currentCluster, fd.currentSectorInCluster), fd.buffer);
        ended := false;
      }
    }

    /** `memcpy` of `take` bytes of the buffer, from offset `at`, to `dataOut + done`. */
    method Copy(buffer: array<Byte>, at: nat, take: nat, dataOut: array<Byte>, done: nat)
      requires at + take <= buffer.Length && done + take <= dataOut.Length && buffer != dataOut
      modifies dataOut
      ensures Stored(old(dataOut[..]), dataOut[..], done, buffer[..], at, take)
    {
      for k := 0 to take
        invariant forall m :: 0 <= m < dataOut.Length ==>
          dataOut[m] == if done <= m < done + k then buffer[at + m - done] else old(dataOut[m])
      {
        dataOut[done + k] := buffer[at + k];
      }
    }

    lemma WholeSectors(fd: FileData)
      requires fd.Valid(v) && fd.position < |fd.content|
      ensures fd.position + (SECTOR_SIZE - fd.position % SECTOR_SIZE) <= |fd.content|
    {
      assert fd.SectorOk(v, 0);
    }

    /** Copies the next `take` bytes of the file out of the buffer. */
    method CopyPart(fd: FileData, take: nat, dataOut: array<Byte>, done: nat)
      requires fd.Valid(v) && fd.position < |fd.content| && dataOut != fd.buffer
      requires take <= SECTOR_SIZE - fd.position % SECTOR_SIZE && done + take <= dataOut.Length
      modifies dataOut
      ensures fd.position + take <= |fd.content|
      ensures Stored(old(dataOut[..]), dataOut[..], done, fd.content, fd.position, take)
    {
      ghost var ss, s := v.AllSectors(fd.chain), fd.position / SECTOR_SIZE;
      var at := fd.position % SECTOR_SIZE;
      assert fd.SectorOk(v, s) && SectorBytes(fd.content, ss, s);
      SliceOfSlice(fd.content, SECTOR_SIZE * s, SECTOR_SIZE * (s + 1), at, at + take);
      Copy(fd.buffer, at, take, dataOut, done);
      StoredFromSlice(old(dataOut[..]), dataOut[..], done, fd.buffer[..], at, fd.content, fd.position, take);
    }

    /** Moves the position over `take` bytes that leave some of the sector in the buffer. */
    method StepInside(fd: FileData, take: nat)
      requires fd.Valid(v) && fd.position < |fd.content| && fd.position + take <= fd.EndOf()
      requires take < SECTOR_SIZE - fd.position % SECTOR_SIZE && fd.position + take < |fd.content|
      modifies fd`position
      ensures fd.Valid(v) && fd.position == old(fd.position) + take
    {
      ghost var s := fd.position / SECTOR_SIZE;
      assert fd.SectorOk(v, s);
      fd.position := fd.position + take;
      assert fd.position / SECTOR_SIZE == s;
      forall r ensures fd.SectorOk(v, r) {
      }
    }

    lemma NextMultiple(position: nat)
      ensures var next := position + (SECTOR_SIZE - position % SECTOR_SIZE);
        next % SECTOR_SIZE == 0 && next / SECTOR_SIZE - 1 == position / SECTOR_SIZE
    {
    }

    method UseUp(fd: FileData)
      requires fd.Valid(v) && fd.position < |fd.content|
      requires fd.Unbounded() || fd.position + (SECTOR_SIZE - fd.position % SECTOR_SIZE) <= fd.size
      modifies fd`position
      ensures UsedUp(fd) && old(fd.position) < fd.position <= |fd.content|
      ensures fd.position == old(fd.position) + (SECTOR_SIZE - old(fd.position) % SECTOR_SIZE)
    {
      NextMultiple(fd.position);
      WholeSectors(fd);
      assert fd.SectorOk(v, fd.position / SECTOR_SIZE);
      fd.position := fd.position + (SECTOR_SIZE - fd.position % SECTOR_SIZE);
    }

    /** A file whose size was `size` is as it should be when it has moved on to the next sector. */
    lemma NextIsValid(fd: FileData, size: nat, ended: bool)
      requires v.Valid() && fd.buffer.Length == SECTOR_SIZE && forall s :: fd.SectorOk(v, s)
      requires 0 < fd.position <= |fd.content| && size <= |fd.content|
      requires if fd.isDirectory && size == 0 then |fd.content| < TWO_TO_THE_32 else fd.position <= size
      requires if ended then fd.size == fd.position == |fd.content| else fd.size == size
      requires EndSeen(fd.chain, fd.position == |fd.content|, ended)
      ensures fd.Valid(v) && fd.EndOf() == if fd.isDirectory && size == 0 then |fd.content| else size
    {
    }

    /** Moves the position over the rest of the sector in the buffer, and fetches the next sector. */
    method StepToNext(fd: FileData) returns (ended: bool)
      requires Valid() && fd.Valid(v) && fd.buffer != fat.cache && fd.position < |fd.content|
      requires fd.Unbounded() || fd.position + (SECTOR_SIZE - fd.position % SECTOR_SIZE) <= fd.size
      modifies fd`position, fd`currentSectorInCluster, fd`currentCluster, fd`size, fd`ci, fd.buffer, fat`position, fat.cache
      ensures Valid() && fd.Valid(v) && fd.EndOf() == old(fd.EndOf())
      ensures fd.position == old(fd.position) + (SECTOR_SIZE - old(fd.position) % SECTOR_SIZE)
      ensures ended ==> fd.size == fd.position == |fd.content|
      ensures !ended ==> fd.size == old(fd.size)
    {
      ghost var size := fd.size;
      UseUp(fd);
      ended := NextSector(fd);
      NextIsValid(fd, size, ended);
    }

    /** The step over `take` bytes of the buffer. */
    method StepOver(fd: FileData, take: nat) returns (ended: bool)
      requires Valid() && fd.Valid(v) && fd.buffer != fat.cache && fd.position < |fd.content|
      requires 0 < take <= SECTOR_SIZE - fd.position % SECTOR_SIZE
      requires fd.Unbounded() || fd.position + take <= fd.size
      modifies fd`position, fd`currentSectorInCluster, fd`currentCluster, fd`size, fd`ci, fd.buffer, fat`position, fat.cache
      ensures Valid() && fd.Valid(v) && fd.EndOf() == old(fd.EndOf())
      ensures fd.position == old(fd.position) + take
      ensures ended ==> fd.size == fd.position == |fd.content|
      ensures !ended ==> fd.size == old(fd.size)
    {
      WholeSectors(fd);
      var leftInBuffer := SECTOR_SIZE - fd.position % SECTOR_SIZE;
      if leftInBuffer == take {
        ended := StepToNext(fd);
      } else {
        StepInside(fd, take);
        ended := false;
      }
    }

    /** One iteration of the loop of `FAT_Read`: at most to the end of the sector in the buffer. */
    method TakeSome(fd: FileData, want: nat, dataOut: array<Byte>, done: nat) returns (take: nat, ended: bool)
      requires Valid() && fd.Valid(v) && fd.buffer != fat.cache && dataOut != fd.buffer && dataOut != fat.cache
      requires 0 < want && fd.position < |fd.content| && (fd.Unbounded() || fd.position + want <= fd.size)
      requires done + Min(want, fd.EndOf() - fd.position) <= dataOut.Length
      modifies fd`position, fd`currentSectorInCluster, fd`currentCluster, fd`size, fd`ci, fd.buffer,
               fat`position, fat.cache, dataOut
      ensures Valid() && fd.Valid(v) && fd.EndOf() == old(fd.EndOf())
      ensures 0 < take <= want && fd.position == old(fd.position) + take
      ensures done + take <= dataOut.Length
      ensures Stored(old(dataOut[..]), dataOut[..], done, fd.content, old(fd.position), take)
      ensures ended ==> fd.size == fd.position == |fd.content|
      ensures !ended ==> fd.size == old(fd.size)
    {
      take := Min(want, SECTOR_SIZE - fd.position % SECTOR_SIZE);
      WholeSectors(fd);
      CopyPart(fd, take, dataOut, done);
      ended := StepOver(fd, take);
    }

    /** The chain reaches as far as a read of `byteCount` bytes, or the read stops where the chain ends. */
    ghost predicate Reaches(fd: FileData, byteCount: nat)
      requires v.Valid()
      reads fd
    {
      fd.Unbounded() ==> v.Terminated(fd.chain) || fd.position + byteCount <= |fd.content|
    }

    /**
     `FAT_Read` to `dataOut + at`, on a file other than the root directory: the bytes of the chain from the position
     on, as many as asked for but not past the end. The end is the size or, for a directory without one, the end of a
     terminated chain.
     */
    method Read(fd: FileData, byteCount: Word, dataOut: array<Byte>, at: nat) returns (count: nat)
      requires Valid() && fd.Valid(v) && fd.buffer != fat.cache && dataOut != fd.buffer && dataOut != fat.cache
      requires Reaches(fd, byteCount)
      requires at + Min(byteCount, fd.EndOf() - fd.position) <= dataOut.Length
      modifies fd`position, fd`currentSectorInCluster, fd`currentCluster, fd`size, fd`ci, fd.buffer,
               fat`position, fat.cache, dataOut
      ensures Valid() && fd.Valid(v) && fd.EndOf() == old(fd.EndOf())
      ensures count == Min(byteCount, old(fd.EndOf()) - old(fd.position))
      ensures fd.position == old(fd.position) + count
      ensures fd.Unbounded() ==> old(fd.Unbounded())
      ensures Stored(old(dataOut[..]), dataOut[..], at, fd.content, old(fd.position), count)
    {
      var left: nat := byteCount;
      if !fd.isDirectory || fd.size != 0 {
        left := Min(byteCount, fd.size - fd.position);
      }
      count := 0;
      ghost var p0, end, before, unbounded := fd.position, fd.EndOf(), dataOut[..], fd.Unbounded();
      while left > 0
        invariant Valid() && fd.Valid(v) && fd.EndOf() == end && Reaches(fd, left) && (fd.Unbounded() ==> unbounded)
        invariant fd.position == p0 + count && count <= byteCount
        invariant Stored(before, dataOut[..], at, fd.content, p0, count)
        invariant left == if fd.Unbounded() then byteCount - count else Min(byteCount, end - p0) - count
        decreases left
      {
        ghost var mid := dataOut[..];
        var take, ended := TakeSome(fd, left, dataOut, at + count);
        StoredGrows(before, mid, dataOut[..], at, fd.content, p0, count, take);
        count := count + take;
        left := left - take;
        if ended {
          break;
        }
      }
    }

    /**
     Two reads one after the other do what one read of all their bytes does: the same count, position, bytes stored
     and bytes left alone.
     */
    method ReadTwice(fd: FileData, a: Word, b: Word, dataOut: array<Byte>, at: nat) returns (count: nat)
      requires Valid() && fd.Valid(v) && fd.buffer != fat.cache && dataOut != fd.buffer && dataOut != fat.cache
      requires Reaches(fd, a + b)
      requires at + Min(a + b, fd.EndOf() - fd.position) <= dataOut.Length
      modifies fd`position, fd`currentSectorInCluster, fd`currentCluster, fd`size, fd`ci, fd.buffer,
               fat`position, fat.cache, dataOut
      ensures Valid() && fd.Valid(v) && fd.EndOf() == old(fd.EndOf())
      ensures count == Min(a + b, old(fd.EndOf()) - old(fd.position))
      ensures fd.position == old(fd.position) + count
      ensures fd.Unbounded() ==> old(fd.Unbounded())
      ensures Stored(old(dataOut[..]), dataOut[..], at, fd.content, old(fd.position), count)
    {
      ghost var before, p0 := dataOut[..], fd.position;
      var first := Read(fd, a, dataOut, at);
      ghost var mid := dataOut[..];
      var second := Read(fd, b, dataOut, at + first);
      StoredGrows(before, mid, dataOut[..], at, fd.content, p0, first, second);
      count := first + second;
    }
  }

  /** `now` is `before` with the `n` bytes of `content` from `p` on stored at `at`. */
  ghost predicate Stored(before: seq<Byte>, now: seq<Byte>, at: nat, content: seq<Byte>, p: nat, n: nat) {
    && |now| == |before| && at + n <= |before| && p + n <= |content|
    && forall k :: StoredByte(before, now, at, content, p, n, k)
  }

  ghost predicate StoredByte(before: seq<Byte>, now: seq<Byte>, at: nat, content: seq<Byte>, p: nat, n: nat, k: int)
    requires |now| == |before| && at + n <= |before| && p + n <= |content|
  {
    0 <= k < |now| ==> now[k] == if at <= k < at + n then content[p + (k - at)] else before[k]
  }

  /** What was stored, as sequences. */
  lemma StoredMeans(before: seq<Byte>, now: seq<Byte>, at: nat, content: seq<Byte>, p: nat, n: nat)
    requires Stored(before, now, at, content, p, n)
    ensures now == before[..at] + content[p..p + n] + before[at + n..]
  {
    forall k | 0 <= k < |now| ensures now[k] == (before[..at] + content[p..p + n] + before[at + n..])[k] {
      assert StoredByte(before, now, at, content, p, n, k);
    }
  }

  lemma StoredFromSlice(before: seq<Byte>, now: seq<Byte>, at: nat, buffer: seq<Byte>, from: nat,
                        content: seq<Byte>, p: nat, n: nat)
    requires Stored(before, now, at, buffer, from, n) && p + n <= |content|
    requires content[p..p + n] == buffer[from..from + n]
    ensures Stored(before, now, at, content, p, n)
  {
    forall k ensures StoredByte(before, now, at, content, p, n, k) {
      assert StoredByte(before, now, at, buffer, from, n, k);
      assert at <= k < at + n ==> content[p..p + n][k - at] == buffer[from..from + n][k - at];
    }
  }

  /** Two consecutive parts of `content`, stored one after the other, are one part stored at once. */
  lemma StoredGrows(before: seq<Byte>, mid: seq<Byte>, now: seq<Byte>, at: nat, content: seq<Byte>, p: nat,
                    count: nat, take: nat)
    requires Stored(before, mid, at, content, p, count) && Stored(mid, now, at + count, content, p + count, take)
    ensures Stored(before, now, at, content, p, count + take)
  {
    var n := count + take;
    forall k ensures StoredByte(before, now, at, content, p, n, k) {
      assert StoredByte(before, mid, at, content, p, count, k) && StoredByte(mid, now, at + count, content, p + count, take, k);
    }
  }

  function Min(a: nat, b: nat): nat {
    if a < b then a else b
  }
}
