/**
 The two-level page tables of src/kernel/allocator/paging.c. Memory is an array of 32-bit words;
 a page frame is a number f, covering the words f * 1024 .. f * 1024 + 1023. An entry is read with
 the arithmetic that its masks and shifts amount to.
 */
module Paging {
  import opened Machine

  const ENTRIES: nat := 1024
  const PAGE_SIZE: nat := 4096
  /** The number of page frames, and of pages, in a 32-bit address space. */
  const FRAMES: nat := 0x10_0000

  /** `entry & PAGE_PRESENT`. */
  predicate Present(entry: Word) {
    entry % 2 == 1
  }

  /** `entry & PAGE_WRITE`. */
  predicate Writable(entry: Word) {
    entry % 4 >= 2
  }

  /** The frame in the upper 20 bits. */
  function Frame(entry: Word): nat {
    entry / PAGE_SIZE
  }

  /** `address | PAGE_PRESENT | PAGE_WRITE` for the start address of a frame. */
  function EntryFor(frame: nat): Word
    requires frame < FRAMES
  {
    frame * PAGE_SIZE + 3
  }

  lemma RestOfTwo(e: int, q: int)
    requires e == 2 * q + 1
    ensures e % 2 == 1
  {
  }

  lemma RestOfFour(e: int, q: int)
    requires e == 4 * q + 3
    ensures e % 4 == 3
  {
  }

  lemma RestOfPage(e: int, q: int)
    requires e == 4096 * q + 3
    ensures e / 4096 == q && e % 4096 == 3
  {
  }

  /** It has the address of its frame in the upper bits, bits 0 and 1, and no others. */
  lemma EntryIs(frame: nat)
    requires frame < FRAMES
    ensures EntryFor(frame) % 0x1000 == 3 && EntryFor(frame) - 3 == frame * 0x1000
    ensures Present(EntryFor(frame)) && Writable(EntryFor(frame)) && Frame(EntryFor(frame)) == frame
  {
    RestOfTwo(EntryFor(frame), 2048 * frame + 1);
    RestOfFour(EntryFor(frame), 1024 * frame);
    RestOfPage(EntryFor(frame), frame);
  }

  /** Directory entry `d` of the directory in frame `dir`. */
  function Pde(m: seq<Word>, dir: nat, d: nat): Word
    requires d < ENTRIES && (dir + 1) * ENTRIES <= |m|
  {
    m[dir * ENTRIES + d]
  }

  /**
   The directory and its tables: the tables of the present entries lie in the frames first..next-1,
   no two entries share a table, the directory is not among them, and none of them is read-only.
   */
  ghost predicate WellFormed(m: seq<Word>, dir: nat, first: nat, next: nat) {
    && dir < first <= next <= FRAMES && next * ENTRIES <= |m|
    && (forall d :: 0 <= d < ENTRIES && Present(Pde(m, dir, d)) ==>
        first <= Frame(Pde(m, dir, d)) < next && Writable(Pde(m, dir, d)))
    && (forall d, e :: 0 <= d < e < ENTRIES && Present(Pde(m, dir, d)) && Present(Pde(m, dir, e))
          ==> Frame(Pde(m, dir, d)) != Frame(Pde(m, dir, e)))
  }

  /** Where a page is mapped to, and whether it may be written. */
  datatype Page = Page(frame: nat, write: bool)

  /** What the two-level walk finds for page `q`; None when an entry on the way is not present. */
  function Lookup(m: seq<Word>, dir: nat, first: nat, next: nat, q: nat): (r: Option<Page>)
    requires WellFormed(m, dir, first, next) && q < FRAMES
    ensures r.Some? ==> r.value.frame < FRAMES
  {
    var pde := Pde(m, dir, q / ENTRIES);
    if !Present(pde) then None else
      var pte := m[Frame(pde) * ENTRIES + q % ENTRIES];
      if !Present(pte) then None else Some(Page(Frame(pte), Writable(pde) && Writable(pte)))
  }

  /** A new, cleared table for directory entry `d` changes no translation. */
  lemma NewTableKeeps(m: seq<Word>, m': seq<Word>, dir: nat, first: nat, next: nat, d: nat)
    requires WellFormed(m, dir, first, next) && next < FRAMES && (next + 1) * ENTRIES <= |m| == |m'|
    requires d < ENTRIES && !Present(Pde(m, dir, d))
    requires m'[dir * ENTRIES + d] == EntryFor(next)
    requires forall a :: next * ENTRIES <= a < (next + 1) * ENTRIES ==> m'[a] == 0
    requires forall a :: 0 <= a < |m| && a != dir * ENTRIES + d && !(next * ENTRIES <= a < (next + 1) * ENTRIES)
               ==> m'[a] == m[a]
    ensures WellFormed(m', dir, first, next + 1)
    ensures forall q :: 0 <= q < FRAMES ==> Lookup(m', dir, first, next + 1, q) == Lookup(m, dir, first, next, q)
  {
    EntryIs(next);
    assert forall e :: 0 <= e < ENTRIES ==> Pde(m', dir, e) == if e == d then EntryFor(next) else Pde(m, dir, e);
  }

  /** Storing an entry in the table of a present directory entry changes the translation of its page only. */
  lemma StoreKeeps(m: seq<Word>, m': seq<Word>, dir: nat, first: nat, next: nat, q: nat, frame: nat)
    requires WellFormed(m, dir, first, next) && q < FRAMES && frame < FRAMES
    requires Present(Pde(m, dir, q / ENTRIES))
    requires m' == m[Frame(Pde(m, dir, q / ENTRIES)) * ENTRIES + q % ENTRIES := EntryFor(frame)]
    ensures WellFormed(m', dir, first, next)
    ensures forall r :: 0 <= r < FRAMES ==>
      Lookup(m', dir, first, next, r) == if r == q then Some(Page(frame, true)) else Lookup(m, dir, first, next, r)
  {
    EntryIs(frame);
    assert forall e :: 0 <= e < ENTRIES ==> Pde(m', dir, e) == Pde(m, dir, e);
    forall r | 0 <= r < FRAMES
      ensures Lookup(m', dir, first, next, r) == if r == q then Some(Page(frame, true)) else Lookup(m, dir, first, next, r)
    {
      assert r == r / ENTRIES * ENTRIES + r % ENTRIES && q == q / ENTRIES * ENTRIES + q % ENTRIES;
    }
  }

  /** The address that a virtual address is translated to, and whether it may be written. */
  datatype Place = Place(address: Word, write: bool)

  function Translate(m: seq<Word>, dir: nat, first: nat, next: nat, v: Word): Option<Place>
    requires WellFormed(m, dir, first, next)
  {
    match Lookup(m, dir, first, next, v / PAGE_SIZE)
    case None => None
    case Some(page) => Some(Place(page.frame * PAGE_SIZE + v % PAGE_SIZE, page.write))
  }

  /**
   The translation is the one of the processor: the upper 10 bits of an address choose a directory entry, the next 10
   an entry of the table that it names, and the last 12 a byte; bit 0 of an entry says that it is present, and bit 1
   of both that the page may be written.
   */
  lemma WalkIs(m: seq<Word>, dir: nat, first: nat, next: nat, v: Word)
    requires WellFormed(m, dir, first, next)
    ensures dir * 1024 + v / 0x40_0000 < |m|
    ensures var pde := m[dir * 1024 + v / 0x40_0000];
      if pde % 2 == 0 then Translate(m, dir, first, next, v) == None
      else
        && pde / 0x1000 * 1024 + v / 0x1000 % 0x400 < |m|
        && var pte := m[pde / 0x1000 * 1024 + v / 0x1000 % 0x400];
           Translate(m, dir, first, next, v)
           == if pte % 2 == 0 then None
              else Some(Place(pte / 0x1000 * 0x1000 + v % 0x1000, pde % 4 >= 2 && pte % 4 >= 2))
  {
    var d := v / PAGE_SIZE / ENTRIES;
    assert d == v / 0x40_0000 && d < ENTRIES;
    assert m[dir * 1024 + d] == Pde(m, dir, d);
  }

  /** Iterations of the mapping loop: one for each started page of `size` bytes. */
  function PageCount(size: Word): nat {
    (size + PAGE_SIZE - 1) / PAGE_SIZE
  }

  /** The directory entries that `n` pages from page `p` on fall under. */
  function TablesTouched(p: nat, n: nat): nat {
    if n == 0 then 0 else (p + n - 1) / ENTRIES - p / ENTRIES + 1
  }

  /** The lookup of page `q` once `n` pages from `p` on are mapped to the frames from `f` on. */
  function Mapped(before: Option<Page>, p: nat, f: nat, n: nat, q: nat): Option<Page> {
    if p <= q < p + n then Some(Page((f + (q - p)) % FRAMES, true)) else before
  }

  lemma Remainder(a: int, q: int, r: int)
    requires a == q * TWO_TO_THE_32 + r && 0 <= r < TWO_TO_THE_32
    ensures a % TWO_TO_THE_32 == r
  {
  }

  lemma PageAfter(start: Word, k: nat)
    ensures (start + k * PAGE_SIZE) / PAGE_SIZE == start / PAGE_SIZE + k
    ensures (start + k * PAGE_SIZE) % TWO_TO_THE_32 / PAGE_SIZE == (start / PAGE_SIZE + k) % FRAMES
  {
    var x, r := start / PAGE_SIZE + k, start % PAGE_SIZE;
    var low := x % FRAMES * PAGE_SIZE + r;
    assert start + k * PAGE_SIZE == x * PAGE_SIZE + r == x / FRAMES * TWO_TO_THE_32 + low;
    Remainder(start + k * PAGE_SIZE, x / FRAMES, low);
  }

  /** The counters of the mapping loop before iteration `k`. */
  ghost predicate Counters(virtStart: Word, physStart: Word, size: Word, k: nat, v: Word, p: Word) {
    && v == virtStart + k * PAGE_SIZE
    && p == (physStart + k * PAGE_SIZE) % TWO_TO_THE_32
    && k <= Iterations(virtStart, size)
    && (v < ToWord(virtStart + size) <==> k < Iterations(virtStart, size))
  }

  /** The number of pages mapped: none when the end of the range wraps. */
  function Iterations(virtStart: Word, size: Word): nat {
    if virtStart + size < TWO_TO_THE_32 then PageCount(size) else 0
  }

  /** The page counter never steps over the end of the address space. */
  predicate Ends(virtStart: Word, size: Word) {
    virtStart + Iterations(virtStart, size) * PAGE_SIZE < TWO_TO_THE_32
  }

  /** The page counter after `k` iterations. */
  function CounterAfter(virtStart: Word, k: nat): Word {
    ToWord(virtStart + k * PAGE_SIZE)
  }

  /** It starts at the start of the range and takes steps of one page, in 32 bits. */
  lemma CounterSteps(virtStart: Word, k: nat)
    ensures CounterAfter(virtStart, 0) == virtStart
    ensures CounterAfter(virtStart, k + 1) == ToWord(CounterAfter(virtStart, k) + PAGE_SIZE)
  {
    WrapAfter(virtStart + k * PAGE_SIZE);
  }

  /** Where `Ends` fails, every value that the wrapping counter takes is below the end: the loop goes on for ever. */
  lemma NeverEnds(virtStart: Word, size: Word, k: nat)
    requires !Ends(virtStart, size)
    ensures CounterAfter(virtStart, k) < ToWord(virtStart + size)
  {
    var n, x := PageCount(size), virtStart + k * PAGE_SIZE;
    var j := k - x / TWO_TO_THE_32 * FRAMES;
    assert CounterAfter(virtStart, k) == virtStart + j * PAGE_SIZE;
    assert j < n;
  }

  /** The loop ends exactly if `Ends` holds. */
  lemma EndsExactly(virtStart: Word, size: Word)
    ensures Ends(virtStart, size) <==> exists k: nat :: CounterAfter(virtStart, k) >= ToWord(virtStart + size)
  {
    if Ends(virtStart, size) {
      StillInSpace(virtStart, size, Iterations(virtStart, size));
      NextCounted(virtStart, size, Iterations(virtStart, size));
      assert CounterAfter(virtStart, Iterations(virtStart, size)) >= ToWord(virtStart + size);
    } else {
      forall k: nat ensures CounterAfter(virtStart, k) < ToWord(virtStart + size) {
        NeverEnds(virtStart, size, k);
      }
    }
  }

  /** One such call: 256 bytes from the middle of the last page on. */
  lemma NeverEndsInLastPage(k: nat)
    ensures CounterAfter(0xFFFF_F800, k) < ToWord(0xFFFF_F800 + 0x100)
  {
    NeverEnds(0xFFFF_F800, 0x100, k);
  }

  lemma CountersStart(virtStart: Word, physStart: Word, size: Word)
    ensures Counters(virtStart, physStart, size, 0, virtStart, physStart)
  {
  }

  lemma WrapAfter(a: nat)
    ensures ToWord(a % TWO_TO_THE_32 + PAGE_SIZE) == (a + PAGE_SIZE) % TWO_TO_THE_32
  {
  }

  lemma StillInSpace(virtStart: Word, size: Word, k: nat)
    requires Ends(virtStart, size) && k <= Iterations(virtStart, size)
    ensures virtStart + k * PAGE_SIZE < TWO_TO_THE_32
  {
  }

  lemma CountersStep(virtStart: Word, physStart: Word, size: Word, k: nat, v: Word, p: Word)
    requires Counters(virtStart, physStart, size, k, v, p) && Ends(virtStart, size)
    requires k < Iterations(virtStart, size)
    ensures v / PAGE_SIZE == virtStart / PAGE_SIZE + k < FRAMES
    ensures p / PAGE_SIZE == (physStart / PAGE_SIZE + k) % FRAMES
    ensures Counters(virtStart, physStart, size, k + 1, ToWord(v + PAGE_SIZE), ToWord(p + PAGE_SIZE))
  {
    PageAfter(virtStart, k);
    PageAfter(physStart, k);
    StillInSpace(virtStart, size, k + 1);
    WrapAfter(physStart + k * PAGE_SIZE);
    NextCounted(virtStart, size, k + 1);
  }

  /** The loop's test, after `k` iterations. */
  lemma NextCounted(virtStart: Word, size: Word, k: nat)
    requires k <= Iterations(virtStart, size) && virtStart + k * PAGE_SIZE < TWO_TO_THE_32
    ensures virtStart + k * PAGE_SIZE < ToWord(virtStart + size) <==> k < Iterations(virtStart, size)
  {
  }

  lemma TouchedGrows(p: nat, k: nat)
    ensures TablesTouched(p, k + 1) == TablesTouched(p, k) + if k > 0 && (p + k) / ENTRIES == (p + k - 1) / ENTRIES then 0 else 1
    ensures forall n :: k < n ==> TablesTouched(p, k + 1) <= TablesTouched(p, n)
  {
  }

  /** `m'` is `m` with page `q` mapped to `frame`, and with one table more if there was none for it. */
  ghost predicate MapsPage(m: seq<Word>, next: nat, m': seq<Word>, next': nat, dir: nat, first: nat, q: nat, frame: nat) {
    && WellFormed(m, dir, first, next) && WellFormed(m', dir, first, next') && q < FRAMES
    && Present(Pde(m', dir, q / ENTRIES))
    && next' == next + (if Present(Pde(m, dir, q / ENTRIES)) then 0 else 1)
    && forall r :: 0 <= r < FRAMES ==>
      Lookup(m', dir, first, next', r) == if r == q then Some(Page(frame, true)) else Lookup(m, dir, first, next, r)
  }

  /** `m'` is `m` with the `k` pages from `page` on mapped to the frames from `frame` on. */
  ghost predicate MapsPages(m: seq<Word>, next: nat, m': seq<Word>, next': nat, dir: nat, first: nat,
                            page: nat, frame: nat, k: nat) {
    && WellFormed(m, dir, first, next) && WellFormed(m', dir, first, next') && page + k <= FRAMES
    && next' <= next + TablesTouched(page, k)
    && (k > 0 ==> Present(Pde(m', dir, (page + k - 1) / ENTRIES)))
    && forall q :: 0 <= q < FRAMES ==>
      Lookup(m', dir, first, next', q) == Mapped(Lookup(m, dir, first, next, q), page, frame, k, q)
  }

  /** Mapping needs at most the tables its pages fall under. */
  lemma RoomForNext(m: seq<Word>, next: nat, m': seq<Word>, next': nat, dir: nat, first: nat,
                    page: nat, frame: nat, k: nat, n: nat)
    requires MapsPages(m, next, m', next', dir, first, page, frame, k) && k < n && page + n <= FRAMES
    ensures !Present(Pde(m', dir, (page + k) / ENTRIES)) ==> next' + 1 <= next + TablesTouched(page, n)
  {
    TouchedGrows(page, k);
  }

  lemma MapsOneMore(m: seq<Word>, next: nat, m': seq<Word>, next': nat, m'': seq<Word>, next'': nat,
                    dir: nat, first: nat, page: nat, frame: nat, k: nat)
    requires MapsPages(m, next, m', next', dir, first, page, frame, k)
    requires MapsPage(m', next', m'', next'', dir, first, page + k, (frame + k) % FRAMES)
    ensures MapsPages(m, next, m'', next'', dir, first, page, frame, k + 1)
  {
    TouchedGrows(page, k);
  }

  class AddressSpace {
    const ram: array<Word>
    /** The frame of the page directory and the first frame for page tables. */
    const dir: nat
    const first: nat
    /** The frame `last_page` points to. */
    var next: nat

    ghost predicate Valid()
      reads this, ram
    {
      WellFormed(ram[..], dir, first, next)
    }

    function LookupPage(q: nat): Option<Page>
      requires Valid() && q < FRAMES
      reads this, ram
    {
      Lookup(ram[..], dir, first, next, q)
    }

    /** The directory part of `pagingInit`: no entry is present. */
    constructor (memory: array<Word>)
      requires memory.Length >= 0x405 * ENTRIES
      modifies memory
      ensures Valid() && ram == memory && dir == 0x400 && first == next == 0x404
      ensures forall q :: 0 <= q < FRAMES ==> LookupPage(q) == None
    {
      ram, dir, first, next := memory, 0x400, 0x404, 0x404;
      new;
      for i := 0 to ENTRIES
        modifies ram
        invariant forall a :: dir * ENTRIES <= a < dir * ENTRIES + i ==> ram[a] == 2
      {
        ram[dir * ENTRIES + i] := 2;
      }
    }

    /** `allocPageTable`: takes the next frame and clears it. */
    method AllocPageTable() returns (pt: nat)
      requires (next + 1) * ENTRIES <= ram.Length
      modifies this`next, ram
      ensures pt == old(next) && next == pt + 1
      ensures forall a :: pt * ENTRIES <= a < next * ENTRIES ==> ram[a] == 0
      ensures forall a :: 0 <= a < ram.Length && !(pt * ENTRIES <= a < next * ENTRIES) ==> ram[a] == old(ram[a])
    {
      pt := next;
      next := next + 1;
      for i := 0 to ENTRIES
        modifies ram
        invariant forall a :: pt * ENTRIES <= a < pt * ENTRIES + i ==> ram[a] == 0
        invariant forall a :: 0 <= a < ram.Length && !(pt * ENTRIES <= a < pt * ENTRIES + i) ==> ram[a] == old(ram[a])
      {
        ram[pt * ENTRIES + i] := 0;
      }
    }

    /** Makes sure that directory entry `d` has a table; no translation changes. */
    method EnsureTable(d: nat)
      requires Valid() && d < ENTRIES
      requires !Present(Pde(ram[..], dir, d)) ==> next < FRAMES && (next + 1) * ENTRIES <= ram.Length
      modifies this`next, ram
      ensures Valid() && Present(Pde(ram[..], dir, d))
      ensures next == old(next) + if old(Present(Pde(ram[..], dir, d))) then 0 else 1
      ensures forall e :: 0 <= e < ENTRIES && old(Present(Pde(ram[..], dir, e))) ==> Present(Pde(ram[..], dir, e))
      ensures forall q :: 0 <= q < FRAMES ==>
        Lookup(ram[..], dir, first, next, q) == old(Lookup(ram[..], dir, first, next, q))
    {
      if !Present(ram[dir * ENTRIES + d]) {
        var table := AllocPageTable();
        ram[dir * ENTRIES + d] := EntryFor(table);
        EntryIs(table);
        NewTableKeeps(old(ram[..]), ram[..], dir, first, old(next), d);
      }
    }

    /** One iteration of the mapping loop: page `q` goes to frame `frame`. */
    method MapPage(q: nat, frame: nat)
      requires Valid() && q < FRAMES && frame < FRAMES
      requires !Present(Pde(ram[..], dir, q / ENTRIES)) ==> next < FRAMES && (next + 1) * ENTRIES <= ram.Length
      modifies this`next, ram
      ensures MapsPage(old(ram[..]), old(next), ram[..], next, dir, first, q, frame)
    {
      EnsureTable(q / ENTRIES);
      ghost var before := ram[..];
      ram[Frame(ram[dir * ENTRIES + q / ENTRIES]) * ENTRIES + q % ENTRIES] := EntryFor(frame);
      StoreKeeps(before, ram[..], dir, first, next, q, frame);
    }

    /** The body of the mapping loop, for the iteration after the first `k`. */
    method MapNext(v: Word, p: Word, ghost m0: seq<Word>, ghost next0: nat, ghost page: nat, ghost frame: nat,
                   ghost k: nat, ghost n: nat)
      requires MapsPages(m0, next0, ram[..], next, dir, first, page, frame, k) && k < n && page + n <= FRAMES
      requires v / PAGE_SIZE == page + k && p / PAGE_SIZE == (frame + k) % FRAMES
      requires next0 + TablesTouched(page, n) <= FRAMES && (next0 + TablesTouched(page, n)) * ENTRIES <= ram.Length
      modifies this`next, ram
      ensures MapsPages(m0, next0, ram[..], next, dir, first, page, frame, k + 1)
    {
      RoomForNext(m0, next0, ram[..], next, dir, first, page, frame, k, n);
      MapPage(v / PAGE_SIZE, p / PAGE_SIZE);
      MapsOneMore(m0, next0, old(ram[..]), old(next), ram[..], next, dir, first, page, frame, k);
    }

    /**
     `pagingMapRange`. `Ends` shuts out exactly the calls whose loop never ends (`EndsExactly`): an end below 2^32
     that the page-wise counter steps over. A range whose end wraps maps nothing.
     */
    method MapRange(virtStart: Word, physStart: Word, size: Word)
      requires Valid()
      requires Ends(virtStart, size)
      requires var tables := TablesTouched(virtStart / PAGE_SIZE, Iterations(virtStart, size));
        next + tables <= FRAMES && (next + tables) * ENTRIES <= ram.Length
      modifies this`next, ram
      ensures MapsPages(old(ram[..]), old(next), ram[..], next, dir, first,
                        virtStart / PAGE_SIZE, physStart / PAGE_SIZE, Iterations(virtStart, size))
    {
      var virtEnd := ToWord(virtStart + size);
      var v: Word, p: Word := virtStart, physStart;
      ghost var m0, next0, k, page, frame := ram[..], next, 0, virtStart / PAGE_SIZE, physStart / PAGE_SIZE;
      ghost var n := Iterations(virtStart, size);
      CountersStart(virtStart, physStart, size);
      while v < virtEnd
        invariant Counters(virtStart, physStart, size, k, v, p)
        invariant MapsPages(m0, next0, ram[..], next, dir, first, page, frame, k)
        decreases n - k
      {
        CountersStep(virtStart, physStart, size, k, v, p);
        PagesFit(virtStart, size);
        MapNext(v, p, m0, next0, page, frame, k, n);
        v := ToWord(v + PAGE_SIZE);
        p := ToWord(p + PAGE_SIZE);
        k := k + 1;
      }
    }
  }

  lemma PagesFit(virtStart: Word, size: Word)
    requires Ends(virtStart, size)
    ensures virtStart / PAGE_SIZE + Iterations(virtStart, size) <= FRAMES
  {
  }

  /**
   For a page-aligned range every address of it is translated to its place in the physical range and may be written,
   and every address outside it is as before.
   */
  lemma AlignedRangeTranslates(m: seq<Word>, next: nat, m': seq<Word>, next': nat, dir: nat, first: nat,
                               virtStart: Word, physStart: Word, size: Word, v: Word)
    requires virtStart % PAGE_SIZE == 0 && physStart % PAGE_SIZE == 0 && size % PAGE_SIZE == 0
    requires virtStart + size < TWO_TO_THE_32
    requires MapsPages(m, next, m', next', dir, first,
                       virtStart / PAGE_SIZE, physStart / PAGE_SIZE, Iterations(virtStart, size))
    ensures Translate(m', dir, first, next', v)
         == if virtStart <= v < virtStart + size then Some(Place((physStart + (v - virtStart)) % TWO_TO_THE_32, true))
            else Translate(m, dir, first, next, v)
  {
    var q, p, f := v / PAGE_SIZE, virtStart / PAGE_SIZE, physStart / PAGE_SIZE;
    assert virtStart == p * PAGE_SIZE && physStart == f * PAGE_SIZE && v == q * PAGE_SIZE + v % PAGE_SIZE;
    assert PageCount(size) * PAGE_SIZE == size;
    assert Lookup(m', dir, first, next', q) == Mapped(Lookup(m, dir, first, next, q), p, f, PageCount(size), q);
    if virtStart <= v < virtStart + size {
      var x := f + (q - p);
      var low := x % FRAMES * PAGE_SIZE + v % PAGE_SIZE;
      assert physStart + (v - virtStart) == x * PAGE_SIZE + v % PAGE_SIZE == x / FRAMES * TWO_TO_THE_32 + low;
      Remainder(physStart + (v - virtStart), x / FRAMES, low);
    }
  }

  lemma AlignedRangeEnds(virtStart: Word, size: Word)
    requires virtStart % PAGE_SIZE == 0 && size % PAGE_SIZE == 0
    ensures Ends(virtStart, size)
  {
    assert PageCount(size) * PAGE_SIZE == size;
  }

  /**
   Without alignment, the last started page can be missed: every address of a non-empty range lies in a mapped
   page exactly when the offset of its start and its size together stay within the counted pages.
   */
  lemma WholeRangeMapped(virtStart: Word, size: Word)
    requires size > 0 && virtStart + size < TWO_TO_THE_32
    ensures (forall v: Word :: virtStart <= v < virtStart + size ==>
              InPages(v / PAGE_SIZE, virtStart / PAGE_SIZE, PageCount(size)))
            <==> virtStart % PAGE_SIZE + size <= PageCount(size) * PAGE_SIZE
  {
    var last: Word := virtStart + size - 1;
    assert virtStart == virtStart / PAGE_SIZE * PAGE_SIZE + virtStart % PAGE_SIZE;
    assert last == last / PAGE_SIZE * PAGE_SIZE + last % PAGE_SIZE;
    assert InPages(last / PAGE_SIZE, virtStart / PAGE_SIZE, PageCount(size)) <==>
           virtStart % PAGE_SIZE + size <= PageCount(size) * PAGE_SIZE;
  }

  predicate InPages(q: nat, p: nat, n: nat) {
    p <= q < p + n
  }
}
