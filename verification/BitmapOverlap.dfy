/** What comes of the page records lying over the bitmap in src/kernel/allocator/memory_allocator.c. */
module BitmapOverlap {
  import opened Machine
  import opened AllocatorLayout
  import opened PageAllocator

  /** The layout that the build configuration asks for: 1024 pages. */
  const CONFIGURED_PAGES: nat := 1024

  /** The byte of bit `q` is one of the process number of a page record other than that of page 0. */
  predicate InProcess(l: Layout, q: nat) {
    q / 8 >= l.BitmapBytes() + RECORD && (q / 8 - l.BitmapBytes()) % RECORD >= 8
  }

  lemma LowAndHigh(w: int, low: Byte, high: int)
    requires w == low as int + 0x100 * high && high >= 0
    ensures w % 0x100 == low && w / 0x100 == high
  {
  }

  lemma WordBytesBack(m: Space, a: nat)
    requires a + 4 <= TWO_TO_THE_32
    ensures BytesOf(ReadWord(m, a)) == (m[a], m[a + 1], m[a + 2], m[a + 3])
  {
    var w2: int := m[a + 2] as int + 0x100 * m[a + 3] as int;
    var w1 := m[a + 1] as int + 0x100 * w2;
    LowAndHigh(ReadWord(m, a), m[a], w1);
    LowAndHigh(w1, m[a + 1], w2);
    LowAndHigh(w2, m[a + 2], m[a + 3]);
  }

  /** A byte of a record, by the word that it lies in. */
  lemma ByteOfRecord(l: Layout, m: Space, p: nat, o: nat)
    requires l.Valid() && p < l.n && o < RECORD
    ensures l.RecordAt(p) + o < TWO_TO_THE_32
    ensures var r, b := Record(l, m, p), m[l.RecordAt(p) + o];
      && (r.first == 0 && o < 4 ==> b == 0) && (r.second == 0 && 4 <= o < 8 ==> b == 0)
      && (r.third == 0 && o >= 8 ==> b == 0) && (r.third == NO_PROCESS && o >= 8 ==> b == 0xFF)
  {
    l.InOrder();
    WordBytesBack(m, l.RecordAt(p));
    WordBytesBack(m, l.RecordAt(p) + 4);
    WordBytesBack(m, l.RecordAt(p) + 8);
  }

  /** After `mm_init`, exactly those bits that are not the bitmap's own are set that lie in a process number of -1. */
  lemma InitialBits(l: Layout, m: Space, q: nat)
    requires l.Valid() && Initialized(l, m) && l.OwnBits() <= q < l.n
    ensures Marked(l, m, q) <==> InProcess(l, q)
  {
    l.InOrder();
    var p := SharedRecord(l, q);
    var o := l.ByteOf(q) - l.RecordAt(p);
    assert o == (q / 8 - l.BitmapBytes()) % RECORD;
    ByteOfRecord(l, m, p, o);
    BitOfPlain(8, q % 8);
    assert Power(8) == 0x100;
  }

  /** Bits that are all set, or all clear. */
  lemma {:induction false} CountRun(l: Layout, m: Space, a: nat, b: nat, on: bool)
    requires l.Valid() && a <= b <= l.n && forall q: nat :: a <= q < b ==> Marked(l, m, q) == on
    ensures CountMarked(l, m, b) == CountMarked(l, m, a) + if on then b - a else 0
    decreases b
  {
    if a < b {
      CountRun(l, m, a, b - 1, on);
    }
  }

  lemma {:induction false} CountGrows(l: Layout, m: Space, a: nat, b: nat)
    requires l.Valid() && a <= b <= l.n
    ensures CountMarked(l, m, a) <= CountMarked(l, m, b)
    decreases b
  {
    if a < b {
      CountGrows(l, m, a, b - 1);
    }
  }

  /** Of the bitmap's own bits one is set after `mm_init`. */
  lemma OwnCount(l: Layout, m: Space)
    requires l.Valid() && Initialized(l, m)
    ensures CountMarked(l, m, l.OwnBits()) == 1
  {
    assert CountMarked(l, m, 1) == 1;
    CountRun(l, m, 1, l.OwnBits(), false);
  }

  /** The first process number that is -1 lies behind all bits exactly for at most 216 pages, or for 224. */
  lemma FirstProcessBehind(l: Layout)
    ensures l.n <= 8 * (l.BitmapBytes() + RECORD + 8) <==> l.n <= 216 || l.n == 224
  {
  }

  lemma FirstProcessMarked(l: Layout, m: Space, q: nat)
    requires l.Valid() && Initialized(l, m) && q == 8 * (l.BitmapBytes() + RECORD + 8) < l.n
    ensures CountMarked(l, m, l.n) >= CountMarked(l, m, l.OwnBits()) + 1
  {
    assert q / 8 - l.BitmapBytes() == 20 && InProcess(l, q);
    InitialBits(l, m, q);
    CountGrows(l, m, l.OwnBits(), q);
    CountGrows(l, m, q + 1, l.n);
  }

  /** So the number of set bits is the one that is counted exactly for at most 216 pages, or for 224. */
  lemma CountedExactly(l: Layout, m: Space)
    requires l.Valid() && Initialized(l, m)
    ensures CountMarked(l, m, l.n) == 1 <==> l.n <= 216 || l.n == 224
  {
    OwnCount(l, m);
    FirstProcessBehind(l);
    if l.n <= 8 * (l.BitmapBytes() + RECORD + 8) {
      InitialRun(l, m, l.OwnBits(), l.n, false);
    } else {
      FirstProcessMarked(l, m, 8 * (l.BitmapBytes() + RECORD + 8));
    }
  }

  /** A run of bits that all lie in process numbers of -1, or all do not. */
  lemma InitialRun(l: Layout, m: Space, a: nat, b: nat, on: bool)
    requires l.Valid() && Initialized(l, m) && l.OwnBits() <= a <= b <= l.n
    requires forall q: nat :: a <= q < b ==> InProcess(l, q) == on
    ensures CountMarked(l, m, b) == CountMarked(l, m, a) + if on then b - a else 0
  {
    forall q: nat | a <= q < b ensures Marked(l, m, q) == on {
      InitialBits(l, m, q);
    }
    CountRun(l, m, a, b, on);
  }

  /** Where the process numbers lie for 1024 pages: 32 bits in every 96, from 424 on. */
  lemma ConfiguredProcess(l: Layout, i: nat, o: nat)
    requires l.n == CONFIGURED_PAGES && o < 96
    ensures InProcess(l, 424 + 96 * i + o) <==> o < 32
  {
    var q := 424 + 96 * i + o;
    assert q / 8 == 53 + 12 * i + o / 8 && l.BitmapBytes() == 33;
    assert (q / 8 - 33) % RECORD == (8 + o / 8) % RECORD;
  }

  lemma ConfiguredRuns(l: Layout, i: nat)
    requires l.n == CONFIGURED_PAGES
    ensures forall q: nat :: 424 + 96 * i <= q < 424 + 96 * i + 32 ==> InProcess(l, q)
    ensures forall q: nat :: 424 + 96 * i + 32 <= q < 424 + 96 * i + 96 ==> !InProcess(l, q)
  {
    forall q: nat | 424 + 96 * i <= q < 424 + 96 * i + 96 ensures InProcess(l, q) <==> q < 424 + 96 * i + 32 {
      ConfiguredProcess(l, i, q - (424 + 96 * i));
    }
  }

  /** So many are set below 424 and each 96 bits further. */
  lemma {:induction false} ConfiguredCount(l: Layout, m: Space, i: nat)
    requires l.Valid() && Initialized(l, m) && l.n == CONFIGURED_PAGES && i <= 6
    ensures CountMarked(l, m, 424 + 96 * i) == 1 + 32 * i
  {
    if i == 0 {
      OwnCount(l, m);
      InitialRun(l, m, 264, 424, false);
    } else {
      var a := 424 + 96 * (i - 1);
      ConfiguredCount(l, m, i - 1);
      ConfiguredRuns(l, i - 1);
      InitialRun(l, m, a, a + 32, true);
      InitialRun(l, m, a + 32, a + 96, false);
    }
  }

  /** As configured, 217 bits are set after `mm_init` although one page is counted; bit 424 is the lowest of them all. */
  lemma ConfiguredAfterInit(l: Layout, m: Space)
    requires l.Valid() && Initialized(l, m) && l.n == CONFIGURED_PAGES
    ensures l.OwnBits() == 264 && CountMarked(l, m, l.n) == 217
    ensures Marked(l, m, 424) && forall q: nat :: 0 < q < 424 ==> !Marked(l, m, q)
  {
    ConfiguredCount(l, m, 6);
    ConfiguredRuns(l, 6);
    InitialRun(l, m, 1000, 1024, true);
    forall q: nat | 264 <= q <= 424 ensures Marked(l, m, q) <==> q == 424 {
      InitialBits(l, m, q);
    }
  }

  /** The first block on page 0 marks page 296, whose bit is the lowest of page 0's number of blocks. */
  lemma FirstBlockMarksPage(l: Layout, m: Space, size: Word, data: Word)
    requires l.Valid() && Initialized(l, m) && l.n == CONFIGURED_PAGES
    ensures NewDescriptor(l, m, 0) + DESCRIPTOR <= TWO_TO_THE_32
    ensures !Marked(l, m, 296) && Marked(l, Pushed(l, m, 0, size, data), 296)
  {
    InitialBits(l, m, 296);
    PushedIs(l, m, 0, size, data);
    OneBlockMarks(l, Pushed(l, m, 0, size, data));
  }

  lemma OneBlockMarks(l: Layout, m: Space)
    requires l.Valid() && l.n == CONFIGURED_PAGES && Record(l, m, 0).second == 1
    ensures Marked(l, m, 296)
  {
    l.InOrder();
    WordBytesBack(m, l.RecordAt(0) + 4);
    assert BytesOf(1) == (1, 0, 0, 0) && l.ByteOf(296) == l.RecordAt(0) + 4;
  }

  /** Different bytes in a record are different records. */
  lemma RecordsDiffer(l: Layout, m: Space, m': Space, p: nat, o: nat)
    requires l.Valid() && p < l.n && o < RECORD && l.RecordAt(p) + o < TWO_TO_THE_32
    requires m'[l.RecordAt(p) + o] != m[l.RecordAt(p) + o]
    ensures Record(l, m', p) != Record(l, m, p)
  {
    l.InOrder();
    if o < 4 {
      WordBytesBack(m, l.RecordAt(p));
      WordBytesBack(m', l.RecordAt(p));
    } else if o < 8 {
      WordBytesBack(m, l.RecordAt(p) + 4);
      WordBytesBack(m', l.RecordAt(p) + 4);
    } else {
      WordBytesBack(m, l.RecordAt(p) + 8);
      WordBytesBack(m', l.RecordAt(p) + 8);
    }
  }

  /** Taking a page whose bit is not one of the bitmap's own changes the record of another page. */
  lemma TakenStoresIntoRecord(l: Layout, m: Space, p: nat, process: Word)
    requires l.Valid() && l.OwnBits() <= p < l.n && !Marked(l, m, p)
    ensures SharedRecord(l, p) < p
    ensures Record(l, Taken(l, m, p, process), SharedRecord(l, p)) != Record(l, m, SharedRecord(l, p))
  {
    l.InOrder();
    var r, mid, m' := SharedRecord(l, p), WithMark(l, m, p, true), Taken(l, m, p, process);
    WithMarkIs(l, m, p, true, p);
    WithTripleIs(mid, l.RecordAt(p), Triple(0, 0, process));
    RecordsDiffer(l, m, m', r, l.ByteOf(p) - l.RecordAt(r));
  }

  /** When all of the bitmap's own bits are used up, the next page that `allocate_page` takes is such a one. */
  lemma NextPageStoresIntoRecord(l: Layout, m: Space, lists: seq<seq<Block>>, g: Globals, p: nat)
    requires AllOk(l, m, lists, g) && FirstClear(l, m, 0) == Some(p)
    ensures g.pagesAllocated == l.OwnBits() <==> l.OwnBits() <= p
    ensures l.OwnBits() <= p ==>
      Record(l, Taken(l, m, p, ToWord(g.pageProsses)), SharedRecord(l, p)) != Record(l, m, SharedRecord(l, p))
  {
    OwnBitFound(l, m, lists, g);
    if l.OwnBits() <= p {
      TakenStoresIntoRecord(l, m, p, ToWord(g.pageProsses));
    }
  }

  /** A page whose slots are used up stores its next descriptor over the first one of the page behind it. */
  lemma SlotsRunOut(l: Layout, m: Space, lists: seq<seq<Block>>, p: nat, size: Word, data: Word)
    requires PagesOk(l, m, lists) && p + 1 < l.n && NextSlot(lists[p]) == BLOCK_SPACE
    ensures NewDescriptor(l, m, p) + DESCRIPTOR <= TWO_TO_THE_32
    ensures Descriptor(l, Pushed(l, m, p, size, data), p + 1, 0) == Triple(size, Record(l, m, p).first, data)
  {
    assert PageOk(l, m, lists, p);
    NewDescriptorIs(l, m, lists, p);
    assert NewDescriptor(l, m, p) == l.DescriptorAt(p + 1, 0);
    PushedIs(l, m, p, size, data);
  }
}
