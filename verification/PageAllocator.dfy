/**
 The page allocator of src/kernel/allocator/memory_allocator.c: a bitmap of pages, for every page a linked list of block
 descriptors, and global counters. Bitmap, page records and descriptors are bytes of one memory.
 */
module PageAllocator {
  import opened Machine
  import opened AllocatorLayout

  /** `prosses` of a page that is not in use: -1. */
  const NO_PROCESS: Word := 0xFFFF_FFFF

  /** A block handed out: its descriptor slot within its page, its size, and the address of its data. */
  datatype Block = Block(slot: nat, size: Word, data: Word) {
    function End(): nat { data + size }
  }

  function SumSizes(list: seq<Block>): nat {
    if list == [] then 0 else list[0].size + SumSizes(list[1..])
  }

  /** The sizes of all blocks of the first `n` pages. */
  function Total(lists: seq<seq<Block>>, n: nat): nat
    requires n <= |lists|
  {
    if n == 0 then 0 else Total(lists, n - 1) + SumSizes(lists[n - 1])
  }

  lemma {:induction false} TotalAfterUpdate(lists: seq<seq<Block>>, p: nat, list: seq<Block>, n: nat)
    requires p < |lists| && n <= |lists|
    ensures Total(lists[p := list], n) == Total(lists, n) + if p < n then SumSizes(list) - SumSizes(lists[p]) else 0
  {
    if n > 0 {
      TotalAfterUpdate(lists, p, list, n - 1);
    }
  }

  lemma {:induction false} TotalCovers(lists: seq<seq<Block>>, p: nat, n: nat)
    requires p < n <= |lists|
    ensures SumSizes(lists[p]) <= Total(lists, n)
  {
    if p < n - 1 {
      TotalCovers(lists, p, n - 1);
    }
  }

  lemma {:induction false} SumWithout(list: seq<Block>, i: nat)
    requires i < |list|
    ensures SumSizes(list[..i] + list[i + 1..]) == SumSizes(list) - list[i].size
  {
    if i == 0 {
      assert list[..0] + list[1..] == list[1..];
    } else {
      SumWithout(list[1..], i - 1);
      assert (list[..i] + list[i + 1..])[1..] == list[1..][..i - 1] + list[1..][i..];
    }
  }

  /** The slots strictly decrease along the list, so the slot after the first is used by no block of it. */
  ghost predicate SlotsDecrease(list: seq<Block>) {
    forall i, j :: 0 <= i < j < |list| ==> list[j].slot < list[i].slot
  }

  /** All slots are the page's own. */
  ghost predicate SlotsFit(list: seq<Block>) {
    forall i :: 0 <= i < |list| ==> list[i].slot < BLOCK_SPACE
  }

  lemma {:induction false} ListIsShort(list: seq<Block>)
    requires SlotsDecrease(list) && list != []
    ensures |list| <= list[0].slot + 1
  {
    if |list| > 1 {
      assert forall i, j :: 0 <= i < j < |list[1..]| ==> list[1..][j].slot < list[1..][i].slot;
      ListIsShort(list[1..]);
    }
  }

  /** The pointer to the descriptor of block `i`, NULL behind the last one. */
  function PointerTo(l: Layout, p: nat, list: seq<Block>, i: nat): (w: Word)
    requires l.Valid() && p < l.n && SlotsFit(list)
  {
    if i < |list| then l.DescriptorAt(p, list[i].slot) else 0
  }

  /** Descriptor `i` of the list is in memory. */
  ghost predicate LinkOk(l: Layout, m: Space, p: nat, list: seq<Block>, i: int)
    requires l.Valid() && p < l.n && SlotsFit(list)
  {
    0 <= i < |list| ==>
      Descriptor(l, m, p, list[i].slot) == Triple(list[i].size, PointerTo(l, p, list, i + 1), list[i].data)
  }

  /** Following the pointers from `head` meets exactly the blocks of `list`. */
  ghost predicate Linked(l: Layout, m: Space, p: nat, head: Word, list: seq<Block>)
    requires l.Valid() && p < l.n && SlotsFit(list)
  {
    head == PointerTo(l, p, list, 0) && forall i :: LinkOk(l, m, p, list, i)
  }

  lemma LinkedKept(l: Layout, m: Space, m': Space, p: nat, head: Word, list: seq<Block>)
    requires l.Valid() && p < l.n && SlotsFit(list) && Linked(l, m, p, head, list)
    requires forall s :: DescriptorSame(l, m, m', p, s)
    ensures Linked(l, m', p, head, list)
  {
    forall i ensures LinkOk(l, m', p, list, i) {
      assert LinkOk(l, m, p, list, i);
      if 0 <= i < |list| {
        assert DescriptorSame(l, m, m', p, list[i].slot);
      }
    }
  }

  /** All data regions lie in base..top and no two of them share a byte. */
  ghost predicate Apart(lists: seq<seq<Block>>, base: nat, top: nat) {
    && (forall p, i :: Inside(lists, base, top, p, i))
    && (forall p, i, q, j :: PairApart(lists, p, i, q, j))
  }

  ghost predicate Inside(lists: seq<seq<Block>>, base: nat, top: nat, p: int, i: int) {
    0 <= p < |lists| && 0 <= i < |lists[p]| ==>
      base <= lists[p][i].data && lists[p][i].End() <= top && lists[p][i].size > 0
  }

  ghost predicate PairApart(lists: seq<seq<Block>>, p: int, i: int, q: int, j: int) {
    0 <= p < |lists| && 0 <= i < |lists[p]| && 0 <= q < |lists| && 0 <= j < |lists[q]| && (p != q || i != j) ==>
      lists[p][i].End() <= lists[q][j].data || lists[q][j].End() <= lists[p][i].data
  }

  /** The page is marked in the bitmap's own bits. */
  predicate Owned(l: Layout, m: Space, p: nat)
    requires l.Valid()
  {
    p < l.OwnBits() && Marked(l, m, p)
  }

  /** The page's list is stored in memory, counted, in decreasing slots, and empty unless the page is marked. */
  ghost predicate PageOk(l: Layout, m: Space, lists: seq<seq<Block>>, p: int)
    requires l.Valid() && |lists| == l.n
  {
    0 <= p < l.n ==>
      && SlotsFit(lists[p]) && SlotsDecrease(lists[p])
      && Linked(l, m, p, Record(l, m, p).first, lists[p])
      && Record(l, m, p).second == |lists[p]|
      && (!Owned(l, m, p) ==> lists[p] == [])
  }

  ghost predicate PagesOk(l: Layout, m: Space, lists: seq<seq<Block>>) {
    l.Valid() && |lists| == l.n && forall p :: PageOk(l, m, lists, p)
  }

  /** A page that looks the same is in order if it was. */
  lemma PageKept(l: Layout, m: Space, m': Space, lists: seq<seq<Block>>, lists': seq<seq<Block>>, q: nat)
    requires l.Valid() && |lists| == |lists'| == l.n && q < l.n
    requires PageOk(l, m, lists, q) && PageSame(l, m, m', q) && lists'[q] == lists[q]
    ensures PageOk(l, m', lists', q)
  {
    LinkedKept(l, m, m', q, Record(l, m, q).first, lists[q]);
  }

  /** All pages but page `p` look the same. */
  ghost predicate OthersSame(l: Layout, m: Space, m': Space, p: nat)
    requires l.Valid()
  {
    forall q: nat :: q < l.n && q != p ==> PageSame(l, m, m', q)
  }

  lemma OthersSameTwice(l: Layout, m: Space, m': Space, m'': Space, p: nat)
    requires l.Valid() && OthersSame(l, m, m', p) && OthersSame(l, m', m'', p)
    ensures OthersSame(l, m, m'', p)
  {
    forall q: nat | q < l.n && q != p ensures PageSame(l, m, m'', q) {
      assert PageSame(l, m, m', q) && PageSame(l, m', m'', q);
      forall s ensures DescriptorSame(l, m, m'', q, s) {
        assert DescriptorSame(l, m, m', q, s) && DescriptorSame(l, m', m'', q, s);
      }
    }
  }

  /** A change that only page `p` sees, and that leaves it in order, leaves all pages in order. */
  lemma OnePageChanges(l: Layout, m: Space, m': Space, lists: seq<seq<Block>>, p: nat, list: seq<Block>)
    requires PagesOk(l, m, lists) && p < l.n && OthersSame(l, m, m', p) && PageOk(l, m', lists[p := list], p)
    ensures PagesOk(l, m', lists[p := list])
  {
    var lists' := lists[p := list];
    forall q ensures PageOk(l, m', lists', q) {
      assert PageOk(l, m, lists, q);
      if 0 <= q < l.n && q != p {
        PageKept(l, m, m', lists, lists', q);
      }
    }
  }

  /** What is stored in a page's record is seen by no other page, and by none of the page's descriptors and own bits. */
  lemma RecordStoreSame(l: Layout, m: Space, m': Space, p: nat)
    requires l.Valid() && p < l.n && OnlyIn(m, m', l.RecordAt(p), l.RecordAt(p) + RECORD)
    ensures OthersSame(l, m, m', p) && MarksKept(l, m, m', l.OwnBits(), -1)
    ensures forall s :: DescriptorSame(l, m, m', p, s)
  {
    RecordStore(l, m, m', p, p);
    forall q: nat | q < l.n ensures q != p ==> PageSame(l, m, m', q) {
      RecordStore(l, m, m', p, q);
    }
    forall q: nat | q < l.OwnBits() ensures Marked(l, m', q) == Marked(l, m, q) {
      RecordStore(l, m, m', p, q);
    }
  }

  lemma DescriptorStoreSame(l: Layout, m: Space, m': Space, p: nat, s: nat)
    requires l.Valid() && p < l.n && s < BLOCK_SPACE
    requires OnlyIn(m, m', l.DescriptorAt(p, s), l.DescriptorAt(p, s) + DESCRIPTOR)
    ensures OthersSame(l, m, m', p) && MarksKept(l, m, m', l.OwnBits(), -1)
    ensures Record(l, m', p) == Record(l, m, p)
    ensures forall t :: t != s ==> DescriptorSame(l, m, m', p, t)
  {
    DescriptorStore(l, m, m', p, s, p);
    forall q: nat | q < l.n ensures q != p ==> PageSame(l, m, m', q) {
      DescriptorStore(l, m, m', p, s, q);
    }
    forall q: nat | q < l.OwnBits() ensures Marked(l, m', q) == Marked(l, m, q) {
      DescriptorStore(l, m, m', p, s, q);
    }
  }

  /** Memory after `allocatePageWithIndex` has taken page `p`. */
  function Taken(l: Layout, m: Space, p: nat, process: Word): Space
    requires l.Valid() && p < l.n
  {
    l.InOrder();
    WithTriple(WithMark(l, m, p, true), l.RecordAt(p), Triple(0, 0, process))
  }

  /** Memory after `free_page` of page `p`. */
  function Released(l: Layout, m: Space, p: nat): Space
    requires l.Valid() && p < l.n
  {
    l.InOrder();
    WithWord(WithMark(l, m, p, false), l.RecordAt(p) + 8, NO_PROCESS)
  }

  /** A page that is taken has its record cleared, with the number of pages in use before as its process. */
  lemma TakenIs(l: Layout, m: Space, p: nat, process: Word)
    requires l.Valid() && p < l.n
    ensures Record(l, Taken(l, m, p, process), p) == Triple(0, 0, process)
    ensures p < l.OwnBits() ==> Marked(l, Taken(l, m, p, process), p)
  {
    l.InOrder();
    var mid := WithMark(l, m, p, true);
    WithTripleIs(mid, l.RecordAt(p), Triple(0, 0, process));
    if p < l.OwnBits() {
      MarkAndStoreSame(l, m, Taken(l, m, p, process), p, true);
    }
  }

  /** A page that is released keeps its list and its count, and its process becomes -1. */
  lemma ReleasedIs(l: Layout, m: Space, p: nat)
    requires l.Valid() && p < l.OwnBits()
    ensures Record(l, Released(l, m, p), p) == Triple(Record(l, m, p).first, Record(l, m, p).second, 0xFFFF_FFFF)
    ensures !Marked(l, Released(l, m, p), p)
  {
    l.InOrder();
    var mid, m' := WithMark(l, m, p, false), Released(l, m, p);
    WithWordIs(mid, l.RecordAt(p) + 8, NO_PROCESS);
    WordOfTriple(mid, l.RecordAt(p), NO_PROCESS);
    MarkAndStoreSame(l, m, m', p, false);
  }

  /** Setting or clearing the own bit of a page, and then a store to its record, as all pages see it. */
  lemma MarkAndStoreSame(l: Layout, m: Space, m': Space, p: nat, on: bool)
    requires l.Valid() && p < l.OwnBits()
    requires OnlyIn(WithMark(l, m, p, on), m', l.RecordAt(p), l.RecordAt(p) + RECORD)
    ensures OthersSame(l, m, m', p) && MarksKept(l, m, m', l.OwnBits(), p) && Marked(l, m', p) == on
    ensures forall s :: DescriptorSame(l, m, m', p, s)
    ensures Record(l, WithMark(l, m, p, on), p) == Record(l, m, p)
  {
    var mid := WithMark(l, m, p, on);
    RecordStoreSame(l, mid, m', p);
    OwnBitStore(l, m, p, on, p);
    forall q: nat | q < l.n && q != p ensures PageSame(l, m, mid, q) {
      OwnBitStore(l, m, p, on, q);
    }
    OthersSameTwice(l, m, mid, m', p);
    forall q: nat | q < l.OwnBits() ensures Marked(l, m', q) == if q == p then on else Marked(l, m, q) {
      WithMarkIs(l, m, p, on, q);
    }
    forall s ensures DescriptorSame(l, m, m', p, s) {
      assert DescriptorSame(l, m, mid, p, s) && DescriptorSame(l, mid, m', p, s);
    }
  }

  /** Taking a page by one of the bitmap's own bits marks that page, and keeps all pages in order. */
  lemma TakenKeeps(l: Layout, m: Space, lists: seq<seq<Block>>, p: nat, process: Word)
    requires PagesOk(l, m, lists) && p < l.OwnBits() && !Marked(l, m, p)
    ensures var m' := Taken(l, m, p, process);
      PagesOk(l, m', lists) && MarksKept(l, m, m', l.OwnBits(), p) && Marked(l, m', p)
  {
    l.InOrder();
    var mid, m' := WithMark(l, m, p, true), Taken(l, m, p, process);
    WithTripleIs(mid, l.RecordAt(p), Triple(0, 0, process));
    MarkAndStoreSame(l, m, m', p, true);
    assert PageOk(l, m, lists, p) && lists[p := []] == lists;
    LinkedKept(l, m, m', p, 0, []);
    OnePageChanges(l, m, m', lists, p, []);
  }

  /** Releasing a page without blocks by one of the bitmap's own bits unmarks it, and keeps all pages in order. */
  lemma ReleasedKeeps(l: Layout, m: Space, lists: seq<seq<Block>>, p: nat)
    requires PagesOk(l, m, lists) && p < l.OwnBits() && lists[p] == []
    ensures var m' := Released(l, m, p);
      PagesOk(l, m', lists) && MarksKept(l, m, m', l.OwnBits(), p) && !Marked(l, m', p)
  {
    l.InOrder();
    var mid, m' := WithMark(l, m, p, false), Released(l, m, p);
    WithWordIs(mid, l.RecordAt(p) + 8, NO_PROCESS);
    WordOfTriple(mid, l.RecordAt(p), NO_PROCESS);
    MarkAndStoreSame(l, m, m', p, false);
    assert PageOk(l, m, lists, p) && lists[p := []] == lists;
    LinkedKept(l, m, m', p, 0, []);
    OnePageChanges(l, m, m', lists, p, []);
  }

  /** The place of a new descriptor: the page's first one, or the one behind that of the newest block. */
  function NewDescriptor(l: Layout, m: Space, p: nat): nat
    requires l.Valid() && p < l.n
  {
    if Record(l, m, p).first == 0 then l.DescriptorAt(p, 0) else Record(l, m, p).first + DESCRIPTOR
  }

  /** The stores for a new block: its descriptor, and pointer and count in the page record. */
  function BlockPushed(m: Space, at: Word, d: Triple, record: nat, count: Word): Space
    requires at + DESCRIPTOR <= TWO_TO_THE_32 && record + 8 <= TWO_TO_THE_32
  {
    WithWord(WithWord(WithTriple(m, at, d), record, at), record + 4, ToWord(count + 1))
  }

  /** Memory after `heap_alloc`: the new descriptor, and the page's record that points to it. */
  function Pushed(l: Layout, m: Space, p: nat, size: Word, data: Word): Space
    requires l.Valid() && p < l.n && NewDescriptor(l, m, p) + DESCRIPTOR <= TWO_TO_THE_32
  {
    l.InOrder();
    var at, r := NewDescriptor(l, m, p), Record(l, m, p);
    BlockPushed(m, at, Triple(size, r.first, data), l.RecordAt(p), r.second)
  }

  /** The slot of a new block. */
  function NextSlot(list: seq<Block>): nat {
    if list == [] then 0 else list[0].slot + 1
  }

  /** A new descriptor in a slot above all of the list becomes its first block. */
  lemma PushKeepsLinked(l: Layout, m: Space, m': Space, p: nat, head: Word, list: seq<Block>, b: Block)
    requires l.Valid() && p < l.n && SlotsFit(list) && SlotsDecrease(list) && Linked(l, m, p, head, list)
    requires b.slot == NextSlot(list) < BLOCK_SPACE
    requires forall t :: t != b.slot ==> DescriptorSame(l, m, m', p, t)
    requires Descriptor(l, m', p, b.slot) == Triple(b.size, head, b.data)
    ensures SlotsFit([b] + list) && SlotsDecrease([b] + list)
    ensures Linked(l, m', p, l.DescriptorAt(p, b.slot), [b] + list)
  {
    var list' := [b] + list;
    forall i | 0 <= i < |list| ensures list[i].slot < b.slot {
      assert i == 0 || list[i].slot < list[0].slot;
    }
    forall i ensures LinkOk(l, m', p, list', i) {
      assert LinkOk(l, m, p, list, i - 1);
      if 0 < i < |list'| {
        assert list'[i] == list[i - 1] && DescriptorSame(l, m, m', p, list[i - 1].slot);
      }
    }
  }

  /** Where `heap_alloc` puts its descriptor. */
  lemma NewDescriptorIs(l: Layout, m: Space, lists: seq<seq<Block>>, p: nat)
    requires PagesOk(l, m, lists) && p < l.n && PageOk(l, m, lists, p)
    ensures NextSlot(lists[p]) <= BLOCK_SPACE && NewDescriptor(l, m, p) == l.DescriptorAt(p, NextSlot(lists[p]))
    ensures NewDescriptor(l, m, p) + DESCRIPTOR <= TWO_TO_THE_32
  {
  }

  /** The two stores to the record, which `heap_alloc` makes after those to the descriptor. */
  lemma RecordPushed(l: Layout, m: Space, p: nat, first: Word, second: Word)
    requires l.Valid() && p < l.n
    ensures l.RecordAt(p) + RECORD <= TWO_TO_THE_32
    ensures var m' := WithWord(WithWord(m, l.RecordAt(p), first), l.RecordAt(p) + 4, second);
      && OnlyIn(m, m', l.RecordAt(p), l.RecordAt(p) + RECORD)
      && Record(l, m', p) == Record(l, m, p).(first := first, second := second)
  {
    l.InOrder();
    var at := l.RecordAt(p);
    var mid := WithWord(m, at, first);
    WithWordIs(m, at, first);
    WithWordIs(mid, at + 4, second);
    WordOfTriple(m, at, first);
    WordOfTriple(mid, at, second);
  }

  /** The new descriptor and the record after `heap_alloc`. */
  lemma PushedIs(l: Layout, m: Space, p: nat, size: Word, data: Word)
    requires l.Valid() && p < l.n && l.DescriptorAt(0, 0) <= NewDescriptor(l, m, p) <= TWO_TO_THE_32 - DESCRIPTOR
    ensures var at, r, m' := NewDescriptor(l, m, p), Record(l, m, p), Pushed(l, m, p, size, data);
      && TripleAt(m', at) == Triple(size, r.first, data)
      && Record(l, m', p) == r.(first := at, second := ToWord(r.second + 1))
  {
    l.InOrder();
    var at, r := NewDescriptor(l, m, p), Record(l, m, p);
    var mid := WithTriple(m, at, Triple(size, r.first, data));
    var m' := WithWord(WithWord(mid, l.RecordAt(p), at), l.RecordAt(p) + 4, ToWord(r.second + 1));
    WithTripleIs(m, at, Triple(size, r.first, data));
    TripleKept(m, mid, at, at + DESCRIPTOR, l.RecordAt(p));
    RecordPushed(l, mid, p, at, ToWord(r.second + 1));
    TripleKept(mid, m', l.RecordAt(p), l.RecordAt(p) + RECORD, at);
  }

  /** From `m` to `mid` only descriptors of page `p` have changed, and following the pointers from `first` meets `list`. */
  ghost predicate Prepared(l: Layout, m: Space, mid: Space, p: nat, first: Word, list: seq<Block>) {
    && l.Valid() && p < l.n && OthersSame(l, m, mid, p) && MarksKept(l, m, mid, l.OwnBits(), -1)
    && SlotsFit(list) && SlotsDecrease(list) && Linked(l, mid, p, first, list)
  }

  /** A record that points to a list in memory, and counts it, puts its page in order. */
  lemma RecordFits(l: Layout, m: Space, mid: Space, m': Space, lists: seq<seq<Block>>, p: nat, first: Word, list: seq<Block>)
    requires PagesOk(l, m, lists) && Prepared(l, m, mid, p, first, list)
    requires OnlyIn(mid, m', l.RecordAt(p), l.RecordAt(p) + RECORD)
    requires Record(l, m', p).first == first && Record(l, m', p).second == |list|
    requires Owned(l, m, p) || list == []
    ensures PagesOk(l, m', lists[p := list]) && MarksKept(l, m, m', l.OwnBits(), -1)
  {
    RecordStoreSame(l, mid, m', p);
    LinkedKept(l, mid, m', p, first, list);
    OthersSameTwice(l, m, mid, m', p);
    assert Owned(l, m, p) ==> Marked(l, mid, p) && Marked(l, m', p);
    OnePageChanges(l, m, m', lists, p, list);
  }

  /** The new descriptor is in front of the list; nothing else is seen to change. */
  lemma DescriptorPushed(l: Layout, m: Space, mid: Space, lists: seq<seq<Block>>, p: nat, b: Block)
    requires PagesOk(l, m, lists) && p < l.n && b.slot == NextSlot(lists[p]) < BLOCK_SPACE && PageOk(l, m, lists, p)
    requires var at := l.DescriptorAt(p, b.slot);
      at + DESCRIPTOR <= TWO_TO_THE_32 && mid == WithTriple(m, at, Triple(b.size, Record(l, m, p).first, b.data))
    ensures Record(l, mid, p) == Record(l, m, p)
    ensures Prepared(l, m, mid, p, l.DescriptorAt(p, b.slot), [b] + lists[p])
  {
    WithTripleIs(m, l.DescriptorAt(p, b.slot), Triple(b.size, Record(l, m, p).first, b.data));
    DescriptorStoreSame(l, m, mid, p, b.slot);
    PushKeepsLinked(l, m, mid, p, Record(l, m, p).first, lists[p], b);
  }

  /** A new block on a page of the bitmap's own, in a slot of the page's own, keeps all pages in order. */
  lemma PushedInSteps(l: Layout, m: Space, p: nat, size: Word, data: Word, mid: Space, count: Word)
    requires l.Valid() && p < l.n && NewDescriptor(l, m, p) + DESCRIPTOR <= TWO_TO_THE_32
    requires mid == WithTriple(m, NewDescriptor(l, m, p), Triple(size, Record(l, m, p).first, data))
    requires count == ToWord(Record(l, m, p).second + 1)
    ensures l.RecordAt(p) + RECORD <= TWO_TO_THE_32
    ensures Pushed(l, m, p, size, data)
         == WithWord(WithWord(mid, l.RecordAt(p), NewDescriptor(l, m, p)), l.RecordAt(p) + 4, count)
  {
    l.InOrder();
  }

  lemma PushedKeeps(l: Layout, m: Space, lists: seq<seq<Block>>, p: nat, size: Word, data: Word)
    requires PagesOk(l, m, lists) && p < l.n && Owned(l, m, p) && NextSlot(lists[p]) < BLOCK_SPACE
    ensures NewDescriptor(l, m, p) + DESCRIPTOR <= TWO_TO_THE_32
    ensures var m' := Pushed(l, m, p, size, data);
      PagesOk(l, m', lists[p := [Block(NextSlot(lists[p]), size, data)] + lists[p]]) && MarksKept(l, m, m', l.OwnBits(), -1)
  {
    assert PageOk(l, m, lists, p);
    NewDescriptorIs(l, m, lists, p);
    var at, b := NewDescriptor(l, m, p), Block(NextSlot(lists[p]), size, data);
    var mid := WithTriple(m, at, Triple(size, Record(l, m, p).first, data));
    DescriptorPushed(l, m, mid, lists, p, b);
    CountFits(lists[p]);
    var count: Word := ToWord(Record(l, m, p).second + 1);
    RecordPushed(l, mid, p, at, count);
    var m' := WithWord(WithWord(mid, l.RecordAt(p), at), l.RecordAt(p) + 4, count);
    PushedInSteps(l, m, p, size, data, mid, count);
    RecordFits(l, m, mid, m', lists, p, at, [b] + lists[p]);
  }

  lemma CountFits(list: seq<Block>)
    requires SlotsFit(list) && SlotsDecrease(list)
    ensures |list| <= BLOCK_SPACE && ToWord(|list| + 1) == |list| + 1
  {
    if list != [] {
      ListIsShort(list);
    }
  }

  /** Memory after block `i` is unlinked: the descriptor before it, or the record, skips it, and the record counts it out. */
  function Unlinked(l: Layout, m: Space, p: nat, list: seq<Block>, i: nat): Space
    requires l.Valid() && p < l.n && SlotsFit(list) && i < |list|
  {
    l.InOrder();
    var at := if i == 0 then l.RecordAt(p) else l.DescriptorAt(p, list[i - 1].slot) + 4;
    WithWord(WithWord(m, at, PointerTo(l, p, list, i + 1)), l.RecordAt(p) + 4, ToWord(Record(l, m, p).second - 1))
  }

  /** The list without block `i`. */
  function Without(list: seq<Block>, i: nat): (r: seq<Block>)
    requires i < |list|
    ensures |r| == |list| - 1 && forall k :: 0 <= k < |r| ==> r[k] == list[if k < i then k else k + 1]
  {
    list[..i] + list[i + 1..]
  }

  lemma WithoutKeeps(l: Layout, p: nat, list: seq<Block>, i: nat)
    requires l.Valid() && p < l.n && SlotsFit(list) && SlotsDecrease(list) && i < |list|
    ensures SlotsFit(Without(list, i)) && SlotsDecrease(Without(list, i))
    ensures forall k: nat :: PointerTo(l, p, Without(list, i), k) == PointerTo(l, p, list, if k < i then k else k + 1)
  {
  }

  /** Skipping block `i` leaves the list without it: from the block before, or from the record. */
  lemma SkipKeepsLinked(l: Layout, m: Space, mid: Space, p: nat, head: Word, list: seq<Block>, i: nat)
    requires l.Valid() && p < l.n && SlotsFit(list) && SlotsDecrease(list) && Linked(l, m, p, head, list) && i < |list|
    requires forall t :: i == 0 || t != list[i - 1].slot ==> DescriptorSame(l, m, mid, p, t)
    requires i > 0 ==>
      Descriptor(l, mid, p, list[i - 1].slot) == Descriptor(l, m, p, list[i - 1].slot).(second := PointerTo(l, p, list, i + 1))
    ensures SlotsFit(Without(list, i))
    ensures Linked(l, mid, p, if i == 0 then PointerTo(l, p, list, 1) else head, Without(list, i))
  {
    var rest := Without(list, i);
    WithoutKeeps(l, p, list, i);
    assert PointerTo(l, p, rest, 0) == PointerTo(l, p, list, if i == 0 then 1 else 0);
    forall k ensures LinkOk(l, mid, p, rest, k) {
      if 0 <= k < |rest| {
        var j := if k < i then k else k + 1;
        assert LinkOk(l, m, p, list, j) && rest[k] == list[j];
        assert PointerTo(l, p, rest, k + 1) == PointerTo(l, p, list, if k + 1 < i then k + 1 else k + 2);
        assert i > 0 && j != i - 1 ==> list[j].slot != list[i - 1].slot;
        assert (i == 0 || j != i - 1) ==> DescriptorSame(l, m, mid, p, list[j].slot);
      }
    }
  }

  /** The store of `heap_free` that skips block `i`, if there is a block before it. */
  lemma DescriptorSkipped(l: Layout, m: Space, mid: Space, lists: seq<seq<Block>>, p: nat, i: nat)
    requires PagesOk(l, m, lists) && p < l.n && PageOk(l, m, lists, p) && 0 < i < |lists[p]|
    requires var at := l.DescriptorAt(p, lists[p][i - 1].slot) + 4;
      at + 4 <= TWO_TO_THE_32 && mid == WithWord(m, at, PointerTo(l, p, lists[p], i + 1))
    ensures Record(l, mid, p) == Record(l, m, p)
    ensures Prepared(l, m, mid, p, Record(l, m, p).first, Without(lists[p], i))
  {
    var list := lists[p];
    WithoutKeeps(l, p, list, i);
    var s, at := list[i - 1].slot, l.DescriptorAt(p, list[i - 1].slot);
    WithWordIs(m, at + 4, PointerTo(l, p, list, i + 1));
    WordOfTriple(m, at, PointerTo(l, p, list, i + 1));
    DescriptorStoreSame(l, m, mid, p, s);
    SkipKeepsLinked(l, m, mid, p, Record(l, m, p).first, list, i);
  }

  /** The store to the count. */
  lemma CountStored(l: Layout, m: Space, p: nat, second: Word)
    requires l.Valid() && p < l.n
    ensures l.RecordAt(p) + RECORD <= TWO_TO_THE_32
    ensures var m' := WithWord(m, l.RecordAt(p) + 4, second);
      OnlyIn(m, m', l.RecordAt(p), l.RecordAt(p) + RECORD) && Record(l, m', p) == Record(l, m, p).(second := second)
  {
    l.InOrder();
    WithWordIs(m, l.RecordAt(p) + 4, second);
    WordOfTriple(m, l.RecordAt(p), second);
  }

  /** The count after a block is taken out. */
  lemma OneLess(l: Layout, m: Space, p: nat, list: seq<Block>) returns (count: Word)
    requires l.Valid() && p < l.n && list != [] && Record(l, m, p).second == |list|
    ensures count == ToWord(Record(l, m, p).second - 1) == |list| - 1
  {
    count := |list| - 1;
  }

  /** Before the record is stored, the list behind its first block is in memory already. */
  lemma RecordSkips(l: Layout, m: Space, lists: seq<seq<Block>>, p: nat)
    requires PagesOk(l, m, lists) && p < l.n && PageOk(l, m, lists, p) && lists[p] != []
    ensures Prepared(l, m, m, p, PointerTo(l, p, lists[p], 1), Without(lists[p], 0))
  {
    WithoutKeeps(l, p, lists[p], 0);
    SkipKeepsLinked(l, m, m, p, Record(l, m, p).first, lists[p], 0);
  }

  lemma FirstUnlinkedKeeps(l: Layout, m: Space, lists: seq<seq<Block>>, p: nat)
    requires PagesOk(l, m, lists) && p < l.n && PageOk(l, m, lists, p) && lists[p] != []
    ensures var m' := Unlinked(l, m, p, lists[p], 0);
      PagesOk(l, m', lists[p := Without(lists[p], 0)]) && MarksKept(l, m, m', l.OwnBits(), -1)
  {
    var list, rest, first := lists[p], Without(lists[p], 0), PointerTo(l, p, lists[p], 1);
    var count := OneLess(l, m, p, list);
    RecordSkips(l, m, lists, p);
    RecordPushed(l, m, p, first, count);
    var m' := WithWord(WithWord(m, l.RecordAt(p), first), l.RecordAt(p) + 4, count);
    RecordFits(l, m, m, m', lists, p, first, rest);
  }

  lemma LaterUnlinkedKeeps(l: Layout, m: Space, lists: seq<seq<Block>>, p: nat, i: nat)
    requires PagesOk(l, m, lists) && p < l.n && PageOk(l, m, lists, p) && 0 < i < |lists[p]|
    ensures var m' := Unlinked(l, m, p, lists[p], i);
      PagesOk(l, m', lists[p := Without(lists[p], i)]) && MarksKept(l, m, m', l.OwnBits(), -1)
  {
    var list, rest := lists[p], Without(lists[p], i);
    var mid := WithWord(m, l.DescriptorAt(p, list[i - 1].slot) + 4, PointerTo(l, p, list, i + 1));
    var count := OneLess(l, m, p, list);
    DescriptorSkipped(l, m, mid, lists, p, i);
    CountStored(l, mid, p, count);
    var m' := WithWord(mid, l.RecordAt(p) + 4, count);
    RecordFits(l, m, mid, m', lists, p, Record(l, m, p).first, rest);
    LaterUnlinkedIs(l, m, p, list, i, count);
  }

  /** The two stores that take a later block out of the list. */
  lemma LaterUnlinkedIs(l: Layout, m: Space, p: nat, list: seq<Block>, i: nat, count: Word)
    requires l.Valid() && p < l.n && SlotsFit(list) && 0 < i < |list| && count == ToWord(Record(l, m, p).second - 1)
    ensures l.RecordAt(p) + RECORD <= TWO_TO_THE_32
    ensures var mid := WithWord(m, l.DescriptorAt(p, list[i - 1].slot) + 4, PointerTo(l, p, list, i + 1));
      Unlinked(l, m, p, list, i) == WithWord(mid, l.RecordAt(p) + 4, count)
  {
    l.InOrder();
  }

  /** Taking block `i` out of the list of page `p` keeps all pages in order. */
  lemma UnlinkedKeeps(l: Layout, m: Space, lists: seq<seq<Block>>, p: nat, i: nat)
    requires PagesOk(l, m, lists) && p < l.n && i < |lists[p]| && SlotsFit(lists[p])
    ensures var m' := Unlinked(l, m, p, lists[p], i);
      PagesOk(l, m', lists[p := Without(lists[p], i)]) && MarksKept(l, m, m', l.OwnBits(), -1)
  {
    assert PageOk(l, m, lists, p);
    if i == 0 {
      FirstUnlinkedKeeps(l, m, lists, p);
    } else {
      LaterUnlinkedKeeps(l, m, lists, p, i);
    }
  }

  lemma PushKeepsApart(lists: seq<seq<Block>>, p: nat, b: Block, base: nat, top: nat)
    requires Apart(lists, base, top) && p < |lists| && b.data == top && b.size > 0 && base <= top
    ensures Apart(lists[p := [b] + lists[p]], base, b.End())
  {
    var lists' := lists[p := [b] + lists[p]];
    forall q, i ensures Inside(lists', base, b.End(), q, i) {
      assert Inside(lists, base, top, q, if q == p then i - 1 else i);
    }
    forall q, i, r, j ensures PairApart(lists', q, i, r, j) {
      var i', j' := if q == p then i - 1 else i, if r == p then j - 1 else j;
      assert PairApart(lists, q, i', r, j') && Inside(lists, base, top, q, i') && Inside(lists, base, top, r, j');
    }
  }

  lemma RemoveKeepsApart(lists: seq<seq<Block>>, p: nat, i: nat, base: nat, top: nat)
    requires Apart(lists, base, top) && p < |lists| && i < |lists[p]|
    ensures Apart(lists[p := Without(lists[p], i)], base, top)
  {
    var lists' := lists[p := Without(lists[p], i)];
    forall q, k ensures Inside(lists', base, top, q, k) {
      assert Inside(lists, base, top, q, if q == p && k >= i then k + 1 else k);
    }
    forall q, k, r, j ensures PairApart(lists', q, k, r, j) {
      assert PairApart(lists, q, if q == p && k >= i then k + 1 else k, r, if r == p && j >= i then j + 1 else j);
    }
  }

  /** The position of the block whose data starts at `ptr`. */
  function IndexOfData(list: seq<Block>, ptr: nat): (r: Option<nat>)
    ensures r.Some? ==> r.value < |list| && list[r.value].data == ptr
    ensures r.None? ==> forall i :: 0 <= i < |list| ==> list[i].data != ptr
  {
    if list == [] then None
    else if list[0].data == ptr then Some(0)
    else match IndexOfData(list[1..], ptr) case None => None case Some(i) => Some(i + 1)
  }

  lemma {:induction false} IndexOfDataIs(list: seq<Block>, ptr: nat, k: nat)
    requires k <= |list| && (forall i :: 0 <= i < k ==> list[i].data != ptr)
    requires k < |list| ==> list[k].data == ptr
    ensures IndexOfData(list, ptr) == if k < |list| then Some(k) else None
  {
    if k > 0 { IndexOfDataIs(list[1..], ptr, k - 1); }
  }

  /** The lists after `heap_free`: without the first block whose data starts at `ptr`. */
  function Freed(lists: seq<seq<Block>>, p: nat, ptr: nat): seq<seq<Block>>
    requires p < |lists|
  {
    match IndexOfData(lists[p], ptr)
    case None => lists
    case Some(i) => lists[p := Without(lists[p], i)]
  }

  lemma NothingAtNull(lists: seq<seq<Block>>, base: nat, top: nat, p: nat)
    requires Apart(lists, base, top) && base > 0 && p < |lists|
    ensures IndexOfData(lists[p], 0) == None
  {
    forall i | 0 <= i < |lists[p]| ensures lists[p][i].data != 0 {
      assert Inside(lists, base, top, p, i);
    }
  }

  /** `heap_free` frees page `q`: its last block is gone, and it is not page 0. */
  predicate LosesPage(page: Option<nat>, q: nat, before: seq<seq<Block>>, after: seq<seq<Block>>)
    requires q < |before| && q < |after|
  {
    page == Some(q) && q != 0 && after[q] == [] && before[q] != []
  }

  /** The global variables. */
  datatype Globals = Globals(heapStart: Word, memoryAllocated: Word, pagesAllocated: Word, pageProsses: int)

  /** The blocks in use have `total` bytes, which are counted, and fit the part of the heap that has been used. */
  predicate SpaceOk(base: nat, total: nat, g: Globals) {
    base <= g.heapStart && g.memoryAllocated == total <= g.heapStart - base
  }

  lemma SpaceTakenOk(base: nat, total: nat, g: Globals, size: Word)
    requires SpaceOk(base, total, g) && g.heapStart + size < TWO_TO_THE_32
    ensures SpaceOk(base, total + size, SpaceTaken(g, size)) && SpaceTaken(g, size).heapStart == g.heapStart + size
  {
  }

  lemma SpaceReturnedOk(base: nat, total: nat, g: Globals, size: Word)
    requires SpaceOk(base, total, g) && size <= total
    ensures SpaceOk(base, total - size, SpaceReturned(g, size))
  {
  }

  /**
   The pages are in order, the counters agree with the lists and with the bitmap's own bits, and all data lies apart in
   the part of the heap that has been used.
   */
  ghost predicate AllOk(l: Layout, m: Space, lists: seq<seq<Block>>, g: Globals) {
    && PagesOk(l, m, lists)
    && SpaceOk(l.HeapBase(), Total(lists, l.n), g)
    && g.pagesAllocated == g.pageProsses == CountMarked(l, m, l.OwnBits())
    && Apart(lists, l.HeapBase(), g.heapStart)
  }

  function PageTaken(g: Globals): Globals {
    g.(pagesAllocated := ToWord(g.pagesAllocated + 1), pageProsses := g.pageProsses + 1)
  }

  function PageReleased(g: Globals): Globals {
    g.(pagesAllocated := ToWord(g.pagesAllocated - 1), pageProsses := g.pageProsses - 1)
  }

  /** Pages in order, and lists that fit the counters and lie apart, are all that is to be kept. */
  lemma AllOkAfter(l: Layout, m: Space, m': Space, lists: seq<seq<Block>>, lists': seq<seq<Block>>, g: Globals, g': Globals)
    requires AllOk(l, m, lists, g) && PagesOk(l, m', lists') && MarksKept(l, m, m', l.OwnBits(), -1)
    requires g'.pagesAllocated == g.pagesAllocated && g'.pageProsses == g.pageProsses
    requires Apart(lists', l.HeapBase(), g'.heapStart) && SpaceOk(l.HeapBase(), Total(lists', l.n), g')
    ensures AllOk(l, m', lists', g')
  {
    CountAfterFlip(l, m, m', -1, l.OwnBits());
  }

  lemma PageCounted(g: Globals, g': Globals, c: nat, c': nat, on: bool)
    requires g.pagesAllocated == g.pageProsses == c && c' < TWO_TO_THE_32 && c' == if on then c + 1 else c - 1
    requires g' == if on then PageTaken(g) else PageReleased(g)
    ensures g'.pagesAllocated == g'.pageProsses == c'
    ensures g'.heapStart == g.heapStart && g'.memoryAllocated == g.memoryAllocated
  {
  }

  /** The same where the mark of page `p` has been set or cleared. */
  lemma AllOkAfterMark(l: Layout, m: Space, m': Space, lists: seq<seq<Block>>, g: Globals, g': Globals, p: nat)
    requires AllOk(l, m, lists, g) && PagesOk(l, m', lists) && MarksKept(l, m, m', l.OwnBits(), p)
    requires p < l.OwnBits() && Marked(l, m', p) != Marked(l, m, p)
    requires g' == if Marked(l, m', p) then PageTaken(g) else PageReleased(g)
    ensures AllOk(l, m', lists, g')
  {
    CountAfterFlip(l, m, m', p, l.OwnBits());
    PageCounted(g, g', CountMarked(l, m, l.OwnBits()), CountMarked(l, m', l.OwnBits()), Marked(l, m', p));
  }

  lemma TakenAllOk(l: Layout, m: Space, lists: seq<seq<Block>>, g: Globals, p: nat)
    requires AllOk(l, m, lists, g) && p < l.OwnBits() && !Marked(l, m, p)
    ensures AllOk(l, Taken(l, m, p, ToWord(g.pageProsses)), lists, PageTaken(g))
  {
    TakenKeeps(l, m, lists, p, ToWord(g.pageProsses));
    AllOkAfterMark(l, m, Taken(l, m, p, ToWord(g.pageProsses)), lists, g, PageTaken(g), p);
  }

  lemma ReleasedAllOk(l: Layout, m: Space, lists: seq<seq<Block>>, g: Globals, p: nat)
    requires AllOk(l, m, lists, g) && Owned(l, m, p) && lists[p] == []
    ensures AllOk(l, Released(l, m, p), lists, PageReleased(g))
  {
    ReleasedKeeps(l, m, lists, p);
    AllOkAfterMark(l, m, Released(l, m, p), lists, g, PageReleased(g), p);
  }

  /** What `heap_alloc` needs: a page marked by one of the bitmap's own bits, a slot of its own, and room behind the heap. */
  ghost predicate HasRoom(l: Layout, m: Space, lists: seq<seq<Block>>, g: Globals, p: nat, size: Word)
    requires l.Valid() && |lists| == l.n && p < l.n
  {
    Owned(l, m, p) && NextSlot(lists[p]) < BLOCK_SPACE && g.heapStart + size < TWO_TO_THE_32
  }

  function SpaceTaken(g: Globals, size: Word): Globals {
    g.(heapStart := ToWord(g.heapStart + size), memoryAllocated := ToWord(g.memoryAllocated + size))
  }

  function SpaceReturned(g: Globals, size: Word): Globals {
    g.(memoryAllocated := ToWord(g.memoryAllocated - size))
  }

  lemma PushedAllOk(l: Layout, m: Space, lists: seq<seq<Block>>, g: Globals, p: nat, size: Word)
    requires AllOk(l, m, lists, g) && p < l.n && size > 0 && HasRoom(l, m, lists, g, p, size)
    ensures NewDescriptor(l, m, p) + DESCRIPTOR <= TWO_TO_THE_32
    ensures AllOk(l, Pushed(l, m, p, size, g.heapStart),
                  lists[p := [Block(NextSlot(lists[p]), size, g.heapStart)] + lists[p]], SpaceTaken(g, size))
  {
    var b := Block(NextSlot(lists[p]), size, g.heapStart);
    PushedKeeps(l, m, lists, p, size, g.heapStart);
    PushKeepsApart(lists, p, b, l.HeapBase(), g.heapStart);
    TotalAfterUpdate(lists, p, [b] + lists[p], l.n);
    SpaceTakenOk(l.HeapBase(), Total(lists, l.n), g, size);
    assert b.End() == SpaceTaken(g, size).heapStart;
    AllOkAfter(l, m, Pushed(l, m, p, size, g.heapStart), lists, lists[p := [b] + lists[p]], g, SpaceTaken(g, size));
  }

  lemma UnlinkKeepsMarks(l: Layout, m: Space, lists: seq<seq<Block>>, p: nat, i: nat)
    requires PagesOk(l, m, lists) && p < l.n && i < |lists[p]| && SlotsFit(lists[p])
    ensures Owned(l, Unlinked(l, m, p, lists[p], i), p)
    ensures MarksKept(l, m, Unlinked(l, m, p, lists[p], i), l.OwnBits(), -1)
  {
    assert PageOk(l, m, lists, p);
    UnlinkedKeeps(l, m, lists, p, i);
  }

  /** What `heap_free` reads of the descriptor, and where it stores. */
  lemma UnlinkReads(l: Layout, m: Space, lists: seq<seq<Block>>, p: nat, i: nat, current: Word, prev: Word)
    requires PagesOk(l, m, lists) && p < l.n && i < |lists[p]| && SlotsFit(lists[p])
    requires current == PointerTo(l, p, lists[p], i) && prev == if i == 0 then 0 else PointerTo(l, p, lists[p], i - 1)
    ensures BlockRead(l, m, p, lists[p], i, current, prev)
  {
    assert PageOk(l, m, lists, p) && LinkOk(l, m, p, lists[p], i);
  }

  /** `current` and `prev` point to the descriptor of block `i`, and to the one before it if there is one. */
  ghost predicate BlockRead(l: Layout, m: Space, p: nat, list: seq<Block>, i: nat, current: Word, prev: Word)
    requires l.Valid() && p < l.n && i < |list| && SlotsFit(list)
  {
    && current + DESCRIPTOR <= TWO_TO_THE_32 && prev + DESCRIPTOR <= TWO_TO_THE_32
    && ReadWord(m, current) == list[i].size && ReadWord(m, current + 4) == PointerTo(l, p, list, i + 1)
    && (prev == 0 <==> i == 0)
    && (prev != 0 ==> l.DescriptorAt(0, 0) <= prev == l.DescriptorAt(p, list[i - 1].slot))
  }

  lemma UnlinkedAllOk(l: Layout, m: Space, lists: seq<seq<Block>>, g: Globals, p: nat, i: nat)
    requires AllOk(l, m, lists, g) && p < l.n && i < |lists[p]|
    ensures SlotsFit(lists[p])
    ensures AllOk(l, Unlinked(l, m, p, lists[p], i), lists[p := Without(lists[p], i)], SpaceReturned(g, lists[p][i].size))
  {
    assert PageOk(l, m, lists, p);
    UnlinkedKeeps(l, m, lists, p, i);
    SumWithout(lists[p], i);
    TotalAfterUpdate(lists, p, Without(lists[p], i), l.n);
    RemoveKeepsApart(lists, p, i, l.HeapBase(), g.heapStart);
    TotalCovers(lists, p, l.n);
    SpaceReturnedOk(l.HeapBase(), Total(lists, l.n), g, lists[p][i].size);
    AllOkAfter(l, m, Unlinked(l, m, p, lists[p], i), lists, lists[p := Without(lists[p], i)], g,
               SpaceReturned(g, lists[p][i].size));
  }

  /** While one of the bitmap's own bits is clear, `allocate_page` finds one of these. */
  lemma OwnBitFound(l: Layout, m: Space, lists: seq<seq<Block>>, g: Globals)
    requires AllOk(l, m, lists, g)
    ensures g.pagesAllocated < l.OwnBits() <==> FirstClear(l, m, 0).Some? && FirstClear(l, m, 0).value < l.OwnBits()
  {
    if g.pagesAllocated < l.OwnBits() {
      var q := SomeClear(l, m, l.OwnBits());
    } else if FirstClear(l, m, 0).Some? && FirstClear(l, m, 0).value < l.OwnBits() {
      AllMarked(l, m, l.OwnBits(), FirstClear(l, m, 0).value);
    }
  }

  /** Address `at` lies in the descriptor of a block in use. */
  ghost predicate HitsDescriptor(l: Layout, lists: seq<seq<Block>>, at: nat)
    requires l.Valid() && |lists| == l.n
  {
    exists p: nat, i: nat :: HitsDescriptorOf(l, lists, p, i, at)
  }

  ghost predicate HitsDescriptorOf(l: Layout, lists: seq<seq<Block>>, p: nat, i: nat, at: nat)
    requires l.Valid() && |lists| == l.n
  {
    p < l.n && i < |lists[p]| && l.DescriptorAt(p, lists[p][i].slot) <= at < l.DescriptorAt(p, lists[p][i].slot) + DESCRIPTOR
  }

  /** A client's store to the heap, but to no descriptor of a block in use, keeps all in order. */
  lemma ClientStoreAllOk(l: Layout, m: Space, lists: seq<seq<Block>>, g: Globals, at: nat, value: Byte)
    requires AllOk(l, m, lists, g) && l.HeapBase() <= at < TWO_TO_THE_32 && !HitsDescriptor(l, lists, at)
    ensures AllOk(l, m[at := value], lists, g)
  {
    l.InOrder();
    var m' := m[at := value];
    forall p ensures PageOk(l, m', lists, p) {
      assert PageOk(l, m, lists, p);
      if 0 <= p < l.n {
        TripleKept(m, m', at, at + 1, l.RecordAt(p));
        UsedDescriptorsKept(l, m, m', lists, p, at);
      }
    }
    AllOkAfter(l, m, m', lists, lists, g, g);
  }

  lemma UsedDescriptorsKept(l: Layout, m: Space, m': Space, lists: seq<seq<Block>>, p: nat, at: nat)
    requires l.Valid() && |lists| == l.n && p < l.n && SlotsFit(lists[p])
    requires OnlyIn(m, m', at, at + 1) && !HitsDescriptor(l, lists, at)
    requires Linked(l, m, p, Record(l, m, p).first, lists[p])
    ensures Linked(l, m', p, Record(l, m, p).first, lists[p])
  {
    var list := lists[p];
    forall i ensures LinkOk(l, m', p, list, i) {
      assert LinkOk(l, m, p, list, i);
      if 0 <= i < |list| {
        assert !HitsDescriptorOf(l, lists, p, i, at);
        TripleKept(m, m', at, at + 1, l.DescriptorAt(p, list[i].slot));
      }
    }
  }

  /** The descriptors of page `p` lie below the heap exactly for the first twelfth of the pages. */
  lemma DescriptorsBelowHeapExactly(l: Layout, p: nat)
    requires l.Valid() && p < l.n
    ensures l.DescriptorAt(p, BLOCK_SPACE) <= l.HeapBase() <==> 12 * (p + 2) <= l.n + 1
  {
  }

  /** If only such pages have blocks, no client's store can hit a descriptor. */
  lemma LowPagesAreSafe(l: Layout, m: Space, lists: seq<seq<Block>>, at: nat)
    requires PagesOk(l, m, lists) && l.HeapBase() <= at
    requires forall p :: 0 <= p < l.n && lists[p] != [] ==> 12 * (p + 2) <= l.n + 1
    ensures !HitsDescriptor(l, lists, at)
  {
    forall p: nat, i: nat ensures !HitsDescriptorOf(l, lists, p, i, at) {
      if p < l.n && i < |lists[p]| {
        assert PageOk(l, m, lists, p);
        DescriptorsBelowHeapExactly(l, p);
      }
    }
  }

  /** The bitmap's own bytes are 0, and the first `k` records are those of pages not in use. */
  ghost predicate ClearedTo(l: Layout, m: Space, k: nat)
    requires l.Valid() && k <= l.n
  {
    && (forall a :: l.Bitmap() <= a < l.RecordAt(0) && a < TWO_TO_THE_32 ==> m[a] == 0)
    && forall p: nat :: p < k ==> Record(l, m, p) == Triple(0, 0, NO_PROCESS)
  }

  ghost predicate Cleared(l: Layout, m: Space)
    requires l.Valid()
  {
    ClearedTo(l, m, l.n)
  }

  lemma ClearedNext(l: Layout, m: Space, k: nat)
    requires l.Valid() && k < l.n && ClearedTo(l, m, k)
    ensures l.RecordAt(k) + RECORD <= TWO_TO_THE_32
    ensures ClearedTo(l, WithTriple(m, l.RecordAt(k), Triple(0, 0, NO_PROCESS)), k + 1)
  {
    l.InOrder();
    var m' := WithTriple(m, l.RecordAt(k), Triple(0, 0, NO_PROCESS));
    WithTripleIs(m, l.RecordAt(k), Triple(0, 0, NO_PROCESS));
    forall p: nat | p < k ensures Record(l, m', p) == Record(l, m, p) {
      TripleKept(m, m', l.RecordAt(k), l.RecordAt(k) + RECORD, l.RecordAt(p));
    }
  }

  /** The state before the first page is taken is in order. */
  lemma ClearedAllOk(l: Layout, m: Space, lists: seq<seq<Block>>, g: Globals)
    requires l.Valid() && Cleared(l, m) && |lists| == l.n && forall p :: 0 <= p < l.n ==> lists[p] == []
    requires g == Globals(l.HeapBase(), 0, 0, 0)
    ensures AllOk(l, m, lists, g) && forall q: nat :: q < l.OwnBits() ==> !Marked(l, m, q)
  {
    forall q: nat | q < l.OwnBits() ensures !Marked(l, m, q) {
      l.InOrder();
      BitOfPlain(8, q % 8);
    }
    NothingYet(l, m, l.OwnBits());
    NoTotal(lists, l.n);
    forall p ensures PageOk(l, m, lists, p) {
    }
  }

  lemma {:induction false} NothingYet(l: Layout, m: Space, k: nat)
    requires l.Valid() && k <= l.n && forall q: nat :: q < k ==> !Marked(l, m, q)
    ensures CountMarked(l, m, k) == 0
  {
    if k > 0 {
      NothingYet(l, m, k - 1);
    }
  }

  lemma {:induction false} NoTotal(lists: seq<seq<Block>>, k: nat)
    requires k <= |lists| && forall p :: 0 <= p < k ==> lists[p] == []
    ensures Total(lists, k) == 0
  {
    if k > 0 {
      NoTotal(lists, k - 1);
    }
  }

  /** The state after `mm_init`. */
  ghost predicate Initialized(l: Layout, m: Space)
    requires l.Valid()
  {
    && (forall p: nat :: p < l.n ==> Record(l, m, p) == Triple(0, 0, if p == 0 then 0 else NO_PROCESS))
    && (forall q: nat :: q < l.OwnBits() ==> (Marked(l, m, q) <==> q == 0))
  }

  lemma FirstTaken(l: Layout, m: Space)
    requires l.Valid() && Cleared(l, m) && forall q: nat :: q < l.OwnBits() ==> !Marked(l, m, q)
    ensures Initialized(l, Taken(l, m, 0, 0))
  {
    l.InOrder();
    var mid, m' := WithMark(l, m, 0, true), Taken(l, m, 0, 0);
    WithTripleIs(mid, l.RecordAt(0), Triple(0, 0, 0));
    MarkAndStoreSame(l, m, m', 0, true);
    forall p: nat | p < l.n && p != 0 ensures Record(l, m', p) == Triple(0, 0, NO_PROCESS) {
      assert PageSame(l, m, m', p);
    }
  }

  class Allocator {
    const l: Layout
    const mem: array<Byte>
    var heapStart: Word
    var memoryAllocated: Word
    var pagesAllocated: Word
    var pageProsses: int
    /** The blocks of every page, in list order. */
    ghost var lists: seq<seq<Block>>

    ghost predicate Sized() { l.Valid() && mem.Length == TWO_TO_THE_32 }

    function Counters(): Globals
      reads this
    {
      Globals(heapStart, memoryAllocated, pagesAllocated, pageProsses)
    }

    ghost predicate Valid()
      reads this, mem
    {
      Sized() && AllOk(l, mem[..], lists, Counters())
    }

    /** `mm_init`: no block, and no page marked in the bitmap's own bits but page 0. */
    constructor (pages: nat, end: nat, memory: array<Byte>)
      requires Layout(pages, end).Valid() && memory.Length == TWO_TO_THE_32
      modifies memory
      ensures l == Layout(pages, end) && mem == memory && heapStart == l.HeapBase()
      ensures Valid() && Initialized(l, mem[..]) && pagesAllocated == 1
      ensures forall p :: 0 <= p < pages ==> lists[p] == []
    {
      l, mem := Layout(pages, end), memory;
      heapStart := Layout(pages, end).HeapBase();
      memoryAllocated, pagesAllocated, pageProsses := 0, 0, 0;
      lists := seq(pages, _ => []);
      new;
      ClearBitmap();
      ClearRecords();
      ClearedAllOk(l, mem[..], lists, Counters());
      ghost var m: Space := mem[..];
      var ok := AllocatePageWithIndex(0);
      FirstTaken(l, m);
    }

    /** `memset` of the bytes set aside for the bitmap. */
    method ClearBitmap()
      requires Sized()
      modifies mem
      ensures forall a :: l.Bitmap() <= a < l.RecordAt(0) ==> mem[a] == 0
    {
      l.InOrder();
      for k := 0 to l.BitmapBytes()
        invariant forall a :: l.Bitmap() <= a < l.Bitmap() + k ==> mem[a] == 0
      {
        mem[l.Bitmap() + k] := 0;
      }
    }

    /** The loop over the page records. */
    method ClearRecords()
      requires Sized() && forall a :: l.Bitmap() <= a < l.RecordAt(0) ==> mem[a] == 0
      modifies mem
      ensures Cleared(l, mem[..])
    {
      l.InOrder();
      var i := 0;
      while i < l.n
        invariant 0 <= i <= l.n && Sized() && ClearedTo(l, mem[..], i)
      {
        ghost var m: Space := mem[..];
        StoreRecord(i, 0, 0, NO_PROCESS);
        ClearedNext(l, m, i);
        i := i + 1;
      }
    }

    method StoreWord(a: nat, w: Word)
      requires mem.Length == TWO_TO_THE_32 && a + 4 <= TWO_TO_THE_32
      modifies mem
      ensures mem[..] == WithWord(old(mem[..]), a, w)
    {
      var (b0, b1, b2, b3) := BytesOf(w);
      mem[a] := b0;
      mem[a + 1] := b1;
      mem[a + 2] := b2;
      mem[a + 3] := b3;
    }

    /** `set_bit`, on the byte of the word that has the bit; the word's other bytes are stored as they are. */
    method SetBit(index: nat)
      requires Sized() && index < l.n
      modifies mem
      ensures mem[..] == WithMark(l, old(mem[..]), index, true)
      ensures forall q: nat :: q < l.n ==> (Marked(l, mem[..], q) <==> q == index || Marked(l, old(mem[..]), q))
    {
      l.InOrder();
      ghost var m: Space := mem[..];
      mem[l.ByteOf(index)] := WithBitOfByte(mem[l.ByteOf(index)], index % 8, true);
      forall q: nat | q < l.n ensures Marked(l, mem[..], q) <==> q == index || Marked(l, m, q) {
        WithMarkIs(l, m, index, true, q);
      }
    }

    /** `clear_bit`. */
    method ClearBit(index: nat)
      requires Sized() && index < l.n
      modifies mem
      ensures mem[..] == WithMark(l, old(mem[..]), index, false)
      ensures forall q: nat :: q < l.n ==> (Marked(l, mem[..], q) <==> q != index && Marked(l, old(mem[..]), q))
    {
      l.InOrder();
      ghost var m: Space := mem[..];
      mem[l.ByteOf(index)] := WithBitOfByte(mem[l.ByteOf(index)], index % 8, false);
      forall q: nat | q < l.n ensures Marked(l, mem[..], q) <==> q != index && Marked(l, m, q) {
        WithMarkIs(l, m, index, false, q);
      }
    }

    /** The three fields of a page record. */
    method StoreRecord(p: nat, first: Word, second: Word, third: Word)
      requires Sized() && p < l.n
      modifies mem
      ensures l.RecordAt(p) + RECORD <= TWO_TO_THE_32
      ensures mem[..] == WithTriple(old(mem[..]), l.RecordAt(p), Triple(first, second, third))
    {
      l.InOrder();
      StoreWord(l.RecordAt(p), first);
      StoreWord(l.RecordAt(p) + 4, second);
      StoreWord(l.RecordAt(p) + 8, third);
    }

    method StorePair(a: nat, first: Word, second: Word)
      requires Sized() && a + 8 <= TWO_TO_THE_32
      modifies mem
      ensures mem[..] == WithWord(WithWord(old(mem[..]), a, first), a + 4, second)
    {
      StoreWord(a, first);
      StoreWord(a + 4, second);
    }

    /** The fields of a descriptor, in the order of `heap_alloc`. */
    method StoreDescriptor(at: nat, size: Word, next: Word, data: Word)
      requires Sized() && at + DESCRIPTOR <= TWO_TO_THE_32
      modifies mem
      ensures mem[..] == WithTriple(old(mem[..]), at, Triple(size, next, data))
    {
      StoreWord(at, size);
      StoresCommute(mem[..], at + 4, next, at + 8, data);
      StoreWord(at + 8, data);
      StoreWord(at + 4, next);
    }

    /** The part of `allocatePageWithIndex` behind its test. */
    method TakePage(i: nat)
      requires Sized() && i < l.n
      modifies this`pagesAllocated, this`pageProsses, mem
      ensures mem[..] == Taken(l, old(mem[..]), i, ToWord(old(pageProsses)))
      ensures Counters() == PageTaken(old(Counters()))
    {
      SetBit(i);
      pagesAllocated := ToWord(pagesAllocated + 1);
      StoreRecord(i, 0, 0, ToWord(pageProsses));
      pageProsses := pageProsses + 1;
    }

    /**
     `allocatePageWithIndex`: takes page `i` unless it is marked already. If the bit is one of the bitmap's own, all stays
     in order.
     */
    method AllocatePageWithIndex(i: nat) returns (ok: bool)
      requires Sized() && i < l.n
      modifies this`pagesAllocated, this`pageProsses, mem
      ensures ok == !Marked(l, old(mem[..]), i)
      ensures mem[..] == if ok then Taken(l, old(mem[..]), i, ToWord(old(pageProsses))) else old(mem[..])
      ensures Counters() == if ok then PageTaken(old(Counters())) else old(Counters())
      ensures old(Valid()) && (ok ==> i < l.OwnBits()) ==> Valid()
    {
      ghost var m: Space := mem[..];
      l.InOrder();
      ok := !BitOf(mem[l.ByteOf(i)], i % 8);
      if ok {
        if Valid() && i < l.OwnBits() {
          TakenAllOk(l, m, lists, Counters(), i);
        }
        TakePage(i);
      }
    }

    /**
     `allocate_page`: the first page that is not marked; None when all are. While one of the bitmap's own bits is clear,
     the page is one of these, and all stays in order.
     */
    method AllocatePage() returns (page: Option<nat>)
      requires Sized()
      modifies this`pagesAllocated, this`pageProsses, mem
      ensures page == FirstClear(l, old(mem[..]), 0)
      ensures page.None? ==> mem[..] == old(mem[..]) && Counters() == old(Counters())
      ensures page.Some? ==>
        mem[..] == Taken(l, old(mem[..]), page.value, ToWord(old(pageProsses))) && Counters() == PageTaken(old(Counters()))
      ensures old(Valid()) && (page.Some? ==> page.value < l.OwnBits()) ==> Valid()
      ensures old(Valid()) ==> (old(pagesAllocated) < l.OwnBits() <==> page.Some? && page.value < l.OwnBits())
    {
      ghost var m: Space, g := mem[..], Counters();
      if Valid() {
        OwnBitFound(l, m, lists, g);
      }
      var i := 0;
      while i < l.n
        invariant 0 <= i <= l.n && mem[..] == m && Counters() == g && FirstClear(l, m, i) == FirstClear(l, m, 0)
      {
        var ok := AllocatePageWithIndex(i);
        if ok {
          return Some(i);
        }
        i := i + 1;
      }
      return None;
    }

    /** `free_page`; page 0 stays. For a page without blocks, marked in the bitmap's own bits, all stays in order. */
    method FreePage(page: nat)
      requires Sized() && page < l.n
      modifies this`pagesAllocated, this`pageProsses, mem
      ensures mem[..] == if page == 0 then old(mem[..]) else Released(l, old(mem[..]), page)
      ensures Counters() == if page == 0 then old(Counters()) else PageReleased(old(Counters()))
      ensures old(Valid()) && Owned(l, old(mem[..]), page) && lists[page] == [] ==> Valid()
    {
      if page == 0 {
        return;
      }
      ghost var m: Space := mem[..];
      if Valid() && Owned(l, m, page) && lists[page] == [] {
        ReleasedAllOk(l, m, lists, Counters(), page);
      }
      ReleasePage(page);
    }

    method ReleasePage(page: nat)
      requires Sized() && page < l.n
      modifies this`pagesAllocated, this`pageProsses, mem
      ensures mem[..] == Released(l, old(mem[..]), page) && Counters() == PageReleased(old(Counters()))
    {
      l.InOrder();
      ClearBit(page);
      StoreWord(l.RecordAt(page) + 8, NO_PROCESS);
      pagesAllocated := ToWord(pagesAllocated - 1);
      pageProsses := pageProsses - 1;
    }

    /** The stores of `heap_alloc`. */
    method PushBlock(page: nat, size: Word)
      requires Sized() && page < l.n && NewDescriptor(l, mem[..], page) + DESCRIPTOR <= TWO_TO_THE_32
      modifies this`heapStart, this`memoryAllocated, mem
      ensures mem[..] == Pushed(l, old(mem[..]), page, size, old(heapStart))
      ensures Counters() == SpaceTaken(old(Counters()), size)
    {
      var data := heapStart;
      heapStart := ToWord(heapStart + size);
      StoreBlock(page, size, data);
      memoryAllocated := ToWord(memoryAllocated + size);
    }

    /** The descriptor, and the record that points to it. */
    /** The stores for a new block at `at`: its descriptor, and then the page record. */
    method StoreBlockAt(at: Word, record: Triple, page: nat, size: Word, data: Word)
      requires Sized() && page < l.n && at + DESCRIPTOR <= TWO_TO_THE_32 && l.RecordAt(page) + 8 <= TWO_TO_THE_32
      modifies mem
      ensures mem[..]
           == BlockPushed(old(mem[..]), at, Triple(size, record.first, data), l.RecordAt(page), record.second)
    {
      StoreDescriptor(at, size, record.first, data);
      StorePair(l.RecordAt(page), at, ToWord(record.second + 1));
    }

    method StoreBlock(page: nat, size: Word, data: Word)
      requires Sized() && page < l.n && NewDescriptor(l, mem[..], page) + DESCRIPTOR <= TWO_TO_THE_32
      modifies mem
      ensures mem[..] == Pushed(l, old(mem[..]), page, size, data)
    {
      l.InOrder();
      var record := Record(l, mem[..], page);
      var at := if record.first == 0 then l.DescriptorAt(page, 0) else record.first + DESCRIPTOR;
      StoreBlockAt(at, record, page, size, data);
    }

    /**
     `heap_alloc`: a block of `size` fresh bytes, whose descriptor takes the slot after that of the page's newest block.
     Size 0 gives NULL. All stays in order if the page is marked by one of the bitmap's own bits, has a slot left, and
     the heap has room.
     */
    method HeapAlloc(page: nat, size: Word) returns (ptr: Word)
      requires Valid() && page < l.n
      modifies this`heapStart, this`memoryAllocated, this`lists, mem
      ensures size == 0 ==> ptr == 0 && Valid() && lists == old(lists)
      ensures size == 0 ==> mem[..] == old(mem[..]) && Counters() == old(Counters())
      ensures size > 0 ==> ptr == old(heapStart) && NewDescriptor(l, old(mem[..]), page) + DESCRIPTOR <= TWO_TO_THE_32
      ensures size > 0 ==> mem[..] == Pushed(l, old(mem[..]), page, size, ptr)
      ensures size > 0 ==> Counters() == SpaceTaken(old(Counters()), size)
      ensures size > 0 && HasRoom(l, old(mem[..]), old(lists), old(Counters()), page, size) ==>
        Valid() && lists == old(lists)[page := [Block(NextSlot(old(lists)[page]), size, ptr)] + old(lists)[page]]
    {
      if size == 0 {
        return 0;
      }
      ghost var m: Space, g := mem[..], Counters();
      assert PageOk(l, m, lists, page);
      NewDescriptorIs(l, m, lists, page);
      ptr := heapStart;
      PushBlock(page, size);
      if HasRoom(l, m, lists, g, page, size) {
        PushedAllOk(l, m, lists, g, page, size);
        lists := lists[page := [Block(NextSlot(lists[page]), size, ptr)] + lists[page]];
      }
    }

    /** The search of `heap_free`: the descriptor of the block at `ptr`, and the one before it. */
    method FindBlock(page: nat, ptr: Word) returns (current: Word, prev: Word)
      requires Valid() && page < l.n
      ensures SlotsFit(lists[page])
      ensures match IndexOfData(lists[page], ptr)
        case None => current == 0
        case Some(i) =>
          && current == PointerTo(l, page, lists[page], i)
          && prev == if i == 0 then 0 else PointerTo(l, page, lists[page], i - 1)
    {
      assert PageOk(l, mem[..], lists, page);
      l.InOrder();
      ghost var list := lists[page];
      current, prev := ReadWord(mem[..], l.RecordAt(page)), 0;
      ghost var i := 0;
      while current != 0
        invariant 0 <= i <= |list|
        invariant current == PointerTo(l, page, list, i)
        invariant prev == if i == 0 then 0 else PointerTo(l, page, list, i - 1)
        invariant forall k :: 0 <= k < i ==> list[k].data != ptr
        decreases |list| - i
      {
        assert LinkOk(l, mem[..], page, list, i);
        if ReadWord(mem[..], current + 8) == ptr {
          break;
        }
        prev := current;
        current := ReadWord(mem[..], current + 4);
        i := i + 1;
      }
      IndexOfDataIs(list, ptr, i);
    }

    /** The part of `heap_free` that takes block `i` out of the list of page `p` and out of the counters. */
    method Unlink(p: nat, current: Word, prev: Word, ghost i: nat)
      requires Valid() && p < l.n && i < |lists[p]| && SlotsFit(lists[p])
      requires current == PointerTo(l, p, lists[p], i) && prev == if i == 0 then 0 else PointerTo(l, p, lists[p], i - 1)
      modifies this`memoryAllocated, this`lists, mem
      ensures Valid()
      ensures mem[..] == Unlinked(l, old(mem[..]), p, old(lists)[p], i)
      ensures lists == old(lists)[p := Without(old(lists)[p], i)]
      ensures Owned(l, mem[..], p) && MarksKept(l, old(mem[..]), mem[..], l.OwnBits(), -1)
    {
      ghost var m: Space := mem[..];
      UnlinkedAllOk(l, m, lists, Counters(), p, i);
      UnlinkReads(l, m, lists, p, i, current, prev);
      UnlinkKeepsMarks(l, m, lists, p, i);
      UnlinkStores(p, current, prev, lists[p], i);
      lists := lists[p := Without(lists[p], i)];
    }

    lemma SkipIsUnlink(m: Space, p: nat, list: seq<Block>, i: nat, current: Word, prev: Word)
      requires l.Valid() && p < l.n && i < |list| && SlotsFit(list) && BlockRead(l, m, p, list, i, current, prev)
      ensures l.RecordAt(p) + RECORD <= TWO_TO_THE_32
      ensures Unlinked(l, m, p, list, i)
           == WithWord(WithWord(m, if prev == 0 then l.RecordAt(p) else prev + 4, ReadWord(m, current + 4)),
                       l.RecordAt(p) + 4, ToWord(Record(l, m, p).second - 1))
    {
      l.InOrder();
    }

    method UnlinkStores(p: nat, current: Word, prev: Word, ghost list: seq<Block>, ghost i: nat)
      requires Sized() && p < l.n && i < |list| && SlotsFit(list) && BlockRead(l, mem[..], p, list, i, current, prev)
      modifies this`memoryAllocated, mem
      ensures mem[..] == Unlinked(l, old(mem[..]), p, list, i)
      ensures Counters() == SpaceReturned(old(Counters()), list[i].size)
    {
      var next: Word := ReadWord(mem[..], current + 4);
      var size: int := ReadWord(mem[..], current);
      SkipIsUnlink(mem[..], p, list, i, current, prev);
      Skip(p, prev, next);
      memoryAllocated := ToWord(memoryAllocated - size);
    }

    /** The stores that skip a block, and count it out. */
    method Skip(p: nat, prev: Word, next: Word)
      requires Sized() && p < l.n && prev + 8 <= TWO_TO_THE_32 && (prev != 0 ==> l.DescriptorAt(0, 0) <= prev)
      modifies mem
      ensures l.RecordAt(p) + RECORD <= TWO_TO_THE_32
      ensures var m := old(mem[..]);
        mem[..] == WithWord(WithWord(m, if prev == 0 then l.RecordAt(p) else prev + 4, next), l.RecordAt(p) + 4,
                            ToWord(Record(l, m, p).second - 1))
    {
      l.InOrder();
      ghost var m: Space := mem[..];
      if prev != 0 {
        StoreWord(prev + 4, next);
        WithWordIs(m, prev + 4, next);
        WordKept(m, mem[..], prev + 4, prev + 8, l.RecordAt(p) + 4);
      } else {
        StoreWord(l.RecordAt(p), next);
        WithWordIs(m, l.RecordAt(p), next);
        WordKept(m, mem[..], l.RecordAt(p), l.RecordAt(p) + 4, l.RecordAt(p) + 4);
      }
      var count: int := ReadWord(mem[..], l.RecordAt(p) + 4);
      StoreWord(l.RecordAt(p) + 4, ToWord(count - 1));
    }

    /** `heap_free`: unlinks the block at `ptr`; the last block of a page other than 0 frees the page with it. */
    method HeapFree(page: Option<nat>, ptr: Word)
      requires Valid() && (page.Some? ==> page.value < l.n)
      modifies this`memoryAllocated, this`lists, this`pagesAllocated, this`pageProsses, mem
      ensures Valid() && |old(lists)| == |lists| == l.n
      ensures lists == if page.None? then old(lists) else Freed(old(lists), page.value, ptr)
      ensures forall q: nat :: q < l.OwnBits() ==>
        (Marked(l, mem[..], q) <==> Marked(l, old(mem[..]), q) && !LosesPage(page, q, old(lists), lists))
    {
      if page.None? || ptr == 0 {
        if page.Some? { NothingAtNull(lists, l.HeapBase(), heapStart, page.value); }
        return;
      }
      var p := page.value;
      var current, prev := FindBlock(p, ptr);
      if current == 0 {
        return;
      }
      assert PageOk(l, mem[..], lists, p);
      Unlink(p, current, prev, IndexOfData(lists[p], ptr).value);
      FreeIfEmpty(p);
    }

    /** The end of `heap_free`. */
    method FreeIfEmpty(p: nat)
      requires Valid() && p < l.n && Owned(l, mem[..], p)
      modifies this`pagesAllocated, this`pageProsses, mem
      ensures Valid() && lists == old(lists)
      ensures mem[..] == if lists[p] == [] && p != 0 then Released(l, old(mem[..]), p) else old(mem[..])
      ensures forall q: nat :: q < l.OwnBits() ==>
        (Marked(l, mem[..], q) <==> Marked(l, old(mem[..]), q) && !(q == p && p != 0 && lists[p] == []))
    {
      assert PageOk(l, mem[..], lists, p);
      if lists[p] == [] {
        ReleasedKeeps(l, mem[..], lists, p);
      }
      l.InOrder();
      if ReadWord(mem[..], l.RecordAt(p) + 4) == 0 {
        FreePage(p);
      }
    }

    /** A client's store to a byte of its block. The block may have descriptors of later pages in it. */
    method ClientStore(p: nat, ghost i: nat, at: nat, value: Byte)
      requires Valid() && p < l.n && i < |lists[p]| && lists[p][i].data <= at < lists[p][i].End()
      modifies mem
      ensures at < mem.Length && mem[..] == old(mem[..])[at := value]
      ensures !HitsDescriptor(l, lists, at) ==> Valid()
    {
      assert Inside(lists, l.HeapBase(), heapStart, p, i);
      if !HitsDescriptor(l, lists, at) {
        ClientStoreAllOk(l, mem[..], lists, Counters(), at, value);
      }
      mem[at] := value;
    }
  }

  /**
   What the allocator looks like in every state that its operations reach while pages are only taken by the bitmap's own
   bits: disjoint data, slots that decrease along each list, and counters that agree with lists and own bits.
   */
  lemma Accounts(a: Allocator)
    requires a.Valid()
    ensures a.memoryAllocated == Total(a.lists, a.l.n)
    ensures a.pagesAllocated == a.pageProsses == CountMarked(a.l, a.mem[..], a.l.OwnBits())
    ensures forall p :: 0 <= p < a.l.n ==>
      && Record(a.l, a.mem[..], p).second == |a.lists[p]| && SlotsDecrease(a.lists[p])
      && (a.lists[p] != [] ==> Owned(a.l, a.mem[..], p))
    ensures Apart(a.lists, a.l.HeapBase(), a.heapStart)
  {
    forall p | 0 <= p < a.l.n
      ensures Record(a.l, a.mem[..], p).second == |a.lists[p]| && SlotsDecrease(a.lists[p])
      ensures a.lists[p] != [] ==> Owned(a.l, a.mem[..], p)
    {
      assert PageOk(a.l, a.mem[..], a.lists, p);
    }
  }
}
