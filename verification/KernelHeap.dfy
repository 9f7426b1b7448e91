/**
 The kernel heap of src/kernel/allocator/malloc.c: first fit over blocks whose headers lie in
 the heap itself, and the table of page-aligned allocations kept in the first block.
 */
module KernelHeap {
  import opened Machine

  /** sizeof(alloc_t): a status byte, three bytes of padding, and a 32-bit size. */
  const HEADER: nat := 8
  /** Bytes left free after each payload. */
  const GAP: nat := 4
  const MAXPAGEALIGNEDALLOC: nat := 32
  const PAGE: nat := 4096
  const PHEAP_END: nat := 0x40_0000
  const PHEAP_BEGIN: nat := PHEAP_END - MAXPAGEALIGNEDALLOC * PAGE

  /** A block of the heap: the address of its header, the size stored there, and its status. */
  datatype Block = Block(addr: nat, size: nat, live: bool) {
    function Payload(): nat { addr + HEADER }
    function End(): nat { addr + HEADER + size }
    function Next(): nat { addr + HEADER + size + GAP }
  }

  /** The blocks lie one after the other from `begin` to `last`. */
  ghost predicate Chained(blocks: seq<Block>, begin: nat, last: nat) {
    && (blocks != [] ==> blocks[0].addr == begin)
    && (forall k :: 0 < k < |blocks| ==> blocks[k].addr == blocks[k - 1].Next())
    && last == if blocks == [] then begin else blocks[|blocks| - 1].Next()
  }

  lemma {:induction false} InOrder(blocks: seq<Block>, begin: nat, last: nat, i: nat, j: nat)
    requires Chained(blocks, begin, last) && i < j < |blocks|
    ensures blocks[i].Next() <= blocks[j].addr
    decreases j
  {
    if i + 1 < j {
      InOrder(blocks, begin, last, i, j - 1);
    }
  }

  lemma {:induction false} InBounds(blocks: seq<Block>, begin: nat, last: nat, k: nat)
    requires Chained(blocks, begin, last) && k < |blocks|
    ensures begin <= blocks[k].addr && blocks[k].Next() <= last
  {
    assert blocks[0].addr == begin;
    if k > 0 { InOrder(blocks, begin, last, 0, k); }
    if k < |blocks| - 1 { InOrder(blocks, begin, last, k, |blocks| - 1); }
  }

  /** The header of block `b`, as memory holds it. */
  ghost predicate HeaderIs(m: seq<Byte>, b: Block) {
    && b.addr + HEADER <= |m|
    && (m[b.addr] != 0 <==> b.live)
    && ReadWord(m, b.addr + 4) == b.size
  }

  ghost predicate Headers(m: seq<Byte>, blocks: seq<Block>) {
    forall k :: 0 <= k < |blocks| ==> HeaderIs(m, blocks[k])
  }

  /** The header addresses met from `at` on by reading each size and striding over it, and where the walk ends. */
  ghost function Walk(m: seq<Byte>, at: nat, last: nat): (seq<nat>, nat)
    decreases last - at
  {
    if at >= last || at + HEADER > |m| then ([], at) else
      var (rest, end) := Walk(m, at + ReadWord(m, at + 4) + HEADER + GAP, last);
      ([at] + rest, end)
  }

  function Addresses(blocks: seq<Block>): (r: seq<nat>)
    ensures |r| == |blocks|
  {
    if blocks == [] then [] else [blocks[0].addr] + Addresses(blocks[1..])
  }

  /** The walk lands on exactly the block headers and ends at `last`. */
  lemma {:induction false} WalkMeetsBlocks(m: seq<Byte>, blocks: seq<Block>, begin: nat, last: nat)
    requires Chained(blocks, begin, last) && Headers(m, blocks)
    ensures Walk(m, begin, last) == (Addresses(blocks), last)
  {
    if blocks != [] {
      var rest := blocks[1..];
      assert forall k :: 0 <= k < |rest| ==> rest[k] == blocks[k + 1];
      InBounds(blocks, begin, last, 0);
      WalkMeetsBlocks(m, rest, blocks[0].Next(), last);
      assert HeaderIs(m, blocks[0]) && blocks[0].addr == begin;
    }
  }

  /** Two different blocks share no byte, headers and payloads included. */
  lemma BlocksDisjoint(blocks: seq<Block>, begin: nat, last: nat, i: nat, j: nat)
    requires Chained(blocks, begin, last) && i < |blocks| && j < |blocks| && i != j
    ensures blocks[i].End() + GAP <= blocks[j].addr || blocks[j].End() + GAP <= blocks[i].addr
  {
    if i < j { InOrder(blocks, begin, last, i, j); } else { InOrder(blocks, begin, last, j, i); }
  }

  lemma SameBytesSameHeader(m: seq<Byte>, m': seq<Byte>, b: Block)
    requires |m| == |m'| && HeaderIs(m, b)
    requires forall a :: b.addr <= a < b.addr + HEADER ==> m'[a] == m[a]
    ensures HeaderIs(m', b)
  {
  }

  lemma OtherHeaderKept(m: seq<Byte>, m': seq<Byte>, blocks: seq<Block>, begin: nat, last: nat, k: nat, i: nat)
    requires Chained(blocks, begin, last) && Headers(m, blocks) && k < |blocks| && |m| == |m'|
    requires forall a :: 0 <= a < |m| && !(blocks[k].Payload() <= a < blocks[k].End()) && a != blocks[k].addr ==> m'[a] == m[a]
    requires i < |blocks| && i != k
    ensures HeaderIs(m', blocks[i])
  {
    BlocksDisjoint(blocks, begin, last, i, k);
    SameBytesSameHeader(m, m', blocks[i]);
  }

  /** Changing the status byte and the payload of block `k` leaves every other header alone. */
  lemma StatusKeepsHeaders(m: seq<Byte>, m': seq<Byte>, blocks: seq<Block>, begin: nat, last: nat, k: nat, live: bool)
    requires Chained(blocks, begin, last) && Headers(m, blocks) && k < |blocks| && |m| == |m'|
    requires forall a :: 0 <= a < |m| && !(blocks[k].Payload() <= a < blocks[k].End()) && a != blocks[k].addr ==> m'[a] == m[a]
    requires m'[blocks[k].addr] != 0 <==> live
    ensures Headers(m', blocks[k := blocks[k].(live := live)])
    ensures Chained(blocks[k := blocks[k].(live := live)], begin, last)
  {
    forall i | 0 <= i < |blocks| && i != k ensures HeaderIs(m', blocks[i]) {
      OtherHeaderKept(m, m', blocks, begin, last, k, i);
    }
  }

  lemma PayloadKeepsHeaders(m: seq<Byte>, m': seq<Byte>, blocks: seq<Block>, begin: nat, last: nat, k: nat, at: nat)
    requires Chained(blocks, begin, last) && Headers(m, blocks) && k < |blocks| && |m| == |m'|
    requires blocks[k].Payload() <= at < blocks[k].Next()
    requires forall a :: 0 <= a < |m| && a != at ==> m'[a] == m[a]
    ensures Headers(m', blocks)
  {
    forall i | 0 <= i < |blocks| ensures HeaderIs(m', blocks[i]) {
      if i != k { BlocksDisjoint(blocks, begin, last, i, k); }
      SameBytesSameHeader(m, m', blocks[i]);
    }
  }

  /** A block written after the last one leaves the headers before it alone. */
  lemma NewBlockKeepsHeaders(m: seq<Byte>, m': seq<Byte>, blocks: seq<Block>, begin: nat, last: nat, b: Block)
    requires Chained(blocks, begin, last) && Headers(m, blocks) && |m| == |m'| && b.addr == last
    requires forall a :: 0 <= a < last && a < |m| ==> m'[a] == m[a]
    requires HeaderIs(m', b)
    ensures Headers(m', blocks + [b])
    ensures Chained(blocks + [b], begin, b.Next())
  {
    forall i | 0 <= i < |blocks| ensures HeaderIs(m', blocks[i]) {
      InBounds(blocks, begin, last, i);
      SameBytesSameHeader(m, m', blocks[i]);
    }
  }

  /** Every payload of a live block holds the same bytes in `m'` as in `m`. */
  ghost predicate LivePayloadsKept(blocks: seq<Block>, m: seq<Byte>, m': seq<Byte>) {
    && |m| == |m'|
    && forall i, a ::
      0 <= i < |blocks| && blocks[i].live && blocks[i].Payload() <= a < blocks[i].End() && a < |m| ==> m'[a] == m[a]
  }

  /** A change to a block that is not live, or to fresh space, touches no live payload. */
  lemma ChangesApartFromLive(blocks: seq<Block>, begin: nat, last: nat, m: seq<Byte>, m': seq<Byte>, lo: int, hi: int, k: nat)
    requires Chained(blocks, begin, last) && k <= |blocks| && |m| == |m'|
    requires forall a :: 0 <= a < |m| && !(lo <= a < hi) ==> m'[a] == m[a]
    requires if k < |blocks| then !blocks[k].live && lo >= blocks[k].addr && hi <= blocks[k].End() else lo >= last
    ensures LivePayloadsKept(blocks, m, m')
  {
    forall i, a | 0 <= i < |blocks| && blocks[i].live && blocks[i].Payload() <= a < blocks[i].End() && a < |m|
      ensures m'[a] == m[a]
    {
      if k < |blocks| {
        BlocksDisjoint(blocks, begin, last, i, k);
      } else {
        InBounds(blocks, begin, last, i);
      }
    }
  }

  /** A block with its header at `at` has been written, and `size` bytes of its payload are zero. */
  ghost predicate Written(m: seq<Byte>, m': seq<Byte>, at: int, size: nat) {
    && |m| == |m'| && 0 <= at && at + HEADER + size <= |m|
    && (forall a :: 0 <= a < |m| && !(at <= a < at + HEADER + size) ==> m'[a] == m[a])
    && (forall a :: at + HEADER <= a < at + HEADER + size ==> m'[a] == 0)
  }

  /** No block is empty, and all end below the end of the heap. */
  ghost predicate BelowEnd(blocks: seq<Block>, heapEnd: nat) {
    forall k :: 0 <= k < |blocks| ==> blocks[k].size > 0 && blocks[k].End() < heapEnd
  }

  lemma ExtendKeeps(m: seq<Byte>, m': seq<Byte>, blocks: seq<Block>, begin: nat, last: nat, heapEnd: nat, size: Word)
    requires Chained(blocks, begin, last) && Headers(m, blocks)
    requires BelowEnd(blocks, heapEnd) && size > 0 && last + HEADER + size < heapEnd
    requires Written(m, m', last, size) && HeaderIs(m', Block(last, size, true))
    ensures var b := Block(last, size, true);
      && Headers(m', blocks + [b]) && Chained(blocks + [b], begin, b.Next()) && LivePayloadsKept(blocks, m, m')
      && BelowEnd(blocks + [b], heapEnd)
  {
    ChangesApartFromLive(blocks, begin, last, m, m', last, last + HEADER + size, |blocks|);
    NewBlockKeepsHeaders(m, m', blocks, begin, last, Block(last, size, true));
  }

  /** The size field of the header at `at` is as it was. */
  ghost predicate SizeKept(m: seq<Byte>, m': seq<Byte>, at: nat) {
    |m| == |m'| && at + HEADER <= |m| && forall a :: at < a < at + HEADER ==> m'[a] == m[a]
  }

  lemma ReuseKeeps(m: seq<Byte>, m': seq<Byte>, blocks: seq<Block>, begin: nat, last: nat, k: nat, size: nat)
    requires Chained(blocks, begin, last) && Headers(m, blocks) && k < |blocks| && !blocks[k].live && size <= blocks[k].size
    requires Written(m, m', blocks[k].addr, size) && SizeKept(m, m', blocks[k].addr) && m'[blocks[k].addr] != 0
    ensures var after := blocks[k := blocks[k].(live := true)];
      Headers(m', after) && Chained(after, begin, last) && LivePayloadsKept(blocks, m, m')
  {
    var at := blocks[k].addr;
    StatusKeepsHeaders(m, m', blocks, begin, last, k, true);
    ChangesApartFromLive(blocks, begin, last, m, m', at, at + HEADER + size, k);
  }

  /** The first block that is not live and has room for `size` bytes; the number of blocks when there is none. */
  function FirstFit(blocks: seq<Block>, size: nat): (k: nat)
    ensures k <= |blocks|
    ensures k < |blocks| ==> !blocks[k].live && blocks[k].size >= size
    ensures forall i :: 0 <= i < k ==> blocks[i].live || blocks[i].size < size
  {
    if blocks == [] || (!blocks[0].live && blocks[0].size >= size) then 0 else 1 + FirstFit(blocks[1..], size)
  }

  lemma FirstFitIs(blocks: seq<Block>, size: nat, k: nat)
    requires k <= |blocks|
    requires forall i :: 0 <= i < k ==> blocks[i].live || blocks[i].size < size
    requires k < |blocks| ==> !blocks[k].live && blocks[k].size >= size
    ensures FirstFit(blocks, size) == k
  {
  }

  /**
   What `malloc` comes to: no block for size 0, a payload address, the out-of-memory panic, or,
   when the 32-bit sum of the bound check wraps, a block that runs past the end of the heap. The last one
   stands for all writes outside a block.
   */
  datatype Allocation = Null | Payload(addr: nat) | Panic | Wild

  /** The first fitting block, fresh space while the heap lasts, or a panic; the bound check is a 32-bit sum. */
  ghost function Outcome(blocks: seq<Block>, last: nat, heapEnd: nat, size: Word): (r: Allocation)
    ensures r.Null? <==> size == 0
    ensures r.Wild? ==> last + size + HEADER >= TWO_TO_THE_32
  {
    var k := FirstFit(blocks, size);
    var sum := last + size + HEADER;
    if size == 0 then Null
    else if k < |blocks| then Payload(blocks[k].Payload())
    else if ToWord(sum) >= heapEnd then Panic
    else if sum >= TWO_TO_THE_32 then Wild
    else Payload(last + HEADER)
  }

  ghost function BlocksAfter(blocks: seq<Block>, last: nat, size: Word): seq<Block> {
    var k := FirstFit(blocks, size);
    if k < |blocks| then blocks[k := blocks[k].(live := true)] else blocks + [Block(last, size, true)]
  }

  function More(used: Word, size: Word, extra: nat): Word {
    ToWord(used + size + extra)
  }

  /** What `malloc` counts as used: the size asked for and a header, and for a new block the gap as well. */
  function UsedAfter(blocks: seq<Block>, used: Word, size: Word): Word {
    More(used, size, if FirstFit(blocks, size) < |blocks| then 8 else 12)
  }

  /** What `free` counts: the size of the block and a header less. */
  function UsedLess(used: Word, size: Word): Word {
    ToWord(used - (size + 8))
  }

  /**
   After `malloc` and `free` of what it returned the count is back where it was exactly if a freed block of just that size
   was taken: a new block leaves 4 bytes counted, and a larger one takes its difference off.
   */
  lemma UsedBack(blocks: seq<Block>, used: Word, size: Word, room: Word)
    requires room == RoomOf(blocks, size)
    ensures UsedLess(UsedAfter(blocks, used, size), room) == used <==> FirstFit(blocks, size) < |blocks| && room == size
  {
    if FirstFit(blocks, size) == |blocks| {
      Recount(used, size, 12, room);
    } else {
      Recount(used, size, 8, room);
    }
  }

  lemma Recount(used: Word, size: Word, extra: nat, room: Word)
    requires (extra == 8 && room >= size) || (extra == 12 && room == size)
    ensures ToWord(ToWord(used + size + extra) - (room + 8)) == used <==> extra == 8 && room == size
  {
  }

  /**
   Where a request is served: 8 bytes behind the header of the first freed block that is large enough, or of a new block at
   the end, behind which 4 bytes stay free.
   */
  lemma OutcomeWhere(blocks: seq<Block>, last: nat, heapEnd: nat, size: Word)
    requires Outcome(blocks, last, heapEnd, size).Payload?
    ensures var k, r := FirstFit(blocks, size), Outcome(blocks, last, heapEnd, size);
      if k < |blocks|
      then r.addr == blocks[k].addr + 8 &&
           BlocksAfter(blocks, last, size) == blocks[k := Block(blocks[k].addr, blocks[k].size, true)]
      else r.addr == last + 8 && BlocksAfter(blocks, last, size) == blocks + [Block(last, size, true)] &&
           Block(last, size, true).Next() == last + size + 12
  {
  }

  /** The header of a block by its bytes: its status at the front, its size in the last four, lowest byte first. */
  lemma HeaderBytes(m: seq<Byte>, b: Block)
    requires HeaderIs(m, b)
    ensures b.addr + 8 <= |m| && (b.live <==> m[b.addr] != 0)
    ensures b.size == m[b.addr + 4] as int + m[b.addr + 5] as int * 256 + m[b.addr + 6] as int * 65536
                        + m[b.addr + 7] as int * 16777216
  {
  }

  /** A live block with payload address `addr` and room for `n` bytes. */
  ghost predicate HasLive(blocks: seq<Block>, addr: nat, n: nat) {
    exists k :: 0 <= k < |blocks| && blocks[k].live && blocks[k].Payload() == addr && n <= blocks[k].size
  }

  /** The block that is handed out, after it has been. */
  lemma OutcomeIs(blocks: seq<Block>, last: nat, heapEnd: nat, size: Word)
    requires Outcome(blocks, last, heapEnd, size).Payload?
    ensures var k, after := FirstFit(blocks, size), BlocksAfter(blocks, last, size);
      && k < |after| && after[k].live && after[k].Payload() == Outcome(blocks, last, heapEnd, size).addr
      && after[k].size == RoomOf(blocks, size) >= size
      && (k < |blocks| ==> !blocks[k].live && after[k].addr == blocks[k].addr && after[k].size == blocks[k].size)
      && (k == |blocks| ==> after[k].addr == last)
  {
  }

  lemma OutcomeIsLive(blocks: seq<Block>, last: nat, heapEnd: nat, size: Word, n: nat)
    requires Outcome(blocks, last, heapEnd, size).Payload? && n <= RoomOf(blocks, size)
    ensures HasLive(BlocksAfter(blocks, last, size), Outcome(blocks, last, heapEnd, size).addr, n)
  {
    var k, after := FirstFit(blocks, size), BlocksAfter(blocks, last, size);
    assert after[k].live && after[k].Payload() == Outcome(blocks, last, heapEnd, size).addr && n <= after[k].size;
  }

  /** Only `size` bytes at `addr` have changed, and they are zero. */
  ghost predicate Wiped(m: seq<Byte>, m': seq<Byte>, addr: nat, size: nat) {
    && |m| == |m'| && addr + size <= |m|
    && (forall a :: 0 <= a < |m| && !(addr <= a < addr + size) ==> m'[a] == m[a])
    && (forall a :: addr <= a < addr + size ==> m'[a] == 0)
  }

  /** Clearing inside the block that is handed out leaves it zero, and touches no payload that was live before. */
  lemma ClearedIs(blocks: seq<Block>, begin: nat, last: nat, m: seq<Byte>, mid: seq<Byte>, m': seq<Byte>,
                  addr: nat, total: Word, size: nat)
    requires Chained(blocks, begin, last) && LivePayloadsKept(blocks, m, mid) && addr >= HEADER
    requires Written(m, mid, addr - HEADER, total) && Wiped(mid, m', addr, size) && size <= RoomOf(blocks, total)
    requires var k := FirstFit(blocks, total); addr == (if k < |blocks| then blocks[k].addr else last) + HEADER
    ensures LivePayloadsKept(blocks, m, m')
    ensures forall a :: addr <= a < addr + Max(total, size) ==> m'[a] == 0
  {
    ChangesApartFromLive(blocks, begin, last, mid, m', addr, addr + size, FirstFit(blocks, total));
  }

  /** Without a wrap of the bound check, `malloc` serves every request that fits below the end of the heap. */
  lemma ServesWhatFits(blocks: seq<Block>, last: nat, heapEnd: nat, size: Word)
    requires last + size + HEADER < TWO_TO_THE_32
    ensures !Outcome(blocks, last, heapEnd, size).Wild?
    ensures Outcome(blocks, last, heapEnd, size).Panic? <==>
      size > 0 && FirstFit(blocks, size) == |blocks| && last + size + HEADER >= heapEnd
  {
  }

  /** `num * size`. */
  function Max(a: nat, b: nat): nat {
    if a < b then b else a
  }

  function Times(num: nat, size: nat): nat {
    if num == 0 then 0 else Times(num - 1, size) + size
  }

  lemma {:induction false} TimesBounds(num: nat, size: nat)
    ensures Times(num, size) == 0 <==> num == 0 || size == 0
    ensures num > 0 ==> size <= Times(num, size)
  {
    if num > 0 { TimesBounds(num - 1, size); }
  }

  /** The size of the block that `malloc` hands out: that of the freed block, or the size asked for. */
  function RoomOf(blocks: seq<Block>, total: nat): nat {
    var k := FirstFit(blocks, total);
    if k < |blocks| then blocks[k].size else total
  }

  /** What `calloc` makes of a block of `room` bytes by clearing `size` bytes from its start. */
  function Cleared(r: Allocation, size: Word, room: nat): Allocation {
    if r.Payload? && size > room then Wild else r
  }

  /** The clearing stays in the block that is handed out exactly if `size` is at most the size of that block. */
  lemma ClearedExactly(blocks: seq<Block>, last: nat, heapEnd: nat, size: Word, total: Word)
    requires Outcome(blocks, last, heapEnd, total).Payload?
    ensures FirstFit(blocks, total) < |BlocksAfter(blocks, last, total)|
    ensures var r, b := Outcome(blocks, last, heapEnd, total), BlocksAfter(blocks, last, total)[FirstFit(blocks, total)];
      r.addr == b.Payload() && (r.addr + size <= b.End() <==> Cleared(r, size, RoomOf(blocks, total)) == r)
  {
  }

  /** For a product that does not wrap, `calloc` comes to what `malloc` does. */
  lemma ClearedInside(blocks: seq<Block>, last: nat, heapEnd: nat, num: Word, size: Word)
    requires Times(num, size) < TWO_TO_THE_32
    ensures var r := Outcome(blocks, last, heapEnd, Times(num, size)); Cleared(r, size, RoomOf(blocks, Times(num, size))) == r
  {
    TimesBounds(num, size);
  }

  /** Two times 2^31 + 1 bytes come to 2 bytes, and in a new block the clearing leaves it. */
  lemma ClearedOutside(blocks: seq<Block>, last: nat, heapEnd: nat)
    requires FirstFit(blocks, 2) == |blocks| && last + 2 + HEADER < heapEnd < TWO_TO_THE_32
    ensures var total := ToWord(Times(2, 0x8000_0001));
      total == 2 && Cleared(Outcome(blocks, last, heapEnd, total), 0x8000_0001, RoomOf(blocks, total)) == Wild
  {
    assert Times(2, 0x8000_0001) == Times(1, 0x8000_0001) + 0x8000_0001;
  }

  /** 43691 times 98304 bytes come to 32768, but in a freed block of 98304 bytes the clearing stays inside. */
  lemma WrappedButInside(blocks: seq<Block>, last: nat, heapEnd: nat)
    requires FirstFit(blocks, 32768) < |blocks| && blocks[FirstFit(blocks, 32768)].size >= 98304
    ensures var total := ToWord(Times(43691, 98304));
      total == 32768 && Cleared(Outcome(blocks, last, heapEnd, total), 98304, RoomOf(blocks, total)).Payload?
  {
    TimesIsProduct(43691, 98304);
  }

  lemma {:induction false} TimesIsProduct(num: nat, size: nat)
    ensures Times(num, size) == num * size
  {
    if num > 0 {
      TimesIsProduct(num - 1, size);
      assert num * size == (num - 1) * size + size;
    }
  }

  class Heap {
    /** Memory, indexed by address. */
    const mem: array<Byte>
    const heapBegin: nat
    const heapEnd: nat
    var lastAlloc: nat
    var memoryUsed: Word
    ghost var blocks: seq<Block>

    ghost predicate Valid()
      reads this, mem
    {
      && heapEnd <= mem.Length <= PHEAP_END
      && lastAlloc < heapEnd + GAP
      && Chained(blocks, heapBegin, lastAlloc)
      && Headers(mem[..], blocks)
      && BelowEnd(blocks, heapEnd)
    }

    /** Every byte outside lo..hi is as it was. */
    twostate predicate OnlyChanged(lo: int, hi: int)
      reads mem
    {
      forall a :: 0 <= a < mem.Length && !(lo <= a < hi) ==> mem[a] == old(mem[a])
    }

    /** A block of `size` zero bytes at payload address `addr` is in use; all that is changed is the block. */
    twostate predicate Serves(addr: nat, size: Word)
      reads this, mem
    {
      && blocks == BlocksAfter(old(blocks), old(lastAlloc), size)
      && Written(old(mem[..]), mem[..], addr - HEADER, size)
      && LivePayloadsKept(old(blocks), old(mem[..]), mem[..])
    }

    method StoreWord(a: nat, w: Word)
      requires a + 4 <= mem.Length
      modifies mem
      ensures ReadWord(mem[..], a) == w
      ensures OnlyChanged(a, a + 4)
    {
      WordBytes(w);
      var (b0, b1, b2, b3) := BytesOf(w);
      mem[a] := b0;
      mem[a + 1] := b1;
      mem[a + 2] := b2;
      mem[a + 3] := b3;
    }

    /** The header of a block in use. */
    method WriteHeader(at: nat, size: Word)
      requires at + HEADER <= mem.Length
      modifies mem
      ensures HeaderIs(mem[..], Block(at, size, true)) && Written(old(mem[..]), mem[..], at, 0)
    {
      mem[at] := 1;
      StoreWord(at + 4, size);
    }

    /** `memset(a, 0, size)`. */
    method Clear(a: nat, size: nat)
      requires a + size <= mem.Length
      modifies mem
      ensures forall b :: a <= b < a + size ==> mem[b] == 0
      ensures OnlyChanged(a, a + size)
    {
      for k := 0 to size
        invariant forall b :: a <= b < a + k ==> mem[b] == 0
        invariant OnlyChanged(a, a + k)
      {
        mem[a + k] := 0;
      }
    }

    /** The search loop of `malloc`: the header of the first fitting block. */
    method Search(size: Word) returns (found: Option<nat>)
      requires Valid() && size > 0
      ensures var k := FirstFit(blocks, size);
        found == if k < |blocks| then Some(blocks[k].addr) else None
    {
      var at := heapBegin;
      ghost var k := 0;
      while at < lastAlloc
        invariant 0 <= k <= |blocks|
        invariant at == if k < |blocks| then blocks[k].addr else lastAlloc
        invariant forall i :: 0 <= i < k ==> blocks[i].live || blocks[i].size < size
        decreases lastAlloc - at
      {
        InBounds(blocks, heapBegin, lastAlloc, k);
        assert HeaderIs(mem[..], blocks[k]) && blocks[k].size > 0;
        if ReadWord(mem[..], at + 4) == 0 {
          break;
        }
        if mem[at] == 0 && ReadWord(mem[..], at + 4) >= size {
          FirstFitIs(blocks, size, k);
          return Some(at);
        }
        at := at + ReadWord(mem[..], at + 4) + HEADER + GAP;
        k := k + 1;
      }
      if k < |blocks| { InBounds(blocks, heapBegin, lastAlloc, k); }
      FirstFitIs(blocks, size, k);
      return None;
    }

    /**
     `malloc`: the first fitting block, zeroed, or a new block at the end. Nothing outside the block
     changes; the request that wraps the 32-bit bound check is the only one that leaves the heap.
     */
    method Malloc(size: Word) returns (r: Allocation)
      requires Valid()
      modifies this`lastAlloc, this`memoryUsed, this`blocks, mem
      ensures !r.Wild? ==> Valid()
      ensures r == Outcome(old(blocks), old(lastAlloc), heapEnd, size)
      ensures r.Payload? ==> Serves(r.addr, size) && memoryUsed == UsedAfter(old(blocks), old(memoryUsed), size)
      ensures r.Null? || r.Panic? ==> blocks == old(blocks) && lastAlloc == old(lastAlloc) && mem[..] == old(mem[..])
      ensures r.Null? || r.Panic? ==> memoryUsed == old(memoryUsed)
    {
      if size == 0 {
        r := Null;
      } else {
        var found := Search(size);
        if found.Some? {
          Reuse(found.value, size, FirstFit(blocks, size));
          r := Payload(found.value + HEADER);
        } else {
          r := AllocateNew(size);
        }
      }
    }

    /** The part of `malloc` behind its loop. */
    method AllocateNew(size: Word) returns (r: Allocation)
      requires Valid() && size > 0 && FirstFit(blocks, size) == |blocks|
      modifies this`lastAlloc, this`memoryUsed, this`blocks, mem
      ensures !r.Wild? ==> Valid()
      ensures r == Outcome(old(blocks), old(lastAlloc), heapEnd, size)
      ensures r.Payload? ==> Serves(r.addr, size) && memoryUsed == UsedAfter(old(blocks), old(memoryUsed), size)
      ensures r.Panic? ==> blocks == old(blocks) && lastAlloc == old(lastAlloc) && mem[..] == old(mem[..])
      ensures r.Panic? ==> memoryUsed == old(memoryUsed)
    {
      if ToWord(lastAlloc + size + HEADER) >= heapEnd {
        r := Panic;
      } else if lastAlloc + size + HEADER >= TWO_TO_THE_32 {
        r := Wild;
      } else {
        r := Payload(lastAlloc + HEADER);
        Extend(size);
      }
    }

    /** A live block at payload address `addr` with room for `n` bytes, all of them zero. */
    ghost predicate ZeroedBlockAt(addr: nat, n: nat)
      reads this, mem
    {
      && HasLive(blocks, addr, n)
      && addr + n <= mem.Length
      && forall a :: addr <= a < addr + n ==> mem[a] == 0
    }

    /**
     `calloc`: a block for `num * size` bytes, reduced modulo 2^32, zero throughout. It clears `size` bytes again, which
     leaves the block only if the product wraps and the block is smaller than that.
     */
    method Calloc(num: Word, size: Word) returns (r: Allocation)
      requires Valid()
      modifies this`lastAlloc, this`memoryUsed, this`blocks, mem
      ensures !r.Wild? ==> Valid()
      ensures var total := ToWord(Times(num, size));
        && r == Cleared(Outcome(old(blocks), old(lastAlloc), heapEnd, total), size, RoomOf(old(blocks), total))
        && (r.Payload? ==> blocks == BlocksAfter(old(blocks), old(lastAlloc), total))
        && (r.Payload? ==> memoryUsed == UsedAfter(old(blocks), old(memoryUsed), total))
        && (r.Payload? ==> ZeroedBlockAt(r.addr, Max(total, size)) && LivePayloadsKept(old(blocks), old(mem[..]), mem[..]))
    {
      r := MallocAndClear(ToWord(Times(num, size)), size);
    }

    /** The body of `calloc`. The size of the block is in its header. */
    method MallocAndClear(total: Word, size: Word) returns (r: Allocation)
      requires Valid()
      modifies this`lastAlloc, this`memoryUsed, this`blocks, mem
      ensures !r.Wild? ==> Valid()
      ensures r == Cleared(Outcome(old(blocks), old(lastAlloc), heapEnd, total), size, RoomOf(old(blocks), total))
      ensures r.Payload? ==> blocks == BlocksAfter(old(blocks), old(lastAlloc), total)
      ensures r.Payload? ==> memoryUsed == UsedAfter(old(blocks), old(memoryUsed), total)
      ensures r.Payload? ==> ZeroedBlockAt(r.addr, Max(total, size)) && LivePayloadsKept(old(blocks), old(mem[..]), mem[..])
    {
      ghost var before, last, m := blocks, lastAlloc, mem[..];
      r := Malloc(total);
      if r.Payload? {
        r := ClearServed(r.addr, total, size, before, last, m);
      }
    }

    /** The part of `calloc` behind `malloc`, which has served `total` bytes at `addr`. */
    method ClearServed(addr: nat, total: Word, size: Word, ghost before: seq<Block>, ghost last: nat, ghost m: seq<Byte>)
      returns (r: Allocation)
      requires Valid() && blocks == BlocksAfter(before, last, total) && Outcome(before, last, heapEnd, total) == Payload(addr)
      requires Chained(before, heapBegin, last) && LivePayloadsKept(before, m, mem[..])
      requires addr >= HEADER && Written(m, mem[..], addr - HEADER, total)
      modifies mem
      ensures !r.Wild? ==> Valid()
      ensures r == Cleared(Payload(addr), size, RoomOf(before, total))
      ensures r.Payload? ==> ZeroedBlockAt(addr, Max(total, size)) && LivePayloadsKept(before, m, mem[..])
    {
      ghost var mid := mem[..];
      OutcomeIs(before, last, heapEnd, total);
      r := ClearBlock(addr, size, FirstFit(before, total));
      if r.Payload? {
        OutcomeIsLive(before, last, heapEnd, total, Max(total, size));
        ClearedIs(before, heapBegin, last, m, mid, mem[..], addr, total, size);
      }
    }

    /** `memset(ptr, 0, size)` on a block in use. */
    method ClearBlock(addr: nat, size: Word, ghost k: nat) returns (r: Allocation)
      requires Valid() && k < |blocks| && blocks[k].live && blocks[k].Payload() == addr
      modifies mem
      ensures r == if size <= blocks[k].size then Payload(addr) else Wild
      ensures r.Payload? ==> Valid() && Wiped(old(mem[..]), mem[..], addr, size)
    {
      assert HeaderIs(mem[..], blocks[k]);
      r := Wild;
      if size <= ReadWord(mem[..], addr - HEADER + 4) {
        ghost var m := mem[..];
        Clear(addr, size);
        StatusKeepsHeaders(m, mem[..], blocks, heapBegin, lastAlloc, k, true);
        assert blocks[k := blocks[k].(live := true)] == blocks;
        r := Payload(addr);
      }
    }

    /** The status byte of a block is set, and the start of its payload cleared. */
    method MarkAndClear(at: nat, size: nat)
      requires at + HEADER + size <= mem.Length
      modifies mem
      ensures Written(old(mem[..]), mem[..], at, size) && SizeKept(old(mem[..]), mem[..], at) && mem[..][at] != 0
    {
      mem[at] := 1;
      Clear(at + HEADER, size);
    }

    /** The payload of a block whose header has been written is cleared. */
    method ClearPayload(at: nat, size: Word, ghost m: seq<Byte>)
      requires at + HEADER + size <= mem.Length && HeaderIs(mem[..], Block(at, size, true)) && Written(m, mem[..], at, 0)
      modifies mem
      ensures Written(m, mem[..], at, size) && HeaderIs(mem[..], Block(at, size, true))
    {
      ghost var mid := mem[..];
      Clear(at + HEADER, size);
      SameBytesSameHeader(mid, mem[..], Block(at, size, true));
    }

    /** The branch of `malloc` that takes a freed block. */
    method Reuse(at: nat, size: Word, ghost k: nat)
      requires Valid() && k < |blocks| && blocks[k].addr == at && !blocks[k].live && 0 < size <= blocks[k].size
      requires k == FirstFit(blocks, size)
      modifies this`memoryUsed, this`blocks, mem
      ensures Valid() && lastAlloc == old(lastAlloc) && Serves(at + HEADER, size)
      ensures memoryUsed == More(old(memoryUsed), size, 8)
    {
      ghost var m := mem[..];
      MarkAndClear(at, size);
      memoryUsed := More(memoryUsed, size, HEADER);
      ReuseKeeps(m, mem[..], blocks, heapBegin, lastAlloc, k, size);
      blocks := blocks[k := blocks[k].(live := true)];
    }

    /** The branch of `malloc` that takes fresh space. */
    method Extend(size: Word)
      requires Valid() && size > 0 && lastAlloc + size + HEADER < heapEnd && FirstFit(blocks, size) == |blocks|
      modifies this`lastAlloc, this`memoryUsed, this`blocks, mem
      ensures Valid() && Serves(old(lastAlloc) + HEADER, size)
      ensures memoryUsed == More(old(memoryUsed), size, 12)
    {
      var alloc := lastAlloc;
      ghost var m := mem[..];
      WriteHeader(alloc, size);
      lastAlloc := lastAlloc + size;
      lastAlloc := lastAlloc + HEADER;
      lastAlloc := lastAlloc + GAP;
      memoryUsed := More(memoryUsed, size, 4 + HEADER);
      ClearPayload(alloc, size, m);
      ExtendKeeps(m, mem[..], blocks, heapBegin, alloc, heapEnd, size);
      blocks := blocks + [Block(alloc, size, true)];
    }

    /** `free` of a live payload: only its status byte changes. */
    method Free(ptr: nat, ghost k: nat)
      requires Valid() && k < |blocks| && blocks[k].live && blocks[k].Payload() == ptr
      modifies this`memoryUsed, this`blocks, mem
      ensures Valid() && lastAlloc == old(lastAlloc)
      ensures blocks == old(blocks)[k := old(blocks)[k].(live := false)]
      ensures OnlyChanged(ptr - HEADER, ptr - HEADER + 1)
      ensures memoryUsed == UsedLess(old(memoryUsed), old(blocks)[k].size)
    {
      var alloc := ptr - HEADER;
      assert HeaderIs(mem[..], blocks[k]);
      memoryUsed := UsedLess(memoryUsed, ReadWord(mem[..], alloc + 4));
      mem[alloc] := 0;
      StatusKeepsHeaders(old(mem[..]), mem[..], blocks, heapBegin, lastAlloc, k, false);
      blocks := blocks[k := blocks[k].(live := false)];
    }

    /** A client writes a byte of a live payload of its own. */
    method ClientStore(ghost k: nat, at: nat, value: Byte)
      requires Valid() && k < |blocks| && blocks[k].live && blocks[k].Payload() <= at < blocks[k].End()
      modifies mem
      ensures Valid()
      ensures mem[..] == old(mem[..])[at := value]
    {
      mem[at] := value;
      PayloadKeepsHeaders(old(mem[..]), mem[..], blocks, heapBegin, lastAlloc, k, at);
    }

    /** The first block holds the page table: one byte for each page-aligned page. */
    ghost predicate HasPageTable()
      reads this
    {
      heapEnd == PHEAP_BEGIN && blocks != [] && blocks[0] == Block(heapBegin, MAXPAGEALIGNEDALLOC, true)
    }

    function PageInUse(i: nat): bool
      requires i < MAXPAGEALIGNEDALLOC && heapBegin + HEADER + MAXPAGEALIGNEDALLOC <= mem.Length
      reads mem
    {
      mem[heapBegin + HEADER + i] != 0
    }

    /** `mmInit`: an empty heap after the kernel image, and the page table as its first block. */
    constructor (memory: array<Byte>, kernelEnd: Word)
      requires memory.Length == PHEAP_END
      requires kernelEnd + PAGE + HEADER + MAXPAGEALIGNEDALLOC < PHEAP_BEGIN
      modifies memory
      ensures Valid() && HasPageTable() && |blocks| == 1
      ensures mem == memory && heapBegin == kernelEnd + 0x1000 && heapEnd == 0x3E_0000
      ensures blocks == [Block(heapBegin, 32, true)] && lastAlloc == heapBegin + 44 && memoryUsed == 44
      ensures forall i :: 0 <= i < MAXPAGEALIGNEDALLOC ==> !PageInUse(i)
    {
      mem := memory;
      lastAlloc := kernelEnd + PAGE;
      heapBegin := kernelEnd + PAGE;
      heapEnd := PHEAP_BEGIN;
      memoryUsed := 0;
      blocks := [];
      new;
      Clear(heapBegin, heapEnd - heapBegin);
      var table := Malloc(MAXPAGEALIGNEDALLOC);
    }

    /** `pmalloc`: the first page not in use; 0 when all are. */
    method PMalloc() returns (page: nat)
      requires Valid() && HasPageTable()
      modifies mem
      ensures Valid() && HasPageTable()
      ensures page == 0 ==> mem[..] == old(mem[..]) && forall i :: 0 <= i < MAXPAGEALIGNEDALLOC ==> PageInUse(i)
      ensures page != 0 ==> 0x3E_0000 <= page < 0x40_0000 && page % 0x1000 == 0
      ensures page != 0 ==> var i := (page - 0x3E_0000) / 0x1000;
        && !old(PageInUse(i))
        && (forall n :: 0 <= n < i ==> old(PageInUse(n)))
        && mem[..] == old(mem[..])[heapBegin + 8 + i := 1]
    {
      assert blocks[0].Next() <= lastAlloc by { InBounds(blocks, heapBegin, lastAlloc, 0); }
      var i := 0;
      while i < MAXPAGEALIGNEDALLOC
        modifies {}
        invariant 0 <= i <= MAXPAGEALIGNEDALLOC
        invariant forall n :: 0 <= n < i ==> PageInUse(n)
      {
        if !PageInUse(i) {
          break;
        }
        i := i + 1;
      }
      if i == MAXPAGEALIGNEDALLOC {
        return 0;
      }
      mem[heapBegin + HEADER + i] := 1;
      PayloadKeepsHeaders(old(mem[..]), mem[..], blocks, heapBegin, lastAlloc, 0, heapBegin + HEADER + i);
      return PHEAP_BEGIN + i * PAGE;
    }

    /**
     `pfree`: releases the page an address lies in. The address PHEAP_END passes the range check and
     clears entry 32, one byte after the table; that byte lies in the gap after the block.
     */
    method PFree(page: Word)
      requires Valid() && HasPageTable()
      modifies mem
      ensures Valid() && HasPageTable()
      ensures mem[..] == if page < 0x3E_0000 || page > 0x40_0000 then old(mem[..])
                         else old(mem[..])[heapBegin + 8 + (page - 0x3E_0000) / 0x1000 := 0]
    {
      if page < PHEAP_BEGIN || page > PHEAP_END {
        return;
      }
      assert blocks[0].Next() <= lastAlloc by { InBounds(blocks, heapBegin, lastAlloc, 0); }
      var ad := (page - PHEAP_BEGIN) / PAGE;
      mem[heapBegin + HEADER + ad] := 0;
      PayloadKeepsHeaders(old(mem[..]), mem[..], blocks, heapBegin, lastAlloc, 0, heapBegin + HEADER + ad);
    }
  }

  /**
   What every reachable heap looks like: the walk over sizes meets exactly the blocks, no two blocks share a byte,
   and every payload ends below the end of the heap.
   */
  lemma Layout(h: Heap)
    requires h.Valid()
    ensures Walk(h.mem[..], h.heapBegin, h.lastAlloc) == (Addresses(h.blocks), h.lastAlloc)
    ensures forall i, j :: 0 <= i < j < |h.blocks| ==> h.blocks[i].End() + GAP <= h.blocks[j].addr
    ensures forall i :: 0 <= i < |h.blocks| ==> h.heapBegin <= h.blocks[i].addr && h.blocks[i].End() < h.heapEnd
  {
    WalkMeetsBlocks(h.mem[..], h.blocks, h.heapBegin, h.lastAlloc);
    forall i, j | 0 <= i < j < |h.blocks| ensures h.blocks[i].End() + GAP <= h.blocks[j].addr {
      InOrder(h.blocks, h.heapBegin, h.lastAlloc, i, j);
    }
    forall i | 0 <= i < |h.blocks| ensures h.heapBegin <= h.blocks[i].addr {
      InBounds(h.blocks, h.heapBegin, h.lastAlloc, i);
    }
  }
}
