/**
 Where src/kernel/allocator/memory_allocator.c puts its data: behind the kernel's last byte the bitmap, the page
 records, the block descriptors and the heap. The bitmap is given a quarter of the bytes that its bits need, so that
 most of its bits lie in page records.
 */
module AllocatorLayout {
  import opened Machine

  /** sizeof(PageBitmap), which lies in front of the bitmap. */
  const BITMAP_HEADER: nat := 8
  /** sizeof(Page): the first descriptor, the number of blocks, and the process. */
  const RECORD: nat := 12
  /** sizeof(HeapBlock). */
  const DESCRIPTOR: nat := 12
  /** PAGE_BLOCKSPACE, meant as bytes; where it is added to a `HeapBlock *` it counts descriptors. */
  const BLOCK_SPACE: nat := 3072
  const PAGE_SIZE: nat := 4096

  /** All of memory. */
  type Space = m: seq<Byte> | |m| == TWO_TO_THE_32 witness seq(TWO_TO_THE_32, _ => 0)

  /** `__minPages__` and the address of `__end`. */
  datatype Layout = Layout(n: nat, end: nat) {
    /** There is a page, and the descriptors of all pages have addresses. */
    predicate Valid() {
      n > 0 && DescriptorAt(n, 0) + DESCRIPTOR <= TWO_TO_THE_32
    }

    function Bitmap(): nat { end + BITMAP_HEADER }

    /** `minPage / 32` bytes are set aside for the bitmap, and one more byte is skipped. */
    function BitmapBytes(): nat { n / 32 + 1 }

    function RecordAt(p: nat): nat { Bitmap() + BitmapBytes() + RECORD * p }

    /** `PGROUNDUP(&pages[num_pages - 1])`. */
    function FirstBlock(): nat
      requires n > 0
    {
      (RecordAt(n - 1) + PAGE_SIZE - 1) / PAGE_SIZE * PAGE_SIZE
    }

    /** Slot `s` of page `p`: `FirstBlock + (p + 1) * PAGE_BLOCKSPACE + s`, in units of descriptors. */
    function DescriptorAt(p: nat, s: nat): nat
      requires n > 0
    {
      FirstBlock() + DESCRIPTOR * (BLOCK_SPACE * (p + 1) + s)
    }

    /** The start of the heap, PAGE_BLOCKSPACE bytes for each page and once more behind `FirstBlock`. */
    function HeapBase(): nat
      requires n > 0
    {
      FirstBlock() + BLOCK_SPACE * (n + 1)
    }

    /** The bits that lie in the bytes set aside for the bitmap. */
    function OwnBits(): nat {
      if 8 * BitmapBytes() < n then 8 * BitmapBytes() else n
    }

    /** The byte that bit `q` lies in; the word that the code reads has it as its byte `q % 32 / 8`. */
    function ByteOf(q: nat): nat { Bitmap() + q / 8 }

    lemma InOrder()
      requires Valid()
      ensures RecordAt(n) <= DescriptorAt(0, 0) && RecordAt(n) <= HeapBase()
      ensures forall q :: 0 <= q < n ==> Bitmap() <= ByteOf(q) < RecordAt(n)
      ensures RecordAt(n) <= TWO_TO_THE_32
    {
    }
  }

  /**
   The addresses by their numbers: the bitmap 8 bytes behind the kernel, a record of 12 bytes for each page, and behind the
   next page boundary descriptors of 12 bytes, 36864 bytes apart for each page, and data.
   */
  lemma AddressesAre(l: Layout, p: nat, s: nat)
    requires l.n > 0
    ensures l.ByteOf(p) == l.end + 8 + p / 8 && l.RecordAt(p) == l.end + 9 + l.n / 32 + 12 * p
    ensures l.FirstBlock() % 4096 == 0 && l.RecordAt(l.n - 1) <= l.FirstBlock() < l.RecordAt(l.n - 1) + 4096
    ensures l.DescriptorAt(p, s) == l.FirstBlock() + 36864 * (p + 1) + 12 * s
    ensures l.HeapBase() == l.FirstBlock() + 3072 * (l.n + 1)
    ensures l.OwnBits() == if l.n < 8 * (l.n / 32 + 1) then l.n else 8 * (l.n / 32 + 1)
  {
  }

  /** A bit shares its byte with a page record exactly if it is not one of the bitmap's own. */
  lemma SharesRecordExactly(l: Layout, q: nat)
    requires l.Valid() && q < l.n
    ensures (exists p: nat :: p < l.n && l.RecordAt(p) <= l.ByteOf(q) < l.RecordAt(p + 1)) <==> l.OwnBits() <= q
  {
    if l.OwnBits() <= q {
      var p := SharedRecord(l, q);
      assert l.RecordAt(p) <= l.ByteOf(q) < l.RecordAt(p + 1);
    }
  }

  /** The record that bit `q` lies in. */
  function SharedRecord(l: Layout, q: nat): (p: nat)
    requires l.OwnBits() <= q < l.n
    ensures p < q && l.RecordAt(p) <= l.ByteOf(q) < l.RecordAt(p + 1)
  {
    (q / 8 - l.BitmapBytes()) / RECORD
  }

  /** Every bit is the bitmap's own only for at most eight pages. */
  lemma AllOwnExactly(l: Layout)
    ensures l.OwnBits() == l.n <==> l.n <= 8
  {
  }

  /** Bit `k` of a byte. */
  predicate BitOf(b: nat, k: nat) {
    if k == 0 then b % 2 == 1 else BitOf(b / 2, k - 1)
  }

  function WithBitOf(b: nat, k: nat, on: bool): nat {
    if k == 0 then b / 2 * 2 + (if on then 1 else 0) else WithBitOf(b / 2, k - 1, on) * 2 + b % 2
  }

  function Power(k: nat): (r: nat)
    ensures r > 0
  {
    if k == 0 then 1 else 2 * Power(k - 1)
  }

  lemma {:induction false} WithBitOfFits(b: nat, k: nat, on: bool, width: nat)
    requires k < width && b < Power(width)
    ensures WithBitOf(b, k, on) < Power(width)
    decreases k
  {
    if k > 0 {
      WithBitOfFits(b / 2, k - 1, on, width - 1);
    }
  }

  lemma {:induction false} WithBitOfIs(b: nat, k: nat, on: bool, j: nat)
    ensures BitOf(WithBitOf(b, k, on), j) == if j == k then on else BitOf(b, j)
    decreases k
  {
    if k > 0 && j > 0 {
      WithBitOfIs(b / 2, k - 1, on, j - 1);
    }
  }

  lemma {:induction false} BitOfPlain(width: nat, k: nat)
    requires k < width
    ensures !BitOf(0, k) && BitOf(Power(width) - 1, k)
    decreases k
  {
    var half := Power(width - 1);
    assert Power(width) - 1 == 2 * (half - 1) + 1;
    if k > 0 {
      BitOfPlain(width - 1, k - 1);
    }
  }

  /** `x`, `n` bits further up. */
  function Shifted(x: nat, n: nat): nat {
    if n == 0 then x else 2 * Shifted(x, n - 1)
  }

  lemma {:induction false} LowBits(b: nat, n: nat, x: nat, k: nat)
    requires k < n
    ensures BitOf(b + Shifted(x, n), k) == BitOf(b, k)
    decreases n
  {
    if k > 0 {
      LowBits(b / 2, n - 1, x, k - 1);
    }
  }

  lemma {:induction false} HighBits(b: nat, n: nat, x: nat, k: nat)
    requires b < Power(n)
    ensures BitOf(b + Shifted(x, n), n + k) == BitOf(x, k)
    decreases n
  {
    if n > 0 {
      HighBits(b / 2, n - 1, x, k);
    }
  }

  lemma ShiftedByte(x: nat)
    ensures Shifted(x, 8) == 256 * x && Power(8) == 256
  {
    assert Shifted(x, 1) == 2 * x;
    assert Shifted(x, 2) == 4 * x;
    assert Shifted(x, 4) == 16 * x;
    assert Shifted(x, 6) == 64 * x;
    assert Power(8) == 256;
  }

  /** The bits of a number are those of its lowest byte, and then those of the rest. */
  lemma BitOfBytes(b: Byte, x: nat, k: nat)
    ensures BitOf(b + 256 * x, k) == if k < 8 then BitOf(b, k) else BitOf(x, k - 8)
  {
    ShiftedByte(x);
    if k < 8 {
      LowBits(b, 8, x, k);
    } else {
      HighBits(b, 8, x, k - 8);
    }
  }

  /** Bit `k` of the word at `a` is a bit of one of its bytes. */
  lemma BitOfWord(m: Space, a: nat, k: nat)
    requires a + 4 <= TWO_TO_THE_32 && k < 32
    ensures BitOf(ReadWord(m, a), k) == BitOf(m[a + k / 8], k % 8)
  {
    var b0: Byte, b1: Byte, b2: Byte, b3: Byte := m[a], m[a + 1], m[a + 2], m[a + 3];
    var x2 := b2 as int + 256 * b3 as int;
    var x1 := b1 as int + 256 * x2;
    assert ReadWord(m, a) == b0 as int + 256 * x1;
    BitOfBytes(b0, x1, k);
    if k >= 8 {
      BitOfBytes(b1, x2, k - 8);
    }
    if k >= 16 {
      BitOfBytes(b2, b3, k - 16);
    }
  }

  /** A byte with one bit set or cleared. */
  function WithBitOfByte(b: Byte, k: nat, on: bool): Byte
    requires k < 8
  {
    assert Power(8) == 0x100;
    WithBitOfFits(b, k, on, 8);
    WithBitOf(b, k, on)
  }

  /** `is_bit_set`. */
  predicate Marked(l: Layout, m: Space, q: nat)
    requires l.Valid() && q < l.n
  {
    l.InOrder();
    BitOf(m[l.ByteOf(q)], q % 8)
  }

  /** It is the bit that the code reads: bit `q % 32` of word `q / 32` of the bitmap. */
  lemma MarkedInWord(l: Layout, m: Space, q: nat)
    requires l.Valid() && q < l.n && l.end + 8 + 4 * (q / 32) + 4 <= TWO_TO_THE_32
    ensures Marked(l, m, q) <==> BitOf(ReadWord(m, l.end + 8 + 4 * (q / 32)), q % 32)
  {
    BitOfWord(m, l.end + 8 + 4 * (q / 32), q % 32);
    assert q / 8 == 4 * (q / 32) + q % 32 / 8 && q % 32 % 8 == q % 8;
  }

  /** Memory after `set_bit` or `clear_bit`. */
  function WithMark(l: Layout, m: Space, q: nat, on: bool): Space
    requires l.Valid() && q < l.n
  {
    l.InOrder();
    m[l.ByteOf(q) := WithBitOfByte(m[l.ByteOf(q)], q % 8, on)]
  }

  /** Only bytes from `lo` up to `hi` differ. */
  ghost predicate OnlyIn(m: Space, m': Space, lo: int, hi: int) {
    forall a :: 0 <= a < TWO_TO_THE_32 && !(lo <= a < hi) ==> m'[a] == m[a]
  }

  lemma WithMarkIs(l: Layout, m: Space, q: nat, on: bool, r: nat)
    requires l.Valid() && q < l.n && r < l.n
    ensures Marked(l, WithMark(l, m, q, on), r) == if r == q then on else Marked(l, m, r)
  {
    l.InOrder();
    if l.ByteOf(r) == l.ByteOf(q) {
      WithBitOfIs(m[l.ByteOf(q)], q % 8, on, r % 8);
    }
  }

  lemma WithMarkOnlyIn(l: Layout, m: Space, q: nat, on: bool)
    requires l.Valid() && q < l.n
    ensures OnlyIn(m, WithMark(l, m, q, on), l.ByteOf(q), l.ByteOf(q) + 1)
  {
  }

  /** The number of marked pages below `k`. */
  function CountMarked(l: Layout, m: Space, k: nat): (c: nat)
    requires l.Valid() && k <= l.n
    ensures c <= k
  {
    if k == 0 then 0 else CountMarked(l, m, k - 1) + if Marked(l, m, k - 1) then 1 else 0
  }

  /** The marks of all pages below `k` are the same, but for page `p`. */
  ghost predicate MarksKept(l: Layout, m: Space, m': Space, k: nat, p: int)
    requires l.Valid() && k <= l.n
  {
    forall q: nat :: q < k && q != p ==> Marked(l, m', q) == Marked(l, m, q)
  }

  /** One bit more or less changes the count by one. */
  lemma {:induction false} CountAfterFlip(l: Layout, m: Space, m': Space, p: int, k: nat)
    requires l.Valid() && k <= l.n && MarksKept(l, m, m', k, p)
    ensures CountMarked(l, m', k) == CountMarked(l, m, k) +
      if 0 <= p < k && Marked(l, m', p) != Marked(l, m, p) then (if Marked(l, m', p) then 1 else -1) else 0
  {
    if k > 0 {
      CountAfterFlip(l, m, m', p, k - 1);
    }
  }

  /** The first page from `q` on that is not marked. */
  function FirstClear(l: Layout, m: Space, q: nat): (r: Option<nat>)
    requires l.Valid() && q <= l.n
    ensures r.None? ==> forall k: nat :: q <= k < l.n ==> Marked(l, m, k)
    ensures r.Some? ==> q <= r.value < l.n && !Marked(l, m, r.value) && forall k: nat :: q <= k < r.value ==> Marked(l, m, k)
    decreases l.n - q
  {
    if q == l.n then None else if !Marked(l, m, q) then Some(q) else FirstClear(l, m, q + 1)
  }

  /** Fewer than `k` marked pages below `k` leave one that is not. */
  lemma {:induction false} SomeClear(l: Layout, m: Space, k: nat) returns (q: nat)
    requires l.Valid() && k <= l.n && CountMarked(l, m, k) < k
    ensures q < k && !Marked(l, m, q)
  {
    if Marked(l, m, k - 1) {
      q := SomeClear(l, m, k - 1);
    } else {
      q := k - 1;
    }
  }

  lemma {:induction false} AllMarked(l: Layout, m: Space, k: nat, q: nat)
    requires l.Valid() && q < k <= l.n && CountMarked(l, m, k) == k
    ensures Marked(l, m, q)
  {
    if q < k - 1 {
      AllMarked(l, m, k - 1, q);
    }
  }

  /** Memory after a word is stored. */
  function WithWord(m: Space, a: nat, w: Word): (r: Space)
    requires a + 4 <= TWO_TO_THE_32
  {
    var (b0, b1, b2, b3) := BytesOf(w);
    m[a := b0][a + 1 := b1][a + 2 := b2][a + 3 := b3]
  }

  lemma WithWordIs(m: Space, a: nat, w: Word)
    requires a + 4 <= TWO_TO_THE_32
    ensures ReadWord(WithWord(m, a, w), a) == w && OnlyIn(m, WithWord(m, a, w), a, a + 4)
  {
    WordBytes(w);
  }

  /** A word apart from what has changed is the same. */
  lemma WordKept(m: Space, m': Space, lo: int, hi: int, a: nat)
    requires OnlyIn(m, m', lo, hi) && a + 4 <= TWO_TO_THE_32 && (a + 4 <= lo || hi <= a)
    ensures ReadWord(m', a) == ReadWord(m, a)
  {
  }

  /** Three words: a page record, or a block descriptor. */
  datatype Triple = Triple(first: Word, second: Word, third: Word)

  function TripleAt(m: Space, a: nat): Triple
    requires a + 12 <= TWO_TO_THE_32
  {
    Triple(ReadWord(m, a), ReadWord(m, a + 4), ReadWord(m, a + 8))
  }

  function WithTriple(m: Space, a: nat, t: Triple): Space
    requires a + 12 <= TWO_TO_THE_32
  {
    WithWord(WithWord(WithWord(m, a, t.first), a + 4, t.second), a + 8, t.third)
  }

  lemma TripleKept(m: Space, m': Space, lo: int, hi: int, a: nat)
    requires OnlyIn(m, m', lo, hi) && a + 12 <= TWO_TO_THE_32 && (a + 12 <= lo || hi <= a)
    ensures TripleAt(m', a) == TripleAt(m, a)
  {
    WordKept(m, m', lo, hi, a);
    WordKept(m, m', lo, hi, a + 4);
    WordKept(m, m', lo, hi, a + 8);
  }

  lemma WithTripleIs(m: Space, a: nat, t: Triple)
    requires a + 12 <= TWO_TO_THE_32
    ensures TripleAt(WithTriple(m, a, t), a) == t && OnlyIn(m, WithTriple(m, a, t), a, a + 12)
  {
    var m1 := WithWord(m, a, t.first);
    var m2 := WithWord(m1, a + 4, t.second);
    var m3 := WithWord(m2, a + 8, t.third);
    WithWordIs(m, a, t.first);
    WithWordIs(m1, a + 4, t.second);
    WithWordIs(m2, a + 8, t.third);
    WordKept(m1, m2, a + 4, a + 8, a);
    WordKept(m2, m3, a + 8, a + 12, a);
    WordKept(m2, m3, a + 8, a + 12, a + 4);
  }

  /** A change of one of three words. */
  lemma WordOfTriple(m: Space, a: nat, w: Word)
    requires a + 12 <= TWO_TO_THE_32
    ensures TripleAt(WithWord(m, a, w), a) == TripleAt(m, a).(first := w)
    ensures TripleAt(WithWord(m, a + 4, w), a) == TripleAt(m, a).(second := w)
    ensures TripleAt(WithWord(m, a + 8, w), a) == TripleAt(m, a).(third := w)
  {
    WithWordIs(m, a, w);
    WithWordIs(m, a + 4, w);
    WithWordIs(m, a + 8, w);
    WordKept(m, WithWord(m, a, w), a, a + 4, a + 4);
    WordKept(m, WithWord(m, a, w), a, a + 4, a + 8);
    WordKept(m, WithWord(m, a + 4, w), a + 4, a + 8, a);
    WordKept(m, WithWord(m, a + 4, w), a + 4, a + 8, a + 8);
    WordKept(m, WithWord(m, a + 8, w), a + 8, a + 12, a);
    WordKept(m, WithWord(m, a + 8, w), a + 8, a + 12, a + 4);
  }

  /** Stores to different words may change places. */
  lemma StoresCommute(m: Space, a: nat, v: Word, b: nat, w: Word)
    requires a + 4 <= b && b + 4 <= TWO_TO_THE_32
    ensures WithWord(WithWord(m, a, v), b, w) == WithWord(WithWord(m, b, w), a, v)
  {
  }

  /** The record of page `p`: its first descriptor, its number of blocks, and its process. */
  function Record(l: Layout, m: Space, p: nat): Triple
    requires l.Valid() && p < l.n
  {
    l.InOrder();
    TripleAt(m, l.RecordAt(p))
  }

  /** Descriptor `s` of page `p`: size, next descriptor, and data. */
  function Descriptor(l: Layout, m: Space, p: nat, s: nat): Triple
    requires l.Valid() && p < l.n && s <= BLOCK_SPACE
  {
    TripleAt(m, l.DescriptorAt(p, s))
  }

  /** Page `q` looks the same: its record, its mark if that is one of the bitmap's own, and its descriptors. */
  ghost predicate PageSame(l: Layout, m: Space, m': Space, q: nat)
    requires l.Valid() && q < l.n
  {
    && Record(l, m', q) == Record(l, m, q)
    && (q < l.OwnBits() ==> Marked(l, m', q) == Marked(l, m, q))
    && forall s :: DescriptorSame(l, m, m', q, s)
  }

  ghost predicate DescriptorSame(l: Layout, m: Space, m': Space, q: nat, s: int)
    requires l.Valid() && q < l.n
  {
    0 <= s < BLOCK_SPACE ==> Descriptor(l, m', q, s) == Descriptor(l, m, q, s)
  }

  /** What is stored in the record of page `p` is seen by no other page, and by no descriptor and no own bit. */
  lemma RecordStore(l: Layout, m: Space, m': Space, p: nat, q: nat)
    requires l.Valid() && p < l.n && q < l.n && OnlyIn(m, m', l.RecordAt(p), l.RecordAt(p) + RECORD)
    ensures q != p ==> PageSame(l, m, m', q)
    ensures q < l.OwnBits() ==> Marked(l, m', q) == Marked(l, m, q)
    ensures forall s :: DescriptorSame(l, m, m', q, s)
  {
    l.InOrder();
    var lo, hi := l.RecordAt(p), l.RecordAt(p) + RECORD;
    forall s ensures DescriptorSame(l, m, m', q, s) {
      if 0 <= s < BLOCK_SPACE {
        TripleKept(m, m', lo, hi, l.DescriptorAt(q, s));
      }
    }
    if q != p {
      TripleKept(m, m', lo, hi, l.RecordAt(q));
    }
  }

  /** What is stored in a descriptor of page `p` is seen by no other page, record, mark or descriptor. */
  lemma DescriptorStore(l: Layout, m: Space, m': Space, p: nat, s: nat, q: nat)
    requires l.Valid() && p < l.n && q < l.n && s < BLOCK_SPACE
    requires OnlyIn(m, m', l.DescriptorAt(p, s), l.DescriptorAt(p, s) + DESCRIPTOR)
    ensures q != p ==> PageSame(l, m, m', q)
    ensures Record(l, m', q) == Record(l, m, q) && (q < l.OwnBits() ==> Marked(l, m', q) == Marked(l, m, q))
    ensures forall t :: q != p || t != s ==> DescriptorSame(l, m, m', q, t)
  {
    l.InOrder();
    var lo, hi := l.DescriptorAt(p, s), l.DescriptorAt(p, s) + DESCRIPTOR;
    TripleKept(m, m', lo, hi, l.RecordAt(q));
    forall t | q != p || t != s ensures DescriptorSame(l, m, m', q, t) {
      if 0 <= t < BLOCK_SPACE {
        DescriptorsApart(l, p, s, q, t);
        TripleKept(m, m', lo, hi, l.DescriptorAt(q, t));
      }
    }
  }

  lemma DescriptorsApart(l: Layout, p: nat, s: nat, q: nat, t: nat)
    requires l.n > 0 && s < BLOCK_SPACE && t < BLOCK_SPACE && (p != q || s != t)
    ensures l.DescriptorAt(p, s) + DESCRIPTOR <= l.DescriptorAt(q, t) || l.DescriptorAt(q, t) + DESCRIPTOR <= l.DescriptorAt(p, s)
  {
  }

  /** A change of one of the bitmap's own bits is seen by no other page, and by no record and no descriptor. */
  lemma OwnBitStore(l: Layout, m: Space, p: nat, on: bool, q: nat)
    requires l.Valid() && p < l.OwnBits() && q < l.n
    ensures q != p ==> PageSame(l, m, WithMark(l, m, p, on), q)
    ensures Record(l, WithMark(l, m, p, on), q) == Record(l, m, q)
    ensures forall s :: DescriptorSame(l, m, WithMark(l, m, p, on), q, s)
  {
    l.InOrder();
    var m', at := WithMark(l, m, p, on), l.ByteOf(p);
    WithMarkOnlyIn(l, m, p, on);
    WithMarkIs(l, m, p, on, q);
    TripleKept(m, m', at, at + 1, l.RecordAt(q));
    forall s ensures DescriptorSame(l, m, m', q, s) {
      if 0 <= s < BLOCK_SPACE {
        TripleKept(m, m', at, at + 1, l.DescriptorAt(q, s));
      }
    }
  }
}
