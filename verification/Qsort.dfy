/**
 `qsort` and `qsort_internal` of src/kernel/stdlib.c: a Hoare partition on byte records,
 whose pivot is a pointer to the first record, so that the first swap changes its value,
 and whose bounds are `size_t`, so that `i - 1` wraps when `i` is 0.
 */
module Qsort {
  import opened Machine

  type Record = seq<Byte>
  type Comparator = (Record, Record) -> int

  /** `a` may stand before `b`: the comparator does not put `b` strictly first. */
  ghost predicate Le(compar: Comparator, a: Record, b: Record) {
    !(compar(b, a) < 0)
  }

  ghost predicate TotalPreorder(compar: Comparator) {
    forall a, b, c :: PreorderOn(compar, a, b, c)
  }

  /** Totality and transitivity of `Le` on three records. */
  ghost predicate PreorderOn(compar: Comparator, a: Record, b: Record, c: Record) {
    && (Le(compar, a, b) || Le(compar, b, a))
    && (Le(compar, a, b) && Le(compar, b, c) ==> Le(compar, a, c))
  }

  /** The byte offset of record `k`: `k * size`, written as a sum so that every proof below stays linear. */
  function Offset(k: nat, size: nat): nat {
    if k == 0 then 0 else Offset(k - 1, size) + size
  }

  lemma {:induction false} OffsetIsProduct(k: nat, size: nat)
    ensures Offset(k, size) == k * size
  {
    if k > 0 {
      OffsetIsProduct(k - 1, size);
      assert k * size == (k - 1) * size + size;
    }
  }

  lemma {:induction false} SlotFits(k: nat, num: nat, size: nat)
    requires k < num
    ensures Offset(k, size) + size <= Offset(num, size)
  {
    if k + 1 < num { SlotFits(k, num - 1, size); }
  }

  lemma SlotsApart(i: nat, j: nat, size: nat)
    requires i != j
    ensures Offset(i, size) + size <= Offset(j, size) || Offset(j, size) + size <= Offset(i, size)
  {
    if i < j { SlotFits(i, j, size); } else { SlotFits(j, i, size); }
  }

  /** The `num` records of `size` bytes that lie one after the other in `s`. */
  ghost function Records(s: seq<Byte>, size: nat, num: nat): (rs: seq<Record>)
    requires |s| == Offset(num, size)
    ensures |rs| == num
    decreases num
  {
    if num == 0 then [] else Records(s[..Offset(num - 1, size)], size, num - 1) + [s[Offset(num - 1, size)..]]
  }

  lemma {:induction false} RecordsIndex(s: seq<Byte>, size: nat, num: nat, k: nat)
    requires |s| == Offset(num, size) && k < num
    ensures Offset(k, size) + size <= |s|
    ensures Records(s, size, num)[k] == s[Offset(k, size)..Offset(k, size) + size]
    decreases num
  {
    SlotFits(k, num, size);
    if k < num - 1 {
      var rest := s[..Offset(num - 1, size)];
      RecordsIndex(rest, size, num - 1, k);
      assert rest[Offset(k, size)..Offset(k, size) + size] == s[Offset(k, size)..Offset(k, size) + size];
    }
  }

  ghost predicate SortedBetween(rs: seq<Record>, compar: Comparator, lo: int, hi: int)
    requires 0 <= lo && hi < |rs|
  {
    forall m, n {:trigger Le(compar, rs[m], rs[n])} :: lo <= m < n <= hi ==> Le(compar, rs[m], rs[n])
  }

  /** `rs` rearranges the records lo..hi of `was` and nothing else. */
  ghost predicate Rearranged(was: seq<Record>, rs: seq<Record>, lo: int, hi: int) {
    && |rs| == |was|
    && multiset(rs) == multiset(was)
    && forall k :: 0 <= k < |rs| && !(lo <= k <= hi) ==> rs[k] == was[k]
  }

  lemma CountInParts(rs: seq<Record>, lo: nat, hi: nat, x: Record)
    requires lo <= hi <= |rs|
    ensures multiset(rs)[x] == multiset(rs[..lo])[x] + multiset(rs[lo..hi])[x] + multiset(rs[hi..])[x]
  {
    assert rs == rs[..lo] + rs[lo..hi] + rs[hi..];
  }

  /** Each record of a rearranged range was in that range before. */
  lemma RearrangedFrom(was: seq<Record>, rs: seq<Record>, lo: int, hi: int, k: int) returns (m: int)
    requires 0 <= lo <= k <= hi < |was| && Rearranged(was, rs, lo, hi)
    ensures lo <= m <= hi && rs[k] == was[m]
  {
    CountInParts(was, lo, hi + 1, rs[k]);
    CountInParts(rs, lo, hi + 1, rs[k]);
    assert rs[..lo] == was[..lo] && rs[hi + 1..] == was[hi + 1..];
    assert rs[lo..hi + 1][k - lo] == rs[k];
    var d :| 0 <= d < hi + 1 - lo && was[lo..hi + 1][d] == rs[k];
    m := lo + d;
  }

  /** `now` is `was` with the stretches of `size` bytes at `p` and at `q` exchanged. */
  ghost predicate StretchesSwapped(was: seq<Byte>, now: seq<Byte>, size: nat, p: nat, q: nat) {
    && |was| == |now|
    && p + size <= |was| && q + size <= |was| && (p + size <= q || q + size <= p)
    && (forall b :: p <= b < p + size ==> now[b] == was[b - p + q])
    && (forall b :: q <= b < q + size ==> now[b] == was[b - q + p])
    && (forall b :: 0 <= b < |was| && !(p <= b < p + size) && !(q <= b < q + size) ==> now[b] == was[b])
  }

  lemma SameStretch(was: seq<Byte>, now: seq<Byte>, size: nat, from: nat, b: nat)
    requires b + size <= |now| && from + size <= |was|
    requires forall c :: b <= c < b + size ==> now[c] == was[c - b + from]
    ensures now[b..b + size] == was[from..from + size]
  {
    var s, t := now[b..b + size], was[from..from + size];
    forall k | 0 <= k < size ensures s[k] == t[k] {
      assert s[k] == now[b + k];
    }
  }

  /** A stretch that is one of the two exchanged, or apart from both. */
  lemma StretchAfterSwap(was: seq<Byte>, now: seq<Byte>, size: nat, p: nat, q: nat, b: nat)
    requires StretchesSwapped(was, now, size, p, q)
    requires b + size <= |was|
    requires b == p || b == q || ((b + size <= p || p + size <= b) && (b + size <= q || q + size <= b))
    ensures var from := if b == p then q else if b == q then p else b;
      now[b..b + size] == was[from..from + size]
  {
    SameStretch(was, now, size, if b == p then q else if b == q then p else b, b);
  }

  lemma SameStretchSameRecord(was: seq<Byte>, now: seq<Byte>, size: nat, num: nat, from: nat, m: nat)
    requires |was| == |now| == Offset(num, size) && from < num && m < num
    requires Offset(from, size) + size <= |was| && Offset(m, size) + size <= |was|
    requires now[Offset(m, size)..Offset(m, size) + size] == was[Offset(from, size)..Offset(from, size) + size]
    ensures Records(now, size, num)[m] == Records(was, size, num)[from]
  {
    RecordsIndex(now, size, num, m);
    RecordsIndex(was, size, num, from);
  }

  lemma RecordSwapped(was: seq<Byte>, now: seq<Byte>, size: nat, num: nat, i: nat, j: nat, m: nat)
    requires |was| == Offset(num, size) && i < num && j < num && i != j && size > 0 && m < num
    requires StretchesSwapped(was, now, size, Offset(i, size), Offset(j, size))
    ensures var from := if m == i then j else if m == j then i else m;
      Records(now, size, num)[m] == Records(was, size, num)[from]
  {
    var p, q, b := Offset(i, size), Offset(j, size), Offset(m, size);
    SlotFits(m, num, size);
    if m == i {
      StretchAfterSwap(was, now, size, p, q, p);
      SameStretchSameRecord(was, now, size, num, j, m);
    } else if m == j {
      SlotsApart(m, i, size);
      StretchAfterSwap(was, now, size, p, q, q);
      SameStretchSameRecord(was, now, size, num, i, m);
    } else {
      SlotsApart(m, i, size);
      SlotsApart(m, j, size);
      StretchAfterSwap(was, now, size, p, q, b);
      SameStretchSameRecord(was, now, size, num, m, m);
    }
  }

  /** The byte-wise exchange of two records (the loop at stdlib.c:35-40). */
  method SwapRecords(base: array<Byte>, num: nat, size: nat, i: nat, j: nat)
    requires base.Length == Offset(num, size) && size > 0
    requires i < num && j < num && i != j
    modifies base
    ensures var was := old(Records(base[..], size, num));
      Records(base[..], size, num) == was[i := was[j]][j := was[i]]
  {
    SlotFits(i, num, size);
    SlotFits(j, num, size);
    SlotsApart(i, j, size);
    SwapStretches(base, size, Offset(i, size), Offset(j, size));
    ghost var was, now := old(Records(base[..], size, num)), Records(base[..], size, num);
    forall m | 0 <= m < num
      ensures now[m] == was[if m == i then j else if m == j then i else m]
    {
      RecordSwapped(old(base[..]), base[..], size, num, i, j, m);
    }
  }

  method SwapStretches(base: array<Byte>, size: nat, p: nat, q: nat)
    requires p + size <= base.Length && q + size <= base.Length && (p + size <= q || q + size <= p)
    modifies base
    ensures StretchesSwapped(old(base[..]), base[..], size, p, q)
  {
    var k := 0;
    while k < size
      invariant 0 <= k <= size
      invariant StretchesSwapped(old(base[..]), base[..], k, p, q)
    {
      var temp := base[p + k];
      base[p + k] := base[q + k];
      base[q + k] := temp;
      k := k + 1;
    }
  }

  /** One call of the comparator on records `a` and `b`; None when one of them is outside the array. */
  method Compare(base: array<Byte>, num: nat, size: nat, a: int, b: int, compar: Comparator)
    returns (c: Option<int>)
    requires base.Length == Offset(num, size)
    ensures c.Some? <==> 0 <= a < num && 0 <= b < num
    ensures c.Some? ==> c.value == compar(Records(base[..], size, num)[a], Records(base[..], size, num)[b])
  {
    if !(0 <= a < num && 0 <= b < num) {
      return None;
    }
    RecordsIndex(base[..], size, num, a);
    RecordsIndex(base[..], size, num, b);
    return Some(compar(base[Offset(a, size)..Offset(a, size) + size], base[Offset(b, size)..Offset(b, size) + size]));
  }

  /** What lies left of `i` may stand before the pivot; what lies right of `j` may stand after it. */
  ghost predicate Partitioned(rs: seq<Record>, compar: Comparator, left: int, right: int, i: int, j: int)
    requires 0 <= left <= right < |rs|
  {
    && (forall k :: left <= k < i && k <= right ==> Le(compar, rs[k], rs[left]))
    && (forall k :: j < k <= right && left <= k ==> Le(compar, rs[left], rs[k]))
  }

  /** Record `left` stands strictly before each of the records left+1..right. */
  ghost predicate FirstFrom(rs: seq<Record>, compar: Comparator, left: nat, right: nat)
    requires right < |rs|
  {
    forall k :: left < k <= right ==> compar(rs[left], rs[k]) < 0
  }

  /** Exchanging a record the pivot may precede with one that may precede it extends both sides. */
  lemma SwapStep(rs: seq<Record>, next: seq<Record>, compar: Comparator, left: int, right: int, i: int, j: int)
    requires 0 <= left <= i < j <= right < |rs| && TotalPreorder(compar)
    requires Partitioned(rs, compar, left, right, i, j)
    requires Le(compar, rs[left], rs[i]) && Le(compar, rs[j], rs[left])
    requires next == rs[i := rs[j]][j := rs[i]]
    ensures Rearranged(rs, next, left, right)
    ensures Partitioned(next, compar, left, right, i + 1, j - 1)
  {
    assert PreorderOn(compar, rs[left], rs[left], rs[left]);
    assert next[left] == if i == left then rs[j] else rs[left];
    forall k | left <= k < i + 1 && k <= right ensures Le(compar, next[k], next[left]) {
      assert PreorderOn(compar, next[k], next[k], next[k]);
    }
    forall k | j - 1 < k <= right ensures Le(compar, next[left], next[k]) {
      assert PreorderOn(compar, rs[j], rs[left], rs[k]);
      assert k == j ==> PreorderOn(compar, rs[j], rs[left], rs[i]);
    }
  }

  /** No record from `from` on stops the first inner scan. */
  ghost predicate AllBelow(rs: seq<Record>, compar: Comparator, from: int, pivot: nat)
    requires 0 <= from && pivot < |rs|
  {
    forall k :: from <= k < |rs| ==> compar(rs[k], rs[pivot]) < 0
  }

  /** No record down from `from` stops the second one. */
  ghost predicate AllAbove(rs: seq<Record>, compar: Comparator, from: int, pivot: nat)
    requires from < |rs| && pivot < |rs|
  {
    forall k :: 0 <= k <= from ==> compar(rs[pivot], rs[k]) < 0
  }

  /** The first inner scan: the next record from `from` on that is not strictly before the pivot. */
  method ScanUp(base: array<Byte>, num: nat, size: nat, from: int, pivot: nat, compar: Comparator)
    returns (found: Option<nat>)
    requires base.Length == Offset(num, size) && from >= 0
    ensures found.Some? ==> pivot < num && from <= found.value < num
    ensures found.Some? ==> var rs := Records(base[..], size, num);
      && Le(compar, rs[pivot], rs[found.value])
      && forall k :: from <= k < found.value ==> compar(rs[k], rs[pivot]) < 0
    ensures found.None? && pivot < num ==> AllBelow(Records(base[..], size, num), compar, from, pivot)
  {
    ghost var rs := Records(base[..], size, num);
    var i := from;
    var c := Compare(base, num, size, i, pivot, compar);
    while c.Some? && c.value < 0
      invariant from <= i
      invariant c.Some? <==> i < num && pivot < num
      invariant c.Some? ==> c.value == compar(rs[i], rs[pivot])
      invariant forall k :: from <= k < i ==> k < num && pivot < num && compar(rs[k], rs[pivot]) < 0
      decreases num - i
    {
      i := i + 1;
      c := Compare(base, num, size, i, pivot, compar);
    }
    return if c.Some? then Some(i) else None;
  }

  /** The second inner scan, downwards. */
  method ScanDown(base: array<Byte>, num: nat, size: nat, from: int, pivot: nat, compar: Comparator)
    returns (found: Option<nat>)
    requires base.Length == Offset(num, size) && from < num
    ensures found.Some? ==> pivot < num && found.value <= from
    ensures found.Some? ==> var rs := Records(base[..], size, num);
      && Le(compar, rs[found.value], rs[pivot])
      && forall k :: found.value < k <= from ==> compar(rs[pivot], rs[k]) < 0
    ensures found.None? && pivot < num ==> AllAbove(Records(base[..], size, num), compar, from, pivot)
  {
    ghost var rs := Records(base[..], size, num);
    var j := from;
    var c := Compare(base, num, size, pivot, j, compar);
    while c.Some? && c.value < 0
      invariant j <= from
      invariant c.Some? <==> 0 <= j && pivot < num
      invariant c.Some? ==> c.value == compar(rs[pivot], rs[j])
      invariant forall k :: j < k <= from ==> 0 <= k && pivot < num && compar(rs[pivot], rs[k]) < 0
      decreases j + 1
    {
      j := j - 1;
      c := Compare(base, num, size, pivot, j, compar);
    }
    return if c.Some? then Some(j) else None;
  }

  /** What every pass of the partition loop keeps; `swapped` says whether a pass has swapped yet. */
  ghost predicate Passing(was: seq<Record>, rs: seq<Record>, compar: Comparator, left: int, right: int, i: int, j: int,
                          swapped: bool)
    requires 0 <= left < right < |was|
  {
    && Rearranged(was, rs, left, right)
    && left <= i <= j + 1 && left <= j <= right
    && Partitioned(rs, compar, left, right, i, j)
    && (if swapped then left < i && j < right && !FirstFrom(was, compar, left, right)
        else i == left && j == right && rs == was)
  }

  /** Inside the range neither scan passes the records already placed on the other side. */
  lemma ScansMeet(rs: seq<Record>, compar: Comparator, left: int, right: int, i: int, j: int, i': int, j': int)
    requires 0 <= left <= i <= j + 1 <= right + 1 <= |rs| && left <= j && TotalPreorder(compar)
    requires i == left || j < right
    requires Partitioned(rs, compar, left, right, i, j)
    requires i <= i' < |rs| && Le(compar, rs[left], rs[i'])
    requires forall k :: i <= k < i' ==> compar(rs[k], rs[left]) < 0
    requires 0 <= j' <= j && Le(compar, rs[j'], rs[left])
    requires forall k :: j' < k <= j ==> compar(rs[left], rs[k]) < 0
    ensures i' <= j + 1 && i' <= right && left <= j' && i' <= j' + 1
    ensures i == left ==> i' == left
    ensures Partitioned(rs, compar, left, right, i', j')
  {
    assert PreorderOn(compar, rs[left], rs[left], rs[left]);
    assert i == left ==> i' == left;
    assert i > left ==> Le(compar, rs[left], rs[j + 1]);
    forall k | left <= k < i' && k <= right ensures Le(compar, rs[k], rs[left]) {
      assert k < i || compar(rs[k], rs[left]) < 0;
      assert PreorderOn(compar, rs[k], rs[left], rs[k]);
    }
    forall k | j' < k <= right && left <= k ensures Le(compar, rs[left], rs[k]) {
      assert k > j || compar(rs[left], rs[k]) < 0;
      assert PreorderOn(compar, rs[k], rs[left], rs[k]);
    }
    assert left < i' ==> Le(compar, rs[i' - 1], rs[left]);
  }

  /** Inside the range both scans stop: at the pivot, or at a record placed on the other side. */
  lemma ScansStop(was: seq<Record>, rs: seq<Record>, compar: Comparator, left: int, right: int, i: int, j: int,
                  swapped: bool)
    requires 0 <= left < right < |was| && TotalPreorder(compar)
    requires Passing(was, rs, compar, left, right, i, j, swapped)
    ensures !AllBelow(rs, compar, i, left) && !AllAbove(rs, compar, j, left)
  {
    assert PreorderOn(compar, rs[left], rs[left], rs[left]);
    var k := if swapped then j + 1 else left;
    assert i <= k <= right && !(compar(rs[k], rs[left]) < 0);
  }

  /** The range after the partition loop: two parts that may stand in this order. */
  ghost predicate Split(was: seq<Record>, rs: seq<Record>, compar: Comparator, left: int, right: int, i: int, j: int)
    requires 0 <= left < right < |was|
  {
    && Rearranged(was, rs, left, right)
    && left <= j <= i <= j + 1 && i <= right
    && Partitioned(rs, compar, left, right, i, j)
    && (i == j ==> Partitioned(rs, compar, left, right, i + 1, j - 1))
    && (i == left <==> FirstFrom(was, compar, left, right))
  }

  /** Scans that meet leave a split range; they meet at the first record exactly when it is strictly least. */
  lemma Meeting(was: seq<Record>, rs: seq<Record>, compar: Comparator, left: int, right: int, i: int, j: int,
                swapped: bool, i': nat, j': nat)
    requires 0 <= left < right < |was| && Passing(was, rs, compar, left, right, i, j, swapped)
    requires left <= j' <= i' <= j' + 1 && i <= i' <= right && j' <= j && (i == left ==> i' == left)
    requires Partitioned(rs, compar, left, right, i', j')
    requires Le(compar, rs[left], rs[i']) && Le(compar, rs[j'], rs[left])
    requires forall k :: j' < k <= j ==> compar(rs[left], rs[k]) < 0
    ensures Split(was, rs, compar, left, right, i', j')
  {
  }

  /** One pass: the scans found `i'` and `j'`; either they met, or the two records are exchanged. */
  lemma Pass(was: seq<Record>, rs: seq<Record>, compar: Comparator, left: int, right: int, i: int, j: int,
             swapped: bool, i': nat, j': nat)
    requires 0 <= left < right < |was| && TotalPreorder(compar)
    requires Passing(was, rs, compar, left, right, i, j, swapped)
    requires i <= i' < |rs| && Le(compar, rs[left], rs[i'])
    requires forall k :: i <= k < i' ==> compar(rs[k], rs[left]) < 0
    requires j' <= j && Le(compar, rs[j'], rs[left])
    requires forall k :: j' < k <= j ==> compar(rs[left], rs[k]) < 0
    ensures i' >= j' ==> Split(was, rs, compar, left, right, i', j')
    ensures i' < j' ==> Passing(was, rs[i' := rs[j']][j' := rs[i']], compar, left, right, i' + 1, j' - 1, true)
  {
    ScansMeet(rs, compar, left, right, i, j, i', j');
    if i' < j' {
      SwapStep(rs, rs[i' := rs[j']][j' := rs[i']], compar, left, right, i', j');
    } else {
      Meeting(was, rs, compar, left, right, i, j, swapped, i', j');
    }
  }

  /** Both inner scans of one pass. With the wrapped bound the second starts before the array. */
  method ScanBoth(base: array<Byte>, num: nat, size: nat, left: nat, right: nat, i: int, j: int, compar: Comparator,
                  ghost was: seq<Record>, ghost swapped: bool)
    returns (found: Option<(nat, nat)>)
    requires base.Length == Offset(num, size) && |was| == num && TotalPreorder(compar) && left < right
    requires if right < num then Passing(was, Records(base[..], size, num), compar, left, right, i, j, swapped)
             else left == i == 0 && j == -1
    ensures found.Some? <==> right < num
    ensures found.Some? ==> found.value.0 < num && found.value.1 <= j < num
    ensures found.Some? ==> PassResult(was, Records(base[..], size, num), compar, left, right, found.value.0, found.value.1)
  {
    ghost var rs := Records(base[..], size, num);
    var up := ScanUp(base, num, size, i, left, compar);
    if right < num { ScansStop(was, rs, compar, left, right, i, j, swapped); }
    if up.None? {
      return None;
    }
    var down := ScanDown(base, num, size, j, left, compar);
    if down.None? {
      return None;
    }
    Pass(was, rs, compar, left, right, i, j, swapped, up.value, down.value);
    return Some((up.value, down.value));
  }

  ghost predicate PassResult(was: seq<Record>, rs: seq<Record>, compar: Comparator, left: nat, right: nat, i: nat, j: nat)
    requires left < right < |was| && i < |rs| && j < |rs|
  {
    if i >= j then Split(was, rs, compar, left, right, i, j)
    else Passing(was, rs[i := rs[j]][j := rs[i]], compar, left, right, i + 1, j - 1, true)
  }

  datatype PassOutcome = Outside | Met(i: int, j: int) | Swapped(i: int, j: int)

  /** One iteration of the partition loop: both scans, then the exchange unless they have met. */
  method OnePass(base: array<Byte>, num: nat, size: nat, left: nat, right: nat, i: int, j: int, compar: Comparator,
                 ghost was: seq<Record>, ghost swapped: bool)
    returns (out: PassOutcome)
    requires base.Length == Offset(num, size) && size > 0
    requires |was| == num && TotalPreorder(compar) && left < right
    requires if right < num then Passing(was, Records(base[..], size, num), compar, left, right, i, j, swapped)
             else left == i == 0 && j == -1
    modifies base
    ensures out.Outside? <==> right >= num
    ensures out.Outside? ==> base[..] == old(base[..])
    ensures out.Met? ==> Split(was, Records(base[..], size, num), compar, left, right, out.i, out.j)
    ensures out.Swapped? ==>
      out.j < j && Passing(was, Records(base[..], size, num), compar, left, right, out.i, out.j, true)
  {
    var found := ScanBoth(base, num, size, left, right, i, j, compar, was, swapped);
    if found.None? {
      return Outside;
    }
    var (i', j') := found.value;
    if i' >= j' {
      return Met(i', j');
    }
    SwapRecords(base, num, size, i', j');
    return Swapped(i' + 1, j' - 1);
  }

  /**
   The partition loop of `qsort_internal`. The pivot is whatever record `left` holds at the
   time of each comparison.
   */
  method Partition(base: array<Byte>, num: nat, size: nat, left: Word, right: Word, compar: Comparator)
    returns (inside: bool, i: int, j: int)
    requires base.Length == Offset(num, size) && size > 0 && num < 0x8000_0000
    requires TotalPreorder(compar)
    requires left < right
    requires right < num || (left == 0 && right == TWO_TO_THE_32 - 1)
    modifies base
    ensures inside <==> right < num
    ensures !inside ==> base[..] == old(base[..])
    ensures inside ==>
      Split(old(Records(base[..], size, num)), Records(base[..], size, num), compar, left, right, i, j)
  {
    i, j := ToInt(left), ToInt(right);
    ghost var was := Records(base[..], size, num);
    var out := OnePass(base, num, size, left, right, i, j, compar, was, false);
    while out.Swapped?
      invariant out.Outside? <==> right >= num
      invariant out.Outside? ==> base[..] == old(base[..])
      invariant out.Met? ==> Split(was, Records(base[..], size, num), compar, left, right, out.i, out.j)
      invariant out.Swapped? ==> Passing(was, Records(base[..], size, num), compar, left, right, out.i, out.j, true)
      decreases if out.Swapped? then out.j + 1 else 0
    {
      out := OnePass(base, num, size, left, right, out.i, out.j, compar, was, true);
    }
    if out.Outside? {
      return false, i, j;
    }
    return true, out.i, out.j;
  }

  /** A record left of `i` may precede a record right of `j`, whatever order the two parts are in now. */
  lemma AcrossSplit(was: seq<Record>, mid: seq<Record>, one: seq<Record>, fin: seq<Record>, compar: Comparator,
                    left: int, right: int, i: int, j: int, m: int, n: int)
    requires 0 <= left < right < |was| && TotalPreorder(compar)
    requires Split(was, mid, compar, left, right, i, j)
    requires Rearranged(mid, one, left, i - 1) && Rearranged(one, fin, j + 1, right)
    requires left <= m < n <= right && m <= j && i <= n && (i == j ==> m < j || j < n)
    ensures Le(compar, fin[m], fin[n])
  {
    var m' := m;
    if m < i { m' := RearrangedFrom(mid, one, left, i - 1, m); }
    var n' := n;
    if n > j { n' := RearrangedFrom(one, fin, j + 1, right, n); }
    assert fin[m] == mid[m'] && fin[n] == mid[n'];
    assert PreorderOn(compar, mid[m'], mid[left], mid[n']);
  }

  /** Sorting both parts of a split range sorts the range. */
  lemma Assemble(was: seq<Record>, mid: seq<Record>, one: seq<Record>, fin: seq<Record>, compar: Comparator,
                 left: int, right: int, i: int, j: int)
    requires 0 <= left < right < |was| && TotalPreorder(compar)
    requires Split(was, mid, compar, left, right, i, j)
    requires Rearranged(mid, one, left, i - 1) && SortedBetween(one, compar, left, i - 1)
    requires Rearranged(one, fin, j + 1, right) && SortedBetween(fin, compar, j + 1, right)
    ensures SortedBetween(fin, compar, left, right)
  {
    forall m, n | left <= m < n <= right ensures Le(compar, fin[m], fin[n]) {
      if n < i {
        assert fin[m] == one[m] && fin[n] == one[n];
      } else if m <= j {
        AcrossSplit(was, mid, one, fin, compar, left, right, i, j, m, n);
      }
    }
  }

  /**
   What a call of `qsort_internal` on the records left..right comes to: they end up sorted in
   place, or the run reads a record outside the array (`ok` is false). The second happens exactly
   when the range starts at record 0 and that record stands strictly before all others.
   */
  ghost predicate Sorts(was: seq<Record>, now: seq<Record>, compar: Comparator, left: nat, right: nat, ok: bool) {
    && Rearranged(was, now, left, right)
    && (right >= |was| ==> now == was)
    && (ok <==> StaysInside(was, compar, left, right))
    && (ok && left < right ==> SortedBetween(now, compar, left, right))
  }

  ghost predicate StaysInside(rs: seq<Record>, compar: Comparator, left: nat, right: nat) {
    left >= right || (right < |rs| && !(left == 0 && FirstFrom(rs, compar, 0, right)))
  }

  /** After a split, the left part leaves the array exactly when the whole range does. */
  lemma LeftPartInside(was: seq<Record>, mid: seq<Record>, compar: Comparator, left: nat, right: nat, i: int, j: int)
    requires 0 <= left < right < |was| < 0x8000_0000
    requires Split(was, mid, compar, left, right, i, j)
    ensures ToWord(i - 1) == if i == 0 then TWO_TO_THE_32 - 1 else i - 1
    ensures StaysInside(mid, compar, left, ToWord(i - 1)) <==> StaysInside(was, compar, left, right)
  {
    if i >= 2 && left == 0 {
      assert Le(compar, mid[1], mid[0]);
    }
  }

  lemma SortsBoth(was: seq<Record>, mid: seq<Record>, one: seq<Record>, fin: seq<Record>, compar: Comparator,
                  left: nat, right: nat, i: int, j: int, ok: bool)
    requires 0 <= left < right < |was| < 0x8000_0000 && TotalPreorder(compar)
    requires Split(was, mid, compar, left, right, i, j)
    requires Sorts(mid, one, compar, left, ToWord(i - 1), true)
    requires Sorts(one, fin, compar, j + 1, right, ok)
    ensures Sorts(was, fin, compar, left, right, ok)
  {
    LeftPartInside(was, mid, compar, left, right, i, j);
    Assemble(was, mid, one, fin, compar, left, right, i, j);
  }

  lemma LeavesFromLeft(was: seq<Record>, mid: seq<Record>, one: seq<Record>, compar: Comparator,
                       left: nat, right: nat, i: int, j: int)
    requires 0 <= left < right < |was| < 0x8000_0000
    requires Split(was, mid, compar, left, right, i, j)
    requires Sorts(mid, one, compar, left, ToWord(i - 1), false)
    ensures Sorts(was, one, compar, left, right, false)
  {
    LeftPartInside(was, mid, compar, left, right, i, j);
  }

  /** `qsort_internal`: the record counts and bounds are `size_t`, so `i - 1` wraps below 0. */
  method QsortInternal(base: array<Byte>, num: nat, size: nat, left: Word, right: Word, compar: Comparator)
    returns (ok: bool)
    requires base.Length == Offset(num, size) && size > 0 && num < 0x8000_0000
    requires TotalPreorder(compar)
    requires left < right ==> right < num || (left == 0 && right == TWO_TO_THE_32 - 1)
    modifies base
    ensures Sorts(old(Records(base[..], size, num)), Records(base[..], size, num), compar, left, right, ok)
    decreases if left < right < num then right - left else 0
  {
    if left >= right {
      return true;
    }
    ghost var was := Records(base[..], size, num);
    var inside, i, j := Partition(base, num, size, left, right, compar);
    if !inside {
      return false;
    }
    ghost var mid := Records(base[..], size, num);
    LeftPartInside(was, mid, compar, left, right, i, j);
    ok := QsortInternal(base, num, size, left, ToWord(i - 1), compar);
    ghost var one := Records(base[..], size, num);
    if !ok {
      LeavesFromLeft(was, mid, one, compar, left, right, i, j);
      return false;
    }
    ok := QsortInternal(base, num, size, j + 1, right, compar);
    SortsBoth(was, mid, one, Records(base[..], size, num), compar, left, right, i, j, ok);
  }

  /**
   `qsort` sorts the array, as a rearrangement, for every total preorder, if and only if it has
   one record or some later record may precede the first.
   */
  method Qsort(base: array<Byte>, num: nat, size: nat, compar: Comparator) returns (ok: bool)
    requires base.Length == Offset(num, size) && size > 0 && num < 0x8000_0000
    requires TotalPreorder(compar)
    modifies base
    ensures ok <==> QsortStaysInside(old(Records(base[..], size, num)), compar)
    ensures multiset(Records(base[..], size, num)) == multiset(old(Records(base[..], size, num)))
    ensures ok ==> SortedBetween(Records(base[..], size, num), compar, 0, num - 1)
  {
    ghost var was := Records(base[..], size, num);
    ok := QsortInternal(base, num, size, 0, ToWord(num - 1), compar);
    WholeRange(was, compar);
  }

  ghost predicate QsortStaysInside(rs: seq<Record>, compar: Comparator) {
    && |rs| > 0
    && (|rs| == 1 || exists k :: 1 <= k < |rs| && Le(compar, rs[k], rs[0]))
  }

  lemma WholeRange(rs: seq<Record>, compar: Comparator)
    requires |rs| < 0x8000_0000
    ensures ToWord(|rs| - 1) == if |rs| == 0 then TWO_TO_THE_32 - 1 else |rs| - 1
    ensures StaysInside(rs, compar, 0, ToWord(|rs| - 1)) <==> QsortStaysInside(rs, compar)
  {
  }

  /** An array of two or more records that is already in strict order is never sorted: the run leaves it. */
  lemma StrictlyOrderedInputLeaves(rs: seq<Record>, compar: Comparator)
    requires |rs| >= 2
    requires forall m, n :: 0 <= m < n < |rs| ==> compar(rs[m], rs[n]) < 0
    ensures !QsortStaysInside(rs, compar)
  {
  }
}
