/**
 Long file names of src/kernel/fs/fat32/fat32.c: reassembly of a name from its directory
 entries, which are sorted by order, cut into UTF-16 units and written out as UTF-8.
 */
module LongNames {
  import opened Machine
  import opened Qsort
  import opened Utf8

  /** Size of a packed `FAT_LongFileEntry`, the number of units in it, and the last-entry flag. */
  const ENTRY_SIZE: nat := 32
  const UNITS: nat := 13
  const LFN_LAST: nat := 0x40

  /** Where unit `k` of an entry lies: name1 at 1, name2 at 14, name3 at 28. */
  function UnitOffset(k: nat): (b: nat)
    requires k < UNITS
    ensures b + 1 < ENTRY_SIZE
  {
    if k < 5 then 1 + 2 * k else if k < 11 then 14 + 2 * (k - 5) else 28 + 2 * (k - 11)
  }

  function UnitAt(entry: Record, k: nat): Unit
    requires |entry| == ENTRY_SIZE && k < UNITS
  {
    entry[UnitOffset(k)] as int + 0x100 * entry[UnitOffset(k) + 1] as int
  }

  function Units(entry: Record): (us: seq<Unit>)
    requires |entry| == ENTRY_SIZE
    ensures |us| == UNITS
  {
    seq(UNITS, k requires 0 <= k < UNITS => UnitAt(entry, k))
  }

  /** The units of an entry by their bytes, low byte first. */
  lemma UnitsAre(e: Record)
    requires |e| == 32
    ensures Units(e) == [Pair(e, 1), Pair(e, 3), Pair(e, 5), Pair(e, 7), Pair(e, 9),
                         Pair(e, 14), Pair(e, 16), Pair(e, 18), Pair(e, 20), Pair(e, 22), Pair(e, 24),
                         Pair(e, 28), Pair(e, 30)]
  {
  }

  function Pair(e: Record, b: nat): Unit
    requires b + 1 < |e|
  {
    e[b] as int + 0x100 * e[b + 1] as int
  }

  class LFNBlock {
    var order: Byte
    const chars: array<Unit>

    constructor ()
      ensures chars.Length == UNITS && fresh(chars)
    {
      order := 0;
      chars := new Unit[UNITS](_ => 0);
    }

    /** `getLFNBlock`: the order and the three stretches of units of an entry. */
    method Load(entry: Record)
      requires |entry| == ENTRY_SIZE && chars.Length == UNITS
      modifies this, chars
      ensures order == entry[0] && chars[..] == Units(entry)
    {
      order := entry[0];
      for k := 0 to UNITS
        invariant order == entry[0]
        invariant forall m :: 0 <= m < k ==> chars[m] == UnitAt(entry, m)
      {
        chars[k] := UnitAt(entry, k);
      }
    }
  }

  /** `FAT_CompareLFNBlocks`: the order is the first byte of both record layouts. */
  function CompareOrders(a: Record, b: Record): int {
    (if a == [] then 0 else a[0] as int) - (if b == [] then 0 else b[0] as int)
  }

  lemma OrdersArePreorder()
    ensures TotalPreorder(CompareOrders)
  {
    forall a, b, c ensures PreorderOn(CompareOrders, a, b, c) {
    }
  }

  /** The value of a 16-bit pattern as `int16_t`. */
  function Int16(u: Unit): int {
    if u < 0x8000 then u else u - 0x1_0000
  }

  /** The units before the first NUL. */
  ghost function UntilNul(us: seq<Unit>): (r: seq<Unit>)
    ensures r <= us
  {
    if us == [] || us[0] == 0 then [] else [us[0]] + UntilNul(us[1..])
  }

  lemma {:induction false} UntilNulStops(us: seq<Unit>, n: nat)
    requires n <= |us| && (forall k :: 0 <= k < n ==> us[k] != 0) && (n < |us| ==> us[n] == 0)
    ensures UntilNul(us) == us[..n]
  {
    if n > 0 {
      UntilNulStops(us[1..], n - 1);
      assert us[..n] == [us[0]] + us[1..][..n - 1];
    }
  }

  ghost predicate AllEntries(rs: seq<Record>) {
    forall k :: 0 <= k < |rs| ==> |rs[k]| == ENTRY_SIZE
  }

  /** The units of all entries in turn. */
  ghost function AllUnits(rs: seq<Record>): (us: seq<Unit>)
    requires AllEntries(rs)
    ensures |us| == UNITS * |rs|
  {
    if rs == [] then [] else AllUnits(rs[..|rs| - 1]) + Units(rs[|rs| - 1])
  }

  lemma {:induction false} AllUnitsIndex(rs: seq<Record>, k: nat, c: nat)
    requires AllEntries(rs) && k < |rs| && c < UNITS
    ensures AllUnits(rs)[UNITS * k + c] == UnitAt(rs[k], c)
  {
    if k < |rs| - 1 {
      AllUnitsIndex(rs[..|rs| - 1], k, c);
    }
  }

  lemma RecordsAreEntries(s: seq<Byte>, num: nat)
    requires |s| == Offset(num, ENTRY_SIZE)
    ensures AllEntries(Records(s, ENTRY_SIZE, num))
  {
    forall k | 0 <= k < num ensures |Records(s, ENTRY_SIZE, num)[k]| == ENTRY_SIZE {
      RecordsIndex(s, ENTRY_SIZE, num, k);
    }
  }

  /** `output` starts with `s` and a NUL. */
  ghost predicate Holds(output: seq<Byte>, s: seq<Byte>) {
    |s| < |output| && output[..|s|] == s && output[|s|] == 0
  }

  /** The string the entries spell: their units up to the first NUL, as UTF-8. */
  ghost function Spelled(rs: seq<Record>): seq<Byte>
    requires AllEntries(rs)
  {
    EncodeAll(UntilNul(AllUnits(rs)))
  }

  /** The first `p` units are written out and none of them is NUL. */
  ghost predicate Written(us: seq<Unit>, p: nat, output: seq<Byte>, pos: nat) {
    && p <= |us| && pos <= |output|
    && (forall k :: 0 <= k < p ==> us[k] != 0)
    && pos == |EncodeAll(us[..p])| <= 3 * p
    && output[..pos] == EncodeAll(us[..p])
  }

  lemma WriteOne(us: seq<Unit>, p: nat, was: seq<Byte>, pos: nat, now: seq<Byte>)
    requires Written(us, p, was, pos) && p < |us| && us[p] != 0
    requires |now| == |was| && pos + |Encode(us[p])| <= |now|
    requires now[..pos + |Encode(us[p])|] == was[..pos] + Encode(us[p])
    ensures Written(us, p + 1, now, pos + |Encode(us[p])|)
  {
    assert us[..p + 1] == us[..p] + [us[p]];
    EncodeAllSnoc(us[..p], us[p]);
    EncodeAllBound(us[..p + 1]);
  }

  lemma WrittenEnds(us: seq<Unit>, p: nat, output: seq<Byte>, pos: nat)
    requires Written(us, p, output, pos) && pos < |output| && output[pos] == 0
    requires p == |us| || us[p] == 0
    ensures Holds(output, EncodeAll(UntilNul(us)))
  {
    UntilNulStops(us, p);
  }

  /** One unit of a block, which is unit `q` of the name: spelled, or the end of the name. */
  method SpellUnit(block: LFNBlock, j: nat, output: array<Byte>, at: nat, ghost us: seq<Unit>, ghost q: nat)
    returns (out: nat, ended: bool)
    requires block.chars.Length == UNITS && (block.chars as object) != (output as object)
    requires j < UNITS && q < |us| && block.chars[j] == us[q]
    requires output.Length > 3 * |us| && Written(us, q, output[..], at)
    modifies output
    ensures ended ==> Holds(output[..], EncodeAll(UntilNul(us)))
    ensures !ended ==> Written(us, q + 1, output[..], out)
  {
    out := at;
    ended := Int16(block.chars[j]) == 0xFFFF || Int16(block.chars[j]) == 0;
    if ended {
      output[out] := 0;
      WrittenEnds(us, q, output[..], out);
    } else {
      var _, codepoint := Utf16ToCodepoint(block.chars, j);
      ghost var was := output[..];
      out := CodepointToUtf8(codepoint, output, out);
      WriteOne(us, q, was, at, output[..]);
    }
  }

  /**
   The inner loop of `FAT_GetLfn` over the units of one block, which are units p.. of the name.
   The test for 0xFFFF compares an `int16_t`, so only NUL ever ends the name.
   */
  method SpellBlock(block: LFNBlock, output: array<Byte>, at: nat, ghost us: seq<Unit>, ghost p: nat)
    returns (out: nat, ended: bool)
    requires block.chars.Length == UNITS && (block.chars as object) != (output as object)
    requires p + UNITS <= |us| && block.chars[..] == us[p..p + UNITS]
    requires output.Length > 3 * |us| && Written(us, p, output[..], at)
    modifies output
    ensures ended ==> Holds(output[..], EncodeAll(UntilNul(us)))
    ensures !ended ==> Written(us, p + UNITS, output[..], out)
  {
    out, ended := at, false;
    var j := 0;
    while j < UNITS && !ended
      invariant 0 <= j <= UNITS
      invariant block.chars[..] == us[p..p + UNITS]
      invariant if ended then Holds(output[..], EncodeAll(UntilNul(us))) else Written(us, p + j, output[..], out)
    {
      assert block.chars[j] == block.chars[..][j] == us[p + j];
      out, ended := SpellUnit(block, j, output, out, us, p + j);
      j := j + 1;
    }
  }

  lemma {:induction false} BlockUnits(rs: seq<Record>, i: nat)
    requires AllEntries(rs) && i < |rs|
    ensures UNITS * i + UNITS <= UNITS * |rs|
    ensures AllUnits(rs)[UNITS * i..UNITS * i + UNITS] == Units(rs[i])
  {
    var before, units := AllUnits(rs[..|rs| - 1]), Units(rs[|rs| - 1]);
    if i < |rs| - 1 {
      BlockUnits(rs[..|rs| - 1], i);
      assert (before + units)[UNITS * i..UNITS * i + UNITS] == before[UNITS * i..UNITS * i + UNITS];
    } else {
      assert (before + units)[|before|..|before| + UNITS] == units;
    }
  }

  /** The loop of `FAT_GetLfn` over the sorted entries. */
  method Spell(entries: array<Byte>, entryCount: nat, output: array<Byte>)
    requires entries.Length == Offset(entryCount, ENTRY_SIZE) && entries != output
    requires output.Length > 3 * UNITS * entryCount
    requires AllEntries(Records(entries[..], ENTRY_SIZE, entryCount))
    modifies output
    ensures Holds(output[..], Spelled(Records(entries[..], ENTRY_SIZE, entryCount)))
  {
    ghost var bytes := entries[..];
    ghost var rs := Records(bytes, ENTRY_SIZE, entryCount);
    ghost var us := AllUnits(rs);
    var block := new LFNBlock();
    var out: nat := 0;
    assert us[..0] == [];
    for i := 0 to entryCount
      invariant entries[..] == bytes && fresh(block) && fresh(block.chars) && block.chars.Length == UNITS
      invariant Written(us, UNITS * i, output[..], out)
    {
      RecordsIndex(bytes, ENTRY_SIZE, entryCount, i);
      BlockUnits(rs, i);
      block.Load(entries[Offset(i, ENTRY_SIZE)..Offset(i, ENTRY_SIZE) + ENTRY_SIZE]);
      var ended;
      out, ended := SpellBlock(block, output, out, us, UNITS * i);
      if ended {
        return;
      }
    }
    output[out] := 0;
    WrittenEnds(us, UNITS * entryCount, output[..], out);
  }

  /**
   `FAT_GetLfn`: sorts the entries and spells them. `ok` is false when the sort leaves the array.
   The output buffer must have room for the longest name the entries can hold.
   */
  method GetLfn(entries: array<Byte>, entryCount: int, output: array<Byte>) returns (ok: bool)
    requires entryCount > 0 ==> entries.Length == Offset(entryCount, ENTRY_SIZE) && entryCount < 0x8000_0000
    requires entries != output && output.Length >= 1 && output.Length > 3 * UNITS * entryCount
    modifies entries, output
    ensures entryCount <= 0 ==> ok && output[0] == 0 && entries[..] == old(entries[..])
    ensures entryCount > 0 ==> var was := old(Records(entries[..], ENTRY_SIZE, entryCount));
      var now := Records(entries[..], ENTRY_SIZE, entryCount);
      && (ok <==> QsortStaysInside(was, CompareOrders))
      && multiset(now) == multiset(was)
      && (ok ==> SortedBetween(now, CompareOrders, 0, entryCount - 1))
      && AllEntries(now)
      && (ok ==> Holds(output[..], Spelled(now)))
  {
    if entryCount <= 0 {
      output[0] := 0;
      return true;
    }
    OrdersArePreorder();
    ok := Qsort.Qsort(entries, entryCount, ENTRY_SIZE, CompareOrders);
    RecordsAreEntries(entries[..], entryCount);
    if ok {
      Spell(entries, entryCount, output);
    }
  }

  /** Unit `q` of a name as stored in its entries: the name, one NUL, then 0xFFFF. */
  function Padded(name: seq<Unit>, q: nat): Unit {
    if q < |name| then name[q] else if q == |name| then 0 else 0xFFFF
  }

  /** `rs` is `name` cut into entries: orders 1, 2, ..., the last one flagged, the units padded. */
  ghost predicate IsCut(rs: seq<Record>, name: seq<Unit>) {
    && 1 <= |rs| < LFN_LAST
    && UNITS * (|rs| - 1) < |name| <= UNITS * |rs|
    && AllEntries(rs)
    && (forall k :: 0 <= k < |rs| ==> rs[k][0] == k + 1 + if k == |rs| - 1 then LFN_LAST else 0)
    && (forall k, c :: 0 <= k < |rs| && 0 <= c < UNITS ==> UnitAt(rs[k], c) == Padded(name, UNITS * k + c))
  }

  ghost predicate NoNul(name: seq<Unit>) {
    forall q :: 0 <= q < |name| ==> name[q] != 0
  }

  lemma EntryOf(q: nat, n: nat)
    requires q < UNITS * n
    ensures 0 <= q / UNITS < n && 0 <= q % UNITS < UNITS && q == UNITS * (q / UNITS) + q % UNITS
  {
  }

  lemma CutUnitAt(rs: seq<Record>, name: seq<Unit>, k: nat, c: nat)
    requires IsCut(rs, name) && k < |rs| && c < UNITS
    ensures UNITS * k + c < |AllUnits(rs)| && AllUnits(rs)[UNITS * k + c] == Padded(name, UNITS * k + c)
  {
    AllUnitsIndex(rs, k, c);
    assert UnitAt(rs[k], c) == Padded(name, UNITS * k + c);
  }

  lemma CutUnit(rs: seq<Record>, name: seq<Unit>, q: nat)
    requires IsCut(rs, name) && q < UNITS * |rs|
    ensures AllUnits(rs)[q] == Padded(name, q)
  {
    EntryOf(q, |rs|);
    CutUnitAt(rs, name, q / UNITS, q % UNITS);
  }

  /** The entries of a name, in order, spell the name. */
  lemma CutSpells(rs: seq<Record>, name: seq<Unit>)
    requires IsCut(rs, name) && NoNul(name)
    ensures UntilNul(AllUnits(rs)) == name
  {
    var us := AllUnits(rs);
    forall q | 0 <= q < |us| ensures us[q] == Padded(name, q) {
      CutUnit(rs, name, q);
    }
    UntilNulStops(us, |name|);
  }

  ghost predicate StrictlyOrdered(rs: seq<Record>) {
    forall m, n :: 0 <= m < n < |rs| ==> CompareOrders(rs[m], rs[n]) < 0
  }

  /** A sorted rearrangement of strictly ordered entries starts with the same entry. */
  lemma SameHead(sorted: seq<Record>, strict: seq<Record>)
    requires sorted != [] && multiset(sorted) == multiset(strict) && StrictlyOrdered(strict)
    requires SortedBetween(sorted, CompareOrders, 0, |sorted| - 1)
    ensures |strict| == |sorted| && sorted[0] == strict[0]
  {
    assert |sorted| == |multiset(sorted)| == |multiset(strict)| == |strict|;
    assert sorted[0] in multiset(strict) && strict[0] in multiset(sorted);
    var m :| 0 <= m < |strict| && strict[m] == sorted[0];
    var n :| 0 <= n < |sorted| && sorted[n] == strict[0];
    assert n == 0 || Le(CompareOrders, sorted[0], sorted[n]);
    assert m == 0 || CompareOrders(strict[0], strict[m]) < 0;
  }

  lemma TailSorted(sorted: seq<Record>)
    requires sorted != [] && SortedBetween(sorted, CompareOrders, 0, |sorted| - 1)
    ensures SortedBetween(sorted[1..], CompareOrders, 0, |sorted| - 2)
  {
    var s := sorted[1..];
    forall a, b | 0 <= a < b <= |s| - 1 ensures Le(CompareOrders, s[a], s[b]) {
      assert Le(CompareOrders, sorted[a + 1], sorted[b + 1]);
    }
  }

  lemma TailStrict(strict: seq<Record>)
    requires strict != [] && StrictlyOrdered(strict)
    ensures StrictlyOrdered(strict[1..])
  {
    var t := strict[1..];
    forall m, n | 0 <= m < n < |t| ensures CompareOrders(t[m], t[n]) < 0 {
      assert CompareOrders(strict[m + 1], strict[n + 1]) < 0;
    }
  }

  lemma TailMultiset(s: seq<Record>, t: seq<Record>)
    requires s != [] && t != [] && s[0] == t[0] && multiset(s) == multiset(t)
    ensures multiset(s[1..]) == multiset(t[1..])
  {
    assert s == [s[0]] + s[1..] && t == [t[0]] + t[1..];
    assert multiset(s[1..]) == multiset(s) - multiset{s[0]};
    assert multiset(t[1..]) == multiset(t) - multiset{t[0]};
  }

  lemma {:induction false} SortedIsUnique(sorted: seq<Record>, strict: seq<Record>)
    requires multiset(sorted) == multiset(strict) && StrictlyOrdered(strict)
    requires SortedBetween(sorted, CompareOrders, 0, |sorted| - 1)
    ensures sorted == strict
  {
    if sorted == [] {
      assert |strict| == |multiset(strict)| == 0;
    } else {
      SameHead(sorted, strict);
      TailSorted(sorted);
      TailStrict(strict);
      TailMultiset(sorted, strict);
      SortedIsUnique(sorted[1..], strict[1..]);
      assert sorted == [sorted[0]] + sorted[1..];
    }
  }

  /**
   Whatever order the entries of a name are presented in, sorting them and spelling them gives the
   UTF-8 form of the name, which a decoder reads back exactly when the name has no surrogates.
   */
  lemma GetLfnDeliversName(name: seq<Unit>, cut: seq<Record>, presented: seq<Record>, now: seq<Record>)
    requires IsCut(cut, name) && NoNul(name)
    requires multiset(presented) == multiset(cut)
    requires multiset(now) == multiset(presented) && SortedBetween(now, CompareOrders, 0, |now| - 1)
    ensures AllEntries(now) && Spelled(now) == EncodeAll(name)
    ensures Decode(Spelled(now)) == if NoSurrogates(name) then Some(name) else None
  {
    SortedIsUnique(now, cut);
    CutSpells(cut, name);
    DecodeOfEncodeAll(name);
  }

  /** The sort stays inside the array exactly when the entry of order 1 is not presented first. */
  lemma WhichPresentationsWork(name: seq<Unit>, cut: seq<Record>, presented: seq<Record>)
    requires IsCut(cut, name) && multiset(presented) == multiset(cut)
    ensures |presented| == |cut|
    ensures QsortStaysInside(presented, CompareOrders) <==> |cut| == 1 || presented[0] != cut[0]
  {
    assert |presented| == |multiset(presented)| == |multiset(cut)| == |cut|;
    assert forall m :: 0 <= m < |cut| ==> presented[m] in multiset(cut);
    if presented[0] != cut[0] {
      assert cut[0] in multiset(presented);
      var k :| 0 <= k < |presented| && presented[k] == cut[0];
      assert Le(CompareOrders, presented[k], presented[0]);
    } else {
      forall k | 1 <= k < |presented| ensures !Le(CompareOrders, presented[k], presented[0]) {
        assert presented[k] in multiset(cut);
        PresentedOnce(name, cut, presented, k);
      }
    }
  }

  /** An entry 1 that comes first does not come again. */
  lemma PresentedOnce(name: seq<Unit>, cut: seq<Record>, presented: seq<Record>, k: nat)
    requires IsCut(cut, name) && multiset(presented) == multiset(cut)
    requires 1 <= k < |presented| && presented[0] == cut[0]
    ensures presented[k] != cut[0]
  {
    OnlyOnce(cut, name);
    assert presented == [cut[0]] + presented[1..k] + [presented[k]] + presented[k + 1..];
  }

  /** Entry 1 occurs once among the entries of a name. */
  lemma OnlyOnce(cut: seq<Record>, name: seq<Unit>)
    requires IsCut(cut, name)
    ensures multiset(cut)[cut[0]] == 1
  {
    assert cut == [cut[0]] + cut[1..];
    assert cut[0] !in cut[1..];
  }

  /** One entry: its order, its units, and zero bytes elsewhere. */
  function MakeEntry(order: Byte, us: seq<Unit>): (r: Record)
    requires |us| == UNITS
    ensures |r| == ENTRY_SIZE
  {
    [order] + Bytes(us[..5]) + [0, 0, 0] + Bytes(us[5..11]) + [0, 0] + Bytes(us[11..])
  }

  function Bytes(us: seq<Unit>): (s: seq<Byte>)
    ensures |s| == 2 * |us|
    ensures forall k :: 0 <= k < |us| ==> us[k] == s[2 * k] as int + 0x100 * s[2 * k + 1] as int
  {
    if us == [] then [] else Bytes(us[..|us| - 1]) + [us[|us| - 1] % 0x100, us[|us| - 1] / 0x100]
  }

  lemma UnitIn(r: seq<Byte>, from: nat, us: seq<Unit>, k: nat)
    requires from + 2 * |us| <= |r| && r[from..from + 2 * |us|] == Bytes(us) && k < |us|
    ensures r[from + 2 * k] as int + 0x100 * r[from + 2 * k + 1] as int == us[k]
  {
    var stretch := r[from..from + 2 * |us|];
    assert stretch[2 * k] == r[from + 2 * k] && stretch[2 * k + 1] == r[from + 2 * k + 1];
  }

  lemma MadeStretches(order: Byte, us: seq<Unit>)
    requires |us| == UNITS
    ensures var r := MakeEntry(order, us);
      r[1..11] == Bytes(us[..5]) && r[14..26] == Bytes(us[5..11]) && r[28..32] == Bytes(us[11..])
  {
  }

  lemma MadeUnits(order: Byte, us: seq<Unit>, k: nat)
    requires |us| == UNITS && k < UNITS
    ensures UnitAt(MakeEntry(order, us), k) == us[k]
  {
    MadeStretches(order, us);
    var r := MakeEntry(order, us);
    if k < 5 {
      UnitIn(r, 1, us[..5], k);
    } else if k < 11 {
      UnitIn(r, 14, us[5..11], k - 5);
    } else {
      UnitIn(r, 28, us[11..], k - 11);
    }
  }

  /** Entry `k` of a name, with the given order. */
  function CutEntry(name: seq<Unit>, k: nat, order: Byte): (r: Record)
    ensures |r| == ENTRY_SIZE && r[0] == order
  {
    MakeEntry(order, seq<Unit>(UNITS, c requires 0 <= c < UNITS => Padded(name, UNITS * k + c)))
  }

  lemma CutEntryUnit(name: seq<Unit>, k: nat, order: Byte, c: nat)
    requires c < UNITS
    ensures UnitAt(CutEntry(name, k, order), c) == Padded(name, UNITS * k + c)
  {
    MadeUnits(order, seq<Unit>(UNITS, c requires 0 <= c < UNITS => Padded(name, UNITS * k + c)), c);
  }

  /** The first `m` entries of a name of `n` entries. */
  function CutEntries(name: seq<Unit>, m: nat, n: nat): (rs: seq<Record>)
    requires m <= n < LFN_LAST
    ensures |rs| == m
    ensures forall k :: 0 <= k < m ==> rs[k] == CutEntry(name, k, k + 1 + if k == n - 1 then LFN_LAST else 0)
  {
    if m == 0 then []
    else CutEntries(name, m - 1, n) + [CutEntry(name, m - 1, m + if m == n then LFN_LAST else 0)]
  }

  /** Every non-empty name of up to 63 entries has a cut. */
  lemma EveryNameHasACut(name: seq<Unit>) returns (rs: seq<Record>)
    requires 0 < |name| <= UNITS * (LFN_LAST - 1)
    ensures IsCut(rs, name)
  {
    var n := (|name| + UNITS - 1) / UNITS;
    rs := CutEntries(name, n, n);
    forall k, c | 0 <= k < n && 0 <= c < UNITS ensures UnitAt(rs[k], c) == Padded(name, UNITS * k + c) {
      CutEntryUnit(name, k, rs[k][0], c);
    }
  }
}
