/** Numbers to text and back: `itoa` and `atou_return` of src/kernel/string.c. */
module Itoa {
  import opened Machine
  import opened PrintInteger
  import opened IntegerLayout
  import opened FormatString

  /** The digits of a number, lowest first, at least one. */
  function AllDigits(n: nat, base: nat): (s: string)
    requires IsBase(base)
    ensures |s| > 0 && Reverse(s) == Numeral(n, base, NO_FLAGS)
  {
    ReversePair("0");
    if n == 0 then "0" else Digits(n, base, false)
  }

  /** The digit loop: lowest first, and one 0 for the number 0. */
  method PutDigits(buf: array<char>, n: Word, base: nat) returns (len: nat)
    requires IsBase(base) && |AllDigits(n, base)| < buf.Length
    modifies buf
    ensures len == |AllDigits(n, base)| && buf[..len] == AllDigits(n, base) && buf[len..] == old(buf[len..])
  {
    ghost var all := AllDigits(n, base);
    buf[0] := DigitChar(Low(n, base), false);
    len := 1;
    var left: nat := High(n, base);
    assert Digits(0, base, false) == "";
    assert buf[..1] == [DigitChar(Low(n, base), false)];
    while left != 0
      invariant 1 <= len <= |all| && all == buf[..len] + Digits(left, base, false) && buf[len..] == old(buf[len..])
      decreases left
    {
      DigitsStep(buf[..len], left, base, false);
      buf[len] := DigitChar(Low(left, base), false);
      assert buf[..len + 1] == buf[..len] + [DigitChar(Low(left, base), false)];
      len := len + 1;
      left := High(left, base);
    }
  }

  /** Place `k` while the ends up to `j` and from `i` on are exchanged. */
  ghost predicate Exchanged(was: seq<char>, now: seq<char>, len: int, j: int, i: int, k: int)
    requires |was| == |now| >= len
  {
    0 <= k < |was| ==> now[k] == if 0 <= k < len && (k < j || i < k) then was[len - 1 - k] else was[k]
  }

  /** The loop that exchanges the ends of the first `len` characters. */
  method ReverseInPlace(buf: array<char>, len: nat)
    requires 0 < len <= buf.Length
    modifies buf
    ensures buf[..len] == Reverse(old(buf[..len])) && buf[len..] == old(buf[len..])
  {
    ghost var was := buf[..];
    var i, j := len - 1, 0;
    while j < i
      invariant 0 <= j <= i + 1 && i + j == len - 1
      invariant forall k :: Exchanged(was, buf[..], len, j, i, k)
    {
      ghost var before := buf[..];
      assert Exchanged(was, before, len, j, i, j) && Exchanged(was, before, len, j, i, i);
      var temp := buf[j];
      buf[j] := buf[i];
      buf[i] := temp;
      j, i := j + 1, i - 1;
      forall k ensures Exchanged(was, buf[..], len, j, i, k) {
        ghost var j0, i0 := j - 1, i + 1;
        assert Exchanged(was, before, len, j0, i0, k);
      }
    }
    forall k | 0 <= k < buf.Length
      ensures buf[k] == if k < len then Reverse(was[..len])[k] else was[k]
    {
      assert Exchanged(was, buf[..], len, j, i, k);
      if k < len {
        ReverseAt(was[..len], k);
      }
    }
  }

  /** `itoa`: the numeral, most significant digit first, ended by NUL. */
  method ToText(buf: array<char>, n: Word, base: nat)
    requires IsBase(base) && |Numeral(n, base, NO_FLAGS)| < buf.Length
    modifies buf
    ensures var text := Numeral(n, base, NO_FLAGS);
      buf[..|text|] == text && buf[|text|] == '\0' && buf[|text| + 1..] == old(buf[|text| + 1..])
  {
    ghost var was := buf[..];
    var len := PutDigits(buf, n, base);
    ghost var digits := buf[..len];
    assert buf[len + 1..] == buf[len..][1..] == was[len..][1..] == was[len + 1..];
    buf[len] := '\0';
    assert buf[..len] == digits && buf[len + 1..] == was[len + 1..];
    ghost var rest := buf[len..];
    ReverseInPlace(buf, len);
    assert buf[len] == buf[len..][0] == rest[0] && buf[len + 1..] == buf[len..][1..] == rest[1..];
  }

  predicate AllDecimal(s: string) {
    forall k :: 0 <= k < |s| ==> IsDigit(s[k])
  }

  lemma {:induction false} DigitsDecimal(n: nat)
    ensures AllDecimal(Digits(n, 10, false))
  {
    if n != 0 {
      DigitsDecimal(High(n, 10));
    }
  }

  lemma NumeralDecimal(n: nat)
    ensures AllDecimal(Numeral(n, 10, NO_FLAGS)) && '\0' !in Numeral(n, 10, NO_FLAGS)
  {
    DigitsDecimal(n);
    var digits, s := Digits(n, 10, false), Numeral(n, 10, NO_FLAGS);
    forall k | 0 <= k < |s| ensures IsDigit(s[k]) {
      if n != 0 {
        ReverseAt(digits, k);
      }
    }
  }

  lemma WrapIs(x: nat, q: nat, r: nat)
    requires x == q * TWO_TO_THE_32 + r && r < TWO_TO_THE_32
    ensures ToWord(x) == r
  {
  }

  lemma WordOfWord(x: nat, d: nat)
    ensures ToWord(ToWord(x) * 10 + d) == ToWord(10 * x + d)
  {
    var y := ToWord(x) * 10 + d;
    WrapIs(10 * x + d, 10 * (x / TWO_TO_THE_32) + y / TWO_TO_THE_32, y % TWO_TO_THE_32);
  }

  /** Reading on from any place of a decimal text at `i`, up to what is no digit, gives its value modulo 2^32. */
  lemma {:induction false} ReadsOn(s: CString, i: nat, text: string, k: nat)
    requires AllDecimal(text) && k <= |text| && i + |text| <= |s| && s[i..i + |text|] == text
    requires !IsDigit(At(s, i + |text|))
    ensures ParsedNumber(s, i + k, ToWord(Parse(text[..k], 10))) == (ToWord(Parse(text, 10)), i + |text|)
    decreases |text| - k
  {
    if k == |text| {
      assert text[..k] == text;
    } else {
      assert s[i + k] == s[i..i + |text|][k] == text[k];
      assert text[..k + 1][..k] == text[..k];
      WordOfWord(Parse(text[..k], 10), (text[k] - '0') as nat);
      ReadsOn(s, i, text, k + 1);
    }
  }

  lemma DecimalReads(s: CString, i: nat, text: string)
    requires AllDecimal(text) && i + |text| <= |s| && s[i..i + |text|] == text && !IsDigit(At(s, i + |text|))
    requires Parse(text, 10) < TWO_TO_THE_32
    ensures ParsedNumber(s, i, 0) == (Parse(text, 10), i + |text|)
  {
    assert Parse(text[..0], 10) == 0;
    ReadsOn(s, i, text, 0);
  }

  /** What `itoa` writes in base 10, `atou_return` reads back, for every 32-bit number. */
  lemma NumberReadsBack(n: Word)
    ensures '\0' !in Numeral(n, 10, NO_FLAGS)
    ensures ParsedNumber(Numeral(n, 10, NO_FLAGS), 0, 0) == (n, |Numeral(n, 10, NO_FLAGS)|)
  {
    NumeralDecimal(n);
    NumeralReadsBack(n, 10, NO_FLAGS);
    assert Numeral(n, 10, NO_FLAGS)[0..|Numeral(n, 10, NO_FLAGS)|] == Numeral(n, 10, NO_FLAGS);
    DecimalReads(Numeral(n, 10, NO_FLAGS), 0, Numeral(n, 10, NO_FLAGS));
  }
}
