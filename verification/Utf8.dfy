/**
 `utf16_to_codepoint` and `codepoint_to_utf8` of src/kernel/string.c, and the decoder of
 section 3 of RFC 3629 that their output is measured against.
 */
module Utf8 {
  import opened Machine

  /** A UTF-16 code unit. */
  type Unit = u: nat | u < 0x1_0000

  predicate IsSurrogate(u: nat) {
    0xD800 <= u < 0xE000
  }

  /** The bytes `codepoint_to_utf8` stores for a code point; of a negative one the lowest byte. */
  function Encode(codepoint: int): (s: seq<Byte>) {
    if codepoint <= 0x7F then
      [codepoint % 0x100]
    else if codepoint <= 0x7FF then
      [0xC0 + codepoint / 64 % 32, 0x80 + codepoint % 64]
    else if codepoint <= 0xFFFF then
      [0xE0 + codepoint / 4096 % 16, 0x80 + codepoint / 64 % 64, 0x80 + codepoint % 64]
    else if codepoint <= 0x1F_FFFF then
      [0xF0 + codepoint / 262144 % 8, 0x80 + codepoint / 4096 % 64, 0x80 + codepoint / 64 % 64, 0x80 + codepoint % 64]
    else
      []
  }

  /** The concatenation of `f` over a sequence. */
  ghost function FlatMap<A, B>(f: A -> seq<B>, s: seq<A>): seq<B> {
    if s == [] then [] else f(s[0]) + FlatMap(f, s[1..])
  }

  lemma {:induction false} FlatMapConcat<A, B>(f: A -> seq<B>, s: seq<A>, t: seq<A>)
    ensures FlatMap(f, s + t) == FlatMap(f, s) + FlatMap(f, t)
  {
    if s == [] {
      assert s + t == t;
    } else {
      assert (s + t)[1..] == s[1..] + t;
      FlatMapConcat(f, s[1..], t);
    }
  }

  /** The UTF-8 form of a name given as UTF-16 units, unit by unit. */
  ghost function EncodeAll(us: seq<Unit>): seq<Byte> {
    FlatMap((u: Unit) => Encode(u), us)
  }

  lemma EncodeAllSnoc(us: seq<Unit>, u: Unit)
    ensures EncodeAll(us + [u]) == EncodeAll(us) + Encode(u)
  {
    var f := (u: Unit) => Encode(u);
    FlatMapConcat(f, us, [u]);
    assert FlatMap(f, [u][1..]) == [];
    assert FlatMap(f, [u]) == f(u);
  }

  lemma {:induction false} EncodeAllBound(us: seq<Unit>)
    ensures |EncodeAll(us)| <= 3 * |us|
  {
    if us != [] {
      EncodeAllBound(us[1..]);
    }
  }

  /** Stores the UTF-8 form of a code point at `at` and returns the position after it. */
  method CodepointToUtf8(codepoint: int, output: array<Byte>, at: nat) returns (next: nat)
    requires at + |Encode(codepoint)| <= output.Length
    modifies output
    ensures next == at + |Encode(codepoint)|
    ensures output[..next] == old(output[..at]) + Encode(codepoint)
    ensures output[next..] == old(output[next..])
  {
    next := at;
    if codepoint <= 0x7F {
      output[next] := codepoint % 0x100;
      next := next + 1;
    } else if codepoint <= 0x7FF {
      output[next] := 0xC0 + codepoint / 64 % 32;
      next := next + 1;
      output[next] := 0x80 + codepoint % 64;
      next := next + 1;
    } else if codepoint <= 0xFFFF {
      output[next] := 0xE0 + codepoint / 4096 % 16;
      next := next + 1;
      output[next] := 0x80 + codepoint / 64 % 64;
      next := next + 1;
      output[next] := 0x80 + codepoint % 64;
      next := next + 1;
    } else if codepoint <= 0x1F_FFFF {
      output[next] := 0xF0 + codepoint / 262144 % 8;
      next := next + 1;
      output[next] := 0x80 + codepoint / 4096 % 64;
      next := next + 1;
      output[next] := 0x80 + codepoint / 64 % 64;
      next := next + 1;
      output[next] := 0x80 + codepoint % 64;
      next := next + 1;
    }
  }

  /**
   The code point of the unit at `j`. After a high surrogate the code reads one unit more and
   combines the two, but then overwrites the result with the single unit it started from.
   */
  method Utf16ToCodepoint(chars: array<Unit>, j: nat) returns (next: nat, codepoint: nat)
    requires j < chars.Length
    ensures codepoint == chars[j]
    ensures next == if 0xD800 <= chars[j] < 0xDC00 then j + 2 else j + 1
  {
    var c1: nat := chars[j];
    next := j + 1;
    if 0xD800 <= c1 < 0xDC00 {
      // The second unit of a pair; past the end of the block it is whatever memory holds there.
      var c2: nat := if next < chars.Length then chars[next] else 0;
      next := next + 1;
      codepoint := c1 % 1024 * 1024 + c2 % 1024 + 0x10000;
    }
    codepoint := c1;
  }

  predicate IsTail(b: Byte) {
    0x80 <= b < 0xC0
  }

  /** The first character of a well-formed UTF-8 sequence, with the number of bytes it takes. */
  function DecodeFirst(s: seq<Byte>): (r: Option<(nat, nat)>)
    ensures r.Some? ==> 1 <= r.value.1 <= |s|
  {
    if |s| >= 1 && s[0] < 0x80 then
      Some((s[0], 1))
    else if |s| >= 2 && 0xC0 <= s[0] < 0xE0 && IsTail(s[1]) then
      var cp := (s[0] as int - 0xC0) * 64 + (s[1] as int - 0x80);
      if cp >= 0x80 then Some((cp, 2)) else None
    else if |s| >= 3 && 0xE0 <= s[0] < 0xF0 && IsTail(s[1]) && IsTail(s[2]) then
      var cp := (s[0] as int - 0xE0) * 4096 + (s[1] as int - 0x80) * 64 + (s[2] as int - 0x80);
      if cp >= 0x800 && !IsSurrogate(cp) then Some((cp, 3)) else None
    else if |s| >= 4 && 0xF0 <= s[0] < 0xF8 && IsTail(s[1]) && IsTail(s[2]) && IsTail(s[3]) then
      var cp := (s[0] as int - 0xF0) * 262144 + (s[1] as int - 0x80) * 4096 + (s[2] as int - 0x80) * 64 + (s[3] as int - 0x80);
      if 0x1_0000 <= cp < 0x11_0000 then Some((cp, 4)) else None
    else
      None
  }

  /** The characters of a UTF-8 string; None when it is not well formed (RFC 3629, section 3). */
  function Decode(s: seq<Byte>): Option<seq<nat>> {
    if s == [] then Some([]) else
      match DecodeFirst(s)
      case None => None
      case Some((cp, n)) =>
        match Decode(s[n..])
        case None => None
        case Some(rest) => Some([cp] + rest)
  }

  lemma DecodeFirstOfTwo(cp: nat, rest: seq<Byte>)
    requires 0x80 <= cp <= 0x7FF
    ensures DecodeFirst([0xC0 + cp / 64 % 32, 0x80 + cp % 64] + rest) == Some((cp, 2))
  {
    assert cp / 64 % 32 == cp / 64;
  }

  lemma DecodeFirstOfThree(cp: nat, rest: seq<Byte>)
    requires 0x800 <= cp <= 0xFFFF
    ensures DecodeFirst([0xE0 + cp / 4096 % 16, 0x80 + cp / 64 % 64, 0x80 + cp % 64] + rest)
         == if IsSurrogate(cp) then None else Some((cp, 3))
  {
    assert cp / 4096 % 16 == cp / 4096;
    assert cp == cp / 4096 * 4096 + cp / 64 % 64 * 64 + cp % 64;
  }

  /** A decoder that knows RFC 3629 reads back the first unit, and refuses it when it is a surrogate. */
  lemma DecodeFirstOfEncode(u: Unit, rest: seq<Byte>)
    ensures DecodeFirst(Encode(u) + rest) == if IsSurrogate(u) then None else Some((u, |Encode(u)|))
  {
    if 0x80 <= u <= 0x7FF {
      DecodeFirstOfTwo(u, rest);
    } else if 0x800 <= u {
      DecodeFirstOfThree(u, rest);
    }
  }

  ghost predicate NoSurrogates(us: seq<nat>) {
    forall k :: 0 <= k < |us| ==> !IsSurrogate(us[k])
  }

  lemma DecodeStep(head: seq<Byte>, rest: seq<Byte>, u: nat)
    requires head != []
    requires DecodeFirst(head + rest) == Some((u, |head|))
    ensures Decode(head + rest) == match Decode(rest) case None => None case Some(us) => Some([u] + us)
  {
    assert (head + rest)[|head|..] == rest;
  }

  /** The units come back from their UTF-8 form exactly when none of them is a surrogate. */
  lemma {:induction false} DecodeOfEncodeAll(us: seq<Unit>)
    ensures Decode(EncodeAll(us)) == if NoSurrogates(us) then Some(us) else None
  {
    if us != [] {
      var rest := us[1..];
      DecodeFirstOfEncode(us[0], EncodeAll(rest));
      DecodeOfEncodeAll(rest);
      assert EncodeAll(us) == Encode(us[0]) + EncodeAll(rest);
      assert |Encode(us[0])| > 0;
      assert NoSurrogates(us) <==> !IsSurrogate(us[0]) && NoSurrogates(rest) by {
        assert forall k :: 0 <= k < |rest| ==> rest[k] == us[k + 1];
        assert us == [us[0]] + rest;
      }
      if !IsSurrogate(us[0]) {
        DecodeStep(Encode(us[0]), EncodeAll(rest), us[0]);
        assert [us[0]] + rest == us;
      }
    }
  }

  lemma DecodeFirstOfFour(cp: nat, rest: seq<Byte>)
    requires 0x1_0000 <= cp <= 0x1F_FFFF
    ensures DecodeFirst([0xF0 + cp / 262144 % 8, 0x80 + cp / 4096 % 64, 0x80 + cp / 64 % 64, 0x80 + cp % 64] + rest)
         == if cp < 0x11_0000 then Some((cp, 4)) else None
  {
    assert cp / 262144 % 8 == cp / 262144;
    assert cp == cp / 262144 * 262144 + cp / 4096 % 64 * 4096 + cp / 64 % 64 * 64 + cp % 64;
  }

  /** Every code point is read back exactly if it is one that may be encoded: no surrogate, and below 0x110000. */
  lemma DecodeOfEncode(cp: nat, rest: seq<Byte>)
    requires cp <= 0x1F_FFFF
    ensures DecodeFirst(Encode(cp) + rest)
         == if cp < 0x11_0000 && !(0xD800 <= cp < 0xE000) then Some((cp, |Encode(cp)|)) else None
  {
    if cp <= 0xFFFF {
      DecodeFirstOfEncode(cp, rest);
    } else {
      DecodeFirstOfFour(cp, rest);
    }
  }

  /** Examples of section 7 of RFC 3629, one for each length. */
  lemma Examples()
    ensures Encode(0x41) == [0x41] && Encode(0x391) == [0xCE, 0x91] && Encode(0x2262) == [0xE2, 0x89, 0xA2]
    ensures Encode(0x233B4) == [0xF0, 0xA3, 0x8E, 0xB4] && Encode(0x20_0000) == []
  {
  }
}
