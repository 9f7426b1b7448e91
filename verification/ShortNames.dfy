/**
 The two directions between an 11-byte 8.3 directory name and its dotted form:
 `GetName` and `getShortName` of src/kernel/fs/fat32/fat32.c.
 */
module ShortNames {
  import opened Machine

  const SPACE: Byte := 0x20
  const DOT: Byte := 0x2E

  /** `toupper` of src/kernel/ctype.c. */
  function ToUpper(c: Byte): Byte {
    if 0x61 <= c <= 0x7A then c - 0x20 else c
  }

  /** The bytes before the first NUL, as `strncpy` copies them. */
  function UpToNul(s: seq<Byte>): (r: seq<Byte>)
    ensures r <= s && 0 !in r
    ensures |r| < |s| ==> s[|r|] == 0
  {
    if s == [] || s[0] == 0 then [] else [s[0]] + UpToNul(s[1..])
  }

  function TrimSpaces(s: seq<Byte>): (r: seq<Byte>)
    ensures r <= s
    ensures forall k :: |r| <= k < |s| ==> s[k] == SPACE
    ensures r == [] || r[|r| - 1] != SPACE
  {
    if s == [] || s[|s| - 1] != SPACE then s else TrimSpaces(s[..|s| - 1])
  }

  /** The name part: trailing spaces are trimmed only from a full eight bytes. */
  function NamePart(s: seq<Byte>): (r: seq<Byte>)
    requires |s| == 11
    ensures |r| <= 8
  {
    var name := UpToNul(s[..8]);
    if |name| == 8 then TrimSpaces(name) else name
  }

  /** The extension: its trim starts at the terminator, so no space is ever trimmed. */
  function ExtPart(s: seq<Byte>): (r: seq<Byte>)
    requires |s| == 11
    ensures |r| <= 3
  {
    UpToNul(s[8..])
  }

  /** A name and an extension, if there is one, with a dot between them. */
  function Join(n: seq<Byte>, e: seq<Byte>): seq<Byte> {
    n + if e == [] then [] else [DOT] + e
  }

  /** The characters that `GetName` prints. */
  function Dotted(s: seq<Byte>): (r: seq<Byte>)
    requires |s| == 11
  {
    Join(NamePart(s), ExtPart(s))
  }

  /**
   The C string that `GetName` leaves. `sprintf` stores no NUL; the only one is stored where a name with a dot and an
   extension ends, so that behind a name alone one byte `c` of the old output is left.
   */
  function TextLeft(s: seq<Byte>, c: Byte): (r: seq<Byte>)
    requires |s| == 11
  {
    if ExtPart(s) == [] && c != 0 then NamePart(s) + [c] else Dotted(s)
  }

  /** The index of the first `c` in `s`; None when there is none. */
  function IndexOf(s: seq<Byte>, c: Byte): (r: Option<nat>)
    ensures r.Some? ==> r.value < |s| && s[r.value] == c && c !in s[..r.value]
    ensures r.None? ==> c !in s
  {
    if s == [] then None
    else if s[0] == c then Some(0)
    else match IndexOf(s[1..], c)
      case None => None
      case Some(k) => Some(k + 1)
  }

  /** Byte `i` of the 8.3 form of a string. A dot at index 11 counts as no dot. */
  function ShortAt(name: seq<Byte>, i: nat): Byte
    requires i < 11
  {
    var dot := match IndexOf(name, DOT) case Some(k) => k case None => 11;
    if i < 8 then
      if i < |name| && i < dot then ToUpper(name[i]) else SPACE
    else if dot != 11 && dot + 1 + (i - 8) < |name| then
      ToUpper(name[dot + 1 + (i - 8)])
    else
      SPACE
  }

  function Short(name: seq<Byte>): (r: seq<Byte>)
    ensures |r| == 11
  {
    seq(11, i requires 0 <= i < 11 => ShortAt(name, i))
  }

  /** `a` holds the C string `s`. */
  ghost predicate Holds(a: seq<Byte>, s: seq<Byte>) {
    && |s| < |a| && s <= a && a[|s|] == 0 && 0 !in s
  }

  /** `strchr` of src/kernel/string.c. */
  method StrChr(str: array<Byte>, chr: Byte, ghost s: seq<Byte>) returns (at: Option<nat>)
    requires Holds(str[..], s)
    ensures at == IndexOf(s, chr)
  {
    var k := 0;
    assert s[0..] == s;
    while str[k] != 0
      invariant 0 <= k <= |s|
      invariant IndexOf(s, chr) == match IndexOf(s[k..], chr) case None => None case Some(d) => Some(k + d)
      decreases |s| - k
    {
      assert str[k] == s[k];
      if str[k] == chr {
        return Some(k);
      }
      assert s[k..][1..] == s[k + 1..];
      k := k + 1;
    }
    assert k == |s|;
    return None;
  }

  method Blank(shortName: array<Byte>)
    requires shortName.Length == 12
    modifies shortName
    ensures (forall k :: 0 <= k < 11 ==> shortName[k] == SPACE) && shortName[11] == 0
  {
    for b := 0 to 12
      invariant forall k :: 0 <= k < b ==> shortName[k] == SPACE
    {
      shortName[b] := SPACE;
    }
    shortName[11] := 0;
  }

  /** The first loop: the name as far as eight characters, its end or its dot. */
  method FillName(name: array<Byte>, shortName: array<Byte>, dot: nat, ghost s: seq<Byte>)
    requires Holds(name[..], s) && shortName.Length == 12 && name != shortName && dot <= if |s| > 11 then |s| else 11
    modifies shortName
    ensures forall k :: 0 <= k < 8 ==>
      shortName[k] == if k < |s| && k < dot then ToUpper(s[k]) else old(shortName[k])
    ensures forall k :: 8 <= k < 12 ==> shortName[k] == old(shortName[k])
  {
    var i := 0;
    while i < 8 && name[i] != 0 && i < dot
      invariant 0 <= i <= 8 && i <= |s| && i <= dot
      invariant forall k :: 0 <= k < 12 ==> shortName[k] == if k < i then ToUpper(s[k]) else old(shortName[k])
    {
      assert name[i] == s[i];
      shortName[i] := ToUpper(name[i]);
      i := i + 1;
    }
  }

  /** The second loop: what follows the dot, as far as three characters. */
  method FillExtension(name: array<Byte>, shortName: array<Byte>, dot: nat, ghost s: seq<Byte>)
    requires Holds(name[..], s) && shortName.Length == 12 && name != shortName && dot < |s|
    modifies shortName
    ensures forall k :: 0 <= k < 12 ==>
      shortName[k] == if 8 <= k < 11 && dot + k - 7 < |s| then ToUpper(s[dot + k - 7]) else old(shortName[k])
  {
    var i := 0;
    while i < 3 && name[dot + i + 1] != 0
      invariant 0 <= i <= 3 && dot + i + 1 <= |s|
      invariant forall k :: 0 <= k < 12 ==>
        shortName[k] == if 8 <= k < 8 + i then ToUpper(s[dot + k - 7]) else old(shortName[k])
    {
      assert name[dot + i + 1] == s[dot + i + 1];
      shortName[i + 8] := ToUpper(name[dot + i + 1]);
      i := i + 1;
    }
  }

  /** `getShortName`: the 8.3 form of a C string, and a NUL. */
  method GetShortName(name: array<Byte>, shortName: array<Byte>, ghost s: seq<Byte>)
    requires Holds(name[..], s) && shortName.Length == 12 && name != shortName
    modifies shortName
    ensures shortName[..11] == Short(s) && shortName[11] == 0
  {
    Blank(shortName);
    var ext := StrChr(name, DOT, s);
    var dot := match ext case Some(k) => k case None => 11;
    FillName(name, shortName, dot, s);
    if dot != 11 {
      FillExtension(name, shortName, dot, s);
    }
    forall k | 0 <= k < 11 ensures shortName[k] == ShortAt(s, k) {
    }
  }

  lemma {:induction false} UpToNulIs(s: seq<Byte>, k: nat)
    requires k <= |s| && (forall m :: 0 <= m < k ==> s[m] != 0) && (k < |s| ==> s[k] == 0)
    ensures UpToNul(s) == s[..k]
  {
    if k > 0 {
      UpToNulIs(s[1..], k - 1);
      assert s[..k] == [s[0]] + s[1..][..k - 1];
    }
  }

  /** `strncpy(dst, src + from, n)`: the bytes before the first NUL, then NULs. */
  method StrNCpy(dst: array<Byte>, src: array<Byte>, from: nat, n: nat)
    requires from + n <= src.Length && n < dst.Length && dst != src
    requires forall k :: 0 <= k < dst.Length ==> dst[k] == 0
    modifies dst
    ensures Holds(dst[..], UpToNul(src[from..from + n]))
    ensures forall k :: |UpToNul(src[from..from + n])| <= k < dst.Length ==> dst[k] == 0
  {
    var k := 0;
    while k < n && src[from + k] != 0
      invariant 0 <= k <= n
      invariant forall m :: 0 <= m < k ==> dst[m] == src[from + m] && dst[m] != 0
      invariant forall m :: k <= m < dst.Length ==> dst[m] == 0
    {
      dst[k] := src[from + k];
      k := k + 1;
    }
    ghost var w := src[from..from + n];
    forall m | 0 <= m < k ensures w[m] == dst[m] && w[m] != 0 {
      assert w[m] == src[from + m];
    }
    UpToNulIs(w, k);
  }

  lemma {:induction false} TrimSnoc(s: seq<Byte>)
    requires s != []
    ensures s[|s| - 1] == SPACE ==> TrimSpaces(s) == TrimSpaces(s[..|s| - 1])
    ensures s[|s| - 1] != SPACE ==> TrimSpaces(s) == s
  {
  }

  /** The trimming loop: spaces from index `last` down become NULs. */
  method TrimFrom(buf: array<Byte>, last: int, ghost s: seq<Byte>)
    requires Holds(buf[..], s) && |s| - 1 <= last < buf.Length
    requires forall k :: |s| <= k < buf.Length ==> buf[k] == 0
    modifies buf
    ensures Holds(buf[..], if |s| == last + 1 then TrimSpaces(s) else s)
  {
    var i := last;
    ghost var t := s;
    while i >= 0 && buf[i] == SPACE
      invariant -1 <= i <= last
      invariant |s| == last + 1 ==> |t| == i + 1 && TrimSpaces(t) == TrimSpaces(s)
      invariant |s| != last + 1 ==> t == s && i == last
      invariant Holds(buf[..], t)
      invariant forall k :: |t| <= k < buf.Length ==> buf[k] == 0
    {
      assert buf[i] == buf[..][i];
      TrimSnoc(t);
      t := t[..i];
      buf[i] := 0;
      i := i - 1;
    }
  }

  /** The part of `sprintf` that a `%s` makes: copies a C string, without its NUL, to `at`. */
  method Append(output: array<Byte>, at: nat, buf: array<Byte>, ghost done: seq<Byte>, ghost s: seq<Byte>) returns (next: nat)
    requires Holds(buf[..], s) && buf != output
    requires at == |done| && at + |s| < output.Length && output[..at] == done
    modifies output
    ensures next == at + |s| && output[..next] == done + s
    ensures forall k :: next <= k < output.Length ==> output[k] == old(output[k])
  {
    var k := 0;
    while buf[k] != 0
      invariant 0 <= k <= |s|
      invariant forall m :: at + k <= m < output.Length ==> output[m] == old(output[m])
      invariant output[..at + k] == done + s[..k]
      invariant Holds(buf[..], s)
      decreases |s| - k
    {
      assert buf[k] == buf[..][k] == s[k];
      output[at + k] := buf[k];
      k := k + 1;
      assert s[..k] == s[..k - 1] + [s[k - 1]];
    }
    assert buf[k] == buf[..][k];
    return at + k;
  }

  /** `strlen`. */
  method StrLen(str: array<Byte>, ghost s: seq<Byte>) returns (len: nat)
    requires Holds(str[..], s)
    ensures len == |s|
  {
    len := 0;
    while str[len] != 0
      invariant 0 <= len <= |s|
      decreases |s| - len
    {
      assert str[len] == str[..][len];
      len := len + 1;
    }
    assert str[len] == str[..][len];
  }

  /** A part of the 8.3 name in a buffer of its own, trimmed from index `last` down. */
  method LoadPart(shortName: array<Byte>, from: nat, n: nat, last: nat) returns (buf: array<Byte>)
    requires from + n <= shortName.Length && n - 1 <= last <= n
    ensures fresh(buf)
    ensures var u := UpToNul(shortName[from..from + n]);
      Holds(buf[..], if |u| == last + 1 then TrimSpaces(u) else u)
  {
    buf := new Byte[n + 1](_ => 0);
    StrNCpy(buf, shortName, from, n);
    TrimFrom(buf, last, UpToNul(shortName[from..from + n]));
  }

  /** The `sprintf` calls at the end of `GetName`, which store no NUL, and the NUL stored after them. */
  method Format(name: array<Byte>, ext: array<Byte>, output: array<Byte>, ghost n: seq<Byte>, ghost e: seq<Byte>)
    requires Holds(name[..], n) && Holds(ext[..], e) && name != output && ext != output
    requires |n| + |e| + 1 < output.Length
    modifies output
    ensures Join(n, e) <= output[..] && output[|n| + |e| + 1] == 0
    ensures forall k :: |Join(n, e)| <= k < output.Length && k != |n| + |e| + 1 ==> output[k] == old(output[k])
  {
    var end := Append(output, 0, name, [], n);
    assert ext[0] == ext[..][0];
    if ext[0] != 0 {
      output[end] := DOT;
      assert output[..end + 1] == n + [DOT];
      end := Append(output, end + 1, ext, n + [DOT], e);
      assert n + [DOT] + e == Join(n, e);
    }
    assert output[..end] == Join(n, e);
    var namelen := StrLen(name, n);
    var extlen := StrLen(ext, e);
    output[namelen + extlen + 1] := 0;
    assert output[..end] == Join(n, e);
  }

  /** `now` is `before` after `GetName` of `s`. */
  ghost predicate Formatted(before: seq<Byte>, now: seq<Byte>, s: seq<Byte>)
    requires |s| == 11
  {
    && |now| == |before| >= 13
    && Dotted(s) <= now
    && now[|NamePart(s)| + |ExtPart(s)| + 1] == 0
    && forall k :: |Dotted(s)| <= k < |now| && k != |NamePart(s)| + |ExtPart(s)| + 1 ==> now[k] == before[k]
  }

  lemma PartsHaveNoNul(s: seq<Byte>)
    requires |s| == 11
    ensures 0 !in NamePart(s) && 0 !in ExtPart(s)
  {
  }

  lemma FormattedHolds(before: seq<Byte>, now: seq<Byte>, s: seq<Byte>)
    requires |s| == 11 && Formatted(before, now, s)
    ensures Holds(now, TextLeft(s, before[|NamePart(s)|]))
    ensures Holds(now, Dotted(s)) <==> ExtPart(s) != [] || before[|NamePart(s)|] == 0
  {
    PartsHaveNoNul(s);
    var n, e := NamePart(s), ExtPart(s);
    assert e == [] ==> Dotted(s) == n && now[|n|] == before[|n|];
  }

  method LoadParts(shortName: array<Byte>) returns (name: array<Byte>, ext: array<Byte>)
    requires shortName.Length >= 11
    ensures fresh(name) && fresh(ext)
    ensures Holds(name[..], NamePart(shortName[..11])) && Holds(ext[..], ExtPart(shortName[..11]))
  {
    ghost var s := shortName[..11];
    assert shortName[0..8] == s[..8] && shortName[8..11] == s[8..];
    name := LoadPart(shortName, 0, 8, 7);
    ext := LoadPart(shortName, 8, 3, 3);
  }

  /**
   `GetName`: the dotted form of an 8.3 name. It is a C string of its own exactly if there is an extension, or the byte
   behind the name was NUL before.
   */
  method GetName(shortName: array<Byte>, output: array<Byte>)
    requires shortName.Length >= 11 && output.Length >= 13 && shortName != output
    modifies output
    ensures Formatted(old(output[..]), output[..], shortName[..11])
    ensures var s := shortName[..11]; var c := old(output[..])[|NamePart(s)|];
      && Holds(output[..], TextLeft(s, c))
      && (Holds(output[..], Dotted(s)) <==> ExtPart(s) != [] || c == 0)
  {
    ghost var s, before := shortName[..11], output[..];
    var name, ext := LoadParts(shortName);
    Format(name, ext, output, NamePart(s), ExtPart(s));
    assert Formatted(before, output[..], s);
    FormattedHolds(before, output[..], s);
  }

  /** The name "A" without an extension, into an output whose second byte was "x", reads as "Ax". */
  lemma StaleByteShows(s: seq<Byte>)
    requires s == [0x41, 0, 0, 0, 0, 0, 0, 0, 0, 0, 0]
    ensures Dotted(s) == [0x41] && TextLeft(s, 0x78) == [0x41, 0x78]
  {
    var name, rest := s[..8], s[..8][1..];
    assert rest[0] == 0 && UpToNul(rest) == [];
    assert name == [0x41] + rest && s[8..][0] == 0;
  }

  /** Small letters become capital letters, and all else stays. */
  lemma ToUpperIs(c: char)
    requires c < 128 as char
    ensures ToUpper(c as nat)
         == if 'a' <= c <= 'z' then 'A' as nat + (c as nat - 'a' as nat) else c as nat
  {
  }

  /** The 8.3 form of a name and an extension, up to eight and three characters of them, in capital letters. */
  lemma ShortIs(n: seq<Byte>, e: seq<Byte>, k: nat)
    requires 0x2E !in n && |n| != 11 && k < 11
    ensures Short(n + [0x2E] + e)[k]
         == if k < 8 then (if k < |n| then ToUpper(n[k]) else 0x20)
            else if k - 8 < |e| then ToUpper(e[k - 8]) else 0x20
  {
    IndexOfConcat(n, 0x2E, e);
    var name := n + [0x2E] + e;
    assert Short(name)[k] == ShortAt(name, k);
  }

  /** Two names that differ at most in small and capital letters. */
  predicate SameButCase(a: seq<Byte>, b: seq<Byte>) {
    |a| == |b| && forall i :: 0 <= i < |a| ==> ToUpper(a[i]) == ToUpper(b[i])
  }

  lemma {:induction false} SameDot(a: seq<Byte>, b: seq<Byte>)
    requires SameButCase(a, b)
    ensures IndexOf(a, DOT) == IndexOf(b, DOT)
  {
    if a != [] {
      SameDot(a[1..], b[1..]);
    }
  }

  /** They have the same 8.3 form, so that looking up a name ignores case. */
  lemma IgnoresCase(a: seq<Byte>, b: seq<Byte>)
    requires SameButCase(a, b)
    ensures Short(a) == Short(b)
  {
    SameDot(a, b);
    forall i | 0 <= i < 11 ensures ShortAt(a, i) == ShortAt(b, i) {
    }
  }

  lemma {:induction false} TrimmedTo(s: seq<Byte>, n: nat)
    requires n <= |s| && (n > 0 ==> s[n - 1] != 0x20) && forall k :: n <= k < |s| ==> s[k] == 0x20
    ensures TrimSpaces(s) == s[..n]
    decreases |s|
  {
    if n < |s| {
      TrimmedTo(s[..|s| - 1], n);
      assert s[..|s| - 1][..n] == s[..n];
    } else {
      assert s[..n] == s;
    }
  }

  /** The dotted form of a name without NUL: its first eight bytes without the spaces at their end, and its last three. */
  lemma DottedIs(s: seq<Byte>, n: nat)
    requires |s| == 11 && 0 !in s && n <= 8
    requires (n > 0 ==> s[n - 1] != 0x20) && forall k :: n <= k < 8 ==> s[k] == 0x20
    ensures Dotted(s) == s[..n] + [0x2E] + s[8..]
  {
    UpToNulIs(s[..8], 8);
    UpToNulIs(s[8..], 3);
    TrimmedTo(s[..8], n);
    assert s[..8][..n] == s[..n] && s[..8][..8] == s[..8] && s[8..][..3] == s[8..];
  }

  /** What a name must be like to survive the round trip: no NUL, no small letter, and no dot in the first eight bytes. */
  predicate RoundTrips(s: seq<Byte>)
    requires |s| == 11
  {
    && (forall i :: 0 <= i < 11 ==> s[i] != 0 && !(0x61 <= s[i] <= 0x7A))
    && (forall i :: 0 <= i < 8 ==> s[i] != 0x2E)
  }

  lemma {:induction false} IndexOfConcat(s: seq<Byte>, c: Byte, t: seq<Byte>)
    requires c !in s
    ensures IndexOf(s + [c] + t, c) == Some(|s|)
  {
    if s != [] {
      assert (s + [c] + t)[1..] == s[1..] + [c] + t;
      IndexOfConcat(s[1..], c, t);
    }
  }

  lemma SurvivesWhenClean(s: seq<Byte>)
    requires |s| == 11 && RoundTrips(s)
    ensures ExtPart(s) != [] && Short(Dotted(s)) == s
  {
    var n, e := NamePart(s), ExtPart(s);
    assert UpToNul(s[..8]) == s[..8] && e == s[8..];
    assert Dotted(s) == n + [DOT] + e;
    IndexOfConcat(n, DOT, e);
    forall i | 0 <= i < 11 ensures ShortAt(Dotted(s), i) == s[i] {
    }
  }

  lemma ShortIsClean(name: seq<Byte>)
    requires 0 !in name
    ensures RoundTrips(Short(name))
  {
    var dot := IndexOf(name, DOT);
    forall i | 0 <= i < 8 ensures ShortAt(name, i) != DOT {
      if dot.Some? && i < dot.value {
        assert name[..dot.value][i] == name[i];
      }
    }
  }

  /**
   `getShortName` after `GetName` is the identity exactly on the names that can be 8.3 names, whatever byte `c` the
   output held before.
   */
  lemma ShortNameRoundTrip(s: seq<Byte>, c: Byte)
    requires |s| == 11
    ensures Short(TextLeft(s, c)) == s <==> RoundTrips(s)
  {
    if RoundTrips(s) {
      SurvivesWhenClean(s);
    } else {
      ShortIsClean(TextLeft(s, c));
    }
  }
}
