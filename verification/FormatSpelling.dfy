/**
 Specifiers of src/kernel/printfDriver/printf.c as a caller writes them: flags, width and length are read back as they
 were meant, and the number is printed with them.
 */
module FormatSpelling {
  import opened Machine
  import opened PrintInteger
  import opened IntegerLayout
  import opened FormatString
  import opened FormatLayout
  import opened Itoa

  /** The length fields that may be written, and what they mean: `t` and `z` are as wide as `l`, and `j` as `ll`. */
  predicate IsLength(length: string) {
    || length == "" || length == "hh" || length == "h" || length == "l" || length == "ll"
    || length == "t" || length == "z" || length == "j"
  }

  function SizeOf(length: string): Size {
    if length == "hh" then Char
    else if length == "h" then Short
    else if length == "" then Int
    else if length == "ll" || length == "j" then LongLong
    else Long
  }

  /** A width that is not written, or a number that is not 0, or a star. */
  datatype Width = Unwritten | Number(n: Word) | Star

  /** A conversion as a caller writes it: flags, width, a precision from the arguments or none, length and letter. */
  datatype Spec = Spec(flags: string, width: Width, precise: bool, length: string, letter: char)

  function WidthText(width: Width): string {
    match width
    case Unwritten => ""
    case Number(n) => Numeral(n, 10, NO_FLAGS)
    case Star => "*"
  }

  function PrecisionText(precise: bool): string {
    if precise then ".*" else ""
  }

  function Spelled(spec: Spec): string {
    "%" + spec.flags + WidthText(spec.width) + PrecisionText(spec.precise) + spec.length + [spec.letter]
  }

  /** A character that can end a conversion, because it is no part of what may come before its letter. */
  predicate IsLetter(c: char) {
    && c != '\0' && !IsFlag(c) && !IsDigit(c) && c != '*' && c != '.'
    && c != 'h' && c != 'l' && c != 'j' && c != 't' && c != 'z'
  }

  predicate SpecOk(spec: Spec) {
    && AllFlags(spec.flags) && IsLength(spec.length) && IsLetter(spec.letter)
    && (spec.width.Number? ==> spec.width.n > 0)
  }

  /** The width that is meant, whether it sets the text to the left, and the argument after it. */
  function WidthMeant(width: Width, arg: nat, args: Arguments): (Word, bool, nat) {
    match width
    case Unwritten => (0, false, arg)
    case Number(n) => (n, false, arg)
    case Star =>
      var w := args.word(arg);
      if w < 0x8000_0000 then (w, false, arg + 1) else (0x1_0000_0000 - w, true, arg + 1)
  }

  /** The precision that is meant, and the argument after it; a negative one counts as 0. */
  function PrecisionMeant(precise: bool, arg: nat, args: Arguments): (Word, nat) {
    if !precise then (0, arg)
    else if args.word(arg) < 0x8000_0000 then (args.word(arg), arg + 1)
    else (0, arg + 1)
  }

  /** What is to be read of a specifier whose letter is at `e`. */
  function Meant(spec: Spec, e: nat, arg: nat, args: Arguments): Specifier {
    var (width, left, arg1) := WidthMeant(spec.width, arg, args);
    var (precision, arg2) := PrecisionMeant(spec.precise, arg1, args);
    var flags := WithAll(NO_FLAGS, spec.flags);
    Specifier(flags.(left := flags.left || left, precision := spec.precise, size := SizeOf(spec.length)),
              width, precision, e, arg2)
  }

  predicate AllFlags(t: string) {
    forall k :: 0 <= k < |t| ==> IsFlag(t[k])
  }

  function WithAll(flags: Flags, t: string): Flags
    decreases |t|
  {
    if t == "" then flags else WithAll(WithFlag(flags, t[0]), t[1..])
  }

  /** Whether a flag is set. */
  predicate HasFlag(flags: Flags, c: char) {
    if c == '0' then flags.zeropad
    else if c == '-' then flags.left
    else if c == '+' then flags.plus
    else if c == ' ' then flags.space
    else flags.hash
  }

  /** What the characters of flags do not set. */
  predicate SameOthers(f: Flags, g: Flags) {
    && f.uppercase == g.uppercase && f.size == g.size && f.precision == g.precision && f.pointer == g.pointer
    && f.signed == g.signed
  }

  lemma OneMoreFlag(flags: Flags, d: char, c: char)
    requires IsFlag(c) && IsFlag(d)
    ensures HasFlag(WithFlag(flags, d), c) <==> HasFlag(flags, c) || c == d
    ensures SameOthers(WithFlag(flags, d), flags)
  {
  }

  lemma OthersTransitive(f: Flags, g: Flags, h: Flags)
    requires SameOthers(f, g) && SameOthers(g, h)
    ensures SameOthers(f, h)
  {
  }

  lemma {:induction false} WithAllSets(flags: Flags, t: string, c: char)
    requires AllFlags(t) && IsFlag(c)
    ensures HasFlag(WithAll(flags, t), c) <==> HasFlag(flags, c) || c in t
    decreases |t|
  {
    if t != "" {
      assert t == [t[0]] + t[1..];
      OneMoreFlag(flags, t[0], c);
      WithAllSets(WithFlag(flags, t[0]), t[1..], c);
    }
  }

  lemma {:induction false} WithAllKeeps(flags: Flags, t: string)
    requires AllFlags(t)
    ensures SameOthers(WithAll(flags, t), flags)
    decreases |t|
  {
    if t != "" {
      var next := WithFlag(flags, t[0]);
      OneMoreFlag(flags, t[0], '0');
      WithAllKeeps(next, t[1..]);
      OthersTransitive(WithAll(next, t[1..]), next, flags);
    }
  }

  /** Which flags a text sets: those whose characters are in it, in any order and number. */
  lemma WithAllMeans(t: string)
    requires AllFlags(t)
    ensures WithAll(NO_FLAGS, t)
         == NO_FLAGS.(zeropad := '0' in t, left := '-' in t, plus := '+' in t, space := ' ' in t, hash := '#' in t)
  {
    WithAllSets(NO_FLAGS, t, '0');
    WithAllSets(NO_FLAGS, t, '-');
    WithAllSets(NO_FLAGS, t, '+');
    WithAllSets(NO_FLAGS, t, ' ');
    WithAllSets(NO_FLAGS, t, '#');
    WithAllKeeps(NO_FLAGS, t);
  }

  /** Flags are read one after the other. */
  lemma {:induction false} FlagsRead(s: CString, i: nat, t: string, flags: Flags)
    requires AllFlags(t) && i + |t| <= |s| && s[i..i + |t|] == t
    ensures ParsedFlags(s, i, flags) == ParsedFlags(s, i + |t|, WithAll(flags, t))
    decreases |t|
  {
    if t != "" {
      assert s[i] == s[i..i + |t|][0] == t[0];
      assert s[i + 1..i + |t|] == t[1..];
      FlagsRead(s, i + 1, t[1..], WithFlag(flags, t[0]));
    }
  }

  /** A number has no leading zero, so that its first digit is not taken for a flag. */
  lemma {:induction false} NoLeadingZero(n: nat)
    requires n > 0
    ensures Digits(n, 10, false) != "" && Digits(n, 10, false)[|Digits(n, 10, false)| - 1] != '0'
  {
    if High(n, 10) > 0 {
      NoLeadingZero(High(n, 10));
    }
  }

  lemma NumberStarts(n: Word)
    requires n > 0
    ensures var text := Numeral(n, 10, NO_FLAGS);
      AllDecimal(text) && '\0' !in text && text != "" && text[0] != '0'
  {
    NumeralDecimal(n);
    NoLeadingZero(n);
    ReverseAt(Digits(n, 10, false), 0);
  }

  /**
   A specifier at position `i` of a format, cut into its parts: flags up to `a`, width to `b`, precision to `d`, length to
   `e`, and the letter.
   */
  ghost predicate Parts(s: string, i: nat, spec: Spec, a: nat, b: nat, d: nat, e: nat) {
    && i < a <= b <= d <= e < |s| && s[i] == '%' && s[e] == spec.letter
    && s[i + 1..a] == spec.flags && s[a..b] == WidthText(spec.width)
    && s[b..d] == PrecisionText(spec.precise) && s[d..e] == spec.length
  }

  /** The specifier is written at position `i`. */
  predicate WrittenAt(s: string, i: nat, spec: Spec) {
    i + |Spelled(spec)| <= |s| && s[i..i + |Spelled(spec)|] == Spelled(spec)
  }

  lemma FiveParts(q: string, r: string, t: string, u: string, c: char)
    ensures var s, a := "%" + q + r + t + u + [c], 1 + |q|;
      var b, d, e := a + |r|, a + |r| + |t|, a + |r| + |t| + |u|;
      && |s| == e + 1 && s[0] == '%' && s[e] == c
      && s[1..a] == q && s[a..b] == r && s[b..d] == t && s[d..e] == u
  {
  }

  lemma SliceAt(s: string, i: nat, t: string, x: nat, y: nat)
    requires i + |t| <= |s| && s[i..i + |t|] == t && x <= y <= |t|
    ensures s[i + x..i + y] == t[x..y] && (x < |t| ==> s[i + x] == t[x])
  {
    var u := s[i..i + |t|];
    forall k | 0 <= k < |t| ensures s[i + k] == t[k] {
      assert u[k] == s[i + k];
    }
  }

  lemma CutParts(s: string, i: nat, text: string, q: string, r: string, t: string, u: string, c: char)
    requires text == "%" + q + r + t + u + [c] && i + |text| <= |s| && s[i..i + |text|] == text
    ensures var a := i + 1 + |q|;
      var b, d, e := a + |r|, a + |r| + |t|, a + |r| + |t| + |u|;
      && e + 1 == i + |text| && s[i] == '%' && s[e] == c
      && s[i + 1..a] == q && s[a..b] == r && s[b..d] == t && s[d..e] == u
  {
    FiveParts(q, r, t, u, c);
    var x := 1 + |q|;
    var y := x + |r|;
    var z := y + |t|;
    SliceAt(s, i, text, 0, 0);
    SliceAt(s, i, text, 1, x);
    SliceAt(s, i, text, x, y);
    SliceAt(s, i, text, y, z);
    SliceAt(s, i, text, z, z + |u|);
    SliceAt(s, i, text, z + |u|, z + |u|);
  }

  ghost predicate HasParts(s: string, i: nat, spec: Spec, e: nat) {
    exists a, b, d :: Parts(s, i, spec, a, b, d, e)
  }

  lemma SpelledParts(s: string, i: nat, spec: Spec)
    requires WrittenAt(s, i, spec)
    ensures HasParts(s, i, spec, i + |Spelled(spec)| - 1)
  {
    var q, r := spec.flags, WidthText(spec.width);
    var t, u := PrecisionText(spec.precise), spec.length;
    CutParts(s, i, Spelled(spec), q, r, t, u, spec.letter);
    var a := i + 1 + |q|;
    assert Parts(s, i, spec, a, a + |r|, a + |r| + |t|, a + |r| + |t| + |u|);
  }

  lemma SpelledIsString(spec: Spec)
    requires SpecOk(spec)
    ensures '\0' !in Spelled(spec)
  {
    if spec.width.Number? {
      NumberStarts(spec.width.n);
    }
  }

  lemma StartsWith(s: string, a: nat, b: nat, t: string)
    requires a <= b <= |s| && s[a..b] == t && t != ""
    ensures a < b && s[a] == t[0]
  {
    assert s[a..b][0] == s[a];
  }

  /** At the start of the length there is no digit, flag, star or dot. */
  lemma AtLength(s: CString, i: nat, spec: Spec, a: nat, b: nat, d: nat, e: nat)
    requires Parts(s, i, spec, a, b, d, e) && SpecOk(spec)
    ensures !IsDigit(s[d]) && !IsFlag(s[d]) && s[d] != '*' && s[d] != '.'
  {
    if d < e {
      StartsWith(s, d, e, spec.length);
    }
  }

  /** At the start of the precision there is no digit, flag or star. */
  lemma AtPrecision(s: CString, i: nat, spec: Spec, a: nat, b: nat, d: nat, e: nat)
    requires Parts(s, i, spec, a, b, d, e) && SpecOk(spec)
    ensures !IsDigit(s[b]) && !IsFlag(s[b]) && s[b] != '*' && (s[b] == '.' <==> spec.precise)
  {
    AtLength(s, i, spec, a, b, d, e);
    if spec.precise {
      StartsWith(s, b, d, ".*");
    }
  }

  lemma NoFlagStarts(width: Width)
    requires width != Unwritten && (width.Number? ==> width.n > 0)
    ensures WidthText(width) != "" && !IsFlag(WidthText(width)[0])
  {
    if width.Number? {
      NumberStarts(width.n);
    }
  }

  /** At the start of the width there is no flag. */
  lemma AtWidth(s: CString, i: nat, spec: Spec, a: nat, b: nat, d: nat, e: nat)
    requires Parts(s, i, spec, a, b, d, e) && SpecOk(spec)
    ensures !IsFlag(s[a])
  {
    if spec.width == Unwritten {
      AtPrecision(s, i, spec, a, b, d, e);
    } else {
      NoFlagStarts(spec.width);
      StartsWith(s, a, b, WidthText(spec.width));
    }
  }

  lemma FlagsParsed(s: CString, i: nat, t: string, a: nat)
    requires i < a < |s| && s[i + 1..a] == t && AllFlags(t) && !IsFlag(s[a])
    ensures ParsedFlags(s, i + 1, NO_FLAGS) == (WithAll(NO_FLAGS, t), a)
  {
    FlagsRead(s, i + 1, t, NO_FLAGS);
  }

  lemma NumberParsed(s: CString, a: nat, b: nat, n: Word)
    requires n > 0 && a <= b < |s| && s[a..b] == Numeral(n, 10, NO_FLAGS) && !IsDigit(s[b])
    ensures IsDigit(At(s, a)) && ParsedNumber(s, a, 0) == (n, b)
  {
    var text := Numeral(n, 10, NO_FLAGS);
    NumberStarts(n);
    assert s[a] == s[a..b][0] && b == a + |text|;
    NumeralReadsBack(n, 10, NO_FLAGS);
    DecimalReads(s, a, text);
  }

  /** The width is read as it is meant. */
  lemma WidthParsed(s: CString, p: Specifier, width: Width, b: nat, args: Arguments)
    requires p.Specifier? && p.width == 0 && p.next <= b < |s| && s[p.next..b] == WidthText(width)
    requires !IsDigit(s[b]) && s[b] != '*' && (width.Number? ==> width.n > 0)
    ensures var (w, left, arg) := WidthMeant(width, p.arg, args);
      ParsedWidth(s, p, args) == p.(width := w, flags := p.flags.(left := p.flags.left || left), next := b, arg := arg)
  {
    match width
    case Unwritten =>
    case Number(n) => NumberParsed(s, p.next, b, n);
    case Star => assert s[p.next] == s[p.next..b][0];
  }

  /** So is the precision. */
  lemma PrecisionParsed(s: CString, p: Specifier, precise: bool, d: nat, args: Arguments)
    requires p.Specifier? && !p.flags.precision && p.precision == 0 && p.next <= d < |s|
    requires s[p.next..d] == PrecisionText(precise) && (s[p.next] == '.' <==> precise)
    ensures var (n, arg) := PrecisionMeant(precise, p.arg, args);
      ParsedPrecision(s, p, args) == p.(precision := n, flags := p.flags.(precision := precise), next := d, arg := arg)
  {
    if precise {
      assert s[p.next + 1] == s[p.next..d][1];
    }
  }

  lemma NoLetterParsed(s: CString, p: Specifier)
    requires p.Specifier? && p.next < |s| && IsLetter(s[p.next])
    ensures ParsedLength(s, p) == p
  {
  }

  lemma OneLetterParsed(s: CString, p: Specifier, length: string)
    requires p.Specifier? && p.flags.size == Int && p.next + 1 < |s| && IsLength(length) && |length| == 1
    requires s[p.next] == length[0] && IsLetter(s[p.next + 1])
    ensures ParsedLength(s, p) == p.(flags := p.flags.(size := SizeOf(length)), next := p.next + 1)
  {
    var size := SizeOf(length);
    assert Sized(s, p, size) == p.(flags := p.flags.(size := size), next := p.next + 1);
  }

  lemma TwoLettersParsed(s: CString, p: Specifier, length: string)
    requires p.Specifier? && p.flags.size == Int && p.next + 2 < |s| && (length == "hh" || length == "ll")
    requires s[p.next] == s[p.next + 1] == length[0]
    ensures ParsedLength(s, p) == p.(flags := p.flags.(size := SizeOf(length)), next := p.next + 2)
  {
    var size, half := SizeOf(length), if length == "hh" then Short else Long;
    var q := Sized(s, p, half);
    assert q == p.(flags := p.flags.(size := half), next := p.next + 1);
    assert Sized(s, q, size) == p.(flags := p.flags.(size := size), next := p.next + 2);
  }

  /** And so is the length. */
  lemma LengthParsed(s: CString, p: Specifier, length: string, e: nat)
    requires p.Specifier? && p.flags.size == Int && p.next <= e < |s| && IsLength(length)
    requires s[p.next..e] == length && IsLetter(s[e])
    ensures ParsedLength(s, p) == p.(flags := p.flags.(size := SizeOf(length)), next := e)
  {
    assert p.next < e ==> s[p.next] == s[p.next..e][0];
    if length == "" {
      NoLetterParsed(s, p);
    } else if |length| == 1 {
      OneLetterParsed(s, p, length);
    } else {
      assert s[p.next + 1] == s[p.next..e][1];
      TwoLettersParsed(s, p, length);
    }
  }

  lemma PartsParsed(s: CString, i: nat, spec: Spec, a: nat, b: nat, d: nat, e: nat, arg: nat, args: Arguments)
    requires Parts(s, i, spec, a, b, d, e) && SpecOk(spec)
    ensures Parsed(s, i, arg, args) == Meant(spec, e, arg, args)
  {
    AtWidth(s, i, spec, a, b, d, e);
    FlagsParsed(s, i, spec.flags, a);
    WithAllMeans(spec.flags);
    var p := Specifier(WithAll(NO_FLAGS, spec.flags), 0, 0, a, arg);
    AtPrecision(s, i, spec, a, b, d, e);
    WidthParsed(s, p, spec.width, b, args);
    var q := ParsedWidth(s, p, args);
    PrecisionParsed(s, q, spec.precise, d, args);
    var r := ParsedPrecision(s, q, args);
    LengthParsed(s, r, spec.length, e);
  }

  lemma HasPartsParsed(s: CString, i: nat, spec: Spec, e: nat, arg: nat, args: Arguments)
    requires HasParts(s, i, spec, e) && SpecOk(spec)
    ensures i < e < |s| && Parsed(s, i, arg, args) == Meant(spec, e, arg, args) && s[i] == '%' && s[e] == spec.letter
  {
    var a, b, d :| Parts(s, i, spec, a, b, d, e);
    PartsParsed(s, i, spec, a, b, d, e, arg, args);
  }

  /** A specifier is read as it was meant, wherever it stands in a format. */
  lemma SpelledParses(s: CString, i: nat, spec: Spec, arg: nat, args: Arguments)
    requires WrittenAt(s, i, spec) && SpecOk(spec)
    ensures Parsed(s, i, arg, args) == Meant(spec, i + |Spelled(spec)| - 1, arg, args)
  {
    SpelledParts(s, i, spec);
    HasPartsParsed(s, i, spec, i + |Spelled(spec)| - 1, arg, args);
  }

  /** The text of a conversion, and the argument after it. */
  function SpecText(spec: Spec, arg: nat, args: Arguments): string {
    Converted(Meant(spec, 0, arg, args), spec.letter, args)
  }

  function SpecNext(spec: Spec, arg: nat, args: Arguments): nat {
    Meant(spec, 0, arg, args).arg + if TakesArgument(spec.letter) then 1 else 0
  }

  lemma PlaceDoesNotMatter(p: Specifier, next: nat, c: char, args: Arguments)
    requires p.Specifier?
    ensures Converted(p.(next := next), c, args) == Converted(p, c, args)
  {
  }

  lemma PartsTurn(s: CString, i: nat, spec: Spec, e: nat, arg: nat, args: Arguments)
    requires HasParts(s, i, spec, e) && SpecOk(spec)
    ensures i < |s| && Turned(s, i, arg, args) == Turn(SpecText(spec, arg, args), e + 1, SpecNext(spec, arg, args), false)
  {
    HasPartsParsed(s, i, spec, e, arg, args);
    PlaceDoesNotMatter(Meant(spec, 0, arg, args), e, spec.letter, args);
  }

  /** One turn of the loop prints a specifier, and goes on behind it with the next argument. */
  lemma SpelledTurns(s: CString, i: nat, spec: Spec, arg: nat, args: Arguments)
    requires WrittenAt(s, i, spec) && SpecOk(spec)
    ensures i < |s| && Turned(s, i, arg, args)
         == Turn(SpecText(spec, arg, args), i + |Spelled(spec)|, SpecNext(spec, arg, args), false)
  {
    SpelledParts(s, i, spec);
    PartsTurn(s, i, spec, i + |Spelled(spec)| - 1, arg, args);
  }

  /**
   Whatever flags, width and length are written, an integer conversion prints the layout of its argument with them, if
   and only if that fits the buffer.
   */
  lemma SpelledPrints(spec: Spec, arg: nat, args: Arguments)
    requires AllFlags(spec.flags) && !spec.precise && IsIntegerLetter(spec.letter)
    ensures var p, c := Meant(spec, 0, arg, args), spec.letter;
      var flags := IntegerFlags(p.flags, c);
      var value := IntegerArgument(flags, p.arg, args, flags.signed);
      SpecText(spec, arg, args) == Layout(Abs(value), value < 0, Base(c), p.width, flags)
      <==> Fits(Abs(value), value < 0, Base(c), p.width, flags)
  {
    WithAllMeans(spec.flags);
    var p := Meant(spec, 0, arg, args);
    var flags := IntegerFlags(p.flags, spec.letter);
    var value := IntegerArgument(flags, p.arg, args, flags.signed);
    PrintedIsLayout(Abs(value), value < 0, Base(spec.letter), p.width, flags);
  }
}
