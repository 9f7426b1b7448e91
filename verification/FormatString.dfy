/**
 The format loop of src/kernel/printfDriver/printf.c and the number reader of src/kernel/string.c: what a format and
 its arguments print, whatever the capacity of the output.
 */
module FormatString {
  import opened Machine
  import opened Gadget
  import opened PrintInteger

  type CString = s: string | '\0' !in s

  const INT_MAX: nat := 0x7FFF_FFFF

  /**
   The variable arguments: what reading the n-th one gives, as a word, as a `long long`, or as a text, and the text
   that its floating-point conversions print.
   */
  datatype Arguments = Arguments(
    word: nat -> Word,
    wide: nat -> nat,
    text: nat -> Option<CString>,
    float: (nat, char, nat, nat, Flags) -> string)

  function At(s: CString, i: nat): char {
    if i < |s| then s[i] else '\0'
  }

  predicate IsDigit(c: char) {
    '0' <= c <= '9'
  }

  predicate IsFlag(c: char) {
    c == '0' || c == '-' || c == '+' || c == ' ' || c == '#'
  }

  function WithFlag(flags: Flags, c: char): Flags {
    flags.(zeropad := flags.zeropad || c == '0', left := flags.left || c == '-', plus := flags.plus || c == '+',
           space := flags.space || c == ' ', hash := flags.hash || c == '#')
  }

  /** `parse_flags`: the flags from `i` on, and the position after them. */
  function ParsedFlags(s: CString, i: nat, flags: Flags): (r: (Flags, nat))
    ensures i <= r.1 && (i <= |s| ==> r.1 <= |s|)
    decreases |s| - i
  {
    if IsFlag(At(s, i)) then ParsedFlags(s, i + 1, WithFlag(flags, s[i])) else (flags, i)
  }

  /** `atou_return`: the number that starts at `i`, modulo 2^32, and the position after it. */
  function ParsedNumber(s: CString, i: nat, number: Word): (r: (Word, nat))
    ensures i <= r.1 && (i <= |s| ==> r.1 <= |s|)
    decreases |s| - i
  {
    if IsDigit(At(s, i)) then ParsedNumber(s, i + 1, ToWord(number * 10 + (s[i] - '0') as nat)) else (number, i)
  }

  /** What has been read of a specifier, or that the format ended inside it. */
  datatype Specifier = Specifier(flags: Flags, width: Word, precision: Word, next: nat, arg: nat) | Ended

  /** The step over one character, which ends everything at the end of the format. */
  function Advanced(s: CString, p: Specifier): (r: Specifier)
    requires p.Specifier? ==> p.next < |s|
    ensures r.Specifier? ==> p.Specifier? && r == p.(next := p.next + 1) && r.next < |s|
  {
    if p.Ended? || p.next + 1 == |s| then Ended else p.(next := p.next + 1)
  }

  function ParsedWidth(s: CString, p: Specifier, args: Arguments): (r: Specifier)
    requires p.Specifier? && p.next <= |s|
    ensures r.Specifier? ==> p.next <= r.next <= |s|
  {
    var c := At(s, p.next);
    if IsDigit(c) then
      var (width, next) := ParsedNumber(s, p.next, 0);
      p.(width := width, next := next)
    else if c == '*' then
      var w := ToInt(args.word(p.arg));
      Advanced(s, p.(width := if w < 0 then -w else w, flags := if w < 0 then p.flags.(left := true) else p.flags,
                     arg := p.arg + 1))
    else p
  }

  /** The digits of a precision are read, but not passed over. */
  function ParsedPrecision(s: CString, p: Specifier, args: Arguments): (r: Specifier)
    requires p.Specifier? && p.next <= |s|
    ensures r.Specifier? ==> p.next <= r.next <= |s|
  {
    if At(s, p.next) != '.' then p
    else
      var q := Advanced(s, p.(flags := p.flags.(precision := true)));
      if q.Ended? then q
      else if IsDigit(s[q.next]) then q.(precision := ParsedNumber(s, q.next, 0).0)
      else if s[q.next] == '*' then
        var n := ToInt(args.word(q.arg));
        Advanced(s, q.(precision := if n > 0 then n else 0, arg := q.arg + 1))
      else q
  }

  function Sized(s: CString, p: Specifier, size: Size): (r: Specifier)
    requires p.Specifier? && p.next < |s|
    ensures r.Specifier? ==> p.next < r.next < |s|
  {
    Advanced(s, p.(flags := p.flags.(size := size)))
  }

  /** `long` has 32 bits like `ptrdiff_t` and `size_t`; `intmax_t` has 64. */
  function ParsedLength(s: CString, p: Specifier): (r: Specifier)
    requires p.Specifier? && p.next <= |s|
    ensures r.Specifier? ==> p.next <= r.next <= |s|
  {
    var c := At(s, p.next);
    if c == 'l' then
      var q := Sized(s, p, Long);
      if q.Specifier? && s[q.next] == 'l' then Sized(s, q, LongLong) else q
    else if c == 'h' then
      var q := Sized(s, p, Short);
      if q.Specifier? && s[q.next] == 'h' then Sized(s, q, Char) else q
    else if c == 't' || c == 'z' then Sized(s, p, Long)
    else if c == 'j' then Sized(s, p, LongLong)
    else p
  }

  /** A specifier up to its width. */
  function UpToWidth(s: CString, i: nat, arg: nat, args: Arguments): (p: Specifier)
    requires i + 1 < |s|
    ensures p.Specifier? ==> p.next <= |s|
  {
    var (flags, next) := ParsedFlags(s, i + 1, NO_FLAGS);
    ParsedWidth(s, Specifier(flags, 0, 0, next, arg), args)
  }

  /** The specifier whose `%` is at position `i`, up to its conversion letter. */
  function Parsed(s: CString, i: nat, arg: nat, args: Arguments): (r: Specifier)
    requires i < |s|
    ensures r.Specifier? ==> i < r.next <= |s|
  {
    if i + 1 == |s| then Ended
    else
      var p := UpToWidth(s, i, arg, args);
      if p.Ended? then p
      else
        var q := ParsedPrecision(s, p, args);
        if q.Ended? then q else ParsedLength(s, q)
  }

  predicate IsIntegerLetter(c: char) {
    c == 'd' || c == 'i' || c == 'u' || c == 'x' || c == 'X' || c == 'o' || c == 'b'
  }

  predicate IsFloatLetter(c: char) {
    c == 'f' || c == 'F' || c == 'e' || c == 'E' || c == 'g' || c == 'G'
  }

  function Base(c: char): (base: nat)
    ensures IsBase(base)
  {
    if c == 'x' || c == 'X' then 16 else if c == 'o' then 8 else if c == 'b' then 2 else 10
  }

  /** The flags that an integer conversion passes on. */
  function IntegerFlags(flags: Flags, c: char): Flags {
    var signed := c == 'd' || c == 'i';
    flags.(signed := signed,
           hash := flags.hash && Base(c) != 10,
           uppercase := flags.uppercase || c == 'X',
           zeropad := flags.zeropad && !flags.precision,
           plus := flags.plus && signed,
           space := flags.space && signed)
  }

  /** `r` is `value` cut to `modulus`, as unsigned number or in two's complement. */
  ghost predicate IsCut(r: int, value: nat, modulus: nat, signed: bool)
    requires modulus > 0
  {
    && (value - r) % modulus == 0
    && (if signed then -(modulus as int) <= r + r < modulus else 0 <= r < modulus)
  }

  /** A value of `bits` bits, read as unsigned or as two's complement. */
  function Reading(value: nat, modulus: nat, signed: bool): (r: int)
    requires modulus > 0
  {
    var v := value % modulus;
    if signed && v + v >= modulus then v - modulus else v
  }

  /** The integer that a conversion prints: its argument, cut to the size that the length field names. */
  function IntegerArgument(flags: Flags, arg: nat, args: Arguments, signed: bool): int {
    match flags.size
    case LongLong => Reading(args.wide(arg), TWO_TO_THE_64, signed)
    case Char => Reading(args.word(arg), 0x100, signed)
    case Short => Reading(args.word(arg), 0x1_0000, signed)
    case _ => Reading(args.word(arg), TWO_TO_THE_32, signed)
  }

  lemma MultipleOf(m: nat, k: int)
    requires m == 0x100 || m == 0x1_0000 || m == 0x1_0000_0000 || m == 0x1_0000_0000_0000_0000
    ensures (k * m) % m == 0
  {
  }

  lemma ReadingIsCut(value: nat, modulus: nat, signed: bool)
    requires modulus == 0x100 || modulus == 0x1_0000 || modulus == 0x1_0000_0000 || modulus == 0x1_0000_0000_0000_0000
    ensures IsCut(Reading(value, modulus, signed), value, modulus, signed)
  {
    var q, r := value / modulus, Reading(value, modulus, signed);
    assert value == q * modulus + value % modulus;
    var k := if r < 0 then q + 1 else q;
    assert value - r == k * modulus;
    MultipleOf(modulus, k);
  }

  /** It is the argument modulo the size, in the range of that size. */
  lemma IntegerArgumentIs(flags: Flags, arg: nat, args: Arguments, signed: bool)
    ensures var r := IntegerArgument(flags, arg, args, signed);
      match flags.size
      case LongLong => IsCut(r, args.wide(arg), 0x1_0000_0000_0000_0000, signed)
      case Char => IsCut(r, args.word(arg), 0x100, signed)
      case Short => IsCut(r, args.word(arg), 0x1_0000, signed)
      case _ => IsCut(r, args.word(arg), 0x1_0000_0000, signed)
  {
    match flags.size
    case LongLong => ReadingIsCut(args.wide(arg), 0x1_0000_0000_0000_0000, signed);
    case Char => ReadingIsCut(args.word(arg), 0x100, signed);
    case Short => ReadingIsCut(args.word(arg), 0x1_0000, signed);
    case _ => ReadingIsCut(args.word(arg), 0x1_0000_0000, signed);
  }

  function Abs(n: int): nat {
    if n < 0 then -n else n
  }

  function IntegerText(p: Specifier, c: char, args: Arguments): string
    requires p.Specifier? && IsIntegerLetter(c)
  {
    var flags := IntegerFlags(p.flags, c);
    var value := IntegerArgument(flags, p.arg, args, flags.signed);
    Printed(Abs(value), value < 0, Base(c), p.precision, p.width, flags)
  }

  /** A text with spaces before it, or behind it, so that `counted` of its characters fill the width. */
  function PaddedText(text: string, counted: nat, width: nat, left: bool): string {
    if left then text + Repeat(' ', width - counted) else Repeat(' ', width - counted) + text
  }

  /** A precision cuts a text short. */
  function TextShown(p: Specifier, text: string): string
    requires p.Specifier?
  {
    if p.flags.precision then Prefix(text, p.precision) else text
  }

  function StringText(p: Specifier, args: Arguments): string
    requires p.Specifier?
  {
    var text := args.text(p.arg);
    if text.None? then OutRev(")llun(", p.width, p.flags)
    else
      var shown := TextShown(p, text.value);
      PaddedText(shown, if |shown| < INT_MAX then |shown| else INT_MAX, p.width, p.flags.left)
  }

  const POINTER_WIDTH: nat := 10

  function PointerText(p: Specifier, args: Arguments): string
    requires p.Specifier?
  {
    var flags := p.flags.(zeropad := true, pointer := true);
    if args.word(p.arg) == 0 then OutRev(")lin(", POINTER_WIDTH, flags)
    else Printed(args.word(p.arg), false, 16, p.precision, POINTER_WIDTH, flags)
  }

  /** What one conversion letter prints. */
  function Converted(p: Specifier, c: char, args: Arguments): string
    requires p.Specifier?
  {
    if IsIntegerLetter(c) then IntegerText(p, c, args)
    else if IsFloatLetter(c) then args.float(p.arg, c, p.precision, p.width, p.flags)
    else match c
      case 'c' => PaddedText([(args.word(p.arg) % 0x100) as char], 1, p.width, p.flags.left)
      case 's' => StringText(p, args)
      case 'p' => PointerText(p, args)
      case 'n' => ""
      case _ => [c]
  }

  /** Whether a conversion letter takes an argument. */
  predicate TakesArgument(c: char) {
    IsIntegerLetter(c) || IsFloatLetter(c) || c == 'c' || c == 's' || c == 'p' || c == 'n'
  }

  /**
   One turn of the loop: what it prints, where it goes on, the next argument, and whether the format ended after flags
   or width, where the loop steps past its end.
   */
  datatype Turn = Turn(text: string, next: nat, arg: nat, overrun: bool)

  function Turned(s: CString, i: nat, arg: nat, args: Arguments): (t: Turn)
    requires i < |s|
    ensures t.next > i && (t.overrun ==> t.next > |s|)
  {
    if s[i] != '%' then Turn([s[i]], i + 1, arg, false)
    else
      var p := Parsed(s, i, arg, args);
      if p.Ended? then Turn("", |s|, arg, false)
      else
        var c := At(s, p.next);
        Turn(Converted(p, c, args), p.next + 1, if TakesArgument(c) then p.arg + 1 else p.arg, p.next == |s|)
  }

  /** All that is printed from position `i` on. */
  function Render(s: CString, i: nat, arg: nat, args: Arguments): string
    decreases |s| - i
  {
    if i >= |s| then ""
    else
      var t := Turned(s, i, arg, args);
      t.text + Render(s, t.next, t.arg, args)
  }

  /** Whether the loop steps past the end of the format. */
  predicate Overruns(s: CString, i: nat, arg: nat, args: Arguments)
    decreases |s| - i
  {
    if i >= |s| then false
    else
      var t := Turned(s, i, arg, args);
      t.overrun || Overruns(s, t.next, t.arg, args)
  }

  const NO_ARGUMENTS := Arguments(_ => 0, _ => 0, _ => None, (_, _, _, _, _) => "")

  /** Two readings of a specifier that agree on where it ends. */
  predicate EndsAlike(p: Specifier, q: Specifier) {
    if p.Ended? then q.Ended? else q.Specifier? && p.next == q.next
  }

  lemma WidthEndsAlike(s: CString, p: Specifier, q: Specifier, args: Arguments, others: Arguments)
    requires p.Specifier? && q.Specifier? && p.next == q.next <= |s|
    ensures EndsAlike(ParsedWidth(s, p, args), ParsedWidth(s, q, others))
  {
  }

  lemma PrecisionEndsAlike(s: CString, p: Specifier, q: Specifier, args: Arguments, others: Arguments)
    requires p.Specifier? && q.Specifier? && p.next == q.next <= |s|
    ensures EndsAlike(ParsedPrecision(s, p, args), ParsedPrecision(s, q, others))
  {
  }

  lemma LengthEndsAlike(s: CString, p: Specifier, q: Specifier)
    requires p.Specifier? && q.Specifier? && p.next == q.next <= |s|
    ensures EndsAlike(ParsedLength(s, p), ParsedLength(s, q))
  {
  }

  /** Where a turn ends, and whether it oversteps the format, does not depend on the arguments. */
  lemma TurnsAlike(s: CString, i: nat, arg: nat, args: Arguments, other: nat, others: Arguments)
    requires i < |s|
    ensures var t, u := Turned(s, i, arg, args), Turned(s, i, other, others);
      t.next == u.next && t.overrun == u.overrun
  {
    if s[i] == '%' && i + 1 < |s| {
      var (flags, next) := ParsedFlags(s, i + 1, NO_FLAGS);
      WidthEndsAlike(s, Specifier(flags, 0, 0, next, arg), Specifier(flags, 0, 0, next, other), args, others);
      var p, q := UpToWidth(s, i, arg, args), UpToWidth(s, i, other, others);
      if p.Specifier? {
        PrecisionEndsAlike(s, p, q, args, others);
        p, q := ParsedPrecision(s, p, args), ParsedPrecision(s, q, others);
        if p.Specifier? {
          LengthEndsAlike(s, p, q);
        }
      }
    }
  }

  /** A turn of the loop that is at position `from` begins at position `k`. */
  predicate Reached(s: CString, from: nat, k: nat)
    decreases |s| - from
  {
    from == k || (from < |s| && Reached(s, Turned(s, from, 0, NO_ARGUMENTS).next, k))
  }

  /** Behind position `k` there is something, and it is flags up to `m` and digits from there to the end. */
  predicate FlagsThenDigits(s: CString, k: nat, m: nat) {
    && k + 1 < |s| && k + 1 <= m <= |s|
    && (forall j :: k + 1 <= j < m ==> IsFlag(s[j]))
    && (forall j :: m <= j < |s| ==> IsDigit(s[j]))
  }

  /** A `%` at position `k` with only flags and a width behind it, and at least one of them. */
  ghost predicate DanglingAt(s: CString, k: nat) {
    k < |s| && s[k] == '%' && exists m :: FlagsThenDigits(s, k, m)
  }

  lemma {:induction false} FlagsRun(s: CString, i: nat, flags: Flags)
    requires i <= |s|
    ensures var e := ParsedFlags(s, i, flags).1;
      (forall j :: i <= j < e ==> IsFlag(s[j])) && !IsFlag(At(s, e))
    decreases |s| - i
  {
    if IsFlag(At(s, i)) {
      FlagsRun(s, i + 1, WithFlag(flags, s[i]));
    }
  }

  lemma {:induction false} DigitsRun(s: CString, i: nat, number: Word)
    requires i <= |s|
    ensures var d := ParsedNumber(s, i, number).1;
      (forall j :: i <= j < d ==> IsDigit(s[j])) && !IsDigit(At(s, d))
    decreases |s| - i
  {
    if IsDigit(At(s, i)) {
      DigitsRun(s, i + 1, ToWord(number * 10 + (s[i] - '0') as nat));
    }
  }

  /** A turn oversteps the format exactly if it is at such a `%`. */
  lemma TurnOversteps(s: CString, i: nat, arg: nat, args: Arguments)
    requires i < |s|
    ensures Turned(s, i, arg, args).overrun <==> DanglingAt(s, i)
  {
    if s[i] == '%' && i + 1 < |s| {
      FlagsRun(s, i + 1, NO_FLAGS);
      var e := ParsedFlags(s, i + 1, NO_FLAGS).1;
      DigitsRun(s, e, 0);
      if Turned(s, i, arg, args).overrun {
        assert FlagsThenDigits(s, i, e);
      }
      if DanglingAt(s, i) {
        var m :| FlagsThenDigits(s, i, m);
        assert e >= m;
        assert ParsedNumber(s, e, 0).1 == |s|;
      }
    }
  }

  /**
   The loop steps past the end of the format exactly if it reaches a `%` behind which there is nothing but flags and a
   width. The format alone decides that.
   */
  lemma {:induction false} OverrunsExactly(s: CString, i: nat, arg: nat, args: Arguments)
    ensures Overruns(s, i, arg, args) <==> exists k :: Reached(s, i, k) && DanglingAt(s, k)
    decreases |s| - i
  {
    if i < |s| {
      var t := Turned(s, i, arg, args);
      TurnsAlike(s, i, arg, args, 0, NO_ARGUMENTS);
      TurnOversteps(s, i, arg, args);
      OverrunsExactly(s, t.next, t.arg, args);
      if DanglingAt(s, i) {
        assert Reached(s, i, i);
      }
      forall k | Reached(s, t.next, k) ensures Reached(s, i, k) {
      }
    }
  }

  /** The shortest such formats are a `%` and one flag or digit. */
  lemma PercentFiveOversteps(args: Arguments)
    ensures Overruns("%5", 0, 0, args)
  {
    OverrunsExactly("%5", 0, 0, args);
    assert FlagsThenDigits("%5", 0, 1);
    assert Reached("%5", 0, 0);
  }

  lemma DanglingEnding(s: CString, k: nat)
    requires DanglingAt(s, k)
    ensures IsFlag(s[|s| - 1]) || IsDigit(s[|s| - 1])
  {
    var m :| FlagsThenDigits(s, k, m);
    assert m == |s| ==> IsFlag(s[m - 1]);
  }

  /** A format whose last character is neither a flag nor a digit is safe. */
  lemma SafeEnding(s: CString, args: Arguments)
    requires s != "" ==> !IsFlag(s[|s| - 1]) && !IsDigit(s[|s| - 1])
    ensures !Overruns(s, 0, 0, args)
  {
    OverrunsExactly(s, 0, 0, args);
    if k: nat :| DanglingAt(s, k) {
      DanglingEnding(s, k);
    }
  }

  lemma PrecisionStaysAtDigit(s: CString, p: Specifier, args: Arguments)
    requires p.Specifier? && p.next + 1 < |s| && s[p.next] == '.' && IsDigit(s[p.next + 1])
    ensures var q := ParsedPrecision(s, p, args);
      q.Specifier? && q.next == p.next + 1 && q.arg == p.arg && ParsedLength(s, q) == q
  {
  }

  lemma DigitIsPrinted(p: Specifier, c: char, args: Arguments)
    requires p.Specifier? && IsDigit(c)
    ensures Converted(p, c, args) == [c] && !TakesArgument(c)
  {
  }

  /**
   The digits of a precision are not passed over: the first one becomes the conversion letter, so that it is printed,
   and what follows is ordinary text.
   */
  lemma PrecisionDigitIsPrinted(s: CString, i: nat, arg: nat, args: Arguments)
    requires i + 1 < |s| && s[i] == '%'
    requires var p := UpToWidth(s, i, arg, args);
      p.Specifier? && p.next + 1 < |s| && s[p.next] == '.' && IsDigit(s[p.next + 1])
    ensures var p := UpToWidth(s, i, arg, args);
      Turned(s, i, arg, args) == Turn([s[p.next + 1]], p.next + 2, p.arg, false)
  {
    var p := UpToWidth(s, i, arg, args);
    PrecisionStaysAtDigit(s, p, args);
    var q := ParsedPrecision(s, p, args);
    assert Parsed(s, i, arg, args) == q;
    DigitIsPrinted(q, s[q.next], args);
  }

  method ParseFlags(s: CString, start: nat) returns (flags: Flags, i: nat)
    requires start <= |s|
    ensures (flags, i) == ParsedFlags(s, start, NO_FLAGS)
  {
    flags, i := NO_FLAGS, start;
    while IsFlag(At(s, i))
      invariant i <= |s| && ParsedFlags(s, i, flags) == ParsedFlags(s, start, NO_FLAGS)
      decreases |s| - i
    {
      flags := WithFlag(flags, s[i]);
      i := i + 1;
    }
  }

  /** `atou_return`. */
  method ReadNumber(s: CString, start: nat) returns (number: Word, i: nat)
    requires start <= |s|
    ensures (number, i) == ParsedNumber(s, start, 0)
  {
    number, i := 0, start;
    while IsDigit(At(s, i))
      invariant i <= |s| && ParsedNumber(s, i, number) == ParsedNumber(s, start, 0)
      decreases |s| - i
    {
      number := ToWord(number * 10 + (s[i] - '0') as nat);
      i := i + 1;
    }
  }

  method PutText(output: OutputGadget, text: string)
    requires output.Valid() && |output.emitted| + |text| < TWO_TO_THE_32
    modifies output`pos, output`stream, output`emitted, output.buffer
    ensures output.Valid() && output.emitted == old(output.emitted) + text
  {
    var i := 0;
    while i < |text|
      invariant 0 <= i <= |text|
      invariant output.Valid() && output.emitted == old(output.emitted) + text[..i]
    {
      output.PutChar(text[i]);
      i := i + 1;
    }
    assert text[..i] == text;
  }

  method PutPaddedText(output: OutputGadget, text: string, counted: nat, width: nat, left: bool)
    requires output.Valid() && |output.emitted| + |PaddedText(text, counted, width, left)| < TWO_TO_THE_32
    modifies output`pos, output`stream, output`emitted, output.buffer
    ensures output.Valid() && output.emitted == old(output.emitted) + PaddedText(text, counted, width, left)
  {
    Associates(output.emitted, Repeat(' ', width - counted), text);
    Associates(output.emitted, text, Repeat(' ', width - counted));
    if left {
      PutText(output, text);
      PadUpTo(output, counted, width);
    } else {
      PadUpTo(output, counted, width);
      PutText(output, text);
    }
  }

  lemma Associates(done: string, a: string, b: string)
    ensures (done + a) + b == done + (a + b) && |done + (a + b)| == |done| + |a| + |b|
  {
  }

  /** The reading of one specifier in the loop: flags, width, precision and length, in that order. */
  method ParseSpecifier(s: CString, start: nat, arg: nat, args: Arguments) returns (p: Specifier)
    requires start < |s|
    ensures p == Parsed(s, start, arg, args)
  {
    p := Ended;
    if start + 1 < |s| {
      var flags, i := ParseFlags(s, start + 1);
      p := ParseWidth(s, Specifier(flags, 0, 0, i, arg), args);
      if p.Specifier? {
        p := ParsePrecision(s, p, args);
        if p.Specifier? {
          p := ParseLength(s, p);
        }
      }
    }
  }

  /** ADVANCE_IN_FORMAT_STRING: one character on; the end of the format ends everything. */
  method Advance(s: CString, before: Specifier) returns (p: Specifier)
    requires before.Specifier? && before.next < |s|
    ensures p == Advanced(s, before)
  {
    p := before.(next := before.next + 1);
    if At(s, p.next) == '\0' {
      p := Ended;
    }
  }

  method ParseWidth(s: CString, before: Specifier, args: Arguments) returns (p: Specifier)
    requires before.Specifier? && before.next <= |s|
    ensures p == ParsedWidth(s, before, args)
  {
    p := before;
    if IsDigit(At(s, p.next)) {
      var width, next := ReadNumber(s, p.next);
      p := p.(width := width, next := next);
    } else if At(s, p.next) == '*' {
      var w := ToInt(args.word(p.arg));
      if w < 0 {
        p := p.(flags := p.flags.(left := true), width := -w, arg := p.arg + 1);
      } else {
        p := p.(width := w, arg := p.arg + 1);
      }
      p := Advance(s, p);
    }
  }

  method ParsePrecision(s: CString, before: Specifier, args: Arguments) returns (p: Specifier)
    requires before.Specifier? && before.next <= |s|
    ensures p == ParsedPrecision(s, before, args)
  {
    p := before;
    if At(s, p.next) == '.' {
      p := Advance(s, p.(flags := p.flags.(precision := true)));
      if p.Specifier? {
        if IsDigit(s[p.next]) {
          var precision, _ := ReadNumber(s, p.next);
          p := p.(precision := precision);
        } else if s[p.next] == '*' {
          var n := ToInt(args.word(p.arg));
          p := p.(arg := p.arg + 1, precision := if n > 0 then n else 0);
          p := Advance(s, p);
        }
      }
    }
  }

  method ParseLength(s: CString, before: Specifier) returns (p: Specifier)
    requires before.Specifier? && before.next <= |s|
    ensures p == ParsedLength(s, before)
  {
    p := before;
    match At(s, p.next) {
      case 'l' =>
        p := Advance(s, p.(flags := p.flags.(size := Long)));
        if p.Specifier? && s[p.next] == 'l' {
          p := Advance(s, p.(flags := p.flags.(size := LongLong)));
        }
      case 'h' =>
        p := Advance(s, p.(flags := p.flags.(size := Short)));
        if p.Specifier? && s[p.next] == 'h' {
          p := Advance(s, p.(flags := p.flags.(size := Char)));
        }
      case 't' => p := Advance(s, p.(flags := p.flags.(size := Long)));
      case 'j' => p := Advance(s, p.(flags := p.flags.(size := LongLong)));
      case 'z' => p := Advance(s, p.(flags := p.flags.(size := Long)));
      case _ =>
    }
  }

  method PutString(output: OutputGadget, p: Specifier, args: Arguments)
    requires p.Specifier? && output.Valid() && |output.emitted| + |StringText(p, args)| < TWO_TO_THE_32
    modifies output`pos, output`stream, output`emitted, output.buffer
    ensures output.Valid() && output.emitted == old(output.emitted) + StringText(p, args)
  {
    var text := args.text(p.arg);
    if text.None? {
      var buf := new char[6](i requires 0 <= i < 6 => ")llun("[i]);
      assert buf[..6] == ")llun(";
      PutReversed(output, buf, 6, p.width, p.flags);
    } else {
      var shown := TextShown(p, text.value);
      PutPaddedText(output, shown, if |shown| < INT_MAX then |shown| else INT_MAX, p.width, p.flags.left);
    }
  }

  method PutPointer(output: OutputGadget, p: Specifier, args: Arguments)
    requires p.Specifier? && output.Valid() && |output.emitted| + |PointerText(p, args)| < TWO_TO_THE_32
    modifies output`pos, output`stream, output`emitted, output.buffer
    ensures output.Valid() && output.emitted == old(output.emitted) + PointerText(p, args)
  {
    var flags := p.flags.(zeropad := true, pointer := true);
    if args.word(p.arg) == 0 {
      var buf := new char[5](i requires 0 <= i < 5 => ")lin("[i]);
      assert buf[..5] == ")lin(";
      PutReversed(output, buf, 5, POINTER_WIDTH, flags);
    } else {
      PrintUnsigned(output, args.word(p.arg), false, 16, p.precision, POINTER_WIDTH, flags);
    }
  }

  method PutInteger(output: OutputGadget, p: Specifier, c: char, args: Arguments)
    requires p.Specifier? && IsIntegerLetter(c)
    requires output.Valid() && |output.emitted| + |IntegerText(p, c, args)| < TWO_TO_THE_32
    modifies output`pos, output`stream, output`emitted, output.buffer
    ensures output.Valid() && output.emitted == old(output.emitted) + IntegerText(p, c, args)
  {
    var flags := IntegerFlags(p.flags, c);
    var value := IntegerArgument(flags, p.arg, args, flags.signed);
    PrintUnsigned(output, Abs(value), value < 0, Base(c), p.precision, p.width, flags);
  }

  method PutConverted(output: OutputGadget, p: Specifier, c: char, args: Arguments)
    requires p.Specifier? && output.Valid() && |output.emitted| + |Converted(p, c, args)| < TWO_TO_THE_32
    modifies output`pos, output`stream, output`emitted, output.buffer
    ensures output.Valid() && output.emitted == old(output.emitted) + Converted(p, c, args)
  {
    if IsIntegerLetter(c) {
      PutInteger(output, p, c, args);
    } else if IsFloatLetter(c) {
      PutText(output, args.float(p.arg, c, p.precision, p.width, p.flags));
    } else if c == 'c' {
      PutPaddedText(output, [(args.word(p.arg) % 0x100) as char], 1, p.width, p.flags.left);
    } else if c == 's' {
      PutString(output, p, args);
    } else if c == 'p' {
      PutPointer(output, p, args);
    } else if c != 'n' {
      output.PutChar(c);
    }
  }

  /** One turn of the loop. */
  method PrintTurn(output: OutputGadget, s: CString, start: nat, arg: nat, args: Arguments)
    returns (i: nat, nextArg: nat, overrun: bool)
    requires start < |s|
    requires output.Valid() && |output.emitted| + |Turned(s, start, arg, args).text| < TWO_TO_THE_32
    modifies output`pos, output`stream, output`emitted, output.buffer
    ensures output.Valid() && output.emitted == old(output.emitted) + Turned(s, start, arg, args).text
    ensures Turn(Turned(s, start, arg, args).text, i, nextArg, overrun) == Turned(s, start, arg, args)
  {
    i, nextArg, overrun := start + 1, arg, false;
    if s[start] != '%' {
      output.PutChar(s[start]);
    } else {
      var p := ParseSpecifier(s, start, arg, args);
      if p.Ended? {
        i := |s|;
      } else {
        var c := At(s, p.next);
        PutConverted(output, p, c, args);
        i, overrun := p.next + 1, p.next == |s|;
        nextArg := if TakesArgument(c) then p.arg + 1 else p.arg;
      }
    }
  }

  lemma RenderUnfolds(s: CString, i: nat, arg: nat, args: Arguments)
    requires i < |s|
    ensures var t := Turned(s, i, arg, args);
      Render(s, i, arg, args) == t.text + Render(s, t.next, t.arg, args)
  {
  }

  /** What is printed before a turn, by it and after it. */
  lemma RenderTurn(done: string, s: CString, i: nat, arg: nat, args: Arguments)
    requires i < |s|
    ensures var t := Turned(s, i, arg, args);
      done + Render(s, i, arg, args) == (done + t.text) + Render(s, t.next, t.arg, args)
  {
    RenderUnfolds(s, i, arg, args);
    var t := Turned(s, i, arg, args);
    Associates(done, t.text, Render(s, t.next, t.arg, args));
  }

  /** `format_string_loop`: prints `Render`, whatever room the output has. */
  method FormatLoop(output: OutputGadget, s: CString, args: Arguments) returns (overrun: bool)
    requires output.Valid() && |output.emitted| + |Render(s, 0, 0, args)| < TWO_TO_THE_32
    modifies output`pos, output`stream, output`emitted, output.buffer
    ensures output.Valid() && output.emitted == old(output.emitted) + Render(s, 0, 0, args)
    ensures overrun == Overruns(s, 0, 0, args)
  {
    ghost var whole := output.emitted + Render(s, 0, 0, args);
    var i: nat, arg: nat := 0, 0;
    overrun := false;
    while i < |s|
      invariant output.Valid() && whole == output.emitted + Render(s, i, arg, args)
      invariant !overrun || i >= |s|
      invariant Overruns(s, 0, 0, args) == (overrun || Overruns(s, i, arg, args))
      decreases |s| - i
    {
      RenderTurn(output.emitted, s, i, arg, args);
      i, arg, overrun := PrintTurn(output, s, i, arg, args);
    }
  }

  /**
   Formatting into a buffer: unless the loop steps past the end of the format, the position counts all characters, and
   the buffer holds those that fit.
   */
  method FormatInto(buffer: array<char>, room: Word, s: CString, args: Arguments) returns (pos: Word)
    requires room <= buffer.Length && |Render(s, 0, 0, args)| < TWO_TO_THE_32
    modifies buffer
    ensures !Overruns(s, 0, 0, args) ==>
      && pos == |Render(s, 0, 0, args)|
      && Kept(old(buffer[..]), buffer[..], Prefix(Render(s, 0, 0, args), room))
  {
    var output := new OutputGadget(buffer, room, false);
    var overrun := FormatLoop(output, s, args);
    pos := output.pos;
    OutputHolds(output, Render(s, 0, 0, args));
  }

  /** What a buffer holds when all of a text has been put to it. */
  lemma OutputHolds(output: OutputGadget, text: string)
    requires output.Valid() && !output.toFile && output.emitted == text
    ensures output.pos == |text| && Kept(output.initial, output.buffer[..], Prefix(text, output.maxChars))
  {
    BufferHolds(output);
  }

  /** `now` is `before` with `kept` at its beginning. */
  ghost predicate Kept(before: seq<char>, now: seq<char>, kept: string) {
    |now| == |before| >= |kept| && now[..|kept|] == kept && now[|kept|..] == before[|kept|..]
  }

  /**
   Truncation is a prefix: for any format that the loop does not overstep and any arguments, two buffers end at the
   same position, the smaller one holds the first characters of what the larger one holds, and neither is written at
   or past its limit.
   */
  method FormatTwice(small: array<char>, smallRoom: Word, large: array<char>, largeRoom: Word, s: CString,
                     args: Arguments)
    returns (smallPos: Word, largePos: Word)
    requires small != large && smallRoom <= small.Length && largeRoom <= large.Length && smallRoom <= largeRoom
    requires |Render(s, 0, 0, args)| < TWO_TO_THE_32
    modifies small, large
    ensures !Overruns(s, 0, 0, args) ==>
      var text := Render(s, 0, 0, args);
      var n, m := Prefix(text, smallRoom), Prefix(text, largeRoom);
      && smallPos == largePos == |text|
      && n <= m && Kept(old(small[..]), small[..], n) && Kept(old(large[..]), large[..], m)
  {
    smallPos := FormatInto(small, smallRoom, s, args);
    largePos := FormatInto(large, largeRoom, s, args);
  }
}
