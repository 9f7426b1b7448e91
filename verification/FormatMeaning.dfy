/**
 What the conversions of src/kernel/printfDriver/printf.c mean to a caller: each letter has its base, its digits, its sign
 and its prefix, told here without the code's own tables.
 */
module FormatMeaning {
  import opened Machine
  import opened Gadget
  import opened PrintInteger
  import opened IntegerLayout
  import opened FormatString
  import opened FormatLayout
  import opened FormatSpelling
  import opened FormatPieces

  /** The digits of a letter: hexadecimal ones in lower case, in upper case for `X` alone. */
  predicate IsDigitOf(letter: char, d: char) {
    match letter
    case 'x' => '0' <= d <= '9' || 'a' <= d <= 'f'
    case 'X' => '0' <= d <= '9' || 'A' <= d <= 'F'
    case 'o' => '0' <= d <= '7'
    case 'b' => '0' <= d <= '1'
    case _ => '0' <= d <= '9'
  }

  /** A text of these digits, without a leading zero, that reads as `n` in the base of the letter. */
  predicate NumeralOf(letter: char, n: nat, text: string) {
    && text != "" && (|text| > 1 ==> text[0] != '0') && (forall k :: 0 <= k < |text| ==> IsDigitOf(letter, text[k]))
    && (letter == 'x' || letter == 'X' ==> Parse(text, 16) == n)
    && (letter == 'o' ==> Parse(text, 8) == n)
    && (letter == 'b' ==> Parse(text, 2) == n)
    && (letter == 'u' || letter == 'd' || letter == 'i' ==> Parse(text, 10) == n)
  }

  /** What stands before the digits: a sign for signed letters, and a prefix for the others if it is asked for. */
  function FrontOf(letter: char, value: int, plus: bool, space: bool, hash: bool): string {
    match letter
    case 'd' => if value < 0 then "-" else if plus then "+" else if space then " " else ""
    case 'i' => if value < 0 then "-" else if plus then "+" else if space then " " else ""
    case 'x' => if hash && value != 0 then "0x" else ""
    case 'X' => if hash && value != 0 then "0X" else ""
    case 'o' => if hash && value != 0 then "0" else ""
    case 'b' => if hash && value != 0 then "0b" else ""
    case _ => ""
  }

  /** A number set in a width: to the left, or to the right with spaces before it or zeros before its digits. */
  function SetIn(front: string, digits: string, width: nat, left: bool, zeros: bool): string {
    var room := width - |front| - |digits|;
    if left then front + digits + Repeat(' ', room)
    else if zeros then front + Repeat('0', room) + digits
    else Repeat(' ', room) + front + digits
  }

  /** The value that an integer letter prints: signed for `d` and `i`. */
  function ValueOf(p: Specifier, c: char, args: Arguments): int
    requires p.Specifier?
  {
    IntegerArgument(p.flags, p.arg, args, c == 'd' || c == 'i')
  }

  lemma {:induction false} NoLeadingZeroIn(n: nat, base: nat, upper: bool)
    requires IsBase(base) && n > 0
    ensures var s := Digits(n, base, upper); s != "" && s[|s| - 1] != '0'
  {
    if High(n, base) > 0 {
      NoLeadingZeroIn(High(n, base), base, upper);
    }
  }

  lemma {:induction false} DigitsAre(letter: char, n: nat, base: nat, upper: bool, k: nat)
    requires IsBase(base) && k < |Digits(n, base, upper)|
    requires letter == 'x' ==> !upper
    requires letter == 'X' ==> upper
    requires letter == 'o' ==> base == 8
    requires letter == 'b' ==> base == 2
    requires letter != 'x' && letter != 'X' && letter != 'o' && letter != 'b' ==> base == 10
    ensures IsDigitOf(letter, Digits(n, base, upper)[k])
  {
    if k > 0 {
      DigitsAre(letter, High(n, base), base, upper, k - 1);
    }
  }

  lemma ReversedDigits(c: char, n: nat, base: nat, upper: bool)
    requires IsIntegerLetter(c) && base == Base(c) && upper == (c == 'X') && n > 0
    ensures var s := Reverse(Digits(n, base, upper));
      s != "" && s[0] != '0' && forall k :: 0 <= k < |s| ==> IsDigitOf(c, s[k])
  {
    var digits := Digits(n, base, upper);
    NoLeadingZeroIn(n, base, upper);
    ReverseAt(digits, 0);
    forall k | 0 <= k < |digits| ensures IsDigitOf(c, Reverse(digits)[k]) {
      ReverseAt(digits, k);
      DigitsAre(c, n, base, upper, |digits| - 1 - k);
    }
  }

  /** The numeral that the code prints for a letter is one of the letter's numerals. */
  lemma NumeralIs(c: char, n: nat, flags: Flags)
    requires IsIntegerLetter(c) && !flags.uppercase
    ensures NumeralOf(c, n, Numeral(n, Base(c), IntegerFlags(flags, c)))
  {
    NumeralReadsBack(n, Base(c), IntegerFlags(flags, c));
    if n > 0 {
      ReversedDigits(c, n, Base(c), c == 'X');
    }
  }

  /** At most 32 digits and characters before them, and zeros up to a width of at most 32. */
  predicate HasRoom(p: Specifier, c: char, args: Arguments)
    requires p.Specifier?
  {
    && (c == 'b' ==> ValueOf(p, c, args) < if p.flags.hash then 0x4000_0000 else 0x1_0000_0000)
    && (p.flags.zeropad && !p.flags.left ==> p.width <= 32)
  }

  lemma UnsignedIs(p: Specifier, c: char, args: Arguments)
    requires p.Specifier? && IsIntegerLetter(c)
    ensures c != 'd' && c != 'i' ==> ValueOf(p, c, args) >= 0
    ensures Abs(ValueOf(p, c, args)) < TWO_TO_THE_64
  {
  }

  lemma FlagsPossible(p: Specifier, c: char, v: int)
    requires p.Specifier? && IsIntegerLetter(c) && Plain(p.flags) && Abs(v) < TWO_TO_THE_64
    requires c != 'd' && c != 'i' ==> v >= 0
    ensures Possible(Abs(v), v < 0, Base(c), IntegerFlags(p.flags, c))
  {
  }

  lemma BinaryFits(v: nat, width: nat, flags: Flags)
    requires Possible(v, false, 2, flags) && !flags.pointer
    ensures Natural(v, false, 2, flags) <= 32 <==> v < if flags.hash then 0x4000_0000 else 0x1_0000_0000
  {
    Powers();
    var n := if flags.hash then 30 else 32;
    if v < Pow(2, n) {
      DigitsBound(v, 2, flags.uppercase, n);
    } else if |Digits(v, 2, flags.uppercase)| <= n {
      DigitsAtMost(v, 2, flags.uppercase, n);
    }
  }

  /** There is room exactly if the number fits the buffer of the code. */
  lemma RoomIsEnough(p: Specifier, c: char, args: Arguments)
    requires p.Specifier? && IsIntegerLetter(c) && Plain(p.flags)
    ensures var v := ValueOf(p, c, args);
      && Possible(Abs(v), v < 0, Base(c), IntegerFlags(p.flags, c))
      && (Fits(Abs(v), v < 0, Base(c), p.width, IntegerFlags(p.flags, c)) <==> HasRoom(p, c, args))
  {
    var v, flags := ValueOf(p, c, args), IntegerFlags(p.flags, c);
    UnsignedIs(p, c, args);
    FlagsPossible(p, c, v);
    if c == 'b' {
      BinaryFits(v, p.width, flags);
    } else {
      NumbersFit(Abs(v), v < 0, Base(c), 0, flags);
    }
  }

  lemma SizeDecides(f: Flags, g: Flags, arg: nat, args: Arguments, signed: bool)
    requires f.size == g.size
    ensures IntegerArgument(f, arg, args, signed) == IntegerArgument(g, arg, args, signed)
  {
  }

  lemma TextIsPrinted(p: Specifier, c: char, args: Arguments)
    requires p.Specifier? && IsIntegerLetter(c)
    ensures var v := ValueOf(p, c, args);
      Converted(p, c, args) == Printed(Abs(v), v < 0, Base(c), p.precision, p.width, IntegerFlags(p.flags, c))
  {
    SizeDecides(p.flags, IntegerFlags(p.flags, c), p.arg, args, c == 'd' || c == 'i');
  }

  lemma LayoutSets(value: nat, negative: bool, base: nat, width: nat, flags: Flags, front: string)
    requires IsBase(base) && front == Sign(negative, flags) + BasePrefix(value, base, flags)
    ensures Layout(value, negative, base, width, flags)
         == SetIn(front, Numeral(value, base, flags), width, flags.left, flags.zeropad)
  {
  }

  lemma FrontIs(c: char, v: int, flags: Flags)
    requires IsIntegerLetter(c) && Plain(flags) && (c != 'd' && c != 'i' ==> v >= 0)
    ensures Sign(v < 0, IntegerFlags(flags, c)) + BasePrefix(Abs(v), Base(c), IntegerFlags(flags, c))
         == FrontOf(c, v, flags.plus, flags.space, flags.hash)
  {
  }

  lemma PrintedSets(value: nat, negative: bool, base: nat, width: nat, flags: Flags, front: string)
    requires Possible(value, negative, base, flags) && front == Sign(negative, flags) + BasePrefix(value, base, flags)
    ensures Printed(value, negative, base, 0, width, flags)
         == SetIn(front, Numeral(value, base, flags), width, flags.left, flags.zeropad)
       <==> Fits(value, negative, base, width, flags)
  {
    PrintedIsLayout(value, negative, base, width, flags);
    LayoutSets(value, negative, base, width, flags, front);
  }

  /**
   An integer conversion without a precision prints the numeral of its value in the base of its letter, with the sign or
   the prefix of the letter, set in the width, exactly if there is room for it.
   */
  lemma IntegerMeans(p: Specifier, c: char, args: Arguments) returns (digits: string)
    requires p.Specifier? && IsIntegerLetter(c) && Plain(p.flags) && p.precision == 0
    ensures var v := ValueOf(p, c, args);
      && NumeralOf(c, Abs(v), digits)
      && (Converted(p, c, args) == SetIn(FrontOf(c, v, p.flags.plus, p.flags.space, p.flags.hash), digits, p.width,
                                         p.flags.left, p.flags.zeropad)
          <==> HasRoom(p, c, args))
  {
    var v, flags := ValueOf(p, c, args), IntegerFlags(p.flags, c);
    digits := Numeral(Abs(v), Base(c), flags);
    NumeralIs(c, Abs(v), p.flags);
    RoomIsEnough(p, c, args);
    UnsignedIs(p, c, args);
    TextIsPrinted(p, c, args);
    var front := FrontOf(c, v, p.flags.plus, p.flags.space, p.flags.hash);
    FrontIs(c, v, p.flags);
    PrintedSets(Abs(v), v < 0, Base(c), p.width, flags, front);
  }

  /** The value of an integer conversion as it is written: its argument cut to its size. */
  function SpecValue(spec: Spec, arg: nat, args: Arguments): int {
    var signed := spec.letter == 'd' || spec.letter == 'i';
    if spec.length == "hh" then Reading(args.word(arg), 0x100, signed)
    else if spec.length == "h" then Reading(args.word(arg), 0x1_0000, signed)
    else if spec.length == "ll" || spec.length == "j" then Reading(args.wide(arg), 0x1_0000_0000_0000_0000, signed)
    else Reading(args.word(arg), 0x1_0000_0000, signed)
  }

  /** A number in base 2 has at most 32 digits, and zeros go at most to a width of 32. */
  predicate SpecHasRoom(spec: Spec, arg: nat, args: Arguments) {
    var (width, left, next) := WidthMeant(spec.width, arg, args);
    && (spec.letter == 'b' ==>
          SpecValue(spec, next, args) < if '#' in spec.flags then 0x4000_0000 else 0x1_0000_0000)
    && ('0' in spec.flags && '-' !in spec.flags && !left ==> width <= 32)
  }

  lemma ValueIs(p: Specifier, spec: Spec, args: Arguments)
    requires p.Specifier? && p.flags.size == SizeOf(spec.length)
    ensures ValueOf(p, spec.letter, args) == SpecValue(spec, p.arg, args)
  {
  }

  lemma MeantIs(spec: Spec, arg: nat, args: Arguments)
    requires AllFlags(spec.flags)
    ensures var (width, left, next) := WidthMeant(spec.width, arg, args);
      var (precision, after) := PrecisionMeant(spec.precise, next, args);
      var p := Meant(spec, 0, arg, args);
      && p.Specifier? && p.width == width && p.precision == precision && p.arg == after
      && p.flags == Flags('0' in spec.flags, '-' in spec.flags || left, '+' in spec.flags, ' ' in spec.flags,
                          '#' in spec.flags, false, SizeOf(spec.length), spec.precise, false, false)
  {
    WithAllMeans(spec.flags);
  }

  /**
   An integer conversion without a precision, as it is written, prints a numeral of its argument with the sign or the
   prefix of its letter, set in its width, exactly if there is room for it.
   */
  lemma SpecMeans(spec: Spec, arg: nat, args: Arguments) returns (digits: string)
    requires AllFlags(spec.flags) && !spec.precise && IsIntegerLetter(spec.letter)
    ensures var (width, left, next) := WidthMeant(spec.width, arg, args);
      var v := SpecValue(spec, next, args);
      var front := FrontOf(spec.letter, v, '+' in spec.flags, ' ' in spec.flags, '#' in spec.flags);
      && NumeralOf(spec.letter, Abs(v), digits)
      && (SpecText(spec, arg, args) == SetIn(front, digits, width, '-' in spec.flags || left, '0' in spec.flags)
          <==> SpecHasRoom(spec, arg, args))
  {
    var p := Meant(spec, 0, arg, args);
    MeantIs(spec, arg, args);
    ValueIs(p, spec, args);
    digits := IntegerMeans(p, spec.letter, args);
  }

  /** The conversion without flags, width and length. */
  function PlainSpec(letter: char): Spec {
    Spec("", Unwritten, false, "", letter)
  }

  lemma SetInNothing(front: string, digits: string)
    ensures SetIn(front, digits, 0, false, false) == front + digits
  {
  }

  lemma PlainMeans(c: char, args: Arguments) returns (digits: string)
    requires IsIntegerLetter(c)
    ensures var v := Reading(args.word(0), 0x1_0000_0000, c == 'd' || c == 'i');
      && NumeralOf(c, Abs(v), digits)
      && SpecText(PlainSpec(c), 0, args) == if v < 0 then "-" + digits else digits
  {
    var spec := PlainSpec(c);
    var v := Reading(args.word(0), 0x1_0000_0000, c == 'd' || c == 'i');
    assert v == SpecValue(spec, 0, args) && SpecHasRoom(spec, 0, args);
    digits := SpecMeans(spec, 0, args);
    SetInNothing(FrontOf(c, v, false, false, false), digits);
    FrontAlone(c, v, digits);
  }

  lemma FrontAlone(c: char, v: int, digits: string)
    requires IsIntegerLetter(c) && (v < 0 ==> c == 'd' || c == 'i')
    ensures FrontOf(c, v, false, false, false) + digits == if v < 0 then "-" + digits else digits
  {
  }

  lemma WordReads(w: Word)
    ensures Reading(w, 0x1_0000_0000, false) == w
    ensures Reading(w, 0x1_0000_0000, true) == if w < 0x8000_0000 then w else w - 0x1_0000_0000
  {
  }

  lemma PlainRenders(c: char, args: Arguments)
    requires IsLetter(c)
    ensures Render(['%', c], 0, 0, args) == SpecText(PlainSpec(c), 0, args)
  {
    var ps := [Conversion(PlainSpec(c))];
    assert SpecOk(PlainSpec(c));
    FormatPrints(ps, args);
    assert FormatOf(ps) == ['%', c];
    assert ps[1..] == [];
  }

  lemma UnsignedText(c: char, args: Arguments)
    requires IsIntegerLetter(c) && c != 'd' && c != 'i'
    ensures NumeralOf(c, args.word(0), SpecText(PlainSpec(c), 0, args))
  {
    var digits := PlainMeans(c, args);
    WordReads(args.word(0));
  }

  /** What `%x`, `%X`, `%o`, `%b` and `%u` print reads back as the word that they are given. */
  lemma UnsignedPrints(c: char, args: Arguments)
    requires c == 'x' || c == 'X' || c == 'o' || c == 'b' || c == 'u'
    ensures NumeralOf(c, args.word(0), Render(['%', c], 0, 0, args))
  {
    UnsignedText(c, args);
    PlainRenders(c, args);
  }

  /** A text in which a word with its highest bit set is printed as a negative number. */
  predicate SignedNumeralOf(w: Word, text: string) {
    if w < 0x8000_0000 then NumeralOf('d', w, text)
    else text != "" && text[0] == '-' && NumeralOf('d', 0x1_0000_0000 - w, text[1..])
  }

  lemma WithSign(c: char, w: Word, digits: string, text: string)
    requires c == 'd' || c == 'i'
    requires NumeralOf(c, if w < 0x8000_0000 then w else 0x1_0000_0000 - w, digits)
    requires text == if w < 0x8000_0000 then digits else "-" + digits
    ensures SignedNumeralOf(w, text)
  {
    if w >= 0x8000_0000 {
      assert text[1..] == digits;
    }
  }

  lemma SignedText(c: char, args: Arguments)
    requires c == 'd' || c == 'i'
    ensures SignedNumeralOf(args.word(0), SpecText(PlainSpec(c), 0, args))
  {
    var digits := PlainMeans(c, args);
    WordReads(args.word(0));
    WithSign(c, args.word(0), digits, SpecText(PlainSpec(c), 0, args));
  }

  /** What `%d` and `%i` print reads back as the signed value, with '-' exactly before a negative one. */
  lemma SignedPrints(c: char, args: Arguments)
    requires c == 'd' || c == 'i'
    ensures SignedNumeralOf(args.word(0), Render(['%', c], 0, 0, args))
  {
    SignedText(c, args);
    PlainRenders(c, args);
  }

  /** All of a text, or its first characters. */
  function FirstOf(text: string, cut: bool, n: nat): string {
    if cut && n < |text| then text[..n] else text
  }

  lemma NullText()
    ensures Reverse(")llun(") == "(null)" && Reverse(")lin(") == "(nil)"
  {
  }

  lemma CharMeans(p: Specifier, args: Arguments)
    requires p.Specifier?
    ensures Converted(p, 'c', args)
         == SetIn("", [(args.word(p.arg) % 0x100) as char], p.width, p.flags.left, false)
  {
  }

  lemma StringMeans(p: Specifier, args: Arguments)
    requires p.Specifier? && args.text(p.arg).Some? && |args.text(p.arg).value| <= INT_MAX
    ensures Converted(p, 's', args)
         == SetIn("", FirstOf(args.text(p.arg).value, p.flags.precision, p.precision), p.width, p.flags.left, false)
  {
  }

  lemma NullSets(width: nat, flags: Flags)
    ensures OutRev(")llun(", width, flags)
         == SetIn("", "(null)", if flags.zeropad && !flags.left then 0 else width, flags.left, false)
  {
    NullText();
  }

  lemma NullMeans(p: Specifier, args: Arguments)
    requires p.Specifier? && args.text(p.arg).None?
    ensures Converted(p, 's', args)
         == SetIn("", "(null)", if p.flags.zeropad && !p.flags.left then 0 else p.width, p.flags.left, false)
  {
    NullSets(p.width, p.flags);
  }

  /** `%c` prints one character, set in the width. */
  lemma CharSpecMeans(spec: Spec, arg: nat, args: Arguments)
    requires SpecOk(spec) && spec.letter == 'c'
    ensures var (width, left, next) := WidthMeant(spec.width, arg, args);
      var (precision, after) := PrecisionMeant(spec.precise, next, args);
      SpecText(spec, arg, args)
      == SetIn("", [(args.word(after) % 0x100) as char], width, '-' in spec.flags || left, false)
  {
    MeantIs(spec, arg, args);
    CharMeans(Meant(spec, 0, arg, args), args);
  }

  /** `%s` prints a text, or the first characters of it, set in the width; a null pointer is printed as a text too. */
  lemma StringSpecMeans(spec: Spec, arg: nat, args: Arguments)
    requires SpecOk(spec) && spec.letter == 's'
    ensures var (width, left, next) := WidthMeant(spec.width, arg, args);
      var (precision, after) := PrecisionMeant(spec.precise, next, args);
      var atLeft := '-' in spec.flags || left;
      match args.text(after)
      case Some(text) =>
        |text| <= INT_MAX ==>
        SpecText(spec, arg, args) == SetIn("", FirstOf(text, spec.precise, precision), width, atLeft, false)
      case None =>
        SpecText(spec, arg, args)
        == SetIn("", "(null)", if '0' in spec.flags && !atLeft then 0 else width, atLeft, false)
  {
    var p := Meant(spec, 0, arg, args);
    MeantIs(spec, arg, args);
    if args.text(p.arg).None? {
      NullMeans(p, args);
    } else if |args.text(p.arg).value| <= INT_MAX {
      StringMeans(p, args);
    }
  }

  /** The letters that take an argument. */
  const LETTERS := "diuxXobfFeEgGcspn"

  /** A letter that takes no argument, `%` among them, prints itself, and `%n` prints nothing. */
  lemma OthersMean(spec: Spec, arg: nat, args: Arguments)
    ensures spec.letter !in LETTERS ==> SpecText(spec, arg, args) == [spec.letter]
    ensures spec.letter == 'n' ==> SpecText(spec, arg, args) == ""
  {
  }

  /** A star, a precision and a letter take one argument each, in this order. */
  lemma ArgumentsTaken(spec: Spec, arg: nat, args: Arguments)
    ensures SpecNext(spec, arg, args)
         == arg + (if spec.width == Star then 1 else 0) + (if spec.precise then 1 else 0)
              + (if spec.letter in LETTERS then 1 else 0)
  {
  }

  lemma HexFront(value: nat, flags: Flags)
    requires value != 0 && flags.pointer && !flags.plus && !flags.space && !flags.uppercase
    ensures Sign(false, flags) + BasePrefix(value, 16, flags) == "0x"
  {
  }

  lemma HexNumeral(w: nat, flags: Flags)
    requires !flags.uppercase
    ensures NumeralOf('x', w, Numeral(w, 16, flags))
  {
    NumeralIs('x', w, NO_FLAGS);
    assert Numeral(w, 16, flags) == Numeral(w, 16, IntegerFlags(NO_FLAGS, 'x'));
  }

  lemma HexSets(w: Word, flags: Flags)
    requires w != 0 && flags.pointer && flags.zeropad
    requires !flags.plus && !flags.space && !flags.uppercase && !flags.hash && !flags.precision
    ensures Printed(w, false, 16, 0, 10, flags) == SetIn("0x", Numeral(w, 16, flags), 10, flags.left, true)
  {
    NumbersFit(w, false, 16, 10, flags);
    HexFront(w, flags);
    PrintedSets(w, false, 16, 10, flags, "0x");
  }

  lemma NilSets(flags: Flags)
    requires flags.zeropad
    ensures OutRev(")lin(", POINTER_WIDTH, flags) == SetIn("", "(nil)", if flags.left then 10 else 0, flags.left, false)
  {
    NullText();
  }

  lemma NilMeans(p: Specifier, args: Arguments)
    requires p.Specifier? && args.word(p.arg) == 0
    ensures Converted(p, 'p', args) == SetIn("", "(nil)", if p.flags.left then 10 else 0, p.flags.left, false)
  {
    NilSets(p.flags.(zeropad := true, pointer := true));
  }

  lemma AddressMeans(p: Specifier, args: Arguments) returns (digits: string)
    requires p.Specifier? && args.word(p.arg) != 0 && p.precision == 0
    requires Plain(p.flags) && !p.flags.plus && !p.flags.space && !p.flags.hash
    ensures NumeralOf('x', args.word(p.arg), digits)
    ensures Converted(p, 'p', args) == SetIn("0x", digits, 10, p.flags.left, true)
  {
    var flags := p.flags.(zeropad := true, pointer := true);
    digits := Numeral(args.word(p.arg), 16, flags);
    HexNumeral(args.word(p.arg), flags);
    HexSets(args.word(p.arg), flags);
  }

  /** A pointer is printed as `0x` and hexadecimal digits, at least eight unless it is set to the left. */
  lemma PointerMeans(spec: Spec, arg: nat, args: Arguments) returns (digits: string)
    requires SpecOk(spec) && spec.letter == 'p' && !spec.precise
    requires '+' !in spec.flags && ' ' !in spec.flags && '#' !in spec.flags
    ensures var (width, left, next) := WidthMeant(spec.width, arg, args);
      var w, atLeft, text := args.word(next), '-' in spec.flags || left, SpecText(spec, arg, args);
      if w == 0 then text == SetIn("", "(nil)", if atLeft then 10 else 0, atLeft, false)
      else NumeralOf('x', w, digits) && text == SetIn("0x", digits, 10, atLeft, true)
  {
    var p := Meant(spec, 0, arg, args);
    MeantIs(spec, arg, args);
    if args.word(p.arg) == 0 {
      digits := "";
      NilMeans(p, args);
    } else {
      digits := AddressMeans(p, args);
    }
  }
}
