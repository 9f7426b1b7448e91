/**
 What the integer conversions of src/kernel/printfDriver/printf.c print in a format: whatever flags, width and length
 are written, the number is laid out as it should be.
 */
module FormatLayout {
  import opened Machine
  import opened Gadget
  import opened PrintInteger
  import opened IntegerLayout
  import opened FormatString

  /** The flags that only later parts of a specifier set. */
  predicate Plain(flags: Flags) {
    !flags.precision && !flags.pointer && !flags.uppercase
  }

  lemma WithFlagPlain(flags: Flags, c: char)
    requires Plain(flags)
    ensures Plain(WithFlag(flags, c))
  {
  }

  lemma {:induction false} ParsedFlagsPlain(s: CString, i: nat, flags: Flags)
    requires Plain(flags)
    ensures Plain(ParsedFlags(s, i, flags).0)
    decreases |s| - i
  {
    if IsFlag(At(s, i)) {
      WithFlagPlain(flags, s[i]);
      ParsedFlagsPlain(s, i + 1, WithFlag(flags, s[i]));
    }
  }

  predicate SameButSize(p: Specifier, q: Specifier) {
    p.Specifier? && q.Specifier? ==>
      q.precision == p.precision && q.flags.precision == p.flags.precision && Plain(q.flags) == Plain(p.flags)
  }

  lemma SizedSame(s: CString, p: Specifier, size: Size)
    requires p.Specifier? && p.next < |s|
    ensures SameButSize(p, Sized(s, p, size))
  {
  }

  lemma LengthSame(s: CString, p: Specifier)
    requires p.Specifier? && p.next <= |s|
    ensures SameButSize(p, ParsedLength(s, p))
  {
    if p.next < |s| {
      SizedSame(s, p, Long);
      SizedSame(s, p, Short);
      SizedSame(s, p, LongLong);
      var q, r := Sized(s, p, Long), Sized(s, p, Short);
      if q.Specifier? {
        SizedSame(s, q, LongLong);
      }
      if r.Specifier? {
        SizedSame(s, r, Char);
      }
    }
  }

  lemma ParsedPlain(s: CString, i: nat, arg: nat, args: Arguments)
    requires i < |s|
    ensures var p := Parsed(s, i, arg, args);
      p.Specifier? && !p.flags.precision ==> Plain(p.flags) && p.precision == 0
  {
    ParsedFlagsPlain(s, i + 1, NO_FLAGS);
    if i + 1 < |s| {
      var (flags, next) := ParsedFlags(s, i + 1, NO_FLAGS);
      var p := ParsedWidth(s, Specifier(flags, 0, 0, next, arg), args);
      if p.Specifier? {
        assert Plain(p.flags) && p.precision == 0;
        var q := ParsedPrecision(s, p, args);
        if q.Specifier? {
          assert !q.flags.precision ==> q == p;
          LengthSame(s, q);
        }
      }
    }
  }

  /**
   Any integer conversion of any format, without a precision, is printed as the layout of its argument if and only if
   that fits the buffer.
   */
  lemma ConversionIsLayout(s: CString, i: nat, arg: nat, args: Arguments, c: char)
    requires i < |s| && Parsed(s, i, arg, args).Specifier? && !Parsed(s, i, arg, args).flags.precision
    requires c == At(s, Parsed(s, i, arg, args).next) && IsIntegerLetter(c)
    ensures var p := Parsed(s, i, arg, args);
      var flags := IntegerFlags(p.flags, c);
      var value := IntegerArgument(flags, p.arg, args, flags.signed);
      Converted(p, c, args) == Layout(Abs(value), value < 0, Base(c), p.width, flags)
      <==> Fits(Abs(value), value < 0, Base(c), p.width, flags)
  {
    var p := Parsed(s, i, arg, args);
    var flags := IntegerFlags(p.flags, c);
    var value := IntegerArgument(flags, p.arg, args, flags.signed);
    ParsedPlain(s, i, arg, args);
    PrintedIsLayout(Abs(value), value < 0, Base(c), p.width, flags);
  }

  /** A pointer that is not null is always printed with its prefix and, unless it is set to the left, eight digits. */
  lemma PointerIsLayout(s: CString, i: nat, arg: nat, args: Arguments)
    requires i < |s| && Parsed(s, i, arg, args).Specifier? && !Parsed(s, i, arg, args).flags.precision
    requires args.word(Parsed(s, i, arg, args).arg) != 0
    ensures var p := Parsed(s, i, arg, args);
      PointerText(p, args)
      == Layout(args.word(p.arg), false, 16, POINTER_WIDTH, p.flags.(zeropad := true, pointer := true))
  {
    var p := Parsed(s, i, arg, args);
    var flags := p.flags.(zeropad := true, pointer := true);
    ParsedPlain(s, i, arg, args);
    NumbersFit(args.word(p.arg), false, 16, POINTER_WIDTH, flags);
    PrintedIsLayout(args.word(p.arg), false, 16, POINTER_WIDTH, flags);
  }
}
