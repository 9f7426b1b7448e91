/**
 Integer conversions with a precision, of src/kernel/printfDriver/printf.c: what is printed, and exactly when the buffer of
 the code is enough for it.
 */
module FormatPrecision {
  import opened Machine
  import opened Gadget
  import opened PrintInteger
  import opened IntegerLayout
  import opened FormatString
  import opened FormatSpelling
  import opened FormatMeaning

  /** What stands before the digits of a conversion with a precision, which prints `zeros` zeros before them. */
  function PreciseFront(letter: char, value: int, zeros: nat, plus: bool, space: bool, hash: bool): string {
    match letter
    case 'o' => if hash && zeros == 0 then "0" else ""
    case 'b' => if hash then "0b" else ""
    case _ => FrontOf(letter, value, plus, space, hash)
  }

  function PreciseZeros(digits: string, precision: nat): nat {
    if precision > |digits| then precision - |digits| else 0
  }

  /** The digits of a precise number: as many as it has, and none for 0. */
  predicate PreciseDigits(letter: char, n: nat, digits: string) {
    if n == 0 then digits == "" else NumeralOf(letter, n, digits)
  }

  /** The prefix of a conversion with a precision. */
  function PrecisePrefix(base: nat, zeros: nat, flags: Flags): string {
    if !flags.hash || (base == 8 && zeros > 0) then ""
    else if base == 8 then "0" else if base == 2 then "0b" else if flags.uppercase then "0X" else "0x"
  }

  /** The flags of an integer conversion with a precision. */
  predicate PreciseFlags(base: nat, flags: Flags) {
    && IsBase(base) && flags.precision && !flags.zeropad && !flags.pointer
    && (base == 10 ==> !flags.hash)
  }

  lemma NothingTakenBack(text: string, unpadded: nat, base: nat, precision: nat, width: nat, flags: Flags)
    requires flags.precision && unpadded <= |text| && |text| + 2 <= BUFFER_SIZE + (if base == 8 then 1 else 0)
    requires base == 2 || base == 8 || base == 16
    ensures Prefixed(text, unpadded, base, precision, width, flags)
         == if base == 8 then text + "0" else text + [if base == 2 then 'b' else if flags.uppercase then 'X' else 'x', '0']
  {
    assert text[..|text|] == text;
  }

  lemma PreciseHashed(text: string, digits: string, zeros: nat, prefix: string, base: nat, precision: nat, width: nat,
                      flags: Flags)
    requires PreciseFlags(base, flags) && |text| == |digits| + zeros && prefix == PrecisePrefix(base, zeros, flags)
    requires |text| + |prefix| <= BUFFER_SIZE
    ensures Hashed(text, |digits|, base, precision, width, flags) == text + Reverse(prefix)
  {
    ReversePair(prefix);
    if flags.hash && !(base == 8 && zeros > 0) {
      NothingTakenBack(text, |digits|, base, precision, width, flags);
    }
  }

  lemma PreciseStored(digits: string, zeros: nat, prefix: string, sign: string, base: nat, negative: bool,
                      precision: nat, width: nat, flags: Flags)
    requires PreciseFlags(base, flags) && zeros == PreciseZeros(digits, precision)
    requires sign == Sign(negative, flags) && prefix == PrecisePrefix(base, zeros, flags)
    requires |digits| + zeros + |prefix| + |sign| <= BUFFER_SIZE
    ensures Finalized(digits, negative, base, precision, width, flags)
         == digits + Repeat('0', zeros) + Reverse(prefix) + Reverse(sign)
  {
    var text := digits + Repeat('0', zeros);
    assert Padded(digits, precision, width, flags) == text;
    PreciseHashed(text, digits, zeros, prefix, base, precision, width, flags);
    SignedShape(text + Reverse(prefix), negative, flags);
  }

  lemma PreciseText(buf: string, width: nat, flags: Flags, front: string, zeros: nat, digits: string)
    requires Reverse(buf) == front + Repeat('0', zeros) + digits && !flags.zeropad
    ensures OutRev(buf, width, flags) == SetIn(front, Repeat('0', zeros) + digits, width, flags.left, false)
  {
    assert front + Repeat('0', zeros) + digits == front + Repeat('0', 0) + (Repeat('0', zeros) + digits);
    OutRevText(buf, width, flags, front, 0, Repeat('0', zeros) + digits, width);
  }

  lemma StartReversed(value: nat, base: nat, flags: Flags, digits: string)
    requires IsBase(base) && flags.precision && |digits| <= BUFFER_SIZE
    requires digits == if value == 0 then "" else Numeral(value, base, flags)
    ensures Reverse(StartDigits(value, base, flags)) == digits && |StartDigits(value, base, flags)| == |digits|
  {
    if value != 0 {
      assert |Digits(value, base, flags.uppercase)| <= BUFFER_SIZE;
    }
  }

  /** A front and a body without spaces, but for a space in place of a sign. */
  predicate NoSpacesIn(front: string, body: string) {
    && |front| <= 2 && (front != "" && front[0] == ' ' ==> |front| == 1)
    && forall k :: 0 <= k < |body| ==> body[k] != ' '
  }

  /** A buffer that is too small for a text does not print it, to the left: a space comes too early. */
  lemma TooLongLeft(buf: string, width: nat, flags: Flags, front: string, body: string)
    requires |buf| <= 32 < |front| + |body| && flags.left && NoSpacesIn(front, body)
    ensures OutRev(buf, width, flags) != SetIn(front, body, width, true, false)
  {
    var n, k := |front| + |body|, |body| - 1;
    var text := front + body + Repeat(' ', width - n);
    assert SetIn(front, body, width, true, false) == text;
    if width >= n {
      assert OutRev(buf, width, flags)[n - 1] == ' ';
      assert text[n - 1] == (front + body)[n - 1] == body[k];
    }
  }

  /** Nor to the right, where a space goes on too long; but a dropped space in front looks like one of the padding. */
  lemma TooLongRight(buf: string, width: nat, flags: Flags, front: string, body: string)
    requires |buf| <= 32 < |front| + |body| && !flags.left && !flags.zeropad && NoSpacesIn(front, body)
    requires front == " " && width >= 33 ==> |body| > 32
    ensures OutRev(buf, width, flags) != SetIn(front, body, width, false, false)
  {
    var n := |front| + |body|;
    if width >= n {
      var k := width - n + if front == " " then 1 else 0;
      assert OutRev(buf, width, flags)[k] == ' ';
      assert SetIn(front, body, width, false, false)[k] == (front + body)[k - (width - n)];
    }
  }

  lemma SpaceDropped(buf: string, width: nat, flags: Flags, body: string)
    requires Reverse(buf) == body && |body| == 32 && width >= 33 && !flags.left && !flags.zeropad
    ensures OutRev(buf, width, flags) == SetIn(" ", body, width, false, false)
  {
    assert Repeat(' ', width - 32) == Repeat(' ', width - 33) + " ";
  }

  lemma {:induction false} NoSpacesReversed(t: string)
    requires forall k :: 0 <= k < |t| ==> t[k] != ' '
    ensures forall k :: 0 <= k < |t| ==> Reverse(t)[k] != ' '
  {
    forall k | 0 <= k < |t| ensures Reverse(t)[k] != ' ' {
      ReverseAt(t, k);
    }
  }

  lemma NumeralNoSpaces(value: nat, base: nat, flags: Flags)
    requires IsBase(base)
    ensures forall k :: 0 <= k < |Numeral(value, base, flags)| ==> Numeral(value, base, flags)[k] != ' '
  {
    if value != 0 {
      var digits := Digits(value, base, flags.uppercase);
      forall k | 0 <= k < |digits| ensures digits[k] != ' ' {
        NoSpaces(value, base, flags.uppercase, k);
      }
      NoSpacesReversed(digits);
    }
  }

  lemma NoPrefixIsSpace(base: nat, zeros: nat, flags: Flags)
    ensures PrecisePrefix(base, zeros, flags) != " "
  {
  }

  lemma FrontShape(negative: bool, base: nat, zeros: nat, flags: Flags)
    requires PreciseFlags(base, flags) && (base != 10 ==> !negative && !flags.plus && !flags.space)
    ensures var front := Sign(negative, flags) + PrecisePrefix(base, zeros, flags);
      NoSpacesIn(front, "") && (front == " " ==> base == 10 && !negative)
  {
    var sign, prefix := Sign(negative, flags), PrecisePrefix(base, zeros, flags);
    if base == 10 {
      assert sign + prefix == sign && (sign == " " ==> sign[0] == ' ');
    } else {
      assert sign + prefix == prefix;
      NoPrefixIsSpace(base, zeros, flags);
    }
  }

  /** When sign, prefix, zeros and digits are printed as they should be: the buffer takes them, or all but a space. */
  predicate PreciseRoom(front: string, length: nat, width: nat, left: bool) {
    |front| + length <= 32 || (front == " " && length == 32 && width >= 33 && !left)
  }

  lemma PreciseFits(value: nat, negative: bool, base: nat, precision: nat, width: nat, flags: Flags, digits: string)
    requires PreciseFlags(base, flags) && digits == if value == 0 then "" else Numeral(value, base, flags)
    requires var zeros, fl := PreciseZeros(digits, precision), StartFlags(value, base, flags);
      |Sign(negative, fl) + PrecisePrefix(base, zeros, fl)| + zeros + |digits| <= BUFFER_SIZE
    ensures var zeros, fl := PreciseZeros(digits, precision), StartFlags(value, base, flags);
      Printed(value, negative, base, precision, width, flags)
      == SetIn(Sign(negative, fl) + PrecisePrefix(base, zeros, fl), Repeat('0', zeros) + digits, width, flags.left, false)
  {
    var zeros, fl := PreciseZeros(digits, precision), StartFlags(value, base, flags);
    var sign, prefix := Sign(negative, fl), PrecisePrefix(base, zeros, fl);
    var start := StartDigits(value, base, flags);
    StartReversed(value, base, flags, digits);
    PreciseStored(start, zeros, prefix, sign, base, negative, precision, width, fl);
    ReverseText(start, zeros, prefix, sign);
    PreciseText(Finalized(start, negative, base, precision, width, fl), width, fl, sign + prefix, zeros, digits);
  }

  lemma FullStored(start: string, zeros: nat, negative: bool, precision: nat, width: nat, flags: Flags)
    requires PreciseFlags(10, flags) && zeros == PreciseZeros(start, precision) && |start| + zeros == BUFFER_SIZE
    ensures Finalized(start, negative, 10, precision, width, flags) == start + Repeat('0', zeros)
  {
    assert Padded(start, precision, width, flags) == start + Repeat('0', zeros);
  }

  /** A space in front of 32 digits and zeros is dropped, and padding takes its place. */
  lemma PreciseFull(value: nat, precision: nat, width: nat, flags: Flags, digits: string)
    requires PreciseFlags(10, flags) && digits == (if value == 0 then "" else Numeral(value, 10, flags))
    requires |digits| + PreciseZeros(digits, precision) == 32 && width >= 33 && !flags.left
    ensures Printed(value, false, 10, precision, width, flags)
         == SetIn(" ", Repeat('0', PreciseZeros(digits, precision)) + digits, width, false, false)
  {
    var zeros, start := PreciseZeros(digits, precision), StartDigits(value, 10, flags);
    StartReversed(value, 10, flags, digits);
    FullStored(start, zeros, false, precision, width, flags);
    ReverseConcat(start, Repeat('0', zeros));
    ReverseRepeat('0', zeros);
    SpaceDropped(start + Repeat('0', zeros), width, flags, Repeat('0', zeros) + digits);
  }

  lemma PreciseTooLong(value: nat, negative: bool, base: nat, precision: nat, width: nat, flags: Flags, front: string,
                       body: string)
    requires PreciseFlags(base, flags) && NoSpacesIn(front, body) && |front| + |body| > 32
    requires !PreciseRoom(front, |body|, width, flags.left)
    ensures Printed(value, negative, base, precision, width, flags) != SetIn(front, body, width, flags.left, false)
  {
    var fl := StartFlags(value, base, flags);
    var buf := Finalized(StartDigits(value, base, flags), negative, base, precision, width, fl);
    if flags.left {
      TooLongLeft(buf, width, fl, front, body);
    } else {
      TooLongRight(buf, width, fl, front, body);
    }
  }

  lemma BodyNoSpaces(front: string, zeros: nat, digits: string)
    requires NoSpacesIn(front, "") && forall k :: 0 <= k < |digits| ==> digits[k] != ' '
    ensures NoSpacesIn(front, Repeat('0', zeros) + digits)
  {
  }

  /** A precise number has its sign, its prefix, its zeros and its digits exactly if there is room for them. */
  lemma PrecisePrinted(value: nat, negative: bool, base: nat, precision: nat, width: nat, flags: Flags, digits: string)
    requires PreciseFlags(base, flags) && digits == if value == 0 then "" else Numeral(value, base, flags)
    requires base != 10 ==> !negative && !flags.plus && !flags.space
    ensures var zeros, fl := PreciseZeros(digits, precision), StartFlags(value, base, flags);
      var front := Sign(negative, fl) + PrecisePrefix(base, zeros, fl);
      Printed(value, negative, base, precision, width, flags)
      == SetIn(front, Repeat('0', zeros) + digits, width, flags.left, false)
      <==> PreciseRoom(front, zeros + |digits|, width, flags.left)
  {
    var zeros, fl := PreciseZeros(digits, precision), StartFlags(value, base, flags);
    var front, body := Sign(negative, fl) + PrecisePrefix(base, zeros, fl), Repeat('0', zeros) + digits;
    FrontShape(negative, base, zeros, fl);
    if |front| + zeros + |digits| <= BUFFER_SIZE {
      PreciseFits(value, negative, base, precision, width, flags, digits);
    } else if PreciseRoom(front, zeros + |digits|, width, flags.left) {
      PreciseFull(value, precision, width, flags, digits);
    } else {
      NumeralNoSpaces(value, base, flags);
      BodyNoSpaces(front, zeros, digits);
      PreciseTooLong(value, negative, base, precision, width, flags, front, body);
    }
  }

  lemma PreciseFrontIs(c: char, v: int, zeros: nat, flags: Flags)
    requires IsIntegerLetter(c) && !flags.uppercase && !flags.pointer && flags.precision
    requires c != 'd' && c != 'i' ==> v >= 0
    ensures var fl := StartFlags(Abs(v), Base(c), IntegerFlags(flags, c));
      Sign(v < 0, fl) + PrecisePrefix(Base(c), zeros, fl)
      == PreciseFront(c, v, zeros, flags.plus, flags.space, flags.hash)
  {
  }

  lemma FlagsPrecise(flags: Flags, c: char, v: int)
    requires IsIntegerLetter(c) && flags.precision && !flags.pointer && (c != 'd' && c != 'i' ==> v >= 0)
    ensures var f := IntegerFlags(flags, c);
      PreciseFlags(Base(c), f) && (Base(c) != 10 ==> v >= 0 && !f.plus && !f.space)
  {
  }

  lemma PreciseDigitsAre(c: char, v: int, flags: Flags)
    requires IsIntegerLetter(c) && !flags.uppercase
    ensures PreciseDigits(c, Abs(v), if v == 0 then "" else Numeral(Abs(v), Base(c), IntegerFlags(flags, c)))
  {
    NumeralIs(c, Abs(v), flags);
  }

  lemma PreciseConverted(p: Specifier, c: char, args: Arguments, v: int, digits: string)
    requires p.Specifier? && IsIntegerLetter(c) && p.flags.precision && !p.flags.uppercase && !p.flags.pointer
    requires v == ValueOf(p, c, args)
    requires digits == if v == 0 then "" else Numeral(Abs(v), Base(c), IntegerFlags(p.flags, c))
    ensures var zeros := PreciseZeros(digits, p.precision);
      var front := PreciseFront(c, v, zeros, p.flags.plus, p.flags.space, p.flags.hash);
      Converted(p, c, args) == SetIn(front, Repeat('0', zeros) + digits, p.width, p.flags.left, false)
      <==> PreciseRoom(front, zeros + |digits|, p.width, p.flags.left)
  {
    UnsignedIs(p, c, args);
    TextIsPrinted(p, c, args);
    PreciseFrontIs(c, v, PreciseZeros(digits, p.precision), p.flags);
    FlagsPrecise(p.flags, c, v);
    PrecisePrinted(Abs(v), v < 0, Base(c), p.precision, p.width, IntegerFlags(p.flags, c), digits);
  }

  /**
   An integer conversion with a precision prints at least so many digits, no digits of its own for 0, and no zeros for its
   width, exactly if there is room for all of them.
   */
  lemma PreciseMeans(p: Specifier, c: char, args: Arguments) returns (digits: string)
    requires p.Specifier? && IsIntegerLetter(c) && p.flags.precision && !p.flags.uppercase && !p.flags.pointer
    ensures var v := ValueOf(p, c, args);
      var zeros := PreciseZeros(digits, p.precision);
      var front := PreciseFront(c, v, zeros, p.flags.plus, p.flags.space, p.flags.hash);
      && PreciseDigits(c, Abs(v), digits)
      && (Converted(p, c, args) == SetIn(front, Repeat('0', zeros) + digits, p.width, p.flags.left, false)
          <==> PreciseRoom(front, zeros + |digits|, p.width, p.flags.left))
  {
    var v := ValueOf(p, c, args);
    digits := if v == 0 then "" else Numeral(Abs(v), Base(c), IntegerFlags(p.flags, c));
    PreciseDigitsAre(c, v, p.flags);
    PreciseConverted(p, c, args, v, digits);
  }

  /** The same for a conversion with a precision as it is written. */
  lemma PreciseSpecMeans(spec: Spec, arg: nat, args: Arguments) returns (digits: string)
    requires AllFlags(spec.flags) && spec.precise && IsIntegerLetter(spec.letter)
    ensures var (width, left, next) := WidthMeant(spec.width, arg, args);
      var (precision, after) := PrecisionMeant(true, next, args);
      var v, zeros := SpecValue(spec, after, args), PreciseZeros(digits, precision);
      var front := PreciseFront(spec.letter, v, zeros, '+' in spec.flags, ' ' in spec.flags, '#' in spec.flags);
      && PreciseDigits(spec.letter, Abs(v), digits)
      && (SpecText(spec, arg, args) == SetIn(front, Repeat('0', zeros) + digits, width, '-' in spec.flags || left, false)
          <==> PreciseRoom(front, zeros + |digits|, width, '-' in spec.flags || left))
  {
    var p := Meant(spec, 0, arg, args);
    MeantIs(spec, arg, args);
    ValueIs(p, spec, args);
    digits := PreciseMeans(p, spec.letter, args);
  }
}
