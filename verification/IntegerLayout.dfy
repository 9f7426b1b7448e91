/**
 What the integer conversion of src/kernel/printfDriver/printf.c prints when no precision is given: the text that a
 number should have, padded to the width; and exactly when the 32-character buffer is enough for that.
 */
module IntegerLayout {
  import opened Machine
  import opened Gadget
  import opened PrintInteger

  /** The flags that the format loop can pass along with a base when there is no explicit precision. */
  predicate Possible(value: nat, negative: bool, base: nat, flags: Flags) {
    && value < TWO_TO_THE_64 && IsBase(base) && !flags.precision
    && (base == 10 ==> !flags.hash && !flags.pointer)
    && (base != 10 && !flags.pointer ==> !negative && !flags.plus && !flags.space)
    && (flags.pointer ==> base == 16 && value != 0 && !negative)
    && (flags.uppercase ==> base == 16)
  }

  function Sign(negative: bool, flags: Flags): string {
    if negative then "-" else if flags.plus then "+" else if flags.space then " " else ""
  }

  function BasePrefix(value: nat, base: nat, flags: Flags): string {
    if value == 0 || !(flags.hash || flags.pointer) then ""
    else if base == 16 then (if flags.uppercase then "0X" else "0x")
    else if base == 2 then "0b"
    else "0"
  }

  function Numeral(value: nat, base: nat, flags: Flags): string
    requires IsBase(base)
  {
    if value == 0 then "0" else Reverse(Digits(value, base, flags.uppercase))
  }

  /** The length that a number needs. */
  function Natural(value: nat, negative: bool, base: nat, flags: Flags): nat
    requires IsBase(base)
  {
    |Sign(negative, flags)| + |BasePrefix(value, base, flags)| + |Numeral(value, base, flags)|
  }

  /** Padding goes behind the number, between its sign or prefix and its digits, or before it. */
  function Layout(value: nat, negative: bool, base: nat, width: nat, flags: Flags): (r: string)
    requires IsBase(base)
    ensures |r| == if width > Natural(value, negative, base, flags) then width else Natural(value, negative, base, flags)
  {
    var room := width - Natural(value, negative, base, flags);
    var front := Sign(negative, flags) + BasePrefix(value, base, flags);
    var numeral := Numeral(value, base, flags);
    if flags.left then front + numeral + Repeat(' ', room)
    else if flags.zeropad then front + Repeat('0', room) + numeral
    else Repeat(' ', room) + front + numeral
  }

  /** The buffer is large enough: for the number, and for the zeros in front of it. */
  predicate Fits(value: nat, negative: bool, base: nat, width: nat, flags: Flags)
    requires IsBase(base)
  {
    && Natural(value, negative, base, flags) <= BUFFER_SIZE
    && (flags.zeropad && !flags.left ==> width <= BUFFER_SIZE)
  }

  /** The number is laid out as it should be if and only if it fits. */
  lemma PrintedIsLayout(value: nat, negative: bool, base: nat, width: nat, flags: Flags)
    requires Possible(value, negative, base, flags)
    ensures Printed(value, negative, base, 0, width, flags) == Layout(value, negative, base, width, flags)
       <==> Fits(value, negative, base, width, flags)
  {
    if Fits(value, negative, base, width, flags) {
      FittingIsLayout(value, negative, base, width, flags);
    } else {
      UnfittingIsNot(value, negative, base, width, flags);
    }
  }

  lemma RepeatCons(c: char, n: nat)
    ensures Repeat(c, n + 1) == [c] + Repeat(c, n)
  {
  }

  lemma {:induction false} ReverseRepeat(c: char, n: nat)
    ensures Reverse(Repeat(c, n)) == Repeat(c, n)
  {
    if n > 0 {
      ReverseRepeat(c, n - 1);
      ReverseConcat(Repeat(c, n - 1), [c]);
      RepeatCons(c, n - 1);
    }
  }

  lemma {:induction false} ReverseReverse(s: string)
    ensures Reverse(Reverse(s)) == s
  {
    if s != "" {
      ReverseReverse(s[1..]);
      ReverseConcat(Reverse(s[1..]), [s[0]]);
    }
  }

  lemma {:induction false} ReverseAt(s: string, k: nat)
    requires k < |s|
    ensures Reverse(s)[k] == s[|s| - 1 - k]
  {
    if k < |s| - 1 {
      ReverseAt(s[1..], k);
    }
  }

  /** The zeros that go between the prefix and the digits. */
  function Zeros(value: nat, negative: bool, base: nat, width: nat, flags: Flags): nat
    requires IsBase(base)
  {
    var n := Natural(value, negative, base, flags);
    if flags.zeropad && !flags.left && width > n then width - n else 0
  }

  lemma SignedShape(text: string, negative: bool, flags: Flags)
    requires |text| + |Sign(negative, flags)| <= BUFFER_SIZE
    ensures Signed(text, negative, flags) == text + Reverse(Sign(negative, flags))
  {
    assert forall c: char :: Reverse([c]) == [c];
  }

  /** The zeros put before the digits, before some are taken back. */
  function Filled(value: nat, negative: bool, base: nat, width: nat, flags: Flags): nat
    requires IsBase(base)
  {
    var w := DigitWidth(width, negative, flags);
    var n := |Numeral(value, base, flags)|;
    if flags.zeropad && !flags.left && w > n then w - n else 0
  }

  lemma PaddedShape(value: nat, negative: bool, base: nat, width: nat, flags: Flags)
    requires IsBase(base) && !flags.precision && |Numeral(value, base, flags)| <= BUFFER_SIZE
    requires flags.zeropad && !flags.left ==> width <= BUFFER_SIZE
    ensures var digits, fl := StartDigits(value, base, flags), StartFlags(value, base, flags);
      Padded(digits, 0, DigitWidth(width, negative, flags), fl)
      == digits + Repeat('0', Filled(value, negative, base, width, flags))
  {
  }

  lemma ZerosLeft(value: nat, negative: bool, base: nat, width: nat, flags: Flags)
    requires IsBase(base)
    ensures var filled, taken := Filled(value, negative, base, width, flags), |BasePrefix(value, base, flags)|;
      Zeros(value, negative, base, width, flags) == if filled < taken then 0 else filled - taken
  {
  }

  /** Two zeros make room for a prefix of two characters. */
  lemma WideShape(digits: string, filled: nat, base: nat, width: nat, flags: Flags)
    requires (base == 16 || base == 2) && !flags.precision && |digits| + 2 <= BUFFER_SIZE
    requires filled > 0 ==> |digits| + filled == width <= BUFFER_SIZE
    ensures Prefixed(digits + Repeat('0', filled), |digits|, base, 0, width, flags)
         == digits + Repeat('0', filled - 2) + [if base == 2 then 'b' else if flags.uppercase then 'X' else 'x', '0']
  {
    var buf := digits + Repeat('0', filled);
    var taken := TakenBack(|digits|, |buf|, base, 0, width, flags);
    assert taken == if filled < 2 then filled else 2;
    assert buf[..|buf| - taken] == digits + Repeat('0', filled - 2);
  }

  /** The zero of an octal prefix is one of the zeros put already, or is added. */
  lemma OctalShape(digits: string, filled: nat, width: nat, flags: Flags)
    requires !flags.precision && !flags.pointer && flags.hash && |digits| + 1 <= BUFFER_SIZE
    ensures Hashed(digits + Repeat('0', filled), |digits|, 8, 0, width, flags)
         == digits + Repeat('0', filled - 1) + "0"
  {
    assert filled == 0 ==> (digits + Repeat('0', filled))[..|digits|] == digits;
  }

  lemma ReversePair(s: string)
    requires |s| <= 2
    ensures Reverse(s) == if |s| == 2 then [s[1], s[0]] else s
  {
    if |s| == 2 {
      assert Reverse(s[1..]) == [s[1]];
    }
  }

  lemma PrefixShape(value: nat, negative: bool, base: nat, width: nat, flags: Flags)
    requires Possible(value, negative, base, flags) && Fits(value, negative, base, width, flags)
    ensures var digits, fl := StartDigits(value, base, flags), StartFlags(value, base, flags);
      Hashed(digits + Repeat('0', Filled(value, negative, base, width, flags)), |digits|, base, 0,
             DigitWidth(width, negative, flags), fl)
      == digits + Repeat('0', Zeros(value, negative, base, width, flags)) + Reverse(BasePrefix(value, base, flags))
  {
    var digits, fl := StartDigits(value, base, flags), StartFlags(value, base, flags);
    var filled := Filled(value, negative, base, width, flags);
    var prefix := BasePrefix(value, base, flags);
    ZerosLeft(value, negative, base, width, flags);
    ReversePair(prefix);
    if prefix != "" {
      if base == 8 {
        OctalShape(digits, filled, DigitWidth(width, negative, flags), fl);
      } else {
        WideShape(digits, filled, base, DigitWidth(width, negative, flags), fl);
      }
    }
  }

  lemma RoomForSign(value: nat, negative: bool, base: nat, width: nat, flags: Flags)
    requires Possible(value, negative, base, flags) && Fits(value, negative, base, width, flags)
    ensures |StartDigits(value, base, flags)| + Zeros(value, negative, base, width, flags) +
              |BasePrefix(value, base, flags)| + |Sign(negative, flags)| <= BUFFER_SIZE
  {
  }

  /** The reversed text is the digits, the zeros, the reversed prefix and the reversed sign. */
  lemma FinalizedShape(value: nat, negative: bool, base: nat, width: nat, flags: Flags)
    requires Possible(value, negative, base, flags) && Fits(value, negative, base, width, flags)
    ensures Finalized(StartDigits(value, base, flags), negative, base, 0, width, StartFlags(value, base, flags))
         == StartDigits(value, base, flags) + Repeat('0', Zeros(value, negative, base, width, flags)) +
              Reverse(BasePrefix(value, base, flags)) + Reverse(Sign(negative, flags))
  {
    var digits, fl := StartDigits(value, base, flags), StartFlags(value, base, flags);
    var w := DigitWidth(width, negative, fl);
    var text := digits + Repeat('0', Zeros(value, negative, base, width, flags)) +
                  Reverse(BasePrefix(value, base, flags));
    PaddedShape(value, negative, base, width, flags);
    PrefixShape(value, negative, base, width, flags);
    assert Hashed(Padded(digits, 0, w, fl), |digits|, base, 0, w, fl) == text;
    RoomForSign(value, negative, base, width, flags);
    SignedShape(text, negative, flags);
  }

  lemma StartIsNumeral(value: nat, base: nat, flags: Flags)
    requires IsBase(base) && !flags.precision && |Numeral(value, base, flags)| <= BUFFER_SIZE
    ensures Reverse(StartDigits(value, base, flags)) == Numeral(value, base, flags)
  {
    ReversePair("0");
    if value != 0 {
      assert |Digits(value, base, flags.uppercase)| <= BUFFER_SIZE;
    }
  }

  lemma ReverseThree(a: string, b: string, c: string)
    ensures Reverse(a + b + c) == Reverse(c) + Reverse(b) + Reverse(a)
  {
    ReverseConcat(a + b, c);
    ReverseConcat(a, b);
  }

  lemma ReverseText(digits: string, zeros: nat, prefix: string, sign: string)
    ensures Reverse(digits + Repeat('0', zeros) + Reverse(prefix) + Reverse(sign))
         == sign + prefix + Repeat('0', zeros) + Reverse(digits)
  {
    var z := Repeat('0', zeros);
    ReverseThree(digits + z, Reverse(prefix), Reverse(sign));
    ReverseConcat(digits, z);
    ReverseReverse(sign);
    ReverseReverse(prefix);
    ReverseRepeat('0', zeros);
  }

  /** `out_rev_` adds the spaces that neither the zeros nor the number leave. */
  lemma OutRevText(buf: string, w: nat, flags: Flags, front: string, zeros: nat, numeral: string, width: nat)
    requires Reverse(buf) == front + Repeat('0', zeros) + numeral
    requires (flags.zeropad && !flags.left) || (w == width && zeros == 0)
    ensures var room := width - |front| - |numeral|;
      OutRev(buf, w, flags)
      == if flags.left then front + numeral + Repeat(' ', room)
         else if flags.zeropad then front + Repeat('0', zeros) + numeral
         else Repeat(' ', room) + front + numeral
  {
    assert zeros == 0 ==> front + Repeat('0', zeros) + numeral == front + numeral;
  }

  lemma FittingIsLayout(value: nat, negative: bool, base: nat, width: nat, flags: Flags)
    requires Possible(value, negative, base, flags) && Fits(value, negative, base, width, flags)
    ensures Printed(value, negative, base, 0, width, flags) == Layout(value, negative, base, width, flags)
  {
    var zeros := Zeros(value, negative, base, width, flags);
    var sign, prefix := Sign(negative, flags), BasePrefix(value, base, flags);
    var fl := StartFlags(value, base, flags);
    var start := StartDigits(value, base, flags);
    FinalizedShape(value, negative, base, width, flags);
    ReverseText(start, zeros, prefix, sign);
    StartIsNumeral(value, base, flags);
    OutRevText(Finalized(start, negative, base, 0, width, fl), DigitWidth(width, negative, fl), fl,
               sign + prefix, zeros, Numeral(value, base, flags), width);
  }

  function Times(base: nat, n: nat): nat
    requires IsBase(base)
  {
    if base == 2 then 2 * n else if base == 8 then 8 * n else if base == 10 then 10 * n else 16 * n
  }

  function Pow(base: nat, n: nat): nat
    requires IsBase(base)
    decreases n
  {
    if n == 0 then 1 else Times(base, Pow(base, n - 1))
  }

  lemma Powers()
    ensures Pow(2, 30) == 0x4000_0000 && Pow(2, 32) == 0x1_0000_0000
    ensures TWO_TO_THE_64 <= Pow(8, 22) && TWO_TO_THE_64 <= Pow(10, 20) && TWO_TO_THE_64 <= Pow(16, 16)
  {
    assert Pow(2, 10) == 0x400;
    assert Pow(2, 20) == 0x10_0000;
    assert Pow(8, 8) == 0x100_0000;
    assert Pow(8, 16) == 0x1_0000_0000_0000;
    assert Pow(8, 20) == 0x1000_0000_0000_0000;
    assert Pow(8, 22) == 0x4_0000_0000_0000_0000;
    assert Pow(10, 8) == 100_000_000;
    assert Pow(10, 16) == 10_000_000_000_000_000;
    assert Pow(10, 20) == 100_000_000_000_000_000_000;
    assert Pow(16, 8) == 0x1_0000_0000;
    assert Pow(16, 12) == 0x1_0000_0000_0000;
    assert Pow(16, 16) == 0x1_0000_0000_0000_0000;
  }

  lemma {:induction false} DigitsBound(value: nat, base: nat, upper: bool, n: nat)
    requires IsBase(base) && value < Pow(base, n)
    ensures |Digits(value, base, upper)| <= n
  {
    if value != 0 {
      DigitsBound(High(value, base), base, upper, n - 1);
    }
  }

  lemma {:induction false} DigitsAtMost(value: nat, base: nat, upper: bool, n: nat)
    requires IsBase(base) && |Digits(value, base, upper)| <= n
    ensures value < Pow(base, n)
    decreases n
  {
    if n > 0 {
      DigitsAtMost(High(value, base), base, upper, n - 1);
    }
  }

  /** Every value of 64 bits fits in bases 8, 10 and 16; in base 2 one of 32 bits, or of 30 bits with a prefix. */
  lemma NumbersFit(value: nat, negative: bool, base: nat, width: nat, flags: Flags)
    requires Possible(value, negative, base, flags) && width <= BUFFER_SIZE
    requires base == 2 ==> value < (if flags.hash then 0x4000_0000 else TWO_TO_THE_32)
    ensures Fits(value, negative, base, width, flags)
  {
    Powers();
    if base == 2 {
      DigitsBound(value, 2, flags.uppercase, if flags.hash then 30 else 32);
    } else {
      DigitsBound(value, base, flags.uppercase, if base == 8 then 22 else if base == 10 then 20 else 16);
    }
  }

  lemma {:induction false} NoSpaces(value: nat, base: nat, upper: bool, k: nat)
    requires IsBase(base) && k < |Digits(value, base, upper)|
    ensures Digits(value, base, upper)[k] != ' '
  {
    if k > 0 {
      NoSpaces(High(value, base), base, upper, k - 1);
    }
  }

  lemma NumeralEnds(value: nat, base: nat, flags: Flags)
    requires IsBase(base)
    ensures var s := Numeral(value, base, flags);
      s != "" && s[0] != ' ' && s[|s| - 1] != ' '
  {
    if value != 0 {
      var digits := Digits(value, base, flags.uppercase);
      ReverseAt(digits, 0);
      ReverseAt(digits, |digits| - 1);
      NoSpaces(value, base, flags.uppercase, 0);
      NoSpaces(value, base, flags.uppercase, |digits| - 1);
    }
  }

  /** A number that is too long for the buffer is cut short: where it stands on the left, spaces begin too early. */
  lemma TooLongOnTheLeft(value: nat, negative: bool, base: nat, width: nat, flags: Flags)
    requires Possible(value, negative, base, flags) && base == 2 && flags.left
    requires Natural(value, negative, base, flags) > BUFFER_SIZE
    ensures Printed(value, negative, base, 0, width, flags) != Layout(value, negative, base, width, flags)
  {
    var n := Natural(value, negative, base, flags);
    NumeralEnds(value, base, flags);
    if n <= width {
      assert Layout(value, negative, base, width, flags)[n - 1] != ' ';
      assert Printed(value, negative, base, 0, width, flags)[n - 1] == ' ';
    }
  }

  /** And where it stands on the right, they end too late, or zeros are lacking. */
  lemma TooLongOnTheRight(value: nat, negative: bool, base: nat, width: nat, flags: Flags)
    requires Possible(value, negative, base, flags) && base == 2 && !flags.left
    requires Natural(value, negative, base, flags) > BUFFER_SIZE
    ensures Printed(value, negative, base, 0, width, flags) != Layout(value, negative, base, width, flags)
  {
    var n := Natural(value, negative, base, flags);
    NumeralEnds(value, base, flags);
    if !flags.zeropad && n <= width {
      assert Layout(value, negative, base, width, flags)[width - n] != ' ';
      assert Printed(value, negative, base, 0, width, flags)[width - n] == ' ';
    }
  }

  /** A number that does not fit is cut short, or lacks its zeros. */
  lemma UnfittingIsNot(value: nat, negative: bool, base: nat, width: nat, flags: Flags)
    requires Possible(value, negative, base, flags) && !Fits(value, negative, base, width, flags)
    ensures Printed(value, negative, base, 0, width, flags) != Layout(value, negative, base, width, flags)
  {
    if Natural(value, negative, base, flags) > BUFFER_SIZE {
      if base != 2 {
        NumbersFit(value, negative, base, 0, flags);
      }
      if flags.left {
        TooLongOnTheLeft(value, negative, base, width, flags);
      } else {
        TooLongOnTheRight(value, negative, base, width, flags);
      }
    }
  }

  function DigitValue(c: char): nat {
    if '0' <= c <= '9' then (c - '0') as nat
    else if 'a' <= c <= 'f' then (c - 'a') as nat + 10
    else if 'A' <= c <= 'F' then (c - 'A') as nat + 10
    else 0
  }

  /** The value of a numeral, most significant digit first. */
  function Parse(s: string, base: nat): nat
    requires IsBase(base)
  {
    if s == "" then 0 else Times(base, Parse(s[..|s| - 1], base)) + DigitValue(s[|s| - 1])
  }

  /** The digits of a number read back as the number. */
  lemma {:induction false} NumeralReadsBack(value: nat, base: nat, flags: Flags)
    requires IsBase(base)
    ensures Parse(Numeral(value, base, flags), base) == value
  {
    if value == 0 {
      assert Parse("", base) == 0;
    } else {
      DigitsReadBack(value, base, flags.uppercase);
    }
  }

  lemma {:induction false} DigitsReadBack(value: nat, base: nat, upper: bool)
    requires IsBase(base)
    ensures Parse(Reverse(Digits(value, base, upper)), base) == value
  {
    if value != 0 {
      DigitsReadBack(High(value, base), base, upper);
      var s := Reverse(Digits(value, base, upper));
      assert s[..|s| - 1] == Reverse(Digits(High(value, base), base, upper));
      assert s[|s| - 1] == DigitChar(Low(value, base), upper);
    }
  }
}
