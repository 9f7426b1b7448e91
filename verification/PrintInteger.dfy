/**
 The integer conversion of src/kernel/printfDriver/printf.c: digits and prefix are built in reverse in a buffer of
 32 characters and then put out backwards with padding.
 */
module PrintInteger {
  import opened Machine
  import opened Gadget

  const BUFFER_SIZE: nat := 32

  /** The length flags. */
  datatype Size = Char | Short | Int | Long | LongLong

  datatype Flags = Flags(zeropad: bool, left: bool, plus: bool, space: bool, hash: bool, uppercase: bool, size: Size,
                         precision: bool, pointer: bool, signed: bool)

  const NO_FLAGS: Flags := Flags(false, false, false, false, false, false, Int, false, false, false)

  /** `n` times the character `c`. */
  function Repeat(c: char, n: int): (s: string)
    ensures |s| == if n < 0 then 0 else n
    ensures forall k :: 0 <= k < |s| ==> s[k] == c
  {
    if n <= 0 then "" else Repeat(c, n - 1) + [c]
  }

  function Reverse(s: string): (r: string)
    ensures |r| == |s|
  {
    if s == "" then "" else Reverse(s[1..]) + [s[0]]
  }

  function DigitChar(d: nat, upper: bool): char
    requires d < 16
  {
    if d < 10 then '0' + d as char else (if upper then 'A' else 'a') + (d - 10) as char
  }

  predicate IsBase(base: nat) {
    base == 2 || base == 8 || base == 10 || base == 16
  }

  /** `value % base`, base by base. */
  function Low(value: nat, base: nat): (d: nat)
    requires IsBase(base)
    ensures d < base
  {
    if base == 2 then value % 2 else if base == 8 then value % 8 else if base == 10 then value % 10 else value % 16
  }

  /** `value / base`, base by base. */
  function High(value: nat, base: nat): (h: nat)
    requires IsBase(base)
    ensures value != 0 ==> h < value
  {
    if base == 2 then value / 2 else if base == 8 then value / 8 else if base == 10 then value / 10 else value / 16
  }

  /** The digits of a value, lowest first; none for 0. */
  function Digits(value: nat, base: nat, upper: bool): string
    requires IsBase(base)
  {
    if value == 0 then "" else [DigitChar(Low(value, base), upper)] + Digits(High(value, base), base, upper)
  }

  /** What `out_rev_` puts for the reversed text `buf`. */
  function OutRev(buf: string, width: nat, flags: Flags): string {
    Lead(|buf|, width, flags) + Reverse(buf) + Trail(|buf|, width, flags)
  }

  /** The spaces before a text of `len` characters, and those behind it. */
  function Lead(len: nat, width: nat, flags: Flags): string {
    if !flags.left && !flags.zeropad then Repeat(' ', width - len) else ""
  }

  function Trail(len: nat, width: nat, flags: Flags): string {
    if flags.left then Repeat(' ', width - len) else ""
  }

  lemma {:induction false} ReverseConcat(s: string, t: string)
    ensures Reverse(s + t) == Reverse(t) + Reverse(s)
  {
    if s == "" {
      assert s + t == t;
    } else {
      assert (s + t)[1..] == s[1..] + t;
      ReverseConcat(s[1..], t);
    }
  }

  /** The loops that put spaces: one for each step from `from` up to `to`. */
  method PadUpTo(output: OutputGadget, from: nat, to: nat)
    requires output.Valid() && |output.emitted| + |Repeat(' ', to - from)| < TWO_TO_THE_32
    modifies output`pos, output`stream, output`emitted, output.buffer
    ensures output.Valid() && output.emitted == old(output.emitted) + Repeat(' ', to - from)
  {
    var i := from;
    while i < to
      invariant from <= i && (i <= to || i == from)
      invariant output.Valid() && output.emitted == old(output.emitted) + Repeat(' ', i - from)
    {
      output.PutChar(' ');
      i := i + 1;
    }
  }

  /** The loop that puts the buffer backwards. */
  lemma ReverseNext(text: string, k: nat)
    requires k < |text|
    ensures Reverse(text[k..]) == Reverse(text[k + 1..]) + [text[k]]
  {
    assert text[k..][1..] == text[k + 1..];
  }

  lemma AddedBehind(done: string, a: string, c: char)
    ensures (done + a) + [c] == done + (a + [c])
  {
  }

  method PutBackwards(output: OutputGadget, buf: array<char>, len: nat)
    requires output.Valid() && len <= buf.Length && buf != output.buffer && |output.emitted| + len < TWO_TO_THE_32
    modifies output`pos, output`stream, output`emitted, output.buffer
    ensures output.Valid() && output.emitted == old(output.emitted) + Reverse(buf[..len])
  {
    ghost var text, done := buf[..len], output.emitted;
    var k := len;
    while k > 0
      invariant 0 <= k <= len && buf[..len] == text
      invariant output.Valid() && output.emitted == done + Reverse(text[k..])
    {
      k := k - 1;
      output.PutChar(buf[k]);
      ReverseNext(text, k);
      AddedBehind(done, Reverse(text[k + 1..]), text[k]);
    }
    assert text[0..] == text;
  }

  method PadFront(output: OutputGadget, len: nat, width: nat, flags: Flags)
    requires output.Valid() && |output.emitted| + |Lead(len, width, flags)| < TWO_TO_THE_32
    modifies output`pos, output`stream, output`emitted, output.buffer
    ensures output.Valid() && output.emitted == old(output.emitted) + Lead(len, width, flags)
  {
    if !flags.left && !flags.zeropad {
      PadUpTo(output, len, width);
    }
  }

  lemma Joined(done: string, a: string, b: string, c: string)
    ensures ((done + a) + b) + c == done + (a + b + c)
  {
  }

  /** `out_rev_`: the first `len` characters of `buf`, backwards, padded to `width` with spaces. */
  method PutReversed(output: OutputGadget, buf: array<char>, len: nat, width: nat, flags: Flags)
    requires output.Valid() && len <= buf.Length && buf != output.buffer
    requires |output.emitted| + |OutRev(buf[..len], width, flags)| < TWO_TO_THE_32
    modifies output`pos, output`stream, output`emitted, output.buffer
    ensures output.Valid() && output.emitted == old(output.emitted) + OutRev(buf[..len], width, flags)
  {
    ghost var text := buf[..len];
    Joined(output.emitted, Lead(len, width, flags), Reverse(text), Trail(len, width, flags));
    var startPos := output.pos;
    PadFront(output, len, width, flags);
    assert buf[..len] == text;
    PutBackwards(output, buf, len);
    if flags.left {
      PadUpTo(output, output.pos - startPos, width);
    }
  }

  /** A store into the buffer, which is skipped when the buffer is full. */
  function Stored(buf: string, c: char): (r: string)
    ensures |buf| <= BUFFER_SIZE ==> |r| <= BUFFER_SIZE
  {
    if |buf| < BUFFER_SIZE then buf + [c] else buf
  }

  /** Zeros up to a length, as far as there is room. */
  function ZerosTo(buf: string, length: nat): (r: string)
    ensures |buf| <= BUFFER_SIZE ==> |r| <= BUFFER_SIZE
    ensures buf <= r
  {
    buf + Repeat('0', (if length < BUFFER_SIZE then length else BUFFER_SIZE) - |buf|)
  }

  /** The width left for digits once a sign has its place. */
  function DigitWidth(width: nat, negative: bool, flags: Flags): (w: nat)
    ensures w <= width
  {
    if !flags.left && width != 0 && flags.zeropad && (negative || flags.plus || flags.space) then width - 1 else width
  }

  function Padded(digits: string, precision: nat, width: nat, flags: Flags): (r: string)
    ensures |digits| <= BUFFER_SIZE ==> |r| <= BUFFER_SIZE
    ensures digits <= r
  {
    ZerosTo(if !flags.left && flags.zeropad then ZerosTo(digits, width) else digits, precision)
  }

  /** How much of the padding is taken back to make room for a prefix. */
  function TakenBack(unpadded: nat, len: nat, base: nat, precision: nat, width: nat, flags: Flags): (n: nat)
    requires unpadded <= len
    ensures n <= len - unpadded
  {
    if !flags.precision && len != 0 && (len == precision || len == width) && unpadded < len
    then if (base == 16 || base == 2) && unpadded < len - 1 then 2 else 1
    else 0
  }

  function Prefixed(buf: string, unpadded: nat, base: nat, precision: nat, width: nat, flags: Flags): (r: string)
    requires unpadded <= |buf|
    ensures |buf| <= BUFFER_SIZE ==> |r| <= BUFFER_SIZE
  {
    var kept := buf[..|buf| - TakenBack(unpadded, |buf|, base, precision, width, flags)];
    Stored(if base == 16 then Stored(kept, if flags.uppercase then 'X' else 'x')
           else if base == 2 then Stored(kept, 'b')
           else kept, '0')
  }

  /** The alternative form, for which the zeros of an octal number are enough. */
  function Hashed(buf: string, unpadded: nat, base: nat, precision: nat, width: nat, flags: Flags): (r: string)
    requires unpadded <= |buf|
    ensures |buf| <= BUFFER_SIZE ==> |r| <= BUFFER_SIZE
  {
    if (flags.hash && !(base == 8 && |buf| > unpadded)) || flags.pointer
    then Prefixed(buf, unpadded, base, precision, width, flags)
    else buf
  }

  function Signed(buf: string, negative: bool, flags: Flags): (r: string)
    ensures |buf| <= BUFFER_SIZE ==> |r| <= BUFFER_SIZE
  {
    if negative then Stored(buf, '-')
    else if flags.plus then Stored(buf, '+')
    else if flags.space then Stored(buf, ' ')
    else buf
  }

  /** The reversed text that `print_integer_finalization` makes of the reversed digits. */
  function Finalized(digits: string, negative: bool, base: nat, precision: nat, width: nat, flags: Flags): (r: string)
    ensures |digits| <= BUFFER_SIZE ==> |r| <= BUFFER_SIZE
  {
    var w := DigitWidth(width, negative, flags);
    Signed(Hashed(Padded(digits, precision, w, flags), |digits|, base, precision, w, flags), negative, flags)
  }

  /** The reversed digits that `print_integer` starts from, and the flags it goes on with. */
  function StartDigits(value: nat, base: nat, flags: Flags): (r: string)
    requires IsBase(base)
    ensures |r| <= BUFFER_SIZE
  {
    if value == 0 then (if flags.precision then "" else "0")
    else Prefix(Digits(value, base, flags.uppercase), BUFFER_SIZE)
  }

  function StartFlags(value: nat, base: nat, flags: Flags): Flags {
    if value == 0 && (!flags.precision || base == 16) then flags.(hash := false) else flags
  }

  /** What `print_integer` puts. */
  function Printed(value: nat, negative: bool, base: nat, precision: nat, width: nat, flags: Flags): string
    requires IsBase(base)
  {
    var fl := StartFlags(value, base, flags);
    OutRev(Finalized(StartDigits(value, base, flags), negative, base, precision, width, fl),
           DigitWidth(width, negative, fl), fl)
  }

  method Store(buf: array<char>, len: nat, c: char) returns (next: nat)
    requires buf.Length == BUFFER_SIZE && len <= BUFFER_SIZE
    modifies buf
    ensures next <= BUFFER_SIZE && buf[..next] == Stored(old(buf[..len]), c)
  {
    next := len;
    if len < BUFFER_SIZE {
      buf[len] := c;
      next := len + 1;
    }
  }

  method StoreZeros(buf: array<char>, len: nat, length: nat) returns (next: nat)
    requires buf.Length == BUFFER_SIZE && len <= BUFFER_SIZE
    modifies buf
    ensures next <= BUFFER_SIZE && buf[..next] == ZerosTo(old(buf[..len]), length)
  {
    ghost var text := buf[..len];
    next := len;
    while next < length && next < BUFFER_SIZE
      invariant len <= next <= BUFFER_SIZE && (next <= length || next == len)
      invariant buf[..next] == text + Repeat('0', next - len)
    {
      buf[next] := '0';
      next := next + 1;
    }
  }

  method TakeBack(len: nat, unpadded: nat, base: nat, precision: nat, width: nat, flags: Flags) returns (next: nat)
    requires unpadded <= len
    ensures next == len - TakenBack(unpadded, len, base, precision, width, flags)
  {
    next := len;
    if !flags.precision && next != 0 && (next == precision || next == width) {
      if unpadded < next {
        next := next - 1;
      }
      if next != 0 && (base == 16 || base == 2) && unpadded < next {
        next := next - 1;
      }
    }
  }

  /** The alternative prefix, in place of padding where there is some. */
  method StorePrefix(buf: array<char>, len: nat, unpadded: nat, base: nat, precision: nat, width: nat, flags: Flags)
    returns (next: nat)
    requires buf.Length == BUFFER_SIZE && unpadded <= len <= BUFFER_SIZE
    modifies buf
    ensures next <= BUFFER_SIZE
    ensures buf[..next] == Prefixed(old(buf[..len]), unpadded, base, precision, width, flags)
  {
    next := TakeBack(len, unpadded, base, precision, width, flags);
    assert buf[..next] == buf[..len][..next];
    if base == 16 && !flags.uppercase {
      next := Store(buf, next, 'x');
    } else if base == 16 && flags.uppercase {
      next := Store(buf, next, 'X');
    } else if base == 2 {
      next := Store(buf, next, 'b');
    }
    next := Store(buf, next, '0');
  }

  method StoreSign(buf: array<char>, len: nat, negative: bool, flags: Flags) returns (next: nat)
    requires buf.Length == BUFFER_SIZE && len <= BUFFER_SIZE
    modifies buf
    ensures next <= BUFFER_SIZE && buf[..next] == Signed(old(buf[..len]), negative, flags)
  {
    next := len;
    if negative {
      next := Store(buf, len, '-');
    } else if flags.plus {
      next := Store(buf, len, '+');
    } else if flags.space {
      next := Store(buf, len, ' ');
    }
  }

  /** `print_integer_finalization` up to its last call: padding, prefix and sign. */
  method Finalize(buf: array<char>, unpadded: nat, negative: bool, base: nat, precision: nat, width: nat, flags: Flags)
    returns (len: nat, w: nat)
    requires buf.Length == BUFFER_SIZE && unpadded <= BUFFER_SIZE
    modifies buf
    ensures len <= BUFFER_SIZE && w == DigitWidth(width, negative, flags)
    ensures buf[..len] == Finalized(old(buf[..unpadded]), negative, base, precision, width, flags)
  {
    len, w := unpadded, width;
    if !flags.left {
      if w != 0 && flags.zeropad && (negative || flags.plus || flags.space) {
        w := w - 1;
      }
      if flags.zeropad {
        len := StoreZeros(buf, len, w);
      }
    }
    len := StoreZeros(buf, len, precision);
    var hash := flags.hash && !(base == 8 && len > unpadded);
    if hash || flags.pointer {
      len := StorePrefix(buf, len, unpadded, base, precision, w, flags);
    }
    len := StoreSign(buf, len, negative, flags);
  }

  lemma DigitsStep(done: string, left: nat, base: nat, upper: bool)
    requires IsBase(base) && left != 0
    ensures done + Digits(left, base, upper)
         == done + [DigitChar(Low(left, base), upper)] + Digits(High(left, base), base, upper)
  {
  }

  /** The digit loop: lowest first, until none are left or the buffer is full. */
  method StoreDigits(buf: array<char>, value: nat, base: nat, upper: bool) returns (len: nat)
    requires buf.Length == BUFFER_SIZE && IsBase(base) && value != 0
    modifies buf
    ensures len <= BUFFER_SIZE && buf[..len] == Prefix(Digits(value, base, upper), BUFFER_SIZE)
  {
    var left: nat := value;
    len := 0;
    while left != 0 && len < BUFFER_SIZE
      invariant len <= BUFFER_SIZE && Digits(value, base, upper) == buf[..len] + Digits(left, base, upper)
      decreases left
    {
      DigitsStep(buf[..len], left, base, upper);
      len := Store(buf, len, DigitChar(Low(left, base), upper));
      left := High(left, base);
    }
  }

  /** The digits that `print_integer` starts from, in its buffer. */
  method Start(value: nat, base: nat, flags: Flags) returns (buf: array<char>, len: nat, fl: Flags)
    requires IsBase(base)
    ensures fresh(buf) && buf.Length == BUFFER_SIZE && len <= BUFFER_SIZE
    ensures buf[..len] == StartDigits(value, base, flags) && fl == StartFlags(value, base, flags)
  {
    buf, len, fl := new char[BUFFER_SIZE], 0, flags;
    if value == 0 {
      if !flags.precision {
        buf[0] := '0';
        len := 1;
        fl := fl.(hash := false);
      } else if base == 16 {
        fl := fl.(hash := false);
      }
    } else {
      len := StoreDigits(buf, value, base, flags.uppercase);
    }
  }

  /** `print_integer`. */
  method PrintUnsigned(output: OutputGadget, value: nat, negative: bool, base: nat, precision: nat, width: nat,
                       flags: Flags)
    requires output.Valid() && IsBase(base)
    requires |output.emitted| + |Printed(value, negative, base, precision, width, flags)| < TWO_TO_THE_32
    modifies output`pos, output`stream, output`emitted, output.buffer
    ensures output.Valid()
    ensures output.emitted == old(output.emitted) + Printed(value, negative, base, precision, width, flags)
  {
    var buf, len, fl := Start(value, base, flags);
    var w;
    len, w := Finalize(buf, len, negative, base, precision, width, fl);
    PutReversed(output, buf, len, w, fl);
  }
}
