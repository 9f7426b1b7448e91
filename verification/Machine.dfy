/** Machine integers of the modelled 32-bit target, as ranges of the unbounded integers, and words in memory. */
module Machine {

  type Byte = b: nat | b < 0x100

  /** `uint32_t`, and `size_t` on this target. */
  type Word = w: nat | w < 0x1_0000_0000

  const TWO_TO_THE_32: nat := 0x1_0000_0000

  const TWO_TO_THE_64: nat := 0x1_0000_0000_0000_0000

  /** Conversion of any integer to an unsigned 32-bit value: reduction modulo 2^32. */
  function ToWord(n: int): Word {
    n % TWO_TO_THE_32
  }

  /** Conversion of an unsigned 32-bit value to `int`: two's complement. */
  function ToInt(w: Word): int {
    if w < 0x8000_0000 then w else w - TWO_TO_THE_32
  }

  /** The word at address `a`. */
  function ReadWord(m: seq<Byte>, a: nat): (w: Word)
    requires a + 4 <= |m|
  {
    m[a] as int + 0x100 * m[a + 1] as int + 0x1_0000 * m[a + 2] as int + 0x100_0000 * m[a + 3] as int
  }

  /** The bytes of a word, lowest first. */
  function BytesOf(w: Word): (Byte, Byte, Byte, Byte) {
    (w % 0x100, w / 0x100 % 0x100, w / 0x100 / 0x100 % 0x100, w / 0x100 / 0x100 / 0x100)
  }

  lemma WordBytes(w: Word)
    ensures var (b0, b1, b2, b3) := BytesOf(w);
      w == b0 as int + 0x100 * b1 as int + 0x1_0000 * b2 as int + 0x100_0000 * b3 as int
  {
    var w1: int := w / 0x100;
    var w2 := w1 / 0x100;
    assert w == 0x100 * w1 + w % 0x100 && w1 == 0x100 * w2 + w1 % 0x100 && w2 == 0x100 * (w2 / 0x100) + w2 % 0x100;
  }

  datatype Option<+T> = None | Some(value: T)
}
