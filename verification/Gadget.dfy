/**
 The output gadget of src/kernel/printfDriver/printf.c: every character is counted, and the first `max_chars`
 of them are stored in a buffer or handed to a file.
 */
module Gadget {
  import opened Machine

  class OutputGadget {
    const buffer: array<char>
    const maxChars: Word
    const toFile: bool
    var pos: Word
    /** What went to the file, when `toFile`. */
    var stream: string
    /** All characters ever put, stored or not, and what the buffer held at first. */
    ghost var emitted: string
    ghost const initial: string

    /** The file holds, or the buffer starts with, the characters that fit; the rest of the buffer is untouched. */
    ghost predicate Valid()
      reads this, buffer
    {
      && pos == |emitted|
      && |initial| == buffer.Length
      && (!toFile ==> maxChars <= buffer.Length)
      && stream == (if toFile then Prefix(emitted, maxChars) else "")
      && forall k :: Cell(k)
    }

    ghost predicate Cell(k: int)
      requires |initial| == buffer.Length
      reads this, buffer
    {
      0 <= k < buffer.Length ==>
        buffer[k] == if !toFile && k < |emitted| && k < maxChars then emitted[k] else initial[k]
    }

    /** A gadget at position 0 over a buffer, or over a file. */
    constructor (buffer: array<char>, maxChars: Word, toFile: bool)
      requires !toFile ==> maxChars <= buffer.Length
      ensures Valid() && emitted == [] && this.buffer == buffer && this.maxChars == maxChars && this.toFile == toFile
      ensures initial == buffer[..]
    {
      this.buffer, this.maxChars, this.toFile, pos, stream, emitted := buffer, maxChars, toFile, 0, [], [];
      initial := buffer[..];
    }

    /** `putchar_via_gadget`. */
    method PutChar(c: char)
      requires Valid() && |emitted| + 1 < TWO_TO_THE_32
      modifies this`pos, this`stream, this`emitted, buffer
      ensures Valid() && emitted == old(emitted) + [c]
    {
      var writePos := pos;
      pos := ToWord(pos + 1);
      emitted := emitted + [c];
      if writePos < maxChars {
        if toFile {
          stream := stream + [c];
        } else {
          buffer[writePos] := c;
        }
      }
      forall k ensures Cell(k) {
        assert old(Cell(k));
      }
    }
  }

  function Prefix(s: string, n: nat): (r: string)
    ensures |r| == if |s| < n then |s| else n
    ensures r <= s
  {
    if |s| <= n then s else s[..n]
  }

  /** What a buffer gadget holds: the characters that fit, and nothing written at or past `maxChars`. */
  lemma BufferHolds(g: OutputGadget)
    requires g.Valid() && !g.toFile
    ensures var n := |Prefix(g.emitted, g.maxChars)|;
      n <= g.buffer.Length && g.buffer[..n] == Prefix(g.emitted, g.maxChars) && g.buffer[n..] == g.initial[n..]
  {
    forall k | 0 <= k < g.buffer.Length
      ensures g.buffer[k] == if k < |g.emitted| && k < g.maxChars then g.emitted[k] else g.initial[k]
    {
      assert g.Cell(k);
    }
  }

  /**
   Two gadgets that were put the same characters have the same position, and the one with less room holds the first
   characters of what the other one holds.
   */
  lemma SmallerHoldsPrefix(small: OutputGadget, large: OutputGadget)
    requires small.Valid() && large.Valid() && !small.toFile && !large.toFile
    requires small.emitted == large.emitted && small.maxChars <= large.maxChars
    ensures small.pos == large.pos
    ensures var n := |Prefix(small.emitted, small.maxChars)|;
      n <= small.buffer.Length && n <= large.buffer.Length && small.buffer[..n] == large.buffer[..n]
  {
    BufferHolds(small);
    BufferHolds(large);
    var n, m := |Prefix(small.emitted, small.maxChars)|, |Prefix(large.emitted, large.maxChars)|;
    assert large.buffer[..n] == large.buffer[..m][..n];
  }
}
