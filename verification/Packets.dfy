/** Writing changed cells to the screen in packets of equal attributes, of src/kernel/curses/BESOS/pdcdisp.c. */
module Packets {
  import opened Machine
  import opened Cells
  import opened Refresh

  const A_GLYPH: Cell := 0xFF
  const A_WIDE: Cell := 0xFF80
  const A_ASCII: Cell := 0x7F

  /** The widest line that a packet has room for. */
  const MAX_LINE: nat := 256

  /** What the screen shows at a place: a character of the font and a color byte. */
  datatype Glyph = Glyph(text: Cell, attr: Byte)

  /** The table of line-drawing characters, and the color byte that stands for attributes. */
  datatype Adapter = Adapter(acsMap: Cell -> Cell, palette: Cell -> Byte)

  /** The attributes that the color byte depends on. */
  function PacketAttributes(ch: Cell): Cell {
    And(ch, A_ATTRIBUTES ^ A_ALTCHARSET)
  }

  function FontCharacter(a: Adapter, ch: Cell): Cell {
    And(if And(ch, A_ALTCHARSET) != 0 && And(ch, A_WIDE) == 0 then a.acsMap(And(ch, A_ASCII)) else ch, A_GLYPH)
  }

  /** How a cell looks on the screen. */
  function Shows(a: Adapter, ch: Cell): Glyph {
    Glyph(FontCharacter(a, ch), a.palette(PacketAttributes(ch)))
  }

  function AllShow(a: Adapter, cells: seq<Cell>): (r: seq<Glyph>)
    ensures |r| == |cells|
    ensures forall c :: 0 <= c < |r| ==> r[c] == Shows(a, cells[c])
  {
    seq(|cells|, c requires 0 <= c < |cells| => Shows(a, cells[c]))
  }

  /** A packet: cells of one line from column `x` on that have the same attributes. */
  datatype Packet = Packet(attr: Cell, line: nat, x: int, len: int)

  /** The packet holds only cells of its attributes. `src` lies at column `x`. */
  ghost predicate PacketOk(p: Packet, line: nat, x: int, src: seq<Cell>) {
    && p.line == line && x <= p.x && p.len > 0 && p.x + p.len <= x + |src|
    && forall c :: SameAttributes(p, x, src, c)
  }

  ghost predicate SameAttributes(p: Packet, x: int, src: seq<Cell>, c: int)
    requires x <= p.x && p.x + p.len <= x + |src|
  {
    p.x <= c < p.x + p.len ==> PacketAttributes(src[c - x]) == p.attr
  }

  /** A packet ends where the next one begins, and the next one has other attributes. */
  ghost predicate Adjoins(ps: seq<Packet>, k: int) {
    0 <= k < |ps| - 1 ==> ps[k].x + ps[k].len == ps[k + 1].x && ps[k].attr != ps[k + 1].attr
  }

  /** The packets cover columns `x` to `end`, each once, and no two of them could be one. */
  ghost predicate Covers(ps: seq<Packet>, line: nat, x: int, end: int, src: seq<Cell>) {
    && (forall k :: 0 <= k < |ps| ==> PacketOk(ps[k], line, x, src))
    && (forall k :: Adjoins(ps, k))
    && (if ps == [] then end == x else ps[0].x == x && ps[|ps| - 1].x + ps[|ps| - 1].len == end)
  }

  lemma OneMorePacket(ps: seq<Packet>, line: nat, x: int, end: int, src: seq<Cell>, p: Packet)
    requires Covers(ps, line, x, end, src) && PacketOk(p, line, x, src) && p.x == end
    requires ps == [] || ps[|ps| - 1].attr != p.attr
    ensures Covers(ps + [p], line, x, end + p.len, src)
  {
    var qs := ps + [p];
    forall k ensures Adjoins(qs, k) {
      assert Adjoins(ps, k);
    }
  }

  /** A part of a line and the part after it make one longer part. */
  lemma TwoParts(a: Adapter, row: seq<Glyph>, x: int, src: seq<Cell>, mid: int, end: int)
    requires 0 <= mid <= end <= |src| && 0 <= x && x + |src| <= |row|
    ensures Spliced(Spliced(row, x, AllShow(a, src[..mid])), x + mid, AllShow(a, src[mid..end]))
         == Spliced(row, x, AllShow(a, src[..end]))
  {
  }

  /** The screen memory, one row of glyphs for each line. */
  class Video {
    const adapter: Adapter
    var rows: seq<seq<Glyph>>
    /** All packets that have been written. */
    ghost var packets: seq<Packet>

    constructor (adapter: Adapter, rows: seq<seq<Glyph>>)
      ensures this.adapter == adapter && this.rows == rows && packets == []
    {
      this.adapter, this.rows, packets := adapter, rows, [];
    }

    /** `_new_packet`: `src` is the part of the line that the packet takes. */
    method NewPacket(attr: Cell, line: nat, x: int, src: seq<Cell>)
      requires line < |rows| && 0 <= x && x + |src| <= |rows[line]| && |src| <= MAX_LINE
      requires forall c :: 0 <= c < |src| ==> PacketAttributes(src[c]) == attr
      modifies this
      ensures rows == old(rows)[line := Spliced(old(rows[line]), x, AllShow(adapter, src))]
      ensures packets == old(packets) + [Packet(attr, line, x, |src|)]
    {
      var mapped := adapter.palette(attr);
      var temp: seq<Glyph> := [];
      var j := 0;
      while j < |src|
        invariant 0 <= j <= |src| && temp == AllShow(adapter, src[..j])
      {
        var ch := src[j];
        if And(ch, A_ALTCHARSET) != 0 && And(ch, A_WIDE) == 0 {
          ch := adapter.acsMap(And(ch, A_ASCII));
        }
        temp := temp + [Glyph(And(ch, A_GLYPH), mapped)];
        j := j + 1;
      }
      assert src[..j] == src;
      rows := rows[line := Spliced(rows[line], x, temp)];
      packets := packets + [Packet(attr, line, x, |src|)];
    }

    /** The line is written up to `mid` of `src`, in the packets `done`. */
    ghost predicate WrittenTo(was: seq<seq<Glyph>>, log: seq<Packet>, line: nat, x: int, src: seq<Cell>, mid: int,
                              done: seq<Packet>)
      requires line < |was| && 0 <= x && x + |src| <= |was[line]| && 0 <= mid <= |src|
      reads this
    {
      && rows == was[line := Spliced(was[line], x, AllShow(adapter, src[..mid]))]
      && packets == log + done && Covers(done, line, x, x + mid, src)
    }

    /** The next packet of a line. */
    method WritePart(attr: Cell, line: nat, x: int, src: seq<Cell>, mid: int, end: int,
                     ghost was: seq<seq<Glyph>>, ghost log: seq<Packet>, ghost done: seq<Packet>)
      requires line < |was| && 0 <= x && x + |src| <= |was[line]| && |src| <= MAX_LINE && 0 <= mid < end <= |src|
      requires WrittenTo(was, log, line, x, src, mid, done)
      requires forall c :: mid <= c < end ==> PacketAttributes(src[c]) == attr
      requires done == [] || done[|done| - 1].attr != attr
      modifies this
      ensures WrittenTo(was, log, line, x, src, end, done + [Packet(attr, line, x + mid, end - mid)])
    {
      TwoParts(adapter, was[line], x, src, mid, end);
      NewPacket(attr, line, x + mid, src[mid..end]);
      OneMorePacket(done, line, x, x + mid, src, Packet(attr, line, x + mid, end - mid));
    }

    /** `PDC_transform_line`: the line is written in packets that are as long as equal attributes allow. */
    method TransformLine(line: nat, x0: int, src: seq<Cell>)
      requires line < |rows| && 0 <= x0 && x0 + |src| <= |rows[line]| && 0 < |src| <= MAX_LINE
      modifies this
      ensures rows == old(rows)[line := Spliced(old(rows[line]), x0, AllShow(adapter, src))]
      ensures old(packets) <= packets && Covers(packets[|old(packets)|..], line, x0, x0 + |src|, src)
    {
      ghost var was, log, done := rows, packets, [];
      var oldAttr := PacketAttributes(src[0]);
      var srcp, x, i, j := 0, x0, 1, 1;
      assert Spliced(was[line], x0, AllShow(adapter, src[..0])) == was[line];
      while j < |src|
        invariant 1 <= i <= j <= |src| && j == srcp + i && x == x0 + srcp && srcp >= 0
        invariant forall c :: srcp <= c < j ==> PacketAttributes(src[c]) == oldAttr
        invariant WrittenTo(was, log, line, x0, src, srcp, done)
        invariant done == [] || done[|done| - 1].attr != oldAttr
      {
        var attr := PacketAttributes(src[srcp + i]);
        if attr != oldAttr {
          WritePart(oldAttr, line, x0, src, srcp, srcp + i, was, log, done);
          done := done + [Packet(oldAttr, line, x, i)];
          oldAttr := attr;
          srcp := srcp + i;
          x := x + i;
          i := 0;
        }
        i, j := i + 1, j + 1;
      }
      WritePart(oldAttr, line, x0, src, srcp, srcp + i, was, log, done);
      done := done + [Packet(oldAttr, line, x, i)];
      assert src[..srcp + i] == src && packets[|log|..] == done;
    }
  }
}
