/**
 Which character and which color a cell shows on the screen, told by its bits: the text in the lower half, the
 attributes in the upper half, A_ALTCHARSET in bit 16.
 */
module Glyphs {
  import opened Machine
  import opened Cells
  import opened CursesWindow
  import opened Packets
  import opened Update
  import opened Runs
  import opened Border

  /** The glyph of a cell of 7-bit text in the alternate character set is the one of the table; any other is its own. */
  predicate IsGlyphOf(g: Glyph, a: Adapter, t: Cell, attrs: Cell) {
    && g.text == And(if And(attrs, 0x0001_0000) != 0 && And(t, 0xFF80) == 0 then a.acsMap(t) else t, 0xFF)
    && g.attr == a.palette(And(attrs, 0xFFFE_0000))
  }

  lemma SevenBits(t: Cell)
    requires IsText(t) && And(t, 0xFF80) == 0
    ensures And(t, 0x7F) == t
  {
  }

  lemma SplitCell(t: Cell, attrs: Cell)
    requires IsText(t) && IsAttributes(attrs)
    ensures And(Or(t, attrs), 0x0001_0000) == And(attrs, 0x0001_0000) && And(Or(t, attrs), 0xFF80) == And(t, 0xFF80)
    ensures And(Or(t, attrs), 0xFF) == And(t, 0xFF) && And(Or(t, attrs), 0xFFFE_0000) == And(attrs, 0xFFFE_0000)
    ensures And(t, 0xFF80) == 0 ==> And(Or(t, attrs), 0x7F) == t
  {
    HighMask(t, attrs, 0x0001_0000);
    HighMask(t, attrs, 0xFFFE_0000);
    LowMask(t, attrs, 0xFF80);
    LowMask(t, attrs, 0xFF);
    LowMask(t, attrs, 0x7F);
    if And(t, 0xFF80) == 0 {
      SevenBits(t);
    }
  }

  /** What a cell of text `t` with attributes `attrs` shows. */
  lemma ShowsGlyph(a: Adapter, t: Cell, attrs: Cell)
    requires IsText(t) && IsAttributes(attrs)
    ensures IsGlyphOf(Shows(a, Or(t, attrs)), a, t, attrs)
  {
    SplitCell(t, attrs);
  }

  /** In other words: below 128 the character itself or its line-drawing character, from there on the low byte. */
  lemma GlyphText(a: Adapter, t: Cell, attrs: Cell)
    requires IsText(t) && IsAttributes(attrs)
    ensures var g := Shows(a, Or(t, attrs));
      && (t < 0x80 && And(attrs, 0x0001_0000) != 0 ==> g.text == And(a.acsMap(t), 0xFF))
      && (t < 0x80 && And(attrs, 0x0001_0000) == 0 ==> g.text == t)
      && (t >= 0x80 ==> g.text == And(t, 0xFF))
  {
    ShowsGlyph(a, t, attrs);
    SmallText(t);
  }

  lemma SmallText(t: Cell)
    requires IsText(t)
    ensures And(t, 0xFF80) == 0 <==> t < 0x80
    ensures t < 0x80 ==> And(t, 0xFF) == t
  {
  }

  /** The color byte depends on the attributes alone, and not on the character set. */
  lemma GlyphColor(a: Adapter, t: Cell, u: Cell, attrs: Cell)
    requires IsText(t) && IsText(u) && IsAttributes(attrs)
    ensures Shows(a, Or(t, attrs)).attr == Shows(a, Or(u, Or(attrs, 0x0001_0000))).attr
         == a.palette(And(attrs, 0xFFFE_0000))
  {
    AltIsAttribute(attrs);
    ShowsGlyph(a, t, attrs);
    ShowsGlyph(a, u, Or(attrs, 0x0001_0000));
  }

  lemma AltIsAttribute(attrs: Cell)
    requires IsAttributes(attrs)
    ensures IsAttributes(Or(attrs, 0x0001_0000))
    ensures And(Or(attrs, 0x0001_0000), 0xFFFE_0000) == And(attrs, 0xFFFE_0000)
  {
  }

  /** Every cell is its text and its attributes. */
  lemma CellIsBoth(ch: Cell)
    ensures IsText(And(ch, 0xFFFF)) && IsAttributes(And(ch, 0xFFFF_0000))
    ensures Or(And(ch, 0xFFFF), And(ch, 0xFFFF_0000)) == ch
  {
  }

  /**
   After `doupdate` every place of the screen shows the glyph of the image's cell there: its line-drawing character, its
   letter, or its low byte, in the color of its attributes.
   */
  lemma UpdatedGlyphs(screen: Screen, r: int, c: int)
    requires screen.Consistent() && screen.UpToDate() && 0 <= r < screen.curscr.maxy && 0 <= c < screen.curscr.maxx
    ensures RowOk(screen.curscr.View(), r) && r < |screen.video.rows| && c < |screen.video.rows[r]|
    ensures var ch := screen.curscr.y[r].cells[c];
      IsGlyphOf(screen.video.rows[r][c], screen.video.adapter, And(ch, 0xFFFF), And(ch, 0xFFFF_0000))
  {
    assert RowOk(screen.curscr.View(), r) && screen.LineDone(r);
    var ch := screen.curscr.y[r].cells[c];
    CellIsBoth(ch);
    ShowsGlyph(screen.video.adapter, And(ch, 0xFFFF), And(ch, 0xFFFF_0000));
  }

  /** The same of what a desk shows after any run. */
  lemma DisplayedGlyph(d: Desk, r: int, c: int, ch: Cell)
    requires Displays(d, r, c, ch)
    ensures IsGlyphOf(d.rows[r][c], d.adapter, And(ch, 0xFFFF), And(ch, 0xFFFF_0000))
  {
    CellIsBoth(ch);
    ShowsGlyph(d.adapter, And(ch, 0xFFFF), And(ch, 0xFFFF_0000));
  }

  lemma LineDrawingShows(a: Adapter, ch: Cell, code: Cell)
    requires IsLineDrawing(ch, code) && code < 0x80
    ensures Shows(a, ch).text == And(a.acsMap(code), 0xFF)
  {
    CellIsBoth(ch);
    MaskOfMask(ch, 0xFFFF_0000, 0x0001_0000);
    GlyphText(a, And(ch, 0xFFFF), And(ch, 0xFFFF_0000));
  }

  /** A line that `whline` draws with its own character is shown by the line-drawing character of the table, not as `q`. */
  lemma LineIsDrawn(w: Win, n: int, c: int, a: Adapter)
    requires Ok(w) && n >= 1 && And(w.attrs, 0xFFFF) == 0 && w.curx <= c < w.curx + n && c < w.maxx
    ensures Shows(a, At(HLined(w, 0, n), w.cury, c)).text == And(a.acsMap(0x71), 0xFF)
  {
    HLinedIs(w, 0, n, w.cury, c);
    DefaultIs(w, 0x0001_0071, 0x71);
    LineDrawingShows(a, At(HLined(w, 0, n), w.cury, c), 0x71);
  }
}
