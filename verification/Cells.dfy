/** Character cells of src/kernel/curses/curses.h: a text part and an attribute part. */
module Cells {

  /** `chtype`. */
  type Cell = bv32

  const A_CHARTEXT: Cell := 0x0000_FFFF
  const A_ATTRIBUTES: Cell := 0xFFFF_0000
  const A_COLOR: Cell := 0xFF00_0000
  /** The attributes that are not color. */
  const A_OTHERS: Cell := A_ATTRIBUTES ^ A_COLOR
  const A_ALTCHARSET: Cell := 0x0001_0000

  const SPACE: Cell := 0x20

  function And(a: Cell, b: Cell): Cell {
    a & b
  }

  function Or(a: Cell, b: Cell): Cell {
    a | b
  }

  /** The text of a cell. */
  function Text(ch: Cell): Cell {
    And(ch, A_CHARTEXT)
  }

  /** The attributes of a cell. */
  function Attributes(ch: Cell): Cell {
    And(ch, A_ATTRIBUTES)
  }

  /** Own attributes and those of the window, unless the own ones have a color. */
  function WithWindow(own: Cell, attrs: Cell): Cell {
    if And(own, A_COLOR) == 0 then Or(own, attrs) else own
  }

  /**
   The attributes that a character is written with: its own, those of the window unless it has a color, and those of
   the background, less the background's color if there is a color already.
   */
  function Combined(ch: Cell, attrs: Cell, bkgd: Cell): Cell {
    var attr := WithWindow(Attributes(ch), attrs);
    if And(attr, A_COLOR) == 0 then Or(attr, And(bkgd, A_ATTRIBUTES)) else Or(attr, And(bkgd, A_OTHERS))
  }

  lemma MaskOfOr(a: Cell, b: Cell, mask: Cell)
    ensures And(Or(a, b), mask) == Or(And(a, mask), And(b, mask))
  {
  }

  lemma MaskOfMask(a: Cell, mask: Cell, mask': Cell)
    ensures And(And(a, mask), mask') == And(a, And(mask, mask'))
  {
  }

  lemma OrNothing(a: Cell)
    ensures Or(a, 0) == a && Or(0, a) == a && And(a, 0) == 0
  {
  }

  lemma Masks()
    ensures And(A_ATTRIBUTES, A_COLOR) == A_COLOR && And(A_OTHERS, A_COLOR) == 0
    ensures And(A_ATTRIBUTES, A_OTHERS) == A_OTHERS && And(A_OTHERS, A_OTHERS) == A_OTHERS
    ensures And(A_ATTRIBUTES, A_CHARTEXT) == 0 && And(A_OTHERS, A_CHARTEXT) == 0
    ensures And(A_CHARTEXT, A_CHARTEXT) == A_CHARTEXT
  {
  }

  function Color(a: Cell): Cell {
    And(a, A_COLOR)
  }

  lemma ColorOfWithWindow(ch: Cell, attrs: Cell)
    ensures Color(WithWindow(Attributes(ch), attrs)) == if Color(ch) != 0 then Color(ch) else Color(attrs)
  {
    Masks();
    MaskOfMask(ch, A_ATTRIBUTES, A_COLOR);
    MaskOfOr(Attributes(ch), attrs, A_COLOR);
    OrNothing(Color(attrs));
  }

  /** A character has its own color; if it has none, that of the window; if that has none, the background's. */
  lemma ColorOfCombined(ch: Cell, attrs: Cell, bkgd: Cell)
    ensures Color(Combined(ch, attrs, bkgd)) ==
      if Color(ch) != 0 then Color(ch) else if Color(attrs) != 0 then Color(attrs) else Color(bkgd)
  {
    var attr := WithWindow(Attributes(ch), attrs);
    ColorOfWithWindow(ch, attrs);
    Masks();
    MaskOfMask(bkgd, A_ATTRIBUTES, A_COLOR);
    MaskOfMask(bkgd, A_OTHERS, A_COLOR);
    MaskOfOr(attr, And(bkgd, A_ATTRIBUTES), A_COLOR);
    MaskOfOr(attr, And(bkgd, A_OTHERS), A_COLOR);
    OrNothing(Color(attr));
    OrNothing(Color(bkgd));
    OrNothing(bkgd);
  }

  function Others(a: Cell): Cell {
    And(a, A_OTHERS)
  }

  /** The other attributes add up: the character's, the window's unless the character has a color, the background's. */
  lemma OthersOfCombined(ch: Cell, attrs: Cell, bkgd: Cell)
    ensures Others(Combined(ch, attrs, bkgd)) ==
      Or(if Color(ch) != 0 then Others(ch) else Or(Others(ch), Others(attrs)), Others(bkgd))
  {
    var attr := WithWindow(Attributes(ch), attrs);
    Masks();
    MaskOfMask(ch, A_ATTRIBUTES, A_COLOR);
    MaskOfMask(ch, A_ATTRIBUTES, A_OTHERS);
    MaskOfMask(bkgd, A_ATTRIBUTES, A_OTHERS);
    MaskOfMask(bkgd, A_OTHERS, A_OTHERS);
    MaskOfOr(Attributes(ch), attrs, A_OTHERS);
    MaskOfOr(attr, And(bkgd, A_ATTRIBUTES), A_OTHERS);
    MaskOfOr(attr, And(bkgd, A_OTHERS), A_OTHERS);
  }

  /** The same step by step, as `waddch` and `_attr_passthru` compute it. */
  method PassThrough(ch: Cell, attrs: Cell, bkgd: Cell) returns (attr: Cell)
    ensures attr == Combined(ch, attrs, bkgd)
  {
    attr := Attributes(ch);
    if And(attr, A_COLOR) == 0 {
      attr := Or(attr, attrs);
    }
    if And(attr, A_COLOR) == 0 {
      attr := Or(attr, And(bkgd, A_ATTRIBUTES));
    } else {
      attr := Or(attr, And(bkgd, A_OTHERS));
    }
  }

  /** What a character looks like in a window: background shows through a blank. */
  function Shown(ch: Cell, attrs: Cell, bkgd: Cell): Cell {
    Or(if Text(ch) == SPACE then Text(bkgd) else Text(ch), Combined(ch, attrs, bkgd))
  }

  lemma TextOfCombined(ch: Cell, attrs: Cell, bkgd: Cell)
    requires Text(attrs) == 0
    ensures Text(Combined(ch, attrs, bkgd)) == 0
  {
    var attr := WithWindow(Attributes(ch), attrs);
    Masks();
    OrNothing(0);
    OrNothing(ch);
    OrNothing(bkgd);
    MaskOfMask(ch, A_ATTRIBUTES, A_CHARTEXT);
    MaskOfMask(bkgd, A_ATTRIBUTES, A_CHARTEXT);
    MaskOfMask(bkgd, A_OTHERS, A_CHARTEXT);
    MaskOfOr(Attributes(ch), attrs, A_CHARTEXT);
    MaskOfOr(attr, And(bkgd, A_ATTRIBUTES), A_CHARTEXT);
    MaskOfOr(attr, And(bkgd, A_OTHERS), A_CHARTEXT);
  }

  /** The text shown is the character's, or the background's for a blank; window attributes have no text. */
  lemma TextOfShown(ch: Cell, attrs: Cell, bkgd: Cell)
    requires Text(attrs) == 0
    ensures Text(Shown(ch, attrs, bkgd)) == if Text(ch) == SPACE then Text(bkgd) else Text(ch)
  {
    var text := if Text(ch) == SPACE then bkgd else ch;
    Masks();
    TextOfCombined(ch, attrs, bkgd);
    MaskOfMask(text, A_CHARTEXT, A_CHARTEXT);
    MaskOfOr(Text(text), Combined(ch, attrs, bkgd), A_CHARTEXT);
    OrNothing(Text(text));
  }

  /** A text without attributes, and attributes without a text. */
  predicate IsText(t: Cell) {
    And(t, 0xFFFF_0000) == 0
  }

  predicate IsAttributes(attrs: Cell) {
    And(attrs, 0xFFFF) == 0
  }

  /** A mask that lies in one half of a cell sees that half only. */
  lemma LowMask(t: Cell, attrs: Cell, mask: Cell)
    requires IsAttributes(attrs) && And(0xFFFF, mask) == mask
    ensures And(Or(t, attrs), mask) == And(t, mask)
  {
    MaskOfOr(t, attrs, mask);
    MaskOfMask(attrs, 0xFFFF, mask);
    OrNothing(And(t, mask));
    assert And(0, mask) == 0;
  }

  lemma HighMask(t: Cell, attrs: Cell, mask: Cell)
    requires IsText(t) && And(0xFFFF_0000, mask) == mask
    ensures And(Or(t, attrs), mask) == And(attrs, mask)
  {
    MaskOfOr(t, attrs, mask);
    MaskOfMask(t, 0xFFFF_0000, mask);
    OrNothing(And(attrs, mask));
    assert And(0, mask) == 0;
  }

  /** The combined attributes by their bits: the upper 8 are the color, the next 8 add up. */
  lemma CombinedIs(ch: Cell, attrs: Cell, bkgd: Cell)
    requires And(attrs, 0xFFFF) == 0
    ensures var v := Combined(ch, attrs, bkgd);
      && IsAttributes(v)
      && And(v, 0xFF00_0000)
         == (if And(ch, 0xFF00_0000) != 0 then And(ch, 0xFF00_0000)
             else if And(attrs, 0xFF00_0000) != 0 then And(attrs, 0xFF00_0000) else And(bkgd, 0xFF00_0000))
      && And(v, 0x00FF_0000)
         == Or(if And(ch, 0xFF00_0000) != 0 then And(ch, 0x00FF_0000)
               else Or(And(ch, 0x00FF_0000), And(attrs, 0x00FF_0000)), And(bkgd, 0x00FF_0000))
  {
    ColorOfCombined(ch, attrs, bkgd);
    OthersOfCombined(ch, attrs, bkgd);
    TextOfCombined(ch, attrs, bkgd);
  }

  /** A text and attributes put together, by their bits. */
  lemma PutTogether(text: Cell, attrs: Cell)
    requires IsText(text) && IsAttributes(attrs)
    ensures var v := Or(text, attrs);
      && And(v, 0xFFFF) == And(text, 0xFFFF) && And(v, 0xFFFF_0000) == And(attrs, 0xFFFF_0000)
      && And(v, 0xFF00_0000) == And(attrs, 0xFF00_0000) && And(v, 0x00FF_0000) == And(attrs, 0x00FF_0000)
  {
    LowMask(text, attrs, 0xFFFF);
    HighMask(text, attrs, 0xFFFF_0000);
    HighMask(text, attrs, 0xFF00_0000);
    HighMask(text, attrs, 0x00FF_0000);
  }

  /** The two halves of a cell. */
  lemma Halves(ch: Cell)
    ensures IsText(Text(ch)) && And(Text(ch), 0xFFFF) == And(ch, 0xFFFF)
    ensures IsAttributes(Attributes(ch)) && And(Attributes(ch), 0xFFFF_0000) == And(ch, 0xFFFF_0000)
  {
  }

  /**
   What is shown for a character by its bits: its text, or the background's for a blank; its color, or the window's, or
   the background's; and the other attributes of all, but not the window's for a character with a color.
   */
  lemma ShownIs(ch: Cell, attrs: Cell, bkgd: Cell)
    requires And(attrs, 0xFFFF) == 0
    ensures var v := Shown(ch, attrs, bkgd);
      && And(v, 0xFFFF) == (if And(ch, 0xFFFF) == 0x20 then And(bkgd, 0xFFFF) else And(ch, 0xFFFF))
      && And(v, 0xFF00_0000)
         == (if And(ch, 0xFF00_0000) != 0 then And(ch, 0xFF00_0000)
             else if And(attrs, 0xFF00_0000) != 0 then And(attrs, 0xFF00_0000) else And(bkgd, 0xFF00_0000))
      && And(v, 0x00FF_0000)
         == Or(if And(ch, 0xFF00_0000) != 0 then And(ch, 0x00FF_0000)
               else Or(And(ch, 0x00FF_0000), And(attrs, 0x00FF_0000)), And(bkgd, 0x00FF_0000))
  {
    CombinedIs(ch, attrs, bkgd);
    Halves(ch);
    Halves(bkgd);
    PutTogether(if Text(ch) == SPACE then Text(bkgd) else Text(ch), Combined(ch, attrs, bkgd));
  }

  method ShowIn(ch: Cell, attrs: Cell, bkgd: Cell) returns (text: Cell)
    ensures text == Shown(ch, attrs, bkgd)
  {
    var attr := PassThrough(ch, attrs, bkgd);
    text := Text(ch);
    if text == SPACE {
      text := Text(bkgd);
    }
    text := Or(text, attr);
  }
}
