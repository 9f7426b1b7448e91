/** Borders and lines of src/kernel/curses/border.c, and attribute changes of src/kernel/curses/attr.c. */
module Border {
  import opened Cells
  import opened CursesWindow
  import opened Scroll

  const ACS_VLINE: Cell := 0x0001_0078
  const ACS_HLINE: Cell := 0x0001_0071
  const ACS_ULCORNER: Cell := 0x0001_006C
  const ACS_URCORNER: Cell := 0x0001_006B
  const ACS_LLCORNER: Cell := 0x0001_006D
  const ACS_LRCORNER: Cell := 0x0001_006A

  const INT_MAX: int := 0x7FFF_FFFF

  /** `_attr_passthru` of a cell, or of the default if the cell is 0. */
  function Passed(w: Win, ch: Cell, default: Cell): Cell {
    var own := if ch != 0 then ch else default;
    Or(Text(own), Combined(own, w.attrs, w.bkgd))
  }

  /** A cell that is passed: its text, or the default's, and the attributes that it gets in the window. */
  lemma PassedIs(w: Win, ch: Cell, default: Cell)
    requires And(w.attrs, 0xFFFF) == 0
    ensures var own, v := if ch != 0 then ch else default, Passed(w, ch, default);
      && And(v, 0xFFFF) == And(own, 0xFFFF)
      && And(v, 0xFF00_0000)
         == (if And(own, 0xFF00_0000) != 0 then And(own, 0xFF00_0000)
             else if And(w.attrs, 0xFF00_0000) != 0 then And(w.attrs, 0xFF00_0000) else And(w.bkgd, 0xFF00_0000))
      && And(v, 0x00FF_0000)
         == Or(if And(own, 0xFF00_0000) != 0 then And(own, 0x00FF_0000)
               else Or(And(own, 0x00FF_0000), And(w.attrs, 0x00FF_0000)), And(w.bkgd, 0x00FF_0000))
  {
    var own := if ch != 0 then ch else default;
    CombinedIs(own, w.attrs, w.bkgd);
    Halves(own);
    PutTogether(Text(own), Combined(own, w.attrs, w.bkgd));
  }

  method PassedIn(win: Window, ch: Cell, default: Cell) returns (text: Cell)
    ensures text == Passed(win.View(), ch, default)
  {
    var own := if ch != 0 then ch else default;
    var attr := PassThrough(own, win.attrs, win.bkgd);
    text := Or(Text(own), attr);
  }

  /** The interval with columns `left` to `right` in it, as the lines and `wchgat` compute it. */
  function Widened(first: int, last: int, left: int, right: int): (int, int) {
    (if left < first || first == NO_CHANGE then left else first, if right > last then right else last)
  }

  /** The end of `n` columns or rows from `start`, or of the window. */
  function End(start: int, n: int, max: int): int {
    if start + n < max then start + n else max
  }

  /** `whline`: `n` cells from the cursor to the right, or as many as there are. */
  function HLined(w: Win, ch: Cell, n: int): (v: Win)
    requires Ok(w) && n >= 1
    ensures Marks(w, v) && Ok(v)
  {
    assert RowOk(w, w.cury);
    var end := End(w.curx, n, w.maxx);
    var cells := Filled(w.y[w.cury].cells, w.curx, end, Passed(w, ch, ACS_HLINE));
    var marked := Widened(w.firstch[w.cury], w.lastch[w.cury], w.curx, end - 1);
    WithRowMarks(w, w.cury, cells, marked.0, marked.1);
    WithRow(w, w.cury, cells, marked.0, marked.1)
  }

  /** A horizontal line: the cell in the `n` columns from the cursor on, as far as there are so many; all else stays. */
  lemma HLinedIs(w: Win, ch: Cell, n: int, r: int, c: int)
    requires Ok(w) && n >= 1 && 0 <= r < w.maxy && 0 <= c < w.maxx
    ensures var v := HLined(w, ch, n);
      && v == w.(y := v.y, firstch := v.firstch, lastch := v.lastch)
      && At(v, r, c) == if r == w.cury && w.curx <= c < w.curx + n then Passed(w, ch, 0x0001_0071) else At(w, r, c)
  {
    assert RowOk(w, r);
  }

  method HLine(win: Window, ch: Cell, n: int) returns (ok: bool)
    requires Ok(win.View()) && win.curx + n <= INT_MAX
    modifies win`y, win`firstch, win`lastch
    ensures ok == (n >= 1)
    ensures win.View() == if ok then HLined(old(win.View()), ch, n) else old(win.View())
  {
    ok := n >= 1;
    if ok {
      ghost var w := win.View();
      assert RowOk(w, w.cury);
      var startpos, y := win.curx, win.cury;
      var endpos := End(startpos, n, win.maxx) - 1;
      var text := PassedIn(win, ch, ACS_HLINE);
      FilledNone(w.y[y].cells, startpos, text);
      var k := startpos;
      while k <= endpos
        modifies win`y
        invariant startpos <= k <= endpos + 1
        invariant win.y == w.y[y := w.y[y].(cells := Filled(w.y[y].cells, startpos, k, text))]
      {
        FilledNext(w.y[y].cells, startpos, k, text);
        win.Write(y, k, text);
        k := k + 1;
      }
      Widen(win, y, startpos, endpos);
    }
  }

  /** The two tests that widen an interval. */
  method Widen(win: Window, y: int, left: int, right: int)
    requires 0 <= y < |win.firstch| && y < |win.lastch|
    modifies win`firstch, win`lastch
    ensures win.firstch == old(win.firstch)[y := Widened(old(win.firstch[y]), old(win.lastch[y]), left, right).0]
    ensures win.lastch == old(win.lastch)[y := Widened(old(win.firstch[y]), old(win.lastch[y]), left, right).1]
  {
    if left < win.firstch[y] || win.firstch[y] == NO_CHANGE {
      win.firstch := win.firstch[y := left];
    }
    if right > win.lastch[y] {
      win.lastch := win.lastch[y := right];
    }
  }

  /** One cell of row `r` in the cursor's column. */
  function CellPut(w: Win, r: int, ch: Cell): (v: Win)
    requires Ok(w) && 0 <= r < w.maxy
    ensures Marks(w, v) && v == w.(y := v.y, firstch := v.firstch, lastch := v.lastch)
  {
    assert RowOk(w, r);
    var cells, marked := w.y[r].cells[w.curx := ch], Widened(w.firstch[r], w.lastch[r], w.curx, w.curx);
    WithRowMarks(w, r, cells, marked.0, marked.1);
    WithRow(w, r, cells, marked.0, marked.1)
  }

  /** The cursor's column in rows `from` to `end`. */
  function ColumnPut(w: Win, from: int, end: int, ch: Cell): (v: Win)
    requires Ok(w) && 0 <= from <= end <= w.maxy
    ensures Marks(w, v) && v == w.(y := v.y, firstch := v.firstch, lastch := v.lastch)
    decreases end
  {
    MarksItself(w);
    if from == end then w
    else
      var v := ColumnPut(w, from, end - 1, ch);
      MarksTransitive(w, v, CellPut(v, end - 1, ch));
      CellPut(v, end - 1, ch)
  }

  /** Only the cursor's column of these rows changes. */
  lemma {:induction false} ColumnPutIs(w: Win, from: int, end: int, ch: Cell, r: int)
    requires Ok(w) && 0 <= from <= end <= w.maxy && 0 <= r < w.maxy && RowOk(w, r)
    ensures ColumnPut(w, from, end, ch).y[r]
         == if from <= r < end then w.y[r].(cells := w.y[r].cells[w.curx := ch]) else w.y[r]
    decreases end
  {
    if from < end {
      ColumnPutIs(w, from, end - 1, ch, r);
    }
  }

  method PutInColumn(win: Window, r: int, x: int, text: Cell)
    requires Ok(win.View()) && 0 <= r < win.maxy && x == win.curx
    modifies win`y, win`firstch, win`lastch
    ensures win.View() == CellPut(old(win.View()), r, text)
  {
    assert RowOk(win.View(), r);
    win.Write(r, x, text);
    Widen(win, r, x, x);
  }

  /** `wvline`. */
  method VLine(win: Window, ch: Cell, n: int) returns (ok: bool)
    requires Ok(win.View()) && win.cury + n <= INT_MAX
    modifies win`y, win`firstch, win`lastch
    ensures ok == (n >= 1)
    ensures win.View() == if ok then VLined(old(win.View()), ch, n) else old(win.View())
  {
    ok := n >= 1;
    if ok {
      ghost var w := win.View();
      var endpos, x := End(win.cury, n, win.maxy), win.curx;
      var text := PassedIn(win, ch, ACS_VLINE);
      var k := win.cury;
      while k < endpos
        invariant win.cury <= k <= endpos
        invariant win.View() == ColumnPut(w, win.cury, k, text)
      {
        PutInColumn(win, k, x, text);
        k := k + 1;
      }
    }
  }

  function VLined(w: Win, ch: Cell, n: int): (v: Win)
    requires Ok(w) && n >= 1
    ensures Marks(w, v) && Ok(v)
  {
    ColumnPut(w, w.cury, End(w.cury, n, w.maxy), Passed(w, ch, ACS_VLINE))
  }

  /** A vertical line: the cell in the `n` rows from the cursor down, as far as there are so many; all else stays. */
  lemma VLinedIs(w: Win, ch: Cell, n: int, r: int, c: int)
    requires Ok(w) && n >= 1 && 0 <= r < w.maxy && 0 <= c < w.maxx
    ensures var v := VLined(w, ch, n);
      && v == w.(y := v.y, firstch := v.firstch, lastch := v.lastch)
      && At(v, r, c) == if c == w.curx && w.cury <= r < w.cury + n then Passed(w, ch, 0x0001_0078) else At(w, r, c)
  {
    assert RowOk(w, r);
    ColumnPutIs(w, w.cury, End(w.cury, n, w.maxy), Passed(w, ch, ACS_VLINE), r);
  }

  /** The attributes that `wchgat` sets: `COLOR_PAIR(color)` and those of `attr`. */
  function NewAttributes(attr: Cell, color: Cell): Cell {
    Or(Attributes(attr), And(color << 24, A_COLOR))
  }

  function Recolored(cells: seq<Cell>, from: int, end: int, newattr: Cell): (r: seq<Cell>)
    ensures |r| == |cells|
  {
    seq(|cells|, c requires 0 <= c < |cells| => if from <= c < end then Or(Text(cells[c]), newattr) else cells[c])
  }

  /** `wchgat`: other attributes for `n` cells from the cursor on, or for the rest of the row. */
  function AttributesChanged(w: Win, n: int, newattr: Cell): (v: Win)
    requires Ok(w)
    ensures Marks(w, v) && Ok(v)
  {
    assert RowOk(w, w.cury);
    var end := if n < 0 then w.maxx else End(w.curx, n, w.maxx);
    var cells := Recolored(w.y[w.cury].cells, w.curx, end, newattr);
    var marked := Widened(w.firstch[w.cury], w.lastch[w.cury], w.curx, end - 1);
    WithRowMarks(w, w.cury, cells, marked.0, marked.1);
    WithRow(w, w.cury, cells, marked.0, marked.1)
  }

  lemma PairBits(color: Cell)
    ensures var pair := And(color << 24, 0xFF00_0000);
      pair == And(color, 0xFF) << 24 && And(pair, 0xFFFF) == 0 && And(pair, 0x00FF_0000) == 0 && And(pair, 0xFF00_0000) == pair
  {
  }

  lemma AttributesBits(attr: Cell)
    ensures And(Attributes(attr), 0xFFFF) == 0 && And(Attributes(attr), 0x00FF_0000) == And(attr, 0x00FF_0000)
    ensures And(Attributes(attr), 0xFF00_0000) == And(attr, 0xFF00_0000)
  {
  }

  /** The new attributes: those given that are not color, and the color given together with the pair. */
  lemma NewAttributesAre(attr: Cell, color: Cell)
    ensures var v := NewAttributes(attr, color);
      && And(v, 0xFFFF) == 0 && And(v, 0x00FF_0000) == And(attr, 0x00FF_0000)
      && And(v, 0xFF00_0000) == Or(And(attr, 0xFF00_0000), And(color, 0xFF) << 24)
  {
    PairBits(color);
    AttributesBits(attr);
    var own, pair := Attributes(attr), And(color << 24, 0xFF00_0000);
    MaskOfOr(own, pair, 0xFFFF);
    MaskOfOr(own, pair, 0x00FF_0000);
    MaskOfOr(own, pair, 0xFF00_0000);
    OrNothing(And(own, 0xFFFF));
    OrNothing(And(own, 0x00FF_0000));
  }

  lemma AttributesAlone(a: Cell)
    requires IsAttributes(a)
    ensures And(a, 0xFFFF_0000) == a
  {
  }

  /** The cells from the cursor on take the new attributes and keep their text; all else stays. */
  lemma AttributesChangedAre(w: Win, n: int, attr: Cell, color: Cell, r: int, c: int)
    requires Ok(w) && 0 <= r < w.maxy && 0 <= c < w.maxx
    ensures var v := AttributesChanged(w, n, NewAttributes(attr, color));
      && v == w.(y := v.y, firstch := v.firstch, lastch := v.lastch)
      && if r == w.cury && w.curx <= c && (n < 0 || c < w.curx + n)
         then And(At(v, r, c), 0xFFFF) == And(At(w, r, c), 0xFFFF) &&
              And(At(v, r, c), 0xFFFF_0000) == NewAttributes(attr, color)
         else At(v, r, c) == At(w, r, c)
  {
    assert RowOk(w, r);
    NewAttributesAre(attr, color);
    Halves(At(w, r, c));
    PutTogether(Text(At(w, r, c)), NewAttributes(attr, color));
    AttributesAlone(NewAttributes(attr, color));
  }

  method ChgAt(win: Window, n: int, attr: Cell, color: Cell)
    requires Ok(win.View()) && win.curx + n <= INT_MAX
    modifies win`y, win`firstch, win`lastch
    ensures win.View() == AttributesChanged(old(win.View()), n, NewAttributes(attr, color))
  {
    ghost var w := win.View();
    assert RowOk(w, w.cury);
    var newattr := NewAttributes(attr, color);
    var startpos, y := win.curx, win.cury;
    var endpos := (if n < 0 then win.maxx else End(startpos, n, win.maxx)) - 1;
    ghost var row := w.y[y].cells;
    assert Recolored(row, startpos, startpos, newattr) == row;
    var k := startpos;
    while k <= endpos
      modifies win`y
      invariant startpos <= k <= endpos + 1
      invariant win.y == w.y[y := w.y[y].(cells := Recolored(row, startpos, k, newattr))]
    {
      var cell := Or(Text(win.y[y].cells[k]), newattr);
      assert Recolored(row, startpos, k, newattr)[k := cell] == Recolored(row, startpos, k + 1, newattr);
      win.Write(y, k, cell);
      k := k + 1;
    }
    Widen(win, y, startpos, endpos);
  }

  /** The eight cells of a border: sides, top and bottom, and corners. */
  datatype Frame = Frame(ls: Cell, rs: Cell, ts: Cell, bs: Cell, tl: Cell, tr: Cell, bl: Cell, br: Cell)

  /** The cell of a border at a place of the window; in a window of one row or column, the last one drawn there. */
  function BorderCell(f: Frame, maxy: int, maxx: int, r: int, c: int, inside: Cell): Cell {
    if r == maxy - 1 && c == maxx - 1 then f.br
    else if r == maxy - 1 && c == 0 then f.bl
    else if r == 0 && c == maxx - 1 then f.tr
    else if r == 0 && c == 0 then f.tl
    else if r == maxy - 1 then f.bs
    else if r == 0 then f.ts
    else if c == maxx - 1 then f.rs
    else if c == 0 then f.ls
    else inside
  }

  function BorderRow(f: Frame, maxy: int, r: int, cells: seq<Cell>): seq<Cell> {
    seq(|cells|, c requires 0 <= c < |cells| => BorderCell(f, maxy, |cells|, r, c, cells[c]))
  }

  /** `wborder`. */
  function Bordered(w: Win, f: Frame): (v: Win)
    requires Ok(w)
    ensures Marks(w, v) && Ok(v)
  {
    BorderedMarks(w, f);
    Touched(w.(y := BorderedRows(w.y, f)), 0, w.maxy)
  }

  lemma BorderedMarks(w: Win, f: Frame)
    requires Ok(w)
    ensures var v := w.(y := BorderedRows(w.y, f));
      Shaped(v) && Marks(w, Touched(v, 0, v.maxy))
  {
    var v := w.(y := BorderedRows(w.y, f));
    forall r ensures RowOk(v, r) {
      assert RowOk(w, r);
    }
    forall i, j ensures Apart(v.y, i, j) {
      assert Apart(w.y, i, j);
    }
    forall r, c ensures CellMarked(w, Touched(v, 0, v.maxy), r, c) {
      assert RowOk(v, r);
    }
  }

  /** A row whose top and bottom are drawn up to column `i`, and its sides up to row `j`. */
  function DrawnRow(f: Frame, maxy: int, i: int, j: int, r: int, cells: seq<Cell>): (v: seq<Cell>)
    ensures |v| == |cells|
  {
    seq(|cells|, c requires 0 <= c < |cells| =>
      if 1 <= c < i && r == maxy - 1 then f.bs
      else if 1 <= c < i && r == 0 then f.ts
      else if 1 <= r < j && c == |cells| - 1 then f.rs
      else if 1 <= r < j && c == 0 then f.ls
      else cells[c])
  }

  /** Row `r` of a window that is being drawn. */
  ghost predicate Drawing(was: seq<Line>, y: seq<Line>, f: Frame, i: int, j: int, r: int)
    requires |y| == |was|
  {
    0 <= r < |y| ==> y[r] == was[r].(cells := DrawnRow(f, |y|, i, j, r, was[r].cells))
  }

  ghost predicate Drawn(was: seq<Line>, y: seq<Line>, f: Frame, i: int, j: int) {
    |y| == |was| && forall r :: Drawing(was, y, f, i, j, r)
  }

  function Wrote(y: seq<Line>, r: int, c: int, ch: Cell): seq<Line>
    requires 0 <= r < |y| && 0 <= c < |y[r].cells|
  {
    y[r := y[r].(cells := y[r].cells[c := ch])]
  }

  lemma NothingDrawn(y: seq<Line>, f: Frame)
    ensures Drawn(y, y, f, 1, 1)
  {
    forall r ensures Drawing(y, y, f, 1, 1, r) {
      if 0 <= r < |y| {
        assert DrawnRow(f, |y|, 1, 1, r, y[r].cells) == y[r].cells;
      }
    }
  }

  lemma ColumnDrawn(was: seq<Line>, y: seq<Line>, f: Frame, i: int)
    requires Drawn(was, y, f, i, 1) && |y| > 0 && 1 <= i < |was[0].cells| - 1
    requires |was[0].cells| == |was[|was| - 1].cells|
    ensures Drawing(was, y, f, i, 1, 0) && Drawing(was, y, f, i, 1, |y| - 1)
    ensures Drawn(was, Wrote(Wrote(y, 0, i, f.ts), |y| - 1, i, f.bs), f, i + 1, 1)
  {
    assert Drawing(was, y, f, i, 1, 0) && Drawing(was, y, f, i, 1, |y| - 1);
    var v, next := Wrote(Wrote(y, 0, i, f.ts), |y| - 1, i, f.bs), i + 1;
    forall r ensures Drawing(was, v, f, next, 1, r) {
      assert Drawing(was, y, f, i, 1, r);
      if 0 <= r < |y| {
        assert v[r].cells == DrawnRow(f, |y|, next, 1, r, was[r].cells);
      }
    }
  }

  lemma SideDrawn(was: seq<Line>, y: seq<Line>, f: Frame, i: int, j: int)
    requires Drawn(was, y, f, i, j) && 1 <= j < |y| - 1 && |was[j].cells| > 0
    ensures Drawing(was, y, f, i, j, j)
    ensures Drawn(was, Wrote(Wrote(y, j, 0, f.ls), j, |was[j].cells| - 1, f.rs), f, i, j + 1)
  {
    assert Drawing(was, y, f, i, j, j);
    var v, next := Wrote(Wrote(y, j, 0, f.ls), j, |was[j].cells| - 1, f.rs), j + 1;
    forall r ensures Drawing(was, v, f, i, next, r) {
      assert Drawing(was, y, f, i, j, r);
      if 0 <= r < |y| {
        assert v[r].cells == DrawnRow(f, |y|, i, next, r, was[r].cells);
      }
    }
  }

  method DrawColumn(win: Window, f: Frame, i: int, ghost was: seq<Line>)
    requires |win.y| == |was| == win.maxy > 0 && 1 <= i < win.maxx - 1
    requires |was[0].cells| == |was[win.maxy - 1].cells| == win.maxx && Drawn(was, win.y, f, i, 1)
    modifies win`y
    ensures Drawn(was, win.y, f, i + 1, 1)
  {
    ColumnDrawn(was, win.y, f, i);
    win.Write(0, i, f.ts);
    win.Write(win.maxy - 1, i, f.bs);
  }

  /** The loop over the columns of the top and the bottom. */
  method DrawTopAndBottom(win: Window, f: Frame)
    requires Shaped(win.View())
    modifies win`y
    ensures Drawn(old(win.y), win.y, f, AtLeastOne(win.maxx - 1), 1)
  {
    ghost var y := win.y;
    assert RowOk(win.View(), 0) && RowOk(win.View(), win.maxy - 1);
    NothingDrawn(y, f);
    var xmax, i := win.maxx - 1, 1;
    while i < xmax
      invariant 1 <= i <= AtLeastOne(xmax) && Drawn(y, win.y, f, i, 1)
    {
      DrawColumn(win, f, i, y);
      i := i + 1;
    }
  }

  /** The loop over the rows of the sides. */
  method DrawSides(win: Window, f: Frame, ghost w: Win, ghost columns: int)
    requires Shaped(w) && w.maxx == win.maxx && w.maxy == win.maxy && Drawn(w.y, win.y, f, columns, 1)
    modifies win`y
    ensures Drawn(w.y, win.y, f, columns, AtLeastOne(win.maxy - 1))
  {
    var xmax, ymax, i := win.maxx - 1, win.maxy - 1, 1;
    while i < ymax
      invariant 1 <= i <= AtLeastOne(ymax) && Drawn(w.y, win.y, f, columns, i)
    {
      assert RowOk(w, i);
      SideDrawn(w.y, win.y, f, columns, i);
      win.Write(i, 0, f.ls);
      win.Write(i, xmax, f.rs);
      i := i + 1;
    }
  }

  function AtLeastOne(n: int): int {
    if n < 1 then 1 else n
  }

  /** The corners written, top left, top right, bottom left and bottom right. */
  function Cornered(y: seq<Line>, f: Frame, maxx: nat): (v: seq<Line>)
    requires |y| > 0 && maxx > 0 && |y[0].cells| == |y[|y| - 1].cells| == maxx
  {
    var top := Wrote(Wrote(y, 0, 0, f.tl), 0, maxx - 1, f.tr);
    Wrote(Wrote(top, |y| - 1, 0, f.bl), |y| - 1, maxx - 1, f.br)
  }

  function BorderedRows(y: seq<Line>, f: Frame): (v: seq<Line>)
    ensures |v| == |y|
  {
    seq(|y|, r requires 0 <= r < |y| => y[r].(cells := BorderRow(f, |y|, r, y[r].cells)))
  }

  lemma CorneredRow(was: seq<Line>, y: seq<Line>, f: Frame, maxx: nat, r: int)
    requires 0 <= r < |was| == |y| && maxx > 0 && |was[r].cells| == maxx
    requires |y[0].cells| == |y[|y| - 1].cells| == maxx
    requires Drawing(was, y, f, AtLeastOne(maxx - 1), AtLeastOne(|y| - 1), r)
    ensures Cornered(y, f, maxx)[r] == BorderedRows(was, f)[r]
  {
    assert Cornered(y, f, maxx)[r].cells == BorderRow(f, |y|, r, was[r].cells);
  }

  /** The corners complete the border. */
  lemma CornersComplete(w: Win, y: seq<Line>, f: Frame)
    requires Shaped(w) && Drawn(w.y, y, f, AtLeastOne(w.maxx - 1), AtLeastOne(w.maxy - 1))
    ensures |y| == w.maxy && |y[0].cells| == |y[w.maxy - 1].cells| == w.maxx
    ensures Cornered(y, f, w.maxx) == BorderedRows(w.y, f)
  {
    var i, j := AtLeastOne(w.maxx - 1), AtLeastOne(w.maxy - 1);
    assert RowOk(w, 0) && RowOk(w, w.maxy - 1);
    assert Drawing(w.y, y, f, i, j, 0) && Drawing(w.y, y, f, i, j, w.maxy - 1);
    forall r | 0 <= r < w.maxy ensures Cornered(y, f, w.maxx)[r] == BorderedRows(w.y, f)[r] {
      assert RowOk(w, r) && Drawing(w.y, y, f, i, j, r);
      CorneredRow(w.y, y, f, w.maxx, r);
    }
  }

  method DrawCorners(win: Window, f: Frame)
    requires |win.y| == win.maxy > 0 && win.maxx > 0
    requires |win.y[0].cells| == |win.y[win.maxy - 1].cells| == win.maxx
    modifies win`y
    ensures win.y == Cornered(old(win.y), f, win.maxx)
  {
    var xmax, ymax := win.maxx - 1, win.maxy - 1;
    win.Write(0, 0, f.tl);
    win.Write(0, xmax, f.tr);
    win.Write(ymax, 0, f.bl);
    win.Write(ymax, xmax, f.br);
  }

  /** The cells that a border is drawn with: those given, with the window's attributes, or lines and corners. */
  function PassedFrame(w: Win, f: Frame): Frame {
    Frame(Passed(w, f.ls, ACS_VLINE), Passed(w, f.rs, ACS_VLINE), Passed(w, f.ts, ACS_HLINE),
          Passed(w, f.bs, ACS_HLINE), Passed(w, f.tl, ACS_ULCORNER), Passed(w, f.tr, ACS_URCORNER),
          Passed(w, f.bl, ACS_LLCORNER), Passed(w, f.br, ACS_LRCORNER))
  }

  method PassFrame(win: Window, f: Frame) returns (passed: Frame)
    ensures passed == PassedFrame(win.View(), f)
  {
    var ls := PassedIn(win, f.ls, ACS_VLINE);
    var rs := PassedIn(win, f.rs, ACS_VLINE);
    var ts := PassedIn(win, f.ts, ACS_HLINE);
    var bs := PassedIn(win, f.bs, ACS_HLINE);
    var tl := PassedIn(win, f.tl, ACS_ULCORNER);
    var tr := PassedIn(win, f.tr, ACS_URCORNER);
    var bl := PassedIn(win, f.bl, ACS_LLCORNER);
    var br := PassedIn(win, f.br, ACS_LRCORNER);
    passed := Frame(ls, rs, ts, bs, tl, tr, bl, br);
  }

  method DrawBorder(win: Window, f: Frame)
    requires Ok(win.View())
    modifies win`y, win`firstch, win`lastch
    ensures win.View() == Bordered(old(win.View()), PassedFrame(old(win.View()), f))
  {
    ghost var w := win.View();
    var passed := PassFrame(win, f);
    DrawTopAndBottom(win, passed);
    DrawSides(win, passed, w, AtLeastOne(win.maxx - 1));
    CornersComplete(w, win.y, passed);
    DrawCorners(win, passed);
    BorderedMarks(w, passed);
    Touch(win, 0, win.maxy);
  }

  /** The character of the alternate character set with this code. */
  predicate IsLineDrawing(ch: Cell, code: Cell) {
    And(ch, 0xFFFF) == code && And(ch, 0x0001_0000) == 0x0001_0000
  }

  lemma AltKept(ch: Cell, own: Cell, attrs: Cell, bkgd: Cell)
    requires And(ch, 0x00FF_0000) == Or(Or(own, attrs), bkgd) && own == 0x0001_0000
    ensures And(ch, 0x0001_0000) == 0x0001_0000
  {
  }

  lemma DefaultIs(w: Win, default: Cell, code: Cell)
    requires And(w.attrs, 0xFFFF) == 0 && code < 0x80 && default == Or(0x0001_0000, code)
    ensures IsLineDrawing(Passed(w, 0, default), code)
  {
    PassedIs(w, 0, default);
    assert And(default, 0xFFFF) == code && And(default, 0xFF00_0000) == 0 && And(default, 0x00FF_0000) == 0x0001_0000;
    AltKept(Passed(w, 0, default), 0x0001_0000, And(w.attrs, 0x00FF_0000), And(w.bkgd, 0x00FF_0000));
  }

  /** The default cells of a border are the line-drawing characters with the codes of 'x', 'q', 'l', 'k', 'm' and 'j'. */
  lemma DefaultsAre(w: Win)
    requires And(w.attrs, 0xFFFF) == 0
    ensures var f := PassedFrame(w, Frame(0, 0, 0, 0, 0, 0, 0, 0));
      && IsLineDrawing(f.ls, 0x78) && IsLineDrawing(f.rs, 0x78) && IsLineDrawing(f.ts, 0x71) && IsLineDrawing(f.bs, 0x71)
      && IsLineDrawing(f.tl, 0x6C) && IsLineDrawing(f.tr, 0x6B) && IsLineDrawing(f.bl, 0x6D) && IsLineDrawing(f.br, 0x6A)
  {
    DefaultIs(w, ACS_VLINE, 0x78);
    DefaultIs(w, ACS_HLINE, 0x71);
    DefaultIs(w, ACS_ULCORNER, 0x6C);
    DefaultIs(w, ACS_URCORNER, 0x6B);
    DefaultIs(w, ACS_LLCORNER, 0x6D);
    DefaultIs(w, ACS_LRCORNER, 0x6A);
  }

  /**
   A border in a window of two or more rows and columns: the given cells, passed, in the corners and along the edges, and
   the window's own cells inside.
   */
  lemma BorderIs(w: Win, f: Frame, r: int, c: int)
    requires Ok(w) && w.maxy >= 2 && w.maxx >= 2 && 0 <= r < w.maxy && 0 <= c < w.maxx
    ensures var v := Bordered(w, PassedFrame(w, f));
      var bottom, right := w.maxy - 1, w.maxx - 1;
      && v == w.(y := v.y, firstch := v.firstch, lastch := v.lastch)
      && (r == 0 && c == 0 ==> At(v, r, c) == Passed(w, f.tl, 0x0001_006C))
      && (r == 0 && c == right ==> At(v, r, c) == Passed(w, f.tr, 0x0001_006B))
      && (r == bottom && c == 0 ==> At(v, r, c) == Passed(w, f.bl, 0x0001_006D))
      && (r == bottom && c == right ==> At(v, r, c) == Passed(w, f.br, 0x0001_006A))
      && (r == 0 && 0 < c < right ==> At(v, r, c) == Passed(w, f.ts, 0x0001_0071))
      && (r == bottom && 0 < c < right ==> At(v, r, c) == Passed(w, f.bs, 0x0001_0071))
      && (c == 0 && 0 < r < bottom ==> At(v, r, c) == Passed(w, f.ls, 0x0001_0078))
      && (c == right && 0 < r < bottom ==> At(v, r, c) == Passed(w, f.rs, 0x0001_0078))
      && (0 < r < bottom && 0 < c < right ==> At(v, r, c) == At(w, r, c))
  {
    BorderedMarks(w, PassedFrame(w, f));
    assert RowOk(w, r);
  }

  /** In a window of one row or one column, what is drawn last stays: the bottom, the right side, and their corners. */
  lemma ThinBorderIs(w: Win, f: Frame, r: int, c: int)
    requires Ok(w) && (w.maxy == 1 || w.maxx == 1) && 0 <= r < w.maxy && 0 <= c < w.maxx
    ensures var v := Bordered(w, PassedFrame(w, f));
      var bottom, right := w.maxy - 1, w.maxx - 1;
      && (r == bottom && c == right ==> At(v, r, c) == Passed(w, f.br, 0x0001_006A))
      && (r == bottom && c == 0 < right ==> At(v, r, c) == Passed(w, f.bl, 0x0001_006D))
      && (r == bottom && 0 < c < right ==> At(v, r, c) == Passed(w, f.bs, 0x0001_0071))
      && (c == right && r == 0 < bottom ==> At(v, r, c) == Passed(w, f.tr, 0x0001_006B))
      && (c == right && 0 < r < bottom ==> At(v, r, c) == Passed(w, f.rs, 0x0001_0078))
  {
    BorderedMarks(w, PassedFrame(w, f));
    assert RowOk(w, r);
  }
}
