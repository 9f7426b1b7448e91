/** Adding characters at the cursor, of src/kernel/curses/addch.c. */
module AddCh {
  import opened Cells
  import opened CursesWindow
  import opened Clear
  import opened Scroll

  const DELETE: Cell := 0x7F
  const BACKSPACE: Cell := 8
  const TAB: Cell := 9
  const LINE_FEED: Cell := 10
  const RETURN: Cell := 13
  const CARET: Cell := 0x5E
  const QUESTION: Cell := 0x3F
  const AT_SIGN: Cell := 0x40

  /** The settings that `waddch` reads: raw output, and the distance of the tab stops. */
  datatype Terminal = Terminal(rawOut: bool, tabSize: nat)

  /** A window after a call, and whether the call returned OK. */
  datatype Result = Result(win: Win, ok: bool)

  /** The interval with column `x` in it. */
  function With(first: int, last: int, x: int): (int, int) {
    if first == NO_CHANGE then (x, x)
    else if x < first then (x, last)
    else if x > last then (first, x)
    else (first, last)
  }

  /** A cell put at the cursor; its column is marked if that changes it. */
  function Put(w: Win, cell: Cell): Win
    requires Ok(w)
  {
    assert RowOk(w, w.cury);
    var row, mark := w.y[w.cury].cells, With(w.firstch[w.cury], w.lastch[w.cury], w.curx);
    if row[w.curx] == cell then w else WithRow(w, w.cury, row[w.curx := cell], mark.0, mark.1)
  }

  lemma PutMarks(w: Win, cell: Cell)
    requires Ok(w)
    ensures Marks(w, Put(w, cell)) && Ok(Put(w, cell))
  {
    assert RowOk(w, w.cury);
    var v := Put(w, cell);
    if v == w {
      MarksItself(w);
    } else {
      WithRowMarks(w, w.cury, v.y[w.cury].cells, v.firstch[w.cury], v.lastch[w.cury]);
    }
  }

  /** The cursor at the start of the next row; at the end of the scrolling region this scrolls, or fails. */
  function NextLine(w: Win): (r: Result)
    requires Ok(w)
    ensures Marks(w, r.win) && Ok(r.win)
  {
    MarksItself(w);
    if w.cury + 1 <= w.bmarg then
      var v := w.(cury := w.cury + 1, curx := 0);
      SameRowsMark(w, v);
      Result(v, true)
    else if w.scroll then
      var v := Scrolled(w, 1);
      SameRowsMark(v, v.(curx := 0));
      MarksTransitive(w, v, v.(curx := 0));
      Result(v.(curx := 0), true)
    else Result(w, false)
  }

  /** The cursor one column on, or on the next line. */
  function Advanced(w: Win): (r: Result)
    requires Ok(w)
    ensures Marks(w, r.win) && Ok(r.win)
  {
    if w.curx + 1 < w.maxx then
      var v := w.(curx := w.curx + 1);
      SameRowsMark(w, v);
      Result(v, true)
    else NextLine(w)
  }

  /** A cell put at the cursor, and the cursor's step. */
  function AddedText(w: Win, cell: Cell): (r: Result)
    requires Ok(w)
    ensures Marks(w, r.win) && Ok(r.win)
  {
    PutMarks(w, cell);
    MarksTransitive(w, Put(w, cell), Advanced(Put(w, cell)).win);
    Advanced(Put(w, cell))
  }

  /** `waddch` of a character that is not a control character. */
  function AddedCell(w: Win, ch: Cell): (r: Result)
    requires Ok(w)
    ensures Marks(w, r.win) && Ok(r.win)
  {
    AddedText(w, Shown(ch, w.attrs, w.bkgd))
  }

  /** Up to `n` cells, until one fails or begins a line. */
  function AddedCells(w: Win, ch: Cell, n: nat): (r: Result)
    requires Ok(w)
    ensures Marks(w, r.win) && Ok(r.win)
    decreases n
  {
    MarksItself(w);
    if n == 0 then Result(w, true)
    else
      var a := AddedCell(w, ch);
      if !a.ok || a.win.curx == 0 then a
      else
        MarksTransitive(w, a.win, AddedCells(a.win, ch, n - 1).win);
        AddedCells(a.win, ch, n - 1)
  }

  /** Two cells, the second one if the first does not fail. */
  function AddedPair(w: Win, first: Cell, second: Cell): (r: Result)
    requires Ok(w)
    ensures Marks(w, r.win) && Ok(r.win)
  {
    var a := AddedCell(w, first);
    if !a.ok then a
    else
      MarksTransitive(w, a.win, AddedCell(a.win, second).win);
      AddedCell(a.win, second)
  }

  predicate IsControl(ch: Cell, t: Terminal) {
    !t.rawOut && And(ch, A_ALTCHARSET) == 0 && (Text(ch) < SPACE || Text(ch) == DELETE)
  }

  /** The parts that control characters are shown by, with the attributes of the character. */
  function Blank(ch: Cell): Cell {
    Or(Attributes(ch), SPACE)
  }

  function Caret(ch: Cell): Cell {
    Or(Attributes(ch), CARET)
  }

  function Question(ch: Cell): Cell {
    Or(Attributes(ch), QUESTION)
  }

  function Letter(ch: Cell): Cell {
    ch + AT_SIGN
  }

  /** How a character is added, and the cells that it is added as. */
  datatype Kind = Plain(ch: Cell) | Tab(blank: Cell) | LineFeed | Backspace | Return | Pair(first: Cell, second: Cell)

  function KindOf(ch: Cell, t: Terminal): Kind {
    if !IsControl(ch, t) then Plain(ch)
    else if Text(ch) == TAB then Tab(Blank(ch))
    else if Text(ch) == LINE_FEED then LineFeed
    else if Text(ch) == BACKSPACE then Backspace
    else if Text(ch) == RETURN then Return
    else if Text(ch) == DELETE then Pair(Caret(ch), Question(ch))
    else Pair(Caret(ch), Letter(ch))
  }

  function AddedKind(w: Win, kind: Kind, tabSize: nat): (r: Result)
    requires Ok(w) && tabSize > 0
    ensures Marks(w, r.win) && Ok(r.win)
  {
    match kind
    case Plain(ch) => AddedCell(w, ch)
    case Tab(blank) => AddedCells(w, blank, tabSize - w.curx % tabSize)
    case LineFeed =>
      var v := ClearedToEol(w);
      RowClearedMarks(w, w.cury, w.curx);
      MarksTransitive(w, v, NextLine(v).win);
      NextLine(v)
    case Backspace =>
      SameRowsMark(w, w.(curx := if w.curx == 0 then 0 else w.curx - 1));
      Result(w.(curx := if w.curx == 0 then 0 else w.curx - 1), true)
    case Return =>
      SameRowsMark(w, w.(curx := 0));
      Result(w.(curx := 0), true)
    case Pair(first, second) => AddedPair(w, first, second)
  }

  /** `waddch`. */
  function AddedCh(w: Win, ch: Cell, t: Terminal): (r: Result)
    requires Ok(w) && t.tabSize > 0
    ensures Marks(w, r.win) && Ok(r.win)
  {
    AddedKind(w, KindOf(ch, t), t.tabSize)
  }

  /** The parts that a control character is shown by are not control characters themselves. */
  lemma PartsAreCells(ch: Cell, t: Terminal)
    requires IsControl(ch, t)
    ensures !IsControl(Blank(ch), t) && !IsControl(Caret(ch), t)
    ensures !IsControl(Question(ch), t)
    ensures Text(ch) != DELETE ==> !IsControl(Letter(ch), t)
  {
  }

  /** The cursor stands in the last column of the last row of the scrolling region, or below it. */
  predicate AtEnd(w: Win) {
    w.curx + 1 == w.maxx && w.cury + 1 > w.bmarg
  }

  lemma PutIs(w: Win, cell: Cell, r: int, c: int)
    requires Ok(w) && 0 <= r < w.maxy && 0 <= c < w.maxx && Ok(Put(w, cell))
    ensures At(Put(w, cell), r, c) == if r == w.cury && c == w.curx then cell else At(w, r, c)
  {
    assert RowOk(w, w.cury);
  }

  /** The cursor goes on, unless the window is full and does not scroll. */
  lemma AdvancedIs(w: Win)
    requires Ok(w)
    ensures var a := Advanced(w);
      && (a.ok <==> !AtEnd(w) || w.scroll)
      && (a.ok ==> a.win.curx == (if w.curx + 1 < w.maxx then w.curx + 1 else 0))
      && (a.ok ==> a.win.cury == (if w.curx + 1 < w.maxx || AtEnd(w) then w.cury else w.cury + 1))
      && (!a.ok ==> a.win == w)
      && a.win.y == if AtEnd(w) && w.scroll then Scrolled(w, 1).y else w.y
  {
  }

  /**
   What adding a character does: its cell is shown at the cursor and all others stay, or move up with it if the window
   scrolls; the cursor goes on.
   */
  lemma AddedTextIs(w: Win, cell: Cell, r: int, c: int)
    requires Ok(w) && 0 <= r < w.maxy && 0 <= c < w.maxx
    ensures var a, v := AddedText(w, cell), Put(w, cell);
      && Ok(v) && AtEnd(v) == AtEnd(w)
      && At(v, r, c) == (if r == w.cury && c == w.curx then cell else At(w, r, c))
      && (AtEnd(w) && w.scroll ==> a.win.y[r].cells == Shifted(v.y, w.tmarg, w.bmarg, true, Blanks(w), 1, r))
      && (!(AtEnd(w) && w.scroll) ==> At(a.win, r, c) == At(v, r, c))
      && (!AtEnd(w) ==> a.ok && a.win.cury == (if w.curx + 1 < w.maxx then w.cury else w.cury + 1) &&
                        a.win.curx == if w.curx + 1 < w.maxx then w.curx + 1 else 0)
  {
    var v := Put(w, cell);
    PutMarks(w, cell);
    PutIs(w, cell, r, c);
    AdvancedIs(v);
    if AtEnd(w) && w.scroll {
      ScrolledIs(v, 1, r);
    }
  }

  /** Cells that do not reach the last column fill the columns that they pass, and nothing else changes. */
  lemma {:induction false} AddedCellsAre(w: Win, ch: Cell, n: nat, r: int, c: int)
    requires Ok(w) && w.curx + n < w.maxx && 0 <= r < w.maxy && 0 <= c < w.maxx
    ensures var a := AddedCells(w, ch, n);
      && a.ok && a.win.cury == w.cury && a.win.curx == w.curx + n
      && At(a.win, r, c)
         == if r == w.cury && w.curx <= c < w.curx + n then Shown(ch, w.attrs, w.bkgd) else At(w, r, c)
    decreases n
  {
    if n > 0 {
      AddedTextIs(w, Shown(ch, w.attrs, w.bkgd), r, c);
      AddedCellsAre(AddedCell(w, ch).win, ch, n - 1, r, c);
    }
  }

  /** A tab that stays in its row blanks it up to the next tab stop, and moves the cursor there. */
  lemma TabIs(w: Win, blank: Cell, tabSize: nat, stop: nat, r: int, c: int)
    requires Ok(w) && tabSize > 0 && 0 <= r < w.maxy && 0 <= c < w.maxx
    requires w.curx < stop < w.maxx && stop == w.curx + (tabSize - w.curx % tabSize)
    ensures var a := AddedKind(w, Tab(blank), tabSize);
      && a.ok && a.win.cury == w.cury && a.win.curx == stop
      && At(a.win, r, c)
         == if r == w.cury && w.curx <= c < stop then Shown(blank, w.attrs, w.bkgd) else At(w, r, c)
  {
    AddedCellsAre(w, blank, stop - w.curx, r, c);
  }

  /** `v` is `w` with its row filled from the cursor on, and the cursor in the last column. */
  ghost predicate RowFilled(w: Win, v: Win, cell: Cell, r: int, c: int)
    requires Ok(w) && 0 <= r < w.maxy && 0 <= c < w.maxx
  {
    && Ok(v) && v == w.(y := v.y, firstch := v.firstch, lastch := v.lastch, curx := w.maxx - 1)
    && At(v, r, c) == if r == w.cury && c >= w.curx then cell else At(w, r, c)
  }

  /** `v` is `w` with a cell put at the cursor, and the cursor one column on. */
  ghost predicate CellPassed(w: Win, v: Win, cell: Cell, r: int, c: int)
    requires Ok(w) && 0 <= r < w.maxy && 0 <= c < w.maxx
  {
    && Ok(v) && v == w.(y := v.y, firstch := v.firstch, lastch := v.lastch, curx := w.curx + 1)
    && At(v, r, c) == if r == w.cury && c == w.curx then cell else At(w, r, c)
  }

  lemma PutKeeps(w: Win, cell: Cell)
    requires Ok(w)
    ensures var v := Put(w, cell);
      v == w.(y := v.y, firstch := v.firstch, lastch := v.lastch)
  {
  }

  lemma StepPassed(w: Win, v: Win, cell: Cell, r: int, c: int)
    requires Ok(w) && Ok(v) && w.curx + 1 < w.maxx && 0 <= r < w.maxy && 0 <= c < w.maxx
    requires v == w.(y := v.y, firstch := v.firstch, lastch := v.lastch)
    requires At(v, r, c) == if r == w.cury && c == w.curx then cell else At(w, r, c)
    ensures Advanced(v) == Result(v.(curx := v.curx + 1), true) && CellPassed(w, v.(curx := v.curx + 1), cell, r, c)
  {
    SameRowsMark(v, v.(curx := v.curx + 1));
  }

  lemma NextPassed(w: Win, cell: Cell, r: int, c: int)
    requires Ok(w) && w.curx + 1 < w.maxx && 0 <= r < w.maxy && 0 <= c < w.maxx
    ensures var a := AddedText(w, cell);
      a.ok && CellPassed(w, a.win, cell, r, c)
  {
    PutMarks(w, cell);
    PutIs(w, cell, r, c);
    PutKeeps(w, cell);
    StepPassed(w, Put(w, cell), cell, r, c);
  }

  lemma FilledFurther(w: Win, next: Win, v: Win, cell: Cell, r: int, c: int)
    requires Ok(w) && 0 <= r < w.maxy && 0 <= c < w.maxx
    requires CellPassed(w, next, cell, r, c) && RowFilled(next, v, cell, r, c)
    ensures RowFilled(w, v, cell, r, c)
  {
  }

  lemma LastFilled(w: Win, cell: Cell, r: int, c: int)
    requires Ok(w) && w.curx + 1 == w.maxx && 0 <= r < w.maxy && 0 <= c < w.maxx
    ensures Ok(Put(w, cell)) && RowFilled(w, Put(w, cell), cell, r, c)
    ensures AddedText(w, cell) == NextLine(Put(w, cell))
  {
    PutMarks(w, cell);
    PutIs(w, cell, r, c);
  }

  lemma FirstAdded(w: Win, ch: Cell, n: nat)
    requires Ok(w) && n > 0
    ensures var a := AddedCell(w, ch);
      AddedCells(w, ch, n) == if !a.ok || a.win.curx == 0 then a else AddedCells(a.win, ch, n - 1)
  {
  }

  lemma NextLineStarts(w: Win)
    requires Ok(w)
    ensures !NextLine(w).ok || NextLine(w).win.curx == 0
  {
  }

  /** Cells that reach the last column fill the row to its end, and stop there, because the next would begin a line. */
  lemma {:induction false} AddedCellsWrap(w: Win, ch: Cell, n: nat, r: int, c: int) returns (v: Win)
    requires Ok(w) && w.curx + n >= w.maxx && 0 <= r < w.maxy && 0 <= c < w.maxx
    ensures RowFilled(w, v, Shown(ch, w.attrs, w.bkgd), r, c) && AddedCells(w, ch, n) == NextLine(v)
    decreases n
  {
    var cell := Shown(ch, w.attrs, w.bkgd);
    FirstAdded(w, ch, n);
    if w.curx + 1 == w.maxx {
      v := Put(w, cell);
      LastFilled(w, cell, r, c);
      NextLineStarts(v);
    } else {
      var next := AddedText(w, cell).win;
      NextPassed(w, cell, r, c);
      v := AddedCellsWrap(next, ch, n - 1, r, c);
      FilledFurther(w, next, v, cell, r, c);
    }
  }

  /** A step to the next line goes down a row, scrolls the region up by one, or fails without a change. */
  lemma NextLineIs(w: Win, r: int, c: int)
    requires Ok(w) && 0 <= r < w.maxy && 0 <= c < w.maxx
    ensures var a := NextLine(w);
      && (a.ok <==> w.cury < w.bmarg || w.scroll)
      && (!a.ok ==> a.win == w)
      && (a.ok ==> a.win.curx == 0 && a.win.cury == if w.cury < w.bmarg then w.cury + 1 else w.cury)
      && At(a.win, r, c)
         == (if w.cury >= w.bmarg && w.scroll && w.tmarg <= r <= w.bmarg
             then (if r == w.bmarg then w.bkgd else At(w, r + 1, c)) else At(w, r, c))
  {
    assert RowOk(w, r) && RowOk(w, r + 1);
    if w.cury >= w.bmarg && w.scroll {
      ScrolledIs(w, 1, r);
    }
  }

  lemma ControlIs(ch: Cell, t: Terminal)
    ensures IsControl(ch, t) <==>
      !t.rawOut && And(ch, 0x0001_0000) == 0 && (And(ch, 0xFFFF) < 32 || And(ch, 0xFFFF) == 127)
  {
  }

  lemma LetterIs(ch: Cell)
    requires And(ch, 0xFFFF) < 32
    ensures Letter(ch) == Or(And(ch, 0xFFFF_0000), Or(And(ch, 0xFFFF), 0x40))
  {
  }

  /**
   Which character is which, by its code: 10 is a line feed, 13 a return, 8 a backspace, 9 a tab; the others below 32 are
   shown as a caret and their letter, and 127 as a caret and a question mark.
   */
  lemma CharactersAre(ch: Cell, t: Terminal)
    ensures var code, own := And(ch, 0xFFFF), And(ch, 0xFFFF_0000);
      if t.rawOut || And(ch, 0x0001_0000) != 0 || (code >= 32 && code != 127) then KindOf(ch, t) == Plain(ch)
      else if code == 10 then KindOf(ch, t) == LineFeed
      else if code == 13 then KindOf(ch, t) == Return
      else if code == 8 then KindOf(ch, t) == Backspace
      else if code == 9 then KindOf(ch, t) == Tab(Or(own, 0x20))
      else if code == 127 then KindOf(ch, t) == Pair(Or(own, 0x5E), Or(own, 0x3F))
      else KindOf(ch, t) == Pair(Or(own, 0x5E), Or(own, Or(code, 0x40)))
  {
    ControlIs(ch, t);
    if And(ch, 0xFFFF) < 32 {
      LetterIs(ch);
    }
  }

  /** A return goes to the start of the row, a backspace one column back but not beyond it. */
  lemma MovesAre(w: Win, tabSize: nat)
    requires Ok(w) && tabSize > 0
    ensures AddedKind(w, Return, tabSize) == Result(w.(curx := 0), true)
    ensures AddedKind(w, Backspace, tabSize) == Result(w.(curx := if w.curx > 0 then w.curx - 1 else 0), true)
  {
  }

  /** A line feed blanks the rest of the row and goes to the start of the next line. */
  lemma LineFeedIs(w: Win, tabSize: nat, r: int, c: int)
    requires Ok(w) && tabSize > 0 && 0 <= r < w.maxy && 0 <= c < w.maxx
    ensures var v := ClearedToEol(w);
      && Ok(v) && v.cury == w.cury && v.bmarg == w.bmarg && v.scroll == w.scroll
      && At(v, r, c) == (if r == w.cury && c >= w.curx then w.bkgd else At(w, r, c))
      && AddedKind(w, LineFeed, tabSize) == NextLine(v)
  {
    RowClearedMarks(w, w.cury, w.curx);
    assert RowOk(w, w.cury);
  }

  lemma SecondPassed(w: Win, first: Cell, second: Cell, u: Win, v: Win, r: int, c: int)
    requires Ok(w) && w.curx + 2 < w.maxx && 0 <= r < w.maxy && 0 <= c < w.maxx
    requires CellPassed(w, u, first, r, c) && CellPassed(u, v, second, r, c)
    ensures v.cury == w.cury && v.curx == w.curx + 2
    ensures At(v, r, c)
         == if r == w.cury && c == w.curx then first
            else if r == w.cury && c == w.curx + 1 then second else At(w, r, c)
  {
  }

  /** A pair with room for it puts its cells side by side. */
  lemma PairIs(w: Win, first: Cell, second: Cell, r: int, c: int)
    requires Ok(w) && w.curx + 2 < w.maxx && 0 <= r < w.maxy && 0 <= c < w.maxx
    ensures var a := AddedPair(w, first, second);
      && a.ok && a.win.cury == w.cury && a.win.curx == w.curx + 2
      && At(a.win, r, c)
         == if r == w.cury && c == w.curx then Shown(first, w.attrs, w.bkgd)
            else if r == w.cury && c == w.curx + 1 then Shown(second, w.attrs, w.bkgd)
            else At(w, r, c)
  {
    var x, y := Shown(first, w.attrs, w.bkgd), Shown(second, w.attrs, w.bkgd);
    NextPassed(w, x, r, c);
    var u := AddedText(w, x).win;
    NextPassed(u, y, r, c);
    SecondPassed(w, x, y, u, AddedText(u, y).win, r, c);
  }

  /** The store of `waddch`, and the interval that goes with it. */
  method PutCell(win: Window, text: Cell)
    requires Ok(win.View())
    modifies win`y, win`firstch, win`lastch
    ensures win.View() == Put(old(win.View()), text)
  {
    assert RowOk(win.View(), win.cury);
    var x, y := win.curx, win.cury;
    if win.y[y].cells[x] != text {
      if win.firstch[y] == NO_CHANGE {
        win.firstch := win.firstch[y := x];
        win.lastch := win.lastch[y := x];
      } else if x < win.firstch[y] {
        win.firstch := win.firstch[y := x];
      } else if x > win.lastch[y] {
        win.lastch := win.lastch[y := x];
      }
      win.Write(y, x, text);
    }
  }

  /** `++y`, at the end of the region a scroll, and the new cursor if that does not fail. */
  method GoToNextLine(win: Window) returns (ok: bool)
    requires Ok(win.View())
    modifies win`cury, win`curx, win`y, win`firstch, win`lastch
    ensures Result(win.View(), ok) == NextLine(old(win.View()))
  {
    ok := true;
    var y := win.cury + 1;
    if y > win.bmarg {
      y := y - 1;
      ok := Scrl(win, 1);
    }
    if ok {
      win.curx := 0;
      win.cury := y;
    }
  }

  /** The cursor's step, with the wrap at the end of a row. */
  method Advance(win: Window) returns (ok: bool)
    requires Ok(win.View())
    modifies win`cury, win`curx, win`y, win`firstch, win`lastch
    ensures Result(win.View(), ok) == Advanced(old(win.View()))
  {
    if win.curx + 1 >= win.maxx {
      ok := GoToNextLine(win);
    } else {
      win.curx := win.curx + 1;
      ok := true;
    }
  }

  /** The branch of `waddch` for a character that is not a control character. */
  method AddCell(win: Window, ch: Cell) returns (ok: bool)
    requires Ok(win.View())
    modifies win`cury, win`curx, win`y, win`firstch, win`lastch
    ensures Result(win.View(), ok) == AddedCell(old(win.View()), ch)
  {
    var text := ShowIn(ch, win.attrs, win.bkgd);
    PutMarks(win.View(), text);
    PutCell(win, text);
    ok := Advance(win);
  }

  lemma NextTabStop(x: nat, tabSize: nat)
    requires tabSize > 0
    ensures (x / tabSize + 1) * tabSize == x + (tabSize - x % tabSize)
  {
  }

  /** The loop over the cells up to the next tab stop. */
  method AddTab(win: Window, ch: Cell, tabSize: nat) returns (ok: bool)
    requires Ok(win.View()) && tabSize > 0
    modifies win`cury, win`curx, win`y, win`firstch, win`lastch
    ensures Result(win.View(), ok) == AddedCells(old(win.View()), ch, tabSize - old(win.curx) % tabSize)
  {
    var x, x2 := win.curx, (win.curx / tabSize + 1) * tabSize;
    NextTabStop(x, tabSize);
    ok := true;
    var going := true;
    ghost var all := AddedCells(win.View(), ch, x2 - x);
    while going && x < x2
      invariant x <= x2 && Ok(win.View())
      invariant all == if going then AddedCells(win.View(), ch, x2 - x) else Result(win.View(), ok)
      invariant going ==> ok
    {
      ok := AddCell(win, ch);
      going := ok && win.curx != 0;
      x := x + 1;
    }
  }

  method AddPair(win: Window, first: Cell, second: Cell) returns (ok: bool)
    requires Ok(win.View())
    modifies win`cury, win`curx, win`y, win`firstch, win`lastch
    ensures Result(win.View(), ok) == AddedPair(old(win.View()), first, second)
  {
    ok := AddCell(win, first);
    if ok {
      ok := AddCell(win, second);
    }
  }

  method AddLineFeed(win: Window) returns (ok: bool)
    requires Ok(win.View())
    modifies win`cury, win`curx, win`y, win`firstch, win`lastch
    ensures Marks(old(win.View()), ClearedToEol(old(win.View())))
    ensures Result(win.View(), ok) == NextLine(ClearedToEol(old(win.View())))
  {
    RowClearedMarks(win.View(), win.cury, win.curx);
    ClrToEol(win);
    ok := GoToNextLine(win);
  }

  method AddKind(win: Window, kind: Kind, tabSize: nat) returns (ok: bool)
    requires Ok(win.View()) && tabSize > 0
    modifies win`cury, win`curx, win`y, win`firstch, win`lastch
    ensures Result(win.View(), ok) == AddedKind(old(win.View()), kind, tabSize)
  {
    ok := true;
    match kind {
      case Plain(ch) =>
        ok := AddCell(win, ch);
      case Tab(blank) =>
        ok := AddTab(win, blank, tabSize);
      case LineFeed =>
        ok := AddLineFeed(win);
      case Backspace =>
        win.curx := if win.curx == 0 then 0 else win.curx - 1;
      case Return =>
        win.curx := 0;
      case Pair(first, second) =>
        ok := AddPair(win, first, second);
    }
  }

  /** `waddch`; its calls of itself, none of which is for a control character, are calls of `AddCell`. */
  method AddChar(win: Window, ch: Cell, t: Terminal) returns (ok: bool)
    requires Ok(win.View()) && t.tabSize > 0
    modifies win`cury, win`curx, win`y, win`firstch, win`lastch
    ensures Result(win.View(), ok) == AddedCh(old(win.View()), ch, t)
  {
    ok := AddKind(win, KindOf(ch, t), t.tabSize);
  }
}
