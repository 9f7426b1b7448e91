/** Clearing of src/kernel/curses/clear.c, and cursor moves of src/kernel/curses/move.c. */
module Clear {
  import opened Cells
  import opened CursesWindow

  /** Row `r` is background from column `x` on, and marked from there or from where it was marked before. */
  function RowCleared(w: Win, r: int, x: int): (v: Win)
    requires Shaped(w) && 0 <= r < w.maxy && 0 <= x < w.maxx
  {
    assert RowOk(w, r);
    var first := w.firstch[r];
    WithRow(w, r, Filled(w.y[r].cells, x, w.maxx, w.bkgd), if x < first || first == NO_CHANGE then x else first,
            w.maxx - 1)
  }

  lemma RowClearedMarks(w: Win, r: int, x: int)
    requires Shaped(w) && 0 <= r < w.maxy && 0 <= x < w.maxx
    ensures Marks(w, RowCleared(w, r, x))
  {
    assert RowOk(w, r);
    var v := RowCleared(w, r, x);
    WithRowMarks(w, r, v.y[r].cells, v.firstch[r], v.lastch[r]);
  }

  /** `wclrtoeol`: the rest of the cursor's row. */
  function ClearedToEol(w: Win): Win
    requires Shaped(w) && 0 <= w.cury < w.maxy && 0 <= w.curx < w.maxx
  {
    RowCleared(w, w.cury, w.curx)
  }

  method ClrToEol(win: Window)
    requires Shaped(win.View()) && 0 <= win.cury < win.maxy && 0 <= win.curx < win.maxx
    modifies win`y, win`firstch, win`lastch
    ensures win.View() == ClearedToEol(old(win.View()))
  {
    ghost var w := win.View();
    assert RowOk(w, w.cury);
    ghost var row := win.y[win.cury].cells;
    var y, x, blank := win.cury, win.curx, win.bkgd;
    var minx := x;
    FilledNone(row, x, blank);
    while minx < win.maxx
      modifies win`y
      invariant x <= minx <= win.maxx
      invariant win.y == w.y[y := w.y[y].(cells := Filled(row, x, minx, blank))]
    {
      win.Write(y, minx, blank);
      FilledNext(row, x, minx, blank);
      minx := minx + 1;
    }
    if x < win.firstch[y] || win.firstch[y] == NO_CHANGE {
      win.firstch := win.firstch[y := x];
    }
    win.lastch := win.lastch[y := win.maxx - 1];
  }

  /** Rows `from` to `end` cleared one after the other. */
  function ClearedRows(w: Win, from: int, end: int): (v: Win)
    requires Shaped(w) && 0 <= from <= end <= w.maxy
    ensures Marks(w, v) && v == w.(y := v.y, firstch := v.firstch, lastch := v.lastch)
    decreases end
  {
    MarksItself(w);
    if from == end then w
    else
      var v := ClearedRows(w, from, end - 1);
      RowClearedMarks(v, end - 1, 0);
      MarksTransitive(w, v, RowCleared(v, end - 1, 0));
      RowCleared(v, end - 1, 0)
  }

  /** `wclrtobot`: the rows below the cursor, and then the rest of its row. */
  function ClearedToBottom(w: Win): (v: Win)
    requires Ok(w)
    ensures Marks(w, v)
  {
    var below := if w.cury + 1 < w.maxy then ClearedRows(w, w.cury + 1, w.maxy) else w;
    MarksItself(w);
    RowClearedMarks(below, w.cury, w.curx);
    MarksTransitive(w, below, ClearedToEol(below));
    ClearedToEol(below)
  }

  /** Every row from `from` to `end` is background throughout and marked throughout; the others are as they were. */
  lemma {:induction false} ClearedRowsAre(w: Win, from: int, end: int, r: int)
    requires Shaped(w) && 0 <= from <= end <= w.maxy && 0 <= r < w.maxy
    ensures var v := ClearedRows(w, from, end);
      if from <= r < end
      then v.y[r] == Line(w.y[r].id, seq(w.maxx, _ => w.bkgd)) && v.firstch[r] == 0 && v.lastch[r] == w.maxx - 1
      else v.y[r] == w.y[r] && v.firstch[r] == w.firstch[r] && v.lastch[r] == w.lastch[r]
    decreases end
  {
    if from < end {
      var v := ClearedRows(w, from, end - 1);
      ClearedRowsAre(w, from, end - 1, r);
      assert RowOk(v, end - 1);
      assert Filled(v.y[end - 1].cells, 0, v.maxx, v.bkgd) == seq(w.maxx, _ => w.bkgd);
    }
  }

  /** What the clears leave: background from the cursor on, row by row, and all else as it was. */
  lemma ClearedToBottomIs(w: Win, r: int, c: int)
    requires Ok(w) && 0 <= r < w.maxy && 0 <= c < w.maxx && RowOk(w, r) && RowOk(ClearedToBottom(w), r)
    ensures ClearedToBottom(w).y[r].id == w.y[r].id
    ensures ClearedToBottom(w).y[r].cells[c]
         == if r > w.cury || (r == w.cury && c >= w.curx) then w.bkgd else w.y[r].cells[c]
  {
    assert RowOk(w, w.cury);
    if w.cury + 1 < w.maxy {
      ClearedRowsAre(w, w.cury + 1, w.maxy, r);
      ClearedRowsAre(w, w.cury + 1, w.maxy, w.cury);
    }
  }

  /** The window after rows `from` to `end`, with the cursor at the start of the next row. */
  function Cleaning(w: Win, from: int, end: int): Win
    requires Shaped(w) && 0 <= from <= end <= w.maxy
  {
    ClearedRows(w, from, end).(cury := end, curx := 0)
  }

  lemma NextRow(w: Win, from: int, end: int)
    requires Shaped(w) && 0 <= from <= end < w.maxy
    ensures Shaped(Cleaning(w, from, end))
    ensures ClearedToEol(Cleaning(w, from, end)).(cury := end + 1) == Cleaning(w, from, end + 1)
  {
    SameRowsMark(ClearedRows(w, from, end), Cleaning(w, from, end));
  }

  /** One turn of the loop of `wclrtobot`. */
  method ClrNext(win: Window, ghost w: Win, ghost from: int)
    requires Shaped(w) && 0 <= from <= win.cury < w.maxy && win.View() == Cleaning(w, from, win.cury)
    modifies win`cury, win`y, win`firstch, win`lastch
    ensures win.cury == old(win.cury) + 1 && win.View() == Cleaning(w, from, win.cury)
  {
    NextRow(w, from, win.cury);
    ClrToEol(win);
    win.cury := win.cury + 1;
  }

  lemma CleaningStarts(w: Win, from: int)
    requires Shaped(w) && 0 <= from <= w.maxy
    ensures Cleaning(w, from, from) == w.(cury := from, curx := 0)
  {
  }

  lemma CleaningEnds(w: Win, from: int)
    requires Shaped(w) && 0 <= from <= w.maxy
    ensures Cleaning(w, from, w.maxy).(cury := w.cury, curx := w.curx) == ClearedRows(w, from, w.maxy)
  {
  }

  /** The loop of `wclrtobot`, which moves the cursor down. */
  method ClrRows(win: Window, ghost w: Win)
    requires Shaped(w) && 0 <= win.cury <= w.maxy && win.View() == Cleaning(w, win.cury, win.cury)
    modifies win`cury, win`y, win`firstch, win`lastch
    ensures win.View() == Cleaning(w, old(win.cury), w.maxy)
  {
    ghost var from := win.cury;
    while win.maxy > win.cury
      invariant from <= win.cury <= w.maxy == win.maxy && win.View() == Cleaning(w, from, win.cury)
    {
      ClrNext(win, w, from);
    }
  }

  method ClrBelow(win: Window)
    requires Ok(win.View()) && win.cury + 1 < win.maxy
    modifies win`cury, win`curx, win`y, win`firstch, win`lastch
    ensures win.View() == ClearedRows(old(win.View()), old(win.cury) + 1, win.maxy)
  {
    ghost var w := win.View();
    var savey, savex := win.cury, win.curx;
    win.curx := 0;
    win.cury := win.cury + 1;
    CleaningStarts(w, savey + 1);
    ClrRows(win, w);
    CleaningEnds(w, savey + 1);
    win.cury := savey;
    win.curx := savex;
  }

  method ClrToBot(win: Window)
    requires Ok(win.View())
    modifies win`cury, win`curx, win`y, win`firstch, win`lastch
    ensures win.View() == ClearedToBottom(old(win.View()))
  {
    if win.cury + 1 < win.maxy {
      ClrBelow(win);
    }
    ClrToEol(win);
  }

  /** `wmove`. */
  method Move(win: Window, y: int, x: int) returns (ok: bool)
    modifies win`cury, win`curx
    ensures ok == (0 <= x < win.maxx && 0 <= y < win.maxy)
    ensures win.View() == if ok then old(win.View()).(cury := y, curx := x) else old(win.View())
  {
    ok := !(x < 0 || y < 0 || x >= win.maxx || y >= win.maxy);
    if ok {
      win.curx := x;
      win.cury := y;
    }
  }

  /** `werase`. */
  function Erased(w: Win): (v: Win)
    requires Ok(w)
    ensures Marks(w, v) && Ok(v)
  {
    var home := w.(cury := 0, curx := 0);
    SameRowsMark(w, home);
    MarksTransitive(w, home, ClearedToBottom(home));
    ClearedToBottom(home)
  }

  method Erase(win: Window)
    requires Ok(win.View())
    modifies win`cury, win`curx, win`y, win`firstch, win`lastch
    ensures win.View() == Erased(old(win.View()))
  {
    var ok := Move(win, 0, 0);
    if ok {
      SameRowsMark(old(win.View()), win.View());
      ClrToBot(win);
    }
  }
}
