/** Making and resizing windows, of src/kernel/curses/window.c. */
module Resize {
  import opened Cells
  import opened CursesWindow
  import opened Clear
  import opened Overlay

  /** `LINES` and `COLS`, and the lines and columns of the screen. */
  datatype ScreenSize = ScreenSize(lines: int, cols: int, allLines: int, allCols: int)

  /** The size that `newwin` makes: 0 stands for the rest of the screen. */
  function Wanted(n: int, all: int, begin: int): int {
    if n == 0 then all - begin else n
  }

  /** Whether `newwin` makes a window: it must lie on the screen, and the memory for it must be granted. */
  predicate Makes(size: ScreenSize, nlines: int, ncols: int, begy: int, begx: int, memory: seq<nat>) {
    var rows, cols := Wanted(nlines, size.lines, begy), Wanted(ncols, size.cols, begx);
    begy + rows <= size.allLines && begx + cols <= size.allCols && 0 < rows <= |memory| && 0 < cols
  }

  method MakeErased(rows: nat, cols: nat, begy: nat, begx: nat, clear: bool, memory: seq<nat>) returns (win: Window)
    requires 0 < rows <= |memory| && 0 < cols && Distinct(memory)
    ensures Ok(Made(rows, cols, begy, begx, clear, memory))
    ensures fresh(win) && win.View() == Erased(Made(rows, cols, begy, begx, clear, memory))
  {
    MadeOk(rows, cols, begy, begx, clear, memory);
    win := new Window(rows, cols, begy, begx, clear, memory);
    Erase(win);
  }

  /**
   `newwin`. `memory` holds the buffers that are granted for lines, and nothing is granted for a size of 0 or less.
   */
  method NewWin(size: ScreenSize, nlines: int, ncols: int, begy: nat, begx: nat, memory: seq<nat>)
    returns (win: Window?)
    requires Distinct(memory)
    ensures win != null <==> Makes(size, nlines, ncols, begy, begx, memory)
    ensures win != null ==> fresh(win) && Ok(win.View()) && win.View() == New(size, nlines, ncols, begy, begx, memory)
  {
    var rows, cols := nlines, ncols;
    if rows == 0 {
      rows := size.lines - begy;
    }
    if cols == 0 {
      cols := size.cols - begx;
    }
    win := null;
    if begy + rows <= size.allLines && begx + cols <= size.allCols && 0 < rows <= |memory| && 0 < cols {
      win := MakeErased(rows, cols, begy, begx, rows == size.lines && cols == size.cols, memory);
    }
  }

  function New(size: ScreenSize, nlines: int, ncols: int, begy: nat, begx: nat, memory: seq<nat>): (v: Win)
    requires Distinct(memory) && Makes(size, nlines, ncols, begy, begx, memory)
    ensures Ok(v)
  {
    var rows, cols := Wanted(nlines, size.lines, begy), Wanted(ncols, size.cols, begx);
    var clear := rows == size.lines && cols == size.cols;
    MadeOk(rows, cols, begy, begx, clear, memory);
    Erased(Made(rows, cols, begy, begx, clear, memory))
  }

  lemma ClearedFromHomeMarks(home: Win, r: int, c: int)
    requires Ok(home) && home.cury == home.curx == 0 && 0 <= r < home.maxy && 0 <= c < home.maxx
    ensures Dirty(ClearedToBottom(home).firstch[r], ClearedToBottom(home).lastch[r], c)
  {
    assert RowOk(home, r) && RowOk(home, 0);
    if 1 < home.maxy {
      ClearedRowsAre(home, 1, home.maxy, r);
    }
  }

  /** Every cell of an erased window is background, and marked. */
  lemma ErasedIs(w: Win, r: int, c: int)
    requires Ok(w) && 0 <= r < w.maxy && 0 <= c < w.maxx
    ensures RowOk(Erased(w), r) && Erased(w).y[r] == Line(w.y[r].id, Erased(w).y[r].cells)
    ensures Erased(w).y[r].cells[c] == w.bkgd && Dirty(Erased(w).firstch[r], Erased(w).lastch[r], c)
  {
    var home := w.(cury := 0, curx := 0);
    SameRowsMark(w, home);
    assert RowOk(home, r) && RowOk(Erased(w), r);
    ClearedToBottomIs(home, r, c);
    ClearedFromHomeMarks(home, r, c);
  }

  lemma ErasedKeeps(w: Win)
    requires Ok(w)
    ensures var v := Erased(w);
      v == w.(y := v.y, firstch := v.firstch, lastch := v.lastch, cury := 0, curx := 0)
  {
    var home := w.(cury := 0, curx := 0);
    SameRowsMark(w, home);
  }

  /**
   A new window: where and as large as it is asked for, 0 being all that is left of the screen; blanks throughout, all
   marked; the cursor at home, no attributes, the whole window as scrolling region, and to be cleared if it is the screen.
   */
  lemma NewIs(size: ScreenSize, nlines: int, ncols: int, begy: nat, begx: nat, memory: seq<nat>, r: int, c: int)
    requires Distinct(memory) && Makes(size, nlines, ncols, begy, begx, memory)
    requires var v := New(size, nlines, ncols, begy, begx, memory);
      0 <= r < v.maxy && 0 <= c < v.maxx
    ensures var v := New(size, nlines, ncols, begy, begx, memory);
      && v.maxy == (if nlines == 0 then size.lines - begy else nlines)
      && v.maxx == (if ncols == 0 then size.cols - begx else ncols)
      && v.begy == begy && v.begx == begx && v.cury == v.curx == v.tmarg == 0 && v.bmarg == v.maxy - 1
      && v.attrs == 0 && v.bkgd == 0x20 && v.clear == (v.maxy == size.lines && v.maxx == size.cols)
      && !v.scroll && !v.leaveit
      && At(v, r, c) == 0x20 && Dirty(v.firstch[r], v.lastch[r], c) && v.y[r].id == memory[r]
  {
    var rows, cols := Wanted(nlines, size.lines, begy), Wanted(ncols, size.cols, begx);
    var clear := rows == size.lines && cols == size.cols;
    MadeOk(rows, cols, begy, begx, clear, memory);
    ErasedKeeps(Made(rows, cols, begy, begx, clear, memory));
    ErasedIs(Made(rows, cols, begy, begx, clear, memory), r, c);
  }

  /** A new window keeps its record of differences from any screen that it lies on: all of it is marked. */
  lemma NewTracks(size: ScreenSize, nlines: int, ncols: int, begy: nat, begx: nat, memory: seq<nat>, s: Win)
    requires Distinct(memory) && Makes(size, nlines, ncols, begy, begx, memory)
    requires Shaped(s) && Within(New(size, nlines, ncols, begy, begx, memory), s)
    ensures Tracks(New(size, nlines, ncols, begy, begx, memory), s)
  {
    var rows, cols := Wanted(nlines, size.lines, begy), Wanted(ncols, size.cols, begx);
    var clear := rows == size.lines && cols == size.cols;
    MadeOk(rows, cols, begy, begx, clear, memory);
    var made, v := Made(rows, cols, begy, begx, clear, memory), New(size, nlines, ncols, begy, begx, memory);
    forall r, c ensures CellTracked(v, s, r, c) {
      if 0 <= r < v.maxy && 0 <= c < v.maxx {
        ErasedIs(made, r, c);
      }
    }
  }

  /** A blank window of another size, with the background of the old one. */
  function Blank(w: Win, nlines: nat, ncols: nat, memory: seq<nat>): (v: Win)
    requires 0 < nlines <= |memory| && 0 < ncols && Distinct(memory)
    ensures Ok(v)
  {
    MadeOk(nlines, ncols, w.begy, w.begx, w.clear, memory);
    var made := Made(nlines, ncols, w.begy, w.begx, w.clear, memory);
    SameRowsMark(made, made.(bkgd := w.bkgd));
    Erased(made.(bkgd := w.bkgd))
  }

  /** The cells that both sizes have, copied. */
  function Kept(w: Win, blank: Win): (v: Win)
    requires Shaped(w) && Shaped(blank)
    ensures Marks(blank, v) && v == blank.(y := v.y, firstch := v.firstch, lastch := v.lastch)
  {
    var a := Area(0, 0, 0, 0, Min(w.maxy, blank.maxy), Min(w.maxx, blank.maxx));
    CopiedRows(w, blank, a, a.rows, false).win
  }

  function Settings(w: Win, made: Win): Win {
    made.(attrs := w.attrs, scroll := w.scroll, leaveit := w.leaveit)
  }

  function Fitted(w: Win, made: Win): Win {
    made.(tmarg := if w.tmarg > made.maxy - 1 then 0 else w.tmarg,
          bmarg := if w.bmarg == w.maxy - 1 then made.maxy - 1 else Min(w.bmarg, made.maxy - 1),
          curx := Min(w.curx, made.maxx - 1), cury := Min(w.cury, made.maxy - 1))
  }

  /** `resize_window`. */
  function Resized(w: Win, nlines: nat, ncols: nat, memory: seq<nat>): Win
    requires Ok(w) && 0 < nlines <= |memory| && 0 < ncols && Distinct(memory)
  {
    Fitted(w, Settings(w, Kept(w, Blank(w, nlines, ncols, memory))))
  }

  lemma BlankIs(w: Win, nlines: nat, ncols: nat, memory: seq<nat>, r: int, c: int)
    requires 0 < nlines <= |memory| && 0 < ncols && Distinct(memory) && 0 <= r < nlines && 0 <= c < ncols
    ensures var v := Blank(w, nlines, ncols, memory);
      && v.maxy == nlines && v.maxx == ncols && v.begy == w.begy && v.begx == w.begx && RowOk(v, r)
      && v.y[r].cells[c] == w.bkgd && Dirty(v.firstch[r], v.lastch[r], c)
  {
    MadeOk(nlines, ncols, w.begy, w.begx, w.clear, memory);
    var made := Made(nlines, ncols, w.begy, w.begx, w.clear, memory);
    SameRowsMark(made, made.(bkgd := w.bkgd));
    ErasedIs(made.(bkgd := w.bkgd), r, c);
  }

  lemma BlankKeeps(w: Win, nlines: nat, ncols: nat, memory: seq<nat>)
    requires 0 < nlines <= |memory| && 0 < ncols && Distinct(memory)
    ensures var v := Blank(w, nlines, ncols, memory);
      v.maxy == nlines && v.maxx == ncols && v.bkgd == w.bkgd && v.clear == w.clear
  {
    MadeOk(nlines, ncols, w.begy, w.begx, w.clear, memory);
    var made := Made(nlines, ncols, w.begy, w.begx, w.clear, memory);
    SameRowsMark(made, made.(bkgd := w.bkgd));
    ErasedKeeps(made.(bkgd := w.bkgd));
  }

  /** A place of a resized window has the cell that the old window had there, or background, and is marked. */
  ghost predicate KeptAt(w: Win, v: Win, r: int, c: int)
    requires Shaped(w) && Shaped(v) && 0 <= r < v.maxy && 0 <= c < v.maxx
  {
    && RowOk(v, r) && RowOk(w, r)
    && v.y[r].cells[c] == (if r < w.maxy && c < w.maxx then w.y[r].cells[c] else w.bkgd)
    && Dirty(v.firstch[r], v.lastch[r], c)
  }

  lemma KeptCell(w: Win, blank: Win, kept: Win, a: Area, r: int, c: int)
    requires Shaped(w) && Shaped(blank) && AreaOk(w, blank, a) && 0 <= r < blank.maxy && 0 <= c < blank.maxx
    requires a == Area(0, 0, 0, 0, Min(w.maxy, blank.maxy), Min(w.maxx, blank.maxx))
    requires Shaped(kept) && kept.maxy == blank.maxy && kept.maxx == blank.maxx
    requires AreaCopiedAt(w, blank, kept, a, a.rows, false, r, c) && CellMarked(blank, kept, r, c)
    requires RowOk(blank, r) && blank.y[r].cells[c] == w.bkgd && Dirty(blank.firstch[r], blank.lastch[r], c)
    ensures KeptAt(w, kept, r, c)
  {
    assert RowOk(w, r);
  }

  lemma KeptIs(w: Win, blank: Win, r: int, c: int)
    requires Shaped(w) && Shaped(blank) && 0 <= r < blank.maxy && 0 <= c < blank.maxx && RowOk(blank, r)
    requires blank.y[r].cells[c] == w.bkgd && Dirty(blank.firstch[r], blank.lastch[r], c)
    ensures KeptAt(w, Kept(w, blank), r, c)
  {
    var a := Area(0, 0, 0, 0, Min(w.maxy, blank.maxy), Min(w.maxx, blank.maxx));
    CopiedRowsAre(w, blank, a, a.rows, false, r, c);
    assert CellMarked(blank, Kept(w, blank), r, c);
    KeptCell(w, blank, Kept(w, blank), a, r, c);
  }

  lemma FittedOk(w: Win, kept: Win)
    requires Ok(w) && Ok(kept)
    ensures var v := Fitted(w, Settings(w, kept));
      && Ok(v)
      && v == kept.(attrs := v.attrs, scroll := v.scroll, leaveit := v.leaveit, tmarg := v.tmarg, bmarg := v.bmarg,
                    curx := v.curx, cury := v.cury)
  {
    SameRowsMark(kept, Fitted(w, Settings(w, kept)));
  }

  /**
   Resizing keeps the common top left rectangle, fills the rest with background, and leaves cursor and margins in
   range; every cell is marked.
   */
  lemma ResizedIs(w: Win, nlines: nat, ncols: nat, memory: seq<nat>, r: int, c: int)
    requires Ok(w) && 0 < nlines <= |memory| && 0 < ncols && Distinct(memory)
    requires 0 <= r < nlines && 0 <= c < ncols
    ensures var v := Resized(w, nlines, ncols, memory);
      && Ok(v) && v.maxy == nlines && v.maxx == ncols && v.begy == w.begy && v.begx == w.begx
      && KeptAt(w, v, r, c)
  {
    var blank := Blank(w, nlines, ncols, memory);
    BlankIs(w, nlines, ncols, memory, r, c);
    KeptIs(w, blank, r, c);
    FittedOk(w, Kept(w, blank));
  }

  /** Colors, background and settings stay; cursor and margins stay where the new size has room for them. */
  lemma SettingsAre(w: Win, nlines: nat, ncols: nat, memory: seq<nat>)
    requires Ok(w) && 0 < nlines <= |memory| && 0 < ncols && Distinct(memory)
    ensures var v := Resized(w, nlines, ncols, memory);
      && v.attrs == w.attrs && v.bkgd == w.bkgd
      && v.scroll == w.scroll && v.leaveit == w.leaveit && v.clear == w.clear
      && v.cury == (if w.cury < nlines then w.cury else nlines - 1)
      && v.curx == (if w.curx < ncols then w.curx else ncols - 1)
      && v.tmarg == (if w.tmarg < nlines then w.tmarg else 0)
      && v.bmarg == (if w.bmarg < nlines && w.bmarg != w.maxy - 1 then w.bmarg else nlines - 1)
  {
    var blank := Blank(w, nlines, ncols, memory);
    BlankKeeps(w, nlines, ncols, memory);
    assert Kept(w, blank).bkgd == w.bkgd && Kept(w, blank).clear == w.clear;
  }

  /** So the resized window keeps its record of differences from any screen that it lies on. */
  lemma ResizedTracks(w: Win, nlines: nat, ncols: nat, memory: seq<nat>, s: Win)
    requires Ok(w) && 0 < nlines <= |memory| && 0 < ncols && Distinct(memory)
    requires Shaped(s) && Within(Resized(w, nlines, ncols, memory), s)
    ensures Tracks(Resized(w, nlines, ncols, memory), s)
  {
    var v := Resized(w, nlines, ncols, memory);
    ResizedIs(w, nlines, ncols, memory, 0, 0);
    forall r, c ensures CellTracked(v, s, r, c) {
      if 0 <= r < nlines && 0 <= c < ncols {
        ResizedIs(w, nlines, ncols, memory, r, c);
      }
    }
  }

  /** `*win = *made`: geometry, cursor and margins; settings; and rows. */
  method Replace(win: Window, made: Window)
    requires win != made
    modifies win
    ensures win.View() == made.View()
  {
    Place(win, made.View());
    Set(win, made.View());
    win.y, win.firstch, win.lastch := made.y, made.firstch, made.lastch;
  }

  method Place(win: Window, v: Win)
    modifies win`maxy, win`maxx, win`begy, win`begx, win`cury, win`curx, win`tmarg, win`bmarg
    ensures win.View() == old(win.View()).(maxy := v.maxy, maxx := v.maxx, begy := v.begy, begx := v.begx,
                                           cury := v.cury, curx := v.curx, tmarg := v.tmarg, bmarg := v.bmarg)
  {
    win.maxy, win.maxx, win.begy, win.begx := v.maxy, v.maxx, v.begy, v.begx;
    win.cury, win.curx, win.tmarg, win.bmarg := v.cury, v.curx, v.tmarg, v.bmarg;
  }

  method Set(win: Window, v: Win)
    modifies win`attrs, win`bkgd, win`clear, win`leaveit, win`scroll
    ensures win.View() == old(win.View()).(attrs := v.attrs, bkgd := v.bkgd, clear := v.clear, leaveit := v.leaveit,
                                           scroll := v.scroll)
  {
    win.attrs, win.bkgd, win.clear, win.leaveit, win.scroll := v.attrs, v.bkgd, v.clear, v.leaveit, v.scroll;
  }

  method MakeBlank(win: Window, nlines: nat, ncols: nat, memory: seq<nat>) returns (made: Window)
    requires 0 < nlines <= |memory| && 0 < ncols && Distinct(memory)
    ensures fresh(made) && made.View() == Blank(win.View(), nlines, ncols, memory)
  {
    MadeOk(nlines, ncols, win.begy, win.begx, win.clear, memory);
    made := new Window(nlines, ncols, win.begy, win.begx, win.clear, memory);
    ghost var m := made.View();
    made.bkgd := win.bkgd;
    SameRowsMark(m, made.View());
    Erase(made);
  }

  method MakeKept(win: Window, nlines: nat, ncols: nat, memory: seq<nat>) returns (made: Window)
    requires Ok(win.View()) && 0 < nlines <= |memory| && 0 < ncols && Distinct(memory)
    ensures fresh(made) && made.View() == Kept(win.View(), Blank(win.View(), nlines, ncols, memory))
  {
    made := MakeBlank(win, nlines, ncols, memory);
    var bottom, right := Min(win.maxy, made.maxy) - 1, Min(win.maxx, made.maxx) - 1;
    var copied := CopyRectangle(win, made, 0, 0, 0, 0, bottom, right, false);
  }

  method TakeSettings(win: Window, made: Window)
    requires win != made
    modifies made`attrs, made`leaveit, made`scroll
    ensures made.View() == Settings(win.View(), old(made.View()))
  {
    made.attrs, made.leaveit, made.scroll := win.attrs, win.leaveit, win.scroll;
  }

  /** The margins and the cursor, brought into range. */
  method FitPlaces(win: Window, made: Window)
    requires win != made
    modifies made`tmarg, made`bmarg, made`curx, made`cury
    ensures made.View() == Fitted(win.View(), old(made.View()))
  {
    var tmarg := if win.tmarg > made.maxy - 1 then 0 else win.tmarg;
    var bmarg := if win.bmarg == win.maxy - 1 then made.maxy - 1 else Min(win.bmarg, made.maxy - 1);
    made.tmarg, made.bmarg := tmarg, bmarg;
    made.curx, made.cury := Min(win.curx, made.maxx - 1), Min(win.cury, made.maxy - 1);
  }

  /** `resize_window` of a window that has no parent. */
  method ResizeWindow(win: Window, nlines: nat, ncols: nat, memory: seq<nat>) returns (ok: bool)
    requires Ok(win.View()) && Distinct(memory)
    modifies win
    ensures ok == (0 < nlines <= |memory| && 0 < ncols)
    ensures Ok(old(win.View()))
    ensures win.View() == if ok then Resized(old(win.View()), nlines, ncols, memory) else old(win.View())
  {
    ok := 0 < nlines <= |memory| && 0 < ncols;
    if ok {
      var made := MakeKept(win, nlines, ncols, memory);
      TakeSettings(win, made);
      FitPlaces(win, made);
      Replace(win, made);
    }
  }
}
