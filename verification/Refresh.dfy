/** Copying a window to the screen image, `wnoutrefresh` of src/kernel/curses/refresh.c. */
module Refresh {
  import opened Cells
  import opened CursesWindow
  import opened Border

  /** `t` put into `s` from place `x` on. */
  function Spliced<T>(s: seq<T>, x: int, t: seq<T>): (r: seq<T>)
    requires 0 <= x && x + |t| <= |s|
    ensures |r| == |s|
    ensures forall c :: 0 <= c < |r| ==> r[c] == if x <= c < x + |t| then t[c - x] else s[c]
  {
    seq(|s|, c requires 0 <= c < |s| => if x <= c < x + |t| then t[c - x] else s[c])
  }

  /** The first column from `first` to `last` where two rows differ, the second one `begx` columns on. */
  function FirstDifference(src: seq<Cell>, dest: seq<Cell>, begx: nat, first: int, last: int): (f: int)
    requires 0 <= first <= last + 1 && last < |src| && begx + |src| <= |dest|
    ensures first <= f <= last + 1
    ensures forall c :: first <= c < f ==> src[c] == dest[begx + c]
    ensures f <= last ==> src[f] != dest[begx + f]
    decreases last + 1 - first
  {
    if first <= last && src[first] == dest[begx + first] then FirstDifference(src, dest, begx, first + 1, last) else first
  }

  /** The last one. */
  function LastDifference(src: seq<Cell>, dest: seq<Cell>, begx: nat, first: int, last: int): (l: int)
    requires 0 <= first <= last + 1 && last < |src| && begx + |src| <= |dest|
    ensures first - 1 <= l <= last
    ensures forall c :: l < c <= last ==> src[c] == dest[begx + c]
    decreases last + 1 - first
  {
    if last >= first && src[last] == dest[begx + last] then LastDifference(src, dest, begx, first, last - 1) else last
  }

  /** The columns of a row that are really changed, from the first to the last. */
  function Trimmed(w: Win, s: Win, i: int): (r: (int, int))
    requires Shaped(w) && Shaped(s) && Within(w, s) && 0 <= i < w.maxy && w.firstch[i] != NO_CHANGE
    ensures 0 <= r.0 <= r.1 + 1 && r.1 < w.maxx
  {
    assert RowOk(w, i) && RowOk(s, w.begy + i);
    var src, dest := w.y[i].cells, s.y[w.begy + i].cells;
    var first := FirstDifference(src, dest, w.begx, w.firstch[i], w.lastch[i]);
    (first, LastDifference(src, dest, w.begx, first, w.lastch[i]))
  }

  /** Columns `first` to `last` of row `i` of the window, copied to the screen image and marked there. */
  function ColumnsCopied(w: Win, s: Win, i: int, first: int, last: int): (v: Win)
    requires Shaped(w) && Shaped(s) && Within(w, s) && 0 <= i < w.maxy && 0 <= first <= last < w.maxx
  {
    assert RowOk(w, i) && RowOk(s, w.begy + i);
    var j := w.begy + i;
    var marked := Widened(s.firstch[j], s.lastch[j], w.begx + first, w.begx + last);
    WithRow(s, j, Spliced(s.y[j].cells, w.begx + first, w.y[i].cells[first..last + 1]), marked.0, marked.1)
  }

  lemma ColumnsCopiedMark(w: Win, s: Win, i: int, first: int, last: int)
    requires Shaped(w) && Shaped(s) && Within(w, s) && 0 <= i < w.maxy && 0 <= first <= last < w.maxx
    ensures Marks(s, ColumnsCopied(w, s, i, first, last))
  {
    assert RowOk(w, i) && RowOk(s, w.begy + i);
    var v, j := ColumnsCopied(w, s, i, first, last), w.begy + i;
    WithRowMarks(s, j, v.y[j].cells, v.firstch[j], v.lastch[j]);
  }

  /** The screen image after row `i` of the window has been copied to it. */
  function RowCopied(w: Win, s: Win, i: int): (v: Win)
    requires Shaped(w) && Shaped(s) && Within(w, s) && 0 <= i < w.maxy
    ensures Marks(s, v) && v == s.(y := v.y, firstch := v.firstch, lastch := v.lastch)
  {
    MarksItself(s);
    if w.firstch[i] == NO_CHANGE || Trimmed(w, s, i).0 > Trimmed(w, s, i).1 then s
    else
      ColumnsCopiedMark(w, s, i, Trimmed(w, s, i).0, Trimmed(w, s, i).1);
      ColumnsCopied(w, s, i, Trimmed(w, s, i).0, Trimmed(w, s, i).1)
  }

  /** Outside the columns that are copied, the row of a tracked window is on the screen image already. */
  lemma TrimmedAway(w: Win, s: Win, i: int, c: int)
    requires Tracks(w, s) && 0 <= i < w.maxy && 0 <= c < w.maxx
    requires w.firstch[i] == NO_CHANGE || !(Trimmed(w, s, i).0 <= c <= Trimmed(w, s, i).1)
    ensures At(w, i, c) == At(s, w.begy + i, w.begx + c)
  {
    assert RowOk(w, i) && RowOk(s, w.begy + i) && CellTracked(w, s, i, c);
  }

  lemma ColumnsCopiedAt(w: Win, s: Win, i: int, first: int, last: int, r: int, c: int)
    requires Shaped(w) && Shaped(s) && Within(w, s) && 0 <= i < w.maxy && 0 <= first <= last < w.maxx
    requires 0 <= r < s.maxy && 0 <= c < s.maxx && Shaped(ColumnsCopied(w, s, i, first, last))
    ensures At(ColumnsCopied(w, s, i, first, last), r, c)
         == if r == w.begy + i && first <= c - w.begx <= last then At(w, i, c - w.begx) else At(s, r, c)
  {
    assert RowOk(w, i) && RowOk(s, r);
  }

  /** In the image `v`, a place in row `i` of the window shows it, and any other place is as in `s`. */
  ghost predicate RowShown(w: Win, s: Win, v: Win, i: int, r: int, c: int) {
    && Shaped(w) && Shaped(s) && Shaped(v) && v.maxy == s.maxy && v.maxx == s.maxx && 0 <= i < w.maxy
    && 0 <= r < s.maxy && 0 <= c < s.maxx
    && At(v, r, c) == if r == w.begy + i && 0 <= c - w.begx < w.maxx then At(w, i, c - w.begx) else At(s, r, c)
  }

  /** The columns `first` to `last` are copied, and the others are on the image already. */
  lemma ColumnsShowRow(w: Win, s: Win, v: Win, i: int, first: int, last: int, r: int, c: int)
    requires Shaped(w) && Shaped(s) && Within(w, s) && 0 <= i < w.maxy && 0 <= first && last < w.maxx
    requires 0 <= r < s.maxy && 0 <= c < s.maxx && Shaped(v)
    requires v == if first > last then s else ColumnsCopied(w, s, i, first, last)
    requires r == w.begy + i && 0 <= c - w.begx < w.maxx && !(first <= c - w.begx <= last) ==>
      At(w, i, c - w.begx) == At(s, r, c)
    ensures RowShown(w, s, v, i, r, c)
  {
    if first <= last {
      ColumnsCopiedAt(w, s, i, first, last, r, c);
    }
  }

  /** Where the window was tracked, its row is now on the screen image, and nothing else of the image has changed. */
  lemma RowCopiedIs(w: Win, s: Win, i: int, r: int, c: int)
    requires Tracks(w, s) && 0 <= i < w.maxy && 0 <= r < s.maxy && 0 <= c < s.maxx
    ensures RowShown(w, s, RowCopied(w, s, i), i, r, c)
  {
    var (first, last) := if w.firstch[i] == NO_CHANGE then (0, -1) else Trimmed(w, s, i);
    if r == w.begy + i && 0 <= c - w.begx < w.maxx && !(first <= c - w.begx <= last) {
      TrimmedAway(w, s, i, c - w.begx);
    }
    ColumnsShowRow(w, s, RowCopied(w, s, i), i, first, last, r, c);
  }

  lemma RowShownKeepsCell(w: Win, s: Win, v: Win, i: int, r: int, c: int)
    requires Within(w, s) && 0 <= r < w.maxy && 0 <= c < w.maxx && RowShown(w, s, v, i, w.begy + r, w.begx + c)
    requires CellTracked(w, s, r, c)
    ensures CellTracked(w, v, r, c)
  {
  }

  lemma RowKeepsTracked(w: Win, s: Win, v: Win, i: int)
    requires Tracks(w, s) && 0 <= i < w.maxy && v == RowCopied(w, s, i)
    ensures Tracks(w, v)
  {
    forall r, c ensures CellTracked(w, v, r, c) {
      if 0 <= r < w.maxy && 0 <= c < w.maxx {
        RowCopiedIs(w, s, i, w.begy + r, w.begx + c);
        assert CellTracked(w, s, r, c);
        RowShownKeepsCell(w, s, v, i, r, c);
      }
    }
  }

  /** The first `n` rows copied. */
  function RowsCopied(w: Win, s: Win, n: nat): (v: Win)
    requires Shaped(w) && Shaped(s) && Within(w, s) && n <= w.maxy
    ensures Marks(s, v) && v == s.(y := v.y, firstch := v.firstch, lastch := v.lastch)
  {
    MarksItself(s);
    if n == 0 then s
    else
      var v := RowsCopied(w, s, n - 1);
      MarksTransitive(s, v, RowCopied(w, v, n - 1));
      RowCopied(w, v, n - 1)
  }

  /** The cell of a screen image with the first `n` rows of a window painted over it. */
  function Painted(w: Win, s: Win, n: int, r: int, c: int): Cell
    requires Shaped(w) && Shaped(s) && Within(w, s) && n <= w.maxy && 0 <= r < s.maxy && 0 <= c < s.maxx
  {
    if 0 <= r - w.begy < n && 0 <= c - w.begx < w.maxx then At(w, r - w.begy, c - w.begx) else At(s, r, c)
  }

  /** In the image `v`, a place is as in `s` with the first `n` rows of a window painted over it. */
  ghost predicate PaintedTo(w: Win, s: Win, v: Win, n: int, r: int, c: int) {
    && Shaped(w) && Shaped(s) && Within(w, s) && Shaped(v) && v.maxy == s.maxy && v.maxx == s.maxx && n <= w.maxy
    && 0 <= r < s.maxy && 0 <= c < s.maxx && At(v, r, c) == Painted(w, s, n, r, c)
  }

  lemma NextRowPainted(w: Win, s: Win, before: Win, after: Win, n: int, r: int, c: int)
    requires Tracks(w, before) && 0 < n <= w.maxy && after == RowCopied(w, before, n - 1)
    requires PaintedTo(w, s, before, n - 1, r, c)
    ensures Tracks(w, after) && PaintedTo(w, s, after, n, r, c)
  {
    RowKeepsTracked(w, before, after, n - 1);
    RowCopiedIs(w, before, n - 1, r, c);
  }

  /** A tracked window copied row by row is the same as painting all of it. */
  lemma {:induction false} RowsCopiedAre(w: Win, s: Win, n: nat, r: int, c: int)
    requires Tracks(w, s) && n <= w.maxy && 0 <= r < s.maxy && 0 <= c < s.maxx
    ensures Tracks(w, RowsCopied(w, s, n)) && PaintedTo(w, s, RowsCopied(w, s, n), n, r, c)
  {
    if n > 0 {
      RowsCopiedAre(w, s, n - 1, r, c);
      NextRowPainted(w, s, RowsCopied(w, s, n - 1), RowsCopied(w, s, n), n, r, c);
    }
  }

  /** `wnoutrefresh`: the screen image, and the window, which is clean. */
  function CopiedOut(w: Win, s: Win): (v: Win)
    requires Shaped(w) && Shaped(s) && Within(w, s)
  {
    var v := RowsCopied(w, s, w.maxy);
    if w.leaveit then v else v.(cury := w.cury + w.begy, curx := w.curx + w.begx)
  }

  function Clean(w: Win): Win {
    w.(firstch := seq(w.maxy, _ => NO_CHANGE), lastch := seq(w.maxy, _ => NO_CHANGE), clear := false)
  }

  /**
   What `wnoutrefresh` achieves for a tracked window: the image shows the window where it lies, and is otherwise as it
   was; it has marked what has changed; its cursor is the window's, unless the window leaves it; and the window is clean
   and still tracked.
   */
  lemma CopiedOutIs(w: Win, s: Win)
    requires Tracks(w, s)
    ensures var v := CopiedOut(w, s);
      && Marks(s, v) && Tracks(Clean(w), v)
      && v == s.(y := v.y, firstch := v.firstch, lastch := v.lastch, cury := v.cury, curx := v.curx)
      && v.cury == (if w.leaveit then s.cury else w.begy + w.cury)
      && v.curx == (if w.leaveit then s.curx else w.begx + w.curx)
      && forall r, c :: PaintedAt(w, s, v, r, c)
  {
    var v, rows := CopiedOut(w, s), RowsCopied(w, s, w.maxy);
    SameRowsMark(rows, v);
    MarksTransitive(s, rows, v);
    forall r, c ensures PaintedAt(w, s, v, r, c) {
      if 0 <= r < s.maxy && 0 <= c < s.maxx {
        RowsCopiedAre(w, s, w.maxy, r, c);
      }
    }
    var clean := Clean(w);
    forall r ensures RowOk(clean, r) {
      assert RowOk(w, r);
    }
    forall r, c ensures CellTracked(clean, v, r, c) {
      assert PaintedAt(w, s, v, w.begy + r, w.begx + c);
    }
  }

  ghost predicate PaintedAt(w: Win, s: Win, v: Win, r: int, c: int)
    requires Shaped(w) && Shaped(s) && Shaped(v) && Within(w, s) && s.maxy == v.maxy && s.maxx == v.maxx
  {
    0 <= r < s.maxy && 0 <= c < s.maxx ==> At(v, r, c) == Painted(w, s, w.maxy, r, c)
  }

  /** The loops that trim the interval of a row from both sides. */
  method Trim(src: seq<Cell>, dest: seq<Cell>, begx: nat, first0: int, last0: int) returns (first: int, last: int)
    requires 0 <= first0 <= last0 + 1 && last0 < |src| && begx + |src| <= |dest|
    ensures first == FirstDifference(src, dest, begx, first0, last0)
    ensures last == LastDifference(src, dest, begx, first, last0)
  {
    first, last := first0, last0;
    while first <= last && src[first] == dest[begx + first]
      invariant first0 <= first <= last + 1
      invariant FirstDifference(src, dest, begx, first, last) == FirstDifference(src, dest, begx, first0, last)
    {
      first := first + 1;
    }
    while last >= first && src[last] == dest[begx + last]
      invariant first - 1 <= last <= last0
      invariant LastDifference(src, dest, begx, first, last) == LastDifference(src, dest, begx, first, last0)
    {
      last := last - 1;
    }
  }

  method TrimRow(win: Window, scr: Window, i: int) returns (first: int, last: int)
    requires Shaped(win.View()) && Shaped(scr.View()) && Within(win.View(), scr.View())
    requires 0 <= i < win.maxy && win.firstch[i] != NO_CHANGE
    ensures (first, last) == Trimmed(win.View(), scr.View(), i)
  {
    assert RowOk(win.View(), i) && RowOk(scr.View(), win.begy + i);
    first, last := Trim(win.y[i].cells, scr.y[win.begy + i].cells, win.begx, win.firstch[i], win.lastch[i]);
  }

  method CopyColumnsOut(win: Window, scr: Window, i: int, first: int, last: int)
    requires win != scr && Shaped(win.View()) && Shaped(scr.View()) && Within(win.View(), scr.View())
    requires 0 <= i < win.maxy && 0 <= first <= last < win.maxx
    modifies scr`y, scr`firstch, scr`lastch
    ensures Shaped(old(scr.View())) && Within(win.View(), old(scr.View()))
    ensures scr.View() == ColumnsCopied(win.View(), old(scr.View()), i, first, last)
  {
    assert RowOk(win.View(), i) && RowOk(scr.View(), win.begy + i);
    var j, begx := win.begy + i, win.begx;
    scr.y := scr.y[j := scr.y[j].(cells := Spliced(scr.y[j].cells, begx + first, win.y[i].cells[first..last + 1]))];
    Widen(scr, j, begx + first, begx + last);
  }

  method CopyRowOut(win: Window, scr: Window, i: int)
    requires win != scr && Shaped(win.View()) && Shaped(scr.View()) && Within(win.View(), scr.View())
    requires 0 <= i < win.maxy
    modifies scr`y, scr`firstch, scr`lastch
    ensures Shaped(old(scr.View())) && Within(win.View(), old(scr.View()))
    ensures scr.View() == RowCopied(win.View(), old(scr.View()), i)
  {
    if win.firstch[i] != NO_CHANGE {
      var first, last := TrimRow(win, scr, i);
      if first <= last {
        CopyColumnsOut(win, scr, i, first, last);
      }
    }
  }

  /** A window whose first `n` rows are clean. */
  function CleanTo(w: Win, n: nat): Win
    requires |w.firstch| == |w.lastch| == w.maxy && n <= w.maxy
  {
    w.(firstch := Filled(w.firstch, 0, n, NO_CHANGE), lastch := Filled(w.lastch, 0, n, NO_CHANGE))
  }

  lemma CleanToShaped(w: Win, n: nat)
    requires Shaped(w) && n <= w.maxy
    ensures Shaped(CleanTo(w, n))
  {
    var v := CleanTo(w, n);
    forall r ensures RowOk(v, r) {
      assert RowOk(w, r);
    }
  }

  /** Two windows have the same place and size, and the same row `i` with the same interval. */
  ghost predicate SameRow(w: Win, u: Win, i: nat) {
    && Shaped(w) && Shaped(u) && u.maxy == w.maxy && u.maxx == w.maxx && u.begy == w.begy && u.begx == w.begx
    && i < w.maxy && u.y[i] == w.y[i] && u.firstch[i] == w.firstch[i] && u.lastch[i] == w.lastch[i]
  }

  lemma SameTrimmed(w: Win, u: Win, s: Win, i: nat)
    requires SameRow(w, u, i) && Shaped(s) && Within(w, s) && w.firstch[i] != NO_CHANGE
    ensures Trimmed(u, s, i) == Trimmed(w, s, i)
  {
  }

  lemma SameColumnsCopied(w: Win, u: Win, s: Win, i: nat, first: int, last: int)
    requires SameRow(w, u, i) && Shaped(s) && Within(w, s) && 0 <= first <= last < w.maxx
    ensures ColumnsCopied(u, s, i, first, last) == ColumnsCopied(w, s, i, first, last)
  {
  }

  lemma SameRowSameCopy(w: Win, u: Win, s: Win, i: nat)
    requires SameRow(w, u, i) && Shaped(s) && Within(w, s)
    ensures RowCopied(u, s, i) == RowCopied(w, s, i)
  {
    if w.firstch[i] != NO_CHANGE {
      SameTrimmed(w, u, s, i);
      var first, last := Trimmed(w, s, i).0, Trimmed(w, s, i).1;
      if first <= last {
        SameColumnsCopied(w, u, s, i, first, last);
      }
    }
  }

  /** A row is copied in the same way whatever other rows are clean already. */
  lemma SameRowCopied(w: Win, s: Win, i: nat)
    requires Shaped(w) && Shaped(s) && Within(w, s) && i < w.maxy
    ensures Shaped(CleanTo(w, i)) && CleanTo(w, i).firstch[i] == w.firstch[i]
    ensures RowCopied(CleanTo(w, i), s, i) == RowCopied(w, s, i)
  {
    CleanToShaped(w, i);
    var u := CleanTo(w, i);
    assert SameRow(w, u, i);
    SameRowSameCopy(w, u, s, i);
  }

  lemma NextClean(w: Win, i: nat)
    requires Shaped(w) && i < w.maxy
    ensures CleanTo(w, i + 1)
         == CleanTo(w, i).(firstch := CleanTo(w, i).firstch[i := NO_CHANGE],
                           lastch := CleanTo(w, i).lastch[i := NO_CHANGE])
  {
    FilledNext(w.firstch, 0, i, NO_CHANGE);
    FilledNext(w.lastch, 0, i, NO_CHANGE);
  }

  /** The screen images before, between and after the turns of the loop of `wnoutrefresh`. */
  ghost predicate Images(w: Win, s: Win, images: seq<Win>) {
    Shaped(w) && Shaped(s) && Within(w, s) && |images| == w.maxy + 1 && forall i :: ImageAt(w, s, images, i)
  }

  ghost predicate ImageAt(w: Win, s: Win, images: seq<Win>, i: int)
    requires Shaped(w) && Shaped(s) && Within(w, s) && |images| == w.maxy + 1
  {
    0 <= i <= w.maxy ==> images[i] == RowsCopied(w, s, i)
  }

  /** The first `i` rows are copied and clean. */
  ghost predicate Halfway(win: Window, scr: Window, w: Win, images: seq<Win>, i: nat)
    reads win, scr
  {
    && i <= w.maxy && |images| == w.maxy + 1 && |w.firstch| == |w.lastch| == w.maxy
    && win.View() == CleanTo(w, i) && scr.View() == images[i]
  }

  /** One turn of the loop of `wnoutrefresh`. */
  method RefreshRow(win: Window, scr: Window, ghost w: Win, ghost s: Win, ghost images: seq<Win>, i: nat)
    requires win != scr && Images(w, s, images) && i < w.maxy && Halfway(win, scr, w, images, i)
    modifies win`firstch, win`lastch, scr`y, scr`firstch, scr`lastch
    ensures Halfway(win, scr, w, images, i + 1)
  {
    assert ImageAt(w, s, images, i) && ImageAt(w, s, images, i + 1);
    SameRowCopied(w, scr.View(), i);
    NextClean(w, i);
    CopyRowOut(win, scr, i);
    MarkClean(win, i);
  }

  method MarkClean(win: Window, i: nat)
    requires i < |win.firstch| && i < |win.lastch|
    modifies win`firstch, win`lastch
    ensures win.View() == old(win.View()).(firstch := old(win.firstch)[i := NO_CHANGE],
                                           lastch := old(win.lastch)[i := NO_CHANGE])
  {
    win.firstch := win.firstch[i := NO_CHANGE];
    win.lastch := win.lastch[i := NO_CHANGE];
  }

  method RefreshRows(win: Window, scr: Window, ghost w: Win, ghost s: Win, ghost images: seq<Win>)
    requires win != scr && Images(w, s, images) && Halfway(win, scr, w, images, 0)
    modifies win`firstch, win`lastch, scr`y, scr`firstch, scr`lastch
    ensures Halfway(win, scr, w, images, w.maxy)
  {
    var i := 0;
    while i < win.maxy
      invariant 0 <= i <= w.maxy == win.maxy && Halfway(win, scr, w, images, i)
    {
      RefreshRow(win, scr, w, s, images, i);
      i := i + 1;
    }
  }

  lemma CleanToAll(w: Win)
    requires |w.firstch| == |w.lastch| == w.maxy
    ensures CleanTo(w, w.maxy).(clear := false) == Clean(w) && CleanTo(w, 0) == w
  {
  }

  /** `wnoutrefresh` of a window that is not a pad, nor the screen image itself. */
  method NoutRefresh(win: Window, scr: Window)
    requires win != scr && Shaped(win.View()) && Shaped(scr.View()) && Within(win.View(), scr.View())
    modifies win`firstch, win`lastch, win`clear, scr`y, scr`firstch, scr`lastch, scr`cury, scr`curx
    ensures Shaped(old(win.View())) && Shaped(old(scr.View())) && Within(old(win.View()), old(scr.View()))
    ensures win.View() == Clean(old(win.View()))
    ensures scr.View() == CopiedOut(old(win.View()), old(scr.View()))
  {
    ghost var w, s := win.View(), scr.View();
    ghost var images := seq(w.maxy + 1, i requires 0 <= i <= w.maxy => RowsCopied(w, s, i));
    CleanToAll(w);
    assert ImageAt(w, s, images, 0) && ImageAt(w, s, images, w.maxy);
    RefreshRows(win, scr, w, s, images);
    FinishRefresh(win, scr);
  }

  method FinishRefresh(win: Window, scr: Window)
    requires win != scr
    modifies win`clear, scr`cury, scr`curx
    ensures win.View() == old(win.View()).(clear := false)
    ensures scr.View() == if win.leaveit then old(scr.View())
                          else old(scr.View()).(cury := win.cury + win.begy, curx := win.curx + win.begx)
  {
    if win.clear {
      win.clear := false;
    }
    if !win.leaveit {
      scr.cury := win.cury + win.begy;
      scr.curx := win.curx + win.begx;
    }
  }
}
