/**
 Windows of src/kernel/curses: rows of cells behind a table of line pointers, a cursor, a scrolling region, and for
 each row the interval of columns that may differ from what is on the screen.
 */
module CursesWindow {
  import opened Cells

  const NO_CHANGE: int := -1

  /** A line pointer: which buffer it points to, and what the buffer holds. */
  datatype Line = Line(id: nat, cells: seq<Cell>)

  /** The value of a window. */
  datatype Win = Win(maxy: nat, maxx: nat, begy: nat, begx: nat, cury: int, curx: int, tmarg: int, bmarg: int,
                     attrs: Cell, bkgd: Cell, clear: bool, leaveit: bool, scroll: bool,
                     y: seq<Line>, firstch: seq<int>, lastch: seq<int>)

  /** A row has the width of the window, and its interval lies in it; the interval may be empty. */
  predicate IntervalOk(first: int, last: int, maxx: nat) {
    (first == NO_CHANGE || 0 <= first <= last + 1) && -1 <= last < maxx
  }

  ghost predicate RowOk(w: Win, r: int)
    requires |w.y| == |w.firstch| == |w.lastch| == w.maxy
  {
    0 <= r < w.maxy ==> |w.y[r].cells| == w.maxx && IntervalOk(w.firstch[r], w.lastch[r], w.maxx)
  }

  /** No two rows share a buffer. */
  ghost predicate Apart(y: seq<Line>, i: int, j: int) {
    0 <= i < j < |y| ==> y[i].id != y[j].id
  }

  ghost predicate Shaped(w: Win) {
    && w.maxy > 0 && w.maxx > 0
    && |w.y| == |w.firstch| == |w.lastch| == w.maxy
    && (forall r :: RowOk(w, r))
    && (forall i, j :: Apart(w.y, i, j))
  }

  /** The cursor is inside the window and the scrolling region is not empty. */
  ghost predicate Ok(w: Win) {
    Shaped(w) && 0 <= w.cury < w.maxy && 0 <= w.curx < w.maxx && 0 <= w.tmarg <= w.bmarg < w.maxy
  }

  /** The cell at a place of a window. */
  function At(w: Win, r: int, c: int): Cell
    requires Shaped(w) && 0 <= r < w.maxy && 0 <= c < w.maxx
  {
    assert RowOk(w, r);
    w.y[r].cells[c]
  }

  /** Column `c` is in the interval of changed columns. */
  predicate Dirty(first: int, last: int, c: int) {
    first != NO_CHANGE && first <= c <= last
  }

  /** Elements `from` to `to` replaced by one value. */
  function Filled<T>(s: seq<T>, from: nat, to: nat, value: T): (r: seq<T>)
    requires from <= to <= |s|
    ensures |r| == |s|
    ensures forall k :: 0 <= k < |r| ==> r[k] == if from <= k < to then value else s[k]
  {
    s[..from] + seq(to - from, _ => value) + s[to..]
  }

  lemma FilledNone<T>(s: seq<T>, from: nat, value: T)
    requires from <= |s|
    ensures Filled(s, from, from, value) == s
  {
  }

  lemma FilledNext<T>(s: seq<T>, from: nat, to: nat, value: T)
    requires from <= to < |s|
    ensures Filled(s, from, to, value)[to := value] == Filled(s, from, to + 1, value)
  {
  }

  /** One row with other cells and another interval. */
  function WithRow(w: Win, r: int, cells: seq<Cell>, first: int, last: int): Win
    requires 0 <= r < w.maxy && |w.y| == |w.firstch| == |w.lastch| == w.maxy
  {
    w.(y := w.y[r := w.y[r].(cells := cells)], firstch := w.firstch[r := first], lastch := w.lastch[r := last])
  }

  /** The cells of a row that changed are marked, and those that were marked before still are. */
  ghost predicate CellMarked(w: Win, v: Win, r: int, c: int)
    requires Shaped(w) && Shaped(v) && w.maxy == v.maxy && w.maxx == v.maxx
  {
    0 <= r < w.maxy && 0 <= c < w.maxx ==>
      (At(v, r, c) != At(w, r, c) || Dirty(w.firstch[r], w.lastch[r], c)) ==> Dirty(v.firstch[r], v.lastch[r], c)
  }

  /** What every operation on a window does: it marks each cell that it changes, and unmarks none. */
  ghost predicate Marks(w: Win, v: Win) {
    && Shaped(w) && Shaped(v)
    && w.maxy == v.maxy && w.maxx == v.maxx && w.begy == v.begy && w.begx == v.begx
    && forall r, c :: CellMarked(w, v, r, c)
  }

  lemma MarksTransitive(u: Win, v: Win, w: Win)
    requires Marks(u, v) && Marks(v, w)
    ensures Marks(u, w)
  {
    forall r, c ensures CellMarked(u, w, r, c) {
      assert CellMarked(u, v, r, c) && CellMarked(v, w, r, c);
    }
  }

  lemma MarksItself(w: Win)
    requires Shaped(w)
    ensures Marks(w, w)
  {
  }

  /** Windows that differ in neither rows nor intervals mark each other. */
  lemma SameRowsMark(w: Win, v: Win)
    requires Shaped(w) && v.y == w.y && v.firstch == w.firstch && v.lastch == w.lastch
    requires v.maxy == w.maxy && v.maxx == w.maxx && v.begy == w.begy && v.begx == w.begx
    ensures Shaped(v) && Marks(w, v)
  {
    forall r ensures RowOk(v, r) {
      assert RowOk(w, r);
    }
  }

  /** A change of column `c` of one row is marked. */
  ghost predicate ColumnMarked(was: seq<Cell>, first: int, last: int, cells: seq<Cell>, first': int, last': int, c: int) {
    0 <= c < |was| == |cells| ==>
      (cells[c] != was[c] || Dirty(first, last, c)) ==> Dirty(first', last', c)
  }

  /** A change of one row keeps the window in shape, and marks what it changes if that row does. */
  lemma WithRowMarks(w: Win, r: int, cells: seq<Cell>, first: int, last: int)
    requires Shaped(w) && 0 <= r < w.maxy && |cells| == w.maxx && IntervalOk(first, last, w.maxx)
    requires forall c :: ColumnMarked(w.y[r].cells, w.firstch[r], w.lastch[r], cells, first, last, c)
    ensures Marks(w, WithRow(w, r, cells, first, last))
  {
    var v := WithRow(w, r, cells, first, last);
    forall k ensures RowOk(v, k) {
      assert RowOk(w, k);
    }
    forall i, j ensures Apart(v.y, i, j) {
      assert Apart(w.y, i, j);
    }
    forall k, c ensures CellMarked(w, v, k, c) {
      assert RowOk(w, k);
      assert k == r ==> ColumnMarked(w.y[r].cells, w.firstch[r], w.lastch[r], cells, first, last, c);
    }
  }

  /** Where a window differs from the screen `s` that it was last copied to, it is marked. */
  ghost predicate CellTracked(w: Win, s: Win, r: int, c: int)
    requires Shaped(w) && Shaped(s) && Within(w, s)
  {
    0 <= r < w.maxy && 0 <= c < w.maxx ==>
      At(w, r, c) != At(s, w.begy + r, w.begx + c) ==> Dirty(w.firstch[r], w.lastch[r], c)
  }

  /** The window lies on the screen. */
  predicate Within(w: Win, s: Win) {
    w.begy + w.maxy <= s.maxy && w.begx + w.maxx <= s.maxx
  }

  ghost predicate Tracks(w: Win, s: Win) {
    Shaped(w) && Shaped(s) && Within(w, s) && forall r, c :: CellTracked(w, s, r, c)
  }

  /** An operation that marks what it changes keeps the window's record of its differences from the screen. */
  lemma MarksKeepTracks(w: Win, v: Win, s: Win)
    requires Marks(w, v) && Tracks(w, s)
    ensures Tracks(v, s)
  {
    forall r, c ensures CellTracked(v, s, r, c) {
      assert CellTracked(w, s, r, c) && CellMarked(w, v, r, c);
    }
  }

  /** No two buffers are at the same address. */
  ghost predicate Distinct(memory: seq<nat>) {
    forall i, j :: DistinctAt(memory, i, j)
  }

  ghost predicate DistinctAt(memory: seq<nat>, i: int, j: int) {
    0 <= i < j < |memory| ==> memory[i] != memory[j]
  }

  /** A window as it is made, before it is erased. */
  function Made(nlines: nat, ncols: nat, begy: nat, begx: nat, clear: bool, memory: seq<nat>): Win
    requires nlines <= |memory|
  {
    Win(nlines, ncols, begy, begx, 0, 0, 0, nlines - 1, 0, SPACE, clear, false, false,
        seq(nlines, i requires 0 <= i < |memory| => Line(memory[i], seq(ncols, _ => 0))),
        seq(nlines, _ => 0), seq(nlines, _ => ncols - 1))
  }

  lemma MadeOk(nlines: nat, ncols: nat, begy: nat, begx: nat, clear: bool, memory: seq<nat>)
    requires 0 < nlines <= |memory| && 0 < ncols && Distinct(memory)
    ensures Ok(Made(nlines, ncols, begy, begx, clear, memory))
  {
    var w := Made(nlines, ncols, begy, begx, clear, memory);
    forall i, j ensures Apart(w.y, i, j) {
      assert DistinctAt(memory, i, j);
    }
  }

  /** `WINDOW`. */
  class Window {
    var maxy: nat
    var maxx: nat
    var begy: nat
    var begx: nat
    var cury: int
    var curx: int
    var tmarg: int
    var bmarg: int
    var attrs: Cell
    var bkgd: Cell
    var clear: bool
    var leaveit: bool
    var scroll: bool
    var y: seq<Line>
    var firstch: seq<int>
    var lastch: seq<int>

    /** `PDC_makenew` and `PDC_makelines`: blank background, all rows marked, line buffers as `memory` gives them. */
    constructor (nlines: nat, ncols: nat, begy: nat, begx: nat, clear: bool, memory: seq<nat>)
      requires nlines <= |memory|
      ensures View() == Made(nlines, ncols, begy, begx, clear, memory)
    {
      maxy, maxx := nlines, ncols;
      this.begy, this.begx := begy, begx;
      cury, curx := 0, 0;
      tmarg, bmarg := 0, nlines - 1;
      attrs, bkgd := 0, SPACE;
      this.clear, leaveit, scroll := clear, false, false;
      y := seq(nlines, i requires 0 <= i < |memory| => Line(memory[i], seq(ncols, _ => 0)));
      firstch := seq(nlines, _ => 0);
      lastch := seq(nlines, _ => ncols - 1);
    }

    function View(): Win
      reads this
    {
      Win(maxy, maxx, begy, begx, cury, curx, tmarg, bmarg, attrs, bkgd, clear, leaveit, scroll, y, firstch, lastch)
    }

    /** `win->_y[r][c] = ch`. */
    method Write(r: int, c: int, ch: Cell)
      requires 0 <= r < |y| && 0 <= c < |y[r].cells|
      modifies `y
      ensures y == old(y)[r := old(y[r]).(cells := old(y[r].cells)[c := ch])]
    {
      y := y[r := y[r].(cells := y[r].cells[c := ch])];
    }
  }
}
