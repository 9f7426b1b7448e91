/** Adding a string of cells at the cursor, of src/kernel/curses/addchstr.c. */
module AddChStr {
  import opened Cells
  import opened CursesWindow

  /** A row with its interval. */
  datatype Row = Row(cells: seq<Cell>, first: int, last: int)

  /** The cell at `k` of a string of cells, which ends with 0. */
  function CellAt(ch: seq<Cell>, k: nat): Cell {
    if k < |ch| then ch[k] else 0
  }

  /** One turn of the loop: a cell that differs is stored, and the interval grows to hold its column. */
  function Stored(row: Row, x: int, ch: Cell): (r: Row)
    requires 0 <= x < |row.cells|
    ensures |r.cells| == |row.cells|
  {
    if row.cells[x] == ch then row
    else Row(row.cells[x := ch], if x < row.first || row.first == NO_CHANGE then x else row.first,
             if x > row.last then x else row.last)
  }

  /** `n` turns of the loop, or fewer if the string ends before. */
  function StoredAll(row: Row, x: int, ch: seq<Cell>, n: nat): (r: Row)
    requires 0 <= x && x + n <= |row.cells|
    ensures |r.cells| == |row.cells|
    decreases n
  {
    if n == 0 || CellAt(ch, 0) == 0 then row else StoredAll(Stored(row, x, ch[0]), x + 1, ch[1..], n - 1)
  }

  /** The columns where `to` differs from `from`, and those that were marked, are marked. */
  ghost predicate RowMarked(from: Row, to: Row) {
    |from.cells| == |to.cells| && forall c :: ColumnMarked(from.cells, from.first, from.last, to.cells, to.first, to.last, c)
  }

  lemma StoredMarks(row: Row, x: int, ch: Cell)
    requires 0 <= x < |row.cells| && IntervalOk(row.first, row.last, |row.cells|)
    ensures var r := Stored(row, x, ch);
      RowMarked(row, r) && IntervalOk(r.first, r.last, |row.cells|)
  {
  }

  lemma {:induction false} StoredAllMarks(row: Row, x: int, ch: seq<Cell>, n: nat)
    requires 0 <= x && x + n <= |row.cells| && IntervalOk(row.first, row.last, |row.cells|)
    ensures var r := StoredAll(row, x, ch, n);
      RowMarked(row, r) && IntervalOk(r.first, r.last, |row.cells|)
    decreases n
  {
    if n > 0 && CellAt(ch, 0) != 0 {
      var next := Stored(row, x, ch[0]);
      var r := StoredAll(row, x, ch, n);
      StoredMarks(row, x, ch[0]);
      StoredAllMarks(next, x + 1, ch[1..], n - 1);
      forall c ensures ColumnMarked(row.cells, row.first, row.last, r.cells, r.first, r.last, c) {
        assert ColumnMarked(row.cells, row.first, row.last, next.cells, next.first, next.last, c);
        assert ColumnMarked(next.cells, next.first, next.last, r.cells, r.first, r.last, c);
      }
    }
  }

  /** How many cells are stored. */
  function Length(ch: seq<Cell>, n: nat): (m: nat)
    ensures m <= n && m <= |ch|
    decreases n
  {
    if n == 0 || CellAt(ch, 0) == 0 then 0 else 1 + Length(ch[1..], n - 1)
  }

  /** The row holds the string from column `x` on, and is otherwise as it was. */
  lemma {:induction false} StoredAllHolds(row: Row, x: int, ch: seq<Cell>, n: nat, c: int)
    requires 0 <= x && x + n <= |row.cells| && 0 <= c < |row.cells|
    ensures StoredAll(row, x, ch, n).cells[c] == if x <= c < x + Length(ch, n) then ch[c - x] else row.cells[c]
    decreases n
  {
    if n > 0 && CellAt(ch, 0) != 0 {
      StoredAllHolds(Stored(row, x, ch[0]), x + 1, ch[1..], n - 1, c);
    }
  }

  /** The number of cells that fit in the cursor's row, or are asked for. */
  function Room(w: Win, n: int): (m: nat)
    requires 0 <= w.curx < w.maxx && -1 <= n
    ensures w.curx + m <= w.maxx
  {
    if n == -1 || n > w.maxx - w.curx then w.maxx - w.curx else n
  }

  /** `waddchnstr`. */
  function AddedStr(w: Win, ch: seq<Cell>, n: int): (v: Win)
    requires Ok(w) && -1 <= n
    ensures Marks(w, v) && Ok(v)
  {
    assert RowOk(w, w.cury);
    var row := Row(w.y[w.cury].cells, w.firstch[w.cury], w.lastch[w.cury]);
    var r := StoredAll(row, w.curx, ch, Room(w, n));
    StoredAllMarks(row, w.curx, ch, Room(w, n));
    WithRowMarks(w, w.cury, r.cells, r.first, r.last);
    WithRow(w, w.cury, r.cells, r.first, r.last)
  }

  /** How many cells are stored: those before the first 0, and at most `n`. */
  lemma {:induction false} LengthIs(ch: seq<Cell>, n: nat, k: nat)
    ensures k < Length(ch, n) <==> k < n && k < |ch| && forall i :: 0 <= i <= k ==> ch[i] != 0
    decreases k
  {
    if n > 0 && ch != [] && ch[0] != 0 && k > 0 {
      var rest := ch[1..];
      LengthIs(rest, n - 1, k - 1);
      assert forall i :: 0 <= i < |rest| ==> rest[i] == ch[i + 1];
      assert forall i :: 1 <= i < |ch| ==> ch[i] == rest[i - 1];
    }
  }

  /** The cell at `k` is one of the first `n` of a string of cells, and no 0 ends the string before it. */
  predicate Given(ch: seq<Cell>, n: int, k: int) {
    0 <= k < |ch| && (n == -1 || k < n) && forall i :: 0 <= i <= k ==> ch[i] != 0
  }

  /** The string stands in the cursor's row from the cursor on, as far as it is given and the row goes. */
  lemma AddedStrIs(w: Win, ch: seq<Cell>, n: int, r: int, c: int)
    requires Ok(w) && -1 <= n && 0 <= r < w.maxy && 0 <= c < w.maxx
    ensures var v := AddedStr(w, ch, n);
      && v == w.(y := v.y, firstch := v.firstch, lastch := v.lastch)
      && At(v, r, c) == if r == w.cury && Given(ch, n, c - w.curx) then ch[c - w.curx] else At(w, r, c)
  {
    assert RowOk(w, r) && RowOk(w, w.cury);
    if r == w.cury {
      var row := Row(w.y[w.cury].cells, w.firstch[w.cury], w.lastch[w.cury]);
      StoredAllHolds(row, w.curx, ch, Room(w, n), c);
      if c >= w.curx {
        LengthIs(ch, Room(w, n), c - w.curx);
      }
    }
  }

  /** The loop of `waddchnstr`: up to `n` cells from column `x0` of row `y` on. */
  method StoreCells(win: Window, y: int, x0: int, ch: seq<Cell>, n: nat) returns (minx: int, maxx: int)
    requires 0 <= y < |win.y| == |win.firstch| == |win.lastch| && 0 <= x0 && x0 + n <= |win.y[y].cells|
    modifies win`y
    ensures var row := Row(old(win.y)[y].cells, win.firstch[y], win.lastch[y]);
      var all := StoredAll(row, x0, ch, n);
      win.y == old(win.y)[y := old(win.y)[y].(cells := all.cells)] && minx == all.first && maxx == all.last
  {
    minx, maxx := win.firstch[y], win.lastch[y];
    ghost var was := win.y;
    ghost var row := Row(was[y].cells, minx, maxx);
    ghost var all := StoredAll(row, x0, ch, n);
    var left, x, k := n, x0, 0;
    while left > 0 && CellAt(ch, k) != 0
      invariant 0 <= left && 0 <= k <= |ch| && 0 <= x && x + left <= |row.cells|
      invariant win.y == was[y := was[y].(cells := row.cells)] && row.first == minx && row.last == maxx
      invariant all == StoredAll(row, x, ch[k..], left)
      decreases left
    {
      row := Stored(row, x, ch[k]);
      if win.y[y].cells[x] != ch[k] {
        if x < minx || minx == NO_CHANGE {
          minx := x;
        }
        if x > maxx {
          maxx := x;
        }
        win.Write(y, x, ch[k]);
      }
      assert ch[k..][1..] == ch[k + 1..];
      left, x, k := left - 1, x + 1, k + 1;
    }
  }

  method AddChNStr(win: Window, ch: seq<Cell>, n: int) returns (ok: bool)
    requires Ok(win.View())
    modifies win`y, win`firstch, win`lastch
    ensures ok == (n != 0 && n >= -1)
    ensures win.View() == if ok then AddedStr(old(win.View()), ch, n) else old(win.View())
  {
    ok := n != 0 && n >= -1;
    if ok {
      assert RowOk(win.View(), win.cury);
      var x, y, left := win.curx, win.cury, n;
      if n == -1 || n > win.maxx - x {
        left := win.maxx - x;
      }
      var minx, maxx := StoreCells(win, y, x, ch, left);
      win.firstch := win.firstch[y := minx];
      win.lastch := win.lastch[y := maxx];
    }
  }
}
