/** Touching of src/kernel/curses/touch.c and scrolling of src/kernel/curses/scroll.c. */
module Scroll {
  import opened Cells
  import opened CursesWindow

  /** Rows `start` to `end` marked throughout. */
  function Touched(w: Win, start: int, end: int): (v: Win)
    requires Shaped(w) && 0 <= start <= end <= w.maxy
    ensures Marks(w, v)
  {
    var v := w.(firstch := Filled(w.firstch, start, end, 0), lastch := Filled(w.lastch, start, end, w.maxx - 1));
    TouchedMarks(w, start, end, v);
    v
  }

  lemma TouchedMarks(w: Win, start: int, end: int, v: Win)
    requires Shaped(w) && 0 <= start <= end <= w.maxy
    requires v == w.(firstch := Filled(w.firstch, start, end, 0), lastch := Filled(w.lastch, start, end, w.maxx - 1))
    ensures Marks(w, v)
  {
    forall r ensures RowOk(v, r) {
      assert RowOk(w, r);
    }
    assert Shaped(v);
    forall r, c ensures CellMarked(w, v, r, c) {
      assert RowOk(w, r);
    }
  }

  /** Exactly these rows are marked throughout; the others keep their intervals. */
  lemma TouchedIs(w: Win, start: int, end: int, r: int)
    requires Shaped(w) && 0 <= start <= end <= w.maxy && 0 <= r < w.maxy
    ensures var v := Touched(w, start, end);
      && v == w.(firstch := v.firstch, lastch := v.lastch)
      && v.firstch[r] == (if start <= r < end then 0 else w.firstch[r])
      && v.lastch[r] == (if start <= r < end then w.maxx - 1 else w.lastch[r])
  {
  }

  /** The loop of both touches. */
  method Touch(win: Window, start: nat, end: nat)
    requires Shaped(win.View()) && start <= end <= win.maxy
    modifies win`firstch, win`lastch
    ensures win.View() == Touched(old(win.View()), start, end)
  {
    ghost var first, last := win.firstch, win.lastch;
    FilledNone(first, start, 0);
    FilledNone(last, start, win.maxx - 1);
    var i := start;
    while i < end
      invariant start <= i <= end
      invariant win.firstch == Filled(first, start, i, 0)
      invariant win.lastch == Filled(last, start, i, win.maxx - 1)
    {
      FilledNext(first, start, i, 0);
      FilledNext(last, start, i, win.maxx - 1);
      win.firstch := win.firstch[i := 0];
      win.lastch := win.lastch[i := win.maxx - 1];
      i := i + 1;
    }
  }

  /** `touchline`. */
  method TouchLine(win: Window, start: nat, count: int) returns (ok: bool)
    requires Shaped(win.View())
    modifies win`firstch, win`lastch
    ensures ok == (start <= win.maxy && start + count <= win.maxy)
    ensures win.View() == if ok && count > 0 then Touched(old(win.View()), start, start + count) else old(win.View())
  {
    ok := !(start > win.maxy || start + count > win.maxy);
    if ok && count > 0 {
      Touch(win, start, start + count);
    }
  }

  /** `touchwin`. */
  method TouchWin(win: Window)
    requires Shaped(win.View())
    modifies win`firstch, win`lastch
    ensures win.View() == Touched(old(win.View()), 0, win.maxy)
  {
    Touch(win, 0, win.maxy);
  }

  /** Elements `lo` to `hi` moved by one place, up or down, and the one that leaves put in at the other end. */
  function Rotated<T>(s: seq<T>, lo: int, hi: int, up: bool): (r: seq<T>)
    requires 0 <= lo <= hi < |s|
    ensures |r| == |s|
  {
    if up then s[..lo] + s[lo + 1..hi + 1] + [s[lo]] + s[hi + 1..]
    else s[..lo] + [s[hi]] + s[lo..hi] + s[hi + 1..]
  }

  lemma RotatedAt<T>(s: seq<T>, lo: int, hi: int, up: bool, k: int)
    requires 0 <= lo <= hi < |s| && 0 <= k < |s|
    ensures Rotated(s, lo, hi, up)[k] == s[Source(lo, hi, up, k)]
  {
  }

  /** Where the element that comes to `k` was. */
  function Source(lo: int, hi: int, up: bool, k: int): (from: int)
    requires lo <= hi
    ensures if lo <= k <= hi then lo <= from <= hi else from == k
  {
    if !(lo <= k <= hi) then k
    else if up then (if k == hi then lo else k + 1)
    else (if k == lo then hi else k - 1)
  }

  lemma RotatedSame<T>(s: seq<T>, lo: int, hi: int, up: bool)
    requires 0 <= lo <= hi < |s|
    ensures multiset(Rotated(s, lo, hi, up)) == multiset(s)
  {
    if up {
      assert s == s[..lo] + [s[lo]] + s[lo + 1..hi + 1] + s[hi + 1..];
      SameParts(s[..lo], [s[lo]], s[lo + 1..hi + 1], s[hi + 1..]);
    } else {
      assert s == s[..lo] + s[lo..hi] + [s[hi]] + s[hi + 1..];
      SameParts(s[..lo], s[lo..hi], [s[hi]], s[hi + 1..]);
    }
  }

  /** Two parts in the middle may change places. */
  lemma SameParts<T>(a: seq<T>, b: seq<T>, c: seq<T>, d: seq<T>)
    ensures multiset(a + c + b + d) == multiset(a + b + c + d)
  {
  }

  function Ids(y: seq<Line>): seq<nat> {
    seq(|y|, k requires 0 <= k < |y| => y[k].id)
  }

  /** One line of scrolling: the rows move by one, and the row that comes in is blank. */
  function ScrolledOne(y: seq<Line>, lo: int, hi: int, up: bool, blank: seq<Cell>): (r: seq<Line>)
    requires 0 <= lo <= hi < |y|
    ensures |r| == |y|
  {
    var end := if up then hi else lo;
    var moved := Rotated(y, lo, hi, up);
    moved[end := moved[end].(cells := blank)]
  }

  lemma ScrolledOneAt(y: seq<Line>, lo: int, hi: int, up: bool, blank: seq<Cell>, k: int)
    requires 0 <= lo <= hi < |y| && 0 <= k < |y|
    ensures var from := Source(lo, hi, up, k);
      ScrolledOne(y, lo, hi, up, blank)[k]
      == if k == (if up then hi else lo) then Line(y[from].id, blank) else y[from]
  {
    RotatedAt(y, lo, hi, up, k);
  }

  /** The line pointers after one line of scrolling are the old ones in another order, none twice. */
  lemma PointersPermuted(y: seq<Line>, lo: int, hi: int, up: bool, blank: seq<Cell>)
    requires 0 <= lo <= hi < |y| && forall i, j :: Apart(y, i, j)
    ensures multiset(Ids(ScrolledOne(y, lo, hi, up, blank))) == multiset(Ids(y))
    ensures forall i, j :: Apart(ScrolledOne(y, lo, hi, up, blank), i, j)
  {
    var v := ScrolledOne(y, lo, hi, up, blank);
    RotatedSame(Ids(y), lo, hi, up);
    forall k | 0 <= k < |y| ensures Ids(v)[k] == Rotated(Ids(y), lo, hi, up)[k] {
      ScrolledOneAt(y, lo, hi, up, blank, k);
      RotatedAt(Ids(y), lo, hi, up, k);
    }
    assert Ids(v) == Rotated(Ids(y), lo, hi, up);
    forall i, j ensures Apart(v, i, j) {
      if 0 <= i < j < |v| {
        ScrolledOneAt(y, lo, hi, up, blank, i);
        ScrolledOneAt(y, lo, hi, up, blank, j);
        assert Apart(y, Source(lo, hi, up, i), Source(lo, hi, up, j));
        assert Apart(y, Source(lo, hi, up, j), Source(lo, hi, up, i));
      }
    }
  }

  function ScrolledBy(y: seq<Line>, lo: int, hi: int, up: bool, blank: seq<Cell>, n: nat): (r: seq<Line>)
    requires 0 <= lo <= hi < |y|
    ensures |r| == |y|
  {
    if n == 0 then y else ScrolledOne(ScrolledBy(y, lo, hi, up, blank, n - 1), lo, hi, up, blank)
  }

  /** The cells of row `k` after the region moved by `n` rows: those of the row that many places on, or blank. */
  function Shifted(y: seq<Line>, lo: int, hi: int, up: bool, blank: seq<Cell>, n: nat, k: int): seq<Cell>
    requires 0 <= lo <= hi < |y| && 0 <= k < |y|
  {
    var from := if up then k + n else k - n;
    if !(lo <= k <= hi) then y[k].cells else if lo <= from <= hi then y[from].cells else blank
  }

  lemma ShiftedNext(y: seq<Line>, lo: int, hi: int, up: bool, blank: seq<Cell>, n: nat, k: int)
    requires 0 <= lo <= hi < |y| && 0 <= k < |y|
    ensures Shifted(y, lo, hi, up, blank, n + 1, k)
         == if k == (if up then hi else lo) then blank else Shifted(y, lo, hi, up, blank, n, Source(lo, hi, up, k))
  {
  }

  /** Row `k` of `v` has the cells of the region shifted by `n`, and is that of `y` outside the region. */
  ghost predicate ShiftedAt(y: seq<Line>, v: seq<Line>, lo: int, hi: int, up: bool, blank: seq<Cell>, n: nat, k: int) {
    && 0 <= lo <= hi < |y| == |v| && 0 <= k < |y|
    && v[k].cells == Shifted(y, lo, hi, up, blank, n, k) && (!(lo <= k <= hi) ==> v[k] == y[k])
  }

  lemma NextShifted(y: seq<Line>, v: seq<Line>, next: seq<Line>, lo: int, hi: int, up: bool, blank: seq<Cell>, n: nat,
                    k: int)
    requires 0 <= lo <= hi < |y| && 0 <= k < |y| && n > 0
    requires ShiftedAt(y, v, lo, hi, up, blank, n - 1, Source(lo, hi, up, k))
    requires next == ScrolledOne(v, lo, hi, up, blank)
    ensures ShiftedAt(y, next, lo, hi, up, blank, n, k)
  {
    ScrolledOneAt(v, lo, hi, up, blank, k);
    ShiftedNext(y, lo, hi, up, blank, n - 1, k);
  }

  /** Scrolling shifts the rows of the region by `n` and blanks what comes in; the other rows stay. */
  lemma {:induction false} ScrolledByIs(y: seq<Line>, lo: int, hi: int, up: bool, blank: seq<Cell>, n: nat, k: int)
    requires 0 <= lo <= hi < |y| && 0 <= k < |y|
    ensures ShiftedAt(y, ScrolledBy(y, lo, hi, up, blank, n), lo, hi, up, blank, n, k)
  {
    if n > 0 {
      var before, after := ScrolledBy(y, lo, hi, up, blank, n - 1), ScrolledBy(y, lo, hi, up, blank, n);
      ScrolledByIs(y, lo, hi, up, blank, n - 1, Source(lo, hi, up, k));
      NextShifted(y, before, after, lo, hi, up, blank, n, k);
    }
  }

  /** Whatever is scrolled, the line pointers are the old ones in another order, and no two rows share a buffer. */
  lemma {:induction false} PointersStayApart(y: seq<Line>, lo: int, hi: int, up: bool, blank: seq<Cell>, n: nat)
    requires 0 <= lo <= hi < |y| && forall i, j :: Apart(y, i, j)
    ensures multiset(Ids(ScrolledBy(y, lo, hi, up, blank, n))) == multiset(Ids(y))
    ensures forall i, j :: Apart(ScrolledBy(y, lo, hi, up, blank, n), i, j)
  {
    if n > 0 {
      PointersStayApart(y, lo, hi, up, blank, n - 1);
      PointersPermuted(ScrolledBy(y, lo, hi, up, blank, n - 1), lo, hi, up, blank);
    }
  }

  function Blanks(w: Win): seq<Cell> {
    seq(w.maxx, _ => w.bkgd)
  }

  function Magnitude(n: int): nat {
    if n < 0 then -n else n
  }

  /** A window after `l` turns of the loop of `wscrl`. */
  function Moving(w: Win, up: bool, l: nat): Win
    requires Ok(w)
  {
    w.(y := ScrolledBy(w.y, w.tmarg, w.bmarg, up, Blanks(w), l))
  }

  /** The region moved up by `n`, or down by `-n`. */
  function Moved(w: Win, n: int): (v: Win)
    requires Ok(w)
    ensures Shaped(v) && v == w.(y := v.y) && forall r :: RowKept(w, v, r)
  {
    ScrollingShaped(w, n > 0, Magnitude(n), Moving(w, n > 0, Magnitude(n)));
    Moving(w, n > 0, Magnitude(n))
  }

  /** `wscrl`: the region is moved, and marked throughout. */
  function Scrolled(w: Win, n: int): (v: Win)
    requires Ok(w)
    ensures Marks(w, v) && Ok(v)
  {
    ScrolledMarks(w, Moved(w, n));
    Touched(Moved(w, n), w.tmarg, w.bmarg + 1)
  }

  lemma ScrollingShaped(w: Win, up: bool, l: nat, moved: Win)
    requires Ok(w) && moved == Moving(w, up, l)
    ensures Shaped(moved) && forall r :: RowKept(w, moved, r)
  {
    PointersStayApart(w.y, w.tmarg, w.bmarg, up, Blanks(w), l);
    forall r ensures RowOk(moved, r) && RowKept(w, moved, r) {
      assert RowOk(w, r);
      if 0 <= r < w.maxy {
        ScrolledByIs(w.y, w.tmarg, w.bmarg, up, Blanks(w), l, r);
        assert RowOk(w, if up then r + l else r - l);
      }
    }
  }

  /** A row outside the scrolling region is as it was. */
  ghost predicate RowKept(w: Win, v: Win, r: int)
    requires |w.y| == |v.y|
  {
    0 <= r < |w.y| && !(w.tmarg <= r <= w.bmarg) ==> v.y[r] == w.y[r]
  }

  lemma ScrolledMarks(w: Win, moved: Win)
    requires Ok(w) && Shaped(moved) && moved == w.(y := moved.y) && forall r :: RowKept(w, moved, r)
    ensures Marks(w, Touched(moved, w.tmarg, w.bmarg + 1))
  {
    var v := Touched(moved, w.tmarg, w.bmarg + 1);
    forall r, c ensures CellMarked(w, v, r, c) {
      assert RowOk(w, r) && RowKept(w, moved, r);
    }
  }

  /**
   What a scroll leaves: the rows of the region shifted by `n`, all blank if that is its height or more, and marked
   throughout; the other rows, their intervals, and the set of line pointers as they were.
   */
  lemma ScrolledIs(w: Win, n: int, r: int)
    requires Ok(w) && 0 <= r < w.maxy
    ensures var v := Scrolled(w, n);
      && multiset(Ids(v.y)) == multiset(Ids(w.y))
      && v.y[r].cells == Shifted(w.y, w.tmarg, w.bmarg, n > 0, Blanks(w), Magnitude(n), r)
      && if w.tmarg <= r <= w.bmarg
         then v.firstch[r] == 0 && v.lastch[r] == w.maxx - 1 &&
              (Magnitude(n) > w.bmarg - w.tmarg ==> v.y[r].cells == Blanks(w))
         else v.y[r] == w.y[r] && v.firstch[r] == w.firstch[r] && v.lastch[r] == w.lastch[r]
  {
    PointersStayApart(w.y, w.tmarg, w.bmarg, n > 0, Blanks(w), Magnitude(n));
    ScrolledByIs(w.y, w.tmarg, w.bmarg, n > 0, Blanks(w), Magnitude(n), r);
  }

  /** Row `k` while the pointers between `start` and `i` have moved. */
  ghost predicate RowMoving(was: seq<Line>, y: seq<Line>, start: int, i: int, dir: int, k: int)
    requires |y| == |was| && (dir == 1 || dir == -1)
    requires 0 <= start < |y| && 0 <= i < |y|
  {
    0 <= k < |y| ==> y[k] == if (dir == 1 && start <= k < i) || (dir == -1 && i < k <= start) then was[k + dir] else was[k]
  }

  /** One turn of the loop of `wscrl`: the pointers move one place, and the row that comes in is blanked. */
  method ScrollOne(win: Window, start: int, end: int, dir: int)
    requires Shaped(win.View()) && 0 <= start < win.maxy && 0 <= end < win.maxy
    requires (dir == 1 && start <= end) || (dir == -1 && end <= start)
    modifies win`y
    ensures win.y == if dir == 1 then ScrolledOne(old(win.y), start, end, true, Blanks(win.View()))
                     else ScrolledOne(old(win.y), end, start, false, Blanks(win.View()))
  {
    ghost var was := win.y;
    assert RowOk(win.View(), start);
    ghost var lo, hi := if dir == 1 then start else end, if dir == 1 then end else start;
    var temp := win.y[start];
    var i := start;
    while i != end
      invariant lo <= i <= hi && |win.y| == |was|
      invariant forall k :: RowMoving(was, win.y, start, i, dir, k)
      decreases if dir == 1 then end - i else i - end
    {
      ghost var before := win.y;
      assert RowMoving(was, before, start, i, dir, i + dir);
      win.y := win.y[i := win.y[i + dir]];
      var next := i + dir;
      forall k ensures RowMoving(was, win.y, start, next, dir, k) {
        assert RowMoving(was, before, start, i, dir, k);
      }
      i := next;
    }
    ghost var moved := win.y;
    win.y := win.y[end := temp];
    forall k | 0 <= k < |was| ensures win.y[k] == Rotated(was, lo, hi, dir == 1)[k] {
      assert RowMoving(was, moved, start, end, dir, k);
      RotatedAt(was, lo, hi, dir == 1, k);
    }
    assert win.y == Rotated(was, lo, hi, dir == 1);
    BlankLine(win, end);
  }

  method BlankLine(win: Window, r: int)
    requires 0 <= r < |win.y| && |win.y[r].cells| == win.maxx
    modifies win`y
    ensures win.y == old(win.y)[r := old(win.y[r]).(cells := Blanks(win.View()))]
  {
    ghost var row := win.y[r].cells;
    FilledNone(row, 0, win.bkgd);
    ghost var y := win.y;
    var i := 0;
    while i < win.maxx
      invariant 0 <= i <= win.maxx && win.y == y[r := y[r].(cells := Filled(row, 0, i, win.bkgd))]
    {
      FilledNext(row, 0, i, win.bkgd);
      win.Write(r, i, win.bkgd);
      i := i + 1;
    }
    assert Filled(row, 0, win.maxx, win.bkgd) == Blanks(win.View());
  }

  /** Line `l` of a scroll. */
  method ScrollNext(win: Window, start: int, end: int, dir: int, ghost w: Win, ghost l: nat)
    requires Ok(w) && win.View() == Moving(w, dir == 1, l)
    requires (dir == 1 && start == w.tmarg && end == w.bmarg) || (dir == -1 && start == w.bmarg && end == w.tmarg)
    modifies win`y
    ensures win.View() == Moving(w, dir == 1, l + 1)
  {
    ScrollingShaped(w, dir == 1, l, win.View());
    ScrollOne(win, start, end, dir);
  }

  /** The loop of `wscrl`. */
  method ScrollLines(win: Window, n: int)
    requires Ok(win.View())
    modifies win`y
    ensures win.View() == Moved(old(win.View()), n)
  {
    ghost var w := win.View();
    var start, end, dir, count := win.bmarg, win.tmarg, -1, -n;
    if n > 0 {
      start, end, dir, count := win.tmarg, win.bmarg, 1, n;
    }
    var l := 0;
    while l < count
      invariant 0 <= l <= Magnitude(n)
      invariant win.View() == Moving(w, n > 0, l)
    {
      ScrollNext(win, start, end, dir, w, l);
      l := l + 1;
    }
  }

  /** `wscrl`. */
  method Scrl(win: Window, n: int) returns (ok: bool)
    requires Ok(win.View())
    modifies win`y, win`firstch, win`lastch
    ensures ok == (win.scroll && n != 0)
    ensures win.View() == if ok then Scrolled(old(win.View()), n) else old(win.View())
  {
    ok := win.scroll && n != 0;
    if ok {
      ScrollLines(win, n);
      var touched := TouchLine(win, win.tmarg, win.bmarg - win.tmarg + 1);
    }
  }
}
