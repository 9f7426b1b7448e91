/** Bringing the screen up to date, `doupdate` and `wrefresh` of src/kernel/curses/refresh.c. */
module Update {
  import opened Machine
  import opened Cells
  import opened CursesWindow
  import opened Refresh
  import opened Packets

  /** Changed cells of a line that are written together. */
  datatype Run = Run(line: nat, first: int, len: int)

  predicate Changed(src: seq<Cell>, dest: seq<Cell>, c: int)
    requires |src| == |dest|
  {
    0 <= c < |src| && src[c] != dest[c]
  }

  /** From `first` to `end`, an unchanged cell is followed by a changed one. */
  ghost predicate Linked(src: seq<Cell>, dest: seq<Cell>, first: int, end: int, c: int)
    requires |src| == |dest|
  {
    first <= c < end ==> Changed(src, dest, c) || Changed(src, dest, c + 1)
  }

  ghost predicate AllLinked(src: seq<Cell>, dest: seq<Cell>, first: int, end: int)
    requires |src| == |dest|
  {
    forall c :: Linked(src, dest, first, end, c)
  }

  /** A run begins and ends with a changed cell, and no two cells in a row are unchanged. */
  ghost predicate RunOk(src: seq<Cell>, dest: seq<Cell>, first: int, len: int) {
    && |src| == |dest| && len > 0 && 0 <= first && first + len <= |src|
    && Changed(src, dest, first) && Changed(src, dest, first + len - 1)
    && AllLinked(src, dest, first, first + len - 1)
  }

  /** A run that ends before `end` cannot be longer: there the columns end, or the next two cells are unchanged. */
  predicate Stops(src: seq<Cell>, dest: seq<Cell>, end: int, last: int)
    requires |src| == |dest|
  {
    end == last + 1 || (!Changed(src, dest, end) && (end < last ==> !Changed(src, dest, end + 1)))
  }

  /** The length of the run that begins at `first`, as long as it may be; 0 if the cell there is unchanged. */
  method FindRun(src: seq<Cell>, dest: seq<Cell>, first: int, last: int) returns (len: int)
    requires |src| == |dest| && 0 <= first <= last < |src|
    ensures if Changed(src, dest, first) then RunOk(src, dest, first, len) else len == 0
    ensures first + len <= last + 1 && (len > 0 ==> Stops(src, dest, first + len, last))
  {
    len := 0;
    while first + len <= last &&
          (src[first + len] != dest[first + len] ||
           (len != 0 && first + len < last && src[first + len + 1] != dest[first + len + 1]))
      invariant 0 <= len && first + len <= last + 1
      invariant len > 0 ==> Changed(src, dest, first)
      invariant AllLinked(src, dest, first, first + len)
      invariant len > 0 && !Changed(src, dest, first + len - 1) ==> first + len <= last
    {
      ghost var end := first + len + 1;
      forall c ensures Linked(src, dest, first, end, c) {
        assert Linked(src, dest, first, first + len, c);
      }
      len := len + 1;
    }
    assert len > 0 ==> Linked(src, dest, first, first + len, first + len - 1);
    ghost var end := first + len - 1;
    forall c ensures Linked(src, dest, first, end, c) {
      assert Linked(src, dest, first, first + len, c);
    }
  }

  /** The loop that steps over unchanged cells. */
  method SkipUnchanged(src: seq<Cell>, dest: seq<Cell>, first: int, last: int) returns (f: int)
    requires |src| == |dest| && 0 <= first <= last + 1 <= |src|
    ensures first <= f <= last + 1 && (f <= last ==> Changed(src, dest, f))
    ensures forall c :: first <= c < f ==> !Changed(src, dest, c)
  {
    f := first;
    while f <= last && src[f] == dest[f]
      invariant first <= f <= last + 1 && forall c :: first <= c < f ==> !Changed(src, dest, c)
    {
      f := f + 1;
    }
  }

  /** The cells of `dest` before column `x` replaced by those of `src`. */
  function Prefixed(src: seq<Cell>, dest: seq<Cell>, x: int): (r: seq<Cell>)
    requires |src| == |dest| && 0 <= x <= |src|
    ensures |r| == |src|
  {
    seq(|src|, c requires 0 <= c < |src| => if c < x then src[c] else dest[c])
  }

  lemma PrefixedNext(src: seq<Cell>, dest: seq<Cell>, x: int, end: int)
    requires |src| == |dest| && 0 <= x <= end <= |src|
    ensures Spliced(Prefixed(src, dest, x), x, src[x..end]) == Prefixed(src, dest, end)
  {
  }

  lemma PrefixedSame(src: seq<Cell>, dest: seq<Cell>, x: int, end: int)
    requires |src| == |dest| && 0 <= x <= end <= |src|
    requires forall c :: x <= c < end ==> !Changed(src, dest, c)
    ensures Prefixed(src, dest, end) == Prefixed(src, dest, x)
  {
    forall c | 0 <= c < |src| ensures Prefixed(src, dest, end)[c] == Prefixed(src, dest, x)[c] {
      assert x <= c < end ==> !Changed(src, dest, c);
    }
  }

  lemma ShownNext(a: Adapter, cells: seq<Cell>, x: int, part: seq<Cell>)
    requires 0 <= x && x + |part| <= |cells|
    ensures Spliced(AllShow(a, cells), x, AllShow(a, part)) == AllShow(a, Spliced(cells, x, part))
  {
  }

  /** The screen memory has the size of a window. */
  predicate RowFits(rows: seq<seq<Glyph>>, w: Win, r: int)
    requires |rows| == w.maxy
  {
    0 <= r < w.maxy ==> |rows[r]| == w.maxx
  }

  ghost predicate Fits(rows: seq<seq<Glyph>>, w: Win) {
    Shaped(w) && |rows| == w.maxy && w.maxx <= MAX_LINE && forall r :: RowFits(rows, w, r)
  }

  /** A change of the image that marks what it changes keeps its record of differences from what was written last. */
  lemma MarksKeepTracked(a: Adapter, rows: seq<seq<Glyph>>, s: Win, v: Win, was: Win)
    requires Marks(s, v) && Shaped(was) && |rows| == s.maxy == was.maxy && s.maxx == was.maxx
    requires forall r :: Tracked(a, rows, s, was, r)
    ensures forall r :: Tracked(a, rows, v, was, r)
  {
    forall r ensures Tracked(a, rows, v, was, r) {
      assert Tracked(a, rows, s, was, r) && RowOk(s, r) && RowOk(v, r) && RowOk(was, r);
      if 0 <= r < s.maxy {
        forall c ensures ChangeMarked(v.y[r].cells, was.y[r].cells, v.firstch[r], v.lastch[r], c) {
          assert ChangeMarked(s.y[r].cells, was.y[r].cells, s.firstch[r], s.lastch[r], c) && CellMarked(s, v, r, c);
        }
      }
    }
  }

  /** Only the rows of the image matter to a window's record of its differences from it. */
  lemma TracksRows(w: Win, s: Win, v: Win)
    requires Tracks(w, s) && Shaped(v) && v.y == s.y && v.maxy == s.maxy && v.maxx == s.maxx
    ensures Tracks(w, v)
  {
    forall r, c ensures CellTracked(w, v, r, c) {
      assert CellTracked(w, s, r, c);
    }
  }

  ghost predicate Tracked(a: Adapter, rows: seq<seq<Glyph>>, cur: Win, was: Win, r: int)
    requires Shaped(cur) && Shaped(was) && |rows| == cur.maxy == was.maxy && cur.maxx == was.maxx
  {
    0 <= r < cur.maxy ==>
      assert RowOk(cur, r) && RowOk(was, r);
      && rows[r] == AllShow(a, was.y[r].cells)
      && forall c :: ChangeMarked(cur.y[r].cells, was.y[r].cells, cur.firstch[r], cur.lastch[r], c)
  }

  /** A changed cell lies in the interval. */
  ghost predicate ChangeMarked(src: seq<Cell>, dest: seq<Cell>, first: int, last: int, c: int)
    requires |src| == |dest|
  {
    Changed(src, dest, c) ==> Dirty(first, last, c)
  }

  /** A line of the same width keeps the screen's shape. */
  lemma LineWritten(w: Win, rows: seq<seq<Glyph>>, y: nat, src: seq<Cell>, glyphs: seq<Glyph>)
    requires Fits(rows, w) && y < w.maxy && |src| == |glyphs| == w.maxx
    ensures Fits(rows[y := glyphs], w.(y := w.y[y := w.y[y].(cells := src)]))
  {
    var v := w.(y := w.y[y := w.y[y].(cells := src)]);
    forall r ensures RowOk(v, r) {
      assert RowOk(w, r);
    }
    forall i, j ensures Apart(v.y, i, j) {
      assert Apart(w.y, i, j);
    }
    var next := rows[y := glyphs];
    forall r ensures RowFits(next, v, r) {
      assert RowFits(rows, w, r);
    }
  }

  /** Before its interval, a line is what it should be. */
  lemma StartAt(src: seq<Cell>, dest: seq<Cell>, first: int, last: int, clearall: bool)
    requires |src| == |dest| && 0 <= first <= last + 1 <= |src|
    requires (clearall && first == 0) || forall c :: ChangeMarked(src, dest, first, last, c)
    ensures Prefixed(src, dest, first) == dest
  {
    forall c | 0 <= c < first ensures src[c] == dest[c] {
      assert (clearall && first == 0) || ChangeMarked(src, dest, first, last, c);
    }
  }

  /** And behind it. */
  lemma EndAt(src: seq<Cell>, dest: seq<Cell>, first: int, last: int, clearall: bool)
    requires |src| == |dest| && 0 <= first <= last + 1 <= |src|
    requires (clearall && last == |src| - 1) || forall c :: ChangeMarked(src, dest, first, last, c)
    ensures Prefixed(src, dest, last + 1) == src
  {
    forall c | last + 1 <= c < |src| ensures src[c] == dest[c] {
      assert (clearall && last == |src| - 1) || ChangeMarked(src, dest, first, last, c);
    }
  }

  /** A line without an interval is what it should be. */
  lemma UnmarkedSame(src: seq<Cell>, dest: seq<Cell>, last: int)
    requires |src| == |dest| && forall c :: ChangeMarked(src, dest, NO_CHANGE, last, c)
    ensures src == dest
  {
    forall c | 0 <= c < |src| ensures src[c] == dest[c] {
      assert ChangeMarked(src, dest, NO_CHANGE, last, c);
    }
  }

  lemma CleanShaped(w: Win, r: int)
    requires Shaped(w) && 0 <= r < w.maxy
    ensures Shaped(w.(firstch := w.firstch[r := NO_CHANGE], lastch := w.lastch[r := NO_CHANGE]))
  {
    var v := w.(firstch := w.firstch[r := NO_CHANGE], lastch := w.lastch[r := NO_CHANGE]);
    forall k ensures RowOk(v, k) {
      assert RowOk(w, k);
    }
  }

  /** From `start` on, two runs that follow each other on one line have at least two cells between them. */
  ghost predicate Separate(runs: seq<Run>, start: nat, k: int) {
    start <= k < |runs| - 1 && runs[k].line == runs[k + 1].line ==> runs[k].first + runs[k].len + 2 <= runs[k + 1].first
  }

  /** The runs written since `log` lie on line `y`, are as short as runs may be, and are apart. */
  ghost predicate RunsOk(log: seq<Run>, runs: seq<Run>, y: nat, src: seq<Cell>, dest: seq<Cell>) {
    && log <= runs
    && (forall k :: |log| <= k < |runs| ==> runs[k].line == y && RunOk(src, dest, runs[k].first, runs[k].len))
    && (forall k :: Separate(runs, |log|, k))
  }

  /** The same, and if the line is not finished the last run is apart from what may be written next, at `first`. */
  ghost predicate RunsTo(log: seq<Run>, runs: seq<Run>, y: nat, src: seq<Cell>, dest: seq<Cell>, first: int, last: int) {
    && RunsOk(log, runs, y, src, dest)
    && (first <= last && |log| < |runs| ==> runs[|runs| - 1].first + runs[|runs| - 1].len + 2 <= first)
  }

  lemma OneMoreOk(log: seq<Run>, before: seq<Run>, runs: seq<Run>, y: nat, src: seq<Cell>, dest: seq<Cell>,
                  first0: int, first: int, last: int)
    requires RunsTo(log, before, y, src, dest, first0, last) && first0 <= last && first0 <= first
    requires OneRunMore(before, runs, y, src, dest, first0, first, last, false)
    ensures RunsTo(log, runs, y, src, dest, first, last)
  {
    forall k ensures Separate(runs, |log|, k) {
      assert Separate(before, |log|, k);
    }
  }

  /**
   At most one run has been written, at `first0`. If not everything had to be, it is as short as runs may be, and apart
   from what may be written next, at `first`.
   */
  ghost predicate OneRunMore(log: seq<Run>, runs: seq<Run>, y: nat, src: seq<Cell>, dest: seq<Cell>,
                             first0: int, first: int, last: int, clearall: bool) {
    runs == log || exists len ::
      && runs == log + [Run(y, first0, len)]
      && (clearall || (RunOk(src, dest, first0, len) && (first <= last ==> first0 + len + 2 <= first)))
  }

  /** What is written next, at `first` or nowhere, is apart from a run of `len` cells that was as long as it may be. */
  lemma NextApart(log: seq<Run>, runs: seq<Run>, y: nat, src: seq<Cell>, dest: seq<Cell>,
                  first0: int, len: int, first: int, last: int)
    requires |src| == |dest| && 0 <= first0 <= last < |src| && 0 <= len && first0 + len <= first <= last + 1
    requires runs == log + if len > 0 then [Run(y, first0, len)] else []
    requires if len == 0 then !Changed(src, dest, first0)
             else RunOk(src, dest, first0, len) && Stops(src, dest, first0 + len, last)
    requires first <= last ==> Changed(src, dest, first)
    ensures first0 < first && OneRunMore(log, runs, y, src, dest, first0, first, last, false)
  {
    assert len > 0 && first <= last ==> first0 + len + 2 <= first;
  }

  /** The runs written since `log` lie on lines before `y`, are as short as runs may be, and are apart. */
  ghost predicate EconomicalTo(log: seq<Run>, runs: seq<Run>, cur: seq<Line>, was: seq<Line>, y: nat)
    requires y <= |cur| == |was|
  {
    && log <= runs
    && (forall k :: |log| <= k < |runs| ==>
          runs[k].line < y && RunOk(cur[runs[k].line].cells, was[runs[k].line].cells, runs[k].first, runs[k].len))
    && (forall k :: Separate(runs, |log|, k))
  }

  lemma EconomicalNext(log: seq<Run>, before: seq<Run>, runs: seq<Run>, cur: seq<Line>, was: seq<Line>, y: nat)
    requires y < |cur| == |was| && EconomicalTo(log, before, cur, was, y)
    requires RunsOk(before, runs, y, cur[y].cells, was[y].cells)
    ensures EconomicalTo(log, runs, cur, was, y + 1)
  {
    forall k ensures Separate(runs, |log|, k) {
      assert Separate(before, |log|, k) && Separate(runs, |before|, k);
    }
  }

  /** How many cells are written next. */
  method RunAt(src: seq<Cell>, left: seq<Cell>, ghost dest: seq<Cell>, first: int, last: int, clearall: bool)
    returns (len: int)
    requires |src| == |dest| && 0 <= first <= last < |src| && left == Prefixed(src, dest, first)
    ensures 0 <= len && first + len <= last + 1
    ensures if clearall then first + len == last + 1
            else if Changed(src, dest, first) then RunOk(src, dest, first, len) && Stops(src, dest, first + len, last)
            else len == 0
  {
    len := last - first + 1;
    if !clearall {
      len := FindRun(src, left, first, last);
      SameRun(src, dest, first, len);
    }
  }

  /** A run of the cells that are left is a run of the whole line. */
  lemma SameRun(src: seq<Cell>, dest: seq<Cell>, first: int, len: int)
    requires |src| == |dest| && 0 <= first < |src| && 0 <= len <= |src| - first
    requires if Changed(src, Prefixed(src, dest, first), first) then RunOk(src, Prefixed(src, dest, first), first, len)
             else len == 0
    ensures if Changed(src, dest, first) then RunOk(src, dest, first, len) else len == 0
  {
    if len > 0 {
      var left, end := Prefixed(src, dest, first), first + len - 1;
      forall c ensures Linked(src, dest, first, end, c) {
        assert Linked(src, left, first, end, c);
      }
    }
  }

  /** A run takes the line and the row of the screen up to the run's end. */
  lemma WrittenNext(a: Adapter, row: seq<Glyph>, dest: seq<Cell>, src: seq<Cell>, first: int, len: int, clearall: bool)
    requires |row| == |dest| == |src| && 0 <= first && 0 < len && first + len <= |src|
    requires clearall ==> first == 0 && len == |src|
    ensures Spliced(Prefixed(src, dest, first), first, src[first..first + len]) == Prefixed(src, dest, first + len)
    ensures Spliced(if clearall && first == 0 then row else AllShow(a, Prefixed(src, dest, first)), first,
                    AllShow(a, src[first..first + len]))
         == AllShow(a, Prefixed(src, dest, first + len))
  {
    PrefixedNext(src, dest, first, first + len);
    if clearall {
      assert Prefixed(src, dest, first + len) == src[first..first + len];
    } else {
      ShownNext(a, Prefixed(src, dest, first), first, src[first..first + len]);
    }
  }

  /** A window that is to be cleared, of the size of the screen. */
  predicate Clears(w: Win, s: Win) {
    w.clear && w.maxy == s.maxy && w.maxx == s.maxx
  }

  /** The image that `wrefresh` brings to the screen; a window of its size that is to be cleared clears it. */
  function ToShow(w: Win, s: Win): Win
    requires Shaped(w) && Shaped(s) && Within(w, s)
  {
    var v := CopiedOut(w, s);
    if Clears(w, s) then v.(clear := true) else v
  }

  /** The end of a line's interval after `doupdate`: only a line that is looked at is reset. */
  function SettledLast(s: Win, r: nat): int
    requires r < |s.firstch| == |s.lastch|
  {
    if s.clear || s.firstch[r] != NO_CHANGE then NO_CHANGE else s.lastch[r]
  }

  /** The image after `doupdate`: no line is marked. */
  function Settled(s: Win): Win
    requires |s.firstch| == |s.lastch| == s.maxy
  {
    s.(firstch := seq(s.maxy, _ => NO_CHANGE),
       lastch := seq(s.maxy, r requires 0 <= r < s.maxy => SettledLast(s, r)), clear := false)
  }

  /** What was written last after `doupdate`: the cells of the image. */
  function Recorded(last: Win, s: Win): Win
    requires |last.y| == |s.y|
  {
    last.(y := seq(|last.y|, r requires 0 <= r < |last.y| => last.y[r].(cells := s.y[r].cells)))
  }

  /** A screen that shows an image. */
  function Screenful(a: Adapter, s: Win): seq<seq<Glyph>> {
    seq(|s.y|, r requires 0 <= r < |s.y| => AllShow(a, s.y[r].cells))
  }

  lemma SettledShaped(s: Win)
    requires Shaped(s)
    ensures Shaped(Settled(s))
  {
    var v := Settled(s);
    forall r ensures RowOk(v, r) {
      assert RowOk(s, r);
    }
  }

  /** What `doupdate` leaves fits together, and nothing is left to do. */
  lemma ShownFits(a: Adapter, s: Win, was: Win)
    requires Shaped(s) && Shaped(was) && s.maxy == was.maxy && s.maxx == was.maxx <= MAX_LINE
    ensures var v, last, rows := Settled(s), Recorded(was, s), Screenful(a, s);
      && Shaped(v) && Shaped(last) && Fits(rows, last)
      && forall r :: Tracked(a, rows, v, last, r)
  {
    var v, last, rows := Settled(s), Recorded(was, s), Screenful(a, s);
    SettledShaped(s);
    forall r ensures RowOk(last, r) && RowFits(rows, last, r) {
      assert RowOk(s, r) && RowOk(was, r);
    }
    forall i, j ensures Apart(last.y, i, j) {
      assert Apart(was.y, i, j);
    }
    forall r ensures Tracked(a, rows, v, last, r) {
      assert RowOk(v, r) && RowOk(last, r);
    }
  }

  /** The screen. */
  class Screen {
    const video: Video
    const curscr: Window
    const lastscr: Window
    var cursrow: int
    var curscol: int
    /** All runs that have been written. */
    ghost var runs: seq<Run>

    constructor (video: Video, curscr: Window, lastscr: Window)
      ensures this.video == video && this.curscr == curscr && this.lastscr == lastscr && runs == []
    {
      this.video, this.curscr, this.lastscr := video, curscr, lastscr;
      cursrow, curscol, runs := 0, 0, [];
    }

    /** The image, what was written last and the screen memory have one size, at most as wide as a packet may be. */
    ghost predicate Consistent()
      reads this, video, curscr, lastscr
    {
      && curscr != lastscr
      && Shaped(curscr.View()) && Shaped(lastscr.View()) && Fits(video.rows, lastscr.View())
      && curscr.maxy == lastscr.maxy && curscr.maxx == lastscr.maxx
      && curscr.begy == lastscr.begy == curscr.begx == lastscr.begx == 0
    }

    /** One run written, and recorded as what was written last. */
    method WriteRun(y: nat, first: int, src: seq<Cell>)
      requires y < |lastscr.y| && y < |video.rows| && |lastscr.y[y].cells| == |video.rows[y]| <= MAX_LINE
      requires 0 <= first && 0 < |src| && first + |src| <= |video.rows[y]|
      modifies video, lastscr`y, `runs
      ensures video.rows == old(video.rows)[y := Spliced(old(video.rows[y]), first, AllShow(video.adapter, src))]
      ensures lastscr.y == old(lastscr.y)[y := old(lastscr.y[y]).(cells := Spliced(old(lastscr.y[y].cells), first, src))]
      ensures runs == old(runs) + [Run(y, first, |src|)]
    {
      video.TransformLine(y, first, src);
      lastscr.y := lastscr.y[y := lastscr.y[y].(cells := Spliced(lastscr.y[y].cells, first, src))];
      runs := runs + [Run(y, first, |src|)];
    }

    /** Line `y`, what it is to become, and what it was, are equally wide. */
    ghost predicate Ready(y: nat, src: seq<Cell>, rows: seq<seq<Glyph>>, was: seq<Line>)
      reads this, video, lastscr
    {
      && y < |lastscr.y| == |was| && y < |video.rows| == |rows|
      && |src| == |was[y].cells| == |lastscr.y[y].cells| == |video.rows[y]| == |rows[y]| <= MAX_LINE
    }

    /** Line `y` is written up to column `first`. */
    ghost predicate Written(rows: seq<seq<Glyph>>, last: seq<Line>, y: nat, src: seq<Cell>, first: int, clearall: bool)
      requires y < |rows| && y < |last| && |src| == |last[y].cells| && 0 <= first <= |src|
      reads this, video, lastscr
    {
      var cells := Prefixed(src, last[y].cells, first);
      && lastscr.y == last[y := last[y].(cells := cells)]
      && video.rows == rows[y := if clearall && first == 0 then rows[y] else AllShow(video.adapter, cells)]
    }

    /** A run is written, and with it line `y` up to the run's end. */
    method WriteNext(y: nat, first: int, len: int, clearall: bool, src: seq<Cell>,
                     ghost rows: seq<seq<Glyph>>, ghost was: seq<Line>)
      requires Ready(y, src, rows, was)
      requires 0 <= first && 0 < len && first + len <= |src| && (clearall ==> first == 0 && len == |src|)
      requires Written(rows, was, y, src, first, clearall)
      modifies video, lastscr`y, `runs
      ensures Ready(y, src, rows, was) && Written(rows, was, y, src, first + len, clearall)
      ensures runs == old(runs) + [Run(y, first, len)]
    {
      WrittenNext(video.adapter, rows[y], was[y].cells, src, first, len, clearall);
      WriteRun(y, first, src[first..first + len]);
    }

    /** One turn of the loop over a line: the next run, if there is one, and the unchanged cells behind it. */
    method NextRun(y: nat, first0: int, last: int, clearall: bool, src: seq<Cell>,
                   ghost rows: seq<seq<Glyph>>, ghost was: seq<Line>)
      returns (first: int)
      requires Ready(y, src, rows, was)
      requires 0 <= first0 <= last < |src| && (clearall ==> first0 == 0 && last == |src| - 1)
      requires Written(rows, was, y, src, first0, clearall)
      modifies video, lastscr`y, `runs
      ensures Ready(y, src, rows, was) && first0 < first <= last + 1 && (clearall ==> first == last + 1)
      ensures Written(rows, was, y, src, first, clearall)
      ensures OneRunMore(old(runs), runs, y, src, was[y].cells, first0, first, last, clearall)
    {
      var len := RunLength(y, first0, last, clearall, src, rows, was);
      WriteAny(y, first0, len, clearall, src, rows, was);
      first := SkipCells(y, first0 + len, last, clearall, src, rows, was);
      if !clearall {
        NextApart(old(runs), runs, y, src, was[y].cells, first0, len, first, last);
      }
    }

    /** How many cells of line `y` are written next. */
    method RunLength(y: nat, first: int, last: int, clearall: bool, src: seq<Cell>,
                     ghost rows: seq<seq<Glyph>>, ghost was: seq<Line>)
      returns (len: int)
      requires Ready(y, src, rows, was)
      requires 0 <= first <= last < |src| && (clearall ==> first == 0 && last == |src| - 1)
      requires Written(rows, was, y, src, first, clearall)
      ensures 0 <= len && first + len <= last + 1
      ensures if clearall then first == 0 && len == |src| == last + 1
              else if len == 0 then !Changed(src, was[y].cells, first)
              else RunOk(src, was[y].cells, first, len) && Stops(src, was[y].cells, first + len, last)
    {
      len := RunAt(src, lastscr.y[y].cells, was[y].cells, first, last, clearall);
    }

    /** The run is written, and recorded, unless it is empty. */
    method WriteAny(y: nat, first: int, len: int, clearall: bool, src: seq<Cell>,
                    ghost rows: seq<seq<Glyph>>, ghost was: seq<Line>)
      requires Ready(y, src, rows, was)
      requires 0 <= first && 0 <= len && first + len <= |src| && (clearall ==> first == 0 && 0 < len == |src|)
      requires Written(rows, was, y, src, first, clearall)
      modifies video, lastscr`y, `runs
      ensures Ready(y, src, rows, was) && Written(rows, was, y, src, first + len, clearall)
      ensures runs == old(runs) + if len > 0 then [Run(y, first, len)] else []
    {
      if len > 0 {
        WriteNext(y, first, len, clearall, src, rows, was);
      }
    }

    method SkipCells(y: nat, first0: int, last: int, clearall: bool, src: seq<Cell>,
                     ghost rows: seq<seq<Glyph>>, ghost was: seq<Line>)
      returns (first: int)
      requires Ready(y, src, rows, was)
      requires 0 <= first0 <= last + 1 <= |src| && (clearall ==> first0 == last + 1 > 0)
      requires Written(rows, was, y, src, first0, clearall)
      ensures first0 <= first <= last + 1 && Written(rows, was, y, src, first, clearall)
      ensures first <= last ==> Changed(src, was[y].cells, first)
      ensures forall c :: first0 <= c < first ==> !Changed(src, was[y].cells, c)
    {
      var dest := lastscr.y[y].cells;
      first := SkipUnchanged(src, dest, first0, last);
      forall c | first0 <= c < first ensures !Changed(src, was[y].cells, c) {
        assert !Changed(src, dest, c);
      }
      PrefixedSame(src, was[y].cells, first0, first);
    }

    /** The screen shows what was written last on line `y`, and the line's interval holds all that has changed since. */
    ghost predicate LineTracked(y: int)
      requires Consistent()
      reads this, video, curscr, lastscr
    {
      Tracked(video.adapter, video.rows, curscr.View(), lastscr.View(), y)
    }

    /** The loop of `doupdate` over a line. */
    method WriteLine(y: nat, first0: int, last: int, clearall: bool, src: seq<Cell>)
      requires Consistent() && Ready(y, src, video.rows, lastscr.y) && y < curscr.maxy && src == curscr.y[y].cells
      requires 0 <= first0 <= last + 1 <= |src|
      requires if clearall then first0 == 0 && last == |src| - 1
               else LineTracked(y) && (curscr.firstch[y] == first0 != NO_CHANGE) && curscr.lastch[y] == last
      modifies video, lastscr`y, `runs
      ensures Consistent() && y < |old(lastscr.y)| && y < |old(video.rows)|
      ensures video.rows == old(video.rows)[y := AllShow(video.adapter, src)]
      ensures lastscr.y == old(lastscr.y)[y := old(lastscr.y)[y].(cells := src)]
      ensures clearall || RunsOk(old(runs), runs, y, src, old(lastscr.y)[y].cells)
    {
      ghost var w, rows, was, log := lastscr.View(), video.rows, lastscr.y, runs;
      assert RowOk(w, y);
      ghost var dest := was[y].cells;
      StartAt(src, dest, first0, last, clearall);
      var first := first0;
      while first <= last
        invariant first0 <= first <= last + 1 && (clearall && first > 0 ==> first == last + 1)
        invariant Ready(y, src, rows, was) && Written(rows, was, y, src, first, clearall)
        invariant clearall || RunsTo(log, runs, y, src, dest, first, last)
      {
        ghost var before, at := runs, first;
        first := NextRun(y, first, last, clearall, src, rows, was);
        if !clearall {
          OneMoreOk(log, before, runs, y, src, dest, at, first, last);
        }
      }
      EndAt(src, dest, first0, last, clearall);
      LineWritten(w, rows, y, src, AllShow(video.adapter, src));
    }

    /** Line `r` is up to date: on the screen, in what was written last, and marked clean. */
    ghost predicate LineDone(r: int)
      requires Consistent()
      reads this, video, curscr, lastscr
    {
      0 <= r < curscr.maxy ==>
        && video.rows[r] == AllShow(video.adapter, curscr.y[r].cells)
        && lastscr.y[r].cells == curscr.y[r].cells && curscr.firstch[r] == NO_CHANGE
    }

    /** Line `r` is up to date, and is otherwise as it was. */
    ghost predicate LineSettled(r: int, cur: Win, was: Win)
      requires Consistent() && |cur.firstch| == |cur.lastch| == |was.y| == curscr.maxy
      reads this, video, curscr, lastscr
    {
      LineDone(r) && (0 <= r < curscr.maxy ==>
        lastscr.y[r] == was.y[r].(cells := curscr.y[r].cells) && curscr.lastch[r] == SettledLast(cur, r))
    }

    /** Line `r` is as it was. */
    ghost predicate LineWaits(r: int, cur: Win, was: Win, rows: seq<seq<Glyph>>)
      requires Consistent() && |cur.firstch| == |cur.lastch| == |was.y| == |rows| == curscr.maxy
      reads this, video, curscr, lastscr
    {
      0 <= r < curscr.maxy ==>
        && video.rows[r] == rows[r] && lastscr.y[r] == was.y[r]
        && curscr.firstch[r] == cur.firstch[r] && curscr.lastch[r] == cur.lastch[r]
    }

    /** One turn of the loop of `doupdate` over the lines. */
    method UpdateLine(y: nat, clearall: bool)
      requires Consistent() && y < curscr.maxy && (clearall || LineTracked(y))
      modifies video, lastscr`y, curscr`firstch, curscr`lastch, `runs
      ensures Consistent() && LineDone(y)
      ensures |video.rows| == |old(video.rows)| && |lastscr.y| == |old(lastscr.y)|
      ensures video.rows == old(video.rows)[y := video.rows[y]]
      ensures lastscr.y == old(lastscr.y)[y := old(lastscr.y)[y].(cells := curscr.y[y].cells)]
      ensures curscr.firstch == old(curscr.firstch)[y := NO_CHANGE]
      ensures curscr.lastch == old(curscr.lastch)[y := if clearall || old(curscr.firstch)[y] != NO_CHANGE then NO_CHANGE
                                                       else old(curscr.lastch)[y]]
      ensures clearall || RunsOk(old(runs), runs, y, curscr.y[y].cells, old(lastscr.y)[y].cells)
    {
      assert RowOk(curscr.View(), y) && RowOk(lastscr.View(), y) && RowFits(video.rows, lastscr.View(), y);
      var src := curscr.y[y].cells;
      if !clearall && curscr.firstch[y] == NO_CHANGE {
        UnmarkedSame(src, lastscr.y[y].cells, curscr.lastch[y]);
      } else {
        var first, last := 0, curscr.maxx - 1;
        if !clearall {
          first, last := curscr.firstch[y], curscr.lastch[y];
        }
        WriteLine(y, first, last, clearall, src);
        CleanShaped(curscr.View(), y);
        MarkClean(curscr, y);
      }
    }

    /** The screen shows what was written last, and the image has marked all that has changed since. */
    ghost predicate Synced()
      requires Consistent()
      reads this, video, curscr, lastscr
    {
      forall r :: LineTracked(r)
    }

    /** Lines before `y` are up to date, and the others are as they were. */
    ghost predicate UpTo(y: int, cur: Win, was: Win, rows: seq<seq<Glyph>>)
      requires Consistent() && |cur.firstch| == |cur.lastch| == |was.y| == |rows| == curscr.maxy
      reads this, video, curscr, lastscr
    {
      (forall r :: r < y ==> LineSettled(r, cur, was)) && (forall r :: r >= y ==> LineWaits(r, cur, was, rows))
    }

    /** The runs written since `log` lie on lines before `y`, are as short as runs may be, and are apart. */
    ghost predicate Economical(log: seq<Run>, was: Win, y: nat)
      requires y <= |was.y| == |curscr.y|
      reads this, curscr
    {
      EconomicalTo(log, runs, curscr.y, was.y, y)
    }

    method UpdateNext(y: nat, clearall: bool, ghost cur: Win, ghost was: Win, ghost rows: seq<seq<Glyph>>,
                      ghost log: seq<Run>)
      requires Consistent() && |cur.firstch| == |cur.lastch| == |was.y| == |rows| == curscr.maxy && y < curscr.maxy
      requires UpTo(y, cur, was, rows) && (clearall || LineTracked(y)) && clearall == cur.clear
      requires clearall || Economical(log, was, y)
      modifies video, lastscr`y, curscr`firstch, curscr`lastch, `runs
      ensures Consistent() && UpTo(y + 1, cur, was, rows)
      ensures clearall || Economical(log, was, y + 1)
    {
      assert LineWaits(y, cur, was, rows);
      ghost var before := runs;
      label L:
      UpdateLine(y, clearall);
      if !clearall {
        EconomicalNext(log, before, runs, curscr.y, was.y, y);
      }
      ghost var next := y + 1;
      forall r | r < next ensures LineSettled(r, cur, was) {
        assert r < y ==> old@L(LineSettled(r, cur, was));
      }
      forall r | r >= next ensures LineWaits(r, cur, was, rows) {
        assert old@L(LineWaits(r, cur, was, rows));
      }
    }

    /** All lines are up to date. */
    ghost predicate UpToDate()
      requires Consistent()
      reads this, video, curscr, lastscr
    {
      forall r :: LineDone(r)
    }

    method UpdateLines(clearall: bool, ghost cur: Win, ghost was: Win)
      requires Consistent() && cur == curscr.View() && was == lastscr.View() && (clearall || Synced())
      requires clearall == cur.clear
      modifies video, lastscr`y, curscr`firstch, curscr`lastch, `runs
      ensures Consistent() && AllSettled(cur, was) && (clearall || Economical(old(runs), was, curscr.maxy))
      ensures OnlyLines(cur, was)
    {
      ghost var rows, log := video.rows, runs;
      var y: nat := 0;
      while y < curscr.maxy
        invariant y <= curscr.maxy && Consistent() && UpTo(y, cur, was, rows)
        invariant clearall || Economical(log, was, y)
      {
        assert LineWaits(y, cur, was, rows);
        assert clearall || (old(LineTracked(y)) && LineTracked(y));
        UpdateNext(y, clearall, cur, was, rows, log);
        y := y + 1;
      }
      forall r ensures LineSettled(r, cur, was) {
      }
    }

    /** All lines are up to date, and otherwise as they were. */
    ghost predicate AllSettled(cur: Win, was: Win)
      requires Consistent() && |cur.firstch| == |cur.lastch| == |was.y| == curscr.maxy
      reads this, video, curscr, lastscr
    {
      forall r :: LineSettled(r, cur, was)
    }

    /** Then the whole state is determined. */
    lemma SettledIs(cur: Win, was: Win)
      requires Consistent() && |cur.firstch| == |cur.lastch| == |was.y| == |cur.y| == cur.maxy == curscr.maxy
      requires AllSettled(cur, was) && cur.y == curscr.y
      ensures UpToDate()
      ensures curscr.firstch == Settled(cur).firstch && curscr.lastch == Settled(cur).lastch
      ensures lastscr.y == Recorded(was, cur).y && video.rows == Screenful(video.adapter, cur)
    {
      forall r ensures LineDone(r) {
        assert LineSettled(r, cur, was);
      }
      forall r | 0 <= r < curscr.maxy
        ensures curscr.firstch[r] == NO_CHANGE && curscr.lastch[r] == SettledLast(cur, r)
        ensures lastscr.y[r] == was.y[r].(cells := cur.y[r].cells) && video.rows[r] == AllShow(video.adapter, cur.y[r].cells)
      {
        assert LineSettled(r, cur, was);
      }
    }

    /** The image `cur` has been brought to the screen, when `was` was written last. */
    ghost predicate HasShown(cur: Win, was: Win)
      reads this, video, curscr, lastscr
    {
      && |was.y| == |cur.y| && |cur.firstch| == |cur.lastch| == cur.maxy
      && curscr.View() == Settled(cur) && lastscr.View() == Recorded(was, cur)
      && video.rows == Screenful(video.adapter, cur)
    }

    /**
     `doupdate`, not after `endwin`: the screen, what was written last and the image agree, and no line is marked. If
     not everything had to be written, the runs are as short as runs may be, and two of them on one line are apart.
     */
    method DoUpdate()
      requires Consistent() && (curscr.clear || Synced())
      modifies video, lastscr`y, curscr`firstch, curscr`lastch, curscr`clear, this
      ensures Consistent() && UpToDate() && !curscr.clear
      ensures old(curscr.clear) || Economical(old(runs), old(lastscr.View()), curscr.maxy)
      ensures cursrow == curscr.cury && curscol == curscr.curx && Synced()
      ensures HasShown(old(curscr.View()), old(lastscr.View()))
    {
      ghost var cur, was := curscr.View(), lastscr.View();
      UpdateLines(curscr.clear, cur, was);
      Finish(cur, was);
    }

    lemma ShowSynced()
      requires Consistent() && UpToDate()
      ensures Synced()
    {
      forall r ensures LineTracked(r) {
        assert LineDone(r);
      }
    }

    /** Only intervals of the image, and rows of what was written last, have changed. */
    ghost predicate OnlyLines(cur: Win, was: Win)
      reads this, curscr, lastscr
    {
      curscr.View() == cur.(firstch := curscr.firstch, lastch := curscr.lastch) && lastscr.View() == was.(y := lastscr.y)
    }

    method Finish(ghost cur: Win, ghost was: Win)
      requires Consistent() && |cur.firstch| == |cur.lastch| == |was.y| == |cur.y| == cur.maxy == curscr.maxy
      requires AllSettled(cur, was) && OnlyLines(cur, was)
      modifies curscr`clear, `cursrow, `curscol
      ensures Consistent() && UpToDate() && !curscr.clear && cursrow == curscr.cury && curscol == curscr.curx
      ensures Synced() && HasShown(cur, was)
    {
      SettledIs(cur, was);
      ghost var w := curscr.View();
      label L:
      curscr.clear := false;
      cursrow, curscol := curscr.cury, curscr.curx;
      SameRowsMark(w, curscr.View());
      forall r ensures LineDone(r) {
        assert old@L(LineDone(r));
      }
      ShowSynced();
    }

    /** The image after a window has been copied to it is as consistent as before, and has marked what has changed. */
    method CopyOut(win: Window)
      requires Consistent() && win != lastscr && win != curscr
      requires Shaped(win.View()) && Tracks(win.View(), curscr.View())
      modifies win`firstch, win`lastch, win`clear, curscr`y, curscr`firstch, curscr`lastch, curscr`cury, curscr`curx
      ensures Consistent() && (old(Synced()) ==> Synced())
      ensures Tracks(old(win.View()), old(curscr.View()))
      ensures win.View() == Clean(old(win.View()))
      ensures curscr.View() == CopiedOut(old(win.View()), old(curscr.View()))
    {
      ghost var s, was, synced := curscr.View(), lastscr.View(), Synced();
      CopiedOutIs(win.View(), s);
      if synced {
        forall r ensures Tracked(video.adapter, video.rows, s, was, r) {
          assert LineTracked(r);
        }
        MarksKeepTracked(video.adapter, video.rows, s, CopiedOut(win.View(), s), was);
      }
      NoutRefresh(win, curscr);
      if synced {
        forall r ensures LineTracked(r) {
          assert Tracked(video.adapter, video.rows, curscr.View(), was, r);
        }
      }
    }

    /** The place of the screen shows that place of a window, or else what the image had there. */
    ghost predicate ShowsPainted(w: Win, s: Win, r: int, c: int)
      requires Shaped(w) && Shaped(s) && Within(w, s)
      reads this, video
    {
      0 <= r < s.maxy && 0 <= c < s.maxx ==>
        r < |video.rows| && c < |video.rows[r]| &&
        video.rows[r][c] == Shows(video.adapter, Painted(w, s, w.maxy, r, c))
    }

    /**
     `wrefresh` of a window that keeps record of its differences from the image: the screen shows the window where it
     lies, and elsewhere what the image had; both are clean, and the cursor stands where the window has it. If the window
     is to be cleared and has the size of the screen, it does not matter what the screen showed before.
     */
    method WRefresh(win: Window)
      requires Consistent() && win != lastscr && win != curscr
      requires Shaped(win.View()) && Tracks(win.View(), curscr.View())
      requires curscr.clear || Synced() || Clears(win.View(), curscr.View())
      modifies win`firstch, win`lastch, win`clear, video, lastscr`y, curscr`y, curscr`firstch, curscr`lastch,
               curscr`clear, curscr`cury, curscr`curx, this
      ensures Consistent() && UpToDate() && Synced() && win.View() == Clean(old(win.View()))
      ensures Tracks(old(win.View()), old(curscr.View())) && Tracks(win.View(), curscr.View())
      ensures forall r, c :: ShowsPainted(old(win.View()), old(curscr.View()), r, c)
      ensures HasShown(ToShow(old(win.View()), old(curscr.View())), old(lastscr.View()))
      ensures cursrow == if win.leaveit then old(curscr.cury) else win.begy + win.cury
      ensures curscol == if win.leaveit then old(curscr.curx) else win.begx + win.curx
    {
      ghost var w, s := win.View(), curscr.View();
      CopyToShow(win);
      DoUpdate();
      PaintedShows(w, s);
      CopiedOutIs(w, s);
      TracksRows(Clean(w), CopiedOut(w, s), curscr.View());
    }

    /** What `wrefresh` does before `doupdate`. */
    method CopyToShow(win: Window)
      requires Consistent() && win != lastscr && win != curscr
      requires Shaped(win.View()) && Tracks(win.View(), curscr.View())
      requires curscr.clear || Synced() || Clears(win.View(), curscr.View())
      modifies win`firstch, win`lastch, win`clear, curscr`y, curscr`firstch, curscr`lastch, curscr`clear,
               curscr`cury, curscr`curx
      ensures Consistent() && (curscr.clear || Synced())
      ensures Tracks(old(win.View()), old(curscr.View()))
      ensures win.View() == Clean(old(win.View()))
      ensures curscr.View() == ToShow(old(win.View()), old(curscr.View()))
    {
      var saveClear := win.clear;
      CopyOut(win);
      if saveClear && win.maxy == curscr.maxy && win.maxx == curscr.maxx {
        SetClear();
      }
    }

    /** When all lines are up to date, the screen shows the image that a window was copied to. */
    lemma PaintedShows(w: Win, s: Win)
      requires Consistent() && UpToDate() && Tracks(w, s)
      requires s.maxy == curscr.maxy && s.maxx == curscr.maxx && curscr.y == CopiedOut(w, s).y
      ensures forall r, c :: ShowsPainted(w, s, r, c)
    {
      var v := CopiedOut(w, s);
      CopiedOutIs(w, s);
      forall r, c ensures ShowsPainted(w, s, r, c) {
        assert LineDone(r) && PaintedAt(w, s, v, r, c) && RowOk(v, r);
      }
    }

    method SetClear()
      requires Consistent()
      modifies curscr`clear
      ensures Consistent() && curscr.View() == old(curscr.View()).(clear := true)
    {
      ghost var s := curscr.View();
      curscr.clear := true;
      SameRowsMark(s, curscr.View());
    }

    /** `wrefresh` of the image itself: everything is written again, whatever the screen shows. */
    method WRefreshImage()
      requires Consistent()
      modifies video, lastscr`y, curscr`firstch, curscr`lastch, curscr`clear, this
      ensures Consistent() && UpToDate() && Synced()
    {
      SetClear();
      DoUpdate();
    }
  }
}
