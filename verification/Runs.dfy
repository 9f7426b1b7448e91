/**
 Whole runs of the operations of src/kernel/curses on windows that share a screen and may overlap there: windows are
 made, resized, touched and drawn on, copied to the screen image, and brought to the screen.
 */
module Runs {
  import opened Cells
  import opened CursesWindow
  import opened Clear
  import opened Scroll
  import opened AddCh
  import opened AddChStr
  import opened Border
  import opened Overlay
  import opened Resize
  import opened Refresh
  import opened Packets
  import opened Update

  /** A call of one of the drawing operations. */
  datatype Call =
    | Add(ch: Cell)
    | AddString(cells: seq<Cell>, n: int)
    | ClearToEol
    | ClearToBottom
    | EraseAll
    | DrawFrame(frame: Frame)
    | Horizontal(ch: Cell, n: int)
    | Vertical(ch: Cell, n: int)
    | Change(n: int, newattr: Cell)
    | ScrollLines(n: int)
    | MoveTo(y: int, x: int)
    | CopyFrom(src: Win, overlay: bool)

  /** The window after a call; a call that returns an error leaves it as it is, or as far as it came. */
  ghost function Called(w: Win, call: Call, t: Terminal): (v: Win)
    requires Ok(w) && t.tabSize > 0
    ensures Marks(w, v) && Ok(v)
  {
    MarksItself(w);
    match call
    case Add(ch) => AddedCh(w, ch, t).win
    case AddString(cells, n) => if n == 0 || n < -1 then w else AddedStr(w, cells, n)
    case ClearToEol =>
      RowClearedMarks(w, w.cury, w.curx);
      ClearedToEol(w)
    case ClearToBottom => ClearedToBottom(w)
    case EraseAll => Erased(w)
    case DrawFrame(frame) => Bordered(w, PassedFrame(w, frame))
    case Horizontal(ch, n) => if n < 1 then w else HLined(w, ch, n)
    case Vertical(ch, n) => if n < 1 then w else VLined(w, ch, n)
    case Change(n, newattr) => AttributesChanged(w, n, newattr)
    case ScrollLines(n) => if !w.scroll || n == 0 then w else Scrolled(w, n)
    case MoveTo(y, x) =>
      if 0 <= x < w.maxx && 0 <= y < w.maxy then
        SameRowsMark(w, w.(cury := y, curx := x));
        w.(cury := y, curx := x)
      else w
    case CopyFrom(src, overlay) => if Shaped(src) then Overlapped(src, w, overlay) else w
  }

  ghost function AllCalled(w: Win, calls: seq<Call>, t: Terminal): (v: Win)
    requires Ok(w) && t.tabSize > 0
    decreases |calls|
  {
    if calls == [] then w else AllCalled(Called(w, calls[0], t), calls[1..], t)
  }

  /** Every run of calls keeps the cursor and the margins in range, and marks each cell that it changes. */
  lemma {:induction false} RunsMark(w: Win, calls: seq<Call>, t: Terminal)
    requires Ok(w) && t.tabSize > 0
    ensures Marks(w, AllCalled(w, calls, t)) && Ok(AllCalled(w, calls, t))
    decreases |calls|
  {
    MarksItself(w);
    if calls != [] {
      var v := Called(w, calls[0], t);
      RunsMark(v, calls[1..], t);
      MarksTransitive(w, v, AllCalled(v, calls[1..], t));
    }
  }

  /**
   A window that was tracked when a run began is tracked when it ends, so that copying it to the image shows the whole
   window, and leaves the image as it was elsewhere.
   */
  lemma RunThenRefresh(w: Win, s: Win, calls: seq<Call>, t: Terminal, r: int, c: int)
    requires Ok(w) && t.tabSize > 0 && Tracks(w, s) && 0 <= r < s.maxy && 0 <= c < s.maxx
    ensures var v := AllCalled(w, calls, t);
      && Marks(w, v) && Tracks(v, s) && Marks(s, CopiedOut(v, s))
      && At(CopiedOut(v, s), r, c) == Painted(v, s, v.maxy, r, c)
  {
    var v := AllCalled(w, calls, t);
    RunsMark(w, calls, t);
    MarksKeepTracks(w, v, s);
    CopiedOutIs(v, s);
    assert PaintedAt(v, s, CopiedOut(v, s), r, c);
  }

  /** Two windows have no place of the screen in common. */
  predicate Beside(w: Win, v: Win) {
    || w.begy + w.maxy <= v.begy || v.begy + v.maxy <= w.begy
    || w.begx + w.maxx <= v.begx || v.begx + v.maxx <= w.begx
  }

  /** A place of the screen lies in a window. */
  predicate Covers(w: Win, r: int, c: int) {
    0 <= r - w.begy < w.maxy && 0 <= c - w.begx < w.maxx
  }

  /** The windows of a program, the screen image, what was written last, and what the screen shows. */
  datatype Desk = Desk(windows: seq<Win>, image: Win, last: Win, rows: seq<seq<Glyph>>, adapter: Adapter)

  /**
   What happens to them: a call on one window; `touchwin` of one; `wnoutrefresh` of one, `doupdate`, and `wrefresh` of
   one; and `newwin` and `resize_window`. Windows may overlap. A resized window may reach over the screen, and is then
   not copied out.
   */
  datatype Event =
    | Draw(window: nat, call: Call)
    | TouchAll(window: nat)
    | Show(window: nat)
    | UpdateScreen
    | ShowNow(window: nat)
    | Make(size: ScreenSize, nlines: int, ncols: int, begy: nat, begx: nat, memory: seq<nat>)
    | Fit(window: nat, rows: nat, cols: nat, buffers: seq<nat>)

  ghost predicate WindowOk(d: Desk, i: int) {
    0 <= i < |d.windows| ==> Ok(d.windows[i])
  }

  /** The image has marked where it differs from what the screen shows, or is to be written in full. */
  ghost predicate ScreenOk(d: Desk) {
    && Shaped(d.image) && Shaped(d.last) && Fits(d.rows, d.last)
    && d.image.maxy == d.last.maxy && d.image.maxx == d.last.maxx
    && (d.image.clear || forall r :: Tracked(d.adapter, d.rows, d.image, d.last, r))
  }

  ghost predicate DeskOk(d: Desk) {
    ScreenOk(d) && forall i :: WindowOk(d, i)
  }

  predicate OnScreen(d: Desk, k: nat) {
    k < |d.windows| && Within(d.windows[k], d.image)
  }

  /** Window `k` lies on the screen, and keeps record of its differences from the image. */
  ghost predicate InStep(d: Desk, k: nat) {
    k < |d.windows| && Tracks(d.windows[k], d.image)
  }

  ghost function Updated(d: Desk): Desk
    requires ScreenOk(d)
  {
    d.(image := Settled(d.image), last := Recorded(d.last, d.image), rows := Screenful(d.adapter, d.image))
  }

  ghost function WithWindowAt(d: Desk, k: nat, v: Win): Desk
    requires k < |d.windows|
  {
    d.(windows := d.windows[k := v])
  }

  /** Window `k` copied to the image, which becomes `v`. */
  ghost function Copied(d: Desk, k: nat, v: Win): Desk
    requires k < |d.windows|
  {
    WithWindowAt(d, k, Clean(d.windows[k])).(image := v)
  }

  /** `v` is the image that a window was copied to, if need be to be written in full. */
  ghost predicate IsCopied(w: Win, s: Win, v: Win)
    requires Shaped(w) && Shaped(s) && Within(w, s)
  {
    v == CopiedOut(w, s).(clear := v.clear) && (s.clear ==> v.clear)
  }

  lemma CleanOk(w: Win)
    requires Ok(w)
    ensures Ok(Clean(w))
  {
    var v := Clean(w);
    forall r ensures RowOk(v, r) {
      assert RowOk(w, r);
    }
  }

  /** The image after a copy has marked what has changed, whether the window was in step or not. */
  lemma CopiedMarks(w: Win, s: Win, v: Win)
    requires Shaped(w) && Shaped(s) && Within(w, s) && IsCopied(w, s, v)
    ensures Marks(s, v)
  {
    var rows := RowsCopied(w, s, w.maxy);
    SameRowsMark(rows, v);
    MarksTransitive(s, rows, v);
  }

  lemma CopiedKeeps(d: Desk, k: nat, v: Win)
    requires DeskOk(d) && OnScreen(d, k) && WindowOk(d, k) && IsCopied(d.windows[k], d.image, v)
    ensures DeskOk(Copied(d, k, v))
  {
    var n := Copied(d, k, v);
    CopiedMarks(d.windows[k], d.image, v);
    if !v.clear {
      MarksKeepTracked(d.adapter, d.rows, d.image, v, d.last);
    }
    CleanOk(d.windows[k]);
    forall i ensures WindowOk(n, i) {
      assert WindowOk(d, i);
    }
  }

  lemma UpdatedKeeps(d: Desk)
    requires DeskOk(d)
    ensures DeskOk(Updated(d))
  {
    ShownFits(d.adapter, d.image, d.last);
    forall i ensures WindowOk(Updated(d), i) {
      assert WindowOk(d, i);
    }
  }

  lemma CopiedKeepsClear(w: Win, s: Win)
    requires Shaped(w) && Shaped(s) && Within(w, s)
    ensures CopiedOut(w, s).clear == s.clear
  {
  }

  lemma ToShowIsCopied(w: Win, s: Win)
    requires Shaped(w) && Shaped(s) && Within(w, s)
    ensures IsCopied(w, s, ToShow(w, s))
  {
    CopiedKeepsClear(w, s);
    var u := CopiedOut(w, s);
    assert u == u.(clear := u.clear);
  }

  /** `wnoutrefresh` of window `k`. */
  ghost function Shown(d: Desk, k: nat): (n: Desk)
    requires DeskOk(d) && OnScreen(d, k)
    ensures DeskOk(n) && |n.windows| == |d.windows| && n.adapter == d.adapter
    ensures n.image.maxy == d.image.maxy && n.image.maxx == d.image.maxx
  {
    assert WindowOk(d, k);
    CopiedKeeps(d, k, CopiedOut(d.windows[k], d.image));
    CopiedMarks(d.windows[k], d.image, CopiedOut(d.windows[k], d.image));
    Copied(d, k, CopiedOut(d.windows[k], d.image))
  }

  /** `wrefresh` of window `k`. */
  ghost function ShownNow(d: Desk, k: nat): (n: Desk)
    requires DeskOk(d) && OnScreen(d, k)
    ensures DeskOk(n) && |n.windows| == |d.windows|
  {
    assert WindowOk(d, k);
    ToShowIsCopied(d.windows[k], d.image);
    CopiedKeeps(d, k, ToShow(d.windows[k], d.image));
    UpdatedKeeps(Copied(d, k, ToShow(d.windows[k], d.image)));
    Updated(Copied(d, k, ToShow(d.windows[k], d.image)))
  }

  /** `newwin`. */
  ghost function WithNew(d: Desk, size: ScreenSize, nlines: int, ncols: int, begy: nat, begx: nat,
                         memory: seq<nat>): (n: Desk)
    requires DeskOk(d)
    ensures DeskOk(n) && |n.windows| >= |d.windows|
  {
    if Distinct(memory) && Makes(size, nlines, ncols, begy, begx, memory) then
      NewWindowKeeps(d, New(size, nlines, ncols, begy, begx, memory));
      d.(windows := d.windows + [New(size, nlines, ncols, begy, begx, memory)])
    else d
  }

  lemma NewWindowKeeps(d: Desk, v: Win)
    requires DeskOk(d) && Ok(v)
    ensures DeskOk(d.(windows := d.windows + [v]))
  {
    forall i ensures WindowOk(d.(windows := d.windows + [v]), i) {
      assert WindowOk(d, i);
    }
  }

  /** Another value of window `k`. */
  ghost function Replaced(d: Desk, k: nat, v: Win): (n: Desk)
    requires DeskOk(d) && k < |d.windows| && Ok(v)
    ensures DeskOk(n) && |n.windows| == |d.windows|
  {
    ReplacedKeeps(d, k, v);
    WithWindowAt(d, k, v)
  }

  lemma ReplacedKeeps(d: Desk, k: nat, v: Win)
    requires DeskOk(d) && k < |d.windows| && Ok(v)
    ensures DeskOk(WithWindowAt(d, k, v))
  {
    forall i ensures WindowOk(WithWindowAt(d, k, v), i) {
      assert WindowOk(d, i);
    }
  }

  /** All of a window touched. */
  function AllTouched(w: Win): (v: Win)
    requires Ok(w)
    ensures Ok(v) && Marks(w, v)
  {
    Touched(w, 0, w.maxy)
  }

  /** `resize_window`, where memory is granted. */
  predicate Granted(rows: nat, cols: nat, buffers: seq<nat>) {
    0 < rows <= |buffers| && 0 < cols
  }

  ghost function Refitted(w: Win, rows: nat, cols: nat, buffers: seq<nat>): (v: Win)
    requires Ok(w)
    ensures Ok(v)
  {
    if Distinct(buffers) && Granted(rows, cols, buffers) then
      ResizedIs(w, rows, cols, buffers, 0, 0);
      Resized(w, rows, cols, buffers)
    else w
  }

  /** An event on one window, whatever happens elsewhere. */
  ghost function HappenedTo(d: Desk, e: Event, t: Terminal): (n: Desk)
    requires DeskOk(d) && t.tabSize > 0 && !e.UpdateScreen? && !e.Make? && e.window < |d.windows|
    ensures DeskOk(n) && |n.windows| == |d.windows|
  {
    assert WindowOk(d, e.window);
    var w := d.windows[e.window];
    match e
    case Draw(k, call) => Replaced(d, k, Called(w, call, t))
    case TouchAll(k) => Replaced(d, k, AllTouched(w))
    case Show(k) => if OnScreen(d, k) then Shown(d, k) else d
    case ShowNow(k) => if OnScreen(d, k) then ShownNow(d, k) else d
    case Fit(k, rows, cols, buffers) => Replaced(d, k, Refitted(w, rows, cols, buffers))
  }

  /** Whatever happens, every window stays in order, and the image has marked where it differs from the screen. */
  ghost function Happened(d: Desk, e: Event, t: Terminal): (n: Desk)
    requires DeskOk(d) && t.tabSize > 0
    ensures DeskOk(n) && |n.windows| >= |d.windows|
  {
    match e
    case UpdateScreen =>
      UpdatedKeeps(d);
      Updated(d)
    case Make(size, nlines, ncols, begy, begx, memory) => WithNew(d, size, nlines, ncols, begy, begx, memory)
    case _ => if e.window < |d.windows| then HappenedTo(d, e, t) else d
  }

  ghost function AllHappened(d: Desk, events: seq<Event>, t: Terminal): (n: Desk)
    requires DeskOk(d) && t.tabSize > 0
    ensures DeskOk(n) && |n.windows| >= |d.windows|
    decreases |events|
  {
    if events == [] then d else AllHappened(Happened(d, events[0], t), events[1..], t)
  }

  /** Runs begin as `initscr` leaves the screen: without windows, with an image that is to be written in full. */
  lemma StartOk(image: Win, last: Win, rows: seq<seq<Glyph>>, adapter: Adapter)
    requires Shaped(image) && Shaped(last) && Fits(rows, last)
    requires image.maxy == last.maxy && image.maxx == last.maxx && image.clear
    ensures DeskOk(Desk([], image, last, rows, adapter))
  {
  }

  /** Two images have the same size and the same cell at a place. */
  ghost predicate SameAt(s: Win, v: Win, r: int, c: int) {
    && Shaped(s) && Shaped(v) && v.maxy == s.maxy && v.maxx == s.maxx && 0 <= r < s.maxy && 0 <= c < s.maxx
    && At(v, r, c) == At(s, r, c)
  }

  /** A copied row changes nothing outside its window, in step or not. */
  lemma RowCopiedOutside(w: Win, s: Win, i: int, v: Win, r: int, c: int)
    requires Shaped(w) && Shaped(s) && Within(w, s) && 0 <= i < w.maxy && 0 <= r < s.maxy && 0 <= c < s.maxx
    requires !Covers(w, r, c) && v == RowCopied(w, s, i)
    ensures SameAt(s, v, r, c)
  {
    if w.firstch[i] != NO_CHANGE && Trimmed(w, s, i).0 <= Trimmed(w, s, i).1 {
      ColumnsCopiedMark(w, s, i, Trimmed(w, s, i).0, Trimmed(w, s, i).1);
      ColumnsCopiedAt(w, s, i, Trimmed(w, s, i).0, Trimmed(w, s, i).1, r, c);
    }
  }

  lemma {:induction false} RowsCopiedOutside(w: Win, s: Win, n: nat, r: int, c: int)
    requires Shaped(w) && Shaped(s) && Within(w, s) && n <= w.maxy && 0 <= r < s.maxy && 0 <= c < s.maxx
    requires !Covers(w, r, c)
    ensures SameAt(s, RowsCopied(w, s, n), r, c)
  {
    if n > 0 {
      RowsCopiedOutside(w, s, n - 1, r, c);
      RowCopiedOutside(w, RowsCopied(w, s, n - 1), n - 1, RowsCopied(w, s, n), r, c);
    }
  }

  /** Copying a window out takes nothing from a window beside it, whether the first one is in step or not. */
  lemma BesideStaysTracked(w: Win, u: Win, s: Win, v: Win)
    requires Shaped(w) && Shaped(s) && Within(w, s) && Tracks(u, s) && Beside(w, u) && IsCopied(w, s, v)
    ensures Tracks(u, v)
  {
    CopiedMarks(w, s, v);
    forall r, c ensures CellTracked(u, v, r, c) {
      assert CellTracked(u, s, r, c);
      if 0 <= r < u.maxy && 0 <= c < u.maxx {
        RowsCopiedOutside(w, s, w.maxy, u.begy + r, u.begx + c);
      }
    }
  }

  /** At place `r`, `c` of `u`, the window `w` has the same cell there, or none, or the cell of `u` is marked. */
  ghost predicate AgreesAt(w: Win, u: Win, r: int, c: int)
    requires Shaped(w) && Shaped(u)
  {
    0 <= r < u.maxy && 0 <= c < u.maxx && Covers(w, u.begy + r, u.begx + c) ==>
      At(u, r, c) == At(w, u.begy + r - w.begy, u.begx + c - w.begx) || Dirty(u.firstch[r], u.lastch[r], c)
  }

  ghost predicate Agrees(w: Win, u: Win) {
    Shaped(w) && Shaped(u) && forall r, c :: AgreesAt(w, u, r, c)
  }

  /** The image after a window in step has been copied out, cell by cell. */
  lemma CopiedAt(w: Win, s: Win, v: Win, r: int, c: int)
    requires Tracks(w, s) && IsCopied(w, s, v) && 0 <= r < s.maxy && 0 <= c < s.maxx
    ensures Shaped(v) && v.maxy == s.maxy && v.maxx == s.maxx && At(v, r, c) == Painted(w, s, w.maxy, r, c)
  {
    CopiedMarks(w, s, v);
    RowsCopiedAre(w, s, w.maxy, r, c);
  }

  /** Copying out a window in step leaves another one in step exactly if they agree wherever that one is not marked. */
  lemma CopyLeavesExactly(w: Win, u: Win, s: Win, v: Win)
    requires Tracks(w, s) && Tracks(u, s) && IsCopied(w, s, v)
    ensures Tracks(u, v) <==> Agrees(w, u)
  {
    CopiedMarks(w, s, v);
    forall r, c ensures AgreesAt(w, u, r, c) <==> CellTracked(u, v, r, c) {
      assert CellTracked(u, s, r, c);
      if 0 <= r < u.maxy && 0 <= c < u.maxx {
        CopiedAt(w, s, v, u.begy + r, u.begx + c);
      }
    }
  }

  /** A window that is copied out while in step stays so. */
  lemma CopyLeavesItself(w: Win, s: Win, v: Win)
    requires Tracks(w, s) && IsCopied(w, s, v)
    ensures Tracks(Clean(w), v)
  {
    CopiedMarks(w, s, v);
    CopiedOutIs(w, s);
    TracksRows(Clean(w), CopiedOut(w, s), v);
  }

  /** Touching a window that lies on the screen puts it in step, whatever has happened before. */
  lemma TouchedTracks(w: Win, s: Win)
    requires Ok(w) && Shaped(s) && Within(w, s)
    ensures Tracks(AllTouched(w), s)
  {
  }

  /** A resized window lies on the screen exactly if its place and new size do; the code does not look. */
  lemma ResizedWithinExactly(w: Win, rows: nat, cols: nat, buffers: seq<nat>, s: Win)
    requires Ok(w) && Distinct(buffers) && Granted(rows, cols, buffers)
    ensures Within(Resized(w, rows, cols, buffers), s) <==> w.begy + rows <= s.maxy && w.begx + cols <= s.maxx
  {
    ResizedIs(w, rows, cols, buffers, 0, 0);
  }

  /**
   What an event must be like to leave window `k` in step: another window that is copied out lies beside it, or is in
   step and agrees with it, and a resize leaves it on the screen.
   */
  ghost predicate Harmless(d: Desk, e: Event, k: nat) {
    match e
    case Show(j) => HarmlessCopy(d, j, k)
    case ShowNow(j) => HarmlessCopy(d, j, k)
    case Fit(j, rows, cols, buffers) =>
      j == k < |d.windows| && Distinct(buffers) && Granted(rows, cols, buffers) ==>
        d.windows[k].begy + rows <= d.image.maxy && d.windows[k].begx + cols <= d.image.maxx
    case _ => true
  }

  ghost predicate HarmlessCopy(d: Desk, j: nat, k: nat) {
    j < |d.windows| && k < |d.windows| && j != k ==>
      Beside(d.windows[j], d.windows[k]) || (InStep(d, j) && Agrees(d.windows[j], d.windows[k]))
  }

  lemma CopyKeepsStep(d: Desk, j: nat, k: nat, v: Win)
    requires DeskOk(d) && InStep(d, k) && HarmlessCopy(d, j, k)
    requires OnScreen(d, j) && WindowOk(d, j) && IsCopied(d.windows[j], d.image, v)
    ensures InStep(Copied(d, j, v), k)
  {
    var w, u := d.windows[j], d.windows[k];
    if j == k {
      CopyLeavesItself(w, d.image, v);
    } else if Beside(w, u) {
      BesideStaysTracked(w, u, d.image, v);
    } else {
      CopyLeavesExactly(w, u, d.image, v);
    }
  }

  lemma UpdateKeepsStep(d: Desk, k: nat)
    requires DeskOk(d) && InStep(d, k)
    ensures InStep(Updated(d), k)
  {
    ShownFits(d.adapter, d.image, d.last);
    TracksRows(d.windows[k], d.image, Updated(d).image);
  }

  lemma OwnEventKeepsStep(d: Desk, e: Event, t: Terminal)
    requires DeskOk(d) && t.tabSize > 0 && (e.Draw? || e.TouchAll? || e.Fit?)
    requires InStep(d, e.window) && Harmless(d, e, e.window)
    ensures InStep(HappenedTo(d, e, t), e.window)
  {
    assert WindowOk(d, e.window);
    var w := d.windows[e.window];
    match e
    case Draw(_, call) => MarksKeepTracks(w, Called(w, call, t), d.image);
    case TouchAll(_) => TouchedTracks(w, d.image);
    case Fit(_, rows, cols, buffers) =>
      if Distinct(buffers) && Granted(rows, cols, buffers) {
        ResizedWithinExactly(w, rows, cols, buffers, d.image);
        ResizedTracks(w, rows, cols, buffers, d.image);
      }
  }

  /** A harmless event leaves a window in step. */
  lemma EventKeepsStep(d: Desk, e: Event, t: Terminal, k: nat)
    requires DeskOk(d) && t.tabSize > 0 && InStep(d, k) && Harmless(d, e, k)
    ensures InStep(Happened(d, e, t), k)
  {
    match e
    case UpdateScreen => UpdateKeepsStep(d, k);
    case Make(_, _, _, _, _, _) =>
    case Show(j) =>
      if OnScreen(d, j) {
        assert WindowOk(d, j);
        CopyKeepsStep(d, j, k, CopiedOut(d.windows[j], d.image));
      }
    case ShowNow(j) =>
      if OnScreen(d, j) {
        assert WindowOk(d, j);
        var v := ToShow(d.windows[j], d.image);
        ToShowIsCopied(d.windows[j], d.image);
        CopiedKeeps(d, j, v);
        CopyKeepsStep(d, j, k, v);
        UpdateKeepsStep(Copied(d, j, v), k);
      }
    case _ =>
      if e.window == k {
        OwnEventKeepsStep(d, e, t);
      }
  }

  ghost predicate AllHarmless(d: Desk, events: seq<Event>, t: Terminal, k: nat)
    requires DeskOk(d) && t.tabSize > 0
    decreases |events|
  {
    events == [] || (Harmless(d, events[0], k) && AllHarmless(Happened(d, events[0], t), events[1..], t, k))
  }

  /** So does every run of harmless events. */
  lemma {:induction false} RunKeepsStep(d: Desk, events: seq<Event>, t: Terminal, k: nat)
    requires DeskOk(d) && t.tabSize > 0 && InStep(d, k) && AllHarmless(d, events, t, k)
    ensures InStep(AllHappened(d, events, t), k)
    decreases |events|
  {
    if events != [] {
      EventKeepsStep(d, events[0], t, k);
      RunKeepsStep(Happened(d, events[0], t), events[1..], t, k);
    }
  }

  /** A place of the screen shows a cell. */
  ghost predicate Displays(d: Desk, r: int, c: int, ch: Cell) {
    0 <= r < |d.rows| && 0 <= c < |d.rows[r]| && d.rows[r][c] == Shows(d.adapter, ch)
  }

  lemma UpdatedDisplays(d: Desk, r: int, c: int)
    requires ScreenOk(d) && 0 <= r < d.image.maxy && 0 <= c < d.image.maxx
    ensures Displays(Updated(d), r, c, At(d.image, r, c))
  {
    assert RowOk(d.image, r);
  }

  lemma ShowNowDisplays(n: Desk, k: nat, r: int, c: int)
    requires DeskOk(n) && InStep(n, k) && 0 <= r < n.image.maxy && 0 <= c < n.image.maxx
    ensures Displays(ShownNow(n, k), r, c, Painted(n.windows[k], n.image, n.windows[k].maxy, r, c))
  {
    assert WindowOk(n, k);
    var w, v := n.windows[k], ToShow(n.windows[k], n.image);
    ToShowIsCopied(w, n.image);
    CopiedKeeps(n, k, v);
    CopiedAt(w, n.image, v, r, c);
    UpdatedDisplays(Copied(n, k, v), r, c);
  }

  /**
   After every run, however windows overlap, `wrefresh` of a window that was in step and to which the run was harmless
   makes the screen show all of it, and elsewhere what the image had.
   */
  lemma EveryRunShows(d: Desk, events: seq<Event>, t: Terminal, k: nat, r: int, c: int)
    requires DeskOk(d) && t.tabSize > 0 && InStep(d, k) && AllHarmless(d, events, t, k)
    requires 0 <= r < AllHappened(d, events, t).image.maxy && 0 <= c < AllHappened(d, events, t).image.maxx
    ensures var n := AllHappened(d, events, t);
      && InStep(n, k)
      && Displays(ShownNow(n, k), r, c, Painted(n.windows[k], n.image, n.windows[k].maxy, r, c))
  {
    RunKeepsStep(d, events, t, k);
    ShowNowDisplays(AllHappened(d, events, t), k, r, c);
  }

  /** `touchwin` of window `k`. */
  ghost function TouchedAt(d: Desk, k: nat): (n: Desk)
    requires DeskOk(d) && k < |d.windows|
    ensures DeskOk(n) && n.image == d.image && AllSameCells(d, n)
  {
    assert WindowOk(d, k);
    Replaced(d, k, AllTouched(d.windows[k]))
  }

  /** Two windows have the same cells at the same place. */
  predicate SameCells(w: Win, v: Win) {
    w.y == v.y && w.maxy == v.maxy && w.maxx == v.maxx && w.begy == v.begy && w.begx == v.begx
  }

  ghost predicate AllSameCells(d: Desk, n: Desk) {
    && |n.windows| == |d.windows| && n.adapter == d.adapter
    && n.image.maxy == d.image.maxy && n.image.maxx == d.image.maxx
    && forall i :: 0 <= i < |d.windows| ==> SameCells(d.windows[i], n.windows[i])
  }

  /** The desk `q` has the image of `n` and the same cells in all windows, and window `k` is in step there. */
  ghost predicate SteppedIn(n: Desk, k: nat, q: Desk) {
    DeskOk(q) && InStep(q, k) && WindowOk(q, k) && q.image == n.image && AllSameCells(n, q)
  }

  lemma TouchedInStep(n: Desk, k: nat)
    requires DeskOk(n) && OnScreen(n, k)
    ensures WindowOk(n, k) && SteppedIn(n, k, TouchedAt(n, k))
  {
    assert WindowOk(n, k);
    TouchedTracks(n.windows[k], n.image);
    assert WindowOk(TouchedAt(n, k), k);
  }

  lemma SteppedIsShown(n: Desk, k: nat, q: Desk, r: int, c: int)
    requires DeskOk(n) && OnScreen(n, k) && SteppedIn(n, k, q) && WindowOk(n, k)
    requires 0 <= r < n.image.maxy && 0 <= c < n.image.maxx
    ensures Displays(ShownNow(q, k), r, c, Painted(n.windows[k], n.image, n.windows[k].maxy, r, c))
  {
    assert SameCells(n.windows[k], q.windows[k]);
    ShowNowDisplays(q, k, r, c);
  }

  /** After every run, without any condition, a window on the screen that is touched and refreshed is shown in full. */
  lemma TouchedShows(d: Desk, events: seq<Event>, t: Terminal, k: nat, r: int, c: int)
    requires DeskOk(d) && t.tabSize > 0 && OnScreen(AllHappened(d, events, t), k)
    requires 0 <= r < AllHappened(d, events, t).image.maxy && 0 <= c < AllHappened(d, events, t).image.maxx
    ensures var n := AllHappened(d, events, t);
      && WindowOk(n, k) && InStep(TouchedAt(n, k), k)
      && Displays(ShownNow(TouchedAt(n, k), k), r, c, Painted(n.windows[k], n.image, n.windows[k].maxy, r, c))
  {
    var n := AllHappened(d, events, t);
    TouchedInStep(n, k);
    SteppedIsShown(n, k, TouchedAt(n, k), r, c);
  }

  ghost predicate AllOnScreen(d: Desk) {
    forall i: nat :: i < |d.windows| ==> OnScreen(d, i)
  }

  /** From desk `n` to desk `p`, window `k` has been copied to the image, touched before or in step without that. */
  ghost predicate CopiedInStep(n: Desk, k: nat, touched: bool, p: Desk) {
    && DeskOk(n) && OnScreen(n, k)
    && (touched || InStep(n, k))
    && p == Shown(if touched then TouchedAt(n, k) else n, k)
  }

  /** From desk to desk each window in turn is copied to the image in that way. */
  ghost predicate Layered(desks: seq<Desk>, touched: seq<bool>) {
    |desks| == |touched| + 1 && forall k :: LayerAdded(desks, touched, k)
  }

  ghost predicate LayerAdded(desks: seq<Desk>, touched: seq<bool>, k: int)
    requires |desks| == |touched| + 1
  {
    0 <= k < |touched| ==> CopiedInStep(desks[k], k, touched[k], desks[k + 1])
  }

  /** What is seen at a place when the first `m` windows lie one upon the other. */
  function LayerAt(d: Desk, m: nat, r: int, c: int): Cell
    requires Shaped(d.image) && 0 <= r < d.image.maxy && 0 <= c < d.image.maxx
    requires m <= |d.windows| && forall i :: 0 <= i < |d.windows| ==> Shaped(d.windows[i])
  {
    if m == 0 then At(d.image, r, c)
    else
      var top := d.windows[m - 1];
      if Covers(top, r, c) then At(top, r - top.begy, c - top.begx) else LayerAt(d, m - 1, r, c)
  }

  lemma ShownAt(q: Desk, k: nat, r: int, c: int)
    requires DeskOk(q) && InStep(q, k) && WindowOk(q, k) && 0 <= r < q.image.maxy && 0 <= c < q.image.maxx
    ensures At(Shown(q, k).image, r, c) == Painted(q.windows[k], q.image, q.windows[k].maxy, r, c)
    ensures AllSameCells(q, Shown(q, k))
  {
    CopiedAt(q.windows[k], q.image, CopiedOut(q.windows[k], q.image), r, c);
  }

  lemma PaintedSame(w: Win, v: Win, s: Win, r: int, c: int)
    requires Shaped(w) && Shaped(v) && Shaped(s) && Within(w, s) && SameCells(w, v)
    requires 0 <= r < s.maxy && 0 <= c < s.maxx
    ensures Painted(v, s, v.maxy, r, c) ==
      if Covers(w, r, c) then At(w, r - w.begy, c - w.begx) else At(s, r, c)
  {
  }

  /** The desk `n` has the windows of `d`, and at one place the image that its first `m` windows make. */
  ghost predicate LayerSeen(d: Desk, m: nat, n: Desk, r: int, c: int) {
    && DeskOk(d) && AllOnScreen(d) && m <= |d.windows| && 0 <= r < d.image.maxy && 0 <= c < d.image.maxx
    && (forall i :: 0 <= i < |d.windows| ==> Shaped(d.windows[i]))
    && DeskOk(n) && AllSameCells(d, n) && At(n.image, r, c) == LayerAt(d, m, r, c)
  }

  lemma SameCellsTransitive(d: Desk, n: Desk, q: Desk)
    requires AllSameCells(d, n) && AllSameCells(n, q)
    ensures AllSameCells(d, q)
  {
    forall i | 0 <= i < |d.windows| ensures SameCells(d.windows[i], q.windows[i]) {
      assert SameCells(d.windows[i], n.windows[i]) && SameCells(n.windows[i], q.windows[i]);
    }
  }

  lemma LayerOnTop(d: Desk, n: Desk, m: nat, w: Win, p: Desk, r: int, c: int)
    requires 0 < m <= |d.windows| && LayerSeen(d, m - 1, n, r, c) && SameCells(d.windows[m - 1], w)
    requires Shaped(w) && Within(w, n.image) && DeskOk(p) && AllSameCells(d, p)
    requires At(p.image, r, c) == Painted(w, n.image, w.maxy, r, c)
    ensures LayerSeen(d, m, p, r, c)
  {
    PaintedSame(d.windows[m - 1], w, n.image, r, c);
  }

  lemma ShownIsLayer(d: Desk, n: Desk, m: nat, q: Desk, r: int, c: int)
    requires 0 < m <= |d.windows| && LayerSeen(d, m - 1, n, r, c) && SteppedIn(n, m - 1, q)
    ensures LayerSeen(d, m, Shown(q, m - 1), r, c)
  {
    var k := m - 1;
    assert SameCells(d.windows[k], n.windows[k]) && SameCells(n.windows[k], q.windows[k]);
    ShownAt(q, k, r, c);
    SameCellsTransitive(d, n, q);
    SameCellsTransitive(d, q, Shown(q, k));
    LayerOnTop(d, n, m, q.windows[k], Shown(q, k), r, c);
  }

  lemma NextLayerSeen(d: Desk, n: Desk, m: nat, touched: bool, p: Desk, r: int, c: int)
    requires 0 < m <= |d.windows| && LayerSeen(d, m - 1, n, r, c) && CopiedInStep(n, m - 1, touched, p)
    ensures LayerSeen(d, m, p, r, c)
  {
    if touched {
      TouchedInStep(n, m - 1);
      ShownIsLayer(d, n, m, TouchedAt(n, m - 1), r, c);
    } else {
      assert WindowOk(n, m - 1);
      ShownIsLayer(d, n, m, n, r, c);
    }
  }

  lemma {:induction false} LayersSeen(d: Desk, desks: seq<Desk>, touched: seq<bool>, m: nat, r: int, c: int)
    requires Layered(desks, touched) && LayerSeen(d, 0, desks[0], r, c) && m < |desks| && m <= |d.windows|
    ensures LayerSeen(d, m, desks[m], r, c)
  {
    if m > 0 {
      LayersSeen(d, desks, touched, m - 1, r, c);
      assert LayerAdded(desks, touched, m - 1);
      NextLayerSeen(d, desks[m - 1], m, touched[m - 1], desks[m], r, c);
    }
  }

  /** Windows copied out one after the other lie on the screen one upon the other. */
  lemma LayersShown(n: Desk, desks: seq<Desk>, touched: seq<bool>, r: int, c: int)
    requires DeskOk(n) && AllOnScreen(n) && 0 <= r < n.image.maxy && 0 <= c < n.image.maxx
    requires Layered(desks, touched) && desks[0] == n && |touched| == |n.windows|
    ensures LayerSeen(n, 0, n, r, c) && ScreenOk(desks[|n.windows|])
    ensures Displays(Updated(desks[|n.windows|]), r, c, LayerAt(n, |n.windows|, r, c))
  {
    forall i | 0 <= i < |n.windows| ensures Shaped(n.windows[i]) {
      assert WindowOk(n, i);
    }
    assert LayerSeen(n, 0, n, r, c);
    LayersSeen(n, desks, touched, |n.windows|, r, c);
    UpdatedDisplays(desks[|n.windows|], r, c);
  }

  /**
   After every run, copying the windows out one after the other, each of them touched before or in step, and then
   updating, makes every place of the screen show the last window that covers it.
   */
  lemma LayersAreSeen(d: Desk, events: seq<Event>, t: Terminal, desks: seq<Desk>, touched: seq<bool>, r: int, c: int)
    requires DeskOk(d) && t.tabSize > 0 && AllOnScreen(AllHappened(d, events, t))
    requires var n := AllHappened(d, events, t);
      && 0 <= r < n.image.maxy && 0 <= c < n.image.maxx
      && Layered(desks, touched) && desks[0] == n && |touched| == |n.windows|
    ensures var n := AllHappened(d, events, t);
      && LayerSeen(n, 0, n, r, c) && ScreenOk(desks[|n.windows|])
      && Displays(Updated(desks[|n.windows|]), r, c, LayerAt(n, |n.windows|, r, c))
  {
    LayersShown(AllHappened(d, events, t), desks, touched, r, c);
  }

  ghost predicate PairOk(d: Desk, i: int, j: int) {
    0 <= i < |d.windows| && 0 <= j < |d.windows| && i != j ==> Beside(d.windows[i], d.windows[j])
  }

  /** All windows are in step, and no two overlap. */
  ghost predicate Tidy(d: Desk) {
    && DeskOk(d)
    && (forall i: nat :: i < |d.windows| ==> InStep(d, i))
    && (forall i, j :: PairOk(d, i, j))
  }

  /** The window `v` lies on the screen and beside all others but window `k`. */
  ghost predicate Room(d: Desk, k: nat, v: Win) {
    Within(v, d.image) && forall j :: 0 <= j < |d.windows| && j != k ==> Beside(v, d.windows[j])
  }

  /** An event that lays no window over another, or over the edge of the screen. */
  ghost predicate TidyEvent(d: Desk, e: Event) {
    match e
    case Make(size, nlines, ncols, begy, begx, memory) =>
      Distinct(memory) && Makes(size, nlines, ncols, begy, begx, memory) ==>
        Room(d, |d.windows|, New(size, nlines, ncols, begy, begx, memory))
    case Fit(k, rows, cols, buffers) =>
      k < |d.windows| && Ok(d.windows[k]) ==> Room(d, k, Refitted(d.windows[k], rows, cols, buffers))
    case _ => true
  }

  /** On a tidy desk every such event is harmless to every window. */
  lemma TidyIsHarmless(d: Desk, e: Event, k: nat)
    requires Tidy(d) && TidyEvent(d, e) && k < |d.windows|
    ensures Harmless(d, e, k)
  {
    match e
    case Show(j) => assert PairOk(d, j, k);
    case ShowNow(j) => assert PairOk(d, j, k);
    case Fit(j, rows, cols, buffers) =>
      assert WindowOk(d, k);
      if j == k && Granted(rows, cols, buffers) && Distinct(buffers) {
        ResizedWithinExactly(d.windows[k], rows, cols, buffers, d.image);
      }
    case _ =>
  }

  /** A window of the same place and size has room where the old one was. */
  lemma SamePlaceRoom(d: Desk, k: nat, v: Win)
    requires Tidy(d) && k < |d.windows|
    requires var w := d.windows[k];
      v.maxy == w.maxy && v.maxx == w.maxx && v.begy == w.begy && v.begx == w.begx
    ensures Room(d, k, v)
  {
    assert InStep(d, k);
    forall j | 0 <= j < |d.windows| && j != k ensures Beside(v, d.windows[j]) {
      assert PairOk(d, k, j);
    }
  }

  /** A window in place of another, or a new one, where there is room, overlaps none. */
  lemma RoomKeepsPairs(d: Desk, n: Desk, k: nat, v: Win)
    requires Tidy(d) && Room(d, k, v)
    requires if k < |d.windows| then n.windows == d.windows[k := v] else k == |d.windows| && n.windows == d.windows + [v]
    ensures forall i, j :: PairOk(n, i, j)
  {
    forall i, j ensures PairOk(n, i, j) {
      assert PairOk(d, i, j);
    }
  }

  lemma OwnEventKeepsPairs(d: Desk, e: Event, t: Terminal)
    requires Tidy(d) && TidyEvent(d, e) && t.tabSize > 0 && !e.UpdateScreen? && !e.Make? && e.window < |d.windows|
    ensures forall i, j :: PairOk(HappenedTo(d, e, t), i, j)
  {
    var k, n := e.window, HappenedTo(d, e, t);
    assert WindowOk(d, k) && InStep(d, k);
    if !e.Fit? {
      SamePlaceRoom(d, k, n.windows[k]);
    }
    RoomKeepsPairs(d, n, k, n.windows[k]);
  }

  /** Such an event leaves the desk tidy. */
  lemma EventKeepsTidy(d: Desk, e: Event, t: Terminal)
    requires Tidy(d) && TidyEvent(d, e) && t.tabSize > 0
    ensures Tidy(Happened(d, e, t))
  {
    var n := Happened(d, e, t);
    forall i: nat | i < |d.windows| ensures InStep(n, i) {
      assert InStep(d, i);
      TidyIsHarmless(d, e, i);
      EventKeepsStep(d, e, t, i);
    }
    match e
    case UpdateScreen =>
      forall i, j ensures PairOk(n, i, j) {
        assert PairOk(d, i, j);
      }
    case Make(size, nlines, ncols, begy, begx, memory) => MakeKeepsTidy(d, size, nlines, ncols, begy, begx, memory);
    case _ =>
      if e.window < |d.windows| {
        OwnEventKeepsPairs(d, e, t);
      }
  }

  lemma MakeKeepsTidy(d: Desk, size: ScreenSize, nlines: int, ncols: int, begy: nat, begx: nat, memory: seq<nat>)
    requires Tidy(d) && TidyEvent(d, Make(size, nlines, ncols, begy, begx, memory))
    ensures Tidy(WithNew(d, size, nlines, ncols, begy, begx, memory))
  {
    var n := WithNew(d, size, nlines, ncols, begy, begx, memory);
    if Distinct(memory) && Makes(size, nlines, ncols, begy, begx, memory) {
      var v := New(size, nlines, ncols, begy, begx, memory);
      NewTracks(size, nlines, ncols, begy, begx, memory, d.image);
      RoomKeepsPairs(d, n, |d.windows|, v);
      forall i: nat | i < |n.windows| ensures InStep(n, i) {
        assert i < |d.windows| ==> InStep(d, i);
      }
    }
  }

  ghost predicate AllTidy(d: Desk, events: seq<Event>, t: Terminal)
    requires DeskOk(d) && t.tabSize > 0
    decreases |events|
  {
    events == [] || (TidyEvent(d, events[0]) && AllTidy(Happened(d, events[0], t), events[1..], t))
  }

  /** Over a run that lays no window over another, all windows stay in step. */
  lemma {:induction false} RunKeepsTidy(d: Desk, events: seq<Event>, t: Terminal)
    requires Tidy(d) && t.tabSize > 0 && AllTidy(d, events, t)
    ensures Tidy(AllHappened(d, events, t))
    decreases |events|
  {
    if events != [] {
      EventKeepsTidy(d, events[0], t);
      RunKeepsTidy(Happened(d, events[0], t), events[1..], t);
    }
  }

  /** On a tidy desk, the windows are in step when they are copied out one after the other. */
  lemma {:induction false} TidyStays(desks: seq<Desk>, t: Terminal, m: nat)
    requires t.tabSize > 0 && m < |desks| && Tidy(desks[0]) && |desks| == |desks[0].windows| + 1
    requires forall k :: Succeeds(desks, k)
    ensures Tidy(desks[m]) && |desks[m].windows| == |desks[0].windows|
  {
    if m > 0 {
      TidyStays(desks, t, m - 1);
      assert Succeeds(desks, m - 1) && InStep(desks[m - 1], m - 1);
      EventKeepsTidy(desks[m - 1], Show(m - 1), t);
    }
  }

  /** From desk to desk each window in turn is copied to the image, without a touch. */
  ghost predicate Succeeds(desks: seq<Desk>, k: int) {
    0 <= k < |desks| - 1 ==> DeskOk(desks[k]) && OnScreen(desks[k], k) && desks[k + 1] == Shown(desks[k], k)
  }

  /** Where no windows overlap, the last window that covers a place is the only one. */
  lemma {:induction false} OnlyLayer(n: Desk, m: nat, k: nat, r: int, c: int)
    requires Tidy(n) && k < m <= |n.windows| && forall i :: 0 <= i < |n.windows| ==> Shaped(n.windows[i])
    requires InStep(n, k) && 0 <= r < n.windows[k].maxy && 0 <= c < n.windows[k].maxx
    ensures LayerAt(n, m, n.windows[k].begy + r, n.windows[k].begx + c) == At(n.windows[k], r, c)
  {
    if k < m - 1 {
      assert PairOk(n, k, m - 1);
      OnlyLayer(n, m - 1, k, r, c);
    }
  }

  lemma TidyIsLayered(desks: seq<Desk>, t: Terminal, touched: seq<bool>)
    requires desks != [] && t.tabSize > 0 && Tidy(desks[0]) && |desks| == |desks[0].windows| + 1
    requires (forall k :: Succeeds(desks, k)) && touched == seq(|desks| - 1, _ => false)
    ensures Layered(desks, touched)
  {
    forall k ensures LayerAdded(desks, touched, k) {
      if 0 <= k < |touched| {
        TidyStays(desks, t, k);
        assert Succeeds(desks, k) && InStep(desks[k], k);
      }
    }
  }

  /** When desk `p` is updated, the screen shows a cell of window `k` of desk `n`. */
  ghost predicate WindowSeen(n: Desk, k: nat, p: Desk, r: int, c: int) {
    && InStep(n, k) && 0 <= r < n.windows[k].maxy && 0 <= c < n.windows[k].maxx && ScreenOk(p)
    && Displays(Updated(p), n.windows[k].begy + r, n.windows[k].begx + c, At(n.windows[k], r, c))
  }

  lemma TidyIsShown(n: Desk, desks: seq<Desk>, t: Terminal, k: nat, r: int, c: int)
    requires Tidy(n) && t.tabSize > 0 && |desks| == |n.windows| + 1 && desks[0] == n && forall i :: Succeeds(desks, i)
    requires InStep(n, k) && 0 <= r < n.windows[k].maxy && 0 <= c < n.windows[k].maxx
    ensures WindowSeen(n, k, desks[|desks| - 1], r, c)
  {
    var touched := seq(|desks| - 1, _ => false);
    TidyIsLayered(desks, t, touched);
    forall i: nat | i < |n.windows| ensures OnScreen(n, i) && Shaped(n.windows[i]) {
      assert InStep(n, i);
    }
    LayersShown(n, desks, touched, n.windows[k].begy + r, n.windows[k].begx + c);
    OnlyLayer(n, |n.windows|, k, r, c);
  }

  /**
   After a run that lays no window over another, copying all windows out and then updating the screen makes it show all
   of all windows, whatever has been drawn on them and whatever has been shown or left unshown before.
   */
  lemma AllWindowsShown(d: Desk, events: seq<Event>, t: Terminal, desks: seq<Desk>, k: nat, r: int, c: int)
    requires Tidy(d) && t.tabSize > 0 && AllTidy(d, events, t) && desks != [] && desks[0] == AllHappened(d, events, t)
    requires |desks| == |desks[0].windows| + 1 && forall i :: Succeeds(desks, i)
    requires k < |desks[0].windows| && 0 <= r < desks[0].windows[k].maxy && 0 <= c < desks[0].windows[k].maxx
    ensures WindowSeen(desks[0], k, desks[|desks| - 1], r, c)
  {
    RunKeepsTidy(d, events, t);
    assert InStep(desks[0], k);
    TidyIsShown(desks[0], desks, t, k, r, c);
  }
}
