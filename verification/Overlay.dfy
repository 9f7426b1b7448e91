/** Copying between windows, of src/kernel/curses/overlay.c. */
module Overlay {
  import opened Cells
  import opened CursesWindow

  /** A row that is being copied to, with the first and the last column that changed. */
  datatype Copy = Copy(cells: seq<Cell>, fc: int, lc: int)

  /** A cell is copied if it differs, and if it is not a blank that an overlay leaves out. */
  predicate Replaces(from: Cell, to: Cell, overlay: bool) {
    from != to && !(Text(from) == SPACE && overlay)
  }

  /** A cell offered to column `x`. */
  function CellTaken(row: Copy, x: int, ch: Cell, overlay: bool): (r: Copy)
    requires 0 <= x < |row.cells|
    ensures |r.cells| == |row.cells|
  {
    if Replaces(ch, row.cells[x], overlay)
    then Copy(row.cells[x := ch], if row.fc == NO_CHANGE then x else row.fc, x)
    else row
  }

  /** The first `n` columns copied, from column `sc` of `src` to column `dc`. */
  function CopiedCells(src: seq<Cell>, sc: int, row: seq<Cell>, dc: int, n: nat, overlay: bool, lc: int): (r: Copy)
    requires n > 0 ==> 0 <= sc && sc + n <= |src| && 0 <= dc && dc + n <= |row|
    ensures |r.cells| == |row|
  {
    if n == 0 then Copy(row, NO_CHANGE, lc)
    else
      CellTaken(CopiedCells(src, sc, row, dc, n - 1, overlay, lc), dc + n - 1, src[sc + n - 1], overlay)
  }

  /** What one column becomes: the source's cell, unless that is a blank which the overlay leaves out. */
  function CopiedCell(from: Cell, to: Cell, overlay: bool): Cell {
    if overlay && Text(from) == SPACE then to else from
  }

  /** The copied columns, and between which of them changes lie. */
  lemma {:induction false} CopiedCellsAre(src: seq<Cell>, sc: int, row: seq<Cell>, dc: int, n: nat, overlay: bool,
                                          lc: int, c: int)
    requires n > 0 ==> 0 <= sc && sc + n <= |src| && 0 <= dc && dc + n <= |row|
    requires 0 <= c < |row|
    ensures var r := CopiedCells(src, sc, row, dc, n, overlay, lc);
      && (n > 0 && dc <= c < dc + n ==> r.cells[c] == CopiedCell(src[sc + c - dc], row[c], overlay))
      && (!(dc <= c < dc + n) ==> r.cells[c] == row[c])
      && (r.cells[c] != row[c] ==> Dirty(r.fc, r.lc, c))
      && (if r.fc == NO_CHANGE then r.lc == lc else 0 <= dc <= r.fc <= r.lc < dc + n)
  {
    if n > 0 {
      CopiedCellsAre(src, sc, row, dc, n - 1, overlay, lc, c);
    }
  }

  /** The interval of a row after a copy: the columns that changed, together with those marked before. */
  function Merged(first: int, last: int, fc: int, lc: int): (int, int) {
    if first == NO_CHANGE then (fc, lc)
    else if fc == NO_CHANGE then (first, last)
    else (if fc < first then fc else first, if lc > last then lc else last)
  }

  /** The rectangle of a copy: where it is in the source, where it goes to, and its size. */
  datatype Area = Area(sr: int, sc: int, dr: int, dc: int, rows: nat, cols: nat)

  predicate AreaOk(src: Win, dst: Win, a: Area) {
    a.rows > 0 ==>
      && 0 <= a.sr && a.sr + a.rows <= src.maxy && 0 <= a.dr && a.dr + a.rows <= dst.maxy
      && (a.cols > 0 ==> 0 <= a.sc && a.sc + a.cols <= src.maxx && 0 <= a.dc && a.dc + a.cols <= dst.maxx)
  }

  /** A window after rows were copied to it, and the last column that changed in any of them. */
  datatype Copied = Copied(win: Win, lc: int)

  /** One row copied. */
  function CopiedRow(src: Win, dst: Win, a: Area, line: nat, overlay: bool, lc: int): (r: Copied)
    requires Shaped(src) && Shaped(dst) && AreaOk(src, dst, a) && line < a.rows && 0 <= lc < dst.maxx
    ensures Marks(dst, r.win) && r.win == dst.(y := r.win.y, firstch := r.win.firstch, lastch := r.win.lastch)
    ensures 0 <= r.lc < dst.maxx
  {
    var sr, dr := a.sr + line, a.dr + line;
    assert RowOk(src, sr) && RowOk(dst, dr);
    var copy := CopiedCells(src.y[sr].cells, a.sc, dst.y[dr].cells, a.dc, a.cols, overlay, lc);
    var marked := Merged(dst.firstch[dr], dst.lastch[dr], copy.fc, copy.lc);
    CopiedRowMarks(src, dst, a, line, overlay, lc);
    WithRowMarks(dst, dr, copy.cells, marked.0, marked.1);
    Copied(WithRow(dst, dr, copy.cells, marked.0, marked.1), copy.lc)
  }

  lemma CopiedRowMarks(src: Win, dst: Win, a: Area, line: nat, overlay: bool, lc: int)
    requires Shaped(src) && Shaped(dst) && AreaOk(src, dst, a) && line < a.rows && 0 <= lc < dst.maxx
    requires RowOk(src, a.sr + line) && RowOk(dst, a.dr + line)
    ensures var row, first, last := dst.y[a.dr + line].cells, dst.firstch[a.dr + line], dst.lastch[a.dr + line];
      var copy := CopiedCells(src.y[a.sr + line].cells, a.sc, row, a.dc, a.cols, overlay, lc);
      var marked := Merged(first, last, copy.fc, copy.lc);
      && IntervalOk(marked.0, marked.1, dst.maxx) && 0 <= copy.lc < dst.maxx
      && forall c :: ColumnMarked(row, first, last, copy.cells, marked.0, marked.1, c)
  {
    var row, first, last := dst.y[a.dr + line].cells, dst.firstch[a.dr + line], dst.lastch[a.dr + line];
    var copy := CopiedCells(src.y[a.sr + line].cells, a.sc, row, a.dc, a.cols, overlay, lc);
    var left, right := Merged(first, last, copy.fc, copy.lc).0, Merged(first, last, copy.fc, copy.lc).1;
    CopiedCellsAre(src.y[a.sr + line].cells, a.sc, row, a.dc, a.cols, overlay, lc, 0);
    forall c ensures ColumnMarked(row, first, last, copy.cells, left, right, c) {
      if 0 <= c < |row| {
        CopiedCellsAre(src.y[a.sr + line].cells, a.sc, row, a.dc, a.cols, overlay, lc, c);
      }
    }
  }

  /** The first `n` rows copied. */
  function CopiedRows(src: Win, dst: Win, a: Area, n: nat, overlay: bool): (r: Copied)
    requires Shaped(src) && Shaped(dst) && AreaOk(src, dst, a) && n <= a.rows
    ensures Marks(dst, r.win) && r.win == dst.(y := r.win.y, firstch := r.win.firstch, lastch := r.win.lastch)
    ensures 0 <= r.lc < dst.maxx
  {
    MarksItself(dst);
    if n == 0 then Copied(dst, 0)
    else
      var r := CopiedRows(src, dst, a, n - 1, overlay);
      MarksTransitive(dst, r.win, CopiedRow(src, r.win, a, n - 1, overlay, r.lc).win);
      CopiedRow(src, r.win, a, n - 1, overlay, r.lc)
  }

  lemma CopiedRowAt(src: Win, dst: Win, a: Area, line: nat, overlay: bool, lc: int, r: int, c: int)
    requires Shaped(src) && Shaped(dst) && AreaOk(src, dst, a) && line < a.rows && 0 <= lc < dst.maxx
    requires 0 <= r < dst.maxy && 0 <= c < dst.maxx
    ensures var v := CopiedRow(src, dst, a, line, overlay, lc).win;
      && RowOk(dst, r) && RowOk(v, r) && RowOk(src, a.sr + line) && v.y[r].id == dst.y[r].id
      && (r != a.dr + line ==> v.y[r] == dst.y[r] && v.firstch[r] == dst.firstch[r])
      && v.y[r].cells[c]
         == if r == a.dr + line && a.dc <= c < a.dc + a.cols
            then CopiedCell(src.y[a.sr + line].cells[a.sc + c - a.dc], dst.y[r].cells[c], overlay)
            else dst.y[r].cells[c]
  {
    assert RowOk(dst, r) && RowOk(CopiedRow(src, dst, a, line, overlay, lc).win, r) && RowOk(src, a.sr + line);
    if r == a.dr + line {
      CopiedCellsAre(src.y[a.sr + line].cells, a.sc, dst.y[r].cells, a.dc, a.cols, overlay, lc, c);
    }
  }

  /** In `v`, a cell inside the first `n` rows of the area has the source's cell, and one outside that of `dst`. */
  ghost predicate AreaCopiedAt(src: Win, dst: Win, v: Win, a: Area, n: nat, overlay: bool, r: int, c: int)
    requires Shaped(src) && Shaped(dst) && AreaOk(src, dst, a) && n <= a.rows
    requires 0 <= r < dst.maxy == v.maxy && 0 <= c < dst.maxx == v.maxx
    requires |v.y| == |v.firstch| == |v.lastch| == v.maxy
  {
    && RowOk(dst, r) && RowOk(v, r) && v.y[r].id == dst.y[r].id
    && (!(a.dr <= r < a.dr + n) ==> v.y[r] == dst.y[r] && v.firstch[r] == dst.firstch[r])
    && if a.dr <= r < a.dr + n && a.dc <= c < a.dc + a.cols
       then
         && RowOk(src, a.sr + r - a.dr)
         && v.y[r].cells[c] == CopiedCell(src.y[a.sr + r - a.dr].cells[a.sc + c - a.dc], dst.y[r].cells[c], overlay)
       else v.y[r].cells[c] == dst.y[r].cells[c]
  }

  lemma NextAreaCopied(src: Win, dst: Win, before: Copied, after: Copied, a: Area, n: nat, overlay: bool, r: int,
                       c: int)
    requires Shaped(src) && Shaped(dst) && AreaOk(src, dst, a) && 0 < n <= a.rows && 0 <= before.lc < dst.maxx
    requires 0 <= r < dst.maxy == before.win.maxy && 0 <= c < dst.maxx == before.win.maxx
    requires Shaped(before.win) && AreaCopiedAt(src, dst, before.win, a, n - 1, overlay, r, c)
    requires after == CopiedRow(src, before.win, a, n - 1, overlay, before.lc)
    ensures AreaCopiedAt(src, dst, after.win, a, n, overlay, r, c)
  {
    CopiedRowAt(src, before.win, a, n - 1, overlay, before.lc, r, c);
  }

  /** What copying does to a cell of the destination: inside the area it takes the source's cell, outside nothing. */
  lemma {:induction false} CopiedRowsAre(src: Win, dst: Win, a: Area, n: nat, overlay: bool, r: int, c: int)
    requires Shaped(src) && Shaped(dst) && AreaOk(src, dst, a) && n <= a.rows
    requires 0 <= r < dst.maxy && 0 <= c < dst.maxx
    ensures AreaCopiedAt(src, dst, CopiedRows(src, dst, a, n, overlay).win, a, n, overlay, r, c)
  {
    if n == 0 {
      assert RowOk(dst, r);
    } else {
      CopiedRowsAre(src, dst, a, n - 1, overlay, r, c);
      var before, after := CopiedRows(src, dst, a, n - 1, overlay), CopiedRows(src, dst, a, n, overlay);
      NextAreaCopied(src, dst, before, after, a, n, overlay, r, c);
    }
  }

  function Size(n: int): nat {
    if n < 0 then 0 else n
  }

  method CopyCell(dst: Window, r: int, x: int, ch: Cell, overlay: bool, fc0: int, lc0: int) returns (fc: int, lc: int)
    requires 0 <= r < |dst.y| && 0 <= x < |dst.y[r].cells|
    modifies dst`y
    ensures var copy := CellTaken(Copy(old(dst.y[r].cells), fc0, lc0), x, ch, overlay);
      dst.y == old(dst.y)[r := old(dst.y[r]).(cells := copy.cells)] && fc == copy.fc && lc == copy.lc
  {
    fc, lc := fc0, lc0;
    if ch != dst.y[r].cells[x] && !(Text(ch) == SPACE && overlay) {
      dst.Write(r, x, ch);
      if fc == NO_CHANGE {
        fc := x;
      }
      lc := x;
    }
  }

  /** The loop over the columns of `_copy_win`. */
  method CopyColumns(src: Window, dst: Window, a: Area, line: nat, overlay: bool, lc0: int) returns (fc: int, lc: int)
    requires src != dst && Shaped(src.View()) && Shaped(dst.View()) && AreaOk(src.View(), dst.View(), a) && line < a.rows
    modifies dst`y
    ensures RowOk(src.View(), a.sr + line) && RowOk(old(dst.View()), a.dr + line)
    ensures Shaped(old(dst.View()))
    ensures var row := old(dst.y)[a.dr + line];
      var copy := CopiedCells(src.y[a.sr + line].cells, a.sc, row.cells, a.dc, a.cols, overlay, lc0);
      dst.y == old(dst.y)[a.dr + line := row.(cells := copy.cells)] && fc == copy.fc && lc == copy.lc
  {
    var sr, dr := a.sr + line, a.dr + line;
    ghost var y := dst.y;
    assert RowOk(src.View(), sr) && RowOk(dst.View(), dr);
    fc, lc := NO_CHANGE, lc0;
    var col := 0;
    while col < a.cols
      invariant 0 <= col <= a.cols && |dst.y| == |y|
      invariant Copy(dst.y[dr].cells, fc, lc)
             == CopiedCells(src.y[sr].cells, a.sc, y[dr].cells, a.dc, col, overlay, lc0)
      invariant dst.y == y[dr := y[dr].(cells := dst.y[dr].cells)]
    {
      fc, lc := CopyCell(dst, dr, a.dc + col, src.y[sr].cells[a.sc + col], overlay, fc, lc);
      col := col + 1;
    }
  }

  method MergeInterval(dst: Window, r: int, fc: int, lc: int)
    requires 0 <= r < |dst.firstch| && r < |dst.lastch|
    modifies dst`firstch, dst`lastch
    ensures var marked := Merged(old(dst.firstch[r]), old(dst.lastch[r]), fc, lc);
      dst.firstch == old(dst.firstch)[r := marked.0] && dst.lastch == old(dst.lastch)[r := marked.1]
  {
    if dst.firstch[r] == NO_CHANGE {
      dst.firstch := dst.firstch[r := fc];
      dst.lastch := dst.lastch[r := lc];
    } else if fc != NO_CHANGE {
      if fc < dst.firstch[r] {
        dst.firstch := dst.firstch[r := fc];
      }
      if lc > dst.lastch[r] {
        dst.lastch := dst.lastch[r := lc];
      }
    }
  }

  method CopyRow(src: Window, dst: Window, a: Area, line: nat, overlay: bool, lc0: int) returns (lc: int)
    requires src != dst && Shaped(src.View()) && Shaped(dst.View()) && AreaOk(src.View(), dst.View(), a) && line < a.rows
    requires 0 <= lc0 < dst.maxx
    modifies dst`y, dst`firstch, dst`lastch
    ensures Copied(dst.View(), lc) == CopiedRow(src.View(), old(dst.View()), a, line, overlay, lc0)
  {
    var fc;
    fc, lc := CopyColumns(src, dst, a, line, overlay, lc0);
    MergeInterval(dst, a.dr + line, fc, lc);
  }

  /** `_copy_win`; `lc` is carried from row to row. */
  method CopyWin(src: Window, dst: Window, a: Area, overlay: bool)
    requires src != dst && Shaped(src.View()) && Shaped(dst.View()) && AreaOk(src.View(), dst.View(), a)
    modifies dst`y, dst`firstch, dst`lastch
    ensures dst.View() == CopiedRows(src.View(), old(dst.View()), a, a.rows, overlay).win
  {
    ghost var s, d := src.View(), dst.View();
    var lc, line := 0, 0;
    while line < a.rows
      invariant 0 <= line <= a.rows
      invariant Copied(dst.View(), lc) == CopiedRows(s, d, a, line, overlay)
    {
      lc := CopyRow(src, dst, a, line, overlay, lc);
      line := line + 1;
    }
  }

  function Max(a: int, b: int): int {
    if a > b then a else b
  }

  function Min(a: int, b: int): int {
    if a < b then a else b
  }

  /** Where `_copy_overlap` copies: the part of the screen that is in both windows, in the coordinates of each. */
  function OverlapArea(src: Win, dst: Win): Area {
    var firstCol, firstLine := Max(dst.begx, src.begx), Max(dst.begy, src.begy);
    var lastCol, lastLine := Min(src.begx + src.maxx, dst.begx + dst.maxx), Min(src.begy + src.maxy, dst.begy + dst.maxy);
    if lastCol < firstCol || lastLine < firstLine then Area(0, 0, 0, 0, 0, 0)
    else
      Area(Max(dst.begy - src.begy, 0), Max(dst.begx - src.begx, 0), Max(src.begy - dst.begy, 0),
           Max(src.begx - dst.begx, 0), lastLine - firstLine, lastCol - firstCol)
  }

  /** `_copy_overlap`. */
  function Overlapped(src: Win, dst: Win, overlay: bool): (v: Win)
    requires Shaped(src) && Shaped(dst)
    ensures Marks(dst, v) && v == dst.(y := v.y, firstch := v.firstch, lastch := v.lastch)
  {
    CopiedRows(src, dst, OverlapArea(src, dst), OverlapArea(src, dst).rows, overlay).win
  }

  /**
   Exactly the cells that lie on the screen where the source lies too take the source's cell at that place, or keep
   theirs under an overlaid blank.
   */
  lemma OverlappedIs(src: Win, dst: Win, overlay: bool, r: int, c: int)
    requires Shaped(src) && Shaped(dst) && 0 <= r < dst.maxy && 0 <= c < dst.maxx
    ensures var v := Overlapped(src, dst, overlay);
      var sr, sc := dst.begy + r - src.begy, dst.begx + c - src.begx;
      && RowOk(dst, r) && RowOk(v, r) && RowOk(src, sr)
      && v.y[r].cells[c]
         == if 0 <= sr < src.maxy && 0 <= sc < src.maxx
            then CopiedCell(src.y[sr].cells[sc], dst.y[r].cells[c], overlay) else dst.y[r].cells[c]
  {
    var a := OverlapArea(src, dst);
    assert RowOk(src, dst.begy + r - src.begy);
    CopiedRowsAre(src, dst, a, a.rows, overlay, r, c);
  }

  method FindOverlap(src: Window, dst: Window) returns (a: Area)
    ensures a == OverlapArea(src.View(), dst.View())
  {
    var firstCol, firstLine := Max(dst.begx, src.begx), Max(dst.begy, src.begy);
    var lastCol, lastLine := Min(src.begx + src.maxx, dst.begx + dst.maxx), Min(src.begy + src.maxy, dst.begy + dst.maxy);
    a := Area(0, 0, 0, 0, 0, 0);
    if lastCol >= firstCol && lastLine >= firstLine {
      var srcX, dstX, srcY, dstY := dst.begx - src.begx, 0, dst.begy - src.begy, 0;
      if src.begx > dst.begx {
        srcX, dstX := 0, src.begx - dst.begx;
      }
      if src.begy > dst.begy {
        srcY, dstY := 0, src.begy - dst.begy;
      }
      a := Area(srcY, srcX, dstY, dstX, lastLine - firstLine, lastCol - firstCol);
    }
  }

  /** `_copy_overlap`, which `overlay` and `overwrite` call. */
  method CopyOverlap(src: Window, dst: Window, overlay: bool)
    requires src != dst && Shaped(src.View()) && Shaped(dst.View())
    modifies dst`y, dst`firstch, dst`lastch
    ensures dst.View() == Overlapped(src.View(), old(dst.View()), overlay)
  {
    var a := FindOverlap(src, dst);
    CopyWin(src, dst, a, overlay);
  }

  /** Where `copywin` copies: as much as the source has from its corner on, and the rectangle takes. */
  function CopyArea(src: Win, sr: int, sc: int, top: int, left: int, bottom: int, right: int): Area {
    Area(sr, sc, top, left, Size(Min(src.maxy - sr, bottom - top + 1)), Size(Min(src.maxx - sc, right - left + 1)))
  }

  method FindCopyArea(src: Window, sr: int, sc: int, top: int, left: int, bottom: int, right: int) returns (a: Area)
    ensures a == CopyArea(src.View(), sr, sc, top, left, bottom, right)
  {
    var rows := Min(src.maxy - sr, bottom - top + 1);
    var cols := Min(src.maxx - sc, right - left + 1);
    a := Area(sr, sc, top, left, Size(rows), Size(cols));
  }

  lemma CopyAreaIsOk(src: Win, dst: Win, sr: nat, sc: nat, top: nat, left: nat, bottom: int, right: int)
    requires bottom < dst.maxy && right < dst.maxx
    ensures AreaOk(src, dst, CopyArea(src, sr, sc, top, left, bottom, right))
  {
  }

  /** `copywin` to a window that is not `curscr`. */
  method CopyRectangle(src: Window, dst: Window, sr: nat, sc: nat, top: int, left: int, bottom: int, right: int,
                       overlay: bool)
    returns (ok: bool)
    requires src != dst && Shaped(src.View()) && Shaped(dst.View())
    modifies dst`y, dst`firstch, dst`lastch
    ensures ok == (bottom < dst.maxy && right < dst.maxx && top >= 0 && left >= 0)
    ensures !ok ==> dst.View() == old(dst.View())
    ensures ok ==>
      var w, a := old(dst.View()), CopyArea(src.View(), sr, sc, top, left, bottom, right);
      Shaped(w) && AreaOk(src.View(), w, a) && dst.View() == CopiedRows(src.View(), w, a, a.rows, overlay).win
  {
    ok := !(bottom >= dst.maxy || right >= dst.maxx || top < 0 || left < 0);
    if ok {
      CopyAreaIsOk(src.View(), dst.View(), sr, sc, top, left, bottom, right);
      var area := FindCopyArea(src, sr, sc, top, left, bottom, right);
      CopyWin(src, dst, area, overlay);
    }
  }

  /**
   What `copywin` does to a place of the destination: inside the rectangle, and as far as the source goes from its corner
   on, it takes the source's cell, but under an overlay no blank; outside it stays.
   */
  lemma CopiedRectangleIs(src: Win, dst: Win, sr: nat, sc: nat, top: nat, left: nat, bottom: int, right: int,
                          overlay: bool, r: int, c: int)
    requires Shaped(src) && Shaped(dst) && bottom < dst.maxy && right < dst.maxx
    requires 0 <= r < dst.maxy && 0 <= c < dst.maxx
    ensures var a := CopyArea(src, sr, sc, top, left, bottom, right);
      AreaOk(src, dst, a) &&
      var v := CopiedRows(src, dst, a, a.rows, overlay).win;
      var y, x := sr + (r - top), sc + (c - left);
      At(v, r, c)
      == if top <= r <= bottom && left <= c <= right && y < src.maxy && x < src.maxx &&
            !(overlay && And(At(src, y, x), 0xFFFF) == 0x20)
         then At(src, y, x) else At(dst, r, c)
  {
    var a := CopyArea(src, sr, sc, top, left, bottom, right);
    CopyAreaIsOk(src, dst, sr, sc, top, left, bottom, right);
    CopiedRowsAre(src, dst, a, a.rows, overlay, r, c);
    assert RowOk(src, sr + (r - top));
  }
}
