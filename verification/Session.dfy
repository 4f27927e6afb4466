/** Whole runs of the interface: after every redraw the viewport shows the last frame, and the
    scrollback followed by the rows above the viewport is the history inserted so far. */
module Session {
  import opened Wrappers
  import opened Screen
  import opened Diff
  import opened DiffProofs
  import opened Draw
  import opened DrawProofs
  import opened History
  import opened HistoryProofs
  import opened CustomTerminal

  predicate BlankFrom(s: Screen, y: nat) {
    forall k :: y <= k < |s.rows| ==> s.rows[k] == BlankRow(s.width, Reset)
  }

  /** The viewport lies on the screen and shows the buffer drawn last; before the first redraw it
      has no size, and the screen is blank from its row on. */
  predicate ViewShown(s: Screen, v: View) {
    && BufferOk(v.shown) && v.shown.area == v.area && v.area.x == 0 && Bottom(v.area) <= |s.rows|
    && if IsEmpty(v.area) then BlankFrom(s, v.area.y)
       else v.area.width == s.width && BufferWf(v.shown) && Shows(s.rows, v.shown)
  }

  predicate Calm(s: Screen) { ScreenOk(s) && FullRegion(s) && s.pen == DEFAULT_PEN }

  /** The terminal agrees with what the program believes about it. */
  predicate Synced(s: Screen, v: View, history: seq<Row>) {
    && Calm(s) && ViewShown(s, v) && HistoryTo(s, v.area.y) == history && v.visible <= v.area.y
  }

  // ---------- scrolling the rows above up ----------

  lemma RegionUpMoves(s: Screen, m: nat)
    requires ScreenOk(s) && s.top == 0 && 1 <= m <= s.bottom + 1
    ensures var r := RegionUp(s);
      && HistoryTo(r, m - 1) == HistoryTo(s, m) && r.rows[s.bottom] == BlankRow(s.width, s.pen.bg)
      && (forall k :: 0 <= k < s.bottom ==> r.rows[k] == s.rows[k + 1])
      && (forall k :: s.bottom < k < |s.rows| ==> r.rows[k] == s.rows[k])
  {
    var r := RegionUp(s);
    RowsUp(s.rows, s.bottom, BlankRow(s.width, s.pen.bg), r.rows, m);
    Assoc(s.scrollback, [s.rows[0]], s.rows[1..m]);
  }

  lemma RowsUp(rows: seq<Row>, bottom: nat, blank: Row, up: seq<Row>, m: nat)
    requires 1 <= m <= bottom + 1 <= |rows|
    requires up == rows[..0] + rows[1..bottom+1] + [blank] + rows[bottom+1..]
    ensures |up| == |rows| && up[bottom] == blank && up[..m-1] == rows[1..m] && rows[..m] == [rows[0]] + rows[1..m]
    ensures forall k :: 0 <= k < bottom ==> up[k] == rows[k + 1]
    ensures forall k :: bottom < k < |rows| ==> up[k] == rows[k]
  {
  }

  /** The rows from m to the end of the region are blank. */
  predicate RegionBlankFrom(s: Screen, m: nat) {
    s.bottom < |s.rows| && forall k :: m <= k <= s.bottom ==> s.rows[k] == BlankRow(s.width, s.pen.bg)
  }

  /** The region has moved up by n rows: the history that ended at row m now ends n rows higher. */
  predicate RegionMovedUp(s: Screen, r: Screen, n: nat, m: nat) {
    && SameShape(s, r) && r == s.(rows := r.rows, scrollback := r.scrollback) && n <= m <= |s.rows|
    && HistoryTo(r, m - n) == HistoryTo(s, m) && RegionBlankFrom(r, m - n)
    && forall k :: s.bottom < k < |s.rows| ==> r.rows[k] == s.rows[k]
  }

  lemma RegionUpOnce(s: Screen, m: nat)
    requires ScreenOk(s) && s.top == 0 && 1 <= m <= s.bottom + 1 && RegionBlankFrom(s, m)
    ensures RegionMovedUp(s, RegionUp(s), 1, m)
  {
    RegionUpMoves(s, m);
    var r := RegionUp(s);
    forall k | m - 1 <= k <= r.bottom ensures r.rows[k] == BlankRow(r.width, r.pen.bg) {
      if k < s.bottom { assert r.rows[k] == s.rows[k + 1]; }
    }
  }

  lemma {:induction false} RegionUpByMoves(s: Screen, n: nat, m: nat)
    requires ScreenOk(s) && s.top == 0 && n <= m <= s.bottom + 1 && RegionBlankFrom(s, m)
    ensures RegionMovedUp(s, RegionUpBy(s, n), n, m)
    decreases n
  {
    if n > 0 {
      var next := RegionUp(s);
      RegionUpOnce(s, m);
      RegionUpByMoves(next, n - 1, m - 1);
      MovedUpMore(s, next, RegionUpBy(next, n - 1), n, m);
    }
  }

  lemma MovedUpMore(s: Screen, next: Screen, r: Screen, n: nat, m: nat)
    requires n > 0 && RegionMovedUp(s, next, 1, m) && RegionMovedUp(next, r, n - 1, m - 1)
    ensures RegionMovedUp(s, r, n, m)
  {
  }

  /** n rows above row y scrolled up: the history is the same, now ending at row y - n, and the
      freed rows are blank. */
  lemma ScrolledUp(s: Screen, y: nat, n: nat)
    requires Calm(s) && n <= y && 1 <= y <= |s.rows| && (y >= 2 || s.oneLineRegions)
    ensures var r := ExecAll(s, [SetScrollRegion(1, y), ScrollUp(n), ResetScrollRegion]);
      && Calm(r) && SameShape(s, r) && HistoryTo(r, y - n) == HistoryTo(s, y)
      && (forall k :: y - n <= k < y ==> r.rows[k] == BlankRow(s.width, Reset))
      && (forall k :: y <= k < |s.rows| ==> r.rows[k] == s.rows[k])
  {
    ScrollRuns(s, y, n);
    RegionUpByMoves(s.(top := 0, bottom := y - 1, x := 0, y := 0), n, y);
  }

  lemma ScrollRuns(s: Screen, y: nat, n: nat)
    requires Calm(s) && 1 <= y <= |s.rows| && (y >= 2 || s.oneLineRegions)
    ensures ExecAll(s, [SetScrollRegion(1, y), ScrollUp(n), ResetScrollRegion]) ==
      RegionUpBy(s.(top := 0, bottom := y - 1, x := 0, y := 0), n).(top := 0, bottom := |s.rows| - 1, x := 0, y := 0)
  {
    ExecThree(s, SetScrollRegion(1, y), ScrollUp(n), ResetScrollRegion);
    assert Exec(s, SetScrollRegion(1, y)) == s.(top := 0, bottom := y - 1, x := 0, y := 0);
  }

  lemma ClearedBelow(s: Screen, y: nat)
    requires Calm(s) && y < |s.rows|
    ensures var r := ExecAll(s, [MoveTo(0, y), ClearToEndOfScreen]);
      && Calm(r) && SameShape(s, r) && r.scrollback == s.scrollback && r.rows[..y] == s.rows[..y] && BlankFrom(r, y)
  {
    ClearRuns(s, y);
    assert EraseFrom(s.rows[y], 0, Reset) == BlankRow(s.width, Reset);
  }

  lemma ClearRuns(s: Screen, y: nat)
    requires ScreenOk(s) && y < |s.rows|
    ensures ExecAll(s, [MoveTo(0, y), ClearToEndOfScreen]) == ExecEraseBelow(s.(x := 0, y := y))
  {
    MoveIs(s, 0, y);
    ExecTwo(s, MoveTo(0, y), ClearToEndOfScreen);
    ClearIs(s.(x := 0, y := y));
  }

  lemma ClearIs(s: Screen)
    requires ScreenOk(s)
    ensures Exec(s, ClearToEndOfScreen) == ExecEraseBelow(s)
  {
  }

  // ---------- rows that look alike ----------

  /** Two cells look the same; the foreground of an unmodified blank cannot be seen. */
  predicate LooksLike(a: Cell, b: Cell) {
    && a.symbol == b.symbol && a.bg == b.bg && a.modifier == b.modifier
    && (a.fg == b.fg || (a.symbol == BLANK && a.modifier == {}))
  }

  /** Wherever a glyph of row a starts, the same one starts in row b. */
  predicate Alike(a: seq<Cell>, b: seq<Cell>) {
    |a| == |b| && forall j :: 0 <= j < |a| && IsLead(a, j) ==> IsLead(b, j) && LooksLike(a[j], b[j])
  }

  /** Each row looks like the one below it. */
  predicate AllAlike(grid: seq<seq<Cell>>) {
    forall y :: 0 <= y < |grid| - 1 ==> Alike(grid[y], grid[y + 1])
  }

  /** What shows row b shows row a exactly if a looks like b. */
  lemma AlikeShows(shown: Row, a: seq<Cell>, b: seq<Cell>)
    requires RowShows(shown, b) && RowWf(a) && RowWf(b) && |a| == |b|
    ensures RowShows(shown, a) <==> Alike(a, b)
  {
    if RowShows(shown, a) {
      forall j | 0 <= j < |a| && IsLead(a, j) ensures IsLead(b, j) && LooksLike(a[j], b[j]) {
        LeadsAgree(shown, a, b, j);
        assert CellShown(shown[j], a[j]) && CellShown(shown[j], b[j]);
      }
    }
  }

  lemma {:induction false} LeadsAgree(shown: Row, a: seq<Cell>, b: seq<Cell>, j: nat)
    requires RowShows(shown, a) && RowShows(shown, b) && RowWf(a) && RowWf(b)
    requires j < |a| && IsLead(a, j)
    ensures IsLead(b, j)
  {
    if j > 0 {
      assert CellWf(a, j - 1) && CellWf(b, j - 1) && CellOk(shown, j - 1) && CellOk(shown, j);
      if j > 1 { assert CellWf(a, j - 2) && CellWf(b, j - 2); }
    }
  }

  // ---------- an emptied buffer ----------

  predicate AllEmpty(b: Buffer) {
    BufferOk(b) && forall i :: 0 <= i < |b.content| ==> b.content[i] == EMPTY_CELL
  }

  lemma EmptyRow(b: Buffer, y: nat)
    requires AllEmpty(b) && y < b.area.height
    ensures RowWf(RowOf(b, y)) && RowShows(BlankRow(b.area.width, Reset), RowOf(b, y))
  {
    RowStartMonotone(b.area.width, y, b.area.height);
    var row, shown := RowOf(b, y), BlankRow(b.area.width, Reset);
    forall j | 0 <= j < |row| ensures CellWf(row, j) && CellShown(shown[j], row[j]) {
      assert row[j] == EMPTY_CELL;
      assert shown[j] == BlankCell(Reset);
    }
  }

  /** Blank rows show an emptied buffer. */
  lemma BlankShown(s: Screen, b: Buffer)
    requires ScreenOk(s) && AllEmpty(b) && b.area.width == s.width && Bottom(b.area) <= |s.rows|
    requires forall k :: b.area.y <= k < Bottom(b.area) ==> s.rows[k] == BlankRow(s.width, Reset)
    ensures BufferWf(b) && Shows(s.rows, b)
  {
    forall y | 0 <= y < b.area.height
      ensures RowWf(RowOf(b, y)) && RowShows(s.rows[b.area.y + y], Rows(b)[y])
    {
      EmptyRow(b, y);
    }
  }

  lemma {:induction false} NoCells(width: nat, height: nat)
    requires width == 0 || height == 0
    ensures RowStart(width, height) == 0
  {
    if height > 0 { NoCells(width, height - 1); }
  }

  lemma FreshIsEmpty(v: View, area: Rect)
    requires BufferOk(v.shown) && v.shown.area == v.area
    ensures AllEmpty(WithArea(Cleared(v), area).shown)
  {
    if IsEmpty(v.area) { NoCells(v.area.width, v.area.height); }
  }

  // ---------- fitting the viewport ----------

  /** The rows above need not scroll, or they do so in a region the terminal accepts. */
  predicate ScrollAccepted(s: Screen, v: View, height: nat) {
    v.area.y + Min(height, |s.rows|) <= |s.rows| || v.area.y >= 2 || s.oneLineRegions
  }

  /** If the terminal refuses the region, the whole screen scrolls up by a row and the first row of the old
      viewport stays: that does no harm if it was blank. */
  predicate CanFit(s: Screen, v: View, height: nat) {
    ScrollAccepted(s, v, height) || IsEmpty(v.area)
    || (BufferOk(v.shown) && v.shown.area.height > 0 && Alike(EmptyCells(s.width), Rows(v.shown)[0]))
  }

  function EmptyCells(width: nat): (row: seq<Cell>)
    ensures |row| == width && forall j :: 0 <= j < width ==> row[j] == EMPTY_CELL
  {
    seq(width, _ => EMPTY_CELL)
  }

  /** From row y on the screen is blank, but for the rows the old viewport still covers. */
  predicate RoomAbove(s: Screen, r: Screen, v: View, area: Rect) {
    && Calm(r) && SameShape(s, r) && area.y <= v.area.y <= |s.rows|
    && HistoryTo(r, area.y) == HistoryTo(s, v.area.y)
    && (forall k :: area.y <= k < v.area.y ==> r.rows[k] == BlankRow(s.width, Reset))
    && (forall k :: v.area.y <= k < |s.rows| ==> r.rows[k] == s.rows[k])
  }

  lemma RoomScrolled(s: Screen, v: View, height: nat)
    requires Calm(s) && v.area.y <= |s.rows| && height >= 1 && ScrollAccepted(s, v, height)
    ensures RoomAbove(s, ExecAll(s, ScrollUpOps(v, SizeOf(s), height)), v, WantedArea(v, SizeOf(s), height))
  {
    var h := Min(height, |s.rows|);
    if v.area.y + h > |s.rows| {
      var up: nat, y := v.area.y + h - |s.rows|, v.area.y;
      assert ScrollUpOps(v, SizeOf(s), height) == [SetScrollRegion(1, y), ScrollUp(up), ResetScrollRegion];
      assert WantedArea(v, SizeOf(s), height).y == y - up;
      ScrolledUp(s, y, up);
    }
  }

  lemma RoomCleared(s: Screen, q: Screen, v: View, area: Rect)
    requires ViewShown(s, v) && RoomAbove(s, q, v, area)
    ensures var r := ExecAll(q, ClearOps(v));
      && Calm(r) && SameShape(s, r) && HistoryTo(r, area.y) == HistoryTo(s, v.area.y) && BlankFrom(r, area.y)
  {
    if !IsEmpty(v.area) {
      ClearedBelow(q, v.area.y);
      var r := ExecAll(q, ClearOps(v));
      assert r.rows[..area.y] == r.rows[..v.area.y][..area.y] == q.rows[..v.area.y][..area.y] == q.rows[..area.y];
      forall k | area.y <= k < v.area.y ensures r.rows[k] == BlankRow(s.width, Reset) {
        assert r.rows[k] == r.rows[..v.area.y][k] == q.rows[..v.area.y][k];
      }
    }
  }

  lemma AcceptedFit(s: Screen, v: View, height: nat, history: seq<Row>)
    requires Synced(s, v, history) && height >= 1 && ScrollAccepted(s, v, height)
    ensures var r, w := ExecAll(s, FitOps(v, SizeOf(s), height)), Fitted(v, SizeOf(s), height);
      Synced(r, w, history) && SameShape(s, r) && !IsEmpty(w.area)
  {
    var area := WantedArea(v, SizeOf(s), height);
    var scroll := ScrollUpOps(v, SizeOf(s), height);
    var clear := if area != v.area then ClearOps(v) else [];
    RoomScrolled(s, v, height);
    var q := ExecAll(s, scroll);
    ExecAllAppend(s, scroll, clear);
    if area != v.area {
      RoomCleared(s, q, v, area);
      FreshIsEmpty(v, area);
      BlankShown(ExecAll(q, clear), WithArea(Cleared(v), area).shown);
    }
  }

  /** The whole screen scrolls up by one row. */
  lemma RefusedScroll(s: Screen)
    requires Calm(s) && !s.oneLineRegions
    ensures var r := ExecAll(s, [SetScrollRegion(1, 1), ScrollUp(1), ResetScrollRegion]);
      && Calm(r) && SameShape(s, r) && HistoryTo(r, 0) == HistoryTo(s, 1)
      && (forall k :: 0 <= k < |s.rows| - 1 ==> r.rows[k] == s.rows[k + 1])
      && r.rows[|s.rows| - 1] == BlankRow(s.width, Reset)
  {
    ExecThree(s, SetScrollRegion(1, 1), ScrollUp(1), ResetScrollRegion);
    assert Exec(s, SetScrollRegion(1, 1)) == s;
    var up := RegionUp(s);
    assert RegionUpBy(s, 1) == RegionUpBy(up, 0) == up;
    assert up.rows == s.rows[1..] + [BlankRow(s.width, Reset)];
    assert s.rows[..1] == [s.rows[0]] && up.rows[..0] == [];
  }

  /** A row of empty cells is well-formed, and a blank row shows it. */
  lemma EmptyCellsShown(width: nat)
    ensures RowWf(EmptyCells(width)) && RowShows(BlankRow(width, Reset), EmptyCells(width))
  {
    var row, shown := EmptyCells(width), BlankRow(width, Reset);
    forall j | 0 <= j < width ensures CellWf(row, j) && CellShown(shown[j], row[j]) {
      assert shown[j] == BlankCell(Reset);
    }
  }

  /** Below its first row the screen is blank: it shows an emptied buffer exactly if the first row does. */
  lemma EmptiedShows(s: Screen, b: Buffer)
    requires Calm(s) && AllEmpty(b) && b.area.y == 0 && b.area.width == s.width && b.area.height == |s.rows|
    requires forall k :: 1 <= k < |s.rows| ==> s.rows[k] == BlankRow(s.width, Reset)
    ensures BufferWf(b) && (Shows(s.rows, b) <==> RowShows(s.rows[0], EmptyCells(s.width)))
  {
    forall y | 0 <= y < b.area.height
      ensures RowWf(RowOf(b, y)) && Rows(b)[y] == EmptyCells(s.width) && RowShows(BlankRow(s.width, Reset), Rows(b)[y])
    {
      EmptyRow(b, y);
      assert RowOf(b, y) == EmptyCells(s.width) by { EmptyRowCells(b, y); }
    }
    var grid := Rows(b);
    if RowShows(s.rows[0], EmptyCells(s.width)) {
      forall y | 0 <= y < |grid| ensures RowShows(s.rows[0 + y], grid[y]) {
        assert y > 0 ==> s.rows[y] == BlankRow(s.width, Reset);
      }
    }
    if Shows(s.rows, b) { assert RowShows(s.rows[0 + 0], grid[0]); }
  }

  lemma EmptyRowCells(b: Buffer, y: nat)
    requires AllEmpty(b) && y < b.area.height
    ensures RowOf(b, y) == EmptyCells(b.area.width)
  {
    RowStartMonotone(b.area.width, y, b.area.height);
  }

  /** What the refused scroll leaves of the screen once the old viewport has been cleared. */
  lemma RefusedCleared(s: Screen, v: View, history: seq<Row>)
    requires Synced(s, v, history) && v.area.y == 1 && !s.oneLineRegions
    ensures var q := ExecAll(s, [SetScrollRegion(1, 1), ScrollUp(1), ResetScrollRegion]);
      var r := ExecAll(q, ClearOps(v));
      && Calm(r) && SameShape(s, r) && HistoryTo(r, 0) == history
      && r.rows[0] == (if |s.rows| > 1 then s.rows[1] else BlankRow(s.width, Reset)) && BlankFrom(r, 1)
  {
    RefusedScroll(s);
    var q := ExecAll(s, [SetScrollRegion(1, 1), ScrollUp(1), ResetScrollRegion]);
    if IsEmpty(v.area) { EmptyStaysBlank(s, q, v); } else { ClearedFromOne(q, v); }
  }

  lemma ClearedFromOne(q: Screen, v: View)
    requires Calm(q) && |q.rows| > 1 && !IsEmpty(v.area) && v.area.x == 0 && v.area.y == 1
    ensures var r := ExecAll(q, ClearOps(v));
      && Calm(r) && SameShape(q, r) && HistoryTo(r, 0) == HistoryTo(q, 0) && r.rows[0] == q.rows[0] && BlankFrom(r, 1)
  {
    ClearedBelow(q, 1);
    var r := ExecAll(q, ClearOps(v));
    assert r.rows[0] == r.rows[..1][0] == q.rows[..1][0];
    assert r.rows[..0] == [] == q.rows[..0];
  }

  lemma EmptyStaysBlank(s: Screen, q: Screen, v: View)
    requires ViewShown(s, v) && IsEmpty(v.area) && v.area.y == 1 && SameShape(s, q)
    requires forall k :: 0 <= k < |s.rows| - 1 ==> q.rows[k] == s.rows[k + 1]
    requires q.rows[|s.rows| - 1] == BlankRow(s.width, Reset)
    ensures forall k :: 0 <= k < |s.rows| ==> q.rows[k] == BlankRow(s.width, Reset)
  {
  }

  lemma RefusedFit(s: Screen, v: View, height: nat, history: seq<Row>)
    requires Synced(s, v, history) && height >= 1 && !ScrollAccepted(s, v, height)
    ensures var r, w := ExecAll(s, FitOps(v, SizeOf(s), height)), Fitted(v, SizeOf(s), height);
      && Calm(r) && SameShape(s, r) && !IsEmpty(w.area) && HistoryTo(r, w.area.y) == history
      && (Synced(r, w, history) <==> CanFit(s, v, height))
  {
    var area := WantedArea(v, SizeOf(s), height);
    var scroll := [SetScrollRegion(1, 1), ScrollUp(1), ResetScrollRegion];
    assert v.area.y == 1 && area == Rect(v.area.x, 0, s.width, |s.rows|) && ScrollUpOps(v, SizeOf(s), height) == scroll;
    ExecAllAppend(s, scroll, ClearOps(v));
    RefusedCleared(s, v, history);
    var r, w := ExecAll(s, FitOps(v, SizeOf(s), height)), Fitted(v, SizeOf(s), height);
    FreshIsEmpty(v, area);
    EmptiedShows(r, w.shown);
    RefusedFirstRow(s, v, r, history);
  }

  lemma RefusedFirstRow(s: Screen, v: View, r: Screen, history: seq<Row>)
    requires Synced(s, v, history) && v.area.y == 1
    requires ScreenOk(r) && r.rows[0] == (if |s.rows| > 1 then s.rows[1] else BlankRow(s.width, Reset))
    ensures RowShows(r.rows[0], EmptyCells(s.width)) <==>
      IsEmpty(v.area) || (v.shown.area.height > 0 && Alike(EmptyCells(s.width), Rows(v.shown)[0]))
  {
    EmptyCellsShown(s.width);
    if !IsEmpty(v.area) {
      assert RowShows(s.rows[1 + 0], Rows(v.shown)[0]) && RowWf(RowOf(v.shown, 0));
      AlikeShows(s.rows[1], EmptyCells(s.width), Rows(v.shown)[0]);
    }
  }

  /** Fitting the viewport loses no history, and keeps the terminal in step exactly if the region above is
      accepted, or nothing but blanks stood in the first row of the old viewport. */
  lemma FitSynced(s: Screen, v: View, height: nat, history: seq<Row>)
    requires Synced(s, v, history) && height >= 1
    ensures var r, w := ExecAll(s, FitOps(v, SizeOf(s), height)), Fitted(v, SizeOf(s), height);
      && Calm(r) && SameShape(s, r) && !IsEmpty(w.area) && HistoryTo(r, w.area.y) == history
      && (Synced(r, w, history) <==> CanFit(s, v, height))
  {
    if ScrollAccepted(s, v, height) { AcceptedFit(s, v, height, history); } else { RefusedFit(s, v, height, history); }
  }

  // ---------- inserting history ----------

  lemma SameSizeKept(b: Buffer, area: Rect)
    requires BufferOk(b) && area.width == b.area.width && area.height == b.area.height
    ensures Resized(b, area).content == b.content
    ensures BufferWf(b) ==> BufferWf(Resized(b, area))
    ensures Rows(Resized(b, area)) == Rows(b)
  {
    var r := Resized(b, area);
    assert b.content[..|b.content|] == b.content;
    forall y | 0 <= y < b.area.height ensures RowOf(r, y) == RowOf(b, y) { }
  }

  lemma GridMoved(was: seq<Row>, rows: seq<Row>, grid: seq<seq<Cell>>, top: nat, newTop: nat)
    requires GridShown(was, grid, top) && newTop + |grid| <= |rows|
    requires forall y {:trigger grid[y]} :: 0 <= y < |grid| ==> rows[newTop + y] == was[top + y]
    ensures GridShown(rows, grid, newTop)
  {
  }

  lemma RowsMoved(s: Screen, r: Screen, area: Rect, lines: seq<Line>, y: nat)
    requires ViewportOk(s, area) && Inserted(s, r, area, lines) && y < area.height
    ensures var top := Moved(area, SizeOf(s), RowCount(lines, s.width)).y;
      top + y < |r.rows| && r.rows[top + y] == s.rows[area.y + y]
  {
    var k := area.y + y;
    assert r.rows[k + ScrollAmount(area, SizeOf(s), RowCount(lines, s.width))] == s.rows[k];
  }

  /** The moved viewport still shows the buffer. */
  lemma StillShown(s: Screen, r: Screen, v: View, lines: seq<Line>, area: Rect)
    requires BufferOk(v.shown) && v.shown.area == v.area && Shows(s.rows, v.shown) && BufferWf(v.shown)
    requires ViewportOk(s, v.area) && Inserted(s, r, v.area, lines)
    requires area == Moved(v.area, SizeOf(s), RowCount(lines, s.width))
    ensures Shows(r.rows, Resized(v.shown, area)) && BufferWf(Resized(v.shown, area))
  {
    SameSizeKept(v.shown, area);
    var grid := Rows(v.shown);
    forall y {:trigger grid[y]} | 0 <= y < |grid| ensures r.rows[area.y + y] == s.rows[v.area.y + y] {
      RowsMoved(s, r, v.area, lines, y);
    }
    GridMoved(s.rows, r.rows, grid, v.area.y, area.y);
  }

  lemma InsertedSynced(s: Screen, r: Screen, v: View, lines: seq<Line>, rows: nat, history: seq<Row>)
    requires Synced(s, v, history) && ViewportOk(s, v.area) && Inserted(s, r, v.area, lines)
    requires rows == RowCount(lines, s.width)
    ensures var added := HistoryRows(lines, s.width, ScrollAmount(v.area, SizeOf(s), rows));
      Synced(r, AfterInsertion(v, SizeOf(s), rows), history + added)
  {
    var area := Moved(v.area, SizeOf(s), rows);
    StillShown(s, r, v, lines, area);
    InsertedView(v, SizeOf(s), rows);
    assert ViewShown(r, AfterInsertion(v, SizeOf(s), rows));
  }

  /** The view after an insertion: the buffers moved, no more history rows counted than fit. */
  lemma InsertedView(v: View, size: Size, rows: nat)
    requires BufferOk(v.shown) && v.shown.area == v.area && v.visible <= v.area.y && Bottom(v.area) <= size.height
    ensures var w, area := AfterInsertion(v, size, rows), Moved(v.area, size, rows);
      w.area == area && w.shown == Resized(v.shown, area) && w.visible <= area.y
  {
    SameSizeKept(v.shown, v.area);
  }

  /** What comes between the old history and the inserted lines: a viewport at the top of the screen gives
      up its own first row to the history, or a blank one if it has no other. */
  function TopRows(s: Screen, area: Rect): seq<Row>
    requires |s.rows| > 0
  {
    if area.y > 0 then [] else if area.height > 1 then [s.rows[0]] else [BlankRow(s.width, Reset)]
  }

  /** The row of the viewport after an insertion; at row 0 there is no room and the lines are dropped. */
  function TopAfter(s: Screen, area: Rect, lines: seq<Line>): nat {
    Moved(Lowered(area, SizeOf(s)), SizeOf(s), RowCount(lines, s.width)).y
  }

  /** The rows that are free for the lines, without scrolling, when the viewport has moved. */
  function RoomFor(s: Screen, area: Rect, lines: seq<Line>): nat {
    RoomLeft(TopAfter(s, area, lines), Max(Lowered(area, SizeOf(s)).y, 1))
  }

  function Growth(s: Screen, area: Rect, lines: seq<Line>): seq<Row>
    requires |s.rows| > 0
  {
    if lines == [] || TopAfter(s, area, lines) == 0 then []
    else TopRows(s, area) + HistoryRows(lines, s.width, RoomFor(s, area, lines))
  }

  predicate InsertOk(s: Screen, area: Rect, lines: seq<Line>) {
    lines != [] ==>
      && LinesOk(lines, area.width)
      && (TopAfter(s, area, lines) == 0
          || RegionAccepted(s, Lowered(area, SizeOf(s)), RowCount(lines, s.width)))
  }

  /** A viewport at the top is lowered without being redrawn: its rows must look alike. */
  predicate StaysInStep(v: View, lines: seq<Line>) {
    lines == [] || v.area.y > 0 || v.area.height <= 1 || (BufferOk(v.shown) && AllAlike(Rows(v.shown)))
  }

  predicate CanInsert(s: Screen, v: View, lines: seq<Line>) { InsertOk(s, v.area, lines) && StaysInStep(v, lines) }

  /** What an insertion leaves: nothing is lost of the history, and it grows as it should. */
  predicate HistoryGrown(s: Screen, r: Screen, w: View, history: seq<Row>) {
    Calm(r) && SameShape(s, r) && !IsEmpty(w.area) && w.area.y <= |r.rows| && HistoryTo(r, w.area.y) == history
  }

  lemma InsertedBelowTop(s: Screen, v: View, lines: seq<Line>, history: seq<Row>)
    requires Synced(s, v, history) && !IsEmpty(v.area) && lines != [] && InsertOk(s, v.area, lines) && v.area.y > 0
    ensures var r, w := ExecAll(s, HistoryOps(v, SizeOf(s), lines)), WithHistory(v, SizeOf(s), lines);
      var grown := history + HistoryRows(lines, s.width, RoomFor(s, v.area, lines));
      Synced(r, w, grown) && SameShape(s, r) && !IsEmpty(w.area)
  {
    var rows := RowCount(lines, s.width);
    InsertionAppendsIf(s, v.area, lines, v.cursor);
    InsertedSynced(s, ExecAll(s, HistoryOps(v, SizeOf(s), lines)), v, lines, rows, history);
    assert RoomFor(s, v.area, lines) == ScrollAmount(v.area, SizeOf(s), rows);
  }

  lemma LoweredRows(b: Buffer, area: Rect)
    requires BufferOk(b) && area.width == b.area.width && area.height <= b.area.height
    ensures Rows(Resized(b, area)) == Rows(b)[..area.height]
  {
    var low := Resized(b, area);
    RowStartMonotone(area.width, area.height, b.area.height);
    forall y | 0 <= y < area.height ensures RowOf(low, y) == RowOf(b, y) {
      RowStartMonotone(area.width, y, area.height);
    }
  }

  /** Where a grid is shown, the grid without its last row is shown a row further down exactly if each of
      its rows looks like the one below it. */
  lemma LowerGrid(rows: seq<Row>, grid: seq<seq<Cell>>)
    requires GridShown(rows, grid, 0) && GridWf(grid) && |grid| > 1
    requires forall y :: 0 <= y < |grid| - 1 ==> |grid[y]| == |grid[y + 1]|
    ensures GridShown(rows, grid[..|grid| - 1], 1) <==> AllAlike(grid)
  {
    var upper, part := grid[..|grid| - 1], rows[1..|grid|];
    GridInPlace(rows, part, upper, 1);
    forall y | 0 <= y < |upper| ensures RowShows(part[y], upper[y]) <==> Alike(grid[y], grid[y + 1]) {
      assert RowShows(rows[0 + (y + 1)], grid[y + 1]) && RowWf(grid[y]) && RowWf(grid[y + 1]);
      AlikeShows(rows[1 + y], grid[y], grid[y + 1]);
    }
    if AllAlike(grid) {
      forall y | 0 <= y < |upper| ensures RowShows(part[y], upper[y]) { assert Alike(grid[y], grid[y + 1]); }
    } else {
      var y :| 0 <= y < |grid| - 1 && !Alike(grid[y], grid[y + 1]);
      assert !RowShows(part[y], upper[y]);
    }
  }

  /** At the top of the screen the viewport is lowered without redrawing it: the screen then shows the
      buffer exactly if each of its rows looks like the one below it. */
  lemma LoweredShows(s: Screen, v: View)
    requires ViewShown(s, v) && v.area.y == 0 && v.area.width > 0 && v.area.height > 1
    ensures var low := LoweredView(v, SizeOf(s)).shown;
      BufferWf(low) && (Shows(s.rows, low) <==> AllAlike(Rows(v.shown)))
  {
    var area, grid := Rect(v.area.x, 1, v.area.width, v.area.height - 1), Rows(v.shown);
    LoweredRows(v.shown, area);
    GridOfBuffer(v.shown);
    LowerGrid(s.rows, grid);
    BufferOfGrid(Resized(v.shown, area), grid[..area.height]);
  }

  lemma GridOfBuffer(b: Buffer)
    requires BufferWf(b) && b.area.width > 0
    ensures GridWf(Rows(b)) && forall y :: 0 <= y < |Rows(b)| ==> |Rows(b)[y]| == b.area.width
  {
  }

  lemma BufferOfGrid(b: Buffer, grid: seq<seq<Cell>>)
    requires BufferOk(b) && Rows(b) == grid && forall y :: 0 <= y < |grid| ==> RowWf(grid[y])
    ensures BufferWf(b)
  {
    forall y | 0 <= y < b.area.height ensures RowWf(RowOf(b, y)) { assert grid[y] == RowOf(b, y); }
  }

  /** The rows of the viewport have moved: they show the moved buffer exactly if they showed it before. */
  lemma MovedShows(was: seq<Row>, rows: seq<Row>, b: Buffer, area: Rect)
    requires BufferOk(b) && area.width == b.area.width && area.height == b.area.height
    requires Bottom(b.area) <= |was| && Bottom(area) <= |rows|
    requires rows[area.y..Bottom(area)] == was[b.area.y..Bottom(b.area)]
    ensures (Shows(rows, Resized(b, area)) <==> Shows(was, b)) && (BufferWf(b) ==> BufferWf(Resized(b, area)))
  {
    SameSizeKept(b, area);
    var moved := rows[area.y..Bottom(area)];
    GridInPlace(rows, moved, Rows(b), area.y);
    GridInPlace(was, moved, Rows(b), b.area.y);
  }

  lemma GridInPlace(rows: seq<Row>, part: seq<Row>, grid: seq<seq<Cell>>, top: nat)
    requires top + |grid| <= |rows| && part == rows[top..top + |grid|]
    ensures GridShown(rows, grid, top) <==> forall y :: 0 <= y < |grid| ==> RowShows(part[y], grid[y])
  {
    assert forall y {:trigger grid[y]} :: 0 <= y < |grid| ==> part[y] == rows[top + y];
  }

  lemma CarriedRows(s: Screen, r: Screen, area: Rect, lines: seq<Line>)
    requires ViewportOk(s, area) && Inserted(s, r, area, lines)
    ensures var after := Moved(area, SizeOf(s), RowCount(lines, s.width));
      Bottom(after) <= |r.rows| && r.rows[after.y..Bottom(after)] == s.rows[area.y..Bottom(area)]
  {
    var after := Moved(area, SizeOf(s), RowCount(lines, s.width));
    forall y | 0 <= y < area.height
      ensures r.rows[after.y..Bottom(after)][y] == s.rows[area.y..Bottom(area)][y]
    {
      RowsMoved(s, r, area, lines, y);
    }
  }

  /** The view after an insertion, over a screen whose viewport rows have moved with it. */
  lemma ViewMoved(s: Screen, r: Screen, v: View, rows: nat)
    requires Calm(s) && Calm(r) && SameShape(s, r) && BufferWf(v.shown) && v.shown.area == v.area && !IsEmpty(v.area)
    requires v.area.x == 0 && v.area.width == s.width && v.visible <= v.area.y && Bottom(v.area) <= |s.rows|
    requires var after := Moved(v.area, SizeOf(s), rows);
      Bottom(after) <= |r.rows| && r.rows[after.y..Bottom(after)] == s.rows[v.area.y..Bottom(v.area)]
    ensures var w := AfterInsertion(v, SizeOf(s), rows);
      && w.area == Moved(v.area, SizeOf(s), rows) && w.visible <= w.area.y
      && (ViewShown(r, w) <==> Shows(s.rows, v.shown))
  {
    InsertedView(v, SizeOf(s), rows);
    MovedShows(s.rows, r.rows, v.shown, Moved(v.area, SizeOf(s), rows));
  }

  /** The view once history has been inserted, where there was room. */
  lemma ViewAfter(v: View, size: Size, lines: seq<Line>, rows: nat)
    requires v.area.width == size.width > 0 && size.height > 0 && lines != [] && rows == RowCount(lines, size.width)
    requires Moved(Lowered(v.area, size), size, rows).y > 0
    ensures WithHistory(v, size, lines) == AfterInsertion(LoweredView(v, size), size, rows)
    ensures HistoryOps(v, size, lines) == InsertOps(Lowered(v.area, size), size, lines, v.cursor)
  {
  }

  lemma InsertedAtTop(s: Screen, v: View, lines: seq<Line>, history: seq<Row>)
    requires Synced(s, v, history) && !IsEmpty(v.area) && lines != [] && InsertOk(s, v.area, lines)
    requires v.area.y == 0 && v.area.height > 1
    ensures var r, w := ExecAll(s, HistoryOps(v, SizeOf(s), lines)), WithHistory(v, SizeOf(s), lines);
      var grown := history + ([s.rows[0]] + HistoryRows(lines, s.width, RoomFor(s, v.area, lines)));
      HistoryGrown(s, r, w, grown) && (Synced(r, w, grown) <==> AllAlike(Rows(v.shown)))
  {
    var rows, added := RowCount(lines, s.width), HistoryRows(lines, s.width, RoomFor(s, v.area, lines));
    var low, r := LoweredView(v, SizeOf(s)), ExecAll(s, HistoryOps(v, SizeOf(s), lines));
    ViewAfter(v, SizeOf(s), lines, rows);
    var after := Moved(low.area, SizeOf(s), rows);
    assert RoomFor(s, v.area, lines) == ScrollAmount(low.area, SizeOf(s), rows) == after.y - low.area.y;
    assert Inserted(s, r, low.area, lines) by { InsertionAppendsIf(s, low.area, lines, v.cursor); }
    assert HistoryTo(r, after.y) == HistoryTo(s, 1) + added;
    CarriedRows(s, r, low.area, lines);
    AtTopMoved(s, r, v, rows, history, added);
  }

  lemma AtTopMoved(s: Screen, r: Screen, v: View, rows: nat, history: seq<Row>, added: seq<Row>)
    requires Synced(s, v, history) && !IsEmpty(v.area) && v.area.y == 0 && v.area.height > 1
    requires var low := Lowered(v.area, SizeOf(s));
      var after := Moved(low, SizeOf(s), rows);
      && Calm(r) && SameShape(s, r) && Bottom(after) <= |r.rows|
      && r.rows[after.y..Bottom(after)] == s.rows[low.y..Bottom(low)]
      && HistoryTo(r, after.y) == HistoryTo(s, 1) + added
    ensures var w := AfterInsertion(LoweredView(v, SizeOf(s)), SizeOf(s), rows);
      var grown := history + ([s.rows[0]] + added);
      HistoryGrown(s, r, w, grown) && (Synced(r, w, grown) <==> AllAlike(Rows(v.shown)))
  {
    var low := LoweredView(v, SizeOf(s));
    LoweredShows(s, v);
    ViewMoved(s, r, low, rows);
    FirstRowGiven(s, history, added);
  }

  lemma FirstRowGiven(s: Screen, history: seq<Row>, rendered: seq<Row>)
    requires |s.rows| > 0 && HistoryTo(s, 0) == history
    ensures HistoryTo(s, 1) + rendered == history + ([s.rows[0]] + rendered)
  {
    assert s.rows[..1] == s.rows[..0] + [s.rows[0]];
    Assoc(s.scrollback, s.rows[..0], [s.rows[0]]);
    Assoc(history, [s.rows[0]], rendered);
  }

  lemma InsertedAboveOneRow(s: Screen, v: View, lines: seq<Line>, history: seq<Row>)
    requires Synced(s, v, history) && !IsEmpty(v.area) && lines != [] && InsertOk(s, v.area, lines)
    requires v.area.y == 0 && v.area.height == 1 && TopAfter(s, v.area, lines) > 0
    ensures var r, w := ExecAll(s, HistoryOps(v, SizeOf(s), lines)), WithHistory(v, SizeOf(s), lines);
      var grown := history + ([BlankRow(s.width, Reset)] + HistoryRows(lines, s.width, RoomFor(s, v.area, lines)));
      Synced(r, w, grown) && SameShape(s, r) && !IsEmpty(w.area)
  {
    var rows, added := RowCount(lines, s.width), HistoryRows(lines, s.width, RoomFor(s, v.area, lines));
    ViewAfter(v, SizeOf(s), lines, rows);
    var r := ExecAll(s, HistoryOps(v, SizeOf(s), lines));
    var n := ScrollAmount(v.area, SizeOf(s), rows);
    assert TopAfter(s, v.area, lines) == Moved(v.area, SizeOf(s), rows).y == n && RoomFor(s, v.area, lines) == Less1(n);
    TopInsertion(s, v.area, lines, v.cursor);
    assert HistoryTo(r, n) == HistoryTo(s, 0) + [BlankRow(s.width, Reset)] + added;
    OneRowMoved(s, r, v, rows, history, added);
  }

  lemma OneRowMoved(s: Screen, r: Screen, v: View, rows: nat, history: seq<Row>, rendered: seq<Row>)
    requires Synced(s, v, history) && !IsEmpty(v.area) && v.area.y == 0 && v.area.height == 1
    requires var top := Moved(v.area, SizeOf(s), rows).y;
      && Calm(r) && SameShape(s, r) && top < |r.rows| && r.rows[top] == s.rows[0]
      && HistoryTo(r, top) == HistoryTo(s, 0) + [BlankRow(s.width, Reset)] + rendered
    ensures Synced(r, AfterInsertion(v, SizeOf(s), rows), history + ([BlankRow(s.width, Reset)] + rendered))
  {
    var after := Moved(v.area, SizeOf(s), rows);
    assert r.rows[after.y..after.y + 1] == [r.rows[after.y]] && s.rows[0..1] == [s.rows[0]];
    ViewMoved(s, r, v, rows);
    Assoc(history, [BlankRow(s.width, Reset)], rendered);
  }

  lemma LinesDropped(s: Screen, v: View, lines: seq<Line>, history: seq<Row>)
    requires Synced(s, v, history) && !IsEmpty(v.area) && lines != [] && InsertOk(s, v.area, lines)
    requires TopAfter(s, v.area, lines) == 0
    ensures var r, w := ExecAll(s, HistoryOps(v, SizeOf(s), lines)), WithHistory(v, SizeOf(s), lines);
      w == v && Synced(r, w, history) && SameShape(s, r)
  {
    NothingInserted(s, v.area, lines, v.cursor);
    var ops := RoomOps(v.area, SizeOf(s), RowCount(lines, s.width));
    assert ops + [] == ops;
  }

  /** What inserting does, wherever the viewport is: no history is lost, it grows by the lines after what a
      viewport at the top gives up, and the terminal stays in step exactly if a viewport at the top has rows
      that look alike. */
  lemma HistorySynced(s: Screen, v: View, lines: seq<Line>, history: seq<Row>)
    requires Synced(s, v, history) && !IsEmpty(v.area) && InsertOk(s, v.area, lines)
    ensures var r, w := ExecAll(s, HistoryOps(v, SizeOf(s), lines)), WithHistory(v, SizeOf(s), lines);
      var grown := history + Growth(s, v.area, lines);
      HistoryGrown(s, r, w, grown) && (Synced(r, w, grown) <==> StaysInStep(v, lines))
  {
    assert history + [] == history;
    if lines != [] {
      var rendered := HistoryRows(lines, s.width, RoomFor(s, v.area, lines));
      assert [] + rendered == rendered;
      if TopAfter(s, v.area, lines) == 0 { LinesDropped(s, v, lines, history); }
      else if v.area.y > 0 { InsertedBelowTop(s, v, lines, history); }
      else if v.area.height > 1 { InsertedAtTop(s, v, lines, history); }
      else { InsertedAboveOneRow(s, v, lines, history); }
    }
  }

  function Letter(text: string): Cell { Cell(Symbol(text, 1), Reset, Reset, {}, false) }

  /** A viewport of two different rows at the top of the screen: inserting anything leaves the terminal out
      of step. */
  lemma TwoRowsOutOfStep(s: Screen, v: View, lines: seq<Line>, history: seq<Row>)
    requires Synced(s, v, history) && lines != [] && InsertOk(s, v.area, lines)
    requires v.shown == Buffer(Rect(0, 0, 1, 2), [Letter("a"), Letter("b")])
    ensures var r, w := ExecAll(s, HistoryOps(v, SizeOf(s), lines)), WithHistory(v, SizeOf(s), lines);
      !Synced(r, w, history + Growth(s, v.area, lines))
  {
    HistorySynced(s, v, lines, history);
    var grid := Rows(v.shown);
    assert RowStart(1, 0) == 0 && RowStart(1, 1) == 1;
    assert grid[0][0] == Letter("a") && grid[1][0] == Letter("b") && IsLead(grid[0], 0);
    assert "a"[0] != "b"[0] && !Alike(grid[0], grid[0 + 1]);
  }

  // ---------- drawing the frame ----------

  predicate CanDraw(v: View, frame: seq<Cell>) {
    FrameFits(v, frame) && BufferWf(Target(v, frame)) && PenSafe({}, DiffCommands(v.shown, Target(v, frame)))
  }

  lemma FrameSynced(s: Screen, v: View, frame: seq<Cell>, cursor: Option<Position>, history: seq<Row>)
    requires Synced(s, v, history) && !IsEmpty(v.area) && CanDraw(v, frame)
    ensures var r := ExecAll(s, FrameOps(v, frame, cursor));
      Synced(r, Framed(v, frame, cursor), history) && SameShape(s, r)
  {
    var draw := DrawOps(UNTOUCHED, DiffCommands(v.shown, Target(v, frame)));
    FrameDrawn(s, v.shown, Target(v, frame));
    ExecAllAppend(s, draw, CursorOps(cursor));
    var drawn := ExecAll(s, draw);
    assert drawn.rows[..v.area.y] == s.rows[..v.area.y];
    if cursor.Some? { ExecOne(drawn, MoveTo(cursor.value.x, cursor.value.y)); }
  }

  // ---------- whole runs ----------

  /** One redraw, as the interface asks for it. */
  datatype Redraw = Redraw(height: nat, lines: seq<Line>, frame: seq<Cell>, cursor: Option<Position>)

  /** The conditions under which a redraw keeps the terminal in step. */
  predicate RedrawOk(s: Screen, v: View, d: Redraw) {
    var fitted := Fitted(v, SizeOf(s), d.height);
    && d.height >= 1 && CanFit(s, v, d.height) && CanInsert(s, fitted, d.lines)
    && CanDraw(WithHistory(fitted, SizeOf(s), d.lines), d.frame)
  }

  /** What a redraw adds to the history. */
  function Added(s: Screen, v: View, d: Redraw): seq<Row>
    requires ScreenOk(s)
  {
    Growth(ExecAll(s, FitOps(v, SizeOf(s), d.height)), Fitted(v, SizeOf(s), d.height).area, d.lines)
  }

  function AfterRedraw(s: Screen, v: View, d: Redraw): (r: (Screen, View))
    requires ScreenOk(s) && RedrawOk(s, v, d)
    ensures SameShape(s, r.0)
  {
    (ExecAll(s, RedrawOps(v, SizeOf(s), d.height, d.lines, d.frame, d.cursor)),
     Redrawn(v, SizeOf(s), d.height, d.lines, d.frame, d.cursor))
  }

  /** The cursor is where the frame wants it, on the terminal and in the program's memory. */
  predicate CursorStands(s: Screen, v: View, cursor: Option<Position>) {
    cursor.Some? && cursor.value.x < s.width && cursor.value.y < |s.rows| ==>
      s.x == cursor.value.x && s.y == cursor.value.y && v.cursor == cursor.value
  }

  lemma CursorPlaced(s: Screen, v: View, frame: seq<Cell>, cursor: Option<Position>)
    requires ScreenOk(s) && FrameFits(v, frame)
    ensures CursorStands(ExecAll(s, FrameOps(v, frame, cursor)), Framed(v, frame, cursor), cursor)
  {
    var draw := DrawOps(UNTOUCHED, DiffCommands(v.shown, Target(v, frame)));
    ExecAllAppend(s, draw, CursorOps(cursor));
    if cursor.Some? { ExecOne(ExecAll(s, draw), MoveTo(cursor.value.x, cursor.value.y)); }
  }

  /** One redraw: the viewport shows the frame, the cursor is where the frame wants it, and the history has
      grown by the inserted lines. */
  lemma RedrawSynced(s: Screen, v: View, d: Redraw, history: seq<Row>)
    requires Synced(s, v, history) && RedrawOk(s, v, d)
    ensures var r := AfterRedraw(s, v, d);
      && Synced(r.0, r.1, history + Added(s, v, d)) && r.1.shown.content == d.frame && !IsEmpty(r.1.area)
      && CursorStands(r.0, r.1, d.cursor)
  {
    var size := SizeOf(s);
    var fitted := Fitted(v, size, d.height);
    var prepared := WithHistory(fitted, size, d.lines);
    var fit, insert := FitOps(v, size, d.height), HistoryOps(fitted, size, d.lines);
    var draw := FrameOps(prepared, d.frame, d.cursor);
    FitSynced(s, v, d.height, history);
    var s1 := ExecAll(s, fit);
    HistorySynced(s1, fitted, d.lines, history);
    var s2 := ExecAll(s1, insert);
    FrameSynced(s2, prepared, d.frame, d.cursor, history + Added(s, v, d));
    CursorPlaced(s2, prepared, d.frame, d.cursor);
    ExecAllAppend(s, fit + insert, draw);
    ExecAllAppend(s, fit, insert);
  }

  predicate RunOk(s: Screen, v: View, run: seq<Redraw>)
    decreases |run|
  {
    run == [] || (ScreenOk(s) && RedrawOk(s, v, run[0])
                  && var r := AfterRedraw(s, v, run[0]); RunOk(r.0, r.1, run[1..]))
  }

  /** At every point of a run the terminal is in step: after each redraw the viewport shows its frame, the
      cursor is where that wants it, and the history is the old one followed by the lines inserted so far, in order. */
  predicate InStepThroughout(s: Screen, v: View, run: seq<Redraw>, history: seq<Row>)
    requires RunOk(s, v, run)
    decreases |run|
  {
    && Synced(s, v, history)
    && (run == [] ||
        var r := AfterRedraw(s, v, run[0]);
        r.1.shown.content == run[0].frame && CursorStands(r.0, r.1, run[0].cursor)
        && InStepThroughout(r.0, r.1, run[1..], history + Added(s, v, run[0])))
  }

  lemma {:induction false} RunSynced(s: Screen, v: View, run: seq<Redraw>, history: seq<Row>)
    requires Synced(s, v, history) && RunOk(s, v, run)
    ensures InStepThroughout(s, v, run, history)
    decreases |run|
  {
    if run != [] {
      RedrawSynced(s, v, run[0], history);
      var r := AfterRedraw(s, v, run[0]);
      RunSynced(r.0, r.1, run[1..], history + Added(s, v, run[0]));
    }
  }

  /** The interface starts in step, on a screen that is blank from the cursor's row on. */
  lemma StartSynced(s: Screen, cursor: Position)
    requires Calm(s) && cursor.y < |s.rows| && BlankFrom(s, cursor.y)
    ensures var area := Rect(0, cursor.y, 0, 0);
      Synced(s, View(area, Buffer(area, []), cursor, 0), HistoryTo(s, cursor.y))
  {
  }
}
