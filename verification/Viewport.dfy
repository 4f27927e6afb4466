/** Where the viewport, the cursor and the scrollback are after each operation of the terminal, in terms of
    the screen and the rows inserted alone. */
module Viewport {
  import opened Wrappers
  import opened Screen
  import opened Diff
  import opened Draw
  import opened DrawProofs
  import opened History
  import opened HistoryProofs
  import opened CustomTerminal
  import opened Session

  // ---------- the viewport of a redraw ----------

  /** The viewport gets the height asked for, or that of the screen; it only moves if it would not fit, and
      then ends with the screen. */
  lemma FittedExactly(v: View, size: Size, height: nat)
    requires v.visible <= v.area.y
    ensures var w := Fitted(v, size, height);
      && w.area.x == v.area.x && w.area.width == size.width && w.area.height == Min(height, size.height)
      && (if v.area.y + Min(height, size.height) <= size.height then w.area.y == v.area.y
          else w.area.y + w.area.height == size.height)
      && w.visible == Min(v.visible, w.area.y) && w.cursor == v.cursor
  {
  }

  // ---------- insertion ----------

  /** What a viewport is lowered to when it is at the top of a screen: it ends where it did. */
  lemma LoweredExactly(s: Screen, area: Rect)
    requires OnScreen(s, area)
    ensures var low := Lowered(area, SizeOf(s));
      && low.x == area.x && low.width == area.width && low.y + low.height == area.y + area.height
      && low.y == if area.y == 0 && area.height > 1 then 1 else area.y
  {
  }

  /** The rows below a viewport. */
  function FreeBelow(s: Screen, area: Rect): nat { if Bottom(area) <= |s.rows| then |s.rows| - Bottom(area) else 0 }

  /** The viewport moves down by the rows counted, or as far as the screen goes, exactly if they are fewer
      than 65536, or that many fewer still reach the end of the screen; it never moves further. */
  lemma ViewportMoves(s: Screen, v: View, lines: seq<Line>)
    requires OnScreen(s, v.area) && lines != []
    ensures var low, rows := Lowered(v.area, SizeOf(s)), RowCount(lines, s.width);
      var area, free := WithHistory(v, SizeOf(s), lines).area, FreeBelow(s, low);
      && area.x == low.x && area.width == low.width && area.height == low.height
      && low.y <= area.y <= low.y + rows && area.y + area.height <= |s.rows|
      && (area.y == low.y + rows || area.y + area.height == |s.rows| <==> rows < 0x10000 || rows % 0x10000 >= free)
  {
    AmountIs(s, Lowered(v.area, SizeOf(s)), RowCount(lines, s.width));
    AreaAfter(s, v, lines);
  }

  /** The viewport moves by the rows counted, as sixteen bits hold them, or by the rows that are free. */
  lemma AmountIs(s: Screen, area: Rect, rows: nat)
    requires Bottom(area) <= |s.rows|
    ensures var n, left := ScrollAmount(area, SizeOf(s), rows), rows % 0x10000;
      n == Min(left, FreeBelow(s, area)) && (rows < 0x10000 ==> left == rows) && left <= rows
  {
  }

  lemma AreaAfter(s: Screen, v: View, lines: seq<Line>)
    requires OnScreen(s, v.area) && lines != []
    ensures var low := Lowered(v.area, SizeOf(s));
      WithHistory(v, SizeOf(s), lines).area == low.(y := low.y + ScrollAmount(low, SizeOf(s), RowCount(lines, s.width)))
  {
  }

  /** Below the top of the screen: what is scrolled out of the screen are the rows that the lines take beyond
      those by which the viewport moved. */
  lemma ScrollbackGrows(s: Screen, v: View, lines: seq<Line>, history: seq<Row>)
    requires Synced(s, v, history) && !IsEmpty(v.area) && v.area.y > 0 && lines != [] && InsertOk(s, v.area, lines)
    ensures var r, w := ExecAll(s, HistoryOps(v, SizeOf(s), lines)), WithHistory(v, SizeOf(s), lines);
      var n := RoomLeft(w.area.y, v.area.y);
      && |r.scrollback| == |s.scrollback| + RoomLeft(|RenderedAll(lines, s.width, n)|, n)
      && s.scrollback <= r.scrollback
      && (r.scrollback == s.scrollback <==> |RenderedAll(lines, s.width, n)| <= n)
  {
    var r, w := ExecAll(s, HistoryOps(v, SizeOf(s), lines)), WithHistory(v, SizeOf(s), lines);
    var n := RoomLeft(w.area.y, v.area.y);
    AreaAfter(s, v, lines);
    InsertedBelowTop(s, v, lines, history);
    assert RoomFor(s, v.area, lines) == n;
    var rows := RenderedAll(lines, s.width, n);
    HistoryPushed(s, r, v.area.y, w.area.y, rows, EmptyRows(RoomLeft(n, |rows|), s.width));
  }

  lemma HistoryPushed(s: Screen, r: Screen, y: nat, end: nat, rows: seq<Row>, blank: seq<Row>)
    requires y <= |s.rows| && y <= end <= |r.rows| && |blank| == RoomLeft(end - y, |rows|)
    requires HistoryTo(r, end) == HistoryTo(s, y) + (rows + blank)
    ensures |r.scrollback| == |s.scrollback| + RoomLeft(|rows|, end - y) && s.scrollback <= r.scrollback
  {
    var all := HistoryTo(r, end);
    assert |all| == |r.scrollback| + end && |HistoryTo(s, y)| == |s.scrollback| + y;
    assert all[..|r.scrollback|] == r.scrollback && all[..|s.scrollback|] == s.scrollback;
  }

  /** Lines of narrow glyphs that the screen has room for below the viewport scroll nothing away: the viewport
      moves by exactly their rows. */
  lemma NothingPushed(s: Screen, v: View, lines: seq<Line>, history: seq<Row>)
    requires Synced(s, v, history) && !IsEmpty(v.area) && v.area.y > 0 && lines != [] && InsertOk(s, v.area, lines)
    requires forall line :: line in lines ==> Narrow(line.spans)
    requires RowCount(lines, s.width) <= FreeBelow(s, v.area) && RowCount(lines, s.width) < 0x10000
    ensures var r, w := ExecAll(s, HistoryOps(v, SizeOf(s), lines)), WithHistory(v, SizeOf(s), lines);
      r.scrollback == s.scrollback && w.area.y == v.area.y + RowCount(lines, s.width)
  {
    var n := RoomLeft(WithHistory(v, SizeOf(s), lines).area.y, v.area.y);
    AreaAfter(s, v, lines);
    AmountIs(s, v.area, RowCount(lines, s.width));
    ScrollbackGrows(s, v, lines, history);
    NarrowCounted(lines, s.width, n);
  }

  /** The rows counted as history on the screen: those before and the new ones, as far as they lie above the
      viewport. */
  lemma RowsNoted(s: Screen, v: View, lines: seq<Line>)
    requires OnScreen(s, v.area) && lines != [] && v.visible <= v.area.y && |s.rows| < 0x10000
    requires RowCount(lines, s.width) < 0x10000
    ensures var w := WithHistory(v, SizeOf(s), lines);
      w.area.y > 0 ==> w.visible == Min(v.visible + RowCount(lines, s.width), w.area.y)
  {
    AreaAfter(s, v, lines);
    AmountIs(s, Lowered(v.area, SizeOf(s)), RowCount(lines, s.width));
    CountPositive(lines, s.width);
  }

  lemma CountPositive(lines: seq<Line>, width: nat)
    requires lines != []
    ensures RowCount(lines, width) > 0
  {
    var w, columns := Max(width, 1), Max(SpansWidth(lines[0].spans), 1);
    assert columns + w - 1 >= w;
    AtLeastOne(columns + w - 1, w);
  }

  lemma AtLeastOne(n: nat, w: nat)
    requires 0 < w <= n
    ensures n / w >= 1
  {
  }

  // ---------- the cursor ----------

  /** An insertion leaves the cursor where the program remembers it, if it writes anything. */
  lemma CursorRestored(s: Screen, v: View, lines: seq<Line>)
    requires OnScreen(s, v.area) && lines != [] && v.cursor.x < s.width && v.cursor.y < |s.rows|
    requires WithHistory(v, SizeOf(s), lines).area.y > 0
    ensures var r := ExecAll(s, HistoryOps(v, SizeOf(s), lines));
      r.x == v.cursor.x && r.y == v.cursor.y && WithHistory(v, SizeOf(s), lines).cursor == v.cursor
  {
    var low, rows := Lowered(v.area, SizeOf(s)), RowCount(lines, s.width);
    var made, top := ExecAll(s, RoomOps(low, SizeOf(s), rows)), Moved(low, SizeOf(s), rows).y;
    InsertionSplits(s, low, lines, v.cursor, rows, made, top);
    CursorPutBack(made, top, Less1(low.y), lines, v.cursor);
  }

  lemma CursorPutBack(s: Screen, top: nat, cursorTop: nat, lines: seq<Line>, cursor: Position)
    requires ScreenOk(s) && cursor.x < s.width && cursor.y < |s.rows|
    ensures var r := ExecAll(s, RegionOps(top, cursorTop, lines, s.width, cursor));
      r.x == cursor.x && r.y == cursor.y
  {
    var done := ExecAll(ExecAll(s, [SetScrollRegion(1, top), MoveTo(0, cursorTop)]), LinesOps(lines, s.width));
    RegionRuns(s, top, cursorTop, lines, cursor);
    ExecTwo(done, ResetScrollRegion, MoveTo(cursor.x, cursor.y));
  }

  /** Without a wish of the frame the program takes the place of the last glyph it put for the cursor's. */
  lemma {:induction false} LastPutIs(cs: seq<DrawCommand>, default: Position)
    ensures (forall i :: 0 <= i < |cs| ==> !cs[i].Put?) ==> LastPut(cs, default) == default
    ensures forall i :: 0 <= i < |cs| && cs[i].Put? && (forall j :: i < j < |cs| ==> !cs[j].Put?) ==>
      LastPut(cs, default) == Position(cs[i].x, cs[i].y)
    decreases |cs|
  {
    if cs != [] && !cs[|cs| - 1].Put? {
      var front := cs[..|cs| - 1];
      LastPutIs(front, default);
      forall i | 0 <= i < |cs| && cs[i].Put? && (forall j :: i < j < |cs| ==> !cs[j].Put?)
        ensures LastPut(cs, default) == Position(cs[i].x, cs[i].y)
      {
        assert front[i] == cs[i] && forall j :: i < j < |front| ==> front[j] == cs[j];
      }
    }
  }
}
