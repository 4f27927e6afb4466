/** The terminal object: two buffers, the viewport area, and the operations of one redraw. */
module CustomTerminal {
  import opened Wrappers
  import opened Screen
  import opened Diff
  import opened Draw
  import opened History

  /** What the object knows: the viewport, the buffer drawn last, the cursor, the history rows. */
  datatype View = View(area: Rect, shown: Buffer, cursor: Position, visible: nat)

  function Emptied(b: Buffer): Buffer { Buffer(b.area, seq(|b.content|, _ => EMPTY_CELL)) }

  /** Resizing keeps a prefix of the cells and fills up with empty ones. */
  function Resized(b: Buffer, area: Rect): (r: Buffer)
    ensures BufferOk(r) && r.area == area
  {
    var size := RowStart(area.width, area.height);
    Buffer(area, if |b.content| >= size then b.content[..size]
                 else b.content + seq(size - |b.content|, _ => EMPTY_CELL))
  }

  function WithArea(v: View, area: Rect): View {
    View(area, Resized(v.shown, area), v.cursor, Min(v.visible, area.y))
  }

  predicate IsEmpty(area: Rect) { area.width == 0 || area.height == 0 }

  function ClearOps(v: View): seq<Op> {
    if IsEmpty(v.area) then [] else [MoveTo(v.area.x, v.area.y), ClearToEndOfScreen]
  }

  function Cleared(v: View): View {
    if IsEmpty(v.area) then v else v.(shown := Emptied(v.shown))
  }

  // ---------- the viewport of a redraw ----------

  /** The viewport for a requested height: as wide as the screen, pushed up if it would not fit. */
  function WantedArea(v: View, size: Size, height: nat): Rect {
    var h := if size.height == 0 then 0 else Min(height, size.height);
    Rect(v.area.x, if v.area.y + h > size.height then size.height - h else v.area.y, size.width, h)
  }

  /** The rows above the viewport scroll up to make room for a taller one. */
  function ScrollUpOps(v: View, size: Size, height: nat): seq<Op> {
    var bottom := v.area.y + WantedArea(v, size, height).height;
    if bottom > size.height then
      [SetScrollRegion(1, Less1(v.area.y) + 1), ScrollUp(bottom - size.height), ResetScrollRegion]
    else []
  }

  function FitOps(v: View, size: Size, height: nat): seq<Op> {
    ScrollUpOps(v, size, height) + (if WantedArea(v, size, height) != v.area then ClearOps(v) else [])
  }

  function Fitted(v: View, size: Size, height: nat): View {
    var area := WantedArea(v, size, height);
    if area != v.area then WithArea(Cleared(v), area) else v
  }

  // ---------- history ----------

  predicate Ignored(size: Size, lines: seq<Line>) { size.height == 0 || size.width == 0 || lines == [] }

  function LoweredView(v: View, size: Size): View {
    if Lowered(v.area, size) != v.area then WithArea(v, Lowered(v.area, size)) else v
  }

  function HistoryOps(v: View, size: Size, lines: seq<Line>): seq<Op> {
    if Ignored(size, lines) then [] else InsertOps(Lowered(v.area, size), size, lines, v.cursor)
  }

  function Noted(v: View, rows: nat): View {
    if rows > 0 then v.(visible := Min(Min(v.visible + rows, 0xFFFF), v.area.y)) else v
  }

  function WithHistory(v: View, size: Size, lines: seq<Line>): View {
    if Ignored(size, lines) then v
    else
      var low := LoweredView(v, size);
      var rows := TotalRows(lines, Max(v.area.width, 1));
      var area := Moved(low.area, size, rows);
      if area.y == 0 then low else AfterInsertion(low, size, rows)
  }

  function AfterInsertion(v: View, size: Size, rows: nat): View {
    Noted(if Bottom(v.area) < size.height then WithArea(v, Moved(v.area, size, rows)) else v, rows % 0x10000)
  }

  // ---------- the frame ----------

  function Target(v: View, frame: seq<Cell>): Buffer { Buffer(v.area, frame) }

  predicate FrameFits(v: View, frame: seq<Cell>) {
    BufferOk(v.shown) && v.shown.area == v.area && |frame| == |v.shown.content|
  }

  function LastPut(cs: seq<DrawCommand>, default: Position): Position {
    if cs == [] then default
    else if cs[|cs|-1].Put? then Position(cs[|cs|-1].x, cs[|cs|-1].y)
    else LastPut(cs[..|cs|-1], default)
  }

  function CursorOps(cursor: Option<Position>): seq<Op> {
    if cursor.Some? then [MoveTo(cursor.value.x, cursor.value.y)] else []
  }

  function FrameOps(v: View, frame: seq<Cell>, cursor: Option<Position>): seq<Op>
    requires FrameFits(v, frame)
  {
    DrawOps(UNTOUCHED, DiffCommands(v.shown, Target(v, frame))) + CursorOps(cursor)
  }

  function Framed(v: View, frame: seq<Cell>, cursor: Option<Position>): View
    requires FrameFits(v, frame)
  {
    View(v.area, Target(v, frame),
         cursor.GetOr(LastPut(DiffCommands(v.shown, Target(v, frame)), v.cursor)), v.visible)
  }

  // ---------- one redraw ----------

  function Prepared(v: View, size: Size, height: nat, lines: seq<Line>): View {
    WithHistory(Fitted(v, size, height), size, lines)
  }

  function RedrawOps(v: View, size: Size, height: nat, lines: seq<Line>, frame: seq<Cell>, cursor: Option<Position>)
    : seq<Op>
    requires FrameFits(Prepared(v, size, height, lines), frame)
  {
    (FitOps(v, size, height) + HistoryOps(Fitted(v, size, height), size, lines))
    + FrameOps(Prepared(v, size, height, lines), frame, cursor)
  }

  function Redrawn(v: View, size: Size, height: nat, lines: seq<Line>, frame: seq<Cell>, cursor: Option<Position>): View
    requires FrameFits(Prepared(v, size, height, lines), frame)
  {
    Framed(Prepared(v, size, height, lines), frame, cursor)
  }

  // ---------- the object ----------

  class Terminal {
    const backend: Writer
    var buffers: seq<Buffer>
    var current: nat
    var hiddenCursor: bool
    var viewportArea: Rect
    var lastKnownCursorPos: Position
    var visibleHistoryRows: nat

    /** Both buffers cover the viewport, and no more history rows are counted than lie above it. */
    ghost predicate Valid()
      reads this
    {
      && |buffers| == 2 && current < 2 && BufferOk(buffers[0]) && BufferOk(buffers[1])
      && buffers[0].area == buffers[1].area == viewportArea
      && visibleHistoryRows <= viewportArea.y
    }

    ghost function Model(): View
      requires Valid()
      reads this
    {
      View(viewportArea, buffers[1 - current], lastKnownCursorPos, visibleHistoryRows)
    }

    /** An inline viewport starts empty, on the cursor's row. */
    constructor (backend: Writer, cursor: Position)
      ensures Valid() && this.backend == backend
      ensures Model() == View(Rect(0, cursor.y, 0, 0), Buffer(Rect(0, cursor.y, 0, 0), []), cursor, 0)
    {
      this.backend := backend;
      viewportArea := Rect(0, cursor.y, 0, 0);
      buffers := [Buffer(Rect(0, cursor.y, 0, 0), []), Buffer(Rect(0, cursor.y, 0, 0), [])];
      current, hiddenCursor, lastKnownCursorPos, visibleHistoryRows := 0, false, cursor, 0;
    }

    method SetViewportArea(area: Rect)
      requires Valid()
      modifies this
      ensures Valid() && Model() == WithArea(old(Model()), area)
    {
      buffers := [Resized(buffers[0], area), Resized(buffers[1], area)];
      viewportArea := area;
      visibleHistoryRows := Min(visibleHistoryRows, area.y);
    }

    /** Clears the screen from the viewport on and forgets what was drawn. */
    method Clear()
      requires Valid()
      modifies this, backend
      ensures Valid() && Model() == Cleared(old(Model()))
      ensures backend.queued == old(backend.queued) + ClearOps(old(Model()))
    {
      if viewportArea.width == 0 || viewportArea.height == 0 {
        return;
      }
      backend.Queue(MoveTo(viewportArea.x, viewportArea.y));
      backend.Queue(ClearToEndOfScreen);
      var previous := 1 - current;
      buffers := buffers[previous := Emptied(buffers[previous])];
    }

    method NoteHistoryRowsInserted(rows: nat)
      requires Valid()
      modifies this`visibleHistoryRows
      ensures Valid() && Model() ==
        old(Model()).(visible := Min(Min(old(Model()).visible + rows, 0xFFFF), viewportArea.y))
    {
      visibleHistoryRows := Min(Min(visibleHistoryRows + rows, 0xFFFF), viewportArea.y);
    }

    /** The buffer just drawn becomes the previous one; the other is emptied for the next frame. */
    method SwapBuffers()
      requires Valid()
      modifies this`buffers, this`current
      ensures Valid() && Model() == old(Model()).(shown := old(buffers[current]))
      ensures buffers[current] == Emptied(old(Model()).shown)
    {
      var previous := 1 - current;
      buffers := buffers[previous := Emptied(buffers[previous])];
      current := 1 - current;
    }

    /** Queues the difference between the two buffers. */
    method Flush()
      requires Valid()
      modifies this`lastKnownCursorPos, backend
      ensures Valid() && buffers == old(buffers)
      ensures backend.queued == old(backend.queued)
           + DrawOps(UNTOUCHED, DiffCommands(old(Model()).shown, buffers[current]))
      ensures Model() == old(Model()).(cursor :=
        LastPut(DiffCommands(old(Model()).shown, buffers[current]), old(lastKnownCursorPos)))
    {
      var updates := DiffBuffers(buffers[1 - current], buffers[current]);
      var i := |updates|;
      assert updates[..i] == updates;
      while i > 0 && !updates[i-1].Put?
        invariant 0 <= i <= |updates|
        invariant LastPut(updates[..i], lastKnownCursorPos) == LastPut(updates, lastKnownCursorPos)
      {
        assert updates[..i][..i-1] == updates[..i-1];
        i := i - 1;
      }
      if i > 0 {
        lastKnownCursorPos := Position(updates[i-1].x, updates[i-1].y);
      }
      DrawAll(backend, updates);
    }

    /** One frame: `frame` is what the render callback leaves in the current buffer, `cursor` where
        it wants the cursor. */
    method TryDraw(frame: seq<Cell>, cursor: Option<Position>)
      requires Valid() && FrameFits(Model(), frame)
      modifies this, backend
      ensures Valid() && Model() == Framed(old(Model()), frame, cursor)
      ensures backend.queued == old(backend.queued) + FrameOps(old(Model()), frame, cursor)
      ensures hiddenCursor == cursor.None?
    {
      buffers := buffers[current := Buffer(viewportArea, frame)];
      Flush();
      match cursor {
        case None =>
          hiddenCursor := true;
        case Some(position) =>
          hiddenCursor := false;
          backend.Queue(MoveTo(position.x, position.y));
          lastKnownCursorPos := position;
      }
      SwapBuffers();
    }

    /** A viewport at the top of the screen gives up its first row. */
    method LowerViewport(size: Size)
      requires Valid()
      modifies this
      ensures Valid() && Model() == LoweredView(old(Model()), size)
    {
      var area := viewportArea;
      if area.y == 0 && size.height > 1 && area.height > 1 {
        SetViewportArea(Rect(area.x, 1, area.width, Max(Less1(area.height), 1)));
      }
    }

    /** The viewport after an insertion, and the count of history rows on the screen. */
    method FinishInsertion(size: Size, rows: nat)
      requires Valid()
      modifies this
      ensures Valid() && Model() == AfterInsertion(old(Model()), size, rows)
    {
      var bottom := viewportArea.y + viewportArea.height;
      if bottom < size.height {
        SetViewportArea(Moved(viewportArea, size, rows));
      }
      if rows % 0x10000 > 0 {
        NoteHistoryRowsInserted(rows % 0x10000);
      }
    }

    /** Inserts wrapped lines above the viewport. */
    method InsertHistoryLines(size: Size, lines: seq<Line>)
      requires Valid()
      modifies this, backend
      ensures Valid() && Model() == WithHistory(old(Model()), size, lines)
      ensures backend.queued == old(backend.queued) + HistoryOps(old(Model()), size, lines)
    {
      if size.height == 0 || size.width == 0 || lines == [] {
        return;
      }
      var cursor := lastKnownCursorPos;
      var wrapWidth := Max(viewportArea.width, 1);
      LowerViewport(size);
      var area := viewportArea;
      var rows := CountRows(lines, wrapWidth);
      QueueRoom(backend, area, size, rows);
      var top := Moved(area, size, rows).y;
      if top == 0 {
        return;
      }
      Assoc(old(backend.queued), RoomOps(area, size, rows), RegionOps(top, Less1(area.y), lines, wrapWidth, cursor));
      QueueRegion(backend, top, Less1(area.y), lines, wrapWidth, cursor);
      FinishInsertion(size, rows);
    }
  }

  method CountRows(lines: seq<Line>, wrapWidth: nat) returns (rows: nat)
    requires wrapWidth > 0
    ensures rows == TotalRows(lines, wrapWidth)
  {
    rows := 0;
    var i := 0;
    while i < |lines|
      invariant 0 <= i <= |lines|
      invariant rows + TotalRows(lines[i..], wrapWidth) == TotalRows(lines, wrapWidth)
    {
      assert lines[i..][1..] == lines[i+1..];
      rows := rows + PhysicalRows(lines[i], wrapWidth);
      i := i + 1;
    }
  }

  /** The redraw of the whole interface; history waits in `pendingHistoryLines` for the next one. */
  class Tui {
    const terminal: Terminal
    var pendingHistoryLines: seq<Line>

    constructor (terminal: Terminal)
      ensures this.terminal == terminal && pendingHistoryLines == []
    {
      this.terminal := terminal;
      pendingHistoryLines := [];
    }

    method InsertHistoryLines(lines: seq<Line>)
      modifies this
      ensures pendingHistoryLines == old(pendingHistoryLines) + lines
    {
      pendingHistoryLines := pendingHistoryLines + lines;
    }

    method ScrollAbove(top: nat, amount: nat)
      modifies terminal.backend
      ensures terminal.backend.queued == old(terminal.backend.queued)
           + [SetScrollRegion(1, Less1(top) + 1), ScrollUp(amount), ResetScrollRegion]
    {
      terminal.backend.Queue(SetScrollRegion(1, Less1(top) + 1));
      terminal.backend.Queue(ScrollUp(amount));
      terminal.backend.Queue(ResetScrollRegion);
    }

    method ChangeViewport(area: Rect)
      requires terminal.Valid()
      modifies terminal, terminal.backend
      ensures terminal.Valid()
      ensures terminal.Model() == var v := old(terminal.Model());
        if area != v.area then WithArea(Cleared(v), area) else v
      ensures terminal.backend.queued == old(terminal.backend.queued)
           + (if area != old(terminal.Model()).area then ClearOps(old(terminal.Model())) else [])
    {
      if area != terminal.viewportArea {
        terminal.Clear();
        terminal.SetViewportArea(area);
      }
    }

    /** Gives the viewport the requested height. */
    method FitViewport(size: Size, height: nat)
      requires terminal.Valid()
      modifies terminal, terminal.backend
      ensures terminal.Valid() && terminal.Model() == Fitted(old(terminal.Model()), size, height)
      ensures terminal.backend.queued == old(terminal.backend.queued) + FitOps(old(terminal.Model()), size, height)
    {
      var area := terminal.viewportArea;
      area := area.(height := if size.height == 0 then 0 else Min(height, size.height), width := size.width);
      ghost var start, v := terminal.backend.queued, terminal.Model();
      if area.y + area.height > size.height {
        ScrollAbove(area.y, area.y + area.height - size.height);
        area := area.(y := size.height - area.height);
      }
      assert terminal.backend.queued == start + ScrollUpOps(v, size, height);
      ChangeViewport(area);
      Assoc(start, ScrollUpOps(v, size, height), if area != v.area then ClearOps(v) else []);
    }

    /** One redraw: fit the viewport, insert the pending history, draw the frame. */
    method Draw(size: Size, height: nat, frame: seq<Cell>, cursor: Option<Position>)
      requires terminal.Valid() && FrameFits(Prepared(terminal.Model(), size, height, pendingHistoryLines), frame)
      modifies this, terminal, terminal.backend
      ensures terminal.Valid() && pendingHistoryLines == [] && terminal.hiddenCursor == cursor.None?
      ensures terminal.Model() == Redrawn(old(terminal.Model()), size, height, old(pendingHistoryLines), frame, cursor)
      ensures terminal.backend.queued == old(terminal.backend.queued)
           + RedrawOps(old(terminal.Model()), size, height, old(pendingHistoryLines), frame, cursor)
    {
      ghost var start, v := terminal.backend.queued, terminal.Model();
      ghost var lines := pendingHistoryLines;
      FitViewport(size, height);
      ghost var fit := FitOps(v, size, height);
      if pendingHistoryLines != [] {
        terminal.InsertHistoryLines(size, pendingHistoryLines);
        pendingHistoryLines := [];
      }
      ghost var history := HistoryOps(Fitted(v, size, height), size, lines);
      Assoc(start, fit, history);
      assert terminal.backend.queued == start + (fit + history);
      terminal.TryDraw(frame, cursor);
      Assoc(start, fit + history, FrameOps(Prepared(v, size, height, lines), frame, cursor));
    }
  }
}
