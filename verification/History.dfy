/** Inserting lines above the viewport with scroll regions, so that the terminal's own scrollback
    holds the history. */
module History {
  import opened Wrappers
  import opened Screen
  import opened Diff
  import opened Draw

  datatype Style = Style(fg: Option<Color>, bg: Option<Color>, add: Modifier, sub: Modifier)
  {
    /** This style with another laid over it. */
    function Patch(over: Style): Style {
      Style(over.fg.Or(fg), over.bg.Or(bg), (add - over.sub) + over.add, (sub - over.add) + over.sub)
    }
  }

  datatype Span = Span(content: seq<Symbol>, style: Style)

  /** A line after word wrapping. */
  datatype Line = Line(spans: seq<Span>, style: Style)

  datatype Size = Size(width: nat, height: nat)

  datatype Position = Position(x: nat, y: nat)

  function ContentWidth(content: seq<Symbol>): nat {
    if content == [] then 0 else content[0].width + ContentWidth(content[1..])
  }

  function SpansWidth(spans: seq<Span>): nat {
    if spans == [] then 0 else ContentWidth(spans[0].content) + SpansWidth(spans[1..])
  }

  function DivCeil(a: nat, b: nat): nat
    requires b > 0
  {
    (a + b - 1) / b
  }

  function PhysicalRows(line: Line, wrapWidth: nat): nat
    requires wrapWidth > 0
  {
    DivCeil(Max(SpansWidth(line.spans), 1), wrapWidth)
  }

  function TotalRows(lines: seq<Line>, wrapWidth: nat): nat
    requires wrapWidth > 0
  {
    if lines == [] then 0 else PhysicalRows(lines[0], wrapWidth) + TotalRows(lines[1..], wrapWidth)
  }

  // ---------- one line ----------

  function Sanitized(content: seq<Symbol>): seq<Symbol> {
    if content == [] then []
    else (if content[0].text == "\r" then [] else [content[0]]) + Sanitized(content[1..])
  }

  function PrintOps(content: seq<Symbol>): seq<Op> {
    if content == [] then [] else [Print(content[0])] + PrintOps(content[1..])
  }

  /** A span's style as the pen sees it, carried by a blank cell. */
  function PenCell(style: Style): Cell {
    Cell(BLANK, style.fg.GetOr(Reset), style.bg.GetOr(Reset), style.add - style.sub, false)
  }

  function PenAfter(t: Tracked, cell: Cell): Tracked { Tracked(cell.fg, cell.bg, cell.modifier, t.last) }

  /** The spans with the line's style laid over them, from the tracked pen t on. */
  function SpansOps(t: Tracked, spans: seq<Span>, over: Style): seq<Op>
    decreases |spans|
  {
    if spans == [] then FINISH
    else
      var cell := PenCell(spans[0].style.Patch(over));
      PenOps(t, cell) + PrintOps(Sanitized(spans[0].content)) + SpansOps(PenAfter(t, cell), spans[1..], over)
  }

  /** Makes room for the further rows of a line that is wider than the viewport. */
  function BlankRowsBelow(count: nat): seq<Op> {
    if count == 0 then [] else [MoveDown(1), MoveToColumn(0), ClearToEndOfLine] + BlankRowsBelow(count - 1)
  }

  function ExtraRowOps(rows: nat): seq<Op> {
    if rows > 1 then [SavePosition] + BlankRowsBelow(rows - 1) + [RestorePosition] else []
  }

  function LineStart(line: Line, wrapWidth: nat): seq<Op>
    requires wrapWidth > 0
  {
    [CarriageReturn, LineFeed] + ExtraRowOps(PhysicalRows(line, wrapWidth))
    + [SetColors(line.style.fg.GetOr(Reset), line.style.bg.GetOr(Reset)), ClearToEndOfLine]
  }

  function LineOps(line: Line, wrapWidth: nat): seq<Op>
    requires wrapWidth > 0
  {
    LineStart(line, wrapWidth) + SpansOps(UNTOUCHED, line.spans, line.style)
  }

  function LinesOps(lines: seq<Line>, wrapWidth: nat): seq<Op>
    requires wrapWidth > 0
  {
    if lines == [] then [] else LineOps(lines[0], wrapWidth) + LinesOps(lines[1..], wrapWidth)
  }

  // ---------- the insertion ----------

  function Bottom(area: Rect): nat { area.y + area.height }

  /** The viewport gives up its first row when it reaches the top of the screen. */
  function Lowered(area: Rect, size: Size): Rect {
    if area.y == 0 && size.height > 1 && area.height > 1
    then area.(y := 1, height := Max(Less1(area.height), 1)) else area
  }

  /** How far the viewport moves down; the number of rows is kept in sixteen bits. */
  function ScrollAmount(area: Rect, size: Size, rows: nat): nat {
    if Bottom(area) < size.height then Min(rows % 0x10000, size.height - Bottom(area)) else 0
  }

  function Repeated(op: Op, count: nat): seq<Op> {
    if count == 0 then [] else [op] + Repeated(op, count - 1)
  }

  function RoomOps(area: Rect, size: Size, rows: nat): seq<Op> {
    if Bottom(area) < size.height then
      [SetScrollRegion(area.y + 1, size.height), MoveTo(0, area.y)]
      + Repeated(ReverseIndex, ScrollAmount(area, size, rows)) + [ResetScrollRegion]
    else []
  }

  function Moved(area: Rect, size: Size, rows: nat): Rect {
    area.(y := area.y + ScrollAmount(area, size, rows))
  }

  function RegionOps(top: nat, cursorTop: nat, lines: seq<Line>, wrapWidth: nat, cursor: Position): seq<Op>
    requires wrapWidth > 0
  {
    [SetScrollRegion(1, top), MoveTo(0, cursorTop)] + LinesOps(lines, wrapWidth)
    + [ResetScrollRegion, MoveTo(cursor.x, cursor.y)]
  }

  /** Everything queued for an insertion; `area` is the viewport once lowered. */
  function InsertOps(area: Rect, size: Size, lines: seq<Line>, cursor: Position): seq<Op> {
    var wrapWidth := Max(area.width, 1);
    var rows := TotalRows(lines, wrapWidth);
    var top := Moved(area, size, rows).y;
    RoomOps(area, size, rows)
    + (if top == 0 then [] else RegionOps(top, Less1(area.y), lines, wrapWidth, cursor))
  }

  // ---------- the loops ----------

  method QueuePrint(w: Writer, content: seq<Symbol>)
    modifies w
    ensures w.queued == old(w.queued) + PrintOps(content)
  {
    var i := 0;
    while i < |content|
      invariant 0 <= i <= |content|
      invariant w.queued + PrintOps(content[i..]) == old(w.queued) + PrintOps(content)
    {
      Assoc(w.queued, [Print(content[i])], PrintOps(content[i+1..]));
      assert content[i..][1..] == content[i+1..];
      w.Queue(Print(content[i]));
      i := i + 1;
    }
  }

  /** Carriage returns are dropped, so that pasted text cannot move the cursor. */
  method Sanitize(content: seq<Symbol>) returns (kept: seq<Symbol>)
    ensures kept == Sanitized(content)
  {
    kept := [];
    var i := 0;
    while i < |content|
      invariant 0 <= i <= |content|
      invariant kept + Sanitized(content[i..]) == Sanitized(content)
    {
      var piece := if content[i].text == "\r" then [] else [content[i]];
      Assoc(kept, piece, Sanitized(content[i+1..]));
      assert content[i..][1..] == content[i+1..];
      kept := kept + piece;
      i := i + 1;
    }
  }

  method WriteSpans(w: Writer, spans: seq<Span>, over: Style)
    modifies w
    ensures w.queued == old(w.queued) + SpansOps(UNTOUCHED, spans, over)
  {
    var t := UNTOUCHED;
    var i := 0;
    while i < |spans|
      invariant 0 <= i <= |spans|
      invariant w.queued + SpansOps(t, spans[i..], over) == old(w.queued) + SpansOps(UNTOUCHED, spans, over)
    {
      t := WriteSpan(w, t, spans[i], over, spans[i..]);
      assert spans[i..][1..] == spans[i+1..];
      i := i + 1;
    }
    w.Queue(SetForeground(Reset));
    w.Queue(SetBackground(Reset));
    w.Queue(SetAttribute(SgrReset));
  }

  method WriteSpan(w: Writer, t: Tracked, span: Span, over: Style, ghost rest: seq<Span>) returns (t': Tracked)
    requires rest != [] && span == rest[0]
    modifies w
    ensures w.queued + SpansOps(t', rest[1..], over) == old(w.queued) + SpansOps(t, rest, over)
  {
    var cell := PenCell(span.style.Patch(over));
    QueuePen(w, t, cell);
    var content := Sanitize(span.content);
    QueuePrint(w, content);
    t' := Tracked(cell.fg, cell.bg, cell.modifier, t.last);
    ghost var pens, prints, others := PenOps(t, cell), PrintOps(content), SpansOps(t', rest[1..], over);
    Assoc(old(w.queued), pens, prints);
    Assoc(old(w.queued), pens + prints, others);
  }

  method QueueBlankRows(w: Writer, count: nat)
    modifies w
    ensures w.queued == old(w.queued) + BlankRowsBelow(count)
  {
    var i := count;
    while i > 0
      invariant 0 <= i <= count
      invariant w.queued + BlankRowsBelow(i) == old(w.queued) + BlankRowsBelow(count)
    {
      Assoc(w.queued, [MoveDown(1), MoveToColumn(0), ClearToEndOfLine], BlankRowsBelow(i - 1));
      w.Queue(MoveDown(1));
      w.Queue(MoveToColumn(0));
      w.Queue(ClearToEndOfLine);
      i := i - 1;
    }
  }

  method QueueExtraRows(w: Writer, rows: nat)
    modifies w
    ensures w.queued == old(w.queued) + ExtraRowOps(rows)
  {
    if rows > 1 {
      w.Queue(SavePosition);
      QueueBlankRows(w, rows - 1);
      Assoc(old(w.queued), [SavePosition], BlankRowsBelow(rows - 1));
      w.Queue(RestorePosition);
      Assoc(old(w.queued), [SavePosition] + BlankRowsBelow(rows - 1), [RestorePosition]);
    }
  }

  method WriteLine(w: Writer, line: Line, wrapWidth: nat)
    requires wrapWidth > 0
    modifies w
    ensures w.queued == old(w.queued) + LineOps(line, wrapWidth)
  {
    w.Queue(CarriageReturn);
    w.Queue(LineFeed);
    QueueExtraRows(w, PhysicalRows(line, wrapWidth));
    w.Queue(SetColors(line.style.fg.GetOr(Reset), line.style.bg.GetOr(Reset)));
    w.Queue(ClearToEndOfLine);
    assert w.queued == old(w.queued) + LineStart(line, wrapWidth);
    Assoc(old(w.queued), LineStart(line, wrapWidth), SpansOps(UNTOUCHED, line.spans, line.style));
    WriteSpans(w, line.spans, line.style);
  }

  method WriteLines(w: Writer, lines: seq<Line>, wrapWidth: nat)
    requires wrapWidth > 0
    modifies w
    ensures w.queued == old(w.queued) + LinesOps(lines, wrapWidth)
  {
    var i := 0;
    while i < |lines|
      invariant 0 <= i <= |lines|
      invariant w.queued + LinesOps(lines[i..], wrapWidth) == old(w.queued) + LinesOps(lines, wrapWidth)
    {
      Assoc(w.queued, LineOps(lines[i], wrapWidth), LinesOps(lines[i+1..], wrapWidth));
      assert lines[i..][1..] == lines[i+1..];
      WriteLine(w, lines[i], wrapWidth);
      i := i + 1;
    }
  }

  method QueueRepeated(w: Writer, op: Op, count: nat)
    modifies w
    ensures w.queued == old(w.queued) + Repeated(op, count)
  {
    var i := count;
    while i > 0
      invariant 0 <= i <= count
      invariant w.queued + Repeated(op, i) == old(w.queued) + Repeated(op, count)
    {
      Assoc(w.queued, [op], Repeated(op, i - 1));
      w.Queue(op);
      i := i - 1;
    }
  }

  method QueueRoom(w: Writer, area: Rect, size: Size, rows: nat)
    modifies w
    ensures w.queued == old(w.queued) + RoomOps(area, size, rows)
  {
    if Bottom(area) < size.height {
      w.Queue(SetScrollRegion(area.y + 1, size.height));
      w.Queue(MoveTo(0, area.y));
      QueueRepeated(w, ReverseIndex, ScrollAmount(area, size, rows));
      w.Queue(ResetScrollRegion);
    }
  }

  method QueueRegion(w: Writer, top: nat, cursorTop: nat, lines: seq<Line>, wrapWidth: nat, cursor: Position)
    requires wrapWidth > 0
    modifies w
    ensures w.queued == old(w.queued) + RegionOps(top, cursorTop, lines, wrapWidth, cursor)
  {
    w.Queue(SetScrollRegion(1, top));
    w.Queue(MoveTo(0, cursorTop));
    ghost var setup := [SetScrollRegion(1, top), MoveTo(0, cursorTop)];
    assert w.queued == old(w.queued) + setup;
    WriteLines(w, lines, wrapWidth);
    Assoc(old(w.queued), setup, LinesOps(lines, wrapWidth));
    w.Queue(ResetScrollRegion);
    w.Queue(MoveTo(cursor.x, cursor.y));
    Assoc(old(w.queued), setup + LinesOps(lines, wrapWidth), [ResetScrollRegion, MoveTo(cursor.x, cursor.y)]);
  }
}
