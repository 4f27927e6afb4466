/** Inserting history appends rows: the scrollback followed by the rows above the viewport grows by
    the inserted lines, and the viewport's rows only move. */
module HistoryProofs {
  import opened Wrappers
  import opened Screen
  import opened Diff
  import opened Draw
  import opened DiffProofs
  import opened DrawProofs
  import opened History

  // ---------- the row a line becomes ----------

  datatype Glyph = Glyph(symbol: Symbol, pen: Pen)

  function GlyphCells(g: Glyph): seq<ScreenCell> {
    if g.symbol.width == 2 then [Lead(g.symbol, g.pen), Tail] else [Lead(g.symbol, g.pen)]
  }

  function Cells(glyphs: seq<Glyph>): seq<ScreenCell> {
    if glyphs == [] then [] else GlyphCells(glyphs[0]) + Cells(glyphs[1..])
  }

  function Blanks(count: nat, bg: Color): (r: seq<ScreenCell>)
    ensures |r| == count
  {
    seq(count, _ => BlankCell(bg))
  }

  /** Glyphs from the first column on, the rest of the row blank. */
  function FilledRow(glyphs: seq<Glyph>, width: nat, bg: Color): Row {
    var cells := Cells(glyphs);
    if |cells| <= width then cells + Blanks(width - |cells|, bg) else cells
  }

  function ContentGlyphs(content: seq<Symbol>, pen: Pen): seq<Glyph> {
    if content == [] then [] else [Glyph(content[0], pen)] + ContentGlyphs(content[1..], pen)
  }

  /** The glyphs of a line as they are printed: each in the colours of its span, and in the attributes the
      pen has by then. `attrs` are the pen's, `modifier` is what is tracked. */
  function SpanGlyphs(spans: seq<Span>, over: Style, attrs: Modifier, modifier: Modifier): seq<Glyph>
    decreases |spans|
  {
    if spans == [] then []
    else
      var cell := PenCell(spans[0].style.Patch(over));
      var now := AttrsAfter(attrs, modifier, cell.modifier);
      ContentGlyphs(Sanitized(spans[0].content), Pen(cell.fg, cell.bg, now))
      + SpanGlyphs(spans[1..], over, now, cell.modifier)
  }

  /** The glyphs as they are meant: each in the pen of its span with the line's style laid over it. */
  function MeantGlyphs(spans: seq<Span>, over: Style): seq<Glyph> {
    if spans == [] then []
    else
      ContentGlyphs(Sanitized(spans[0].content), CellPen(PenCell(spans[0].style.Patch(over))))
        + MeantGlyphs(spans[1..], over)
  }

  // ---------- what is asked of a line ----------

  predicate ContentOk(content: seq<Symbol>, width: nat) {
    forall g :: g in content ==> 1 <= g.width <= 2 && g.width <= width
  }

  predicate SpansOk(spans: seq<Span>, width: nat) {
    spans == [] || (ContentOk(spans[0].content, width) && SpansOk(spans[1..], width))
  }

  /** Glyphs of one or two columns, none wider than the screen. */
  predicate LineOk(line: Line, width: nat) { SpansOk(line.spans, width) }

  predicate LinesOk(lines: seq<Line>, width: nat) {
    forall line :: line in lines ==> LineOk(line, width)
  }

  // ---------- rows of glyphs ----------

  lemma {:induction false} CellsAppend(a: seq<Glyph>, b: seq<Glyph>)
    ensures Cells(a + b) == Cells(a) + Cells(b)
  {
    if a == [] {
      assert a + b == b;
    } else {
      assert (a + b)[1..] == a[1..] + b;
      CellsAppend(a[1..], b);
    }
  }

  /** A glyph printed right after the glyphs of a row extends them. */
  lemma WriteExtends(glyphs: seq<Glyph>, g: Glyph, width: nat, bg: Color)
    requires 1 <= g.symbol.width <= 2 && |Cells(glyphs)| + g.symbol.width <= width
    ensures WriteGlyph(FilledRow(glyphs, width, bg), |Cells(glyphs)|, g.symbol, g.pen)
         == FilledRow(glyphs + [g], width, bg)
    ensures |Cells(glyphs + [g])| == |Cells(glyphs)| + g.symbol.width
  {
    CellsAppend(glyphs, [g]);
    assert Cells([g]) == GlyphCells(g);
    WriteAfter(FilledRow(glyphs, width, bg), FilledRow(glyphs + [g], width, bg), Cells(glyphs), g, width, bg);
  }

  lemma WriteAfter(before: Row, after: Row, cells: seq<ScreenCell>, g: Glyph, width: nat, bg: Color)
    requires 1 <= g.symbol.width <= 2 && |cells| + g.symbol.width <= width
    requires before == cells + Blanks(width - |cells|, bg)
    requires after == (cells + GlyphCells(g)) + Blanks(width - |cells + GlyphCells(g)|, bg)
    ensures WriteGlyph(before, |cells|, g.symbol, g.pen) == after
  {
    assert forall j :: |cells| <= j < width ==> before[j] == BlankCell(bg);
  }

  // ---------- the rows a line takes ----------

  /** The rows a line has filled, the glyphs of the one it is on, what that row was blank in, and the blank
      rows there are below it. */
  datatype Laid = Laid(done: seq<Row>, glyphs: seq<Glyph>, bg: Color, room: nat)

  /** A glyph that does not fit goes to the next row, which was blank, or has come up from below in the
      colour of that glyph. */
  function Lay(l: Laid, g: Glyph, width: nat): Laid {
    if |Cells(l.glyphs)| + g.symbol.width <= width then l.(glyphs := l.glyphs + [g])
    else
      Laid(l.done + [FilledRow(l.glyphs, width, l.bg)], [g], if l.room > 0 then Reset else g.pen.bg, Less1(l.room))
  }

  function LayAll(l: Laid, glyphs: seq<Glyph>, width: nat): Laid
    decreases |glyphs|
  {
    if glyphs == [] then l else LayAll(Lay(l, glyphs[0], width), glyphs[1..], width)
  }

  function LineLaid(line: Line, width: nat, room: nat): Laid {
    LayAll(Laid([], [], line.style.bg.GetOr(Reset), room), SpanGlyphs(line.spans, line.style, {}, {}), width)
  }

  function Closed(l: Laid, width: nat): (rows: seq<Row>)
    ensures |rows| == |l.done| + 1
  {
    l.done + [FilledRow(l.glyphs, width, l.bg)]
  }

  /** The rows of a line that starts below the cursor, where `room` rows are blank. */
  function Rendered(line: Line, width: nat, room: nat): seq<Row> {
    Closed(LineLaid(line, width, Less1(room)), width)
  }

  function RoomLeft(room: nat, rows: nat): nat { if rows <= room then room - rows else 0 }

  function RenderedAll(lines: seq<Line>, width: nat, room: nat): seq<Row> {
    if lines == [] then []
    else
      var first := Rendered(lines[0], width, room);
      first + RenderedAll(lines[1..], width, RoomLeft(room, |first|))
  }

  predicate GlyphOk(g: Glyph, width: nat) { 1 <= g.symbol.width <= 2 && g.symbol.width <= width }

  lemma {:induction false} LayAllAppend(l: Laid, a: seq<Glyph>, b: seq<Glyph>, width: nat)
    ensures LayAll(l, a + b, width) == LayAll(LayAll(l, a, width), b, width)
    decreases |a|
  {
    if a == [] {
      assert a + b == b;
    } else {
      assert (a + b)[1..] == a[1..] + b;
      LayAllAppend(Lay(l, a[0], width), a[1..], b, width);
    }
  }

  /** Glyphs that fit stay on their row. */
  lemma {:induction false} LaidWhole(l: Laid, glyphs: seq<Glyph>, width: nat)
    requires |Cells(l.glyphs + glyphs)| <= width
    requires forall g :: g in glyphs ==> GlyphOk(g, width)
    ensures LayAll(l, glyphs, width) == l.(glyphs := l.glyphs + glyphs)
    decreases |glyphs|
  {
    if glyphs == [] {
      assert l.glyphs + [] == l.glyphs;
    } else {
      var first, rest := [glyphs[0]], glyphs[1..];
      assert glyphs[0] in glyphs;
      assert first + rest == glyphs && Cells(first) == GlyphCells(glyphs[0]) + Cells([]);
      Assoc(l.glyphs, first, rest);
      CellsAppend(l.glyphs + first, rest);
      CellsAppend(l.glyphs, first);
      LaidWhole(l.(glyphs := l.glyphs + first), rest, width);
    }
  }

  // ---------- the history ----------

  /** The history above the cursor: the scrollback and the rows down to the cursor's. */
  function HistoryTo(s: Screen, y: nat): seq<Row>
    requires y <= |s.rows|
  {
    s.scrollback + s.rows[..y]
  }

  /** Rows below the scroll region stay. */
  predicate BelowKept(s: Screen, r: Screen) {
    SameShape(s, r) && r.top == s.top && r.bottom == s.bottom && r.rows[s.bottom+1..] == s.rows[s.bottom+1..]
  }

  lemma IndexAppends(s: Screen)
    requires ScreenOk(s) && s.top == 0 && s.y <= s.bottom
    ensures var r := Index(s);
      && BelowKept(s, r) && r.pen == s.pen && r.y == Min(s.y + 1, s.bottom)
      && HistoryTo(r, r.y) == HistoryTo(s, s.y + 1)
  {
    if s.y == s.bottom {
      assert s.rows[..s.y+1] == [s.rows[0]] + s.rows[1..s.bottom+1];
      assert RegionUp(s).rows[..s.y] == s.rows[1..s.bottom+1];
    }
  }

  // ---------- printing over rows ----------

  /** The rows below the cursor, down to the end of the region, are blank. */
  predicate RestBlank(s: Screen) {
    forall k :: s.y < k <= s.bottom && k < |s.rows| ==> s.rows[k] == BlankRow(s.width, Reset)
  }

  /** From the screen `start` on, a line is being printed as it is laid; `before` is the history above it.
      How far it has got holds in any region, what the rows are only if the region was blank. */
  predicate Laying(start: Screen, s: Screen, before: seq<Row>, l: Laid, clean: bool) {
    && BelowKept(start, s) && s.top == 0 && s.y <= s.bottom && s.x == |Cells(l.glyphs)| && l.room == s.bottom - s.y
    && |HistoryTo(s, s.y)| == |before| + |l.done|
    && (clean ==>
          HistoryTo(s, s.y) == before + l.done && RestBlank(s) && s.rows[s.y] == FilledRow(l.glyphs, s.width, l.bg))
  }

  lemma GlyphStays(start: Screen, s: Screen, before: seq<Row>, l: Laid, clean: bool, symbol: Symbol)
    requires Laying(start, s, before, l, clean) && 1 <= symbol.width <= 2
    requires |Cells(l.glyphs)| + symbol.width <= s.width
    ensures var r := Exec(s, Print(symbol));
      Laying(start, r, before, l.(glyphs := l.glyphs + [Glyph(symbol, s.pen)]), clean) && r.pen == s.pen
  {
    var g, r := Glyph(symbol, s.pen), Exec(s, Print(symbol));
    WriteExtends(l.glyphs, g, s.width, l.bg);
    assert r.rows == s.rows[s.y := r.rows[s.y]];
    assert HistoryTo(r, r.y) == HistoryTo(s, s.y);
  }

  /** The next row, before the glyph that starts it. */
  lemma RowBreaks(start: Screen, s: Screen, before: seq<Row>, l: Laid, clean: bool)
    requires Laying(start, s, before, l, clean)
    ensures var bg := if l.room > 0 then Reset else s.pen.bg;
      var next := Laid(l.done + [FilledRow(l.glyphs, s.width, l.bg)], [], bg, Less1(l.room));
      var r := Index(s.(x := 0));
      Laying(start, r, before, next, clean) && r.pen == s.pen
  {
    var bg := if l.room > 0 then Reset else s.pen.bg;
    var r := Index(s.(x := 0));
    IndexAppends(s.(x := 0));
    assert HistoryTo(s, s.y + 1) == HistoryTo(s, s.y) + [s.rows[s.y]];
    Assoc(before, l.done, [s.rows[s.y]]);
    if clean { NextRowBlank(s, bg); }
  }

  /** The next row is blank, in the colour of the pen if it had to come up from below. */
  lemma NextRowBlank(s: Screen, bg: Color)
    requires ScreenOk(s) && s.y <= s.bottom && RestBlank(s) && bg == if s.y < s.bottom then Reset else s.pen.bg
    ensures var r := Index(s.(x := 0)); RestBlank(r) && r.rows[r.y] == FilledRow([], s.width, bg)
  {
    assert FilledRow([], s.width, bg) == BlankRow(s.width, bg);
  }

  lemma GlyphLays(start: Screen, s: Screen, before: seq<Row>, l: Laid, clean: bool, symbol: Symbol)
    requires Laying(start, s, before, l, clean) && 1 <= symbol.width <= 2 && symbol.width <= s.width
    ensures var r := Exec(s, Print(symbol));
      Laying(start, r, before, Lay(l, Glyph(symbol, s.pen), s.width), clean) && r.pen == s.pen
  {
    if |Cells(l.glyphs)| + symbol.width <= s.width {
      GlyphStays(start, s, before, l, clean, symbol);
    } else {
      var bg := if l.room > 0 then Reset else s.pen.bg;
      var next := Laid(l.done + [FilledRow(l.glyphs, s.width, l.bg)], [], bg, Less1(l.room));
      RowBreaks(start, s, before, l, clean);
      var broken := Index(s.(x := 0));
      assert Exec(s, Print(symbol)) == Exec(broken, Print(symbol));
      GlyphStays(start, broken, before, next, clean, symbol);
      assert [] + [Glyph(symbol, s.pen)] == [Glyph(symbol, s.pen)];
    }
  }

  lemma {:induction false} ContentLays(start: Screen, s: Screen, before: seq<Row>, l: Laid, clean: bool,
                                       content: seq<Symbol>)
    requires Laying(start, s, before, l, clean) && ContentOk(content, s.width)
    ensures var r := ExecAll(s, PrintOps(content));
      Laying(start, r, before, LayAll(l, ContentGlyphs(content, s.pen), s.width), clean) && r.pen == s.pen
    decreases |content|
  {
    if content != [] {
      assert content[0] in content;
      GlyphLays(start, s, before, l, clean, content[0]);
      var next, g := Exec(s, Print(content[0])), Glyph(content[0], s.pen);
      ContentLays(start, next, before, Lay(l, g, s.width), clean, content[1..]);
      assert PrintOps(content)[1..] == PrintOps(content[1..]);
      assert ContentGlyphs(content, s.pen)[1..] == ContentGlyphs(content[1..], s.pen);
    }
  }

  lemma {:induction false} SanitizedOk(content: seq<Symbol>, width: nat)
    requires ContentOk(content, width)
    ensures ContentOk(Sanitized(content), width)
  {
    if content != [] {
      SanitizedOk(content[1..], width);
    }
  }

  /** The tracked colours are the terminal's, or they are still the initial ones while the terminal
      has the line's colours; both give every span its own colours. */
  predicate ColorsTracked(pen: Pen, t: Tracked, over: Style) {
    || (pen.fg == t.fg && pen.bg == t.bg)
    || (t.fg == t.bg == Reset && pen.fg == over.fg.GetOr(Reset) && pen.bg == over.bg.GetOr(Reset))
  }

  lemma SpanLays(start: Screen, s: Screen, before: seq<Row>, l: Laid, clean: bool, t: Tracked, span: Span, over: Style)
    requires Laying(start, s, before, l, clean) && ColorsTracked(s.pen, t, over) && ContentOk(span.content, s.width)
    ensures var cell, content := PenCell(span.style.Patch(over)), Sanitized(span.content);
      var pen := Pen(cell.fg, cell.bg, AttrsAfter(s.pen.attrs, t.modifier, cell.modifier));
      var r := ExecAll(s, PenOps(t, cell) + PrintOps(content));
      Laying(start, r, before, LayAll(l, ContentGlyphs(content, pen), s.width), clean) && r.pen == pen
  {
    var cell, content := PenCell(span.style.Patch(over)), Sanitized(span.content);
    PenSet(s, t, cell);
    SanitizedOk(span.content, s.width);
    var penned := ExecAll(s, PenOps(t, cell));
    ExecAllAppend(s, PenOps(t, cell), PrintOps(content));
    ContentLays(start, penned, before, l, clean, content);
  }

  /** The spans print their glyphs, whatever their styles and however many rows they take, and leave the
      default pen. */
  lemma {:induction false} SpansPrint(start: Screen, s: Screen, before: seq<Row>, l: Laid, clean: bool, t: Tracked,
                                      spans: seq<Span>, over: Style)
    requires Laying(start, s, before, l, clean) && ColorsTracked(s.pen, t, over) && SpansOk(spans, s.width)
    ensures var r := ExecAll(s, SpansOps(t, spans, over));
      && Laying(start, r, before, LayAll(l, SpanGlyphs(spans, over, s.pen.attrs, t.modifier), s.width), clean)
      && r.pen == DEFAULT_PEN
    decreases |spans|
  {
    if spans == [] {
      Finishes(s);
    } else {
      var cell := PenCell(spans[0].style.Patch(over));
      var pen := Pen(cell.fg, cell.bg, AttrsAfter(s.pen.attrs, t.modifier, cell.modifier));
      var first := ContentGlyphs(Sanitized(spans[0].content), pen);
      var here := PenOps(t, cell) + PrintOps(Sanitized(spans[0].content));
      SpanLays(start, s, before, l, clean, t, spans[0], over);
      ExecAllAppend(s, here, SpansOps(PenAfter(t, cell), spans[1..], over));
      SpansPrint(start, ExecAll(s, here), before, LayAll(l, first, s.width), clean, PenAfter(t, cell), spans[1..],
                 over);
      LayAllAppend(l, first, SpanGlyphs(spans[1..], over, pen.attrs, cell.modifier), s.width);
    }
  }

  predicate SpansSafe(modifier: Modifier, spans: seq<Span>, over: Style)
    decreases |spans|
  {
    spans == [] || (
      var next := PenCell(spans[0].style.Patch(over)).modifier;
      SafeStep(modifier, next) && SpansSafe(next, spans[1..], over))
  }

  /** If every span prints something, the glyphs are printed as they are meant exactly if no transition
      between spans is unsafe. */
  lemma {:induction false} SpansMeant(spans: seq<Span>, over: Style, modifier: Modifier)
    requires forall span :: span in spans ==> Sanitized(span.content) != []
    ensures SpanGlyphs(spans, over, modifier, modifier) == MeantGlyphs(spans, over)
      <==> SpansSafe(modifier, spans, over)
    decreases |spans|
  {
    if spans != [] {
      var cell, content := PenCell(spans[0].style.Patch(over)), Sanitized(spans[0].content);
      var now := AttrsAfter(modifier, modifier, cell.modifier);
      assert spans[0] in spans;
      AttrsAfterExact(modifier, cell.modifier);
      var printed, meant := ContentGlyphs(content, Pen(cell.fg, cell.bg, now)), ContentGlyphs(content, CellPen(cell));
      assert printed[0].pen.attrs == now && meant[0].pen.attrs == cell.modifier;
      if SafeStep(modifier, cell.modifier) {
        var others, wanted := SpanGlyphs(spans[1..], over, cell.modifier, cell.modifier), MeantGlyphs(spans[1..], over);
        SpansMeant(spans[1..], over, cell.modifier);
        SameTails(printed, others, wanted);
      } else {
        assert (printed + SpanGlyphs(spans[1..], over, now, cell.modifier))[0]
            != (meant + MeantGlyphs(spans[1..], over))[0];
      }
    }
  }

  lemma SameTails<T>(a: seq<T>, b: seq<T>, c: seq<T>)
    ensures a + b == a + c <==> b == c
  {
    if a + b == a + c { assert b == (a + b)[|a|..] && c == (a + c)[|a|..]; }
  }

  // ---------- one line ----------

  lemma LineFeedAppends(s: Screen, clean: bool)
    requires CanAppend(s) && (clean ==> RestBlank(s))
    ensures var r := ExecAll(s, [CarriageReturn, LineFeed]);
      && BelowKept(s, r) && r.x == 0 && r.pen == s.pen && r.y == Min(s.y + 1, s.bottom)
      && HistoryTo(r, r.y) == HistoryTo(s, s.y + 1) && (clean ==> RestBlank(r))
  {
    ExecTwo(s, CarriageReturn, LineFeed);
    IndexAppends(s.(x := 0));
  }

  /** Clearing rows from the cursor's on, down to the end of the region, in the default colour. */
  predicate BelowCleared(s: Screen, r: Screen) {
    && BelowKept(s, r) && r.scrollback == s.scrollback && r.pen == s.pen && s.y <= r.y <= s.bottom && r.x == 0
    && s.y < |s.rows| && r.rows[..s.y] == s.rows[..s.y] && r.savedX == s.savedX && r.savedY == s.savedY
    && ((forall k :: s.y < k <= s.bottom ==> s.rows[k] == BlankRow(s.width, Reset))
        ==> forall k :: s.y < k <= s.bottom ==> r.rows[k] == BlankRow(s.width, Reset))
  }

  lemma RowCleared(s: Screen, q: Screen)
    requires ScreenOk(s) && s.pen == DEFAULT_PEN && BelowCleared(s, q)
    ensures BelowCleared(s, ExecAll(q, [MoveDown(1), MoveToColumn(0), ClearToEndOfLine]))
  {
    ExecThree(q, MoveDown(1), MoveToColumn(0), ClearToEndOfLine);
    var down := q.(x := 0, y := Min(q.y + 1, q.bottom));
    assert Exec(Exec(q, MoveDown(1)), MoveToColumn(0)) == down;
    assert EraseFrom(down.rows[down.y], 0, Reset) == BlankRow(s.width, Reset);
  }

  lemma {:induction false} RowsCleared(s: Screen, q: Screen, count: nat)
    requires ScreenOk(s) && s.pen == DEFAULT_PEN && BelowCleared(s, q)
    ensures BelowCleared(s, ExecAll(q, BlankRowsBelow(count)))
    decreases count
  {
    if count > 0 {
      var first := [MoveDown(1), MoveToColumn(0), ClearToEndOfLine];
      RowCleared(s, q);
      ExecAllAppend(q, first, BlankRowsBelow(count - 1));
      RowsCleared(s, ExecAll(q, first), count - 1);
    }
  }

  /** Clearing the rows a line is counted to take leaves the cursor, and all that is above it. */
  lemma ExtraRowsCleared(s: Screen, rows: nat)
    requires ScreenOk(s) && s.pen == DEFAULT_PEN && s.x == 0 && s.y <= s.bottom
    ensures var r := ExecAll(s, ExtraRowOps(rows));
      && BelowKept(s, r) && r.scrollback == s.scrollback && r.pen == s.pen && r.y == s.y && r.x == 0
      && r.rows[..s.y] == s.rows[..s.y] && (RestBlank(s) ==> RestBlank(r))
  {
    if rows > 1 {
      var saved := Exec(s, SavePosition);
      var cleared := ExecAll(saved, BlankRowsBelow(rows - 1));
      ExecAllAppend(s, [SavePosition] + BlankRowsBelow(rows - 1), [RestorePosition]);
      ExecAllAppend(s, [SavePosition], BlankRowsBelow(rows - 1));
      ExecOne(s, SavePosition);
      RowsCleared(saved, saved, rows - 1);
      ExecOne(cleared, RestorePosition);
    }
  }

  /** The rows below the cursor that a line is counted to take are blank afterwards, as far as the region goes. */
  lemma {:induction false} RowsBlanked(s: Screen, q: Screen, done: nat, count: nat)
    requires ScreenOk(s) && s.pen == DEFAULT_PEN && BelowCleared(s, q) && q.y == Min(s.y + done, s.bottom)
    requires BlankRows(q, s.y + 1, RoomLeft(q.y, s.y), Reset)
    ensures var r := ExecAll(q, BlankRowsBelow(count));
      BlankRows(r, s.y + 1, Min(done + count, RoomLeft(s.bottom, s.y)), Reset)
    decreases count
  {
    if count > 0 {
      var first := [MoveDown(1), MoveToColumn(0), ClearToEndOfLine];
      RowBlanked(s, q, done);
      RowCleared(s, q);
      ExecAllAppend(q, first, BlankRowsBelow(count - 1));
      RowsBlanked(s, ExecAll(q, first), done + 1, count - 1);
    }
  }

  lemma RowBlanked(s: Screen, q: Screen, done: nat)
    requires ScreenOk(s) && s.pen == DEFAULT_PEN && BelowCleared(s, q) && q.y == Min(s.y + done, s.bottom)
    requires BlankRows(q, s.y + 1, RoomLeft(q.y, s.y), Reset)
    ensures var r := ExecAll(q, [MoveDown(1), MoveToColumn(0), ClearToEndOfLine]);
      r.y == Min(s.y + done + 1, s.bottom) && BlankRows(r, s.y + 1, RoomLeft(r.y, s.y), Reset)
  {
    ExecThree(q, MoveDown(1), MoveToColumn(0), ClearToEndOfLine);
    var down := q.(x := 0, y := Min(q.y + 1, q.bottom));
    assert Exec(Exec(q, MoveDown(1)), MoveToColumn(0)) == down;
    assert EraseFrom(down.rows[down.y], 0, Reset) == BlankRow(s.width, Reset);
  }

  /** Whatever stood there: the further rows a line is counted to take are blank before it is printed. */
  lemma ExtraRowsBlank(s: Screen, rows: nat)
    requires ScreenOk(s) && s.pen == DEFAULT_PEN && s.x == 0 && s.y <= s.bottom && rows > 1
    ensures BlankRows(ExecAll(s, ExtraRowOps(rows)), s.y + 1, Min(rows - 1, s.bottom - s.y), Reset)
  {
    var saved := Exec(s, SavePosition);
    var cleared := ExecAll(saved, BlankRowsBelow(rows - 1));
    ExecAllAppend(s, [SavePosition] + BlankRowsBelow(rows - 1), [RestorePosition]);
    ExecAllAppend(s, [SavePosition], BlankRowsBelow(rows - 1));
    ExecOne(s, SavePosition);
    RowsBlanked(saved, saved, 0, rows - 1);
    ExecOne(cleared, RestorePosition);
  }

  lemma RowErased(s: Screen, fg: Color, bg: Color)
    requires ScreenOk(s) && s.x == 0
    ensures ExecAll(s, [SetColors(fg, bg), ClearToEndOfLine])
         == s.(pen := s.pen.(fg := fg, bg := bg), rows := s.rows[s.y := FilledRow([], s.width, bg)])
  {
    var colored := Exec(s, SetColors(fg, bg));
    ExecAllAppend(s, [SetColors(fg, bg)], [ClearToEndOfLine]);
    ExecOne(s, SetColors(fg, bg));
    ExecOne(colored, ClearToEndOfLine);
    assert EraseFrom(s.rows[s.y], 0, bg) == FilledRow([], s.width, bg);
  }

  lemma LineBegins(s: Screen, line: Line, wrapWidth: nat, clean: bool)
    requires CanAppend(s) && wrapWidth > 0 && (clean ==> RestBlank(s))
    ensures var r, bg := ExecAll(s, LineStart(line, wrapWidth)), line.style.bg.GetOr(Reset);
      && Laying(s, r, HistoryTo(s, s.y + 1), Laid([], [], bg, Less1(s.bottom - s.y)), clean)
      && r.pen == Pen(line.style.fg.GetOr(Reset), bg, {})
  {
    var fg, bg := line.style.fg.GetOr(Reset), line.style.bg.GetOr(Reset);
    var feed, extra := [CarriageReturn, LineFeed], ExtraRowOps(PhysicalRows(line, wrapWidth));
    var color := [SetColors(fg, bg), ClearToEndOfLine];
    var fed := ExecAll(s, feed);
    var ready := ExecAll(fed, extra);
    LineFeedAppends(s, clean);
    ExtraRowsCleared(fed, PhysicalRows(line, wrapWidth));
    ExecAllAppend(s, feed + extra, color);
    ExecAllAppend(s, feed, extra);
    assert LineStart(line, wrapWidth) == feed + extra + color;
    RowErased(ready, fg, bg);
    LineBegun(s, ready, ExecAll(ready, color), bg, clean);
  }

  lemma LineBegun(s: Screen, ready: Screen, r: Screen, bg: Color, clean: bool)
    requires CanAppend(s) && BelowKept(s, ready) && ready.y == Min(s.y + 1, s.bottom) && ready.x == 0
    requires HistoryTo(ready, ready.y) == HistoryTo(s, s.y + 1) && (clean ==> RestBlank(ready))
    requires r == ready.(pen := r.pen, rows := ready.rows[ready.y := FilledRow([], ready.width, bg)]) && ScreenOk(r)
    ensures Laying(s, r, HistoryTo(s, s.y + 1), Laid([], [], bg, Less1(s.bottom - s.y)), clean)
  {
    assert HistoryTo(r, r.y) == HistoryTo(ready, ready.y);
    assert HistoryTo(s, s.y + 1) + [] == HistoryTo(s, s.y + 1);
  }

  /** From the cursor's row on, these rows were appended to the history; what is left of the region is blank. */
  predicate Appended(s: Screen, r: Screen, added: seq<Row>, clean: bool) {
    && BelowKept(s, r) && s.y < |s.rows| && r.y == Min(s.y + |added|, s.bottom)
    && |HistoryTo(r, r.y + 1)| == |HistoryTo(s, s.y + 1)| + |added|
    && (clean ==> HistoryTo(r, r.y + 1) == HistoryTo(s, s.y + 1) + added && RestBlank(r))
  }

  predicate CanAppend(s: Screen) {
    ScreenOk(s) && s.top == 0 && s.y <= s.bottom && s.pen == DEFAULT_PEN
  }

  lemma {:induction false} LaidRoom(l: Laid, glyphs: seq<Glyph>, width: nat)
    ensures var r := LayAll(l, glyphs, width);
      |r.done| >= |l.done| && r.room == RoomLeft(l.room, |r.done| - |l.done|)
    decreases |glyphs|
  {
    if glyphs != [] { LaidRoom(Lay(l, glyphs[0], width), glyphs[1..], width); }
  }

  lemma LineCloses(s: Screen, r: Screen, line: Line, clean: bool)
    requires ScreenOk(s) && s.y <= s.bottom
    requires Laying(s, r, HistoryTo(s, s.y + 1), LineLaid(line, s.width, Less1(s.bottom - s.y)), clean)
    ensures Appended(s, r, Rendered(line, s.width, s.bottom - s.y), clean)
  {
    var room := Less1(s.bottom - s.y);
    LaidRoom(Laid([], [], line.style.bg.GetOr(Reset), room), SpanGlyphs(line.spans, line.style, {}, {}), s.width);
    RowsClose(s, r, LineLaid(line, s.width, room), clean);
  }

  lemma RowsClose(s: Screen, r: Screen, l: Laid, clean: bool)
    requires ScreenOk(s) && s.y <= s.bottom && Laying(s, r, HistoryTo(s, s.y + 1), l, clean)
    requires l.room == RoomLeft(Less1(s.bottom - s.y), |l.done|)
    ensures Appended(s, r, Closed(l, s.width), clean)
  {
    assert HistoryTo(r, r.y + 1) == HistoryTo(r, r.y) + [r.rows[r.y]];
    Assoc(HistoryTo(s, s.y + 1), l.done, [FilledRow(l.glyphs, s.width, l.bg)]);
  }

  /** A line becomes the next rows of the history. */
  lemma LineAppends(s: Screen, line: Line, wrapWidth: nat, clean: bool)
    requires CanAppend(s) && LineOk(line, s.width) && wrapWidth > 0 && (clean ==> RestBlank(s))
    ensures var r := ExecAll(s, LineOps(line, wrapWidth));
      Appended(s, r, Rendered(line, s.width, s.bottom - s.y), clean) && r.pen == DEFAULT_PEN
  {
    var start, spans := LineStart(line, wrapWidth), SpansOps(UNTOUCHED, line.spans, line.style);
    var begun, bg := ExecAll(s, start), line.style.bg.GetOr(Reset);
    var l := Laid([], [], bg, Less1(s.bottom - s.y));
    LineBegins(s, line, wrapWidth, clean);
    SpansPrint(s, begun, HistoryTo(s, s.y + 1), l, clean, UNTOUCHED, line.spans, line.style);
    ExecAllAppend(s, start, spans);
    LineCloses(s, ExecAll(begun, spans), line, clean);
  }

  lemma AppendedMore(s: Screen, q: Screen, r: Screen, a: seq<Row>, b: seq<Row>, clean: bool)
    requires Appended(s, q, a, clean) && Appended(q, r, b, clean)
    ensures Appended(s, r, a + b, clean)
  {
    Assoc(HistoryTo(s, s.y + 1), a, b);
  }

  lemma {:induction false} LinesAppend(s: Screen, lines: seq<Line>, wrapWidth: nat, clean: bool)
    requires CanAppend(s) && LinesOk(lines, s.width) && wrapWidth > 0 && (clean ==> RestBlank(s))
    ensures var r := ExecAll(s, LinesOps(lines, wrapWidth));
      Appended(s, r, RenderedAll(lines, s.width, s.bottom - s.y), clean) && CanAppend(r)
    decreases |lines|
  {
    if lines != [] {
      assert lines[0] in lines;
      LineAppends(s, lines[0], wrapWidth, clean);
      var next, rows := ExecAll(s, LineOps(lines[0], wrapWidth)), Rendered(lines[0], s.width, s.bottom - s.y);
      LinesAppend(next, lines[1..], wrapWidth, clean);
      ExecAllAppend(s, LineOps(lines[0], wrapWidth), LinesOps(lines[1..], wrapWidth));
      AppendedMore(s, next, ExecAll(next, LinesOps(lines[1..], wrapWidth)), rows,
                   RenderedAll(lines[1..], s.width, next.bottom - next.y), clean);
    }
  }

  /** The rows a list of lines is counted to take. */
  function RowCount(lines: seq<Line>, width: nat): nat { TotalRows(lines, Max(width, 1)) }

  // ---------- what is printed of a line ----------

  /** The pen a glyph is meant to have: the line's colours where it sets them, else those of the span, else
      the terminal's; an attribute exactly if the line adds it, or the span does, and neither takes it back. */
  lemma MeantPen(style: Style, over: Style, a: Attr)
    ensures var pen := CellPen(PenCell(style.Patch(over)));
      && pen.fg == (if over.fg.Some? then over.fg.value else if style.fg.Some? then style.fg.value else Reset)
      && pen.bg == (if over.bg.Some? then over.bg.value else if style.bg.Some? then style.bg.value else Reset)
      && (a in pen.attrs <==> a !in over.sub && (a in over.add || (a in style.add && a !in style.sub)))
  {
  }

  /** Carriage returns are left out of what is printed, wherever they are, and nothing else is. */
  lemma {:induction false} SanitizedExactly(before: seq<Symbol>, g: Symbol, after: seq<Symbol>)
    ensures Sanitized(before + [g] + after) ==
      Sanitized(before) + (if g.text == "\r" then [] else [g]) + Sanitized(after)
    ensures Sanitized([]) == []
    decreases |before|
  {
    var all := before + [g] + after;
    if before == [] {
      assert all[0] == g && all[1..] == after;
      assert [] + (if g.text == "\r" then [] else [g]) == if g.text == "\r" then [] else [g];
    } else {
      assert all[0] == before[0] && all[1..] == before[1..] + [g] + after;
      SanitizedExactly(before[1..], g, after);
    }
  }

  // ---------- how a line is cut ----------

  lemma {:induction false} ContentGlyphsOk(content: seq<Symbol>, pen: Pen, width: nat)
    requires ContentOk(content, width)
    ensures forall g :: g in ContentGlyphs(content, pen) ==> GlyphOk(g, width)
  {
    if content != [] {
      assert content[0] in content;
      ContentGlyphsOk(content[1..], pen, width);
    }
  }

  lemma {:induction false} SpanGlyphsOk(spans: seq<Span>, over: Style, attrs: Modifier, modifier: Modifier, width: nat)
    requires SpansOk(spans, width)
    ensures forall g :: g in SpanGlyphs(spans, over, attrs, modifier) ==> GlyphOk(g, width)
    decreases |spans|
  {
    if spans != [] {
      var cell := PenCell(spans[0].style.Patch(over));
      var now := AttrsAfter(attrs, modifier, cell.modifier);
      SanitizedOk(spans[0].content, width);
      ContentGlyphsOk(Sanitized(spans[0].content), Pen(cell.fg, cell.bg, now), width);
      SpanGlyphsOk(spans[1..], over, now, cell.modifier, width);
    }
  }

  function Joined(pieces: seq<seq<Glyph>>): seq<Glyph> {
    if pieces == [] then [] else Joined(pieces[..|pieces| - 1]) + pieces[|pieces| - 1]
  }

  ghost predicate Fills(row: Row, glyphs: seq<Glyph>, width: nat) {
    |Cells(glyphs)| <= width && exists bg :: row == FilledRow(glyphs, width, bg)
  }

  /** Each row holds its piece, and only ends where the next glyph does not fit. */
  ghost predicate Cut(rows: seq<Row>, pieces: seq<seq<Glyph>>, width: nat) {
    && |rows| == |pieces| && (forall i :: 0 <= i < |rows| ==> Fills(rows[i], pieces[i], width))
    && forall i :: 0 < i < |pieces| ==> BreaksBefore(pieces, i, width)
  }

  predicate BreaksBefore(pieces: seq<seq<Glyph>>, i: nat, width: nat)
    requires 0 < i < |pieces|
  {
    pieces[i] != [] && |Cells(pieces[i - 1])| + pieces[i][0].symbol.width > width
  }

  /** Of the rows cut, those before the last stay. */
  lemma {:induction false} CutStays(rows: seq<Row>, pieces: seq<seq<Glyph>>, row: Row, piece: seq<Glyph>, width: nat)
    requires Cut(rows, pieces, width) && rows != [] && Fills(row, piece, width)
    requires piece != [] && (pieces[|pieces| - 1] != [] ==> piece[0] == pieces[|pieces| - 1][0])
    ensures Cut(rows[..|rows| - 1] + [row], pieces[..|pieces| - 1] + [piece], width)
  {
    var front, cut := rows[..|rows| - 1] + [row], pieces[..|pieces| - 1] + [piece];
    forall i | 0 <= i < |front| ensures Fills(front[i], cut[i], width) {
      if i < |rows| - 1 { assert Fills(rows[i], pieces[i], width) && cut[i] == pieces[i] && front[i] == rows[i]; }
    }
    forall i | 0 < i < |cut| ensures BreaksBefore(cut, i, width) {
      assert BreaksBefore(pieces, i, width) && cut[i - 1] == pieces[i - 1];
      assert cut[i] != [] && cut[i][0] == pieces[i][0];
    }
  }

  lemma {:induction false} CutMore(rows: seq<Row>, pieces: seq<seq<Glyph>>, row: Row, piece: seq<Glyph>, width: nat)
    requires Cut(rows, pieces, width) && rows != [] && Fills(row, piece, width)
    requires piece != [] && |Cells(pieces[|pieces| - 1])| + piece[0].symbol.width > width
    ensures Cut(rows + [row], pieces + [piece], width)
  {
    var more, cut := rows + [row], pieces + [piece];
    forall i | 0 <= i < |more| ensures Fills(more[i], cut[i], width) {
      if i < |rows| { assert Fills(rows[i], pieces[i], width); }
    }
    forall i | 0 < i < |cut| ensures BreaksBefore(cut, i, width) {
      if i < |pieces| { assert BreaksBefore(pieces, i, width); }
    }
  }

  lemma CutGrows(l: Laid, pieces: seq<seq<Glyph>>, g: Glyph, width: nat) returns (cut: seq<seq<Glyph>>)
    requires Cut(Closed(l, width), pieces, width) && pieces[|pieces| - 1] == l.glyphs && GlyphOk(g, width)
    ensures var r := Lay(l, g, width);
      Cut(Closed(r, width), cut, width) && cut[|cut| - 1] == r.glyphs && Joined(cut) == Joined(pieces) + [g]
  {
    var front, r := pieces[..|pieces| - 1], Lay(l, g, width);
    var row := FilledRow(r.glyphs, width, r.bg);
    assert Cells([g]) == GlyphCells(g);
    CellsAppend(l.glyphs, [g]);
    assert Fills(row, r.glyphs, width);
    if |Cells(l.glyphs)| + g.symbol.width <= width {
      cut := front + [l.glyphs + [g]];
      assert cut[..|cut| - 1] == front && Closed(l, width)[..|l.done|] == l.done;
      Assoc(Joined(front), l.glyphs, [g]);
      CutStays(Closed(l, width), pieces, row, l.glyphs + [g], width);
    } else {
      cut := pieces + [[g]];
      assert cut[..|cut| - 1] == pieces;
      CutMore(Closed(l, width), pieces, row, [g], width);
    }
  }

  lemma {:induction false} AllCut(l: Laid, pieces: seq<seq<Glyph>>, glyphs: seq<Glyph>, width: nat, end: Laid)
    returns (cut: seq<seq<Glyph>>)
    requires Cut(Closed(l, width), pieces, width) && pieces[|pieces| - 1] == l.glyphs
    requires (forall g :: g in glyphs ==> GlyphOk(g, width)) && end == LayAll(l, glyphs, width)
    ensures Cut(Closed(end, width), cut, width) && Joined(cut) == Joined(pieces) + glyphs
    decreases |glyphs|
  {
    if glyphs == [] {
      cut := pieces;
      assert Joined(pieces) + [] == Joined(pieces);
    } else {
      var g, rest := glyphs[0], glyphs[1..];
      assert g in glyphs && glyphs == [g] + rest;
      var next := Lay(l, g, width);
      var first := CutGrows(l, pieces, g, width);
      cut := AllCut(next, first, rest, width, end);
      Assoc(Joined(pieces), [g], rest);
    }
  }

  lemma NothingCut(bg: Color, room: nat, width: nat) returns (pieces: seq<seq<Glyph>>)
    ensures |pieces| == 1 && pieces[0] == [] && Joined(pieces) == []
    ensures Cut(Closed(Laid([], [], bg, room), width), pieces, width)
  {
    pieces := [[]];
    assert Fills(FilledRow([], width, bg), [], width);
    assert Joined(pieces) == Joined([]) + [];
  }

  /** No glyph of a line is lost or moved: its rows hold them all, in order, and each row is as full as it
      can be. */
  lemma LineCut(line: Line, width: nat, room: nat) returns (pieces: seq<seq<Glyph>>)
    requires LineOk(line, width)
    ensures Joined(pieces) == SpanGlyphs(line.spans, line.style, {}, {})
    ensures Cut(Rendered(line, width, room), pieces, width)
  {
    var bg, glyphs := line.style.bg.GetOr(Reset), SpanGlyphs(line.spans, line.style, {}, {});
    SpanGlyphsOk(line.spans, line.style, {}, {}, width);
    var start := Laid([], [], bg, Less1(room));
    var first := NothingCut(bg, Less1(room), width);
    pieces := AllCut(start, first, glyphs, width, LineLaid(line, width, Less1(room)));
    assert [] + glyphs == glyphs;
  }

  /** A line that fits is one row: its glyphs, and blanks in its own colour. */
  lemma OneRowRendered(line: Line, width: nat, room: nat)
    requires LineOk(line, width) && |Cells(SpanGlyphs(line.spans, line.style, {}, {}))| <= width
    ensures var glyphs := SpanGlyphs(line.spans, line.style, {}, {});
      Rendered(line, width, room) == [FilledRow(glyphs, width, line.style.bg.GetOr(Reset))]
  {
    var bg, glyphs := line.style.bg.GetOr(Reset), SpanGlyphs(line.spans, line.style, {}, {});
    SpanGlyphsOk(line.spans, line.style, {}, {}, width);
    assert [] + glyphs == glyphs;
    LaidWhole(Laid([], [], bg, Less1(room)), glyphs, width);
  }

  /** The columns left over at the ends of rows, where a wide glyph did not fit. */
  function Lost(glyphs: seq<Glyph>, x: nat, width: nat): nat
    decreases |glyphs|
  {
    if glyphs == [] then 0
    else if x + glyphs[0].symbol.width <= width then Lost(glyphs[1..], x + glyphs[0].symbol.width, width)
    else RoomLeft(width, x) + Lost(glyphs[1..], glyphs[0].symbol.width, width)
  }

  lemma CellsFirst(glyphs: seq<Glyph>)
    requires glyphs != []
    ensures |Cells(glyphs)| == |GlyphCells(glyphs[0])| + |Cells(glyphs[1..])|
  {
  }

  /** The columns laid out so far, those left over included. */
  function Columns(l: Laid, width: nat): nat { |l.done| * width + |Cells(l.glyphs)| }

  lemma GlyphColumns(l: Laid, g: Glyph, width: nat, x: nat)
    requires x == |Cells(l.glyphs)| <= width && GlyphOk(g, width)
    ensures var (r, wide) := (Lay(l, g, width), g.symbol.width);
      && Columns(r, width) == Columns(l, width) + wide + (if x + wide <= width then 0 else width - x)
      && |Cells(r.glyphs)| == if x + wide <= width then x + wide else wide
  {
    assert Cells([g]) == GlyphCells(g) + [];
    CellsAppend(l.glyphs, [g]);
    TimesOne(|l.done|, width);
  }

  lemma TimesOne(n: nat, width: nat)
    ensures (n + 1) * width == n * width + width
  {
  }

  lemma {:induction false} LaidColumns(l: Laid, glyphs: seq<Glyph>, width: nat, x: nat)
    requires x == |Cells(l.glyphs)| <= width && forall g :: g in glyphs ==> GlyphOk(g, width)
    ensures var r := LayAll(l, glyphs, width);
      && Columns(r, width) == Columns(l, width) + |Cells(glyphs)| + Lost(glyphs, x, width)
      && |Cells(r.glyphs)| <= width && (glyphs != [] ==> |Cells(r.glyphs)| > 0)
    decreases |glyphs|
  {
    if glyphs != [] {
      var g, rest := glyphs[0], glyphs[1..];
      assert g in glyphs;
      CellsFirst(glyphs);
      GlyphColumns(l, g, width, x);
      LaidColumns(Lay(l, g, width), rest, width,
                  if x + g.symbol.width <= width then x + g.symbol.width else g.symbol.width);
    }
  }

  lemma TimesMore(a: nat, b: nat, width: nat)
    requires a < b
    ensures a * width + width <= b * width
  {
    var more: nat := b - a - 1;
    assert b * width == (a + 1 + more) * width == a * width + width + more * width;
  }

  lemma Quotient(n: nat, q: nat, r: nat, width: nat)
    requires r < width && n == q * width + r
    ensures n / width == q
  {
    var e := n / width;
    assert n == width * e + n % width;
    if e < q { TimesMore(e, q, width); } else if e > q { TimesMore(q, e, width); }
  }

  lemma CeilIs(done: nat, last: nat, width: nat)
    requires 0 < last <= width
    ensures DivCeil(done * width + last, width) == done + 1
  {
    Quotient(done * width + last + width - 1, done + 1, last - 1, width);
  }

  /** The rows a line takes: one for every full or partial row of its columns, those left over included. */
  lemma RowsUsed(line: Line, width: nat, room: nat)
    requires LineOk(line, width) && width > 0
    ensures var glyphs := SpanGlyphs(line.spans, line.style, {}, {});
      |Rendered(line, width, room)| == DivCeil(Max(|Cells(glyphs)| + Lost(glyphs, 0, width), 1), width)
  {
    var bg, glyphs := line.style.bg.GetOr(Reset), SpanGlyphs(line.spans, line.style, {}, {});
    var l := LineLaid(line, width, Less1(room));
    SpanGlyphsOk(line.spans, line.style, {}, {}, width);
    LaidColumns(Laid([], [], bg, Less1(room)), glyphs, width, 0);
    CeilIs(|l.done|, Max(|Cells(l.glyphs)|, 1), width);
  }

  /** One column each, and none of them a carriage return, which is counted but not printed. */
  predicate Narrow(spans: seq<Span>) {
    forall span :: span in spans ==> forall g :: g in span.content ==> g.width == 1 && g.text != "\r"
  }

  lemma {:induction false} NarrowContent(content: seq<Symbol>, pen: Pen)
    requires forall g :: g in content ==> g.width == 1 && g.text != "\r"
    ensures Sanitized(content) == content && |Cells(ContentGlyphs(content, pen))| == ContentWidth(content)
    ensures forall g :: g in ContentGlyphs(content, pen) ==> g.symbol.width == 1
  {
    if content != [] {
      assert content[0] in content;
      NarrowContent(content[1..], pen);
      assert ContentGlyphs(content, pen)[1..] == ContentGlyphs(content[1..], pen);
    }
  }

  lemma {:induction false} NarrowSpans(spans: seq<Span>, over: Style, attrs: Modifier, modifier: Modifier)
    requires Narrow(spans)
    ensures var glyphs := SpanGlyphs(spans, over, attrs, modifier);
      |Cells(glyphs)| == SpansWidth(spans) && forall g :: g in glyphs ==> g.symbol.width == 1
    decreases |spans|
  {
    if spans != [] {
      assert spans[0] in spans;
      var cell := PenCell(spans[0].style.Patch(over));
      var now := AttrsAfter(attrs, modifier, cell.modifier);
      var pen := Pen(cell.fg, cell.bg, now);
      NarrowContent(spans[0].content, pen);
      NarrowSpans(spans[1..], over, now, cell.modifier);
      CellsAppend(ContentGlyphs(spans[0].content, pen), SpanGlyphs(spans[1..], over, now, cell.modifier));
    }
  }

  lemma {:induction false} NothingLost(glyphs: seq<Glyph>, x: nat, width: nat)
    requires width > 0 && x <= width && forall g :: g in glyphs ==> g.symbol.width == 1
    ensures Lost(glyphs, x, width) == 0
    decreases |glyphs|
  {
    if glyphs != [] {
      assert glyphs[0] in glyphs;
      NothingLost(glyphs[1..], if x + 1 <= width then x + 1 else 1, width);
    }
  }

  lemma NarrowOk(spans: seq<Span>, width: nat)
    requires Narrow(spans) && width > 0
    ensures SpansOk(spans, width)
  {
    if spans != [] {
      assert spans[0] in spans;
      NarrowOk(spans[1..], width);
    }
  }

  /** The count is right for lines of narrow glyphs: then the room made is what they take. */
  lemma {:induction false} NarrowCounted(lines: seq<Line>, width: nat, room: nat)
    requires width > 0 && forall line :: line in lines ==> Narrow(line.spans)
    ensures |RenderedAll(lines, width, room)| == RowCount(lines, width)
    decreases |lines|
  {
    if lines != [] {
      var line := lines[0];
      assert line in lines;
      NarrowOk(line.spans, width);
      RowsUsed(line, width, room);
      NarrowSpans(line.spans, line.style, {}, {});
      NothingLost(SpanGlyphs(line.spans, line.style, {}, {}), 0, width);
      NarrowCounted(lines[1..], width, RoomLeft(room, |Rendered(line, width, room)|));
    }
  }

  /** Three wide glyphs on a screen of three columns are counted as two rows, and take three. */
  lemma WideMiscounted(symbol: Symbol, room: nat)
    requires symbol.width == 2 && symbol.text != "\r"
    ensures var plain := Style(None, None, {}, {});
      var line := Line([Span([symbol, symbol, symbol], plain)], plain);
      PhysicalRows(line, 3) == 2 && |Rendered(line, 3, room)| == 3
  {
    var plain := Style(None, None, {}, {});
    var content := [symbol, symbol, symbol];
    var line := Line([Span(content, plain)], plain);
    assert content[1..] == [symbol, symbol] && content[1..][1..] == [symbol] && [symbol][1..] == [];
    assert ContentWidth([symbol]) == 2;
    assert ContentWidth([symbol, symbol]) == 2 + ContentWidth([symbol, symbol][1..]);
    assert ContentWidth(content) == 2 + ContentWidth(content[1..]);
    assert SpansWidth(line.spans) == ContentWidth(content) + SpansWidth([]);
    assert Sanitized([symbol]) == [symbol] && Sanitized([symbol, symbol]) == [symbol, symbol];
    assert Sanitized(content) == content;
    var cell := PenCell(plain.Patch(plain));
    var g := Glyph(symbol, Pen(cell.fg, cell.bg, AttrsAfter({}, {}, cell.modifier)));
    assert ContentGlyphs([symbol], g.pen) == [g] && ContentGlyphs([symbol, symbol], g.pen) == [g, g];
    assert ContentGlyphs(content, g.pen) == [g, g, g];
    assert SpanGlyphs(line.spans, plain, {}, {}) == [g, g, g] + SpanGlyphs([], plain, g.pen.attrs, cell.modifier);
    assert [g, g, g] + [] == [g, g, g] && [g, g, g][1..] == [g, g] && [g, g][1..] == [g] && [g][1..] == [];
    var l := Laid([], [], Reset, Less1(room));
    assert Cells([g]) == GlyphCells(g) + Cells([]);
    var one := Lay(l, g, 3);
    assert one.glyphs == [g];
    var two := Lay(one, g, 3);
    var three := Lay(two, g, 3);
    assert LayAll(l, [g, g, g], 3) == LayAll(one, [g, g], 3) == LayAll(two, [g], 3) == LayAll(three, [], 3);
  }

  // ---------- making room ----------

  /** The rows from `top` on moved down by n, out of the screen at the bottom. */
  predicate MovedDown(s: Screen, r: Screen, top: nat, n: nat) {
    && SameShape(s, r) && r.scrollback == s.scrollback && r.pen == s.pen
    && (forall k :: 0 <= k < top && k < |s.rows| ==> r.rows[k] == s.rows[k])
    && (forall k :: top <= k && k + n < |s.rows| ==> r.rows[k + n] == s.rows[k])
  }

  /** The n rows from `top` on are blank. */
  predicate BlankRows(s: Screen, top: nat, n: nat, bg: Color) {
    forall k :: top <= k < top + n && k < |s.rows| ==> s.rows[k] == BlankRow(s.width, bg)
  }

  lemma {:induction false} ReverseIndexMoves(s: Screen, n: nat)
    requires ScreenOk(s) && s.y == s.top && s.bottom + 1 == |s.rows|
    ensures var r := ExecAll(s, Repeated(ReverseIndex, n));
      MovedDown(s, r, s.top, n) && r.y == s.y && r.top == s.top && r.bottom == s.bottom
        && BlankRows(r, s.top, n, s.pen.bg)
    decreases n
  {
    if n > 0 {
      var next := Exec(s, ReverseIndex);
      ReverseIndexOnce(s);
      assert Repeated(ReverseIndex, n)[1..] == Repeated(ReverseIndex, n - 1);
      ReverseIndexMoves(next, n - 1);
      MovedDownMore(s, next, ExecAll(next, Repeated(ReverseIndex, n - 1)), s.top, n, s.pen.bg);
    }
  }

  lemma ReverseIndexOnce(s: Screen)
    requires ScreenOk(s) && s.y == s.top && s.bottom + 1 == |s.rows|
    ensures var r := Exec(s, ReverseIndex);
      MovedDown(s, r, s.top, 1) && r.y == s.y && r.top == s.top && r.bottom == s.bottom
        && BlankRows(r, s.top, 1, s.pen.bg)
  {
  }

  lemma MovedDownMore(s: Screen, next: Screen, r: Screen, top: nat, n: nat, bg: Color)
    requires n > 0 && ScreenOk(s) && MovedDown(s, next, top, 1) && MovedDown(next, r, top, n - 1)
    requires BlankRows(next, top, 1, bg) && BlankRows(r, top, n - 1, bg)
    ensures MovedDown(s, r, top, n) && BlankRows(r, top, n, bg)
  {
    forall k | top <= k && k + n < |s.rows| ensures r.rows[k + n] == s.rows[k] {
      assert r.rows[(k + 1) + (n - 1)] == next.rows[k + 1];
    }
    if top + (n - 1) < |s.rows| { assert r.rows[top + (n - 1)] == next.rows[top]; }
  }

  function SizeOf(s: Screen): Size { Size(s.width, |s.rows|) }

  /** A viewport that spans the width of the screen. */
  predicate OnScreen(s: Screen, area: Rect) {
    ScreenOk(s) && area.width == s.width && area.height >= 1 && Bottom(area) <= |s.rows|
  }

  /** It has a row above it. */
  predicate ViewportOk(s: Screen, area: Rect) { OnScreen(s, area) && area.y >= 1 }

  lemma RoomMade(s: Screen, area: Rect, rows: nat)
    requires OnScreen(s, area) && FullRegion(s)
    ensures var r, n := ExecAll(s, RoomOps(area, SizeOf(s), rows)), ScrollAmount(area, SizeOf(s), rows);
      MovedDown(s, r, area.y, n) && FullRegion(r) && BlankRows(r, area.y, n, s.pen.bg)
  {
    if Bottom(area) < |s.rows| {
      var n := ScrollAmount(area, SizeOf(s), rows);
      RoomRuns(s, area, rows);
      ReverseIndexMoves(s.(top := area.y, bottom := |s.rows| - 1, x := 0, y := area.y), n);
    }
  }

  lemma {:induction false} RoomRuns(s: Screen, area: Rect, rows: nat)
    requires OnScreen(s, area) && Bottom(area) < |s.rows|
    ensures ExecAll(s, RoomOps(area, SizeOf(s), rows)) ==
      ExecAll(s.(top := area.y, bottom := |s.rows| - 1, x := 0, y := area.y),
              Repeated(ReverseIndex, ScrollAmount(area, SizeOf(s), rows)))
             .(top := 0, bottom := |s.rows| - 1, x := 0, y := 0)
  {
    var setup := [SetScrollRegion(area.y + 1, |s.rows|), MoveTo(0, area.y)];
    var up := Repeated(ReverseIndex, ScrollAmount(area, SizeOf(s), rows));
    ExecAllAppend(s, setup + up, [ResetScrollRegion]);
    ExecAllAppend(s, setup, up);
    assert RoomOps(area, SizeOf(s), rows) == setup + up + [ResetScrollRegion];
    assert ExecAll(s, setup) == s.(top := area.y, bottom := |s.rows| - 1, x := 0, y := area.y) by {
      RoomReady(s, area.y);
    }
    RegionLifted(s, ExecAll(ExecAll(s, setup), up));
  }

  lemma RegionLifted(s: Screen, done: Screen)
    requires ScreenOk(s) && SameShape(s, done)
    ensures ExecAll(done, [ResetScrollRegion]) == done.(top := 0, bottom := |s.rows| - 1, x := 0, y := 0)
  {
    ExecOne(done, ResetScrollRegion);
  }

  lemma RoomReady(s: Screen, y: nat)
    requires ScreenOk(s) && y + 1 < |s.rows|
    ensures ExecAll(s, [SetScrollRegion(y + 1, |s.rows|), MoveTo(0, y)])
         == s.(top := y, bottom := |s.rows| - 1, x := 0, y := y)
  {
    var region := s.(top := y, bottom := |s.rows| - 1, x := 0, y := 0);
    ExecTwo(s, SetScrollRegion(y + 1, |s.rows|), MoveTo(0, y));
    RegionIs(s, y);
    MoveIs(region, 0, y);
  }

  lemma RegionIs(s: Screen, y: nat)
    requires ScreenOk(s) && y + 1 < |s.rows|
    ensures Exec(s, SetScrollRegion(y + 1, |s.rows|)) == s.(top := y, bottom := |s.rows| - 1, x := 0, y := 0)
  {
  }

  lemma MoveIs(s: Screen, x: nat, y: nat)
    requires ScreenOk(s) && x < s.width && y < |s.rows|
    ensures Exec(s, MoveTo(x, y)) == s.(x := x, y := y)
  {
  }

  // ---------- the insertion ----------

  /** The terminal after the region above the viewport was set and the cursor put on its start. */
  lemma RegionReady(s: Screen, top: nat, cursorTop: nat)
    requires ScreenOk(s) && FullRegion(s) && s.pen == DEFAULT_PEN && cursorTop < top <= |s.rows|
    ensures var r := ExecAll(s, [SetScrollRegion(1, top), MoveTo(0, cursorTop)]);
      && CanAppend(r) && r.rows == s.rows && r.scrollback == s.scrollback && r.y == cursorTop && SameShape(s, r)
      && r.bottom == if top >= 2 || s.oneLineRegions then top - 1 else |s.rows| - 1
  {
    ExecTwo(s, SetScrollRegion(1, top), MoveTo(0, cursorTop));
  }

  lemma RegionLeft(s: Screen, cursor: Position)
    requires ScreenOk(s)
    ensures var r := ExecAll(s, [ResetScrollRegion, MoveTo(cursor.x, cursor.y)]);
      && r.rows == s.rows && r.scrollback == s.scrollback && r.pen == s.pen && FullRegion(r) && SameShape(s, r)
  {
    var a := Exec(s, ResetScrollRegion);
    assert a == s.(top := 0, bottom := |s.rows| - 1, x := 0, y := 0);
    var r := Exec(a, MoveTo(cursor.x, cursor.y));
    assert r == a.(x := Clamp(cursor.x, a.width), y := Clamp(cursor.y, |a.rows|));
    ExecTwo(s, ResetScrollRegion, MoveTo(cursor.x, cursor.y));
  }

  /** The rows that lines leave where `room` rows were free: their own, and the blank ones they did not need. */
  function HistoryRows(lines: seq<Line>, width: nat, room: nat): seq<Row> {
    var rows := RenderedAll(lines, width, room);
    rows + EmptyRows(RoomLeft(room, |rows|), width)
  }

  function EmptyRows(count: nat, width: nat): (rows: seq<Row>)
    ensures |rows| == count && forall k :: 0 <= k < count ==> rows[k] == BlankRow(width, Reset)
  {
    seq(count, _ => BlankRow(width, Reset))
  }

  /** The lines were written from the row after `cursorTop` on, in a region ending at `bottom`. */
  predicate RegionWritten(s: Screen, r: Screen, bottom: nat, cursorTop: nat, lines: seq<Line>) {
    && cursorTop <= bottom < |s.rows| && SameShape(s, r) && FullRegion(r) && r.pen == DEFAULT_PEN
    && r.rows[bottom+1..] == s.rows[bottom+1..]
    && HistoryTo(r, bottom + 1) == HistoryTo(s, cursorTop + 1) + HistoryRows(lines, s.width, bottom - cursorTop)
  }

  /** `free` rows are blank between the cursor and the viewport. */
  lemma RoomFilled(s: Screen, top: nat, cursorTop: nat, free: nat, lines: seq<Line>, cursor: Position, width: nat,
                   r: Screen)
    requires ScreenOk(s) && FullRegion(s) && s.pen == DEFAULT_PEN && cursorTop + 1 + free == top <= |s.rows|
    requires LinesOk(lines, s.width) && (top >= 2 || s.oneLineRegions)
    requires BlankRows(s, cursorTop + 1, free, Reset)
    requires width == s.width && r == ExecAll(s, RegionOps(top, cursorTop, lines, width, cursor))
    ensures RegionWritten(s, r, top - 1, cursorTop, lines)
  {
    var ready := ExecAll(s, [SetScrollRegion(1, top), MoveTo(0, cursorTop)]);
    RegionReady(s, top, cursorTop);
    var done := ExecAll(ready, LinesOps(lines, s.width));
    LinesAppend(ready, lines, s.width, true);
    RegionLeft(done, cursor);
    RegionRuns(s, top, cursorTop, lines, cursor);
    RegionComplete(s, ready, done, r, RenderedAll(lines, s.width, ready.bottom - ready.y), lines);
  }

  lemma RegionRuns(s: Screen, top: nat, cursorTop: nat, lines: seq<Line>, cursor: Position)
    requires ScreenOk(s)
    ensures ExecAll(s, RegionOps(top, cursorTop, lines, s.width, cursor)) ==
      ExecAll(ExecAll(ExecAll(s, [SetScrollRegion(1, top), MoveTo(0, cursorTop)]), LinesOps(lines, s.width)),
              [ResetScrollRegion, MoveTo(cursor.x, cursor.y)])
  {
    var setup := [SetScrollRegion(1, top), MoveTo(0, cursorTop)];
    var body := LinesOps(lines, s.width);
    ExecAllAppend(s, setup + body, [ResetScrollRegion, MoveTo(cursor.x, cursor.y)]);
    ExecAllAppend(s, setup, body);
  }

  lemma RegionComplete(s: Screen, ready: Screen, done: Screen, r: Screen, rows: seq<Row>, lines: seq<Line>)
    requires ScreenOk(s) && SameShape(s, ready) && ready.rows == s.rows && ready.scrollback == s.scrollback
    requires ready.y <= ready.bottom < |s.rows| && rows == RenderedAll(lines, s.width, ready.bottom - ready.y)
    requires Appended(ready, done, rows, true) && done.pen == DEFAULT_PEN
    requires r.rows == done.rows && r.scrollback == done.scrollback && r.pen == done.pen && FullRegion(r)
      && SameShape(done, r)
    ensures RegionWritten(s, r, ready.bottom, ready.y, lines)
  {
    var room: nat := ready.bottom - ready.y;
    var left := EmptyRows(RoomLeft(room, |rows|), s.width);
    assert HistoryRows(lines, s.width, room) == rows + left;
    RestJoins(ready, done, r, rows, left);
  }

  lemma RestJoins(ready: Screen, done: Screen, r: Screen, rows: seq<Row>, left: seq<Row>)
    requires ScreenOk(ready) && ready.y <= ready.bottom && Appended(ready, done, rows, true)
    requires r.rows == done.rows && r.scrollback == done.scrollback
    requires left == EmptyRows(RoomLeft(ready.bottom - ready.y, |rows|), ready.width)
    ensures HistoryTo(r, ready.bottom + 1) == HistoryTo(ready, ready.y + 1) + (rows + left)
  {
    BlankLeft(done, |left|, left);
    HistoryJoins(done, r, done.y + 1, done.bottom + 1);
    Assoc(HistoryTo(ready, ready.y + 1), rows, left);
  }

  lemma BlankLeft(s: Screen, count: nat, left: seq<Row>)
    requires ScreenOk(s) && RestBlank(s) && count == s.bottom - s.y && |left| == count
    requires forall k :: 0 <= k < count ==> left[k] == BlankRow(s.width, Reset)
    ensures s.rows[s.y+1..s.bottom+1] == left
  {
  }

  lemma HistoryJoins(s: Screen, r: Screen, y: nat, end: nat)
    requires y <= end <= |s.rows| && r.rows == s.rows && r.scrollback == s.scrollback
    ensures HistoryTo(r, end) == HistoryTo(s, y) + s.rows[y..end]
  {
    assert s.rows[..end] == s.rows[..y] + s.rows[y..end];
    Assoc(s.scrollback, s.rows[..y], s.rows[y..end]);
  }

  /** What an insertion is for: the history grows by the rows of the lines, in order, and by blank ones if
      more were counted; the viewport's rows are the ones they were, further down by as much as there was
      room for. */
  predicate Inserted(s: Screen, r: Screen, area: Rect, lines: seq<Line>) {
    ScreenOk(s) && area.y <= |s.rows| &&
    var n := ScrollAmount(area, SizeOf(s), RowCount(lines, s.width));
    && SameShape(s, r) && FullRegion(r) && r.pen == DEFAULT_PEN && Bottom(area) + n <= |r.rows|
    && HistoryTo(r, area.y + n) == HistoryTo(s, area.y) + HistoryRows(lines, s.width, n)
    && forall k :: area.y <= k < Bottom(area) && k < |s.rows| && k + n < |r.rows| ==> r.rows[k + n] == s.rows[k]
  }

  /** The scroll region above the moved viewport is one the terminal accepts. */
  predicate RegionAccepted(s: Screen, area: Rect, rows: nat) {
    Moved(area, SizeOf(s), rows).y >= 2 || s.oneLineRegions
  }

  lemma AmountBound(area: Rect, size: Size, rows: nat)
    ensures ScrollAmount(area, size, rows) <= rows
    ensures Bottom(area) <= size.height ==> Bottom(Moved(area, size, rows)) <= size.height
  {
  }

  lemma HistoryCarried(s: Screen, made: Screen, top: nat, n: nat)
    requires top <= |s.rows| && MovedDown(s, made, top, n)
    ensures HistoryTo(made, top) == HistoryTo(s, top)
  {
    assert made.rows[..top] == s.rows[..top];
  }

  lemma RowsCarried(s: Screen, made: Screen, r: Screen, top: nat, n: nat)
    requires MovedDown(s, made, top, n) && top + n <= |s.rows| == |r.rows|
    requires r.rows[top + n..] == made.rows[top + n..]
    ensures forall k :: top <= k && k + n < |s.rows| ==> r.rows[k + n] == s.rows[k]
  {
    forall k | top <= k && k + n < |s.rows| ensures r.rows[k + n] == s.rows[k] {
      assert r.rows[k + n] == r.rows[top + n..][k - top] == made.rows[top + n..][k - top] == made.rows[k + n];
    }
  }

  /** The insertion, split at the room it makes. */
  lemma InsertionSplits(s: Screen, area: Rect, lines: seq<Line>, cursor: Position, rows: nat, made: Screen, top: nat)
    requires ScreenOk(s) && area.width == s.width && rows == RowCount(lines, s.width)
    requires made == ExecAll(s, RoomOps(area, SizeOf(s), rows)) && top == Moved(area, SizeOf(s), rows).y > 0
    ensures ExecAll(s, InsertOps(area, SizeOf(s), lines, cursor))
         == ExecAll(made, RegionOps(top, Less1(area.y), lines, s.width, cursor))
  {
    var room, region := RoomOps(area, SizeOf(s), rows), RegionOps(top, Less1(area.y), lines, s.width, cursor);
    assert InsertOps(area, SizeOf(s), lines, cursor) == room + region;
    ExecAllAppend(s, room, region);
  }

  lemma WrittenIsInserted(s: Screen, made: Screen, r: Screen, area: Rect, lines: seq<Line>, n: nat)
    requires ViewportOk(s, area) && n == ScrollAmount(area, SizeOf(s), RowCount(lines, s.width))
    requires SameShape(s, made) && RegionWritten(made, r, area.y + n - 1, area.y - 1, lines)
    requires HistoryTo(made, area.y) == HistoryTo(s, area.y)
    requires forall k :: area.y <= k && k + n < |s.rows| && k + n < |r.rows| ==> r.rows[k + n] == s.rows[k]
    ensures Inserted(s, r, area, lines)
  {
    AmountBound(area, SizeOf(s), RowCount(lines, s.width));
  }

  /** Once the room has been made, the lines are written above the viewport. */
  lemma RoomWritten(s: Screen, made: Screen, r: Screen, area: Rect, lines: seq<Line>, cursor: Position, top: nat)
    requires ViewportOk(s, area) && FullRegion(s) && s.pen == DEFAULT_PEN && LinesOk(lines, s.width)
    requires made == ExecAll(s, RoomOps(area, SizeOf(s), RowCount(lines, s.width)))
    requires top == area.y + ScrollAmount(area, SizeOf(s), RowCount(lines, s.width)) && (top >= 2 || s.oneLineRegions)
    requires r == ExecAll(made, RegionOps(top, area.y - 1, lines, s.width, cursor))
    ensures Inserted(s, r, area, lines)
  {
    var n: nat, rows := top - area.y, RowCount(lines, s.width);
    AmountBound(area, SizeOf(s), rows);
    RoomKeeps(s, made, area, rows, n);
    RoomFilled(made, top, area.y - 1, n, lines, cursor, s.width, r);
    RoomShifts(s, made, r, area, rows, n);
    WrittenIsInserted(s, made, r, area, lines, n);
  }

  /** Making room keeps the history above, and leaves blank rows behind. */
  lemma RoomKeeps(s: Screen, made: Screen, area: Rect, rows: nat, n: nat)
    requires ViewportOk(s, area) && FullRegion(s) && s.pen == DEFAULT_PEN
    requires made == ExecAll(s, RoomOps(area, SizeOf(s), rows)) && n == ScrollAmount(area, SizeOf(s), rows)
    ensures SameShape(s, made) && FullRegion(made) && made.pen == DEFAULT_PEN && BlankRows(made, area.y, n, Reset)
    ensures HistoryTo(made, area.y) == HistoryTo(s, area.y)
  {
    RoomMade(s, area, rows);
    HistoryCarried(s, made, area.y, n);
  }

  lemma RoomShifts(s: Screen, made: Screen, r: Screen, area: Rect, rows: nat, n: nat)
    requires ViewportOk(s, area) && FullRegion(s) && s.pen == DEFAULT_PEN && area.y + n <= |s.rows| == |r.rows|
    requires made == ExecAll(s, RoomOps(area, SizeOf(s), rows)) && n == ScrollAmount(area, SizeOf(s), rows)
    requires r.rows[area.y + n..] == made.rows[area.y + n..]
    ensures forall k :: area.y <= k && k + n < |s.rows| && k + n < |r.rows| ==> r.rows[k + n] == s.rows[k]
  {
    RoomMade(s, area, rows);
    RowsCarried(s, made, r, area.y, n);
  }

  lemma InsertionAppendsIf(s: Screen, area: Rect, lines: seq<Line>, cursor: Position)
    requires ViewportOk(s, area) && FullRegion(s) && s.pen == DEFAULT_PEN
    requires LinesOk(lines, area.width) && RegionAccepted(s, area, RowCount(lines, s.width))
    ensures Inserted(s, ExecAll(s, InsertOps(area, SizeOf(s), lines, cursor)), area, lines)
  {
    var rows, r := RowCount(lines, s.width), ExecAll(s, InsertOps(area, SizeOf(s), lines, cursor));
    var made, top := ExecAll(s, RoomOps(area, SizeOf(s), rows)), Moved(area, SizeOf(s), rows).y;
    InsertionSplits(s, area, lines, cursor, rows, made, top);
    RoomWritten(s, made, r, area, lines, cursor, top);
  }

  /** How many rows a line takes does not depend on what is below. */
  lemma {:induction false} LaidAlike(l: Laid, m: Laid, glyphs: seq<Glyph>, width: nat)
    requires l.glyphs == m.glyphs && |l.done| == |m.done|
    ensures |LayAll(l, glyphs, width).done| == |LayAll(m, glyphs, width).done|
    decreases |glyphs|
  {
    if glyphs != [] { LaidAlike(Lay(l, glyphs[0], width), Lay(m, glyphs[0], width), glyphs[1..], width); }
  }

  lemma {:induction false} RenderedAlike(lines: seq<Line>, width: nat, room: nat, other: nat)
    ensures |RenderedAll(lines, width, room)| == |RenderedAll(lines, width, other)| >= |lines|
    decreases |lines|
  {
    if lines != [] {
      var line, rows, others := lines[0], Rendered(lines[0], width, room), Rendered(lines[0], width, other);
      var bg := line.style.bg.GetOr(Reset);
      LaidAlike(Laid([], [], bg, Less1(room)), Laid([], [], bg, Less1(other)),
                SpanGlyphs(line.spans, line.style, {}, {}), width);
      RenderedAlike(lines[1..], width, RoomLeft(room, |rows|), RoomLeft(other, |others|));
    }
  }

  lemma InsertionAppendsOnlyIf(s: Screen, area: Rect, lines: seq<Line>, cursor: Position)
    requires ViewportOk(s, area) && FullRegion(s) && s.pen == DEFAULT_PEN
    requires lines != [] && LinesOk(lines, area.width) && !RegionAccepted(s, area, RowCount(lines, s.width))
    ensures !Inserted(s, ExecAll(s, InsertOps(area, SizeOf(s), lines, cursor)), area, lines)
  {
    var rows, r := RowCount(lines, s.width), ExecAll(s, InsertOps(area, SizeOf(s), lines, cursor));
    var made := ExecAll(s, RoomOps(area, SizeOf(s), rows));
    assert area.y == Moved(area, SizeOf(s), rows).y == 1 && ScrollAmount(area, SizeOf(s), rows) == 0;
    InsertionSplits(s, area, lines, cursor, rows, made, 1);
    assert SameShape(s, made) && FullRegion(made) && made.pen == s.pen && HistoryTo(made, 1) == HistoryTo(s, 1) by {
      RoomMade(s, area, rows);
      HistoryCarried(s, made, 1, 0);
    }
    RefusedWritten(made, lines, cursor, s.width, r);
    assert |HistoryTo(s, 1) + HistoryRows(lines, s.width, 0)| > |HistoryTo(r, 1)|;
  }

  /** In a region that was refused the lines run into the viewport instead of the scrollback. */
  lemma RefusedWritten(s: Screen, lines: seq<Line>, cursor: Position, width: nat, r: Screen)
    requires ScreenOk(s) && FullRegion(s) && s.pen == DEFAULT_PEN && |s.rows| > 1 && !s.oneLineRegions
    requires lines != [] && LinesOk(lines, s.width)
    requires width == s.width && r == ExecAll(s, RegionOps(1, 0, lines, width, cursor))
    ensures |r.rows| > 0 && |HistoryTo(r, 1)| < |HistoryTo(s, 1)| + |RenderedAll(lines, s.width, 0)|
  {
    var ready := ExecAll(s, [SetScrollRegion(1, 1), MoveTo(0, 0)]);
    RegionReady(s, 1, 0);
    var done := ExecAll(ready, LinesOps(lines, s.width));
    LinesAppend(ready, lines, s.width, false);
    assert r.rows == done.rows && r.scrollback == done.scrollback by {
      RegionLeft(done, cursor);
      RegionRuns(s, 1, 0, lines, cursor);
    }
    RenderedAlike(lines, s.width, ready.bottom - ready.y, 0);
    RunsInto(ready, done, r, |RenderedAll(lines, s.width, 0)|, RenderedAll(lines, s.width, ready.bottom - ready.y));
  }

  lemma RunsInto(ready: Screen, done: Screen, r: Screen, count: nat, rows: seq<Row>)
    requires ScreenOk(ready) && ready.y == 0 && ready.bottom > 0 && Appended(ready, done, rows, false)
    requires |rows| == count > 0 && r.rows == done.rows && r.scrollback == done.scrollback
    ensures |r.rows| > 0 && |HistoryTo(r, 1)| < |HistoryTo(ready, 1)| + count
  {
    assert done.y > 0;
  }

  /** Insertion appends exactly when the region above the moved viewport is accepted: a viewport
      that leaves one row above itself and no room below needs a terminal with one-line regions. */
  lemma InsertionAppends(s: Screen, area: Rect, lines: seq<Line>, cursor: Position)
    requires ViewportOk(s, area) && FullRegion(s) && s.pen == DEFAULT_PEN
    requires lines != [] && LinesOk(lines, area.width)
    ensures Inserted(s, ExecAll(s, InsertOps(area, SizeOf(s), lines, cursor)), area, lines)
       <==> RegionAccepted(s, area, RowCount(lines, s.width))
  {
    if RegionAccepted(s, area, RowCount(lines, s.width)) {
      InsertionAppendsIf(s, area, lines, cursor);
    } else {
      InsertionAppendsOnlyIf(s, area, lines, cursor);
    }
  }

  /** A viewport of one row at the top of the screen has moved down: a blank row comes first, then the lines. */
  predicate TopInserted(s: Screen, r: Screen, area: Rect, lines: seq<Line>) {
    ScreenOk(s) &&
    var n := ScrollAmount(area, SizeOf(s), RowCount(lines, s.width));
    && SameShape(s, r) && FullRegion(r) && r.pen == DEFAULT_PEN && n < |r.rows| && r.rows[n] == s.rows[0]
    && HistoryTo(r, n) == HistoryTo(s, 0) + [BlankRow(s.width, Reset)] + HistoryRows(lines, s.width, Less1(n))
  }

  lemma TopInsertion(s: Screen, area: Rect, lines: seq<Line>, cursor: Position)
    requires OnScreen(s, area) && area.y == 0 && area.height == 1 && FullRegion(s) && s.pen == DEFAULT_PEN
    requires LinesOk(lines, area.width) && Moved(area, SizeOf(s), RowCount(lines, s.width)).y >= 1
    requires RegionAccepted(s, area, RowCount(lines, s.width))
    ensures TopInserted(s, ExecAll(s, InsertOps(area, SizeOf(s), lines, cursor)), area, lines)
  {
    var rows, r := RowCount(lines, s.width), ExecAll(s, InsertOps(area, SizeOf(s), lines, cursor));
    var made, top := ExecAll(s, RoomOps(area, SizeOf(s), rows)), Moved(area, SizeOf(s), rows).y;
    InsertionSplits(s, area, lines, cursor, rows, made, top);
    TopFilled(s, made, r, area, top, lines, cursor);
  }

  lemma TopFilled(s: Screen, made: Screen, r: Screen, area: Rect, top: nat, lines: seq<Line>, cursor: Position)
    requires OnScreen(s, area) && area.y == 0 && area.height == 1 && FullRegion(s) && s.pen == DEFAULT_PEN
    requires LinesOk(lines, s.width) && made == ExecAll(s, RoomOps(area, SizeOf(s), RowCount(lines, s.width)))
    requires top == ScrollAmount(area, SizeOf(s), RowCount(lines, s.width)) >= 1 && (top >= 2 || s.oneLineRegions)
    requires r == ExecAll(made, RegionOps(top, 0, lines, s.width, cursor))
    ensures TopInserted(s, r, area, lines)
  {
    AmountBound(area, SizeOf(s), RowCount(lines, s.width));
    RoomMade(s, area, RowCount(lines, s.width));
    BelowBlankRow(s, made, r, top, lines, cursor, HistoryRows(lines, s.width, Less1(top)));
  }

  lemma BelowBlankRow(s: Screen, made: Screen, r: Screen, top: nat, lines: seq<Line>, cursor: Position, added: seq<Row>)
    requires ScreenOk(s) && s.pen == DEFAULT_PEN && 1 <= top < |s.rows| && LinesOk(lines, s.width)
    requires top >= 2 || s.oneLineRegions
    requires MovedDown(s, made, 0, top) && FullRegion(made) && BlankRows(made, 0, top, Reset)
    requires r == ExecAll(made, RegionOps(top, 0, lines, s.width, cursor))
    requires added == HistoryRows(lines, s.width, Less1(top))
    ensures SameShape(s, r) && FullRegion(r) && r.pen == DEFAULT_PEN && r.rows[top] == s.rows[0]
    ensures HistoryTo(r, top) == HistoryTo(s, 0) + [BlankRow(s.width, Reset)] + added
  {
    assert BlankRows(made, 1, top - 1, Reset);
    RoomFilled(made, top, 0, top - 1, lines, cursor, s.width, r);
    TopWritten(s, made, r, top, lines, added);
  }

  lemma TopWritten(s: Screen, made: Screen, r: Screen, top: nat, lines: seq<Line>, added: seq<Row>)
    requires ScreenOk(s) && MovedDown(s, made, 0, top) && BlankRows(made, 0, top, Reset)
    requires 1 <= top < |s.rows| && RegionWritten(made, r, top - 1, 0, lines)
    requires added == HistoryRows(lines, s.width, top - 1)
    ensures r.rows[top] == s.rows[0]
    ensures HistoryTo(r, top) == HistoryTo(s, 0) + [BlankRow(s.width, Reset)] + added
  {
    assert r.rows[top] == r.rows[top..][0] == made.rows[top..][0] == made.rows[0 + top];
    assert made.rows[..1] == [BlankRow(s.width, Reset)] && s.rows[..0] == [];
    assert HistoryTo(made, 1) == HistoryTo(s, 0) + [BlankRow(s.width, Reset)];
  }

  /** Without room above or below nothing is written. */
  lemma NothingInserted(s: Screen, area: Rect, lines: seq<Line>, cursor: Position)
    requires OnScreen(s, area) && FullRegion(s) && s.pen == DEFAULT_PEN
    requires Moved(area, SizeOf(s), RowCount(lines, s.width)).y == 0
    ensures var r := ExecAll(s, InsertOps(area, SizeOf(s), lines, cursor));
      && SameShape(s, r) && FullRegion(r) && r.pen == DEFAULT_PEN && r.rows == s.rows && r.scrollback == s.scrollback
  {
    var rows := RowCount(lines, s.width);
    RoomMade(s, area, rows);
    var ops := RoomOps(area, SizeOf(s), rows);
    assert ops + [] == ops;
    var r := ExecAll(s, ops);
    assert forall k :: 0 <= k < |s.rows| ==> r.rows[k + 0] == s.rows[k];
  }
}
