/** Boxed tables: column widths, their clamping to the available width, cells and borders. Text is a
    sequence of glyphs with a display width each. */
module TableLayout {
  import opened Wrappers

  datatype Glyph = Glyph(symbol: char, width: nat)
  type Glyphs = seq<Glyph>

  datatype Alignment = Left | Center | Right | Unset

  const BLANK := Glyph(' ', 1)
  const BAR := Glyph('\U{2502}', 1)
  const FILL := Glyph('\U{2500}', 1)
  const MIN_WIDTH := 3

  function Sum(widths: seq<nat>): nat {
    if widths == [] then 0 else widths[0] + Sum(widths[1..])
  }

  function Width(text: Glyphs): nat {
    if text == [] then 0 else text[0].width + Width(text[1..])
  }

  /** The width of the rendered table. */
  function Total(widths: seq<nat>): nat { 1 + 3 * |widths| + Sum(widths) }

  // ---------- clamping ----------

  /** The columns of at least `level` are cut to it, those among them left of `cut` to one less. */
  function Level(widths: seq<nat>, level: nat, cut: nat): seq<nat>
    requires level > 0
  {
    seq(|widths|, i requires 0 <= i < |widths| =>
      if widths[i] < level then widths[i] else if i < cut then level - 1 else level)
  }

  ghost predicate Levelled(widths: seq<nat>, result: seq<nat>) {
    exists level: nat, cut: nat :: level > MIN_WIDTH && result == Level(widths, level, cut)
  }

  /** What clamping promises. */
  ghost predicate Clamped(widths: seq<nat>, result: seq<nat>, maxWidth: nat) {
    if Total(widths) <= maxWidth || 1 + 3 * |widths| + MIN_WIDTH * |widths| > maxWidth then result == widths
    else Total(result) == maxWidth && Levelled(widths, result)
  }

  lemma {:induction false} SumUpdate(s: seq<nat>, i: nat, v: nat)
    requires i < |s|
    ensures Sum(s[i := v]) == Sum(s) - s[i] + v
  {
    if i == 0 {
      assert s[i := v][1..] == s[1..];
    } else {
      SumUpdate(s[1..], i - 1, v);
      assert s[i := v][1..] == s[1..][i - 1 := v];
    }
  }

  lemma {:induction false} SumAtMost(s: seq<nat>, bound: nat)
    requires forall i :: 0 <= i < |s| ==> s[i] <= bound
    ensures Sum(s) <= bound * |s|
  {
    if s != [] { SumAtMost(s[1..], bound); }
  }

  /** The leftmost of the widest columns, if wider than the minimum. */
  method Widest(widths: array<nat>) returns (at: Option<nat>)
    ensures at.None? ==> forall i :: 0 <= i < widths.Length ==> widths[i] <= MIN_WIDTH
    ensures at.Some? ==> at.value < widths.Length && widths[at.value] > MIN_WIDTH
    ensures at.Some? ==> forall i :: 0 <= i < widths.Length ==> widths[i] <= widths[at.value]
    ensures at.Some? ==> forall i :: 0 <= i < at.value ==> widths[i] < widths[at.value]
  {
    at := None;
    var widest := MIN_WIDTH;
    for i := 0 to widths.Length
      invariant widest >= MIN_WIDTH && forall k :: 0 <= k < i ==> widths[k] <= widest
      invariant at.None? ==> widest == MIN_WIDTH
      invariant at.Some? ==> at.value < i && widths[at.value] == widest > MIN_WIDTH
      invariant at.Some? ==> forall k :: 0 <= k < at.value ==> widths[k] < widest
    {
      if widths[i] > widest {
        widest, at := widths[i], Some(i);
      }
    }
  }

  /** One less for the leftmost of the widest keeps the columns levelled. */
  lemma LevelDown(widths: seq<nat>, current: seq<nat>, i: nat)
    requires Levelled(widths, current) || current == widths
    requires i < |current| && current[i] > MIN_WIDTH
    requires forall k :: 0 <= k < |current| ==> current[k] <= current[i]
    requires forall k :: 0 <= k < i ==> current[k] < current[i]
    ensures Levelled(widths, current[i := current[i] - 1])
  {
    var next := current[i := current[i] - 1];
    assert next == Level(widths, current[i], i + 1);
  }

  method ClampTableWidths(widths: array<nat>, maxWidth: nat)
    modifies widths
    ensures Clamped(old(widths[..]), widths[..], maxWidth)
  {
    var n := widths.Length;
    if n == 0 {
      return;
    }
    var total := 1 + 3 * n;
    for i := 0 to n
      invariant total + Sum(widths[i..]) == Total(widths[..])
    {
      total := total + widths[i];
    }
    if total <= maxWidth {
      return;
    }
    if 1 + 3 * n + MIN_WIDTH * n > maxWidth {
      return;
    }
    ghost var before := widths[..];
    while total > maxWidth
      invariant maxWidth <= total == Total(widths[..])
      invariant Levelled(before, widths[..]) || (widths[..] == before && total > maxWidth)
    {
      var at := Widest(widths);
      if at.None? {
        SumAtMost(widths[..], MIN_WIDTH);
        assert false;
      }
      var i := at.value;
      LevelDown(before, widths[..], i);
      SumUpdate(widths[..], i, widths[i] - 1);
      ghost var next := widths[..][i := widths[i] - 1];
      widths[i] := widths[i] - 1;
      assert widths[..] == next;
      total := total - 1;
    }
  }

  // ---------- what clamping means ----------

  lemma {:induction false} SumBetween(v: seq<nat>, w: seq<nat>)
    requires |v| == |w| && forall i :: 0 <= i < |v| ==> v[i] <= w[i]
    ensures Sum(v) <= Sum(w) && (Sum(v) == Sum(w) ==> v == w)
  {
    if v != [] {
      SumBetween(v[1..], w[1..]);
      assert v == [v[0]] + v[1..] && w == [w[0]] + w[1..];
    }
  }

  /** Between the minimum and the original; a column that gave way is within one of the widest. */
  lemma ClampedBounds(widths: seq<nat>, result: seq<nat>, maxWidth: nat, i: nat)
    requires Clamped(widths, result, maxWidth) && i < |widths|
    ensures |result| == |widths| && result[i] <= widths[i]
    ensures result[i] >= MIN_WIDTH || result[i] == widths[i]
    ensures result[i] < widths[i] ==> forall j :: 0 <= j < |result| ==> result[j] <= result[i] + 1
  {
  }

  /** No other widths with that total, none wider than the original, have a smaller maximum. */
  lemma ClampedMinMax(widths: seq<nat>, result: seq<nat>, maxWidth: nat, other: seq<nat>, i: nat)
    requires Clamped(widths, result, maxWidth) && |other| == |widths| && i < |result|
    requires Sum(other) == Sum(result) && forall k :: 0 <= k < |other| ==> other[k] <= widths[k]
    ensures exists j :: 0 <= j < |other| && other[j] >= result[i]
  {
    if forall j :: 0 <= j < |other| ==> other[j] < result[i] {
      SumBetween(other, result);
    }
  }

  lemma LevelsOrdered(widths: seq<nat>, high: nat, highCut: nat, low: nat, lowCut: nat)
    requires high > low > 0 || (high == low > 0 && highCut <= lowCut)
    requires Sum(Level(widths, high, highCut)) == Sum(Level(widths, low, lowCut))
    ensures Level(widths, high, highCut) == Level(widths, low, lowCut)
  {
    SumBetween(Level(widths, low, lowCut), Level(widths, high, highCut));
  }

  /** The promise leaves one result. */
  lemma ClampedUnique(widths: seq<nat>, one: seq<nat>, two: seq<nat>, maxWidth: nat)
    requires Clamped(widths, one, maxWidth) && Clamped(widths, two, maxWidth)
    ensures one == two
  {
    if one != widths || two != widths {
      if Levelled(widths, one) && Levelled(widths, two) {
        var a: nat, b: nat :| a > MIN_WIDTH && one == Level(widths, a, b);
        var c: nat, d: nat :| c > MIN_WIDTH && two == Level(widths, c, d);
        if a > c || (a == c && b <= d) {
          LevelsOrdered(widths, a, b, c, d);
        } else {
          LevelsOrdered(widths, c, d, a, b);
        }
      }
    }
  }

  // ---------- cells ----------

  function Blanks(n: nat): (r: Glyphs)
    ensures |r| == n && Width(r) == n
  {
    if n == 0 then [] else [BLANK] + Blanks(n - 1)
  }

  function Untabbed(text: Glyphs): Glyphs {
    if text == [] then [] else [if text[0].symbol == '\t' then BLANK else text[0]] + Untabbed(text[1..])
  }

  /** The longest prefix that fits. */
  function Truncated(text: Glyphs, maxWidth: nat): Glyphs {
    if text == [] || text[0].width > maxWidth then [] else [text[0]] + Truncated(text[1..], maxWidth - text[0].width)
  }

  method TruncateToWidth(text: Glyphs, maxWidth: nat) returns (out: Glyphs)
    ensures out == Truncated(text, maxWidth)
  {
    if Width(text) <= maxWidth {
      TruncatedFits(text, maxWidth);
      return text;
    }
    out := [];
    var width := 0;
    for i := 0 to |text|
      invariant width <= maxWidth && out + Truncated(text[i..], maxWidth - width) == Truncated(text, maxWidth)
    {
      if width + text[i].width > maxWidth {
        break;
      }
      ghost var rest := Truncated(text[i + 1..], maxWidth - width - text[i].width);
      assert text[i..][1..] == text[i + 1..] && out + ([text[i]] + rest) == out + [text[i]] + rest;
      out := out + [text[i]];
      width := width + text[i].width;
    }
  }

  lemma {:induction false} TruncatedFits(text: Glyphs, maxWidth: nat)
    requires Width(text) <= maxWidth
    ensures Truncated(text, maxWidth) == text
  {
    if text != [] { TruncatedFits(text[1..], maxWidth - text[0].width); }
  }

  lemma {:induction false} WidthAppend(a: Glyphs, b: Glyphs)
    ensures Width(a + b) == Width(a) + Width(b)
  {
    if a == [] {
      assert a + b == b;
    } else {
      assert (a + b)[1..] == a[1..] + b;
      WidthAppend(a[1..], b);
    }
  }

  /** A prefix that fits, and every prefix that fits is one of it. */
  lemma {:induction false} TruncatedLongest(text: Glyphs, maxWidth: nat, n: nat)
    requires n <= |text|
    ensures Truncated(text, maxWidth) <= text && Width(Truncated(text, maxWidth)) <= maxWidth
    ensures Width(text[..n]) <= maxWidth ==> n <= |Truncated(text, maxWidth)|
  {
    if text != [] {
      assert n > 0 ==> text[..n][1..] == text[1..][..n - 1];
      if text[0].width <= maxWidth {
        TruncatedLongest(text[1..], maxWidth - text[0].width, if n > 0 then n - 1 else 0);
      }
    }
  }

  function Before(padding: nat, alignment: Alignment): (left: nat)
    ensures left <= padding
  {
    match alignment case Center => padding / 2 case Right => padding case _ => 0
  }

  function PadCell(text: Glyphs, width: nat, alignment: Alignment): Glyphs {
    var content := Truncated(Untabbed(text), width);
    TruncatedLongest(Untabbed(text), width, 0);
    var padding := width - Width(content);
    var left := Before(padding, alignment);
    Blanks(left) + content + Blanks(padding - left)
  }

  /** A cell is exactly as wide as its column. */
  lemma PadCellWidth(text: Glyphs, width: nat, alignment: Alignment)
    ensures Width(PadCell(text, width, alignment)) == width
  {
    var content := Truncated(Untabbed(text), width);
    TruncatedLongest(Untabbed(text), width, 0);
    var padding := width - Width(content);
    var left := Before(padding, alignment);
    WidthAppend(Blanks(left), content);
    WidthAppend(Blanks(left) + content, Blanks(padding - left));
  }

  lemma {:induction false} Padded(text: Glyphs, width: nat, alignment: Alignment, content: Glyphs, left: nat,
                                  right: nat)
    requires content == Truncated(Untabbed(text), width) && left + right == width - Width(content)
    requires left == Before(left + right, alignment)
    ensures PadCell(text, width, alignment) == Blanks(left) + content + Blanks(right)
  {
  }

  method RenderCell(text: Glyphs, width: nat, alignment: Alignment) returns (cell: Glyphs)
    ensures cell == PadCell(text, width, alignment)
  {
    var content := Untabbed(text);
    TruncatedLongest(content, width, 0);
    if Width(content) > width {
      content := TruncateToWidth(content, width);
    } else {
      TruncatedFits(content, width);
    }
    var padding := if width > Width(content) then width - Width(content) else 0;
    var left, right := 0, padding;
    match alignment {
      case Center => left, right := padding / 2, padding - padding / 2;
      case Right => left, right := padding, 0;
      case _ =>
    }
    Padded(text, width, alignment, content, left, right);
    cell := Blanks(left) + content + Blanks(right);
  }

  // ---------- the table ----------

  type Row = seq<Glyphs>

  function CellOf(row: Row, i: nat): Glyphs { if i < |row| then row[i] else [] }

  function AlignmentOf(alignments: seq<Alignment>, i: nat): Alignment {
    if i < |alignments| then alignments[i] else Left
  }

  function ColumnCount(rows: seq<Row>): nat {
    if rows == [] then 0 else Max(ColumnCount(rows[..|rows| - 1]), |rows[|rows| - 1]|)
  }

  /** The widest cell of a column. */
  function ColumnWidth(rows: seq<Row>, i: nat): nat {
    if rows == [] then 0 else Max(ColumnWidth(rows[..|rows| - 1], i), Width(CellOf(rows[|rows| - 1], i)))
  }

  function NaturalWidths(rows: seq<Row>): seq<nat> {
    seq(ColumnCount(rows), i requires 0 <= i < ColumnCount(rows) => Max(ColumnWidth(rows, i), MIN_WIDTH))
  }

  function Fills(n: nat): (r: Glyphs)
    ensures |r| == n && Width(r) == n
  {
    if n == 0 then [] else [FILL] + Fills(n - 1)
  }

  function BorderFrom(widths: seq<nat>, mid: Glyph): Glyphs {
    if widths == [] then []
      else Fills(widths[0] + 2) + (if |widths| > 1 then [mid] else []) + BorderFrom(widths[1..], mid)
  }

  function Border(widths: seq<nat>, left: char, mid: char, right: char): Glyphs {
    [Glyph(left, 1)] + BorderFrom(widths, Glyph(mid, 1)) + [Glyph(right, 1)]
  }

  method RenderTableBorder(widths: seq<nat>, left: char, mid: char, right: char) returns (s: Glyphs)
    ensures s == Border(widths, left, mid, right)
  {
    s := [Glyph(left, 1)];
    for i := 0 to |widths|
      invariant s + BorderFrom(widths[i..], Glyph(mid, 1)) == [Glyph(left, 1)] + BorderFrom(widths, Glyph(mid, 1))
    {
      ghost var (before, rest) := (s, BorderFrom(widths[i + 1..], Glyph(mid, 1)));
      for j := 0 to widths[i] + 2
        invariant s == before + Fills(j)
      {
        FillsSnoc(j);
        s := s + [FILL];
      }
      assert widths[i..][1..] == widths[i + 1..];
      if i + 1 < |widths| {
        s := s + [Glyph(mid, 1)];
      }
      BorderStep(before, widths[i] + 2, if i + 1 < |widths| then [Glyph(mid, 1)] else [], rest);
    }
    s := s + [Glyph(right, 1)];
  }

  lemma {:induction false} FillsSnoc(n: nat)
    ensures Fills(n) + [FILL] == Fills(n + 1)
  {
    if n > 0 { FillsSnoc(n - 1); }
  }

  lemma BorderStep(before: Glyphs, n: nat, mid: Glyphs, rest: Glyphs)
    ensures before + (Fills(n) + mid + rest) == before + Fills(n) + mid + rest
    ensures before + Fills(n) + [] == before + Fills(n)
  {
  }

  function RowFrom(row: Row, widths: seq<nat>, alignments: seq<Alignment>, i: nat): Glyphs
    decreases |widths| - i
  {
    if i >= |widths| then []
    else
      [BLANK] + PadCell(CellOf(row, i), widths[i], AlignmentOf(alignments, i)) + [BLANK] + [BAR]
      + RowFrom(row, widths, alignments, i + 1)
  }

  function RowLine(row: Row, widths: seq<nat>, alignments: seq<Alignment>): Glyphs {
    [BAR] + RowFrom(row, widths, alignments, 0)
  }

  method RenderRow(row: Row, widths: seq<nat>, alignments: seq<Alignment>) returns (line: Glyphs)
    ensures line == RowLine(row, widths, alignments)
  {
    line := [BAR];
    for i := 0 to |widths|
      invariant line + RowFrom(row, widths, alignments, i) == RowLine(row, widths, alignments)
    {
      var text: Glyphs := if i < |row| then row[i] else [];
      var padded := RenderCell(text, widths[i], AlignmentOf(alignments, i));
      RowStep(line, padded, RowFrom(row, widths, alignments, i + 1));
      line := line + ([BLANK] + padded + [BLANK]) + [BAR];
    }
  }

  lemma RowStep(line: Glyphs, padded: Glyphs, rest: Glyphs)
    ensures line + ([BLANK] + padded + [BLANK] + [BAR] + rest) == line + ([BLANK] + padded + [BLANK]) + [BAR] + rest
  {
  }

  function HeaderRows(rows: seq<Row>, declared: nat): nat {
    if declared > 0 then (if declared <= |rows| then declared else |rows|) else if |rows| > 1 then 1 else 0
  }

  function Separator(widths: seq<nat>): Glyphs { Border(widths, '\U{251C}', '\U{253C}', '\U{2524}') }

  /** The lines of the rows from the i-th on, with the separator that follows the header. */
  function RowsFrom(rows: seq<Row>, header: nat, widths: seq<nat>, alignments: seq<Alignment>, i: nat): seq<Glyphs>
    decreases |rows| - i
  {
    if i >= |rows| then []
    else
      [RowLine(rows[i], widths, alignments)]
      + (if header > 0 && i + 1 == header && i + 1 < |rows| then [Separator(widths)] else [])
      + RowsFrom(rows, header, widths, alignments, i + 1)
  }

  function TableLines(rows: seq<Row>, header: nat, widths: seq<nat>, alignments: seq<Alignment>): seq<Glyphs> {
    [Border(widths, '\U{250C}', '\U{252C}', '\U{2510}')] + RowsFrom(rows, header, widths, alignments, 0)
    + [Border(widths, '\U{2514}', '\U{2534}', '\U{2518}')]
  }

  /** What is left of the wrap width beside the prefix of the line. */
  function Available(maxWidth: nat, prefixWidth: nat): nat {
    if maxWidth > prefixWidth then maxWidth - prefixWidth else 1
  }

  method MeasureColumns(rows: seq<Row>) returns (widths: array<nat>)
    ensures fresh(widths) && widths[..] == NaturalWidths(rows)
  {
    var n := 0;
    for r := 0 to |rows|
      invariant n == ColumnCount(rows[..r])
    {
      assert rows[..r + 1][..r] == rows[..r];
      n := Max(n, |rows[r]|);
    }
    assert rows[..|rows|] == rows;
    widths := new nat[n](_ => 0);
    for r := 0 to |rows|
      invariant forall i :: 0 <= i < n ==> widths[i] == ColumnWidth(rows[..r], i)
    {
      assert rows[..r + 1][..r] == rows[..r];
      for c := 0 to |rows[r]|
        invariant forall i :: 0 <= i < n ==>
          widths[i] == if i < c then ColumnWidth(rows[..r + 1], i) else ColumnWidth(rows[..r], i)
      {
        if c < n {
          widths[c] := Max(widths[c], Width(rows[r][c]));
        }
      }
    }
    for i := 0 to n
      invariant forall k :: 0 <= k < n ==>
        widths[k] == if k < i then Max(ColumnWidth(rows, k), MIN_WIDTH) else ColumnWidth(rows, k)
    {
      widths[i] := Max(widths[i], MIN_WIDTH);
    }
  }

  /** `wrap` holds the wrap width and the width of the line prefix. */
  method EndTable(rows: seq<Row>, declaredHeader: nat, alignments: seq<Alignment>, wrap: Option<(nat, nat)>)
    returns (lines: seq<Glyphs>, ghost columns: seq<nat>)
    ensures ColumnCount(rows) == 0 ==> lines == []
    ensures ColumnCount(rows) > 0 ==> lines == TableLines(rows, HeaderRows(rows, declaredHeader), columns, alignments)
    ensures ColumnCount(rows) > 0 && wrap.None? ==> columns == NaturalWidths(rows)
    ensures ColumnCount(rows) > 0 && wrap.Some?
      ==> Clamped(NaturalWidths(rows), columns, Available(wrap.value.0, wrap.value.1))
  {
    lines, columns := [], [];
    var columnWidths := MeasureColumns(rows);
    if rows == [] || columnWidths.Length == 0 {
      return;
    }
    if wrap.Some? {
      ClampTableWidths(columnWidths, Max(if wrap.value.0 > wrap.value.1 then wrap.value.0 - wrap.value.1 else 0, 1));
    }
    var widths: seq<nat> := columnWidths[..];
    columns := widths;
    var line := RenderTableBorder(widths, '\U{250C}', '\U{252C}', '\U{2510}');
    lines := [line];
    var rowLines := RenderRows(rows, HeaderRows(rows, declaredHeader), widths, alignments);
    lines := lines + rowLines;
    line := RenderTableBorder(widths, '\U{2514}', '\U{2534}', '\U{2518}');
    lines := lines + [line];
  }

  method RenderRows(rows: seq<Row>, header: nat, widths: seq<nat>, alignments: seq<Alignment>)
    returns (lines: seq<Glyphs>)
    ensures lines == RowsFrom(rows, header, widths, alignments, 0)
  {
    lines := [];
    for i := 0 to |rows|
      invariant lines + RowsFrom(rows, header, widths, alignments, i) == RowsFrom(rows, header, widths, alignments, 0)
    {
      ghost var (before, rest) := (lines, RowsFrom(rows, header, widths, alignments, i + 1));
      var line := RenderRow(rows[i], widths, alignments);
      lines := lines + [line];
      if header > 0 && i + 1 == header && i + 1 < |rows| {
        var separator := RenderTableBorder(widths, '\U{251C}', '\U{253C}', '\U{2524}');
        lines := lines + [separator];
      }
      LinesStep(before, [line],
                if header > 0 && i + 1 == header && i + 1 < |rows| then [Separator(widths)] else [], rest);
    }
  }

  lemma LinesStep(before: seq<Glyphs>, line: seq<Glyphs>, separator: seq<Glyphs>, rest: seq<Glyphs>)
    ensures before + (line + separator + rest) == before + line + separator + rest
    ensures before + line + [] == before + line
  {
  }

  // ---------- what the table looks like ----------

  lemma {:induction false} BorderFromWidth(widths: seq<nat>, mid: Glyph)
    requires mid.width == 1 && widths != []
    ensures Width(BorderFrom(widths, mid)) == 3 * |widths| - 1 + Sum(widths)
  {
    var middle := if |widths| > 1 then [mid] else [];
    WidthAppend(Fills(widths[0] + 2), middle);
    WidthAppend(Fills(widths[0] + 2) + middle, BorderFrom(widths[1..], mid));
    if |widths| > 1 { BorderFromWidth(widths[1..], mid); }
  }

  lemma BorderWidth(widths: seq<nat>, left: char, mid: char, right: char)
    requires widths != []
    ensures Width(Border(widths, left, mid, right)) == Total(widths)
  {
    BorderFromWidth(widths, Glyph(mid, 1));
    var inner := BorderFrom(widths, Glyph(mid, 1));
    WidthAppend([Glyph(left, 1)], inner);
    WidthAppend([Glyph(left, 1)] + inner, [Glyph(right, 1)]);
  }

  lemma {:induction false} RowFromWidth(row: Row, widths: seq<nat>, alignments: seq<Alignment>, i: nat)
    requires i <= |widths|
    ensures Width(RowFrom(row, widths, alignments, i)) == 3 * (|widths| - i) + Sum(widths[i..])
    decreases |widths| - i
  {
    if i < |widths| {
      RowFromWidth(row, widths, alignments, i + 1);
      var cell := PadCell(CellOf(row, i), widths[i], AlignmentOf(alignments, i));
      PadCellWidth(CellOf(row, i), widths[i], AlignmentOf(alignments, i));
      WidthAppend([BLANK], cell);
      WidthAppend([BLANK] + cell, [BLANK]);
      WidthAppend([BLANK] + cell + [BLANK], [BAR]);
      WidthAppend([BLANK] + cell + [BLANK] + [BAR], RowFrom(row, widths, alignments, i + 1));
      assert widths[i..][1..] == widths[i + 1..];
    }
  }

  lemma {:induction false} RowsWidth(rows: seq<Row>, header: nat, widths: seq<nat>, alignments: seq<Alignment>, i: nat)
    requires widths != []
    ensures forall line | line in RowsFrom(rows, header, widths, alignments, i) :: Width(line) == Total(widths)
    decreases |rows| - i
  {
    if i < |rows| {
      RowFromWidth(rows[i], widths, alignments, 0);
      assert widths[0..] == widths;
      WidthAppend([BAR], RowFrom(rows[i], widths, alignments, 0));
      BorderWidth(widths, '\U{251C}', '\U{253C}', '\U{2524}');
      RowsWidth(rows, header, widths, alignments, i + 1);
    }
  }

  /** Every border and every row is exactly as wide as the columns say. */
  lemma TableEven(rows: seq<Row>, header: nat, widths: seq<nat>, alignments: seq<Alignment>)
    requires widths != []
    ensures forall line | line in TableLines(rows, header, widths, alignments) :: Width(line) == Total(widths)
  {
    BorderWidth(widths, '\U{250C}', '\U{252C}', '\U{2510}');
    BorderWidth(widths, '\U{2514}', '\U{2534}', '\U{2518}');
    RowsWidth(rows, header, widths, alignments, 0);
  }

  /** The clamped table fits exactly when the narrowest one would. */
  lemma TableFits(rows: seq<Row>, header: nat, widths: seq<nat>, alignments: seq<Alignment>, available: nat)
    requires ColumnCount(rows) > 0 && Clamped(NaturalWidths(rows), widths, available)
    ensures (forall line | line in TableLines(rows, header, widths, alignments) :: Width(line) <= available)
      <==> 1 + 3 * |widths| + MIN_WIDTH * |widths| <= available
  {
    var natural := NaturalWidths(rows);
    assert |widths| == |natural|;
    TableEven(rows, header, widths, alignments);
    AtLeastMinimum(natural);
    assert TableLines(rows, header, widths, alignments)[0] in TableLines(rows, header, widths, alignments);
  }

  lemma {:induction false} AtLeastMinimum(widths: seq<nat>)
    requires forall i :: 0 <= i < |widths| ==> widths[i] >= MIN_WIDTH
    ensures Sum(widths) >= MIN_WIDTH * |widths|
  {
    if widths != [] { AtLeastMinimum(widths[1..]); }
  }
}
