/** What a table shows: which text stands where, and that bars and joints stand above each other. */
module TableProofs {
  import opened Wrappers
  import opened TableLayout

  // ---------- the widths ----------

  lemma {:induction false} ColumnWidthIs(rows: seq<Row>, i: nat)
    ensures forall row :: row in rows && i < |row| ==> Width(row[i]) <= ColumnWidth(rows, i)
    ensures ColumnWidth(rows, i) == 0 || exists row :: row in rows && i < |row| && Width(row[i]) == ColumnWidth(rows, i)
  {
    if rows != [] {
      var front, last := rows[..|rows| - 1], rows[|rows| - 1];
      ColumnWidthIs(front, i);
      assert rows == front + [last];
    }
  }

  lemma {:induction false} ColumnCountIs(rows: seq<Row>)
    ensures forall row :: row in rows ==> |row| <= ColumnCount(rows)
    ensures rows != [] ==> exists row :: row in rows && |row| == ColumnCount(rows)
  {
    if rows != [] {
      var front, last := rows[..|rows| - 1], rows[|rows| - 1];
      ColumnCountIs(front);
      assert rows == front + [last];
    }
  }

  /** As many columns as the longest row has; each wide enough for all its cells, and no wider than one of
      them or the minimum. */
  lemma NaturalWidthIs(rows: seq<Row>, i: nat)
    requires i < |NaturalWidths(rows)|
    ensures var width := NaturalWidths(rows)[i];
      && width >= 3 && (forall row :: row in rows && i < |row| ==> Width(row[i]) <= width)
      && (width == 3 || exists row :: row in rows && i < |row| && Width(row[i]) == width)
    ensures forall row :: row in rows ==> |row| <= |NaturalWidths(rows)|
    ensures exists row :: row in rows && |row| == |NaturalWidths(rows)|
  {
    ColumnWidthIs(rows, i);
    ColumnCountIs(rows);
  }

  // ---------- cells ----------

  /** A tab becomes a blank; nothing else changes. */
  lemma {:induction false} UntabbedAt(text: Glyphs, i: nat)
    requires i < |text|
    ensures |Untabbed(text)| == |text|
    ensures Untabbed(text)[i] == if text[i].symbol == '\t' then Glyph(' ', 1) else text[i]
  {
    if |text| > 1 { UntabbedAt(text[1..], if i > 0 then i - 1 else 0); }
  }

  /** The text of a cell, and the blanks around it: behind it, before it, or on both sides and never differing
      by more than one, the larger part behind. */
  lemma CellPlaced(text: Glyphs, width: nat, alignment: Alignment) returns (content: Glyphs, left: nat, right: nat)
    ensures PadCell(text, width, alignment) == Blanks(left) + content + Blanks(right)
    ensures left + Width(content) + right == width
    ensures content <= Untabbed(text) && (Width(Untabbed(text)) <= width ==> content == Untabbed(text))
    ensures alignment == Left || alignment == Unset ==> left == 0
    ensures alignment == Right ==> right == 0
    ensures alignment == Center ==> left <= right <= left + 1
  {
    content := Truncated(Untabbed(text), width);
    TruncatedLongest(Untabbed(text), width, |Untabbed(text)|);
    assert Untabbed(text)[..|Untabbed(text)|] == Untabbed(text);
    var padding: nat := width - Width(content);
    left := Before(padding, alignment);
    right := padding - left;
    Padded(text, width, alignment, content, left, right);
  }

  // ---------- rows ----------

  /** The width of the columns left of column i, with what stands between them. */
  function Offset(widths: seq<nat>, i: nat): nat
    requires i <= |widths|
  {
    3 * i + Sum(widths[..i])
  }

  lemma {:induction false} SumSnoc(widths: seq<nat>, w: nat)
    ensures Sum(widths + [w]) == Sum(widths) + w
  {
    if widths == [] {
      assert Sum([w]) == w + Sum([w][1..]);
    } else {
      assert (widths + [w])[1..] == widths[1..] + [w];
      SumSnoc(widths[1..], w);
    }
  }

  lemma OffsetNext(widths: seq<nat>, i: nat)
    requires i < |widths|
    ensures Offset(widths, i + 1) == Offset(widths, i) + widths[i] + 3 && Offset(widths, 0) == 0
  {
    assert widths[..i + 1] == widths[..i] + [widths[i]];
    SumSnoc(widths[..i], widths[i]);
  }

  /** A cell of a row, with a blank on either side, between bars; missing cells are empty. */
  function BoxedCell(row: Row, widths: seq<nat>, alignments: seq<Alignment>, i: nat): Glyphs
    requires i < |widths|
  {
    var text := if i < |row| then row[i] else [];
    var alignment := if i < |alignments| then alignments[i] else Left;
    [BLANK] + PadCell(text, widths[i], alignment) + [BLANK]
  }

  lemma {:induction false} RowSplits(row: Row, widths: seq<nat>, alignments: seq<Alignment>, k: nat, i: nat)
    returns (before: Glyphs, after: Glyphs)
    requires k <= i < |widths|
    ensures [BAR] + RowFrom(row, widths, alignments, k) ==
      before + ([BAR] + BoxedCell(row, widths, alignments, i) + [BAR]) + after
    ensures Offset(widths, k) + Width(before) == Offset(widths, i)
    decreases i - k
  {
    var boxed, rest := BoxedCell(row, widths, alignments, k), RowFrom(row, widths, alignments, k + 1);
    assert RowFrom(row, widths, alignments, k) == boxed + [BAR] + rest;
    if k == i {
      before, after := [], rest;
      Surrounded([BAR], boxed, rest);
    } else {
      var more;
      more, after := RowSplits(row, widths, alignments, k + 1, i);
      before := [BAR] + boxed + more;
      BoxedWidth(row, widths, alignments, k);
      OffsetNext(widths, k);
      Lengthened([BAR], boxed, rest, more, [BAR] + BoxedCell(row, widths, alignments, i) + [BAR], after);
    }
  }

  lemma Surrounded(bar: Glyphs, boxed: Glyphs, rest: Glyphs)
    ensures bar + (boxed + bar + rest) == [] + (bar + boxed + bar) + rest && Width([]) == 0
  {
  }

  lemma Lengthened(bar: Glyphs, boxed: Glyphs, rest: Glyphs, more: Glyphs, part: Glyphs, after: Glyphs)
    requires bar + rest == more + part + after && Width(bar) == 1
    ensures bar + (boxed + bar + rest) == (bar + boxed + more) + part + after
    ensures Width(bar + boxed + more) == 1 + Width(boxed) + Width(more)
  {
    var lead := bar + boxed;
    assert bar + (boxed + bar + rest) == lead + (bar + rest);
    assert lead + (more + part + after) == (lead + more) + part + after;
    WidthAppend(lead, more);
    WidthAppend(bar, boxed);
  }

  lemma BoxedWidth(row: Row, widths: seq<nat>, alignments: seq<Alignment>, i: nat)
    requires i < |widths|
    ensures Width(BoxedCell(row, widths, alignments, i)) == widths[i] + 2
  {
    var text := if i < |row| then row[i] else [];
    var alignment := if i < |alignments| then alignments[i] else Left;
    PadCellWidth(text, widths[i], alignment);
    WidthAppend([BLANK], PadCell(text, widths[i], alignment));
    WidthAppend([BLANK] + PadCell(text, widths[i], alignment), [BLANK]);
  }

  /** Column i of a row shows its i-th cell, at the place where column i begins in every line. */
  lemma RowShowsCell(row: Row, widths: seq<nat>, alignments: seq<Alignment>, i: nat)
    returns (before: Glyphs, after: Glyphs)
    requires i < |widths|
    ensures RowLine(row, widths, alignments) ==
      before + ([Glyph('\U{2502}', 1)] + BoxedCell(row, widths, alignments, i) + [Glyph('\U{2502}', 1)]) + after
    ensures Width(before) == Offset(widths, i)
  {
    before, after := RowSplits(row, widths, alignments, 0, i);
    OffsetNext(widths, 0);
  }

  // ---------- borders ----------

  lemma {:induction false} BorderSplits(widths: seq<nat>, mid: Glyph, i: nat, last: Glyph)
    returns (before: Glyphs, after: Glyphs)
    requires i < |widths| && mid.width == 1
    ensures BorderFrom(widths, mid) + [last] == before + Fills(widths[i] + 2) + after
    ensures Width(before) == Offset(widths, i) && (i > 0 ==> before != [] && before[|before| - 1] == mid)
    ensures i == 0 ==> before == []
    ensures after != [] && after[0] == (if i + 1 < |widths| then mid else last) && (i + 1 == |widths| ==> |after| == 1)
  {
    var joint := if |widths| > 1 then [mid] else [];
    var first, rest := Fills(widths[0] + 2), BorderFrom(widths[1..], mid);
    if i == 0 {
      before, after := [], joint + rest + [last];
      FirstFills(first, joint, rest, [last]);
      assert |widths| == 1 ==> rest == [] && after == [last];
      OffsetNext(widths, 0);
    } else {
      var more;
      more, after := BorderSplits(widths[1..], mid, i - 1, last);
      before := first + [mid] + more;
      FillsFurther(first, [mid], rest, [last], more, Fills(widths[i] + 2), after);
      OffsetShifted(widths, i);
    }
  }

  lemma OffsetShifted(widths: seq<nat>, i: nat)
    requires 0 < i <= |widths|
    ensures Offset(widths, i) == widths[0] + 3 + Offset(widths[1..], i - 1)
  {
    assert widths[..i] == [widths[0]] + widths[1..][..i - 1];
  }

  lemma FirstFills(first: Glyphs, joint: Glyphs, rest: Glyphs, last: Glyphs)
    ensures first + joint + rest + last == [] + first + (joint + rest + last)
  {
  }

  lemma FillsFurther(first: Glyphs, joint: Glyphs, rest: Glyphs, last: Glyphs, more: Glyphs, part: Glyphs,
                     after: Glyphs)
    requires rest + last == more + part + after
    ensures first + joint + rest + last == (first + joint + more) + part + after
    ensures Width(first + joint + more) == Width(first) + Width(joint) + Width(more)
  {
    var lead := first + joint;
    assert lead + rest + last == lead + (rest + last);
    assert lead + (more + part + after) == (lead + more) + part + after;
    WidthAppend(lead, more);
    WidthAppend(first, joint);
  }

  /** Where column i begins in the rows, the border has a corner or a joint, and lines as far as the next. */
  lemma BorderJoins(widths: seq<nat>, left: char, mid: char, right: char, i: nat)
    returns (before: Glyphs, after: Glyphs)
    requires i < |widths|
    ensures Border(widths, left, mid, right) ==
      before + ([Glyph(if i == 0 then left else mid, 1)] + Fills(widths[i] + 2)) + after
    ensures Width(before) == Offset(widths, i)
    ensures after != [] && after[0] == Glyph(if i + 1 < |widths| then mid else right, 1)
    ensures i + 1 == |widths| ==> |after| == 1
  {
    var corner, joint, last := Glyph(left, 1), Glyph(mid, 1), Glyph(right, 1);
    var inner;
    inner, after := BorderSplits(widths, joint, i, last);
    var all := [corner] + inner;
    before := all[..|inner|];
    assert all == before + [all[|inner|]] && all[|inner|] == if i == 0 then corner else joint;
    Shifted([corner], inner, before, [all[|inner|]], Fills(widths[i] + 2), after, BorderFrom(widths, joint), [last]);
  }

  lemma Shifted(corner: Glyphs, inner: Glyphs, front: Glyphs, end: Glyphs, part: Glyphs, after: Glyphs, line: Glyphs,
                last: Glyphs)
    requires line + last == inner + part + after && corner + inner == front + end && Width(corner) == Width(end)
    ensures corner + line + last == front + (end + part) + after && Width(front) == Width(inner)
  {
    Assoc(corner, line, last);
    Assoc(inner, part, after);
    Assoc(corner, inner, part + after);
    Assoc(front, end, part + after);
    Assoc(end, part, after);
    Assoc(front, end + part, after);
    WidthAppend(corner, inner);
    WidthAppend(front, end);
  }

  // ---------- lines ----------

  /** How many lines come before row i in those of the rows from k on. */
  function Place(header: nat, k: nat, i: nat): nat
    requires k <= i
  {
    i - k + (if k < header <= i then 1 else 0)
  }

  lemma {:induction false} RowsCount(rows: seq<Row>, header: nat, widths: seq<nat>, alignments: seq<Alignment>, k: nat)
    requires k <= |rows|
    ensures |RowsFrom(rows, header, widths, alignments, k)| == |rows| - k + (if k < header < |rows| then 1 else 0)
    decreases |rows| - k
  {
    if k < |rows| { RowsCount(rows, header, widths, alignments, k + 1); }
  }

  lemma {:induction false} RowsAt(rows: seq<Row>, header: nat, widths: seq<nat>, alignments: seq<Alignment>, k: nat,
                                  i: nat, lines: seq<Glyphs>)
    requires k <= i < |rows| && lines == RowsFrom(rows, header, widths, alignments, k)
    ensures Place(header, k, i) < |lines| && lines[Place(header, k, i)] == RowLine(rows[i], widths, alignments)
    decreases |rows| - k
  {
    var first, separator, rest := RowsSplit(rows, header, widths, alignments, k, lines);
    if k < i {
      RowsAt(rows, header, widths, alignments, k + 1, i, rest);
      LineOf(lines, first, separator, rest, Place(header, k + 1, i));
    }
  }

  lemma {:induction false} SeparatorAt(rows: seq<Row>, header: nat, widths: seq<nat>, alignments: seq<Alignment>,
                                       k: nat, lines: seq<Glyphs>)
    requires k < header < |rows| && lines == RowsFrom(rows, header, widths, alignments, k)
    ensures header - k < |lines| && lines[header - k] == Separator(widths)
    decreases |rows| - k
  {
    var first, separator, rest := RowsSplit(rows, header, widths, alignments, k, lines);
    if k + 1 < header {
      SeparatorAt(rows, header, widths, alignments, k + 1, rest);
      LineOf(lines, first, separator, rest, header - (k + 1));
    }
  }

  /** The line of a row, the separator behind it if it ends the header, and the lines of the rows below. */
  lemma RowsSplit(rows: seq<Row>, header: nat, widths: seq<nat>, alignments: seq<Alignment>, k: nat,
                  lines: seq<Glyphs>)
    returns (first: seq<Glyphs>, separator: seq<Glyphs>, rest: seq<Glyphs>)
    requires k < |rows| && lines == RowsFrom(rows, header, widths, alignments, k)
    ensures first == [RowLine(rows[k], widths, alignments)] && rest == RowsFrom(rows, header, widths, alignments, k + 1)
    ensures separator == (if k + 1 == header < |rows| then [Separator(widths)] else [])
    ensures lines == first + separator + rest
  {
    first := [RowLine(rows[k], widths, alignments)];
    separator := if k + 1 == header < |rows| then [Separator(widths)] else [];
    rest := RowsFrom(rows, header, widths, alignments, k + 1);
  }

  lemma LineOf(lines: seq<Glyphs>, first: seq<Glyphs>, separator: seq<Glyphs>, rest: seq<Glyphs>, j: nat)
    requires lines == first + separator + rest && j < |rest|
    ensures lines[|first| + |separator| + j] == rest[j]
  {
  }

  /** A table is its top border, the rows in order, and its bottom border; a separator follows the header, if
      there are rows below it: as many rows as are declared, or the first of several. */
  lemma TableShape(rows: seq<Row>, declared: nat, widths: seq<nat>, alignments: seq<Alignment>, i: nat)
    requires i < |rows|
    ensures var header := if declared > 0 then declared else 1;
      var lines := TableLines(rows, HeaderRows(rows, declared), widths, alignments);
      && |lines| == |rows| + (if header < |rows| then 3 else 2)
      && lines[0] == Border(widths, '\U{250C}', '\U{252C}', '\U{2510}')
      && lines[if header < |rows| && header <= i then i + 2 else i + 1] == RowLine(rows[i], widths, alignments)
      && (header < |rows| ==> lines[header + 1] == Border(widths, '\U{251C}', '\U{253C}', '\U{2524}'))
      && lines[|lines| - 1] == Border(widths, '\U{2514}', '\U{2534}', '\U{2518}')
  {
    var h := HeaderRows(rows, declared);
    var inner := RowsFrom(rows, h, widths, alignments, 0);
    var lines := TableLines(rows, h, widths, alignments);
    HeaderIs(rows, declared);
    RowsCount(rows, h, widths, alignments, 0);
    RowsAt(rows, h, widths, alignments, 0, i, inner);
    Enclosed(lines, lines[0], inner, lines[|lines| - 1], Place(h, 0, i));
    if 0 < h < |rows| {
      SeparatorAt(rows, h, widths, alignments, 0, inner);
      Enclosed(lines, lines[0], inner, lines[|lines| - 1], h);
    }
  }

  lemma HeaderIs(rows: seq<Row>, declared: nat)
    ensures var (h, header) := (HeaderRows(rows, declared), if declared > 0 then declared else 1);
      (header < |rows| <==> 0 < h < |rows|) && (header < |rows| ==> h == header) && h <= |rows|
  {
  }

  lemma Enclosed(lines: seq<Glyphs>, top: Glyphs, inner: seq<Glyphs>, bottom: Glyphs, j: nat)
    requires lines == [top] + inner + [bottom] && j < |inner|
    ensures lines[j + 1] == inner[j]
  {
  }

  /** Behind a prefix the lines of a clamped table end within the wrap width exactly if those of the narrowest
      table do. */
  lemma FitsBesidePrefix(rows: seq<Row>, header: nat, widths: seq<nat>, alignments: seq<Alignment>, wrap: nat,
                         prefix: nat)
    requires ColumnCount(rows) > 0 && Clamped(NaturalWidths(rows), widths, Available(wrap, prefix))
    ensures (forall line | line in TableLines(rows, header, widths, alignments) :: prefix + Width(line) <= wrap)
      <==> prefix + 1 + 6 * |widths| <= wrap
  {
    var lines := TableLines(rows, header, widths, alignments);
    TableFits(rows, header, widths, alignments, Available(wrap, prefix));
    if wrap > prefix {
      assert forall line :: line in lines ==> (Width(line) <= wrap - prefix <==> prefix + Width(line) <= wrap);
    } else {
      assert lines[0] in lines;
    }
  }
}
