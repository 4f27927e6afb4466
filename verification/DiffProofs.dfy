/** The diff is faithful: its commands turn a screen that shows the previous buffer into one that
    shows the next. Widths are one and two; halves of cut glyphs may look like anything. */
module DiffProofs {
  import opened Wrappers
  import opened Screen
  import opened Diff

  predicate CellOkay(c: Cell) {
    !c.skip && 1 <= c.symbol.width <= 2 && (c.symbol.text == " " ==> c.symbol == BLANK)
  }

  predicate CellWf(row: seq<Cell>, j: nat)
    requires j < |row|
  {
    CellOkay(row[j]) && (row[j].symbol.width == 2 ==> j + 1 < |row| && row[j+1].symbol == BLANK)
  }

  /** Every wide glyph is followed by its blank continuation cell in the same row. */
  predicate RowWf(row: seq<Cell>) {
    forall j :: 0 <= j < |row| ==> CellWf(row, j)
  }

  predicate BufferWf(b: Buffer) {
    BufferOk(b) && forall y :: 0 <= y < b.area.height ==> RowWf(RowOf(b, y))
  }

  /** A glyph starts at column j: it is not the continuation of a wide one. */
  predicate IsLead(row: seq<Cell>, j: nat)
    requires j <= |row|
  {
    j == 0 || row[j-1].symbol.width == 1
  }

  /** A screen cell shows a buffer cell; the foreground of an unmodified blank is invisible. */
  predicate CellShown(s: ScreenCell, c: Cell) {
    && s.Lead? && s.symbol == c.symbol && s.pen.bg == c.bg && s.pen.attrs == c.modifier
    && (s.pen.fg == c.fg || (c.symbol == BLANK && c.modifier == {}))
  }

  predicate RowShows(shown: Row, row: seq<Cell>) {
    && |shown| == |row| && RowOk(shown)
    && forall j :: 0 <= j < |row| && IsLead(row, j) ==> CellShown(shown[j], row[j])
  }

  /** The rows of the viewport show the buffer. */
  predicate Shows(rows: seq<Row>, b: Buffer) {
    && BufferOk(b) && GridShown(rows, Rows(b), b.area.y)
  }

  // ---------- what the commands mean ----------

  function CellPen(c: Cell): Pen { Pen(c.fg, c.bg, c.modifier) }

  function ApplyCommand(rows: seq<Row>, c: DrawCommand): (r: seq<Row>)
    ensures |r| == |rows|
  {
    match c
    case Put(x, y, cell) =>
      if y < |rows| && 1 <= cell.symbol.width <= 2 && x + cell.symbol.width <= |rows[y]|
      then rows[y := WriteGlyph(rows[y], x, cell.symbol, CellPen(cell))]
      else rows
    case ClearToEnd(x, y, bg) =>
      if y < |rows| then rows[y := EraseFrom(rows[y], x, bg)] else rows
  }

  function ApplyAll(rows: seq<Row>, cs: seq<DrawCommand>): (r: seq<Row>)
    ensures |r| == |rows|
    decreases |cs|
  {
    if cs == [] then rows else ApplyAll(ApplyCommand(rows, cs[0]), cs[1..])
  }

  lemma {:induction false} ApplyAllAppend(rows: seq<Row>, a: seq<DrawCommand>, b: seq<DrawCommand>)
    ensures ApplyAll(rows, a + b) == ApplyAll(ApplyAll(rows, a), b)
    decreases |a|
  {
    if a == [] {
      assert a + b == b;
    } else {
      assert (a + b)[1..] == a[1..] + b;
      ApplyAllAppend(ApplyCommand(rows, a[0]), a[1..], b);
    }
  }

  lemma ApplyOne(rows: seq<Row>, c: DrawCommand)
    ensures ApplyAll(rows, [c]) == ApplyCommand(rows, c) && ApplyAll(rows, []) == rows
  {
  }

  // ---------- the scan for the trailing clear ----------

  lemma {:induction false} ScanBound(row: seq<Cell>, column: nat, last: nat)
    requires RowWf(row) && column <= |row| && |row| > 0 && IsLead(row, column)
    requires if column == 0 then last == 0 else last < column && IsLead(row, last + 1)
    requires forall j :: last < j < column ==> Plain(row[j], RowBg(row))
    ensures var l := LastNonblankFrom(row, column, last);
      l < |row| && IsLead(row, l + 1) && forall j :: l < j < |row| ==> Plain(row[j], RowBg(row))
    decreases |row| - column
  {
    if column < |row| {
      var width := row[column].symbol.width;
      var next := if Plain(row[column], RowBg(row)) then last else column + Less1(width);
      assert CellWf(row, column);
      ScanBound(row, column + width, next);
    }
  }

  /** Beyond the last column kept there are only plain blanks, and no glyph is cut there. */
  lemma LastNonblankBound(row: seq<Cell>)
    requires RowWf(row) && |row| > 0
    ensures var l := LastNonblank(row);
      l < |row| && IsLead(row, l + 1) && forall j :: l < j < |row| ==> Plain(row[j], RowBg(row))
  {
    ScanBound(row, 0, 0);
  }

  // ---------- one row ----------

  function Skip(n: seq<Cell>, x: nat): nat
    requires x <= |n|
  {
    if x == 0 then 0 else Less1(n[x-1].symbol.width)
  }

  function Damage(p: seq<Cell>, n: seq<Cell>, x: nat): nat
    requires x <= |n| == |p|
  {
    if x == 0 then 0 else Less1(Max(n[x-1].symbol.width, p[x-1].symbol.width))
  }

  /** The row after its clear and the puts of its first x columns: the next row left of x, the
      next row's trailing blanks, and the previous row's glyphs that nothing has touched yet. */
  predicate RowMid(shown: Row, p: seq<Cell>, n: seq<Cell>, x: nat)
    requires x <= |n|
  {
    && |shown| == |n| == |p| && RowOk(shown)
    && (forall j :: 0 <= j < |n| && (j < x || j > LastNonblank(n)) && IsLead(n, j) ==> CellShown(shown[j], n[j]))
    && (forall j :: x + Damage(p, n, x) <= j < |n| && IsLead(p, j) && j + p[j].symbol.width <= LastNonblank(n) + 1
          ==> CellShown(shown[j], p[j]))
  }

  /** The clear prepares the row for the puts. */
  lemma ClearPrepares(shown: Row, p: seq<Cell>, n: seq<Cell>, cleared: Row)
    requires RowWf(p) && RowWf(n) && |n| > 0 && |p| == |n| && RowShows(shown, p)
    requires cleared == if LastNonblank(n) + 1 < |n| then EraseFrom(shown, LastNonblank(n) + 1, RowBg(n)) else shown
    ensures RowMid(cleared, p, n, 0)
  {
    var l := LastNonblank(n);
    LastNonblankBound(n);
    if l + 1 < |n| {
      EraseFromOk(shown, l + 1, RowBg(n));
      forall j | l < j < |n| ensures CellShown(cleared[j], n[j]) {
        assert cleared[j] == BlankCell(RowBg(n));
        assert Plain(n[j], RowBg(n)) && CellWf(n, j);
      }
      forall j | 0 <= j < |n| && IsLead(p, j) && j + p[j].symbol.width <= l + 1
        ensures CellShown(cleared[j], p[j])
      {
        LeadSurvives(shown, p, j, l + 1, RowBg(n));
      }
    }
  }

  /** A glyph that ends before column x is still shown once the row is erased from there on. */
  lemma LeadSurvives(shown: Row, p: seq<Cell>, j: nat, x: nat, bg: Color)
    requires RowWf(p) && RowShows(shown, p) && j < |p| && IsLead(p, j) && j + p[j].symbol.width <= x < |p|
    ensures CellShown(EraseFrom(shown, x, bg)[j], p[j])
  {
    assert CellShown(shown[j], p[j]) && CellWf(p, j) && CellOk(shown, x);
  }

  predicate Emits(p: seq<Cell>, n: seq<Cell>, x: nat)
    requires x < |n| == |p|
  {
    (n[x] != p[x] || Damage(p, n, x) > 0) && Skip(n, x) == 0 && x <= LastNonblank(n)
  }

  lemma PutAdvances(shown: Row, p: seq<Cell>, n: seq<Cell>, x: nat)
    requires RowWf(p) && RowWf(n) && x < |n| && |p| == |n| && RowMid(shown, p, n, x) && Emits(p, n, x)
    ensures x + n[x].symbol.width <= |n|
    ensures 1 <= n[x].symbol.width <= 2
    ensures RowMid(WriteGlyph(shown, x, n[x].symbol, CellPen(n[x])), p, n, x + 1)
  {
    LastNonblankBound(n);
    var l, w := LastNonblank(n), n[x].symbol.width;
    assert CellWf(n, x) && CellWf(p, x);
    if x > 0 { assert CellWf(n, x - 1) && CellWf(p, x - 1); }
    var r := WriteGlyph(shown, x, n[x].symbol, CellPen(n[x]));
    WriteGlyphOk(shown, x, n[x].symbol, CellPen(n[x]));
    assert w == 2 ==> x + 1 <= l;
    forall j | 0 <= j < |n| && (j < x + 1 || j > l) && IsLead(n, j) ensures CellShown(r[j], n[j]) {
      assert j + 1 == x ==> CellOk(shown, x);
      if j != x { assert CellShown(shown[j], n[j]); }
    }
    forall j | x + 1 + Damage(p, n, x + 1) <= j < |n| && IsLead(p, j) && j + p[j].symbol.width <= l + 1
      ensures CellShown(r[j], p[j])
    {
      assert CellShown(shown[j], p[j]) && CellWf(p, j);
    }
  }

  lemma NoPutAdvances(shown: Row, p: seq<Cell>, n: seq<Cell>, x: nat)
    requires RowWf(p) && RowWf(n) && x < |n| && |p| == |n| && RowMid(shown, p, n, x) && !Emits(p, n, x)
    ensures RowMid(shown, p, n, x + 1)
  {
    LastNonblankBound(n);
    var l := LastNonblank(n);
    assert CellWf(n, x) && CellWf(p, x);
    if x > 0 { assert CellWf(n, x - 1) && CellWf(p, x - 1); }
    if IsLead(n, x) && x <= l {
      assert n[x] == p[x] && IsLead(p, x);
      assert n[x].symbol.width == 2 ==> x + 1 <= l;
      assert CellShown(shown[x], n[x]);
    }
  }

  // ---------- the commands of one row ----------

  /** The effect of commands for one row on that row. */
  function ApplyToRow(row: Row, c: DrawCommand): (r: Row)
    ensures |r| == |row|
  {
    match c
    case Put(x, _, cell) =>
      if 1 <= cell.symbol.width <= 2 && x + cell.symbol.width <= |row|
      then WriteGlyph(row, x, cell.symbol, CellPen(cell)) else row
    case ClearToEnd(x, _, bg) => EraseFrom(row, x, bg)
  }

  function RowApply(row: Row, cs: seq<DrawCommand>): (r: Row)
    ensures |r| == |row|
    decreases |cs|
  {
    if cs == [] then row else RowApply(ApplyToRow(row, cs[0]), cs[1..])
  }

  function ClearOf(n: seq<Cell>, y: nat): seq<DrawCommand> {
    if LastNonblank(n) + 1 < |n| then [ClearToEnd(LastNonblank(n) + 1, y, RowBg(n))] else []
  }

  function RowPut(p: seq<Cell>, n: seq<Cell>, y: nat, x: nat): seq<DrawCommand>
    requires x < |n| == |p|
  {
    PutFor(n[x], p[x], x, y, LastNonblank(n), Damage(p, n, x), Skip(n, x))
  }

  function RowPuts(p: seq<Cell>, n: seq<Cell>, y: nat, x: nat): seq<DrawCommand>
    requires x <= |n| == |p|
    decreases |n| - x
  {
    if x == |n| then [] else RowPut(p, n, y, x) + RowPuts(p, n, y, x + 1)
  }

  lemma {:induction false} RowApplyAppend(row: Row, a: seq<DrawCommand>, b: seq<DrawCommand>)
    ensures RowApply(row, a + b) == RowApply(RowApply(row, a), b)
    decreases |a|
  {
    if a == [] {
      assert a + b == b;
    } else {
      assert (a + b)[1..] == a[1..] + b;
      RowApplyAppend(ApplyToRow(row, a[0]), a[1..], b);
    }
  }

  lemma RowApplyOne(row: Row, c: DrawCommand)
    ensures RowApply(row, [c]) == ApplyToRow(row, c) && RowApply(row, []) == row
  {
  }

  lemma RowPutAdvances(shown: Row, p: seq<Cell>, n: seq<Cell>, y: nat, x: nat)
    requires RowWf(p) && RowWf(n) && |p| == |n| && x < |n| && RowMid(shown, p, n, x)
    ensures RowMid(RowApply(shown, RowPut(p, n, y, x)), p, n, x + 1)
  {
    RowApplyOne(shown, Put(x, y, n[x]));
    assert CellWf(n, x);
    if Emits(p, n, x) { PutAdvances(shown, p, n, x); } else { NoPutAdvances(shown, p, n, x); }
  }

  lemma {:induction false} RowPutsFinish(shown: Row, p: seq<Cell>, n: seq<Cell>, y: nat, x: nat, after: Row)
    requires RowWf(p) && RowWf(n) && |p| == |n| && x <= |n| && RowMid(shown, p, n, x)
    requires after == RowApply(shown, RowPuts(p, n, y, x))
    ensures RowShows(after, n)
    decreases |n| - x
  {
    if x < |n| {
      var next := RowPutStep(shown, p, n, y, x, after);
      RowPutsFinish(next, p, n, y, x + 1, after);
    } else {
      RowPutsDone(shown, p, n, y, after);
    }
  }

  lemma RowPutStep(shown: Row, p: seq<Cell>, n: seq<Cell>, y: nat, x: nat, after: Row) returns (next: Row)
    requires RowWf(p) && RowWf(n) && |p| == |n| && x < |n| && RowMid(shown, p, n, x)
    requires after == RowApply(shown, RowPuts(p, n, y, x))
    ensures RowMid(next, p, n, x + 1) && after == RowApply(next, RowPuts(p, n, y, x + 1))
  {
    next := RowApply(shown, RowPut(p, n, y, x));
    RowApplyAppend(shown, RowPut(p, n, y, x), RowPuts(p, n, y, x + 1));
    RowPutAdvances(shown, p, n, y, x);
  }

  lemma RowPutsDone(shown: Row, p: seq<Cell>, n: seq<Cell>, y: nat, after: Row)
    requires |p| == |n| && RowMid(shown, p, n, |n|) && after == RowApply(shown, RowPuts(p, n, y, |n|))
    ensures RowShows(after, n)
  {
    assert after == shown;
  }

  lemma RowClearPrepares(shown: Row, p: seq<Cell>, n: seq<Cell>, y: nat)
    requires RowWf(p) && RowWf(n) && |n| > 0 && |p| == |n| && RowShows(shown, p)
    ensures RowMid(RowApply(shown, ClearOf(n, y)), p, n, 0)
  {
    RowCleared(shown, n, y);
    ClearPrepares(shown, p, n, RowApply(shown, ClearOf(n, y)));
  }

  lemma RowCleared(shown: Row, n: seq<Cell>, y: nat)
    requires |n| > 0
    ensures RowApply(shown, ClearOf(n, y)) ==
      if LastNonblank(n) + 1 < |n| then EraseFrom(shown, LastNonblank(n) + 1, RowBg(n)) else shown
  {
    RowApplyOne(shown, ClearToEnd(LastNonblank(n) + 1, y, RowBg(n)));
  }

  lemma RowFaithful(shown: Row, p: seq<Cell>, n: seq<Cell>, y: nat)
    requires RowWf(p) && RowWf(n) && |n| > 0 && |p| == |n| && RowShows(shown, p)
    ensures RowShows(RowApply(RowApply(shown, ClearOf(n, y)), RowPuts(p, n, y, 0)), n)
  {
    RowClearPrepares(shown, p, n, y);
    RowPutsFinish(RowApply(shown, ClearOf(n, y)), p, n, y, 0,
      RowApply(RowApply(shown, ClearOf(n, y)), RowPuts(p, n, y, 0)));
  }

  // ---------- all rows ----------

  predicate AllInRow(cs: seq<DrawCommand>, y: nat) {
    forall c :: c in cs ==> c.y == y
  }

  lemma {:induction false} RowCommandsLocal(rows: seq<Row>, cs: seq<DrawCommand>, y: nat)
    requires AllInRow(cs, y) && y < |rows|
    ensures ApplyAll(rows, cs) == rows[y := RowApply(rows[y], cs)]
    decreases |cs|
  {
    if cs != [] {
      assert cs[0] in cs;
      assert ApplyCommand(rows, cs[0]) == rows[y := ApplyToRow(rows[y], cs[0])];
      RowCommandsLocal(ApplyCommand(rows, cs[0]), cs[1..], y);
    }
  }

  function Concat(lists: seq<seq<DrawCommand>>): seq<DrawCommand> {
    if lists == [] then [] else lists[0] + Concat(lists[1..])
  }

  /** Lists of commands for consecutive rows act on each row alone. */
  lemma {:induction false} RowsIndependent(rows: seq<Row>, lists: seq<seq<DrawCommand>>, top: nat)
    requires top + |lists| <= |rows|
    requires forall r :: 0 <= r < |lists| ==> AllInRow(lists[r], top + r)
    ensures var after := ApplyAll(rows, Concat(lists));
      && (forall r :: 0 <= r < |lists| ==> after[top + r] == RowApply(rows[top + r], lists[r]))
      && (forall k :: 0 <= k < |rows| && !(top <= k < top + |lists|) ==> after[k] == rows[k])
    decreases |lists|
  {
    if lists != [] {
      RowCommandsLocal(rows, lists[0], top);
      var next := ApplyAll(rows, lists[0]);
      ApplyAllAppend(rows, lists[0], Concat(lists[1..]));
      RowsIndependent(next, lists[1..], top + 1);
      var after := ApplyAll(next, Concat(lists[1..]));
      forall r | 0 <= r < |lists| ensures after[top + r] == RowApply(rows[top + r], lists[r]) {
        if r > 0 { assert after[(top + 1) + (r - 1)] == RowApply(next[top + r], lists[1..][r - 1]); }
      }
    }
  }

  /** The commands of the diff, row by row, for the rows p and n of the two buffers. */
  function ClearLists(n: seq<seq<Cell>>, top: nat): (lists: seq<seq<DrawCommand>>)
    ensures |lists| == |n|
  {
    if n == [] then [] else [ClearOf(n[0], top)] + ClearLists(n[1..], top + 1)
  }

  function PutLists(p: seq<seq<Cell>>, n: seq<seq<Cell>>, top: nat): (lists: seq<seq<DrawCommand>>)
    requires SameGrid(p, n)
    ensures |lists| == |n|
    decreases |n|
  {
    if n == [] then [] else
      assert SameGrid(p[1..], n[1..]);
      [RowPuts(p[0], n[0], top, 0)] + PutLists(p[1..], n[1..], top + 1)
  }

  predicate SameGrid(p: seq<seq<Cell>>, n: seq<seq<Cell>>) {
    |p| == |n| && forall r :: 0 <= r < |n| ==> |p[r]| == |n[r]|
  }

  lemma {:induction false} ClearListsAt(n: seq<seq<Cell>>, top: nat, r: nat)
    requires r < |n|
    ensures ClearLists(n, top)[r] == ClearOf(n[r], top + r)
  {
    if r > 0 { ClearListsAt(n[1..], top + 1, r - 1); }
  }

  lemma {:induction false} PutListsAt(p: seq<seq<Cell>>, n: seq<seq<Cell>>, top: nat, r: nat)
    requires SameGrid(p, n) && r < |n|
    ensures PutLists(p, n, top)[r] == RowPuts(p[r], n[r], top + r, 0)
    decreases r
  {
    if r > 0 {
      assert SameGrid(p[1..], n[1..]);
      PutListsAt(p[1..], n[1..], top + 1, r - 1);
    }
  }

  lemma {:induction false} RowPutsInRow(p: seq<Cell>, n: seq<Cell>, y: nat, x: nat)
    requires x <= |n| == |p|
    ensures AllInRow(RowPuts(p, n, y, x), y)
    decreases |n| - x
  {
    if x < |n| { RowPutsInRow(p, n, y, x + 1); }
  }

  lemma CellsOfRow(b: Buffer, y: nat, x: nat)
    requires BufferOk(b) && y < b.area.height && x < b.area.width
    ensures RowStart(b.area.width, y) + x < |b.content|
    ensures b.content[RowStart(b.area.width, y) + x] == RowOf(b, y)[x]
  {
    RowStartMonotone(b.area.width, y, b.area.height);
  }

  lemma CountersAdvance(p: seq<Cell>, n: seq<Cell>, x: nat)
    requires RowWf(p) && RowWf(n) && x < |n| == |p|
    ensures Damage(p, n, x + 1) == Less1(Max(Max(n[x].symbol.width, p[x].symbol.width), Damage(p, n, x)))
    ensures Skip(n, x + 1) == Less1(n[x].symbol.width)
    ensures x + 1 == |n| ==> Damage(p, n, x + 1) == 0 && Skip(n, x + 1) == 0
  {
    assert CellWf(n, x) && CellWf(p, x);
    if x > 0 { assert CellWf(n, x - 1) && CellWf(p, x - 1); }
  }

  /** p and n are row y of the two buffers, and its last column is at hand. */
  predicate IsRow(a: Buffer, b: Buffer, columns: seq<nat>, y: nat, p: seq<Cell>, n: seq<Cell>)
    requires SameArea(a, b) && y < b.area.height == |columns|
  {
    && |p| == |n| == b.area.width > 0 && RowWf(p) && RowWf(n) && columns[y] == LastNonblank(n)
    && RowStart(b.area.width, y) + b.area.width <= |b.content|
    && forall x :: 0 <= x < b.area.width ==> CellsAt(a, b, RowStart(b.area.width, y) + x, p[x], n[x])
  }

  predicate CellsAt(a: Buffer, b: Buffer, i: nat, previous: Cell, current: Cell)
    requires SameArea(a, b)
  {
    i < |b.content| && a.content[i] == previous && b.content[i] == current
  }

  lemma PutAtIsRowPut(a: Buffer, b: Buffer, columns: seq<nat>, y: nat, x: nat, p: seq<Cell>, n: seq<Cell>, i: nat)
    requires SameArea(a, b) && b.area.x == 0 && y < b.area.height == |columns| && x < b.area.width
    requires IsRow(a, b, columns, y, p, n) && i == RowStart(b.area.width, y) + x
    ensures CellsAt(a, b, i, p[x], n[x])
    ensures PutAt(a, b, columns, i, Damage(p, n, x), Skip(n, x)) == RowPut(p, n, b.area.y + y, x)
  {
    assert CellsAt(a, b, RowStart(b.area.width, y) + x, p[x], n[x]);
    CellPosition(b.area.width, y, x);
  }

  /** The counters start every row at zero, so the one pass over all cells works row by row. */
  lemma {:induction false} PutsOfRow(a: Buffer, b: Buffer, columns: seq<nat>, y: nat, x: nat,
                                     p: seq<Cell>, n: seq<Cell>, i: nat, end: nat)
    requires SameArea(a, b) && b.area.x == 0 && y < b.area.height == |columns| && x <= b.area.width
    requires IsRow(a, b, columns, y, p, n) && i == RowStart(b.area.width, y) + x && end + x == i + b.area.width
    ensures end <= |b.content|
    ensures Puts(a, b, columns, i, Damage(p, n, x), Skip(n, x))
         == RowPuts(p, n, b.area.y + y, x) + Puts(a, b, columns, end, 0, 0)
    decreases b.area.width - x
  {
    if x < b.area.width {
      CountersAdvance(p, n, x);
      PutAtIsRowPut(a, b, columns, y, x, p, n, i);
      PutsOfRow(a, b, columns, y, x + 1, p, n, i + 1, end);
      Assoc(RowPut(p, n, b.area.y + y, x), RowPuts(p, n, b.area.y + y, x + 1), Puts(a, b, columns, end, 0, 0));
    } else {
      CountersAdvance(p, n, x - 1);
    }
  }

  lemma RowsAreRows(a: Buffer, b: Buffer, y: nat)
    requires SameArea(a, b) && b.area.width > 0 && y < b.area.height
    requires RowWf(RowOf(a, y)) && RowWf(RowOf(b, y))
    ensures IsRow(a, b, LastColumns(b, b.area.height), y, RowOf(a, y), RowOf(b, y))
  {
    LastColumnsAt(b, b.area.height, y);
    RowStartMonotone(b.area.width, y, b.area.height);
    forall x | 0 <= x < b.area.width
      ensures CellsAt(a, b, RowStart(b.area.width, y) + x, RowOf(a, y)[x], RowOf(b, y)[x])
    {
      CellsOfRow(a, y, x);
      CellsOfRow(b, y, x);
    }
  }

  lemma ConcatStep(first: seq<DrawCommand>, rest: seq<seq<DrawCommand>>)
    ensures Concat([first] + rest) == first + Concat(rest)
  {
    assert ([first] + rest)[1..] == rest;
  }

  lemma {:induction false} ClearsByRow(b: Buffer, n: seq<seq<Cell>>, y: nat)
    requires BufferOk(b) && y <= b.area.height == |n| && b.area.x == 0
    requires forall r :: 0 <= r < |n| ==> n[r] == RowOf(b, r)
    ensures Clears(b, y) == Concat(ClearLists(n[y..], b.area.y + y))
    decreases b.area.height - y
  {
    if y < b.area.height {
      ClearsByRow(b, n, y + 1);
      assert n[y..][1..] == n[y+1..];
      ConcatStep(ClearOf(n[y], b.area.y + y), ClearLists(n[y+1..], b.area.y + y + 1));
    }
  }

  predicate AreRows(a: Buffer, b: Buffer, columns: seq<nat>, p: seq<seq<Cell>>, n: seq<seq<Cell>>, y: nat)
    requires SameArea(a, b)
  {
    && |p| == |n| == b.area.height - y && |columns| == b.area.height
    && forall r :: 0 <= r < |n| ==> IsRow(a, b, columns, y + r, p[r], n[r])
  }

  lemma RowsBelow(a: Buffer, b: Buffer, columns: seq<nat>, p: seq<seq<Cell>>, n: seq<seq<Cell>>, y: nat)
    requires SameArea(a, b) && AreRows(a, b, columns, p, n, y) && y < b.area.height
    ensures IsRow(a, b, columns, y, p[0], n[0])
    ensures AreRows(a, b, columns, p[1..], n[1..], y + 1)
  {
    assert IsRow(a, b, columns, y + 0, p[0], n[0]);
    forall r | 0 <= r < |n[1..]| ensures IsRow(a, b, columns, (y + 1) + r, p[1..][r], n[1..][r]) {
      assert IsRow(a, b, columns, y + (r + 1), p[r + 1], n[r + 1]);
    }
  }

  lemma {:induction false} PutsByRow(a: Buffer, b: Buffer, columns: seq<nat>, p: seq<seq<Cell>>, n: seq<seq<Cell>>,
                                     y: nat, i: nat)
    requires SameArea(a, b) && b.area.x == 0 && y <= b.area.height && AreRows(a, b, columns, p, n, y)
    requires SameGrid(p, n) && i == RowStart(b.area.width, y) <= |b.content|
    ensures Puts(a, b, columns, i, 0, 0) == Concat(PutLists(p, n, b.area.y + y))
    decreases b.area.height - y
  {
    if y < b.area.height {
      var end: nat := i + b.area.width;
      var here, others := RowPuts(p[0], n[0], b.area.y + y, 0), PutLists(p[1..], n[1..], b.area.y + y + 1);
      RowsBelow(a, b, columns, p, n, y);
      assert Puts(a, b, columns, i, 0, 0) == here + Puts(a, b, columns, end, 0, 0) by {
        PutsOfRow(a, b, columns, y, 0, p[0], n[0], i, end);
      }
      assert Puts(a, b, columns, end, 0, 0) == Concat(others) by {
        PutsByRow(a, b, columns, p[1..], n[1..], y + 1, end);
      }
      ConcatStep(here, others);
    }
  }

  predicate GridShown(rows: seq<Row>, grid: seq<seq<Cell>>, top: nat) {
    top + |grid| <= |rows| && forall r :: 0 <= r < |grid| ==> RowShows(rows[top + r], grid[r])
  }

  predicate GridWf(grid: seq<seq<Cell>>) {
    forall r :: 0 <= r < |grid| ==> RowWf(grid[r]) && |grid[r]| > 0
  }

  lemma RowOfGrid(shown: Row, p: seq<seq<Cell>>, n: seq<seq<Cell>>, top: nat, r: nat)
    requires SameGrid(p, n) && r < |n| && RowWf(p[r]) && RowWf(n[r]) && |n[r]| > 0 && RowShows(shown, p[r])
    ensures AllInRow(ClearLists(n, top)[r], top + r) && AllInRow(PutLists(p, n, top)[r], top + r)
    ensures RowShows(RowApply(RowApply(shown, ClearLists(n, top)[r]), PutLists(p, n, top)[r]), n[r])
  {
    ClearListsAt(n, top, r);
    PutListsAt(p, n, top, r);
    RowPutsInRow(p[r], n[r], top + r, 0);
    RowFaithful(shown, p[r], n[r], top + r);
  }

  lemma GridFaithful(rows: seq<Row>, p: seq<seq<Cell>>, n: seq<seq<Cell>>, top: nat)
    requires SameGrid(p, n) && GridWf(p) && GridWf(n) && GridShown(rows, p, top)
    ensures var after := ApplyAll(rows, Concat(ClearLists(n, top)) + Concat(PutLists(p, n, top)));
      && GridShown(after, n, top)
      && forall k :: 0 <= k < |rows| && !(top <= k < top + |n|) ==> after[k] == rows[k]
  {
    var clears, puts := ClearLists(n, top), PutLists(p, n, top);
    ApplyAllAppend(rows, Concat(clears), Concat(puts));
    var cleared := ApplyAll(rows, Concat(clears));
    forall r | 0 <= r < |n|
      ensures AllInRow(clears[r], top + r) && AllInRow(puts[r], top + r)
      ensures RowShows(RowApply(RowApply(rows[top + r], clears[r]), puts[r]), n[r])
    {
      RowOfGrid(rows[top + r], p, n, top, r);
    }
    RowsIndependent(rows, clears, top);
    RowsIndependent(cleared, puts, top);
  }

  function Rows(b: Buffer): (grid: seq<seq<Cell>>)
    requires BufferOk(b)
    ensures |grid| == b.area.height
    ensures forall r :: 0 <= r < |grid| ==> grid[r] == RowOf(b, r)
  {
    seq(b.area.height, r requires 0 <= r < b.area.height => RowOf(b, r))
  }

  lemma DiffByRow(a: Buffer, b: Buffer, p: seq<seq<Cell>>, n: seq<seq<Cell>>)
    requires SameArea(a, b) && BufferWf(a) && BufferWf(b) && b.area.x == 0 && b.area.width > 0
    requires p == Rows(a) && n == Rows(b)
    ensures SameGrid(p, n) && GridWf(p) && GridWf(n)
    ensures DiffCommands(a, b) == Concat(ClearLists(n, b.area.y)) + Concat(PutLists(p, n, b.area.y))
  {
    var columns := LastColumns(b, b.area.height);
    forall r | 0 <= r < b.area.height ensures IsRow(a, b, columns, 0 + r, p[r], n[r]) { RowsAreRows(a, b, r); }
    ClearsByRow(b, n, 0);
    PutsByRow(a, b, columns, p, n, 0, 0);
    assert n[0..] == n;
  }

  /** Executing every command of the diff on a screen that shows the previous buffer leaves it
      showing the next one, and leaves the rows outside the viewport alone. */
  lemma DiffFaithful(rows: seq<Row>, a: Buffer, b: Buffer)
    requires SameArea(a, b) && BufferWf(a) && BufferWf(b) && b.area.x == 0 && b.area.width > 0 && Shows(rows, a)
    ensures var after := ApplyAll(rows, DiffCommands(a, b));
      && Shows(after, b)
      && forall k :: 0 <= k < |rows| && !(b.area.y <= k < b.area.y + b.area.height) ==> after[k] == rows[k]
  {
    DiffByRow(a, b, Rows(a), Rows(b));
    GridFaithful(rows, Rows(a), Rows(b), b.area.y);
  }
}
