/** Screen buffers and the commands that turn the previous one into the next. */
module Diff {
  import opened Wrappers
  import opened Screen

  datatype Rect = Rect(x: nat, y: nat, width: nat, height: nat)

  datatype Cell = Cell(symbol: Symbol, fg: Color, bg: Color, modifier: Modifier, skip: bool)

  const EMPTY_CELL := Cell(BLANK, Reset, Reset, {}, false)

  datatype Buffer = Buffer(area: Rect, content: seq<Cell>)

  datatype DrawCommand =
    | Put(x: nat, y: nat, cell: Cell)
    | ClearToEnd(x: nat, y: nat, bg: Color)

  // A buffer stores its rows one after the other; the index arithmetic is written without
  // products so that proofs about cells stay linear.

  /** The index of the first cell of row y. */
  function RowStart(width: nat, y: nat): nat {
    if y == 0 then 0 else RowStart(width, y - 1) + width
  }

  function RowIndex(width: nat, i: nat): nat
    requires width > 0
  {
    if i < width then 0 else 1 + RowIndex(width, i - width)
  }

  function ColumnIndex(width: nat, i: nat): (x: nat)
    requires width > 0
    ensures x < width
  {
    if i < width then i else ColumnIndex(width, i - width)
  }

  lemma {:induction false} RowStartIsProduct(width: nat, y: nat)
    ensures RowStart(width, y) == y * width
  {
    if y > 0 { RowStartIsProduct(width, y - 1); }
  }

  lemma {:induction false} IndexSplit(width: nat, i: nat)
    requires width > 0
    ensures i == RowStart(width, RowIndex(width, i)) + ColumnIndex(width, i)
  {
    if i >= width { IndexSplit(width, i - width); }
  }

  lemma MultipleWithin(k: int, width: nat)
    requires 0 < k * width + width && k * width < width
    ensures k == 0
  {
    assert k >= 1 ==> k * width >= width;
  }

  lemma IndicesAreQuotientAndRemainder(width: nat, i: nat)
    requires width > 0
    ensures RowIndex(width, i) == i / width && ColumnIndex(width, i) == i % width
  {
    var y, x := RowIndex(width, i), ColumnIndex(width, i);
    IndexSplit(width, i);
    RowStartIsProduct(width, y);
    var q, r := i / width, i % width;
    assert (y - q) * width == r - x;
    MultipleWithin(y - q, width);
  }

  lemma {:induction false} RowStartMonotone(width: nat, y: nat, z: nat)
    requires y <= z
    ensures RowStart(width, y) <= RowStart(width, z)
    ensures y < z ==> RowStart(width, y) + width <= RowStart(width, z)
    decreases z - y
  {
    if y < z { RowStartMonotone(width, y, z - 1); }
  }

  /** Cell x of row y is counted at row y, column x. */
  lemma {:induction false} CellPosition(width: nat, y: nat, x: nat)
    requires x < width
    ensures RowIndex(width, RowStart(width, y) + x) == y
    ensures ColumnIndex(width, RowStart(width, y) + x) == x
  {
    if y > 0 { CellPosition(width, y - 1, x); }
  }

  /** Every cell of a buffer lies in one of its rows. */
  lemma {:induction false} CellInRow(width: nat, height: nat, i: nat)
    requires i < RowStart(width, height)
    ensures width > 0 && RowIndex(width, i) < height
    ensures i == RowStart(width, RowIndex(width, i)) + ColumnIndex(width, i)
  {
    RowStartIsProduct(width, height);
    if i >= width {
      assert height > 1;
      CellInRow(width, height - 1, i - width);
    }
  }

  predicate BufferOk(b: Buffer) { |b.content| == RowStart(b.area.width, b.area.height) }

  /** Row y of a buffer. */
  function RowOf(b: Buffer, y: nat): (row: seq<Cell>)
    requires BufferOk(b) && y < b.area.height
    ensures |row| == b.area.width
  {
    RowStartMonotone(b.area.width, y, b.area.height);
    b.content[RowStart(b.area.width, y) .. RowStart(b.area.width, y) + b.area.width]
  }

  /** A space without modifiers in the given background. */
  predicate Plain(c: Cell, bg: Color) {
    c.symbol.text == " " && c.bg == bg && c.modifier == {}
  }

  function RowBg(row: seq<Cell>): Color {
    if row == [] then Reset else row[|row|-1].bg
  }

  function LastNonblankFrom(row: seq<Cell>, column: nat, last: nat): nat
    decreases |row| - column
  {
    if column >= |row| then last
    else
      var width := row[column].symbol.width;
      LastNonblankFrom(row, column + Max(width, 1),
                       if Plain(row[column], RowBg(row)) then last else column + Less1(width))
  }

  /** The last column the clear at the end of the row must leave alone. */
  function LastNonblank(row: seq<Cell>): nat { LastNonblankFrom(row, 0, 0) }

  function RowClear(b: Buffer, y: nat): seq<DrawCommand>
    requires BufferOk(b) && y < b.area.height
  {
    var row := RowOf(b, y);
    var last := LastNonblank(row);
    if last + 1 < |row| then
      [ClearToEnd(b.area.x + last + 1, b.area.y + y, RowBg(row))]
    else []
  }

  function Clears(b: Buffer, y: nat): seq<DrawCommand>
    requires BufferOk(b) && y <= b.area.height
    decreases b.area.height - y
  {
    if y == b.area.height then [] else RowClear(b, y) + Clears(b, y + 1)
  }

  predicate SameArea(a: Buffer, b: Buffer) {
    BufferOk(a) && BufferOk(b) && a.area == b.area
  }

  /** The put for one cell at screen position (x, y), if it needs one. */
  function PutFor(current: Cell, previous: Cell, x: nat, y: nat, lastNonblank: nat, invalidated: nat, toSkip: nat)
    : seq<DrawCommand>
  {
    if !current.skip && (current != previous || invalidated > 0) && toSkip == 0 && x <= lastNonblank
    then [Put(x, y, current)]
    else []
  }

  function PutAt(a: Buffer, b: Buffer, columns: seq<nat>, i: nat, invalidated: nat, toSkip: nat): seq<DrawCommand>
    requires SameArea(a, b) && i < |b.content| && |columns| == b.area.height
  {
    CellInRow(b.area.width, b.area.height, i);
    var x, y := ColumnIndex(b.area.width, i), RowIndex(b.area.width, i);
    PutFor(b.content[i], a.content[i], b.area.x + x, b.area.y + y, columns[y], invalidated, toSkip)
  }

  /** The puts from cell i on; the counters carry what earlier wide glyphs cover and damage, and
      `columns` holds the last column that matters of every row. */
  function Puts(a: Buffer, b: Buffer, columns: seq<nat>, i: nat, invalidated: nat, toSkip: nat): seq<DrawCommand>
    requires SameArea(a, b) && i <= |b.content| && |columns| == b.area.height
    decreases |b.content| - i
  {
    if i == |b.content| then []
    else
      var width := b.content[i].symbol.width;
      PutAt(a, b, columns, i, invalidated, toSkip)
      + Puts(a, b, columns, i + 1, Less1(Max(Max(width, a.content[i].symbol.width), invalidated)), Less1(width))
  }

  /** `LastNonblank` of the rows above y. */
  function LastColumns(b: Buffer, y: nat): (columns: seq<nat>)
    requires BufferOk(b) && y <= b.area.height
    ensures |columns| == y
  {
    if y == 0 then [] else LastColumns(b, y - 1) + [LastNonblank(RowOf(b, y - 1))]
  }

  lemma LastColumnsAt(b: Buffer, y: nat, row: nat)
    requires BufferOk(b) && row < y <= b.area.height
    ensures LastColumns(b, y)[row] == LastNonblank(RowOf(b, row))
  {
  }

  function DiffCommands(a: Buffer, b: Buffer): seq<DrawCommand>
    requires SameArea(a, b)
  {
    Clears(b, 0) + Puts(a, b, LastColumns(b, b.area.height), 0, 0, 0)
  }

  /** The scan of one row for the column its trailing clear must start after. */
  method ScanRow(row: seq<Cell>) returns (lastNonblankColumn: nat)
    ensures lastNonblankColumn == LastNonblank(row)
  {
    var bg := if |row| > 0 then row[|row|-1].bg else Reset;
    lastNonblankColumn := 0;
    var column := 0;
    while column < |row|
      invariant LastNonblankFrom(row, column, lastNonblankColumn) == LastNonblank(row)
      decreases |row| - column
    {
      var cell := row[column];
      var width := cell.symbol.width;
      if cell.symbol.text != " " || cell.bg != bg || cell.modifier != {} {
        lastNonblankColumn := column + Less1(width);
      }
      column := column + Max(width, 1);
    }
  }

  /** The screen position of cell i. */
  method PosOf(area: Rect, i: nat) returns (x: nat, y: nat)
    requires area.width > 0
    ensures x == area.x + ColumnIndex(area.width, i) && y == area.y + RowIndex(area.width, i)
  {
    IndicesAreQuotientAndRemainder(area.width, i);
    x, y := area.x + i % area.width, area.y + i / area.width;
  }

  lemma ClearsStep(b: Buffer, y: nat, updates: seq<DrawCommand>)
    requires BufferOk(b) && y < b.area.height
    ensures updates + Clears(b, y) == (updates + RowClear(b, y)) + Clears(b, y + 1)
  {
    Assoc(updates, RowClear(b, y), Clears(b, y + 1));
  }

  /** The clear for the rest of row y, if there is one. */
  method ClearRow(b: Buffer, y: nat) returns (clear: seq<DrawCommand>, last: nat)
    requires BufferOk(b) && y < b.area.height
    ensures clear == RowClear(b, y) && last == LastNonblank(RowOf(b, y))
  {
    var row := RowOf(b, y);
    last := ScanRow(row);
    clear := [];
    if last + 1 < |row| {
      RowStartIsProduct(b.area.width, y);
      CellPosition(b.area.width, y, last + 1);
      var x, y' := PosOf(b.area, y * b.area.width + last + 1);
      clear := [ClearToEnd(x, y', RowBg(row))];
    }
  }

  method ClearRows(b: Buffer) returns (updates: seq<DrawCommand>, lastNonblankColumns: seq<nat>)
    requires BufferOk(b)
    ensures updates == Clears(b, 0)
    ensures lastNonblankColumns == LastColumns(b, b.area.height)
  {
    updates, lastNonblankColumns := [], [];
    var y := 0;
    while y < b.area.height
      invariant 0 <= y <= b.area.height
      invariant updates + Clears(b, y) == Clears(b, 0)
      invariant lastNonblankColumns == LastColumns(b, y)
    {
      var clear, last := ClearRow(b, y);
      ClearsStep(b, y, updates);
      updates, lastNonblankColumns, y := updates + clear, lastNonblankColumns + [last], y + 1;
    }
    Assoc(updates, [], []);
  }

  /** The put for cell i, if the loop over the cells emits one. */
  method PutCell(a: Buffer, b: Buffer, lastNonblankColumns: seq<nat>, i: nat, invalidated: nat, toSkip: nat)
    returns (put: seq<DrawCommand>)
    requires SameArea(a, b) && i < |b.content| && |lastNonblankColumns| == b.area.height
    ensures put == PutAt(a, b, lastNonblankColumns, i, invalidated, toSkip)
  {
    put := [];
    if !b.content[i].skip && (b.content[i] != a.content[i] || invalidated > 0) && toSkip == 0 {
      CellInRow(b.area.width, b.area.height, i);
      IndicesAreQuotientAndRemainder(b.area.width, i);
      var x, y := PosOf(b.area, i);
      if x <= lastNonblankColumns[i / b.area.width] {
        put := [Put(x, y, b.content[i])];
      }
    }
  }

  method DiffBuffers(a: Buffer, b: Buffer) returns (updates: seq<DrawCommand>)
    requires SameArea(a, b)
    ensures updates == DiffCommands(a, b)
  {
    var lastNonblankColumns;
    updates, lastNonblankColumns := ClearRows(b);
    var invalidated, toSkip, i := 0, 0, 0;
    while i < |b.content|
      invariant 0 <= i <= |b.content|
      invariant updates + Puts(a, b, lastNonblankColumns, i, invalidated, toSkip) == DiffCommands(a, b)
    {
      var put := PutCell(a, b, lastNonblankColumns, i, invalidated, toSkip);
      var current, previous := b.content[i], a.content[i];
      var affectedWidth := Max(current.symbol.width, previous.symbol.width);
      ghost var rest := Puts(a, b, lastNonblankColumns, i + 1,
                             Less1(Max(affectedWidth, invalidated)), Less1(current.symbol.width));
      Assoc(updates, put, rest);
      updates := updates + put;
      toSkip := Less1(current.symbol.width);
      invalidated := Less1(Max(affectedWidth, invalidated));
      i := i + 1;
    }
    Assoc(updates, [], []);
  }
}
