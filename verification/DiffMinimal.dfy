/** No more is drawn than has changed: which cells a diff puts, where the clear of a row begins, and that a run
    of cells in one pen costs no controls between them. */
module DiffMinimal {
  import opened Wrappers
  import opened Screen
  import opened Diff
  import opened DiffProofs
  import opened Draw

  // ---------- the puts ----------

  /** A glyph starts at this column, before the blank end of the row, and the cell is not the one shown: it has
      another content, or the second half of a wide glyph stood there. */
  predicate NeedsPut(p: seq<Cell>, n: seq<Cell>, x: nat)
    requires x < |n| == |p|
  {
    && IsLead(n, x) && x <= LastNonblank(n)
    && (n[x] != p[x] || (x > 0 && p[x - 1].symbol.width == 2))
  }

  lemma RowPutExactly(p: seq<Cell>, n: seq<Cell>, y: nat, x: nat)
    requires RowWf(p) && RowWf(n) && x < |n| == |p|
    ensures RowPut(p, n, y, x) == if NeedsPut(p, n, x) then [Put(x, y, n[x])] else []
  {
    assert CellWf(n, x);
    if x > 0 { assert CellWf(n, x - 1) && CellWf(p, x - 1); }
  }

  lemma {:induction false} RowPutsExactly(p: seq<Cell>, n: seq<Cell>, y: nat, x: nat, c: DrawCommand)
    requires RowWf(p) && RowWf(n) && x <= |n| == |p|
    ensures c in RowPuts(p, n, y, x) <==> exists j :: x <= j < |n| && NeedsPut(p, n, j) && c == Put(j, y, n[j])
    decreases |n| - x
  {
    if x < |n| {
      RowPutExactly(p, n, y, x);
      RowPutsExactly(p, n, y, x + 1, c);
    }
  }

  lemma {:induction false} InConcat(lists: seq<seq<DrawCommand>>, c: DrawCommand)
    ensures c in Concat(lists) <==> exists r :: 0 <= r < |lists| && c in lists[r]
  {
    if lists != [] {
      InConcat(lists[1..], c);
      assert forall r :: 0 < r < |lists| ==> lists[r] == lists[1..][r - 1];
      if r :| 0 <= r < |lists[1..]| && c in lists[1..][r] { assert c in lists[r + 1]; }
    }
  }

  /** The cell of a buffer at this place is put. */
  ghost predicate PutOf(a: Buffer, b: Buffer, c: DrawCommand, y: nat, x: nat)
    requires SameArea(a, b)
  {
    && y < b.area.height && x < b.area.width
    && NeedsPut(RowOf(a, y), RowOf(b, y), x) && c == Put(x, b.area.y + y, RowOf(b, y)[x])
  }

  lemma PutsOfRowExactly(a: Buffer, b: Buffer, c: DrawCommand, r: nat)
    requires SameArea(a, b) && BufferWf(a) && BufferWf(b) && SameGrid(Rows(a), Rows(b)) && r < b.area.height
    ensures c in PutLists(Rows(a), Rows(b), b.area.y)[r] <==> exists x: nat :: PutOf(a, b, c, r, x)
  {
    var p, n := RowOf(a, r), RowOf(b, r);
    PutListsAt(Rows(a), Rows(b), b.area.y, r);
    RowPutsExactly(p, n, b.area.y + r, 0, c);
    assert forall x: nat :: PutOf(a, b, c, r, x) <==> x < |n| && NeedsPut(p, n, x) && c == Put(x, b.area.y + r, n[x]);
  }

  lemma NoPutCleared(b: Buffer, c: DrawCommand)
    requires BufferOk(b) && c.Put?
    ensures c !in Concat(ClearLists(Rows(b), b.area.y))
  {
    InConcat(ClearLists(Rows(b), b.area.y), c);
    forall r | 0 <= r < b.area.height ensures c !in ClearLists(Rows(b), b.area.y)[r] {
      ClearListsAt(Rows(b), b.area.y, r);
    }
  }

  /** A diff puts exactly the cells that need it, each at its place. */
  lemma PutsExactly(a: Buffer, b: Buffer, c: DrawCommand)
    requires SameArea(a, b) && BufferWf(a) && BufferWf(b) && b.area.x == 0 && b.area.width > 0 && c.Put?
    ensures c in DiffCommands(a, b) <==> exists y: nat, x: nat :: PutOf(a, b, c, y, x)
  {
    DiffByRow(a, b, Rows(a), Rows(b));
    NoPutCleared(b, c);
    var puts := PutLists(Rows(a), Rows(b), b.area.y);
    InConcat(puts, c);
    if r :| 0 <= r < |puts| && c in puts[r] { PutsOfRowExactly(a, b, c, r); }
    if y: nat, x: nat :| PutOf(a, b, c, y, x) {
      PutsOfRowExactly(a, b, c, y);
      assert c in puts[y];
    }
  }

  /** Drawing the same buffer again puts nothing. */
  lemma NothingToPut(b: Buffer, c: DrawCommand)
    requires BufferWf(b) && b.area.x == 0 && b.area.width > 0 && c.Put?
    ensures c !in DiffCommands(b, b)
  {
    PutsExactly(b, b, c);
    forall y: nat, x: nat ensures !PutOf(b, b, c, y, x) {
      if y < b.area.height && x < b.area.width { NoPutSame(RowOf(b, y), x); }
    }
  }

  lemma NoPutSame(row: seq<Cell>, x: nat)
    requires x < |row|
    ensures !NeedsPut(row, row, x)
  {
  }

  // ---------- the clears ----------

  /** The last column kept is the end of a glyph that is not blank like the end of the row, or the first. */
  ghost predicate LastGlyph(row: seq<Cell>, last: nat, j: nat) {
    j < |row| && IsLead(row, j) && last == j + Less1(row[j].symbol.width) && !Plain(row[j], RowBg(row))
  }

  lemma {:induction false} ScanExact(row: seq<Cell>, column: nat, last: nat)
    requires RowWf(row) && column <= |row| && IsLead(row, column)
    requires last == 0 || exists j :: LastGlyph(row, last, j)
    ensures var l := LastNonblankFrom(row, column, last); l == 0 || exists j :: LastGlyph(row, l, j)
    decreases |row| - column
  {
    if column < |row| {
      var width := row[column].symbol.width;
      var next := if Plain(row[column], RowBg(row)) then last else column + Less1(width);
      assert CellWf(row, column);
      if !Plain(row[column], RowBg(row)) { assert LastGlyph(row, next, column); }
      ScanExact(row, column + width, next);
    }
  }

  /** The clear of a row begins behind its last glyph that is not a plain blank, and not before the second
      column; everything behind is blank in its colour. */
  lemma ClearExactly(row: seq<Cell>, y: nat)
    requires RowWf(row) && |row| > 0
    ensures var last := LastNonblank(row);
      && last < |row| && (last == 0 || exists j :: LastGlyph(row, last, j))
      && (forall j :: last < j < |row| ==> Plain(row[j], row[|row| - 1].bg))
      && ClearOf(row, y) == if last + 1 < |row| then [ClearToEnd(last + 1, y, row[|row| - 1].bg)] else []
  {
    LastNonblankBound(row);
    ScanExact(row, 0, 0);
  }

  // ---------- the controls ----------

  function PutsFrom(x: nat, y: nat, cells: seq<Cell>): seq<DrawCommand>
    decreases |cells|
  {
    if cells == [] then [] else [Put(x, y, cells[0])] + PutsFrom(x + 1, y, cells[1..])
  }

  function PrintsOf(cells: seq<Cell>): seq<Op> {
    if cells == [] then [] else [Print(cells[0].symbol)] + PrintsOf(cells[1..])
  }

  predicate AllInPen(cells: seq<Cell>, fg: Color, bg: Color, modifier: Modifier) {
    forall c :: c in cells ==> c.fg == fg && c.bg == bg && c.modifier == modifier
  }

  /** A run of cells in the tracked pen, right behind the last one put, is printed without any other control. */
  lemma {:induction false} RunPrinted(t: Tracked, x: nat, y: nat, cells: seq<Cell>, rest: seq<DrawCommand>)
    requires t.last == At(x, y) && AllInPen(cells, t.fg, t.bg, t.modifier)
    ensures DrawOps(t, PutsFrom(x + 1, y, cells) + rest)
         == PrintsOf(cells) + DrawOps(t.(last := At(x + |cells|, y)), rest)
    decreases |cells|
  {
    var end := DrawOps(t.(last := At(x + |cells|, y)), rest);
    if cells == [] {
      assert PutsFrom(x + 1, y, cells) + rest == rest && PrintsOf(cells) + end == end;
    } else {
      var c, others := cells[0], cells[1..];
      var puts, next := PutsFrom(x + 2, y, others), t.(last := At(x + 1, y));
      assert c in cells && PutsFrom(x + 1, y, cells) == [Put(x + 1, y, c)] + puts;
      Assoc([Put(x + 1, y, c)], puts, rest);
      CellPrinted(t, x, y, c, puts + rest);
      RunPrinted(next, x + 1, y, others, rest);
      Assoc([Print(c.symbol)], PrintsOf(others), end);
    }
  }

  lemma CellPrinted(t: Tracked, x: nat, y: nat, c: Cell, more: seq<DrawCommand>)
    requires t.last == At(x, y) && AllInPen([c], t.fg, t.bg, t.modifier)
    ensures DrawOps(t, [Put(x + 1, y, c)] + more)
         == [Print(c.symbol)] + DrawOps(t.(last := At(x + 1, y)), more)
  {
    var put := Put(x + 1, y, c);
    assert c in [c] && ([put] + more)[1..] == more;
    assert StepOps(t, put) == [Print(c.symbol)] && StepTracked(t, put) == t.(last := At(x + 1, y));
  }
}
