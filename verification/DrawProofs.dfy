/** What the queued controls do to the terminal: they refine the draw commands, and the tracked pen
    is the real one exactly when no step takes one of the unsafe modifier transitions. */
module DrawProofs {
  import opened Wrappers
  import opened Screen
  import opened Diff
  import opened Draw
  import opened DiffProofs

  // ---------- modifier changes ----------

  function ApplyChange(pen: Pen, c: Change): Pen { if c.wanted then ApplySgr(pen, c.sgr) else pen }

  function ApplyChanges(pen: Pen, changes: seq<Change>): Pen {
    if changes == [] then pen
    else ApplyChange(ApplyChanges(pen, changes[..|changes|-1]), changes[|changes|-1])
  }

  /** The effect of one change on one attribute. */
  predicate After(a: Attr, was: bool, c: Change) {
    if !c.wanted then was
    else match c.sgr
      case SgrReset => false
      case On(b) => was || a == b
      case NormalIntensity => was && a != Bold && a != Dim
      case NoItalic => was && a != Italic
      case NoUnderline => was && a != Underlined
      case NoBlink => was && a != SlowBlink && a != RapidBlink
      case NoReverse => was && a != Reversed
      case NotCrossedOut => was && a != CrossedOut
  }

  predicate Has(pen: Pen, changes: seq<Change>, a: Attr) { a in ApplyChanges(pen, changes).attrs }

  lemma OneMore(pen: Pen, changes: seq<Change>, c: Change, a: Attr)
    ensures Has(pen, changes + [c], a) == After(a, Has(pen, changes, a), c)
  {
    assert (changes + [c])[..|changes|] == changes;
  }

  /** What is left of `from` once the changes that remove attributes have been made. SGR 22 and
      SGR 25 each end two attributes at once. */
  predicate Kept(from: Modifier, to: Modifier, a: Attr) {
    match a
    case Bold => Bold in from && Bold in to && Dim !in from - to
    case Dim => Dim in to && (Dim in from || Bold in from - to)
    case SlowBlink => SlowBlink in from && SlowBlink in to && RapidBlink !in from - to
    case RapidBlink => RapidBlink in from && RapidBlink in to && SlowBlink !in from - to
    case Hidden => Hidden in from
    case _ => a in from && a in to
  }

  /** The first four changes that remove attributes. */
  lemma AfterFour(pen: Pen, from: Modifier, to: Modifier, a: Attr)
    requires pen.attrs == from
    ensures Has(pen, Removals([], from, to)[..4], a) <==> (
      match a
      case Reversed => a in from && a in to
      case Italic => a in from && a in to
      case Bold => a in from && a in to
      case Dim => (a in from && Bold !in from - to) || (a in to && Bold in from - to)
      case _ => a in from)
  {
    var removed := from - to;
    var c1 := [] + [Change(Reversed in removed, NoReverse)];
    OneMore(pen, [], Change(Reversed in removed, NoReverse), a);
    var c2 := c1 + [Change(Bold in removed, NormalIntensity)];
    OneMore(pen, c1, Change(Bold in removed, NormalIntensity), a);
    var c3 := c2 + [Change(Bold in removed && Dim in to, On(Dim))];
    OneMore(pen, c2, Change(Bold in removed && Dim in to, On(Dim)), a);
    OneMore(pen, c3, Change(Italic in removed, NoItalic), a);
    assert Removals([], from, to)[..4] == c3 + [Change(Italic in removed, NoItalic)];
  }

  lemma AfterRemovals(pen: Pen, from: Modifier, to: Modifier, a: Attr)
    requires pen.attrs == from
    ensures Has(pen, Removals([], from, to), a) <==> Kept(from, to, a)
  {
    var removed := from - to;
    AfterFour(pen, from, to, a);
    var c4 := Removals([], from, to)[..4];
    var c5 := c4 + [Change(Underlined in removed, NoUnderline)];
    OneMore(pen, c4, Change(Underlined in removed, NoUnderline), a);
    var c6 := c5 + [Change(Dim in removed, NormalIntensity)];
    OneMore(pen, c5, Change(Dim in removed, NormalIntensity), a);
    var c7 := c6 + [Change(CrossedOut in removed, NotCrossedOut)];
    OneMore(pen, c6, Change(CrossedOut in removed, NotCrossedOut), a);
    OneMore(pen, c7, Change(SlowBlink in removed || RapidBlink in removed, NoBlink), a);
    assert Removals([], from, to) == c7 + [Change(SlowBlink in removed || RapidBlink in removed, NoBlink)];
  }

  lemma AfterAdditions(pen: Pen, from: Modifier, to: Modifier, a: Attr, before: seq<Change>)
    ensures Has(pen, Additions(before, from, to), a) <==> Has(pen, before, a) || (a in to - from && a != Hidden)
  {
    var added := to - from;
    var c0 := before;
    var c1 := c0 + [Change(Reversed in added, On(Reversed))];
    OneMore(pen, c0, Change(Reversed in added, On(Reversed)), a);
    var c2 := c1 + [Change(Bold in added, On(Bold))];
    OneMore(pen, c1, Change(Bold in added, On(Bold)), a);
    var c3 := c2 + [Change(Italic in added, On(Italic))];
    OneMore(pen, c2, Change(Italic in added, On(Italic)), a);
    var c4 := c3 + [Change(Underlined in added, On(Underlined))];
    OneMore(pen, c3, Change(Underlined in added, On(Underlined)), a);
    var c5 := c4 + [Change(Dim in added, On(Dim))];
    OneMore(pen, c4, Change(Dim in added, On(Dim)), a);
    var c6 := c5 + [Change(CrossedOut in added, On(CrossedOut))];
    OneMore(pen, c5, Change(CrossedOut in added, On(CrossedOut)), a);
    var c7 := c6 + [Change(SlowBlink in added, On(SlowBlink))];
    OneMore(pen, c6, Change(SlowBlink in added, On(SlowBlink)), a);
    var c8 := c7 + [Change(RapidBlink in added, On(RapidBlink))];
    OneMore(pen, c7, Change(RapidBlink in added, On(RapidBlink)), a);
  }

  /** The transitions `ModifierDiff` carries out correctly: it must not drop one of the two
      intensities, or one of the two blinks, while the other stays, and it never sends SGR 8. */
  predicate SafeStep(from: Modifier, to: Modifier) {
    && !(Dim in from && Dim !in to && Bold in from && Bold in to)
    && !(SlowBlink in from && SlowBlink !in to && RapidBlink in from && RapidBlink in to)
    && !(RapidBlink in from && RapidBlink !in to && SlowBlink in from && SlowBlink in to)
    && (Hidden in from <==> Hidden in to)
  }

  /** From a pen with modifier `from`, the changes reach `to` exactly for the safe transitions. */
  lemma ModifierDiffExact(pen: Pen, from: Modifier, to: Modifier)
    requires pen.attrs == from
    ensures ApplyChanges(pen, ModifierDiff(from, to)).attrs == to <==> SafeStep(from, to)
  {
    var r := ApplyChanges(pen, ModifierDiff(from, to)).attrs;
    forall a: Attr ensures a in r <==> Kept(from, to, a) || (a in to - from && a != Hidden) {
      AfterRemovals(pen, from, to, a);
      AfterAdditions(pen, from, to, a, Removals([], from, to));
    }
    if SafeStep(from, to) {
      assert r == to;
    } else {
      assert (Bold in r) != (Bold in to) || (SlowBlink in r) != (SlowBlink in to)
          || (RapidBlink in r) != (RapidBlink in to) || (Hidden in r) != (Hidden in to);
    }
  }

  // ---------- the controls refine the commands ----------

  /** Controls that only change the pen. */
  lemma {:induction false} WantedChangesPen(s: Screen, changes: seq<Change>)
    requires ScreenOk(s)
    ensures ExecAll(s, Wanted(changes)) == s.(pen := ApplyChanges(s.pen, changes))
    decreases |changes|
  {
    if changes != [] {
      var init, last := changes[..|changes|-1], changes[|changes|-1];
      WantedChangesPen(s, init);
      ExecAllAppend(s, Wanted(init), if last.wanted then [SetAttribute(last.sgr)] else []);
      ExecOne(ExecAll(s, Wanted(init)), SetAttribute(last.sgr));
    }
  }

  lemma ExecOne(s: Screen, op: Op)
    requires ScreenOk(s)
    ensures ExecAll(s, [op]) == Exec(s, op) && ExecAll(s, []) == s
  {
  }

  lemma ExecTwo(s: Screen, a: Op, b: Op)
    requires ScreenOk(s)
    ensures ExecAll(s, [a, b]) == Exec(Exec(s, a), b)
  {
    ExecAllAppend(s, [a], [b]);
    ExecOne(s, a);
    ExecOne(Exec(s, a), b);
    assert [a] + [b] == [a, b];
  }

  lemma ExecThree(s: Screen, a: Op, b: Op, c: Op)
    requires ScreenOk(s)
    ensures ExecAll(s, [a, b, c]) == Exec(Exec(Exec(s, a), b), c)
  {
    ExecAllAppend(s, [a, b], [c]);
    ExecTwo(s, a, b);
    ExecOne(Exec(Exec(s, a), b), c);
    assert [a, b] + [c] == [a, b, c];
  }

  lemma ApplyChangesColors(pen: Pen, changes: seq<Change>)
    requires forall c :: c in changes ==> c.sgr != SgrReset
    ensures var r := ApplyChanges(pen, changes); r.fg == pen.fg && r.bg == pen.bg
    decreases |changes|
  {
    if changes != [] { ApplyChangesColors(pen, changes[..|changes|-1]); }
  }

  lemma DiffNeverResets(from: Modifier, to: Modifier, c: Change)
    requires c in ModifierDiff(from, to)
    ensures c.sgr != SgrReset
  {
  }

  lemma DiffKeepsColors(pen: Pen, from: Modifier, to: Modifier)
    ensures var r := ApplyChanges(pen, ModifierDiff(from, to)); r.fg == pen.fg && r.bg == pen.bg
  {
    var diff := ModifierDiff(from, to);
    forall c | c in diff ensures c.sgr != SgrReset { DiffNeverResets(from, to, c); }
    ApplyChangesColors(pen, diff);
  }

  /** The attributes the pen really has after the controls for a transition, whatever it had before. */
  function AttrsAfter(attrs: Modifier, from: Modifier, to: Modifier): Modifier {
    if to != from then ApplyChanges(Pen(Reset, Reset, attrs), ModifierDiff(from, to)).attrs else attrs
  }

  lemma {:induction false} AttrsOnly(pen: Pen, other: Pen, changes: seq<Change>)
    requires pen.attrs == other.attrs
    ensures ApplyChanges(pen, changes).attrs == ApplyChanges(other, changes).attrs
    decreases |changes|
  {
    if changes != [] { AttrsOnly(pen, other, changes[..|changes|-1]); }
  }

  /** Tracked and real attributes stay the same exactly over safe transitions. */
  lemma AttrsAfterExact(from: Modifier, to: Modifier)
    ensures AttrsAfter(from, from, to) == to <==> SafeStep(from, to)
  {
    ModifierDiffExact(Pen(Reset, Reset, from), from, to);
  }

  lemma ModifierChanges(s: Screen, from: Modifier, to: Modifier)
    requires ScreenOk(s)
    ensures ExecAll(s, if to != from then Wanted(ModifierDiff(from, to)) else [])
         == s.(pen := s.pen.(attrs := AttrsAfter(s.pen.attrs, from, to)))
  {
    var diff := ModifierDiff(from, to);
    WantedChangesPen(s, diff);
    AttrsOnly(s.pen, Pen(Reset, Reset, s.pen.attrs), diff);
    DiffKeepsColors(s.pen, from, to);
  }

  /** What the pen controls of a put do to any pen: the tracked colours only have to be right where they are
      about to be kept. */
  lemma PenSet(s: Screen, t: Tracked, cell: Cell)
    requires ScreenOk(s)
    requires cell.fg == t.fg && cell.bg == t.bg ==> s.pen.fg == t.fg && s.pen.bg == t.bg
    ensures ExecAll(s, PenOps(t, cell))
         == s.(pen := Pen(cell.fg, cell.bg, AttrsAfter(s.pen.attrs, t.modifier, cell.modifier)))
  {
    var first := if cell.modifier != t.modifier then Wanted(ModifierDiff(t.modifier, cell.modifier)) else [];
    var second := if cell.fg != t.fg || cell.bg != t.bg then [SetColors(cell.fg, cell.bg)] else [];
    ModifierChanges(s, t.modifier, cell.modifier);
    ExecAllAppend(s, first, second);
    ExecOne(ExecAll(s, first), SetColors(cell.fg, cell.bg));
  }

  /** After the pen controls of a put, the pen is the cell's, exactly for a safe transition. */
  lemma PenChanges(s: Screen, t: Tracked, cell: Cell)
    requires ScreenOk(s) && s.pen.attrs == t.modifier
    requires cell.fg == t.fg && cell.bg == t.bg ==> s.pen.fg == t.fg && s.pen.bg == t.bg
    ensures var r := ExecAll(s, PenOps(t, cell));
      && r == s.(pen := Pen(cell.fg, cell.bg, r.pen.attrs))
      && (r.pen.attrs == cell.modifier <==> SafeStep(t.modifier, cell.modifier))
  {
    PenSet(s, t, cell);
    AttrsAfterExact(t.modifier, cell.modifier);
  }

  // ---------- the shape of a command list ----------

  datatype Before = Nothing | Did(command: DrawCommand)

  predicate Fits(c: DrawCommand, width: nat, height: nat) {
    c.y < height && c.x < width
    && (c.Put? ==> 1 <= c.cell.symbol.width <= 2 && c.x + c.cell.symbol.width <= width)
  }

  /** A command may follow another if the cursor is where the tracking believes it to be, should it
      leave out the move: never right of a clear's start, never on a wide glyph's tail; and no clear
      may come after a put. */
  predicate Follows(before: Before, c: DrawCommand) {
    match before
    case Nothing => true
    case Did(ClearToEnd(x, y, _)) => !(c.x == x + 1 && c.y == y)
    case Did(Put(x, y, cell)) => c.Put? && (c.x == x + 1 && c.y == y ==> cell.symbol.width == 1)
  }

  predicate Chain(before: Before, cs: seq<DrawCommand>, width: nat, height: nat)
    decreases |cs|
  {
    cs == [] || (Fits(cs[0], width, height) && Follows(before, cs[0]) && Chain(Did(cs[0]), cs[1..], width, height))
  }

  /** No put makes an unsafe modifier transition; a clear resets the modifier. */
  predicate PenSafe(modifier: Modifier, cs: seq<DrawCommand>)
    decreases |cs|
  {
    cs == [] || match cs[0]
      case Put(_, _, cell) => SafeStep(modifier, cell.modifier) && PenSafe(cell.modifier, cs[1..])
      case ClearToEnd(_, _, _) => PenSafe({}, cs[1..])
  }

  /** What the drawing knows of the terminal before a command. */
  predicate Linked(s: Screen, t: Tracked, before: Before) {
    && ScreenOk(s) && s.pen == Pen(t.fg, t.bg, t.modifier)
    && match before
       case Nothing => t == UNTOUCHED
       case Did(Put(x, y, cell)) => t.last == At(x, y) && s.y == y && s.x == x + cell.symbol.width
       case Did(ClearToEnd(x, y, _)) => t.last == At(x, y) && t.fg == Reset
  }

  /** Everything but the rows, the cursor and the pen. */
  predicate SameFrame(s: Screen, r: Screen) {
    SameShape(s, r) && r.scrollback == s.scrollback && r.top == s.top && r.bottom == s.bottom
  }

  lemma MoveLands(s: Screen, t: Tracked, before: Before, c: DrawCommand)
    requires Linked(s, t, before) && Fits(c, s.width, |s.rows|) && Follows(before, c)
    ensures ExecAll(s, MoveOps(t, c)) == s.(x := c.x, y := c.y)
  {
    ExecOne(s, MoveTo(c.x, c.y));
  }

  lemma ClearPaints(s: Screen, t: Tracked, c: DrawCommand)
    requires ScreenOk(s) && s.pen == Pen(t.fg, t.bg, t.modifier) && t.fg == Reset
    requires c.ClearToEnd? && c.x == s.x < s.width && c.y == s.y
    ensures var r := ExecAll(s, PaintOps(t, c));
      r == s.(rows := ApplyCommand(s.rows, c), pen := Pen(Reset, c.bg, {}))
  {
    var s1 := Exec(s, SetAttribute(SgrReset));
    var s2 := Exec(s1, SetBackground(c.bg));
    ExecAllAppend(s, [SetAttribute(SgrReset), SetBackground(c.bg)], [ClearToEndOfLine]);
    ExecAllAppend(s, [SetAttribute(SgrReset)], [SetBackground(c.bg)]);
    ExecOne(s, SetAttribute(SgrReset));
    ExecOne(s1, SetBackground(c.bg));
    ExecOne(s2, ClearToEndOfLine);
  }

  lemma PutPaints(s: Screen, t: Tracked, c: DrawCommand)
    requires ScreenOk(s) && s.pen == Pen(t.fg, t.bg, t.modifier)
    requires c.Put? && Fits(c, s.width, |s.rows|) && c.x == s.x && c.y == s.y && SafeStep(t.modifier, c.cell.modifier)
    ensures var r := ExecAll(s, PaintOps(t, c));
      r == s.(rows := ApplyCommand(s.rows, c), pen := CellPen(c.cell), x := c.x + c.cell.symbol.width)
  {
    PenChanges(s, t, c.cell);
    ExecAllAppend(s, PenOps(t, c.cell), [Print(c.cell.symbol)]);
    ExecOne(ExecAll(s, PenOps(t, c.cell)), Print(c.cell.symbol));
  }

  lemma StepRefines(s: Screen, t: Tracked, before: Before, c: DrawCommand)
    requires Linked(s, t, before) && Fits(c, s.width, |s.rows|) && Follows(before, c)
    requires c.Put? ==> SafeStep(t.modifier, c.cell.modifier)
    ensures var r := ExecAll(s, StepOps(t, c));
      SameFrame(s, r) && r.rows == ApplyCommand(s.rows, c) && Linked(r, StepTracked(t, c), Did(c))
  {
    MoveLands(s, t, before, c);
    ExecAllAppend(s, MoveOps(t, c), PaintOps(t, c));
    var moved := s.(x := c.x, y := c.y);
    if c.Put? { PutPaints(moved, t, c); } else { ClearPaints(moved, t, c); }
  }

  lemma Finishes(s: Screen)
    requires ScreenOk(s)
    ensures ExecAll(s, FINISH) == s.(pen := DEFAULT_PEN)
  {
    ExecThree(s, SetForeground(Reset), SetBackground(Reset), SetAttribute(SgrReset));
    ForegroundIs(s, Reset);
    BackgroundIs(s.(pen := s.pen.(fg := Reset)), Reset);
    ResetIs(s.(pen := s.pen.(fg := Reset, bg := Reset)));
  }

  lemma ForegroundIs(s: Screen, c: Color)
    requires ScreenOk(s)
    ensures Exec(s, SetForeground(c)) == s.(pen := s.pen.(fg := c))
  {
  }

  lemma BackgroundIs(s: Screen, c: Color)
    requires ScreenOk(s)
    ensures Exec(s, SetBackground(c)) == s.(pen := s.pen.(bg := c))
  {
  }

  lemma ResetIs(s: Screen)
    requires ScreenOk(s)
    ensures Exec(s, SetAttribute(SgrReset)) == s.(pen := DEFAULT_PEN)
  {
  }

  /** Leaving out moves and pen changes is harmless: the queued controls have the effect of the
      commands, each put with its own pen at its own place, and leave the default pen. */
  lemma {:induction false} DrawRefines(s: Screen, t: Tracked, before: Before, cs: seq<DrawCommand>)
    requires Linked(s, t, before) && Chain(before, cs, s.width, |s.rows|) && PenSafe(t.modifier, cs)
    ensures var r := ExecAll(s, DrawOps(t, cs));
      SameFrame(s, r) && r.rows == ApplyAll(s.rows, cs) && r.pen == DEFAULT_PEN
    decreases |cs|
  {
    if cs != [] {
      var c := cs[0];
      StepRefines(s, t, before, c);
      ExecAllAppend(s, StepOps(t, c), DrawOps(StepTracked(t, c), cs[1..]));
      DrawRefines(ExecAll(s, StepOps(t, c)), StepTracked(t, c), Did(c), cs[1..]);
    } else {
      Finishes(s);
    }
  }

  /** Whether every glyph is printed with the pen of its cell. */
  predicate PensRight(s: Screen, t: Tracked, cs: seq<DrawCommand>)
    requires ScreenOk(s)
    decreases |cs|
  {
    cs == [] || (
      (cs[0].Put? ==> ExecAll(s, MoveOps(t, cs[0]) + PenOps(t, cs[0].cell)).pen == CellPen(cs[0].cell))
      && PensRight(ExecAll(s, StepOps(t, cs[0])), StepTracked(t, cs[0]), cs[1..]))
  }

  /** The tracked pen is the terminal's pen at every print exactly when no put makes an unsafe
      transition. */
  lemma {:induction false} PensRightExactly(s: Screen, t: Tracked, before: Before, cs: seq<DrawCommand>)
    requires Linked(s, t, before) && Chain(before, cs, s.width, |s.rows|)
    ensures PensRight(s, t, cs) <==> PenSafe(t.modifier, cs)
    decreases |cs|
  {
    if cs != [] {
      var c := cs[0];
      MoveLands(s, t, before, c);
      if c.Put? {
        ExecAllAppend(s, MoveOps(t, c), PenOps(t, c.cell));
        PenChanges(s.(x := c.x, y := c.y), t, c.cell);
      }
      if c.Put? ==> SafeStep(t.modifier, c.cell.modifier) {
        StepRefines(s, t, before, c);
        PensRightExactly(ExecAll(s, StepOps(t, c)), StepTracked(t, c), Did(c), cs[1..]);
      }
    }
  }

  // ---------- every diff is such a list ----------

  function LastOf(before: Before, cs: seq<DrawCommand>): Before {
    if cs == [] then before else Did(cs[|cs|-1])
  }

  lemma {:induction false} ChainAppend(before: Before, a: seq<DrawCommand>, b: seq<DrawCommand>, width: nat,
                                           height: nat)
    ensures Chain(before, a + b, width, height)
       <==> Chain(before, a, width, height) && Chain(LastOf(before, a), b, width, height)
    decreases |a|
  {
    if a == [] {
      assert a + b == b;
    } else {
      assert (a + b)[1..] == a[1..] + b;
      ChainAppend(Did(a[0]), a[1..], b, width, height);
    }
  }

  /** What may precede the puts of a row y from column x on. */
  predicate ReadyFor(before: Before, n: seq<Cell>, y: nat, x: nat)
    requires x <= |n|
  {
    match before
    case Nothing => true
    case Did(ClearToEnd(cx, cy, _)) => cy == y ==> cx > LastNonblank(n)
    case Did(Put(px, py, cell)) => py < y || (py == y && px < x && n[px] == cell)
  }

  lemma {:induction false} RowPutsChain(before: Before, p: seq<Cell>, n: seq<Cell>, y: nat, x: nat, height: nat)
    requires |p| == |n| && x <= |n| && RowWf(n) && y < height && ReadyFor(before, n, y, x)
    ensures Chain(before, RowPuts(p, n, y, x), |n|, height)
    ensures var after := LastOf(before, RowPuts(p, n, y, x));
      ReadyFor(after, n, y, |n|) && (after == before || (after.Did? && after.command.Put?))
    decreases |n| - x
  {
    if x < |n| {
      assert CellWf(n, x);
      if x > 0 { assert CellWf(n, x - 1); }
      var put := RowPut(p, n, y, x);
      ChainAppend(before, put, RowPuts(p, n, y, x + 1), |n|, height);
      if put != [] {
        assert Follows(before, put[0]) && Fits(put[0], |n|, height);
      }
      RowPutsChain(LastOf(before, put), p, n, y, x + 1, height);
    }
  }

  /** The last command before the puts of the rows from `top` on leaves each of them ready. */
  predicate ReadyForAll(before: Before, n: seq<seq<Cell>>, top: nat) {
    forall r :: 0 <= r < |n| ==> ReadyFor(before, n[r], top + r, 0)
  }

  lemma {:induction false} PutListsChain(before: Before, p: seq<seq<Cell>>, n: seq<seq<Cell>>, top: nat,
                                         width: nat, height: nat)
    requires SameGrid(p, n) && GridWf(n) && top + |n| <= height && ReadyForAll(before, n, top)
    requires forall r :: 0 <= r < |n| ==> |n[r]| == width
    ensures Chain(before, Concat(PutLists(p, n, top)), width, height)
    decreases |n|
  {
    if n != [] {
      var puts := RowPuts(p[0], n[0], top, 0);
      assert ReadyFor(before, n[0], top + 0, 0);
      RowPutsChain(before, p[0], n[0], top, 0, height);
      var after := LastOf(before, puts);
      forall r | 0 <= r < |n[1..]| ensures ReadyFor(after, n[1..][r], top + 1 + r, 0) {
        assert ReadyFor(before, n[r + 1], top + (r + 1), 0);
      }
      PutListsChain(after, p[1..], n[1..], top + 1, width, height);
      ConcatStep(puts, PutLists(p[1..], n[1..], top + 1));
      ChainAppend(before, puts, Concat(PutLists(p[1..], n[1..], top + 1)), width, height);
    }
  }

  /** A clear for a row above `top`, or nothing. */
  predicate ClearedAbove(before: Before, top: nat) {
    match before
    case Nothing => true
    case Did(ClearToEnd(_, y, _)) => y < top
    case Did(Put(_, _, _)) => false
  }

  /** The last command is the clear of this row. */
  predicate ClearedBy(after: Before, cells: seq<Cell>, y: nat) {
    ClearOf(cells, y) != [] && after == Did(ClearOf(cells, y)[0])
  }

  lemma {:induction false} ClearListsChain(before: Before, n: seq<seq<Cell>>, top: nat, width: nat, height: nat,
                                           cs: seq<DrawCommand>)
    requires GridWf(n) && top + |n| <= height && ClearedAbove(before, top)
    requires forall r :: 0 <= r < |n| ==> |n[r]| == width
    requires cs == Concat(ClearLists(n, top))
    ensures Chain(before, cs, width, height)
    ensures var after := LastOf(before, cs);
      after == before || exists r :: 0 <= r < |n| && ClearedBy(after, n[r], top + r)
    decreases |n|
  {
    if n != [] {
      var clear, rest := ClearOf(n[0], top), Concat(ClearLists(n[1..], top + 1));
      var after := LastOf(before, clear);
      assert cs == clear + rest by { ConcatStep(clear, ClearLists(n[1..], top + 1)); }
      ClearListsChain(after, n[1..], top + 1, width, height, rest);
      assert Chain(before, clear + rest, width, height) by { ChainAppend(before, clear, rest, width, height); }
      ClearListsLast(before, n, top, clear, rest);
    }
  }

  lemma ClearListsLast(before: Before, n: seq<seq<Cell>>, top: nat, clear: seq<DrawCommand>, rest: seq<DrawCommand>)
    requires n != [] && clear == ClearOf(n[0], top)
    requires var (middle, after) := (LastOf(before, clear), LastOf(LastOf(before, clear), rest));
      after == middle || exists r :: 0 <= r < |n[1..]| && ClearedBy(after, n[1..][r], top + 1 + r)
    ensures var after := LastOf(before, clear + rest);
      after == before || exists r :: 0 <= r < |n| && ClearedBy(after, n[r], top + r)
  {
    var (middle, after) := (LastOf(before, clear), LastOf(LastOf(before, clear), rest));
    assert LastOf(before, clear + rest) == after by {
      if rest != [] {
        assert (clear + rest)[|clear + rest| - 1] == rest[|rest| - 1];
      } else {
        assert clear + rest == clear;
      }
    }
    if after == middle {
      if clear != [] { assert ClearedBy(after, n[0], top + 0); }
    } else {
      var r :| 0 <= r < |n[1..]| && ClearedBy(after, n[1..][r], top + 1 + r);
      assert n[1..][r] == n[r + 1] && ClearedBy(after, n[r + 1], top + (r + 1));
    }
  }

  lemma DiffChain(a: Buffer, b: Buffer, height: nat)
    requires SameArea(a, b) && BufferWf(a) && BufferWf(b) && b.area.x == 0 && b.area.width > 0
    requires b.area.y + b.area.height <= height
    ensures Chain(Nothing, DiffCommands(a, b), b.area.width, height)
  {
    var p, n, top := Rows(a), Rows(b), b.area.y;
    DiffByRow(a, b, p, n);
    var clears, puts := Concat(ClearLists(n, top)), Concat(PutLists(p, n, top));
    ClearListsChain(Nothing, n, top, b.area.width, height, clears);
    PutListsChain(LastOf(Nothing, clears), p, n, top, b.area.width, height);
    ChainAppend(Nothing, clears, puts, b.area.width, height);
  }

  /** A viewport that spans the width of the screen. */
  predicate InScreen(b: Buffer, s: Screen) {
    && ScreenOk(s) && BufferOk(b) && b.area.x == 0 && b.area.width == s.width
    && b.area.y + b.area.height <= |s.rows|
  }

  /** Drawing a frame, from the bytes on: a terminal that shows the previous buffer shows the next
      one afterwards, and everything outside the viewport is as it was. */
  lemma FrameDrawn(s: Screen, a: Buffer, b: Buffer)
    requires InScreen(b, s) && SameArea(a, b) && BufferWf(a) && BufferWf(b)
    requires s.pen == DEFAULT_PEN && Shows(s.rows, a) && PenSafe({}, DiffCommands(a, b))
    ensures var r := ExecAll(s, DrawOps(UNTOUCHED, DiffCommands(a, b)));
      && SameFrame(s, r) && r.pen == DEFAULT_PEN && Shows(r.rows, b)
      && forall k :: 0 <= k < |s.rows| && !(b.area.y <= k < b.area.y + b.area.height) ==> r.rows[k] == s.rows[k]
  {
    DiffChain(a, b, |s.rows|);
    DrawRefines(s, UNTOUCHED, Nothing, DiffCommands(a, b));
    DiffFaithful(s.rows, a, b);
  }
}
