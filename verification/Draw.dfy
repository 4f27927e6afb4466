/** Emitting the draw commands as terminal controls, moving the cursor and changing the pen only
    where the tracked state says it is needed. */
module Draw {
  import opened Wrappers
  import opened Screen
  import opened Diff

  /** The byte sink the controls are queued on. */
  class Writer {
    var queued: seq<Op>

    constructor ()
      ensures queued == []
    {
      queued := [];
    }

    method Queue(op: Op)
      modifies this
      ensures queued == old(queued) + [op]
    {
      queued := queued + [op];
    }
  }

  datatype LastPos = NoPos | At(x: nat, y: nat)

  datatype Tracked = Tracked(fg: Color, bg: Color, modifier: Modifier, last: LastPos)

  const UNTOUCHED := Tracked(Reset, Reset, {}, NoPos)

  /** An attribute change and the condition under which it is queued. */
  datatype Change = Change(wanted: bool, sgr: Sgr)

  /** The changes that turn modifier `from` off where `to` lacks it, after the changes given. */
  function Removals(before: seq<Change>, from: Modifier, to: Modifier): seq<Change> {
    var removed := from - to;
    before
    + [Change(Reversed in removed, NoReverse)]
    + [Change(Bold in removed, NormalIntensity)]
    + [Change(Bold in removed && Dim in to, On(Dim))]
    + [Change(Italic in removed, NoItalic)]
    + [Change(Underlined in removed, NoUnderline)]
    + [Change(Dim in removed, NormalIntensity)]
    + [Change(CrossedOut in removed, NotCrossedOut)]
    + [Change(SlowBlink in removed || RapidBlink in removed, NoBlink)]
  }

  /** The changes that turn on what `to` has and `from` lacks, after the changes given. */
  function Additions(before: seq<Change>, from: Modifier, to: Modifier): seq<Change> {
    var added := to - from;
    before
    + [Change(Reversed in added, On(Reversed))]
    + [Change(Bold in added, On(Bold))]
    + [Change(Italic in added, On(Italic))]
    + [Change(Underlined in added, On(Underlined))]
    + [Change(Dim in added, On(Dim))]
    + [Change(CrossedOut in added, On(CrossedOut))]
    + [Change(SlowBlink in added, On(SlowBlink))]
    + [Change(RapidBlink in added, On(RapidBlink))]
  }

  function ModifierDiff(from: Modifier, to: Modifier): seq<Change> {
    Additions(Removals([], from, to), from, to)
  }

  /** The controls of the changes that are wanted, in order. */
  function Wanted(changes: seq<Change>): seq<Op> {
    if changes == [] then []
    else
      var last := changes[|changes|-1];
      Wanted(changes[..|changes|-1]) + (if last.wanted then [SetAttribute(last.sgr)] else [])
  }

  predicate Adjacent(t: Tracked, c: DrawCommand) {
    t.last.At? && c.x == t.last.x + 1 && c.y == t.last.y
  }

  function MoveOps(t: Tracked, c: DrawCommand): seq<Op> {
    if Adjacent(t, c) then [] else [MoveTo(c.x, c.y)]
  }

  function PenOps(t: Tracked, cell: Cell): seq<Op> {
    (if cell.modifier != t.modifier then Wanted(ModifierDiff(t.modifier, cell.modifier)) else [])
    + (if cell.fg != t.fg || cell.bg != t.bg then [SetColors(cell.fg, cell.bg)] else [])
  }

  function PaintOps(t: Tracked, c: DrawCommand): seq<Op> {
    match c
    case Put(_, _, cell) => PenOps(t, cell) + [Print(cell.symbol)]
    case ClearToEnd(_, _, bg) => [SetAttribute(SgrReset), SetBackground(bg), ClearToEndOfLine]
  }

  function StepOps(t: Tracked, c: DrawCommand): seq<Op> { MoveOps(t, c) + PaintOps(t, c) }

  function StepTracked(t: Tracked, c: DrawCommand): Tracked {
    match c
    case Put(x, y, cell) => Tracked(cell.fg, cell.bg, cell.modifier, At(x, y))
    case ClearToEnd(x, y, bg) => Tracked(t.fg, bg, {}, At(x, y))
  }

  const FINISH := [SetForeground(Reset), SetBackground(Reset), SetAttribute(SgrReset)]

  /** Everything queued for the commands, starting from the tracked state t. */
  function DrawOps(t: Tracked, cs: seq<DrawCommand>): seq<Op>
    decreases |cs|
  {
    if cs == [] then FINISH else StepOps(t, cs[0]) + DrawOps(StepTracked(t, cs[0]), cs[1..])
  }

  // ---------- the loops ----------

  /** Queues one attribute change under a condition; `base` and `acc` record what was there. */
  method QueueWhen(w: Writer, wanted: bool, sgr: Sgr, ghost base: seq<Op>, ghost acc: seq<Change>)
    returns (ghost acc': seq<Change>)
    requires w.queued == base + Wanted(acc)
    modifies w
    ensures acc' == acc + [Change(wanted, sgr)] && w.queued == base + Wanted(acc')
  {
    acc' := acc + [Change(wanted, sgr)];
    assert acc'[..|acc|] == acc;
    if wanted {
      w.Queue(SetAttribute(sgr));
    }
  }

  method QueueRemovals(w: Writer, from: Modifier, to: Modifier, ghost base: seq<Op>, ghost acc: seq<Change>)
    returns (ghost acc': seq<Change>)
    requires w.queued == base + Wanted(acc)
    modifies w
    ensures acc' == Removals(acc, from, to) && w.queued == base + Wanted(acc')
  {
    acc' := acc;
    var removed := from - to;
    acc' := QueueWhen(w, Reversed in removed, NoReverse, base, acc');
    acc' := QueueWhen(w, Bold in removed, NormalIntensity, base, acc');
    acc' := QueueWhen(w, Bold in removed && Dim in to, On(Dim), base, acc');
    acc' := QueueWhen(w, Italic in removed, NoItalic, base, acc');
    acc' := QueueWhen(w, Underlined in removed, NoUnderline, base, acc');
    acc' := QueueWhen(w, Dim in removed, NormalIntensity, base, acc');
    acc' := QueueWhen(w, CrossedOut in removed, NotCrossedOut, base, acc');
    acc' := QueueWhen(w, SlowBlink in removed || RapidBlink in removed, NoBlink, base, acc');
  }

  method QueueAdditions(w: Writer, from: Modifier, to: Modifier, ghost base: seq<Op>, ghost acc: seq<Change>)
    returns (ghost acc': seq<Change>)
    requires w.queued == base + Wanted(acc)
    modifies w
    ensures acc' == Additions(acc, from, to) && w.queued == base + Wanted(acc')
  {
    acc' := acc;
    var added := to - from;
    acc' := QueueWhen(w, Reversed in added, On(Reversed), base, acc');
    acc' := QueueWhen(w, Bold in added, On(Bold), base, acc');
    acc' := QueueWhen(w, Italic in added, On(Italic), base, acc');
    acc' := QueueWhen(w, Underlined in added, On(Underlined), base, acc');
    acc' := QueueWhen(w, Dim in added, On(Dim), base, acc');
    acc' := QueueWhen(w, CrossedOut in added, On(CrossedOut), base, acc');
    acc' := QueueWhen(w, SlowBlink in added, On(SlowBlink), base, acc');
    acc' := QueueWhen(w, RapidBlink in added, On(RapidBlink), base, acc');
  }

  method QueueModifierDiff(w: Writer, from: Modifier, to: Modifier)
    modifies w
    ensures w.queued == old(w.queued) + Wanted(ModifierDiff(from, to))
  {
    ghost var base := w.queued;
    ghost var acc := QueueRemovals(w, from, to, base, []);
    acc := QueueAdditions(w, from, to, base, acc);
  }

  method QueueMove(w: Writer, t: Tracked, x: nat, y: nat, ghost c: DrawCommand)
    requires c.x == x && c.y == y
    modifies w
    ensures w.queued == old(w.queued) + MoveOps(t, c)
  {
    if !(t.last.At? && x == t.last.x + 1 && y == t.last.y) {
      w.Queue(MoveTo(x, y));
    }
  }

  method QueuePen(w: Writer, t: Tracked, cell: Cell)
    modifies w
    ensures w.queued == old(w.queued) + PenOps(t, cell)
  {
    if cell.modifier != t.modifier {
      QueueModifierDiff(w, t.modifier, cell.modifier);
    }
    if cell.fg != t.fg || cell.bg != t.bg {
      w.Queue(SetColors(cell.fg, cell.bg));
    }
  }

  /** One command of `DrawAll`: move, then paint. */
  method DrawOne(w: Writer, t: Tracked, command: DrawCommand) returns (t': Tracked)
    modifies w
    ensures w.queued == old(w.queued) + StepOps(t, command) && t' == StepTracked(t, command)
  {
    QueueMove(w, t, command.x, command.y, command);
    ghost var moved := w.queued;
    match command {
      case Put(x, y, cell) =>
        QueuePen(w, t, cell);
        w.Queue(Print(cell.symbol));
        t' := Tracked(cell.fg, cell.bg, cell.modifier, At(x, y));
      case ClearToEnd(x, y, clearBg) =>
        w.Queue(SetAttribute(SgrReset));
        w.Queue(SetBackground(clearBg));
        w.Queue(ClearToEndOfLine);
        t' := Tracked(t.fg, clearBg, {}, At(x, y));
    }
    assert w.queued == moved + PaintOps(t, command);
    Assoc(old(w.queued), MoveOps(t, command), PaintOps(t, command));
  }

  method DrawAll(w: Writer, commands: seq<DrawCommand>)
    modifies w
    ensures w.queued == old(w.queued) + DrawOps(UNTOUCHED, commands)
  {
    var t := UNTOUCHED;
    var i := 0;
    while i < |commands|
      invariant 0 <= i <= |commands|
      invariant w.queued + DrawOps(t, commands[i..]) == old(w.queued) + DrawOps(UNTOUCHED, commands)
    {
      Assoc(w.queued, StepOps(t, commands[i]), DrawOps(StepTracked(t, commands[i]), commands[i+1..]));
      assert commands[i..][1..] == commands[i+1..];
      t := DrawOne(w, t, commands[i]);
      i := i + 1;
    }
    w.Queue(SetForeground(Reset));
    w.Queue(SetBackground(Reset));
    w.Queue(SetAttribute(SgrReset));
  }
}
