/** The terminal the program writes to: a grid of cells with a cursor, an SGR pen, a DECSTBM
    scroll region and a scrollback. The controls are those of ECMA-48 (CUP, SGR, EL, ED, IND/LF,
    RI) plus DEC's DECSTBM; `Exec` is the effect of one of them. */
module Screen {

  datatype Color = Reset | Palette(index: nat)

  datatype Attr = Bold | Dim | Italic | Underlined | SlowBlink | RapidBlink | Reversed | Hidden | CrossedOut

  type Modifier = set<Attr>

  datatype Pen = Pen(fg: Color, bg: Color, attrs: Modifier)

  const DEFAULT_PEN := Pen(Reset, Reset, {})

  /** A grapheme together with the number of columns it occupies. */
  datatype Symbol = Symbol(text: string, width: nat)

  const BLANK := Symbol(" ", 1)

  /** `Lead` is the column where a glyph starts, `Tail` the second column of a two-column glyph.
      `Torn` is what is left when one half of a two-column glyph is overwritten: no standard says
      what it looks like, so nothing is ever proved to be shown by a `Torn` cell. */
  datatype ScreenCell = Lead(symbol: Symbol, pen: Pen) | Tail | Torn

  type Row = seq<ScreenCell>

  /** The SGR parameters the program uses. */
  datatype Sgr =
    | SgrReset | On(attr: Attr)
    | NormalIntensity | NoItalic | NoUnderline | NoBlink | NoReverse | NotCrossedOut

  datatype Op =
    | MoveTo(x: nat, y: nat) | MoveDown(count: nat) | MoveToColumn(column: nat)
    | SavePosition | RestorePosition
    | SetAttribute(sgr: Sgr) | SetColors(fg: Color, bg: Color)
    | SetForeground(color: Color) | SetBackground(color: Color)
    | Print(symbol: Symbol) | CarriageReturn | LineFeed | ReverseIndex | ScrollUp(count: nat)
    | ClearToEndOfLine | ClearToEndOfScreen
    | SetScrollRegion(first: nat, last: nat) | ResetScrollRegion

  /** `top` and `bottom` are the first and last row of the scroll region. `x == width` is the
      pending-wrap position after a glyph was printed in the last column. A VT100 refuses a scroll
      region of one line; `oneLineRegions` says whether this terminal accepts it. */
  datatype Screen = Screen(
    width: nat, oneLineRegions: bool, scrollback: seq<Row>, rows: seq<Row>,
    x: nat, y: nat, pen: Pen, top: nat, bottom: nat, savedX: nat, savedY: nat)

  predicate CellOk(row: Row, j: nat)
    requires j < |row|
  {
    match row[j]
    case Torn => true
    case Tail => j > 0 && row[j-1].Lead? && row[j-1].symbol.width == 2
    case Lead(symbol, _) => symbol.width == 1 || (symbol.width == 2 && j + 1 < |row| && row[j+1].Tail?)
  }

  /** Every two-column glyph has its tail, and every tail its glyph. */
  predicate RowOk(row: Row) {
    forall j :: 0 <= j < |row| ==> CellOk(row, j)
  }

  predicate RowsOk(rows: seq<Row>, width: nat) {
    forall r :: 0 <= r < |rows| ==> |rows[r]| == width && RowOk(rows[r])
  }

  predicate ScreenOk(s: Screen) {
    && s.width > 0 && RowsOk(s.rows, s.width)
    && s.x <= s.width && s.y < |s.rows| && s.top <= s.bottom < |s.rows|
  }

  predicate FullRegion(s: Screen) {
    s.top == 0 && s.bottom + 1 == |s.rows|
  }

  function BlankCell(bg: Color): ScreenCell { Lead(BLANK, Pen(Reset, bg, {})) }

  function BlankRow(width: nat, bg: Color): (row: Row)
    ensures |row| == width && RowOk(row)
  {
    seq(width, _ => BlankCell(bg))
  }

  /** A glyph written at column x; a two-column glyph it cuts leaves its other half torn. */
  function WriteGlyph(row: Row, x: nat, symbol: Symbol, pen: Pen): (r: Row)
    requires 1 <= symbol.width <= 2 && x + symbol.width <= |row|
    ensures |r| == |row|
  {
    seq(|row|, j requires 0 <= j < |row| =>
      if j == x then Lead(symbol, pen)
      else if x < j < x + symbol.width then Tail
      else if j + 1 == x && row[x].Tail? then Torn
      else if j == x + symbol.width && row[j].Tail? then Torn
      else row[j])
  }

  /** EL from column x: the rest of the row becomes blank in the background given. */
  function EraseFrom(row: Row, x: nat, bg: Color): (r: Row)
    ensures |r| == |row|
  {
    seq(|row|, j requires 0 <= j < |row| =>
      if x <= j then BlankCell(bg)
      else if j + 1 == x && x < |row| && row[x].Tail? then Torn
      else row[j])
  }

  lemma WriteGlyphOk(row: Row, x: nat, symbol: Symbol, pen: Pen)
    requires 1 <= symbol.width <= 2 && x + symbol.width <= |row| && RowOk(row)
    ensures RowOk(WriteGlyph(row, x, symbol, pen))
  {
    forall j | 0 <= j < |row| ensures CellOk(WriteGlyph(row, x, symbol, pen), j) {
      assert CellOk(row, j);
      if j > 0 { assert CellOk(row, j - 1); }
      if j + 1 < |row| { assert CellOk(row, j + 1); }
      if x < |row| { assert CellOk(row, x); }
    }
  }

  lemma EraseFromOk(row: Row, x: nat, bg: Color)
    requires RowOk(row)
    ensures RowOk(EraseFrom(row, x, bg))
  {
    var r := EraseFrom(row, x, bg);
    forall j | 0 <= j < |row| ensures CellOk(r, j) {
      assert CellOk(row, j);
      if x < |row| { assert CellOk(row, x); }
      if x <= j { assert r[j] == BlankCell(bg); }
    }
  }

  function ApplySgr(pen: Pen, sgr: Sgr): Pen {
    match sgr
    case SgrReset => DEFAULT_PEN
    case On(a) => pen.(attrs := pen.attrs + {a})
    case NormalIntensity => pen.(attrs := pen.attrs - {Bold, Dim})
    case NoItalic => pen.(attrs := pen.attrs - {Italic})
    case NoUnderline => pen.(attrs := pen.attrs - {Underlined})
    case NoBlink => pen.(attrs := pen.attrs - {SlowBlink, RapidBlink})
    case NoReverse => pen.(attrs := pen.attrs - {Reversed})
    case NotCrossedOut => pen.(attrs := pen.attrs - {CrossedOut})
  }

  /** What every control keeps: the size of the screen and its well-formedness. */
  predicate SameShape(s: Screen, r: Screen)
  {
    && ScreenOk(r) && r.width == s.width && |r.rows| == |s.rows|
    && r.oneLineRegions == s.oneLineRegions
  }

  /** The region moves up one row; a row leaving the top of the screen enters the scrollback. */
  function RegionUp(s: Screen): (r: Screen)
    requires ScreenOk(s)
    ensures SameShape(s, r) && r.y == s.y && r.x == s.x
  {
    s.(rows := s.rows[..s.top] + s.rows[s.top+1..s.bottom+1] + [BlankRow(s.width, s.pen.bg)] + s.rows[s.bottom+1..],
       scrollback := if s.top == 0 then s.scrollback + [s.rows[0]] else s.scrollback)
  }

  function RegionUpBy(s: Screen, n: nat): (r: Screen)
    requires ScreenOk(s)
    ensures SameShape(s, r)
    decreases n
  {
    if n == 0 then s else RegionUpBy(RegionUp(s), n - 1)
  }

  function RegionDown(s: Screen): (r: Screen)
    requires ScreenOk(s)
    ensures SameShape(s, r)
  {
    s.(rows := s.rows[..s.top] + [BlankRow(s.width, s.pen.bg)] + s.rows[s.top..s.bottom] + s.rows[s.bottom+1..])
  }

  function Index(s: Screen): (r: Screen)
    requires ScreenOk(s)
    ensures SameShape(s, r) && r.x == s.x
  {
    if s.y == s.bottom then RegionUp(s)
    else if s.y + 1 < |s.rows| then s.(y := s.y + 1)
    else s
  }

  function ExecReverseIndex(s: Screen): (r: Screen)
    requires ScreenOk(s)
    ensures SameShape(s, r)
  {
    if s.y == s.top then RegionDown(s)
    else if s.y > 0 then s.(y := s.y - 1)
    else s
  }

  /** Prints with autowrap; glyphs of other widths than one and two columns are not modelled. */
  function ExecPrint(s: Screen, symbol: Symbol): (r: Screen)
    requires ScreenOk(s)
    ensures SameShape(s, r)
  {
    if symbol.width == 0 || symbol.width > 2 || symbol.width > s.width then s
    else
      var s1 := if s.x + symbol.width > s.width then Index(s.(x := 0)) else s;
      WriteGlyphOk(s1.rows[s1.y], s1.x, symbol, s1.pen);
      s1.(rows := s1.rows[s1.y := WriteGlyph(s1.rows[s1.y], s1.x, symbol, s1.pen)],
          x := s1.x + symbol.width)
  }

  function Column(s: Screen): nat
    requires s.width > 0
  {
    if s.x < s.width then s.x else s.width - 1
  }

  function ExecEraseLine(s: Screen): (r: Screen)
    requires ScreenOk(s)
    ensures SameShape(s, r)
  {
    EraseFromOk(s.rows[s.y], Column(s), s.pen.bg);
    s.(rows := s.rows[s.y := EraseFrom(s.rows[s.y], Column(s), s.pen.bg)])
  }

  function ExecEraseBelow(s: Screen): (r: Screen)
    requires ScreenOk(s)
    ensures SameShape(s, r)
  {
    EraseFromOk(s.rows[s.y], Column(s), s.pen.bg);
    s.(rows := s.rows[..s.y] + [EraseFrom(s.rows[s.y], Column(s), s.pen.bg)]
             + seq(|s.rows| - s.y - 1, _ => BlankRow(s.width, s.pen.bg)))
  }

  function ExecSetRegion(s: Screen, first: nat, last: nat): (r: Screen)
    requires ScreenOk(s)
    ensures SameShape(s, r)
  {
    if 1 <= first && last <= |s.rows| && (first < last || (first == last && s.oneLineRegions))
    then s.(top := first - 1, bottom := last - 1, x := 0, y := 0)
    else s
  }

  function Clamp(v: nat, limit: nat): (r: nat)
    requires limit > 0
    ensures r < limit
  {
    if v < limit then v else limit - 1
  }

  function Exec(s: Screen, op: Op): (r: Screen)
    requires ScreenOk(s)
    ensures SameShape(s, r)
  {
    match op
    case MoveTo(x, y) => s.(x := Clamp(x, s.width), y := Clamp(y, |s.rows|))
    case MoveDown(n) =>
      s.(y := if s.y <= s.bottom then Clamp(s.y + n, s.bottom + 1) else Clamp(s.y + n, |s.rows|))
    case MoveToColumn(x) => s.(x := Clamp(x, s.width))
    case SavePosition => s.(savedX := Column(s), savedY := s.y)
    case RestorePosition => s.(x := Clamp(s.savedX, s.width), y := Clamp(s.savedY, |s.rows|))
    case SetAttribute(sgr) => s.(pen := ApplySgr(s.pen, sgr))
    case SetColors(fg, bg) => s.(pen := s.pen.(fg := fg, bg := bg))
    case SetForeground(c) => s.(pen := s.pen.(fg := c))
    case SetBackground(c) => s.(pen := s.pen.(bg := c))
    case Print(symbol) => ExecPrint(s, symbol)
    case CarriageReturn => s.(x := 0)
    case LineFeed => Index(s)
    case ReverseIndex => ExecReverseIndex(s)
    case ScrollUp(n) => RegionUpBy(s, n)
    case ClearToEndOfLine => ExecEraseLine(s)
    case ClearToEndOfScreen => ExecEraseBelow(s)
    case SetScrollRegion(first, last) => ExecSetRegion(s, first, last)
    case ResetScrollRegion => s.(top := 0, bottom := |s.rows| - 1, x := 0, y := 0)
  }

  function ExecAll(s: Screen, ops: seq<Op>): (r: Screen)
    requires ScreenOk(s)
    ensures SameShape(s, r)
    decreases |ops|
  {
    if ops == [] then s else ExecAll(Exec(s, ops[0]), ops[1..])
  }

  lemma {:induction false} ExecAllAppend(s: Screen, a: seq<Op>, b: seq<Op>)
    requires ScreenOk(s)
    ensures ExecAll(s, a + b) == ExecAll(ExecAll(s, a), b)
    decreases |a|
  {
    if a == [] {
      assert a + b == b;
    } else {
      assert (a + b)[1..] == a[1..] + b;
      ExecAllAppend(Exec(s, a[0]), a[1..], b);
    }
  }
}
