/** How a user's message is cut into lines of plain and marked spans. A message is its UTF-8 bytes,
    each written as the character with that code; ranges are byte ranges and may be anything. */
module UserSpans {
  import opened Wrappers
  import opened Text

  datatype Element = Element(start: nat, end: nat)

  /** A range of a line: `start` included, `end` not. */
  type Range = (nat, nat)

  datatype Span = Span(text: string, marked: bool)

  /** Not in the middle of a character: the byte there is no continuation byte. */
  predicate IsBoundary(line: string, i: nat) {
    i == 0 || i == |line| || (i < |line| && !('\U{80}' <= line[i] <= '\U{BF}'))
  }

  function Insert(e: Element, sorted: seq<Element>): seq<Element> {
    if sorted == [] || e.start <= sorted[0].start then [e] + sorted else [sorted[0]] + Insert(e, sorted[1..])
  }

  /** Sorted by start; elements with the same start keep their order. */
  function SortedByStart(elements: seq<Element>): seq<Element> {
    if elements == [] then [] else Insert(elements[0], SortedByStart(elements[1..]))
  }

  /** The part of an element on the line that begins at `lineStart`, unless it is empty or cuts a
      character. */
  function OnLine(line: string, lineStart: nat, e: Element): (r: Option<Range>)
    ensures r.Some? ==> r.value.0 < r.value.1 <= |line|
  {
    var (start, end) := (Max(e.start, lineStart), Min(e.end, lineStart + |line|));
    if start >= end then None
    else if !IsBoundary(line, start - lineStart) || !IsBoundary(line, end - lineStart) then None
    else Some((start - lineStart, end - lineStart))
  }

  function Ranges(line: string, lineStart: nat, elements: seq<Element>): seq<Range> {
    if elements == [] then []
    else
      var r := OnLine(line, lineStart, elements[0]);
      (if r.Some? then [r.value] else []) + Ranges(line, lineStart, elements[1..])
  }

  predicate Within(ranges: seq<Range>, size: nat) {
    forall i :: 0 <= i < |ranges| ==> ranges[i].0 < ranges[i].1 <= size
  }

  /** Each range starts where the one before has ended, or later. */
  predicate Sequential(ranges: seq<Range>, cursor: nat) {
    ranges == [] || (cursor <= ranges[0].0 && Sequential(ranges[1..], ranges[0].1))
  }

  function SpansFrom(line: string, ranges: seq<Range>, cursor: nat): seq<Span>
    requires Within(ranges, |line|) && cursor <= |line|
    decreases |ranges|
  {
    if ranges == [] then (if cursor < |line| then [Span(line[cursor..], false)] else [])
    else
      var (start, end) := ranges[0];
      (if cursor < start then [Span(line[cursor..start], false)] else []) + [Span(line[start..end], true)]
      + SpansFrom(line, ranges[1..], end)
  }

  lemma {:induction false} RangesWithin(line: string, lineStart: nat, elements: seq<Element>)
    ensures Within(Ranges(line, lineStart, elements), |line|)
  {
    if elements != [] { RangesWithin(line, lineStart, elements[1..]); }
  }

  /** The spans that the elements lead to when the cursor is at `cursor`. */
  function Shown(line: string, lineStart: nat, elements: seq<Element>, cursor: int): seq<Span>
    decreases |elements|
  {
    if !(0 <= cursor <= |line|) then []
    else if elements == [] then (if cursor < |line| then [Span(line[cursor..], false)] else [])
    else
      var r := OnLine(line, lineStart, elements[0]);
      if r.None? then Shown(line, lineStart, elements[1..], cursor)
      else Marked(line, [], cursor, r.value) + Shown(line, lineStart, elements[1..], r.value.1)
  }

  predicate Pushed(line: string, lineStart: nat, e: Element, spans: seq<Span>, cursor: nat,
                   pushed: seq<Span>, next: nat) {
    var r := OnLine(line, lineStart, e);
    if r.None? then pushed == spans && next == cursor
    else next == r.value.1 && pushed == Marked(line, spans, cursor, r.value)
  }

  /** What one element adds to the spans of a line; `cursor` and `next` count from the start of the line.
      The cursor always is a boundary, so no slice is refused. */
  method PushElement(line: string, lineStart: nat, e: Element, spans: seq<Span>, cursor: nat)
    returns (pushed: seq<Span>, next: nat)
    requires cursor <= |line| && IsBoundary(line, cursor)
    ensures next <= |line| && IsBoundary(line, next) && Pushed(line, lineStart, e, spans, cursor, pushed, next)
  {
    pushed, next := spans, cursor;
    var (start, end) := (Max(e.start, lineStart), Min(e.end, lineStart + |line|));
    if start >= end {
      return;
    }
    var (relStart, relEnd) := (start - lineStart, end - lineStart);
    if !IsBoundary(line, relStart) || !IsBoundary(line, relEnd) {
      return;
    }
    if cursor < relStart && IsBoundary(line, cursor) {
      pushed := pushed + [Span(line[cursor..relStart], false)];
    }
    pushed := pushed + [Span(line[relStart..relEnd], true)];
    next := relEnd;
  }

  /** The spans, the plain text up to the range, and the range. */
  function Marked(line: string, spans: seq<Span>, cursor: nat, r: Range): seq<Span>
    requires r.0 <= r.1 <= |line|
  {
    (if cursor < r.0 then spans + [Span(line[cursor..r.0], false)] else spans) + [Span(line[r.0..r.1], true)]
  }

  method LineSpans(line: string, lineStart: nat, elements: seq<Element>) returns (spans: seq<Span>)
    ensures spans == Shown(line, lineStart, elements, 0)
  {
    ghost var goal, rest := Shown(line, lineStart, elements, 0), elements;
    var cursor: nat := 0;
    spans := [];
    for i := 0 to |elements|
      invariant cursor <= |line| && IsBoundary(line, cursor)
      invariant rest == elements[i..] && spans + Shown(line, lineStart, rest, cursor) == goal
    {
      ghost var before, at := spans, cursor;
      spans, cursor := PushElement(line, lineStart, elements[i], spans, cursor);
      ShownStep(line, lineStart, rest, before, at, spans, cursor);
      rest := rest[1..];
    }
    ShownEnd(line, lineStart, cursor);
    if cursor < |line| && IsBoundary(line, cursor) {
      spans := spans + [Span(line[cursor..], false)];
    }
  }

  lemma ShownEnd(line: string, lineStart: nat, cursor: nat)
    requires cursor <= |line|
    ensures Shown(line, lineStart, [], cursor) == if cursor < |line| then [Span(line[cursor..], false)] else []
  {
  }

  lemma ShownStep(line: string, lineStart: nat, elements: seq<Element>,
                  spans: seq<Span>, cursor: nat, pushed: seq<Span>, next: nat)
    requires elements != [] && cursor <= |line| && Pushed(line, lineStart, elements[0], spans, cursor, pushed, next)
    ensures pushed + Shown(line, lineStart, elements[1..], next) == spans + Shown(line, lineStart, elements, cursor)
  {
  }

  lemma {:induction false} ShownIs(line: string, lineStart: nat, elements: seq<Element>, cursor: nat)
    requires cursor <= |line|
    ensures Within(Ranges(line, lineStart, elements), |line|)
    ensures Shown(line, lineStart, elements, cursor) == SpansFrom(line, Ranges(line, lineStart, elements), cursor)
    decreases |elements|
  {
    RangesWithin(line, lineStart, elements);
    if elements != [] {
      var r := OnLine(line, lineStart, elements[0]);
      ShownIs(line, lineStart, elements[1..], if r.Some? then r.value.1 else cursor);
      var rest := Ranges(line, lineStart, elements[1..]);
      assert [] + rest == rest;
      if r.Some? { assert ([r.value] + rest)[1..] == rest; }
    }
  }

  function LinesFrom(parts: seq<string>, offset: nat, elements: seq<Element>): seq<seq<Span>> {
    if parts == [] then []
    else
      [Shown(parts[0], offset, elements, 0)] + LinesFrom(parts[1..], offset + |parts[0]| + 1, elements)
  }

  lemma LinesStep(lines: seq<seq<Span>>, parts: seq<string>, offset: nat, elements: seq<Element>, spans: seq<Span>)
    requires parts != [] && spans == Shown(parts[0], offset, elements, 0)
    ensures lines + LinesFrom(parts, offset, elements)
         == (lines + [spans]) + LinesFrom(parts[1..], offset + |parts[0]| + 1, elements)
  {
    Assoc(lines, [spans], LinesFrom(parts[1..], offset + |parts[0]| + 1, elements));
  }

  /** A line without spans, which is an empty one, stays a line. */
  method BuildUserMessageLines(message: string, elements: seq<Element>) returns (lines: seq<seq<Span>>)
    ensures lines == LinesFrom(Split(message), 0, SortedByStart(elements))
  {
    var sorted := SortedByStart(elements);
    var parts := Split(message);
    var offset: nat := 0;
    lines := [];
    ghost var goal, rest := LinesFrom(parts, 0, sorted), parts;
    for i := 0 to |parts|
      invariant rest == parts[i..] && lines + LinesFrom(rest, offset, sorted) == goal
    {
      var spans := LineSpans(parts[i], offset, sorted);
      LinesStep(lines, rest, offset, sorted, spans);
      rest := rest[1..];
      lines := lines + [spans];
      offset := offset + |parts[i]| + 1;
    }
  }

  // ---------- nothing is lost ----------

  function Concat(spans: seq<Span>): string {
    if spans == [] then "" else spans[0].text + Concat(spans[1..])
  }

  function Flags(n: nat, marked: bool): (r: seq<bool>)
    ensures |r| == n && forall i :: 0 <= i < n ==> r[i] == marked
  {
    if n == 0 then [] else [marked] + Flags(n - 1, marked)
  }

  /** For each byte shown, whether it is marked. */
  function Marks(spans: seq<Span>): seq<bool> {
    if spans == [] then [] else Flags(|spans[0].text|, spans[0].marked) + Marks(spans[1..])
  }

  predicate Covered(ranges: seq<Range>, p: nat) {
    exists i :: 0 <= i < |ranges| && ranges[i].0 <= p < ranges[i].1
  }

  lemma {:induction false} ShownLength(line: string, ranges: seq<Range>, cursor: nat)
    requires Within(ranges, |line|) && cursor <= |line|
    ensures var shown := |Concat(SpansFrom(line, ranges, cursor))|;
      shown >= |line| - cursor && (shown == |line| - cursor <==> Sequential(ranges, cursor))
    decreases |ranges|
  {
    if ranges != [] {
      ShownLength(line, ranges[1..], ranges[0].1);
      ConcatAppend(line, ranges, cursor);
    } else if cursor < |line| {
      assert Concat([Span(line[cursor..], false)]) == line[cursor..] + Concat([]);
    }
  }

  /** The first range, with the gap before it, and the rest. */
  lemma ConcatAppend(line: string, ranges: seq<Range>, cursor: nat)
    requires Within(ranges, |line|) && cursor <= |line| && ranges != []
    ensures Concat(SpansFrom(line, ranges, cursor)) ==
      (if cursor < ranges[0].0 then line[cursor..ranges[0].0] else "") + line[ranges[0].0..ranges[0].1]
      + Concat(SpansFrom(line, ranges[1..], ranges[0].1))
  {
    var (start, end) := ranges[0];
    var rest := SpansFrom(line, ranges[1..], end);
    var here := [Span(line[start..end], true)];
    assert (here + rest)[1..] == rest;
    if cursor < start {
      var gap := [Span(line[cursor..start], false)];
      assert gap + here + rest == gap + (here + rest) && (gap + (here + rest))[1..] == here + rest;
      Assoc(line[cursor..start], line[start..end], Concat(rest));
    } else {
      assert [] + here + rest == here + rest;
      assert "" + line[start..end] == line[start..end];
    }
  }

  lemma {:induction false} ShownText(line: string, ranges: seq<Range>, cursor: nat)
    requires Within(ranges, |line|) && cursor <= |line| && Sequential(ranges, cursor)
    ensures Concat(SpansFrom(line, ranges, cursor)) == line[cursor..]
    decreases |ranges|
  {
    if ranges != [] {
      ShownText(line, ranges[1..], ranges[0].1);
      ConcatAppend(line, ranges, cursor);
    } else if cursor < |line| {
      assert Concat([Span(line[cursor..], false)]) == line[cursor..] + Concat([]);
    }
  }

  /** The spans of a line add up to the line exactly when its ranges do not overlap. */
  lemma LineKept(line: string, lineStart: nat, elements: seq<Element>)
    ensures Concat(Shown(line, lineStart, elements, 0)) == line <==> Sequential(Ranges(line, lineStart, elements), 0)
  {
    var ranges := Ranges(line, lineStart, elements);
    ShownIs(line, lineStart, elements, 0);
    ShownLength(line, ranges, 0);
    if Sequential(ranges, 0) { ShownText(line, ranges, 0); }
  }

  lemma {:induction false} MarksAppend(a: seq<Span>, b: seq<Span>)
    ensures Marks(a + b) == Marks(a) + Marks(b)
  {
    if a == [] {
      assert a + b == b;
    } else {
      assert (a + b)[1..] == a[1..] + b;
      MarksAppend(a[1..], b);
    }
  }

  lemma MarksOne(span: Span)
    ensures Marks([span]) == Flags(|span.text|, span.marked)
  {
    assert Marks([span]) == Flags(|span.text|, span.marked) + Marks([]);
  }

  /** The marks of the first range, with the gap before it, and the rest. */
  lemma MarksStep(line: string, ranges: seq<Range>, cursor: nat)
    requires Within(ranges, |line|) && cursor <= |line| && ranges != [] && cursor <= ranges[0].0
    ensures Marks(SpansFrom(line, ranges, cursor)) ==
      Flags(ranges[0].0 - cursor, false) + Flags(ranges[0].1 - ranges[0].0, true)
        + Marks(SpansFrom(line, ranges[1..], ranges[0].1))
  {
    var (start, end) := ranges[0];
    var gap := if cursor < start then [Span(line[cursor..start], false)] else [];
    var here := [Span(line[start..end], true)];
    MarksAppend(gap + here, SpansFrom(line, ranges[1..], end));
    MarksAppend(gap, here);
    MarksOne(here[0]);
    if cursor < start { MarksOne(gap[0]); }
    assert Marks(gap) == Flags(start - cursor, false);
  }

  lemma {:induction false} MarksAre(line: string, ranges: seq<Range>, cursor: nat)
    requires Within(ranges, |line|) && cursor <= |line| && Sequential(ranges, cursor)
    ensures var marks := Marks(SpansFrom(line, ranges, cursor));
      |marks| == |line| - cursor && forall p :: cursor <= p < |line| ==> (marks[p - cursor] <==> Covered(ranges, p))
    decreases |ranges|
  {
    if ranges == [] {
      if cursor < |line| { MarksOne(Span(line[cursor..], false)); }
    } else {
      var (start, end) := ranges[0];
      MarksAre(line, ranges[1..], end);
      MarksStep(line, ranges, cursor);
      SequentialAfter(ranges[1..], end);
      var marks, rest := Marks(SpansFrom(line, ranges, cursor)), Marks(SpansFrom(line, ranges[1..], end));
      forall p | cursor <= p < |line| ensures marks[p - cursor] <==> Covered(ranges, p) {
        if p >= end {
          assert marks[p - cursor] == rest[p - end];
          CoveredTail(ranges, p);
        } else {
          CoveredTail(ranges, p);
        }
      }
    }
  }

  lemma CoveredTail(ranges: seq<Range>, p: nat)
    requires ranges != []
    ensures Covered(ranges, p) <==> ranges[0].0 <= p < ranges[0].1 || Covered(ranges[1..], p)
  {
    if i :| 0 <= i < |ranges[1..]| && ranges[1..][i].0 <= p < ranges[1..][i].1 {
      assert ranges[i + 1] == ranges[1..][i];
    }
    if i :| 0 <= i < |ranges| && ranges[i].0 <= p < ranges[i].1 {
      assert i > 0 ==> ranges[1..][i - 1] == ranges[i];
    }
  }

  lemma {:induction false} SequentialAfter(ranges: seq<Range>, cursor: nat)
    requires Sequential(ranges, cursor) && forall i :: 0 <= i < |ranges| ==> ranges[i].0 < ranges[i].1
    ensures forall p :: 0 <= p < cursor ==> !Covered(ranges, p)
    decreases |ranges|
  {
    if ranges != [] {
      SequentialAfter(ranges[1..], ranges[0].1);
      forall p | 0 <= p < cursor ensures !Covered(ranges, p) { CoveredTail(ranges, p); }
    }
  }

  /** Where the element begins or ends within the line it does not cut a character. */
  predicate CutsNothing(line: string, lineStart: nat, e: Element) {
    && (lineStart < e.start <= lineStart + |line| ==> IsBoundary(line, e.start - lineStart))
    && (lineStart <= e.end < lineStart + |line| ==> IsBoundary(line, e.end - lineStart))
  }

  /** An element covers the byte and cuts no character of the line; it may begin before the line and end
      behind it. */
  predicate MarkedBy(line: string, lineStart: nat, elements: seq<Element>, p: nat) {
    exists e | e in elements :: e.start <= lineStart + p < e.end && CutsNothing(line, lineStart, e)
  }

  /** The part of an element on a line is what it covers there, unless it cuts a character. */
  lemma OnLineExactly(line: string, lineStart: nat, e: Element, p: nat)
    requires p < |line|
    ensures var r := OnLine(line, lineStart, e);
      (r.Some? && r.value.0 <= p < r.value.1) <==>
        (e.start <= lineStart + p < e.end && CutsNothing(line, lineStart, e))
  {
  }

  lemma {:induction false} CoveredExactly(line: string, lineStart: nat, elements: seq<Element>, p: nat)
    requires p < |line|
    ensures Covered(Ranges(line, lineStart, elements), p) <==> MarkedBy(line, lineStart, elements, p)
  {
    if elements != [] {
      var r := OnLine(line, lineStart, elements[0]);
      var rest := Ranges(line, lineStart, elements[1..]);
      CoveredExactly(line, lineStart, elements[1..], p);
      OnLineExactly(line, lineStart, elements[0], p);
      if r.Some? {
        CoveredTail([r.value] + rest, p);
        assert ([r.value] + rest)[1..] == rest;
      } else {
        assert [] + rest == rest;
      }
      assert elements == [elements[0]] + elements[1..];
    }
  }

  // ---------- whole messages ----------

  /** No byte belongs to two of the elements. */
  predicate Disjoint(elements: seq<Element>) {
    forall i, j :: 0 <= i < j < |elements| ==> Apart(elements[i], elements[j])
  }

  predicate Apart(a: Element, b: Element) {
    a.start >= a.end || b.start >= b.end || a.end <= b.start || b.end <= a.start
  }

  predicate Sorted(elements: seq<Element>) {
    forall i, j :: 0 <= i < j < |elements| ==> elements[i].start <= elements[j].start
  }

  lemma {:induction false} InsertKeeps(e: Element, sorted: seq<Element>)
    requires Sorted(sorted) && Disjoint(sorted) && forall i :: 0 <= i < |sorted| ==> Apart(e, sorted[i])
    ensures Sorted(Insert(e, sorted)) && Disjoint(Insert(e, sorted))
    ensures forall x :: x in Insert(e, sorted) <==> x == e || x in sorted
  {
    if sorted != [] && e.start > sorted[0].start {
      InsertKeeps(e, sorted[1..]);
      var rest := Insert(e, sorted[1..]);
      forall x | x in rest ensures sorted[0].start <= x.start && Apart(sorted[0], x) {
        if x in sorted[1..] {
          var i :| 0 <= i < |sorted[1..]| && sorted[1..][i] == x;
          assert sorted[i + 1] == x;
        }
      }
    }
  }

  lemma {:induction false} SortedKeeps(elements: seq<Element>)
    requires Disjoint(elements)
    ensures Sorted(SortedByStart(elements)) && Disjoint(SortedByStart(elements))
    ensures forall x :: x in SortedByStart(elements) <==> x in elements
  {
    if elements != [] {
      SortedKeeps(elements[1..]);
      var rest := SortedByStart(elements[1..]);
      forall i | 0 <= i < |rest| ensures Apart(elements[0], rest[i]) {
        assert rest[i] in elements[1..];
        var j :| 0 <= j < |elements[1..]| && elements[1..][j] == rest[i];
        assert elements[j + 1] == rest[i];
      }
      InsertKeeps(elements[0], rest);
    }
  }

  /** The bytes of one character in UTF-8: only the first is not a continuation byte. */
  predicate Character(bytes: string) {
    bytes != "" && !(0x80 <= bytes[0] as int < 0xC0) && forall i :: 0 < i < |bytes| ==> 0x80 <= bytes[i] as int < 0xC0
  }

  function Bytes(characters: seq<string>): string {
    if characters == [] then "" else characters[0] + Bytes(characters[1..])
  }

  /** The boundaries of a text are the places before, between and behind its characters. */
  lemma {:induction false} BoundariesBetween(characters: seq<string>, i: nat)
    requires i <= |Bytes(characters)| && forall c :: c in characters ==> Character(c)
    ensures IsBoundary(Bytes(characters), i) <==>
      exists k :: 0 <= k <= |characters| && |Bytes(characters[..k])| == i
  {
    assert characters[..0] == [] && |Bytes(characters[..0])| == 0;
    if characters != [] {
      var first, rest := characters[0], characters[1..];
      assert first in characters && Character(first);
      forall k | 0 < k <= |characters| ensures |Bytes(characters[..k])| == |first| + |Bytes(rest[..k - 1])| {
        assert characters[..k][1..] == rest[..k - 1];
      }
      if i >= |first| {
        BoundariesBetween(rest, i - |first|);
        RestBoundary(first, Bytes(rest), rest, i);
        if j :| 0 <= j <= |rest| && |Bytes(rest[..j])| == i - |first| { assert |Bytes(characters[..j + 1])| == i; }
        if k :| 0 <= k <= |characters| && |Bytes(characters[..k])| == i {
          if k > 0 { assert |Bytes(rest[..k - 1])| == i - |first|; }
        }
      } else if i > 0 {
        assert Bytes(characters)[i] == first[i];
      }
    }
  }

  lemma RestBoundary(first: string, bytes: string, rest: seq<string>, i: nat)
    requires Character(first) && bytes == Bytes(rest) && |first| <= i <= |first| + |bytes|
    requires forall c :: c in rest ==> Character(c)
    ensures IsBoundary(first + bytes, i) <==> IsBoundary(bytes, i - |first|)
  {
    if i < |first| + |bytes| { assert (first + bytes)[i] == bytes[i - |first|]; }
    if i == |first| && rest != [] {
      assert rest[0] in rest && Character(rest[0]) && bytes[0] == rest[0][0];
    }
  }

  function StartingAt(elements: seq<Element>, start: nat): seq<Element> {
    if elements == [] then []
    else (if elements[0].start == start then [elements[0]] else []) + StartingAt(elements[1..], start)
  }

  lemma {:induction false} InsertStable(e: Element, sorted: seq<Element>, start: nat)
    ensures StartingAt(Insert(e, sorted), start) ==
      (if e.start == start then [e] else []) + StartingAt(sorted, start)
  {
    if sorted == [] || e.start <= sorted[0].start {
      StartingFirst(e, sorted, start);
    } else {
      var first, rest := sorted[0], sorted[1..];
      InsertStable(e, rest, start);
      StartingFirst(first, Insert(e, rest), start);
      StartingFirst(first, rest, start);
      assert sorted == [first] + rest;
      var more := StartingAt(rest, start);
      assert [] + more == more && [] + ([e] + more) == [e] + more;
    }
  }

  lemma StartingFirst(e: Element, rest: seq<Element>, start: nat)
    ensures StartingAt([e] + rest, start) == (if e.start == start then [e] else []) + StartingAt(rest, start)
  {
    assert ([e] + rest)[1..] == rest;
  }

  lemma {:induction false} InsertSorted(e: Element, sorted: seq<Element>)
    requires Sorted(sorted)
    ensures Sorted(Insert(e, sorted)) && forall x :: x in Insert(e, sorted) ==> x == e || x in sorted
  {
    if sorted != [] && e.start > sorted[0].start {
      InsertSorted(e, sorted[1..]);
      forall x | x in Insert(e, sorted[1..]) ensures sorted[0].start <= x.start {
        if x in sorted[1..] { var i :| 0 <= i < |sorted[1..]| && sorted[1..][i] == x; }
      }
    }
  }

  /** The elements come in the order of their starts; none is lost or added, and those that start together
      keep their order. */
  lemma {:induction false} SortedStable(elements: seq<Element>, start: nat)
    ensures Sorted(SortedByStart(elements))
    ensures StartingAt(SortedByStart(elements), start) == StartingAt(elements, start)
  {
    if elements != [] {
      SortedStable(elements[1..], start);
      InsertStable(elements[0], SortedByStart(elements[1..]), start);
      InsertSorted(elements[0], SortedByStart(elements[1..]));
    }
  }

  /** Sorted elements that do not overlap leave ranges that do not overlap. */
  lemma {:induction false} DisjointSequential(line: string, lineStart: nat, elements: seq<Element>, cursor: nat)
    requires Sorted(elements) && Disjoint(elements)
    requires forall e | e in elements :: OnLine(line, lineStart, e).Some? ==>
      cursor <= OnLine(line, lineStart, e).value.0
    ensures Sequential(Ranges(line, lineStart, elements), cursor)
  {
    if elements != [] {
      var (e, r, rest) := (elements[0], OnLine(line, lineStart, elements[0]), elements[1..]);
      if r.None? {
        DisjointSequential(line, lineStart, rest, cursor);
        assert [] + Ranges(line, lineStart, rest) == Ranges(line, lineStart, rest);
      } else {
        forall other | other in rest && OnLine(line, lineStart, other).Some?
          ensures r.value.1 <= OnLine(line, lineStart, other).value.0
        {
          var i :| 0 <= i < |rest| && rest[i] == other;
          assert other == elements[i + 1] && Apart(e, other) && e.start <= other.start;
        }
        DisjointSequential(line, lineStart, rest, r.value.1);
        assert ([r.value] + Ranges(line, lineStart, rest))[1..] == Ranges(line, lineStart, rest);
      }
    }
  }

  /** Where the n-th line begins. */
  function LineStart(parts: seq<string>, n: nat): nat
    requires n <= |parts|
  {
    if n == 0 then 0 else LineStart(parts, n - 1) + |parts[n - 1]| + 1
  }

  lemma {:induction false} LineAt(parts: seq<string>, from: nat, elements: seq<Element>, n: nat)
    requires from <= n < |parts|
    ensures var lines := LinesFrom(parts[from..], LineStart(parts, from), elements);
      |lines| == |parts| - from && lines[n - from] == Shown(parts[n], LineStart(parts, n), elements, 0)
    decreases n - from
  {
    assert parts[from..][1..] == parts[from + 1..];
    LinesCount(parts[from..], LineStart(parts, from), elements);
    if from < n { LineAt(parts, from + 1, elements, n); }
  }

  lemma {:induction false} LinesCount(parts: seq<string>, offset: nat, elements: seq<Element>)
    ensures |LinesFrom(parts, offset, elements)| == |parts|
    decreases |parts|
  {
    if parts != [] { LinesCount(parts[1..], offset + |parts[0]| + 1, elements); }
  }

  /** With elements that do not overlap nothing is lost and the marks are right: line by line, the spans
      add up to the line, and a byte is marked exactly when an element with a valid part on the line
      covers it. Joining the lines gives the message. */
  lemma MessageKept(message: string, elements: seq<Element>, n: nat)
    requires Disjoint(elements) && n < |Split(message)|
    ensures var (parts, lines) := (Split(message), LinesFrom(Split(message), 0, SortedByStart(elements)));
      && |lines| == |parts| && Concat(lines[n]) == parts[n] && |Marks(lines[n])| == |parts[n]|
      && (forall p :: 0 <= p < |parts[n]| ==>
          (Marks(lines[n])[p] <==> MarkedBy(parts[n], LineStart(parts, n), elements, p)))
    ensures Join(Split(message)) == message
  {
    var (parts, sorted) := (Split(message), SortedByStart(elements));
    var (line, start) := (parts[n], LineStart(parts, n));
    assert parts[0..] == parts;
    LineAt(parts, 0, sorted, n);
    SortedKeeps(elements);
    DisjointSequential(line, start, sorted, 0);
    LineKept(line, start, sorted);
    ShownIs(line, start, sorted, 0);
    MarksAre(line, Ranges(line, start, sorted), 0);
    forall p | 0 <= p < |line| ensures Covered(Ranges(line, start, sorted), p) <==> MarkedBy(line, start, elements, p) {
      CoveredExactly(line, start, sorted, p);
    }
    JoinOfSplit(message);
  }

  /** With overlapping elements a line can be shown with text repeated. */
  lemma OverlapRepeats()
    ensures Concat(Shown("ab", 0, [Element(0, 2), Element(1, 2)], 0)) == "abb"
  {
    var elements := [Element(0, 2), Element(1, 2)];
    assert elements[1..] == [Element(1, 2)] && elements[1..][1..] == [];
    assert OnLine("ab", 0, elements[0]) == Some((0, 2)) && OnLine("ab", 0, elements[1]) == Some((1, 2));
    assert "ab"[0..2] == "ab" && "ab"[1..2] == "b";
    assert Marked("ab", [], 0, (0, 2)) == [Span("ab", true)] && Marked("ab", [], 2, (1, 2)) == [Span("b", true)];
    assert Shown("ab", 0, [], 2) == [];
    assert Shown("ab", 0, elements[1..], 2) == Marked("ab", [], 2, (1, 2)) + Shown("ab", 0, elements[1..][1..], 2);
    var spans := Shown("ab", 0, elements, 0);
    assert spans == [Span("ab", true), Span("b", true)];
    assert spans[1..] == [Span("b", true)] && spans[1..][1..] == [];
    assert Concat(spans) == "ab" + ("b" + Concat([]));
  }
}
