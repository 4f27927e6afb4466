/** Applying update chunks to the lines of a file: search, replacements, splice. */
module PatchApply {
  import opened Wrappers
  import opened Text
  import opened PatchParser

  // ---------- the search ----------

  /** How strictly two lines are compared, strictest first. */
  datatype Tier = Exact | TrailingBlanks | OuterBlanks | Punctuation

  /** Typographic dashes, quotes and spaces as their ASCII equivalents. */
  function Ascii(c: char): char {
    if '\U{2010}' <= c <= '\U{2015}' || c == '\U{2212}' then '-'
    else if '\U{2018}' <= c <= '\U{201B}' then '\''
    else if '\U{201C}' <= c <= '\U{201F}' then '"'
    else if c == '\U{A0}' || '\U{2002}' <= c <= '\U{200A}' || c == '\U{202F}' || c == '\U{205F}'
      || c == '\U{3000}' then ' '
    else c
  }

  function Normalised(s: string): string {
    var trimmed := Trim(s);
    seq(|trimmed|, i requires 0 <= i < |trimmed| => Ascii(trimmed[i]))
  }

  /** What a tier compares of a line. */
  function Key(tier: Tier, line: string): string {
    match tier
    case Exact => line
    case TrailingBlanks => TrimEnd(line)
    case OuterBlanks => Trim(line)
    case Punctuation => Normalised(line)
  }

  predicate MatchAt(tier: Tier, lines: Lines, pattern: Lines, i: nat) {
    && i + |pattern| <= |lines|
    && if tier == Exact then lines[i..i + |pattern|] == pattern
       else forall k :: 0 <= k < |pattern| ==> Key(tier, lines[i + k]) == Key(tier, pattern[k])
  }

  /** The leftmost match of a tier at or after i. */
  function FirstMatch(tier: Tier, lines: Lines, pattern: Lines, i: nat): (r: Option<nat>)
    decreases |lines| - i
  {
    if i + |pattern| > |lines| || i > |lines| then None
    else if MatchAt(tier, lines, pattern, i) then Some(i)
    else if i == |lines| then None
    else FirstMatch(tier, lines, pattern, i + 1)
  }

  function SearchStart(lines: Lines, pattern: Lines, start: nat, eof: bool): nat {
    if eof && |lines| >= |pattern| then |lines| - |pattern| else start
  }

  const TIERS := [Exact, TrailingBlanks, OuterBlanks, Punctuation]

  /** The result of the first of these tiers that has one. */
  function FirstTier(tiers: seq<Tier>, lines: Lines, pattern: Lines, from: nat): Option<nat> {
    if tiers == [] then None
    else
      var r := FirstMatch(tiers[0], lines, pattern, from);
      if r.Some? then r else FirstTier(tiers[1..], lines, pattern, from)
  }

  function Seek(lines: Lines, pattern: Lines, start: nat, eof: bool): Option<nat> {
    if pattern == [] then Some(start)
    else if |pattern| > |lines| then None
    else FirstTier(TIERS, lines, pattern, SearchStart(lines, pattern, start, eof))
  }

  method MatchesAt(tier: Tier, lines: Lines, pattern: Lines, i: nat) returns (ok: bool)
    requires i + |pattern| <= |lines|
    ensures ok == MatchAt(tier, lines, pattern, i)
  {
    if tier == Exact {
      return lines[i..i + |pattern|] == pattern;
    }
    ok := true;
    var k := 0;
    while k < |pattern|
      invariant 0 <= k <= |pattern|
      invariant ok <==> forall j :: 0 <= j < k ==> Key(tier, lines[i + j]) == Key(tier, pattern[j])
    {
      if Key(tier, lines[i + k]) != Key(tier, pattern[k]) {
        ok := false;
        break;
      }
      k := k + 1;
    }
  }

  method SearchTier(tier: Tier, lines: Lines, pattern: Lines, from: nat) returns (r: Option<nat>)
    requires 0 < |pattern| <= |lines|
    ensures r == FirstMatch(tier, lines, pattern, from)
  {
    var i: nat := from;
    while i + |pattern| <= |lines|
      invariant FirstMatch(tier, lines, pattern, i) == FirstMatch(tier, lines, pattern, from)
      decreases |lines| - i
    {
      var ok := MatchesAt(tier, lines, pattern, i);
      if ok {
        return Some(i);
      }
      i := i + 1;
    }
    return None;
  }

  method SeekSequence(lines: Lines, pattern: Lines, start: nat, eof: bool) returns (r: Option<nat>)
    ensures r == Seek(lines, pattern, start, eof)
  {
    if pattern == [] {
      return Some(start);
    }
    if |pattern| > |lines| {
      return None;
    }
    var from := if eof && |lines| >= |pattern| then |lines| - |pattern| else start;
    FourTiers(lines, pattern, from);
    r := SearchTier(Exact, lines, pattern, from);
    if r.Some? { return; }
    r := SearchTier(TrailingBlanks, lines, pattern, from);
    if r.Some? { return; }
    r := SearchTier(OuterBlanks, lines, pattern, from);
    if r.Some? { return; }
    r := SearchTier(Punctuation, lines, pattern, from);
  }

  lemma FourTiers(lines: Lines, pattern: Lines, from: nat)
    ensures FirstTier(TIERS, lines, pattern, from)
         == FirstMatch(Exact, lines, pattern, from)
              .Or(FirstMatch(TrailingBlanks, lines, pattern, from)
              .Or(FirstMatch(OuterBlanks, lines, pattern, from)
              .Or(FirstMatch(Punctuation, lines, pattern, from))))
  {
    var later := [TrailingBlanks, OuterBlanks, Punctuation];
    assert TIERS[1..] == later && later[1..] == [OuterBlanks, Punctuation];
    assert [OuterBlanks, Punctuation][1..] == [Punctuation] && [Punctuation][1..] == [];
    assert FirstTier(later, lines, pattern, from) == FirstMatch(TrailingBlanks, lines, pattern, from)
      .Or(FirstTier([OuterBlanks, Punctuation], lines, pattern, from));
    assert FirstTier([Punctuation], lines, pattern, from) == FirstMatch(Punctuation, lines, pattern, from);
  }

  // ---------- the replacements ----------

  datatype Replacement = Replacement(start: nat, oldLen: nat, newLines: Lines)

  datatype ApplyError = ContextNotFound(line: string) | LinesNotFound(lines: Lines)

  predicate EndsBlank(lines: Lines) { lines != [] && lines[|lines|-1] == "" }

  function Front(lines: Lines): Lines
    requires lines != []
  {
    lines[..|lines|-1]
  }

  /** The cursor after a chunk's context line. */
  function AfterContext(lines: Lines, context: Option<string>, cursor: nat): Result<nat, ApplyError> {
    match context
    case None => Ok(cursor)
    case Some(line) =>
      match Seek(lines, [line], cursor, false)
      case Some(i) => Ok(i + 1)
      case None => Err(ContextNotFound(line))
  }

  /** A chunk without old lines goes to the end of the file, before a blank last line. */
  function InsertionIndex(lines: Lines): nat { if EndsBlank(lines) then |lines| - 1 else |lines| }

  /** Where a chunk's old lines are; a trailing blank one may be missing from the file. */
  function LocateOld(lines: Lines, chunk: Chunk, cursor: nat): Result<Replacement, ApplyError> {
    match Seek(lines, chunk.oldLines, cursor, chunk.isEndOfFile)
    case Some(i) => Ok(Replacement(i, |chunk.oldLines|, chunk.newLines))
    case None =>
      if !EndsBlank(chunk.oldLines) then Err(LinesNotFound(chunk.oldLines))
      else
        var pattern := Front(chunk.oldLines);
        match Seek(lines, pattern, cursor, chunk.isEndOfFile)
        case Some(i) =>
          Ok(Replacement(i, |pattern|, if EndsBlank(chunk.newLines) then Front(chunk.newLines) else chunk.newLines))
        case None => Err(LinesNotFound(chunk.oldLines))
  }

  /** One chunk: its replacement and the cursor after it. */
  function Locate(lines: Lines, chunk: Chunk, cursor: nat): Result<(Replacement, nat), ApplyError> {
    match AfterContext(lines, chunk.context, cursor)
    case Err(e) => Err(e)
    case Ok(at) =>
      if chunk.oldLines == [] then Ok((Replacement(InsertionIndex(lines), 0, chunk.newLines), at))
      else match LocateOld(lines, chunk, at)
        case Err(e) => Err(e)
        case Ok(r) => Ok((r, r.start + r.oldLen))
  }

  function Collect(lines: Lines, chunks: seq<Chunk>, cursor: nat, before: seq<Replacement>)
    : Result<seq<Replacement>, ApplyError>
    decreases |chunks|
  {
    if chunks == [] then Ok(before)
    else match Locate(lines, chunks[0], cursor)
      case Err(e) => Err(e)
      case Ok((r, next)) => Collect(lines, chunks[1..], next, before + [r])
  }

  /** Stable insertion: behind everything that does not start later. */
  function Inserted(r: Replacement, sorted: seq<Replacement>): seq<Replacement> {
    if sorted == [] then [r]
    else
      var last := |sorted| - 1;
      if sorted[last].start <= r.start then sorted + [r] else Inserted(r, sorted[..last]) + [sorted[last]]
  }

  /** The stable sort by start. */
  function SortedByStart(rs: seq<Replacement>): seq<Replacement> {
    if rs == [] then [] else Inserted(rs[|rs|-1], SortedByStart(rs[..|rs|-1]))
  }

  function Compute(lines: Lines, chunks: seq<Chunk>): Result<seq<Replacement>, ApplyError> {
    match Collect(lines, chunks, 0, [])
    case Ok(rs) => Ok(SortedByStart(rs))
    case Err(e) => Err(e)
  }

  method LocateOldLines(lines: Lines, chunk: Chunk, cursor: nat) returns (r: Result<Replacement, ApplyError>)
    requires chunk.oldLines != []
    ensures r == LocateOld(lines, chunk, cursor)
  {
    var pattern, newSlice := chunk.oldLines, chunk.newLines;
    var found := SeekSequence(lines, pattern, cursor, chunk.isEndOfFile);
    if found == None && pattern[|pattern|-1] == "" {
      pattern := pattern[..|pattern|-1];
      if newSlice != [] && newSlice[|newSlice|-1] == "" {
        newSlice := newSlice[..|newSlice|-1];
      }
      found := SeekSequence(lines, pattern, cursor, chunk.isEndOfFile);
    }
    if found == None {
      return Err(LinesNotFound(chunk.oldLines));
    }
    return Ok(Replacement(found.value, |pattern|, newSlice));
  }

  method LocateChunk(lines: Lines, chunk: Chunk, cursor: nat) returns (r: Result<(Replacement, nat), ApplyError>)
    ensures r == Locate(lines, chunk, cursor)
  {
    var lineIndex := cursor;
    if chunk.context.Some? {
      var at := SeekSequence(lines, [chunk.context.value], lineIndex, false);
      if at == None {
        return Err(ContextNotFound(chunk.context.value));
      }
      lineIndex := at.value + 1;
    }
    if chunk.oldLines == [] {
      var index := if lines != [] && lines[|lines|-1] == "" then |lines| - 1 else |lines|;
      return Ok((Replacement(index, 0, chunk.newLines), lineIndex));
    }
    var located := LocateOldLines(lines, chunk, lineIndex);
    if located.Err? {
      return Err(located.error);
    }
    return Ok((located.value, located.value.start + located.value.oldLen));
  }

  method ComputeReplacements(lines: Lines, chunks: seq<Chunk>) returns (r: Result<seq<Replacement>, ApplyError>)
    ensures r == Compute(lines, chunks)
  {
    var replacements, lineIndex, i := [], 0, 0;
    while i < |chunks|
      invariant 0 <= i <= |chunks|
      invariant Collect(lines, chunks[i..], lineIndex, replacements) == Collect(lines, chunks, 0, [])
    {
      assert chunks[i..][1..] == chunks[i+1..];
      var located := LocateChunk(lines, chunks[i], lineIndex);
      if located.Err? {
        return Err(located.error);
      }
      replacements, lineIndex, i := replacements + [located.value.0], located.value.1, i + 1;
    }
    return Ok(SortedByStart(replacements));
  }

  // ---------- the splice ----------

  /** One replacement made in place. */
  function ApplyOne(lines: Lines, r: Replacement): Lines
    requires r.start <= |lines|
  {
    lines[..r.start] + r.newLines + lines[Min(r.start + r.oldLen, |lines|)..]
  }

  /** Ordered by start, none starting beyond the end. */
  predicate Ordered(rs: seq<Replacement>, size: nat) {
    rs == [] || (rs[|rs|-1].start <= size && Ordered(rs[..|rs|-1], rs[|rs|-1].start))
  }

  /** The replacements made from the last to the first. */
  function ApplyBack(lines: Lines, rs: seq<Replacement>): Lines
    requires Ordered(rs, |lines|)
    decreases |rs|
  {
    if rs == [] then lines
    else
      var last := rs[|rs|-1];
      OrderedLonger(rs[..|rs|-1], last.start, |ApplyOne(lines, last)|);
      ApplyBack(ApplyOne(lines, last), rs[..|rs|-1])
  }

  lemma OrderedLonger(rs: seq<Replacement>, size: nat, larger: nat)
    requires Ordered(rs, size) && size <= larger
    ensures Ordered(rs, larger)
  {
  }

  method ReplaceInPlace(lines: Lines, r: Replacement) returns (result: Lines)
    requires r.start <= |lines|
    ensures result == ApplyOne(lines, r)
  {
    result := lines;
    var removed := 0;
    while removed < r.oldLen
      invariant 0 <= removed <= r.oldLen
      invariant result == lines[..r.start] + lines[Min(r.start + removed, |lines|)..]
    {
      if r.start < |result| {
        result := result[..r.start] + result[r.start+1..];
      }
      removed := removed + 1;
    }
    var rest := lines[Min(r.start + r.oldLen, |lines|)..];
    var offset := 0;
    while offset < |r.newLines|
      invariant 0 <= offset <= |r.newLines|
      invariant result == lines[..r.start] + r.newLines[..offset] + rest
    {
      result := result[..r.start+offset] + [r.newLines[offset]] + result[r.start+offset..];
      offset := offset + 1;
    }
  }

  method ApplyReplacements(lines: Lines, replacements: seq<Replacement>) returns (result: Lines)
    requires Ordered(replacements, |lines|)
    ensures result == ApplyBack(lines, replacements)
  {
    result := lines;
    var i := |replacements|;
    assert replacements[..i] == replacements;
    while i > 0
      invariant 0 <= i <= |replacements|
      invariant Ordered(replacements[..i], |result|)
      invariant ApplyBack(result, replacements[..i]) == ApplyBack(lines, replacements)
    {
      var last := replacements[i-1];
      assert replacements[..i][..i-1] == replacements[..i-1] && replacements[..i][i-1] == last;
      OrderedLonger(replacements[..i-1], last.start, |ApplyOne(result, last)|);
      result := ReplaceInPlace(result, last);
      i := i - 1;
    }
  }

  // ---------- the file ----------

  /** The lines of a file; the newline at its end starts no further one. */
  function FileLines(contents: string): Lines {
    var parts := Split(contents);
    if EndsBlank(parts) then Front(parts) else parts
  }

  /** The text of the new lines, with a newline at its end. */
  function FileText(lines: Lines): string {
    Join(if EndsBlank(lines) then lines else lines + [""])
  }

  /** What the computation of replacements guarantees the splice. */
  lemma ComputedOrdered(lines: Lines, chunks: seq<Chunk>)
    requires Compute(lines, chunks).Ok?
    ensures Ordered(Compute(lines, chunks).value, |lines|)
  {
    CollectInBounds(lines, chunks, 0, []);
    SortedInOrder(Collect(lines, chunks, 0, []).value, |lines|);
  }

  predicate InBounds(rs: seq<Replacement>, size: nat) {
    forall r :: r in rs ==> r.start + r.oldLen <= size
  }

  lemma {:induction false} FirstMatchBound(tier: Tier, lines: Lines, pattern: Lines, i: nat)
    ensures FirstMatch(tier, lines, pattern, i).Some? ==>
      var r := FirstMatch(tier, lines, pattern, i).value; i <= r && MatchAt(tier, lines, pattern, r)
    decreases |lines| - i
  {
    if i + |pattern| <= |lines| && i < |lines| && !MatchAt(tier, lines, pattern, i) {
      assert FirstMatch(tier, lines, pattern, i) == FirstMatch(tier, lines, pattern, i + 1);
      FirstMatchBound(tier, lines, pattern, i + 1);
    }
  }

  lemma {:induction false} FirstTierBound(tiers: seq<Tier>, lines: Lines, pattern: Lines, from: nat)
    requires FirstTier(tiers, lines, pattern, from).Some?
    ensures var r := FirstTier(tiers, lines, pattern, from).value; from <= r && r + |pattern| <= |lines|
  {
    FirstMatchBound(tiers[0], lines, pattern, from);
    if FirstMatch(tiers[0], lines, pattern, from) == None { FirstTierBound(tiers[1..], lines, pattern, from); }
  }

  lemma SeekBound(lines: Lines, pattern: Lines, start: nat, eof: bool)
    requires Seek(lines, pattern, start, eof).Some? && start <= |lines|
    ensures var r := Seek(lines, pattern, start, eof).value;
      r + |pattern| <= |lines| && (!eof || pattern == [] ==> start <= r)
  {
    if pattern != [] { FirstTierBound(TIERS, lines, pattern, SearchStart(lines, pattern, start, eof)); }
  }

  lemma LocateInBounds(lines: Lines, chunk: Chunk, cursor: nat)
    requires cursor <= |lines| && Locate(lines, chunk, cursor).Ok?
    ensures var (r, next) := Locate(lines, chunk, cursor).value; r.start + r.oldLen <= |lines| && next <= |lines|
  {
    if chunk.context.Some? { SeekBound(lines, [chunk.context.value], cursor, false); }
    var at := AfterContext(lines, chunk.context, cursor).value;
    if chunk.oldLines != [] {
      if Seek(lines, chunk.oldLines, at, chunk.isEndOfFile).Some? {
        SeekBound(lines, chunk.oldLines, at, chunk.isEndOfFile);
      } else {
        SeekBound(lines, Front(chunk.oldLines), at, chunk.isEndOfFile);
      }
    }
  }

  lemma {:induction false} CollectInBounds(lines: Lines, chunks: seq<Chunk>, cursor: nat, before: seq<Replacement>)
    requires cursor <= |lines| && InBounds(before, |lines|) && Collect(lines, chunks, cursor, before).Ok?
    ensures InBounds(Collect(lines, chunks, cursor, before).value, |lines|)
    decreases |chunks|
  {
    if chunks != [] {
      LocateInBounds(lines, chunks[0], cursor);
      var (r, next) := Locate(lines, chunks[0], cursor).value;
      CollectInBounds(lines, chunks[1..], next, before + [r]);
    }
  }

  lemma {:induction false} InsertedInOrder(r: Replacement, rs: seq<Replacement>, size: nat)
    requires Ordered(rs, size) && r.start <= size
    ensures Ordered(Inserted(r, rs), size)
    decreases |rs|
  {
    if rs == [] {
      assert [r][..0] == [];
    } else {
      var last := |rs| - 1;
      if rs[last].start <= r.start {
        assert (rs + [r])[..|rs|] == rs;
        OrderedLonger(rs[..last], rs[last].start, r.start);
      } else {
        InsertedInOrder(r, rs[..last], rs[last].start);
        var placed := Inserted(r, rs[..last]);
        assert (placed + [rs[last]])[..|placed|] == placed;
      }
    }
  }

  lemma {:induction false} SortedInOrder(rs: seq<Replacement>, size: nat)
    requires InBounds(rs, size)
    ensures Ordered(SortedByStart(rs), size)
    decreases |rs|
  {
    if rs != [] {
      assert rs[|rs|-1] in rs;
      SortedInOrder(rs[..|rs|-1], size);
      InsertedInOrder(rs[|rs|-1], SortedByStart(rs[..|rs|-1]), size);
    }
  }

  function NewLines(lines: Lines, chunks: seq<Chunk>): Result<Lines, ApplyError> {
    match Compute(lines, chunks)
    case Err(e) => Err(e)
    case Ok(rs) => ComputedOrdered(lines, chunks); Ok(ApplyBack(lines, rs))
  }

  /** The new contents of a file. */
  function Derive(contents: string, chunks: seq<Chunk>): Result<string, ApplyError> {
    match NewLines(FileLines(contents), chunks)
    case Err(e) => Err(e)
    case Ok(lines) => Ok(FileText(lines))
  }

  method DeriveNewContents(contents: string, chunks: seq<Chunk>) returns (r: Result<string, ApplyError>)
    ensures r == Derive(contents, chunks)
  {
    var lines := Split(contents);
    if lines != [] && lines[|lines|-1] == "" {
      lines := lines[..|lines|-1];
    }
    var replacements := ComputeReplacements(lines, chunks);
    if replacements.Err? {
      return Err(replacements.error);
    }
    ComputedOrdered(lines, chunks);
    var result := ApplyReplacements(lines, replacements.value);
    if !(result != [] && result[|result|-1] == "") {
      result := result + [""];
    }
    return Ok(Join(result));
  }
}
