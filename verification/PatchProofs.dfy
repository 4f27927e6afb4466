/** Whole patches: parsing the text of a printed one gives it back, and errors name the right line. */
module PatchProofs {
  import opened Wrappers
  import opened Text
  import opened PatchParser
  import opened PatchGrammar
  import opened PatchAccepts

  // ---------- the text ----------

  function PatchText(hunks: seq<PrintableHunk>): string {
    Join([BEGIN_PATCH] + HunksLines(hunks) + [END_PATCH])
  }

  /** Not empty, in one line, and without white space at its end. */
  predicate PathOk(path: string) {
    path != "" && '\n' !in path && !IsSpace(path[|path|-1])
  }

  predicate OptionPlain(text: Option<string>) { text.Some? ==> Plain(text.value) }

  predicate AllPlain(lines: Lines) { forall line :: line in lines ==> Plain(line) }

  lemma PrefixPlain(prefix: string, text: string)
    requires Plain(prefix) && prefix != "" && Plain(text)
    ensures Plain(prefix + text)
  {
    if text == "" {
      assert prefix + text == prefix;
    } else {
      assert (prefix + text)[|prefix + text| - 1] == text[|text| - 1];
    }
  }

  lemma PathPlain(path: string)
    requires PathOk(path)
    ensures Plain(path)
  {
  }

  lemma {:induction false} TrimStartBlanks(blanks: string, s: string)
    requires Blank(blanks) && s != "" && !IsSpace(s[0])
    ensures TrimStart(blanks + s) == s
  {
    if blanks == "" {
      assert blanks + s == s;
    } else {
      assert (blanks + s)[1..] == blanks[1..] + s;
      TrimStartBlanks(blanks[1..], s);
    }
  }

  /** White space around a text is trimmed away. */
  lemma TrimAround(before: string, s: string, after: string)
    requires Blank(before) && Blank(after) && s != "" && !IsSpace(s[0]) && !IsSpace(s[|s|-1])
    ensures Trim(before + s + after) == s
  {
    TrimEndBlanks(before + s, after);
    assert (before + s)[|before + s| - 1] == s[|s|-1];
    TrimStartBlanks(before, s);
  }

  lemma {:induction false} JoinEnds(lines: Lines)
    requires lines != [] && lines[0] != "" && lines[|lines|-1] != ""
    ensures var s := Join(lines); s != "" && s[0] == lines[0][0] && s[|s|-1] == lines[|lines|-1][|lines[|lines|-1]|-1]
  {
    if |lines| > 1 {
      var rest := lines[1..];
      if rest[0] != "" {
        JoinEnds(rest);
      } else {
        JoinTail(rest);
      }
    }
  }

  lemma {:induction false} JoinTail(lines: Lines)
    requires lines != [] && lines[|lines|-1] != ""
    ensures var s := Join(lines); s != "" && s[|s|-1] == lines[|lines|-1][|lines[|lines|-1]|-1]
  {
    if |lines| > 1 { JoinTail(lines[1..]); }
  }

  function PatchLinesOf(hunks: seq<PrintableHunk>): Lines { [BEGIN_PATCH] + HunksLines(hunks) + [END_PATCH] }

  lemma MarkersTrimmed()
    ensures Trim(BEGIN_PATCH) == BEGIN_PATCH && Trim(END_PATCH) == END_PATCH
    ensures Plain(BEGIN_PATCH) && Plain(END_PATCH)
  {
    assert END_PATCH[|END_PATCH|-1] == 'h' && BEGIN_PATCH[|BEGIN_PATCH|-1] == 'h';
    TrimFixed(BEGIN_PATCH);
    TrimFixed(END_PATCH);
  }

  lemma BoundariesFound(hunks: seq<PrintableHunk>)
    ensures CheckBoundaries(PatchLinesOf(hunks)) == None
  {
    MarkersTrimmed();
  }

  /** Hunks of the grammar whose lines a text can hold. */
  predicate Printable(hunks: seq<PrintableHunk>) { HunksFit(hunks) && AllPlain(HunksLines(hunks)) }

  lemma PatchLinesPlain(hunks: seq<PrintableHunk>)
    requires Printable(hunks)
    ensures AllPlain(PatchLinesOf(hunks))
  {
    MarkersTrimmed();
  }

  lemma BodyParsed(hunks: seq<PrintableHunk>)
    requires HunksFit(hunks)
    ensures var lines := PatchLinesOf(hunks); Hunks(lines[1..|lines|-1], 2, []) == Ok(HunksOf(hunks))
  {
    var lines := PatchLinesOf(hunks);
    assert lines[1..|lines|-1] == HunksLines(hunks);
    HunksParse(hunks, HunksLines(hunks), 2, []);
    assert [] + HunksOf(hunks) == HunksOf(hunks);
  }

  /** Parsing a printed patch, with any white space around it, gives back its hunks. */
  lemma RoundTrip(hunks: seq<PrintableHunk>, before: string, after: string)
    requires Printable(hunks) && Blank(before) && Blank(after)
    ensures Parse(before + PatchText(hunks) + after) == Ok(ParsedPatch(HunksOf(hunks), PatchText(hunks)))
  {
    var lines := PatchLinesOf(hunks);
    PatchLinesPlain(hunks);
    LinesJoin(lines);
    JoinEnds(lines);
    TrimAround(before, PatchText(hunks), after);
    BoundariesFound(hunks);
    BodyParsed(hunks);
  }

  /** A shell heredoc around the patch changes nothing. */
  lemma HeredocRoundTrip(hunks: seq<PrintableHunk>, opener: string, closer: string, before: string, after: string)
    requires Printable(hunks) && Blank(before) && Blank(after) && OpensHeredoc(opener)
    requires EndsWith(closer, "EOF") && '\n' !in closer
    ensures Parse(before + (opener + "\n" + (PatchText(hunks) + "\n" + closer)) + after)
         == Ok(ParsedPatch(HunksOf(hunks), PatchText(hunks)))
  {
    var inner := PatchLinesOf(hunks);
    var lines := [opener] + inner + [closer];
    HeredocText(inner, opener, closer);
    HeredocPlain(hunks, opener, closer);
    LinesJoin(lines);
    JoinEnds(lines);
    TrimAround(before, Join(lines), after);
    HeredocStripped(hunks, opener, closer);
    BodyParsed(hunks);
  }

  lemma {:induction false} JoinLast(lines: Lines, last: string)
    requires lines != []
    ensures Join(lines + [last]) == Join(lines) + "\n" + last
  {
    if |lines| == 1 {
      assert (lines + [last])[1..] == [last];
    } else {
      JoinLast(lines[1..], last);
      assert (lines + [last])[1..] == lines[1..] + [last];
    }
  }

  lemma HeredocText(inner: Lines, opener: string, closer: string)
    requires inner != []
    ensures Join([opener] + inner + [closer]) == opener + "\n" + (Join(inner) + "\n" + closer)
  {
    assert ([opener] + inner + [closer])[1..] == inner + [closer];
    JoinLast(inner, closer);
  }

  lemma HeredocPlain(hunks: seq<PrintableHunk>, opener: string, closer: string)
    requires Printable(hunks) && OpensHeredoc(opener) && EndsWith(closer, "EOF") && '\n' !in closer
    ensures AllPlain([opener] + PatchLinesOf(hunks) + [closer])
    ensures opener != "" && !IsSpace(opener[0]) && closer != "" && closer[|closer|-1] == 'F'
  {
    PatchLinesPlain(hunks);
    assert closer[|closer|-1] == closer[|closer|-3..][2];
    assert Plain(closer) && Plain(opener);
  }

  lemma HeredocStripped(hunks: seq<PrintableHunk>, opener: string, closer: string)
    requires OpensHeredoc(opener) && EndsWith(closer, "EOF")
    ensures PatchLines([opener] + PatchLinesOf(hunks) + [closer]) == Ok(PatchLinesOf(hunks))
  {
    var lines := [opener] + PatchLinesOf(hunks) + [closer];
    assert lines[1..|lines|-1] == PatchLinesOf(hunks);
    BoundariesFound(hunks);
    assert opener[0] == '<';
    NotBegin(opener);
  }

  // ---------- how far the round trip reaches ----------

  function Deletes(lines: seq<string>): seq<Change> {
    if lines == [] then [] else [Delete(lines[0])] + Deletes(lines[1..])
  }

  function Inserts(lines: seq<string>): seq<Change> {
    if lines == [] then [] else [Insert(lines[0])] + Inserts(lines[1..])
  }

  /** A chunk printed as all its old lines, then all its new ones. */
  function Printed(c: Chunk): PrintableChunk {
    PrintableChunk([], true, c.context, Deletes(c.oldLines) + Inserts(c.newLines), c.isEndOfFile)
  }

  lemma {:induction false} InsertsOf(lines: seq<string>)
    ensures OldOf(Inserts(lines)) == [] && NewOf(Inserts(lines)) == lines
    ensures AllPlain(lines) ==> AllPlain(ChangeLines(Inserts(lines)))
  {
    if lines != [] {
      InsertsOf(lines[1..]);
      assert lines[0] in lines;
      if AllPlain(lines) { PrefixPlain("+", lines[0]); }
    }
  }

  lemma {:induction false} DeletesOf(lines: seq<string>, rest: seq<Change>)
    ensures OldOf(Deletes(lines) + rest) == lines + OldOf(rest) && NewOf(Deletes(lines) + rest) == NewOf(rest)
    ensures AllPlain(lines) && AllPlain(ChangeLines(rest)) ==> AllPlain(ChangeLines(Deletes(lines) + rest))
  {
    if lines == [] {
      assert Deletes(lines) + rest == rest;
    } else {
      var tail := Deletes(lines[1..]) + rest;
      DeletesOf(lines[1..], rest);
      assert Deletes(lines) + rest == [Delete(lines[0])] + tail;
      assert ([Delete(lines[0])] + tail)[1..] == tail;
      if AllPlain(lines) {
        assert lines[0] in lines && AllPlain(lines[1..]);
        PrefixPlain("-", lines[0]);
      }
    }
  }

  /** Every chunk of plain lines with at least one of them has a printed form, wherever it stands. */
  lemma EveryChunkPrintable(c: Chunk, first: bool, open: bool)
    requires AllPlain(c.oldLines) && AllPlain(c.newLines) && OptionPlain(c.context)
      && (c.oldLines != [] || c.newLines != [])
    ensures ChunkFits(Printed(c), first, open) && ChunkOf(Printed(c)) == c && AllPlain(ChunkLines(Printed(c)))
  {
    var changes := Deletes(c.oldLines) + Inserts(c.newLines);
    assert OldOf(changes) == c.oldLines && NewOf(changes) == c.newLines && AllPlain(ChangeLines(changes)) by {
      InsertsOf(c.newLines);
      DeletesOf(c.oldLines, Inserts(c.newLines));
      assert c.oldLines + [] == c.oldLines;
    }
    if c.context.Some? { PrefixPlain(CHANGE_CONTEXT, c.context.value); }
    CorePlain(Printed(c));
  }

  lemma CorePlain(c: PrintableChunk)
    requires c.blanks == [] && AllPlain(ChangeLines(c.changes)) && (c.marked ==> Plain(MarkerLine(c.context)))
    ensures AllPlain(ChunkLines(c))
  {
  }

  /** The hunk that adds a file of one line. */
  function OneLineFile(path: string, line: string): PrintableHunk { Adding(ADD_FILE + path, path, [line]) }

  lemma OneLineFits(path: string, line: string)
    requires PathOk(path)
    ensures HunksFit([OneLineFile(path, line)])
  {
    var header := ADD_FILE + path;
    assert header[|header| - 1] == path[|path| - 1] && header[0] == '*';
    TrimFixed(header);
    assert [OneLineFile(path, line)][1..] == [];
  }

  lemma AddedLineParses(path: string, line: string)
    requires PathOk(path) && '\n' !in line
    ensures var r := Parse(PatchText([OneLineFile(path, line)]));
      r.Ok? && r.value.hunks == [AddFile(path, Render([WithoutCr(line)]))]
  {
    var kept := WithoutCr(line);
    var lines, printed := PatchLinesOf([OneLineFile(path, line)]), [OneLineFile(path, kept)];
    AddedLineRead(path, line);
    JoinEnds(lines);
    TrimFixed(Join(lines));
    OneLineFits(path, kept);
    MarkersTrimmed();
    assert PatchLinesOf(printed)[1..|PatchLinesOf(printed)| - 1] == HunksLines(printed);
    TextParses(Join(lines), PatchLinesOf(printed), printed);
    assert printed[1..] == [] && HunksOf(printed) == [HunkOf(printed[0])] + [];
  }

  /** A line with a carriage return at its end loses it, since the patch is read by lines: an added
      line survives exactly if it is plain. */
  lemma AddedLineSurvives(path: string, line: string)
    requires PathOk(path) && '\n' !in line
    ensures var r := Parse(PatchText([OneLineFile(path, line)]));
      r.Ok? && (r.value.hunks == [AddFile(path, Render([line]))] <==> Plain(line))
  {
    AddedLineParses(path, line);
    RenderOne(line);
    RenderOne(WithoutCr(line));
  }

  lemma OneAddedLine(path: string, line: string)
    ensures HunkLines(OneLineFile(path, line)) == [ADD_FILE + path, "+" + line]
    ensures PatchLinesOf([OneLineFile(path, line)]) == [BEGIN_PATCH, ADD_FILE + path, "+" + line, END_PATCH]
  {
    var h := OneLineFile(path, line);
    assert [line][1..] == [] && PlusLines([line]) == ["+" + line] + [];
    assert [h][1..] == [] && HunksLines([h]) == HunkLines(h) + [];
  }

  lemma RenderOne(line: string)
    ensures Render([line]) == line + "\n"
  {
  }

  lemma AddedLineRead(path: string, line: string)
    requires PathOk(path) && '\n' !in line
    ensures TextLines(Join(PatchLinesOf([OneLineFile(path, line)])))
         == PatchLinesOf([OneLineFile(path, WithoutCr(line))])
  {
    var lines := PatchLinesOf([OneLineFile(path, line)]);
    OneAddedLine(path, line);
    OneAddedLine(path, WithoutCr(line));
    assert '\n' !in "+" + line;
    PathPlain(path);
    PrefixPlain(ADD_FILE, path);
    MarkersTrimmed();
    SplitJoin(lines);
    PlusWithoutCr(line);
    FourLines(BEGIN_PATCH, ADD_FILE + path, "+" + line, END_PATCH);
  }

  lemma PlusWithoutCr(line: string)
    ensures WithoutCr("+" + line) == "+" + WithoutCr(line)
  {
  }

  lemma FourLines(a: string, b: string, c: string, d: string)
    requires Plain(a) && Plain(b) && d != ""
    ensures LinesOf([a, b, c, d]) == [a, b, WithoutCr(c), d]
  {
    assert [c, d][1..] == [d] && LinesOf([d]) == [d];
    assert LinesOf([c, d]) == [WithoutCr(c)] + LinesOf([c, d][1..]);
    assert [b, c, d][1..] == [c, d] && LinesOf([b, c, d]) == [b] + LinesOf([c, d]);
    assert [a, b, c, d][1..] == [b, c, d] && LinesOf([a, b, c, d]) == [a] + LinesOf([b, c, d]);
  }

  // ---------- every line belongs to a hunk ----------

  /** The lines are these blocks, one after the other, and each is what its hunk was read from. */
  predicate ReadFrom(lines: Lines, n: nat, hunks: seq<Hunk>, blocks: seq<Lines>)
    decreases |hunks|
  {
    if hunks == [] then blocks == [] && lines == []
    else
      && blocks != [] && blocks[0] <= lines
      && ParsesTo(blocks[0], lines[|blocks[0]|..], n, hunks[0])
      && ReadFrom(lines[|blocks[0]|..], n + |blocks[0]|, hunks[1..], blocks[1..])
  }

  lemma FirstHunkRead(lines: Lines, n: nat, before: seq<Hunk>, hunks: seq<Hunk>)
    returns (first: Lines, rest: Lines, hunk: Hunk)
    requires lines != [] && Reading(lines, n, before) == Ok(hunks)
    ensures first + rest == lines && ParsesTo(first, rest, n, hunk)
    ensures Reading(rest, n + |first|, before + [hunk]) == Ok(hunks)
  {
    var taken: nat := OneHunk(lines, n).value.1;
    first, rest, hunk := lines[..taken], lines[taken..], OneHunk(lines, n).value.0;
    assert first + rest == lines;
  }

  lemma {:induction false} ReadMore(first: Lines, rest: Lines, n: nat, hunk: Hunk, hunks: seq<Hunk>,
                                    blocks: seq<Lines>, lines: Lines, all: seq<Hunk>, parts: seq<Lines>)
    requires ParsesTo(first, rest, n, hunk) && ReadFrom(rest, n + |first|, hunks, blocks)
    requires lines == first + rest && all == [hunk] + hunks && parts == [first] + blocks
    ensures ReadFrom(lines, n, all, parts)
  {
    assert first <= lines && lines[|first|..] == rest;
    assert all[0] == hunk && all[1..] == hunks;
    assert parts[0] == first && parts[1..] == blocks;
  }

  /** A successful parse splits the body into consecutive nonempty blocks, one for each hunk. */
  lemma {:induction false} HunksPartition(lines: Lines, n: nat, before: seq<Hunk>, hunks: seq<Hunk>)
    returns (found: seq<Hunk>, blocks: seq<Lines>)
    requires Reading(lines, n, before) == Ok(hunks)
    ensures hunks == before + found && ReadFrom(lines, n, found, blocks)
    decreases |lines|
  {
    found, blocks := [], [];
    if lines != [] {
      var first, rest, hunk := FirstHunkRead(lines, n, before, hunks);
      found, blocks := HunksPartition(rest, n + |first|, before + [hunk], hunks);
      ReadMore(first, rest, n, hunk, found, blocks, lines, [hunk] + found, [first] + blocks);
      Assoc(before, [hunk], found);
      found, blocks := [hunk] + found, [first] + blocks;
    }
  }

  function LengthOf(blocks: seq<Lines>): nat { if blocks == [] then 0 else |blocks[0]| + LengthOf(blocks[1..]) }

  /** So no line is skipped or read twice. */
  lemma {:induction false} BlocksFill(lines: Lines, n: nat, hunks: seq<Hunk>, blocks: seq<Lines>)
    requires ReadFrom(lines, n, hunks, blocks)
    ensures |blocks| == |hunks| && LengthOf(blocks) == |lines| && forall i :: 0 <= i < |blocks| ==> blocks[i] != []
    decreases |hunks|
  {
    if hunks != [] {
      var first, rest := blocks[0], blocks[1..];
      BlocksFill(lines[|first|..], n + |first|, hunks[1..], rest);
      forall i | 0 < i < |blocks| ensures blocks[i] != [] { assert blocks[i] == rest[i - 1]; }
    }
  }

  // ---------- where errors point ----------

  /** Where an error points. `NoLines` and, for a chunk with a marker, `UnexpectedLine` name the line
      after the marker; without a marker `UnexpectedLine` names the line after the offending one. */
  predicate PointsAt(lines: Lines, n: nat, e: ParseError) {
    && e.InvalidHunk? && n <= e.lineNumber <= n + |lines|
    && var k := e.lineNumber - n;
    match e.problem
    case EmptyUpdate(path) =>
      k < |lines| && StripPrefix(Trim(lines[k]), UPDATE_FILE) == Some(path) && NoChunks(BehindHeader(lines[k..]))
    case NotAHeader(line) =>
      k < |lines| && Trim(lines[k]) == line
      && !(ADD_FILE <= line) && !(DELETE_FILE <= line) && !(UPDATE_FILE <= line)
    case ExpectedContext(line) =>
      k < |lines| && lines[k] == line && Marker(line) == None && Trim(line) != "" && !("***" <= line)
    case NoLines => k > 0 && Marker(lines[k-1]).Some? && (k == |lines| || lines[k] == EOF_MARKER)
    case UnexpectedLine(line) =>
      !IsChange(line) && line != EOF_MARKER
      && k > 0 && if Marker(lines[k-1]).Some? then k < |lines| && lines[k] == line else lines[k-1] == line
  }

  /** The lines behind the header of an update, and of its move. */
  function BehindHeader(lines: Lines): Lines
    requires lines != []
  {
    if |lines| > 1 && MOVE_TO <= lines[1] then lines[2..] else lines[1..]
  }

  /** Nothing but blank lines up to the next hunk. */
  predicate NoChunks(lines: Lines) {
    lines == [] || "***" <= lines[0] || (Trim(lines[0]) == "" && NoChunks(lines[1..]))
  }

  lemma {:induction false} BlanksNoChunks(blanks: Lines, rest: Lines)
    requires BlankLines(blanks) && (rest == [] || "***" <= rest[0])
    ensures NoChunks(blanks + rest)
  {
    if blanks == [] {
      assert blanks + rest == rest;
    } else {
      assert blanks[0] in blanks && (blanks + rest)[1..] == blanks[1..] + rest;
      BlanksNoChunks(blanks[1..], rest);
    }
  }

  lemma NoChunksRead(lines: Lines, n: nat, taken: nat, end: nat)
    requires ReadingChunks(lines, n, [], taken) == Ok(([], end))
    ensures NoChunks(lines)
  {
    var chunks, blanks, rest := ChunksAccepted(lines, n, [], taken, false, [], end);
    assert [] + ChunksOf(chunks) == ChunksOf(chunks) && chunks == [];
    assert lines == [] + (blanks + rest) == blanks + rest;
    BlanksNoChunks(blanks, rest);
  }

  lemma PointsFurther(lines: Lines, n: nat, k: nat, e: ParseError)
    requires k <= |lines| && PointsAt(lines[k..], n + k, e)
    ensures PointsAt(lines, n, e)
  {
    assert forall j :: k <= j < |lines| ==> lines[k..][j - k] == lines[j] && lines[k..][j - k..] == lines[j..];
  }

  lemma {:induction false} BodyErrorPoints(lines: Lines, n: nat, chunk: Chunk, parsed: nat)
    requires ChunkBody(lines, n, chunk, parsed).Err?
    ensures var e := ChunkBody(lines, n, chunk, parsed).error;
      parsed == 0 && lines != [] && e.InvalidHunk? && e.lineNumber == n + 1
      && ((e.problem == NoLines && lines[0] == EOF_MARKER)
          || (e.problem == UnexpectedLine(lines[0]) && !IsChange(lines[0]) && lines[0] != EOF_MARKER))
    decreases |lines|
  {
    if lines != [] && lines[0] != EOF_MARKER && WithLine(chunk, lines[0]).Some? {
      BodyErrorPoints(lines[1..], n, WithLine(chunk, lines[0]).value, parsed + 1);
    }
  }

  lemma ChunkErrorPoints(lines: Lines, n: nat, allowMissingContext: bool)
    requires lines != [] && Trim(lines[0]) != "" && !("***" <= lines[0])
    requires OneChunk(lines, n, allowMissingContext).Err?
    ensures PointsAt(lines, n, OneChunk(lines, n, allowMissingContext).error)
  {
    var marker := Marker(lines[0]);
    var start := if marker.Some? then 1 else 0;
    if (marker.Some? || allowMissingContext) && start < |lines| {
      BodyErrorPoints(lines[start..], n, Chunk(marker.GetOr(None), [], [], false), 0);
    }
  }

  lemma {:induction false} ChunksErrorPoints(lines: Lines, n: nat, before: seq<Chunk>, taken: nat, e: ParseError)
    requires ReadingChunks(lines, n, before, taken) == Err(e)
    ensures PointsAt(lines, n, e)
    decreases |lines|
  {
    var here, count, chunks, end := FirstChunkErrs(lines, n, before, taken, e);
    if !here {
      ChunksErrorPoints(lines[count..], n + count, chunks, end, e);
      PointsFurther(lines, n, count, e);
    }
  }

  /** The error is found in the first chunk, or after it. */
  lemma FirstChunkErrs(lines: Lines, n: nat, before: seq<Chunk>, taken: nat, e: ParseError)
    returns (here: bool, count: nat, chunks: seq<Chunk>, end: nat)
    requires ReadingChunks(lines, n, before, taken) == Err(e)
    ensures here ==> PointsAt(lines, n, e)
    ensures !here ==> 1 <= count <= |lines| && ReadingChunks(lines[count..], n + count, chunks, end) == Err(e)
  {
    here, count, chunks, end := false, 1, before, taken + 1;
    if Trim(lines[0]) != "" {
      match OneChunk(lines, n, before == [])
      case Err(_) =>
        ChunkErrorPoints(lines, n, before == []);
        here := true;
      case Ok((chunk, size)) =>
        count, chunks, end := size, before + [chunk], taken + size;
    }
  }

  lemma HunkErrorPoints(lines: Lines, n: nat, e: ParseError)
    requires lines != [] && OneHunk(lines, n) == Err(e)
    ensures PointsAt(lines, n, e)
  {
    var update := StripPrefix(Trim(lines[0]), UPDATE_FILE);
    if update.Some? {
      assert OneHunk(lines, n) == UpdateHunk(lines, n, update.value);
      var header := if |lines| > 1 && StripPrefix(lines[1], MOVE_TO).Some? then 2 else 1;
      var read := ReadingChunks(lines[header..], n + header, [], header);
      if read.Err? {
        ChunksErrorPoints(lines[header..], n + header, [], header, e);
        PointsFurther(lines, n, header, e);
      } else {
        NoChunksRead(lines[header..], n + header, header, read.value.1);
        assert lines[0..] == lines && BehindHeader(lines) == lines[header..];
      }
    }
  }

  /** The error is found in the first hunk, or after it. */
  lemma FirstHunkErrs(lines: Lines, n: nat, before: seq<Hunk>, e: ParseError)
    returns (here: bool, hunk: Hunk, taken: nat)
    requires Reading(lines, n, before) == Err(e)
    ensures here ==> PointsAt(lines, n, e)
    ensures !here ==> 1 <= taken <= |lines| && Reading(lines[taken..], n + taken, before + [hunk]) == Err(e)
  {
    here, hunk, taken := OneHunk(lines, n).Err?, DeleteFile(""), 0;
    if here {
      HunkErrorPoints(lines, n, e);
    } else {
      hunk, taken := OneHunk(lines, n).value.0, OneHunk(lines, n).value.1;
    }
  }

  /** Every error of the body names a line of the patch, the one it is about, but for the two
      cases `PointsAt` spells out. */
  lemma {:induction false} ErrorsPoint(lines: Lines, n: nat, before: seq<Hunk>, e: ParseError)
    requires Reading(lines, n, before) == Err(e)
    ensures PointsAt(lines, n, e)
    decreases |lines|
  {
    var here, hunk, taken := FirstHunkErrs(lines, n, before, e);
    if !here {
      ErrorsPoint(lines[taken..], n + taken, before + [hunk], e);
      PointsFurther(lines, n, taken, e);
    }
  }
}
