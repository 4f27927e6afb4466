/** The parser accepts nothing but the grammar: whatever it reads is a printed form of what it returns. */
module PatchAccepts {
  import opened Wrappers
  import opened Text
  import opened PatchParser
  import opened PatchGrammar

  // ---------- chunks ----------

  /** The change a line is. */
  function ChangeFor(line: string): (c: Change)
    requires IsChange(line)
    ensures ChangeText(c) == line
  {
    if line == "" then Gap
    else
      assert line == [line[0]] + line[1..];
      if line[0] == ' ' then Keep(line[1..]) else if line[0] == '+' then Insert(line[1..]) else Delete(line[1..])
  }

  lemma LineTaken(chunk: Chunk, line: string)
    ensures WithLine(chunk, line).Some? <==> IsChange(line)
    ensures IsChange(line) ==>
      WithLine(chunk, line).value ==
      chunk.(oldLines := chunk.oldLines + OldPart(ChangeFor(line)),
             newLines := chunk.newLines + NewPart(ChangeFor(line)))
  {
    assert chunk.oldLines + [] == chunk.oldLines && chunk.newLines + [] == chunk.newLines;
  }

  lemma {:induction false} BodyAccepted(lines: Lines, n: nat, chunk: Chunk, parsed: nat, c: Chunk, count: nat)
    returns (changes: seq<Change>, eof: bool, rest: Lines)
    requires ChunkBody(lines, n, chunk, parsed) == Ok((c, count)) && !chunk.isEndOfFile
    ensures lines == ChangeLines(changes) + (EofLines(eof) + rest) && (eof || Stops(rest))
    ensures c == Chunk(chunk.context, chunk.oldLines + OldOf(changes), chunk.newLines + NewOf(changes), eof)
    ensures count == parsed + |ChangeLines(changes)| + |EofLines(eof)|
    ensures parsed == 0 && lines != [] ==> changes != []
    decreases |lines|
  {
    changes, eof, rest := [], false, lines;
    assert chunk.oldLines + [] == chunk.oldLines && chunk.newLines + [] == chunk.newLines;
    if lines != [] {
      LineTaken(chunk, lines[0]);
      if lines[0] == EOF_MARKER {
        eof, rest := true, lines[1..];
        assert lines == [] + ([EOF_MARKER] + rest);
      } else if IsChange(lines[0]) {
        var first, next := ChangeFor(lines[0]), WithLine(chunk, lines[0]).value;
        var others;
        others, eof, rest := BodyAccepted(lines[1..], n, next, parsed + 1, c, count);
        changes := [first] + others;
        ChangeAccepted(lines, first, others, changes, EofLines(eof) + rest);
        Assoc(chunk.oldLines, OldPart(first), OldOf(others));
        Assoc(chunk.newLines, NewPart(first), NewOf(others));
      } else {
        assert lines == [] + ([] + lines);
      }
    } else {
      assert lines == [] + ([] + rest);
    }
  }

  lemma ChangeAccepted(lines: Lines, first: Change, others: seq<Change>, changes: seq<Change>, tail: Lines)
    requires lines != [] && lines[0] == ChangeText(first) && lines[1..] == ChangeLines(others) + tail
    requires changes == [first] + others
    ensures lines == ChangeLines(changes) + tail && |ChangeLines(changes)| == 1 + |ChangeLines(others)|
    ensures OldOf(changes) == OldPart(first) + OldOf(others) && NewOf(changes) == NewPart(first) + NewOf(others)
  {
    assert changes[1..] == others;
    assert lines == [lines[0]] + lines[1..];
    Assoc([lines[0]], ChangeLines(others), tail);
  }

  lemma MarkerAccepted(line: string)
    ensures Marker(line).Some? ==> line == MarkerLine(Marker(line).value)
  {
    if CHANGE_CONTEXT <= line { assert line == CHANGE_CONTEXT + line[|CHANGE_CONTEXT|..]; }
  }

  /** A chunk that was read is a printed one, without blank lines before it. */
  lemma ChunkAccepted(lines: Lines, n: nat, first: bool, c: Chunk, count: nat)
    returns (p: PrintableChunk, rest: Lines)
    requires lines != [] && OneChunk(lines, n, first) == Ok((c, count)) && Trim(lines[0]) != ""
    ensures lines == Core(p) + rest && p.blanks == [] && ChunkOf(p) == c && count == |Core(p)|
    ensures CoreFits(p, first) && (p.isEndOfFile || Stops(rest))
  {
    var marker := Marker(lines[0]);
    var context := if marker.Some? then marker.value else None;
    var start: nat := if marker.Some? then 1 else 0;
    var changes, eof;
    changes, eof, rest := BodyAccepted(lines[start..], n, Chunk(context, [], [], false), 0, c, count - start);
    p := PrintableChunk([], marker.Some?, context, changes, eof);
    assert [] + OldOf(changes) == OldOf(changes) && [] + NewOf(changes) == NewOf(changes);
    CoreAccepted(lines, p, rest, start);
  }

  lemma CoreAccepted(lines: Lines, p: PrintableChunk, rest: Lines, start: nat)
    requires lines != [] && p.changes != [] && start == (if p.marked then 1 else 0)
    requires lines[start..] == ChangeLines(p.changes) + (EofLines(p.isEndOfFile) + rest)
    requires Marker(lines[0]) == if p.marked then Some(p.context) else None
    ensures lines == Core(p) + rest && |Core(p)| == start + |ChangeLines(p.changes)| + |EofLines(p.isEndOfFile)|
    ensures !p.marked ==> lines[0] == ChangeText(p.changes[0])
  {
    var body := ChangeLines(p.changes) + EofLines(p.isEndOfFile);
    MarkerAccepted(lines[0]);
    Assoc(ChangeLines(p.changes), EofLines(p.isEndOfFile), rest);
    if p.marked {
      assert lines == [MarkerLine(p.context)] + (body + rest);
      Assoc([MarkerLine(p.context)], body, rest);
    } else {
      assert lines == body + rest && [] + body == body;
      assert ChangeLines(p.changes)[0] == ChangeText(p.changes[0]);
    }
  }

  /** The chunks that were read are printed ones, with the blank lines between them and behind. */
  predicate AcceptedAs(lines: Lines, chunks: seq<PrintableChunk>, blanks: Lines, rest: Lines, first: bool, open: bool) {
    && lines == ChunksLines(chunks) + (blanks + rest) && ChunksFit(chunks, first, open)
    && BlanksFit(blanks, OpenAfter(chunks, open)) && EndsChunks(rest, OpenAfter(chunks, open) && blanks == [])
  }

  /** A blank line before all that has been accepted. */
  lemma BlankAccepted(line: string, lines: Lines, chunks: seq<PrintableChunk>, blanks: Lines, rest: Lines,
                      first: bool, open: bool)
    returns (more: seq<PrintableChunk>, end: Lines)
    requires AcceptedAs(lines, chunks, blanks, rest, first, false) && Trim(line) == "" && (open ==> !IsChange(line))
    ensures AcceptedAs([line] + lines, more, end, rest, first, open) && ChunksOf(more) == ChunksOf(chunks)
    ensures |ChunksLines(more)| + |end| == 1 + |ChunksLines(chunks)| + |blanks|
  {
    if chunks == [] {
      more, end := [], [line] + blanks;
      assert [line] + lines == [] + (end + rest);
    } else {
      var c, others := chunks[0], chunks[1..];
      var d := c.(blanks := [line] + c.blanks);
      more, end := [d] + others, blanks;
      assert more[1..] == others && ChunkOf(d) == ChunkOf(c);
      Assoc([line], c.blanks, Core(c));
      assert ChunkLines(d) == [line] + ChunkLines(c);
      Assoc([line], ChunkLines(c), ChunksLines(others));
      Assoc([line], ChunksLines(chunks), blanks + rest);
    }
  }

  lemma {:induction false} ChunksAccepted(lines: Lines, n: nat, before: seq<Chunk>, taken: nat, open: bool,
                                          all: seq<Chunk>, end: nat)
    returns (chunks: seq<PrintableChunk>, blanks: Lines, rest: Lines)
    requires ReadingChunks(lines, n, before, taken) == Ok((all, end)) && (open ==> Stops(lines))
    ensures AcceptedAs(lines, chunks, blanks, rest, before == [], open)
    ensures all == before + ChunksOf(chunks) && end == taken + |ChunksLines(chunks)| + |blanks|
    decreases |lines|
  {
    chunks, blanks, rest := [], [], lines;
    assert before + [] == before && lines == [] + ([] + lines);
    if lines != [] {
      ChunksStep(lines, n, before, taken);
      if Trim(lines[0]) == "" {
        var later, behind;
        later, behind, rest := ChunksAccepted(lines[1..], n + 1, before, taken + 1, false, all, end);
        chunks, blanks := BlankAccepted(lines[0], lines[1..], later, behind, rest, before == [], open);
        assert lines == [lines[0]] + lines[1..];
      } else if !("***" <= lines[0]) {
        chunks, blanks, rest := ChunkThenAccepted(lines, n, before, taken, open, all, end);
      }
    }
  }

  lemma {:induction false} ChunkThenAccepted(lines: Lines, n: nat, before: seq<Chunk>, taken: nat, open: bool,
                                             all: seq<Chunk>, end: nat)
    returns (chunks: seq<PrintableChunk>, blanks: Lines, rest: Lines)
    requires lines != [] && Trim(lines[0]) != "" && !("***" <= lines[0])
    requires ReadingChunks(lines, n, before, taken) == Ok((all, end)) && (open ==> Stops(lines))
    ensures AcceptedAs(lines, chunks, blanks, rest, before == [], open)
    ensures all == before + ChunksOf(chunks) && end == taken + |ChunksLines(chunks)| + |blanks|
    decreases |lines|, 0
  {
    var p, more := NextChunkAccepted(lines, n, before, taken, all, end);
    var size: nat := |Core(p)|;
    var others;
    others, blanks, rest :=
      ChunksAccepted(more, n + size, before + [ChunkOf(p)], taken + size, !p.isEndOfFile, all, end);
    chunks := [p] + others;
    FirstAccepted(lines, p, others, chunks, blanks, rest, more, before == [], open);
    Assoc(before, [ChunkOf(p)], ChunksOf(others));
  }

  lemma NextChunkAccepted(lines: Lines, n: nat, before: seq<Chunk>, taken: nat, all: seq<Chunk>, end: nat)
    returns (p: PrintableChunk, more: Lines)
    requires lines != [] && Trim(lines[0]) != "" && !("***" <= lines[0])
    requires ReadingChunks(lines, n, before, taken) == Ok((all, end))
    ensures lines == Core(p) + more && p.blanks == [] && CoreFits(p, before == []) && (p.isEndOfFile || Stops(more))
    ensures var size := |Core(p)|;
      size > 0 && ReadingChunks(more, n + size, before + [ChunkOf(p)], taken + size) == Ok((all, end))
  {
    var c, count := ChunkRead(lines, n, before, taken, all, end);
    p, more := ChunkAccepted(lines, n, before == [], c, count);
    assert lines[count..] == more by { SliceAfter(Core(p), more); }
    CoreStarts(p, before == []);
  }

  lemma ChunkRead(lines: Lines, n: nat, before: seq<Chunk>, taken: nat, all: seq<Chunk>, end: nat)
    returns (c: Chunk, count: nat)
    requires lines != [] && Trim(lines[0]) != "" && !("***" <= lines[0])
    requires ReadingChunks(lines, n, before, taken) == Ok((all, end))
    ensures OneChunk(lines, n, before == []) == Ok((c, count)) && count <= |lines|
    ensures ReadingChunks(lines[count..], n + count, before + [c], taken + count) == Ok((all, end))
  {
    ChunksStep(lines, n, before, taken);
    c, count := OneChunk(lines, n, before == []).value.0, OneChunk(lines, n, before == []).value.1;
  }

  lemma FirstAccepted(lines: Lines, p: PrintableChunk, others: seq<PrintableChunk>, chunks: seq<PrintableChunk>,
                      blanks: Lines, rest: Lines, more: Lines, first: bool, open: bool)
    requires lines == Core(p) + more && p.blanks == [] && CoreFits(p, first) && chunks == [p] + others
    requires AcceptedAs(more, others, blanks, rest, false, !p.isEndOfFile)
    ensures AcceptedAs(lines, chunks, blanks, rest, first, open)
    ensures ChunksOf(chunks) == [ChunkOf(p)] + ChunksOf(others)
    ensures |ChunksLines(chunks)| == |Core(p)| + |ChunksLines(others)|
  {
    assert chunks[1..] == others && [] + Core(p) == Core(p);
    Assoc(Core(p), ChunksLines(others), blanks + rest);
  }

  // ---------- hunks ----------

  lemma {:induction false} AddedAccepted(lines: Lines) returns (added: seq<string>, rest: Lines)
    ensures lines == PlusLines(added) + rest && (rest == [] || !("+" <= rest[0]))
    ensures AddedLines(lines) == (Render(added), |PlusLines(added)|)
  {
    added, rest := [], lines;
    assert lines == [] + lines;
    if lines != [] && "+" <= lines[0] {
      var others;
      others, rest := AddedAccepted(lines[1..]);
      added := [lines[0][1..]] + others;
      assert added[1..] == others && "+" + lines[0][1..] == lines[0] && lines == [lines[0]] + lines[1..];
      Assoc([lines[0]], PlusLines(others), rest);
    }
  }

  /** A hunk that was read is a printed one, followed by what may follow it. */
  predicate HunkIs(lines: Lines, h: PrintableHunk, rest: Lines, hunk: Hunk, count: nat) {
    lines == HunkLines(h) + rest && HunkFits(h) && MayFollow(h, rest) && HunkOf(h) == hunk && count == |HunkLines(h)|
  }

  lemma AddAccepted(lines: Lines, n: nat, hunk: Hunk, count: nat, path: string)
    returns (h: PrintableHunk, rest: Lines)
    requires lines != [] && OneHunk(lines, n) == Ok((hunk, count)) && Trim(lines[0]) == ADD_FILE + path
    ensures HunkIs(lines, h, rest, hunk, count)
  {
    var added;
    added, rest := AddedAccepted(lines[1..]);
    h := Adding(lines[0], path, added);
    AddHunkParses(lines, n, path, lines[1..], Render(added), |PlusLines(added)|);
    assert lines == [lines[0]] + lines[1..];
    Assoc([lines[0]], PlusLines(added), rest);
  }

  lemma DeleteAccepted(lines: Lines, n: nat, hunk: Hunk, count: nat, path: string)
    returns (h: PrintableHunk, rest: Lines)
    requires lines != [] && OneHunk(lines, n) == Ok((hunk, count)) && Trim(lines[0]) == DELETE_FILE + path
    ensures HunkIs(lines, h, rest, hunk, count)
  {
    h, rest := Deleting(lines[0], path), lines[1..];
    DeleteHunkParses(lines, n, path);
    assert lines == [lines[0]] + rest;
  }

  lemma UpdateAccepted(lines: Lines, n: nat, hunk: Hunk, count: nat, path: string)
    returns (h: PrintableHunk, rest: Lines)
    requires lines != [] && OneHunk(lines, n) == Ok((hunk, count)) && Trim(lines[0]) == UPDATE_FILE + path
    ensures HunkIs(lines, h, rest, hunk, count)
  {
    var move, skipped, body, chunks := UpdateRead(lines, n, hunk, count, path);
    var printed, blanks;
    printed, blanks, rest := ChunksAccepted(body, n + skipped, [], skipped, false, chunks, count);
    assert [] + ChunksOf(printed) == ChunksOf(printed);
    h := Updating(lines[0], path, move, printed, blanks);
    Assoc([lines[0]] + MoveLines(move), ChunksLines(printed) + blanks, rest);
    Assoc(ChunksLines(printed), blanks, rest);
  }

  lemma UpdateRead(lines: Lines, n: nat, hunk: Hunk, count: nat, path: string)
    returns (move: Option<string>, skipped: nat, body: Lines, chunks: seq<Chunk>)
    requires lines != [] && OneHunk(lines, n) == Ok((hunk, count)) && Trim(lines[0]) == UPDATE_FILE + path
    ensures skipped == 1 + |MoveLines(move)| && lines == [lines[0]] + MoveLines(move) + body
    ensures chunks != [] && hunk == UpdateFile(path, move, chunks)
    ensures ReadingChunks(body, n + skipped, [], skipped) == Ok((chunks, count))
  {
    HeaderParses(UPDATE_FILE, path, Trim(lines[0]));
    move := if |lines| > 1 then StripPrefix(lines[1], MOVE_TO) else None;
    skipped := if move.Some? then 2 else 1;
    body := lines[skipped..];
    chunks := Chunks(body, n + skipped, [], skipped).value.0;
    if move.Some? { assert lines[1] == MOVE_TO + move.value && lines == [lines[0], lines[1]] + body; }
    else { assert lines == [lines[0]] + [] + body; }
  }

  /** The next hunk that was read is a printed one. */
  lemma HunkAccepted(lines: Lines, n: nat, hunk: Hunk, count: nat) returns (h: PrintableHunk, rest: Lines)
    requires lines != [] && OneHunk(lines, n) == Ok((hunk, count))
    ensures HunkIs(lines, h, rest, hunk, count)
  {
    var first := Trim(lines[0]);
    if ADD_FILE <= first {
      assert first == ADD_FILE + first[|ADD_FILE|..];
      h, rest := AddAccepted(lines, n, hunk, count, first[|ADD_FILE|..]);
    } else if DELETE_FILE <= first {
      assert first == DELETE_FILE + first[|DELETE_FILE|..];
      h, rest := DeleteAccepted(lines, n, hunk, count, first[|DELETE_FILE|..]);
    } else {
      assert first == UPDATE_FILE + first[|UPDATE_FILE|..];
      h, rest := UpdateAccepted(lines, n, hunk, count, first[|UPDATE_FILE|..]);
    }
  }

  lemma NextAccepted(lines: Lines, n: nat, before: seq<Hunk>, hunks: seq<Hunk>)
    returns (h: PrintableHunk, rest: Lines, hunk: Hunk, count: nat)
    requires lines != [] && Reading(lines, n, before) == Ok(hunks)
    ensures HunkFits(h) && MayFollow(h, rest) && lines == HunkLines(h) + rest && HunkOf(h) == hunk
    ensures Reading(rest, n + count, before + [hunk]) == Ok(hunks) && |rest| < |lines|
  {
    hunk, count := OneHunk(lines, n).value.0, OneHunk(lines, n).value.1;
    h, rest := HunkAccepted(lines, n, hunk, count);
    assert lines[count..] == rest by { SliceAfter(HunkLines(h), rest); }
    HunkRead(lines, n, before, hunk, count);
  }

  /** The lines that were read are printed hunks, and those returned are what they mean. */
  lemma {:induction false} HunksAccepted(lines: Lines, n: nat, before: seq<Hunk>, hunks: seq<Hunk>)
    returns (printed: seq<PrintableHunk>)
    requires Reading(lines, n, before) == Ok(hunks)
    ensures HunksFit(printed) && lines == HunksLines(printed) && hunks == before + HunksOf(printed)
    decreases |lines|
  {
    printed := [];
    assert before + [] == before;
    if lines != [] {
      var h, rest, hunk, count := NextAccepted(lines, n, before, hunks);
      var others := HunksAccepted(rest, n + count, before + [hunk], hunks);
      printed := [h] + others;
      FirstHunkAccepted(lines, h, rest, others, printed);
      Assoc(before, [hunk], HunksOf(others));
    }
  }

  lemma FirstHunkAccepted(lines: Lines, h: PrintableHunk, rest: Lines, others: seq<PrintableHunk>,
                          printed: seq<PrintableHunk>)
    requires HunkFits(h) && MayFollow(h, rest) && lines == HunkLines(h) + rest && printed == [h] + others
    requires HunksFit(others) && rest == HunksLines(others)
    ensures HunksFit(printed) && lines == HunksLines(printed) && HunksOf(printed) == [HunkOf(h)] + HunksOf(others)
  {
    assert printed[1..] == others;
    if others != [] {
      HeaderOf(others[0]);
      assert rest[0] == HunkLines(others[0])[0] && printed[1] == others[0];
    }
  }

  ghost predicate PrintedAs(lines: Lines, hunks: seq<Hunk>, printed: seq<PrintableHunk>) {
    HunksFit(printed) && HunksLines(printed) == lines && HunksOf(printed) == hunks
  }

  /** The lines of a patch parse to these hunks exactly if they are a printed form of them. */
  lemma BodyExactly(lines: Lines, n: nat, hunks: seq<Hunk>)
    ensures Hunks(lines, n, []) == Ok(hunks) <==> exists printed :: PrintedAs(lines, hunks, printed)
  {
    if Hunks(lines, n, []) == Ok(hunks) {
      var printed := HunksAccepted(lines, n, [], hunks);
      assert [] + HunksOf(printed) == HunksOf(printed);
      assert PrintedAs(lines, hunks, printed);
    }
    if printed :| PrintedAs(lines, hunks, printed) {
      HunksParse(printed, lines, n, []);
      assert [] + HunksOf(printed) == HunksOf(printed);
    }
  }

  /** A first line and a last one that are the markers, but for white space around them. */
  predicate Marked(lines: Lines) {
    |lines| > 1 && Trim(lines[0]) == BEGIN_PATCH && Trim(lines[|lines| - 1]) == END_PATCH
  }

  /** The same inside a shell heredoc. */
  predicate InHeredoc(lines: Lines) {
    |lines| >= 4 && lines[0] in {"<<EOF", "<<'EOF'", "<<\"EOF\""} && EndsWith(lines[|lines| - 1], "EOF")
    && Marked(lines[1..|lines| - 1])
  }

  /** The patch is the text between markers, inside a heredoc or not; otherwise the error says which of the
      two markers is not there, of the heredoc's lines if it is one. */
  lemma PatchFramed(lines: Lines)
    ensures Marked(lines) ==> PatchLines(lines) == Ok(lines)
    ensures InHeredoc(lines) ==> !Marked(lines) && PatchLines(lines) == Ok(lines[1..|lines| - 1])
    ensures !Marked(lines) && !InHeredoc(lines) ==>
      var framed := if |lines| >= 4 && OpensHeredoc(lines[0]) && EndsWith(lines[|lines| - 1], "EOF")
                    then lines[1..|lines| - 1] else lines;
      PatchLines(lines) == Err(
        if framed != [] && Trim(framed[0]) != BEGIN_PATCH then BadFirstLine else BadLastLine)
  {
    assert BEGIN_PATCH[4] != END_PATCH[4];
    if lines != [] && OpensHeredoc(lines[0]) { NotBegin(lines[0]); }
  }

  lemma NotBegin(opener: string)
    requires opener != "" && opener[0] == '<'
    ensures Trim(opener) != BEGIN_PATCH
  {
    TrimEndKeepsHead(opener);
  }

  ghost predicate TextOf(text: string, patch: Lines, printed: seq<PrintableHunk>) {
    var lines := TextLines(Trim(text));
    && (if Marked(lines) then patch == lines else InHeredoc(lines) && patch == lines[1..|lines| - 1])
    && HunksFit(printed) && patch[1..|patch| - 1] == HunksLines(printed)
  }

  /** A text parses to these hunks and this patch exactly if its lines, between the markers, are a printed form
      of the hunks. */
  lemma ParseExactly(text: string, hunks: seq<Hunk>, patch: string)
    ensures Parse(text) == Ok(ParsedPatch(hunks, patch)) <==>
      exists lines, printed :: TextOf(text, lines, printed) && HunksOf(printed) == hunks && Join(lines) == patch
  {
    PatchFramed(TextLines(Trim(text)));
    if Parse(text) == Ok(ParsedPatch(hunks, patch)) {
      var lines, printed := TextAccepted(text, hunks, patch);
    }
    if lines, printed :| TextOf(text, lines, printed) && HunksOf(printed) == hunks && Join(lines) == patch {
      TextParses(text, lines, printed);
    }
  }

  lemma TextAccepted(text: string, hunks: seq<Hunk>, patch: string) returns (lines: Lines, printed: seq<PrintableHunk>)
    requires Parse(text) == Ok(ParsedPatch(hunks, patch))
    ensures TextOf(text, lines, printed) && HunksOf(printed) == hunks && Join(lines) == patch
  {
    PatchFramed(TextLines(Trim(text)));
    lines := PatchLines(TextLines(Trim(text))).value;
    printed := HunksAccepted(lines[1..|lines| - 1], 2, [], hunks);
    assert [] + HunksOf(printed) == HunksOf(printed);
  }

  lemma TextParses(text: string, lines: Lines, printed: seq<PrintableHunk>)
    requires TextOf(text, lines, printed)
    ensures Parse(text) == Ok(ParsedPatch(HunksOf(printed), Join(lines)))
  {
    PatchFramed(TextLines(Trim(text)));
    HunksParse(printed, lines[1..|lines| - 1], 2, []);
    assert [] + HunksOf(printed) == HunksOf(printed);
  }

  // ---------- a chunk without its marker ----------

  /** Blank lines at the start of a chunk without its marker are not part of it: they are skipped. */
  lemma LeadingBlankLost(blank: string, rest: Lines, n: nat, taken: nat)
    requires Trim(blank) == ""
    ensures ReadingChunks([blank] + rest, n, [], taken) == ReadingChunks(rest, n + 1, [], taken + 1)
  {
    BlanksSkipped([blank], rest, n, [], taken);
  }

  lemma ChunkAlone(c: PrintableChunk, lines: Lines, chunk: Chunk, n: nat)
    requires ChunkFits(c, true, false) && lines == ChunkLines(c) && chunk == ChunkOf(c)
    ensures ReadingChunks(lines, n, [], 0) == Ok(([chunk], |lines|))
  {
    assert [c][1..] == [] && ChunksLines([c]) == lines + [] && ChunksOf([c]) == [chunk] + [];
    ChunksParse([c], [], [], lines, n, [], 0, false, [chunk], |lines|);
  }

  lemma InsertsLine(text: string)
    ensures var changes := [Insert(text)];
      ChangeLines(changes) == ["+" + text] && OldOf(changes) == [] && NewOf(changes) == [text]
  {
    assert [Insert(text)][1..] == [];
  }

  lemma GapAndInsert(text: string)
    ensures var changes := [Gap, Insert(text)];
      ChangeLines(changes) == ["", "+" + text] && OldOf(changes) == [""] && NewOf(changes) == ["", text]
  {
    InsertsLine(text);
    assert [Gap, Insert(text)][1..] == [Insert(text)];
  }

  /** So a kept blank line, then an added one, read as the added line alone; behind a marker they read as both. */
  lemma BlankContextLost(n: nat, text: string)
    ensures ReadingChunks(["", "+" + text], n, [], 0) == Ok(([Chunk(None, [], [text], false)], 2))
    ensures ReadingChunks([EMPTY_CONTEXT, "", "+" + text], n, [], 0)
         == Ok(([Chunk(None, [""], ["", text], false)], 3))
  {
    var bare := PrintableChunk([""], false, None, [Insert(text)], false);
    var full := PrintableChunk([], true, None, [Gap, Insert(text)], false);
    InsertsLine(text);
    GapAndInsert(text);
    NotBlank("+" + text);
    assert Trim("") == "";
    assert ChunkLines(bare) == [""] + ([] + (["+" + text] + [])) == ["", "+" + text];
    assert ChunkLines(full) == [] + ([EMPTY_CONTEXT] + (["", "+" + text] + [])) == [EMPTY_CONTEXT, "", "+" + text];
    ChunkAlone(bare, ["", "+" + text], Chunk(None, [], [text], false), n);
    ChunkAlone(full, [EMPTY_CONTEXT, "", "+" + text], Chunk(None, [""], ["", text], false), n);
  }
}
