/** The grammar of patches as a printer: every form in which a patch may be written, and that parsing what
    is printed gives it back. */
module PatchGrammar {
  import opened Wrappers
  import opened Text
  import opened PatchParser

  // ---------- the printer ----------

  /** `Gap` is a kept blank line written as an empty one, without the leading blank. */
  datatype Change = Keep(text: string) | Insert(text: string) | Delete(text: string) | Gap

  /** Blank lines before a chunk are skipped; the first chunk of a file may do without its marker. */
  datatype PrintableChunk = PrintableChunk(blanks: Lines, marked: bool, context: Option<string>,
                                           changes: seq<Change>, isEndOfFile: bool)

  /** The header is the line itself, white space around it included; `blanks` end the chunks of a file. */
  datatype PrintableHunk =
    | Adding(header: string, path: string, lines: seq<string>)
    | Deleting(header: string, path: string)
    | Updating(header: string, path: string, movePath: Option<string>, chunks: seq<PrintableChunk>, blanks: Lines)

  function ChangeText(c: Change): string {
    match c case Keep(t) => " " + t case Insert(t) => "+" + t case Delete(t) => "-" + t case Gap => ""
  }

  function ChangeLines(changes: seq<Change>): Lines {
    if changes == [] then [] else [ChangeText(changes[0])] + ChangeLines(changes[1..])
  }

  function MarkerLine(context: Option<string>): string {
    match context case None => EMPTY_CONTEXT case Some(c) => CHANGE_CONTEXT + c
  }

  function EofLines(isEndOfFile: bool): Lines { if isEndOfFile then [EOF_MARKER] else [] }

  /** A chunk without the blank lines before it. */
  function Core(c: PrintableChunk): Lines {
    (if c.marked then [MarkerLine(c.context)] else []) + (ChangeLines(c.changes) + EofLines(c.isEndOfFile))
  }

  function ChunkLines(c: PrintableChunk): Lines { c.blanks + Core(c) }

  function ChunksLines(chunks: seq<PrintableChunk>): Lines {
    if chunks == [] then [] else ChunkLines(chunks[0]) + ChunksLines(chunks[1..])
  }

  function PlusLines(lines: seq<string>): Lines {
    if lines == [] then [] else ["+" + lines[0]] + PlusLines(lines[1..])
  }

  function MoveLines(move: Option<string>): Lines {
    match move case None => [] case Some(path) => [MOVE_TO + path]
  }

  function HunkLines(h: PrintableHunk): Lines {
    match h
    case Adding(header, _, lines) => [header] + PlusLines(lines)
    case Deleting(header, _) => [header]
    case Updating(header, _, move, chunks, blanks) => [header] + MoveLines(move) + (ChunksLines(chunks) + blanks)
  }

  function HunksLines(hunks: seq<PrintableHunk>): Lines {
    if hunks == [] then [] else HunkLines(hunks[0]) + HunksLines(hunks[1..])
  }

  // ---------- what is printed ----------

  /** What a change has of the old lines, and what of the new ones: a kept line is both. */
  function OldPart(c: Change): seq<string> {
    match c case Keep(t) => [t] case Delete(t) => [t] case Insert(_) => [] case Gap => [""]
  }

  function NewPart(c: Change): seq<string> {
    match c case Keep(t) => [t] case Insert(t) => [t] case Delete(_) => [] case Gap => [""]
  }

  function OldOf(changes: seq<Change>): seq<string> {
    if changes == [] then [] else OldPart(changes[0]) + OldOf(changes[1..])
  }

  function NewOf(changes: seq<Change>): seq<string> {
    if changes == [] then [] else NewPart(changes[0]) + NewOf(changes[1..])
  }

  function ChunkOf(c: PrintableChunk): Chunk {
    Chunk(c.context, OldOf(c.changes), NewOf(c.changes), c.isEndOfFile)
  }

  function ChunksOf(chunks: seq<PrintableChunk>): seq<Chunk> {
    if chunks == [] then [] else [ChunkOf(chunks[0])] + ChunksOf(chunks[1..])
  }

  function HunkOf(h: PrintableHunk): Hunk {
    match h
    case Adding(_, path, lines) => AddFile(path, Render(lines))
    case Deleting(_, path) => DeleteFile(path)
    case Updating(_, path, move, chunks, _) => UpdateFile(path, move, ChunksOf(chunks))
  }

  function HunksOf(hunks: seq<PrintableHunk>): seq<Hunk> {
    if hunks == [] then [] else [HunkOf(hunks[0])] + HunksOf(hunks[1..])
  }

  // ---------- what may be printed ----------

  predicate BlankLines(lines: Lines) { forall line :: line in lines ==> Trim(line) == "" }

  /** A line that goes on with the changes of a chunk. */
  predicate IsChange(line: string) { line == "" || line[0] == ' ' || line[0] == '+' || line[0] == '-' }

  /** Blank lines between chunks; where a chunk is still open the first must not look like one of its lines. */
  predicate BlanksFit(blanks: Lines, open: bool) {
    BlankLines(blanks) && (open && blanks != [] ==> !IsChange(blanks[0]))
  }

  /** Only the first chunk may lack its marker, and then not begin with a blank line. */
  predicate ChunkFits(c: PrintableChunk, first: bool, open: bool) {
    && BlanksFit(c.blanks, open) && c.changes != []
    && (c.marked || (first && c.context.None? && Trim(ChangeText(c.changes[0])) != ""))
  }

  /** A chunk stays open unless the end of the file is marked. */
  predicate ChunksFit(chunks: seq<PrintableChunk>, first: bool, open: bool) {
    chunks == [] || (ChunkFits(chunks[0], first, open) && ChunksFit(chunks[1..], false, !chunks[0].isEndOfFile))
  }

  predicate OpenAfter(chunks: seq<PrintableChunk>, open: bool) {
    if chunks == [] then open else OpenAfter(chunks[1..], !chunks[0].isEndOfFile)
  }

  /** What may follow the chunks of a file. */
  predicate EndsChunks(rest: Lines, open: bool) {
    rest == [] || ("***" <= rest[0] && (open ==> rest[0] != EOF_MARKER))
  }

  predicate HunkFits(h: PrintableHunk) {
    match h
    case Adding(header, path, _) => Trim(header) == ADD_FILE + path
    case Deleting(header, path) => Trim(header) == DELETE_FILE + path
    case Updating(header, path, _, chunks, blanks) =>
      Trim(header) == UPDATE_FILE + path && chunks != [] && ChunksFit(chunks, true, false)
      && BlanksFit(blanks, OpenAfter(chunks, false))
  }

  /** The chunks of a file only end at three stars: the next header must not be indented. */
  predicate HunksFit(hunks: seq<PrintableHunk>) {
    hunks == [] ||
      (HunkFits(hunks[0]) && HunksFit(hunks[1..])
       && (hunks[0].Updating? && |hunks| > 1 ==> "***" <= hunks[1].header))
  }

  // ---------- chunks ----------

  /** No change line comes next, nor the end of the file. */
  predicate Stops(rest: Lines) { rest == [] || (!IsChange(rest[0]) && rest[0] != EOF_MARKER) }

  lemma {:induction false} BodyParses(changes: seq<Change>, isEndOfFile: bool, rest: Lines, n: nat, chunk: Chunk,
                                      parsed: nat, olds: Lines, news: Lines, count: nat)
    requires (isEndOfFile || Stops(rest)) && (changes != [] || parsed > 0) && !chunk.isEndOfFile
    requires olds == chunk.oldLines + OldOf(changes) && news == chunk.newLines + NewOf(changes)
    requires count == parsed + |ChangeLines(changes)| + |EofLines(isEndOfFile)|
    ensures ChunkBody(ChangeLines(changes) + (EofLines(isEndOfFile) + rest), n, chunk, parsed)
         == Ok((Chunk(chunk.context, olds, news, isEndOfFile), count))
    decreases |changes|
  {
    var tail := EofLines(isEndOfFile) + rest;
    if changes == [] {
      assert ChangeLines(changes) + tail == tail;
      assert olds == chunk.oldLines && news == chunk.newLines;
      BodyEnds(isEndOfFile, rest, tail, n, chunk, parsed);
    } else {
      var c, others := changes[0], changes[1..];
      var was, now := OldPart(c), NewPart(c);
      var next := Chunk(chunk.context, chunk.oldLines + was, chunk.newLines + now, false);
      assert olds == next.oldLines + OldOf(others) by { Assoc(chunk.oldLines, was, OldOf(others)); }
      assert news == next.newLines + NewOf(others) by { Assoc(chunk.newLines, now, NewOf(others)); }
      ChangeParses(c, ChangeLines(others) + tail, n, chunk, parsed, next);
      assert ChangeLines(changes) + tail == [ChangeText(c)] + (ChangeLines(others) + tail);
      BodyParses(others, isEndOfFile, rest, n, next, parsed + 1, olds, news, count);
    }
  }

  lemma BodyEnds(isEndOfFile: bool, rest: Lines, tail: Lines, n: nat, chunk: Chunk, parsed: nat)
    requires tail == EofLines(isEndOfFile) + rest && (isEndOfFile || Stops(rest)) && parsed > 0 && !chunk.isEndOfFile
    ensures ChunkBody(tail, n, chunk, parsed)
         == Ok((chunk.(isEndOfFile := isEndOfFile), parsed + |EofLines(isEndOfFile)|))
  {
    if isEndOfFile { assert tail[0] == EOF_MARKER; } else { assert tail == rest; }
  }

  /** One change line is taken into the chunk. */
  lemma ChangeParses(c: Change, rest: Lines, n: nat, chunk: Chunk, parsed: nat, next: Chunk)
    requires next == chunk.(oldLines := chunk.oldLines + OldPart(c), newLines := chunk.newLines + NewPart(c))
    ensures ChunkBody([ChangeText(c)] + rest, n, chunk, parsed) == ChunkBody(rest, n, next, parsed + 1)
  {
    var lines := [ChangeText(c)] + rest;
    assert lines[1..] == rest;
    assert !c.Gap? ==> lines[0][1..] == c.text;
    assert lines[0] != EOF_MARKER by { assert EOF_MARKER[0] == '*'; }
    assert chunk.oldLines + [] == chunk.oldLines && chunk.newLines + [] == chunk.newLines;
    assert WithLine(chunk, lines[0]) == Some(next);
  }

  lemma MarkerParses(context: Option<string>)
    ensures Marker(MarkerLine(context)) == Some(context)
  {
  }

  lemma {:induction false} TrimEndKeepsHead(s: string)
    requires s != "" && !IsSpace(s[0])
    ensures TrimEnd(s) != "" && TrimEnd(s)[0] == s[0]
  {
    if IsSpace(s[|s|-1]) { TrimEndKeepsHead(s[..|s|-1]); }
  }

  lemma NotBlank(s: string)
    requires s != "" && !IsSpace(s[0])
    ensures Trim(s) != ""
  {
    TrimEndKeepsHead(s);
  }

  lemma MarkerLineShape(context: Option<string>)
    ensures var line := MarkerLine(context);
      Trim(line) != "" && !("***" <= line) && line[0] == '@' && !(MOVE_TO <= line)
  {
    var line := MarkerLine(context);
    assert line[0] == '@' && MOVE_TO[0] == '*' && "***"[0] == '*';
    NotBlank(line);
  }

  /** Where a chunk may stand, after the blank lines before it. */
  predicate CoreFits(c: PrintableChunk, first: bool) {
    c.changes != [] && (c.marked || (first && c.context.None? && Trim(ChangeText(c.changes[0])) != ""))
  }

  lemma CoreStarts(c: PrintableChunk, first: bool)
    requires CoreFits(c, first)
    ensures Core(c) != [] && Trim(Core(c)[0]) != "" && !("***" <= Core(c)[0])
    ensures !(MOVE_TO <= Core(c)[0]) && Core(c)[0] != EOF_MARKER && (c.marked ==> !IsChange(Core(c)[0]))
  {
    assert ChangeLines(c.changes)[0] == ChangeText(c.changes[0]);
    assert "***"[0] == '*' && MOVE_TO[0] == '*' && EOF_MARKER[0] == '*';
    if c.marked { MarkerLineShape(c.context); }
  }

  lemma CoreParses(c: PrintableChunk, rest: Lines, n: nat, first: bool)
    requires CoreFits(c, first) && (c.isEndOfFile || Stops(rest))
    ensures OneChunk(Core(c) + rest, n, first) == Ok((ChunkOf(c), |Core(c)|))
  {
    var lines := Core(c) + rest;
    var olds, news := OldOf(c.changes), NewOf(c.changes);
    assert [] + olds == olds && [] + news == news;
    var empty, count: nat := Chunk(c.context, [], [], false), |ChangeLines(c.changes)| + |EofLines(c.isEndOfFile)|;
    BodyParses(c.changes, c.isEndOfFile, rest, n, empty, 0, olds, news, count);
    var body := ChangeLines(c.changes) + (EofLines(c.isEndOfFile) + rest);
    assert |ChangeLines(c.changes)| > 0;
    CoreStarts(c, first);
    if c.marked {
      MarkerParses(c.context);
      assert lines[1..] == body;
      MarkedParses(lines, n, first, c.context, body, ChunkOf(c), count);
    } else {
      assert lines == body;
      UnmarkedParses(lines, n, c.changes[0], ChunkOf(c), count);
    }
  }

  lemma MarkedParses(lines: Lines, n: nat, allowMissingContext: bool, context: Option<string>, body: Lines,
                     chunk: Chunk, count: nat)
    requires lines != [] && Marker(lines[0]) == Some(context) && body == lines[1..] && body != []
    requires ChunkBody(body, n, Chunk(context, [], [], false), 0) == Ok((chunk, count))
    ensures OneChunk(lines, n, allowMissingContext) == Ok((chunk, count + 1))
  {
  }

  lemma UnmarkedParses(lines: Lines, n: nat, c: Change, chunk: Chunk, count: nat)
    requires lines != [] && lines[0] == ChangeText(c)
    requires ChunkBody(lines, n, Chunk(None, [], [], false), 0) == Ok((chunk, count))
    ensures OneChunk(lines, n, true) == Ok((chunk, count))
  {
    assert EMPTY_CONTEXT[0] == '@' && CHANGE_CONTEXT[0] == '@' && lines[0..] == lines;
    assert Marker(lines[0]) == None;
  }

  /** The chunks read from these lines. */
  function ReadingChunks(lines: Lines, n: nat, before: seq<Chunk>, taken: nat): Result<(seq<Chunk>, nat), ParseError> {
    Chunks(lines, n, before, taken)
  }

  lemma {:induction false} BlanksSkipped(blanks: Lines, rest: Lines, n: nat, before: seq<Chunk>, taken: nat)
    requires BlankLines(blanks)
    ensures ReadingChunks(blanks + rest, n, before, taken)
         == ReadingChunks(rest, n + |blanks|, before, taken + |blanks|)
    decreases |blanks|
  {
    var lines := blanks + rest;
    if blanks == [] {
      assert lines == rest;
    } else {
      assert blanks[0] in blanks && lines[1..] == blanks[1..] + rest;
      ChunksStep(lines, n, before, taken);
      BlanksSkipped(blanks[1..], rest, n + 1, before, taken + 1);
    }
  }

  lemma SliceAfter<T>(a: seq<T>, b: seq<T>)
    ensures (a + b)[|a|..] == b
  {
  }

  /** One chunk parsed, then the rest. */
  lemma ChunkFirst(lines: Lines, first: Lines, rest: Lines, n: nat, before: seq<Chunk>, taken: nat, chunk: Chunk)
    requires lines == first + rest && first != [] && Trim(first[0]) != "" && !("***" <= first[0])
    requires OneChunk(lines, n, before == []) == Ok((chunk, |first|))
    ensures ReadingChunks(lines, n, before, taken) ==
      ReadingChunks(rest, n + |first|, before + [chunk], taken + |first|)
  {
    SliceAfter(first, rest);
    ChunksStep(lines, n, before, taken);
  }

  lemma ChunkNext(c: PrintableChunk, lines: Lines, rest: Lines, n: nat, before: seq<Chunk>, taken: nat, open: bool)
    requires ChunkFits(c, before == [], open) && (c.isEndOfFile || Stops(rest)) && lines == ChunkLines(c) + rest
    ensures var size := |ChunkLines(c)|;
      ReadingChunks(lines, n, before, taken) == ReadingChunks(rest, n + size, before + [ChunkOf(c)], taken + size)
  {
    var skipped: nat := |c.blanks|;
    Assoc(c.blanks, Core(c), rest);
    BlanksSkipped(c.blanks, Core(c) + rest, n, before, taken);
    CoreStarts(c, before == []);
    CoreParses(c, rest, n + skipped, before == []);
    ChunkFirst(Core(c) + rest, Core(c), rest, n + skipped, before, taken + skipped, ChunkOf(c));
  }

  lemma StarsNotBlank(line: string)
    requires "***" <= line
    ensures Trim(line) != "" && line != "" && !IsChange(line)
  {
    assert line[0] == '*';
    NotBlank(line);
  }

  /** What follows an open chunk does not look like one of its lines. */
  lemma ChunksStop(chunks: seq<PrintableChunk>, blanks: Lines, rest: Lines)
    requires ChunksFit(chunks, false, true) && BlanksFit(blanks, OpenAfter(chunks, true))
    requires EndsChunks(rest, OpenAfter(chunks, true) && blanks == [])
    ensures Stops(ChunksLines(chunks) + (blanks + rest))
  {
    var lines := ChunksLines(chunks) + (blanks + rest);
    NotBlank(EOF_MARKER);
    if chunks != [] {
      var c := chunks[0];
      assert lines == ChunkLines(c) + (ChunksLines(chunks[1..]) + (blanks + rest));
      CoreStarts(c, false);
      if c.blanks != [] { assert lines[0] == c.blanks[0]; } else { assert lines[0] == Core(c)[0]; }
    } else if blanks != [] {
      assert lines[0] == blanks[0];
    } else if rest != [] {
      assert lines == rest;
      StarsNotBlank(rest[0]);
    }
  }

  lemma ChunksEnd(blanks: Lines, rest: Lines, n: nat, before: seq<Chunk>, taken: nat)
    requires BlankLines(blanks) && EndsChunks(rest, false)
    ensures ReadingChunks(blanks + rest, n, before, taken) == Ok((before, taken + |blanks|))
  {
    BlanksSkipped(blanks, rest, n, before, taken);
    if rest != [] {
      StarsNotBlank(rest[0]);
      ChunksStep(rest, n + |blanks|, before, taken + |blanks|);
    }
  }

  lemma {:induction false} ChunksParse(chunks: seq<PrintableChunk>, blanks: Lines, rest: Lines, lines: Lines, n: nat,
                                       before: seq<Chunk>, taken: nat, open: bool, all: seq<Chunk>, end: nat)
    requires ChunksFit(chunks, before == [], open) && BlanksFit(blanks, OpenAfter(chunks, open))
    requires EndsChunks(rest, OpenAfter(chunks, open) && blanks == [])
    requires lines == ChunksLines(chunks) + (blanks + rest) && all == before + ChunksOf(chunks)
    requires end == taken + |ChunksLines(chunks)| + |blanks|
    ensures ReadingChunks(lines, n, before, taken) == Ok((all, end))
    decreases |chunks|
  {
    if chunks == [] {
      assert lines == blanks + rest && all == before;
      ChunksEnd(blanks, rest, n, before, taken);
    } else {
      var c, others := chunks[0], chunks[1..];
      var more, next := ChunksLines(others) + (blanks + rest), before + [ChunkOf(c)];
      var size: nat := |ChunkLines(c)|;
      assert lines == ChunkLines(c) + more && end == taken + size + |ChunksLines(others)| + |blanks| by {
        Assoc(ChunkLines(c), ChunksLines(others), blanks + rest);
      }
      assert all == next + ChunksOf(others) by { Assoc(before, [ChunkOf(c)], ChunksOf(others)); }
      var r := ReadingChunks(more, n + size, next, taken + size);
      assert ReadingChunks(lines, n, before, taken) == r by {
        if !c.isEndOfFile { ChunksStop(others, blanks, rest); }
        ChunkNext(c, lines, more, n, before, taken, open);
      }
      assert r == Ok((all, end)) by {
        ChunksParse(others, blanks, rest, more, n + size, next, taken + size, !c.isEndOfFile, all, end);
      }
    }
  }

  // ---------- hunks ----------

  lemma {:induction false} PlusLinesParse(lines: seq<string>, rest: Lines)
    requires rest == [] || !("+" <= rest[0])
    ensures AddedLines(PlusLines(lines) + rest) == (Render(lines), |lines|) && |PlusLines(lines)| == |lines|
  {
    var all := PlusLines(lines) + rest;
    if lines == [] {
      assert all == rest;
    } else {
      assert all[0] == "+" + lines[0] && all[0][1..] == lines[0];
      assert all[1..] == PlusLines(lines[1..]) + rest;
      PlusLinesParse(lines[1..], rest);
    }
  }

  /** A header has a path, and only its own prefix fits it. */
  lemma HeaderParses(prefix: string, path: string, line: string)
    requires prefix in {ADD_FILE, DELETE_FILE, UPDATE_FILE} && line == prefix + path
    ensures StripPrefix(line, prefix) == Some(path)
    ensures (ADD_FILE <= line <==> prefix == ADD_FILE) && (DELETE_FILE <= line <==> prefix == DELETE_FILE)
      && (UPDATE_FILE <= line <==> prefix == UPDATE_FILE)
  {
    assert line[..|prefix|] == prefix && line[|prefix|..] == path;
    assert line[4] == prefix[4];
    assert ADD_FILE[4] == 'A' && DELETE_FILE[4] == 'D' && UPDATE_FILE[4] == 'U';
  }

  /** A header is neither an added line nor the end of a file. */
  lemma HeaderShape(header: string, prefix: string, path: string)
    requires prefix in {ADD_FILE, DELETE_FILE, UPDATE_FILE} && Trim(header) == prefix + path
    ensures header != "" && !("+" <= header) && header != EOF_MARKER
  {
    var before, after := TrimExactly(header);
    assert (prefix + path)[0] == '*' && EOF_MARKER[4] == 'E' && (prefix + path)[4] == prefix[4];
    assert ADD_FILE[4] == 'A' && DELETE_FILE[4] == 'D' && UPDATE_FILE[4] == 'U';
    assert EOF_MARKER[|EOF_MARKER| - 1] == 'e';
    TrimFixed(EOF_MARKER);
    if before != "" { assert header[0] == before[0] && before[0] in before; } else { assert header[0] == '*'; }
  }

  lemma UpdateFirst(all: Lines, n: nat, path: string, move: Option<string>, body: Lines, chunks: seq<Chunk>, taken: nat)
    requires all != [] && StripPrefix(Trim(all[0]), UPDATE_FILE) == Some(path) && chunks != []
    requires move == if |all| > 1 then StripPrefix(all[1], MOVE_TO) else None
    requires var header := if move.Some? then 2 else 1;
      all[header..] == body && ReadingChunks(body, n + header, [], header) == Ok((chunks, taken))
    ensures UpdateHunk(all, n, path) == Ok((UpdateFile(path, move, chunks), taken))
  {
  }

  lemma MoveParses(header: string, move: Option<string>, body: Lines)
    requires body != [] && !(MOVE_TO <= body[0])
    ensures var all := [header] + MoveLines(move) + body;
      && move == (if |all| > 1 then StripPrefix(all[1], MOVE_TO) else None)
      && all[if move.Some? then 2 else 1..] == body
  {
    if move.Some? { assert (MOVE_TO + move.value)[|MOVE_TO|..] == move.value; }
  }

  lemma UpdateParses(lines: Lines, header: string, path: string, move: Option<string>, body: Lines, n: nat,
                     chunks: seq<Chunk>, taken: nat)
    requires Trim(header) == UPDATE_FILE + path && lines == [header] + MoveLines(move) + body
    requires chunks != [] && body != [] && !(MOVE_TO <= body[0])
    requires var skipped := if move.Some? then 2 else 1;
      ReadingChunks(body, n + skipped, [], skipped) == Ok((chunks, taken))
    ensures OneHunk(lines, n) == Ok((UpdateFile(path, move, chunks), taken))
  {
    HeaderParses(UPDATE_FILE, path, Trim(header));
    MoveParses(header, move, body);
    UpdateFirst(lines, n, path, move, body, chunks, taken);
  }

  lemma BodyStarts(chunks: seq<PrintableChunk>, more: Lines, body: Lines)
    requires chunks != [] && ChunksFit(chunks, true, false) && body == ChunksLines(chunks) + more
    ensures body != [] && !(MOVE_TO <= body[0])
  {
    var c := chunks[0];
    CoreStarts(c, true);
    if c.blanks != [] {
      assert body[0] == c.blanks[0] && c.blanks[0] in c.blanks;
      if MOVE_TO <= body[0] { StarsNotBlank(body[0]); }
    } else {
      assert body[0] == Core(c)[0];
    }
  }

  lemma UpdatingParses(h: PrintableHunk, rest: Lines, n: nat)
    requires h.Updating? && HunkFits(h) && MayFollow(h, rest)
    ensures OneHunk(HunkLines(h) + rest, n) == Ok((HunkOf(h), |HunkLines(h)|))
  {
    var lines, taken := HunkLines(h) + rest, |HunkLines(h)|;
    var body, skipped: nat := ChunksLines(h.chunks) + (h.blanks + rest), if h.movePath.Some? then 2 else 1;
    assert lines == [h.header] + MoveLines(h.movePath) + body
        && taken == skipped + |ChunksLines(h.chunks)| + |h.blanks| by {
      Assoc([h.header] + MoveLines(h.movePath), ChunksLines(h.chunks) + h.blanks, rest);
      Assoc(ChunksLines(h.chunks), h.blanks, rest);
    }
    BodyStarts(h.chunks, h.blanks + rest, body);
    assert [] + ChunksOf(h.chunks) == ChunksOf(h.chunks);
    ChunksParse(h.chunks, h.blanks, rest, body, n + skipped, [], skipped, false, ChunksOf(h.chunks), taken);
    UpdateParses(lines, h.header, h.path, h.movePath, body, n, ChunksOf(h.chunks), taken);
  }

  /** The next hunk of these lines is this one, and takes exactly the first of them. */
  predicate ParsesTo(first: Lines, rest: Lines, n: nat, hunk: Hunk) {
    first != [] && OneHunk(first + rest, n) == Ok((hunk, |first|))
  }

  lemma {:induction false} AddParses(h: PrintableHunk, rest: Lines, n: nat)
    requires h.Adding? && HunkFits(h) && (rest == [] || !("+" <= rest[0]))
    ensures OneHunk(HunkLines(h) + rest, n) == Ok((HunkOf(h), |HunkLines(h)|))
  {
    var all, plus := HunkLines(h) + rest, PlusLines(h.lines);
    assert all[1..] == plus + rest && all[0] == h.header;
    PlusLinesParse(h.lines, rest);
    AddHunkParses(all, n, h.path, all[1..], Render(h.lines), |h.lines|);
  }

  lemma {:induction false} AddHunkParses(lines: Lines, n: nat, path: string, body: Lines, contents: string, count: nat)
    requires lines != [] && Trim(lines[0]) == ADD_FILE + path && body == lines[1..]
    requires AddedLines(body) == (contents, count)
    ensures OneHunk(lines, n) == Ok((AddFile(path, contents), 1 + count))
  {
    HeaderParses(ADD_FILE, path, Trim(lines[0]));
  }

  lemma DeleteHunkParses(lines: Lines, n: nat, path: string)
    requires lines != [] && Trim(lines[0]) == DELETE_FILE + path
    ensures OneHunk(lines, n) == Ok((DeleteFile(path), 1))
  {
    HeaderParses(DELETE_FILE, path, Trim(lines[0]));
  }

  /** What may follow a hunk. */
  predicate MayFollow(h: PrintableHunk, rest: Lines) {
    match h
    case Adding(_, _, _) => rest == [] || !("+" <= rest[0])
    case Deleting(_, _) => true
    case Updating(_, _, _, chunks, blanks) => EndsChunks(rest, OpenAfter(chunks, false) && blanks == [])
  }

  lemma HunkParses(h: PrintableHunk, rest: Lines, n: nat)
    requires HunkFits(h) && MayFollow(h, rest)
    ensures ParsesTo(HunkLines(h), rest, n, HunkOf(h))
  {
    match h
    case Adding(_, _, _) => AddParses(h, rest, n);
    case Deleting(header, path) => DeleteHunkParses([header] + rest, n, path);
    case Updating(_, _, _, _, _) => UpdatingParses(h, rest, n);
  }

  lemma HeaderOf(h: PrintableHunk)
    requires HunkFits(h)
    ensures HunkLines(h) != [] && HunkLines(h)[0] == h.header
    ensures h.header != "" && !("+" <= h.header) && h.header != EOF_MARKER
  {
    match h
    case Adding(header, path, _) => HeaderShape(header, ADD_FILE, path);
    case Deleting(header, path) => HeaderShape(header, DELETE_FILE, path);
    case Updating(header, path, _, _, _) => HeaderShape(header, UPDATE_FILE, path);
  }

  lemma HunksFollow(hunks: seq<PrintableHunk>)
    requires hunks != [] && HunksFit(hunks)
    ensures MayFollow(hunks[0], HunksLines(hunks[1..]))
  {
    if |hunks| > 1 {
      HeaderOf(hunks[1]);
      assert hunks[1..][0] == hunks[1];
      assert HunksLines(hunks[1..])[0] == HunkLines(hunks[1])[0];
    }
  }

  /** The hunks read from these lines. */
  function Reading(lines: Lines, n: nat, before: seq<Hunk>): Result<seq<Hunk>, ParseError> { Hunks(lines, n, before) }

  /** One hunk parsed, then the rest. */
  lemma {:induction false} HunkFirst(first: Lines, rest: Lines, n: nat, before: seq<Hunk>, hunk: Hunk)
    requires ParsesTo(first, rest, n, hunk)
    ensures Reading(first + rest, n, before) == Reading(rest, n + |first|, before + [hunk])
  {
    var lines, taken := first + rest, |first|;
    assert lines != [] && lines[taken..] == rest by { SliceAfter(first, rest); }
    HunkRead(lines, n, before, hunk, taken);
  }

  lemma {:induction false} HunkRead(lines: Lines, n: nat, before: seq<Hunk>, hunk: Hunk, taken: nat)
    requires lines != [] && OneHunk(lines, n) == Ok((hunk, taken))
    ensures Hunks(lines, n, before) == Hunks(lines[taken..], n + taken, before + [hunk])
  {
  }

  /** Printed hunks are parsed back, in order. */
  lemma {:induction false} HunksParse(hunks: seq<PrintableHunk>, lines: Lines, n: nat, before: seq<Hunk>)
    requires HunksFit(hunks) && lines == HunksLines(hunks)
    ensures Reading(lines, n, before) == Ok(before + HunksOf(hunks))
    decreases |hunks|
  {
    if hunks == [] {
      assert lines == [] && before + HunksOf(hunks) == before;
    } else {
      var h, others := hunks[0], hunks[1..];
      var first, rest, next := HunkLines(h), HunksLines(others), before + [HunkOf(h)];
      assert lines == first + rest && HunksOf(hunks) == [HunkOf(h)] + HunksOf(others);
      assert Reading(lines, n, before) == Reading(rest, n + |first|, next) by {
        HunksFollow(hunks);
        HunkParses(h, rest, n);
        HunkFirst(first, rest, n, before, HunkOf(h));
      }
      HunksParse(others, rest, n + |first|, next);
      Assoc(before, [HunkOf(h)], HunksOf(others));
    }
  }
}
