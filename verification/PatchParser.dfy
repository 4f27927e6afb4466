/** Parsing a patch into hunks. */
module PatchParser {
  import opened Wrappers
  import opened Text

  const BEGIN_PATCH := "*** Begin Patch"
  const END_PATCH := "*** End Patch"
  const ADD_FILE := "*** Add File: "
  const DELETE_FILE := "*** Delete File: "
  const UPDATE_FILE := "*** Update File: "
  const MOVE_TO := "*** Move to: "
  const EOF_MARKER := "*** End of File"
  const CHANGE_CONTEXT := "@@ "
  const EMPTY_CONTEXT := "@@"

  datatype Chunk = Chunk(context: Option<string>, oldLines: seq<string>, newLines: seq<string>, isEndOfFile: bool)

  datatype Hunk =
    | AddFile(path: string, contents: string)
    | DeleteFile(path: string)
    | UpdateFile(path: string, movePath: Option<string>, chunks: seq<Chunk>)

  datatype Problem =
    | EmptyUpdate(path: string) | NotAHeader(line: string) | NoLines
    | ExpectedContext(line: string) | UnexpectedLine(line: string)

  datatype ParseError = BadFirstLine | BadLastLine | InvalidHunk(problem: Problem, lineNumber: nat)

  datatype ParsedPatch = ParsedPatch(hunks: seq<Hunk>, patch: string)

  type Lines = seq<string>

  // ---------- the boundaries ----------

  function CheckBoundaries(lines: Lines): Option<ParseError> {
    var first := if lines == [] then None else Some(Trim(lines[0]));
    var last := if lines == [] then None else Some(Trim(lines[|lines|-1]));
    if first == Some(BEGIN_PATCH) && last == Some(END_PATCH) then None
    else if first.Some? && first.value != BEGIN_PATCH then Some(BadFirstLine)
    else Some(BadLastLine)
  }

  predicate OpensHeredoc(line: string) { line == "<<EOF" || line == "<<'EOF'" || line == "<<\"EOF\"" }

  function StripHeredoc(lines: Lines, original: ParseError): Result<Lines, ParseError> {
    if |lines| >= 4 && OpensHeredoc(lines[0]) && EndsWith(lines[|lines|-1], "EOF") then
      var inner := lines[1..|lines|-1];
      match CheckBoundaries(inner)
      case None => Ok(inner)
      case Some(e) => Err(e)
    else Err(original)
  }

  /** The lines from the first marker to the last, without the shell's wrapping. */
  function PatchLines(lines: Lines): (r: Result<Lines, ParseError>)
    ensures r.Ok? ==> |r.value| >= 2
  {
    match CheckBoundaries(lines)
    case None => Ok(lines)
    case Some(e) => StripHeredoc(lines, e)
  }

  // ---------- chunks ----------

  /** The marker a chunk starts with: its context and whether there is one. */
  function Marker(line: string): Option<Option<string>> {
    if line == EMPTY_CONTEXT then Some(None)
    else match StripPrefix(line, CHANGE_CONTEXT)
      case Some(context) => Some(Some(context))
      case None => None
  }

  function WithLine(chunk: Chunk, line: string): Option<Chunk> {
    if line == "" then Some(chunk.(oldLines := chunk.oldLines + [""], newLines := chunk.newLines + [""]))
    else if line[0] == ' ' then
      Some(chunk.(oldLines := chunk.oldLines + [line[1..]], newLines := chunk.newLines + [line[1..]]))
    else if line[0] == '+' then Some(chunk.(newLines := chunk.newLines + [line[1..]]))
    else if line[0] == '-' then Some(chunk.(oldLines := chunk.oldLines + [line[1..]]))
    else None
  }

  /** The change lines of a chunk: the chunk and how many lines it took. */
  function ChunkBody(lines: Lines, n: nat, chunk: Chunk, parsed: nat): (r: Result<(Chunk, nat), ParseError>)
    ensures r.Ok? ==> parsed <= r.value.1 <= parsed + |lines| && (lines != [] ==> r.value.1 > 0)
  {
    if lines == [] then Ok((chunk, parsed))
    else if lines[0] == EOF_MARKER then
      if parsed == 0 then Err(InvalidHunk(NoLines, n + 1)) else Ok((chunk.(isEndOfFile := true), parsed + 1))
    else match WithLine(chunk, lines[0])
      case Some(next) => ChunkBody(lines[1..], n, next, parsed + 1)
      case None => if parsed == 0 then Err(InvalidHunk(UnexpectedLine(lines[0]), n + 1)) else Ok((chunk, parsed))
  }

  function OneChunk(lines: Lines, n: nat, allowMissingContext: bool): (r: Result<(Chunk, nat), ParseError>)
    requires lines != []
    ensures r.Ok? ==> 1 <= r.value.1 <= |lines|
  {
    var marker := Marker(lines[0]);
    if marker == None && !allowMissingContext then Err(InvalidHunk(ExpectedContext(lines[0]), n))
    else
      var start := if marker.Some? then 1 else 0;
      if start >= |lines| then Err(InvalidHunk(NoLines, n + 1))
      else match ChunkBody(lines[start..], n, Chunk(marker.GetOr(None), [], [], false), 0)
        case Ok((chunk, parsed)) => Ok((chunk, parsed + start))
        case Err(e) => Err(e)
  }

  /** The chunks of an update hunk after those before, and the number of lines they all took. */
  function Chunks(lines: Lines, n: nat, before: seq<Chunk>, taken: nat): (r: Result<(seq<Chunk>, nat), ParseError>)
    ensures r.Ok? ==> taken <= r.value.1 <= taken + |lines|
    decreases |lines|
  {
    if lines == [] then Ok((before, taken))
    else if Trim(lines[0]) == "" then Chunks(lines[1..], n + 1, before, taken + 1)
    else if "***" <= lines[0] then Ok((before, taken))
    else match OneChunk(lines, n, before == [])
      case Err(e) => Err(e)
      case Ok((chunk, count)) => Chunks(lines[count..], n + count, before + [chunk], taken + count)
  }

  // ---------- hunks ----------

  function AddedLines(lines: Lines): (r: (string, nat))
    ensures r.1 <= |lines|
  {
    if lines == [] then ("", 0)
    else match StripPrefix(lines[0], "+")
      case Some(line) => var rest := AddedLines(lines[1..]); (line + "\n" + rest.0, rest.1 + 1)
      case None => ("", 0)
  }

  function UpdateHunk(lines: Lines, n: nat, path: string): (r: Result<(Hunk, nat), ParseError>)
    requires lines != [] && StripPrefix(Trim(lines[0]), UPDATE_FILE) == Some(path)
    ensures r.Ok? ==> 1 <= r.value.1 <= |lines|
  {
    var move := if |lines| > 1 then StripPrefix(lines[1], MOVE_TO) else None;
    var header := if move.Some? then 2 else 1;
    match Chunks(lines[header..], n + header, [], header)
    case Err(e) => Err(e)
    case Ok((chunks, taken)) =>
      if chunks == [] then Err(InvalidHunk(EmptyUpdate(path), n))
      else Ok((UpdateFile(path, move, chunks), taken))
  }

  function OneHunk(lines: Lines, n: nat): (r: Result<(Hunk, nat), ParseError>)
    requires lines != []
    ensures r.Ok? ==> 1 <= r.value.1 <= |lines|
  {
    var first := Trim(lines[0]);
    var add, delete, update :=
      StripPrefix(first, ADD_FILE), StripPrefix(first, DELETE_FILE), StripPrefix(first, UPDATE_FILE);
    if add.Some? then
      var added := AddedLines(lines[1..]);
      Ok((AddFile(add.value, added.0), 1 + added.1))
    else if delete.Some? then Ok((DeleteFile(delete.value), 1))
    else if update.Some? then UpdateHunk(lines, n, update.value)
    else Err(InvalidHunk(NotAHeader(first), n))
  }

  /** The hunks of the body after those before; every line belongs to exactly one of them. */
  function Hunks(lines: Lines, n: nat, before: seq<Hunk>): Result<seq<Hunk>, ParseError>
    decreases |lines|
  {
    if lines == [] then Ok(before)
    else match OneHunk(lines, n)
      case Err(e) => Err(e)
      case Ok((hunk, taken)) => Hunks(lines[taken..], n + taken, before + [hunk])
  }

  function ParseLines(lines: Lines): Result<ParsedPatch, ParseError> {
    match PatchLines(lines)
    case Err(e) => Err(e)
    case Ok(patch) =>
      match Hunks(patch[1..|patch|-1], 2, [])
      case Err(e) => Err(e)
      case Ok(hunks) => Ok(ParsedPatch(hunks, Join(patch)))
  }

  function Parse(text: string): Result<ParsedPatch, ParseError> { ParseLines(TextLines(Trim(text))) }

  // ---------- the loops ----------

  method ParseUpdateFileChunk(lines: Lines, n: nat, allowMissingContext: bool)
    returns (r: Result<(Chunk, nat), ParseError>)
    requires lines != []
    ensures r == OneChunk(lines, n, allowMissingContext)
  {
    var marker := Marker(lines[0]);
    if marker == None && !allowMissingContext {
      return Err(InvalidHunk(ExpectedContext(lines[0]), n));
    }
    var start := if marker.Some? then 1 else 0;
    if start >= |lines| {
      return Err(InvalidHunk(NoLines, n + 1));
    }
    var chunk, parsed, i := Chunk(marker.GetOr(None), [], [], false), 0, start;
    ghost var whole := ChunkBody(lines[start..], n, chunk, 0);
    while i < |lines|
      invariant start <= i <= |lines| && parsed == i - start
      invariant ChunkBody(lines[i..], n, chunk, parsed) == whole
    {
      var line := lines[i];
      assert lines[i..][0] == line && lines[i..][1..] == lines[i+1..];
      if line == EOF_MARKER {
        if parsed == 0 {
          return Err(InvalidHunk(NoLines, n + 1));
        }
        return Ok((chunk.(isEndOfFile := true), parsed + 1 + start));
      }
      if line == "" {
        chunk := chunk.(oldLines := chunk.oldLines + [""], newLines := chunk.newLines + [""]);
      } else if line[0] == ' ' {
        chunk := chunk.(oldLines := chunk.oldLines + [line[1..]], newLines := chunk.newLines + [line[1..]]);
      } else if line[0] == '+' {
        chunk := chunk.(newLines := chunk.newLines + [line[1..]]);
      } else if line[0] == '-' {
        chunk := chunk.(oldLines := chunk.oldLines + [line[1..]]);
      } else {
        if parsed == 0 {
          return Err(InvalidHunk(UnexpectedLine(line), n + 1));
        }
        return Ok((chunk, parsed + start));
      }
      parsed, i := parsed + 1, i + 1;
    }
    return Ok((chunk, parsed + start));
  }

  lemma ChunksStep(lines: Lines, n: nat, before: seq<Chunk>, taken: nat)
    requires lines != []
    ensures Trim(lines[0]) == "" ==> Chunks(lines, n, before, taken) == Chunks(lines[1..], n + 1, before, taken + 1)
    ensures Trim(lines[0]) != "" && "***" <= lines[0] ==> Chunks(lines, n, before, taken) == Ok((before, taken))
    ensures Trim(lines[0]) != "" && !("***" <= lines[0]) ==>
      Chunks(lines, n, before, taken) == match OneChunk(lines, n, before == [])
        case Err(e) => Err(e)
        case Ok((chunk, count)) => Chunks(lines[count..], n + count, before + [chunk], taken + count)
  {
  }

  method ParseChunks(lines: Lines, n: nat, header: nat) returns (r: Result<(seq<Chunk>, nat), ParseError>)
    ensures r == Chunks(lines, n, [], header)
  {
    var chunks: seq<Chunk>, taken: nat, lineNumber: nat, rest := [], header, n, lines;
    ghost var goal := Chunks(lines, n, [], header);
    while rest != []
      invariant Chunks(rest, lineNumber, chunks, taken) == goal
      decreases |rest|
    {
      ChunksStep(rest, lineNumber, chunks, taken);
      if Trim(rest[0]) == "" {
        taken, lineNumber, rest := taken + 1, lineNumber + 1, rest[1..];
      } else if "***" <= rest[0] {
        break;
      } else {
        var next := ParseUpdateFileChunk(rest, lineNumber, chunks == []);
        if next.Err? {
          return Err(next.error);
        }
        var chunk, count := next.value.0, next.value.1;
        chunks, taken, lineNumber, rest := chunks + [chunk], taken + count, lineNumber + count, rest[count..];
      }
    }
    return Ok((chunks, taken));
  }

  method ParseAddedLines(lines: Lines) returns (contents: string, count: nat)
    ensures (contents, count) == AddedLines(lines)
  {
    contents, count := "", 0;
    assert lines[0..] == lines;
    while count < |lines| && "+" <= lines[count]
      invariant count <= |lines|
      invariant contents + AddedLines(lines[count..]).0 == AddedLines(lines).0
      invariant count + AddedLines(lines[count..]).1 == AddedLines(lines).1
    {
      assert lines[count..][1..] == lines[count+1..];
      Assoc(contents, lines[count][1..] + "\n", AddedLines(lines[count+1..]).0);
      contents, count := contents + (lines[count][1..] + "\n"), count + 1;
    }
    assert contents + "" == contents;
  }

  method ParseOneHunk(lines: Lines, n: nat) returns (r: Result<(Hunk, nat), ParseError>)
    requires lines != []
    ensures r == OneHunk(lines, n)
  {
    var first := Trim(lines[0]);
    if ADD_FILE <= first {
      var contents, count := ParseAddedLines(lines[1..]);
      return Ok((AddFile(first[|ADD_FILE|..], contents), 1 + count));
    } else if DELETE_FILE <= first {
      return Ok((DeleteFile(first[|DELETE_FILE|..]), 1));
    } else if UPDATE_FILE <= first {
      var path := first[|UPDATE_FILE|..];
      var move := if |lines| > 1 then StripPrefix(lines[1], MOVE_TO) else None;
      var header := if move.Some? then 2 else 1;
      var chunks := ParseChunks(lines[header..], n + header, header);
      match chunks {
        case Err(e) =>
          return Err(e);
        case Ok((found, taken)) =>
          if found == [] {
            return Err(InvalidHunk(EmptyUpdate(path), n));
          }
          return Ok((UpdateFile(path, move, found), taken));
      }
    }
    return Err(InvalidHunk(NotAHeader(first), n));
  }

  method ParseHunks(body: Lines, n: nat) returns (r: Result<seq<Hunk>, ParseError>)
    ensures r == Hunks(body, n, [])
  {
    var hunks, lineNumber, rest := [], n, body;
    while rest != []
      invariant Hunks(rest, lineNumber, hunks) == Hunks(body, n, [])
      decreases |rest|
    {
      var next := ParseOneHunk(rest, lineNumber);
      if next.Err? {
        return Err(next.error);
      }
      var hunk, count := next.value.0, next.value.1;
      hunks, lineNumber, rest := hunks + [hunk], lineNumber + count, rest[count..];
    }
    return Ok(hunks);
  }

  method ParsePatchText(text: string) returns (r: Result<ParsedPatch, ParseError>)
    ensures r == Parse(text)
  {
    var found := PatchLines(TextLines(Trim(text)));
    if found.Err? {
      return Err(found.error);
    }
    var lines := found.value;
    var hunks := ParseHunks(lines[1..|lines|-1], 2);
    match hunks {
      case Err(e) =>
        return Err(e);
      case Ok(parsed) =>
        return Ok(ParsedPatch(parsed, Join(lines)));
    }
  }
}
