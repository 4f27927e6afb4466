/** Strings as the patch code handles them: trimming, lines, prefixes. */
module Text {
  import opened Wrappers

  /** The characters with the Unicode property White_Space. */
  predicate IsSpace(c: char) {
    c == ' ' || '\t' <= c <= '\r' || c == '\U{85}' || c == '\U{A0}' || c == '\U{1680}'
    || '\U{2000}' <= c <= '\U{200A}' || c == '\U{2028}' || c == '\U{2029}' || c == '\U{202F}'
    || c == '\U{205F}' || c == '\U{3000}'
  }

  function TrimStart(s: string): string {
    if s != [] && IsSpace(s[0]) then TrimStart(s[1..]) else s
  }

  function TrimEnd(s: string): string {
    if s != [] && IsSpace(s[|s|-1]) then TrimEnd(s[..|s|-1]) else s
  }

  function Trim(s: string): string { TrimStart(TrimEnd(s)) }

  function StripPrefix(s: string, prefix: string): Option<string> {
    if prefix <= s then Some(s[|prefix|..]) else None
  }

  predicate EndsWith(s: string, suffix: string) {
    |suffix| <= |s| && s[|s|-|suffix|..] == suffix
  }

  /** The pieces between newlines; always at least one. */
  function Split(s: string): (parts: seq<string>)
    ensures |parts| >= 1
  {
    if s == [] then [""]
    else if s[0] == '\n' then [""] + Split(s[1..])
    else var rest := Split(s[1..]); [[s[0]] + rest[0]] + rest[1..]
  }

  function Join(lines: seq<string>): string {
    if lines == [] then "" else if |lines| == 1 then lines[0] else lines[0] + "\n" + Join(lines[1..])
  }

  /** Each line followed by a newline. */
  function Render(lines: seq<string>): string {
    if lines == [] then "" else lines[0] + "\n" + Render(lines[1..])
  }

  function WithoutCr(line: string): string {
    if line != [] && line[|line|-1] == '\r' then line[..|line|-1] else line
  }

  /** Lines that end in LF or CR LF; the ending of the last one is optional. */
  function LinesOf(parts: seq<string>): seq<string>
    requires parts != []
  {
    if |parts| == 1 then (if parts[0] == "" then [] else parts)
    else [WithoutCr(parts[0])] + LinesOf(parts[1..])
  }

  function TextLines(s: string): seq<string> { LinesOf(Split(s)) }

  // ---------- laws ----------

  /** A line a text can hold: no newline in it, and no carriage return at its end. */
  predicate Plain(line: string) { '\n' !in line && WithoutCr(line) == line }

  lemma {:induction false} SplitLine(line: string, rest: string)
    requires '\n' !in line
    ensures Split(line) == [line]
    ensures Split(line + "\n" + rest) == [line] + Split(rest)
  {
    var s := line + "\n" + rest;
    if line == [] {
      assert s[0] == '\n' && s[1..] == rest;
    } else {
      assert line[0] != '\n' && '\n' !in line[1..];
      SplitLine(line[1..], rest);
      assert s[1..] == line[1..] + "\n" + rest;
      assert [line[0]] + line[1..] == line;
      assert ([line[1..]] + Split(rest))[1..] == Split(rest);
    }
  }

  /** Splitting undoes joining. */
  lemma {:induction false} SplitJoin(lines: seq<string>)
    requires lines != [] && forall line :: line in lines ==> '\n' !in line
    ensures Split(Join(lines)) == lines
  {
    assert lines[0] in lines;
    if |lines| == 1 {
      SplitLine(lines[0], "");
    } else {
      SplitJoin(lines[1..]);
      SplitLine(lines[0], Join(lines[1..]));
    }
  }

  /** Joining undoes splitting. */
  lemma {:induction false} JoinOfSplit(s: string)
    ensures Join(Split(s)) == s
  {
    if s != [] {
      var rest := Split(s[1..]);
      JoinOfSplit(s[1..]);
      if s[0] == '\n' {
        assert ([""] + rest)[1..] == rest;
      } else if |rest| > 1 {
        assert ([[s[0]] + rest[0]] + rest[1..])[1..] == rest[1..];
      }
    }
  }

  lemma {:induction false} SplitRender(lines: seq<string>)
    requires forall line :: line in lines ==> '\n' !in line
    ensures Split(Render(lines)) == lines + [""]
  {
    if lines != [] {
      assert lines[0] in lines;
      SplitRender(lines[1..]);
      SplitLine(lines[0], Render(lines[1..]));
    }
  }

  lemma {:induction false} LinesOfPlain(lines: seq<string>)
    requires lines != [] && lines[|lines|-1] != "" && forall line :: line in lines ==> Plain(line)
    ensures LinesOf(lines) == lines
  {
    assert lines[0] in lines;
    if |lines| > 1 { LinesOfPlain(lines[1..]); }
  }

  /** Reading the lines of a joined text gives them back, if the last one is not empty. */
  lemma LinesJoin(lines: seq<string>)
    requires lines != [] && lines[|lines|-1] != "" && forall line :: line in lines ==> Plain(line)
    ensures TextLines(Join(lines)) == lines
  {
    SplitJoin(lines);
    LinesOfPlain(lines);
  }

  lemma TrimFixed(s: string)
    requires s != [] && !IsSpace(s[0]) && !IsSpace(s[|s|-1])
    ensures Trim(s) == s
  {
  }

  lemma {:induction false} TrimEndBlanks(s: string, blanks: string)
    requires forall c :: c in blanks ==> IsSpace(c)
    ensures TrimEnd(s + blanks) == TrimEnd(s)
    decreases |blanks|
  {
    if blanks == [] {
      assert s + blanks == s;
    } else {
      var last := |blanks| - 1;
      assert (s + blanks)[..|s + blanks| - 1] == s + blanks[..last];
      TrimEndBlanks(s, blanks[..last]);
    }
  }

  /** A text of white space alone. */
  predicate Blank(s: string) { forall c :: c in s ==> IsSpace(c) }

  lemma {:induction false} TrimStartExactly(s: string) returns (blanks: string)
    ensures s == blanks + TrimStart(s) && Blank(blanks)
    ensures TrimStart(s) != "" ==> !IsSpace(TrimStart(s)[0])
  {
    if s != [] && IsSpace(s[0]) {
      var rest := TrimStartExactly(s[1..]);
      blanks := [s[0]] + rest;
    } else {
      blanks := "";
    }
  }

  lemma {:induction false} TrimEndExactly(s: string) returns (blanks: string)
    ensures s == TrimEnd(s) + blanks && Blank(blanks)
    ensures TrimEnd(s) != "" ==> !IsSpace(TrimEnd(s)[|TrimEnd(s)| - 1])
  {
    if s != [] && IsSpace(s[|s|-1]) {
      var rest := TrimEndExactly(s[..|s|-1]);
      blanks := rest + [s[|s|-1]];
    } else {
      blanks := "";
    }
  }

  /** Trimming takes white space from both ends, and all of it. */
  lemma TrimExactly(s: string) returns (before: string, after: string)
    ensures s == before + Trim(s) + after && Blank(before) && Blank(after)
    ensures Trim(s) != "" ==> !IsSpace(Trim(s)[0]) && !IsSpace(Trim(s)[|Trim(s)| - 1])
  {
    after := TrimEndExactly(s);
    before := TrimStartExactly(TrimEnd(s));
  }

  /** Nothing is left exactly of a blank text. */
  lemma TrimmedAway(s: string)
    ensures Trim(s) == "" <==> Blank(s)
  {
    var before, after := TrimExactly(s);
    if Trim(s) != "" { assert Trim(s)[0] in s; }
  }
}
