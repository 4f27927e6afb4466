/** Edit scripts carried out to the letter: replaced blocks, lines added at the end of the file, and blocks
    whose trailing blank line the file does not have. */
module PatchScripts {
  import opened Wrappers
  import opened Text
  import opened PatchParser
  import opened PatchApply
  import opened PatchApplyProofs

  // ---------- edit scripts ----------

  /** A trailing blank line that the chunk has and the file has not: in its old lines, or in both. */
  datatype Excess = Nothing | InOld | InBoth

  /** One edit: lines kept, a context line if the chunk names one, more lines kept, and then the old
      block that becomes the new one. An edit without an old block adds its lines at the end of the file. */
  datatype Edit = Edit(gap: Lines, context: Option<string>, lead: Lines, was: Lines, now: Lines, eof: bool,
                       excess: Excess)

  function ContextLines(context: Option<string>): Lines { if context.Some? then [context.value] else [] }

  function Kept(e: Edit): Lines { e.gap + ContextLines(e.context) + e.lead }

  predicate Adds(e: Edit) { e.was == [] && e.excess.Nothing? }

  /** The file a script starts from; `tail` is what follows its edits. */
  function Source(script: seq<Edit>, tail: Lines): Lines {
    if script == [] then tail else Kept(script[0]) + script[0].was + Source(script[1..], tail)
  }

  /** The same with the blocks replaced. */
  function Body(script: seq<Edit>, tail: Lines): Lines {
    if script == [] then tail
    else Kept(script[0]) + (if Adds(script[0]) then [] else script[0].now) + Body(script[1..], tail)
  }

  /** The lines added, in order. */
  function Added(script: seq<Edit>): Lines {
    if script == [] then [] else (if Adds(script[0]) then script[0].now else []) + Added(script[1..])
  }

  predicate AddsAny(script: seq<Edit>) { exists e :: e in script && Adds(e) }

  /** What stands before the lines added, and what behind: a blank last line stays the last. */
  function Before(script: seq<Edit>, tail: Lines): Lines {
    if AddsAny(script) && EndsBlank(tail) then Front(tail) else tail
  }

  function Behind(script: seq<Edit>, tail: Lines): Lines {
    if AddsAny(script) && EndsBlank(tail) then [""] else []
  }

  /** The file the script is meant to give. */
  function Target(script: seq<Edit>, tail: Lines): Lines {
    Body(script, Before(script, tail)) + Added(script) + Behind(script, tail)
  }

  function ChunkOf(e: Edit): Chunk {
    Chunk(e.context, e.was + (if e.excess.Nothing? then [] else [""]), e.now + (if e.excess.InBoth? then [""] else []),
          e.eof)
  }

  function ChunksFor(script: seq<Edit>): seq<Chunk> {
    if script == [] then [] else [ChunkOf(script[0])] + ChunksFor(script[1..])
  }

  /** The block occurs in these lines, exactly, first at position k. */
  predicate FirstAt(lines: Lines, block: Lines, k: nat) {
    MatchAt(Exact, lines, block, k) && forall i :: 0 <= i < k ==> !MatchAt(Exact, lines, block, i)
  }

  /** The block occurs nowhere in these lines, however loosely they are compared. */
  ghost predicate Nowhere(lines: Lines, block: Lines) {
    forall i: nat :: !MatchAt(Punctuation, lines, block, i)
  }

  /** The context line and the old block first occur, behind the edit before it, where the script
      has them; an end-of-file block is the end of the file. */
  ghost predicate EditFits(e: Edit, rest: Lines) {
    && (e.context == None ==> e.gap == [])
    && (e.context.Some? ==> FirstAt(Kept(e) + e.was + rest, [e.context.value], |e.gap|))
    && if Adds(e) then e.lead == []
       else
         && e.was != [] && (e.excess.InOld? ==> !EndsBlank(e.now))
         && (if e.eof then rest == [] else FirstAt(e.lead + e.was + rest, e.was, |e.lead|))
         && (!e.excess.Nothing? ==> !e.eof && Nowhere(e.lead + e.was + rest, e.was + [""]))
  }

  ghost predicate Unambiguous(script: seq<Edit>, tail: Lines) {
    script == [] || (EditFits(script[0], Source(script[1..], tail)) && Unambiguous(script[1..], tail))
  }

  /** Lines are not added before a blank last line that an edit has replaced or passed. */
  predicate RoomAtEnd(script: seq<Edit>, tail: Lines) {
    AddsAny(script) ==> tail != [] || !EndsBlank(Source(script, tail))
  }

  // ---------- where the edits are found ----------

  lemma {:induction false} FirstMatchFrom(lines: Lines, block: Lines, from: nat, at: nat)
    requires from <= at && MatchAt(Exact, lines, block, at)
    requires forall i :: from <= i < at ==> !MatchAt(Exact, lines, block, i)
    ensures FirstMatch(Exact, lines, block, from) == Some(at)
    decreases at - from
  {
    if from < at { FirstMatchFrom(lines, block, from + 1, at); }
  }

  lemma MatchShifted(done: Lines, lines: Lines, block: Lines, i: nat)
    ensures MatchAt(Exact, done + lines, block, |done| + i) <==> MatchAt(Exact, lines, block, i)
  {
    if i + |block| <= |lines| {
      assert (done + lines)[|done| + i..|done| + i + |block|] == lines[i..i + |block|];
    }
  }

  predicate SeeksTo(lines: Lines, pattern: Lines, cursor: nat, eof: bool, at: nat) {
    Seek(lines, pattern, cursor, eof) == Some(at)
  }

  /** A block whose first exact occurrence behind `done` is known is found there. */
  lemma SeekFirst(done: Lines, lines: Lines, block: Lines, k: nat)
    requires block != [] && FirstAt(lines, block, k)
    ensures SeeksTo(done + lines, block, |done|, false, |done| + k)
  {
    MatchShifted(done, lines, block, k);
    forall i | |done| <= i < |done| + k ensures !MatchAt(Exact, done + lines, block, i) {
      MatchShifted(done, lines, block, i - |done|);
    }
    FirstMatchFrom(done + lines, block, |done|, |done| + k);
  }

  /** A block at the end of the file is found there. */
  lemma SeekAtEnd(lines: Lines, before: Lines, block: Lines, cursor: nat)
    requires block != [] && lines == before + block
    ensures SeeksTo(lines, block, cursor, true, |before|)
  {
    assert MatchAt(Exact, lines, block, |before|);
  }

  predicate LocatedAt(lines: Lines, chunk: Chunk, cursor: nat, r: Replacement, next: nat) {
    Locate(lines, chunk, cursor) == Ok((r, next))
  }

  lemma LocatedByParts(lines: Lines, chunk: Chunk, cursor: nat, at: nat, start: nat)
    requires chunk.oldLines != [] && ContextAt(lines, chunk.context, cursor, at)
    requires SeeksTo(lines, chunk.oldLines, at, chunk.isEndOfFile, start)
    ensures LocatedAt(lines, chunk, cursor, Replacement(start, |chunk.oldLines|, chunk.newLines),
                      start + |chunk.oldLines|)
  {
  }

  /** The script's parts of a file, regrouped around the place the search has passed. */
  lemma Regrouped(done: Lines, gap: Lines, context: Lines, lead: Lines, more: Lines)
    ensures done + (gap + context + lead + more) == (done + gap + context) + (lead + more)
  {
  }

  lemma BlockFound(passed: Lines, lead: Lines, block: Lines, rest: Lines, eof: bool, lines: Lines)
    requires block != [] && if eof then rest == [] else FirstAt(lead + block + rest, block, |lead|)
    requires lines == passed + (lead + block + rest)
    ensures SeeksTo(lines, block, |passed|, eof, |passed| + |lead|)
  {
    if eof {
      assert lines == (passed + lead) + block;
      SeekAtEnd(lines, passed + lead, block, |passed|);
    } else {
      SeekFirst(passed, lead + block + rest, block, |lead|);
    }
  }

  predicate ContextAt(lines: Lines, context: Option<string>, cursor: nat, at: nat) {
    AfterContext(lines, context, cursor) == Ok(at)
  }

  lemma ContextPassed(done: Lines, e: Edit, rest: Lines, lines: Lines)
    requires lines == done + (Kept(e) + e.was + rest) && EditFits(e, rest)
    ensures ContextAt(lines, e.context, |done|, |done| + |e.gap| + |ContextLines(e.context)|)
  {
    if e.context.Some? { SeekFirst(done, Kept(e) + e.was + rest, [e.context.value], |e.gap|); }
  }

  /** A block with its excess line is not found, and the block itself is. */
  lemma ExcessFound(passed: Lines, lead: Lines, block: Lines, rest: Lines, lines: Lines)
    requires block != [] && FirstAt(lead + block + rest, block, |lead|)
    requires Nowhere(lead + block + rest, block + [""]) && lines == passed + (lead + block + rest)
    ensures Seek(lines, block + [""], |passed|, false) == None
    ensures SeeksTo(lines, block, |passed|, false, |passed| + |lead|)
  {
    var local, pattern := lead + block + rest, block + [""];
    SeekFirst(passed, local, block, |lead|);
    SeekExactly(lines, pattern, |passed|, false);
    if Seek(lines, pattern, |passed|, false).Some? {
      var i := Seek(lines, pattern, |passed|, false).value;
      var t :| FoundBy(TIERS, t, lines, pattern, |passed|, i);
      TiersIncrease(t, 3, lines, pattern, i);
      LooselyShifted(passed, local, pattern, i - |passed|);
    }
  }

  lemma LooselyShifted(done: Lines, lines: Lines, block: Lines, i: nat)
    requires MatchAt(Punctuation, done + lines, block, |done| + i)
    ensures MatchAt(Punctuation, lines, block, i)
  {
    forall k | 0 <= k < |block| ensures Key(Punctuation, lines[i + k]) == Key(Punctuation, block[k]) {
      assert (done + lines)[|done| + i + k] == lines[i + k];
    }
  }

  /** An edit with an old block is located where the script has it. */
  lemma EditLocated(done: Lines, e: Edit, rest: Lines, lines: Lines, start: nat, next: nat)
    requires EditFits(e, rest) && !Adds(e) && lines == done + (Kept(e) + e.was + rest)
    requires start == |done| + |Kept(e)| && next == start + |e.was|
    ensures LocatedAt(lines, ChunkOf(e), |done|, Replacement(start, |e.was|, e.now), next)
  {
    var passed := done + e.gap + ContextLines(e.context);
    ContextPassed(done, e, rest, lines);
    LinesRegrouped(done, e, rest);
    if e.excess.Nothing? {
      assert ChunkOf(e) == Chunk(e.context, e.was, e.now, e.eof) by {
        assert e.was + [] == e.was && e.now + [] == e.now;
      }
      BlockFound(passed, e.lead, e.was, rest, e.eof, lines);
      LocatedByParts(lines, ChunkOf(e), |done|, |passed|, start);
    } else {
      ExcessLocated(e, rest, lines, passed, |done|, start);
    }
  }

  lemma ExcessLocated(e: Edit, rest: Lines, lines: Lines, passed: Lines, cursor: nat, start: nat)
    requires EditFits(e, rest) && !Adds(e) && !e.excess.Nothing? && lines == passed + (e.lead + e.was + rest)
    requires ContextAt(lines, e.context, cursor, |passed|) && start == |passed| + |e.lead|
    ensures LocatedAt(lines, ChunkOf(e), cursor, Replacement(start, |e.was|, e.now), start + |e.was|)
  {
    ExcessFound(passed, e.lead, e.was, rest, lines);
    LocatedShort(lines, ChunkOf(e), cursor, |passed|, e.was, e.now, start);
  }

  /** The second try, without the blank line at the end of the old lines. */
  lemma LocatedShort(lines: Lines, chunk: Chunk, cursor: nat, at: nat, was: Lines, now: Lines, start: nat)
    requires ContextAt(lines, chunk.context, cursor, at) && chunk.oldLines == was + [""] && !chunk.isEndOfFile
    requires chunk.newLines == now + [""] || (chunk.newLines == now + [] && !EndsBlank(now))
    requires Seek(lines, was + [""], at, false) == None && SeeksTo(lines, was, at, false, start)
    ensures LocatedAt(lines, chunk, cursor, Replacement(start, |was|, now), start + |was|)
  {
    ShortFound(lines, chunk, at, was, now, start);
    assert LocateOld(lines, chunk, at) == Ok(Replacement(start, |was|, now));
  }

  lemma ShortFound(lines: Lines, chunk: Chunk, at: nat, was: Lines, now: Lines, start: nat)
    requires chunk.oldLines == was + [""] && !chunk.isEndOfFile
    requires chunk.newLines == now + [""] || (chunk.newLines == now + [] && !EndsBlank(now))
    requires Seek(lines, was + [""], at, false) == None && SeeksTo(lines, was, at, false, start)
    ensures LocateOld(lines, chunk, at) == Ok(Replacement(start, |was|, now))
  {
    assert Front(was + [""]) == was && Front(now + [""]) == now && now + [] == now;
  }

  lemma LinesRegrouped(done: Lines, e: Edit, rest: Lines)
    ensures done + (Kept(e) + e.was + rest) == (done + e.gap + ContextLines(e.context)) + (e.lead + e.was + rest)
  {
    var context := ContextLines(e.context);
    Assoc(e.gap + context + e.lead, e.was, rest);
    Assoc(e.lead, e.was, rest);
    Regrouped(done, e.gap, context, e.lead, e.was + rest);
  }

  /** Lines to be added are located at the end of the file; the search goes on behind the context. */
  lemma AdditionLocated(done: Lines, e: Edit, rest: Lines, lines: Lines)
    requires EditFits(e, rest) && Adds(e) && lines == done + (Kept(e) + e.was + rest)
    ensures LocatedAt(lines, ChunkOf(e), |done|, Replacement(InsertionIndex(lines), 0, e.now), |done| + |Kept(e)|)
  {
    ContextPassed(done, e, rest, lines);
    assert e.was + [] == [] && e.now + [] == e.now;
  }

  // ---------- the replacements of a script ----------

  /** In the order of the chunks; `index` is where lines are added. */
  function CollectedFor(script: seq<Edit>, cursor: nat, index: nat): seq<Replacement> {
    if script == [] then []
    else
      var e, start := script[0], cursor + |Kept(script[0])|;
      [if Adds(e) then Replacement(index, 0, e.now) else Replacement(start, |e.was|, e.now)]
      + CollectedFor(script[1..], start + |e.was|, index)
  }

  function ReplacementsFor(script: seq<Edit>, cursor: nat): seq<Replacement> {
    if script == [] then []
    else
      var e, start := script[0], cursor + |Kept(script[0])|;
      (if Adds(e) then [] else [Replacement(start, |e.was|, e.now)]) + ReplacementsFor(script[1..], start + |e.was|)
  }

  function AdditionsFor(script: seq<Edit>, index: nat): seq<Replacement> {
    if script == [] then []
    else (if Adds(script[0]) then [Replacement(index, 0, script[0].now)] else []) + AdditionsFor(script[1..], index)
  }

  /** The replacements collected from these chunks. */
  function Collecting(lines: Lines, chunks: seq<Chunk>, cursor: nat, before: seq<Replacement>)
    : Result<seq<Replacement>, ApplyError>
  {
    Collect(lines, chunks, cursor, before)
  }

  lemma CollectFirst(lines: Lines, chunk: Chunk, chunks: seq<Chunk>, cursor: nat, before: seq<Replacement>,
                     r: Replacement, next: nat)
    requires LocatedAt(lines, chunk, cursor, r, next)
    ensures Collecting(lines, [chunk] + chunks, cursor, before) == Collecting(lines, chunks, next, before + [r])
  {
    assert ([chunk] + chunks)[1..] == chunks;
  }

  /** The first edit of a script: `passed` is what lies before the next. */
  lemma FirstEdit(done: Lines, script: seq<Edit>, tail: Lines, lines: Lines, index: nat)
    returns (r: Replacement, passed: Lines)
    requires script != [] && lines == done + Source(script, tail)
    ensures passed == done + (Kept(script[0]) + script[0].was) && lines == passed + Source(script[1..], tail)
    ensures r == if Adds(script[0]) then Replacement(index, 0, script[0].now)
                 else Replacement(|done| + |Kept(script[0])|, |script[0].was|, script[0].now)
    ensures ChunksFor(script) == [ChunkOf(script[0])] + ChunksFor(script[1..])
    ensures CollectedFor(script, |done|, index) == [r] + CollectedFor(script[1..], |passed|, index)
  {
    var e, rest := script[0], Source(script[1..], tail);
    r := if Adds(e) then Replacement(index, 0, e.now) else Replacement(|done| + |Kept(e)|, |e.was|, e.now);
    passed := done + (Kept(e) + e.was);
    Assoc(done, Kept(e) + e.was, rest);
  }

  lemma FirstLocated(done: Lines, e: Edit, rest: Lines, lines: Lines, r: Replacement, passed: Lines)
    requires EditFits(e, rest) && passed == done + (Kept(e) + e.was) && lines == passed + rest
    requires r == if Adds(e) then Replacement(InsertionIndex(lines), 0, e.now)
                  else Replacement(|done| + |Kept(e)|, |e.was|, e.now)
    ensures LocatedAt(lines, ChunkOf(e), |done|, r, |passed|)
  {
    Assoc(done, Kept(e) + e.was, rest);
    if Adds(e) { AdditionLocated(done, e, rest, lines); } else { EditLocated(done, e, rest, lines, r.start, |passed|); }
  }

  lemma {:induction false} ScriptCollected(done: Lines, script: seq<Edit>, tail: Lines, before: seq<Replacement>,
                                           lines: Lines, all: seq<Replacement>, index: nat)
    requires Unambiguous(script, tail) && lines == done + Source(script, tail)
    requires all == before + CollectedFor(script, |done|, index) && (AddsAny(script) ==> index == InsertionIndex(lines))
    ensures Collecting(lines, ChunksFor(script), |done|, before) == Ok(all)
    decreases |script|
  {
    if script == [] {
      assert all == before;
    } else {
      var r, passed := FirstEdit(done, script, tail, lines, index);
      assert Adds(script[0]) ==> AddsAny(script);
      FirstLocated(done, script[0], Source(script[1..], tail), lines, r, passed);
      CollectFirst(lines, ChunkOf(script[0]), ChunksFor(script[1..]), |done|, before, r, |passed|);
      Assoc(before, [r], CollectedFor(script[1..], |passed|, index));
      AddsLater(script);
      ScriptCollected(passed, script[1..], tail, before + [r], lines, all, index);
    }
  }

  lemma AddsLater(script: seq<Edit>)
    requires script != []
    ensures AddsAny(script) <==> Adds(script[0]) || AddsAny(script[1..])
  {
    assert script == [script[0]] + script[1..];
  }

  // ---------- sorting them ----------

  predicate StartAtMost(rs: seq<Replacement>, limit: nat) { forall r :: r in rs ==> r.start <= limit }

  predicate StartFrom(rs: seq<Replacement>, limit: nat) { forall r :: r in rs ==> r.start >= limit }

  lemma {:induction false} InsertedBetween(r: Replacement, front: seq<Replacement>, back: seq<Replacement>)
    requires StartAtMost(front, r.start) && StartFrom(back, r.start + 1)
    ensures Inserted(r, front + back) == front + [r] + back
    decreases |back|
  {
    if back == [] {
      assert front + back == front && front + [r] + back == front + [r];
      assert front != [] ==> front[|front| - 1] in front;
    } else {
      var last := |back| - 1;
      assert back[last] in back && (front + back)[..|front| + last] == front + back[..last];
      InsertedBetween(r, front, back[..last]);
      assert front + [r] + back[..last] + [back[last]] == front + [r] + back;
    }
  }

  lemma SortedLast(rs: seq<Replacement>, front: seq<Replacement>, back: seq<Replacement>, r: Replacement)
    requires SortedByStart(rs) == front + back && StartAtMost(front, r.start)
    ensures StartFrom(back, r.start + 1) ==> SortedByStart(rs + [r]) == (front + [r]) + back
    ensures StartAtMost(back, r.start) ==> SortedByStart(rs + [r]) == front + (back + [r])
  {
    assert (rs + [r])[..|rs|] == rs;
    if StartFrom(back, r.start + 1) { InsertedBetween(r, front, back); }
    if StartAtMost(back, r.start) {
      InsertedBetween(r, front + back, []);
      assert front + back + [] == front + back && (front + back) + [r] + [] == front + (back + [r]);
    }
  }

  /** The first replacement of a script, and those of the rest. */
  lemma FirstCollected(script: seq<Edit>, cursor: nat, index: nat) returns (r: Replacement, next: nat)
    requires script != []
    ensures var e, rest := script[0], script[1..];
      && next == cursor + |Kept(e)| + |e.was| && |Source(script, [])| == (next - cursor) + |Source(rest, [])|
      && CollectedFor(script, cursor, index) == [r] + CollectedFor(rest, next, index)
      && (if Adds(e) then r.start == index && r.oldLen == 0 else r.start + r.oldLen == next && r.oldLen == |e.was|)
      && ReplacementsFor(script, cursor) == (if Adds(e) then [] else [r]) + ReplacementsFor(rest, next)
      && AdditionsFor(script, index) == (if Adds(e) then [r] else []) + AdditionsFor(rest, index)
  {
    var e := script[0];
    next := cursor + |Kept(e)| + |e.was|;
    r := if Adds(e) then Replacement(index, 0, e.now) else Replacement(cursor + |Kept(e)|, |e.was|, e.now);
  }

  /** The sort takes the replaced blocks first, in order, and then the lines added, in order. */
  lemma {:induction false} ScriptSorted(rs: seq<Replacement>, front: seq<Replacement>, back: seq<Replacement>,
                                        script: seq<Edit>, cursor: nat, index: nat, all: seq<Replacement>,
                                        reps: seq<Replacement>, adds: seq<Replacement>)
    requires SortedByStart(rs) == front + back && StartAtMost(front, cursor) && StartFrom(back, index)
    requires StartAtMost(back, index) && Solid(script) && cursor + |Source(script, [])| <= index
    requires all == rs + CollectedFor(script, cursor, index)
    requires reps == ReplacementsFor(script, cursor) && adds == AdditionsFor(script, index)
    ensures SortedByStart(all) == (front + reps) + (back + adds)
    decreases |script|
  {
    if script == [] {
      assert all == rs && front + reps == front && back + adds == back;
    } else {
      var r, next := FirstCollected(script, cursor, index);
      var e, rest := script[0], script[1..];
      var later, moreReps := CollectedFor(rest, next, index), ReplacementsFor(rest, next);
      var moreAdds := AdditionsFor(rest, index);
      assert e in script && Solid(rest);
      if Adds(e) {
        assert reps == moreReps && adds == [r] + moreAdds;
        AdditionSorted(rs, front, back, r, later, all, cursor);
        ScriptSorted(rs + [r], front, back + [r], rest, next, index, all, moreReps, moreAdds);
        Assoc(back, [r], moreAdds);
      } else {
        assert reps == [r] + moreReps && adds == moreAdds;
        ReplacementSorted(rs, front, back, r, later, all, cursor, index);
        ScriptSorted(rs + [r], front + [r], back, rest, next, index, all, moreReps, moreAdds);
        Assoc(front, [r], moreReps);
      }
    }
  }

  lemma AdditionSorted(rs: seq<Replacement>, front: seq<Replacement>, back: seq<Replacement>, r: Replacement,
                       later: seq<Replacement>, all: seq<Replacement>, cursor: nat)
    requires SortedByStart(rs) == front + back && StartAtMost(front, cursor) && cursor <= r.start
    requires StartAtMost(back, r.start) && StartFrom(back, r.start) && all == rs + ([r] + later)
    ensures SortedByStart(rs + [r]) == front + (back + [r]) && all == (rs + [r]) + later
    ensures StartAtMost(back + [r], r.start) && StartFrom(back + [r], r.start)
  {
    SortedLast(rs, front, back, r);
    Assoc(rs, [r], later);
  }

  lemma ReplacementSorted(rs: seq<Replacement>, front: seq<Replacement>, back: seq<Replacement>, r: Replacement,
                          later: seq<Replacement>, all: seq<Replacement>, cursor: nat, index: nat)
    requires SortedByStart(rs) == front + back && StartAtMost(front, cursor) && cursor <= r.start < index
    requires StartFrom(back, index) && all == rs + ([r] + later)
    ensures SortedByStart(rs + [r]) == (front + [r]) + back && all == (rs + [r]) + later
    ensures StartAtMost(front + [r], r.start + r.oldLen)
  {
    SortedLast(rs, front, back, r);
    Assoc(rs, [r], later);
  }

  /** Every edit replaces something or adds. */
  predicate Solid(script: seq<Edit>) { forall e :: e in script ==> Adds(e) || e.was != [] }

  lemma {:induction false} FitsSolid(script: seq<Edit>, tail: Lines)
    requires Unambiguous(script, tail)
    ensures Solid(script)
  {
    if script != [] { FitsSolid(script[1..], tail); }
  }

  // ---------- splicing them ----------

  lemma {:induction false} SpliceEarlier(lines: Lines, rs: seq<Replacement>, from: nat, later: nat)
    requires from <= later && Disjoint(rs, later, |lines|)
    ensures Disjoint(rs, from, |lines|) && later <= |lines|
    ensures Splice(lines, rs, from) == lines[from..later] + Splice(lines, rs, later)
  {
    if rs == [] {
      assert lines[from..] == lines[from..later] + lines[later..];
    } else {
      StartInside(rs, later, |lines|);
      KeptEarlier(lines, from, later, rs[0].start, rs[0].newLines, Splice(lines, rs[1..], rs[0].start + rs[0].oldLen));
    }
  }

  lemma KeptEarlier(lines: Lines, from: nat, later: nat, start: nat, now: Lines, rest: Lines)
    requires from <= later <= start <= |lines|
    ensures lines[from..start] + now + rest == lines[from..later] + (lines[later..start] + now + rest)
  {
    var kept, more := lines[from..later], lines[later..start];
    assert lines[from..start] == kept + more;
    Assoc(kept, more, now);
    Assoc(kept, more + now, rest);
  }

  lemma StartInside(rs: seq<Replacement>, from: nat, size: nat)
    requires rs != [] && Disjoint(rs, from, size)
    ensures from <= rs[0].start <= size
  {
  }

  /** Lines added at one place follow each other in order. */
  lemma {:induction false} AdditionsSpliced(script: seq<Edit>, lines: Lines, from: nat, index: nat,
                                            rs: seq<Replacement>)
    requires from <= index <= |lines| && rs == AdditionsFor(script, index)
    ensures Disjoint(rs, from, |lines|)
    ensures Splice(lines, rs, from) == lines[from..index] + Added(script) + lines[index..]
    decreases |script|
  {
    if script == [] {
      assert lines[from..] == lines[from..index] + [] + lines[index..];
    } else if Adds(script[0]) {
      var r, rest := rs[0], AdditionsFor(script[1..], index);
      assert rs == [r] + rest && rs[1..] == rest && r == Replacement(index, 0, script[0].now);
      AdditionsSpliced(script[1..], lines, index, index, rest);
      var kept, now, more, end := lines[from..index], script[0].now, Added(script[1..]), lines[index..];
      assert lines[index..index] + more + end == more + end;
      assert kept + now + (more + end) == kept + (now + more) + end;
    } else {
      assert [] + AdditionsFor(script[1..], index) == AdditionsFor(script[1..], index);
      assert [] + Added(script[1..]) == Added(script[1..]);
      AdditionsSpliced(script[1..], lines, from, index, rs);
    }
  }

  /** The script's replacements are disjoint, and splicing them gives its target; `added` are the replacements
      that add lines at the end. */
  lemma {:induction false} ScriptSpliced(done: Lines, script: seq<Edit>, tail: Lines, lines: Lines,
                                         rs: seq<Replacement>, added: seq<Replacement>, end: Lines)
    requires lines == done + Source(script, tail) && rs == ReplacementsFor(script, |done|)
    requires Disjoint(added, |done| + |Source(script, [])|, |lines|) && Solid(script)
    requires Splice(lines, added, |done| + |Source(script, [])|) == end
    ensures Disjoint(rs + added, |done|, |lines|) && Splice(lines, rs + added, |done|) == Body(script, []) + end
    decreases |script|
  {
    if script == [] {
      assert rs + added == added && [] + end == end;
    } else {
      var e := script[0];
      var r, passed := FirstEdit(done, script, tail, lines, 0);
      var rest := ReplacementsFor(script[1..], |passed|);
      assert |Source(script, [])| == |Kept(e)| + |e.was| + |Source(script[1..], [])|;
      ScriptSpliced(passed, script[1..], tail, lines, rest, added, end);
      KeptLines(done, e, lines, passed, Source(script[1..], tail));
      var body := Body(script[1..], []);
      if Adds(e) {
        assert rs == rest && Body(script, []) == Kept(e) + body;
        Assoc(Kept(e), body, end);
        AdditionSkipped(lines, rest + added, |done|, |passed|, Kept(e), body + end, (Kept(e) + body) + end);
      } else {
        assert rs == [r] + rest && Body(script, []) == Kept(e) + e.now + body;
        ReplacementSpliced(lines, r, rest, added, rs, |done|, |passed|, Kept(e), body, end);
      }
    }
  }

  lemma ReplacementSpliced(lines: Lines, r: Replacement, rest: seq<Replacement>, added: seq<Replacement>,
                           rs: seq<Replacement>, from: nat, next: nat, kept: Lines, body: Lines, end: Lines)
    requires from <= r.start && r.start + r.oldLen == next <= |lines| && lines[from..r.start] == kept
    requires Disjoint(rest + added, next, |lines|) && Splice(lines, rest + added, next) == body + end
    requires rs == [r] + rest
    ensures Disjoint(rs + added, from, |lines|)
    ensures Splice(lines, rs + added, from) == (kept + r.newLines + body) + end
  {
    Assoc([r], rest, added);
    SplicedFirst(lines, r, rest + added, rs + added, from, next, kept, body + end);
    Assoc(kept + r.newLines, body, end);
  }

  lemma AdditionSkipped(lines: Lines, rs: seq<Replacement>, from: nat, later: nat, kept: Lines, after: Lines,
                        all: Lines)
    requires from <= later <= |lines| && lines[from..later] == kept && all == kept + after
    requires Disjoint(rs, later, |lines|) && Splice(lines, rs, later) == after
    ensures Disjoint(rs, from, |lines|) && Splice(lines, rs, from) == all
  {
    SpliceEarlier(lines, rs, from, later);
  }

  lemma KeptLines(done: Lines, e: Edit, lines: Lines, passed: Lines, rest: Lines)
    requires passed == done + (Kept(e) + e.was) && lines == passed + rest
    ensures lines[|done|..|done| + |Kept(e)|] == Kept(e)
  {
  }

  lemma {:induction false} SplicedFirst(lines: Lines, r: Replacement, rest: seq<Replacement>, rs: seq<Replacement>,
                                        from: nat, next: nat, kept: Lines, after: Lines)
    requires from <= r.start && r.start + r.oldLen == next <= |lines| && lines[from..r.start] == kept
    requires Disjoint(rest, next, |lines|) && Splice(lines, rest, next) == after && rs == [r] + rest
    ensures Disjoint(rs, from, |lines|) && Splice(lines, rs, from) == kept + r.newLines + after
  {
    assert rs[0] == r && rs[1..] == rest;
  }

  lemma {:induction false} SourceTail(script: seq<Edit>, tail: Lines)
    ensures Source(script, tail) == Source(script, []) + tail && Body(script, tail) == Body(script, []) + tail
    decreases |script|
  {
    if script != [] {
      var e := script[0];
      SourceTail(script[1..], tail);
      Assoc(Kept(e) + e.was, Source(script[1..], []), tail);
      Assoc(Kept(e) + (if Adds(e) then [] else e.now), Body(script[1..], []), tail);
    }
  }

  lemma {:induction false} NoAdditions(script: seq<Edit>, index: nat)
    requires !AddsAny(script)
    ensures AdditionsFor(script, index) == [] && Added(script) == []
  {
    if script != [] {
      AddsLater(script);
      NoAdditions(script[1..], index);
    }
  }

  /** Where lines are added, and what the script's file is around that place. */
  lemma EndOfScript(script: seq<Edit>, tail: Lines) returns (index: nat)
    requires RoomAtEnd(script, tail)
    ensures var lines := Source(script, tail);
      && index == |Source(script, [])| + |Before(script, tail)| <= |lines| && lines[index..] == Behind(script, tail)
      && lines[|Source(script, [])|..index] == Before(script, tail)
      && (AddsAny(script) ==> index == InsertionIndex(lines))
  {
    SourceTail(script, tail);
    index := PartsOf(Source(script, []), Before(script, tail), Behind(script, tail), tail, Source(script, tail));
    if tail != [] { LastOf(Source(script, []), tail, Source(script, tail)); }
  }

  lemma PartsOf(body: Lines, before: Lines, behind: Lines, tail: Lines, lines: Lines) returns (index: nat)
    requires tail == before + behind && lines == body + tail
    ensures index == |body| + |before| <= |lines| && lines[index..] == behind && lines[|body|..index] == before
  {
    index := |body| + |before|;
    assert lines == (body + before) + behind;
  }

  lemma LastOf(body: Lines, tail: Lines, lines: Lines)
    requires tail != [] && lines == body + tail
    ensures lines != [] && lines[|lines| - 1] == tail[|tail| - 1]
  {
  }

  lemma SortedFromStart(script: seq<Edit>, index: nat, all: seq<Replacement>, rs: seq<Replacement>,
                        added: seq<Replacement>)
    requires Solid(script) && |Source(script, [])| <= index && all == CollectedFor(script, 0, index)
    requires rs == ReplacementsFor(script, 0) && added == AdditionsFor(script, index)
    ensures SortedByStart(all) == rs + added
  {
    assert [] + all == all && [] + rs == rs && [] + added == added;
    assert SortedByStart([]) == [] + [];
    ScriptSorted([], [], [], script, 0, index, all, rs, added);
  }

  /** An unambiguous edit script is carried out to the letter: the blocks are replaced where they are, the
      lines added follow at the end in the order of their chunks, and a blank last line stays the last. */
  lemma ScriptApplied(script: seq<Edit>, tail: Lines)
    requires Unambiguous(script, tail) && RoomAtEnd(script, tail)
    ensures NewLines(Source(script, tail), ChunksFor(script)) == Ok(Target(script, tail))
  {
    var lines := Source(script, tail);
    var index := EndOfScript(script, tail);
    var all := CollectedFor(script, 0, index);
    var rs, added := ReplacementsFor(script, 0), AdditionsFor(script, index);
    assert [] + lines == lines && [] + all == all;
    FitsSolid(script, tail);
    ScriptCollected([], script, tail, [], lines, all, index);
    assert SortedByStart(all) == rs + added by { SortedFromStart(script, index, all, rs, added); }
    AdditionsSpliced(script, lines, |Source(script, [])|, index, added);
    var end := Before(script, tail) + Added(script) + Behind(script, tail);
    ScriptSpliced([], script, tail, lines, rs, added, end);
    Derived(lines, ChunksFor(script), all, rs + added, Body(script, []) + end);
    TargetParts(script, tail);
  }

  lemma TargetParts(script: seq<Edit>, tail: Lines)
    ensures Target(script, tail) == Body(script, []) + (Before(script, tail) + Added(script) + Behind(script, tail))
  {
    var before, added, behind := Before(script, tail), Added(script), Behind(script, tail);
    SourceTail(script, before);
    Assoc(Body(script, []), before, added);
    Assoc(Body(script, []), before + added, behind);
  }

  lemma Derived(lines: Lines, chunks: seq<Chunk>, all: seq<Replacement>, sorted: seq<Replacement>, target: Lines)
    requires Collecting(lines, chunks, 0, []) == Ok(all) && SortedByStart(all) == sorted
    requires Disjoint(sorted, 0, |lines|) && Splice(lines, sorted, 0) == target
    ensures NewLines(lines, chunks) == Ok(target)
  {
    ComputedOrdered(lines, chunks);
    BackIsSplice(lines, sorted);
  }

  // ---------- single chunks ----------

  /** A chunk without old lines adds its lines at the end of the file, before a blank last line. */
  lemma LinesAdded(lines: Lines, now: Lines, eof: bool)
    ensures NewLines(lines, [Chunk(None, [], now, eof)]) ==
      Ok(if EndsBlank(lines) then Front(lines) + now + [""] else lines + now)
  {
    var e := Edit([], None, [], [], now, eof, Nothing);
    var script := [e];
    assert script[1..] == [] && e in script && AddsAny(script) && Kept(e) + e.was == [];
    assert Source(script, lines) == [] + lines == lines && e.was + [] == [] && e.now + [] == now;
    assert ChunksFor(script) == [ChunkOf(e)] + ChunksFor([]) == [Chunk(None, [], now, eof)];
    assert Added(script) == now + Added([]) == now;
    ScriptApplied(script, lines);
    var before := Before(script, lines);
    assert Body(script, before) == Kept(e) + [] + before == before;
    assert before + now + [] == before + now;
  }

  /** However loosely lines are compared, the block is nowhere from the cursor on, or not at the end. */
  ghost predicate Absent(lines: Lines, block: Lines, cursor: nat, eof: bool) {
    var from := if eof && |block| <= |lines| then |lines| - |block| else cursor;
    forall j :: from <= j ==> !MatchAt(Punctuation, lines, block, j)
  }

  lemma AbsentExactly(lines: Lines, block: Lines, cursor: nat, eof: bool)
    requires block != []
    ensures Seek(lines, block, cursor, eof) == None <==> Absent(lines, block, cursor, eof)
  {
    SeekExactly(lines, block, cursor, eof);
    if Seek(lines, block, cursor, eof).Some? {
      var from := if eof && |block| <= |lines| then |lines| - |block| else cursor;
      var i := Seek(lines, block, cursor, eof).value;
      var t :| FoundBy(TIERS, t, lines, block, from, i);
      TiersIncrease(t, 3, lines, block, i);
      assert from <= i && MatchAt(Punctuation, lines, block, i);
    }
  }

  /** A chunk cannot be located exactly if its context line is missing, or its old lines are, and also without
      the blank line at their end, if they have one and it is not all they are. The error names what is missing. */
  lemma LocateFails(lines: Lines, chunk: Chunk, cursor: nat) returns (at: nat)
    ensures var r := Locate(lines, chunk, cursor);
      if chunk.context.Some? && Absent(lines, [chunk.context.value], cursor, false)
      then r == Err(ContextNotFound(chunk.context.value))
      else
        && ContextAt(lines, chunk.context, cursor, at) && (chunk.context.None? ==> at == cursor)
        && if OldAbsent(lines, chunk, at) then r == Err(LinesNotFound(chunk.oldLines)) else r.Ok?
  {
    at := cursor;
    if chunk.context.Some? {
      AbsentExactly(lines, [chunk.context.value], cursor, false);
      if AfterContext(lines, chunk.context, cursor).Ok? { at := AfterContext(lines, chunk.context, cursor).value; }
    }
    if chunk.oldLines != [] {
      AbsentExactly(lines, chunk.oldLines, at, chunk.isEndOfFile);
      if |chunk.oldLines| > 1 { AbsentExactly(lines, Front(chunk.oldLines), at, chunk.isEndOfFile); }
    }
  }

  ghost predicate OldAbsent(lines: Lines, chunk: Chunk, at: nat) {
    && chunk.oldLines != [] && Absent(lines, chunk.oldLines, at, chunk.isEndOfFile)
    && (EndsBlank(chunk.oldLines) ==>
          |chunk.oldLines| > 1 && Absent(lines, Front(chunk.oldLines), at, chunk.isEndOfFile))
  }

  lemma BlankMatch(lines: Lines, j: nat)
    ensures MatchAt(Punctuation, lines, [""], j) <==> j < |lines| && Trim(lines[j]) == ""
  {
    assert Key(Punctuation, "") == "";
    if j < |lines| {
      assert |Key(Punctuation, lines[j])| == |Trim(lines[j])|;
      assert [""][0] == "" && lines[j + 0] == lines[j];
    }
  }

  lemma BlankAbsent(lines: Lines, eof: bool)
    requires forall i :: 0 <= i < |lines| ==> Trim(lines[i]) != ""
    ensures Seek(lines, [""], 0, eof) == None
  {
    forall j: nat ensures !MatchAt(Punctuation, lines, [""], j) { BlankMatch(lines, j); }
    AbsentExactly(lines, [""], 0, eof);
  }

  /** A chunk whose only old line is blank, on a file without blank lines: nothing is taken away, and the new
      lines go to the top. */
  lemma LoneBlankInserts(lines: Lines, now: Lines, eof: bool)
    requires forall i :: 0 <= i < |lines| ==> Trim(lines[i]) != ""
    ensures NewLines(lines, [Chunk(None, [""], now + [""], eof)]) == Ok(now + lines)
  {
    var chunk, r := Chunk(None, [""], now + [""], eof), Replacement(0, 0, now);
    BlankAbsent(lines, eof);
    LoneLocated(lines, chunk, r);
    OneCollected(lines, chunk, r);
    assert Splice(lines, [r], 0) == now + lines by {
      assert [r][1..] == [] && lines[0..0] + now + lines[0..] == now + lines;
    }
    Derived(lines, [chunk], [r], [r], now + lines);
  }

  lemma LoneLocated(lines: Lines, chunk: Chunk, r: Replacement)
    requires Seek(lines, [""], 0, chunk.isEndOfFile) == None && chunk.context.None? && chunk.oldLines == [""]
    requires EndsBlank(chunk.newLines) && r == Replacement(0, 0, Front(chunk.newLines))
    ensures LocatedAt(lines, chunk, 0, r, 0)
  {
    assert Front([""]) == [];
  }

  lemma OneCollected(lines: Lines, chunk: Chunk, r: Replacement)
    requires LocatedAt(lines, chunk, 0, r, 0)
    ensures Collecting(lines, [chunk], 0, []) == Ok([r]) && SortedByStart([r]) == [r]
  {
    assert [chunk] == [chunk] + [] && [] + [r] == [r] && [r][..0] == [];
    CollectFirst(lines, chunk, [], 0, [], r, 0);
    assert SortedByStart([r]) == Inserted(r, SortedByStart([]));
  }

  // ---------- files ----------

  predicate NoNewlines(lines: Lines) { forall line :: line in lines ==> '\n' !in line }

  lemma RenderedLines(lines: Lines)
    requires NoNewlines(lines)
    ensures FileLines(Render(lines)) == lines
  {
    SplitRender(lines);
    assert (lines + [""])[..|lines|] == lines;
  }

  lemma {:induction false} JoinRendered(lines: Lines)
    ensures Join(lines + [""]) == Render(lines)
  {
    if lines == [] {
      assert lines + [""] == [""];
    } else {
      assert (lines + [""])[1..] == lines[1..] + [""];
      JoinRendered(lines[1..]);
    }
  }

  /** A file is written back as its lines, but for a blank last line, which is lost. */
  lemma FileTextOf(lines: Lines)
    ensures FileText(lines) == Render(if EndsBlank(lines) then Front(lines) else lines)
  {
    if EndsBlank(lines) {
      assert lines == Front(lines) + [""];
      JoinRendered(Front(lines));
    } else {
      JoinRendered(lines);
    }
  }

  lemma {:induction false} RenderLength(lines: Lines, more: Lines)
    ensures Render(lines + more) == Render(lines) + Render(more)
  {
    if lines == [] {
      assert lines + more == more;
    } else {
      assert (lines + more)[1..] == lines[1..] + more;
      RenderLength(lines[1..], more);
    }
  }

  lemma FileTextKeeps(lines: Lines)
    ensures FileText(lines) == Render(lines) <==> !EndsBlank(lines)
  {
    FileTextOf(lines);
    if EndsBlank(lines) {
      assert lines == Front(lines) + [""];
      RenderLength(Front(lines), [""]);
    }
  }

  lemma DerivedFrom(contents: string, chunks: seq<Chunk>, lines: Lines, target: Lines)
    requires FileLines(contents) == lines && NewLines(lines, chunks) == Ok(target)
    ensures Derive(contents, chunks) == Ok(FileText(target))
  {
  }

  /** A script whose source lines make up the file gives the file of its target lines, exactly if the
      target does not end in a blank line; otherwise that line is missing. */
  lemma FilePatched(script: seq<Edit>, tail: Lines)
    requires Unambiguous(script, tail) && RoomAtEnd(script, tail) && NoNewlines(Source(script, tail))
    ensures var r, target := Derive(Render(Source(script, tail)), ChunksFor(script)), Target(script, tail);
      r == Ok(FileText(target)) && (r.value == Render(target) <==> !EndsBlank(target))
  {
    RenderedLines(Source(script, tail));
    ScriptApplied(script, tail);
    DerivedFrom(Render(Source(script, tail)), ChunksFor(script), Source(script, tail), Target(script, tail));
    FileTextKeeps(Target(script, tail));
  }

  /** An update without chunks writes the file back unchanged exactly if its text is empty, or ends
      in a newline and its last line is not blank. */
  lemma NothingChanged(contents: string)
    ensures Derive(contents, []).Ok?
    ensures Derive(contents, []).value == contents
       <==> EndsBlank(Split(contents)) && !EndsBlank(FileLines(contents))
  {
    var parts := Split(contents);
    JoinOfSplit(contents);
    ComputedOrdered(FileLines(contents), []);
    FileTextOf(FileLines(contents));
    if EndsBlank(parts) {
      var lines := Front(parts);
      assert parts == lines + [""];
      JoinRendered(lines);
      if EndsBlank(lines) {
        assert lines == Front(lines) + [""];
        RenderLength(Front(lines), [""]);
      }
    } else {
      JoinRendered(parts);
      JoinShorter(parts);
    }
  }

  lemma {:induction false} JoinShorter(lines: Lines)
    requires lines != []
    ensures |Render(lines)| == |Join(lines)| + 1
  {
    if |lines| > 1 { JoinShorter(lines[1..]); }
  }
}
