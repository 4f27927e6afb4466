/** What the patch engine does to a file: the search is exact, the splice in place is the simple
    one, and an unambiguous edit script is carried out to the letter. */
module PatchApplyProofs {
  import opened Wrappers
  import opened Text
  import opened PatchParser
  import opened PatchApply

  // ---------- the search ----------

  /** What an exact match means line by line. */
  lemma MatchKeys(tier: Tier, lines: Lines, pattern: Lines, i: nat)
    ensures MatchAt(tier, lines, pattern, i) <==>
      (i + |pattern| <= |lines| && forall k :: 0 <= k < |pattern| ==> Key(tier, lines[i + k]) == Key(tier, pattern[k]))
  {
    if tier == Exact && i + |pattern| <= |lines| {
      var block := lines[i..i + |pattern|];
      assert forall k :: 0 <= k < |pattern| ==> block[k] == Key(tier, lines[i + k]);
      assert block == pattern <==> forall k :: 0 <= k < |pattern| ==> block[k] == pattern[k];
    }
  }

  /** The comparisons form a chain: what a tier takes as equal, the looser ones do too. */
  lemma TiersIncrease(a: nat, b: nat, lines: Lines, pattern: Lines, i: nat)
    requires a <= b < |TIERS| && MatchAt(TIERS[a], lines, pattern, i)
    ensures MatchAt(TIERS[b], lines, pattern, i)
  {
    MatchKeys(TIERS[a], lines, pattern, i);
    MatchKeys(TIERS[b], lines, pattern, i);
    forall k | 0 <= k < |pattern| ensures Key(TIERS[b], lines[i + k]) == Key(TIERS[b], pattern[k]) {
      assert Key(TIERS[a], lines[i + k]) == Key(TIERS[a], pattern[k]);
    }
  }

  lemma {:induction false} FirstMatchLeftmost(tier: Tier, lines: Lines, pattern: Lines, i: nat, j: nat)
    requires i <= j && MatchAt(tier, lines, pattern, j)
    ensures FirstMatch(tier, lines, pattern, i).Some? && FirstMatch(tier, lines, pattern, i).value <= j
    decreases |lines| - i
  {
    if i < j && !MatchAt(tier, lines, pattern, i) {
      MatchInRange(tier, lines, pattern, j);
      FirstMatchStep(tier, lines, pattern, i);
      FirstMatchLeftmost(tier, lines, pattern, i + 1, j);
    }
  }

  lemma FirstMatchStep(tier: Tier, lines: Lines, pattern: Lines, i: nat)
    requires i < |lines| && i + |pattern| <= |lines| && !MatchAt(tier, lines, pattern, i)
    ensures FirstMatch(tier, lines, pattern, i) == FirstMatch(tier, lines, pattern, i + 1)
  {
  }

  lemma MatchInRange(tier: Tier, lines: Lines, pattern: Lines, i: nat)
    requires MatchAt(tier, lines, pattern, i)
    ensures i + |pattern| <= |lines|
  {
  }

  /** A tier's result is its leftmost match in range, and there is none without one. */
  ghost predicate TierExact(tier: Tier, lines: Lines, pattern: Lines, from: nat, r: Option<nat>) {
    match r
    case Some(i) => from <= i && MatchAt(tier, lines, pattern, i)
      && (forall j :: from <= j < i ==> !MatchAt(tier, lines, pattern, j))
    case None => forall j :: from <= j ==> !MatchAt(tier, lines, pattern, j)
  }

  lemma FirstMatchExact(tier: Tier, lines: Lines, pattern: Lines, from: nat)
    ensures TierExact(tier, lines, pattern, from, FirstMatch(tier, lines, pattern, from))
  {
    var r := FirstMatch(tier, lines, pattern, from);
    FirstMatchBound(tier, lines, pattern, from);
    forall j | from <= j && MatchAt(tier, lines, pattern, j) ensures r.Some? && r.value <= j {
      FirstMatchLeftmost(tier, lines, pattern, from, j);
    }
  }

  /** Position i is where tier t finds the pattern, and no stricter one finds it anywhere. */
  ghost predicate FoundBy(tiers: seq<Tier>, t: nat, lines: Lines, pattern: Lines, from: nat, i: nat) {
    && t < |tiers| && TierExact(tiers[t], lines, pattern, from, Some(i))
    && forall s :: 0 <= s < t ==> TierExact(tiers[s], lines, pattern, from, None)
  }

  lemma {:induction false} FirstTierExact(tiers: seq<Tier>, lines: Lines, pattern: Lines, from: nat) returns (t: nat)
    ensures match FirstTier(tiers, lines, pattern, from)
      case Some(i) => FoundBy(tiers, t, lines, pattern, from, i)
      case None => forall s :: 0 <= s < |tiers| ==> TierExact(tiers[s], lines, pattern, from, None)
  {
    t := 0;
    if tiers != [] {
      FirstMatchExact(tiers[0], lines, pattern, from);
      if FirstMatch(tiers[0], lines, pattern, from) == None {
        t := FirstTierExact(tiers[1..], lines, pattern, from);
        forall s | 1 <= s < |tiers| ensures tiers[s] == tiers[1..][s - 1] { }
        if FirstTier(tiers[1..], lines, pattern, from).Some? {
          FoundLater(tiers, t, lines, pattern, from, FirstTier(tiers[1..], lines, pattern, from).value);
          t := t + 1;
        }
      }
    }
  }

  lemma FoundLater(tiers: seq<Tier>, t: nat, lines: Lines, pattern: Lines, from: nat, i: nat)
    requires tiers != [] && TierExact(tiers[0], lines, pattern, from, None)
    requires FoundBy(tiers[1..], t, lines, pattern, from, i)
    ensures FoundBy(tiers, t + 1, lines, pattern, from, i)
  {
    forall s | 0 <= s < t + 1 ensures TierExact(tiers[s], lines, pattern, from, None) {
      if s > 0 { assert TierExact(tiers[1..][s - 1], lines, pattern, from, None); }
    }
  }

  /** The search is sound, complete and strictest first: its result is the leftmost position in range
      under the strictest tier that matches anywhere in range, and there is none exactly if no tier,
      not even the loosest, matches anywhere. */
  lemma SeekExactly(lines: Lines, pattern: Lines, start: nat, eof: bool)
    requires pattern != []
    ensures var from := if eof && |pattern| <= |lines| then |lines| - |pattern| else start;
      match Seek(lines, pattern, start, eof)
      case Some(i) => exists t :: FoundBy(TIERS, t, lines, pattern, from, i)
      case None => forall j :: from <= j ==> !MatchAt(Punctuation, lines, pattern, j)
  {
    var from := SearchStart(lines, pattern, start, eof);
    var t := FirstTierExact(TIERS, lines, pattern, from);
    if FirstTier(TIERS, lines, pattern, from) == None { assert TierExact(TIERS[3], lines, pattern, from, None); }
  }

  // ---------- the splice ----------

  /** Ordered, in bounds, and none reaching into the next. */
  predicate Disjoint(rs: seq<Replacement>, from: nat, size: nat) {
    if rs == [] then from <= size
    else
      from <= rs[0].start && rs[0].start + rs[0].oldLen <= size
      && Disjoint(rs[1..], rs[0].start + rs[0].oldLen, size)
  }

  /** The replacements made from left to right: gaps kept, segments put in. */
  function Splice(lines: Lines, rs: seq<Replacement>, from: nat): Lines
    requires Disjoint(rs, from, |lines|)
  {
    if rs == [] then lines[from..]
    else lines[from..rs[0].start] + rs[0].newLines + Splice(lines, rs[1..], rs[0].start + rs[0].oldLen)
  }

  lemma {:induction false} DisjointFront(rs: seq<Replacement>, from: nat, size: nat)
    requires rs != [] && Disjoint(rs, from, size)
    ensures var last := rs[|rs|-1];
      last.start + last.oldLen <= size && from <= last.start && Disjoint(rs[..|rs|-1], from, last.start)
    decreases |rs|
  {
    if |rs| > 1 {
      DisjointFront(rs[1..], rs[0].start + rs[0].oldLen, size);
      assert rs[1..][..|rs|-2] == rs[..|rs|-1][1..];
    }
  }

  lemma {:induction false} DisjointWider(rs: seq<Replacement>, from: nat, size: nat, larger: nat)
    requires Disjoint(rs, from, size) && size <= larger
    ensures Disjoint(rs, from, larger)
    decreases |rs|
  {
    if rs != [] { DisjointWider(rs[1..], rs[0].start + rs[0].oldLen, size, larger); }
  }

  /** Making the last replacement first does not change what the others give. */
  lemma {:induction false} LastFirst(lines: Lines, front: seq<Replacement>, last: Replacement, from: nat)
    requires last.start + last.oldLen <= |lines| && Disjoint(front, from, last.start)
    requires Disjoint(front + [last], from, |lines|) && Disjoint(front, from, |ApplyOne(lines, last)|)
    ensures Splice(lines, front + [last], from) == Splice(ApplyOne(lines, last), front, from)
    decreases |front|
  {
    if front == [] {
      TailReplaced(lines, last, from);
      assert [last][1..] == [];
      assert front + [last] == [last];
    } else {
      assert (front + [last])[1..] == front[1..] + [last];
      LastFirst(lines, front[1..], last, front[0].start + front[0].oldLen);
      DisjointBound(front, from, last.start);
      HeadKept(lines, last, from, front[0].start);
    }
  }

  lemma DisjointBound(rs: seq<Replacement>, from: nat, size: nat)
    requires Disjoint(rs, from, size)
    ensures from <= size && (rs != [] ==> rs[0].start <= size)
  {
  }

  lemma TailReplaced(lines: Lines, r: Replacement, from: nat)
    requires from <= r.start && r.start + r.oldLen <= |lines|
    ensures ApplyOne(lines, r)[from..] == lines[from..r.start] + r.newLines + lines[r.start + r.oldLen..]
  {
  }

  lemma HeadKept(lines: Lines, r: Replacement, from: nat, to: nat)
    requires from <= to <= r.start <= |lines|
    ensures ApplyOne(lines, r)[from..to] == lines[from..to]
  {
  }

  /** The in-place loop from the back is the simple splice from the left. */
  lemma {:induction false} BackIsSplice(lines: Lines, rs: seq<Replacement>)
    requires Ordered(rs, |lines|) && Disjoint(rs, 0, |lines|)
    ensures ApplyBack(lines, rs) == Splice(lines, rs, 0)
    decreases |rs|
  {
    if rs == [] {
      assert lines[0..] == lines;
    } else {
      var front, last := rs[..|rs|-1], rs[|rs|-1];
      var applied := ApplyOne(lines, last);
      assert rs == front + [last];
      DisjointFront(rs, 0, |lines|);
      DisjointWider(front, 0, last.start, |applied|);
      LastFirst(lines, front, last, 0);
      OrderedLonger(front, last.start, |applied|);
      BackIsSplice(applied, front);
    }
  }

  function Removed(rs: seq<Replacement>): nat { if rs == [] then 0 else rs[0].oldLen + Removed(rs[1..]) }

  function Added(rs: seq<Replacement>): nat { if rs == [] then 0 else |rs[0].newLines| + Added(rs[1..]) }

  lemma {:induction false} SpliceLength(lines: Lines, rs: seq<Replacement>, from: nat)
    requires Disjoint(rs, from, |lines|)
    ensures |Splice(lines, rs, from)| + Removed(rs) == |lines| - from + Added(rs)
    decreases |rs|
  {
    if rs != [] { SpliceLength(lines, rs[1..], rs[0].start + rs[0].oldLen); }
  }

  /** Disjoint replacements are also ordered. */
  lemma {:induction false} DisjointIsOrdered(rs: seq<Replacement>, from: nat, size: nat)
    requires Disjoint(rs, from, size)
    ensures Ordered(rs, size)
    decreases |rs|
  {
    if rs != [] {
      DisjointFront(rs, from, size);
      DisjointIsOrdered(rs[..|rs|-1], from, rs[|rs|-1].start);
    }
  }

  // ---------- when the computed replacements are disjoint ----------

  /** Replacement a was found before b; the stable sort leaves a in front unless b starts earlier. */
  predicate Apart(a: Replacement, b: Replacement) {
    if a.start <= b.start then a.start + a.oldLen <= b.start else b.start + b.oldLen <= a.start
  }

  /** Apart from all of these, found before it. */
  predicate ApartFrom(rs: seq<Replacement>, r: Replacement) { forall x :: x in rs ==> Apart(x, r) }

  predicate AllApart(rs: seq<Replacement>) {
    forall i, j :: 0 <= i < j < |rs| ==> Apart(rs[i], rs[j])
  }

  /** Each ends where a later one starts, or before. */
  predicate Chained(rs: seq<Replacement>) {
    forall i, j :: 0 <= i < j < |rs| ==> rs[i].start + rs[i].oldLen <= rs[j].start
  }

  predicate StartsSorted(rs: seq<Replacement>) {
    forall i, j :: 0 <= i < j < |rs| ==> rs[i].start <= rs[j].start
  }

  lemma {:induction false} DisjointIsChained(rs: seq<Replacement>, from: nat, size: nat)
    requires InBounds(rs, size) && from <= size
    ensures Disjoint(rs, from, size) <==> Chained(rs) && forall i :: 0 <= i < |rs| ==> from <= rs[i].start
    decreases |rs|
  {
    if rs != [] {
      var rest := rs[1..];
      assert rs[0] in rs && InBounds(rest, size);
      DisjointIsChained(rest, rs[0].start + rs[0].oldLen, size);
      assert forall i :: 0 < i < |rs| ==> rs[i] == rest[i - 1];
    }
  }

  /** The stable insertion splits the list at the first element that starts later. */
  lemma {:induction false} InsertedAt(r: Replacement, rs: seq<Replacement>) returns (k: nat)
    requires StartsSorted(rs)
    ensures PutIn(Inserted(r, rs), rs, r, k)
    decreases |rs|
  {
    k := |rs|;
    if rs != [] && r.start < rs[|rs| - 1].start {
      k := InsertedAt(r, rs[..|rs| - 1]);
    }
  }

  /** The list `all` is `rs` with r put in at k, behind everything that does not start later. */
  predicate PutIn(all: seq<Replacement>, rs: seq<Replacement>, r: Replacement, k: nat) {
    && k <= |rs| && |all| == |rs| + 1 && all[k] == r
    && (forall i :: 0 <= i < k ==> all[i] == rs[i] && rs[i].start <= r.start)
    && (forall i :: k < i < |all| ==> all[i] == rs[i - 1] && r.start < rs[i - 1].start)
  }

  lemma PutInSorted(all: seq<Replacement>, rs: seq<Replacement>, r: Replacement, k: nat)
    requires PutIn(all, rs, r, k) && StartsSorted(rs)
    ensures StartsSorted(all)
  {
  }

  lemma PutInChained(all: seq<Replacement>, rs: seq<Replacement>, r: Replacement, k: nat)
    requires PutIn(all, rs, r, k) && Chained(rs) && ApartFrom(rs, r)
    ensures Chained(all)
  {
    assert forall i :: 0 <= i < |rs| ==> rs[i] in rs;
  }

  lemma ChainedTakenOut(all: seq<Replacement>, rs: seq<Replacement>, r: Replacement, k: nat)
    requires PutIn(all, rs, r, k) && Chained(all)
    ensures Chained(rs) && ApartFrom(rs, r)
  {
    forall i | 0 <= i < |rs| ensures Apart(rs[i], r) && rs[i] == all[if i < k then i else i + 1] {
      assert i >= k ==> all[i + 1] == rs[i];
    }
  }

  lemma InsertedChained(r: Replacement, rs: seq<Replacement>)
    requires StartsSorted(rs)
    ensures StartsSorted(Inserted(r, rs))
    ensures Chained(Inserted(r, rs)) <==> Chained(rs) && ApartFrom(rs, r)
  {
    var all := Inserted(r, rs);
    var k := InsertedAt(r, rs);
    PutInSorted(all, rs, r, k);
    if Chained(all) { ChainedTakenOut(all, rs, r, k); }
    if Chained(rs) && ApartFrom(rs, r) { PutInChained(all, rs, r, k); }
  }

  lemma {:induction false} InsertedHas(r: Replacement, rs: seq<Replacement>)
    ensures forall x :: x in Inserted(r, rs) <==> x == r || x in rs
    decreases |rs|
  {
    if rs != [] {
      InsertedHas(r, rs[..|rs| - 1]);
      assert rs == rs[..|rs| - 1] + [rs[|rs| - 1]];
    }
  }

  /** Sorted by start, chained as far as the list it was sorted from is apart, and with its elements. */
  ghost predicate SortOf(sorted: seq<Replacement>, rs: seq<Replacement>) {
    StartsSorted(sorted) && (Chained(sorted) <==> AllApart(rs)) && forall x :: x in sorted <==> x in rs
  }

  lemma SortOfSnoc(sorted: seq<Replacement>, front: seq<Replacement>, last: Replacement)
    requires SortOf(sorted, front)
    ensures SortOf(Inserted(last, sorted), front + [last])
  {
    InsertedChained(last, sorted);
    InsertedHas(last, sorted);
    ApartFromBoth(front, sorted, last);
    AllApartSnoc(front, last);
  }

  /** After the sort, disjointness is a matter of pairs. */
  lemma {:induction false} SortedChained(rs: seq<Replacement>)
    ensures SortOf(SortedByStart(rs), rs)
  {
    if rs != [] {
      var front, last := rs[..|rs| - 1], rs[|rs| - 1];
      SortedChained(front);
      SortOfSnoc(SortedByStart(front), front, last);
      assert rs == front + [last];
    }
  }

  /** Two lists with the same elements are apart from r together. */
  lemma ApartFromBoth(rs: seq<Replacement>, sorted: seq<Replacement>, r: Replacement)
    requires forall x :: x in sorted <==> x in rs
    ensures ApartFrom(sorted, r) <==> ApartFrom(rs, r)
  {
  }

  lemma AllApartSnoc(front: seq<Replacement>, last: Replacement)
    ensures AllApart(front + [last]) <==> AllApart(front) && ApartFrom(front, last)
  {
    var rs := front + [last];
    assert forall i :: 0 <= i < |front| ==> rs[i] == front[i];
    if AllApart(rs) {
      forall i, j | 0 <= i < j < |front| ensures Apart(front[i], front[j]) { assert Apart(rs[i], rs[j]); }
      forall x | x in front ensures Apart(x, last) {
        var i :| 0 <= i < |front| && front[i] == x;
        assert Apart(rs[i], rs[|front|]);
      }
    }
  }

  lemma SortedDisjoint(rs: seq<Replacement>, size: nat)
    requires InBounds(rs, size)
    ensures Disjoint(SortedByStart(rs), 0, size) <==> AllApart(rs)
  {
    SortedChained(rs);
    DisjointIsChained(SortedByStart(rs), 0, size);
  }

  /** An empty replacement at the very end meets no other. */
  predicate AtEnd(lines: Lines, r: Replacement) { r.start == |lines| && r.oldLen == 0 }

  /** Whether one located chunk keeps clear of those before it: they reach up to line `taken`, and `inserted`
      says whether lines go in before a blank last line. */
  predicate KeepsClear(lines: Lines, c: Chunk, r: Replacement, taken: nat, inserted: bool) {
    if c.oldLines == [] then EndsBlank(lines) ==> taken < |lines|
    else taken <= r.start && (inserted ==> |lines| <= r.start + 1 || r.start + r.oldLen < |lines|)
  }

  function NextTaken(lines: Lines, c: Chunk, r: Replacement, taken: nat): nat {
    if c.oldLines == [] || AtEnd(lines, r) then taken else r.start + r.oldLen
  }

  predicate NextInserted(lines: Lines, c: Chunk, inserted: bool) { inserted || (c.oldLines == [] && EndsBlank(lines)) }

  /** All chunks keep clear of those before them, in the order of the patch. */
  predicate NoOverlap(lines: Lines, chunks: seq<Chunk>, cursor: nat, taken: nat, inserted: bool)
    decreases |chunks|
  {
    chunks == [] || Locate(lines, chunks[0], cursor).Err? || (
      var c := chunks[0];
      var (r, next) := Locate(lines, c, cursor).value;
      && KeepsClear(lines, c, r, taken, inserted)
      && NoOverlap(lines, chunks[1..], next, NextTaken(lines, c, r, taken), NextInserted(lines, c, inserted)))
  }

  /** What is known of the replacements collected so far. */
  ghost predicate Summary(lines: Lines, before: seq<Replacement>, taken: nat, inserted: bool) {
    && (inserted ==> EndsBlank(lines) && exists x :: x in before && x.oldLen == 0 && x.start == |lines| - 1)
    && (taken == 0 || exists x :: x in before && x.start + x.oldLen == taken && !AtEnd(lines, x))
    && forall x :: x in before ==> AtEnd(lines, x) || x.start + x.oldLen <= taken
                                   || (inserted && x.oldLen == 0 && x.start == |lines| - 1)
  }

  /** A block is found behind the cursor, unless it is one that ends the file. */
  lemma LocatedBlock(lines: Lines, c: Chunk, cursor: nat)
    requires cursor <= |lines| && Locate(lines, c, cursor).Ok? && c.oldLines != []
    ensures var (r, next) := Locate(lines, c, cursor).value;
      && next == r.start + r.oldLen <= |lines|
      && (cursor <= r.start || (next == |lines| && r.oldLen > 0))
  {
    LocateInBounds(lines, c, cursor);
    if c.context.Some? { SeekBound(lines, [c.context.value], cursor, false); }
    var at := AfterContext(lines, c.context, cursor).value;
    var pattern := if Seek(lines, c.oldLines, at, c.isEndOfFile).Some? then c.oldLines else Front(c.oldLines);
    SeekBound(lines, pattern, at, c.isEndOfFile);
    if c.isEndOfFile && pattern != [] {
      FirstTierBound(TIERS, lines, pattern, SearchStart(lines, pattern, at, true));
    }
  }

  /** A pure insertion leaves the cursor behind its context line. */
  lemma LocatedInsertion(lines: Lines, c: Chunk, cursor: nat)
    requires cursor <= |lines| && Locate(lines, c, cursor).Ok? && c.oldLines == []
    ensures var (r, next) := Locate(lines, c, cursor).value;
      r.start == InsertionIndex(lines) && r.oldLen == 0 && cursor <= next <= |lines|
  {
    if c.context.Some? { SeekBound(lines, [c.context.value], cursor, false); }
  }

  /** The next replacement is apart from all before it exactly if it keeps clear of what is known of them. */
  lemma NextApart(lines: Lines, c: Chunk, r: Replacement, before: seq<Replacement>, taken: nat, inserted: bool)
    requires Summary(lines, before, taken, inserted) && r.start + r.oldLen <= |lines| && InBounds(before, |lines|)
    requires c.oldLines == [] ==> r.start == InsertionIndex(lines) && r.oldLen == 0
    requires c.oldLines != [] ==> taken <= r.start || (r.start + r.oldLen == |lines| && r.oldLen > 0)
    ensures ApartFrom(before, r) <==> KeepsClear(lines, c, r, taken, inserted)
  {
  }

  lemma NextSummary(lines: Lines, c: Chunk, r: Replacement, before: seq<Replacement>, taken: nat, inserted: bool)
    requires Summary(lines, before, taken, inserted) && KeepsClear(lines, c, r, taken, inserted)
    requires c.oldLines == [] ==> r.start == InsertionIndex(lines) && r.oldLen == 0
    ensures Summary(lines, before + [r], NextTaken(lines, c, r, taken), NextInserted(lines, c, inserted))
  {
    assert r in before + [r] && forall x :: x in before ==> x in before + [r];
  }

  lemma {:induction false} CollectExtends(lines: Lines, chunks: seq<Chunk>, cursor: nat, before: seq<Replacement>)
    requires Collect(lines, chunks, cursor, before).Ok?
    ensures before <= Collect(lines, chunks, cursor, before).value
    decreases |chunks|
  {
    if chunks != [] {
      var (r, next) := Locate(lines, chunks[0], cursor).value;
      CollectExtends(lines, chunks[1..], next, before + [r]);
    }
  }

  lemma ClashStays(before: seq<Replacement>, r: Replacement, all: seq<Replacement>)
    requires before + [r] <= all && !ApartFrom(before, r)
    ensures !AllApart(all)
  {
    var x :| x in before && !Apart(x, r);
    var i :| 0 <= i < |before| && before[i] == x;
    assert all[i] == before[i] && all[|before|] == r;
  }

  /** What has been collected, and what is known of it. */
  ghost predicate Collected(lines: Lines, before: seq<Replacement>, cursor: nat, taken: nat, inserted: bool) {
    && taken <= cursor <= |lines| && InBounds(before, |lines|)
    && AllApart(before) && Summary(lines, before, taken, inserted)
  }

  /** One chunk more: it keeps clear and the list stays apart, or it clashes for good. */
  lemma CollectOne(lines: Lines, c: Chunk, cursor: nat, before: seq<Replacement>, taken: nat, inserted: bool)
    requires Collected(lines, before, cursor, taken, inserted) && Locate(lines, c, cursor).Ok?
    ensures var (r, next) := Locate(lines, c, cursor).value;
      if KeepsClear(lines, c, r, taken, inserted)
      then Collected(lines, before + [r], next, NextTaken(lines, c, r, taken), NextInserted(lines, c, inserted))
      else !ApartFrom(before, r)
  {
    var (r, next) := Locate(lines, c, cursor).value;
    if c.oldLines == [] { LocatedInsertion(lines, c, cursor); } else { LocatedBlock(lines, c, cursor); }
    NextApart(lines, c, r, before, taken, inserted);
    if KeepsClear(lines, c, r, taken, inserted) { NextSummary(lines, c, r, before, taken, inserted); }
  }

  lemma {:induction false} CollectApart(lines: Lines, chunks: seq<Chunk>, cursor: nat, before: seq<Replacement>,
                                        taken: nat, inserted: bool)
    requires Collect(lines, chunks, cursor, before).Ok? && Collected(lines, before, cursor, taken, inserted)
    ensures AllApart(Collect(lines, chunks, cursor, before).value)
      <==> NoOverlap(lines, chunks, cursor, taken, inserted)
    decreases |chunks|
  {
    if chunks != [] {
      var c := chunks[0];
      var (r, next) := Locate(lines, c, cursor).value;
      CollectOne(lines, c, cursor, before, taken, inserted);
      if KeepsClear(lines, c, r, taken, inserted) {
        CollectApart(lines, chunks[1..], next, before + [r],
                     NextTaken(lines, c, r, taken), NextInserted(lines, c, inserted));
      } else {
        CollectExtends(lines, chunks[1..], next, before + [r]);
        ClashStays(before, r, Collect(lines, chunks, cursor, before).value);
      }
    }
  }

  /** The computed replacements are disjoint exactly if the chunks keep clear of each other: every block
      starts where the last one ended, or later; no lines are inserted before a blank last line that was
      replaced; and no block after such an insertion reaches over it. */
  lemma ComputedDisjoint(lines: Lines, chunks: seq<Chunk>)
    requires Compute(lines, chunks).Ok?
    ensures Disjoint(Compute(lines, chunks).value, 0, |lines|) <==> NoOverlap(lines, chunks, 0, 0, false)
  {
    CollectInBounds(lines, chunks, 0, []);
    SortedDisjoint(Collect(lines, chunks, 0, []).value, |lines|);
    CollectApart(lines, chunks, 0, [], 0, false);
  }

  /** Then the new lines are the simple splice of the computed replacements. */
  lemma NewLinesSpliced(lines: Lines, chunks: seq<Chunk>)
    requires Compute(lines, chunks).Ok? && NoOverlap(lines, chunks, 0, 0, false)
    ensures Disjoint(Compute(lines, chunks).value, 0, |lines|)
    ensures NewLines(lines, chunks) == Ok(Splice(lines, Compute(lines, chunks).value, 0))
  {
    ComputedDisjoint(lines, chunks);
    ComputedOrdered(lines, chunks);
    BackIsSplice(lines, Compute(lines, chunks).value);
  }

  /** Every end-of-file chunk is found behind its context line. */
  predicate EofInOrder(lines: Lines, chunks: seq<Chunk>, cursor: nat)
    decreases |chunks|
  {
    chunks == [] || Locate(lines, chunks[0], cursor).Err? || (
      var c := chunks[0];
      var (r, next) := Locate(lines, c, cursor).value;
      (c.isEndOfFile && c.oldLines != [] ==> cursor <= r.start) && EofInOrder(lines, chunks[1..], next))
  }

  /** In particular if end-of-file chunks are found behind the cursor, and there are no pure insertions or no
      blank last line. */
  lemma {:induction false} InOrderNoOverlap(lines: Lines, chunks: seq<Chunk>, cursor: nat, taken: nat)
    requires taken <= cursor <= |lines| && EofInOrder(lines, chunks, cursor)
    requires !EndsBlank(lines) || forall c :: c in chunks ==> c.oldLines != []
    ensures NoOverlap(lines, chunks, cursor, taken, false)
    decreases |chunks|
  {
    if chunks != [] && Locate(lines, chunks[0], cursor).Ok? {
      var c := chunks[0];
      var (r, next) := Locate(lines, c, cursor).value;
      assert c in chunks;
      if c.oldLines == [] { LocatedInsertion(lines, c, cursor); } else { LocatedInOrder(lines, c, cursor); }
      InOrderNoOverlap(lines, chunks[1..], next, NextTaken(lines, c, r, taken));
    }
  }

  lemma LocatedInOrder(lines: Lines, c: Chunk, cursor: nat)
    requires cursor <= |lines| && Locate(lines, c, cursor).Ok? && c.oldLines != []
    requires c.isEndOfFile ==> cursor <= Locate(lines, c, cursor).value.0.start
    ensures var (r, next) := Locate(lines, c, cursor).value; cursor <= r.start && next == r.start + r.oldLen <= |lines|
  {
    LocatedBlock(lines, c, cursor);
    if c.context.Some? { SeekBound(lines, [c.context.value], cursor, false); }
    var at := AfterContext(lines, c.context, cursor).value;
    var pattern := if Seek(lines, c.oldLines, at, c.isEndOfFile).Some? then c.oldLines else Front(c.oldLines);
    SeekBound(lines, pattern, at, c.isEndOfFile);
  }

  // ---------- where the conditions matter ----------

  /** An end-of-file chunk ignores the cursor, so it can overlap an earlier one. */
  lemma EofChunkMayOverlap()
    ensures var lines := ["a", "b"];
      var chunks := [Chunk(None, ["a", "b"], ["c"], false), Chunk(None, ["b"], ["d"], true)];
      Compute(lines, chunks).Ok? && !Disjoint(Compute(lines, chunks).value, 0, |lines|)
  {
    var lines := ["a", "b"];
    var c0, c1 := Chunk(None, ["a", "b"], ["c"], false), Chunk(None, ["b"], ["d"], true);
    assert MatchAt(Exact, lines, c0.oldLines, 0);
    assert Locate(lines, c0, 0) == Ok((Replacement(0, 2, ["c"]), 2));
    assert MatchAt(Exact, lines, c1.oldLines, 1);
    assert Locate(lines, c1, 2) == Ok((Replacement(1, 1, ["d"]), 2));
    TwoCollected(lines, c0, c1, Replacement(0, 2, ["c"]), 2, Replacement(1, 1, ["d"]), 2);
  }

  lemma TwoCollected(lines: Lines, c0: Chunk, c1: Chunk, r0: Replacement, at0: nat, r1: Replacement, at1: nat)
    requires Locate(lines, c0, 0) == Ok((r0, at0)) && Locate(lines, c1, at0) == Ok((r1, at1)) && r0.start <= r1.start
    ensures Compute(lines, [c0, c1]) == Ok([r0, r1])
  {
    assert [c0, c1][1..] == [c1] && [c1][1..] == [];
    assert [] + [r0] == [r0] && [r0] + [r1] == [r0, r1];
    assert Collect(lines, [c1], at0, [r0]) == Collect(lines, [], at1, [r0, r1]);
    assert SortedByStart([r0]) == [r0] by { assert [r0][..0] == []; }
    assert [r0, r1][..1] == [r0];
  }

  /** A pure insertion goes before a blank last line, even when an earlier chunk replaced it. */
  lemma InsertionMayOverlap()
    ensures var lines := ["a", ""];
      var chunks := [Chunk(None, ["a", ""], ["c"], false), Chunk(None, [], ["d"], false)];
      Compute(lines, chunks).Ok? && !Disjoint(Compute(lines, chunks).value, 0, |lines|)
  {
    var lines := ["a", ""];
    var c0, c1 := Chunk(None, ["a", ""], ["c"], false), Chunk(None, [], ["d"], false);
    assert MatchAt(Exact, lines, c0.oldLines, 0);
    assert Locate(lines, c0, 0) == Ok((Replacement(0, 2, ["c"]), 2));
    TwoCollected(lines, c0, c1, Replacement(0, 2, ["c"]), 2, Replacement(1, 0, ["d"]), 2);
  }
}
