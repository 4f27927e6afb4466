/** What each tier of the search takes as equal, said without trimming or folding anything. */
module PatchTiers {
  import opened Wrappers
  import opened Text
  import opened PatchParser
  import opened PatchApply

  // ---------- what the tiers mean ----------

  /** Equal but for white space at the end. */
  ghost predicate SameButEnd(a: string, b: string) {
    exists core, x, y :: a == core + x && b == core + y && Blank(x) && Blank(y)
  }

  /** The lines with the white space around them taken off. */
  ghost predicate Around(a: string, before: string, core: string, after: string) {
    a == before + core + after && Blank(before) && Blank(after)
  }

  ghost predicate Encloses(a: string, core: string) { exists before, after :: Around(a, before, core, after) }

  /** Equal but for white space around them. */
  ghost predicate SameButEnds(a: string, b: string) { exists core :: Encloses(a, core) && Encloses(b, core) }

  predicate Dash(c: char) {
    c in {'-', '\U{2010}', '\U{2011}', '\U{2012}', '\U{2013}', '\U{2014}', '\U{2015}', '\U{2212}'}
  }

  predicate SingleQuote(c: char) { c in {'\'', '\U{2018}', '\U{2019}', '\U{201A}', '\U{201B}'} }

  predicate DoubleQuote(c: char) { c in {'"', '\U{201C}', '\U{201D}', '\U{201E}', '\U{201F}'} }

  predicate WideBlank(c: char) {
    c in {' ', '\U{A0}', '\U{2002}', '\U{2003}', '\U{2004}', '\U{2005}', '\U{2006}', '\U{2007}', '\U{2008}',
          '\U{2009}', '\U{200A}', '\U{202F}', '\U{205F}', '\U{3000}'}
  }

  /** The same character, or two dashes, two quotes of a kind, or two blanks. */
  predicate Alike(c: char, d: char) {
    c == d || (Dash(c) && Dash(d)) || (SingleQuote(c) && SingleQuote(d)) || (DoubleQuote(c) && DoubleQuote(d))
    || (WideBlank(c) && WideBlank(d))
  }

  predicate AllAlike(a: string, b: string) { |a| == |b| && forall i :: 0 <= i < |a| ==> Alike(a[i], b[i]) }

  /** Alike, character by character, but for white space around them. */
  ghost predicate SameButStyle(a: string, b: string) {
    exists p, q :: Encloses(a, p) && Encloses(b, q) && AllAlike(p, q)
  }

  ghost predicate Same(tier: Tier, a: string, b: string) {
    match tier
    case Exact => a == b
    case TrailingBlanks => SameButEnd(a, b)
    case OuterBlanks => SameButEnds(a, b)
    case Punctuation => SameButStyle(a, b)
  }

  // ---------- trimming ----------

  lemma {:induction false} TrimStartIgnores(blanks: string, s: string)
    requires Blank(blanks)
    ensures TrimStart(blanks + s) == TrimStart(s)
  {
    if blanks == "" {
      assert blanks + s == s;
    } else {
      assert (blanks + s)[1..] == blanks[1..] + s;
      TrimStartIgnores(blanks[1..], s);
    }
  }

  lemma {:induction false} BlankTrimmed(s: string)
    requires Blank(s)
    ensures TrimEnd(s) == ""
  {
    if s != "" { BlankTrimmed(s[..|s| - 1]); }
  }

  lemma {:induction false} TrimEndKeeps(before: string, s: string)
    requires TrimEnd(s) != ""
    ensures TrimEnd(before + s) == before + TrimEnd(s)
    decreases |s|
  {
    if IsSpace(s[|s| - 1]) {
      assert (before + s)[..|before + s| - 1] == before + s[..|s| - 1];
      TrimEndKeeps(before, s[..|s| - 1]);
    }
  }

  lemma {:induction false} EndlessBlank(s: string)
    requires TrimEnd(s) == ""
    ensures Blank(s)
  {
    if s != "" {
      EndlessBlank(s[..|s| - 1]);
      assert s == s[..|s| - 1] + [s[|s| - 1]];
    }
  }

  /** Trimming does not see the white space around a text. */
  lemma TrimIgnores(before: string, s: string, after: string)
    requires Blank(before) && Blank(after)
    ensures Trim(before + s + after) == Trim(s)
  {
    TrimEndBlanks(before + s, after);
    if TrimEnd(s) != "" {
      TrimEndKeeps(before, s);
      TrimStartIgnores(before, TrimEnd(s));
    } else {
      EndlessBlank(s);
      BlankTrimmed(before + s);
    }
  }

  lemma TrimEncloses(s: string)
    ensures Encloses(s, Trim(s))
  {
    var before, after := TrimExactly(s);
    assert Around(s, before, Trim(s), after);
  }

  lemma EnclosedTrims(s: string, core: string)
    requires Encloses(s, core)
    ensures Trim(s) == Trim(core)
  {
    var before, after :| Around(s, before, core, after);
    TrimIgnores(before, core, after);
  }

  lemma SameEnds(a: string, b: string)
    ensures TrimEnd(a) == TrimEnd(b) <==> SameButEnd(a, b)
  {
    var x := TrimEndExactly(a);
    var y := TrimEndExactly(b);
    if TrimEnd(a) == TrimEnd(b) { assert a == TrimEnd(a) + x && b == TrimEnd(a) + y; }
    if SameButEnd(a, b) {
      var core, u, v :| a == core + u && b == core + v && Blank(u) && Blank(v);
      TrimEndBlanks(core, u);
      TrimEndBlanks(core, v);
    }
  }

  lemma SameOuter(a: string, b: string)
    ensures Trim(a) == Trim(b) <==> SameButEnds(a, b)
  {
    TrimEncloses(a);
    TrimEncloses(b);
    if SameButEnds(a, b) {
      var core :| Encloses(a, core) && Encloses(b, core);
      EnclosedTrims(a, core);
      EnclosedTrims(b, core);
    }
  }

  // ---------- folding ----------

  /** Folding makes two characters equal exactly if they are alike, and keeps white space apart from the rest. */
  lemma AsciiExactly(c: char, d: char)
    ensures Ascii(c) == Ascii(d) <==> Alike(c, d)
    ensures Alike(c, d) ==> (IsSpace(c) <==> IsSpace(d))
  {
    FoldedTo(c);
    FoldedTo(d);
  }

  lemma FoldedTo(c: char)
    ensures Ascii(c) == if Dash(c) then '-' else if SingleQuote(c) then '\'' else if DoubleQuote(c) then '"'
                        else if WideBlank(c) then ' ' else c
    ensures WideBlank(c) ==> IsSpace(c)
    ensures Dash(c) || SingleQuote(c) || DoubleQuote(c) ==> !IsSpace(c)
  {
  }

  lemma {:induction false} TrimStartAlike(a: string, b: string)
    requires AllAlike(a, b)
    ensures AllAlike(TrimStart(a), TrimStart(b))
  {
    if a != "" {
      AsciiExactly(a[0], b[0]);
      assert Alike(a[0], b[0]);
      if IsSpace(a[0]) { TrimStartAlike(a[1..], b[1..]); }
    }
  }

  lemma {:induction false} TrimEndAlike(a: string, b: string)
    requires AllAlike(a, b)
    ensures AllAlike(TrimEnd(a), TrimEnd(b))
  {
    if a != "" {
      var last := |a| - 1;
      AsciiExactly(a[last], b[last]);
      assert Alike(a[last], b[last]);
      if IsSpace(a[last]) { TrimEndAlike(a[..last], b[..last]); }
    }
  }

  lemma NormalisedAlike(a: string, b: string)
    ensures Normalised(a) == Normalised(b) <==> AllAlike(Trim(a), Trim(b))
  {
    var p, q := Trim(a), Trim(b);
    if |p| == |q| {
      forall i | 0 <= i < |p| ensures Ascii(p[i]) == Ascii(q[i]) <==> Alike(p[i], q[i]) { AsciiExactly(p[i], q[i]); }
      assert forall i :: 0 <= i < |p| ==> Normalised(a)[i] == Ascii(p[i]) && Normalised(b)[i] == Ascii(q[i]);
    }
  }

  lemma SameStyle(a: string, b: string)
    ensures Normalised(a) == Normalised(b) <==> SameButStyle(a, b)
  {
    NormalisedAlike(a, b);
    TrimEncloses(a);
    TrimEncloses(b);
    if SameButStyle(a, b) {
      var p, q :| Encloses(a, p) && Encloses(b, q) && AllAlike(p, q);
      EnclosedTrims(a, p);
      EnclosedTrims(b, q);
      TrimEndAlike(p, q);
      TrimStartAlike(TrimEnd(p), TrimEnd(q));
    }
  }

  /** Two lines compare equal under a tier exactly if they are equal, but for white space at the end, but for
      white space around them, or but for that and the style of dashes, quotes and blanks. */
  lemma TierMeans(tier: Tier, a: string, b: string)
    ensures Key(tier, a) == Key(tier, b) <==> Same(tier, a, b)
  {
    match tier
    case Exact =>
    case TrailingBlanks => SameEnds(a, b);
    case OuterBlanks => SameOuter(a, b);
    case Punctuation => SameStyle(a, b);
  }
}
