/** What a reader of the merged configuration may rely on. */
module ConfigProofs {
  import opened Wrappers
  import opened ConfigLayers

  // ---------- reading a tree ----------

  function Get(t: Toml, path: Path): Option<Toml>
    decreases |path|
  {
    if path == [] then Some(t)
    else if t.Table? && path[0] in t.entries then Get(t.entries[path[0]], path[1..])
    else None
  }

  /** A proper prefix of the path holds a value that is not a table. */
  predicate Blocked(t: Toml, path: Path)
    decreases |path|
  {
    path != [] && (!t.Table? || (path[0] in t.entries && Blocked(t.entries[path[0]], path[1..])))
  }

  lemma {:induction false} BlockedExactly(t: Toml, path: Path)
    ensures Blocked(t, path)
      <==> exists n :: 0 <= n < |path| && Get(t, path[..n]).Some? && !Get(t, path[..n]).value.Table?
    decreases |path|
  {
    if path == [] {
    } else if !t.Table? {
      assert Get(t, path[..0]) == Some(t);
    } else {
      forall n | 0 < n < |path| ensures path[..n][1..] == path[1..][..n - 1] && path[..n][0] == path[0] { }
      if path[0] in t.entries {
        var inner := t.entries[path[0]];
        BlockedExactly(inner, path[1..]);
        if n :| 0 <= n < |path| - 1 && Get(inner, path[1..][..n]).Some? && !Get(inner, path[1..][..n]).value.Table? {
          assert Get(t, path[..n + 1]) == Get(inner, path[1..][..n]);
        }
      }
    }
  }

  // ---------- the merge ----------

  lemma MergedTables(base: Toml, overlay: Toml)
    requires base.Table? && overlay.Table?
    ensures Merge(base, overlay).Table? && Merge(base, overlay).entries.Keys == base.entries.Keys + overlay.entries.Keys
    ensures forall k | k in base.entries && k !in overlay.entries :: Merge(base, overlay).entries[k] == base.entries[k]
    ensures forall k | k !in base.entries && k in overlay.entries ::
      Merge(base, overlay).entries[k] == overlay.entries[k]
    ensures forall k | k in base.entries && k in overlay.entries ::
      Merge(base, overlay).entries[k] == Merge(base.entries[k], overlay.entries[k])
  {
    var merged := MergeEntries(base.entries, overlay);
    assert Merge(base, overlay) == Table(merged);
    assert forall k | k in merged :: merged[k] == MergeEntry(base.entries, overlay, k);
  }

  /** Overlay first; a scalar of the overlay on the way hides what the base has below it. */
  lemma {:induction false} MergePath(base: Toml, overlay: Toml, path: Path)
    ensures Get(Merge(base, overlay), path) ==
      match Get(overlay, path)
      case Some(over) => Some(match Get(base, path) case Some(under) => Merge(under, over) case None => over)
      case None => if Blocked(overlay, path) then None else Get(base, path)
    decreases |path|
  {
    if path != [] && base.Table? && overlay.Table? {
      MergedTables(base, overlay);
      if path[0] in base.entries && path[0] in overlay.entries {
        MergePath(base.entries[path[0]], overlay.entries[path[0]], path[1..]);
      }
    }
  }

  lemma {:induction false} MergeIdempotent(t: Toml)
    ensures Merge(t, t) == t
    decreases t
  {
    if t.Table? {
      MergedTables(t, t);
      forall k | k in t.entries ensures Merge(t.entries[k], t.entries[k]) == t.entries[k] {
        MergeIdempotent(t.entries[k]);
      }
      assert Merge(t, t).entries == t.entries;
    }
  }

  /** Every path of `under` is also one of `over`, or hidden by a scalar of it. */
  ghost predicate Covers(over: Toml, under: Toml) {
    forall path :: Get(under, path).Some? ==> Get(over, path).Some? || Blocked(over, path)
  }

  lemma CoversBelow(over: Toml, under: Toml, k: string)
    requires over.Table? && under.Table? && k in under.entries && Covers(over, under)
    ensures k in over.entries && Covers(over.entries[k], under.entries[k])
  {
    assert Get(under, [k]) == Get(under.entries[k], []);
    forall path | Get(under.entries[k], path).Some?
      ensures Get(over.entries[k], path).Some? || Blocked(over.entries[k], path)
    {
      assert ([k] + path)[1..] == path;
      assert Get(under, [k] + path).Some?;
    }
  }

  /** Merging leaves the overlay as it is exactly when it covers the base. */
  lemma {:induction false} MergeAbsorbs(base: Toml, overlay: Toml)
    ensures Merge(base, overlay) == overlay <==> Covers(overlay, base)
    decreases base
  {
    if Merge(base, overlay) == overlay {
      forall path | Get(base, path).Some? ensures Get(overlay, path).Some? || Blocked(overlay, path) {
        MergePath(base, overlay, path);
      }
    }
    if Covers(overlay, base) && base.Table? && overlay.Table? {
      MergedTables(base, overlay);
      forall k | k in base.entries
        ensures k in overlay.entries && Merge(base.entries[k], overlay.entries[k]) == overlay.entries[k]
      {
        CoversBelow(overlay, base, k);
        MergeAbsorbs(base.entries[k], overlay.entries[k]);
      }
      assert Merge(base, overlay).entries == overlay.entries;
    }
  }

  /** At this path the first and last layers hold tables and the one between them something else. */
  predicate Sandwich(a: Toml, b: Toml, c: Toml, path: Path) {
    && Get(a, path).Some? && Get(a, path).value.Table?
    && Get(b, path).Some? && !Get(b, path).value.Table?
    && Get(c, path).Some? && Get(c, path).value.Table?
  }

  ghost predicate SandwichesCovered(a: Toml, b: Toml, c: Toml) {
    forall path :: Sandwich(a, b, c, path) ==> Covers(Get(c, path).value, Get(a, path).value)
  }

  lemma SandwichesBelow(a: Toml, b: Toml, c: Toml)
    requires a.Table? && b.Table? && c.Table?
    ensures SandwichesCovered(a, b, c) <==>
      forall k | k in a.entries && k in b.entries && k in c.entries ::
        SandwichesCovered(a.entries[k], b.entries[k], c.entries[k])
  {
    if SandwichesCovered(a, b, c) {
      forall k, path | k in a.entries && k in b.entries && k in c.entries
        && Sandwich(a.entries[k], b.entries[k], c.entries[k], path)
        ensures Covers(Get(c.entries[k], path).value, Get(a.entries[k], path).value)
      {
        assert ([k] + path)[1..] == path;
        assert Sandwich(a, b, c, [k] + path);
      }
    }
    if forall k | k in a.entries && k in b.entries && k in c.entries ::
      SandwichesCovered(a.entries[k], b.entries[k], c.entries[k]) {
      forall path | Sandwich(a, b, c, path) ensures Covers(Get(c, path).value, Get(a, path).value) {
        assert path != [];
        assert Sandwich(a.entries[path[0]], b.entries[path[0]], c.entries[path[0]], path[1..]);
      }
    }
  }

  /** Merging is associative exactly when, wherever a scalar stands between two tables, the upper table
      covers the lower one. */
  lemma {:induction false} MergeAssociative(a: Toml, b: Toml, c: Toml)
    ensures Merge(Merge(a, b), c) == Merge(a, Merge(b, c)) <==> SandwichesCovered(a, b, c)
    decreases a
  {
    if !c.Table? || !a.Table? {
      NoSandwich(a, b, c);
    } else if !b.Table? {
      MergeAbsorbs(a, c);
      OnlySandwich(a, b, c);
    } else {
      SandwichesBelow(a, b, c);
      var (left, right) := (Merge(Merge(a, b), c), Merge(a, Merge(b, c)));
      MergedTables(a, b);
      MergedTables(b, c);
      MergedTables(Merge(a, b), c);
      MergedTables(a, Merge(b, c));
      assert left.entries.Keys == right.entries.Keys;
      assert left == right <==> left.entries == right.entries;
      forall k | k in left.entries
        ensures k in a.entries && k in b.entries && k in c.entries ==>
          (left.entries[k] == right.entries[k] <==> SandwichesCovered(a.entries[k], b.entries[k], c.entries[k]))
        ensures !(k in a.entries && k in b.entries && k in c.entries) ==> left.entries[k] == right.entries[k]
      {
        if k in a.entries && k in b.entries && k in c.entries {
          MergeAssociative(a.entries[k], b.entries[k], c.entries[k]);
        }
      }
    }
  }

  lemma NoSandwich(a: Toml, b: Toml, c: Toml)
    requires !a.Table? || !c.Table?
    ensures SandwichesCovered(a, b, c)
  {
  }

  lemma OnlySandwich(a: Toml, b: Toml, c: Toml)
    requires a.Table? && !b.Table? && c.Table?
    ensures SandwichesCovered(a, b, c) <==> Covers(c, a)
  {
    assert Sandwich(a, b, c, []);
    assert forall path :: Sandwich(a, b, c, path) ==> path == [];
  }

  // ---------- dotted keys ----------

  function DottedFrom(prefix: string, path: Path): string
    decreases |path|
  {
    if path == [] then prefix else DottedFrom(NextKey(prefix, path[0]), path[1..])
  }

  function Dotted(path: Path): string { DottedFrom("", path) }

  predicate GoodPath(path: Path) {
    forall i :: 0 <= i < |path| ==> path[i] != "" && '.' !in path[i]
  }

  /** Every key of the tree is nonempty and free of dots. */
  ghost predicate GoodTree(t: Toml) {
    forall path :: Get(t, path).Some? ==> GoodPath(path)
  }

  function Tail(path: Path): string {
    if path == [] then "" else "." + path[0] + Tail(path[1..])
  }

  lemma {:induction false} DottedTail(prefix: string, path: Path)
    requires prefix != ""
    ensures DottedFrom(prefix, path) == prefix + Tail(path)
    decreases |path|
  {
    if path != [] {
      DottedTail(NextKey(prefix, path[0]), path[1..]);
    }
  }

  lemma {:induction false} UpToDotExactly(run: string, rest: string)
    requires '.' !in run && (rest == "" || rest[0] == '.')
    ensures UpToDot(run + rest) == run
  {
    if run != "" {
      assert (run + rest)[1..] == run[1..] + rest;
      UpToDotExactly(run[1..], rest);
    } else {
      assert run + rest == rest;
    }
  }

  lemma {:induction false} SegmentsTail(path: Path)
    requires GoodPath(path)
    ensures Segments(Tail(path)) == path
  {
    if path != [] {
      var run := path[0] + Tail(path[1..]);
      assert Tail(path)[1..] == run;
      UpToDotExactly(path[0], Tail(path[1..]));
      assert run[0] == path[0][0] && run[|path[0]|..] == Tail(path[1..]);
      SegmentsTail(path[1..]);
    }
  }

  /** The segments of a key are those before a dot and those behind it; a piece without dots is one segment,
      or none if it is empty. */
  lemma {:induction false} SegmentsExactly(a: string, b: string)
    ensures Segments(a + "." + b) == Segments(a) + Segments(b)
    ensures '.' !in a ==> Segments(a) == if a == "" then [] else [a]
    decreases |a|
  {
    var key := a + "." + b;
    if a == "" {
      assert key[0] == '.' && key[1..] == b && [] + Segments(b) == Segments(b);
    } else if a[0] == '.' {
      assert key[1..] == a[1..] + "." + b;
      SegmentsExactly(a[1..], b);
    } else {
      var run := UpToDot(a);
      var rest := a[|run|..];
      FirstRun(a);
      UpToDotExactly(run, rest + "." + b);
      assert a == run + rest && key == run + (rest + "." + b) && key[|run|..] == rest + "." + b;
      SegmentsExactly(rest, b);
      Assoc([run], Segments(rest), Segments(b));
      assert rest != "" ==> rest[0] in a;
      assert '.' !in a ==> run == a && [a] + Segments("") == [a];
    }
  }

  lemma {:induction false} FirstRun(s: string)
    ensures var run := UpToDot(s); run <= s && (s[|run|..] == "" || s[|run|..][0] == '.')
  {
    if s != "" && s[0] != '.' {
      FirstRun(s[1..]);
      assert s[|UpToDot(s)|..] == s[1..][|UpToDot(s[1..])|..];
    }
  }

  /** A dotted key of nonempty, dot-free segments names its path, and no other. */
  lemma SegmentsOfDotted(path: Path)
    requires GoodPath(path)
    ensures Segments(Dotted(path)) == path
  {
    if path != [] {
      DottedTail(path[0], path[1..]);
      UpToDotExactly(path[0], Tail(path[1..]));
      var key := path[0] + Tail(path[1..]);
      assert key[0] == path[0][0] && key[|path[0]|..] == Tail(path[1..]);
      SegmentsTail(path[1..]);
    }
  }

  // ---------- origins ----------

  /** The path leads, from a value found under `prefix`, to one that is recorded under `key`. */
  predicate Recorded(value: Toml, prefix: string, key: string, path: Path) {
    && Get(value, path).Some? && key == DottedFrom(prefix, path)
    && (path != [] || (prefix != "" && !value.Table?))
  }

  lemma {:induction false} KeysUnderExactly(value: Toml, prefix: string, key: string)
    ensures key in KeysUnder(value, prefix) <==> exists path :: Recorded(value, prefix, key, path)
    decreases value
  {
    if !value.Table? {
      assert forall path :: Get(value, path).Some? ==> path == [];
      assert key in KeysUnder(value, prefix) ==> Recorded(value, prefix, key, []);
      return;
    }
    forall k | k in value.entries
      ensures key in KeysAt(value, prefix, k) <==> exists rest :: Recorded(value, prefix, key, [k] + rest)
    {
      KeysAtExactly(value, prefix, key, k);
    }
    if path :| Recorded(value, prefix, key, path) {
      assert path == [path[0]] + path[1..];
      assert path[0] in value.entries && key in KeysAt(value, prefix, path[0]);
    }
  }

  lemma {:induction false} KeysAtExactly(value: Toml, prefix: string, key: string, k: string)
    requires value.Table? && k in value.entries
    ensures key in KeysAt(value, prefix, k) <==> exists rest :: Recorded(value, prefix, key, [k] + rest)
    decreases value, 0
  {
    var (inner, next) := (value.entries[k], NextKey(prefix, k));
    KeysUnderExactly(inner, next, key);
    forall rest
      ensures Recorded(value, prefix, key, [k] + rest) <==> Get(inner, rest).Some? && key == DottedFrom(next, rest)
    {
      assert ([k] + rest)[1..] == rest;
    }
    if key == next {
      assert Recorded(value, prefix, key, [k] + []);
    }
    if rest :| Recorded(inner, next, key, rest) {
      assert Recorded(value, prefix, key, [k] + rest);
    }
    if rest :| Recorded(value, prefix, key, [k] + rest) {
      assert rest == [] || Recorded(inner, next, key, rest);
    }
  }

  lemma RecordedKey(t: Toml, path: Path)
    requires GoodTree(t) && GoodPath(path) && path != []
    ensures Dotted(path) in KeysUnder(t, "") <==> Get(t, path).Some?
  {
    KeysUnderExactly(t, "", Dotted(path));
    if Get(t, path).Some? {
      assert Recorded(t, "", Dotted(path), path);
    }
    if other :| Recorded(t, "", Dotted(path), other) {
      SegmentsOfDotted(path);
      SegmentsOfDotted(other);
    }
  }

  // ---------- the layers ----------

  /** The last enabled layer that contains the path. */
  function LastWith(layers: seq<Layer>, path: Path): Option<Layer> {
    if layers == [] then None
    else
      var last := layers[|layers| - 1];
      if last.disabled.None? && Get(last.config, path).Some? then Some(last) else LastWith(layers[..|layers| - 1], path)
  }

  /** An enabled layer holds a scalar on the way to the path, and no later one contains the path. */
  predicate Hides(layers: seq<Layer>, i: int, path: Path) {
    && 0 <= i < |layers| && layers[i].disabled.None? && Blocked(layers[i].config, path)
    && forall j :: i < j < |layers| && layers[j].disabled.None? ==> Get(layers[j].config, path).None?
  }

  lemma {:induction false} MergedOverSnoc(base: Toml, layers: seq<Layer>, last: Layer)
    ensures MergedOver(base, layers + [last]) ==
      if last.disabled.None? then Merge(MergedOver(base, layers), last.config) else MergedOver(base, layers)
    decreases |layers|
  {
    if layers == [] {
      var next := if last.disabled.None? then Merge(base, last.config) else base;
      assert ([] + [last])[1..] == [];
      assert MergedOver(next, []) == next;
    } else {
      assert (layers + [last])[1..] == layers[1..] + [last];
      MergedOverSnoc(if layers[0].disabled.None? then Merge(base, layers[0].config) else base, layers[1..], last);
    }
  }

  lemma {:induction false} OriginsOverSnoc(origins: Origins, layers: seq<Layer>, last: Layer)
    ensures OriginsOver(origins, layers + [last]) ==
      if last.disabled.None? then Record(OriginsOver(origins, layers), KeysUnder(last.config, ""), MetaOf(last))
      else OriginsOver(origins, layers)
    decreases |layers|
  {
    if layers == [] {
      var next := if last.disabled.None? then Record(origins, KeysUnder(last.config, ""), MetaOf(last)) else origins;
      assert ([] + [last])[1..] == [];
      assert OriginsOver(next, []) == next;
    } else {
      assert (layers + [last])[1..] == layers[1..] + [last];
      OriginsOverSnoc(
        if layers[0].disabled.None?
        then Record(origins, KeysUnder(layers[0].config, ""), MetaOf(layers[0]))
        else origins,
        layers[1..], last);
    }
  }

  /** The last enabled layer for which the key is recorded, from whatever path. */
  function LastNaming(layers: seq<Layer>, key: string): Option<Layer> {
    if layers == [] then None
    else
      var last := layers[|layers| - 1];
      if last.disabled.None? && key in KeysUnder(last.config, "") then Some(last)
      else LastNaming(layers[..|layers| - 1], key)
  }

  /** For any trees and any key: the index has the key exactly if an enabled layer records it, and then
      names the last one that does. */
  lemma {:induction false} OriginIsLast(layers: seq<Layer>, key: string)
    ensures key in OriginsOf(layers) <==> LastNaming(layers, key).Some?
    ensures LastNaming(layers, key).Some? ==>
      var (origin, layer) := (OriginsOf(layers)[key], LastNaming(layers, key).value);
      origin == MetaOf(layer) && origin.source == layer.source && origin.version == layer.version
    decreases |layers|
  {
    if layers != [] {
      var (init, last) := (layers[..|layers| - 1], layers[|layers| - 1]);
      assert layers == init + [last];
      OriginIsLast(init, key);
      OriginsOverSnoc(map[], init, last);
    }
  }

  /** An enabled layer records the key of the path, from another path, and no later layer contains the path
      or records its key. */
  ghost predicate Misnamed(layers: seq<Layer>, i: int, path: Path) {
    && 0 <= i < |layers| && layers[i].disabled.None? && Get(layers[i].config, path).None?
    && (exists other :: other != path && Recorded(layers[i].config, "", Dotted(path), other))
    && forall j :: i < j < |layers| && layers[j].disabled.None? ==> Dotted(path) !in KeysUnder(layers[j].config, "")
  }

  /** The layer named is the last one containing the path, unless a later one records the same key from
      another path. */
  lemma {:induction false} LastNamingIs(layers: seq<Layer>, path: Path) returns (i: int)
    requires path != []
    ensures LastWith(layers, path).Some? ==> LastNaming(layers, Dotted(path)).Some?
    ensures Misnamed(layers, i, path) ==> LastNaming(layers, Dotted(path)) == Some(layers[i])
    ensures !Misnamed(layers, i, path) ==> LastNaming(layers, Dotted(path)) == LastWith(layers, path)
    decreases |layers|
  {
    i := -1;
    if layers != [] {
      var (init, last, key) := (layers[..|layers| - 1], layers[|layers| - 1], Dotted(path));
      KeysUnderExactly(last.config, "", key);
      if Get(last.config, path).Some? { assert Recorded(last.config, "", key, path); }
      if last.disabled.Some? || key !in KeysUnder(last.config, "") {
        i := LastNamingIs(init, path);
        if Misnamed(init, i, path) { assert Misnamed(layers, i, path); }
      } else if Get(last.config, path).None? {
        i := |layers| - 1;
        assert Misnamed(layers, i, path);
      }
    }
  }

  /** A path has an effective value exactly when some enabled layer contains it and no scalar hides it
      since; unless that value is a table, it is the one the last such layer gives. */
  lemma {:induction false} EffectiveIsLast(layers: seq<Layer>, path: Path)
    requires path != []
    ensures Get(Effective(layers), path).Some? <==> LastWith(layers, path).Some? && !exists i :: Hides(layers, i, path)
    ensures var value := Get(Effective(layers), path);
      value.Some? ==>
        LastWith(layers, path).Some?
        && (value.value.Table? || Get(LastWith(layers, path).value.config, path) == value)
    decreases |layers|
  {
    if layers != [] {
      var (init, last) := (layers[..|layers| - 1], layers[|layers| - 1]);
      assert layers == init + [last];
      EffectiveIsLast(init, path);
      MergedOverSnoc(EMPTY, init, last);
      HidesSnoc(init, last, path);
      if last.disabled.None? {
        MergePath(Effective(init), last.config, path);
        if Blocked(last.config, path) { BlockedMisses(last.config, path); }
      }
    }
  }

  lemma {:induction false} BlockedMisses(t: Toml, path: Path)
    requires Blocked(t, path)
    ensures Get(t, path).None?
    decreases |path|
  {
    if t.Table? { BlockedMisses(t.entries[path[0]], path[1..]); }
  }

  lemma HidesSnoc(layers: seq<Layer>, last: Layer, path: Path)
    ensures (exists i :: Hides(layers + [last], i, path)) <==>
      if last.disabled.Some? then exists i :: Hides(layers, i, path)
      else Blocked(last.config, path) || (Get(last.config, path).None? && exists i :: Hides(layers, i, path))
  {
    var all := layers + [last];
    if i :| Hides(all, i, path) {
      if i < |layers| {
        assert Hides(layers, i, path) by {
          assert forall j :: i < j < |layers| ==> layers[j] == all[j];
        }
        assert all[|layers|] == last;
      }
    }
    if i :| Hides(layers, i, path) && (last.disabled.Some? || Get(last.config, path).None?) {
      assert Hides(all, i, path);
    }
    if last.disabled.None? && Blocked(last.config, path) {
      assert Hides(all, |layers|, path);
    }
  }

  /** The index and the merge, for any trees: an effective value that is not a table is the one the last
      layer to contain the path gives. The index names that layer, or one with the same source and version,
      exactly unless a later layer with others records the key from another path. */
  lemma OriginsAgree(layers: seq<Layer>, path: Path)
    requires path != [] && Get(Effective(layers), path).Some? && !Get(Effective(layers), path).value.Table?
    ensures LastWith(layers, path).Some?
      && Get(LastWith(layers, path).value.config, path) == Get(Effective(layers), path)
    ensures Dotted(path) in OriginsOf(layers)
    ensures OriginsOf(layers)[Dotted(path)] == MetaOf(LastWith(layers, path).value)
      <==> !exists i :: Misnamed(layers, i, path) && MetaOf(layers[i]) != MetaOf(LastWith(layers, path).value)
  {
    EffectiveIsLast(layers, path);
    OriginIsLast(layers, Dotted(path));
    var i := LastNamingIs(layers, path);
    forall k | Misnamed(layers, k, path) ensures LastNaming(layers, Dotted(path)) == Some(layers[k]) {
      MisnamedIsLast(layers, k, path);
    }
  }

  lemma {:induction false} MisnamedIsLast(layers: seq<Layer>, i: int, path: Path)
    requires Misnamed(layers, i, path)
    ensures LastNaming(layers, Dotted(path)) == Some(layers[i])
    decreases |layers|
  {
    KeysUnderExactly(layers[i].config, "", Dotted(path));
    var init := layers[..|layers| - 1];
    if i < |init| {
      assert Misnamed(init, i, path);
      MisnamedIsLast(init, i, path);
    }
  }

  /** Keys that are nonempty and free of dots never mislead. */
  lemma OriginsAgreeDotFree(layers: seq<Layer>, path: Path)
    requires path != [] && GoodPath(path)
    requires forall layer | layer in layers && layer.disabled.None? :: GoodTree(layer.config)
    requires Get(Effective(layers), path).Some? && !Get(Effective(layers), path).value.Table?
    ensures var origin := LastWith(layers, path);
      && origin.Some? && Get(origin.value.config, path) == Get(Effective(layers), path)
      && Dotted(path) in OriginsOf(layers) && OriginsOf(layers)[Dotted(path)] == MetaOf(origin.value)
  {
    OriginsAgree(layers, path);
    forall i ensures !Misnamed(layers, i, path) {
      if Misnamed(layers, i, path) {
        assert layers[i] in layers;
        RecordedKey(layers[i].config, path);
        KeysUnderExactly(layers[i].config, "", Dotted(path));
      }
    }
  }

  /** A key with a dot in it can take the place of a path: the index then names a layer that does not
      contain the path. */
  lemma DottedKeyMisleads()
    ensures var low := Layer("user", "1", Table(map["a" := Table(map["b" := Integer(1)])]), None);
      var high := Layer("flags", "2", Table(map["a.b" := Integer(2)]), None);
      && Get(Effective([low, high]), ["a", "b"]) == Some(Integer(1)) && LastWith([low, high], ["a", "b"]) == Some(low)
      && Dotted(["a", "b"]) in OriginsOf([low, high]) && OriginsOf([low, high])[Dotted(["a", "b"])] == MetaOf(high)
  {
    var low := Layer("user", "1", Table(map["a" := Table(map["b" := Integer(1)])]), None);
    var high := Layer("flags", "2", Table(map["a.b" := Integer(2)]), None);
    var path := ["a", "b"];
    assert path[1..] == ["b"] && ["b"][1..] == [] && Dotted(path) == "a.b";
    var a := low.config.entries["a"];
    assert Get(low.config, path) == Get(a, ["b"]) == Get(Integer(1), []);
    assert [low, high] == [low] + [high] && [low] == [] + [low];
    MergedOverSnoc(EMPTY, [low], high);
    MergedOverSnoc(EMPTY, [], low);
    MergePath(EMPTY, low.config, path);
    MergePath(Effective([low]), high.config, path);
    OriginsOverSnoc(map[], [low], high);
    KeysUnderExactly(high.config, "", "a.b");
    assert Recorded(high.config, "", "a.b", ["a.b"]);
    assert [low, high][..1] == [low];
  }

  // ---------- command-line overrides ----------

  lemma {:induction false} PutGet(t: Toml, path: Path, value: Toml)
    requires path != []
    ensures Blocked(t, path) ==> Put(t, path, value) == t
    ensures !Blocked(t, path) ==> Get(Put(t, path, value), path) == Some(value)
    decreases |path|
  {
    if |path| == 1 {
      assert path[1..] == [];
      assert t.Table? ==> !Blocked(t, path);
      assert !t.Table? ==> Put(t, path, value) == t;
    } else if t.Table? {
      PutGet(if path[0] in t.entries then t.entries[path[0]] else EMPTY, path[1..], value);
      if path[0] in t.entries {
        var inner := t.entries[path[0]];
        assert Blocked(t, path) ==> Put(inner, path[1..], value) == inner;
        assert t.entries[path[0] := inner] == t.entries;
      }
    }
  }

  /** Paths that neither lead to the one set nor below it keep their value. */
  lemma {:induction false} PutElsewhere(t: Toml, path: Path, value: Toml, other: Path)
    requires !(path <= other) && !(other <= path)
    ensures Get(Put(t, path, value), other) == Get(t, other)
    decreases |path|
  {
    if t.Table? && path[0] == other[0] {
      assert path == [path[0]] + path[1..] && other == [other[0]] + other[1..];
      PutElsewhere(if path[0] in t.entries then t.entries[path[0]] else EMPTY, path[1..], value, other[1..]);
    }
  }

  lemma {:induction false} OverridesOverSnoc(t: Toml, overrides: Overrides, last: (string, Toml))
    ensures OverridesOver(t, overrides + [last]) == SetDottedKey(OverridesOver(t, overrides), last.0, last.1)
    decreases |overrides|
  {
    if overrides == [] {
      assert ([] + [last])[1..] == [];
    } else {
      assert (overrides + [last])[1..] == overrides[1..] + [last];
      OverridesOverSnoc(SetDottedKey(t, overrides[0].0, overrides[0].1), overrides[1..], last);
    }
  }

  function Flags(overrides: Overrides): Layer { Layer("flags", "", OverridesOver(EMPTY, overrides), None) }

  /** The last override is the effective value at its key, over every other layer, exactly unless an
      earlier override put a scalar on the way to it. */
  lemma LastOverrideWins(layers: seq<Layer>, overrides: Overrides, key: string, value: Toml)
    requires Segments(key) != [] && !value.Table?
    ensures Get(Effective(layers + [Flags(overrides + [(key, value)])]), Segments(key)) == Some(value)
      <==> !Blocked(OverridesOver(EMPTY, overrides), Segments(key))
  {
    var (path, flags) := (Segments(key), Flags(overrides + [(key, value)]));
    MergedOverSnoc(EMPTY, layers, flags);
    OverridesOverSnoc(EMPTY, overrides, (key, value));
    PutGet(OverridesOver(EMPTY, overrides), path, value);
    MergePath(Effective(layers), flags.config, path);
    if Blocked(OverridesOver(EMPTY, overrides), path) {
      BlockedMisses(flags.config, path);
    }
  }
}
