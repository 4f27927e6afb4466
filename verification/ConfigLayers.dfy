/** Layered configuration: the merge of TOML trees, the index of which layer each key came from, and the
    layer built from command-line overrides. */
module ConfigLayers {
  import opened Wrappers

  datatype Toml =
    | Table(entries: map<string, Toml>)
    | Array(items: seq<Toml>)
    | Text(text: string) | Integer(number: int) | Boolean(truth: bool) | Other(literal: string)

  /** `version` identifies the layer's content. */
  datatype Layer = Layer(source: string, version: string, config: Toml, disabled: Option<string>)

  datatype Meta = Meta(source: string, version: string)

  type Path = seq<string>
  type Origins = map<string, Meta>

  const EMPTY := Table(map[])

  function MetaOf(layer: Layer): Meta { Meta(layer.source, layer.version) }

  // ---------- merging ----------

  function Merge(base: Toml, overlay: Toml): Toml
    decreases overlay
  {
    if base.Table? && overlay.Table? then Table(MergeEntries(base.entries, overlay)) else overlay
  }

  function MergeEntries(base: map<string, Toml>, overlay: Toml): map<string, Toml>
    requires overlay.Table?
    decreases overlay, 1
  {
    map k | k in base.Keys + overlay.entries.Keys :: MergeEntry(base, overlay, k)
  }

  function MergeEntry(base: map<string, Toml>, overlay: Toml, k: string): Toml
    requires overlay.Table? && k in base.Keys + overlay.entries.Keys
    decreases overlay, 0
  {
    if k !in overlay.entries then base[k]
    else if k in base then Merge(base[k], overlay.entries[k])
    else overlay.entries[k]
  }

  /** All keys of the overlay but `keys` have been merged into `entries`. */
  ghost predicate MergedExcept(entries: map<string, Toml>, base: map<string, Toml>, overlay: Toml, keys: set<string>)
    requires overlay.Table? && keys <= overlay.entries.Keys
  {
    && entries.Keys == base.Keys + (overlay.entries.Keys - keys)
    && forall k | k in entries :: entries[k] == if k in keys then base[k] else MergeEntry(base, overlay, k)
  }

  lemma MergedMore(entries: map<string, Toml>, base: map<string, Toml>, overlay: Toml, keys: set<string>, k: string)
    requires overlay.Table? && k in keys && keys <= overlay.entries.Keys && MergedExcept(entries, base, overlay, keys)
    ensures k in entries <==> k in base
    ensures k in entries ==> entries[k] == base[k]
    ensures MergedExcept(entries[k := MergeEntry(base, overlay, k)], base, overlay, keys - {k})
  {
  }

  method MergeTomlValues(base: Toml, overlay: Toml) returns (merged: Toml)
    ensures merged == Merge(base, overlay)
    decreases overlay
  {
    if !base.Table? || !overlay.Table? {
      return overlay;
    }
    var entries, keys := base.entries, overlay.entries.Keys;
    while keys != {}
      invariant keys <= overlay.entries.Keys && MergedExcept(entries, base.entries, overlay, keys)
      decreases |keys|
    {
      var k :| k in keys;
      MergedMore(entries, base.entries, overlay, keys, k);
      if k in entries {
        var inner := MergeTomlValues(entries[k], overlay.entries[k]);
        entries := entries[k := inner];
      } else {
        entries := entries[k := overlay.entries[k]];
      }
      keys := keys - {k};
    }
    assert entries == MergeEntries(base.entries, overlay);
    merged := Table(entries);
  }

  /** The enabled layers merged over `base`, lowest first. */
  function MergedOver(base: Toml, layers: seq<Layer>): Toml
    decreases |layers|
  {
    if layers == [] then base
    else MergedOver(if layers[0].disabled.None? then Merge(base, layers[0].config) else base, layers[1..])
  }

  function Effective(layers: seq<Layer>): Toml { MergedOver(EMPTY, layers) }

  method EffectiveConfig(layers: seq<Layer>) returns (merged: Toml)
    ensures merged == Effective(layers)
  {
    merged := Table(map[]);
    for i := 0 to |layers|
      invariant MergedOver(merged, layers[i..]) == Effective(layers)
    {
      if layers[i].disabled.None? {
        merged := MergeTomlValues(merged, layers[i].config);
      }
    }
  }

  // ---------- origins ----------

  function NextKey(prefix: string, k: string): string { if prefix == "" then k else prefix + "." + k }

  /** The keys recorded for a value found under `prefix`. */
  function KeysUnder(value: Toml, prefix: string): set<string>
    decreases value, 1, 0
  {
    match value
    case Table(entries) =>
      KeysFor(value, prefix, entries.Keys)
    case _ => if prefix == "" then {} else {prefix}
  }

  function KeysFor(value: Toml, prefix: string, keys: set<string>): set<string>
    requires value.Table? && keys <= value.entries.Keys
    decreases value, 0, 1
  {
    set k, key | k in keys && key in KeysAt(value, prefix, k) :: key
  }

  function KeysAt(value: Toml, prefix: string, k: string): set<string>
    requires value.Table? && k in value.entries
    decreases value, 0, 0
  {
    {NextKey(prefix, k)} + KeysUnder(value.entries[k], NextKey(prefix, k))
  }

  function Record(origins: Origins, keys: set<string>, meta: Meta): Origins {
    map key | key in origins.Keys + keys :: if key in keys then meta else origins[key]
  }

  /** All keys of the table but `keys` have been recorded, with all below them. */
  ghost predicate RecordedExcept(origins: Origins, updated: Origins, value: Toml, prefix: string,
                                       keys: set<string>, meta: Meta)
    requires value.Table?
  {
    updated == Record(origins, KeysFor(value, prefix, value.entries.Keys - keys), meta)
  }

  lemma RecordedMore(origins: Origins, before: Origins, after: Origins, value: Toml, prefix: string,
                     keys: set<string>, k: string, meta: Meta)
    requires value.Table? && k in keys && keys <= value.entries.Keys
      && RecordedExcept(origins, before, value, prefix, keys, meta)
    requires var next := NextKey(prefix, k);
      after == Record(before[next := meta], KeysUnder(value.entries[k], next), meta)
    ensures RecordedExcept(origins, after, value, prefix, keys - {k}, meta)
  {
    var seen, next := KeysFor(value, prefix, value.entries.Keys - keys), NextKey(prefix, k);
    SeenMore(value, prefix, keys, k);
    RecordTwice(origins, before, seen, next, KeysUnder(value.entries[k], next), meta);
  }

  lemma RecordTwice(origins: Origins, before: Origins, seen: set<string>, next: string, keys: set<string>, meta: Meta)
    requires before == Record(origins, seen, meta)
    ensures Record(before[next := meta], keys, meta) == Record(origins, seen + ({next} + keys), meta)
  {
  }

  lemma SeenMore(value: Toml, prefix: string, keys: set<string>, k: string)
    requires value.Table? && k in keys && keys <= value.entries.Keys
    ensures KeysFor(value, prefix, value.entries.Keys - (keys - {k})) ==
      KeysFor(value, prefix, value.entries.Keys - keys) + KeysAt(value, prefix, k)
  {
    assert value.entries.Keys - (keys - {k}) == value.entries.Keys - keys + {k};
  }

  lemma RecordedNone(origins: Origins, value: Toml, prefix: string, meta: Meta)
    requires value.Table?
    ensures RecordedExcept(origins, origins, value, prefix, value.entries.Keys, meta)
  {
    assert KeysFor(value, prefix, value.entries.Keys - value.entries.Keys) == {};
  }

  lemma RecordedAll(origins: Origins, updated: Origins, value: Toml, prefix: string, meta: Meta)
    requires value.Table? && RecordedExcept(origins, updated, value, prefix, {}, meta)
    ensures updated == Record(origins, KeysUnder(value, prefix), meta)
  {
    assert value.entries.Keys - {} == value.entries.Keys;
  }

  lemma RecordLeaf(origins: Origins, prefix: string, meta: Meta)
    ensures Record(origins, {}, meta) == origins && Record(origins, {prefix}, meta) == origins[prefix := meta]
  {
  }

  method UpdateOriginsForValue(origins: Origins, value: Toml, prefix: string, meta: Meta) returns (updated: Origins)
    ensures updated == Record(origins, KeysUnder(value, prefix), meta)
    decreases value
  {
    updated := origins;
    match value {
      case Table(entries) =>
        var keys := entries.Keys;
        RecordedNone(origins, value, prefix, meta);
        while keys != {}
          invariant keys <= entries.Keys
          invariant RecordedExcept(origins, updated, value, prefix, keys, meta)
          decreases |keys|
        {
          var k :| k in keys;
          var next := NextKey(prefix, k);
          ghost var before := updated;
          updated := updated[next := meta];
          updated := UpdateOriginsForValue(updated, entries[k], next, meta);
          RecordedMore(origins, before, updated, value, prefix, keys, k, meta);
          keys := keys - {k};
        }
        RecordedAll(origins, updated, value, prefix, meta);
      case _ =>
        RecordLeaf(origins, prefix, meta);
        if prefix != "" {
          updated := updated[prefix := meta];
        }
    }
  }

  function OriginsOver(origins: Origins, layers: seq<Layer>): Origins
    decreases |layers|
  {
    if layers == [] then origins
    else OriginsOver(
      if layers[0].disabled.None? then Record(origins, KeysUnder(layers[0].config, ""), MetaOf(layers[0])) else origins,
      layers[1..])
  }

  function OriginsOf(layers: seq<Layer>): Origins { OriginsOver(map[], layers) }

  method ComputeOrigins(layers: seq<Layer>) returns (origins: Origins)
    ensures origins == OriginsOf(layers)
  {
    origins := map[];
    for i := 0 to |layers|
      invariant OriginsOver(origins, layers[i..]) == OriginsOf(layers)
    {
      if layers[i].disabled.None? {
        origins := UpdateOriginsForValue(origins, layers[i].config, "", MetaOf(layers[i]));
      }
    }
  }

  // ---------- command-line overrides ----------

  function UpToDot(s: string): (run: string)
    ensures run <= s && '.' !in run && (s != "" && s[0] != '.' ==> run != "")
  {
    if s == "" || s[0] == '.' then "" else [s[0]] + UpToDot(s[1..])
  }

  /** The nonempty pieces between dots. */
  function Segments(dotted: string): Path
    decreases |dotted|
  {
    if dotted == "" then []
    else if dotted[0] == '.' then Segments(dotted[1..])
    else var run := UpToDot(dotted); [run] + Segments(dotted[|run|..])
  }

  /** Sets the value at a path, creating the tables on the way; a value on the way that is not a table
      stops it. */
  function Put(t: Toml, path: Path, value: Toml): Toml
    decreases |path|
  {
    if path == [] || !t.Table? then t
    else if |path| == 1 then Table(t.entries[path[0] := value])
    else
      var inner := if path[0] in t.entries then t.entries[path[0]] else EMPTY;
      Table(t.entries[path[0] := Put(inner, path[1..], value)])
  }

  function SetDottedKey(t: Toml, dotted: string, value: Toml): Toml { Put(t, Segments(dotted), value) }

  type Overrides = seq<(string, Toml)>

  function OverridesOver(t: Toml, overrides: Overrides): Toml
    decreases |overrides|
  {
    if overrides == [] then t
    else OverridesOver(SetDottedKey(t, overrides[0].0, overrides[0].1), overrides[1..])
  }

  method BuildCliOverridesLayer(overrides: Overrides) returns (root: Toml)
    ensures root == OverridesOver(EMPTY, overrides)
  {
    root := Table(map[]);
    for i := 0 to |overrides|
      invariant OverridesOver(root, overrides[i..]) == OverridesOver(EMPTY, overrides)
    {
      root := SetDottedKey(root, overrides[i].0, overrides[i].1);
    }
  }
}
