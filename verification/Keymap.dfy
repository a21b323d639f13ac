/**
 Keyboard mappings in scripts/solaros_keymap.py: a profile's two layers, the sparse document that describes changes to
 them, and the merge that applies it.
 */
module Keymap {
  import opened Wrappers
  import opened Arith
  import opened Overlays

  /** The names that a JSON object can use. */
  datatype Field = Usage | Key | ShiftKey | Raw | LayerTap | AltBlock | Physical | Row | Col | Unknown(name: string)

  /** A JSON value; Other is anything that is neither a number nor a boolean. */
  datatype Value = Number(v: real) | Flag(b: bool) | Other

  type Entry = map<Field, Value>

  type Layer = map<nat, Entry>

  const OUTPUT_FIELDS: set<Field> := {Usage, Key, ShiftKey, Raw, LayerTap, AltBlock}
  const ENTRY_FIELDS: set<Field> := OUTPUT_FIELDS + {Physical, Row, Col}

  // ---------------------------------------------------------------- fields

  /** `integer`: a whole number in range. */
  function Integer(v: Value, maximum: nat): (r: Option<nat>) {
    if v.Number? && 0.0 <= v.v <= maximum as real && v.v.Floor as real == v.v then Some(v.v.Floor) else None
  }

  /** The numbers that pass are the whole ones up to the bound, and they are what they say. */
  lemma IntegerMeans(v: Value, maximum: nat, n: nat)
    ensures Integer(v, maximum) == Some(n) <==> v == Number(n as real) && n <= maximum
  {
  }

  function NumberOf(e: Entry, f: Field, maximum: nat): Option<nat> {
    if f in e then Integer(e[f], maximum) else Some(0)
  }

  predicate FlagOk(e: Entry, f: Field) {
    f in e ==> e[f].Flag?
  }

  predicate IsSet(e: Entry, f: Field) {
    f in e && e[f] == Flag(true)
  }

  /** The combinations that `output` admits. */
  predicate Sensible(usage: nat, key: nat, shift: nat, raw: bool, tap: bool, alt: bool) {
    && (usage == 0 || 4 <= usage <= 0xA4 || 0xE0 <= usage <= 0xE7)
    && !(raw && tap) && !(raw && alt) && !(tap && alt)
    && (raw ==> usage == 0 && key == 0 && shift == 0)
    && (tap ==> usage < 0xE0 && usage != 0x39)
  }

  /** An output without its zeros and falses. */
  function Normal(usage: nat, key: nat, shift: nat, raw: bool, tap: bool, alt: bool): Entry {
    map f: Field |
      f in OUTPUT_FIELDS && Present(f, usage, key, shift, raw, tap, alt) ::
      if f == Usage then Number(usage as real) else if f == Key then Number(key as real)
      else if f == ShiftKey then Number(shift as real) else Flag(true)
  }

  predicate Present(f: Field, usage: nat, key: nat, shift: nat, raw: bool, tap: bool, alt: bool) {
    match f
    case Usage => usage != 0
    case Key => key != 0
    case ShiftKey => shift != 0
    case Raw => raw
    case LayerTap => tap
    case AltBlock => alt
    case _ => false
  }

  /** `output`: the normalised output of an entry; None where it raises. */
  function Output(e: Entry): (r: Option<Entry>) {
    var usage, key, shift := NumberOf(e, Usage, 0xE7), NumberOf(e, Key, 255), NumberOf(e, ShiftKey, 255);
    if usage.None? || key.None? || shift.None? then None
    else if !FlagOk(e, Raw) || !FlagOk(e, LayerTap) || !FlagOk(e, AltBlock) then None
    else
      var raw, tap, alt := IsSet(e, Raw), IsSet(e, LayerTap), IsSet(e, AltBlock);
      if Sensible(usage.value, key.value, shift.value, raw, tap, alt)
      then Some(Normal(usage.value, key.value, shift.value, raw, tap, alt))
      else None
  }

  /** Exactly what `output` returns. */
  predicate Normalized(e: Entry) {
    Output(e) == Some(e)
  }

  /** Normalising twice changes nothing. */
  lemma OutputIdempotent(e: Entry)
    requires Output(e).Some?
    ensures Normalized(Output(e).value) && Output(e).value.Keys <= OUTPUT_FIELDS
  {
    var r := Output(e).value;
    assert NumberOf(r, Usage, 0xE7) == NumberOf(e, Usage, 0xE7);
    assert NumberOf(r, Key, 255) == NumberOf(e, Key, 255) && NumberOf(r, ShiftKey, 255) == NumberOf(e, ShiftKey, 255);
  }

  /** Fields that are no output do not matter to `output`. */
  lemma OutputIgnores(e: Entry, f: Field, v: Value)
    requires f !in OUTPUT_FIELDS
    ensures Output(e[f := v]) == Output(e)
  {
  }

  /** A field of a number or of a flag that says nothing. */
  predicate Silent(v: Value) {
    v == Number(0.0) || v == Flag(false)
  }

  /** The output is the entry without its other fields and without those that say nothing. */
  lemma OutputMeans(e: Entry, f: Field)
    requires Output(e).Some?
    ensures f in Output(e).value <==> f in {Usage, Key, ShiftKey, Raw, LayerTap, AltBlock} && f in e && !Silent(e[f])
    ensures f in Output(e).value ==> Output(e).value[f] == e[f]
  {
    if f in e {
      IntegerMeans(e[f], 255, if e[f].Number? && e[f].v >= 0.0 then e[f].v.Floor else 0);
    }
  }

  /** The number that a field holds; a missing one reads as 0. */
  predicate Holds(e: Entry, f: Field, n: nat) {
    if f in e then e[f] == Number(n as real) else n == 0
  }

  predicate Says(e: Entry, f: Field) {
    f in e && e[f] == Flag(true)
  }

  predicate FlagFields(e: Entry) {
    && (Raw in e ==> e[Raw].Flag?) && (LayerTap in e ==> e[LayerTap].Flag?) && (AltBlock in e ==> e[AltBlock].Flag?)
  }

  /**
   What `output` takes: a keyboard usage or none, two characters up to 255, at most one of the three flags; raw goes
   with no output at all, and the selector with no modifier and not with Caps Lock.
   */
  lemma OutputTakes(e: Entry, usage: nat, key: nat, shift: nat)
    requires Holds(e, Usage, usage) && Holds(e, Key, key) && Holds(e, ShiftKey, shift) && FlagFields(e)
    ensures Output(e).Some? <==>
              && key <= 255 && shift <= 255 && (usage == 0 || 4 <= usage <= 164 || 224 <= usage <= 231)
              && !(Says(e, Raw) && Says(e, LayerTap)) && !(Says(e, Raw) && Says(e, AltBlock))
              && !(Says(e, LayerTap) && Says(e, AltBlock))
              && (Says(e, Raw) ==> usage == 0 && key == 0 && shift == 0)
              && (Says(e, LayerTap) ==> usage < 224 && usage != 57)
  {
    IntegerMeans(Number(usage as real), 0xE7, usage);
    IntegerMeans(Number(key as real), 255, key);
    IntegerMeans(Number(shift as real), 255, shift);
  }

  /** Everything else is refused. */
  lemma OutputRefuses(e: Entry)
    requires Output(e).Some?
    ensures FlagFields(e)
    ensures exists usage, key, shift :: Holds(e, Usage, usage) && Holds(e, Key, key) && Holds(e, ShiftKey, shift)
  {
    var usage, key, shift := NumberOf(e, Usage, 0xE7).value, NumberOf(e, Key, 255).value,
        NumberOf(e, ShiftKey, 255).value;
    if Usage in e { IntegerMeans(e[Usage], 0xE7, usage); }
    if Key in e { IntegerMeans(e[Key], 255, key); }
    if ShiftKey in e { IntegerMeans(e[ShiftKey], 255, shift); }
    assert Holds(e, Usage, usage) && Holds(e, Key, key) && Holds(e, ShiftKey, shift);
  }

  /** The loop bodies of `output`, field by field. */
  method PutNumber(e: Entry, f: Field, maximum: nat, result: Entry) returns (r: Option<Entry>, value: nat)
    ensures r.None? <==> NumberOf(e, f, maximum).None?
    ensures r.Some? ==> NumberOf(e, f, maximum) == Some(value)
                        && r.value == if value != 0 then result[f := Number(value as real)] else result
  {
    var n := NumberOf(e, f, maximum);
    if n.None? {
      return None, 0;
    }
    value := n.value;
    r := Some(if value != 0 then result[f := Number(value as real)] else result);
  }

  method PutFlag(e: Entry, f: Field, result: Entry) returns (r: Option<Entry>)
    ensures r == if !FlagOk(e, f) then None else Some(if IsSet(e, f) then result[f := Flag(true)] else result)
  {
    if f in e && !e[f].Flag? {
      return None;
    }
    return Some(if f in e && e[f].b then result[f := Flag(true)] else result);
  }

  method PutNumbers(e: Entry) returns (r: Option<Entry>, usage: nat, key: nat, shift: nat)
    ensures r.Some?
            <==> NumberOf(e, Usage, 0xE7).Some? && NumberOf(e, Key, 255).Some? && NumberOf(e, ShiftKey, 255).Some?
    ensures r.Some? ==> NumberOf(e, Usage, 0xE7) == Some(usage) && NumberOf(e, Key, 255) == Some(key)
                        && NumberOf(e, ShiftKey, 255) == Some(shift)
    ensures r.Some? ==> r.value == Normal(usage, key, shift, false, false, false)
  {
    usage, key, shift := 0, 0, 0;
    r, usage := PutNumber(e, Usage, 0xE7, map[]);
    if r.None? { return; }
    r, key := PutNumber(e, Key, 255, r.value);
    if r.None? { return; }
    r, shift := PutNumber(e, ShiftKey, 255, r.value);
    if r.None? { return; }
    assert r.value == Normal(usage, key, shift, false, false, false);
  }

  method PutFlags(e: Entry, numbers: Entry) returns (r: Option<Entry>)
    ensures r.Some? <==> FlagOk(e, Raw) && FlagOk(e, LayerTap) && FlagOk(e, AltBlock)
    ensures r.Some? ==> r.value == WithFlags(numbers, IsSet(e, Raw), IsSet(e, LayerTap), IsSet(e, AltBlock))
  {
    r := PutFlag(e, Raw, numbers);
    if r.None? { return; }
    r := PutFlag(e, LayerTap, r.value);
    if r.None? { return; }
    r := PutFlag(e, AltBlock, r.value);
  }

  function WithFlags(numbers: Entry, raw: bool, tap: bool, alt: bool): Entry {
    var a := if raw then numbers[Raw := Flag(true)] else numbers;
    var b := if tap then a[LayerTap := Flag(true)] else a;
    if alt then b[AltBlock := Flag(true)] else b
  }

  lemma FlagsAdd(usage: nat, key: nat, shift: nat, raw: bool, tap: bool, alt: bool)
    ensures WithFlags(Normal(usage, key, shift, false, false, false), raw, tap, alt)
            == Normal(usage, key, shift, raw, tap, alt)
  {
  }

  method ComputeOutput(e: Entry) returns (r: Option<Entry>)
    ensures r == Output(e)
  {
    var usage, key, shift;
    r, usage, key, shift := PutNumbers(e);
    if r.None? { return; }
    if usage != 0 && !(4 <= usage <= 0xA4 || 0xE0 <= usage <= 0xE7) {
      return None;
    }
    r := PutFlags(e, r.value);
    if r.None? { return; }
    var raw, tap, alt := IsSet(e, Raw), IsSet(e, LayerTap), IsSet(e, AltBlock);
    FlagsAdd(usage, key, shift, raw, tap, alt);
    if !Sensible(usage, key, shift, raw, tap, alt) {
      return None;
    }
  }

  // ---------------------------------------------------------------- profiles

  /** The matrix, the known physical keys in ascending order, and the two layers. */
  datatype Profile = Profile(rows: nat, cols: nat, first: nat, stride: nat, names: seq<nat>, layers: (Layer, Layer))

  /** A missing key reads as an empty entry. */
  const BLANK: Entry := map[]

  predicate LayerOk(names: seq<nat>, layer: Layer) {
    forall p :: p in layer ==> p in names && Normalized(layer[p])
  }

  /** The keys that select the other layer. */
  function TapKeys(layer: Layer): set<nat> {
    set p | p in layer && IsSet(layer[p], LayerTap)
  }

  /** At most one layer_tap in the base layer, none in the other. */
  predicate TapsOk(layers: (Layer, Layer)) {
    (forall p, q :: p in TapKeys(layers.0) && q in TapKeys(layers.0) ==> p == q) && TapKeys(layers.1) == {}
  }

  predicate LayersOk(names: seq<nat>, layers: (Layer, Layer)) {
    LayerOk(names, layers.0) && LayerOk(names, layers.1) && TapsOk(layers)
  }

  /** What load_profile establishes. */
  ghost predicate ProfileOk(profile: Profile) {
    && (forall i, j :: 0 <= i < j < |profile.names| ==> profile.names[i] < profile.names[j])
    && |profile.names| <= 256 && (forall p :: p in profile.names ==> p <= 65535)
    && LayersOk(profile.names, profile.layers)
  }

  /** `physical`; a number names a key directly, a row and a column through the matrix. */
  function PhysicalOf(profile: Profile, e: Entry): (r: Option<nat>)
    ensures r.Some? ==> r.value in profile.names
  {
    if Physical in e then
      if Row in e || Col in e then None
      else
        var n := Integer(e[Physical], 65535);
        if n.Some? && n.value in profile.names then n else None
    else if Row !in e || Col !in e || profile.rows == 0 || profile.cols == 0 then None
    else
      var row, col := Integer(e[Row], profile.rows - 1), Integer(e[Col], profile.cols - 1);
      if row.None? || col.None? then None
      else
        var p := profile.first + row.value * profile.stride + col.value;
        if p in profile.names then Some(p) else None
  }

  /** A key given by its place in the matrix. */
  predicate Placed(profile: Profile, e: Entry, row: nat, col: nat) {
    && Physical !in e && Row in e && e[Row] == Number(row as real) && Col in e && e[Col] == Number(col as real)
    && row < profile.rows && col < profile.cols
  }

  /** A key given by its number. */
  predicate Numbered(e: Entry, p: nat) {
    Physical in e && Row !in e && Col !in e && e[Physical] == Number(p as real) && p <= 65535
  }

  lemma PlacedIs(profile: Profile, e: Entry, row: nat, col: nat)
    requires Placed(profile, e, row, col)
    ensures PhysicalOf(profile, e) == var p := profile.first + row * profile.stride + col;
                                      if p in profile.names then Some(p) else None
  {
    IntegerMeans(e[Row], profile.rows - 1, row);
    IntegerMeans(e[Col], profile.cols - 1, col);
  }

  lemma NumberedIs(profile: Profile, e: Entry, p: nat)
    requires Numbered(e, p)
    ensures PhysicalOf(profile, e) == if p in profile.names then Some(p) else None
  {
    IntegerMeans(e[Physical], 65535, p);
  }

  /** There is no other way to name a key. */
  lemma NamedOneWay(profile: Profile, e: Entry)
    requires PhysicalOf(profile, e).Some?
    ensures Numbered(e, PhysicalOf(profile, e).value) || exists row, col :: Placed(profile, e, row, col)
  {
    if Physical in e {
      IntegerMeans(e[Physical], 65535, Integer(e[Physical], 65535).value);
    } else {
      var row, col := Integer(e[Row], profile.rows - 1).value, Integer(e[Col], profile.cols - 1).value;
      IntegerMeans(e[Row], profile.rows - 1, row);
      IntegerMeans(e[Col], profile.cols - 1, col);
      assert Placed(profile, e, row, col);
    }
  }

  /** The number of a placed key tells its row and its column, so that two places never name one key. */
  lemma PlaceOfKey(profile: Profile, e: Entry, row: nat, col: nat)
    requires Placed(profile, e, row, col) && profile.cols <= profile.stride && PhysicalOf(profile, e).Some?
    ensures var p := PhysicalOf(profile, e).value;
            && p >= profile.first
            && (p - profile.first) / profile.stride == row && (p - profile.first) % profile.stride == col
  {
    PlacedIs(profile, e, row, col);
    Quotient(row, col, profile.stride);
  }

  /** The entry with the key's number in place of its row and column. */
  function ByNumber(profile: Profile, e: Entry): Entry {
    var p := PhysicalOf(profile, e);
    if Physical in e || p.None? then e else (e - {Row, Col})[Physical := Number(p.value as real)]
  }

  lemma {:induction false} OutputSame(e: Entry, d: Entry)
    requires forall f :: f in OUTPUT_FIELDS ==> (f in e <==> f in d) && (f in e ==> e[f] == d[f])
    ensures Output(e) == Output(d)
  {
    assert NumberOf(e, Usage, 0xE7) == NumberOf(d, Usage, 0xE7);
    assert NumberOf(e, Key, 255) == NumberOf(d, Key, 255) && NumberOf(e, ShiftKey, 255) == NumberOf(d, ShiftKey, 255);
  }

  // ---------------------------------------------------------------- merge

  /** A mapping document: the schema number and the lists that are there. */
  datatype Document = Document(schema: Value, keys: Option<seq<Entry>>, symbols: Option<seq<Entry>>)

  /** The change that an entry asks for; None where its fields, its key or its output are refused. */
  function ChangeOf(profile: Profile, e: Entry): (r: Option<Change<Entry>>) {
    var key, out := PhysicalOf(profile, e), Output(e);
    if !(e.Keys <= ENTRY_FIELDS) || key.None? || out.None? then None else Some(Change(key.value, out.value))
  }

  /** The changes of a list; None where merge raises: too long, an entry refused, or a key twice. */
  function ChangesOf(profile: Profile, entries: seq<Entry>): (r: Option<seq<Change<Entry>>>)
    ensures r.Some? ==> |r.value| == |entries| && Distinct(r.value)
  {
    if entries == [] then Some([])
    else
      var before, last := ChangesOf(profile, entries[..|entries| - 1]), ChangeOf(profile, entries[|entries| - 1]);
      if before.None? || last.None? || last.value.key in KeysOf(before.value) then None
          else Some(before.value + [last.value])
  }

  function MergedLayer(profile: Profile, layer: Layer, list: Option<seq<Entry>>): (r: Option<Layer>) {
    if list.None? then Some(layer)
    else if |list.value| > 256 then None
    else
      var changes := ChangesOf(profile, list.value);
      if changes.None? then None else Some(Overlay(layer, changes.value))
  }

  /** The layers that a document is merged into: the profile's own, unless others are given. */
  function BaseOf(profile: Profile, base: Option<(Layer, Layer)>): (Layer, Layer) {
    if base.Some? then base.value else profile.layers
  }

  /** `merge` of a document; None where it raises. */
  function Merge(profile: Profile, d: Document, base: Option<(Layer, Layer)>): (r: Option<(Layer, Layer)>) {
    if Integer(d.schema, 1) != Some(1) || (d.keys.None? && d.symbols.None?) then None
    else
      var (own, other) := BaseOf(profile, base);
      var keys, symbols := MergedLayer(profile, own, d.keys), MergedLayer(profile, other, d.symbols);
      if keys.None? || symbols.None? then None
      else if ValidLayers((keys.value, symbols.value)) then Some((keys.value, symbols.value))
      else None
  }

  predicate ValidLayers(layers: (Layer, Layer)) {
    && (forall p :: p in layers.0 ==> Admissible(layers.0, p))
    && (forall p :: p in layers.1 ==> Admissible(layers.1, p))
    && TapsOk(layers)
  }

  predicate Admissible(layer: Layer, p: nat) {
    p in layer && Output(layer[p]).Some?
  }

  function TapsIn(layer: Layer, keys: set<nat>): set<nat> {
    set p | p in keys && p in layer && IsSet(layer[p], LayerTap)
  }

  /** One entry of the loop of validate_layers. */
  method CheckEntry(layer: Layer, p: nat, ghost done: set<nat>, before: nat) returns (ok: bool, selectors: nat)
    requires p in layer && p !in done && before == |TapsIn(layer, done)|
    ensures ok == Admissible(layer, p) && selectors == |TapsIn(layer, done + {p})|
  {
    var out := ComputeOutput(layer[p]);
    ok, selectors := out.Some?, before;
    if IsSet(layer[p], LayerTap) {
      selectors := selectors + 1;
      assert TapsIn(layer, done + {p}) == TapsIn(layer, done) + {p};
    } else {
      assert TapsIn(layer, done + {p}) == TapsIn(layer, done);
    }
  }

  /** validate_layers for one layer: all outputs are admissible; the selectors are counted. */
  method CheckLayer(layer: Layer) returns (ok: bool, selectors: nat)
    ensures ok == forall p :: p in layer ==> Admissible(layer, p)
    ensures ok ==> selectors == |TapKeys(layer)|
  {
    ok, selectors := true, 0;
    var rest := layer.Keys;
    ghost var done: set<nat> := {};
    while rest != {}
      invariant done + rest == layer.Keys && done !! rest && (forall p :: p in done ==> Admissible(layer, p))
      invariant ok && selectors == |TapsIn(layer, done)|
      decreases rest
    {
      var p :| p in rest;
      ok, selectors := CheckEntry(layer, p, done, selectors);
      if !ok {
        return;
      }
      rest, done := rest - {p}, done + {p};
    }
    assert TapsIn(layer, done) == TapKeys(layer);
  }

  lemma AtMostOne(s: set<nat>)
    ensures |s| <= 1 <==> forall p, q :: p in s && q in s ==> p == q
  {
    if s != {} {
      var p :| p in s;
      assert s == {p} + (s - {p});
      assert s - {p} != {} ==> exists q :: q in s - {p};
    }
  }

  /** validate_layers. */
  method ValidateLayers(layers: (Layer, Layer)) returns (valid: bool)
    ensures valid == ValidLayers(layers)
  {
    AtMostOne(TapKeys(layers.0));
    var base, selectors := CheckLayer(layers.0);
    if !base {
      return false;
    }
    var other, forbidden := CheckLayer(layers.1);
    return other && forbidden == 0 && selectors <= 1;
  }

  /** The body of the inner loop of merge. */
  method MergeEntry(profile: Profile, seen: set<nat>, e: Entry) returns (r: Option<Change<Entry>>)
    ensures r.Some? <==> ChangeOf(profile, e).Some? && ChangeOf(profile, e).value.key !in seen
    ensures r.Some? ==> r == ChangeOf(profile, e)
  {
    if !(e.Keys <= ENTRY_FIELDS) {
      return None;
    }
    var physical := PhysicalOf(profile, e);
    if physical.None? || physical.value in seen {
      return None;
    }
    var out := ComputeOutput(e);
    return if out.None? then None else Some(Change(physical.value, out.value));
  }

  lemma {:induction false} NoneEarlier(profile: Profile, entries: seq<Entry>, i: nat)
    requires i <= |entries| && ChangesOf(profile, entries[..i]).None?
    ensures ChangesOf(profile, entries).None?
    decreases |entries|
  {
    if i == |entries| {
      assert entries[..i] == entries;
    } else {
      assert entries[..|entries| - 1][..i] == entries[..i];
      NoneEarlier(profile, entries[..|entries| - 1], i);
    }
  }

  /** The inner loop of merge. */
  method MergeList(profile: Profile, layer: Layer, entries: seq<Entry>) returns (r: Option<Layer>)
    ensures r == MergedLayer(profile, layer, Some(entries))
  {
    if |entries| > 256 {
      return None;
    }
    var seen: set<nat> := {};
    var result := layer;
    ghost var changes: seq<Change<Entry>> := [];
    for i := 0 to |entries|
      invariant ChangesOf(profile, entries[..i]) == Some(changes)
      invariant seen == KeysOf(changes) && result == Overlay(layer, changes)
    {
      var change := MergeEntry(profile, seen, entries[i]);
      var upTo := entries[..i + 1];
      assert upTo[..|upTo| - 1] == entries[..i] && upTo[|upTo| - 1] == entries[i];
      if change.None? {
        NoneEarlier(profile, entries, i + 1);
        return None;
      }
      OneChange(layer, changes, change.value);
      changes := changes + [change.value];
      seen := seen + {change.value.key};
      result := result[change.value.key := change.value.out];
    }
    assert entries[..|entries|] == entries;
    return Some(result);
  }

  lemma OneChange(layer: Layer, changes: seq<Change<Entry>>, c: Change<Entry>)
    ensures Overlay(layer, changes + [c]) == Overlay(layer, changes)[c.key := c.out]
    ensures KeysOf(changes + [c]) == KeysOf(changes) + {c.key}
  {
    var more := changes + [c];
    assert more[..|more| - 1] == changes;
    forall p | p in KeysOf(changes) + {c.key} ensures p in KeysOf(more) {
      if p == c.key {
        assert more[|changes|].key == p;
      } else {
        var i :| 0 <= i < |changes| && changes[i].key == p;
        assert more[i].key == p;
      }
    }
  }

  method ComputeMerge(profile: Profile, d: Document, base: Option<(Layer, Layer)>) returns (r: Option<(Layer, Layer)>)
    ensures r == Merge(profile, d, base)
  {
    if Integer(d.schema, 1) != Some(1) || (d.keys.None? && d.symbols.None?) {
      return None;
    }
    var layers := BaseOf(profile, base);
    if d.keys.Some? {
      var merged := MergeList(profile, layers.0, d.keys.value);
      if merged.None? {
        return None;
      }
      layers := (merged.value, layers.1);
    }
    if d.symbols.Some? {
      var merged := MergeList(profile, layers.1, d.symbols.value);
      if merged.None? {
        return None;
      }
      layers := (layers.0, merged.value);
    }
    var valid := ValidateLayers(layers);
    return if valid then Some(layers) else None;
  }

  /** A layer that has taken a list's changes takes them again without changing. */
  lemma LayerTwice(profile: Profile, layer: Layer, list: Option<seq<Entry>>)
    requires MergedLayer(profile, layer, list).Some?
    ensures var merged := MergedLayer(profile, layer, list).value; MergedLayer(profile, merged, list) == Some(merged)
  {
    if list.Some? {
      OverlayTwice(layer, ChangesOf(profile, list.value).value);
    }
  }

  /** Merging a document into what it was merged into already changes nothing. */
  lemma MergeTwice(profile: Profile, d: Document, base: Option<(Layer, Layer)>)
    requires Merge(profile, d, base).Some?
    ensures Merge(profile, d, Merge(profile, d, base)) == Merge(profile, d, base)
  {
    LayerTwice(profile, BaseOf(profile, base).0, d.keys);
    LayerTwice(profile, BaseOf(profile, base).1, d.symbols);
  }

  lemma UnknownFieldsRefused(profile: Profile, e: Entry, name: string)
    requires Unknown(name) in e
    ensures ChangeOf(profile, e).None?
  {
  }

  /** What the entries of a list ask for, one by one. */
  function AsksOf(profile: Profile, entries: seq<Entry>): (r: seq<Option<Change<Entry>>>)
    ensures |r| == |entries| && forall i :: 0 <= i < |r| ==> r[i] == ChangeOf(profile, entries[i])
  {
    seq(|entries|, i requires 0 <= i < |entries| => ChangeOf(profile, entries[i]))
  }

  lemma {:induction false} ChangesCollected(profile: Profile, entries: seq<Entry>)
    ensures ChangesOf(profile, entries) == Collect(AsksOf(profile, entries))
    decreases |entries|
  {
    if entries != [] {
      var before := entries[..|entries| - 1];
      ChangesCollected(profile, before);
      assert AsksOf(profile, entries)[..|entries| - 1] == AsksOf(profile, before);
    }
  }

  /** A list is taken exactly if it is not too long, each of its entries is taken, and no two are about one key. */
  lemma ListTaken(profile: Profile, layer: Layer, entries: seq<Entry>)
    ensures MergedLayer(profile, layer, Some(entries)).Some? <==>
              && |entries| <= 256
              && (forall i :: 0 <= i < |entries| ==> AsksOf(profile, entries)[i].Some?)
              && (forall i, j :: 0 <= i < j < |entries| ==>
                    !SameKey(AsksOf(profile, entries)[i], AsksOf(profile, entries)[j]))
  {
    ChangesCollected(profile, entries);
    CollectTakes(AsksOf(profile, entries));
  }

  /**
   What a list makes of a layer: each key that an entry is about gets the entry's output, any other key keeps its own.
   */
  lemma MergedMeans(profile: Profile, layer: Layer, entries: seq<Entry>, p: nat)
    requires MergedLayer(profile, layer, Some(entries)).Some?
    ensures |entries| <= 256
    ensures var r := MergedLayer(profile, layer, Some(entries)).value;
            && (forall i :: 0 <= i < |entries| && PhysicalOf(profile, entries[i]) == Some(p) ==>
                  p in r && Some(r[p]) == Output(entries[i]))
            && ((forall i :: 0 <= i < |entries| ==> PhysicalOf(profile, entries[i]) != Some(p)) ==>
                  (p in r <==> p in layer) && (p in layer ==> r[p] == layer[p]))
  {
    var changes := ChangesOf(profile, entries).value;
    ChangesCollected(profile, entries);
    CollectInOrder(AsksOf(profile, entries));
    forall i | 0 <= i < |entries|
      ensures PhysicalOf(profile, entries[i]) == Some(changes[i].key) && Output(entries[i]) == Some(changes[i].out)
    {
      assert AsksOf(profile, entries)[i] == Some(changes[i]);
    }
    OverlayAt(layer, changes, p);
  }

  /** A key may be given by its place or by its number. */
  lemma SameChange(profile: Profile, e: Entry)
    requires forall p :: p in profile.names ==> p <= 65535
    ensures ChangeOf(profile, ByNumber(profile, e)) == ChangeOf(profile, e)
  {
    var p := PhysicalOf(profile, e);
    if !(Physical in e || p.None?) {
      var d := ByNumber(profile, e);
      NumberedIs(profile, d, p.value);
      OutputSame(e, d);
      assert e.Keys == d.Keys - {Physical} + {Row, Col};
    }
  }

  function AllByNumber(profile: Profile, entries: seq<Entry>): (r: seq<Entry>)
    ensures |r| == |entries|
  {
    seq(|entries|, i requires 0 <= i < |entries| => ByNumber(profile, entries[i]))
  }

  lemma {:induction false} SameChanges(profile: Profile, entries: seq<Entry>)
    requires forall p :: p in profile.names ==> p <= 65535
    ensures ChangesOf(profile, AllByNumber(profile, entries)) == ChangesOf(profile, entries)
    decreases |entries|
  {
    if entries != [] {
      var before := entries[..|entries| - 1];
      SameChanges(profile, before);
      SameChange(profile, entries[|entries| - 1]);
      assert AllByNumber(profile, entries)[..|entries| - 1] == AllByNumber(profile, before);
    }
  }

  function ListByNumber(profile: Profile, list: Option<seq<Entry>>): Option<seq<Entry>> {
    if list.None? then None else Some(AllByNumber(profile, list.value))
  }

  /** A document that gives keys by row and column merges to what it merges to with the numbers of these keys. */
  lemma MergeByNumber(profile: Profile, d: Document, base: Option<(Layer, Layer)>)
    requires forall p :: p in profile.names ==> p <= 65535
    ensures Merge(profile, Document(d.schema, ListByNumber(profile, d.keys), ListByNumber(profile, d.symbols)), base)
         == Merge(profile, d, base)
  {
    if d.keys.Some? { SameChanges(profile, d.keys.value); }
    if d.symbols.Some? { SameChanges(profile, d.symbols.value); }
  }

  /**
   The layers of a merge: each of the two lists goes into its own layer of the given base, or of the profile without
   one.
   */
  lemma MergeInto(profile: Profile, d: Document, base: Option<(Layer, Layer)>)
    ensures var (own, other) := match base { case Some(b) => b case None => profile.layers };
            && (Merge(profile, d, base).Some? ==>
                  Merge(profile, d, base) == Some((MergedLayer(profile, own, d.keys).value,
                                                   MergedLayer(profile, other, d.symbols).value)))
            && (d.keys.None? ==> MergedLayer(profile, own, d.keys) == Some(own))
            && (d.symbols.None? ==> MergedLayer(profile, other, d.symbols) == Some(other))
  {
  }

  /**
   A document is taken exactly if its schema is 1, it has a list, its lists are taken, and the layers they make have
   admissible outputs only, with at most one selector in the first layer and none in the second.
   */
  lemma MergeTakes(profile: Profile, d: Document, base: Option<(Layer, Layer)>)
    ensures var (own, other) := match base { case Some(b) => b case None => profile.layers };
            var keys, symbols := MergedLayer(profile, own, d.keys), MergedLayer(profile, other, d.symbols);
            Merge(profile, d, base).Some? <==>
              && d.schema == Number(1.0) && (d.keys.Some? || d.symbols.Some?) && keys.Some? && symbols.Some?
              && (forall p :: p in keys.value ==> Output(keys.value[p]).Some?)
              && (forall p :: p in symbols.value ==> Output(symbols.value[p]).Some?)
              && (forall p, q :: p in keys.value && q in keys.value && p != q ==>
                    !(Says(keys.value[p], LayerTap) && Says(keys.value[q], LayerTap)))
              && (forall p :: p in symbols.value ==> !Says(symbols.value[p], LayerTap))
  {
    IntegerMeans(d.schema, 1, 1);
    var (own, other) := match base { case Some(b) => b case None => profile.layers };
    var keys, symbols := MergedLayer(profile, own, d.keys), MergedLayer(profile, other, d.symbols);
    if keys.Some? && symbols.Some? {
      LayersAccepted(keys.value, symbols.value);
    }
  }

  lemma LayersAccepted(keys: Layer, symbols: Layer)
    ensures ValidLayers((keys, symbols)) <==>
              && (forall p :: p in keys ==> Output(keys[p]).Some?)
              && (forall p :: p in symbols ==> Output(symbols[p]).Some?)
              && (forall p, q :: p in keys && q in keys && Says(keys[p], LayerTap) && Says(keys[q], LayerTap) ==>
                  p == q)
              && (forall p :: p in symbols ==> !Says(symbols[p], LayerTap))
  {
    forall p ensures p in TapKeys(keys) <==> p in keys && Says(keys[p], LayerTap) {
    }
    forall p ensures p in TapKeys(symbols) <==> p in symbols && Says(symbols[p], LayerTap) {
    }
    if ValidLayers((keys, symbols)) {
      forall p | p in keys ensures Output(keys[p]).Some? {
        assert Admissible(keys, p);
      }
      forall p | p in symbols ensures Output(symbols[p]).Some? {
        assert Admissible(symbols, p);
      }
    }
  }

  // ---------------------------------------------------------------- sparse

  /** An entry for a key: its number and its output. */
  function Listed(c: Change<Entry>): Entry {
    map[Physical := Number(c.key as real)] + c.out
  }

  function ListAll(changes: seq<Change<Entry>>): (r: seq<Entry>)
    ensures |r| == |changes|
  {
    seq(|changes|, i requires 0 <= i < |changes| => Listed(changes[i]))
  }

  /** `sparse`: the keys that differ from the profile, and those in `also`. */
  function Sparse(profile: Profile, layers: (Layer, Layer), also: Option<(set<nat>, set<nat>)>): (d: Document) {
    var extra := if also.Some? then also.value else ({}, {});
    var keys := ListAll(Changes(profile.names, layers.0, profile.layers.0, extra.0, BLANK));
    var symbols := ListAll(Changes(profile.names, layers.1, profile.layers.1, extra.1, BLANK));
    Document(Number(1.0), Some(keys), if symbols == [] then None else Some(symbols))
  }

  /** The entry is for the key of this number. */
  predicate IsFor(e: Entry, p: nat) {
    Physical in e && e[Physical] == Number(p as real)
  }

  lemma ListedIs(c: Change<Entry>, p: nat)
    requires Physical !in c.out
    ensures Listed(c) == c.out[Physical := Number(c.key as real)] && (IsFor(Listed(c), p) <==> c.key == p)
  {
    assert (c.key as real).Floor == c.key && (p as real).Floor == p;
  }

  lemma ListedFor(changes: seq<Change<Entry>>, p: nat)
    requires forall c :: c in changes ==> Physical !in c.out
    ensures (exists e :: e in ListAll(changes) && IsFor(e, p)) <==> Mentions(changes, p)
    ensures forall e :: e in ListAll(changes) && IsFor(e, p) ==>
              exists c :: c in changes && c.key == p && e == c.out[Physical := Number(p as real)]
  {
    if Mentions(changes, p) {
      var i :| 0 <= i < |changes| && changes[i].key == p;
      ListedIs(changes[i], p);
      assert ListAll(changes)[i] == Listed(changes[i]);
    }
    forall e | e in ListAll(changes) && IsFor(e, p)
      ensures exists c :: c in changes && c.key == p && e == c.out[Physical := Number(p as real)]
      ensures Mentions(changes, p)
    {
      var i :| 0 <= i < |changes| && ListAll(changes)[i] == e;
      ListedIs(changes[i], p);
    }
  }

  /**
   One list: an entry for each known key that reads differently or is to be included, and it is the layer's own
   output.
   */
  lemma ListWrites(names: seq<nat>, layer: Layer, own: Layer, also: set<nat>, p: nat)
    requires Ascending(names) && LayerOk(names, layer)
    ensures var l := ListAll(Changes(names, layer, own, also, BLANK));
            && ((exists e :: e in l && IsFor(e, p)) <==>
                  && p in names
                  && ((if p in layer then layer[p] else BLANK) != (if p in own then own[p] else BLANK) || p in also))
            && forall e :: e in l && IsFor(e, p) ==>
                 e == (if p in layer then layer[p] else BLANK)[Physical := Number(p as real)]
  {
    var cs := Changes(names, layer, own, also, BLANK);
    WrittenWhenDifferent(names, layer, own, also, BLANK, p);
    ChangesAre(names, layer, own, also, BLANK);
    ListedFor(cs, p);
  }

  /** What `sparse` writes; the second list is left out when it would be empty, the first never. */
  lemma SparseWrites(profile: Profile, layers: (Layer, Layer), also: Option<(set<nat>, set<nat>)>, p: nat)
    requires ProfileOk(profile) && LayersOk(profile.names, layers)
    ensures var d, own := Sparse(profile, layers, also), profile.layers;
            && d.schema == Number(1.0) && d.keys.Some? && d.symbols != Some([])
            && ((exists e :: e in d.keys.value && IsFor(e, p)) <==>
                  && p in profile.names
                  && ((if p in layers.0 then layers.0[p] else BLANK) != (if p in own.0 then own.0[p] else BLANK)
                      || (also.Some? && p in also.value.0)))
            && ((d.symbols.Some? && exists e :: e in d.symbols.value && IsFor(e, p)) <==>
                  && p in profile.names
                  && ((if p in layers.1 then layers.1[p] else BLANK) != (if p in own.1 then own.1[p] else BLANK)
                      || (also.Some? && p in also.value.1)))
  {
    var extra := if also.Some? then also.value else ({}, {});
    ListWrites(profile.names, layers.0, profile.layers.0, extra.0, p);
    ListWrites(profile.names, layers.1, profile.layers.1, extra.1, p);
  }

  // ---------------------------------------------------------------- the two undo each other

  lemma ListedEntry(profile: Profile, c: Change<Entry>)
    requires c.key in profile.names && c.key <= 65535 && Normalized(c.out)
    ensures ChangeOf(profile, Listed(c)) == Some(c)
  {
    var l := Listed(c);
    OutputIdempotent(c.out);
    assert l == c.out[Physical := Number(c.key as real)];
    OutputIgnores(c.out, Physical, Number(c.key as real));
    assert (c.key as real).Floor == c.key;
  }

  lemma BlankNormalized()
    ensures Normalized(BLANK)
  {
    assert Normal(0, 0, 0, false, false, false) == BLANK;
  }

  lemma OneMoreChange(profile: Profile, entries: seq<Entry>, before: seq<Change<Entry>>, c: Change<Entry>)
    requires entries != [] && ChangesOf(profile, entries[..|entries| - 1]) == Some(before)
    requires ChangeOf(profile, entries[|entries| - 1]) == Some(c) && c.key !in KeysOf(before)
    ensures ChangesOf(profile, entries) == Some(before + [c])
  {
  }

  lemma ListPrefix(changes: seq<Change<Entry>>)
    requires changes != []
    ensures ListAll(changes)[..|changes| - 1] == ListAll(changes[..|changes| - 1])
    ensures ListAll(changes)[|changes| - 1] == Listed(changes[|changes| - 1])
  {
  }

  lemma FreshKey(changes: seq<Change<Entry>>)
    requires changes != [] && Distinct(changes)
    ensures Distinct(changes[..|changes| - 1]) && changes[|changes| - 1].key !in KeysOf(changes[..|changes| - 1])
  {
  }

  /** Reading a written list gives the changes it was written from. */
  lemma {:induction false} ListedChanges(profile: Profile, changes: seq<Change<Entry>>)
    requires Distinct(changes) && forall c :: c in changes ==> ChangeOf(profile, Listed(c)) == Some(c)
    ensures ChangesOf(profile, ListAll(changes)) == Some(changes)
    decreases |changes|
  {
    if changes != [] {
      var before, last := changes[..|changes| - 1], changes[|changes| - 1];
      ListPrefix(changes);
      FreshKey(changes);
      ListedChanges(profile, before);
      assert last in changes;
      OneMoreChange(profile, ListAll(changes), before, last);
      assert changes == before + [last];
    }
  }

  /** The list that `sparse` writes for a layer merges to that layer. */
  lemma SparseLayer(profile: Profile, layer: Layer, own: Layer, also: set<nat>)
    requires ProfileOk(profile) && LayerOk(profile.names, layer) && LayerOk(profile.names, own)
    ensures var cs := Changes(profile.names, layer, own, also, BLANK);
            && MergedLayer(profile, own, Some(ListAll(cs))) == Some(Overlay(own, cs))
            && SameReading(Overlay(own, cs), layer)
  {
    var cs := Changes(profile.names, layer, own, also, BLANK);
    ChangesAre(profile.names, layer, own, also, BLANK);
    BlankNormalized();
    forall c | c in cs ensures ChangeOf(profile, Listed(c)) == Some(c) {
      ListedEntry(profile, c);
    }
    ListedChanges(profile, cs);
    forall p: nat ensures Read(Overlay(own, cs), p, BLANK) == Read(layer, p, BLANK) {
      ChangesLead(profile.names, layer, own, also, BLANK, p);
    }
  }

  ghost predicate SameReading(a: Layer, b: Layer) {
    forall p: nat :: Read(a, p, BLANK) == Read(b, p, BLANK)
  }

  /** Layers that read like admissible ones are admissible. */
  lemma ReadsValid(names: seq<nat>, layers: (Layer, Layer), merged: (Layer, Layer))
    requires LayersOk(names, layers) && SameReading(merged.0, layers.0) && SameReading(merged.1, layers.1)
    ensures ValidLayers(merged)
  {
    BlankNormalized();
    forall p | p in merged.0 ensures Admissible(merged.0, p) {
      SameOutput(names, merged.0, layers.0, p);
    }
    forall p | p in merged.1 ensures Admissible(merged.1, p) && p !in TapKeys(merged.1) {
      SameOutput(names, merged.1, layers.1, p);
      assert p !in TapKeys(layers.1);
    }
    forall p | p in TapKeys(merged.0) ensures p in TapKeys(layers.0) {
      SameOutput(names, merged.0, layers.0, p);
    }
  }

  lemma SameOutput(names: seq<nat>, merged: Layer, layer: Layer, p: nat)
    requires LayerOk(names, layer) && SameReading(merged, layer) && p in merged
    ensures Admissible(merged, p)
    ensures IsSet(merged[p], LayerTap) ==> p in layer && IsSet(layer[p], LayerTap)
  {
    BlankNormalized();
    assert Read(merged, p, BLANK) == Read(layer, p, BLANK);
  }

  /**
   Merging what `sparse` wrote gives the layers back, a missing key reading as an empty entry, whatever keys were
   included.
   */
  lemma MergeOfSparse(profile: Profile, layers: (Layer, Layer), also: Option<(set<nat>, set<nat>)>)
    requires ProfileOk(profile) && LayersOk(profile.names, layers)
    ensures var r := Merge(profile, Sparse(profile, layers, also), None);
            r.Some? && SameReading(r.value.0, layers.0) && SameReading(r.value.1, layers.1)
  {
    var d := Sparse(profile, layers, also);
    var extra := if also.Some? then also.value else ({}, {});
    SparseLayer(profile, layers.0, profile.layers.0, extra.0);
    SparseLayer(profile, layers.1, profile.layers.1, extra.1);
    var merged := (MergedLayer(profile, profile.layers.0, d.keys).value,
        MergedLayer(profile, profile.layers.1, d.symbols).value);
    ReadsValid(profile.names, layers, merged);
  }

  function Count(list: Option<seq<Entry>>): nat {
    if list.None? then 0 else |list.value|
  }

  /** A list that leads to the layer has an entry for every changed key. */
  lemma ListNeeds(profile: Profile, layer: Layer, own: Layer, list: Option<seq<Entry>>)
    requires MergedLayer(profile, own, list).Some? && SameReading(MergedLayer(profile, own, list).value, layer)
    ensures |Changed(profile.names, layer, own, BLANK)| <= Count(list)
  {
    var changes := if list.None? then [] else ChangesOf(profile, list.value).value;
    assert MergedLayer(profile, own, list).value == Overlay(own, changes);
    ChangesNeeded(profile.names, layer, own, BLANK, changes);
  }

  /**
   No document that leads to the layers has fewer entries, in either list, than `sparse` writes when nothing is
   included.
   */
  lemma SparseIsLeast(profile: Profile, layers: (Layer, Layer), d: Document)
    requires ProfileOk(profile) && LayersOk(profile.names, layers)
    requires Merge(profile, d, None).Some?
    requires SameReading(Merge(profile, d, None).value.0, layers.0)
            && SameReading(Merge(profile, d, None).value.1, layers.1)
    ensures var least := Sparse(profile, layers, None);
            Count(least.keys) <= Count(d.keys) && Count(least.symbols) <= Count(d.symbols)
  {
    ChangesCount(profile.names, layers.0, profile.layers.0, BLANK);
    ChangesCount(profile.names, layers.1, profile.layers.1, BLANK);
    ListNeeds(profile, layers.0, profile.layers.0, d.keys);
    ListNeeds(profile, layers.1, profile.layers.1, d.symbols);
  }
}
