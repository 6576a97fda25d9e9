/** The export operator's settings: the game name normaliser, the version
    table keyed by it, resetting the stored settings and the operator's
    properties to their defaults, applying stored settings when the
    operator is invoked, and which properties the panel draws. */
module ExportOperator {
  import opened Wrappers
  import opened Text
  import opened Seqs

  /** The characters `_game_to_enum` turns into underscores. */
  const SYMBOLS: string := ":,'\" +-*!?;./="

  /** One character of the translation table. */
  function Translated(c: char): char
  {
    if c in SYMBOLS then '_' else c
  }

  function Translate(s: string): (r: string)
    ensures |r| == |s|
    ensures forall k :: 0 <= k < |s| ==> r[k] == Translated(s[k])
  {
    seq(|s|, k requires 0 <= k < |s| => Translated(s[k]))
  }

  /** `_game_to_enum`: upper case, symbols to underscores, then one
      left-to-right pass turning `__` into `_`. */
  function GameToEnum(game: string): string
  {
    Replace(Translate(Upper(game)), "__", "_")
  }

  /** Every character of a replacement comes from the input or from the
      replacement text. */
  lemma {:induction false} ReplaceChars(s: string, pat: string, rep: string, c: char)
    requires 0 < |pat|
    ensures c in Replace(s, pat, rep) ==> c in s || c in rep
    decreases |s|
  {
    if |s| >= |pat| {
      if s[..|pat|] == pat {
        ReplaceChars(s[|pat|..], pat, rep, c);
        if c in s[|pat|..] {
          var k :| 0 <= k < |s[|pat|..]| && s[|pat|..][k] == c;
          assert s[|pat| + k] == c;
        }
      } else {
        ReplaceChars(s[1..], pat, rep, c);
        if c in s[1..] {
          var k :| 0 <= k < |s[1..]| && s[1..][k] == c;
          assert s[1 + k] == c;
        }
      }
    }
  }

  /** The enum name holds none of the symbols. */
  lemma GameToEnumNoSymbols(game: string)
    ensures forall c :: c in GameToEnum(game) ==> c !in SYMBOLS
  {
    var t := Translate(Upper(game));
    forall c | c in GameToEnum(game)
      ensures c !in SYMBOLS
    {
      ReplaceChars(t, "__", "_", c);
      if c in t {
        var k :| 0 <= k < |t| && t[k] == c;
      }
    }
  }

  /** The enum name is never longer than the game name. */
  lemma GameToEnumShorter(game: string)
    ensures |GameToEnum(game)| <= |game|
  {
    ReplaceShrinks(Translate(Upper(game)), "__", "_");
  }

  /** A run of three underscores becomes two, so normalising again
      changes the name: the function is not idempotent. */
  lemma GameToEnumNotIdempotent()
    ensures GameToEnum("___") == "__"
    ensures GameToEnum(GameToEnum("___")) == "_"
  {
    assert Upper("___") == "___";
    assert Translate("___") == "___";
    assert "___"[..2] == "__" && "___"[2..] == "_";
    assert Replace("_", "__", "_") == "_";
    assert Upper("__") == "__";
    assert Translate("__") == "__";
    assert "__"[..2] == "__" && "__"[2..] == [];
  }

  predicate AlphaNumeric(c: char)
  {
    'a' <= c <= 'z' || 'A' <= c <= 'Z' || '0' <= c <= '9'
  }

  /** A name made of letters and digits only maps to its upper case. */
  lemma GameToEnumPlain(game: string)
    requires forall k :: 0 <= k < |game| ==> AlphaNumeric(game[k])
    ensures GameToEnum(game) == Upper(game)
  {
    var u := Upper(game);
    assert Translate(u) == u;
    ReplaceAbsent(u, "__", "_");
  }

  /** A property value. */
  datatype Value = Bool(b: bool) | Int(i: int) | Real(r: real) | Str(s: string)

  /** A property definition: its default and its options, when given. */
  datatype PropDef = PropDef(default: Option<Value>, options: Option<set<string>>)

  /** `dict.get(k)` on a store where a missing key reads as None. */
  function Lookup(m: map<string, Option<Value>>, k: string): Option<Value>
  {
    if k in m then m[k] else None
  }

  /** The keys of a list of definitions. */
  function DefKeys(defs: seq<(string, PropDef)>): seq<string>
  {
    seq(|defs|, i requires 0 <= i < |defs| => defs[i].0)
  }

  /** The stored export settings. */
  class ExportSettings {
    var stored: map<string, Option<Value>>

    constructor (stored: map<string, Option<Value>>)
      ensures this.stored == stored
    {
      this.stored := stored;
    }

    function Get(k: string): Option<Value>
      reads this
    {
      Lookup(stored, k)
    }

    method Set(k: string, v: Option<Value>)
      modifies this
      ensures stored == old(stored)[k := v]
    {
      stored := stored[k := v];
    }
  }

  /** The export operator: its properties and the file path. */
  class NifExportOperator {
    var properties: map<string, Option<Value>>
    var filepath: Option<Value>

    constructor (properties: map<string, Option<Value>>, filepath: Option<Value>)
      ensures this.properties == properties && this.filepath == filepath
    {
      this.properties := properties;
      this.filepath := filepath;
    }

    method SetProperty(k: string, v: Option<Value>)
      modifies this`properties
      ensures properties == old(properties)[k := v]
    {
      properties := properties[k := v];
    }
  }

  /** Whether resetting writes key `k`: its setting or its property
      differs from the default. */
  predicate Differs(stored: map<string, Option<Value>>, props: map<string, Option<Value>>, k: string, d: Option<Value>)
  {
    Lookup(stored, k) != d || Lookup(props, k) != d
  }

  /** Key `k` reads the same in `m` as in `m0`, present or absent alike. */
  predicate Kept(m: map<string, Option<Value>>, m0: map<string, Option<Value>>, k: string)
  {
    (k in m <==> k in m0) && Lookup(m, k) == Lookup(m0, k)
  }

  /** The first `n` definitions hold their defaults in both places. */
  predicate AtDefaults(stored: map<string, Option<Value>>, props: map<string, Option<Value>>, defs: seq<(string, PropDef)>, n: nat)
    requires n <= |defs|
  {
    forall j :: 0 <= j < n ==> Lookup(stored, defs[j].0) == defs[j].1.default && Lookup(props, defs[j].0) == defs[j].1.default
  }

  /** Of the first `n` definitions, those already at their default were
      not written. */
  predicate UnwrittenKept(stored: map<string, Option<Value>>, props: map<string, Option<Value>>,
                          stored0: map<string, Option<Value>>, props0: map<string, Option<Value>>, defs: seq<(string, PropDef)>, n: nat)
    requires n <= |defs|
  {
    forall j :: 0 <= j < n && !Differs(stored0, props0, defs[j].0, defs[j].1.default) ==>
      Kept(stored, stored0, defs[j].0) && Kept(props, props0, defs[j].0)
  }

  /** Every key outside `keys` is untouched. */
  ghost predicate OthersKept(stored: map<string, Option<Value>>, props: map<string, Option<Value>>,
                       stored0: map<string, Option<Value>>, props0: map<string, Option<Value>>, keys: seq<string>)
  {
    forall k :: k !in keys ==> Kept(stored, stored0, k) && Kept(props, props0, k)
  }

  /** One round of the reset loop keeps the three facts above. */
  lemma ResetStep(stored0: map<string, Option<Value>>, props0: map<string, Option<Value>>,
                  stored: map<string, Option<Value>>, props: map<string, Option<Value>>,
                  stored': map<string, Option<Value>>, props': map<string, Option<Value>>, defs: seq<(string, PropDef)>, i: nat)
    requires NoDup(DefKeys(defs)) && i < |defs|
    requires AtDefaults(stored, props, defs, i) && UnwrittenKept(stored, props, stored0, props0, defs, i)
    requires OthersKept(stored, props, stored0, props0, DefKeys(defs)[..i])
    requires Differs(stored, props, defs[i].0, defs[i].1.default) ==>
               stored' == stored[defs[i].0 := defs[i].1.default] && props' == props[defs[i].0 := defs[i].1.default]
    requires !Differs(stored, props, defs[i].0, defs[i].1.default) ==> stored' == stored && props' == props
    ensures AtDefaults(stored', props', defs, i + 1) && UnwrittenKept(stored', props', stored0, props0, defs, i + 1)
    ensures OthersKept(stored', props', stored0, props0, DefKeys(defs)[..i + 1])
  {
    var k := defs[i].0;
    assert DefKeys(defs)[i] == k && DefKeys(defs)[..i + 1] == DefKeys(defs)[..i] + [k];
    forall j | 0 <= j < i
      ensures defs[j].0 != k
    {
      assert DefKeys(defs)[j] == defs[j].0;
    }
    assert k !in DefKeys(defs)[..i];
    assert Kept(stored, stored0, k) && Kept(props, props0, k);
  }

  /** `NifResetExportSettings.execute`: every defined property whose
      setting or value differs from its default gets the default in both
      places; nothing else is written. */
  method ResetToDefaults(settings: ExportSettings, op: NifExportOperator, defs: seq<(string, PropDef)>)
    requires NoDup(DefKeys(defs))
    modifies settings, op`properties
    ensures AtDefaults(settings.stored, op.properties, defs, |defs|)
    ensures forall i :: 0 <= i < |defs| ==> !Differs(settings.stored, op.properties, defs[i].0, defs[i].1.default)
    ensures UnwrittenKept(settings.stored, op.properties, old(settings.stored), old(op.properties), defs, |defs|)
    ensures OthersKept(settings.stored, op.properties, old(settings.stored), old(op.properties), DefKeys(defs))
  {
    for i := 0 to |defs|
      invariant AtDefaults(settings.stored, op.properties, defs, i)
      invariant UnwrittenKept(settings.stored, op.properties, old(settings.stored), old(op.properties), defs, i)
      invariant OthersKept(settings.stored, op.properties, old(settings.stored), old(op.properties), DefKeys(defs)[..i])
    {
      ghost var stored, props := settings.stored, op.properties;
      var (k, d) := defs[i];
      var defv := d.default;
      var settingVal := settings.Get(k);
      if settingVal != defv || Lookup(op.properties, k) != defv {
        settings.Set(k, defv);
        op.SetProperty(k, defv);
      }
      ResetStep(old(settings.stored), old(op.properties), stored, props, settings.stored, op.properties, defs, i);
    }
    assert DefKeys(defs)[..|defs|] == DefKeys(defs);
  }

  /** The settings-applying part of `NifExportOperator.invoke`: every
      defined property with a stored setting takes it, and a stored
      `filename` becomes the file path. */
  method ApplySettings(settings: ExportSettings, op: NifExportOperator, keys: seq<string>)
    modifies op
    ensures forall k :: k in keys && Lookup(settings.stored, k).Some? ==>
              k in op.properties && op.properties[k] == Lookup(settings.stored, k)
    ensures forall k :: (k !in keys || Lookup(settings.stored, k).None?) ==>
              (k in op.properties <==> k in old(op.properties)) && Lookup(op.properties, k) == Lookup(old(op.properties), k)
    ensures op.filepath == if Lookup(settings.stored, "filename").Some? then Lookup(settings.stored, "filename") else old(op.filepath)
  {
    for i := 0 to |keys|
      invariant forall k :: k in keys[..i] && Lookup(settings.stored, k).Some? ==>
                  k in op.properties && op.properties[k] == Lookup(settings.stored, k)
      invariant forall k :: (k !in keys[..i] || Lookup(settings.stored, k).None?) ==>
                  (k in op.properties <==> k in old(op.properties)) && Lookup(op.properties, k) == Lookup(old(op.properties), k)
      invariant op.filepath == old(op.filepath)
    {
      var k := keys[i];
      assert keys[..i + 1] == keys[..i] + [k];
      var settingVal := settings.Get(k);
      if settingVal != None && Lookup(op.properties, k) != settingVal {
        op.SetProperty(k, settingVal);
      }
    }
    assert keys[..|keys|] == keys;
    var filename := settings.Get("filename");
    if filename != None {
      op.filepath := filename;
    }
  }

  /** `add_prop_if_visible`: a property is drawn when it has a definition
      whose options are absent or do not hold `HIDDEN`. */
  predicate Visible(defs: map<string, PropDef>, name: string)
  {
    name in defs && (defs[name].options.None? || "HIDDEN" !in defs[name].options.value)
  }

  /** The properties `draw` offers, in order. */
  const DRAW_ORDER: seq<string> := [
    "scale_correction_export", "game", "animation", "smooth_object_seams", "bs_animation_node",
    "stripify", "stitch_strips", "flatten_skin", "skin_partition", "pad_bones",
    "max_bones_per_partition", "max_bones_per_vertex", "force_dds"]

  /** What `draw` shows: the visible properties, in order. */
  function Drawn(defs: map<string, PropDef>, names: seq<string>): (r: seq<string>)
    ensures |r| <= |names|
    decreases |names|
  {
    if names == [] then []
    else Drawn(defs, names[..|names| - 1]) + (if Visible(defs, names[|names| - 1]) then [names[|names| - 1]] else [])
  }

  /** A name is drawn iff it is offered and visible. */
  lemma {:induction false} DrawnMembers(defs: map<string, PropDef>, names: seq<string>, n: string)
    ensures n in Drawn(defs, names) <==> n in names && Visible(defs, n)
    decreases |names|
  {
    if names != [] {
      DrawnMembers(defs, names[..|names| - 1], n);
      assert names == names[..|names| - 1] + [names[|names| - 1]];
    }
  }

  /** The operator's own property definitions. */
  const OPERATOR_PROPS: map<string, PropDef> := map[
    "scale_correction_export" := PropDef(Some(Real(1.0)), None),
    "game" := PropDef(Some(Str("OBLIVION")), None),
    "animation" := PropDef(Some(Str("ALL_NIF")), None),
    "smooth_object_seams" := PropDef(Some(Bool(true)), None),
    "bs_animation_node" := PropDef(Some(Bool(false)), None),
    "stripify" := PropDef(Some(Bool(false)), Some({"HIDDEN"})),
    "stitch_strips" := PropDef(Some(Bool(true)), Some({"HIDDEN"})),
    "flatten_skin" := PropDef(Some(Bool(false)), None),
    "skin_partition" := PropDef(Some(Bool(true)), None),
    "pad_bones" := PropDef(Some(Bool(false)), None),
    "max_bones_per_partition" := PropDef(Some(Int(18)), None),
    "max_bones_per_vertex" := PropDef(Some(Int(4)), None),
    "force_dds" := PropDef(Some(Bool(true)), None)]

  /** With the operator's definitions the panel shows every property but
      the two hidden strip options. */
  lemma OperatorPanel()
    ensures forall n :: n in Drawn(OPERATOR_PROPS, DRAW_ORDER) <==> n in DRAW_ORDER && n != "stripify" && n != "stitch_strips"
  {
    forall n
      ensures n in Drawn(OPERATOR_PROPS, DRAW_ORDER) <==> n in DRAW_ORDER && n != "stripify" && n != "stitch_strips"
    {
      DrawnMembers(OPERATOR_PROPS, DRAW_ORDER, n);
    }
  }

  datatype VersionError = EmptyVersions

  /** The `version` map: each game but `?` by its enum name to its last
      version; a later game with the same enum name wins. */
  function VersionMap(games: seq<(string, seq<nat>)>): (r: Result<map<string, nat>, VersionError>)
    ensures r.Failure? <==> exists i :: 0 <= i < |games| && games[i].0 != "?" && games[i].1 == []
    decreases |games|
  {
    if games == [] then Success(map[])
    else
      var (g, vs) := games[|games| - 1];
      var r0 := VersionMap(games[..|games| - 1]);
      if r0.Failure? then
        assert forall i :: 0 <= i < |games| - 1 ==> games[..|games| - 1][i] == games[i];
        r0
      else if g == "?" then r0
      else if vs == [] then Failure(EmptyVersions)
      else Success(r0.value[GameToEnum(g) := vs[|vs| - 1]])
  }

  /** No game after the `i`th has enum name `e`. */
  predicate LastWith(games: seq<(string, seq<nat>)>, i: nat, e: string)
  {
    forall j :: i < j < |games| ==> games[j].0 == "?" || GameToEnum(games[j].0) != e
  }

  /** Entry `e` of map `m` comes from game `i`: its last version. */
  predicate EntryFrom(games: seq<(string, seq<nat>)>, m: map<string, nat>, e: string, i: nat)
    requires e in m
  {
    i < |games| && games[i].0 != "?" && GameToEnum(games[i].0) == e && games[i].1 != []
    && m[e] == games[i].1[|games[i].1| - 1] && LastWith(games, i, e)
  }

  /** Every game but `?` has its enum name in the map. */
  lemma {:induction false} VersionMapCovers(games: seq<(string, seq<nat>)>)
    requires VersionMap(games).Success?
    ensures forall i :: 0 <= i < |games| && games[i].0 != "?" ==> GameToEnum(games[i].0) in VersionMap(games).value
    decreases |games|
  {
    if games != [] {
      var init := games[..|games| - 1];
      VersionMapCovers(init);
      forall i | 0 <= i < |games| - 1 && games[i].0 != "?"
        ensures GameToEnum(games[i].0) in VersionMap(games).value
      {
        assert init[i] == games[i];
      }
    }
  }

  /** Each entry is the last version of the last game with that enum name. */
  lemma {:induction false} VersionMapEntries(games: seq<(string, seq<nat>)>)
    requires VersionMap(games).Success?
    ensures forall e :: e in VersionMap(games).value ==> exists i :: EntryFrom(games, VersionMap(games).value, e, i)
    decreases |games|
  {
    if games != [] {
      var init := games[..|games| - 1];
      var (g, vs) := games[|games| - 1];
      VersionMapEntries(init);
      var m0 := VersionMap(init).value;
      var m := VersionMap(games).value;
      forall e | e in m
        ensures exists i :: EntryFrom(games, m, e, i)
      {
        if g != "?" && GameToEnum(g) == e {
          assert EntryFrom(games, m, e, |games| - 1);
        } else {
          assert e in m0;
          var i :| EntryFrom(init, m0, e, i);
          EntryFromExtends(init, games, m0, m, e, i);
        }
      }
    }
  }

  lemma EntryFromExtends(init: seq<(string, seq<nat>)>, games: seq<(string, seq<nat>)>, m0: map<string, nat>, m: map<string, nat>, e: string, i: nat)
    requires |games| == |init| + 1 && init == games[..|init|]
    requires e in m0 && e in m && m[e] == m0[e] && EntryFrom(init, m0, e, i)
    requires games[|init|].0 == "?" || GameToEnum(games[|init|].0) != e
    ensures EntryFrom(games, m, e, i)
  {
    assert games[i] == init[i];
    forall j | i < j < |games|
      ensures games[j].0 == "?" || GameToEnum(games[j].0) != e
    {
      if j < |init| {
        assert games[j] == init[j];
      }
    }
  }
}
