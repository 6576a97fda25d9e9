/** The exporter's naming and index tables (io_scene_nif/modules/object/object_export.py):
    unique NIF names for Blender objects, the `FullNames` text written on
    import, the exported-block registry, and the index maps built when a
    mesh is cut into NiTriShapes. */
module ObjectExport {
  import opened Wrappers
  import opened Text
  import opened Seqs
  import opened NifBlocks
  import ArmatureImport

  /** The `NifError`/`ValueError` conditions raised here. */
  datatype ExportError =
    | BadNamesLine
    | BadFace(numVerts: nat)
    | TooManyVertices
    | TooManyPolygons
    | PolygonsWithoutBodyPart(polys: seq<nat>)
      /** The `IndexError` of the duplicate test when a uv layer of the
          material has no map name, so that its quads carry fewer uvs
          than the material has layers. */
    | UVLayerIndexError

  /** `"%s.%02d" % (base, u)` */
  function Suffixed(base: string, u: nat): string
  {
    base + "." + Pad2(u)
  }

  lemma SuffixedDistinct(base: string, a: nat, b: nat)
    requires Suffixed(base, a) == Suffixed(base, b)
    ensures a == b
  {
    assert Suffixed(base, a) == (base + ".") + Pad2(a);
    assert Suffixed(base, b) == (base + ".") + Pad2(b);
    PrefixCancel(base + ".", Pad2(a), Pad2(b));
    Pad2Injective(a, b);
  }

  /** The first `u` suffixed names are `u` different names. */
  lemma {:induction false} SuffixedCount(base: string, u: nat)
    ensures |set v | 0 <= v < u :: Suffixed(base, v)| == u
    decreases u
  {
    if u > 0 {
      SuffixedCount(base, u - 1);
      var before := set v | 0 <= v < u - 1 :: Suffixed(base, v);
      SuffixedFresh(base, u - 1);
      assert (set v | 0 <= v < u :: Suffixed(base, v)) == before + {Suffixed(base, u - 1)};
    }
  }

  /** Suffix `u` is none of the suffixes before it. */
  lemma SuffixedFresh(base: string, u: nat)
    ensures Suffixed(base, u) !in set v | 0 <= v < u :: Suffixed(base, v)
  {
    if Suffixed(base, u) in set v | 0 <= v < u :: Suffixed(base, v) {
      var v :| 0 <= v < u && Suffixed(base, v) == Suffixed(base, u);
      SuffixedDistinct(base, v, u);
    }
  }

  /** A finite set of names cannot hold more suffixed names than it has elements. */
  lemma SuffixedBound(base: string, u: nat, taken: set<string>)
    requires forall v :: 0 <= v < u ==> Suffixed(base, v) in taken
    ensures u <= |taken|
  {
    SuffixedCount(base, u);
    var s := set v | 0 <= v < u :: Suffixed(base, v);
    assert s <= taken;
    SubsetCard(s, taken);
  }

  lemma SubsetCard<T>(a: set<T>, b: set<T>)
    requires a <= b
    ensures |a| <= |b|
  {
    assert b == a + (b - a);
  }

  /** A name `get_unique_name` may not return: a block name already used
      or a NIF name already given to some Blender name. */
  predicate Taken(blockNames: seq<string>, names: map<string, string>, n: string)
  {
    n in blockNames || n in names.Values
  }

  /** The taken names as one set. */
  function TakenNames(blockNames: seq<string>, names: map<string, string>): (t: set<string>)
    ensures forall n :: n in t <==> Taken(blockNames, names, n)
  {
    (set n | n in blockNames) + names.Values
  }

  /** One more taken suffix: all suffixes so far are taken, and there
      cannot be more of them than taken names. */
  lemma TakenStep(blockNames: seq<string>, names: map<string, string>, base: string, u: nat)
    requires 0 < u && Taken(blockNames, names, Suffixed(base, u - 1))
    requires forall v :: 0 <= v < u - 1 ==> Taken(blockNames, names, Suffixed(base, v))
    ensures forall v :: 0 <= v < u ==> Taken(blockNames, names, Suffixed(base, v))
    ensures u <= |TakenNames(blockNames, names)|
  {
    SuffixedBound(base, u, TakenNames(blockNames, names));
  }

  /** The name `get_unique_name` starts from. */
  function BaseName(bName: string, toNif: string -> string): string
  {
    toNif(if bName != "" then bName else "unnamed")
  }

  /** The search loop of `get_unique_name`: the first of `base`,
      `base.00`, `base.01`, ... that is not taken. */
  method FreeName(bn: seq<string>, nm: map<string, string>, base: string) returns (unique: string)
    ensures !Taken(bn, nm, unique)
    ensures !Taken(bn, nm, base) ==> unique == base
    ensures Taken(bn, nm, base) ==>
              exists u: nat :: unique == Suffixed(base, u) && forall v :: 0 <= v < u ==> Taken(bn, nm, Suffixed(base, v))
  {
    unique := base;
    if Taken(bn, nm, unique) {
      var u := 0;
      while Taken(bn, nm, unique)
        invariant (u == 0 && unique == base) || (u > 0 && unique == Suffixed(base, u - 1))
        invariant forall v :: 0 <= v < u - 1 ==> Taken(bn, nm, Suffixed(base, v))
        decreases |TakenNames(bn, nm)| - u
      {
        if u > 0 {
          TakenStep(bn, nm, base, u);
        }
        unique := Suffixed(base, u);
        u := u + 1;
      }
      assert u > 0 && unique == Suffixed(base, u - 1);
      assert forall v :: 0 <= v < u - 1 ==> Taken(bn, nm, Suffixed(base, v));
    }
  }

  /** One `FullNames` line applied to `dict_names`: an empty line is
      skipped, `a;b` sets the name `a` to `b`, anything else raises. */
  function ApplyNameLines(names: map<string, string>, lines: seq<string>): (r: Result<map<string, string>, ExportError>)
    decreases |lines|
  {
    if lines == [] then Success(names)
    else if lines[0] == "" then ApplyNameLines(names, lines[1..])
    else
      var parts := Split(lines[0], ';');
      if |parts| != 2 then Failure(BadNamesLine)
      else ApplyNameLines(names[parts[0] := parts[1]], lines[1..])
  }

  /** `dict_names` as the import left it: every renamed block's Blender
      name mapped to its NIF name, a later entry overriding an earlier one. */
  function Restored(bs: seq<Block>, names: map<string, string>, items: seq<(nat, string)>): map<string, string>
    requires forall k :: 0 <= k < |items| ==> items[k].0 < |bs|
    decreases |items|
  {
    if items == [] then names
    else
      var (b, short) := items[0];
      Restored(bs, if ArmatureImport.Renamed(bs[b].name, short) then names[short := bs[b].name] else names, items[1..])
  }

  /** A name the `FullNames` format can carry. */
  predicate Plain(s: string)
  {
    ';' !in s && '\n' !in s
  }

  /** Reading back what `store_names` wrote restores the names, as long as
      no name holds `;` or a line break. */
  lemma {:induction false} FullNamesRoundTrip(bs: seq<Block>, names: map<string, string>, items: seq<(nat, string)>)
    requires forall k :: 0 <= k < |items| ==> items[k].0 < |bs| && Plain(items[k].1) && Plain(bs[items[k].0].name)
    ensures ApplyNameLines(names, Split(ArmatureImport.NamesText(bs, items), '\n')) == Success(Restored(bs, names, items))
    decreases |items|
  {
    if items == [] {
      assert Split("", '\n') == [""];
    } else {
      var (b, short) := items[0];
      var long := bs[b].name;
      var rest := ArmatureImport.NamesText(bs, items[1..]);
      if ArmatureImport.Renamed(long, short) {
        var body := short + ";" + long;
        assert ArmatureImport.NamesText(bs, items) == body + ['\n'] + rest;
        SplitFirst(body, '\n', rest);
        SplitFirst(short, ';', long);
        SplitNone(long, ';');
        assert short + [';'] + long == body;
        var m := names[short := long];
        FullNamesRoundTrip(bs, m, items[1..]);
      } else {
        assert ArmatureImport.NamesText(bs, items) == rest;
        FullNamesRoundTrip(bs, names, items[1..]);
      }
    }
  }

  /** The non-null entries of `xs`, in order. */
  function Present(xs: seq<Option<nat>>): (r: seq<nat>)
    decreases |xs|
  {
    if xs == [] then []
    else Present(xs[..|xs| - 1]) + (if xs[|xs| - 1].Some? then [xs[|xs| - 1].value] else [])
  }

  lemma {:induction false} PresentMembers(xs: seq<Option<nat>>, o: nat)
    ensures o in Present(xs) <==> Some(o) in xs
    decreases |xs|
  {
    if xs != [] {
      PresentMembers(xs[..|xs| - 1], o);
      assert xs == xs[..|xs| - 1] + [xs[|xs| - 1]];
    }
  }

  /** `dict_names`, `dict_block_names` and `dict_blocks` of the exporter;
      `blockKeys` keeps the order in which blocks entered `dict_blocks`. */
  class Exporter {
    var names: map<string, string>
    var blockNames: seq<string>
    var blockKeys: seq<nat>
    var blockObj: map<nat, Option<nat>>

    ghost predicate Valid()
      reads this
    {
      NoDup(blockKeys) && forall b :: b in blockObj <==> b in blockKeys
    }

    constructor ()
      ensures Valid() && names == map[] && blockNames == [] && blockKeys == [] && blockObj == map[]
    {
      names := map[];
      blockNames := [];
      blockKeys := [];
      blockObj := map[];
    }

    /** `dict_blocks.values()`, in the dictionary's order. */
    function Objects(): (r: seq<Option<nat>>)
      reads this
      requires Valid()
      ensures |r| == |blockKeys|
    {
      assert forall k :: 0 <= k < |blockKeys| ==> blockKeys[k] in blockKeys;
      seq(|blockKeys|, k requires 0 <= k < |blockKeys| && blockKeys[k] in blockObj reads this => blockObj[blockKeys[k]])
    }

    /** `get_unique_name`: the first of the base name, `base.00`,
        `base.01`, ... that is neither a block name nor a NIF name given
        already; it becomes a block name and the NIF name of `bName`.
        `toNif` stands for `get_bone_name_for_nif`. */
    method GetUniqueName(bName: string, toNif: string -> string) returns (r: string)
      modifies this`names, this`blockNames
      ensures !Taken(old(blockNames), old(names), r)
      ensures blockNames == old(blockNames) + [r] && names == old(names)[bName := r]
      ensures var base := BaseName(bName, toNif);
              && (!Taken(old(blockNames), old(names), base) ==> r == base)
              && (Taken(old(blockNames), old(names), base) ==>
                    exists u: nat :: r == Suffixed(base, u) &&
                      forall v :: 0 <= v < u ==> Taken(old(blockNames), old(names), Suffixed(base, v)))
    {
      var unique := FreeName(blockNames, names, BaseName(bName, toNif));
      blockNames := blockNames + [unique];
      names := names[bName := unique];
      r := unique;
    }

    /** `get_full_name`: the NIF name already given to `bName`, else a
        new unique one; either way `bName` keeps it. */
    method GetFullName(bName: string, toNif: string -> string) returns (r: string)
      modifies this`names, this`blockNames
      ensures bName in names && names[bName] == r
      ensures bName in old(names) ==> r == old(names)[bName] && names == old(names) && blockNames == old(blockNames)
      ensures bName !in old(names) ==>
                !Taken(old(blockNames), old(names), r) &&
                blockNames == old(blockNames) + [r] && names == old(names)[bName := r]
    {
      if bName in names {
        return names[bName];
      }
      r := GetUniqueName(bName, toNif);
    }

    /** `rebuild_full_names`: without a `FullNames` text nothing changes;
        otherwise each of its lines is applied to `dict_names`. */
    method RebuildFullNames(text: Option<string>) returns (r: Outcome<ExportError>)
      modifies this`names
      ensures text.None? ==> r == Pass && names == old(names)
      ensures text.Some? ==>
                var res := ApplyNameLines(old(names), Split(text.value, '\n'));
                && (res.Success? ==> r == Pass && names == res.value)
                && (res.Failure? ==> r == Fail(BadNamesLine))
    {
      if text.None? {
        return Pass;
      }
      var lines := Split(text.value, '\n');
      var k := 0;
      while k < |lines|
        invariant 0 <= k <= |lines|
        invariant ApplyNameLines(old(names), lines) == ApplyNameLines(names, lines[k..])
      {
        assert lines[k..][1..] == lines[k + 1..];
        var line := lines[k];
        if |line| > 0 {
          var parts := Split(line, ';');
          if |parts| != 2 {
            return Fail(BadNamesLine);
          }
          names := names[parts[0] := parts[1]];
        }
        k := k + 1;
      }
      return Pass;
    }

    /** `register_block`: the block is associated with the Blender object
        (or with none) in `dict_blocks`. */
    method RegisterBlock(block: nat, obj: Option<nat>) returns (r: nat)
      requires Valid()
      modifies this`blockKeys, this`blockObj
      ensures Valid() && r == block && blockObj == old(blockObj)[block := obj]
      ensures blockKeys == if block in old(blockObj) then old(blockKeys) else old(blockKeys) + [block]
      ensures obj.Some? ==> obj.value in Present(Objects())
    {
      if block !in blockObj {
        blockKeys := blockKeys + [block];
      }
      blockObj := blockObj[block := obj];
      if obj.Some? {
        var k :| 0 <= k < |blockKeys| && blockKeys[k] == block;
        assert Objects()[k] == obj;
        PresentMembers(Objects(), obj.value);
      }
      return block;
    }

    /** `get_exported_objects`: the objects of `dict_blocks`, each once,
        in order of first appearance. */
    method GetExportedObjects() returns (objs: seq<nat>)
      requires Valid()
      ensures objs == AddAll([], Present(Objects()))
    {
      var values := Objects();
      objs := [];
      var k := 0;
      while k < |values|
        invariant 0 <= k <= |values|
        invariant objs == AddAll([], Present(values[..k]))
      {
        assert values[..k + 1][..k] == values[..k];
        ghost var p := Present(values[..k]);
        assert Present(values[..k + 1]) == p + (if values[k].Some? then [values[k].value] else []);
        if values[k].Some? {
          AddAllSnoc([], p, values[k].value);
          if values[k].value !in objs {
            objs := objs + [values[k].value];
          }
        } else {
          assert p + [] == p;
        }
        k := k + 1;
      }
      assert values[..k] == values;
    }
  }

  /** The exported objects are exactly the objects of `dict_blocks`, with
      no repetition. */
  lemma ExportedObjectsOnce(values: seq<Option<nat>>, o: nat)
    ensures NoDup(AddAll([], Present(values)))
    ensures o in AddAll([], Present(values)) <==> Some(o) in values
  {
    AddAllNoDup([], Present(values));
    AddAllMembers([], Present(values), o);
    PresentMembers(values, o);
  }
}
