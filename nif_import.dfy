/** The importer's own bookkeeping (io_scene_nif/nif_import.py): parent
    links, grouping-node detection, unique Blender names for NIF blocks,
    the vertex and face index maps built while importing a mesh, and the
    selection check of 'geometry only' mode. */
module NifImport {
  import opened Wrappers
  import opened Text
  import opened Seqs
  import opened NifBlocks

  /** The three values of the import operator's `skeleton` option. */
  datatype SkeletonMode = SkeletonOnly | GeometryOnly | Everything

  /** The `NifError`/`RuntimeError`/`IndexError` conditions raised here. */
  datatype ImportError = NotOneArmatureSelected | RanOutOfNames | VertexIndexOutOfRange

  /** An object of the Blender selection: its name, its type and, for an
      armature, the names of its bones. */
  datatype SceneObject = SceneObject(name: string, objType: string, boneNames: seq<string>)

  /** 'Geometry only' mode needs exactly one selected object, an armature. */
  function CheckSelection(mode: SkeletonMode, selected: seq<SceneObject>): (r: Outcome<ImportError>)
    ensures r.Fail? <==> mode == GeometryOnly && !(|selected| == 1 && selected[0].objType == "ARMATURE")
    ensures r.Fail? ==> r.error == NotOneArmatureSelected
  {
    if mode == GeometryOnly && (|selected| != 1 || selected[0].objType != "ARMATURE") then
      Fail(NotOneArmatureSelected)
    else Pass
  }

  /** `y` is a NiNode of the `set_parents` walk from `i` that has `c` among its children. */
  ghost predicate ParentFrom(bs: seq<Block>, i: nat, c: nat, y: nat)
    requires BlocksValid(bs) && i < |bs| && c < |bs|
  {
    y < |bs| && y in Walk(bs, i, FromNiNodes) && Follows(bs, y, c, FromNiNodes)
  }

  /** `c` is referenced by no NiNode other than `x`, as in a tree. */
  ghost predicate OnlyReferrer(bs: seq<Block>, x: nat, c: nat)
  {
    forall y :: 0 <= y < |bs| && IsNiNode(bs[y].kind) && Some(c) in bs[y].children ==> y == x
  }

  /** A block refers only to later blocks. */
  lemma FollowsAfter(bs: seq<Block>, x: nat, c: nat, d: Descent)
    requires BlocksValid(bs) && x < |bs| && c < |bs| && Follows(bs, x, c, d)
    ensures x < c
  {
    var k :| 0 <= k < |bs[x].children| && bs[x].children[k] == Some(c);
    assert RefsAfter(bs[x].children, x, |bs|);
  }

  /** A parent found below a child of `i` is also found from `i`. */
  lemma ParentFromTrans(bs: seq<Block>, i: nat, m: nat, c: nat, y: nat)
    requires BlocksValid(bs) && i < |bs| && m < |bs| && c < |bs|
    requires m in Walk(bs, i, FromNiNodes) && ParentFrom(bs, m, c, y)
    ensures ParentFrom(bs, i, c, y)
  {
    WalkTrans(bs, i, m, y, FromNiNodes);
  }

  /** `v` is a parent link `set_parents` from `i` may have written for `c`. */
  ghost predicate Good(bs: seq<Block>, i: nat, c: nat, v: Option<nat>)
    requires BlocksValid(bs) && i < |bs| && c < |bs|
  {
    v.Some? && ParentFrom(bs, i, c, v.value)
  }

  /** Every link that differs between `before` and `after` is one of those. */
  ghost predicate ChangedOnlyFrom(bs: seq<Block>, i: nat, before: seq<Option<nat>>, after: seq<Option<nat>>)
    requires BlocksValid(bs) && i < |bs|
  {
    |before| == |bs| && |after| == |bs| &&
    forall c :: 0 <= c < |bs| ==> after[c] == before[c] || Good(bs, i, c, after[c])
  }

  /** Every child a NiNode of the walk from `m` refers to has such a link. */
  ghost predicate CoveredFrom(bs: seq<Block>, i: nat, m: nat, p: seq<Option<nat>>)
    requires BlocksValid(bs) && i < |bs| && m < |bs|
  {
    |p| == |bs| &&
    forall x, c :: 0 <= x < |bs| && 0 <= c < |bs| && x in Walk(bs, m, FromNiNodes) && Follows(bs, x, c, FromNiNodes) ==>
      Good(bs, i, c, p[c])
  }

  lemma ChildOfNiNode(bs: seq<Block>, i: nat, k: nat)
    requires BlocksValid(bs) && i < |bs| && IsNiNode(bs[i].kind)
    requires k < |bs[i].children| && bs[i].children[k].Some? && bs[i].children[k].value < |bs|
    requires IsNodeChild(bs[bs[i].children[k].value].kind)
    ensures i < bs[i].children[k].value
    ensures Good(bs, i, bs[i].children[k].value, Some(i))
    ensures bs[i].children[k].value in Walk(bs, i, FromNiNodes)
  {
    var c := bs[i].children[k].value;
    assert bs[i].children[k] in bs[i].children;
    assert Follows(bs, i, c, FromNiNodes);
    FollowsAfter(bs, i, c, FromNiNodes);
    ChildInWalk(bs, i, i, c, FromNiNodes);
  }

  lemma ChangedStep(bs: seq<Block>, i: nat, c: nat, before: seq<Option<nat>>, after: seq<Option<nat>>)
    requires BlocksValid(bs) && i < |bs| && c < |bs| && |before| == |bs|
    requires after == before[c := Some(i)] && Good(bs, i, c, Some(i))
    ensures ChangedOnlyFrom(bs, i, before, after)
  {
  }

  /** What the recursive call from a child guarantees holds from `i`. */
  lemma LiftCall(bs: seq<Block>, i: nat, m: nat, start: seq<Option<nat>>, mid: seq<Option<nat>>, after: seq<Option<nat>>)
    requires BlocksValid(bs) && i < |bs| && m < |bs| && m in Walk(bs, i, FromNiNodes)
    requires ChangedOnlyFrom(bs, i, start, mid) && ChangedOnlyFrom(bs, m, mid, after) && CoveredFrom(bs, m, m, after)
    ensures ChangedOnlyFrom(bs, i, start, after) && ChangedOnlyFrom(bs, i, mid, after) && CoveredFrom(bs, i, m, after)
  {
    forall c | 0 <= c < |bs| && after[c] != mid[c]
      ensures Good(bs, i, c, after[c])
    {
      ParentFromTrans(bs, i, m, c, after[c].value);
    }
    forall x, c | 0 <= x < |bs| && 0 <= c < |bs| && x in Walk(bs, m, FromNiNodes) && Follows(bs, x, c, FromNiNodes)
      ensures Good(bs, i, c, after[c])
    {
      ParentFromTrans(bs, i, m, c, after[c].value);
    }
  }

  /** Later writes keep earlier children covered. */
  lemma KeepCovered(bs: seq<Block>, i: nat, m: nat, mid: seq<Option<nat>>, after: seq<Option<nat>>)
    requires BlocksValid(bs) && i < |bs| && m < |bs|
    requires CoveredFrom(bs, i, m, mid) && ChangedOnlyFrom(bs, i, mid, after) && Good(bs, i, m, mid[m])
    ensures Good(bs, i, m, after[m]) && CoveredFrom(bs, i, m, after)
  {
  }

  /** The first `k` children of NiNode `i` have good links and their walks are covered. */
  ghost predicate ChildrenCovered(bs: seq<Block>, i: nat, p: seq<Option<nat>>, k: nat)
    requires BlocksValid(bs) && i < |bs| && k <= |bs[i].children|
  {
    var refs := bs[i].children;
    assert RefsAfter(refs, i, |bs|);
    |p| == |bs| &&
    forall j :: 0 <= j < k && refs[j].Some? && IsNodeChild(bs[refs[j].value].kind) ==>
      Good(bs, i, refs[j].value, p[refs[j].value]) && CoveredFrom(bs, i, refs[j].value, p)
  }

  lemma ChildrenCoveredKeep(bs: seq<Block>, i: nat, mid: seq<Option<nat>>, after: seq<Option<nat>>, k: nat)
    requires BlocksValid(bs) && i < |bs| && k <= |bs[i].children|
    requires ChildrenCovered(bs, i, mid, k) && ChangedOnlyFrom(bs, i, mid, after)
    ensures ChildrenCovered(bs, i, after, k)
  {
    var refs := bs[i].children;
    assert RefsAfter(refs, i, |bs|);
    forall j | 0 <= j < k && refs[j].Some? && IsNodeChild(bs[refs[j].value].kind)
      ensures Good(bs, i, refs[j].value, after[refs[j].value]) && CoveredFrom(bs, i, refs[j].value, after)
    {
      KeepCovered(bs, i, refs[j].value, mid, after);
    }
  }

  lemma ChildrenCoveredStep(bs: seq<Block>, i: nat, p: seq<Option<nat>>, k: nat)
    requires BlocksValid(bs) && i < |bs| && k < |bs[i].children|
    requires ChildrenCovered(bs, i, p, k)
    requires var r := bs[i].children[k];
             r.Some? && r.value < |bs| && IsNodeChild(bs[r.value].kind) ==> Good(bs, i, r.value, p[r.value]) && CoveredFrom(bs, i, r.value, p)
    ensures ChildrenCovered(bs, i, p, k + 1)
  {
    assert RefsAfter(bs[i].children, i, |bs|);
  }

  /** Where the walk's NiNode is the only one referring to a child, the
      child's link is that node. */
  lemma OnlyReferrerParent(bs: seq<Block>, i: nat, p: seq<Option<nat>>)
    requires BlocksValid(bs) && i < |bs| && CoveredFrom(bs, i, i, p)
    ensures forall x, c ::
              (0 <= x < |bs| && 0 <= c < |bs| && x in Walk(bs, i, FromNiNodes) &&
               Follows(bs, x, c, FromNiNodes) && OnlyReferrer(bs, x, c)) ==> p[c] == Some(x)
  {
    forall x, c | 0 <= x < |bs| && 0 <= c < |bs| && x in Walk(bs, i, FromNiNodes) &&
                  Follows(bs, x, c, FromNiNodes) && OnlyReferrer(bs, x, c)
      ensures p[c] == Some(x)
    {
      assert Good(bs, i, c, p[c]);
    }
  }

  /** Covering every child of `i` and the walk below each covers the walk from `i`. */
  lemma CoverAll(bs: seq<Block>, i: nat, p: seq<Option<nat>>)
    requires BlocksValid(bs) && i < |bs| && IsNiNode(bs[i].kind) && |p| == |bs|
    requires ChildrenCovered(bs, i, p, |bs[i].children|)
    ensures CoveredFrom(bs, i, i, p)
  {
    var refs := bs[i].children;
    forall x, c | 0 <= x < |bs| && 0 <= c < |bs| && x in Walk(bs, i, FromNiNodes) && Follows(bs, x, c, FromNiNodes)
      ensures Good(bs, i, c, p[c])
    {
      if x == i {
        var j :| 0 <= j < |refs| && refs[j] == Some(c);
      } else {
        assert x in Forest(bs, refs, i, FromNiNodes);
        ForestMember(bs, refs, i, x, FromNiNodes);
      }
    }
  }

  /** The `names` and `blockOf` tables are `dict_names` and `dict_blocks`;
      `parent` holds the `_parent` links of the blocks. */
  class Importer {
    const blocks: seq<Block>
    var parent: seq<Option<nat>>
    var names: map<nat, string>
    var blockOf: map<string, nat>

    constructor (bs: seq<Block>)
      requires BlocksValid(bs)
      ensures blocks == bs && parent == seq(|bs|, _ => None) && names == map[] && blockOf == map[]
    {
      blocks := bs;
      parent := seq(|bs|, _ => None);
      names := map[];
      blockOf := map[];
    }

    /** `set_parents`: every child a NiNode of the walk refers to gets a
        `_parent` that is such a NiNode; nothing else is touched, so in a
        tree every child gets its own referring node. */
    method SetParents(i: nat)
      requires BlocksValid(blocks) && ParentsValid(blocks, parent) && i < |blocks|
      modifies this`parent
      ensures ParentsValid(blocks, parent)
      ensures ChangedOnlyFrom(blocks, i, old(parent), parent)
      ensures CoveredFrom(blocks, i, i, parent)
      ensures forall x, c ::
                (0 <= x < |blocks| && 0 <= c < |blocks| && x in Walk(blocks, i, FromNiNodes) &&
                 Follows(blocks, x, c, FromNiNodes) && OnlyReferrer(blocks, x, c)) ==> parent[c] == Some(x)
      decreases |blocks| - i, 1
    {
      if IsNiNode(blocks[i].kind) {
        SetChildrenParents(i);
      }
      OnlyReferrerParent(blocks, i, parent);
    }

    /** The loop of `set_parents` over a NiNode's children: each child
        gets the node as `_parent` and is walked in turn. */
    method SetChildrenParents(i: nat)
      requires BlocksValid(blocks) && ParentsValid(blocks, parent) && i < |blocks| && IsNiNode(blocks[i].kind)
      modifies this`parent
      ensures ParentsValid(blocks, parent)
      ensures ChangedOnlyFrom(blocks, i, old(parent), parent)
      ensures CoveredFrom(blocks, i, i, parent)
      decreases |blocks| - i, 0
    {
      var refs := blocks[i].children;
      assert RefsAfter(refs, i, |blocks|);
      var k := 0;
      while k < |refs|
        invariant 0 <= k <= |refs|
        invariant ParentsValid(blocks, parent)
        invariant ChangedOnlyFrom(blocks, i, old(parent), parent)
        invariant ChildrenCovered(blocks, i, parent, k)
      {
        ghost var start := parent;
        if refs[k].Some? && IsNodeChild(blocks[refs[k].value].kind) {
          var child := refs[k].value;
          ChildOfNiNode(blocks, i, k);
          parent := parent[child := Some(i)];
          ChangedStep(blocks, i, child, start, parent);
          ghost var mid := parent;
          SetParents(child);
          LiftCall(blocks, i, child, old(parent), mid, parent);
          ChildrenCoveredKeep(blocks, i, start, parent, k);
        }
        ChildrenCoveredStep(blocks, i, parent, k);
        k := k + 1;
      }
      CoverAll(blocks, i, parent);
    }

    /** `import_name`: the memo cases, then the first free candidate held
        in `dict_names` and `dict_blocks`.  `inUse` stands for the names of
        `bpy.data.objects`, `materials` and `meshes`; `toBlender` for
        `get_bone_name_for_blender`; `maxLength` is 63 by default. */
    method ImportName(b: Option<nat>, maxLength: int, inUse: set<string>, toBlender: string -> string)
        returns (r: Result<Option<string>, ImportError>)
      requires b.Some? ==> b.value < |blocks|
      modifies this`names, this`blockOf
      ensures b.None? ==> r == Success(None) && names == old(names) && blockOf == old(blockOf)
      ensures b.Some? && b.value in old(names) ==>
                r == Success(Some(old(names)[b.value])) && names == old(names) && blockOf == old(blockOf)
      ensures b.Some? && b.value !in old(names) ==>
                var found := FirstFree(NameToUse(blocks[b.value]), maxLength, inUse, toBlender, -1);
                && (found.None? ==> r == Failure(RanOutOfNames) && names == old(names) && blockOf == old(blockOf))
                && (found.Some? ==> r == Success(Some(found.value)) && names == old(names)[b.value := found.value] &&
                                      blockOf == old(blockOf)[found.value := b.value])
    {
      if b.None? {
        return Success(None);
      }
      var block := b.value;
      if block in names {
        return Success(Some(names[block]));
      }
      var niName := NameToUse(blocks[block]);
      var u := -1;
      while u < 1000
        invariant -1 <= u <= 1000
        invariant FirstFree(niName, maxLength, inUse, toBlender, -1) == FirstFree(niName, maxLength, inUse, toBlender, u)
        decreases 1000 - u
      {
        var shortName := toBlender(Candidate(niName, maxLength, u));
        // `niName not in self.dict_names` always holds: the keys are blocks
        if niName == "InvMarker" || shortName !in inUse {
          names := names[block := shortName];
          blockOf := blockOf[shortName := block];
          return Success(Some(shortName));
        }
        u := u + 1;
      }
      return Failure(RanOutOfNames);
    }
  }

  /** The name the search starts from: an empty block name is replaced. */
  function NameToUse(b: Block): (n: string)
    ensures n != []
    ensures b.name != [] ==> n == b.name
    ensures b.name == [] ==> n == (if b.kind == RootCollisionNode then "RootCollisionNode" else "noname")
  {
    if b.name != [] then b.name
    else if b.kind == RootCollisionNode then "RootCollisionNode"
    else "noname"
  }

  /** Candidate `u` for a name: `u == -1` truncates to `maxLength - 1`,
      otherwise `'%s.%02d' % (name[:maxLength - 4], u)`. */
  function Candidate(niName: string, maxLength: int, u: int): string
    requires -1 <= u
  {
    if u < 0 then SliceTo(niName, maxLength - 1)
    else SliceTo(niName, maxLength - 4) + "." + Pad2(u)
  }

  /** The numbered candidates are pairwise distinct. */
  lemma CandidatesDistinct(niName: string, maxLength: int, a: nat, b: nat)
    requires a != b
    ensures Candidate(niName, maxLength, a) != Candidate(niName, maxLength, b)
  {
    if Candidate(niName, maxLength, a) == Candidate(niName, maxLength, b) {
      var p := SliceTo(niName, maxLength - 4) + ".";
      PrefixCancel(p, Pad2(a), Pad2(b));
      Pad2Injective(a, b);
    }
  }

  /** Short enough names are kept whole by the first candidate. */
  lemma FirstCandidateKeepsShortName(niName: string, maxLength: int)
    requires |niName| < maxLength
    ensures Candidate(niName, maxLength, -1) == niName
  {
  }

  /** The result of the search loop from candidate `u` on: the first
      renamed candidate that is not in use ("InvMarker" takes the first one
      tried), or None when all up to 999 are taken. */
  function FirstFree(niName: string, maxLength: int, inUse: set<string>, toBlender: string -> string, u: int): (r: Option<string>)
    requires -1 <= u <= 1000
    ensures r.None? <==> (niName != "InvMarker" || u == 1000) &&
                         forall j :: u <= j < 1000 ==> toBlender(Candidate(niName, maxLength, j)) in inUse
    ensures r.Some? ==> exists j :: u <= j < 1000 && r.value == toBlender(Candidate(niName, maxLength, j)) &&
                           (niName == "InvMarker" || r.value !in inUse) &&
                           forall i :: u <= i < j ==> toBlender(Candidate(niName, maxLength, i)) in inUse
    ensures niName == "InvMarker" && u < 1000 ==> r == Some(toBlender(Candidate(niName, maxLength, u)))
    decreases 1000 - u
  {
    if u == 1000 then None
    else
      var s := toBlender(Candidate(niName, maxLength, u));
      if niName == "InvMarker" || s !in inUse then Some(s)
      else FirstFree(niName, maxLength, inUse, toBlender, u + 1)
  }

  /** The " NonAccum" trailer (any case) is stripped from a grouping node's name. */
  function GroupName(name: string): (g: string)
    ensures (|name| >= 9 && Lower(name[|name| - 9..]) == " nonaccum") ==> g == name[..|name| - 9]
    ensures !(|name| >= 9 && Lower(name[|name| - 9..]) == " nonaccum") ==> g == name
  {
    if Lower(SuffixOf(name, 9)) == " nonaccum" then name[..|name| - 9] else name
  }

  /** `r` lists, in order, some of the non-null entries of `refs`. */
  predicate SubseqOf(r: seq<nat>, refs: seq<Option<nat>>)
    decreases |refs|
  {
    if r == [] then true
    else if refs == [] then false
    else (refs[0] == Some(r[0]) && SubseqOf(r[1..], refs[1..])) || SubseqOf(r, refs[1..])
  }

  /** The geometry children whose test `GeomChild` accepts, in order. */
  function GeomChildren(bs: seq<Block>, refs: seq<Option<nat>>, pattern: Option<string>): (r: seq<nat>)
    requires RefsIn(refs, |bs|)
    ensures SubseqOf(r, refs)
    decreases |refs|
  {
    if refs == [] then []
    else
      assert RefsIn(refs[1..], |bs|);
      var rest := GeomChildren(bs, refs[1..], pattern);
      if refs[0].Some? && GeomChild(bs, refs[0].value, pattern) then
        assert ([refs[0].value] + rest)[1..] == rest;
        [refs[0].value] + rest
      else rest
  }

  /** Exactly the accepted non-null entries are kept. */
  lemma {:induction false} GeomChildrenMembers(bs: seq<Block>, refs: seq<Option<nat>>, pattern: Option<string>, c: nat)
    requires RefsIn(refs, |bs|)
    ensures c in GeomChildren(bs, refs, pattern) <==> Some(c) in refs && c < |bs| && GeomChild(bs, c, pattern)
    decreases |refs|
  {
    if refs != [] {
      assert RefsIn(refs[1..], |bs|);
      GeomChildrenMembers(bs, refs[1..], pattern, c);
      assert refs == [refs[0]] + refs[1..];
    }
  }

  lemma GeomChildrenAll(bs: seq<Block>, refs: seq<Option<nat>>, pattern: Option<string>)
    requires RefsIn(refs, |bs|)
    ensures forall c :: c in GeomChildren(bs, refs, pattern) <==> Some(c) in refs && c < |bs| && GeomChild(bs, c, pattern)
  {
    forall c {
      GeomChildrenMembers(bs, refs, pattern, c);
    }
  }

  /** A NiTriBasedGeom child, whose name contains `pattern` when there is one. */
  predicate GeomChild(bs: seq<Block>, c: nat, pattern: Option<string>)
    requires c < |bs|
  {
    bs[c].kind == NiTriBasedGeom && (pattern.Some? ==> Contains(bs[c].name, pattern.value))
  }

  /** `is_grouping_node` as intended: the children merged into this node's
      mesh when shapes are combined. */
  function IsGroupingNode(bs: seq<Block>, b: nat, combineShapes: bool): (r: seq<nat>)
    requires BlocksValid(bs) && b < |bs|
    ensures SubseqOf(r, bs[b].children)
    ensures r != [] ==> combineShapes && IsNiNode(bs[b].kind) && bs[b].kind != NiLODNode &&
                        (bs[b].kind == RootCollisionNode || bs[b].name != [])
  {
    assert RefsAfter(bs[b].children, b, |bs|);
    GroupingRule(bs, b, combineShapes, GroupName(bs[b].name))
  }

  /** Which children a grouping node merges: every geometry child of a
      RootCollisionNode, and for a named NiNode the geometry children whose
      name contains the node's name without its " NonAccum" trailer. */
  lemma IsGroupingNodeMembers(bs: seq<Block>, b: nat, combineShapes: bool, c: nat)
    requires BlocksValid(bs) && b < |bs| && combineShapes
    ensures bs[b].kind == RootCollisionNode ==>
              (c in IsGroupingNode(bs, b, combineShapes) <==> Some(c) in bs[b].children && c < |bs| && bs[c].kind == NiTriBasedGeom)
    ensures (bs[b].kind == NiNode || bs[b].kind == NiLODNode) && bs[b].name != [] ==>
              (c in IsGroupingNode(bs, b, combineShapes) <==>
                 bs[b].kind == NiNode && Some(c) in bs[b].children && c < |bs| &&
                 bs[c].kind == NiTriBasedGeom && Contains(bs[c].name, GroupName(bs[b].name)))
  {
    assert RefsAfter(bs[b].children, b, |bs|);
    if bs[b].kind == RootCollisionNode {
      GeomChildrenMembers(bs, bs[b].children, None, c);
    } else if bs[b].kind == NiNode && bs[b].name != [] {
      GeomChildrenMembers(bs, bs[b].children, Some(GroupName(bs[b].name)), c);
    }
  }

  /** `is_grouping_node` as written: the node name is a byte string, so
      comparing its last nine bytes with the text " nonaccum" is never
      true and no trailer is ever stripped. */
  function IsGroupingNodeAsWritten(bs: seq<Block>, b: nat, combineShapes: bool): (r: seq<nat>)
    requires BlocksValid(bs) && b < |bs|
    ensures SubseqOf(r, bs[b].children)
    ensures combineShapes && bs[b].kind == NiNode && bs[b].name != [] ==>
              forall c :: c in r <==> Some(c) in bs[b].children && c < |bs| &&
                                      bs[c].kind == NiTriBasedGeom && Contains(bs[c].name, bs[b].name)
  {
    assert RefsAfter(bs[b].children, b, |bs|);
    GeomChildrenAll(bs, bs[b].children, Some(bs[b].name));
    GroupingRule(bs, b, combineShapes, bs[b].name)
  }

  /** The decisions of `is_grouping_node`, given the name to look for. */
  function GroupingRule(bs: seq<Block>, b: nat, combineShapes: bool, nodeName: string): (r: seq<nat>)
    requires b < |bs| && RefsIn(bs[b].children, |bs|)
    ensures SubseqOf(r, bs[b].children)
  {
    if !combineShapes || !IsNiNode(bs[b].kind) || bs[b].kind == NiLODNode then []
    else if bs[b].kind == RootCollisionNode then GeomChildren(bs, bs[b].children, None)
    else if bs[b].name == [] then []
    else GeomChildren(bs, bs[b].children, Some(nodeName))
  }

  /** A node named "Bip01 NonAccum" with a geometry child "Bip01 Mesh". */
  function NonAccumExample(): (bs: seq<Block>)
    ensures |bs| == 2 && BlocksValid(bs)
  {
    [Block(NiNode, "Bip01 NonAccum", [Some(1)], None), Block(NiTriBasedGeom, "Bip01 Mesh", [], None)]
  }

  /** As written, the "Bip01 NonAccum" node groups nothing. */
  lemma NonAccumNotGroupedAsWritten()
    ensures IsGroupingNodeAsWritten(NonAccumExample(), 0, true) == []
  {
    var bs := NonAccumExample();
    assert !Contains(bs[1].name, bs[0].name);
  }

  /** As intended, the node groups its mesh. */
  lemma NonAccumGrouped()
    ensures IsGroupingNode(NonAccumExample(), 0, true) == [1]
  {
    var bs := NonAccumExample();
    assert Lower(SuffixOf(bs[0].name, 9)) == " nonaccum";
    assert GroupName(bs[0].name) == "Bip01";
    assert bs[1].name[..5] == "Bip01";
    assert Contains(bs[1].name, "Bip01");
  }

  /** Whatever the case of the trailer, the name before it is what grouping looks for. */
  lemma GroupNameStrips(base: string, trailer: string)
    requires |trailer| == 9 && Lower(trailer) == " nonaccum"
    ensures GroupName(base + trailer) == base
  {
    var name := base + trailer;
    assert name[|name| - 9..] == trailer;
    assert name[..|name| - 9] == base;
  }

  /** The first vertex in `[1, n)` whose key is `k`, or `n` when there is none. */
  function FirstWithKey<K(==)>(keys: seq<K>, k: K, n: nat): (r: nat)
    requires 1 <= n <= |keys|
    ensures 1 <= r <= n
    ensures r < n ==> keys[r] == k
    ensures forall j :: 1 <= j < r ==> keys[j] != k
  {
    if n == 1 then 1
    else
      var f := FirstWithKey(keys, k, n - 1);
      if f < n - 1 then f else if keys[n - 1] == k then n - 1 else n
  }

  /** Vertex `i` gets a new Blender vertex: vertex 0 always does (a match
      with NIF index 0 reads as "not added"), and with combining on any
      other vertex does unless a vertex in `[1, i)` has the same key. */
  predicate FreshVertex<K(==)>(keys: seq<K>, combine: bool, i: nat)
    requires i < |keys|
  {
    !combine || i == 0 || FirstWithKey(keys, keys[i], i) == i
  }

  /** Fresh means: combining is off, or no vertex in `[1, i)` has the same key. */
  lemma FreshVertexUnseen<K>(keys: seq<K>, combine: bool, i: nat)
    requires i < |keys|
    ensures FreshVertex(keys, combine, i) <==> !combine || i == 0 || forall j :: 1 <= j < i ==> keys[j] != keys[i]
  {
  }

  /** The number of fresh vertices among the first `n`. */
  function FreshCount<K(==)>(keys: seq<K>, combine: bool, n: nat): (r: nat)
    requires n <= |keys|
    ensures r <= n
    ensures !combine ==> r == n
  {
    if n == 0 then 0 else FreshCount(keys, combine, n - 1) + (if FreshVertex(keys, combine, n - 1) then 1 else 0)
  }

  /** `n_map` after the first `n` vertices with combining on. */
  ghost function NMapAfter<K>(keys: seq<K>, n: nat): map<K, nat>
    requires n <= |keys|
  {
    if n == 0 then map[]
    else
      var m := NMapAfter(keys, n - 1);
      if keys[n - 1] !in m || m[keys[n - 1]] == 0 then m[keys[n - 1] := n - 1] else m
  }

  /** After `n >= 1` vertices, `n_map` holds every key first seen in
      `[1, n)` with that first vertex, and maps a key seen only at vertex 0
      to 0. */
  lemma {:induction false} NMapAfterAt<K>(keys: seq<K>, n: nat, k: K)
    requires 1 <= n <= |keys|
    ensures FirstWithKey(keys, k, n) < n ==> k in NMapAfter(keys, n)
    ensures k in NMapAfter(keys, n) ==>
              NMapAfter(keys, n)[k] == (if FirstWithKey(keys, k, n) < n then FirstWithKey(keys, k, n) else 0)
  {
    if n > 1 {
      NMapAfterAt(keys, n - 1, k);
    }
  }

  /** What the lookup of vertex `i`'s key in `n_map` tells. */
  lemma NMapLookup<K>(keys: seq<K>, i: nat)
    requires i < |keys|
    ensures var m := NMapAfter(keys, i);
            (keys[i] !in m || m[keys[i]] == 0) <==> FreshVertex(keys, true, i)
    ensures var m := NMapAfter(keys, i);
            keys[i] in m && m[keys[i]] != 0 ==> m[keys[i]] == FirstWithKey(keys, keys[i], i) < i
  {
    if 1 <= i {
      NMapAfterAt(keys, i, keys[i]);
    }
  }

  /** The Blender vertex NIF vertex `i` maps to: a fresh vertex takes the
      next index after `start` and the earlier fresh ones; any other takes
      the index of the first vertex in `[1, i)` with its key. */
  function BlenderIndex<K(==)>(keys: seq<K>, combine: bool, start: nat, i: nat): nat
    requires i < |keys|
    decreases i
  {
    if FreshVertex(keys, combine, i) then start + FreshCount(keys, combine, i)
    else BlenderIndex(keys, combine, start, FirstWithKey(keys, keys[i], i))
  }

  lemma {:induction false} FreshCountMono<K>(keys: seq<K>, combine: bool, a: nat, b: nat)
    requires a <= b <= |keys|
    ensures FreshCount(keys, combine, a) <= FreshCount(keys, combine, b)
    decreases b
  {
    if a < b {
      FreshCountMono(keys, combine, a, b - 1);
    }
  }

  /** Every NIF vertex maps into the vertices the loop adds. */
  lemma {:induction false} BlenderIndexRange<K>(keys: seq<K>, combine: bool, start: nat, i: nat)
    requires i < |keys|
    ensures start <= BlenderIndex(keys, combine, start, i) < start + FreshCount(keys, combine, |keys|)
    decreases i
  {
    if FreshVertex(keys, combine, i) {
      FreshCountMono(keys, combine, i + 1, |keys|);
    } else {
      BlenderIndexRange(keys, combine, start, FirstWithKey(keys, keys[i], i));
    }
  }

  /** A repeated vertex shares the Blender vertex of the first vertex with
      its key, and that vertex got a fresh one. */
  lemma BlenderIndexRepeat<K>(keys: seq<K>, combine: bool, start: nat, i: nat)
    requires i < |keys| && !FreshVertex(keys, combine, i)
    ensures var f := FirstWithKey(keys, keys[i], i);
            1 <= f < i && keys[f] == keys[i] && FreshVertex(keys, combine, f) &&
            BlenderIndex(keys, combine, start, i) == BlenderIndex(keys, combine, start, f)
  {
  }

  /** Fresh vertices get distinct, increasing Blender vertices. */
  lemma BlenderIndexIncreasing<K>(keys: seq<K>, combine: bool, start: nat, i: nat, j: nat)
    requires i < j < |keys| && FreshVertex(keys, combine, i) && FreshVertex(keys, combine, j)
    ensures BlenderIndex(keys, combine, start, i) < BlenderIndex(keys, combine, start, j)
  {
    FreshCountMono(keys, combine, i + 1, j);
  }

  /** With combining off every vertex is new: `v_map[i]` is `start + i`. */
  lemma BlenderIndexNoCombine<K>(keys: seq<K>, start: nat, i: nat)
    requires i < |keys|
    ensures BlenderIndex(keys, false, start, i) == start + i
  {
  }

  /** The `v_map`/`n_map` loop of `import_mesh`: `start` is the number of
      vertices the Blender mesh already has; `next` is the count after. */
  method MapVertices<K(==)>(keys: seq<K>, combine: bool, start: nat) returns (vmap: seq<nat>, next: nat)
    ensures |vmap| == |keys|
    ensures next == start + FreshCount(keys, combine, |keys|)
    ensures forall i :: 0 <= i < |keys| ==> vmap[i] == BlenderIndex(keys, combine, start, i)
  {
    var nmap: map<K, nat> := map[];
    vmap := [];
    next := start;
    var i := 0;
    while i < |keys|
      invariant 0 <= i <= |keys| && |vmap| == i
      invariant next == start + FreshCount(keys, combine, i)
      invariant MapsTo(keys, combine, start, vmap)
      invariant combine ==> nmap == NMapAfter(keys, i)
    {
      var k := keys[i];
      NMapLookup(keys, i);
      ghost var before := vmap;
      if !combine || k !in nmap || nmap[k] == 0 {
        // not added: a new vertex / normal pair
        nmap := nmap[k := i];
        vmap := vmap + [next];
        next := next + 1;
      } else {
        vmap := vmap + [vmap[nmap[k]]];
      }
      MapsToSnoc(keys, combine, start, before, vmap);
      i := i + 1;
    }
  }

  /** `vmap` holds the Blender vertex of each of the first `|vmap|` NIF vertices. */
  ghost predicate MapsTo<K>(keys: seq<K>, combine: bool, start: nat, vmap: seq<nat>)
  {
    |vmap| <= |keys| && forall j :: 0 <= j < |vmap| ==> vmap[j] == BlenderIndex(keys, combine, start, j)
  }

  lemma MapsToSnoc<K>(keys: seq<K>, combine: bool, start: nat, vmap: seq<nat>, vmap': seq<nat>)
    requires MapsTo(keys, combine, start, vmap) && |vmap| < |keys|
    requires |vmap'| == |vmap| + 1 && vmap'[..|vmap|] == vmap
    requires vmap'[|vmap|] == BlenderIndex(keys, combine, start, |vmap|)
    ensures MapsTo(keys, combine, start, vmap')
  {
    forall j | 0 <= j < |vmap|
      ensures vmap'[j] == BlenderIndex(keys, combine, start, j)
    {
      assert vmap'[j] == vmap[j];
    }
  }

  /** What the face loop keeps: the faces in first-occurrence order, and
      for each triangle its new face index, None when it repeats a face. */
  datatype FaceMap = FaceMap(uniqueFaces: seq<seq<nat>>, faceMap: seq<Option<nat>>, numNewFaces: nat)

  /** `[v_map[vert_index] for vert_index in f]` */
  function MapFace(f: seq<nat>, vmap: seq<nat>): (r: seq<nat>)
    requires FaceInRange(f, |vmap|)
    ensures |r| == |f| && forall k :: 0 <= k < |f| ==> r[k] == vmap[f[k]]
  {
    seq(|f|, k requires 0 <= k < |f| => vmap[f[k]])
  }

  predicate FaceInRange(f: seq<nat>, n: nat)
  {
    forall k :: 0 <= k < |f| ==> f[k] < n
  }

  /** The mapped faces of the triangles. */
  function MapFaces(tris: seq<seq<nat>>, vmap: seq<nat>): (r: seq<seq<nat>>)
    requires forall t :: 0 <= t < |tris| ==> FaceInRange(tris[t], |vmap|)
    ensures |r| == |tris| && forall t :: 0 <= t < |tris| ==> r[t] == MapFace(tris[t], vmap)
  {
    seq(|tris|, t requires 0 <= t < |tris| => MapFace(tris[t], vmap))
  }

  /** The `unique_faces` loop of `import_mesh`; `startFace` is the number
      of polygons the mesh already has.  A vertex index beyond `v_map`
      raises. */
  method DedupFaces(tris: seq<seq<nat>>, vmap: seq<nat>, startFace: nat) returns (r: Result<FaceMap, ImportError>)
    ensures r.Failure? <==> exists t :: 0 <= t < |tris| && !FaceInRange(tris[t], |vmap|)
    ensures r.Success? ==> FaceMapOf(MapFaces(tris, vmap), startFace, r.value)
  {
    var ok := FacesInRange(tris, vmap);
    if !ok {
      return Failure(VertexIndexOutOfRange);
    }
    var fm := UniqueFaces(MapFaces(tris, vmap), startFace);
    return Success(fm);
  }

  /** What the face loop computes from the mapped triangles: the distinct
      faces in first-occurrence order and, for each triangle, the index of
      its new face or None when an earlier triangle has the same face. */
  ghost predicate FaceMapOf(mapped: seq<seq<nat>>, startFace: nat, fm: FaceMap)
  {
    && fm.uniqueFaces == AddAll([], mapped)
    && fm.numNewFaces == |fm.uniqueFaces|
    && |fm.faceMap| == |mapped|
    && FaceIndicesOf(mapped, startFace, fm.faceMap, |mapped|)
  }

  ghost predicate FaceIndicesOf(mapped: seq<seq<nat>>, startFace: nat, fmap: seq<Option<nat>>, n: nat)
    requires n <= |mapped| && n <= |fmap|
  {
    forall t :: 0 <= t < n ==>
      (fmap[t].Some? <==> mapped[t] !in mapped[..t]) &&
      (fmap[t].Some? ==> fmap[t].value == startFace + |AddAll([], mapped[..t])|)
  }

  /** Whether every vertex index of every triangle lies inside `v_map`. */
  method FacesInRange(tris: seq<seq<nat>>, vmap: seq<nat>) returns (ok: bool)
    ensures ok <==> forall t :: 0 <= t < |tris| ==> FaceInRange(tris[t], |vmap|)
  {
    var i := 0;
    while i < |tris|
      invariant 0 <= i <= |tris|
      invariant forall t :: 0 <= t < i ==> FaceInRange(tris[t], |vmap|)
    {
      var k := 0;
      while k < |tris[i]|
        invariant 0 <= k <= |tris[i]|
        invariant forall j :: 0 <= j < k ==> tris[i][j] < |vmap|
      {
        if tris[i][k] >= |vmap| {
          return false;
        }
        k := k + 1;
      }
      i := i + 1;
    }
    return true;
  }

  /** The `unique_faces` loop proper, over the mapped triangles. */
  method UniqueFaces(mapped: seq<seq<nat>>, startFace: nat) returns (fm: FaceMap)
    ensures FaceMapOf(mapped, startFace, fm)
  {
    var unique: seq<seq<nat>> := [];
    var fmap: seq<Option<nat>> := [];
    var numNew := 0;
    var i := 0;
    while i < |mapped|
      invariant 0 <= i <= |mapped| && |fmap| == i
      invariant unique == AddAll([], mapped[..i]) && numNew == |unique|
      invariant FaceIndicesOf(mapped, startFace, fmap, i)
    {
      var f := mapped[i];
      ghost var fmap0 := fmap;
      ghost var unique0 := unique;
      if f in unique {
        fmap := fmap + [None];
      } else {
        fmap := fmap + [Some(startFace + numNew)];
        unique := unique + [f];
        numNew := numNew + 1;
      }
      UniqueFacesStep(mapped, startFace, i, unique0, fmap0, unique, fmap);
      i := i + 1;
    }
    assert mapped[..|mapped|] == mapped;
    return FaceMap(unique, fmap, numNew);
  }

  /** One round of the `unique_faces` loop keeps its invariant. */
  lemma UniqueFacesStep(mapped: seq<seq<nat>>, startFace: nat, i: nat, unique0: seq<seq<nat>>, fmap0: seq<Option<nat>>,
                        unique: seq<seq<nat>>, fmap: seq<Option<nat>>)
    requires i < |mapped| && |fmap0| == i && unique0 == AddAll([], mapped[..i])
    requires FaceIndicesOf(mapped, startFace, fmap0, i)
    requires mapped[i] in unique0 ==> fmap == fmap0 + [None] && unique == unique0
    requires mapped[i] !in unique0 ==> fmap == fmap0 + [Some(startFace + |unique0|)] && unique == unique0 + [mapped[i]]
    ensures |fmap| == i + 1 && unique == AddAll([], mapped[..i + 1])
    ensures FaceIndicesOf(mapped, startFace, fmap, i + 1)
  {
    AddAllMembers([], mapped[..i], mapped[i]);
    AddAllStep([], mapped, i, unique0, unique);
    assert fmap[..i] == fmap0;
    FaceIndicesStep(mapped, startFace, fmap0, fmap, i);
  }

  lemma FaceIndicesStep(mapped: seq<seq<nat>>, startFace: nat, before: seq<Option<nat>>, after: seq<Option<nat>>, i: nat)
    requires i < |mapped| && |before| == i && |after| == i + 1 && after[..i] == before
    requires FaceIndicesOf(mapped, startFace, before, i)
    requires after[i].Some? <==> mapped[i] !in mapped[..i]
    requires after[i].Some? ==> after[i].value == startFace + |AddAll([], mapped[..i])|
    ensures FaceIndicesOf(mapped, startFace, after, i + 1)
  {
    forall t | 0 <= t < i
      ensures (after[t].Some? <==> mapped[t] !in mapped[..t]) &&
              (after[t].Some? ==> after[t].value == startFace + |AddAll([], mapped[..t])|)
    {
      assert after[t] == before[t];
    }
  }

  /** The kept faces are pairwise distinct and are exactly the mapped triangles. */
  lemma DedupFacesUnique(tris: seq<seq<nat>>, vmap: seq<nat>)
    requires forall t :: 0 <= t < |tris| ==> FaceInRange(tris[t], |vmap|)
    ensures NoDup(AddAll([], MapFaces(tris, vmap)))
    ensures forall f :: f in AddAll([], MapFaces(tris, vmap)) <==> f in MapFaces(tris, vmap)
  {
    AddAllNoDup([], MapFaces(tris, vmap));
    forall f ensures f in AddAll([], MapFaces(tris, vmap)) <==> f in MapFaces(tris, vmap) {
      AddAllMembers([], MapFaces(tris, vmap), f);
    }
  }
}
