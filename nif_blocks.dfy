/** The parsed NIF block graph as the add-on sees it through the format
    library: an arena of block records addressed by index.  A block's
    `children` stand for all the references the library reports for it
    (`get_refs()`: for a NiNode its children, its effects, properties,
    extra data, controller and collision object); a NiNode's `children`
    proper are the NiAVObjects among them that are not dynamic effects.
    `parent` holds the `_parent` links the importer sets.  In a valid graph every reference
    points to a later block and every parent link to an earlier one, which
    is how the model expresses that a NIF scene graph is a tree. */
module NifBlocks {
  import opened Wrappers

  /** The block classes the core tells apart.  NiLODNode and
      RootCollisionNode are NiNode subclasses; NiTriBasedGeom stands for
      NiTriShape and NiTriStrips; NiDynamicEffect for lights and texture
      effects, which a NiNode lists in its `effects` and not among its
      `children`; OtherAV for any other NiAVObject; NonAV for blocks
      without a transform (properties, data, ...). */
  datatype Kind = NiNode | NiLODNode | RootCollisionNode | NiTriBasedGeom | NiDynamicEffect | OtherAV | NonAV

  /** `isinstance(block, NifFormat.NiNode)` */
  predicate IsNiNode(k: Kind)
  {
    k == NiNode || k == NiLODNode || k == RootCollisionNode
  }

  /** `isinstance(block, NifFormat.NiAVObject)` */
  predicate IsAVObject(k: Kind)
  {
    k != NonAV
  }

  /** A reference of a NiNode that is one of its `children`: a NiAVObject
      other than a dynamic effect. */
  predicate IsNodeChild(k: Kind)
  {
    IsAVObject(k) && k != NiDynamicEffect
  }

  /** A NiSkinInstance: the skeleton root and the (possibly null) bones. */
  datatype SkinInstance = SkinInstance(skeletonRoot: nat, bones: seq<Option<nat>>)

  datatype Block = Block(kind: Kind, name: string, children: seq<Option<nat>>, skin: Option<SkinInstance>)

  /** Every non-null entry of `refs` lies strictly after `above` and inside the arena. */
  predicate RefsAfter(refs: seq<Option<nat>>, above: nat, size: nat)
  {
    forall k :: 0 <= k < |refs| && refs[k].Some? ==> above < refs[k].value < size
  }

  predicate RefsIn(refs: seq<Option<nat>>, size: nat)
  {
    forall k :: 0 <= k < |refs| && refs[k].Some? ==> refs[k].value < size
  }

  /** Every reference points to a later block; skin references stay inside the arena. */
  ghost predicate BlocksValid(bs: seq<Block>)
  {
    && (forall i :: 0 <= i < |bs| ==> RefsAfter(bs[i].children, i, |bs|))
    && (forall i :: 0 <= i < |bs| && bs[i].skin.Some? ==>
          bs[i].skin.value.skeletonRoot < |bs| && RefsIn(bs[i].skin.value.bones, |bs|))
  }

  /** Parent links point to earlier blocks. */
  ghost predicate ParentsValid(bs: seq<Block>, parent: seq<Option<nat>>)
  {
    |parent| == |bs| && forall i :: 0 <= i < |bs| && parent[i].Some? ==> parent[i].value < i
  }

  /** The blocks together with the `_parent` links. */
  datatype Graph = Graph(blocks: seq<Block>, parent: seq<Option<nat>>) {
    ghost predicate Valid()
    {
      BlocksValid(blocks) && ParentsValid(blocks, parent)
    }
  }

  /** How a walk descends: through every reference (`tree()`, `find()`),
      only into NiAVObjects (`mark_armatures_bones`), or only out of NiNodes
      into their `children` (`set_parents`). */
  datatype Descent = AllRefs | AVRefs | FromNiNodes

  /** Whether a walk of the given descent follows a reference to a block of kind `k`. */
  predicate Descends(d: Descent, k: Kind)
  {
    match d
    case AllRefs => true
    case AVRefs => IsAVObject(k)
    case FromNiNodes => IsNodeChild(k)
  }

  /** Pre-order walk from block `i`. */
  function Walk(bs: seq<Block>, i: nat, d: Descent): (t: seq<nat>)
    requires BlocksValid(bs) && i < |bs|
    ensures 1 <= |t| && t[0] == i
    ensures forall k :: 0 <= k < |t| ==> i <= t[k] < |bs|
    decreases |bs| - i, 1
  {
    if d == FromNiNodes && !IsNiNode(bs[i].kind) then [i]
    else [i] + Forest(bs, bs[i].children, i, d)
  }

  function Forest(bs: seq<Block>, refs: seq<Option<nat>>, above: nat, d: Descent): (t: seq<nat>)
    requires BlocksValid(bs) && above < |bs| && RefsAfter(refs, above, |bs|)
    ensures forall k :: 0 <= k < |t| ==> above < t[k] < |bs|
    decreases |bs| - above, 0, |refs|
  {
    if refs == [] then []
    else Visit(bs, refs[0], above, d) + Forest(bs, refs[1..], above, d)
  }

  /** The walk below one reference: nothing for a null reference or, unless
      every reference is followed, for a block without a transform. */
  function Visit(bs: seq<Block>, ref: Option<nat>, above: nat, d: Descent): (t: seq<nat>)
    requires BlocksValid(bs) && above < |bs| && (ref.Some? ==> above < ref.value < |bs|)
    ensures forall k :: 0 <= k < |t| ==> above < t[k] < |bs|
    decreases |bs| - above, 0, 0
  {
    match ref
    case None => []
    case Some(c) => if Descends(d, bs[c].kind) then Walk(bs, c, d) else []
  }

  /** `block.tree()` */
  function Tree(bs: seq<Block>, i: nat): (t: seq<nat>)
    requires BlocksValid(bs) && i < |bs|
    ensures 1 <= |t| && t[0] == i
    ensures forall k :: 0 <= k < |t| ==> i <= t[k] < |bs|
  {
    Walk(bs, i, AllRefs)
  }

  /** A reference a walk follows from block `x`. */
  predicate Follows(bs: seq<Block>, x: nat, c: nat, d: Descent)
    requires x < |bs| && c < |bs|
  {
    && Some(c) in bs[x].children
    && (d == FromNiNodes ==> IsNiNode(bs[x].kind))
    && Descends(d, bs[c].kind)
  }

  /** Reaching `c` from `i` and `x` from `c` reaches `x` from `i`. */
  lemma {:induction false} WalkTrans(bs: seq<Block>, i: nat, c: nat, x: nat, d: Descent)
    requires BlocksValid(bs) && i < |bs| && c < |bs|
    requires c in Walk(bs, i, d) && x in Walk(bs, c, d)
    ensures x in Walk(bs, i, d)
    decreases |bs| - i, 1
  {
    if c != i {
      ForestTrans(bs, bs[i].children, i, c, x, d);
    }
  }

  lemma {:induction false} ForestTrans(bs: seq<Block>, refs: seq<Option<nat>>, above: nat, c: nat, x: nat, d: Descent)
    requires BlocksValid(bs) && above < |bs| && RefsAfter(refs, above, |bs|) && c < |bs|
    requires c in Forest(bs, refs, above, d) && x in Walk(bs, c, d)
    ensures x in Forest(bs, refs, above, d)
    decreases |bs| - above, 0, |refs|
  {
    var head := Visit(bs, refs[0], above, d);
    assert Forest(bs, refs, above, d) == head + Forest(bs, refs[1..], above, d);
    if c in head {
      WalkTrans(bs, refs[0].value, c, x, d);
    } else {
      ForestTrans(bs, refs[1..], above, c, x, d);
    }
  }

  /** Every block a followed reference leads to is in the forest below it. */
  lemma {:induction false} ForestHasRef(bs: seq<Block>, refs: seq<Option<nat>>, above: nat, k: nat, d: Descent)
    requires BlocksValid(bs) && above < |bs| && RefsAfter(refs, above, |bs|)
    requires k < |refs| && refs[k].Some? && Descends(d, bs[refs[k].value].kind)
    ensures refs[k].value in Forest(bs, refs, above, d)
    decreases |refs|
  {
    if k > 0 {
      ForestHasRef(bs, refs[1..], above, k - 1, d);
    }
  }

  /** A walk is closed under the references it follows. */
  lemma ChildInWalk(bs: seq<Block>, i: nat, x: nat, c: nat, d: Descent)
    requires BlocksValid(bs) && i < |bs| && x < |bs| && c < |bs| && x in Walk(bs, i, d)
    requires Follows(bs, x, c, d)
    ensures c in Walk(bs, i, d)
  {
    var k :| 0 <= k < |bs[x].children| && bs[x].children[k] == Some(c);
    ForestHasRef(bs, bs[x].children, x, k, d);
    assert c in Walk(bs, c, d);
    WalkTrans(bs, x, c, c, d);
    WalkTrans(bs, i, x, c, d);
  }

  /** Every block in a walk other than its start is reached through a
      reference the walk follows from one of the start's children. */
  lemma {:induction false} ForestMember(bs: seq<Block>, refs: seq<Option<nat>>, above: nat, x: nat, d: Descent)
    requires BlocksValid(bs) && above < |bs| && RefsAfter(refs, above, |bs|)
    requires x in Forest(bs, refs, above, d)
    ensures exists k :: 0 <= k < |refs| && refs[k].Some? && Descends(d, bs[refs[k].value].kind) &&
                        x in Walk(bs, refs[k].value, d)
    decreases |refs|
  {
    var head := Visit(bs, refs[0], above, d);
    assert Forest(bs, refs, above, d) == head + Forest(bs, refs[1..], above, d);
    if x !in head {
      ForestMember(bs, refs[1..], above, x, d);
      var k :| 0 <= k < |refs[1..]| && refs[1..][k].Some? && Descends(d, bs[refs[1..][k].value].kind) &&
               x in Walk(bs, refs[1..][k].value, d);
      assert refs[k + 1] == refs[1..][k];
    }
  }

  /** What `block.find(block_name=name[, block_type=NiNode])` matches. */
  predicate Matches(bs: seq<Block>, x: nat, name: string, niNodeOnly: bool)
    requires x < |bs|
  {
    name != "" && bs[x].name == name && (!niNodeOnly || IsNiNode(bs[x].kind))
  }

  /** The first block of `t` that matches. */
  function FirstMatch(bs: seq<Block>, t: seq<nat>, name: string, niNodeOnly: bool): (r: Option<nat>)
    requires forall k :: 0 <= k < |t| ==> t[k] < |bs|
    ensures r.None? ==> forall k :: 0 <= k < |t| ==> !Matches(bs, t[k], name, niNodeOnly)
    ensures r.Some? ==> exists k :: 0 <= k < |t| && t[k] == r.value && Matches(bs, t[k], name, niNodeOnly) &&
                          forall j :: 0 <= j < k ==> !Matches(bs, t[j], name, niNodeOnly)
    decreases |t|
  {
    if t == [] then None
    else if Matches(bs, t[0], name, niNodeOnly) then Some(t[0])
    else
      var r := FirstMatch(bs, t[1..], name, niNodeOnly);
      assert r.Some? ==> exists k :: 0 <= k < |t| - 1 && t[1..][k] == r.value && Matches(bs, t[1..][k], name, niNodeOnly) &&
                          forall j :: 0 <= j < k ==> !Matches(bs, t[1..][j], name, niNodeOnly);
      assert r.Some? ==> exists k :: 1 <= k < |t| && t[k] == r.value && Matches(bs, t[k], name, niNodeOnly) &&
                          forall j :: 0 <= j < k ==> !Matches(bs, t[j], name, niNodeOnly);
      r
  }

  /** pyffi's `find`: the first match in pre-order over the block's tree. */
  function Find(bs: seq<Block>, i: nat, name: string, niNodeOnly: bool): (r: Option<nat>)
    requires BlocksValid(bs) && i < |bs|
    ensures r.Some? ==> r.value in Tree(bs, i) && Matches(bs, r.value, name, niNodeOnly)
    ensures r.None? ==> forall x :: x in Tree(bs, i) ==> !Matches(bs, x, name, niNodeOnly)
  {
    FirstMatch(bs, Tree(bs, i), name, niNodeOnly)
  }
}
