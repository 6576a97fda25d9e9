/** The armature classifier (io_scene_nif/modules/armature/armature_import.py):
    which NIF nodes become Blender armatures and which become their bones.
    `armatures` is `dict_armatures`, a map from a skeleton root to the list
    of its bones, grown in place while the node tree is walked. */
module ArmatureImport {
  import opened Wrappers
  import opened Text
  import opened Seqs
  import opened NifBlocks
  import opened NifImport

  /** The import operator settings the classifier reads: the `skeleton`
      option, the NIF version, the file path and `combine_shapes`; and
      whether Blender runs on Windows, where `os.path` is `ntpath`. */
  datatype Options = Options(mode: SkeletonMode, version: int, filePath: string, combineShapes: bool, windows: bool)

  /** The exceptions the classifier raises: the two `NifError`s of
      skeleton and geometry-only import, the incompatible-armature
      `NifError`, and the `AttributeError` of climbing past the top of the
      parent chain.  Before that `AttributeError` the source appends the
      missing (`None`) parent to the bone list; the model appends nothing
      there, as the import is abandoned with the list.
      `UnboundArmatureName` is the `UnboundLocalError` the incompatible-
      armature check raises as written (see `IncompatibleAsWritten`). */
  datatype ArmatureError =
    | RootNotNiNode
    | NoArmature(name: string)
    | IncompatibleArmature(geometry: nat, skeletonRoot: nat)
    | BrokenParentChain(top: nat)
    | UnboundArmatureName

  /** The text after the last separator of `path`. */
  function Tail(path: string, seps: set<char>): (r: string)
    ensures forall k :: 0 <= k < |r| ==> r[k] !in seps
    ensures |r| <= |path| && r == path[|path| - |r|..]
    ensures |r| < |path| ==> path[|path| - |r| - 1] in seps
    decreases |path|
  {
    if path == [] || path[|path| - 1] in seps then []
    else
      var init := path[..|path| - 1];
      var t := Tail(init, seps);
      TailSnoc(init, path[|path| - 1], t, seps);
      assert init + [path[|path| - 1]] == path;
      t + [path[|path| - 1]]
  }

  /** One more character that is not a separator extends the tail. */
  lemma TailSnoc(init: string, c: char, t: string, seps: set<char>)
    requires c !in seps
    requires forall k :: 0 <= k < |t| ==> t[k] !in seps
    requires |t| <= |init| && t == init[|init| - |t|..]
    requires |t| < |init| ==> init[|init| - |t| - 1] in seps
    ensures var p, r := init + [c], t + [c];
            && (forall k :: 0 <= k < |r| ==> r[k] !in seps)
            && |r| <= |p| && r == p[|p| - |r|..]
            && (|r| < |p| ==> p[|p| - |r| - 1] in seps)
  {
    var p, r := init + [c], t + [c];
    assert p[|p| - |r|..] == init[|init| - |t|..] + [c];
    if |r| < |p| {
      assert p[|p| - |r| - 1] == init[|init| - |t| - 1];
    }
  }

  /** A path ending in a separator followed by text without one has that text as tail. */
  lemma {:induction false} TailAfter(a: string, b: string, seps: set<char>)
    requires a != [] && a[|a| - 1] in seps
    requires forall k :: 0 <= k < |b| ==> b[k] !in seps
    ensures Tail(a + b, seps) == b
    decreases |b|
  {
    if b != [] {
      var init := b[..|b| - 1];
      assert (a + b)[..|a + b| - 1] == a + init;
      TailAfter(a, init, seps);
      assert init + [b[|b| - 1]] == b;
    } else {
      assert a + b == a;
    }
  }

  /** A path without separators is its own tail. */
  lemma {:induction false} TailWhole(p: string, seps: set<char>)
    requires forall k :: 0 <= k < |p| ==> p[k] !in seps
    ensures Tail(p, seps) == p
    decreases |p|
  {
    if p != [] {
      TailWhole(p[..|p| - 1], seps);
      assert p[..|p| - 1] + [p[|p| - 1]] == p;
    }
  }

  /** `os.path.basename`: on POSIX the text after the last '/'; on
      Windows a drive such as "C:" is split off first and both '/' and
      '\\' separate. */
  function BaseName(path: string, windows: bool): (r: string)
    ensures |r| <= |path| && r == path[|path| - |r|..]
    ensures forall k :: 0 <= k < |r| ==> r[k] != '/' && (windows ==> r[k] != '\\')
    ensures |r| < |path| ==>
              || path[|path| - |r| - 1] == '/'
              || (windows && (path[|path| - |r| - 1] == '\\' || (|r| == |path| - 2 && path[1] == ':')))
  {
    if !windows then Tail(path, {'/'})
    else if |path| >= 2 && path[1] == ':' then
      var r := Tail(path[2..], {'/', '\\'});
      assert r == path[2..][|path| - 2 - |r|..] == path[|path| - |r|..];
      r
    else Tail(path, {'/', '\\'})
  }

  /** A Windows path to an Oblivion skeleton file takes the skeleton case
      on Windows; read as a POSIX path its base name is the whole path. */
  lemma WindowsSkeletonPath()
    ensures var path := "C:" + "\\Games\\Oblivion\\" + "skeleton.nif";
            && BaseName(path, true) == "skeleton.nif"
            && SkeletonCase(Options(Everything, 0x14000005, path, false, true))
            && BaseName(path, false) == path
  {
    var dir, file := "\\Games\\Oblivion\\", "skeleton.nif";
    WindowsBase(dir, file);
    PosixBase(dir, file);
    LowerSkeleton(file);
  }

  /** The file name of the example is already lower case. */
  lemma LowerSkeleton(file: string)
    requires file == "skeleton.nif"
    ensures Lower(file) == file
  {
  }

  /** The POSIX base name of "C:" + `dir` + `file` is the whole path. */
  lemma PosixBase(dir: string, file: string)
    requires dir == "\\Games\\Oblivion\\" && file == "skeleton.nif"
    ensures BaseName("C:" + dir + file, false) == "C:" + dir + file
  {
    PosixWhole("C:" + dir + file);
  }

  /** The Windows base name of "C:" + `dir` + `file`. */
  lemma WindowsBase(dir: string, file: string)
    requires dir == "\\Games\\Oblivion\\" && file == "skeleton.nif"
    ensures BaseName("C:" + dir + file, true) == file
  {
    var path := "C:" + dir + file;
    assert path[2..] == dir + file;
    TailAfter(dir, file, {'/', '\\'});
  }

  /** A path without '/' is its own POSIX base name. */
  lemma PosixWhole(path: string)
    requires forall k :: 0 <= k < |path| ==> path[k] != '/'
    ensures BaseName(path, false) == path
  {
    TailWhole(path, {'/'});
  }

  /** Skeleton-only import, or an Oblivion/Fallout 3 skeleton file,
      marks every node of the tree as a bone. */
  predicate SkeletonCase(opts: Options)
  {
    || opts.mode == SkeletonOnly
    || ((opts.version == 0x14000005 || opts.version == 0x14020007) &&
        (Lower(BaseName(opts.filePath, opts.windows)) in {"skeleton.nif", "skeletonbeast.nif"}))
  }

  /** The skeleton root of a skeleton import: for Morrowind (version
      0x04000002) the first NiNode named "Bip01", else the root itself. */
  function SkeletonRoot(bs: seq<Block>, b: nat, version: int): (sk: nat)
    requires BlocksValid(bs) && b < |bs|
    ensures sk < |bs|
    ensures version != 0x04000002 ==> sk == b
    ensures sk != b ==> bs[sk].name == "Bip01" && IsNiNode(bs[sk].kind)
  {
    if version == 0x04000002 then
      match Find(bs, b, "Bip01", true)
      case Some(x) => x
      case None => b
    else b
  }

  /** The skeleton root lies in the tree of the import root, and for
      Morrowind it is a "Bip01" NiNode whenever the tree has one. */
  lemma SkeletonRootFound(bs: seq<Block>, b: nat, version: int)
    requires BlocksValid(bs) && b < |bs|
    ensures SkeletonRoot(bs, b, version) in Tree(bs, b)
    ensures version == 0x04000002 && (exists x :: x in Tree(bs, b) && Matches(bs, x, "Bip01", true)) ==>
              var sk := SkeletonRoot(bs, b, version);
              bs[sk].name == "Bip01" && IsNiNode(bs[sk].kind)
  {
  }

  /** The parent chain from a bone up to (and without) the skeleton root;
      `reachesRoot` is false when a block without a parent comes first. */
  datatype Chain = Chain(path: seq<nat>, reachesRoot: bool)

  function ParentChain(bs: seq<Block>, parent: seq<Option<nat>>, bone: nat, root: nat): (c: Chain)
    requires ParentsValid(bs, parent) && bone < |bs|
    ensures forall k :: 0 <= k < |c.path| ==> c.path[k] < bone && c.path[k] != root
    decreases bone
  {
    match parent[bone]
    case None => Chain([], false)
    case Some(p) =>
      if p == root then Chain([], true)
      else
        var up := ParentChain(bs, parent, p, root);
        Chain([p] + up.path, up.reachesRoot)
  }

  /** The chain is exactly the run of `_parent` links: each entry is the
      parent of the one before, and the last link leads to the root or to
      nothing. */
  lemma {:induction false} ParentChainLinks(bs: seq<Block>, parent: seq<Option<nat>>, bone: nat, root: nat)
    requires ParentsValid(bs, parent) && bone < |bs|
    ensures var c := ParentChain(bs, parent, bone, root);
            && (c.path != [] ==> parent[bone] == Some(c.path[0]))
            && (forall k :: 0 <= k < |c.path| - 1 ==> parent[c.path[k]] == Some(c.path[k + 1]))
            && (var last := if c.path == [] then bone else c.path[|c.path| - 1];
                c.reachesRoot <==> parent[last] == Some(root))
    decreases bone
  {
    var c := ParentChain(bs, parent, bone, root);
    if parent[bone].Some? && parent[bone].value != root {
      var p := parent[bone].value;
      ParentChainLinks(bs, parent, p, root);
      var up := ParentChain(bs, parent, p, root);
      assert c.path == [p] + up.path;
      forall k | 0 <= k < |c.path| - 1
        ensures parent[c.path[k]] == Some(c.path[k + 1])
      {
        if k > 0 {
          assert c.path[k] == up.path[k - 1] && c.path[k + 1] == up.path[k];
        }
      }
    }
  }

  /** A NiNode of the tree other than the root itself and not a NiLODNode. */
  predicate BoneCandidate(bs: seq<Block>, root: nat, x: nat)
  {
    x < |bs| && x != root && IsNiNode(bs[x].kind) && bs[x].kind != NiLODNode
  }

  /** A node `populate_bone_tree` marks: a candidate that is not a
      grouping node.  The grouping rule is the intended one, which strips
      a " NonAccum" trailer (see `NonAccumBoneAsWritten`). */
  predicate Eligible(bs: seq<Block>, root: nat, combineShapes: bool, x: nat)
    requires BlocksValid(bs)
  {
    BoneCandidate(bs, root, x) && IsGroupingNode(bs, x, combineShapes) == []
  }

  /** A scene root with a "Bip01 NonAccum" NiNode whose geometry child is "Bip01 Mesh". */
  function NonAccumScene(): (bs: seq<Block>)
    ensures |bs| == 3 && BlocksValid(bs)
  {
    [Block(NiNode, "Scene Root", [Some(1)], None),
     Block(NiNode, "Bip01 NonAccum", [Some(2)], None),
     Block(NiTriBasedGeom, "Bip01 Mesh", [], None)]
  }

  /** With shapes combined, `populate_bone_tree` as written marks the
      "Bip01 NonAccum" node as a bone, since the grouping test never
      strips the trailer; with the intended grouping rule it is a grouping
      node and no bone. */
  lemma NonAccumBoneAsWritten()
    ensures var bs := NonAccumScene();
            && 1 in Tree(bs, 0) && BoneCandidate(bs, 0, 1)
            && IsGroupingNodeAsWritten(bs, 1, true) == []
            && IsGroupingNode(bs, 1, true) == [2]
            && !Eligible(bs, 0, true, 1)
  {
    var bs := NonAccumScene();
    assert 1 in Tree(bs, 0) by {
      assert Tree(bs, 0)[1] == 1;
    }
    NonAccumSceneUngroupedAsWritten();
    NonAccumSceneGrouped();
  }

  lemma NonAccumSceneUngroupedAsWritten()
    ensures IsGroupingNodeAsWritten(NonAccumScene(), 1, true) == []
  {
    var bs := NonAccumScene();
    assert !Contains(bs[2].name, bs[1].name);
  }

  lemma NonAccumSceneGrouped()
    ensures IsGroupingNode(NonAccumScene(), 1, true) == [2]
  {
    var bs := NonAccumScene();
    assert Lower(SuffixOf(bs[1].name, 9)) == " nonaccum";
    assert GroupName(bs[1].name) == "Bip01";
    assert bs[2].name[..5] == "Bip01";
    assert Contains(bs[2].name, "Bip01");
  }

  /** The eligible entries of `t`, in order. */
  function Eligibles(bs: seq<Block>, t: seq<nat>, root: nat, combineShapes: bool): (r: seq<nat>)
    requires BlocksValid(bs)
    ensures |r| <= |t|
  {
    Filter(t, x => Eligible(bs, root, combineShapes, x))
  }

  lemma EligiblesMembers(bs: seq<Block>, t: seq<nat>, root: nat, combineShapes: bool, x: nat)
    requires BlocksValid(bs)
    ensures x in Eligibles(bs, t, root, combineShapes) <==> x in t && Eligible(bs, root, combineShapes, x)
  {
    FilterMembers(t, x => Eligible(bs, root, combineShapes, x), x);
  }

  lemma EligiblesSnoc(bs: seq<Block>, t: seq<nat>, y: nat, root: nat, combineShapes: bool)
    requires BlocksValid(bs)
    ensures Eligibles(bs, t + [y], root, combineShapes) ==
            Eligibles(bs, t, root, combineShapes) + (if Eligible(bs, root, combineShapes, y) then [y] else [])
  {
    FilterSnoc(t, y, x => Eligible(bs, root, combineShapes, x));
  }

  /** One iteration of the population loop. */
  lemma {:induction false} PopulateStep(bs: seq<Block>, t: seq<nat>, k: nat, root: nat, combineShapes: bool, l: seq<nat>, m: seq<nat>, m': seq<nat>)
    requires BlocksValid(bs) && k < |t|
    requires m == AddAll(l, Eligibles(bs, t[..k], root, combineShapes))
    requires m' == if Eligible(bs, root, combineShapes, t[k]) && t[k] !in m then m + [t[k]] else m
    ensures m' == AddAll(l, Eligibles(bs, t[..k + 1], root, combineShapes))
  {
    assert t[..k + 1] == t[..k] + [t[k]];
    EligiblesSnoc(bs, t[..k], t[k], root, combineShapes);
    var done := Eligibles(bs, t[..k], root, combineShapes);
    if Eligible(bs, root, combineShapes, t[k]) {
      AddAllSnoc(l, done, t[k]);
    } else {
      assert done + [] == done;
    }
  }

  /** After population the list holds exactly what it held plus the
      eligible nodes of the root's tree. */
  lemma PopulationMembers(bs: seq<Block>, root: nat, combineShapes: bool, l: seq<nat>, y: nat)
    requires BlocksValid(bs) && root < |bs|
    ensures y in AddAll(l, Eligibles(bs, Tree(bs, root), root, combineShapes)) <==>
            y in l || (y in Tree(bs, root) && Eligible(bs, root, combineShapes, y))
  {
    AddAllMembers(l, Eligibles(bs, Tree(bs, root), root, combineShapes), y);
    EligiblesMembers(bs, Tree(bs, root), root, combineShapes, y);
  }

  /** An excluded node (a LOD node, a grouping node, a non-NiNode) does not
      hide its descendants: an eligible node below it is still marked. */
  lemma PopulationLooksBelowExcluded(bs: seq<Block>, root: nat, combineShapes: bool, z: nat, y: nat)
    requires BlocksValid(bs) && root < |bs| && z < |bs|
    requires z in Tree(bs, root) && y in Tree(bs, z) && Eligible(bs, root, combineShapes, y)
    ensures y in Eligibles(bs, Tree(bs, root), root, combineShapes)
  {
    WalkTrans(bs, root, z, y, AllRefs);
    EligiblesMembers(bs, Tree(bs, root), root, combineShapes, y);
  }

  /** Every root and every bone is a block of the file. */
  predicate ArmaturesIn(arm: map<nat, seq<nat>>, n: nat)
  {
    forall r :: r in arm ==> r < n && forall k :: 0 <= k < |arm[r]| ==> arm[r][k] < n
  }

  /** Appending a block of the file keeps every list inside the file. */
  lemma ArmaturesInAppend(arm: map<nat, seq<nat>>, n: nat, root: nat, x: nat)
    requires ArmaturesIn(arm, n) && root in arm && x < n
    ensures ArmaturesIn(arm[root := arm[root] + [x]], n)
  {
  }

  predicate AllNoDup(arm: map<nat, seq<nat>>)
  {
    forall r :: r in arm ==> NoDup(arm[r])
  }

  /** Every root stays registered and every list only grows at its end. */
  predicate Grows(a: map<nat, seq<nat>>, b: map<nat, seq<nat>>)
  {
    forall r :: r in a ==> r in b && IsPrefix(a[r], b[r])
  }

  lemma GrowsTrans(a: map<nat, seq<nat>>, b: map<nat, seq<nat>>, c: map<nat, seq<nat>>)
    requires Grows(a, b) && Grows(b, c)
    ensures Grows(a, c)
  {
    forall r | r in a
      ensures r in c && IsPrefix(a[r], c[r])
    {
      PrefixTrans(a[r], b[r], c[r]);
    }
  }

  lemma GrowsUpdate(a: map<nat, seq<nat>>, root: nat, l: seq<nat>)
    requires root in a ==> IsPrefix(a[root], l)
    ensures Grows(a, a[root := l])
  {
  }

  lemma MapUpdateSame(m: map<nat, seq<nat>>, k: nat)
    requires k in m
    ensures m[k := m[k]] == m
  {
  }

  lemma MapUpdateKeys(m: map<nat, seq<nat>>, k: nat, v: seq<nat>)
    requires k in m
    ensures m[k := v].Keys == m.Keys
  {
  }

  lemma MapUpdateTwice(m: map<nat, seq<nat>>, k: nat, a: seq<nat>, b: seq<nat>)
    ensures m[k := a][k := b] == m[k := b]
  {
  }

  /** `is_bone`'s answer: some root's list holds the block. */
  predicate IsBoneIn(arm: map<nat, seq<nat>>, b: nat)
  {
    exists r :: r in arm && b in arm[r]
  }

  lemma IsBoneGrows(a: map<nat, seq<nat>>, b: map<nat, seq<nat>>, x: nat)
    requires Grows(a, b) && IsBoneIn(a, x)
    ensures IsBoneIn(b, x)
  {
    var r :| r in a && x in a[r];
    PrefixMembers(a[r], b[r], x);
  }

  /** A skin bone is attached when it is in the list, its parent chain
      reaches the skeleton root and every node on the way is in the list. */
  ghost predicate BoneAttached(bs: seq<Block>, parent: seq<Option<nat>>, list: seq<nat>, bone: nat, root: nat)
    requires ParentsValid(bs, parent) && bone < |bs|
  {
    && bone in list
    && ParentChain(bs, parent, bone, root).reachesRoot
    && forall y :: y in ParentChain(bs, parent, bone, root).path ==> y in list
  }

  lemma BoneAttachedGrows(bs: seq<Block>, parent: seq<Option<nat>>, l: seq<nat>, l': seq<nat>, bone: nat, root: nat)
    requires ParentsValid(bs, parent) && bone < |bs| && IsPrefix(l, l')
    requires BoneAttached(bs, parent, l, bone, root)
    ensures BoneAttached(bs, parent, l', bone, root)
  {
    PrefixMembers(l, l', bone);
    forall y | y in ParentChain(bs, parent, bone, root).path
      ensures y in l'
    {
      PrefixMembers(l, l', y);
    }
  }

  /** A NiTriBasedGeom with a skin instance. */
  predicate Skinned(bs: seq<Block>, x: nat)
    requires x < |bs|
  {
    bs[x].kind == NiTriBasedGeom && bs[x].skin.Some?
  }

  /** What marking a skinned geometry guarantees: its skeleton root is an
      armature, every non-null skin bone is attached to it, and the
      eligible nodes of the root's tree are its bones. */
  ghost predicate SkinMarked(bs: seq<Block>, parent: seq<Option<nat>>, combineShapes: bool, arm: map<nat, seq<nat>>, x: nat)
    requires BlocksValid(bs) && ParentsValid(bs, parent) && x < |bs| && bs[x].skin.Some?
  {
    var s := bs[x].skin.value;
    assert RefsIn(s.bones, |bs|);
    && s.skeletonRoot in arm
    && BonesAttached(bs, parent, arm[s.skeletonRoot], s.skeletonRoot, s.bones, |s.bones|)
    && (forall y :: y in Eligibles(bs, Tree(bs, s.skeletonRoot), s.skeletonRoot, combineShapes) ==> y in arm[s.skeletonRoot])
  }

  lemma SkinMarkedGrows(bs: seq<Block>, parent: seq<Option<nat>>, combineShapes: bool, a: map<nat, seq<nat>>, b: map<nat, seq<nat>>, x: nat)
    requires BlocksValid(bs) && ParentsValid(bs, parent) && x < |bs| && bs[x].skin.Some?
    requires Grows(a, b) && SkinMarked(bs, parent, combineShapes, a, x)
    ensures SkinMarked(bs, parent, combineShapes, b, x)
  {
    var s := bs[x].skin.value;
    var root := s.skeletonRoot;
    assert RefsIn(s.bones, |bs|);
    BonesAttachedGrows(bs, parent, a[root], b[root], root, s.bones);
    forall y | y in Eligibles(bs, Tree(bs, root), root, combineShapes)
      ensures y in b[root]
    {
      PrefixMembers(a[root], b[root], y);
    }
  }

  /** Every skinned geometry reached from `i` through NiAVObjects is marked. */
  ghost predicate SkinsMarked(bs: seq<Block>, parent: seq<Option<nat>>, combineShapes: bool, arm: map<nat, seq<nat>>, i: nat)
    requires BlocksValid(bs) && ParentsValid(bs, parent) && i < |bs|
  {
    forall x :: 0 <= x < |bs| && x in Walk(bs, i, AVRefs) && Skinned(bs, x) ==> SkinMarked(bs, parent, combineShapes, arm, x)
  }

  lemma SkinsMarkedGrows(bs: seq<Block>, parent: seq<Option<nat>>, combineShapes: bool, a: map<nat, seq<nat>>, b: map<nat, seq<nat>>, i: nat)
    requires BlocksValid(bs) && ParentsValid(bs, parent) && i < |bs|
    requires Grows(a, b) && SkinsMarked(bs, parent, combineShapes, a, i)
    ensures SkinsMarked(bs, parent, combineShapes, b, i)
  {
    forall x | 0 <= x < |bs| && x in Walk(bs, i, AVRefs) && Skinned(bs, x)
      ensures SkinMarked(bs, parent, combineShapes, b, x)
    {
      SkinMarkedGrows(bs, parent, combineShapes, a, b, x);
    }
  }

  /** Every non-null bone of `bones` has a parent chain up to `root`. */
  ghost predicate BonesReach(bs: seq<Block>, parent: seq<Option<nat>>, bones: seq<Option<nat>>, root: nat)
    requires ParentsValid(bs, parent) && RefsIn(bones, |bs|)
  {
    forall k :: 0 <= k < |bones| && bones[k].Some? ==> ParentChain(bs, parent, bones[k].value, root).reachesRoot
  }

  /** Every non-null skin bone's parent chain reaches the skeleton root. */
  ghost predicate SkinBonesReach(bs: seq<Block>, parent: seq<Option<nat>>, x: nat)
    requires BlocksValid(bs) && ParentsValid(bs, parent) && x < |bs| && bs[x].skin.Some?
  {
    var s := bs[x].skin.value;
    assert RefsIn(s.bones, |bs|);
    BonesReach(bs, parent, s.bones, s.skeletonRoot)
  }

  /** The block the selected armature's bone `boneName` is found at. */
  function FoundBone(bs: seq<Block>, sk: nat, boneName: string, toNif: string -> string): (r: Option<nat>)
    requires BlocksValid(bs) && sk < |bs|
    ensures r.Some? ==> r.value < |bs|
  {
    Find(bs, sk, toNif(boneName), false)
  }

  /** The blocks found for each Blender bone name, null where none is. */
  function FoundBones(bs: seq<Block>, sk: nat, boneNames: seq<string>, toNif: string -> string): (r: seq<Option<nat>>)
    requires BlocksValid(bs) && sk < |bs|
    ensures |r| == |boneNames| && RefsIn(r, |bs|)
  {
    seq(|boneNames|, j requires 0 <= j < |boneNames| => FoundBone(bs, sk, boneNames[j], toNif))
  }

  /** Each found block lies in the armature's tree and carries the NIF
      name of its Blender bone; a name with no entry has no block. */
  lemma FoundBonesMatch(bs: seq<Block>, sk: nat, boneNames: seq<string>, toNif: string -> string, j: nat)
    requires BlocksValid(bs) && sk < |bs| && j < |boneNames|
    ensures var f := FoundBones(bs, sk, boneNames, toNif)[j];
            && (f.Some? ==> f.value in Tree(bs, sk) && bs[f.value].name == toNif(boneNames[j]) && toNif(boneNames[j]) != "")
            && (f.None? ==> forall x :: x in Tree(bs, sk) ==> !Matches(bs, x, toNif(boneNames[j]), false))
  {
  }

  /** `dict_names` after the first `n` bone names are recorded for the
      blocks found for them: a later name for the same block overwrites
      an earlier one. */
  function RecordNames(names: map<nat, string>, found: seq<Option<nat>>, boneNames: seq<string>, n: nat): map<nat, string>
    requires n <= |found| == |boneNames|
    decreases n
  {
    if n == 0 then names
    else
      var m := RecordNames(names, found, boneNames, n - 1);
      match found[n - 1]
      case Some(x) => m[x := boneNames[n - 1]]
      case None => m
  }

  lemma RecordNamesNext(names: map<nat, string>, found: seq<Option<nat>>, boneNames: seq<string>, k: nat)
    requires k < |found| == |boneNames|
    ensures RecordNames(names, found, boneNames, k + 1) ==
              if found[k].Some? then RecordNames(names, found, boneNames, k)[found[k].value := boneNames[k]]
              else RecordNames(names, found, boneNames, k)
  {
  }

  /** The blocks with a name are the ones that had one and the ones found. */
  lemma {:induction false} RecordNamesKeys(names: map<nat, string>, found: seq<Option<nat>>, boneNames: seq<string>, n: nat)
    requires n <= |found| == |boneNames|
    ensures RecordNames(names, found, boneNames, n).Keys == names.Keys + set j | 0 <= j < n && found[j].Some? :: found[j].value
    decreases n
  {
    if n > 0 {
      RecordNamesKeys(names, found, boneNames, n - 1);
    }
  }

  /** A block keeps the name of the last bone found at it. */
  lemma {:induction false} RecordNamesLast(names: map<nat, string>, found: seq<Option<nat>>, boneNames: seq<string>, n: nat, j: nat)
    requires j < n <= |found| == |boneNames| && found[j].Some?
    requires forall i :: j < i < n ==> found[i] != found[j]
    ensures var m := RecordNames(names, found, boneNames, n);
            found[j].value in m && m[found[j].value] == boneNames[j]
    decreases n
  {
    if j < n - 1 {
      RecordNamesLast(names, found, boneNames, n - 1, j);
    }
  }

  /** The first `n` non-null entries of `bones` are attached to `root`. */
  ghost predicate BonesAttached(bs: seq<Block>, parent: seq<Option<nat>>, list: seq<nat>, root: nat, bones: seq<Option<nat>>, n: nat)
    requires ParentsValid(bs, parent) && RefsIn(bones, |bs|) && n <= |bones|
  {
    forall j :: 0 <= j < n && bones[j].Some? ==> BoneAttached(bs, parent, list, bones[j].value, root)
  }

  lemma BonesAttachedStep(bs: seq<Block>, parent: seq<Option<nat>>, before: seq<nat>, after: seq<nat>, root: nat,
                          bones: seq<Option<nat>>, k: nat)
    requires ParentsValid(bs, parent) && RefsIn(bones, |bs|) && k < |bones|
    requires BonesAttached(bs, parent, before, root, bones, k) && IsPrefix(before, after)
    requires bones[k].Some? ==> BoneAttached(bs, parent, after, bones[k].value, root)
    ensures BonesAttached(bs, parent, after, root, bones, k + 1)
  {
    forall j | 0 <= j < k && bones[j].Some?
      ensures BoneAttached(bs, parent, after, bones[j].value, root)
    {
      BoneAttachedGrows(bs, parent, before, after, bones[j].value, root);
    }
  }

  lemma BonesAttachedGrows(bs: seq<Block>, parent: seq<Option<nat>>, before: seq<nat>, after: seq<nat>, root: nat,
                           bones: seq<Option<nat>>)
    requires ParentsValid(bs, parent) && RefsIn(bones, |bs|)
    requires BonesAttached(bs, parent, before, root, bones, |bones|) && IsPrefix(before, after)
    ensures BonesAttached(bs, parent, after, root, bones, |bones|)
  {
    forall j | 0 <= j < |bones| && bones[j].Some?
      ensures BoneAttached(bs, parent, after, bones[j].value, root)
    {
      BoneAttachedGrows(bs, parent, before, after, bones[j].value, root);
    }
  }

  /** Attached bones reach the root. */
  lemma BonesAttachedReach(bs: seq<Block>, parent: seq<Option<nat>>, list: seq<nat>, root: nat, bones: seq<Option<nat>>)
    requires ParentsValid(bs, parent) && RefsIn(bones, |bs|)
    requires BonesAttached(bs, parent, list, root, bones, |bones|)
    ensures BonesReach(bs, parent, bones, root)
  {
  }

  /** One bone whose chain misses the root is enough to fail. */
  lemma BonesReachFails(bs: seq<Block>, parent: seq<Option<nat>>, bones: seq<Option<nat>>, root: nat, k: nat)
    requires ParentsValid(bs, parent) && RefsIn(bones, |bs|) && k < |bones| && bones[k].Some?
    requires !ParentChain(bs, parent, bones[k].value, root).reachesRoot
    ensures !BonesReach(bs, parent, bones, root)
  {
  }

  /** Replacing one list by `AddAll` of a grown version of it keeps every
      list duplicate-free. */
  lemma NoDupKept(a: map<nat, seq<nat>>, root: nat, mid: seq<nat>, xs: seq<nat>)
    requires root in a
    requires AllNoDup(a) ==> NoDup(mid)
    ensures AllNoDup(a) ==> AllNoDup(a[root := AddAll(mid, xs)])
  {
    if AllNoDup(a) {
      AddAllNoDup(mid, xs);
    }
  }

  /** Some skinned geometry reached from `i` has `q` as skeleton root. */
  ghost predicate SkinRootIn(bs: seq<Block>, i: nat, q: nat)
    requires BlocksValid(bs) && i < |bs|
  {
    exists x :: 0 <= x < |bs| && x in Walk(bs, i, AVRefs) && Skinned(bs, x) && bs[x].skin.value.skeletonRoot == q
  }

  /** Every root registered in `b` but not in `a` is the skeleton root of
      a skinned geometry reached from `i`. */
  ghost predicate NewRootsFromSkins(bs: seq<Block>, a: map<nat, seq<nat>>, b: map<nat, seq<nat>>, i: nat)
    requires BlocksValid(bs) && i < |bs|
  {
    forall q :: q in b && q !in a ==> SkinRootIn(bs, i, q)
  }

  /** Roots registered below a reached block were registered below `i`. */
  lemma NewRootsLift(bs: seq<Block>, a: map<nat, seq<nat>>, m: map<nat, seq<nat>>, b: map<nat, seq<nat>>, i: nat, c: nat)
    requires BlocksValid(bs) && i < |bs| && c < |bs| && c in Walk(bs, i, AVRefs)
    requires NewRootsFromSkins(bs, a, m, i) && NewRootsFromSkins(bs, m, b, c)
    ensures NewRootsFromSkins(bs, a, b, i)
  {
    forall q | q in b && q !in a
      ensures SkinRootIn(bs, i, q)
    {
      if q !in m {
        var x :| 0 <= x < |bs| && x in Walk(bs, c, AVRefs) && Skinned(bs, x) && bs[x].skin.value.skeletonRoot == q;
        WalkTrans(bs, i, c, x, AVRefs);
      }
    }
  }

  /** Why marking from `i` may raise: a parent chain that ends before the
      skeleton root, or, in 'geometry only' mode, a skinned geometry whose
      skeleton root is not an armature. */
  ghost predicate MarkError(bs: seq<Block>, i: nat, arm: map<nat, seq<nat>>, mode: SkeletonMode, e: ArmatureError)
    requires BlocksValid(bs) && i < |bs|
  {
    || e.BrokenParentChain?
    || (&& mode == GeometryOnly && e.IncompatibleArmature?
        && e.geometry < |bs| && e.geometry in Walk(bs, i, AVRefs) && Skinned(bs, e.geometry)
        && bs[e.geometry].skin.value.skeletonRoot == e.skeletonRoot && e.skeletonRoot !in arm)
  }

  /** The exception the source raises for the walk error `e` when the
      walk started at block `top`, `header` telling whether that first
      call identified the selected armature.  As written, the
      incompatible-armature message formats `b_armature_obj.name`, a local
      bound only by that identification in the same call, so for any other
      geometry the formatting itself raises `UnboundLocalError`. */
  function RaisedAsWritten(e: ArmatureError, top: nat, header: bool): (r: ArmatureError)
    ensures r.IncompatibleArmature? <==> e.IncompatibleArmature? && header && e.geometry == top
    ensures r == UnboundArmatureName <==>
              e == UnboundArmatureName || (e.IncompatibleArmature? && !(header && e.geometry == top))
    ensures !e.IncompatibleArmature? ==> r == e
  {
    if e.IncompatibleArmature? && !(header && e.geometry == top) then UnboundArmatureName else e
  }

  /** A scene root holding the armature node "Armature" and a skinned
      geometry whose skeleton root is another node. */
  function ForeignSkinScene(): (bs: seq<Block>)
    ensures |bs| == 4 && BlocksValid(bs)
  {
    [Block(NiNode, "Scene Root", [Some(1), Some(2)], None),
     Block(NiNode, "Armature", [], None),
     Block(NiTriBasedGeom, "Body", [], Some(SkinInstance(3, []))),
     Block(NiNode, "Other", [], None)]
  }

  /** In 'geometry only' mode with "Armature" identified, the walk from
      the scene root fails on the foreign skin; every such failure is at
      a geometry below the root, where the source as written raises
      `UnboundLocalError` instead of the incompatible-armature error. */
  lemma IncompatibleAsWritten()
    ensures var bs := ForeignSkinScene();
            var arm := map[1 := []];
            && MarkError(bs, 0, arm, GeometryOnly, IncompatibleArmature(2, 3))
            && forall e :: MarkError(bs, 0, arm, GeometryOnly, e) && e.IncompatibleArmature? ==>
                 RaisedAsWritten(e, 0, true) == UnboundArmatureName
  {
    var bs := ForeignSkinScene();
    var arm: map<nat, seq<nat>> := map[1 := []];
    assert 2 in Walk(bs, 0, AVRefs) by {
      assert Walk(bs, 0, AVRefs)[2] == 2;
    }
    forall e | MarkError(bs, 0, arm, GeometryOnly, e) && e.IncompatibleArmature?
      ensures RaisedAsWritten(e, 0, true) == UnboundArmatureName
    {
      assert Skinned(bs, e.geometry);
      assert e.geometry != 0;
    }
  }

  lemma MarkErrorLift(bs: seq<Block>, i: nat, c: nat, arm: map<nat, seq<nat>>, mode: SkeletonMode, e: ArmatureError)
    requires BlocksValid(bs) && i < |bs| && c < |bs| && c in Walk(bs, i, AVRefs)
    requires MarkError(bs, c, arm, mode, e)
    ensures MarkError(bs, i, arm, mode, e)
  {
    if !e.BrokenParentChain? {
      WalkTrans(bs, i, c, e.geometry, AVRefs);
    }
  }

  /** The first `k` references of block `i` that lead to NiAVObjects have
      all their skinned geometries marked. */
  ghost predicate ChildrenMarked(bs: seq<Block>, parent: seq<Option<nat>>, combineShapes: bool, arm: map<nat, seq<nat>>, i: nat, k: nat)
    requires BlocksValid(bs) && ParentsValid(bs, parent) && i < |bs| && k <= |bs[i].children|
  {
    var refs := bs[i].children;
    assert RefsAfter(refs, i, |bs|);
    forall j :: 0 <= j < k && refs[j].Some? && IsAVObject(bs[refs[j].value].kind) ==>
      SkinsMarked(bs, parent, combineShapes, arm, refs[j].value)
  }

  lemma ChildrenMarkedStep(bs: seq<Block>, parent: seq<Option<nat>>, combineShapes: bool, a: map<nat, seq<nat>>, b: map<nat, seq<nat>>,
                           i: nat, k: nat)
    requires BlocksValid(bs) && ParentsValid(bs, parent) && i < |bs| && k < |bs[i].children|
    requires ChildrenMarked(bs, parent, combineShapes, a, i, k) && Grows(a, b)
    requires var c := bs[i].children[k];
             c.Some? && c.value < |bs| && IsAVObject(bs[c.value].kind) ==> SkinsMarked(bs, parent, combineShapes, b, c.value)
    ensures ChildrenMarked(bs, parent, combineShapes, b, i, k + 1)
  {
    var refs := bs[i].children;
    assert RefsAfter(refs, i, |bs|);
    forall j | 0 <= j < k && refs[j].Some? && IsAVObject(bs[refs[j].value].kind)
      ensures SkinsMarked(bs, parent, combineShapes, b, refs[j].value)
    {
      SkinsMarkedGrows(bs, parent, combineShapes, a, b, refs[j].value);
    }
  }

  /** A block whose own skin (if any) and whose children are marked has
      every skinned geometry of its walk marked. */
  lemma SkinsMarkedFromChildren(bs: seq<Block>, parent: seq<Option<nat>>, combineShapes: bool, arm: map<nat, seq<nat>>, i: nat)
    requires BlocksValid(bs) && ParentsValid(bs, parent) && i < |bs|
    requires Skinned(bs, i) ==> SkinMarked(bs, parent, combineShapes, arm, i)
    requires ChildrenMarked(bs, parent, combineShapes, arm, i, |bs[i].children|)
    ensures SkinsMarked(bs, parent, combineShapes, arm, i)
  {
    var refs := bs[i].children;
    assert RefsAfter(refs, i, |bs|);
    assert Walk(bs, i, AVRefs) == [i] + Forest(bs, refs, i, AVRefs);
    forall x | 0 <= x < |bs| && x in Walk(bs, i, AVRefs) && Skinned(bs, x)
      ensures SkinMarked(bs, parent, combineShapes, arm, x)
    {
      if x != i {
        ForestMember(bs, refs, i, x, AVRefs);
        var k :| 0 <= k < |refs| && refs[k].Some? && IsAVObject(bs[refs[k].value].kind) && x in Walk(bs, refs[k].value, AVRefs);
        assert SkinsMarked(bs, parent, combineShapes, arm, refs[k].value);
      }
    }
  }

  /** The loop of `populate_bone_tree` over the walk `t`: every eligible
      node missing from `l` is appended, in walk order. */
  method Populate(bs: seq<Block>, t: seq<nat>, root: nat, combineShapes: bool, l: seq<nat>) returns (list: seq<nat>)
    requires BlocksValid(bs) && forall j :: 0 <= j < |l| ==> l[j] < |bs|
    ensures list == AddAll(l, Eligibles(bs, t, root, combineShapes))
    ensures forall j :: 0 <= j < |list| ==> list[j] < |bs|
  {
    list := l;
    var k := 0;
    while k < |t|
      invariant 0 <= k <= |t|
      invariant list == AddAll(l, Eligibles(bs, t[..k], root, combineShapes))
      invariant forall j :: 0 <= j < |list| ==> list[j] < |bs|
    {
      var bone := t[k];
      ghost var before := list;
      // skip the root itself, non-NiNodes, LOD nodes and grouping nodes
      if Eligible(bs, root, combineShapes, bone) {
        if bone !in list {
          list := list + [bone];
        }
      }
      PopulateStep(bs, t, k, root, combineShapes, l, before, list);
      k := k + 1;
    }
    assert t[..|t|] == t;
  }

  /** A point of Blender's armature space. */
  datatype Vec3 = Vec3(x: real, y: real, z: real)

  function Plus(a: Vec3, b: Vec3): Vec3
  {
    Vec3(a.x + b.x, a.y + b.y, a.z + b.z)
  }

  function Minus(a: Vec3, b: Vec3): Vec3
  {
    Vec3(a.x - b.x, a.y - b.y, a.z - b.z)
  }

  function Over(a: Vec3, d: real): Vec3
    requires d != 0.0
  {
    Vec3(a.x / d, a.y / d, a.z / d)
  }

  /** An edit bone: its name, its parent's position among the edit bones
      and its head. */
  datatype EditBone = EditBone(name: string, parent: Option<nat>, head: Vec3)

  predicate ParentsIn(bones: seq<EditBone>)
  {
    forall i :: 0 <= i < |bones| && bones[i].parent.Some? ==> bones[i].parent.value < |bones|
  }

  /** `0, 1, ..., n - 1` */
  function Indices(n: nat): (r: seq<nat>)
    ensures |r| == n && forall j :: 0 <= j < n ==> r[j] == j
  {
    seq(n, j requires 0 <= j < n => j as nat)
  }

  /** `edit_bone.children`: the bones whose parent is bone `i`, in order. */
  function ChildBones(bones: seq<EditBone>, i: nat): (r: seq<nat>)
  {
    Filter(Indices(|bones|), (j: nat) => j < |bones| && bones[j].parent == Some(i))
  }

  lemma ChildBonesMembers(bones: seq<EditBone>, i: nat, j: nat)
    ensures j in ChildBones(bones, i) <==> j < |bones| && bones[j].parent == Some(i)
  {
    FilterMembers(Indices(|bones|), (j: nat) => j < |bones| && bones[j].parent == Some(i), j);
    if j < |bones| {
      assert Indices(|bones|)[j] == j;
    }
  }

  lemma ChildBonesIn(bones: seq<EditBone>, i: nat)
    ensures forall k :: 0 <= k < |ChildBones(bones, i)| ==> ChildBones(bones, i)[k] < |bones|
  {
    var r := ChildBones(bones, i);
    forall k | 0 <= k < |r|
      ensures r[k] < |bones|
    {
      ChildBonesMembers(bones, i, r[k]);
    }
  }

  /** The sum of the heads of the bones `cs`. */
  function HeadSum(bones: seq<EditBone>, cs: seq<nat>): Vec3
    requires forall k :: 0 <= k < |cs| ==> cs[k] < |bones|
    decreases |cs|
  {
    if cs == [] then Vec3(0.0, 0.0, 0.0) else Plus(HeadSum(bones, cs[..|cs| - 1]), bones[cs[|cs| - 1]].head)
  }

  /** The length `fix_bone_lengths` gives a bone with a parent and
      children: the distance from its head to the mean of its children's
      heads, or 0.25 when that is below 0.01.  `norm` stands for
      `Vector.length`. */
  function ChainLength(bones: seq<EditBone>, i: nat, norm: Vec3 -> real): (len: real)
    requires i < |bones| && ChildBones(bones, i) != []
    ensures len >= 0.01
  {
    var cs := ChildBones(bones, i);
    ChildBonesIn(bones, i);
    var d := norm(Minus(bones[i].head, Over(HeadSum(bones, cs), |cs| as real)));
    if d < 0.01 then 0.25 else d
  }

  /** What `fix_bone_lengths` leaves in bone `i`, given the lengths before
      (`before`) and after (`after`) the loop: roots keep their length,
      bones with children get `ChainLength`, and the end of a chain takes
      its parent's length as it was when the bone was reached. */
  ghost predicate FixedLength(bones: seq<EditBone>, norm: Vec3 -> real, before: seq<real>, after: seq<real>, i: nat)
    requires ParentsIn(bones) && |before| == |after| == |bones| && i < |bones|
  {
    match bones[i].parent
    case None => after[i] == before[i]
    case Some(p) =>
      if ChildBones(bones, i) != [] then after[i] == ChainLength(bones, i, norm)
      else after[i] == if p < i then after[p] else before[p]
  }

  /** `fix_bone_lengths` over the edit bones in order, `lengths[i]` being
      bone `i`'s `length`. */
  method FixBoneLengths(bones: seq<EditBone>, lengths: array<real>, norm: Vec3 -> real)
    requires ParentsIn(bones) && lengths.Length == |bones|
    modifies lengths
    ensures forall i :: 0 <= i < |bones| ==> FixedLength(bones, norm, old(lengths[..]), lengths[..], i)
  {
    ghost var before := lengths[..];
    var k := 0;
    while k < |bones|
      invariant 0 <= k <= |bones|
      invariant forall i :: k <= i < |bones| ==> lengths[i] == before[i]
      invariant forall i :: 0 <= i < k ==> FixedLength(bones, norm, before, lengths[..], i)
    {
      // roots keep their length
      if bones[k].parent.Some? {
        var len: real;
        if ChildBones(bones, k) != [] {
          len := ChainLength(bones, k, norm);
        } else {
          // the end of a chain
          len := lengths[bones[k].parent.value];
        }
        ghost var mid := lengths[..];
        lengths[k] := len;
        FixedLengthKept(bones, norm, before, mid, lengths[..], k);
      }
      k := k + 1;
    }
  }

  /** Writing bone `k` keeps what the loop established for the bones before it. */
  lemma FixedLengthKept(bones: seq<EditBone>, norm: Vec3 -> real, before: seq<real>, mid: seq<real>, after: seq<real>, k: nat)
    requires ParentsIn(bones) && |before| == |mid| == |after| == |bones| && k < |bones|
    requires forall i :: 0 <= i < |bones| && i != k ==> after[i] == mid[i]
    requires forall i :: 0 <= i < k ==> FixedLength(bones, norm, before, mid, i)
    ensures forall i :: 0 <= i < k ==> FixedLength(bones, norm, before, after, i)
  {
    forall i | 0 <= i < k
      ensures FixedLength(bones, norm, before, after, i)
    {
      assert FixedLength(bones, norm, before, mid, i);
      assert after[i] == mid[i];
      match bones[i].parent
      case None =>
      case Some(p) =>
        if p < i {
          assert after[p] == mid[p];
        }
    }
  }

  /** The blocks `import_bone` turns into edit bones from block `i`, in
      creation order: the block, then the bones below each of its
      references; a reference to a non-bone is not followed. */
  ghost function BoneWalk(bs: seq<Block>, arm: map<nat, seq<nat>>, i: nat): (w: seq<nat>)
    requires BlocksValid(bs) && i < |bs|
    ensures 1 <= |w| && w[0] == i
    ensures forall k :: 0 <= k < |w| ==> i <= w[k] < |bs|
    decreases |bs| - i, 1
  {
    [i] + BoneForest(bs, arm, bs[i].children, |bs[i].children|, i)
  }

  /** The blocks made into edit bones below the first `n` of the
      references `refs` of block `above`, in creation order. */
  ghost function BoneForest(bs: seq<Block>, arm: map<nat, seq<nat>>, refs: seq<Option<nat>>, n: nat, above: nat): (w: seq<nat>)
    requires BlocksValid(bs) && above < |bs| && RefsAfter(refs, above, |bs|) && n <= |refs|
    ensures forall k :: 0 <= k < |w| ==> above < w[k] < |bs|
    decreases |bs| - above, 0, n
  {
    if n == 0 then []
    else
      var last := refs[n - 1];
      BoneForest(bs, arm, refs, n - 1, above) +
      (if last.Some? && IsBoneIn(arm, last.value) then BoneWalk(bs, arm, last.value) else [])
  }

  /** `dict_names` only gains entries. */
  predicate NamesGrow(a: map<nat, string>, b: map<nat, string>)
  {
    forall x :: x in a ==> x in b && b[x] == a[x]
  }

  /** The parents `import_bone` gives the edit bones it makes from block
      `i`, in the order of `BoneWalk`, when the first of them is made at
      position `base` with parent `first`: its children's bones hang off
      position `base`, and so on down. */
  ghost function BoneParents(bs: seq<Block>, arm: map<nat, seq<nat>>, i: nat, first: Option<nat>, base: nat): (ps: seq<Option<nat>>)
    requires BlocksValid(bs) && i < |bs|
    ensures 1 <= |ps| && ps[0] == first
    decreases |bs| - i, 1
  {
    [first] + ForestParents(bs, arm, bs[i].children, |bs[i].children|, i, Some(base), base + 1)
  }

  /** The parents of the bones `BoneForest` lists, every reference's
      bones being made from position `start` on below parent `p`. */
  ghost function ForestParents(bs: seq<Block>, arm: map<nat, seq<nat>>, refs: seq<Option<nat>>, n: nat, above: nat,
                               p: Option<nat>, start: nat): (ps: seq<Option<nat>>)
    requires BlocksValid(bs) && above < |bs| && RefsAfter(refs, above, |bs|) && n <= |refs|
    decreases |bs| - above, 0, n
  {
    if n == 0 then []
    else
      var init := ForestParents(bs, arm, refs, n - 1, above, p, start);
      var last := refs[n - 1];
      init + (if last.Some? && IsBoneIn(arm, last.value) then BoneParents(bs, arm, last.value, p, start + |init|) else [])
  }

  /** Block `parent` holds a reference to block `child`. */
  predicate Refers(bs: seq<Block>, parent: nat, child: nat)
  {
    parent < |bs| && Some(child) in bs[parent].children
  }

  /** Every bone of `w` after the first, made from position `base` on,
      has as parent an earlier bone of `w`, the one made for a block
      whose references hold its block. */
  ghost predicate HangBelow(bs: seq<Block>, w: seq<nat>, ps: seq<Option<nat>>, base: nat)
  {
    |ps| == |w| &&
    forall k {:trigger ps[k]} :: 1 <= k < |w| ==>
      exists j :: 0 <= j < k && ps[k] == Some(base + j) && Refers(bs, w[j], w[k])
  }

  /** The first bone of a walk has parent `first` (`BoneParents` says so);
      every later one has as parent an earlier bone of the walk, the one
      made for a block whose references hold the later bone's block. */
  lemma {:induction false} BoneParentsRefer(bs: seq<Block>, arm: map<nat, seq<nat>>, i: nat, first: Option<nat>, base: nat)
    requires BlocksValid(bs) && i < |bs|
    ensures HangBelow(bs, BoneWalk(bs, arm, i), BoneParents(bs, arm, i, first, base), base)
    decreases |bs| - i, 1
  {
    var w := BoneWalk(bs, arm, i);
    var ps := BoneParents(bs, arm, i, first, base);
    var refs := bs[i].children;
    var f := BoneForest(bs, arm, refs, |refs|, i);
    var fps := ForestParents(bs, arm, refs, |refs|, i, Some(base), base + 1);
    ForestParentsRefer(bs, arm, refs, |refs|, i, Some(base), base + 1);
    assert HangOff(bs, f, fps, refs, Some(base), base + 1);
    forall k | 1 <= k < |w|
      ensures exists j :: 0 <= j < k && ps[k] == Some(base + j) && Refers(bs, w[j], w[k])
    {
      assert w[k] == f[k - 1] && ps[k] == fps[k - 1];
      if fps[k - 1] == Some(base) && Some(f[k - 1]) in refs {
        assert ps[k] == Some(base + 0) && Refers(bs, w[0], w[k]);
      } else {
        var j :| 0 <= j < k - 1 && fps[k - 1] == Some((base + 1) + j) && Refers(bs, f[j], f[k - 1]);
        assert w[j + 1] == f[j];
        assert ps[k] == Some(base + (j + 1)) && Refers(bs, w[j + 1], w[k]);
      }
    }
  }

  /** Every bone of `f`, made from position `start` on, hangs off `p`
      and has its block among `refs`, or hangs off an earlier bone of `f`
      made for a block whose references hold its block. */
  ghost predicate HangOff(bs: seq<Block>, f: seq<nat>, ps: seq<Option<nat>>, refs: seq<Option<nat>>, p: Option<nat>, start: nat)
  {
    |ps| == |f| &&
    forall k {:trigger ps[k]} :: 0 <= k < |f| ==>
      || (ps[k] == p && Some(f[k]) in refs)
      || exists j :: 0 <= j < k && ps[k] == Some(start + j) && Refers(bs, f[j], f[k])
  }

  /** The bones of one more reference among `refs`, a walk hanging off
      `p`, keep `HangOff`. */
  lemma HangOffSnoc(bs: seq<Block>, fi: seq<nat>, psi: seq<Option<nat>>, refs: seq<Option<nat>>,
                    piece: seq<nat>, pps: seq<Option<nat>>, p: Option<nat>, start: nat)
    requires HangOff(bs, fi, psi, refs, p, start)
    requires |pps| == |piece| && (piece != [] ==> pps[0] == p && Some(piece[0]) in refs)
    requires HangBelow(bs, piece, pps, start + |psi|)
    ensures HangOff(bs, fi + piece, psi + pps, refs, p, start)
  {
    var f, ps, n := fi + piece, psi + pps, |fi|;
    forall k | 0 <= k < n
      ensures || (ps[k] == p && Some(f[k]) in refs)
              || exists j :: 0 <= j < k && ps[k] == Some(start + j) && Refers(bs, f[j], f[k])
    {
      HangOffInit(bs, fi, psi, refs, piece, pps, p, start, k);
    }
    forall k | n <= k < |f|
      ensures || (ps[k] == p && Some(f[k]) in refs)
              || exists j :: 0 <= j < k && ps[k] == Some(start + j) && Refers(bs, f[j], f[k])
    {
      HangOffPiece(bs, fi, psi, refs, piece, pps, p, start, k);
    }
  }

  lemma HangOffInit(bs: seq<Block>, fi: seq<nat>, psi: seq<Option<nat>>, refs: seq<Option<nat>>,
                    piece: seq<nat>, pps: seq<Option<nat>>, p: Option<nat>, start: nat, k: nat)
    requires HangOff(bs, fi, psi, refs, p, start) && |pps| == |piece| && k < |fi|
    ensures var f, ps := fi + piece, psi + pps;
            || (ps[k] == p && Some(f[k]) in refs)
            || exists j :: 0 <= j < k && ps[k] == Some(start + j) && Refers(bs, f[j], f[k])
  {
    var f, ps := fi + piece, psi + pps;
    assert f[k] == fi[k] && ps[k] == psi[k];
    if !(psi[k] == p && Some(fi[k]) in refs) {
      var j :| 0 <= j < k && psi[k] == Some(start + j) && Refers(bs, fi[j], fi[k]);
      assert f[j] == fi[j];
    }
  }

  lemma HangOffPiece(bs: seq<Block>, fi: seq<nat>, psi: seq<Option<nat>>, refs: seq<Option<nat>>,
                     piece: seq<nat>, pps: seq<Option<nat>>, p: Option<nat>, start: nat, k: nat)
    requires |psi| == |fi| && |pps| == |piece| && (piece != [] ==> pps[0] == p && Some(piece[0]) in refs)
    requires |fi| <= k < |fi| + |piece|
    requires k > |fi| ==>
               exists j :: 0 <= j < k - |fi| && pps[k - |fi|] == Some((start + |fi|) + j) && Refers(bs, piece[j], piece[k - |fi|])
    ensures var f, ps := fi + piece, psi + pps;
            || (ps[k] == p && Some(f[k]) in refs)
            || exists j :: 0 <= j < k && ps[k] == Some(start + j) && Refers(bs, f[j], f[k])
  {
    var f, ps, n := fi + piece, psi + pps, |fi|;
    var k' := k - n;
    assert f[k] == piece[k'] && ps[k] == pps[k'] by { }
    if k' != 0 {
      assert exists j :: 0 <= j < k' && pps[k'] == Some((start + n) + j) && Refers(bs, piece[j], piece[k']) by { }
      var j :| 0 <= j < k' && pps[k'] == Some((start + n) + j) && Refers(bs, piece[j], piece[k']);
      assert f[n + j] == piece[j] by { }
      assert 0 <= n + j < k && ps[k] == Some(start + (n + j)) && Refers(bs, f[n + j], f[k]);
    }
  }

  /** The bones below the first `n` references, as `ForestParents`
      parents them, hang off `p` or off earlier bones of the forest. */
  lemma {:induction false} ForestParentsRefer(bs: seq<Block>, arm: map<nat, seq<nat>>, refs: seq<Option<nat>>, n: nat, above: nat,
                                              p: Option<nat>, start: nat)
    requires BlocksValid(bs) && above < |bs| && RefsAfter(refs, above, |bs|) && n <= |refs|
    ensures HangOff(bs, BoneForest(bs, arm, refs, n, above), ForestParents(bs, arm, refs, n, above, p, start), refs, p, start)
    decreases |bs| - above, 0, n
  {
    if n > 0 {
      ForestParentsRefer(bs, arm, refs, n - 1, above, p, start);
      var last := refs[n - 1];
      if last.Some? && IsBoneIn(arm, last.value) {
        BoneParentsRefer(bs, arm, last.value, p, start + |ForestParents(bs, arm, refs, n - 1, above, p, start)|);
        ReferBone(bs, arm, refs, n, above, p, start);
      } else {
        ReferSkip(bs, arm, refs, n, above, p, start);
      }
    }
  }

  /** One step of `ForestParentsRefer` when reference `n - 1` is a bone:
      its walk hangs off `p` and below itself. */
  lemma ReferBone(bs: seq<Block>, arm: map<nat, seq<nat>>, refs: seq<Option<nat>>, n: nat, above: nat, p: Option<nat>, start: nat)
    requires BlocksValid(bs) && above < |bs| && RefsAfter(refs, above, |bs|) && 0 < n <= |refs|
    requires refs[n - 1].Some? && IsBoneIn(arm, refs[n - 1].value)
    requires HangOff(bs, BoneForest(bs, arm, refs, n - 1, above), ForestParents(bs, arm, refs, n - 1, above, p, start), refs, p, start)
    requires var base := start + |ForestParents(bs, arm, refs, n - 1, above, p, start)|;
             HangBelow(bs, BoneWalk(bs, arm, refs[n - 1].value), BoneParents(bs, arm, refs[n - 1].value, p, base), base)
    ensures HangOff(bs, BoneForest(bs, arm, refs, n, above), ForestParents(bs, arm, refs, n, above, p, start), refs, p, start)
  {
    var fi, pi := BoneForest(bs, arm, refs, n - 1, above), ForestParents(bs, arm, refs, n - 1, above, p, start);
    var x := refs[n - 1].value;
    var piece, pps := BoneWalk(bs, arm, x), BoneParents(bs, arm, x, p, start + |pi|);
    assert Some(piece[0]) in refs by { assert refs[n - 1] == Some(piece[0]); }
    HangOffSnoc(bs, fi, pi, refs, piece, pps, p, start);
  }

  /** One step of `ForestParentsRefer` when reference `n - 1` is not a
      bone: no bone is added. */
  lemma ReferSkip(bs: seq<Block>, arm: map<nat, seq<nat>>, refs: seq<Option<nat>>, n: nat, above: nat, p: Option<nat>, start: nat)
    requires BlocksValid(bs) && above < |bs| && RefsAfter(refs, above, |bs|) && 0 < n <= |refs|
    requires !(refs[n - 1].Some? && IsBoneIn(arm, refs[n - 1].value))
    requires HangOff(bs, BoneForest(bs, arm, refs, n - 1, above), ForestParents(bs, arm, refs, n - 1, above, p, start), refs, p, start)
    ensures HangOff(bs, BoneForest(bs, arm, refs, n, above), ForestParents(bs, arm, refs, n, above, p, start), refs, p, start)
  {
    var fi, pi := BoneForest(bs, arm, refs, n - 1, above), ForestParents(bs, arm, refs, n - 1, above, p, start);
    assert fi + [] == fi && pi + [] == pi;
  }

  /** The edit bones from position `base` on were made, in order, for the
      blocks `w`: each is named as `dict_names` names its block, has the
      parent `ps` gives it and the head `head` gives it. */
  ghost predicate MadeFor(bones: seq<EditBone>, names: map<nat, string>, head: nat -> Vec3, w: seq<nat>, ps: seq<Option<nat>>, base: nat)
  {
    base + |w| <= |bones| && |ps| == |w| &&
    forall k :: 0 <= k < |w| ==> w[k] in names && bones[base + k] == EditBone(names[w[k]], ps[k], head(w[k]))
  }

  /** The edit bones from position `base` on are exactly those made for
      the bones below the first `n` references `refs` of block `above`,
      as `ForestParents` parents them below `first`. */
  ghost predicate ForestMade(bs: seq<Block>, arm: map<nat, seq<nat>>, refs: seq<Option<nat>>, n: nat, above: nat,
                             bones: seq<EditBone>, names: map<nat, string>, head: nat -> Vec3, first: Option<nat>, base: nat)
    requires BlocksValid(bs) && above < |bs| && RefsAfter(refs, above, |bs|) && n <= |refs|
  {
    var w := BoneForest(bs, arm, refs, n, above);
    |bones| == base + |w| && MadeFor(bones, names, head, w, ForestParents(bs, arm, refs, n, above, first, base), base)
  }

  /** The edit bones from position `base` on are exactly those made for
      the walk from block `i`, as `BoneParents` parents them below `first`. */
  ghost predicate WalkMade(bs: seq<Block>, arm: map<nat, seq<nat>>, i: nat,
                           bones: seq<EditBone>, names: map<nat, string>, head: nat -> Vec3, first: Option<nat>, base: nat)
    requires BlocksValid(bs) && i < |bs|
  {
    var w := BoneWalk(bs, arm, i);
    |bones| == base + |w| && MadeFor(bones, names, head, w, BoneParents(bs, arm, i, first, base), base)
  }

  lemma MadeForGrows(bones: seq<EditBone>, bones': seq<EditBone>, names: map<nat, string>, names': map<nat, string>,
                     head: nat -> Vec3, w: seq<nat>, ps: seq<Option<nat>>, base: nat)
    requires MadeFor(bones, names, head, w, ps, base) && IsPrefix(bones, bones') && NamesGrow(names, names')
    ensures MadeFor(bones', names', head, w, ps, base)
  {
    forall k | 0 <= k < |w|
      ensures w[k] in names' && bones'[base + k] == EditBone(names'[w[k]], ps[k], head(w[k]))
    {
      assert bones'[base + k] == bones[base + k];
    }
  }

  lemma MadeForConcat(bones: seq<EditBone>, names: map<nat, string>, head: nat -> Vec3,
                      w1: seq<nat>, ps1: seq<Option<nat>>, w2: seq<nat>, ps2: seq<Option<nat>>, base: nat)
    requires MadeFor(bones, names, head, w1, ps1, base) && MadeFor(bones, names, head, w2, ps2, base + |w1|)
    ensures MadeFor(bones, names, head, w1 + w2, ps1 + ps2, base)
  {
    forall k | 0 <= k < |w1 + w2|
      ensures (w1 + w2)[k] in names &&
              bones[base + k] == EditBone(names[(w1 + w2)[k]], (ps1 + ps2)[k], head((w1 + w2)[k]))
    {
      if k >= |w1| {
        assert (w1 + w2)[k] == w2[k - |w1|] && (ps1 + ps2)[k] == ps2[k - |w1|];
      }
    }
  }

  /** Bones made for `piece` after those made for `done` make the bones
      for `done + piece`. */
  lemma ForestStep(bones: seq<EditBone>, bones': seq<EditBone>, names: map<nat, string>, names': map<nat, string>,
                   head: nat -> Vec3, done: seq<nat>, dps: seq<Option<nat>>, piece: seq<nat>, pps: seq<Option<nat>>, base: nat)
    requires |bones| == base + |done| && MadeFor(bones, names, head, done, dps, base)
    requires IsPrefix(bones, bones') && NamesGrow(names, names')
    requires |bones'| == |bones| + |piece| && MadeFor(bones', names', head, piece, pps, |bones|)
    ensures |bones'| == base + |done + piece| && MadeFor(bones', names', head, done + piece, dps + pps, base)
  {
    MadeForGrows(bones, bones', names, names', head, done, dps, base);
    MadeForConcat(bones', names', head, done, dps, piece, pps, base);
  }

  lemma NamesGrowTrans(a: map<nat, string>, b: map<nat, string>, c: map<nat, string>)
    requires NamesGrow(a, b) && NamesGrow(b, c)
    ensures NamesGrow(a, c)
  {
  }

  /** One round of the loop over a block's references keeps its invariant:
      the bones of the next reference follow those of the earlier ones. */
  lemma {:induction false} ChildrenStep(bs: seq<Block>, arm: map<nat, seq<nat>>, refs: seq<Option<nat>>, k: nat, above: nat,
                     bones0: seq<EditBone>, bones: seq<EditBone>, bones': seq<EditBone>,
                     names0: map<nat, string>, names: map<nat, string>, names': map<nat, string>,
                     head: nat -> Vec3, first: Option<nat>, base: nat)
    requires BlocksValid(bs) && above < |bs| && RefsAfter(refs, above, |bs|) && k < |refs|
    requires IsPrefix(bones0, bones) && NamesGrow(names0, names) && IsPrefix(bones, bones') && NamesGrow(names, names')
    requires ForestMade(bs, arm, refs, k, above, bones, names, head, first, base)
    requires !(refs[k].Some? && IsBoneIn(arm, refs[k].value)) ==> bones' == bones && names' == names
    requires refs[k].Some? && IsBoneIn(arm, refs[k].value) ==>
               WalkMade(bs, arm, refs[k].value, bones', names', head, first, |bones|)
    ensures IsPrefix(bones0, bones') && NamesGrow(names0, names')
    ensures ForestMade(bs, arm, refs, k + 1, above, bones', names', head, first, base)
  {
    PrefixTrans(bones0, bones, bones');
    NamesGrowTrans(names0, names, names');
    if refs[k].Some? && IsBoneIn(arm, refs[k].value) {
      ChildBoneStep(bs, arm, refs, k, above, bones, bones', names, names', head, first, base);
    } else {
      ChildSkipStep(bs, arm, refs, k, above, bones, names, head, first, base);
    }
  }

  /** `ChildrenStep` for a reference to a bone. */
  lemma ChildBoneStep(bs: seq<Block>, arm: map<nat, seq<nat>>, refs: seq<Option<nat>>, k: nat, above: nat,
                      bones: seq<EditBone>, bones': seq<EditBone>, names: map<nat, string>, names': map<nat, string>,
                      head: nat -> Vec3, first: Option<nat>, base: nat)
    requires BlocksValid(bs) && above < |bs| && RefsAfter(refs, above, |bs|) && k < |refs|
    requires refs[k].Some? && IsBoneIn(arm, refs[k].value)
    requires IsPrefix(bones, bones') && NamesGrow(names, names')
    requires ForestMade(bs, arm, refs, k, above, bones, names, head, first, base)
    requires WalkMade(bs, arm, refs[k].value, bones', names', head, first, |bones|)
    ensures ForestMade(bs, arm, refs, k + 1, above, bones', names', head, first, base)
  {
    var done := BoneForest(bs, arm, refs, k, above);
    var dps := ForestParents(bs, arm, refs, k, above, first, base);
    var piece := BoneWalk(bs, arm, refs[k].value);
    var pps := BoneParents(bs, arm, refs[k].value, first, base + |dps|);
    ForestStep(bones, bones', names, names', head, done, dps, piece, pps, base);
  }

  /** `ChildrenStep` for a reference to something other than a bone. */
  lemma ChildSkipStep(bs: seq<Block>, arm: map<nat, seq<nat>>, refs: seq<Option<nat>>, k: nat, above: nat,
                      bones: seq<EditBone>, names: map<nat, string>, head: nat -> Vec3, first: Option<nat>, base: nat)
    requires BlocksValid(bs) && above < |bs| && RefsAfter(refs, above, |bs|) && k < |refs|
    requires !(refs[k].Some? && IsBoneIn(arm, refs[k].value))
    requires ForestMade(bs, arm, refs, k, above, bones, names, head, first, base)
    ensures ForestMade(bs, arm, refs, k + 1, above, bones, names, head, first, base)
  {
    var done, dps := BoneForest(bs, arm, refs, k, above), ForestParents(bs, arm, refs, k, above, first, base);
    assert done + [] == done && dps + [] == dps;
  }

  /** A bone followed by the bones of its children makes the bones of its
      walk, the first hanging off `first` and the rest below it. */
  lemma BoneDone(bs: seq<Block>, arm: map<nat, seq<nat>>, i: nat, made: seq<EditBone>, bones': seq<EditBone>,
                 named: map<nat, string>, names': map<nat, string>, head: nat -> Vec3, first: Option<nat>, base: nat)
    requires BlocksValid(bs) && i < |bs|
    requires |made| == base + 1 && MadeFor(made, named, head, [i], [first], base)
    requires IsPrefix(made, bones') && NamesGrow(named, names')
    requires ForestMade(bs, arm, bs[i].children, |bs[i].children|, i, bones', names', head, Some(base), base + 1)
    ensures WalkMade(bs, arm, i, bones', names', head, first, base)
  {
    var refs := bs[i].children;
    var f := BoneForest(bs, arm, refs, |refs|, i);
    var fps := ForestParents(bs, arm, refs, |refs|, i, Some(base), base + 1);
    MadeForGrows(made, bones', named, names', head, [i], [first], base);
    MadeForConcat(bones', names', head, [i], [first], f, fps, base);
  }

  /** The `FullNames` line of a block whose Blender name `short` differs
      from its NIF name `long`. */
  function NameLine(short: string, long: string): string
  {
    short + ";" + long + "\n"
  }

  /** Whether `store_names` writes a line for the block: it has a NIF name
      and its Blender name differs from it. */
  predicate Renamed(long: string, short: string)
  {
    long != "" && short != long
  }

  /** The line `store_names` writes for one entry of `dict_names`. */
  function LineFor(bs: seq<Block>, item: (nat, string)): string
    requires item.0 < |bs|
  {
    if Renamed(bs[item.0].name, item.1) then NameLine(item.1, bs[item.0].name) else ""
  }

  /** The `FullNames` text after the entries `items` of `dict_names`
      (block and Blender name, in the dictionary's order) are written. */
  function NamesText(bs: seq<Block>, items: seq<(nat, string)>): string
    requires forall k :: 0 <= k < |items| ==> items[k].0 < |bs|
    decreases |items|
  {
    if items == [] then "" else LineFor(bs, items[0]) + NamesText(bs, items[1..])
  }

  lemma {:induction false} NamesTextSnoc(bs: seq<Block>, items: seq<(nat, string)>, item: (nat, string))
    requires forall k :: 0 <= k < |items| ==> items[k].0 < |bs|
    requires item.0 < |bs|
    ensures NamesText(bs, items + [item]) == NamesText(bs, items) + LineFor(bs, item)
    decreases |items|
  {
    if items == [] {
      assert [item][1..] == [];
    } else {
      assert (items + [item])[1..] == items[1..] + [item];
      NamesTextSnoc(bs, items[1..], item);
    }
  }

  /** The text after `k + 1` entries is that after `k` and the line of entry `k`. */
  lemma {:induction false} NamesTextStep(bs: seq<Block>, items: seq<(nat, string)>, k: nat)
    requires forall j :: 0 <= j < |items| ==> items[j].0 < |bs|
    requires k < |items|
    ensures NamesText(bs, items[..k + 1]) == NamesText(bs, items[..k]) + LineFor(bs, items[k])
  {
    var init, next := items[..k], items[..k + 1];
    assert next == init + [items[k]];
    NamesTextSnoc(bs, init, items[k]);
  }

  /** `b_armature_data.edit_bones`: the edit bones of the armature being
      built, in creation order. */
  class BoneData {
    var bones: seq<EditBone>

    constructor ()
      ensures bones == []
    {
      bones := [];
    }
  }

  /** The armature helper: `imp` is the importer whose `dict_names` it
      writes; `blocks` and `parent` are the importer's blocks and the
      `_parent` links `set_parents` left, which marking only reads. */
  class Armature {
    const imp: Importer
    const blocks: seq<Block>
    const parent: seq<Option<nat>>
    var armatures: map<nat, seq<nat>>

    ghost predicate Valid()
      reads this
    {
      blocks == imp.blocks && BlocksValid(blocks) && ParentsValid(blocks, parent) && ArmaturesIn(armatures, |blocks|)
    }

    /** Marking starts once `set_parents` has linked the tree. */
    constructor (imp: Importer)
      requires BlocksValid(imp.blocks) && ParentsValid(imp.blocks, imp.parent)
      ensures this.imp == imp && blocks == imp.blocks && parent == imp.parent && armatures == map[]
      ensures Valid()
    {
      this.imp := imp;
      blocks := imp.blocks;
      parent := imp.parent;
      armatures := map[];
    }

    /** `complete_bone_tree`: the ancestors of `bone` below `root` that are
        missing from the root's list are appended, nearest first; climbing
        past a block without a parent raises. */
    method CompleteBoneTree(bone: nat, root: nat) returns (r: Outcome<ArmatureError>)
      requires Valid() && bone < |blocks| && root in armatures && bone in armatures[root]
      modifies this`armatures
      ensures Valid()
      ensures var c := ParentChain(blocks, parent, bone, root);
              && armatures == old(armatures)[root := AddAll(old(armatures)[root], c.path)]
              && (r.Pass? <==> c.reachesRoot)
              && (r.Fail? ==> r.error.BrokenParentChain?)
      decreases bone
    {
      match parent[bone]
      case None =>
        r := Fail(BrokenParentChain(bone));
        assert armatures == old(armatures)[root := old(armatures)[root]];
      case Some(p) =>
        if p == root {
          r := Pass;
          assert armatures == old(armatures)[root := old(armatures)[root]];
        } else {
          if p !in armatures[root] {
            armatures := armatures[root := armatures[root] + [p]];
          }
          r := CompleteBoneTree(p, root);
          var up := ParentChain(blocks, parent, p, root);
          assert ([p] + up.path)[1..] == up.path;
        }
    }

    /** `populate_bone_tree`: the eligible nodes of the root's tree that
        are missing from its list are appended in pre-order. */
    method PopulateBoneTree(root: nat, combineShapes: bool)
      requires Valid() && root < |blocks| && root in armatures
      modifies this`armatures
      ensures Valid()
      ensures armatures == old(armatures)[root := AddAll(old(armatures)[root], Eligibles(blocks, Tree(blocks, root), root, combineShapes))]
    {
      var list := Populate(blocks, Tree(blocks, root), root, combineShapes, armatures[root]);
      armatures := armatures[root := list];
    }

    /** `is_bone`: false for a null block; otherwise whether some root's
        list holds it. */
    method IsBone(b: Option<nat>) returns (r: bool)
      ensures r <==> b.Some? && IsBoneIn(armatures, b.value)
    {
      if b.None? {
        return false;
      }
      var roots := armatures.Keys;
      while roots != {}
        invariant roots <= armatures.Keys
        invariant forall q :: q in armatures && q !in roots ==> b.value !in armatures[q]
        decreases roots
      {
        var q :| q in roots;
        if b.value in armatures[q] {
          return true;
        }
        roots := roots - {q};
      }
      return false;
    }

    /** `is_armature_root`: a NiNode registered as a skeleton root. */
    function IsArmatureRoot(b: Option<nat>): (r: bool)
      reads this
      requires b.Some? ==> b.value < |blocks|
      ensures r ==> b.Some? && b.value in armatures
      ensures b.Some? && !IsNiNode(blocks[b.value].kind) ==> !r
      ensures b.Some? && IsNiNode(blocks[b.value].kind) && b.value in armatures ==> r
    {
      b.Some? && IsNiNode(blocks[b.value].kind) && b.value in armatures
    }

    /** The skeleton branch of `mark_armatures_bones`: the skeleton root
        becomes an armature holding every eligible node of its tree. */
    method MarkSkeleton(b: nat, version: int, combineShapes: bool) returns (r: Outcome<ArmatureError>)
      requires Valid() && b < |blocks|
      modifies this`armatures
      ensures Valid()
      ensures Grows(old(armatures), armatures)
      ensures AllNoDup(old(armatures)) ==> AllNoDup(armatures)
      ensures !IsNiNode(blocks[b].kind) ==> r == Fail(RootNotNiNode) && armatures == old(armatures)
      ensures IsNiNode(blocks[b].kind) ==>
                var sk := SkeletonRoot(blocks, b, version);
                && r == Pass
                && armatures == old(armatures)[sk := AddAll(if sk in old(armatures) then old(armatures)[sk] else [],
                                                            Eligibles(blocks, Tree(blocks, sk), sk, combineShapes))]
    {
      if !IsNiNode(blocks[b].kind) {
        r := Fail(RootNotNiNode);
      } else {
        var sk := b;
        if version == 0x04000002 {
          var found := Find(blocks, b, "Bip01", true);
          if found.Some? {
            sk := found.value;
          }
        }
        assert sk == SkeletonRoot(blocks, b, version);
        ghost var l0 := if sk in armatures then armatures[sk] else [];
        if sk !in armatures {
          armatures := armatures[sk := []];
        } else {
          MapUpdateSame(armatures, sk);
        }
        assert armatures == old(armatures)[sk := l0];
        ghost var registered := armatures;
        PopulateBoneTree(sk, combineShapes);
        MapUpdateTwice(old(armatures), sk, l0, armatures[sk]);
        NoDupKept(registered, sk, l0, Eligibles(blocks, Tree(blocks, sk), sk, combineShapes));
        AddAllGrows(l0, Eligibles(blocks, Tree(blocks, sk), sk, combineShapes));
        GrowsUpdate(old(armatures), sk, armatures[sk]);
        r := Pass;
      }
    }

    /** The 'geometry only' branch of `mark_armatures_bones`: the block
        named after the selected armature becomes the only armature, and
        each of its Blender bones found below it is recorded in
        `dict_names`, appended to its list and tree-completed. */
    method IdentifyArmature(b: nat, armName: string, boneNames: seq<string>, toNif: string -> string)
        returns (r: Outcome<ArmatureError>)
      requires Valid() && b < |blocks| && armatures == map[]
      modifies this`armatures, imp`names
      ensures Valid()
      ensures Find(blocks, b, armName, false).None? ==>
                r == Fail(NoArmature(armName)) && armatures == old(armatures) && imp.names == old(imp.names)
      ensures Find(blocks, b, armName, false).Some? ==>
                var sk := Find(blocks, b, armName, false).value;
                var found := FoundBones(blocks, sk, boneNames, toNif);
                && armatures.Keys == {sk}
                && (r.Fail? ==> r.error.BrokenParentChain?)
                && (r.Pass? <==> BonesReach(blocks, parent, found, sk))
                && (r.Pass? ==> imp.names == RecordNames(old(imp.names), found, boneNames, |boneNames|))
                && (r.Pass? ==> BonesAttached(blocks, parent, armatures[sk], sk, found, |found|))
    {
      var found := Find(blocks, b, armName, false);
      if found.None? {
        return Fail(NoArmature(armName));
      }
      var sk := found.value;
      armatures := map[sk := []];
      r := AttachFoundBones(sk, FoundBones(blocks, sk, boneNames, toNif), boneNames);
    }

    /** The loop over the selected armature's Blender bones, given the
        block found for each; the first bone whose chain misses the
        armature raises. */
    method AttachFoundBones(sk: nat, found: seq<Option<nat>>, boneNames: seq<string>) returns (r: Outcome<ArmatureError>)
      requires Valid() && sk < |blocks| && armatures.Keys == {sk}
      requires |found| == |boneNames| && RefsIn(found, |blocks|)
      modifies this`armatures, imp`names
      ensures Valid() && armatures.Keys == {sk}
      ensures r.Fail? ==> r.error.BrokenParentChain?
      ensures r.Pass? <==> BonesReach(blocks, parent, found, sk)
      ensures r.Pass? ==> imp.names == RecordNames(old(imp.names), found, boneNames, |boneNames|)
      ensures r.Pass? ==> BonesAttached(blocks, parent, armatures[sk], sk, found, |found|)
    {
      var k := 0;
      while k < |found|
        invariant 0 <= k <= |found|
        invariant Valid() && armatures.Keys == {sk}
        invariant imp.names == RecordNames(old(imp.names), found, boneNames, k)
        invariant BonesAttached(blocks, parent, armatures[sk], sk, found, k)
      {
        ghost var before := armatures[sk];
        RecordNamesNext(old(imp.names), found, boneNames, k);
        r := Pass;
        if found[k].Some? {
          r := AttachFoundBone(sk, found[k].value, boneNames[k]);
          if r.Fail? {
            BonesReachFails(blocks, parent, found, sk, k);
            return;
          }
        }
        BonesAttachedStep(blocks, parent, before, armatures[sk], sk, found, k);
        k := k + 1;
      }
      BonesAttachedReach(blocks, parent, armatures[sk], sk, found);
      return Pass;
    }

    /** One bone of the selected armature found at block `bone`: record
        its Blender name, append it (without looking whether it is there)
        and complete its tree. */
    method AttachFoundBone(sk: nat, bone: nat, boneName: string) returns (r: Outcome<ArmatureError>)
      requires Valid() && sk in armatures && bone < |blocks|
      modifies this`armatures, imp`names
      ensures Valid() && sk in armatures && armatures == old(armatures)[sk := armatures[sk]]
      ensures armatures.Keys == old(armatures).Keys
      ensures IsPrefix(old(armatures)[sk], armatures[sk])
      ensures imp.names == old(imp.names)[bone := boneName]
      ensures r.Pass? <==> ParentChain(blocks, parent, bone, sk).reachesRoot
      ensures r.Fail? ==> r.error.BrokenParentChain?
      ensures r.Pass? ==> BoneAttached(blocks, parent, armatures[sk], bone, sk)
    {
      imp.names := imp.names[bone := boneName];
      ghost var before := armatures[sk];
      ArmaturesInAppend(armatures, |blocks|, sk, bone);
      armatures := armatures[sk := armatures[sk] + [bone]];
      ghost var mid := armatures[sk];
      r := CompleteBoneTree(bone, sk);
      MapUpdateTwice(old(armatures), sk, mid, armatures[sk]);
      MapUpdateKeys(old(armatures), sk, armatures[sk]);
      AddAllGrows(mid, ParentChain(blocks, parent, bone, sk).path);
      PrefixTrans(before, mid, armatures[sk]);
      if r.Pass? {
        AttachedAfterCompletion(before, mid, bone, sk);
      }
    }

    /** After `before` grew to `mid` by `bone` and the bone's tree was
        completed successfully, the bone is attached and `before` is a
        prefix of the result. */
    lemma AttachedAfterCompletion(before: seq<nat>, mid: seq<nat>, bone: nat, sk: nat)
      requires ParentsValid(blocks, parent) && bone < |blocks| && sk in armatures
      requires IsPrefix(before, mid) && bone in mid
      requires ParentChain(blocks, parent, bone, sk).reachesRoot
      requires armatures[sk] == AddAll(mid, ParentChain(blocks, parent, bone, sk).path)
      ensures BoneAttached(blocks, parent, armatures[sk], bone, sk)
      ensures IsPrefix(before, armatures[sk]) && IsPrefix(mid, armatures[sk])
    {
      var path := ParentChain(blocks, parent, bone, sk).path;
      AddAllGrows(mid, path);
      PrefixTrans(before, mid, armatures[sk]);
      PrefixMembers(mid, armatures[sk], bone);
      forall y | y in path
        ensures y in armatures[sk]
      {
        AddAllMembers(mid, path, y);
      }
    }

    /** The skinned-geometry branch of `mark_armatures_bones`: register
        (or, in 'geometry only' mode, insist on) the skeleton root, attach
        every non-null skin bone, then populate the root's tree. */
    method MarkSkin(x: nat, mode: SkeletonMode, combineShapes: bool) returns (r: Outcome<ArmatureError>)
      requires Valid() && x < |blocks| && Skinned(blocks, x) && mode != SkeletonOnly
      modifies this`armatures
      ensures Valid() && Grows(old(armatures), armatures)
      ensures AllNoDup(old(armatures)) ==> AllNoDup(armatures)
      ensures var root := blocks[x].skin.value.skeletonRoot;
              && (mode == GeometryOnly ==> armatures.Keys == old(armatures).Keys)
              && (mode == Everything ==> armatures.Keys == old(armatures).Keys + {root})
              && (mode == GeometryOnly && root !in old(armatures) ==> r == Fail(IncompatibleArmature(x, root)))
              && (r.Fail? ==> (mode == GeometryOnly && root !in old(armatures) && r.error == IncompatibleArmature(x, root)) ||
                                r.error.BrokenParentChain?)
              && (r.Pass? <==> (mode == Everything || root in old(armatures)) && SkinBonesReach(blocks, parent, x))
              && (r.Pass? ==> SkinMarked(blocks, parent, combineShapes, armatures, x))
    {
      var root := blocks[x].skin.value.skeletonRoot;
      if mode == Everything {
        if root !in armatures {
          armatures := armatures[root := []];
        }
      } else if root !in armatures {
        return Fail(IncompatibleArmature(x, root));
      }
      ghost var registered := armatures;
      assert registered.Keys == old(armatures).Keys + {root};
      GrowsUpdate(old(armatures), root, registered[root]);
      r := AttachAndPopulate(x, combineShapes);
      GrowsTrans(old(armatures), registered, armatures);
    }

    /** Marking a skinned geometry once its skeleton root is registered:
        attach every non-null skin bone, then populate the root's tree. */
    method AttachAndPopulate(x: nat, combineShapes: bool) returns (r: Outcome<ArmatureError>)
      requires Valid() && x < |blocks| && Skinned(blocks, x) && blocks[x].skin.value.skeletonRoot in armatures
      modifies this`armatures
      ensures Valid() && Grows(old(armatures), armatures) && armatures.Keys == old(armatures).Keys
      ensures AllNoDup(old(armatures)) ==> AllNoDup(armatures)
      ensures r.Fail? ==> r.error.BrokenParentChain?
      ensures r.Pass? <==> SkinBonesReach(blocks, parent, x)
      ensures r.Pass? ==> SkinMarked(blocks, parent, combineShapes, armatures, x)
    {
      var root := blocks[x].skin.value.skeletonRoot;
      r := AttachSkinBones(x);
      if r.Fail? {
        return;
      }
      ghost var attached := armatures;
      PopulateBoneTree(root, combineShapes);
      MapUpdateKeys(attached, root, armatures[root]);
      PopulateKeeps(attached, armatures, root, combineShapes);
      GrowsTrans(old(armatures), attached, armatures);
      BonesAttachedGrows(blocks, parent, attached[root], armatures[root], root, blocks[x].skin.value.bones);
      SkinMarkedIntro(x, combineShapes);
    }

    /** Population after the bones are attached completes the marking. */
    lemma SkinMarkedIntro(x: nat, combineShapes: bool)
      requires Valid() && x < |blocks| && Skinned(blocks, x)
      requires var s := blocks[x].skin.value;
               && RefsIn(s.bones, |blocks|) && s.skeletonRoot in armatures
               && BonesAttached(blocks, parent, armatures[s.skeletonRoot], s.skeletonRoot, s.bones, |s.bones|)
               && forall y :: y in Eligibles(blocks, Tree(blocks, s.skeletonRoot), s.skeletonRoot, combineShapes) ==>
                    y in armatures[s.skeletonRoot]
      ensures SkinMarked(blocks, parent, combineShapes, armatures, x)
    {
    }

    /** What population changes: the root's list grows by the eligible
        nodes, duplicate-free lists stay so. */
    lemma PopulateKeeps(before: map<nat, seq<nat>>, after: map<nat, seq<nat>>, root: nat, combineShapes: bool)
      requires BlocksValid(blocks) && root < |blocks| && root in before
      requires after == before[root := AddAll(before[root], Eligibles(blocks, Tree(blocks, root), root, combineShapes))]
      ensures Grows(before, after)
      ensures AllNoDup(before) ==> AllNoDup(after)
      ensures forall y :: y in Eligibles(blocks, Tree(blocks, root), root, combineShapes) ==> y in after[root]
    {
      var tree := Eligibles(blocks, Tree(blocks, root), root, combineShapes);
      AddAllGrows(before[root], tree);
      NoDupKept(before, root, before[root], tree);
      forall y | y in tree
        ensures y in after[root]
      {
        AddAllMembers(before[root], tree, y);
      }
    }

    /** The loop over `skininst.bones`: null entries are skipped, every
        other bone is attached; the first bone whose chain misses the root
        raises. */
    method AttachSkinBones(x: nat) returns (r: Outcome<ArmatureError>)
      requires Valid() && x < |blocks| && Skinned(blocks, x) && blocks[x].skin.value.skeletonRoot in armatures
      modifies this`armatures
      ensures Valid() && Grows(old(armatures), armatures) && armatures.Keys == old(armatures).Keys
      ensures AllNoDup(old(armatures)) ==> AllNoDup(armatures)
      ensures r.Fail? ==> r.error.BrokenParentChain?
      ensures r.Pass? <==> SkinBonesReach(blocks, parent, x)
      ensures var s := blocks[x].skin.value;
              RefsIn(s.bones, |blocks|) &&
              (r.Pass? ==> BonesAttached(blocks, parent, armatures[s.skeletonRoot], s.skeletonRoot, s.bones, |s.bones|))
    {
      var s := blocks[x].skin.value;
      var root := s.skeletonRoot;
      assert RefsIn(s.bones, |blocks|);
      var k := 0;
      while k < |s.bones|
        invariant 0 <= k <= |s.bones|
        invariant Valid() && root in armatures && armatures.Keys == old(armatures).Keys
        invariant Grows(old(armatures), armatures)
        invariant AllNoDup(old(armatures)) ==> AllNoDup(armatures)
        invariant BonesAttached(blocks, parent, armatures[root], root, s.bones, k)
      {
        ghost var start := armatures;
        if s.bones[k].Some? {
          r := AttachSkinBone(s.bones[k].value, root);
          GrowsTrans(old(armatures), start, armatures);
          if r.Fail? {
            BonesReachFails(blocks, parent, s.bones, root, k);
            return;
          }
        }
        BonesAttachedStep(blocks, parent, start[root], armatures[root], root, s.bones, k);
        k := k + 1;
      }
      BonesAttachedReach(blocks, parent, armatures[root], root, s.bones);
      return Pass;
    }

    /** One skin bone: appended when missing, then its tree completed. */
    method AttachSkinBone(bone: nat, root: nat) returns (r: Outcome<ArmatureError>)
      requires Valid() && bone < |blocks| && root in armatures
      modifies this`armatures
      ensures Valid() && root in armatures && armatures == old(armatures)[root := armatures[root]]
      ensures Grows(old(armatures), armatures)
      ensures AllNoDup(old(armatures)) ==> AllNoDup(armatures)
      ensures r.Fail? ==> r.error.BrokenParentChain?
      ensures r.Pass? <==> ParentChain(blocks, parent, bone, root).reachesRoot
      ensures r.Pass? ==> BoneAttached(blocks, parent, armatures[root], bone, root)
    {
      ghost var before := armatures[root];
      if bone !in armatures[root] {
        ArmaturesInAppend(armatures, |blocks|, root, bone);
        armatures := armatures[root := armatures[root] + [bone]];
      } else {
        MapUpdateSame(armatures, root);
      }
      ghost var mid := armatures[root];
      assert armatures == old(armatures)[root := mid];
      ghost var path := ParentChain(blocks, parent, bone, root).path;
      NoDupKept(old(armatures), root, mid, []);
      r := CompleteBoneTree(bone, root);
      MapUpdateTwice(old(armatures), root, mid, AddAll(mid, path));
      AddAllGrows(mid, path);
      PrefixTrans(before, mid, armatures[root]);
      NoDupKept(old(armatures), root, mid, path);
      GrowsUpdate(old(armatures), root, armatures[root]);
      if r.Pass? {
        AttachedAfterCompletion(before, mid, bone, root);
      }
    }

    /** `mark_armatures_bones` from block `b`: the skeleton case marks the
        skeleton root's tree and stops; otherwise 'geometry only' mode
        first identifies the selected armature (when none is known yet),
        then every skinned geometry reached through NiAVObjects is marked.
        `selected` is the Blender selection, `toNif` stands for
        `get_bone_name_for_nif`. */
    method MarkArmaturesBones(b: nat, opts: Options, selected: seq<SceneObject>, toNif: string -> string)
        returns (r: Outcome<ArmatureError>)
      requires Valid() && b < |blocks| && CheckSelection(opts.mode, selected) == Pass
      modifies this`armatures, imp`names
      ensures Valid() && Grows(old(armatures), armatures)
      ensures SkeletonCase(opts) ==>
                && imp.names == old(imp.names)
                && (!IsNiNode(blocks[b].kind) ==> r == Fail(RootNotNiNode) && armatures == old(armatures))
                && (IsNiNode(blocks[b].kind) ==>
                      var sk := SkeletonRoot(blocks, b, opts.version);
                      && r == Pass
                      && armatures == old(armatures)[sk := AddAll(if sk in old(armatures) then old(armatures)[sk] else [],
                                                                  Eligibles(blocks, Tree(blocks, sk), sk, opts.combineShapes))])
      ensures var header := !SkeletonCase(opts) && opts.mode == GeometryOnly && old(armatures) == map[];
              && (!header ==> (AllNoDup(old(armatures)) ==> AllNoDup(armatures)))
              && (!header && !SkeletonCase(opts) ==> imp.names == old(imp.names))
              && (header ==>
                    var arm := selected[0];
                    var found := Find(blocks, b, arm.name, false);
                    && (found.None? ==> r == Fail(NoArmature(arm.name)) && armatures == old(armatures) && imp.names == old(imp.names))
                    && (found.Some? ==> armatures.Keys == {found.value})
                    && (found.Some? && r.Pass? ==>
                          var bones := FoundBones(blocks, found.value, arm.boneNames, toNif);
                          && imp.names == RecordNames(old(imp.names), bones, arm.boneNames, |arm.boneNames|)
                          && BonesAttached(blocks, parent, armatures[found.value], found.value, bones, |bones|)))
              && (!SkeletonCase(opts) && opts.mode == GeometryOnly && !header ==> armatures.Keys == old(armatures).Keys)
              && (!SkeletonCase(opts) && opts.mode == Everything ==> NewRootsFromSkins(blocks, old(armatures), armatures, b))
              && (!SkeletonCase(opts) && r.Pass? ==> SkinsMarked(blocks, parent, opts.combineShapes, armatures, b))
              && (!SkeletonCase(opts) && r.Fail? ==>
                    (header && r.error.NoArmature?) || MarkError(blocks, b, armatures, opts.mode, r.error))
    {
      if SkeletonCase(opts) {
        r := MarkSkeleton(b, opts.version, opts.combineShapes);
        return;
      }
      ghost var header := opts.mode == GeometryOnly && armatures == map[];
      if opts.mode == GeometryOnly && armatures == map[] {
        var arm := selected[0];
        r := IdentifyArmature(b, arm.name, arm.boneNames, toNif);
        if r.Fail? {
          return;
        }
      }
      ghost var identified := armatures;
      r := MarkNode(b, opts.mode, opts.combineShapes);
      GrowsTrans(old(armatures), identified, armatures);
      if header && r.Pass? {
        var sk := Find(blocks, b, selected[0].name, false).value;
        var bones := FoundBones(blocks, sk, selected[0].boneNames, toNif);
        BonesAttachedGrows(blocks, parent, identified[sk], armatures[sk], sk, bones);
      }
    }

    /** The part of `mark_armatures_bones` every call below the first one
        runs (the skeleton case has returned and, in 'geometry only' mode,
        the armature is known): mark the block's skin, then walk into its
        NiAVObject references. */
    method MarkNode(b: nat, mode: SkeletonMode, combineShapes: bool) returns (r: Outcome<ArmatureError>)
      requires Valid() && b < |blocks| && mode != SkeletonOnly
      requires mode == GeometryOnly ==> armatures.Keys != {}
      modifies this`armatures
      ensures Valid() && Grows(old(armatures), armatures)
      ensures AllNoDup(old(armatures)) ==> AllNoDup(armatures)
      ensures mode == GeometryOnly ==> armatures.Keys == old(armatures).Keys
      ensures mode == Everything ==> NewRootsFromSkins(blocks, old(armatures), armatures, b)
      ensures r.Pass? ==> SkinsMarked(blocks, parent, combineShapes, armatures, b)
      ensures r.Fail? ==> MarkError(blocks, b, armatures, mode, r.error)
      decreases |blocks| - b, 1
    {
      if Skinned(blocks, b) {
        r := MarkSkin(b, mode, combineShapes);
        assert Walk(blocks, b, AVRefs)[0] == b;
        if r.Fail? {
          return;
        }
      }
      ghost var skinned := armatures;
      r := MarkChildren(b, mode, combineShapes);
      GrowsTrans(old(armatures), skinned, armatures);
      if mode == Everything {
        assert b in Walk(blocks, b, AVRefs);
        NewRootsLift(blocks, old(armatures), skinned, armatures, b, b);
      }
      if r.Pass? {
        if Skinned(blocks, b) {
          SkinMarkedGrows(blocks, parent, combineShapes, skinned, armatures, b);
        }
        SkinsMarkedFromChildren(blocks, parent, combineShapes, armatures, b);
      }
    }

    /** The loop of `mark_armatures_bones` over `get_refs()`: blocks
        without a transform are skipped, the others are marked in turn;
        the first error stops the walk. */
    method MarkChildren(b: nat, mode: SkeletonMode, combineShapes: bool) returns (r: Outcome<ArmatureError>)
      requires Valid() && b < |blocks| && mode != SkeletonOnly
      requires mode == GeometryOnly ==> armatures.Keys != {}
      modifies this`armatures
      ensures Valid() && Grows(old(armatures), armatures)
      ensures AllNoDup(old(armatures)) ==> AllNoDup(armatures)
      ensures mode == GeometryOnly ==> armatures.Keys == old(armatures).Keys
      ensures mode == Everything ==> NewRootsFromSkins(blocks, old(armatures), armatures, b)
      ensures r.Pass? ==> ChildrenMarked(blocks, parent, combineShapes, armatures, b, |blocks[b].children|)
      ensures r.Fail? ==> MarkError(blocks, b, armatures, mode, r.error)
      decreases |blocks| - b, 0
    {
      var refs := blocks[b].children;
      assert RefsAfter(refs, b, |blocks|);
      var k := 0;
      while k < |refs|
        invariant 0 <= k <= |refs|
        invariant Valid() && Grows(old(armatures), armatures)
        invariant AllNoDup(old(armatures)) ==> AllNoDup(armatures)
        invariant mode == GeometryOnly ==> armatures.Keys == old(armatures).Keys
        invariant mode == Everything ==> NewRootsFromSkins(blocks, old(armatures), armatures, b)
        invariant ChildrenMarked(blocks, parent, combineShapes, armatures, b, k)
      {
        ghost var start := armatures;
        if refs[k].Some? && IsAVObject(blocks[refs[k].value].kind) {
          var child := refs[k].value;
          r := MarkNode(child, mode, combineShapes);
          assert b in Walk(blocks, b, AVRefs);
          ChildInWalk(blocks, b, b, child, AVRefs);
          GrowsTrans(old(armatures), start, armatures);
          if mode == Everything {
            NewRootsLift(blocks, old(armatures), start, armatures, b, child);
          }
          if r.Fail? {
            MarkErrorLift(blocks, b, child, armatures, mode, r.error);
            return;
          }
        }
        ChildrenMarkedStep(blocks, parent, combineShapes, start, armatures, b, k);
        k := k + 1;
      }
      r := Pass;
    }

    /** `import_bone`: a block that is not a bone is skipped; a bone
        becomes an edit bone named by `import_name` (at most 63
        characters) with parent `parentBone`, and its references are
        imported below it.  `head` stands for the head computed from the
        bind matrix. */
    method ImportBone(n: Option<nat>, data: BoneData, parentBone: Option<nat>, inUse: set<string>,
                      toBlender: string -> string, head: nat -> Vec3) returns (r: Outcome<ImportError>)
      requires Valid() && (n.Some? ==> n.value < |blocks|)
      modifies data, imp`names, imp`blockOf
      ensures NamesGrow(old(imp.names), imp.names) && IsPrefix(old(data.bones), data.bones)
      ensures !(n.Some? && IsBoneIn(armatures, n.value)) ==>
                r == Pass && data.bones == old(data.bones) && imp.names == old(imp.names) && imp.blockOf == old(imp.blockOf)
      ensures r.Pass? && n.Some? && IsBoneIn(armatures, n.value) ==>
                WalkMade(blocks, armatures, n.value, data.bones, imp.names, head, parentBone, |old(data.bones)|)
      decreases if n.Some? then |blocks| - n.value else 0, 2
    {
      var isBone := IsBone(n);
      if !isBone {
        r := Pass;
      } else {
        var name := imp.ImportName(n, 63, inUse, toBlender);
        if name.Failure? {
          r := Fail(name.error);
        } else {
          var base := |data.bones|;
          assert NamesGrow(old(imp.names), imp.names);
          data.bones := data.bones + [EditBone(name.value.value, parentBone, head(n.value))];
          ghost var made := data.bones;
          ghost var named := imp.names;
          assert IsPrefix(old(data.bones), made);
          assert MadeFor(made, named, head, [n.value], [parentBone], base);
          r := ImportChildren(n.value, data, Some(base), inUse, toBlender, head);
          PrefixTrans(old(data.bones), made, data.bones);
          NamesGrowTrans(old(imp.names), named, imp.names);
          if r.Pass? {
            BoneDone(blocks, armatures, n.value, made, data.bones, named, imp.names, head, parentBone, base);
          }
        }
      }
    }

    /** The loop of `import_bone` over a bone's references (and of
        `import_armature` over the armature's children): each is imported
        with `parentBone` as parent, in order. */
    method ImportChildren(b: nat, data: BoneData, parentBone: Option<nat>, inUse: set<string>,
                          toBlender: string -> string, head: nat -> Vec3) returns (r: Outcome<ImportError>)
      requires Valid() && b < |blocks|
      modifies data, imp`names, imp`blockOf
      ensures NamesGrow(old(imp.names), imp.names) && IsPrefix(old(data.bones), data.bones)
      ensures r.Pass? ==>
                ForestMade(blocks, armatures, blocks[b].children, |blocks[b].children|, b,
                           data.bones, imp.names, head, parentBone, |old(data.bones)|)
      decreases |blocks| - b, 1
    {
      var refs := blocks[b].children;
      var base := |data.bones|;
      var k := 0;
      while k < |refs|
        invariant 0 <= k <= |refs|
        invariant NamesGrow(old(imp.names), imp.names) && IsPrefix(old(data.bones), data.bones)
        invariant ForestMade(blocks, armatures, refs, k, b, data.bones, imp.names, head, parentBone, base)
      {
        r := ImportChild(b, k, data, parentBone, inUse, toBlender, head, old(data.bones), old(imp.names), base);
        if r.Pass? {
          k := k + 1;
        } else {
          break;
        }
      }
      if k == |refs| {
        r := Pass;
      }
    }

    /** One turn of the loop over a block's children: the bones of child
        `k` follow those of the children before it. */
    method ImportChild(b: nat, k: nat, data: BoneData, parentBone: Option<nat>, inUse: set<string>,
                       toBlender: string -> string, head: nat -> Vec3,
                       ghost bones0: seq<EditBone>, ghost names0: map<nat, string>, base: nat) returns (r: Outcome<ImportError>)
      requires Valid() && b < |blocks| && k < |blocks[b].children|
      requires IsPrefix(bones0, data.bones) && NamesGrow(names0, imp.names)
      requires ForestMade(blocks, armatures, blocks[b].children, k, b, data.bones, imp.names, head, parentBone, base)
      modifies data, imp`names, imp`blockOf
      ensures IsPrefix(bones0, data.bones) && NamesGrow(names0, imp.names)
      ensures r.Pass? ==>
                ForestMade(blocks, armatures, blocks[b].children, k + 1, b, data.bones, imp.names, head, parentBone, base)
      decreases |blocks| - b, 0
    {
      var refs := blocks[b].children;
      assert RefsAfter(refs, b, |blocks|);
      ghost var bonesBefore := data.bones;
      ghost var namesBefore := imp.names;
      r := ImportBone(refs[k], data, parentBone, inUse, toBlender, head);
      if r.Pass? {
        ChildrenStep(blocks, armatures, refs, k, b, bones0, bonesBefore, data.bones,
                     names0, namesBefore, imp.names, head, parentBone, base);
      } else {
        PrefixTrans(bones0, bonesBefore, data.bones);
        NamesGrowTrans(names0, namesBefore, imp.names);
      }
    }

    /** `store_names`: the text buffer is cleared and one `short;long`
        line is written per renamed entry of `dict_names`, whose entries
        in insertion order are `items`. */
    method StoreNames(items: seq<(nat, string)>) returns (text: string)
      requires Valid()
      requires forall k :: 0 <= k < |items| ==> items[k].0 in imp.names && imp.names[items[k].0] == items[k].1
      requires forall b :: b in imp.names ==> exists k :: 0 <= k < |items| && items[k].0 == b
      requires forall b :: b in imp.names ==> b < |blocks|
      ensures text == NamesText(blocks, items)
    {
      assert forall j :: 0 <= j < |items| ==> items[j].0 < |blocks|;
      text := "";
      var k := 0;
      while k < |items|
        invariant 0 <= k <= |items|
        invariant text == NamesText(blocks, items[..k])
      {
        var (b, short) := items[k];
        var long := blocks[b].name;
        NamesTextStep(blocks, items, k);
        if long != "" && short != long {
          text := text + (short + ";" + long + "\n");
        }
        k := k + 1;
      }
      assert items[..k] == items;
    }
  }
}
