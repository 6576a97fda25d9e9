# io_scene_nif in Dafny

A model of the bookkeeping core of the Blender NIF add-on `io_scene_nif`,
which imports and exports NetImmerse/Gamebryo `.nif` scene graphs. The
model replaces Blender and the pyffi format library with plain records,
and states and proves what the add-on's own logic does with them:

- **Armature classification** (`armature_import.dfy`, module
  `ArmatureImport`). `mark_armatures_bones` decides which nodes of a NIF
  tree are skeleton roots and which are bones. It handles the three
  `skeleton` modes, the Morrowind "Bip01" root and the Oblivion/Fallout 3
  skeleton files. `complete_bone_tree` and `populate_bone_tree` grow the
  per-root bone lists, and `is_bone` and `is_armature_root` read them.
  The `Armature` class holds `dict_armatures` as a map from root to
  bone list and updates it in place. Also here: `fix_bone_lengths` over
  an array of lengths, the recursion of `import_bone`, and the
  `FullNames` text that `store_names` writes.
- **Importer bookkeeping** (`nif_import.dfy`, module `NifImport`). This
  covers the `_parent` links of `set_parents` and the unique-name search
  of `import_name` with its `dict_names`/`dict_blocks` memo. It also
  covers `is_grouping_node`, the GEOMETRY_ONLY selection check, and the
  vertex (`v_map`/`n_map`) and face (`unique_faces`/`f_map`) dedup loops
  of `import_mesh`.
- **Exporter naming and tables** (`object_export.dfy`, module
  `ObjectExport`): `get_unique_name`, `get_full_name`,
  `rebuild_full_names`, `register_block` and `get_exported_objects`.
- **One material pass of `export_tri_shapes`** (`trishape_export.dfy`,
  module `TriShapeExport`). This is the `vertquad` dedup table with its
  `vertmap` and per-vertex lists, fan triangulation with the winding
  flip, the 65535 limits, and the body-part face map.
- **Animation helpers** (`animation_import.dfy`, module
  `AnimationImport`). This covers `interpolate` over reals, with
  `bisect_left` written out. It also covers the extrapolation and
  interpolation tables, the fcurve path and group choice, and the
  `Anim` text-key lines.
- **Collision import** (`collision_import.dfy`, module
  `CollisionImport`). This covers the `box_from_extents` layout, the
  extents of boxes, spheres, capsules and bounding boxes, and the
  `HAVOK_SCALE` choice. It also covers the vertex-offset partition of
  packed tri-strips, and the dispatch of `import_bhk_shape` with its
  `reduce(operator.add, ...)` concatenation and its current Havok
  material, as class `ShapeImport`.
- **Export operator settings** (`nif_export_op.dfy`, module
  `ExportOperator`). This covers `_game_to_enum`, reset to defaults,
  the settings loop of `invoke`, the HIDDEN rule of the panel, and the
  game-to-version map.

Shared pieces:

- `nif_blocks.dfy` (module `NifBlocks`) is the block graph as an arena
  of records, in which every reference points to a later block. It also
  holds the pyffi walks `tree()` and `find()`.
- `text.dfy` (module `Text`) has the Python string operations used.
- `seqs.dfy` (module `Seqs`) has the "append if missing" idiom
  (`AddAll`) and prefix facts.
- `wrappers.dfy` (module `Wrappers`) has `Option`, `Result` and
  `Outcome`.

Python exceptions become `Failure`/`Fail` values that name the
exception. Blender's name tables (`bpy.data.objects` and friends) are a
set of names in use, passed as a parameter. The bone-name conversions
`get_bone_name_for_blender`/`get_bone_name_for_nif`, vector length and
`qhull3d` are function parameters.

## Model

| member | source | states |
|---|---|---|
| NifBlocks.Walk | io_scene_nif/modules/armature/armature_import.py:233-235 | a depth-first walk from a block starts at the block and visits only it and later blocks (the walk `mark_armatures_bones` and `set_parents` make over NiAVObject children) |
| NifBlocks.Tree | io_scene_nif/modules/armature/armature_import.py:240 | `tree()`: the preorder walk over all references starts at the block and stays inside the graph |
| NifBlocks.WalkTrans | io_scene_nif/modules/armature/armature_import.py:233-235 | a block reached from a block of the walk is itself in the walk |
| NifBlocks.ForestMember | io_scene_nif/modules/armature/armature_import.py:233-235 | a block under a list of references is in the walk of one of those references |
| NifBlocks.FirstMatch | io_scene_nif/modules/armature/armature_import.py:164-165 | the first block of a walk whose name (and, when asked, NiNode class) matches: nothing before it matches, and no result means no block matches |
| NifBlocks.Find | io_scene_nif/modules/armature/armature_import.py:180-189 | `find(block_name=...)`: a result lies in the block's tree and matches; no result means no block of the tree matches |
| NifImport.CheckSelection | io_scene_nif/nif_import.py:102-110 | in 'geometry only' mode the import fails with `NotOneArmatureSelected` exactly when the selection is not one single armature; every other mode passes |
| NifImport.Importer.SetParents | io_scene_nif/nif_import.py:1169-1177 | only the `_parent` links of blocks reached from the starting NiNode through NiNode `children` (NiAVObject references other than dynamic effects) change, each to a NiNode of the walk that refers to it; every such child gets a link; a child referred to by only one NiNode of the walk gets exactly that NiNode as parent |
| NifImport.Importer.SetChildrenParents | io_scene_nif/nif_import.py:1174-1177 | the loop over a NiNode's `children` (its non-null NiAVObject references other than dynamic effects): each gets the node as parent and its own subtree is linked; nothing outside the walk changes |
| NifImport.OnlyReferrerParent | io_scene_nif/nif_import.py:1169-1177 | once the walk is covered, a child with a single referring NiNode has that node as its parent |
| NifImport.CoverAll | io_scene_nif/nif_import.py:1172-1177 | linking every child and the walk below each child links the whole walk from the node |
| NifImport.Importer.ImportName | io_scene_nif/nif_import.py:620-675 | a null block gives no name; a block already named gets its memoised name with the tables unchanged; otherwise the first free candidate is recorded in both `dict_names` and `dict_blocks`, and running out of the 1001 candidates fails with `RanOutOfNames` and changes nothing |
| NifImport.NameToUse | io_scene_nif/nif_import.py:640-646 | the search name is never empty: the block's own name, or "RootCollisionNode"/"noname" for an unnamed block |
| NifImport.CandidatesDistinct | io_scene_nif/nif_import.py:648-655 | two different numbered candidates `name.NN` are different strings |
| NifImport.FirstCandidateKeepsShortName | io_scene_nif/nif_import.py:650-651 | a name shorter than the limit is kept whole by the first (unnumbered) candidate |
| NifImport.FirstFree | io_scene_nif/nif_import.py:648-668 | the search fails iff every remaining candidate (after Blender's bone renaming) is in use and the name is not "InvMarker"; a found name is the first candidate not in use; "InvMarker" always takes the current candidate |
| NifImport.GroupName | io_scene_nif/nif_import.py:1203-1205 | a trailing " nonaccum" (any case) is cut off the node name, any other name is kept |
| NifImport.GroupNameStrips | io_scene_nif/nif_import.py:1203-1205 | appending a nine-character " NonAccum" trailer in any case and grouping gives back the base name |
| NifImport.GeomChildren | io_scene_nif/nif_import.py:1207-1209 | the geometry children keep the order of the node's child list |
| NifImport.GeomChildrenMembers | io_scene_nif/nif_import.py:1207-1209 | a block is among the geometry children iff it is a non-null child that is a NiTriBasedGeom whose name contains the pattern |
| NifImport.IsGroupingNode | io_scene_nif/nif_import.py:1179-1209 | the grouped children are children of the node, in order, and a non-empty group needs combining on, a NiNode that is no NiLODNode, and a name unless it is a RootCollisionNode |
| NifImport.IsGroupingNodeMembers | io_scene_nif/nif_import.py:1193-1209 | a RootCollisionNode groups exactly its NiTriBasedGeom children; a named NiNode groups exactly its NiTriBasedGeom children whose name contains the node name without the NonAccum trailer; a NiLODNode groups nothing |
| NifImport.IsGroupingNodeAsWritten | io_scene_nif/nif_import.py:1199-1209 | as written, a named NiNode groups the geometry children whose name contains the node's whole name (the trailer is never stripped) |
| NifImport.GroupingRule | io_scene_nif/nif_import.py:1184-1209 | the decision chain of `is_grouping_node` for a given search name; its result is an ordered choice of the node's children |
| NifImport.NonAccumNotGroupedAsWritten | io_scene_nif/nif_import.py:1204-1205 | as written, a "Bip01 NonAccum" node with a child "Bip01 Mesh" groups nothing |
| NifImport.NonAccumGrouped | io_scene_nif/nif_import.py:1204-1209 | as intended, the same node groups its mesh child |
| NifImport.FirstWithKey | io_scene_nif/nif_import.py:919-929 | the first vertex after vertex 0 with a given key, or the bound when there is none |
| NifImport.FreshVertexUnseen | io_scene_nif/nif_import.py:923-929 | a vertex gets a new Blender vertex iff combining is off, it is vertex 0, or no vertex in `[1, i)` shares its key (index 0 in `n_map` reads as "not found") |
| NifImport.FreshCount | io_scene_nif/nif_import.py:929-948 | the number of new Blender vertices is at most the number of NIF vertices, and equal to it with combining off |
| NifImport.NMapAfterAt | io_scene_nif/nif_import.py:926-931 | after the first vertices, `n_map` holds each key seen after vertex 0 and maps it to its first such vertex |
| NifImport.NMapLookup | io_scene_nif/nif_import.py:920-929 | the `n_map` lookup finds nothing (or index 0) exactly for a fresh vertex, and otherwise finds the earlier vertex with the same key |
| NifImport.BlenderIndexRange | io_scene_nif/nif_import.py:929-952 | every NIF vertex maps into the range of Blender vertices the loop adds |
| NifImport.BlenderIndexRepeat | io_scene_nif/nif_import.py:949-952 | a repeated vertex shares the Blender vertex of the first earlier vertex with the same key |
| NifImport.BlenderIndexIncreasing | io_scene_nif/nif_import.py:929-948 | new vertices get distinct Blender vertices in increasing order |
| NifImport.BlenderIndexNoCombine | io_scene_nif/nif_import.py:923-924 | with combining off NIF vertex `i` maps to Blender vertex `start + i` |
| NifImport.MapVertices | io_scene_nif/nif_import.py:893-952 | the `v_map` loop: one entry per NIF vertex, each the Blender vertex `BlenderIndex` defines, and the vertex counter advances by the number of new vertices |
| NifImport.MapFace | io_scene_nif/nif_import.py:971 | a triangle's corners are mapped through `v_map` one by one |
| NifImport.MapFaces | io_scene_nif/nif_import.py:969-971 | every triangle is mapped, in order |
| NifImport.FacesInRange | io_scene_nif/nif_import.py:971 | true iff every corner of every triangle indexes `v_map` |
| NifImport.UniqueFaces | io_scene_nif/nif_import.py:966-979 | the kept faces are the distinct mapped triangles in first-occurrence order; `f_map` gives each first occurrence the next polygon index and each duplicate none |
| NifImport.DedupFaces | io_scene_nif/nif_import.py:958-979 | fails (the `IndexError`) iff some corner lies outside `v_map`; otherwise the face loop's result on the mapped triangles |
| NifImport.DedupFacesUnique | io_scene_nif/nif_import.py:969-974 | the kept faces have no duplicates and are exactly the mapped triangles as a set |
| ArmatureImport.BaseName | io_scene_nif/modules/armature/armature_import.py:156 | `os.path.basename` as `posixpath` and `ntpath` compute it: a suffix of the path holding no '/' (on Windows no '\\' either), preceded when shorter than the path by a separator or, on Windows, by a drive `X:` |
| ArmatureImport.Tail | io_scene_nif/modules/armature/armature_import.py:156 | the text after the last separator: a suffix of the path holding no separator, preceded by one when shorter than the path |
| ArmatureImport.TailAfter | io_scene_nif/modules/armature/armature_import.py:156 | a path ending in a separator followed by text without one has that text as its tail |
| ArmatureImport.TailWhole | io_scene_nif/modules/armature/armature_import.py:156 | a path without separators is its own tail |
| ArmatureImport.WindowsSkeletonPath | io_scene_nif/modules/armature/armature_import.py:154-157 | on Windows `C:\Games\Oblivion\skeleton.nif` has base name `skeleton.nif`, so an Oblivion file there takes the skeleton case; read as a POSIX path its base name is the whole path |
| ArmatureImport.SkeletonRoot | io_scene_nif/modules/armature/armature_import.py:162-169 | the skeleton root is the import root, except for Morrowind (0x04000002) where it may be a NiNode named "Bip01" |
| ArmatureImport.SkeletonRootFound | io_scene_nif/modules/armature/armature_import.py:163-167 | the skeleton root lies in the root's tree, and for Morrowind it is the "Bip01" NiNode whenever the tree has one |
| ArmatureImport.ParentChain | io_scene_nif/modules/armature/armature_import.py:254-272 | the ancestors `complete_bone_tree` visits are earlier blocks and never the skeleton root |
| ArmatureImport.ParentChainLinks | io_scene_nif/modules/armature/armature_import.py:261-272 | the chain follows `_parent` links one by one, and it reaches the root iff the last visited block's parent is the root |
| ArmatureImport.Eligibles | io_scene_nif/modules/armature/armature_import.py:240-249 | the nodes `populate_bone_tree` may add, taken in tree order, are at most as many as the tree has |
| ArmatureImport.EligiblesMembers | io_scene_nif/modules/armature/armature_import.py:240-249 | a block is eligible iff it is in the tree, is not the root, is a NiNode, not a NiLODNode and not a grouping node under the intended grouping rule (the as-written rule is in Findings) |
| ArmatureImport.NonAccumBoneAsWritten | io_scene_nif/modules/armature/armature_import.py:239-251 | as written, a "Bip01 NonAccum" NiNode with the geometry child "Bip01 Mesh" is a candidate of the tree that the as-written grouping test leaves ungrouped, so `populate_bone_tree` marks it; under the intended rule it groups the mesh and is not eligible |
| ArmatureImport.NonAccumSceneUngroupedAsWritten | io_scene_nif/nif_import.py:1199-1209 | as written, that node groups nothing |
| ArmatureImport.NonAccumSceneGrouped | io_scene_nif/nif_import.py:1199-1209 | under the intended rule, that node groups its mesh child |
| ArmatureImport.PopulationMembers | io_scene_nif/modules/armature/armature_import.py:237-251 | after population a root's list holds exactly its old members and the eligible nodes of its tree |
| ArmatureImport.PopulationLooksBelowExcluded | io_scene_nif/modules/armature/armature_import.py:240-249 | an eligible node below an excluded node (a LOD node, a grouping node) is still added: `tree()` does not stop at excluded nodes |
| ArmatureImport.Populate | io_scene_nif/modules/armature/armature_import.py:240-251 | the population loop appends each eligible node not yet in the list, in tree order |
| ArmatureImport.Armature.PopulateBoneTree | io_scene_nif/modules/armature/armature_import.py:237-251 | only the root's list changes, and it becomes its old value with the eligible nodes of the root's tree appended without duplicates |
| ArmatureImport.Armature.CompleteBoneTree | io_scene_nif/modules/armature/armature_import.py:254-272 | the root's list gains the bone's missing ancestors below the root, in order; it passes iff the `_parent` chain reaches the root, and otherwise fails with a broken-chain error |
| ArmatureImport.Armature.IsBone | io_scene_nif/modules/armature/armature_import.py:274-280 | true iff the block is not null and some root's list holds it |
| ArmatureImport.Armature.IsArmatureRoot | io_scene_nif/modules/armature/armature_import.py:282-285 | true iff the block is a NiNode registered as a skeleton root |
| ArmatureImport.Armature.MarkSkeleton | io_scene_nif/modules/armature/armature_import.py:154-175 | a non-NiNode root fails with "root is not a NiNode" and changes nothing; otherwise the skeleton root is registered and populated, and lists stay duplicate-free |
| ArmatureImport.Armature.IdentifyArmature | io_scene_nif/modules/armature/armature_import.py:178-195 | with no block named after the selected armature it fails and changes nothing; otherwise that block becomes the only root, it passes iff every found bone's parent chain reaches it, and then every found bone is attached and named after its Blender bone |
| ArmatureImport.Armature.AttachFoundBones | io_scene_nif/modules/armature/armature_import.py:185-195 | the loop over the selected armature's bones: passes iff every found bone reaches the root; then names are recorded and every found bone is attached |
| ArmatureImport.Armature.AttachFoundBone | io_scene_nif/modules/armature/armature_import.py:191-195 | one found bone: its Blender name is recorded, the root's list only grows, and it passes iff the bone's chain reaches the root, leaving it attached |
| ArmatureImport.FoundBonesMatch | io_scene_nif/modules/armature/armature_import.py:187-191 | a found bone block lies in the armature's tree and carries the NIF name of the Blender bone; no block found means none in the tree has that name |
| ArmatureImport.RecordNamesKeys | io_scene_nif/modules/armature/armature_import.py:191-193 | the blocks with a name afterwards are those named before and the blocks found |
| ArmatureImport.RecordNamesLast | io_scene_nif/modules/armature/armature_import.py:193 | a block found for several Blender bones keeps the name of the last one |
| ArmatureImport.Armature.MarkSkin | io_scene_nif/modules/armature/armature_import.py:198-231 | a skinned geometry registers its skeleton root in 'everything' mode; in 'geometry only' mode an unregistered root fails with the intended incompatible-armature error (as written, `UnboundLocalError` in any call that did not identify the armature; see Findings); it passes iff the root is registered and every skin bone reaches it, and then the skin is marked |
| ArmatureImport.Armature.AttachSkinBones | io_scene_nif/modules/armature/armature_import.py:218-228 | null skin bones are skipped; passes iff every skin bone's chain reaches the root, and then every skin bone is attached |
| ArmatureImport.Armature.AttachSkinBone | io_scene_nif/modules/armature/armature_import.py:222-228 | one skin bone is appended when missing and its chain completed; only that root's list grows, without duplicates |
| ArmatureImport.Armature.AttachAndPopulate | io_scene_nif/modules/armature/armature_import.py:218-231 | bones attached and the bone tree populated: passes iff all skin bones reach the root, and then the skin is marked |
| ArmatureImport.Armature.PopulateKeeps | io_scene_nif/modules/armature/armature_import.py:237-251 | population only grows lists, keeps them duplicate-free, and contains every eligible node |
| ArmatureImport.Armature.MarkArmaturesBones | io_scene_nif/modules/armature/armature_import.py:149-235 | the skeleton case registers and populates the skeleton root (or fails for a non-NiNode root); the 'geometry only' header identifies the armature first; otherwise the walk marks every skinned geometry below, and lists only grow |
| ArmatureImport.Armature.MarkNode | io_scene_nif/modules/armature/armature_import.py:197-235 | marking below the first call: new roots come only from skinned geometries of the walk, every such skin is marked on success, and a failure is a broken parent chain or the intended incompatible-armature error for a skinned geometry of the walk (as written `UnboundLocalError`, see `RaisedAsWritten`) |
| ArmatureImport.RaisedAsWritten | io_scene_nif/modules/armature/armature_import.py:178-216 | the exception raised as written for a walk error: the incompatible-armature error only when the same call identified the armature and is at the skinned geometry itself, `UnboundLocalError` for every other incompatible geometry, any other error unchanged |
| ArmatureImport.IncompatibleAsWritten | io_scene_nif/modules/armature/armature_import.py:178-235 | in 'geometry only' mode with "Armature" identified, a geometry below the root skinned to another node makes the walk fail, and every incompatible-armature failure of that walk is raised as written as `UnboundLocalError` |
| ArmatureImport.Armature.MarkChildren | io_scene_nif/modules/armature/armature_import.py:233-235 | the loop over `get_refs()`: blocks without a transform are skipped, every NiAVObject child's walk is marked on success |
| ArmatureImport.BonesAttachedReach | io_scene_nif/modules/armature/armature_import.py:254-272 | attached bones have parent chains reaching the root |
| ArmatureImport.BonesReachFails | io_scene_nif/modules/armature/armature_import.py:261-272 | one bone whose chain misses the root is enough for the marking to fail |
| ArmatureImport.SkinsMarkedGrows | io_scene_nif/modules/armature/armature_import.py:149-235 | marked skins stay marked as the armature lists grow |
| ArmatureImport.ChildBonesMembers | io_scene_nif/modules/armature/armature_import.py:129-132 | `edit_bone.children` holds exactly the bones whose parent is the bone |
| ArmatureImport.ChainLength | io_scene_nif/modules/armature/armature_import.py:129-135 | a bone with children gets a length of at least 0.01 (0.25 replaces a shorter one) |
| ArmatureImport.FixBoneLengths | io_scene_nif/modules/armature/armature_import.py:123-139 | root bones keep their length; a bone with children gets the distance to its children's mean head (0.25 below 0.01); a chain end gets its parent's length as the loop has left it |
| ArmatureImport.BoneWalk | io_scene_nif/modules/armature/armature_import.py:97-121 | the blocks `import_bone` turns into edit bones from a bone start with that bone |
| ArmatureImport.BoneForest | io_scene_nif/modules/armature/armature_import.py:119-121 | the blocks made into bones below the first `n` references of a block, in creation order, all of them later blocks |
| ArmatureImport.BoneParents | io_scene_nif/modules/armature/armature_import.py:116-121 | the parents `import_bone` gives the bones of a walk: the first gets the given parent |
| ArmatureImport.BoneParentsRefer | io_scene_nif/modules/armature/armature_import.py:116-121 | every bone of a walk after the first has as parent an earlier bone of the walk, the one made for a block whose references hold its block |
| ArmatureImport.ForestParentsRefer | io_scene_nif/modules/armature/armature_import.py:119-121 | every bone below a list of references hangs off the given parent with its block in that list, or off an earlier bone made for a block referring to its block |
| ArmatureImport.Armature.ImportBone | io_scene_nif/modules/armature/armature_import.py:97-121 | a non-bone block is skipped with nothing changed; a bone appends exactly one edit bone per block of its `BoneWalk`, in order, named by `dict_names` and headed from its block, with the parents `BoneParents` gives: the first the given parent bone, every other one the bone made for the block that refers to it; names only grow |
| ArmatureImport.Armature.ImportChildren | io_scene_nif/modules/armature/armature_import.py:80-81 | the loop over a block's references appends exactly the edit bones of its bone children's walks, in order, each child's first bone parented to the given bone and every later bone to the bone of the block referring to it (`ForestParents`) |
| ArmatureImport.Armature.ImportChild | io_scene_nif/modules/armature/armature_import.py:119-121 | one turn of the loop over a block's references: the bones of child `k` follow exactly those of the children before it, and the earlier bones and names stay |
| ArmatureImport.Armature.StoreNames | io_scene_nif/modules/armature/armature_import.py:287-303 | the `FullNames` text has one `short;long` line per named block whose NIF name is non-empty and differs from its Blender name, in `dict_names` order |
| ArmatureImport.NamesTextSnoc | io_scene_nif/modules/armature/armature_import.py:300-303 | one more entry of `dict_names` appends exactly its own line to the text |
| AnimationImport.BisectFromSorted | io_scene_nif/modules/animation/animation_import.py:60 | on a sorted list, `bisect_left` splits it into the entries below `x` and those at or above `x` |
| AnimationImport.BisectLeftSorted | io_scene_nif/modules/animation/animation_import.py:60 | the same for a whole sorted list |
| AnimationImport.BisectFromKnot | io_scene_nif/modules/animation/animation_import.py:60 | on a strictly increasing list, bisecting at an entry returns that entry's index |
| AnimationImport.SlopesUpTo | io_scene_nif/modules/animation/animation_import.py:55-56 | the first slopes fail with a zero division iff two neighbouring x values among them are equal; otherwise each is the slope of its segment |
| AnimationImport.Slopes | io_scene_nif/modules/animation/animation_import.py:55-58 | the slope list fails iff two neighbouring x values are equal; otherwise it has one slope per segment (over the shorter of the two inputs), or the single slope 0 when there is no segment |
| AnimationImport.SegmentFor | io_scene_nif/modules/animation/animation_import.py:60-62 | the segment index, `bisect_left - 1` clamped, lies inside the slope list |
| AnimationImport.Interpolate | io_scene_nif/modules/animation/animation_import.py:50-64 | `interpolate`: a zero division iff two neighbouring x values are equal; an index error iff there are samples to take but no input points; otherwise one output per `x_out`, each the sampled value of the piecewise-linear curve |
| AnimationImport.SampleAll | io_scene_nif/modules/animation/animation_import.py:56-64 | the loop over `x_out` once the slopes are known: an index error iff there are points to sample but no input points, otherwise one output per point, each the sampled value there |
| AnimationImport.SampledAt | io_scene_nif/modules/animation/animation_import.py:60-63 | a sample is the segment's start value plus its slope times the distance from the segment's start |
| AnimationImport.SampledSingle | io_scene_nif/modules/animation/animation_import.py:57-58 | a single input point gives a constant curve |
| AnimationImport.SampledAtKnot | io_scene_nif/modules/animation/animation_import.py:50-64 | with strictly increasing x values the curve passes through every input point |
| AnimationImport.SlopeSpan | io_scene_nif/modules/animation/animation_import.py:56 | a segment's slope carries its start value to its end value |
| AnimationImport.SampledBetween | io_scene_nif/modules/animation/animation_import.py:59-63 | a sample strictly inside a segment is linear interpolation on that segment |
| AnimationImport.SampledClamped | io_scene_nif/modules/animation/animation_import.py:61-63 | samples before the first point extend the first segment, samples after the last point extend the last segment |
| AnimationImport.ExtendFromFlags | io_scene_nif/modules/animation/animation_import.py:124-131 | the extend mode is CYCLIC iff bits 1-2 of the flags are 0, CONST otherwise (clamp 0b100 and the unsupported 0b010/0b110 alike) |
| AnimationImport.ExtendCycleBits | io_scene_nif/modules/animation/animation_import.py:124-131 | only bits 1-2 of the flags decide the extend mode |
| AnimationImport.ExtrapolationFor | io_scene_nif/modules/animation/animation_import.py:133-143 | a curve gets a CYCLES modifier iff bits 1-2 are 0, and constant extrapolation otherwise |
| AnimationImport.BInterpFromNInterp | io_scene_nif/modules/animation/animation_import.py:76-85 | LINEAR exactly for linear and XYZ-rotation keys, CONSTANT exactly for 0, BEZIER for every other key type |
| AnimationImport.ObjectGroup | io_scene_nif/modules/animation/animation_import.py:113-117 | an object curve goes to "LocRotScale" iff its data path mentions rotation, location or scale, and to no group otherwise |
| AnimationImport.CreateFCurves | io_scene_nif/modules/animation/animation_import.py:102-120 | one curve per index of `drange`, in order, all with the flags' extrapolation; a named bone gives `pose.bones["bone"].dtype` in the bone's group, otherwise the bare data path in the object group |
| AnimationImport.BonePathParse | io_scene_nif/modules/animation/animation_import.py:108 | a bone data path can be read back: the bone name sits between the quotes and the data path follows `"].` |
| AnimationImport.RoundHalfEven | io_scene_nif/modules/animation/animation_import.py:150 | Python's `round`: the nearest integer, ties to the even one |
| AnimationImport.ImportTextKeys | io_scene_nif/modules/animation/animation_import.py:155-181 | no text keys: nothing is written; an empty key list fails (`frame` is unbound); otherwise one `frame/text` line per key in order, the text being the intended one (the key's text with `\r\n` made '/' and trailing '/' removed; as written it is the bytes `repr`, see Findings), and the end frame is the last key's frame |
| AnimationImport.KeyTextAsWrittenIsRepr | io_scene_nif/modules/animation/animation_import.py:175 | as written, a key's text is exactly `str()` of its bytes value, the `b'...'` repr: neither the `\r\n` replacement nor the strip changes it, and it never equals the intended text |
| AnimationImport.PlainKeyLineAsWritten | io_scene_nif/modules/animation/animation_import.py:175-177 | a key with plain text such as "start" at time 0 is written as `0/b'start'` where `0/start` is intended |
| AnimationImport.CrLfKeyTextAsWritten | io_scene_nif/modules/animation/animation_import.py:175 | as written, a plain text followed by `\r\n` keeps the four characters `\r\n` of its escapes inside `b'...'`; the intended text is the plain text |
| Text.BytesRepr | io_scene_nif/modules/animation/animation_import.py:175 | `str()` of a bytes value: `b`, the chosen quote, the escaped bytes and the quote again, at least three characters longer than the value |
| Text.ReprQuote | io_scene_nif/modules/animation/animation_import.py:175 | the quote the repr uses: a double quote iff the bytes hold a single quote and no double quote |
| Text.EscapeBytes | io_scene_nif/modules/animation/animation_import.py:175 | each byte escaped in order: between one and four printable ASCII characters per byte |
| Text.EscapeBytesPlain | io_scene_nif/modules/animation/animation_import.py:175 | printable bytes other than the quote and the backslash are written as they are |
| Text.EscapeByteControl | io_scene_nif/modules/animation/animation_import.py:175 | a carriage return is written as the two characters `\r` and a line feed as `\n` |
| AnimationImport.ReplaceNoCRLF | io_scene_nif/modules/animation/animation_import.py:175 | after replacing "\r\n" by '/' no "\r\n" is left |
| AnimationImport.KeyTextClean | io_scene_nif/modules/animation/animation_import.py:175 | a cleaned key text has no "\r\n" and does not end in '/' |
| AnimationImport.KeyLineFrame | io_scene_nif/modules/animation/animation_import.py:176-177 | the text before the first '/' of a key line is the key's frame number |
| CollisionImport.BoxFromExtents | io_scene_nif/modules/collision/collision_import.py:53-59 | the eight corners in `x`, then `y`, then `z` order (corner `4x+2y+z` takes the min or max of each axis by its bit) and the six quad faces |
| CollisionImport.CornerIndex | io_scene_nif/modules/collision/collision_import.py:55-58 | the bits of a corner's index say which extent it takes on each axis |
| CollisionImport.BoxFacesLayout | io_scene_nif/modules/collision/collision_import.py:59 | each of the six faces has four distinct corners that all lie on one side of the box, and the six faces lie on six different sides |
| CollisionImport.BoxVerts | io_scene_nif/modules/collision/collision_import.py:55-58 | the corner list of a box has eight entries, corner `k` at position `k` |
| CollisionImport.ScaleFor | io_scene_nif/modules/collision/collision_import.py:90-94 | user version 12 with user version 2 = 83 scales by ten times the importer's scale, other user version 2 values by the importer's scale; other user versions keep the current scale |
| CollisionImport.ScaleForSettles | io_scene_nif/modules/collision/collision_import.py:90-94 | choosing the scale a second time changes nothing |
| CollisionImport.BoxExtents | io_scene_nif/modules/collision/collision_import.py:241-246 | a box shape's extents are centred on the origin and span twice the scaled dimensions |
| CollisionImport.SphereExtents | io_scene_nif/modules/collision/collision_import.py:265-267 | a sphere becomes the cube from minus to plus the scaled radius |
| CollisionImport.CapsuleExtents | io_scene_nif/modules/collision/collision_import.py:285-288 | a capsule spans the scaled radius across and its length plus both caps along z, centred on the origin |
| CollisionImport.Max3 | io_scene_nif/modules/collision/collision_import.py:457 | `max` of three values: one of them, and at least each |
| CollisionImport.ImportBoundingBox | io_scene_nif/modules/collision/collision_import.py:405-459 | a BSBound spans centre ± dimensions and sits at the centre; a NiNode with a bounding box spans its box relative to the node's translation and sits at the box translation; a NiNode without one raises ValueError, any other block TypeError; the radius is the largest max extent |
| CollisionImport.OffsetMonotone | io_scene_nif/modules/collision/collision_import.py:394 | the running vertex offset never decreases |
| CollisionImport.OffsetCovers | io_scene_nif/modules/collision/collision_import.py:360-394 | every vertex below the total lies in the range of some sub-shape |
| CollisionImport.OffsetDisjoint | io_scene_nif/modules/collision/collision_import.py:360-394 | the vertex ranges of two sub-shapes never overlap |
| CollisionImport.SubVerts | io_scene_nif/modules/collision/collision_import.py:363-367 | a sub-shape gets exactly its number of vertices |
| CollisionImport.SubFaces | io_scene_nif/modules/collision/collision_import.py:369-377 | a sub-shape keeps at most as many faces as there are triangles |
| CollisionImport.SubFacesMembers | io_scene_nif/modules/collision/collision_import.py:369-377 | a face is kept iff it is a triangle whose first vertex lies in the sub-shape's range, rebased by the offset |
| CollisionImport.PackedList | io_scene_nif/modules/collision/collision_import.py:360-395 | one collision object per sub-shape handled |
| CollisionImport.PackedListAt | io_scene_nif/modules/collision/collision_import.py:360-395 | object `j` of the list is the one built from sub-shape `j` at its offset |
| CollisionImport.PackedObjects | io_scene_nif/modules/collision/collision_import.py:348-397 | the sub-shapes come from the shape or else from its data; the import fails with an index error iff their vertex counts add up to more than the data's vertices, and otherwise gives one object per sub-shape |
| CollisionImport.CopyVertices | io_scene_nif/modules/collision/collision_import.py:363-367 | the vertex loop gives the scaled vertices of the sub-shape's range, or the index error when the range runs past the data |
| CollisionImport.SelectFaces | io_scene_nif/modules/collision/collision_import.py:369-377 | the triangle loop keeps exactly the rebased faces `SubFaces` describes |
| CollisionImport.ImportPackedStrips | io_scene_nif/modules/collision/collision_import.py:348-397 | the loop over the sub-shapes computes `PackedObjects` |
| CollisionImport.PackedAsWrittenFails | io_scene_nif/modules/collision/collision_import.py:390 | as written, every packed strips shape with at least one sub-shape fails on the undefined `b_mesh` |
| CollisionImport.PackedAsWrittenExample | io_scene_nif/modules/collision/collision_import.py:360-395 | a one-triangle sub-shape fails as written, and gives one object with face `[0, 1, 2]` as intended |
| CollisionImport.ImportCount | io_scene_nif/modules/collision/collision_import.py:87-134 | a successful import gives one object per leaf shape of the shape tree |
| CollisionImport.ImportListCount | io_scene_nif/modules/collision/collision_import.py:119-131 | the same for the concatenated imports of a list of shapes |
| CollisionImport.ImportKeepsMaterial | io_scene_nif/modules/collision/collision_import.py:117-118 | only a `bhkNiTriStripsShape` changes the current Havok material: a shape tree without one leaves it as it was |
| CollisionImport.ImportListKeepsMaterial | io_scene_nif/modules/collision/collision_import.py:117-131 | the same for a list of shapes |
| CollisionImport.ImportListStop | io_scene_nif/modules/collision/collision_import.py:119-131 | the first shape of a list whose import fails decides the list's result |
| CollisionImport.ImportListStopped | io_scene_nif/modules/collision/collision_import.py:119-131 | shapes after a failure are never imported |
| CollisionImport.ShapeImport.ImportBhkShape | io_scene_nif/modules/collision/collision_import.py:87-134 | `import_bhk_shape`: the Havok scale is chosen from the user versions, and the objects and the Havok material afterwards are those the shape-by-shape definition `Import` gives (transforms and rigid bodies pass their shape's objects on, boxes, spheres and capsules become box meshes, a capsule with radius r·S and its location's y at half its length times S, strips data needs a Havok material, unknown shapes give nothing) |
| CollisionImport.ShapeImport.ImportReduce | io_scene_nif/modules/collision/collision_import.py:119-131 | `reduce(operator.add, ...)`: no shapes is a TypeError; otherwise the shapes are imported in order and their objects concatenated, stopping at the first failure |
| ExportOperator.Translate | io_scene_nif/operators/nif_export_op.py:51-53 | the translation table maps each character on its own, every symbol of `:,'" +-*!?;./=` to '_' and every other character to itself |
| ExportOperator.ReplaceChars | io_scene_nif/operators/nif_export_op.py:53 | `str.replace` introduces no character that is in neither the text nor the replacement |
| Text.ReplaceShrinks | io_scene_nif/operators/nif_export_op.py:53 | replacing a pattern by one no longer never lengthens the text |
| Text.ReplaceAbsent | io_scene_nif/operators/nif_export_op.py:53 | a pattern whose first character does not occur leaves the text unchanged |
| ExportOperator.GameToEnumNoSymbols | io_scene_nif/operators/nif_export_op.py:50-54 | an enum identifier contains none of the symbols |
| ExportOperator.GameToEnumShorter | io_scene_nif/operators/nif_export_op.py:50-54 | an enum identifier is never longer than the game name |
| ExportOperator.GameToEnumNotIdempotent | io_scene_nif/operators/nif_export_op.py:53 | a single `replace("__", "_")` pass leaves double underscores behind: "___" gives "__", and converting again gives "_" |
| ExportOperator.GameToEnumPlain | io_scene_nif/operators/nif_export_op.py:50-54 | a name of letters and digits only is just upper-cased |
| ExportOperator.ExportSettings.Set | io_scene_nif/operators/nif_export_op.py:73 | storing a setting overwrites that key and keeps the others |
| ExportOperator.NifExportOperator.SetProperty | io_scene_nif/operators/nif_export_op.py:74 | `setattr` on the operator's properties overwrites that property and keeps the others |
| ExportOperator.ResetStep | io_scene_nif/operators/nif_export_op.py:67-74 | one round of the reset loop puts that property and setting at the default and keeps every other key |
| ExportOperator.ResetToDefaults | io_scene_nif/operators/nif_export_op.py:60-76 | afterwards every defined property and its stored setting equal the property's default (or none when it has no default); pairs that already matched are not written, and keys without a definition are untouched |
| ExportOperator.ApplySettings | io_scene_nif/operators/nif_export_op.py:192-210 | every property with a stored setting takes that setting, every other property is unchanged, and the file path becomes the stored "filename" when there is one |
| ExportOperator.Drawn | io_scene_nif/operators/nif_export_op.py:214-237 | the panel draws a sub-list of the names it is asked to draw |
| ExportOperator.DrawnMembers | io_scene_nif/operators/nif_export_op.py:217-223 | a name is drawn iff it is asked for, has a definition, and is not marked HIDDEN |
| ExportOperator.OperatorPanel | io_scene_nif/operators/nif_export_op.py:90-237 | with the operator's own properties, the panel shows every listed property except `stripify` and `stitch_strips` |
| ExportOperator.VersionMap | io_scene_nif/operators/nif_export_op.py:185-188 | building the game-to-version map fails (the `IndexError` of `versions[-1]`) iff some game other than '?' has no versions |
| ExportOperator.VersionMapCovers | io_scene_nif/operators/nif_export_op.py:185-188 | every game other than '?' has its enum identifier in the map |
| ExportOperator.VersionMapEntries | io_scene_nif/operators/nif_export_op.py:185-188 | every entry of the map comes from the last game with that identifier and holds that game's last version |
| ObjectExport.SuffixedDistinct | io_scene_nif/modules/object/object_export.py:475 | two different counters give two different `base.NN` names |
| ObjectExport.SuffixedCount | io_scene_nif/modules/object/object_export.py:474-476 | the first `u` suffixed names are `u` distinct names |
| ObjectExport.SuffixedBound | io_scene_nif/modules/object/object_export.py:474-476 | a finite set of taken names holds at most as many suffixed names as it has elements, so the search loop ends |
| ObjectExport.TakenNames | io_scene_nif/modules/object/object_export.py:471 | the taken names are the used block names together with the values of `dict_names` |
| ObjectExport.Exporter.GetUniqueName | io_scene_nif/modules/object/object_export.py:456-479 | the result was not taken before; it is the (bone-renamed) base name when that is free and otherwise the first `base.NN` that is free; it is appended to the used block names and recorded for the Blender name |
| ObjectExport.FreeName | io_scene_nif/modules/object/object_export.py:471-476 | the search loop: the name found is not taken; it is the base name when that is free, and otherwise a suffixed name `base.NN` all of whose predecessors are taken |
| ObjectExport.Exporter.GetFullName | io_scene_nif/modules/object/object_export.py:481-491 | a Blender name with a recorded NIF name gets it with nothing changed; otherwise a fresh unique name is made and recorded |
| ObjectExport.Exporter.RebuildFullNames | io_scene_nif/modules/object/object_export.py:442-454 | without a `FullNames` text nothing changes; otherwise each non-empty `short;long` line records `long` for `short`, and a line without exactly one ';' fails (the unpacking `ValueError`) |
| ObjectExport.FullNamesRoundTrip | io_scene_nif/modules/object/object_export.py:442-454 | reading back the text that the importer's `store_names` writes restores every renamed block's NIF name under its Blender name (names without ';' or newline) |
| ObjectExport.Exporter.RegisterBlock | io_scene_nif/modules/object/object_export.py:214-226 | the block is associated with the object (a new key goes to the end of the dictionary's order) and returned |
| ObjectExport.Exporter.GetExportedObjects | io_scene_nif/modules/object/object_export.py:202-212 | the non-empty objects of `dict_blocks`, each once, in first-occurrence order |
| ObjectExport.ExportedObjectsOnce | io_scene_nif/modules/object/object_export.py:202-212 | the exported objects have no duplicates and are exactly the non-null values of `dict_blocks` |
| TriShapeExport.QuadOf | io_scene_nif/modules/object/object_export.py:986-1021 | a corner's quad has its position and uvs; a normal iff normals are exported (the vertex normal on a smooth polygon, the polygon normal on a flat one); a colour iff vertex colours are, with alpha 1 when there is no alpha layer |
| TriShapeExport.FirstSame | io_scene_nif/modules/object/object_export.py:1025-1054 | the first quad listed for the vertex that passes the duplicate test; none found means no listed quad passes it |
| TriShapeExport.DistinctPairs | io_scene_nif/modules/object/object_export.py:1025-1064 | no two quads listed for one vertex pass the duplicate test against each other |
| TriShapeExport.FirstSameGrow | io_scene_nif/modules/object/object_export.py:1062-1064 | adding a quad to the list changes no search among the earlier ones |
| TriShapeExport.AddQuadValid | io_scene_nif/modules/object/object_export.py:1058-1064 | a new quad for a vertex, unlike every quad listed for it, keeps the quad table and `vertmap` consistent |
| TriShapeExport.AddQuadLists | io_scene_nif/modules/object/object_export.py:1064-1073 | one more quad appends its position, and its normal, colour and uvs when those are exported |
| TriShapeExport.ListsContent | io_scene_nif/modules/object/object_export.py:1064-1073 | entry `k` of `vertlist`, `uvlist`, `normlist` and `vcollist` is the data of quad `k`; the normal and colour lists are empty when those are not exported |
| TriShapeExport.Fan | io_scene_nif/modules/object/object_export.py:1076-1080 | a polygon of `n` corners gives `n - 2` triangles, each with the first corner and two neighbouring corners |
| TriShapeExport.FanWinding | io_scene_nif/modules/object/object_export.py:1077-1080 | a non-positive scale sum swaps the last two corners of every triangle |
| TriShapeExport.FanQuad | io_scene_nif/modules/object/object_export.py:1076-1080 | a quad becomes two triangles sharing the diagonal from its first corner |
| TriShapeExport.BodyPartOf | io_scene_nif/modules/object/object_export.py:1088-1094 | the index of the first body-part group holding all of the polygon's vertices; none means no group holds them |
| TriShapeExport.FindBodyPart | io_scene_nif/modules/object/object_export.py:1088-1094 | the `for ... else` search computes `BodyPartOf` |
| TriShapeExport.NoTablesValid | io_scene_nif/modules/object/object_export.py:935-944 | the empty lists with one empty `vertmap` entry per Blender vertex are consistent |
| TriShapeExport.WithQuadValid | io_scene_nif/modules/object/object_export.py:1058-1073 | adding a quad unlike every quad listed for its vertex keeps the lists consistent, leaves the triangles alone and keeps every earlier quad |
| TriShapeExport.FindQuad | io_scene_nif/modules/object/object_export.py:1024-1054 | the loop over `vertmap[v]` gives the first listed duplicate, or the table's length when there is none; with fewer uv sets than uv layers (an empty layer name) it fails with `IndexError` exactly when some quad is listed |
| TriShapeExport.AddCorner | io_scene_nif/modules/object/object_export.py:999-1073 | one corner: `IndexError` iff the uv sets are short and the vertex already has quads; else a listed duplicate's index when there is one; otherwise the quad is added at the end, unless the table already holds 65536 quads, which fails with "Too many vertices"; a failure changes nothing |
| TriShapeExport.AddTriangles | io_scene_nif/modules/object/object_export.py:1076-1094 | the fan of the polygon is appended in order, each triangle with the polygon's body part, or the polygon is recorded as missing a body part |
| TriShapeExport.IndexCorners | io_scene_nif/modules/object/object_export.py:982-1073 | every corner gets an index whose quad came from the corner's vertex and equals or duplicates the corner's quad; failures are "Too many vertices" and the `IndexError` of short uv sets |
| TriShapeExport.IndexCorner | io_scene_nif/modules/object/object_export.py:986-1073 | one corner of the loop: its index's quad came from its vertex and equals or duplicates its quad, or the failure is too many vertices or the short-uv `IndexError` |
| TriShapeExport.AddPolygon | io_scene_nif/modules/object/object_export.py:981-1094 | a polygon of three or four corners: its corners are indexed and its fan, wound by the scale's sign, is added with its body part; failures are those of indexing, with the triangles untouched |
| TriShapeExport.ExportPolygon | io_scene_nif/modules/object/object_export.py:945-1094 | a polygon of another material or with fewer than three corners changes nothing; one with more than four fails with "Bad face"; otherwise it adds `corners - 2` triangles, a polygon without a body part is recorded as missing, and indexing may fail with "Too many vertices" or the short-uv `IndexError` |
| TriShapeExport.TriCountStep | io_scene_nif/modules/object/object_export.py:952-954 | the triangle count grows by `corners - 2` exactly for a selected polygon with at least three corners |
| TriShapeExport.ExportPolygons | io_scene_nif/modules/object/object_export.py:935-1117 | on success every selected polygon had at most four corners and a body part, there are exactly as many triangles as the selected polygons give (at most 65535), and each triangle's body part is that of its polygon; failures are too many vertices, the `IndexError` of an empty uv layer name, a bad face of the named size, polygons without a body part (listed), or too many polygons |
| TriShapeExport.ScanPolygons | io_scene_nif/modules/object/object_export.py:945-1094 | the loop over the polygons: the tables stay consistent; on success the triangle count is that of the selected polygons and every selected polygon was checked; a failure is too many vertices, the short-uv `IndexError`, or a bad face of a selected polygon's size |
| TriShapeExport.ScanPolygon | io_scene_nif/modules/object/object_export.py:945-1094 | one turn of that loop: on success the first `i + 1` polygons are scanned, on failure the error is one the loop reports |
| TriShapeExport.AllPartsFound | io_scene_nif/modules/object/object_export.py:1083-1097 | with no polygon missing, `bodypartfacemap` has one entry per triangle, the body part of the triangle's polygon |
| TriShapeExport.MissingKept | io_scene_nif/modules/object/object_export.py:1092-1094 | a polygon recorded as missing stays recorded, and a polygon whose part is missing is recorded |
| Text.Pad2Injective | io_scene_nif/nif_import.py:653-655 | `%02d` gives different counters different digit strings, so numbered names never collide |
| Text.NatToDecInjective | io_scene_nif/modules/animation/animation_import.py:177 | `%i` of a natural number determines the number |
| Text.SliceTo | io_scene_nif/nif_import.py:651-654 | Python's `s[:n]`, also for a negative or too large `n` |
| Text.Split | io_scene_nif/modules/object/object_export.py:453 | `str.split(sep)` gives at least one part and no part holds the separator |
| Text.SplitFirst | io_scene_nif/modules/object/object_export.py:453 | splitting `a + sep + b` with no separator in `a` gives `a` followed by the parts of `b` |
| Text.RStrip | io_scene_nif/modules/animation/animation_import.py:175 | `rstrip(c)`: a prefix of the text that does not end in `c`, and only `c`s were removed |
| Seqs.AddAllNoDup | io_scene_nif/modules/armature/armature_import.py:250-251 | appending each element only when it is missing keeps a duplicate-free list duplicate-free |
| Seqs.AddAllMembers | io_scene_nif/modules/armature/armature_import.py:222-223 | after appending the missing elements, the list holds exactly its old members and the new elements |

## Left out

- Blender scene changes and the code that drives them are not modelled. These are `import_root`, the object-creating part of `import_branch`, `export_node`, the animation part of `import_armature`, `create_action`, keyframe insertion in `add_key` and `set_frames_per_second`. The model keeps only the bookkeeping these functions do: the names, tables and index maps they compute.
- File reading and writing through pyffi (`NifFormat.Data.read/write`, `egm.py`) and the spells are left out. Blocks arrive already parsed, as the `NifBlocks.Block` arena.
- The block graph is acyclic by construction, because children always point to later blocks. A NIF file whose references form a cycle would make pyffi's `tree()` loop, and this model cannot express one.
- Floating-point numbers are modelled as exact `real`s. Rounding error in `interpolate`, in the Havok scale division and in the collision extents is not captured.
- Matrices and transforms are left out. This includes the transform of `bhkTransformShape`, the rigid-body and constraint transforms, mass and deactivator settings, and bone head, tail and roll. The bone head position is the function parameter `head`.
- `qhull3d` and vector length come from outside the add-on and are the function parameters `hull` and `norm`.
- `get_bone_name_for_blender` and `get_bone_name_for_nif` are function parameters. Their own string rewriting is not part of this model.
- Blender's name tables (`bpy.data.objects`, `.meshes`, `.armatures`, ...) are a set of names in use, passed to the naming operations.
- Text case mapping (`lower`, `upper`) covers ASCII letters only.
- CollisionImport.ImportBhkShape: the Havok material is kept as its index; the name looked up through `_enumkeys` is not modelled.
- CollisionImport.ImportPackedStrips: the radius estimate that `import_bhkpackednitristrips_shape` computes from the undefined `b_mesh` is not modelled. The corrected model leaves the radius unset.
- ExportOperator.GameToEnumPlain: the game list offered by the panel is built from a reversed, sorted dictionary. The model states the per-name transform, not the ordering of the offered items.
- ExportOperator.ResetToDefaults: the property definitions come as a parameter. The Python reflection over class attributes that produces them is not modelled. `ExportHelper.invoke` and the panel layout calls are not modelled either.
- The `DIVINITY_2` branch of `export_node` (object_export.py line 772) is not modelled.
- Logging, progress reports and Blender operator return codes are not modelled.
- The shader, material and consistency-flag handling of `import_branch` is not modelled. Neither is the removal of morph controllers from a geometry group.
- Of `import_mesh`, only the vertex and face dedup maps are modelled. UV layers, vertex colours, skin weights and the creation of the Blender mesh are not.
- `smooth_mesh_seams` and `automirror` are not modelled.
- ArmatureImport.BaseName: only a drive letter such as `C:` is split off a Windows path; a UNC share (`\\server\share`), which `ntpath` also treats as a drive, is not modelled.
- NifImport.Importer.SetParents: a reference does not record which field of the NiNode holds it, so a dynamic effect is taken to sit in `effects`; one listed among `children` instead is not linked by the model.
- ArmatureImport.BoneWalk: `import_bone` follows a bone's `children`; the model follows every reference of it that is a bone, which differs only for a bone held in another reference field.
- ArmatureImport.Armature.CompleteBoneTree: on a chain that runs past the top, the source appends the missing (`None`) parent before it fails; the model fails without appending, as the import is abandoned with the list.
- The copy of `uvlist` into the `uv_sets` of the NIF data (object_export.py lines 1172-1177) is not modelled.

## Findings

| source | as written | input that shows it | evidently intended | confidence | as-written member | corrected member |
|---|---|---|---|---|---|---|
| io_scene_nif/nif_import.py:1204 | the block name is the raw `bytes` value, so the test for the substring " nonaccum" compares bytes with `str` and is never true under Python 3 | a node named "Bip01 NonAccum" with a single child geometry "Bip01 Mesh", with shape combining on | a node whose name ends in " NonAccum" is a grouping node, and its geometry children are grouped | not executed | NifImport.NonAccumNotGroupedAsWritten | NifImport.NonAccumGrouped |
| io_scene_nif/modules/collision/collision_import.py:390 | the radius estimate reads `b_mesh`, which is never assigned in that function, so a `NameError` is raised once the first sub-shape has been read | a `bhkPackedNiTriStripsShape` with one sub-shape of 3 vertices and the triangle (0, 1, 2) | each sub-shape becomes one collision object, whose vertices are the sub-shape's slice of the shared vertex list | not executed | CollisionImport.PackedAsWrittenExample | CollisionImport.PackedObjects |
| io_scene_nif/modules/armature/armature_import.py:213-216 | the incompatible-armature message formats `b_armature_obj.name`, a local bound only in the 'geometry only' header of the same call, so in every recursive call the formatting raises `UnboundLocalError` | a 'geometry only' import, with the armature "Armature" selected, of a scene root holding a node "Armature" and a geometry "Body" skinned to another node "Other" | the import fails with the error naming the armature, the geometry and its skeleton root | not executed | ArmatureImport.IncompatibleAsWritten | ArmatureImport.Armature.MarkSkin |
| io_scene_nif/modules/animation/animation_import.py:175 | the key's value is a byte string, so `str()` gives its `b'...'` repr, in which `\r\n` is escaped; the replacement and the strip never act and the repr is written | a text key "start" at time 0 | the line `0/start`, with each `\r\n` of a key made '/' and trailing '/' removed | not executed | AnimationImport.PlainKeyLineAsWritten | AnimationImport.KeyTextClean |
| io_scene_nif/modules/armature/armature_import.py:247 | `populate_bone_tree` skips grouping nodes through the as-written `is_grouping_node`, whose " nonaccum" test never holds, so a NonAccum node that groups a mesh becomes a bone | the scene root "Scene Root" holding the node of the nif_import.py:1204 row, with shape combining on | the node is a grouping node and not a bone | not executed | ArmatureImport.NonAccumBoneAsWritten | ArmatureImport.EligiblesMembers |
