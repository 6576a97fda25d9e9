/** Collision shapes on import: the box mesh every primitive is drawn
    with, the extents of boxes, spheres, capsules and bounding boxes, the
    Havok scale, the split of a packed triangle-strip shape into one mesh
    per sub-shape, and the dispatch over shape types.  Floats are `real`;
    the convex hull and the length of a vector are functions given by the
    caller. */
module CollisionImport {
  import opened Wrappers
  import opened Text

  datatype Point = Point(x: real, y: real, z: real)

  /** The six bounds `box_from_extents` takes. */
  datatype Extents = Extents(minx: real, maxx: real, miny: real, maxy: real, minz: real, maxz: real)

  /** `lo` for bit 0, `hi` for bit 1. */
  function Pick(bit: nat, lo: real, hi: real): real
  {
    if bit == 0 then lo else hi
  }

  /** Bit `axis` (0 for x, 1 for y, 2 for z) of corner index `v`. */
  function CornerBit(v: nat, axis: nat): nat
    requires axis < 3
  {
    if axis == 0 then v / 4 else if axis == 1 then (v / 2) % 2 else v % 2
  }

  /** Corner `k` of the box: its x, y and z bits pick the minimum or the
      maximum on that axis. */
  function Corner(e: Extents, k: nat): Point
  {
    Point(Pick(CornerBit(k, 0), e.minx, e.maxx), Pick(CornerBit(k, 1), e.miny, e.maxy), Pick(CornerBit(k, 2), e.minz, e.maxz))
  }

  /** The faces `box_from_extents` gives every box. */
  const BOX_FACES: seq<seq<nat>> := [[0, 1, 3, 2], [6, 7, 5, 4], [0, 2, 6, 4], [3, 1, 5, 7], [4, 5, 1, 0], [7, 6, 2, 3]]

  /** `box_from_extents`: the nested loops over x, y and z make corner
      `4*ix + 2*iy + iz` from the minimum (bit 0) or maximum (bit 1) of
      each axis. */
  method BoxFromExtents(e: Extents) returns (verts: seq<Point>, faces: seq<seq<nat>>)
    ensures |verts| == 8
    ensures forall ix, iy, iz :: 0 <= ix < 2 && 0 <= iy < 2 && 0 <= iz < 2 ==>
              verts[4 * ix + 2 * iy + iz] == Point(Pick(ix, e.minx, e.maxx), Pick(iy, e.miny, e.maxy), Pick(iz, e.minz, e.maxz))
    ensures verts == BoxVerts(e)
    ensures faces == BOX_FACES
  {
    var xs := [e.minx, e.maxx];
    var ys := [e.miny, e.maxy];
    var zs := [e.minz, e.maxz];
    verts := [];
    for ix := 0 to 2
      invariant |verts| == 4 * ix
      invariant forall k :: 0 <= k < |verts| ==> verts[k] == Corner(e, k)
    {
      for iy := 0 to 2
        invariant |verts| == 4 * ix + 2 * iy
        invariant forall k :: 0 <= k < |verts| ==> verts[k] == Corner(e, k)
      {
        for iz := 0 to 2
          invariant |verts| == 4 * ix + 2 * iy + iz
          invariant forall k :: 0 <= k < |verts| ==> verts[k] == Corner(e, k)
        {
          CornerIndex(e, ix, iy, iz);
          verts := verts + [Point(xs[ix], ys[iy], zs[iz])];
        }
      }
    }
    forall ix, iy, iz | 0 <= ix < 2 && 0 <= iy < 2 && 0 <= iz < 2
      ensures verts[4 * ix + 2 * iy + iz] == Point(Pick(ix, e.minx, e.maxx), Pick(iy, e.miny, e.maxy), Pick(iz, e.minz, e.maxz))
    {
      CornerIndex(e, ix, iy, iz);
    }
    assert verts == BoxVerts(e);
    faces := BOX_FACES;
  }

  /** Index `4*ix + 2*iy + iz` decodes back to its three bits. */
  lemma CornerIndex(e: Extents, ix: nat, iy: nat, iz: nat)
    requires ix < 2 && iy < 2 && iz < 2
    ensures var k := 4 * ix + 2 * iy + iz;
            && CornerBit(k, 0) == ix && CornerBit(k, 1) == iy && CornerBit(k, 2) == iz
            && Corner(e, k) == Point(Pick(ix, e.minx, e.maxx), Pick(iy, e.miny, e.maxy), Pick(iz, e.minz, e.maxz))
  {
    var k := 4 * ix + 2 * iy + iz;
    assert k / 4 == ix;
    assert k / 2 == 2 * ix + iy;
  }

  /** A side of the box: an axis and whether it is the maximum. */
  datatype Side = Side(axis: nat, high: bool)

  const FACE_SIDES: seq<Side> := [Side(0, false), Side(0, true), Side(2, false), Side(2, true), Side(1, false), Side(1, true)]

  /** Every face has four distinct corners of the box, all on one side of
      it, and the six faces are on six different sides. */
  lemma BoxFacesLayout()
    ensures |BOX_FACES| == 6 == |FACE_SIDES|
    ensures forall i :: 0 <= i < 6 ==> |BOX_FACES[i]| == 4 && FACE_SIDES[i].axis < 3
    ensures forall i, a :: 0 <= i < 6 && 0 <= a < 4 ==>
              BOX_FACES[i][a] < 8 && CornerBit(BOX_FACES[i][a], FACE_SIDES[i].axis) == if FACE_SIDES[i].high then 1 else 0
    ensures forall i, a, b :: 0 <= i < 6 && 0 <= a < b < 4 ==> BOX_FACES[i][a] != BOX_FACES[i][b]
    ensures forall i, j :: 0 <= i < j < 6 ==> FACE_SIDES[i] != FACE_SIDES[j]
  {
    forall i, a | 0 <= i < 6 && 0 <= a < 4
      ensures BOX_FACES[i][a] < 8 && CornerBit(BOX_FACES[i][a], FACE_SIDES[i].axis) == if FACE_SIDES[i].high then 1 else 0
    {
      assert BOX_FACES[i] == [[0, 1, 3, 2], [6, 7, 5, 4], [0, 2, 6, 4], [3, 1, 5, 7], [4, 5, 1, 0], [7, 6, 2, 3]][i];
    }
  }

  /** `HAVOK_SCALE` once `import_bhk_shape` has looked at the file's user
      versions: the importer's scale, ten times it for user version 12
      with user version 2 of 83, and the value it had before when the
      user version is not 12. */
  function ScaleFor(parentScale: real, userVersion: int, userVersion2: int, current: real): (s: real)
    ensures userVersion != 12 ==> s == current
    ensures userVersion == 12 && userVersion2 == 83 ==> s == parentScale * 10.0
    ensures userVersion == 12 && userVersion2 != 83 ==> s == parentScale
  {
    if userVersion == 12 then
      if userVersion2 == 83 then parentScale * 10.0 else parentScale
    else current
  }

  /** Choosing the scale again changes nothing. */
  lemma ScaleForSettles(parentScale: real, userVersion: int, userVersion2: int, current: real)
    ensures var s := ScaleFor(parentScale, userVersion, userVersion2, current);
            ScaleFor(parentScale, userVersion, userVersion2, s) == s
  {
  }

  /** Extents of a `bhkBoxShape`: plus and minus its half dimensions, scaled. */
  function BoxExtents(dimensions: Point, scale: real): (e: Extents)
    ensures e.minx + e.maxx == 0.0 && e.miny + e.maxy == 0.0 && e.minz + e.maxz == 0.0
    ensures e.maxx - e.minx == 2.0 * dimensions.x * scale
    ensures e.maxy - e.miny == 2.0 * dimensions.y * scale
    ensures e.maxz - e.minz == 2.0 * dimensions.z * scale
  {
    Extents(-dimensions.x * scale, dimensions.x * scale,
            -dimensions.y * scale, dimensions.y * scale,
            -dimensions.z * scale, dimensions.z * scale)
  }

  /** Extents of a `bhkSphereShape`: a cube of side twice the scaled radius. */
  function SphereExtents(radius: real, scale: real): (e: Extents)
    ensures e.minx == e.miny == e.minz == -e.maxx
    ensures e.maxx == e.maxy == e.maxz == radius * scale
  {
    var b := radius * scale;
    Extents(-b, b, -b, b, -b, b)
  }

  /** Extents of a `bhkCapsuleShape` of the given radius whose end points
      are `length` apart: the scaled radius across, and the segment plus
      both caps along z. */
  function CapsuleExtents(radius: real, length: real, scale: real): (e: Extents)
    ensures e.minx == e.miny == -radius * scale && e.maxx == e.maxy == radius * scale
    ensures e.minz + e.maxz == 0.0 && e.maxz - e.minz == (length + 2.0 * radius) * scale
  {
    Extents(-radius * scale, radius * scale, -radius * scale, radius * scale,
            -(length + 2.0 * radius) * (scale / 2.0), (length + 2.0 * radius) * (scale / 2.0))
  }

  /** A block `import_bounding_box` is handed. */
  datatype BoundBlock =
    | BSBound(center: Point, dimensions: Point)
    | BoundNode(hasBoundingBox: bool, boxTranslation: Point, translation: Point, boxRadius: Point)
    | OtherBlock

  datatype BoundError = ValueError | TypeError

  /** The object `import_bounding_box` makes: its name, its box, its
      location and its radius estimate. */
  datatype BoundBox = BoundBox(name: string, extents: Extents, location: Point, radius: real)

  function Max3(a: real, b: real, c: real): (m: real)
    ensures m >= a && m >= b && m >= c && (m == a || m == b || m == c)
  {
    if a >= b && a >= c then a else if b >= c then b else c
  }

  /** `import_bounding_box`: a `BSBound` spans its center plus and minus
      its dimensions; a node's bounding box spans its radius around its
      translation relative to the node's; anything else is refused. */
  function ImportBoundingBox(b: BoundBlock): (r: Result<BoundBox, BoundError>)
    ensures b.OtherBlock? <==> r == Failure(TypeError)
    ensures b.BoundNode? && !b.hasBoundingBox <==> r == Failure(ValueError)
    ensures r.Success? ==> r.value.radius == Max3(r.value.extents.maxx, r.value.extents.maxy, r.value.extents.maxz)
    ensures b.BSBound? ==>
              && r.Success? && r.value.name == "BSBound" && r.value.location == b.center
              && var e := r.value.extents;
              && e.minx + e.maxx == 2.0 * b.center.x && e.maxx - e.minx == 2.0 * b.dimensions.x
              && e.miny + e.maxy == 2.0 * b.center.y && e.maxy - e.miny == 2.0 * b.dimensions.y
              && e.minz + e.maxz == 2.0 * b.center.z && e.maxz - e.minz == 2.0 * b.dimensions.z
    ensures b.BoundNode? && b.hasBoundingBox ==>
              && r.Success? && r.value.name == "Bounding Box" && r.value.location == b.boxTranslation
              && var e := r.value.extents;
              && e.minx + e.maxx == 2.0 * (b.boxTranslation.x - b.translation.x) && e.maxx - e.minx == 2.0 * b.boxRadius.x
              && e.miny + e.maxy == 2.0 * (b.boxTranslation.y - b.translation.y) && e.maxy - e.miny == 2.0 * b.boxRadius.y
              && e.minz + e.maxz == 2.0 * (b.boxTranslation.z - b.translation.z) && e.maxz - e.minz == 2.0 * b.boxRadius.z
  {
    match b
    case BSBound(c, d) =>
      var e := Extents(c.x - d.x, c.x + d.x, c.y - d.y, c.y + d.y, c.z - d.z, c.z + d.z);
      Success(BoundBox("BSBound", e, c, Max3(e.maxx, e.maxy, e.maxz)))
    case BoundNode(has, bt, t, br) =>
      if !has then Failure(ValueError)
      else
        var e := Extents(bt.x - t.x - br.x, bt.x - t.x + br.x, bt.y - t.y - br.y, bt.y - t.y + br.y,
                         bt.z - t.z - br.z, bt.z - t.z + br.z);
        Success(BoundBox("Bounding Box", e, bt, Max3(e.maxx, e.maxy, e.maxz)))
    case OtherBlock => Failure(TypeError)
  }

  /** A sub-shape of a packed shape: how many of the shared vertices it
      owns, and its Havok material. */
  datatype SubShape = SubShape(numVertices: nat, material: nat)

  /** A triangle of the packed data (`hktriangle.triangle`). */
  datatype Triangle = Triangle(v1: nat, v2: nat, v3: nat)

  /** The shared data of a packed shape. */
  datatype PackedData = PackedData(subShapes: seq<SubShape>, vertices: seq<Point>, triangles: seq<Triangle>)

  /** The collision shape blocks `import_bhk_shape` tells apart; each
      keeps the fields the import reads.  `NiTriStripsData` carries the
      triangles its strips stand for. */
  datatype Shape =
    | TransformShape(shape: Shape)
    | RigidBody(shape: Shape)
    | BoxShape(dimensions: Point, radius: real, material: nat)
    | SphereShape(radius: real, material: nat)
    | CapsuleShape(radius: real, firstPoint: Point, secondPoint: Point, material: nat)
    | ConvexVerticesShape(vertices: seq<Point>, radius: real, material: nat)
    | PackedNiTriStripsShape(subShapes: seq<SubShape>, data: PackedData)
    | NiTriStripsShape(material: nat, stripsData: seq<Shape>)
    | NiTriStripsData(vertices: seq<Point>, triangles: seq<seq<int>>, radius: real)
    | MoppBvTreeShape(shape: Shape)
    | ListShape(shapes: seq<Shape>)
    | Unsupported

  /** The collision bounds type a Blender object is given. */
  datatype Bounds = BoxBounds | SphereBounds | CapsuleBounds | ConvexHullBounds | TriangleMeshBounds

  /** A collision object as made: name, mesh, bounds type, radius (when
      set), Havok material and the y of its location. */
  datatype ColObj = ColObj(name: string, verts: seq<Point>, faces: seq<seq<int>>, bounds: Bounds,
                           radius: Option<real>, material: nat, locationY: real)

  datatype CollisionError =
    | EmptyReduce            // `reduce` over no sub-shapes
    | NoHavokMaterial        // strips data before any strips shape set `havok_mat`
    | VertexIndexOutOfRange  // a sub-shape reaching past the packed vertices
    | UndefinedName          // the radius estimate of a packed sub-shape

  function Scaled(p: Point, scale: real): Point
  {
    Point(p.x * scale, p.y * scale, p.z * scale)
  }

  function ScaledAll(vs: seq<Point>, scale: real): seq<Point>
  {
    seq(|vs|, i requires 0 <= i < |vs| => Scaled(vs[i], scale))
  }

  /** The distance between the end points of a capsule. */
  function CapsuleLength(p1: Point, p2: Point, norm: Point -> real): real
  {
    norm(Minus(p1, p2))
  }

  function Minus(a: Point, b: Point): Point
  {
    Point(a.x - b.x, a.y - b.y, a.z - b.z)
  }

  /** The sub-shapes a packed shape is split by: its own, or those of its
      data when it has none. */
  function PackedSubShapes(subShapes: seq<SubShape>, data: PackedData): seq<SubShape>
  {
    if subShapes == [] then data.subShapes else subShapes
  }

  /** `vertex_offset` before sub-shape `k`: the vertices of the ones before it. */
  function Offset(subs: seq<SubShape>, k: nat): nat
    requires k <= |subs|
  {
    if k == 0 then 0 else Offset(subs, k - 1) + subs[k - 1].numVertices
  }

  lemma {:induction false} OffsetMonotone(subs: seq<SubShape>, j: nat, k: nat)
    requires j <= k <= |subs|
    ensures Offset(subs, j) <= Offset(subs, k)
    decreases k - j
  {
    if j < k {
      OffsetMonotone(subs, j, k - 1);
    }
  }

  /** Every vertex index below the total lies in some sub-shape. */
  lemma OffsetCovers(subs: seq<SubShape>, v: nat)
    requires v < Offset(subs, |subs|)
    ensures exists k :: 0 <= k < |subs| && Offset(subs, k) <= v < Offset(subs, k + 1)
  {
    OffsetFind(subs, v, |subs|);
  }

  /** No vertex index lies in two sub-shapes. */
  lemma OffsetDisjoint(subs: seq<SubShape>, v: nat, j: nat, k: nat)
    requires j < |subs| && k < |subs|
    requires Offset(subs, j) <= v < Offset(subs, j + 1) && Offset(subs, k) <= v < Offset(subs, k + 1)
    ensures j == k
  {
    if j < k {
      OffsetMonotone(subs, j + 1, k);
    } else if k < j {
      OffsetMonotone(subs, k + 1, j);
    }
  }

  lemma {:induction false} OffsetFind(subs: seq<SubShape>, v: nat, n: nat)
    requires n <= |subs| && v < Offset(subs, n)
    ensures exists k :: 0 <= k < n && Offset(subs, k) <= v < Offset(subs, k + 1)
    decreases n
  {
    if v < Offset(subs, n - 1) {
      OffsetFind(subs, v, n - 1);
    }
  }

  /** The vertices of a sub-shape: its share of the packed vertices, scaled. */
  function SubVerts(vertices: seq<Point>, off: nat, n: nat, scale: real): (vs: seq<Point>)
    requires off + n <= |vertices|
    ensures |vs| == n
  {
    seq(n, i requires 0 <= i < n => Scaled(vertices[off + i], scale))
  }

  /** Whether a sub-shape starting at vertex `off` with `n` vertices
      takes triangle `t`: it owns the triangle's first vertex. */
  predicate Kept(t: Triangle, off: nat, n: nat)
  {
    off <= t.v1 < off + n
  }

  /** Triangle `t` in the numbering of a sub-shape starting at `off`. */
  function Rebased(t: Triangle, off: nat): seq<int>
  {
    [t.v1 - off, t.v2 - off, t.v3 - off]
  }

  /** The faces of a sub-shape: the triangles it takes, in order, in its
      own vertex numbering. */
  function SubFaces(tris: seq<Triangle>, off: nat, n: nat): (fs: seq<seq<int>>)
    ensures |fs| <= |tris|
    decreases |tris|
  {
    if tris == [] then []
    else
      var t := tris[|tris| - 1];
      SubFaces(tris[..|tris| - 1], off, n) + (if Kept(t, off, n) then [Rebased(t, off)] else [])
  }

  /** A face is in a sub-shape iff it is a triangle the sub-shape takes,
      rebased. */
  lemma {:induction false} SubFacesMembers(tris: seq<Triangle>, off: nat, n: nat, f: seq<int>)
    ensures f in SubFaces(tris, off, n) <==> exists t :: t in tris && Kept(t, off, n) && f == Rebased(t, off)
    decreases |tris|
  {
    if tris != [] {
      var init := tris[..|tris| - 1];
      var t := tris[|tris| - 1];
      SubFacesMembers(init, off, n, f);
      assert tris == init + [t];
      if exists u :: u in tris && Kept(u, off, n) && f == Rebased(u, off) {
        var u :| u in tris && Kept(u, off, n) && f == Rebased(u, off);
        if u != t {
          assert u in init;
        }
      }
    }
  }

  /** The mesh of sub-shape `k`, named `poly<k>`; its radius is not set. */
  function PackedObject(subs: seq<SubShape>, data: PackedData, scale: real, k: nat): ColObj
    requires k < |subs| && Offset(subs, k + 1) <= |data.vertices|
  {
    var off := Offset(subs, k);
    ColObj("poly" + NatToDec(k), SubVerts(data.vertices, off, subs[k].numVertices, scale),
           SubFaces(data.triangles, off, subs[k].numVertices), TriangleMeshBounds, None, subs[k].material, 0.0)
  }

  /** The meshes of the first `k` sub-shapes. */
  function PackedList(subs: seq<SubShape>, data: PackedData, scale: real, k: nat): (objs: seq<ColObj>)
    requires k <= |subs| && Offset(subs, k) <= |data.vertices|
    ensures |objs| == k
  {
    if k == 0 then [] else PackedList(subs, data, scale, k - 1) + [PackedObject(subs, data, scale, k - 1)]
  }

  /** The `j`th mesh of the list is that of sub-shape `j`. */
  lemma {:induction false} PackedListAt(subs: seq<SubShape>, data: PackedData, scale: real, k: nat, j: nat)
    requires k <= |subs| && Offset(subs, k) <= |data.vertices| && j < k
    ensures Offset(subs, j + 1) <= |data.vertices|
    ensures PackedList(subs, data, scale, k)[j] == PackedObject(subs, data, scale, j)
    decreases k
  {
    if j < k - 1 {
      PackedListAt(subs, data, scale, k - 1, j);
    }
  }

  /** What the packed-strips import gives: one mesh per sub-shape, or an
      index error when the sub-shapes claim more vertices than there are. */
  function PackedObjects(subShapes: seq<SubShape>, data: PackedData, scale: real): (r: Result<seq<ColObj>, CollisionError>)
    ensures var subs := PackedSubShapes(subShapes, data);
            && (r.Failure? <==> Offset(subs, |subs|) > |data.vertices|)
            && (r.Failure? ==> r.error == VertexIndexOutOfRange)
            && (r.Success? ==> |r.value| == |subs|)
  {
    var subs := PackedSubShapes(subShapes, data);
    if Offset(subs, |subs|) > |data.vertices| then Failure(VertexIndexOutOfRange)
    else Success(PackedList(subs, data, scale, |subs|))
  }

  /** The vertex loop of one sub-shape. */
  method CopyVertices(vertices: seq<Point>, off: nat, n: nat, scale: real) returns (r: Result<seq<Point>, CollisionError>)
    requires off <= |vertices|
    ensures off + n <= |vertices| ==> r == Success(SubVerts(vertices, off, n, scale))
    ensures off + n > |vertices| ==> r == Failure(VertexIndexOutOfRange)
  {
    var verts: seq<Point> := [];
    for i := off to off + n
      invariant |verts| == i - off && i <= |vertices|
      invariant forall j :: 0 <= j < |verts| ==> verts[j] == Scaled(vertices[off + j], scale)
    {
      if i >= |vertices| {
        return Failure(VertexIndexOutOfRange);
      }
      var v := vertices[i];
      verts := verts + [Point(v.x * scale, v.y * scale, v.z * scale)];
    }
    assert verts == SubVerts(vertices, off, n, scale);
    return Success(verts);
  }

  /** The triangle loop of one sub-shape. */
  method SelectFaces(tris: seq<Triangle>, off: nat, n: nat) returns (faces: seq<seq<int>>)
    ensures faces == SubFaces(tris, off, n)
  {
    faces := [];
    for i := 0 to |tris|
      invariant faces == SubFaces(tris[..i], off, n)
    {
      var t := tris[i];
      var pre := tris[..i + 1];
      assert pre[..|pre| - 1] == tris[..i] && pre[|pre| - 1] == t;
      if off <= t.v1 && t.v1 < off + n {
        faces := faces + [[t.v1 - off, t.v2 - off, t.v3 - off]];
      }
    }
    assert tris[..|tris|] == tris;
  }

  /** `import_bhkpackednitristrips_shape` with the sub-shape radius
      estimate left out: the loop over the sub-shapes with the running
      `vertex_offset`. */
  method ImportPackedStrips(subShapes: seq<SubShape>, data: PackedData, scale: real) returns (r: Result<seq<ColObj>, CollisionError>)
    ensures r == PackedObjects(subShapes, data, scale)
  {
    var subs := subShapes;
    if subs == [] {
      subs := data.subShapes;
    }
    var objects: seq<ColObj> := [];
    var offset := 0;
    for k := 0 to |subs|
      invariant offset == Offset(subs, k) <= |data.vertices|
      invariant objects == PackedList(subs, data, scale, k)
    {
      var verts := CopyVertices(data.vertices, offset, subs[k].numVertices, scale);
      if verts.Failure? {
        OffsetMonotone(subs, k + 1, |subs|);
        return Failure(verts.error);
      }
      var faces := SelectFaces(data.triangles, offset, subs[k].numVertices);
      var obj := ColObj("poly" + NatToDec(k), verts.value, faces, TriangleMeshBounds, None, subs[k].material, 0.0);
      offset := offset + subs[k].numVertices;
      objects := objects + [obj];
    }
    return Success(objects);
  }

  /** The loop as written: the radius estimate of the first sub-shape
      reads a name that is not defined, after its vertices are copied. */
  function PackedObjectsAsWritten(subShapes: seq<SubShape>, data: PackedData, scale: real): Result<seq<ColObj>, CollisionError>
  {
    var subs := PackedSubShapes(subShapes, data);
    if subs == [] then Success([])
    else if subs[0].numVertices > |data.vertices| then Failure(VertexIndexOutOfRange)
    else Failure(UndefinedName)
  }

  /** As written, no packed shape with a sub-shape imports. */
  lemma PackedAsWrittenFails(subShapes: seq<SubShape>, data: PackedData, scale: real)
    requires PackedSubShapes(subShapes, data) != []
    ensures PackedObjectsAsWritten(subShapes, data, scale).Failure?
  {
  }

  /** One sub-shape owning a triangle: as written the import stops at the
      radius estimate, while the split gives one mesh holding the
      triangle. */
  lemma PackedAsWrittenExample()
    ensures var p := Point(0.0, 0.0, 0.0);
            var data := PackedData([], [p, p, p], [Triangle(0, 1, 2)]);
            && PackedObjectsAsWritten([SubShape(3, 0)], data, 1.0) == Failure(UndefinedName)
            && PackedObjects([SubShape(3, 0)], data, 1.0).Success?
            && |PackedObjects([SubShape(3, 0)], data, 1.0).value| == 1
            && PackedObjects([SubShape(3, 0)], data, 1.0).value[0].faces == [[0, 1, 2]]
  {
    var p := Point(0.0, 0.0, 0.0);
    var data := PackedData([], [p, p, p], [Triangle(0, 1, 2)]);
    var subs := [SubShape(3, 0)];
    assert Offset(subs, 1) == 3;
    assert data.triangles[..0] == [];
    assert SubFaces(data.triangles, 0, 3) == [[0, 1, 2]];
  }

  /** What `import_bhk_shape` gives for a shape at Havok scale `scale`,
      with `mat` the `havok_mat` set by the last strips shape: the
      objects, or the error, and `havok_mat` afterwards.  `norm` is a
      vector's length, `hull` the convex hull of a point cloud. */
  function Import(s: Shape, scale: real, mat: Option<nat>, norm: Point -> real,
                  hull: seq<Point> -> (seq<Point>, seq<seq<int>>)): (Result<seq<ColObj>, CollisionError>, Option<nat>)
    decreases s
  {
    match s
    case TransformShape(inner) => Import(inner, scale, mat, norm, hull)
    case RigidBody(inner) => Import(inner, scale, mat, norm, hull)
    case BoxShape(d, radius, m) =>
      (Success([ColObj("box", BoxVerts(BoxExtents(d, scale)), BOX_FACES, BoxBounds, Some(radius), m, 0.0)]), mat)
    case SphereShape(radius, m) =>
      (Success([ColObj("sphere", BoxVerts(SphereExtents(radius, scale)), BOX_FACES, SphereBounds, Some(radius), m, 0.0)]), mat)
    case CapsuleShape(radius, p1, p2, m) =>
      (Success([CapsuleObject(radius, CapsuleLength(p1, p2, norm), m, scale)]), mat)
    case ConvexVerticesShape(vs, radius, m) =>
      var h := hull(ScaledAll(vs, scale));
      (Success([ColObj("convexpoly", h.0, h.1, ConvexHullBounds, Some(radius), m, 0.0)]), mat)
    case PackedNiTriStripsShape(subShapes, data) => (PackedObjects(subShapes, data, scale), mat)
    case NiTriStripsShape(m, strips) =>
      if strips == [] then (Failure(EmptyReduce), Some(m)) else ImportList(strips, scale, Some(m), norm, hull)
    case NiTriStripsData(vs, tris, radius) =>
      if mat.None? then (Failure(NoHavokMaterial), mat)
      else (Success([ColObj("poly", vs, tris, TriangleMeshBounds, Some(radius), mat.value, 0.0)]), mat)
    case MoppBvTreeShape(inner) => Import(inner, scale, mat, norm, hull)
    case ListShape(subs) =>
      if subs == [] then (Failure(EmptyReduce), mat) else ImportList(subs, scale, mat, norm, hull)
    case Unsupported => (Success([]), mat)
  }

  /** The shapes imported in order and their objects concatenated, up to
      the first error. */
  function ImportList(xs: seq<Shape>, scale: real, mat: Option<nat>, norm: Point -> real,
                      hull: seq<Point> -> (seq<Point>, seq<seq<int>>)): (Result<seq<ColObj>, CollisionError>, Option<nat>)
    decreases xs
  {
    if xs == [] then (Success([]), mat)
    else
      var (r1, m1) := ImportList(xs[..|xs| - 1], scale, mat, norm, hull);
      if r1.Failure? then (r1, m1)
      else
        var (r2, m2) := Import(xs[|xs| - 1], scale, m1, norm, hull);
        if r2.Failure? then (r2, m2) else (Success(r1.value + r2.value), m2)
  }

  /** The capsule object: its box, its scaled radius, and a location
      half its length along y. */
  function CapsuleObject(radius: real, length: real, m: nat, scale: real): ColObj
  {
    ColObj("capsule", BoxVerts(CapsuleExtents(radius, length, scale)), BOX_FACES, CapsuleBounds,
           Some(radius * scale), m, length / 2.0 * scale)
  }

  /** The eight corners of a box. */
  function BoxVerts(e: Extents): (vs: seq<Point>)
    ensures |vs| == 8 && forall k :: 0 <= k < 8 ==> vs[k] == Corner(e, k)
  {
    seq(8, k requires 0 <= k < 8 => Corner(e, k))
  }

  /** The number of objects a shape gives when it imports: one per
      primitive, one per packed sub-shape, none for unsupported types. */
  function Leaves(s: Shape): nat
    decreases s
  {
    match s
    case TransformShape(inner) => Leaves(inner)
    case RigidBody(inner) => Leaves(inner)
    case PackedNiTriStripsShape(subShapes, data) => |PackedSubShapes(subShapes, data)|
    case NiTriStripsShape(_, strips) => LeavesList(strips)
    case MoppBvTreeShape(inner) => Leaves(inner)
    case ListShape(subs) => LeavesList(subs)
    case Unsupported => 0
    case _ => 1
  }

  function LeavesList(xs: seq<Shape>): nat
    decreases xs
  {
    if xs == [] then 0 else LeavesList(xs[..|xs| - 1]) + Leaves(xs[|xs| - 1])
  }

  /** An import that succeeds gives one object per leaf of the shape. */
  lemma {:induction false} ImportCount(s: Shape, scale: real, mat: Option<nat>, norm: Point -> real,
                                       hull: seq<Point> -> (seq<Point>, seq<seq<int>>))
    ensures Import(s, scale, mat, norm, hull).0.Success? ==> |Import(s, scale, mat, norm, hull).0.value| == Leaves(s)
    decreases s
  {
    match s
    case TransformShape(inner) => ImportCount(inner, scale, mat, norm, hull);
    case RigidBody(inner) => ImportCount(inner, scale, mat, norm, hull);
    case MoppBvTreeShape(inner) => ImportCount(inner, scale, mat, norm, hull);
    case NiTriStripsShape(m, strips) => ImportListCount(strips, scale, Some(m), norm, hull);
    case ListShape(subs) => ImportListCount(subs, scale, mat, norm, hull);
    case _ =>
  }

  lemma {:induction false} ImportListCount(xs: seq<Shape>, scale: real, mat: Option<nat>, norm: Point -> real,
                                           hull: seq<Point> -> (seq<Point>, seq<seq<int>>))
    ensures ImportList(xs, scale, mat, norm, hull).0.Success? ==> |ImportList(xs, scale, mat, norm, hull).0.value| == LeavesList(xs)
    decreases xs
  {
    if xs != [] {
      var (r1, m1) := ImportList(xs[..|xs| - 1], scale, mat, norm, hull);
      ImportListCount(xs[..|xs| - 1], scale, mat, norm, hull);
      ImportCount(xs[|xs| - 1], scale, m1, norm, hull);
    }
  }

  /** `havok_mat` changes only at strips shapes. */
  predicate NoStripsShape(s: Shape)
    decreases s
  {
    match s
    case TransformShape(inner) => NoStripsShape(inner)
    case RigidBody(inner) => NoStripsShape(inner)
    case NiTriStripsShape(_, _) => false
    case MoppBvTreeShape(inner) => NoStripsShape(inner)
    case ListShape(subs) => forall k :: 0 <= k < |subs| ==> NoStripsShape(subs[k])
    case _ => true
  }

  lemma {:induction false} ImportKeepsMaterial(s: Shape, scale: real, mat: Option<nat>, norm: Point -> real,
                                               hull: seq<Point> -> (seq<Point>, seq<seq<int>>))
    requires NoStripsShape(s)
    ensures Import(s, scale, mat, norm, hull).1 == mat
    decreases s
  {
    match s
    case TransformShape(inner) => ImportKeepsMaterial(inner, scale, mat, norm, hull);
    case RigidBody(inner) => ImportKeepsMaterial(inner, scale, mat, norm, hull);
    case MoppBvTreeShape(inner) => ImportKeepsMaterial(inner, scale, mat, norm, hull);
    case ListShape(subs) => ImportListKeepsMaterial(subs, scale, mat, norm, hull);
    case _ =>
  }

  lemma {:induction false} ImportListKeepsMaterial(xs: seq<Shape>, scale: real, mat: Option<nat>, norm: Point -> real,
                                                   hull: seq<Point> -> (seq<Point>, seq<seq<int>>))
    requires forall k :: 0 <= k < |xs| ==> NoStripsShape(xs[k])
    ensures ImportList(xs, scale, mat, norm, hull).1 == mat
    decreases xs
  {
    if xs != [] {
      ImportListKeepsMaterial(xs[..|xs| - 1], scale, mat, norm, hull);
      ImportKeepsMaterial(xs[|xs| - 1], scale, mat, norm, hull);
    }
  }

  /** The collision importer: the Havok scale it works at and the Havok
      material the last strips shape set. */
  class ShapeImport {
    const parentScale: real
    const userVersion: int
    const userVersion2: int
    var havokScale: real
    var havokMat: Option<nat>

    constructor(parentScale: real, userVersion: int, userVersion2: int)
      ensures this.parentScale == parentScale && this.userVersion == userVersion && this.userVersion2 == userVersion2
      ensures havokScale == parentScale && havokMat == None
    {
      this.parentScale := parentScale;
      this.userVersion := userVersion;
      this.userVersion2 := userVersion2;
      havokScale := parentScale;
      havokMat := None;
    }

    /** `import_bhk_shape` */
    method ImportBhkShape(s: Shape, norm: Point -> real, hull: seq<Point> -> (seq<Point>, seq<seq<int>>))
        returns (r: Result<seq<ColObj>, CollisionError>)
      modifies this
      ensures havokScale == ScaleFor(parentScale, userVersion, userVersion2, old(havokScale))
      ensures (r, havokMat) == Import(s, havokScale, old(havokMat), norm, hull)
      decreases s, 1
    {
      havokScale := ScaleFor(parentScale, userVersion, userVersion2, havokScale);
      match s {
        case TransformShape(inner) =>
          r := ImportBhkShape(inner, norm, hull);
        case RigidBody(inner) =>
          r := ImportBhkShape(inner, norm, hull);
        case BoxShape(d, radius, m) =>
          var verts, faces := BoxFromExtents(BoxExtents(d, havokScale));
          r := Success([ColObj("box", verts, faces, BoxBounds, Some(radius), m, 0.0)]);
        case SphereShape(radius, m) =>
          var verts, faces := BoxFromExtents(SphereExtents(radius, havokScale));
          r := Success([ColObj("sphere", verts, faces, SphereBounds, Some(radius), m, 0.0)]);
        case CapsuleShape(radius, p1, p2, m) =>
          var length := CapsuleLength(p1, p2, norm);
          var verts, faces := BoxFromExtents(CapsuleExtents(radius, length, havokScale));
          r := Success([ColObj("capsule", verts, faces, CapsuleBounds, Some(radius * havokScale), m, length / 2.0 * havokScale)]);
          ghost var c := CapsuleObject(radius, length, m, havokScale);
          assert c.verts == verts && c.faces == faces;
          assert c.radius.Some? && c.radius.value == radius * havokScale;
          assert c.locationY == length / 2.0 * havokScale;
          assert r.value[0] == c;
        case ConvexVerticesShape(vs, radius, m) =>
          var h := hull(ScaledAll(vs, havokScale));
          r := Success([ColObj("convexpoly", h.0, h.1, ConvexHullBounds, Some(radius), m, 0.0)]);
        case PackedNiTriStripsShape(subShapes, data) =>
          r := ImportPackedStrips(subShapes, data, havokScale);
        case NiTriStripsShape(m, strips) =>
          havokMat := Some(m);
          r := ImportReduce(strips, norm, hull);
        case NiTriStripsData(vs, tris, radius) =>
          if havokMat.None? {
            r := Failure(NoHavokMaterial);
          } else {
            r := Success([ColObj("poly", vs, tris, TriangleMeshBounds, Some(radius), havokMat.value, 0.0)]);
          }
        case MoppBvTreeShape(inner) =>
          r := ImportBhkShape(inner, norm, hull);
        case ListShape(subs) =>
          r := ImportReduce(subs, norm, hull);
        case Unsupported =>
          r := Success([]);
      }
    }

    /** `reduce(operator.add, ...)` over the imports of `xs`, in order; no
        shape at all is an error. */
    method ImportReduce(xs: seq<Shape>, norm: Point -> real, hull: seq<Point> -> (seq<Point>, seq<seq<int>>))
        returns (r: Result<seq<ColObj>, CollisionError>)
      requires havokScale == ScaleFor(parentScale, userVersion, userVersion2, havokScale)
      modifies this
      ensures havokScale == old(havokScale)
      ensures xs == [] ==> r == Failure(EmptyReduce) && havokMat == old(havokMat)
      ensures xs != [] ==> (r, havokMat) == ImportList(xs, havokScale, old(havokMat), norm, hull)
      decreases xs, 0
    {
      if xs == [] {
        return Failure(EmptyReduce);
      }
      var acc: seq<ColObj> := [];
      for k := 0 to |xs|
        invariant havokScale == old(havokScale)
        invariant (Success(acc), havokMat) == ImportList(xs[..k], havokScale, old(havokMat), norm, hull)
      {
        assert xs[..k + 1][..k] == xs[..k];
        var next := ImportBhkShape(xs[k], norm, hull);
        if next.Failure? {
          assert xs[..k + 1] == xs[..k] + [xs[k]];
          ImportListStop(xs, k, havokScale, old(havokMat), norm, hull);
          return next;
        }
        acc := acc + next.value;
      }
      assert xs[..|xs|] == xs;
      r := Success(acc);
    }
  }

  /** An error in the shape after a successful prefix is the error of the
      whole list. */
  lemma {:induction false} ImportListStop(xs: seq<Shape>, k: nat, scale: real, mat: Option<nat>, norm: Point -> real,
                                          hull: seq<Point> -> (seq<Point>, seq<seq<int>>))
    requires k < |xs|
    requires ImportList(xs[..k], scale, mat, norm, hull).0.Success?
    requires Import(xs[k], scale, ImportList(xs[..k], scale, mat, norm, hull).1, norm, hull).0.Failure?
    ensures ImportList(xs, scale, mat, norm, hull) == Import(xs[k], scale, ImportList(xs[..k], scale, mat, norm, hull).1, norm, hull)
    decreases |xs| - k
  {
    assert xs[..k + 1][..k] == xs[..k];
    if k + 1 < |xs| {
      ImportListStopped(xs, k + 1, scale, mat, norm, hull);
    } else {
      assert xs[..k + 1] == xs;
    }
  }

  /** Once the list failed, the rest of it is not imported. */
  lemma {:induction false} ImportListStopped(xs: seq<Shape>, n: nat, scale: real, mat: Option<nat>, norm: Point -> real,
                                             hull: seq<Point> -> (seq<Point>, seq<seq<int>>))
    requires n <= |xs| && ImportList(xs[..n], scale, mat, norm, hull).0.Failure?
    ensures ImportList(xs, scale, mat, norm, hull) == ImportList(xs[..n], scale, mat, norm, hull)
    decreases |xs| - n
  {
    if n < |xs| {
      assert xs[..n + 1][..n] == xs[..n];
      ImportListStopped(xs, n + 1, scale, mat, norm, hull);
    } else {
      assert xs[..n] == xs;
    }
  }
}
