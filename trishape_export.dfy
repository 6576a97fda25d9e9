/** The per-material pass of `export_tri_shapes`
    (io_scene_nif/modules/object/object_export.py): the polygons of one
    material are cut into triangles over a table of unique
    (vertex, uv, normal, colour) quads, with one body part per triangle
    for Fallout 3 and Skyrim.  The lists the pass builds are the fields of
    `TriShapeTables`. */
module TriShapeExport {
  import opened Wrappers
  import opened Seqs
  import opened ObjectExport
  import ArmatureImport

  type Vec3 = ArmatureImport.Vec3

  datatype UV = UV(u: real, v: real)

  datatype Color = Color(r: real, g: real, b: real, a: real)

  /** One loop of a polygon: its vertex, that vertex's position and
      normal, one uv coordinate per named uv layer of the material, and the
      colour of the first colour layer with the value of the second as
      alpha. */
  datatype Corner = Corner(vertex: nat, co: Vec3, vertexNormal: Vec3, uvs: seq<UV>, rgb: Vec3, alpha: real)

  datatype Poly = Poly(material: nat, corners: seq<Corner>, smooth: bool, normal: Vec3)

  /** What is exported per vertex: the material's uv layers and how many
      of them name a uv map (a layer without a name is skipped with a
      warning), normals, vertex colours, and whether a second colour layer
      gives alpha. */
  datatype Layers = Layers(numUV: nat, numNamedUV: nat, hasNormals: bool, hasVcol: bool, hasVcolAlpha: bool)

  /** `vertquad`: position, uvs, normal and colour of one NIF vertex. */
  datatype Quad = Quad(co: Vec3, uvs: seq<UV>, normal: Option<Vec3>, color: Option<Color>)

  type Tri = (nat, nat, nat)

  /** `(fv, fuv, fn, f_col)` for one corner: a smooth polygon uses the
      vertex normal, a flat one its own normal; without an alpha layer the
      alpha is 1. */
  function QuadOf(p: Poly, c: Corner, l: Layers): (q: Quad)
    ensures q.co == c.co && q.uvs == c.uvs
    ensures q.normal.Some? <==> l.hasNormals
    ensures l.hasNormals ==> q.normal.value == if p.smooth then c.vertexNormal else p.normal
    ensures q.color.Some? <==> l.hasVcol
    ensures l.hasVcol && !l.hasVcolAlpha ==> q.color.value.a == 1.0
  {
    Quad(c.co, c.uvs,
         if l.hasNormals then Some(if p.smooth then c.vertexNormal else p.normal) else None,
         if l.hasVcol then Some(Color(c.rgb.x, c.rgb.y, c.rgb.z, if l.hasVcolAlpha then c.alpha else 1.0)) else None)
  }

  /** A quad carries exactly the data the layers call for. */
  predicate QuadFits(q: Quad, l: Layers)
  {
    |q.uvs| == l.numNamedUV && (q.normal.Some? <==> l.hasNormals) && (q.color.Some? <==> l.hasVcol)
  }

  predicate PolyFits(p: Poly, l: Layers, numVerts: nat)
  {
    forall i :: 0 <= i < |p.corners| ==> p.corners[i].vertex < numVerts && |p.corners[i].uvs| == l.numNamedUV
  }

  function Abs(x: real): real
  {
    if x < 0.0 then -x else x
  }

  predicate Near(a: real, b: real, eps: real)
  {
    Abs(a - b) <= eps
  }

  predicate Near3(a: Vec3, b: Vec3, eps: real)
  {
    Near(a.x, b.x, eps) && Near(a.y, b.y, eps) && Near(a.z, b.z, eps)
  }

  predicate NearColor(a: Color, b: Color, eps: real)
  {
    Near(a.r, b.r, eps) && Near(a.g, b.g, eps) && Near(a.b, b.b, eps) && Near(a.a, b.a, eps)
  }

  /** The duplicate test: every uv coordinate of every layer, the normal
      and the colour agree within `eps` (the largest uv difference not
      above `eps` is every uv difference not above it). */
  predicate Same(q: Quad, p: Quad, l: Layers, eps: real)
  {
    && (forall k :: 0 <= k < l.numUV && k < |q.uvs| && k < |p.uvs| ==>
          Near(q.uvs[k].u, p.uvs[k].u, eps) && Near(q.uvs[k].v, p.uvs[k].v, eps))
    && (l.hasNormals && q.normal.Some? && p.normal.Some? ==> Near3(q.normal.value, p.normal.value, eps))
    && (l.hasVcol && q.color.Some? && p.color.Some? ==> NearColor(q.color.value, p.color.value, eps))
  }

  /** The first quad among `cands` that passes the duplicate test. */
  function FirstSame(quads: seq<Quad>, cands: seq<nat>, q: Quad, l: Layers, eps: real): (r: Option<nat>)
    requires forall k :: 0 <= k < |cands| ==> cands[k] < |quads|
    ensures r.None? ==> forall k :: 0 <= k < |cands| ==> !Same(q, quads[cands[k]], l, eps)
    ensures r.Some? ==> exists k :: 0 <= k < |cands| && cands[k] == r.value && Same(q, quads[cands[k]], l, eps) &&
                          forall j :: 0 <= j < k ==> !Same(q, quads[cands[j]], l, eps)
    decreases |cands|
  {
    if cands == [] then None
    else if Same(q, quads[cands[0]], l, eps) then Some(cands[0])
    else
      var r := FirstSame(quads, cands[1..], q, l, eps);
      assert r.Some? ==> exists k :: 0 <= k < |cands| - 1 && cands[1..][k] == r.value && Same(q, quads[cands[1..][k]], l, eps) &&
                          forall j :: 0 <= j < k ==> !Same(q, quads[cands[1..][j]], l, eps);
      assert r.Some? ==> exists k :: 1 <= k < |cands| && cands[k] == r.value && Same(q, quads[cands[k]], l, eps) &&
                          forall j :: 0 <= j < k ==> !Same(q, quads[cands[j]], l, eps);
      r
  }

  /** Each quad of `cands` found no duplicate among those before it. */
  predicate Distinct(quads: seq<Quad>, cands: seq<nat>, l: Layers, eps: real)
    requires forall k :: 0 <= k < |cands| ==> cands[k] < |quads|
    decreases |cands|
  {
    cands == [] ||
    var init := cands[..|cands| - 1];
    Distinct(quads, init, l, eps) && FirstSame(quads, init, quads[cands[|cands| - 1]], l, eps).None?
  }

  /** No quad listed in a distinct list passes the duplicate test against
      one listed before it. */
  lemma {:induction false} DistinctPairs(quads: seq<Quad>, cands: seq<nat>, l: Layers, eps: real)
    requires forall k :: 0 <= k < |cands| ==> cands[k] < |quads|
    requires Distinct(quads, cands, l, eps)
    ensures forall a, b :: 0 <= a < b < |cands| ==> !Same(quads[cands[b]], quads[cands[a]], l, eps)
    decreases |cands|
  {
    if cands != [] {
      var n := |cands| - 1;
      var init := cands[..n];
      DistinctPairs(quads, init, l, eps);
      forall a, b | 0 <= a < b < |cands|
        ensures !Same(quads[cands[b]], quads[cands[a]], l, eps)
      {
        if b < n {
          assert init[a] == cands[a] && init[b] == cands[b];
        } else {
          assert init[a] == cands[a];
        }
      }
    }
  }

  /** Adding a quad to the table changes no search among the earlier ones. */
  lemma {:induction false} FirstSameGrow(quads: seq<Quad>, extra: Quad, cands: seq<nat>, q: Quad, l: Layers, eps: real)
    requires forall k :: 0 <= k < |cands| ==> cands[k] < |quads|
    ensures FirstSame(quads + [extra], cands, q, l, eps) == FirstSame(quads, cands, q, l, eps)
    decreases |cands|
  {
    if cands != [] {
      assert (quads + [extra])[cands[0]] == quads[cands[0]];
      FirstSameGrow(quads, extra, cands[1..], q, l, eps);
    }
  }

  lemma {:induction false} DistinctGrow(quads: seq<Quad>, extra: Quad, cands: seq<nat>, l: Layers, eps: real)
    requires forall k :: 0 <= k < |cands| ==> cands[k] < |quads|
    ensures Distinct(quads + [extra], cands, l, eps) == Distinct(quads, cands, l, eps)
    decreases |cands|
  {
    if cands != [] {
      var init := cands[..|cands| - 1];
      DistinctGrow(quads, extra, init, l, eps);
      assert (quads + [extra])[cands[|cands| - 1]] == quads[cands[|cands| - 1]];
      FirstSameGrow(quads, extra, init, quads[cands[|cands| - 1]], l, eps);
    }
  }

  /** The quad table and `vertmap`: `origin[k]` is the Blender vertex quad
      `k` was made from; every quad is listed under its vertex, a vertex
      lists only its own quads, and each list is distinct. */
  ghost predicate IndexValid(quads: seq<Quad>, origin: seq<nat>, vertmap: seq<seq<nat>>, l: Layers, eps: real)
  {
    && |origin| == |quads| <= 65536
    && (forall k :: 0 <= k < |quads| ==> QuadFits(quads[k], l) && origin[k] < |vertmap|)
    && (forall k {:trigger origin[k]} :: 0 <= k < |quads| ==> k in vertmap[origin[k]])
    && (forall v, a :: 0 <= v < |vertmap| && 0 <= a < |vertmap[v]| ==> vertmap[v][a] < |quads| && origin[vertmap[v][a]] == v)
    && (forall v :: 0 <= v < |vertmap| ==> Distinct(quads, vertmap[v], l, eps))
  }

  /** A new quad for vertex `v`, unlike every quad listed for `v`, keeps the table valid. */
  lemma AddQuadValid(quads: seq<Quad>, origin: seq<nat>, vertmap: seq<seq<nat>>, l: Layers, eps: real, v: nat, q: Quad)
    requires IndexValid(quads, origin, vertmap, l, eps) && v < |vertmap| && QuadFits(q, l) && |quads| < 65536
    requires FirstSame(quads, vertmap[v], q, l, eps).None?
    ensures IndexValid(quads + [q], origin + [v], vertmap[v := vertmap[v] + [|quads|]], l, eps)
  {
    var n := |quads|;
    var quads', origin', vertmap' := quads + [q], origin + [v], vertmap[v := vertmap[v] + [n]];
    forall k | 0 <= k < |quads'|
      ensures k in vertmap'[origin'[k]]
    {
      if k < n {
        assert origin'[k] == origin[k];
        assert k in vertmap[origin[k]];
      } else {
        assert vertmap'[v][|vertmap[v]|] == n;
      }
    }
    forall w, a | 0 <= w < |vertmap'| && 0 <= a < |vertmap'[w]|
      ensures vertmap'[w][a] < |quads'| && origin'[vertmap'[w][a]] == w
    {
      if w == v && a == |vertmap[v]| {
        assert vertmap'[w][a] == n;
      } else {
        assert vertmap'[w][a] == vertmap[w][a];
      }
    }
    forall w | 0 <= w < |vertmap'|
      ensures Distinct(quads', vertmap'[w], l, eps)
    {
      DistinctGrow(quads, q, vertmap[w], l, eps);
      if w == v {
        assert vertmap'[w][..|vertmap[v]|] == vertmap[v];
        FirstSameGrow(quads, q, vertmap[v], q, l, eps);
      }
    }
  }

  /** The positions of the quads, in order. */
  function Positions(qs: seq<Quad>): (r: seq<Vec3>)
    ensures |r| == |qs|
    decreases |qs|
  {
    if qs == [] then [] else Positions(qs[..|qs| - 1]) + [qs[|qs| - 1].co]
  }

  /** The normals the quads carry, in order. */
  function Normals(qs: seq<Quad>): seq<Vec3>
    decreases |qs|
  {
    if qs == [] then []
    else
      var q := qs[|qs| - 1];
      Normals(qs[..|qs| - 1]) + (if q.normal.Some? then [q.normal.value] else [])
  }

  /** The colours the quads carry, in order. */
  function Colors(qs: seq<Quad>): seq<Color>
    decreases |qs|
  {
    if qs == [] then []
    else
      var q := qs[|qs| - 1];
      Colors(qs[..|qs| - 1]) + (if q.color.Some? then [q.color.value] else [])
  }

  /** The uv coordinates of the quads, in order. */
  function UVs(qs: seq<Quad>): (r: seq<seq<UV>>)
    ensures |r| == |qs|
    decreases |qs|
  {
    if qs == [] then [] else UVs(qs[..|qs| - 1]) + [qs[|qs| - 1].uvs]
  }

  /** `vertlist`, `normlist`, `vcollist` and `uvlist` grow with the quad
      table: positions always, normals, colours and uvs when exported. */
  predicate ListsValid(quads: seq<Quad>, vertlist: seq<Vec3>, normlist: seq<Vec3>, vcollist: seq<Color>, uvlist: seq<seq<UV>>, l: Layers)
  {
    && vertlist == Positions(quads)
    && normlist == (if l.hasNormals then Normals(quads) else [])
    && vcollist == (if l.hasVcol then Colors(quads) else [])
    && uvlist == (if l.numUV > 0 then UVs(quads) else [])
  }

  /** One more quad, added to every exported list. */
  lemma AddQuadLists(quads: seq<Quad>, vertlist: seq<Vec3>, normlist: seq<Vec3>, vcollist: seq<Color>, uvlist: seq<seq<UV>>,
                     l: Layers, q: Quad)
    requires ListsValid(quads, vertlist, normlist, vcollist, uvlist, l) && QuadFits(q, l)
    ensures ListsValid(quads + [q], vertlist + [q.co],
                       if l.hasNormals then normlist + [q.normal.value] else normlist,
                       if l.hasVcol then vcollist + [q.color.value] else vcollist,
                       if l.numUV > 0 then uvlist + [q.uvs] else uvlist, l)
  {
    assert (quads + [q])[..|quads|] == quads;
  }

  /** Element `k` of every exported list belongs to quad `k`, and each
      exported list is as long as the quad table. */
  lemma ListsContent(quads: seq<Quad>, l: Layers)
    requires forall k :: 0 <= k < |quads| ==> QuadFits(quads[k], l)
    ensures forall k :: 0 <= k < |quads| ==> Positions(quads)[k] == quads[k].co && UVs(quads)[k] == quads[k].uvs
    ensures l.hasNormals ==> |Normals(quads)| == |quads| && forall k :: 0 <= k < |quads| ==> quads[k].normal == Some(Normals(quads)[k])
    ensures !l.hasNormals ==> Normals(quads) == []
    ensures l.hasVcol ==> |Colors(quads)| == |quads| && forall k :: 0 <= k < |quads| ==> quads[k].color == Some(Colors(quads)[k])
    ensures !l.hasVcol ==> Colors(quads) == []
  {
    PositionsContent(quads);
    NormalsContent(quads, l);
    ColorsContent(quads, l);
  }

  lemma {:induction false} PositionsContent(quads: seq<Quad>)
    ensures forall k :: 0 <= k < |quads| ==> Positions(quads)[k] == quads[k].co && UVs(quads)[k] == quads[k].uvs
    decreases |quads|
  {
    if quads != [] {
      PositionsContent(quads[..|quads| - 1]);
    }
  }

  lemma {:induction false} NormalsContent(quads: seq<Quad>, l: Layers)
    requires forall k :: 0 <= k < |quads| ==> QuadFits(quads[k], l)
    ensures l.hasNormals ==> |Normals(quads)| == |quads| && forall k :: 0 <= k < |quads| ==> quads[k].normal == Some(Normals(quads)[k])
    ensures !l.hasNormals ==> Normals(quads) == []
    decreases |quads|
  {
    if quads != [] {
      var init := quads[..|quads| - 1];
      NormalsContent(init, l);
      assert QuadFits(quads[|quads| - 1], l);
    }
  }

  lemma {:induction false} ColorsContent(quads: seq<Quad>, l: Layers)
    requires forall k :: 0 <= k < |quads| ==> QuadFits(quads[k], l)
    ensures l.hasVcol ==> |Colors(quads)| == |quads| && forall k :: 0 <= k < |quads| ==> quads[k].color == Some(Colors(quads)[k])
    ensures !l.hasVcol ==> Colors(quads) == []
    decreases |quads|
  {
    if quads != [] {
      var init := quads[..|quads| - 1];
      ColorsContent(init, l);
      assert QuadFits(quads[|quads| - 1], l);
    }
  }

  predicate TriIn(t: Tri, n: nat)
  {
    t.0 < n && t.1 < n && t.2 < n
  }

  lemma TrisGrow(tris: seq<Tri>, n: nat, m: nat)
    requires n <= m && forall k :: 0 <= k < |tris| ==> TriIn(tris[k], n)
    ensures forall k :: 0 <= k < |tris| ==> TriIn(tris[k], m)
  {
  }

  function Repeat<T>(x: T, n: nat): (r: seq<T>)
    ensures |r| == n && forall i :: 0 <= i < n ==> r[i] == x
  {
    seq(n, _ => x)
  }

  /** The triangles of a convex polygon with corner indices `f`, fanned
      out from its first corner and wound by the sign of the scale. */
  function Fan(f: seq<nat>, positive: bool): (t: seq<Tri>)
    requires |f| >= 2
    ensures |t| == |f| - 2
    ensures forall i :: 0 <= i < |t| ==> t[i].0 == f[0] && {t[i].1, t[i].2} == {f[1 + i], f[2 + i]}
  {
    seq(|f| - 2, i requires 0 <= i < |f| - 2 => if positive then (f[0], f[1 + i], f[2 + i]) else (f[0], f[2 + i], f[1 + i]))
  }

  /** A negative scale reverses the winding of every triangle. */
  lemma FanWinding(f: seq<nat>)
    requires |f| >= 2
    ensures forall i :: 0 <= i < |f| - 2 ==>
              var (a, b, c) := Fan(f, true)[i]; Fan(f, false)[i] == (a, c, b)
  {
  }

  /** A quad becomes two triangles sharing the diagonal from its first corner. */
  lemma FanQuad(f: seq<nat>)
    requires |f| == 4
    ensures Fan(f, true) == [(f[0], f[1], f[2]), (f[0], f[2], f[3])]
  {
  }

  /** A body-part group: the partition index and the vertices in it. */
  datatype BodyPartGroup = BodyPartGroup(name: string, index: nat, verts: set<nat>)

  /** The vertices of a polygon. */
  function PolyVerts(p: Poly): set<nat>
  {
    set i | 0 <= i < |p.corners| :: p.corners[i].vertex
  }

  /** The index of the first group holding all of `vs`. */
  function BodyPartOf(groups: seq<BodyPartGroup>, vs: set<nat>): (r: Option<nat>)
    ensures r.None? ==> forall k :: 0 <= k < |groups| ==> !(vs <= groups[k].verts)
    ensures r.Some? ==> exists k :: 0 <= k < |groups| && groups[k].index == r.value && vs <= groups[k].verts &&
                          forall j :: 0 <= j < k ==> !(vs <= groups[j].verts)
    decreases |groups|
  {
    if groups == [] then None
    else if vs <= groups[0].verts then Some(groups[0].index)
    else
      var r := BodyPartOf(groups[1..], vs);
      assert r.Some? ==> exists k :: 0 <= k < |groups| - 1 && groups[1..][k].index == r.value && vs <= groups[1..][k].verts &&
                          forall j :: 0 <= j < k ==> !(vs <= groups[1..][j].verts);
      assert r.Some? ==> exists k :: 1 <= k < |groups| && groups[k].index == r.value && vs <= groups[k].verts &&
                          forall j :: 0 <= j < k ==> !(vs <= groups[j].verts);
      r
  }

  /** The body part of a triangle with vertices `vs`: 0 outside Fallout 3
      and Skyrim or without groups, else the first group holding them
      (none is the error case). */
  function PartFor(bodyGame: bool, groups: seq<BodyPartGroup>, vs: set<nat>): Option<nat>
  {
    if !bodyGame || groups == [] then Some(0) else BodyPartOf(groups, vs)
  }

  /** The `for ... else` search over the body-part groups. */
  method FindBodyPart(groups: seq<BodyPartGroup>, vs: set<nat>) returns (r: Option<nat>)
    ensures r == BodyPartOf(groups, vs)
  {
    var k := 0;
    while k < |groups|
      invariant 0 <= k <= |groups|
      invariant BodyPartOf(groups, vs) == BodyPartOf(groups[k..], vs)
    {
      if vs <= groups[k].verts {
        return Some(groups[k].index);
      }
      assert groups[k..][1..] == groups[k + 1..];
      k := k + 1;
    }
    return None;
  }

  /** The vertex count a polygon gives the triangle list. */
  function TriCount(polys: seq<Poly>, material: Option<nat>): nat
    decreases |polys|
  {
    if polys == [] then 0
    else
      var p := polys[|polys| - 1];
      TriCount(polys[..|polys| - 1], material) + (if Selected(material, p) && |p.corners| >= 3 then |p.corners| - 2 else 0)
  }

  /** Whether a polygon belongs to the material being exported. */
  predicate Selected(material: Option<nat>, p: Poly)
  {
    material.None? || p.material == material.value
  }

  lemma {:induction false} PresentFull(xs: seq<Option<nat>>)
    requires |Present(xs)| == |xs|
    ensures forall k :: 0 <= k < |xs| ==> xs[k].Some? && Present(xs)[k] == xs[k].value
    decreases |xs|
  {
    if xs != [] {
      var init := xs[..|xs| - 1];
      assert |Present(init)| <= |init| by {
        PresentLength(init);
      }
      PresentFull(init);
    }
  }

  lemma {:induction false} PresentLength(xs: seq<Option<nat>>)
    ensures |Present(xs)| <= |xs|
    decreases |xs|
  {
    if xs != [] {
      PresentLength(xs[..|xs| - 1]);
    }
  }

  lemma PresentSnoc(xs: seq<Option<nat>>, x: Option<nat>)
    ensures Present(xs + [x]) == Present(xs) + (if x.Some? then [x.value] else [])
  {
    assert (xs + [x])[..|xs|] == xs;
  }
  /** The lists of one pass over a material's polygons: the quad table
      (`vertquad_list`) with the Blender vertex each quad was made from,
      `vertmap`, the vertex, normal, colour and uv lists, the triangles
      with the polygon and the body part each came from,
      `bodypartfacemap` and the polygons that fit no body part. */
  datatype Tables = Tables(quads: seq<Quad>, origin: seq<nat>, vertmap: seq<seq<nat>>,
                           vertlist: seq<Vec3>, normlist: seq<Vec3>, vcollist: seq<Color>, uvlist: seq<seq<UV>>,
                           trilist: seq<Tri>, triPoly: seq<nat>, triPart: seq<Option<nat>>,
                           bodyparts: seq<nat>, missing: seq<nat>)

  /** Every triangle indexes existing quads; `bodyparts` holds the parts
      that were found, and `missing` one polygon for every triangle whose
      part was not. */
  ghost predicate TrisValid(t: Tables)
  {
    && (forall k :: 0 <= k < |t.trilist| ==> TriIn(t.trilist[k], |t.quads|))
    && |t.triPoly| == |t.trilist| && |t.triPart| == |t.trilist|
    && t.bodyparts == Present(t.triPart)
    && |t.bodyparts| + |t.missing| == |t.trilist|
  }

  ghost predicate TablesValid(t: Tables, l: Layers, eps: real)
  {
    && IndexValid(t.quads, t.origin, t.vertmap, l, eps)
    && ListsValid(t.quads, t.vertlist, t.normlist, t.vcollist, t.uvlist, l)
    && TrisValid(t)
  }

  /** The triangle lists are the same in both tables. */
  predicate SameTris(a: Tables, b: Tables)
  {
    a.trilist == b.trilist && a.triPoly == b.triPoly && a.triPart == b.triPart &&
    a.bodyparts == b.bodyparts && a.missing == b.missing
  }

  /** The quad table and every per-vertex list are the same in both tables. */
  predicate SameQuads(a: Tables, b: Tables)
  {
    a.quads == b.quads && a.origin == b.origin && a.vertmap == b.vertmap &&
    a.vertlist == b.vertlist && a.normlist == b.normlist && a.vcollist == b.vcollist && a.uvlist == b.uvlist
  }

  /** `b` holds every quad of `a` where `a` has it. */
  predicate Extends(a: Tables, b: Tables)
  {
    IsPrefix(a.quads, b.quads) && IsPrefix(a.origin, b.origin) && |a.vertmap| == |b.vertmap|
  }

  /** The tables before the first polygon: nothing listed for any of the
      `numVerts` Blender vertices. */
  function NoTables(numVerts: nat): Tables
  {
    Tables([], [], seq(numVerts, _ => []), [], [], [], [], [], [], [], [], [])
  }

  lemma NoTablesValid(numVerts: nat, l: Layers, eps: real)
    ensures TablesValid(NoTables(numVerts), l, eps) && |NoTables(numVerts).vertmap| == numVerts
  {
    var vm: seq<seq<nat>> := seq(numVerts, _ => []);
    assert forall v :: 0 <= v < |vm| ==> vm[v] == [];
  }

  /** The tables with a new quad `q`, made from vertex `v`: listed under
      `v` and added to every exported list. */
  function WithQuad(t: Tables, v: nat, q: Quad, l: Layers): Tables
    requires v < |t.vertmap| && QuadFits(q, l)
  {
    t.(quads := t.quads + [q], origin := t.origin + [v],
       vertmap := t.vertmap[v := t.vertmap[v] + [|t.quads|]],
       vertlist := t.vertlist + [q.co],
       normlist := if l.hasNormals then t.normlist + [q.normal.value] else t.normlist,
       vcollist := if l.hasVcol then t.vcollist + [q.color.value] else t.vcollist,
       uvlist := if l.numUV > 0 then t.uvlist + [q.uvs] else t.uvlist)
  }

  /** A quad unlike every quad listed for its vertex may be added while
      indices fit 16 bits. */
  lemma WithQuadValid(t: Tables, l: Layers, eps: real, v: nat, q: Quad)
    requires TablesValid(t, l, eps) && v < |t.vertmap| && QuadFits(q, l) && |t.quads| < 65536
    requires FirstSame(t.quads, t.vertmap[v], q, l, eps).None?
    ensures TablesValid(WithQuad(t, v, q, l), l, eps)
    ensures SameTris(t, WithQuad(t, v, q, l)) && Extends(t, WithQuad(t, v, q, l))
  {
    AddQuadValid(t.quads, t.origin, t.vertmap, l, eps, v, q);
    AddQuadLists(t.quads, t.vertlist, t.normlist, t.vcollist, t.uvlist, l, q);
    TrisGrow(t.trilist, |t.quads|, |t.quads| + 1);
  }

  /** The tables with one more triangle of polygon `id`: its body part
      when one was found, else the polygon in `missing`. */
  function WithTriangle(t: Tables, tri: Tri, id: nat, part: Option<nat>): Tables
  {
    t.(trilist := t.trilist + [tri], triPoly := t.triPoly + [id], triPart := t.triPart + [part],
       bodyparts := if part.Some? then t.bodyparts + [part.value] else t.bodyparts,
       missing := if part.None? then t.missing + [id] else t.missing)
  }

  lemma WithTriangleValid(t: Tables, tri: Tri, id: nat, part: Option<nat>)
    requires TrisValid(t) && TriIn(tri, |t.quads|)
    ensures TrisValid(WithTriangle(t, tri, id, part)) && SameQuads(t, WithTriangle(t, tri, id, part))
  {
    PresentSnoc(t.triPart, part);
  }

  /** Validity of the quads and of the triangles is checked apart. */
  lemma ValidFromParts(t: Tables, t': Tables, l: Layers, eps: real)
    requires TablesValid(t, l, eps) && SameQuads(t, t') && TrisValid(t')
    ensures TablesValid(t', l, eps)
  {
  }

  /** The uv part of the duplicate test runs past the uvs of a quad:
      the material has uv layers and fewer of them are named. */
  predicate UVShort(l: Layers)
  {
    l.numNamedUV < l.numUV
  }

  /** The loop over `vertmap[v]`: the first listed quad that passes the
      duplicate test, else the next free index.  When the uvs are short,
      the test raises on the first listed quad. */
  method FindQuad(t: Tables, l: Layers, eps: real, v: nat, q: Quad) returns (r: Result<nat, ExportError>)
    requires v < |t.vertmap| && forall a :: 0 <= a < |t.vertmap[v]| ==> t.vertmap[v][a] < |t.quads|
    ensures r.Failure? <==> UVShort(l) && t.vertmap[v] != []
    ensures r.Failure? ==> r.error == UVLayerIndexError
    ensures r.Success? ==> r.value == match FirstSame(t.quads, t.vertmap[v], q, l, eps) case Some(c) => c case None => |t.quads|
    ensures r.Success? && r.value < |t.quads| ==> r.value in t.vertmap[v] && Same(q, t.quads[r.value], l, eps)
    ensures r.Success? && r.value == |t.quads| ==> forall a :: 0 <= a < |t.vertmap[v]| ==> !Same(q, t.quads[t.vertmap[v][a]], l, eps)
  {
    var cands := t.vertmap[v];
    var k := 0;
    while k < |cands|
      invariant 0 <= k <= |cands|
      invariant k > 0 ==> !UVShort(l)
      invariant FirstSame(t.quads, cands, q, l, eps) == FirstSame(t.quads, cands[k..], q, l, eps)
    {
      if l.numNamedUV < l.numUV {
        return Failure(UVLayerIndexError);
      }
      if Same(q, t.quads[cands[k]], l, eps) {
        return Success(cands[k]);
      }
      assert cands[k..][1..] == cands[k + 1..];
      k := k + 1;
    }
    return Success(|t.quads|);
  }

  /** One corner: the duplicate test may raise on short uvs; otherwise its
      index is a listed duplicate if there is one, or, if the index still
      fits 16 bits, a new quad. */
  method AddCorner(t: Tables, l: Layers, eps: real, v: nat, q: Quad) returns (t': Tables, r: Result<nat, ExportError>)
    requires TablesValid(t, l, eps) && v < |t.vertmap| && QuadFits(q, l)
    ensures TablesValid(t', l, eps) && SameTris(t, t') && Extends(t, t')
    ensures r.Success? ==>
              r.value < |t'.quads| && t'.origin[r.value] == v && (t'.quads[r.value] == q || Same(q, t'.quads[r.value], l, eps))
    ensures r.Failure? ==> t' == t
    ensures var short, found := UVShort(l) && t.vertmap[v] != [], FirstSame(t.quads, t.vertmap[v], q, l, eps);
            && (r == Failure(UVLayerIndexError) <==> short)
            && (r == Failure(TooManyVertices) <==> !short && |t.quads| == 65536 && found.None?)
            && (!short && found.Some? ==> r == Success(found.value) && t' == t)
            && (!short && found.None? && |t.quads| <= 65535 ==> r == Success(|t.quads|) && t' == WithQuad(t, v, q, l))
  {
    assert SameTris(t, t) && Extends(t, t);
    var found := FindQuad(t, l, eps, v, q);
    t' := t;
    if found.Failure? {
      r := Failure(found.error);
    } else if found.value > 65535 {
      r := Failure(TooManyVertices);
    } else {
      var j := found.value;
      if j == |t.quads| {
        WithQuadValid(t, l, eps, v, q);
        t' := WithQuad(t, v, q, l);
        assert t'.quads[j] == q && t'.origin[j] == v;
      }
      r := Success(j);
    }
  }

  /** The tables after the first `n` triangles of the fan of `f`, all of
      polygon `id` and body part `part`. */
  function FanDone(t: Tables, f: seq<nat>, positive: bool, id: nat, part: Option<nat>, n: nat): Tables
    requires |f| >= 2 && n <= |f| - 2
  {
    t.(trilist := t.trilist + Fan(f, positive)[..n], triPoly := t.triPoly + Repeat(id, n),
       triPart := t.triPart + Repeat(part, n),
       bodyparts := t.bodyparts + (if part.Some? then Repeat(part.value, n) else []),
       missing := t.missing + (if part.None? then Repeat(id, n) else []))
  }

  /** One more triangle of the fan. */
  lemma {:induction false} FanStep(t: Tables, f: seq<nat>, positive: bool, id: nat, part: Option<nat>, n: nat, tri: Tri)
    requires |f| >= 2 && n < |f| - 2 && tri == Fan(f, positive)[n]
    ensures WithTriangle(FanDone(t, f, positive, id, part, n), tri, id, part) == FanDone(t, f, positive, id, part, n + 1)
  {
    var fan := Fan(f, positive);
    assert fan[..n + 1] == fan[..n] + [fan[n]];
    assert Repeat(id, n + 1) == Repeat(id, n) + [id];
    assert Repeat(part, n + 1) == Repeat(part, n) + [part];
    if part.Some? {
      assert Repeat(part.value, n + 1) == Repeat(part.value, n) + [part.value];
    }
  }

  /** `b` is `a` with the fan of `f` added: its triangles, each of
      polygon `id` and body part `part`, and the part in `bodyparts` or
      the polygon in `missing`. */
  predicate FanAdded(a: Tables, b: Tables, f: seq<nat>, positive: bool, id: nat, part: Option<nat>)
  {
    && |f| >= 2
    && b.trilist == a.trilist + Fan(f, positive)
    && b.triPoly == a.triPoly + Repeat(id, |f| - 2)
    && b.triPart == a.triPart + Repeat(part, |f| - 2)
    && b.bodyparts == a.bodyparts + (if part.Some? then Repeat(part.value, |f| - 2) else [])
    && b.missing == a.missing + (if part.None? then Repeat(id, |f| - 2) else [])
  }

  lemma FanAddedAfter(a: Tables, a': Tables, b: Tables, f: seq<nat>, positive: bool, id: nat, part: Option<nat>)
    requires SameTris(a, a') && FanAdded(a', b, f, positive, id, part)
    ensures FanAdded(a, b, f, positive, id, part)
  {
  }

  /** The `for i in range(f_numverts - 2)` loop: the fan of `f`, and for
      each triangle its body part, or the polygon in `missing`. */
  method AddTriangles(t: Tables, f: seq<nat>, positive: bool, id: nat,
                      bodyGame: bool, groups: seq<BodyPartGroup>, vs: set<nat>) returns (t': Tables)
    requires TrisValid(t) && |f| >= 2 && forall k :: 0 <= k < |f| ==> f[k] < |t.quads|
    ensures TrisValid(t') && SameQuads(t, t') && FanAdded(t, t', f, positive, id, PartFor(bodyGame, groups, vs))
  {
    ghost var part := PartFor(bodyGame, groups, vs);
    t' := t;
    assert Fan(f, positive)[..0] == [];
    var i := 0;
    while i < |f| - 2
      invariant 0 <= i <= |f| - 2
      invariant TrisValid(t') && t' == FanDone(t, f, positive, id, part, i)
    {
      var tri := if positive then (f[0], f[1 + i], f[2 + i]) else (f[0], f[2 + i], f[1 + i]);
      var found: Option<nat>;
      if !bodyGame || groups == [] {
        found := Some(0);
      } else {
        found := FindBodyPart(groups, vs);
      }
      assert found == part && tri == Fan(f, positive)[i];
      WithTriangleValid(t', tri, id, found);
      FanStep(t, f, positive, id, part, i, tri);
      t' := WithTriangle(t', tri, id, found);
      i := i + 1;
    }
    FanComplete(t, f, positive, id, part);
  }

  /** The whole fan added is `FanAdded`. */
  lemma FanComplete(t: Tables, f: seq<nat>, positive: bool, id: nat, part: Option<nat>)
    requires |f| >= 2
    ensures var t' := FanDone(t, f, positive, id, part, |f| - 2);
            SameQuads(t, t') && FanAdded(t, t', f, positive, id, part)
  {
    assert Fan(f, positive)[..|f| - 2] == Fan(f, positive);
  }

  /** Corner `i` of `p` got index `fi`: a quad made from the corner's
      vertex that equals or duplicates the corner's quad. */
  ghost predicate CornerAt(t: Tables, l: Layers, eps: real, p: Poly, i: nat, fi: nat)
    requires i < |p.corners|
  {
    var q := QuadOf(p, p.corners[i], l);
    fi < |t.quads| && fi < |t.origin| && t.origin[fi] == p.corners[i].vertex && (t.quads[fi] == q || Same(q, t.quads[fi], l, eps))
  }

  lemma CornersKept(t: Tables, t': Tables, l: Layers, eps: real, p: Poly, f: seq<nat>)
    requires |f| <= |p.corners| && Extends(t, t')
    requires forall k :: 0 <= k < |f| ==> CornerAt(t, l, eps, p, k, f[k])
    ensures forall k :: 0 <= k < |f| ==> CornerAt(t', l, eps, p, k, f[k])
  {
    forall k | 0 <= k < |f|
      ensures CornerAt(t', l, eps, p, k, f[k])
    {
      assert t'.quads[f[k]] == t.quads[f[k]] && t'.origin[f[k]] == t.origin[f[k]];
    }
  }

  lemma CornersSnoc(t: Tables, l: Layers, eps: real, p: Poly, f: seq<nat>, x: nat)
    requires |f| < |p.corners|
    requires forall k :: 0 <= k < |f| ==> CornerAt(t, l, eps, p, k, f[k])
    requires CornerAt(t, l, eps, p, |f|, x)
    ensures forall k :: 0 <= k < |f| + 1 ==> CornerAt(t, l, eps, p, k, (f + [x])[k])
  {
    forall k | 0 <= k < |f| + 1
      ensures CornerAt(t, l, eps, p, k, (f + [x])[k])
    {
      if k < |f| {
        assert (f + [x])[k] == f[k];
      }
    }
  }

  /** The corner loop of one polygon of three or four corners. */
  method IndexCorners(t: Tables, l: Layers, eps: real, p: Poly) returns (t': Tables, r: Result<seq<nat>, ExportError>)
    requires TablesValid(t, l, eps) && PolyFits(p, l, |t.vertmap|)
    ensures TablesValid(t', l, eps) && SameTris(t, t') && Extends(t, t')
    ensures r.Failure? ==> (r.error == TooManyVertices && |t'.quads| == 65536) || (r.error == UVLayerIndexError && UVShort(l))
    ensures r.Success? ==> |r.value| == |p.corners| && forall k :: 0 <= k < |r.value| ==> CornerAt(t', l, eps, p, k, r.value[k])
  {
    t' := t;
    var f: seq<nat> := [];
    var i := 0;
    while i < |p.corners|
      invariant 0 <= i <= |p.corners| && |f| == i
      invariant TablesValid(t', l, eps) && SameTris(t, t') && Extends(t, t')
      invariant forall k :: 0 <= k < i ==> CornerAt(t', l, eps, p, k, f[k])
    {
      ghost var before := t';
      var res;
      t', res := IndexCorner(t', l, eps, p, i);
      ExtendsTrans(t, before, t');
      if res.Failure? {
        r := Failure(res.error);
        break;
      }
      CornerStep(before, t', l, eps, p, f, res.value);
      f := f + [res.value];
      i := i + 1;
    }
    if i == |p.corners| {
      r := Success(f);
    }
  }

  /** Corner `i` of `p` looked up or added. */
  method IndexCorner(t: Tables, l: Layers, eps: real, p: Poly, i: nat) returns (t': Tables, r: Result<nat, ExportError>)
    requires TablesValid(t, l, eps) && PolyFits(p, l, |t.vertmap|) && i < |p.corners|
    ensures TablesValid(t', l, eps) && SameTris(t, t') && Extends(t, t')
    ensures r.Failure? ==> (r.error == TooManyVertices && |t'.quads| == 65536) || (r.error == UVLayerIndexError && UVShort(l))
    ensures r.Success? ==> CornerAt(t', l, eps, p, i, r.value)
  {
    var q := QuadOf(p, p.corners[i], l);
    t', r := AddCorner(t, l, eps, p.corners[i].vertex, q);
  }

  lemma ExtendsTrans(a: Tables, b: Tables, c: Tables)
    requires SameTris(a, b) && Extends(a, b) && SameTris(b, c) && Extends(b, c)
    ensures SameTris(a, c) && Extends(a, c)
  {
    PrefixTrans(a.quads, b.quads, c.quads);
    PrefixTrans(a.origin, b.origin, c.origin);
  }

  /** The corner found for corner `|f|` joins those found before it. */
  lemma CornerStep(t: Tables, t': Tables, l: Layers, eps: real, p: Poly, f: seq<nat>, x: nat)
    requires |f| < |p.corners| && Extends(t, t')
    requires forall k :: 0 <= k < |f| ==> CornerAt(t, l, eps, p, k, f[k])
    requires CornerAt(t', l, eps, p, |f|, x)
    ensures forall k :: 0 <= k < |f| + 1 ==> CornerAt(t', l, eps, p, k, (f + [x])[k])
  {
    CornersKept(t, t', l, eps, p, f);
    CornersSnoc(t', l, eps, p, f, x);
  }

  /** Indexing the corners and then adding the fan adds the polygon to the tables. */
  lemma {:induction false} PolygonDone(t: Tables, t1: Tables, t': Tables, l: Layers, eps: real, p: Poly, f: seq<nat>,
                    positive: bool, id: nat, part: Option<nat>)
    requires TablesValid(t1, l, eps) && SameTris(t, t1) && Extends(t, t1)
    requires |f| == |p.corners| && forall k :: 0 <= k < |f| ==> CornerAt(t1, l, eps, p, k, f[k])
    requires TrisValid(t') && SameQuads(t1, t') && FanAdded(t1, t', f, positive, id, part)
    ensures TablesValid(t', l, eps) && Extends(t, t')
    ensures forall k :: 0 <= k < |f| ==> CornerAt(t', l, eps, p, k, f[k])
    ensures FanAdded(t, t', f, positive, id, part)
  {
    ValidFromParts(t1, t', l, eps);
    CornersKept(t1, t', l, eps, p, f);
    FanAddedAfter(t, t1, t', f, positive, id, part);
  }

  /** One polygon of three or four corners: a corner index per corner,
      then its triangles, wound by the sign of the object's scale. */
  method AddPolygon(t: Tables, l: Layers, eps: real, p: Poly, id: nat, scale: Vec3, bodyGame: bool, groups: seq<BodyPartGroup>)
      returns (t': Tables, r: Result<seq<nat>, ExportError>)
    requires TablesValid(t, l, eps) && 3 <= |p.corners| <= 4 && PolyFits(p, l, |t.vertmap|)
    ensures TablesValid(t', l, eps) && Extends(t, t')
    ensures r.Failure? ==>
              && ((r.error == TooManyVertices && |t'.quads| == 65536) || (r.error == UVLayerIndexError && UVShort(l)))
              && SameTris(t, t')
    ensures r.Success? ==>
              && |r.value| == |p.corners|
              && (forall k :: 0 <= k < |r.value| ==> CornerAt(t', l, eps, p, k, r.value[k]))
              && FanAdded(t, t', r.value, scale.x + scale.y + scale.z > 0.0, id, PartFor(bodyGame, groups, PolyVerts(p)))
  {
    var t1, res := IndexCorners(t, l, eps, p);
    if res.Failure? {
      t', r := t1, res;
    } else {
      var f := res.value;
      var positive := scale.x + scale.y + scale.z > 0.0;
      t' := AddTriangles(t1, f, positive, id, bodyGame, groups, PolyVerts(p));
      PolygonDone(t, t1, t', l, eps, p, f, positive, id, PartFor(bodyGame, groups, PolyVerts(p)));
      r := Success(f);
    }
  }

  /** Every triangle so far came from one of the first `n` polygons and
      carries that polygon's body part; every polygon in `missing` is one
      of them and fits no body part; outside Fallout 3 and Skyrim, or
      without groups, every body part is 0. */
  ghost predicate TrisFrom(t: Tables, polys: seq<Poly>, n: nat, bodyGame: bool, groups: seq<BodyPartGroup>)
    requires |t.triPoly| == |t.trilist| && |t.triPart| == |t.trilist|
  {
    && (forall k :: 0 <= k < |t.trilist| ==>
          t.triPoly[k] < n && t.triPoly[k] < |polys| && t.triPart[k] == PartFor(bodyGame, groups, PolyVerts(polys[t.triPoly[k]])))
    && (forall k :: 0 <= k < |t.missing| ==>
          t.missing[k] < n && t.missing[k] < |polys| && PartFor(bodyGame, groups, PolyVerts(polys[t.missing[k]])).None?)
    && (!bodyGame || groups == [] ==> forall k :: 0 <= k < |t.bodyparts| ==> t.bodyparts[k] == 0)
  }

  /** The triangles of polygon `i` keep `TrisFrom`. */
  lemma TrisFromStep(t: Tables, t': Tables, polys: seq<Poly>, i: nat, positive: bool, f: seq<nat>,
                     bodyGame: bool, groups: seq<BodyPartGroup>)
    requires i < |polys| && TrisValid(t) && TrisValid(t') && TrisFrom(t, polys, i, bodyGame, groups)
    requires FanAdded(t, t', f, positive, i, PartFor(bodyGame, groups, PolyVerts(polys[i])))
    ensures TrisFrom(t', polys, i + 1, bodyGame, groups)
  {
    var part := PartFor(bodyGame, groups, PolyVerts(polys[i]));
    forall k | 0 <= k < |t'.trilist|
      ensures t'.triPoly[k] < i + 1 && t'.triPoly[k] < |polys| &&
              t'.triPart[k] == PartFor(bodyGame, groups, PolyVerts(polys[t'.triPoly[k]]))
    {
      if k < |t.trilist| {
        assert t'.triPoly[k] == t.triPoly[k] && t'.triPart[k] == t.triPart[k];
      } else {
        assert t'.triPoly[k] == i && t'.triPart[k] == part;
      }
    }
    forall k | 0 <= k < |t'.missing|
      ensures t'.missing[k] < i + 1 && t'.missing[k] < |polys| && PartFor(bodyGame, groups, PolyVerts(polys[t'.missing[k]])).None?
    {
      if k < |t.missing| {
        assert t'.missing[k] == t.missing[k];
      }
    }
    if !bodyGame || groups == [] {
      assert part == Some(0);
    }
  }

  /** `TrisFrom` for some polygons holds for more of them. */
  lemma TrisFromWiden(t: Tables, polys: seq<Poly>, n: nat, n': nat, bodyGame: bool, groups: seq<BodyPartGroup>)
    requires |t.triPoly| == |t.trilist| && |t.triPart| == |t.trilist|
    requires n <= n' && TrisFrom(t, polys, n, bodyGame, groups)
    ensures TrisFrom(t, polys, n', bodyGame, groups)
  {
  }

  /** One iteration of the loop over the polygons: polygon `i` is skipped
      when it has another material or fewer than three corners, raises
      when it has more than four, and is otherwise indexed and cut into
      triangles. */
  method ExportPolygon(t: Tables, polys: seq<Poly>, i: nat, material: Option<nat>, l: Layers, eps: real,
                       scale: Vec3, bodyGame: bool, groups: seq<BodyPartGroup>) returns (t': Tables, r: Outcome<ExportError>)
    requires i < |polys| && PolyFits(polys[i], l, |t.vertmap|)
    requires TablesValid(t, l, eps) && TrisFrom(t, polys, i, bodyGame, groups)
    ensures TablesValid(t', l, eps) && |t'.vertmap| == |t.vertmap| && TrisFrom(t', polys, i + 1, bodyGame, groups)
    ensures var p := polys[i];
            var kept := Selected(material, p) && |p.corners| >= 3;
            && (r.Pass? ==> !kept ==> t' == t)
            && (r.Pass? ==> kept ==> |p.corners| <= 4 && |t'.trilist| == |t.trilist| + |p.corners| - 2)
            && (r.Pass? ==> forall j :: j in t.missing ==> j in t'.missing)
            && (r.Pass? && kept && PartFor(bodyGame, groups, PolyVerts(p)).None? ==> i in t'.missing)
            && (r.Fail? ==>
                  || (r.error == TooManyVertices && |t'.quads| == 65536)
                  || (r.error == UVLayerIndexError && UVShort(l) && kept)
                  || (r.error == BadFace(|p.corners|) && kept && |p.corners| > 4))
  {
    var p := polys[i];
    TrisFromWiden(t, polys, i, i + 1, bodyGame, groups);
    var n := |p.corners|;
    if !Selected(material, p) || n < 3 {
      t', r := t, Pass;
    } else if n != 3 && n != 4 {
      t', r := t, Fail(BadFace(n));
    } else {
      var res;
      t', res := AddPolygon(t, l, eps, p, i, scale, bodyGame, groups);
      if res.Failure? {
        r := Fail(res.error);
      } else {
        TrisFromStep(t, t', polys, i, scale.x + scale.y + scale.z > 0.0, res.value, bodyGame, groups);
        MissingKept(t, t', res.value, scale.x + scale.y + scale.z > 0.0, i, PartFor(bodyGame, groups, PolyVerts(p)));
        r := Pass;
      }
    }
  }

  /** The vertex count the selected polygons give the triangle list. */
  lemma TriCountStep(polys: seq<Poly>, material: Option<nat>, i: nat)
    requires i < |polys|
    ensures var p := polys[i];
            TriCount(polys[..i + 1], material) ==
              TriCount(polys[..i], material) + (if Selected(material, p) && |p.corners| >= 3 then |p.corners| - 2 else 0)
  {
    assert polys[..i + 1][..i] == polys[..i];
  }

  /** Every selected polygon among the first `n` has at most four
      corners, and is in `missing` when it has three or four and fits no
      body part. */
  ghost predicate Checked(t: Tables, polys: seq<Poly>, n: nat, material: Option<nat>, bodyGame: bool, groups: seq<BodyPartGroup>)
    requires n <= |polys|
  {
    && (forall j :: 0 <= j < n && Selected(material, polys[j]) ==> |polys[j].corners| <= 4)
    && (forall j ::
          (0 <= j < n && Selected(material, polys[j]) && |polys[j].corners| >= 3 &&
           PartFor(bodyGame, groups, PolyVerts(polys[j])).None?) ==> j in t.missing)
  }

  lemma CheckedStep(t: Tables, t': Tables, polys: seq<Poly>, i: nat, material: Option<nat>, bodyGame: bool, groups: seq<BodyPartGroup>)
    requires i < |polys| && Checked(t, polys, i, material, bodyGame, groups)
    requires forall j :: j in t.missing ==> j in t'.missing
    requires var p := polys[i];
             var kept := Selected(material, p) && |p.corners| >= 3;
             && (Selected(material, p) ==> |p.corners| <= 4)
             && (kept && PartFor(bodyGame, groups, PolyVerts(p)).None? ==> i in t'.missing)
    ensures Checked(t', polys, i + 1, material, bodyGame, groups)
  {
  }

  /** The pass over the polygons of one material (of every polygon when
      `material` is None): polygons of other materials and with fewer than
      three corners are skipped, one with more than four stops the pass;
      afterwards a polygon without a body part, or more than 65535
      triangles, is an error.  `scale` is the object's scale. */
  method ExportPolygons(numVerts: nat, polys: seq<Poly>, material: Option<nat>, l: Layers, eps: real,
                        scale: Vec3, bodyGame: bool, groups: seq<BodyPartGroup>) returns (t: Tables, r: Outcome<ExportError>)
    requires forall i :: 0 <= i < |polys| ==> PolyFits(polys[i], l, numVerts)
    ensures TablesValid(t, l, eps) && |t.vertmap| == numVerts
    ensures TrisFrom(t, polys, |polys|, bodyGame, groups)
    ensures r.Pass? ==>
              && (forall i :: 0 <= i < |polys| && Selected(material, polys[i]) ==> |polys[i].corners| <= 4)
              && (forall i :: 0 <= i < |polys| && Selected(material, polys[i]) && |polys[i].corners| >= 3 ==>
                    PartFor(bodyGame, groups, PolyVerts(polys[i])).Some?)
              && |t.trilist| == TriCount(polys, material) <= 65535
              && |t.bodyparts| == |t.trilist|
              && (forall k :: 0 <= k < |t.trilist| ==>
                    Some(t.bodyparts[k]) == PartFor(bodyGame, groups, PolyVerts(polys[t.triPoly[k]])))
    ensures r.Fail? ==>
              || (r.error == TooManyVertices && |t.quads| == 65536)
              || (r.error == UVLayerIndexError && UVShort(l))
              || (r.error.BadFace? && r.error.numVerts > 4 &&
                  exists i :: 0 <= i < |polys| && Selected(material, polys[i]) && |polys[i].corners| == r.error.numVerts)
              || (r.error.PolygonsWithoutBodyPart? && r.error.polys == t.missing != [])
              || (r.error == TooManyPolygons && |t.trilist| > 65535)
  {
    t, r := ScanPolygons(numVerts, polys, material, l, eps, scale, bodyGame, groups);
    if r.Pass? {
      if t.missing != [] {
        r := Fail(PolygonsWithoutBodyPart(t.missing));
      } else if |t.trilist| > 65535 {
        r := Fail(TooManyPolygons);
      } else {
        AllPartsFound(t, polys, bodyGame, groups);
      }
    }
  }

  /** The loop over the polygons: each is exported in turn until one
      raises. */
  method ScanPolygons(numVerts: nat, polys: seq<Poly>, material: Option<nat>, l: Layers, eps: real,
                      scale: Vec3, bodyGame: bool, groups: seq<BodyPartGroup>) returns (t: Tables, r: Outcome<ExportError>)
    requires forall i :: 0 <= i < |polys| ==> PolyFits(polys[i], l, numVerts)
    ensures TablesValid(t, l, eps) && |t.vertmap| == numVerts
    ensures TrisFrom(t, polys, |polys|, bodyGame, groups)
    ensures r.Pass? ==> |t.trilist| == TriCount(polys, material) && Checked(t, polys, |polys|, material, bodyGame, groups)
    ensures r.Fail? ==>
              || (r.error == TooManyVertices && |t.quads| == 65536)
              || (r.error == UVLayerIndexError && UVShort(l))
              || (r.error.BadFace? && r.error.numVerts > 4 &&
                  exists i :: 0 <= i < |polys| && Selected(material, polys[i]) && |polys[i].corners| == r.error.numVerts)
  {
    NoTablesValid(numVerts, l, eps);
    t := NoTables(numVerts);
    var i := 0;
    while i < |polys|
      invariant 0 <= i <= |polys|
      invariant Scanned(t, polys, i, material, l, eps, numVerts, bodyGame, groups)
    {
      var res;
      t, res := ScanPolygon(t, polys, i, material, l, eps, numVerts, scale, bodyGame, groups);
      if res.Fail? {
        r := res;
        break;
      }
      i := i + 1;
    }
    if i == |polys| {
      assert polys[..i] == polys;
      r := Pass;
    }
  }

  /** One turn of the loop over the polygons: on success the first `i + 1`
      are scanned, on failure the error is one `export_polygons` raises. */
  method ScanPolygon(t: Tables, polys: seq<Poly>, i: nat, material: Option<nat>, l: Layers, eps: real,
                     numVerts: nat, scale: Vec3, bodyGame: bool, groups: seq<BodyPartGroup>) returns (t': Tables, r: Outcome<ExportError>)
    requires i < |polys| && PolyFits(polys[i], l, numVerts)
    requires Scanned(t, polys, i, material, l, eps, numVerts, bodyGame, groups)
    ensures r.Pass? ==> Scanned(t', polys, i + 1, material, l, eps, numVerts, bodyGame, groups)
    ensures r.Fail? ==> TablesValid(t', l, eps) && |t'.vertmap| == numVerts && TrisFrom(t', polys, |polys|, bodyGame, groups)
    ensures r.Fail? ==>
              || (r.error == TooManyVertices && |t'.quads| == 65536)
              || (r.error == UVLayerIndexError && UVShort(l))
              || (r.error.BadFace? && r.error.numVerts > 4 &&
                  exists i :: 0 <= i < |polys| && Selected(material, polys[i]) && |polys[i].corners| == r.error.numVerts)
  {
    t', r := ExportPolygon(t, polys, i, material, l, eps, scale, bodyGame, groups);
    if r.Fail? {
      ScanFail(t', polys, i, material, l, bodyGame, groups, r);
    } else {
      ScanStep(t, t', polys, i, material, l, eps, numVerts, bodyGame, groups);
    }
  }

  /** What the loop over the polygons keeps after the first `i`. */
  ghost predicate Scanned(t: Tables, polys: seq<Poly>, i: nat, material: Option<nat>, l: Layers, eps: real,
                          numVerts: nat, bodyGame: bool, groups: seq<BodyPartGroup>)
    requires i <= |polys|
  {
    && TablesValid(t, l, eps) && |t.vertmap| == numVerts
    && |t.trilist| == TriCount(polys[..i], material)
    && TrisFrom(t, polys, i, bodyGame, groups)
    && Checked(t, polys, i, material, bodyGame, groups)
  }

  /** A polygon that passes keeps `Scanned` for one more polygon. */
  lemma {:induction false} ScanStep(t: Tables, t': Tables, polys: seq<Poly>, i: nat, material: Option<nat>, l: Layers, eps: real,
                 numVerts: nat, bodyGame: bool, groups: seq<BodyPartGroup>)
    requires i < |polys| && Scanned(t, polys, i, material, l, eps, numVerts, bodyGame, groups)
    requires TablesValid(t', l, eps) && |t'.vertmap| == |t.vertmap| && TrisFrom(t', polys, i + 1, bodyGame, groups)
    requires var p := polys[i];
             var kept := Selected(material, p) && |p.corners| >= 3;
             && (!kept ==> t' == t)
             && (kept ==> |p.corners| <= 4 && |t'.trilist| == |t.trilist| + |p.corners| - 2)
             && (forall j :: j in t.missing ==> j in t'.missing)
             && (kept && PartFor(bodyGame, groups, PolyVerts(p)).None? ==> i in t'.missing)
    requires Selected(material, polys[i]) ==> |polys[i].corners| <= 4
    ensures Scanned(t', polys, i + 1, material, l, eps, numVerts, bodyGame, groups)
  {
    TriCountStep(polys, material, i);
    CheckedStep(t, t', polys, i, material, bodyGame, groups);
  }

  /** A polygon that raises ends the loop with one of its errors. */
  lemma ScanFail(t: Tables, polys: seq<Poly>, i: nat, material: Option<nat>, l: Layers,
                 bodyGame: bool, groups: seq<BodyPartGroup>, r: Outcome<ExportError>)
    requires i < |polys| && |t.triPoly| == |t.trilist| && |t.triPart| == |t.trilist|
    requires TrisFrom(t, polys, i + 1, bodyGame, groups)
    requires r.Fail?
    requires var p := polys[i];
             var kept := Selected(material, p) && |p.corners| >= 3;
             || (r.error == TooManyVertices && |t.quads| == 65536)
             || (r.error == UVLayerIndexError && UVShort(l) && kept)
             || (r.error == BadFace(|p.corners|) && kept && |p.corners| > 4)
    ensures TrisFrom(t, polys, |polys|, bodyGame, groups)
    ensures || (r.error == TooManyVertices && |t.quads| == 65536)
            || (r.error == UVLayerIndexError && UVShort(l))
            || (r.error.BadFace? && r.error.numVerts > 4 &&
                exists i :: 0 <= i < |polys| && Selected(material, polys[i]) && |polys[i].corners| == r.error.numVerts)
  {
    TrisFromWiden(t, polys, i + 1, |polys|, bodyGame, groups);
  }

  /** With no polygon missing, `bodypartfacemap` has the body part of
      every triangle. */
  lemma AllPartsFound(t: Tables, polys: seq<Poly>, bodyGame: bool, groups: seq<BodyPartGroup>)
    requires TrisValid(t) && TrisFrom(t, polys, |polys|, bodyGame, groups) && t.missing == []
    ensures |t.bodyparts| == |t.trilist|
    ensures forall k :: 0 <= k < |t.trilist| ==> Some(t.bodyparts[k]) == PartFor(bodyGame, groups, PolyVerts(polys[t.triPoly[k]]))
  {
    PresentFull(t.triPart);
  }

  /** A polygon in `missing` stays there, and one whose part is missing is added. */
  lemma MissingKept(t: Tables, t': Tables, f: seq<nat>, positive: bool, i: nat, part: Option<nat>)
    requires FanAdded(t, t', f, positive, i, part)
    ensures forall j :: j in t.missing ==> j in t'.missing
    ensures part.None? && |f| > 2 ==> i in t'.missing
  {
    if part.None? && |f| > 2 {
      assert t'.missing[|t.missing|] == i;
    }
  }
}
