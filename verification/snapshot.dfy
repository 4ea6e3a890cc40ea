/** The earlier, fixed-depth version of the model kept in `src/cityjson.rs`:
    boundaries and appearance values are parsed at the depth their geometry
    type prescribes, new vertex ids start at a scope offset, and the
    appearance store deduplicates whole values. The file is not part of the
    library's module tree; it is modelled on its own terms. */
module Snapshot {
  import opened Wrappers
  import opened Json
  import opened Remap
  import opened NestedArrays
  import opened Geometries
  import opened Documents
  import opened Sequences

  // ---------------------------------------------------------------------
  // Data model
  // ---------------------------------------------------------------------

  /** `Texture`: per ring, a texture id then uv ids. */
  datatype SnapTexture = SnapTexture(values: Option<NestedArray<Option<nat>>>)

  /** `Geometry`: the type is a free string, and boundaries are held as the
      nested array their JSON denotes. The material and texture maps are
      their (theme, value) pairs in iteration order; a material is the
      library's `MaterialReference`, one id or nested ids. */
  datatype SnapGeometry = SnapGeometry(
    thetype: string,
    lod: string,
    boundaries: NestedArray<nat>,
    semantics: Option<Json>,
    material: Option<seq<(string, MaterialReference)>>,
    texture: Option<seq<(string, SnapTexture)>>)

  datatype SnapCityObject = SnapCityObject(
    thetype: string,
    geographicalExtent: Option<seq<real>>,
    attributes: Option<Json>,
    geometry: Option<seq<SnapGeometry>>,
    children: Option<seq<string>>,
    parents: Option<seq<string>>,
    other: Json)

  /** `Appearance`: materials and textures are whole JSON values. */
  datatype SnapAppearance = SnapAppearance(
    materials: Option<seq<Json>>,
    textures: Option<seq<Json>>,
    verticesTexture: Option<seq<seq<real>>>,
    defaultThemeTexture: Option<string>,
    defaultThemeMaterial: Option<string>)

  const EmptySnapAppearance := SnapAppearance(None, None, None, None, None)

  datatype SnapCityJSON = SnapCityJSON(
    thetype: string,
    version: string,
    transform: Json,
    cityObjects: map<string, SnapCityObject>,
    vertices: seq<Vertex>,
    metadata: Option<Json>,
    appearance: Option<SnapAppearance>,
    geometryTemplates: Option<Json>,
    extensions: Option<Json>,
    other: Json)

  datatype SnapFeature = SnapFeature(
    thetype: string,
    id: string,
    cityObjects: map<string, SnapCityObject>,
    vertices: seq<Vertex>,
    appearance: Option<SnapAppearance>)

  /** The panics of the snapshot the model can reach:
      `serde_json::from_value(..).unwrap()` on a value of the wrong depth,
      and an index of `a2` out of range. A leaf that is not an unsigned
      integer makes `from_value` fail as well, but the typed boundaries and
      values above cannot hold one. */
  datatype SnapError = ShapeMismatch | IndexOutOfBounds

  // ---------------------------------------------------------------------
  // City objects
  // ---------------------------------------------------------------------

  /** `CityObject::is_toplevel` */
  predicate SnapIsToplevel(co: SnapCityObject) {
    co.parents.None? || |co.parents.value| == 0
  }

  /** `CityObject::get_children_keys` */
  function SnapChildrenKeys(co: SnapCityObject): (r: seq<string>)
    ensures co.children.Some? ==> r == co.children.value
    ensures co.children.None? ==> r == []
  {
    match co.children
    case Some(cs) => cs
    case None => []
  }

  /** `CityJSON::get_empty_copy`: no objects, no vertices, no appearance;
      every other member copied. */
  function GetEmptyCopy(doc: SnapCityJSON): (r: SnapCityJSON)
    ensures r.cityObjects == map[] && r.vertices == [] && r.appearance.None?
  {
    doc.(cityObjects := map[], vertices := [], appearance := None)
  }

  /** The empty copy keeps the header: two documents with the same header
      have the same empty copy, and copying twice is copying once. */
  lemma GetEmptyCopySpec(doc: SnapCityJSON, other: SnapCityJSON)
    ensures GetEmptyCopy(GetEmptyCopy(doc)) == GetEmptyCopy(doc)
    ensures GetEmptyCopy(doc) == GetEmptyCopy(other) <==>
      && doc.thetype == other.thetype && doc.version == other.version
      && doc.transform == other.transform && doc.metadata == other.metadata
      && doc.geometryTemplates == other.geometryTemplates
      && doc.extensions == other.extensions && doc.other == other.other
  {
  }

  // ---------------------------------------------------------------------
  // Fixed-depth parsing
  // ---------------------------------------------------------------------

  /** `b` is what `from_value::<Vec<..<Vec<T>>..>>` with `d` levels accepts:
      lists of lists down to one list of leaves; an empty list fits any
      depth. */
  predicate Fits<T>(b: NestedArray<T>, d: nat)
    decreases b
  {
    if d <= 1 then d == 1 && b.Indices?
    else
      match b
      case Indices(xs) => |xs| == 0
      case Nested(bs) => forall i :: 0 <= i < |bs| ==> Fits(bs[i], d - 1)
  }

  // ---------------------------------------------------------------------
  // Vertex renumbering
  // ---------------------------------------------------------------------

  /** The depth at which `update_geometry_boundaries` reads each type, `0`
      for types it leaves alone. */
  function BoundaryLevels(thetype: string): (d: nat)
    ensures d <= 5
  {
    if thetype == "MultiPoint" then 1
    else if thetype == "MultiLineString" then 2
    else if thetype == "MultiSurface" || thetype == "CompositeSurface" then 3
    else if thetype == "Solid" then 4
    else if thetype == "MultiSolid" || thetype == "CompositeSolid" then 5
    else 0
  }

  /** The loop over one ring of a Solid. An unseen id gets `len + offset`,
      which then shadows the loop index, so it is written at position
      `len + offset` of the ring; a seen id is written at its own position. */
  function SolidRing(z: seq<nat>, out: seq<nat>, l: nat, t: Table, offset: nat): (r: Result<(seq<nat>, Table), SnapError>)
    requires |out| == |z|
    ensures r.Success? ==> |r.value.0| == |z|
    decreases |z| - l
  {
    if l >= |z| then Success((out, t))
    else if z[l] !in t then
      var id: nat := |t| + offset;
      if id < |out| then SolidRing(z, out[id := id], l + 1, t[z[l] := id], offset)
      else Failure(IndexOutOfBounds)
    else SolidRing(z, out[l := t[z[l]]], l + 1, t, offset)
  }

  /** The loops over the rings `l` and vertices `m` of one surface of a
      MultiSolid. An unseen id shadows `l`, so it is written at ring
      `len + offset`, position `m`. */
  function SurfaceRings(rings: seq<seq<nat>>, out: seq<seq<nat>>, l: nat, t: Table, offset: nat): (r: Result<(seq<seq<nat>>, Table), SnapError>)
    requires |out| == |rings| && forall i :: 0 <= i < |rings| ==> |out[i]| == |rings[i]|
    ensures r.Success? ==> |r.value.0| == |rings| && forall i :: 0 <= i < |rings| ==> |r.value.0[i]| == |rings[i]|
    decreases |rings| - l
  {
    if l >= |rings| then Success((out, t))
    else
      match SurfaceRing(rings[l], l, 0, out, t, offset)
      case Failure(e) => Failure(e)
      case Success(p) => SurfaceRings(rings, p.0, l + 1, p.1, offset)
  }

  function SurfaceRing(ring: seq<nat>, l: nat, m: nat, out: seq<seq<nat>>, t: Table, offset: nat): (r: Result<(seq<seq<nat>>, Table), SnapError>)
    requires l < |out| && |out[l]| == |ring|
    ensures r.Success? ==> |r.value.0| == |out| && forall i :: 0 <= i < |out| ==> |r.value.0[i]| == |out[i]|
    decreases |ring| - m
  {
    if m >= |ring| then Success((out, t))
    else if ring[m] !in t then
      var id: nat := |t| + offset;
      if id < |out| && m < |out[id]| then
        var row: seq<nat> := out[id][m := id];
        SurfaceRing(ring, l, m + 1, out[id := row], t[ring[m] := id], offset)
      else Failure(IndexOutOfBounds)
    else
      var row: seq<nat> := out[l][m := t[ring[m]]];
      SurfaceRing(ring, l, m + 1, out[l := row], t, offset)
  }

  /** The lists of leaves of the sub-arrays of a surface. */
  function RingsOf(bs: seq<NestedArray<nat>>): (r: seq<seq<nat>>)
    requires forall i :: 0 <= i < |bs| ==> bs[i].Indices?
    ensures |r| == |bs| && forall i :: 0 <= i < |bs| ==> r[i] == bs[i].items
  {
    seq(|bs|, i requires 0 <= i < |bs| => bs[i].items)
  }

  function IndicesOf(rs: seq<seq<nat>>): (r: seq<NestedArray<nat>>)
    ensures |r| == |rs| && forall i :: 0 <= i < |rs| ==> r[i] == Indices(rs[i])
  {
    seq(|rs|, i requires 0 <= i < |rs| => Indices(rs[i]))
  }

  /** The block each quirky branch rewrites: a ring of a Solid (`surface ==
      false`), a surface of a MultiSolid (`surface == true`). */
  function QuirkBlock(b: NestedArray<nat>, t: Table, offset: nat, surface: bool): Result<(NestedArray<nat>, Table), SnapError> {
    match b
    case Indices(z) =>
      if surface then Success((b, t))
      else
        (match SolidRing(z, z, 0, t, offset)
         case Failure(e) => Failure(e)
         case Success(p) => Success((Indices(p.0), p.1)))
    case Nested(bs) =>
      if !surface || !(forall i :: 0 <= i < |bs| ==> bs[i].Indices?) then Success((b, t))
      else
        var rs := RingsOf(bs);
        match SurfaceRings(rs, rs, 0, t, offset)
        case Failure(e) => Failure(e)
        case Success(p) => Success((Nested(IndicesOf(p.0)), p.1))
  }

  /** The outer loops of the quirky branches: every block `lvl` levels down
      is rewritten in order, the first panic ending the pass. */
  function QuirkAt(b: NestedArray<nat>, lvl: nat, t: Table, offset: nat, surface: bool): Result<(NestedArray<nat>, Table), SnapError>
    decreases b, 1
  {
    if lvl == 0 then QuirkBlock(b, t, offset, surface)
    else
      match b
      case Indices(_) => Success((b, t))
      case Nested(bs) =>
        match QuirkAtAll(bs, lvl - 1, t, offset, surface)
        case Failure(e) => Failure(e)
        case Success(p) => Success((Nested(p.0), p.1))
  }

  function QuirkAtAll(bs: seq<NestedArray<nat>>, lvl: nat, t: Table, offset: nat, surface: bool): Result<(seq<NestedArray<nat>>, Table), SnapError>
    decreases bs, 0
  {
    if |bs| == 0 then Success(([], t))
    else
      match QuirkAt(bs[0], lvl, t, offset, surface)
      case Failure(e) => Failure(e)
      case Success(p) =>
        match QuirkAtAll(bs[1..], lvl, p.1, offset, surface)
        case Failure(e) => Failure(e)
        case Success(q) => Success(([p.0] + q.0, q.1))
  }

  /** `Geometry::update_geometry_boundaries(violdnew, offset)`, as written:
      the point, line and surface branches renumber first-seen-wins with new
      ids from `len + offset`; the Solid and MultiSolid branches carry the
      shadowed index; other types are left alone. */
  function SnapUpdateBoundaries(g: SnapGeometry, t: Table, offset: nat): (r: Result<(SnapGeometry, Table), SnapError>)
    ensures r.Success? ==> r.value.0 == g.(boundaries := r.value.0.boundaries)
    ensures BoundaryLevels(g.thetype) > 0 && !Fits(g.boundaries, BoundaryLevels(g.thetype)) ==> r == Failure(ShapeMismatch)
  {
    var d := BoundaryLevels(g.thetype);
    if d == 0 then Success((g, t))
    else if !Fits(g.boundaries, d) then Failure(ShapeMismatch)
    else if d <= 3 then
      var p := Renumber(g.boundaries, t, offset);
      Success((g.(boundaries := p.0), p.1))
    else
      match QuirkAt(g.boundaries, 3, t, offset, d == 5)
      case Failure(e) => Failure(e)
      case Success(p) => Success((g.(boundaries := p.0), p.1))
  }

  /** The branches the snapshot gets right: for points, lines and surfaces
      every leaf becomes the final table's value for it, the shape is kept,
      recorded ids keep their value, and a table dense from `offset` stays
      dense, so unseen ids take `offset`, `offset + 1`, ... in order. */
  lemma SnapUpdateBoundariesSpec(g: SnapGeometry, t: Table, offset: nat)
    requires 1 <= BoundaryLevels(g.thetype) <= 3 && Fits(g.boundaries, BoundaryLevels(g.thetype))
    ensures SnapUpdateBoundaries(g, t, offset).Success?
    ensures var r := SnapUpdateBoundaries(g, t, offset).value;
      && ShapeOf(r.0.boundaries) == ShapeOf(g.boundaries)
      && |Leaves(r.0.boundaries)| == |Leaves(g.boundaries)|
      && (forall i :: 0 <= i < |Leaves(g.boundaries)| ==>
            Leaves(g.boundaries)[i] in r.1 && Leaves(r.0.boundaries)[i] == r.1[Leaves(g.boundaries)[i]])
      && Extends(t, r.1)
      && (forall k :: k in r.1 ==> k in t || k in Leaves(g.boundaries))
      && (DenseFrom(t, offset) ==> DenseFrom(r.1, offset))
  {
    RenumberSpec(g.boundaries, t, offset);
  }

  /** The Solid of one shell holding the surfaces `[0, 1, 2]` and
      `[0, 1, 3]`. */
  function TwoTriangleSolid(): SnapGeometry {
    SnapGeometry("Solid", "2", Nested([Nested([Nested([Indices([0, 1, 2]), Indices([0, 1, 3])])])]), None, None, None)
  }

  lemma SolidRingFirst()
    ensures SolidRing([0, 1, 2], [0, 1, 2], 0, map[], 0) == Success(([0, 1, 2], map[0 := 0, 1 := 1, 2 := 2]))
  {
    var z: seq<nat> := [0, 1, 2];
    var t0: Table := map[];
    var t1: Table := map[0 := 0];
    var t2: Table := map[0 := 0, 1 := 1];
    assert |t0| == 0 && |t1| == 1 && |t2| == 2;
    assert z[0 := 0] == z && z[1 := 1] == z && z[2 := 2] == z;
    assert SolidRing(z, z, 0, t0, 0) == SolidRing(z, z, 1, t1, 0);
    assert SolidRing(z, z, 1, t1, 0) == SolidRing(z, z, 2, t2, 0);
    assert SolidRing(z, z, 2, t2, 0) == SolidRing(z, z, 3, t2[2 := 2], 0);
  }

  lemma SolidRingSecond()
    ensures SolidRing([0, 1, 3], [0, 1, 3], 0, map[0 := 0, 1 := 1, 2 := 2], 0) == Failure(IndexOutOfBounds)
  {
    var z: seq<nat> := [0, 1, 3];
    var t: Table := map[0 := 0, 1 := 1, 2 := 2];
    assert |t| == 3;
    assert SolidRing(z, z, 0, t, 0) == SolidRing(z, z, 1, t, 0);
    assert SolidRing(z, z, 1, t, 0) == SolidRing(z, z, 2, t, 0);
  }

  /** A failure of the quirk pass on well-shaped Solid or MultiSolid
      boundaries is the failure of the whole update. */
  lemma QuirkFailsUpdate(g: SnapGeometry, t: Table, offset: nat, e: SnapError)
    requires BoundaryLevels(g.thetype) > 3 && Fits(g.boundaries, BoundaryLevels(g.thetype))
    requires QuirkAt(g.boundaries, 3, t, offset, BoundaryLevels(g.thetype) == 5) == Failure(e)
    ensures SnapUpdateBoundaries(g, t, offset) == Failure(e)
  {
  }

  /** The Solid branch as written panics on an ordinary Solid: the fourth
      distinct vertex gets id 3, which is written at position 3 of a ring
      of three. */
  lemma SolidBranchPanics()
    ensures Fits(TwoTriangleSolid().boundaries, 4)
    ensures SnapUpdateBoundaries(TwoTriangleSolid(), map[], 0) == Failure(IndexOutOfBounds)
  {
    TwoTriangleSolidFits();
    TwoTriangleSolidQuirk();
    assert BoundaryLevels("Solid") == 4;
    QuirkFailsUpdate(TwoTriangleSolid(), map[], 0, IndexOutOfBounds);
  }

  lemma TwoTriangleSolidFits()
    ensures Fits(TwoTriangleSolid().boundaries, 4)
  {
    var r1 := Indices([0, 1, 2]);
    var r2 := Indices([0, 1, 3]);
    var surf := Nested([r1, r2]);
    assert Fits(surf, 2) by {
      assert Fits(r1, 1) && Fits(r2, 1);
    }
    assert Fits(Nested([surf]), 3);
  }

  lemma TwoTriangleSolidQuirk()
    ensures QuirkAt(TwoTriangleSolid().boundaries, 3, map[], 0, false) == Failure(IndexOutOfBounds)
  {
    var surf := Nested([Indices([0, 1, 2]), Indices([0, 1, 3])]);
    SolidRingsFail();
    QuirkNestFails([Indices([0, 1, 2]), Indices([0, 1, 3])], 1, map[], 0, false, IndexOutOfBounds);
    QuirkOneFails(surf, 1, map[], 0, false, IndexOutOfBounds);
    QuirkNestFails([surf], 2, map[], 0, false, IndexOutOfBounds);
    QuirkOneFails(Nested([surf]), 2, map[], 0, false, IndexOutOfBounds);
    QuirkNestFails([Nested([surf])], 3, map[], 0, false, IndexOutOfBounds);
  }

  /** The two rings of the Solid: the first fills ids 0 to 2, the second
      writes id 3 past its end. */
  lemma SolidRingsFail()
    ensures QuirkAtAll([Indices([0, 1, 2]), Indices([0, 1, 3])], 0, map[], 0, false) == Failure(IndexOutOfBounds)
  {
    var r1 := Indices([0, 1, 2]);
    var r2 := Indices([0, 1, 3]);
    SolidRingFirst();
    SolidRingSecond();
    assert [r1, r2][1..] == [r2];
    assert QuirkAtAll([r2], 0, map[0 := 0, 1 := 1, 2 := 2], 0, false) == Failure(IndexOutOfBounds);
  }

  /** A failure below a level is a failure at that level. */
  lemma QuirkNestFails(bs: seq<NestedArray<nat>>, lvl: nat, t: Table, offset: nat, surface: bool, e: SnapError)
    requires lvl > 0 && QuirkAtAll(bs, lvl - 1, t, offset, surface) == Failure(e)
    ensures QuirkAt(Nested(bs), lvl, t, offset, surface) == Failure(e)
  {
  }

  /** A failing first child fails the list. */
  lemma QuirkOneFails(b: NestedArray<nat>, lvl: nat, t: Table, offset: nat, surface: bool, e: SnapError)
    requires QuirkAt(b, lvl, t, offset, surface) == Failure(e)
    ensures QuirkAtAll([b], lvl, t, offset, surface) == Failure(e)
  {
    assert [b][0] == b;
  }

  /** `update_geometry_boundaries` as evidently intended: every type read
      at its depth is renumbered first-seen-wins, the Solid and MultiSolid
      branches writing each id at its own position. */
  function SnapUpdateBoundariesCorrected(g: SnapGeometry, t: Table, offset: nat): (r: Result<(SnapGeometry, Table), SnapError>)
    ensures r.Success? ==> r.value.0 == g.(boundaries := r.value.0.boundaries)
    ensures r.Failure? <==> BoundaryLevels(g.thetype) > 0 && !Fits(g.boundaries, BoundaryLevels(g.thetype))
  {
    var d := BoundaryLevels(g.thetype);
    if d == 0 then Success((g, t))
    else if !Fits(g.boundaries, d) then Failure(ShapeMismatch)
    else
      var p := Renumber(g.boundaries, t, offset);
      Success((g.(boundaries := p.0), p.1))
  }

  /** The corrected pass agrees with the snapshot wherever the snapshot is
      right. */
  lemma SnapUpdateBoundariesCorrectedAgrees(g: SnapGeometry, t: Table, offset: nat)
    requires BoundaryLevels(g.thetype) <= 3
    ensures SnapUpdateBoundariesCorrected(g, t, offset) == SnapUpdateBoundaries(g, t, offset)
  {
  }

  /** For every type, including Solid and MultiSolid, the corrected pass
      never fails on well-shaped boundaries, keeps the shape, maps every
      leaf through the final table, and keeps a table dense from `offset`
      dense. */
  lemma SnapUpdateBoundariesCorrectedSpec(g: SnapGeometry, t: Table, offset: nat)
    requires BoundaryLevels(g.thetype) > 0 && Fits(g.boundaries, BoundaryLevels(g.thetype))
    ensures SnapUpdateBoundariesCorrected(g, t, offset).Success?
    ensures var r := SnapUpdateBoundariesCorrected(g, t, offset).value;
      && ShapeOf(r.0.boundaries) == ShapeOf(g.boundaries)
      && |Leaves(r.0.boundaries)| == |Leaves(g.boundaries)|
      && (forall i :: 0 <= i < |Leaves(g.boundaries)| ==>
            Leaves(g.boundaries)[i] in r.1 && Leaves(r.0.boundaries)[i] == r.1[Leaves(g.boundaries)[i]])
      && Extends(t, r.1)
      && (DenseFrom(t, offset) ==> DenseFrom(r.1, offset))
  {
    RenumberSpec(g.boundaries, t, offset);
  }

  /** The Solid on which the snapshot panics is renumbered by the corrected
      pass. */
  lemma SolidRenumberedWhenCorrected()
    ensures SnapUpdateBoundariesCorrected(TwoTriangleSolid(), map[], 0).Success?
  {
    SolidBranchPanics();
  }

  /** The MultiSolid of one surface with the one ring `[0, 1, 2]`. */
  function OneRingMultiSolid(): SnapGeometry {
    SnapGeometry("MultiSolid", "2", Nested([Nested([Nested([Nested([Indices([0, 1, 2])])])])]), None, None, None)
  }

  lemma OneRingSurface()
    ensures SurfaceRings([[0, 1, 2]], [[0, 1, 2]], 0, map[], 0) == Failure(IndexOutOfBounds)
  {
    var ring: seq<nat> := [0, 1, 2];
    var out: seq<seq<nat>> := [ring];
    var t1: Table := map[0 := 0];
    assert |t1| == 1;
    assert out[0][0 := 0] == ring && out[0 := ring] == out;
    assert SurfaceRing(ring, 0, 0, out, map[], 0) == SurfaceRing(ring, 0, 1, out, t1, 0);
    assert SurfaceRing(ring, 0, 1, out, t1, 0) == Failure(IndexOutOfBounds);
  }

  /** The MultiSolid branch as written panics on a surface of one ring: the
      second distinct vertex gets id 1 and is written into ring 1, which
      does not exist. */
  lemma MultiSolidBranchPanics()
    ensures Fits(OneRingMultiSolid().boundaries, 5)
    ensures SnapUpdateBoundaries(OneRingMultiSolid(), map[], 0) == Failure(IndexOutOfBounds)
  {
    OneRingMultiSolidFits();
    OneRingMultiSolidQuirk();
    assert BoundaryLevels("MultiSolid") == 5;
    QuirkFailsUpdate(OneRingMultiSolid(), map[], 0, IndexOutOfBounds);
  }

  lemma OneRingMultiSolidFits()
    ensures Fits(OneRingMultiSolid().boundaries, 5)
  {
    var ring := Indices([0, 1, 2]);
    var surface := Nested([ring]);
    var shell := Nested([surface]);
    var solid := Nested([shell]);
    assert Fits(ring, 1);
    assert Fits(surface, 2);
    assert Fits(shell, 3);
    assert Fits(solid, 4);
  }

  lemma OneRingMultiSolidQuirk()
    ensures QuirkAt(OneRingMultiSolid().boundaries, 3, map[], 0, true) == Failure(IndexOutOfBounds)
  {
    var ring := Indices([0, 1, 2]);
    var surface := Nested([ring]);
    var shell := Nested([surface]);
    var solid := Nested([shell]);
    OneRingSurface();
    assert RingsOf([ring]) == [[0, 1, 2]];
    assert QuirkBlock(surface, map[], 0, true) == Failure(IndexOutOfBounds);
    QuirkOneFails(surface, 0, map[], 0, true, IndexOutOfBounds);
    QuirkNestFails([surface], 1, map[], 0, true, IndexOutOfBounds);
    QuirkOneFails(shell, 1, map[], 0, true, IndexOutOfBounds);
    QuirkNestFails([shell], 2, map[], 0, true, IndexOutOfBounds);
    QuirkOneFails(solid, 2, map[], 0, true, IndexOutOfBounds);
    QuirkNestFails([solid], 3, map[], 0, true, IndexOutOfBounds);
  }

  // ---------------------------------------------------------------------
  // Material renumbering
  // ---------------------------------------------------------------------

  /** The depth at which `update_material` reads `values`, `0` for the
      types whose `values` it leaves alone. */
  function MaterialLevels(thetype: string): (d: nat)
    ensures d <= 3
  {
    if thetype == "MultiSurface" || thetype == "CompositeSurface" then 1
    else if thetype == "Solid" then 2
    else if thetype == "MultiSolid" || thetype == "CompositeSolid" then 3
    else 0
  }

  /** A theme whose `values` the pass parses and cannot. */
  predicate MaterialMisfit(m: MaterialReference, d: nat) {
    m.value.None? && m.values.Some? && d > 0 && !Fits(m.values.value, d)
  }

  /** One theme: a present `value` is renumbered and `values` skipped;
      otherwise `values` is parsed at depth `d` and renumbered; new ids are
      the table's size. */
  function SnapUpdateMaterialRef(m: MaterialReference, t: Table, d: nat): (r: Result<(MaterialReference, Table), SnapError>)
    ensures r.Failure? <==> MaterialMisfit(m, d)
  {
    if m.value.Some? then
      var p := Resolve(t, m.value.value, 0);
      Success((m.(value := Some(p.0)), p.1))
    else if d == 0 || m.values.None? then Success((m, t))
    else if !Fits(m.values.value, d) then Failure(ShapeMismatch)
    else
      var p := RenumberMaterialValues(m.values.value, t);
      Success((m.(values := Some(p.0)), p.1))
  }

  function SnapUpdateMaterialThemes(ths: seq<(string, MaterialReference)>, t: Table, d: nat): (r: Result<(seq<(string, MaterialReference)>, Table), SnapError>)
    decreases |ths|
  {
    if |ths| == 0 then Success(([], t))
    else
      match SnapUpdateMaterialRef(ths[0].1, t, d)
      case Failure(e) => Failure(e)
      case Success(p) =>
        match SnapUpdateMaterialThemes(ths[1..], p.1, d)
        case Failure(e) => Failure(e)
        case Success(q) => Success(([(ths[0].0, p.0)] + q.0, q.1))
  }

  /** `Geometry::update_material(m_oldnew)` */
  function SnapUpdateMaterial(g: SnapGeometry, t: Table): (r: Result<(SnapGeometry, Table), SnapError>)
    ensures r.Success? ==> r.value.0 == g.(material := r.value.0.material)
  {
    match g.material
    case None => Success((g, t))
    case Some(ths) =>
      match SnapUpdateMaterialThemes(ths, t, MaterialLevels(g.thetype))
      case Failure(e) => Failure(e)
      case Success(p) => Success((g.(material := Some(p.0)), p.1))
  }

  /** On a theme it can parse, the snapshot does what the library's
      material pass does. */
  lemma SnapUpdateMaterialRefAgrees(m: MaterialReference, t: Table, d: nat)
    requires d > 0 && !MaterialMisfit(m, d)
    ensures SnapUpdateMaterialRef(m, t, d) == Success(UpdateMaterialRef(m, t))
  {
  }

  /** The theme loop fails exactly when some theme cannot be parsed, and
      otherwise agrees with the library's. */
  lemma {:induction false} SnapUpdateMaterialThemesAgrees(ths: seq<(string, MaterialReference)>, t: Table, d: nat)
    requires d > 0
    ensures SnapUpdateMaterialThemes(ths, t, d).Failure? <==> exists i :: 0 <= i < |ths| && MaterialMisfit(ths[i].1, d)
    ensures SnapUpdateMaterialThemes(ths, t, d).Success? ==> SnapUpdateMaterialThemes(ths, t, d).value == UpdateMaterialThemes(ths, t)
    decreases |ths|
  {
    if |ths| > 0 {
      if MaterialMisfit(ths[0].1, d) {
        assert SnapUpdateMaterialThemes(ths, t, d).Failure?;
      } else {
        SnapUpdateMaterialRefAgrees(ths[0].1, t, d);
        var p := UpdateMaterialRef(ths[0].1, t);
        SnapUpdateMaterialThemesAgrees(ths[1..], p.1, d);
        if exists i :: 0 <= i < |ths| && MaterialMisfit(ths[i].1, d) {
          var i :| 0 <= i < |ths| && MaterialMisfit(ths[i].1, d);
          assert ths[1..][i - 1] == ths[i];
        }
        if exists i :: 0 <= i < |ths[1..]| && MaterialMisfit(ths[1..][i].1, d) {
          var i :| 0 <= i < |ths[1..]| && MaterialMisfit(ths[1..][i].1, d);
          assert ths[i + 1] == ths[1..][i];
        }
      }
    }
  }

  /** For the types whose values it parses, the snapshot's material pass
      fails exactly on a theme of the wrong depth; otherwise every theme is
      renumbered through the final table, recorded ids keep their value,
      nothing else of the geometry changes, and a dense table stays
      dense. */
  lemma SnapUpdateMaterialSpec(g: SnapGeometry, t: Table)
    requires MaterialLevels(g.thetype) > 0
    ensures var r := SnapUpdateMaterial(g, t);
      r.Failure? <==> g.material.Some? && exists i :: 0 <= i < |g.material.value| && MaterialMisfit(g.material.value[i].1, MaterialLevels(g.thetype))
    ensures var r := SnapUpdateMaterial(g, t);
      r.Success? ==>
        && r.value.0 == g.(material := r.value.0.material)
        && r.value.0.material.Some? == g.material.Some?
        && (g.material.Some? ==> MatThemesMapped(g.material.value, r.value.0.material.value, r.value.1))
        && Extends(t, r.value.1)
        && (DenseFrom(t, 0) ==> DenseFrom(r.value.1, 0))
  {
    if g.material.Some? {
      SnapUpdateMaterialThemesAgrees(g.material.value, t, MaterialLevels(g.thetype));
      UpdateMaterialThemesSpec(g.material.value, t);
    }
  }

  // ---------------------------------------------------------------------
  // Texture renumbering
  // ---------------------------------------------------------------------

  /** One ring of `update_texture`, from position `pos` on: position 0 is
      renumbered through the texture table (new id `len`); an unseen uv id
      at a later position is recorded as `len + offset` but written as
      `len`; a seen one is written as recorded. */
  function SnapTextureList(xs: seq<Option<nat>>, pos: nat, s: TexTables, offset: nat): (r: (seq<Option<nat>>, TexTables))
    ensures |r.0| == |xs|
    decreases |xs|
  {
    if |xs| == 0 then ([], s)
    else
      match xs[0]
      case None =>
        var q := SnapTextureList(xs[1..], pos + 1, s, offset);
        ([None] + q.0, q.1)
      case Some(x) =>
        if pos == 0 then
          var p := Resolve(s.textures, x, 0);
          var q := SnapTextureList(xs[1..], pos + 1, s.(textures := p.1), offset);
          ([Some(p.0)] + q.0, q.1)
        else if x in s.uvs then
          var q := SnapTextureList(xs[1..], pos + 1, s, offset);
          ([Some(s.uvs[x])] + q.0, q.1)
        else
          var l := |s.uvs|;
          var q := SnapTextureList(xs[1..], pos + 1, s.(uvs := s.uvs[x := l + offset]), offset);
          ([Some(l)] + q.0, q.1)
  }

  function SnapTextureStep(offset: nat): (seq<Option<nat>>, TexTables) -> (seq<Option<nat>>, TexTables) {
    (xs: seq<Option<nat>>, s: TexTables) => SnapTextureList(xs, 0, s, offset)
  }

  /** A texture theme the pass cannot parse: no values, or values of the
      wrong depth. */
  predicate TextureMisfit(x: SnapTexture) {
    x.values.None? || !Fits(x.values.value, 3)
  }

  function SnapUpdateTextureThemes(ths: seq<(string, SnapTexture)>, s: TexTables, offset: nat): (r: Result<(seq<(string, SnapTexture)>, TexTables), SnapError>)
    ensures r.Success? ==> |r.value.0| == |ths|
    decreases |ths|
  {
    if |ths| == 0 then Success(([], s))
    else if TextureMisfit(ths[0].1) then Failure(ShapeMismatch)
    else
      var p := Walk(ths[0].1.values.value, s, SnapTextureStep(offset));
      match SnapUpdateTextureThemes(ths[1..], p.1, offset)
      case Failure(e) => Failure(e)
      case Success(q) => Success(([(ths[0].0, SnapTexture(Some(p.0)))] + q.0, q.1))
  }

  predicate IsSurfaceType(thetype: string) {
    thetype == "MultiSurface" || thetype == "CompositeSurface"
  }

  /** `Geometry::update_texture(t_oldnew, t_v_oldnew, offset)`: only
      surface geometries are touched. */
  function SnapUpdateTexture(g: SnapGeometry, s: TexTables, offset: nat): (r: Result<(SnapGeometry, TexTables), SnapError>)
    ensures r.Success? ==> r.value.0 == g.(texture := r.value.0.texture)
    ensures !IsSurfaceType(g.thetype) ==> r == Success((g, s))
  {
    if g.texture.None? || !IsSurfaceType(g.thetype) then Success((g, s))
    else
      match SnapUpdateTextureThemes(g.texture.value, s, offset)
      case Failure(e) => Failure(e)
      case Success(p) => Success((g.(texture := Some(p.0)), p.1))
  }

  /** With no offset the snapshot's ring pass is the library's. */
  lemma {:induction false} SnapTextureListAgrees(xs: seq<Option<nat>>, pos: nat, s: TexTables)
    ensures SnapTextureList(xs, pos, s, 0) == TextureList(xs, pos, s, 0)
    decreases |xs|
  {
    if |xs| > 0 {
      match xs[0]
      case None =>
        SnapTextureListAgrees(xs[1..], pos + 1, s);
      case Some(x) =>
        if pos == 0 {
          SnapTextureListAgrees(xs[1..], pos + 1, s.(textures := Resolve(s.textures, x, 0).1));
        } else {
          SnapTextureListAgrees(xs[1..], pos + 1, s.(uvs := Resolve(s.uvs, x, 0).1));
        }
    }
  }

  /** Walks with pointwise equal steps are equal. */
  lemma {:induction false} WalkSameSteps<T, S>(b: NestedArray<T>, s: S, f: (seq<T>, S) -> (seq<T>, S), g: (seq<T>, S) -> (seq<T>, S))
    requires forall xs, u :: f(xs, u) == g(xs, u)
    ensures Walk(b, s, f) == Walk(b, s, g)
    decreases b, 1
  {
    match b
    case Indices(_) =>
    case Nested(bs) =>
      WalkAllSameSteps(bs, s, f, g);
  }

  lemma {:induction false} WalkAllSameSteps<T, S>(bs: seq<NestedArray<T>>, s: S, f: (seq<T>, S) -> (seq<T>, S), g: (seq<T>, S) -> (seq<T>, S))
    requires forall xs, u :: f(xs, u) == g(xs, u)
    ensures WalkAll(bs, s, f) == WalkAll(bs, s, g)
    decreases bs, 0
  {
    if |bs| > 0 {
      WalkSameSteps(bs[0], s, f, g);
      WalkAllSameSteps(bs[1..], Walk(bs[0], s, f).1, f, g);
    }
  }

  lemma SnapTextureValuesAgree(b: NestedArray<Option<nat>>, s: TexTables)
    ensures Walk(b, s, SnapTextureStep(0)) == RenumberTextureValues(b, s, 0)
  {
    forall xs, u ensures SnapTextureStep(0)(xs, u) == TextureStep(0)(xs, u) {
      SnapTextureListAgrees(xs, 0, u);
    }
    WalkSameSteps(b, s, SnapTextureStep(0), TextureStep(0));
  }

  /** The themes of a texture pass, renumbered through tables `s`. */
  ghost predicate SnapTexThemesMapped(ths: seq<(string, SnapTexture)>, ths': seq<(string, SnapTexture)>, s: TexTables) {
    && |ths'| == |ths|
    && forall i :: 0 <= i < |ths| ==>
         && ths'[i].0 == ths[i].0
         && ths[i].1.values.Some? && ths'[i].1.values.Some?
         && TexTreeMapped(ths[i].1.values.value, ths'[i].1.values.value, s)
  }

  /** Without an offset, the theme loop fails exactly when some theme
      cannot be parsed; otherwise every ring is renumbered through the final
      tables, both tables only grow, and dense tables stay dense. */
  lemma {:induction false} SnapUpdateTextureThemesSpec(ths: seq<(string, SnapTexture)>, s: TexTables)
    ensures SnapUpdateTextureThemes(ths, s, 0).Failure? <==> exists i :: 0 <= i < |ths| && TextureMisfit(ths[i].1)
    ensures var r := SnapUpdateTextureThemes(ths, s, 0);
      r.Success? ==>
        && SnapTexThemesMapped(ths, r.value.0, r.value.1)
        && TexExtends(s, r.value.1)
        && (TexDense(s, 0) ==> TexDense(r.value.1, 0))
    decreases |ths|
  {
    SnapTexThemesFail(ths, s);
    if |ths| > 0 && !TextureMisfit(ths[0].1) {
      var b := ths[0].1.values.value;
      SnapTextureValuesAgree(b, s);
      RenumberTextureValuesSpec(b, s, 0);
      var p := RenumberTextureValues(b, s, 0);
      SnapUpdateTextureThemesSpec(ths[1..], p.1);
      var r := SnapUpdateTextureThemes(ths, s, 0);
      if r.Success? {
        var q := SnapUpdateTextureThemes(ths[1..], p.1, 0).value;
        assert r.value == ([(ths[0].0, SnapTexture(Some(p.0)))] + q.0, q.1);
        ListsMappedExtends(LeafLists(b), LeafLists(p.0), p.1, q.1);
        SnapTexThemesStep(ths, p.0, q.0, q.1, r.value.0);
      }
    }
  }

  /** Without an offset the theme loop fails exactly when some theme
      cannot be parsed, whatever the tables. */
  lemma {:induction false} SnapTexThemesFail(ths: seq<(string, SnapTexture)>, s: TexTables)
    ensures SnapUpdateTextureThemes(ths, s, 0).Failure? <==> exists i :: 0 <= i < |ths| && TextureMisfit(ths[i].1)
    decreases |ths|
  {
    if |ths| > 0 && !TextureMisfit(ths[0].1) {
      var p := Walk(ths[0].1.values.value, s, SnapTextureStep(0));
      SnapTexThemesFail(ths[1..], p.1);
      if exists i :: 0 <= i < |ths| && TextureMisfit(ths[i].1) {
        var i :| 0 <= i < |ths| && TextureMisfit(ths[i].1);
        assert ths[1..][i - 1] == ths[i];
      }
      if exists i :: 0 <= i < |ths[1..]| && TextureMisfit(ths[1..][i].1) {
        var i :| 0 <= i < |ths[1..]| && TextureMisfit(ths[1..][i].1);
        assert ths[i + 1] == ths[1..][i];
      }
    }
  }

  /** The induction step of `SnapUpdateTextureThemesSpec`: a renumbered
      first theme in front of renumbered others. */
  lemma SnapTexThemesStep(ths: seq<(string, SnapTexture)>, b': NestedArray<Option<nat>>,
                          rest: seq<(string, SnapTexture)>, s: TexTables, r: seq<(string, SnapTexture)>)
    requires |ths| > 0 && ths[0].1.values.Some?
    requires TexTreeMapped(ths[0].1.values.value, b', s)
    requires SnapTexThemesMapped(ths[1..], rest, s)
    requires r == [(ths[0].0, SnapTexture(Some(b')))] + rest
    ensures SnapTexThemesMapped(ths, r, s)
  {
    forall i | 1 <= i < |ths|
      ensures r[i].0 == ths[i].0 && ths[i].1.values.Some? && r[i].1.values.Some?
      ensures TexTreeMapped(ths[i].1.values.value, r[i].1.values.value, s)
    {
      assert ths[i] == ths[1..][i - 1] && r[i] == rest[i - 1];
    }
  }

  /** A ring whose uv vertex `5` appears twice, with a uv offset of 2. */
  lemma SnapTextureWritesTwoIds()
    ensures SnapTextureList([Some(0), Some(5), Some(5)], 0, TexTables(map[], map[]), 2).0 == [Some(0), Some(0), Some(2)]
  {
    var xs: seq<Option<nat>> := [Some(0), Some(5), Some(5)];
    var s0 := TexTables(map[], map[]);
    var s1 := TexTables(map[0 := 0], map[]);
    var s2 := TexTables(map[0 := 0], map[5 := 2]);
    assert |s0.textures| == 0 && |s1.uvs| == 0;
    assert xs[1..] == [Some(5), Some(5)] && xs[1..][1..] == [Some(5)];
    assert SnapTextureList([Some(5)], 2, s2, 2).0 == [Some(2)];
    assert SnapTextureList([Some(5), Some(5)], 1, s1, 2).0 == [Some(0), Some(2)];
  }

  /** The same ring through the library's pass: one uv vertex, one id. */
  lemma TextureListWritesOneId()
    ensures TextureList([Some(0), Some(5), Some(5)], 0, TexTables(map[], map[]), 2).0 == [Some(0), Some(2), Some(2)]
  {
    var xs: seq<Option<nat>> := [Some(0), Some(5), Some(5)];
    var s0 := TexTables(map[], map[]);
    var s1 := TexTables(map[0 := 0], map[]);
    var s2 := TexTables(map[0 := 0], map[5 := 2]);
    assert |s0.textures| == 0 && |s1.uvs| == 0;
    assert xs[1..] == [Some(5), Some(5)] && xs[1..][1..] == [Some(5)];
    assert TextureList([Some(5)], 2, s2, 2).0 == [Some(2)];
    assert TextureList([Some(5), Some(5)], 1, s1, 2).0 == [Some(2), Some(2)];
  }

  // ---------------------------------------------------------------------
  // The appearance store
  // ---------------------------------------------------------------------

  /** The two deduplicated lists of an appearance. */
  datatype Store = Materials | Textures

  /** The list `k` of an appearance, empty when absent. */
  function StoreOf(oa: Option<SnapAppearance>, k: Store): seq<Json> {
    if oa.None? then []
    else
      match k
      case Materials => oa.value.materials.GetOr([])
      case Textures => oa.value.textures.GetOr([])
  }

  /** The uv vertices of an appearance, empty when absent. */
  function UvsOf(oa: Option<SnapAppearance>): seq<seq<real>> {
    if oa.None? then [] else oa.value.verticesTexture.GetOr([])
  }

  /** `CityJSON::add_material` / `add_texture` with `Appearance::add_material`
      / `add_texture`: an equal value already stored gives its first
      position; otherwise the value is appended and its position returned;
      a missing appearance or list is created. */
  function AddToStore(oa: Option<SnapAppearance>, k: Store, v: Json): (r: (SnapAppearance, nat))
    ensures r.1 < |StoreOf(Some(r.0), k)| && StoreOf(Some(r.0), k)[r.1] == v
    ensures v in StoreOf(oa, k) ==> StoreOf(Some(r.0), k) == StoreOf(oa, k) && v !in StoreOf(oa, k)[..r.1]
    ensures v !in StoreOf(oa, k) ==> StoreOf(Some(r.0), k) == StoreOf(oa, k) + [v] && r.1 == |StoreOf(oa, k)|
    ensures k.Materials? ==> r.0 == oa.GetOr(EmptySnapAppearance).(materials := r.0.materials)
    ensures k.Textures? ==> r.0 == oa.GetOr(EmptySnapAppearance).(textures := r.0.textures)
  {
    var a := oa.GetOr(EmptySnapAppearance);
    var xs := StoreOf(oa, k);
    var ys := if v in xs then xs else xs + [v];
    var i := if v in xs then FirstIndex(xs, v) else |xs|;
    match k
    case Materials => (a.(materials := Some(ys)), i)
    case Textures => (a.(textures := Some(ys)), i)
  }

  /** Adding a stored value again changes nothing and gives the same
      position. */
  lemma AddToStoreIdempotent(oa: Option<SnapAppearance>, k: Store, v: Json)
    ensures var (a, i) := AddToStore(oa, k, v); AddToStore(Some(a), k, v) == (a, i)
  {
    var (a, i) := AddToStore(oa, k, v);
    var xs := StoreOf(Some(a), k);
    if v !in StoreOf(oa, k) {
      assert xs[..i] == StoreOf(oa, k);
    }
    FirstIndexUnique(xs, v, i);
  }

  /** A material stored as `{"name": "a", "value": 1}` is found again
      when the feature writes `{"value": 1, "name": "a"}`: the members'
      order does not matter, so its position is 0 and nothing is
      appended. */
  lemma AddToStoreIgnoresMemberOrder()
    ensures var stored := JObj(map["name" := JStr("a"), "value" := JInt(1)]);
      var incoming := JObj(map["value" := JInt(1), "name" := JStr("a")]);
      var oa := Some(EmptySnapAppearance.(materials := Some([stored])));
      var r := AddToStore(oa, Materials, incoming);
      && r.1 == 0
      && StoreOf(Some(r.0), Materials) == [stored]
  {
    var stored := JObj(map["name" := JStr("a"), "value" := JInt(1)]);
    var incoming := JObj(map["value" := JInt(1), "name" := JStr("a")]);
    assert stored == incoming;
    assert incoming in [stored];
  }

  /** The loop inserting the feature's list `vs` from position `i` on:
      feature id `j` is recorded as the document position of its value. */
  function ImportStore(oa: Option<SnapAppearance>, k: Store, vs: seq<Json>, i: nat, t: Table): (r: (Option<SnapAppearance>, Table))
    decreases |vs| - i
  {
    if i >= |vs| then (oa, t)
    else
      var p := AddToStore(oa, k, vs[i]);
      ImportStore(Some(p.0), k, vs, i + 1, t[i := p.1])
  }

  /** Table `t` sends every feature position of `vs` to a position of
      `store` holding the same value. */
  ghost predicate StoreDenotes(t: Table, vs: seq<Json>, store: seq<Json>) {
    forall j :: 0 <= j < |vs| ==> j in t && t[j] < |store| && store[t[j]] == vs[j]
  }

  /** The other list of the appearance, and its uv vertices, are left alone. */
  predicate KeepsOthers(oa: Option<SnapAppearance>, a: Option<SnapAppearance>, k: Store) {
    && UvsOf(a) == UvsOf(oa)
    && (k.Materials? ==> StoreOf(a, Textures) == StoreOf(oa, Textures))
    && (k.Textures? ==> StoreOf(a, Materials) == StoreOf(oa, Materials))
  }

  /** One insertion keeps the list's prefix and the rest of the
      appearance. */
  lemma AddToStoreKeeps(oa: Option<SnapAppearance>, k: Store, v: Json)
    ensures var a := Some(AddToStore(oa, k, v).0);
      && |StoreOf(oa, k)| <= |StoreOf(a, k)|
      && StoreOf(a, k)[..|StoreOf(oa, k)|] == StoreOf(oa, k)
      && KeepsOthers(oa, a, k)
  {
  }

  /** What the insertion loop from position `i` leaves in `r`: the list
      keeps its prefix, feature ids from `i` on name positions holding their
      values, other entries of `t` stay, and nothing else changes. */
  ghost predicate Imported(oa: Option<SnapAppearance>, k: Store, vs: seq<Json>, i: nat, t: Table,
                           r: (Option<SnapAppearance>, Table)) {
    && |StoreOf(oa, k)| <= |StoreOf(r.0, k)|
    && StoreOf(r.0, k)[..|StoreOf(oa, k)|] == StoreOf(oa, k)
    && (forall j :: i <= j < |vs| ==> j in r.1 && r.1[j] < |StoreOf(r.0, k)| && StoreOf(r.0, k)[r.1[j]] == vs[j])
    && (forall j :: j in t && (j < i || j >= |vs|) ==> j in r.1 && r.1[j] == t[j])
    && KeepsOthers(oa, r.0, k)
  }

  lemma {:induction false} ImportStoreSpec(oa: Option<SnapAppearance>, k: Store, vs: seq<Json>, i: nat, t: Table)
    ensures Imported(oa, k, vs, i, t, ImportStore(oa, k, vs, i, t))
    decreases |vs| - i
  {
    if i < |vs| {
      var p := AddToStore(oa, k, vs[i]);
      AddToStoreKeeps(oa, k, vs[i]);
      ImportStoreSpec(Some(p.0), k, vs, i + 1, t[i := p.1]);
      ImportStep(oa, Some(p.0), k, vs, i, t, p.1, ImportStore(Some(p.0), k, vs, i + 1, t[i := p.1]));
    }
  }

  /** The induction step of `ImportStoreSpec`: one insertion into `oa`
      giving `a` and position `pos`, followed by the rest of the loop. */
  lemma ImportStep(oa: Option<SnapAppearance>, a: Option<SnapAppearance>, k: Store, vs: seq<Json>, i: nat, t: Table,
                   pos: nat, r: (Option<SnapAppearance>, Table))
    requires i < |vs|
    requires |StoreOf(oa, k)| <= |StoreOf(a, k)| && StoreOf(a, k)[..|StoreOf(oa, k)|] == StoreOf(oa, k)
    requires KeepsOthers(oa, a, k)
    requires pos < |StoreOf(a, k)| && StoreOf(a, k)[pos] == vs[i]
    requires Imported(a, k, vs, i + 1, t[i := pos], r)
    ensures Imported(oa, k, vs, i, t, r)
  {
    var before := StoreOf(oa, k);
    var mid := StoreOf(a, k);
    var after := StoreOf(r.0, k);
    assert after[..|before|] == mid[..|before|];
    assert after[pos] == after[..|mid|][pos];
  }

  /** What the appearance import hands to the object loop. */
  datatype Imports = Imports(appearance: Option<SnapAppearance>, materials: Table, textures: Table, uvOffset: nat)

  /** The appearance part of `add_one_cjf`: materials, then textures,
      inserted one by one; the uv vertices appended, the uv offset being
      the feature's own uv count. */
  function SnapImportAppearance(oa: Option<SnapAppearance>, fa: Option<SnapAppearance>): (r: Imports) {
    match fa
    case None => Imports(oa, map[], map[], 0)
    case Some(f) =>
      var m := ImportStore(oa, Materials, f.materials.GetOr([]), 0, map[]);
      var x := ImportStore(m.0, Textures, f.textures.GetOr([]), 0, map[]);
      if f.verticesTexture.None? then Imports(x.0, m.1, x.1, 0)
      else
        var a := x.0.GetOr(EmptySnapAppearance);
        Imports(Some(a.(verticesTexture := Some(UvsOf(x.0) + f.verticesTexture.value))), m.1, x.1, |f.verticesTexture.value|)
  }

  /** After the import every feature material and texture names a document
      one holding the same value; the document's own keep their positions;
      the feature's uv vertices follow the document's. */
  lemma SnapImportAppearanceSpec(oa: Option<SnapAppearance>, fa: Option<SnapAppearance>)
    ensures var im := SnapImportAppearance(oa, fa);
      && StoreDenotes(im.materials, StoreOf(fa, Materials), StoreOf(im.appearance, Materials))
      && StoreDenotes(im.textures, StoreOf(fa, Textures), StoreOf(im.appearance, Textures))
      && |StoreOf(oa, Materials)| <= |StoreOf(im.appearance, Materials)|
      && StoreOf(im.appearance, Materials)[..|StoreOf(oa, Materials)|] == StoreOf(oa, Materials)
      && |StoreOf(oa, Textures)| <= |StoreOf(im.appearance, Textures)|
      && StoreOf(im.appearance, Textures)[..|StoreOf(oa, Textures)|] == StoreOf(oa, Textures)
      && UvsOf(im.appearance) == UvsOf(oa) + UvsOf(fa)
      && im.uvOffset == |UvsOf(fa)|
  {
    if fa.Some? {
      var f := fa.value;
      var m := ImportStore(oa, Materials, f.materials.GetOr([]), 0, map[]);
      var x := ImportStore(m.0, Textures, f.textures.GetOr([]), 0, map[]);
      ImportStoreSpec(oa, Materials, f.materials.GetOr([]), 0, map[]);
      ImportStoreSpec(m.0, Textures, f.textures.GetOr([]), 0, map[]);
      assert StoreOf(fa, Materials) == f.materials.GetOr([]);
      assert StoreOf(fa, Textures) == f.textures.GetOr([]);
      var im := SnapImportAppearance(oa, fa);
      assert StoreOf(im.appearance, Materials) == StoreOf(x.0, Materials);
      assert StoreOf(im.appearance, Textures) == StoreOf(x.0, Textures);
    }
  }

  // ---------------------------------------------------------------------
  // add_one_cjf
  // ---------------------------------------------------------------------

  /** The tables `add_one_cjf` threads: vertices, materials, textures and
      uv vertices. */
  datatype SnapTables = SnapTables(vertices: Table, materials: Table, tex: TexTables)

  /** How a feature's vertex references are moved into the document:
      `FirstSeen` is `update_geometry_boundaries(g_oldnew, g_offset)` as
      written, which numbers the references in the order it meets them;
      `OffsetEach` adds the document's vertex count to every reference,
      which is where the appended vertices land. */
  datatype BoundaryPass = FirstSeen | OffsetEach

  function SnapMoveBoundaries(g: SnapGeometry, t: Table, gOffset: nat, pass: BoundaryPass): (r: Result<(SnapGeometry, Table), SnapError>)
    ensures r.Success? ==> r.value.0 == g.(boundaries := r.value.0.boundaries)
  {
    match pass
    case FirstSeen => SnapUpdateBoundaries(g, t, gOffset)
    case OffsetEach => Success((g.(boundaries := Offset(g.boundaries, gOffset)), t))
  }

  /** One geometry: boundaries, then material, then texture. */
  function SnapMergeGeometry(g: SnapGeometry, gOffset: nat, ts: SnapTables, tOffset: nat, pass: BoundaryPass)
    : (r: Result<(SnapGeometry, SnapTables), SnapError>)
    ensures r.Success? ==> r.value.0 == g.(boundaries := r.value.0.boundaries, material := r.value.0.material, texture := r.value.0.texture)
    ensures r.Success? && pass.OffsetEach? ==> r.value.0.boundaries == Offset(g.boundaries, gOffset)
  {
    match SnapMoveBoundaries(g, ts.vertices, gOffset, pass)
    case Failure(e) => Failure(e)
    case Success(b) =>
      match SnapUpdateMaterial(b.0, ts.materials)
      case Failure(e) => Failure(e)
      case Success(m) =>
        match SnapUpdateTexture(m.0, ts.tex, tOffset)
        case Failure(e) => Failure(e)
        case Success(x) => Success((x.0, SnapTables(b.1, m.1, x.1)))
  }

  function SnapMergeGeometries(gs: seq<SnapGeometry>, gOffset: nat, ts: SnapTables, tOffset: nat, pass: BoundaryPass)
    : (r: Result<(seq<SnapGeometry>, SnapTables), SnapError>)
    ensures r.Success? ==> |r.value.0| == |gs|
    decreases |gs|
  {
    if |gs| == 0 then Success(([], ts))
    else
      match SnapMergeGeometry(gs[0], gOffset, ts, tOffset, pass)
      case Failure(e) => Failure(e)
      case Success(p) =>
        match SnapMergeGeometries(gs[1..], gOffset, p.1, tOffset, pass)
        case Failure(e) => Failure(e)
        case Success(q) => Success(([p.0] + q.0, q.1))
  }

  function SnapMergeObject(co: SnapCityObject, gOffset: nat, ts: SnapTables, tOffset: nat, pass: BoundaryPass)
    : (r: Result<(SnapCityObject, SnapTables), SnapError>)
    ensures r.Success? ==> r.value.0 == co.(geometry := r.value.0.geometry)
  {
    match co.geometry
    case None => Success((co, ts))
    case Some(gs) =>
      match SnapMergeGeometries(gs, gOffset, ts, tOffset, pass)
      case Failure(e) => Failure(e)
      case Success(p) => Success((co.(geometry := Some(p.0)), p.1))
  }

  /** The object loop: each feature object, in the map's order `keys`, is
      updated and then inserted (`add_co`), replacing any document object
      of the same key. */
  function SnapMergeObjects(target: map<string, SnapCityObject>, src: map<string, SnapCityObject>, keys: seq<string>,
                            gOffset: nat, ts: SnapTables, tOffset: nat, pass: BoundaryPass)
    : (r: Result<(map<string, SnapCityObject>, SnapTables), SnapError>)
    requires forall i :: 0 <= i < |keys| ==> keys[i] in src
    decreases |keys|
  {
    if |keys| == 0 then Success((target, ts))
    else
      match SnapMergeObject(src[keys[0]], gOffset, ts, tOffset, pass)
      case Failure(e) => Failure(e)
      case Success(p) => SnapMergeObjects(target[keys[0] := p.0], src, keys[1..], gOffset, p.1, tOffset, pass)
  }

  /** The merge of one feature with the given boundary pass: the
      appearance is imported, each object's geometries are moved and the
      object inserted, and the feature's vertices are appended in their
      own order. A panic is a failure. */
  function AddOneCjfWith(doc: SnapCityJSON, f: SnapFeature, order: seq<string>, pass: BoundaryPass): (r: Result<SnapCityJSON, SnapError>)
    requires IsOrderOf(order, f.cityObjects)
  {
    var im := SnapImportAppearance(doc.appearance, f.appearance);
    var ts := SnapTables(map[], im.materials, TexTables(im.textures, map[]));
    match SnapMergeObjects(doc.cityObjects, f.cityObjects, order, |doc.vertices|, ts, im.uvOffset, pass)
    case Failure(e) => Failure(e)
    case Success(p) => Success(doc.(cityObjects := p.0, appearance := im.appearance, vertices := doc.vertices + f.vertices))
  }

  /** `CityJSON::add_one_cjf` as written: new vertex ids from the
      document's vertex count, in first-seen order. */
  function AddOneCjf(doc: SnapCityJSON, f: SnapFeature, order: seq<string>): (r: Result<SnapCityJSON, SnapError>)
    requires IsOrderOf(order, f.cityObjects)
  {
    AddOneCjfWith(doc, f, order, FirstSeen)
  }

  /** `add_one_cjf` as evidently intended: every reference plus the
      document's vertex count, as `add_cjfeature` of the library does. */
  function AddOneCjfCorrected(doc: SnapCityJSON, f: SnapFeature, order: seq<string>): (r: Result<SnapCityJSON, SnapError>)
    requires IsOrderOf(order, f.cityObjects)
  {
    AddOneCjfWith(doc, f, order, OffsetEach)
  }

  lemma {:induction false} SnapMergeObjectsKeys(target: map<string, SnapCityObject>, src: map<string, SnapCityObject>, keys: seq<string>,
                                                gOffset: nat, ts: SnapTables, tOffset: nat, pass: BoundaryPass)
    requires forall i :: 0 <= i < |keys| ==> keys[i] in src
    requires SnapMergeObjects(target, src, keys, gOffset, ts, tOffset, pass).Success?
    ensures var r := SnapMergeObjects(target, src, keys, gOffset, ts, tOffset, pass).value.0;
      && (forall k :: k in r <==> k in target || k in keys)
      && (forall k :: k in target && k !in keys ==> r[k] == target[k])
      && (forall k :: k in keys ==> r[k] == src[k].(geometry := r[k].geometry))
    decreases |keys|
  {
    if |keys| > 0 {
      var p := SnapMergeObject(src[keys[0]], gOffset, ts, tOffset, pass).value;
      SnapMergeObjectsKeys(target[keys[0] := p.0], src, keys[1..], gOffset, p.1, tOffset, pass);
      var r := SnapMergeObjects(target, src, keys, gOffset, ts, tOffset, pass).value.0;
      forall k | k in keys ensures r[k] == src[k].(geometry := r[k].geometry) {
        if k !in keys[1..] {
          assert k == keys[0];
        }
      }
      forall k | k in r ensures k in target || k in keys {
        if k !in target && k !in keys[1..] {
          assert k == keys[0];
        }
      }
      assert keys == [keys[0]] + keys[1..];
    }
  }

  /** What a successful `add_one_cjf` promises: the feature's vertices
      after the document's; the document's objects plus the feature's, the
      feature's replacing any of the same key and differing from the
      feature's only in their geometries; the appearance imported; nothing
      else changes. */
  lemma AddOneCjfSpec(doc: SnapCityJSON, f: SnapFeature, order: seq<string>)
    requires IsOrderOf(order, f.cityObjects)
    requires AddOneCjf(doc, f, order).Success?
    ensures var d := AddOneCjf(doc, f, order).value;
      && d.vertices == doc.vertices + f.vertices
      && (forall k :: k in d.cityObjects <==> k in doc.cityObjects || k in f.cityObjects)
      && (forall k :: k in doc.cityObjects && k !in f.cityObjects ==> d.cityObjects[k] == doc.cityObjects[k])
      && (forall k :: k in f.cityObjects ==> d.cityObjects[k] == f.cityObjects[k].(geometry := d.cityObjects[k].geometry))
      && d.appearance == SnapImportAppearance(doc.appearance, f.appearance).appearance
      && d == doc.(cityObjects := d.cityObjects, appearance := d.appearance, vertices := d.vertices)
  {
    var im := SnapImportAppearance(doc.appearance, f.appearance);
    var ts := SnapTables(map[], im.materials, TexTables(im.textures, map[]));
    SnapMergeObjectsKeys(doc.cityObjects, f.cityObjects, order, |doc.vertices|, ts, im.uvOffset, FirstSeen);
  }

  /** Every geometry of `co'` has the boundaries of the same geometry of
      `co` with `gOffset` added to each reference. */
  ghost predicate BoundariesOffset(co: SnapCityObject, co': SnapCityObject, gOffset: nat) {
    && co'.geometry.Some? == co.geometry.Some?
    && (co.geometry.Some? ==>
          && |co'.geometry.value| == |co.geometry.value|
          && forall i :: 0 <= i < |co.geometry.value| ==>
               co'.geometry.value[i].boundaries == Offset(co.geometry.value[i].boundaries, gOffset))
  }

  lemma {:induction false} SnapMergeGeometriesOffset(gs: seq<SnapGeometry>, gOffset: nat, ts: SnapTables, tOffset: nat)
    requires SnapMergeGeometries(gs, gOffset, ts, tOffset, OffsetEach).Success?
    ensures var r := SnapMergeGeometries(gs, gOffset, ts, tOffset, OffsetEach).value.0;
      forall i :: 0 <= i < |gs| ==> r[i].boundaries == Offset(gs[i].boundaries, gOffset)
    decreases |gs|
  {
    if |gs| > 0 {
      var p := SnapMergeGeometry(gs[0], gOffset, ts, tOffset, OffsetEach).value;
      SnapMergeGeometriesOffset(gs[1..], gOffset, p.1, tOffset);
      var q := SnapMergeGeometries(gs[1..], gOffset, p.1, tOffset, OffsetEach).value;
      var r := SnapMergeGeometries(gs, gOffset, ts, tOffset, OffsetEach).value.0;
      forall i | 1 <= i < |gs| ensures r[i] == q.0[i - 1] && gs[i] == gs[1..][i - 1] {
      }
    }
  }

  /** In the corrected object loop every inserted object has its
      geometries' references offset. */
  lemma {:induction false} SnapMergeObjectsOffset(target: map<string, SnapCityObject>, src: map<string, SnapCityObject>, keys: seq<string>,
                                                  gOffset: nat, ts: SnapTables, tOffset: nat)
    requires forall i :: 0 <= i < |keys| ==> keys[i] in src
    requires SnapMergeObjects(target, src, keys, gOffset, ts, tOffset, OffsetEach).Success?
    ensures var r := SnapMergeObjects(target, src, keys, gOffset, ts, tOffset, OffsetEach).value.0;
      forall k :: k in keys ==> k in r && BoundariesOffset(src[k], r[k], gOffset)
    decreases |keys|
  {
    if |keys| > 0 {
      var k0 := keys[0];
      var p := SnapMergeObject(src[k0], gOffset, ts, tOffset, OffsetEach).value;
      if src[k0].geometry.Some? {
        SnapMergeGeometriesOffset(src[k0].geometry.value, gOffset, ts, tOffset);
      }
      var target' := target[k0 := p.0];
      SnapMergeObjectsOffset(target', src, keys[1..], gOffset, p.1, tOffset);
      SnapMergeObjectsKeys(target', src, keys[1..], gOffset, p.1, tOffset, OffsetEach);
      var r := SnapMergeObjects(target, src, keys, gOffset, ts, tOffset, OffsetEach).value.0;
      forall k | k in keys ensures k in r && BoundariesOffset(src[k], r[k], gOffset) {
        if k !in keys[1..] {
          assert k == k0;
        }
      }
    }
  }

  /** In the corrected merge every vertex reference of a feature object is
      the old one plus the document's vertex count and names the
      coordinates it named in the feature. */
  lemma AddOneCjfCorrectedKeepsCoordinates(doc: SnapCityJSON, f: SnapFeature, order: seq<string>, k: string, gi: nat, p: nat)
    requires IsOrderOf(order, f.cityObjects)
    requires AddOneCjfCorrected(doc, f, order).Success?
    requires k in f.cityObjects && f.cityObjects[k].geometry.Some?
    requires gi < |f.cityObjects[k].geometry.value|
    requires p < |Leaves(f.cityObjects[k].geometry.value[gi].boundaries)|
    requires Leaves(f.cityObjects[k].geometry.value[gi].boundaries)[p] < |f.vertices|
    ensures var d := AddOneCjfCorrected(doc, f, order).value;
      && k in d.cityObjects && d.cityObjects[k].geometry.Some?
      && gi < |d.cityObjects[k].geometry.value|
      && p < |Leaves(d.cityObjects[k].geometry.value[gi].boundaries)|
    ensures var d := AddOneCjfCorrected(doc, f, order).value;
      var was := Leaves(f.cityObjects[k].geometry.value[gi].boundaries)[p];
      var now := Leaves(d.cityObjects[k].geometry.value[gi].boundaries)[p];
      && now == was + |doc.vertices|
      && now < |d.vertices|
      && d.vertices[now] == f.vertices[was]
  {
    var im := SnapImportAppearance(doc.appearance, f.appearance);
    var ts := SnapTables(map[], im.materials, TexTables(im.textures, map[]));
    SnapMergeObjectsOffset(doc.cityObjects, f.cityObjects, order, |doc.vertices|, ts, im.uvOffset);
    assert k in order;
    OffsetSpec(f.cityObjects[k].geometry.value[gi].boundaries, |doc.vertices|);
  }

  /** A document of one vertex and a feature holding the MultiPoint
      `[1, 0]` over its two vertices. */
  function OneVertexDocument(): SnapCityJSON {
    SnapCityJSON("CityJSON", "2.0", JNull, map[], [Vertex(0, 0, 0)], None, None, None, None, JNull)
  }

  function TwoPointGeometry(): SnapGeometry {
    SnapGeometry("MultiPoint", "1", Indices([1, 0]), None, None, None)
  }

  function TwoPointFeature(): SnapFeature {
    SnapFeature("CityJSONFeature", "a",
      map["a" := SnapCityObject("Building", None, None, Some([TwoPointGeometry()]), None, None, JNull)],
      [Vertex(1, 1, 1), Vertex(2, 2, 2)], None)
  }

  lemma TwoPointsResolved()
    ensures ResolveList(map[], [1, 0], 1) == ([1, 2], map[1 := 1, 0 := 2])
  {
    var t0: Table := map[];
    var t1: Table := map[1 := 1];
    var t2: Table := t1[0 := 2];
    assert |t0| == 0 && |t1| == 1;
    assert Resolve(t0, 1, 1) == (1, t1);
    assert Resolve(t1, 0, 1) == (2, t2);
    var one: seq<nat> := [0];
    var two: seq<nat> := [1, 0];
    assert one[1..] == [] && two[1..] == one;
    assert one[0] == 0 && two[0] == 1;
    assert ResolveList(t2, one[1..], 1) == ([], t2);
    assert ResolveList(t1, one, 1) == ([2] + [], t2);
    assert [2] + [] == [2] && [1] + [2] == [1, 2];
    assert ResolveList(t0, two, 1) == ([1] + [2], t2);
    assert t2 == map[1 := 1, 0 := 2];
  }

  lemma TwoPointsRenumbered(g: SnapGeometry)
    requires g == TwoPointGeometry()
    ensures SnapMergeGeometry(g, 1, SnapTables(map[], map[], TexTables(map[], map[])), 0, FirstSeen)
      == Success((g.(boundaries := Indices([1, 2])), SnapTables(map[1 := 1, 0 := 2], map[], TexTables(map[], map[]))))
  {
    TwoPointsResolved();
    assert Fits(g.boundaries, 1);
    var b := Indices([1, 2]);
    assert Renumber(g.boundaries, map[], 1) == (b, map[1 := 1, 0 := 2]);
  }

  /** `add_one_cjf` as written sends the feature's first point, which
      named the feature's vertex `(2, 2, 2)`, to the document vertex `(1, 1,
      1)`: ids are handed out in first-seen order but the vertices are
      appended in their own order. */
  lemma AddOneCjfMovesPoints()
    ensures IsOrderOf(["a"], TwoPointFeature().cityObjects)
    ensures AddOneCjf(OneVertexDocument(), TwoPointFeature(), ["a"]).Success?
    ensures var d := AddOneCjf(OneVertexDocument(), TwoPointFeature(), ["a"]).value;
      && d.cityObjects["a"].geometry == Some([TwoPointGeometry().(boundaries := Indices([1, 2]))])
      && d.vertices == [Vertex(0, 0, 0), Vertex(1, 1, 1), Vertex(2, 2, 2)]
      && TwoPointFeature().vertices[1] == Vertex(2, 2, 2)
      && d.vertices[1] == Vertex(1, 1, 1)
  {
    var f := TwoPointFeature();
    var doc := OneVertexDocument();
    assert Distinct(["a"]);
    var g := TwoPointGeometry();
    TwoPointsRenumbered(g);
    var co := f.cityObjects["a"];
    var ts := SnapTables(map[], map[], TexTables(map[], map[]));
    var g' := g.(boundaries := Indices([1, 2]));
    var ts' := SnapTables(map[1 := 1, 0 := 2], map[], TexTables(map[], map[]));
    var gs := [g];
    assert gs[0] == g && gs[1..] == [];
    assert SnapMergeGeometry(gs[0], 1, ts, 0, FirstSeen) == Success((g', ts'));
    assert SnapMergeGeometries(gs[1..], 1, ts', 0, FirstSeen) == Success(([], ts'));
    assert [g'] + [] == [g'];
    assert SnapMergeGeometries(gs, 1, ts, 0, FirstSeen) == Success(([g'], ts'));
    assert SnapMergeObject(co, 1, ts, 0, FirstSeen) == Success((co.(geometry := Some([g'])), ts'));
    assert SnapImportAppearance(doc.appearance, f.appearance) == Imports(None, map[], map[], 0);
  }
}
