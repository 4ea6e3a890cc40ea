/** `CityJSON::add_cjfeature`: merging one feature into a document. The
    feature's materials and textures are inserted into the document's
    (deduplicated by name and image), its uv vertices appended, and every
    geometry of every feature object is moved into the document's index
    space: vertex ids shifted by the document's vertex count, material and
    texture ids renumbered through the tables the insertions produced. */
module Merge {
  import opened Wrappers
  import opened Remap
  import opened NestedArrays
  import opened Appearances
  import opened Geometries
  import opened CityObjects
  import opened Documents
  import opened Sequences
  import opened ObjectRemap
  import opened MergeAppearance

  // ---------------------------------------------------------------------
  // Moving the feature's objects into the document
  // ---------------------------------------------------------------------

  /** One geometry: `offset_geometry_boundaries(g_offset)`,
      `update_material(m_oldnew)`, `update_texture(t_oldnew, t_v_oldnew,
      t_offset)`. The vertex table of `ts` is not used. */
  function MergeGeometry(g: Geometry, gOffset: nat, ts: Tables, tOffset: nat): (r: (Geometry, Tables)) {
    var m := UpdateMaterial(OffsetBoundaries(g, gOffset), ts.materials);
    var t := UpdateTexture(m.0, ts.tex, tOffset);
    (t.0, ts.(materials := m.1, tex := t.1))
  }

  function MergeGeometries(gs: seq<Geometry>, gOffset: nat, ts: Tables, tOffset: nat): (r: (seq<Geometry>, Tables))
    ensures |r.0| == |gs|
    decreases |gs|
  {
    if |gs| == 0 then ([], ts)
    else
      var p := MergeGeometry(gs[0], gOffset, ts, tOffset);
      var q := MergeGeometries(gs[1..], gOffset, p.1, tOffset);
      ([p.0] + q.0, q.1)
  }

  function MergeObject(co: CityObject, gOffset: nat, ts: Tables, tOffset: nat): (r: (CityObject, Tables)) {
    match co.geometry
    case None => (co, ts)
    case Some(gs) =>
      var p := MergeGeometries(gs, gOffset, ts, tOffset);
      (co.(geometry := Some(p.0)), p.1)
  }

  /** The object loop: each feature object, in the map's order `keys`, is
      moved and then inserted (`add_co`), replacing any document object of
      the same key. */
  function MergeObjects(target: map<string, CityObject>, src: map<string, CityObject>, keys: seq<string>,
                        gOffset: nat, ts: Tables, tOffset: nat): (r: (map<string, CityObject>, Tables))
    requires forall i :: 0 <= i < |keys| ==> keys[i] in src
    decreases |keys|
  {
    if |keys| == 0 then (target, ts)
    else
      var p := MergeObject(src[keys[0]], gOffset, ts, tOffset);
      MergeObjects(target[keys[0] := p.0], src, keys[1..], gOffset, p.1, tOffset)
  }

  /** Every vertex id is shifted by `gOffset`; material and texture
      references are renumbered through `ts`; nothing else differs. */
  ghost predicate MergedGeometry(g: Geometry, g': Geometry, gOffset: nat, ts: Tables) {
    && g' == g.(boundaries := Offset(g.boundaries, gOffset), material := g'.material, texture := g'.texture)
    && MaterialMapped(g, g', ts.materials)
    && TextureMapped(g, g', ts.tex)
  }

  ghost predicate MergedObject(co: CityObject, co': CityObject, gOffset: nat, ts: Tables) {
    && co' == co.(geometry := co'.geometry)
    && co'.geometry.Some? == co.geometry.Some?
    && (co.geometry.Some? ==>
          && |co'.geometry.value| == |co.geometry.value|
          && forall i :: 0 <= i < |co.geometry.value| ==> MergedGeometry(co.geometry.value[i], co'.geometry.value[i], gOffset, ts))
  }

  lemma MergedGeometryExtends(g: Geometry, g': Geometry, gOffset: nat, ts: Tables, ts': Tables)
    requires MergedGeometry(g, g', gOffset, ts) && TablesExtend(ts, ts')
    ensures MergedGeometry(g, g', gOffset, ts')
  {
    MaterialMappedExtends(g, g', ts.materials, ts'.materials);
    TextureMappedExtends(g, g', ts.tex, ts'.tex);
  }

  lemma MergedObjectExtends(co: CityObject, co': CityObject, gOffset: nat, ts: Tables, ts': Tables)
    requires MergedObject(co, co', gOffset, ts) && TablesExtend(ts, ts')
    ensures MergedObject(co, co', gOffset, ts')
  {
    if co.geometry.Some? {
      var gs := co.geometry.value;
      forall i | 0 <= i < |gs| ensures MergedGeometry(gs[i], co'.geometry.value[i], gOffset, ts') {
        MergedGeometryExtends(gs[i], co'.geometry.value[i], gOffset, ts, ts');
      }
    }
  }

  lemma MergeGeometrySpec(g: Geometry, gOffset: nat, ts: Tables, tOffset: nat)
    ensures var r := MergeGeometry(g, gOffset, ts, tOffset);
      && MergedGeometry(g, r.0, gOffset, r.1)
      && TablesExtend(ts, r.1)
      && r.1.vertices == ts.vertices
  {
    var b := OffsetBoundaries(g, gOffset);
    var m := UpdateMaterial(b, ts.materials);
    var t := UpdateTexture(m.0, ts.tex, tOffset);
    UpdateMaterialSpec(b, ts.materials);
    UpdateTextureSpec(m.0, ts.tex, tOffset);
    assert MaterialMapped(g, t.0, m.1);
  }

  lemma {:induction false} MergeGeometriesSpec(gs: seq<Geometry>, gOffset: nat, ts: Tables, tOffset: nat)
    ensures var r := MergeGeometries(gs, gOffset, ts, tOffset);
      && (forall i :: 0 <= i < |gs| ==> MergedGeometry(gs[i], r.0[i], gOffset, r.1))
      && TablesExtend(ts, r.1)
      && r.1.vertices == ts.vertices
    decreases |gs|
  {
    if |gs| > 0 {
      var p := MergeGeometry(gs[0], gOffset, ts, tOffset);
      var q := MergeGeometries(gs[1..], gOffset, p.1, tOffset);
      MergeGeometrySpec(gs[0], gOffset, ts, tOffset);
      MergeGeometriesSpec(gs[1..], gOffset, p.1, tOffset);
      MergedGeometryExtends(gs[0], p.0, gOffset, p.1, q.1);
      TablesExtendTransitive(ts, p.1, q.1);
      var r := [p.0] + q.0;
      forall i | 1 <= i < |gs| ensures MergedGeometry(gs[i], r[i], gOffset, q.1) {
        assert gs[i] == gs[1..][i - 1] && r[i] == q.0[i - 1];
      }
    }
  }

  lemma MergeObjectSpec(co: CityObject, gOffset: nat, ts: Tables, tOffset: nat)
    ensures var r := MergeObject(co, gOffset, ts, tOffset);
      && MergedObject(co, r.0, gOffset, r.1)
      && TablesExtend(ts, r.1)
      && r.1.vertices == ts.vertices
  {
    if co.geometry.Some? {
      MergeGeometriesSpec(co.geometry.value, gOffset, ts, tOffset);
    }
  }

  /** The object loop inserts exactly the listed keys and leaves every
      other document object alone. */
  lemma {:induction false} MergeObjectsKeys(target: map<string, CityObject>, src: map<string, CityObject>, keys: seq<string>,
                                            gOffset: nat, ts: Tables, tOffset: nat)
    requires forall i :: 0 <= i < |keys| ==> keys[i] in src
    ensures var r := MergeObjects(target, src, keys, gOffset, ts, tOffset);
      && (forall k :: k in r.0 <==> k in target || k in keys)
      && (forall k :: k in target && k !in keys ==> r.0[k] == target[k])
    decreases |keys|
  {
    if |keys| > 0 {
      var p := MergeObject(src[keys[0]], gOffset, ts, tOffset);
      MergeObjectsKeys(target[keys[0] := p.0], src, keys[1..], gOffset, p.1, tOffset);
      assert MergeObjects(target, src, keys, gOffset, ts, tOffset) == MergeObjects(target[keys[0] := p.0], src, keys[1..], gOffset, p.1, tOffset);
      assert keys == [keys[0]] + keys[1..];
      forall k ensures k in keys <==> k == keys[0] || k in keys[1..] {
        if k in keys[1..] {
          var j :| 0 <= j < |keys[1..]| && keys[1..][j] == k;
          assert keys[j + 1] == k;
        }
      }
    }
  }

  /** Every listed object arrives moved, through the loop's final tables,
      which extend the initial ones. */
  lemma {:induction false} MergeObjectsMapped(target: map<string, CityObject>, src: map<string, CityObject>, keys: seq<string>,
                                              gOffset: nat, ts: Tables, tOffset: nat)
    requires forall i :: 0 <= i < |keys| ==> keys[i] in src
    requires Distinct(keys)
    ensures var r := MergeObjects(target, src, keys, gOffset, ts, tOffset);
      && TablesExtend(ts, r.1)
      && r.1.vertices == ts.vertices
      && (forall k :: k in keys ==> k in r.0 && MergedObject(src[k], r.0[k], gOffset, r.1))
    decreases |keys|
  {
    if |keys| > 0 {
      var k0 := keys[0];
      var p := MergeObject(src[k0], gOffset, ts, tOffset);
      var target' := target[k0 := p.0];
      var r := MergeObjects(target', src, keys[1..], gOffset, p.1, tOffset);
      MergeObjectSpec(src[k0], gOffset, ts, tOffset);
      forall j | 0 <= j < |keys[1..]| ensures keys[1..][j] != k0 {
        assert keys[1..][j] == keys[j + 1];
      }
      MergeObjectsKeys(target', src, keys[1..], gOffset, p.1, tOffset);
      MergeObjectsMapped(target', src, keys[1..], gOffset, p.1, tOffset);
      MergedObjectExtends(src[k0], p.0, gOffset, p.1, r.1);
      TablesExtendTransitive(ts, p.1, r.1);
      assert keys == [k0] + keys[1..];
    }
  }

  // ---------------------------------------------------------------------
  // add_cjfeature
  // ---------------------------------------------------------------------

  /** The merge once the appearance is in: the objects moved and inserted
      in the map's order, the feature's vertices appended, its id appended
      to the feature order. Also returns the final tables. */
  function MergeWith(doc: CityJSON, f: CityJSONFeature, order: seq<string>, app: Option<Appearance>,
                     ts: Tables, tOffset: nat): (r: (CityJSON, Tables))
    requires IsOrderOf(order, f.cityObjects)
  {
    var objs := MergeObjects(doc.cityObjects, f.cityObjects, order, |doc.vertices|, ts, tOffset);
    (doc.(cityObjects := objs.0, appearance := app, vertices := doc.vertices + f.vertices,
          sortedIds := doc.sortedIds + [f.id]),
     objs.1)
  }

  /** The object loop as written: `m_oldnew` and `t_oldnew` filled by the
      insertions, `t_v_oldnew` empty, and a uv vertex not yet seen given
      `len + t_offset` with `t_offset` the feature's uv count. */
  function MergeAsWritten(doc: CityJSON, f: CityJSONFeature, order: seq<string>, p: Imported): (r: (CityJSON, Tables))
    requires IsOrderOf(order, f.cityObjects)
  {
    MergeWith(doc, f, order, p.appearance, Tables(map[], p.materials, TexTables(p.textures, map[])), p.uvOffset)
  }

  /** `CityJSON::add_cjfeature`. A panic on an invalid material or
      texture is a failure. */
  function AddCJFeature(doc: CityJSON, f: CityJSONFeature, order: seq<string>): (r: Result<CityJSON, AppearanceError>)
    requires IsOrderOf(order, f.cityObjects)
    ensures r.Success? <==> AppearanceInsertable(f.appearance)
  {
    ImportAppearanceSucceeds(doc.appearance, f.appearance);
    match ImportAppearance(doc.appearance, f.appearance)
    case Failure(e) => Failure(e)
    case Success(p) => Success(MergeAsWritten(doc, f, order, p).0)
  }

  /** What merging promises, whatever the tables: the document gains the
      feature's vertices after its own and the feature's id at the end of
      the feature order; its objects are the old ones plus the feature's,
      the feature's replacing any of the same key; every feature object
      arrives with vertex ids shifted past the document's vertices and its
      references renumbered through the final tables; nothing else
      changes. */
  lemma MergeWithSpec(doc: CityJSON, f: CityJSONFeature, order: seq<string>, app: Option<Appearance>, ts: Tables, tOffset: nat)
    requires IsOrderOf(order, f.cityObjects)
    ensures var (d, ts') := MergeWith(doc, f, order, app, ts, tOffset);
      && |d.vertices| == |doc.vertices| + |f.vertices|
      && d.vertices[..|doc.vertices|] == doc.vertices
      && d.vertices[|doc.vertices|..] == f.vertices
      && d.sortedIds == doc.sortedIds + [f.id]
      && (forall k :: k in d.cityObjects <==> k in doc.cityObjects || k in f.cityObjects)
      && (forall k :: k in doc.cityObjects && k !in f.cityObjects ==> d.cityObjects[k] == doc.cityObjects[k])
      && (forall k :: k in f.cityObjects ==> k in d.cityObjects && MergedObject(f.cityObjects[k], d.cityObjects[k], |doc.vertices|, ts'))
      && TablesExtend(ts, ts')
      && d == doc.(cityObjects := d.cityObjects, appearance := app, vertices := d.vertices, sortedIds := d.sortedIds)
  {
    MergeObjectsKeys(doc.cityObjects, f.cityObjects, order, |doc.vertices|, ts, tOffset);
    MergeObjectsMapped(doc.cityObjects, f.cityObjects, order, |doc.vertices|, ts, tOffset);
  }

  /** After a merge, every material and texture reference of a feature
      object names a document material or texture with the name or image
      it named in the feature; the document's existing materials and
      textures keep their positions; the feature's uv vertices follow the
      document's. */
  lemma AddCJFeatureAppearance(doc: CityJSON, f: CityJSONFeature, order: seq<string>)
    requires IsOrderOf(order, f.cityObjects)
    requires ImportAppearance(doc.appearance, f.appearance).Success?
    ensures var (d, ts) := MergeAsWritten(doc, f, order, ImportAppearance(doc.appearance, f.appearance).value);
      && AddCJFeature(doc, f, order) == Success(d)
      && MaterialsDenote(ts.materials, MaterialsOf(f.appearance), MaterialsOf(d.appearance))
      && TexturesDenote(ts.tex.textures, TexturesOf(f.appearance), TexturesOf(d.appearance))
    ensures var d := AddCJFeature(doc, f, order).value;
      && |MaterialsOf(doc.appearance)| <= |MaterialsOf(d.appearance)|
      && MaterialsOf(d.appearance)[..|MaterialsOf(doc.appearance)|] == MaterialsOf(doc.appearance)
      && |TexturesOf(doc.appearance)| <= |TexturesOf(d.appearance)|
      && TexturesOf(d.appearance)[..|TexturesOf(doc.appearance)|] == TexturesOf(doc.appearance)
      && UvsOf(d.appearance) == UvsOf(doc.appearance) + UvsOf(f.appearance)
  {
    ImportAppearanceSpec(doc.appearance, f.appearance);
    var p := ImportAppearance(doc.appearance, f.appearance).value;
    var ts := Tables(map[], p.materials, TexTables(p.textures, map[]));
    MergeWithSpec(doc, f, order, p.appearance, ts, p.uvOffset);
  }

  /** A vertex reference of a merged feature object is the old reference
      plus the document's former vertex count and denotes the same
      coordinates. */
  lemma MergeKeepsCoordinates(doc: CityJSON, f: CityJSONFeature, order: seq<string>, k: string, gi: nat, p: nat)
    requires IsOrderOf(order, f.cityObjects)
    requires AppearanceInsertable(f.appearance)
    requires k in f.cityObjects && f.cityObjects[k].geometry.Some?
    requires gi < |f.cityObjects[k].geometry.value|
    requires p < |Leaves(f.cityObjects[k].geometry.value[gi].boundaries)|
    requires Leaves(f.cityObjects[k].geometry.value[gi].boundaries)[p] < |f.vertices|
    ensures var d := AddCJFeature(doc, f, order).value;
      && k in d.cityObjects && d.cityObjects[k].geometry.Some?
      && gi < |d.cityObjects[k].geometry.value|
      && p < |Leaves(d.cityObjects[k].geometry.value[gi].boundaries)|
    ensures var d := AddCJFeature(doc, f, order).value;
      var was := Leaves(f.cityObjects[k].geometry.value[gi].boundaries)[p];
      var now := Leaves(d.cityObjects[k].geometry.value[gi].boundaries)[p];
      && now == was + |doc.vertices|
      && now < |d.vertices|
      && d.vertices[now] == f.vertices[was]
  {
    ImportAppearanceSucceeds(doc.appearance, f.appearance);
    var im := ImportAppearance(doc.appearance, f.appearance).value;
    MergeWithSpec(doc, f, order, im.appearance, Tables(map[], im.materials, TexTables(im.textures, map[])), im.uvOffset);
    OffsetSpec(f.cityObjects[k].geometry.value[gi].boundaries, |doc.vertices|);
  }
}
