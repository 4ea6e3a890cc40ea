/** The uv vertices of a merged feature. `add_cjfeature` appends the
    feature's uv vertices to the document's but offsets the feature's uv
    references by the feature's own uv count; this module holds the
    corrected merge, whose uv table sends each feature uv vertex to its
    appended copy, and a feature on which the two differ. */
module MergeUvs {
  import opened Wrappers
  import opened Remap
  import opened NestedArrays
  import opened Appearances
  import opened Geometries
  import opened CityObjects
  import opened Documents
  import opened ObjectRemap
  import opened Merge
  import opened MergeAppearance

  /** The shape of a merged document: the vertices and feature order
      appended, the keys of both, every other member but the appearance
      kept. */
  lemma MergeWithShape(doc: CityJSON, f: CityJSONFeature, order: seq<string>, app: Option<Appearance>, ts: Tables, tOffset: nat)
    requires IsOrderOf(order, f.cityObjects)
    ensures var d := MergeWith(doc, f, order, app, ts, tOffset).0;
      && d.vertices == doc.vertices + f.vertices
      && d.sortedIds == doc.sortedIds + [f.id]
      && (forall k :: k in d.cityObjects <==> k in doc.cityObjects || k in f.cityObjects)
      && d == doc.(cityObjects := d.cityObjects, appearance := app, vertices := d.vertices, sortedIds := d.sortedIds)
  {
    MergeWithSpec(doc, f, order, app, ts, tOffset);
    var d := MergeWith(doc, f, order, app, ts, tOffset).0;
    assert d.vertices == d.vertices[..|doc.vertices|] + d.vertices[|doc.vertices|..];
  }

  /** A merge stores the given appearance and only extends the tables. */
  lemma MergeWithTables(doc: CityJSON, f: CityJSONFeature, order: seq<string>, app: Option<Appearance>, ts: Tables, tOffset: nat)
    requires IsOrderOf(order, f.cityObjects)
    ensures var (d, ts') := MergeWith(doc, f, order, app, ts, tOffset);
      d.appearance == app && TablesExtend(ts, ts')
  {
    MergeWithSpec(doc, f, order, app, ts, tOffset);
  }

  /** The import's uv vertices follow the document's, and the offset is
      the number of the feature's. */
  lemma ImportAppearanceUvs(oa: Option<Appearance>, fa: Option<Appearance>)
    requires ImportAppearance(oa, fa).Success?
    ensures var p := ImportAppearance(oa, fa).value;
      UvsOf(p.appearance) == UvsOf(oa) + UvsOf(fa) && p.uvOffset == |UvsOf(fa)|
  {
    ImportAppearanceSpec(oa, fa);
  }

  /** A table that extends the shift of `n` uv vertices past `prior`
      translates each of `n` appended uv vertices to its copy. */
  lemma ShiftedUvsDenote(t: Table, ouvs: seq<Uv>, fuvs: seq<Uv>)
    requires Extends(UvShift(|fuvs|, |ouvs|), t)
    ensures UvsDenote(t, fuvs, ouvs + fuvs)
  {
    var t0 := UvShift(|fuvs|, |ouvs|);
    var all := ouvs + fuvs;
    forall x | 0 <= x < |fuvs| ensures x in t && t[x] < |all| && all[t[x]] == fuvs[x] {
      assert x in t0;
      assert t[x] == t0[x] == |ouvs| + x;
      assert all[|ouvs| + x] == fuvs[x];
    }
  }

  // ---------------------------------------------------------------------
  // The uv offset
  // ---------------------------------------------------------------------

  /** `t_v_oldnew` pre-filled so that feature uv vertex `x` becomes
      document uv vertex `prior + x`, where the appended copy lies. */
  function UvShift(n: nat, prior: nat): (t: Table)
    ensures forall x: nat :: x in t <==> x < n
    ensures forall x :: x in t ==> t[x] == prior + x
  {
    if n == 0 then map[] else UvShift(n - 1, prior)[n - 1 := prior + n - 1]
  }

  /** The object loop with the uv table translating each feature uv
      vertex to its appended copy, as the material and texture tables
      translate theirs. */
  function MergeCorrected(doc: CityJSON, f: CityJSONFeature, order: seq<string>, p: Imported): (r: (CityJSON, Tables))
    requires IsOrderOf(order, f.cityObjects)
  {
    var prior := |UvsOf(doc.appearance)|;
    MergeWith(doc, f, order, p.appearance, Tables(map[], p.materials, TexTables(p.textures, UvShift(p.uvOffset, prior))),
              prior + p.uvOffset)
  }

  function AddCJFeatureCorrected(doc: CityJSON, f: CityJSONFeature, order: seq<string>): (r: Result<CityJSON, AppearanceError>)
    requires IsOrderOf(order, f.cityObjects)
    ensures r.Success? <==> AppearanceInsertable(f.appearance)
  {
    ImportAppearanceSucceeds(doc.appearance, f.appearance);
    match ImportAppearance(doc.appearance, f.appearance)
    case Failure(e) => Failure(e)
    case Success(p) => Success(MergeCorrected(doc, f, order, p).0)
  }

  /** In the corrected merge every feature uv vertex is translated to the
      document uv vertex holding the same point. */
  lemma AddCJFeatureCorrectedUvs(doc: CityJSON, f: CityJSONFeature, order: seq<string>)
    requires IsOrderOf(order, f.cityObjects)
    requires ImportAppearance(doc.appearance, f.appearance).Success?
    ensures var (d, ts) := MergeCorrected(doc, f, order, ImportAppearance(doc.appearance, f.appearance).value);
      && AddCJFeatureCorrected(doc, f, order) == Success(d)
      && UvsDenote(ts.tex.uvs, UvsOf(f.appearance), UvsOf(d.appearance))
  {
    ImportAppearanceUvs(doc.appearance, f.appearance);
    var p := ImportAppearance(doc.appearance, f.appearance).value;
    var prior := |UvsOf(doc.appearance)|;
    var ts0 := Tables(map[], p.materials, TexTables(p.textures, UvShift(p.uvOffset, prior)));
    MergeWithTables(doc, f, order, p.appearance, ts0, prior + p.uvOffset);
    var ts := MergeCorrected(doc, f, order, p).1;
    ShiftedUvsDenote(ts.tex.uvs, UvsOf(doc.appearance), UvsOf(f.appearance));
  }

  // ---------------------------------------------------------------------
  // A feature whose uv references the as-written merge breaks
  // ---------------------------------------------------------------------

  const UvTexture: Texture := Texture(Png, "facade.png", None, None, None)

  /** A triangle of MultiSurface textured with image 0 and the uv vertices
      `0, 1, 1`. */
  function UvGeometry(): Geometry {
    Geometry(MultiSurface, None, Nested([Nested([Indices([0, 1, 2])])]), None, None,
             Some([("th", TextureReference(Nested([Nested([Indices([Some(0), Some(0), Some(1), Some(1)])])])))]), None, None)
  }

  /** A feature `a` with that triangle, one texture and two uv vertices. */
  function UvFeature(): (f: CityJSONFeature)
    ensures IsOrderOf(["a"], f.cityObjects)
  {
    var co := CityObject("Building", None, None, Some([UvGeometry()]), None, None, None, Json.JNull);
    CityJSONFeature("CityJSONFeature", "a", map["a" := co], [Vertex(0, 0, 0), Vertex(1, 0, 0), Vertex(0, 1, 0)],
                    Some(Appearance(None, Some([UvTexture]), Some([Uv(0.0, 0.0), Uv(1.0, 0.0)]), None, None)), None)
  }

  /** The walk over one surface of one ring is the step on that ring. */
  lemma WalkOneRing<T, S>(xs: seq<T>, s: S, step: (seq<T>, S) -> (seq<T>, S))
    ensures Walk(Nested([Nested([Indices(xs)])]), s, step).0 == Nested([Nested([Indices(step(xs, s).0)])])
  {
    var p := step(xs, s);
    assert Walk(Indices(xs), s, step) == (Indices(p.0), p.1);
    assert [Indices(xs)][1..] == [];
    assert WalkAll([], p.1, step) == ([], p.1);
    assert [Indices(p.0)] + [] == [Indices(p.0)];
    assert WalkAll([Indices(xs)], s, step) == ([Indices(p.0)], p.1);
    assert Walk(Nested([Indices(xs)]), s, step) == (Nested([Indices(p.0)]), p.1);
    assert [Nested([Indices(xs)])][1..] == [];
    assert [Nested([Indices(p.0)])] + [] == [Nested([Indices(p.0)])];
    assert WalkAll([Nested([Indices(xs)])], s, step) == ([Nested([Indices(p.0)])], p.1);
  }

  const UvRefs: seq<Option<nat>> := [Some(0), Some(0), Some(1), Some(1)]

  /** The triangle's texture values after the as-written merge. */
  const UvRefsAsWritten: seq<Option<nat>> := [Some(0), Some(2), Some(3), Some(3)]

  /** The ring pass as written: with `t_v_oldnew` empty and `t_offset = 2`,
      uv 0 gets 2 and uv 1 gets 3. */
  lemma UvRingAsWritten()
    ensures TextureList(UvRefs, 0, TexTables(map[0 := 0], map[]), 2).0 == UvRefsAsWritten
  {
    var xs := UvRefs;
    var s := TexTables(map[0 := 0], map[]);
    var s1 := TexTables(map[0 := 0], map[0 := 2]);
    var s2 := TexTables(map[0 := 0], map[0 := 2, 1 := 3]);
    assert xs[1..] == [Some(0), Some(1), Some(1)] && xs[2..] == [Some(1), Some(1)] && xs[3..] == [Some(1)];
    assert TextureList(xs[3..], 3, s2, 2).0 == [Some(3)];
    assert TextureList(xs[2..], 2, s1, 2).0 == [Some(3), Some(3)];
    assert TextureList(xs[1..], 1, s, 2).0 == [Some(2), Some(3), Some(3)];
  }

  /** The ring pass corrected: every uv keeps its number. */
  lemma UvRingCorrected()
    ensures TextureList(UvRefs, 0, TexTables(map[0 := 0], UvShift(2, 0)), 2).0 == UvRefs
  {
    var xs := UvRefs;
    var u := TexTables(map[0 := 0], UvShift(2, 0));
    assert UvShift(2, 0) == map[0 := 0, 1 := 1];
    assert xs[1..] == [Some(0), Some(1), Some(1)] && xs[2..] == [Some(1), Some(1)] && xs[3..] == [Some(1)];
    assert TextureList(xs[3..], 3, u, 2).0 == [Some(1)];
    assert TextureList(xs[2..], 2, u, 2).0 == [Some(1), Some(1)];
    assert TextureList(xs[1..], 1, u, 2).0 == [Some(0), Some(1), Some(1)];
  }

  /** The triangle through one geometry step, with the uv table `uvs`. */
  lemma UvGeometryMerged(uvs: Table, ys: seq<Option<nat>>)
    requires TextureList(UvRefs, 0, TexTables(map[0 := 0], uvs), 2).0 == ys
    ensures MergeGeometry(UvGeometry(), 0, Tables(map[], map[], TexTables(map[0 := 0], uvs)), 2).0
         == UvGeometry().(texture := Some([("th", TextureReference(Nested([Nested([Indices(ys)])])))]))
  {
    var g := UvGeometry();
    var s := TexTables(map[0 := 0], uvs);
    WalkOneRing(UvRefs, s, TextureStep(2));
    assert Offset(g.boundaries, 0) == g.boundaries by {
      assert AddToAll([0, 1, 2], 0) == [0, 1, 2];
      WalkOneRing([0, 1, 2], (), OffsetStep(0));
    }
    var th := g.texture.value;
    assert [th[0]][1..] == [];
    assert UpdateTextureThemes(th, s, 2).0 == [("th", TextureReference(Nested([Nested([Indices(ys)])])))];
  }

  const UvPoints: seq<Uv> := [Uv(0.0, 0.0), Uv(1.0, 0.0)]

  /** The feature's appearance goes into the empty document as it is, with
      texture 0 kept at 0 and `t_offset = 2`. */
  lemma UvFeatureImported()
    ensures ImportAppearance(None, UvFeature().appearance)
         == Success(Imported(Some(Appearance(None, Some([UvTexture]), Some(UvPoints), None, None)), map[], map[0 := 0], 2))
  {
    var fa := UvFeature().appearance.value;
    assert AddTexture(EmptyAppearance, UvTexture) == Success((EmptyAppearance.(textures := Some([UvTexture])), 0));
    assert ImportTextures(None, fa) == Success((Some(EmptyAppearance.(textures := Some([UvTexture]))), map[0 := 0]));
  }

  /** The feature's one object, moved with tables `ts`. */
  lemma UvObjectsMerged(ts: Tables)
    ensures MergeObjects(map[], UvFeature().cityObjects, ["a"], 0, ts, 2).0
         == map["a" := UvFeature().cityObjects["a"].(geometry := Some([MergeGeometry(UvGeometry(), 0, ts, 2).0]))]
  {
    var co := UvFeature().cityObjects["a"];
    assert [UvGeometry()][1..] == [];
    assert MergeGeometries([UvGeometry()], 0, ts, 2).0 == [MergeGeometry(UvGeometry(), 0, ts, 2).0];
    assert ["a"][1..] == [];
  }

  /** Merged into an empty document, the as-written merge numbers the uv
      references `2, 3, 3` although the document holds two uv vertices. */
  lemma UvOffsetAsWritten()
    ensures var d := AddCJFeature(NewCityJSON, UvFeature(), ["a"]);
      && d.Success?
      && UvsOf(d.value.appearance) == UvPoints
      && "a" in d.value.cityObjects
      && d.value.cityObjects["a"].geometry
         == Some([UvGeometry().(texture := Some([("th", TextureReference(Nested([Nested([Indices(UvRefsAsWritten)])])))]))])
  {
    UvFeatureImported();
    UvRingAsWritten();
    UvGeometryMerged(map[], UvRefsAsWritten);
    UvObjectsMerged(Tables(map[], map[], TexTables(map[0 := 0], map[])));
  }

  /** The corrected merge keeps the references `0, 1, 1`, which name the
      same two points in the document. */
  lemma UvOffsetCorrected()
    ensures var c := AddCJFeatureCorrected(NewCityJSON, UvFeature(), ["a"]);
      && c.Success?
      && UvsOf(c.value.appearance) == UvPoints
      && "a" in c.value.cityObjects
      && c.value.cityObjects["a"].geometry == Some([UvGeometry()])
  {
    UvFeatureImported();
    UvRingCorrected();
    UvGeometryMerged(UvShift(2, 0), UvRefs);
    assert UvGeometry().(texture := Some([("th", TextureReference(Nested([Nested([Indices(UvRefs)])])))])) == UvGeometry();
    UvObjectsMerged(Tables(map[], map[], TexTables(map[0 := 0], UvShift(2, 0))));
  }
}
