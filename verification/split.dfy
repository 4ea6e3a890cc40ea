/** The split of a CityJSON document into CityJSONSeq lines: the first
    line (`get_metadata`) and one feature per top-level object
    (`get_cjfeature`), each with its own vertex list and appearance sliced
    through the tables that renumbered its references. Panics of the
    library (`unwrap` on a missing child, indexing past the end of a
    source list) are `Failure`s. */
module Split {
  import opened Wrappers
  import opened Remap
  import opened NestedArrays
  import opened Appearances
  import opened Geometries
  import opened CityObjects
  import opened Documents
  import opened ObjectRemap

  datatype SplitError =
    | MissingChild(key: string)
    | IndexOutOfRange(part: string)

  // ---------------------------------------------------------------------
  // Slicing
  // ---------------------------------------------------------------------

  /** `r` is `src` re-indexed through `t`: entry `t[old]` holds `src[old]`. */
  ghost predicate SlicedBy<T>(src: seq<T>, r: seq<T>, t: Table) {
    && |r| == |t|
    && forall k :: k in t ==> k < |src| && t[k] < |r| && r[t[k]] == src[k]
  }

  ghost predicate OptSliced<T>(src: Option<seq<T>>, r: Option<seq<T>>, t: Table) {
    r.Some? == src.Some? && (src.Some? ==> SlicedBy(src.value, r.value, t))
  }

  predicate OptInRange<T>(src: Option<seq<T>>, t: Table) {
    src.Some? ==> KeysBelow(t, |src.value|)
  }

  /** Slices a list that may be absent; `None` when an old id is past its
      end. */
  function SliceOpt<T>(src: Option<seq<T>>, t: Table): (r: Option<Option<seq<T>>>)
    requires DenseFrom(t, 0)
    ensures r.Some? <==> OptInRange(src, t)
    ensures r.Some? ==> OptSliced(src, r.value, t)
  {
    match src
    case None => Some(None)
    case Some(s) =>
      match SliceChecked(s, t)
      case None => None
      case Some(s') => Some(Some(s'))
  }

  /** The appearance of a line: the default themes, and the materials,
      textures and uv vertices the tables reference, in their new order. */
  ghost predicate AppearanceSliced(a: Appearance, a': Appearance, ts: Tables) {
    && a'.defaultThemeMaterial == a.defaultThemeMaterial
    && a'.defaultThemeTexture == a.defaultThemeTexture
    && OptSliced(a.materials, a'.materials, ts.materials)
    && OptSliced(a.textures, a'.textures, ts.tex.textures)
    && OptSliced(a.verticesTexture, a'.verticesTexture, ts.tex.uvs)
  }

  predicate AppearanceInRange(a: Appearance, ts: Tables) {
    && OptInRange(a.materials, ts.materials)
    && OptInRange(a.textures, ts.tex.textures)
    && OptInRange(a.verticesTexture, ts.tex.uvs)
  }

  function SliceAppearance(a: Appearance, ts: Tables): (r: Option<Appearance>)
    requires TablesDense(ts)
    ensures r.Some? <==> AppearanceInRange(a, ts)
    ensures r.Some? ==> AppearanceSliced(a, r.value, ts)
  {
    match SliceOpt(a.materials, ts.materials)
    case None => None
    case Some(ms) =>
      match SliceOpt(a.textures, ts.tex.textures)
      case None => None
      case Some(xs) =>
        match SliceOpt(a.verticesTexture, ts.tex.uvs)
        case None => None
        case Some(uvs) => Some(Appearance(ms, xs, uvs, a.defaultThemeTexture, a.defaultThemeMaterial))
  }

  // ---------------------------------------------------------------------
  // get_cjfeature
  // ---------------------------------------------------------------------

  /** The children loop: each listed child is looked up (a missing one
      panics), renumbered with the running tables and inserted. */
  function RemapChildren(cos: map<string, CityObject>, keys: seq<string>, acc: map<string, CityObject>, ts: Tables)
    : (r: Result<(map<string, CityObject>, Tables), SplitError>)
    ensures r.Success? <==> forall j :: 0 <= j < |keys| ==> keys[j] in cos
    ensures r.Failure? ==> r.error.MissingChild? && r.error.key in keys && r.error.key !in cos
    decreases |keys|
  {
    if |keys| == 0 then Success((acc, ts))
    else if keys[0] !in cos then Failure(MissingChild(keys[0]))
    else
      var p := RemapObject(cos[keys[0]], ts);
      assert forall j :: 1 <= j < |keys| ==> keys[j] == keys[1..][j - 1];
      RemapChildren(cos, keys[1..], acc[keys[0] := p.0], p.1)
  }

  ghost predicate ChildrenLeavesBelow(cos: map<string, CityObject>, keys: seq<string>, n: nat) {
    forall j :: 0 <= j < |keys| && keys[j] in cos ==> ObjectLeavesBelow(cos[keys[j]], n)
  }

  /** The children loop inserts exactly the listed children. */
  lemma {:induction false} RemapChildrenKeys(cos: map<string, CityObject>, keys: seq<string>, acc: map<string, CityObject>, ts: Tables)
    ensures var r := RemapChildren(cos, keys, acc, ts);
      r.Success? ==> forall k :: k in r.value.0 <==> k in acc || k in keys
    decreases |keys|
  {
    if |keys| > 0 && keys[0] in cos {
      var p := RemapObject(cos[keys[0]], ts);
      RemapChildrenKeys(cos, keys[1..], acc[keys[0] := p.0], p.1);
      assert keys == [keys[0]] + keys[1..];
    }
  }

  /** Every object the children loop holds is renumbered through its final
      tables, which extend the starting ones and stay dense. */
  lemma {:induction false} RemapChildrenMapped(cos: map<string, CityObject>, keys: seq<string>, acc: map<string, CityObject>, ts: Tables)
    requires forall k :: k in acc ==> k in cos && ObjectMapped(cos[k], acc[k], ts)
    ensures var r := RemapChildren(cos, keys, acc, ts);
      r.Success? ==>
        && (forall k :: k in r.value.0 ==> k in cos && ObjectMapped(cos[k], r.value.0[k], r.value.1))
        && TablesExtend(ts, r.value.1)
        && (TablesDense(ts) ==> TablesDense(r.value.1))
    decreases |keys|
  {
    if |keys| > 0 && keys[0] in cos {
      var p := RemapObject(cos[keys[0]], ts);
      RemapObjectSpec(cos[keys[0]], ts, 0);
      var acc' := acc[keys[0] := p.0];
      forall k | k in acc' ensures k in cos && ObjectMapped(cos[k], acc'[k], p.1) {
        if k != keys[0] {
          ObjectMappedExtends(cos[k], acc[k], ts, p.1);
        }
      }
      RemapChildrenMapped(cos, keys[1..], acc', p.1);
      var r := RemapChildren(cos, keys, acc, ts);
      if r.Success? {
        TablesExtendTransitive(ts, p.1, r.value.1);
      }
    }
  }

  /** With every leaf of every child below `n`, so is every key of the
      final vertex table. */
  lemma {:induction false} RemapChildrenBelow(cos: map<string, CityObject>, keys: seq<string>, acc: map<string, CityObject>, ts: Tables, n: nat)
    requires KeysBelow(ts.vertices, n) && ChildrenLeavesBelow(cos, keys, n)
    ensures var r := RemapChildren(cos, keys, acc, ts);
      r.Success? ==> KeysBelow(r.value.1.vertices, n)
    decreases |keys|
  {
    if |keys| > 0 && keys[0] in cos {
      var p := RemapObject(cos[keys[0]], ts);
      RemapObjectSpec(cos[keys[0]], ts, n);
      forall j | 0 <= j < |keys[1..]| && keys[1..][j] in cos ensures ObjectLeavesBelow(cos[keys[1..][j]], n) {
        assert keys[1..][j] == keys[j + 1];
      }
      RemapChildrenBelow(cos, keys[1..], acc[keys[0] := p.0], p.1, n);
    }
  }

  /** The object `id` and its direct children, renumbered in that order
      through fresh tables, keyed by their ids. */
  function FeatureObjects(doc: CityJSON, id: string): (r: Result<(map<string, CityObject>, Tables), SplitError>)
    requires id in doc.cityObjects
  {
    var co := doc.cityObjects[id];
    var p := RemapObject(co, EmptyTables);
    RemapChildren(doc.cityObjects, ChildrenKeys(co), map[id := p.0], p.1)
  }

  /** Every boundary leaf of the object `id` and of its present children
      is below `n`. */
  ghost predicate FamilyLeavesBelow(doc: CityJSON, id: string, n: nat)
    requires id in doc.cityObjects
  {
    ObjectLeavesBelow(doc.cityObjects[id], n) && ChildrenLeavesBelow(doc.cityObjects, ChildrenKeys(doc.cityObjects[id]), n)
  }

  lemma FeatureObjectsSpec(doc: CityJSON, id: string)
    requires id in doc.cityObjects
    ensures var co := doc.cityObjects[id];
      var r := FeatureObjects(doc, id);
      && (r.Success? <==> forall j :: 0 <= j < |ChildrenKeys(co)| ==> ChildrenKeys(co)[j] in doc.cityObjects)
      && (r.Success? ==>
        && (forall k :: k in r.value.0 <==> k == id || k in ChildrenKeys(co))
        && (forall k :: k in r.value.0 ==> k in doc.cityObjects && ObjectMapped(doc.cityObjects[k], r.value.0[k], r.value.1))
        && TablesDense(r.value.1)
        && (FamilyLeavesBelow(doc, id, |doc.vertices|) ==> KeysBelow(r.value.1.vertices, |doc.vertices|)))
  {
    var n := |doc.vertices|;
    var co := doc.cityObjects[id];
    var p := RemapObject(co, EmptyTables);
    RemapObjectSpec(co, EmptyTables, n);
    EmptyTablesDense();
    RemapChildrenKeys(doc.cityObjects, ChildrenKeys(co), map[id := p.0], p.1);
    RemapChildrenMapped(doc.cityObjects, ChildrenKeys(co), map[id := p.0], p.1);
    if FamilyLeavesBelow(doc, id, n) {
      RemapChildrenBelow(doc.cityObjects, ChildrenKeys(co), map[id := p.0], p.1, n);
    }
  }

  /** `CityJSON::get_cjfeature`: `None` past the end of the feature order
      or for an id without an object; otherwise the feature of the `i`-th
      top-level object. */
  function GetCJFeature(doc: CityJSON, i: nat): (r: Result<Option<CityJSONFeature>, SplitError>)
    ensures r == Success(None) <==> i >= |doc.sortedIds| || doc.sortedIds[i] !in doc.cityObjects
    ensures r.Success? && r.value.Some? ==>
      && r.value.value.id == doc.sortedIds[i]
      && r.value.value.thetype == "CityJSONFeature"
      && r.value.value.extensions.None?
      && r.value.value.appearance.Some? == doc.appearance.Some?
  {
    if i >= |doc.sortedIds| then Success(None)
    else
      var id := doc.sortedIds[i];
      if id !in doc.cityObjects then Success(None)
      else
        FeatureObjectsSpec(doc, id);
        match FeatureObjects(doc, id)
        case Failure(e) => Failure(e)
        case Success(p) =>
          match SliceChecked(doc.vertices, p.1.vertices)
          case None => Failure(IndexOutOfRange("vertices"))
          case Some(vs) =>
            match doc.appearance
            case None => Success(Some(CityJSONFeature("CityJSONFeature", id, p.0, vs, None, None)))
            case Some(a) =>
              match SliceAppearance(a, p.1)
              case None => Failure(IndexOutOfRange("appearance"))
              case Some(a') => Success(Some(CityJSONFeature("CityJSONFeature", id, p.0, vs, Some(a'), None)))
  }

  /** A feature holds the object and its direct children only, each with
      its references renumbered through the feature's tables; its vertices
      and appearance are the document's, sliced through the same tables. */
  lemma GetCJFeatureSpec(doc: CityJSON, i: nat)
    requires GetCJFeature(doc, i).Success? && GetCJFeature(doc, i).value.Some?
    ensures i < |doc.sortedIds| && doc.sortedIds[i] in doc.cityObjects
    ensures FeatureObjects(doc, doc.sortedIds[i]).Success?
    ensures var f := GetCJFeature(doc, i).value.value;
      var id := doc.sortedIds[i];
      var ts := FeatureObjects(doc, id).value.1;
      && (forall k :: k in f.cityObjects <==> k == id || k in ChildrenKeys(doc.cityObjects[id]))
      && (forall k :: k in f.cityObjects ==> k in doc.cityObjects && ObjectMapped(doc.cityObjects[k], f.cityObjects[k], ts))
      && SlicedBy(doc.vertices, f.vertices, ts.vertices)
      && (doc.appearance.Some? ==> AppearanceSliced(doc.appearance.value, f.appearance.value, ts))
  {
    FeatureObjectsSpec(doc, doc.sortedIds[i]);
  }

  /** Every boundary leaf of a feature is a valid index into the feature's
      vertices and denotes the same coordinates as the leaf it came from. */
  lemma FeatureKeepsCoordinates(doc: CityJSON, i: nat, k: string, gi: nat, p: nat)
    requires GetCJFeature(doc, i).Success? && GetCJFeature(doc, i).value.Some?
    requires k in GetCJFeature(doc, i).value.value.cityObjects
    requires k in doc.cityObjects && doc.cityObjects[k].geometry.Some?
    requires gi < |doc.cityObjects[k].geometry.value|
    requires p < |Leaves(doc.cityObjects[k].geometry.value[gi].boundaries)|
    ensures var f := GetCJFeature(doc, i).value.value;
      f.cityObjects[k].geometry.Some? && gi < |f.cityObjects[k].geometry.value|
    ensures var f := GetCJFeature(doc, i).value.value;
      var g := doc.cityObjects[k].geometry.value[gi];
      var g' := f.cityObjects[k].geometry.value[gi];
      && p < |Leaves(g'.boundaries)|
      && Leaves(g'.boundaries)[p] < |f.vertices|
      && Leaves(g.boundaries)[p] < |doc.vertices|
      && f.vertices[Leaves(g'.boundaries)[p]] == doc.vertices[Leaves(g.boundaries)[p]]
  {
    GetCJFeatureSpec(doc, i);
  }

  /** With every child present, every leaf in range and no appearance, the
      split of a listed object succeeds. */
  lemma GetCJFeatureSucceeds(doc: CityJSON, i: nat)
    requires i < |doc.sortedIds| && doc.sortedIds[i] in doc.cityObjects
    requires var co := doc.cityObjects[doc.sortedIds[i]];
      forall j :: 0 <= j < |ChildrenKeys(co)| ==> ChildrenKeys(co)[j] in doc.cityObjects
    requires FamilyLeavesBelow(doc, doc.sortedIds[i], |doc.vertices|)
    requires doc.appearance.None?
    ensures GetCJFeature(doc, i).Success? && GetCJFeature(doc, i).value.Some?
  {
    FeatureObjectsSpec(doc, doc.sortedIds[i]);
  }

  /** A child listed by the object but absent from the document makes the
      split panic. */
  lemma GetCJFeatureMissingChild(doc: CityJSON, i: nat, j: nat)
    requires i < |doc.sortedIds| && doc.sortedIds[i] in doc.cityObjects
    requires var co := doc.cityObjects[doc.sortedIds[i]];
      j < |ChildrenKeys(co)| && ChildrenKeys(co)[j] !in doc.cityObjects
    ensures GetCJFeature(doc, i).Failure? && GetCJFeature(doc, i).error.MissingChild?
  {
    FeatureObjectsSpec(doc, doc.sortedIds[i]);
  }

  // ---------------------------------------------------------------------
  // get_metadata
  // ---------------------------------------------------------------------

  /** The first line without appearance: no city objects, no vertices,
      every other member copied. */
  function MetadataBase(doc: CityJSON): (r: CityJSON) {
    doc.(cityObjects := map[], vertices := [], appearance := None, sortedIds := [])
  }

  /** `CityJSON::get_metadata` as written: the template references are
      renumbered in a copy and the appearance is sliced through those
      tables, but the templates stored are the originals. */
  function GetMetadata(doc: CityJSON): (r: Result<CityJSON, SplitError>)
    ensures r.Failure? ==> doc.geometryTemplates.Some? && doc.appearance.Some?
    ensures r.Success? ==>
      && r.value == doc.(cityObjects := map[], vertices := [], appearance := r.value.appearance, sortedIds := [])
      && (r.value.appearance.Some? <==> doc.geometryTemplates.Some? && doc.appearance.Some?)
  {
    match doc.geometryTemplates
    case None => Success(MetadataBase(doc))
    case Some(gt) =>
      var p := RemapTemplates(gt.templates, EmptyTables);
      RemapTemplatesSpec(gt.templates, EmptyTables);
      EmptyTablesDense();
      match doc.appearance
      case None => Success(MetadataBase(doc))
      case Some(a) =>
        match SliceAppearance(a, p.1)
        case None => Failure(IndexOutOfRange("appearance"))
        case Some(a') => Success(MetadataBase(doc).(appearance := Some(a')))
  }

  /** `get_metadata` as evidently intended: the renumbered templates are
      the ones stored, so they index the sliced appearance. */
  function GetMetadataCorrected(doc: CityJSON): (r: Result<CityJSON, SplitError>)
    ensures r.Failure? ==> doc.geometryTemplates.Some? && doc.appearance.Some?
    ensures r.Success? ==>
      && r.value == doc.(cityObjects := map[], vertices := [], appearance := r.value.appearance,
                         geometryTemplates := r.value.geometryTemplates, sortedIds := [])
      && r.value.geometryTemplates.Some? == doc.geometryTemplates.Some?
      && (r.value.appearance.Some? <==> doc.geometryTemplates.Some? && doc.appearance.Some?)
  {
    match doc.geometryTemplates
    case None => Success(MetadataBase(doc))
    case Some(gt) =>
      var p := RemapTemplates(gt.templates, EmptyTables);
      RemapTemplatesSpec(gt.templates, EmptyTables);
      EmptyTablesDense();
      var base := MetadataBase(doc).(geometryTemplates := Some(gt.(templates := p.0)));
      match doc.appearance
      case None => Success(base)
      case Some(a) =>
        match SliceAppearance(a, p.1)
        case None => Failure(IndexOutOfRange("appearance"))
        case Some(a') => Success(base.(appearance := Some(a')))
  }

  /** The first line's appearance holds exactly what the templates
      reference, re-indexed through the template tables. */
  lemma GetMetadataSpec(doc: CityJSON)
    requires GetMetadata(doc).Success? && GetMetadata(doc).value.appearance.Some?
    ensures doc.geometryTemplates.Some? && doc.appearance.Some?
    ensures var ts := RemapTemplates(doc.geometryTemplates.value.templates, EmptyTables).1;
      AppearanceSliced(doc.appearance.value, GetMetadata(doc).value.appearance.value, ts)
  {
  }

  /** In the corrected first line, every template material `value`
      indexes the sliced materials and denotes the material it denoted in
      the document. */
  lemma MetadataTemplatesIndexMaterials(doc: CityJSON, ti: nat, th: nat)
    requires GetMetadataCorrected(doc).Success?
    requires doc.geometryTemplates.Some? && doc.appearance.Some? && doc.appearance.value.materials.Some?
    requires ti < |doc.geometryTemplates.value.templates|
    requires var g := doc.geometryTemplates.value.templates[ti];
      g.material.Some? && th < |g.material.value| && g.material.value[th].1.value.Some?
    ensures var r := GetMetadataCorrected(doc).value;
      var g := doc.geometryTemplates.value.templates[ti];
      var g' := r.geometryTemplates.value.templates[ti];
      var ms' := r.appearance.value.materials.value;
      && ti < |r.geometryTemplates.value.templates|
      && g'.material.Some? && th < |g'.material.value|
      && g'.material.value[th].1.value.Some?
      && g'.material.value[th].1.value.value < |ms'|
      && g.material.value[th].1.value.value < |doc.appearance.value.materials.value|
      && ms'[g'.material.value[th].1.value.value] == doc.appearance.value.materials.value[g.material.value[th].1.value.value]
  {
    var gt := doc.geometryTemplates.value;
    var p := RemapTemplates(gt.templates, EmptyTables);
    RemapTemplatesSpec(gt.templates, EmptyTables);
    assert RefsMapped(gt.templates[ti], p.0[ti], p.1);
    assert MatRefMapped(gt.templates[ti].material.value[th].1, p.0[ti].material.value[th].1, p.1.materials);
  }

  // ---------------------------------------------------------------------
  // The stale template references of get_metadata
  // ---------------------------------------------------------------------

  const PlainMaterial: Material := Material("", None, None, None, None, None, None, None)

  /** A template that uses material 1 of a two-material document. */
  function TemplateDocument(): (doc: CityJSON)
    ensures doc.geometryTemplates.Some? && |doc.geometryTemplates.value.templates| == 1
  {
    var g := Geometry(MultiSurface, None, Nested([]), None,
                      Some([("th", MaterialReference(None, Some(1)))]), None, None, None);
    NewCityJSON.(
      geometryTemplates := Some(GeometryTemplates([g], [])),
      appearance := Some(EmptyAppearance.(materials := Some([PlainMaterial.(name := "m0"), PlainMaterial.(name := "m1")]))))
  }

  /** As written, the first line keeps only material `m1`, at position 0,
      while its template still refers to material 1: past the end of the
      line's material list. The corrected line refers to 0. */
  lemma MetadataTemplatesStale()
    ensures var r := GetMetadata(TemplateDocument());
      && r.Success?
      && r.value.appearance.value.materials.value == [PlainMaterial.(name := "m1")]
      && r.value.geometryTemplates.value.templates[0].material.value[0].1.value == Some(1)
    ensures var c := GetMetadataCorrected(TemplateDocument());
      && c.Success?
      && c.value.appearance.value.materials.value == [PlainMaterial.(name := "m1")]
      && c.value.geometryTemplates.value.templates[0].material.value[0].1.value == Some(0)
  {
    TemplateRemapped();
    TemplateMaterialSliced();
  }

  /** The template's material 1 is the first the tables record, so it
      becomes 0. */
  lemma TemplateRemapped()
    ensures var p := RemapTemplates(TemplateDocument().geometryTemplates.value.templates, EmptyTables);
      && p.1.materials == map[1 := 0]
      && p.0[0].material.value[0].1.value == Some(0)
  {
    var g := TemplateDocument().geometryTemplates.value.templates[0];
    var th := g.material.value;
    assert UpdateMaterialRef(th[0].1, map[]) == (th[0].1.(value := Some(0)), map[1 := 0]);
    assert UpdateMaterialThemes(th, map[]).1 == map[1 := 0];
  }

  /** Slicing the two materials by `{1: 0}` keeps only `m1`. */
  lemma TemplateMaterialSliced()
    ensures var ms := TemplateDocument().appearance.value.materials.value;
      && DenseFrom(map[1 := 0], 0) && KeysBelow(map[1 := 0], |ms|)
      && SliceBy(ms, map[1 := 0]) == [PlainMaterial.(name := "m1")]
  {
    SingletonDense(1);
    var ms := TemplateDocument().appearance.value.materials.value;
    var sl := SliceBy(ms, map[1 := 0]);
    assert |sl| == 1 && sl[0] == ms[1];
  }
}
