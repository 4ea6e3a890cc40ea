/** A geometry of a city object and the passes that renumber its vertex,
    material and texture references. Material and texture themes, a
    `HashMap<String, _>` in the library, are a sequence of (theme, reference)
    pairs in the map's iteration order, which the model takes as given. */
module Geometries {
  import opened Wrappers
  import opened Json
  import opened Remap
  import opened NestedArrays

  datatype GeometryType =
    | MultiPoint
    | MultiLineString
    | MultiSurface
    | CompositeSurface
    | Solid
    | MultiSolid
    | CompositeSolid
    | GeometryInstance

  /** The nesting depth of a boundary of each type (section "Geometry
      objects" of the CityJSON 2.0.1 specification): a MultiPoint is a list
      of ids, a MultiLineString a list of lines, a surface type a list of
      surfaces of rings, a Solid a list of shells, a solid collection a list
      of solids. A GeometryInstance has one vertex id. */
  function BoundaryDepth(t: GeometryType): (d: nat)
    ensures d <= 4
    ensures d == 0 <==> t == MultiPoint || t == GeometryInstance
    ensures d == 4 <==> t == MultiSolid || t == CompositeSolid
  {
    match t
    case MultiPoint => 0
    case MultiLineString => 1
    case MultiSurface => 2
    case CompositeSurface => 2
    case Solid => 3
    case MultiSolid => 4
    case CompositeSolid => 4
    case GeometryInstance => 0
  }

  /** `MaterialReference`: either one material for the whole geometry
      (`value`) or one per surface (`values`, `null` for none). */
  datatype MaterialReference = MaterialReference(values: Option<NestedArray<Option<nat>>>, value: Option<nat>)

  /** `TextureReference`: per ring, a texture id then one uv id per vertex. */
  datatype TextureReference = TextureReference(values: NestedArray<Option<nat>>)

  /** `Semantics`; the surfaces' own members are passed through unchanged. */
  datatype Semantics = Semantics(values: NestedArray<Option<nat>>, surfaces: seq<Json>)

  datatype Geometry = Geometry(
    thetype: GeometryType,
    lod: Option<string>,
    boundaries: NestedArray<nat>,
    semantics: Option<Semantics>,
    material: Option<seq<(string, MaterialReference)>>,
    texture: Option<seq<(string, TextureReference)>>,
    template: Option<nat>,
    transformationMatrix: Option<seq<real>>)

  // ---------------------------------------------------------------------
  // The passes
  // ---------------------------------------------------------------------

  /** `Geometry::update_geometry_boundaries` (first seen wins, new id
      `len`). */
  function UpdateBoundaries(g: Geometry, t: Table): (r: (Geometry, Table)) {
    var p := Renumber(g.boundaries, t, 0);
    (g.(boundaries := p.0), p.1)
  }

  /** `Geometry::offset_geometry_boundaries` */
  function OffsetBoundaries(g: Geometry, k: nat): (r: Geometry) {
    g.(boundaries := Offset(g.boundaries, k))
  }

  /** One material theme of `update_material`: a present `value` alone is
      renumbered (`values` is then skipped); otherwise the present `values`
      are. */
  function UpdateMaterialRef(m: MaterialReference, t: Table): (r: (MaterialReference, Table)) {
    match m.value
    case Some(v) =>
      var p := Resolve(t, v, 0);
      (m.(value := Some(p.0)), p.1)
    case None =>
      match m.values
      case None => (m, t)
      case Some(b) =>
        var p := RenumberMaterialValues(b, t);
        (m.(values := Some(p.0)), p.1)
  }

  function UpdateMaterialThemes(ths: seq<(string, MaterialReference)>, t: Table): (r: (seq<(string, MaterialReference)>, Table))
    ensures |r.0| == |ths|
    decreases |ths|
  {
    if |ths| == 0 then ([], t)
    else
      var p := UpdateMaterialRef(ths[0].1, t);
      var q := UpdateMaterialThemes(ths[1..], p.1);
      ([(ths[0].0, p.0)] + q.0, q.1)
  }

  /** `Geometry::update_material` */
  function UpdateMaterial(g: Geometry, t: Table): (r: (Geometry, Table)) {
    match g.material
    case None => (g, t)
    case Some(ths) =>
      var p := UpdateMaterialThemes(ths, t);
      (g.(material := Some(p.0)), p.1)
  }

  function UpdateTextureThemes(ths: seq<(string, TextureReference)>, s: TexTables, offset: nat): (r: (seq<(string, TextureReference)>, TexTables))
    ensures |r.0| == |ths|
    decreases |ths|
  {
    if |ths| == 0 then ([], s)
    else
      var p := RenumberTextureValues(ths[0].1.values, s, offset);
      var q := UpdateTextureThemes(ths[1..], p.1, offset);
      ([(ths[0].0, TextureReference(p.0))] + q.0, q.1)
  }

  /** `Geometry::update_texture` */
  function UpdateTexture(g: Geometry, s: TexTables, offset: nat): (r: (Geometry, TexTables)) {
    match g.texture
    case None => (g, s)
    case Some(ths) =>
      var p := UpdateTextureThemes(ths, s, offset);
      (g.(texture := Some(p.0)), p.1)
  }

  // ---------------------------------------------------------------------
  // What the passes promise, stated against the final tables
  // ---------------------------------------------------------------------

  /** `b'` is `b` with every leaf replaced by its value in `t`. */
  ghost predicate BoundaryMapped(b: NestedArray<nat>, b': NestedArray<nat>, t: Table) {
    && ShapeOf(b') == ShapeOf(b)
    && |Leaves(b')| == |Leaves(b)|
    && forall i :: 0 <= i < |Leaves(b)| ==> Leaves(b)[i] in t && Leaves(b')[i] == t[Leaves(b)[i]]
  }

  /** `b'` is `b` with every present id replaced by its value in `t`. */
  ghost predicate OptTreeMapped(b: NestedArray<Option<nat>>, b': NestedArray<Option<nat>>, t: Table) {
    && ShapeOf(b') == ShapeOf(b)
    && |Leaves(b')| == |Leaves(b)|
    && forall i :: 0 <= i < |Leaves(b)| ==>
         (Leaves(b)[i].None? ==> Leaves(b')[i].None?) &&
         (Leaves(b)[i].Some? ==> Leaves(b)[i].value in t && Leaves(b')[i] == Some(t[Leaves(b)[i].value]))
  }

  ghost predicate MatRefMapped(m: MaterialReference, m': MaterialReference, t: Table) {
    match m.value
    case Some(v) => v in t && m' == m.(value := Some(t[v]))
    case None =>
      && m'.value.None?
      && m'.values.Some? == m.values.Some?
      && (m.values.Some? ==> OptTreeMapped(m.values.value, m'.values.value, t))
  }

  ghost predicate MatThemesMapped(ths: seq<(string, MaterialReference)>, ths': seq<(string, MaterialReference)>, t: Table) {
    && |ths'| == |ths|
    && forall i :: 0 <= i < |ths| ==> ths'[i].0 == ths[i].0 && MatRefMapped(ths[i].1, ths'[i].1, t)
  }

  ghost predicate TexTreeMapped(b: NestedArray<Option<nat>>, b': NestedArray<Option<nat>>, s: TexTables) {
    ShapeOf(b') == ShapeOf(b) && ListsMapped(LeafLists(b), LeafLists(b'), s)
  }

  ghost predicate TexThemesMapped(ths: seq<(string, TextureReference)>, ths': seq<(string, TextureReference)>, s: TexTables) {
    && |ths'| == |ths|
    && forall i :: 0 <= i < |ths| ==> ths'[i].0 == ths[i].0 && TexTreeMapped(ths[i].1.values, ths'[i].1.values, s)
  }

  ghost predicate MaterialMapped(g: Geometry, g': Geometry, t: Table) {
    && g'.material.Some? == g.material.Some?
    && (g.material.Some? ==> MatThemesMapped(g.material.value, g'.material.value, t))
  }

  ghost predicate TextureMapped(g: Geometry, g': Geometry, s: TexTables) {
    && g'.texture.Some? == g.texture.Some?
    && (g.texture.Some? ==> TexThemesMapped(g.texture.value, g'.texture.value, s))
  }

  lemma BoundaryMappedExtends(b: NestedArray<nat>, b': NestedArray<nat>, t: Table, t': Table)
    requires BoundaryMapped(b, b', t) && Extends(t, t')
    ensures BoundaryMapped(b, b', t')
  {
  }

  lemma MatRefMappedExtends(m: MaterialReference, m': MaterialReference, t: Table, t': Table)
    requires MatRefMapped(m, m', t) && Extends(t, t')
    ensures MatRefMapped(m, m', t')
  {
  }

  lemma MatThemesMappedExtends(ths: seq<(string, MaterialReference)>, ths': seq<(string, MaterialReference)>, t: Table, t': Table)
    requires MatThemesMapped(ths, ths', t) && Extends(t, t')
    ensures MatThemesMapped(ths, ths', t')
  {
    forall i | 0 <= i < |ths| ensures MatRefMapped(ths[i].1, ths'[i].1, t') {
      MatRefMappedExtends(ths[i].1, ths'[i].1, t, t');
    }
  }

  lemma ListsMappedExtends(xss: seq<seq<Option<nat>>>, yss: seq<seq<Option<nat>>>, s: TexTables, s': TexTables)
    requires ListsMapped(xss, yss, s) && TexExtends(s, s')
    ensures ListsMapped(xss, yss, s')
  {
    forall j, i | 0 <= j < |xss| && 0 <= i < |xss[j]| && |yss[j]| == |xss[j]|
      ensures TexMapped(xss[j][i], yss[j][i], i, s')
    {
      TexMappedExtends(xss[j][i], yss[j][i], i, s, s');
    }
  }

  lemma TexThemesMappedExtends(ths: seq<(string, TextureReference)>, ths': seq<(string, TextureReference)>, s: TexTables, s': TexTables)
    requires TexThemesMapped(ths, ths', s) && TexExtends(s, s')
    ensures TexThemesMapped(ths, ths', s')
  {
    forall i | 0 <= i < |ths| ensures TexTreeMapped(ths[i].1.values, ths'[i].1.values, s') {
      ListsMappedExtends(LeafLists(ths[i].1.values), LeafLists(ths'[i].1.values), s, s');
    }
  }

  /** The boundary pass renumbers every leaf through the final table, keeps
      the shape and every other field, records exactly the leaves it met and
      keeps a dense table dense. */
  lemma UpdateBoundariesSpec(g: Geometry, t: Table)
    ensures var r := UpdateBoundaries(g, t);
      && r.0 == g.(boundaries := r.0.boundaries)
      && BoundaryMapped(g.boundaries, r.0.boundaries, r.1)
      && Extends(t, r.1)
      && (forall k :: k in r.1 ==> k in t || k in Leaves(g.boundaries))
      && (DenseFrom(t, 0) ==> DenseFrom(r.1, 0))
  {
    RenumberSpec(g.boundaries, t, 0);
  }

  lemma {:induction false} UpdateMaterialRefSpec(m: MaterialReference, t: Table)
    ensures var r := UpdateMaterialRef(m, t);
      && MatRefMapped(m, r.0, r.1)
      && Extends(t, r.1)
      && (DenseFrom(t, 0) ==> DenseFrom(r.1, 0))
  {
    match m.value
    case Some(v) =>
      if DenseFrom(t, 0) { ResolveKeepsDense(t, v, 0); }
    case None =>
      match m.values
      case None =>
      case Some(b) =>
        RenumberMaterialValuesSpec(b, t);
  }

  lemma {:induction false} UpdateMaterialThemesSpec(ths: seq<(string, MaterialReference)>, t: Table)
    ensures var r := UpdateMaterialThemes(ths, t);
      && MatThemesMapped(ths, r.0, r.1)
      && Extends(t, r.1)
      && (DenseFrom(t, 0) ==> DenseFrom(r.1, 0))
    decreases |ths|
  {
    if |ths| > 0 {
      var p := UpdateMaterialRef(ths[0].1, t);
      var q := UpdateMaterialThemes(ths[1..], p.1);
      UpdateMaterialRefSpec(ths[0].1, t);
      UpdateMaterialThemesSpec(ths[1..], p.1);
      MatRefMappedExtends(ths[0].1, p.0, p.1, q.1);
      var r := [(ths[0].0, p.0)] + q.0;
      forall i | 1 <= i < |ths| ensures r[i].0 == ths[i].0 && MatRefMapped(ths[i].1, r[i].1, q.1) {
        assert ths[i] == ths[1..][i - 1] && r[i] == q.0[i - 1];
      }
    }
  }

  /** The material pass renumbers every theme through the final table and
      changes nothing else of the geometry. */
  lemma UpdateMaterialSpec(g: Geometry, t: Table)
    ensures var r := UpdateMaterial(g, t);
      && r.0 == g.(material := r.0.material)
      && MaterialMapped(g, r.0, r.1)
      && Extends(t, r.1)
      && (DenseFrom(t, 0) ==> DenseFrom(r.1, 0))
  {
    if g.material.Some? {
      UpdateMaterialThemesSpec(g.material.value, t);
    }
  }

  lemma {:induction false} UpdateTextureThemesSpec(ths: seq<(string, TextureReference)>, s: TexTables, offset: nat)
    ensures var r := UpdateTextureThemes(ths, s, offset);
      && TexThemesMapped(ths, r.0, r.1)
      && TexExtends(s, r.1)
      && (TexDense(s, offset) ==> TexDense(r.1, offset))
    decreases |ths|
  {
    if |ths| > 0 {
      var p := RenumberTextureValues(ths[0].1.values, s, offset);
      var q := UpdateTextureThemes(ths[1..], p.1, offset);
      RenumberTextureValuesSpec(ths[0].1.values, s, offset);
      UpdateTextureThemesSpec(ths[1..], p.1, offset);
      ListsMappedExtends(LeafLists(ths[0].1.values), LeafLists(p.0), p.1, q.1);
      var r := [(ths[0].0, TextureReference(p.0))] + q.0;
      forall i | 1 <= i < |ths| ensures r[i].0 == ths[i].0 && TexTreeMapped(ths[i].1.values, r[i].1.values, q.1) {
        assert ths[i] == ths[1..][i - 1] && r[i] == q.0[i - 1];
      }
    }
  }

  /** The texture pass renumbers every theme through the final tables and
      changes nothing else of the geometry. */
  lemma UpdateTextureSpec(g: Geometry, s: TexTables, offset: nat)
    ensures var r := UpdateTexture(g, s, offset);
      && r.0 == g.(texture := r.0.texture)
      && TextureMapped(g, r.0, r.1)
      && TexExtends(s, r.1)
      && (TexDense(s, offset) ==> TexDense(r.1, offset))
  {
    if g.texture.Some? {
      UpdateTextureThemesSpec(g.texture.value, s, offset);
    }
  }
}
