/** The passes that move city objects from one index space to another:
    every geometry's vertex, material and texture references are renumbered
    through four tables (`g_vi_oldnew`, `m_oldnew`, `t_oldnew`,
    `t_v_oldnew`) threaded through the objects in turn. */
module ObjectRemap {
  import opened Wrappers
  import opened Remap
  import opened NestedArrays
  import opened Geometries
  import opened CityObjects

  /** The four tables the split threads. */
  datatype Tables = Tables(vertices: Table, materials: Table, tex: TexTables)

  const EmptyTables: Tables := Tables(map[], map[], TexTables(map[], map[]))

  ghost predicate TablesExtend(ts: Tables, ts': Tables) {
    Extends(ts.vertices, ts'.vertices) && Extends(ts.materials, ts'.materials) && TexExtends(ts.tex, ts'.tex)
  }

  /** Every table numbers its entries `0, 1, ...` without gaps. */
  ghost predicate TablesDense(ts: Tables) {
    DenseFrom(ts.vertices, 0) && DenseFrom(ts.materials, 0) && TexDense(ts.tex, 0)
  }

  lemma EmptyTablesDense()
    ensures TablesDense(EmptyTables)
  {
  }

  // ---------------------------------------------------------------------
  // The passes
  // ---------------------------------------------------------------------

  /** `update_material` then `update_texture` (uv offset 0). */
  function RemapRefs(g: Geometry, ts: Tables): (r: (Geometry, Tables)) {
    var m := UpdateMaterial(g, ts.materials);
    var t := UpdateTexture(m.0, ts.tex, 0);
    (t.0, ts.(materials := m.1, tex := t.1))
  }

  /** `update_geometry_boundaries`, `update_material`, `update_texture`. */
  function RemapGeometry(g: Geometry, ts: Tables): (r: (Geometry, Tables)) {
    var b := UpdateBoundaries(g, ts.vertices);
    RemapRefs(b.0, ts.(vertices := b.1))
  }

  function RemapGeometries(gs: seq<Geometry>, ts: Tables): (r: (seq<Geometry>, Tables))
    ensures |r.0| == |gs|
    decreases |gs|
  {
    if |gs| == 0 then ([], ts)
    else
      var p := RemapGeometry(gs[0], ts);
      var q := RemapGeometries(gs[1..], p.1);
      ([p.0] + q.0, q.1)
  }

  /** The template pass of `get_metadata`: material and texture references
      only. */
  function RemapTemplates(gs: seq<Geometry>, ts: Tables): (r: (seq<Geometry>, Tables))
    ensures |r.0| == |gs|
    decreases |gs|
  {
    if |gs| == 0 then ([], ts)
    else
      var p := RemapRefs(gs[0], ts);
      var q := RemapTemplates(gs[1..], p.1);
      ([p.0] + q.0, q.1)
  }

  /** Every geometry of one city object, in order. */
  function RemapObject(co: CityObject, ts: Tables): (r: (CityObject, Tables)) {
    match co.geometry
    case None => (co, ts)
    case Some(gs) =>
      var p := RemapGeometries(gs, ts);
      (co.(geometry := Some(p.0)), p.1)
  }

  // ---------------------------------------------------------------------
  // What the passes promise, stated against the final tables
  // ---------------------------------------------------------------------

  /** Only the material and texture references differ, each renumbered. */
  ghost predicate RefsMapped(g: Geometry, g': Geometry, ts: Tables) {
    && g' == g.(material := g'.material, texture := g'.texture)
    && MaterialMapped(g, g', ts.materials)
    && TextureMapped(g, g', ts.tex)
  }

  /** Only the boundaries and references differ, each renumbered. */
  ghost predicate GeometryMapped(g: Geometry, g': Geometry, ts: Tables) {
    && g' == g.(boundaries := g'.boundaries, material := g'.material, texture := g'.texture)
    && BoundaryMapped(g.boundaries, g'.boundaries, ts.vertices)
    && MaterialMapped(g, g', ts.materials)
    && TextureMapped(g, g', ts.tex)
  }

  ghost predicate GeometriesMapped(gs: seq<Geometry>, gs': seq<Geometry>, ts: Tables) {
    |gs'| == |gs| && forall i :: 0 <= i < |gs| ==> GeometryMapped(gs[i], gs'[i], ts)
  }

  ghost predicate TemplatesMapped(gs: seq<Geometry>, gs': seq<Geometry>, ts: Tables) {
    |gs'| == |gs| && forall i :: 0 <= i < |gs| ==> RefsMapped(gs[i], gs'[i], ts)
  }

  /** Only the geometries differ, each renumbered. */
  ghost predicate ObjectMapped(co: CityObject, co': CityObject, ts: Tables) {
    && co' == co.(geometry := co'.geometry)
    && co'.geometry.Some? == co.geometry.Some?
    && (co.geometry.Some? ==> GeometriesMapped(co.geometry.value, co'.geometry.value, ts))
  }

  /** Every boundary leaf of `gs` is below `n`. */
  predicate LeavesBelow(gs: seq<Geometry>, n: nat) {
    forall i, j :: 0 <= i < |gs| && 0 <= j < |Leaves(gs[i].boundaries)| ==> Leaves(gs[i].boundaries)[j] < n
  }

  /** The bound on leaves holds for the head and the tail of a list. */
  lemma LeavesBelowSplit(gs: seq<Geometry>, n: nat)
    requires |gs| > 0 && LeavesBelow(gs, n)
    ensures LeavesBelow([gs[0]], n) && LeavesBelow(gs[1..], n)
  {
    assert [gs[0]][0] == gs[0];
    forall i, j | 0 <= i < |gs[1..]| && 0 <= j < |Leaves(gs[1..][i].boundaries)|
      ensures Leaves(gs[1..][i].boundaries)[j] < n
    {
      assert gs[1..][i] == gs[i + 1];
    }
  }

  /** A mapped head in front of a mapped tail. */
  lemma GeometriesMappedCons(gs: seq<Geometry>, g': Geometry, rest: seq<Geometry>, ts: Tables)
    requires |gs| > 0 && GeometryMapped(gs[0], g', ts) && GeometriesMapped(gs[1..], rest, ts)
    ensures GeometriesMapped(gs, [g'] + rest, ts)
  {
    var r := [g'] + rest;
    forall i | 1 <= i < |gs| ensures GeometryMapped(gs[i], r[i], ts) {
      assert gs[i] == gs[1..][i - 1] && r[i] == rest[i - 1];
    }
  }

  predicate ObjectLeavesBelow(co: CityObject, n: nat) {
    co.geometry.Some? ==> LeavesBelow(co.geometry.value, n)
  }

  lemma MaterialMappedExtends(g: Geometry, g': Geometry, t: Table, t': Table)
    requires MaterialMapped(g, g', t) && Extends(t, t')
    ensures MaterialMapped(g, g', t')
  {
    if g.material.Some? {
      MatThemesMappedExtends(g.material.value, g'.material.value, t, t');
    }
  }

  lemma TextureMappedExtends(g: Geometry, g': Geometry, s: TexTables, s': TexTables)
    requires TextureMapped(g, g', s) && TexExtends(s, s')
    ensures TextureMapped(g, g', s')
  {
    if g.texture.Some? {
      TexThemesMappedExtends(g.texture.value, g'.texture.value, s, s');
    }
  }

  lemma GeometryMappedExtends(g: Geometry, g': Geometry, ts: Tables, ts': Tables)
    requires GeometryMapped(g, g', ts) && TablesExtend(ts, ts')
    ensures GeometryMapped(g, g', ts')
  {
    MaterialMappedExtends(g, g', ts.materials, ts'.materials);
    TextureMappedExtends(g, g', ts.tex, ts'.tex);
  }

  lemma ObjectMappedExtends(co: CityObject, co': CityObject, ts: Tables, ts': Tables)
    requires ObjectMapped(co, co', ts) && TablesExtend(ts, ts')
    ensures ObjectMapped(co, co', ts')
  {
    if co.geometry.Some? {
      var gs := co.geometry.value;
      forall i | 0 <= i < |gs| ensures GeometryMapped(gs[i], co'.geometry.value[i], ts') {
        GeometryMappedExtends(gs[i], co'.geometry.value[i], ts, ts');
      }
    }
  }

  lemma TablesExtendTransitive(t1: Tables, t2: Tables, t3: Tables)
    requires TablesExtend(t1, t2) && TablesExtend(t2, t3)
    ensures TablesExtend(t1, t3)
  {
  }

  /** The reference passes renumber both kinds of reference through the
      final tables and leave the vertex table alone. */
  lemma RemapRefsSpec(g: Geometry, ts: Tables)
    ensures var r := RemapRefs(g, ts);
      && RefsMapped(g, r.0, r.1)
      && TablesExtend(ts, r.1)
      && r.1.vertices == ts.vertices
      && (TablesDense(ts) ==> TablesDense(r.1))
  {
    var m := UpdateMaterial(g, ts.materials);
    var t := UpdateTexture(m.0, ts.tex, 0);
    UpdateMaterialSpec(g, ts.materials);
    UpdateTextureSpec(m.0, ts.tex, 0);
    MaterialMappedExtends(g, m.0, m.1, m.1);
    assert MaterialMapped(g, t.0, m.1);
  }

  /** One geometry: boundaries and references renumbered through the final
      tables; the vertex table gains only the geometry's own leaves. */
  lemma RemapGeometrySpec(g: Geometry, ts: Tables, n: nat)
    ensures var r := RemapGeometry(g, ts);
      && GeometryMapped(g, r.0, r.1)
      && TablesExtend(ts, r.1)
      && (TablesDense(ts) ==> TablesDense(r.1))
      && (KeysBelow(ts.vertices, n) && LeavesBelow([g], n) ==> KeysBelow(r.1.vertices, n))
  {
    var b := UpdateBoundaries(g, ts.vertices);
    UpdateBoundariesSpec(g, ts.vertices);
    RemapRefsSpec(b.0, ts.(vertices := b.1));
    var r := RemapGeometry(g, ts);
    assert r.0.boundaries == b.0.boundaries;
    if KeysBelow(ts.vertices, n) && LeavesBelow([g], n) {
      forall k | k in r.1.vertices ensures k < n {
        if k !in ts.vertices {
          var j :| 0 <= j < |Leaves(g.boundaries)| && Leaves(g.boundaries)[j] == k;
          assert [g][0] == g;
        }
      }
    }
  }

  lemma {:induction false} RemapGeometriesSpec(gs: seq<Geometry>, ts: Tables, n: nat)
    ensures var r := RemapGeometries(gs, ts);
      && GeometriesMapped(gs, r.0, r.1)
      && TablesExtend(ts, r.1)
      && (TablesDense(ts) ==> TablesDense(r.1))
      && (KeysBelow(ts.vertices, n) && LeavesBelow(gs, n) ==> KeysBelow(r.1.vertices, n))
    decreases |gs|
  {
    if |gs| > 0 {
      var p := RemapGeometry(gs[0], ts);
      var q := RemapGeometries(gs[1..], p.1);
      RemapGeometrySpec(gs[0], ts, n);
      RemapGeometriesSpec(gs[1..], p.1, n);
      GeometryMappedExtends(gs[0], p.0, p.1, q.1);
      TablesExtendTransitive(ts, p.1, q.1);
      GeometriesMappedCons(gs, p.0, q.0, q.1);
      if LeavesBelow(gs, n) {
        LeavesBelowSplit(gs, n);
      }
    }
  }

  lemma {:induction false} RemapTemplatesSpec(gs: seq<Geometry>, ts: Tables)
    ensures var r := RemapTemplates(gs, ts);
      && TemplatesMapped(gs, r.0, r.1)
      && TablesExtend(ts, r.1)
      && r.1.vertices == ts.vertices
      && (TablesDense(ts) ==> TablesDense(r.1))
    decreases |gs|
  {
    if |gs| > 0 {
      var p := RemapRefs(gs[0], ts);
      var q := RemapTemplates(gs[1..], p.1);
      RemapRefsSpec(gs[0], ts);
      RemapTemplatesSpec(gs[1..], p.1);
      MaterialMappedExtends(gs[0], p.0, p.1.materials, q.1.materials);
      TextureMappedExtends(gs[0], p.0, p.1.tex, q.1.tex);
      var r := [p.0] + q.0;
      forall i | 1 <= i < |gs| ensures RefsMapped(gs[i], r[i], q.1) {
        assert gs[i] == gs[1..][i - 1] && r[i] == q.0[i - 1];
      }
    }
  }

  /** One city object: its geometries renumbered, nothing else changed. */
  lemma RemapObjectSpec(co: CityObject, ts: Tables, n: nat)
    ensures var r := RemapObject(co, ts);
      && ObjectMapped(co, r.0, r.1)
      && TablesExtend(ts, r.1)
      && (TablesDense(ts) ==> TablesDense(r.1))
      && (KeysBelow(ts.vertices, n) && ObjectLeavesBelow(co, n) ==> KeysBelow(r.1.vertices, n))
  {
    if co.geometry.Some? {
      RemapGeometriesSpec(co.geometry.value, ts, n);
    }
  }
}
