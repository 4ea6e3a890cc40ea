/** The two passes that tidy a document's vertex list once features have
    been merged into it: `remove_duplicate_vertices`, which keeps the first
    copy of every vertex and renumbers the boundaries, and
    `update_transform`, which moves the origin to the per-axis minimum and
    compensates in the transform's translation. */
module VertexCleanup {
  import opened Wrappers
  import opened Json
  import opened Remap
  import opened NestedArrays
  import opened Geometries
  import opened CityObjects
  import opened Documents
  import opened Sequences
  import opened ObjectRemap

  // ---------------------------------------------------------------------
  // Keeping the first copy of every vertex
  // ---------------------------------------------------------------------

  /** The dedup loop's variables after a prefix of the vertices: the kept
      vertices, `newids` (old index -> kept index) and `h`, the kept index
      of each vertex seen. The source keys `h` on the text `"x y z"`, which
      determines the vertex, so the model keys it on the vertex. */
  datatype DedupState = DedupState(kept: seq<Vertex>, newids: Table, seen: map<Vertex, nat>)

  /** The dedup loop over `vs`, as a function of its input. */
  function Dedup(vs: seq<Vertex>): (r: DedupState)
    decreases |vs|
  {
    if |vs| == 0 then DedupState([], map[], map[])
    else
      var p := Dedup(vs[..|vs| - 1]);
      var v := vs[|vs| - 1];
      if v in p.seen then p.(newids := p.newids[|vs| - 1 := p.seen[v]])
      else DedupState(p.kept + [v], p.newids[|vs| - 1 := |p.kept|], p.seen[v := |p.kept|])
  }

  /** `seen` indexes exactly the kept vertices. */
  ghost predicate SeenIndexesKept(st: DedupState) {
    && (forall v :: v in st.seen <==> v in st.kept)
    && (forall v :: v in st.seen ==> st.seen[v] < |st.kept| && st.kept[st.seen[v]] == v)
  }

  /** The kept vertices are the distinct vertices of `vs`, no more than
      `vs`; `seen` indexes them. */
  lemma {:induction false} DedupKept(vs: seq<Vertex>)
    ensures SeenIndexesKept(Dedup(vs))
    ensures Distinct(Dedup(vs).kept)
    ensures |Dedup(vs).kept| <= |vs|
    ensures forall v :: v in Dedup(vs).kept <==> v in vs
    decreases |vs|
  {
    if |vs| > 0 {
      var n := |vs| - 1;
      var pre := vs[..n];
      var v := vs[n];
      DedupKept(pre);
      var p := Dedup(pre);
      assert vs == pre + [v];
      if v !in p.seen {
        var kept := p.kept + [v];
        forall i, j | 0 <= i < j < |kept| ensures kept[i] != kept[j] {
          assert kept[i] == p.kept[i] && p.kept[i] in p.seen;
          if j < |p.kept| {
            assert kept[j] == p.kept[j];
          }
        }
      }
    }
  }

  /** The kept vertices are listed in the order of their first occurrence
      in `vs`: together with `DedupKept`, the k-th kept vertex is the k-th
      distinct vertex of `vs`. */
  lemma {:induction false} DedupFirstOccurrence(vs: seq<Vertex>)
    ensures FirstOccurrenceOrder(vs, Dedup(vs).kept)
    decreases |vs|
  {
    if |vs| > 0 {
      var n := |vs| - 1;
      var pre := vs[..n];
      var v := vs[n];
      DedupKept(pre);
      DedupFirstOccurrence(pre);
      var p := Dedup(pre);
      assert vs == pre + [v];
      PrefixFirstIndex(pre, v);
      if v !in p.seen {
        FirstIndexUnique(vs, v, n);
        AppendFirstOccurrence(vs, pre, p.kept, v);
      }
    }
  }

  /** Appending a vertex keeps the first position of every earlier one. */
  lemma PrefixFirstIndex(pre: seq<Vertex>, v: Vertex)
    ensures forall x | x in pre :: FirstIndex(pre + [v], x) == FirstIndex(pre, x)
  {
    forall x | x in pre ensures FirstIndex(pre + [v], x) == FirstIndex(pre, x) {
      var i := FirstIndex(pre, x);
      assert (pre + [v])[..i] == pre[..i];
      FirstIndexUnique(pre + [v], x, i);
    }
  }

  /** A vertex first seen last goes to the end of the kept list. */
  lemma AppendFirstOccurrence(vs: seq<Vertex>, pre: seq<Vertex>, kept: seq<Vertex>, v: Vertex)
    requires vs == pre + [v] && v !in pre
    requires FirstOccurrenceOrder(pre, kept)
    requires forall x | x in pre :: FirstIndex(vs, x) == FirstIndex(pre, x)
    requires FirstIndex(vs, v) == |pre|
    ensures FirstOccurrenceOrder(vs, kept + [v])
  {
    var k := kept + [v];
    forall a, b | 0 <= a < b < |k| ensures FirstIndex(vs, k[a]) < FirstIndex(vs, k[b]) {
      assert k[a] == kept[a] && kept[a] in pre;
      if b < |kept| {
        assert k[b] == kept[b];
      }
    }
  }

  /** Every vertex of `kept` occurs in `vs`, and the first occurrences
      in `vs` of the vertices of `kept` ascend along `kept`. */
  ghost predicate FirstOccurrenceOrder(vs: seq<Vertex>, kept: seq<Vertex>) {
    && (forall j :: 0 <= j < |kept| ==> kept[j] in vs)
    && (forall a, b :: 0 <= a < b < |kept| ==> FirstIndex(vs, kept[a]) < FirstIndex(vs, kept[b]))
  }

  /** `newids` has an entry for every index of `vs` and none other, naming
      a kept copy of the vertex at or before that index. */
  ghost predicate IdsName(st: DedupState, vs: seq<Vertex>) {
    && (forall k: nat :: k in st.newids <==> k < |vs|)
    && (forall i :: 0 <= i < |vs| ==>
      && i in st.newids && st.newids[i] <= i && st.newids[i] < |st.kept|
      && st.kept[st.newids[i]] == vs[i])
  }

  /** `newids` has an entry for every index of `vs` and none other, naming
      a kept copy of the vertex at or before that index. */
  lemma {:induction false} DedupIds(vs: seq<Vertex>)
    ensures IdsName(Dedup(vs), vs)
    decreases |vs|
  {
    if |vs| > 0 {
      var n := |vs| - 1;
      var pre := vs[..n];
      DedupIds(pre);
      DedupStep(vs);
      IdsStep(Dedup(pre), Dedup(vs), vs);
    }
  }

  /** The induction step of `DedupIds`, on states taken as given. */
  lemma IdsStep(p: DedupState, r: DedupState, vs: seq<Vertex>)
    requires |vs| > 0
    requires IdsName(p, vs[..|vs| - 1])
    requires |p.kept| <= |r.kept| && r.kept[..|p.kept|] == p.kept
    requires |vs| - 1 in r.newids && r.newids == p.newids[|vs| - 1 := r.newids[|vs| - 1]]
    requires r.newids[|vs| - 1] < |r.kept| && r.kept[r.newids[|vs| - 1]] == vs[|vs| - 1]
    requires |r.kept| <= |vs|
    ensures IdsName(r, vs)
  {
    var n := |vs| - 1;
    var pre := vs[..n];
    forall i | 0 <= i < |vs|
      ensures i in r.newids && r.newids[i] <= i && r.newids[i] < |r.kept| && r.kept[r.newids[i]] == vs[i]
    {
      if i < n {
        assert pre[i] == vs[i];
        assert r.kept[p.newids[i]] == r.kept[..|p.kept|][p.newids[i]];
      }
    }
  }

  /** One turn of the dedup loop: the kept prefix stays, `newids` gains
      the last index, which names a kept copy of the last vertex. */
  lemma DedupStep(vs: seq<Vertex>)
    requires |vs| > 0
    ensures var n := |vs| - 1;
      var p := Dedup(vs[..n]);
      var r := Dedup(vs);
      && |p.kept| <= |r.kept| && r.kept[..|p.kept|] == p.kept
      && r.newids == p.newids[n := r.newids[n]]
      && r.newids[n] < |r.kept| && r.kept[r.newids[n]] == vs[n]
      && |r.kept| <= |vs|
  {
    DedupKept(vs[..|vs| - 1]);
  }

  /** The loop of `remove_duplicate_vertices`, computing the kept vertices
      and `newids`. */
  method DedupVertices(vs: seq<Vertex>) returns (kept: seq<Vertex>, newids: Table)
    ensures kept == Dedup(vs).kept && newids == Dedup(vs).newids
    ensures Distinct(kept)
    ensures forall i :: 0 <= i < |vs| ==> i in newids && newids[i] < |kept| && kept[newids[i]] == vs[i]
    ensures forall v :: v in kept <==> v in vs
    ensures FirstOccurrenceOrder(vs, kept)
  {
    var seen: map<Vertex, nat> := map[];
    kept := [];
    newids := map[];
    var i := 0;
    while i < |vs|
      invariant 0 <= i <= |vs|
      invariant DedupState(kept, newids, seen) == Dedup(vs[..i])
    {
      assert vs[..i + 1][..i] == vs[..i];
      var v := vs[i];
      if v in seen {
        newids := newids[i := seen[v]];
      } else {
        newids := newids[i := |kept|];
        seen := seen[v := |kept|];
        kept := kept + [v];
      }
      i := i + 1;
    }
    assert vs[..|vs|] == vs;
    DedupKept(vs);
    DedupIds(vs);
    DedupFirstOccurrence(vs);
  }

  /** A list without repeats is kept as it is, every index naming itself. */
  lemma {:induction false} DedupDistinct(vs: seq<Vertex>)
    requires Distinct(vs)
    ensures Dedup(vs).kept == vs
    ensures forall i :: 0 <= i < |vs| ==> i in Dedup(vs).newids && Dedup(vs).newids[i] == i
    ensures forall x :: x in Dedup(vs).seen ==> x in vs
    decreases |vs|
  {
    if |vs| > 0 {
      var n := |vs| - 1;
      var pre := vs[..n];
      var v := vs[n];
      assert Distinct(pre) by {
        forall i, j | 0 <= i < j < n ensures pre[i] != pre[j] {
          assert pre[i] == vs[i] && pre[j] == vs[j];
        }
      }
      DedupDistinct(pre);
      var p := Dedup(pre);
      assert v !in pre by {
        forall j | 0 <= j < n ensures pre[j] != v {
          assert pre[j] == vs[j];
        }
      }
      assert v !in p.seen;
      var r := Dedup(vs);
      assert r == DedupState(pre + [v], p.newids[n := n], p.seen[v := n]);
      assert vs == pre + [v];
      forall i | 0 <= i < |vs| ensures i in r.newids && r.newids[i] == i {
        if i < n {
          assert i in p.newids && p.newids[i] == i;
        }
      }
    }
  }

  // ---------------------------------------------------------------------
  // Renumbering the boundaries through `newids`
  // ---------------------------------------------------------------------

  /** `update_geometry_boundaries(&mut newids)` on each geometry in turn. */
  function RenumberGeometries(gs: seq<Geometry>, t: Table): (r: (seq<Geometry>, Table))
    ensures |r.0| == |gs|
    decreases |gs|
  {
    if |gs| == 0 then ([], t)
    else
      var p := UpdateBoundaries(gs[0], t);
      var q := RenumberGeometries(gs[1..], p.1);
      ([p.0] + q.0, q.1)
  }

  function RenumberObject(co: CityObject, t: Table): (r: (CityObject, Table)) {
    match co.geometry
    case None => (co, t)
    case Some(gs) =>
      var p := RenumberGeometries(gs, t);
      (co.(geometry := Some(p.0)), p.1)
  }

  /** The object loop: every object, in the map's order `keys`, updated in
      place. */
  function RenumberObjects(cos: map<string, CityObject>, keys: seq<string>, t: Table): (r: (map<string, CityObject>, Table))
    requires forall i :: 0 <= i < |keys| ==> keys[i] in cos
    decreases |keys|
  {
    if |keys| == 0 then (cos, t)
    else
      var p := RenumberObject(cos[keys[0]], t);
      RenumberObjects(cos[keys[0] := p.0], keys[1..], p.1)
  }

  /** `t` has an entry for every id below `n`. */
  predicate Covers(t: Table, n: nat) {
    forall k :: 0 <= k < n ==> k in t
  }

  /** Only the boundaries differ, each leaf replaced by its entry in `t`. */
  ghost predicate Renumbered(co: CityObject, co': CityObject, t: Table) {
    && co' == co.(geometry := co'.geometry)
    && co'.geometry.Some? == co.geometry.Some?
    && (co.geometry.Some? ==>
          && |co'.geometry.value| == |co.geometry.value|
          && forall i :: 0 <= i < |co.geometry.value| ==>
               var (g, g') := (co.geometry.value[i], co'.geometry.value[i]);
               g' == g.(boundaries := g'.boundaries) && BoundaryMapped(g.boundaries, g'.boundaries, t))
  }

  /** With every leaf already in the table, the boundary pass renumbers
      through it and adds nothing. */
  lemma UpdateBoundariesCovered(g: Geometry, t: Table, n: nat)
    requires Covers(t, n) && LeavesBelow([g], n)
    ensures UpdateBoundaries(g, t).1 == t
    ensures BoundaryMapped(g.boundaries, UpdateBoundaries(g, t).0.boundaries, t)
    ensures UpdateBoundaries(g, t).0 == g.(boundaries := UpdateBoundaries(g, t).0.boundaries)
  {
    UpdateBoundariesSpec(g, t);
    assert [g][0] == g;
    var r := UpdateBoundaries(g, t).1;
    assert [g][0] == g;
    forall k | k in r ensures k in t {
      if k in Leaves(g.boundaries) {
        var j :| 0 <= j < |Leaves(g.boundaries)| && Leaves(g.boundaries)[j] == k;
        assert k < n;
      }
    }
  }

  lemma {:induction false} RenumberGeometriesSpec(gs: seq<Geometry>, t: Table, n: nat)
    requires Covers(t, n) && LeavesBelow(gs, n)
    ensures var r := RenumberGeometries(gs, t);
      && r.1 == t
      && EachBoundaryMapped(gs, r.0, t)
    decreases |gs|
  {
    if |gs| > 0 {
      assert LeavesBelow([gs[0]], n) by {
        assert [gs[0]][0] == gs[0];
      }
      UpdateBoundariesCovered(gs[0], t, n);
      LeavesBelowTail(gs, n);
      RenumberGeometriesSpec(gs[1..], t, n);
      var p := UpdateBoundaries(gs[0], t);
      var q := RenumberGeometries(gs[1..], t);
      EachBoundaryMappedCons(gs, p.0, q.0, t);
    }
  }

  lemma LeavesBelowTail(gs: seq<Geometry>, n: nat)
    requires |gs| > 0 && LeavesBelow(gs, n)
    ensures LeavesBelow(gs[1..], n)
  {
    forall i, j | 0 <= i < |gs[1..]| && 0 <= j < |Leaves(gs[1..][i].boundaries)|
      ensures Leaves(gs[1..][i].boundaries)[j] < n
    {
      assert gs[1..][i] == gs[i + 1];
    }
  }

  /** One object through the boundary pass with a covering table: the
      table is unchanged and the object is renumbered through it. */
  lemma RenumberObjectCovered(co: CityObject, t: Table, n: nat)
    requires Covers(t, n) && ObjectLeavesBelow(co, n)
    ensures RenumberObject(co, t).1 == t
    ensures Renumbered(co, RenumberObject(co, t).0, t)
  {
    if co.geometry.Some? {
      RenumberGeometriesSpec(co.geometry.value, t, n);
    }
  }

  /** What the object loop over `keys` leaves behind in `r`. */
  ghost predicate ObjectsRenumbered(cos: map<string, CityObject>, keys: seq<string>, t: Table, r: (map<string, CityObject>, Table)) {
    && r.1 == t
    && (forall k :: k in r.0 <==> k in cos)
    && (forall k :: k in cos && k !in keys ==> r.0[k] == cos[k])
    && (forall k :: k in keys ==> k in cos && Renumbered(cos[k], r.0[k], t))
  }

  /** The induction step of `RenumberObjectsSpec`, on a result taken as
      given. */
  lemma ObjectsRenumberedStep(cos: map<string, CityObject>, keys: seq<string>, co': CityObject, t: Table,
                              r: (map<string, CityObject>, Table))
    requires |keys| > 0 && keys[0] in cos && keys[0] !in keys[1..]
    requires Renumbered(cos[keys[0]], co', t)
    requires ObjectsRenumbered(cos[keys[0] := co'], keys[1..], t, r)
    ensures ObjectsRenumbered(cos, keys, t, r)
  {
    var k0 := keys[0];
    forall k | k in keys ensures k in cos && Renumbered(cos[k], r.0[k], t) {
      if k != k0 {
        assert k in keys[1..] by {
          var j :| 0 <= j < |keys| && keys[j] == k;
          assert keys[1..][j - 1] == k;
        }
      }
    }
  }

  /** The object loop over distinct keys with a table that covers every
      leaf: the table is unchanged, the same keys remain, and each listed
      object is renumbered through the table. */
  lemma {:induction false} RenumberObjectsSpec(cos: map<string, CityObject>, keys: seq<string>, t: Table, n: nat)
    requires forall i :: 0 <= i < |keys| ==> keys[i] in cos
    requires Distinct(keys)
    requires Covers(t, n)
    requires forall i :: 0 <= i < |keys| ==> ObjectLeavesBelow(cos[keys[i]], n)
    ensures ObjectsRenumbered(cos, keys, t, RenumberObjects(cos, keys, t))
    decreases |keys|
  {
    if |keys| > 0 {
      var k0 := keys[0];
      var rest := keys[1..];
      RenumberObjectCovered(cos[k0], t, n);
      var co' := RenumberObject(cos[k0], t).0;
      var cos' := cos[k0 := co'];
      forall j | 0 <= j < |rest| ensures rest[j] != k0 && rest[j] in cos' && cos'[rest[j]] == cos[rest[j]] {
        assert rest[j] == keys[j + 1];
      }
      assert Distinct(rest) by {
        forall i, j | 0 <= i < j < |rest| ensures rest[i] != rest[j] {
          assert rest[i] == keys[i + 1] && rest[j] == keys[j + 1];
        }
      }
      RenumberObjectsSpec(cos', rest, t, n);
      assert k0 !in rest;
      ObjectsRenumberedStep(cos, keys, co', t, RenumberObjects(cos', rest, t));
    }
  }

  /** With a table mapping every leaf to itself, the object loop changes
      nothing. */
  lemma {:induction false} RenumberGeometriesFixed(gs: seq<Geometry>, t: Table, n: nat)
    requires LeavesBelow(gs, n)
    requires forall k :: 0 <= k < n ==> k in t && t[k] == k
    ensures RenumberGeometries(gs, t) == (gs, t)
    decreases |gs|
  {
    if |gs| > 0 {
      forall x | x in Leaves(gs[0].boundaries) ensures x in t && t[x] == x {
        var j :| 0 <= j < |Leaves(gs[0].boundaries)| && Leaves(gs[0].boundaries)[j] == x;
      }
      RenumberFixed(gs[0].boundaries, t);
      assert LeavesBelow(gs[1..], n) by {
        forall i, j | 0 <= i < |gs[1..]| && 0 <= j < |Leaves(gs[1..][i].boundaries)|
          ensures Leaves(gs[1..][i].boundaries)[j] < n
        {
          assert gs[1..][i] == gs[i + 1];
        }
      }
      RenumberGeometriesFixed(gs[1..], t, n);
      assert [gs[0]] + gs[1..] == gs;
    }
  }

  lemma {:induction false} RenumberObjectsFixed(cos: map<string, CityObject>, keys: seq<string>, t: Table, n: nat)
    requires forall i :: 0 <= i < |keys| ==> keys[i] in cos
    requires forall k :: 0 <= k < n ==> k in t && t[k] == k
    requires forall k :: k in cos ==> ObjectLeavesBelow(cos[k], n)
    ensures RenumberObjects(cos, keys, t) == (cos, t)
    decreases |keys|
  {
    if |keys| > 0 {
      var co := cos[keys[0]];
      if co.geometry.Some? {
        RenumberGeometriesFixed(co.geometry.value, t, n);
      }
      assert cos[keys[0] := co] == cos;
      RenumberObjectsFixed(cos, keys[1..], t, n);
    }
  }

  // ---------------------------------------------------------------------
  // remove_duplicate_vertices
  // ---------------------------------------------------------------------

  /** Every vertex reference of every object is in range. */
  ghost predicate VerticesInRange(doc: CityJSON) {
    forall k :: k in doc.cityObjects ==> ObjectLeavesBelow(doc.cityObjects[k], |doc.vertices|)
  }

  /** `CityJSON::remove_duplicate_vertices`. */
  function RemoveDuplicateVertices(doc: CityJSON, order: seq<string>): (r: CityJSON)
    requires IsOrderOf(order, doc.cityObjects)
    ensures |r.vertices| <= |doc.vertices|
    ensures Distinct(r.vertices) && forall v :: v in r.vertices <==> v in doc.vertices
    ensures FirstOccurrenceOrder(doc.vertices, r.vertices)
    ensures forall k :: k in r.cityObjects <==> k in doc.cityObjects
  {
    var d := Dedup(doc.vertices);
    DedupKept(doc.vertices);
    DedupFirstOccurrence(doc.vertices);
    RenumberObjectsKeys(doc.cityObjects, order, d.newids);
    var objs := RenumberObjects(doc.cityObjects, order, d.newids);
    doc.(cityObjects := objs.0, vertices := d.kept)
  }

  lemma {:induction false} RenumberObjectsKeys(cos: map<string, CityObject>, keys: seq<string>, t: Table)
    requires forall i :: 0 <= i < |keys| ==> keys[i] in cos
    ensures forall k :: k in RenumberObjects(cos, keys, t).0 <==> k in cos
    decreases |keys|
  {
    if |keys| > 0 {
      var p := RenumberObject(cos[keys[0]], t);
      RenumberObjectsKeys(cos[keys[0] := p.0], keys[1..], p.1);
    }
  }

  /** After the pass the vertices are the old ones, each once, in the
      order of their first occurrence; the objects are the same, with every vertex reference
      renumbered through `newids`, and nothing else changes. */
  lemma RemoveDuplicateVerticesSpec(doc: CityJSON, order: seq<string>)
    requires IsOrderOf(order, doc.cityObjects)
    requires VerticesInRange(doc)
    ensures var r := RemoveDuplicateVertices(doc, order);
      && Distinct(r.vertices)
      && (forall v :: v in r.vertices <==> v in doc.vertices)
      && FirstOccurrenceOrder(doc.vertices, r.vertices)
      && (forall k :: k in doc.cityObjects ==> k in r.cityObjects && Renumbered(doc.cityObjects[k], r.cityObjects[k], Dedup(doc.vertices).newids))
      && r == doc.(cityObjects := r.cityObjects, vertices := r.vertices)
  {
    var d := Dedup(doc.vertices);
    DedupKept(doc.vertices);
    DedupIds(doc.vertices);
    forall v | v in doc.vertices ensures v in d.kept {
      var i :| 0 <= i < |doc.vertices| && doc.vertices[i] == v;
    }
    RenumberObjectsSpec(doc.cityObjects, order, d.newids, |doc.vertices|);
  }

  /** Every renumbered reference is in range and denotes the same
      coordinates as before. */
  lemma RemoveDuplicateVerticesKeepsCoordinates(doc: CityJSON, order: seq<string>, k: string, gi: nat, p: nat)
    requires IsOrderOf(order, doc.cityObjects)
    requires VerticesInRange(doc)
    requires k in doc.cityObjects && doc.cityObjects[k].geometry.Some?
    requires gi < |doc.cityObjects[k].geometry.value|
    requires p < |Leaves(doc.cityObjects[k].geometry.value[gi].boundaries)|
    ensures var r := RemoveDuplicateVertices(doc, order);
      && k in r.cityObjects && r.cityObjects[k].geometry.Some?
      && gi < |r.cityObjects[k].geometry.value|
      && p < |Leaves(r.cityObjects[k].geometry.value[gi].boundaries)|
    ensures var r := RemoveDuplicateVertices(doc, order);
      var was := Leaves(doc.cityObjects[k].geometry.value[gi].boundaries)[p];
      var now := Leaves(r.cityObjects[k].geometry.value[gi].boundaries)[p];
      && was < |doc.vertices|
      && now < |r.vertices|
      && r.vertices[now] == doc.vertices[was]
  {
    RemoveDuplicateVerticesSpec(doc, order);
    DedupIds(doc.vertices);
    var gs := doc.cityObjects[k].geometry.value;
    assert ObjectLeavesBelow(doc.cityObjects[k], |doc.vertices|);
    assert Leaves(gs[gi].boundaries)[p] < |doc.vertices|;
  }

  /** A document whose vertices are already distinct and whose references
      are in range is left as it is. */
  lemma RemoveDuplicateVerticesFixesDistinct(doc: CityJSON, order: seq<string>)
    requires IsOrderOf(order, doc.cityObjects)
    requires VerticesInRange(doc)
    requires Distinct(doc.vertices)
    ensures RemoveDuplicateVertices(doc, order) == doc
  {
    DedupDistinct(doc.vertices);
    RenumberObjectsFixed(doc.cityObjects, order, Dedup(doc.vertices).newids, |doc.vertices|);
  }

  /** Removing duplicates twice is removing them once. */
  lemma RemoveDuplicateVerticesIdempotent(doc: CityJSON, order: seq<string>)
    requires IsOrderOf(order, doc.cityObjects)
    requires VerticesInRange(doc)
    ensures IsOrderOf(order, RemoveDuplicateVertices(doc, order).cityObjects)
    ensures var r := RemoveDuplicateVertices(doc, order);
      RemoveDuplicateVertices(r, order) == r
  {
    var r := RemoveDuplicateVertices(doc, order);
    RemoveDuplicateVerticesSpec(doc, order);
    assert VerticesInRange(r) by {
      forall k | k in r.cityObjects ensures ObjectLeavesBelow(r.cityObjects[k], |r.vertices|) {
        var co := doc.cityObjects[k];
        if co.geometry.Some? {
          var gs := co.geometry.value;
          var gs' := r.cityObjects[k].geometry.value;
          forall i, j | 0 <= i < |gs'| && 0 <= j < |Leaves(gs'[i].boundaries)| ensures Leaves(gs'[i].boundaries)[j] < |r.vertices| {
            RemoveDuplicateVerticesKeepsCoordinates(doc, order, k, i, j);
          }
        }
      }
    }
    RemoveDuplicateVerticesFixesDistinct(r, order);
  }

  // ---------------------------------------------------------------------
  // update_transform
  // ---------------------------------------------------------------------

  /** `v[axis]` */
  function Coord(v: Vertex, axis: nat): int
    requires axis < 3
  {
    if axis == 0 then v.x else if axis == 1 then v.y else v.z
  }

  /** The `mins` loop for one axis: starts at `i64::MAX` and takes every
      smaller coordinate. */
  function MinCoord(vs: seq<Vertex>, axis: nat): (m: int)
    requires axis < 3
    decreases |vs|
  {
    if |vs| == 0 then I64_MAX
    else
      var m := MinCoord(vs[..|vs| - 1], axis);
      if Coord(vs[|vs| - 1], axis) < m then Coord(vs[|vs| - 1], axis) else m
  }

  /** The minimum is a lower bound of the axis, and either one of its
      coordinates or the starting `i64::MAX`. */
  lemma {:induction false} MinCoordSpec(vs: seq<Vertex>, axis: nat)
    requires axis < 3
    ensures MinCoord(vs, axis) <= I64_MAX
    ensures forall i :: 0 <= i < |vs| ==> MinCoord(vs, axis) <= Coord(vs[i], axis)
    ensures MinCoord(vs, axis) == I64_MAX || exists i :: 0 <= i < |vs| && Coord(vs[i], axis) == MinCoord(vs, axis)
    decreases |vs|
  {
    if |vs| > 0 {
      var pre := vs[..|vs| - 1];
      MinCoordSpec(pre, axis);
      assert forall i :: 0 <= i < |pre| ==> pre[i] == vs[i];
      if MinCoord(vs, axis) != I64_MAX && MinCoord(vs, axis) == MinCoord(pre, axis) {
        var i :| 0 <= i < |pre| && Coord(pre[i], axis) == MinCoord(pre, axis);
        assert Coord(vs[i], axis) == MinCoord(vs, axis);
      }
    }
  }

  /** The three minima, `mins` after the first loop. */
  function Mins(vs: seq<Vertex>): (m: seq<int>)
    ensures |m| == 3
  {
    [MinCoord(vs, 0), MinCoord(vs, 1), MinCoord(vs, 2)]
  }

  /** `v - mins`, axis by axis. */
  function Shifted(v: Vertex, mins: seq<int>): (r: Vertex)
    requires |mins| == 3
    ensures forall a :: 0 <= a < 3 ==> Coord(r, a) == Coord(v, a) - mins[a]
  {
    Vertex(v.x - mins[0], v.y - mins[1], v.z - mins[2])
  }

  /** Indexing `scale[i]` or `translate[i]` for `i < 3` panics when a list
      is shorter. */
  datatype TransformError = ShortTransform

  /** `CityJSON::update_transform`: every vertex moved by the per-axis
      minimum, the translation becoming `min * scale + translate`. */
  function UpdateTransform(doc: CityJSON): (r: Result<CityJSON, TransformError>)
    ensures r.Success? <==> |doc.transform.scale| >= 3 && |doc.transform.translate| >= 3
  {
    var vs := doc.vertices;
    var mins := Mins(vs);
    var s := doc.transform.scale;
    var t := doc.transform.translate;
    if |s| < 3 || |t| < 3 then Failure(ShortTransform)
    else
      var nv := seq(|vs|, i requires 0 <= i < |vs| => Shifted(vs[i], mins));
      var nt := seq(3, a requires 0 <= a < 3 => mins[a] as real * s[a] + t[a]);
      Success(doc.(vertices := nv, transform := doc.transform.(translate := nt)))
  }

  /** Real-world coordinate `axis` of a vertex under a transform. */
  function World(v: Vertex, tr: Transform, axis: nat): real
    requires axis < 3 && |tr.scale| >= 3 && |tr.translate| >= 3
  {
    Coord(v, axis) as real * tr.scale[axis] + tr.translate[axis]
  }

  /** Every coordinate of a 64-bit integer vertex list fits in `i64`. */
  predicate AllI64(vs: seq<Vertex>) {
    forall i :: 0 <= i < |vs| ==> I64_MIN <= vs[i].x <= I64_MAX && I64_MIN <= vs[i].y <= I64_MAX && I64_MIN <= vs[i].z <= I64_MAX
  }

  /** The pass changes only the vertices and the translation; the vertex
      count and the scale stay. */
  lemma UpdateTransformShape(doc: CityJSON)
    requires |doc.transform.scale| >= 3 && |doc.transform.translate| >= 3
    ensures var r := UpdateTransform(doc).value;
      && |r.vertices| == |doc.vertices|
      && r.transform.scale == doc.transform.scale
      && |r.transform.translate| == 3
      && r == doc.(vertices := r.vertices, transform := r.transform)
  {
  }

  /** Every coordinate becomes non-negative. */
  lemma UpdateTransformNonNegative(doc: CityJSON, i: nat, a: nat)
    requires |doc.transform.scale| >= 3 && |doc.transform.translate| >= 3
    requires i < |doc.vertices| && a < 3
    ensures i < |UpdateTransform(doc).value.vertices| && Coord(UpdateTransform(doc).value.vertices[i], a) >= 0
  {
    var vs := doc.vertices;
    MinCoordSpec(vs, a);
    assert UpdateTransform(doc).value.vertices[i] == Shifted(vs[i], Mins(vs));
  }

  /** Every vertex keeps its real-world position. */
  lemma UpdateTransformKeepsWorld(doc: CityJSON, i: nat, a: nat)
    requires |doc.transform.scale| >= 3 && |doc.transform.translate| >= 3
    requires i < |doc.vertices| && a < 3
    ensures var r := UpdateTransform(doc).value;
      && i < |r.vertices| && |r.transform.scale| >= 3 && |r.transform.translate| >= 3
      && World(r.vertices[i], r.transform, a) == World(doc.vertices[i], doc.transform, a)
  {
    var vs := doc.vertices;
    var r := UpdateTransform(doc).value;
    var mins := Mins(vs);
    assert r.vertices[i] == Shifted(vs[i], mins);
    assert r.transform.translate[a] == mins[a] as real * doc.transform.scale[a] + doc.transform.translate[a];
    ShiftKeepsWorld(Coord(vs[i], a), mins[a], doc.transform.scale[a], doc.transform.translate[a]);
  }

  /** `(c - m) * s + (m * s + t) == c * s + t` */
  lemma ShiftKeepsWorld(c: int, m: int, s: real, t: real)
    ensures (c - m) as real * s + (m as real * s + t) == c as real * s + t
  {
    assert (c - m) as real == c as real - m as real;
    assert (c as real - m as real) * s == c as real * s - m as real * s;
  }

  /** On a non-empty list of 64-bit vertices, each axis touches zero after
      the pass; `i` is a vertex that does. */
  lemma UpdateTransformTouchesZero(doc: CityJSON, a: nat) returns (i: nat)
    requires |doc.transform.scale| >= 3 && |doc.transform.translate| >= 3
    requires AllI64(doc.vertices) && |doc.vertices| > 0 && a < 3
    ensures i < |UpdateTransform(doc).value.vertices| && Coord(UpdateTransform(doc).value.vertices[i], a) == 0
  {
    var vs := doc.vertices;
    var m := MinCoord(vs, a);
    MinCoordSpec(vs, a);
    if m == I64_MAX {
      i := 0;
    } else {
      var j :| 0 <= j < |vs| && Coord(vs[j], a) == m;
      i := j;
    }
  }

  /** On a non-empty list of 64-bit vertices the pass is idempotent: the
      second run finds every minimum at zero. */
  lemma UpdateTransformIdempotent(doc: CityJSON)
    requires |doc.transform.scale| >= 3 && |doc.transform.translate| >= 3
    requires AllI64(doc.vertices) && |doc.vertices| > 0
    ensures UpdateTransform(doc).Success?
    ensures UpdateTransform(UpdateTransform(doc).value) == UpdateTransform(doc)
  {
    UpdateTransformShape(doc);
    var r := UpdateTransform(doc).value;
    var vs := r.vertices;
    forall a | 0 <= a < 3 ensures MinCoord(vs, a) == 0 {
      var i := UpdateTransformTouchesZero(doc, a);
      forall j | 0 <= j < |vs| ensures Coord(vs[j], a) >= 0 {
        UpdateTransformNonNegative(doc, j, a);
      }
      MinCoordSpec(vs, a);
    }
    assert Mins(vs) == [0, 0, 0];
    var r2 := UpdateTransform(r).value;
    assert r2.vertices == vs;
    assert r2.transform.translate == r.transform.translate;
  }

  /** On an empty vertex list the minima stay at `i64::MAX`, and the
      translation still moves by `i64::MAX * scale`. */
  lemma UpdateTransformEmpty(doc: CityJSON)
    requires |doc.transform.scale| >= 3 && |doc.transform.translate| >= 3
    requires |doc.vertices| == 0
    ensures forall a :: 0 <= a < 3 ==>
      UpdateTransform(doc).value.transform.translate[a] == I64_MAX as real * doc.transform.scale[a] + doc.transform.translate[a]
  {
  }

  // ---------------------------------------------------------------------
  // References past the vertex list
  // ---------------------------------------------------------------------

  /** A set holding exactly the numbers below `n` has `n` members. */
  lemma {:induction false} BelowCount(s: set<nat>, n: nat)
    requires forall k: nat :: k in s <==> k < n
    ensures |s| == n
    decreases n
  {
    if n > 0 {
      var s' := s - {n - 1};
      BelowCount(s', n - 1);
      assert s == s' + {n - 1};
      assert n - 1 !in s';
    }
  }

  /** The ids below `n` are exactly the keys of `t`, so `t` has `n`
      entries. */
  lemma KeysBelowCount(t: Table, n: nat)
    requires forall k: nat :: k in t <==> k < n
    ensures |t| == n
  {
    BelowCount(t.Keys, n);
    assert |t.Keys| == |t|;
  }

  /** `t` is `newids` part way through the boundary pass: the entries of
      `newids` are kept, and every id recorded since (a reference past the
      `n` input vertices) is given a number at or past `n`. */
  ghost predicate GrownPast(t0: Table, t: Table, n: nat) {
    && Extends(t0, t)
    && n <= |t|
    && (forall k :: k in t && k !in t0 ==> n <= t[k])
  }

  lemma {:induction false} ResolveListGrowsPast(t0: Table, t: Table, xs: seq<nat>, n: nat)
    requires GrownPast(t0, t, n)
    ensures GrownPast(t0, ResolveList(t, xs, 0).1, n)
    decreases |xs|
  {
    if |xs| > 0 {
      var p := Resolve(t, xs[0], 0);
      ExtendsTransitive(t0, t, p.1);
      ResolveListGrowsPast(t0, p.1, xs[1..], n);
    }
  }

  /** The geometry loop with any table: each geometry's boundaries are
      renumbered through the loop's final table, which extends the first
      and numbers every newly recorded id at or past `n`. */
  lemma {:induction false} RenumberGeometriesGrows(t0: Table, gs: seq<Geometry>, t: Table, n: nat)
    requires GrownPast(t0, t, n)
    ensures var r := RenumberGeometries(gs, t);
      && GrownPast(t0, r.1, n)
      && Extends(t, r.1)
      && EachBoundaryMapped(gs, r.0, r.1)
    decreases |gs|
  {
    if |gs| > 0 {
      var p := UpdateBoundaries(gs[0], t);
      UpdateBoundariesSpec(gs[0], t);
      RenumberIsFlat(gs[0].boundaries, t, 0);
      ResolveListGrowsPast(t0, t, Leaves(gs[0].boundaries), n);
      RenumberGeometriesGrows(t0, gs[1..], p.1, n);
      var q := RenumberGeometries(gs[1..], p.1);
      ExtendsTransitive(t, p.1, q.1);
      BoundaryMappedExtends(gs[0].boundaries, p.0.boundaries, p.1, q.1);
      EachBoundaryMappedCons(gs, p.0, q.0, q.1);
    }
  }

  /** Each geometry of `rs` is the one of `gs` at its position with only
      the boundaries changed, every leaf through `t`. */
  ghost predicate EachBoundaryMapped(gs: seq<Geometry>, rs: seq<Geometry>, t: Table) {
    |rs| == |gs| &&
    forall i :: 0 <= i < |gs| ==> rs[i] == gs[i].(boundaries := rs[i].boundaries)
                                  && BoundaryMapped(gs[i].boundaries, rs[i].boundaries, t)
  }

  lemma EachBoundaryMappedCons(gs: seq<Geometry>, g: Geometry, rs: seq<Geometry>, t: Table)
    requires |gs| > 0 && EachBoundaryMapped(gs[1..], rs, t)
    requires g == gs[0].(boundaries := g.boundaries) && BoundaryMapped(gs[0].boundaries, g.boundaries, t)
    ensures EachBoundaryMapped(gs, [g] + rs, t)
  {
    forall i | 1 <= i < |gs| ensures ([g] + rs)[i] == rs[i - 1] && gs[i] == gs[1..][i - 1] {
    }
  }

  /** `Renumbered` survives growing the table. */
  lemma RenumberedExtends(co: CityObject, co': CityObject, t: Table, t': Table)
    requires Renumbered(co, co', t) && Extends(t, t')
    ensures Renumbered(co, co', t')
  {
    if co.geometry.Some? {
      var gs := co.geometry.value;
      forall i | 0 <= i < |gs| ensures BoundaryMapped(gs[i].boundaries, co'.geometry.value[i].boundaries, t') {
        BoundaryMappedExtends(gs[i].boundaries, co'.geometry.value[i].boundaries, t, t');
      }
    }
  }

  lemma RenumberObjectGrows(t0: Table, co: CityObject, t: Table, n: nat)
    requires GrownPast(t0, t, n)
    ensures var r := RenumberObject(co, t);
      && GrownPast(t0, r.1, n) && Extends(t, r.1) && Renumbered(co, r.0, r.1)
  {
    if co.geometry.Some? {
      RenumberGeometriesGrows(t0, co.geometry.value, t, n);
    }
  }

  /** The object loop leaves an object it does not list alone. */
  lemma {:induction false} RenumberObjectsFrame(cos: map<string, CityObject>, keys: seq<string>, t: Table, k: string)
    requires forall i :: 0 <= i < |keys| ==> keys[i] in cos
    requires k in cos && k !in keys
    ensures k in RenumberObjects(cos, keys, t).0 && RenumberObjects(cos, keys, t).0[k] == cos[k]
    decreases |keys|
  {
    if |keys| > 0 {
      var p := RenumberObject(cos[keys[0]], t);
      assert k != keys[0] && k !in keys[1..];
      RenumberObjectsFrame(cos[keys[0] := p.0], keys[1..], p.1, k);
    }
  }

  /** What the object loop with any table leaves behind. */
  ghost predicate ObjectsGrown(cos: map<string, CityObject>, keys: seq<string>, t0: Table, t: Table, n: nat,
                               r: (map<string, CityObject>, Table)) {
    && GrownPast(t0, r.1, n)
    && Extends(t, r.1)
    && (forall k :: k in keys ==> k in cos && k in r.0 && Renumbered(cos[k], r.0[k], r.1))
  }

  /** The object loop over distinct keys with any table: each listed
      object is renumbered through the final table, which extends the
      first and numbers every newly recorded id at or past `n`. */
  lemma {:induction false} RenumberObjectsGrows(cos: map<string, CityObject>, keys: seq<string>, t0: Table, t: Table, n: nat)
    requires forall i :: 0 <= i < |keys| ==> keys[i] in cos
    requires Distinct(keys)
    requires GrownPast(t0, t, n)
    ensures ObjectsGrown(cos, keys, t0, t, n, RenumberObjects(cos, keys, t))
    decreases |keys|
  {
    if |keys| > 0 {
      var k0 := keys[0];
      var rest := keys[1..];
      var p := RenumberObject(cos[k0], t);
      RenumberObjectGrows(t0, cos[k0], t, n);
      var cos' := cos[k0 := p.0];
      forall j | 0 <= j < |rest| ensures rest[j] != k0 && rest[j] in cos' && cos'[rest[j]] == cos[rest[j]] {
        assert rest[j] == keys[j + 1];
      }
      assert Distinct(rest) by {
        forall i, j | 0 <= i < j < |rest| ensures rest[i] != rest[j] {
          assert rest[i] == keys[i + 1] && rest[j] == keys[j + 1];
        }
      }
      assert k0 !in rest;
      RenumberObjectsGrows(cos', rest, t0, p.1, n);
      RenumberObjectsFrame(cos', rest, p.1, k0);
      var r := RenumberObjects(cos', rest, p.1);
      ExtendsTransitive(t, p.1, r.1);
      RenumberedExtends(cos[k0], p.0, p.1, r.1);
      forall k | k in keys ensures k in cos && k in r.0 && Renumbered(cos[k], r.0[k], r.1) {
        if k != k0 {
          var j :| 0 <= j < |keys| && keys[j] == k;
          assert rest[j - 1] == k;
        }
      }
    }
  }

  /** Every vertex reference, in range or not: a reference into the old
      list becomes a reference into the new one holding the same vertex,
      and a reference past the old list is given a number past it too, so
      it stays past the new list. */
  lemma RemoveDuplicateVerticesReferences(doc: CityJSON, order: seq<string>, k: string, gi: nat, p: nat)
    requires IsOrderOf(order, doc.cityObjects)
    requires k in doc.cityObjects && doc.cityObjects[k].geometry.Some?
    requires gi < |doc.cityObjects[k].geometry.value|
    requires p < |Leaves(doc.cityObjects[k].geometry.value[gi].boundaries)|
    ensures var r := RemoveDuplicateVertices(doc, order);
      && k in r.cityObjects && r.cityObjects[k].geometry.Some?
      && gi < |r.cityObjects[k].geometry.value|
      && p < |Leaves(r.cityObjects[k].geometry.value[gi].boundaries)|
    ensures var r := RemoveDuplicateVertices(doc, order);
      var was := Leaves(doc.cityObjects[k].geometry.value[gi].boundaries)[p];
      var now := Leaves(r.cityObjects[k].geometry.value[gi].boundaries)[p];
      && (was < |doc.vertices| <==> now < |r.vertices|)
      && (was < |doc.vertices| ==> r.vertices[now] == doc.vertices[was])
      && (was >= |doc.vertices| ==> now >= |doc.vertices|)
  {
    var vs := doc.vertices;
    var d := Dedup(vs);
    DedupKept(vs);
    DedupIds(vs);
    KeysBelowCount(d.newids, |vs|);
    RenumberObjectsGrows(doc.cityObjects, order, d.newids, d.newids, |vs|);
    var T := RenumberObjects(doc.cityObjects, order, d.newids).1;
    assert k in order;
    var g := doc.cityObjects[k].geometry.value[gi];
    var was := Leaves(g.boundaries)[p];
    assert was in T;
    if was < |vs| {
      assert was in d.newids && T[was] == d.newids[was];
    } else {
      assert was !in d.newids;
    }
  }
}
