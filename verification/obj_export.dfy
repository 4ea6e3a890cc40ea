/** The Wavefront OBJ export: every vertex as a `v` line in real-world
    coordinates, then, for every object, the faces of its highest-LOD
    geometries as `f` lines with 1-based vertex numbers. */
module ObjExport {
  import opened Wrappers
  import opened NestedArrays
  import opened Geometries
  import opened CityObjects
  import opened Documents
  import opened ObjectRemap
  import opened VertexCleanup

  /** A line of OBJ text. A face holds the numbers as written, 1-based. */
  datatype ObjLine = Comment(text: string) | Blank | V(x: real, y: real, z: real) | F(indices: seq<nat>)

  /** Indexing a transform with fewer than three entries per axis panics
      once there is a vertex to place. */
  datatype ObjError = TransformTooShort

  const Header: seq<ObjLine> := [Comment("# Converted from CityJSON to OBJ"), Comment("# by CJSeq converter"), Blank]

  // ---------------------------------------------------------------------
  // Faces
  // ---------------------------------------------------------------------

  /** `write_obj_face`: nothing for an empty list, otherwise one face with
      every index plus one, in order. */
  function WriteObjFace(indices: seq<nat>): (r: seq<ObjLine>)
    ensures indices == [] <==> r == []
    ensures r != [] ==> |r| == 1 && r[0].F? && |r[0].indices| == |indices|
    ensures r != [] ==> forall k :: 0 <= k < |indices| ==> r[0].indices[k] == indices[k] + 1
  {
    if indices == [] then [] else [F(seq(|indices|, k requires 0 <= k < |indices| => indices[k] + 1))]
  }

  /** `convert_geometry_to_obj`: a face per index list, depth first. */
  function ConvertGeometry(b: NestedArray<nat>): (r: seq<ObjLine>)
    decreases b, 1
  {
    match b
    case Indices(xs) => WriteObjFace(xs)
    case Nested(bs) => ConvertAll(bs)
  }

  function ConvertAll(bs: seq<NestedArray<nat>>): (r: seq<ObjLine>)
    decreases bs, 0
  {
    if |bs| == 0 then [] else ConvertGeometry(bs[0]) + ConvertAll(bs[1..])
  }

  /** The non-empty lists of `xss`, in order. */
  function NonEmpty<T>(xss: seq<seq<T>>): (r: seq<seq<T>>)
    ensures forall j :: 0 <= j < |r| ==> r[j] != [] && r[j] in xss
    decreases |xss|
  {
    if |xss| == 0 then []
    else if xss[0] == [] then NonEmpty(xss[1..])
    else [xss[0]] + NonEmpty(xss[1..])
  }

  lemma {:induction false} NonEmptyAppend<T>(xss: seq<seq<T>>, yss: seq<seq<T>>)
    ensures NonEmpty(xss + yss) == NonEmpty(xss) + NonEmpty(yss)
    decreases |xss|
  {
    if |xss| > 0 {
      assert (xss + yss)[1..] == xss[1..] + yss;
      NonEmptyAppend(xss[1..], yss);
    } else {
      assert xss + yss == yss;
    }
  }

  /** The face each list makes: its indices plus one. */
  function Faces(xss: seq<seq<nat>>): (r: seq<ObjLine>)
    ensures |r| == |xss|
  {
    seq(|xss|, j requires 0 <= j < |xss| => F(seq(|xss[j]|, k requires 0 <= k < |xss[j]| => xss[j][k] + 1)))
  }

  lemma FacesAppend(xss: seq<seq<nat>>, yss: seq<seq<nat>>)
    ensures Faces(xss + yss) == Faces(xss) + Faces(yss)
  {
  }

  /** A boundary gives one face per non-empty index list, in the order of
      the lists, each face the list's indices plus one. */
  lemma {:induction false} ConvertGeometrySpec(b: NestedArray<nat>)
    ensures ConvertGeometry(b) == Faces(NonEmpty(LeafLists(b)))
    decreases b, 1
  {
    match b
    case Indices(xs) =>
      assert [xs][1..] == [];
      if xs != [] {
        assert NonEmpty([xs]) == [xs];
      }
    case Nested(bs) => ConvertAllSpec(bs);
  }

  lemma {:induction false} ConvertAllSpec(bs: seq<NestedArray<nat>>)
    ensures ConvertAll(bs) == Faces(NonEmpty(LeafListsAll(bs)))
    decreases bs, 0
  {
    if |bs| > 0 {
      ConvertGeometrySpec(bs[0]);
      ConvertAllSpec(bs[1..]);
      NonEmptyAppend(LeafLists(bs[0]), LeafListsAll(bs[1..]));
      FacesAppend(NonEmpty(LeafLists(bs[0])), NonEmpty(LeafListsAll(bs[1..])));
    }
  }

  /** Every line is a face, and every number of every face is a member of
      `leaves` plus one. */
  ghost predicate FacesOver(r: seq<ObjLine>, leaves: seq<nat>) {
    && (forall j :: 0 <= j < |r| ==> r[j].F?)
    && (forall j, k :: 0 <= j < |r| && r[j].F? && 0 <= k < |r[j].indices| ==>
          r[j].indices[k] >= 1 && r[j].indices[k] - 1 in leaves)
  }

  /** Every number of every face of a boundary is one of its vertex
      indices plus one. */
  lemma ConvertGeometryIndices(b: NestedArray<nat>)
    ensures FacesOver(ConvertGeometry(b), Leaves(b))
  {
    ConvertGeometrySpec(b);
    NonEmptyLeaves(b);
    FacesFrom(NonEmpty(LeafLists(b)), Leaves(b), ConvertGeometry(b));
  }

  /** The non-empty leaf lists of a boundary hold only its leaves. */
  lemma NonEmptyLeaves(b: NestedArray<nat>)
    ensures var xss := NonEmpty(LeafLists(b));
      forall j, k :: 0 <= j < |xss| && 0 <= k < |xss[j]| ==> xss[j][k] in Leaves(b)
  {
    var xss := NonEmpty(LeafLists(b));
    forall j, k | 0 <= j < |xss| && 0 <= k < |xss[j]| ensures xss[j][k] in Leaves(b) {
      ConcatMember(LeafLists(b), xss[j], xss[j][k]);
    }
  }

  /** The faces of lists drawn from `leaves` are faces whose numbers are
      members of `leaves` plus one. */
  lemma FacesFrom(xss: seq<seq<nat>>, leaves: seq<nat>, r: seq<ObjLine>)
    requires forall j, k :: 0 <= j < |xss| && 0 <= k < |xss[j]| ==> xss[j][k] in leaves
    requires r == Faces(xss)
    ensures FacesOver(r, leaves)
  {
    forall j, k | 0 <= j < |r| && r[j].F? && 0 <= k < |r[j].indices|
      ensures r[j].indices[k] >= 1 && r[j].indices[k] - 1 in leaves
    {
      assert r[j].indices[k] - 1 == xss[j][k];
    }
  }

  /** The face of a quadrilateral ring: `0 1 2 3` becomes `f 1 2 3 4`; an
      empty ring beside it writes nothing. */
  lemma QuadFace(b: NestedArray<nat>)
    requires b == Nested([Indices([0, 1, 2, 3]), Indices([])])
    ensures ConvertGeometry(b) == [F([1, 2, 3, 4])]
  {
    var bs := [Indices([0, 1, 2, 3]), Indices([])];
    assert bs[1..] == [Indices([])];
    assert bs[1..][1..] == [];
    var e: seq<NestedArray<nat>> := [];
    assert ConvertAll(e) == [];
    var empty: seq<nat> := [];
    assert ConvertAll([Indices(empty)]) == [];
    var quad: seq<nat> := [0, 1, 2, 3];
    var ix := WriteObjFace(quad)[0].indices;
    assert |ix| == 4 && ix[0] == 1 && ix[1] == 2 && ix[2] == 3 && ix[3] == 4;
    assert ix == [1, 2, 3, 4];
    assert WriteObjFace(quad) == [F([1, 2, 3, 4])];
    assert ConvertAll(bs) == WriteObjFace(quad) + ConvertAll([Indices(empty)]);
  }

  // ---------------------------------------------------------------------
  // The highest LOD
  // ---------------------------------------------------------------------

  /** `f64::EPSILON` */
  const Epsilon: real := 0.0000000000000002220446049250313

  function Abs(x: real): real {
    if x < 0.0 then -x else x
  }

  /** A geometry's LOD read as a number; `parse` is the float parser. */
  function ParsedLod(g: Geometry, parse: string -> Option<real>): Option<real> {
    if g.lod.Some? then parse(g.lod.value) else None
  }

  function Max(a: real, b: real): real {
    if a < b then b else a
  }

  /** The `max_lod` loop from a running maximum `acc`. */
  function MaxLodFrom(gs: seq<Geometry>, parse: string -> Option<real>, acc: Option<real>): (r: Option<real>)
    decreases |gs|
  {
    if |gs| == 0 then acc
    else
      var l := ParsedLod(gs[0], parse);
      var acc' := if l.None? then acc else Some(if acc.None? then l.value else Max(acc.value, l.value));
      MaxLodFrom(gs[1..], parse, acc')
  }

  function MaxLod(gs: seq<Geometry>, parse: string -> Option<real>): Option<real> {
    MaxLodFrom(gs, parse, None)
  }

  /** The loop's result is the running maximum or a parsed LOD, and bounds
      both; it is `None` only when nothing parsed. */
  lemma {:induction false} MaxLodFromSpec(gs: seq<Geometry>, parse: string -> Option<real>, acc: Option<real>)
    ensures var r := MaxLodFrom(gs, parse, acc);
      && (r.None? <==> acc.None? && forall i :: 0 <= i < |gs| ==> ParsedLod(gs[i], parse).None?)
      && (r.Some? ==> r == acc || exists i :: 0 <= i < |gs| && ParsedLod(gs[i], parse) == r)
      && (r.Some? && acc.Some? ==> acc.value <= r.value)
      && (r.Some? ==> forall i :: 0 <= i < |gs| && ParsedLod(gs[i], parse).Some? ==> ParsedLod(gs[i], parse).value <= r.value)
    decreases |gs|
  {
    if |gs| > 0 {
      var l := ParsedLod(gs[0], parse);
      var acc' := if l.None? then acc else Some(if acc.None? then l.value else Max(acc.value, l.value));
      MaxLodFromSpec(gs[1..], parse, acc');
      var r := MaxLodFrom(gs, parse, acc);
      forall i | 1 <= i < |gs| ensures ParsedLod(gs[i], parse) == ParsedLod(gs[1..][i - 1], parse) {
      }
      if r.Some? && r != acc && r != acc' {
        var i :| 0 <= i < |gs[1..]| && ParsedLod(gs[1..][i], parse) == r;
        assert ParsedLod(gs[i + 1], parse) == r;
      }
      if r.Some? && r == acc' && r != acc {
        assert ParsedLod(gs[0], parse) == r;
      }
    }
  }

  /** The maximum is `None` exactly when no LOD parses; otherwise it is a
      parsed LOD and no parsed LOD exceeds it. */
  lemma MaxLodSpec(gs: seq<Geometry>, parse: string -> Option<real>)
    ensures var m := MaxLod(gs, parse);
      && (m.None? <==> forall i :: 0 <= i < |gs| ==> ParsedLod(gs[i], parse).None?)
      && (m.Some? ==> exists i :: 0 <= i < |gs| && ParsedLod(gs[i], parse) == m)
      && (m.Some? ==> forall i :: 0 <= i < |gs| && ParsedLod(gs[i], parse).Some? ==> ParsedLod(gs[i], parse).value <= m.value)
  {
    MaxLodFromSpec(gs, parse, None);
  }

  /** The filter's test: a parsed LOD within `Epsilon` of the maximum. */
  predicate AtLod(g: Geometry, parse: string -> Option<real>, m: real) {
    ParsedLod(g, parse).Some? && Abs(ParsedLod(g, parse).value - m) < Epsilon
  }

  function KeepAtLod(gs: seq<Geometry>, parse: string -> Option<real>, m: real): (r: seq<Geometry>)
    decreases |gs|
  {
    if |gs| == 0 then []
    else if AtLod(gs[0], parse, m) then [gs[0]] + KeepAtLod(gs[1..], parse, m)
    else KeepAtLod(gs[1..], parse, m)
  }

  /** The filter keeps exactly the geometries that pass the test, in
      their original order and with their repeats: it reads `gs` at the
      ascending positions that pass. */
  lemma KeepAtLodSpec(gs: seq<Geometry>, parse: string -> Option<real>, m: real)
    ensures forall g :: g in KeepAtLod(gs, parse, m) <==> g in gs && AtLod(g, parse, m)
    ensures |KeepAtLod(gs, parse, m)| <= |gs|
    ensures ListsPassing(gs, LodIndices(gs, parse, m), parse, m)
    ensures Picks(gs, LodIndices(gs, parse, m), KeepAtLod(gs, parse, m))
  {
    KeepAtLodMembers(gs, parse, m);
    KeepAtLodListed(gs, parse, m);
  }

  lemma {:induction false} KeepAtLodMembers(gs: seq<Geometry>, parse: string -> Option<real>, m: real)
    ensures forall g :: g in KeepAtLod(gs, parse, m) <==> g in gs && AtLod(g, parse, m)
    ensures |KeepAtLod(gs, parse, m)| <= |gs|
    decreases |gs|
  {
    if |gs| > 0 {
      KeepAtLodMembers(gs[1..], parse, m);
      assert forall g :: g in gs <==> g == gs[0] || g in gs[1..] by {
        assert gs == [gs[0]] + gs[1..];
      }
    }
  }

  /** The positions of `gs` whose geometry passes the filter's test. */
  ghost function LodIndices(gs: seq<Geometry>, parse: string -> Option<real>, m: real): seq<int>
    decreases |gs|
  {
    if |gs| == 0 then []
    else (if AtLod(gs[0], parse, m) then [0] else []) + Shift(LodIndices(gs[1..], parse, m))
  }

  function Shift(s: seq<int>): (r: seq<int>)
    ensures |r| == |s| && forall k :: 0 <= k < |s| ==> r[k] == s[k] + 1
  {
    seq(|s|, k requires 0 <= k < |s| => s[k] + 1)
  }

  predicate Ascending(idx: seq<int>) {
    forall a, b :: 0 <= a < b < |idx| ==> idx[a] < idx[b]
  }

  /** The test's positions are listed once each, ascending. */
  lemma {:induction false} LodIndicesAscending(gs: seq<Geometry>, parse: string -> Option<real>, m: real)
    ensures Ascending(LodIndices(gs, parse, m))
    ensures forall k :: 0 <= k < |LodIndices(gs, parse, m)| ==> 0 <= LodIndices(gs, parse, m)[k] < |gs|
    decreases |gs|
  {
    if |gs| > 0 {
      var tail := LodIndices(gs[1..], parse, m);
      LodIndicesAscending(gs[1..], parse, m);
      var head: seq<int> := if AtLod(gs[0], parse, m) then [0] else [];
      var idx := head + Shift(tail);
      assert idx == LodIndices(gs, parse, m);
      forall k | 0 <= k < |idx| ensures (k >= |head| ==> idx[k] == tail[k - |head|] + 1) && 0 <= idx[k] < |gs| {
      }
    }
  }

  /** Every listed position passes the test. */
  lemma {:induction false} LodIndicesPass(gs: seq<Geometry>, parse: string -> Option<real>, m: real)
    ensures forall k :: 0 <= k < |LodIndices(gs, parse, m)| ==>
      0 <= LodIndices(gs, parse, m)[k] < |gs| && AtLod(gs[LodIndices(gs, parse, m)[k]], parse, m)
    decreases |gs|
  {
    if |gs| > 0 {
      var tail := LodIndices(gs[1..], parse, m);
      LodIndicesPass(gs[1..], parse, m);
      var head: seq<int> := if AtLod(gs[0], parse, m) then [0] else [];
      var idx := head + Shift(tail);
      assert idx == LodIndices(gs, parse, m);
      forall k | |head| <= k < |idx| ensures 0 <= idx[k] < |gs| && AtLod(gs[idx[k]], parse, m) {
        assert idx[k] == tail[k - |head|] + 1;
        assert gs[idx[k]] == gs[1..][tail[k - |head|]];
      }
    }
  }

  /** Every position that passes the test is listed. */
  lemma {:induction false} LodIndicesComplete(gs: seq<Geometry>, parse: string -> Option<real>, m: real)
    ensures forall i :: 0 <= i < |gs| && AtLod(gs[i], parse, m) ==> i in LodIndices(gs, parse, m)
    decreases |gs|
  {
    if |gs| > 0 {
      var tail := LodIndices(gs[1..], parse, m);
      LodIndicesComplete(gs[1..], parse, m);
      var head: seq<int> := if AtLod(gs[0], parse, m) then [0] else [];
      var idx := head + Shift(tail);
      assert idx == LodIndices(gs, parse, m);
      forall i | 0 < i < |gs| && AtLod(gs[i], parse, m) ensures i in idx {
        assert gs[1..][i - 1] == gs[i];
        var k :| 0 <= k < |tail| && tail[k] == i - 1;
        assert idx[|head| + k] == i;
      }
    }
  }

  /** `r` is `gs` read at the positions `idx`, in that order. */
  ghost predicate Picks(gs: seq<Geometry>, idx: seq<int>, r: seq<Geometry>) {
    |r| == |idx| && forall k :: 0 <= k < |idx| ==> 0 <= idx[k] < |gs| && r[k] == gs[idx[k]]
  }

  /** The filter keeps the geometries that pass the test in their original
      order, repeats included: it reads `gs` at the ascending positions
      whose geometry passes. */
  lemma {:induction false} KeepAtLodInOrder(gs: seq<Geometry>, parse: string -> Option<real>, m: real)
    ensures Picks(gs, LodIndices(gs, parse, m), KeepAtLod(gs, parse, m))
    decreases |gs|
  {
    if |gs| > 0 {
      var tail := LodIndices(gs[1..], parse, m);
      KeepAtLodInOrder(gs[1..], parse, m);
      var head: seq<int> := if AtLod(gs[0], parse, m) then [0] else [];
      var idx := head + Shift(tail);
      var r := KeepAtLod(gs, parse, m);
      var rt := KeepAtLod(gs[1..], parse, m);
      assert r == (if AtLod(gs[0], parse, m) then [gs[0]] else []) + rt;
      forall k | 0 <= k < |idx| ensures 0 <= idx[k] < |gs| && r[k] == gs[idx[k]] {
        if k >= |head| {
          assert idx[k] == tail[k - |head|] + 1;
          assert r[k] == rt[k - |head|];
        }
      }
    }
  }

  /** `find_highest_lod_geometry` */
  function HighestLod(gs: seq<Geometry>, parse: string -> Option<real>): (r: seq<Geometry>) {
    match MaxLod(gs, parse)
    case None => gs
    case Some(m) => KeepAtLod(gs, parse, m)
  }

  /** `idx` lists, ascending, exactly the positions of `gs` whose geometry
      passes the filter's test. */
  ghost predicate ListsPassing(gs: seq<Geometry>, idx: seq<int>, parse: string -> Option<real>, m: real) {
    && Ascending(idx)
    && (forall k :: 0 <= k < |idx| ==> 0 <= idx[k] < |gs| && AtLod(gs[idx[k]], parse, m))
    && (forall i :: 0 <= i < |gs| && AtLod(gs[i], parse, m) ==> i in idx)
  }

  /** The filter reads `gs` at the ascending positions that pass. */
  lemma KeepAtLodListed(gs: seq<Geometry>, parse: string -> Option<real>, m: real)
    ensures ListsPassing(gs, LodIndices(gs, parse, m), parse, m)
    ensures Picks(gs, LodIndices(gs, parse, m), KeepAtLod(gs, parse, m))
  {
    KeepAtLodInOrder(gs, parse, m);
    LodIndicesAscending(gs, parse, m);
    LodIndicesPass(gs, parse, m);
    LodIndicesComplete(gs, parse, m);
  }

  /** With no parsable LOD every geometry is kept. Otherwise the kept
      geometries are those whose LOD is within `Epsilon` of the maximum, in
      their original order and with their repeats: at least one, among them
      every geometry at the maximum. */
  lemma HighestLodSpec(gs: seq<Geometry>, parse: string -> Option<real>)
    ensures (forall i :: 0 <= i < |gs| ==> ParsedLod(gs[i], parse).None?) ==> HighestLod(gs, parse) == gs
    ensures var m := MaxLod(gs, parse);
      m.Some? ==>
        && (forall g :: g in HighestLod(gs, parse) <==> g in gs && AtLod(g, parse, m.value))
        && HighestLod(gs, parse) != []
        && (forall i :: 0 <= i < |gs| && ParsedLod(gs[i], parse) == m ==> gs[i] in HighestLod(gs, parse))
        && ListsPassing(gs, LodIndices(gs, parse, m.value), parse, m.value)
        && Picks(gs, LodIndices(gs, parse, m.value), HighestLod(gs, parse))
  {
    MaxLodSpec(gs, parse);
    var m := MaxLod(gs, parse);
    if m.Some? {
      KeepAtLodSpec(gs, parse, m.value);
      var i :| 0 <= i < |gs| && ParsedLod(gs[i], parse) == m;
      assert gs[i] in HighestLod(gs, parse);
    }
  }

  /** LODs that are equal or at least `Epsilon` apart. */
  ghost predicate LodsSeparated(gs: seq<Geometry>, parse: string -> Option<real>) {
    forall i, j :: 0 <= i < |gs| && 0 <= j < |gs| && ParsedLod(gs[i], parse).Some? && ParsedLod(gs[j], parse).Some? ==>
      ParsedLod(gs[i], parse) == ParsedLod(gs[j], parse) || Abs(ParsedLod(gs[i], parse).value - ParsedLod(gs[j], parse).value) >= Epsilon
  }

  /** When parsed LODs are equal or at least `Epsilon` apart, the kept
      geometries are exactly those at the maximum LOD, in their original
      order and with their repeats. */
  lemma HighestLodExact(gs: seq<Geometry>, parse: string -> Option<real>)
    requires LodsSeparated(gs, parse)
    ensures var m := MaxLod(gs, parse);
      m.Some? ==>
        && (forall g :: g in HighestLod(gs, parse) <==> g in gs && ParsedLod(g, parse) == m)
        && Ascending(LodIndices(gs, parse, m.value))
        && (forall i :: 0 <= i < |gs| && ParsedLod(gs[i], parse) == m ==> i in LodIndices(gs, parse, m.value))
        && (forall k :: 0 <= k < |LodIndices(gs, parse, m.value)| ==>
              0 <= LodIndices(gs, parse, m.value)[k] < |gs| && ParsedLod(gs[LodIndices(gs, parse, m.value)[k]], parse) == m)
        && Picks(gs, LodIndices(gs, parse, m.value), HighestLod(gs, parse))
  {
    var m := MaxLod(gs, parse);
    if m.Some? {
      HighestLodSpec(gs, parse);
      ExactTest(gs, parse);
      ExactIndices(gs, LodIndices(gs, parse, m.value), parse, m.value);
      ExactMembers(gs, HighestLod(gs, parse), parse, m.value);
    }
  }

  /** The filter's test at `m` is equality with `m`. */
  ghost predicate TestIsMax(gs: seq<Geometry>, parse: string -> Option<real>, m: real) {
    forall i :: 0 <= i < |gs| ==> (AtLod(gs[i], parse, m) <==> ParsedLod(gs[i], parse) == Some(m))
  }

  /** Under separated LODs the filter's test is equality with the maximum. */
  lemma ExactTest(gs: seq<Geometry>, parse: string -> Option<real>)
    requires LodsSeparated(gs, parse)
    ensures var m := MaxLod(gs, parse);
      m.Some? ==> TestIsMax(gs, parse, m.value)
  {
    var m := MaxLod(gs, parse);
    if m.Some? {
      MaxLodSpec(gs, parse);
      var i0 :| 0 <= i0 < |gs| && ParsedLod(gs[i0], parse) == m;
      forall i | 0 <= i < |gs| && AtLod(gs[i], parse, m.value) ensures ParsedLod(gs[i], parse) == m {
        CloseMeansEqual(ParsedLod(gs[i], parse), ParsedLod(gs[i0], parse));
      }
    }
  }

  lemma ExactIndices(gs: seq<Geometry>, idx: seq<int>, parse: string -> Option<real>, m: real)
    requires ListsPassing(gs, idx, parse, m) && TestIsMax(gs, parse, m)
    ensures forall i :: 0 <= i < |gs| && ParsedLod(gs[i], parse) == Some(m) ==> i in idx
    ensures forall k :: 0 <= k < |idx| ==> 0 <= idx[k] < |gs| && ParsedLod(gs[idx[k]], parse) == Some(m)
  {
  }

  lemma ExactMembers(gs: seq<Geometry>, r: seq<Geometry>, parse: string -> Option<real>, m: real)
    requires forall g :: g in r <==> g in gs && AtLod(g, parse, m)
    requires TestIsMax(gs, parse, m)
    ensures forall g :: g in r <==> g in gs && ParsedLod(g, parse) == Some(m)
  {
    forall g | g in gs ensures AtLod(g, parse, m) <==> ParsedLod(g, parse) == Some(m) {
      var j :| 0 <= j < |gs| && gs[j] == g;
    }
  }

  lemma CloseMeansEqual(a: Option<real>, b: Option<real>)
    requires a.Some? && b.Some? && (a == b || Abs(a.value - b.value) >= Epsilon)
    requires Abs(a.value - b.value) < Epsilon
    ensures a == b
  {
  }

  // ---------------------------------------------------------------------
  // to_obj
  // ---------------------------------------------------------------------

  function GeometriesFaces(gs: seq<Geometry>): (r: seq<ObjLine>)
    decreases |gs|
  {
    if |gs| == 0 then [] else ConvertGeometry(gs[0].boundaries) + GeometriesFaces(gs[1..])
  }

  function ObjectFaces(co: CityObject, parse: string -> Option<real>): (r: seq<ObjLine>) {
    match co.geometry
    case None => []
    case Some(gs) => GeometriesFaces(HighestLod(gs, parse))
  }

  /** The faces of the objects in map order `keys`. */
  function ObjectsFaces(cos: map<string, CityObject>, keys: seq<string>, parse: string -> Option<real>): (r: seq<ObjLine>)
    requires forall i :: 0 <= i < |keys| ==> keys[i] in cos
    decreases |keys|
  {
    if |keys| == 0 then [] else ObjectFaces(cos[keys[0]], parse) + ObjectsFaces(cos, keys[1..], parse)
  }

  function VertexLines(vs: seq<Vertex>, tr: Transform): (r: seq<ObjLine>)
    requires |tr.scale| >= 3 && |tr.translate| >= 3
    ensures |r| == |vs|
  {
    seq(|vs|, i requires 0 <= i < |vs| => V(World(vs[i], tr, 0), World(vs[i], tr, 1), World(vs[i], tr, 2)))
  }

  /** `to_obj`; `order` is the map's iteration order. */
  function ToObj(doc: CityJSON, order: seq<string>, parse: string -> Option<real>): (r: Result<seq<ObjLine>, ObjError>)
    requires IsOrderOf(order, doc.cityObjects)
  {
    var tr := doc.transform;
    if |doc.vertices| == 0 then Success(Header + [Blank] + ObjectsFaces(doc.cityObjects, order, parse))
    else if |tr.scale| < 3 || |tr.translate| < 3 then Failure(TransformTooShort)
    else Success(Header + VertexLines(doc.vertices, tr) + [Blank] + ObjectsFaces(doc.cityObjects, order, parse))
  }

  /** Only face lines follow the vertices. */
  predicate OnlyFaces(ls: seq<ObjLine>) {
    forall j :: 0 <= j < |ls| ==> ls[j].F?
  }

  /** Every number of every face refers to a line of `n` vertices. */
  predicate FacesWithin(ls: seq<ObjLine>, n: nat) {
    forall j, k :: 0 <= j < |ls| && ls[j].F? && 0 <= k < |ls[j].indices| ==> 1 <= ls[j].indices[k] <= n
  }

  lemma AppendFaces(a: seq<ObjLine>, b: seq<ObjLine>, n: nat)
    ensures OnlyFaces(a) && OnlyFaces(b) ==> OnlyFaces(a + b)
    ensures FacesWithin(a, n) && FacesWithin(b, n) ==> FacesWithin(a + b, n)
  {
    forall j | 0 <= j < |a + b| && j >= |a| ensures (a + b)[j] == b[j - |a|] {
    }
  }

  lemma ConvertGeometryFaces(b: NestedArray<nat>, n: nat)
    ensures OnlyFaces(ConvertGeometry(b))
    ensures (forall x :: x in Leaves(b) ==> x < n) ==> FacesWithin(ConvertGeometry(b), n)
  {
    ConvertGeometryIndices(b);
  }

  lemma {:induction false} GeometriesFacesSpec(gs: seq<Geometry>, n: nat)
    ensures OnlyFaces(GeometriesFaces(gs))
    ensures LeavesBelow(gs, n) ==> FacesWithin(GeometriesFaces(gs), n)
    decreases |gs|
  {
    if |gs| > 0 {
      var b := gs[0].boundaries;
      ConvertGeometryFaces(b, n);
      GeometriesFacesSpec(gs[1..], n);
      AppendFaces(ConvertGeometry(b), GeometriesFaces(gs[1..]), n);
      if LeavesBelow(gs, n) {
        assert LeavesBelow(gs[1..], n) by {
          forall i, j | 0 <= i < |gs[1..]| && 0 <= j < |Leaves(gs[1..][i].boundaries)|
            ensures Leaves(gs[1..][i].boundaries)[j] < n
          {
            assert gs[1..][i] == gs[i + 1];
          }
        }
        forall x | x in Leaves(b) ensures x < n {
          var j :| 0 <= j < |Leaves(b)| && Leaves(b)[j] == x;
        }
      }
    }
  }

  /** The highest-LOD geometries are among the object's geometries. */
  lemma ObjectFacesSpec(co: CityObject, parse: string -> Option<real>, n: nat)
    ensures OnlyFaces(ObjectFaces(co, parse))
    ensures ObjectLeavesBelow(co, n) ==> FacesWithin(ObjectFaces(co, parse), n)
  {
    if co.geometry.Some? {
      var gs := co.geometry.value;
      var hs := HighestLod(gs, parse);
      HighestLodSpec(gs, parse);
      MaxLodSpec(gs, parse);
      if MaxLod(gs, parse).Some? {
        KeepAtLodSpec(gs, parse, MaxLod(gs, parse).value);
      }
      if ObjectLeavesBelow(co, n) {
        forall i, j | 0 <= i < |hs| && 0 <= j < |Leaves(hs[i].boundaries)| ensures Leaves(hs[i].boundaries)[j] < n {
          assert hs[i] in gs;
          var k :| 0 <= k < |gs| && gs[k] == hs[i];
        }
      }
      GeometriesFacesSpec(hs, n);
    }
  }

  lemma {:induction false} ObjectsFacesSpec(cos: map<string, CityObject>, keys: seq<string>, parse: string -> Option<real>, n: nat)
    requires forall i :: 0 <= i < |keys| ==> keys[i] in cos
    ensures OnlyFaces(ObjectsFaces(cos, keys, parse))
    ensures (forall k :: k in cos ==> ObjectLeavesBelow(cos[k], n)) ==> FacesWithin(ObjectsFaces(cos, keys, parse), n)
    decreases |keys|
  {
    if |keys| > 0 {
      ObjectFacesSpec(cos[keys[0]], parse, n);
      ObjectsFacesSpec(cos, keys[1..], parse, n);
      AppendFaces(ObjectFaces(cos[keys[0]], parse), ObjectsFaces(cos, keys[1..], parse), n);
    }
  }

  /** Where the parts of the file sit: the header, the vertex lines, the
      blank line and the faces. */
  lemma Layout(vls: seq<ObjLine>, faces: seq<ObjLine>)
    ensures var r := Header + vls + [Blank] + faces;
      && |r| == 4 + |vls| + |faces|
      && r[..3] == Header
      && (forall i :: 0 <= i < |vls| ==> r[3 + i] == vls[i])
      && r[3 + |vls|] == Blank
      && r[4 + |vls|..] == faces
  {
    var r := Header + vls + [Blank] + faces;
    assert r == Header + (vls + ([Blank] + faces));
    assert r[4 + |vls|..] == faces;
  }

  /** `to_obj` writes the two comments and a blank line, one `v` line per
      vertex in order at its real-world position, a blank line, and then
      only faces; when every boundary index names a vertex, every face
      number names one of the `v` lines. It fails only when there are
      vertices and the transform is too short to place them. */
  lemma ToObjSpec(doc: CityJSON, order: seq<string>, parse: string -> Option<real>)
    requires IsOrderOf(order, doc.cityObjects)
    ensures ToObj(doc, order, parse).Failure? <==>
      |doc.vertices| > 0 && (|doc.transform.scale| < 3 || |doc.transform.translate| < 3)
    ensures var r := ToObj(doc, order, parse);
      var n := |doc.vertices|;
      r.Success? ==>
        && |r.value| >= 4 + n
        && r.value[..3] == Header
        && (forall i :: 0 <= i < n ==>
              r.value[3 + i] == V(World(doc.vertices[i], doc.transform, 0), World(doc.vertices[i], doc.transform, 1),
                                  World(doc.vertices[i], doc.transform, 2)))
        && r.value[3 + n] == Blank
        && OnlyFaces(r.value[4 + n..])
    ensures var r := ToObj(doc, order, parse);
      r.Success? && VerticesInRange(doc) ==> FacesWithin(r.value[4 + |doc.vertices|..], |doc.vertices|)
  {
    var r := ToObj(doc, order, parse);
    var n := |doc.vertices|;
    if r.Success? {
      var faces := ObjectsFaces(doc.cityObjects, order, parse);
      if n == 0 {
        assert Header + [Blank] + faces == Header + [] + [Blank] + faces;
        Layout([], faces);
      } else {
        var vls := VertexLines(doc.vertices, doc.transform);
        assert r.value == Header + vls + [Blank] + faces;
        Layout(vls, faces);
        forall i | 0 <= i < n ensures r.value[3 + i] == V(World(doc.vertices[i], doc.transform, 0),
          World(doc.vertices[i], doc.transform, 1), World(doc.vertices[i], doc.transform, 2))
        {
          assert r.value[3 + i] == vls[i];
        }
      }
      ObjectsFacesSpec(doc.cityObjects, order, parse, n);
    }
  }
}
