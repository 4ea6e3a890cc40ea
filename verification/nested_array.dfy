/** Geometry boundaries and appearance values: the recursive
    `NestedArray<T>` of the source, its depth-first leaf walk, the
    renumbering and offset passes over it, and its JSON form. */
module NestedArrays {
  import opened Wrappers
  import opened Json
  import opened Remap

  /** `Indices(vec)` holds the leaf ids of one ring, line or point list;
      `Nested(vec)` holds sub-arrays one level further down. */
  datatype NestedArray<T> = Indices(items: seq<T>) | Nested(subs: seq<NestedArray<T>>)

  /** The shape of a nested array: the tree with every leaf list replaced
      by its length. Two arrays with the same shape differ only in leaves. */
  datatype Shape = Leaf(width: nat) | Node(kids: seq<Shape>)

  function ShapeOf<T>(b: NestedArray<T>): Shape
    decreases b, 1
  {
    match b
    case Indices(xs) => Leaf(|xs|)
    case Nested(bs) => Node(ShapesOf(bs))
  }

  function ShapesOf<T>(bs: seq<NestedArray<T>>): seq<Shape>
    decreases bs, 0
  {
    if |bs| == 0 then [] else [ShapeOf(bs[0])] + ShapesOf(bs[1..])
  }

  /** The leaf lists in depth-first, left-to-right order: the order in which
      every recursive pass of the source visits them. */
  function LeafLists<T>(b: NestedArray<T>): seq<seq<T>>
    decreases b, 1
  {
    match b
    case Indices(xs) => [xs]
    case Nested(bs) => LeafListsAll(bs)
  }

  function LeafListsAll<T>(bs: seq<NestedArray<T>>): seq<seq<T>>
    decreases bs, 0
  {
    if |bs| == 0 then [] else LeafLists(bs[0]) + LeafListsAll(bs[1..])
  }

  function Concat<T>(xss: seq<seq<T>>): seq<T> {
    if |xss| == 0 then [] else xss[0] + Concat(xss[1..])
  }

  /** Every leaf, in visiting order. */
  function Leaves<T>(b: NestedArray<T>): seq<T> {
    Concat(LeafLists(b))
  }

  lemma {:induction false} ConcatAppend<T>(xss: seq<seq<T>>, yss: seq<seq<T>>)
    ensures Concat(xss + yss) == Concat(xss) + Concat(yss)
    decreases |xss|
  {
    if |xss| == 0 {
      assert xss + yss == yss;
    } else {
      assert (xss + yss)[1..] == xss[1..] + yss;
      ConcatAppend(xss[1..], yss);
    }
  }

  // ---------------------------------------------------------------------
  // The generic depth-first walk
  // ---------------------------------------------------------------------

  /** Rewrites every leaf list with `step`, threading a state `s` through
      the lists in visiting order. Every pass of the source over a
      `NestedArray` (renumber, offset, material and texture remap) is this
      walk with its own step. */
  function Walk<T, S>(b: NestedArray<T>, s: S, step: (seq<T>, S) -> (seq<T>, S)): (r: (NestedArray<T>, S))
    decreases b, 1
  {
    match b
    case Indices(xs) =>
      var p := step(xs, s);
      (Indices(p.0), p.1)
    case Nested(bs) =>
      var p := WalkAll(bs, s, step);
      (Nested(p.0), p.1)
  }

  function WalkAll<T, S>(bs: seq<NestedArray<T>>, s: S, step: (seq<T>, S) -> (seq<T>, S)): (r: (seq<NestedArray<T>>, S))
    ensures |r.0| == |bs|
    decreases bs, 0
  {
    if |bs| == 0 then ([], s)
    else
      var p := Walk(bs[0], s, step);
      var q := WalkAll(bs[1..], p.1, step);
      ([p.0] + q.0, q.1)
  }

  /** The reference for `Walk`: apply `step` to a flat list of leaf lists. */
  function FoldLists<T, S>(xss: seq<seq<T>>, s: S, step: (seq<T>, S) -> (seq<T>, S)): (r: (seq<seq<T>>, S))
    ensures |r.0| == |xss|
    decreases |xss|
  {
    if |xss| == 0 then ([], s)
    else
      var p := step(xss[0], s);
      var q := FoldLists(xss[1..], p.1, step);
      ([p.0] + q.0, q.1)
  }

  lemma {:induction false} FoldListsAppend<T, S>(xss: seq<seq<T>>, yss: seq<seq<T>>, s: S, step: (seq<T>, S) -> (seq<T>, S))
    ensures FoldLists(xss + yss, s, step).0
         == FoldLists(xss, s, step).0 + FoldLists(yss, FoldLists(xss, s, step).1, step).0
    ensures FoldLists(xss + yss, s, step).1 == FoldLists(yss, FoldLists(xss, s, step).1, step).1
    decreases |xss|
  {
    if |xss| == 0 {
      assert xss + yss == yss;
    } else {
      assert (xss + yss)[0] == xss[0];
      assert (xss + yss)[1..] == xss[1..] + yss;
      FoldListsAppend(xss[1..], yss, step(xss[0], s).1, step);
    }
  }

  /** The walk visits the leaf lists exactly as a flat fold over them does:
      the rewritten leaf lists and the final state are the fold's. */
  lemma {:induction false} WalkIsFold<T, S>(b: NestedArray<T>, s: S, step: (seq<T>, S) -> (seq<T>, S))
    ensures LeafLists(Walk(b, s, step).0) == FoldLists(LeafLists(b), s, step).0
    ensures Walk(b, s, step).1 == FoldLists(LeafLists(b), s, step).1
    decreases b, 1
  {
    match b
    case Indices(xs) =>
      var p := step(xs, s);
      assert [xs][0] == xs && [xs][1..] == [];
      assert FoldLists([xs][1..], p.1, step) == ([], p.1);
      assert [p.0] + [] == [p.0];
    case Nested(bs) =>
      WalkAllIsFold(bs, s, step);
  }

  lemma {:induction false} WalkAllIsFold<T, S>(bs: seq<NestedArray<T>>, s: S, step: (seq<T>, S) -> (seq<T>, S))
    ensures LeafListsAll(WalkAll(bs, s, step).0) == FoldLists(LeafListsAll(bs), s, step).0
    ensures WalkAll(bs, s, step).1 == FoldLists(LeafListsAll(bs), s, step).1
    decreases bs, 0
  {
    if |bs| > 0 {
      var p := Walk(bs[0], s, step);
      var q := WalkAll(bs[1..], p.1, step);
      WalkIsFold(bs[0], s, step);
      WalkAllIsFold(bs[1..], p.1, step);
      FoldListsAppend(LeafLists(bs[0]), LeafListsAll(bs[1..]), s, step);
      var r := [p.0] + q.0;
      assert r[0] == p.0 && r[1..] == q.0;
    }
  }

  /** A step that rewrites each leaf list into one of the same length. */
  ghost predicate KeepsLength<T(!new), S(!new)>(step: (seq<T>, S) -> (seq<T>, S)) {
    forall xs: seq<T>, s: S :: |step(xs, s).0| == |xs|
  }

  /** A length-keeping walk keeps the nesting shape. */
  lemma {:induction false} WalkKeepsShape<T(!new), S(!new)>(b: NestedArray<T>, s: S, step: (seq<T>, S) -> (seq<T>, S))
    requires KeepsLength(step)
    ensures ShapeOf(Walk(b, s, step).0) == ShapeOf(b)
    decreases b, 1
  {
    match b
    case Indices(xs) =>
    case Nested(bs) =>
      WalkAllKeepsShape(bs, s, step);
  }

  lemma {:induction false} WalkAllKeepsShape<T(!new), S(!new)>(bs: seq<NestedArray<T>>, s: S, step: (seq<T>, S) -> (seq<T>, S))
    requires KeepsLength(step)
    ensures ShapesOf(WalkAll(bs, s, step).0) == ShapesOf(bs)
    decreases bs, 0
  {
    if |bs| > 0 {
      var p := Walk(bs[0], s, step);
      var q := WalkAll(bs[1..], p.1, step);
      WalkKeepsShape(bs[0], s, step);
      WalkAllKeepsShape(bs[1..], p.1, step);
      var r := [p.0] + q.0;
      assert r[0] == p.0 && r[1..] == q.0;
    }
  }

  // ---------------------------------------------------------------------
  // Vertex renumbering (first seen wins)
  // ---------------------------------------------------------------------

  function ResolveStep(offset: nat): (seq<nat>, Table) -> (seq<nat>, Table) {
    (xs: seq<nat>, t: Table) => ResolveList(t, xs, offset)
  }

  /** `update_geometry_boundaries` / `update_indices_recursively`: every leaf
      `old` becomes `entry(old).or_insert(len + offset)` of the threaded
      table, in visiting order. The library uses `offset == 0`. */
  function Renumber(b: NestedArray<nat>, t: Table, offset: nat): (r: (NestedArray<nat>, Table)) {
    Walk(b, t, ResolveStep(offset))
  }

  lemma {:induction false} FoldResolveIsFlat(xss: seq<seq<nat>>, t: Table, offset: nat)
    ensures Concat(FoldLists(xss, t, ResolveStep(offset)).0) == ResolveList(t, Concat(xss), offset).0
    ensures FoldLists(xss, t, ResolveStep(offset)).1 == ResolveList(t, Concat(xss), offset).1
    decreases |xss|
  {
    if |xss| > 0 {
      var step := ResolveStep(offset);
      var p := step(xss[0], t);
      var q := FoldLists(xss[1..], p.1, step);
      FoldResolveIsFlat(xss[1..], p.1, offset);
      ResolveListAppend(t, xss[0], Concat(xss[1..]), offset);
      var r := [p.0] + q.0;
      assert r[0] == p.0 && r[1..] == q.0;
    }
  }

  /** Renumbering a nested array is renumbering its flat leaf sequence:
      the shape is kept, the leaves are the flat renumbering's output, and
      the final table is the flat renumbering's table. */
  lemma RenumberIsFlat(b: NestedArray<nat>, t: Table, offset: nat)
    ensures ShapeOf(Renumber(b, t, offset).0) == ShapeOf(b)
    ensures Leaves(Renumber(b, t, offset).0) == ResolveList(t, Leaves(b), offset).0
    ensures Renumber(b, t, offset).1 == ResolveList(t, Leaves(b), offset).1
  {
    var step := ResolveStep(offset);
    assert KeepsLength(step);
    WalkKeepsShape(b, t, step);
    WalkIsFold(b, t, step);
    FoldResolveIsFlat(LeafLists(b), t, offset);
  }

  /** What renumbering promises: the shape is kept; each leaf becomes the
      final table's value for the old leaf; recorded ids keep their value;
      every leaf is recorded and nothing else is; a dense table (values
      exactly `offset .. offset + |t| - 1`) stays dense. */
  lemma RenumberSpec(b: NestedArray<nat>, t: Table, offset: nat)
    ensures var r := Renumber(b, t, offset);
      && ShapeOf(r.0) == ShapeOf(b)
      && |Leaves(r.0)| == |Leaves(b)|
      && (forall i :: 0 <= i < |Leaves(b)| ==> Leaves(b)[i] in r.1 && Leaves(r.0)[i] == r.1[Leaves(b)[i]])
      && Extends(t, r.1)
      && (forall k :: k in r.1 ==> k in t || k in Leaves(b))
      && (DenseFrom(t, offset) ==> DenseFrom(r.1, offset))
  {
    RenumberIsFlat(b, t, offset);
    ResolveListSpec(t, Leaves(b), offset);
    if DenseFrom(t, offset) {
      ResolveListKeepsDense(t, Leaves(b), offset);
    }
  }

  /** A walk whose step leaves every leaf list and the state alone
      changes nothing. */
  lemma {:induction false} WalkFixed<T, S>(b: NestedArray<T>, s: S, step: (seq<T>, S) -> (seq<T>, S))
    requires forall xs :: xs in LeafLists(b) ==> step(xs, s) == (xs, s)
    ensures Walk(b, s, step) == (b, s)
    decreases b, 1
  {
    match b
    case Indices(xs) =>
      assert xs in LeafLists(b);
    case Nested(bs) =>
      WalkAllFixed(bs, s, step);
  }

  lemma {:induction false} WalkAllFixed<T, S>(bs: seq<NestedArray<T>>, s: S, step: (seq<T>, S) -> (seq<T>, S))
    requires forall xs :: xs in LeafListsAll(bs) ==> step(xs, s) == (xs, s)
    ensures WalkAll(bs, s, step) == (bs, s)
    decreases bs, 0
  {
    if |bs| > 0 {
      WalkFixed(bs[0], s, step);
      WalkAllFixed(bs[1..], s, step);
      assert [bs[0]] + bs[1..] == bs;
    }
  }

  lemma {:induction false} ConcatMember<T>(xss: seq<seq<T>>, xs: seq<T>, x: T)
    requires xs in xss && x in xs
    ensures x in Concat(xss)
    decreases |xss|
  {
    if xss[0] != xs {
      assert xs in xss[1..];
      ConcatMember(xss[1..], xs, x);
    }
  }

  /** Renumbering through a table that already maps every leaf to itself
      changes neither the array nor the table. */
  lemma RenumberFixed(b: NestedArray<nat>, t: Table)
    requires forall x :: x in Leaves(b) ==> x in t && t[x] == x
    ensures Renumber(b, t, 0) == (b, t)
  {
    forall xs | xs in LeafLists(b) ensures ResolveStep(0)(xs, t) == (xs, t) {
      forall x | x in xs ensures x in t && t[x] == x {
        ConcatMember(LeafLists(b), xs, x);
      }
      ResolveListFixed(t, xs);
    }
    WalkFixed(b, t, ResolveStep(0));
  }

  // ---------------------------------------------------------------------
  // Constant offset
  // ---------------------------------------------------------------------

  function AddToAll(xs: seq<nat>, k: nat): (r: seq<nat>)
    ensures |r| == |xs|
    ensures forall i :: 0 <= i < |xs| ==> r[i] == xs[i] + k
  {
    seq(|xs|, i requires 0 <= i < |xs| => xs[i] + k)
  }

  function OffsetStep(k: nat): (seq<nat>, ()) -> (seq<nat>, ()) {
    (xs: seq<nat>, u: ()) => (AddToAll(xs, k), u)
  }

  /** `offset_geometry_boundaries`: adds `k` to every leaf. */
  function Offset(b: NestedArray<nat>, k: nat): (r: NestedArray<nat>) {
    Walk(b, (), OffsetStep(k)).0
  }

  lemma {:induction false} FoldOffsetIsFlat(xss: seq<seq<nat>>, k: nat)
    ensures Concat(FoldLists(xss, (), OffsetStep(k)).0) == AddToAll(Concat(xss), k)
    decreases |xss|
  {
    if |xss| > 0 {
      var p := OffsetStep(k)(xss[0], ());
      var q := FoldLists(xss[1..], (), OffsetStep(k));
      FoldOffsetIsFlat(xss[1..], k);
      var r := [p.0] + q.0;
      assert r[0] == p.0 && r[1..] == q.0;
      assert AddToAll(Concat(xss), k) == AddToAll(xss[0], k) + AddToAll(Concat(xss[1..]), k);
    }
  }

  /** The offset keeps the shape and adds `k` to every leaf, position by
      position. */
  lemma OffsetSpec(b: NestedArray<nat>, k: nat)
    ensures ShapeOf(Offset(b, k)) == ShapeOf(b)
    ensures |Leaves(Offset(b, k))| == |Leaves(b)|
    ensures forall i :: 0 <= i < |Leaves(b)| ==> Leaves(Offset(b, k))[i] == Leaves(b)[i] + k
  {
    var step := OffsetStep(k);
    assert KeepsLength(step);
    WalkKeepsShape(b, (), step);
    WalkIsFold(b, (), step);
    FoldOffsetIsFlat(LeafLists(b), k);
  }

  /** Offsetting by `j` then by `k` is offsetting by `j + k`. */
  lemma OffsetTwice(b: NestedArray<nat>, j: nat, k: nat)
    ensures Leaves(Offset(Offset(b, j), k)) == Leaves(Offset(b, j + k))
    ensures ShapeOf(Offset(Offset(b, j), k)) == ShapeOf(Offset(b, j + k))
  {
    OffsetSpec(b, j);
    OffsetSpec(Offset(b, j), k);
    OffsetSpec(b, j + k);
  }

  // ---------------------------------------------------------------------
  // Material values: nullable ids, `None` left alone
  // ---------------------------------------------------------------------

  function MaterialStep(): (seq<Option<nat>>, Table) -> (seq<Option<nat>>, Table) {
    (xs: seq<Option<nat>>, t: Table) => ResolveOptList(t, xs)
  }

  /** The `update_indices` helper of `update_material`: every present id is
      renumbered first-seen-wins; `None` stays `None`. */
  function RenumberMaterialValues(b: NestedArray<Option<nat>>, t: Table): (r: (NestedArray<Option<nat>>, Table)) {
    Walk(b, t, MaterialStep())
  }

  lemma {:induction false} FoldMaterialIsFlat(xss: seq<seq<Option<nat>>>, t: Table)
    ensures Concat(FoldLists(xss, t, MaterialStep()).0) == ResolveOptList(t, Concat(xss)).0
    ensures FoldLists(xss, t, MaterialStep()).1 == ResolveOptList(t, Concat(xss)).1
    decreases |xss|
  {
    if |xss| > 0 {
      var step := MaterialStep();
      var p := step(xss[0], t);
      var q := FoldLists(xss[1..], p.1, step);
      FoldMaterialIsFlat(xss[1..], p.1);
      ResolveOptListAppend(t, xss[0], Concat(xss[1..]));
      var r := [p.0] + q.0;
      assert r[0] == p.0 && r[1..] == q.0;
    }
  }

  /** Material values keep their shape; `None` leaves stay `None` and every
      present id becomes the final table's value for it; a dense table stays
      dense. */
  lemma RenumberMaterialValuesSpec(b: NestedArray<Option<nat>>, t: Table)
    ensures var r := RenumberMaterialValues(b, t);
      && ShapeOf(r.0) == ShapeOf(b)
      && |Leaves(r.0)| == |Leaves(b)|
      && (forall i :: 0 <= i < |Leaves(b)| ==>
            (Leaves(b)[i].None? ==> Leaves(r.0)[i].None?) &&
            (Leaves(b)[i].Some? ==> Leaves(b)[i].value in r.1 && Leaves(r.0)[i] == Some(r.1[Leaves(b)[i].value])))
      && Extends(t, r.1)
      && (forall k :: k in r.1 ==> k in t || Some(k) in Leaves(b))
      && (DenseFrom(t, 0) ==> DenseFrom(r.1, 0))
  {
    var step := MaterialStep();
    assert KeepsLength(step);
    WalkKeepsShape(b, t, step);
    WalkIsFold(b, t, step);
    FoldMaterialIsFlat(LeafLists(b), t);
    ResolveOptListSpec(t, Leaves(b));
    if DenseFrom(t, 0) {
      ResolveOptListKeepsDense(t, Leaves(b));
    }
  }

  // ---------------------------------------------------------------------
  // Texture values: position 0 is a texture id, the rest are uv ids
  // ---------------------------------------------------------------------

  /** The two tables the texture pass threads: texture ids and uv ids. */
  datatype TexTables = TexTables(textures: Table, uvs: Table)

  /** One leaf list of `update_texture_indices`, from position `pos` on:
      a present id at position 0 is renumbered through the texture table
      (new id `len`), one at a later position through the uv table (new id
      `len + offset`); `None` stays `None`. */
  function TextureList(xs: seq<Option<nat>>, pos: nat, s: TexTables, offset: nat): (r: (seq<Option<nat>>, TexTables))
    ensures |r.0| == |xs|
    decreases |xs|
  {
    if |xs| == 0 then ([], s)
    else
      match xs[0]
      case None =>
        var q := TextureList(xs[1..], pos + 1, s, offset);
        ([None] + q.0, q.1)
      case Some(x) =>
        if pos == 0 then
          var p := Resolve(s.textures, x, 0);
          var q := TextureList(xs[1..], pos + 1, s.(textures := p.1), offset);
          ([Some(p.0)] + q.0, q.1)
        else
          var p := Resolve(s.uvs, x, offset);
          var q := TextureList(xs[1..], pos + 1, s.(uvs := p.1), offset);
          ([Some(p.0)] + q.0, q.1)
  }

  /** Both tables of `s'` extend those of `s`. */
  ghost predicate TexExtends(s: TexTables, s': TexTables) {
    Extends(s.textures, s'.textures) && Extends(s.uvs, s'.uvs)
  }

  /** Leaf `y` is the remap of leaf `x` at position `pos` under tables `s`. */
  ghost predicate TexMapped(x: Option<nat>, y: Option<nat>, pos: nat, s: TexTables) {
    match x
    case None => y.None?
    case Some(v) =>
      if pos == 0 then v in s.textures && y == Some(s.textures[v])
      else v in s.uvs && y == Some(s.uvs[v])
  }

  lemma TexMappedExtends(x: Option<nat>, y: Option<nat>, pos: nat, s: TexTables, s': TexTables)
    requires TexMapped(x, y, pos, s) && TexExtends(s, s')
    ensures TexMapped(x, y, pos, s')
  {
  }

  /** A dense pair of tables: texture ids from 0, uv ids from `offset`. */
  ghost predicate TexDense(s: TexTables, offset: nat) {
    DenseFrom(s.textures, 0) && DenseFrom(s.uvs, offset)
  }

  lemma {:induction false} TextureListExtends(xs: seq<Option<nat>>, pos: nat, s: TexTables, offset: nat)
    ensures TexExtends(s, TextureList(xs, pos, s, offset).1)
    decreases |xs|
  {
    if |xs| > 0 {
      match xs[0]
      case None =>
        TextureListExtends(xs[1..], pos + 1, s, offset);
      case Some(x) =>
        if pos == 0 {
          TextureListExtends(xs[1..], pos + 1, s.(textures := Resolve(s.textures, x, 0).1), offset);
        } else {
          TextureListExtends(xs[1..], pos + 1, s.(uvs := Resolve(s.uvs, x, offset).1), offset);
        }
    }
  }

  lemma {:induction false} TextureListDense(xs: seq<Option<nat>>, pos: nat, s: TexTables, offset: nat)
    requires TexDense(s, offset)
    ensures TexDense(TextureList(xs, pos, s, offset).1, offset)
    decreases |xs|
  {
    if |xs| > 0 {
      match xs[0]
      case None =>
        TextureListDense(xs[1..], pos + 1, s, offset);
      case Some(x) =>
        if pos == 0 {
          ResolveKeepsDense(s.textures, x, 0);
          TextureListDense(xs[1..], pos + 1, s.(textures := Resolve(s.textures, x, 0).1), offset);
        } else {
          ResolveKeepsDense(s.uvs, x, offset);
          TextureListDense(xs[1..], pos + 1, s.(uvs := Resolve(s.uvs, x, offset).1), offset);
        }
    }
  }

  lemma {:induction false} TextureListMapped(xs: seq<Option<nat>>, pos: nat, s: TexTables, offset: nat)
    ensures var r := TextureList(xs, pos, s, offset);
      forall i :: 0 <= i < |xs| ==> TexMapped(xs[i], r.0[i], pos + i, r.1)
    decreases |xs|
  {
    if |xs| > 0 {
      var r := TextureList(xs, pos, s, offset);
      var s1 := match xs[0]
        case None => s
        case Some(x) =>
          if pos == 0 then s.(textures := Resolve(s.textures, x, 0).1)
          else s.(uvs := Resolve(s.uvs, x, offset).1);
      var q := TextureList(xs[1..], pos + 1, s1, offset);
      assert r.0 == [r.0[0]] + q.0 && r.1 == q.1;
      TextureListMapped(xs[1..], pos + 1, s1, offset);
      TextureListExtends(xs[1..], pos + 1, s1, offset);
      assert TexMapped(xs[0], r.0[0], pos, s1);
      TexMappedExtends(xs[0], r.0[0], pos, s1, q.1);
      TexListStep(xs, pos, r.0[0], q.0, q.1);
    }
  }

  /** The induction step of `TextureListMapped`: a mapped first leaf in
      front of mapped others. */
  lemma TexListStep(xs: seq<Option<nat>>, pos: nat, h: Option<nat>, rest: seq<Option<nat>>, s: TexTables)
    requires |xs| > 0 && |rest| == |xs| - 1
    requires TexMapped(xs[0], h, pos, s)
    requires forall i :: 0 <= i < |xs[1..]| ==> TexMapped(xs[1..][i], rest[i], pos + 1 + i, s)
    ensures forall i :: 0 <= i < |xs| ==> TexMapped(xs[i], ([h] + rest)[i], pos + i, s)
  {
    forall i | 1 <= i < |xs| ensures TexMapped(xs[i], ([h] + rest)[i], pos + i, s) {
      assert xs[i] == xs[1..][i - 1] && ([h] + rest)[i] == rest[i - 1];
      assert TexMapped(xs[1..][i - 1], rest[i - 1], pos + 1 + (i - 1), s);
    }
  }

  /** One texture leaf list: both tables only grow, every leaf is remapped
      through the table its position selects, and dense tables stay dense. */
  lemma TextureListSpec(xs: seq<Option<nat>>, pos: nat, s: TexTables, offset: nat)
    ensures var r := TextureList(xs, pos, s, offset);
      && TexExtends(s, r.1)
      && (forall i :: 0 <= i < |xs| ==> TexMapped(xs[i], r.0[i], pos + i, r.1))
      && (TexDense(s, offset) ==> TexDense(r.1, offset))
  {
    TextureListExtends(xs, pos, s, offset);
    TextureListMapped(xs, pos, s, offset);
    if TexDense(s, offset) {
      TextureListDense(xs, pos, s, offset);
    }
  }

  function TextureStep(offset: nat): (seq<Option<nat>>, TexTables) -> (seq<Option<nat>>, TexTables) {
    (xs: seq<Option<nat>>, s: TexTables) => TextureList(xs, 0, s, offset)
  }

  /** `update_texture_indices` over one texture theme's values. */
  function RenumberTextureValues(b: NestedArray<Option<nat>>, s: TexTables, offset: nat): (r: (NestedArray<Option<nat>>, TexTables)) {
    Walk(b, s, TextureStep(offset))
  }

  /** Every leaf list `yss[j]` is the remap of `xss[j]` under tables `s`. */
  ghost predicate ListsMapped(xss: seq<seq<Option<nat>>>, yss: seq<seq<Option<nat>>>, s: TexTables) {
    && |yss| == |xss|
    && (forall j :: 0 <= j < |xss| ==> |yss[j]| == |xss[j]|)
    && (forall j, i :: 0 <= j < |xss| && 0 <= i < |xss[j]| && |yss[j]| == |xss[j]| ==>
          TexMapped(xss[j][i], yss[j][i], i, s))
  }

  lemma {:induction false} FoldTextureSpec(xss: seq<seq<Option<nat>>>, s: TexTables, offset: nat)
    ensures var r := FoldLists(xss, s, TextureStep(offset));
      && TexExtends(s, r.1)
      && ListsMapped(xss, r.0, r.1)
      && (TexDense(s, offset) ==> TexDense(r.1, offset))
    decreases |xss|
  {
    if |xss| > 0 {
      var step := TextureStep(offset);
      var p := step(xss[0], s);
      assert p == TextureList(xss[0], 0, s, offset);
      var q := FoldLists(xss[1..], p.1, step);
      TextureListSpec(xss[0], 0, s, offset);
      FoldTextureSpec(xss[1..], p.1, offset);
      var r := [p.0] + q.0;
      assert r[0] == p.0 && r[1..] == q.0;
      assert FoldLists(xss, s, step) == (r, q.1);
      assert ListsMapped(xss[1..], q.0, q.1);
      forall j | 0 <= j < |xss| ensures |r[j]| == |xss[j]| {
        if j > 0 {
          assert xss[j] == xss[1..][j - 1] && r[j] == q.0[j - 1];
        }
      }
      forall j, i | 0 <= j < |xss| && 0 <= i < |xss[j]| && |r[j]| == |xss[j]|
        ensures TexMapped(xss[j][i], r[j][i], i, q.1)
      {
        if j == 0 {
          TexMappedExtends(xss[0][i], p.0[i], i, p.1, q.1);
        } else {
          assert xss[j] == xss[1..][j - 1] && r[j] == q.0[j - 1];
          assert TexMapped(xss[1..][j - 1][i], q.0[j - 1][i], i, q.1);
        }
      }
    }
  }

  /** Texture values keep their shape; in every leaf list a present id at
      position 0 becomes the final texture table's value for it and one at a
      later position the final uv table's; `None` stays `None`; dense tables
      stay dense (texture ids from 0, uv ids from `offset`). */
  lemma RenumberTextureValuesSpec(b: NestedArray<Option<nat>>, s: TexTables, offset: nat)
    ensures var r := RenumberTextureValues(b, s, offset);
      && ShapeOf(r.0) == ShapeOf(b)
      && |LeafLists(r.0)| == |LeafLists(b)|
      && TexExtends(s, r.1)
      && ListsMapped(LeafLists(b), LeafLists(r.0), r.1)
      && (TexDense(s, offset) ==> TexDense(r.1, offset))
  {
    var step := TextureStep(offset);
    assert KeepsLength(step);
    WalkKeepsShape(b, s, step);
    WalkIsFold(b, s, step);
    FoldTextureSpec(LeafLists(b), s, offset);
    var r := Walk(b, s, step);
    var f := FoldLists(LeafLists(b), s, step);
    assert LeafLists(r.0) == f.0 && r.1 == f.1;
  }

  // ---------------------------------------------------------------------
  // JSON form
  // ---------------------------------------------------------------------

  /** `parse_nested_array`: a non-array or an empty array is an empty
      `Indices`; an array whose first element is an array is `Nested` of the
      element-wise parses; any other array is `Indices` of the elements
      `from` accepts, the others silently dropped. */
  function Parse<T>(v: Json, from: Json -> Option<T>): (r: NestedArray<T>)
    decreases v, 1
  {
    match v
    case JArr(elems) =>
      if |elems| == 0 then Indices([])
      else if elems[0].JArr? then Nested(ParseAll(elems, from))
      else Indices(ParseLeaves(elems, from))
    case _ => Indices([])
  }

  function ParseAll<T>(elems: seq<Json>, from: Json -> Option<T>): (r: seq<NestedArray<T>>)
    ensures |r| == |elems|
    decreases elems, 0
  {
    if |elems| == 0 then [] else [Parse(elems[0], from)] + ParseAll(elems[1..], from)
  }

  /** The elements `from` accepts, converted, in order. */
  function ParseLeaves<T>(elems: seq<Json>, from: Json -> Option<T>): (r: seq<T>)
    ensures |r| <= |elems|
  {
    if |elems| == 0 then []
    else
      match from(elems[0])
      case Some(x) => [x] + ParseLeaves(elems[1..], from)
      case None => ParseLeaves(elems[1..], from)
  }

  /** `nested_array_to_value`: an array per level, each leaf through `to`. */
  function ToValue<T>(b: NestedArray<T>, to: T -> Json): (r: Json)
    decreases b, 1
  {
    match b
    case Indices(xs) => JArr(LeafValues(xs, to))
    case Nested(bs) => JArr(ToValues(bs, to))
  }

  function ToValues<T>(bs: seq<NestedArray<T>>, to: T -> Json): (r: seq<Json>)
    ensures |r| == |bs|
    decreases bs, 0
  {
    if |bs| == 0 then [] else [ToValue(bs[0], to)] + ToValues(bs[1..], to)
  }

  function LeafValues<T>(xs: seq<T>, to: T -> Json): (r: seq<Json>)
    ensures |r| == |xs|
  {
    if |xs| == 0 then [] else [to(xs[0])] + LeafValues(xs[1..], to)
  }

  /** `u32::from_value`: `as_u64` then `as u32`, else `as_i64` then `as u32`;
      both casts keep the low 32 bits. */
  function FromU32(v: Json): (r: Option<nat>)
    ensures r.Some? <==> v.JInt? && I64_MIN <= v.i < U64_LIMIT
    ensures r.Some? ==> r.value < U32_LIMIT && r.value % U32_LIMIT == v.i % U32_LIMIT
  {
    if IsU64(v) then Some(v.i % U32_LIMIT)
    else if IsI64(v) then Some(v.i % U32_LIMIT)
    else None
  }

  /** `usize::from_value` on a 64-bit target: a negative `i64` wraps. */
  function FromUsize(v: Json): (r: Option<nat>)
    ensures r.Some? <==> v.JInt? && I64_MIN <= v.i < U64_LIMIT
    ensures r.Some? ==> r.value < U64_LIMIT && (0 <= v.i ==> r.value == v.i)
  {
    if IsU64(v) then Some(v.i)
    else if IsI64(v) then Some(v.i % U64_LIMIT)
    else None
  }

  /** `Option<u32>::from_value`: `null` is an accepted `None`. */
  function FromOptU32(v: Json): (r: Option<Option<nat>>)
    ensures v.JNull? ==> r == Some(None)
    ensures !v.JNull? ==> r == (match FromU32(v) case Some(x) => Some(Some(x)) case None => None)
  {
    if v.JNull? then Some(None)
    else match FromU32(v)
      case Some(x) => Some(Some(x))
      case None => None
  }

  /** `Option<usize>::from_value`: `null` is an accepted `None`. */
  function FromOptUsize(v: Json): (r: Option<Option<nat>>)
    ensures v.JNull? ==> r == Some(None)
    ensures !v.JNull? ==> r == (match FromUsize(v) case Some(x) => Some(Some(x)) case None => None)
  {
    if v.JNull? then Some(None)
    else match FromUsize(v)
      case Some(x) => Some(Some(x))
      case None => None
  }

  /** `u32::to_value` / `usize::to_value`: a JSON number. */
  function IndexToValue(x: nat): Json {
    JInt(x)
  }

  /** `Option<u32>::to_value`: the number, or `null`. */
  function OptIndexToValue(x: Option<nat>): Json {
    match x
    case Some(v) => JInt(v)
    case None => JNull
  }

  /** `Option<usize>::to_value` as the library writes it: the option is
      serialised as an iterator, so `Some(x)` is `[x]` and `None` is `[]`. */
  function OptUsizeToValueAsWritten(x: Option<nat>): Json {
    JArr(match x case Some(v) => [JInt(v)] case None => [])
  }

  // ---------------------------------------------------------------------
  // Parse / serialise round trips
  // ---------------------------------------------------------------------

  /** Every `Nested` level is non-empty: an empty `Nested` serialises to
      `[]`, which parses back as an empty `Indices`. */
  predicate NoEmptyNested<T>(b: NestedArray<T>)
    decreases b
  {
    match b
    case Indices(_) => true
    case Nested(bs) => |bs| > 0 && forall i :: 0 <= i < |bs| ==> NoEmptyNested(bs[i])
  }

  /** Every leaf satisfies `ok`. */
  predicate AllLeaves<T>(b: NestedArray<T>, ok: T -> bool)
    decreases b
  {
    match b
    case Indices(xs) => forall i :: 0 <= i < |xs| ==> ok(xs[i])
    case Nested(bs) => forall i :: 0 <= i < |bs| ==> AllLeaves(bs[i], ok)
  }

  /** `to` and `from` are inverse on the leaves `ok` admits, and `to` never
      produces an array (so a leaf list is never mistaken for a level). */
  ghost predicate LeafCodec<T(!new)>(ok: T -> bool, to: T -> Json, from: Json -> Option<T>) {
    forall x: T :: ok(x) ==> from(to(x)) == Some(x) && !to(x).JArr?
  }

  lemma {:induction false} LeafValuesRoundTrip<T(!new)>(xs: seq<T>, ok: T -> bool, to: T -> Json, from: Json -> Option<T>)
    requires LeafCodec(ok, to, from)
    requires forall i :: 0 <= i < |xs| ==> ok(xs[i])
    ensures ParseLeaves(LeafValues(xs, to), from) == xs
    decreases |xs|
  {
    if |xs| > 0 {
      var vs := LeafValues(xs, to);
      assert vs[0] == to(xs[0]) && vs[1..] == LeafValues(xs[1..], to);
      LeafValuesRoundTrip(xs[1..], ok, to, from);
    }
  }

  /** Serialising then parsing gives back every nested array whose levels
      are non-empty and whose leaves the leaf codec round-trips. */
  lemma {:induction false} RoundTrip<T(!new)>(b: NestedArray<T>, ok: T -> bool, to: T -> Json, from: Json -> Option<T>)
    requires LeafCodec(ok, to, from)
    requires NoEmptyNested(b) && AllLeaves(b, ok)
    ensures Parse(ToValue(b, to), from) == b
    decreases b, 1
  {
    match b
    case Indices(xs) =>
      LeafValuesRoundTrip(xs, ok, to, from);
      if |xs| > 0 {
        assert LeafValues(xs, to)[0] == to(xs[0]);
      }
    case Nested(bs) =>
      RoundTripAll(bs, ok, to, from);
      assert ToValues(bs, to)[0] == ToValue(bs[0], to);
  }

  lemma {:induction false} RoundTripAll<T(!new)>(bs: seq<NestedArray<T>>, ok: T -> bool, to: T -> Json, from: Json -> Option<T>)
    requires LeafCodec(ok, to, from)
    requires forall i :: 0 <= i < |bs| ==> NoEmptyNested(bs[i]) && AllLeaves(bs[i], ok)
    ensures ParseAll(ToValues(bs, to), from) == bs
    decreases bs, 0
  {
    if |bs| > 0 {
      var vs := ToValues(bs, to);
      assert vs[0] == ToValue(bs[0], to) && vs[1..] == ToValues(bs[1..], to);
      RoundTrip(bs[0], ok, to, from);
      RoundTripAll(bs[1..], ok, to, from);
    }
  }

  predicate IsU32(x: nat) {
    x < U32_LIMIT
  }

  predicate IsUsize(x: nat) {
    x < U64_LIMIT
  }

  /** Boundaries (`NestedArray<u32>`) round-trip through JSON. */
  lemma BoundariesRoundTrip(b: NestedArray<nat>)
    requires NoEmptyNested(b) && AllLeaves(b, IsU32)
    ensures Parse(ToValue(b, IndexToValue), FromU32) == b
  {
    assert LeafCodec(IsU32, IndexToValue, FromU32);
    RoundTrip(b, IsU32, IndexToValue, FromU32);
  }

  predicate IsOptU32(x: Option<nat>) {
    x.None? || x.value < U32_LIMIT
  }

  /** Semantic values (`NestedArray<Option<u32>>`) round-trip through JSON. */
  lemma SemanticsRoundTrip(b: NestedArray<Option<nat>>)
    requires NoEmptyNested(b) && AllLeaves(b, IsOptU32)
    ensures Parse(ToValue(b, OptIndexToValue), FromOptU32) == b
  {
    assert LeafCodec(IsOptU32, OptIndexToValue, FromOptU32);
    RoundTrip(b, IsOptU32, OptIndexToValue, FromOptU32);
  }

  /** Material and texture values (`NestedArray<Option<usize>>`) as the
      library serialises them do not round-trip: a single leaf `Some(3)`
      comes back one level deeper, and so does a `None`. */
  lemma OptUsizeSerialisationAddsLevel()
    ensures Parse(ToValue(Indices([Some(3)]), OptUsizeToValueAsWritten), FromOptUsize)
         == Nested([Indices([Some(3)])])
    ensures Parse(ToValue(Indices([None]), OptUsizeToValueAsWritten), FromOptUsize)
         == Nested([Indices([])])
  {
    var v := ToValue(Indices([Some(3)]), OptUsizeToValueAsWritten);
    assert v == JArr([JArr([JInt(3)])]);
    assert ParseAll(v.elems, FromOptUsize) == [Parse(JArr([JInt(3)]), FromOptUsize)];
    assert ParseLeaves([JInt(3)], FromOptUsize) == [Some(3)];
    var w := ToValue(Indices([None]), OptUsizeToValueAsWritten);
    assert w == JArr([JArr([])]);
    assert ParseAll(w.elems, FromOptUsize) == [Parse(JArr([]), FromOptUsize)];
  }

  /** `Option<usize>::to_value` as evidently intended, mirroring
      `Option<u32>`: the number, or `null`. */
  function OptUsizeToValue(x: Option<nat>): Json {
    match x
    case Some(v) => JInt(v)
    case None => JNull
  }

  predicate IsOptUsize(x: Option<nat>) {
    x.None? || x.value < U64_LIMIT
  }

  /** With the intended leaf form, material and texture values round-trip. */
  lemma OptUsizeRoundTrip(b: NestedArray<Option<nat>>)
    requires NoEmptyNested(b) && AllLeaves(b, IsOptUsize)
    ensures Parse(ToValue(b, OptUsizeToValue), FromOptUsize) == b
  {
    assert LeafCodec(IsOptUsize, OptUsizeToValue, FromOptUsize);
    RoundTrip(b, IsOptUsize, OptUsizeToValue, FromOptUsize);
  }

  // ---------------------------------------------------------------------
  // Nesting depth
  // ---------------------------------------------------------------------

  /** `b` has uniform depth `d`: `d` levels of `Nested` above every leaf list. */
  predicate HasDepth<T>(b: NestedArray<T>, d: nat)
    decreases b
  {
    if d == 0 then b.Indices?
    else b.Nested? && forall i :: 0 <= i < |b.subs| ==> HasDepth(b.subs[i], d - 1)
  }

  /** A JSON array of uniform depth `d`: at depth 0 no element is an array;
      above it the array is non-empty and every element has depth `d - 1`. */
  predicate JsonDepth(v: Json, d: nat)
    decreases v
  {
    v.JArr? &&
    if d == 0 then forall e :: e in v.elems ==> !e.JArr?
    else |v.elems| > 0 && forall e :: e in v.elems ==> JsonDepth(e, d - 1)
  }

  /** Parsing keeps the depth of a uniformly nested JSON array. */
  lemma {:induction false} ParseKeepsDepth<T>(v: Json, d: nat, from: Json -> Option<T>)
    requires JsonDepth(v, d)
    ensures HasDepth(Parse(v, from), d)
    decreases v, 1
  {
    if d > 0 {
      assert v.elems[0] in v.elems;
      ParseAllKeepsDepth(v.elems, d - 1, from);
    }
  }

  lemma {:induction false} ParseAllKeepsDepth<T>(elems: seq<Json>, d: nat, from: Json -> Option<T>)
    requires forall e :: e in elems ==> JsonDepth(e, d)
    ensures forall i :: 0 <= i < |elems| ==> HasDepth(ParseAll(elems, from)[i], d)
    decreases elems, 0
  {
    if |elems| > 0 {
      ParseKeepsDepth(elems[0], d, from);
      ParseAllKeepsDepth(elems[1..], d, from);
      assert ParseAll(elems, from) == [Parse(elems[0], from)] + ParseAll(elems[1..], from);
    }
  }

  /** A length-keeping walk keeps the uniform depth. */
  lemma WalkKeepsDepth<T, S>(b: NestedArray<T>, s: S, step: (seq<T>, S) -> (seq<T>, S), d: nat)
    requires HasDepth(b, d)
    ensures HasDepth(Walk(b, s, step).0, d)
    decreases b, 1
  {
    if d > 0 {
      WalkAllKeepsDepth(b.subs, s, step, d - 1);
    }
  }

  lemma WalkAllKeepsDepth<T, S>(bs: seq<NestedArray<T>>, s: S, step: (seq<T>, S) -> (seq<T>, S), d: nat)
    requires forall i :: 0 <= i < |bs| ==> HasDepth(bs[i], d)
    ensures forall i :: 0 <= i < |bs| ==> HasDepth(WalkAll(bs, s, step).0[i], d)
    decreases bs, 0
  {
    if |bs| > 0 {
      var p := Walk(bs[0], s, step);
      WalkKeepsDepth(bs[0], s, step, d);
      WalkAllKeepsDepth(bs[1..], p.1, step, d);
      assert WalkAll(bs, s, step).0 == [p.0] + WalkAll(bs[1..], p.1, step).0;
    }
  }
}
