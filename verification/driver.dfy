/** The command-line subcommands built on the library: `cat` (CityJSON to
    CityJSONSeq), `collect` (CityJSONSeq to CityJSON) and the four
    `filter` subcommands. A stream of lines is a sequence of already parsed
    lines; what a command writes is the sequence of lines it emits before
    it stops, with the error that stopped it, if any. */
module Driver {
  import opened Wrappers
  import opened CityObjects
  import opened Documents
  import opened Sequences
  import opened Strings
  import opened NestedArrays
  import opened ObjectRemap
  import opened Appearances
  import opened FeatureOrder
  import opened Split
  import opened Merge
  import opened MergeAppearance
  import opened MergeUvs
  import opened VertexCleanup

  /** What a command writes: the lines emitted, in order, and the error
      that ended it early (`None` when it read its input to the end). */
  datatype Written<L, E> = Written(lines: seq<L>, error: Option<E>)

  // ---------------------------------------------------------------------
  // cat
  // ---------------------------------------------------------------------

  datatype CatError = NotCityJSON | UnsupportedVersion | Unsorted(sort: SortError) | SplitFailed(split: SplitError)

  /** A line of CityJSONSeq: the first holds the document without its
      objects, each other one a feature. */
  datatype SeqLine = MetadataLine(doc: CityJSON) | FeatureLine(feature: CityJSONFeature)

  predicate SupportedVersion(v: string) {
    v == "1.1" || v == "2.0"
  }

  /** The `while let Some(cjf) = get_cjfeature(i)` loop from `i` on, for
      a `get` that answers `None` from `bound` on: it stops at the first
      `None`; a panic inside `get` stops it with an error. */
  function Emit<T, E>(get: nat -> Result<Option<T>, E>, i: nat, bound: nat): (r: Written<T, E>)
    requires forall j: nat :: bound <= j ==> get(j) == Success(None)
    decreases bound - i
  {
    match get(i)
    case Failure(e) => Written([], Some(e))
    case Success(None) => Written([], None)
    case Success(Some(x)) =>
      var rest := Emit(get, i + 1, bound);
      Written([x] + rest.lines, rest.error)
  }

  /** Item `k` of the loop is what `get(i + k)` returns; the loop ends
      where `get` first returns `None` or fails. */
  lemma {:induction false} EmitSpec<T, E>(get: nat -> Result<Option<T>, E>, i: nat, bound: nat)
    requires forall j: nat :: bound <= j ==> get(j) == Success(None)
    ensures var r := Emit(get, i, bound);
      && (forall k :: 0 <= k < |r.lines| ==> get(i + k) == Success(Some(r.lines[k])))
      && (r.error.None? ==> get(i + |r.lines|) == Success(None))
      && (r.error.Some? ==> get(i + |r.lines|) == Failure(r.error.value))
    decreases bound - i
  {
    if get(i).Success? && get(i).value.Some? {
      EmitSpec(get, i + 1, bound);
      var r := Emit(get, i, bound);
      var rest := Emit(get, i + 1, bound);
      forall k | 1 <= k < |r.lines| ensures get(i + k) == Success(Some(r.lines[k])) {
        assert r.lines[k] == rest.lines[k - 1];
      }
    }
  }

  /** The loop's lines are what `get` returned from `0` on, and a loop
      ending without error ends where `get` returned `None`. */
  ghost predicate EmittedBy<T, E>(get: nat -> Result<Option<T>, E>, r: Written<T, E>) {
    && (forall k :: 0 <= k < |r.lines| ==> get(k) == Success(Some(r.lines[k])))
    && (r.error.None? ==> get(|r.lines|) == Success(None))
  }

  lemma EmitFromStart<T, E>(get: nat -> Result<Option<T>, E>, bound: nat)
    requires forall j: nat :: bound <= j ==> get(j) == Success(None)
    ensures EmittedBy(get, Emit(get, 0, bound))
  {
    EmitSpec(get, 0, bound);
    var r := Emit(get, 0, bound);
    forall k | 0 <= k < |r.lines| ensures get(k) == Success(Some(r.lines[k])) {
      assert get(0 + k) == Success(Some(r.lines[k]));
    }
    if r.error.None? {
      assert get(0 + |r.lines|) == Success(None);
    }
  }

  /** `get_cjfeature` answers `None` past the feature order. */
  lemma GetCJFeatureEnds(doc: CityJSON)
    ensures forall j: nat :: |doc.sortedIds| <= j ==> GetCJFeature(doc, j) == Success(None)
  {
  }

  /** `get_cjfeature` on `doc`, as the loop's source of lines. */
  function FeatureSource(doc: CityJSON): nat -> Result<Option<CityJSONFeature>, SplitError> {
    (j: nat) => GetCJFeature(doc, j)
  }

  /** The features `cat` writes after the metadata line. */
  function EmitFeatures(doc: CityJSON): (r: Written<CityJSONFeature, SplitError>)
  {
    GetCJFeatureEnds(doc);
    Emit(FeatureSource(doc), 0, |doc.sortedIds|)
  }

  function FeatureLines(fs: seq<CityJSONFeature>): (r: seq<SeqLine>)
    ensures |r| == |fs|
    ensures forall j :: 0 <= j < |r| ==> r[j] == FeatureLine(fs[j])
  {
    seq(|fs|, j requires 0 <= j < |fs| => FeatureLine(fs[j]))
  }

  /** `cat`: the type and version are checked before anything is written;
      then the features are ordered, the metadata line is written (by
      `get_metadata` as written, so its templates are the original ones)
      and the features follow, one per line. */
  function Cat(doc: CityJSON, ss: SortingStrategy, order: seq<string>): (r: Written<SeqLine, CatError>)
    requires IsOrderOf(order, doc.cityObjects)
    ensures doc.thetype != "CityJSON" || !SupportedVersion(doc.version) ==> r.lines == [] && r.error.Some?
    ensures ss.Morton? || ss.Hilbert? ==> r.lines == [] && r.error.Some?
    ensures r.lines != [] ==> r.lines[0].MetadataLine? && forall j :: 1 <= j < |r.lines| ==> r.lines[j].FeatureLine?
  {
    if doc.thetype != "CityJSON" then Written([], Some(NotCityJSON))
    else if !SupportedVersion(doc.version) then Written([], Some(UnsupportedVersion))
    else
      match SortCJFeatures(doc, ss, order)
      case Failure(e) => Written([], Some(Unsorted(e)))
      case Success(sorted) =>
        match GetMetadata(sorted)
        case Failure(e) => Written([], Some(SplitFailed(e)))
        case Success(m) =>
          var fs := EmitFeatures(sorted);
          Written([MetadataLine(m)] + FeatureLines(fs.lines),
                  if fs.error.Some? then Some(SplitFailed(fs.error.value)) else None)
  }

  /** A valid document with a supported order is written whole. The first
      line is the document without objects, vertices or feature order,
      its templates the input's own, and its appearance, present exactly
      when the document has both templates and an appearance, what the
      templates reference re-indexed through the template tables; nothing
      is written when that slicing fails. Unless a child is missing, the
      following lines are one feature per top-level object, each exactly
      once, in the chosen order (ascending for `Alphabetical`). */
  lemma CatSpec(doc: CityJSON, ss: SortingStrategy, order: seq<string>)
    requires IsOrderOf(order, doc.cityObjects)
    requires doc.thetype == "CityJSON" && SupportedVersion(doc.version)
    requires ss.Random? || ss.Alphabetical?
    ensures var r := Cat(doc, ss, order);
      r.lines != [] ==>
        && r.lines[0].doc == doc.(cityObjects := map[], vertices := [], appearance := r.lines[0].doc.appearance, sortedIds := [])
        && (r.lines[0].doc.appearance.Some? <==> doc.geometryTemplates.Some? && doc.appearance.Some?)
    ensures var r := Cat(doc, ss, order);
      r.lines != [] && r.lines[0].doc.appearance.Some? ==>
        && doc.geometryTemplates.Some? && doc.appearance.Some?
        && AppearanceSliced(doc.appearance.value, r.lines[0].doc.appearance.value,
                            RemapTemplates(doc.geometryTemplates.value.templates, EmptyTables).1)
    ensures var r := Cat(doc, ss, order);
      var ids := SortCJFeatures(doc, ss, order).value.sortedIds;
      r.lines != [] && r.error.None? ==>
        && |r.lines| == 1 + |ids|
        && (forall j :: 1 <= j < |r.lines| ==> r.lines[j].feature.id == ids[j - 1])
        && Distinct(ids)
        && (forall k :: k in ids <==> k in doc.cityObjects && IsToplevel(doc.cityObjects[k]))
        && (ss.Alphabetical? ==> Sorted(ids))
    ensures (Cat(doc, ss, order).lines == []) == GetMetadata(doc).Failure?
    ensures doc.geometryTemplates.None? || doc.appearance.None? ==> Cat(doc, ss, order).lines != []
  {
    SortCJFeaturesSpec(doc, ss, order);
    var sorted := SortCJFeatures(doc, ss, order).value;
    var ids := sorted.sortedIds;
    var r := Cat(doc, ss, order);
    CatUnfold(doc, ss, order);
    MetadataIgnoresOrder(doc, sorted);
    if GetMetadata(sorted).Success? {
      if GetMetadata(sorted).value.appearance.Some? {
        GetMetadataSpec(sorted);
      }
      var fs := EmitFeatures(sorted);
      forall i | 0 <= i < |ids| ensures ids[i] in sorted.cityObjects {
        assert ids[i] in ids;
      }
      EmitFeaturesIds(sorted);
      forall j | 1 <= j < |r.lines| ensures r.lines[j].feature.id == ids[j - 1] {
        assert r.lines[j] == FeatureLine(fs.lines[j - 1]);
      }
    }
  }

  /** `get_metadata` does not read the feature order. */
  lemma MetadataIgnoresOrder(doc: CityJSON, sorted: CityJSON)
    requires sorted == doc.(sortedIds := sorted.sortedIds)
    ensures GetMetadata(sorted) == GetMetadata(doc)
  {
  }

  /** `cat` past its checks: the metadata line, then the features. */
  lemma CatUnfold(doc: CityJSON, ss: SortingStrategy, order: seq<string>)
    requires IsOrderOf(order, doc.cityObjects)
    requires doc.thetype == "CityJSON" && SupportedVersion(doc.version)
    requires ss.Random? || ss.Alphabetical?
    ensures var sorted := SortCJFeatures(doc, ss, order).value;
      var r := Cat(doc, ss, order);
      && (GetMetadata(sorted).Failure? ==> r.lines == [])
      && (GetMetadata(sorted).Success? ==>
            && r.lines == [MetadataLine(GetMetadata(sorted).value)] + FeatureLines(EmitFeatures(sorted).lines)
            && (r.error.None? <==> EmitFeatures(sorted).error.None?))
  {
  }

  /** When every id of the feature order names an object, the loop writes
      the features in that order, and all of them unless a child is
      missing. */
  lemma EmitFeaturesIds(doc: CityJSON)
    requires forall i :: 0 <= i < |doc.sortedIds| ==> doc.sortedIds[i] in doc.cityObjects
    ensures var r := EmitFeatures(doc);
      && |r.lines| <= |doc.sortedIds|
      && (forall k :: 0 <= k < |r.lines| ==> r.lines[k].id == doc.sortedIds[k])
      && (r.error.None? ==> |r.lines| == |doc.sortedIds|)
  {
    var ids := doc.sortedIds;
    var get := FeatureSource(doc);
    GetCJFeatureEnds(doc);
    EmitFromStart(get, |ids|);
    var r := EmitFeatures(doc);
    forall k | 0 <= k < |r.lines| ensures k < |ids| && r.lines[k].id == ids[k] {
      assert get(k) == GetCJFeature(doc, k);
    }
    if |r.lines| > 0 {
      assert get(|r.lines| - 1) == GetCJFeature(doc, |r.lines| - 1);
    }
  }

  // ---------------------------------------------------------------------
  // filter
  // ---------------------------------------------------------------------

  /** A line of the input stream as the filters read it: the first line is
      read as a document, the others as features; a line of neither kind
      stops the filter that parses it. */
  datatype InputLine = HeaderLine(doc: CityJSON) | FeatureInput(feature: CityJSONFeature) | Unparsable

  /** `UnreadableLine` is a parse error; `MissingObject` the panic of
      `city_objects[&cjf.id]`; `TransformTooShort` the panic of indexing a
      transform with fewer than two entries. */
  datatype FilterError = UnreadableLine | MissingObject | TransformTooShort

  /** Whether feature line `i` is selected, or the error it raises. */
  type Selector = (nat, InputLine) -> Result<bool, FilterError>

  /** Whether a selected or unselected line is written:
      `(w && !exclude) || (!w && exclude)`. */
  predicate Keep(w: bool, exclude: bool) {
    w != exclude
  }

  /** The loop over lines `i` onwards. */
  function FilterFrom(ls: seq<InputLine>, i: nat, sel: Selector, exclude: bool): (r: Written<InputLine, FilterError>)
    decreases |ls| - i
  {
    if i >= |ls| then Written([], None)
    else
      match sel(i, ls[i])
      case Failure(e) => Written([], Some(e))
      case Success(w) =>
        var rest := FilterFrom(ls, i + 1, sel, exclude);
        if Keep(w, exclude) then Written([ls[i]] + rest.lines, rest.error) else rest
  }

  /** The loop reads to the end exactly when no line raises an error, and
      every line it writes is a line of the input whose selection, xor
      `exclude`, holds. */
  lemma {:induction false} FilterFromSpec(ls: seq<InputLine>, i: nat, sel: Selector, exclude: bool)
    ensures var r := FilterFrom(ls, i, sel, exclude);
      r.error.None? <==> forall j :: i <= j < |ls| ==> sel(j, ls[j]).Success?
    ensures var r := FilterFrom(ls, i, sel, exclude);
      forall x :: x in r.lines ==> exists j :: i <= j < |ls| && ls[j] == x && sel(j, ls[j]) == Success(!exclude)
    decreases |ls| - i
  {
    if i < |ls| && sel(i, ls[i]).Success? {
      FilterFromSpec(ls, i + 1, sel, exclude);
    }
  }

  /** A line is written by the filter or by its negation, never both: the
      two outputs together are the input lines, and they stop alike. */
  lemma {:induction false} FilterFromComplement(ls: seq<InputLine>, i: nat, sel: Selector)
    requires i <= |ls|
    ensures var keep := FilterFrom(ls, i, sel, false);
      var drop := FilterFrom(ls, i, sel, true);
      && keep.error == drop.error
      && (keep.error.None? ==> multiset(keep.lines) + multiset(drop.lines) == multiset(ls[i..]))
    decreases |ls| - i
  {
    if i < |ls| && sel(i, ls[i]).Success? {
      FilterFromComplement(ls, i + 1, sel);
      assert ls[i..] == [ls[i]] + ls[i + 1..];
    }
  }

  /** Line 0 is written as it is; the rest go through the loop. */
  function FilterAfterHeader(ls: seq<InputLine>, sel: Selector, exclude: bool): (r: Written<InputLine, FilterError>)
    requires |ls| > 0
    ensures r.lines != [] && r.lines[0] == ls[0]
    ensures r.lines[1..] == FilterFrom(ls, 1, sel, exclude).lines
  {
    var rest := FilterFrom(ls, 1, sel, exclude);
    Written([ls[0]] + rest.lines, rest.error)
  }

  /** Filtering a stream and filtering it with `exclude` flipped split
      the feature lines between them. */
  lemma FilterComplement(ls: seq<InputLine>, sel: Selector)
    requires |ls| > 0
    ensures var keep := FilterAfterHeader(ls, sel, false);
      var drop := FilterAfterHeader(ls, sel, true);
      && keep.error == drop.error
      && (keep.error.None? ==> multiset(keep.lines[1..]) + multiset(drop.lines[1..]) == multiset(ls[1..]))
  {
    FilterFromComplement(ls, 1, sel);
  }

  /** A selection that first parses the line as a feature. */
  function ParsedFeature(l: InputLine): (r: Result<CityJSONFeature, FilterError>)
    ensures r.Success? <==> l.FeatureInput?
  {
    if l.FeatureInput? then Success(l.feature) else Failure(UnreadableLine)
  }

  // --- filter --random ---------------------------------------------------

  /** `filter_random`: line `i` is selected when its draw from `1..=factor`
      is 1. The draws are a parameter; the lines are not parsed. */
  function FilterRandom(ls: seq<InputLine>, exclude: bool, draws: seq<nat>): (r: Written<InputLine, FilterError>)
    requires |draws| == |ls|
    ensures |ls| > 0 ==> r.lines != [] && r.lines[0] == ls[0]
    ensures r.error.None?
  {
    if |ls| == 0 then Written([], None)
    else
      var sel := (i: nat, l: InputLine) => Success(i < |draws| && draws[i] == 1);
      FilterFromSpec(ls, 1, sel, exclude);
      FilterAfterHeader(ls, sel, exclude)
  }

  /** With a factor of 1 every draw is 1: every line is kept, or, with
      `exclude`, only line 0. */
  lemma {:induction false} FilterRandomFactorOne(ls: seq<InputLine>, draws: seq<nat>)
    requires |draws| == |ls| > 0
    requires forall i :: 0 <= i < |draws| ==> 1 <= draws[i] <= 1
    ensures FilterRandom(ls, false, draws).lines == ls
    ensures FilterRandom(ls, true, draws).lines == [ls[0]]
  {
    var sel := (i: nat, l: InputLine) => Success(i < |draws| && draws[i] == 1);
    AllSelected(ls, 1, sel);
  }

  lemma {:induction false} AllSelected(ls: seq<InputLine>, i: nat, sel: Selector)
    requires i <= |ls|
    requires forall j :: i <= j < |ls| ==> sel(j, ls[j]) == Success(true)
    ensures FilterFrom(ls, i, sel, false).lines == ls[i..]
    ensures FilterFrom(ls, i, sel, true).lines == []
    decreases |ls| - i
  {
    if i < |ls| {
      AllSelected(ls, i + 1, sel);
      assert ls[i..] == [ls[i]] + ls[i + 1..];
    }
  }

  // --- filter --cotype ---------------------------------------------------

  /** The type of the feature's own object; a feature without an object
      under its id panics. */
  function OfType(l: InputLine, cotype: string): (r: Result<bool, FilterError>)
    ensures r.Success? <==> l.FeatureInput? && l.feature.id in l.feature.cityObjects
    ensures r == Success(true) ==> l.feature.cityObjects[l.feature.id].thetype == cotype
  {
    match ParsedFeature(l)
    case Failure(e) => Failure(e)
    case Success(f) =>
      if f.id !in f.cityObjects then Failure(MissingObject)
      else Success(f.cityObjects[f.id].thetype == cotype)
  }

  /** `filter_cotype` */
  function FilterCotype(ls: seq<InputLine>, exclude: bool, cotype: string): (r: Written<InputLine, FilterError>)
    ensures |ls| > 0 ==> r.lines != [] && r.lines[0] == ls[0]
  {
    if |ls| == 0 then Written([], None)
    else FilterAfterHeader(ls, (i: nat, l: InputLine) => OfType(l, cotype), exclude)
  }

  /** Every feature line `filter --cotype` writes has an object of the
      wanted type under its id (without `exclude`) or of another type
      (with it). */
  lemma FilterCotypeSpec(ls: seq<InputLine>, exclude: bool, cotype: string)
    requires |ls| > 0
    ensures var r := FilterCotype(ls, exclude, cotype);
      forall x :: x in r.lines[1..] ==>
        && x.FeatureInput? && x.feature.id in x.feature.cityObjects
        && (x.feature.cityObjects[x.feature.id].thetype == cotype <==> !exclude)
  {
    var sel := (i: nat, l: InputLine) => OfType(l, cotype);
    FilterFromSpec(ls, 1, sel, exclude);
  }

  // --- filter --bbox and --radius ----------------------------------------

  /** `CityJSONFeature::centroid` on x and y, in file coordinates: the mean
      of the vertices. With no vertices the source divides by zero and
      compares NaN, which selects nothing; the model gives `None`. */
  function Centroid(vs: seq<Vertex>): (r: Option<(real, real)>)
    ensures r.Some? <==> |vs| > 0
  {
    if |vs| == 0 then None
    else Some((Sum(vs, 0) as real / |vs| as real, Sum(vs, 1) as real / |vs| as real))
  }

  function Sum(vs: seq<Vertex>, axis: nat): int
    requires axis < 3
    decreases |vs|
  {
    if |vs| == 0 then 0 else Coord(vs[0], axis) + Sum(vs[1..], axis)
  }

  lemma {:induction false} SumBounds(vs: seq<Vertex>, axis: nat, lo: int, hi: int)
    requires axis < 3
    requires forall i :: 0 <= i < |vs| ==> lo <= Coord(vs[i], axis) <= hi
    ensures lo * |vs| <= Sum(vs, axis) <= hi * |vs|
    decreases |vs|
  {
    if |vs| > 0 {
      SumBounds(vs[1..], axis, lo, hi);
    }
  }

  lemma MeanBounds(s: int, n: nat, lo: int, hi: int)
    requires n > 0 && lo * n <= s <= hi * n
    ensures lo as real <= s as real / n as real <= hi as real
  {
    assert (lo * n) as real == lo as real * n as real;
    assert (hi * n) as real == hi as real * n as real;
  }

  /** The centroid lies within the vertices' extent on each axis. */
  lemma CentroidWithin(vs: seq<Vertex>, lo: seq<int>, hi: seq<int>)
    requires |lo| == 2 && |hi| == 2 && |vs| > 0
    requires forall i, a :: 0 <= i < |vs| && 0 <= a < 2 ==> lo[a] <= Coord(vs[i], a) <= hi[a]
    ensures var c := Centroid(vs).value;
      lo[0] as real <= c.0 <= hi[0] as real && lo[1] as real <= c.1 <= hi[1] as real
  {
    SumBounds(vs, 0, lo[0], hi[0]);
    SumBounds(vs, 1, lo[1], hi[1]);
    MeanBounds(Sum(vs, 0), |vs|, lo[0], hi[0]);
    MeanBounds(Sum(vs, 1), |vs|, lo[1], hi[1]);
  }

  /** The centroid of a lone vertex is that vertex. */
  lemma CentroidOfOne(vs: seq<Vertex>)
    requires |vs| == 1
    ensures Centroid(vs) == Some((vs[0].x as real, vs[0].y as real))
  {
    assert vs[1..] == [];
    assert Sum(vs, 0) == vs[0].x && Sum(vs, 1) == vs[0].y;
  }

  /** The centroid in real-world coordinates, through the first line's
      transform; a transform with fewer than two entries panics. */
  function WorldCentroid(f: CityJSONFeature, tr: Transform): (r: Result<Option<(real, real)>, FilterError>)
    ensures r.Success? <==> |tr.scale| >= 2 && |tr.translate| >= 2
    ensures r.Success? ==> (r.value.Some? <==> |f.vertices| > 0)
  {
    if |tr.scale| < 2 || |tr.translate| < 2 then Failure(TransformTooShort)
    else match Centroid(f.vertices)
      case None => Success(None)
      case Some(c) => Success(Some((c.0 * tr.scale[0] + tr.translate[0], c.1 * tr.scale[1] + tr.translate[1])))
  }

  /** The bounding box of `--bbox minx miny maxx maxy`. */
  datatype Bbox = Bbox(minx: real, miny: real, maxx: real, maxy: real)

  /** Selected when the centroid lies strictly inside the box. */
  function InBbox(l: InputLine, tr: Transform, b: Bbox): (r: Result<bool, FilterError>)
    ensures r.Success? <==> l.FeatureInput? && |tr.scale| >= 2 && |tr.translate| >= 2
    ensures r == Success(true) <==>
      (&& l.FeatureInput? && WorldCentroid(l.feature, tr).Success?
       && WorldCentroid(l.feature, tr).value.Some?
       && var c := WorldCentroid(l.feature, tr).value.value;
          b.minx < c.0 < b.maxx && b.miny < c.1 < b.maxy)
  {
    match ParsedFeature(l)
    case Failure(e) => Failure(e)
    case Success(f) =>
      match WorldCentroid(f, tr)
      case Failure(e) => Failure(e)
      case Success(None) => Success(false)
      case Success(Some(c)) => Success(b.minx < c.0 < b.maxx && b.miny < c.1 < b.maxy)
  }

  /** Selected when the centroid lies within distance `r` of `(x, y)`. */
  datatype Circle = Circle(x: real, y: real, r: real)

  function InCircle(l: InputLine, tr: Transform, c: Circle): (r: Result<bool, FilterError>)
    ensures r.Success? <==> l.FeatureInput? && |tr.scale| >= 2 && |tr.translate| >= 2
    ensures r == Success(true) <==>
      (&& l.FeatureInput? && WorldCentroid(l.feature, tr).Success?
       && WorldCentroid(l.feature, tr).value.Some?
       && var p := WorldCentroid(l.feature, tr).value.value;
          (p.0 - c.x) * (p.0 - c.x) + (p.1 - c.y) * (p.1 - c.y) <= c.r * c.r)
  {
    match ParsedFeature(l)
    case Failure(e) => Failure(e)
    case Success(f) =>
      match WorldCentroid(f, tr)
      case Failure(e) => Failure(e)
      case Success(None) => Success(false)
      case Success(Some(p)) => Success((p.0 - c.x) * (p.0 - c.x) + (p.1 - c.y) * (p.1 - c.y) <= c.r * c.r)
  }

  /** `filter_bbox`: line 0 is written, then read as the document whose
      transform places the features. */
  function FilterBbox(ls: seq<InputLine>, exclude: bool, b: Bbox): (r: Written<InputLine, FilterError>)
    ensures |ls| > 0 ==> r.lines != [] && r.lines[0] == ls[0]
    ensures |ls| > 0 && !ls[0].HeaderLine? ==> r == Written([ls[0]], Some(UnreadableLine))
  {
    if |ls| == 0 then Written([], None)
    else if !ls[0].HeaderLine? then Written([ls[0]], Some(UnreadableLine))
    else
      var tr := ls[0].doc.transform;
      FilterAfterHeader(ls, (i: nat, l: InputLine) => InBbox(l, tr, b), exclude)
  }

  /** `filter_radius` */
  function FilterRadius(ls: seq<InputLine>, exclude: bool, c: Circle): (r: Written<InputLine, FilterError>)
    ensures |ls| > 0 ==> r.lines != [] && r.lines[0] == ls[0]
    ensures |ls| > 0 && !ls[0].HeaderLine? ==> r == Written([ls[0]], Some(UnreadableLine))
  {
    if |ls| == 0 then Written([], None)
    else if !ls[0].HeaderLine? then Written([ls[0]], Some(UnreadableLine))
    else
      var tr := ls[0].doc.transform;
      FilterAfterHeader(ls, (i: nat, l: InputLine) => InCircle(l, tr, c), exclude)
  }

  /** Without `exclude`, every feature `filter --bbox` writes has its
      centroid strictly inside the box; with it, none has. */
  lemma FilterBboxSpec(ls: seq<InputLine>, exclude: bool, b: Bbox)
    requires |ls| > 0 && ls[0].HeaderLine?
    ensures var r := FilterBbox(ls, exclude, b);
      var tr := ls[0].doc.transform;
      forall x :: x in r.lines[1..] ==> x.FeatureInput? && (InBbox(x, tr, b) == Success(true) <==> !exclude)
  {
    var tr := ls[0].doc.transform;
    FilterFromSpec(ls, 1, (i: nat, l: InputLine) => InBbox(l, tr, b), exclude);
  }

  /** Without `exclude`, every feature `filter --radius` writes has its
      centroid within the circle; with it, none has. */
  lemma FilterRadiusSpec(ls: seq<InputLine>, exclude: bool, c: Circle)
    requires |ls| > 0 && ls[0].HeaderLine?
    ensures var r := FilterRadius(ls, exclude, c);
      var tr := ls[0].doc.transform;
      forall x :: x in r.lines[1..] ==> x.FeatureInput? && (InCircle(x, tr, c) == Success(true) <==> !exclude)
  {
    var tr := ls[0].doc.transform;
    FilterFromSpec(ls, 1, (i: nat, l: InputLine) => InCircle(l, tr, c), exclude);
  }

  // ---------------------------------------------------------------------
  // collect
  // ---------------------------------------------------------------------

  datatype CollectError = BadAppearance(appearance: AppearanceError) | BadTransform(transform: TransformError)

  /** The keys of `extra` not yet in `order`, appended in `extra`'s order:
      the order in which the merged map is walked after the insertions. */
  function AddKeys(order: seq<string>, extra: seq<string>): (r: seq<string>)
    decreases |extra|
  {
    if |extra| == 0 then order
    else if extra[0] in order then AddKeys(order, extra[1..])
    else AddKeys(order + [extra[0]], extra[1..])
  }

  lemma {:induction false} AddKeysSpec(order: seq<string>, extra: seq<string>)
    requires Distinct(order)
    ensures Distinct(AddKeys(order, extra))
    ensures forall k :: k in AddKeys(order, extra) <==> k in order || k in extra
    decreases |extra|
  {
    if |extra| > 0 {
      var next := if extra[0] in order then order else order + [extra[0]];
      assert Distinct(next);
      AddKeysSpec(next, extra[1..]);
      assert forall k :: k in extra <==> k == extra[0] || k in extra[1..] by {
        assert extra == [extra[0]] + extra[1..];
      }
    }
  }

  /** Appending the new keys of a second map's order to a first map's
      order gives an order of their union. */
  lemma MergedOrder(order: seq<string>, extra: seq<string>, m1: map<string, CityObject>, m2: map<string, CityObject>,
                    m: map<string, CityObject>)
    requires IsOrderOf(order, m1) && IsOrderOf(extra, m2)
    requires forall k :: k in m <==> k in m1 || k in m2
    ensures IsOrderOf(AddKeys(order, extra), m)
  {
    AddKeysSpec(order, extra);
    var o := AddKeys(order, extra);
    forall i | 0 <= i < |o| ensures o[i] in m {
      assert o[i] in o;
    }
  }

  /** What `add_cjfeature` does to a document's vertices, feature order,
      keys and transform. */
  lemma AddCJFeatureMerges(doc: CityJSON, f: CityJSONFeature, order: seq<string>)
    requires IsOrderOf(order, f.cityObjects)
    requires AppearanceInsertable(f.appearance)
    ensures var d := AddCJFeature(doc, f, order).value;
      && d.vertices == doc.vertices + f.vertices
      && d.sortedIds == doc.sortedIds + [f.id]
      && (forall k :: k in d.cityObjects <==> k in doc.cityObjects || k in f.cityObjects)
      && d.transform == doc.transform
  {
    ImportAppearanceSucceeds(doc.appearance, f.appearance);
    var p := ImportAppearance(doc.appearance, f.appearance).value;
    MergeWithShape(doc, f, order, p.appearance, Tables(map[], p.materials, TexTables(p.textures, map[])), p.uvOffset);
  }

  /** The features' vertices, one after the other. */
  function AllVertices(fs: seq<CityJSONFeature>): (r: seq<Vertex>)
    decreases |fs|
  {
    if |fs| == 0 then [] else fs[0].vertices + AllVertices(fs[1..])
  }

  /** The features' ids, in order. */
  function Ids(fs: seq<CityJSONFeature>): (r: seq<string>)
    ensures |r| == |fs| && forall i :: 0 <= i < |fs| ==> r[i] == fs[i].id
  {
    seq(|fs|, i requires 0 <= i < |fs| => fs[i].id)
  }

  /** The keys of all the features' objects. */
  function AllKeys(fs: seq<CityJSONFeature>): (r: set<string>)
    decreases |fs|
  {
    if |fs| == 0 then {} else fs[0].cityObjects.Keys + AllKeys(fs[1..])
  }

  predicate OrdersOf(orders: seq<seq<string>>, fs: seq<CityJSONFeature>) {
    |orders| == |fs| && forall i :: 0 <= i < |fs| ==> IsOrderOf(orders[i], fs[i].cityObjects)
  }

  predicate AllInsertable(fs: seq<CityJSONFeature>) {
    forall i :: 0 <= i < |fs| ==> AppearanceInsertable(fs[i].appearance)
  }

  /** The loop of `collect` over the feature lines, each merged with
      `add_cjfeature`; `orders[i]` is the order of feature `i`'s
      objects. Also returns the order of the merged objects. */
  function CollectFeatures(doc: CityJSON, order: seq<string>, fs: seq<CityJSONFeature>, orders: seq<seq<string>>)
    : (r: Result<(CityJSON, seq<string>), AppearanceError>)
    requires IsOrderOf(order, doc.cityObjects)
    requires OrdersOf(orders, fs)
    ensures r.Success? ==> IsOrderOf(r.value.1, r.value.0.cityObjects)
    decreases |fs|
  {
    if |fs| == 0 then Success((doc, order))
    else
      match AddCJFeature(doc, fs[0], orders[0])
      case Failure(e) => Failure(e)
      case Success(d) =>
        AddCJFeatureMerges(doc, fs[0], orders[0]);
        MergedOrder(order, orders[0], doc.cityObjects, fs[0].cityObjects, d.cityObjects);
        OrdersOfTail(orders, fs);
        CollectFeatures(d, AddKeys(order, orders[0]), fs[1..], orders[1..])
  }

  /** The loop succeeds exactly when every feature's appearance can be
      inserted; the result holds the document's vertices then every
      feature's, the document's feature order then the feature ids, the
      keys of all, and the document's transform. */
  lemma {:induction false} CollectFeaturesSpec(doc: CityJSON, order: seq<string>, fs: seq<CityJSONFeature>, orders: seq<seq<string>>)
    requires IsOrderOf(order, doc.cityObjects)
    requires OrdersOf(orders, fs)
    ensures CollectFeatures(doc, order, fs, orders).Success? <==> AllInsertable(fs)
    ensures var r := CollectFeatures(doc, order, fs, orders);
      r.Success? ==> Collected(doc, fs, r.value.0)
    decreases |fs|
  {
    if |fs| > 0 {
      AllInsertableCons(fs);
      if AppearanceInsertable(fs[0].appearance) {
        CollectFeaturesStep(doc, order, fs, orders);
        var d := AddCJFeature(doc, fs[0], orders[0]).value;
        var order' := AddKeys(order, orders[0]);
        CollectFeaturesSpec(d, order', fs[1..], orders[1..]);
        var r := CollectFeatures(doc, order, fs, orders);
        if r.Success? {
          CollectedCons(doc, d, fs, r.value.0);
        }
      }
    }
  }

  /** `c` holds the vertices of `doc` then of every feature, the feature
      order of `doc` then the feature ids, the keys of all, and the
      transform of `doc`. */
  ghost predicate Collected(doc: CityJSON, fs: seq<CityJSONFeature>, c: CityJSON) {
    && c.vertices == doc.vertices + AllVertices(fs)
    && c.sortedIds == doc.sortedIds + Ids(fs)
    && c.cityObjects.Keys == doc.cityObjects.Keys + AllKeys(fs)
    && c.transform == doc.transform
  }

  /** The induction step of `CollectFeaturesSpec`: `d` is `doc` with the
      first feature merged, `c` is `d` with the rest. */
  lemma CollectedCons(doc: CityJSON, d: CityJSON, fs: seq<CityJSONFeature>, c: CityJSON)
    requires |fs| > 0
    requires d.vertices == doc.vertices + fs[0].vertices
    requires d.sortedIds == doc.sortedIds + [fs[0].id]
    requires d.cityObjects.Keys == doc.cityObjects.Keys + fs[0].cityObjects.Keys
    requires d.transform == doc.transform
    requires Collected(d, fs[1..], c)
    ensures Collected(doc, fs, c)
  {
    AllVerticesCons(fs);
    AppendAssoc(doc.vertices, fs[0].vertices, AllVertices(fs[1..]));
    AppendAssoc(doc.sortedIds, [fs[0].id], Ids(fs[1..]));
    assert Ids(fs) == [fs[0].id] + Ids(fs[1..]);
    assert AllKeys(fs) == fs[0].cityObjects.Keys + AllKeys(fs[1..]);
  }

  lemma AppendAssoc<T>(a: seq<T>, b: seq<T>, c: seq<T>)
    ensures (a + b) + c == a + (b + c)
  {
  }

  lemma AllVerticesCons(fs: seq<CityJSONFeature>)
    requires |fs| > 0
    ensures AllVertices(fs) == fs[0].vertices + AllVertices(fs[1..])
  {
  }

  /** One turn of the loop: the first feature is merged and the loop goes
      on with the rest. */
  lemma CollectFeaturesStep(doc: CityJSON, order: seq<string>, fs: seq<CityJSONFeature>, orders: seq<seq<string>>)
    requires IsOrderOf(order, doc.cityObjects)
    requires OrdersOf(orders, fs)
    requires |fs| > 0 && AppearanceInsertable(fs[0].appearance)
    ensures var d := AddCJFeature(doc, fs[0], orders[0]).value;
      && d.vertices == doc.vertices + fs[0].vertices
      && d.sortedIds == doc.sortedIds + [fs[0].id]
      && d.cityObjects.Keys == doc.cityObjects.Keys + fs[0].cityObjects.Keys
      && d.transform == doc.transform
      && IsOrderOf(AddKeys(order, orders[0]), d.cityObjects)
      && OrdersOf(orders[1..], fs[1..])
      && CollectFeatures(doc, order, fs, orders) == CollectFeatures(d, AddKeys(order, orders[0]), fs[1..], orders[1..])
  {
    AddCJFeatureMerges(doc, fs[0], orders[0]);
    var d := AddCJFeature(doc, fs[0], orders[0]).value;
    MergedOrder(order, orders[0], doc.cityObjects, fs[0].cityObjects, d.cityObjects);
    OrdersOfTail(orders, fs);
  }

  lemma OrdersOfTail(orders: seq<seq<string>>, fs: seq<CityJSONFeature>)
    requires OrdersOf(orders, fs) && |fs| > 0
    ensures OrdersOf(orders[1..], fs[1..])
  {
    forall i | 0 <= i < |fs[1..]| ensures IsOrderOf(orders[1..][i], fs[1..][i].cityObjects) {
      assert orders[1..][i] == orders[i + 1] && fs[1..][i] == fs[i + 1];
    }
  }

  lemma AllInsertableCons(fs: seq<CityJSONFeature>)
    requires |fs| > 0
    ensures AllInsertable(fs) <==> AppearanceInsertable(fs[0].appearance) && AllInsertable(fs[1..])
  {
    if AppearanceInsertable(fs[0].appearance) && AllInsertable(fs[1..]) {
      forall i | 0 <= i < |fs| ensures AppearanceInsertable(fs[i].appearance) {
        if i > 0 {
          assert fs[i] == fs[1..][i - 1];
        }
      }
    }
    if AllInsertable(fs) {
      forall i | 0 <= i < |fs[1..]| ensures AppearanceInsertable(fs[1..][i].appearance) {
        assert fs[1..][i] == fs[i + 1];
      }
    }
  }

  /** `collect`: line 0 is the document, the other lines its features;
      after the merges, duplicate vertices are removed and the origin
      moved to the minimum corner. */
  function Collect(header: CityJSON, order: seq<string>, fs: seq<CityJSONFeature>, orders: seq<seq<string>>)
    : (r: Result<CityJSON, CollectError>)
    requires IsOrderOf(order, header.cityObjects)
    requires OrdersOf(orders, fs)
  {
    match CollectFeatures(header, order, fs, orders)
    case Failure(e) => Failure(BadAppearance(e))
    case Success(p) =>
      var d := RemoveDuplicateVertices(p.0, p.1);
      match UpdateTransform(d)
      case Failure(e) => Failure(BadTransform(e))
      case Success(r) => Success(r)
  }

  /** Moving every vertex by the same amount keeps distinct vertices
      distinct. */
  lemma ShiftedDistinct(vs: seq<Vertex>, mins: seq<int>)
    requires |mins| == 3 && Distinct(vs)
    ensures Distinct(seq(|vs|, i requires 0 <= i < |vs| => Shifted(vs[i], mins)))
  {
    var ws := seq(|vs|, i requires 0 <= i < |vs| => Shifted(vs[i], mins));
    forall i, j | 0 <= i < j < |ws| ensures ws[i] != ws[j] {
      ShiftedInjective(vs[i], vs[j], mins);
    }
  }

  lemma ShiftedInjective(v: Vertex, w: Vertex, mins: seq<int>)
    requires |mins| == 3
    ensures Shifted(v, mins) == Shifted(w, mins) ==> v == w
  {
    var sv := Shifted(v, mins);
    var sw := Shifted(w, mins);
    assert v.x == Coord(sv, 0) + mins[0] && w.x == Coord(sw, 0) + mins[0];
    assert v.y == Coord(sv, 1) + mins[1] && w.y == Coord(sw, 1) + mins[1];
    assert v.z == Coord(sv, 2) + mins[2] && w.z == Coord(sw, 2) + mins[2];
  }

  /** `collect` succeeds exactly when every appearance can be inserted and
      the document's transform has three entries per axis. Its output holds
      the objects of the document and of every feature, the feature ids
      after the document's in arrival order, and no vertex twice, none
      with a negative coordinate, and no more vertices than the input
      lines held. */
  lemma CollectSpec(header: CityJSON, order: seq<string>, fs: seq<CityJSONFeature>, orders: seq<seq<string>>)
    requires IsOrderOf(order, header.cityObjects)
    requires OrdersOf(orders, fs)
    ensures Collect(header, order, fs, orders).Success? <==>
      AllInsertable(fs) && |header.transform.scale| >= 3 && |header.transform.translate| >= 3
    ensures var r := Collect(header, order, fs, orders);
      r.Success? ==>
        && r.value.cityObjects.Keys == header.cityObjects.Keys + AllKeys(fs)
        && r.value.sortedIds == header.sortedIds + Ids(fs)
        && Distinct(r.value.vertices)
        && |r.value.vertices| <= |header.vertices| + |AllVertices(fs)|
        && (forall i, a :: 0 <= i < |r.value.vertices| && 0 <= a < 3 ==> Coord(r.value.vertices[i], a) >= 0)
  {
    CollectFeaturesSpec(header, order, fs, orders);
    var c := CollectFeatures(header, order, fs, orders);
    if c.Success? {
      var p := c.value;
      var d := RemoveDuplicateVertices(p.0, p.1);
      assert d.transform == p.0.transform && d.sortedIds == p.0.sortedIds;
      if |d.transform.scale| >= 3 && |d.transform.translate| >= 3 {
        MovedOrigin(d);
      }
    }
  }

  /** After `update_transform` the objects and feature order are those of
      its input, distinct vertices stay distinct, and every coordinate is
      non-negative. */
  lemma MovedOrigin(d: CityJSON)
    requires |d.transform.scale| >= 3 && |d.transform.translate| >= 3
    ensures var r := UpdateTransform(d).value;
      && r.cityObjects == d.cityObjects && r.sortedIds == d.sortedIds
      && |r.vertices| == |d.vertices|
      && (Distinct(d.vertices) ==> Distinct(r.vertices))
      && (forall i, a :: 0 <= i < |r.vertices| && 0 <= a < 3 ==> Coord(r.vertices[i], a) >= 0)
  {
    var r := UpdateTransform(d).value;
    UpdateTransformShape(d);
    if Distinct(d.vertices) {
      ShiftedDistinct(d.vertices, Mins(d.vertices));
      assert r.vertices == seq(|d.vertices|, i requires 0 <= i < |d.vertices| => Shifted(d.vertices[i], Mins(d.vertices)));
    }
    forall i, a | 0 <= i < |r.vertices| && 0 <= a < 3 ensures Coord(r.vertices[i], a) >= 0 {
      UpdateTransformNonNegative(d, i, a);
    }
  }
}
