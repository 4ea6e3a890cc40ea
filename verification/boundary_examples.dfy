/** The boundary shapes of the geometric primitives of CityJSON 2.0.1
    ("semantics of geometric primitives"), parsed from their JSON form:
    the MultiPoint, MultiLineString, MultiSurface, Solid and CompositeSolid
    cases of the library's parsing tests. */
module BoundaryExamples {
  import opened Json
  import opened NestedArrays

  /** A JSON array of integers. */
  function Ints(xs: seq<int>): (r: Json)
    ensures r.JArr? && |r.elems| == |xs|
    ensures forall i :: 0 <= i < |xs| ==> r.elems[i] == JInt(xs[i])
  {
    JArr(seq(|xs|, i requires 0 <= i < |xs| => JInt(xs[i])))
  }

  /** A MultiPoint boundary is a flat list of vertex ids. */
  lemma MultiPointParses()
    ensures Parse(Ints([2, 44, 0, 7]), FromUsize) == Indices([2, 44, 0, 7])
    ensures HasDepth(Parse(Ints([2, 44, 0, 7]), FromUsize), 0)
  {
    IdsParse([2, 44, 0, 7]);
  }

  /** A MultiLineString boundary is a list of linestrings. */
  lemma MultiLineStringParses()
    ensures Parse(JArr([Ints([2, 3, 5]), Ints([77, 55, 212])]), FromUsize)
         == Nested([Indices([2, 3, 5]), Indices([77, 55, 212])])
  {
    IdsParse([2, 3, 5]);
    IdsParse([77, 55, 212]);
    var v := JArr([Ints([2, 3, 5]), Ints([77, 55, 212])]);
    assert ParseAll(v.elems, FromUsize)
        == [Parse(Ints([2, 3, 5]), FromUsize), Parse(Ints([77, 55, 212]), FromUsize)];
  }

  /** A MultiSurface boundary is a list of surfaces, each a list of rings. */
  lemma MultiSurfaceParses()
    ensures Parse(JArr([JArr([Ints([0, 3, 2, 1])]), JArr([Ints([4, 5, 6, 7])]), JArr([Ints([0, 1, 5, 4])])]), FromUsize)
         == Nested([Nested([Indices([0, 3, 2, 1])]), Nested([Indices([4, 5, 6, 7])]), Nested([Indices([0, 1, 5, 4])])])
  {
    var s1 := JArr([Ints([0, 3, 2, 1])]);
    var s2 := JArr([Ints([4, 5, 6, 7])]);
    var s3 := JArr([Ints([0, 1, 5, 4])]);
    OneRingSurfaceParses([0, 3, 2, 1]);
    OneRingSurfaceParses([4, 5, 6, 7]);
    OneRingSurfaceParses([0, 1, 5, 4]);
    ParseThree(s1, s2, s3);
  }

  /** A shell whose surfaces have one ring each, as JSON: `[[r0], [r1], ...]`. */
  function Shell(rings: seq<seq<int>>): (r: Json)
    ensures r.JArr? && |r.elems| == |rings|
  {
    JArr(seq(|rings|, i requires 0 <= i < |rings| => JArr([Ints(rings[i])])))
  }

  /** The same shell as the parser should build it. */
  function ShellTree(rings: seq<seq<int>>): (r: NestedArray<int>)
  {
    Nested(seq(|rings|, i requires 0 <= i < |rings| => Nested([Indices(rings[i])])))
  }

  /** Each ring is non-empty and holds ids the parser accepts. */
  predicate RingsInRange(rings: seq<seq<int>>) {
    forall i :: 0 <= i < |rings| ==> |rings[i]| > 0 && forall j :: 0 <= j < |rings[i]| ==> 0 <= rings[i][j] < U64_LIMIT
  }

  /** A shell of one-ring surfaces parses surface by surface. */
  lemma ShellParses(rings: seq<seq<int>>)
    requires |rings| > 0 && RingsInRange(rings)
    ensures Parse(Shell(rings), FromUsize) == ShellTree(rings)
  {
    var es := Shell(rings).elems;
    ParseAllAt(es);
    forall i | 0 <= i < |rings| ensures Parse(es[i], FromUsize) == Nested([Indices(rings[i])]) {
      OneRingSurfaceParses(rings[i]);
    }
  }

  /** Each parsed element is its own element parsed. */
  lemma {:induction false} ParseAllAt(es: seq<Json>)
    ensures forall i :: 0 <= i < |es| ==> ParseAll(es, FromUsize)[i] == Parse(es[i], FromUsize)
    decreases |es|
  {
    if |es| > 0 {
      ParseAllAt(es[1..]);
      forall i | 1 <= i < |es| ensures ParseAll(es, FromUsize)[i] == Parse(es[i], FromUsize) {
        assert es[1..][i - 1] == es[i];
      }
    }
  }

  /** Two arrays side by side parse one by one. */
  lemma ParseTwo(a: Json, b: Json)
    requires a.JArr?
    ensures Parse(JArr([a, b]), FromUsize) == Nested([Parse(a, FromUsize), Parse(b, FromUsize)])
  {
    ParseAllAt([a, b]);
  }

  /** One array alone parses to one child. */
  lemma ParseOne(a: Json)
    requires a.JArr?
    ensures Parse(JArr([a]), FromUsize) == Nested([Parse(a, FromUsize)])
  {
    ParseAllAt([a]);
  }

  const OuterShell: seq<seq<int>> := [[0, 3, 2, 1, 22], [4, 5, 6, 7], [0, 1, 5, 4], [1, 2, 6, 5]]
  const InnerShell: seq<seq<int>> := [[240, 243, 124], [244, 246, 724], [34, 414, 45], [111, 246, 5]]
  const SecondShell: seq<seq<int>> := [[666, 667, 668], [74, 75, 76], [880, 881, 885], [111, 122, 226]]

  /** A Solid boundary is a list of shells, each a list of surfaces. */
  lemma SolidParses()
    ensures Parse(JArr([Shell(OuterShell), Shell(InnerShell)]), FromUsize)
         == Nested([ShellTree(OuterShell), ShellTree(InnerShell)])
  {
    ShellParses(OuterShell);
    ShellParses(InnerShell);
    ParseTwo(Shell(OuterShell), Shell(InnerShell));
  }

  /** A CompositeSolid boundary is a list of solids. */
  lemma CompositeSolidParses()
    ensures Parse(JArr([JArr([Shell(OuterShell), Shell(InnerShell)]), JArr([Shell(SecondShell)])]), FromUsize)
         == Nested([Nested([ShellTree(OuterShell), ShellTree(InnerShell)]), Nested([ShellTree(SecondShell)])])
  {
    SolidParses();
    ShellParses(SecondShell);
    ParseOne(Shell(SecondShell));
    ParseTwo(JArr([Shell(OuterShell), Shell(InnerShell)]), JArr([Shell(SecondShell)]));
  }

  /** Three arrays side by side parse one by one. */
  lemma ParseThree(a: Json, b: Json, c: Json)
    requires a.JArr?
    ensures Parse(JArr([a, b, c]), FromUsize) == Nested([Parse(a, FromUsize), Parse(b, FromUsize), Parse(c, FromUsize)])
  {
    assert [a, b, c][1..] == [b, c] && [b, c][1..] == [c];
    assert ParseAll([c], FromUsize) == [Parse(c, FromUsize)];
    assert ParseAll([b, c], FromUsize) == [Parse(b, FromUsize), Parse(c, FromUsize)];
  }

  /** A surface of one ring parses to one level above the ring. */
  lemma OneRingSurfaceParses(xs: seq<int>)
    requires |xs| > 0 && forall i :: 0 <= i < |xs| ==> 0 <= xs[i] < U64_LIMIT
    ensures Parse(JArr([Ints(xs)]), FromUsize) == Nested([Indices(xs)])
  {
    IdsParse(xs);
    assert ParseAll([Ints(xs)], FromUsize) == [Parse(Ints(xs), FromUsize)];
  }

  /** A non-empty list of in-range ids parses to that list. */
  lemma {:induction false} IdsParse(xs: seq<int>)
    requires |xs| > 0 && forall i :: 0 <= i < |xs| ==> 0 <= xs[i] < U64_LIMIT
    ensures Parse(Ints(xs), FromUsize) == Indices(xs)
  {
    IdsParseLeaves(Ints(xs).elems, xs);
  }

  lemma {:induction false} IdsParseLeaves(es: seq<Json>, xs: seq<int>)
    requires |es| == |xs|
    requires forall i :: 0 <= i < |xs| ==> es[i] == JInt(xs[i]) && 0 <= xs[i] < U64_LIMIT
    ensures ParseLeaves(es, FromUsize) == xs
    decreases |xs|
  {
    if |xs| > 0 {
      IdsParseLeaves(es[1..], xs[1..]);
    }
  }
}
