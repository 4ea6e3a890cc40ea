/** Which city objects become features, and in which order: the top-level
    objects, listed by `sort_cjfeatures` into the document's `sortedIds`. */
module FeatureOrder {
  import opened Wrappers
  import opened Sequences
  import opened Strings
  import opened CityObjects
  import opened Documents

  datatype SortingStrategy = Random | Alphabetical | Morton | Hilbert

  /** The strategies that end in `todo!()`. */
  datatype SortError = NotImplemented

  /** The top-level keys of `cos`, in the order `order` lists them. */
  function ToplevelIds(cos: map<string, CityObject>, order: seq<string>): (r: seq<string>)
    requires forall i :: 0 <= i < |order| ==> order[i] in cos
    ensures |r| <= |order|
    decreases |order|
  {
    if |order| == 0 then []
    else (if IsToplevel(cos[order[0]]) then [order[0]] else []) + ToplevelIds(cos, order[1..])
  }

  /** `ToplevelIds` keeps exactly the top-level keys, each once. */
  lemma {:induction false} ToplevelIdsSpec(cos: map<string, CityObject>, order: seq<string>)
    requires forall i :: 0 <= i < |order| ==> order[i] in cos
    ensures forall k :: k in ToplevelIds(cos, order) <==> k in order && k in cos && IsToplevel(cos[k])
    ensures Distinct(order) ==> Distinct(ToplevelIds(cos, order))
    decreases |order|
  {
    if |order| > 0 {
      ToplevelIdsSpec(cos, order[1..]);
      assert order == [order[0]] + order[1..];
      var r := ToplevelIds(cos, order);
      var q := ToplevelIds(cos, order[1..]);
      if Distinct(order) && IsToplevel(cos[order[0]]) {
        forall j | 0 <= j < |order[1..]| ensures order[1..][j] != order[0] {
          assert order[1..][j] == order[j + 1];
        }
        forall i, j | 0 <= i < j < |r| ensures r[i] != r[j] {
          if i == 0 { assert r[j] == q[j - 1]; } else { assert r[i] == q[i - 1] && r[j] == q[j - 1]; }
        }
      }
    }
  }

  function CountToplevel(cos: map<string, CityObject>, order: seq<string>): (r: nat)
    requires forall i :: 0 <= i < |order| ==> order[i] in cos
    decreases |order|
  {
    if |order| == 0 then 0
    else (if IsToplevel(cos[order[0]]) then 1 else 0) + CountToplevel(cos, order[1..])
  }

  lemma {:induction false} CountToplevelIsLength(cos: map<string, CityObject>, order: seq<string>)
    requires forall i :: 0 <= i < |order| ==> order[i] in cos
    ensures CountToplevel(cos, order) == |ToplevelIds(cos, order)|
    decreases |order|
  {
    if |order| > 0 {
      CountToplevelIsLength(cos, order[1..]);
    }
  }

  /** `CityJSON::number_of_city_objects`: the number of top-level objects,
      whatever order the map is walked in. */
  function NumberOfCityObjects(doc: CityJSON, order: seq<string>): (r: nat)
    requires IsOrderOf(order, doc.cityObjects)
    ensures r == |set k | k in doc.cityObjects && IsToplevel(doc.cityObjects[k])|
  {
    var cos := doc.cityObjects;
    var ids := ToplevelIds(cos, order);
    ToplevelIdsSpec(cos, order);
    CountToplevelIsLength(cos, order);
    DistinctCardinality(ids);
    assert (set x | x in ids) == (set k | k in cos && IsToplevel(cos[k]));
    CountToplevel(cos, order)
  }

  /** `CityJSON::sort_cjfeatures`: the feature order becomes the top-level
      keys, in map order (`Random`) or sorted (`Alphabetical`). */
  function SortCJFeatures(doc: CityJSON, ss: SortingStrategy, order: seq<string>): (r: Result<CityJSON, SortError>)
    requires IsOrderOf(order, doc.cityObjects)
    ensures r.Failure? <==> ss.Morton? || ss.Hilbert?
    ensures r.Success? ==> r.value == doc.(sortedIds := r.value.sortedIds)
  {
    match ss
    case Random => Success(doc.(sortedIds := ToplevelIds(doc.cityObjects, order)))
    case Alphabetical => Success(doc.(sortedIds := Sort(ToplevelIds(doc.cityObjects, order))))
    case Morton => Failure(NotImplemented)
    case Hilbert => Failure(NotImplemented)
  }

  /** After sorting, `sortedIds` lists every top-level object exactly once
      and nothing else; the alphabetical order is ascending. */
  lemma SortCJFeaturesSpec(doc: CityJSON, ss: SortingStrategy, order: seq<string>)
    requires IsOrderOf(order, doc.cityObjects)
    requires ss.Random? || ss.Alphabetical?
    ensures var ids := SortCJFeatures(doc, ss, order).value.sortedIds;
      && Distinct(ids)
      && (forall k :: k in ids <==> k in doc.cityObjects && IsToplevel(doc.cityObjects[k]))
      && (ss.Alphabetical? ==> Sorted(ids))
  {
    var cos := doc.cityObjects;
    var ids := ToplevelIds(cos, order);
    ToplevelIdsSpec(cos, order);
    if ss.Alphabetical? {
      var s := Sort(ids);
      SortSorted(ids);
      DistinctPermutation(ids, s);
      forall k ensures k in s <==> k in ids {
        assert k in s <==> k in multiset(s);
      }
    }
  }

  /** Sorting is independent of the order the map is walked in. */
  lemma AlphabeticalIgnoresOrder(doc: CityJSON, o1: seq<string>, o2: seq<string>)
    requires IsOrderOf(o1, doc.cityObjects) && IsOrderOf(o2, doc.cityObjects)
    ensures SortCJFeatures(doc, Alphabetical, o1) == SortCJFeatures(doc, Alphabetical, o2)
  {
    var a := SortCJFeatures(doc, Alphabetical, o1).value.sortedIds;
    var b := SortCJFeatures(doc, Alphabetical, o2).value.sortedIds;
    SortCJFeaturesSpec(doc, Alphabetical, o1);
    SortCJFeaturesSpec(doc, Alphabetical, o2);
    DistinctSameElements(a, b);
    SortedUnique(a, b);
  }
}
