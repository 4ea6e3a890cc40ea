/** A city object: its type, its geometries and its place in the
    parent/child hierarchy, with the queries the splitter asks of it. */
module CityObjects {
  import opened Wrappers
  import opened Json
  import opened Geometries

  datatype CityObject = CityObject(
    thetype: string,
    geographicalExtent: Option<seq<real>>,
    attributes: Option<Json>,
    geometry: Option<seq<Geometry>>,
    children: Option<seq<string>>,
    childrenRoles: Option<seq<string>>,
    parents: Option<seq<string>>,
    other: Json)

  /** `CityObject::is_toplevel`: an object without parents starts a
      feature. */
  predicate IsToplevel(co: CityObject) {
    co.parents.None? || |co.parents.value| == 0
  }

  /** `CityObject::get_children_keys`: the listed children, in order. */
  function ChildrenKeys(co: CityObject): (r: seq<string>)
    ensures co.children.Some? ==> r == co.children.value
    ensures co.children.None? ==> r == []
  {
    co.children.GetOr([])
  }

  /** `CityObject::is_extension_type`: the type is prefixed with `+`. */
  predicate IsExtensionType(co: CityObject) {
    |co.thetype| > 0 && co.thetype[0] == '+'
  }

  predicate IsSeparator(c: char) {
    c == '+' || c == '.'
  }

  /** The number of leading `+` characters of `s`. */
  function PlusPrefixLength(s: string): (n: nat)
    ensures n <= |s|
    ensures forall i :: 0 <= i < n ==> s[i] == '+'
    ensures n < |s| ==> s[n] != '+'
    decreases |s|
  {
    if |s| > 0 && s[0] == '+' then 1 + PlusPrefixLength(s[1..]) else 0
  }

  /** The position of the first `+` or `.` of `s`, if any. */
  function FindSeparator(s: string): (r: Option<nat>)
    ensures r.Some? ==> r.value < |s| && IsSeparator(s[r.value])
    ensures r.Some? ==> forall j :: 0 <= j < r.value ==> !IsSeparator(s[j])
    ensures r.None? <==> forall j :: 0 <= j < |s| ==> !IsSeparator(s[j])
    decreases |s|
  {
    if |s| == 0 then None
    else if IsSeparator(s[0]) then Some(0)
    else match FindSeparator(s[1..])
      case Some(k) => Some(k + 1)
      case None => None
  }

  /** `CityObject::get_extension_type`: for an extension type, the name
      between the leading `+` characters and the first later `+` or `.`. */
  function GetExtensionType(co: CityObject): (r: Option<string>)
    ensures r.Some? <==> IsExtensionType(co)
    ensures r.Some? ==>
      var n := PlusPrefixLength(co.thetype);
      && n + |r.value| <= |co.thetype|
      && co.thetype[n..n + |r.value|] == r.value
      && (forall j :: 0 <= j < |r.value| ==> !IsSeparator(r.value[j]))
      && (n + |r.value| == |co.thetype| || IsSeparator(co.thetype[n + |r.value|]))
  {
    if !IsExtensionType(co) then None
    else
      var name := co.thetype[PlusPrefixLength(co.thetype)..];
      match FindSeparator(name)
      case Some(idx) => Some(name[..idx])
      case None => Some(name)
  }

  /** A name written after one or more `+` and followed by nothing, or by a
      `+` or `.` and anything, is what `GetExtensionType` reads back. */
  lemma ExtensionTypeOfName(co: CityObject, pluses: nat, name: string, rest: string)
    requires pluses >= 1
    requires forall j :: 0 <= j < |name| ==> !IsSeparator(name[j])
    requires |rest| == 0 || IsSeparator(rest[0])
    requires |name| == 0 ==> |rest| == 0 || rest[0] == '.'
    requires co.thetype == seq(pluses, _ => '+') + name + rest
    ensures GetExtensionType(co) == Some(name)
  {
    var s := co.thetype;
    var t := name + rest;
    assert s[pluses..] == t;
    assert s[0] == '+';
    if |name| > 0 { assert t[0] == name[0]; }
    PlusPrefixOfPluses(s, pluses, t);
    var r := GetExtensionType(co).value;
    assert s[pluses..pluses + |r|] == t[..|r|];
    if pluses + |r| < |s| {
      assert s[pluses + |r|] == t[|r|];
    }
    assert t[..|name|] == name;
    if |name| < |t| {
      assert t[|name|] == rest[0];
    }
    SeparatorFreePrefixUnique(t, r, name);
  }

  /** A string has only one prefix that holds no separator and is followed
      by one or by the end. */
  lemma SeparatorFreePrefixUnique(t: string, a: string, b: string)
    requires |a| <= |t| && t[..|a|] == a && (|a| == |t| || IsSeparator(t[|a|]))
    requires |b| <= |t| && t[..|b|] == b && (|b| == |t| || IsSeparator(t[|b|]))
    requires forall j :: 0 <= j < |a| ==> !IsSeparator(a[j])
    requires forall j :: 0 <= j < |b| ==> !IsSeparator(b[j])
    ensures a == b
  {
    forall j | 0 <= j < |a| && j < |b| ensures a[j] == b[j] {
      assert a[j] == t[j] && b[j] == t[j];
    }
  }

  lemma PlusPrefixOfPluses(s: string, pluses: nat, tail: string)
    requires pluses <= |s| && s[pluses..] == tail
    requires forall i :: 0 <= i < pluses ==> s[i] == '+'
    requires |tail| == 0 || tail[0] != '+'
    ensures PlusPrefixLength(s) == pluses
    decreases pluses
  {
    if pluses > 0 {
      PlusPrefixOfPluses(s[1..], pluses - 1, tail);
    }
  }
}
