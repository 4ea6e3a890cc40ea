/** `ReferenceSystem`: a CRS written as an OGC Name Type Specification URL,
    `<base>/{authority}/{version}/{code}`, with the base normally
    `https://www.opengis.net/def/crs`. */
module ReferenceSystems {
  import opened Wrappers
  import opened Text

  const DefaultCrsBaseUrl: string := "https://www.opengis.net/def/crs"

  /** What a URL must contain to be accepted. */
  const OgcMarker: string := "//www.opengis.net/def/crs"

  datatype ReferenceSystem = ReferenceSystem(baseUrl: string, authority: string, version: string, code: string)

  /** `InvalidUrl` is the source's `Generic("Invalid reference system
      URL")`; `SliceOutOfRange` is the panic of `&url[i + 4..]` on a URL
      whose first `crs` ends it. */
  datatype UrlError = InvalidUrl | SliceOutOfRange

  /** `ReferenceSystem::new`: the base defaults to the OGC one. */
  function NewReferenceSystem(baseUrl: Option<string>, authority: string, version: string, code: string): (r: ReferenceSystem)
    ensures baseUrl.None? ==> WellFormedBase(r.baseUrl)
  {
    DefaultBaseWellFormed();
    ReferenceSystem(baseUrl.GetOr(DefaultCrsBaseUrl), authority, version, code)
  }

  /** `ReferenceSystem::to_url` */
  function ToUrl(rs: ReferenceSystem): (r: string) {
    rs.baseUrl + ("/" + Join([rs.authority, rs.version, rs.code], '/'))
  }

  /** The marker names a `crs`, so a URL holding it holds a `crs` early
      enough to slice its prefix. */
  lemma MarkerHasCrs(url: string)
    requires Contains(url, OgcMarker)
    ensures Find("crs", url).Some? && Find("crs", url).value + 3 <= |url|
  {
    FindSpec(OgcMarker, url);
    FindSpec("crs", url);
    var m := Find(OgcMarker, url).value;
    assert url[m..m + 25] == OgcMarker;
    assert url[m + 22..m + 25] == url[m..m + 25][22..25] == "crs";
    assert OccursAt("crs", url, m + 22);
  }

  /** `ReferenceSystem::from_url`: the URL must hold the OGC marker; what
      follows the first `crs` and one more character must split on `/`
      into exactly three parts, and what precedes that character is the
      base. */
  function FromUrl(url: string): (r: Result<ReferenceSystem, UrlError>)
    ensures r.Success? ==> Contains(url, OgcMarker)
  {
    if !Contains(url, OgcMarker) then Failure(InvalidUrl)
    else
      MarkerHasCrs(url);
      FromUrlAt(url, Find("crs", url).value)
  }

  /** The rest of `from_url`, once the first `crs` is found at `i`. */
  function FromUrlAt(url: string, i: nat): (r: Result<ReferenceSystem, UrlError>)
    requires i + 3 <= |url|
  {
    if i + 4 > |url| then Failure(SliceOutOfRange)
    else
      var parts := Split(url[i + 4..], '/');
      if |parts| != 3 then Failure(InvalidUrl)
      else Success(ReferenceSystem(url[..i + 3], parts[0], parts[1], parts[2]))
  }

  /** A base `from_url` can give back: it holds the marker and its first
      `crs` ends it. */
  predicate WellFormedBase(base: string) {
    Contains(base, OgcMarker) && |base| >= 3 && Find("crs", base) == Some(|base| - 3)
  }

  lemma DefaultBaseWellFormed()
    ensures WellFormedBase(DefaultCrsBaseUrl)
  {
    DefaultBaseHoldsMarker(DefaultCrsBaseUrl);
    DefaultBaseFirstCrs(DefaultCrsBaseUrl);
  }

  // The two facts about the default base take it as a parameter, so that
  // the solver reasons about the text instead of evaluating the search.

  lemma DefaultBaseHoldsMarker(b: string)
    requires b == DefaultCrsBaseUrl
    ensures Contains(b, OgcMarker)
  {
    assert b[6..] == OgcMarker;
    ContainsAt(OgcMarker, b, 6);
  }

  lemma DefaultBaseFirstCrs(b: string)
    requires b == DefaultCrsBaseUrl
    ensures Find("crs", b) == Some(28)
  {
    assert b[..28] == "https://www.opengis.net/def/";
    NoOccurrenceBefore("crs", b, 28);
    assert b[28..31] == "crs";
    FindFirstAt("crs", b, 28);
  }

  /** After a well-formed base, `from_url` skips one character, whatever it
      is, and splits the rest. */
  lemma FromUrlAfterBase(base: string, sep: char, tail: string)
    requires WellFormedBase(base)
    ensures var parts := Split(tail, '/');
      FromUrl(base + ([sep] + tail))
        == if |parts| == 3 then Success(ReferenceSystem(base, parts[0], parts[1], parts[2])) else Failure(InvalidUrl)
  {
    FromUrlUsesBase(base, [sep] + tail);
    FromUrlAtBase(base, sep, tail);
  }

  lemma FromUrlUsesBase(base: string, rest: string)
    requires WellFormedBase(base)
    ensures |base| + |rest| >= |base| >= 3
    ensures FromUrl(base + rest) == FromUrlAt(base + rest, |base| - 3)
  {
    BaseLocatesCrs(base, rest);
    FromUrlAtFound(base + rest, |base| - 3);
  }

  /** Once the first `crs` is known, `from_url` continues there. */
  lemma FromUrlAtFound(url: string, i: nat)
    requires Contains(url, OgcMarker) && Find("crs", url) == Some(i)
    ensures i + 3 <= |url|
    ensures FromUrl(url) == FromUrlAt(url, i)
  {
    FromUrlUnfold(url);
  }

  /** With the marker present, `from_url` continues at the first `crs`. */
  lemma FromUrlUnfold(url: string)
    requires Contains(url, OgcMarker)
    ensures Find("crs", url).Some? && Find("crs", url).value + 3 <= |url|
    ensures FromUrl(url) == FromUrlAt(url, Find("crs", url).value)
  {
    MarkerHasCrs(url);
  }

  lemma FromUrlAtBase(base: string, sep: char, tail: string)
    requires |base| >= 3
    ensures var parts := Split(tail, '/');
      FromUrlAt(base + ([sep] + tail), |base| - 3)
        == if |parts| == 3 then Success(ReferenceSystem(base, parts[0], parts[1], parts[2])) else Failure(InvalidUrl)
  {
    var url := base + ([sep] + tail);
    assert url[|base| + 1..] == tail;
    assert url[..|base|] == base;
  }

  /** Whatever follows a well-formed base, the marker is found and the
      first `crs` is the base's own. */
  lemma BaseLocatesCrs(base: string, rest: string)
    requires WellFormedBase(base)
    ensures Contains(base + rest, OgcMarker)
    ensures Find("crs", base + rest) == Some(|base| - 3)
  {
    FindAppend(OgcMarker, base, rest);
    FindAppend("crs", base, rest);
  }

  /** `from_url` reads back what `to_url` writes, for a well-formed base
      and parts free of `/`. */
  lemma UrlRoundTrip(rs: ReferenceSystem)
    requires WellFormedBase(rs.baseUrl)
    requires '/' !in rs.authority && '/' !in rs.version && '/' !in rs.code
    ensures FromUrl(ToUrl(rs)) == Success(rs)
  {
    var parts := [rs.authority, rs.version, rs.code];
    var tail := Join(parts, '/');
    SplitJoin(parts, '/');
    FromUrlAfterBase(rs.baseUrl, '/', tail);
  }

  /** What `from_url` accepts: the parts are free of `/`, the base ends in
      `crs`, and `to_url` gives the URL back exactly when the skipped
      character is `/`. */
  lemma FromUrlSpec(url: string)
    requires FromUrl(url).Success?
    ensures var rs := FromUrl(url).value;
      && '/' !in rs.authority && '/' !in rs.version && '/' !in rs.code
      && |rs.baseUrl| >= 3 && rs.baseUrl[|rs.baseUrl| - 3..] == "crs"
      && |rs.baseUrl| < |url| && url[..|rs.baseUrl|] == rs.baseUrl
      && (ToUrl(rs) == url <==> url[|rs.baseUrl|] == '/')
  {
    FromUrlUnfold(url);
    FindSpec("crs", url);
    FromUrlAtSpec(url, Find("crs", url).value);
  }

  lemma FromUrlAtSpec(url: string, i: nat)
    requires i + 3 <= |url| && OccursAt("crs", url, i)
    requires FromUrlAt(url, i).Success?
    ensures var rs := FromUrlAt(url, i).value;
      && '/' !in rs.authority && '/' !in rs.version && '/' !in rs.code
      && |rs.baseUrl| >= 3 && rs.baseUrl[|rs.baseUrl| - 3..] == "crs"
      && |rs.baseUrl| < |url| && url[..|rs.baseUrl|] == rs.baseUrl
      && (ToUrl(rs) == url <==> url[|rs.baseUrl|] == '/')
  {
    var s := url[i + 4..];
    var parts := Split(s, '/');
    var rs := FromUrlAt(url, i).value;
    assert rs == ReferenceSystem(url[..i + 3], parts[0], parts[1], parts[2]);
    SplitFree(s, '/');
    assert url[..i + 3][i..] == url[i..i + 3];
    ToUrlOfParts(url, i, rs);
  }

  /** `to_url` of what `from_url` read puts `/` where the URL had its
      skipped character. */
  lemma ToUrlOfParts(url: string, i: nat, rs: ReferenceSystem)
    requires i + 4 <= |url|
    requires rs.baseUrl == url[..i + 3] && Split(url[i + 4..], '/') == [rs.authority, rs.version, rs.code]
    ensures ToUrl(rs) == url[..i + 3] + (['/'] + url[i + 4..])
    ensures ToUrl(rs) == url <==> url[i + 3] == '/'
  {
    var s := url[i + 4..];
    JoinSplit(s, '/');
    SplitAround(url, i + 3);
    SameButOne(url[..i + 3], '/', url[i + 3], s);
  }

  /** A text is its prefix, the character at `k`, and the rest. */
  lemma SplitAround(url: string, k: nat)
    requires k < |url|
    ensures url == url[..k] + ([url[k]] + url[k + 1..])
  {
  }

  /** Two texts that differ at most in one character are equal exactly when
      that character is. */
  lemma SameButOne(p: string, a: char, b: char, s: string)
    ensures p + ([a] + s) == p + ([b] + s) <==> a == b
  {
    if p + ([a] + s) == p + ([b] + s) {
      assert (p + ([a] + s))[|p|] == a;
    }
  }

  /** Every piece of a split is free of the separator. */
  lemma {:induction false} SplitFree(s: string, c: char)
    ensures forall k :: 0 <= k < |Split(s, c)| ==> c !in Split(s, c)[k]
    decreases |s|
  {
    if c in s {
      var j := IndexOf(s, c);
      SplitFree(s[j + 1..], c);
      var r := Split(s, c);
      forall k | 1 <= k < |r| ensures r[k] == Split(s[j + 1..], c)[k - 1] {
      }
    }
  }

  /** A URL lacking the OGC marker is rejected. */
  lemma FromUrlRejectsForeign(url: string)
    requires !Contains(url, OgcMarker)
    ensures FromUrl(url) == Failure(InvalidUrl)
  {
  }

  /** A URL that stops right after its base panics on the slice. */
  lemma FromUrlBaseOnly(base: string)
    requires WellFormedBase(base)
    ensures FromUrl(base) == Failure(SliceOutOfRange)
  {
  }

  /** With the default base, `from_url` reads back every `/`-free
      authority, version and code. */
  lemma DefaultUrlRoundTrip(authority: string, version: string, code: string)
    requires '/' !in authority && '/' !in version && '/' !in code
    ensures var rs := NewReferenceSystem(None, authority, version, code);
      FromUrl(ToUrl(rs)) == Success(rs)
  {
    UrlRoundTrip(NewReferenceSystem(None, authority, version, code));
  }
}
