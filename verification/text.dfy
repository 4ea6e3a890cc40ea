/** Substring search and splitting on a separator, as `str::find`,
    `str::contains` and `str::split` do them on ASCII text. */
module Text {
  import opened Wrappers

  /** `pat` occurs in `s` starting at `i`. */
  predicate OccursAt(pat: string, s: string, i: nat) {
    i + |pat| <= |s| && s[i..i + |pat|] == pat
  }

  /** The first occurrence of `pat` in `s` at or after `k`. */
  function FindFrom(pat: string, s: string, k: nat): (r: Option<nat>)
    decreases |s| - k
  {
    if k + |pat| > |s| then None
    else if s[k..k + |pat|] == pat then Some(k)
    else FindFrom(pat, s, k + 1)
  }

  /** `str::find`: the first occurrence of `pat` in `s`. */
  function Find(pat: string, s: string): (r: Option<nat>) {
    FindFrom(pat, s, 0)
  }

  /** `str::contains` */
  predicate Contains(s: string, pat: string) {
    Find(pat, s).Some?
  }

  /** `FindFrom` finds an occurrence with none before it, or reports that
      there is none. */
  lemma {:induction false} FindFromSpec(pat: string, s: string, k: nat)
    ensures var r := FindFrom(pat, s, k);
      && (r.Some? ==> k <= r.value && OccursAt(pat, s, r.value))
      && (r.Some? ==> forall j :: k <= j < r.value ==> !OccursAt(pat, s, j))
      && (r.None? ==> forall j :: k <= j ==> !OccursAt(pat, s, j))
    decreases |s| - k
  {
    if k + |pat| <= |s| && s[k..k + |pat|] != pat {
      FindFromSpec(pat, s, k + 1);
    }
  }

  /** `Find` returns the first occurrence, and `None` only when there is
      none. */
  lemma FindSpec(pat: string, s: string)
    ensures Find(pat, s).Some? ==> OccursAt(pat, s, Find(pat, s).value)
    ensures Find(pat, s).Some? ==> forall j :: 0 <= j < Find(pat, s).value ==> !OccursAt(pat, s, j)
    ensures Find(pat, s).None? <==> forall j :: 0 <= j ==> !OccursAt(pat, s, j)
  {
    FindFromSpec(pat, s, 0);
  }

  /** An occurrence with none before it is the one `find` returns. */
  lemma FindFirstAt(pat: string, s: string, i: nat)
    requires OccursAt(pat, s, i)
    requires forall j :: 0 <= j < i ==> !OccursAt(pat, s, j)
    ensures Find(pat, s) == Some(i)
  {
    FindSpec(pat, s);
  }

  /** A pattern does not start inside a prefix lacking its first
      character. */
  lemma NoOccurrenceBefore(pat: string, s: string, n: nat)
    requires |pat| > 0 && n <= |s| && pat[0] !in s[..n]
    ensures forall j :: 0 <= j < n ==> !OccursAt(pat, s, j)
  {
    forall j | 0 <= j < n ensures !OccursAt(pat, s, j) {
      assert s[j] == s[..n][j];
      if j + |pat| <= |s| {
        assert s[j..j + |pat|][0] == s[j];
      }
    }
  }

  /** An occurrence anywhere makes `contains` hold. */
  lemma ContainsAt(pat: string, s: string, i: nat)
    requires OccursAt(pat, s, i)
    ensures Contains(s, pat)
  {
    FindSpec(pat, s);
  }

  lemma OccursInPrefix(pat: string, s: string, t: string, j: nat)
    requires j + |pat| <= |s|
    ensures OccursAt(pat, s + t, j) <==> OccursAt(pat, s, j)
  {
    assert (s + t)[j..j + |pat|] == s[j..j + |pat|];
  }

  /** An occurrence that lies inside `s` is still the first one once text
      is appended. */
  lemma {:induction false} FindFromAppend(pat: string, s: string, t: string, k: nat)
    requires FindFrom(pat, s, k).Some?
    ensures FindFrom(pat, s + t, k) == FindFrom(pat, s, k)
    decreases |s| - k
  {
    OccursInPrefix(pat, s, t, k);
    if s[k..k + |pat|] != pat {
      FindFromAppend(pat, s, t, k + 1);
    }
  }

  lemma FindAppend(pat: string, s: string, t: string)
    requires Find(pat, s).Some?
    ensures Find(pat, s + t) == Find(pat, s)
  {
    FindFromAppend(pat, s, t, 0);
  }

  /** `str::split(c)`: the pieces between the separators, so one more than
      there are separators. */
  function Split(s: string, c: char): (r: seq<string>)
    ensures |r| > 0
    decreases |s|
  {
    if c !in s then [s]
    else
      var j := IndexOf(s, c);
      [s[..j]] + Split(s[j + 1..], c)
  }

  /** The first position of `c` in `s`. */
  function IndexOf(s: string, c: char): (j: nat)
    requires c in s
    ensures j < |s| && s[j] == c && c !in s[..j]
  {
    if s[0] == c then 0
    else
      assert s == [s[0]] + s[1..];
      var j := IndexOf(s[1..], c);
      assert s[..j + 1] == [s[0]] + s[1..][..j];
      j + 1
  }

  /** `pieces.join(c)` */
  function Join(pieces: seq<string>, c: char): (r: string)
    requires |pieces| > 0
    decreases |pieces|
  {
    if |pieces| == 1 then pieces[0]
    else pieces[0] + [c] + Join(pieces[1..], c)
  }

  /** Joining the pieces of a split gives the text back. */
  lemma {:induction false} JoinSplit(s: string, c: char)
    ensures Join(Split(s, c), c) == s
    decreases |s|
  {
    if c in s {
      var j := IndexOf(s, c);
      JoinSplit(s[j + 1..], c);
      assert Split(s, c)[1..] == Split(s[j + 1..], c);
      assert s == s[..j] + [c] + s[j + 1..];
    }
  }

  /** Splitting a join of separator-free pieces gives the pieces back. */
  lemma {:induction false} SplitJoin(pieces: seq<string>, c: char)
    requires |pieces| > 0
    requires forall i :: 0 <= i < |pieces| ==> c !in pieces[i]
    ensures Split(Join(pieces, c), c) == pieces
    decreases |pieces|
  {
    if |pieces| > 1 {
      var s := Join(pieces, c);
      var p := pieces[0];
      var rest := Join(pieces[1..], c);
      assert s == p + ([c] + rest);
      assert c in s by {
        assert s[|p|] == c;
      }
      IndexAfterFree(p, c, rest);
      assert s[..|p|] == p;
      assert s[|p| + 1..] == rest;
      SplitJoin(pieces[1..], c);
      assert pieces == [p] + pieces[1..];
    }
  }

  /** The first separator of `p + [c] + rest` is right after a
      separator-free `p`. */
  lemma IndexAfterFree(p: string, c: char, rest: string)
    requires c !in p
    ensures c in p + ([c] + rest) && IndexOf(p + ([c] + rest), c) == |p|
  {
    var s := p + ([c] + rest);
    assert s[|p|] == c;
    assert forall k :: 0 <= k < |p| ==> s[k] == p[k];
    assert forall j :: |p| < j <= |s| ==> s[..j][|p|] == c;
  }
}
