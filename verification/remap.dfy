/** The id remap table: an old-id -> new-id mapping with
    "insert if absent, return the assigned id" semantics, the model of the
    `HashMap<usize, usize>` tables (`g_vi_oldnew`, `m_oldnew`, `t_oldnew`,
    `t_v_oldnew`, `newids`) that every renumbering of the system threads. */
module Remap {
  import opened Wrappers

  type Table = map<nat, nat>

  /** The values of `t` are exactly `base, base + 1, ..., base + |t| - 1`,
      each taken by exactly one key. */
  ghost predicate DenseFrom(t: Table, base: nat) {
    && (forall k :: k in t ==> base <= t[k] < base + |t|)
    && (forall v :: base <= v < base + |t| ==> v in t.Values)
    && (forall k1, k2 :: k1 in t && k2 in t && k1 != k2 ==> t[k1] != t[k2])
  }

  /** A table of one entry, mapped to `0`, is dense from `0`. */
  lemma SingletonDense(k: nat)
    ensures DenseFrom(map[k := 0], 0)
  {
    var t := map[k := 0];
    assert |t| == 1 && t[k] == 0;
    assert 0 in t.Values by {
      assert t[k] in t.Values;
    }
  }

  /** `t'` keeps every entry of `t` unchanged. */
  ghost predicate Extends(t: Table, t': Table) {
    forall k :: k in t ==> k in t' && t'[k] == t[k]
  }

  lemma ExtendsTransitive(t1: Table, t2: Table, t3: Table)
    requires Extends(t1, t2) && Extends(t2, t3)
    ensures Extends(t1, t3)
  {
  }

  /** Adding a fresh key with the next value keeps a table dense. */
  lemma {:induction false} AddNextKeepsDense(t: Table, id: nat, base: nat)
    requires id !in t
    ensures DenseFrom(t, base) ==> DenseFrom(t[id := base + |t|], base)
  {
    if !DenseFrom(t, base) { return; }
    var t' := t[id := base + |t|];
    assert |t'| == |t| + 1;
    forall v | base <= v < base + |t'|
      ensures v in t'.Values
    {
      if v == base + |t| {
        assert t'[id] == v;
      } else {
        assert v in t.Values;
        var k :| k in t && t[k] == v;
        assert k != id && t'[k] == v;
      }
    }
  }

  /** One `entry(old).or_insert(len + offset)` step: a recorded id keeps its
      value; an unseen id gets the table's size plus `offset` and is recorded. */
  function Resolve(t: Table, id: nat, offset: nat): (r: (nat, Table))
    ensures id in r.1 && r.1[id] == r.0
    ensures forall k :: k in r.1 ==> k in t || k == id
    ensures Extends(t, r.1)
    ensures id in t ==> r.1 == t
    ensures id !in t ==> r.0 == |t| + offset && |r.1| == |t| + 1
  {
    if id in t then (t[id], t)
    else (|t| + offset, t[id := |t| + offset])
  }

  /** `Resolve` hands out the next value, so a dense table stays dense. */
  lemma ResolveKeepsDense(t: Table, id: nat, offset: nat)
    requires DenseFrom(t, offset)
    ensures DenseFrom(Resolve(t, id, offset).1, offset)
  {
    if id !in t {
      AddNextKeepsDense(t, id, offset);
    }
  }

  /** Resolves every id of `xs` from left to right, threading the table:
      the leaf loop `for index in arr { *index = entry(old).or_insert(len) }`. */
  function ResolveList(t: Table, xs: seq<nat>, offset: nat): (r: (seq<nat>, Table))
    ensures |r.0| == |xs|
    decreases |xs|
  {
    if |xs| == 0 then ([], t)
    else
      var p := Resolve(t, xs[0], offset);
      var q := ResolveList(p.1, xs[1..], offset);
      ([p.0] + q.0, q.1)
  }

  /** What `ResolveList` computes: every id of `xs` ends up recorded, no
      other id is added, recorded ids keep their value, and each output
      position holds the final table's value for the input id. */
  lemma {:induction false} ResolveListSpec(t: Table, xs: seq<nat>, offset: nat)
    ensures var r := ResolveList(t, xs, offset);
      && (forall x :: x in xs ==> x in r.1)
      && (forall k :: k in r.1 ==> k in t || k in xs)
      && Extends(t, r.1)
      && (forall i :: 0 <= i < |xs| ==> xs[i] in r.1 && r.0[i] == r.1[xs[i]])
    decreases |xs|
  {
    if |xs| > 0 {
      var p := Resolve(t, xs[0], offset);
      ResolveListSpec(p.1, xs[1..], offset);
      assert forall i :: 1 <= i < |xs| ==> xs[i] == xs[1..][i - 1];
    }
  }

  /** A table that maps every id of `xs` to itself resolves `xs` to itself
      and gains nothing. */
  lemma {:induction false} ResolveListFixed(t: Table, xs: seq<nat>)
    requires forall x :: x in xs ==> x in t && t[x] == x
    ensures ResolveList(t, xs, 0) == (xs, t)
    decreases |xs|
  {
    if |xs| > 0 {
      ResolveListFixed(t, xs[1..]);
      assert [xs[0]] + xs[1..] == xs;
    }
  }

  /** Resolving a list keeps a dense table dense. */
  lemma {:induction false} ResolveListKeepsDense(t: Table, xs: seq<nat>, offset: nat)
    requires DenseFrom(t, offset)
    ensures DenseFrom(ResolveList(t, xs, offset).1, offset)
    decreases |xs|
  {
    if |xs| > 0 {
      ResolveKeepsDense(t, xs[0], offset);
      ResolveListKeepsDense(Resolve(t, xs[0], offset).1, xs[1..], offset);
    }
  }

  /** Resolving a concatenation is resolving the two halves in turn. */
  lemma {:induction false} ResolveListAppend(t: Table, xs: seq<nat>, ys: seq<nat>, offset: nat)
    ensures ResolveList(t, xs + ys, offset).0
         == ResolveList(t, xs, offset).0 + ResolveList(ResolveList(t, xs, offset).1, ys, offset).0
    ensures ResolveList(t, xs + ys, offset).1
         == ResolveList(ResolveList(t, xs, offset).1, ys, offset).1
    decreases |xs|
  {
    if |xs| == 0 {
      assert xs + ys == ys;
    } else {
      var p := Resolve(t, xs[0], offset);
      ResolveListCons(t, xs + ys, offset, xs[0], xs[1..] + ys);
      ResolveListCons(t, xs, offset, xs[0], xs[1..]);
      var whole := ResolveList(p.1, xs[1..] + ys, offset);
      var front := ResolveList(p.1, xs[1..], offset);
      ResolveListAppend(p.1, xs[1..], ys, offset);
      assert ResolveList(t, xs, offset) == ([p.0] + front.0, front.1);
      assert ResolveList(t, xs + ys, offset) == ([p.0] + whole.0, whole.1);
      assert [p.0] + whole.0 == [p.0] + front.0 + ResolveList(front.1, ys, offset).0;
    }
  }

  /** The first step of `ResolveList` on a non-empty list. */
  lemma ResolveListCons(t: Table, zs: seq<nat>, offset: nat, z: nat, rest: seq<nat>)
    requires |zs| > 0 && zs[0] == z && zs[1..] == rest
    ensures var p := Resolve(t, z, offset);
      ResolveList(t, zs, offset) == ([p.0] + ResolveList(p.1, rest, offset).0, ResolveList(p.1, rest, offset).1)
  {
  }

  /** Resolves the present ids of a list of nullable ids, leaving `None`
      untouched: the material leaf loop
      `for idx in indices.iter_mut().filter_map(|x| x.as_mut())`. */
  function ResolveOptList(t: Table, xs: seq<Option<nat>>): (r: (seq<Option<nat>>, Table))
    ensures |r.0| == |xs|
    decreases |xs|
  {
    if |xs| == 0 then ([], t)
    else
      match xs[0]
      case None =>
        var q := ResolveOptList(t, xs[1..]);
        ([None] + q.0, q.1)
      case Some(x) =>
        var p := Resolve(t, x, 0);
        var q := ResolveOptList(p.1, xs[1..]);
        ([Some(p.0)] + q.0, q.1)
  }

  /** What `ResolveOptList` computes: `None` stays `None`, every present id
      is recorded and replaced by its value, and nothing else is added. */
  lemma {:induction false} ResolveOptListSpec(t: Table, xs: seq<Option<nat>>)
    ensures OptResolved(t, xs, ResolveOptList(t, xs))
    decreases |xs|
  {
    if |xs| > 0 {
      ResolveOptListCons(t, xs, xs[0], xs[1..]);
      var t' := if xs[0].Some? then Resolve(t, xs[0].value, 0).1 else t;
      var h := if xs[0].Some? then Some(Resolve(t, xs[0].value, 0).0) else None;
      ResolveOptListSpec(t', xs[1..]);
      OptResolvedStep(t, t', xs, h, ResolveOptList(t', xs[1..]));
    }
  }

  /** `r` is what resolving `xs` from table `t` leaves: every present id
      recorded, nothing else added, old entries kept, and each output the
      final table's value for the present id. */
  ghost predicate OptResolved(t: Table, xs: seq<Option<nat>>, r: (seq<Option<nat>>, Table)) {
    && |r.0| == |xs|
    && (forall x :: Some(x) in xs ==> x in r.1)
    && (forall k :: k in r.1 ==> k in t || Some(k) in xs)
    && Extends(t, r.1)
    && (forall i :: 0 <= i < |xs| ==>
          (xs[i].None? ==> r.0[i].None?) &&
          (xs[i].Some? ==> xs[i].value in r.1 && r.0[i] == Some(r.1[xs[i].value])))
  }

  /** The induction step of `ResolveOptListSpec`: the first id resolved
      into `t'` and output as `h`, then the rest. */
  lemma OptResolvedStep(t: Table, t': Table, xs: seq<Option<nat>>, h: Option<nat>, q: (seq<Option<nat>>, Table))
    requires |xs| > 0
    requires Extends(t, t') && forall k :: k in t' ==> k in t || Some(k) == xs[0]
    requires xs[0].None? ==> h.None?
    requires xs[0].Some? ==> xs[0].value in t' && h == Some(t'[xs[0].value])
    requires OptResolved(t', xs[1..], q)
    ensures OptResolved(t, xs, ([h] + q.0, q.1))
  {
    var r := ([h] + q.0, q.1);
    forall i | 1 <= i < |xs| ensures xs[i] == xs[1..][i - 1] && r.0[i] == q.0[i - 1] {
    }
    forall x | Some(x) in xs ensures x in r.1 {
      var i :| 0 <= i < |xs| && xs[i] == Some(x);
      if i > 0 {
        assert Some(x) in xs[1..];
      }
    }
    forall k | k in r.1 ensures k in t || Some(k) in xs {
      if Some(k) in xs[1..] {
        var i :| 0 <= i < |xs[1..]| && xs[1..][i] == Some(k);
        assert xs[i + 1] == Some(k);
      }
    }
  }

  /** Resolving a list of nullable ids keeps a dense table dense. */
  lemma {:induction false} ResolveOptListKeepsDense(t: Table, xs: seq<Option<nat>>)
    requires DenseFrom(t, 0)
    ensures DenseFrom(ResolveOptList(t, xs).1, 0)
    decreases |xs|
  {
    if |xs| > 0 {
      match xs[0]
      case None =>
        ResolveOptListKeepsDense(t, xs[1..]);
      case Some(x) =>
        ResolveKeepsDense(t, x, 0);
        ResolveOptListKeepsDense(Resolve(t, x, 0).1, xs[1..]);
    }
  }

  lemma {:induction false} ResolveOptListAppend(t: Table, xs: seq<Option<nat>>, ys: seq<Option<nat>>)
    ensures ResolveOptList(t, xs + ys).0
         == ResolveOptList(t, xs).0 + ResolveOptList(ResolveOptList(t, xs).1, ys).0
    ensures ResolveOptList(t, xs + ys).1
         == ResolveOptList(ResolveOptList(t, xs).1, ys).1
    decreases |xs|
  {
    if |xs| == 0 {
      assert xs + ys == ys;
    } else {
      var t' := if xs[0].Some? then Resolve(t, xs[0].value, 0).1 else t;
      var h := if xs[0].Some? then Some(Resolve(t, xs[0].value, 0).0) else None;
      ResolveOptListCons(t, xs + ys, xs[0], xs[1..] + ys);
      ResolveOptListCons(t, xs, xs[0], xs[1..]);
      var whole := ResolveOptList(t', xs[1..] + ys);
      var front := ResolveOptList(t', xs[1..]);
      ResolveOptListAppend(t', xs[1..], ys);
      assert ResolveOptList(t, xs) == ([h] + front.0, front.1);
      assert ResolveOptList(t, xs + ys) == ([h] + whole.0, whole.1);
      assert [h] + whole.0 == [h] + front.0 + ResolveOptList(front.1, ys).0;
    }
  }

  /** The first step of `ResolveOptList` on a non-empty list. */
  lemma ResolveOptListCons(t: Table, zs: seq<Option<nat>>, z: Option<nat>, rest: seq<Option<nat>>)
    requires |zs| > 0 && zs[0] == z && zs[1..] == rest
    ensures var t' := if z.Some? then Resolve(t, z.value, 0).1 else t;
      var h := if z.Some? then Some(Resolve(t, z.value, 0).0) else None;
      ResolveOptList(t, zs) == ([h] + ResolveOptList(t', rest).0, ResolveOptList(t', rest).1)
  {
  }

  /** Every key of `t` is a valid position of a sequence of length `n`. */
  predicate KeysBelow(t: Table, n: nat) {
    forall k :: k in t ==> k < n
  }

  /** The "slice" loop of the split: a sequence of length `|t|` whose
      position `t[id]` holds `src[id]`, for every pair of a dense table
      (`v.resize(t.len()); for (old, new) in t { v[new] = src[old] }`). */
  function SliceBy<T>(src: seq<T>, t: Table): (r: seq<T>)
    requires DenseFrom(t, 0)
    requires KeysBelow(t, |src|)
    ensures |r| == |t|
    ensures forall k :: k in t ==> r[t[k]] == src[k]
  {
    seq(|t|, j requires 0 <= j < |t| =>
      assert j in t.Values;
      var k :| k in t && t[k] == j; src[k])
  }

  /** The checked form of `SliceBy`: `None` when an old id is out of range,
      where the source's indexing `src[id]` panics. */
  function SliceChecked<T>(src: seq<T>, t: Table): (r: Option<seq<T>>)
    requires DenseFrom(t, 0)
    ensures r.Some? <==> KeysBelow(t, |src|)
    ensures r.Some? ==> |r.value| == |t| && forall k :: k in t ==> r.value[t[k]] == src[k]
  {
    if KeysBelow(t, |src|) then Some(SliceBy(src, t)) else None
  }

  /** Slicing through a table that renumbers `0..n-1` onto itself in order
      is the identity on the prefix. */
  lemma SliceIdentity<T>(src: seq<T>, t: Table)
    requires DenseFrom(t, 0)
    requires KeysBelow(t, |src|)
    requires |t| == |src|
    requires forall k :: k in t ==> t[k] == k
    ensures SliceBy(src, t) == src
  {
    var r := SliceBy(src, t);
    forall j | 0 <= j < |src| ensures r[j] == src[j] {
      assert j in t.Values;
      var k :| k in t && t[k] == j;
    }
  }
}
