/**
 * The array operations the views are built from (`filter`, `findIndex`,
 * `find`, index-based `filter((_, i) => i !== idx)`), as functions on
 * sequences, with the facts every view relies on: a filter keeps exactly the
 * elements that pass, every copy of each, and keeps their order.
 */
module Seqs {
  import opened Options

  /** `a` can be obtained from `b` by deleting elements: `a` is an order-preserving subsequence of `b`. */
  ghost predicate IsSubseq<T>(a: seq<T>, b: seq<T>)
    decreases |b|
  {
    if a == [] then true
    else if b == [] then false
    else (a[0] == b[0] && IsSubseq(a[1..], b[1..])) || IsSubseq(a, b[1..])
  }

  /** Every sequence is a subsequence of itself. */
  lemma {:induction false} SubseqRefl<T>(s: seq<T>)
    ensures IsSubseq(s, s)
  {
    if s != [] {
      SubseqRefl(s[1..]);
    }
  }

  /** `Array.prototype.filter`. */
  function Filter<T(!new)>(s: seq<T>, p: T -> bool): (r: seq<T>)
    ensures |r| <= |s|
    ensures forall i :: 0 <= i < |r| ==> r[i] in s && p(r[i])
    ensures forall i :: 0 <= i < |s| && p(s[i]) ==> s[i] in r
    ensures IsSubseq(r, s)
    ensures forall x :: multiset(r)[x] == if p(x) then multiset(s)[x] else 0
  {
    if s == [] then []
    else
      assert s == [s[0]] + s[1..];
      assert multiset(s) == multiset{s[0]} + multiset(s[1..]);
      var rest := Filter(s[1..], p);
      if p(s[0]) then
        assert multiset([s[0]] + rest) == multiset{s[0]} + multiset(rest);
        [s[0]] + rest
      else rest
  }

  /** The position of the first copy of `x` in `s` (`indexOf`). */
  function FirstIndex<T(==)>(s: seq<T>, x: T): (r: nat)
    requires x in s
    ensures r < |s| && s[r] == x
    ensures forall j :: 0 <= j < r ==> s[j] != x
  {
    if s[0] == x then 0 else 1 + FirstIndex(s[1..], x)
  }

  /** The first copy of `x` in `s` comes before the first copy of `y`. */
  ghost predicate FirstBefore<T>(s: seq<T>, x: T, y: T) {
    x in s && y in s && FirstIndex(s, x) < FirstIndex(s, y)
  }

  /** Between two elements that pass, a filter keeps the order of their first copies. */
  lemma {:induction false} FilterFirstIndex<T(!new)>(s: seq<T>, p: T -> bool, x: T, y: T)
    requires x in s && y in s && p(x) && p(y)
    ensures x in Filter(s, p) && y in Filter(s, p)
    ensures FirstBefore(Filter(s, p), x, y) <==> FirstBefore(s, x, y)
  {
    assert s == [s[0]] + s[1..];
    var f := Filter(s, p);
    assert x in f && y in f by {
      assert multiset(f)[x] == multiset(s)[x] && multiset(f)[y] == multiset(s)[y];
    }
    if s[0] != x && s[0] != y {
      FilterFirstIndex(s[1..], p, x, y);
    }
  }

  /** A filter whose test holds of every element returns the sequence unchanged. */
  lemma {:induction false} FilterAll<T(!new)>(s: seq<T>, p: T -> bool)
    requires forall i :: 0 <= i < |s| ==> p(s[i])
    ensures Filter(s, p) == s
  {
    if s != [] {
      FilterAll(s[1..], p);
    }
  }

  /** `Array.prototype.findIndex`, with "not found" as `None` instead of -1. */
  function FindIndex<T>(s: seq<T>, p: T -> bool): (r: Option<nat>)
    ensures r.Some? ==> r.value < |s| && p(s[r.value])
    ensures r.Some? ==> forall j :: 0 <= j < r.value ==> !p(s[j])
    ensures r.None? <==> forall j :: 0 <= j < |s| ==> !p(s[j])
  {
    if s == [] then None
    else if p(s[0]) then Some(0)
    else match FindIndex(s[1..], p)
      case None => None
      case Some(k) => Some(k + 1)
  }

  /** `Array.prototype.find`: the first element that passes, if any. */
  function Find<T>(s: seq<T>, p: T -> bool): (r: Option<T>)
    ensures r.Some? ==> r.value in s && p(r.value)
    ensures r.None? <==> forall i :: 0 <= i < |s| ==> !p(s[i])
  {
    match FindIndex(s, p)
    case None => None
    case Some(k) => Some(s[k])
  }

  /** `s.filter((_, i) => i !== idx)`: drops position `idx`; an index past the end drops nothing. */
  function RemoveAt<T>(s: seq<T>, idx: nat): (r: seq<T>)
    ensures idx < |s| ==> |r| == |s| - 1
    ensures idx >= |s| ==> r == s
    ensures forall i :: 0 <= i < idx && i < |r| ==> r[i] == s[i]
    ensures forall i :: idx <= i < |r| ==> r[i] == s[i + 1]
  {
    if idx < |s| then s[..idx] + s[idx + 1..] else s
  }

  /** The elements of `s` not in `seen`, each once, in order of first occurrence (`[...new Set(s)]` for an empty `seen`). */
  function DistinctFrom<T(==,!new)>(s: seq<T>, seen: set<T>): (r: seq<T>)
    ensures forall x :: x in r <==> x in s && x !in seen
    ensures forall i, j :: 0 <= i < j < |r| ==> r[i] != r[j]
    ensures IsSubseq(r, s)
    ensures forall i, j :: 0 <= i < j < |r| ==> FirstBefore(s, r[i], r[j])
  {
    if s == [] then []
    else if s[0] in seen then DistinctFrom(s[1..], seen)
    else [s[0]] + DistinctFrom(s[1..], seen + {s[0]})
  }

  /** De-duplicating the elements that pass a filter lists them in the order of their first copies in the unfiltered sequence. */
  lemma FilterDistinctOrder<T(!new)>(s: seq<T>, p: T -> bool, d: seq<T>)
    requires d == DistinctFrom(Filter(s, p), {})
    ensures forall i, j :: 0 <= i < j < |d| ==> FirstBefore(s, d[i], d[j])
  {
    forall i, j | 0 <= i < j < |d|
      ensures FirstBefore(s, d[i], d[j])
    {
      FilterFirstIndex(s, p, d[i], d[j]);
    }
  }

  /** Putting a header in front of a list that is distinct and in first-occurrence order keeps both for the elements after it. */
  lemma {:induction false} HeaderKeepsOrder<T>(s: seq<T>, h: T, d: seq<T>, r: seq<T>)
    requires r == [h] + d
    requires forall i, j :: 0 <= i < j < |d| ==> d[i] != d[j]
    requires forall i, j :: 0 <= i < j < |d| ==> FirstBefore(s, d[i], d[j])
    ensures forall i, j :: 1 <= i < j < |r| ==> r[i] != r[j]
    ensures forall i, j :: 1 <= i < j < |r| ==> FirstBefore(s, r[i], r[j])
  {
    forall i, j | 1 <= i < j < |r| ensures r[i] != r[j] {
      assert r[i] == d[i - 1] && r[j] == d[j - 1];
    }
    forall i, j | 1 <= i < j < |r|
      ensures FirstBefore(s, r[i], r[j])
    {
      assert r[i] == d[i - 1] && r[j] == d[j - 1];
      assert FirstBefore(s, d[i - 1], d[j - 1]);
    }
  }

  /** `flatMap`'s flattening: the parts one after another. */
  function Concat<T>(parts: seq<seq<T>>): seq<T> {
    if parts == [] then [] else Concat(parts[..|parts| - 1]) + parts[|parts| - 1]
  }

  /** Flattening non-empty parts gives at least one element per part. */
  lemma {:induction false} ConcatLength<T>(parts: seq<seq<T>>)
    requires forall i :: 0 <= i < |parts| ==> |parts[i]| > 0
    ensures |Concat(parts)| >= |parts|
  {
    if parts != [] {
      ConcatLength(parts[..|parts| - 1]);
    }
  }

  /** The flattening of a prefix of the parts begins the flattening of all of them. */
  lemma {:induction false} ConcatPrefix<T>(parts: seq<seq<T>>, m: nat)
    requires m <= |parts|
    ensures Concat(parts[..m]) <= Concat(parts)
    decreases |parts|
  {
    if m < |parts| {
      var init := parts[..|parts| - 1];
      ConcatPrefix(init, m);
      assert init[..m] == parts[..m];
    } else {
      assert parts[..m] == parts;
    }
  }

  /** Every element of every part is in the flattening. */
  lemma ConcatHasParts<T>(parts: seq<seq<T>>)
    ensures forall i, k :: 0 <= i < |parts| && 0 <= k < |parts[i]| ==> parts[i][k] in Concat(parts)
  {
    forall i, k | 0 <= i < |parts| && 0 <= k < |parts[i]|
      ensures parts[i][k] in Concat(parts)
    {
      var before := Concat(parts[..i]);
      var upTo := Concat(parts[..i + 1]);
      assert parts[..i + 1][..i] == parts[..i];
      assert upTo == before + parts[i];
      assert upTo[|before| + k] == parts[i][k];
      ConcatPrefix(parts, i + 1);
      assert Concat(parts)[|before| + k] == parts[i][k];
    }
  }

  /** Every element of the flattening comes from some part. */
  lemma {:induction false} ConcatFromParts<T>(parts: seq<seq<T>>)
    ensures forall j :: 0 <= j < |Concat(parts)| ==> InSomePart(Concat(parts)[j], parts)
  {
    if parts != [] {
      var init := parts[..|parts| - 1];
      var last := parts[|parts| - 1];
      ConcatFromParts(init);
      var all := Concat(parts);
      assert all == Concat(init) + last;
      forall j | 0 <= j < |all| ensures InSomePart(all[j], parts) {
        if j < |Concat(init)| {
          assert all[j] == Concat(init)[j];
          var i :| 0 <= i < |init| && all[j] in init[i];
          assert parts[i] == init[i];
        } else {
          assert all[j] == last[j - |Concat(init)|];
          assert all[j] in parts[|parts| - 1];
        }
      }
    }
  }

  /** `x` is an element of one of the parts. */
  ghost predicate InSomePart<T>(x: T, parts: seq<seq<T>>) {
    exists i :: 0 <= i < |parts| && x in parts[i]
  }
}
