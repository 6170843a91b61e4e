/**
 * Sequence helpers: filtering (a WHERE clause or a list comprehension with an
 * `if`), SQL OFFSET/LIMIT paging and Python slicing with negative indices.
 */
module PySeq {

  /** The elements of `s` that satisfy `p`, in their original order. */
  function Filter<T(!new)>(s: seq<T>, p: T -> bool): (r: seq<T>)
    ensures |r| <= |s|
    ensures forall x :: x in r <==> x in s && p(x)
    ensures multiset(r) <= multiset(s)
    ensures forall k :: 0 <= k < |r| ==> p(r[k])
    decreases |s|
  {
    if |s| == 0 then []
    else
      var rest := Filter(s[..|s| - 1], p);
      assert s == s[..|s| - 1] + [s[|s| - 1]];
      if p(s[|s| - 1]) then rest + [s[|s| - 1]] else rest
  }

  /** Filtering with a condition every element meets keeps the whole sequence. */
  lemma {:induction false} FilterAll<T(!new)>(s: seq<T>, p: T -> bool)
    requires forall k :: 0 <= k < |s| ==> p(s[k])
    ensures Filter(s, p) == s
    decreases |s|
  {
    if |s| > 0 {
      FilterAll(s[..|s| - 1], p);
      assert s == s[..|s| - 1] + [s[|s| - 1]];
    }
  }

  /** Filtering twice is filtering once by the conjunction. */
  lemma {:induction false} FilterFilter<T(!new)>(s: seq<T>, p: T -> bool, q: T -> bool)
    ensures Filter(Filter(s, p), q) == Filter(s, x => p(x) && q(x))
    decreases |s|
  {
    if |s| > 0 {
      FilterFilter(s[..|s| - 1], p, q);
      var rest := Filter(s[..|s| - 1], p);
      if p(s[|s| - 1]) {
        assert (rest + [s[|s| - 1]])[..|rest|] == rest;
      }
    }
  }

  /** Filtering depends only on which elements the condition accepts. */
  lemma {:induction false} FilterExt<T(!new)>(s: seq<T>, p: T -> bool, q: T -> bool)
    requires forall x :: p(x) == q(x)
    ensures Filter(s, p) == Filter(s, q)
    decreases |s|
  {
    if |s| > 0 {
      FilterExt(s[..|s| - 1], p, q);
    }
  }

  /** An optional second filter (`if cond: s = [x for x in s if q(x)]`) is one filter by the combined condition. */
  lemma FilterWhen<T(!new)>(s: seq<T>, p: T -> bool, q: T -> bool, r: T -> bool, cond: bool)
    requires forall x :: r(x) == (p(x) && (!cond || q(x)))
    ensures (if cond then Filter(Filter(s, p), q) else Filter(s, p)) == Filter(s, r)
  {
    if cond {
      FilterFilter(s, p, q);
      FilterExt(s, x => p(x) && q(x), r);
    } else {
      FilterExt(s, p, r);
    }
  }

  /** Some element satisfies `p` exactly when the count is positive. */
  lemma CountWherePositive<T(!new)>(s: seq<T>, p: T -> bool)
    ensures CountWhere(s, p) > 0 <==> exists k :: 0 <= k < |s| && p(s[k])
  {
    var f := Filter(s, p);
    if |f| > 0 {
      assert f[0] in s;
    }
    if exists k :: 0 <= k < |s| && p(s[k]) {
      var k :| 0 <= k < |s| && p(s[k]);
      assert s[k] in f;
    }
  }

  /** A relation that holds between every earlier and later element still holds after filtering. */
  lemma {:induction false} FilterPairwise<T(!new)>(s: seq<T>, p: T -> bool, rel: (T, T) -> bool)
    requires forall i, j :: 0 <= i < j < |s| ==> rel(s[i], s[j])
    ensures forall i, j :: 0 <= i < j < |Filter(s, p)| ==> rel(Filter(s, p)[i], Filter(s, p)[j])
    decreases |s|
  {
    if |s| > 0 {
      var init := s[..|s| - 1];
      var last := s[|s| - 1];
      FilterPairwise(init, p, rel);
      var rest := Filter(init, p);
      if p(last) {
        var r := Filter(s, p);
        assert r == rest + [last];
        forall i, j | 0 <= i < j < |r| ensures rel(r[i], r[j]) {
          if j == |rest| {
            assert r[i] in init;
            var k :| 0 <= k < |init| && init[k] == r[i];
            assert s[k] == r[i];
          } else {
            assert r[i] == rest[i] && r[j] == rest[j];
          }
        }
      }
    }
  }

  /** Every element satisfies `p` or fails it: the two filters split the sequence. */
  lemma {:induction false} FilterPartition<T(!new)>(s: seq<T>, p: T -> bool, q: T -> bool)
    requires forall x :: q(x) <==> !p(x)
    ensures |Filter(s, p)| + |Filter(s, q)| == |s|
    decreases |s|
  {
    if |s| > 0 {
      FilterPartition(s[..|s| - 1], p, q);
    }
  }

  /** The number of elements of `s` that satisfy `p`. */
  function CountWhere<T(!new)>(s: seq<T>, p: T -> bool): (n: nat)
    ensures n == |Filter(s, p)|
    decreases |s|
  {
    if |s| == 0 then 0
    else CountWhere(s[..|s| - 1], p) + (if p(s[|s| - 1]) then 1 else 0)
  }

  /**
   * SQL `OFFSET offset LIMIT limit`, where a limit of 0 means "no limit"
   * because the source applies `.limit(limit)` only `if limit`.
   */
  function Page<T>(s: seq<T>, offset: nat, limit: nat): (r: seq<T>)
    ensures offset >= |s| ==> r == []
    ensures limit == 0 && offset < |s| ==> r == s[offset..]
    ensures limit > 0 ==> |r| <= limit
    ensures forall k :: 0 <= k < |r| ==> offset + k < |s| && r[k] == s[offset + k]
    ensures |r| == if offset >= |s| then 0 else if limit == 0 || |s| - offset <= limit then |s| - offset else limit
  {
    if offset >= |s| then []
    else if limit == 0 || |s| - offset <= limit then s[offset..]
    else s[offset..offset + limit]
  }

  /** Python's reading of a slice bound: negative counts from the end, then clamped. */
  function SliceBound(i: int, n: nat): (b: nat)
    ensures b <= n
    ensures 0 <= i <= n ==> b == i
    ensures i > n ==> b == n
    ensures i < 0 && 0 <= i + n ==> b == i + n
    ensures i + n < 0 ==> b == 0
  {
    if i < 0 then (if i + n < 0 then 0 else i + n) else if i > n then n else i
  }

  /** Python's `s[start:stop]`, including negative and out-of-range bounds. */
  function PySlice<T>(s: seq<T>, start: int, stop: int): (r: seq<T>)
    ensures |r| <= |s|
    ensures 0 <= start <= stop <= |s| ==> r == s[start..stop]
  {
    var a := SliceBound(start, |s|);
    var b := SliceBound(stop, |s|);
    if a < b then s[a..b] else []
  }

  /** Python's `s[:n]` for `n >= 0`: the first `n` items, or all of them. */
  function Take<T>(s: seq<T>, n: nat): (r: seq<T>)
    ensures |r| == if n < |s| then n else |s|
    ensures r == s[..|r|]
  {
    if n < |s| then s[..n] else s
  }
}
