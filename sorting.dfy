/**
 * Ordering helpers: `ORDER BY key` as an insertion sort on an integer key,
 * and Python's `sorted(set(strings))` with the code-point lexicographic
 * order on strings.
 */
module Sorting {

  // ------------------------------------------------------- order by int key

  predicate SortedBy<T>(s: seq<T>, key: T -> int) {
    forall i, j :: 0 <= i < j < |s| ==> key(s[i]) <= key(s[j])
  }

  /** Insert `x` after every element whose key is at most `key(x)`. */
  function InsertBy<T>(s: seq<T>, x: T, key: T -> int): (r: seq<T>)
    requires SortedBy(s, key)
    ensures SortedBy(r, key)
    ensures multiset(r) == multiset(s) + multiset{x}
    decreases |s|
  {
    if |s| == 0 then [x]
    else if key(s[|s| - 1]) <= key(x) then s + [x]
    else
      var init, last := s[..|s| - 1], s[|s| - 1];
      assert s == init + [last];
      var t := InsertBy(init, x, key);
      BoundedBelowLast(s, x, t, key);
      AppendLargest(t, last, key);
      t + [last]
  }

  /** Every element of `init + [x]` sorts no later than the last of `s`. */
  lemma BoundedBelowLast<T>(s: seq<T>, x: T, t: seq<T>, key: T -> int)
    requires SortedBy(s, key) && |s| > 0 && key(x) < key(s[|s| - 1])
    requires multiset(t) == multiset(s[..|s| - 1]) + multiset{x}
    ensures forall k :: 0 <= k < |t| ==> key(t[k]) <= key(s[|s| - 1])
  {
    forall k | 0 <= k < |t| ensures key(t[k]) <= key(s[|s| - 1]) {
      assert t[k] in multiset(t);
      if t[k] != x {
        assert t[k] in multiset(s[..|s| - 1]);
        var i :| 0 <= i < |s| - 1 && s[..|s| - 1][i] == t[k];
        assert s[i] == t[k];
      }
    }
  }

  lemma AppendLargest<T>(t: seq<T>, last: T, key: T -> int)
    requires SortedBy(t, key)
    requires forall k :: 0 <= k < |t| ==> key(t[k]) <= key(last)
    ensures SortedBy(t + [last], key)
  {
  }

  /** `ORDER BY key ASC`: a sorted permutation. */
  function SortBy<T>(s: seq<T>, key: T -> int): (r: seq<T>)
    ensures SortedBy(r, key)
    ensures multiset(r) == multiset(s)
    ensures |r| == |s|
    decreases |s|
  {
    if |s| == 0 then []
    else
      assert s == s[..|s| - 1] + [s[|s| - 1]];
      var r := InsertBy(SortBy(s[..|s| - 1], key), s[|s| - 1], key);
      assert |r| == |multiset(r)| == |multiset(s)| == |s|;
      r
  }

  /** The sorted sequence has the members of the input. */
  lemma SortBySameMembers<T>(s: seq<T>, key: T -> int)
    ensures forall x :: x in SortBy(s, key) <==> x in s
  {
    forall x ensures x in SortBy(s, key) <==> x in s {
      SortByMembers(s, key, x);
    }
  }

  lemma SortByMembers<T>(s: seq<T>, key: T -> int, x: T)
    ensures x in SortBy(s, key) <==> x in s
  {
    var r := SortBy(s, key);
    assert x in r <==> x in multiset(r);
    assert x in s <==> x in multiset(s);
  }

  // -------------------------------------------------- lexicographic strings

  /** Python's `<` on `str`: code-point lexicographic order. */
  predicate StrLt(a: string, b: string)
    decreases |a|
  {
    if |a| == 0 then |b| > 0
    else if |b| == 0 then false
    else a[0] < b[0] || (a[0] == b[0] && StrLt(a[1..], b[1..]))
  }

  lemma {:induction false} StrLtIrreflexive(a: string)
    ensures !StrLt(a, a)
    decreases |a|
  {
    if |a| > 0 { StrLtIrreflexive(a[1..]); }
  }

  lemma {:induction false} StrLtTransitive(a: string, b: string, c: string)
    requires StrLt(a, b) && StrLt(b, c)
    ensures StrLt(a, c)
    decreases |a|
  {
    if |a| > 0 && |b| > 0 && |c| > 0 && a[0] == b[0] && b[0] == c[0] {
      StrLtTransitive(a[1..], b[1..], c[1..]);
    }
  }

  lemma {:induction false} StrLtTotal(a: string, b: string)
    requires a != b
    ensures StrLt(a, b) || StrLt(b, a)
    decreases |a|
  {
    if |a| > 0 && |b| > 0 && a[0] == b[0] {
      assert a == [a[0]] + a[1..] && b == [b[0]] + b[1..];
      StrLtTotal(a[1..], b[1..]);
    }
  }

  predicate StrictlySorted(s: seq<string>) {
    forall i, j :: 0 <= i < j < |s| ==> StrLt(s[i], s[j])
  }

  lemma StrictlySortedDistinct(s: seq<string>, i: nat, j: nat)
    requires StrictlySorted(s) && i < j < |s|
    ensures s[i] != s[j]
  {
    StrLtIrreflexive(s[i]);
  }

  /** Insert `x` into a strictly sorted list unless it is already there. */
  function InsertUnique(s: seq<string>, x: string): (r: seq<string>)
    requires StrictlySorted(s)
    ensures StrictlySorted(r)
    ensures forall y :: y in r <==> y in s || y == x
    decreases |s|
  {
    if |s| == 0 then [x]
    else if s[|s| - 1] == x then s
    else if StrLt(s[|s| - 1], x) then
      var r := s + [x];
      forall i, j | 0 <= i < j < |r| ensures StrLt(r[i], r[j]) {
        if j == |s| && i < |s| - 1 { StrLtTransitive(s[i], s[|s| - 1], x); }
      }
      r
    else
      var init := s[..|s| - 1];
      var last := s[|s| - 1];
      assert s == init + [last];
      StrLtTotal(last, x);
      var t := InsertUnique(init, x);
      var r := t + [last];
      forall i, j | 0 <= i < j < |r| ensures StrLt(r[i], r[j]) {
        if j == |t| {
          assert r[i] in t;
          if r[i] != x {
            var k :| 0 <= k < |init| && init[k] == r[i];
            assert s[k] == r[i];
          }
        }
      }
      r
  }

  /** Python's `sorted(set(items))`: each item once, in ascending order. */
  function SortedUnique(items: seq<string>): (r: seq<string>)
    ensures StrictlySorted(r)
    ensures forall y :: y in r <==> y in items
    decreases |items|
  {
    if |items| == 0 then []
    else
      assert items == items[..|items| - 1] + [items[|items| - 1]];
      InsertUnique(SortedUnique(items[..|items| - 1]), items[|items| - 1])
  }

  /** A strictly sorted list is determined by its elements. */
  lemma {:induction false} StrictlySortedUnique(a: seq<string>, b: seq<string>)
    requires StrictlySorted(a) && StrictlySorted(b)
    requires forall y :: y in a <==> y in b
    ensures a == b
    decreases |a|
  {
    if |a| > 0 {
      assert a[0] in a;
      assert |b| > 0;
      if a[0] != b[0] {
        assert b[0] in a;
        var i :| 0 <= i < |b| && b[i] == a[0];
        var j :| 0 <= j < |a| && a[j] == b[0];
        StrLtTransitive(a[0], b[0], a[0]);
        StrLtIrreflexive(a[0]);
        assert false;
      }
      var a1, b1 := a[1..], b[1..];
      forall y ensures y in a1 <==> y in b1 {
        if y in a1 {
          var k :| 0 <= k < |a1| && a1[k] == y;
          assert a[k + 1] == y;
          assert y in b;
          var m :| 0 <= m < |b| && b[m] == y;
          if m == 0 { StrLtIrreflexive(y); }
          assert b1[m - 1] == y;
        }
        if y in b1 {
          var k :| 0 <= k < |b1| && b1[k] == y;
          assert b[k + 1] == y;
          assert y in a;
          var m :| 0 <= m < |a| && a[m] == y;
          if m == 0 { StrLtIrreflexive(y); }
          assert a1[m - 1] == y;
        }
      }
      StrictlySortedUnique(a1, b1);
      assert a == [a[0]] + a1 && b == [b[0]] + b1;
    } else {
      HeadIsMember(b);
    }
  }

  lemma HeadIsMember(b: seq<string>)
    ensures |b| > 0 ==> b[0] in b
  {
  }
}
