/**
 Ascending sort of latencies, as Python's `sorted` does it. The model sorts
 by insertion; `SortedPermutationUnique` shows that any other correct sort,
 Python's included, returns the same sequence.
 */
module Sorting {

  predicate SortedAsc(s: seq<nat>) {
    forall i, j :: 0 <= i < j < |s| ==> s[i] <= s[j]
  }

  /** Every element of `s` is at least `lo`. */
  predicate AllAtLeast(s: seq<nat>, lo: nat) {
    forall i :: 0 <= i < |s| ==> lo <= s[i]
  }

  lemma {:induction false} MultisetLowerBound(s: seq<nat>, t: seq<nat>, lo: nat)
    requires AllAtLeast(s, lo)
    requires multiset(t) <= multiset(s)
    ensures AllAtLeast(t, lo)
  {
    forall i | 0 <= i < |t|
      ensures lo <= t[i]
    {
      assert t[i] in multiset(t);
      assert t[i] in multiset(s);
    }
  }

  /** A lower bound of an ascending sequence can be put in front of it. */
  lemma {:induction false} PrependLeast(a: nat, t: seq<nat>)
    requires SortedAsc(t) && AllAtLeast(t, a)
    ensures SortedAsc([a] + t)
  {
  }

  /** Inserts `x` into the sorted sequence `s` at the first place that keeps it sorted. */
  function Insert(x: nat, s: seq<nat>): (r: seq<nat>)
    requires SortedAsc(s)
    ensures SortedAsc(r)
    ensures multiset(r) == multiset(s) + multiset{x}
    ensures |r| == |s| + 1
    decreases |s|
  {
    if |s| == 0 then [x]
    else if x <= s[0] then [x] + s
    else
      var rest := s[1..];
      var t := Insert(x, rest);
      assert s == [s[0]] + rest;
      assert AllAtLeast(t, s[0]) by {
        assert AllAtLeast(rest + [x], s[0]);
        assert multiset(rest + [x]) == multiset(t);
        MultisetLowerBound(rest + [x], t, s[0]);
      }
      PrependLeast(s[0], t);
      [s[0]] + t
  }

  /** `s` in ascending order. */
  function Sort(s: seq<nat>): (r: seq<nat>)
    ensures SortedAsc(r)
    ensures |r| == |s|
    decreases |s|
  {
    if |s| == 0 then [] else Insert(s[0], Sort(s[1..]))
  }

  /** A non-empty sequence holds its head and the elements of its tail. */
  lemma {:induction false} HeadTailMultiset(s: seq<nat>)
    requires |s| > 0
    ensures multiset(s) == multiset{s[0]} + multiset(s[1..])
    ensures multiset(s[1..]) == multiset(s) - multiset{s[0]}
  {
    assert s == [s[0]] + s[1..];
  }

  /** Sorting only reorders: the result holds each element as often as `s` does. */
  lemma {:induction false} SortPermutes(s: seq<nat>)
    ensures multiset(Sort(s)) == multiset(s)
    decreases |s|
  {
    if |s| > 0 {
      SortPermutes(s[1..]);
      HeadTailMultiset(s);
    }
  }

  /** The head of an ascending sequence is at most each of its elements. */
  lemma {:induction false} HeadIsLeast(a: seq<nat>, x: nat)
    requires SortedAsc(a) && x in multiset(a)
    ensures |a| > 0 && a[0] <= x
  {
  }

  /** Two ascending sequences with the same elements are equal: sorting has one answer. */
  lemma {:induction false} SortedPermutationUnique(a: seq<nat>, b: seq<nat>)
    requires SortedAsc(a) && SortedAsc(b)
    requires multiset(a) == multiset(b)
    ensures a == b
    decreases |a|
  {
    assert |a| == |multiset(a)| == |multiset(b)| == |b|;
    if |a| > 0 {
      HeadIsLeast(b, a[0]);
      HeadIsLeast(a, b[0]);
      var a', b' := a[1..], b[1..];
      assert a == [a[0]] + a';
      assert b == [b[0]] + b';
      assert a[0] == b[0];
      HeadTailMultiset(a);
      HeadTailMultiset(b);
      SortedPermutationUnique(a', b');
    }
  }

  /** Sorting an ascending sequence leaves it unchanged. */
  lemma {:induction false} SortOfSorted(s: seq<nat>)
    requires SortedAsc(s)
    ensures Sort(s) == s
  {
    SortPermutes(s);
    SortedPermutationUnique(Sort(s), s);
  }

  /** The last element of an ascending sequence is at least each of its elements. */
  lemma {:induction false} LastIsGreatest(a: seq<nat>, x: nat)
    requires SortedAsc(a) && x in multiset(a)
    ensures |a| > 0 && x <= a[|a| - 1]
  {
  }

  /** In an ascending permutation of `s`, the first and last elements bound every element of `s` and occur in `s`. */
  lemma {:induction false} SortedEnds(s: seq<nat>, r: seq<nat>)
    requires |s| > 0 && SortedAsc(r) && multiset(r) == multiset(s)
    ensures |r| == |s|
    ensures forall i :: 0 <= i < |s| ==> r[0] <= s[i] <= r[|r| - 1]
    ensures r[0] in s && r[|r| - 1] in s
  {
    assert |r| == |multiset(r)| == |multiset(s)| == |s|;
    forall i | 0 <= i < |s|
      ensures r[0] <= s[i] <= r[|r| - 1]
    {
      assert s[i] in multiset(s);
      HeadIsLeast(r, s[i]);
      LastIsGreatest(r, s[i]);
    }
    assert r[0] in multiset(r) && r[|r| - 1] in multiset(r);
  }

  /* ---------- ranks ---------- */

  /** How many elements of `s` are below `v`. */
  function CountBelow(s: seq<nat>, v: nat): (c: nat)
    ensures c <= |s|
  {
    if |s| == 0 then 0 else (if s[0] < v then 1 else 0) + CountBelow(s[1..], v)
  }

  /**
   `x` is the element of rank `k` (counting from 0) of `s`: at most `k`
   elements lie below it and more than `k` lie at or below it. This says
   what `sorted(s)[k]` is without sorting.
   */
  ghost predicate HasRank(s: seq<nat>, x: nat, k: nat) {
    CountBelow(s, x) <= k < CountBelow(s, x + 1)
  }

  lemma {:induction false} CountBelowAppend(a: seq<nat>, b: seq<nat>, v: nat)
    ensures CountBelow(a + b, v) == CountBelow(a, v) + CountBelow(b, v)
    decreases |a|
  {
    if |a| == 0 {
      assert a + b == b;
    } else {
      CountBelowAppend(a[1..], b, v);
      assert (a + b)[1..] == a[1..] + b;
    }
  }

  lemma {:induction false} CountBelowMonotone(s: seq<nat>, v: nat, w: nat)
    requires v <= w
    ensures CountBelow(s, v) <= CountBelow(s, w)
    decreases |s|
  {
    if |s| > 0 {
      CountBelowMonotone(s[1..], v, w);
    }
  }

  /** When no element is below `v`, the count is zero. */
  lemma {:induction false} CountBelowNone(s: seq<nat>, v: nat)
    requires forall i :: 0 <= i < |s| ==> v <= s[i]
    ensures CountBelow(s, v) == 0
    decreases |s|
  {
    if |s| > 0 {
      CountBelowNone(s[1..], v);
    }
  }

  /** When every element is below `v`, the count is the length. */
  lemma {:induction false} CountBelowAll(s: seq<nat>, v: nat)
    requires forall i :: 0 <= i < |s| ==> s[i] < v
    ensures CountBelow(s, v) == |s|
    decreases |s|
  {
    if |s| > 0 {
      CountBelowAll(s[1..], v);
    }
  }

  /** Counting does not see the order: permutations have the same counts. */
  lemma {:induction false} CountBelowPermutation(a: seq<nat>, b: seq<nat>, v: nat)
    requires multiset(a) == multiset(b)
    ensures CountBelow(a, v) == CountBelow(b, v)
    decreases |a|
  {
    if |a| == 0 {
      assert |b| == |multiset(b)| == 0;
    } else {
      var x := a[0];
      assert x in multiset(b);
      var j :| 0 <= j < |b| && b[j] == x;
      var rest := b[..j] + b[j + 1..];
      assert b == b[..j] + ([x] + b[j + 1..]);
      assert multiset(b) == multiset(b[..j]) + multiset{x} + multiset(b[j + 1..]);
      assert a == [x] + a[1..];
      assert multiset(a[1..]) == multiset(a) - multiset{x};
      assert multiset(rest) == multiset(b[..j]) + multiset(b[j + 1..]);
      assert multiset(rest) == multiset(b) - multiset{x};
      CountBelowPermutation(a[1..], rest, v);
      CountBelowAppend(b[..j], [x] + b[j + 1..], v);
      CountBelowAppend(b[..j], b[j + 1..], v);
      assert ([x] + b[j + 1..])[1..] == b[j + 1..];
    }
  }

  /** Rank is a property of the elements, not of their order. */
  lemma {:induction false} RankPermutation(a: seq<nat>, b: seq<nat>, x: nat, k: nat)
    requires multiset(a) == multiset(b) && HasRank(a, x, k)
    ensures HasRank(b, x, k)
  {
    CountBelowPermutation(a, b, x);
    CountBelowPermutation(a, b, x + 1);
  }

  /** Each rank has at most one element: `HasRank` pins the value down. */
  lemma {:induction false} RankUnique(s: seq<nat>, x: nat, y: nat, k: nat)
    requires HasRank(s, x, k) && HasRank(s, y, k)
    ensures x == y
  {
    if x < y {
      CountBelowMonotone(s, x + 1, y);
    } else if y < x {
      CountBelowMonotone(s, y + 1, x);
    }
  }

  /** Entry `k` of an ascending sequence has rank `k`. */
  lemma {:induction false} SortedRank(r: seq<nat>, k: nat)
    requires SortedAsc(r) && k < |r|
    ensures HasRank(r, r[k], k)
  {
    assert r == r[..k] + r[k..];
    CountBelowAppend(r[..k], r[k..], r[k]);
    CountBelowNone(r[k..], r[k]);
    assert r == r[..k + 1] + r[k + 1..];
    CountBelowAppend(r[..k + 1], r[k + 1..], r[k] + 1);
    CountBelowAll(r[..k + 1], r[k] + 1);
  }
}
