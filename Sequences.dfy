/**
  The array operations the component is built from: `Array.prototype.filter`,
  `Array.prototype.slice(0, n)` and the first-occurrence de-duplication of
  `Array.from(new Set(xs))`, each with the properties that pin it down.
 */
module Sequences {

  /** r can be obtained from s by deleting elements, keeping their order (greedy test). */
  predicate IsSubsequence<T(==,!new)>(r: seq<T>, s: seq<T>)
    decreases |s|
  {
    if r == [] then true
    else if s == [] then false
    else if r[0] == s[0] then IsSubsequence(r[1..], s[1..])
    else IsSubsequence(r, s[1..])
  }

  /**
    `s.filter(keep)`: the elements of s that satisfy keep, in their original order.
    Membership, multiplicity and order together determine the result.
   */
  function Filter<T(==,!new)>(s: seq<T>, keep: T -> bool): (r: seq<T>)
    ensures |r| <= |s|
    ensures forall x :: x in r <==> x in s && keep(x)
    ensures IsSubsequence(r, s)
  {
    if s == [] then []
    else
      var rest := Filter(s[1..], keep);
      if keep(s[0]) then [s[0]] + rest
      else
        assert rest != [] ==> rest[0] in rest;
        rest
  }

  /** The filter keeps every occurrence of a kept element and none of the others. */
  lemma {:induction false} FilterMultiplicity<T(!new)>(s: seq<T>, keep: T -> bool, x: T)
    ensures multiset(Filter(s, keep))[x] == if keep(x) then multiset(s)[x] else 0
  {
    if s != [] {
      assert s == [s[0]] + s[1..];
      FilterMultiplicity(s[1..], keep, x);
    }
  }

  /** Filtering distributes over concatenation. */
  lemma {:induction false} FilterAppend<T(!new)>(a: seq<T>, b: seq<T>, keep: T -> bool)
    ensures Filter(a + b, keep) == Filter(a, keep) + Filter(b, keep)
  {
    if a == [] {
      assert a + b == b;
    } else {
      assert (a + b)[1..] == a[1..] + b;
      FilterAppend(a[1..], b, keep);
    }
  }

  /** A filter that keeps every element is the identity. */
  lemma {:induction false} FilterKeepsAll<T(!new)>(s: seq<T>, keep: T -> bool)
    requires forall x :: x in s ==> keep(x)
    ensures Filter(s, keep) == s
  {
    if s != [] {
      FilterKeepsAll(s[1..], keep);
    }
  }

  /** Two tests that agree on the elements of s filter s alike. */
  lemma {:induction false} FilterCongruent<T(!new)>(s: seq<T>, f: T -> bool, g: T -> bool)
    requires forall x :: x in s ==> f(x) == g(x)
    ensures Filter(s, f) == Filter(s, g)
  {
    if s != [] {
      FilterCongruent(s[1..], f, g);
    }
  }

  /** Filtering by f and then by g is filtering once by their conjunction h. */
  lemma {:induction false} FilterFilter<T(!new)>(s: seq<T>, f: T -> bool, g: T -> bool, h: T -> bool)
    requires forall x :: x in s ==> h(x) == (f(x) && g(x))
    ensures Filter(Filter(s, f), g) == Filter(s, h)
  {
    if s != [] {
      FilterFilter(s[1..], f, g, h);
    }
  }

  /** A prefix of a subsequence of s is a subsequence of s. */
  lemma {:induction false} PrefixOfSubsequence<T(!new)>(r: seq<T>, s: seq<T>, k: nat)
    requires IsSubsequence(r, s)
    requires k <= |r|
    ensures IsSubsequence(r[..k], s)
    decreases |s|
  {
    if k == 0 || r == [] {
    } else if r[0] == s[0] {
      assert r[..k][1..] == r[1..][..k - 1];
      PrefixOfSubsequence(r[1..], s[1..], k - 1);
    } else {
      PrefixOfSubsequence(r, s[1..], k);
    }
  }

  /** `s.slice(0, n)`: the longest prefix of s of length at most n. */
  function Take<T>(s: seq<T>, n: nat): (r: seq<T>)
    ensures |r| == if |s| <= n then |s| else n
    ensures r == s[..|r|]
  {
    if |s| <= n then s else s[..n]
  }

  /** Taking no more than a holds only looks at a. */
  lemma TakeOfAppend<T>(a: seq<T>, b: seq<T>, n: nat)
    requires n <= |a|
    ensures Take(a + b, n) == Take(a, n)
  {
  }

  /**
    The first n elements of a filtered list are everything the filter keeps
    from some prefix of s; when fewer than n are kept, that prefix is all of s.
   */
  lemma {:induction false} TakeOfFilter<T(!new)>(s: seq<T>, keep: T -> bool, n: nat) returns (j: nat)
    ensures j <= |s|
    ensures Take(Filter(s, keep), n) == Filter(s[..j], keep)
    ensures |Filter(s[..j], keep)| < n ==> j == |s|
  {
    if |Filter(s, keep)| <= n {
      j := |s|;
      assert s[..j] == s;
    } else {
      var front, last := s[..|s| - 1], s[|s| - 1];
      assert s == front + [last];
      var kept, tail := Filter(front, keep), Filter([last], keep);
      FilterAppend(front, [last], keep);
      TakeOfAppend(kept, tail, n);
      j := TakeOfFilter(front, keep, n);
      assert front[..j] == s[..j];
    }
  }

  /** Position of the first occurrence of x in s. */
  function FirstIndex<T(==,!new)>(s: seq<T>, x: T): (i: nat)
    requires x in s
    ensures i < |s| && s[i] == x && x !in s[..i]
  {
    if s[0] == x then 0
    else
      assert s[1..][..FirstIndex(s[1..], x)] == s[1..1 + FirstIndex(s[1..], x)];
      1 + FirstIndex(s[1..], x)
  }

  /** The first occurrence of an element of a does not move when b is appended. */
  lemma {:induction false} FirstIndexAppend<T(!new)>(a: seq<T>, b: seq<T>, x: T)
    requires x in a
    ensures FirstIndex(a + b, x) == FirstIndex(a, x)
  {
    if a[0] != x {
      assert (a + b)[1..] == a[1..] + b;
      FirstIndexAppend(a[1..], b, x);
    }
  }

  predicate NoDuplicates<T(==,!new)>(s: seq<T>) {
    forall i, j :: 0 <= i < j < |s| ==> s[i] != s[j]
  }

  /**
    `Array.from(new Set(s))`: each distinct element of s once, in the order of
    its first occurrence in s.
   */
  function Dedup<T(==,!new)>(s: seq<T>): (r: seq<T>)
    ensures forall x :: x in r <==> x in s
    ensures NoDuplicates(r)
    ensures forall i, j :: 0 <= i < j < |r| ==> FirstIndex(s, r[i]) < FirstIndex(s, r[j])
    decreases |s|
  {
    if s == [] then []
    else
      var front, last := s[..|s| - 1], s[|s| - 1];
      assert s == front + [last];
      var r := Dedup(front);
      DedupStep(front, last, r);
      if last in r then r else r + [last]
  }

  /** One insertion into the set keeps the first-occurrence order. */
  lemma DedupStep<T(!new)>(front: seq<T>, last: T, r: seq<T>)
    requires forall x :: x in r <==> x in front
    requires forall i, j :: 0 <= i < j < |r| ==> FirstIndex(front, r[i]) < FirstIndex(front, r[j])
    ensures forall i :: 0 <= i < |r| ==> FirstIndex(front + [last], r[i]) == FirstIndex(front, r[i])
    ensures last !in r ==> FirstIndex(front + [last], last) == |front|
  {
    forall i | 0 <= i < |r|
      ensures FirstIndex(front + [last], r[i]) == FirstIndex(front, r[i])
    {
      FirstIndexAppend(front, [last], r[i]);
    }
    if last !in r {
      var s := front + [last];
      assert s[..|front|] == front;
      assert s[|front|] == last;
    }
  }

  /** Sequences drawn from s and strictly ordered by first occurrence in s. */
  ghost predicate OrderedByFirstOccurrence<T(!new)>(s: seq<T>, r: seq<T>) {
    && (forall x :: x in r ==> x in s)
    && (forall i, j :: 0 <= i < j < |r| ==> FirstIndex(s, r[i]) < FirstIndex(s, r[j]))
  }

  /** The element that occurs first in s is at the head of both. */
  lemma OrderedHeads<T(!new)>(s: seq<T>, a: seq<T>, b: seq<T>)
    requires OrderedByFirstOccurrence(s, a) && OrderedByFirstOccurrence(s, b)
    requires forall x :: x in a <==> x in b
    requires a != [] && b != []
    ensures a[0] == b[0]
  {
    assert a[0] in b && b[0] in a;
    assert forall i :: 0 <= i < |a| ==> FirstIndex(s, a[0]) <= FirstIndex(s, a[i]);
    assert forall i :: 0 <= i < |b| ==> FirstIndex(s, b[0]) <= FirstIndex(s, b[i]);
    var m :| 0 <= m < |a| && a[m] == b[0];
    var k :| 0 <= k < |b| && b[k] == a[0];
    assert FirstIndex(s, a[0]) <= FirstIndex(s, a[m]);
    assert FirstIndex(s, b[0]) <= FirstIndex(s, b[k]);
    assert a[0] == s[FirstIndex(s, a[0])];
    assert b[0] == s[FirstIndex(s, b[0])];
  }

  /** Without the head, what is left of an ordered sequence has the other elements. */
  lemma OrderedTail<T(!new)>(s: seq<T>, a: seq<T>)
    requires OrderedByFirstOccurrence(s, a) && a != []
    ensures OrderedByFirstOccurrence(s, a[1..])
    ensures forall x :: x in a[1..] <==> x in a && x != a[0]
  {
    forall x | x in a[1..] ensures x != a[0] {
      var i :| 1 <= i < |a| && a[i] == x;
      assert FirstIndex(s, a[0]) < FirstIndex(s, a[i]);
    }
    forall x | x in a && x != a[0] ensures x in a[1..] {
      var i :| 0 <= i < |a| && a[i] == x;
      assert a[i] == a[1..][i - 1];
    }
  }

  lemma SameElementsBothEmpty<T>(a: seq<T>, b: seq<T>)
    requires forall x :: x in a <==> x in b
    ensures a == [] <==> b == []
  {
    if a != [] {
      assert a[0] in b;
    }
    if b != [] {
      assert b[0] in a;
    }
  }

  /** Two such sequences with the same elements are equal. */
  lemma {:induction false} OrderedByFirstOccurrenceUnique<T(!new)>(s: seq<T>, a: seq<T>, b: seq<T>)
    requires OrderedByFirstOccurrence(s, a) && OrderedByFirstOccurrence(s, b)
    requires forall x :: x in a <==> x in b
    ensures a == b
    decreases |a|
  {
    SameElementsBothEmpty(a, b);
    if a != [] {
      OrderedHeads(s, a, b);
      OrderedTail(s, a);
      OrderedTail(s, b);
      OrderedByFirstOccurrenceUnique(s, a[1..], b[1..]);
      assert a == [a[0]] + a[1..];
      assert b == [b[0]] + b[1..];
    }
  }

  /**
    Dedup is the only sequence holding the elements of s once each in
    first-occurrence order.
   */
  lemma DedupUnique<T(!new)>(s: seq<T>, r: seq<T>)
    requires forall x :: x in r <==> x in s
    requires forall i, j :: 0 <= i < j < |r| ==> FirstIndex(s, r[i]) < FirstIndex(s, r[j])
    ensures r == Dedup(s)
  {
    OrderedByFirstOccurrenceUnique(s, r, Dedup(s));
  }
}
