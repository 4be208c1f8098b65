/**
 * Python's `sorted` on a list of scores, and counting the scores above and
 * below a value: with these counts, `SortedRank` pins down which entry of
 * the sorted list a threshold is.
 */
module Sorting {
  import opened Base

  /** Ascending order, as `sorted` returns it. */
  predicate SortedAsc(s: seq<real>)
  {
    forall i, j :: 0 <= i < j < |s| ==> s[i] <= s[j]
  }

  /** Puts `x` into an already sorted list. */
  function Insert(x: real, s: seq<real>): (r: seq<real>)
    requires SortedAsc(s)
    ensures SortedAsc(r)
    ensures multiset(r) == multiset(s) + multiset{x}
  {
    if s == [] then [x]
    else if x <= s[0] then [x] + s
    else
      var rest := Insert(x, s[1..]);
      assert s == [s[0]] + s[1..];
      BelowAll(s[0], rest, s[1..], x);
      [s[0]] + rest
  }

  /** A value below `x` and below all of `s` is below every rearrangement of them. */
  lemma BelowAll(y: real, rest: seq<real>, s: seq<real>, x: real)
    requires multiset(rest) == multiset(s) + multiset{x}
    requires y <= x && forall i :: 0 <= i < |s| ==> y <= s[i]
    ensures forall i :: 0 <= i < |rest| ==> y <= rest[i]
  {
    forall i | 0 <= i < |rest| ensures y <= rest[i] {
      assert rest[i] in multiset(rest);
      if rest[i] != x {
        assert rest[i] in multiset(s);
      }
    }
  }

  /** `sorted(s)`: an ascending rearrangement of exactly the same scores. */
  function Sort(s: seq<real>): (r: seq<real>)
    ensures SortedAsc(r)
    ensures multiset(r) == multiset(s)
  {
    if s == [] then []
    else
      assert s == [s[0]] + s[1..];
      Insert(s[0], Sort(s[1..]))
  }

  /** The head of a sorted list is below every score the list holds. */
  lemma SortedHeadIsLeast(s: seq<real>, x: real)
    requires SortedAsc(s) && x in multiset(s)
    ensures s[0] <= x
  {
    var i :| 0 <= i < |s| && s[i] == x;
  }

  lemma SortedTail(s: seq<real>)
    requires SortedAsc(s) && s != []
    ensures SortedAsc(s[1..])
  {
    forall i, j | 0 <= i < j < |s| - 1
      ensures s[1..][i] <= s[1..][j]
    {
      assert s[1..][i] == s[i + 1] && s[1..][j] == s[j + 1];
    }
  }

  /** Two sorted lists holding the same scores are the same list. */
  lemma {:induction false} SortedUnique(a: seq<real>, b: seq<real>)
    requires SortedAsc(a) && SortedAsc(b)
    requires multiset(a) == multiset(b)
    ensures a == b
    decreases |a|
  {
    assert |a| == |multiset(a)| == |multiset(b)| == |b|;
    if a != [] {
      SortedHeadIsLeast(a, b[0]);
      SortedHeadIsLeast(b, a[0]);
      var x := a[0];
      assert b[0] == x;
      assert a == [x] + a[1..];
      assert b == [x] + b[1..];
      assert multiset(a[1..]) == multiset(b[1..]) by {
        assert multiset(a) == multiset{x} + multiset(a[1..]);
        assert multiset(b) == multiset{x} + multiset(b[1..]);
        assert multiset(a[1..]) == multiset(a) - multiset{x};
        assert multiset(b[1..]) == multiset(b) - multiset{x};
      }
      SortedTail(a);
      SortedTail(b);
      SortedUnique(a[1..], b[1..]);
    }
  }

  /** Sorting a rearrangement gives the same list: arrival order is erased. */
  lemma SortOrderFree(a: seq<real>, b: seq<real>)
    requires multiset(a) == multiset(b)
    ensures Sort(a) == Sort(b)
  {
    SortedUnique(Sort(a), Sort(b));
  }

  /** How many of the scores are strictly greater than `t`. */
  function CountAbove(s: seq<real>, t: real): (c: nat)
    ensures c <= |s|
  {
    if s == [] then 0
    else (if s[0] > t then 1 else 0) + CountAbove(s[1..], t)
  }

  lemma {:induction false} CountAboveAppend(a: seq<real>, b: seq<real>, t: real)
    ensures CountAbove(a + b, t) == CountAbove(a, t) + CountAbove(b, t)
    decreases |a|
  {
    if a == [] {
      assert a + b == b;
    } else {
      assert (a + b)[0] == a[0];
      assert (a + b)[1..] == a[1..] + b;
      CountAboveAppend(a[1..], b, t);
    }
  }

  /** The count depends only on which scores there are, not on their order. */
  lemma {:induction false} CountAbovePerm(a: seq<real>, b: seq<real>, t: real)
    requires multiset(a) == multiset(b)
    ensures CountAbove(a, t) == CountAbove(b, t)
    decreases |a|
  {
    if a == [] {
      assert |b| == |multiset(b)| == 0;
    } else {
      var j, rest := PickFirst(a, b);
      var left, right := b[..j], b[j + 1..];
      assert b == left + ([a[0]] + right);
      CountAbovePerm(a[1..], rest, t);
      CountAboveAppend(left, [a[0]] + right, t);
      CountAboveAppend([a[0]], right, t);
      CountAboveAppend(left, right, t);
    }
  }

  /** No score exceeds an upper bound of all of them. */
  lemma {:induction false} CountAboveBound(s: seq<real>, t: real)
    requires forall i :: 0 <= i < |s| ==> s[i] <= t
    ensures CountAbove(s, t) == 0
  {
    if s != [] {
      CountAboveBound(s[1..], t);
    }
  }

  /**
   * In a sorted list, only the elements after index `k` can exceed the
   * element at `k`.
   */
  lemma CountAboveSorted(s: seq<real>, k: nat)
    requires SortedAsc(s) && k < |s|
    ensures CountAbove(s, s[k]) <= |s| - 1 - k
  {
    assert s == s[..k + 1] + s[k + 1..];
    CountAboveAppend(s[..k + 1], s[k + 1..], s[k]);
    CountAboveBound(s[..k + 1], s[k]);
  }

  /** How many scores of `s` are strictly below `t`. */
  function CountBelow(s: seq<real>, t: real): (c: nat)
    ensures c <= |s|
  {
    if s == [] then 0
    else (if s[0] < t then 1 else 0) + CountBelow(s[1..], t)
  }

  lemma {:induction false} CountBelowAppend(a: seq<real>, b: seq<real>, t: real)
    ensures CountBelow(a + b, t) == CountBelow(a, t) + CountBelow(b, t)
    decreases |a|
  {
    if a == [] {
      assert a + b == b;
    } else {
      assert (a + b)[0] == a[0];
      assert (a + b)[1..] == a[1..] + b;
      CountBelowAppend(a[1..], b, t);
    }
  }

  /** The count below a cutoff does not depend on the order of the scores. */
  lemma {:induction false} CountBelowPerm(a: seq<real>, b: seq<real>, t: real)
    requires multiset(a) == multiset(b)
    ensures CountBelow(a, t) == CountBelow(b, t)
    decreases |a|
  {
    if a == [] {
      assert |b| == |multiset(b)| == 0;
    } else {
      var j, rest := PickFirst(a, b);
      var left, right := b[..j], b[j + 1..];
      assert b == left + ([a[0]] + right);
      CountBelowPerm(a[1..], rest, t);
      CountBelowAppend(left, [a[0]] + right, t);
      CountBelowAppend([a[0]], right, t);
      CountBelowAppend(left, right, t);
    }
  }

  /** No score is below a lower bound of all of them. */
  lemma {:induction false} CountBelowNone(s: seq<real>, t: real)
    requires forall i :: 0 <= i < |s| ==> t <= s[i]
    ensures CountBelow(s, t) == 0
  {
    if s != [] {
      CountBelowNone(s[1..], t);
    }
  }

  /** Every score of `s` is counted when all of them exceed `t`. */
  lemma {:induction false} CountAboveAll(s: seq<real>, t: real)
    requires forall i :: 0 <= i < |s| ==> s[i] > t
    ensures CountAbove(s, t) == |s|
  {
    if s != [] {
      CountAboveAll(s[1..], t);
    }
  }

  /** Every score of `s` is counted when all of them are below `t`. */
  lemma {:induction false} CountBelowAll(s: seq<real>, t: real)
    requires forall i :: 0 <= i < |s| ==> s[i] < t
    ensures CountBelow(s, t) == |s|
  {
    if s != [] {
      CountBelowAll(s[1..], t);
    }
  }

  /**
   * In a sorted list, only the elements before index `k` can be below the
   * element at `k`.
   */
  lemma CountBelowSorted(s: seq<real>, k: nat)
    requires SortedAsc(s) && k < |s|
    ensures CountBelow(s, s[k]) <= k
  {
    assert s == s[..k] + s[k..];
    CountBelowAppend(s[..k], s[k..], s[k]);
    CountBelowNone(s[k..], s[k]);
  }

  /**
   * In a sorted list, entry `k` is the only value with at most `k` entries
   * below it and at most `|s| - 1 - k` entries above it.
   */
  lemma SortedRank(s: seq<real>, k: nat, t: real)
    requires SortedAsc(s) && k < |s|
    requires CountBelow(s, t) <= k && CountAbove(s, t) <= |s| - 1 - k
    ensures t == s[k]
  {
    if t < s[k] {
      assert s == s[..k] + s[k..];
      CountAboveAppend(s[..k], s[k..], t);
      CountAboveAll(s[k..], t);
    } else if t > s[k] {
      assert s == s[..k + 1] + s[k + 1..];
      CountBelowAppend(s[..k + 1], s[k + 1..], t);
      CountBelowAll(s[..k + 1], t);
    }
  }
}
