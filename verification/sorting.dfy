/**
 * Ascending integer sort, the model of Go's `sort.Ints` used by the ring.
 * `sort.Ints` is not stable, but on integers the sorted permutation of a
 * sequence is unique, so any correct sort yields the same ring.
 */
module Sorting {

  predicate Sorted(s: seq<int>)
  {
    forall i, j | 0 <= i < j < |s| :: s[i] <= s[j]
  }

  /** Inserts `x` into a sorted sequence. */
  function Insert(x: int, s: seq<int>): (r: seq<int>)
    requires Sorted(s)
    ensures Sorted(r)
    ensures multiset(r) == multiset(s) + multiset{x}
  {
    if |s| == 0 then [x]
    else if x <= s[0] then [x] + s
    else
      var t := Insert(x, s[1..]);
      assert s == [s[0]] + s[1..];
      LowerBound(s[0], t, s[1..], x);
      PrependSorted(s[0], t);
      [s[0]] + t
  }

  lemma LowerBound(y: int, t: seq<int>, u: seq<int>, x: int)
    requires multiset(t) == multiset(u) + multiset{x}
    requires y <= x && forall i | 0 <= i < |u| :: y <= u[i]
    ensures forall i | 0 <= i < |t| :: y <= t[i]
  {
    forall i | 0 <= i < |t|
      ensures y <= t[i]
    {
      assert t[i] in multiset(t);
      if t[i] != x {
        assert t[i] in multiset(u);
      }
    }
  }

  lemma PrependSorted(y: int, t: seq<int>)
    requires Sorted(t)
    requires forall i | 0 <= i < |t| :: y <= t[i]
    ensures Sorted([y] + t)
  {
  }

  /** An ascending permutation of `s`. */
  function Sort(s: seq<int>): (r: seq<int>)
    ensures Sorted(r)
    ensures multiset(r) == multiset(s)
  {
    if |s| == 0 then []
    else
      assert s == [s[0]] + s[1..];
      Insert(s[0], Sort(s[1..]))
  }

  /** Two sorted sequences with the same elements are equal. */
  lemma {:induction false} SortedUnique(a: seq<int>, b: seq<int>)
    requires Sorted(a) && Sorted(b)
    requires multiset(a) == multiset(b)
    ensures a == b
  {
    if |a| == 0 {
      assert |b| == |multiset(b)| == 0;
    } else {
      assert |b| == |multiset(b)| == |a|;
      assert a[0] in multiset(b) && b[0] in multiset(a);
      MinimumFirst(a, b[0]);
      MinimumFirst(b, a[0]);
      assert a[0] == b[0];
      assert a == [a[0]] + a[1..];
      assert b == [b[0]] + b[1..];
      assert multiset(a[1..]) == multiset(a) - multiset{a[0]};
      assert multiset(b[1..]) == multiset(b) - multiset{b[0]};
      SortedUnique(a[1..], b[1..]);
    }
  }

  lemma MinimumFirst(s: seq<int>, x: int)
    requires Sorted(s) && x in multiset(s)
    ensures |s| > 0 && s[0] <= x
  {
    assert x in s;
  }

  /** Sorting in two rounds gives the same result as sorting once. */
  lemma SortTwice(k: seq<int>, a: seq<int>, b: seq<int>)
    ensures Sort(Sort(k + a) + b) == Sort(k + (a + b))
  {
    assert k + (a + b) == (k + a) + b;
    assert multiset(Sort(k + a) + b) == multiset(k + (a + b));
    SortedUnique(Sort(Sort(k + a) + b), Sort(k + (a + b)));
  }
}
