/**
 * Order facts about finite multisets of integers: the least and the greatest
 * element, the ascending listing of a multiset (a full sort), and the
 * statistical median defined from that listing.
 */
module Multisets {

  ghost predicate Sorted(s: seq<int>)
  {
    forall i, j :: 0 <= i < j < |s| ==> s[i] <= s[j]
  }

  lemma HasElement(m: multiset<int>)
    requires |m| > 0
    ensures exists x :: x in m
  {
    if forall x :: x !in m { assert false; }
  }

  lemma SortedCons(x: int, rest: seq<int>)
    requires Sorted(rest) && forall j :: 0 <= j < |rest| ==> x <= rest[j]
    ensures Sorted([x] + rest)
  {
    var s := [x] + rest;
    forall i, j | 0 <= i < j < |s| ensures s[i] <= s[j] {
      if i == 0 {
        assert s[j] == rest[j - 1];
      } else {
        assert s[i] == rest[i - 1] && s[j] == rest[j - 1];
      }
    }
  }

  /** A non-empty multiset has an element that no other element undercuts. */
  lemma {:induction false} MinExists(m: multiset<int>)
    requires |m| > 0
    ensures exists r :: r in m && forall y :: y in m ==> r <= y
    decreases |m|
  {
    HasElement(m);
    var x :| x in m;
    var rest := m - multiset{x};
    assert |rest| == |m| - 1;
    if |rest| == 0 {
      assert rest == multiset{};
      forall y | y in m ensures x <= y {
        assert m[y] == rest[y] + multiset{x}[y];
      }
    } else {
      MinExists(rest);
      var r :| r in rest && forall y :: y in rest ==> r <= y;
      var least := if x <= r then x else r;
      forall y | y in m ensures least <= y {
        assert m[y] == rest[y] + multiset{x}[y];
      }
      assert least in m;
    }
  }

  /** A non-empty multiset has an element that no other element exceeds. */
  lemma {:induction false} MaxExists(m: multiset<int>)
    requires |m| > 0
    ensures exists r :: r in m && forall y :: y in m ==> y <= r
    decreases |m|
  {
    HasElement(m);
    var x :| x in m;
    var rest := m - multiset{x};
    assert |rest| == |m| - 1;
    if |rest| == 0 {
      assert rest == multiset{};
      forall y | y in m ensures y <= x {
        assert m[y] == rest[y] + multiset{x}[y];
      }
    } else {
      MaxExists(rest);
      var r :| r in rest && forall y :: y in rest ==> y <= r;
      var greatest := if x >= r then x else r;
      forall y | y in m ensures y <= greatest {
        assert m[y] == rest[y] + multiset{x}[y];
      }
      assert greatest in m;
    }
  }

  /** The least element of a non-empty multiset (that no element undercuts
      it is MinOfLeast). */
  ghost function MinOf(m: multiset<int>): (r: int)
    requires |m| > 0
    ensures r in m
  {
    MinExists(m);
    var r :| r in m && forall y :: y in m ==> r <= y; r
  }

  /** The greatest element of a non-empty multiset (that no element exceeds
      it is MaxOfGreatest). */
  ghost function MaxOf(m: multiset<int>): (r: int)
    requires |m| > 0
    ensures r in m
  {
    MaxExists(m);
    var r :| r in m && forall y :: y in m ==> y <= r; r
  }

  lemma MinOfLeast(m: multiset<int>)
    requires |m| > 0
    ensures forall y :: y in m ==> MinOf(m) <= y
  {
    MinExists(m);
  }

  lemma MaxOfGreatest(m: multiset<int>)
    requires |m| > 0
    ensures forall y :: y in m ==> y <= MaxOf(m)
  {
    MaxExists(m);
  }

  /** An element below all others is the least. */
  lemma MinOfIs(m: multiset<int>, r: int)
    requires r in m && forall y :: y in m ==> r <= y
    ensures MinOf(m) == r
  {
    MinOfLeast(m);
    assert MinOf(m) <= r && r <= MinOf(m);
  }

  /** An element above all others is the greatest. */
  lemma MaxOfIs(m: multiset<int>, r: int)
    requires r in m && forall y :: y in m ==> y <= r
    ensures MaxOf(m) == r
  {
    MaxOfGreatest(m);
    assert MaxOf(m) <= r && r <= MaxOf(m);
  }

  /** The elements of `m` in ascending order: repeatedly take the least. */
  ghost function SortedOf(m: multiset<int>): (s: seq<int>)
    ensures |s| == |m|
    decreases |m|
  {
    if |m| == 0 then [] else [MinOf(m)] + SortedOf(m - multiset{MinOf(m)})
  }

  /** SortedOf is a full sort: ascending, and a permutation of its argument. */
  lemma {:induction false} SortedOfSorts(m: multiset<int>)
    ensures Sorted(SortedOf(m))
    ensures multiset(SortedOf(m)) == m
    decreases |m|
  {
    if |m| == 0 {
      assert m == multiset{};
    } else {
      var x := MinOf(m);
      var rest := SortedOf(m - multiset{x});
      SortedOfSorts(m - multiset{x});
      SortedOfFirst(m);
      LeastBelowRest(m, x, rest);
      SortedCons(x, rest);
      assert multiset([x] + rest) == multiset{x} + multiset(rest);
      PutBack(m, x);
    }
  }

  /** The least element is below every element of a listing of the rest. */
  lemma LeastBelowRest(m: multiset<int>, x: int, rest: seq<int>)
    requires |m| > 0 && x == MinOf(m) && multiset(rest) == m - multiset{x}
    ensures forall j :: 0 <= j < |rest| ==> x <= rest[j]
  {
    MinOfLeast(m);
    forall j | 0 <= j < |rest| ensures x <= rest[j] {
      assert rest[j] in multiset(rest);
      assert rest[j] in m;
    }
  }

  lemma PutBack(m: multiset<int>, x: int)
    requires x in m
    ensures multiset{x} + (m - multiset{x}) == m
  {
    assert forall y :: (multiset{x} + (m - multiset{x}))[y] == m[y];
  }

  // Regrouping a concatenation, kept as a lemma so that the step is checked
  // apart from the larger context of SortedOfSplit.
  lemma ConcatAssoc(a: seq<int>, b: seq<int>, c: seq<int>)
    ensures a + (b + c) == (a + b) + c
  {
  }

  lemma SortedOfFirst(m: multiset<int>)
    requires |m| > 0
    ensures SortedOf(m) == [MinOf(m)] + SortedOf(m - multiset{MinOf(m)})
  {
  }

  /** Listing a union whose left part lies wholly below its right part puts the
      left listing first. */
  lemma {:induction false} SortedOfSplit(l: multiset<int>, u: multiset<int>)
    requires forall a, b :: a in l && b in u ==> a <= b
    ensures SortedOf(l + u) == SortedOf(l) + SortedOf(u)
    decreases |l|
  {
    if |l| == 0 {
      assert l == multiset{};
      assert l + u == u;
    } else {
      var x := MinOf(l);
      var l' := l - multiset{x};
      MinOfLeast(l);
      forall y | y in l + u ensures x <= y {
        assert (l + u)[y] == l[y] + u[y];
      }
      MinOfIs(l + u, x);
      assert (l + u) - multiset{x} == l' + u by {
        assert forall y :: ((l + u) - multiset{x})[y] == (l' + u)[y];
      }
      forall a, b | a in l' && b in u ensures a <= b {
        assert l'[a] <= l[a];
      }
      SortedOfSplit(l', u);
      SortedOfFirst(l + u);
      SortedOfFirst(l);
      ConcatAssoc([x], SortedOf(l'), SortedOf(u));
      calc {
        SortedOf(l + u);
        [x] + SortedOf(l' + u);
        [x] + (SortedOf(l') + SortedOf(u));
        ([x] + SortedOf(l')) + SortedOf(u);
        SortedOf(l) + SortedOf(u);
      }
    }
  }

  lemma SortedLastIsMax(s: seq<int>)
    requires Sorted(s) && |s| > 0
    ensures s[|s| - 1] == MaxOf(multiset(s))
  {
    forall y | y in multiset(s) ensures y <= s[|s| - 1] {
      var k :| 0 <= k < |s| && s[k] == y;
    }
    MaxOfIs(multiset(s), s[|s| - 1]);
  }

  /** The ascending listing ends with the greatest element. */
  lemma SortedOfEndsWithMax(m: multiset<int>)
    requires |m| > 0
    ensures SortedOf(m)[|m| - 1] == MaxOf(m)
  {
    SortedOfSorts(m);
    SortedLastIsMax(SortedOf(m));
  }

  /** The statistical median: the middle element of the sorted values, or the
      mean of the two middle elements when there is an even number of them. */
  ghost function StatMedian(m: multiset<int>): real
    requires |m| > 0
  {
    var s := SortedOf(m);
    var n := |s|;
    if n % 2 == 1 then s[n / 2] as real
    else (s[n / 2 - 1] + s[n / 2]) as real / 2.0
  }
}
