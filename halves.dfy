/**
 * The tracker's state as values: the lower half (the max-heap's integers,
 * with their true sign) and the upper half (the min-heap's integers), with
 * the placement table of add_number and the median read of get_median stated
 * over them. Run replays a whole stream from the empty state.
 */
module StreamMedian {
  import opened Multisets

  datatype Halves = Halves(lower: multiset<int>, upper: multiset<int>)

  const Empty: Halves := Halves(multiset{}, multiset{})

  /** Both roots that get_median reads exist: the lower root always, the upper
      root unless the lower half is strictly larger. */
  predicate CanReadMedian(h: Halves)
  {
    |h.lower| > 0 && (|h.lower| > |h.upper| || |h.upper| > 0)
  }

  /** get_median: the lower maximum when the lower half is strictly larger,
      otherwise the mean of the lower maximum and the upper minimum. */
  ghost function Median(h: Halves): real
    requires CanReadMedian(h)
  {
    if |h.lower| > |h.upper| then MaxOf(h.lower) as real
    else (MaxOf(h.lower) + MinOf(h.upper)) as real / 2.0
  }

  /** When the halves are ordered, the value get_median reports lies between
      the lower maximum and, if there is one, the upper minimum. */
  lemma MedianBetweenRoots(h: Halves)
    requires CanReadMedian(h) && Ordered(h)
    ensures MaxOf(h.lower) as real <= Median(h)
    ensures |h.upper| > 0 ==> Median(h) <= MinOf(h.upper) as real
  {
    if |h.upper| > 0 {
      assert MaxOf(h.lower) <= MinOf(h.upper);
    }
  }

  /** add_number's placement table, applied to the state before the insert. */
  ghost function Place(h: Halves, x: int): (r: Halves)
    requires h == Empty || CanReadMedian(h)
    ensures r.lower + r.upper == h.lower + h.upper + multiset{x}
  {
    if h == Empty then Halves(multiset{x}, multiset{})
    else
      var m := Median(h);
      if |h.lower| == |h.upper| then
        if x as real > m then Halves(h.lower, h.upper + multiset{x})
        else Halves(h.lower + multiset{x}, h.upper)
      else if |h.lower| > |h.upper| then
        if (x as real) < m then
          var grown := h.lower + multiset{x};
          var moved := MaxOf(grown);
          Halves(grown - multiset{moved}, h.upper + multiset{moved})
        else Halves(h.lower, h.upper + multiset{x})
      else
        if x as real > m then
          var grown := h.upper + multiset{x};
          var moved := MinOf(grown);
          Halves(h.lower + multiset{moved}, grown - multiset{moved})
        else Halves(h.lower + multiset{x}, h.upper)
  }

  // The next three lemmas only unfold one branch of Place for callers.
  lemma PlaceWhenEqual(h: Halves, x: int)
    requires CanReadMedian(h) && |h.lower| == |h.upper|
    ensures x as real > Median(h) ==> Place(h, x) == Halves(h.lower, h.upper + multiset{x})
    ensures !(x as real > Median(h)) ==> Place(h, x) == Halves(h.lower + multiset{x}, h.upper)
  {
  }

  lemma PlaceWhenLowerLarger(h: Halves, x: int)
    requires CanReadMedian(h) && |h.lower| > |h.upper|
    ensures (x as real) < Median(h) ==>
      var grown := h.lower + multiset{x};
      Place(h, x) == Halves(grown - multiset{MaxOf(grown)}, h.upper + multiset{MaxOf(grown)})
    ensures !((x as real) < Median(h)) ==> Place(h, x) == Halves(h.lower, h.upper + multiset{x})
  {
  }

  lemma PlaceWhenUpperLarger(h: Halves, x: int)
    requires CanReadMedian(h) && |h.lower| < |h.upper|
    ensures x as real > Median(h) ==>
      var grown := h.upper + multiset{x};
      Place(h, x) == Halves(h.lower + multiset{MinOf(grown)}, grown - multiset{MinOf(grown)})
    ensures !(x as real > Median(h)) ==> Place(h, x) == Halves(h.lower + multiset{x}, h.upper)
  {
  }

  ghost predicate Balanced(h: Halves)
  {
    -1 <= |h.lower| - |h.upper| <= 1
  }

  ghost predicate Ordered(h: Halves)
  {
    forall a, b :: a in h.lower && b in h.upper ==> a <= b
  }

  /** The tracker's invariant: balanced sizes, ordered halves, and the lower
      half is filled first. */
  ghost predicate Inv(h: Halves)
  {
    Balanced(h) && Ordered(h) && (|h.upper| > 0 ==> |h.lower| > 0)
  }

  lemma InvCanReadMedian(h: Halves)
    requires Inv(h)
    ensures h == Empty || CanReadMedian(h)
  {
    if |h.lower| == 0 {
      assert h.lower == multiset{} && h.upper == multiset{};
    }
  }

  // Unfolds the empty-state branch of Place.
  lemma PlaceOnEmpty(x: int)
    ensures Place(Empty, x) == Halves(multiset{x}, multiset{})
  {
  }

  lemma PlaceKeepsBalance(h: Halves, x: int)
    requires Inv(h)
    ensures Balanced(Place(h, x))
  {
    InvCanReadMedian(h);
  }

  /** Every one of the six placements keeps the lower half below the upper. */
  lemma PlaceKeepsOrder(h: Halves, x: int)
    requires Inv(h)
    ensures Ordered(Place(h, x))
  {
    InvCanReadMedian(h);
    if h == Empty {
    } else if |h.lower| == |h.upper| {
      EqualKeepsOrder(h, x);
    } else if |h.lower| > |h.upper| {
      LowerLargerKeepsOrder(h, x);
    } else {
      UpperLargerKeepsOrder(h, x);
    }
  }

  lemma EqualKeepsOrder(h: Halves, x: int)
    requires Ordered(h) && CanReadMedian(h) && |h.lower| == |h.upper|
    ensures Ordered(Place(h, x))
  {
    PlaceWhenEqual(h, x);
    MedianBetweenRoots(h);
    if x as real > Median(h) {
      MaxOfGreatest(h.lower);
      forall a | a in h.lower ensures a <= x { }
      AddAbove(h.lower, h.upper, x);
    } else {
      MinOfLeast(h.upper);
      forall b | b in h.upper ensures x <= b { }
      AddBelow(h.lower, h.upper, x);
    }
  }

  lemma LowerLargerKeepsOrder(h: Halves, x: int)
    requires Ordered(h) && CanReadMedian(h) && |h.lower| > |h.upper|
    ensures Ordered(Place(h, x))
  {
    PlaceWhenLowerLarger(h, x);
    MedianBetweenRoots(h);
    if (x as real) < Median(h) {
      var grown := h.lower + multiset{x};
      var moved := MaxOf(grown);
      MaxOfGreatest(grown);
      forall a, b | a in grown - multiset{moved} && b in h.upper + multiset{moved} ensures a <= b {
        assert a in grown;
        if b != moved {
          assert b in h.upper;
          assert moved in h.lower || moved == x;
        }
      }
    } else {
      MaxOfGreatest(h.lower);
      forall a | a in h.lower ensures a <= x { }
      AddAbove(h.lower, h.upper, x);
    }
  }

  lemma UpperLargerKeepsOrder(h: Halves, x: int)
    requires Ordered(h) && CanReadMedian(h) && |h.lower| < |h.upper|
    ensures Ordered(Place(h, x))
  {
    PlaceWhenUpperLarger(h, x);
    MedianBetweenRoots(h);
    if x as real > Median(h) {
      var grown := h.upper + multiset{x};
      var moved := MinOf(grown);
      MinOfLeast(grown);
      forall a, b | a in h.lower + multiset{moved} && b in grown - multiset{moved} ensures a <= b {
        assert b in grown;
        if a != moved {
          assert a in h.lower;
          assert moved in h.upper || moved == x;
        }
      }
    } else {
      MinOfLeast(h.upper);
      forall b | b in h.upper ensures x <= b { }
      AddBelow(h.lower, h.upper, x);
    }
  }

  /** Adding to the upper half a value above the whole lower half keeps the order. */
  lemma AddAbove(l: multiset<int>, u: multiset<int>, x: int)
    requires Ordered(Halves(l, u)) && forall a :: a in l ==> a <= x
    ensures Ordered(Halves(l, u + multiset{x}))
  {
  }

  /** Adding to the lower half a value below the whole upper half keeps the order. */
  lemma AddBelow(l: multiset<int>, u: multiset<int>, x: int)
    requires Ordered(Halves(l, u)) && forall b :: b in u ==> x <= b
    ensures Ordered(Halves(l + multiset{x}, u))
  {
  }

  lemma PlaceKeepsInv(h: Halves, x: int)
    requires Inv(h)
    ensures Inv(Place(h, x))
  {
    InvCanReadMedian(h);
    PlaceKeepsBalance(h, x);
    PlaceKeepsOrder(h, x);
    var r := Place(h, x);
    assert |r.lower| + |r.upper| == |h.lower| + |h.upper| + 1;
  }

  /** The state after inserting the integers of xs in order into an empty
      tracker; it keeps the invariant and holds exactly the inserted values. */
  ghost function Run(xs: seq<int>): (h: Halves)
    ensures Inv(h)
    ensures h.lower + h.upper == multiset(xs)
  {
    if xs == [] then Empty
    else
      var prev := Run(xs[..|xs| - 1]);
      assert xs == xs[..|xs| - 1] + [xs[|xs| - 1]];
      InvCanReadMedian(prev);
      PlaceKeepsInv(prev, xs[|xs| - 1]);
      Place(prev, xs[|xs| - 1])
  }

  // Unfolds Run one step, for callers.
  lemma RunAppend(xs: seq<int>, x: int)
    ensures Run(xs) == Empty || CanReadMedian(Run(xs))
    ensures Run(xs + [x]) == Place(Run(xs), x)
  {
    assert (xs + [x])[..|xs|] == xs;
    InvCanReadMedian(Run(xs));
  }

  /** Once anything was inserted, both roots get_median reads exist. */
  lemma RunCanReadMedian(xs: seq<int>)
    requires |xs| > 0
    ensures CanReadMedian(Run(xs))
  {
    InvCanReadMedian(Run(xs));
  }

  /** With equal halves, or a larger lower half, get_median is the
      statistical median of everything inserted. */
  lemma MedianIsStatistical(h: Halves)
    requires Inv(h) && |h.lower| > 0 && |h.lower| >= |h.upper|
    ensures CanReadMedian(h)
    ensures Median(h) == StatMedian(h.lower + h.upper)
  {
    if |h.lower| == |h.upper| {
      EqualMedian(h);
    } else {
      LowerLargerMedian(h);
    }
  }

  lemma EqualMedian(h: Halves)
    requires Ordered(h) && |h.lower| > 0 && |h.lower| == |h.upper|
    ensures StatMedian(h.lower + h.upper) == (MaxOf(h.lower) + MinOf(h.upper)) as real / 2.0
  {
    var l, u := SortedOf(h.lower), SortedOf(h.upper);
    SortedOfSplit(h.lower, h.upper);
    SortedOfEndsWithMax(h.lower);
    SortedOfFirst(h.upper);
    var s := SortedOf(h.lower + h.upper);
    var n := |h.upper|;
    assert s == l + u;
    assert |s| / 2 == n;
    assert s[n - 1] == l[n - 1] == MaxOf(h.lower);
    assert s[n] == u[0] == MinOf(h.upper);
  }

  lemma LowerLargerMedian(h: Halves)
    requires Ordered(h) && |h.lower| == |h.upper| + 1
    ensures StatMedian(h.lower + h.upper) == MaxOf(h.lower) as real
  {
    var l, u := SortedOf(h.lower), SortedOf(h.upper);
    SortedOfSplit(h.lower, h.upper);
    SortedOfEndsWithMax(h.lower);
    var s := SortedOf(h.lower + h.upper);
    var n := |h.upper|;
    assert s == l + u;
    assert |s| / 2 == n;
    assert s[n] == l[n] == MaxOf(h.lower);
  }

  /** With a larger upper half, the statistical median is the upper minimum,
      while get_median still averages the two roots: the two agree only when
      those roots are equal. */
  lemma UpperLargerMedian(h: Halves)
    requires Inv(h) && |h.upper| > |h.lower|
    ensures CanReadMedian(h)
    ensures StatMedian(h.lower + h.upper) == MinOf(h.upper) as real
    ensures Median(h) == (MaxOf(h.lower) + MinOf(h.upper)) as real / 2.0
    ensures Median(h) == StatMedian(h.lower + h.upper) <==> MaxOf(h.lower) == MinOf(h.upper)
  {
    UpperLargerStat(h);
  }

  lemma UpperLargerStat(h: Halves)
    requires Ordered(h) && |h.lower| > 0 && |h.upper| == |h.lower| + 1
    ensures StatMedian(h.lower + h.upper) == MinOf(h.upper) as real
  {
    var l, u := SortedOf(h.lower), SortedOf(h.upper);
    SortedOfSplit(h.lower, h.upper);
    SortedOfFirst(h.upper);
    var s := SortedOf(h.lower + h.upper);
    var n := |h.lower|;
    assert s == l + u;
    assert |s| / 2 == n;
    assert s[n] == u[0];
  }
}
