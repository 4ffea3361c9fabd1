/**
 * The session state of the median visualiser and the operations on it:
 * add_number, get_median and the "Clear Stream" action. The lower half lives
 * in maxHeap as negated integers, so that a min-heap yields its maximum; the
 * upper half lives in minHeap; stream logs every inserted integer in order.
 */
module MedApp {
  import opened Multisets
  import opened Heapq
  import opened StreamMedian

  /** Element-wise negation: the encoding of the lower half in maxHeap, and
      the decoding of maxHeap for display. */
  function Neg(s: seq<int>): (r: seq<int>)
  {
    seq(|s|, i requires 0 <= i < |s| => -s[i])
  }

  /** Negating twice gives the original values back. */
  lemma NegNeg(s: seq<int>)
    ensures Neg(Neg(s)) == s
  {
  }

  lemma NegAppend(s: seq<int>, x: int)
    ensures Neg(s + [x]) == Neg(s) + [-x]
  {
  }

  /** v occurs in the negated sequence as often as -v occurs in the original. */
  lemma {:induction false} NegCount(s: seq<int>, v: int)
    ensures multiset(Neg(s))[v] == multiset(s)[-v]
    decreases |s|
  {
    if s != [] {
      var init := s[..|s| - 1];
      assert s == init + [s[|s| - 1]];
      NegCount(init, v);
      NegAppend(init, s[|s| - 1]);
    }
  }

  /** Negation maps equal multisets to equal multisets. */
  lemma NegSameElements(a: seq<int>, b: seq<int>)
    requires multiset(a) == multiset(b)
    ensures multiset(Neg(a)) == multiset(Neg(b))
  {
    forall v ensures multiset(Neg(a))[v] == multiset(Neg(b))[v] {
      NegCount(a, v);
      NegCount(b, v);
    }
  }

  /** Adding v to a list adds -v to its negation. */
  lemma NegAdd(a: seq<int>, b: seq<int>, v: int)
    requires multiset(a) == multiset(b) + multiset{v}
    ensures multiset(Neg(a)) == multiset(Neg(b)) + multiset{-v}
  {
    NegSameElements(a, b + [v]);
    NegAppend(b, v);
  }

  lemma Unadd(a: multiset<int>, g: multiset<int>, t: int)
    requires a + multiset{t} == g
    ensures a == g - multiset{t}
  {
    assert forall y :: a[y] == (g - multiset{t})[y];
  }

  /** Pushing -x onto a list adds x to its negation. */
  lemma NegPush(a: seq<int>, b: seq<int>, x: int)
    requires multiset(a) == multiset(b) + multiset{-x}
    ensures multiset(Neg(a)) == multiset(Neg(b)) + multiset{x}
  {
    NegAdd(a, b, -x);
  }

  /** Popping t from a list removes v == -t from its negation. */
  lemma NegPop(a: seq<int>, b: seq<int>, t: int, v: int)
    requires multiset(b) + multiset{t} == multiset(a) && v == -t
    ensures multiset(Neg(b)) == multiset(Neg(a)) - multiset{v}
  {
    NegAdd(a, b, t);
    Unadd(multiset(Neg(b)), multiset(Neg(a)), v);
  }

  /** The negated root of a min-heap is the greatest of the negated values. */
  lemma NegRootIsMax(s: seq<int>)
    requires IsHeap(s) && |s| > 0
    ensures -s[0] == MaxOf(multiset(Neg(s)))
  {
    var n := Neg(s);
    forall y | y in multiset(n) ensures y <= -s[0] {
      var k :| 0 <= k < |n| && n[k] == y;
      RootBelow(s, k);
    }
    assert n[0] in multiset(n);
    MaxOfIs(multiset(n), -s[0]);
  }

  /** Negating a min-heap gives a max-heap whose root is its greatest value. */
  lemma NegOfHeap(s: seq<int>)
    requires IsHeap(s)
    ensures forall k :: 0 < k < |s| ==> Neg(s)[Parent(k)] >= Neg(s)[k]
    ensures |s| > 0 ==> Neg(s)[0] == MaxOf(multiset(Neg(s)))
  {
    if |s| > 0 {
      NegRootIsMax(s);
    }
  }

  /** The halves held by a lower list (negated values) and an upper list. */
  ghost function HalvesOf(lo: seq<int>, up: seq<int>): Halves
  {
    Halves(multiset(Neg(lo)), multiset(up))
  }

  /** Pushing -x onto the lower list adds x to the lower half. */
  lemma PushLower(lo: seq<int>, lo2: seq<int>, up: seq<int>, x: int)
    requires multiset(lo2) == multiset(lo) + multiset{-x}
    ensures HalvesOf(lo2, up) == Halves(HalvesOf(lo, up).lower + multiset{x}, HalvesOf(lo, up).upper)
  {
    NegPush(lo2, lo, x);
  }

  /** The negated root of the grown lower list is the greatest of the grown
      lower half. */
  lemma GrownLowerRoot(lo: seq<int>, grown: seq<int>, x: int)
    requires IsHeap(grown) && |grown| > 0
    requires multiset(grown) == multiset(lo) + multiset{-x}
    ensures -grown[0] == MaxOf(multiset(Neg(lo)) + multiset{x})
  {
    NegPush(grown, lo, x);
    NegRootIsMax(grown);
  }

  /** Pushing -x onto the lower list, popping its root and pushing the negated
      root onto the upper list moves the greatest of the grown lower half up. */
  lemma MoveUp(lo: seq<int>, grown: seq<int>, shrunk: seq<int>, top: int, up: seq<int>, up2: seq<int>, x: int)
    requires IsHeap(grown) && |grown| > 0 && top == grown[0]
    requires multiset(grown) == multiset(lo) + multiset{-x}
    requires multiset(shrunk) + multiset{top} == multiset(grown)
    requires multiset(up2) == multiset(up) + multiset{-top}
    ensures var g := HalvesOf(lo, up).lower + multiset{x};
      HalvesOf(shrunk, up2) == Halves(g - multiset{MaxOf(g)}, HalvesOf(lo, up).upper + multiset{MaxOf(g)})
  {
    var g := multiset(Neg(lo)) + multiset{x};
    GrownLowerRoot(lo, grown, x);
    NegPush(grown, lo, x);
    NegPop(grown, shrunk, top, MaxOf(g));
    assert multiset(Neg(shrunk)) == g - multiset{MaxOf(g)};
    assert multiset(up2) == multiset(up) + multiset{MaxOf(g)};
  }

  /** Pushing x onto the upper list, popping its root and pushing the negated
      root onto the lower list moves the least of the grown upper half down. */
  lemma MoveDown(lo: seq<int>, lo2: seq<int>, up: seq<int>, grown: seq<int>, shrunk: seq<int>, top: int, x: int)
    requires |grown| > 0 && top == MinOf(multiset(grown))
    requires multiset(grown) == multiset(up) + multiset{x}
    requires multiset(shrunk) + multiset{top} == multiset(grown)
    requires multiset(lo2) == multiset(lo) + multiset{-top}
    ensures var g := HalvesOf(lo, up).upper + multiset{x};
      HalvesOf(lo2, shrunk) == Halves(HalvesOf(lo, up).lower + multiset{MinOf(g)}, g - multiset{MinOf(g)})
  {
    var g := multiset(up) + multiset{x};
    var m := MinOf(g);
    assert top == m;
    Unadd(multiset(shrunk), g, top);
    NegPush(lo2, lo, top);
  }

  /** add_number on empty heaps: push -x onto the lower list. */
  method AddFirst(lo: seq<int>, up: seq<int>, x: int) returns (lo2: seq<int>)
    requires lo == [] && up == []
    ensures IsHeap(lo2)
    ensures HalvesOf(lo2, up) == Place(HalvesOf(lo, up), x)
  {
    assert HalvesOf(lo, up) == Empty;
    lo2 := HeapPush(lo, -x);
    PushLower(lo, lo2, up, x);
  }

  /** add_number with heaps of equal size: x goes up when it is above the
      median, down otherwise. */
  method AddWhenEqual(lo: seq<int>, up: seq<int>, x: int, median: real) returns (lo2: seq<int>, up2: seq<int>)
    requires IsHeap(lo) && IsHeap(up) && CanReadMedian(HalvesOf(lo, up)) && |lo| == |up|
    requires median == Median(HalvesOf(lo, up))
    ensures IsHeap(lo2) && IsHeap(up2)
    ensures HalvesOf(lo2, up2) == Place(HalvesOf(lo, up), x)
  {
    lo2, up2 := lo, up;
    if x as real > median {
      up2 := HeapPush(up, x);
    } else {
      lo2 := HeapPush(lo, -x);
      PushLower(lo, lo2, up, x);
    }
    PlaceWhenEqual(HalvesOf(lo, up), x);
  }

  /** add_number with a larger lower heap: x below the median is pushed
      down and the lower root moves up; otherwise x goes up. */
  method AddWhenLowerLarger(lo: seq<int>, up: seq<int>, x: int, median: real) returns (lo2: seq<int>, up2: seq<int>)
    requires IsHeap(lo) && IsHeap(up) && CanReadMedian(HalvesOf(lo, up)) && |lo| > |up|
    requires median == Median(HalvesOf(lo, up))
    ensures IsHeap(lo2) && IsHeap(up2)
    ensures HalvesOf(lo2, up2) == Place(HalvesOf(lo, up), x)
  {
    lo2, up2 := lo, up;
    if (x as real) < median {
      var grown := HeapPush(lo, -x);
      var top;
      lo2, top := HeapPop(grown);
      up2 := HeapPush(up, -top);
      MoveUp(lo, grown, lo2, top, up, up2, x);
    } else {
      up2 := HeapPush(up, x);
    }
    PlaceWhenLowerLarger(HalvesOf(lo, up), x);
  }

  /** add_number with a larger upper heap: x above the median is pushed up
      and the upper root moves down; otherwise x goes down. */
  method AddWhenUpperLarger(lo: seq<int>, up: seq<int>, x: int, median: real) returns (lo2: seq<int>, up2: seq<int>)
    requires IsHeap(lo) && IsHeap(up) && CanReadMedian(HalvesOf(lo, up)) && |lo| < |up|
    requires median == Median(HalvesOf(lo, up))
    ensures IsHeap(lo2) && IsHeap(up2)
    ensures HalvesOf(lo2, up2) == Place(HalvesOf(lo, up), x)
  {
    lo2, up2 := lo, up;
    if x as real > median {
      var grown := HeapPush(up, x);
      var top;
      up2, top := HeapPop(grown);
      lo2 := HeapPush(lo, -top);
      MoveDown(lo, lo2, up, grown, up2, top, x);
    } else {
      lo2 := HeapPush(lo, -x);
      PushLower(lo, lo2, up, x);
    }
    PlaceWhenUpperLarger(HalvesOf(lo, up), x);
  }

  class Tracker {
    /** The lower half, negated, in heapq order. */
    var maxHeap: seq<int>
    /** The upper half, in heapq order. */
    var minHeap: seq<int>
    /** Every inserted integer, in insertion order. */
    var stream: seq<int>

    ghost function Lower(): multiset<int>
      reads this
    {
      multiset(Neg(maxHeap))
    }

    ghost function Upper(): multiset<int>
      reads this
    {
      multiset(minHeap)
    }

    ghost function State(): Halves
      reads this
    {
      HalvesOf(maxHeap, minHeap)
    }

    /** Both lists are heaps, and the halves they hold are exactly what
        replaying the logged stream from the empty state produces. */
    ghost predicate Valid()
      reads this
    {
      IsHeap(maxHeap) && IsHeap(minHeap) && State() == Run(stream)
    }

    /** The session starts with three empty lists. */
    constructor ()
      ensures Valid()
      ensures maxHeap == [] && minHeap == [] && stream == []
    {
      maxHeap, minHeap, stream := [], [], [];
    }

    /** get_median: reads the lower root, and the upper root unless the lower
        heap is strictly larger; those roots are the lower maximum and the
        upper minimum. */
    function GetMedian(): (r: real)
      reads this
      requires IsHeap(maxHeap) && IsHeap(minHeap) && CanReadMedian(State())
      ensures r == Median(State())
      ensures |maxHeap| > |minHeap| ==> r == MaxOf(Lower()) as real
      ensures |maxHeap| <= |minHeap| ==> r == (MaxOf(Lower()) + MinOf(Upper())) as real / 2.0
    {
      RootsAreExtremes();
      if |maxHeap| > |minHeap| then (-maxHeap[0]) as real
      else (-maxHeap[0] + minHeap[0]) as real / 2.0
    }

    /** add_number: place num by the table, then log it. */
    method AddNumber(num: int)
      requires Valid()
      modifies this
      ensures Valid()
      ensures stream == old(stream) + [num]
      ensures State() == Place(old(State()), num)
      ensures old(stream) == [] ==> Lower() == multiset{num} && minHeap == []
    {
      RunAppend(stream, num);
      PlaceNumber(num);
      stream := stream + [num];
    }

    /** The heap updates of add_number: the first integer goes to the lower
        heap; afterwards the current median and the sizes of the heaps choose
        the move. */
    method PlaceNumber(num: int)
      requires IsHeap(maxHeap) && IsHeap(minHeap)
      requires State() == Empty || CanReadMedian(State())
      modifies this
      ensures IsHeap(maxHeap) && IsHeap(minHeap)
      ensures stream == old(stream)
      ensures State() == Place(old(State()), num)
    {
      if |maxHeap| == 0 && |minHeap| == 0 {
        maxHeap := AddFirst(maxHeap, minHeap, num);
      } else {
        var median := GetMedian();
        if |maxHeap| == |minHeap| {
          maxHeap, minHeap := AddWhenEqual(maxHeap, minHeap, num, median);
        } else if |maxHeap| > |minHeap| {
          maxHeap, minHeap := AddWhenLowerLarger(maxHeap, minHeap, num, median);
        } else {
          maxHeap, minHeap := AddWhenUpperLarger(maxHeap, minHeap, num, median);
        }
      }
    }

    /** The "Clear Stream" action: all three lists become empty. */
    method Clear()
      modifies this
      ensures Valid()
      ensures maxHeap == [] && minHeap == [] && stream == []
    {
      maxHeap, minHeap, stream := [], [], [];
    }

    /** The lower half as displayed: the values of maxHeap with their true
        sign, in the heap's array order, which is then a max-heap. */
    function LowerView(): (r: seq<int>)
      reads this
      requires IsHeap(maxHeap)
      ensures |r| == |maxHeap| && forall i :: 0 <= i < |r| ==> r[i] == -maxHeap[i]
      ensures multiset(r) == Lower()
      ensures forall k :: 0 < k < |r| ==> r[Parent(k)] >= r[k]
      ensures |r| > 0 ==> |Lower()| > 0 && r[0] == MaxOf(Lower())
    {
      NegOfHeap(maxHeap);
      Neg(maxHeap)
    }

    /** The three invariants hold in every reachable state: the sizes differ
        by at most one, the lower half lies below the upper one, and the two
        heaps together hold exactly the logged integers. */
    lemma Invariants()
      requires Valid()
      ensures -1 <= |maxHeap| - |minHeap| <= 1
      ensures forall a, b :: a in Lower() && b in Upper() ==> a <= b
      ensures Lower() + Upper() == multiset(stream)
      ensures |maxHeap| + |minHeap| == |stream|
      ensures |minHeap| > 0 ==> |maxHeap| > 0
    {
      assert Inv(Run(stream));
      assert |multiset(stream)| == |Lower()| + |Upper()|;
    }

    /** With equal heaps, or a larger lower heap, get_median reports the
        statistical median of the logged stream. */
    lemma MedianOfStream()
      requires Valid() && |stream| > 0 && |maxHeap| >= |minHeap|
      ensures CanReadMedian(State())
      ensures GetMedian() == StatMedian(multiset(stream))
    {
      RunCanReadMedian(stream);
      MedianIsStatistical(State());
    }

    /** With a larger upper heap, get_median still averages the two roots,
        while the statistical median of the stream is the upper minimum. */
    lemma MedianOfStreamUpperLarger()
      requires Valid() && |minHeap| > |maxHeap|
      ensures |stream| > 0 && CanReadMedian(State())
      ensures StatMedian(multiset(stream)) == MinOf(Upper()) as real
      ensures GetMedian() == StatMedian(multiset(stream)) <==> MaxOf(Lower()) == MinOf(Upper())
    {
      Invariants();
      RunCanReadMedian(stream);
      UpperLargerMedian(State());
    }

    /** Once anything is logged, the root reads of get_median are in bounds,
        and they read the lower maximum and the upper minimum. */
    lemma RootsAreExtremes()
      requires IsHeap(maxHeap) && IsHeap(minHeap) && CanReadMedian(State())
      ensures |maxHeap| > 0 && -maxHeap[0] == MaxOf(Lower())
      ensures |minHeap| > 0 ==> minHeap[0] == MinOf(Upper())
    {
      NegRootIsMax(maxHeap);
      if |minHeap| > 0 {
        HeapRootIsMin(minHeap);
      }
    }

    /** Once anything is logged, the root reads of get_median are in bounds. */
    lemma RootsInBounds()
      requires Valid() && |stream| > 0
      ensures |maxHeap| > 0
      ensures |maxHeap| > |minHeap| || |minHeap| > 0
    {
      RunCanReadMedian(stream);
    }
  }
}
