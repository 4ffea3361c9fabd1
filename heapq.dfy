/**
 * The binary min-heap that Python's heapq keeps in a plain list: the element
 * at index k is never smaller than the one at its parent index (k - 1) / 2, so
 * h[i] <= h[2*i+1] and h[i] <= h[2*i+2] wherever those children exist, and
 * h[0] is the least element. A list is modelled as a sequence value; heappush
 * and heappop return the updated sequence, which the caller stores back in the
 * field that held the list.
 */
module Heapq {
  import opened Multisets

  function Parent(k: nat): nat
    requires k > 0
  {
    (k - 1) / 2
  }

  /** heapq's invariant, stated from each child up to its parent. */
  ghost predicate IsHeap(h: seq<int>)
  {
    forall k {:trigger Parent(k)} :: 0 < k < |h| ==> h[Parent(k)] <= h[k]
  }

  /** The same invariant, stated from each parent down to the children at
      2*i+1 and 2*i+2 (the layout the heap diagrams are drawn in). */
  ghost predicate ChildrenNotSmaller(h: seq<int>)
  {
    forall i :: 0 <= i < |h| ==>
      (2 * i + 1 < |h| ==> h[i] <= h[2 * i + 1]) &&
      (2 * i + 2 < |h| ==> h[i] <= h[2 * i + 2])
  }

  lemma HeapLayout(h: seq<int>)
    ensures IsHeap(h) <==> ChildrenNotSmaller(h)
  {
    if IsHeap(h) {
      forall i | 0 <= i < |h|
        ensures (2 * i + 1 < |h| ==> h[i] <= h[2 * i + 1]) &&
                (2 * i + 2 < |h| ==> h[i] <= h[2 * i + 2])
      {
        if 2 * i + 1 < |h| { assert Parent(2 * i + 1) == i; }
        if 2 * i + 2 < |h| { assert Parent(2 * i + 2) == i; }
      }
    }
    if ChildrenNotSmaller(h) {
      forall k | 0 < k < |h| ensures h[Parent(k)] <= h[k] {
        var i := Parent(k);
        assert k == 2 * i + 1 || k == 2 * i + 2;
      }
    }
  }

  /** Following parents from any index leads down to the root's value. */
  lemma {:induction false} RootBelow(h: seq<int>, k: nat)
    requires IsHeap(h) && k < |h|
    ensures h[0] <= h[k]
    decreases k
  {
    if k > 0 {
      RootBelow(h, Parent(k));
    }
  }

  /** heap[0] is the smallest item, as heapq documents. */
  lemma HeapRootIsMin(h: seq<int>)
    requires IsHeap(h) && |h| > 0
    ensures h[0] == MinOf(multiset(h))
  {
    forall y | y in multiset(h) ensures h[0] <= y {
      var k :| 0 <= k < |h| && h[k] == y;
      RootBelow(h, k);
    }
    MinOfIs(multiset(h), h[0]);
  }

  /** The sequence with the items at i and j exchanged. */
  function Swap(s: seq<int>, i: nat, j: nat): (r: seq<int>)
    requires i < |s| && j < |s|
    ensures |r| == |s| && r[i] == s[j] && r[j] == s[i]
    ensures forall k :: 0 <= k < |s| && k != i && k != j ==> r[k] == s[k]
    ensures multiset(r) == multiset(s)
  {
    var t := s[i := s[j]];
    assert multiset(t) == multiset(s) - multiset{s[i]} + multiset{s[j]};
    t[j := s[i]]
  }

  /** heapq.heappush: append x, then move it up while its parent is larger. */
  method HeapPush(h: seq<int>, x: int) returns (r: seq<int>)
    requires IsHeap(h)
    ensures IsHeap(r)
    ensures multiset(r) == multiset(h) + multiset{x}
  {
    r := h + [x];
    var i := |h|;
    while i > 0 && r[Parent(i)] > r[i]
      invariant |r| == |h| + 1 && 0 <= i < |r|
      invariant multiset(r) == multiset(h) + multiset{x}
      invariant forall k {:trigger Parent(k)} :: 0 < k < |r| && k != i ==> r[Parent(k)] <= r[k]
      invariant i > 0 ==> forall k :: 0 < k < |r| && Parent(k) == i ==> r[Parent(i)] <= r[k]
      decreases i
    {
      var p := Parent(i);
      r := Swap(r, i, p);
      i := p;
    }
  }

  /** Heap order holds everywhere except between position i and its
      children, and i's parent is no larger than those children. */
  ghost predicate HoleBelow(r: seq<int>, i: nat)
  {
    (forall k {:trigger Parent(k)} :: 0 < k < |r| && Parent(k) != i ==> r[Parent(k)] <= r[k]) &&
    (i > 0 ==> forall k :: 0 < k < |r| && Parent(k) == i ==> r[Parent(i)] <= r[k])
  }

  /** c is the smaller of the children of i. */
  ghost predicate SmallerChild(r: seq<int>, i: nat, c: nat)
  {
    (c == 2 * i + 1 || c == 2 * i + 2) && c < |r| &&
    r[c] <= r[2 * i + 1] && (2 * i + 2 < |r| ==> r[c] <= r[2 * i + 2])
  }

  lemma ChildrenOf(r: seq<int>, i: nat)
    ensures forall k :: 0 < k < |r| && Parent(k) == i ==> k == 2 * i + 1 || k == 2 * i + 2
  {
  }

  lemma SiftDownStep(r: seq<int>, i: nat, c: nat)
    requires HoleBelow(r, i) && SmallerChild(r, i, c) && r[c] < r[i]
    ensures HoleBelow(Swap(r, i, c), c)
  {
    ChildrenOf(r, i);
    var r' := Swap(r, i, c);
    forall k | 0 < k < |r'| && Parent(k) != c ensures r'[Parent(k)] <= r'[k] {
      if k == c {
      } else if Parent(k) == i {
      } else if k == i {
      } else {
        assert r'[k] == r[k];
      }
    }
    assert Parent(c) == i;
    forall k | 0 < k < |r'| && Parent(k) == c ensures r'[i] <= r'[k] {
      assert r'[k] == r[k];
    }
  }

  /** Moving the last item to the root leaves a hole at the root only. */
  lemma PopStart(h: seq<int>)
    requires IsHeap(h) && |h| > 1
    ensures HoleBelow(h[..|h| - 1][0 := h[|h| - 1]], 0)
    ensures multiset(h[..|h| - 1][0 := h[|h| - 1]]) + multiset{h[0]} == multiset(h)
  {
    var n := |h|;
    var r := h[..n - 1];
    assert h == r + [h[n - 1]];
    assert multiset(r[0 := h[n - 1]]) == multiset(r) - multiset{r[0]} + multiset{h[n - 1]};
  }

  lemma SiftDownDone(r: seq<int>, i: nat, c: nat)
    requires HoleBelow(r, i) && SmallerChild(r, i, c) && r[i] <= r[c]
    ensures IsHeap(r)
  {
    ChildrenOf(r, i);
  }

  lemma SiftDownLeaf(r: seq<int>, i: nat)
    requires HoleBelow(r, i) && |r| <= 2 * i + 1
    ensures IsHeap(r)
  {
    ChildrenOf(r, i);
  }

  /** Moves the item at the root down below its smaller child while that
      child is smaller (heapq's _siftup helper, done here by exchanges). */
  method SiftDown(r0: seq<int>) returns (r: seq<int>)
    requires HoleBelow(r0, 0) && |r0| > 0
    ensures IsHeap(r)
    ensures multiset(r) == multiset(r0)
  {
    r := r0;
    var i := 0;
    while 2 * i + 1 < |r|
      invariant |r| == |r0| && 0 <= i < |r|
      invariant multiset(r) == multiset(r0)
      invariant HoleBelow(r, i)
      decreases |r| - i
    {
      var c := 2 * i + 1;
      if c + 1 < |r| && r[c + 1] < r[c] {
        c := c + 1;
      }
      if r[i] <= r[c] {
        SiftDownDone(r, i, c);
        return;
      }
      SiftDownStep(r, i, c);
      r := Swap(r, i, c);
      i := c;
    }
    SiftDownLeaf(r, i);
  }

  /** heapq.heappop: take the root out, put the last item in its place and
      sift it down. */
  method HeapPop(h: seq<int>) returns (r: seq<int>, top: int)
    requires IsHeap(h) && |h| > 0
    ensures IsHeap(r)
    ensures top == h[0] && top == MinOf(multiset(h))
    ensures multiset(r) + multiset{top} == multiset(h)
  {
    HeapRootIsMin(h);
    var last := h[|h| - 1];
    r := h[..|h| - 1];
    if |r| == 0 {
      assert h == [last];
      top := last;
      return;
    }
    top := r[0];
    PopStart(h);
    r := SiftDown(r[0 := last]);
  }
}
