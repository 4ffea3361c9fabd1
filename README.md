# Streaming median with two heaps

This is a Dafny model of the running-median tracker behind the "Median of Data
Stream Visualizer" (`medapp.py`). The tracker keeps its session state in three
Python lists:

- `maxHeap` holds the lower half of the inserted integers. Each value is stored
  negated, so a `heapq` min-heap gives back the lower maximum.
- `minHeap` holds the upper half, as a `heapq` min-heap.
- `stream` logs every inserted integer in insertion order.

`add_number` picks a heap for each new integer. It compares the integer with the
current median, and in two cases it then moves one heap root over to the other
heap. `get_median` computes the median from the two roots. The "Clear Stream"
button empties all three lists.

The model has four modules and a fifth of worked traces:

- `multisets.dfy` (`Multisets`): the least and greatest element of a multiset of
  integers, its ascending listing (a full sort, proved sorted and a permutation),
  and the statistical median taken from that listing.
- `heapq.dfy` (`Heapq`): the list layout `heapq` documents, where every item is no
  smaller than its parent at `(k-1)/2`. The same property stated from the parent
  side reads `h[i] <= h[2i+1]` and `h[i] <= h[2i+2]`, the layout the heap diagrams
  draw. Also `heappush` (sift up) and `heappop` (move the last item to the root,
  then sift down), as loops proved to keep the heap property and the multiset of
  items.
- `halves.dfy` (`StreamMedian`): the state as two multisets. It holds the
  placement table of `add_number` (`Place`), the value `get_median` reports
  (`Median`), and the invariants. The invariants are: sizes differ by at most
  one; every lower value is at most every upper value; the lower half fills
  first. `Run` replays a whole stream from the empty state.
- `medapp.dfy` (`MedApp`): the `Tracker` class with the fields `maxHeap`
  (negated), `minHeap` and `stream`, and the methods `AddNumber`, `Clear` and
  the function `GetMedian`. `Valid()` says that both lists are heaps and that
  they hold exactly what replaying `stream` produces.
- `scenarios.dfy` (`Scenarios`): concrete insert sequences traced through the
  table.

The integers come from the `int(...)` cast in the input handler. Medians are
exact `real` values, so `float(...)` and `/ 2` need no floating point (for very
large integers this changes behaviour; see "## Left out").

**get_median does not always report the statistical median.** It returns the
lower root alone only when the lower heap is strictly larger
(medapp.py:52-53). In every other state it averages the two roots
(medapp.py:54), including the reachable state where the upper heap is larger.
Inserting 1, 2, 3 reaches that state with lower = {1} and upper = {2, 3}, and
get_median reports 1.5 where the statistical median is 2. The model proves
two things:

- Median correctness holds for the equal-size and lower-larger states.
- In the upper-larger state the reported value equals the statistical median
  exactly when the two roots are equal.

More traces: inserting 5, 2, 8 reports 5, then 3.5, then 3.5. Inserting 1 to 5
in order reports 1, 1.5, 1.5, 2.5, 2.5. The reported median also depends on
insertion order: 3, 2, 1 ends at 2, and 1, 2, 3 ends at 1.5. In the model,
with exact arithmetic, the ordering and balance invariants hold in every
reachable state. The program computes the median in floating point, so for very
large integers this holds of the model only (see "## Left out").

## Model

| member | source | states |
|---|---|---|
| `Heapq.HeapLayout` | medapp.py:63-66 | heapq's invariant (each item no smaller than its parent) is the same as each node being at most its children at 2i+1 and 2i+2 |
| `Heapq.HeapRootIsMin` | medapp.py:53-54 | the item at index 0 of a heap list is the least of its items |
| `Heapq.HeapPush` | medapp.py:22 | heappush keeps the heap property and adds exactly the pushed value to the multiset of items |
| `Heapq.SiftDown` | medapp.py:36 | restoring the heap below a replaced root keeps the items and re-establishes the heap property |
| `Heapq.HeapPop` | medapp.py:36 | heappop on a non-empty heap returns its least item (the old root) and leaves a heap holding exactly the other items |
| `StreamMedian.Place` | medapp.py:21-46 | every placement, including the two root moves, conserves values: the new halves together are the old halves plus x |
| `StreamMedian.MedianBetweenRoots` | medapp.py:51-54 | in an ordered state the reported median lies between the lower maximum and the upper minimum |
| `StreamMedian.InvCanReadMedian` | medapp.py:21-24 | in every invariant state either both halves are empty or the roots that get_median reads exist |
| `StreamMedian.PlaceKeepsBalance` | medapp.py:26-46 | after any insert the sizes differ by at most one |
| `StreamMedian.PlaceKeepsOrder` | medapp.py:26-46 | every placement keeps every lower value at most every upper value |
| `StreamMedian.EqualKeepsOrder` | medapp.py:26-30 | the two equal-size placements keep the order |
| `StreamMedian.LowerLargerKeepsOrder` | medapp.py:32-38 | the lower-larger placements keep the order, including the move of the lower maximum (line 36) |
| `StreamMedian.UpperLargerKeepsOrder` | medapp.py:40-46 | the upper-larger placements keep the order, including the move of the upper minimum (line 44) |
| `StreamMedian.PlaceKeepsInv` | medapp.py:19-48 | balance, order and "lower fills first" are preserved by every insert |
| `StreamMedian.Run` | medapp.py:19-48 | replaying any stream from empty reaches an invariant state whose halves hold exactly the stream's values |
| `StreamMedian.RunCanReadMedian` | medapp.py:82-83 | once anything is inserted, both root reads of get_median are in bounds |
| `StreamMedian.MedianIsStatistical` | medapp.py:51-54 | with equal sizes or a larger lower half, the reported median equals the statistical median of all inserted values |
| `StreamMedian.EqualMedian` | medapp.py:54 | with equal ordered halves, the mean of the two roots is the mean of the two middle sorted values |
| `StreamMedian.LowerLargerMedian` | medapp.py:53 | with a lower half one larger, its maximum is the middle sorted value |
| `StreamMedian.UpperLargerMedian` | medapp.py:52-54 | with a larger upper half, the statistical median is the upper minimum while the code still averages; they agree iff the two roots are equal |
| `StreamMedian.UpperLargerStat` | medapp.py:52-54 | with an upper half one larger, the middle sorted value is the upper minimum |
| `MedApp.NegNeg` | medapp.py:12 | negating the stored lower values twice gives them back |
| `MedApp.NegRootIsMax` | medapp.py:53 | the negated root of the negated-value min-heap is the lower maximum |
| `MedApp.NegOfHeap` | medapp.py:94 | the displayed (un-negated) lower list is a max-heap whose root is its greatest value |
| `MedApp.PushLower` | medapp.py:22 | pushing -x onto maxHeap adds x to the lower half |
| `MedApp.MoveUp` | medapp.py:34-36 | pushing -x, popping the root and pushing its negation onto minHeap moves the grown lower maximum up |
| `MedApp.MoveDown` | medapp.py:42-44 | pushing x, popping the root and pushing its negation onto maxHeap moves the grown upper minimum down |
| `MedApp.AddFirst` | medapp.py:21-22 | on empty heaps, the heap update is the empty-state placement |
| `MedApp.AddWhenEqual` | medapp.py:26-30 | the heap updates of the equal-size branch realise the placement table and keep both lists heaps |
| `MedApp.AddWhenLowerLarger` | medapp.py:32-38 | the heap updates of the lower-larger branch realise the placement table and keep both lists heaps |
| `MedApp.AddWhenUpperLarger` | medapp.py:40-46 | the heap updates of the upper-larger branch realise the placement table and keep both lists heaps |
| `MedApp.Tracker.constructor` | medapp.py:11-16 | the session starts with three empty lists in a valid state |
| `MedApp.Tracker.GetMedian` | medapp.py:51-54 | the lower maximum when maxHeap is strictly larger, otherwise the exact mean of the lower maximum and the upper minimum; reads state only |
| `MedApp.Tracker.AddNumber` | medapp.py:19-48 | appends num to stream exactly once, applies the placement table to the heaps, keeps both heaps valid; on an empty log (a new session, or just after Clear Stream) num lands in maxHeap alone and minHeap stays empty (lines 21-22) |
| `MedApp.Tracker.PlaceNumber` | medapp.py:21-46 | the heap part of add_number: the empty branch, then the branch chosen by sizes and the median read before the insert |
| `MedApp.Tracker.Clear` | medapp.py:76-79 | all three lists become empty and the state is valid again, so the next insert takes the empty branch |
| `MedApp.Tracker.LowerView` | medapp.py:94 | the displayed lower list is maxHeap negated item by item (same length and positions), holds exactly the lower half, and is in max-heap order with the lower maximum first |
| `MedApp.Tracker.Invariants` | medapp.py:19-48 | in every reachable state: sizes differ by at most one, lower values at most upper values, the two heaps hold exactly the logged stream, total size equals stream length |
| `MedApp.Tracker.MedianOfStream` | medapp.py:51-54 | with maxHeap at least as large as minHeap, get_median is the statistical median of the logged stream |
| `MedApp.Tracker.MedianOfStreamUpperLarger` | medapp.py:52-54 | with minHeap larger, the statistical median is the upper minimum and get_median matches it only when the two roots are equal |
| `MedApp.Tracker.RootsAreExtremes` | medapp.py:52-54 | the root reads are in bounds and read the lower maximum and the upper minimum |
| `MedApp.Tracker.RootsInBounds` | medapp.py:82-83 | once stream is non-empty, the heap roots that get_median reads exist |
| `Scenarios.OneTwoThree` | medapp.py:28-38 | inserting 1, 2, 3 goes through line 38 then line 28, reaching lower {1}, upper {2, 3}, where the reported 1.5 differs from the statistical 2 |
| `Scenarios.OneToFive` | medapp.py:26-54 | inserting 1 to 5 in order reports 2.5 after the fourth and the fifth insert; the statistical median of all five is 3 |
| `Scenarios.FiveTwoEight` | medapp.py:26-54 | inserting 5, 2, 8 reports 5, 3.5, 3.5; the statistical median of all three is 5 |
| `Scenarios.FourFives` | medapp.py:26-54 | inserting 5 four times reports 5 after every insert |
| `Scenarios.ThreeTwoOne` | medapp.py:26-54 | inserting 3, 2, 1 reports 2 at the end, while the same values inserted as 1, 2, 3 report 1.5 |

## Left out

- The Streamlit interface: page setup, title, sidebar input and buttons, the median metric, the bar chart, columns and subheaders (medapp.py:1-8, 70-76, 81-102). These are presentation and I/O. The input's `int(...)` cast only shows up as the parameter type `int`.
- `draw_heap_graph` and the Graphviz rendering (medapp.py:57-67). The 2i+1 / 2i+2 layout it draws is stated as `Heapq.HeapLayout`.
- Session-state persistence and reruns (medapp.py:11-16). The state is an explicitly constructed `Tracker` object.
- Floating point: `float(...)` at medapp.py:53 and `/ 2` at medapp.py:54 are exact `real` arithmetic in the model. The same median also decides placement at medapp.py:27, 33 and 41, so this changes more than the reported value:
  - From magnitude 2^52 upward, the model can put a value into the other heap. Inserting 2^52+2, 2^52+1, 2^52+2 shows it. The program rounds the tie (2^53+3)/2 to 2^52+2, so the third value is not above the median and goes into maxHeap. The model compares against the exact 2^52+1.5 and puts it into the upper half.
  - Above 2^53, `float(...)` can round the lower root, and then the program's ordering invariant can fail. Inserting 2^60+100 and then 2^60+50 gives the median 2^60, so line 38 puts 2^60+50 into minHeap above 2^60+100. The ordering proofs hold of the exact model only.
- The heap lists are sequence values that each method reassigns, not arrays updated in place. Aliasing of the lists is not modelled.
- `Heapq.HeapPop`: it restores the heap by swapping the moved item down past its smaller child. heapq's own `_siftup` walks a hole to a leaf and then sifts up. Both keep the documented heap property and the same multiset of items, so the root and every median read agree. The order of items inside the list can differ.
- `MedApp.Tracker.GetMedian`: it requires the roots to exist, as the caller guarantees (medapp.py:24, 82). Calling it on an empty tracker raises IndexError in Python, and that is not modelled.
