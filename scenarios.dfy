/**
 * Concrete insert sequences traced through the placement table. Each run is
 * built one insert at a time: a placement fact about explicit halves, then
 * the replay of the longer stream. They show where get_median agrees with
 * the statistical median and where it does not.
 */
module Scenarios {
  import opened Multisets
  import opened StreamMedian

  lemma RunOne(x: int)
    ensures Run([x]) == Halves(multiset{x}, multiset{})
  {
    assert [x][..0] == [];
  }

  // ----- Inserting 1, 2, 3 -----

  /** Inserting 1, 2, 3 reaches the upper-larger state (the second insert
      goes up at the lower-larger branch, the third at the equal branch),
      where get_median reports 1.5 although the statistical median is 2. */
  lemma OneTwoThree()
    ensures Run([1, 2, 3]) == Halves(multiset{1}, multiset{2, 3})
    ensures Median(Run([1, 2, 3])) == 1.5
    ensures StatMedian(multiset([1, 2, 3])) == 2.0
  {
    OneTwoThreeRun();
    OneTwoThreeState();
  }

  lemma OneTwoThreeRun()
    ensures Run([1, 2, 3]) == Halves(multiset{1}, multiset{2, 3})
  {
    assert [1, 2, 3][..2] == [1, 2];
    assert [1, 2][..1] == [1];
    RunOne(1);
    PlaceTwoOnOne();
    PlaceThreeOnOneTwo();
  }

  lemma PlaceTwoOnOne()
    ensures CanReadMedian(Halves(multiset{1}, multiset{}))
    ensures Place(Halves(multiset{1}, multiset{}), 2) == Halves(multiset{1}, multiset{2})
  {
    var h := Halves(multiset{1}, multiset{});
    assert MaxOf(h.lower) == 1;
    PlaceWhenLowerLarger(h, 2);
  }

  lemma PlaceThreeOnOneTwo()
    ensures CanReadMedian(Halves(multiset{1}, multiset{2}))
    ensures Place(Halves(multiset{1}, multiset{2}), 3) == Halves(multiset{1}, multiset{2, 3})
  {
    var h := Halves(multiset{1}, multiset{2});
    assert MaxOf(h.lower) == 1 && MinOf(h.upper) == 2;
    PlaceWhenEqual(h, 3);
  }

  lemma OneTwoThreeState()
    ensures Inv(Halves(multiset{1}, multiset{2, 3}))
    ensures Median(Halves(multiset{1}, multiset{2, 3})) == 1.5
    ensures StatMedian(multiset{1} + multiset{2, 3}) == 2.0
  {
    var h := Halves(multiset{1}, multiset{2, 3});
    assert MaxOf(h.lower) == 1;
    MinOfIs(h.upper, 2);
    UpperLargerMedian(h);
  }

  // ----- Inserting 1, 2, 3, 4, 5 -----

  /** Inserting 1 to 5 in order: after the fourth insert the halves are
      {1, 2} and {3, 4}; the fifth goes up at the equal branch, so get_median
      reports 2.5 where the statistical median is 3. */
  lemma OneToFive()
    ensures Run([1, 2, 3, 4]) == Halves(multiset{1, 2}, multiset{3, 4})
    ensures Median(Run([1, 2, 3, 4])) == 2.5
    ensures Run([1, 2, 3, 4, 5]) == Halves(multiset{1, 2}, multiset{3, 4, 5})
    ensures Median(Run([1, 2, 3, 4, 5])) == 2.5
    ensures StatMedian(multiset([1, 2, 3, 4, 5])) == 3.0
  {
    OneToFourRun();
    OneToFiveRun();
    OneToFiveState();
  }

  lemma OneToFourRun()
    ensures Run([1, 2, 3, 4]) == Halves(multiset{1, 2}, multiset{3, 4})
    ensures Median(Run([1, 2, 3, 4])) == 2.5
  {
    assert [1, 2, 3, 4][..3] == [1, 2, 3];
    OneTwoThreeRun();
    PlaceFourOnOneTwoThree();
    OneToFourState();
  }

  /** The upper half is larger and 4 is above 1.5: 4 goes up and the upper
      minimum 2 comes down. */
  lemma PlaceFourOnOneTwoThree()
    ensures CanReadMedian(Halves(multiset{1}, multiset{2, 3}))
    ensures Place(Halves(multiset{1}, multiset{2, 3}), 4) == Halves(multiset{1, 2}, multiset{3, 4})
  {
    var h := Halves(multiset{1}, multiset{2, 3});
    assert MaxOf(h.lower) == 1;
    MinOfIs(h.upper, 2);
    MinOfIs(multiset{2, 3, 4}, 2);
    PlaceWhenUpperLarger(h, 4);
    assert multiset{2, 3, 4} - multiset{2} == multiset{3, 4};
  }

  lemma OneToFourState()
    ensures Median(Halves(multiset{1, 2}, multiset{3, 4})) == 2.5
  {
    var h := Halves(multiset{1, 2}, multiset{3, 4});
    MaxOfIs(h.lower, 2);
    MinOfIs(h.upper, 3);
  }

  lemma OneToFiveRun()
    ensures Run([1, 2, 3, 4, 5]) == Halves(multiset{1, 2}, multiset{3, 4, 5})
  {
    assert [1, 2, 3, 4, 5][..4] == [1, 2, 3, 4];
    OneToFourRun();
    PlaceFiveOnOneToFour();
  }

  lemma PlaceFiveOnOneToFour()
    ensures CanReadMedian(Halves(multiset{1, 2}, multiset{3, 4}))
    ensures Place(Halves(multiset{1, 2}, multiset{3, 4}), 5) == Halves(multiset{1, 2}, multiset{3, 4, 5})
  {
    var h := Halves(multiset{1, 2}, multiset{3, 4});
    MaxOfIs(h.lower, 2);
    MinOfIs(h.upper, 3);
    PlaceWhenEqual(h, 5);
  }

  lemma OneToFiveState()
    ensures Inv(Halves(multiset{1, 2}, multiset{3, 4, 5}))
    ensures Median(Halves(multiset{1, 2}, multiset{3, 4, 5})) == 2.5
    ensures StatMedian(multiset{1, 2} + multiset{3, 4, 5}) == 3.0
  {
    var h := Halves(multiset{1, 2}, multiset{3, 4, 5});
    MaxOfIs(h.lower, 2);
    MinOfIs(h.upper, 3);
    UpperLargerMedian(h);
  }

  // ----- Inserting 5, 2, 8 -----

  /** Inserting 5, 2, 8: the second insert pushes 2 down and moves 5 up, the
      third goes up at the equal branch. get_median reports 5, then 3.5, then
      3.5 again, while the statistical median of all three is 5. */
  lemma FiveTwoEight()
    ensures Median(Run([5])) == 5.0
    ensures Run([5, 2]) == Halves(multiset{2}, multiset{5})
    ensures Median(Run([5, 2])) == 3.5
    ensures Run([5, 2, 8]) == Halves(multiset{2}, multiset{5, 8})
    ensures Median(Run([5, 2, 8])) == 3.5
    ensures StatMedian(multiset([5, 2, 8])) == 5.0
  {
    RunOne(5);
    assert MaxOf(multiset{5}) == 5;
    FiveTwoRun();
    FiveTwoEightRun();
    FiveTwoEightState();
  }

  lemma FiveTwoRun()
    ensures Run([5, 2]) == Halves(multiset{2}, multiset{5})
    ensures Median(Run([5, 2])) == 3.5
  {
    assert [5, 2][..1] == [5];
    RunOne(5);
    PlaceTwoOnFive();
  }

  /** The lower half is larger and 2 is below 5: 2 goes down and the lower
      maximum 5 moves up. */
  lemma PlaceTwoOnFive()
    ensures CanReadMedian(Halves(multiset{5}, multiset{}))
    ensures Place(Halves(multiset{5}, multiset{}), 2) == Halves(multiset{2}, multiset{5})
    ensures Median(Halves(multiset{2}, multiset{5})) == 3.5
  {
    var h := Halves(multiset{5}, multiset{});
    assert MaxOf(h.lower) == 5;
    MaxOfIs(multiset{5, 2}, 5);
    PlaceWhenLowerLarger(h, 2);
    assert multiset{5, 2} - multiset{5} == multiset{2};
    var h' := Halves(multiset{2}, multiset{5});
    assert MaxOf(h'.lower) == 2 && MinOf(h'.upper) == 5;
  }

  lemma FiveTwoEightRun()
    ensures Run([5, 2, 8]) == Halves(multiset{2}, multiset{5, 8})
  {
    assert [5, 2, 8][..2] == [5, 2];
    FiveTwoRun();
    PlaceEightOnTwoFive();
  }

  lemma PlaceEightOnTwoFive()
    ensures CanReadMedian(Halves(multiset{2}, multiset{5}))
    ensures Place(Halves(multiset{2}, multiset{5}), 8) == Halves(multiset{2}, multiset{5, 8})
  {
    var h := Halves(multiset{2}, multiset{5});
    assert MaxOf(h.lower) == 2 && MinOf(h.upper) == 5;
    PlaceWhenEqual(h, 8);
  }

  lemma FiveTwoEightState()
    ensures Inv(Halves(multiset{2}, multiset{5, 8}))
    ensures Median(Halves(multiset{2}, multiset{5, 8})) == 3.5
    ensures StatMedian(multiset{2} + multiset{5, 8}) == 5.0
  {
    var h := Halves(multiset{2}, multiset{5, 8});
    assert MaxOf(h.lower) == 2;
    MinOfIs(h.upper, 5);
    UpperLargerMedian(h);
  }

  // ----- Inserting 5 four times -----

  /** Inserting 5 four times: the ties go up, down, up in turn, and
      get_median reports 5 after every insert, which is the statistical
      median of the final stream. */
  lemma FourFives()
    ensures Run([5, 5, 5, 5]) == Halves(multiset{5, 5}, multiset{5, 5})
    ensures Median(Run([5])) == 5.0 && Median(Run([5, 5])) == 5.0
    ensures Median(Run([5, 5, 5])) == 5.0 && Median(Run([5, 5, 5, 5])) == 5.0
    ensures StatMedian(multiset([5, 5, 5, 5])) == 5.0
  {
    RunOne(5);
    assert MaxOf(multiset{5}) == 5;
    TwoFivesRun();
    ThreeFivesRun();
    FourFivesRun();
    FourFivesState();
  }

  lemma TwoFivesRun()
    ensures Run([5, 5]) == Halves(multiset{5}, multiset{5})
    ensures Median(Run([5, 5])) == 5.0
  {
    assert [5, 5][..1] == [5];
    RunOne(5);
    var h := Halves(multiset{5}, multiset{});
    assert MaxOf(h.lower) == 5;
    PlaceWhenLowerLarger(h, 5);
    assert MinOf(multiset{5}) == 5;
  }

  lemma ThreeFivesRun()
    ensures Run([5, 5, 5]) == Halves(multiset{5, 5}, multiset{5})
    ensures Median(Run([5, 5, 5])) == 5.0
  {
    assert [5, 5, 5][..2] == [5, 5];
    TwoFivesRun();
    PlaceFiveOnFiveFive();
  }

  lemma PlaceFiveOnFiveFive()
    ensures CanReadMedian(Halves(multiset{5}, multiset{5}))
    ensures Place(Halves(multiset{5}, multiset{5}), 5) == Halves(multiset{5, 5}, multiset{5})
    ensures Median(Halves(multiset{5, 5}, multiset{5})) == 5.0
  {
    var h := Halves(multiset{5}, multiset{5});
    assert MaxOf(h.lower) == 5 && MinOf(h.upper) == 5;
    PlaceWhenEqual(h, 5);
    MaxOfIs(multiset{5, 5}, 5);
  }

  lemma FourFivesRun()
    ensures Run([5, 5, 5, 5]) == Halves(multiset{5, 5}, multiset{5, 5})
  {
    assert [5, 5, 5, 5][..3] == [5, 5, 5];
    ThreeFivesRun();
    PlaceFiveOnThreeFives();
  }

  lemma PlaceFiveOnThreeFives()
    ensures CanReadMedian(Halves(multiset{5, 5}, multiset{5}))
    ensures Place(Halves(multiset{5, 5}, multiset{5}), 5) == Halves(multiset{5, 5}, multiset{5, 5})
  {
    var h := Halves(multiset{5, 5}, multiset{5});
    MaxOfIs(h.lower, 5);
    PlaceWhenLowerLarger(h, 5);
  }

  lemma FourFivesState()
    ensures Inv(Halves(multiset{5, 5}, multiset{5, 5}))
    ensures Median(Halves(multiset{5, 5}, multiset{5, 5})) == 5.0
    ensures StatMedian(multiset{5, 5} + multiset{5, 5}) == 5.0
  {
    var h := Halves(multiset{5, 5}, multiset{5, 5});
    MaxOfIs(h.lower, 5);
    MinOfIs(h.upper, 5);
    MedianIsStatistical(h);
  }

  // ----- Inserting 3, 2, 1 -----

  /** Inserting 3, 2, 1 ends with the same values as inserting 1, 2, 3, but
      in the lower-larger state, so get_median reports 2 here and 1.5 there:
      the reported median depends on the insertion order, not only on the
      values inserted. */
  lemma ThreeTwoOne()
    ensures Run([3, 2, 1]) == Halves(multiset{1, 2}, multiset{3})
    ensures Median(Run([3, 2, 1])) == 2.0
    ensures multiset([3, 2, 1]) == multiset([1, 2, 3])
    ensures Median(Run([3, 2, 1])) != Median(Run([1, 2, 3]))
  {
    ThreeTwoOneRun();
    OneTwoThreeRun();
    ThreeTwoOneState();
    OneTwoThreeState();
    SameValues();
  }

  lemma ThreeTwoOneState()
    ensures Median(Halves(multiset{1, 2}, multiset{3})) == 2.0
  {
    MaxOfIs(multiset{1, 2}, 2);
  }

  lemma SameValues()
    ensures multiset([3, 2, 1]) == multiset([1, 2, 3])
  {
    assert multiset([3, 2, 1]) == multiset{1, 2, 3};
  }

  lemma ThreeTwoRun()
    ensures Run([3, 2]) == Halves(multiset{2}, multiset{3})
  {
    assert [3, 2][..1] == [3];
    RunOne(3);
    var h := Halves(multiset{3}, multiset{});
    assert MaxOf(h.lower) == 3;
    MaxOfIs(multiset{3, 2}, 3);
    PlaceWhenLowerLarger(h, 2);
    assert multiset{3, 2} - multiset{3} == multiset{2};
  }

  lemma ThreeTwoOneRun()
    ensures Run([3, 2, 1]) == Halves(multiset{1, 2}, multiset{3})
  {
    assert [3, 2, 1][..2] == [3, 2];
    ThreeTwoRun();
    var h := Halves(multiset{2}, multiset{3});
    assert MaxOf(h.lower) == 2 && MinOf(h.upper) == 3;
    PlaceWhenEqual(h, 1);
  }
}
