/**
 * Worked layouts: the column assignment, column counts and boxes of small
 * days, derived from the specification functions.
 */
module Scenarios {
  import opened Timing
  import opened Columns
  import opened ColumnCounts
  import opened CookOccurrences

  /** 9:00-10:00, 9:30-10:30 and 10:00-11:00, in seconds. */
  function MorningMeetings(): seq<Span> {
    [Span(32400, 36000), Span(34200, 37800), Span(36000, 39600)]
  }

  /** `[0, 1, 0]` is a first-fit assignment of the layout. */
  lemma MorningMeetingsFirstFit(spans: seq<Span>, levels: seq<int>)
    requires spans == MorningMeetings() && levels == [0, 1, 0]
    ensures IsFirstFit(spans, levels)
  {
    assert FirstFitAt(spans, [0, 1, 0], 0);
    assert FirstFitAt(spans, [0, 1, 0], 1);
    assert FirstFitAt(spans, [0, 1, 0], 2);
  }

  /**
   * The first and third meetings share column 0 (the third starts when the
   * first ends); the second opens column 1.
   */
  lemma MorningMeetingsLevels(spans: seq<Span>, levels: seq<int>)
    requires spans == MorningMeetings()
    requires IsFirstFit(spans, levels)
    ensures levels == [0, 1, 0]
  {
    MorningMeetingsFirstFit(spans, [0, 1, 0]);
    FirstFitUnique(spans, levels, [0, 1, 0]);
  }

  /** The middle meeting overlaps all three; the outer ones overlap two. */
  lemma MorningMeetingsRawCounts(spans: seq<Span>)
    requires spans == MorningMeetings()
    ensures RawCount(spans, spans[0]) == 2
    ensures RawCount(spans, spans[1]) == 3
    ensures RawCount(spans, spans[2]) == 2
    ensures Covered(spans)
  {
    RawCountIsCardinality(spans, spans[0]);
    assert OverlapSet(spans, spans[0]) == {0, 1};
    RawCountIsCardinality(spans, spans[1]);
    assert OverlapSet(spans, spans[1]) == {0, 1, 2};
    RawCountIsCardinality(spans, spans[2]);
    assert OverlapSet(spans, spans[2]) == {1, 2};
  }

  /** Once the meetings before the `i`-th are sized for two columns, so is the `i`-th. */
  lemma MorningMeetingsColumnStep(spans: seq<Span>, i: nat)
    requires spans == MorningMeetings() && i < |spans| && Covered(spans)
    requires forall j :: 0 <= j < i ==> FinalColumns(spans)[j] == 2
    ensures FinalColumns(spans)[i] == 2
  {
    MorningMeetingsRawCounts(spans);
    SequentialMinimum(spans, i);
    if i == 1 {
      assert Overlaps(spans[1], spans[0]);
    } else {
      assert Overlaps(spans[i], spans[1]);
    }
  }

  /** All three meetings are sized for two columns. */
  lemma MorningMeetingsColumns(spans: seq<Span>)
    requires spans == MorningMeetings()
    ensures Covered(spans) && FinalColumns(spans) == [2, 2, 2]
  {
    MorningMeetingsRawCounts(spans);
    MorningMeetingsColumnStep(spans, 0);
    MorningMeetingsColumnStep(spans, 1);
    MorningMeetingsColumnStep(spans, 2);
  }

  /** A long occurrence, two short ones beside it, and one after the short ones. */
  function CrowdedMorning(): seq<Span> {
    [Span(0, 10), Span(0, 5), Span(0, 5), Span(6, 10)]
  }

  /** `[0, 1, 2, 1]` is a first-fit assignment of the layout. */
  lemma CrowdedMorningFirstFit(spans: seq<Span>, levels: seq<int>)
    requires spans == CrowdedMorning() && levels == [0, 1, 2, 1]
    ensures IsFirstFit(spans, levels)
  {
    assert FirstFitAt(spans, [0, 1, 2, 1], 0);
    assert FirstFitAt(spans, [0, 1, 2, 1], 1);
    assert FirstFitAt(spans, [0, 1, 2, 1], 2);
    assert FirstFitAt(spans, [0, 1, 2, 1], 3);
  }

  /** The two short occurrences take columns 1 and 2; the last one reuses column 1. */
  lemma CrowdedMorningLevels(spans: seq<Span>, levels: seq<int>)
    requires spans == CrowdedMorning()
    requires IsFirstFit(spans, levels)
    ensures levels == [0, 1, 2, 1]
  {
    CrowdedMorningFirstFit(spans, [0, 1, 2, 1]);
    FirstFitUnique(spans, levels, [0, 1, 2, 1]);
  }

  /** The long occurrence overlaps all four, the short ones three, the last one two. */
  lemma CrowdedMorningRawCounts(spans: seq<Span>)
    requires spans == CrowdedMorning()
    ensures RawCount(spans, spans[0]) == 4
    ensures RawCount(spans, spans[1]) == 3
    ensures RawCount(spans, spans[2]) == 3
    ensures RawCount(spans, spans[3]) == 2
    ensures Covered(spans)
  {
    RawCountIsCardinality(spans, spans[0]);
    assert OverlapSet(spans, spans[0]) == {0, 1, 2, 3};
    RawCountIsCardinality(spans, spans[1]);
    assert OverlapSet(spans, spans[1]) == {0, 1, 2};
    RawCountIsCardinality(spans, spans[2]);
    assert OverlapSet(spans, spans[2]) == {0, 1, 2};
    RawCountIsCardinality(spans, spans[3]);
    assert OverlapSet(spans, spans[3]) == {0, 3};
  }

  /** Once the occurrences before the `i`-th are sized for two columns, so is the `i`-th. */
  lemma CrowdedMorningColumnStep(spans: seq<Span>, i: nat)
    requires spans == CrowdedMorning() && i < |spans| && Covered(spans)
    requires forall j :: 0 <= j < i ==> FinalColumns(spans)[j] == 2
    ensures FinalColumns(spans)[i] == 2
  {
    CrowdedMorningRawCounts(spans);
    SequentialMinimum(spans, i);
    if i == 0 {
      assert Overlaps(spans[0], spans[3]);
    } else {
      assert Overlaps(spans[i], spans[0]);
    }
  }

  /** Every occurrence is sized for two columns. */
  lemma CrowdedMorningColumns(spans: seq<Span>)
    requires spans == CrowdedMorning()
    ensures Covered(spans) && FinalColumns(spans) == [2, 2, 2, 2]
  {
    CrowdedMorningRawCounts(spans);
    CrowdedMorningColumnStep(spans, 0);
    CrowdedMorningColumnStep(spans, 1);
    CrowdedMorningColumnStep(spans, 2);
    CrowdedMorningColumnStep(spans, 3);
  }

  /**
   * First fit needs three columns here while every occurrence is sized for
   * two: the third occurrence's column is past the last column it is sized
   * for, so its box starts at the right edge of the table.
   */
  lemma CrowdedMorningOverflow(spans: seq<Span>, levels: seq<int>)
    requires spans == CrowdedMorning()
    requires IsFirstFit(spans, levels)
    ensures Covered(spans) && levels[2] >= FinalColumns(spans)[2]
  {
    CrowdedMorningLevels(spans, levels);
    CrowdedMorningColumns(spans);
  }

  /**
   * A short occurrence next to a long one, a third that starts when the
   * first ends, and an instant late in the third.
   */
  function StaggeredDay(): seq<Span> {
    [Span(0, 10), Span(0, 20), Span(10, 30), Span(25, 25)]
  }

  /** `[0, 1, 0, 1]` is a first-fit assignment of the layout. */
  lemma StaggeredDayFirstFit(spans: seq<Span>, levels: seq<int>)
    requires spans == StaggeredDay() && levels == [0, 1, 0, 1]
    ensures IsFirstFit(spans, levels)
  {
    assert FirstFitAt(spans, [0, 1, 0, 1], 0);
    assert FirstFitAt(spans, [0, 1, 0, 1], 1);
    assert FirstFitAt(spans, [0, 1, 0, 1], 2);
    assert FirstFitAt(spans, [0, 1, 0, 1], 3);
  }

  /** The second and fourth occurrences share column 1, the others column 0. */
  lemma StaggeredDayLevels(spans: seq<Span>, levels: seq<int>)
    requires spans == StaggeredDay()
    requires IsFirstFit(spans, levels)
    ensures levels == [0, 1, 0, 1]
  {
    StaggeredDayFirstFit(spans, [0, 1, 0, 1]);
    FirstFitUnique(spans, levels, [0, 1, 0, 1]);
  }

  /** The raw counts are 2, 3, 3 and 1: the instant overlaps only the third occurrence. */
  lemma StaggeredDayRawCounts(spans: seq<Span>)
    requires spans == StaggeredDay()
    ensures RawCount(spans, spans[0]) == 2
    ensures RawCount(spans, spans[1]) == 3
    ensures RawCount(spans, spans[2]) == 3
    ensures RawCount(spans, spans[3]) == 1
    ensures Covered(spans)
  {
    RawCountIsCardinality(spans, spans[0]);
    assert OverlapSet(spans, spans[0]) == {0, 1};
    RawCountIsCardinality(spans, spans[1]);
    assert OverlapSet(spans, spans[1]) == {0, 1, 2};
    RawCountIsCardinality(spans, spans[2]);
    assert OverlapSet(spans, spans[2]) == {1, 2, 3};
    RawCountIsCardinality(spans, spans[3]);
    assert OverlapSet(spans, spans[3]) == {2};
  }

  /** Once the occurrences before the `i`-th have their column counts, so has the `i`-th. */
  lemma StaggeredDayColumnStep(spans: seq<Span>, i: nat)
    requires spans == StaggeredDay() && i < |spans| && Covered(spans)
    requires forall j :: 0 <= j < i ==> FinalColumns(spans)[j] == [2, 2, 1, 1][j]
    ensures FinalColumns(spans)[i] == [2, 2, 1, 1][i]
  {
    StaggeredDayRawCounts(spans);
    SequentialMinimum(spans, i);
    if i == 0 {
      assert Overlaps(spans[0], spans[0]);
    } else if i == 1 {
      assert Overlaps(spans[1], spans[0]);
    } else {
      assert Overlaps(spans[i], spans[5 - i]);
    }
  }

  /**
   * The first two occurrences are sized for two columns; the lowered count of
   * the instant pulls the third down to one column, and the instant with it.
   */
  lemma StaggeredDayColumns(spans: seq<Span>)
    requires spans == StaggeredDay()
    ensures Covered(spans) && FinalColumns(spans) == [2, 2, 1, 1]
  {
    StaggeredDayRawCounts(spans);
    StaggeredDayColumnStep(spans, 0);
    StaggeredDayColumnStep(spans, 1);
    StaggeredDayColumnStep(spans, 2);
    StaggeredDayColumnStep(spans, 3);
  }

  /**
   * Boxes sized for different column counts can collide: the second and third
   * occurrences overlap in time and sit in different columns, yet in a column
   * 100 pixels wide the second box spans pixels 50 to 98 and the third 0 to 98.
   */
  lemma StaggeredDayBoxesCollide(spans: seq<Span>, levels: seq<int>, height: int)
    requires spans == StaggeredDay()
    requires IsFirstFit(spans, levels)
    ensures Overlaps(spans[1], spans[2]) && levels[1] != levels[2]
    ensures Covered(spans) && FinalColumns(spans)[1] == 2 && FinalColumns(spans)[2] == 1
    ensures
      var x := BoxFor(Period(0, 30), spans[1], levels[1], FinalColumns(spans)[1], 100, height);
      var y := BoxFor(Period(0, 30), spans[2], levels[2], FinalColumns(spans)[2], 100, height);
      x.left == 50 && x.left + x.width == 98 && y.left == 0 && y.left + y.width == 98
  {
    StaggeredDayLevels(spans, levels);
    StaggeredDayColumns(spans);
  }
}
