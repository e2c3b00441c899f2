/**
 * The time slots drawn down the left of the day view: the period is cut into
 * consecutive slots of `increment` minutes, each drawn at the same pixel
 * height, one under the other.
 */
module CookSlots {
  import opened Wrappers
  import opened Timing

  /** A time slot of the period, `[start, end)`, and where it is drawn. */
  datatype Slot = Slot(start: int, end: int, top: int, height: int)

  /** The increment's within-day seconds are 0, and the slot count divides by them. */
  datatype SlotError = ZeroIncrement

  /** The length of one slot in seconds: `increment` minutes, whole days included. */
  function IncrementSeconds(increment: int): int {
    increment * 60
  }

  /**
   * The number of slots: how many times the increment's within-day seconds
   * fit into the period's within-day seconds.
   */
  function SlotCount(period: Period, increment: int): (num: int)
    requires DeltaSeconds(IncrementSeconds(increment)) > 0
    ensures num >= 0
    ensures num * DeltaSeconds(IncrementSeconds(increment)) <= DeltaSeconds(period.end - period.start)
    ensures DeltaSeconds(period.end - period.start) < (num + 1) * DeltaSeconds(IncrementSeconds(increment))
  {
    DeltaSeconds(period.end - period.start) / DeltaSeconds(IncrementSeconds(increment))
  }

  /**
   * `slots` is what the slot pass produces for `period`: `SlotCount` slots,
   * the `i`-th starting `i` increments after the period's start and lasting
   * one increment, all of the same height, the `i`-th drawn `i` heights down.
   */
  predicate IsSlotLayout(period: Period, increment: int, height: int, slots: seq<Slot>)
    requires DeltaSeconds(IncrementSeconds(increment)) > 0
  {
    var num := SlotCount(period, increment);
    var t := IncrementSeconds(increment);
    && |slots| == num
    && forall i :: 0 <= i < |slots| ==>
         && slots[i].start == period.start + i * t
         && slots[i].end == period.start + (i + 1) * t
         && slots[i].height == TruncDiv(height, num)
         && slots[i].top == slots[i].height * i
  }

  /**
   * The slot pass. `width` is accepted and not used, as in the source. Fails
   * when the increment's within-day seconds are 0 (a multiple of a day).
   */
  method CookSlots(period: Period, increment: int, width: int, height: int)
    returns (r: Result<seq<Slot>, SlotError>)
    ensures r.Err? <==> DeltaSeconds(IncrementSeconds(increment)) == 0
    ensures r.Ok? ==> IsSlotLayout(period, increment, height, r.value)
  {
    var tdiff := IncrementSeconds(increment);
    if DeltaSeconds(tdiff) == 0 {
      return Err(ZeroIncrement);
    }
    var num := SlotCount(period, increment);
    var s := period.start;
    var slots: seq<Slot> := [];
    var i := 0;
    while i < num
      invariant 0 <= i <= num
      invariant s == period.start + i * tdiff
      invariant |slots| == i
      invariant forall j :: 0 <= j < i ==>
        && slots[j].start == period.start + j * tdiff
        && slots[j].end == period.start + (j + 1) * tdiff
        && slots[j].height == TruncDiv(height, num)
        && slots[j].top == slots[j].height * j
    {
      var h := TruncDiv(height, num);
      slots := slots + [Slot(s, s + tdiff, h * i, h)];
      s := s + tdiff;
      i := i + 1;
    }
    return Ok(slots);
  }

  /** Each slot ends where the next begins. */
  lemma SlotsContiguous(period: Period, increment: int, height: int, slots: seq<Slot>, i: nat)
    requires DeltaSeconds(IncrementSeconds(increment)) > 0
    requires IsSlotLayout(period, increment, height, slots)
    requires i + 1 < |slots|
    ensures slots[i].end == slots[i + 1].start
  {
  }

  /**
   * For a positive increment the slots are non-empty, in chronological order
   * and pairwise disjoint.
   */
  lemma {:induction false} SlotsOrdered(period: Period, increment: int, height: int, slots: seq<Slot>, i: nat, j: nat)
    requires increment > 0 && DeltaSeconds(IncrementSeconds(increment)) > 0
    requires IsSlotLayout(period, increment, height, slots)
    requires i < j < |slots|
    ensures slots[i].start < slots[i].end <= slots[j].start < slots[j].end
    ensures !Overlaps(Span(slots[i].start, slots[i].end), Span(slots[j].start, slots[j].end))
  {
    var t := IncrementSeconds(increment);
    MulLeftMono(t, i + 1, j);
  }

  /**
   * For a table of non-negative height every slot is drawn inside it, one
   * slot under the previous, and all the slots together are no taller than
   * the table.
   */
  lemma {:induction false} SlotsWithinTable(period: Period, increment: int, height: int, slots: seq<Slot>)
    requires DeltaSeconds(IncrementSeconds(increment)) > 0
    requires IsSlotLayout(period, increment, height, slots)
    requires height >= 0
    ensures forall i :: 0 <= i < |slots| ==> 0 <= slots[i].top && slots[i].top + slots[i].height <= height
    ensures forall i :: 0 <= i && i + 1 < |slots| ==> slots[i].top + slots[i].height == slots[i + 1].top
    ensures |slots| > 0 ==> |slots| * slots[0].height <= height
  {
    var num := |slots|;
    if num > 0 {
      var h := TruncDiv(height, num);
      assert 0 <= h && h * num <= height;
      forall i | 0 <= i < num ensures 0 <= slots[i].top && slots[i].top + slots[i].height <= height {
        StackedRowFits(h, num, height, i);
      }
      forall i | 0 <= i && i + 1 < num ensures slots[i].top + slots[i].height == slots[i + 1].top {
        StackedRowFits(h, num, height, i);
      }
    }
  }

  /** Row `i` of `num` rows `h` high, stacked from the top, lies inside a table `h * num` or more high. */
  lemma StackedRowFits(h: int, num: int, height: int, i: int)
    requires 0 <= h && 0 <= i < num && h * num <= height
    ensures 0 <= h * i && h * i + h <= height && h * i + h == h * (i + 1)
  {
    MulLeftMono(h, 0, i);
    MulLeftMono(h, i + 1, num);
  }

  /**
   * When the period and the increment are both shorter than a day, the slots
   * cover the period from its start, stopping within one increment of its end.
   */
  lemma {:induction false} SlotsCoverPeriod(period: Period, increment: int, height: int, slots: seq<Slot>)
    requires 0 < increment && IncrementSeconds(increment) < SecondsPerDay
    requires 0 <= period.end - period.start < SecondsPerDay
    requires IsSlotLayout(period, increment, height, slots)
    ensures |slots| > 0 ==> slots[0].start == period.start
    ensures |slots| > 0 ==> slots[|slots| - 1].end <= period.end < slots[|slots| - 1].end + IncrementSeconds(increment)
    ensures |slots| == 0 ==> period.end < period.start + IncrementSeconds(increment)
  {
    var t := IncrementSeconds(increment);
    assert DeltaSeconds(t) == t;
    assert DeltaSeconds(period.end - period.start) == period.end - period.start;
  }

  /**
   * A period of exactly one day has 0 within-day seconds, so it gets no
   * slots at all, whatever the increment.
   */
  lemma FullDayHasNoSlots(period: Period, increment: int, height: int, slots: seq<Slot>)
    requires DeltaSeconds(IncrementSeconds(increment)) > 0
    requires period.end - period.start == SecondsPerDay
    requires IsSlotLayout(period, increment, height, slots)
    ensures slots == []
  {
  }

  /** A two-hour period in 30-minute slots on a 400-pixel table: four slots 100 pixels high. */
  lemma TwoHoursInHalfHours(slots: seq<Slot>)
    requires IsSlotLayout(Period(8 * 3600, 10 * 3600), 30, 400, slots)
    ensures slots == [Slot(28800, 30600, 0, 100), Slot(30600, 32400, 100, 100),
                      Slot(32400, 34200, 200, 100), Slot(34200, 36000, 300, 100)]
  {
    assert SlotCount(Period(8 * 3600, 10 * 3600), 30) == 4;
    assert TruncDiv(400, 4) == 100;
  }
}
