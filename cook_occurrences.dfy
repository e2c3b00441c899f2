/**
 * The day view's occurrence layout (`_cook_occurrences`): three passes over
 * the occurrence objects that write a column, a column count, a pixel box
 * and a style class onto each of them.
 */
module CookOccurrences {
  import opened Wrappers
  import opened Timing
  import opened Columns
  import opened ColumnCounts

  /** Pixel geometry of one occurrence's box. */
  datatype Rect = Rect(left: int, top: int, width: int, height: int)

  /** Why a layout pass stopped. */
  datatype CookError =
    | EmptyMinimum(index: nat)  // `min` of an empty list: occurrence `index` overlaps nothing
    | ZeroPeriod                // the period's `timedelta.seconds` is 0, so the ratio divides by zero

  /** An occurrence of the day view, with the layout fields the pass attaches to it. */
  class Occurrence {
    const start: int
    const end: int
    var level: int
    var max: int
    var width: int
    var left: int
    var top: int
    var height: int
    var cls: string

    constructor (start: int, end: int)
      ensures this.start == start && this.end == end
    {
      this.start := start;
      this.end := end;
    }

    function AsSpan(): Span {
      Span(start, end)
    }

    function Box(): Rect
      reads this
    {
      Rect(left, top, width, height)
    }
  }

  function Spans(occs: seq<Occurrence>): (s: seq<Span>)
    ensures |s| == |occs|
    ensures forall i :: 0 <= i < |occs| ==> s[i] == occs[i].AsSpan()
  {
    seq(|occs|, i requires 0 <= i < |occs| => occs[i].AsSpan())
  }

  ghost function Levels(occs: seq<Occurrence>): (ls: seq<int>)
    reads occs
    ensures |ls| == |occs|
  {
    seq(|occs|, i requires 0 <= i < |occs| reads occs => occs[i].level)
  }

  /** The current `max` field of every occurrence, in list order. */
  function Maxes(occs: seq<Occurrence>): (ms: seq<int>)
    reads occs
    ensures |ms| == |occs|
    ensures forall i :: 0 <= i < |occs| ==> ms[i] == occs[i].max
  {
    seq(|occs|, i requires 0 <= i < |occs| reads occs => occs[i].max)
  }

  predicate Distinct(occs: seq<Occurrence>) {
    forall a, b :: 0 <= a < b < |occs| ==> occs[a] != occs[b]
  }

  /**
   * The box of an occurrence in column `level` of a group sized for `columns`
   * columns: each column is `tableWidth / columns` pixels wide with a 2-pixel
   * gutter, and the vertical extent is the occurrence's share of the period,
   * cut off at the bottom of the table.
   */
  function BoxFor(period: Period, s: Span, level: int, columns: int, tableWidth: int, tableHeight: int): (b: Rect)
    requires columns >= 1 && DeltaSeconds(period.end - period.start) > 0
    ensures b.top + b.height <= tableHeight
  {
    var w := tableWidth / columns;
    var total := DeltaSeconds(period.end - period.start);
    var top := Scale(tableHeight, DeltaSeconds(s.start - period.start), total);
    var height := Scale(tableHeight, DeltaSeconds(s.end - s.start), total);
    Rect(w * level, top, w - 2, if height < tableHeight - top then height else tableHeight - top)
  }

  /** A box whose column lies below its column count stays inside the table's width. */
  lemma BoxWithinWidth(period: Period, s: Span, level: int, columns: int, tableWidth: int, tableHeight: int)
    requires columns >= 1 && DeltaSeconds(period.end - period.start) > 0
    requires 0 <= level < columns && tableWidth >= 0
    ensures var b := BoxFor(period, s, level, columns, tableWidth, tableHeight);
      0 <= b.left && b.left + b.width + 2 <= tableWidth
  {
    var w := tableWidth / columns;
    assert w >= 0;
    MulLeftMono(w, level + 1, columns);
    assert w * columns <= tableWidth;
  }

  /** Boxes sized for the same column count and placed in different columns do not overlap horizontally. */
  lemma BoxesSideBySide(period: Period, s: Span, t: Span, a: int, b: int, columns: int, tableWidth: int, tableHeight: int)
    requires columns >= 1 && DeltaSeconds(period.end - period.start) > 0
    requires a < b && tableWidth >= 0
    ensures var x := BoxFor(period, s, a, columns, tableWidth, tableHeight);
      var y := BoxFor(period, t, b, columns, tableWidth, tableHeight);
      x.left + x.width < y.left
  {
    var w := tableWidth / columns;
    MulLeftMono(w, a + 1, b);
  }

  /**
   * An occurrence inside a period shorter than a day, drawn in a table of
   * non-negative height, gets a box that starts and ends inside the table.
   */
  lemma BoxWithinHeight(period: Period, s: Span, level: int, columns: int, tableWidth: int, tableHeight: int)
    requires columns >= 1 && 0 < period.end - period.start < SecondsPerDay
    requires period.start <= s.start <= s.end <= period.end && tableHeight >= 0
    ensures var b := BoxFor(period, s, level, columns, tableWidth, tableHeight);
      0 <= b.top && 0 <= b.height && b.top + b.height <= tableHeight
  {
    var total := period.end - period.start;
    ScaleWithin(tableHeight, s.start - period.start, total);
    ScaleWithin(tableHeight, s.end - s.start, total);
  }

  /**
   * The error pass 3 stops with when it starts at position `from` with a
   * period whose seconds are `total`: `min` of an empty list at the first
   * occurrence that overlaps nothing, unless the division by `total` fails
   * first, on the first occurrence that gets that far.
   */
  function FirstFailure(spans: seq<Span>, total: int, from: nat): Option<CookError>
    requires from <= |spans|
    decreases |spans| - from
  {
    if from == |spans| then None
    else if RawCount(spans, spans[from]) == 0 then Some(EmptyMinimum(from))
    else if total == 0 then Some(ZeroPeriod)
    else FirstFailure(spans, total, from + 1)
  }

  /**
   * The layout succeeds exactly when every occurrence overlaps some
   * occurrence and, unless the list is empty, the period's seconds are not
   * 0; it fails on the period exactly when the first occurrence overlaps
   * something and the period's seconds are 0; otherwise it fails at the
   * first occurrence that overlaps nothing.
   */
  lemma {:induction false} FirstFailureCases(spans: seq<Span>, total: int, from: nat)
    requires from <= |spans| && CoveredUpTo(spans, from) && (from > 0 ==> total != 0)
    ensures FirstFailure(spans, total, from).None? <==> Covered(spans) && (|spans| == 0 || total != 0)
    ensures FirstFailure(spans, total, from) == Some(ZeroPeriod) <==>
      |spans| > 0 && RawCount(spans, spans[0]) > 0 && total == 0
    ensures FirstFailure(spans, total, from).Some? && FirstFailure(spans, total, from).value.EmptyMinimum? ==>
      var i := FirstFailure(spans, total, from).value.index;
      i < |spans| && RawCount(spans, spans[i]) == 0 && CoveredUpTo(spans, i)
    decreases |spans| - from
  {
    if from < |spans| {
      if RawCount(spans, spans[from]) != 0 && total != 0 {
        CoveredUpToNext(spans, from);
        FirstFailureCases(spans, total, from + 1);
      } else if from > 0 {
        assert RawCount(spans, spans[0]) > 0;
      }
    }
  }

  /** Occurrence `o` has been given the box and style class of column `level` in a group of `o.max` columns. */
  predicate Placed(o: Occurrence, period: Period, level: int, tableWidth: int, tableHeight: int, classify: Span -> string)
    reads o
  {
    && o.max >= 1
    && DeltaSeconds(period.end - period.start) > 0
    && o.Box() == BoxFor(period, o.AsSpan(), level, o.max, tableWidth, tableHeight)
    && o.cls == classify(o.AsSpan())
  }

  /**
   * The scan of `sorted(last.keys())` in pass 1: the lowest column whose
   * latest occupant ends at or before `start`, or, when there is none, the
   * column one past the highest in use. `columns` is the number of columns
   * in use, which are exactly the keys of `last`.
   */
  method FirstFreeColumn(occs: seq<Occurrence>, last: map<int, nat>, start: int, ghost columns: int)
    returns (k: int, free: bool)
    requires columns >= 0
    requires forall c :: c in last <==> 0 <= c < columns
    requires forall c :: c in last ==> last[c] < |occs|
    ensures 0 <= k
    ensures free ==> k in last && occs[last[k]].end <= start
    ensures !free ==> k == columns
    ensures forall d :: 0 <= d < k ==> d in last && occs[last[d]].end > start
  {
    k := 0;
    free := false;
    while k in last
      invariant 0 <= k <= columns
      invariant forall d :: 0 <= d < k ==> d in last && occs[last[d]].end > start
      decreases columns - k
    {
      if occs[last[k]].end <= start {
        free := true;
        return;
      }
      k := k + 1;
    }
  }

  /**
   * `last` records, for the assignment `levels` of the occurrences before
   * position `i`, each column in use and the position of its latest occupant.
   */
  ghost predicate LastOccupants(last: map<int, nat>, levels: seq<int>) {
    && (forall j :: 0 <= j < |levels| ==> levels[j] >= 0)
    && (forall c :: c in last <==> 0 <= c < ColumnCount(levels))
    && (forall c :: c in last ==> last[c] == LastIn(levels, c))
  }

  /** Making position `|levels|` the occupant of column `c` keeps `last` in step with the assignment. */
  lemma LastOccupantsAppend(last: map<int, nat>, levels: seq<int>, c: int)
    requires LastOccupants(last, levels)
    requires 0 <= c <= ColumnCount(levels)
    ensures LastOccupants(last[c := |levels|], levels + [c])
  {
    var levels', last' := levels + [c], last[c := |levels|];
    AppendLevel(levels, c, c);
    forall j | 0 <= j < |levels'| ensures levels'[j] >= 0 {
      if j < |levels| { assert levels'[j] == levels[j]; }
    }
    forall d | d in last' ensures last'[d] == LastIn(levels', d) {
      AppendLevel(levels, c, d);
    }
  }

  /**
   * One step of pass 1: occurrence `i` takes a column, given the columns of
   * the occurrences before it, and becomes that column's latest occupant.
   */
  method TakeColumn(occs: seq<Occurrence>, i: nat, last: map<int, nat>, ghost levels: seq<int>)
    returns (last': map<int, nat>)
    requires i < |occs| && |levels| == i
    requires LastOccupants(last, levels)
    modifies occs[i]
    ensures occs[i].max == 0
    ensures FirstFitAt(Spans(occs), levels + [occs[i].level], i)
    ensures LastOccupants(last', levels + [occs[i].level])
  {
    ghost var spans := Spans(occs);
    var o := occs[i];
    o.level := -1;
    o.max := 0;
    var c;
    if last == map[] {
      assert ColumnCount(levels) == 0 by {
        assert 0 !in last;
      }
      c := 0;
    } else {
      var free;
      c, free := FirstFreeColumn(occs, last, o.start, ColumnCount(levels));
      // on a miss the source's `k` is left at the largest key and the new column is `k + 1`,
      // which is the `k` returned here
    }
    ChoiceIsFirstFit(spans, levels, c);
    LastOccupantsAppend(last, levels, c);
    last' := last[c := i];
    o.level := c;
  }

  /**
   * Pass 1 of the layout: every occurrence, in list order, takes the lowest
   * column whose latest occupant ends at or before it starts, or opens a new
   * column one past the highest in use. `max` is reset to 0.
   */
  method AssignColumns(occs: seq<Occurrence>)
    requires Distinct(occs)
    modifies occs
    ensures IsFirstFit(Spans(occs), Levels(occs))
    ensures forall j :: 0 <= j < |occs| ==> occs[j].max == 0
  {
    ghost var spans := Spans(occs);
    // `last` maps each column to the position of its latest occupant.
    var last: map<int, nat> := map[];
    ghost var levels: seq<int> := [];
    var i := 0;
    while i < |occs|
      invariant 0 <= i <= |occs| && |levels| == i
      invariant forall j :: 0 <= j < i ==> occs[j].level == levels[j] && occs[j].max == 0
      invariant forall j :: 0 <= j < i ==> FirstFitAt(spans, levels, j)
      invariant LastOccupants(last, levels)
    {
      last := TakeColumn(occs, i, last, levels);
      FirstFitExtend(spans, levels, occs[i].level);
      levels := levels + [occs[i].level];
      i := i + 1;
    }
    assert Levels(occs) == levels;
  }

  /** Pass 2 of the layout: `max` becomes the number of occurrences each one overlaps. */
  method CountOverlaps(occs: seq<Occurrence>)
    requires Distinct(occs)
    modifies occs
    ensures Maxes(occs) == RawCounts(Spans(occs))
    ensures Levels(occs) == old(Levels(occs))
  {
    var spans := Spans(occs);
    var i := 0;
    while i < |occs|
      invariant 0 <= i <= |occs|
      invariant forall j :: 0 <= j < |occs| ==> occs[j].level == old(occs[j].level)
      invariant forall j :: 0 <= j < i ==> occs[j].max == RawCount(spans, spans[j])
    {
      occs[i].max := RawCount(spans, spans[i]);
      i := i + 1;
    }
  }

  /**
   * The body of pass 3 once the column count of `o` is known: the box width
   * and left edge, then (unless the period's seconds are 0, where the source
   * divides by zero) the top, the height cut off at the table's bottom, and
   * the style class.
   */
  method PlaceOne(period: Period, o: Occurrence, columns: int, width: int, height: int, classify: Span -> string)
    returns (ok: bool)
    requires columns >= 1
    modifies o
    ensures o.level == old(o.level) && o.max == columns
    ensures ok <==> DeltaSeconds(period.end - period.start) > 0
    ensures ok ==> Placed(o, period, o.level, width, height, classify)
  {
    o.max := columns;
    var w := width / o.max;
    o.width := w - 2;
    o.left := w * o.level;
    var total := DeltaSeconds(period.end - period.start);
    if total == 0 {
      return false;
    }
    o.top := Scale(height, DeltaSeconds(o.start - period.start), total);
    o.height := Scale(height, DeltaSeconds(o.end - o.start), total);
    o.height := if o.height < height - o.top then o.height else height - o.top;
    o.cls := classify(o.AsSpan());
    ok := true;
  }

  /**
   * One step of pass 3 on occurrence `i`, once the occurrences before it are
   * done: `max` becomes the minimum current `max` over the occurrences that
   * overlap it, then its box and style class are computed.
   */
  method SizeOne(period: Period, occs: seq<Occurrence>, i: nat, width: int, height: int, classify: Span -> string)
    returns (failure: Option<CookError>)
    requires Distinct(occs)
    requires i < |occs| && CoveredUpTo(Spans(occs), i)
    requires Maxes(occs) == ColumnsAfter(Spans(occs), i)
    requires forall j :: 0 <= j < i ==> Placed(occs[j], period, occs[j].level, width, height, classify)
    modifies occs[i]
    ensures forall j :: 0 <= j < |occs| ==> occs[j].level == old(occs[j].level)
    ensures failure ==
      if RawCount(Spans(occs), occs[i].AsSpan()) == 0 then Some(EmptyMinimum(i))
      else if DeltaSeconds(period.end - period.start) == 0 then Some(ZeroPeriod)
      else None
    ensures failure.None? ==> CoveredUpTo(Spans(occs), i + 1)
    ensures failure.None? ==> Maxes(occs) == ColumnsAfter(Spans(occs), i + 1)
    ensures failure.None? ==>
      forall j :: 0 <= j <= i ==> Placed(occs[j], period, occs[j].level, width, height, classify)
  {
    var spans := Spans(occs);
    var o := occs[i];
    var ms := OverlapValues(spans, Maxes(occs), o.AsSpan());
    if |ms| == 0 {
      return Some(EmptyMinimum(i));
    }
    CoveredUpToNext(spans, i);
    ColumnsAfterPositive(spans, i + 1);
    ghost var next := ColumnsAfter(spans, i + 1);
    assert MinOf(ms) == Lowered(spans, i + 1);
    assert next == ColumnsAfter(spans, i)[i := MinOf(ms)];
    var ok := PlaceOne(period, o, MinOf(ms), width, height, classify);
    if !ok {
      return Some(ZeroPeriod);
    }
    assert Maxes(occs) == next;
    failure := None;
  }

  /**
   * Pass 3 of the layout: in list order, `max` becomes the minimum current
   * `max` over the occurrences overlapping this one, then the box and style
   * class are computed. Stops at the first occurrence that overlaps nothing
   * (`min` of an empty list) or, on the first occurrence, when the period's
   * seconds are 0.
   */
  method SizeBoxes(period: Period, occs: seq<Occurrence>, width: int, height: int, classify: Span -> string)
    returns (failure: Option<CookError>)
    requires Distinct(occs)
    requires Maxes(occs) == RawCounts(Spans(occs))
    modifies occs
    ensures forall j :: 0 <= j < |occs| ==> occs[j].level == old(occs[j].level)
    ensures failure == FirstFailure(Spans(occs), DeltaSeconds(period.end - period.start), 0)
    ensures failure.None? ==> Covered(Spans(occs)) && Maxes(occs) == FinalColumns(Spans(occs))
    ensures failure.None? ==>
      forall i :: 0 <= i < |occs| ==> Placed(occs[i], period, occs[i].level, width, height, classify)
  {
    ghost var spans := Spans(occs);
    ghost var total := DeltaSeconds(period.end - period.start);
    failure := None;
    var i := 0;
    while i < |occs|
      invariant 0 <= i <= |occs|
      invariant failure.None?
      invariant forall j :: 0 <= j < |occs| ==> occs[j].level == old(occs[j].level)
      invariant CoveredUpTo(spans, i)
      invariant FirstFailure(spans, total, 0) == FirstFailure(spans, total, i)
      invariant Maxes(occs) == ColumnsAfter(spans, i)
      invariant forall j :: 0 <= j < i ==> Placed(occs[j], period, occs[j].level, width, height, classify)
    {
      failure := SizeOne(period, occs, i, width, height, classify);
      if failure.Some? {
        break;
      }
      i := i + 1;
    }
    if failure.None? {
      assert i == |occs| && Covered(spans);
      assert FinalColumns(spans) == ColumnsAfter(spans, i);
    }
  }

  /**
   * Lays out `occs` for `period` in a column `width` pixels wide and a table
   * `height` pixels high. `classify` stands for the period's classification
   * of an occurrence into a style class. Columns are always assigned; the
   * result is None when every occurrence was laid out, or the error raised
   * part-way through the last pass.
   */
  method Cook(period: Period, occs: seq<Occurrence>, width: int, height: int, classify: Span -> string)
    returns (failure: Option<CookError>)
    requires Distinct(occs)
    modifies occs
    ensures IsFirstFit(Spans(occs), Levels(occs))
    ensures failure == FirstFailure(Spans(occs), DeltaSeconds(period.end - period.start), 0)
    ensures failure.None? ==> Covered(Spans(occs)) && Maxes(occs) == FinalColumns(Spans(occs))
    ensures failure.None? ==>
      forall i :: 0 <= i < |occs| ==> Placed(occs[i], period, occs[i].level, width, height, classify)
  {
    AssignColumns(occs);
    ghost var levels := Levels(occs);
    CountOverlaps(occs);
    failure := SizeBoxes(period, occs, width, height, classify);
    assert Levels(occs) == levels;
  }
}
