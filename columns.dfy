/**
 * Column ("level") assignment of the day view, stated without the `last`
 * dictionary: each occurrence takes the lowest column whose latest occupant
 * ends at or before it starts, or opens the next column when none does.
 */
module Columns {
  import opened Timing

  /** The index of the latest entry of `levels` equal to column `c`, or -1 when the column is unused. */
  function LastIn(levels: seq<int>, c: int): (r: int)
    ensures -1 <= r < |levels|
    ensures r >= 0 ==> levels[r] == c
    ensures forall j :: r < j < |levels| ==> levels[j] != c
  {
    if |levels| == 0 then -1
    else if levels[|levels| - 1] == c then |levels| - 1
    else LastIn(levels[..|levels| - 1], c)
  }

  /** The number of columns opened so far: one past the highest level used. */
  function ColumnCount(levels: seq<int>): (n: int)
    ensures n >= 0
    ensures forall j :: 0 <= j < |levels| ==> levels[j] < n
  {
    if |levels| == 0 then 0
    else
      var n := ColumnCount(levels[..|levels| - 1]);
      var c := levels[|levels| - 1];
      if c + 1 > n then c + 1 else n
  }

  /** Column `d` has an occupant among the already-placed occurrences. */
  predicate Occupied(before: seq<int>, d: int) {
    LastIn(before, d) >= 0
  }

  /** Occurrence `j` got the first column that was free at its start, or a new one. */
  predicate FirstFitAt(spans: seq<Span>, levels: seq<int>, j: nat)
    requires j < |levels| <= |spans|
  {
    var before := levels[..j];
    var c := levels[j];
    && 0 <= c <= ColumnCount(before)
    && (forall d :: 0 <= d < c ==>
          Occupied(before, d) && spans[LastIn(before, d)].end > spans[j].start)
    && (c < ColumnCount(before) ==>
          Occupied(before, c) && spans[LastIn(before, c)].end <= spans[j].start)
  }

  /** `levels` is the greedy first-fit column assignment of `spans`, in list order. */
  predicate IsFirstFit(spans: seq<Span>, levels: seq<int>) {
    |levels| == |spans| && forall j :: 0 <= j < |levels| ==> FirstFitAt(spans, levels, j)
  }

  /** Every prefix of a first-fit assignment is the first-fit assignment of the prefix. */
  lemma FirstFitPrefix(spans: seq<Span>, levels: seq<int>, k: nat)
    requires IsFirstFit(spans, levels) && k <= |levels|
    ensures IsFirstFit(spans[..k], levels[..k])
  {
    forall j | 0 <= j < k ensures FirstFitAt(spans[..k], levels[..k], j) {
      assert levels[..k][..j] == levels[..j];
      assert FirstFitAt(spans, levels, j);
    }
  }

  /** The columns in use are exactly 0 .. ColumnCount - 1: no column is skipped. */
  lemma {:induction false} ColumnsContiguous(spans: seq<Span>, levels: seq<int>)
    requires IsFirstFit(spans, levels)
    ensures forall j :: 0 <= j < |levels| ==> 0 <= levels[j]
    ensures forall d :: 0 <= d < ColumnCount(levels) ==> Occupied(levels, d)
  {
    if |levels| > 0 {
      var n := |levels| - 1;
      FirstFitPrefix(spans, levels, n);
      ColumnsContiguous(spans[..n], levels[..n]);
      assert FirstFitAt(spans, levels, n);
      assert levels[..n] + [levels[n]] == levels;
      forall d | 0 <= d < ColumnCount(levels) ensures Occupied(levels, d) {
        if d != levels[n] {
          assert d < ColumnCount(levels[..n]);
          assert Occupied(levels[..n], d);
        }
      }
    }
  }

  /** The first occurrence always gets column 0. */
  lemma FirstGetsColumnZero(spans: seq<Span>, levels: seq<int>)
    requires IsFirstFit(spans, levels) && |levels| > 0
    ensures levels[0] == 0
  {
    assert FirstFitAt(spans, levels, 0);
    assert levels[..0] == [];
  }

  /**
   * Within one column each new occupant starts at or after the end of the
   * occupant it replaces.
   */
  lemma SameColumnFollows(spans: seq<Span>, levels: seq<int>, i: nat, j: nat)
    requires IsFirstFit(spans, levels)
    requires i < j < |levels| && levels[i] == levels[j]
    requires forall k :: i < k < j ==> levels[k] != levels[i]
    ensures spans[i].end <= spans[j].start
  {
    var before := levels[..j];
    assert FirstFitAt(spans, levels, j);
    assert before[i] == levels[j];
    assert LastIn(before, levels[j]) == i;
  }

  /**
   * For occurrences that do not end before they start, two occurrences given
   * the same column never overlap, whatever the input order.
   */
  lemma {:induction false} SameColumnDisjoint(spans: seq<Span>, levels: seq<int>, i: nat, j: nat)
    requires IsFirstFit(spans, levels)
    requires forall k :: 0 <= k < |spans| ==> WellFormed(spans[k])
    requires i < j < |levels| && levels[i] == levels[j]
    ensures spans[i].end <= spans[j].start
    ensures !Overlaps(spans[i], spans[j]) && !Overlaps(spans[j], spans[i])
    decreases j
  {
    var before := levels[..j];
    assert before[i] == levels[j];
    var p := LastIn(before, levels[j]);
    assert p >= i;
    assert levels[p] == levels[j];
    assert forall k :: p < k < j ==> levels[k] == before[k];
    SameColumnFollows(spans, levels, p, j);
    if p > i {
      SameColumnDisjoint(spans, levels, i, p);
      assert WellFormed(spans[p]);
    }
  }

  /** Two first-fit assignments of the same list are equal: the layout is deterministic. */
  lemma {:induction false} FirstFitUnique(spans: seq<Span>, a: seq<int>, b: seq<int>)
    requires IsFirstFit(spans, a) && IsFirstFit(spans, b)
    ensures a == b
  {
    var n := |a|;
    if n > 0 {
      FirstFitPrefix(spans, a, n - 1);
      FirstFitPrefix(spans, b, n - 1);
      FirstFitUnique(spans[..n - 1], a[..n - 1], b[..n - 1]);
      assert FirstFitAt(spans, a, n - 1);
      assert FirstFitAt(spans, b, n - 1);
      assert a[n - 1] == b[n - 1];
      assert a == a[..n - 1] + [a[n - 1]];
      assert b == b[..n - 1] + [b[n - 1]];
    }
  }

  /** Appending the first-fit choice of the next occurrence keeps the assignment first-fit. */
  lemma FirstFitExtend(spans: seq<Span>, levels: seq<int>, c: int)
    requires |levels| < |spans|
    requires forall j :: 0 <= j < |levels| ==> FirstFitAt(spans, levels, j)
    requires FirstFitAt(spans, levels + [c], |levels|)
    ensures forall j :: 0 <= j < |levels| + 1 ==> FirstFitAt(spans, levels + [c], j)
  {
    forall j | 0 <= j < |levels| ensures FirstFitAt(spans, levels + [c], j) {
      assert (levels + [c])[..j] == levels[..j];
      assert FirstFitAt(spans, levels, j);
    }
  }

  /**
   * The choice pass 1 makes for the next occurrence is first-fit: column `c`
   * when every lower column's latest occupant ends after the occurrence
   * starts and `c` is either a column whose latest occupant ends at or
   * before that start, or the next new column.
   */
  lemma ChoiceIsFirstFit(spans: seq<Span>, levels: seq<int>, c: int)
    requires |levels| < |spans|
    requires 0 <= c <= ColumnCount(levels)
    requires forall d :: 0 <= d < c ==> Occupied(levels, d) && spans[LastIn(levels, d)].end > spans[|levels|].start
    requires c < ColumnCount(levels) ==> Occupied(levels, c) && spans[LastIn(levels, c)].end <= spans[|levels|].start
    ensures FirstFitAt(spans, levels + [c], |levels|)
  {
    assert (levels + [c])[..|levels|] == levels;
  }

  /** Placing column `c` at the end makes it that column's latest entry and opens at most one column. */
  lemma AppendLevel(levels: seq<int>, c: int, d: int)
    ensures LastIn(levels + [c], d) == if d == c then |levels| else LastIn(levels, d)
    ensures ColumnCount(levels + [c]) == if c + 1 > ColumnCount(levels) then c + 1 else ColumnCount(levels)
  {
    assert (levels + [c])[..|levels|] == levels;
  }
}
