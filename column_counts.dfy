/**
 * How many columns each occurrence's box is sized for: first the raw number
 * of occurrences it overlaps, then, in list order, the minimum of the current
 * values over the occurrences it overlaps. Values already lowered earlier in
 * the pass feed into later minimums.
 */
module ColumnCounts {
  import opened Timing

  /** `len([n for n in occs if overlaps(o, n)])`. */
  function RawCount(spans: seq<Span>, o: Span): (r: nat)
    ensures r <= |spans|
  {
    if |spans| == 0 then 0
    else RawCount(spans[..|spans| - 1], o) + (if Overlaps(o, spans[|spans| - 1]) then 1 else 0)
  }

  /** The positions of the occurrences that overlap `o`. */
  ghost function OverlapSet(spans: seq<Span>, o: Span): set<int> {
    set n | 0 <= n < |spans| && Overlaps(o, spans[n])
  }

  /** The raw count is the number of positions whose occurrence overlaps `o`. */
  lemma {:induction false} RawCountIsCardinality(spans: seq<Span>, o: Span)
    ensures RawCount(spans, o) == |OverlapSet(spans, o)|
  {
    if |spans| > 0 {
      var k := |spans| - 1;
      RawCountIsCardinality(spans[..k], o);
      var before := OverlapSet(spans[..k], o);
      if Overlaps(o, spans[k]) {
        assert OverlapSet(spans, o) == before + {k};
      } else {
        assert OverlapSet(spans, o) == before;
      }
    }
  }

  /** An occurrence that overlaps some entry of the list has a positive raw count. */
  lemma {:induction false} OverlapCounted(spans: seq<Span>, o: Span, n: nat)
    requires n < |spans| && Overlaps(o, spans[n])
    ensures RawCount(spans, o) > 0
  {
    var k := |spans| - 1;
    if n < k {
      OverlapCounted(spans[..k], o, n);
    }
  }

  /** An occurrence whose raw count is zero is an empty span that no other occurrence strictly contains. */
  lemma UncountedIsEmptyInstant(spans: seq<Span>, j: nat)
    requires j < |spans| && RawCount(spans, spans[j]) == 0
    ensures spans[j].end <= spans[j].start
    ensures forall n :: 0 <= n < |spans| ==> !Overlaps(spans[j], spans[n])
  {
    forall n | 0 <= n < |spans| ensures !Overlaps(spans[j], spans[n]) {
      if Overlaps(spans[j], spans[n]) {
        OverlapCounted(spans, spans[j], n);
      }
    }
    assert !Overlaps(spans[j], spans[j]);
  }

  /** The raw count of every occurrence, in list order (the source's first pass). */
  function RawCounts(spans: seq<Span>): (raw: seq<int>)
    ensures |raw| == |spans|
    ensures forall j :: 0 <= j < |spans| ==> raw[j] == RawCount(spans, spans[j])
  {
    RawCountsOf(spans, |spans|)
  }

  /** The raw counts of the first `k` occurrences. */
  function RawCountsOf(spans: seq<Span>, k: nat): (raw: seq<int>)
    requires k <= |spans|
    ensures |raw| == k
    ensures forall j :: 0 <= j < k ==> raw[j] == RawCount(spans, spans[j])
  {
    if k == 0 then [] else RawCountsOf(spans, k - 1) + [RawCount(spans, spans[k - 1])]
  }

  /** `[n.max for n in occs if overlaps(o, n)]`, with `m` the current `max` values. */
  function OverlapValues(spans: seq<Span>, m: seq<int>, o: Span): (r: seq<int>)
    requires |m| == |spans|
    ensures |r| == RawCount(spans, o)
  {
    if |spans| == 0 then []
    else
      var k := |spans| - 1;
      OverlapValues(spans[..k], m[..k], o) + (if Overlaps(o, spans[k]) then [m[k]] else [])
  }

  /** The value of every occurrence that overlaps `o` is in the list. */
  lemma {:induction false} OverlapValueIncluded(spans: seq<Span>, m: seq<int>, o: Span, n: nat)
    requires |m| == |spans| && n < |spans| && Overlaps(o, spans[n])
    ensures m[n] in OverlapValues(spans, m, o)
  {
    var k := |spans| - 1;
    if n < k {
      assert spans[..k][n] == spans[n] && m[..k][n] == m[n];
      OverlapValueIncluded(spans[..k], m[..k], o, n);
    }
  }

  /** Every value in the list belongs to an occurrence that overlaps `o`. */
  lemma {:induction false} OverlapValueSource(spans: seq<Span>, m: seq<int>, o: Span, x: int)
    requires |m| == |spans| && x in OverlapValues(spans, m, o)
    ensures exists n :: 0 <= n < |spans| && Overlaps(o, spans[n]) && m[n] == x
  {
    var k := |spans| - 1;
    var front := OverlapValues(spans[..k], m[..k], o);
    if x in front {
      OverlapValueSource(spans[..k], m[..k], o, x);
      var n :| 0 <= n < k && Overlaps(o, spans[..k][n]) && m[..k][n] == x;
      assert spans[n] == spans[..k][n];
    } else {
      assert Overlaps(o, spans[k]) && m[k] == x;
    }
  }

  /** Python's `min` of a non-empty list. */
  function MinOf(xs: seq<int>): (r: int)
    requires |xs| > 0
    ensures r in xs
  {
    if |xs| == 1 then xs[0]
    else
      var rest := MinOf(xs[1..]);
      if xs[0] <= rest then xs[0] else rest
  }

  /** No value in the list is below its minimum. */
  lemma {:induction false} MinOfLowest(xs: seq<int>, x: int)
    requires x in xs
    ensures MinOf(xs) <= x
  {
    if |xs| > 1 && x != xs[0] {
      MinOfLowest(xs[1..], x);
    }
  }

  /** Every occurrence overlaps at least one occurrence, so no minimum is taken over an empty list. */
  predicate Covered(spans: seq<Span>) {
    CoveredUpTo(spans, |spans|)
  }

  /** The first `k` occurrences each overlap at least one occurrence. */
  predicate CoveredUpTo(spans: seq<Span>, k: nat)
    requires k <= |spans|
  {
    forall j {:trigger RawCount(spans, spans[j])} :: 0 <= j < k ==> RawCount(spans, spans[j]) > 0
  }

  lemma CoveredUpToNext(spans: seq<Span>, k: nat)
    requires k < |spans| && CoveredUpTo(spans, k) && RawCount(spans, spans[k]) > 0
    ensures CoveredUpTo(spans, k + 1)
  {
  }

  /** The `max` values after the source's third pass has handled the first `k` occurrences. */
  function ColumnsAfter(spans: seq<Span>, k: nat): (m: seq<int>)
    requires k <= |spans|
    requires CoveredUpTo(spans, k)
    ensures |m| == |spans|
    decreases k, 1
  {
    if k == 0 then RawCounts(spans)
    else ColumnsAfter(spans, k - 1)[k - 1 := Lowered(spans, k)]
  }

  /** The value step `k` gives occurrence `k - 1`: the minimum current value over the occurrences it overlaps. */
  function Lowered(spans: seq<Span>, k: nat): int
    requires 0 < k <= |spans|
    requires CoveredUpTo(spans, k)
    decreases k, 0
  {
    MinOf(OverlapValues(spans, ColumnsAfter(spans, k - 1), spans[k - 1]))
  }

  /** The final `max` of every occurrence. */
  function FinalColumns(spans: seq<Span>): (m: seq<int>)
    requires Covered(spans)
    ensures |m| == |spans|
  {
    ColumnsAfter(spans, |spans|)
  }

  /**
   * The value step `k` gives is the least current value of the occurrences
   * overlapping occurrence `k - 1`, and one of them holds it.
   */
  lemma LoweredIsMinimum(spans: seq<Span>, k: nat)
    requires 0 < k <= |spans| && CoveredUpTo(spans, k)
    ensures forall n :: 0 <= n < |spans| && Overlaps(spans[k - 1], spans[n]) ==>
              Lowered(spans, k) <= ColumnsAfter(spans, k - 1)[n]
    ensures exists n :: 0 <= n < |spans| && Overlaps(spans[k - 1], spans[n]) &&
              Lowered(spans, k) == ColumnsAfter(spans, k - 1)[n]
  {
    var m := ColumnsAfter(spans, k - 1);
    var vs := OverlapValues(spans, m, spans[k - 1]);
    forall n | 0 <= n < |spans| && Overlaps(spans[k - 1], spans[n]) ensures MinOf(vs) <= m[n] {
      OverlapValueIncluded(spans, m, spans[k - 1], n);
      MinOfLowest(vs, m[n]);
    }
    OverlapValueSource(spans, m, spans[k - 1], MinOf(vs));
  }

  /** An entry the pass has not reached yet still holds its raw count. */
  lemma {:induction false} ColumnsAfterPending(spans: seq<Span>, k: nat, j: nat)
    requires k <= j < |spans|
    requires CoveredUpTo(spans, k)
    ensures ColumnsAfter(spans, k)[j] == RawCount(spans, spans[j])
  {
    if k == 0 {
      assert ColumnsAfter(spans, k) == RawCounts(spans);
    } else {
      ColumnsAfterStep(spans, k, j);
      ColumnsAfterPending(spans, k - 1, j);
    }
  }

  /** An entry the pass has handled keeps its value through every later step. */
  lemma {:induction false} ColumnsAfterSettled(spans: seq<Span>, k: nat, k2: nat, j: nat)
    requires j < k <= k2 <= |spans|
    requires CoveredUpTo(spans, k2)
    ensures ColumnsAfter(spans, k2)[j] == ColumnsAfter(spans, k)[j]
    decreases k2
  {
    if k < k2 {
      ColumnsAfterStep(spans, k2, j);
      ColumnsAfterSettled(spans, k, k2 - 1, j);
    }
  }

  /** Step `k` of the pass only rewrites entry `k - 1`. */
  lemma ColumnsAfterStep(spans: seq<Span>, k: nat, j: nat)
    requires 0 < k <= |spans| && j < |spans| && j != k - 1
    requires CoveredUpTo(spans, k)
    ensures ColumnsAfter(spans, k)[j] == ColumnsAfter(spans, k - 1)[j]
  {
  }

  /** Every entry with a positive raw count stays at least 1 throughout the pass. */
  lemma {:induction false} ColumnsAfterPositive(spans: seq<Span>, k: nat)
    requires k <= |spans|
    requires CoveredUpTo(spans, k)
    ensures forall j :: 0 <= j < |spans| && RawCount(spans, spans[j]) > 0 ==> ColumnsAfter(spans, k)[j] >= 1
  {
    if k > 0 {
      ColumnsAfterPositive(spans, k - 1);
      var m := ColumnsAfter(spans, k - 1);
      LoweredIsMinimum(spans, k);
      var n :| 0 <= n < |spans| && Overlaps(spans[k - 1], spans[n]) && Lowered(spans, k) == m[n];
      OverlapsSymmetric(spans[k - 1], spans[n]);
      OverlapCounted(spans, spans[n], k - 1);
      forall j | 0 <= j < |spans| && RawCount(spans, spans[j]) > 0 ensures ColumnsAfter(spans, k)[j] >= 1 {
        if j == k - 1 {
          assert ColumnsAfter(spans, k)[j] == Lowered(spans, k);
        } else {
          ColumnsAfterStep(spans, k, j);
        }
      }
    }
  }


  /**
   * When occurrence `i` is reached, an earlier occurrence `n` already holds
   * its final count and a later one (or `i` itself) still holds its raw count.
   */
  lemma ColumnsSeenAt(spans: seq<Span>, i: nat, n: nat)
    requires Covered(spans) && i < |spans| && n < |spans|
    ensures ColumnsAfter(spans, i)[n] == (if n < i then FinalColumns(spans)[n] else RawCount(spans, spans[n]))
  {
    if n < i {
      ColumnsAfterSettled(spans, n + 1, i, n);
      ColumnsAfterSettled(spans, n + 1, |spans|, n);
    } else {
      ColumnsAfterPending(spans, i, n);
    }
  }

  /**
   * The final count of occurrence `i` is the minimum, over the occurrences `n`
   * it overlaps, of `n`'s final count when `n` comes earlier in the list and of
   * `n`'s raw count when it comes later (or is `i` itself).
   */
  lemma SequentialMinimum(spans: seq<Span>, i: nat)
    requires Covered(spans) && i < |spans|
    ensures forall n :: 0 <= n < |spans| && Overlaps(spans[i], spans[n]) ==>
              FinalColumns(spans)[i] <= (if n < i then FinalColumns(spans)[n] else RawCount(spans, spans[n]))
    ensures exists n :: 0 <= n < |spans| && Overlaps(spans[i], spans[n]) &&
              FinalColumns(spans)[i] == (if n < i then FinalColumns(spans)[n] else RawCount(spans, spans[n]))
  {
    var fin := FinalColumns(spans);
    var m := ColumnsAfter(spans, i);
    ColumnsAfterSettled(spans, i + 1, |spans|, i);
    assert fin[i] == Lowered(spans, i + 1);
    LoweredIsMinimum(spans, i + 1);
    forall n | 0 <= n < |spans|
      ensures m[n] == (if n < i then fin[n] else RawCount(spans, spans[n]))
    {
      ColumnsSeenAt(spans, i, n);
    }
  }

  /** Every final count is at least 1, and a non-empty occurrence's final count is at most its raw count. */
  lemma FinalColumnsBounds(spans: seq<Span>, i: nat)
    requires Covered(spans) && i < |spans|
    ensures FinalColumns(spans)[i] >= 1
    ensures spans[i].start < spans[i].end ==> FinalColumns(spans)[i] <= RawCount(spans, spans[i])
  {
    ColumnsAfterPositive(spans, |spans|);
    if spans[i].start < spans[i].end {
      SequentialMinimum(spans, i);
      assert Overlaps(spans[i], spans[i]);
    }
  }
}
