/**
 * Instants, periods and the arithmetic the layout code does on them.
 * Instants are whole seconds; a Python `timedelta` between two instants is
 * their difference in seconds.
 */
module Timing {

  const SecondsPerDay: int := 86400

  /** A period of the day view: the range `[start, end)` in seconds. */
  datatype Period = Period(start: int, end: int)

  /** The start and end instant of one occurrence. */
  datatype Span = Span(start: int, end: int)

  /**
   * `timedelta.seconds` of a duration of `d` seconds: Python normalises a
   * timedelta to whole days plus a seconds part in [0, 86400), and `.seconds`
   * is that part alone, so whole days are dropped and a negative duration
   * wraps around.
   */
  function DeltaSeconds(d: int): (r: int)
    ensures 0 <= r < SecondsPerDay
    ensures (d - r) % SecondsPerDay == 0
    ensures 0 <= d < SecondsPerDay ==> r == d
  {
    d % SecondsPerDay
  }

  /** `int(x)` applied to the quotient `a / b`: division truncating toward zero. */
  function TruncDiv(a: int, b: int): (r: int)
    requires b > 0
    ensures a >= 0 ==> 0 <= r && r * b <= a < (r + 1) * b
    ensures a < 0 ==> r <= 0 && a <= r * b && (r - 1) * b < a
  {
    if a >= 0 then FloorDivBounds(a, b); a / b
    else FloorDivBounds(-a, b); -((-a) / b)
  }

  /** Floor division of a non-negative number: the quotient times the divisor is within one divisor below it. */
  lemma FloorDivBounds(a: int, b: int)
    requires a >= 0 && b > 0
    ensures 0 <= a / b && (a / b) * b <= a < (a / b + 1) * b
  {
    var q, m := a / b, a % b;
    assert a == q * b + m && 0 <= m < b;
    assert (q + 1) * b == q * b + b;
  }

  /** `int(height * (float(secs) / total))`, with the float ratio computed exactly. */
  function Scale(height: int, secs: int, total: int): int
    requires total > 0
  {
    TruncDiv(height * secs, total)
  }

  /**
   * The test the source writes as `not(n.end <= o.start or n.start >= o.end)`:
   * `n` shares some instant with the half-open range of `o`.
   */
  predicate Overlaps(o: Span, n: Span) {
    !(n.end <= o.start || n.start >= o.end)
  }

  predicate WellFormed(s: Span) {
    s.start <= s.end
  }

  /** Overlap is symmetric, and a span overlaps itself exactly when it is not empty. */
  lemma OverlapsSymmetric(a: Span, b: Span)
    ensures Overlaps(a, b) <==> Overlaps(b, a)
    ensures Overlaps(a, a) <==> a.start < a.end
  {
  }

  /** Scaling a within-day offset that lies inside the period lands inside the table. */
  lemma {:induction false} ScaleWithin(height: int, secs: int, total: int)
    requires height >= 0 && 0 <= secs <= total && total > 0
    ensures 0 <= Scale(height, secs, total) <= height
  {
    assert height * secs <= height * total by {
      MulLeftMono(height, secs, total);
    }
    var r := Scale(height, secs, total);
    assert r * total <= height * total;
    if r > height {
      MulLeftMono(total, height + 1, r);
      assert false;
    }
  }

  lemma MulLeftMono(a: int, x: int, y: int)
    requires a >= 0 && x <= y
    ensures a * x <= a * y
  {
  }
}
