/** The counters of `updateStats` and the percentage of `updateProgressBar`. */
module Stats {

  import opened Seqs
  import opened Tasks

  datatype Counters = Counters(total: nat, completed: nat, pending: nat, overdue: nat)

  /** `updateStats`: pending is computed as total minus completed, which is exactly
      the number of pending tasks; the overdue tasks are among the pending ones. */
  function ComputeStats(tasks: seq<Task>, now: int): (c: Counters)
    ensures c.total == |tasks|
    ensures c.completed + c.pending == c.total
    ensures c.pending == |Filter(tasks, Not(Done))|
    ensures c.overdue == |Filter(tasks, OverdueAt(now))|
    ensures 0 <= c.overdue <= c.pending
  {
    var total := |tasks|;
    var completed := CompletedCount(tasks);
    FilterSplit(tasks, Done);
    FilterLengthMonotone(tasks, OverdueAt(now), Not(Done));
    Counters(total, completed, total - completed, |Filter(tasks, OverdueAt(now))|)
  }

  /** `Math.round(completed / total * 100)` on exact rationals: the integer nearest to
      `100 * completed / total`, halves rounded up; 0 for an empty collection. */
  function ProgressPercentage(tasks: seq<Task>): (pct: int)
    ensures 0 <= pct <= 100
    ensures |tasks| == 0 ==> pct == 0
    ensures |tasks| > 0 ==>
      -|tasks| < 2 * (pct * |tasks| - 100 * CompletedCount(tasks)) <= |tasks|
    ensures |tasks| > 0 && CompletedCount(tasks) == |tasks| ==> pct == 100
    ensures CompletedCount(tasks) == 0 ==> pct == 0
  {
    var total := |tasks|;
    var completed := CompletedCount(tasks);
    if total > 0 then RoundedPercent(completed, total) else 0
  }

  /** Rounded percentage of `part` out of `whole`. */
  function RoundedPercent(part: int, whole: int): (pct: int)
    requires 0 <= part <= whole && whole > 0
    ensures 0 <= pct <= 100
    ensures -whole < 2 * (pct * whole - 100 * part) <= whole
    ensures part == whole ==> pct == 100
    ensures part == 0 ==> pct == 0
  {
    RoundedPercentBounds(part, whole);
    (200 * part + whole) / (2 * whole)
  }

  lemma RoundedPercentBounds(part: int, whole: int)
    requires 0 <= part <= whole && whole > 0
    ensures var q := (200 * part + whole) / (2 * whole);
      && 0 <= q <= 100
      && -whole < 2 * (q * whole - 100 * part) <= whole
      && (part == whole ==> q == 100)
      && (part == 0 ==> q == 0)
  {
    var q := (200 * part + whole) / (2 * whole);
    RoundingBounds(200 * part + whole, whole, q);
    if q > 100 {
      MulMonotone(101, q, whole);
    }
    if q < 0 {
      MulMonotone(q, -1, whole);
    }
    if part == whole && q < 100 {
      MulMonotone(q, 99, whole);
    }
    if part == 0 && q > 0 {
      MulMonotone(1, q, whole);
    }
  }

  /** The quotient of `n` by `2 * w`, with the product written as `q * w`. */
  lemma RoundingBounds(n: int, w: int, q: int)
    requires w > 0 && q == n / (2 * w)
    ensures 2 * (q * w) <= n < 2 * (q * w) + 2 * w
  {
    var d := 2 * w;
    assert n == d * q + n % d;
    assert d * q == 2 * (q * w);
  }

  lemma MulMonotone(a: int, b: int, w: int)
    requires a <= b && w > 0
    ensures a * w <= b * w
  {
    assert b * w - a * w == (b - a) * w;
  }
}
