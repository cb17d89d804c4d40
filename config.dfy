/** The arithmetic the probe derives from its configuration: the export
    frequency and the targets-update interval computed by Init, the stagger
    gap between newly started target loops, the bound of the start jitter,
    and the tick cadence of metric exports. Durations are nanoseconds. */
module Config {

  const Microsecond: nat := 1000
  const Millisecond: nat := 1000 * Microsecond
  const Second: nat := 1000 * Millisecond

  /** DefaultTargetsUpdateInterval: 10 seconds. */
  const DefaultTargetsUpdateInterval: nat := 10 * Second

  /** The quotient of Euclidean division is the unique q with n == q * d + r, 0 <= r < d. */
  lemma DivUnique(n: nat, d: nat, q: nat, r: nat)
    requires d > 0 && n == q * d + r && r < d
    ensures n / d == q && n % d == r
  {
    var q', r' := n / d, n % d;
    if q' < q {
      MulStep(q', q, d);
    } else if q' > q {
      MulStep(q, q', d);
    }
  }

  /** Multiplying by a positive factor keeps a strict order a full step apart. */
  lemma MulStep(a: nat, b: nat, d: nat)
    requires a < b
    ensures a * d + d <= b * d
  {
    var c := b - a - 1;
    assert b * d == a * d + d + c * d;
  }

  /** One more step of d adds d. */
  lemma MulSucc(n: nat, d: nat)
    ensures (n + 1) * d == n * d + d
  {
  }

  /** Division of durations, which are never negative here, with its bracketing bounds. */
  function Quotient(n: nat, d: nat): (q: nat)
    requires d > 0
    ensures q * d <= n < (q + 1) * d
  {
    assert (n / d + 1) * d == (n / d) * d + d;
    n / d
  }

  /** Multiplying by a factor keeps a weak order. */
  lemma MulMono(a: nat, b: nat, d: nat)
    requires a <= b
    ensures a * d <= b * d
  {
    if a < b {
      MulStep(a, b, d);
    }
  }

  /** How many ticks pass between two exports of the statistics: the export
      interval divided by the probe interval, with 0 replaced by 1. */
  function ExportFrequency(statsExportInterval: nat, interval: nat): (f: nat)
    requires interval > 0
    ensures f >= 1
    ensures interval <= statsExportInterval ==> f * interval <= statsExportInterval < (f + 1) * interval
    ensures statsExportInterval < interval ==> f == 1
  {
    var q := Quotient(statsExportInterval, interval);
    if q == 0 then 1 else q
  }

  /** An export interval of m probe intervals exports every m-th tick. */
  lemma ExportFrequencyOfMultiple(m: nat, interval: nat)
    requires interval > 0 && m >= 1
    ensures ExportFrequency(m * interval, interval) == m
  {
    DivUnique(m * interval, interval, m, 0);
  }

  /** How often targets are listed again: never more often than the probe runs. */
  function TargetsUpdateInterval(interval: nat): (u: nat)
    ensures u >= DefaultTargetsUpdateInterval && u >= interval
    ensures u == DefaultTargetsUpdateInterval || u == interval
  {
    if DefaultTargetsUpdateInterval < interval then interval else DefaultTargetsUpdateInterval
  }

  /** The spacing between the start times of newly discovered targets: the
      configured number of milliseconds, or a tenth of the probe interval
      shared among the targets. The second form divides by the number of
      targets, which therefore must not be zero when no gap is configured. */
  function GapBetweenTargets(gapMsec: nat, interval: nat, targetCount: nat): (gap: nat)
    requires gapMsec != 0 || targetCount > 0
    ensures gapMsec != 0 ==> gap == gapMsec * Millisecond
    ensures gapMsec == 0 ==> gap * (10 * targetCount) <= interval < (gap + 1) * (10 * targetCount)
  {
    if gapMsec != 0 then gapMsec * Millisecond
    else
      Quotient(interval, 10 * targetCount)
  }

  /** The exclusive upper bound, in microseconds, that the start jitter is
      drawn below: a tenth of the gap's whole microseconds. Drawing a jitter
      needs this bound to be positive. */
  function JitterBound(gap: nat): (b: nat)
    ensures b * (10 * Microsecond) <= gap < (b + 1) * (10 * Microsecond)
  {
    var us := Quotient(gap, Microsecond);
    var b := Quotient(us, 10);
    assert b * (10 * Microsecond) == (b * 10) * Microsecond;
    assert (b + 1) * (10 * Microsecond) == ((b + 1) * 10) * Microsecond;
    MulMono(b * 10, us, Microsecond);
    MulMono(us + 1, (b + 1) * 10, Microsecond);
    b
  }

  /** The sleep of the k-th newly started target is its start wait k * gap
      plus the jitter, and lies in [k * gap, k * gap + gap / 10). */
  lemma SleepWithinStagger(k: nat, gap: nat, jitterUs: nat)
    requires jitterUs < JitterBound(gap)
    ensures k * gap <= k * gap + jitterUs * Microsecond < k * gap + gap / 10
  {
    var b := JitterBound(gap);
    var t := jitterUs * Microsecond + Microsecond;
    assert t * 10 == (jitterUs + 1) * (10 * Microsecond);
    assert (jitterUs + 1) * (10 * Microsecond) <= b * (10 * Microsecond);
    assert t * 10 <= gap;
    DivUnique(gap, 10, gap / 10, gap % 10);
    assert t <= gap / 10;
  }

  /** Sleeps of newly started targets strictly increase in start order. */
  lemma StaggerOrdered(i: nat, j: nat, gap: nat, jitterI: nat, jitterJ: nat)
    requires i < j
    requires jitterI < JitterBound(gap) && jitterJ < JitterBound(gap)
    ensures i * gap + jitterI * Microsecond < j * gap + jitterJ * Microsecond
  {
    SleepWithinStagger(i, gap, jitterI);
    MulStep(i, j, gap);
    assert gap / 10 <= gap;
  }

  /** Statistics are exported on tick n (counted from 1) iff n is a multiple of the frequency. */
  predicate ShouldExport(runCnt: nat, frequency: nat)
    requires frequency >= 1
  {
    runCnt % frequency == 0
  }

  /** The number of exporting ticks among ticks 1..n. */
  function ExportsUpTo(n: nat, frequency: nat): nat
    requires frequency >= 1
  {
    if n == 0 then 0
    else ExportsUpTo(n - 1, frequency) + (if ShouldExport(n, frequency) then 1 else 0)
  }

  /** Ticks 1..n hold exactly n / frequency exports. */
  lemma {:induction false} ExportCadence(n: nat, frequency: nat)
    requires frequency >= 1
    ensures ExportsUpTo(n, frequency) == n / frequency
  {
    if n > 0 {
      ExportCadence(n - 1, frequency);
      var q, r := (n - 1) / frequency, (n - 1) % frequency;
      assert n - 1 == q * frequency + r;
      if r + 1 == frequency {
        MulSucc(q, frequency);
        DivUnique(n, frequency, q + 1, 0);
      } else {
        DivUnique(n, frequency, q, r + 1);
      }
    }
  }

  /** Every frequency-th tick exports and the ticks in between do not. */
  lemma ExportEveryFrequencyTicks(m: nat, j: nat, frequency: nat)
    requires frequency >= 1 && j < frequency
    ensures ShouldExport(m * frequency + j, frequency) <==> j == 0
  {
    DivUnique(m * frequency + j, frequency, m, j);
  }
}
