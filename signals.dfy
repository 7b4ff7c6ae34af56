/**
 * Signals derived from a canonical event log: gaps, time-of-day buckets,
 * 5-in-2h bursts, long gaps, late-night and weekend ratios and the variance
 * of event hours (analysis/advanced_patterns.py).
 */
module Signals {
  import opened EventLog

  // ---------------------------------------------------------------------
  // Gaps

  /** Hours since the previous event, 0 for the first event (gaps_hours). */
  function GapsHours(log: seq<int>): (g: seq<real>)
    requires IsLog(log)
    ensures |g| == |log| && g[0] == 0.0
    ensures forall i :: 0 <= i < |g| ==> g[i] >= 0.0
  {
    seq(|log|, i requires 0 <= i < |log| =>
      if i == 0 then 0.0 else (log[i] - log[i - 1]) as real / 3600.0)
  }

  function SumReals(s: seq<real>): real
  {
    if s == [] then 0.0 else SumReals(s[..|s| - 1]) + s[|s| - 1]
  }

  lemma {:induction false} GapsPrefixSum(log: seq<int>, k: nat)
    requires IsLog(log) && 1 <= k <= |log|
    ensures SumReals(GapsHours(log)[..k]) == (log[k - 1] - log[0]) as real / 3600.0
  {
    if k > 1 {
      GapsPrefixSum(log, k - 1);
      assert GapsHours(log)[..k][..k - 1] == GapsHours(log)[..k - 1];
    }
  }

  /** The gaps add up to the time between the first and the last event. */
  lemma GapsSumToSpan(log: seq<int>)
    requires IsLog(log)
    ensures SumReals(GapsHours(log)) == (log[|log| - 1] - log[0]) as real / 3600.0
  {
    GapsPrefixSum(log, |log|);
    assert GapsHours(log)[..|log|] == GapsHours(log);
  }

  // ---------------------------------------------------------------------
  // Time-of-day buckets

  datatype Bucket = Morning | Afternoon | Evening | LateNight

  /** The label the source uses for a bucket. */
  function BucketName(b: Bucket): string
  {
    match b
    case Morning => "morning"
    case Afternoon => "afternoon"
    case Evening => "evening"
    case LateNight => "late_night"
  }

  /**
   * The four bucket names are distinct, so counting by name (the keys of
   * bucket_counts) is counting by bucket.
   */
  lemma BucketNameInjective(a: Bucket, b: Bucket)
    ensures BucketName(a) == BucketName(b) <==> a == b
  {
    if a != b {
      assert BucketName(a)[0] != BucketName(b)[0] || |BucketName(a)| != |BucketName(b)|;
    }
  }

  /** time_of_day_bucket: every hour falls in exactly one of four ranges. */
  function TimeOfDayBucket(hour: int): (b: Bucket)
    ensures b == Morning <==> 5 <= hour < 12
    ensures b == Afternoon <==> 12 <= hour < 17
    ensures b == Evening <==> 17 <= hour < 22
    ensures b == LateNight <==> hour < 5 || 22 <= hour
  {
    if 5 <= hour < 12 then Morning
    else if 12 <= hour < 17 then Afternoon
    else if 17 <= hour < 22 then Evening
    else LateNight
  }

  /**
   * The two notions of "late" differ: an event counted by the late-night
   * ratio (hour 23) is in the late_night bucket, but hour 22 is in the
   * bucket without being counted by the ratio.
   */
  lemma {:induction false} LateHourInLateNightBucket(log: seq<int>)
    ensures CountHours(log, 23, 24) <= CountBucket(log, LateNight)
    ensures CountHours([22 * 3600], 23, 24) == 0 && CountBucket([22 * 3600], LateNight) == 1
  {
    if log != [] {
      LateHourInLateNightBucket(log[..|log| - 1]);
    }
  }

  // ---------------------------------------------------------------------
  // Bursts

  /** The five events starting at index i span at most two hours. */
  predicate IsBurstWindow(log: seq<int>, i: int)
    requires 0 <= i && i + 4 < |log|
  {
    (log[i + 4] - log[i]) as real / 3600.0 <= 2.0
  }

  /** The number of burst windows among the windows of five consecutive events. */
  function BurstCount(log: seq<int>): (c: nat)
    ensures |log| < 5 ==> c == 0
    ensures |log| >= 5 ==> c <= |log| - 4
    decreases |log|
  {
    if |log| < 5 then 0
    else BurstCount(log[..|log| - 1]) + (if IsBurstWindow(log, |log| - 5) then 1 else 0)
  }

  /** burstiness_5in2h: slide a window of five events over the log. */
  method Burstiness5In2h(log: seq<int>) returns (count: nat)
    requires IsLog(log)
    ensures count == BurstCount(log)
  {
    if |log| < 5 {
      return 0;
    }
    count := 0;
    var i := 0;
    while i < |log| - 4
      invariant 0 <= i <= |log| - 4
      invariant count == BurstCount(log[..i + 4])
    {
      var spanH := (log[i + 4] - log[i]) as real / 3600.0;
      assert log[..i + 5][..i + 4] == log[..i + 4];
      if spanH <= 2.0 {
        count := count + 1;
      }
      i := i + 1;
    }
    assert log[..|log|] == log;
  }

  /** A window is a burst exactly when its last and first events are at most 7200 s apart. */
  lemma BurstWindowSeconds(log: seq<int>, i: int)
    requires 0 <= i && i + 4 < |log|
    ensures IsBurstWindow(log, i) <==> log[i + 4] - log[i] <= 7200
  {
  }

  /**
   * Adding an event at the end keeps every existing window and adds one
   * more, which counts when it spans at most two hours.
   */
  lemma BurstCountAppend(log: seq<int>, t: int)
    ensures BurstCount(log + [t]) ==
      BurstCount(log) + (if |log| >= 4 && t - log[|log| - 4] <= 7200 then 1 else 0)
  {
    assert (log + [t])[..|log|] == log;
  }

  /** Adding events at the end never lowers the burst count. */
  lemma {:induction false} BurstCountMonotone(log: seq<int>, more: seq<int>)
    ensures BurstCount(log) <= BurstCount(log + more)
    decreases |more|
  {
    if more != [] {
      var init := more[..|more| - 1];
      BurstCountMonotone(log, init);
      assert log + more == (log + init) + [more[|more| - 1]];
      BurstCountAppend(log + init, more[|more| - 1]);
    } else {
      assert log + more == log;
    }
  }

  /** Five events within 90 minutes make one burst; a sixth ten hours later adds none. */
  lemma BurstScenario()
    ensures BurstCount([0, 1200, 2400, 3600, 5400]) == 1
    ensures BurstCount([0, 1200, 2400, 3600, 5400, 5400 + 36000]) == 1
  {
    BurstCountAppend([0, 1200, 2400, 3600], 5400);
    BurstCountAppend([0, 1200, 2400, 3600, 5400], 5400 + 36000);
  }

  // ---------------------------------------------------------------------
  // Long gaps

  /** How many entries of g exceed the threshold. */
  function CountAbove(g: seq<real>, threshold: real): (c: nat)
    ensures c <= |g|
  {
    if g == [] then 0
    else CountAbove(g[..|g| - 1], threshold) + (if g[|g| - 1] > threshold then 1 else 0)
  }

  /** long_gaps_count: gaps strictly longer than the threshold, in hours. */
  function LongGapsCount(log: seq<int>, thresholdH: real): (c: nat)
    requires IsLog(log)
    ensures c <= |log|
  {
    CountAbove(GapsHours(log), thresholdH)
  }

  lemma {:induction false} CountAboveFirstNotAbove(g: seq<real>, threshold: real)
    requires g != [] && g[0] <= threshold
    ensures CountAbove(g, threshold) <= |g| - 1
  {
    if |g| > 1 {
      CountAboveFirstNotAbove(g[..|g| - 1], threshold);
    }
  }

  /** The first gap is 0, so for a threshold of at least 0 there are at most n-1 long gaps. */
  lemma LongGapsBound(log: seq<int>, thresholdH: real)
    requires IsLog(log) && thresholdH >= 0.0
    ensures LongGapsCount(log, thresholdH) <= |log| - 1
  {
    CountAboveFirstNotAbove(GapsHours(log), thresholdH);
  }

  lemma {:induction false} CountAboveAntitone(g: seq<real>, lower: real, higher: real)
    requires lower <= higher
    ensures CountAbove(g, higher) <= CountAbove(g, lower)
  {
    if g != [] {
      CountAboveAntitone(g[..|g| - 1], lower, higher);
    }
  }

  /** Raising the threshold never adds long gaps; in particular 48h gaps are at most the 24h ones. */
  lemma LongGapsAntitone(log: seq<int>, lower: real, higher: real)
    requires IsLog(log) && lower <= higher
    ensures LongGapsCount(log, higher) <= LongGapsCount(log, lower)
  {
    CountAboveAntitone(GapsHours(log), lower, higher);
  }

  // ---------------------------------------------------------------------
  // Hour-of-day and weekday counts and ratios

  /** Events whose hour of day lies in [lo, hi). */
  function CountHours(log: seq<int>, lo: int, hi: int): (c: nat)
    ensures c <= |log|
  {
    if log == [] then 0
    else CountHours(log[..|log| - 1], lo, hi) + (if lo <= Hour(log[|log| - 1]) < hi then 1 else 0)
  }

  /** Events on a Saturday or Sunday. */
  function CountWeekend(log: seq<int>): (c: nat)
    ensures c <= |log|
  {
    if log == [] then 0
    else CountWeekend(log[..|log| - 1]) + (if IsWeekend(log[|log| - 1]) then 1 else 0)
  }

  /** Events in the given time-of-day bucket. */
  function CountBucket(log: seq<int>, b: Bucket): (c: nat)
    ensures c <= |log|
  {
    if log == [] then 0
    else CountBucket(log[..|log| - 1], b) + (if TimeOfDayBucket(Hour(log[|log| - 1])) == b then 1 else 0)
  }

  /** Adjacent hour ranges add up. */
  lemma {:induction false} CountHoursSplit(log: seq<int>, lo: int, mid: int, hi: int)
    requires lo <= mid <= hi
    ensures CountHours(log, lo, hi) == CountHours(log, lo, mid) + CountHours(log, mid, hi)
  {
    if log != [] {
      CountHoursSplit(log[..|log| - 1], lo, mid, hi);
    }
  }

  /** Every event has an hour in [0, 24). */
  lemma {:induction false} CountHoursAll(log: seq<int>)
    ensures CountHours(log, 0, 24) == |log|
  {
    if log != [] {
      CountHoursAll(log[..|log| - 1]);
    }
  }

  /** The four buckets partition the events. */
  lemma {:induction false} BucketCountsSum(log: seq<int>)
    ensures CountBucket(log, Morning) + CountBucket(log, Afternoon)
          + CountBucket(log, Evening) + CountBucket(log, LateNight) == |log|
  {
    if log != [] {
      BucketCountsSum(log[..|log| - 1]);
    }
  }

  /** count / n for 0 <= count <= n, n > 0: the mean of a boolean column. */
  function Fraction(count: nat, n: nat): (r: real)
    requires count <= n && n > 0
    ensures 0.0 <= r <= 1.0
    ensures r == 0.0 <==> count == 0
  {
    assert count as real <= n as real;
    count as real / n as real
  }

  /** late_night_ratio: share of events at hour 23 or later. */
  function LateNightRatio(log: seq<int>): (r: real)
    requires IsLog(log)
    ensures 0.0 <= r <= 1.0
    ensures r == 0.0 <==> CountHours(log, 23, 24) == 0
  {
    Fraction(CountHours(log, 23, 24), |log|)
  }

  /** weekend_ratio: share of events on Saturday or Sunday. */
  function WeekendRatio(log: seq<int>): (r: real)
    requires IsLog(log)
    ensures 0.0 <= r <= 1.0
    ensures r == 0.0 <==> CountWeekend(log) == 0
  {
    Fraction(CountWeekend(log), |log|)
  }

  // ---------------------------------------------------------------------
  // Variance of event hours

  function HourSum(log: seq<int>): int
  {
    if log == [] then 0 else HourSum(log[..|log| - 1]) + Hour(log[|log| - 1])
  }

  /** Sum of squared deviations of the event hours from `mean`. */
  function SquaredDeviations(log: seq<int>, mean: real): (d: real)
    ensures d >= 0.0
  {
    if log == [] then 0.0
    else
      var dev := Hour(log[|log| - 1]) as real - mean;
      SquaredDeviations(log[..|log| - 1], mean) + dev * dev
  }

  /**
   * hour_variance: the sample variance (n - 1 in the denominator) of the
   * event hours; 0 for a single event, where pandas yields NaN.
   */
  function HourVariance(log: seq<int>): (v: real)
    requires IsLog(log)
    ensures v >= 0.0
    ensures |log| == 1 ==> v == 0.0
  {
    if |log| < 2 then 0.0
    else
      var mean := HourSum(log) as real / |log| as real;
      SquaredDeviations(log, mean) / (|log| - 1) as real
  }

  lemma {:induction false} HourSumConstant(log: seq<int>, h: int)
    requires forall i :: 0 <= i < |log| ==> Hour(log[i]) == h
    ensures HourSum(log) == |log| * h
  {
    if log != [] {
      HourSumConstant(log[..|log| - 1], h);
    }
  }

  lemma {:induction false} SquaredDeviationsConstant(log: seq<int>, h: int)
    requires forall i :: 0 <= i < |log| ==> Hour(log[i]) == h
    ensures SquaredDeviations(log, h as real) == 0.0
  {
    if log != [] {
      SquaredDeviationsConstant(log[..|log| - 1], h);
    }
  }

  /** When every event falls in the same hour the variance is 0. */
  lemma HourVarianceConstant(log: seq<int>)
    requires IsLog(log)
    requires forall i :: 0 <= i < |log| ==> Hour(log[i]) == Hour(log[0])
    ensures HourVariance(log) == 0.0
  {
    if |log| >= 2 {
      var h := Hour(log[0]);
      HourSumConstant(log, h);
      var n := |log| as real;
      assert HourSum(log) as real == n * h as real;
      assert HourSum(log) as real / n == h as real;
      SquaredDeviationsConstant(log, h);
    }
  }
}
