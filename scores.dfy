/**
 * The two heuristic scores: the avoidance score (detect_perfectionism) and
 * the next-day risk (predict_risk) of analysis/advanced_patterns.py, both
 * before rounding to two decimals.
 */
module Scores {
  import opened EventLog
  import opened Signals

  /** np.clip(x, lo, hi). */
  function Clip(x: real, lo: real, hi: real): (r: real)
    requires lo <= hi
    ensures lo <= r <= hi
    ensures x <= lo ==> r == lo
    ensures x >= hi ==> r == hi
    ensures lo <= x <= hi ==> r == x
  {
    if x < lo then lo else if x > hi then hi else x
  }

  function MaxReal(a: real, b: real): real
  {
    if a >= b then a else b
  }

  /** max(1.0, n / 25.0): long logs have their counts scaled down. */
  function VolumeNorm(n: nat): (v: real)
    ensures v >= 1.0
  {
    MaxReal(1.0, n as real / 25.0)
  }

  /** The weighted sum of detect_perfectionism before clipping. */
  function PerfectionismRaw(n: nat, longGaps: nat, bursts: nat, late: real): real
  {
    var volumeNorm := VolumeNorm(n);
    0.55 * (longGaps as real / volumeNorm) + 0.35 * (bursts as real / volumeNorm) + 0.10 * late * 5.0
  }

  /** detect_perfectionism: the avoidance score in [0, 1]. */
  function DetectPerfectionism(log: seq<int>): (score: real)
    requires IsLog(log)
    ensures 0.0 <= score <= 1.0
  {
    var raw := PerfectionismRaw(|log|, LongGapsCount(log, 24.0), BurstCount(log), LateNightRatio(log));
    Clip(raw, 0.0, 1.0)
  }

  lemma QuotientZero(count: nat, v: real)
    requires v >= 1.0
    ensures count as real / v >= 0.0
    ensures count as real / v == 0.0 <==> count == 0
  {
    if count > 0 {
      assert count as real / v * v == count as real;
    }
  }

  /**
   * The avoidance score is 0 exactly when the log has no gap over 24 hours,
   * no burst window and no event at hour 23.
   */
  lemma PerfectionismZero(log: seq<int>)
    requires IsLog(log)
    ensures DetectPerfectionism(log) == 0.0 <==>
      LongGapsCount(log, 24.0) == 0 && BurstCount(log) == 0 && CountHours(log, 23, 24) == 0
  {
    var v := VolumeNorm(|log|);
    QuotientZero(LongGapsCount(log, 24.0), v);
    QuotientZero(BurstCount(log), v);
  }

  /** A log of at most 25 events with two gaps over 24 hours gets the full avoidance score. */
  lemma PerfectionismSaturates(log: seq<int>)
    requires IsLog(log) && |log| <= 25 && LongGapsCount(log, 24.0) >= 2
    ensures DetectPerfectionism(log) == 1.0
  {
    assert VolumeNorm(|log|) == 1.0;
    QuotientZero(BurstCount(log), 1.0);
  }

  // ---------------------------------------------------------------------
  // Risk

  const WeekSeconds: int := 7 * SecondsPerDay

  /** The latest event of a non-empty sorted log: df["ts"].max(). */
  function Latest(s: seq<int>): int
    requires |s| > 0
  {
    s[|s| - 1]
  }

  /** On a sorted log the last event is the maximum. */
  lemma LatestIsMax(s: seq<int>)
    requires |s| > 0 && Sorted(s)
    ensures Latest(s) in s
    ensures forall x :: x in s ==> x <= Latest(s)
  {
  }

  /** The events at or after the cutoff, in log order (a boolean mask). */
  function KeepFrom(s: seq<int>, cutoff: int): (r: seq<int>)
    ensures forall x :: multiset(r)[x] == if x >= cutoff then multiset(s)[x] else 0
    ensures forall x :: x in r <==> x in s && x >= cutoff
  {
    if s == [] then []
    else
      assert s == [s[0]] + s[1..];
      var rest := KeepFrom(s[1..], cutoff);
      if s[0] >= cutoff then [s[0]] + rest else rest
  }

  /** The mask keeps a sorted log sorted. */
  lemma {:induction false} KeepFromSorted(s: seq<int>, cutoff: int)
    requires Sorted(s)
    ensures Sorted(KeepFrom(s, cutoff))
  {
    if s != [] {
      KeepFromSorted(s[1..], cutoff);
      var rest := KeepFrom(s[1..], cutoff);
      forall k | 0 <= k < |rest|
        ensures s[0] <= rest[k]
      {
        assert rest[k] in s[1..];
      }
    }
  }

  /** The events of the last seven days before the latest event. */
  function LastWeek(log: seq<int>): (r: seq<int>)
    requires IsLog(log)
    ensures Sorted(r)
    ensures forall x :: multiset(r)[x] == if x >= Latest(log) - WeekSeconds then multiset(log)[x] else 0
  {
    KeepFromSorted(log, Latest(log) - WeekSeconds);
    KeepFrom(log, Latest(log) - WeekSeconds)
  }

  /** The weighted sum of predict_risk before clipping. */
  function RiskRaw(inactivityH: real, hv: real, perf: real, wknd: real): real
  {
    0.18 + 0.02 * inactivityH + 0.015 * hv + 0.45 * perf + 0.10 * wknd
  }

  /**
   * predict_risk: 0.5 for an empty last week, otherwise the clipped
   * weighted sum of inactivity, last-week hour variance, the avoidance
   * score of the whole log and the last-week weekend ratio.
   */
  function PredictRisk(log: seq<int>): (risk: real)
    requires IsLog(log)
    ensures 0.18 <= risk <= 1.0
  {
    var lastTs := Latest(log);
    var lastWeek := LastWeek(log);
    if lastWeek == [] then 0.5
    else
      LatestIsMax(log);
      assert Latest(lastWeek) in lastWeek;
      var inactivityH := (lastTs - Latest(lastWeek)) as real / 3600.0;
      var hv := HourVariance(lastWeek);
      var perf := DetectPerfectionism(log);
      var wknd := WeekendRatio(lastWeek);
      Clip(RiskRaw(inactivityH, hv, perf, wknd), 0.0, 1.0)
  }

  /**
   * The last week always holds the latest event, so the 0.5 fallback is
   * never taken and the inactivity term is always 0.
   */
  lemma PredictRiskRecency(log: seq<int>)
    requires IsLog(log)
    ensures LastWeek(log) != [] && Sorted(LastWeek(log))
    ensures Latest(LastWeek(log)) == Latest(log)
    ensures PredictRisk(log) ==
      Clip(RiskRaw(0.0, HourVariance(LastWeek(log)), DetectPerfectionism(log), WeekendRatio(LastWeek(log))), 0.0, 1.0)
  {
    var lastWeek := LastWeek(log);
    assert Latest(log) in lastWeek;
    LatestIsMax(log);
    LatestIsMax(lastWeek);
    assert Latest(lastWeek) in log;
  }
}
