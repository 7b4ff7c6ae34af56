/**
 * The explainability snapshot (build_explainability in
 * analysis/advanced_patterns.py): one record of every derived signal.
 */
module Explainability {
  import opened Wrappers
  import opened EventLog
  import opened Signals
  import opened Scores

  /** The returned dictionary, one field per key; ratios are not rounded. */
  datatype Snapshot = Snapshot(
    totalEvents: nat,
    peakHour: Option<int>,
    bucketCounts: map<Bucket, nat>,
    lateNightRatio: real,
    weekendRatio: real,
    hourVariance: real,
    longGaps24h: nat,
    longGaps48h: nat,
    maxGapHours: real,
    burstCount5In2h: nat)

  /** Events at hour h. */
  function CountHour(log: seq<int>, h: int): nat
  {
    CountHours(log, h, h + 1)
  }

  /** An hour that occurs in the log and that no other hour outnumbers (value_counts().idxmax()). */
  ghost predicate IsPeakHour(log: seq<int>, h: int)
  {
    && 0 <= h < 24
    && CountHour(log, h) > 0
    && forall h' :: 0 <= h' < 24 ==> CountHour(log, h') <= CountHour(log, h)
  }

  /** g.max(). */
  function MaxGap(g: seq<real>): (m: real)
    requires |g| > 0
    ensures m in g
    ensures forall x :: x in g ==> x <= m
  {
    if |g| == 1 then g[0]
    else
      var rest := MaxGap(g[1..]);
      assert g == [g[0]] + g[1..];
      if g[0] >= rest then g[0] else rest
  }

  /** Each event is counted in its own hour. */
  lemma {:induction false} CountOwnHour(log: seq<int>, i: nat)
    requires i < |log|
    ensures CountHour(log, Hour(log[i])) > 0
  {
    if i < |log| - 1 {
      CountOwnHour(log[..|log| - 1], i);
    }
  }

  /** The frame's new `hour` and `bucket` columns (dt.hour and apply(time_of_day_bucket)). */
  method AddHourColumns(log: seq<int>) returns (hours: seq<int>, buckets: seq<Bucket>)
    ensures |hours| == |log| && |buckets| == |log|
    ensures forall k :: 0 <= k < |log| ==> hours[k] == Hour(log[k])
    ensures forall k :: 0 <= k < |log| ==> buckets[k] == TimeOfDayBucket(hours[k])
  {
    hours, buckets := [], [];
    var i := 0;
    while i < |log|
      invariant 0 <= i <= |log|
      invariant |hours| == i && |buckets| == i
      invariant forall k :: 0 <= k < i ==> hours[k] == Hour(log[k])
      invariant forall k :: 0 <= k < i ==> buckets[k] == TimeOfDayBucket(hours[k])
    {
      var h := Hour(log[i]);
      hours := hours + [h];
      buckets := buckets + [TimeOfDayBucket(h)];
      i := i + 1;
    }
  }

  /** value_counts() of the hour column, indexed by hour. */
  method HourValueCounts(log: seq<int>, hours: seq<int>) returns (counts: seq<nat>)
    requires |hours| == |log|
    requires forall k :: 0 <= k < |log| ==> hours[k] == Hour(log[k])
    ensures |counts| == 24
    ensures forall h :: 0 <= h < 24 ==> counts[h] == CountHour(log, h)
  {
    var tally := new nat[24](_ => 0);
    var i := 0;
    while i < |log|
      invariant 0 <= i <= |log|
      invariant forall h :: 0 <= h < 24 ==> tally[h] == CountHour(log[..i], h)
    {
      assert log[..i + 1][..i] == log[..i];
      tally[hours[i]] := tally[hours[i]] + 1;
      i := i + 1;
    }
    assert log[..|log|] == log;
    counts := tally[..];
  }

  /** value_counts().to_dict() of the bucket column: only buckets that occur are keys. */
  method BucketValueCounts(log: seq<int>, buckets: seq<Bucket>) returns (counts: map<Bucket, nat>)
    requires |buckets| == |log|
    requires forall k :: 0 <= k < |log| ==> buckets[k] == TimeOfDayBucket(Hour(log[k]))
    ensures forall b :: b in counts <==> CountBucket(log, b) > 0
    ensures forall b :: b in counts ==> counts[b] == CountBucket(log, b)
  {
    counts := map[];
    var i := 0;
    while i < |log|
      invariant 0 <= i <= |log|
      invariant forall b :: b in counts <==> CountBucket(log[..i], b) > 0
      invariant forall b :: b in counts ==> counts[b] == CountBucket(log[..i], b)
    {
      assert log[..i + 1][..i] == log[..i];
      var b := buckets[i];
      counts := counts[b := if b in counts then counts[b] + 1 else 1];
      i := i + 1;
    }
    assert log[..|log|] == log;
  }

  /** idxmax(): an index whose count no other index exceeds. */
  method IdxMax(counts: seq<nat>) returns (peak: nat)
    requires |counts| > 0
    ensures peak < |counts|
    ensures forall h :: 0 <= h < |counts| ==> counts[h] <= counts[peak]
  {
    peak := 0;
    var h := 1;
    while h < |counts|
      invariant 1 <= h <= |counts| && peak < |counts|
      invariant forall h' :: 0 <= h' < h ==> counts[h'] <= counts[peak]
    {
      if counts[h] > counts[peak] {
        peak := h;
      }
      h := h + 1;
    }
  }

  /**
   * build_explainability: add the hour and bucket columns, count them, and
   * gather every signal of the log in one snapshot.
   */
  method BuildExplainability(log: seq<int>) returns (exp: Snapshot)
    requires IsLog(log)
    ensures exp.totalEvents == |log|
    ensures exp.peakHour.Some? && IsPeakHour(log, exp.peakHour.value)
    ensures forall b :: b in exp.bucketCounts <==> CountBucket(log, b) > 0
    ensures forall b :: b in exp.bucketCounts ==> exp.bucketCounts[b] == CountBucket(log, b)
    ensures exp.lateNightRatio == LateNightRatio(log)
    ensures exp.weekendRatio == WeekendRatio(log)
    ensures exp.hourVariance == HourVariance(log)
    ensures exp.longGaps24h == LongGapsCount(log, 24.0)
    ensures exp.longGaps48h == LongGapsCount(log, 48.0)
    ensures exp.longGaps48h <= exp.longGaps24h
    ensures exp.maxGapHours >= 0.0 && exp.maxGapHours in GapsHours(log)
    ensures forall x :: x in GapsHours(log) ==> x <= exp.maxGapHours
    ensures exp.burstCount5In2h == BurstCount(log)
  {
    var hours, buckets := AddHourColumns(log);
    var hourCounts := HourValueCounts(log, hours);
    var bucketCounts := BucketValueCounts(log, buckets);
    var peak := IdxMax(hourCounts);
    CountOwnHour(log, 0);
    assert CountHour(log, Hour(log[0])) <= hourCounts[peak];
    assert IsPeakHour(log, peak);

    var g := GapsHours(log);
    var maxGap := MaxGap(g);
    assert maxGap >= 0.0 by {
      assert g[0] in g;
    }
    var bursts := Burstiness5In2h(log);
    LongGapsAntitone(log, 24.0, 48.0);
    exp := Snapshot(
      totalEvents := |log|,
      peakHour := Some(peak),
      bucketCounts := bucketCounts,
      lateNightRatio := LateNightRatio(log),
      weekendRatio := WeekendRatio(log),
      hourVariance := HourVariance(log),
      longGaps24h := CountAbove(g, 24.0),
      longGaps48h := CountAbove(g, 48.0),
      maxGapHours := maxGap,
      burstCount5In2h := bursts);
  }
}
