/**
 * The ordered, first-match pattern classifier (detect_pattern in
 * analysis/advanced_patterns.py).
 */
module PatternRules {
  import opened EventLog
  import opened Signals
  import opened Scores

  datatype Pattern = Avoidance | Fatigue | DeadlineChasing | Consistent | Mixed

  /** The label the source returns for each pattern. */
  function PatternLabel(p: Pattern): string
  {
    match p
    case Avoidance => "Avoidance-driven procrastination"
    case Fatigue => "Fatigue-driven procrastination"
    case DeadlineChasing => "Deadline-chasing (bursty) procrastination"
    case Consistent => "Consistent / low-procrastination pattern"
    case Mixed => "Mixed / situational procrastination"
  }

  /** Distinct patterns have distinct labels. */
  lemma PatternLabelInjective(p: Pattern, q: Pattern)
    ensures PatternLabel(p) == PatternLabel(q) ==> p == q
  {
    if p != q {
      assert PatternLabel(p)[0] != PatternLabel(q)[0];
    }
  }

  /** count / max(1, total). */
  function Share(count: nat, total: nat): real
  {
    var denominator := if total >= 1 then total else 1;
    count as real / denominator as real
  }

  /** Events in [9, 18), [18, 23) and [23, 24) as shares of the log. */
  function DayShare(log: seq<int>): real { Share(CountHours(log, 9, 18), |log|) }
  function EveningShare(log: seq<int>): real { Share(CountHours(log, 18, 23), |log|) }
  function LateShare(log: seq<int>): real { Share(CountHours(log, 23, 24), |log|) }

  // The four rules, in the order they are tried.
  predicate AvoidanceRule(log: seq<int>)
    requires IsLog(log)
  {
    LongGapsCount(log, 24.0) >= 2 && LateShare(log) >= 0.35
  }

  predicate FatigueRule(log: seq<int>)
  {
    EveningShare(log) >= 0.45 && LateShare(log) < 0.25
  }

  predicate DeadlineRule(log: seq<int>)
  {
    BurstCount(log) >= 2 && LateShare(log) + EveningShare(log) >= 0.60
  }

  predicate ConsistentRule(log: seq<int>)
    requires IsLog(log)
  {
    DayShare(log) >= 0.55 && LongGapsCount(log, 24.0) == 0
  }

  /**
   * detect_pattern: the first rule that holds decides the pattern; Mixed
   * when none does.
   */
  function DetectPattern(log: seq<int>): (p: Pattern)
    requires IsLog(log)
    ensures p == Avoidance <==> AvoidanceRule(log)
    ensures p == Fatigue <==> !AvoidanceRule(log) && FatigueRule(log)
    ensures p == DeadlineChasing <==> !AvoidanceRule(log) && !FatigueRule(log) && DeadlineRule(log)
    ensures p == Consistent <==>
      !AvoidanceRule(log) && !FatigueRule(log) && !DeadlineRule(log) && ConsistentRule(log)
    ensures p == Mixed <==>
      !AvoidanceRule(log) && !FatigueRule(log) && !DeadlineRule(log) && !ConsistentRule(log)
  {
    var day := CountHours(log, 9, 18);
    var evening := CountHours(log, 18, 23);
    var late := CountHours(log, 23, 24);
    var total := if |log| >= 1 then |log| else 1;
    var lg := LongGapsCount(log, 24.0);
    var burst := BurstCount(log);
    var latePct := late as real / total as real;
    var eveningPct := evening as real / total as real;
    var dayPct := day as real / total as real;
    if lg >= 2 && latePct >= 0.35 then Avoidance
    else if eveningPct >= 0.45 && latePct < 0.25 then Fatigue
    else if burst >= 2 && latePct + eveningPct >= 0.60 then DeadlineChasing
    else if dayPct >= 0.55 && lg == 0 then Consistent
    else Mixed
  }

  /** Two gaps over 24 hours need at least three events, so an Avoidance log has three. */
  lemma AvoidanceNeedsThreeEvents(log: seq<int>)
    requires IsLog(log) && DetectPattern(log) == Avoidance
    ensures |log| >= 3
  {
    LongGapsBound(log, 24.0);
  }

  lemma ThreeFractions(a: nat, b: nat, c: nat, n: nat)
    requires n >= 1 && a + b + c <= n
    ensures Share(a, n) + Share(b, n) + Share(c, n) <= 1.0
    ensures Share(a, n) >= 0.0 && Share(b, n) >= 0.0 && Share(c, n) >= 0.0
  {
    var d := n as real;
    assert Share(a, n) + Share(b, n) + Share(c, n) == (a + b + c) as real / d;
    assert (a + b + c) as real <= d;
  }

  /** The day, evening and hour-23 shares cover disjoint hours, so they add up to at most 1. */
  lemma SharesOfLog(log: seq<int>)
    requires IsLog(log)
    ensures DayShare(log) + EveningShare(log) + LateShare(log) <= 1.0
    ensures DayShare(log) >= 0.0 && EveningShare(log) >= 0.0 && LateShare(log) >= 0.0
  {
    CountHoursSplit(log, 9, 18, 23);
    CountHoursSplit(log, 9, 23, 24);
    CountHoursSplit(log, 0, 9, 24);
    CountHoursAll(log);
    ThreeFractions(CountHours(log, 9, 18), CountHours(log, 18, 23), CountHours(log, 23, 24), |log|);
  }

  /**
   * A Consistent log has no gap over 48 hours either, and at most 45% of
   * its events are in the evening or at hour 23.
   */
  lemma ConsistentProfile(log: seq<int>)
    requires IsLog(log) && DetectPattern(log) == Consistent
    ensures LongGapsCount(log, 48.0) == 0
    ensures EveningShare(log) + LateShare(log) <= 0.45
  {
    LongGapsAntitone(log, 24.0, 48.0);
    SharesOfLog(log);
  }

  /** Any log classified Avoidance with at most 25 events has the maximal avoidance score. */
  lemma ShortAvoidanceLogScoresOne(log: seq<int>)
    requires IsLog(log) && |log| <= 25 && DetectPattern(log) == Avoidance
    ensures DetectPerfectionism(log) == 1.0
  {
    PerfectionismSaturates(log);
  }
}
