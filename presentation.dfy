/**
 * The decision helpers of the dashboard (ui/app.py): the risk label, the
 * one-line summary of a pattern label, and the list of top drivers read
 * off an explainability snapshot.
 */
module Presentation {
  import opened Wrappers
  import opened EventLog
  import opened Signals
  import opened Scores
  import opened PatternRules
  import opened Explainability

  // ---------------------------------------------------------------------
  // risk_label

  const HighMessage: string := "Tomorrow might slip unless you reduce friction tonight."
  const MediumMessage: string := "You\U{2019}ll be okay with a small plan + one early win."
  const LowMessage: string := "Rhythm looks decent \U{2014} keep it simple and consistent."

  /** risk_label: the level name and its advice line. */
  function RiskLabel(r: real): (pair: (string, string))
    ensures pair.0 == "High" <==> r >= 0.8
    ensures pair.0 == "Medium" <==> 0.5 <= r < 0.8
    ensures pair.0 == "Low" <==> r < 0.5
    ensures pair.0 == "High" ==> pair.1 == HighMessage
    ensures pair.0 == "Medium" ==> pair.1 == MediumMessage
    ensures pair.0 == "Low" ==> pair.1 == LowMessage
  {
    if r >= 0.8 then ("High", HighMessage)
    else if r >= 0.5 then ("Medium", MediumMessage)
    else ("Low", LowMessage)
  }

  /** Low < Medium < High. */
  function Severity(level: string): nat
  {
    if level == "High" then 2 else if level == "Medium" then 1 else 0
  }

  /** A higher risk never gets a milder label. */
  lemma RiskLabelMonotone(r1: real, r2: real)
    requires r1 <= r2
    ensures Severity(RiskLabel(r1).0) <= Severity(RiskLabel(r2).0)
  {
  }

  /**
   * A log with the full avoidance score always has a risk of at least
   * 0.63, so its label is never Low.
   */
  lemma FullAvoidanceNotLow(log: seq<int>)
    requires IsLog(log) && DetectPerfectionism(log) == 1.0
    ensures PredictRisk(log) >= 0.63
    ensures RiskLabel(PredictRisk(log)).0 != "Low"
  {
    PredictRiskRecency(log);
    var lastWeek := LastWeek(log);
    assert HourVariance(lastWeek) >= 0.0 && WeekendRatio(lastWeek) >= 0.0;
    assert RiskRaw(0.0, HourVariance(lastWeek), 1.0, WeekendRatio(lastWeek)) >= 0.63;
  }

  // ---------------------------------------------------------------------
  // pattern_summary_text

  /** Python's `sub in s` on strings. */
  predicate Contains(s: string, sub: string)
    decreases |s|
  {
    (|sub| <= |s| && s[..|sub|] == sub) || (|s| > 0 && Contains(s[1..], sub))
  }

  /** sub occurs in s starting at position i. */
  predicate OccursAt(s: string, sub: string, i: int)
  {
    0 <= i <= |s| - |sub| && s[i..i + |sub|] == sub
  }

  /** `sub in s` holds exactly when sub occurs at some position of s. */
  lemma {:induction false} ContainsOccurrence(s: string, sub: string)
    ensures Contains(s, sub) <==> exists i :: OccursAt(s, sub, i)
    decreases |s|
  {
    if |sub| <= |s| && s[..|sub|] == sub {
      assert OccursAt(s, sub, 0);
    }
    if exists i :: OccursAt(s, sub, i) {
      var i :| OccursAt(s, sub, i);
      if i > 0 {
        assert s[1..][i - 1..i - 1 + |sub|] == s[i..i + |sub|];
        assert OccursAt(s[1..], sub, i - 1);
        ContainsOccurrence(s[1..], sub);
      }
    }
    if |s| > 0 && Contains(s[1..], sub) {
      ContainsOccurrence(s[1..], sub);
      var i :| OccursAt(s[1..], sub, i);
      assert s[i + 1..i + 1 + |sub|] == s[1..][i..i + |sub|];
      assert OccursAt(s, sub, i + 1);
    }
  }

  /** The first character of a contained string occurs in s. */
  lemma {:induction false} ContainsHead(s: string, sub: string)
    requires |sub| > 0 && Contains(s, sub)
    ensures sub[0] in s
    decreases |s|
  {
    if |sub| <= |s| && s[..|sub|] == sub {
      assert s[0] == sub[0];
    } else {
      ContainsHead(s[1..], sub);
    }
  }

  const AvoidanceSummary: string := "Long gaps + late returns usually mean the task feels high-stakes or unclear."
  const FatigueSummary: string := "Evening-heavy work can be fine, but fatigue makes starting harder."
  const DeadlineSummary: string := "Bursts can work, but earlier mini-deadlines reduce stress."
  const ConsistentSummary: string := "Pretty steady. Your main goal is protecting this rhythm."
  const MixedSummary: string := "Mixed pattern \U{2014} usually fixed by clearer next steps + a predictable work slot."

  /** pattern_summary_text: the first keyword found in the label picks the text. */
  function PatternSummaryText(pat: string): (text: string)
    ensures Contains(pat, "Avoidance") ==> text == AvoidanceSummary
    ensures !Contains(pat, "Avoidance") && Contains(pat, "Fatigue") ==> text == FatigueSummary
    ensures !Contains(pat, "Avoidance") && !Contains(pat, "Fatigue") && Contains(pat, "Deadline") ==>
      text == DeadlineSummary
    ensures (!Contains(pat, "Avoidance") && !Contains(pat, "Fatigue") && !Contains(pat, "Deadline") &&
             Contains(pat, "Consistent")) ==> text == ConsistentSummary
    ensures (!Contains(pat, "Avoidance") && !Contains(pat, "Fatigue") && !Contains(pat, "Deadline") &&
             !Contains(pat, "Consistent")) ==> text == MixedSummary
  {
    if Contains(pat, "Avoidance") then AvoidanceSummary
    else if Contains(pat, "Fatigue") then FatigueSummary
    else if Contains(pat, "Deadline") then DeadlineSummary
    else if Contains(pat, "Consistent") then ConsistentSummary
    else MixedSummary
  }

  predicate Capital(c: char)
  {
    'A' <= c <= 'Z'
  }

  /** Only the first character of s may be a capital letter. */
  predicate CapitalOnlyFirst(s: string)
  {
    forall i :: 1 <= i < |s| ==> !Capital(s[i])
  }

  /** A string whose first character does not occur in s is not in s. */
  lemma NotContainedByHead(s: string, sub: string)
    requires |sub| > 0 && sub[0] !in s
    ensures !Contains(s, sub)
  {
    if Contains(s, sub) {
      ContainsHead(s, sub);
    }
  }

  /** A string is in any string it starts. */
  lemma StartsWithContains(s: string, sub: string)
    requires |sub| <= |s| && forall i :: 0 <= i < |sub| ==> s[i] == sub[i]
    ensures Contains(s, sub)
  {
    assert s[..|sub|] == sub;
  }

  /**
   * A capitalised keyword is not in a string whose only capital is a
   * different first letter.
   */
  lemma KeywordAbsent(s: string, keyword: string)
    requires |s| > 0 && CapitalOnlyFirst(s)
    requires |keyword| > 0 && Capital(keyword[0]) && keyword[0] != s[0]
    ensures !Contains(s, keyword)
  {
    assert keyword[0] !in s by {
      forall i | 0 <= i < |s|
        ensures s[i] != keyword[0]
      {
        if i > 0 {
          assert !Capital(s[i]);
        }
      }
    }
    NotContainedByHead(s, keyword);
  }

  /** Which keywords a label with a single, leading capital cannot hold. */
  lemma KeywordsByFirstLetter(s: string)
    requires |s| > 0 && CapitalOnlyFirst(s)
    ensures s[0] != 'A' ==> !Contains(s, "Avoidance")
    ensures s[0] != 'F' ==> !Contains(s, "Fatigue")
    ensures s[0] != 'D' ==> !Contains(s, "Deadline")
    ensures s[0] != 'C' ==> !Contains(s, "Consistent")
  {
    if s[0] != 'A' { KeywordAbsent(s, "Avoidance"); }
    if s[0] != 'F' { KeywordAbsent(s, "Fatigue"); }
    if s[0] != 'D' { KeywordAbsent(s, "Deadline"); }
    if s[0] != 'C' { KeywordAbsent(s, "Consistent"); }
  }

  // Each classifier label has a single capital letter, its first.
  lemma AvoidanceLabelCapitals(text: string)
    requires text == PatternLabel(Avoidance)
    ensures CapitalOnlyFirst(text)
  {
  }

  lemma FatigueLabelCapitals(text: string)
    requires text == PatternLabel(Fatigue)
    ensures CapitalOnlyFirst(text)
  {
  }

  lemma DeadlineChasingLabelCapitals(text: string)
    requires text == PatternLabel(DeadlineChasing)
    ensures CapitalOnlyFirst(text)
  {
  }

  lemma ConsistentLabelCapitals(text: string)
    requires text == PatternLabel(Consistent)
    ensures CapitalOnlyFirst(text)
  {
  }

  lemma MixedLabelCapitals(text: string)
    requires text == PatternLabel(Mixed)
    ensures CapitalOnlyFirst(text)
  {
  }

  lemma LabelCapitals(p: Pattern, text: string)
    requires text == PatternLabel(p)
    ensures |text| > 0 && CapitalOnlyFirst(text)
    ensures text[0] == match p
      case Avoidance => 'A' case Fatigue => 'F' case DeadlineChasing => 'D'
      case Consistent => 'C' case Mixed => 'M'
  {
    match p
    case Avoidance => AvoidanceLabelCapitals(text);
    case Fatigue => FatigueLabelCapitals(text);
    case DeadlineChasing => DeadlineChasingLabelCapitals(text);
    case Consistent => ConsistentLabelCapitals(text);
    case Mixed => MixedLabelCapitals(text);
  }

  /** Every classifier label but the mixed one starts with its keyword. */
  lemma LabelStartsWithKeyword(p: Pattern, text: string)
    requires text == PatternLabel(p)
    ensures p == Avoidance ==> Contains(text, "Avoidance")
    ensures p == Fatigue ==> Contains(text, "Fatigue")
    ensures p == DeadlineChasing ==> Contains(text, "Deadline")
    ensures p == Consistent ==> Contains(text, "Consistent")
  {
    match p
    case Avoidance =>
      forall i | 0 <= i < 9 ensures text[i] == "Avoidance"[i] {}
      StartsWithContains(text, "Avoidance");
    case Fatigue =>
      forall i | 0 <= i < 7 ensures text[i] == "Fatigue"[i] {}
      StartsWithContains(text, "Fatigue");
    case DeadlineChasing =>
      forall i | 0 <= i < 8 ensures text[i] == "Deadline"[i] {}
      StartsWithContains(text, "Deadline");
    case Consistent =>
      forall i | 0 <= i < 10 ensures text[i] == "Consistent"[i] {}
      StartsWithContains(text, "Consistent");
    case Mixed =>
  }

  /** Which of the four keywords each classifier label holds: exactly its own. */
  lemma LabelKeywords(p: Pattern, text: string)
    requires text == PatternLabel(p)
    ensures Contains(text, "Avoidance") <==> p == Avoidance
    ensures Contains(text, "Fatigue") <==> p == Fatigue
    ensures Contains(text, "Deadline") <==> p == DeadlineChasing
    ensures Contains(text, "Consistent") <==> p == Consistent
  {
    LabelCapitals(p, text);
    LabelStartsWithKeyword(p, text);
    KeywordsByFirstLetter(text);
  }

  /** The summary each classifier label receives. */
  lemma SummaryOfLabel(p: Pattern)
    ensures p == Avoidance ==> PatternSummaryText(PatternLabel(p)) == AvoidanceSummary
    ensures p == Fatigue ==> PatternSummaryText(PatternLabel(p)) == FatigueSummary
    ensures p == DeadlineChasing ==> PatternSummaryText(PatternLabel(p)) == DeadlineSummary
    ensures p == Consistent ==> PatternSummaryText(PatternLabel(p)) == ConsistentSummary
    ensures p == Mixed ==> PatternSummaryText(PatternLabel(p)) == MixedSummary
  {
    LabelKeywords(p, PatternLabel(p));
  }

  /** Each of the five classifier labels gets its own summary. */
  lemma SummaryTextsDistinct(p: Pattern, q: Pattern)
    requires p != q
    ensures PatternSummaryText(PatternLabel(p)) != PatternSummaryText(PatternLabel(q))
  {
    SummaryOfLabel(p);
    SummaryOfLabel(q);
  }

  // ---------------------------------------------------------------------
  // top_drivers

  /** One line of the drivers list; its text is DriverText. */
  datatype Driver =
    | LongGaps(gaps: int)
    | LateActivity(percent: int)
    | Bursts(bursts: int)
    | PeakHour(hour: int)
    | Weekend(percent: int)
    | NoStrongDriver

  /** int(x): truncation toward zero. */
  function Truncate(x: real): (n: int)
    ensures x >= 0.0 ==> n as real <= x < n as real + 1.0
    ensures x < 0.0 ==> n as real - 1.0 < x <= n as real
  {
    if x >= 0.0 then x.Floor else -((-x).Floor)
  }

  /** The position of each driver in the list. */
  function Rank(d: Driver): nat
  {
    match d
    case LongGaps(_) => 0
    case LateActivity(_) => 1
    case Bursts(_) => 2
    case PeakHour(_) => 3
    case Weekend(_) => 4
    case NoStrongDriver => 5
  }

  /** Drivers listed in strictly increasing rank. */
  predicate Ranked(drivers: seq<Driver>)
  {
    forall i, j :: 0 <= i < j < |drivers| ==> Rank(drivers[i]) < Rank(drivers[j])
  }

  /** Whether any of the five thresholds fires. */
  predicate AnyDriver(exp: Snapshot)
  {
    exp.longGaps24h != 0 || exp.lateNightRatio >= 0.25 || exp.burstCount5In2h != 0
    || exp.peakHour.Some? || exp.weekendRatio >= 0.35
  }

  /** The drivers a snapshot calls for, each with the figure it reports. */
  predicate Fires(exp: Snapshot, d: Driver)
  {
    match d
    case LongGaps(n) => exp.longGaps24h != 0 && n == exp.longGaps24h
    case LateActivity(p) => exp.lateNightRatio >= 0.25 && p == Truncate(exp.lateNightRatio * 100.0)
    case Bursts(n) => exp.burstCount5In2h != 0 && n == exp.burstCount5In2h
    case PeakHour(h) => exp.peakHour == Some(h)
    case Weekend(p) => exp.weekendRatio >= 0.35 && p == Truncate(exp.weekendRatio * 100.0)
    case NoStrongDriver => !AnyDriver(exp)
  }

  /** xs[:n]. */
  function Take<T>(xs: seq<T>, n: nat): (r: seq<T>)
    ensures |r| == (if |xs| <= n then |xs| else n)
    ensures r == xs[..|r|]
  {
    if |xs| <= n then xs else xs[..n]
  }

  /** The driver of rank k < 5 that a snapshot would report. */
  function DriverOfRank(exp: Snapshot, k: nat): (d: Driver)
    requires k < 5
    ensures Rank(d) == k
  {
    if k == 0 then LongGaps(exp.longGaps24h)
    else if k == 1 then LateActivity(Truncate(exp.lateNightRatio * 100.0))
    else if k == 2 then Bursts(exp.burstCount5In2h)
    else if k == 3 then PeakHour(if exp.peakHour.Some? then exp.peakHour.value else 0)
    else Weekend(Truncate(exp.weekendRatio * 100.0))
  }

  /** Whether the threshold of rank k < 5 fires. */
  predicate RankFires(exp: Snapshot, k: nat)
    requires k < 5
  {
    if k == 0 then exp.longGaps24h != 0
    else if k == 1 then exp.lateNightRatio >= 0.25
    else if k == 2 then exp.burstCount5In2h != 0
    else if k == 3 then exp.peakHour.Some?
    else exp.weekendRatio >= 0.35
  }

  /** The list after the first k threshold checks. */
  function FiredBelow(exp: Snapshot, k: nat): seq<Driver>
    requires k <= 5
  {
    if k == 0 then []
    else FiredBelow(exp, k - 1) + (if RankFires(exp, k - 1) then [DriverOfRank(exp, k - 1)] else [])
  }

  /** The only driver of rank k that can fire is DriverOfRank, and it fires with its threshold. */
  lemma DriverOfRankFires(exp: Snapshot, k: nat, x: Driver)
    requires k < 5
    ensures Fires(exp, DriverOfRank(exp, k)) <==> RankFires(exp, k)
    ensures Rank(x) == k && Fires(exp, x) ==> x == DriverOfRank(exp, k)
  {
  }

  /**
   * After the first k checks the list holds, in rank order, exactly the
   * drivers below rank k that fire.
   */
  lemma {:induction false} FiredBelowSound(exp: Snapshot, k: nat)
    requires k <= 5
    ensures Ranked(FiredBelow(exp, k)) && |FiredBelow(exp, k)| <= k
    ensures forall d :: d in FiredBelow(exp, k) <==> Rank(d) < k && Fires(exp, d)
  {
    if k > 0 {
      FiredBelowSound(exp, k - 1);
      var prev := FiredBelow(exp, k - 1);
      var d := DriverOfRank(exp, k - 1);
      forall x
        ensures x in FiredBelow(exp, k) <==> Rank(x) < k && Fires(exp, x)
      {
        DriverOfRankFires(exp, k - 1, x);
      }
      DriverOfRankFires(exp, k - 1, d);
    }
  }

  /** The first k checks add nothing exactly when none of their thresholds fires. */
  lemma {:induction false} FiredBelowEmpty(exp: Snapshot, k: nat)
    requires k <= 5
    ensures FiredBelow(exp, k) == [] <==> forall j :: 0 <= j < k ==> !RankFires(exp, j)
  {
    if k > 0 {
      FiredBelowEmpty(exp, k - 1);
    }
  }

  /** No threshold fires exactly when the first five checks add nothing. */
  lemma NoneFired(exp: Snapshot)
    ensures FiredBelow(exp, 5) == [] <==> !AnyDriver(exp)
  {
    FiredBelowEmpty(exp, 5);
    assert AnyDriver(exp) <==>
      RankFires(exp, 0) || RankFires(exp, 1) || RankFires(exp, 2) || RankFires(exp, 3) || RankFires(exp, 4);
  }

  /** The list with the fallback in place of an empty one. */
  lemma WithFallback(exp: Snapshot, drivers: seq<Driver>)
    requires drivers == if FiredBelow(exp, 5) == [] then [NoStrongDriver] else FiredBelow(exp, 5)
    ensures 1 <= |drivers| <= 5
    ensures Ranked(drivers)
    ensures forall d :: d in drivers <==> Fires(exp, d)
    ensures NoStrongDriver in drivers <==> !AnyDriver(exp)
    ensures NoStrongDriver in drivers ==> drivers == [NoStrongDriver]
  {
    FiredBelowSound(exp, 5);
    NoneFired(exp);
    assert Rank(NoStrongDriver) == 5;
  }

  /**
   * top_drivers: append each driver whose threshold fires, in a fixed
   * order, fall back to "no strong driver", and keep the first five.
   */
  method TopDrivers(exp: Snapshot) returns (drivers: seq<Driver>)
    ensures 1 <= |drivers| <= 5
    ensures Ranked(drivers)
    ensures forall d :: d in drivers <==> Fires(exp, d)
    ensures NoStrongDriver in drivers <==> !AnyDriver(exp)
    ensures NoStrongDriver in drivers ==> drivers == [NoStrongDriver]
  {
    drivers := [];
    if exp.longGaps24h != 0 {
      drivers := drivers + [LongGaps(exp.longGaps24h)];
    }
    assert drivers == FiredBelow(exp, 1);
    if exp.lateNightRatio >= 0.25 {
      drivers := drivers + [LateActivity(Truncate(exp.lateNightRatio * 100.0))];
    }
    assert drivers == FiredBelow(exp, 2);
    if exp.burstCount5In2h != 0 {
      drivers := drivers + [Bursts(exp.burstCount5In2h)];
    }
    assert drivers == FiredBelow(exp, 3);
    if exp.peakHour.Some? {
      drivers := drivers + [PeakHour(exp.peakHour.value)];
    }
    assert drivers == FiredBelow(exp, 4);
    if exp.weekendRatio >= 0.35 {
      drivers := drivers + [Weekend(Truncate(exp.weekendRatio * 100.0))];
    }
    assert drivers == FiredBelow(exp, 5);
    if drivers == [] {
      drivers := drivers + [NoStrongDriver];
    }
    WithFallback(exp, drivers);
    assert Take(drivers, 5) == drivers[..|drivers|] == drivers;
    drivers := Take(drivers, 5);
  }

  /** A snapshot built from a log always reports its peak hour, so the fallback never appears. */
  lemma BuiltSnapshotHasPeakDriver(exp: Snapshot, drivers: seq<Driver>)
    requires exp.peakHour.Some?
    requires forall d :: d in drivers <==> Fires(exp, d)
    ensures PeakHour(exp.peakHour.value) in drivers
    ensures NoStrongDriver !in drivers
  {
    assert Fires(exp, PeakHour(exp.peakHour.value));
  }

  // ---------------------------------------------------------------------
  // Rendering of the f-strings

  /** The decimal digit for d. */
  function DigitChar(d: nat): (c: char)
    requires d < 10
    ensures '0' <= c <= '9' && c as int - '0' as int == d
  {
    ('0' as int + d) as char
  }

  /** str(n) for a natural number. */
  function NatToString(n: nat): (s: string)
    ensures |s| >= 1
    ensures forall i :: 0 <= i < |s| ==> '0' <= s[i] <= '9'
    decreases n
  {
    if n < 10 then [DigitChar(n)] else NatToString(n / 10) + [DigitChar(n % 10)]
  }

  /** int(s) for a string of decimal digits. */
  function DecimalValue(s: string): nat
    requires forall i :: 0 <= i < |s| ==> '0' <= s[i] <= '9'
  {
    if s == [] then 0 else DecimalValue(s[..|s| - 1]) * 10 + (s[|s| - 1] as int - '0' as int)
  }

  /** Reading back the digits of str(n) gives n. */
  lemma {:induction false} NatToStringRoundTrip(n: nat)
    ensures DecimalValue(NatToString(n)) == n
    decreases n
  {
    if n >= 10 {
      NatToStringRoundTrip(n / 10);
      var s := NatToString(n);
      assert s[..|s| - 1] == NatToString(n / 10);
    }
  }

  /** str(i) for any integer. */
  function IntToString(i: int): string
  {
    if i < 0 then "-" + NatToString(-i) else NatToString(i)
  }

  // The fixed text around each driver's figure.
  const GapsSuffix: string := " long inactivity gap(s) (>24h)."
  const LatePrefix: string := "Late-night activity shows up often ("
  const PercentSuffix: string := "%)."
  const BurstsSuffix: string := " burst window(s): 5+ events within 2 hours."
  const PeakPrefix: string := "Peak activity hour: around "
  const PeakSuffix: string := ":00."
  const WeekendPrefix: string := "A lot of activity happens on weekends ("
  const FallbackText: string := "No single strong driver \U{2014} looks mixed."

  /** The line shown for a driver (the f-strings of top_drivers). */
  function DriverText(d: Driver): string
  {
    match d
    case LongGaps(n) => IntToString(n) + GapsSuffix
    case LateActivity(p) => LatePrefix + IntToString(p) + PercentSuffix
    case Bursts(n) => IntToString(n) + BurstsSuffix
    case PeakHour(h) => PeakPrefix + IntToString(h) + PeakSuffix
    case Weekend(p) => WeekendPrefix + IntToString(p) + PercentSuffix
    case NoStrongDriver => FallbackText
  }

  /** The number a driver reports. */
  function Figure(d: Driver): int
    requires !d.NoStrongDriver?
  {
    match d
    case LongGaps(n) => n
    case LateActivity(p) => p
    case Bursts(n) => n
    case PeakHour(h) => h
    case Weekend(p) => p
  }

  /** Where a driver's number starts in its text. */
  function FigureOffset(d: Driver): nat
    requires !d.NoStrongDriver?
  {
    match d
    case LongGaps(_) => 0
    case LateActivity(_) => |LatePrefix|
    case Bursts(_) => 0
    case PeakHour(_) => |PeakPrefix|
    case Weekend(_) => |WeekendPrefix|
  }

  predicate IsDigit(c: char)
  {
    '0' <= c <= '9'
  }

  /** The longest run of digits at the start of s. */
  function LeadingDigits(s: string): (r: string)
    ensures |r| <= |s| && r == s[..|r|]
    ensures forall i :: 0 <= i < |r| ==> IsDigit(r[i])
    ensures |r| < |s| ==> !IsDigit(s[|r|])
  {
    if s == [] || !IsDigit(s[0]) then []
    else
      var rest := LeadingDigits(s[1..]);
      assert s[1..][..|rest|] == s[1..|rest| + 1];
      [s[0]] + rest
  }

  /** The number written at position i of s: int() of the digit run found there. */
  function NumberAt(s: string, i: nat): nat
    requires i <= |s|
  {
    DecimalValue(LeadingDigits(s[i..]))
  }

  /** A digit string followed by a non-digit is exactly the digit run it starts. */
  lemma {:induction false} LeadingDigitsOf(ds: string, post: string)
    requires forall i :: 0 <= i < |ds| ==> IsDigit(ds[i])
    requires post == [] || !IsDigit(post[0])
    ensures LeadingDigits(ds + post) == ds
  {
    if ds != [] {
      assert (ds + post)[1..] == ds[1..] + post;
      LeadingDigitsOf(ds[1..], post);
      assert ds == [ds[0]] + ds[1..];
    }
  }

  /** The number written between a prefix and a suffix that does not start with a digit reads back. */
  lemma FigureReadsBack(text: string, prefix: string, n: nat, suffix: string)
    requires text == prefix + NatToString(n) + suffix
    requires suffix == [] || !IsDigit(suffix[0])
    ensures |prefix| <= |text|
    ensures NumberAt(text, |prefix|) == n
  {
    var digits := NatToString(n);
    assert text[|prefix|..] == digits + suffix;
    LeadingDigitsOf(digits, suffix);
    NatToStringRoundTrip(n);
  }

  // One lemma per f-string, so that each proof sees only its own literals.
  lemma GapsFigure(n: nat, text: string)
    requires text == DriverText(LongGaps(n))
    ensures NumberAt(text, 0) == n
  {
    assert !IsDigit(GapsSuffix[0]);
    FigureReadsBack(text, [], n, GapsSuffix);
  }

  lemma LateFigure(n: nat, text: string)
    requires text == DriverText(LateActivity(n))
    ensures |LatePrefix| <= |text| && NumberAt(text, |LatePrefix|) == n
  {
    assert !IsDigit(PercentSuffix[0]);
    FigureReadsBack(text, LatePrefix, n, PercentSuffix);
  }

  lemma BurstsFigure(n: nat, text: string)
    requires text == DriverText(Bursts(n))
    ensures NumberAt(text, 0) == n
  {
    assert !IsDigit(BurstsSuffix[0]);
    FigureReadsBack(text, [], n, BurstsSuffix);
  }

  lemma PeakFigure(n: nat, text: string)
    requires text == DriverText(PeakHour(n))
    ensures |PeakPrefix| <= |text| && NumberAt(text, |PeakPrefix|) == n
  {
    assert !IsDigit(PeakSuffix[0]);
    FigureReadsBack(text, PeakPrefix, n, PeakSuffix);
  }

  lemma WeekendFigure(n: nat, text: string)
    requires text == DriverText(Weekend(n))
    ensures |WeekendPrefix| <= |text| && NumberAt(text, |WeekendPrefix|) == n
  {
    assert !IsDigit(PercentSuffix[0]);
    FigureReadsBack(text, WeekendPrefix, n, PercentSuffix);
  }

  /** A non-negative number in a driver line reads back as the driver's figure. */
  lemma DriverTextFigure(d: Driver)
    requires !d.NoStrongDriver? && Figure(d) >= 0
    ensures FigureOffset(d) <= |DriverText(d)|
    ensures NumberAt(DriverText(d), FigureOffset(d)) == Figure(d)
  {
    match d {
      case LongGaps(n) => GapsFigure(n, DriverText(d));
      case LateActivity(p) => LateFigure(p, DriverText(d));
      case Bursts(n) => BurstsFigure(n, DriverText(d));
      case PeakHour(h) => PeakFigure(h, DriverText(d));
      case Weekend(p) => WeekendFigure(p, DriverText(d));
    }
  }

  /** Every driver a snapshot with a valid peak hour fires reports a non-negative figure. */
  lemma FiredFigureNonNegative(exp: Snapshot, d: Driver)
    requires Fires(exp, d) && !d.NoStrongDriver?
    requires exp.peakHour.Some? ==> exp.peakHour.value >= 0
    ensures Figure(d) >= 0
  {
  }
}
