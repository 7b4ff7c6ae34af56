# Procrastination analyzer: a verified model of the signal engine

This project models the decision core of the procrastination analyzer in
Dafny and proves properties of it.

- **Signal engine** (`analysis/advanced_patterns.py`). A log of activity timestamps is first normalised: `ensure_ts` picks the column, drops unparsable cells, sorts, and rejects an empty result. The engine then derives:
  - gaps between events in hours;
  - a time-of-day bucket per event;
  - the number of 5-event windows that fit in two hours;
  - counts of long gaps;
  - late-night and weekend ratios;
  - the sample variance of event hours;
  - the avoidance ("perfectionism") score and the next-day risk score;
  - the first-match pattern label;
  - the explainability snapshot that gathers all of these.
- **Retrieval post-processing** (`rag/retrieve.py`):
  - defaulting of snippet records;
  - the category filter and its fallback to the whole list;
  - selection of the k most similar snippets, most similar first;
  - building the result entries.
- **Presentation helpers** (`ui/app.py`):
  - the risk label (`risk_label`);
  - the summary sentence for a pattern label (`pattern_summary_text`);
  - the list of top drivers (`top_drivers`).

## Encoding

- A timestamp is an integer number of seconds since a Monday midnight.
  - Hour of day is `(t / 3600) % 24`.
  - Weekday is `(t / 86400) % 7`, with 0 for Monday, so 5 and 6 are the weekend.
- A canonical log (`EventLog.IsLog`) is non-empty and sorted. It is what `ensure_ts` returns.
  - Every analysis function of the source starts by calling `ensure_ts` again. `EventLog.EnsureTsFixpoint` shows that this call returns a canonical log unchanged. The model therefore passes the canonical log directly.
- Ratios and scores are reals, taken before the source rounds them.
- The similarity of the query to each corpus text is a function argument, `similarity: seq<string> -> seq<real>`. It stands for the TF-IDF vectorizer and `linear_kernel`.
- `hour_variance` is the sample variance: pandas `.var()` divides by n - 1.
- Ties in the top-k selection come out in no particular order, because numpy's default `argsort` is not stable.
- With no snippets at all, `retrieve_snippets` fails. The failure is raised inside `linear_kernel`, which refuses a corpus matrix with no rows. The model returns `Err(EmptyCorpus)` in exactly that case.

Modules, one per file:

| file | module | contents |
|---|---|---|
| wrappers.dfy | Wrappers | `Option`, `Result` |
| event_log.dfy | EventLog | timestamps, hour/weekday, `ensure_ts` |
| signals.dfy | Signals | gaps, buckets, bursts, long gaps, ratios, variance |
| scores.dfy | Scores | `detect_perfectionism`, `predict_risk` |
| pattern_rules.dfy | PatternRules | `detect_pattern` |
| explainability.dfy | Explainability | `build_explainability` |
| retrieval.dfy | Retrieval | `Snippet`, `load_snippets`, `retrieve_snippets` |
| presentation.dfy | Presentation | `risk_label`, `pattern_summary_text`, `top_drivers` |

## Model

| member | source | states |
|---|---|---|
| EventLog.Present | procrastination_analyzer/content/procrastination_analyzer/analysis/advanced_patterns.py:12 | the result of dropna is empty iff every cell is invalid |
| EventLog.PresentCounts | procrastination_analyzer/content/procrastination_analyzer/analysis/advanced_patterns.py:12 | dropna keeps exactly the valid cells, each as often as the column holds it |
| EventLog.Insert | procrastination_analyzer/content/procrastination_analyzer/analysis/advanced_patterns.py:12 | inserting into a sorted log keeps it sorted, and the new first element is x or the old first element |
| EventLog.InsertCounts | procrastination_analyzer/content/procrastination_analyzer/analysis/advanced_patterns.py:12 | insertion adds exactly one copy of x and removes nothing |
| EventLog.SortAsc | procrastination_analyzer/content/procrastination_analyzer/analysis/advanced_patterns.py:12 | sort_values gives an ascending permutation of its input |
| EventLog.EnsureTs | procrastination_analyzer/content/procrastination_analyzer/analysis/advanced_patterns.py:5-15 | fails with the missing-column message iff neither `ts` nor `timestamp` is present. Otherwise it normalises `ts`, or else `timestamp`: it fails with the no-valid message iff every cell is invalid, and on success returns a non-empty sorted log with the same multiset of valid timestamps |
| EventLog.SortAscOfSorted | procrastination_analyzer/content/procrastination_analyzer/analysis/advanced_patterns.py:12 | sorting an already sorted log leaves it unchanged |
| EventLog.PresentAsColumn | procrastination_analyzer/content/procrastination_analyzer/analysis/advanced_patterns.py:12 | dropna of a fully valid column returns its values in order |
| EventLog.EnsureTsFixpoint | procrastination_analyzer/content/procrastination_analyzer/analysis/advanced_patterns.py:5-15 | ensure_ts returns a canonical log unchanged, so every later re-normalisation in the analyses is the identity |
| EventLog.EnsureTsIdempotent | procrastination_analyzer/content/procrastination_analyzer/analysis/advanced_patterns.py:5-15 | normalising the result of a successful ensure_ts again gives the same result |
| Signals.GapsHours | procrastination_analyzer/content/procrastination_analyzer/analysis/advanced_patterns.py:17-19 | one gap per event; the first gap is 0 (fillna) and every gap is >= 0 on a sorted log |
| Signals.GapsPrefixSum | procrastination_analyzer/content/procrastination_analyzer/analysis/advanced_patterns.py:17-19 | the first k gaps add up to the hours between event 0 and event k-1 |
| Signals.GapsSumToSpan | procrastination_analyzer/content/procrastination_analyzer/analysis/advanced_patterns.py:17-19 | all gaps add up to the span of the log in hours |
| Signals.BucketNameInjective | procrastination_analyzer/content/procrastination_analyzer/analysis/advanced_patterns.py:21-28 | the four bucket names are pairwise distinct, so the `bucket_counts` keys identify their buckets |
| Signals.TimeOfDayBucket | procrastination_analyzer/content/procrastination_analyzer/analysis/advanced_patterns.py:21-28 | morning iff 5 <= h < 12, afternoon iff 12 <= h < 17, evening iff 17 <= h < 22, late_night iff h < 5 or h >= 22 |
| Signals.LateHourInLateNightBucket | procrastination_analyzer/content/procrastination_analyzer/analysis/advanced_patterns.py:47-49 | every event the late-night ratio counts (hour 23) is in the late_night bucket; an event at hour 22 is in that bucket but is not counted by the ratio |
| Signals.BurstCount | procrastination_analyzer/content/procrastination_analyzer/analysis/advanced_patterns.py:30-40 | 0 for fewer than 5 events, otherwise at most len - 4 |
| Signals.Burstiness5In2h | procrastination_analyzer/content/procrastination_analyzer/analysis/advanced_patterns.py:30-40 | the sliding-window loop returns the number of windows whose five events span at most two hours |
| Signals.BurstWindowSeconds | procrastination_analyzer/content/procrastination_analyzer/analysis/advanced_patterns.py:36-38 | a window counts iff its last minus first timestamp is at most 7200 seconds |
| Signals.BurstCountAppend | procrastination_analyzer/content/procrastination_analyzer/analysis/advanced_patterns.py:30-40 | a new event adds exactly its own trailing window to the count |
| Signals.BurstCountMonotone | procrastination_analyzer/content/procrastination_analyzer/analysis/advanced_patterns.py:30-40 | appending events never lowers the burst count |
| Signals.BurstScenario | procrastination_analyzer/content/procrastination_analyzer/analysis/advanced_patterns.py:30-40 | five events in 90 minutes give one window; a sixth event ten hours later adds none |
| Signals.CountAbove | procrastination_analyzer/content/procrastination_analyzer/analysis/advanced_patterns.py:45 | the count of gaps strictly above the threshold is at most the number of gaps |
| Signals.LongGapsCount | procrastination_analyzer/content/procrastination_analyzer/analysis/advanced_patterns.py:42-45 | long_gaps_count is at most the number of events |
| Signals.CountAboveFirstNotAbove | procrastination_analyzer/content/procrastination_analyzer/analysis/advanced_patterns.py:45 | when the first gap is not above the threshold, at most len - 1 gaps are |
| Signals.LongGapsBound | procrastination_analyzer/content/procrastination_analyzer/analysis/advanced_patterns.py:42-45 | for any threshold >= 0, at most len - 1 gaps are long |
| Signals.CountAboveAntitone | procrastination_analyzer/content/procrastination_analyzer/analysis/advanced_patterns.py:45 | raising the threshold never increases the count |
| Signals.LongGapsAntitone | procrastination_analyzer/content/procrastination_analyzer/analysis/advanced_patterns.py:131-132 | long_gaps_count is non-increasing in the threshold, so long_gaps_48h <= long_gaps_24h |
| Signals.CountHours | procrastination_analyzer/content/procrastination_analyzer/analysis/advanced_patterns.py:77-79 | events whose hour lies in a range number at most len |
| Signals.CountWeekend | procrastination_analyzer/content/procrastination_analyzer/analysis/advanced_patterns.py:53 | weekend events number at most len |
| Signals.CountBucket | procrastination_analyzer/content/procrastination_analyzer/analysis/advanced_patterns.py:127 | events in one bucket number at most len |
| Signals.CountHoursSplit | procrastination_analyzer/content/procrastination_analyzer/analysis/advanced_patterns.py:77-79 | adjacent hour ranges add up: [lo, hi) = [lo, mid) + [mid, hi) |
| Signals.CountHoursAll | procrastination_analyzer/content/procrastination_analyzer/analysis/advanced_patterns.py:75 | every event has an hour in [0, 24) |
| Signals.BucketCountsSum | procrastination_analyzer/content/procrastination_analyzer/analysis/advanced_patterns.py:127 | the four bucket counts add up to the number of events |
| Signals.Fraction | procrastination_analyzer/content/procrastination_analyzer/analysis/advanced_patterns.py:49 | a boolean mean lies in [0, 1] and is 0 iff no element is true |
| Signals.LateNightRatio | procrastination_analyzer/content/procrastination_analyzer/analysis/advanced_patterns.py:47-49 | in [0, 1], and 0 iff no event is at hour 23 |
| Signals.WeekendRatio | procrastination_analyzer/content/procrastination_analyzer/analysis/advanced_patterns.py:51-53 | in [0, 1], and 0 iff no event is on a Saturday or Sunday |
| Signals.SquaredDeviations | procrastination_analyzer/content/procrastination_analyzer/analysis/advanced_patterns.py:57 | a sum of squares is never negative |
| Signals.HourVariance | procrastination_analyzer/content/procrastination_analyzer/analysis/advanced_patterns.py:55-58 | the sample variance of the event hours is >= 0, and is 0 for a single event, where pandas gives NaN |
| Signals.HourSumConstant | procrastination_analyzer/content/procrastination_analyzer/analysis/advanced_patterns.py:57 | when all events share hour h, the hours add up to len * h |
| Signals.SquaredDeviationsConstant | procrastination_analyzer/content/procrastination_analyzer/analysis/advanced_patterns.py:57 | when all events share hour h, their deviations from h are all 0 |
| Signals.HourVarianceConstant | procrastination_analyzer/content/procrastination_analyzer/analysis/advanced_patterns.py:55-58 | a log whose events all fall in the same hour has variance 0 |
| Scores.Clip | procrastination_analyzer/content/procrastination_analyzer/analysis/advanced_patterns.py:70 | np.clip lands in [lo, hi], is lo or hi at the ends, and is the identity inside |
| Scores.VolumeNorm | procrastination_analyzer/content/procrastination_analyzer/analysis/advanced_patterns.py:68 | the volume normaliser is at least 1 |
| Scores.DetectPerfectionism | procrastination_analyzer/content/procrastination_analyzer/analysis/advanced_patterns.py:60-71 | the avoidance score lies in [0, 1] |
| Scores.QuotientZero | procrastination_analyzer/content/procrastination_analyzer/analysis/advanced_patterns.py:69 | a count divided by the volume normaliser is >= 0, and 0 iff the count is 0 |
| Scores.PerfectionismZero | procrastination_analyzer/content/procrastination_analyzer/analysis/advanced_patterns.py:60-71 | the score is 0 iff there is no gap over 24 h, no burst window and no hour-23 event |
| Scores.PerfectionismSaturates | procrastination_analyzer/content/procrastination_analyzer/analysis/advanced_patterns.py:64-70 | a log of at most 25 events with two gaps over 24 h scores exactly 1 |
| Scores.LatestIsMax | procrastination_analyzer/content/procrastination_analyzer/analysis/advanced_patterns.py:101 | on a sorted log the last event is the maximum (`df["ts"].max()`) |
| Scores.KeepFrom | procrastination_analyzer/content/procrastination_analyzer/analysis/advanced_patterns.py:102 | the boolean mask keeps every event at or after the cutoff as often as the log holds it, and drops every other event |
| Scores.KeepFromSorted | procrastination_analyzer/content/procrastination_analyzer/analysis/advanced_patterns.py:102 | the mask keeps a sorted log sorted |
| Scores.LastWeek | procrastination_analyzer/content/procrastination_analyzer/analysis/advanced_patterns.py:101-102 | the last week is sorted and holds every event of the seven days up to the latest one, with its multiplicity, and nothing else |
| Scores.PredictRisk | procrastination_analyzer/content/procrastination_analyzer/analysis/advanced_patterns.py:99-113 | the risk lies in [0.18, 1] |
| Scores.PredictRiskRecency | procrastination_analyzer/content/procrastination_analyzer/analysis/advanced_patterns.py:101-106 | the last week is never empty and its latest event is the log's latest, so the 0.5 fallback is unreachable and the inactivity term is 0 |
| PatternRules.PatternLabelInjective | procrastination_analyzer/content/procrastination_analyzer/analysis/advanced_patterns.py:89-97 | the five returned labels are pairwise distinct |
| PatternRules.DetectPattern | procrastination_analyzer/content/procrastination_analyzer/analysis/advanced_patterns.py:73-97 | each of the five patterns is returned iff its rule holds and every earlier rule fails; Mixed iff no rule holds |
| PatternRules.AvoidanceNeedsThreeEvents | procrastination_analyzer/content/procrastination_analyzer/analysis/advanced_patterns.py:89-90 | an Avoidance log has at least three events |
| PatternRules.ThreeFractions | procrastination_analyzer/content/procrastination_analyzer/analysis/advanced_patterns.py:85-87 | shares of disjoint counts of one total add up to at most 1 |
| PatternRules.SharesOfLog | procrastination_analyzer/content/procrastination_analyzer/analysis/advanced_patterns.py:77-87 | the day, evening and late shares are >= 0 and add up to at most 1 |
| PatternRules.ConsistentProfile | procrastination_analyzer/content/procrastination_analyzer/analysis/advanced_patterns.py:95-96 | a Consistent log has no gap over 48 h and at most 45% of its events in the evening or at hour 23 |
| PatternRules.ShortAvoidanceLogScoresOne | procrastination_analyzer/content/procrastination_analyzer/analysis/advanced_patterns.py:89-90 | an Avoidance log of at most 25 events has avoidance score 1 |
| Explainability.MaxGap | procrastination_analyzer/content/procrastination_analyzer/analysis/advanced_patterns.py:133 | g.max() is a gap and bounds every gap |
| Explainability.CountOwnHour | procrastination_analyzer/content/procrastination_analyzer/analysis/advanced_patterns.py:121 | every event's own hour has a positive count |
| Explainability.AddHourColumns | procrastination_analyzer/content/procrastination_analyzer/analysis/advanced_patterns.py:116-118 | the hour column holds each event's hour and the bucket column that hour's bucket |
| Explainability.HourValueCounts | procrastination_analyzer/content/procrastination_analyzer/analysis/advanced_patterns.py:121 | the per-hour tally equals the number of events at each hour |
| Explainability.BucketValueCounts | procrastination_analyzer/content/procrastination_analyzer/analysis/advanced_patterns.py:127 | the keys are exactly the buckets that occur, each mapped to its count |
| Explainability.IdxMax | procrastination_analyzer/content/procrastination_analyzer/analysis/advanced_patterns.py:121 | idxmax returns an index whose count no other count exceeds |
| Explainability.BuildExplainability | procrastination_analyzer/content/procrastination_analyzer/analysis/advanced_patterns.py:115-135 | every field of the snapshot: the total; a peak hour that occurs and is not outnumbered; the bucket counts; each ratio, variance, gap count and burst count as the signal functions define them; long_gaps_48h <= long_gaps_24h; max_gap_hours >= 0 and the largest gap |
| Retrieval.SnippetOf | procrastination_analyzer/content/procrastination_analyzer/rag/retrieve.py:21-30 | id and text are copied; category defaults to "general", title to "Suggestion" and tags to [] |
| Retrieval.SnippetOfRecordOf | procrastination_analyzer/content/procrastination_analyzer/rag/retrieve.py:21-30 | a record with every key present becomes exactly that snippet |
| Retrieval.LoadSnippets | procrastination_analyzer/content/procrastination_analyzer/rag/retrieve.py:17-31 | succeeds iff every record has id and text, and then yields one defaulted snippet per record, in order; otherwise it raises KeyError for the first incomplete record, naming `id` when that is missing and `text` otherwise |
| Retrieval.FilterCategory | procrastination_analyzer/content/procrastination_analyzer/rag/retrieve.py:36 | keeps every snippet of the category as often as the list holds it, and drops every other snippet |
| Retrieval.SearchCorpus | procrastination_analyzer/content/procrastination_analyzer/rag/retrieve.py:35-38 | for a truthy category with a match, the corpus is the filtered list, so it is non-empty and holds every matching snippet as often as the input does and nothing else; with no match or a falsy category it is the input list unchanged |
| Retrieval.SearchCorpusNonEmpty | procrastination_analyzer/content/procrastination_analyzer/rag/retrieve.py:35-38 | the filter never empties a non-empty list |
| Retrieval.Texts | procrastination_analyzer/content/procrastination_analyzer/rag/retrieve.py:40 | one text per snippet, in order |
| Retrieval.TopCount | procrastination_analyzer/content/procrastination_analyzer/rag/retrieve.py:45 | `[-k:]` keeps min(k, n) for k >= 1, all n for k = 0, and max(0, n + k) for k < 0 |
| Retrieval.Unchosen | procrastination_analyzer/content/procrastination_analyzer/rag/retrieve.py:45 | fewer than n distinct positions below n leave one position unchosen |
| Retrieval.BestRemaining | procrastination_analyzer/content/procrastination_analyzer/rag/retrieve.py:45 | returns an unchosen position whose similarity no other unchosen position exceeds |
| Retrieval.TopIndices | procrastination_analyzer/content/procrastination_analyzer/rag/retrieve.py:44-45 | the positions of the TopCount(n, k) highest similarities: distinct, in range, non-increasing in similarity, and no left-out position scores above a kept one |
| Retrieval.RetrieveSnippets | procrastination_analyzer/content/procrastination_analyzer/rag/retrieve.py:33-60 | fails iff there are no snippets at all. Otherwise it returns TopCount(corpus size, k) entries. They come from top-k positions of the filtered corpus, and each copies its snippet's fields and carries that snippet's similarity as score. Scores are non-increasing |
| Presentation.RiskLabel | procrastination_analyzer/content/procrastination_analyzer/ui/app.py:30-35 | High iff r >= 0.8, Medium iff 0.5 <= r < 0.8, Low iff r < 0.5, each with its message |
| Presentation.RiskLabelMonotone | procrastination_analyzer/content/procrastination_analyzer/ui/app.py:30-35 | a higher risk never gets a less severe label |
| Presentation.FullAvoidanceNotLow | procrastination_analyzer/content/procrastination_analyzer/analysis/advanced_patterns.py:108-112 | an avoidance score of 1 gives a risk of at least 0.63, never labelled Low |
| Presentation.ContainsOccurrence | procrastination_analyzer/content/procrastination_analyzer/ui/app.py:38 | Python's `in` on strings holds iff the substring occurs at some position |
| Presentation.ContainsHead | procrastination_analyzer/content/procrastination_analyzer/ui/app.py:38 | a contained substring's first character occurs in the string |
| Presentation.PatternSummaryText | procrastination_analyzer/content/procrastination_analyzer/ui/app.py:37-46 | the text of the first keyword (Avoidance, Fatigue, Deadline, Consistent) that the label contains, else the mixed text |
| Presentation.LabelKeywords | procrastination_analyzer/content/procrastination_analyzer/ui/app.py:37-46 | each detect_pattern label contains a summary keyword iff it is that keyword's pattern |
| Presentation.SummaryOfLabel | procrastination_analyzer/content/procrastination_analyzer/ui/app.py:37-46 | each of the five labels maps to its own summary text |
| Presentation.SummaryTextsDistinct | procrastination_analyzer/content/procrastination_analyzer/ui/app.py:37-46 | different patterns get different summary texts |
| Presentation.Truncate | procrastination_analyzer/content/procrastination_analyzer/ui/app.py:57 | int() truncates toward zero |
| Presentation.Take | procrastination_analyzer/content/procrastination_analyzer/ui/app.py:62 | `[:n]` is the prefix of length min(n, len) |
| Presentation.FiredBelowSound | procrastination_analyzer/content/procrastination_analyzer/ui/app.py:56-60 | after the first k conditional appends, the list is in fixed order, has at most k items, and holds exactly the fired drivers of rank below k |
| Presentation.NoneFired | procrastination_analyzer/content/procrastination_analyzer/ui/app.py:61 | the five appends leave the list empty iff no condition fires |
| Presentation.TopDrivers | procrastination_analyzer/content/procrastination_analyzer/ui/app.py:48-62 | between 1 and 5 drivers, in fixed order (gaps, late >= 0.25, bursts, peak, weekend >= 0.35). Each appears iff its condition holds. The fallback appears iff nothing fires, and then alone |
| Presentation.BuiltSnapshotHasPeakDriver | procrastination_analyzer/content/procrastination_analyzer/ui/app.py:59 | a snapshot with a peak hour always lists the peak driver, so the fallback never appears for a built snapshot |
| Presentation.NatToStringRoundTrip | procrastination_analyzer/content/procrastination_analyzer/ui/app.py:56-60 | the decimal rendering used in the driver texts reads back as the same number |
| Presentation.LeadingDigits | procrastination_analyzer/content/procrastination_analyzer/ui/app.py:56-60 | the digit run at the start of a string is a prefix, all digits, and not followed by a digit |
| Presentation.LeadingDigitsOf | procrastination_analyzer/content/procrastination_analyzer/ui/app.py:56-60 | a digit string followed by a non-digit is exactly the digit run it starts |
| Presentation.FigureReadsBack | procrastination_analyzer/content/procrastination_analyzer/ui/app.py:56-60 | a number written between a prefix and a suffix that starts with a non-digit reads back from the position after the prefix |
| Presentation.DriverTextFigure | procrastination_analyzer/content/procrastination_analyzer/ui/app.py:56-60 | in every driver line, the number after the fixed prefix reads back as the figure the driver reports (gap count, percentage, burst count, peak hour) |
| Presentation.FiredFigureNonNegative | procrastination_analyzer/content/procrastination_analyzer/ui/app.py:56-60 | every driver a snapshot fires reports a non-negative figure when the peak hour is non-negative, so `DriverTextFigure` applies to each line `top_drivers` shows |

## Left out

- Rounding: `round(x, 2)` on the scores, ratios and variance and `round(x, 4)` on retrieval scores are not modelled. All values are exact reals. `top_drivers` therefore compares unrounded ratios with 0.25 and 0.35.
- IEEE floating point (NaN, overflow, inexact division) is not modelled. The NaN of a single-event variance is modelled as the 0.0 the code substitutes.
- Date-time parsing: `pd.to_datetime(..., errors="coerce")` is a foreign library call. A column cell is `Option<int>`, None for a null or unparsable value.
- The DataFrame copy and `reset_index` have no observable effect on the values modelled.
- Calendar: the epoch is a Monday midnight with no time zones or leap seconds, so hour and weekday are plain integer arithmetic.
- TF-IDF: `TfidfVectorizer`, the stop-word list, the n-grams and `linear_kernel` are sklearn internals. The similarity vector is an abstract scorer that returns one value per text. sklearn's error on an empty vocabulary is not modelled.
- JSON file reading (`open`, `json.load`) in `load_snippets` is I/O. The model starts from the parsed records. Records that are not objects, and fields of the wrong type, are not modelled.
- Retrieval.TopIndices: the order among tied similarities is left open, because numpy's default `argsort` is not stable.
- Explainability.BuildExplainability: which hour `idxmax` picks among hours with equal counts is left open; the contract only says the hour is not outnumbered.
- Explainability.BuildExplainability: the `None` peak hour for an empty frame, and the `0.0` max gap for an empty gap series, cannot occur after `ensure_ts`. The model always returns a peak hour.
- Presentation.TopDrivers: the `exp.get(key, default)` defaults are not modelled, because a snapshot always has every key. Drivers are returned as `Driver` values. `DriverText` gives each value's f-string text.
- The Streamlit page flow in `ui/app.py` (sidebar, upload, session state, caching, rendering, download) is UI and I/O.
- `parse_csv` and `make_df_from_timestamps` are left out. Their parsing is pandas, and the normalisation they share is `EventLog.EnsureTs`.
- `report/generate.py` (a markdown report writer) and `ui/visualize.py` (matplotlib plots) are output formatting only.
