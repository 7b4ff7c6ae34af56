/**
 * The event log: timestamps as seconds, their calendar fields, and the
 * normalisation every analysis starts with (ensure_ts in
 * analysis/advanced_patterns.py).
 */
module EventLog {
  import opened Wrappers

  const SecondsPerHour: int := 3600
  const SecondsPerDay: int := 86400

  /** Hour of day (0..23) of an instant given in seconds from a Monday-midnight epoch. */
  function Hour(t: int): int
  {
    (t / SecondsPerHour) % 24
  }

  /** Day of the week of an instant, 0 for Monday up to 6 for Sunday. */
  function Weekday(t: int): int
  {
    (t / SecondsPerDay) % 7
  }

  /** Saturday or Sunday. */
  predicate IsWeekend(t: int)
  {
    Weekday(t) >= 5
  }

  predicate Sorted(s: seq<int>)
  {
    forall i, j :: 0 <= i < j < |s| ==> s[i] <= s[j]
  }

  /** A canonical event log: non-empty and in ascending time order. */
  predicate IsLog(s: seq<int>)
  {
    |s| > 0 && Sorted(s)
  }

  /**
   * The input frame, reduced to what normalisation looks at: the optional
   * `ts` column and the optional `timestamp` column. A cell is None when it
   * is null or did not parse as a date-time.
   */
  datatype Table = Table(ts: Option<seq<Option<int>>>, timestamp: Option<seq<Option<int>>>)

  const MissingColumnMessage: string := "DataFrame must contain a 'ts' datetime column or a 'timestamp' column."
  const NoValidMessage: string := "No valid timestamps after parsing."

  /** The valid cells of a column, in column order (dropna). */
  function Present(col: seq<Option<int>>): (r: seq<int>)
    ensures r == [] <==> forall i :: 0 <= i < |col| ==> col[i].None?
  {
    if col == [] then []
    else
      assert col == [col[0]] + col[1..];
      (if col[0].Some? then [col[0].value] else []) + Present(col[1..])
  }

  /** dropna keeps each valid timestamp as often as the column holds it. */
  lemma {:induction false} PresentCounts(col: seq<Option<int>>)
    ensures forall t :: multiset(Present(col))[t] == multiset(col)[Some(t)]
  {
    if col != [] {
      PresentCounts(col[1..]);
      var head := if col[0].Some? then [col[0].value] else [];
      var rest := Present(col[1..]);
      assert col == [col[0]] + col[1..];
      assert Present(col) == head + rest;
      forall t
        ensures multiset(Present(col))[t] == multiset(col)[Some(t)]
      {
        assert multiset(head + rest)[t] == multiset(head)[t] + multiset(rest)[t];
        assert multiset(col)[Some(t)] == multiset([col[0]])[Some(t)] + multiset(col[1..])[Some(t)];
        assert multiset(head)[t] == multiset([col[0]])[Some(t)];
      }
    }
  }

  function Insert(x: int, s: seq<int>): (r: seq<int>)
    requires Sorted(s)
    ensures Sorted(r)
    ensures |r| > 0 && (r[0] == x || (s != [] && r[0] == s[0]))
  {
    if s == [] || x <= s[0] then
      var r := [x] + s;
      forall i, j | 0 <= i < j < |r|
        ensures r[i] <= r[j]
      {
        if i == 0 {
          assert x <= s[0] <= s[j - 1] == r[j];
        }
      }
      r
    else
      var rest := Insert(x, s[1..]);
      assert s == [s[0]] + s[1..];
      var r := [s[0]] + rest;
      forall i, j | 0 <= i < j < |r|
        ensures r[i] <= r[j]
      {
        if i == 0 {
          assert s[0] <= rest[0] <= rest[j - 1] == r[j];
        }
      }
      r
  }

  /** Insertion adds exactly one copy of x. */
  lemma {:induction false} InsertCounts(x: int, s: seq<int>)
    requires Sorted(s)
    ensures multiset(Insert(x, s)) == multiset(s) + multiset{x}
  {
    if s != [] && x > s[0] {
      InsertCounts(x, s[1..]);
      assert s == [s[0]] + s[1..];
      assert Insert(x, s) == [s[0]] + Insert(x, s[1..]);
    }
  }

  /** Ascending sort (sort_values), as an insertion sort. */
  function SortAsc(s: seq<int>): (r: seq<int>)
    ensures Sorted(r)
    ensures multiset(r) == multiset(s)
  {
    if s == [] then []
    else
      assert s == [s[0]] + s[1..];
      InsertCounts(s[0], SortAsc(s[1..]));
      Insert(s[0], SortAsc(s[1..]))
  }

  /** What normalising the column `col` must produce. */
  ghost predicate NormalizedFrom(r: Result<seq<int>, string>, col: seq<Option<int>>)
  {
    && (r.Err? ==> r.error == NoValidMessage)
    && (r.Err? <==> forall i :: 0 <= i < |col| ==> col[i].None?)
    && (r.Ok? ==> IsLog(r.value) && forall t :: multiset(r.value)[t] == multiset(col)[Some(t)])
  }

  /**
   * ensure_ts: take the `ts` column, or failing that the `timestamp`
   * column; drop invalid cells; sort ascending; reject an empty result.
   */
  function EnsureTs(table: Table): (r: Result<seq<int>, string>)
    ensures r == Err(MissingColumnMessage) <==> table.ts.None? && table.timestamp.None?
    ensures table.ts.Some? ==> NormalizedFrom(r, table.ts.value)
    ensures table.ts.None? && table.timestamp.Some? ==> NormalizedFrom(r, table.timestamp.value)
  {
    if table.ts.None? && table.timestamp.None? then Err(MissingColumnMessage)
    else
      var col := if table.ts.Some? then table.ts.value else table.timestamp.value;
      PresentCounts(col);
      var log := SortAsc(Present(col));
      if log == [] then Err(NoValidMessage) else Ok(log)
  }

  /** A log as a `ts` column of valid cells. */
  function AsColumn(log: seq<int>): (col: seq<Option<int>>)
    ensures |col| == |log|
    ensures forall i :: 0 <= i < |log| ==> col[i] == Some(log[i])
  {
    seq(|log|, i requires 0 <= i < |log| => Some(log[i]))
  }

  lemma {:induction false} PresentAsColumn(log: seq<int>)
    ensures Present(AsColumn(log)) == log
  {
    if log != [] {
      assert AsColumn(log)[1..] == AsColumn(log[1..]);
      PresentAsColumn(log[1..]);
      assert log == [log[0]] + log[1..];
    }
  }

  lemma {:induction false} SortAscOfSorted(s: seq<int>)
    requires Sorted(s)
    ensures SortAsc(s) == s
  {
    if s != [] {
      SortAscOfSorted(s[1..]);
      assert s == [s[0]] + s[1..];
    }
  }

  /**
   * Every analysis function re-runs ensure_ts on its input: on a canonical
   * log that is the identity, so the analyses below may take the log itself.
   */
  lemma EnsureTsFixpoint(log: seq<int>)
    requires IsLog(log)
    ensures EnsureTs(Table(Some(AsColumn(log)), None)) == Ok(log)
  {
    PresentAsColumn(log);
    SortAscOfSorted(log);
  }

  /** Normalising is idempotent: a normalised result normalises to itself. */
  lemma EnsureTsIdempotent(table: Table)
    requires EnsureTs(table).Ok?
    ensures EnsureTs(Table(Some(AsColumn(EnsureTs(table).value)), None)) == EnsureTs(table)
  {
    EnsureTsFixpoint(EnsureTs(table).value);
  }
}
