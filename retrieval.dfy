/**
 * Retrieval post-processing (rag/retrieve.py): defaulting of snippet
 * records, the category filter with its fallback, and the selection of the
 * k most similar snippets. The similarity of the query to each corpus text
 * is an input: the TF-IDF vectorizer is not part of this model.
 */
module Retrieval {
  import opened Wrappers

  /** An advice snippet (the Snippet dataclass). */
  datatype Snippet = Snippet(id: string, category: string, title: string, text: string, tags: seq<string>)

  /** One parsed JSON record; a field is None when its key is absent. */
  datatype Record = Record(
    id: Option<string>,
    category: Option<string>,
    title: Option<string>,
    text: Option<string>,
    tags: Option<seq<string>>)

  /** The KeyError raised for a missing required key. */
  datatype LoadError = KeyError(key: string)

  /**
   * The ValueError linear_kernel raises when there is no snippet to compare
   * the query with (its second argument has no rows).
   */
  datatype RetrieveError = EmptyCorpus

  /** One entry of the result list: the snippet's fields and its similarity. */
  datatype Hit = Hit(id: string, category: string, title: string, text: string, tags: seq<string>, score: real)

  const DefaultCategory: string := "general"
  const DefaultTitle: string := "Suggestion"

  /** dict.get(key, default). */
  function GetOr<T>(o: Option<T>, default: T): T
  {
    if o.Some? then o.value else default
  }

  /** A record has both keys that are read with s[key]. */
  predicate Complete(r: Record)
  {
    r.id.Some? && r.text.Some?
  }

  /** The snippet a complete record becomes: absent optional keys take their defaults. */
  function SnippetOf(r: Record): (s: Snippet)
    requires Complete(r)
    ensures s.id == r.id.value && s.text == r.text.value
    ensures s.category == (if r.category.Some? then r.category.value else "general")
    ensures s.title == (if r.title.Some? then r.title.value else "Suggestion")
    ensures s.tags == (if r.tags.Some? then r.tags.value else [])
  {
    Snippet(r.id.value, GetOr(r.category, DefaultCategory), GetOr(r.title, DefaultTitle),
            r.text.value, GetOr(r.tags, []))
  }

  /** The record that spells out every field of a snippet. */
  function RecordOf(s: Snippet): Record
  {
    Record(Some(s.id), Some(s.category), Some(s.title), Some(s.text), Some(s.tags))
  }

  /** Defaulting leaves a fully specified record as it is. */
  lemma SnippetOfRecordOf(s: Snippet)
    ensures Complete(RecordOf(s)) && SnippetOf(RecordOf(s)) == s
  {
  }

  /**
   * load_snippets after the JSON has been read: every record becomes a
   * snippet in order; the first record without `id` (checked first) or
   * `text` raises KeyError.
   */
  method LoadSnippets(raw: seq<Record>) returns (res: Result<seq<Snippet>, LoadError>)
    ensures res.Ok? <==> forall i :: 0 <= i < |raw| ==> Complete(raw[i])
    ensures res.Ok? ==> |res.value| == |raw|
    ensures res.Ok? ==> forall i :: 0 <= i < |raw| ==> res.value[i] == SnippetOf(raw[i])
    ensures res.Err? ==>
      exists i :: 0 <= i < |raw| && !Complete(raw[i]) &&
                  (forall j :: 0 <= j < i ==> Complete(raw[j])) &&
                  res.error == KeyError(if raw[i].id.None? then "id" else "text")
  {
    var out: seq<Snippet> := [];
    var i := 0;
    while i < |raw|
      invariant 0 <= i <= |raw| && |out| == i
      invariant forall j :: 0 <= j < i ==> Complete(raw[j]) && out[j] == SnippetOf(raw[j])
    {
      var s := raw[i];
      if s.id.None? {
        return Err(KeyError("id"));
      }
      if s.text.None? {
        return Err(KeyError("text"));
      }
      out := out + [Snippet(s.id.value, GetOr(s.category, DefaultCategory), GetOr(s.title, DefaultTitle),
                            s.text.value, GetOr(s.tags, []))];
      i := i + 1;
    }
    return Ok(out);
  }

  // ---------------------------------------------------------------------
  // Category filter

  /** Python truthiness of the optional category: neither None nor "". */
  predicate Truthy(category: Option<string>)
  {
    category.Some? && category.value != ""
  }

  /** [s for s in snippets if s.category == category], in order. */
  function FilterCategory(snippets: seq<Snippet>, category: string): (r: seq<Snippet>)
    ensures |r| <= |snippets|
    ensures forall s :: s in r <==> s in snippets && s.category == category
    ensures forall s :: multiset(r)[s] == if s.category == category then multiset(snippets)[s] else 0
  {
    if snippets == [] then []
    else
      assert snippets == [snippets[0]] + snippets[1..];
      assert multiset(snippets) == multiset{snippets[0]} + multiset(snippets[1..]);
      (if snippets[0].category == category then [snippets[0]] else []) + FilterCategory(snippets[1..], category)
  }

  /**
   * The snippets that are ranked: those of the category when it is truthy
   * and matches at least one snippet, otherwise all of them, unchanged.
   */
  function SearchCorpus(snippets: seq<Snippet>, category: Option<string>): (corpus: seq<Snippet>)
    ensures Truthy(category) && (exists s :: s in snippets && s.category == category.value) ==>
      corpus != [] && forall s :: s in corpus <==> s in snippets && s.category == category.value
    ensures Truthy(category) && (exists s :: s in snippets && s.category == category.value) ==>
      corpus == FilterCategory(snippets, category.value)
    ensures !(Truthy(category) && exists s :: s in snippets && s.category == category.value) ==>
      corpus == snippets
  {
    if Truthy(category) then
      var filtered := FilterCategory(snippets, category.value);
      if filtered != [] then
        assert filtered[0] in filtered;
        filtered
      else snippets
    else snippets
  }

  /** The filter never empties a non-empty corpus. */
  lemma SearchCorpusNonEmpty(snippets: seq<Snippet>, category: Option<string>)
    requires snippets != []
    ensures SearchCorpus(snippets, category) != []
  {
  }

  /** [s.text for s in snippets]. */
  function Texts(snippets: seq<Snippet>): (texts: seq<string>)
    ensures |texts| == |snippets|
    ensures forall i :: 0 <= i < |snippets| ==> texts[i] == snippets[i].text
  {
    seq(|snippets|, i requires 0 <= i < |snippets| => snippets[i].text)
  }

  // ---------------------------------------------------------------------
  // Top-k selection

  /** len(xs[start:]) for a Python list xs of length n. */
  function SliceFromLength(n: nat, start: int): nat
  {
    var from := if start < 0 then (if start + n < 0 then 0 else start + n)
                else (if start > n then n else start);
    n - from
  }

  /** How many indices argsort()[-k:] keeps out of n. */
  function TopCount(n: nat, k: int): (m: nat)
    ensures m <= n
    ensures k >= 1 ==> m == (if k <= n then k else n)
    ensures k == 0 ==> m == n
    ensures k < 0 ==> m == (if n + k >= 0 then n + k else 0)
  {
    SliceFromLength(n, -k)
  }

  /**
   * idx lists m distinct positions of sims, most similar first, and every
   * position left out is no more similar than any position kept.
   */
  ghost predicate IsTopK(sims: seq<real>, m: nat, idx: seq<nat>)
  {
    && |idx| == m
    && (forall j :: 0 <= j < |idx| ==> idx[j] < |sims|)
    && (forall j1, j2 :: 0 <= j1 < j2 < |idx| ==> idx[j1] != idx[j2])
    && (forall j1, j2 :: 0 <= j1 < j2 < |idx| ==> sims[idx[j1]] >= sims[idx[j2]])
    && (forall i, j :: 0 <= i < |sims| && i !in idx && 0 <= j < |idx| ==> sims[i] <= sims[idx[j]])
  }

  /** Fewer than n distinct positions below n leave one of them unchosen. */
  lemma {:induction false} Unchosen(idx: seq<nat>, n: nat)
    requires |idx| < n
    requires forall j :: 0 <= j < |idx| ==> idx[j] < n
    requires forall j1, j2 :: 0 <= j1 < j2 < |idx| ==> idx[j1] != idx[j2]
    ensures exists i :: 0 <= i < n && i !in idx
  {
    if n - 1 in idx {
      var p :| 0 <= p < |idx| && idx[p] == n - 1;
      var smaller := idx[..p] + idx[p + 1..];
      assert forall j :: 0 <= j < |smaller| ==> smaller[j] == idx[if j < p then j else j + 1];
      Unchosen(smaller, n - 1);
      var i :| 0 <= i < n - 1 && i !in smaller;
      forall q | 0 <= q < |idx|
        ensures idx[q] != i
      {
        if q < p {
          assert smaller[q] == idx[q];
        } else if q > p {
          assert smaller[q - 1] == idx[q];
        }
      }
      assert i !in idx;
    }
  }

  /** The unchosen position with the highest similarity. */
  method BestRemaining(sims: seq<real>, idx: seq<nat>, ghost spare: nat) returns (best: nat)
    requires spare < |sims| && spare !in idx
    ensures best < |sims| && best !in idx
    ensures forall i :: 0 <= i < |sims| && i !in idx ==> sims[i] <= sims[best]
  {
    var found := -1;
    var i := 0;
    while i < |sims|
      invariant 0 <= i <= |sims| && -1 <= found < i
      invariant found >= 0 ==> found !in idx
      invariant found >= 0 ==> forall i' :: 0 <= i' < i && i' !in idx ==> sims[i'] <= sims[found]
      invariant found < 0 ==> i <= spare
      invariant found < 0 ==> forall i' :: 0 <= i' < i ==> i' in idx
    {
      if i !in idx && (found < 0 || sims[i] > sims[found]) {
        found := i;
      }
      i := i + 1;
    }
    best := found;
  }

  /**
   * sims.argsort()[-k:][::-1]: the positions of the TopCount(n, k) highest
   * similarities, highest first. Ties are left in no particular order.
   */
  method TopIndices(sims: seq<real>, k: int) returns (idx: seq<nat>)
    ensures IsTopK(sims, TopCount(|sims|, k), idx)
  {
    var m := TopCount(|sims|, k);
    idx := [];
    while |idx| < m
      invariant |idx| <= m
      invariant forall j :: 0 <= j < |idx| ==> idx[j] < |sims|
      invariant forall j1, j2 :: 0 <= j1 < j2 < |idx| ==> idx[j1] != idx[j2]
      invariant forall j1, j2 :: 0 <= j1 < j2 < |idx| ==> sims[idx[j1]] >= sims[idx[j2]]
      invariant forall i, j :: 0 <= i < |sims| && i !in idx && 0 <= j < |idx| ==> sims[i] <= sims[idx[j]]
      decreases m - |idx|
    {
      Unchosen(idx, |sims|);
      ghost var spare :| 0 <= spare < |sims| && spare !in idx;
      var best := BestRemaining(sims, idx, spare);
      idx := idx + [best];
    }
  }

  /** The result entry for a snippet with its similarity. */
  function HitOf(s: Snippet, score: real): Hit
  {
    Hit(s.id, s.category, s.title, s.text, s.tags, score)
  }

  /**
   * retrieve_snippets on loaded snippets: filter by category (falling
   * back to all snippets), score the corpus texts, and return the top
   * entries, most similar first. With no snippets at all the similarity
   * step fails.
   */
  method RetrieveSnippets(snippets: seq<Snippet>, similarity: seq<string> -> seq<real>, k: int,
                          category: Option<string>) returns (res: Result<seq<Hit>, RetrieveError>)
    requires forall texts :: |similarity(texts)| == |texts|
    ensures res.Err? <==> snippets == []
    ensures res.Ok? ==>
      var corpus := SearchCorpus(snippets, category);
      |res.value| == TopCount(|corpus|, k)
    ensures res.Ok? ==>
      var corpus := SearchCorpus(snippets, category);
      var sims := similarity(Texts(corpus));
      exists idx :: IsTopK(sims, |res.value|, idx)
        && forall j :: 0 <= j < |idx| ==> res.value[j] == HitOf(corpus[idx[j]], sims[idx[j]])
    ensures res.Ok? ==> forall j1, j2 :: 0 <= j1 < j2 < |res.value| ==> res.value[j1].score >= res.value[j2].score
  {
    var pool := snippets;
    if category.Some? && category.value != "" {
      var filtered := FilterCategory(snippets, category.value);
      if filtered != [] {
        pool := filtered;
      }
    }
    if pool == [] {
      return Err(EmptyCorpus);
    }
    var sims := similarity(Texts(pool));
    var top := TopIndices(sims, k);
    var results := [];
    var j := 0;
    while j < |top|
      invariant 0 <= j <= |top| && |results| == j
      invariant forall j' :: 0 <= j' < j ==> results[j'] == HitOf(pool[top[j']], sims[top[j']])
    {
      var s := pool[top[j]];
      results := results + [Hit(s.id, s.category, s.title, s.text, s.tags, sims[top[j]])];
      j := j + 1;
    }
    assert IsTopK(sims, |results|, top);
    return Ok(results);
  }
}
