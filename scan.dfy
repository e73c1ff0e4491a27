/**
 * The two regular-expression shapes the feed parsers use, as explicit string searches.
 *
 * `open[\s\S]*?close` (with `open`, `close` literal) matches at index i exactly when `open`
 * occurs at i and `close` occurs somewhere after it; the lazy `*?` then stops at the FIRST
 * such `close`. A search from index `from` returns the leftmost i >= from that matches.
 * `String.prototype.match` with the `g` flag repeats that search, resuming right after each
 * match; without `g` it returns the first match and its capture group.
 */
module Scan {
  import opened Options
  import opened Text

  /** `pat` occurs in `s` starting at index `i`. */
  predicate OccursAt(s: string, pat: string, i: int)
  {
    0 <= i && i + |pat| <= |s| && s[i..i + |pat|] == pat
  }

  /** `s.indexOf(pat, from)`: the first index at or after `from` where `pat` occurs. */
  function Find(s: string, pat: string, from: nat): (r: Option<nat>)
    ensures r.Some? ==> from <= r.value && OccursAt(s, pat, r.value)
    ensures r.Some? ==> forall k :: from <= k < r.value ==> !OccursAt(s, pat, k)
    ensures r.None? ==> forall k :: from <= k ==> !OccursAt(s, pat, k)
    decreases |s| - from
  {
    if from + |pat| > |s| then None
    else if s[from..from + |pat|] == pat then Some(from)
    else Find(s, pat, from + 1)
  }

  /** The pattern `open[\s\S]*?close` can match starting at index `i`. */
  ghost predicate MatchStartsAt(s: string, open: string, close: string, i: int)
  {
    OccursAt(s, open, i) && exists j :: i + |open| <= j && OccursAt(s, close, j)
  }

  /** Starting at `i`, the lazy pattern stops at the `close` found at `j`: the first one
      after the opener. */
  predicate LazyMatch(s: string, open: string, close: string, i: int, j: int)
  {
    && OccursAt(s, open, i)
    && i + |open| <= j
    && OccursAt(s, close, j)
    && forall k :: i + |open| <= k < j ==> !OccursAt(s, close, k)
  }

  /** `(i, j)` is the match a regex search from `from` reports: the leftmost start, lazily
      extended. */
  ghost predicate LeftmostMatch(s: string, open: string, close: string, from: int, i: int, j: int)
  {
    && from <= i
    && LazyMatch(s, open, close, i, j)
    && forall i' :: from <= i' < i ==> !MatchStartsAt(s, open, close, i')
  }

  /** A match: the opener starts at `start`, the closer at `closeAt`. */
  datatype Span = Span(start: nat, closeAt: nat)

  /** One regex search from `from`, done as two `indexOf` calls. */
  function NextMatch(s: string, open: string, close: string, from: nat): (r: Option<Span>)
    ensures r.Some? ==> LeftmostMatch(s, open, close, from, r.value.start, r.value.closeAt)
    ensures r.None? ==> forall i :: from <= i ==> !MatchStartsAt(s, open, close, i)
  {
    match Find(s, open, from)
    case None => None
    case Some(i) =>
      match Find(s, close, i + |open|)
      case None => None
      case Some(j) => Some(Span(i, j))
  }

  /** The leftmost match starts at the first opener: no earlier opener exists at all, with
      or without a closer after it. */
  lemma LeftmostIsFirstOpener(s: string, open: string, close: string, from: int, i: int, j: int)
    requires LeftmostMatch(s, open, close, from, i, j)
    ensures forall i' :: from <= i' < i ==> !OccursAt(s, open, i')
  {
    forall i' | from <= i' < i
      ensures !OccursAt(s, open, i')
    {
      if OccursAt(s, open, i') {
        assert i' + |open| <= j && OccursAt(s, close, j);
        assert MatchStartsAt(s, open, close, i');
      }
    }
  }

  /** `spans` is exactly what a global search from `from` reports: each span is the
      leftmost match from where the previous one ended, and nothing matches after the
      last one. */
  ghost predicate GlobalMatches(s: string, open: string, close: string, from: int, spans: seq<Span>)
    decreases |spans|
  {
    if spans == [] then
      forall i :: from <= i ==> !MatchStartsAt(s, open, close, i)
    else
      && LeftmostMatch(s, open, close, from, spans[0].start, spans[0].closeAt)
      && GlobalMatches(s, open, close, spans[0].closeAt + |close|, spans[1..])
  }

  /** The matches of `s.match(/open[\s\S]*?close/g)`, scanning from `from`. */
  function MatchSpans(s: string, open: string, close: string, from: nat): (r: seq<Span>)
    requires |close| > 0
    ensures forall k :: 0 <= k < |r| ==>
      from <= r[k].start && r[k].closeAt + |close| <= |s| && LazyMatch(s, open, close, r[k].start, r[k].closeAt)
    decreases |s| - from
  {
    match NextMatch(s, open, close, from)
    case None => []
    case Some(m) => [m] + MatchSpans(s, open, close, m.closeAt + |close|)
  }

  /** The index-based scan reports exactly the matches of the global regex search. */
  lemma {:induction false} MatchSpansAreGlobalMatches(s: string, open: string, close: string, from: nat)
    requires |close| > 0
    ensures GlobalMatches(s, open, close, from, MatchSpans(s, open, close, from))
    decreases |s| - from
  {
    var r := MatchSpans(s, open, close, from);
    if r != [] {
      var next := r[0].closeAt + |close|;
      MatchSpansAreGlobalMatches(s, open, close, next);
      assert r[1..] == MatchSpans(s, open, close, next);
    }
  }

  /** Each span, closer included, ends before the next one starts. */
  predicate Disjoint(spans: seq<Span>, closeLen: nat)
  {
    forall k, k' :: 0 <= k < k' < |spans| ==> spans[k].closeAt + closeLen <= spans[k'].start
  }

  /** Matches are disjoint and in document order. */
  lemma {:induction false} SpansOrdered(s: string, open: string, close: string, from: nat)
    requires |close| > 0
    ensures Disjoint(MatchSpans(s, open, close, from), |close|)
    decreases |s| - from
  {
    var r := MatchSpans(s, open, close, from);
    if r != [] {
      var next := r[0].closeAt + |close|;
      var rest := MatchSpans(s, open, close, next);
      assert r == [r[0]] + rest;
      SpansOrdered(s, open, close, next);
      assert Disjoint(rest, |close|);
      forall k, k' | 0 <= k < k' < |r|
        ensures r[k].closeAt + |close| <= r[k'].start
      {
        assert r[k'] == rest[k' - 1];
        if k > 0 {
          assert r[k] == rest[k - 1];
        } else {
          assert next <= rest[k' - 1].start;
        }
      }
    }
  }

  /** The texts of the matches: `s.match(/open[\s\S]*?close/g) || []`. */
  function MatchAll(s: string, open: string, close: string): (r: seq<string>)
    requires |close| > 0
    ensures |r| == |MatchSpans(s, open, close, 0)|
    ensures forall k :: 0 <= k < |r| ==> HasPrefix(r[k], open) && HasSuffix(r[k], close)
  {
    var spans := MatchSpans(s, open, close, 0);
    SpanTexts(s, open, close, spans);
    seq(|spans|, k requires 0 <= k < |spans| => s[spans[k].start..spans[k].closeAt + |close|])
  }

  /** The text of every lazy match starts with the opener and ends with the closer. */
  lemma SpanTexts(s: string, open: string, close: string, spans: seq<Span>)
    requires forall k :: 0 <= k < |spans| ==>
      spans[k].closeAt + |close| <= |s| && LazyMatch(s, open, close, spans[k].start, spans[k].closeAt)
    ensures forall k :: 0 <= k < |spans| ==>
      && spans[k].start <= spans[k].closeAt + |close| <= |s|
      && var m := s[spans[k].start..spans[k].closeAt + |close|];
        HasPrefix(m, open) && HasSuffix(m, close)
  {
    forall k | 0 <= k < |spans|
      ensures && spans[k].start <= spans[k].closeAt + |close| <= |s|
        && var m := s[spans[k].start..spans[k].closeAt + |close|];
          HasPrefix(m, open) && HasSuffix(m, close)
    {
      MatchText(s, open, close, spans[k].start, spans[k].closeAt);
    }
  }

  /** The text of a lazy match starts with the opener, ends with the closer, and holds no
      other closer that starts after the opener. */
  lemma MatchText(s: string, open: string, close: string, i: int, j: int)
    requires LazyMatch(s, open, close, i, j)
    ensures var m := s[i..j + |close|];
      && HasPrefix(m, open) && HasSuffix(m, close)
      && forall t :: |open| <= t && OccursAt(m, close, t) ==> t == j - i
  {
    var m := s[i..j + |close|];
    assert m[..|open|] == s[i..i + |open|];
    assert m[|m| - |close|..] == s[j..j + |close|];
    forall t | |open| <= t && OccursAt(m, close, t)
      ensures t == j - i
    {
      assert i + t + |close| <= |s|;
      forall q | 0 <= q < |close|
        ensures s[i + t..i + t + |close|][q] == close[q]
      {
        assert m[t..t + |close|][q] == m[t + q] == s[i + t + q];
      }
      assert OccursAt(s, close, i + t);
    }
  }

  /** The first capture group of `s.match(/open([\s\S]*?)close/)`, or None when there is no
      match. */
  function Capture(s: string, open: string, close: string): (r: Option<string>)
    ensures r.None? <==> forall i :: 0 <= i ==> !MatchStartsAt(s, open, close, i)
  {
    match NextMatch(s, open, close, 0)
    case None => None
    case Some(m) =>
      assert OccursAt(s, close, m.closeAt);
      assert MatchStartsAt(s, open, close, m.start);
      Some(s[m.start + |open|..m.closeAt])
  }

  /** The captured text lies between the first opener in `s` and the first closer after
      that opener. */
  lemma CaptureBetweenFirstOpenerAndCloser(s: string, open: string, close: string) returns (i: nat, j: nat)
    requires Capture(s, open, close).Some?
    ensures LazyMatch(s, open, close, i, j)
    ensures Capture(s, open, close).value == s[i + |open|..j]
    ensures forall k :: 0 <= k < i ==> !OccursAt(s, open, k)
  {
    var m := NextMatch(s, open, close, 0).value;
    i, j := m.start, m.closeAt;
    LeftmostIsFirstOpener(s, open, close, 0, i, j);
  }
}
