/**
 * The makeshift string similarity of music.js and the "best fuzzy match"
 * scan that `add`, `remove`, `play` and `dequeue` each run over a list of
 * titles.
 */
module Matching {
  import opened Wrappers
  import opened Strings

  /** A similarity value `count / tokens`, kept as its two integers. */
  datatype Score = Score(count: nat, tokens: nat)

  /**
   * The two thresholds of music.js: `inPlaylistReq` (.75) for matching a
   * query against catalog titles and `similarityReq` (.25) for matching it
   * against web-search results.
   */
  datatype Threshold = InPlaylist | Search

  /**
   * The query's words: the lower-cased query split at single spaces. The
   * source also loops over a list of punctuation characters, but it throws
   * away the result of `replace`, so the words keep their punctuation.
   */
  function Tokens(query: string): seq<string>
  {
    Split(Lower(query), ' ')
  }

  /** How many of `tokens` occur in `hay` (the `forEach` counter). */
  function Matched(tokens: seq<string>, hay: string): (count: nat)
    ensures count <= |tokens|
    ensures count == |tokens| <==> forall k :: 0 <= k < |tokens| ==> Contains(hay, tokens[k])
    decreases |tokens|
  {
    if tokens == [] then 0
    else (if Contains(hay, tokens[0]) then 1 else 0) + Matched(tokens[1..], hay)
  }

  /**
   * `similarity(query, title)`: nothing when either is empty, otherwise the
   * fraction of the query's words that occur in the lower-cased title.
   */
  function Similarity(query: string, title: string): (r: Option<Score>)
    ensures r.Some? <==> query != "" && title != ""
    ensures r.Some? ==> r.value.tokens == |Tokens(query)| >= 1 && r.value.count <= r.value.tokens
  {
    if query != "" && title != "" then
      var tokens := Tokens(query);
      Some(Score(Matched(tokens, Lower(title)), |tokens|))
    else None
  }

  /** A query scores 1 (every word found) against an identical title. */
  lemma SimilarityToItself(query: string)
    requires query != ""
    ensures Similarity(query, query) == Some(Score(|Tokens(query)|, |Tokens(query)|))
  {
    SplitPiecesOccur(Lower(query), ' ');
  }

  /** `s >= .75` or `s >= .25`, exactly: `count / tokens >= 3/4` or `>= 1/4`. */
  predicate Meets(s: Score, th: Threshold)
  {
    match th
    case InPlaylist => 4 * s.count >= 3 * s.tokens
    case Search => 4 * s.count >= s.tokens
  }

  /** `title` scores at or above the threshold against `query`. */
  predicate Qualifies(query: string, title: string, th: Threshold)
  {
    var s := Similarity(query, title);
    s.Some? && Meets(s.value, th)
  }

  /**
   * The numerator of the score. All scores of one scan share the query's
   * word count, so comparing two scores of a scan is comparing these.
   */
  function MatchCount(query: string, title: string): nat
  {
    var s := Similarity(query, title);
    if s.Some? then s.value.count else 0
  }

  /**
   * The scan from position `i` on, with the best index so far and its
   * count: an entry is taken when it meets the threshold and scores
   * strictly more than the current best (which starts at 0).
   */
  function BestFrom(query: string, titles: seq<string>, th: Threshold, i: nat, best: Option<nat>, current: nat): (r: Option<nat>)
    requires i <= |titles|
    requires best.Some? ==> best.value < i
    ensures r.Some? ==> r.value < |titles|
    decreases |titles| - i
  {
    if i == |titles| then best
    else
      var s := Similarity(query, titles[i]);
      if s.Some? && Meets(s.value, th) && s.value.count > current then
        BestFrom(query, titles, th, i + 1, Some(i), s.value.count)
      else
        BestFrom(query, titles, th, i + 1, best, current)
  }

  /** The index the scan over all of `titles` selects, if any. */
  function Best(query: string, titles: seq<string>, th: Threshold): (r: Option<nat>)
    ensures r.Some? ==> r.value < |titles|
  {
    BestFrom(query, titles, th, 0, None, 0)
  }

  /**
   * `i` is the earliest of the highest-scoring titles that meet the
   * threshold.
   */
  ghost predicate IsBest(query: string, titles: seq<string>, th: Threshold, i: int)
  {
    && 0 <= i < |titles|
    && Qualifies(query, titles[i], th)
    && (forall j :: 0 <= j < |titles| && Qualifies(query, titles[j], th) ==>
          MatchCount(query, titles[j]) <= MatchCount(query, titles[i]))
    && (forall j :: 0 <= j < i && Qualifies(query, titles[j], th) ==>
          MatchCount(query, titles[j]) < MatchCount(query, titles[i]))
  }

  /** What the scan knows after looking at the first `i` titles. */
  ghost predicate Leading(query: string, titles: seq<string>, th: Threshold, i: nat, best: Option<nat>, current: nat)
    requires i <= |titles|
  {
    match best
    case None =>
      current == 0 && forall j :: 0 <= j < i ==> !Qualifies(query, titles[j], th)
    case Some(b) =>
      && b < i
      && Qualifies(query, titles[b], th)
      && MatchCount(query, titles[b]) == current
      && (forall j :: 0 <= j < i && Qualifies(query, titles[j], th) ==> MatchCount(query, titles[j]) <= current)
      && (forall j :: 0 <= j < b && Qualifies(query, titles[j], th) ==> MatchCount(query, titles[j]) < current)
  }

  /** A title that meets a threshold has at least one matching word. */
  lemma QualifiedCountsPositive(query: string, title: string, th: Threshold)
    requires Qualifies(query, title, th)
    ensures MatchCount(query, title) >= 1
  {
  }

  /** Taking position `i` as the new best keeps `Leading` true one step on. */
  lemma LeadingTake(query: string, titles: seq<string>, th: Threshold, i: nat, best: Option<nat>, current: nat)
    requires i < |titles|
    requires Leading(query, titles, th, i, best, current)
    requires Qualifies(query, titles[i], th) && MatchCount(query, titles[i]) > current
    ensures Leading(query, titles, th, i + 1, Some(i), MatchCount(query, titles[i]))
  {
  }

  /** Passing over position `i` keeps `Leading` true one step on. */
  lemma LeadingPass(query: string, titles: seq<string>, th: Threshold, i: nat, best: Option<nat>, current: nat)
    requires i < |titles|
    requires Leading(query, titles, th, i, best, current)
    requires !(Qualifies(query, titles[i], th) && MatchCount(query, titles[i]) > current)
    ensures Leading(query, titles, th, i + 1, best, current)
  {
    if Qualifies(query, titles[i], th) {
      QualifiedCountsPositive(query, titles[i], th);
    }
  }

  /** One step of the scan, in terms of `Qualifies` and `MatchCount`. */
  lemma BestFromStep(query: string, titles: seq<string>, th: Threshold, i: nat, best: Option<nat>, current: nat)
    requires i < |titles|
    requires best.Some? ==> best.value < i
    ensures BestFrom(query, titles, th, i, best, current) ==
      if Qualifies(query, titles[i], th) && MatchCount(query, titles[i]) > current
      then BestFrom(query, titles, th, i + 1, Some(i), MatchCount(query, titles[i]))
      else BestFrom(query, titles, th, i + 1, best, current)
  {
  }

  /** At the end of the scan, `Leading` says the scan's answer is right. */
  lemma LeadingAtEnd(query: string, titles: seq<string>, th: Threshold, best: Option<nat>, current: nat)
    requires Leading(query, titles, th, |titles|, best, current)
    ensures Answers(query, titles, th, best)
  {
  }

  /** `r` is a correct answer of the scan: the best position, or none when no title qualifies. */
  ghost predicate Answers(query: string, titles: seq<string>, th: Threshold, r: Option<nat>)
  {
    && (r.Some? ==> IsBest(query, titles, th, r.value))
    && (r.None? ==> forall j :: 0 <= j < |titles| ==> !Qualifies(query, titles[j], th))
  }

  lemma {:induction false} BestFromSelects(query: string, titles: seq<string>, th: Threshold, i: nat, best: Option<nat>, current: nat)
    requires i <= |titles|
    requires best.Some? ==> best.value < i
    requires Leading(query, titles, th, i, best, current)
    ensures Answers(query, titles, th, BestFrom(query, titles, th, i, best, current))
    decreases |titles| - i, 1
  {
    if i == |titles| {
      LeadingAtEnd(query, titles, th, best, current);
    } else if Qualifies(query, titles[i], th) && MatchCount(query, titles[i]) > current {
      BestFromSelectsTaking(query, titles, th, i, best, current);
    } else {
      BestFromSelectsPassing(query, titles, th, i, best, current);
    }
  }

  lemma {:induction false} BestFromSelectsTaking(query: string, titles: seq<string>, th: Threshold, i: nat, best: Option<nat>, current: nat)
    requires i < |titles|
    requires best.Some? ==> best.value < i
    requires Leading(query, titles, th, i, best, current)
    requires Qualifies(query, titles[i], th) && MatchCount(query, titles[i]) > current
    ensures Answers(query, titles, th, BestFrom(query, titles, th, i, best, current))
    decreases |titles| - i, 0
  {
    BestFromStep(query, titles, th, i, best, current);
    LeadingTake(query, titles, th, i, best, current);
    BestFromSelects(query, titles, th, i + 1, Some(i), MatchCount(query, titles[i]));
  }

  lemma {:induction false} BestFromSelectsPassing(query: string, titles: seq<string>, th: Threshold, i: nat, best: Option<nat>, current: nat)
    requires i < |titles|
    requires best.Some? ==> best.value < i
    requires Leading(query, titles, th, i, best, current)
    requires !(Qualifies(query, titles[i], th) && MatchCount(query, titles[i]) > current)
    ensures Answers(query, titles, th, BestFrom(query, titles, th, i, best, current))
    decreases |titles| - i, 0
  {
    BestFromStep(query, titles, th, i, best, current);
    LeadingPass(query, titles, th, i, best, current);
    BestFromSelects(query, titles, th, i + 1, best, current);
  }

  /** Two earliest-highest positions cannot differ: the earlier would outscore the later. */
  lemma BestNotBefore(query: string, titles: seq<string>, th: Threshold, i: int, k: int)
    requires IsBest(query, titles, th, i) && IsBest(query, titles, th, k)
    ensures !(i < k)
  {
  }

  /**
   * The scan selects exactly the earliest highest-scoring title that meets
   * the threshold, and selects nothing exactly when no title meets it.
   */
  lemma BestIsEarliestHighest(query: string, titles: seq<string>, th: Threshold)
    ensures forall i :: Best(query, titles, th) == Some(i) <==> IsBest(query, titles, th, i)
    ensures Best(query, titles, th) == None <==> forall j :: 0 <= j < |titles| ==> !Qualifies(query, titles[j], th)
  {
    BestFromSelects(query, titles, th, 0, None, 0);
    forall i, k | IsBest(query, titles, th, i) && IsBest(query, titles, th, k)
      ensures i == k
    {
      BestNotBefore(query, titles, th, i, k);
      BestNotBefore(query, titles, th, k, i);
    }
  }

  /**
   * A title identical to the query scores 1, so the catalog scan selects a
   * title that scores 1, at that position or earlier.
   */
  lemma ExactTitleWins(query: string, titles: seq<string>, k: nat)
    requires query != "" && k < |titles| && titles[k] == query
    ensures Best(query, titles, InPlaylist).Some?
    ensures Best(query, titles, InPlaylist).value <= k
    ensures MatchCount(query, titles[Best(query, titles, InPlaylist).value]) == |Tokens(query)|
  {
    SimilarityToItself(query);
    assert Qualifies(query, titles[k], InPlaylist);
    BestIsEarliestHighest(query, titles, InPlaylist);
    var b := Best(query, titles, InPlaylist).value;
    assert IsBest(query, titles, InPlaylist, b);
  }

  /**
   * The scanning loop of music.js: keep the index of the first title that
   * meets the threshold and beats every earlier candidate.
   */
  method BestMatch(query: string, titles: seq<string>, th: Threshold) returns (index: Option<nat>)
    ensures index == Best(query, titles, th)
    ensures index.Some? ==> IsBest(query, titles, th, index.value)
    ensures index.None? <==> forall j :: 0 <= j < |titles| ==> !Qualifies(query, titles[j], th)
  {
    index := None;
    var current := 0;
    for i := 0 to |titles|
      invariant index.Some? ==> index.value < i
      invariant BestFrom(query, titles, th, i, index, current) == Best(query, titles, th)
    {
      var s := Similarity(query, titles[i]);
      if s.Some? && Meets(s.value, th) && s.value.count > current {
        index := Some(i);
        current := s.value.count;
      }
    }
    BestIsEarliestHighest(query, titles, th);
  }
}
