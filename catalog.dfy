/**
 * The song catalog of music.js: the `playlist` object with its two parallel
 * arrays, `titles` and `urls`, and the pruning loop of `update`.
 */
module Catalog {

  datatype Playlist = Playlist(titles: seq<string>, urls: seq<string>) {

    /** Every title has its url at the same position. */
    predicate Parallel()
    {
      |titles| == |urls|
    }

    /** `titles.push(t); urls.push(u)`. */
    function Append(t: string, u: string): Playlist
    {
      Playlist(titles + [t], urls + [u])
    }

    /** `titles.splice(k, 1); urls.splice(k, 1)`. */
    function Delete(k: nat): Playlist
      requires k < |titles| && k < |urls|
    {
      Playlist(titles[..k] + titles[k + 1..], urls[..k] + urls[k + 1..])
    }
  }

  /** An entry the source treats as missing: an empty (falsy) title or url. */
  predicate IsBad(title: string, url: string)
  {
    title == "" || url == ""
  }

  /** The entries of a playlist as (title, url) pairs. */
  function Entries(p: Playlist): seq<(string, string)>
    requires p.Parallel()
  {
    seq(|p.titles|, i requires 0 <= i < |p.titles| => (p.titles[i], p.urls[i]))
  }

  /** The entries that are not missing, in order. */
  function GoodEntries(e: seq<(string, string)>): seq<(string, string)>
    decreases |e|
  {
    if e == [] then []
    else (if IsBad(e[0].0, e[0].1) then [] else [e[0]]) + GoodEntries(e[1..])
  }

  /** No entry is missing. */
  predicate Clean(p: Playlist)
    requires p.Parallel()
  {
    forall i :: 0 <= i < |p.titles| ==> !IsBad(p.titles[i], p.urls[i])
  }

  /** No two missing entries are next to each other. */
  predicate NoAdjacentBad(p: Playlist)
    requires p.Parallel()
  {
    forall i :: 0 <= i < |p.titles| - 1 ==> !(IsBad(p.titles[i], p.urls[i]) && IsBad(p.titles[i + 1], p.urls[i + 1]))
  }

  function Cons(t: string, u: string, p: Playlist): Playlist
  {
    Playlist([t] + p.titles, [u] + p.urls)
  }

  function Drop(p: Playlist, k: nat): Playlist
    requires k <= |p.titles| && k <= |p.urls|
  {
    Playlist(p.titles[k..], p.urls[k..])
  }

  /**
   * The `for` loop of `update` from position `i` on: a missing entry is
   * spliced out of both arrays and `i` still advances, so the entry that
   * moved into position `i` is never looked at.
   */
  function PruneLoop(p: Playlist, i: nat): (r: Playlist)
    requires p.Parallel()
    ensures r.Parallel() && |r.titles| <= |p.titles|
    ensures var m := if i <= |p.titles| then i else |p.titles|;
      |r.titles| >= m && r.titles[..m] == p.titles[..m] && r.urls[..m] == p.urls[..m]
    decreases |p.titles| - i
  {
    if i >= |p.titles| then p
    else if IsBad(p.titles[i], p.urls[i]) then
      var q := p.Delete(i);
      var r := PruneLoop(q, i + 1);
      var m := if i + 1 <= |q.titles| then i + 1 else |q.titles|;
      assert r.titles[..i] == r.titles[..m][..i] && q.titles[..i] == q.titles[..m][..i];
      assert r.urls[..i] == r.urls[..m][..i] && q.urls[..i] == q.urls[..m][..i];
      assert q.titles[..i] == p.titles[..i] && q.urls[..i] == p.urls[..i];
      r
    else PruneLoop(p, i + 1)
  }

  /**
   * What `update`'s loop does, read from the front: a missing entry is
   * dropped and the entry right after it is kept unexamined.
   */
  function Pruned(p: Playlist): (r: Playlist)
    requires p.Parallel()
    ensures r.Parallel() && |r.titles| <= |p.titles|
    decreases |p.titles|
  {
    if |p.titles| == 0 then p
    else if IsBad(p.titles[0], p.urls[0]) then
      if |p.titles| == 1 then Playlist([], [])
      else Cons(p.titles[1], p.urls[1], Pruned(Drop(p, 2)))
    else Cons(p.titles[0], p.urls[0], Pruned(Drop(p, 1)))
  }

  /** The loop, run from position `i`, keeps the first `i` entries and prunes the rest. */
  lemma {:induction false} PruneLoopIsPruned(p: Playlist, i: nat)
    requires p.Parallel() && i <= |p.titles|
    ensures PruneLoop(p, i) == Playlist(p.titles[..i] + Pruned(Drop(p, i)).titles, p.urls[..i] + Pruned(Drop(p, i)).urls)
    decreases |p.titles| - i, 2
  {
    var d := Drop(p, i);
    if i == |p.titles| {
      assert p.titles[..i] == p.titles && p.urls[..i] == p.urls;
      assert Pruned(d) == d;
    } else if IsBad(p.titles[i], p.urls[i]) {
      PruneLoopSkips(p, i);
    } else {
      PruneLoopKeeps(p, i);
    }
  }

  lemma {:induction false} PruneLoopSkips(p: Playlist, i: nat)
    requires p.Parallel() && i < |p.titles| && IsBad(p.titles[i], p.urls[i])
    ensures PruneLoop(p, i) == Playlist(p.titles[..i] + Pruned(Drop(p, i)).titles, p.urls[..i] + Pruned(Drop(p, i)).urls)
    decreases |p.titles| - i, 1
  {
    if i + 1 == |p.titles| {
      PruneLoopSkipsLast(p, i);
    } else {
      PruneLoopSkipsInside(p, i);
    }
  }

  lemma PruneLoopSkipsLast(p: Playlist, i: nat)
    requires p.Parallel() && i + 1 == |p.titles| && IsBad(p.titles[i], p.urls[i])
    ensures PruneLoop(p, i) == Playlist(p.titles[..i] + Pruned(Drop(p, i)).titles, p.urls[..i] + Pruned(Drop(p, i)).urls)
  {
    var q := p.Delete(i);
    assert PruneLoop(p, i) == PruneLoop(q, i + 1) == q;
    assert |Drop(p, i).titles| == 1;
    assert Pruned(Drop(p, i)) == Playlist([], []);
    assert q.titles == p.titles[..i] && q.urls == p.urls[..i];
  }

  lemma {:induction false} PruneLoopSkipsInside(p: Playlist, i: nat)
    requires p.Parallel() && i + 1 < |p.titles| && IsBad(p.titles[i], p.urls[i])
    ensures PruneLoop(p, i) == Playlist(p.titles[..i] + Pruned(Drop(p, i)).titles, p.urls[..i] + Pruned(Drop(p, i)).urls)
    decreases |p.titles| - i, 0
  {
    var d := Drop(p, i);
    var q := p.Delete(i);
    assert PruneLoop(p, i) == PruneLoop(q, i + 1);
    DropAfterDelete(p, i);
    var rest := Pruned(Drop(d, 2));
    assert Pruned(d) == Cons(p.titles[i + 1], p.urls[i + 1], rest);
    PruneLoopIsPruned(q, i + 1);
    SpliceThenPrefix(p.titles, i, rest.titles);
    SpliceThenPrefix(p.urls, i, rest.urls);
  }

  /** After deleting entry `i`, what follows position `i + 1` is what followed `i + 2` before. */
  lemma DropAfterDelete(p: Playlist, i: nat)
    requires p.Parallel() && i + 1 < |p.titles|
    ensures Drop(p.Delete(i), i + 1) == Drop(Drop(p, i), 2)
  {
    assert (p.titles[..i] + p.titles[i + 1..])[i + 1..] == p.titles[i + 2..];
    assert (p.urls[..i] + p.urls[i + 1..])[i + 1..] == p.urls[i + 2..];
  }

  lemma SpliceThenPrefix(a: seq<string>, i: nat, rest: seq<string>)
    requires i + 1 < |a|
    ensures (a[..i] + a[i + 1..])[..i + 1] + rest == a[..i] + ([a[i + 1]] + rest)
  {
    assert (a[..i] + a[i + 1..])[..i + 1] == a[..i] + [a[i + 1]];
  }

  lemma {:induction false} PruneLoopKeeps(p: Playlist, i: nat)
    requires p.Parallel() && i < |p.titles| && !IsBad(p.titles[i], p.urls[i])
    ensures PruneLoop(p, i) == Playlist(p.titles[..i] + Pruned(Drop(p, i)).titles, p.urls[..i] + Pruned(Drop(p, i)).urls)
    decreases |p.titles| - i, 1
  {
    var d := Drop(p, i);
    assert PruneLoop(p, i) == PruneLoop(p, i + 1);
    assert Drop(p, i + 1) == Drop(d, 1);
    var rest := Pruned(Drop(d, 1));
    assert Pruned(d) == Cons(p.titles[i], p.urls[i], rest);
    PruneLoopIsPruned(p, i + 1);
    PrefixThenRest(p.titles, i, rest.titles);
    PrefixThenRest(p.urls, i, rest.urls);
  }

  lemma PrefixThenRest(a: seq<string>, i: nat, rest: seq<string>)
    requires i < |a|
    ensures a[..i + 1] + rest == a[..i] + ([a[i]] + rest)
  {
    assert a[..i + 1] == a[..i] + [a[i]];
  }

  lemma EntriesCons(t: string, u: string, p: Playlist)
    requires p.Parallel()
    ensures Entries(Cons(t, u, p)) == [(t, u)] + Entries(p)
  {
  }

  lemma EntriesDrop(p: Playlist, k: nat)
    requires p.Parallel() && k <= |p.titles|
    ensures Entries(Drop(p, k)) == Entries(p)[k..]
  {
  }

  lemma EntriesAppend(p: Playlist, t: string, u: string)
    requires p.Parallel()
    ensures Entries(p.Append(t, u)) == Entries(p) + [(t, u)]
  {
  }

  /**
   * Pruning drops only missing entries: the entries that are not missing
   * come out all there and in their order, and every entry of the result
   * was an entry before.
   */
  lemma {:induction false} PrunedKeepsGood(p: Playlist)
    requires p.Parallel()
    ensures GoodEntries(Entries(Pruned(p))) == GoodEntries(Entries(p))
    ensures multiset(Entries(Pruned(p))) <= multiset(Entries(p))
    decreases |p.titles|, 1
  {
    var e := Entries(p);
    if |p.titles| == 1 && IsBad(p.titles[0], p.urls[0]) {
      assert e == [e[0]] + [];
      GoodEntriesCons(e[0], []);
    } else if |p.titles| > 1 && IsBad(p.titles[0], p.urls[0]) {
      PrunedKeepsGoodSkipping(p);
    } else if |p.titles| > 0 {
      PrunedKeepsGoodKeeping(p);
    }
  }

  lemma GoodEntriesCons(x: (string, string), e: seq<(string, string)>)
    ensures GoodEntries([x] + e) == (if IsBad(x.0, x.1) then [] else [x]) + GoodEntries(e)
  {
    assert ([x] + e)[1..] == e;
  }

  lemma {:induction false} PrunedKeepsGoodSkipping(p: Playlist)
    requires p.Parallel() && |p.titles| > 1 && IsBad(p.titles[0], p.urls[0])
    ensures GoodEntries(Entries(Pruned(p))) == GoodEntries(Entries(p))
    ensures multiset(Entries(Pruned(p))) <= multiset(Entries(p))
    decreases |p.titles|, 0
  {
    var e := Entries(p);
    var rest := Pruned(Drop(p, 2));
    PrunedKeepsGood(Drop(p, 2));
    EntriesCons(p.titles[1], p.urls[1], rest);
    EntriesDrop(p, 2);
    assert e == [e[0]] + ([e[1]] + e[2..]);
    GoodEntriesCons(e[0], [e[1]] + e[2..]);
    GoodEntriesCons(e[1], e[2..]);
    GoodEntriesCons(e[1], Entries(rest));
    assert Pruned(p) == Cons(p.titles[1], p.urls[1], rest);
  }

  lemma {:induction false} PrunedKeepsGoodKeeping(p: Playlist)
    requires p.Parallel() && |p.titles| > 0 && !IsBad(p.titles[0], p.urls[0])
    ensures GoodEntries(Entries(Pruned(p))) == GoodEntries(Entries(p))
    ensures multiset(Entries(Pruned(p))) <= multiset(Entries(p))
    decreases |p.titles|, 0
  {
    var e := Entries(p);
    var rest := Pruned(Drop(p, 1));
    PrunedKeepsGood(Drop(p, 1));
    EntriesCons(p.titles[0], p.urls[0], rest);
    EntriesDrop(p, 1);
    assert e == [e[0]] + e[1..];
    GoodEntriesCons(e[0], e[1..]);
    GoodEntriesCons(e[0], Entries(rest));
    assert Pruned(p) == Cons(p.titles[0], p.urls[0], rest);
  }

  /** A catalog without missing entries is left as it is. */
  lemma {:induction false} PrunedClean(p: Playlist)
    requires p.Parallel() && Clean(p)
    ensures Pruned(p) == p
    decreases |p.titles|
  {
    if |p.titles| > 0 {
      var rest := Drop(p, 1);
      assert Clean(rest) by {
        forall i | 0 <= i < |rest.titles|
          ensures !IsBad(rest.titles[i], rest.urls[i])
        {
          assert rest.titles[i] == p.titles[i + 1] && rest.urls[i] == p.urls[i + 1];
        }
      }
      PrunedClean(rest);
      assert !IsBad(p.titles[0], p.urls[0]);
      assert Pruned(p) == Cons(p.titles[0], p.urls[0], rest);
      assert p.titles == [p.titles[0]] + p.titles[1..];
      assert p.urls == [p.urls[0]] + p.urls[1..];
    }
  }

  /** When no two missing entries are adjacent, pruning removes all of them. */
  lemma {:induction false} PrunedIsolatedIsClean(p: Playlist)
    requires p.Parallel() && NoAdjacentBad(p)
    ensures Clean(Pruned(p))
    decreases |p.titles|
  {
    if |p.titles| > 0 {
      if IsBad(p.titles[0], p.urls[0]) {
        if |p.titles| > 1 {
          assert !IsBad(p.titles[1], p.urls[1]);
          PrunedIsolatedIsClean(Drop(p, 2));
        }
      } else {
        PrunedIsolatedIsClean(Drop(p, 1));
      }
    }
  }

  /**
   * Two adjacent missing entries: the loop removes the first and never
   * examines the second, so a missing entry survives `update`.
   */
  lemma AdjacentBadSurvives()
    ensures var p := Playlist(["", "", "Song"], ["u1", "u2", "u3"]);
      Pruned(p) == Playlist(["", "Song"], ["u2", "u3"]) && !Clean(Pruned(p))
  {
    var p := Playlist(["", "", "Song"], ["u1", "u2", "u3"]);
    assert Drop(p, 2) == Playlist(["Song"], ["u3"]);
    assert Drop(Drop(p, 2), 1) == Playlist([], []);
    assert Pruned(p).titles[0] == "";
  }

  /**
   * Removing, by its position, the entry just appended to a clean catalog
   * gives the catalog back.
   */
  lemma AppendThenDelete(p: Playlist, t: string, u: string)
    requires p.Parallel() && Clean(p) && !IsBad(t, u)
    ensures var added := Pruned(p.Append(t, u));
      |added.titles| == |p.titles| + 1 && Pruned(added.Delete(|p.titles|)) == p
  {
    var q := p.Append(t, u);
    assert Clean(q);
    PrunedClean(q);
    assert q.Delete(|p.titles|) == p;
    PrunedClean(p);
  }
}
