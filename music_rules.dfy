/**
 * The decisions music.js takes on values: how a query is read, which
 * catalog entry or queue position an operation acts on, and how the next
 * song is chosen. The `Music` class in music.dfy is specified by these.
 */
module MusicRules {
  import opened Wrappers
  import opened Strings
  import opened Matching
  import opened Catalog
  import opened Queues

  /** The canonical form `add` and `play` give a YouTube link: this prefix and the video id. */
  const YouTubeWatch := "https://youtube.com/watch?v="

  /** What the SoundCloud resolve call returns for a track. */
  datatype Song = Song(permalink: string, title: string)

  /**
   * How the two providers read a query: a YouTube link with its video id;
   * otherwise the SoundCloud resolve call answers with a track, answers
   * that it is not one, or never answers (a network error).
   */
  datatype Provider = YouTube(videoId: string) | SoundCloud(song: Song) | NotAUrl | NoAnswer

  /** One item of a web-search answer. */
  datatype SearchItem = SearchItem(title: string, link: string, displayLink: string)

  /** An audio stream, identified by the catalog position it was opened for. */
  datatype Stream = Stream(index: int)

  /** `s.indexOf(x)` for an `x` that occurs in `s`. */
  function FirstIndex<T(==)>(s: seq<T>, x: T): (i: nat)
    requires x in s
    ensures i < |s| && s[i] == x && x !in s[..i]
  {
    if s[0] == x then 0 else 1 + FirstIndex(s[1..], x)
  }

  /**
   * `if (q.includes(x)) q.elems.splice(q.elems.indexOf(x), 1)`: drop the
   * first occurrence of `x`, if any.
   */
  function Forget(s: seq<int>, x: int): (r: seq<int>)
    ensures x !in s ==> r == s
    ensures x in s ==> |r| == |s| - 1 && r[..FirstIndex(s, x)] == s[..FirstIndex(s, x)]
  {
    if x in s then s[..FirstIndex(s, x)] + s[FirstIndex(s, x) + 1..] else s
  }

  predicate NoDuplicates(s: seq<int>)
  {
    forall i, j :: 0 <= i < j < |s| ==> s[i] != s[j]
  }

  /** Forgetting drops exactly one occurrence of `x` when there is one and keeps the rest. */
  lemma ForgetDropsOne(s: seq<int>, x: int)
    ensures multiset(Forget(s, x)) == multiset(s) - multiset{x}
    ensures |Forget(s, x)| == if x in s then |s| - 1 else |s|
  {
    if x in s {
      var i := FirstIndex(s, x);
      assert s == s[..i] + [x] + s[i + 1..];
      assert multiset(s) == multiset(s[..i]) + multiset{x} + multiset(s[i + 1..]);
    }
  }

  /** The entries after the forgotten one move down by one place. */
  lemma ForgetAt(s: seq<int>, x: int, a: nat)
    requires x in s && a < |s| - 1
    ensures Forget(s, x)[a] == s[if a < FirstIndex(s, x) then a else a + 1]
  {
    var i := FirstIndex(s, x);
    var front, back := s[..i], s[i + 1..];
    assert Forget(s, x) == front + back;
    if a < i {
      assert (front + back)[a] == front[a];
    } else {
      assert (front + back)[a] == back[a - i];
    }
  }

  /** On a list without repeats, forgetting `x` removes it and keeps the list without repeats. */
  lemma ForgetKeepsNoDuplicates(s: seq<int>, x: int)
    requires NoDuplicates(s)
    ensures NoDuplicates(Forget(s, x)) && x !in Forget(s, x)
  {
    if x in s {
      var i := FirstIndex(s, x);
      var r := Forget(s, x);
      assert |r| == |s| - 1;
      forall a, b | 0 <= a < b < |r|
        ensures r[a] != r[b]
      {
        ForgetAt(s, x, a);
        ForgetAt(s, x, b);
      }
      forall a | 0 <= a < |r|
        ensures r[a] != x
      {
        ForgetAt(s, x, a);
      }
    }
  }

  /**
   * `next`'s queue update: after forgetting `x` and putting it in front,
   * `x` is first, the others keep their order, and a queue without repeats
   * stays without repeats.
   */
  lemma FrontedKeepsOthers(s: seq<int>, x: int)
    requires NoDuplicates(s)
    ensures var r := [x] + Forget(s, x);
      && r[0] == x
      && NoDuplicates(r)
      && multiset(r) == multiset(s) + (if x in s then multiset{} else multiset{x})
  {
    ForgetDropsOne(s, x);
    ForgetKeepsNoDuplicates(s, x);
    var r := [x] + Forget(s, x);
    forall a, b | 0 <= a < b < |r|
      ensures r[a] != r[b]
    {
      if a == 0 {
        assert r[b] in Forget(s, x);
      }
    }
  }

  /** `queue`'s append of an entry not yet queued keeps the queue free of repeats. */
  lemma AppendedKeepsNoDuplicates(s: seq<int>, x: int)
    requires NoDuplicates(s) && x !in s
    ensures NoDuplicates(s + [x])
  {
  }

  /** A tail of a list without repeats has none. */
  lemma TailKeepsNoDuplicates(s: seq<int>)
    requires NoDuplicates(s) && s != []
    ensures NoDuplicates(s[1..])
  {
  }

  /** `playlist.titles[i]`, which is undefined outside the catalog. */
  function TitleAt(p: Playlist, i: int): Option<string>
  {
    if 0 <= i < |p.titles| then Some(p.titles[i]) else None
  }

  /** `playlist.titles[i]` as `join` prints it: undefined prints as nothing. */
  function ListedTitle(p: Playlist, i: int): string
  {
    if 0 <= i < |p.titles| then p.titles[i] else ""
  }

  /** A non-empty string: what `if (this.playing)` accepts. */
  predicate Truthy(s: Option<string>)
  {
    s.Some? && s.value != ""
  }

  /**
   * How `play`, `queue`, `dequeue` and `next` read a query against a
   * catalog of `n` songs: `Number(query) <= n` and non-zero gives the
   * 0-based position; 0 (or an empty or blank query) is falsy; NaN or a
   * number past the end goes elsewhere.
   */
  datatype Position = At(k: nat) | Falsy | Elsewhere

  function ReadPosition(query: string, n: nat): (r: Position)
    ensures r.At? ==> r.k < n
  {
    var v := NumberOf(query);
    if v.Some? && v.value <= n then
      if v.value == 0 then Falsy else At(v.value - 1)
    else Elsewhere
  }

  /**
   * The entry `remove` deletes: a non-zero number names a 1-based position
   * (nothing when past the end); anything else is looked up as an exact
   * url first and then as a title by the catalog scan.
   */
  function RemoveTarget(p: Playlist, query: string): (r: Option<nat>)
    requires p.Parallel()
    ensures r.Some? ==> r.value < |p.titles|
  {
    var v := NumberOf(query);
    if v.Some? && v.value != 0 then
      if v.value - 1 < |p.titles| then Some(v.value - 1) else None
    else if query in p.urls then Some(FirstIndex(p.urls, query))
    else Best(query, p.titles, InPlaylist)
  }

  /** A number names the entry at that 1-based position; past the end it names none. */
  lemma RemoveByPosition(p: Playlist, query: string, n: nat)
    requires p.Parallel() && NumberOf(query) == Some(n) && n != 0
    ensures n <= |p.titles| ==> RemoveTarget(p, query) == Some(n - 1)
    ensures n > |p.titles| ==> RemoveTarget(p, query) == None
  {
  }

  /** The title `remove` deletes when the query is not a number: the first with that exact url, else the best title. */
  lemma RemoveByText(p: Playlist, query: string)
    requires p.Parallel() && (NumberOf(query).None? || NumberOf(query) == Some(0))
    ensures var r := RemoveTarget(p, query);
      && (query in p.urls ==> r.Some? && p.urls[r.value] == query && query !in p.urls[..r.value])
      && (query !in p.urls ==> (r.Some? <==> exists j :: 0 <= j < |p.titles| && Qualifies(query, p.titles[j], InPlaylist)))
      && (query !in p.urls && r.Some? ==> IsBest(query, p.titles, InPlaylist, r.value))
  {
    BestIsEarliestHighest(query, p.titles, InPlaylist);
  }

  /** Which queue entry `dequeue` acts on, or that it throws. */
  datatype DequeuePlan = Slot(k: nat) | NoSlot | Fault

  /**
   * `dequeue`: a number in range names a catalog position; otherwise the
   * catalog scan picks a title and `dequeue` re-enters with its position,
   * except that `if (index)` rejects position 0. When nothing matches a
   * number past the end, it re-enters with a number, which makes
   * `similarity` call `toLowerCase` on a number (or, with no non-empty
   * title, recurse without end): the call throws.
   */
  function DequeueTarget(p: Playlist, query: string): (r: DequeuePlan)
    requires p.Parallel()
    ensures r.Slot? ==> r.k < |p.titles|
  {
    match ReadPosition(query, |p.urls|)
    case At(k) => Slot(k)
    case Falsy => NoSlot
    case Elsewhere =>
      match Best(query, p.titles, InPlaylist)
      case Some(i) => if i != 0 then Slot(i) else NoSlot
      case None => if NumberOf(query).Some? then Fault else NoSlot
  }

  /**
   * A title query that best matches the first catalog entry dequeues
   * nothing, even though that song is queued or not.
   */
  lemma DequeueMissesFirstTitle(p: Playlist, query: string)
    requires p.Parallel() && ReadPosition(query, |p.urls|).Elsewhere?
    requires Best(query, p.titles, InPlaylist) == Some(0)
    ensures DequeueTarget(p, query) == NoSlot
  {
  }

  /** What `play` does with a query, before any network call. */
  datatype PlayTarget = ToEntry(index: nat) | ToRandom | ToAdd | ToNothing

  /**
   * `play(query)`: no query plays a queued or random song if the catalog
   * is non-empty; a number in range plays that entry; otherwise a link
   * already in the catalog, or a title the catalog scan finds, is played
   * by its position, and anything else goes through `add`.
   */
  function PlayTargetOf(p: Playlist, query: string, provider: Provider): (r: PlayTarget)
    requires p.Parallel()
    ensures r.ToEntry? ==> r.index < |p.titles|
  {
    if query == "" then
      if |p.urls| > 0 then ToRandom else ToNothing
    else
      match ReadPosition(query, |p.urls|)
      case At(k) => ToEntry(k)
      case Falsy => ToNothing
      case Elsewhere =>
        match provider
        case YouTube(id) =>
          var url := YouTubeWatch + id;
          if url in p.urls then ToEntry(FirstIndex(p.urls, url)) else ToAdd
        case SoundCloud(song) =>
          if song.permalink in p.urls then ToEntry(FirstIndex(p.urls, song.permalink)) else ToAdd
        case NoAnswer => ToNothing
        case NotAUrl =>
          match Best(query, p.titles, InPlaylist)
          case Some(i) => ToEntry(i)
          case None => ToAdd
  }

  /**
   * `play` of text that is no link plays the best catalog title when one
   * reaches .75, and goes through `add` exactly when none does.
   */
  lemma PlayByTitle(p: Playlist, query: string)
    requires p.Parallel() && query != "" && ReadPosition(query, |p.urls|).Elsewhere?
    ensures var r := PlayTargetOf(p, query, NotAUrl);
      && (r.ToEntry? ==> IsBest(query, p.titles, InPlaylist, r.index))
      && (r == ToAdd <==> forall j :: 0 <= j < |p.titles| ==> !Qualifies(query, p.titles[j], InPlaylist))
      && (r.ToEntry? || r == ToAdd)
  {
    BestIsEarliestHighest(query, p.titles, InPlaylist);
  }

  /** What `add` does, given the providers' and the search engine's answers. */
  datatype AddPlan = Known(title: string) | Appended(title: string, url: string) | Reported(found: Option<string>) | Unanswered

  /**
   * A search result title with the known suffix of its site cut off
   * (sites without a known suffix keep the title as it is).
   */
  function Stripped(item: SearchItem, suffixes: map<string, string>): (t: string)
    ensures t <= item.title
    ensures item.displayLink in suffixes && EndsWith(item.title, suffixes[item.displayLink]) ==>
      t + suffixes[item.displayLink] == item.title
    ensures !(item.displayLink in suffixes && EndsWith(item.title, suffixes[item.displayLink])) ==> t == item.title
  {
    if item.displayLink in suffixes && EndsWith(item.title, suffixes[item.displayLink]) then
      item.title[..|item.title| - |suffixes[item.displayLink]|]
    else item.title
  }

  function StrippedTitles(items: seq<SearchItem>, suffixes: map<string, string>): (ts: seq<string>)
    ensures |ts| == |items|
  {
    seq(|items|, i requires 0 <= i < |items| => Stripped(items[i], suffixes))
  }

  /**
   * `add(query)`: a link already in the catalog gives its title back as
   * existing; a new YouTube link is appended with the fetched title (no
   * answer when the fetch fails); a new SoundCloud track is appended; other
   * text is first matched against the catalog (.75) and then against the
   * search results (.25), whose best title is appended only when it has a
   * link.
   */
  function AddTarget(p: Playlist, query: string, provider: Provider, info: Option<string>,
                     results: Option<seq<SearchItem>>, suffixes: map<string, string>): (r: AddPlan)
    requires p.Parallel()
    ensures r.Known? ==> r.title in p.titles
    ensures r.Appended? && !provider.NotAUrl? ==> r.url !in p.urls
    ensures r.Appended? && provider.NotAUrl? ==> !IsBad(r.title, r.url) && results.Some?
    ensures provider.NoAnswer? ==> r == Unanswered
    ensures provider.NotAUrl? && r.Known? ==> Best(query, p.titles, InPlaylist).Some?
  {
    match provider
    case YouTube(id) =>
      var url := YouTubeWatch + id;
      if url in p.urls then Known(p.titles[FirstIndex(p.urls, url)])
      else if info.Some? then Appended(info.value, url)
      else Unanswered
    case SoundCloud(song) =>
      if song.permalink in p.urls then Known(p.titles[FirstIndex(p.urls, song.permalink)])
      else Appended(song.title, song.permalink)
    case NoAnswer => Unanswered
    case NotAUrl =>
      match Best(query, p.titles, InPlaylist)
      case Some(i) => Known(p.titles[i])
      case None =>
        if results.None? then Unanswered
        else
          var items := results.value;
          var titles := StrippedTitles(items, suffixes);
          match Best(query, titles, Search)
          case None => Reported(None)
          case Some(j) =>
            if !IsBad(titles[j], items[j].link) then Appended(titles[j], items[j].link)
            else Reported(Some(titles[j]))
  }

  /** The first occurrence of `x` is at `j` when `x` is at `j` and nowhere before it. */
  lemma {:induction false} FirstIndexAt<T>(s: seq<T>, x: T, j: nat)
    requires j < |s| && s[j] == x && x !in s[..j]
    ensures x in s && FirstIndex(s, x) == j
  {
    if j > 0 {
      assert s[..j][0] == s[0];
      assert s[1..][..j - 1] == s[..j][1..];
      FirstIndexAt(s[1..], x, j - 1);
    }
  }

  /** Every entry of a catalog carries one of its urls. */
  lemma EntryUrlsIn(p: Playlist)
    requires p.Parallel()
    ensures forall e :: e in Entries(p) ==> e.1 in p.urls
  {
    forall e | e in Entries(p)
      ensures e.1 in p.urls
    {
      var i :| 0 <= i < |Entries(p)| && Entries(p)[i] == e;
      assert p.urls[i] == e.1;
    }
  }

  /**
   * An entry appended to a catalog that did not have its url is, after
   * pruning, the first entry with that url.
   */
  lemma AppendedIsFound(p: Playlist, t: string, u: string)
    requires p.Parallel() && u !in p.urls && !IsBad(t, u)
    ensures var r := Pruned(p.Append(t, u));
      u in r.urls && r.titles[FirstIndex(r.urls, u)] == t
  {
    var q := p.Append(t, u);
    var r := Pruned(q);
    PrunedKeepsGood(q);
    EntriesAppend(p, t, u);
    GoodEntriesAppend(Entries(p), (t, u));
    assert (t, u) in GoodEntries(Entries(r));
    GoodEntriesFrom(Entries(r));
    var k :| 0 <= k < |Entries(r)| && Entries(r)[k] == (t, u);
    assert r.urls[k] == u;
    var f := FirstIndex(r.urls, u);
    var e := Entries(r)[f];
    assert e in multiset(Entries(q));
    EntryUrlsIn(p);
    assert e !in Entries(p);
    assert e == (t, u);
  }

  /** An entry that is good and appended is among the good entries. */
  lemma {:induction false} GoodEntriesAppend(e: seq<(string, string)>, x: (string, string))
    requires !IsBad(x.0, x.1)
    ensures x in GoodEntries(e + [x])
    decreases |e|
  {
    if e == [] {
      assert GoodEntries([x]) == [x] + GoodEntries([]);
    } else {
      GoodEntriesAppend(e[1..], x);
      assert (e + [x])[1..] == e[1..] + [x];
    }
  }

  /** The good entries are entries. */
  lemma {:induction false} GoodEntriesFrom(e: seq<(string, string)>)
    ensures forall x :: x in GoodEntries(e) ==> x in e
    decreases |e|
  {
    if e != [] {
      GoodEntriesFrom(e[1..]);
    }
  }

  /**
   * Adding the same YouTube video a second time finds it: the second `add`
   * reports the title of the first as already existing and changes nothing.
   */
  lemma AddTwiceFindsIt(p: Playlist, id: string, query: string, info: Option<string>,
                        results: Option<seq<SearchItem>>, suffixes: map<string, string>,
                        query': string, info': Option<string>,
                        results': Option<seq<SearchItem>>, suffixes': map<string, string>)
    requires p.Parallel()
    requires AddTarget(p, query, YouTube(id), info, results, suffixes).Appended?
    requires AddTarget(p, query, YouTube(id), info, results, suffixes).title != ""
    ensures var plan := AddTarget(p, query, YouTube(id), info, results, suffixes);
      AddTarget(Pruned(p.Append(plan.title, plan.url)), query', YouTube(id), info', results', suffixes') == Known(plan.title)
  {
    var plan := AddTarget(p, query, YouTube(id), info, results, suffixes);
    AppendedIsFound(p, plan.title, plan.url);
  }

  /**
   * `add` of a link the catalog holds, or of text whose best catalog title
   * reaches .75, reports that title as existing; such text is never looked
   * up online.
   */
  lemma AddFindsKnown(p: Playlist, query: string, provider: Provider, info: Option<string>,
                      results: Option<seq<SearchItem>>, suffixes: map<string, string>)
    requires p.Parallel()
    ensures provider.YouTube? && YouTubeWatch + provider.videoId in p.urls ==>
      var k := FirstIndex(p.urls, YouTubeWatch + provider.videoId);
      AddTarget(p, query, provider, info, results, suffixes) == Known(p.titles[k])
    ensures provider.SoundCloud? && provider.song.permalink in p.urls ==>
      var k := FirstIndex(p.urls, provider.song.permalink);
      AddTarget(p, query, provider, info, results, suffixes) == Known(p.titles[k])
    ensures provider.NotAUrl? && (exists j :: 0 <= j < |p.titles| && Qualifies(query, p.titles[j], InPlaylist)) ==>
      var r := AddTarget(p, query, provider, info, results, suffixes);
      r.Known? && exists i :: IsBest(query, p.titles, InPlaylist, i) && r.title == p.titles[i]
  {
    BestIsEarliestHighest(query, p.titles, InPlaylist);
  }

  /** The step of `update`'s cyclic scan: one position on, back to 0 after the last. */
  function Cyc(start: nat, k: nat, n: nat): (i: nat)
    requires start < n && k < n
    ensures i < n
  {
    if start + k < n then start + k else start + k - n
  }

  /** The cyclic scan from its `k`-th step on: the first position not in `recent`. */
  function ScanFrom(recent: seq<int>, n: nat, start: nat, k: nat): (r: Option<nat>)
    requires start < n && k <= n
    decreases n - k
  {
    if k == n then None
    else if Cyc(start, k, n) !in recent then Some(Cyc(start, k, n))
    else ScanFrom(recent, n, start, k + 1)
  }

  /**
   * The scan `while (recent.includes(index))` from a random start: the
   * first position, going round from `start`, that was not played
   * recently. `None` when every position is recent, where the source
   * loops for ever.
   */
  function FirstFresh(recent: seq<int>, n: nat, start: nat): Option<nat>
    requires start < n
  {
    ScanFrom(recent, n, start, 0)
  }

  /** How far `j` is from `start` going round a circle of `n` positions. */
  function Dist(start: nat, j: nat, n: nat): nat
    requires start < n && j < n
  {
    if start <= j then j - start else j + n - start
  }

  lemma {:induction false} ScanFromFinds(recent: seq<int>, n: nat, start: nat, k: nat)
    requires start < n && k <= n
    requires forall j :: 0 <= j < n && Dist(start, j, n) < k ==> j in recent
    ensures var r := ScanFrom(recent, n, start, k);
      && (r.Some? ==>
            && r.value < n && r.value !in recent
            && forall j :: 0 <= j < n && Dist(start, j, n) < Dist(start, r.value, n) ==> j in recent)
      && (r.None? ==> forall j :: 0 <= j < n ==> j in recent)
    decreases n - k
  {
    if k < n {
      assert Dist(start, Cyc(start, k, n), n) == k;
      if Cyc(start, k, n) in recent {
        forall j | 0 <= j < n && Dist(start, j, n) < k + 1
          ensures j in recent
        {
          if Dist(start, j, n) == k {
            assert j == Cyc(start, k, n);
          }
        }
        ScanFromFinds(recent, n, start, k + 1);
      }
    }
  }

  /**
   * The scan returns a position in range that is not recent, and every
   * position it passed over is recent; it finds none exactly when every
   * position is recent.
   */
  lemma FirstFreshIsFirstNotRecent(recent: seq<int>, n: nat, start: nat)
    requires start < n
    ensures var r := FirstFresh(recent, n, start);
      && (r.Some? ==>
            && r.value < n && r.value !in recent
            && forall j :: 0 <= j < n && Dist(start, j, n) < Dist(start, r.value, n) ==> j in recent)
      && (r.None? <==> forall j :: 0 <= j < n ==> j in recent)
  {
    ScanFromFinds(recent, n, start, 0);
  }

  /** A list shorter than `n` misses some position below `n`. */
  lemma {:induction false} ShortListMisses(s: seq<int>, n: nat)
    requires |s| < n
    ensures exists j :: 0 <= j < n && j !in s
  {
    if n - 1 !in s {
      assert 0 <= n - 1 < n && n - 1 !in s;
    } else {
      var i :| 0 <= i < |s| && s[i] == n - 1;
      var r := s[..i] + s[i + 1..];
      ShortListMisses(r, n - 1);
      var j :| 0 <= j < n - 1 && j !in r;
      forall m | 0 <= m < |s|
        ensures s[m] != j
      {
        if m < i {
          assert r[m] == s[m];
        } else if m > i {
          assert r[m - 1] == s[m];
        }
      }
      assert 0 <= j < n && j !in s;
    }
  }

  /**
   * When fewer positions were played recently than the catalog holds, the
   * scan ends: some position is not recent.
   */
  lemma ShortRecencyLetsScanEnd(recent: seq<int>, n: nat, start: nat)
    requires start < n && |recent| < n
    ensures FirstFresh(recent, n, start).Some?
  {
    FirstFreshIsFirstNotRecent(recent, n, start);
    ShortListMisses(recent, n);
  }

  /**
   * The random choice: the start itself for a catalog of at most 10 songs,
   * otherwise the scan for a song not played recently.
   */
  function RandomIndex(recent: seq<int>, n: nat, start: nat): (r: Option<nat>)
    requires start < n
    ensures r.Some? ==> r.value < n
    ensures n > 10 && r.Some? ==> r.value !in recent
  {
    if n > 10 then
      FirstFreshIsFirstNotRecent(recent, n, start);
      FirstFresh(recent, n, start)
    else Some(start)
  }

  /**
   * Shuffle off: the position after the current title's first occurrence,
   * back to 0 after the last entry (or when the title is not found).
   */
  function SequentialNext(titles: seq<string>, playing: string): (i: nat)
    requires |titles| > 0
    ensures i < |titles|
  {
    var next := if playing in titles then FirstIndex(titles, playing) + 1 else 0;
    if next >= |titles| then 0 else next
  }

  /** Sequential play moves one entry on from the current song and wraps after the last. */
  lemma SequentialNextWraps(titles: seq<string>, k: nat)
    requires k < |titles| && titles[k] !in titles[..k]
    ensures SequentialNext(titles, titles[k]) == if k + 1 < |titles| then k + 1 else 0
  {
    FirstIndexAt(titles, titles[k], k);
  }

  /** The song `skip` moves to, or why it moves to none. */
  datatype Pick = Idle | Stuck | FromQueue(index: int) | Shuffled(index: int) | Following(index: int)

  /**
   * `skip`: nothing unless the catalog is non-empty and a song is playing;
   * then the front of the user queue, else a random song when shuffling,
   * else the next song in order.
   */
  function SkipPick(p: Playlist, playing: Option<string>, upcoming: seq<int>, recent: seq<int>,
                    shuffle: bool, start: nat): (r: Pick)
    requires p.Parallel() && (|p.urls| == 0 || start < |p.urls|)
    ensures r.Shuffled? || r.Following? ==> 0 <= r.index < |p.titles|
    ensures r.Shuffled? && |p.urls| > 10 ==> r.index !in recent
    ensures r.FromQueue? ==> upcoming != [] && r.index == upcoming[0]
  {
    if !(|p.urls| > 0 && Truthy(playing)) then Idle
    else if upcoming != [] then FromQueue(upcoming[0])
    else if shuffle then
      match RandomIndex(recent, |p.urls|, start)
      case Some(i) => Shuffled(i)
      case None => Stuck
    else Following(SequentialNext(p.titles, playing.value))
  }

  /**
   * The song `play` with no query picks: the front of the user queue,
   * else a random one. `None` when the scan would never end.
   */
  function RandomPick(upcoming: seq<int>, recent: seq<int>, n: nat, start: nat): (r: Option<int>)
    requires start < n
    ensures upcoming != [] ==> r == Some(upcoming[0])
    ensures upcoming == [] && r.Some? ==> 0 <= r.value < n
  {
    if upcoming != [] then Some(upcoming[0])
    else
      match RandomIndex(recent, n, start)
      case Some(i) => Some(i)
      case None => None
  }

  /**
   * Removing an entry by a url the catalog holds only once leaves no entry
   * with that url, and every remaining entry was in the catalog before.
   */
  lemma RemovedUrlIsGone(p: Playlist, u: string)
    requires p.Parallel() && u in p.urls && multiset(p.urls)[u] == 1
    requires NumberOf(u).None? || NumberOf(u) == Some(0)
    ensures RemoveTarget(p, u) == Some(FirstIndex(p.urls, u))
    ensures var r := Pruned(p.Delete(FirstIndex(p.urls, u)));
      u !in r.urls && multiset(Entries(r)) <= multiset(Entries(p))
  {
    var k := FirstIndex(p.urls, u);
    DeleteOnlyOccurrence(p.urls, k);
    PrunedAddsNoUrl(p.Delete(k), u);
    EntriesDelete(p, k);
    PrunedKeepsGood(p.Delete(k));
  }

  /** Deleting the one occurrence of a value leaves none. */
  lemma DeleteOnlyOccurrence(s: seq<string>, k: nat)
    requires k < |s| && multiset(s)[s[k]] == 1
    ensures s[k] !in s[..k] + s[k + 1..]
  {
    assert s == s[..k] + [s[k]] + s[k + 1..];
    assert multiset(s) == multiset(s[..k] + s[k + 1..]) + multiset{s[k]};
  }

  /** Pruning introduces no url. */
  lemma PrunedAddsNoUrl(p: Playlist, u: string)
    requires p.Parallel() && u !in p.urls
    ensures u !in Pruned(p).urls
  {
    var r := Pruned(p);
    PrunedKeepsGood(p);
    EntryUrlsIn(p);
    forall i | 0 <= i < |r.urls|
      ensures r.urls[i] != u
    {
      assert Entries(r)[i] in multiset(Entries(p));
    }
  }

  /** Deleting an entry keeps the others. */
  lemma EntriesDelete(p: Playlist, k: nat)
    requires p.Parallel() && k < |p.titles|
    ensures multiset(Entries(p.Delete(k))) <= multiset(Entries(p))
  {
    var e := Entries(p);
    assert e == e[..k] + [e[k]] + e[k + 1..];
    assert Entries(p.Delete(k)) == e[..k] + e[k + 1..];
  }

  /** `playlist.titles[elems[i]]` for each queued position, as the listing prints them. */
  function QueuedTitles(p: Playlist, elems: seq<int>): (names: seq<string>)
    ensures |names| == |elems|
  {
    seq(|elems|, i requires 0 <= i < |elems| => ListedTitle(p, elems[i]))
  }

  /**
   * The first `k` names, joined by newlines and fenced, stay under
   * Discord's 2000 characters, counted as JavaScript's `length` counts
   * them (UTF-16 code units).
   */
  predicate Fits(names: seq<string>, k: nat)
    requires k <= |names|
  {
    Utf16Length(Join(names[..k], '\n')) + 7 < 2000
  }

  /** The longest prefix, from `k` on, that still fits: it fits if `k` does, and one more name would not. */
  function LongestFit(names: seq<string>, k: nat): (m: nat)
    requires k <= |names|
    ensures k <= m <= |names|
    ensures Fits(names, k) ==> Fits(names, m)
    ensures m < |names| ==> !Fits(names, m + 1)
    decreases |names| - k
  {
    if k < |names| && Fits(names, k + 1) then LongestFit(names, k + 1) else k
  }

  /** The queue listing: the fenced, newline-joined titles of the longest prefix of the queue that fits. */
  function Listing(names: seq<string>): (text: string)
    ensures Utf16Length(text) < 2000 && |text| < 2000
  {
    var m := LongestFit(names, 0);
    var body := Join(names[..m], '\n');
    assert names[..0] == [];
    Utf16LengthAppend("```\n", body);
    Utf16LengthAppend("```\n" + body, "```");
    "```\n" + body + "```"
  }

  /**
   * The listing holds as many queued titles as fit: one more, or any
   * longer prefix, would not.
   */
  lemma ListingIsLongestFit(names: seq<string>)
    ensures Fits(names, LongestFit(names, 0))
    ensures forall j :: LongestFit(names, 0) < j <= |names| ==> !Fits(names, j)
  {
    assert names[..0] == [];
    var m := LongestFit(names, 0);
    forall j | m < j <= |names|
      ensures !Fits(names, j)
    {
      JoinPrefixExtends(names, m + 1, j, '\n');
      Utf16LengthPrefix(Join(names[..m + 1], '\n'), Join(names[..j], '\n'));
    }
  }

  /**
   * When every prefix up to `k` fits and the next one does not (or there is
   * none), `k` is the longest fitting prefix.
   */
  lemma {:induction false} LongestFitAt(names: seq<string>, m: nat, k: nat)
    requires m <= k <= |names|
    requires forall j :: m <= j <= k ==> Fits(names, j)
    requires k == |names| || !Fits(names, k + 1)
    ensures LongestFit(names, m) == k
    decreases k - m
  {
    if m < k {
      LongestFitAt(names, m + 1, k);
    }
  }

  /** Playing entry `k` from a recency list without repeats leaves `k` newest and the list without repeats. */
  lemma ReplayedIsNewest(s: seq<int>, cap: nat, k: int)
    requires NoDuplicates(s)
    ensures var r := Pushed(Forget(s, k), cap, k);
      |r| >= 1 && r[|r| - 1] == k && NoDuplicates(r)
  {
    ForgetKeepsNoDuplicates(s, k);
    PushedStaysDistinct(Forget(s, k), cap, k);
  }

  /** Pushing a value that is not yet in a list without repeats keeps it without repeats. */
  lemma PushedStaysDistinct(s: seq<int>, cap: nat, k: int)
    requires NoDuplicates(s) && k !in s
    ensures var r := Pushed(s, cap, k);
      |r| >= 1 && r[|r| - 1] == k && NoDuplicates(r)
  {
    PushedKeepsNewest(s, cap, k);
    var t := s + [k];
    assert NoDuplicates(t);
    var r := Pushed(s, cap, k);
    assert r == t[|t| - |r|..];
  }
}
