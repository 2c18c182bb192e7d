/**
 * The `Music` class of music.js: the song catalog, the song playing now,
 * its stream, and two queues of catalog positions, the songs played
 * recently and the songs the users queued. Network answers, the random
 * number and the shuffle setting come in as parameters.
 */
module MusicBot {
  import opened Wrappers
  import opened Strings
  import opened Matching
  import opened Catalog
  import opened Queues
  import opened MusicRules

  /** What `add` hands its callback: a title (possibly none) and whether it was already there. */
  datatype AddReply = AddReply(title: Option<string>, exist: bool)

  /**
   * How a request to play ends: the callback gets a stream; the callback is
   * never called; the request goes through `add` first; or the random scan
   * never ends.
   */
  datatype Playback = Started(stream: Stream) | Silent | ViaAdd | Spins

  /** What `queue` hands its callback. */
  datatype QueueReply = Listed(text: string) | Queued(title: string, exist: bool) | NoReply | QueueViaAdd

  /** What `next` hands its callback. */
  datatype NextReply = Fronted(title: Option<string>) | NextViaAdd

  /** What `dequeue` returns: the dequeued title, nothing, or an exception. */
  datatype DequeueReply = Dequeued(title: string) | NotDequeued | Throws

  /**
   * Opening entry `i` for playback: when the provider hands back a stream,
   * it becomes `readable` and goes to the callback; otherwise nothing does.
   */
  predicate Opened(i: int, acquired: bool, before: Option<Stream>, after: Option<Stream>, outcome: Playback)
  {
    if acquired then after == Some(Stream(i)) && outcome == Started(Stream(i))
    else after == before && outcome == Silent
  }

  class Music {
    var playlist: Playlist
    /** The title playing now; `None` for null or undefined. */
    var playing: Option<string>
    var readable: Option<Stream>
    /** Catalog positions played recently, at most half the catalog. */
    const recent: Queue<int>
    /** Catalog positions the users queued, unbounded. */
    const upcoming: Queue<int>

    /** What holds between calls, except the size of `recent`. */
    ghost predicate Coherent()
      reads this, recent, upcoming
    {
      && recent != upcoming
      && playlist.Parallel()
      && upcoming.length == 0
      && NoDuplicates(upcoming.elems)
    }

    /** What holds between calls: `recent` keeps half the catalog. */
    ghost predicate Valid()
      reads this, recent, upcoming
    {
      Coherent() && recent.length == |playlist.urls| / 2
    }

    constructor (loaded: Playlist)
      requires loaded.Parallel()
      ensures Valid() && fresh(recent) && fresh(upcoming)
      ensures playlist == loaded && playing == None && readable == None
      ensures recent.elems == [] && upcoming.elems == []
    {
      playlist := loaded;
      playing := None;
      readable := None;
      recent := new Queue(|loaded.urls| / 2);
      upcoming := new Queue();
    }

    /**
     * `update()`: prune missing entries as the source's loop does and
     * resize `recent` to half the catalog.
     */
    method Update()
      requires Coherent()
      modifies this, recent
      ensures Valid()
      ensures playlist == Pruned(old(playlist))
      ensures recent.elems == old(recent.elems) && upcoming.elems == old(upcoming.elems)
      ensures playing == old(playing) && readable == old(readable)
    {
      var i: nat := 0;
      while i < |playlist.titles|
        modifies this
        invariant playlist.Parallel()
        invariant PruneLoop(playlist, i) == PruneLoop(old(playlist), 0)
        invariant playing == old(playing) && readable == old(readable)
        decreases |playlist.titles| - i
      {
        if playlist.titles[i] == "" || playlist.urls[i] == "" {
          playlist := playlist.Delete(i);
        }
        i := i + 1;
      }
      PruneLoopIsPruned(old(playlist), 0);
      assert Drop(old(playlist), 0) == old(playlist);
      recent.length := |playlist.urls| / 2;
    }

    /**
     * `add(query)`, given the providers' answers: `info` is the title
     * YouTube gives for a new video (`None` when it never answers),
     * `results` the search engine's items (`None` when it never answers),
     * `suffixes` the configured title suffix per site. `None` when the
     * callback is never called.
     */
    method Add(query: string, provider: Provider, info: Option<string>,
               results: Option<seq<SearchItem>>, suffixes: map<string, string>) returns (reply: Option<AddReply>)
      requires Valid()
      modifies this, recent
      ensures Valid()
      ensures recent.elems == old(recent.elems) && upcoming.elems == old(upcoming.elems)
      ensures playing == old(playing) && readable == old(readable)
      ensures match AddTarget(old(playlist), query, provider, info, results, suffixes)
        case Known(t) => reply == Some(AddReply(Some(t), true)) && playlist == old(playlist)
        case Appended(t, u) => reply == Some(AddReply(Some(t), false)) && playlist == Pruned(old(playlist).Append(t, u))
        case Reported(t) => reply == Some(AddReply(t, false)) && playlist == old(playlist)
        case Unanswered => reply == None && playlist == old(playlist)
    {
      match provider {
        case YouTube(id) =>
          var url := YouTubeWatch + id;
          if url in playlist.urls {
            reply := Some(AddReply(Some(playlist.titles[FirstIndex(playlist.urls, url)]), true));
          } else if info.Some? {
            playlist := playlist.Append(info.value, url);
            Update();
            reply := Some(AddReply(Some(info.value), false));
          } else {
            reply := None;
          }
        case SoundCloud(song) =>
          if song.permalink in playlist.urls {
            reply := Some(AddReply(Some(playlist.titles[FirstIndex(playlist.urls, song.permalink)]), true));
          } else {
            playlist := playlist.Append(song.title, song.permalink);
            Update();
            reply := Some(AddReply(Some(song.title), false));
          }
        case NoAnswer =>
          reply := None;
        case NotAUrl =>
          var known := BestMatch(query, playlist.titles, InPlaylist);
          if known.Some? {
            reply := Some(AddReply(Some(playlist.titles[known.value]), true));
          } else if results.None? {
            reply := None;
          } else {
            var items := results.value;
            var titles := StrippedTitles(items, suffixes);
            var found := BestMatch(query, titles, Search);
            if found.None? {
              reply := Some(AddReply(None, false));
            } else if titles[found.value] != "" && items[found.value].link != "" {
              playlist := playlist.Append(titles[found.value], items[found.value].link);
              Update();
              reply := Some(AddReply(Some(titles[found.value]), false));
            } else {
              reply := Some(AddReply(Some(titles[found.value]), false));
            }
          }
      }
    }

    /**
     * `remove(query)`: delete the entry `RemoveTarget` names, prune, and
     * return its title; return nothing when there is none.
     */
    method Remove(query: string) returns (title: Option<string>)
      requires Valid()
      modifies this, recent
      ensures Valid()
      ensures recent.elems == old(recent.elems) && upcoming.elems == old(upcoming.elems)
      ensures playing == old(playing) && readable == old(readable)
      ensures match RemoveTarget(old(playlist), query)
        case Some(k) => title == Some(old(playlist).titles[k]) && playlist == Pruned(old(playlist).Delete(k))
        case None => title == None && playlist == old(playlist)
    {
      var target: Option<nat>;
      var number := NumberOf(query);
      if number.Some? && number.value != 0 {
        if number.value - 1 < |playlist.titles| {
          target := Some(number.value - 1);
        } else {
          target := None;
        }
      } else if query in playlist.urls {
        target := Some(FirstIndex(playlist.urls, query));
      } else {
        target := BestMatch(query, playlist.titles, InPlaylist);
      }
      if target.Some? {
        title := Some(playlist.titles[target.value]);
        playlist := playlist.Delete(target.value);
        Update();
      } else {
        title := None;
      }
    }

    /**
     * The random choice of `play` and `skip`: position `start` (the random
     * number), and, in a catalog of more than 10 songs, the first one from
     * there on, going round, that was not played recently. `None` when
     * every position was, where the source's loop never ends.
     */
    method PickRandom(n: nat, start: nat) returns (index: Option<nat>)
      requires start < n
      ensures index == RandomIndex(recent.elems, n, start)
    {
      if n <= 10 {
        return Some(start);
      }
      var i := start;
      var k := 0;
      while k < n && recent.Includes(i)
        invariant k <= n
        invariant k < n ==> i == Cyc(start, k, n)
        invariant ScanFrom(recent.elems, n, start, k) == FirstFresh(recent.elems, n, start)
        decreases n - k
      {
        i := if i + 1 < n then i + 1 else 0;
        k := k + 1;
      }
      index := if k < n then Some(i) else None;
    }

    /** Move entry `index` to the newest place of `recent`, make it the song playing, and open it. */
    method Start(index: int, forget: bool, acquired: bool) returns (outcome: Playback)
      requires Valid()
      modifies this, recent
      ensures Valid()
      ensures recent.elems == Pushed(if forget then Forget(old(recent.elems), index) else old(recent.elems), recent.length, index)
      ensures recent.length == old(recent.length)
      ensures playlist == old(playlist) && upcoming.elems == old(upcoming.elems)
      ensures playing == TitleAt(playlist, index)
      ensures recent.elems != [] && recent.elems[|recent.elems| - 1] == index
      ensures Opened(index, acquired, old(readable), readable, outcome)
    {
      PushedKeepsNewest(if forget then Forget(recent.elems, index) else recent.elems, recent.length, index);
      if forget && recent.Includes(index) {
        recent.elems := recent.elems[..FirstIndex(recent.elems, index)] + recent.elems[FirstIndex(recent.elems, index) + 1..];
      }
      var pushed := recent.Push(index);
      playing := TitleAt(playlist, index);
      if acquired {
        readable := Some(Stream(index));
        outcome := Started(Stream(index));
      } else {
        outcome := Silent;
      }
    }

    /**
     * `play(query)`: `provider` is how YouTube and SoundCloud read the
     * query, `start` the random position, `acquired` whether the song's
     * provider hands back a stream.
     */
    method Play(query: string, provider: Provider, start: nat, acquired: bool) returns (outcome: Playback)
      requires Valid() && (|playlist.urls| == 0 || start < |playlist.urls|)
      modifies this, recent, upcoming
      ensures Valid()
      ensures playlist == old(playlist) && recent.length == old(recent.length)
      ensures match PlayTargetOf(old(playlist), query, provider)
        case ToEntry(k) =>
          && recent.elems == Pushed(Forget(old(recent.elems), k), recent.length, k)
          && upcoming.elems == old(upcoming.elems)
          && playing == Some(playlist.titles[k])
          && Opened(k, acquired, old(readable), readable, outcome)
        case ToRandom =>
          (match RandomPick(old(upcoming.elems), old(recent.elems), |playlist.urls|, start)
          case Some(i) =>
            && recent.elems == Pushed(old(recent.elems), recent.length, i)
            && upcoming.elems == (if old(upcoming.elems) == [] then [] else old(upcoming.elems)[1..])
            && playing == TitleAt(playlist, i)
            && Opened(i, acquired, old(readable), readable, outcome)
          case None =>
            outcome == Spins && Unchanged(old(recent.elems), old(upcoming.elems), old(playing), old(readable)))
        case ToAdd => outcome == ViaAdd && Unchanged(old(recent.elems), old(upcoming.elems), old(playing), old(readable))
        case ToNothing => outcome == Silent && Unchanged(old(recent.elems), old(upcoming.elems), old(playing), old(readable))
    {
      var target := PlayTargetOf(playlist, query, provider);
      match target {
        case ToEntry(k) =>
          outcome := Start(k, true, acquired);
        case ToRandom =>
          var index: Option<int>;
          if upcoming.Empty() {
            index := PickRandom(|playlist.urls|, start);
          } else {
            var front := upcoming.Pop();
            TailKeepsNoDuplicates(old(upcoming.elems));
            index := Some(front.value);
          }
          if index.Some? {
            outcome := Start(index.value, false, acquired);
          } else {
            outcome := Spins;
          }
        case ToAdd =>
          outcome := ViaAdd;
        case ToNothing =>
          outcome := Silent;
      }
    }

    /**
     * `skip()`: `shuffle` is the configured setting, `start` the random
     * position, `acquired` whether the next song's provider hands back a
     * stream.
     */
    method Skip(shuffle: bool, start: nat, acquired: bool) returns (outcome: Playback)
      requires Valid() && (|playlist.urls| == 0 || start < |playlist.urls|)
      modifies this, recent, upcoming
      ensures Valid()
      ensures playlist == old(playlist) && recent.length == old(recent.length)
      ensures match SkipPick(old(playlist), old(playing), old(upcoming.elems), old(recent.elems), shuffle, start)
        case FromQueue(i) =>
          && upcoming.elems == old(upcoming.elems)[1..]
          && recent.elems == Pushed(Forget(old(recent.elems), i), recent.length, i)
          && playing == TitleAt(playlist, i)
          && Opened(i, acquired, old(readable), readable, outcome)
        case Shuffled(i) =>
          && upcoming.elems == old(upcoming.elems)
          && recent.elems == Pushed(old(recent.elems), recent.length, i)
          && playing == Some(playlist.titles[i])
          && Opened(i, acquired, old(readable), readable, outcome)
        case Following(i) =>
          && upcoming.elems == old(upcoming.elems)
          && recent.elems == Pushed(Forget(old(recent.elems), i), recent.length, i)
          && playing == Some(playlist.titles[i])
          && Opened(i, acquired, old(readable), readable, outcome)
        case Stuck => outcome == Spins && Unchanged(old(recent.elems), old(upcoming.elems), old(playing), old(readable))
        case Idle => outcome == Silent && Unchanged(old(recent.elems), old(upcoming.elems), old(playing), old(readable))
    {
      if !(|playlist.urls| > 0 && playing.Some? && playing.value != "") {
        return Silent;
      }
      if !upcoming.Empty() {
        var front := upcoming.Pop();
        TailKeepsNoDuplicates(old(upcoming.elems));
        outcome := Start(front.value, true, acquired);
      } else if shuffle {
        var index := PickRandom(|playlist.urls|, start);
        if index.Some? {
          outcome := Start(index.value, false, acquired);
        } else {
          outcome := Spins;
        }
      } else {
        var index := SequentialNext(playlist.titles, playing.value);
        outcome := Start(index, true, acquired);
      }
    }

    /**
     * `queue(query)` with a query: a position in range is appended to the
     * user queue unless it is there already; the title goes back with
     * whether it was. Other queries go through `add`. Without a query,
     * the listing.
     */
    method QueueSong(query: string) returns (reply: QueueReply)
      requires Valid()
      modifies upcoming
      ensures Valid()
      ensures query == "" ==> reply == Listed(Listing(QueuedTitles(playlist, upcoming.elems))) && upcoming.elems == old(upcoming.elems)
      ensures query != "" ==> match ReadPosition(query, |playlist.urls|)
        case At(k) =>
          && reply == Queued(playlist.titles[k], k in old(upcoming.elems))
          && upcoming.elems == if k in old(upcoming.elems) then old(upcoming.elems) else old(upcoming.elems) + [k]
        case Falsy => reply == NoReply && upcoming.elems == old(upcoming.elems)
        case Elsewhere => reply == QueueViaAdd && upcoming.elems == old(upcoming.elems)
    {
      if query == "" {
        var text := ListQueue();
        return Listed(text);
      }
      match ReadPosition(query, |playlist.urls|) {
        case At(k) =>
          var title := playlist.titles[k];
          if upcoming.Includes(k) {
            reply := Queued(title, true);
          } else {
            AppendedKeepsNoDuplicates(upcoming.elems, k);
            var pushed := upcoming.Push(k);
            reply := Queued(title, false);
          }
        case Falsy =>
          reply := NoReply;
        case Elsewhere =>
          reply := QueueViaAdd;
      }
    }

    /**
     * The listing of `queue()`: the titles of the queued positions, one per
     * line, as many as fit in a 2000-character message.
     */
    method ListQueue() returns (text: string)
      ensures text == Listing(QueuedTitles(playlist, upcoming.elems))
      ensures Utf16Length(text) < 2000
    {
      ghost var names := QueuedTitles(playlist, upcoming.elems);
      var response: seq<string> := [];
      var i := 0;
      assert names[..0] == [];
      while i < |upcoming.elems| && Utf16Length(Join(response, '\n')) + 7 < 2000
        invariant i <= |upcoming.elems| && response == names[..i]
        invariant forall j :: 0 <= j < i ==> Fits(names, j)
      {
        assert Fits(names, i);
        response := response + [ListedTitle(playlist, upcoming.elems[i])];
        i := i + 1;
        assert response == names[..i];
      }
      ghost var k := i;
      if Utf16Length(Join(response, '\n')) + 7 >= 2000 {
        response := response[..|response| - 1];
        k := i - 1;
        assert response == names[..k];
      }
      LongestFitAt(names, 0, k);
      text := "```\n" + Join(response, '\n') + "```";
    }

    /**
     * `dequeue(query)`: take the position `DequeueTarget` names out of the
     * user queue and return its title; nothing when it is not queued.
     */
    method Dequeue(query: string) returns (reply: DequeueReply)
      requires Valid()
      modifies upcoming
      ensures Valid()
      ensures match DequeueTarget(playlist, query)
        case Slot(k) =>
          && (k in old(upcoming.elems) ==> reply == Dequeued(playlist.titles[k]) && upcoming.elems == Forget(old(upcoming.elems), k))
          && (k !in old(upcoming.elems) ==> reply == NotDequeued && upcoming.elems == old(upcoming.elems))
          && k !in upcoming.elems
        case NoSlot => reply == NotDequeued && upcoming.elems == old(upcoming.elems)
        case Fault => reply == Throws && upcoming.elems == old(upcoming.elems)
    {
      var slot: Option<nat>;
      match ReadPosition(query, |playlist.urls|) {
        case At(k) =>
          slot := Some(k);
        case Falsy =>
          slot := None;
        case Elsewhere =>
          var best := BestMatch(query, playlist.titles, InPlaylist);
          if best.Some? && best.value != 0 {
            slot := best;
          } else if best.None? && NumberOf(query).Some? {
            return Throws;
          } else {
            slot := None;
          }
      }
      if slot.Some? && upcoming.Includes(slot.value) {
        ForgetKeepsNoDuplicates(upcoming.elems, slot.value);
        reply := Dequeued(playlist.titles[slot.value]);
        upcoming.elems := upcoming.elems[..FirstIndex(upcoming.elems, slot.value)] + upcoming.elems[FirstIndex(upcoming.elems, slot.value) + 1..];
      } else {
        reply := NotDequeued;
      }
    }

    /**
     * `next(query)`: a position in range moves to the front of the user
     * queue (taken out of where it was) and its title goes back; a falsy
     * query gives no title; other queries go through `add`.
     */
    method Next(query: string) returns (reply: NextReply)
      requires Valid()
      modifies upcoming
      ensures Valid()
      ensures match ReadPosition(query, |playlist.urls|)
        case At(k) =>
          && reply == Fronted(Some(playlist.titles[k]))
          && upcoming.elems == [k] + Forget(old(upcoming.elems), k)
          && multiset(upcoming.elems) == multiset(old(upcoming.elems)) + (if k in old(upcoming.elems) then multiset{} else multiset{k})
        case Falsy => reply == Fronted(None) && upcoming.elems == old(upcoming.elems)
        case Elsewhere => reply == NextViaAdd && upcoming.elems == old(upcoming.elems)
    {
      match ReadPosition(query, |playlist.urls|) {
        case At(k) =>
          FrontedKeepsOthers(upcoming.elems, k);
          if upcoming.Includes(k) {
            upcoming.elems := upcoming.elems[..FirstIndex(upcoming.elems, k)] + upcoming.elems[FirstIndex(upcoming.elems, k) + 1..];
          }
          upcoming.elems := [k] + upcoming.elems;
          reply := Fronted(Some(playlist.titles[k]));
        case Falsy =>
          reply := Fronted(None);
        case Elsewhere =>
          reply := NextViaAdd;
      }
    }

    /** Nothing but the catalog and the sizes stayed: the queues, the song playing and its stream are as they were. */
    ghost predicate Unchanged(recentBefore: seq<int>, upcomingBefore: seq<int>, playingBefore: Option<string>, readableBefore: Option<Stream>)
      reads this, recent, upcoming
    {
      recent.elems == recentBefore && upcoming.elems == upcomingBefore && playing == playingBefore && readable == readableBefore
    }
  }
}
