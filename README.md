# Music bot catalog and queues, in Dafny

This project models the in-memory core of a Discord music bot written in
JavaScript:

- `queue.js`: a small first-in first-out `Queue` class with a capacity.
- `music.js`: the `Music` class. It keeps a catalog of songs as two parallel
  arrays, `playlist.titles` and `playlist.urls`. It also keeps the title
  playing now (`playing`), its audio stream (`readable`), a `recent` queue
  of catalog positions played lately (capacity half the catalog) and an
  `upcoming` queue of positions the users asked for (unbounded).

The model follows the code, including its quirks:

- The punctuation loop in `similarity` has no effect, because the result
  of `replace` is discarded. Words keep their punctuation.
- `update` splices a missing entry out and still moves its index on, so
  the entry that slides into the gap is never examined. Two missing
  entries in a row leave the second one in the catalog.
- `dequeue` of a title whose best match is the first catalog entry does
  nothing, because of `if (index)`.
- `recent` has capacity 0 for catalogs of fewer than two songs, and
  capacity 0 means unbounded.
- The thresholds .75 and .25 are compared exactly, in integers.

Files and modules:

- `queue.dfy`, module `Queues`: the `Queue` class over a `seq`. `Pushed`
  is the reference definition of a push.
- `strings.dfy`, module `Strings`: the string built-ins used: lower case,
  `split`, `join`, `includes`, `endsWith` and `Number`.
- `matching.dfy`, module `Matching`: `similarity` and the best-match scan.
  The scan is a function (`Best`), a characterisation (`IsBest`), and the
  loop the source runs (`BestMatch`).
- `catalog.dfy`, module `Catalog`: the playlist and `update`'s pruning.
  `PruneLoop` mirrors the loop; `Pruned` is the reference definition.
- `music_rules.dfy`, module `MusicRules`: what each operation decides,
  as functions on values, with their properties.
- `music.dfy`, module `MusicBot`: the `Music` class. Its methods change
  the catalog and the two queues in place. Each one is proved against the
  functions of `MusicRules`.

Network answers, the random number and the shuffle setting are
parameters:

- how YouTube and SoundCloud read a query (`Provider`);
- the title YouTube reports for a new video;
- the search engine's result items;
- whether a stream is obtained;
- the random start position;
- `config.music.shuffle`.

Outcomes that the source never reports are datatype values:

- the random scan that never ends (`Spins`);
- the `dequeue` call that throws (`Throws`);
- a callback that is never called (`Silent`, or `None`).

## Model

| member | source | states |
|---|---|---|
| Queues.Queue.constructor | queue.js:2-5 | capacity is the given size (0 by default) and nothing is queued |
| Queues.Queue.Empty | queue.js:7-9 | true exactly when nothing is queued; reads only |
| Queues.Queue.Includes | queue.js:11-13 | true exactly when some queued entry equals the value; reads only |
| Queues.Queue.Push | queue.js:15-23 | returns the value; the contents become `Pushed(old contents, capacity, value)`; the capacity is unchanged |
| Queues.Queue.Pop | queue.js:25-27 | on a non-empty queue returns the front and keeps the rest in order; on an empty queue returns nothing and changes nothing |
| Queues.Queue.Clear | queue.js:29-31 | empties the queue and keeps the capacity |
| Queues.Pushed | queue.js:15-21 | a push always ends with the pushed value; with a capacity the result holds at most `capacity` entries; with capacity 0 it is the old contents followed by the value |
| Queues.PushedKeepsNewest | queue.js:15-21 | after a push the value is last, preceded by the newest entries of the old contents in order; size grows by at most one |
| Queues.PushedBounded | queue.js:17-21 | with a capacity, a push leaves at most `capacity` entries whatever the size before (a lowered capacity is restored); nothing is dropped while there is room |
| Queues.PushedUnbounded | queue.js:17 | with capacity 0 nothing is ever dropped |
| Queues.PushedMembers | queue.js:15-23 | after a push the pushed value is queued, and every queued value was queued before or is the pushed one |
| Strings.Split | music.js:19 | `split` gives at least one piece, the first a prefix of the string |
| Strings.SplitPiecesHaveNoSeparator | music.js:19 | no piece of `split` contains the separator |
| Strings.SplitPiecesOccur | music.js:19 | every piece of `split` occurs in the string |
| Strings.JoinSplit | music.js:19 | joining the pieces of `split` with the same separator gives the string back |
| Strings.Utf16Length | music.js:379-382 | JavaScript's `length`: one unit per character, two for a character beyond U+FFFF, so never less than the number of characters |
| Strings.Utf16LengthAppend | music.js:379-385 | the `length` of a concatenation is the sum of the lengths |
| Strings.NumberOf | music.js:207 | `Number` of the empty string is 0; a string with any character other than a space or a decimal digit is NaN |
| Strings.NumberOfDecimal | music.js:207 | `Number` reads back any decimal numeral, also with surrounding spaces |
| Matching.Matched | music.js:21-28 | the count of words found is at most the number of words, and equals it exactly when every word occurs in the title |
| Matching.Similarity | music.js:16-31 | nothing exactly when either string is empty; otherwise a score whose denominator is the number of query words (at least 1) and whose numerator is at most that |
| Matching.SimilarityToItself | music.js:16-31 | a query scores 1 against an identical title |
| Matching.Best | music.js:169-175 | the scan selects either nothing or a position inside the list of titles |
| Matching.BestIsEarliestHighest | music.js:169-175 | the scan selects `i` exactly when `i` is the earliest of the highest-scoring titles that reach the threshold; it selects nothing exactly when no title reaches it |
| Matching.ExactTitleWins | music.js:225-231 | when a title equals the query, the scan selects a title that scores 1, at that position or earlier |
| Matching.BestMatch | music.js:302-308 | the scanning loop returns `Best`: the earliest highest title at or above the threshold, or nothing when none reaches it |
| Catalog.Pruned | music.js:70-75 | pruning keeps the two arrays parallel and never lengthens them |
| Catalog.PruneLoop | music.js:70-75 | the splice loop from position `i` keeps the arrays parallel, never lengthens them, and leaves the first `i` entries untouched |
| Catalog.PruneLoopIsPruned | music.js:70-75 | the splice loop run from position `i` keeps the first `i` entries and prunes the rest as `Pruned` does |
| Catalog.PrunedKeepsGood | music.js:70-75 | pruning removes only entries with an empty title or url: every other entry survives, in order, and every surviving entry was there before |
| Catalog.PrunedClean | music.js:70-75 | a catalog without missing entries is left unchanged |
| Catalog.PrunedIsolatedIsClean | music.js:70-75 | when no two missing entries are adjacent, pruning leaves no missing entry |
| Catalog.AdjacentBadSurvives | music.js:70-75 | a concrete catalog with two adjacent missing entries keeps the second one after pruning |
| Catalog.AppendThenDelete | music.js:146-148 | appending a good entry to a clean catalog, pruning, then deleting the last entry gives the catalog back |
| MusicRules.Forget | music.js:253 | splicing out `indexOf(x)` changes nothing when `x` is absent; otherwise it removes one entry and keeps everything before the first `x` |
| MusicRules.ForgetAt | music.js:253 | after the splice, each position holds the old entry at that position before the first `x` and the one after it from there on |
| MusicRules.ForgetDropsOne | music.js:253 | splicing out the first occurrence removes exactly one copy of the value when present, and nothing otherwise |
| MusicRules.ForgetKeepsNoDuplicates | music.js:396 | on a queue without repeats, splicing a value out removes it entirely and keeps the queue without repeats |
| MusicRules.FrontedKeepsOthers | music.js:421-424 | `next`'s splice-then-unshift puts the value first, keeps the queue without repeats, and adds the value only if it was absent |
| MusicRules.AppendedKeepsNoDuplicates | music.js:360-365 | appending a position that is not queued keeps the user queue without repeats |
| MusicRules.TailKeepsNoDuplicates | music.js:334 | popping the front of a queue without repeats leaves it without repeats |
| MusicRules.ReadPosition | music.js:249-251 | a query read as a position is always a valid 0-based catalog index |
| MusicRules.RemoveTarget | music.js:206-239 | the entry `remove` picks is always inside the catalog |
| MusicRules.RemoveByPosition | music.js:207-215 | a number n >= 1 names entry n-1 when n is at most the catalog size, and nothing beyond it |
| MusicRules.RemoveByText | music.js:216-238 | any other query removes the first entry with that exact url; failing that, the best title at .75, and nothing exactly when no title reaches .75 |
| MusicRules.RemovedUrlIsGone | music.js:217-222 | removing by a url the catalog holds once leaves no entry with that url, and every remaining entry was there before |
| MusicRules.DequeueTarget | music.js:389-412 | the position `dequeue` acts on is always inside the catalog |
| MusicRules.DequeueMissesFirstTitle | music.js:409-411 | a title whose best match is the first catalog entry dequeues nothing |
| MusicRules.PlayTargetOf | music.js:246-322 | the entry `play` starts is always inside the catalog |
| MusicRules.PlayByTitle | music.js:300-318 | text that is no link plays the best catalog title at .75, and goes through `add` exactly when no title reaches .75 |
| MusicRules.Stripped | music.js:185 | a search title loses its site's suffix exactly when it ends with it, and the rest is a prefix of the title; without a configured suffix, or when the title does not end with it, the title is kept whole |
| MusicRules.StrippedTitles | music.js:184-185 | one stripped title per search result |
| MusicRules.AddTarget | music.js:138-204 | `add` reports an existing title only from the catalog (for text, only when some title reaches .75); it appends a link only under a url the catalog lacks, and a search hit only with a non-empty title and url; without a provider answer it does nothing |
| MusicRules.AddFindsKnown | music.js:139-177 | a link already in the catalog, or text whose best title reaches .75, is reported as existing with that title |
| MusicRules.AppendedIsFound | music.js:144-149 | a good entry appended under a new url is, after pruning, the first entry with that url |
| MusicRules.AddTwiceFindsIt | music.js:139-150 | adding a new YouTube video and then adding it again reports the first title as existing |
| MusicRules.FirstFreshIsFirstNotRecent | music.js:328-331 | the cyclic scan from the random start returns a position in range that is not recent, with every position it passed recent; it finds none exactly when every position is recent |
| MusicRules.ShortRecencyLetsScanEnd | music.js:330 | when fewer positions are recent than the catalog holds, the scan ends |
| MusicRules.RandomIndex | music.js:326-331 | the random choice is in range and, for more than 10 songs, not recent |
| MusicRules.SequentialNext | music.js:456-458 | with shuffle off, the next position is in range |
| MusicRules.SequentialNextWraps | music.js:456-458 | with shuffle off, the next song follows the current one and wraps to 0 after the last |
| MusicRules.SkipPick | music.js:438-463 | `skip` picks the queue's front when something is queued; when shuffling, a position in range that for more than 10 songs is not recent; otherwise the next position in range |
| MusicRules.RandomPick | music.js:326-335 | `play` without a query takes the queue's front when something is queued, and otherwise a random position in range |
| MusicRules.QueuedTitles | music.js:379-381 | one listed title per queued position |
| MusicRules.LongestFit | music.js:379-382 | from a prefix that fits, the chosen prefix still fits, and adding one more title would not |
| MusicRules.Listing | music.js:378-385 | the fenced listing is under 2000 UTF-16 units, the `length` the source checks |
| MusicRules.ListingIsLongestFit | music.js:378-385 | the queue listing holds a prefix of the queue whose joined titles plus 7 stay under 2000 UTF-16 units, and no longer prefix does |
| MusicRules.ReplayedIsNewest | music.js:252-255 | replaying a position leaves it newest in `recent` and keeps `recent` free of repeats |
| MusicRules.PushedStaysDistinct | music.js:336 | pushing a position that is not recent keeps `recent` free of repeats, with that position newest |
| MusicBot.Music.constructor | music.js:61-67 | nothing is playing; `recent` has capacity half the catalog and `upcoming` is unbounded; both are empty |
| MusicBot.Music.Update | music.js:69-76 | the catalog becomes `Pruned` of the old one and `recent`'s capacity half its new size; the queues' contents, `playing` and `readable` are unchanged |
| MusicBot.Music.Add | music.js:138-204 | the reply and new catalog follow `AddTarget`: an existing title with exist=true, or an appended and pruned entry with exist=false, or the search's title with no change, or no reply |
| MusicBot.Music.Remove | music.js:206-240 | deletes the entry `RemoveTarget` names from both arrays, prunes, and returns its title; otherwise returns nothing and changes nothing |
| MusicBot.Music.PickRandom | music.js:326-331 | the scanning loop returns `RandomIndex` of the recent queue |
| MusicBot.Music.Start | music.js:336-349 | the position becomes the newest entry of `recent` and `playing` its title; the stream opens when one is obtained |
| MusicBot.Music.Play | music.js:246-352 | a chosen entry is moved to the newest place of `recent` and played; without a query the queue's front or a random position is played; the scan that never ends, the `add` path and the silent paths change nothing |
| MusicBot.Music.Skip | music.js:438-479 | idle without a playing song; otherwise plays the queue's front (taken out of `recent` first), a random pick, or the next song (taken out of `recent` first) |
| MusicBot.Music.QueueSong | music.js:354-376 | a position in range is appended to `upcoming` unless already there, with its title and whether it was; an empty query gives the listing |
| MusicBot.Music.ListQueue | music.js:377-386 | the listing loop returns `Listing`: the fenced titles of the longest prefix of the queue that keeps the message under 2000 UTF-16 units; the text is under 2000 units |
| MusicBot.Music.Dequeue | music.js:389-414 | the position `DequeueTarget` names leaves `upcoming` and its title is returned if it was queued; otherwise nothing changes; the re-entering number path throws |
| MusicBot.Music.Next | music.js:416-436 | a position in range moves to the front of `upcoming`, keeping the queue without repeats, and its title is returned |

## Left out

- Network and provider calls are not modelled: `google`, `scResolve`, the YouTube URL check and video-id extraction, `getBasicInfo`, and the streams from `YouTube(...)` and `request.get`. Their answers are parameters.
- The Gist mirroring and `playlist.json` writes of `update` and `list` are file and remote I/O and are not modelled.
- `list` and `shuffle` are left out. One is Gist I/O only; the other re-reads the configuration, and the shuffle setting is a parameter here.
- The asynchronous continuations through `add` in `play`, `queue` and `next` are not modelled. The model stops at the decision to call `add` (`ViaAdd`, `QueueViaAdd`, `NextViaAdd`); `add` itself is modelled.
- `Math.random` is not modelled: the random start position is a parameter below the catalog size.
- `MusicBot.Music.Play`: the random scan that never ends is the outcome `Spins`, with no state change, rather than a hang.
- `MusicBot.Music.Skip`: the same holds for `skip`'s random scan.
- `MusicBot.Music.Dequeue`: the re-entry with a number throws in the source, either a `TypeError` from `toLowerCase` or a stack overflow. It is the outcome `Throws` with no change.
- Strings.NumberOf reads only optional spaces around decimal digits. Other whitespace, signs, fractions, exponents, `Infinity` and the hexadecimal, binary and octal forms (`0x…`, `0b…`, `0o…`) of `Number` read as NaN here. So when no title matches, `dequeue("Infinity")` changes nothing in the model, where the source keeps the truthy infinite index, re-enters and throws. A negative number would reach `splice` with a negative index, which is not modelled.
- Strings.Lower maps only ASCII letters, with no Unicode case mapping.
- MusicRules.Stripped does not model a site without a configured suffix whose title ends in "undefined". The source throws there when reading `.length` of `undefined`.
- MusicRules.AddTarget treats a missing `items` field of the search answer as an empty list.
- MusicBot.Music.constructor requires the two catalog arrays to have the same length. The source loads them from `playlist.json` without checking.
- The catalog is a field of `Music`, not a module-level object shared by every instance. The guild name is not modelled; it is used only for Gist.
- command.js and driver.js (Discord dispatch, voice connections, login, presence rotation) are not part of this model.
