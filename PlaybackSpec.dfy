/**
 The value-level view of the player manager: what one player looks like from
 the outside (its time-control status, whether it sits at time zero, whether
 it still has an item, whether it is muted, whether its end-of-media loop is
 registered), how the player calls the manager makes change that record, and
 what each manager operation does to the whole cache, seen as a map from
 video id to player record. The manager class proves its methods against
 these functions; the lemmas here state what the functions promise.
 */
module PlaybackSpec {
  import opened VideoModel

  /** `AVPlayer.timeControlStatus`. */
  datatype TimeControlStatus = Paused | WaitingToPlay | Playing

  /** The observable state of one player. */
  datatype PlayerState = PlayerState(
    status: TimeControlStatus,
    atStart: bool,          // at time zero (true after creation or a seek, false once the item has played to its end)
    hasItem: bool,          // `currentItem != nil`
    muted: bool,            // `isMuted`
    loopRegistered: bool)   // the end-of-media handler is installed

  /** Window radius: `preloadCount`. */
  const PreloadCount: int := 2

  /** A player as `AVPlayer(playerItem:)` leaves it: paused at time zero, item loaded. */
  const CreatedState: PlayerState := PlayerState(Paused, true, true, false, false)

  /** A player as `player(for:)` leaves it: unmuted and with its loop registered. */
  const NewPlayerState: PlayerState := CreatedState.(muted := false, loopRegistered := true)

  /** `play()`: with an item the player plays; without one it waits (nothing to play). */
  function AfterPlay(s: PlayerState): (r: PlayerState)
    ensures r.status != Paused
    ensures r.status == Playing <==> s.hasItem
    ensures r.(status := s.status) == s
  {
    s.(status := if s.hasItem then Playing else WaitingToPlay)
  }

  /** `pause()`. */
  function AfterPause(s: PlayerState): (r: PlayerState)
    ensures r.status == Paused
    ensures r.(status := s.status) == s
  {
    s.(status := Paused)
  }

  /** `seek(to: .zero)`. */
  function AfterSeekToStart(s: PlayerState): (r: PlayerState)
    ensures r.atStart
    ensures r.(atStart := s.atStart) == s
  {
    s.(atStart := true)
  }

  /** `replaceCurrentItem(with: nil)`. */
  function AfterClearItem(s: PlayerState): (r: PlayerState)
    ensures !r.hasItem
    ensures r.(hasItem := s.hasItem) == s
  {
    s.(hasItem := false)
  }

  /** What eviction and teardown do to a player before dropping it: pause, then detach the item. */
  function Released(s: PlayerState): (r: PlayerState)
    ensures r.status == Paused && !r.hasItem
    ensures r.(status := s.status, hasItem := s.hasItem) == s
  {
    AfterClearItem(AfterPause(s))
  }

  /** The item plays to its end: the position leaves time zero. This is the event that posts the
      end-of-media notification the looping handler observes. */
  function PlayedToEnd(s: PlayerState): (r: PlayerState)
    ensures !r.atStart
    ensures r.(atStart := s.atStart) == s
  {
    s.(atStart := false)
  }

  /** The end-of-media handler: `seek(to: .zero)` then `play()`. */
  function Looped(s: PlayerState): (r: PlayerState)
    ensures s.hasItem ==> r.atStart && r.status == Playing
    ensures r.(status := s.status, atStart := s.atStart) == s
  {
    AfterPlay(AfterSeekToStart(s))
  }

  /** The handler undoes the end of the item: a player that has played to its end is back at
      time zero and playing, with every other field as it was before the end. */
  lemma LoopAfterEndRestarts(s: PlayerState)
    requires s.hasItem
    ensures !PlayedToEnd(s).atStart
    ensures Looped(PlayedToEnd(s)).atStart && Looped(PlayedToEnd(s)).status == Playing
    ensures Looped(PlayedToEnd(s)) == s.(atStart := true, status := Playing)
  {
  }

  /** `togglePlayPause` on one player: a paused player plays, any other is paused. */
  function Toggled(s: PlayerState): (r: PlayerState)
    ensures r.status == Paused <==> s.status != Paused
    ensures r.(status := s.status) == s
  {
    if s.status == Paused then AfterPlay(s) else AfterPause(s)
  }

  /** `play()` and `pause()` are idempotent. */
  lemma PlayPauseIdempotent(s: PlayerState)
    ensures AfterPlay(AfterPlay(s)) == AfterPlay(s)
    ensures AfterPause(AfterPause(s)) == AfterPause(s)
  {
  }

  /** Toggling twice restores a player that has its item and is playing or paused. */
  lemma ToggleTwiceRestores(s: PlayerState)
    requires s.hasItem && s.status != WaitingToPlay
    ensures Toggled(Toggled(s)) == s
  {
  }

  /** The player cache, seen by value: video id to player state. */
  type Cache = map<string, PlayerState>

  /** Every cached player has its item and its loop (what `player(for:)` sets up). */
  predicate WellFormed(cache: Cache)
  {
    forall id :: id in cache ==> cache[id].hasItem && cache[id].loopRegistered
  }

  /** The id of the video at `index`, when `index` is in bounds. */
  function CurrentId(videos: seq<Video>, index: nat): (r: Option<string>)
    ensures r.Some? <==> index < |videos|
    ensures r.Some? ==> r.value == videos[index].id
  {
    if index < |videos| then Some(videos[index].id) else None
  }

  /** `player(for:)` on the cache: an existing entry is kept as is, a missing one is created. */
  function WithPlayer(cache: Cache, id: string): (r: Cache)
    ensures r.Keys == cache.Keys + {id}
    ensures |r| <= |cache| + 1
    ensures forall k :: k in cache ==> r[k] == cache[k]
    ensures id !in cache ==> r[id] == NewPlayerState
  {
    if id in cache then cache else cache[id := NewPlayerState]
  }

  /** `player(for:)` applied to each id in turn. */
  function WithPlayers(cache: Cache, ids: seq<string>): (r: Cache)
    ensures forall k :: k in r <==> k in cache || k in ids
    ensures forall k :: k in cache ==> r[k] == cache[k]
    ensures forall k :: k in r && k !in cache ==> r[k] == NewPlayerState
    decreases |ids|
  {
    if ids == [] then cache
    else WithPlayer(WithPlayers(cache, ids[..|ids| - 1]), ids[|ids| - 1])
  }

  /** A cache that keeps every old entry and adds fresh players exactly for the missing ids of
      `ids` is what `player(for:)` on each of those ids produces. */
  lemma {:induction false} WithPlayersCharacterised(before: Cache, after: Cache, ids: seq<string>)
    requires forall k :: k in after <==> k in before || k in ids
    requires forall k :: k in before ==> after[k] == before[k]
    requires forall k :: k in after && k !in before ==> after[k] == NewPlayerState
    ensures after == WithPlayers(before, ids)
  {
    var r := WithPlayers(before, ids);
    assert after.Keys == r.Keys;
    forall k | k in after
      ensures after[k] == r[k]
    {
    }
  }

  /** A cache that keeps every old entry and, when `id` was missing, adds a fresh player under
      it and nothing else, is what `player(for:)` produces. */
  lemma WithPlayerCharacterised(before: Cache, after: Cache, id: string)
    requires after.Keys == before.Keys + {id}
    requires forall k :: k in before ==> after[k] == before[k]
    requires id !in before ==> after[id] == NewPlayerState
    ensures after == WithPlayer(before, id)
  {
  }

  /** `playCurrentVideo`: creates the current player if needed, then plays it. */
  function PlayCurrent(videos: seq<Video>, index: nat, cache: Cache): (r: Cache)
    ensures index >= |videos| ==> r == cache
    ensures index < |videos| ==> r.Keys == cache.Keys + {videos[index].id}
    ensures index < |videos| ==> r[videos[index].id].status != Paused
    ensures index < |videos| && WellFormed(cache) ==> r[videos[index].id].status == Playing
    ensures index < |videos| && videos[index].id in cache ==>
              r[videos[index].id] == AfterPlay(cache[videos[index].id])
    ensures index < |videos| && videos[index].id !in cache ==> r[videos[index].id] == AfterPlay(NewPlayerState)
    ensures forall k :: k in cache && CurrentId(videos, index) != Some(k) ==> r[k] == cache[k]
  {
    if index < |videos| then
      var id := videos[index].id;
      var c := WithPlayer(cache, id);
      c[id := AfterPlay(c[id])]
    else cache
  }

  /** `pauseCurrentVideo`, and the first half of `onIndexChanged`: pause the current player if cached. */
  function PauseCurrent(videos: seq<Video>, index: nat, cache: Cache): (r: Cache)
    ensures r.Keys == cache.Keys
    ensures forall k :: k in cache && CurrentId(videos, index) != Some(k) ==> r[k] == cache[k]
    ensures forall k :: k in cache && CurrentId(videos, index) == Some(k) ==> r[k] == AfterPause(cache[k])
  {
    if index < |videos| && videos[index].id in cache then
      var id := videos[index].id;
      cache[id := AfterPause(cache[id])]
    else cache
  }

  /** The second half of `onIndexChanged`: play the current player only if it is already cached. */
  function PlayIfCached(videos: seq<Video>, index: nat, cache: Cache): (r: Cache)
    ensures r.Keys == cache.Keys
    ensures forall k :: k in cache && CurrentId(videos, index) != Some(k) ==> r[k] == cache[k]
    ensures forall k :: k in cache && CurrentId(videos, index) == Some(k) ==> r[k] == AfterPlay(cache[k])
  {
    if index < |videos| && videos[index].id in cache then
      var id := videos[index].id;
      cache[id := AfterPlay(cache[id])]
    else cache
  }

  /** `onIndexChanged(from:to:)`: pause the old current player, then play the new one, creating nothing. */
  function IndexChanged(videos: seq<Video>, cache: Cache, from: nat, to: nat): (r: Cache)
    ensures r.Keys == cache.Keys
    ensures forall k :: k in cache && CurrentId(videos, from) != Some(k) && CurrentId(videos, to) != Some(k)
                        ==> r[k] == cache[k]
    ensures forall k :: k in cache && CurrentId(videos, to) == Some(k) ==> r[k].status != Paused
    ensures forall k :: k in cache && CurrentId(videos, to) == Some(k) ==> r[k] == AfterPlay(cache[k])
    ensures forall k :: k in cache && CurrentId(videos, from) == Some(k) && CurrentId(videos, to) != Some(k)
                        ==> r[k] == AfterPause(cache[k])
  {
    PlayIfCached(videos, to, PauseCurrent(videos, from, cache))
  }

  /** `togglePlayPause`: flips the current player if it is cached; otherwise nothing. */
  function ToggleCurrent(videos: seq<Video>, index: nat, cache: Cache): (r: Cache)
    ensures r.Keys == cache.Keys
    ensures forall k :: k in cache && CurrentId(videos, index) != Some(k) ==> r[k] == cache[k]
    ensures forall k :: k in cache && CurrentId(videos, index) == Some(k)
                        ==> (r[k].status == Paused <==> cache[k].status != Paused)
    ensures forall k :: k in cache && CurrentId(videos, index) == Some(k) ==> r[k] == Toggled(cache[k])
  {
    if index < |videos| && videos[index].id in cache then
      var id := videos[index].id;
      cache[id := Toggled(cache[id])]
    else cache
  }

  /** The end-of-media handler of the player cached under `id`. */
  function LoopAt(cache: Cache, id: string): (r: Cache)
    requires id in cache
    ensures r.Keys == cache.Keys
    ensures cache[id].hasItem ==> r[id].atStart && r[id].status == Playing
    ensures r[id] == Looped(cache[id])
    ensures forall k :: k in cache && k != id ==> r[k] == cache[k]
  {
    cache[id := Looped(cache[id])]
  }

  /** No operation ever leaves a cached player without its item or its loop: players are created
      ready, and play/pause/seek keep the item. */
  /** Follows directly from the contract of `WithPlayers`: every new entry is `NewPlayerState`. */
  lemma PreloadKeepsWellFormed(cache: Cache, ids: seq<string>)
    requires WellFormed(cache)
    ensures WellFormed(WithPlayers(cache, ids))
  {
  }

  lemma ControlsKeepWellFormed(videos: seq<Video>, index: nat, cache: Cache)
    requires WellFormed(cache)
    ensures WellFormed(PlayCurrent(videos, index, cache))
    ensures WellFormed(PauseCurrent(videos, index, cache))
    ensures WellFormed(ToggleCurrent(videos, index, cache))
  {
  }

  lemma IndexChangeKeepsWellFormed(videos: seq<Video>, from: nat, to: nat, cache: Cache)
    requires WellFormed(cache)
    ensures WellFormed(IndexChanged(videos, cache, from, to))
  {
    var paused := PauseCurrent(videos, from, cache);
    ControlsKeepWellFormed(videos, from, cache);
    assert WellFormed(PlayIfCached(videos, to, paused));
  }

  /** Looping keeps the item. (Eviction only removes entries, so it keeps the rule trivially.) */
  lemma LoopKeepsWellFormed(cache: Cache, id: string)
    requires WellFormed(cache) && id in cache
    ensures WellFormed(LoopAt(cache, id))
  {
  }

  /** Single-active-player invariant: only the player of the current video may be playing or waiting. */
  predicate OnlyCurrentActive(videos: seq<Video>, index: nat, cache: Cache)
  {
    forall id :: id in cache && cache[id].status != Paused ==> CurrentId(videos, index) == Some(id)
  }

  /** Under the invariant, at most one cached player is active, and none when the index is out of bounds. */
  lemma AtMostOneActive(videos: seq<Video>, index: nat, cache: Cache, a: string, b: string)
    requires OnlyCurrentActive(videos, index, cache)
    requires a in cache && cache[a].status != Paused
    requires b in cache && cache[b].status != Paused
    ensures a == b
    ensures index < |videos|
  {
    assert CurrentId(videos, index) == Some(a);
    assert CurrentId(videos, index) == Some(b);
  }

  /** An index change moves the invariant from the old index to the new one. */
  lemma IndexChangeKeepsSingleActive(videos: seq<Video>, cache: Cache, from: nat, to: nat)
    requires OnlyCurrentActive(videos, from, cache)
    ensures OnlyCurrentActive(videos, to, IndexChanged(videos, cache, from, to))
  {
  }

  /** An index change to a video that has no player, or past the end of the feed, leaves no
      player active when only the old current one was: `onIndexChanged` creates nothing to play. */
  lemma IndexChangeToUncachedStopsPlayback(videos: seq<Video>, cache: Cache, from: nat, to: nat)
    requires OnlyCurrentActive(videos, from, cache)
    requires to >= |videos| || videos[to].id !in cache
    ensures forall k :: k in IndexChanged(videos, cache, from, to) ==> IndexChanged(videos, cache, from, to)[k].status == Paused
  {
    IndexChangeKeepsSingleActive(videos, cache, from, to);
  }

  /** The direct controls of the current video keep the invariant. */
  lemma CurrentControlsKeepSingleActive(videos: seq<Video>, index: nat, cache: Cache)
    requires OnlyCurrentActive(videos, index, cache)
    ensures OnlyCurrentActive(videos, index, PlayCurrent(videos, index, cache))
    ensures OnlyCurrentActive(videos, index, PauseCurrent(videos, index, cache))
    ensures OnlyCurrentActive(videos, index, ToggleCurrent(videos, index, cache))
  {
  }

  /** Creating players never makes one active: a new player is paused. Follows directly from the
      contract of `WithPlayers`. */
  lemma PreloadKeepsSingleActive(videos: seq<Video>, index: nat, cache: Cache, ids: seq<string>)
    requires OnlyCurrentActive(videos, index, cache)
    ensures OnlyCurrentActive(videos, index, WithPlayers(cache, ids))
  {
  }

  /** Looping a player that was active when its media ended keeps the invariant. */
  lemma LoopKeepsSingleActive(videos: seq<Video>, index: nat, cache: Cache, id: string)
    requires OnlyCurrentActive(videos, index, cache)
    requires id in cache && cache[id].status != Paused
    ensures OnlyCurrentActive(videos, index, LoopAt(cache, id))
  {
  }

  /** As written, the end-of-media handler restarts its player whatever the current index is. A
      notification the main queue delivers after `onIndexChanged` has paused that player leaves two
      players active: here video "1" ended, the index moved to video "2", then the handler ran. */
  lemma LoopRestartsPausedPlayer()
    ensures var videos := [Video("1", "u1", "a", "d", 0), Video("2", "u2", "a", "d", 0)];
            var cache := map["1" := NewPlayerState, "2" := AfterPlay(NewPlayerState)];
            OnlyCurrentActive(videos, 1, cache)
            && LoopAt(cache, "1")["1"].status == Playing && LoopAt(cache, "1")["2"].status == Playing
            && !OnlyCurrentActive(videos, 1, LoopAt(cache, "1"))
  {
    var videos := [Video("1", "u1", "a", "d", 0), Video("2", "u2", "a", "d", 0)];
    var cache := map["1" := NewPlayerState, "2" := AfterPlay(NewPlayerState)];
    assert CurrentId(videos, 1) == Some("2");
  }

  /** The end-of-media handler restarting only the current video's player; any other player is
      rewound and stays as it is otherwise. */
  function LoopIfCurrent(videos: seq<Video>, index: nat, cache: Cache, id: string): (r: Cache)
    requires id in cache
    ensures r.Keys == cache.Keys
    ensures forall k :: k in cache && k != id ==> r[k] == cache[k]
    ensures CurrentId(videos, index) == Some(id) ==> r[id] == Looped(cache[id])
    ensures CurrentId(videos, index) != Some(id) ==> r[id] == AfterSeekToStart(cache[id])
  {
    if CurrentId(videos, index) == Some(id) then LoopAt(cache, id)
    else cache[id := AfterSeekToStart(cache[id])]
  }

  /** The guarded handler keeps the single-active invariant whatever state its player is in. */
  lemma LoopIfCurrentKeepsSingleActive(videos: seq<Video>, index: nat, cache: Cache, id: string)
    requires OnlyCurrentActive(videos, index, cache) && id in cache
    ensures OnlyCurrentActive(videos, index, LoopIfCurrent(videos, index, cache, id))
  {
  }

  function Max(a: int, b: int): int { if a >= b then a else b }

  function Min(a: int, b: int): int { if a <= b then a else b }

  /** The ids of a run of videos, in feed order. */
  function Ids(videos: seq<Video>): (ids: seq<string>)
    ensures |ids| == |videos|
    ensures forall k :: 0 <= k < |videos| ==> ids[k] == videos[k].id
  {
    if videos == [] then [] else Ids(videos[..|videos| - 1]) + [videos[|videos| - 1].id]
  }

  /** Every video of the run `lo..hi` has its id among the run's ids. */
  lemma IdsCover(videos: seq<Video>, lo: nat, hi: nat)
    requires lo <= hi < |videos|
    ensures forall j :: lo <= j <= hi ==> videos[j].id in Ids(videos[lo..hi + 1])
  {
    var ids := Ids(videos[lo..hi + 1]);
    forall j | lo <= j <= hi
      ensures videos[j].id in ids
    {
      assert ids[j - lo] == videos[j].id;
    }
  }

  /** `start` of `preloadVideos(around:)`. */
  function PreloadStart(index: int): (r: int)
    ensures 0 <= r && index - PreloadCount <= r
    ensures r == 0 || r == index - PreloadCount
  {
    Max(0, index - PreloadCount)
  }

  /** `end` of `preloadVideos(around:)`, as written: clamped to the count, not to the last index. */
  function PreloadEnd(count: nat, index: int): (r: int)
    ensures r <= count && r <= index + PreloadCount
    ensures r == count || r == index + PreloadCount
  {
    Min(count, index + PreloadCount)
  }

  /** The guard `end > start` skips the loop, or every index of `start...end` is in bounds. */
  predicate PreloadInBounds(count: nat, index: int)
  {
    PreloadEnd(count, index) <= PreloadStart(index) || PreloadEnd(count, index) < count
  }

  /** When the preload loop is safe: an empty feed, an index whose window ends before the
      last video, or an index so far out that the guard skips the loop. */
  lemma PreloadInBoundsExactly(count: nat, index: int)
    ensures PreloadInBounds(count, index) <==>
            count == 0 || index + PreloadCount < count || index <= -PreloadCount || index >= count + PreloadCount
  {
  }

  /** As written, preloading around either of the last two videos reads one past the end of the feed. */
  lemma PreloadOutOfBoundsNearEnd(count: nat, index: int)
    requires 0 <= index < count
    requires index + PreloadCount >= count
    ensures PreloadStart(index) < PreloadEnd(count, index) == count
    ensures !PreloadInBounds(count, index)
  {
  }

  /** The ids `preloadVideos(around:)` asks `player(for:)` for, in order: indices `start...end`. */
  function PreloadIds(videos: seq<Video>, index: int): (ids: seq<string>)
    requires PreloadInBounds(|videos|, index)
    ensures PreloadEnd(|videos|, index) <= PreloadStart(index) ==> ids == []
    ensures PreloadStart(index) < PreloadEnd(|videos|, index) ==>
              |ids| == PreloadEnd(|videos|, index) - PreloadStart(index) + 1
              && forall k :: 0 <= k < |ids| ==> ids[k] == videos[PreloadStart(index) + k].id
  {
    var start, end := PreloadStart(index), PreloadEnd(|videos|, index);
    if end <= start then [] else Ids(videos[start..end + 1])
  }

  /** The last index of the preload window once clamped to the feed. */
  function WindowLast(count: nat, index: int): int
  {
    Min(count - 1, index + PreloadCount)
  }

  /** The window `[index - 2, index + 2]` clamped to the feed's bounds. */
  function WindowIds(videos: seq<Video>, index: int): (ids: seq<string>)
    ensures forall j :: 0 <= j < |videos| && index - PreloadCount <= j <= index + PreloadCount ==> videos[j].id in ids
    ensures forall id :: id in ids ==> exists j :: 0 <= j < |videos| && index - PreloadCount <= j <= index + PreloadCount
                                                   && videos[j].id == id
  {
    var start, last := PreloadStart(index), WindowLast(|videos|, index);
    if last < start then []
    else
      var ids := Ids(videos[start..last + 1]);
      assert forall j :: start <= j <= last ==> ids[j - start] == videos[j].id;
      ids
  }

  /** The eviction filter of `cleanupDistantPlayers(from:)`, as written: an id missing from the
      feed is selected, and so is any id whose index passes `keepStart < i || i < keepEnd`,
      which every index does. */
  function ShouldRemove(videos: seq<Video>, index: int, id: string): (r: bool)
    ensures r
  {
    var keepStart := index - PreloadCount - 1;
    var keepEnd := index + PreloadCount + 1;
    match FirstIndex(videos, id)
    case None => true
    case Some(videoIndex) => keepStart < videoIndex || videoIndex < keepEnd
  }

  /** The eviction filter with the comparison turned the intended way: an id is selected when it
      is missing from the feed or its index lies outside `[keepStart, keepEnd]`. */
  function OutsideRetentionBand(videos: seq<Video>, index: int, id: string): (r: bool)
    ensures !r ==> exists j :: 0 <= j < |videos| && videos[j].id == id
                              && index - PreloadCount - 1 <= j <= index + PreloadCount + 1
    ensures (forall j :: 0 <= j < |videos| && videos[j].id == id
                         ==> j < index - PreloadCount - 1 || j > index + PreloadCount + 1) ==> r
  {
    var keepStart := index - PreloadCount - 1;
    var keepEnd := index + PreloadCount + 1;
    match FirstIndex(videos, id)
    case None => true
    case Some(videoIndex) => videoIndex < keepStart || keepEnd < videoIndex
  }

  /** In a feed without repeated ids, the corrected filter selects exactly the ids that are
      absent or sit more than `preloadCount + 1` positions away from `index`. */
  lemma OutsideRetentionBandExactly(videos: seq<Video>, index: int, id: string)
    requires DistinctIds(videos)
    ensures OutsideRetentionBand(videos, index, id) <==>
            forall j :: 0 <= j < |videos| && videos[j].id == id
                        ==> j < index - PreloadCount - 1 || j > index + PreloadCount + 1
  {
    if OutsideRetentionBand(videos, index, id) {
      forall j | 0 <= j < |videos| && videos[j].id == id
        ensures j < index - PreloadCount - 1 || j > index + PreloadCount + 1
      {
        FirstIndexOfDistinct(videos, j);
      }
    }
  }
}
