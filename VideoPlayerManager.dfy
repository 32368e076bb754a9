/**
 The playback-resource manager (`class VideoPlayerManager`): an ordered feed,
 a cursor into it, and a cache of players keyed by video id. Players are
 objects, as `AVPlayer` is a reference type: a player dropped from the cache
 still exists, and its final state (paused, no item) stays observable.
 */
module PlayerManager {
  import opened VideoModel
  import opened PlaybackSpec

  /** The part of `AVPlayer` the manager uses: one mutable observable state. */
  class Player {
    const url: string
    var state: PlayerState

    /** `AVPlayer(playerItem: AVPlayerItem(url:))`. */
    constructor (url: string)
      ensures this.url == url && state == CreatedState
    {
      this.url := url;
      state := CreatedState;
    }

    method Play()
      modifies this
      ensures state == AfterPlay(old(state))
    {
      state := AfterPlay(state);
    }

    method Pause()
      modifies this
      ensures state == AfterPause(old(state))
    {
      state := AfterPause(state);
    }

    /** `seek(to: .zero)`. */
    method SeekToStart()
      modifies this
      ensures state == AfterSeekToStart(old(state))
    {
      state := AfterSeekToStart(state);
    }

    /** The item plays to its end, which posts the end-of-media notification. */
    method PlayToEnd()
      modifies this
      ensures state == PlayedToEnd(old(state))
    {
      state := PlayedToEnd(state);
    }

    /** `replaceCurrentItem(with: nil)`. */
    method ReplaceCurrentItemWithNil()
      modifies this
      ensures state == AfterClearItem(old(state))
    {
      state := AfterClearItem(state);
    }

    /** `isMuted = muted`. */
    method SetMuted(muted: bool)
      modifies this
      ensures state == old(state).(muted := muted)
    {
      state := state.(muted := muted);
    }
  }

  class VideoPlayerManager {
    var videos: seq<Video>
    var currentIndex: nat
    var playerCache: map<string, Player>

    /** No two ids share a player: each entry is its own `AVPlayer`. */
    ghost predicate Valid()
      reads this`playerCache
    {
      forall a, b :: a in playerCache && b in playerCache && a != b ==> playerCache[a] != playerCache[b]
    }

    /** The cache seen by value. */
    ghost function Snapshot(): (c: Cache)
      reads this`playerCache, playerCache.Values
    {
      map id | id in playerCache :: playerCache[id].state
    }

    /** A fresh manager: empty feed, index 0, no players. */
    constructor ()
      ensures Valid()
      ensures videos == [] && currentIndex == 0 && playerCache == map[]
    {
      videos := [];
      currentIndex := 0;
      playerCache := map[];
    }

    /** Assignment to `videos`: a plain stored property, so only the feed changes; players already
        cached stay, and no index hook runs. */
    method SetVideos(feed: seq<Video>)
      requires Valid()
      modifies this`videos
      ensures Valid()
      ensures videos == feed && currentIndex == old(currentIndex) && playerCache == old(playerCache)
    {
      videos := feed;
    }

    /** `player(for:)`: at most one player per id, created on first use. */
    method PlayerFor(video: Video) returns (player: Player)
      requires Valid()
      modifies this
      ensures Valid()
      ensures videos == old(videos) && currentIndex == old(currentIndex)
      ensures video.id in old(playerCache) ==> player == old(playerCache)[video.id] && playerCache == old(playerCache)
      ensures video.id !in old(playerCache) ==>
                fresh(player) && player.url == video.videoUrl && player.state == NewPlayerState && playerCache == old(playerCache)[video.id := player]
      ensures video.id in playerCache && playerCache[video.id] == player
      ensures forall id :: id in old(playerCache) ==> id in playerCache && playerCache[id] == old(playerCache)[id]
    {
      if video.id in playerCache {
        return playerCache[video.id];
      }
      player := new Player(video.videoUrl);
      player.SetMuted(false);
      SetupLooping(player);
      assert player.state == NewPlayerState;
      playerCache := playerCache[video.id := player];
    }

    /** `setupLooping(player:)`: installs the end-of-media handler (see `OnEndOfMedia`). */
    method SetupLooping(player: Player)
      modifies player
      ensures player.state == old(player.state).(loopRegistered := true)
    {
      player.state := player.state.(loopRegistered := true);
    }

    /** `playerCache[id]?.pause()` for an id known to be cached. */
    method PauseCached(id: string)
      requires Valid() && id in playerCache
      modifies playerCache[id]
      ensures Valid()
      ensures Snapshot() == old(Snapshot())[id := AfterPause(old(Snapshot())[id])]
    {
      playerCache[id].Pause();
      assert forall k :: k in playerCache && k != id ==> playerCache[k] != playerCache[id];
    }

    /** `playerCache[id]?.play()` for an id known to be cached. */
    method PlayCached(id: string)
      requires Valid() && id in playerCache
      modifies playerCache[id]
      ensures Valid()
      ensures Snapshot() == old(Snapshot())[id := AfterPlay(old(Snapshot())[id])]
    {
      playerCache[id].Play();
      assert forall k :: k in playerCache && k != id ==> playerCache[k] != playerCache[id];
    }

    /** Assignment to `currentIndex` with its `didSet`: only a different value triggers
        `onIndexChanged`. */
    method SetCurrentIndex(newIndex: nat)
      requires Valid()
      modifies this, playerCache.Values
      ensures Valid()
      ensures currentIndex == newIndex
      ensures videos == old(videos) && playerCache == old(playerCache)
      ensures old(currentIndex) == newIndex ==> Snapshot() == old(Snapshot())
      ensures old(currentIndex) != newIndex ==>
                Snapshot() == IndexChanged(videos, old(Snapshot()), old(currentIndex), newIndex)
    {
      var oldValue := currentIndex;
      currentIndex := newIndex;
      if oldValue != currentIndex {
        OnIndexChanged(oldValue, currentIndex);
      }
    }

    /** `onIndexChanged(from:to:)`: pauses the old current player and plays the new one,
        each only if it is already cached. */
    method OnIndexChanged(oldIndex: nat, newIndex: nat)
      requires Valid()
      modifies playerCache.Values
      ensures Valid()
      ensures Snapshot() == IndexChanged(videos, old(Snapshot()), oldIndex, newIndex)
    {
      if oldIndex < |videos| {
        var video := videos[oldIndex];
        if video.id in playerCache {
          PauseCached(video.id);
        }
      }
      ghost var paused := Snapshot();
      assert paused == PauseCurrent(videos, oldIndex, old(Snapshot()));
      if newIndex < |videos| {
        var video := videos[newIndex];
        if video.id in playerCache {
          PlayCached(video.id);
        }
      }
    }

    /** `playCurrentVideo`: creates the current player if needed and plays it; nothing
        when the index is out of bounds. */
    method PlayCurrentVideo()
      requires Valid()
      modifies this, playerCache.Values
      ensures Valid()
      ensures videos == old(videos) && currentIndex == old(currentIndex)
      ensures forall id :: id in old(playerCache) ==> id in playerCache && playerCache[id] == old(playerCache)[id]
      ensures Snapshot() == PlayCurrent(videos, currentIndex, old(Snapshot()))
    {
      if currentIndex >= |videos| {
        return;
      }
      var video := videos[currentIndex];
      EnsurePlayer(video);
      ghost var created := playerCache;
      PlayCached(video.id);
      assert playerCache == created;
    }

    /** `player(for:)` with its result unused, seen by value: the cache gains a fresh player
        for `video` when it had none, and nothing else changes. */
    method EnsurePlayer(video: Video)
      requires Valid()
      modifies this
      ensures Valid()
      ensures videos == old(videos) && currentIndex == old(currentIndex)
      ensures forall id :: id in old(playerCache) ==> id in playerCache && playerCache[id] == old(playerCache)[id]
      ensures video.id in playerCache
      ensures video.id !in old(playerCache) ==> fresh(playerCache[video.id])
      ensures Snapshot() == WithPlayer(old(Snapshot()), video.id)
    {
      var player := PlayerFor(video);
      WithPlayerCharacterised(old(Snapshot()), Snapshot(), video.id);
    }

    /** `pauseCurrentVideo`: pauses the current player if it is cached. */
    method PauseCurrentVideo()
      requires Valid()
      modifies playerCache.Values
      ensures Valid()
      ensures Snapshot() == PauseCurrent(videos, currentIndex, old(Snapshot()))
    {
      if currentIndex >= |videos| {
        return;
      }
      var video := videos[currentIndex];
      if video.id in playerCache {
        PauseCached(video.id);
      }
    }

    /** `togglePlayPause`: a paused current player plays, any other status pauses it;
        nothing when the current video has no player. */
    method TogglePlayPause()
      requires Valid()
      modifies playerCache.Values
      ensures Valid()
      ensures Snapshot() == ToggleCurrent(videos, currentIndex, old(Snapshot()))
    {
      if currentIndex >= |videos| {
        return;
      }
      var video := videos[currentIndex];
      if video.id !in playerCache {
        return;
      }
      var player := playerCache[video.id];
      if player.state.status == Paused {
        PlayCached(video.id);
      } else {
        PauseCached(video.id);
      }
    }

    /** The looping handler, run when the item of the player cached under `id` plays to its end. */
    method OnEndOfMedia(id: string)
      requires Valid() && id in playerCache
      modifies playerCache[id]
      ensures Valid()
      ensures Snapshot() == LoopAt(old(Snapshot()), id)
    {
      var player := playerCache[id];
      player.SeekToStart();
      player.Play();
      assert forall k :: k in playerCache && k != id ==> playerCache[k] != player;
    }

    /** The looping handler restarting its player only while that player's video is the current
        one; otherwise it only rewinds it. */
    method OnEndOfMediaCurrentOnly(id: string)
      requires Valid() && id in playerCache
      modifies playerCache[id]
      ensures Valid()
      ensures Snapshot() == LoopIfCurrent(videos, currentIndex, old(Snapshot()), id)
    {
      var player := playerCache[id];
      player.SeekToStart();
      if currentIndex < |videos| && videos[currentIndex].id == id {
        player.Play();
      }
      assert forall k :: k in playerCache && k != id ==> playerCache[k] != player;
    }

    /** `cleanup()`: every cached player is paused and loses its item, then the cache is emptied. */
    method Cleanup()
      requires Valid()
      modifies this, playerCache.Values
      ensures Valid()
      ensures playerCache == map[]
      ensures videos == old(videos) && currentIndex == old(currentIndex)
      ensures forall p :: p in old(playerCache.Values) ==> p.state == Released(old(p.state))
    {
      var remaining := playerCache.Values;
      while remaining != {}
        invariant remaining <= old(playerCache.Values)
        invariant playerCache == old(playerCache)
        invariant videos == old(videos) && currentIndex == old(currentIndex)
        invariant forall p :: p in old(playerCache.Values) ==>
                    p.state == if p in remaining then old(p.state) else Released(old(p.state))
        decreases remaining
      {
        var player :| player in remaining;
        player.Pause();
        player.ReplaceCurrentItemWithNil();
        remaining := remaining - {player};
      }
      playerCache := map[];
    }

    /** The removal loop of `cleanupDistantPlayers(from:)`: each selected player is paused,
        loses its item and leaves the cache; the others are untouched. */
    method RemovePlayers(ids: set<string>)
      requires Valid() && ids <= playerCache.Keys
      modifies this, playerCache.Values
      ensures Valid()
      ensures videos == old(videos) && currentIndex == old(currentIndex)
      ensures playerCache == old(playerCache) - ids
      ensures forall id :: id in ids ==> old(playerCache)[id].state == Released(old(playerCache[id].state))
      ensures forall id :: id in playerCache ==> playerCache[id].state == old(playerCache[id].state)
      ensures Snapshot() == old(Snapshot()) - ids
    {
      var remaining := ids;
      while remaining != {}
        invariant remaining <= ids
        invariant Valid()
        invariant videos == old(videos) && currentIndex == old(currentIndex)
        invariant playerCache == old(playerCache) - (ids - remaining)
        invariant forall id :: id in old(playerCache) ==>
                    old(playerCache)[id].state == if id in ids - remaining then Released(old(playerCache[id].state))
                                                  else old(playerCache[id].state)
        decreases remaining
      {
        var id :| id in remaining;
        if id in playerCache {
          var player := playerCache[id];
          player.Pause();
          player.ReplaceCurrentItemWithNil();
          playerCache := playerCache - {id};
        }
        remaining := remaining - {id};
      }
    }

    /** `cleanupDistantPlayers(from:)` as written: the filter selects every cached id, so every
        player is released and the cache ends empty. */
    method CleanupDistantPlayers(index: int)
      requires Valid()
      modifies this, playerCache.Values
      ensures Valid()
      ensures videos == old(videos) && currentIndex == old(currentIndex)
      ensures playerCache == map[]
      ensures forall id :: id in old(playerCache) ==> old(playerCache)[id].state == Released(old(playerCache[id].state))
    {
      var idsToRemove := set id | id in playerCache && ShouldRemove(videos, index, id);
      RemovePlayers(idsToRemove);
    }

    /** `cleanupDistantPlayers(from:)` with the comparison turned the intended way: only ids missing
        from the feed or outside `[index - 3, index + 3]` are released and dropped. */
    method CleanupDistantPlayersBanded(index: int)
      requires Valid()
      modifies this, playerCache.Values
      ensures Valid()
      ensures videos == old(videos) && currentIndex == old(currentIndex)
      ensures forall id :: id in playerCache <==> id in old(playerCache) && !OutsideRetentionBand(videos, index, id)
      ensures forall id :: id in old(playerCache) && OutsideRetentionBand(videos, index, id) ==>
                old(playerCache)[id].state == Released(old(playerCache[id].state))
      ensures forall id :: id in playerCache ==>
                playerCache[id] == old(playerCache)[id] && playerCache[id].state == old(playerCache[id].state)
    {
      var idsToRemove := set id | id in playerCache && OutsideRetentionBand(videos, index, id);
      RemovePlayers(idsToRemove);
    }

    /** The loop of `preloadVideos(around:)`: `player(for:)` on every video of `lo...hi`, in order.
        Afterwards the cache holds its old entries, the same objects, plus one new player in the
        created state for each id of the run that was missing. */
    method PreloadRange(lo: nat, hi: nat)
      requires Valid() && lo <= hi < |videos|
      modifies this
      ensures Valid()
      ensures videos == old(videos) && currentIndex == old(currentIndex)
      ensures forall id :: id in old(playerCache) ==> id in playerCache && playerCache[id] == old(playerCache)[id]
      ensures forall id :: id in playerCache <==> id in old(playerCache) || id in Ids(videos[lo..hi + 1])
      ensures forall id :: id in playerCache && id !in old(playerCache) ==>
                fresh(playerCache[id]) && playerCache[id].state == NewPlayerState
    {
      ghost var done: seq<string> := [];
      for i := lo to hi + 1
        invariant Valid()
        invariant videos == old(videos) && currentIndex == old(currentIndex)
        invariant forall id :: id in old(playerCache) ==> id in playerCache && playerCache[id] == old(playerCache)[id]
        invariant |done| == i - lo && forall k :: 0 <= k < |done| ==> done[k] == videos[lo + k].id
        invariant forall id :: id in playerCache <==> id in old(playerCache) || id in done
        invariant forall id :: id in playerCache && id !in old(playerCache) ==>
                    fresh(playerCache[id]) && playerCache[id].state == NewPlayerState
      {
        var player := PlayerFor(videos[i]);
        done := done + [videos[i].id];
      }
      assert done == Ids(videos[lo..hi + 1]);
    }

    /** `preloadVideos(around:)` as written: asks for a player for every index of `start...end`,
        where `end` is clamped to the count, so the caller must keep that range in bounds. */
    method PreloadVideos(index: int)
      requires Valid()
      requires PreloadInBounds(|videos|, index)
      modifies this
      ensures Valid()
      ensures videos == old(videos) && currentIndex == old(currentIndex)
      ensures forall id :: id in old(playerCache) ==> id in playerCache && playerCache[id] == old(playerCache)[id]
      ensures PreloadStart(index) < PreloadEnd(|videos|, index) ==>
                forall j :: PreloadStart(index) <= j <= PreloadEnd(|videos|, index) ==> videos[j].id in playerCache
      ensures Snapshot() == WithPlayers(old(Snapshot()), PreloadIds(videos, index))
    {
      var start := Max(0, index - PreloadCount);
      var end := Min(|videos|, index + PreloadCount);
      if end <= start {
        assert PreloadIds(videos, index) == [];
        return;
      }
      ghost var ids := Ids(videos[start..end + 1]);
      assert PreloadIds(videos, index) == ids;
      PreloadRange(start, end);
      WithPlayersCharacterised(old(Snapshot()), Snapshot(), ids);
      IdsCover(videos, start, end);
    }

    /** `preloadVideos(around:)` with the window clamped to the last index: every video within
        `preloadCount` positions of `index` gets a player, and no index is out of bounds. */
    method PreloadVideosClamped(index: int)
      requires Valid()
      modifies this
      ensures Valid()
      ensures videos == old(videos) && currentIndex == old(currentIndex)
      ensures forall id :: id in old(playerCache) ==> id in playerCache && playerCache[id] == old(playerCache)[id]
      ensures forall j :: 0 <= j < |videos| && index - PreloadCount <= j <= index + PreloadCount ==> videos[j].id in playerCache
      ensures Snapshot() == WithPlayers(old(Snapshot()), WindowIds(videos, index))
    {
      var start := Max(0, index - PreloadCount);
      var last := Min(|videos| - 1, index + PreloadCount);
      if last < start {
        assert WindowIds(videos, index) == [];
        return;
      }
      ghost var ids := Ids(videos[start..last + 1]);
      assert WindowIds(videos, index) == ids;
      PreloadRange(start, last);
      WithPlayersCharacterised(old(Snapshot()), Snapshot(), ids);
      IdsCover(videos, start, last);
    }
  }
}
