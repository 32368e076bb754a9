# Playback-resource manager of the TikTok-style feed, in Dafny

This project models the player lifecycle of a vertical video feed. The feed is an ordered list of
`Video` values. A cursor (`currentIndex`) points at the visible video. A cache maps video ids to
`AVPlayer` objects. The manager:

- creates players lazily, at most one per id (`player(for:)`);
- plays and pauses the current player;
- pauses the old player and plays the new one when the index changes;
- loops a player when its media ends;
- releases players on teardown and on distance-based eviction;
- pre-creates players for the videos around an index.

Three modules:

- `VideoModel` (`Video.dfy`) covers the `Video` value. Its `==` and `hash(into:)` look at the `id`
  only. The module also has the built-in twelve-video `mockData` feed and the `firstIndex(where:)`
  lookup by id.
- `PlaybackSpec` (`PlaybackSpec.dfy`) is the value-level view. A player is a `PlayerState` record:
  time-control status, at time zero or not, item present or not, muted or not, loop handler
  installed or not. The cache is a `map<string, PlayerState>`. There is one pure function for
  each manager operation that plays, pauses, creates or loops players; `cleanup()` and eviction
  have none and state their effect in their methods. The lemmas prove that these operations:
  - keep "only the current video's player may be active", except the as-written looping handler
    (third finding);
  - keep "every cached player has its item and its loop".
- `PlayerManager` (`VideoPlayerManager.dfy`) is the manager itself:
  - a `class Player` with a mutable `state`, because `AVPlayer` is a reference type and a player
    dropped from the cache still exists;
  - a `class VideoPlayerManager` whose fields are `videos`, `currentIndex` and
    `playerCache: map<string, Player>`.

  The playback methods (`playCurrentVideo`, `pauseCurrentVideo`, `togglePlayPause`, the index
  change, the looping handler and `preloadVideos`) are proved against the `PlaybackSpec` function
  for their operation: `Snapshot()`, the cache read by value, equals that function applied to the
  old snapshot. `player(for:)`, `cleanup()` and the eviction methods state their effect directly
  on the cache and on the player objects: which entries stay, which are the same objects, and
  which players end released. The loops in `cleanup()`, in the eviction removal and in
  `preloadVideos` carry their invariants.

The model follows the code as written, which differs from the design in three places:

- On an index change, `onIndexChanged` only pauses and plays players that are already cached. It
  creates no player, preloads nothing and evicts nothing. So, when only the old current player was
  active, setting the index to a video without a player leaves nothing playing (`PlayIfCached`,
  `IndexChangeToUncachedStopsPlayback`).
- `preloadVideos(around:)` uses the closed range `start...end` with `end` clamped to the count and
  not to the last index, so it can read one past the end (see Findings).
- The eviction filter of `cleanupDistantPlayers(from:)` selects every cached id (see Findings).

`preloadVideos(around:)` and `cleanupDistantPlayers(from:)` are private. Nothing in the manager
calls them. They are modelled as standalone methods.

## Model

| member | source | states |
|---|---|---|
| VideoModel.SameVideoIffSameId | Tiktok/Models/Video.swift:23-25 | two videos are `==` exactly when their ids are equal, whatever their URL, author, description and likes |
| VideoModel.SameVideoIsEquivalence | Tiktok/Models/Video.swift:23-25 | the id-only `==` is reflexive, symmetric and transitive |
| VideoModel.SameVideo | Tiktok/Models/Video.swift:19-25 | `==` compares ids only, and two videos are `==` exactly when they feed the hasher the same input (the `Hashable` law, both directions) |
| VideoModel.HashInput | Tiktok/Models/Video.swift:19-21 | the hasher receives the id and nothing else |
| VideoModel.FirstIndex | Tiktok/Utils/VideoPlayerManager.swift:116 | a found index holds the id and no earlier position does; `None` means no position holds the id |
| VideoModel.FirstIndexOfDistinct | Tiktok/Utils/VideoPlayerManager.swift:116 | in a feed with distinct ids, looking up the id at position k finds k |
| VideoModel.MockDataIds | Tiktok/Models/Video.swift:29-90 | `mockData` has twelve entries whose ids are "1" to "12" in order, pairwise distinct |
| VideoModel.MockDataLookupUnique | Tiktok/Models/Video.swift:29-90 | in `mockData`, every id lookup finds that id's unique position |
| PlaybackSpec.AfterPlay | Tiktok/Utils/VideoPlayerManager.swift:48 | `play()` leaves the player active; it plays exactly when it has an item; no other field changes |
| PlaybackSpec.AfterPause | Tiktok/Utils/VideoPlayerManager.swift:54 | `pause()` leaves the player paused and changes nothing else |
| PlaybackSpec.AfterSeekToStart | Tiktok/Utils/VideoPlayerManager.swift:83 | `seek(to: .zero)` puts the player at time zero and changes nothing else |
| PlaybackSpec.AfterClearItem | Tiktok/Utils/VideoPlayerManager.swift:72 | `replaceCurrentItem(with: nil)` drops the item and changes nothing else |
| PlaybackSpec.Released | Tiktok/Utils/VideoPlayerManager.swift:71-72 | pause then detach the item: paused, no item, nothing else changed |
| PlaybackSpec.PlayedToEnd | Tiktok/Utils/VideoPlayerManager.swift:80 | the item reaching its end (the event behind `didPlayToEndTimeNotification`) moves the player off time zero and changes nothing else |
| PlaybackSpec.LoopAfterEndRestarts | Tiktok/Utils/VideoPlayerManager.swift:80-85 | after the item has played to its end, the handler puts the player back at time zero and playing, every other field as before |
| PlaybackSpec.Looped | Tiktok/Utils/VideoPlayerManager.swift:83-84 | seek to zero then play: a player with its item is at time zero and playing; only status and position change |
| PlaybackSpec.Toggled | Tiktok/Utils/VideoPlayerManager.swift:62-66 | the result is paused exactly when the player was not paused; only the status changes |
| PlaybackSpec.PlayPauseIdempotent | Tiktok/Utils/VideoPlayerManager.swift:62-66 | playing twice is playing once; pausing twice is pausing once |
| PlaybackSpec.ToggleTwiceRestores | Tiktok/Utils/VideoPlayerManager.swift:57-67 | toggling a playing or paused player with an item twice restores it |
| PlaybackSpec.CurrentId | Tiktok/Utils/VideoPlayerManager.swift:43-44 | there is a current id exactly when the index is below the count, and it is the id of the video at the index |
| PlaybackSpec.WithPlayer | Tiktok/Utils/VideoPlayerManager.swift:25-40 | `player(for:)` on the cache: the keys gain the id; old entries are unchanged; a new entry is unmuted, paused at zero, with its item and its loop |
| PlaybackSpec.WithPlayers | Tiktok/Utils/VideoPlayerManager.swift:106-108 | `player(for:)` over a list of ids: keys are the old keys plus the list; old entries are unchanged; new entries are in the created state |
| PlaybackSpec.WithPlayersCharacterised | Tiktok/Utils/VideoPlayerManager.swift:106-108 | any cache that keeps the old entries and adds created players exactly for the listed ids equals the result of the loop |
| PlaybackSpec.WithPlayerCharacterised | Tiktok/Utils/VideoPlayerManager.swift:25-40 | any cache that keeps the old entries and adds a created player exactly when the id was missing equals the result of `player(for:)` |
| PlaybackSpec.PlayCurrent | Tiktok/Utils/VideoPlayerManager.swift:42-49 | out of bounds, nothing changes; otherwise the current id is cached and its entry is `play()` applied to the old entry, or to a new unmuted player with its item and loop when there was none; it is active, and playing if the cache was well formed; other entries are unchanged |
| PlaybackSpec.PauseCurrent | Tiktok/Utils/VideoPlayerManager.swift:51-55 | the keys are unchanged; only the current id's player, if cached, is paused |
| PlaybackSpec.PlayIfCached | Tiktok/Utils/VideoPlayerManager.swift:94-97 | the keys are unchanged (no creation); only the new current id's player, if cached, gets `play()` |
| PlaybackSpec.IndexChanged | Tiktok/Utils/VideoPlayerManager.swift:88-98 | the keys are unchanged; a cached new-current player is `play()` applied to its old state, so it is active; a cached old-current player is paused unless it is also the new one; all others are unchanged |
| PlaybackSpec.ToggleCurrent | Tiktok/Utils/VideoPlayerManager.swift:57-67 | the keys are unchanged; a cached current player flips between paused and active; others are unchanged |
| PlaybackSpec.LoopAt | Tiktok/Utils/VideoPlayerManager.swift:79-86 | the looping handler changes only its own player, whose state becomes seek-to-zero then `play()` of the old one: at zero and playing when it has its item, mute, item and loop unchanged |
| PlaybackSpec.PreloadKeepsWellFormed | Tiktok/Utils/VideoPlayerManager.swift:30-37 | players created by `player(for:)` have their item and their loop, so preloading keeps every cached player well formed |
| PlaybackSpec.ControlsKeepWellFormed | Tiktok/Utils/VideoPlayerManager.swift:42-67 | play, pause and toggle of the current video keep every cached player with its item and loop |
| PlaybackSpec.IndexChangeKeepsWellFormed | Tiktok/Utils/VideoPlayerManager.swift:88-98 | an index change keeps every cached player with its item and loop |
| PlaybackSpec.LoopKeepsWellFormed | Tiktok/Utils/VideoPlayerManager.swift:82-85 | looping keeps every cached player with its item and loop (eviction only removes entries, so it keeps the rule trivially) |
| PlaybackSpec.AtMostOneActive | Tiktok/Utils/VideoPlayerManager.swift:88-98 | under the single-active invariant, two active cached players are the same one, and none is active when the index is out of bounds |
| PlaybackSpec.IndexChangeKeepsSingleActive | Tiktok/Utils/VideoPlayerManager.swift:88-98 | if only the old current player may be active, then after the index change only the new current player may be |
| PlaybackSpec.IndexChangeToUncachedStopsPlayback | Tiktok/Utils/VideoPlayerManager.swift:88-98 | if only the old current player was active, moving the index to a video without a player, or past the end, leaves every cached player paused |
| PlaybackSpec.CurrentControlsKeepSingleActive | Tiktok/Utils/VideoPlayerManager.swift:42-67 | play, pause and toggle of the current video keep the single-active invariant |
| PlaybackSpec.PreloadKeepsSingleActive | Tiktok/Utils/VideoPlayerManager.swift:100-109 | preloading creates only paused players, so it keeps the single-active invariant |
| PlaybackSpec.LoopKeepsSingleActive | Tiktok/Utils/VideoPlayerManager.swift:79-86 | looping a player that was active keeps the single-active invariant |
| PlaybackSpec.LoopRestartsPausedPlayer | Tiktok/Utils/VideoPlayerManager.swift:80-85 | as written: a handler delivered after an index change paused its player restarts it, and two players are then active |
| PlaybackSpec.LoopIfCurrent | Tiktok/Utils/VideoPlayerManager.swift:80-85 | corrected handler: the current video's player loops; any other player is only rewound; all other entries are unchanged |
| PlaybackSpec.LoopIfCurrentKeepsSingleActive | Tiktok/Utils/VideoPlayerManager.swift:80-85 | the corrected handler keeps the single-active invariant, whatever the state of its player |
| PlaybackSpec.PreloadStart | Tiktok/Utils/VideoPlayerManager.swift:101 | `start` is the least value that is at least 0 and at least `index - 2` |
| PlaybackSpec.PreloadEnd | Tiktok/Utils/VideoPlayerManager.swift:102 | `end` is the greatest value that is at most the count and at most `index + 2` |
| PlaybackSpec.PreloadIds | Tiktok/Utils/VideoPlayerManager.swift:104-107 | no ids when the guard fails; otherwise the ids of the videos at `start...end`, in order, one per index |
| PlaybackSpec.PreloadInBoundsExactly | Tiktok/Utils/VideoPlayerManager.swift:100-106 | the loop `start...end` stays in bounds exactly for an empty feed, an index whose window ends before the last video, or an index far enough out that the guard skips the loop |
| PlaybackSpec.PreloadOutOfBoundsNearEnd | Tiktok/Utils/VideoPlayerManager.swift:102-107 | for either of the last two indices of a feed, `end == count` and the loop reaches `videos[count]` |
| PlaybackSpec.WindowIds | Tiktok/Utils/VideoPlayerManager.swift:100-109 | corrected window: it holds the id of every feed position within 2 of the index, and only such ids |
| PlaybackSpec.ShouldRemove | Tiktok/Utils/VideoPlayerManager.swift:111-121 | the eviction filter as written is true for every id |
| PlaybackSpec.OutsideRetentionBand | Tiktok/Utils/VideoPlayerManager.swift:111-121 | corrected filter: a kept id occurs in the feed within 3 of the index; an id whose every occurrence lies outside that band is selected |
| PlaybackSpec.OutsideRetentionBandExactly | Tiktok/Utils/VideoPlayerManager.swift:111-121 | with distinct ids, the corrected filter selects exactly the ids that are absent or more than 3 positions away (both directions) |
| PlayerManager.Player.constructor | Tiktok/Utils/VideoPlayerManager.swift:30-31 | a new player is paused at time zero with its item loaded |
| PlayerManager.Player.Play | Tiktok/Utils/VideoPlayerManager.swift:48 | the state becomes `AfterPlay` of the old state |
| PlayerManager.Player.Pause | Tiktok/Utils/VideoPlayerManager.swift:54 | the state becomes paused |
| PlayerManager.Player.SeekToStart | Tiktok/Utils/VideoPlayerManager.swift:83 | the position becomes time zero |
| PlayerManager.Player.PlayToEnd | Tiktok/Utils/VideoPlayerManager.swift:80 | the state becomes `PlayedToEnd` of the old state: the position has left time zero |
| PlayerManager.Player.ReplaceCurrentItemWithNil | Tiktok/Utils/VideoPlayerManager.swift:72 | the item is dropped |
| PlayerManager.Player.SetMuted | Tiktok/Utils/VideoPlayerManager.swift:33 | only the mute flag changes |
| PlayerManager.VideoPlayerManager.constructor | Tiktok/Utils/VideoPlayerManager.swift:14-23 | empty feed, index 0, empty cache |
| PlayerManager.VideoPlayerManager.SetVideos | Tiktok/Utils/VideoPlayerManager.swift:15 | assigning the feed changes neither the index nor the cache |
| PlayerManager.VideoPlayerManager.PlayerFor | Tiktok/Utils/VideoPlayerManager.swift:25-40 | a cached id returns the same player object and leaves the cache alone; otherwise a fresh unmuted player for the video's URL, with its loop, is cached under the id; other entries keep their objects |
| PlayerManager.VideoPlayerManager.SetupLooping | Tiktok/Utils/VideoPlayerManager.swift:79-86 | only the loop flag of that player is set |
| PlayerManager.VideoPlayerManager.PauseCached | Tiktok/Utils/VideoPlayerManager.swift:54 | `playerCache[id]?.pause()` on a cached id pauses that entry only |
| PlayerManager.VideoPlayerManager.PlayCached | Tiktok/Utils/VideoPlayerManager.swift:96 | `playerCache[id]?.play()` on a cached id plays that entry only |
| PlayerManager.VideoPlayerManager.SetCurrentIndex | Tiktok/Utils/VideoPlayerManager.swift:16-21 | setting the same index changes nothing; a different index applies `IndexChanged` to the cache and creates or drops no player |
| PlayerManager.VideoPlayerManager.OnIndexChanged | Tiktok/Utils/VideoPlayerManager.swift:88-98 | the new snapshot is `IndexChanged` of the old one |
| PlayerManager.VideoPlayerManager.PlayCurrentVideo | Tiktok/Utils/VideoPlayerManager.swift:42-49 | the new snapshot is `PlayCurrent` of the old one; cached objects are kept |
| PlayerManager.VideoPlayerManager.EnsurePlayer | Tiktok/Utils/VideoPlayerManager.swift:45 | the snapshot after `player(for:)` is `WithPlayer` of the old one; a new entry is a fresh object |
| PlayerManager.VideoPlayerManager.PauseCurrentVideo | Tiktok/Utils/VideoPlayerManager.swift:51-55 | the new snapshot is `PauseCurrent` of the old one |
| PlayerManager.VideoPlayerManager.TogglePlayPause | Tiktok/Utils/VideoPlayerManager.swift:57-67 | the new snapshot is `ToggleCurrent` of the old one |
| PlayerManager.VideoPlayerManager.OnEndOfMedia | Tiktok/Utils/VideoPlayerManager.swift:82-85 | the new snapshot is `LoopAt` of the old one at that id |
| PlayerManager.VideoPlayerManager.OnEndOfMediaCurrentOnly | Tiktok/Utils/VideoPlayerManager.swift:82-85 | corrected handler on the objects: the new snapshot is `LoopIfCurrent` of the old one |
| PlayerManager.VideoPlayerManager.Cleanup | Tiktok/Utils/VideoPlayerManager.swift:69-77 | every player that was cached ends released (paused, no item) and the cache ends empty |
| PlayerManager.VideoPlayerManager.RemovePlayers | Tiktok/Utils/VideoPlayerManager.swift:123-128 | exactly the selected ids leave the cache; their players are released; the others keep their objects and states |
| PlayerManager.VideoPlayerManager.CleanupDistantPlayers | Tiktok/Utils/VideoPlayerManager.swift:111-129 | as written, every cached player is released and the cache ends empty, whatever the index |
| PlayerManager.VideoPlayerManager.CleanupDistantPlayersBanded | Tiktok/Utils/VideoPlayerManager.swift:111-129 | corrected: an id stays cached exactly when it was cached and is within the retention band; evicted players are released; kept ones are the same objects in the same state |
| PlayerManager.VideoPlayerManager.PreloadRange | Tiktok/Utils/VideoPlayerManager.swift:106-108 | after `player(for:)` on each of `lo...hi`, the keys are the old keys plus the run's ids; old entries keep their objects; new entries are fresh created players |
| PlayerManager.VideoPlayerManager.PreloadVideos | Tiktok/Utils/VideoPlayerManager.swift:100-109 | as written, with the range kept in bounds: every video of `start...end` is cached, and the new snapshot is `WithPlayers` over those ids |
| PlayerManager.VideoPlayerManager.PreloadVideosClamped | Tiktok/Utils/VideoPlayerManager.swift:100-109 | corrected: every feed video within 2 of the index is cached, and the new snapshot is `WithPlayers` over the clamped window's ids |

## Left out

- `Video`'s `Codable` and `Identifiable` conformances and URL parsing are not modelled. `videoUrl` is an opaque string, and the `URL(string:)!` literals of `mockData` are kept as their text.
- Playback progress is not modelled. A player's position is either at time zero (after creation or a seek) or past it after the item has played to its end (`PlayedToEnd`); positions in between, and `actionAtItemEnd` (what the player's status does at the end of its item), are not represented, and `OnEndOfMedia` does not require the end to have been reached first.
- AVFoundation internals are not modelled: item loading, buffering and `automaticallyWaitsToMinimizeStalling` (VideoPlayerManager.swift:34). `play()` yields `Playing` when the player has an item and `WaitingToPlay` when it has none. Waiting while buffering is not represented.
- NotificationCenter is not modelled as a registry. `setupLooping` sets the player's loop flag, and the block observer is `OnEndOfMedia`, callable for any cached player. `removeObserver(self)` at :76 does not remove block-based observers, so `Cleanup` leaves the flag as it is. The weak capture of the player and delivery to a player after it leaves the cache are not modelled.
- `@MainActor` and `@Observable` are not modelled. Every operation runs to completion without interleaving, and observation callbacks to the UI are outside the model.
- SetCurrentIndex: `currentIndex` is a `nat`, while the source's `Int` admits negative values. A negative index would pass the `< videos.count` guards and trap on the subscript; the model does not represent that.
- `Cleanup` and `RemovePlayers` process players in an arbitrary order. Dictionary iteration order is not modelled; the result does not depend on it.
- The rule that every cached player has its item and its loop (`WellFormed`) is not a class invariant of `VideoPlayerManager`. Each value-level operation is proved to preserve it instead. The lemmas of `PlaybackSpec` cover that rule and the single-active rule; the methods reach them through their `Snapshot()` postconditions.
- LoopKeepsSingleActive: requires the looping player to be active. A handler that runs for a player already paused breaks the rule; this is the third finding below.
- String equality and dictionary keys: Swift compares `String`s by Unicode canonical equivalence (Video.swift:24, VideoPlayerManager.swift:23, :26, :116). The model compares ids code point by code point, so `"\u{E9}"` and `"e\u{301}"` are one id in the source and two in the model.
- CleanupDistantPlayers: the source's `Int` arithmetic at :112-113 traps on overflow (for example `from: Int.max`). The model's `index` is unbounded, so these calls empty the cache instead of trapping. The same applies to CleanupDistantPlayersBanded.
- PreloadVideos: the source's `Int` arithmetic at :101-102 traps on overflow when `index` is within 2 of `Int.min` or `Int.max`. The model's `index` is unbounded. The same applies to PreloadVideosClamped.
- `Cleanup` states only the final state of each player. A player released twice ends in the same state, so the contract does not count releases.
- PreloadVideos: requires `PreloadInBounds`. The out-of-range read at the end of the feed is a runtime trap in the source; it is exhibited by `PreloadOutOfBoundsNearEnd` and not executed by the method.
- `EnsurePlayer` is `player(for:)` with its result dropped, as `playCurrentVideo` uses it, stated on the snapshot. It adds no behaviour.

## Findings

| source | as written | input that shows it | evidently intended | confidence | as-written member | corrected member |
|---|---|---|---|---|---|---|
| Tiktok/Utils/VideoPlayerManager.swift:120 | the filter keeps an id only when `keepStart < videoIndex \|\| videoIndex < keepEnd` is false, and since `keepStart < keepEnd` that never happens, so every cached player is evicted | `mockData`, index 5, ids "1", "6" and "12" cached: all three are released, including the current video's player | select an id only when `videoIndex < keepStart \|\| keepEnd < videoIndex` | high; not executed | PlaybackSpec.ShouldRemove, PlayerManager.VideoPlayerManager.CleanupDistantPlayers | PlaybackSpec.OutsideRetentionBandExactly, PlayerManager.VideoPlayerManager.CleanupDistantPlayersBanded |
| Tiktok/Utils/VideoPlayerManager.swift:102-107 | `end = min(videos.count, index + preloadCount)` with the closed range `start...end`, so `videos[end]` is read when `end == videos.count` | `mockData` (12 videos), index 10 or 11: `end == 12` and the loop reads `videos[12]`; also a one-video feed with index 0 | clamp `end` to `videos.count - 1`, and let the guard admit a one-video window (`end >= start`, so a one-video feed still gets its player) | high; not executed | PlaybackSpec.PreloadOutOfBoundsNearEnd, PlayerManager.VideoPlayerManager.PreloadVideos | PlaybackSpec.WindowIds, PlayerManager.VideoPlayerManager.PreloadVideosClamped |
| Tiktok/Utils/VideoPlayerManager.swift:80-85 | the end-of-media handler, delivered on the main queue, seeks and plays its player whether or not that player's video is still the current one | feed of videos "1" and "2": "1" plays to its end, the index moves to 1 before the queued handler runs (so "1" is paused and "2" plays), then the handler plays "1" as well | restart the player only while its video is the current one | medium; depends on delivery order; not executed | PlaybackSpec.LoopRestartsPausedPlayer | PlaybackSpec.LoopIfCurrentKeepsSingleActive, PlayerManager.VideoPlayerManager.OnEndOfMediaCurrentOnly |
