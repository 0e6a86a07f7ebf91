# Karaoke home page: playlist and search rules, in Dafny

This project models the stateful core of the karaoke web app's home page
(`pages/index.tsx`): the queue of videos waiting to play (`playlist`), the
video now playing (`curVideoId`, empty when nothing plays), the handlers that
change them (add, prioritize, delete, clear all, end of video) and the effect
that starts the next video. It also models the pure rules of the search grid:
the karaoke title test, the karaoke filter applied to search results and
recommendations, the `"karaoke" ` query prefix, the choice of which list to
render, and the rule that a new search term brings back the results tab.

Modules, one per component:

- `Text` (text.dfy): `toLowerCase` on ASCII letters and `includes` as a substring search.
- `Catalog` (catalog.dfy): the video record, `titleIncludesKaraoke`, the `select` filter, the query prefix and `renderList`.
- `Playlist` (playlist.dfy): queue entries and the transitions as pure functions on the pair of cells, with their properties.
- `Home` (home.dfy): class `Player`, whose fields are the two persisted cells; each handler overwrites them in place and is specified by the matching `Playlist` transition.
- `Search` (search.dfy): class `Prefs` holding `searchTerm`, `isKaraoke` and `activeIndex`, and the tab-to-grid mapping.
- `Wrappers` (wrappers.dfy): `Option`, standing for a JavaScript value that may be `undefined`.

Modelling choices:

- The timestamp `new Date().getTime()` is the parameter `now` of each handler that stamps an entry.
- The entry literal is `{ key: now, ...video }`. The spread comes after `key`, so a video that already has a key keeps it. This happens when `priorityVideo` is called from the playlist drawer (`pages/index.tsx:123`) with a queued entry. `Candidate` tells the two callers apart: a catalog video from the detail modal, or a queued entry from the drawer. As a result, promoting a queued entry only reorders the queue; `Playlist.PromoteMovesToFront` proves this.
- A promoted queued entry is not re-stamped: the spread keeps its old key (see above).
- React effects become explicit steps. `Player.Advance` is the effect on `[playlist, curVideoId]`. A caller runs it after each handler, as `Home.PlaybackSession` does. So a video queued on an idle player starts at once; it does not wait behind a second queued video.
- The tab-reset effect depends on `[searchTerm]`. The reset fires only when the term changes to a non-empty value. Setting the same term again leaves the tab alone (`Search.TabResetSession`).
- No handler starts a video without queueing it: a card click only opens the detail modal, and both modal buttons go through `addVideoToPlaylist` or `priorityVideo`. Only the advance effect and `priorityVideo` set the playing id to a video.
- Each persisted store key is a plain field. A constructor stands for either a first visit (the stores' defaults) or a reload (`Restore`, values read back).

## Model

| member | source | states |
|---|---|---|
| Text.LowerChar | pages/index.tsx:318 | an upper-case ASCII letter becomes its lower-case letter; every other character is kept; no upper-case letter remains |
| Text.Lower | pages/index.tsx:318 | `toLowerCase` keeps the length and lowers each character in place |
| Text.LowerIdempotent | pages/index.tsx:318 | lowering an already lower-cased title changes nothing |
| Text.LowerAppend | pages/index.tsx:318 | lowering distributes over concatenation |
| Text.Contains | pages/index.tsx:319 | `includes(sub)` holds exactly when `sub` occurs at some position of the string |
| Text.ContainsInitial | pages/index.tsx:319 | a word occurs only if its first letter occurs |
| Catalog.IsKaraokeTitle | pages/index.tsx:317-320 | a title passes exactly when its lower-cased form contains "karaoke" or "beat" |
| Catalog.IsKaraokeTitleIgnoresCase | pages/index.tsx:317-320 | a title and its lower-cased form are judged alike |
| Catalog.CasedWordPasses | pages/index.tsx:317-320 | a title containing "karaoke" or "beat" in any mix of ASCII case passes |
| Catalog.NoInitialFails | pages/index.tsx:317-320 | a title with no `k` and no `b` in either case fails |
| Catalog.KaraokeOnly | pages/index.tsx:329 | the filtered list is no longer than the input; every kept video passes; every kept video comes from the input; every passing input video is kept |
| Catalog.KaraokeOnlyIsSubsequence | pages/index.tsx:343 | the filter keeps its videos in their original order |
| Catalog.KaraokeOnlyCounts | pages/index.tsx:329 | occurrence by occurrence, every copy of a passing video is kept and every copy of a failing one is dropped |
| Catalog.KaraokeOnlyKeepsAll | pages/index.tsx:329 | a list whose titles all pass is returned unchanged |
| Catalog.KaraokeOnlyIdempotent | pages/index.tsx:329 | filtering twice equals filtering once |
| Catalog.Select | pages/index.tsx:327-333 | karaoke mode off: the list comes back unchanged; on: only passing videos are kept, and all of them are |
| Catalog.SelectIdempotent | pages/index.tsx:341-348 | applying the `select` transform to its own output changes nothing, in either mode |
| Catalog.SelectExample | pages/index.tsx:341-348 | of "Title Karaoke Version", "Title Beat" and "Plain Title", karaoke mode keeps the first two and plain mode keeps all three |
| Catalog.SearchQuery | pages/index.tsx:315 | the query ends with the search term, preceded by `"karaoke" ` in karaoke mode and by nothing otherwise |
| Catalog.SearchQueryInjective | pages/index.tsx:337-339 | within one mode, different terms give different queries and so different query keys |
| Catalog.SearchQueryAsksForKaraoke | pages/index.tsx:315 | in karaoke mode the lower-cased query always contains "karaoke" |
| Catalog.RenderList | pages/index.tsx:351-354 | shows the search results when a term is set or there are no recommendations (absent or empty), and the recommendations otherwise |
| Catalog.RenderedAreKaraoke | pages/index.tsx:351-354 | in karaoke mode every rendered video has a karaoke title, whichever list is shown |
| Playlist.Stamp | pages/index.tsx:47 | a catalog video gets key `now`; a queued entry keeps its own key, because the spread comes last |
| Playlist.DropIndex | pages/index.tsx:56 | filtering by position removes exactly the element at an in-range index and keeps the rest in order; out of range, it removes nothing |
| Playlist.Advance | pages/index.tsx:36-44 | with nothing playing and a non-empty queue, the head's id plays and the queue becomes its tail (one shorter); otherwise nothing changes |
| Playlist.Enqueue | pages/index.tsx:46-48 | the queue grows by exactly one entry at the end, the old entries stay as they were, and the playing id is unchanged |
| Playlist.Prioritize | pages/index.tsx:50-58 | the new head is the stamped video; the tail is the old queue without the slot `videoIndex`, in order; the length is the same for a valid index and one more otherwise; the video starts only if nothing was playing |
| Playlist.Delete | pages/index.tsx:124-126 | an in-range index removes exactly that entry and keeps the others in order; the playing id is unchanged |
| Playlist.ClearAll | pages/index.tsx:105 | the queue empties and the playing id is unchanged |
| Playlist.NextSong | pages/index.tsx:285 | nothing plays any more and the queue is unchanged |
| Playlist.AdvanceOnce | pages/index.tsx:36-44 | after the advance rule the state is settled, and a second evaluation is a no-op (given that the started id is non-empty) |
| Playlist.EnqueueCommutesWithAdvance | pages/index.tsx:46-48 | queueing behind a non-empty queue does not change which video starts next |
| Playlist.EnqueueWhenIdle | pages/index.tsx:36-48 | queueing into an idle player starts that video at once and leaves the queue empty |
| Playlist.NextSongThenAdvance | pages/index.tsx:285 | at the end of a video the queue's head plays next; with an empty queue the player goes idle |
| Playlist.PromoteMovesToFront | pages/index.tsx:119-123 | promoting a queued entry moves that very entry to the front; the queue is a permutation of the old one |
| Playlist.PrioritizeWhileIdlePlaysTwice | pages/index.tsx:54-57 | prioritizing while idle starts the video and also queues it at the front; the advance rule does not fire, and the video plays a second time when it ends |
| Playlist.ClearAllThenAdvance | pages/index.tsx:105 | clearing never starts a video |
| Playlist.DropIndexKeepsKeys | pages/index.tsx:56 | removing a slot keeps keys distinct and adds no key |
| Playlist.FreshEntryKeepsKeysUnique | pages/index.tsx:47 | an entry stamped later than every queued key can be added at either end without a key clash |
| Playlist.TransitionsKeepKeysUnique | pages/index.tsx:119-121 | with a clock past every queued key, every transition keeps the drawer's list keys distinct, and every later timestamp is again past every key, so the lemma chains across a session |
| Playlist.MoveToFrontKeepsKeysUnique | pages/index.tsx:55-57 | moving an entry to the front keeps keys distinct |
| Playlist.PromoteKeepsKeysUnique | pages/index.tsx:119-123 | promoting from the drawer keeps keys distinct, whatever the clock says |
| Home.Player.constructor | pages/index.tsx:24-31 | a first visit starts with an empty queue and no video |
| Home.Player.Restore | pages/index.tsx:24-31 | a reload starts from the stored queue and id; the caller then runs `Advance`, as React runs the effect on mount |
| Home.Player.Advance | pages/index.tsx:36-44 | the cells are updated in place as `Playlist.Advance` says |
| Home.Player.AddVideoToPlaylist | pages/index.tsx:46-48 | the cells are updated in place as `Playlist.Enqueue` says |
| Home.Player.PriorityVideo | pages/index.tsx:50-58 | the cells are updated in place as `Playlist.Prioritize` says |
| Home.Player.Delete | pages/index.tsx:124-126 | the cells are updated in place as `Playlist.Delete` says |
| Home.Player.ClearAll | pages/index.tsx:105 | the cells are updated in place as `Playlist.ClearAll` says |
| Home.Player.NextSong | pages/index.tsx:283-287 | the cells are updated in place as `Playlist.NextSong` says |
| Search.GridAt | pages/index.tsx:196-205 | tabs 0, 1 and 2 show the results, singers and topics grids; any other index shows nothing |
| Search.Prefs.constructor | pages/index.tsx:60-71 | the defaults are no term, karaoke mode on and the results tab |
| Search.Prefs.Restore | pages/index.tsx:73-75 | on reload a stored non-empty term reopens the results tab; otherwise the stored tab is kept |
| Search.Prefs.SetSearchTerm | pages/index.tsx:73-75 | the term is set; the tab resets to the results exactly when the term changed to a non-empty value; karaoke mode is unchanged |
| Search.Prefs.SelectArtist | pages/index.tsx:453-455 | an artist click sets the term, and the tab resets only through the term effect |
| Search.Prefs.SelectTopic | pages/index.tsx:515-518 | a topic click sets the term and always opens the results tab |
| Search.Prefs.SelectTab | pages/index.tsx:556-572 | a navigation button changes only the tab |
| Search.Prefs.SetKaraoke | pages/index.tsx:168 | the switch changes only the karaoke flag |
| Search.Prefs.Query | pages/index.tsx:338-339 | the query sent for the current preferences is the prefixed term |

## Left out

- `pages/karaoke.tsx` as a whole: the HTTP client and its base URL, router navigation and the redirect effect, the iframe URL, and buttons without handlers. All of it is I/O or browser API.
- The query cache (`useQuery`): keys, deduplication, `enabled`, staleness, loading flags. The `select` transforms and the query string are modelled; the library's caching is not visible here.
- Persistence (`useLocalStorageValue`): each store key is a plain field. Durability and consistency across two writes or across tabs are not modelled.
- React scheduling and batching: each effect is an explicit method the caller runs after a handler. React re-runs the advance effect for as long as its inputs keep changing. This matters only when a queued entry has an empty `videoId`; then the effect pops again. The model runs one step, so `Playlist.AdvanceOnce` assumes the started id is non-empty.
- Playlist.TransitionsKeepKeysUnique: assumes the clock has moved past every queued key. Two entries stamped in the same millisecond would share a key in the source.
- Text.Lower: lowers ASCII letters only; full Unicode `toLowerCase` (for example Vietnamese capitals) is not modelled.
- The detail modal's selected video (`selectedVideo`), the search box's debounce timing, rendering, styling, images and their error fallback, and the singer grid's gender tabs, which only re-fetch.
- `VideoRef` keeps only `videoId`, `title` and `author`; the thumbnail URL and the other catalog fields are not used by the core.
