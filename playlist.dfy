/**
 * The playlist / now-playing state machine of the home page (pages/index.tsx,
 * `HomePage`), as pure transitions on the two persisted cells: `playlist`
 * (the queue) and `curVideoId` (`""` when nothing plays). The class in
 * home.dfy updates the cells in place and is specified by these functions.
 */
module Playlist {
  import opened Wrappers
  import opened Catalog

  /** A queued video: the catalog fields plus the numeric `key` it got when it was queued. */
  datatype Entry = Entry(key: int, video: VideoRef)

  /**
   * The `video` argument of a transition: a catalog video picked in the detail
   * modal, or an entry that is already queued, picked in the playlist drawer.
   */
  datatype Candidate = FromCatalog(ref: VideoRef) | FromPlaylist(entry: Entry)
  {
    function Video(): VideoRef {
      match this
      case FromCatalog(v) => v
      case FromPlaylist(e) => e.video
    }
  }

  /**
   * The object literal `{ key: now, ...video }`. The spread comes after `key`,
   * so a candidate that already carries a key (a queued entry) keeps its own.
   */
  function Stamp(now: int, c: Candidate): (e: Entry)
    ensures e.video == c.Video()
    ensures c.FromCatalog? ==> e.key == now
    ensures c.FromPlaylist? ==> e == c.entry
  {
    match c
    case FromCatalog(v) => Entry(now, v)
    case FromPlaylist(entry) => entry
  }

  /**
   * `s.filter((_, index) => index !== i)`: keeps every element whose position
   * differs from `i`. Exactly one element goes when `i` is a position of `s`,
   * none otherwise.
   */
  function DropIndex<T>(s: seq<T>, i: int): (r: seq<T>)
    ensures 0 <= i < |s| ==> r == s[..i] + s[i + 1..]
    ensures !(0 <= i < |s|) ==> r == s
    decreases |s|
  {
    if s == [] then []
    else (if i == 0 then [] else [s[0]]) + DropIndex(s[1..], i - 1)
  }

  /** The two persisted cells. */
  datatype Queue = Queue(playlist: seq<Entry>, curVideoId: string)

  /** The advance rule has nothing to do: a video plays, or nothing is queued. */
  predicate Settled(q: Queue) {
    q.curVideoId != "" || q.playlist == []
  }

  /**
   * The effect that runs when `playlist` or `curVideoId` changes: with nothing
   * playing and a non-empty queue, the head starts playing and leaves the queue.
   */
  function Advance(q: Queue): (r: Queue)
    ensures !Settled(q) ==>
              r.curVideoId == q.playlist[0].video.videoId
              && r.playlist == q.playlist[1..]
              && |r.playlist| == |q.playlist| - 1
    ensures Settled(q) ==> r == q
  {
    if |q.playlist| > 0 && q.curVideoId == "" then
      var video := q.playlist[0];
      Queue(q.playlist[1..], video.video.videoId)
    else
      q
  }

  /** `addVideoToPlaylist`: one fresh entry joins the end of the queue. */
  function Enqueue(q: Queue, now: int, c: Candidate): (r: Queue)
    ensures |r.playlist| == |q.playlist| + 1
    ensures r.playlist[..|q.playlist|] == q.playlist
    ensures r.playlist[|q.playlist|] == Stamp(now, c)
    ensures r.curVideoId == q.curVideoId
  {
    Queue(q.playlist + [Stamp(now, c)], q.curVideoId)
  }

  /**
   * `priorityVideo(video, videoIndex?)`: with nothing playing, the video starts
   * at once; in every case a new entry for it goes to the front of the queue,
   * after the slot `videoIndex` (if given and in range) has been removed.
   */
  function Prioritize(q: Queue, now: int, c: Candidate, videoIndex: Option<int>): (r: Queue)
    ensures |r.playlist| > 0 && r.playlist[0] == Stamp(now, c)
    ensures videoIndex.Some? && 0 <= videoIndex.value < |q.playlist| ==>
              |r.playlist| == |q.playlist|
              && r.playlist[1..] == q.playlist[..videoIndex.value] + q.playlist[videoIndex.value + 1..]
    ensures !(videoIndex.Some? && 0 <= videoIndex.value < |q.playlist|) ==>
              |r.playlist| == |q.playlist| + 1 && r.playlist[1..] == q.playlist
    ensures q.curVideoId == "" ==> r.curVideoId == c.Video().videoId
    ensures q.curVideoId != "" ==> r.curVideoId == q.curVideoId
  {
    var curVideoId := if q.curVideoId == "" then c.Video().videoId else q.curVideoId;
    var newPlaylist := if videoIndex.Some? then DropIndex(q.playlist, videoIndex.value) else q.playlist;
    Queue([Stamp(now, c)] + newPlaylist, curVideoId)
  }

  /** The drawer's delete button: the entry at `videoIndex` leaves the queue; nothing else moves. */
  function Delete(q: Queue, videoIndex: int): (r: Queue)
    ensures r.curVideoId == q.curVideoId
    ensures 0 <= videoIndex < |q.playlist| ==>
              |r.playlist| == |q.playlist| - 1
              && r.playlist == q.playlist[..videoIndex] + q.playlist[videoIndex + 1..]
    ensures !(0 <= videoIndex < |q.playlist|) ==> r == q
  {
    Queue(DropIndex(q.playlist, videoIndex), q.curVideoId)
  }

  /** The "clear all" button: the queue empties, the playing video carries on. */
  function ClearAll(q: Queue): (r: Queue)
    ensures r.playlist == [] && r.curVideoId == q.curVideoId
  {
    Queue([], q.curVideoId)
  }

  /** The player's end-of-video callback `nextSong`: nothing plays any more, the queue is kept. */
  function NextSong(q: Queue): (r: Queue)
    ensures r.curVideoId == "" && r.playlist == q.playlist
  {
    Queue(q.playlist, "")
  }

  // ---------------------------------------------------------------------------
  // Properties of the transitions

  /**
   * The advance rule fires at most once: after it, the state is settled (when
   * the video it started has a non-empty id), and a second evaluation changes nothing.
   */
  lemma AdvanceOnce(q: Queue)
    requires !Settled(q) ==> q.playlist[0].video.videoId != ""
    ensures Settled(Advance(q))
    ensures Advance(Advance(q)) == Advance(q)
  {
  }

  /** Queueing behind a non-empty queue does not change which video the advance rule starts. */
  lemma {:induction false} EnqueueCommutesWithAdvance(q: Queue, now: int, c: Candidate)
    requires q.playlist != []
    ensures Advance(Enqueue(q, now, c)) == Enqueue(Advance(q), now, c)
  {
    if !Settled(q) {
      assert (q.playlist + [Stamp(now, c)])[1..] == q.playlist[1..] + [Stamp(now, c)];
    }
  }

  /** Queueing into an idle player starts that video at once and leaves the queue empty. */
  lemma EnqueueWhenIdle(q: Queue, now: int, c: Candidate)
    requires q == Queue([], "")
    ensures Advance(Enqueue(q, now, c)) == Queue([], c.Video().videoId)
  {
  }

  /**
   * The end of a video hands over to the head of the queue; with an empty queue
   * the player goes idle.
   */
  lemma NextSongThenAdvance(q: Queue)
    ensures q.playlist == [] ==> Advance(NextSong(q)) == Queue([], "")
    ensures q.playlist != [] ==>
              Advance(NextSong(q)) == Queue(q.playlist[1..], q.playlist[0].video.videoId)
  {
  }

  /**
   * Promoting a queued entry (the drawer passes the entry together with its own
   * position) moves that very entry, key included, to the front: the queue is
   * reordered, never grown or shrunk.
   */
  lemma PromoteMovesToFront(q: Queue, now: int, i: int)
    requires 0 <= i < |q.playlist|
    ensures var r := Prioritize(q, now, FromPlaylist(q.playlist[i]), Some(i));
            && r.playlist == [q.playlist[i]] + q.playlist[..i] + q.playlist[i + 1..]
            && multiset(r.playlist) == multiset(q.playlist)
  {
    var p := q.playlist;
    assert p == p[..i] + [p[i]] + p[i + 1..];
    assert multiset(p) == multiset(p[..i]) + multiset{p[i]} + multiset(p[i + 1..]);
  }

  /**
   * Prioritizing while nothing plays both starts the video and queues a fresh
   * entry for it at the front. The advance rule then does not fire, and when
   * the video ends the queued copy plays it a second time.
   */
  lemma PrioritizeWhileIdlePlaysTwice(q: Queue, now: int, c: Candidate, videoIndex: Option<int>)
    requires q.curVideoId == "" && c.Video().videoId != ""
    ensures var r := Prioritize(q, now, c, videoIndex);
            && r.curVideoId == r.playlist[0].video.videoId == c.Video().videoId
            && Advance(r) == r
            && Advance(NextSong(r)).curVideoId == c.Video().videoId
  {
  }

  /** Clearing never starts a video, and the advance rule leaves a cleared queue empty. */
  lemma ClearAllThenAdvance(q: Queue)
    ensures Advance(ClearAll(q)).playlist == []
    ensures Advance(ClearAll(q)).curVideoId == q.curVideoId
  {
  }

  // ---------------------------------------------------------------------------
  // Entry keys

  /** No two entries of the queue share a key (keys are the list keys of the drawer). */
  ghost predicate UniqueKeys(s: seq<Entry>) {
    forall i, j :: 0 <= i < j < |s| ==> s[i].key != s[j].key
  }

  /** Every key in the queue is older than the timestamp `now`. */
  ghost predicate KeysBefore(s: seq<Entry>, now: int) {
    forall i :: 0 <= i < |s| ==> s[i].key < now
  }

  /** Removing one slot keeps the keys distinct and adds no key. */
  lemma DropIndexKeepsKeys(s: seq<Entry>, i: int, now: int)
    ensures UniqueKeys(s) ==> UniqueKeys(DropIndex(s, i))
    ensures KeysBefore(s, now) ==> KeysBefore(DropIndex(s, i), now)
  {
    if 0 <= i < |s| {
      var r := DropIndex(s, i);
      assert forall k :: 0 <= k < |r| ==> r[k] == if k < i then s[k] else s[k + 1];
    }
  }

  /** An entry stamped with a time later than every queued key can join at either end. */
  lemma FreshEntryKeepsKeysUnique(s: seq<Entry>, e: Entry)
    requires UniqueKeys(s) && KeysBefore(s, e.key)
    ensures UniqueKeys([e] + s) && UniqueKeys(s + [e])
  {
    assert forall k :: 1 <= k < |[e] + s| ==> ([e] + s)[k] == s[k - 1];
    assert forall k :: 0 <= k < |s| ==> (s + [e])[k] == s[k];
  }

  /**
   * With a clock that has moved past every queued key, each transition keeps
   * the keys of the queue distinct, and any later timestamp is again past
   * every key, so the hypothesis holds for the next transition too.
   */
  lemma TransitionsKeepKeysUnique(q: Queue, now: int, v: VideoRef, videoIndex: Option<int>, i: int)
    requires UniqueKeys(q.playlist) && KeysBefore(q.playlist, now)
    ensures UniqueKeys(Advance(q).playlist)
    ensures UniqueKeys(Enqueue(q, now, FromCatalog(v)).playlist)
    ensures UniqueKeys(Prioritize(q, now, FromCatalog(v), videoIndex).playlist)
    ensures UniqueKeys(Delete(q, i).playlist)
    ensures UniqueKeys(ClearAll(q).playlist)
    ensures UniqueKeys(NextSong(q).playlist)
    ensures forall later :: later > now ==> KeysBefore(Advance(q).playlist, later)
    ensures forall later :: later > now ==> KeysBefore(Enqueue(q, now, FromCatalog(v)).playlist, later)
    ensures forall later :: later > now ==> KeysBefore(Prioritize(q, now, FromCatalog(v), videoIndex).playlist, later)
    ensures forall later :: later > now ==> KeysBefore(Delete(q, i).playlist, later)
  {
    var e := Stamp(now, FromCatalog(v));
    FreshEntryKeepsKeysUnique(q.playlist, e);
    assert Enqueue(q, now, FromCatalog(v)).playlist == q.playlist + [e];
    DropIndexKeepsKeys(q.playlist, i, now);
    if videoIndex.Some? {
      DropIndexKeepsKeys(q.playlist, videoIndex.value, now);
      FreshEntryKeepsKeysUnique(DropIndex(q.playlist, videoIndex.value), e);
    }
  }

  /** Moving one entry to the front keeps the keys distinct. */
  lemma MoveToFrontKeepsKeysUnique(p: seq<Entry>, i: int)
    requires UniqueKeys(p) && 0 <= i < |p|
    ensures UniqueKeys([p[i]] + p[..i] + p[i + 1..])
  {
    var r := [p[i]] + p[..i] + p[i + 1..];
    assert |r| == |p|;
    forall a, b | 0 <= a < b < |r|
      ensures r[a].key != r[b].key
    {
      var sa := if a == 0 then i else if a <= i then a - 1 else a;
      var sb := if b <= i then b - 1 else b;
      assert r[a] == p[sa];
      assert r[b] == p[sb];
    }
  }

  /** Promoting a queued entry from the drawer keeps the keys distinct, whatever the clock says. */
  lemma PromoteKeepsKeysUnique(q: Queue, now: int, i: int)
    requires UniqueKeys(q.playlist) && 0 <= i < |q.playlist|
    ensures UniqueKeys(Prioritize(q, now, FromPlaylist(q.playlist[i]), Some(i)).playlist)
  {
    PromoteMovesToFront(q, now, i);
    MoveToFrontKeepsKeysUnique(q.playlist, i);
  }
}
