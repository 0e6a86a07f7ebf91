/**
 * The home page's two persisted cells, `playlist` and `videoId` (held in
 * `curVideoId`), as an object whose handlers overwrite them in place. Each
 * handler is specified by the matching transition of module Playlist; the
 * effect that starts the next video is the method `Advance`, which a caller
 * runs after every other handler, as React runs the effect after a render.
 */
module Home {
  import opened Wrappers
  import opened Catalog
  import P = Playlist

  class Player {
    var playlist: seq<P.Entry>
    var curVideoId: string

    /** The pair of persisted cells as a value. */
    function State(): P.Queue
      reads this
    {
      P.Queue(playlist, curVideoId)
    }

    /** First visit: both stores hold their defaults, an empty queue and no video. */
    constructor ()
      ensures State() == P.Queue([], "")
    {
      playlist := [];
      curVideoId := "";
    }

    /**
     * A later visit: both cells are read back from the persisted store. The
     * advance effect also runs on mount; as after every handler, the caller
     * runs `Advance` next (a stored queue meeting an empty stored id starts playing).
     */
    constructor Restore(storedPlaylist: seq<P.Entry>, storedVideoId: string)
      ensures State() == P.Queue(storedPlaylist, storedVideoId)
    {
      playlist := storedPlaylist;
      curVideoId := storedVideoId;
    }

    /** The effect on `[playlist, curVideoId]`: start the head of the queue when nothing plays. */
    method Advance()
      modifies this
      ensures State() == P.Advance(old(State()))
    {
      if |playlist| > 0 && curVideoId == "" {
        var video := playlist[0];
        var newPlaylist := playlist[1..];
        curVideoId := video.video.videoId;
        playlist := newPlaylist;
      }
    }

    /** `addVideoToPlaylist`: append an entry stamped with the time `now`. */
    method AddVideoToPlaylist(now: int, video: P.Candidate)
      modifies this
      ensures State() == P.Enqueue(old(State()), now, video)
    {
      playlist := playlist + [P.Stamp(now, video)];
    }

    /** `priorityVideo`: start the video if nothing plays, and put it at the front of the queue. */
    method PriorityVideo(now: int, video: P.Candidate, videoIndex: Option<int>)
      modifies this
      ensures State() == P.Prioritize(old(State()), now, video, videoIndex)
    {
      if curVideoId == "" {
        curVideoId := video.Video().videoId;
      }
      var newPlaylist := if videoIndex.Some? then P.DropIndex(playlist, videoIndex.value) else playlist;
      playlist := [P.Stamp(now, video)] + newPlaylist;
    }

    /** The drawer's delete button for the entry at `videoIndex`. */
    method Delete(videoIndex: int)
      modifies this
      ensures State() == P.Delete(old(State()), videoIndex)
    {
      playlist := P.DropIndex(playlist, videoIndex);
    }

    /** The confirmed "clear all" button. */
    method ClearAll()
      modifies this
      ensures State() == P.ClearAll(old(State()))
    {
      playlist := [];
    }

    /** The player's end-of-video callback. */
    method NextSong()
      modifies this
      ensures State() == P.NextSong(old(State()))
    {
      curVideoId := "";
    }
  }

  /**
   * A session driven through the handlers, with the effect after each one:
   * two videos are queued on an idle player, each plays in turn, and the
   * player ends idle.
   */
  method PlaybackSession(x1: VideoRef, x2: VideoRef)
    requires x1.videoId == "x1" && x2.videoId == "x2"
  {
    var player := new Player();
    player.AddVideoToPlaylist(1, P.FromCatalog(x1));
    assert player.playlist == [P.Entry(1, x1)] && player.curVideoId == "";
    player.Advance();
    assert player.curVideoId == "x1" && player.playlist == [];
    player.AddVideoToPlaylist(2, P.FromCatalog(x2));
    player.Advance();
    assert player.curVideoId == "x1" && player.playlist == [P.Entry(2, x2)];
    player.NextSong();
    assert player.curVideoId == "" && player.playlist == [P.Entry(2, x2)];
    player.Advance();
    assert player.curVideoId == "x2" && player.playlist == [];
    player.NextSong();
    player.Advance();
    assert player.State() == P.Queue([], "");
  }

  /**
   * Promoting from the drawer: with `[a, b, c]` queued behind a playing video,
   * promoting `b` (position 1) gives `[b, a, c]`, the old slot of `b` gone.
   */
  method PromoteSession(playing: string, a: P.Entry, b: P.Entry, c: P.Entry)
    requires playing != ""
  {
    var player := new Player.Restore([a, b, c], playing);
    player.PriorityVideo(9, P.FromPlaylist(b), Some(1));
    assert player.playlist == [b, a, c] && player.curVideoId == playing;
    player.Advance();
    assert player.playlist == [b, a, c];
  }
}
