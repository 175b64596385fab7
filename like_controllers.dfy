/** The like handlers: toggle a like on a video, a comment or a tweet, and list the videos the
    caller likes. */
module LikeControllers {
  import opened Results
  import opened Query
  import opened Edges
  import opened Documents
  import opened VideoModel
  import opened Store

  /** The id a like's target carries. */
  function TargetId(t: Target): Id {
    match t
    case VideoTarget(v) => v
    case CommentTarget(c) => c
    case TweetTarget(w) => w
  }

  /** What the three toggle handlers share: 401 without a caller, 400 for a missing or
      ill-formed id; otherwise the caller's like on the target is deleted when it exists and
      created when it does not, and the answer `isLiked` says whether it exists now. Whether the
      target itself exists is not checked. */
  method ToggleLike(db: Db, caller: Option<Id>, raw: Id, target: Target) returns (r: Result<bool>)
    requires db.Valid()
    requires TargetId(target) == raw
    modifies db
    ensures db.Valid()
    ensures r.Err? ==> db.State() == old(db.State())
    ensures caller.None? ==> r == Err(Unauthenticated)
    ensures caller.Some? && db.Malformed(raw) ==> r == Err(BadRequest)
    ensures caller.Some? && !db.Malformed(raw) ==>
      var like := Like(caller.value, target);
      && r == Ok(like !in old(db.likes))
      && db.State() == old(db.State()).(likes := Toggled(old(db.likes), like))
    ensures r.Ok? ==> (r.value <==> Like(caller.value, target) in db.likes)
  {
    if caller.None? {
      return Err(Unauthenticated);
    }
    if db.Malformed(raw) {
      return Err(BadRequest);
    }
    var like := Like(caller.value, target);
    ToggleKeepsNoDup(db.likes, like);
    ConsistentWithLikes(db.State(), Toggled(db.likes, like));
    var existing := FindFirst(db.likes, like);
    if existing.Some? {
      db.likes := RemoveAt(db.likes, existing.value);
      r := Ok(false);
    } else {
      db.likes := db.likes + [like];
      r := Ok(true);
    }
  }

  /** toggleVideoLike */
  method ToggleVideoLike(db: Db, caller: Option<Id>, videoId: Id) returns (r: Result<bool>)
    requires db.Valid()
    modifies db
    ensures db.Valid()
    ensures r.Err? ==> db.State() == old(db.State())
    ensures caller.None? ==> r == Err(Unauthenticated)
    ensures caller.Some? && db.Malformed(videoId) ==> r == Err(BadRequest)
    ensures caller.Some? && !db.Malformed(videoId) ==>
      var like := Like(caller.value, VideoTarget(videoId));
      && r == Ok(like !in old(db.likes))
      && db.State() == old(db.State()).(likes := Toggled(old(db.likes), like))
  {
    r := ToggleLike(db, caller, videoId, VideoTarget(videoId));
  }

  /** toggleCommentLike */
  method ToggleCommentLike(db: Db, caller: Option<Id>, commentId: Id) returns (r: Result<bool>)
    requires db.Valid()
    modifies db
    ensures db.Valid()
    ensures r.Err? ==> db.State() == old(db.State())
    ensures caller.None? ==> r == Err(Unauthenticated)
    ensures caller.Some? && db.Malformed(commentId) ==> r == Err(BadRequest)
    ensures caller.Some? && !db.Malformed(commentId) ==>
      var like := Like(caller.value, CommentTarget(commentId));
      && r == Ok(like !in old(db.likes))
      && db.State() == old(db.State()).(likes := Toggled(old(db.likes), like))
  {
    r := ToggleLike(db, caller, commentId, CommentTarget(commentId));
  }

  /** toggleTweetLike */
  method ToggleTweetLike(db: Db, caller: Option<Id>, tweetId: Id) returns (r: Result<bool>)
    requires db.Valid()
    modifies db
    ensures db.Valid()
    ensures r.Err? ==> db.State() == old(db.State())
    ensures caller.None? ==> r == Err(Unauthenticated)
    ensures caller.Some? && db.Malformed(tweetId) ==> r == Err(BadRequest)
    ensures caller.Some? && !db.Malformed(tweetId) ==>
      var like := Like(caller.value, TweetTarget(tweetId));
      && r == Ok(like !in old(db.likes))
      && db.State() == old(db.State()).(likes := Toggled(old(db.likes), like))
  {
    r := ToggleLike(db, caller, tweetId, TweetTarget(tweetId));
  }

  /** Two toggles by the same user on the same target report opposite states (the second
      reports whether the like existed before the first) and leave the likes as they were (as
      a multiset; exactly, when the target was not liked before). */
  lemma ToggleTwiceIsIdentity(likes: seq<Like>, user: Id, target: Target)
    requires NoDup(likes)
    ensures var like := Like(user, target);
      && (like !in Toggled(likes, like) <==> like in likes)
      && multiset(Toggled(Toggled(likes, like), like)) == multiset(likes)
  {
    ToggleKeepsNoDup(likes, Like(user, target));
    ToggleTwiceRestores(likes, Like(user, target));
  }

  /** `Like.find({ likedBy: user, video: { $exists: true, $ne: null } })`. */
  function VideoLikesOf(likes: seq<Like>, user: Id): (r: seq<Like>)
    ensures forall l :: l in r <==> l in likes && l.likedBy == user && l.target.VideoTarget?
  {
    Filter(likes, (l: Like) => l.likedBy == user && l.target.VideoTarget?)
  }

  /** `.populate("video")` followed by `map(like => like.video)`: for each like, the liked video,
      or null when no video has that id any more. */
  function PopulateVideos(likes: seq<Like>, videos: seq<Video>): (r: seq<Option<Video>>)
    requires forall l :: l in likes ==> l.target.VideoTarget?
    ensures |r| == |likes|
    ensures forall k :: 0 <= k < |r| ==> r[k] == Lookup(videos, likes[k].target.video)
    ensures forall k :: 0 <= k < |r| && r[k].Some? ==>
      r[k].value in videos && r[k].value.id == likes[k].target.video
    ensures forall k :: 0 <= k < |r| && r[k].None? ==>
      forall v :: v in videos ==> v.id != likes[k].target.video
  {
    if likes == [] then []
    else [Lookup(videos, likes[0].target.video)] + PopulateVideos(likes[1..], videos)
  }

  /** getLikedVideos: 401 without a caller; otherwise one page of the caller's video likes, in
      the order they are stored (the order they were made in), each replaced by the video it
      points at (null when it is gone). */
  function GetLikedVideos(db: Db, caller: Option<Id>, page: int, limit: int): (r: Result<seq<Option<Video>>>)
    reads db
    ensures caller.None? ==> r == Err(Unauthenticated)
    ensures caller.Some? ==> (r.Ok? <==> (page - 1) * limit >= 0)
    ensures r.Err? ==> r.code in {Unauthenticated, ServerError}
    ensures r.Ok? && limit != 0 ==> |r.value| <= Abs(limit)
    ensures r.Ok? ==> forall k :: 0 <= k < |r.value| && r.value[k].Some? ==>
      r.value[k].value in db.videos && Like(caller.value, VideoTarget(r.value[k].value.id)) in db.likes
    ensures r.Ok? ==>
      r.value == PopulateVideos(Window(VideoLikesOf(db.likes, caller.value), (page - 1) * limit, limit), db.videos)
  {
    if caller.None? then Err(Unauthenticated)
    else
      var mine := VideoLikesOf(db.likes, caller.value);
      match Page(mine, page, limit)
      case Err(code) => Err(code)
      case Ok(window) => Ok(PopulateVideos(window, db.videos))
  }

  /** Paging through the liked videos neither skips nor repeats one: page `k` (from 1) of size
      `limit` is the populated part of the caller's video likes from where page `k - 1` ends to
      where page `k` ends. */
  lemma LikedPageSlice(db: Db, user: Id, k: nat, limit: nat)
    requires k >= 1 && limit >= 1
    ensures var all := VideoLikesOf(db.likes, user);
      var r := GetLikedVideos(db, Some(user), k, limit);
      && PagesEnd(k - 1, limit, |all|) <= PagesEnd(k, limit, |all|)
      && r.Ok? && r.value == PopulateVideos(all[PagesEnd(k - 1, limit, |all|)..PagesEnd(k, limit, |all|)], db.videos)
  {
    PageIsSlice(VideoLikesOf(db.likes, user), k, limit);
  }

  /** After a user likes a video (a toggle that reports `isLiked`), the like is among the
      user's video likes that getLikedVideos pages over; after the unlike it is not. */
  lemma ToggledLikeListed(likes: seq<Like>, user: Id, video: Id)
    requires NoDup(likes)
    ensures var like := Like(user, VideoTarget(video));
      like in VideoLikesOf(Toggled(likes, like), user) <==> like !in likes
  {
    ToggleKeepsNoDup(likes, Like(user, VideoTarget(video)));
  }
}
