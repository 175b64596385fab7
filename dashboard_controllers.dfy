/** The dashboard handlers: a channel's statistics and its published videos. */
module DashboardControllers {
  import opened Results
  import opened Query
  import opened Edges
  import opened Documents
  import opened VideoModel
  import opened Store
  import opened SubscriptionControllers

  /** `{ totalVideos, totalViews, totalSubscribers, totalLikes }`. */
  datatype Stats = Stats(totalVideos: nat, totalViews: nat, totalSubscribers: nat, totalLikes: nat)

  /** The query `{ owner: channel, isPublished: true }`. */
  function PublishedByChannel(channel: Id): Video -> bool {
    (v: Video) => v.owner == channel && v.fields.isPublished
  }

  /** The channel's published videos, in natural order. */
  function PublishedBy(videos: seq<Video>, channel: Id): (r: seq<Video>)
    ensures forall v :: v in r <==> v in videos && v.owner == channel && v.fields.isPublished
  {
    Filter(videos, PublishedByChannel(channel))
  }

  /** `$group` with `$sum: "$views"`, and `|| 0` when there is no group: zero exactly when no
      video in the group has a view. */
  function SumViews(videos: seq<Video>): (n: nat)
    ensures n == 0 <==> forall k :: 0 <= k < |videos| ==> videos[k].fields.views == 0
  {
    if videos == [] then 0
    else
      assert forall k :: 1 <= k < |videos| ==> videos[k] == videos[1..][k - 1];
      videos[0].fields.views + SumViews(videos[1..])
  }

  /** The sum over two groups of videos is the sum of their sums. */
  lemma {:induction false} SumViewsAppend(a: seq<Video>, b: seq<Video>)
    ensures SumViews(a + b) == SumViews(a) + SumViews(b)
  {
    if a == [] {
      assert a + b == b;
    } else {
      assert (a + b)[0] == a[0] && (a + b)[1..] == a[1..] + b;
      SumViewsAppend(a[1..], b);
    }
  }

  /** The total is at least the views of each video in it. */
  lemma {:induction false} SumViewsBound(videos: seq<Video>, k: nat)
    requires k < |videos|
    ensures videos[k].fields.views <= SumViews(videos)
  {
    if k > 0 {
      SumViewsBound(videos[1..], k - 1);
    }
  }

  /** A like the likes aggregation counts for the channel: it points at a video, `$lookup`
      finds that video, and the video's owner is the channel. */
  predicate CountsFor(l: Like, videos: seq<Video>, channel: Id)
    ensures CountsFor(l, videos, channel) ==>
      && l.target.VideoTarget?
      && exists k :: 0 <= k < |videos| && videos[k].id == l.target.video && videos[k].owner == channel
    ensures UniqueIds(videos) && l.target.VideoTarget? ==>
      (CountsFor(l, videos, channel) <==>
        exists k :: 0 <= k < |videos| && videos[k].id == l.target.video && videos[k].owner == channel)
  {
    l.target.VideoTarget? &&
    match Find(videos, l.target.video)
    case Some(k) => videos[k].owner == channel
    case None => false
  }

  function OnChannelVideo(videos: seq<Video>, channel: Id): Like -> bool {
    (l: Like) => CountsFor(l, videos, channel)
  }

  /** The likes aggregation: `$lookup` + `$unwind` + `$match` + `$sum: 1`, and `|| 0`. */
  function LikesOnChannel(likes: seq<Like>, videos: seq<Video>, channel: Id): (n: nat)
    ensures n == |Filter(likes, OnChannelVideo(videos, channel))|
    ensures n <= |likes|
    ensures n == 0 <==> forall l :: l in likes ==> !CountsFor(l, videos, channel)
  {
    var counted := Filter(likes, OnChannelVideo(videos, channel));
    assert counted != [] ==> counted[0] in counted;
    CountWhere(likes, OnChannelVideo(videos, channel))
  }

  /** The four statistics of a channel over one state of the store. Each count is bounded by its
      collection, and a channel without published videos has no views. */
  function ChannelStats(s: Snapshot, channel: Id): (r: Stats)
    ensures r.totalVideos <= |s.videos| && r.totalSubscribers <= |s.subscriptions| && r.totalLikes <= |s.likes|
    ensures r.totalVideos == 0 ==> r.totalViews == 0
  {
    var published := PublishedBy(s.videos, channel);
    Stats(|published|, SumViews(published), |SubscribersOf(s.subscriptions, channel)|,
          LikesOnChannel(s.likes, s.videos, channel))
  }

  /** getChannelStats: 401 without a caller, 400 for a missing or ill-formed channel id;
      otherwise the channel's statistics. A channel nobody knows gets all zeros. */
  function GetChannelStats(db: Db, caller: Option<Id>, channelId: Id): (r: Result<Stats>)
    reads db
    ensures caller.None? ==> r == Err(Unauthenticated)
    ensures caller.Some? && db.Malformed(channelId) ==> r == Err(BadRequest)
    ensures caller.Some? && !db.Malformed(channelId) ==> r == Ok(ChannelStats(db.State(), channelId))
  {
    if caller.None? then Err(Unauthenticated)
    else if db.Malformed(channelId) then Err(BadRequest)
    else Ok(ChannelStats(db.State(), channelId))
  }

  /** A channel with no videos reports zero for every video aggregate instead of failing. */
  lemma NoVideosZeroStats(s: Snapshot, channel: Id)
    requires forall v :: v in s.videos ==> v.owner != channel
    ensures ChannelStats(s, channel).totalVideos == 0
    ensures ChannelStats(s, channel).totalViews == 0
    ensures ChannelStats(s, channel).totalLikes == 0
  {
    forall l | l in s.likes ensures !OnChannelVideo(s.videos, channel)(l) {
      if l.target.VideoTarget? && Find(s.videos, l.target.video).Some? {
        var k := Find(s.videos, l.target.video).value;
        assert s.videos[k] in s.videos;
      }
    }
    CountNone(s.likes, OnChannelVideo(s.videos, channel));
  }

  /** totalViews is at least the view count of each published video of the channel. */
  lemma TotalViewsCoverEachVideo(s: Snapshot, channel: Id, v: Video)
    requires v in s.videos && v.owner == channel && v.fields.isPublished
    ensures v.fields.views <= ChannelStats(s, channel).totalViews
  {
    var published := PublishedBy(s.videos, channel);
    var k :| 0 <= k < |published| && published[k] == v;
    SumViewsBound(published, k);
  }

  /** togglePublishStatus on a video of the channel moves totalVideos by one and totalViews by
      the video's views: up when it becomes published, down when it is hidden. */
  lemma PublishToggleMovesTotals(s: Snapshot, k: nat, channel: Id)
    requires k < |s.videos| && s.videos[k].owner == channel
    ensures var v := s.videos[k];
      var after := s.(videos := s.videos[k := v.(fields := v.fields.(isPublished := !v.fields.isPublished))]);
      var sign := if v.fields.isPublished then -1 else 1;
      && ChannelStats(after, channel).totalVideos as int == ChannelStats(s, channel).totalVideos as int + sign
      && ChannelStats(after, channel).totalViews as int == ChannelStats(s, channel).totalViews as int + sign * v.fields.views
  {
    var v := s.videos[k];
    var w := v.(fields := v.fields.(isPublished := !v.fields.isPublished));
    var a, b := s.videos[..k], s.videos[k + 1..];
    var p := PublishedByChannel(channel);
    assert s.videos == a + [v] + b;
    assert s.videos[k := w] == a + [w] + b;
    PublishedAround(a, v, b, channel);
    PublishedAround(a, w, b, channel);
  }

  /** The published videos and their views around one video `v` of the channel. */
  lemma PublishedAround(a: seq<Video>, v: Video, b: seq<Video>, channel: Id)
    requires v.owner == channel
    ensures var p := PublishedByChannel(channel);
      var one := if v.fields.isPublished then 1 else 0;
      && |PublishedBy(a + [v] + b, channel)| == |Filter(a, p)| + one + |Filter(b, p)|
      && SumViews(PublishedBy(a + [v] + b, channel)) == SumViews(Filter(a, p)) + one * v.fields.views + SumViews(Filter(b, p))
  {
    var p := PublishedByChannel(channel);
    var mid := Filter([v], p);
    FilterAppend(a + [v], b, p);
    FilterAppend(a, [v], p);
    assert mid == if v.fields.isPublished then [v] else [] by {
      FilterCons(v, [], p);
      assert [v] + [] == [v];
    }
    SumViewsAppend(Filter(a, p) + mid, Filter(b, p));
    SumViewsAppend(Filter(a, p), mid);
  }

  /** Once a video is deleted, no like on it counts towards totalLikes any more: `$unwind`
      drops a like whose `$lookup` finds nothing. */
  lemma DeletedVideoLikesNotCounted(videos: seq<Video>, k: nat, like: Like, channel: Id)
    requires UniqueIds(videos) && k < |videos|
    requires like.target == VideoTarget(videos[k].id)
    ensures !CountsFor(like, RemoveAt(videos, k), channel)
  {
    var rest := RemoveAt(videos, k);
    forall j | 0 <= j < |rest| ensures rest[j].id != videos[k].id {
      if j < k {
        assert rest[j] == videos[j];
      } else {
        assert rest[j] == videos[j + 1];
      }
    }
  }

  /** A like toggle on a video of the channel moves totalLikes by one: up for a like, down for
      an unlike. */
  lemma VideoLikeToggleMovesTotalLikes(s: Snapshot, user: Id, video: Id, channel: Id)
    requires Find(s.videos, video).Some? && s.videos[Find(s.videos, video).value].owner == channel
    ensures var like := Like(user, VideoTarget(video));
      LikesOnChannel(Toggled(s.likes, like), s.videos, channel) as int ==
        LikesOnChannel(s.likes, s.videos, channel) as int + (if like in s.likes then -1 else 1)
  {
    ToggleCount(s.likes, Like(user, VideoTarget(video)), OnChannelVideo(s.videos, channel));
  }

  /** Any other like toggle (on a comment, a tweet, a missing video, or another channel's video)
      leaves totalLikes as it was. */
  lemma OtherLikeToggleKeepsTotalLikes(s: Snapshot, like: Like, channel: Id)
    requires !CountsFor(like, s.videos, channel)
    ensures LikesOnChannel(Toggled(s.likes, like), s.videos, channel) == LikesOnChannel(s.likes, s.videos, channel)
  {
    ToggleCount(s.likes, like, OnChannelVideo(s.videos, channel));
  }

  /** A subscription toggle on the channel moves totalSubscribers by one. */
  lemma SubscriptionToggleMovesSubscribers(subs: seq<Subscription>, subscriber: Id, channel: Id)
    ensures var sub := Subscription(subscriber, channel);
      |SubscribersOf(Toggled(subs, sub), channel)| as int ==
        |SubscribersOf(subs, channel)| as int + (if sub in subs then -1 else 1)
  {
    ToggleCount(subs, Subscription(subscriber, channel), OnChannel(channel));
  }

  /** Users A and B like channel C's video: totalLikes is 2; A toggles again: it is 1. */
  lemma TwoLikesThenUnlike()
    ensures var v := Owned("v1", "C", 0, VideoFields("f", "t", "title", "d", 1.0, 0, true));
      var likeA := Like("A", VideoTarget("v1"));
      var likeB := Like("B", VideoTarget("v1"));
      var afterA := Toggled([], likeA);
      var afterB := Toggled(afterA, likeB);
      var againA := Toggled(afterB, likeA);
      && LikesOnChannel(afterB, [v], "C") == 2
      && LikesOnChannel(againA, [v], "C") == 1
  {
    var v := Owned("v1", "C", 0, VideoFields("f", "t", "title", "d", 1.0, 0, true));
    var likeA := Like("A", VideoTarget("v1"));
    var likeB := Like("B", VideoTarget("v1"));
    var s0 := Snapshot([v], [], [], [], [], []);
    assert Find([v], "v1") == Some(0);
    CountNone([], OnChannelVideo([v], "C"));
    VideoLikeToggleMovesTotalLikes(s0, "A", "v1", "C");
    var afterA := Toggled([], likeA);
    VideoLikeToggleMovesTotalLikes(s0.(likes := afterA), "B", "v1", "C");
    var afterB := Toggled(afterA, likeB);
    assert afterB == [likeA, likeB];
    VideoLikeToggleMovesTotalLikes(s0.(likes := afterB), "A", "v1", "C");
  }

  /** getChannelStats as written: the views and likes aggregations compare the stored `owner`,
      a String under the schema, with `new ObjectId(channelId)`; aggregation stages do not cast,
      so neither ever matches and both totals are always 0. */
  function GetChannelStatsAsWritten(db: Db, caller: Option<Id>, channelId: Id): (r: Result<Stats>)
    reads db
    ensures r.Ok? ==> r.value.totalViews == 0 && r.value.totalLikes == 0
    ensures r.Ok? <==> GetChannelStats(db, caller, channelId).Ok?
    ensures r.Ok? ==> r.value.totalVideos == GetChannelStats(db, caller, channelId).value.totalVideos
    ensures r.Ok? ==> r.value.totalSubscribers == GetChannelStats(db, caller, channelId).value.totalSubscribers
  {
    match GetChannelStats(db, caller, channelId)
    case Err(code) => Err(code)
    case Ok(stats) => Ok(stats.(totalViews := 0, totalLikes := 0))
  }

  /** The input that shows it: a channel with a published, viewed video that someone liked gets
      totalViews 0 and totalLikes 0 as written, where the corrected handler reports both. */
  lemma StatsAsWrittenMissViewsAndLikes(db: Db, caller: Id, k: nat, fan: Id)
    requires db.Valid() && k < |db.videos|
    requires db.videos[k].fields.isPublished && db.videos[k].fields.views > 0
    requires Like(fan, VideoTarget(db.videos[k].id)) in db.likes
    requires !db.Malformed(db.videos[k].owner)
    ensures var channel := db.videos[k].owner;
      && GetChannelStatsAsWritten(db, Some(caller), channel).value.totalViews == 0
      && GetChannelStatsAsWritten(db, Some(caller), channel).value.totalLikes == 0
      && GetChannelStats(db, Some(caller), channel).value.totalViews > 0
      && GetChannelStats(db, Some(caller), channel).value.totalLikes > 0
  {
    var v := db.videos[k];
    TotalViewsCoverEachVideo(db.State(), v.owner, v);
    FindUnique(db.videos, k);
    CountSome(db.likes, OnChannelVideo(db.videos, v.owner), Like(fan, VideoTarget(v.id)));
  }

  /** getChannelVideos: 401, 400; otherwise all the channel's published videos, newest first
      (no paging, and no check that the channel exists). */
  function GetChannelVideos(db: Db, caller: Option<Id>, channelId: Id): (r: Result<seq<Video>>)
    reads db
    ensures caller.None? ==> r == Err(Unauthenticated)
    ensures caller.Some? && db.Malformed(channelId) ==> r == Err(BadRequest)
    ensures caller.Some? && !db.Malformed(channelId) ==> r.Ok?
    ensures r.Ok? ==> multiset(r.value) == multiset(PublishedBy(db.videos, channelId))
    ensures r.Ok? ==> forall v :: v in r.value <==> v in db.videos && v.owner == channelId && v.fields.isPublished
    ensures r.Ok? ==> forall i, j :: 0 <= i < j < |r.value| ==> r.value[j].createdAt <= r.value[i].createdAt
    ensures r.Ok? ==> |r.value| == ChannelStats(db.State(), channelId).totalVideos
  {
    if caller.None? then Err(Unauthenticated)
    else if db.Malformed(channelId) then Err(BadRequest)
    else
      var r := NewestFirst(PublishedBy(db.videos, channelId));
      assert forall v :: v in r <==> v in multiset(PublishedBy(db.videos, channelId));
      Ok(r)
  }
}
