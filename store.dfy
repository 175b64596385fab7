/** The database the handlers run against: one collection per model, in natural (insertion)
    order, plus the user ids of the accounts (kept by an account service outside this model)
    and ObjectId validity, which the model leaves uninterpreted. */
module Store {
  import opened Results
  import opened Query
  import opened Edges
  import opened Documents
  import opened VideoModel

  datatype CommentFields = CommentFields(content: string, video: Id)
  type Comment = Owned<CommentFields>

  datatype TweetFields = TweetFields(content: string)
  type Tweet = Owned<TweetFields>

  /** A playlist: its videos are an ordered list of video ids. */
  datatype PlaylistFields = PlaylistFields(name: string, description: string, videos: seq<Id>)
  type Playlist = Owned<PlaylistFields>

  /** The one thing a Like points at: exactly one of video, comment or tweet is set. */
  datatype Target = VideoTarget(video: Id) | CommentTarget(comment: Id) | TweetTarget(tweet: Id)

  datatype Like = Like(likedBy: Id, target: Target)

  datatype Subscription = Subscription(subscriber: Id, channel: Id)

  /** The contents of all collections at one moment. */
  datatype Snapshot = Snapshot(
    videos: seq<Video>,
    comments: seq<Comment>,
    tweets: seq<Tweet>,
    playlists: seq<Playlist>,
    likes: seq<Like>,
    subscriptions: seq<Subscription>)

  /** What the handlers keep true of the store: ids are unique in each collection, there is at
      most one like per (user, target) and one subscription per (subscriber, channel), nobody
      subscribes to themselves, and no playlist lists a video twice. */
  ghost predicate Consistent(s: Snapshot) {
    && UniqueIds(s.videos) && UniqueIds(s.comments) && UniqueIds(s.tweets) && UniqueIds(s.playlists)
    && NoDup(s.likes) && NoDup(s.subscriptions)
    && NoSelfSubscription(s.subscriptions)
    && ListsWithoutRepeats(s.playlists)
  }

  /** No playlist lists a video twice. */
  ghost predicate ListsWithoutRepeats(playlists: seq<Playlist>) {
    forall k :: 0 <= k < |playlists| ==> NoDup(playlists[k].fields.videos)
  }

  /** Nobody subscribes to themselves. */
  ghost predicate NoSelfSubscription(subs: seq<Subscription>) {
    forall k :: 0 <= k < |subs| ==> subs[k].subscriber != subs[k].channel
  }

  // Each write replaces one collection; the invariant then rests on that collection alone.

  lemma ConsistentWithVideos(s: Snapshot, videos: seq<Video>)
    requires Consistent(s) && UniqueIds(videos)
    ensures Consistent(s.(videos := videos))
  {
  }

  lemma ConsistentWithComments(s: Snapshot, comments: seq<Comment>)
    requires Consistent(s) && UniqueIds(comments)
    ensures Consistent(s.(comments := comments))
  {
  }

  lemma ConsistentWithTweets(s: Snapshot, tweets: seq<Tweet>)
    requires Consistent(s) && UniqueIds(tweets)
    ensures Consistent(s.(tweets := tweets))
  {
  }

  lemma ConsistentWithPlaylists(s: Snapshot, playlists: seq<Playlist>)
    requires Consistent(s) && UniqueIds(playlists) && ListsWithoutRepeats(playlists)
    ensures Consistent(s.(playlists := playlists))
  {
  }

  lemma ConsistentWithLikes(s: Snapshot, likes: seq<Like>)
    requires Consistent(s) && NoDup(likes)
    ensures Consistent(s.(likes := likes))
  {
  }

  lemma ConsistentWithSubscriptions(s: Snapshot, subs: seq<Subscription>)
    requires Consistent(s) && NoDup(subs) && NoSelfSubscription(subs)
    ensures Consistent(s.(subscriptions := subs))
  {
  }

  /** Adding a playlist without repeats, changing one to one without repeats, or deleting one,
      keeps every playlist free of repeats. */
  lemma ListsAfterAppend(playlists: seq<Playlist>, p: Playlist)
    requires ListsWithoutRepeats(playlists) && NoDup(p.fields.videos)
    ensures ListsWithoutRepeats(playlists + [p])
  {
  }

  lemma ListsAfterReplace(playlists: seq<Playlist>, k: nat, p: Playlist)
    requires ListsWithoutRepeats(playlists) && k < |playlists| && NoDup(p.fields.videos)
    ensures ListsWithoutRepeats(playlists[k := p])
  {
  }

  lemma ListsAfterRemove(playlists: seq<Playlist>, k: nat)
    requires ListsWithoutRepeats(playlists) && k < |playlists|
    ensures ListsWithoutRepeats(RemoveAt(playlists, k))
  {
  }

  class Db {
    /** `isValidObjectId` of the database driver, left uninterpreted. */
    const isValidObjectId: Id -> bool
    /** Ids of the user accounts. */
    const users: set<Id>

    var videos: seq<Video>
    var comments: seq<Comment>
    var tweets: seq<Tweet>
    var playlists: seq<Playlist>
    var likes: seq<Like>
    var subscriptions: seq<Subscription>

    constructor (isValidObjectId: Id -> bool, users: set<Id>)
      ensures this.isValidObjectId == isValidObjectId && this.users == users
      ensures State() == Snapshot([], [], [], [], [], [])
      ensures Valid()
    {
      this.isValidObjectId := isValidObjectId;
      this.users := users;
      videos, comments, tweets, playlists, likes, subscriptions := [], [], [], [], [], [];
    }

    function State(): Snapshot
      reads this
    {
      Snapshot(videos, comments, tweets, playlists, likes, subscriptions)
    }

    ghost predicate Valid()
      reads this
    {
      Consistent(State())
    }

    /** The 400 check on an id taken from the request. */
    predicate Malformed(raw: Id)
      ensures raw == "" ==> Malformed(raw)
      ensures !Malformed(raw) ==> |raw| > 0 && isValidObjectId(raw)
    {
      Documents.Malformed(isValidObjectId, raw)
    }
  }
}
