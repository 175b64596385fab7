/** The tweet handlers: create, list the caller's tweets, update and delete a tweet. */
module TweetControllers {
  import opened Results
  import opened Text
  import opened Query
  import opened Documents
  import opened Store

  /** createTweet: 401 without a caller, 400 when the content is empty once trimmed; otherwise
      the trimmed content is stored as a new tweet of the caller. */
  method CreateTweet(db: Db, caller: Option<Id>, content: string, newId: Id, now: nat) returns (r: Result<Tweet>)
    requires db.Valid()
    modifies db
    ensures db.Valid()
    ensures r.Err? ==> db.State() == old(db.State())
    ensures caller.None? ==> r == Err(Unauthenticated)
    ensures caller.Some? && Trim(content) == "" ==> r == Err(BadRequest)
    ensures caller.Some? && Trim(content) != "" ==> (r.Ok? <==> Find(old(db.tweets), newId).None?)
    ensures r.Ok? ==>
      && caller.Some?
      && r.value == Owned(newId, caller.value, now, TweetFields(Trim(content)))
      && db.State() == old(db.State()).(tweets := old(db.tweets) + [r.value])
  {
    if caller.None? {
      return Err(Unauthenticated);
    }
    var text := Trim(content);
    if text == "" {
      return Err(BadRequest);
    }
    if Find(db.tweets, newId).Some? {
      // the insert is refused with a duplicate-key error
      return Err(ServerError);
    }
    var tweet := Owned(newId, caller.value, now, TweetFields(text));
    UniqueAfterAppend(db.tweets, tweet);
    ConsistentWithTweets(db.State(), db.tweets + [tweet]);
    db.tweets := db.tweets + [tweet];
    r := Ok(tweet);
  }

  /** `Tweet.find({ owner })`, in natural order. */
  function TweetsBy(tweets: seq<Tweet>, owner: Id): (r: seq<Tweet>)
    ensures forall t :: t in r <==> t in tweets && t.owner == owner
  {
    Filter(tweets, (t: Tweet) => t.owner == owner)
  }

  /** getUserTweets: 401 without a caller; otherwise one page of the caller's own tweets,
      newest first. */
  function GetUserTweets(db: Db, caller: Option<Id>, page: int, limit: int): (r: Result<seq<Tweet>>)
    reads db
    ensures caller.None? ==> r == Err(Unauthenticated)
    ensures caller.Some? ==> (r.Ok? <==> (page - 1) * limit >= 0)
    ensures r.Ok? ==> forall t :: t in r.value ==> t in db.tweets && t.owner == caller.value
    ensures r.Ok? ==> forall i, j :: 0 <= i < j < |r.value| ==> r.value[j].createdAt <= r.value[i].createdAt
    ensures r.Ok? && limit != 0 ==> |r.value| <= Abs(limit)
    ensures r.Ok? ==> r.value == Window(NewestFirst(TweetsBy(db.tweets, caller.value)), (page - 1) * limit, limit)
  {
    if caller.None? then Err(Unauthenticated)
    else NewestPage(TweetsBy(db.tweets, caller.value), page, limit)
  }

  /** Paging through the caller's tweets neither skips nor repeats one: page `k` (from 1) of
      size `limit` holds the newest-first tweets from where page `k - 1` ends to where page `k`
      ends. */
  lemma TweetPageSlice(db: Db, user: Id, k: nat, limit: nat)
    requires k >= 1 && limit >= 1
    ensures var all := NewestFirst(TweetsBy(db.tweets, user));
      var r := GetUserTweets(db, Some(user), k, limit);
      && PagesEnd(k - 1, limit, |all|) <= PagesEnd(k, limit, |all|)
      && r.Ok? && r.value == all[PagesEnd(k - 1, limit, |all|)..PagesEnd(k, limit, |all|)]
  {
    PageIsSlice(NewestFirst(TweetsBy(db.tweets, user)), k, limit);
  }

  /** updateTweet as written: the new content is read into a `const` binding that the handler
      then reassigns, which throws a TypeError once the owner guard has passed. So every request
      that passes the guard is answered with 500, and nothing is written. */
  function UpdateTweetAsWritten(db: Db, caller: Option<Id>, tweetId: Id, newContent: string): (r: Result<Tweet>)
    reads db
    ensures r.Err?
    ensures var g := OwnerGuard(db.isValidObjectId, caller, tweetId, db.tweets);
      r.code == if g.Err? then g.code else ServerError
  {
    match OwnerGuard(db.isValidObjectId, caller, tweetId, db.tweets)
    case Err(code) => Err(code)
    case Ok(_) => Err(ServerError)
  }

  /** The input that shows it: the owner of a stored tweet, sending non-blank content, gets 500
      from the handler as written; the corrected handler stores the content for exactly this
      request (its contract, with the guard passing). */
  lemma UpdateTweetRefusesOwner(db: Db, k: nat, newContent: string)
    requires db.Valid() && k < |db.tweets|
    requires !db.Malformed(db.tweets[k].id)
    ensures OwnerGuard(db.isValidObjectId, Some(db.tweets[k].owner), db.tweets[k].id, db.tweets) == Ok(k)
    ensures UpdateTweetAsWritten(db, Some(db.tweets[k].owner), db.tweets[k].id, newContent) == Err(ServerError)
  {
    FindUnique(db.tweets, k);
  }

  /** updateTweet as evidently intended: after the owner guard (401, 400, 404, 403) the new
      content is trimmed and refused when empty (400); otherwise only the tweet's content
      changes. */
  method UpdateTweet(db: Db, caller: Option<Id>, tweetId: Id, newContent: string) returns (r: Result<Tweet>)
    requires db.Valid()
    modifies db
    ensures db.Valid()
    ensures r.Err? ==> db.State() == old(db.State())
    ensures var g := OwnerGuard(db.isValidObjectId, caller, tweetId, old(db.tweets));
      && (g.Err? ==> r == Err(g.code))
      && (g.Ok? && Trim(newContent) == "" ==> r == Err(BadRequest))
      && (g.Ok? && Trim(newContent) != "" ==>
            var t := old(db.tweets)[g.value];
            && r == Ok(t.(fields := TweetFields(Trim(newContent))))
            && db.State() == old(db.State()).(tweets := old(db.tweets)[g.value := r.value]))
  {
    var g := OwnerGuard(db.isValidObjectId, caller, tweetId, db.tweets);
    if g.Err? {
      return Err(g.code);
    }
    var text := Trim(newContent);
    if text == "" {
      return Err(BadRequest);
    }
    var tweet := db.tweets[g.value].(fields := TweetFields(text));
    UniqueAfterReplace(db.tweets, g.value, tweet);
    ConsistentWithTweets(db.State(), db.tweets[g.value := tweet]);
    db.tweets := db.tweets[g.value := tweet];
    r := Ok(tweet);
  }

  /** deleteTweet: after the owner guard (401, 400, 404, 403) the tweet is removed. */
  method DeleteTweet(db: Db, caller: Option<Id>, tweetId: Id) returns (r: Result<()>)
    requires db.Valid()
    modifies db
    ensures db.Valid()
    ensures r.Err? ==> db.State() == old(db.State())
    ensures var g := OwnerGuard(db.isValidObjectId, caller, tweetId, old(db.tweets));
      && (g.Err? ==> r == Err(g.code))
      && (g.Ok? ==> r == Ok(()) && db.State() == old(db.State()).(tweets := RemoveAt(old(db.tweets), g.value)))
  {
    var g := OwnerGuard(db.isValidObjectId, caller, tweetId, db.tweets);
    if g.Err? {
      return Err(g.code);
    }
    UniqueAfterRemove(db.tweets, g.value);
    ConsistentWithTweets(db.State(), RemoveAt(db.tweets, g.value));
    db.tweets := RemoveAt(db.tweets, g.value);
    r := Ok(());
  }
}
