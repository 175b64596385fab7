/** The subscription handlers: toggle a subscription and list a channel's subscribers or a
    user's channels. */
module SubscriptionControllers {
  import opened Results
  import opened Query
  import opened Edges
  import opened Documents
  import opened Store

  /** toggleSubscription: 401 without a caller, 400 for a missing or ill-formed channel id, 403
      when the caller names their own channel; otherwise the subscription is deleted when it
      exists and created when it does not, and `isSubscribed` says whether it exists now. */
  method ToggleSubscription(db: Db, caller: Option<Id>, channelId: Id) returns (r: Result<bool>)
    requires db.Valid()
    modifies db
    ensures db.Valid()
    ensures r.Err? ==> db.State() == old(db.State())
    ensures caller.None? ==> r == Err(Unauthenticated)
    ensures caller.Some? && db.Malformed(channelId) ==> r == Err(BadRequest)
    ensures caller.Some? && !db.Malformed(channelId) && caller.value == channelId ==> r == Err(Forbidden)
    ensures caller.Some? && !db.Malformed(channelId) && caller.value != channelId ==>
      var sub := Subscription(caller.value, channelId);
      && r == Ok(sub !in old(db.subscriptions))
      && db.State() == old(db.State()).(subscriptions := Toggled(old(db.subscriptions), sub))
    ensures r.Ok? ==> (r.value <==> Subscription(caller.value, channelId) in db.subscriptions)
  {
    if caller.None? {
      return Err(Unauthenticated);
    }
    if db.Malformed(channelId) {
      return Err(BadRequest);
    }
    if caller.value == channelId {
      return Err(Forbidden);
    }
    var sub := Subscription(caller.value, channelId);
    ToggleKeepsNoDup(db.subscriptions, sub);
    forall k | 0 <= k < |Toggled(db.subscriptions, sub)|
      ensures Toggled(db.subscriptions, sub)[k].subscriber != Toggled(db.subscriptions, sub)[k].channel
    {
      assert Toggled(db.subscriptions, sub)[k] in Toggled(db.subscriptions, sub);
    }
    ConsistentWithSubscriptions(db.State(), Toggled(db.subscriptions, sub));
    var existing := FindFirst(db.subscriptions, sub);
    if existing.Some? {
      db.subscriptions := RemoveAt(db.subscriptions, existing.value);
      r := Ok(false);
    } else {
      db.subscriptions := db.subscriptions + [sub];
      r := Ok(true);
    }
  }

  /** The query `{ channel }`. */
  function OnChannel(channel: Id): Subscription -> bool {
    (s: Subscription) => s.channel == channel
  }

  /** The subscriptions whose channel is `channel`, in natural order. */
  function SubscribersOf(subs: seq<Subscription>, channel: Id): (r: seq<Subscription>)
    ensures forall s :: s in r <==> s in subs && s.channel == channel
  {
    Filter(subs, OnChannel(channel))
  }

  /** The subscriptions whose subscriber is `subscriber`, in natural order. */
  function ChannelsOf(subs: seq<Subscription>, subscriber: Id): (r: seq<Subscription>)
    ensures forall s :: s in r <==> s in subs && s.subscriber == subscriber
  {
    Filter(subs, (s: Subscription) => s.subscriber == subscriber)
  }

  /** The steps both listing handlers share: 401, 400 for a missing or ill-formed user id, 404
      when no account has that id, then one page of the selected subscriptions. */
  function ListFor(db: Db, caller: Option<Id>, userId: Id, selected: seq<Subscription>, page: int, limit: int)
    : (r: Result<seq<Subscription>>)
    reads db
    ensures caller.None? ==> r == Err(Unauthenticated)
    ensures caller.Some? && db.Malformed(userId) ==> r == Err(BadRequest)
    ensures caller.Some? && !db.Malformed(userId) && userId !in db.users ==> r == Err(NotFound)
    ensures caller.Some? && !db.Malformed(userId) && userId in db.users ==> r == Page(selected, page, limit)
  {
    if caller.None? then Err(Unauthenticated)
    else if db.Malformed(userId) then Err(BadRequest)
    else if userId !in db.users then Err(NotFound)
    else Page(selected, page, limit)
  }

  /** getUserChannelSubscribers: one page of the channel's subscriptions. */
  function GetUserChannelSubscribers(db: Db, caller: Option<Id>, channelId: Id, page: int, limit: int)
    : (r: Result<seq<Subscription>>)
    reads db
    ensures caller.None? ==> r == Err(Unauthenticated)
    ensures caller.Some? && db.Malformed(channelId) ==> r == Err(BadRequest)
    ensures caller.Some? && !db.Malformed(channelId) && channelId !in db.users ==> r == Err(NotFound)
    ensures caller.Some? && !db.Malformed(channelId) && channelId in db.users ==>
      (r.Ok? <==> (page - 1) * limit >= 0)
    ensures r.Ok? ==> forall s :: s in r.value ==> s in db.subscriptions && s.channel == channelId
    ensures r.Ok? && limit != 0 ==> |r.value| <= Abs(limit)
    ensures r.Ok? ==> r.value == Window(SubscribersOf(db.subscriptions, channelId), (page - 1) * limit, limit)
  {
    ListFor(db, caller, channelId, SubscribersOf(db.subscriptions, channelId), page, limit)
  }

  /** getSubscribedChannels: one page of the subscriber's subscriptions. */
  function GetSubscribedChannels(db: Db, caller: Option<Id>, subscriberId: Id, page: int, limit: int)
    : (r: Result<seq<Subscription>>)
    reads db
    ensures caller.None? ==> r == Err(Unauthenticated)
    ensures caller.Some? && db.Malformed(subscriberId) ==> r == Err(BadRequest)
    ensures caller.Some? && !db.Malformed(subscriberId) && subscriberId !in db.users ==> r == Err(NotFound)
    ensures caller.Some? && !db.Malformed(subscriberId) && subscriberId in db.users ==>
      (r.Ok? <==> (page - 1) * limit >= 0)
    ensures r.Ok? ==> forall s :: s in r.value ==> s in db.subscriptions && s.subscriber == subscriberId
    ensures r.Ok? && limit != 0 ==> |r.value| <= Abs(limit)
    ensures r.Ok? ==> r.value == Window(ChannelsOf(db.subscriptions, subscriberId), (page - 1) * limit, limit)
  {
    ListFor(db, caller, subscriberId, ChannelsOf(db.subscriptions, subscriberId), page, limit)
  }

  /** Paging through a channel's subscribers neither skips nor repeats one: page `k` (from 1)
      of size `limit` holds the subscriptions, in natural order, from where page `k - 1` ends
      to where page `k` ends. */
  lemma SubscriberPageSlice(db: Db, caller: Id, channelId: Id, k: nat, limit: nat)
    requires k >= 1 && limit >= 1 && !db.Malformed(channelId) && channelId in db.users
    ensures var all := SubscribersOf(db.subscriptions, channelId);
      var r := GetUserChannelSubscribers(db, Some(caller), channelId, k, limit);
      && PagesEnd(k - 1, limit, |all|) <= PagesEnd(k, limit, |all|)
      && r.Ok? && r.value == all[PagesEnd(k - 1, limit, |all|)..PagesEnd(k, limit, |all|)]
  {
    PageIsSlice(SubscribersOf(db.subscriptions, channelId), k, limit);
  }

  /** The same for the channels a user subscribes to. */
  lemma ChannelPageSlice(db: Db, caller: Id, subscriberId: Id, k: nat, limit: nat)
    requires k >= 1 && limit >= 1 && !db.Malformed(subscriberId) && subscriberId in db.users
    ensures var all := ChannelsOf(db.subscriptions, subscriberId);
      var r := GetSubscribedChannels(db, Some(caller), subscriberId, k, limit);
      && PagesEnd(k - 1, limit, |all|) <= PagesEnd(k, limit, |all|)
      && r.Ok? && r.value == all[PagesEnd(k - 1, limit, |all|)..PagesEnd(k, limit, |all|)]
  {
    PageIsSlice(ChannelsOf(db.subscriptions, subscriberId), k, limit);
  }

  /** In a consistent store a channel never appears among its own subscribers, and each user
      appears at most once among a channel's subscribers. */
  lemma {:induction false} SubscribersDistinct(subs: seq<Subscription>, channel: Id)
    requires NoDup(subs)
    requires forall k :: 0 <= k < |subs| ==> subs[k].subscriber != subs[k].channel
    ensures NoDup(SubscribersOf(subs, channel))
    ensures Subscription(channel, channel) !in SubscribersOf(subs, channel)
  {
    var r := SubscribersOf(subs, channel);
    NoDupMultiset(subs);
    FilterMultiset(subs, OnChannel(channel));
    NoDupMultiset(r);
    assert Subscription(channel, channel) !in subs;
  }
}
