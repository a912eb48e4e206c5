/** The read side of subscription.controller.js: a channel's subscribers and a user's subscribed channels. */
module SubscriptionQueries {
  import opened Results
  import opened Documents
  import opened Seqs
  import opened Relations
  import opened Records

  function ToChannel(channel: Id): Subscription -> bool {
    (s: Subscription) => s.channel == channel
  }

  function BySubscriber(subscriber: Id): Subscription -> bool {
    (s: Subscription) => s.subscriber == subscriber
  }

  /** Subscription.countDocuments({ channel }): the dashboard's subscriber count. */
  function SubscriberCount(subs: seq<Subscription>, channel: Id): nat {
    |Filter(subs, ToChannel(channel))|
  }

  /** One row of the subscriber list: the subscriber's public fields and whether it is the viewer. */
  datatype SubscriberEntry = SubscriberEntry(profile: Profile, isSubscribed: bool)

  /**
   * The aggregation pipeline: $match on the channel, $lookup of the subscriber account,
   * $unwind (which drops subscriptions whose subscriber account is gone), $addFields isSubscribed.
   */
  function SubscriberEntries(users: seq<Doc<User>>, subs: seq<Subscription>, channel: Id, viewer: Id)
    : (r: seq<SubscriberEntry>)
    ensures |r| <= SubscriberCount(subs, channel)
    ensures forall e | e in r ::
      && Subscription(e.profile.id, channel) in subs
      && e.profile.id in Ids(users)
      && e.profile == ProfileOf(users, e.profile.id).value
      && (e.isSubscribed <==> e.profile.id == viewer)
    ensures forall s | s in subs && s.channel == channel && s.subscriber in Ids(users) ::
      exists e | e in r :: e.profile.id == s.subscriber
  {
    if subs == [] then []
    else
      var s := subs[0];
      var rest := SubscriberEntries(users, subs[1..], channel, viewer);
      assert subs == [s] + subs[1..];
      FilterConcat([s], subs[1..], ToChannel(channel));
      FilterSingleton(s, ToChannel(channel));
      if s.channel == channel then
        match ProfileOf(users, s.subscriber)
        case Some(p) =>
          var e := SubscriberEntry(p, s.subscriber == viewer);
          assert e in [e] + rest;
          [e] + rest
        case None => rest
      else rest
  }

  /** When every subscriber account exists, the list is as long as the dashboard's subscriber count. */
  lemma {:induction false} EntriesCountAllWhenAccountsExist(
    users: seq<Doc<User>>, subs: seq<Subscription>, channel: Id, viewer: Id)
    requires forall s | s in subs && s.channel == channel :: s.subscriber in Ids(users)
    ensures |SubscriberEntries(users, subs, channel, viewer)| == SubscriberCount(subs, channel)
  {
    if subs != [] {
      var s := subs[0];
      var tail := subs[1..];
      assert subs == [s] + tail;
      assert forall t | t in tail && t.channel == channel :: t.subscriber in Ids(users) by {
        assert forall t | t in tail :: t in subs;
      }
      EntriesCountAllWhenAccountsExist(users, tail, channel, viewer);
      FilterConcat([s], tail, ToChannel(channel));
      FilterSingleton(s, ToChannel(channel));
      var rest := SubscriberEntries(users, tail, channel, viewer);
      if s.channel == channel {
        assert ProfileOf(users, s.subscriber).Some?;
        assert |SubscriberEntries(users, subs, channel, viewer)| == 1 + |rest|;
      } else {
        assert SubscriberEntries(users, subs, channel, viewer) == rest;
      }
    }
  }

  datatype SubscriberList = SubscriberList(totalSubscribers: nat, subscribers: seq<SubscriberEntry>)

  /** getUserChannelSubscribers: 400 on a malformed channel id; otherwise the pipeline's rows and their number. */
  function GetUserChannelSubscribers(users: seq<Doc<User>>, subs: seq<Subscription>, channelId: Id, viewer: Id)
    : (r: Result<SubscriberList>)
    ensures r.Err? <==> !IsValidId(channelId)
    ensures r.Err? ==> r.error == BadRequest
    ensures r.Ok? ==> r.value.subscribers == SubscriberEntries(users, subs, channelId, viewer)
    ensures r.Ok? ==> forall s | s in subs && s.channel == channelId && s.subscriber in Ids(users) ::
      exists e | e in r.value.subscribers :: e.profile.id == s.subscriber
    ensures r.Ok? ==> r.value.totalSubscribers == |r.value.subscribers|
    ensures r.Ok? ==> r.value.totalSubscribers <= SubscriberCount(subs, channelId)
    ensures r.Ok? ==> forall e | e in r.value.subscribers ::
      Subscription(e.profile.id, channelId) in subs && (e.isSubscribed <==> e.profile.id == viewer)
  {
    if !IsValidId(channelId) then Err(BadRequest)
    else
      var entries := SubscriberEntries(users, subs, channelId, viewer);
      Ok(SubscriberList(|entries|, entries))
  }

  /**
   * getSubscribedChannels: 400 on a malformed id and also (not 404) on an unknown subscriber;
   * otherwise the populated channel of each of the subscriber's subscriptions, newest first.
   */
  function GetSubscribedChannels(users: seq<Doc<User>>, subs: seq<Subscription>, subscriberId: Id)
    : (r: Result<seq<Option<Profile>>>)
    ensures r.Err? <==> !IsValidId(subscriberId) || subscriberId !in Ids(users)
    ensures r.Err? ==> r.error == BadRequest
    ensures r.Ok? ==> |r.value| == |Filter(subs, BySubscriber(subscriberId))|
    ensures r.Ok? ==> forall k | 0 <= k < |r.value| :: r.value[k].Some? ==>
      Subscription(subscriberId, r.value[k].value.id) in subs
    ensures r.Ok? ==> var mine := Reverse(Filter(subs, BySubscriber(subscriberId)));
      forall k | 0 <= k < |r.value| ::
        && (r.value[k].Some? <==> mine[k].channel in Ids(users))
        && (r.value[k].Some? ==> r.value[k].value.id == mine[k].channel)
  {
    if !IsValidId(subscriberId) || subscriberId !in Ids(users) then Err(BadRequest)
    else
      var mine := Reverse(Filter(subs, BySubscriber(subscriberId)));
      assert forall k | 0 <= k < |mine| :: mine[k] in subs && mine[k].subscriber == subscriberId by {
        ReverseMembers(Filter(subs, BySubscriber(subscriberId)));
      }
      Ok(seq(|mine|, k requires 0 <= k < |mine| => ProfileOf(users, mine[k].channel)))
  }

  /** Every subscription of the subscriber to a channel that still exists shows up as that channel's profile. */
  lemma SubscribedChannelsComplete(users: seq<Doc<User>>, subs: seq<Subscription>, subscriberId: Id, channel: Id)
    requires IsValidId(subscriberId) && subscriberId in Ids(users)
    requires Subscription(subscriberId, channel) in subs && channel in Ids(users)
    ensures var r := GetSubscribedChannels(users, subs, subscriberId).value;
      exists k | 0 <= k < |r| :: r[k] == ProfileOf(users, channel)
  {
    var s := Subscription(subscriberId, channel);
    var matching := Filter(subs, BySubscriber(subscriberId));
    var mine := Reverse(matching);
    ReverseMembers(matching);
    assert s in mine;
    var k :| 0 <= k < |mine| && mine[k] == s;
    var r := GetSubscribedChannels(users, subs, subscriberId).value;
    assert r[k] == ProfileOf(users, channel);
  }

  /** A fresh subscription puts the channel at the head of the subscriber's newest-first channel list. */
  lemma SubscribeListsChannelFirst(users: seq<Doc<User>>, subs: seq<Subscription>, subscriber: Id, channel: Id)
    requires IsValidId(subscriber) && subscriber in Ids(users)
    requires Subscription(subscriber, channel) !in subs
    ensures var r := GetSubscribedChannels(users, Toggle(subs, Subscription(subscriber, channel)), subscriber);
      r.Ok? && |r.value| > 0 && r.value[0] == ProfileOf(users, channel)
  {
    var x := Subscription(subscriber, channel);
    FilterConcat(subs, [x], BySubscriber(subscriber));
    FilterSingleton(x, BySubscriber(subscriber));
  }

  /** A toggle moves the channel's subscriber count by one and leaves every other channel's count alone. */
  lemma ToggleMovesSubscriberCount(subs: seq<Subscription>, x: Subscription, channel: Id)
    ensures SubscriberCount(Toggle(subs, x), channel) ==
            SubscriberCount(subs, channel) + (if x.channel != channel then 0 else if x in subs then -1 else 1)
  {
    ToggleCount(subs, x, ToChannel(channel));
  }
}
