/** getChannelStats of dashboard.controller.js: the counters a channel's owner sees. */
module Dashboard {
  import opened Results
  import opened Documents
  import opened Seqs
  import opened Relations
  import opened Records
  import opened LikeQueries
  import opened SubscriptionQueries

  /** The channel fields the statistics echo back. */
  datatype ChannelCard = ChannelCard(id: Id, username: string, fullName: string, avatar: string, coverImage: string)

  datatype ChannelStats = ChannelStats(
    channel: ChannelCard,
    totalSubscribers: nat,
    totalVideos: nat,
    totalViews: nat,
    totalLikes: nat)

  function OwnedBy(owner: Id): Doc<Video> -> bool {
    (d: Doc<Video>) => d.body.owner == owner
  }

  /** Video.find({ owner }): the channel's videos, published or not. */
  function Owned(videos: seq<Doc<Video>>, owner: Id): (r: seq<Doc<Video>>)
    ensures forall d :: d in r <==> d in videos && d.body.owner == owner
  {
    Filter(videos, OwnedBy(owner))
  }

  /** videos.map(video => video._id). */
  function IdList(vs: seq<Doc<Video>>): (r: seq<Id>)
    ensures |r| == |vs|
    ensures forall k | 0 <= k < |vs| :: r[k] == vs[k].id
  {
    seq(|vs|, k requires 0 <= k < |vs| => vs[k].id)
  }

  /** videos.reduce((acc, video) => acc + video.views, 0). */
  function TotalViews(vs: seq<Doc<Video>>): nat {
    if vs == [] then 0 else vs[0].body.views + TotalViews(vs[1..])
  }

  /** No single video has more views than the total. */
  lemma {:induction false} TotalViewsBoundsEach(vs: seq<Doc<Video>>)
    ensures forall k | 0 <= k < |vs| :: vs[k].body.views <= TotalViews(vs)
  {
    if vs != [] {
      TotalViewsBoundsEach(vs[1..]);
      forall k | 0 < k < |vs| ensures vs[k].body.views <= TotalViews(vs) {
        assert vs[k] == vs[1..][k - 1];
      }
    }
  }

  /** The total is additive over a split of the video list. */
  lemma {:induction false} TotalViewsConcat(a: seq<Doc<Video>>, b: seq<Doc<Video>>)
    ensures TotalViews(a + b) == TotalViews(a) + TotalViews(b)
  {
    if a == [] {
      assert a + b == b;
    } else {
      assert (a + b)[1..] == a[1..] + b;
      TotalViewsConcat(a[1..], b);
    }
  }

  /** The total is zero exactly when no video has been watched. */
  lemma {:induction false} TotalViewsZeroIff(vs: seq<Doc<Video>>)
    ensures TotalViews(vs) == 0 <==> forall k | 0 <= k < |vs| :: vs[k].body.views == 0
  {
    if vs != [] {
      TotalViewsZeroIff(vs[1..]);
      assert forall k | 0 < k < |vs| :: vs[k] == vs[1..][k - 1];
    }
  }

  function OnVideoAmong(ids: seq<Id>): Like -> bool {
    (l: Like) => l.target.OnVideo? && l.target.id in ids
  }

  /** Like.countDocuments({ video: { $in: videoIds } }). */
  function LikesAmong(likes: seq<Like>, ids: seq<Id>): nat {
    |Filter(likes, OnVideoAmong(ids))|
  }

  /** The per-video like counts of the videos named by ids, added up. */
  function LikesPerVideo(likes: seq<Like>, ids: seq<Id>): nat {
    if ids == [] then 0 else |LikesOn(likes, OnVideo(ids[0]))| + LikesPerVideo(likes, ids[1..])
  }

  /** One count over the whole id list equals the sum of the per-video counts when no id repeats. */
  lemma {:induction false} LikesAmongIsSumPerVideo(likes: seq<Like>, ids: seq<Id>)
    requires NoDup(ids)
    ensures LikesAmong(likes, ids) == LikesPerVideo(likes, ids)
  {
    if ids == [] {
      assert forall l :: !OnVideoAmong(ids)(l);
      FilterNone(likes, OnVideoAmong(ids));
    } else {
      var rest := ids[1..];
      assert NoDup(rest);
      HeadNotInTail(ids);
      assert forall x :: x in ids <==> x == ids[0] || x in rest by {
        assert ids == [ids[0]] + rest;
      }
      FilterSplitCount(likes, OnVideoAmong(ids), OnTarget(OnVideo(ids[0])), OnVideoAmong(rest));
      LikesAmongIsSumPerVideo(likes, rest);
    }
  }

  lemma {:induction false} FilterNone(likes: seq<Like>, p: Like -> bool)
    requires forall l :: !p(l)
    ensures Filter(likes, p) == []
  {
    if likes != [] {
      FilterNone(likes[1..], p);
    }
  }

  /** getChannelStats for the signed-in account: a missing account record is dereferenced and fails with 500. */
  function GetChannelStats(
    users: seq<Doc<User>>, videos: seq<Doc<Video>>, likes: seq<Like>, subs: seq<Subscription>, caller: Id)
    : (r: Result<ChannelStats>)
    ensures r.Err? <==> caller !in Ids(users)
    ensures r.Err? ==> r.error == ServerError
    ensures r.Ok? ==> r.value.channel.id == caller
    ensures r.Ok? ==> r.value.totalVideos == |Owned(videos, caller)|
    ensures r.Ok? && UniqueIds(videos) ==> r.value.totalVideos == |set d | d in videos && d.body.owner == caller :: d.id|
    ensures r.Ok? ==> r.value.totalSubscribers == SubscriberCount(subs, caller)
    ensures r.Ok? ==> r.value.totalViews == TotalViews(Owned(videos, caller))
    ensures r.Ok? ==> forall d | d in videos && d.body.owner == caller :: d.body.views <= r.value.totalViews
    ensures r.Ok? ==> r.value.totalLikes == |Filter(likes, OnVideoAmong(IdList(Owned(videos, caller))))|
  {
    match Lookup(users, caller)
    case None => Err(ServerError)
    case Some(u) =>
      var owned := Owned(videos, caller);
      TotalViewsBoundsEach(owned);
      assert forall d | d in owned :: exists k :: 0 <= k < |owned| && owned[k] == d;
      OwnedCountsIds(videos, caller);
      Ok(ChannelStats(
        ChannelCard(u.id, u.body.username, u.body.fullName, u.body.avatar, u.body.coverImage),
        SubscriberCount(subs, caller),
        |owned|,
        TotalViews(owned),
        LikesAmong(likes, IdList(owned))))
  }

  /** With unique video ids the length of the owned list counts distinct videos. */
  lemma OwnedCountsIds(videos: seq<Doc<Video>>, owner: Id)
    ensures UniqueIds(videos) ==> |Owned(videos, owner)| == |set d | d in videos && d.body.owner == owner :: d.id|
  {
    if UniqueIds(videos) {
      var owned := Owned(videos, owner);
      FilterKeepsUniqueIds(videos, OwnedBy(owner));
      DistinctIdsCount(owned);
      assert (set d | d in videos && d.body.owner == owner :: d.id) == Ids(owned);
    }
  }

  /** A like toggled on one of the channel's videos moves its like total by one; any other like leaves it. */
  lemma ToggleLikeMovesTotalLikes(
    users: seq<Doc<User>>, videos: seq<Doc<Video>>, likes: seq<Like>, subs: seq<Subscription>, caller: Id, l: Like)
    requires caller in Ids(users)
    ensures var before := GetChannelStats(users, videos, likes, subs, caller).value;
            var after := GetChannelStats(users, videos, Toggle(likes, l), subs, caller).value;
            && after.totalLikes == before.totalLikes +
                 (if !(l.target.OnVideo? && l.target.id in Ids(Owned(videos, caller))) then 0
                  else if l in likes then -1 else 1)
            && after.(totalLikes := before.totalLikes) == before
  {
    var ids := IdList(Owned(videos, caller));
    ToggleCount(likes, l, OnVideoAmong(ids));
    var owned := Owned(videos, caller);
    assert l.target.id in ids <==> l.target.id in Ids(owned) by {
      assert forall k | 0 <= k < |owned| :: ids[k] == owned[k].id;
    }
  }

  /** Publishing a new video adds one to the channel's video count and nothing to its views or likes. */
  lemma {:induction false} PublishAddsOneVideo(
    users: seq<Doc<User>>, videos: seq<Doc<Video>>, likes: seq<Like>, subs: seq<Subscription>, caller: Id,
    d: Doc<Video>)
    requires caller in Ids(users)
    requires d.body.owner == caller && d.body.views == 0
    requires forall k | 0 <= k < |likes| :: likes[k].target != OnVideo(d.id)
    ensures var before := GetChannelStats(users, videos, likes, subs, caller).value;
            var after := GetChannelStats(users, videos + [d], likes, subs, caller).value;
            after == before.(totalVideos := before.totalVideos + 1)
  {
    var owned := Owned(videos, caller);
    OwnedAppend(videos, caller, d);
    ViewsAndLikesIgnoreUnwatched(owned, likes, d);
  }

  lemma {:induction false} OwnedAppend(videos: seq<Doc<Video>>, owner: Id, d: Doc<Video>)
    requires d.body.owner == owner
    ensures Owned(videos + [d], owner) == Owned(videos, owner) + [d]
  {
    FilterConcat(videos, [d], OwnedBy(owner));
    FilterSingleton(d, OwnedBy(owner));
  }

  lemma {:induction false} ViewsAndLikesIgnoreUnwatched(owned: seq<Doc<Video>>, likes: seq<Like>, d: Doc<Video>)
    requires d.body.views == 0
    requires forall k | 0 <= k < |likes| :: likes[k].target != OnVideo(d.id)
    ensures TotalViews(owned + [d]) == TotalViews(owned)
    ensures LikesAmong(likes, IdList(owned + [d])) == LikesAmong(likes, IdList(owned))
  {
    TotalViewsConcat(owned, [d]);
    assert TotalViews([d]) == 0 by {
      assert [d][1..] == [];
    }
    var ids := IdList(owned);
    var ids' := IdList(owned + [d]);
    assert ids' == ids + [d.id];
    forall k | 0 <= k < |likes| ensures OnVideoAmong(ids')(likes[k]) == OnVideoAmong(ids)(likes[k]) {
      assert likes[k].target != OnVideo(d.id);
    }
    SameFilterOn(likes, OnVideoAmong(ids'), OnVideoAmong(ids));
  }

  lemma {:induction false} SameFilterOn(likes: seq<Like>, p: Like -> bool, q: Like -> bool)
    requires forall k | 0 <= k < |likes| :: p(likes[k]) == q(likes[k])
    ensures Filter(likes, p) == Filter(likes, q)
  {
    if likes != [] {
      SameFilterOn(likes[1..], p, q);
    }
  }
}
