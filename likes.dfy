/** The read side of like.controller.js: like counts, the users behind them, a user's liked videos. */
module LikeQueries {
  import opened Results
  import opened Documents
  import opened Seqs
  import opened Relations
  import opened Records

  /** The values the type query parameter may take. */
  const LikeKinds: set<string> := {"video", "comment", "communityPost"}

  /** filter[type] = id: the target a (type, id) query selects. */
  function TargetOfKind(kind: string, id: Id): (r: Option<LikeTarget>)
    ensures r.Some? <==> kind in LikeKinds
    ensures r.Some? ==> r.value.id == id
    ensures r.Some? ==> (r.value.OnVideo? <==> kind == "video") && (r.value.OnComment? <==> kind == "comment")
  {
    if kind == "video" then Some(OnVideo(id))
    else if kind == "comment" then Some(OnComment(id))
    else if kind == "communityPost" then Some(OnPost(id))
    else None
  }

  function OnTarget(t: LikeTarget): Like -> bool {
    (l: Like) => l.target == t
  }

  /** Like.find(filter): the like records on t, in stored order. */
  function LikesOn(likes: seq<Like>, t: LikeTarget): seq<Like> {
    Filter(likes, OnTarget(t))
  }

  /** The accounts that like t. */
  function Likers(likes: seq<Like>, t: LikeTarget): set<Id> {
    set l | l in likes && l.target == t :: l.likedBy
  }

  /** With no duplicate records, the number of likes on a target is the number of distinct accounts liking it. */
  lemma {:induction false} LikesOnCountsLikers(likes: seq<Like>, t: LikeTarget)
    requires NoDup(likes)
    ensures |LikesOn(likes, t)| == |Likers(likes, t)|
  {
    if likes == [] {
      assert Likers(likes, t) == {};
    } else {
      var l := likes[0];
      var rest := likes[1..];
      assert NoDup(rest);
      LikesOnCountsLikers(rest, t);
      LikersSplit(likes, t);
      if l.target == t {
        HeadLikerIsNew(likes, t);
      }
    }
  }

  lemma LikersSplit(likes: seq<Like>, t: LikeTarget)
    requires likes != []
    ensures Likers(likes, t) == (if likes[0].target == t then {likes[0].likedBy} else {}) + Likers(likes[1..], t)
  {
    assert forall m :: m in likes <==> m == likes[0] || m in likes[1..] by {
      assert likes == [likes[0]] + likes[1..];
    }
  }

  lemma HeadLikerIsNew(likes: seq<Like>, t: LikeTarget)
    requires NoDup(likes) && likes != [] && likes[0].target == t
    ensures likes[0].likedBy !in Likers(likes[1..], t)
  {
    HeadNotInTail(likes);
    forall m | m in likes[1..] && m.target == t ensures m.likedBy != likes[0].likedBy {
      assert m != likes[0];
    }
  }

  /** getLikeCount: 400 unless type names a like kind and id is well formed; otherwise the number of likes on the target. */
  function GetLikeCount(likes: seq<Like>, kind: string, id: Id): (r: Result<nat>)
    ensures r.Err? <==> kind !in LikeKinds || !IsValidId(id)
    ensures r.Err? ==> r.error == BadRequest
    ensures r.Ok? ==> r.value == |LikesOn(likes, TargetOfKind(kind, id).value)|
  {
    match TargetOfKind(kind, id)
    case None => Err(BadRequest)
    case Some(t) => if !IsValidId(id) then Err(BadRequest) else Ok(|LikesOn(likes, t)|)
  }

  /** On a store without duplicate likes, the reported count is the number of distinct accounts liking the target. */
  lemma LikeCountIsNumberOfLikers(likes: seq<Like>, kind: string, id: Id)
    requires NoDup(likes)
    requires kind in LikeKinds && IsValidId(id)
    ensures GetLikeCount(likes, kind, id) == Ok(|Likers(likes, TargetOfKind(kind, id).value)|)
  {
    LikesOnCountsLikers(likes, TargetOfKind(kind, id).value);
  }

  /** A toggle moves the like count of its own target by one and leaves every other target's likes as they were. */
  lemma ToggleMovesOneCount(likes: seq<Like>, l: Like, t: LikeTarget)
    ensures |LikesOn(Toggle(likes, l), t)| ==
            |LikesOn(likes, t)| + (if l.target != t then 0 else if l in likes then -1 else 1)
    ensures l.target != t ==> LikesOn(Toggle(likes, l), t) == LikesOn(likes, t)
  {
    ToggleCount(likes, l, OnTarget(t));
    if l.target != t {
      ToggleKeepsOtherViews(likes, l, OnTarget(t));
    }
  }

  datatype LikeUsers = LikeUsers(totalLikes: nat, users: seq<Option<Profile>>)

  /** getLikeWithUser: the likers of a target, populated; a dangling liker stays in the list as null. */
  function GetLikeWithUser(users: seq<Doc<User>>, likes: seq<Like>, kind: string, id: Id): (r: Result<LikeUsers>)
    ensures r.Err? <==> kind !in LikeKinds || !IsValidId(id)
    ensures r.Err? ==> r.error == BadRequest
    ensures r.Ok? ==> r.value.totalLikes == |r.value.users|
    ensures r.Ok? ==> r.value.totalLikes == |LikesOn(likes, TargetOfKind(kind, id).value)|
    ensures r.Ok? ==> forall k | 0 <= k < |r.value.users| ::
      r.value.users[k] == ProfileOf(users, LikesOn(likes, TargetOfKind(kind, id).value)[k].likedBy)
  {
    match TargetOfKind(kind, id)
    case None => Err(BadRequest)
    case Some(t) =>
      if !IsValidId(id) then Err(BadRequest)
      else
        var on := LikesOn(likes, t);
        var profiles := seq(|on|, k requires 0 <= k < |on| => ProfileOf(users, on[k].likedBy));
        Ok(LikeUsers(|on|, profiles))
  }

  function IsVideoLikeBy(user: Id): Like -> bool {
    (l: Like) => l.likedBy == user && l.target.OnVideo?
  }

  /**
   * Like.find({ likedBy, video exists }) populated with the videos and their owners, dropping likes
   * whose video is gone.
   */
  function LikedVideoDocs(users: seq<Doc<User>>, likes: seq<Like>, videos: seq<Doc<Video>>, user: Id)
    : (r: seq<Populated<Video>>)
    ensures |r| <= |Filter(likes, IsVideoLikeBy(user))|
    ensures forall v | v in r ::
      && v.doc in videos && Like(OnVideo(v.doc.id), user) in likes
      && v.owner == ProfileOf(users, v.doc.body.owner)
    ensures UniqueIds(videos) ==>
      forall d | d in videos && Like(OnVideo(d.id), user) in likes :: Populated(d, ProfileOf(users, d.body.owner)) in r
  {
    if likes == [] then []
    else
      var l := likes[0];
      var rest := LikedVideoDocs(users, likes[1..], videos, user);
      assert likes == [l] + likes[1..];
      FilterConcat([l], likes[1..], IsVideoLikeBy(user));
      FilterSingleton(l, IsVideoLikeBy(user));
      if l.likedBy == user && l.target.OnVideo? then
        match Lookup(videos, l.target.id)
        case Some(v) => [Populated(v, ProfileOf(users, v.body.owner))] + rest
        case None => rest
      else rest
  }

  /**
   * getLikedVideos: 400 on a malformed user id, 404 for an unknown user, else the videos the user
   * likes that still exist, each with its owner's public fields.
   */
  function GetLikedVideos(users: seq<Doc<User>>, videos: seq<Doc<Video>>, likes: seq<Like>, userId: Id)
    : (r: Result<seq<Populated<Video>>>)
    ensures r == Err(BadRequest) <==> !IsValidId(userId)
    ensures r == Err(NotFound) <==> IsValidId(userId) && userId !in Ids(users)
    ensures r.Ok? ==> |r.value| <= |Filter(likes, IsVideoLikeBy(userId))|
    ensures r.Ok? ==> forall v | v in r.value ::
      && v.doc in videos && Like(OnVideo(v.doc.id), userId) in likes
      && v.owner == ProfileOf(users, v.doc.body.owner)
    ensures r.Ok? && UniqueIds(videos) ==>
      forall d | d in videos && Like(OnVideo(d.id), userId) in likes :: Populated(d, ProfileOf(users, d.body.owner)) in r.value
  {
    if !IsValidId(userId) then Err(BadRequest)
    else if userId !in Ids(users) then Err(NotFound)
    else Ok(LikedVideoDocs(users, likes, videos, userId))
  }
}
