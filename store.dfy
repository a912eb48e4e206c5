/**
 * The collections behind the controllers and the handlers that change them. Each method is one
 * request handler, run to completion before the next (requests are sequential here); the freshly
 * generated ObjectId and the clock reading a creation uses are parameters.
 */
module Platform {
  import opened Results
  import opened Documents
  import opened Seqs
  import opened Text
  import opened Relations
  import opened Records
  import opened Rules
  import opened PlaylistOps
  import opened Listings
  import opened Registration

  /** What a toggle did: Added answers 201, Removed answers 200. */
  datatype Toggled = Added | Removed

  class Store {
    var users: seq<Doc<User>>
    var videos: seq<Doc<Video>>
    var comments: seq<Doc<Comment>>
    var posts: seq<Doc<Post>>
    var playlists: seq<Doc<Playlist>>
    var likes: seq<Like>
    var subscriptions: seq<Subscription>

    /** Ids are keys, collections are in creation order, toggled relations hold no duplicates. */
    ghost predicate Valid()
      reads this
    {
      && AccountsValid(users)
      && UniqueIds(videos) && Chronological(videos)
      && UniqueIds(comments) && Chronological(comments)
      && UniqueIds(posts) && Chronological(posts)
      && UniqueIds(playlists) && Chronological(playlists)
      && NoDup(likes) && NoDup(subscriptions)
      && (forall s | s in subscriptions :: s.subscriber != s.channel)
    }

    /** Accounts are keyed by id, in creation order, and every stored username is lowercase. */
    static predicate AccountsValid(users: seq<Doc<User>>) {
      && UniqueIds(users) && Chronological(users)
      && (forall k | 0 <= k < |users| :: HasNoUpper(users[k].body.username))
    }

    constructor ()
      ensures Valid()
      ensures users == [] && videos == [] && comments == [] && posts == [] && playlists == []
      ensures likes == [] && subscriptions == []
    {
      users, videos, comments, posts, playlists := [], [], [], [], [];
      likes, subscriptions := [], [];
    }

    // ----- users -----

    /** registerUser: the outcome of Register, and on success exactly one new account. */
    method RegisterUser(f: Form, avatarFile: bool, avatar: Option<Asset>, cover: Option<Asset>, id: Id, now: nat)
      returns (r: Result<PublicUser>)
      requires Valid()
      requires id !in Ids(users) && NotAfter(users, now)
      modifies this`users
      ensures Valid()
      ensures var reg := Register(old(users), f, avatarFile, avatar, cover);
              && (r.Err? <==> reg.Err?)
              && (r.Err? ==> r.error == reg.error && users == old(users))
              && (r.Ok? ==> users == old(users) + [Doc(id, now, reg.value)]
                            && r.value == PublicView(Doc(id, now, reg.value)))
    {
      var reg := Register(users, f, avatarFile, avatar, cover);
      if reg.Err? {
        return Err(reg.error);
      }
      var d := Doc(id, now, reg.value);
      InsertUser(d);
      r := Ok(PublicView(d));
    }

    /** User.create: the account is appended; its username must already be lowercase. */
    method InsertUser(d: Doc<User>)
      requires Valid()
      requires d.id !in Ids(users) && NotAfter(users, d.createdAt) && HasNoUpper(d.body.username)
      modifies this`users
      ensures Valid()
      ensures users == old(users) + [d]
    {
      AppendUserKeepsLowercase(users, d);
      users := users + [d];
    }

    static lemma AppendUserKeepsLowercase(users: seq<Doc<User>>, d: Doc<User>)
      requires AccountsValid(users)
      requires d.id !in Ids(users) && NotAfter(users, d.createdAt)
      requires HasNoUpper(d.body.username)
      ensures AccountsValid(users + [d])
    {
      AppendKeepsInvariants(users, d);
      forall k | 0 <= k < |users + [d]| ensures HasNoUpper((users + [d])[k].body.username) {
        if k < |users| {
          assert (users + [d])[k] == users[k];
        }
      }
    }

    // ----- likes -----

    predicate TargetExists(t: LikeTarget)
      reads this
    {
      match t
      case OnVideo(id) => id in Ids(videos)
      case OnComment(id) => id in Ids(comments)
      case OnPost(id) => id in Ids(posts)
    }

    /**
     * toggleVideoLike, toggleCommentLike and togglePostLike: 400 on a malformed id, 404 for a missing
     * target, else the caller's like on the target is removed when present and created when absent.
     */
    method ToggleLike(target: LikeTarget, caller: Id) returns (r: Result<Toggled>)
      requires Valid()
      modifies this`likes
      ensures Valid()
      ensures r == Err(BadRequest) <==> !IsValidId(target.id)
      ensures r == Err(NotFound) <==> IsValidId(target.id) && !TargetExists(target)
      ensures r.Err? ==> likes == old(likes)
      ensures r.Ok? ==> likes == Toggle(old(likes), Like(target, caller))
      ensures r == Ok(Removed) <==> r.Ok? && Like(target, caller) in old(likes)
      ensures r.Ok? ==> (Like(target, caller) in likes <==> r == Ok(Added))
    {
      if !IsValidId(target.id) {
        return Err(BadRequest);
      }
      if !TargetExists(target) {
        return Err(NotFound);
      }
      var l := Like(target, caller);
      var present := l in likes;
      ToggleKeepsNoDup(likes, l);
      ToggleFlips(likes, l);
      likes := Toggle(likes, l);
      r := if present then Ok(Removed) else Ok(Added);
    }

    // ----- subscriptions -----

    /**
     * toggleSubscription: 400 on a malformed id, 400 when the caller names itself (before any lookup),
     * 404 for a missing channel, else the caller's subscription to the channel is flipped.
     */
    method ToggleSubscription(channelId: Id, caller: Id) returns (r: Result<Toggled>)
      requires Valid()
      modifies this`subscriptions
      ensures Valid()
      ensures r == Err(BadRequest) <==> !IsValidId(channelId) || caller == channelId
      ensures r == Err(NotFound) <==> IsValidId(channelId) && caller != channelId && channelId !in Ids(users)
      ensures r.Err? ==> subscriptions == old(subscriptions)
      ensures r.Ok? ==> subscriptions == Toggle(old(subscriptions), Subscription(caller, channelId))
      ensures r == Ok(Removed) <==> r.Ok? && Subscription(caller, channelId) in old(subscriptions)
    {
      if !IsValidId(channelId) || caller == channelId {
        return Err(BadRequest);
      }
      if channelId !in Ids(users) {
        return Err(NotFound);
      }
      var s := Subscription(caller, channelId);
      var present := s in subscriptions;
      ToggleKeepsNoDup(subscriptions, s);
      forall y | y != s ensures y in Toggle(subscriptions, s) <==> y in subscriptions {
        ToggleKeepsOthers(subscriptions, s, y);
      }
      subscriptions := Toggle(subscriptions, s);
      r := if present then Ok(Removed) else Ok(Added);
    }

    // ----- playlists -----

    /** createPlaylist: 400 for a bad body, 404 when a video id names no video, else one new playlist. */
    method CreatePlaylist(name: string, description: string, videoIds: seq<Id>, caller: Id, id: Id, now: nat)
      returns (r: Result<Id>)
      requires Valid()
      requires id !in Ids(playlists) && NotAfter(playlists, now)
      modifies this`playlists
      ensures Valid()
      ensures r == Err(BadRequest) <==> !ValidPlaylistFields(name, description, videoIds)
      ensures r == Err(NotFound) <==> ValidPlaylistFields(name, description, videoIds) && MissingIds(videos, videoIds) != []
      ensures r.Err? ==> playlists == old(playlists)
      ensures r.Ok? ==> r.value == id && playlists == old(playlists) + [Doc(id, now, NewPlaylist(name, description, videoIds, caller))]
    {
      if !ValidPlaylistFields(name, description, videoIds) {
        return Err(BadRequest);
      }
      if MissingIds(videos, videoIds) != [] {
        return Err(NotFound);
      }
      var d := Doc(id, now, NewPlaylist(name, description, videoIds, caller));
      AppendKeepsInvariants(playlists, d);
      playlists := playlists + [d];
      r := Ok(id);
    }

    /**
     * addVideoToPlaylist: 400 on a malformed playlist id, 404 for a missing playlist, 400 for a
     * malformed video id, 404 when one names no video, else the ids not yet listed are appended.
     * Nobody's ownership is checked.
     */
    method AddVideosToPlaylist(playlistId: Id, videoIds: seq<Id>) returns (r: Result<Playlist>)
      requires Valid()
      modifies this`playlists
      ensures Valid()
      ensures r == Err(BadRequest) <==>
        !IsValidId(playlistId) || (playlistId in Ids(old(playlists)) && !(forall k | 0 <= k < |videoIds| :: IsValidId(videoIds[k])))
      ensures r == Err(NotFound) <==> (IsValidId(playlistId) &&
        (playlistId !in Ids(old(playlists)) ||
         ((forall k | 0 <= k < |videoIds| :: IsValidId(videoIds[k])) && MissingIds(videos, videoIds) != [])))
      ensures r.Err? ==> playlists == old(playlists)
      ensures r.Ok? ==> var p := Lookup(old(playlists), playlistId).value.body;
        && r.value == p.(videos := Appended(p.videos, videoIds))
        && playlists == Replace(old(playlists), playlistId, r.value)
    {
      if !IsValidId(playlistId) {
        return Err(BadRequest);
      }
      var found := Lookup(playlists, playlistId);
      if found.None? {
        return Err(NotFound);
      }
      if !(forall k | 0 <= k < |videoIds| :: IsValidId(videoIds[k])) {
        return Err(BadRequest);
      }
      if MissingIds(videos, videoIds) != [] {
        return Err(NotFound);
      }
      var p := found.value.body;
      var updated := p.(videos := Appended(p.videos, videoIds));
      if NewIds(p.videos, videoIds) == [] {
        assert updated == p;
        ReplaceSameBody(playlists, playlistId, found.value);
        return Ok(p);
      }
      StorePlaylist(playlistId, updated);
      r := Ok(updated);
    }

    /** save() on the fetched playlist: its record is overwritten in place. */
    method StorePlaylist(id: Id, body: Playlist)
      requires Valid() && id in Ids(playlists)
      modifies this`playlists
      ensures Valid()
      ensures playlists == Replace(old(playlists), id, body)
    {
      playlists := Replace(playlists, id, body);
    }

    /** Writing a document's own record back changes nothing. */
    static lemma ReplaceSameBody<T(!new)>(c: seq<Doc<T>>, id: Id, d: Doc<T>)
      requires UniqueIds(c) && d in c && d.id == id
      ensures Replace(c, id, d.body) == c
    {
      var r := Replace(c, id, d.body);
      forall k | 0 <= k < |c| ensures r[k] == c[k] {
        if c[k].id == id {
          assert c[k] == d;
        }
      }
    }

    /**
     * removeVideoFromPlaylist: 400 when either id is malformed, 404 for a missing playlist or a video
     * it does not list, else every occurrence of the video is dropped.
     */
    method RemoveVideoFromPlaylist(playlistId: Id, videoId: Id) returns (r: Result<Playlist>)
      requires Valid()
      modifies this`playlists
      ensures Valid()
      ensures r == Err(BadRequest) <==> !IsValidId(playlistId) || !IsValidId(videoId)
      ensures r == Err(NotFound) <==> (IsValidId(playlistId) && IsValidId(videoId) &&
        (playlistId !in Ids(old(playlists)) || videoId !in Lookup(old(playlists), playlistId).value.body.videos))
      ensures r.Err? ==> playlists == old(playlists)
      ensures r.Ok? ==> var p := Lookup(old(playlists), playlistId).value.body;
        && videoId in p.videos
        && r.value == p.(videos := WithoutVideo(p.videos, videoId))
        && playlists == Replace(old(playlists), playlistId, r.value)
    {
      if !IsValidId(playlistId) || !IsValidId(videoId) {
        return Err(BadRequest);
      }
      var found := Lookup(playlists, playlistId);
      if found.None? {
        return Err(NotFound);
      }
      var p := found.value.body;
      if videoId !in p.videos {
        return Err(NotFound);
      }
      var updated := p.(videos := WithoutVideo(p.videos, videoId));
      StorePlaylist(playlistId, updated);
      r := Ok(updated);
    }

    /** deletePlaylist: 400, 404, 403 unless the caller owns it, else exactly that playlist is removed. */
    method DeletePlaylist(playlistId: Id, caller: Id) returns (r: Result<Id>)
      requires Valid()
      modifies this`playlists
      ensures Valid()
      ensures r == Err(BadRequest) <==> !IsValidId(playlistId)
      ensures r == Err(NotFound) <==> IsValidId(playlistId) && playlistId !in Ids(old(playlists))
      ensures r == Err(Forbidden) <==> (IsValidId(playlistId) && playlistId in Ids(old(playlists)) &&
        Lookup(old(playlists), playlistId).value.body.owner != caller)
      ensures r.Err? ==> playlists == old(playlists)
      ensures r.Ok? ==> r.value == playlistId && playlists == Delete(old(playlists), playlistId)
    {
      if !IsValidId(playlistId) {
        return Err(BadRequest);
      }
      var found := Lookup(playlists, playlistId);
      if found.None? {
        return Err(NotFound);
      }
      if found.value.body.owner != caller {
        return Err(Forbidden);
      }
      DeleteKeepsInvariants(playlists, playlistId);
      playlists := Delete(playlists, playlistId);
      r := Ok(playlistId);
    }

    /**
     * updatePlaylist: 400, 404, 403 unless the caller owns it, 400 for a bad body, else the name and
     * description are replaced and nothing else.
     */
    method UpdatePlaylist(playlistId: Id, caller: Id, name: string, description: string, videoIds: seq<Id>)
      returns (r: Result<Playlist>)
      requires Valid()
      modifies this`playlists
      ensures Valid()
      ensures r == Err(BadRequest) <==> (!IsValidId(playlistId) ||
        (playlistId in Ids(old(playlists)) && Lookup(old(playlists), playlistId).value.body.owner == caller &&
         !ValidPlaylistFields(name, description, videoIds)))
      ensures r == Err(NotFound) <==> IsValidId(playlistId) && playlistId !in Ids(old(playlists))
      ensures r == Err(Forbidden) <==> (IsValidId(playlistId) && playlistId in Ids(old(playlists)) &&
        Lookup(old(playlists), playlistId).value.body.owner != caller)
      ensures r.Err? ==> playlists == old(playlists)
      ensures r.Ok? ==> var p := Lookup(old(playlists), playlistId).value.body;
        && r.value == Renamed(p, name, description)
        && playlists == Replace(old(playlists), playlistId, r.value)
    {
      if !IsValidId(playlistId) {
        return Err(BadRequest);
      }
      var found := Lookup(playlists, playlistId);
      if found.None? {
        return Err(NotFound);
      }
      if found.value.body.owner != caller {
        return Err(Forbidden);
      }
      if !ValidPlaylistFields(name, description, videoIds) {
        return Err(BadRequest);
      }
      var updated := Renamed(found.value.body, name, description);
      StorePlaylist(playlistId, updated);
      r := Ok(updated);
    }

    // ----- comments -----

    /** addComment: 400, 404 for a missing video, 400 for bad content, else one new comment by the caller. */
    method AddComment(videoId: Id, content: string, caller: Id, id: Id, now: nat) returns (r: Result<Doc<Comment>>)
      requires Valid()
      requires id !in Ids(comments) && NotAfter(comments, now)
      modifies this`comments
      ensures Valid()
      ensures r == Err(BadRequest) <==> !IsValidId(videoId) || (videoId in Ids(videos) && !ValidCommentContent(content))
      ensures r == Err(NotFound) <==> IsValidId(videoId) && videoId !in Ids(videos)
      ensures r.Err? ==> comments == old(comments)
      ensures r.Ok? ==> (
        r.value == Doc(id, now, Comment(Trim(content), videoId, caller))
        && comments == old(comments) + [r.value])
    {
      if !IsValidId(videoId) {
        return Err(BadRequest);
      }
      if videoId !in Ids(videos) {
        return Err(NotFound);
      }
      if !ValidCommentContent(content) {
        return Err(BadRequest);
      }
      var d := Doc(id, now, Comment(Trim(content), videoId, caller));
      AppendKeepsInvariants(comments, d);
      comments := comments + [d];
      r := Ok(d);
    }

    /** updateComment: 400, 404, 400 for bad content, else only the content changes. No owner check. */
    method UpdateComment(commentId: Id, content: string) returns (r: Result<Comment>)
      requires Valid()
      modifies this`comments
      ensures Valid()
      ensures r == Err(BadRequest) <==> !IsValidId(commentId) || (commentId in Ids(old(comments)) && !ValidCommentContent(content))
      ensures r == Err(NotFound) <==> IsValidId(commentId) && commentId !in Ids(old(comments))
      ensures r.Err? ==> comments == old(comments)
      ensures r.Ok? ==> (
        r.value == Reworded(Lookup(old(comments), commentId).value.body, content)
        && comments == Replace(old(comments), commentId, r.value))
    {
      if !IsValidId(commentId) {
        return Err(BadRequest);
      }
      var found := Lookup(comments, commentId);
      if found.None? {
        return Err(NotFound);
      }
      if !ValidCommentContent(content) {
        return Err(BadRequest);
      }
      var updated := Reworded(found.value.body, content);
      comments := Replace(comments, commentId, updated);
      r := Ok(updated);
    }

    /** deleteComment: 400, 404, else exactly that comment goes. Likes on it stay. No owner check. */
    method DeleteComment(commentId: Id) returns (r: Result<Id>)
      requires Valid()
      modifies this`comments
      ensures Valid()
      ensures r == Err(BadRequest) <==> !IsValidId(commentId)
      ensures r == Err(NotFound) <==> IsValidId(commentId) && commentId !in Ids(old(comments))
      ensures r.Err? ==> comments == old(comments)
      ensures r.Ok? ==> r.value == commentId && comments == Delete(old(comments), commentId)
    {
      if !IsValidId(commentId) {
        return Err(BadRequest);
      }
      if commentId !in Ids(comments) {
        return Err(NotFound);
      }
      DeleteKeepsInvariants(comments, commentId);
      comments := Delete(comments, commentId);
      r := Ok(commentId);
    }

    // ----- community posts -----

    /** createPost: 400 for bad content, else one new post by the caller. */
    method CreatePost(content: string, caller: Id, id: Id, now: nat) returns (r: Result<Doc<Post>>)
      requires Valid()
      requires id !in Ids(posts) && NotAfter(posts, now)
      modifies this`posts
      ensures Valid()
      ensures r.Err? <==> !ValidPostContent(content)
      ensures r.Err? ==> r.error == BadRequest && posts == old(posts)
      ensures r.Ok? ==> r.value == Doc(id, now, Post(Trim(content), caller)) && posts == old(posts) + [r.value]
    {
      if !ValidPostContent(content) {
        return Err(BadRequest);
      }
      var d := Doc(id, now, Post(Trim(content), caller));
      AppendKeepsInvariants(posts, d);
      posts := posts + [d];
      r := Ok(d);
    }

    /** updatePost: 400, 404, 400 for bad content, else only the content changes. No owner check. */
    method UpdatePost(postId: Id, content: string) returns (r: Result<Post>)
      requires Valid()
      modifies this`posts
      ensures Valid()
      ensures r == Err(BadRequest) <==> !IsValidId(postId) || (postId in Ids(old(posts)) && !ValidPostContent(content))
      ensures r == Err(NotFound) <==> IsValidId(postId) && postId !in Ids(old(posts))
      ensures r.Err? ==> posts == old(posts)
      ensures r.Ok? ==> (
        r.value == RewordedPost(Lookup(old(posts), postId).value.body, content)
        && posts == Replace(old(posts), postId, r.value))
    {
      if !IsValidId(postId) {
        return Err(BadRequest);
      }
      var found := Lookup(posts, postId);
      if found.None? {
        return Err(NotFound);
      }
      if !ValidPostContent(content) {
        return Err(BadRequest);
      }
      var updated := RewordedPost(found.value.body, content);
      posts := Replace(posts, postId, updated);
      r := Ok(updated);
    }

    /** deletePost: 400, 404, else exactly that post goes. No owner check. */
    method DeletePost(postId: Id) returns (r: Result<Id>)
      requires Valid()
      modifies this`posts
      ensures Valid()
      ensures r == Err(BadRequest) <==> !IsValidId(postId)
      ensures r == Err(NotFound) <==> IsValidId(postId) && postId !in Ids(old(posts))
      ensures r.Err? ==> posts == old(posts)
      ensures r.Ok? ==> r.value == postId && posts == Delete(old(posts), postId)
    {
      if !IsValidId(postId) {
        return Err(BadRequest);
      }
      if postId !in Ids(posts) {
        return Err(NotFound);
      }
      DeleteKeepsInvariants(posts, postId);
      posts := Delete(posts, postId);
      r := Ok(postId);
    }

    // ----- videos -----

    /**
     * publishVideo: 400 without both files, 400 for a bad title or description, 500 when either
     * upload yields no URL (nothing stored), else one new published video owned by the caller.
     */
    method PublishVideo(
      files: bool, title: string, description: string, videoFile: Option<Asset>, thumbnail: Option<Asset>,
      duration: nat, caller: Id, id: Id, now: nat)
      returns (r: Result<Doc<Video>>)
      requires Valid()
      requires id !in Ids(videos) && NotAfter(videos, now)
      modifies this`videos
      ensures Valid()
      ensures r == Err(BadRequest) <==> !files || !ValidTitle(title) || !ValidDescription(description)
      ensures r == Err(UploadFailed) <==> (files && ValidTitle(title) && ValidDescription(description) &&
        !(Uploaded(videoFile) && Uploaded(thumbnail)))
      ensures r.Err? ==> videos == old(videos)
      ensures r.Ok? ==> (
        r.value == Doc(id, now, NewVideo(videoFile.value, thumbnail.value, title, description, duration, caller))
        && videos == old(videos) + [r.value])
    {
      if !files || !ValidTitle(title) || !ValidDescription(description) {
        return Err(BadRequest);
      }
      if !Uploaded(videoFile) || !Uploaded(thumbnail) {
        return Err(UploadFailed);
      }
      var d := Doc(id, now, NewVideo(videoFile.value, thumbnail.value, title, description, duration, caller));
      AppendKeepsInvariants(videos, d);
      videos := videos + [d];
      r := Ok(d);
    }

    /**
     * updateVideo: 400, 404, 400 without both files, 400 for a bad title or description, 500 when an
     * upload yields no URL, else files, title, description and duration are replaced. No owner check.
     */
    method UpdateVideo(
      videoId: Id, files: bool, title: string, description: string, videoFile: Option<Asset>,
      thumbnail: Option<Asset>, duration: nat)
      returns (r: Result<Video>)
      requires Valid()
      modifies this`videos
      ensures Valid()
      ensures r == Err(BadRequest) <==> (!IsValidId(videoId) ||
        (videoId in Ids(old(videos)) && (!files || !ValidTitle(title) || !ValidDescription(description))))
      ensures r == Err(NotFound) <==> IsValidId(videoId) && videoId !in Ids(old(videos))
      ensures r == Err(UploadFailed) <==> (IsValidId(videoId) && videoId in Ids(old(videos)) &&
        files && ValidTitle(title) && ValidDescription(description) && !(Uploaded(videoFile) && Uploaded(thumbnail)))
      ensures r.Err? ==> videos == old(videos)
      ensures r.Ok? ==>
        && r.value == Reuploaded(Lookup(old(videos), videoId).value.body, videoFile.value, thumbnail.value,
                                 title, description, duration)
        && videos == Replace(old(videos), videoId, r.value)
    {
      if !IsValidId(videoId) {
        return Err(BadRequest);
      }
      var found := Lookup(videos, videoId);
      if found.None? {
        return Err(NotFound);
      }
      if !files || !ValidTitle(title) || !ValidDescription(description) {
        return Err(BadRequest);
      }
      if !Uploaded(videoFile) || !Uploaded(thumbnail) {
        return Err(UploadFailed);
      }
      var updated := Reuploaded(found.value.body, videoFile.value, thumbnail.value, title, description, duration);
      videos := Replace(videos, videoId, updated);
      r := Ok(updated);
    }

    /** deleteVideo: 400, 404, else exactly that video goes; comments, likes and playlists keep their references. */
    method DeleteVideo(videoId: Id) returns (r: Result<Id>)
      requires Valid()
      modifies this`videos
      ensures Valid()
      ensures r == Err(BadRequest) <==> !IsValidId(videoId)
      ensures r == Err(NotFound) <==> IsValidId(videoId) && videoId !in Ids(old(videos))
      ensures r.Err? ==> videos == old(videos)
      ensures r.Ok? ==> r.value == videoId && videos == Delete(old(videos), videoId)
    {
      if !IsValidId(videoId) {
        return Err(BadRequest);
      }
      if videoId !in Ids(videos) {
        return Err(NotFound);
      }
      DeleteKeepsInvariants(videos, videoId);
      videos := Delete(videos, videoId);
      r := Ok(videoId);
    }

    /** togglePublishStatus: 400, 404, else the flag flips and the new value is returned. No owner check. */
    method TogglePublishStatus(videoId: Id) returns (r: Result<bool>)
      requires Valid()
      modifies this`videos
      ensures Valid()
      ensures r == Err(BadRequest) <==> !IsValidId(videoId)
      ensures r == Err(NotFound) <==> IsValidId(videoId) && videoId !in Ids(old(videos))
      ensures r.Err? ==> videos == old(videos)
      ensures r.Ok? ==> var v := Lookup(old(videos), videoId).value.body;
        && r.value == !v.isPublished
        && videos == Replace(old(videos), videoId, Flipped(v))
    {
      if !IsValidId(videoId) {
        return Err(BadRequest);
      }
      var found := Lookup(videos, videoId);
      if found.None? {
        return Err(NotFound);
      }
      var updated := Flipped(found.value.body);
      videos := Replace(videos, videoId, updated);
      r := Ok(updated.isPublished);
    }
  }
}
