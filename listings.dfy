/**
 * The read handlers of comment.controller.js, communityPost.controller.js and video.controller.js,
 * and the record edits their write handlers make.
 */
module Listings {
  import opened Results
  import opened Documents
  import opened Seqs
  import opened Text
  import opened Records
  import opened Pagination

  /** The response body of a paginated listing. */
  datatype Listing<T> = Listing(items: seq<T>, currentPage: nat, totalPages: nat, total: nat)

  /** .populate("owner", "username fullName avatar") over each document of a page. */
  function Populate<T>(users: seq<Doc<User>>, docs: seq<Doc<T>>, ownerOf: T -> Id): (r: seq<Populated<T>>)
    ensures |r| == |docs|
    ensures forall k | 0 <= k < |r| :: r[k].doc == docs[k] && r[k].owner == ProfileOf(users, ownerOf(docs[k].body))
  {
    seq(|docs|, k requires 0 <= k < |docs| => Populated(docs[k], ProfileOf(users, ownerOf(docs[k].body))))
  }

  /** The skip/limit page of the sorted matches, with the count and page figures computed over all matches. */
  function Paged<T>(sorted: seq<T>, page: nat, limit: nat): (r: Listing<T>)
    requires page >= 1 && limit >= 1
    ensures r.total == |sorted| && r.currentPage == page && r.totalPages == TotalPages(|sorted|, limit)
    ensures |r.items| <= limit
    ensures forall k | 0 <= k < |r.items| :: Skip(page, limit) + k < |sorted| && r.items[k] == sorted[Skip(page, limit) + k]
    ensures r.items == [] <==> page > r.totalPages
  {
    PageNonEmptyIff(sorted, page, limit);
    Listing(Page(sorted, page, limit), page, TotalPages(|sorted|, limit), |sorted|)
  }

  /** A listing keeps descending creation order on every page when the collection is stored in creation order. */
  lemma NewestFirstPages<T(!new)>(c: seq<Doc<T>>, p: Doc<T> -> bool, page: nat, limit: nat)
    requires page >= 1 && limit >= 1
    requires UniqueIds(c) && Chronological(c)
    ensures NewestFirst(Paged(Reverse(Filter(c, p)), page, limit).items)
  {
    FilterKeepsInvariants(c, p);
    ReverseIsNewestFirst(Filter(c, p));
  }

  // ----- comments -----

  function OnVideoId(videoId: Id): Doc<Comment> -> bool {
    (d: Doc<Comment>) => d.body.video == videoId
  }

  function CommentOwner(c: Comment): Id { c.owner }

  /** Comment.find({ video }).sort({ createdAt: -1 }): the video's comments, newest first. */
  function CommentsOf(comments: seq<Doc<Comment>>, videoId: Id): (r: seq<Doc<Comment>>)
    ensures forall d :: d in r <==> d in comments && d.body.video == videoId
    ensures |r| == |Filter(comments, OnVideoId(videoId))|
    ensures UniqueIds(comments) && Chronological(comments) ==> NewestFirst(r)
  {
    var matches := Filter(comments, OnVideoId(videoId));
    ReverseMembers(matches);
    if UniqueIds(comments) && Chronological(comments) then
      FilterKeepsInvariants(comments, OnVideoId(videoId));
      ReverseIsNewestFirst(matches);
      Reverse(matches)
    else
      Reverse(matches)
  }

  /** getVideoComments: 400 on a malformed id, 404 for a missing video, else one page of its comments. */
  function GetVideoComments(
    users: seq<Doc<User>>, videos: seq<Doc<Video>>, comments: seq<Doc<Comment>>,
    videoId: Id, page: nat, limit: nat)
    : (r: Result<Listing<Populated<Comment>>>)
    requires page >= 1 && limit >= 1
    ensures r == Err(BadRequest) <==> !IsValidId(videoId)
    ensures r == Err(NotFound) <==> IsValidId(videoId) && videoId !in Ids(videos)
    ensures r.Ok? ==> r.value.total == |Filter(comments, OnVideoId(videoId))|
    ensures r.Ok? ==> r.value.currentPage == page && r.value.totalPages == TotalPages(r.value.total, limit)
    ensures r.Ok? ==> |r.value.items| <= limit && (r.value.items == [] <==> page > r.value.totalPages)
    ensures r.Ok? ==> forall k | 0 <= k < |r.value.items| ::
      && Skip(page, limit) + k < |CommentsOf(comments, videoId)|
      && r.value.items[k].doc == CommentsOf(comments, videoId)[Skip(page, limit) + k]
      && r.value.items[k].owner == ProfileOf(users, r.value.items[k].doc.body.owner)
    ensures r.Ok? ==> forall k | 0 <= k < |r.value.items| ::
      r.value.items[k].doc in comments && r.value.items[k].doc.body.video == videoId
  {
    if !IsValidId(videoId) then Err(BadRequest)
    else if videoId !in Ids(videos) then Err(NotFound)
    else
      var sorted := CommentsOf(comments, videoId);
      var l: Listing<Doc<Comment>> := Paged(sorted, page, limit);
      assert forall k | 0 <= k < |l.items| :: l.items[k] in sorted;
      Ok(Listing(Populate(users, l.items, CommentOwner), l.currentPage, l.totalPages, l.total))
  }

  /** With the collection in creation order, every page of a video's comments lists the newest first. */
  lemma CommentPagesNewestFirst(
    users: seq<Doc<User>>, videos: seq<Doc<Video>>, comments: seq<Doc<Comment>>,
    videoId: Id, page: nat, limit: nat)
    requires page >= 1 && limit >= 1
    requires UniqueIds(comments) && Chronological(comments)
    requires GetVideoComments(users, videos, comments, videoId, page, limit).Ok?
    ensures var items := GetVideoComments(users, videos, comments, videoId, page, limit).value.items;
            forall i, j | 0 <= i < j < |items| :: items[i].doc.createdAt >= items[j].doc.createdAt
  {
    var sorted := CommentsOf(comments, videoId);
    var items := GetVideoComments(users, videos, comments, videoId, page, limit).value.items;
    forall i, j | 0 <= i < j < |items| ensures items[i].doc.createdAt >= items[j].doc.createdAt {
      assert items[i].doc == sorted[Skip(page, limit) + i] && items[j].doc == sorted[Skip(page, limit) + j];
    }
  }

  /** The k-th newest comment of a video is on page k / limit + 1, at position k % limit. */
  lemma EveryCommentListed(
    users: seq<Doc<User>>, videos: seq<Doc<Video>>, comments: seq<Doc<Comment>>, videoId: Id, limit: nat, k: nat)
    requires limit >= 1
    requires IsValidId(videoId) && videoId in Ids(videos)
    requires k < |CommentsOf(comments, videoId)|
    ensures var l := GetVideoComments(users, videos, comments, videoId, k / limit + 1, limit).value;
            k % limit < |l.items| && l.items[k % limit].doc == CommentsOf(comments, videoId)[k]
  {
    RecordOnItsPage(CommentsOf(comments, videoId), limit, k);
  }

  // ----- community posts -----

  function OwnedPost(owner: Id): Doc<Post> -> bool {
    (d: Doc<Post>) => d.body.owner == owner
  }

  function PostOwner(p: Post): Id { p.owner }

  /** CommunityPost.find({ owner }).sort({ createdAt: -1 }): the account's posts, newest first. */
  function PostsOf(posts: seq<Doc<Post>>, owner: Id): (r: seq<Doc<Post>>)
    ensures forall d :: d in r <==> d in posts && d.body.owner == owner
    ensures |r| == |Filter(posts, OwnedPost(owner))|
    ensures UniqueIds(posts) && Chronological(posts) ==> NewestFirst(r)
  {
    var matches := Filter(posts, OwnedPost(owner));
    ReverseMembers(matches);
    if UniqueIds(posts) && Chronological(posts) then
      FilterKeepsInvariants(posts, OwnedPost(owner));
      ReverseIsNewestFirst(matches);
      Reverse(matches)
    else
      Reverse(matches)
  }

  /** getUserPosts for the signed-in account: 404 when its record is gone, else one page of its posts, newest first. */
  function GetUserPosts(
    users: seq<Doc<User>>, posts: seq<Doc<Post>>, caller: Id, page: nat, limit: nat)
    : (r: Result<Listing<Populated<Post>>>)
    requires page >= 1 && limit >= 1
    ensures r.Err? <==> caller !in Ids(users)
    ensures r.Err? ==> r.error == NotFound
    ensures r.Ok? ==> r.value.total == |Filter(posts, OwnedPost(caller))|
    ensures r.Ok? ==> r.value.currentPage == page && r.value.totalPages == TotalPages(r.value.total, limit)
    ensures r.Ok? ==> |r.value.items| <= limit && (r.value.items == [] <==> page > r.value.totalPages)
    ensures r.Ok? ==> forall k | 0 <= k < |r.value.items| ::
      && Skip(page, limit) + k < |PostsOf(posts, caller)|
      && r.value.items[k].doc == PostsOf(posts, caller)[Skip(page, limit) + k]
    ensures r.Ok? ==> forall k | 0 <= k < |r.value.items| ::
      r.value.items[k].doc in posts && r.value.items[k].doc.body.owner == caller
      && r.value.items[k].owner == ProfileOf(users, caller)
  {
    if caller !in Ids(users) then Err(NotFound)
    else
      var sorted := PostsOf(posts, caller);
      var l: Listing<Doc<Post>> := Paged(sorted, page, limit);
      assert forall k | 0 <= k < |l.items| :: l.items[k] in sorted;
      Ok(Listing(Populate(users, l.items, PostOwner), l.currentPage, l.totalPages, l.total))
  }

  /** With the collection in creation order, every page of an account's posts lists the newest first. */
  lemma PostPagesNewestFirst(users: seq<Doc<User>>, posts: seq<Doc<Post>>, caller: Id, page: nat, limit: nat)
    requires page >= 1 && limit >= 1
    requires UniqueIds(posts) && Chronological(posts)
    requires GetUserPosts(users, posts, caller, page, limit).Ok?
    ensures var items := GetUserPosts(users, posts, caller, page, limit).value.items;
            forall i, j | 0 <= i < j < |items| :: items[i].doc.createdAt >= items[j].doc.createdAt
  {
    var sorted := PostsOf(posts, caller);
    var items := GetUserPosts(users, posts, caller, page, limit).value.items;
    forall i, j | 0 <= i < j < |items| ensures items[i].doc.createdAt >= items[j].doc.createdAt {
      assert items[i].doc == sorted[Skip(page, limit) + i] && items[j].doc == sorted[Skip(page, limit) + j];
    }
  }

  /** The k-th newest post of an account is on page k / limit + 1, at position k % limit. */
  lemma EveryPostListed(users: seq<Doc<User>>, posts: seq<Doc<Post>>, caller: Id, limit: nat, k: nat)
    requires limit >= 1
    requires caller in Ids(users)
    requires k < |PostsOf(posts, caller)|
    ensures var l := GetUserPosts(users, posts, caller, k / limit + 1, limit).value;
            k % limit < |l.items| && l.items[k % limit].doc == PostsOf(posts, caller)[k]
  {
    RecordOnItsPage(PostsOf(posts, caller), limit, k);
  }

  // ----- videos -----

  function OwnedVideo(owner: Id): Doc<Video> -> bool {
    (d: Doc<Video>) => d.body.owner == owner
  }

  function VideoOwner(v: Video): Id { v.owner }

  /** sortOption[sortBy] = sortType === "asc" ? 1 : -1, for sortBy = createdAt over a chronological collection. */
  function SortedByCreation<T>(matches: seq<T>, sortType: string): (r: seq<T>)
    ensures |r| == |matches|
    ensures sortType == "asc" ==> r == matches
    ensures sortType != "asc" ==> forall k | 0 <= k < |r| :: r[k] == matches[|matches| - 1 - k]
  {
    if sortType == "asc" then matches else Reverse(matches)
  }

  /**
   * getAllVideos: 400 without a userId; a malformed one makes findById throw a cast error (500);
   * 404 for a missing user; else one page of that user's videos, published or not, in the chosen order.
   */
  function GetAllVideos(
    users: seq<Doc<User>>, videos: seq<Doc<Video>>, userId: Id, sortType: string, page: nat, limit: nat)
    : (r: Result<Listing<Populated<Video>>>)
    requires page >= 1 && limit >= 1
    ensures r == Err(BadRequest) <==> userId == []
    ensures r == Err(ServerError) <==> userId != [] && !IsValidId(userId)
    ensures r == Err(NotFound) <==> IsValidId(userId) && userId !in Ids(users)
    ensures r.Ok? ==> r.value.total == |Filter(videos, OwnedVideo(userId))|
    ensures r.Ok? ==> r.value.currentPage == page && r.value.totalPages == TotalPages(r.value.total, limit)
    ensures r.Ok? ==> |r.value.items| <= limit && (r.value.items == [] <==> page > r.value.totalPages)
    ensures r.Ok? ==> forall k | 0 <= k < |r.value.items| ::
      && Skip(page, limit) + k < r.value.total
      && r.value.items[k].doc == SortedByCreation(Filter(videos, OwnedVideo(userId)), sortType)[Skip(page, limit) + k]
      && r.value.items[k].owner == ProfileOf(users, r.value.items[k].doc.body.owner)
    ensures r.Ok? ==> forall k | 0 <= k < |r.value.items| ::
      r.value.items[k].doc in videos && r.value.items[k].doc.body.owner == userId
  {
    if userId == [] then Err(BadRequest)
    else if !IsValidId(userId) then Err(ServerError)
    else if userId !in Ids(users) then Err(NotFound)
    else
      var matches := Filter(videos, OwnedVideo(userId));
      var sorted := SortedByCreation(matches, sortType);
      assert forall k | 0 <= k < |sorted| :: sorted[k] in matches;
      var l: Listing<Doc<Video>> := Paged(sorted, page, limit);
      assert forall k | 0 <= k < |l.items| :: l.items[k] in sorted;
      Ok(Listing(Populate(users, l.items, VideoOwner), l.currentPage, l.totalPages, l.total))
  }

  /** Ascending pages list the oldest video first, descending pages the newest first. */
  lemma VideoPagesFollowSortType(
    users: seq<Doc<User>>, videos: seq<Doc<Video>>, userId: Id, sortType: string, page: nat, limit: nat)
    requires page >= 1 && limit >= 1
    requires UniqueIds(videos) && Chronological(videos)
    requires GetAllVideos(users, videos, userId, sortType, page, limit).Ok?
    ensures var items := GetAllVideos(users, videos, userId, sortType, page, limit).value.items;
            forall i, j | 0 <= i < j < |items| ::
              if sortType == "asc" then items[i].doc.createdAt <= items[j].doc.createdAt
              else items[i].doc.createdAt >= items[j].doc.createdAt
  {
    var matches := Filter(videos, OwnedVideo(userId));
    FilterKeepsInvariants(videos, OwnedVideo(userId));
    if sortType != "asc" {
      ReverseIsNewestFirst(matches);
    }
  }

  /** Every video of the user is on exactly the page its position predicts, whichever the order. */
  lemma EveryVideoListed(
    users: seq<Doc<User>>, videos: seq<Doc<Video>>, userId: Id, sortType: string, limit: nat, k: nat)
    requires limit >= 1
    requires IsValidId(userId) && userId in Ids(users)
    requires k < |Filter(videos, OwnedVideo(userId))|
    ensures var sorted := SortedByCreation(Filter(videos, OwnedVideo(userId)), sortType);
            var l := GetAllVideos(users, videos, userId, sortType, k / limit + 1, limit).value;
            k % limit < |l.items| && l.items[k % limit].doc == sorted[k]
  {
    var sorted := SortedByCreation(Filter(videos, OwnedVideo(userId)), sortType);
    RecordOnItsPage(sorted, limit, k);
  }

  /** getVideoById: 400 on a malformed id, 404 for a missing video, else the video with its owner populated. */
  function GetVideoById(users: seq<Doc<User>>, videos: seq<Doc<Video>>, videoId: Id): (r: Result<Populated<Video>>)
    ensures r == Err(BadRequest) <==> !IsValidId(videoId)
    ensures r == Err(NotFound) <==> IsValidId(videoId) && videoId !in Ids(videos)
    ensures r.Ok? ==> r.value.doc in videos && r.value.doc.id == videoId
    ensures r.Ok? ==> r.value.owner == ProfileOf(users, r.value.doc.body.owner)
  {
    if !IsValidId(videoId) then Err(BadRequest)
    else match Lookup(videos, videoId)
      case None => Err(NotFound)
      case Some(d) => Ok(Populated(d, ProfileOf(users, d.body.owner)))
  }

  // ----- record edits -----

  /** The record publishVideo creates: no views yet, published, owned by the caller. */
  function NewVideo(videoFile: Asset, thumbnail: Asset, title: string, description: string, duration: nat, owner: Id)
    : (v: Video)
    ensures v.views == 0 && v.isPublished && v.owner == owner
    ensures v.title == Trim(title) && v.description == Trim(description)
    ensures v.videoFile == videoFile && v.thumbnail == thumbnail && v.duration == duration
  {
    Video(videoFile, thumbnail, Trim(title), Trim(description), duration, 0, true, owner)
  }

  /** updateVideo's assignments: files, title, description and duration replaced; views, flag and owner kept. */
  function Reuploaded(v: Video, videoFile: Asset, thumbnail: Asset, title: string, description: string, duration: nat)
    : (r: Video)
    ensures r.views == v.views && r.isPublished == v.isPublished && r.owner == v.owner
    ensures r.title == Trim(title) && r.description == Trim(description)
    ensures r.videoFile == videoFile && r.thumbnail == thumbnail && r.duration == duration
  {
    v.(videoFile := videoFile, thumbnail := thumbnail, title := Trim(title), description := Trim(description),
       duration := duration)
  }

  /** togglePublishStatus: the flag negated, every other field kept. */
  function Flipped(v: Video): (r: Video)
    ensures r.isPublished != v.isPublished
    ensures r.(isPublished := v.isPublished) == v
  {
    v.(isPublished := !v.isPublished)
  }

  /** Toggling the flag twice restores the record. */
  lemma FlipTwice(v: Video)
    ensures Flipped(Flipped(v)) == v
  {
    var once := Flipped(v);
    assert once.(isPublished := v.isPublished) == v;
  }

  /** updateComment's assignment: the trimmed content replaces the old one; video and owner are kept. */
  function Reworded(c: Comment, content: string): (r: Comment)
    ensures r.content == Trim(content) && r.video == c.video && r.owner == c.owner
  {
    c.(content := Trim(content))
  }

  /** updatePost's assignment: the trimmed content replaces the old one; the owner is kept. */
  function RewordedPost(p: Post, content: string): (r: Post)
    ensures r.content == Trim(content) && r.owner == p.owner
  {
    p.(content := Trim(content))
  }
}
