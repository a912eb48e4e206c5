/** The stored records of the platform, shaped after the collections the controllers use. */
module Records {
  import opened Results
  import opened Documents

  /** An object-store upload as the controllers keep it: the secure URL and the public id. */
  datatype Asset = Asset(url: string, publicId: string)

  /** A stored account; refreshToken is absent until a login, which is not part of this model. */
  datatype User = User(
    username: string,
    email: string,
    fullName: string,
    password: string,
    avatar: string,
    coverImage: string,
    refreshToken: Option<string>)

  /** The public fields a populate("…", "username fullName avatar") exposes. */
  datatype Profile = Profile(id: Id, username: string, fullName: string, avatar: string)

  /** An upload result the controllers accept: present and carrying a non-empty URL. */
  predicate Uploaded(a: Option<Asset>) { a.Some? && a.value.url != [] }

  datatype Video = Video(
    videoFile: Asset,
    thumbnail: Asset,
    title: string,
    description: string,
    duration: nat,
    views: nat,
    isPublished: bool,
    owner: Id)

  datatype Comment = Comment(content: string, video: Id, owner: Id)

  datatype Post = Post(content: string, owner: Id)

  datatype Playlist = Playlist(name: string, description: string, owner: Id, videos: seq<Id>)

  /** Which of the three optional reference fields of a like document is set. */
  datatype LikeTarget = OnVideo(id: Id) | OnComment(id: Id) | OnPost(id: Id)

  datatype Like = Like(target: LikeTarget, likedBy: Id)

  datatype Subscription = Subscription(subscriber: Id, channel: Id)

  /** populate of a user reference: the profile of the account, or null when it does not exist. */
  function ProfileOf(users: seq<Doc<User>>, id: Id): (r: Option<Profile>)
    ensures r.None? <==> id !in Ids(users)
    ensures r.Some? ==> r.value.id == id
    ensures UniqueIds(users) ==> forall d | d in users && d.id == id ::
      r == Some(Profile(id, d.body.username, d.body.fullName, d.body.avatar))
  {
    match Lookup(users, id)
    case None => None
    case Some(d) => Some(Profile(d.id, d.body.username, d.body.fullName, d.body.avatar))
  }

  /** A document with its owner reference populated: the owner's public fields, or null. */
  datatype Populated<T> = Populated(doc: Doc<T>, owner: Option<Profile>)
}
