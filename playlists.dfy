/** The pure parts of playlist.controller.js: the id checks, the list edits and the by-id projection. */
module PlaylistOps {
  import opened Results
  import opened Documents
  import opened Seqs
  import opened Text
  import opened Records

  function Unknown(videos: seq<Doc<Video>>): Id -> bool {
    (x: Id) => x !in Ids(videos)
  }

  /** videoIds.filter(id => !existingIdsSet.has(id)): the requested ids naming no stored video. */
  function MissingIds(videos: seq<Doc<Video>>, ids: seq<Id>): (r: seq<Id>)
    ensures r == [] <==> forall k | 0 <= k < |ids| :: ids[k] in Ids(videos)
    ensures forall x :: x in r <==> x in ids && x !in Ids(videos)
  {
    var r := Filter(ids, Unknown(videos));
    assert r != [] ==> r[0] in r;
    assert (exists k | 0 <= k < |ids| :: ids[k] !in Ids(videos)) ==> r != [] by {
      if k :| 0 <= k < |ids| && ids[k] !in Ids(videos) {
        assert ids[k] in ids;
      }
    }
    r
  }

  function NotIn(existing: seq<Id>): Id -> bool {
    (x: Id) => x !in existing
  }

  /** videoIds.filter(id => !existingIds.has(id)): the requested ids the playlist does not hold yet, in request order. */
  function NewIds(existing: seq<Id>, requested: seq<Id>): (r: seq<Id>)
    ensures forall x :: x in r <==> x in requested && x !in existing
    ensures r == [] <==> forall k | 0 <= k < |requested| :: requested[k] in existing
  {
    var r := Filter(requested, NotIn(existing));
    assert r != [] ==> r[0] in r;
    assert (exists k | 0 <= k < |requested| :: requested[k] !in existing) ==> r != [] by {
      if k :| 0 <= k < |requested| && requested[k] !in existing {
        assert requested[k] in requested;
      }
    }
    r
  }

  /** playlist.videos after push(...newVideoIds). */
  function Appended(existing: seq<Id>, requested: seq<Id>): (r: seq<Id>)
    ensures |r| >= |existing| && r[..|existing|] == existing
    ensures |r| - |existing| <= |requested|
    ensures forall k | |existing| <= k < |r| :: r[k] in requested && r[k] !in existing
    ensures forall x :: x in r <==> x in existing || x in requested
    ensures (forall k | 0 <= k < |requested| :: requested[k] in existing) ==> r == existing
  {
    var added := NewIds(existing, requested);
    assert forall k | 0 <= k < |added| :: added[k] in added;
    existing + added
  }

  /** Appending keeps a playlist free of repeats when the request itself repeats nothing. */
  lemma AppendedKeepsNoDup(existing: seq<Id>, requested: seq<Id>)
    requires NoDup(existing) && NoDup(requested)
    ensures NoDup(Appended(existing, requested))
  {
    var added := NewIds(existing, requested);
    FilterKeepsNoDup(requested, NotIn(existing));
    var r := existing + added;
    forall i, j | 0 <= i < j < |r| ensures r[i] != r[j] {
      if j >= |existing| {
        assert r[j] == added[j - |existing|] && r[j] in added;
        if i >= |existing| {
          assert r[i] == added[i - |existing|];
        } else {
          assert r[i] in existing;
        }
      }
    }
  }

  /** A request that names a new video twice appends it twice: the filter looks only at the stored list. */
  lemma AppendedRepeatsWithinRequest(v: Id)
    ensures Appended([], [v, v]) == [v, v]
  {
    assert NewIds([], [v, v]) == [v, v];
  }

  function Other(v: Id): Id -> bool {
    (x: Id) => x != v
  }

  /** playlist.videos.filter(v => v !== videoId): every occurrence goes, the rest keep their order. */
  function WithoutVideo(vs: seq<Id>, v: Id): (r: seq<Id>)
    ensures v !in r
    ensures forall x | x != v :: multiset(r)[x] == multiset(vs)[x]
    ensures |r| == |vs| - multiset(vs)[v]
  {
    var r := Filter(vs, Other(v));
    forall x ensures multiset(r)[x] == if x != v then multiset(vs)[x] else 0 {
      FilterMultiset(vs, Other(v), x);
    }
    assert |r| == |multiset(r)|;
    assert multiset(r) == multiset(vs)[v := 0];
    r
  }

  /** Removal commutes with splitting the list, so the kept entries keep their relative order. */
  lemma WithoutVideoKeepsOrder(a: seq<Id>, b: seq<Id>, v: Id)
    ensures WithoutVideo(a + b, v) == WithoutVideo(a, v) + WithoutVideo(b, v)
    ensures v !in a ==> WithoutVideo(a, v) == a
  {
    FilterConcat(a, b, Other(v));
    if v !in a {
      FilterAll(a, Other(v));
    }
  }

  /** The name and description zod accepts: non-empty after trimming. */
  predicate ValidPlaylistFields(name: string, description: string, videoIds: seq<Id>) {
    |Trim(name)| >= 1 && |Trim(description)| >= 1 && forall k | 0 <= k < |videoIds| :: IsValidId(videoIds[k])
  }

  /** A new playlist record: the trimmed fields, the caller as owner and the ids as given, repeats included. */
  function NewPlaylist(name: string, description: string, videoIds: seq<Id>, owner: Id): (p: Playlist)
    ensures p.owner == owner && p.videos == videoIds
    ensures p.name == Trim(name) && p.description == Trim(description)
  {
    Playlist(Trim(name), Trim(description), owner, videoIds)
  }

  /** updatePlaylist's assignment: name and description replaced, owner and videos untouched. */
  function Renamed(p: Playlist, name: string, description: string): (r: Playlist)
    ensures r.owner == p.owner && r.videos == p.videos
    ensures r.name == Trim(name) && r.description == Trim(description)
  {
    p.(name := Trim(name), description := Trim(description))
  }

  datatype VideoSummary = VideoSummary(id: Id, title: string, thumbnail: Asset)

  datatype PlaylistView = PlaylistView(
    id: Id,
    name: string,
    description: string,
    owner: Option<Profile>,
    videos: seq<VideoSummary>,
    createdAt: nat)

  function Known(videos: seq<Doc<Video>>): Id -> bool {
    (x: Id) => x in Ids(videos)
  }

  /** populate("videos", "title thumbnail") then the map to { _id, title, thumbnail }: missing videos are dropped. */
  function Summaries(videos: seq<Doc<Video>>, ids: seq<Id>): (r: seq<VideoSummary>)
    ensures |r| == |Filter(ids, Known(videos))|
    ensures forall k | 0 <= k < |r| :: r[k].id == Filter(ids, Known(videos))[k]
    ensures forall k | 0 <= k < |r| :: r[k].id in ids && r[k].id in Ids(videos)
    ensures UniqueIds(videos) ==> forall k, d | 0 <= k < |r| && d in videos && d.id == r[k].id ::
      r[k].title == d.body.title && r[k].thumbnail == d.body.thumbnail
  {
    var kept := Filter(ids, Known(videos));
    assert forall k | 0 <= k < |kept| :: kept[k] in kept;
    seq(|kept|, k requires 0 <= k < |kept| =>
      var d := Lookup(videos, kept[k]).value;
      VideoSummary(d.id, d.body.title, d.body.thumbnail))
  }

  /** getPlaylistById: 400 on a malformed id, 404 for a missing playlist, else the populated projection. */
  function GetPlaylistById(
    users: seq<Doc<User>>, videos: seq<Doc<Video>>, playlists: seq<Doc<Playlist>>, playlistId: Id)
    : (r: Result<PlaylistView>)
    ensures r == Err(BadRequest) <==> !IsValidId(playlistId)
    ensures r == Err(NotFound) <==> IsValidId(playlistId) && playlistId !in Ids(playlists)
    ensures r.Ok? ==> r.value.id == playlistId
    ensures r.Ok? && UniqueIds(playlists) ==> forall d | d in playlists && d.id == playlistId ::
      && r.value.name == d.body.name
      && r.value.description == d.body.description
      && r.value.owner == ProfileOf(users, d.body.owner)
      && r.value.videos == Summaries(videos, d.body.videos)
  {
    if !IsValidId(playlistId) then Err(BadRequest)
    else match Lookup(playlists, playlistId)
      case None => Err(NotFound)
      case Some(d) =>
        Ok(PlaylistView(d.id, d.body.name, d.body.description, ProfileOf(users, d.body.owner),
                        Summaries(videos, d.body.videos), d.createdAt))
  }
}
