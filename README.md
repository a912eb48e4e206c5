# A verified model of the YouTube-clone backend's controller rules

The backend is an Express/Mongoose service. Its controllers store users, videos, comments,
community posts and playlists. They also keep two toggled relations: likes (on a video, a comment
or a post) and channel subscriptions. This project models the rules those controllers apply, over
an in-memory store, and proves properties about them.

- `Platform.Store` (store.dfy) is a class whose `seq` fields are the collections, each in creation
  order. Its methods are the handlers that change the store: register, like and subscription
  toggles, playlist create/add/remove/update/delete, comment and post create/update/delete, and
  video publish/update/delete/publish-flag toggle. `Valid()` is the store invariant. It says ids
  are unique, every collection is in creation order, the toggled relations hold no duplicate, no
  account subscribes to itself, and stored usernames are lower case. Every method keeps it.
- The read handlers are pure functions over the collections. They are the like count and likers,
  the liked videos, the subscriber and subscribed-channel lists, the playlist projection, the
  dashboard statistics, and the paginated comment, post and video listings.
- The request-body rules (zod schemas) are predicates over strings. `Text.Trim` is JavaScript's
  `trim`, with the exact set of whitespace characters.
- Error responses are an abstract `Results.Error`: BadRequest 400, Forbidden 403, NotFound 404,
  Conflict 409, UploadFailed 500 (an object-store upload gave no URL) and ServerError 500 (an
  uncaught exception).
- Environment inputs are parameters. These are the ObjectId a creation generates, the clock
  reading stamped on it, the signed-in account (`caller`), whether the multipart files were
  present, and each upload's outcome (`Option<Asset>`, `None` when it failed).

Behaviours of the code that the model follows as written:
- `getSubscribedChannels` answers 400, not 404, for an unknown subscriber.
- `getAllVideos` has no id-format check, so a malformed `userId` makes `findById` throw. That is a 500.
- `getChannelStats` dereferences a missing account record, which is a 500.
- `addVideoToPlaylist` appends an id twice when the request itself repeats it.
- No owner check guards comment, post and video edits or deletes, or adding to and removing from a
  playlist. Only playlist update and delete check the owner.

## Model

| member | source | states |
|---|---|---|
| Relations.Toggle | src/controllers/like.controller.js:23-41 | a present record loses exactly one copy; an absent one is appended |
| Relations.ToggleFlips | src/controllers/like.controller.js:23-41 | without duplicates, the record is present after a toggle exactly when it was absent before |
| Relations.ToggleKeepsOthers | src/controllers/like.controller.js:23-36 | every other record keeps its membership and its multiplicity |
| Relations.ToggleKeepsNoDup | src/controllers/subscription.controller.js:25-47 | a toggle never creates a duplicate record |
| Relations.ToggleTwice | src/controllers/subscription.controller.js:25-47 | toggling the same record twice restores the collection's contents (exactly when it was absent) |
| Relations.ToggleCount | src/controllers/like.controller.js:23-41 | every filtered view grows or shrinks by one exactly when the record belongs to it |
| Relations.ToggleKeepsOtherViews | src/controllers/like.controller.js:23-36 | a view the record does not belong to (other users, other targets) is unchanged |
| Documents.Lookup | src/controllers/comment.controller.js:90-93 | findById yields null exactly for an unknown id, else the one document with that id |
| Documents.Delete | src/controllers/comment.controller.js:123 | exactly the documents with that id disappear, the id set loses just that id |
| Documents.DeleteKeepsInvariants | src/controllers/communityPost.controller.js:119-121 | deletion keeps ids unique and creation order |
| Documents.AppendKeepsInvariants | src/controllers/comment.controller.js:72-76 | a creation under a fresh id and a current timestamp keeps both invariants |
| Documents.Replace | src/controllers/comment.controller.js:106-107 | a save changes the record of that one document; ids, timestamps and all other documents are kept |
| Documents.ReverseIsNewestFirst | src/controllers/comment.controller.js:29 | sorting by createdAt descending a collection kept in creation order lists newest first |
| Records.ProfileOf | src/controllers/like.controller.js:169 | a populated user reference is null exactly for a missing account, else that account's public fields |
| Text.Trim | src/controllers/user.controllers.js:13 | the trimmed text is no longer than the input and has no whitespace at either end |
| Text.TrimStripsBlankEnds | src/controllers/user.controllers.js:13 | the trimmed text is a slice of the input with only whitespace before and after it |
| Text.TrimEmptyIff | src/controllers/user.controllers.js:13 | the trimmed text is empty exactly when the input is all whitespace |
| Text.TrimIdempotent | src/controllers/comment.controller.js:61 | trimming twice is trimming once |
| Text.ToLower | src/controllers/user.controllers.js:83 | the result has the same length, no upper-case letter, and each character is the input's lowered |
| Pagination.TotalPages | src/controllers/comment.controller.js:34 | the least number of pages of size limit that hold all records |
| Pagination.Page | src/controllers/comment.controller.js:21-31 | the page holds at most limit records, record k of the page being record skip+k of the sorted list |
| Pagination.PageNonEmptyIff | src/controllers/communityPost.controller.js:19-31 | a page is non-empty exactly when its number is at most totalPages; later pages are empty, not errors |
| Pagination.RecordOnItsPage | src/controllers/video.controller.js:98-124 | every record appears, at position k mod limit of page k div limit + 1 |
| Pagination.TwentyFiveByTen | src/controllers/comment.controller.js:21-34 | example: 25 records at 10 per page make 3 pages; page 3 holds the last 5, page 4 none |
| LikeQueries.TargetOfKind | src/controllers/like.controller.js:143-150 | only video, comment and communityPost select a target, and each the matching kind |
| LikeQueries.LikesOnCountsLikers | src/controllers/like.controller.js:149-151 | without duplicate likes, the likes on a target number the distinct accounts liking it |
| LikeQueries.GetLikeCount | src/controllers/like.controller.js:140-155 | 400 exactly for an unknown type or a malformed id; else the number of likes on that target |
| LikeQueries.LikeCountIsNumberOfLikers | src/controllers/like.controller.js:149-151 | on a valid store the reported count is the number of accounts liking the target |
| LikeQueries.ToggleMovesOneCount | src/controllers/like.controller.js:23-41 | a toggle moves its own target's count by one and leaves every other target's likes identical |
| LikeQueries.GetLikeWithUser | src/controllers/like.controller.js:157-182 | 400 as for the count; totalLikes equals the number of users listed and the count, one populated liker per like in order |
| LikeQueries.LikedVideoDocs | src/controllers/like.controller.js:122-132 | only existing videos the user likes are listed, each with its owner's public fields or null; with unique ids every such video is listed |
| LikeQueries.GetLikedVideos | src/controllers/like.controller.js:110-138 | 400 for a malformed id, 404 for an unknown user, else exactly the still-existing videos the user likes, each with its owner populated |
| SubscriptionQueries.SubscriberEntries | src/controllers/subscription.controller.js:59-105 | each row is an existing subscriber of the channel carrying that account's public fields, isSubscribed exactly for the viewer; every existing subscriber has a row |
| SubscriptionQueries.EntriesCountAllWhenAccountsExist | src/controllers/subscription.controller.js:74 | when no subscriber account is missing, the list is as long as the subscription count |
| SubscriptionQueries.GetUserChannelSubscribers | src/controllers/subscription.controller.js:51-117 | 400 exactly for a malformed id; else the rows are SubscriberEntries, every existing subscriber appears, and totalSubscribers is their number, at most the subscription count |
| SubscriptionQueries.GetSubscribedChannels | src/controllers/subscription.controller.js:120-152 | 400 for a malformed id and for an unknown subscriber; entry k follows the k-th newest subscription of the subscriber: that channel's profile when the account exists, null exactly when it does not |
| SubscriptionQueries.SubscribedChannelsComplete | src/controllers/subscription.controller.js:120-152 | every channel the subscriber follows that still exists is listed with its profile |
| SubscriptionQueries.SubscribeListsChannelFirst | src/controllers/subscription.controller.js:133-135 | a new subscription puts that channel first in the newest-first channel list |
| SubscriptionQueries.ToggleMovesSubscriberCount | src/controllers/subscription.controller.js:25-47 | a toggle moves its channel's subscriber count by one and no other channel's |
| PlaylistOps.MissingIds | src/controllers/playlist.controller.js:35-46 | the requested ids that name no video; empty exactly when all of them exist |
| PlaylistOps.NewIds | src/controllers/playlist.controller.js:165-168 | the requested ids not yet in the playlist; empty exactly when all are already listed |
| PlaylistOps.Appended | src/controllers/playlist.controller.js:165-176 | the old list is kept as a prefix; what is added comes only from the request, is not already listed, and is no longer than the request; every requested id ends up listed; a request with nothing new changes nothing |
| PlaylistOps.AppendedKeepsNoDup | src/controllers/playlist.controller.js:165-175 | a playlist without repeats stays so when the request repeats nothing |
| PlaylistOps.AppendedRepeatsWithinRequest | src/controllers/playlist.controller.js:168-175 | a request naming a new id twice appends it twice |
| PlaylistOps.WithoutVideo | src/controllers/playlist.controller.js:205 | no occurrence of the video remains and every other id keeps its number of occurrences |
| PlaylistOps.WithoutVideoKeepsOrder | src/controllers/playlist.controller.js:205 | removal distributes over concatenation, so the kept ids keep their relative order |
| PlaylistOps.NewPlaylist | src/controllers/playlist.controller.js:48-53 | the new playlist has the trimmed name and description, the caller as owner and the ids as given |
| PlaylistOps.Renamed | src/controllers/playlist.controller.js:269-270 | only name and description change; owner and videos are untouched |
| PlaylistOps.Summaries | src/controllers/playlist.controller.js:102-113 | one summary per listed id that names an existing video, in list order, with that video's title and thumbnail |
| PlaylistOps.GetPlaylistById | src/controllers/playlist.controller.js:95-129 | 400 exactly for a malformed id, 404 exactly for a missing playlist, else its fields, populated owner and video summaries |
| Dashboard.Owned | src/controllers/dashboard.controller.js:20-22 | exactly the videos owned by the channel, published or not |
| Dashboard.IdList | src/controllers/dashboard.controller.js:28 | the ids of the videos, in order |
| Dashboard.TotalViewsBoundsEach | src/controllers/dashboard.controller.js:27 | no video has more views than the total |
| Dashboard.TotalViewsConcat | src/controllers/dashboard.controller.js:27 | the views total is additive over a split of the videos |
| Dashboard.TotalViewsZeroIff | src/controllers/dashboard.controller.js:27 | the total is 0 exactly when no video has a view, in particular with no videos |
| Dashboard.LikesAmongIsSumPerVideo | src/controllers/dashboard.controller.js:28-32 | the like count over the video ids equals the sum of the per-video like counts |
| Dashboard.GetChannelStats | src/controllers/dashboard.controller.js:10-53 | 500 exactly when the caller's account is missing; else the owned video count, subscriber count, totalViews the sum of the owned videos' views (so at least each one), likes on owned videos |
| Dashboard.OwnedCountsIds | src/controllers/dashboard.controller.js:20-26 | with unique ids the video count is the number of distinct owned videos |
| Dashboard.ToggleLikeMovesTotalLikes | src/controllers/dashboard.controller.js:28-32 | a like toggled on an owned video moves totalLikes by one, any other like leaves it, and no other figure changes |
| Dashboard.PublishAddsOneVideo | src/controllers/dashboard.controller.js:20-32 | a newly published video adds one to totalVideos and changes no other figure |
| Listings.Populate | src/controllers/comment.controller.js:28 | each document of the page keeps its place and gets its owner's public fields or null |
| Listings.Paged | src/controllers/comment.controller.js:21-34 | the page is the skip/limit slice, empty exactly past totalPages; total and totalPages count every match |
| Listings.NewestFirstPages | src/controllers/communityPost.controller.js:22-28 | every page of a newest-first listing is in descending creation order |
| Listings.CommentsOf | src/controllers/comment.controller.js:25-29 | exactly the comments on the video, as many as match, newest first when the collection is in creation order |
| Listings.GetVideoComments | src/controllers/comment.controller.js:9-47 | 400 exactly for a malformed id, 404 exactly for a missing video; else currentPage is the page, totalPages is ceil(total / limit) over all of the video's comments, and item k is comment Skip + k of CommentsOf with its owner populated |
| Listings.CommentPagesNewestFirst | src/controllers/comment.controller.js:25-31 | every page of a video's comments is in descending creation order |
| Listings.EveryCommentListed | src/controllers/comment.controller.js:21-31 | the k-th newest comment of a video is on page k / limit + 1 at position k % limit |
| Listings.GetUserPosts | src/controllers/communityPost.controller.js:10-44 | 404 exactly when the caller's account is missing; else currentPage is the page, totalPages is ceil(total / limit) over all the caller's posts, and item k is post Skip + k of PostsOf with the caller as populated owner |
| Listings.PostsOf | src/controllers/communityPost.controller.js:22-28 | exactly the account's posts, as many as match, newest first when the collection is in creation order |
| Listings.PostPagesNewestFirst | src/controllers/communityPost.controller.js:22-28 | every page of an account's posts is in descending creation order |
| Listings.EveryPostListed | src/controllers/communityPost.controller.js:19-28 | the k-th newest post of an account is on page k / limit + 1 at position k % limit |
| Listings.SortedByCreation | src/controllers/video.controller.js:113-114 | ascending exactly when sortType is "asc", otherwise the reverse order |
| Listings.GetAllVideos | src/controllers/video.controller.js:77-139 | 400 without userId, 500 for a malformed one, 404 for an unknown user; else currentPage is the page, totalPages is ceil(total / limit) over all that user's videos, and item k is video Skip + k in the chosen order with its owner populated |
| Listings.VideoPagesFollowSortType | src/controllers/video.controller.js:113-125 | a page is in ascending creation order for "asc" and descending otherwise |
| Listings.EveryVideoListed | src/controllers/video.controller.js:98-124 | each of the user's videos is listed on the page its position predicts |
| Listings.GetVideoById | src/controllers/video.controller.js:142-161 | 400 exactly for a malformed id, 404 exactly for a missing video, else that video with its owner populated |
| Listings.NewVideo | src/controllers/video.controller.js:55-69 | a published video owned by the caller, with no views yet and the trimmed title and description |
| Listings.Reuploaded | src/controllers/video.controller.js:218-230 | files, title, description and duration are replaced; views, the publish flag and owner are kept |
| Listings.Flipped | src/controllers/video.controller.js:270 | the publish flag is negated and no other field changes |
| Listings.FlipTwice | src/controllers/video.controller.js:270-272 | toggling the flag twice restores the record |
| Listings.Reworded | src/controllers/comment.controller.js:106 | only the content changes, to the trimmed input |
| Listings.RewordedPost | src/controllers/communityPost.controller.js:100 | only the content changes, to the trimmed input |
| Rules.StoredTextRevalidates | src/controllers/comment.controller.js:60-62 | stored (trimmed) content, title and description pass their rule again |
| Rules.PaddingIsIgnored | src/controllers/communityPost.controller.js:47-49 | whitespace padding around a text does not change what the length rules see |
| Rules.EmailHasOneAt | src/controllers/user.controllers.js:23 | an accepted email has exactly one '@' |
| Rules.UsernameSamples | src/controllers/user.controllers.js:11-16 | example: underscores are accepted; names shorter than 3 or containing a digit are not |
| Rules.EmailSampleAccepted | src/controllers/user.controllers.js:17-23 | example: a mixed-case address is lowered before the pattern applies |
| Rules.EmailSampleRejected | src/controllers/user.controllers.js:17-23 | example: an address without a dot after the '@' is refused |
| Rules.PasswordSamples | src/controllers/user.controllers.js:30-36 | example: a password needs an upper-case letter besides a digit and a special character |
| Registration.Normalised | src/controllers/user.controllers.js:10-31 | username and full name are trimmed, the email trimmed and lowercased, the password kept as typed |
| Registration.NewUser | src/controllers/user.controllers.js:80-87 | the stored username is the lowercased input, the cover image the uploaded URL or "", no refresh token |
| Registration.Register | src/controllers/user.controllers.js:39-77 | 400 for a bad body, 409 exactly for a duplicate, 400 without an avatar URL, else the record to store, whose username is valid and lower case |
| Registration.StoredUsernameValid | src/controllers/user.controllers.js:83 | lowercasing a valid username keeps it valid |
| Registration.UppercaseUsernameNeverMatches | src/controllers/user.controllers.js:50-52 | an input username with an upper-case letter never matches a stored username, so only the email can block it |
| Registration.DuplicateUsernameAfterLowercasing | src/controllers/user.controllers.js:50-56 | with "alice" stored, "Alice" under another email registers and stores a second "alice" |
| Registration.PublicView | src/controllers/user.controllers.js:89 | the response carries every stored field except password and refresh token |
| Registration.PublicViewHidesSecrets | src/controllers/user.controllers.js:89 | the response does not depend on the password or the refresh token |
| Platform.Store.RegisterUser | src/controllers/user.controllers.js:39-96 | the outcome of Register; only on success exactly one account is added, and its public view returned |
| Platform.Store.InsertUser | src/controllers/user.controllers.js:80-87 | the account is appended and the store invariant is kept |
| Platform.Store.AppendUserKeepsLowercase | src/controllers/user.controllers.js:80-87 | adding a lowercased account keeps the store's user invariants |
| Platform.Store.ToggleLike | src/controllers/like.controller.js:11-108 | 400 for a malformed id and 404 for a missing target, both with no change; else the caller's like is toggled, Removed exactly when it existed |
| Platform.Store.ToggleSubscription | src/controllers/subscription.controller.js:9-48 | 400 for a malformed id or the caller's own channel, 404 for a missing channel, all with no change; else the subscription is toggled |
| Platform.Store.CreatePlaylist | src/controllers/playlist.controller.js:11-59 | 400 for a bad body, 404 exactly when a video is missing, both with no change; else exactly one new playlist |
| Platform.Store.AddVideosToPlaylist | src/controllers/playlist.controller.js:130-184 | 400/404 in the code's order with no change; else only that playlist's list becomes Appended |
| Platform.Store.StorePlaylist | src/controllers/playlist.controller.js:170-174 | only that playlist's record is overwritten and the store invariant is kept |
| Platform.Store.ReplaceSameBody | src/controllers/playlist.controller.js:170-174 | writing back a document's own record changes nothing |
| Platform.Store.RemoveVideoFromPlaylist | src/controllers/playlist.controller.js:186-212 | 400, 404 for a missing playlist or an unlisted video, with no change; else only that playlist loses every occurrence |
| Platform.Store.DeletePlaylist | src/controllers/playlist.controller.js:214-239 | 400, 404, 403 for a non-owner, all with no change; else exactly that playlist is removed |
| Platform.Store.UpdatePlaylist | src/controllers/playlist.controller.js:241-278 | 400, 404, 403 for a non-owner, 400 for a bad body, all with no change; else only name and description change |
| Platform.Store.AddComment | src/controllers/comment.controller.js:49-81 | 400, 404 for a missing video, 400 for bad content, with no change; else one new comment on the video by the caller |
| Platform.Store.UpdateComment | src/controllers/comment.controller.js:83-111 | 400, 404, 400 for bad content, with no change; else only that comment's content changes |
| Platform.Store.DeleteComment | src/controllers/comment.controller.js:112-127 | 400, 404 with no change; else exactly that comment is removed |
| Platform.Store.CreatePost | src/controllers/communityPost.controller.js:46-71 | 400 exactly for bad content, with no change; else one new post by the caller |
| Platform.Store.UpdatePost | src/controllers/communityPost.controller.js:72-105 | 400, 404, 400 for bad content, with no change; else only that post's content changes |
| Platform.Store.DeletePost | src/controllers/communityPost.controller.js:107-125 | 400, 404 with no change; else exactly that post is removed |
| Platform.Store.PublishVideo | src/controllers/video.controller.js:14-74 | 400 for missing files or a bad title/description, 500 when an upload fails, all with no record; else one new video |
| Platform.Store.UpdateVideo | src/controllers/video.controller.js:163-235 | 400, 404, 400, 500 in the code's order with no change; else only that video is re-uploaded |
| Platform.Store.DeleteVideo | src/controllers/video.controller.js:237-259 | 400, 404 with no change; else exactly that video is removed |
| Platform.Store.TogglePublishStatus | src/controllers/video.controller.js:260-283 | 400, 404 with no change; else only that video's flag flips, and the new flag is returned |

## Left out

- Login, token refresh and logout: src/controllers/user.controllers.js exports only `registerUser`; the session code is not part of this model.
- `getUserPlaylists` reads `.owner` of an array and always fails; `getChannelVideos` destructures `channelId` from an id and always answers 400. Neither is modelled.
- Routing, server wiring, authentication middleware and console logging. `caller` stands for `req.user._id`.
- The HTTP envelope. `ApiError` stores `statuscode` while the handlers read `statusCode`, so on the wire most thrown errors become 500. The model keeps the status each handler intends, as an abstract error.
- Object-store I/O: uploads are an `Option<Asset>` outcome. Deleting old files, and the files orphaned when a later step fails, are not modelled.
- `Math.floor` of the uploaded duration: `duration` is a `nat` parameter.
- `parseInt` and `NaN`: `page >= 1` and `limit >= 1` are preconditions of the listings.
- The case-insensitive title search (`query`) and `sortBy` other than `createdAt` in `getAllVideos`.
- Ties in `createdAt`: a descending sort is modelled as the reverse of insertion order.
- The subscriber list sorts on `createdAt` after projecting it away, so its order is unspecified. The model lists the rows in subscription order and proves nothing about their order.
- ObjectId syntax: only the 24-hex-digit form is modelled. Ids are compared as strings, so the 12-character form and upper-case hex spellings, which Mongoose casts to the same id, are not modelled. That includes the self-subscription guard, which compares strings.
- Mongoose schema casting and validation (video.model.js declares `videoFile` and `thumbnail` as strings and `duration` with an undefined type), the password-hashing hook and any `lowercase` schema option: the user model is not part of this model.
- `Text.ToLower`: lowers ASCII letters only; non-ASCII case mapping is not modelled, and lengths count UTF-16 code units as characters.
- `updatedAt` timestamps, and the `createdUser` re-read after registration (its 500 branch cannot be reached sequentially).
- Concurrency: the toggles are a find followed by a delete or create with no isolation. The model runs requests one at a time.
- Dangling references: deleting a video, comment or post leaves the likes, comments and playlist entries that name it. Listings drop or null them as Mongoose populate does.
- SubscriptionQueries.GetUserChannelSubscribers: the count matches the subscription count only when every subscriber account exists (EntriesCountAllWhenAccountsExist), because `$unwind` drops subscriptions of deleted accounts.
