# Video-sharing backend: resource controllers

This project is a Dafny model of the resource controllers of a video-sharing
REST backend: videos, comments, likes, tweets, playlists, subscriptions, and
the channel dashboard. The controllers validate input, read and write a
document database, check who owns a document, and answer with a status code
and a payload.

In the model the whole database is one immutable value, `Documents.Store`:
- the set of user identifiers;
- maps from identifier to video, comment, tweet and playlist;
- the like and subscription documents as sequences in insertion order.

Every handler is a pure function from the store, the signed-in user and the
request fields to a `Reply`: the status, the payload, and the store after the
request. Each handler's contract covers every branch, in the order the source
tests them:
- On an error path the store is unchanged (`Rejected`).
- On a success path only the documents the source writes change. `OnlyAt`
  says that every other entry of the changed map stays as it was.

Conventions:
- A path parameter is `Malformed` or `Valid(id)`. `isValidObjectId` holds
  exactly of `Valid`.
- The `userId` query parameter of `getAllVideos` is `None` when it is absent
  or empty, because `if(userId)` skips the owner filter for both. A non-empty
  value is `Some(Malformed)` or `Some(Valid(id))`.
- A text field is `None` or the string that was sent. `Present` is
  JavaScript truthiness: sent and not empty.
- The identifier the database gives a new document is the parameter `newId`.
  A new ObjectId is never already in use, so the create handlers require
  `newId` to be absent from the collection.
- A collection's natural scan order is ascending identifier (`Documents.Scan`).
  `find`, `$lookup` and `$group` results come in that order.
- Some handlers pass an unchecked identifier to a query (`findById`, or
  `find` and `countDocuments` for the owner filter). For a malformed
  one the database raises a cast error that carries no status, and the model
  answers 500 (`INTERNAL_ERROR`). The handlers that do this are:
  - the three like toggles;
  - `updateTweet` and `deleteTweet`;
  - `addComment`, `updateComment` and `deleteComment`;
  - `getChannelStats`;
  - the owner filter of `getAllVideos`.

Behaviour of the code worth knowing, which the model keeps:
- **Body before ownership.** `updateTweet` and `updateComment` test the
  content before they test ownership. A non-owner who sends empty content
  gets 400, not 403.
- **No owner checks on videos.** Any signed-in user may update, delete or
  toggle the publish flag of any video: `updateVideo`, `deleteVideo` and
  `togglePublishStatus` check no ownership.
- **Bad subscriber id.** A malformed subscriber identifier in
  `getSubscribedChannels` answers 404, not 400.
- **Missing channel.** A missing channel in `getChannelStats` answers 400,
  not 404.

## Model

| member | source | states |
|---|---|---|
| Seqs.Filter | src/controllers/like.controller.js:98-101 | a query result holds a document iff the collection holds it and it matches, and is no longer than the collection |
| Seqs.FilterCount | src/controllers/like.controller.js:98-101 | a query result holds each matching document as often as the collection does, and no other |
| Seqs.Without | src/controllers/playlist.controller.js:160 | `pull` removes every copy of the identifier, keeps every other identifier exactly as often as before, and changes nothing when the identifier is absent |
| Seqs.WithoutAppend | src/controllers/playlist.controller.js:160 | `pull` keeps the list's order: an entry at the end stays at the end unless it is the pulled value |
| Seqs.WithoutSplit | src/controllers/playlist.controller.js:160 | pulling a value that occurs once closes its gap and leaves every other entry where it was |
| Seqs.RemoveFirst | src/controllers/like.controller.js:26 | removing the found document takes exactly one copy out of the collection |
| Seqs.Ascending | src/controllers/video.controller.js:28 | the natural order lists every identifier of the collection once, in increasing order |
| Seqs.IncreasingUnique | src/controllers/video.controller.js:28 | there is only one increasing listing of a set, so the natural order is well defined |
| Seqs.AscendingRemove | src/controllers/video.controller.js:151 | after a document is deleted, the scan is the old scan without it |
| Seqs.DistinctSize | src/controllers/dashboard.controller.js:22 | counting a duplicate-free result gives the size of the set it describes |
| Seqs.SumWithout | src/controllers/dashboard.controller.js:31 | a sum over a list loses exactly the removed element's term |
| Seqs.FilterConcat | src/controllers/like.controller.js:98-101 | a query over two stretches of a collection is the query over the first followed by the query over the second |
| Seqs.WithoutOnce | src/controllers/playlist.controller.js:160 | pulling an element that occurs once shortens the list by one |
| Seqs.FilterAppend | src/controllers/playlist.controller.js:136 | filtering a list that has one element pushed onto it filters the old list and then tests that element, so a query result keeps the collection's order |
| Seqs.FilterRemoveFirst | src/controllers/like.controller.js:98-101 | removing a document that a query does not match leaves the query's result unchanged |
| Documents.Scan | src/controllers/video.controller.js:28 | the scan lists each document of the collection exactly once, in increasing identifier order |
| Documents.ChannelVideos | src/controllers/dashboard.controller.js:83 | the channel's videos are exactly the videos it owns, each once |
| Links.Toggle | src/controllers/like.controller.js:20-35 | find-then-create-or-remove creates exactly when no such document exists; on removal only one copy goes and every other document keeps its multiplicity |
| Links.TogglePreservesDistinct | src/controllers/like.controller.js:20-35 | a toggle never creates a second document for the same pair |
| Links.ToggleTwice | src/controllers/subscription.controller.js:22-36 | two toggles alternate creating and removing and restore the collection; it is the very same sequence when the first toggle created |
| Links.ToggleThrice | src/controllers/subscription.controller.js:22-36 | a third toggle does what the first did |
| Likes.ToggleLike | src/controllers/like.controller.js:10-92 | a malformed target id gives 500 and a missing target 404, both with the store unchanged; otherwise 201 iff the user's like was absent, and then it is appended; 200 iff it was present, and then one copy is removed; nothing but likes changes |
| Likes.ToggleLikePreservesUnique | src/controllers/like.controller.js:20-35 | at most one like per user and target, kept by every toggle |
| Likes.ToggleLikeTwice | src/controllers/like.controller.js:10-36 | like then unlike (or the reverse) answers 201/200 and restores the likes; a third toggle answers like the first |
| Likes.GetLikedVideos | src/controllers/like.controller.js:94-108 | 404 iff the user has no video like; otherwise exactly the user's video likes |
| Likes.ToggleLikeLeavesOtherUsers | src/controllers/like.controller.js:94-108 | one user's toggle never changes another user's liked-video listing, order included |
| Likes.ToggleNonVideoLikeLeavesListing | src/controllers/like.controller.js:38-92 | comment and tweet likes never show in the liked-video listing |
| Likes.LikeUnlikeListsNothing | src/controllers/like.controller.js:10-36 | a user with no video likes who likes and unlikes a video gets 201, then 200, then 404 from the listing |
| Subscriptions.ToggleSubscription | src/controllers/subscription.controller.js:9-38 | a malformed id gives 400 and an unknown channel 404, store unchanged; otherwise 201 iff not yet subscribed, with the subscription appended, and 200 iff subscribed, with one copy removed |
| Subscriptions.ToggleSubscriptionPreservesUnique | src/controllers/subscription.controller.js:22-36 | at most one subscription per subscriber and channel |
| Subscriptions.ToggleSubscriptionTwice | src/controllers/subscription.controller.js:22-36 | subscribe then unsubscribe (or the reverse) restores the subscriptions, and the statuses alternate |
| Subscriptions.GetUserChannelSubscribers | src/controllers/subscription.controller.js:41-60 | 400 for a malformed id; 404 iff the channel is unknown or has no subscribers; otherwise 200 with exactly the subscriptions to that channel |
| Subscriptions.GetSubscribedChannels | src/controllers/subscription.controller.js:63-82 | a malformed id gives 404; 404 iff the subscriber is unknown or subscribes to nothing; otherwise 200 with exactly that subscriber's subscriptions |
| Subscriptions.ToggleShowsInSubscriberListing | src/controllers/subscription.controller.js:41-60 | after a 201 toggle the channel's subscriber list holds the subscription; after a 200 toggle it does not |
| Subscriptions.ToggleShowsInSubscribedListing | src/controllers/subscription.controller.js:63-82 | after a 201 toggle the subscriber's subscribed-channels list is answered 200 and holds the subscription; after a 200 toggle it does not hold it |
| Tweets.CreateTweet | src/controllers/tweet.controller.js:8-23 | empty content gives 400 with the store unchanged; otherwise one tweet, by the user with that content, is added under the unused `newId`, the collection grows by one and no other tweet changes |
| Tweets.GetUserTweets | src/controllers/tweet.controller.js:25-40 | 404 iff the user is gone or has no tweets; otherwise 200 with exactly the user's tweets |
| Tweets.UpdateTweet | src/controllers/tweet.controller.js:42-65 | checks in the order 400 (empty content), 500, 404, 403; the owner's update changes only that tweet's content |
| Tweets.DeleteTweet | src/controllers/tweet.controller.js:67-84 | 500, 404, 403 leave the store unchanged; the owner's delete removes exactly that tweet |
| Tweets.TweetOwnersAreFixed | src/controllers/tweet.controller.js:42-84 | no tweet handler changes the owner of an existing tweet |
| Tweets.CreateThenDeleteTweet | src/controllers/tweet.controller.js:8-84 | create then delete by the author restores the store |
| Tweets.OwnerAndStrangerScenario | src/controllers/tweet.controller.js:42-84 | a stranger's edit gets 403 with nothing changed; the owner's edit and delete then succeed, and the owner's listing is 404 |
| Comments.AddComment | src/controllers/comment.controller.js:56-81 | 400 for empty content, 500 for a malformed video id, 404 for a missing video; otherwise one comment, by the user on that video, is added under the unused `newId`, the collection grows by one and no other comment changes |
| Comments.UpdateComment | src/controllers/comment.controller.js:83-105 | checks in the order 400, 500, 404, 403; the owner's update changes only the content; video and owner stay |
| Comments.DeleteComment | src/controllers/comment.controller.js:107-124 | 500, 404, 403 leave the store unchanged; the owner's delete removes exactly that comment |
| Comments.AddThenDeleteComment | src/controllers/comment.controller.js:56-124 | add then delete by the author restores the store |
| Comments.UpdateCommentOverwrites | src/controllers/comment.controller.js:83-105 | two updates by the owner equal the second alone |
| Playlists.Joined | src/controllers/playlist.controller.js:40-47 | the join yields exactly the existing videos the playlist names, strictly increasing, so each once and in scan order |
| Playlists.SummaryCountsVideos | src/controllers/playlist.controller.js:48-53 | `totalVideos` is the number of distinct existing videos referred to; it is the list's length when there are no duplicates and no dangling ids; no videos means no views |
| Playlists.Summarize | src/controllers/playlist.controller.js:48-53 | a summary keeps the playlist's name and description; `totalVideos` is the number of distinct existing videos the playlist refers to; no such videos means no views |
| Playlists.JoinedCount | src/controllers/playlist.controller.js:50 | `$size` of the join is the number of distinct existing videos referred to |
| Playlists.DistinctCount | src/controllers/playlist.controller.js:50 | with no duplicates and no dangling ids, that number is the list's length |
| Playlists.CreatePlaylist | src/controllers/playlist.controller.js:8-25 | 400 for a missing name or description; otherwise one empty playlist, owned by the user, is added under the unused `newId`, the collection grows by one and no other playlist changes |
| Playlists.GetUserPlaylists | src/controllers/playlist.controller.js:27-71 | 400 for a malformed id; 404 iff the user owns no playlist; otherwise 200 with one summary per owned playlist and no other |
| Playlists.GetPlaylistById | src/controllers/playlist.controller.js:73-117 | 400, 404, or the playlist's name, description, joined video count and summed views |
| Playlists.AddVideoToPlaylist | src/controllers/playlist.controller.js:119-141 | 400 for a malformed id, 404 for a missing playlist, 400 for a duplicate; otherwise the video is appended and nothing else changes |
| Playlists.RemoveVideoFromPlaylist | src/controllers/playlist.controller.js:143-165 | 400, 404, or 400 when absent; otherwise the list is the `pull` of the video from the old list: the video is gone, every other entry stays as often as before and in its order, and nothing else changes |
| Playlists.DeletePlaylist | src/controllers/playlist.controller.js:167-189 | 400, 404, 403 leave the store unchanged; the owner removes exactly that playlist and gets it back |
| Playlists.UpdatePlaylist | src/controllers/playlist.controller.js:191-217 | 400, 404, 403; the owner's non-empty name and description replace the old ones; owner and videos stay |
| Playlists.PlaylistHandlersKeepNoDuplicates | src/controllers/playlist.controller.js:132-136 | no playlist handler puts a video into a playlist twice |
| Playlists.CreateKeepsNoDuplicates | src/controllers/playlist.controller.js:17-22 | creating a playlist keeps every playlist free of duplicates |
| Playlists.AddKeepsNoDuplicates | src/controllers/playlist.controller.js:132-136 | the duplicate check before `push` keeps the list free of duplicates |
| Playlists.RemoveKeepsNoDuplicates | src/controllers/playlist.controller.js:160 | `pull` keeps the list free of duplicates |
| Playlists.DeleteKeepsNoDuplicates | src/controllers/playlist.controller.js:186 | deleting a playlist keeps the rest free of duplicates |
| Playlists.UpdateKeepsNoDuplicates | src/controllers/playlist.controller.js:211-214 | renaming keeps the lists free of duplicates |
| Playlists.AddThenRemoveVideo | src/controllers/playlist.controller.js:119-165 | adding a video and removing it restores the store |
| Playlists.JoinedAppend | src/controllers/playlist.controller.js:136 | pushing an existing, absent video adds exactly that video to the join |
| Playlists.AddVideoGrowsSummary | src/controllers/playlist.controller.js:94-98 | adding an existing, absent video raises `totalVideos` by one and `totalViews` by its views |
| Videos.CeilDiv | src/controllers/video.controller.js:40 | `totalPages` is the least number of pages of that size that hold all matches |
| Videos.PageOf | src/controllers/video.controller.js:28-30 | a page is consecutive matches from the skip on, at most `limit` of them, and shorter only at the end |
| Videos.Matching | src/controllers/video.controller.js:13-28 | a video is listed iff the query, when sent, matches its title or description and the owner, when sent, is its owner; the list is strictly increasing, so each match once in scan order |
| Videos.MatchingUnfiltered | src/controllers/video.controller.js:13-28 | with no query and no owner the listing is the whole collection in scan order |
| Videos.GetAllVideos | src/controllers/video.controller.js:10-43 | 500 for a malformed owner id; otherwise the requested page (defaults 1 and 10) of the matches, its number, the match count and the page count; every listed video matches |
| Videos.TotalCountsMatches | src/controllers/video.controller.js:32 | `totalVideos` is the number of matching videos |
| Videos.PageNonEmptyIff | src/controllers/video.controller.js:29-40 | a page is non-empty iff its number is at most `totalPages` |
| Videos.ItemOnItsPage | src/controllers/video.controller.js:29-30 | match i is item i mod limit of page i div limit + 1, and that page is within `totalPages` |
| Videos.PageIsSlice | src/controllers/video.controller.js:29-30 | page k is the stretch of matches from (k-1) times limit to k times limit, cut off at the last match |
| Videos.FirstPagesArePrefix | src/controllers/video.controller.js:29-30 | pages 1 to k laid end to end are the first k times limit matches |
| Videos.PagesPartitionMatches | src/controllers/video.controller.js:29-40 | the `totalPages` pages hold every match once, in order; later pages are empty |
| Videos.TwentyFiveMatchesInPagesOfTen | src/controllers/video.controller.js:28-40 | with 25 matches and limit 10, page 2 holds 10 videos, there are 3 pages, page 3 holds 5 and page 4 none |
| Videos.PublishAVideo | src/controllers/video.controller.js:45-88 | 400 for a missing title, description or files, then a missing video file, then a missing thumbnail; 500 for a failed video upload, then a failed thumbnail upload; 201 iff all pass, adding under the unused `newId` one published, unviewed video by the user with both URLs; the collection grows by one and no other video changes |
| Videos.GetVideoById | src/controllers/video.controller.js:90-104 | 400, 404, or the stored video |
| Videos.UpdateVideo | src/controllers/video.controller.js:106-136 | 400, 404; otherwise the non-empty title, description and thumbnail replace the old ones, and nothing else changes |
| Videos.DeleteVideo | src/controllers/video.controller.js:138-154 | 400, 404; otherwise exactly that video document is removed and nothing else changes |
| Videos.TogglePublishStatus | src/controllers/video.controller.js:156-173 | 400, 404; otherwise only that video's publish flag is negated |
| Videos.TogglePublishTwice | src/controllers/video.controller.js:169 | toggling twice restores the store |
| Videos.UpdateVideoIdempotent | src/controllers/video.controller.js:119-133 | sending the same update twice equals sending it once |
| Videos.PublishThenReadAndDelete | src/controllers/video.controller.js:78-154 | a published video reads back by id, and deleting it restores the store |
| Videos.PublishShowsInOwnerListing | src/controllers/video.controller.js:24-30 | a published video is listed under its owner when the page holds the whole collection |
| Videos.ListedAfterInsert | src/controllers/video.controller.js:24-30 | a video inserted under a new id is on a first page large enough to hold every video |
| Videos.OnFirstLargePage | src/controllers/video.controller.js:28-30 | a first page as large as the collection holds every match |
| Videos.InFirstPage | src/controllers/video.controller.js:29-30 | a first page at least as long as the matches holds all of them |
| Dashboard.GetChannelStats | src/controllers/dashboard.controller.js:13-63 | 500 for a malformed id, 400 for an unknown channel; otherwise the owned-video count, the sum of their views and the sum of their like-array sizes; all zero when the channel owns no videos |
| Dashboard.GetChannelVideos | src/controllers/dashboard.controller.js:68-91 | 400, 404; otherwise 200 with exactly the channel's videos, possibly none |
| Dashboard.StatsCountOwnedVideos | src/controllers/dashboard.controller.js:22 | `totalVideos` is the number of videos the channel owns and the length of its video list |
| Dashboard.StatsOf | src/controllers/dashboard.controller.js:22-56 | `totalVideos` is the number of videos the channel owns; a channel with no videos has zero views and zero likes |
| Dashboard.OwnedCount | src/controllers/dashboard.controller.js:22 | `countDocuments` equals the size of the set of owned videos |
| Dashboard.ChannelVideosAreOwnerListing | src/controllers/dashboard.controller.js:83 | the channel video list is the listing filtered by that owner |
| Dashboard.ChannelVideosAfterRemove | src/controllers/dashboard.controller.js:83 | deleting a video removes it, and only it, from every channel's list |
| Dashboard.ChannelVideosAfterReplace | src/controllers/dashboard.controller.js:83 | changing a video without changing its owner leaves every channel list as it was |
| Dashboard.SumsAgree | src/controllers/dashboard.controller.js:24-56 | view and like sums depend only on the views and likes of the videos summed |
| Dashboard.StatsOfRemoved | src/controllers/dashboard.controller.js:22-56 | after a deletion a channel's statistics are those of its old list without the deleted video |
| Dashboard.StatsOfAfterRemove | src/controllers/dashboard.controller.js:22-56 | deleting an owned video lowers the count by one, the views by its views and the likes by its likes; deleting another channel's video changes nothing |
| Dashboard.RemovedOwnVideo | src/controllers/dashboard.controller.js:22-56 | the three statistics of an owned video's removal, measured in the old collection |
| Dashboard.StatsAfterDelete | src/controllers/dashboard.controller.js:13-63 | the same, for `deleteVideo` followed by `getChannelStats` |
| Dashboard.StatsOfAfterReplace | src/controllers/dashboard.controller.js:22-56 | a change that keeps owner, views and likes leaves every channel's statistics unchanged |
| Dashboard.StatsIgnoreOtherFields | src/controllers/dashboard.controller.js:13-63 | the same, for a store whose video changes that way |
| Dashboard.StatsIgnorePublishAndUpdate | src/controllers/dashboard.controller.js:13-63 | toggling the publish flag or updating a video's texts leaves every channel's statistics unchanged |

## Left out

- `getVideoComments` (src/controllers/comment.controller.js:11-54): this paginated aggregation of a video's comments is not modelled.
- Joined and projected reply shapes are not modelled: `populate`, the `$lookup` payloads, `$project` and `updatedAt`. Listings return document identifiers or the documents themselves.
- The JSON envelope (`ApiResponse`, `ApiError` messages, the `success` flag) is not modelled. Only the status and the payload are.
- `asyncHandler`, `ApiError` and `ApiResponse` are not part of this model. The 500 for a cast error on a malformed identifier assumes that an error without a status becomes a 500 reply.
- `Likes.ToggleLike` and `Subscriptions.ToggleSubscription` assume a Mongoose version in which a document still has `remove()` (src/controllers/like.controller.js:26, src/controllers/subscription.controller.js:29). On a version without it, every unlike and every unsubscribe would fail with 500.
- The asset store (`uploadOnCloudinary`) is the parameter `upload` of `Videos.PublishAVideo`. Local file handling and the upload's other failure modes are left out.
- `Videos.PublishAVideo`: `duration` is a whole number or absent. In the source `req.body.duration || 0` is a JavaScript value that the schema casts to a Number: it may be fractional, and a non-numeric value fails the cast with an error. Neither case is modelled.
- `Videos.PublishAVideo`: the owner is `req.user.id`, not `req.user._id`. The model assumes Mongoose's `id` getter, which yields the same identifier as `_id`.
- `Videos.DeleteVideo`: the source answers with the empty object `{}` as payload. The model answers with no payload (`None`), the same as for the `null` payloads of the other deletions.
- `Videos.Matching`: the case-insensitive regular expression test is the parameter `textMatch`. A query that is not a valid regular expression, and therefore fails with 500, is not modelled.
- `Videos.GetAllVideos`: page and limit are whole numbers of at least 1; other values are not modelled. In the source a page of 0 or less gives a negative skip, and a non-numeric page or limit gives NaN. A limit of 0 gives skip 0 and `.limit(0)`, which sets no limit, so every match comes back on one page, with `totalPages` Infinity (NaN when nothing matches). A negative limit on page 1 also gives skip 0.
- `Videos.GetAllVideos`: `sortBy` and `sortType` are read and never used, so they are not parameters.
- Natural order: for the collections kept as maps (videos, comments, tweets, playlists) the database's natural order is modelled as ascending identifier, while the real order is unspecified. The like and subscription collections are kept in insertion order.
- `Dashboard.GetChannelVideos`: the `console.log` of the channel identifier (src/controllers/dashboard.controller.js:81) is an effect with no bearing on the reply and is left out.
- Video schema: `src/models/video.model.js` is not part of this model. Publishing stores views 0, publish flag true and no `likes` array, assumed to be the schema defaults.
- Thumbnail field name: publishing writes `thumbNail` and `updateVideo` writes `thumbnail`. Under either schema spelling strict mode silently drops one of the two writes, so in the source either the published thumbnail URL or the updated thumbnail is lost. The model keeps both in one field `thumbnail`. `Videos.UpdateVideoIdempotent` and `Videos.PublishThenReadAndDelete` rely on that merged field.
- `Dashboard.GetChannelStats` and `Dashboard.GetChannelVideos`: src/controllers/dashboard.controller.js:4 and 8-10 import `../models/subscriber.model.js` and take `asyncHandler`, `ApiError` and `ApiResponse` as default imports, where the other controllers import them by name and use `subscription.model.js`. If those modules have no such default export or file, the dashboard module fails to load and neither route exists. The model assumes that the module loads.
- `Comments.AddComment`: the `if(!createComment)` branch is left out. `Comment.create` either returns a document or throws, so the branch cannot be taken.
- Concurrency: the find-then-create race of the like and subscription toggles is not modelled. Requests are atomic.
- Users: `src/models/user.model.js` is modelled only as the set of existing user identifiers. Registration, passwords and tokens are outside these controllers.
- Other models: `src/models/like.model.js`, `src/models/playlist.model.js` and the other models are not part of this model. Schema validation and timestamps are left out.
- `Playlists.GetPlaylistById`: the source answers with a one-element array holding the summary. The model returns the summary itself.
