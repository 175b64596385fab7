# Video-sharing backend: controller layer

A Dafny model of the request handlers of a video-sharing backend (videos, comments, likes,
subscriptions, tweets, playlists and a channel dashboard). Every handler is a member that takes
the request fields and, unless the handler is open to anonymous requests (getAllVideos,
getVideoById and getVideoComments do not authenticate), the caller (`Option<Id>`, `None` when
the request carries no authenticated user). It answers `Ok(value)` or `Err(code)` with `code` one
of 400, 401, 403, 404 and 500. Handlers that change the database are methods that take the
`Store.Db` object, whose collections are sequences in natural (insertion) order; read-only
handlers are functions that read it.

What the model keeps, and proves:

- **Which error fires first.** Each handler's contract gives the exact chain of checks in the
  source's order: authenticate (401), validate ids (400), look up (404), compare the owner with
  the caller (403), validate the payload (400). `Documents.OwnerGuard` is the chain the
  owner-only handlers share. Each failing request leaves the database as it was.
- **What changes on success**: the whole new state of the database, stated as the old state
  with one collection replaced. Nothing else changes.
- **The database invariant** `Store.Consistent`, which every mutating handler preserves. Ids are
  unique in each collection. There is at most one like per (user, target) and one subscription
  per (subscriber, channel). Nobody subscribes to themselves. No playlist lists a video twice.
- **Toggles** (likes, subscriptions): the reported state, two toggles restoring the records,
  and the effect on the dashboard counts.
- **Listings**: the filters, the sort order, the page window `skip = (page - 1) * limit`, and
  the fact that consecutive pages tile the listing.
- **Channel statistics**: what each of the four aggregates counts, zero for a channel without
  videos, and how toggles move them.

`String.prototype.trim` is modelled by `Text.Trim`, with the ECMAScript white-space set. The
`isValidObjectId` check of the database driver is an uninterpreted predicate fixed when the
database is created. New document ids and creation times are parameters, supplied by the store.

## Model

| member | source | states |
|---|---|---|
| Text.Trim | src/controllers/comment.controllers.js:78 | the result has no white space at either end and is no longer than the input |
| Text.TrimMargins | src/controllers/comment.controllers.js:78 | the input is white space, then the result, then white space: trim removes only space, and only at the ends |
| Text.TrimUnique | src/controllers/tweet.controllers.js:22 | trimming white space + t + white space, where t has non-blank ends, gives exactly t |
| Text.TrimEmptyIffAllSpace | src/controllers/comment.controllers.js:78-81 | a field trims to the empty string exactly when it is all white space, which the handlers refuse with 400 |
| Text.TrimIdempotent | src/controllers/playlist.controllers.js:271-272 | trimming twice is trimming once |
| Text.ContainsIgnoringCase | src/controllers/video.controllers.js:26-27 | the `$regex` with `$options: "i"` matches every text when the query is empty, and only texts at least as long as the query |
| Text.ContainsIgnoresQueryCase | src/controllers/video.controllers.js:24-29 | the case-insensitive match does not depend on the case of the query |
| Text.ContainsOwnInfix | src/controllers/video.controllers.js:24-29 | every infix of a title or description is matched by it, whatever its case |
| Query.Filter | src/controllers/like.controllers.js:158-161 | a find yields only documents of the collection that satisfy the filter, and every such document |
| Query.FilterMultiset | src/controllers/like.controllers.js:158-161 | a find keeps each matching document as often as the collection holds it |
| Query.FilterAppend | src/controllers/comment.controllers.js:40 | a find keeps the natural order: the matches of a concatenation are the matches of each part, one after the other |
| Query.CountWhere | src/controllers/dashboard.controllers.js:52-54 | countDocuments is the size of the find with the same filter |
| Query.RemoveAt | src/controllers/tweet.controllers.js:138 | deleting one document keeps the others, in order, and removes exactly that one |
| Query.Window | src/controllers/like.controllers.js:163-164 | `.skip(n).limit(m)` yields a contiguous slice starting at n of at most abs(m) documents; all the rest when m is 0 |
| Query.Page | src/controllers/comment.controllers.js:25-28 | page `p` of size `l` is the window at `(p - 1) * l`; a negative skip is refused with 500 |
| Query.PageIsSlice | src/controllers/comment.controllers.js:41-44 | page k of size p is the listing from where page k - 1 ends to where page k ends, so consecutive pages meet |
| Query.PagesTile | src/controllers/comment.controllers.js:28-44 | pages 1..k of size p, concatenated, are exactly the first k*p documents of the listing: no document is skipped or repeated |
| Ordering.KeyLeTotal | src/controllers/video.controllers.js:31-36 | any two sort keys are comparable |
| Ordering.KeyLeTransitive | src/controllers/video.controllers.js:31-36 | the key order is transitive |
| Ordering.SortedSlice | src/controllers/video.controllers.js:73-77 | a page cut from a sorted listing is sorted |
| Ordering.SortBy | src/controllers/video.controllers.js:73-75 | `$sort` returns a permutation of its input in which every pair of documents is in the requested order |
| Ordering.SortedPage | src/controllers/video.controllers.js:38-78 | sort then page: exactly the window at `(page - 1) * limit` of the whole sorted listing, so a sorted page of at most `limit` of the documents; 500 for a negative skip |
| Edges.FindFirst | src/controllers/like.controllers.js:31-34 | findOne finds the edge exactly when it exists, at its first position |
| Edges.Toggled | src/controllers/like.controllers.js:36-45 | a present edge is removed once, an absent one is appended |
| Edges.ToggleKeepsNoDup | src/controllers/subscription.controllers.js:45-52 | a toggle keeps at most one record per edge, and the edge is present afterwards exactly when it was absent before |
| Edges.ToggleLeavesOthers | src/controllers/like.controllers.js:75-89 | a toggle does not touch any other edge (another user, target or target kind) |
| Edges.ToggleTwiceRestores | src/controllers/subscription.controllers.js:43-52 | two toggles of the same edge restore the records |
| Edges.ToggleCount | src/controllers/dashboard.controllers.js:52-54 | a toggle moves every count of records the edge satisfies by one, down if it was present, up if not |
| Documents.Find | src/controllers/comment.controllers.js:126 | findById finds a document with that id, or reports that none has it |
| Documents.Lookup | src/controllers/like.controllers.js:162 | populate gives the referenced document, or null when none has the id |
| Documents.NewestFirst | src/controllers/tweet.controllers.js:50 | `.sort({ createdAt: -1 })` is a permutation, newest first |
| Documents.NewestPage | src/controllers/tweet.controllers.js:49-52 | exactly the window at `(page - 1) * limit` of the whole newest-first listing, at most `limit` long; 500 for a negative skip |
| Documents.OwnerGuard | src/controllers/comment.controllers.js:112-133 | 401 without caller, else 400 for a missing or ill-formed id, else 404 when no document has it, else 403 when the caller is not its owner; on success the caller owns the document found |
| Documents.FindUnique | src/controllers/tweet.controllers.js:131 | with unique ids, findById returns the one document with that id |
| Documents.GuardRefusesNonOwner | src/controllers/comment.controllers.js:182-184 | a non-owner never passes the owner guard |
| Documents.Malformed | src/controllers/comment.controllers.js:116-124 | the 400 check for a missing or ill-formed id: a missing id is always refused, and an id passes only when it is non-empty and the validator accepts it |
| Store.Db.Malformed | src/controllers/comment.controllers.js:116-124 | the same 400 check with the store's validator: a missing id is always refused, an accepted one is non-empty and valid |
| VideoModel.CreateVideo | src/models/video.models.js:4-42 | creation succeeds exactly when videoFile, thumbnail, owner, description and duration are given (else 500); the new video copies them, has 0 views and is published |
| VideoModel.CreateVideoAsWritten | src/models/video.models.js:18-21 | with `title` typed as an ObjectId, creation also fails (500) for a title that does not cast to one |
| VideoModel.TextTitleRefusedAsWritten | src/models/video.models.js:18-21 | a complete video with a plain-text title is refused as written and created by the corrected schema |
| CommentControllers.CommentsOn | src/controllers/comment.controllers.js:40 | exactly the comments on the video |
| CommentControllers.GetVideoComments | src/controllers/comment.controllers.js:21-44 | 400, then 404 for a missing video, then the window at `(page - 1) * limit` of that video's comments, newest first (500 for a negative skip) |
| CommentControllers.CommentPageSlice | src/controllers/comment.controllers.js:40-44 | page k of a video's comments is the newest-first listing from where page k - 1 ends to where page k ends: no comment skipped or repeated |
| CommentControllers.AddComment | src/controllers/comment.controllers.js:67-90 | 401, 400 for the id, 400 for blank content, 404 for a missing video, in that order; on success the trimmed content is stored as a new comment of the caller on that video, appended |
| CommentControllers.UpdateComment | src/controllers/comment.controllers.js:112-141 | the owner guard runs before the content check (400); only the comment's content changes, to the trimmed text |
| CommentControllers.DeleteComment | src/controllers/comment.controllers.js:163-186 | only the owner deletes; on 401/400/404/403 nothing changes; otherwise exactly that comment is removed |
| CommentControllers.TrimScenario | src/controllers/comment.controllers.js:78-81 | "   " trims to empty (refused) and " hello " is stored as "hello" |
| LikeControllers.ToggleLike | src/controllers/like.controllers.js:20-45 | 401 before the id checks (400); the target's existence is not checked; the caller's like is toggled and `isLiked` is true exactly when it did not exist before, and it exists now exactly when `isLiked` |
| LikeControllers.ToggleVideoLike | src/controllers/like.controllers.js:20-45 | the toggle on the (video, likedBy) edge |
| LikeControllers.ToggleCommentLike | src/controllers/like.controllers.js:64-89 | the toggle on the (comment, likedBy) edge |
| LikeControllers.ToggleTweetLike | src/controllers/like.controllers.js:110-135 | the toggle on the (tweet, likedBy) edge |
| LikeControllers.ToggleTwiceIsIdentity | src/controllers/like.controllers.js:31-45 | two toggles report opposite states and restore the likes |
| LikeControllers.VideoLikesOf | src/controllers/like.controllers.js:158-161 | exactly the caller's likes that point at a video |
| LikeControllers.PopulateVideos | src/controllers/like.controllers.js:162-166 | one entry per like, in the likes' order: the video it points at, or null when that video is gone |
| LikeControllers.GetLikedVideos | src/controllers/like.controllers.js:151-166 | 401; then the window at `(page - 1) * limit` of the caller's video likes in stored order, each populated with its video or null (500 for a negative skip) |
| LikeControllers.LikedPageSlice | src/controllers/like.controllers.js:158-166 | page k of the liked videos is the populated part of the caller's video likes from where page k - 1 ends to where page k ends |
| LikeControllers.ToggledLikeListed | src/controllers/like.controllers.js:31-45 | after a like the video is among the likes getLikedVideos pages over, after an unlike it is not |
| SubscriptionControllers.ToggleSubscription | src/controllers/subscription.controllers.js:22-52 | 401, 400, 403 for the caller's own channel with nothing changed; otherwise the toggle, `isSubscribed` being true exactly when no record existed before |
| SubscriptionControllers.SubscribersOf | src/controllers/subscription.controllers.js:94-96 | exactly the subscriptions of the channel |
| SubscriptionControllers.ChannelsOf | src/controllers/subscription.controllers.js:145-147 | exactly the subscriptions of the subscriber |
| SubscriptionControllers.ListFor | src/controllers/subscription.controllers.js:76-99 | 401, 400, then 404 when no account has the id, then the page |
| SubscriptionControllers.GetUserChannelSubscribers | src/controllers/subscription.controllers.js:76-99 | 401, 400, 404 for an unknown channel; otherwise the window at `(page - 1) * limit` of the channel's subscriptions in natural order |
| SubscriptionControllers.SubscriberPageSlice | src/controllers/subscription.controllers.js:94-99 | page k of a channel's subscribers is the listing from where page k - 1 ends to where page k ends |
| SubscriptionControllers.GetSubscribedChannels | src/controllers/subscription.controllers.js:126-150 | 401, 400, 404 for an unknown subscriber; otherwise the window at `(page - 1) * limit` of the subscriber's subscriptions in natural order |
| SubscriptionControllers.ChannelPageSlice | src/controllers/subscription.controllers.js:145-150 | page k of a user's channels is the listing from where page k - 1 ends to where page k ends |
| SubscriptionControllers.SubscribersDistinct | src/controllers/subscription.controllers.js:34-52 | in a consistent store a channel's subscriber list has no repeats and never holds the channel itself |
| TweetControllers.CreateTweet | src/controllers/tweet.controllers.js:18-27 | 401, then 400 for blank content; on success the trimmed content is stored as a new tweet of the caller |
| TweetControllers.TweetsBy | src/controllers/tweet.controllers.js:49 | exactly the tweets of the owner |
| TweetControllers.GetUserTweets | src/controllers/tweet.controllers.js:44-52 | 401; otherwise the window at `(page - 1) * limit` of the caller's own tweets, newest first |
| TweetControllers.TweetPageSlice | src/controllers/tweet.controllers.js:49-52 | page k of the caller's tweets is the newest-first listing from where page k - 1 ends to where page k ends |
| TweetControllers.UpdateTweetAsWritten | src/controllers/tweet.controllers.js:61-93 | the guard's error, else 500: the handler never succeeds |
| TweetControllers.UpdateTweetRefusesOwner | src/controllers/tweet.controllers.js:86-93 | the owner of a stored tweet passes the guard and still gets 500 as written |
| TweetControllers.UpdateTweet | src/controllers/tweet.controllers.js:75-100 | the owner guard (401, 400, 404, 403), then 400 for blank content; only the tweet's content changes, to the trimmed text |
| TweetControllers.DeleteTweet | src/controllers/tweet.controllers.js:120-138 | only the owner deletes; otherwise nothing changes |
| PlaylistControllers.CreatePlaylistAsWritten | src/controllers/playlist.controllers.js:8-21 | 401 without caller, else always 500 |
| PlaylistControllers.CreatePlaylistRefusesValidName | src/controllers/playlist.controllers.js:18-25 | an authenticated caller with a non-blank name gets 500 as written |
| PlaylistControllers.CreatePlaylist | src/controllers/playlist.controllers.js:18-30 | 401, then 400 for a blank name; on success a new empty playlist of the caller with the trimmed name and description |
| PlaylistControllers.GetUserPlaylists | src/controllers/playlist.controllers.js:47-60 | 401, 400; otherwise exactly the playlists the user owns (no existence check on the user) |
| PlaylistControllers.GetPlaylistById | src/controllers/playlist.controllers.js:77-91 | 401, 400, 404 exactly when no playlist has the id; no owner check |
| PlaylistControllers.PlaylistVideoGuard | src/controllers/playlist.controllers.js:114-136 | 401, 400 when either id is missing or ill-formed, then 404 and 403 on the playlist |
| PlaylistControllers.WithVideos | src/controllers/playlist.controllers.js:141 | a playlist edit that touches only the video list |
| PlaylistControllers.AddVideoToPlaylist | src/controllers/playlist.controllers.js:114-142 | after the guard, 400 with nothing changed when the video is listed; otherwise it is appended at the end and the list stays free of duplicates |
| PlaylistControllers.Without | src/controllers/playlist.controllers.js:195 | the filter never lengthens the list; `WithoutMultiset` (which entries stay, and how often) and `WithoutAppend` (in their order) give its meaning |
| PlaylistControllers.WithoutMultiset | src/controllers/playlist.controllers.js:195 | every occurrence of the video is dropped and every other entry is kept as often as it was listed |
| PlaylistControllers.WithoutAppend | src/controllers/playlist.controllers.js:195 | the filter keeps the order: filtering a concatenation filters each part in place |
| PlaylistControllers.WithoutAbsent | src/controllers/playlist.controllers.js:195 | a list that does not hold the video is kept unchanged |
| PlaylistControllers.WithoutAround | src/controllers/playlist.controllers.js:195 | dropping the one entry of the video leaves what came before it followed by what came after it |
| PlaylistControllers.WithoutListed | src/controllers/playlist.controllers.js:195 | in a list without repeats, removing the entry at position i gives the list before i followed by the list after i |
| PlaylistControllers.AddThenRemove | src/controllers/playlist.controllers.js:195 | removing a just-appended video gives back the list, in order |
| PlaylistControllers.RemoveVideoFromPlaylist | src/controllers/playlist.controllers.js:167-196 | after the guard, 400 when the video is not listed; otherwise the list loses exactly the video's entry and the others keep their order |
| PlaylistControllers.DeletePlaylist | src/controllers/playlist.controllers.js:219-237 | only the owner deletes; on 404 or 403 nothing changes |
| PlaylistControllers.Renamed | src/controllers/playlist.controllers.js:286-287 | only the non-empty fields change; owner and video list are untouched |
| PlaylistControllers.UpdatePlaylist | src/controllers/playlist.controllers.js:259-289 | 401, 400 for the id, 400 for two blank fields before the lookup, then 404 and 403; on success the non-empty trimmed fields replace the stored ones |
| VideoControllers.MatchesQuery | src/controllers/video.controllers.js:24-29 | a video matches a query only when its title or description is at least as long as the query |
| VideoControllers.MatchesQueryIgnoresCase | src/controllers/video.controllers.js:24-29 | the search does not depend on the case of the query |
| VideoControllers.ListedAsWritten | src/controllers/video.controllers.js:17-22 | the `$match` stage as written agrees with the corrected one without a user id and lists no video with one |
| VideoControllers.Listed | src/controllers/video.controllers.js:13-29 | the corrected `$match` stage: with no query it keeps exactly the published videos (of the user, when one is given); a matching video's title or description is at least as long as the query |
| VideoControllers.ListedVideos | src/controllers/video.controllers.js:13-29 | exactly the published videos, of the user when one is given, whose title or description contains the query ignoring case |
| VideoControllers.OwnerFilterAsWrittenDropsOwnVideos | src/controllers/video.controllers.js:17-22 | a published video of user u is dropped as written when listed with `userId = u`, and kept by the corrected filter |
| VideoControllers.OrDefault | src/controllers/video.controllers.js:38-42 | `Number(x) \|\| d`: 0 becomes the default, other values are kept |
| VideoControllers.SortOrder | src/controllers/video.controllers.js:31-36 | sortBy ascending exactly when sortType is "asc"; createdAt descending without sortBy |
| VideoControllers.KeyOf | src/controllers/video.controllers.js:31-36 | every video holds the same kind of value under a sort field, so `$sort` compares values, never kinds; `createdAt` sorts by creation time |
| VideoControllers.DefaultSortIsNewestFirst | src/controllers/video.controllers.js:34-35 | the default sort on `createdAt` descending puts the newest video first |
| VideoControllers.GetAllVideos | src/controllers/video.controllers.js:9-78 | 400 for an ill-formed userId; otherwise exactly the window at `(page - 1) * limit` of all matches in the requested order, with the number of all matches |
| VideoControllers.VideoPageSlice | src/controllers/video.controllers.js:38-78 | page k of the listing is the sorted matches from where page k - 1 ends to where page k ends: no video skipped or repeated |
| VideoControllers.FirstPageHoldsAllMatches | src/controllers/video.controllers.js:38-78 | when the limit covers all matches, page 1 holds every matching video exactly once |
| VideoControllers.PublishAVideo | src/controllers/video.controllers.js:96-132 | 400 without a user, 400 for missing title or description, 400 for a missing thumbnail, 500 for its failed upload, 400 for a missing video file, 500 for its failed upload, in that order; on success a published video of the caller with both URLs, 0 views, appended |
| VideoControllers.FindPublished | src/controllers/video.controllers.js:161-164 | findOne with `isPublished: true` finds the video only when it is published |
| VideoControllers.GetVideoById | src/controllers/video.controllers.js:151-168 | 400; 404 unless a published video has the id; unpublished videos are hidden |
| VideoControllers.PublishedVideoIsVisible | src/controllers/video.controllers.js:161-172 | every published video is found by its id |
| VideoControllers.Patched | src/controllers/video.controllers.js:217-221 | only the truthy title, description and thumbnail replace the stored ones |
| VideoControllers.PublishedOwnerGuard | src/controllers/video.controllers.js:192-216 | 401, 400, 404 for a missing or unpublished video, 403 for a non-owner |
| VideoControllers.UpdateVideo | src/controllers/video.controllers.js:192-231 | the guard before the empty-payload check (400); on success only the truthy fields change |
| VideoControllers.DeleteVideo | src/controllers/video.controllers.js:253-271 | 400 for the id before 401, then 404 (published or not) and 403; on success exactly that video is removed |
| VideoControllers.TogglePublishStatus | src/controllers/video.controllers.js:293-322 | after the owner guard the flag is negated and the new value returned; getVideoById then finds the video exactly when that value is true |
| DashboardControllers.PublishedBy | src/controllers/dashboard.controllers.js:32-35 | exactly the channel's published videos |
| DashboardControllers.SumViews | src/controllers/dashboard.controllers.js:43-50 | the view sum is zero exactly when no video in the group has a view |
| DashboardControllers.SumViewsAppend | src/controllers/dashboard.controllers.js:43-50 | the sum over two groups is the sum of their sums |
| DashboardControllers.SumViewsBound | src/controllers/dashboard.controllers.js:44-47 | the view sum is at least the views of each video in it |
| DashboardControllers.CountsFor | src/controllers/dashboard.controllers.js:56-75 | a counted like points at a stored video the channel owns; with unique video ids, every like of a video the channel owns counts |
| DashboardControllers.LikesOnChannel | src/controllers/dashboard.controllers.js:56-83 | totalLikes is the number of likes whose video exists and belongs to the channel; zero exactly when no like does |
| DashboardControllers.ChannelStats | src/controllers/dashboard.controllers.js:32-90 | each count is bounded by its collection, and no published video means no views |
| DashboardControllers.GetChannelStats | src/controllers/dashboard.controllers.js:21-90 | 401, 400 before any aggregate; otherwise the four aggregates of the channel |
| DashboardControllers.NoVideosZeroStats | src/controllers/dashboard.controllers.js:32-83 | a channel without videos gets 0 videos, 0 views and 0 likes, not an error |
| DashboardControllers.TotalViewsCoverEachVideo | src/controllers/dashboard.controllers.js:36-50 | totalViews is at least the views of each published video of the channel |
| DashboardControllers.PublishedAround | src/controllers/dashboard.controllers.js:32-50 | the channel's published videos and their views split around one video of the channel |
| DashboardControllers.PublishToggleMovesTotals | src/controllers/video.controllers.js:315-316 | togglePublishStatus on a video of the channel moves totalVideos by one and totalViews by that video's views: up when published, down when hidden |
| DashboardControllers.DeletedVideoLikesNotCounted | src/controllers/dashboard.controllers.js:63-70 | a like on a deleted video is no longer counted |
| DashboardControllers.VideoLikeToggleMovesTotalLikes | src/controllers/dashboard.controllers.js:56-83 | a like toggle on a channel's video moves totalLikes by one, up for a like and down for an unlike |
| DashboardControllers.OtherLikeToggleKeepsTotalLikes | src/controllers/dashboard.controllers.js:56-83 | a toggle on any like that does not count for the channel leaves totalLikes unchanged |
| DashboardControllers.SubscriptionToggleMovesSubscribers | src/controllers/dashboard.controllers.js:52-54 | a subscription toggle on the channel moves totalSubscribers by one |
| DashboardControllers.TwoLikesThenUnlike | src/controllers/dashboard.controllers.js:56-83 | A and B like C's video: 2 likes; A toggles again: 1 |
| DashboardControllers.GetChannelStatsAsWritten | src/controllers/dashboard.controllers.js:36-83 | as written, totalViews and totalLikes are always 0; the other two aggregates are those of the corrected handler |
| DashboardControllers.StatsAsWrittenMissViewsAndLikes | src/controllers/dashboard.controllers.js:36-83 | a channel with a viewed, liked, published video gets 0 views and 0 likes as written and positive totals corrected |
| DashboardControllers.GetChannelVideos | src/controllers/dashboard.controllers.js:109-123 | 401, 400; otherwise exactly the channel's published videos, newest first, as many as totalVideos |

## Findings

| source | as written | input that shows it | evidently intended | confidence | as-written member | corrected member |
|---|---|---|---|---|---|---|
| src/controllers/playlist.controllers.js:8-22 | `name` and `description` are `const` bindings, reassigned after the authentication check, which throws a TypeError: 500 for every authenticated request | an authenticated caller sending name "mix" | trim both, 400 for a blank name, create the playlist | high, not executed | PlaylistControllers.CreatePlaylistRefusesValidName | PlaylistControllers.CreatePlaylist |
| src/controllers/tweet.controllers.js:61-97 | `newContent` is a `const` binding, reassigned after the owner check: 500 for the owner, the tweet never changes | the owner of a stored tweet, with a valid id and any content | trim, 400 when blank, store the content | high, not executed | TweetControllers.UpdateTweetRefusesOwner | TweetControllers.UpdateTweet |
| src/models/video.models.js:14-21 | `title` is typed as an ObjectId and `owner` as a String; a plain-text title fails the cast and the create answers 500; a text title sent to updateVideo fails the same cast in `findByIdAndUpdate` (src/controllers/video.controllers.js:227-229) and answers 500 too | publishAVideo with every field and the title "My trip" | title as text, owner as the user id | high, not executed | VideoModel.TextTitleRefusedAsWritten | VideoModel.CreateVideo |
| src/controllers/video.controllers.js:17-22 | the stored String `owner` is compared with `new ObjectId(userId)` in an aggregation stage, which does not cast, so no video matches | getAllVideos with `userId` set to the owner of a published video | list that user's published videos | medium (depends on the schema above), not executed | VideoControllers.OwnerFilterAsWrittenDropsOwnVideos | VideoControllers.GetAllVideos |
| src/controllers/dashboard.controllers.js:36-83 | the views and likes aggregations compare the String `owner` with an ObjectId, so both totals are always 0 | a channel with a published video that has views and a like | sum the views, count the likes | medium (depends on the schema above), not executed | DashboardControllers.StatsAsWrittenMissViewsAndLikes | DashboardControllers.GetChannelStats |

The corrected members are the ones the rest of the model uses. `publishAVideo` answering 400
rather than 401 without a user (src/controllers/video.controllers.js:96-98) is kept as written.

## Left out

- The upload service (src/utils/cloudinary.js): each upload's outcome is a parameter of
  `VideoControllers.PublishAVideo` (a URL and a duration, or a failure); the local file
  deletion, and a thumbnail left uploaded when the video file is then missing, are not modelled.
- src/index.js (environment loading, server start), `asyncHandler`, `ApiResponse` and the
  response messages: only the status code of a failure and the payload of a success are kept.
  A thrown error that is not an `ApiError` is taken to answer 500.
- The users collection: only the set of account ids is kept (for the 404 checks of the
  subscription listings). Populated user fields (`username`, `fullname`, `avatar`), the
  `$lookup` of the video owner in getAllVideos and the field projection of getLikedVideos are
  not modelled; the listings return whole documents.
- `$regex` in getAllVideos: approximated by a literal substring match with ASCII case folding.
  Regular-expression syntax, an invalid pattern and Unicode case folding are not modelled.
- aggregatePaginate: only `docs` and `totalDocs` of its answer are modelled, and its handling
  of a negative page or limit is approximated by the cursor rules (a negative skip answers 500).
- Request values of the wrong type: text fields are strings, with "" standing for an absent
  field, and page and limit are integers. `NaN` from a non-numeric page or limit, and `trim`
  applied to a non-string body field, are not represented.
- `updatedAt`: not kept, so a sort on it, on `owner` or on an unknown field sorts every video
  as missing and keeps them in natural order. Where the database leaves the order of equal keys
  open, the model keeps the natural order.
- Concurrency: each handler runs atomically on the database, so the race between the look-up
  and the insert of a toggle, and between the guard and the write of an update, is not modelled.
- Identifiers and timestamps: the new id and creation time of a document are parameters
  supplied by the store; an id already in use answers 500. `isValidObjectId` is uninterpreted.
  Likes and subscriptions are modelled without ids.
- Video `duration` is a real number (floating point not modelled); views are natural numbers
  and never change here, since playback counting is outside these handlers.
- The import paths `video.model.js`, `subscription.model.js` and `subscription.models.js`,
  which name models that differ from the Video model file: module resolution is not behaviour
  of the handlers. The Comment, Tweet, Playlist, Like, Subscription and User schemas are not
  part of this model; their documents have the fields the handlers read and write.
- Identifier spelling: ids are taken in one canonical spelling, compared as strings. The driver's
  `isValidObjectId` also accepts other spellings of the same ObjectId (upper-case hex, and any
  12-character string), and queries cast them to one value. So the model does not capture:
  a self-subscription sent with the caller's id in upper-case hex, which passes the string
  comparison at src/controllers/subscription.controllers.js:34; a second spelling of a listed
  video appended by addVideoToPlaylist (src/controllers/playlist.controllers.js:137); and
  removeVideoFromPlaylist answering 400 for a listed video sent in another spelling
  (src/controllers/playlist.controllers.js:191, 195). `Store.Consistent` (no self-subscription,
  no repeated playlist video) and `SubscriptionControllers.SubscribersDistinct` hold for ids in
  that one spelling only.
- PlaylistControllers.GetUserPlaylists states which playlists are returned, not their order
  (natural order).
