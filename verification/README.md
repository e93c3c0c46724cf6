# twitter-sidebar, modelled in Dafny

twitter-sidebar is a browser extension that opens a tweet's conversation in a sidebar next to the timeline. It has two halves. A page script patches the site's own requests: it captures timeline responses and replays GraphQL, upload, poll and friendship requests with the page's credentials. A content script keeps a cache of every tweet it has seen, with the reply, quote and retweet links between them, and builds the sidebar's view from that cache. The two halves talk through window messages, and each request is matched to its answer by a request id.

This project models the data and control pipeline of the extension, without its rendering, as pure Dafny functions over immutable values:

- **Cache and relation graph** (`TweetsStore`, `RelationStore`, `ResponseData`, `AvatarStore`). It covers the upsert of tweets and the links created lazily in both directions. It also covers the 60-second detail cache, which evicts an entry when it is read. `StoreReplay` proves that storing a tweet twice is the same as storing it once.
- **Sidebar snapshot and timeline** (`RelatedTweets`, `SidebarController`, `ThreadPrune`, `SidebarTimeline`). It covers the one-hop and transitive related-tweet collection, the edge count and the partial/success status, and the reply reordering. It also covers the chain of ancestors, the "author spine" of each reply branch, and the item list with its link flags.
- **Ingestion** (`TimelineData`, `TimelineUpdate`, `Conversation`, `TweetDetailHandler`). It covers which instructions and entries are stored and with which controller data. It also covers the removal of promoted entries, and the grouping of conversation threads by section.
- **Bridge and correlation** (`Bridge`, `Correlation`, `InterceptorEntry`, and the `*Api` modules). It covers the envelope filter on source tag and direction, and the dispatch table. It also covers the pending-request table: an entry is registered before its request is posted and removed before its answer settles. Validation happens before anything is posted.
- **Replay layer** (`HeaderUtils`, `DetailTemplate`, `FollowingRequest`, `PollRequest`, `MediaUpload`). It covers header sanitising and merging, cookie lookup, and Bearer normalisation (section 2.1 of RFC 6750). It also covers the request parameters of each replay, and the chunked upload with its chunk plan, progress reports and processing poll.
- **Small parsers and state machines**:
  - `PollInfo`, `TweetCard`, `RichText`, `DeletedCard` and `TweetDom` read polls, cards, rich text, tombstone text and status links;
  - `SidebarStore` holds the sidebar's state;
  - `ComposerUploads` models the composer's attachments;
  - `TweetActions` and `TweetPoll` model the optimistic toggles and votes with their rollback;
  - `MediaOverlay` models the media viewer;
  - `UserHoverCard` models the user card;
  - `Media` chooses the video variant.

Foundations:
- `Wrappers` holds `Option` and `Result` and the JavaScript readings of `??` and truthiness.
- `Text` holds the string operations.
- `Ordered` holds insertion-ordered maps and sets, for JavaScript `Map` and `Set`.
- `Sorting` is a stable sort by key.
- `Json` holds JSON values.
- `SearchParams` holds `URLSearchParams` pairs.
- `Http` holds a reply: its status and parsed body.

Anything outside the program becomes a parameter of the function that needs it:
- the clock (`now`);
- random request ids (`nonce`);
- `encodeURIComponent` and `decodeURIComponent`;
- JSON parsing of stored credentials;
- the transaction-id signer;
- every network reply.

Graph walks that have no cycle guard in the program carry a `fuel` bound instead.

## Notes on the code

Where the code and its documented intent differ, the model follows the code:
- `src/components/sidebar/SidebarTimeline.tsx:57` computes `hasParentTweet` as `replyTo !== null`. Every missing parent is `undefined`, so the guard always holds. The ancestor chain then depends only on what the walk finds.
- `src/components/sidebar/SidebarTimeline.tsx:173-176`: the comment there says that an unknown id stops the branch. But the `return` only leaves the `forEach` callback, so the id is skipped and the branch goes on. `SidebarTimeline.BranchItemsMembers` states the skipping.
- In `src/interceptor/headerUtils.ts:64-80`, the storage sniff parses a stored value as JSON only when its trimmed form is empty. Such a value cannot carry a `bearerToken`, so the JSON branch never decides the result (`HeaderUtils.JsonBranchUnreachable`).
- `src/components/reply/useMediaUploads.ts` has three quirks:
  - a picked file is accepted when its type merely contains "image" or "video", a looser test than the `image/` and `video/` prefix test that decides its kind;
  - the `application/octet-stream` fallback applies only to a file with an empty type, and the filter has already rejected such a file;
  - the slot count is taken from a reference updated after rendering, so two picks in a row can together exceed four items. The model states the four-item bound for a single pick from settled state.
- `src/store/avatarStore.ts:47-56` and `src/components/tweet/UserHoverCard.tsx:233-236` are listed under Findings.

## Model

| member | source | states |
|---|---|---|
| TweetsStore.Record | src/store/tweetsStore.ts:47-58 | the written record holds the new tweet; controller data falls back to the previous record's only when the new one is null; limited actions fall back to the previous record's only when the argument is undefined, and an explicit null clears them |
| TweetsStore.StoreTweet | src/store/tweetsStore.ts:39-61 | a tweet with neither `rest_id` nor `legacy.id_str` leaves the store unchanged; otherwise the id is cached, no cached id is lost, the insertion order of earlier ids is kept, the detail and tombstone maps are untouched, no relation record (other than the refreshed one) loses a reply, retweeter or link, and without refresh the mirrored reply/retweet links stay mirrored |
| TweetsStore.Analyze | src/store/tweetsStore.ts:272-336 | the same growth, order and mirroring guarantees for the relation pass: with refresh only the tweet's own relation record is dropped before the edges are re-derived |
| TweetsStore.ResetIf | src/store/tweetsStore.ts:279-281 | a refresh removes at most the tweet's own record and changes no other; without refresh the graph is unchanged |
| TweetsStore.QuoteStep | src/store/tweetsStore.ts:288-304 | the quote edge plus storing the quoted tweet with null controller data and no refresh keeps every cached id, every relation link and the mirroring |
| TweetsStore.RetweetStep | src/store/tweetsStore.ts:306-335 | the retweet edge plus storing the retweeted tweet (direct result first, then the legacy one) keeps every cached id, every relation link and the mirroring |
| TweetsStore.RetweetedOf | src/store/tweetsStore.ts:307-321 | the direct retweeted result wins whenever it normalises; the result is a strictly smaller tweet with an id |
| TweetsStore.StoreTweetRecord | src/store/tweetsStore.ts:39-61 | the record under the tweet's id is replaced wholesale by the merged record (unless a nested quoted or retweeted tweet shares the id); no record outside the ids of the tweet and the tweets it nests changes |
| TweetsStore.AnalyzeKeepsRecords | src/store/tweetsStore.ts:272-336 | the relation pass writes only the records of the quoted and retweeted tweets it stores |
| TweetsStore.StoreTweetLinks | src/store/tweetsStore.ts:39-61 | each reply, quote or retweet link the tweet carries replaces the stored one, the others stay (or are gone after a refresh); no other tweet's own links change outside the nested tweets' ids |
| TweetsStore.AnalyzeLinks | src/store/tweetsStore.ts:272-336 | the same statement about own links for the relation pass |
| TweetsStore.AnalyzeAddsEdges | src/store/tweetsStore.ts:272-336 | each edge is in place on the target's side too: the parent lists the tweet among its replies, the quoted tweet has a relation record, the retweeted tweet lists the tweet among its retweeters |
| TweetsStore.RefreshDropsReplies | src/store/tweetsStore.ts:279-286 | a refresh of a tweet with no parent, quote or retweet removes its record while its replies still point at it, so the reply links are no longer mirrored: back-links held in other records survive and only the tweet's own record is forgotten |
| TweetsStore.ResolveTweet | src/store/tweetsStore.ts:71-113 | a cached id is returned with the store unchanged; a hit is always the record cached under the id afterwards; a miss leaves the store unchanged and means no cached tweet retweets that id; a promotion stores the retweeted tweet of the first matching candidate with that candidate's controller data and no refresh |
| TweetsStore.ResolveFrom | src/store/tweetsStore.ts:75-110 | over the candidates in cache order: a hit stores the first candidate retweeting the id, with that retweet's controller data, and returns the new record; a miss means none does and the store is unchanged |
| TweetsStore.GetTweetDetail | src/store/tweetsStore.ts:115-123 | a hit exactly when an entry exists and `now - cachedAt <= 60000`, returning the cached detail and changing nothing; an expired entry is deleted on the read |
| TweetsStore.CacheTweetDetail | src/store/tweetsStore.ts:125-130 | the entry becomes the detail stamped with the current time, whatever was there; nothing else changes |
| TweetsStore.ClearTweetDetail | src/store/tweetsStore.ts:132-134 | exactly that entry is removed; nothing else changes |
| TweetsStore.CachedDetailLifetime | src/store/tweetsStore.ts:21 | a detail cached at time `c` is served at every `now` with `now - c <= 60000` (so still at exactly 60000 ms) and missed after |
| TweetsStore.ClearedDetailMisses | src/store/tweetsStore.ts:132-134 | after a clear the next read misses |
| TweetsStore.StoreDeletedTweet | src/store/tweetsStore.ts:255-266 | the tombstone record is written under the id with parent, tombstone and time; the tweet, relation and detail maps are untouched |
| TweetsStore.GetDeletedTweet | src/store/tweetsStore.ts:268-270 | present exactly when a tombstone was recorded for the id, and then that record |
| TweetsStore.DeletedRoundTrip | src/store/tweetsStore.ts:255-270 | a stored tombstone reads back unchanged under its id, and every other id reads as before |
| TweetsStore.FromModuleItems | src/store/tweetsStore.ts:210-233 | nothing exactly when no unpromoted module item normalises to a tweet with the wanted id; otherwise the first such item |
| TweetsStore.FromEntry | src/store/tweetsStore.ts:147-234 | the entry `tweet-<id>` returns its own normalised payload whenever there is one; any other hit has the wanted id |
| TweetsStore.AddedEntries | src/store/tweetsStore.ts:141-147 | only entries of present `TimelineAddEntries` instructions are visited |
| TweetsStore.FirstFromEntries | src/store/tweetsStore.ts:143-237 | nothing exactly when no entry yields the tweet; otherwise what the first entry yielding it gives |
| TweetsStore.ExtractTweetFromDetail | src/store/tweetsStore.ts:136-238 | no detail gives nothing; nothing exactly when no added entry yields a tweet; otherwise a result with an id, given by some added entry such that every entry before it yields nothing |
| TweetsStore.ApplyDetailToTweetCache | src/store/tweetsStore.ts:240-253 | nothing found leaves the store unchanged; otherwise the found tweet's id is cached, no record outside the ids stored changes, and (unless a nested tweet shares its id) its record holds the found tweet with the controller data cached for the requested id, else its own previous one, and its own reply, quote and retweet links are rebuilt from the found tweet alone |
| RelationStore.Get | src/store/tweetsStore.ts:67-69 | present exactly when the id has a relation record |
| RelationStore.GetOrCreate | src/store/tweetsStore.ts:366-373 | an existing record is kept as is; a missing one is created empty; no other record changes |
| RelationStore.AddEdge | src/store/tweetsStore.ts:338-364 | both records exist afterwards; a reply sets the child's `replyTo` and adds the child to the parent's replies; a quote sets `quote` and overwrites `quoteBy`; a retweet sets `retweet` and adds to `retweetBy`; every other record is unchanged and no link is lost |
| RelationStore.AddEdgeKeepsMirrored | src/store/tweetsStore.ts:343-362 | adding an edge keeps every reply and retweet link mirrored by its back-link |
| RelationStore.QuoteByLastWriterWins | src/store/tweetsStore.ts:353-356 | when two tweets quote the same tweet, its `quoteBy` names the later one only, while both keep their `quote` |
| RelationStore.SelfReplyEdge | src/store/tweetsStore.ts:343-351 | a tweet replying to itself gets both updates on its single record |
| RelationStore.AddEdgeAsOps | src/store/tweetsStore.ts:338-364 | an edge is the same as its list of elementary cell writes |
| RelationStore.ApplySummaryIdempotent | src/store/tweetsStore.ts:338-373 | applying a summed-up list of record writes twice is the same as once |
| StoreReplay.StoreTweetAsOps | src/store/tweetsStore.ts:39-61 | `storeTweet` performs a list of elementary writes that depends only on the tweet and the arguments, not on what the cache holds |
| StoreReplay.AnalyzeAsOps | src/store/tweetsStore.ts:272-336 | likewise for the relation pass, quote and retweet recursion included |
| StoreReplay.SummarizeSound | src/store/tweetsStore.ts:39-61 | any list of such writes equals one summed write per tweet record, avatar and relation record |
| StoreReplay.StoreTweetIdempotent | src/store/tweetsStore.ts:338-364 | storing the same tweet twice with the same arguments leaves the whole store (records, relation graph, avatars) as storing it once |
| ResponseData.TweetId | src/utils/responseData.ts:91-94 | present exactly when `rest_id` or `legacy.id_str` is; `rest_id` wins |
| ResponseData.Normalize | src/utils/responseData.ts:18-43 | a result always has an id and comes from a bare tweet or a visibility wrapper, never from a tombstone or another value; a bare tweet normalises iff it has an id, with limited actions undefined; a wrapper normalises iff its inner tweet has an id, with limited actions from the wrapper (null when missing) |
| ResponseData.IsTweetResultIffPlainNormalize | src/utils/responseData.ts:52-59 | `isTweetResult` holds exactly when the payload is a bare tweet that normalises, and then to itself |
| ResponseData.NormalizeStable | src/utils/responseData.ts:23-28 | the normalised tweet normalises again to itself, with undefined limited actions |
| ResponseData.UserOf | src/utils/responseData.ts:71-77 | the core user only when it is typed `User` |
| ResponseData.UserId | src/utils/responseData.ts:79-89 | the first non-empty of the user's `rest_id`, `legacy.user_id_str`, the user's `id`, the core result's `rest_id`; nothing when all are empty |
| ResponseData.ParentId | src/utils/responseData.ts:96-110 | nothing without legacy; `in_reply_to_status_id_str` when present, else `in_reply_to_tweet_id_str` |
| ResponseData.ExtractTweetMedia | src/utils/responseData.ts:115-125 | the extended media when non-empty, else `entities.media`, else empty |
| ResponseData.OverlayItemOf | src/utils/responseData.ts:135-167 | a photo becomes a photo item only with a preview url; a video or gif always becomes a video item (the gif flagged); any other type is dropped; the key is the media key, else `<id_str>-<index>` |
| ResponseData.OverlayItemsMembers | src/utils/responseData.ts:130-169 | the items are exactly the conversions of the media that convert, none invented and none dropped |
| ResponseData.OverlayItemsInOrder | src/utils/responseData.ts:134-168 | in order: the `j`-th item is the conversion of the `j`-th medium that converts, positions taken in increasing order |
| ResponseData.AvatarFromUser | src/utils/responseData.ts:171-179 | no user gives nothing; otherwise `profile_image_url_https`, else `profile_image_url`, else the avatar image url (the last alone when the user has no legacy) |
| ResponseData.TweetFromResultResponse | src/utils/responseData.ts:191-202 | a result always has an id; the first present candidate (`tweetResult`, then `tweetResultByRestId`, then `tweet`) is the only one normalised, so a tombstone there hides a valid later candidate |
| ResponseData.TombstoneHidesFallback | src/utils/responseData.ts:195-201 | a tombstone in `tweetResult` gives nothing even when `tweetResultByRestId` holds a tweet, which is returned once the first slot is absent |
| ResponseData.SelectControllerData | src/utils/responseData.ts:204-224 | nothing exactly when no source has non-empty controller data; otherwise the first source's that does |
| AvatarStore.NormalizeAvatarUrlAsWritten | src/store/avatarStore.ts:47-56 | the function as written returns its input unchanged, because the `return` inside `forEach` is discarded |
| AvatarStore.NormalizeAvatarUrl | src/store/avatarStore.ts:47-56 | corrected: the first size suffix found (`_normal`, then `_bigger`, then `_x96`) is replaced by the `_size` placeholder; a url with none is kept |
| AvatarStore.RememberAvatarById | src/store/avatarStore.ts:21-28 | corrected normaliser: the normalised url is stored under the id only when both id and url are non-empty; otherwise nothing changes |
| AvatarStore.RememberUserAvatarFromTweet | src/store/avatarStore.ts:30-37 | when the tweet has both a user id and an author avatar, the normalised avatar is stored under that id; otherwise nothing changes; every other user's entry stays |
| AvatarStore.CachedAvatarForTweet | src/store/avatarStore.ts:39-45 | an avatar exactly when the tweet has a user id with a remembered url, and then that url with its first `_size` placeholder replaced by `_` and the requested size |
| AvatarStore.PlaceholderRoundTrip | src/store/avatarStore.ts:43 | replacing a suffix by the placeholder and then the placeholder by a target is replacing the suffix by the target, for urls without the placeholder |
| AvatarStore.RememberedAvatarServesEverySize | src/store/avatarStore.ts:30-45 | corrected model: a remembered `_normal` avatar is served at every requested size |
| AvatarStore.AsWrittenIgnoresRequestedSize | src/store/avatarStore.ts:43-56 | as written, `a_normal.jpg` asked for at size `x96` comes back as `a_normal.jpg`; corrected, as `a_x96.jpg` |
| Media.BestMp4From | src/utils/media.ts:8-12 | the first MP4 variant of greatest bitrate (ties kept in order, as a stable sort does) |
| Media.SelectVideoVariant | src/utils/media.ts:6-13 | nothing exactly for no variants; with an MP4 the chosen one is an MP4 with the highest bitrate; with none, the first variant |
| RelatedTweets.AddCached | src/handlers/sidebarController.ts:133-145 | the related map gains exactly the listed ids that are cached, each with its cached record; ids not listed keep their entries |
| RelatedTweets.Push | src/handlers/sidebarController.ts:133-145 | an absent field changes nothing; a present one (even with no cached id) turns a null map into a map, and no entry is lost |
| RelatedTweets.PushAll | src/handlers/sidebarController.ts:146-153 | the map exists afterwards exactly when it did before or some field is present, and it never grows by more than the ids offered |
| RelatedTweets.PushAllKeys | src/handlers/sidebarController.ts:133-153 | afterwards the map lists exactly the keys it listed plus the cached ids of the six fields |
| RelatedTweets.PushAllEntries | src/handlers/sidebarController.ts:133-153 | every cached id of the fields maps to its cached record; every other entry was already there with the same value, and none is dropped |
| RelatedTweets.CountIsFieldTotal | src/handlers/sidebarController.ts:211-222 | `countRelationship` counts one per defined scalar link plus the sizes of `replies` and `retweetBy`: the total of the six fields pushed |
| RelatedTweets.OneHop | src/handlers/sidebarController.ts:128-155 | nothing exactly when the tweet is not cached; otherwise the tweet and its relation record, with a one-hop map that is null exactly when `countRelationship` is zero and otherwise holds exactly the cached tweets named by quote, quoteBy, replies, replyTo, retweet or retweetBy, each with its cached record |
| RelatedTweets.OneHopWithinCount | src/handlers/sidebarController.ts:133-222 | the one-hop map never holds more tweets than `countRelationship` counts |
| RelatedTweets.Climb | src/handlers/sidebarController.ts:172-184 | the upward walk keeps every entry, adds the cached tweet it starts from, and stops at the first id that is not cached |
| RelatedTweets.ClimbReaches | src/handlers/sidebarController.ts:172-188 | every cached ancestor along the `replyTo` chain (within the fuel) ends up in the map |
| RelatedTweets.Descend | src/handlers/sidebarController.ts:190-202 | the downward walk keeps every entry, adds the cached tweet it starts from, and stops at an id that is not cached |
| RelatedTweets.DescendAllReaches | src/handlers/sidebarController.ts:200-206 | every cached reply listed is added |
| RelatedTweets.ReachedThroughList | src/handlers/sidebarController.ts:190-206 | a cached reply of a cached reply is added too, so the walk is transitive |
| RelatedTweets.Expand | src/handlers/sidebarController.ts:157-209 | no relation record leaves the map as it is; otherwise nothing already in it is lost |
| RelatedTweets.ExpandReaches | src/handlers/sidebarController.ts:157-209 | the expansion contains every cached ancestor reached through `replyTo` and every cached direct reply |
| SidebarController.ComputeStatus | src/handlers/sidebarController.ts:88-101 | "partical" exactly when the related map holds more than zero and fewer than `countRelationship` tweets; otherwise "success", in particular for an empty or null map |
| SidebarController.Prioritised | src/handlers/sidebarController.ts:110-120 | the replies that are the shown tweet or in the shown related map, without repeats, the shown tweet first when it is a reply |
| SidebarController.ReorderReplies | src/handlers/sidebarController.ts:103-126 | no record or no replies is returned as is; otherwise only `replies` changes, and it holds exactly the same ids |
| SidebarController.ReorderRepliesOrder | src/handlers/sidebarController.ts:103-126 | the reordered replies are the prioritised ones followed by the rest in original order, with no repeats and the same count; the shown tweet comes first when it is a reply, and no prioritised reply comes after another |
| SidebarController.ReorderKeepsCount | src/handlers/sidebarController.ts:78-222 | reordering does not change `countRelationship`, so the status is the same as on the unordered record |
| SidebarController.BuildSnapshot | src/handlers/sidebarController.ts:68-86 | undefined exactly when the tweet is not cached; otherwise the cached tweet, the reordered relation record, the expanded related map, and the status computed from those two |
| SidebarController.OpenTweetInSidebar | src/handlers/sidebarController.ts:25-41 | returns false and changes nothing exactly when there is no snapshot; otherwise the sidebar opens on the snapshot keeping its pin and width, and a background request (with the record's controller data) starts exactly when no fresh detail is cached |
| SidebarController.ToNullable | src/handlers/sidebarController.ts:31-48 | `controllerData ?? null`: a value stays that value, a missing one becomes null |
| SidebarController.HydrateDone | src/handlers/sidebarController.ts:43-66 | the background result is dropped when the sidebar now shows another tweet or the request failed; otherwise the sidebar shows the new snapshot |
| SidebarController.RefreshTweetDetail | src/handlers/sidebarController.ts:224-236 | nothing unless the sidebar shows this tweet; the record is the cached one or one resolved from a retweet, and a forced request with its controller data starts exactly when such a record exists |
| SidebarController.RefreshDone | src/handlers/sidebarController.ts:237-252 | a stale or failed refresh changes neither cache nor sidebar; otherwise the detail is applied to the cache and the sidebar shows the rebuilt snapshot |
| SidebarController.StaleResultsDropped | src/handlers/sidebarController.ts:49-239 | once the sidebar is closed, a refresh or background result that arrives changes nothing |
| ThreadPrune.AuthorsAmongMembers | src/utils/threadPrune.ts:17-65 | exactly the listed ids whose related record is written by the root author, in order; none when there is no related map or the id is absent |
| ThreadPrune.WithAuthorReplyMembers | src/utils/threadPrune.ts:32-81 | exactly the listed ids with at least one author-written child |
| ThreadPrune.SpineStep | src/utils/threadPrune.ts:58-101 | one turn of the loop: no children stops; a step appends one or two ids |
| ThreadPrune.SpineStepChoice | src/utils/threadPrune.ts:63-98 | exactly one author-written child is appended alone; two or more stop the walk; a two-id step is the only child leading to an author reply, then that reply |
| ThreadPrune.SpineStepShape | src/utils/threadPrune.ts:67-95 | every step appends a parent-to-reply chain from the current id whose last id is author-written, and a two-id step appends a non-author middle reply with exactly one author reply |
| ThreadPrune.WalkSpine | src/utils/threadPrune.ts:58-102 | the loop, run with a fuel bound, appends exactly the ids of the repeated steps; they continue the start id along parent-to-reply edges, and each is author-written or the reply just before one that is, the last one author-written |
| ThreadPrune.BuildAuthorSpine | src/utils/threadPrune.ts:48-105 | `[rootId]` when the related map or root author is missing; the path always starts with `rootId`; every consecutive pair is a parent-to-reply edge of the relation store |
| ThreadPrune.SpineLinked | src/utils/threadPrune.ts:27-101 | every consecutive pair of the walked path is a reply edge |
| ThreadPrune.SpineAuthors | src/utils/threadPrune.ts:67-95 | every id the walk appends after a step ends on an author-written tweet |
| SidebarTimeline.Found | src/components/sidebar/SidebarTimeline.tsx:63-81 | a related tweet gives a tweet entry; otherwise a recorded tombstone gives a deleted entry; otherwise nothing |
| SidebarTimeline.ParentChain | src/components/sidebar/SidebarTimeline.tsx:61-83 | the walk from `replyTo`: it is empty exactly when the first id yields nothing; each entry is what the previous entry's next id (its relation's `replyTo`, or the tombstone's parent) yields; and it stops at the first id that yields nothing |
| SidebarTimeline.Reverse | src/components/sidebar/SidebarTimeline.tsx:84 | the entries in the opposite order |
| SidebarTimeline.Ancestors | src/components/sidebar/SidebarTimeline.tsx:53-86 | no relation record gives none; otherwise the parent chain reversed |
| SidebarTimeline.AncestorsOldestFirst | src/components/sidebar/SidebarTimeline.tsx:84 | the direct parent comes last and each entry is the parent of the one after it |
| SidebarTimeline.AncestorItem | src/components/sidebar/SidebarTimeline.tsx:102-127 | an ancestor item is a reply-variant ancestor with `linkBottom` set and `linkTop` exactly when its index is positive, showing the tweet or the tombstone |
| SidebarTimeline.AncestorItems | src/components/sidebar/SidebarTimeline.tsx:102-127 | one item per ancestor, in order, numbered from the start |
| SidebarTimeline.MainItem | src/components/sidebar/SidebarTimeline.tsx:129-139 | the main item has `linkTop` exactly when there are ancestors and carries the tweet's controller data |
| SidebarTimeline.BranchItem | src/components/sidebar/SidebarTimeline.tsx:154-186 | an item exactly when the id is related or has a tombstone (otherwise it is skipped); `linkTop` iff not first, `linkBottom` iff the branch has more than one id and this is not the last |
| SidebarTimeline.BranchItemsMembers | src/components/sidebar/SidebarTimeline.tsx:154-186 | exactly the items of the spine ids that yield one, none invented |
| SidebarTimeline.ReplyItems | src/components/sidebar/SidebarTimeline.tsx:147-187 | reply items only, containing every item of the branch built for each reply with the main tweet's author |
| SidebarTimeline.ReplyItemsAppend | src/components/sidebar/SidebarTimeline.tsx:147-187 | the branches follow the replies' order: two runs of replies give the first run's items then the second's, and one reply gives exactly its branch |
| SidebarTimeline.ReplyItemsFromBranches | src/components/sidebar/SidebarTimeline.tsx:147-187 | no other items: each one belongs to the branch of some reply |
| SidebarTimeline.TimelineItems | src/components/sidebar/SidebarTimeline.tsx:95-191 | no tweet gives no items; otherwise the ancestor items, then the main item, then the branches; the branches appear only when the status is "success" or "partical" and there are related tweets and a relation record; exactly one main item, at the ancestors' count; when the branches appear, everything after the main item is the reply items |
| SidebarTimeline.BranchEndsUnlinked | src/components/sidebar/SidebarTimeline.tsx:154-157 | when every spine id yields an item, the branch has one item per id, the first without `linkTop` and the last without `linkBottom` |
| TimelineData.Present | src/utils/timelineData.ts:44-51 | a missing source adds nothing; exactly the present elements are kept |
| TimelineData.Objects | src/utils/timelineData.ts:46-50 | non-object elements are skipped and every object element is kept |
| TimelineData.ObjectsAppend | src/utils/timelineData.ts:46-50 | keeping the objects of two lists one after the other is keeping those of the joined list, and one element gives its object or nothing: the kept objects come in their original order and number |
| TimelineData.ExtractTimelineInstructions | src/utils/timelineData.ts:39-75 | no response gives `[]`; every instruction returned comes from one of the home, threaded conversation, search or user timelines |
| TimelineData.ExtractOrder | src/utils/timelineData.ts:53-72 | the home instructions come first, then the threaded conversation ones; with only a threaded conversation the result is exactly its instructions |
| TimelineUpdate.EntryCalls | src/handlers/timelineUpdateHandler.ts:15-55 | an item entry stores its tweet at most once and only when it passes `isTweetResult`, with controller data from the content's then the entry's client event info; module items are stored without refresh whatever the flag; other content stores nothing |
| TimelineUpdate.ModuleCalls | src/handlers/timelineUpdateHandler.ts:38-54 | every module item that passes `isTweetResult` is stored, without refresh, with controller data from `item.item`, then the item, then the content, then the entry |
| TimelineUpdate.EntriesCalls | src/handlers/timelineUpdateHandler.ts:68-71 | every call that processing any of the entries makes is among the calls, refresh exactly for the base entry's own item |
| TimelineUpdate.InstructionCalls | src/handlers/timelineUpdateHandler.ts:65-81 | instructions other than AddEntries and PinEntry store nothing; every call of every added or pinned entry is made; a stored call refreshes exactly when its entry id is `tweet-<base>` and it is not a module item |
| TimelineUpdate.TimelineCalls | src/handlers/timelineUpdateHandler.ts:60-83 | no response stores nothing; every call of every entry of an AddEntries or PinEntry instruction of the response is made; every stored tweet passes `isTweetResult`; refresh exactly for the base entry's own item |
| TimelineUpdate.ApplyCalls | src/handlers/timelineUpdateHandler.ts:32-53 | after the calls every stored tweet with an id is cached and no cached id is lost; details and tombstones are untouched |
| TimelineUpdate.HandleTimelineUpdate | src/handlers/timelineUpdateHandler.ts:60-83 | every tweet that any added or pinned entry of the response offers for storing is cached afterwards; nothing cached is lost; details and tombstones are untouched |
| TimelineUpdate.ItemEntryCached | src/handlers/timelineUpdateHandler.ts:15-36 | an added or pinned entry whose item holds a plain tweet has that tweet cached after the update |
| TimelineUpdate.PinnedBaseEntryRefreshes | src/handlers/timelineUpdateHandler.ts:73-77 | a pinned entry that is the base tweet's own item is stored once, with a relation refresh |
| Conversation.ModuleTweets | src/utils/conversation.ts:19-33 | exactly the module items whose result is a `Tweet` |
| Conversation.ModuleTweetsAppend | src/utils/conversation.ts:19-33 | collecting over two item lists joined is collecting over each in turn, and one item gives its tweet or nothing: the tweets come in the items' order |
| Conversation.Candidate | src/utils/conversation.ts:49-73 | an entry yields a thread exactly when its id starts with `conversationthread-`, its content is a module with items, and some item is a tweet; the thread's id is the entry id |
| Conversation.Candidates | src/utils/conversation.ts:46-76 | exactly the threads the entries yield |
| Conversation.DedupFrom | src/utils/conversation.ts:53-74 | only threads whose id has not been seen are kept |
| Conversation.DedupDistinct | src/utils/conversation.ts:53-74 | the kept threads have distinct ids |
| Conversation.DedupKeepsFirst | src/utils/conversation.ts:53-74 | the first thread produced for an id is the one kept |
| Conversation.ExtractConversationThreads | src/utils/conversation.ts:35-79 | a null detail yields `[]`; otherwise the first thread per entry id over the AddEntries entries, with distinct ids, each id starting with `conversationthread-` and each thread non-empty |
| Conversation.SectionLabel | src/utils/conversation.ts:81-92 | an unknown section is labelled "更多讨论", and that label is given exactly to the unknown sections and `Unsorted` |
| Conversation.GroupThreadsBySection | src/utils/conversation.ts:94-116 | one group per distinct section, in first-appearance order, an empty section counting as "Default"; each group has its section's label and exactly that section's threads in their original order |
| Conversation.GroupingPlacesEachThreadOnce | src/utils/conversation.ts:102-113 | every thread sits in exactly one group, the one of its own section |
| TweetDetailHandler.RequestControllerData | src/handlers/tweetDetailHandler.ts:38-40 | explicit controller data is sent as given, an absent argument sends none, and an explicit null falls back to the stored tweet's controller data |
| TweetDetailHandler.RequestTweetDetail | src/handlers/tweetDetailHandler.ts:23-55 | a fresh cached detail is served from the cache exactly when the call is not forced; forcing drops the cached detail first; otherwise the request id is registered as pending before the envelope carrying it is posted, and the tweets are untouched |
| TweetDetailHandler.HandleDetailResponse | src/handlers/tweetDetailHandler.ts:89-102 | an answer for an unknown request id changes nothing; a known id is removed from the pending table and rejected with the error text when there is one, resolved with the data otherwise |
| TweetDetailHandler.KeepUnpromoted | src/handlers/tweetDetailHandler.ts:74-76 | the kept module items are exactly the items that are not promoted |
| TweetDetailHandler.KeepUnpromotedAppend | src/handlers/tweetDetailHandler.ts:74-76 | filtering two item lists joined is filtering each in turn, and one item is kept exactly when it is not promoted: the kept items come in their original order and number |
| TweetDetailHandler.CleanEntry | src/handlers/tweetDetailHandler.ts:64-79 | a cleaned entry keeps its id and kind; entries that are not modules, or modules without items, are left as they are |
| TweetDetailHandler.CleanEntries | src/handlers/tweetDetailHandler.ts:58-80 | cleaning fails exactly when some entry's content cannot be read, with the fixed error text; on success every result entry is clean and the results are exactly the cleaned non-promoted entries |
| TweetDetailHandler.CleanInstruction | src/handlers/tweetDetailHandler.ts:58-80 | a null instruction throws a TypeError when its type is read; a `TimelineAddEntries` with entries has them cleaned, failing exactly when they do; any other instruction is kept as it is |
| TweetDetailHandler.CleanInstructions | src/handlers/tweetDetailHandler.ts:58-80 | the instruction list is cleaned position by position, and succeeds exactly when every instruction cleans |
| TweetDetailHandler.RemovePromoted | src/handlers/tweetDetailHandler.ts:58-80 | only the threaded conversation's instructions change and their number is kept; a response without one is returned unchanged |
| TweetDetailHandler.RemovedPromotedEntries | src/handlers/tweetDetailHandler.ts:58-80 | after promoted content is removed, no added entry is promoted and no module holds a promoted item |
| TweetDetailHandler.CleanEntriesIdempotent | src/handlers/tweetDetailHandler.ts:58-80 | removing promoted content twice gives the same entries as removing it once |
| TweetDetailHandler.KeepUnpromotedIdempotent | src/handlers/tweetDetailHandler.ts:74-76 | filtering promoted module items twice equals filtering them once |
| TweetDetailHandler.CompleteDetail | src/handlers/tweetDetailHandler.ts:57-84 | a missing answer fails; otherwise the cleaned response is cached under the tweet id with the current time, every tweet the response carries is stored, and no stored tweet is lost |
| TweetDetailHandler.CompletedDetailIsCached | src/handlers/tweetDetailHandler.ts:28-33 | right after a detail is completed, an unforced request for the same tweet is answered from the cache with that same response |
| Bridge.Outgoing | src/api/twitterGraphql.ts:82-90 | every posted envelope carries the bridge's source tag, the given direction, type and payload |
| Bridge.OwnPostsDropped | src/handlers/bridgeMessageHandler.ts:34-37 | an envelope posted towards the page script passes only the page script's filter, and one posted from it passes only the content script's filter |
| Bridge.RouteOf | src/handlers/bridgeMessageHandler.ts:39-82 | each answer type goes to its service's handler, flagged as an error exactly for the error types; request types and unknown types are dropped |
| Bridge.Dispatch | src/handlers/bridgeMessageHandler.ts:33-83 | events from another window, without data, with a foreign source or the wrong direction are dropped; the rest are routed by their type |
| Bridge.DispatchTable | src/handlers/bridgeMessageHandler.ts:39-82 | for every service the response type settles it as a success and the error type as a failure; both detail types reach the detail handler; the three upload types reach three different handlers |
| Bridge.InterceptorRepliesRouted | src/handlers/bridgeMessageHandler.ts:33-83 | a reply the page script posts is routed by its type, while the content script's own requests and messages from other windows are dropped |
| Correlation.Send | src/api/twitterGraphql.ts:78-90 | sending registers the waiter under the request id and then posts the request, leaving the other pending entries alone and settling nothing |
| Correlation.Settle | src/api/twitterGraphql.ts:30-43 | an unknown id changes nothing; a known one is deleted before it is settled, exactly once, resolving on success and rejecting with the error text or the fallback text on failure |
| Correlation.Forward | src/api/twitterUpload.ts:97-103 | a progress report is passed on only for a pending request with a progress callback, and never removes the entry |
| Correlation.Receive | src/handlers/bridgeMessageHandler.ts:71-79 | handling one incoming message only ever removes pending entries and never changes the ones it keeps |
| Correlation.SettledAtMostOnce | src/api/twitterGraphql.ts:34-36 | over any sequence of incoming messages a request id is settled at most once, and only when it was pending |
| Correlation.ProgressKeepsEntry | src/api/twitterUpload.ts:83-103 | any number of progress reports followed by the answer settle a pending upload exactly once and leave it removed |
| Correlation.RequestAnswered | src/api/twitterGraphql.ts:30-93 | a request sent and then answered is settled exactly once, leaves the pending table as it was, was registered before it was posted, and was deleted before it was settled |
| InterceptorEntry.ErrorText | src/interceptor/index.ts:40-45 | a thrown error reports its message; any other thrown value its text, or the fixed unknown-error text when it has none |
| InterceptorEntry.ActionCallOf | src/interceptor/index.ts:62-70 | the action call carries the request's document id, operation name, variables (empty when absent), features, method and field toggles |
| InterceptorEntry.Answer | src/interceptor/index.ts:36-45 | the reply goes from the page script under the request id; it carries the data with the success type exactly when the call returned, and the error text with the error type when it threw |
| InterceptorEntry.HandleRequest | src/interceptor/index.ts:18-83 | a message not addressed to the page script, of another type, or missing its request id, tweet id, document id or operation name gets no reply; every served request gets exactly one reply under its own request id |
| InterceptorEntry.AnswersReachTheirHandler | src/interceptor/index.ts:36-80 | the page script's reply to a detail request reaches the detail handler, and its reply to an action request settles the action service as a failure exactly when the action threw |
| GraphqlApi.SendTweetActionRequest | src/api/twitterGraphql.ts:45-93 | an operation without a document id or name fails; otherwise the request is registered under its id and then posted to the page script with the operation's id and name, the variables, features and field toggles, and the method taken from the options, then from the operation, then POST |
| GraphqlApi.HandleActionResponse | src/api/twitterGraphql.ts:30-43 | an unknown request id changes nothing; a known one is deleted before it is settled, resolved with the reply unless it is an error, in which case it is rejected with the error text or the unknown-error text |
| GraphqlApi.ActionRoundTrip | src/api/twitterGraphql.ts:30-93 | an action that is sent and then answered settles exactly once and leaves the pending table as it was |
| GraphqlApi.RestIdVariables | src/api/twitterGraphql.ts:181-193 | the lookup variables carry the tweet id, never ask for promoted content, and include the controller data exactly when it is a non-empty string |
| GraphqlApi.FetchTweetResultByRestId | src/api/twitterGraphql.ts:177-206 | the single-tweet lookup is always a GET with its own feature and field-toggle tables and the lookup variables |
| GraphqlApi.MutationVariables | src/api/twitterGraphql.ts:232-265 | the mutation variables carry the text, batch mode and dark-request flag, include a media block exactly when there is media or the post is marked sensitive, and never carry a reply block |
| GraphqlApi.ReplyVariables | src/api/twitterGraphql.ts:270-303 | a reply's variables are the mutation variables with the documented defaults filled in, plus the reply block naming the tweet replied to and the excluded users |
| GraphqlApi.CreateReply | src/api/twitterGraphql.ts:270-306 | a reply of only white space fails with the fixed message; otherwise it is sent exactly when the operation is configured, with the trimmed text and the default features overridden by the caller's |
| GraphqlApi.CreateReplyContent | src/api/twitterGraphql.ts:282-303 | a sent reply carries the trimmed text and the replied-to tweet id; every caller override wins and every other default feature is kept |
| GraphqlApi.ActionVariables | src/api/twitterGraphql.ts:308-330 | every one-tweet action sends the tweet id, and only retweet and undo-retweet add a false dark-request flag |
| GraphqlApi.SendTweetAction | src/api/twitterGraphql.ts:308-330 | a one-tweet action is sent exactly when its operation is configured, with its variables and no features |
| UploadApi.InferMediaCategory | src/api/twitterUpload.ts:67-72 | a video type gives the video category, exactly "image/gif" the gif category, and everything else, an absent type included, the image category |
| UploadApi.UploadPayload | src/api/twitterUpload.ts:112-134 | the media type, category and file name come from the options when given, else from the file, else from the fixed defaults; the chunk size and extra owners are passed through |
| UploadApi.UploadMedia | src/api/twitterUpload.ts:108-154 | an upload registers its waiter, with its progress callback, before the request is posted to the page script |
| UploadApi.HandleUploadSuccess | src/api/twitterUpload.ts:83-88 | a known upload is deleted and then resolved with the result; an unknown one changes nothing |
| UploadApi.HandleUploadError | src/api/twitterUpload.ts:90-95 | a known upload is deleted and then rejected with the error text or the fixed upload-failed text; an unknown one changes nothing |
| UploadApi.HandleUploadProgress | src/api/twitterUpload.ts:97-103 | progress never changes the pending table and is forwarded only to a pending upload that has a progress callback |
| UploadApi.UploadSettlesOnce | src/api/twitterUpload.ts:83-154 | an upload followed by any number of progress reports and one answer settles exactly once and leaves the pending table as it was |
| FriendshipsApi.FormBody | src/api/friendships.ts:46-50 | the form body is the default parameters with exactly one user id parameter holding the user id |
| FriendshipsApi.SendFriendshipRequest | src/api/friendships.ts:67-104 | a missing or blank user id fails with the fixed message; otherwise the trimmed id is registered and posted with its action and form body |
| FriendshipsApi.FollowUser | src/api/friendships.ts:106-107 | following posts a request for the follow action |
| FriendshipsApi.UnfollowUser | src/api/friendships.ts:109-110 | unfollowing posts a request for the unfollow action |
| FriendshipsApi.HandleFriendshipResponse | src/api/friendships.ts:52-65 | an unknown request id changes nothing; a known one is deleted before it is settled, resolved unless the answer is an error, rejected with the error text or the unknown-error text otherwise |
| FriendshipsApi.PaddingIgnored | src/api/friendships.ts:71-81 | white space around a user id does not change the request that is sent |
| FollowingListApi.NormalizeEntry | src/api/followingList.ts:91-112 | a user without a usable id is dropped; otherwise the string id wins over the numeric one, missing texts become empty, the https avatar wins over the plain one, and the flags are the values' truthiness |
| FollowingListApi.NormalizeUsers | src/api/followingList.ts:117-122 | the normalised users are exactly the raw users that normalise to an entry, each with a non-empty id |
| FollowingListApi.Cursor | src/api/followingList.ts:123-142 | a cursor is the string form when present, else the number written out, and is dropped when empty or "0" |
| FollowingListApi.NormalizeResponse | src/api/followingList.ts:114-145 | a response without users gives no users; both cursors are normalised; the total is kept exactly when it is a finite number |
| FollowingListApi.CacheKeyInjective | src/api/followingList.ts:84-87 | two cache keys are equal only for the same user, the same count and the same cursor, an absent cursor standing for "start" |
| FollowingListApi.FetchFollowingList | src/api/followingList.ts:162-216 | a missing or blank user id fails with the fixed message; a key already cached is answered from the cache, and otherwise the request for the trimmed id is registered and then posted, under the key built from the id, count and cursor |
| FollowingListApi.CompleteFetch | src/api/followingList.ts:217-219 | the answer is normalised and cached under its key, leaving every other cached entry alone |
| FollowingListApi.SecondFetchHits | src/api/followingList.ts:204-219 | once a fetch is completed, the same request is answered from the cache with the normalised result |
| FollowingListApi.HandleFollowingListResponse | src/api/followingList.ts:147-160 | an unknown request id changes nothing; a known one is deleted before it is settled, resolved unless the answer is an error, rejected with the error text or the unknown-error text otherwise |
| PollApi.VoteInPoll | src/api/twitterPoll.ts:52-103 | a missing endpoint, card uri or card name fails with its own message, checked in that order; a vote passing all three is registered and posted with the cards platform defaulting to "Web-12" |
| PollApi.HandlePollVoteResponse | src/api/twitterPoll.ts:25-38 | an unknown request id changes nothing; a known one is deleted and then rejected with the error text or the unknown-error text, or resolved with the reply |
| PollApi.VoteSettledOnce | src/api/twitterPoll.ts:25-103 | a vote that is sent and then answered settles exactly once and leaves the pending table as it was |
| HeaderUtils.CopyReadsLastWrite | src/interceptor/headerUtils.ts:23-28 | after copying entries into a record, reading a key gives the last kept entry written under that lower-cased key, or what the record already held |
| HeaderUtils.SanitizeHeaders | src/interceptor/headerUtils.ts:18-30 | sanitized headers have only non-empty lower-case keys outside the ignored four (content-length, host, origin, referer), and each key holds the last value written under any spelling of it |
| HeaderUtils.CookieSides | src/interceptor/headerUtils.ts:45 | a cookie part's name is the trimmed text before its first "=" and its value the text after it; a part without "=" is all name |
| HeaderUtils.FindCookie | src/interceptor/headerUtils.ts:43-51 | a cookie is found exactly when the name is non-empty and some part carries it |
| HeaderUtils.FindCookieFirst | src/interceptor/headerUtils.ts:44-49 | the first part carrying the name wins, and its decoded value is returned |
| HeaderUtils.GetCookieValue | src/interceptor/headerUtils.ts:42-52 | no cookie string gives nothing; otherwise the string is split at ";" and searched part by part |
| HeaderUtils.NormalizeAuthorization | src/interceptor/headerUtils.ts:54-57 | an empty or missing credential gives nothing; one that already starts with "Bearer " is kept, any other gets that prefix |
| HeaderUtils.NormalizeIdempotent | src/interceptor/headerUtils.ts:54-57 | normalising a credential twice is the same as normalising it once |
| HeaderUtils.SniffSlots | src/interceptor/headerUtils.ts:64-81 | whatever the storage scan returns is a Bearer credential |
| HeaderUtils.SniffFindsFirstValue | src/interceptor/headerUtils.ts:64-70 | the scan returns the normalised trimmed value of the first slot with a key and a non-blank value |
| HeaderUtils.JsonBranchUnreachable | src/interceptor/headerUtils.ts:69-80 | the scan's result does not depend on how stored JSON is parsed for a bearer token |
| HeaderUtils.SniffStorage | src/interceptor/headerUtils.ts:59-86 | a missing storage yields nothing, and anything found is a Bearer credential |
| HeaderUtils.SniffGlobals | src/interceptor/headerUtils.ts:88-125 | any non-empty global candidate yields a credential, and it is the normalised form of the first non-empty candidate, whatever its position; only when there is none are local storage and then session storage scanned |
| HeaderUtils.SetDefault | src/interceptor/headerUtils.ts:149-150 | a default is written only when the key holds no non-empty value, and no other key changes |
| HeaderUtils.Merged | src/interceptor/headerUtils.ts:134-144 | the merged record holds only non-empty values under lower-cased keys |
| HeaderUtils.MergedReads | src/interceptor/headerUtils.ts:143-144 | a merged key reads as the latest captured headers' last value for it, else the template's |
| HeaderUtils.ResolveAuthorization | src/interceptor/headerUtils.ts:164-173 | the credential is the merged header's, then the latest captured one, then the template's, then the sniffed one, always in Bearer form |
| HeaderUtils.RequestDefaults | src/interceptor/headerUtils.ts:149-162 | the active-user, client-language, accept-language and accept headers are filled in only where the merged record has none; every other key is untouched |
| HeaderUtils.FinishHeaders | src/interceptor/headerUtils.ts:175-183 | a resolved credential is written as the authorization header; the auth-type and content-type headers are filled in only when absent |
| HeaderUtils.Prepared | src/interceptor/headerUtils.ts:143-162 | the csrf token is the "ct0" cookie when there is one, else what was merged; the other keys are the merged record with the request defaults |
| HeaderUtils.BuildGraphqlHeaders | src/interceptor/headerUtils.ts:131-186 | the authorization header is the resolved credential, and every key the function does not write reads as in the merged record |
| HeaderUtils.BuildGraphqlHeadersCsrf | src/interceptor/headerUtils.ts:146-147 | the "ct0" cookie, when present, overrides any captured csrf token |
| HeaderUtils.BuildGraphqlHeadersClient | src/interceptor/headerUtils.ts:149-154 | the active-user header defaults to "yes" and the client language to the page language, then the browser language, then "en" |
| HeaderUtils.BuildGraphqlHeadersAccept | src/interceptor/headerUtils.ts:156-162 | accept-language defaults to the browser's non-empty languages joined by ",", then its language, then "en-US"; accept defaults to "*/*" |
| HeaderUtils.BuildGraphqlHeadersLastDefaults | src/interceptor/headerUtils.ts:181-183 | the auth type defaults to "OAuth2Session" and the content type to "application/json" |
| HeaderUtils.KeepNonEmpty | src/interceptor/followingList.ts:40-44 | the fetch headers hold exactly the listed non-empty keys whose values are non-empty |
| HeaderUtils.FetchHeaders | src/interceptor/followingList.ts:40-44 | the headers handed to fetch are the record's entries with an empty key or value left out |
| DetailTemplate.UpdateTemplate | src/interceptor/tweetDetailTemplate.ts:148-153 | a request that parses replaces the stored template; one that does not leaves it as it was |
| DetailTemplate.CapturedTemplateStays | src/interceptor/tweetDetailTemplate.ts:148-162 | once a template has been captured, replays use it rather than the preset, and a later unparsable request does not undo it |
| DetailTemplate.ActiveTemplate | src/interceptor/tweetDetailTemplate.ts:162 | a replay uses the stored template when there is one and the preset otherwise |
| DetailTemplate.DetailVariables | src/interceptor/tweetDetailTemplate.ts:163-175 | the replay variables are the template's, with the focal tweet set to the requested tweet and controller data present exactly when a non-empty one is given |
| DetailTemplate.StaleControllerDataDropped | src/interceptor/tweetDetailTemplate.ts:167-168 | the template's own controller data and focal tweet never leak into a replay: templates differing only there give the same variables |
| DetailTemplate.IsGetExactly | src/interceptor/tweetDetailTemplate.ts:179 | a template is replayed as a GET exactly when its method is "get" in any letter case; a missing method counts as POST |
| DetailTemplate.DetailRequest | src/interceptor/tweetDetailTemplate.ts:177-219 | a GET replay puts the variables, features and field toggles in the query, the latter two defaulting to the built-in tables; any other method sends them in a JSON body with the template's method, POST by default; both carry the assembled headers |
| DetailTemplate.DetailOutcome | src/interceptor/tweetDetailTemplate.ts:202-205 | a replay succeeds with the response body exactly when the status is 2xx, and otherwise fails with the status in the message |
| DetailTemplate.PerformTweetDetailRequest | src/interceptor/tweetDetailTemplate.ts:158-224 | the request is built from the active template and its outcome read from the reply's status |
| DetailTemplate.PresetReplayIsGet | src/interceptor/tweetDetailTemplate.ts:63-83 | without a captured template the replay is a GET with the default features and field toggles, focused on the requested tweet |
| FollowingRequest.ResolvedCount | src/interceptor/followingList.ts:50-52 | the count sent is at least 1: a finite number is floored and raised to 1, anything else gives the default of 3 |
| FollowingRequest.WholeCountKept | src/interceptor/followingList.ts:50-52 | a whole positive count is sent unchanged |
| FollowingRequest.SetRequestParams | src/interceptor/followingList.ts:48-57 | setting the three parameters on the fixed query appends them after the fixed ones, the cursor being the trimmed cursor or "-1" |
| FollowingRequest.FollowingQuery | src/interceptor/followingList.ts:46-58 | the query is the fixed parameters followed by the user id, the resolved count and the cursor |
| FollowingRequest.FollowingQueryValues | src/interceptor/followingList.ts:48-57 | reading the query back gives the user id, the resolved count and the cursor |
| FollowingRequest.RequestParamsRead | src/interceptor/followingList.ts:48-57 | on any query without those names, the three values set are the ones read back |
| FollowingRequest.NotAFixedName | src/interceptor/followingList.ts:11-25 | none of the fixed parameters is named user_id, count or cursor |
| FollowingRequest.AddIfAbsent | src/interceptor/followingList.ts:67-75 | a header is added only when none of that name is present, and no other header changes |
| FollowingRequest.FollowingHeaders | src/interceptor/followingList.ts:65-75 | the transaction id is always set, while accept, active-user and auth-type get their defaults only when absent; every other header is as fetched |
| FollowingRequest.PerformFollowingListRequest | src/interceptor/followingList.ts:29-88 | a missing or blank user id fails before any request; otherwise the GET carries the query for the trimmed id and the finished headers, and succeeds with the body exactly when the status is 2xx |
| PollRequest.ResolveEndpoint | src/interceptor/poll.ts:6-18 | an empty endpoint fails with the fixed message; an http or https URL in any letter case is kept; a "capi://" endpoint is moved to the caps host; anything else is resolved against the page |
| PollRequest.CapiEndpoint | src/interceptor/poll.ts:10-16 | a "capi://" path and its resolved caps URL resolve to the same place, so resolving is stable |
| PollRequest.FieldsDistinct | src/interceptor/poll.ts:33-40 | the five form fields have five different names |
| PollRequest.VoteForm | src/interceptor/poll.ts:32-40 | the vote form holds the five fields in the order they are set, each once |
| PollRequest.VoteFormRead | src/interceptor/poll.ts:32-40 | reading the form back gives the card uri, tweet id, card name, choice and cards platform, an empty platform reading as "Web-12" |
| PollRequest.ReadFive | src/interceptor/poll.ts:32-40 | five parameters under distinct names read back as the values set |
| PollRequest.VoteEdits | src/interceptor/poll.ts:42-45 | the vote's content type is the form type, the transaction-id and forwarded-for headers are removed, and every other header is kept |
| PollRequest.VoteHeaders | src/interceptor/poll.ts:42-51 | the headers sent are the edited headers with empty keys and values left out |
| PollRequest.PerformPollVoteRequest | src/interceptor/poll.ts:23-69 | an empty endpoint fails before anything is sent; otherwise the form is posted to the resolved endpoint, a non-2xx status fails with the status in the message, and a success is read as JSON exactly when the content type mentions json in any case |
| MediaUpload.KeepForUpload | src/interceptor/mediaUpload.ts:56-60 | the upload headers hold exactly the listed entries with a non-empty key and value whose key is not content-type in any letter case |
| MediaUpload.UploadHeaders | src/interceptor/mediaUpload.ts:53-62 | the upload headers are the assembled headers without empty entries and without any content type |
| MediaUpload.UploadKeepsCredential | src/interceptor/mediaUpload.ts:53-62 | the authorization header survives into the upload headers, and no spelling of content-type does |
| MediaUpload.ChunkSize | src/interceptor/mediaUpload.ts:347-350 | the chunk size is at least 1 MiB: the requested size when it is that large, 5 MiB when none is requested |
| MediaUpload.ChunkCount | src/interceptor/mediaUpload.ts:351 | there is at least one chunk, and exactly as many as needed to cover the file |
| MediaUpload.PlanChunks | src/interceptor/mediaUpload.ts:354-369 | chunk i runs from i times the size to the next boundary or the end of the file; the chunks tile the file and the uploaded count ends at its size |
| MediaUpload.StartsInside | src/interceptor/mediaUpload.ts:355-356 | every chunk starts within the file and the last one reaches its end |
| MediaUpload.CoveredBytes | src/interceptor/mediaUpload.ts:368 | the chunk sizes add up to the bytes covered |
| MediaUpload.PartitionExact | src/interceptor/mediaUpload.ts:354-369 | every byte of the file lies in exactly one chunk |
| MediaUpload.ChunksAscend | src/interceptor/mediaUpload.ts:354-369 | each chunk ends before any later chunk begins |
| MediaUpload.Fraction | src/interceptor/mediaUpload.ts:209-210 | progress never exceeds 1; it is 1 for an empty file or once all bytes are sent, and otherwise the share sent |
| MediaUpload.InitReport | src/interceptor/mediaUpload.ts:134-139 | the first report is the init phase with nothing sent, its progress 1 only for an empty file |
| MediaUpload.AppendReport | src/interceptor/mediaUpload.ts:225-237 | a finished chunk is reported in the append phase with the bytes sent so far, its index and the chunk count |
| MediaUpload.FinalizeReport | src/interceptor/mediaUpload.ts:257-262 | the finalize report counts every byte as sent, with progress 1 |
| MediaUpload.InitMediaId | src/interceptor/mediaUpload.ts:158-177 | a non-2xx INIT fails with its status; otherwise the string id wins, then a non-zero numeric id, and no id at all fails with the fixed message |
| MediaUpload.WaitMs | src/interceptor/mediaUpload.ts:308 | each wait is at least one second, the server's advice in seconds when it asks for longer |
| MediaUpload.ProcessingStep | src/interceptor/mediaUpload.ts:291-306 | a failed state or an error message stops the upload with that message; an unfinished state without either is reported in the processing phase and waited on; a finished state settles unless it carries an error |
| MediaUpload.WaitForProcessing | src/interceptor/mediaUpload.ts:281-337 | every wait is at least a second and pairs with one report; a finished result is no longer processing; polling stops after the replies run out |
| MediaUpload.NoPollWhenDone | src/interceptor/mediaUpload.ts:291-336 | media already processed are not polled, and settle exactly when they carry no error |
| MediaUpload.NormalizedMediaId | src/interceptor/mediaUpload.ts:99-100 | the final id is the string id when there is one, else the non-zero numeric id written out, else empty |
| MediaUpload.SuccessNotification | src/interceptor/mediaUpload.ts:98-127 | success is reported exactly when the final id is non-empty, with that id as both id fields; otherwise the missing-id error is reported |
| MediaUpload.Appends | src/interceptor/mediaUpload.ts:354-369 | one append report per accepted chunk in order, all in range; an append failure stops the sequence |
| MediaUpload.ChunkPlan | src/interceptor/mediaUpload.ts:351-357 | the chunks lie inside the file, chunk i starting at i times the size |
| MediaUpload.FinishUpload | src/interceptor/mediaUpload.ts:251-337 | the finalize report comes first, every notification but the last is a progress report, and a failed FINALIZE ends with its status error |
| MediaUpload.SendChunks | src/interceptor/mediaUpload.ts:354-386 | the notifications after INIT are progress reports in range ending in one final notification |
| MediaUpload.PerformMediaUpload | src/interceptor/mediaUpload.ts:339-392 | an upload opens with the init report, produces only in-range progress reports followed by exactly one final success or error, and stops with the INIT error when INIT fails |
| SidebarStore.Round | src/store/sidebarStore.ts:11 | rounding gives the nearest whole number, halves going up |
| SidebarStore.ClampWidth | src/store/sidebarStore.ts:10-11 | the width is rounded and held between 420 and 680 pixels; a rounded width already in range is kept |
| SidebarStore.ClampIdempotent | src/store/sidebarStore.ts:10-11 | clamping a clamped width changes nothing |
| SidebarStore.ClampMonotone | src/store/sidebarStore.ts:10-11 | a wider request never gives a narrower sidebar |
| SidebarStore.InitialWidth | src/store/sidebarStore.ts:13-23 | a missing, empty or non-numeric stored width gives 560; a stored number is clamped |
| SidebarStore.Initial | src/store/sidebarStore.ts:25-34 | the sidebar starts closed, unpinned and idle at the given width |
| SidebarStore.OpenTweet | src/store/sidebarStore.ts:53-68 | opening shows the tweet with its relation, related tweets and status, and keeps the pin and width |
| SidebarStore.TogglePinned | src/store/sidebarStore.ts:69-74 | toggling flips the pin and changes nothing else |
| SidebarStore.TogglePinnedTwice | src/store/sidebarStore.ts:69-74 | toggling twice restores the state |
| SidebarStore.SetWidth | src/store/sidebarStore.ts:75-89 | the width becomes the clamped request and nothing else changes; the width is persisted exactly when it changed |
| SidebarStore.SetWidthIdempotent | src/store/sidebarStore.ts:75-89 | setting the same width twice persists nothing the second time |
| SidebarStore.Close | src/store/sidebarStore.ts:90-101 | closing returns to the initial state while keeping the width |
| SidebarStore.CloseKeepsWidth | src/store/sidebarStore.ts:75-101 | a width set before closing survives the close and, once persisted, is the width the next session starts with |
| PollInfo.FromEntries | src/utils/poll.ts:17-22 | the binding map built from a list has only non-empty names |
| PollInfo.LastBindingSnoc | src/utils/poll.ts:18-21 | a usable entry appended at the end wins its name; any other leaves the lookup as it was |
| PollInfo.FromEntriesKeepsLast | src/utils/poll.ts:17-22 | looking a name up in the binding map gives the last usable entry under that name |
| PollInfo.RecordEntries | src/utils/poll.ts:24-27 | a record of bindings is read as its fields in order, each becoming one named entry |
| PollInfo.BindingValueMap | src/utils/poll.ts:8-29 | no bindings give an empty map, and no binding name in the map is empty |
| PollInfo.GetString | src/utils/poll.ts:31-47 | a binding's text is its non-empty string value, else its non-empty scribe key, else its non-empty long value; a missing binding has none |
| PollInfo.GetBoolean | src/utils/poll.ts:49-61 | a boolean value wins; otherwise a string reading "true" or "false" in any letter case gives that answer, and anything else gives none |
| PollInfo.ChoicesFrom | src/utils/poll.ts:67-77 | the choices from an index on are the labelled ones up to 4, in ascending order, each read from its own bindings |
| PollInfo.ParseChoices | src/utils/poll.ts:63-79 | at most four choices, ascending by id, and choice i is present exactly when its label binding has text |
| PollInfo.ChoicesComplete | src/utils/poll.ts:67-69 | a list that holds every labelled choice, and only choices read from their bindings, names exactly the labelled ids |
| PollInfo.ReduceIsSum | src/utils/poll.ts:112 | the reduction over the choices adds every count to the start value |
| PollInfo.ExtractPollInfo | src/utils/poll.ts:84-128 | a poll is read exactly when the card has a legacy part, a non-empty binding map with a first-choice label, at least one choice and a card uri; the total is the sum of the counts, and the name, endpoint, final flag, selected choice and duration come from their bindings |
| PollInfo.PollShape | src/utils/poll.ts:63-97 | a poll has one to four choices with distinct ids and a non-empty card uri |
| TweetPoll.MaxCount | src/components/tweet/TweetPoll.tsx:173-176 | the largest count is at least every choice's count and is either 0 or some choice's count |
| TweetPoll.Derive | src/components/tweet/TweetPoll.tsx:160-178 | an optimistic choice adds one vote and overrides the stored selection; results show once the poll has ended, the counts are final or a choice is selected; voting is possible exactly while results are hidden and there is an endpoint |
| TweetPoll.RoundedPercent | src/components/tweet/TweetPoll.tsx:85-87 | the share in percent is rounded to the nearest whole number, halves going up |
| TweetPoll.HighlightWidth | src/components/tweet/TweetPoll.tsx:78-90 | the bar is hidden without results, 1 when there are no votes, and otherwise between 1 and 100 |
| TweetPoll.HighlightIsShare | src/components/tweet/TweetPoll.tsx:78-90 | with votes, the bar is the choice's rounded share, counting the optimistic vote, raised to 1 when it rounds to 0 |
| TweetPoll.WinnerHasMost | src/components/tweet/TweetPoll.tsx:206-210 | a winning choice has at least as many votes as every choice |
| TweetPoll.BeginVote | src/components/tweet/TweetPoll.tsx:180-194 | a vote on a card that cannot vote does nothing; otherwise the choice is recorded optimistically and the vote is sent with the poll's endpoint, card uri, card name and tweet id |
| TweetPoll.FinishVote | src/components/tweet/TweetPoll.tsx:187-198 | a successful vote keeps the card; a failed one drops the optimistic choice and keeps the poll |
| TweetPoll.FailedVoteRollsBack | src/components/tweet/TweetPoll.tsx:180-198 | a vote that fails leaves the card exactly as before the vote |
| TweetPoll.NoSecondVote | src/components/tweet/TweetPoll.tsx:160-186 | after one vote begins the results show with one more vote counted, and a second vote does nothing |
| TweetActions.AdjustCount | src/components/tweet/TweetActions.tsx:47-51 | a count moves by one and never goes below 0, a missing count counting as 0 |
| TweetActions.AdjustUpDown | src/components/tweet/TweetActions.tsx:47-51 | counting up and then down returns a non-negative count to where it was |
| TweetActions.InitialRetweetCount | src/components/tweet/TweetActions.tsx:64-67 | the retweet count is shown exactly when retweets or quotes are non-zero, and is then their sum |
| TweetActions.InitialViews | src/components/tweet/TweetActions.tsx:70 | views are shown exactly when the view count text is non-empty, and a numeric text is read as its number |
| TweetActions.InitialBar | src/components/tweet/TweetActions.tsx:61-92 | the bar starts with nothing pending, the combined retweet count, and the like and bookmark counts and states as the tweet carries them |
| TweetActions.WithSlot | src/components/tweet/TweetActions.tsx:119-123 | changing one toggle's slot leaves the other toggles and the rest of the bar alone |
| TweetActions.BeginToggle | src/components/tweet/TweetActions.tsx:110-130 | without a tweet id or while an action is pending nothing happens; otherwise the toggle flips, its count moves by one the same way, it becomes the pending action and its request is sent |
| TweetActions.FinishToggle | src/components/tweet/TweetActions.tsx:125-138 | the pending action always clears; a failure restores the toggle's earlier state and count, and no other toggle changes |
| TweetActions.FailedToggleRollsBack | src/components/tweet/TweetActions.tsx:110-139 | a toggle whose request fails leaves the bar exactly as it was |
| TweetActions.LikeThenUnlike | src/components/tweet/TweetActions.tsx:141-170 | liking adds one like, and unliking after it restores the bar |
| TweetActions.PendingBlocksAll | src/components/tweet/TweetActions.tsx:297-302 | while a toggle is pending every toggle button is disabled and ignores clicks, while the reply button stays enabled |
| ComposerUploads.InferKind | src/components/reply/useMediaUploads.ts:21-25 | a type starting "image/" is an image, one starting "video/" a video, anything else unknown |
| ComposerUploads.FreeSlots | src/components/reply/useMediaUploads.ts:62-64 | the free slots are four less the items held, and none once four or more are held |
| ComposerUploads.AddEach | src/components/reply/useMediaUploads.ts:67-89 | only files whose type mentions video or image start an upload, each held under an id of the pick; at most one upload per file; existing items stay |
| ComposerUploads.AddEachStarts | src/components/reply/useMediaUploads.ts:67-89 | every examined file whose type mentions video or image starts an upload under the id given for it |
| ComposerUploads.AddEachFrom | src/components/reply/useMediaUploads.ts:67-89 | every started upload is an examined, accepted file paired with the id given for it |
| ComposerUploads.AddEachAppend | src/components/reply/useMediaUploads.ts:67-89 | the loop goes file by file: a pick split in two gives the first part's uploads followed by the second part's, started from the items the first part left |
| ComposerUploads.AddEachOne | src/components/reply/useMediaUploads.ts:68-88 | one accepted file adds its fresh item under its id and starts exactly its own upload; any other file changes nothing and starts nothing |
| ComposerUploads.AddEachKeepsUnrelated | src/components/reply/useMediaUploads.ts:77-88 | adding files leaves every item under another id as it was |
| ComposerUploads.AddEachCreates | src/components/reply/useMediaUploads.ts:77-88 | with distinct ids, every started upload is held as a fresh item at progress 0 with status Uploading |
| ComposerUploads.AddFiles | src/components/reply/useMediaUploads.ts:60-139 | no files or no free slot changes nothing; otherwise no more uploads start than there are free slots, and every started upload is an accepted file held under its id |
| ComposerUploads.AddFilesStarts | src/components/reply/useMediaUploads.ts:60-89 | every accepted file among the first free-slot-many picked starts an upload under its own id |
| ComposerUploads.AddFilesFrom | src/components/reply/useMediaUploads.ts:60-89 | every started upload is one of the first free-slot-many picked files, accepted, under its own id; later files never start |
| ComposerUploads.AtMostFourItems | src/components/reply/useMediaUploads.ts:62-65 | starting from at most four items, adding files never leaves more than four |
| ComposerUploads.OnProgress | src/components/reply/useMediaUploads.ts:91-107 | progress for a removed item is ignored; otherwise only that item's progress changes, and an uploading item becomes processing when the finalize phase is reported |
| ComposerUploads.OnSuccess | src/components/reply/useMediaUploads.ts:110-123 | success for a removed item is ignored; otherwise that item becomes uploaded with the media id, and nothing else changes |
| ComposerUploads.OnFailure | src/components/reply/useMediaUploads.ts:124-137 | failure for a removed item is ignored; otherwise only that item's status becomes Error |
| ComposerUploads.ProgressOnlyAdvances | src/components/reply/useMediaUploads.ts:95-98 | progress never moves an item back to uploading, and changes only an uploading item's status |
| ComposerUploads.RemoveItem | src/components/reply/useMediaUploads.ts:141-150 | removing drops exactly that item; an unknown id changes nothing |
| ComposerUploads.RemovedItemIgnoresUpdates | src/components/reply/useMediaUploads.ts:93-145 | once an item is removed, late progress, success or failure for it changes nothing |
| ComposerUploads.Clear | src/components/reply/useMediaUploads.ts:152-159 | clearing leaves no items |
| ComposerUploads.UploadedIds | src/components/reply/useMediaUploads.ts:167-171 | the ids read back are exactly the non-empty media ids of uploaded items |
| ComposerUploads.UploadedMediaIds | src/components/reply/useMediaUploads.ts:167-171 | the composer's media ids are exactly the non-empty media ids of the items that finished uploading |
| ComposerUploads.SucceededUploadIsReported | src/components/reply/useMediaUploads.ts:110-171 | after an upload succeeds with a non-empty id, that id is among the composer's media ids |
| ComposerUploads.ClearedIsIdle | src/components/reply/useMediaUploads.ts:152-171 | after clearing nothing is uploading and no media id is reported |
| MediaOverlay.FindKey | src/components/mediaOverlayProvider.tsx:90-93 | the position of the first item with the key, or -1 exactly when no item has it |
| MediaOverlay.OpenMedia | src/components/mediaOverlayProvider.tsx:87-105 | a non-empty group is shown as given, otherwise the payload alone; the position is the payload's key or 0, zoom is reset and the sidebar collapses |
| MediaOverlay.CloseMedia | src/components/mediaOverlayProvider.tsx:107-117 | closing empties the viewer, resets position and zoom and uncollapses the sidebar |
| MediaOverlay.Settle | src/components/mediaOverlayProvider.tsx:60-68 | the position is pulled back inside the items (0 for none); a state already in range is left alone and nothing else changes |
| MediaOverlay.ShowNext | src/components/mediaOverlayProvider.tsx:126-131 | with one item or none nothing changes; otherwise the position steps forward, wrapping from the last to the first, and zoom resets |
| MediaOverlay.ShowPrevious | src/components/mediaOverlayProvider.tsx:119-124 | with one item or none nothing changes; otherwise the position steps back, wrapping from the first to the last, and zoom resets |
| MediaOverlay.ActiveMedia | src/components/mediaOverlayProvider.tsx:179-182 | there is an active item exactly when there are items, and it is the one at the current position |
| MediaOverlay.NextUndoesPrevious | src/components/mediaOverlayProvider.tsx:119-131 | stepping back then forward, or forward then back, returns to the same position |
| MediaOverlay.NextSteps | src/components/mediaOverlayProvider.tsx:126-131 | k forward steps land at the start position plus k, modulo the number of items, and stay in range |
| MediaOverlay.RoundTrip | src/components/mediaOverlayProvider.tsx:126-131 | as many forward steps as there are items come back to the start |
| MediaOverlay.OpenShowsPayload | src/components/mediaOverlayProvider.tsx:87-105 | after opening, the active item has the payload's key when the group contains it, else it is the group's first item |
| MediaOverlay.CycleZoom | src/components/mediaOverlayProvider.tsx:170-173 | the zoom step advances by one and wraps from the last level back to the first |
| MediaOverlay.ClampZoom | src/components/mediaOverlayProvider.tsx:166-168 | the zoom step is held below the number of levels and never raised; a step in range is kept |
| MediaOverlay.Present | src/components/mediaOverlayProvider.tsx:382-384 | exactly the entries that are present are kept |
| MediaOverlay.PresentAppend | src/components/mediaOverlayProvider.tsx:382-384 | `filter(Boolean)` over two lists joined is the filter of each in turn, and one entry is kept exactly when present: the kept items come in their original order and number |
| MediaOverlay.OpenEventTarget | src/components/mediaOverlayProvider.tsx:378-391 | nothing is opened exactly when no entry is present; otherwise a present entry, the one with the requested key when there is one |
| MediaOverlay.HandleOpen | src/components/mediaOverlayProvider.tsx:377-393 | an event with no present entry leaves the viewer alone; otherwise the viewer shows the present entries, collapsed and unzoomed |
| MediaOverlay.OpenEventShowsRequested | src/components/mediaOverlayProvider.tsx:377-393 | an open event whose requested key is among its entries ends up showing an item with that key |
| DeletedCard.Usables | src/components/tweet/DeletedTweetCard.tsx:26-34 | exactly the entities with numeric indices and the end not before the start are kept, each as a span with start not after stop |
| DeletedCard.SortedSpans | src/components/tweet/DeletedTweetCard.tsx:26-35 | the usable spans, rearranged (same multiset) into order of their start |
| DeletedCard.Gap | src/components/tweet/DeletedTweetCard.tsx:43-48 | a plain segment for the text between the cursor and the span's start exactly when the cursor lies before it |
| DeletedCard.Piece | src/components/tweet/DeletedTweetCard.tsx:50-58 | no segment exactly when the span's slice is empty; otherwise one segment holding the slice, a link exactly when the span has a non-empty url |
| DeletedCard.Trailing | src/components/tweet/DeletedTweetCard.tsx:62-67 | the rest of the text after the cursor as one plain segment when the cursor lies before its end, otherwise nothing |
| DeletedCard.Walk | src/components/tweet/DeletedTweetCard.tsx:37-69 | every link segment produced has non-empty text and a non-empty url |
| DeletedCard.BuildSegments | src/components/tweet/DeletedTweetCard.tsx:18-70 | with no entities the whole text is one plain segment; link segments are never empty |
| DeletedCard.CardText | src/components/tweet/DeletedTweetCard.tsx:99 | the tombstone's own text when present, even empty, else the fixed deleted notice |
| DeletedCard.WalkSpellsText | src/components/tweet/DeletedTweetCard.tsx:37-69 | over in-text, non-overlapping spans the segments joined end to end spell the text from the cursor on |
| DeletedCard.SegmentsSpellText | src/components/tweet/DeletedTweetCard.tsx:18-70 | usable, in-text, non-overlapping entities in order give segments that spell back the whole text |
| TweetDom.FirstStatus | src/utils/tweetDom.ts:130 | the leftmost position where "status/" is followed by a digit, or none exactly when there is no such position |
| TweetDom.ParseTweetIdFromHref | src/utils/tweetDom.ts:126-132 | a missing or empty href gives nothing; otherwise nothing exactly when the pattern never matches, else the non-empty digit run at the leftmost match |
| TweetDom.IdAfter | src/utils/tweetDom.ts:130 | the id is a non-empty run of digits read from the text right after the marker and is maximal: the next character, if any, is not a digit |
| TweetDom.ParseStatusLink | src/utils/tweetDom.ts:126-132 | a link made of a prefix without a match, "status/", a digit id and a non-digit suffix gives back exactly that id |
| UserHoverCard.Avatar | src/components/tweet/UserHoverCard.tsx:29-38 | no avatar exactly when the user has no non-empty image url; otherwise the url with its first "_normal" turned into "_400x400" |
| UserHoverCard.AvatarIsLarge | src/components/tweet/UserHoverCard.tsx:29-38 | a profile url with one "_normal" marker is served at the 400x400 size with everything else unchanged |
| UserHoverCard.Names | src/components/tweet/UserHoverCard.tsx:40-46 | no user gives the unknown-user name and an empty handle; the name is the legacy one when present, else the core one, else the unknown-user name; the handle likewise, else empty |
| UserHoverCard.ShownCount | src/components/tweet/UserHoverCard.tsx:104-108 | a count is shown exactly when it is a finite, non-negative number, and then it is that number |
| UserHoverCard.Normalize | src/components/tweet/UserHoverCard.tsx:53-62 | one link per url entity with both indices, keys numbered consecutively in entity order |
| UserHoverCard.Plain | src/components/tweet/UserHoverCard.tsx:68-76 | a plain node with the next key exactly when the range is non-empty and its text is; the key counter moves only then |
| UserHoverCard.Walk | src/components/tweet/UserHoverCard.tsx:78-99 | plain nodes are never empty and their keys come from the running counter |
| UserHoverCard.DescriptionNodes | src/components/tweet/UserHoverCard.tsx:48-102 | an empty description gives no nodes; one without urls gives a single plain node with the whole description |
| UserHoverCard.WalkSpells | src/components/tweet/UserHoverCard.tsx:64-101 | over in-text, non-overlapping links the nodes' covered text spells the description from the cursor on |
| UserHoverCard.DescriptionSpelled | src/components/tweet/UserHoverCard.tsx:48-102 | with in-text, non-overlapping url entities the nodes spell back the whole description |
| UserHoverCard.InitialFollow | src/components/tweet/UserHoverCard.tsx:127-131 | the button starts following exactly when the relationship says following, not hovered and not fresh from a follow |
| UserHoverCard.FollowLabel | src/components/tweet/UserHoverCard.tsx:213-217 | "follow" when not following; "unfollow" only while hovered and not right after following; "following" otherwise |
| UserHoverCard.LeaveButton | src/components/tweet/UserHoverCard.tsx:166-169 | leaving the button clears the hover and the just-followed flag and keeps the following state |
| UserHoverCard.BeginFollow | src/components/tweet/UserHoverCard.tsx:218-232 | without a user id nothing happens; otherwise the state flips at once, a follow marks the just-followed flag, and the request is an unfollow exactly when the user was followed |
| UserHoverCard.FinishFollowAsWritten | src/components/tweet/UserHoverCard.tsx:233-236 | the program's settling: success keeps the state, failure sets it to the flipped value again |
| UserHoverCard.AsWrittenKeepsFailedFollow | src/components/tweet/UserHoverCard.tsx:218-236 | a failed follow still shows the user as followed, differing from the state before the click |
| UserHoverCard.FinishFollow | src/components/tweet/UserHoverCard.tsx:233-236 | success keeps the state; failure restores the following state from before the click and nothing else |
| UserHoverCard.FailedFollowRollsBack | src/components/tweet/UserHoverCard.tsx:218-236 | with the rollback, a click ends flipped exactly when its request succeeded |
| UserHoverCard.NoUnfollowRightAfterFollow | src/components/tweet/UserHoverCard.tsx:162-232 | right after following, the hovered button says "following"; only after leaving and re-entering does it offer "unfollow" |
| TweetCard.CardString | src/components/tweet/tweetText.tsx:106-119 | the non-empty string value, else the non-empty scribe key, else nothing; nothing for a missing key |
| TweetCard.FirstString | src/components/tweet/tweetText.tsx:130-134 | the string of the first key that has one, every earlier key having none; nothing exactly when no key has one |
| TweetCard.FirstImage | src/components/tweet/tweetText.tsx:149-161 | the non-empty image url of the first key that has one, every earlier key having none; nothing exactly when no key has an image url |
| TweetCard.FindMatch | src/components/tweet/tweetText.tsx:164-178 | a found entity is one of the tweet's urls and matches the raw url (or only the vanity url when there is no raw url); none found means none matches |
| TweetCard.MatchedEntity | src/components/tweet/tweetText.tsx:164-178 | with neither a raw nor a vanity url no entity is matched |
| TweetCard.AsLink | src/components/tweet/tweetText.tsx:182-189 | a url starting with "http" is kept, any other gets "https://" in front |
| TweetCard.ResolveHref | src/components/tweet/tweetText.tsx:180-194 | the entity's expanded or unwound url first, then the raw url, the vanity url and the domain, each only when the earlier gave nothing non-empty; none exactly when all are empty |
| TweetCard.CardMap | src/components/tweet/tweetText.tsx:92-104 | bindings given as a record throw; no card, no bindings or no usable binding give no card; a map given is non-empty |
| TweetCard.ExtractCardInfo | src/components/tweet/tweetText.tsx:91-208 | throws exactly when the bindings are a record; a found card has a non-empty link, the title and description bindings, the card's name, and an image exactly when some image key has a url |
| TweetCard.CardFollowsEntity | src/components/tweet/tweetText.tsx:163-206 | a card whose card_url is the url of the tweet's url entity links to that entity's expanded url and reports the card url as raw |
| RichText.FullTextAndEntities | src/components/tweet/tweetText.tsx:21-62 | a note tweet with text wins, shown whole with its own entities or the legacy ones; otherwise the legacy text with its display range or the whole text; quote link and media from the legacy tweet, extended media first |
| RichText.NoteText | src/components/tweet/tweetText.tsx:31-35 | the note tweet's text is taken only when it is non-empty |
| RichText.Push | src/components/tweet/tweetText.tsx:237-250 | an entity is recorded exactly when it has indices with the end after the start, and then with those indices, kind, link and label |
| RichText.UrlEntry | src/components/tweet/tweetText.tsx:252-269 | a url whose url, expanded, unwound or display form is to be skipped becomes a skip range; others link to expanded, display or short url and show display, expanded or short url |
| RichText.UrlEntries | src/components/tweet/tweetText.tsx:252-269 | at most one entry per url entity, each a url link or a skip range |
| RichText.UrlEntriesAppend | src/components/tweet/tweetText.tsx:252-269 | url entries come in the order of the url entities: the entries of a concatenation are the concatenated entries, and one url entity gives exactly its own entry |
| RichText.MentionEntry | src/components/tweet/tweetText.tsx:271-275 | a mention with a forward range becomes one mention link to `https://twitter.com/` plus its screen name (empty when missing), without a label; any other gives nothing |
| RichText.MentionEntries | src/components/tweet/tweetText.tsx:271-275 | at most one mention entry per mention, never with its own label |
| RichText.MentionEntriesAppend | src/components/tweet/tweetText.tsx:271-275 | mention entries come in the order of the mentions, and one mention gives exactly its own entry |
| RichText.HashtagEntry | src/components/tweet/tweetText.tsx:277-282 | a hashtag with a forward range becomes one hashtag link to its encoded text's hashtag page with `?src=hashtag_click`; any other gives nothing |
| RichText.HashtagEntries | src/components/tweet/tweetText.tsx:277-282 | at most one hashtag entry per hashtag |
| RichText.HashtagEntriesAppend | src/components/tweet/tweetText.tsx:277-282 | hashtag entries come in the order of the hashtags, and one hashtag gives exactly its own entry |
| RichText.CashtagEntry | src/components/tweet/tweetText.tsx:284-297 | a symbol with a forward range becomes one cashtag link to the `%24` search for its encoded text (empty when missing) with `&src=cashtag_click`; a symbol without indices, or with a range that does not move forward, gives nothing |
| RichText.CashtagEntries | src/components/tweet/tweetText.tsx:284-297 | at most one cashtag entry per symbol |
| RichText.CashtagEntriesAppend | src/components/tweet/tweetText.tsx:284-297 | cashtag entries come in the order of the symbols, and one symbol gives exactly its own entry |
| RichText.SkipUrls | src/components/tweet/tweetText.tsx:220-235 | the quote link, when non-empty, is skipped, and no skipped url is empty |
| RichText.MediaUrls | src/components/tweet/tweetText.tsx:222-224 | exactly the non-empty urls of the media items |
| RichText.Collected | src/components/tweet/tweetText.tsx:252-297 | every collected entity ends after it starts; no entities give none; the list is its url and skip block, then its mentions, then its hashtags, then its cashtags |
| RichText.CollectedByKind | src/components/tweet/tweetText.tsx:252-297 | each kind's block of the collected list is exactly the entries of the tweet's entities of that kind, in their order |
| RichText.Plain | src/components/tweet/tweetText.tsx:305-314 | a text node with the next key exactly when the range is non-empty and its text is; the key counter moves only then |
| RichText.Walk | src/components/tweet/tweetText.tsx:316-339 | text nodes are never empty; skip ranges give no node and every link key lies among the walked entities' positions |
| RichText.WalkLinksSound | src/components/tweet/tweetText.tsx:316-339 | every link node is keyed by the position of the entity it renders: same kind and target, and that entity overlaps the display range |
| RichText.WalkLinksComplete | src/components/tweet/tweetText.tsx:316-339 | every entity that is not skipped and overlaps the display range gets a link node keyed by its position |
| RichText.SortedEntities | src/components/tweet/tweetText.tsx:299 | the collected entities, rearranged (same multiset) into order of their start |
| Sorting.SortByStable | src/components/tweet/tweetText.tsx:299 | the sort is stable: the elements with any one key come out in the order they went in |
| RichText.NodesOf | src/components/tweet/tweetText.tsx:301-343 | the nodes of a source never hold an empty text node |
| RichText.BuildRichTextNodes | src/components/tweet/tweetText.tsx:210-344 | empty text gives no nodes; otherwise the build fails exactly when reading the card throws; text nodes are never empty |
| RichText.WalkSpellsVisible | src/components/tweet/tweetText.tsx:316-341 | over entities inside the range that do not overlap, the nodes spell the visible text: the range with skipped urls cut out |
| RichText.VisibleWithoutSkips | src/components/tweet/tweetText.tsx:316-341 | with no skip ranges the visible text is the whole range |
| RichText.NodesSpellDisplay | src/components/tweet/tweetText.tsx:210-344 | a tweet's nodes spell its visible text, and the whole display range when nothing is skipped |
| RichText.DisplaySpelled | src/components/tweet/tweetText.tsx:301-343 | the walk from the range start spells the visible text, and the whole range when nothing is skipped |
| RichText.ExtractName | src/components/tweet/tweetText.tsx:361-377 | the legacy name and handle are preferred; no user gives the unknown-user name and "unknown"; no name anywhere gives the unknown-user name |
| RichText.RoundDiv | src/components/tweet/tweetText.tsx:387-391 | the quotient rounded to the nearest whole number, halves going up |
| RichText.DateDiff | src/components/tweet/tweetText.tsx:379-392 | the unit is seconds, minutes, hours or days by the whole-second difference's size, and the value is that difference in the unit, rounded to nearest |
| RichText.DateDiffSymmetric | src/components/tweet/tweetText.tsx:379-392 | the difference does not depend on which date comes first |
| RichText.RelativeTime | src/components/tweet/tweetText.tsx:394-426 | "now" exactly under a minute; minutes, hours or up to three days as a count; a calendar date exactly beyond three days |

## Left out

- Transport and I/O are not modelled: `window.postMessage`, `addEventListener`, `fetch`, `XMLHttpRequest` and the prototype patching of the request interceptor. An envelope is a datatype, and an HTTP reply is a status with a parsed body.
- Foreign libraries are parameters or left out, because their code is not part of this model: the `x-client-transaction-id` signer, `twitter-text` weighting, `twemoji` rendering, `he` decoding and `DOMParser`.
- Timers and clocks are not modelled: `setTimeout`, `sleep`, the hover-card timers and the waits between processing polls. `Date.now()` is the `now` parameter, and a wait appears only as its computed duration in milliseconds.
- Random request ids and upload ids are supplied as parameters (`nonce`, `ids`), because `Math.random` is not a function of its inputs.
- Floating point and `Intl` are left out:
  - the overlay's zoom factors (`Math.pow`), of which only the number of levels enters;
  - `Intl.NumberFormat` and `Intl.DateTimeFormat` text, including the calendar date `formatDateTime` prints beyond three days;
  - `formatTimeRemaining`, the poll percentages beyond the highlight-width bounds, and `extractViews`;
  - the geometry of `useFlip`.
  Progress values and widths are `real`. JavaScript numbers used as ids or counts are integers.
- URL and JSON parsing are left out: `new URL`, `JSON.parse` and `decodeURIComponent` in `parseTemplateFromRequest`, and `getHighResolutionUrl`. A tweet-detail template therefore arrives already parsed. The relative-URL branch of the poll endpoint resolution is a parameter.
- Percent-encoding of query strings and form bodies is left out. A query or form is its list of name/value pairs, and `encodeURIComponent` is a parameter where it builds a link.
- Message type strings on the wire are an enumeration, since their values come from a constant table.
- DOM, layout and rendering are left out: all JSX, `tweetDom.ts` apart from `parseTweetIdFromHref`, the click handlers, the resize, scroll and colour-scheme hooks, card image sizes, image preloading and panning in the viewer, and preview object URLs.
- Listeners and `emit` of the sidebar store are left out. The store is a value and each operation returns the next one.
- Exceptions thrown by `localStorage` are not modelled. The stored width is read through the `raw` and `toNumber` parameters.
- Only the completion report of each upload chunk is modelled. The XHR `onprogress` events in the middle of a chunk only repeat the same arithmetic with a smaller loaded count.
- The forced `requestTweetDetail` that follows a successful toggle or vote is left out. It is the detail handler's own request, modelled there.
- The text of the sidebar status line (`formatStatus`) is rendering and is left out. The status value itself is modelled.
- Letter case is folded for ASCII letters only. `trim` removes exactly the WhiteSpace and LineTerminator characters of ECMA-262 (sections 12.2 and 12.3).
- Strings are sequences of code points. The program's `Array.from` counts code points too, but `String.length` and `slice` count UTF-16 units. The two agree for text without astral characters, and the model assumes such text.
- Tombstones are never created by any file modelled here: nothing calls `storeDeletedTweet`. Only the tombstone store's get and put, and how the timeline reads it, are modelled.
- `hasEnded` of a poll compares a parsed date with the clock. It is a parameter of `TweetPoll`.
- RememberAvatarById: it stores the url through the corrected `normalizeAvatarUrl`, so a `_normal`, `_bigger` or `_x96` suffix becomes the `_size` placeholder. The program as written stores the url unchanged (see "## Findings"). The as-written normaliser is `NormalizeAvatarUrlAsWritten`, and `AsWrittenIgnoresRequestedSize` shows what a lookup then returns.
- MediaUpload.WaitForProcessing: the program polls the processing status without bound. The model is driven by a finite list of STATUS replies and reports `Unfinished` when they run out.
- RelatedTweets.Expand: the upward and downward walks have no visited set in the program and would not end on a cycle of reply links. The model walks at most `fuel` steps, so its reachability lemma covers ancestors and replies within that depth.
- ThreadPrune.BuildAuthorSpine: the spine walk has no bound in the program. The model stops after `fuel` steps.
- SidebarTimeline.Ancestors: the ancestor loop has no cycle guard in the program. The model follows at most `fuel` parents.
- SidebarController.BuildSnapshot: it inherits the `fuel` bound of the related-tweet expansion.
- TweetPoll.RoundedPercent: it rounds the exact share `part / total` to the nearest whole percent, halves up. The program rounds the double `part / total * 100`, whose error can land a share just below a half: for 23 of 40 votes the double is 57.49999999999999, so the program shows 57 where the model gives 58.
- TweetPoll.HighlightIsShare: it inherits the exact rounding of `RoundedPercent`, so it can differ from the program's double rounding by one percent on such shares.
- Conversation.SectionLabel: the program looks the label up on an object literal, so a section named after an inherited property such as `constructor` would return that property rather than the fallback label. The section type admits only the five known names and `Unsorted`, so the model's lookup is a plain map and does not carry prototype properties.
- HeaderUtils.FindCookie: `decodeURIComponent` is the total `decode` parameter. The URIError the program throws on a malformed `%` escape in a cookie value is not modelled.

## Findings

| source | as written | input that shows it | evidently intended | confidence | as-written member | corrected member |
|---|---|---|---|---|---|---|
| src/store/avatarStore.ts:47-56 | `normalizeAvatarUrl` returns the replacement from inside a `forEach` callback, so the url comes back unchanged and the `_size` placeholder never gets stored | an author avatar `a_normal.jpg`, looked up at size `x96`, comes back as `a_normal.jpg` | the size suffix becomes the placeholder, so a lookup serves `a_x96.jpg` | not executed | AvatarStore.AsWrittenIgnoresRequestedSize | AvatarStore.RememberedAvatarServesEverySize |
| src/components/tweet/UserHoverCard.tsx:233-236 | when the follow request fails, the catch sets the following state to the optimistic value again instead of the previous one | following a user when the friendship request is rejected: the button still says "following" | a failed request restores the state from before the click | not executed | UserHoverCard.AsWrittenKeepsFailedFollow | UserHoverCard.FailedFollowRollsBack |
