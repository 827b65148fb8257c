# devtalkx: the connection-request ledger and the code around it

devtalkx is a developer-matching site. Users swipe on each other (`ignored` or
`interested`), the recipient of a pending request accepts or rejects it, and accepted pairs
are "connections" who can chat in a private socket room. This project models, in Dafny:

- the connection-request record and its `save()` rules;
- the newer server's swipe and review handlers on an in-memory ledger;
- the older server's variants of the same handlers;
- the read-side queries over the ledger (received requests, connections, the discovery feed)
  and the profile-edit whitelist, in both servers;
- the post handlers and the post record rules;
- the community-message record rules;
- the private-chat socket handlers (secret room id, join, send, disconnect);
- the client's chat reducer;
- the database connection-string pipeline and the connect-error classifier.

Each handler that changes a store is a step function on a value of that store. The lemmas
are about these functions. A class holds the store's fields, and its methods change them in
place. Each method's `ensures` ties its result and new state to the step function and keeps
the store's invariant. Handlers that only read the store are functions. The two loops in the
source (the profile-edit `forEach` and the feed's hide-set `forEach`) are methods with loops.

What the environment decides becomes a parameter:

- the set of existing user ids;
- whether a user or a chat update is accepted by the store (`saveOk`, `storeOk`);
- the current time (`now`);
- the environment variables;
- the error message of a failed connection (`connectError`).

SHA-256 is not computed. A room id is the symbolic digest `Sha256Hex(preimage)`, so it
depends only on the two user ids, and two ids are equal exactly when their preimages are.
`parseInt` results are `Option<int>`, with None for NaN.

Modules, one per source file, plus four shared helpers:

| module | file | models |
|---|---|---|
| `Wrappers` | wrappers.dfy | Option and Result |
| `JsStrings` | js_strings.dfy | `trim`, `\s` removal, `includes`, `replace`, `startsWith`, `sort` order on strings, `join` |
| `MongoQuery` | mongo_query.dfy | `.skip(n).limit(m)` |
| `Pagination` | pagination.dfy | `page`, `limit` and `skip` from the query string |
| `ConnectionRequestModel` | connection_request.dfy | back/src/models/connectionRequest.js |
| `RequestRoutes` | request_routes.dfy | back/src/routes/request.js |
| `LegacyRequestRoutes` | legacy_requests.dfy | src/routes/requests.js |
| `UserRoutes` | user_routes.dfy | back/src/routes/user.js |
| `LegacyUserRoutes` | legacy_user_routes.dfy | src/routes/user.js |
| `PostModel` | post_model.dfy | back/src/models/post.js |
| `PostRoutes` | post_routes.dfy | back/src/routes/post.js |
| `CommunityMessageModel` | community_message.dfy | back/src/models/communityMessage.js |
| `ChatSocket` | chat_socket.dfy | back/src/utils/socket.js |
| `ChatSlice` | chat_slice.dfy | devtalkx-frontend/src/utils/chatSlice.js |
| `Database` | database.dfy | back/src/config/database.js |

## Model

| member | source | states |
|---|---|---|
| ConnectionRequestModel.ParseStatus | back/src/models/connectionRequest.js:15-22 | the enum check accepts exactly the four status names, and the parsed status has that name |
| ConnectionRequestModel.ParseStatusName | back/src/models/connectionRequest.js:15-22 | parsing a status's name gives that status back (round trip) |
| ConnectionRequestModel.FieldErrors | back/src/models/connectionRequest.js:5-22 | no validation error exactly when both user ids and a valid status are present; a missing `fromUserId` or `toUserId` is reported as required |
| ConnectionRequestModel.Save | back/src/models/connectionRequest.js:3-37 | `save()` succeeds exactly when validation passes and `from != to`; the stored record carries the draft's fields and the given id; a valid self-request fails in the pre-save hook; no stored record is a self-pair |
| ConnectionRequestModel.SaveAcceptsBothDirections | back/src/models/connectionRequest.js:28-37 | the `{fromUserId, toUserId}` index is not unique, and `save()` accepts a record for a pair in both directions, so one record per pair is left to the routes |
| RequestRoutes.FindPair | back/src/routes/request.js:34-39 | the duplicate query finds a record of the pair in either direction, and finds none exactly when no such record exists |
| RequestRoutes.FindReverseInterested | back/src/routes/request.js:51-55 | a found record is a pending request from the target to the actor, and none is found only when no such request is stored |
| RequestRoutes.FindReviewable | back/src/routes/request.js:115-120 | a found record has the id, is addressed to the reviewing user and is `interested`; none found means no record matches all three |
| RequestRoutes.SetStatusById | back/src/routes/request.js:115-123 | the update changes the status of the record with that id and nothing else |
| RequestRoutes.StatusChangePreservesValid | back/src/routes/request.js:115-123 | a status change keeps the ledger invariant: distinct ids, no self-pair, one record per pair |
| RequestRoutes.ParseSwipe | back/src/routes/request.js:22-28 | a swipe status is exactly `ignored` or `interested`, and is also a valid record status |
| RequestRoutes.SendRejectsSelfPair | back/src/routes/request.js:15-20 | a swipe on oneself fails with 400 and leaves the ledger unchanged |
| RequestRoutes.SendRejectsBadStatus | back/src/routes/request.js:22-28 | a status other than `ignored`/`interested` fails with 400 and leaves the ledger unchanged |
| RequestRoutes.SendRejectsUnknownUser | back/src/routes/request.js:31-32 | a swipe on a user that does not exist fails with 404 and leaves the ledger unchanged |
| RequestRoutes.SendRejectsExistingPair | back/src/routes/request.js:34-46 | any record of the pair, in either direction and with any status, makes the swipe fail with 400 and leaves the ledger unchanged |
| RequestRoutes.ReverseInterestedIsPair | back/src/routes/request.js:34-55 | a pending reverse request is always a record of the pair, so the duplicate check sees it |
| RequestRoutes.SendNeverMatches | back/src/routes/request.js:34-77 | as written, a send never reports a match and a failed send changes nothing: the instant-match branch is unreachable |
| RequestRoutes.SendInsertsOne | back/src/routes/request.js:15-94 | a send succeeds exactly when the four checks pass; it then appends exactly one record `{fresh id, actor, target, status}` and changes no other record |
| RequestRoutes.SendPreservesValid | back/src/routes/request.js:81-94 | a send keeps the ledger invariant, in particular at most one record per pair |
| RequestRoutes.MutualInterestRefused | back/src/routes/request.js:34-77 | A is interested in B, then B swipes `interested` on A: as written, the second swipe gets 400 "already in the pipeline" and nothing is accepted |
| RequestRoutes.SendIntendedPreservesValid | back/src/routes/request.js:48-94 | the corrected send, with the match check before the duplicate check, keeps the ledger invariant |
| RequestRoutes.IntendedMatchesWhenPending | back/src/routes/request.js:48-77 | with the corrected send, an `interested` swipe reports a match exactly when the target exists and has a pending request to the actor; the match accepts that stored request and adds no record |
| RequestRoutes.MutualInterestMatches | back/src/routes/request.js:48-77 | with the corrected send, the same scenario ends in a match: A's record becomes accepted and no second record is made |
| RequestRoutes.FindReverseAppend | back/src/routes/request.js:51-55 | the mutual-interest query over a ledger with one more record finds that record exactly when it is a pending reverse request |
| RequestRoutes.ParseDecision | back/src/routes/request.js:106-112 | a review decision is exactly `accepted` or `rejected`, and is also a valid record status |
| RequestRoutes.ReviewRejectsBadDecision | back/src/routes/request.js:106-112 | any other decision fails with 400 and leaves the ledger unchanged |
| RequestRoutes.ReviewSucceedsIff | back/src/routes/request.js:114-136 | a review succeeds exactly when a record has that id, is addressed to the reviewing user and is pending; it then sets only that record's status to the decision; every other case gets the single 404 and changes nothing |
| RequestRoutes.SettledNotReviewable | back/src/routes/request.js:115-130 | an ignored, accepted or rejected record can never be reviewed |
| RequestRoutes.SecondReviewFails | back/src/routes/request.js:115-130 | after one successful review of a request, a second review of it gets the 404, whoever sends it |
| RequestRoutes.ReviewPreservesValid | back/src/routes/request.js:115-123 | a review keeps the ledger invariant |
| RequestRoutes.RunPreservesValid | back/src/routes/request.js:8-140 | any sequence of swipes and reviews keeps the ledger invariant |
| RequestRoutes.AtMostOneRecordPerPair | back/src/routes/request.js:34-46 | from an empty store, every pair of users ends up with at most one record, and no record is a self-pair |
| RequestRoutes.ConnectionStore.constructor | back/src/routes/request.js:1-5 | the collection starts empty |
| RequestRoutes.ConnectionStore.Send | back/src/routes/request.js:8-98 | the in-place send returns and stores what `SendStep` gives and keeps the invariant; a success appends one record with no match, a failure changes nothing |
| RequestRoutes.ConnectionStore.Review | back/src/routes/request.js:101-140 | the in-place review returns and stores what `ReviewStep` gives and keeps the invariant; a failure changes nothing |
| LegacyRequestRoutes.PlaceholderReply | src/routes/requests.js:7-24 | the placeholder endpoint always replies `success: true`; it takes no store, so it changes nothing |
| LegacyRequestRoutes.LegacySendFailuresAre400 | src/routes/requests.js:35-62 | every failure of the variant send is a 400 and leaves the ledger unchanged |
| LegacyRequestRoutes.LegacyUnknownUserIs400 | src/routes/requests.js:41-45 | an unknown target is a 400 here, while the newer handler answers 404 |
| LegacyRequestRoutes.LegacySelfSendRefusedBySave | src/routes/requests.js:64-70 | the variant has no self-pair guard; a swipe on oneself is refused only by the pre-save hook, with 400 |
| LegacyRequestRoutes.LegacySendAgrees | src/routes/requests.js:26-92 | the variant send stores a record exactly when the newer one does, and the same record: the two differ only in their error paths, and the variant has no match branch |
| LegacyRequestRoutes.LegacySendPreservesValid | src/routes/requests.js:64-70 | the variant send keeps the ledger invariant |
| LegacyRequestRoutes.PendingFrom | src/routes/requests.js:108-112 | the lookup finds a pending request from the given sender to the reviewing user, and none found means none exists |
| LegacyRequestRoutes.LegacyReviewKeyedBySender | src/routes/requests.js:94-133 | the variant review succeeds exactly when the decision is valid and a pending request FROM `requestId` to me exists; a failure is a 400 that changes nothing; a success changes only that record's status |
| LegacyRequestRoutes.InterleavedReviewsBothSucceed | src/routes/requests.js:108-119 | read and write are separate steps: two reviews whose reads both come first both succeed, and the later write replaces the earlier decision |
| LegacyRequestRoutes.LegacyReviewPreservesValid | src/routes/requests.js:108-119 | the variant review keeps the ledger invariant |
| LegacyRequestRoutes.LegacyConnectionStore.constructor | src/routes/requests.js:1-5 | the collection starts empty |
| LegacyRequestRoutes.LegacyConnectionStore.Send | src/routes/requests.js:26-92 | the in-place variant send returns and stores what `LegacySendStep` gives, and keeps the invariant |
| LegacyRequestRoutes.LegacyConnectionStore.Review | src/routes/requests.js:94-133 | the in-place variant review does the read and then the write, returns and stores what `LegacyReviewStep` gives, and keeps the invariant |
| UserRoutes.WhitelistProtects | back/src/routes/user.js:26-30 | a field outside `ALLOWED_UPDATES`, or one the body does not name, is exactly as before the edit |
| UserRoutes.WhitelistCopies | back/src/routes/user.js:26-30 | a whitelisted key of the body sets its field to the body's value |
| UserRoutes.UserDocument.constructor | back/src/routes/user.js:25 | the document holds the given fields |
| UserRoutes.UserDocument.EditProfile | back/src/routes/user.js:23-37 | the loop copies the whitelisted keys onto the document; the reply is 200 with the edited document and the store updated, or 400 with the store unchanged |
| UserRoutes.Received | back/src/routes/user.js:45-48 | the received requests are exactly the records addressed to me that are `interested` |
| UserRoutes.AcceptedWith | back/src/routes/user.js:65-70 | the rows are exactly the accepted records where I am the sender or the recipient |
| UserRoutes.MapCounterparts | back/src/routes/user.js:71-79 | the map fails exactly when some row's sender has no user document; otherwise each entry is its row's counterpart (`to` when I am `from`, else `from`), populated |
| UserRoutes.ConnectionsAreCounterparts | back/src/routes/user.js:61-85 | over a valid ledger, every connection is another user who has an accepted record with me, and every accepted record of mine whose other user exists shows up |
| UserRoutes.Involving | back/src/routes/user.js:100-102 | the query finds exactly the records where I am the sender or the recipient |
| UserRoutes.EndsOfInvolving | back/src/routes/user.js:104-108 | both ends of each such record are me or someone with a record with me |
| UserRoutes.HideSet | back/src/routes/user.js:104-111 | the loop's hide set is exactly me plus everyone who has a record with me in either direction |
| UserRoutes.NotIn | back/src/routes/user.js:114-116 | `$nin` keeps exactly the users outside the hide set, in store order |
| UserRoutes.NotInAppend | back/src/routes/user.js:114-116 | the `$nin` filter of two stretches of the store is the filter of each in turn; with the membership contract this keeps the users in store order |
| UserRoutes.NotInAgree | back/src/routes/user.js:114-116 | the filter depends only on which listed users are in the hide set |
| UserRoutes.Unseen | back/src/routes/user.js:114-116 | the unseen users are exactly those that are neither me nor share a record with me |
| UserRoutes.UnseenAppend | back/src/routes/user.js:114-116 | the unseen list of two stretches of the store is the unseen list of each in turn, so the feed lists the unseen users in store order |
| UserRoutes.Feed | back/src/routes/user.js:89-125 | the feed method, built on its hide-set loop, returns the page of unseen users that `FeedResult` defines |
| UserRoutes.NotInHideSet | back/src/routes/user.js:114-116 | two hide sets that agree on the users select the same users |
| UserRoutes.FeedHidesKnownUsers | back/src/routes/user.js:94-119 | the feed fails exactly when the skip is negative; otherwise it never shows me or anyone with a record with me, and lists at most `limit` users |
| UserRoutes.FeedCoversUnseen | back/src/routes/user.js:94-119 | with the default page size, every unseen user is on the page whose window covers it |
| LegacyUserRoutes.ReceivedReply | src/routes/user.js:20-33 | the reply is 200 with `success: true` and exactly the pending requests addressed to me |
| LegacyUserRoutes.ConnectionsReply | src/routes/user.js:43-77 | the reply is always 200; `success` holds exactly when the mapping succeeds, and then the data is the connections |
| LegacyUserRoutes.LegacyHideSet | src/routes/user.js:94-99 | the variant's hide set is everyone with a record with me, plus me only when I have some record |
| LegacyUserRoutes.NotInNorSelf | src/routes/user.js:101-112 | the `$and` of `$nin` and `$ne` keeps exactly the users outside the hide set other than me |
| LegacyUserRoutes.NotInNorSelfIsUnseen | src/routes/user.js:94-112 | the variant's way of leaving me out selects the same users, in the same order, as the newer feed |
| LegacyUserRoutes.NotInNorSelfAsNotIn | src/routes/user.js:101-112 | the two conditions equal one `$nin` over the hide set with me added |
| LegacyUserRoutes.LegacyFeed | src/routes/user.js:79-128 | the variant feed lists exactly what the newer feed lists; a store error is a 400 with `success: false` |
| PostModel.PostErrors | back/src/models/post.js:5-20 | no validation error exactly when there is an author, a trimmed title that is non-empty and at most 100 characters, and content that is non-empty and at most 2000 |
| PostModel.ValidatePost | back/src/models/post.js:3-37 | validation fails exactly on those errors; a stored post has the trimmed title, and tags `[]`, photoUrl `""` and linkUrl `""` when absent |
| PostModel.StoredPostShape | back/src/models/post.js:10-20 | every stored title is non-empty, has at most 100 characters and neither starts nor ends with whitespace; stored content is non-empty and has at most 2000 |
| PostModel.BlankTitleIsMissing | back/src/models/post.js:10-15 | a title of whitespace only is trimmed to "" and refused as missing |
| PostRoutes.InsertByDate | back/src/routes/post.js:16 | inserting into a newest-first list keeps it newest first and adds exactly the one post |
| PostRoutes.NewestFirst | back/src/routes/post.js:16 | `sort({createdAt: -1})` gives a newest-first permutation of the posts |
| PostRoutes.ExploreOrderedAndBounded | back/src/routes/post.js:9-18 | the explore limit is between 1 and 50 unless negative; the query fails exactly when the skip is negative; a page is newest first, holds only stored posts and at most `limit` of them |
| PostRoutes.ByAuthor | back/src/routes/post.js:30 | the filter keeps exactly the posts whose author is me |
| PostRoutes.MyPostsExactlyMine | back/src/routes/post.js:27-38 | "my posts" are exactly the stored posts whose author is me, newest first |
| PostRoutes.CreateRequiresTitleAndContent | back/src/routes/post.js:46-48 | a missing or empty title or content is refused with 400 and nothing is stored |
| PostRoutes.CreateStoresOne | back/src/routes/post.js:41-71 | a create stores exactly one post, answered with 201, exactly when the checks and the record rules pass; its author is me, its title is trimmed and its tags default to []; any refusal is a 400 that stores nothing |
| PostRoutes.BlankTitleRefusedAtSave | back/src/routes/post.js:46-59 | a title of spaces passes the handler's own check but is refused with 400 by the record rules |
| PostRoutes.CreatePreservesValid | back/src/routes/post.js:50-59 | a create keeps post ids distinct and below the next fresh id |
| PostRoutes.FindPost | back/src/routes/post.js:79 | `findById` finds the post with that id, or none exists |
| PostRoutes.RemoveById | back/src/routes/post.js:89 | `findByIdAndDelete` removes exactly the posts with that id |
| PostRoutes.DeleteOnlyByAuthor | back/src/routes/post.js:74-94 | an unknown id is a 404 and someone else's post a 403, both changing nothing; the author's delete removes exactly that post and keeps every other |
| PostRoutes.DeletePreservesValid | back/src/routes/post.js:89 | a delete keeps post ids distinct and below the next fresh id |
| PostRoutes.PostStore.constructor | back/src/routes/post.js:4 | the collection starts empty |
| PostRoutes.PostStore.Create | back/src/routes/post.js:41-71 | the in-place create returns and stores what `CreateStep` gives, and keeps the invariant |
| PostRoutes.PostStore.Save | back/src/routes/post.js:50-70 | building the document and saving it returns and stores what `SaveStep` gives for the record rules' verdict: a refusal stores nothing, an accepted post is stored |
| PostRoutes.PostStore.Store | back/src/routes/post.js:59 | the insert appends the post under the next fresh id and keeps the invariant |
| PostRoutes.PostStore.Delete | back/src/routes/post.js:74-94 | the in-place delete returns and stores what `DeleteStep` gives, and keeps the invariant |
| CommunityMessageModel.ParseMessageType | back/src/models/communityMessage.js:15-19 | the enum check accepts exactly `text`, `file` and `gif` |
| CommunityMessageModel.MessageTypeRoundTrip | back/src/models/communityMessage.js:15-19 | parsing a type's name gives that type back |
| CommunityMessageModel.ValidateMessage | back/src/models/communityMessage.js:3-34 | a message is stored exactly when it has a sender, a text of at most 1000 characters (or none) and a known type (or none); text defaults to "", type to text, and the four attachment fields are kept as given, with no default |
| CommunityMessageModel.SenderOnlyDefaults | back/src/models/communityMessage.js:10-19 | a message with only a sender is a text message with empty text and no attachment |
| CommunityMessageModel.EmptyTypeRefused | back/src/models/communityMessage.js:15-19 | an explicitly empty type is not the default and fails the enum check |
| ChatSocket.SecretRoomIdSymmetric | back/src/utils/socket.js:7-12 | both users of a pair compute the same room id |
| ChatSocket.DollarJoinInjective | back/src/utils/socket.js:10 | two `$`-free strings joined by `$` can be split back apart |
| ChatSocket.SecretRoomIdSeparatesPairs | back/src/utils/socket.js:7-12 | for ids without `$`, two pairs share a room exactly when they are the same unordered pair |
| ChatSocket.DollarIdsCanShareRoom | back/src/utils/socket.js:10 | ids containing `$` can collide: ("a$b", "c") and ("a", "b$c") get one room |
| ChatSocket.JoinOnlyPairRoom | back/src/utils/socket.js:26-30 | a falsy id changes nothing; otherwise the socket is added to exactly the pair's room |
| ChatSocket.SendBlankIsSilent | back/src/utils/socket.js:41 | missing or whitespace-only text changes no thread and emits nothing |
| ChatSocket.SendAppendsOne | back/src/utils/socket.js:44-60 | a stored message is appended as `{senderId: userId, text}` to the end of the pair's thread, created if absent, with no other thread changed; then one `messageReceived` with that sender and text goes to the sockets in the pair's room; for a message to oneself the thread is `{u}` (see "## Left out") |
| ChatSocket.SendStoreFailureOnlyErrors | back/src/utils/socket.js:62-65 | a failed store update sends the error event to the sending socket only; no thread changes and no broadcast happens |
| ChatSocket.SendBroadcastIffStored | back/src/utils/socket.js:35-66 | a room broadcast happens exactly when the message was stored; a send adds at most one emission and never removes a message |
| ChatSocket.DisconnectedSocketIgnored | back/src/utils/socket.js:75-78 | after `disconnect` the socket's later events change nothing, and it is in no room |
| ChatSocket.ApplyHubPreservesValid | back/src/utils/socket.js:24-79 | each handler keeps every room's members among the connected sockets |
| ChatSocket.RunHubPreservesValid | back/src/utils/socket.js:24-79 | over any run of events a broadcast only reaches connected sockets |
| ChatSocket.ChatHub.constructor | back/src/utils/socket.js:14-22 | the server starts with no socket, room, thread or emission |
| ChatSocket.ChatHub.Connect | back/src/utils/socket.js:24 | the in-place connection registers the socket's handlers, as `ConnectStep` defines |
| ChatSocket.ChatHub.JoinChat | back/src/utils/socket.js:26-32 | the in-place join changes the rooms as `JoinStep` defines, and keeps the invariant |
| ChatSocket.ChatHub.SendMessage | back/src/utils/socket.js:35-66 | the in-place send changes threads and emissions as `SendStep` defines, and keeps the invariant |
| ChatSocket.ChatHub.Disconnect | back/src/utils/socket.js:75-78 | the in-place disconnect removes the socket as `DisconnectStep` defines, and keeps the invariant |
| ChatSlice.ChatState.constructor | devtalkx-frontend/src/utils/chatSlice.js:5 | the state starts as `{}` |
| ChatSlice.ChatState.SetChat | devtalkx-frontend/src/utils/chatSlice.js:7-10 | the conversation with the target becomes the messages; every other key is unchanged |
| ChatSlice.ChatState.AddMessage | devtalkx-frontend/src/utils/chatSlice.js:11-17 | an absent conversation becomes `[m]`; a present one gets `m` at its end, one longer; every other key is unchanged |
| ChatSlice.ChatState.ClearChat | devtalkx-frontend/src/utils/chatSlice.js:18 | the state becomes `{}` from any state |
| Database.FirstTruthy | back/src/config/database.js:5-8 | the source is the first truthy one of DB_CONNECTION_SECRET, MONGO_URI and MONGODB_URI, in that order |
| Database.ResolveMongoUri | back/src/config/database.js:4-27 | it fails, with the missing-string error, exactly when none of the three is set |
| Database.ResolvedHasNoWhiteSpace | back/src/config/database.js:16-26 | a resolved URI contains no whitespace character |
| Database.LocalhostRewrittenOnce | back/src/config/database.js:16-26 | only the first "mongodb://localhost" becomes "mongodb://127.0.0.1", the rest of the sanitised string is kept; without it the sanitised string is returned unchanged |
| Database.LocalhostSchemeRewritten | back/src/config/database.js:22-24 | a string starting with "mongodb://localhost" resolves to one starting with "mongodb://127.0.0.1" |
| Database.BuildConnectionOptions | back/src/config/database.js:33-42 | the timeout is 5000 ms, and `family = 4` is set exactly when the URI does not start with "mongodb+srv://" |
| Database.ClassifyConnectError | back/src/config/database.js:46-64 | errors are mapped in order: ECONNREFUSED to refused with the URI; "bad auth" or "Authentication failed" to authentication; "querySrv" or "ENOTFOUND" to host-unresolved; anything else rethrown unchanged |
| Database.ConnectDB | back/src/config/database.js:29-66 | no connection string fails before connecting; otherwise a success carries the options built for the resolved URI, and a failure is the classified error |
| JsStrings.TrimEmptyIffBlank | back/src/utils/socket.js:41 | `s.trim() === ""` exactly when every character of `s` is whitespace |
| JsStrings.TrimShape | back/src/models/post.js:13 | a trimmed string neither starts nor ends with whitespace and is a slice of the input |
| JsStrings.RemoveWhiteSpace | back/src/config/database.js:19 | `replace(/\s+/g, "")` leaves no whitespace, never lengthens, and deletes a stretch of whitespace entirely; with the two lemmas below this fixes the result as the non-whitespace characters in order |
| JsStrings.RemoveWhiteSpaceAppend | back/src/config/database.js:19 | whitespace is removed piece by piece, so every other character keeps its order |
| JsStrings.RemoveWhiteSpaceKeepsClean | back/src/config/database.js:19 | a string without whitespace is left as it is, so the removal is idempotent |
| JsStrings.IndexOf | back/src/config/database.js:22 | `indexOf` finds a match exactly when `includes` holds, and finds the first one |
| JsStrings.ReplaceFirstShape | back/src/config/database.js:23 | `replace` with a string pattern changes only the first occurrence |
| JsStrings.SortPairSymmetric | back/src/utils/socket.js:10 | sorting two ids does not depend on the order they are given in |
| MongoQuery.SkipLimit | back/src/routes/user.js:117-119 | a negative skip is refused; otherwise the result is the slice starting at `skip`, of `limit` documents (or `-limit` when negative, all when 0) or fewer at the end |
| MongoQuery.ConsecutivePagesTile | back/src/routes/post.js:12-18 | two consecutive pages of size n are the page of size 2n: paging neither skips nor repeats a document |
| Pagination.OrDefault | back/src/routes/user.js:94-95 | `parseInt(q)` or the default: every number except 0 and NaN is kept, those two become the default |
| Pagination.PageWindow | back/src/routes/user.js:94-97 | page defaults to 1, limit to the handler's default and is capped at 50, and `skip == (page - 1) * limit`; neither page nor limit is 0 |
| Pagination.DefaultWindow | back/src/routes/post.js:9-12 | with no query parameters the first page of the default size is asked for |
| Pagination.NegativeSkipIff | back/src/routes/user.js:94-97 | the skip is negative exactly when the page is below 1 with a positive limit, or above 1 with a negative limit |

## Left out

- User documents and their schema (both `models/user.js`): a user is its id. The user save in the profile edit is the `saveOk` parameter. `USER_SAFE_DATA` field projections are not modelled.
- `GET /profile/view` just sends back the authenticated user. It has no logic, so it is not modelled.
- Authentication (`userAuth`): requests come from a given user id.
- Store failures that only surface as a 500 or a caught exception: a CastError on a malformed id, a lost connection. The exceptions are the store outcomes named above as parameters, and a negative skip.
- Reply message texts, such as "Already in the connection pipeline." or the greeting that names the user's first name, are not modelled. Only the HTTP status, the success flag, the data and an error kind are.
- The `match_alert` emit in the instant-match branch. That branch is unreachable as written. The socket server object also never reaches the route, because `initializeSocket` returns nothing.
- The chat document (`back/src/models/chat.js`) is not part of this model. A thread is keyed by the set of its two participants. The `$all` query would also match a chat with more participants, and that group case is not modelled.
- ChatSocket.SendAppendsOne: a message a user sends to themselves (`userId == targetUserId == u`) is modelled as going to the thread `{u}`. In the source, `{participants: {$all: [u, u]}}` matches any chat that contains `u`, so such a message can be pushed onto an existing two-person thread `{u, v}` while the broadcast goes to the room of `u$u`. Which chat the store picks is not modelled.
- ChatSocket.SendAppendsOne: "created if absent" is the `upsert: true` option taken at its word. Whether the store can build the new chat's `participants` from an `$all` filter is not modelled; the outcome of the update is the `storeOk` parameter.
- socket.io itself: each socket's own room, transport, timeouts and concurrent sockets. Rooms that become empty are kept. The `disconnecting` handler only logs, and console logging is left out everywhere.
- Payloads of the wrong type are not modelled: a non-string `text` in `sendMessage`, or a non-array `messages` in `setChat`. An id that is not a string is taken as its `toString()`.
- Strings are sequences of Unicode scalar values, not UTF-16 code units. The 100, 1000 and 2000 character limits therefore count scalar values, and `SortPair` compares scalar values. The two orders differ only for characters outside the Basic Multilingual Plane.
- PostRoutes.NewestFirst: the store's order between posts with the same `createdAt` is not modelled. The model keeps one fixed order, so only "newest first and a permutation" is claimed.
- `populate()` on "my posts" and explore, and the re-read after a create (`findById(...).populate`), return the stored documents. Author details are not modelled.
- `timestamps: true`: `createdAt` is the `now` parameter of a create, and `updatedAt` is not modelled.
- The older server's record schema (`src/models/connectionRequest.js`) is not part of this model. It is taken to follow the same rules as the newer one.
- LegacyUserRoutes.ReceivedReply: the `success: false` reply on a store error is not modelled, because its only cause is a store failure. The connections handler's `success: false` reply, from a null sender, is modelled.
- Pagination.PageWindow: JavaScript numbers are doubles, so `parseInt` of a very long digit string and the product `(page - 1) * limit` lose precision beyond 2^53. The model uses exact integers.
- The review's `runValidators` option changes nothing here: a decision has already been checked to be `accepted` or `rejected`.

## Findings

| source | as written | input that shows it | evidently intended | confidence | as-written member | corrected member |
|---|---|---|---|---|---|---|
| back/src/routes/request.js:34-77 | the duplicate-pair query matches records in both directions, whatever their status, and runs before the mutual-interest check, so the instant-match branch can never run | user A swipes `interested` on B; then B swipes `interested` on A. The second swipe gets 400 "Already in the connection pipeline." and A's request stays pending. | a reverse `interested` record turns into an accepted match; the duplicate check applies only when there is no such record | not executed | RequestRoutes.MutualInterestRefused | RequestRoutes.MutualInterestMatches |

`RequestRoutes.SendStep` is the send as written. `RequestRoutes.SendNeverMatches` proves that, for every input, it never reports a match. `RequestRoutes.SendStepIntended` moves the mutual-interest check ahead of the duplicate check. `RequestRoutes.SendIntendedPreservesValid` proves that this version keeps one record per pair. `RequestRoutes.ConnectionStore` follows the code as written.
