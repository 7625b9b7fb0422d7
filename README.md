# flaskapi_task in Dafny

This is a verified model of the logic at the core of a FastAPI movie-review service. It covers:

- the per-user WebSocket notification registry;
- the two `post_save` signal handlers that feed it (on follow and on review like);
- the authentication chain: the `access_token` cookie, JWT decode, user lookup, the login claims, and the middleware's path gate and exception-to-JSON mapping;
- the JWT service's token lifetimes and cookies;
- the in-memory `UserModel` store;
- the image file-name rules;
- the routers' relation toggles (follow/unfollow, like/unlike, like/dislike), ownership checks and partial updates.

Each source file is one module:

| module | source |
|---|---|
| `Base` | Python values, exceptions (`Outcome`), string helpers, ORM `filter` / `get_or_none` |
| `Models` | the persisted rows (app/models) |
| `JwtService` | app/services/jwt.py, app/configs/base.py |
| `AuthService` | app/services/auth.py |
| `AuthMiddleware` | app/middleware/auth.py |
| `WebSocketManager` | app/utils/websocket.py |
| `Notifications` | app/routers/notifications.py |
| `FollowSignals` | app/signals/follow_signals.py |
| `ReviewLikeSignals` | app/signals/review_like_signals.py |
| `UserModelStore` | app/models/users.py |
| `FileUtils` | app/utils/file.py |
| `UsersRouter` | app/routers/users.py |
| `LikesRouter` | app/routers/likes.py |
| `ReviewsRouter` | app/routers/reviews.py |
| `MoviesRouter` | app/routers/movies.py |
| `Scenarios` | properties that span several of the files above |

Where the code changes state in place, the model is imperative:

- the connection manager, the `UserModel` store and its instances, the request, the response and each table are classes;
- every method is proved equal to a pure step function of the old state;
- the lemmas are stated about those step functions.

Each ORM table with a `unique_together` pair is a map keyed by that pair, so there is at most one row per pair by construction. Outside collaborators are parameters:

- the bcrypt context is a `Hasher`, a pair of functions;
- the clock is `now`, in seconds;
- the uuid4 hex is `hex`;
- whether a WebSocket send fails is `fails`;
- how the receive loop ends is `exit`.

PyJWT is modelled on the structure of a token: algorithm, claims and signing key. The encode/decode round trip is therefore proved, not taken on trust.

The code is modelled as it is written, including its inconsistencies:

- The WebSocket handshake calls `JWTService.decode_token`, which does not exist. It also passes a username to `get_current_user`. `Notifications.AsWritten` uses exactly these collaborators, and `Notifications.AsWrittenRejectsEveryHandshake` proves that no handshake is ever accepted. The generic chain `Notifications.Verify` states what each early return does with any collaborators.
- The login route signs `{"username": ...}` claims, but `get_current_user` reads `user_id`. `Scenarios.RouteTokenIs500OnMe` shows that such a token yields 500 "'user_id'" on `/users/me`. The route also fails before it signs anything; see Findings.
- `send_notification` keeps the entry when a send fails.

## Model

| member | source | states |
|---|---|---|
| JwtService.PyJwtDecode | app/services/jwt.py:23-27 | for tokens whose only registered claim is `exp`, as this app issues: accepted iff well formed, its algorithm is allowed, its key matches and any `exp` is an integer after `now`; the claims come back unchanged |
| JwtService.Service.Encode | app/services/jwt.py:17-21 | the token holds a copy of the caller's claims plus `exp` = now + minutes × 60, signed with the service's key and algorithm |
| JwtService.Service.Decode | app/services/jwt.py:23-27 | every decode failure is a 401 HTTPException; success returns the token's claims |
| JwtService.Service.CreateAccessToken | app/services/jwt.py:29-33 | the caller's claims, unchanged except for `exp` = now + access lifetime × 60, under the service's key |
| JwtService.Service.CreateRefreshToken | app/services/jwt.py:29-36 | the caller's claims, unchanged except for `exp` = now + refresh lifetime × 60, under the service's key |
| JwtService.DecodeEncode | app/services/jwt.py:17-27 | round trip: before expiry decode returns the claims with `exp` added; at or after expiry it is 401 "Signature has expired" |
| JwtService.DecodeRecoversClaims | app/services/jwt.py:18-20 | every caller claim except `exp` survives issuance and decoding unchanged |
| JwtService.ForeignKeyRejected | app/services/jwt.py:23-27 | a token signed with another key is 401 "Signature verification failed" |
| JwtService.DefaultLifetimes | app/configs/base.py:11-12 | default access tokens expire after 1800 s, refresh tokens after 604800 s |
| JwtService.CookieExpiresWithToken | app/services/jwt.py:41-56 | each cookie's `expires` (minutes × 60) ends exactly when its token does |
| JwtService.AttachJwtTokenInResponseCookie | app/services/jwt.py:38-57 | appends the access cookie then the refresh cookie (lax, not HttpOnly, not Secure) and changes nothing else |
| AuthService.CurrentUser | app/services/auth.py:28-41 | a missing or empty cookie is 401 "This Request requires an access token." (iff); a decode failure passes through; a missing `user_id` claim is KeyError "'user_id'"; a `user_id` no user has is 401 "Invalid Access Token."; success means the decoded `user_id` names that user |
| AuthService.CurrentUserFindsUser | app/services/auth.py:33-41 | with unique ids, a token decoding to a user's id resolves to exactly that user |
| AuthService.GetCurrentUser | app/services/auth.py:28-41 | on success sets `request.state.user` and returns the same request; on failure raises and leaves the request alone |
| AuthService.Authenticate | app/services/auth.py:51-57 | an unknown username is 401 "username: … - not found." (iff); for the user `get_or_none` finds, a verifying password returns that user and any other is 401 "password incorrect."; success always has a verifying hash |
| AuthService.AuthenticateUser | app/services/auth.py:51-57 | with unique usernames, a user's own name and a verifying password return that user; a wrong password is 401 "password incorrect." |
| AuthService.Login | app/services/auth.py:13-26 | authentication errors propagate; otherwise a 204 response with access and refresh cookies, both over claims {"user_id": id} |
| AuthService.LoginThenCurrentUser | app/services/auth.py:13-41 | the access token `login` issues, presented before expiry, resolves to the user who logged in |
| AuthService.MissingUserIdClaim | app/services/auth.py:33-35 | a valid token without `user_id` raises KeyError "'user_id'", not an HTTPException |
| AuthMiddleware.Dispatch | app/middleware/auth.py:10-20 | outside the gate the handler runs with no user; on a gated path a failed `get_current_user` is the reply (as JSON) and the handler runs only with the authenticated user |
| AuthMiddleware.ToJson | app/middleware/auth.py:17-20 | an HTTPException keeps its status and detail; any other exception becomes 500 with its text |
| AuthMiddleware.OtherPathsSkipAuth | app/middleware/auth.py:12-16 | paths outside "/users" reach the handler without authentication |
| AuthMiddleware.GatedPaths | app/middleware/auth.py:12-13 | exactly "/users/login", "/users" and "/users/search" are public; "/users/", "/users/me", "/users/1/follow" and "/usersearch" are gated |
| AuthMiddleware.RejectionShortCircuits | app/middleware/auth.py:13-20 | on a gated path a rejected authentication is the reply, whatever the handler would do |
| AuthMiddleware.GatedHandlerSeesUser | app/middleware/auth.py:13-15 | on a gated path the handler runs with the authenticated user attached |
| WebSocketManager.Insert | app/utils/websocket.py:14 | dict assignment: the map gets the new handle; an existing key keeps its place and a new key goes last, so insertion order and uniqueness of keys are kept |
| WebSocketManager.FirstIndexOf | app/utils/websocket.py:32-35 | the first position, in insertion order, holding the handle; None iff no entry holds it |
| WebSocketManager.RemoveAt | app/utils/websocket.py:34 | `del` removes exactly that key and keeps the order of the rest |
| WebSocketManager.ConnectOverwrites | app/utils/websocket.py:9-14 | after connect the user's entry is the new handle; other users' entries are unchanged; a new key is added only for a new user |
| WebSocketManager.ReconnectKeepsOneEntry | app/utils/websocket.py:14 | connecting twice leaves one entry for the user, bound to the later handle |
| WebSocketManager.RemoveIsolation | app/utils/websocket.py:32-35 | disconnect removes exactly one entry when one holds the handle (the first in insertion order) and none otherwise; kept entries are unchanged |
| WebSocketManager.RemoveFirstInserted | app/utils/websocket.py:32-35 | among entries sharing a handle, the first inserted is removed and later ones stay |
| WebSocketManager.ConnectionManager.constructor | app/utils/websocket.py:5-7 | starts with no connections |
| WebSocketManager.ConnectionManager.Connect | app/utils/websocket.py:9-14 | accepts the handshake, then inserts the entry |
| WebSocketManager.ConnectionManager.Close | app/utils/websocket.py:16-26 | sends the close frame (code 1000 and reason "" unless given) and then disconnects the handle |
| WebSocketManager.ConnectionManager.Disconnect | app/utils/websocket.py:28-35 | the loop's result equals `Remove` of the old registry; it sends nothing |
| WebSocketManager.ConnectionManager.GetUserConnection | app/utils/websocket.py:37-43 | None iff the user has no entry, else the stored handle |
| WebSocketManager.ConnectionManager.SendNotification | app/utils/websocket.py:45-53 | an absent user gets nothing; a present one gets one {"message"} frame (none on failure); the registry never changes |
| Base.SplitJoin | app/routers/notifications.py:24 | `str.split` on one separator loses nothing: joining the fields back gives the text |
| Base.SplitFieldsFree | app/routers/notifications.py:24 | no field of a split holds the separator |
| Notifications.TokenField | app/routers/notifications.py:24 | the second space-separated field; absent iff the header has no space |
| Notifications.Verify | app/routers/notifications.py:12-40 | "Authorization header required" iff the header is missing or empty; every other rejection has one of the two other reasons; acceptance needs a decoded truthy `username` and a found user, and a header passing every check is accepted with that user |
| Notifications.AsWrittenRejectsEveryHandshake | app/routers/notifications.py:24-40 | with the collaborators the route actually calls, every non-empty header closes with "Invalid token" and none is accepted |
| Notifications.VerifyRejections | app/routers/notifications.py:24-40 | no space, a decode that raises, a missing or falsy `username`, or a lookup that raises gives "Invalid token"; a lookup returning None gives "User not found" |
| Notifications.WebsocketNotifications | app/routers/notifications.py:10-49 | a rejection closes with code 4001 and its reason and leaves the registry and wire alone; an acceptance connects, and only a WebSocketDisconnect exit disconnects |
| Notifications.SessionLifetime | app/routers/notifications.py:42-49 | a session whose loop ends in WebSocketDisconnect leaves no entry for the user, given no other entry shares the handle; a loop ended by the state check, as a peer close is, leaves the entry |
| FollowSignals.FollowNoticeShape | app/signals/follow_signals.py:17-22 | notifies iff created or `is_following`; goes to the followed user; the message is the follower's name then "님이 팔로우 하셨습니다." |
| FollowSignals.DeactivatedSaveSilent | app/signals/follow_signals.py:17 | saving a deactivated existing follow sends nothing |
| FollowSignals.FollowSignal | app/signals/follow_signals.py:9-23 | only a connected followed user receives the frame; the registry is never changed |
| ReviewLikeSignals.ReviewLikeNoticeShape | app/signals/review_like_signals.py:17-25 | notifies iff created or `is_liked`; goes to the review's author; the message is the liker's name then "님이 내 리뷰에 좋아요를 눌렀습니다!" |
| ReviewLikeSignals.UnlikeSaveSilent | app/signals/review_like_signals.py:17 | an unlike save sends nothing |
| ReviewLikeSignals.SelfLikeNotifiesAuthor | app/signals/review_like_signals.py:17-25 | no self-exclusion: an author liking their own review is notified |
| ReviewLikeSignals.ReviewLikeSignal | app/signals/review_like_signals.py:9-25 | only a connected author receives the frame; the registry is never changed |
| UserModelStore.MatchAllMeaning | app/models/users.py:51 | `MatchAll` is true iff every keyword equals its attribute; it raises only the AttributeError of a keyword naming no attribute |
| UserModelStore.SetAttrFrame | app/models/users.py:67-69 | setting one attribute leaves the others; a non-None value is stored |
| UserModelStore.UpdateKeepsUngiven | app/models/users.py:64-69 | an attribute with no non-None value in the update is unchanged |
| UserModelStore.UpdateSetsLastGiven | app/models/users.py:64-69 | an attribute ends with the last non-None value given for it |
| UserModelStore.ApplyUpdateKeepsFields | app/models/users.py:64-69 | an update never removes a data attribute |
| UserModelStore.UpdateKeepsId | app/models/users.py:64-69 | an update without a non-None `id` keeps the id |
| UserModelStore.CreateKeepsIdsIncreasing | app/models/users.py:12-22 | a new user's id is the counter, unused so far; ids stay strictly increasing in list order |
| UserModelStore.RemoveKeepsIdsIncreasing | app/models/users.py:71-74 | removing an instance keeps the ids increasing |
| UserModelStore.GetFrom | app/models/users.py:47-53 | the first matching row, no earlier row matching; None iff no row matches |
| UserModelStore.GetFromRaises | app/models/users.py:47-53 | `get` raises only what the lookup on some row raises, and only when every earlier row was a plain mismatch |
| UserModelStore.FilterFromExact | app/models/users.py:55-62 | raises iff the lookup on some row raises; otherwise exactly the matching rows, in list order |
| UserModelStore.FilterFromRaises | app/models/users.py:55-62 | `filter` raises iff the lookup on some row raises |
| UserModelStore.FilterStep | app/models/users.py:58-62 | one step of the comprehension moves a row's verdict into the result so far |
| UserModelStore.GetIsFirstOfFilter | app/models/users.py:47-62 | `get` is the head of `filter` (or None when it is empty), and both raise alike |
| UserModelStore.FilterNoArgsIsAll | app/models/users.py:55-62 | `filter()` with no arguments lists every user in order |
| UserModelStore.AuthFrom | app/models/users.py:34-40 | the first user with that username whose hash verifies: every earlier user with that name fails to verify; None means no user with that name verifies; a raise comes from the first user with that name whose stored hash is not text, every earlier one failing to verify |
| UserModelStore.CreatedUserAuthenticates | app/models/users.py:12-40 | a created user whose name no earlier user has authenticates with their own password |
| UserModelStore.UserObj.constructor | app/models/users.py:12-22 | new row with id = counter and a hashed password, appended; the counter is advanced |
| UserModelStore.UserObj.Update | app/models/users.py:64-69 | the loop's result equals `ApplyUpdate` of the old attributes |
| UserModelStore.UserObj.Delete | app/models/users.py:71-74 | removes this instance's first occurrence, else no change; the counter is untouched |
| UserModelStore.Store.constructor | app/models/users.py:9-10 | an empty list and counter 1 |
| UserModelStore.Store.Create | app/models/users.py:42-45 | appends exactly the fresh instance and its row |
| UserModelStore.Store.Get | app/models/users.py:47-53 | the loop returns the instance `GetFrom` picks, or its exception |
| UserModelStore.Store.Filter | app/models/users.py:55-62 | the loop returns the instances at `FilterFrom`'s indices, in order, or its exception; with no keyword arguments it returns exactly `all()` |
| UserModelStore.Store.Clear | app/models/users.py:91-95 | an empty list and counter 1 |
| UserModelStore.Store.Authenticate | app/models/users.py:34-40 | the loop returns the instance `AuthFrom` picks, or its exception |
| FileUtils.RSplitDot | app/utils/file.py:25 | the parts joined by "." give the name back; the extension has no dot |
| FileUtils.RSplitDotOf | app/utils/file.py:25 | splitting stem + "." + ext (ext without a dot) returns the two parts |
| FileUtils.ValidateImageExtension | app/utils/file.py:62-85 | accepted iff the name has a dot and the lower-cased last extension is jpg/jpeg/png/gif; the extension is returned as given; otherwise 400 with the listed extensions |
| FileUtils.SplitName | app/utils/file.py:24-28 | split at the last dot; with no dot, no extension; a missing or empty name becomes "unknown" |
| FileUtils.UploadUrl | app/utils/file.py:31-46 | the URL is upload_dir + "/" + the unique name |
| FileUtils.UniqueNameKeepsExtension | app/utils/file.py:24-35 | a stored name keeps the stem (plus "_hex") and the extension |
| FileUtils.NoExtensionNoDot | app/utils/file.py:24-35 | a name with no extension is stored as stem_hex, without a dot |
| FileUtils.AcceptedImageKeepsExtension | app/utils/file.py:24-85 | an accepted image is stored under the extension that validation returned |
| FileUtils.ValidateAfterLastDot | app/utils/file.py:72-85 | for any name, the result depends only on the text after its last dot: that text when whitelisted in lower case, 400 otherwise |
| FileUtils.UpperCaseExtensionAccepted | app/utils/file.py:80-85 | "photo.JPG" is accepted and returns "JPG" |
| FileUtils.LastDotCounts | app/utils/file.py:72-85 | "a.exe.gif" returns "gif"; "pic.png.exe" is refused |
| FileUtils.NoExtensionRefused | app/utils/file.py:72-84 | "a." and "png" are refused |
| FileUtils.UniqueNameExamples | app/utils/file.py:24-35 | "a." is stored as "a_hex"; a missing name as "unknown_hex" |
| UsersRouter.FollowStep | app/routers/users.py:196-212 | the response says following; the pair's row is active afterwards; a save carries that row and is a creation iff the pair had no row |
| UsersRouter.UnfollowStep | app/routers/users.py:216-237 | the response says not following; no row is created or removed; the pair's row, if any, is inactive; a save is never a creation |
| UsersRouter.FollowActivates | app/routers/users.py:202-212 | after follow the pair is active; other rows are unchanged; saved iff new or inactive; created iff new |
| UsersRouter.FollowIdempotent | app/routers/users.py:202-206 | a second follow changes and saves nothing |
| UsersRouter.UnfollowWithoutRow | app/routers/users.py:222-227 | no row: "not following", nothing created |
| UsersRouter.UnfollowDeactivates | app/routers/users.py:222-237 | afterwards the pair is inactive; no row is created or removed; others are unchanged; repeating changes nothing |
| UsersRouter.StepsKeepIdsValid | app/routers/users.py:202-231 | follow and unfollow keep row ids distinct and below the next id |
| UsersRouter.Follows.FollowingUser | app/routers/users.py:195-212 | the table, response and save equal `FollowStep` |
| UsersRouter.Follows.UnfollowingUser | app/routers/users.py:215-237 | the table, response and save equal `UnfollowStep` |
| UsersRouter.Followings | app/routers/users.py:240-261 | exactly the users `me` follows through an active row |
| UsersRouter.Followers | app/routers/users.py:264-285 | exactly the users following `me` through an active row |
| UsersRouter.FollowListsTrackSteps | app/routers/users.py:248-276 | a follow adds to both lists; an unfollow removes from both |
| UsersRouter.SearchUsers | app/routers/users.py:81-102 | exactly the users matching the non-None parameters; 404 iff none match |
| UsersRouter.GetAllUsers | app/routers/users.py:44-58 | 404 iff there are no users |
| UsersRouter.EmptySearchIsAll | app/routers/users.py:44-92 | a search with no parameters equals listing all users |
| UsersRouter.UpdateData | app/routers/users.py:122-128 | None fields are dropped; `password` is replaced by `hashed_password` = hash(password) |
| UsersRouter.UpdateUserPartial | app/routers/users.py:117-137 | only the sent fields change; id, gender, image and password stay |
| UsersRouter.UpdatePasswordIsHashed | app/routers/users.py:125-128 | a password is stored only as its hash |
| UsersRouter.LoginRouteAsWritten | app/routers/users.py:61-78 | the route as written always raises |
| UsersRouter.LoginRouteAlwaysFails | app/routers/users.py:66-73 | with correct credentials it raises "'Response' object has no attribute 'username'" |
| UsersRouter.LoginRoute | app/routers/users.py:61-78 | raises iff authentication does; otherwise the access and refresh cookies |
| UsersRouter.LoginRouteSignsIn | app/routers/users.py:61-78 | the corrected route's access cookie resolves to the user who logged in |
| LikesRouter.LikeStep | app/routers/likes.py:16-33 | the pair's row is liked afterwards and the response carries its id; a save carries that row and is a creation iff the pair had no row |
| LikesRouter.UnlikeStep | app/routers/likes.py:37-57 | no row is created or removed; with a row it is unliked and its id answered; without one the answer is id 0, not liked |
| LikesRouter.ReactStep | app/routers/likes.py:61-95 | the pair has a row afterwards holding the wanted reaction, which the response carries; it saves iff the reaction changes (a new row starts as LIKE) |
| LikesRouter.LikeActivates | app/routers/likes.py:20-33 | after like the pair is liked; other rows are unchanged; saved iff new or unliked |
| LikesRouter.LikeIdempotent | app/routers/likes.py:20-26 | a second like changes and saves nothing |
| LikesRouter.UnlikeDeactivates | app/routers/likes.py:41-57 | no row: id 0, not liked, nothing created; otherwise unliked, others unchanged, idempotent |
| LikesRouter.ReactSetsReaction | app/routers/likes.py:65-88 | afterwards the pair holds exactly the wanted reaction in one row; saved iff it changed; idempotent |
| LikesRouter.DislikeOverwritesLike | app/routers/likes.py:65-88 | a dislike after a like replaces it in the same row |
| LikesRouter.Likes.LikeReview | app/routers/likes.py:15-33 | the table, response and save equal `LikeStep` |
| LikesRouter.Likes.UnlikeReview | app/routers/likes.py:36-57 | the table, response and save equal `UnlikeStep` |
| LikesRouter.Likes.ReactToMovie | app/routers/likes.py:60-95 | the table, response and save equal `ReactStep` |
| ReviewsRouter.GetReview | app/routers/reviews.py:60-73 | the row iff it exists, else 404 "Review does not exist" |
| ReviewsRouter.UpdateReviewStep | app/routers/reviews.py:77-112 | succeeds iff the review exists and is the user's; a failure changes nothing; success stores the returned review and deletes the old image only when a new one came |
| ReviewsRouter.DeleteReviewStep | app/routers/reviews.py:116-129 | succeeds iff the review exists and is the user's; success removes exactly that row; a failure changes nothing |
| ReviewsRouter.MissingReviewIs404 | app/routers/reviews.py:85-122 | update and delete of a missing review are 404 for anyone, with no change |
| ReviewsRouter.NonOwnerIs403 | app/routers/reviews.py:89-127 | a non-owner gets 403, with no change and no file deleted |
| ReviewsRouter.OwnerUpdate | app/routers/reviews.py:94-103 | None fields are kept; a new image replaces the URL; the old file is deleted iff there was one |
| ReviewsRouter.DeleteThenGet | app/routers/reviews.py:120-129 | after delete, get is 404; other reviews are unchanged |
| ReviewsRouter.Reviews.UpdateReview | app/routers/reviews.py:76-112 | the table, response and deleted file equal `UpdateReviewStep` |
| ReviewsRouter.Reviews.DeleteReview | app/routers/reviews.py:115-129 | the table and response equal `DeleteReviewStep` |
| ReviewsRouter.LikeCount | app/routers/reviews.py:132-138 | the count is zero iff no row for the review is liked |
| ReviewsRouter.IsLiked | app/routers/reviews.py:141-156 | true iff the user has a row for the review and it is liked |
| ReviewsRouter.CountApartFrom | app/routers/reviews.py:137 | changing one row changes a review's like count only by whether that row counts before and after |
| ReviewsRouter.LikeCountAfterLike | app/routers/reviews.py:137 | a new like raises the count by one, a repeated one by zero; other reviews' counts are unchanged |
| ReviewsRouter.LikeCountAfterUnlike | app/routers/reviews.py:137 | an unlike of a liked row lowers the count by one; other reviews' counts are unchanged |
| MoviesRouter.GetMovies | app/routers/movies.py:22-30 | exactly the movies matching the non-None parameters |
| MoviesRouter.QueryNarrowing | app/routers/movies.py:24 | no parameters lists every movie; two parameters give the intersection of the one-parameter queries |
| MoviesRouter.GetMovie | app/routers/movies.py:32-39 | the row iff it exists, else 404 |
| MoviesRouter.UpdateIsPartial | app/routers/movies.py:46-48 | only the sent fields change; the poster is kept; idempotent |
| MoviesRouter.Movies.UpdateMovie | app/routers/movies.py:41-51 | 404 and no change for a missing id; otherwise the row becomes the partial update |
| MoviesRouter.Movies.DeleteMovie | app/routers/movies.py:53-58 | 404 and no change for a missing id; otherwise the row is removed |
| MoviesRouter.DeleteThenGet | app/routers/movies.py:53-58 | after delete, get is 404; other movies are unchanged |
| Scenarios.FollowNotifiesOnChange | app/signals/follow_signals.py:17-23 | a follow notifies the followed user iff the row was new or inactive; a repeated follow notifies no one |
| Scenarios.UnfollowNeverNotifies | app/routers/users.py:229-231 | an unfollow's save never produces a notification |
| Scenarios.LikeNotifiesOnChange | app/signals/review_like_signals.py:17-25 | a like notifies the author iff the row was new or unliked; a repeated like notifies no one |
| Scenarios.UnlikeNeverNotifies | app/routers/likes.py:48-50 | an unlike's save never produces a notification |
| Scenarios.UnauthenticatedMeIs401 | app/tests/test_user_router.py:108-114 | /users/me without a token is 401 "This Request requires an access token." |
| Scenarios.RouteTokenIs500OnMe | app/routers/users.py:72-73 | a token with the login route's claims gets 500 "'user_id'" on /users/me |
| Scenarios.LoginTokenReachesHandler | app/services/auth.py:13-41 | the corrected login's access cookie lets /users/me reach its handler with that user |

## Left out

- PyJWT byte-level encoding and HS256 signing: a token is modelled by its algorithm, claims and key. Exception texts are PyJWT's messages for the modelled failure kinds. `exp` is whole seconds, not a timezone-aware datetime.
- JwtService.PyJwtDecode: checks only `exp` among the registered claims. PyJWT also rejects a token over a future `nbf`, a non-integer or future `iat`, an `aud` claim when no audience is passed, and a non-text `sub` or `jti`. It also accepts an `exp` that `int()` can coerce, such as a numeric string, and it has several texts for malformed tokens. The "accepted iff" is therefore exact only for tokens that carry none of those claims. `DecodeEncode` and `DecodeRecoversClaims` hold in the model for any claims. Against PyJWT they hold only for claims without those keys. The tokens this app issues carry only `user_id` or `username`, plus `exp`.
- Notifications.WebsocketNotifications: with Starlette's raw `receive`, a peer close does not raise WebSocketDisconnect. It returns the disconnect message and marks the socket DISCONNECTED, so the loop ends through its condition. That is the `StateDisconnected` exit, which leaves the user's entry in the registry (`SessionLifetime`, second ensures). The removal in lines 48-49 runs only for a WebSocketDisconnect raised some other way (`PeerDisconnected`). This reading of Starlette comes from its source text; nothing was executed.
- bcrypt via passlib: a `Hasher` pair of functions. `Sound` (a password verifies against its own hash) is a hypothesis of the lemmas that need it.
- Tortoise ORM: `get_or_create`, `save`, `fetch_related`, subqueries and `post_save` dispatch are modelled as maps keyed by the unique pair. The signal handlers receive the saved row as a `Saved(created, row)` value. The follows and likes lists are in user-table order; the database's result order is not modelled.
- Row lookups (`User.get_or_none`) are the first match in a sequence, or Tortoise's "Multiple objects returned" error when there are several.
- The `profile_image` route, `create_user`, `create_movie_review`, `get_my_reviews` and `delete_user` are outside the modelled core.
- Async WebSocket transport (`accept`, `send_json`, `receive`): a ghost `wire` log. The receive loop is reduced to how it ended (`exit`), and a failed send to the `fails` flag.
- File-system I/O in `upload_file` and `delete_file`, and uuid4 randomness: the hex is a parameter. The deleted file is returned as a URL, not removed.
- Wall-clock time in the Asia/Seoul zone: `now` is a parameter.
- FastAPI routing, `Depends`, and pydantic validation (`gt=0` on path ids, ages and playtime; the gender enum): route inputs are taken as already validated.
- main.py wiring and pydantic-settings loading: only the default constants of app/configs/base.py are used.
- `create_dummy` in app/models/users.py is not modelled, because it depends on `random.choice`.
- Base.Lower: lower-cases only ASCII letters, unlike Python's full Unicode `str.lower`.
- UserModelStore.UserObj.Update: in Python, `hasattr` is also true for method names, and `setattr` on one would shadow the method with a data attribute. The model ignores such keys. Dunder attributes and other built-in attributes count as missing. The class attributes `_data` and `_id_counter` count as missing too: in Python `get(_data=x)` or `filter(_id_counter=n)` compares against the class list or counter instead of raising, and `update(_id_counter=5)` creates an instance attribute that shadows the counter.
- UserModelStore.VerifyStored: for a non-text hash, passlib's exact TypeError wording is approximated.
- UsersRouter.UpdateData: `UserUpdateRequest` has no `password` field, so the `password` branch of `update_user` is reachable only through `UpdateData` called directly. `UsersRouter.UpdatePasswordIsHashed` states that branch.
- Notifications.WebsocketNotifications: the handshake's close (code 4001 and reason) is reported as the result `closed`, not as a wire event, because the socket was never registered.
- UserModelStore.Store.All: `all()` hands back the class list itself; the model returns its contents, so a caller mutating the returned list (aliasing) is not captured. What it returns is stated through UserModelStore.Store.Filter: no keyword arguments give exactly `All()`.
- MoviesRouter.GetMovies returns a map from id to movie, so the list order of the response is not modelled.
- The tests that reference a `MovieModel` are not part of this model.

## Findings

| source | as written | input that shows it | evidently intended | confidence | as-written member | corrected member |
|---|---|---|---|---|---|---|
| app/routers/users.py:66-73 | the route binds the `Response` returned by `AuthService.login` to `user` and reads `user.username`, which raises AttributeError (500 through the middleware); it never sets cookies on its own response, and its tokens would carry `{"username"}` claims that `get_current_user` cannot use | any registered username with its correct password | return the 204 response `AuthService.login` builds, whose tokens carry `{"user_id": id}` | high (not executed) | UsersRouter.LoginRouteAlwaysFails | UsersRouter.LoginRouteSignsIn |
