/** Properties that span several files of the application: what a follow or
    like route's save makes the `post_save` handlers send, and what the
    middleware answers on "/users/me" for a request without a token and for
    a token carrying the claims the login route of app/routers/users.py
    issues. */
module Scenarios {
  import opened Base
  import opened Models
  import JwtService
  import AuthService
  import AuthMiddleware
  import WebSocketManager
  import FollowSignals
  import ReviewLikeSignals
  import UsersRouter
  import LikesRouter

  /** Tortoise's `post_save` for Follow: the handler runs on each save, with
      the row as saved; no save, no handler. */
  function FollowSaveNotice(saved: Option<Saved<Follow>>, followerName: string, followingId: int): Option<WebSocketManager.Notice>
  {
    match saved
    case None => None
    case Some(s) => FollowSignals.FollowNotice(s.created, s.row.isFollowing, followerName, followingId)
  }

  /** Tortoise's `post_save` for ReviewLike. */
  function LikeSaveNotice(saved: Option<Saved<ReviewLike>>, likerName: string, reviewAuthorId: int): Option<WebSocketManager.Notice>
  {
    match saved
    case None => None
    case Some(s) => ReviewLikeSignals.ReviewLikeNotice(s.created, s.row.isLiked, likerName, reviewAuthorId)
  }

  /** Following notifies the followed user exactly when it changes
      something: the pair had no row or an inactive one. Repeating a follow
      notifies no one. */
  lemma FollowNotifiesOnChange(t: UsersRouter.FollowTable, follower: int, following: int, followerName: string)
    ensures var (t', _, saved) := UsersRouter.FollowStep(t, follower, following);
            && (FollowSaveNotice(saved, followerName, following).Some? <==>
                  (follower, following) !in t.rows || !t.rows[(follower, following)].isFollowing)
            && (FollowSaveNotice(saved, followerName, following).Some? ==>
                  FollowSaveNotice(saved, followerName, following).value ==
                    WebSocketManager.Notice(following, followerName + FollowSignals.FOLLOW_SUFFIX))
            && FollowSaveNotice(UsersRouter.FollowStep(t', follower, following).2, followerName, following).None?
  {
    UsersRouter.FollowActivates(t, follower, following);
    UsersRouter.FollowIdempotent(t, follower, following);
  }

  /** Unfollowing never notifies anyone, whatever the pair's row was. */
  lemma UnfollowNeverNotifies(t: UsersRouter.FollowTable, follower: int, following: int, followerName: string)
    ensures FollowSaveNotice(UsersRouter.UnfollowStep(t, follower, following).2, followerName, following).None?
  {
    UsersRouter.UnfollowDeactivates(t, follower, following);
  }

  /** Liking notifies the review's author exactly when the like is new or
      re-activates an unliked row; a repeated like notifies no one. */
  lemma LikeNotifiesOnChange(t: LikesRouter.ReviewLikeTable, user: int, review: int, likerName: string, author: int)
    ensures var (t', _, saved) := LikesRouter.LikeStep(t, user, review);
            && (LikeSaveNotice(saved, likerName, author).Some? <==>
                  (user, review) !in t.rows || !t.rows[(user, review)].isLiked)
            && (LikeSaveNotice(saved, likerName, author).Some? ==>
                  LikeSaveNotice(saved, likerName, author).value.recipient == author)
            && LikeSaveNotice(LikesRouter.LikeStep(t', user, review).2, likerName, author).None?
  {
    LikesRouter.LikeActivates(t, user, review);
    LikesRouter.LikeIdempotent(t, user, review);
  }

  /** Unliking never notifies anyone. */
  lemma UnlikeNeverNotifies(t: LikesRouter.ReviewLikeTable, user: int, review: int, likerName: string, author: int)
    ensures LikeSaveNotice(LikesRouter.UnlikeStep(t, user, review).2, likerName, author).None?
  {
    LikesRouter.UnlikeDeactivates(t, user, review);
  }

  /** GET, PATCH or DELETE on /users/me without an access token is 401 with
      the missing-token detail, and the handler does not run. */
  lemma UnauthenticatedMeIs401<R>(svc: JwtService.Service, now: int, users: seq<User>, callNext: Option<User> -> Outcome<R>)
    ensures AuthMiddleware.Dispatch("/users/me", AuthService.CurrentUser(svc, map[], now, users), callNext) ==
            AuthMiddleware.JsonResponse(401, AuthService.MISSING_TOKEN_DETAIL)
  {
    AuthMiddleware.GatedPaths();
  }

  /** An access token carrying the login route's claims, presented on
      /users/me before it expires, gets past the decode and then fails on
      the missing `user_id` claim: the middleware answers 500 with detail
      "'user_id'", and the handler does not run. */
  lemma RouteTokenIs500OnMe<R>(svc: JwtService.Service, username: string, now: int, at: int,
                               users: seq<User>, callNext: Option<User> -> Outcome<R>)
    requires at < now + svc.accessTokenExpiresIn * 60
    ensures var token := svc.CreateAccessToken(UsersRouter.RouteLoginClaims(username), now);
            AuthMiddleware.Dispatch("/users/me", AuthService.CurrentUser(svc, map["access_token" := token], at, users), callNext) ==
            AuthMiddleware.JsonResponse(500, "'user_id'")
  {
    AuthService.MissingUserIdClaim(svc, UsersRouter.RouteLoginClaims(username), users, now, at);
    AuthMiddleware.GatedPaths();
  }

  /** The token the corrected login route sets lets the same request
      through: the handler runs with the logged-in user attached. */
  lemma LoginTokenReachesHandler<R>(svc: JwtService.Service, users: seq<User>, u: User, password: string,
                                    hasher: AuthService.Hasher, now: int, at: int, callNext: Option<User> -> Outcome<R>)
    requires u in users && AuthService.UniqueIds(users) && AuthService.UniqueUsernames(users)
    requires hasher.verify(password, u.hashedPassword)
    requires at < now + svc.accessTokenExpiresIn * 60
    ensures var r := UsersRouter.LoginRoute(svc, users, u.username, password, hasher, now);
            r.Returns? &&
            AuthMiddleware.Dispatch("/users/me", AuthService.CurrentUser(svc, map["access_token" := r.value[0].value], at, users), callNext) ==
            AuthMiddleware.Respond(callNext(Some(u)))
  {
    UsersRouter.LoginRouteSignsIn(svc, users, u, password, hasher, now, at);
    AuthMiddleware.GatedPaths();
  }
}
