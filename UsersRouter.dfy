/** The user routes of app/routers/users.py that hold logic: following and
    unfollowing, the followings / followers lists, the None-dropping of
    search and update, the 404 of the list routes, and the login route.
    The follows table is a map keyed by its `unique_together` pair
    (follower id, following id), so at most one row per pair exists. */
module UsersRouter {
  import opened Base
  import opened Models
  import JwtService
  import AuthService

  /** What follow and unfollow return. */
  datatype FollowResponse = FollowResponse(followerId: int, followingId: int, isFollowing: bool)

  /** The follows table and the id the next created row receives. */
  datatype FollowTable = FollowTable(rows: map<(int, int), Follow>, nextId: int)

  /** Row ids are distinct and below the next id. */
  predicate FollowIdsValid(t: FollowTable)
  {
    && (forall k :: k in t.rows ==> t.rows[k].id < t.nextId)
    && (forall k1, k2 :: k1 in t.rows && k2 in t.rows && t.rows[k1].id == t.rows[k2].id ==> k1 == k2)
  }

  /** `following_user` (lines 202-212): `get_or_create` the pair's row (a new
      row is active), then activate and save it if it was inactive. The
      third component is the save `post_save` sees, if there was one. */
  function FollowStep(t: FollowTable, follower: int, following: int): (r: (FollowTable, FollowResponse, Option<Saved<Follow>>))
    ensures r.1 == FollowResponse(follower, following, true)
    ensures (follower, following) in r.0.rows && r.0.rows[(follower, following)].isFollowing
    ensures r.2.Some? ==>
      r.2.value.row == r.0.rows[(follower, following)] && (r.2.value.created <==> (follower, following) !in t.rows)
  {
    var key := (follower, following);
    if key !in t.rows then
      var row := Follow(t.nextId, true);
      (FollowTable(t.rows[key := row], t.nextId + 1), FollowResponse(follower, following, true), Some(Saved(true, row)))
    else if !t.rows[key].isFollowing then
      var row := t.rows[key].(isFollowing := true);
      (FollowTable(t.rows[key := row], t.nextId), FollowResponse(follower, following, true), Some(Saved(false, row)))
    else
      (t, FollowResponse(follower, following, true), None)
  }

  /** `unfollowing_user` (lines 222-237): with no row, answer "not
      following" and create nothing; otherwise deactivate and save it if it
      was active. */
  function UnfollowStep(t: FollowTable, follower: int, following: int): (r: (FollowTable, FollowResponse, Option<Saved<Follow>>))
    ensures r.1 == FollowResponse(follower, following, false)
    ensures r.0.rows.Keys == t.rows.Keys
    ensures (follower, following) in r.0.rows ==> !r.0.rows[(follower, following)].isFollowing
    ensures r.2.Some? ==>
      !r.2.value.created && (follower, following) in r.0.rows && r.2.value.row == r.0.rows[(follower, following)]
  {
    var key := (follower, following);
    if key !in t.rows then
      (t, FollowResponse(follower, following, false), None)
    else if t.rows[key].isFollowing then
      var row := t.rows[key].(isFollowing := false);
      (FollowTable(t.rows[key := row], t.nextId), FollowResponse(follower, following, false), Some(Saved(false, row)))
    else
      (t, FollowResponse(follower, following, false), None)
  }

  /** After a follow the pair's row exists and is active, the response says
      so, and every other pair's row is as it was. The row is saved only
      when it is new or was inactive. */
  lemma FollowActivates(t: FollowTable, follower: int, following: int)
    ensures var (t', resp, saved) := FollowStep(t, follower, following);
            && (follower, following) in t'.rows && t'.rows[(follower, following)].isFollowing
            && resp == FollowResponse(follower, following, true)
            && (forall k :: k != (follower, following) ==> (k in t'.rows <==> k in t.rows))
            && (forall k :: k in t.rows && k != (follower, following) ==> t'.rows[k] == t.rows[k])
            && (saved.Some? <==> (follower, following) !in t.rows || !t.rows[(follower, following)].isFollowing)
            && (saved.Some? ==> (saved.value.created <==> (follower, following) !in t.rows))
  {
  }

  /** Following twice is following once: the second call changes nothing
      and saves nothing. */
  lemma FollowIdempotent(t: FollowTable, follower: int, following: int)
    ensures var t1 := FollowStep(t, follower, following).0;
            FollowStep(t1, follower, following).0 == t1 && FollowStep(t1, follower, following).2 == None
  {
  }

  /** Unfollowing a pair that has no row answers "not following" and
      creates nothing. */
  lemma UnfollowWithoutRow(t: FollowTable, follower: int, following: int)
    requires (follower, following) !in t.rows
    ensures UnfollowStep(t, follower, following) == (t, FollowResponse(follower, following, false), None)
  {
  }

  /** After an unfollow the pair is not active, whether or not a row
      exists; an existing row stays (deactivated), other rows are as they
      were, and repeating the call changes nothing. */
  lemma UnfollowDeactivates(t: FollowTable, follower: int, following: int)
    ensures var (t', resp, saved) := UnfollowStep(t, follower, following);
            && !resp.isFollowing
            && ((follower, following) in t'.rows <==> (follower, following) in t.rows)
            && ((follower, following) in t'.rows ==> !t'.rows[(follower, following)].isFollowing)
            && (forall k :: k in t.rows && k != (follower, following) ==> k in t'.rows && t'.rows[k] == t.rows[k])
            && t'.rows.Keys == t.rows.Keys
            && (saved.Some? ==> !saved.value.created)
            && UnfollowStep(t', follower, following) == (t', resp, None)
  {
  }

  /** Follow and unfollow keep the row ids distinct and below the next id. */
  lemma StepsKeepIdsValid(t: FollowTable, follower: int, following: int)
    requires FollowIdsValid(t)
    ensures FollowIdsValid(FollowStep(t, follower, following).0)
    ensures FollowIdsValid(UnfollowStep(t, follower, following).0)
  {
  }

  /** The follows table with its operations as the router performs them:
      fetch or create the row, change its flag, save. */
  class Follows {
    var rows: map<(int, int), Follow>
    var nextId: int

    function Table(): FollowTable
      reads this
    {
      FollowTable(rows, nextId)
    }

    constructor ()
      ensures rows == map[] && nextId == 1
    {
      rows := map[];
      nextId := 1;
    }

    method FollowingUser(follower: int, following: int) returns (resp: FollowResponse, saved: Option<Saved<Follow>>)
      modifies this
      ensures (Table(), resp, saved) == FollowStep(old(Table()), follower, following)
    {
      var key := (follower, following);
      saved := None;
      if key !in rows {
        rows := rows[key := Follow(nextId, true)];
        nextId := nextId + 1;
        saved := Some(Saved(true, rows[key]));
      }
      var follow := rows[key];
      if !follow.isFollowing {
        follow := follow.(isFollowing := true);
        rows := rows[key := follow];
        saved := Some(Saved(false, follow));
      }
      resp := FollowResponse(follower, following, follow.isFollowing);
    }

    method UnfollowingUser(follower: int, following: int) returns (resp: FollowResponse, saved: Option<Saved<Follow>>)
      modifies this
      ensures (Table(), resp, saved) == UnfollowStep(old(Table()), follower, following)
    {
      var key := (follower, following);
      saved := None;
      if key !in rows {
        return FollowResponse(follower, following, false), None;
      }
      var follow := rows[key];
      if follow.isFollowing {
        follow := follow.(isFollowing := false);
        rows := rows[key := follow];
        saved := Some(Saved(false, follow));
      }
      resp := FollowResponse(follower, following, follow.isFollowing);
    }
  }

  /** `get_my_followings`: the users, in table order, whom `me` follows
      through an active row. */
  function Followings(users: seq<User>, t: FollowTable, me: int): (r: seq<User>)
    ensures forall k :: 0 <= k < |r| ==> r[k] in users && (me, r[k].id) in t.rows && t.rows[(me, r[k].id)].isFollowing
    ensures forall k :: 0 <= k < |users| && (me, users[k].id) in t.rows && t.rows[(me, users[k].id)].isFollowing ==>
      users[k] in r
  {
    Filter(users, (u: User) => (me, u.id) in t.rows && t.rows[(me, u.id)].isFollowing)
  }

  /** `get_my_followers`: the users, in table order, who follow `me` through
      an active row. */
  function Followers(users: seq<User>, t: FollowTable, me: int): (r: seq<User>)
    ensures forall k :: 0 <= k < |r| ==> r[k] in users && (r[k].id, me) in t.rows && t.rows[(r[k].id, me)].isFollowing
    ensures forall k :: 0 <= k < |users| && (users[k].id, me) in t.rows && t.rows[(users[k].id, me)].isFollowing ==>
      users[k] in r
  {
    Filter(users, (u: User) => (u.id, me) in t.rows && t.rows[(u.id, me)].isFollowing)
  }

  /** A follow puts the followed user in the follower's followings and the
      follower in the followed user's followers; an unfollow takes them out
      of both. */
  lemma FollowListsTrackSteps(users: seq<User>, t: FollowTable, a: User, b: User)
    requires a in users && b in users
    ensures b in Followings(users, FollowStep(t, a.id, b.id).0, a.id)
    ensures a in Followers(users, FollowStep(t, a.id, b.id).0, b.id)
    ensures b !in Followings(users, UnfollowStep(t, a.id, b.id).0, a.id)
    ensures a !in Followers(users, UnfollowStep(t, a.id, b.id).0, b.id)
  {
    var i :| 0 <= i < |users| && users[i] == b;
    var j :| 0 <= j < |users| && users[j] == a;
    var t2 := UnfollowStep(t, a.id, b.id).0;
    UnfollowDeactivates(t, a.id, b.id);
  }

  /** Query parameters of `search_users`; None is an absent parameter. */
  datatype UserSearchParams = UserSearchParams(username: Option<string>, age: Option<int>, gender: Option<string>)

  /** `User.filter(**valid_query)` after the None parameters are dropped: a
      parameter that is None imposes no condition. */
  predicate MatchesSearch(u: User, q: UserSearchParams)
  {
    && (q.username.Some? ==> u.username == q.username.value)
    && (q.age.Some? ==> u.age == q.age.value)
    && (q.gender.Some? ==> u.gender == q.gender.value)
  }

  /** `search_users`: the matching users in table order, or 404 when there
      are none. */
  function SearchUsers(users: seq<User>, q: UserSearchParams): (r: Outcome<seq<User>>)
    ensures r.Raises? <==> forall k :: 0 <= k < |users| ==> !MatchesSearch(users[k], q)
    ensures r.Raises? ==> r.exc == HttpException(404, "Not Found")
    ensures r.Returns? ==>
      (forall k :: 0 <= k < |r.value| ==> r.value[k] in users && MatchesSearch(r.value[k], q)) &&
      (forall k :: 0 <= k < |users| && MatchesSearch(users[k], q) ==> users[k] in r.value)
  {
    var found := Filter(users, (u: User) => MatchesSearch(u, q));
    if |found| == 0 then Raises(HttpException(404, "Not Found"))
    else
      assert found[0] in users && MatchesSearch(found[0], q);
      Returns(found)
  }

  /** `get_all_users`: every user, or 404 when the table is empty. */
  function GetAllUsers(users: seq<User>): (r: Outcome<seq<User>>)
    ensures r.Raises? <==> users == []
  {
    if |users| == 0 then Raises(HttpException(404, "Not Found")) else Returns(users)
  }

  /** A search with every parameter None is the list of all users. */
  lemma EmptySearchIsAll(users: seq<User>)
    ensures SearchUsers(users, UserSearchParams(None, None, None)) == GetAllUsers(users)
  {
    FilterAll(users, (u: User) => MatchesSearch(u, UserSearchParams(None, None, None)));
  }

  /** The body of `update_user` (UserUpdateRequest); None is an absent field. */
  datatype UserUpdateRequest = UserUpdateRequest(username: Option<string>, age: Option<int>)

  /** `data.model_dump()`. */
  function Dump(req: UserUpdateRequest): map<string, Value>
  {
    map["username" := if req.username.Some? then Str(req.username.value) else Null,
        "age" := if req.age.Some? then Int(req.age.value) else Null]
  }

  /** Lines 122-128: drop the None fields, then replace a `password` by its
      hash under `hashed_password`. */
  function UpdateData(dumped: map<string, Value>, hash: string -> string): (d: map<string, Value>)
    requires "password" in dumped ==> dumped["password"].Str? || dumped["password"].Null?
    ensures "password" !in d
    ensures forall k :: k in d ==> d[k] != Null
    ensures forall k :: k in d && k != "hashed_password" ==> k in dumped && d[k] == dumped[k]
    ensures forall k :: k in dumped && dumped[k] != Null && k != "password" && k != "hashed_password" ==> k in d
    ensures "password" in dumped && dumped["password"] != Null ==>
      "hashed_password" in d && d["hashed_password"] == Str(hash(dumped["password"].s))
  {
    var kept := DropNone(dumped);
    if "password" in kept then (kept - {"password"})["hashed_password" := Str(hash(kept["password"].s))]
    else kept
  }

  /** `update_from_dict` on the fields a user update can carry. */
  function ApplyUserUpdate(u: User, d: map<string, Value>): User
  {
    u.(username := if "username" in d && d["username"].Str? then d["username"].s else u.username,
       age := if "age" in d && d["age"].Int? then d["age"].i else u.age,
       hashedPassword := if "hashed_password" in d && d["hashed_password"].Str? then d["hashed_password"].s else u.hashedPassword)
  }

  /** `update_user`: the user with the sent fields replaced and every field
      not sent (or sent as None) unchanged; the id never changes. */
  lemma UpdateUserPartial(u: User, req: UserUpdateRequest, hash: string -> string)
    ensures var u' := ApplyUserUpdate(u, UpdateData(Dump(req), hash));
            && u'.id == u.id && u'.gender == u.gender && u'.profileImageUrl == u.profileImageUrl
            && u'.hashedPassword == u.hashedPassword
            && u'.username == (if req.username.Some? then req.username.value else u.username)
            && u'.age == (if req.age.Some? then req.age.value else u.age)
  {
    var d := UpdateData(Dump(req), hash);
    assert "hashed_password" !in d;
  }

  /** A `password` in the update dictionary is stored only as its hash. */
  lemma UpdatePasswordIsHashed(u: User, password: string, hash: string -> string)
    ensures var d := UpdateData(map["password" := Str(password)], hash);
            "password" !in d && ApplyUserUpdate(u, d).hashedPassword == hash(password)
  {
  }

  /** The claims the login route puts in its tokens (lines 72-73). */
  function RouteLoginClaims(username: string): Claims
  {
    map["username" := Str(username)]
  }

  /** `login` route as written: `auth_service.login` returns the Response,
      which the route then treats as the user; reading `user.username` raises
      AttributeError, so no token of its own is ever issued. A failed
      authentication raises its 401 first. */
  function LoginRouteAsWritten(users: seq<User>, username: string, password: string, hasher: AuthService.Hasher): (r: Outcome<seq<JwtService.Cookie>>)
    ensures r.Raises?
  {
    match AuthService.Authenticate(users, username, password, hasher)
    case Raises(e) => Raises(e)
    case Returns(_) => Raises(Error("'Response' object has no attribute 'username'"))
  }

  /** With the right password the route as written still fails, with an
      error that is not an HTTPException. */
  lemma LoginRouteAlwaysFails(users: seq<User>, u: User, password: string, hasher: AuthService.Hasher)
    requires u in users && AuthService.UniqueUsernames(users) && hasher.verify(password, u.hashedPassword)
    ensures LoginRouteAsWritten(users, u.username, password, hasher) ==
            Raises(Error("'Response' object has no attribute 'username'"))
  {
    var i :| 0 <= i < |users| && users[i] == u;
    FilterSingle(users, AuthService.HasUsername(u.username), i);
  }

  /** The login route as its callers intend it: the 204 response of
      `AuthService.login`, i.e. its cookies. */
  function LoginRoute(svc: JwtService.Service, users: seq<User>, username: string, password: string,
                      hasher: AuthService.Hasher, now: int): (r: Outcome<seq<JwtService.Cookie>>)
    ensures r.Raises? <==> AuthService.Authenticate(users, username, password, hasher).Raises?
    ensures r.Returns? ==> |r.value| == 2 && r.value[0].key == "access_token" && r.value[1].key == "refresh_token"
  {
    match AuthService.Authenticate(users, username, password, hasher)
    case Raises(e) => Raises(e)
    case Returns(u) =>
      Returns([JwtService.TokenCookie("access_token", svc.CreateAccessToken(AuthService.LoginClaims(u), now), svc.accessTokenExpiresIn),
               JwtService.TokenCookie("refresh_token", svc.CreateRefreshToken(AuthService.LoginClaims(u), now), svc.refreshTokenExpiresIn)])
  }

  /** Logging in through the intended route signs the user in: its access
      cookie, presented before the token expires, resolves to that user. */
  lemma LoginRouteSignsIn(svc: JwtService.Service, users: seq<User>, u: User, password: string,
                          hasher: AuthService.Hasher, now: int, at: int)
    requires u in users && AuthService.UniqueIds(users) && AuthService.UniqueUsernames(users)
    requires hasher.verify(password, u.hashedPassword)
    requires at < now + svc.accessTokenExpiresIn * 60
    ensures var r := LoginRoute(svc, users, u.username, password, hasher, now);
            r.Returns? &&
            AuthService.CurrentUser(svc, map["access_token" := r.value[0].value], at, users) == Returns(u)
  {
    var i :| 0 <= i < |users| && users[i] == u;
    FilterSingle(users, AuthService.HasUsername(u.username), i);
    AuthService.LoginThenCurrentUser(svc, users, u, now, at);
  }
}
