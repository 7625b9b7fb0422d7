/** AuthService (app/services/auth.py): the cookie / decode / lookup chain of
    `get_current_user`, the username / password chain of `authenticate`, and
    `login`. The persisted user table is a sequence of rows in table order;
    passlib's bcrypt context is a pair of functions given by the caller. */
module AuthService {
  import opened Base
  import opened Models
  import JwtService

  /** passlib's `CryptContext`: `hash` and `verify`. */
  datatype Hasher = Hasher(hash: string -> string, verify: (string, string) -> bool)

  /** What bcrypt guarantees and the model relies on: a password verifies
      against its own hash. */
  ghost predicate Sound(h: Hasher)
  {
    forall p :: h.verify(p, h.hash(p))
  }

  const MISSING_TOKEN_DETAIL := "This Request requires an access token."
  const INVALID_ACCESS_TOKEN_DETAIL := "Invalid Access Token."
  const PASSWORD_INCORRECT_DETAIL := "password incorrect."

  function UsernameNotFoundDetail(username: string): string
  {
    "username: " + username + " - not found."
  }

  /** The lookup `User.get_or_none(id=v)`. */
  function HasId(v: Value): User -> bool
  {
    (u: User) => Int(u.id) == v
  }

  /** The lookup `User.get_or_none(username=name)`. */
  function HasUsername(name: string): User -> bool
  {
    (u: User) => u.username == name
  }

  /** `if not access_token`: the cookie is absent or empty. */
  predicate NoAccessToken(cookies: map<string, JwtService.Token>)
  {
    "access_token" !in cookies || cookies["access_token"] == JwtService.Other("")
  }

  /** What `get_current_user` decides for a request carrying `cookies`: the
      user it attaches to the request, or the exception it raises. A missing
      `user_id` claim raises Python's KeyError, whose `str` is "'user_id'". */
  function CurrentUser(svc: JwtService.Service, cookies: map<string, JwtService.Token>, now: int, users: seq<User>): (r: Outcome<User>)
    ensures NoAccessToken(cookies) <==> r == Raises(HttpException(401, MISSING_TOKEN_DETAIL))
    ensures r.Returns? ==>
      var decoded := svc.Decode(cookies["access_token"], now);
      decoded.Returns? && "user_id" in decoded.value &&
      decoded.value["user_id"] == Int(r.value.id) && r.value in users
    ensures !NoAccessToken(cookies) && svc.Decode(cookies["access_token"], now).Raises? ==>
      r == Raises(svc.Decode(cookies["access_token"], now).exc)
    ensures !NoAccessToken(cookies) && svc.Decode(cookies["access_token"], now).Returns? ==>
      var decoded := svc.Decode(cookies["access_token"], now).value;
      && ("user_id" !in decoded ==> r == Raises(Error("'user_id'")))
      && ("user_id" in decoded && (forall k :: 0 <= k < |users| ==> Int(users[k].id) != decoded["user_id"]) ==>
            r == Raises(HttpException(401, INVALID_ACCESS_TOKEN_DETAIL)))
    ensures r.Raises? && r.exc.HttpException? ==> r.exc.status == 401
  {
    if NoAccessToken(cookies) then Raises(HttpException(401, MISSING_TOKEN_DETAIL))
    else match svc.Decode(cookies["access_token"], now)
      case Raises(e) => Raises(e)
      case Returns(decoded) =>
        if "user_id" !in decoded then Raises(Error("'user_id'"))
        else match GetOrNone(users, HasId(decoded["user_id"]))
          case Raises(e) => Raises(e)
          case Returns(None) => Raises(HttpException(401, INVALID_ACCESS_TOKEN_DETAIL))
          case Returns(Some(u)) => Returns(u)
  }

  /** A token that decodes to the id of a user in a table with unique ids
      resolves to that user. */
  lemma CurrentUserFindsUser(svc: JwtService.Service, cookies: map<string, JwtService.Token>, now: int, users: seq<User>, u: User)
    requires u in users && UniqueIds(users)
    requires !NoAccessToken(cookies)
    requires svc.Decode(cookies["access_token"], now).Returns?
    requires var decoded := svc.Decode(cookies["access_token"], now).value;
             "user_id" in decoded && decoded["user_id"] == Int(u.id)
    ensures CurrentUser(svc, cookies, now, users) == Returns(u)
  {
    var i :| 0 <= i < |users| && users[i] == u;
    FilterSingle(users, HasId(Int(u.id)), i);
  }

  /** A request as the middleware and handlers see it: its path, its
      cookies and `request.state.user`. */
  class Request {
    const path: string
    const cookies: map<string, JwtService.Token>
    var stateUser: Option<User>

    constructor (path: string, cookies: map<string, JwtService.Token>)
      ensures this.path == path && this.cookies == cookies && stateUser == None
    {
      this.path := path;
      this.cookies := cookies;
      stateUser := None;
    }
  }

  /** `get_current_user(request)`: on success stores the user in
      `request.state.user` and returns the same request; on failure raises
      and leaves the request as it was. */
  method GetCurrentUser(svc: JwtService.Service, request: Request, now: int, users: seq<User>) returns (r: Outcome<Request>)
    modifies request
    ensures match CurrentUser(svc, request.cookies, now, users)
      case Returns(u) => r == Returns(request) && request.stateUser == Some(u)
      case Raises(e) => r == Raises(e) && request.stateUser == old(request.stateUser)
  {
    var decision := CurrentUser(svc, request.cookies, now, users);
    match decision
    case Raises(e) =>
      r := Raises(e);
    case Returns(u) =>
      request.stateUser := Some(u);
      r := Returns(request);
  }

  /** `authenticate`: the single user with that username whose stored hash
      verifies the password; an unknown username and a wrong password each
      raise 401. */
  function Authenticate(users: seq<User>, username: string, password: string, hasher: Hasher): (r: Outcome<User>)
    ensures r.Returns? ==>
      r.value in users && r.value.username == username && hasher.verify(password, r.value.hashedPassword)
    ensures (forall k :: 0 <= k < |users| ==> users[k].username != username) <==>
      r == Raises(HttpException(401, UsernameNotFoundDetail(username)))
    ensures r == Raises(HttpException(401, PASSWORD_INCORRECT_DETAIL)) ==>
      exists k :: 0 <= k < |users| && users[k].username == username &&
                  !hasher.verify(password, users[k].hashedPassword)
    ensures GetOrNone(users, HasUsername(username)).Returns? && GetOrNone(users, HasUsername(username)).value.Some? ==>
      var u := GetOrNone(users, HasUsername(username)).value.value;
      && (hasher.verify(password, u.hashedPassword) ==> r == Returns(u))
      && (!hasher.verify(password, u.hashedPassword) ==> r == Raises(HttpException(401, PASSWORD_INCORRECT_DETAIL)))
  {
    match GetOrNone(users, HasUsername(username))
    case Raises(e) => Raises(e)
    case Returns(None) => Raises(HttpException(401, UsernameNotFoundDetail(username)))
    case Returns(Some(u)) =>
      if !hasher.verify(password, u.hashedPassword) then Raises(HttpException(401, PASSWORD_INCORRECT_DETAIL))
      else Returns(u)
  }

  /** In a table with unique usernames, the right password returns that
      user and a wrong one is 401 "password incorrect.". */
  lemma AuthenticateUser(users: seq<User>, u: User, password: string, hasher: Hasher)
    requires u in users && UniqueUsernames(users)
    ensures Authenticate(users, u.username, password, hasher) ==
            if hasher.verify(password, u.hashedPassword) then Returns(u)
            else Raises(HttpException(401, PASSWORD_INCORRECT_DETAIL))
  {
    var i :| 0 <= i < |users| && users[i] == u;
    FilterSingle(users, HasUsername(u.username), i);
  }

  /** The claims `login` issues both tokens with. */
  function LoginClaims(u: User): Claims
  {
    map["user_id" := Int(u.id)]
  }

  /** `login`: authenticate, then a 204 response carrying an access and a
      refresh token, both with the claims {"user_id": user.id}. */
  method Login(svc: JwtService.Service, users: seq<User>, username: string, password: string, hasher: Hasher, now: int)
    returns (r: Outcome<JwtService.Response>)
    ensures Authenticate(users, username, password, hasher).Raises? ==>
      r == Raises(Authenticate(users, username, password, hasher).exc)
    ensures Authenticate(users, username, password, hasher).Returns? ==>
      var u := Authenticate(users, username, password, hasher).value;
      r.Returns? && fresh(r.value) && r.value.statusCode == 204 &&
      r.value.cookies == [
        JwtService.TokenCookie("access_token", svc.CreateAccessToken(LoginClaims(u), now), svc.accessTokenExpiresIn),
        JwtService.TokenCookie("refresh_token", svc.CreateRefreshToken(LoginClaims(u), now), svc.refreshTokenExpiresIn)]
  {
    match Authenticate(users, username, password, hasher)
    case Raises(e) =>
      r := Raises(e);
    case Returns(u) =>
      var accessToken := svc.CreateAccessToken(map["user_id" := Int(u.id)], now);
      var refreshToken := svc.CreateRefreshToken(map["user_id" := Int(u.id)], now);
      var response := new JwtService.Response(204);
      JwtService.AttachJwtTokenInResponseCookie(svc, accessToken, refreshToken, response);
      r := Returns(response);
  }

  /** No two rows of the user table share an id (the primary key). */
  predicate UniqueIds(users: seq<User>)
  {
    forall i, j :: 0 <= i < |users| && 0 <= j < |users| && users[i].id == users[j].id ==> i == j
  }

  /** No two rows of the user table share a username (a unique column). */
  predicate UniqueUsernames(users: seq<User>)
  {
    forall i, j :: 0 <= i < |users| && 0 <= j < |users| && users[i].username == users[j].username ==> i == j
  }

  /** Login followed by a request: the access token `login` issues, presented
      as the `access_token` cookie before it expires, resolves to the very
      user who logged in. */
  lemma LoginThenCurrentUser(svc: JwtService.Service, users: seq<User>, u: User, now: int, at: int)
    requires u in users && UniqueIds(users)
    requires at < now + svc.accessTokenExpiresIn * 60
    ensures CurrentUser(svc, map["access_token" := svc.CreateAccessToken(LoginClaims(u), now)], at, users) == Returns(u)
  {
    var token := svc.CreateAccessToken(LoginClaims(u), now);
    JwtService.DecodeEncode(svc, LoginClaims(u), svc.accessTokenExpiresIn, now, at);
    var decoded := svc.Decode(token, at).value;
    assert decoded["user_id"] == Int(u.id);
    CurrentUserFindsUser(svc, map["access_token" := token], at, users, u);
  }

  /** A token whose claims lack `user_id` gets past the decode but then
      raises KeyError, which is not an HTTPException. */
  lemma MissingUserIdClaim(svc: JwtService.Service, data: Claims, users: seq<User>, now: int, at: int)
    requires "user_id" !in data
    requires at < now + svc.accessTokenExpiresIn * 60
    ensures CurrentUser(svc, map["access_token" := svc.CreateAccessToken(data, now)], at, users) == Raises(Error("'user_id'"))
  {
    JwtService.DecodeEncode(svc, data, svc.accessTokenExpiresIn, now, at);
  }
}
