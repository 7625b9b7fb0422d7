/** AuthMiddleware.dispatch (app/middleware/auth.py): which paths pass
    through `get_current_user`, and how exceptions become JSON responses.
    The handler (`call_next`) is a function from the user attached to the
    request (None when the gate did not run) to what the handler does. */
module AuthMiddleware {
  import opened Base
  import opened Models

  /** Paths under "/users" that skip authentication. */
  const PUBLIC_USER_PATHS := ["/users/login", "/users", "/users/search"]

  /** The path must go through `get_current_user` before the handler. */
  predicate RequiresAuth(path: string)
  {
    StartsWith(path, "/users") && path !in PUBLIC_USER_PATHS
  }

  /** A response leaving the middleware: the handler's own, or the JSON
      response an exception was turned into. */
  datatype Reply<R> = Handled(response: R) | JsonResponse(status: int, detail: string)

  /** `except HTTPException` keeps its status and detail; any other exception
      becomes 500 with `str(e)` as the detail. */
  function ToJson<R>(e: Exc): (r: Reply<R>)
    ensures r.JsonResponse?
    ensures e.HttpException? ==> r.status == e.status && r.detail == e.detail
    ensures e.Error? ==> r.status == 500 && r.detail == e.message
  {
    match e
    case HttpException(status, detail) => JsonResponse(status, detail)
    case Error(message) => JsonResponse(500, message)
  }

  /** `dispatch`: on a gated path the handler runs only on the request that
      `get_current_user` returned, with that user attached; on any other path
      it runs on the request as it came. `currentUser` is what
      `get_current_user` does for this request. */
  function Dispatch<R>(path: string, currentUser: Outcome<User>, callNext: Option<User> -> Outcome<R>): (r: Reply<R>)
    ensures !RequiresAuth(path) ==> r == Respond(callNext(None))
    ensures RequiresAuth(path) && currentUser.Raises? ==> r == ToJson(currentUser.exc)
    ensures RequiresAuth(path) && currentUser.Returns? ==> r == Respond(callNext(Some(currentUser.value)))
  {
    if RequiresAuth(path) then
      match currentUser
      case Raises(e) => ToJson(e)
      case Returns(u) => Respond(callNext(Some(u)))
    else Respond(callNext(None))
  }

  function Respond<R>(handled: Outcome<R>): Reply<R>
  {
    match handled
    case Returns(response) => Handled(response)
    case Raises(e) => ToJson(e)
  }

  /** Paths outside "/users" never authenticate: the handler's outcome is
      the reply, whatever `get_current_user` would have done. */
  lemma OtherPathsSkipAuth<R>(path: string, currentUser: Outcome<User>, callNext: Option<User> -> Outcome<R>)
    requires !StartsWith(path, "/users")
    ensures Dispatch(path, currentUser, callNext) == Respond(callNext(None))
  {
  }

  /** Concrete paths, checked one by one: exactly the three listed paths are
      public under "/users"; "/users/", "/users/me", "/users/1/follow" and
      even "/usersearch" are gated. */
  lemma GatedPaths()
    ensures !RequiresAuth("/users/login") && !RequiresAuth("/users") && !RequiresAuth("/users/search")
    ensures RequiresAuth("/users/") && RequiresAuth("/users/me") && RequiresAuth("/users/1/follow")
    ensures RequiresAuth("/usersearch")
    ensures !RequiresAuth("/movies") && !RequiresAuth("/reviews/1") && !RequiresAuth("/notifications")
  {
    assert "/users/"[..6] == "/users";
    assert "/users/me"[..6] == "/users";
    assert "/users/1/follow"[..6] == "/users";
    assert "/usersearch"[..6] == "/users";
    assert "/movies"[..6] != "/users" by { assert "/movies"[1] == 'm'; }
    assert "/reviews/1"[..6] != "/users" by { assert "/reviews/1"[1] == 'r'; }
    assert "/notifications"[..6] != "/users" by { assert "/notifications"[1] == 'n'; }
  }

  /** Short circuit: on a gated path a rejected authentication is the reply,
      so the handler cannot influence it (it does not run). */
  lemma RejectionShortCircuits<R>(path: string, e: Exc, h1: Option<User> -> Outcome<R>, h2: Option<User> -> Outcome<R>)
    requires RequiresAuth(path)
    ensures Dispatch(path, Raises(e), h1) == Dispatch(path, Raises(e), h2) == ToJson(e)
  {
  }

  /** On a gated path the handler only ever sees a request with the
      authenticated user attached. */
  lemma GatedHandlerSeesUser<R>(path: string, u: User, callNext: Option<User> -> Outcome<R>)
    requires RequiresAuth(path)
    ensures Dispatch(path, Returns(u), callNext) == Respond(callNext(Some(u)))
  {
  }
}
