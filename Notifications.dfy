/** The WebSocket route `websocket_notifications` (app/routers/notifications.py).
    The verification block is a chain of early returns over two collaborators,
    the token decoder and the user lookup, which are parameters here. The
    route as written calls `JWTService.decode_token`, which JWTService does not
    define, and passes a username to `AuthService.get_current_user`, which
    takes a request; both raise AttributeError, and `AsWritten` instantiates
    the chain with exactly those collaborators. */
module Notifications {
  import opened Base
  import opened Models
  import opened WebSocketManager

  /** The close code every rejected handshake uses. */
  const UNAUTHORIZED_CLOSE := 4001
  const HEADER_REQUIRED := "Authorization header required"
  const INVALID_TOKEN := "Invalid token"
  const USER_NOT_FOUND := "User not found"

  /** The outcome of the verification block: a close with 4001 and a
      reason, or the user to register the connection for. */
  datatype Verdict = Reject(reason: string) | Accept(user: User)

  /** The token is the second space-separated field of the header
      (`token.split(" ")[1]`); None where Python raises IndexError. */
  function TokenField(header: string): (r: Option<string>)
    ensures r.None? <==> ' ' !in header
    ensures r.Some? ==> r.value == Split(header, ' ')[1] && ' ' !in r.value
  {
    var parts := Split(header, ' ');
    SplitFieldsFree(header, ' ');
    if |parts| < 2 then None else Some(parts[1])
  }

  /** Lines 12-40: the header check, then the `try` block in which any
      exception closes with "Invalid token". */
  function Verify(header: Option<string>,
                  decodeToken: string -> Outcome<Claims>,
                  getCurrentUser: Value -> Outcome<Option<User>>): (v: Verdict)
    ensures v.Reject? && v.reason == HEADER_REQUIRED <==> header.None? || header.value == ""
    ensures v.Reject? ==> v.reason in {HEADER_REQUIRED, INVALID_TOKEN, USER_NOT_FOUND}
    ensures v.Accept? ==>
      header.Some? && TokenField(header.value).Some? &&
      var payload := decodeToken(TokenField(header.value).value);
      payload.Returns? && "username" in payload.value && Truthy(payload.value["username"]) &&
      getCurrentUser(payload.value["username"]) == Returns(Some(v.user))
    ensures (header.Some? && TokenField(header.value).Some? &&
             var payload := decodeToken(TokenField(header.value).value);
             payload.Returns? && "username" in payload.value && Truthy(payload.value["username"]) &&
             var found := getCurrentUser(payload.value["username"]);
             found.Returns? && found.value.Some?) ==>
      v == Accept(getCurrentUser(decodeToken(TokenField(header.value).value).value["username"]).value.value)
  {
    if header.None? || header.value == "" then Reject(HEADER_REQUIRED)
    else match TokenField(header.value)
      case None => Reject(INVALID_TOKEN)
      case Some(token) =>
        match decodeToken(token)
        case Raises(_) => Reject(INVALID_TOKEN)
        case Returns(payload) =>
          if "username" !in payload || !Truthy(payload["username"]) then Reject(INVALID_TOKEN)
          else match getCurrentUser(payload["username"])
            case Raises(_) => Reject(INVALID_TOKEN)
            case Returns(None) => Reject(USER_NOT_FOUND)
            case Returns(Some(u)) => Accept(u)
  }

  /** `jwt_service.decode_token`: the attribute does not exist. */
  function DecodeTokenAsWritten(token: string): Outcome<Claims>
  {
    Raises(Error("'JWTService' object has no attribute 'decode_token'"))
  }

  /** `auth_service.get_current_user(username)`: reading `.cookies` of the
      username fails. */
  function GetCurrentUserAsWritten(username: Value): Outcome<Option<User>>
  {
    match username
    case Str(_) => Raises(Error("'str' object has no attribute 'cookies'"))
    case Int(_) => Raises(Error("'int' object has no attribute 'cookies'"))
    case Null => Raises(Error("'NoneType' object has no attribute 'cookies'"))
  }

  /** The verification block as the repository has it. */
  function AsWritten(header: Option<string>): Verdict
  {
    Verify(header, DecodeTokenAsWritten, GetCurrentUserAsWritten)
  }

  /** As written, no handshake is ever accepted: a missing or empty header
      closes with "Authorization header required", any other header with
      "Invalid token". */
  lemma AsWrittenRejectsEveryHandshake(header: Option<string>)
    ensures AsWritten(header).Reject?
    ensures header.Some? && header.value != "" ==> AsWritten(header) == Reject(INVALID_TOKEN)
  {
  }

  /** Rejection causes of the chain, one per early return. */
  lemma VerifyRejections(header: string,
                         decodeToken: string -> Outcome<Claims>,
                         getCurrentUser: Value -> Outcome<Option<User>>)
    requires header != ""
    ensures ' ' !in header ==> Verify(Some(header), decodeToken, getCurrentUser) == Reject(INVALID_TOKEN)
    ensures ' ' in header && decodeToken(TokenField(header).value).Raises? ==>
      Verify(Some(header), decodeToken, getCurrentUser) == Reject(INVALID_TOKEN)
    ensures (' ' in header && decodeToken(TokenField(header).value).Returns? &&
             (var p := decodeToken(TokenField(header).value).value;
              "username" !in p || !Truthy(p["username"]))) ==>
      Verify(Some(header), decodeToken, getCurrentUser) == Reject(INVALID_TOKEN)
    ensures (' ' in header && decodeToken(TokenField(header).value).Returns? &&
             (var p := decodeToken(TokenField(header).value).value;
              "username" in p && Truthy(p["username"]) && getCurrentUser(p["username"]).Raises?)) ==>
      Verify(Some(header), decodeToken, getCurrentUser) == Reject(INVALID_TOKEN)
    ensures (' ' in header && decodeToken(TokenField(header).value).Returns? &&
             (var p := decodeToken(TokenField(header).value).value;
              "username" in p && Truthy(p["username"]) && getCurrentUser(p["username"]) == Returns(None))) ==>
      Verify(Some(header), decodeToken, getCurrentUser) == Reject(USER_NOT_FOUND)
  {
  }

  /** How the receive loop (lines 44-49) ended. Starlette's raw `receive`
      does not raise WebSocketDisconnect when the peer closes: it returns the
      disconnect message and marks the socket DISCONNECTED, so a peer close
      ends the loop through its condition (`StateDisconnected`).
      `PeerDisconnected` covers a WebSocketDisconnect raised by whatever
      the socket object is. */
  datatype LoopExit =
    | PeerDisconnected      // the loop ended in WebSocketDisconnect
    | StateDisconnected     // the loop condition saw DISCONNECTED
    | OtherFailure          // any other exception, which propagates

  /** `websocket_notifications`: a rejected handshake closes the socket
      with 4001 and leaves the registry alone; an accepted one registers the
      user's connection, which is removed again only when the receive loop
      ends with WebSocketDisconnect. */
  method WebsocketNotifications<H(==)>(
    manager: ConnectionManager<H>, websocket: H, header: Option<string>,
    decodeToken: string -> Outcome<Claims>, getCurrentUser: Value -> Outcome<Option<User>>,
    exit: LoopExit)
    returns (closed: Option<(int, string)>)
    requires manager.Valid()
    modifies manager
    ensures manager.Valid()
    ensures match Verify(header, decodeToken, getCurrentUser)
      case Reject(reason) =>
        closed == Some((UNAUTHORIZED_CLOSE, reason)) && manager.State() == old(manager.State()) && manager.wire == old(manager.wire)
      case Accept(u) =>
        closed == None && manager.wire == old(manager.wire) + [Accepted(websocket)] &&
        manager.State() ==
          if exit == PeerDisconnected then Remove(Insert(old(manager.State()), u.id, websocket), websocket)
          else Insert(old(manager.State()), u.id, websocket)
  {
    match Verify(header, decodeToken, getCurrentUser)
    case Reject(reason) =>
      closed := Some((UNAUTHORIZED_CLOSE, reason));
    case Accept(user) =>
      closed := None;
      manager.Connect(user.id, websocket);
      if exit == PeerDisconnected {
        manager.Disconnect(websocket);
      }
  }

  /** A connection registered by the handshake whose receive loop ends in
      WebSocketDisconnect is gone from the registry, provided no other entry
      shares its handle; a loop that ends on the state check, as a peer
      close does, leaves the entry behind. */
  lemma {:induction false} SessionLifetime<H>(r: Registry<H>, userId: int, ws: H)
    requires r.Valid()
    requires forall u :: u in r.conns && u != userId ==> r.conns[u] != ws
    ensures userId !in Remove(Insert(r, userId, ws), ws).conns
    ensures Insert(r, userId, ws).conns[userId] == ws
  {
    var r1 := Insert(r, userId, ws);
    assert r1.conns[userId] == ws;
    var j := FirstIndexOf(r1, ws).value;
    assert r1.keys[j] == userId;
  }
}
