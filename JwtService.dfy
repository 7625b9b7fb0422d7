/** JWTService (app/services/jwt.py) with the configuration it reads
    (app/configs/base.py). PyJWT's encode/decode pair is modelled on the
    structure of a token rather than its bytes: a well-formed token records
    the algorithm named in its header, its claims and the key it was signed
    with, so that the round trip and the rejection of foreign keys are proved
    rather than taken on trust. Wall-clock time is a parameter: `now` is the current
    instant in whole seconds since the epoch. */
module JwtService {
  import opened Base

  const SECRET_KEY := "default_secret_key"
  const JWT_ALGORITHM := "HS256"
  const JWT_ACCESS_TOKEN_EXPIRE_MINUTES := 30
  const JWT_REFRESH_TOKEN_EXPIRE_MINUTES := 60 * 24 * 7

  /** Token text: `Compact` is a well-formed compact JWS (header algorithm,
      payload claims, signing key); `Other` is any other text, including the
      empty string. */
  datatype Token = Compact(alg: string, claims: Claims, key: string) | Other(text: string)

  /** Why PyJWT's decode refuses a token, in the order it checks. */
  datatype Failure = Malformed | DisallowedAlgorithm | BadSignature | ExpNotInteger | Expired

  /** `str(e)` of the exception PyJWT raises for each failure. */
  function FailureText(f: Failure): string
  {
    match f
    case Malformed => "Not enough segments"
    case DisallowedAlgorithm => "The specified alg value is not allowed"
    case BadSignature => "Signature verification failed"
    case ExpNotInteger => "Expiration Time claim (exp) must be an integer."
    case Expired => "Signature has expired"
  }

  datatype Decoded = Valid(claims: Claims) | Invalid(failure: Failure)

  /** PyJWT's `jwt.decode(token, key, algorithms=...)` at instant `now`:
      parse, check the header algorithm, check the signature, then reject an
      `exp` that is not an integer or not after `now`. */
  function PyJwtDecode(token: Token, key: string, algorithms: seq<string>, now: int): (r: Decoded)
    ensures r.Valid? <==>
      token.Compact? && token.alg in algorithms && token.key == key &&
      ("exp" in token.claims ==> token.claims["exp"].Int? && now < token.claims["exp"].i)
    ensures r.Valid? ==> r.claims == token.claims
  {
    match token
    case Other(_) => Invalid(Malformed)
    case Compact(alg, claims, signer) =>
      if alg !in algorithms then Invalid(DisallowedAlgorithm)
      else if signer != key then Invalid(BadSignature)
      else if "exp" !in claims then Valid(claims)
      else if !claims["exp"].Int? then Invalid(ExpNotInteger)
      else if claims["exp"].i <= now then Invalid(Expired)
      else Valid(claims)
  }

  /** A JWTService instance: the fields its constructor copies from config. */
  datatype Service = Service(
    algorithm: string,
    accessTokenExpiresIn: int,
    refreshTokenExpiresIn: int,
    secretKey: string)
  {
    /** `_encode`: a copy of `data` with `exp` set to `now` plus `expiresIn`
        minutes, signed with the service's key and algorithm. */
    function Encode(data: Claims, expiresIn: int, now: int): (t: Token)
      ensures t.Compact? && t.alg == algorithm && t.key == secretKey
      ensures t.claims.Keys == data.Keys + {"exp"}
      ensures t.claims["exp"] == Int(now + expiresIn * 60)
      ensures forall k :: k in data && k != "exp" ==> t.claims[k] == data[k]
    {
      Compact(algorithm, data["exp" := Int(now + expiresIn * 60)], secretKey)
    }

    /** `_decode`: PyJWT's decode with the service's key, allowing only the
        service's algorithm; every failure becomes a 401 HTTPException. */
    function Decode(token: Token, now: int): (r: Outcome<Claims>)
      ensures r.Raises? ==> r.exc.HttpException? && r.exc.status == 401
      ensures r.Returns? ==> token.Compact? && token.key == secretKey && r.value == token.claims
    {
      match PyJwtDecode(token, secretKey, [algorithm], now)
      case Valid(claims) => Returns(claims)
      case Invalid(f) => Raises(HttpException(401, FailureText(f)))
    }

    /** `create_access_token`: the claims with an `exp` the access lifetime
        after `now`. */
    function CreateAccessToken(data: Claims, now: int): (t: Token)
      ensures t.Compact? && t.key == secretKey && t.claims.Keys == data.Keys + {"exp"}
      ensures t.claims["exp"] == Int(now + accessTokenExpiresIn * 60)
      ensures forall k :: k in data && k != "exp" ==> t.claims[k] == data[k]
    {
      Encode(data, accessTokenExpiresIn, now)
    }

    /** `create_refresh_token`: the claims with an `exp` the refresh
        lifetime after `now`. */
    function CreateRefreshToken(data: Claims, now: int): (t: Token)
      ensures t.Compact? && t.key == secretKey && t.claims.Keys == data.Keys + {"exp"}
      ensures t.claims["exp"] == Int(now + refreshTokenExpiresIn * 60)
      ensures forall k :: k in data && k != "exp" ==> t.claims[k] == data[k]
    {
      Encode(data, refreshTokenExpiresIn, now)
    }
  }

  /** The service as constructed from the default configuration. */
  const Default := Service(JWT_ALGORITHM, JWT_ACCESS_TOKEN_EXPIRE_MINUTES,
                           JWT_REFRESH_TOKEN_EXPIRE_MINUTES, SECRET_KEY)

  /** The expiry instant a token carries, if it carries an integer one. */
  function ExpiryOf(t: Token): Option<int>
  {
    if t.Compact? && "exp" in t.claims && t.claims["exp"].Int? then Some(t.claims["exp"].i) else None
  }

  /** Round trip: a token issued at `now` decodes, at any instant before its
      expiry, to the caller's claims with `exp` added, and at or after the
      expiry is refused with 401 "Signature has expired". */
  lemma {:induction false} DecodeEncode(svc: Service, data: Claims, expiresIn: int, now: int, at: int)
    ensures at < now + expiresIn * 60 ==>
      svc.Decode(svc.Encode(data, expiresIn, now), at) == Returns(data["exp" := Int(now + expiresIn * 60)])
    ensures at >= now + expiresIn * 60 ==>
      svc.Decode(svc.Encode(data, expiresIn, now), at) == Raises(HttpException(401, "Signature has expired"))
  {
    var t := svc.Encode(data, expiresIn, now);
    assert t.alg in [svc.algorithm];
    assert t.claims["exp"] == Int(now + expiresIn * 60);
  }

  /** Every claim of the caller survives the round trip unchanged, except a
      caller-supplied `exp`, which issuance overwrites. */
  lemma DecodeRecoversClaims(svc: Service, data: Claims, expiresIn: int, now: int, at: int, k: string)
    requires at < now + expiresIn * 60
    requires k in data && k != "exp"
    ensures var r := svc.Decode(svc.Encode(data, expiresIn, now), at);
            r.Returns? && k in r.value && r.value[k] == data[k]
  {
    DecodeEncode(svc, data, expiresIn, now, at);
  }

  /** A token signed with any other key is refused with 401 before its
      expiry is looked at. */
  lemma ForeignKeyRejected(svc: Service, t: Token, at: int)
    requires t.Compact? && t.alg == svc.algorithm && t.key != svc.secretKey
    ensures svc.Decode(t, at) == Raises(HttpException(401, "Signature verification failed"))
  {
  }

  /** With the default configuration an access token lives 30 minutes and a
      refresh token 7 days. */
  lemma DefaultLifetimes(data: Claims, now: int)
    ensures ExpiryOf(Default.CreateAccessToken(data, now)) == Some(now + 1800)
    ensures ExpiryOf(Default.CreateRefreshToken(data, now)) == Some(now + 604800)
  {
  }

  /** One `Set-Cookie` as Starlette's `set_cookie` records it. */
  datatype Cookie = Cookie(
    key: string,
    value: Token,
    expires: int,
    httponly: bool,
    secure: bool,
    samesite: string)

  /** The cookie JWTService sets for a token that lives `minutes` minutes. */
  function TokenCookie(key: string, value: Token, minutes: int): Cookie
  {
    Cookie(key, value, minutes * 60, false, false, "lax")
  }

  /** A cookie set at the instant a token was issued expires exactly when
      the token does. */
  lemma CookieExpiresWithToken(svc: Service, data: Claims, now: int)
    ensures var t := svc.CreateAccessToken(data, now);
            ExpiryOf(t) == Some(now + TokenCookie("access_token", t, svc.accessTokenExpiresIn).expires)
    ensures var t := svc.CreateRefreshToken(data, now);
            ExpiryOf(t) == Some(now + TokenCookie("refresh_token", t, svc.refreshTokenExpiresIn).expires)
  {
  }

  /** A Starlette response: its status and the cookies set on it, in order. */
  class Response {
    var statusCode: int
    var cookies: seq<Cookie>

    constructor (statusCode: int)
      ensures this.statusCode == statusCode && cookies == []
    {
      this.statusCode := statusCode;
      cookies := [];
    }

    method SetCookie(c: Cookie)
      modifies this
      ensures cookies == old(cookies) + [c] && statusCode == old(statusCode)
    {
      cookies := cookies + [c];
    }
  }

  /** `attach_jwt_token_in_response_cookie`: sets the access cookie, then
      the refresh cookie, each living its token's lifetime in seconds, with
      SameSite "lax", not HttpOnly and not Secure. */
  method AttachJwtTokenInResponseCookie(svc: Service, accessToken: Token, refreshToken: Token, response: Response)
    modifies response
    ensures response.statusCode == old(response.statusCode)
    ensures response.cookies == old(response.cookies) + [
      TokenCookie("access_token", accessToken, svc.accessTokenExpiresIn),
      TokenCookie("refresh_token", refreshToken, svc.refreshTokenExpiresIn)]
  {
    response.SetCookie(Cookie("access_token", accessToken, svc.accessTokenExpiresIn * 60, false, false, "lax"));
    response.SetCookie(Cookie("refresh_token", refreshToken, svc.refreshTokenExpiresIn * 60, false, false, "lax"));
  }
}
