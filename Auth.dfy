/** Token payloads, expiry arithmetic and the `sub` guard of the token
    decoders (internal/auth.py). Signing and verifying are pyjwt calls; the
    model keeps a token as the claim set and the key it was signed with, and
    gives `Decode` the checks pyjwt makes for HS256: the key must match and
    an `exp` claim must lie strictly after the clock reading. Time is whole
    seconds since the epoch. */
module Auth {
  import opened Builtins
  import opened Errors

  const JWT_ACCESS_TOKEN_EXPIRE_MINUTES: int := 30
  const JWT_REFRESH_TOKEN_EXPIRE_MINUTES: int := 60 * 24 * 7

  const SECONDS_PER_MINUTE: int := 60
  const SECONDS_PER_DAY: int := 24 * 60 * 60

  const COULD_NOT_VALIDATE_CREDENTIALS := "Could not validate credentials"

  /** JWT_ACCESS_SECRET_KEY and JWT_REFRESH_SECRET_KEY. */
  datatype Secrets = Secrets(access: string, refresh: string)

  /** A token string: one that pyjwt signed over a claim set with a key, or
      any other string (e.g. "some_invalid_access_token"). */
  datatype Jwt = Signed(claims: Dict, key: string) | Garbled(text: string)

  /** The InvalidTokenError subclasses pyjwt raises. */
  datatype JwtError = ExpiredSignature | InvalidSignature | DecodeError(reason: string)

  /** `str(e)` of a pyjwt error. */
  function JwtErrorMessage(e: JwtError): string {
    match e
    case ExpiredSignature => "Signature has expired"
    case InvalidSignature => "Signature verification failed"
    case DecodeError(reason) => reason
  }

  /** `timedelta(n)`: a positional argument counts DAYS; the result is in seconds. */
  function Timedelta(days: int): int {
    days * SECONDS_PER_DAY
  }

  /** `jwt.encode(claims, key)`. */
  function Encode(claims: Dict, key: string): Jwt {
    Signed(claims, key)
  }

  /** `jwt.decode(token, key, algorithms=[HS256])` at clock reading `now`. */
  function Decode(token: Jwt, key: string, now: int): (r: Result<Dict, JwtError>)
    ensures r.Ok? <==> token.Signed? && token.key == key && !ExpiredAt(token.claims, now)
    ensures r.Ok? ==> r.value == token.claims
    ensures r.Ok? && "exp" in r.value ==> r.value["exp"].Int? && now < r.value["exp"].i
  {
    match token
    case Garbled(_) => Err(DecodeError("Not enough segments"))
    case Signed(claims, signer) =>
      if signer != key then Err(InvalidSignature)
      else if "exp" !in claims then Ok(claims)
      else if !claims["exp"].Int? then Err(DecodeError("Expiration Time claim (exp) must be an integer."))
      else if claims["exp"].i <= now then Err(ExpiredSignature)
      else Ok(claims)
  }

  /** pyjwt refuses a claim set whose `exp` is not an integer or is not after `now`. */
  predicate ExpiredAt(claims: Dict, now: int) {
    "exp" in claims && (!claims["exp"].Int? || claims["exp"].i <= now)
  }

  /** `to_encode = data.copy(); to_encode.update({"exp": expire})`. The
      caller's dict is a value and is left as it was. */
  function WithExpiry(data: Dict, expire: int): (r: Dict)
    ensures r.Keys == data.Keys + {"exp"}
    ensures r["exp"] == Int(expire)
    ensures forall k :: k in data && k != "exp" ==> r[k] == data[k]
  {
    Update(data, map["exp" := Int(expire)])
  }

  /** The access-token lifetime as written, `timedelta(JWT_ACCESS_TOKEN_EXPIRE_MINUTES)`. */
  function AccessLifetimeAsWritten(): int {
    Timedelta(JWT_ACCESS_TOKEN_EXPIRE_MINUTES)
  }

  /** The refresh-token lifetime as written, `timedelta(JWT_REFRESH_TOKEN_EXPIRE_MINUTES)`. */
  function RefreshLifetimeAsWritten(): int {
    Timedelta(JWT_REFRESH_TOKEN_EXPIRE_MINUTES)
  }

  /** The constants are minutes, but `timedelta` reads its first argument as
      days: tokens live 1440 times longer than named (30 days, 10080 days). */
  lemma LifetimesAsWrittenAreDays()
    ensures AccessLifetimeAsWritten() == 30 * SECONDS_PER_DAY
    ensures AccessLifetimeAsWritten() == 1440 * AccessLifetime()
    ensures RefreshLifetimeAsWritten() == 10080 * SECONDS_PER_DAY
    ensures RefreshLifetimeAsWritten() == 1440 * RefreshLifetime()
  {
  }

  /** The intended lifetime, `timedelta(minutes=JWT_ACCESS_TOKEN_EXPIRE_MINUTES)`. */
  function AccessLifetime(): (r: int)
    ensures r == 30 * 60
  {
    JWT_ACCESS_TOKEN_EXPIRE_MINUTES * SECONDS_PER_MINUTE
  }

  /** The intended lifetime, `timedelta(minutes=JWT_REFRESH_TOKEN_EXPIRE_MINUTES)`: seven days. */
  function RefreshLifetime(): (r: int)
    ensures r == 7 * SECONDS_PER_DAY
  {
    JWT_REFRESH_TOKEN_EXPIRE_MINUTES * SECONDS_PER_MINUTE
  }

  /** `create_access_token(data)` at clock reading `now`. */
  function CreateAccessToken(data: Dict, secrets: Secrets, now: int): (r: Jwt)
    ensures Decode(r, secrets.access, now) == Ok(WithExpiry(data, now + AccessLifetime()))
    ensures Decode(r, secrets.refresh, now).Ok? <==> secrets.refresh == secrets.access
  {
    Encode(WithExpiry(data, now + AccessLifetime()), secrets.access)
  }

  /** `create_refresh_token(data)` at clock reading `now`. */
  function CreateRefreshToken(data: Dict, secrets: Secrets, now: int): (r: Jwt)
    ensures Decode(r, secrets.refresh, now) == Ok(WithExpiry(data, now + RefreshLifetime()))
    ensures Decode(r, secrets.access, now).Ok? <==> secrets.refresh == secrets.access
  {
    Encode(WithExpiry(data, now + RefreshLifetime()), secrets.refresh)
  }

  /** `payload.get("sub")` is not None. */
  predicate HasSub(payload: Dict) {
    Get(payload, "sub") != Null
  }

  /** The body shared by `jwt_decode_access` and `jwt_decode_refresh`: decode
      with `key`, then insist on a `sub` claim. Every failure is a 401. */
  function DecodeWithSub(token: Jwt, key: string, now: int): (r: Result<Dict, Error>)
    ensures r.Ok? <==> Decode(token, key, now).Ok? && HasSub(Decode(token, key, now).value)
    ensures r.Ok? ==> r.value == Decode(token, key, now).value
    ensures r.Err? ==> r.error.HttpError? && r.error.status == UNAUTHORIZED
    ensures Decode(token, key, now).Ok? && !r.Ok? ==> r.error.detail == COULD_NOT_VALIDATE_CREDENTIALS
  {
    match Decode(token, key, now)
    case Err(e) => Err(HttpError(UNAUTHORIZED, JwtErrorMessage(e)))
    case Ok(payload) =>
      if HasSub(payload) then Ok(payload)
      else Err(HttpError(UNAUTHORIZED, COULD_NOT_VALIDATE_CREDENTIALS))
  }

  /** `jwt_decode_access(token)`. */
  function JwtDecodeAccess(token: Jwt, secrets: Secrets, now: int): (r: Result<Dict, Error>)
    ensures r.Ok? <==> token.Signed? && token.key == secrets.access && !ExpiredAt(token.claims, now)
                       && HasSub(token.claims)
    ensures r.Ok? ==> r.value == token.claims
    ensures r.Err? ==> r.error.HttpError? && r.error.status == UNAUTHORIZED
  {
    DecodeWithSub(token, secrets.access, now)
  }

  /** `jwt_decode_refresh(token)`. */
  function JwtDecodeRefresh(token: Jwt, secrets: Secrets, now: int): (r: Result<Dict, Error>)
    ensures r.Ok? <==> token.Signed? && token.key == secrets.refresh && !ExpiredAt(token.claims, now)
                       && HasSub(token.claims)
    ensures r.Ok? ==> r.value == token.claims
    ensures r.Err? ==> r.error.HttpError? && r.error.status == UNAUTHORIZED
  {
    DecodeWithSub(token, secrets.refresh, now)
  }

  /** An access token decodes, with the access secret, to the caller's claims
      plus `exp` for exactly its lifetime, and is refused as expired after. */
  lemma AccessTokenRoundTrip(data: Dict, secrets: Secrets, issued: int, now: int)
    requires issued <= now
    ensures var r := Decode(CreateAccessToken(data, secrets, issued), secrets.access, now);
      && (r.Ok? <==> now < issued + AccessLifetime())
      && (r.Ok? ==> r.value == WithExpiry(data, issued + AccessLifetime()))
      && (r.Err? ==> r.error == ExpiredSignature)
  {
  }

  /** A refresh token decodes, with the refresh secret, to the caller's claims
      plus `exp` for exactly its lifetime. */
  lemma RefreshTokenRoundTrip(data: Dict, secrets: Secrets, issued: int, now: int)
    requires issued <= now
    ensures var r := Decode(CreateRefreshToken(data, secrets, issued), secrets.refresh, now);
      && (r.Ok? <==> now < issued + RefreshLifetime())
      && (r.Ok? ==> r.value == WithExpiry(data, issued + RefreshLifetime()))
  {
  }

  /** With two different secrets, an access token is never accepted where a
      refresh token is expected, nor the other way round. */
  lemma TokensAreNotInterchangeable(data: Dict, secrets: Secrets, issued: int, now: int)
    requires secrets.access != secrets.refresh
    ensures JwtDecodeRefresh(CreateAccessToken(data, secrets, issued), secrets, now)
         == Err(HttpError(UNAUTHORIZED, "Signature verification failed"))
    ensures JwtDecodeAccess(CreateRefreshToken(data, secrets, issued), secrets, now)
         == Err(HttpError(UNAUTHORIZED, "Signature verification failed"))
  {
  }

  /** A payload survives `jwt_decode_access` unchanged exactly when it carries
      a non-None `sub`; the claims other than `exp` are the caller's. */
  lemma {:induction false} DecodeAccessKeepsClaims(data: Dict, secrets: Secrets, issued: int, now: int)
    requires issued <= now < issued + AccessLifetime()
    ensures var r := JwtDecodeAccess(CreateAccessToken(data, secrets, issued), secrets, now);
      && (r.Ok? <==> HasSub(data))
      && (!r.Ok? ==> r.error == HttpError(UNAUTHORIZED, COULD_NOT_VALIDATE_CREDENTIALS))
      && (r.Ok? ==> forall k :: k in data && k != "exp" ==> k in r.value && r.value[k] == data[k])
  {
    var claims := WithExpiry(data, issued + AccessLifetime());
    assert Get(claims, "sub") == Get(data, "sub");
  }
}
