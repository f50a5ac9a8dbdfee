/** Account registration, lookup and the authentication decisions
    (services/UserService.py). The table is read through the Session's rows;
    hashing and token signing are the opaque functions of Tables and Auth. */
module UserService {
  import opened Builtins
  import opened Errors
  import opened Auth
  import opened Tables

  const INCORRECT_CREDENTIALS := "Incorrect username or password"
  const COULD_NOT_VALIDATE_USER := "Could not validate user."
  const REFRESH_TOKEN_EXPIRED := "Refresh token is expired."
  const BEARER := "Bearer"

  /** The registration form (`UserCreate`). */
  datatype UserCreate = UserCreate(email: string, fullname: string, password: string)

  /** The `Token` response model. */
  datatype Token = Token(accessToken: Jwt, refreshToken: Jwt, tokenType: string)

  /** `create_user`: stores email and fullname as given and a hash of the
      password; a unique column already taken fails with 422 and adds no row. */
  method CreateUser(session: Session, userCreate: UserCreate) returns (r: Result<User, Error>)
    requires session.Valid()
    modifies session
    ensures session.Valid()
    ensures session.bookmarks == old(session.bookmarks)
    ensures r.Ok? <==> Admits(old(session.users), User(old(session.userSeq), userCreate.email,
                                userCreate.fullname, Some(HashPassword(userCreate.password)), None))
    ensures r.Ok? ==> && session.users == old(session.users) + [r.value]
                      && r.value.email == userCreate.email
                      && r.value.fullname == userCreate.fullname
                      && r.value.password == Some(HashPassword(userCreate.password))
                      && VerifyPassword(userCreate.password, r.value.password)
                      && r.value.googleSub.None?
    ensures r.Err? ==> r.error == HttpError(UNPROCESSABLE_ENTITY, INTEGRITY_ERROR) && session.users == old(session.users)
    ensures (exists u :: u in old(session.users) && u.email == userCreate.email) ==> r.Err?
  {
    var hashed := HashPassword(userCreate.password);
    r := session.AddUser(userCreate.email, userCreate.fullname, Some(hashed), None);
  }

  /** `get_user_by_email`: the first row with that email, or None. */
  function GetUserByEmail(users: seq<User>, email: string): (r: Option<User>)
    ensures r.Some? ==> r.value in users && r.value.email == email
    ensures r.None? <==> forall u :: u in users ==> u.email != email
  {
    SelectFirst(users, (u: User) => u.email == email)
  }

  /** `get_user_by_id`: the first row whose id equals the given value (a
      token's `sub` claim), or None. */
  function GetUserById(users: seq<User>, id: Value): (r: Option<User>)
    ensures r.Some? ==> r.value in users && Int(r.value.id) == id
    ensures r.None? <==> forall u :: u in users ==> Int(u.id) != id
  {
    SelectFirst(users, (u: User) => Int(u.id) == id)
  }

  /** In a table whose constraints hold, looking a row up by its own email
      or its own id finds that very row. */
  lemma {:induction false} LookupFindsTheRow(users: seq<User>, k: nat)
    requires UniqueColumns(users) && k < |users|
    ensures GetUserByEmail(users, users[k].email) == Some(users[k])
    ensures GetUserById(users, Int(users[k].id)) == Some(users[k])
  {
    var byEmail := FirstIndex(users, (u: User) => u.email == users[k].email);
    var byId := FirstIndex(users, (u: User) => Int(u.id) == Int(users[k].id));
    assert byEmail.Some? && byEmail.value <= k;
    assert byId.Some? && byId.value <= k;
    if byEmail.value < k {
      assert Collide(users[byEmail.value], users[k]);
    }
  }

  /** `authenticate_user` AS WRITTEN: `user.password` is read before `user`
      is checked, so an unknown email raises AttributeError (a 500) instead
      of reaching the 401. */
  function AuthenticateUserAsWritten(users: seq<User>, email: string, password: string): (r: Result<User, Error>)
    ensures GetUserByEmail(users, email).None? ==> r == Err(Unhandled("AttributeError"))
    ensures GetUserByEmail(users, email).Some? ==> r == AuthenticateUser(users, email, password)
  {
    match GetUserByEmail(users, email)
    case None => Err(Unhandled("AttributeError"))
    case Some(user) =>
      if VerifyPassword(password, user.password) then Ok(user)
      else Err(HttpError(UNAUTHORIZED, INCORRECT_CREDENTIALS))
  }

  /** An empty table already shows it: logging in with any email raises a
      non-HTTP error rather than the intended 401. */
  lemma UnknownEmailCrashesAsWritten(email: string, password: string)
    ensures AuthenticateUserAsWritten([], email, password) == Err(Unhandled("AttributeError"))
    ensures AuthenticateUser([], email, password) == Err(HttpError(UNAUTHORIZED, INCORRECT_CREDENTIALS))
  {
  }

  /** `authenticate_user` with the None test made first: the row with that
      email if the password verifies against its hash, and otherwise
      (unknown email, wrong password, or an account without a password)
      401 "Incorrect username or password". */
  function AuthenticateUser(users: seq<User>, email: string, password: string): (r: Result<User, Error>)
    ensures r.Ok? <==> GetUserByEmail(users, email).Some?
                       && VerifyPassword(password, GetUserByEmail(users, email).value.password)
    ensures r.Ok? ==> r.value in users && r.value.email == email && VerifyPassword(password, r.value.password)
    ensures r.Err? ==> r.error == HttpError(UNAUTHORIZED, INCORRECT_CREDENTIALS)
  {
    match GetUserByEmail(users, email)
    case None => Err(HttpError(UNAUTHORIZED, INCORRECT_CREDENTIALS))
    case Some(user) =>
      if VerifyPassword(password, user.password) then Ok(user)
      else Err(HttpError(UNAUTHORIZED, INCORRECT_CREDENTIALS))
  }

  /** `get_current_user`: 401 "Could not validate credentials" when the
      access token does not decode, carries no `sub`, or names no user. */
  function GetCurrentUser(users: seq<User>, token: Jwt, secrets: Secrets, now: int): (r: Result<User, Error>)
    ensures r.Ok? ==> && Decode(token, secrets.access, now).Ok?
                      && Get(Decode(token, secrets.access, now).value, "sub") == Int(r.value.id)
                      && r.value in users
    ensures r.Err? ==> r.error == HttpError(UNAUTHORIZED, COULD_NOT_VALIDATE_CREDENTIALS)
    ensures Decode(token, secrets.access, now).Err? ==> r.Err?
    ensures Decode(token, secrets.access, now).Ok? && !HasSub(Decode(token, secrets.access, now).value) ==> r.Err?
    ensures Decode(token, secrets.access, now).Ok? && HasSub(Decode(token, secrets.access, now).value)
            && GetUserById(users, Get(Decode(token, secrets.access, now).value, "sub")).Some? ==>
              r == Ok(GetUserById(users, Get(Decode(token, secrets.access, now).value, "sub")).value)
  {
    match Decode(token, secrets.access, now)
    case Err(_) => Err(HttpError(UNAUTHORIZED, COULD_NOT_VALIDATE_CREDENTIALS))
    case Ok(payload) =>
      var userId := Get(payload, "sub");
      if userId == Null then Err(HttpError(UNAUTHORIZED, COULD_NOT_VALIDATE_CREDENTIALS))
      else match GetUserById(users, userId)
        case None => Err(HttpError(UNAUTHORIZED, COULD_NOT_VALIDATE_CREDENTIALS))
        case Some(user) => Ok(user)
  }

  /** The access and refresh tokens issued for the claims `data`. */
  function IssueTokens(data: Dict, secrets: Secrets, now: int): (r: Token)
    ensures r.tokenType == BEARER
    ensures Decode(r.accessToken, secrets.access, now) == Ok(WithExpiry(data, now + AccessLifetime()))
    ensures Decode(r.refreshToken, secrets.refresh, now) == Ok(WithExpiry(data, now + RefreshLifetime()))
  {
    Token(CreateAccessToken(data, secrets, now), CreateRefreshToken(data, secrets, now), BEARER)
  }

  /** `login_for_access_token`: tokens whose `sub` is the authenticated user's id. */
  function LoginForAccessToken(users: seq<User>, email: string, password: string, secrets: Secrets, now: int)
    : (r: Result<Token, Error>)
    ensures r.Ok? <==> AuthenticateUser(users, email, password).Ok?
    ensures r.Err? ==> r.error == HttpError(UNAUTHORIZED, INCORRECT_CREDENTIALS)
    ensures r.Ok? ==> && r.value.tokenType == BEARER
                      && JwtDecodeAccess(r.value.accessToken, secrets, now).Ok?
                      && Get(JwtDecodeAccess(r.value.accessToken, secrets, now).value, "sub")
                         == Int(AuthenticateUser(users, email, password).value.id)
  {
    match AuthenticateUser(users, email, password)
    case Err(e) => Err(e)
    case Ok(user) => Ok(IssueTokens(map["sub" := Int(user.id)], secrets, now))
  }

  /** Logging in and then presenting the access token while it is alive
      gives back the user whose email and password were checked. */
  lemma {:induction false} LoginThenCurrentUser(users: seq<User>, email: string, password: string,
                                                 secrets: Secrets, issued: int, now: int)
    requires UniqueColumns(users)
    requires LoginForAccessToken(users, email, password, secrets, issued).Ok?
    requires issued <= now < issued + AccessLifetime()
    ensures var user := AuthenticateUser(users, email, password).value;
      && GetCurrentUser(users, LoginForAccessToken(users, email, password, secrets, issued).value.accessToken,
                        secrets, now) == Ok(user)
      && user.email == email && VerifyPassword(password, user.password)
  {
    var user := AuthenticateUser(users, email, password).value;
    var k :| 0 <= k < |users| && users[k] == user;
    LookupFindsTheRow(users, k);
  }

  /** `refresh_token_expired`: decode with the refresh secret (any
      InvalidTokenError is 401 "Could not validate user."), then compare the
      clock with `exp`. A token without `exp` makes `fromtimestamp(None)`
      raise TypeError, which nothing catches. */
  function RefreshTokenExpired(token: Jwt, secrets: Secrets, now: int): (r: Result<bool, Error>)
    ensures Decode(token, secrets.refresh, now).Err? ==> r == Err(HttpError(UNAUTHORIZED, COULD_NOT_VALIDATE_USER))
    ensures r.Ok? ==> && Decode(token, secrets.refresh, now).Ok?
                      && Get(Decode(token, secrets.refresh, now).value, "exp").Int?
                      && (r.value <==> now > Get(Decode(token, secrets.refresh, now).value, "exp").i)
    ensures Decode(token, secrets.refresh, now).Ok? && Get(Decode(token, secrets.refresh, now).value, "exp").Int? ==>
              r == Ok(now > Get(Decode(token, secrets.refresh, now).value, "exp").i)
    ensures Decode(token, secrets.refresh, now).Ok? && !Get(Decode(token, secrets.refresh, now).value, "exp").Int? ==>
              r == Err(Unhandled("TypeError"))
  {
    match Decode(token, secrets.refresh, now)
    case Err(_) => Err(HttpError(UNAUTHORIZED, COULD_NOT_VALIDATE_USER))
    case Ok(payload) =>
      match Get(payload, "exp")
      case Int(expiredTime) => Ok(now > expiredTime)
      case _ => Err(Unhandled("TypeError"))
  }

  /** pyjwt already refuses a token whose `exp` is not after the clock, so
      with one clock reading the "expired" answer is never given: an expired
      refresh token gets the decode 401 instead. */
  lemma RefreshTokenNeverReportedExpired(token: Jwt, secrets: Secrets, now: int)
    ensures RefreshTokenExpired(token, secrets, now) != Ok(true)
  {
  }

  /** `get_access_token_with_refresh_token`: fresh tokens whose `sub` is the
      refresh token's `sub` (None if it has none: this path does not check). */
  function GetAccessTokenWithRefreshToken(token: Jwt, secrets: Secrets, now: int): (r: Result<Token, Error>)
    ensures r.Ok? <==> RefreshTokenExpired(token, secrets, now) == Ok(false)
    ensures r.Ok? ==> && r.value.tokenType == BEARER
                      && Decode(r.value.accessToken, secrets.access, now).Ok?
                      && Get(Decode(r.value.accessToken, secrets.access, now).value, "sub")
                         == Get(Decode(token, secrets.refresh, now).value, "sub")
    ensures r.Ok? ==> r.value == IssueTokens(map["sub" := Get(Decode(token, secrets.refresh, now).value, "sub")], secrets, now)
    ensures RefreshTokenExpired(token, secrets, now) == Ok(true) ==> r == Err(HttpError(UNAUTHORIZED, REFRESH_TOKEN_EXPIRED))
    ensures RefreshTokenExpired(token, secrets, now).Err? ==> r == Err(RefreshTokenExpired(token, secrets, now).error)
  {
    match RefreshTokenExpired(token, secrets, now)
    case Err(e) => Err(e)
    case Ok(expired) =>
      if expired then Err(HttpError(UNAUTHORIZED, REFRESH_TOKEN_EXPIRED))
      else
        match Decode(token, secrets.refresh, now)
        case Err(e) => Err(Unhandled(JwtErrorMessage(e)))
        case Ok(payload) => Ok(IssueTokens(map["sub" := Get(payload, "sub")], secrets, now))
  }

  /** A refresh token issued at login keeps working for its lifetime and
      hands out an access token that `get_current_user` accepts for the
      same user; once its `exp` has passed it is refused with 401. */
  lemma {:induction false} RefreshAfterLogin(users: seq<User>, email: string, password: string,
                                             secrets: Secrets, issued: int, now: int)
    requires UniqueColumns(users)
    requires LoginForAccessToken(users, email, password, secrets, issued).Ok?
    requires issued <= now
    ensures var refresh := LoginForAccessToken(users, email, password, secrets, issued).value.refreshToken;
      var r := GetAccessTokenWithRefreshToken(refresh, secrets, now);
      && (r.Ok? <==> now < issued + RefreshLifetime())
      && (r.Ok? ==> GetCurrentUser(users, r.value.accessToken, secrets, now) == Ok(AuthenticateUser(users, email, password).value))
      && (r.Err? ==> r.error == HttpError(UNAUTHORIZED, COULD_NOT_VALIDATE_USER))
  {
    var user := AuthenticateUser(users, email, password).value;
    var k :| 0 <= k < |users| && users[k] == user;
    LookupFindsTheRow(users, k);
    var claims := WithExpiry(map["sub" := Int(user.id)], issued + RefreshLifetime());
    var refresh := CreateRefreshToken(map["sub" := Int(user.id)], secrets, issued);
    assert refresh == Signed(claims, secrets.refresh);
    assert Get(claims, "sub") == Int(user.id);
    if now < issued + RefreshLifetime() {
      var access := WithExpiry(map["sub" := Int(user.id)], now + AccessLifetime());
      assert Get(access, "sub") == Int(user.id);
    }
  }
}
