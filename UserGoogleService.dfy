/** Google sign-in: find an account by its Google subject, link an existing
    account by email, or create one (services/UserGoogleService.py). The
    OAuth exchange with Google is a parameter: the parsed userinfo, or None
    when authlib raised OAuthError. */
module UserGoogleService {
  import opened Builtins
  import opened Errors
  import opened Auth
  import opened Tables
  import opened UserService

  /** Google's userinfo (`UserGoogle`); `sub` is parsed as an integer. */
  datatype UserGoogle = UserGoogle(sub: int, email: string, name: string, picture: string)

  /** `get_user_by_google_sub`: the first row whose google_sub is `str(sub)`, or None. */
  function GetUserByGoogleSub(users: seq<User>, sub: int): (r: Option<User>)
    ensures r.Some? ==> r.value in users && r.value.googleSub == Some(IntToString(sub))
    ensures r.None? <==> forall u :: u in users ==> u.googleSub != Some(IntToString(sub))
  {
    SelectFirst(users, (u: User) => u.googleSub == Some(IntToString(sub)))
  }

  /** In a table whose constraints hold, the row holding a Google subject is
      the one the lookup by that subject returns. */
  lemma {:induction false} GoogleSubFindsTheRow(users: seq<User>, k: nat, sub: int)
    requires UniqueColumns(users) && k < |users|
    requires users[k].googleSub == Some(IntToString(sub))
    ensures GetUserByGoogleSub(users, sub) == Some(users[k])
  {
    var i := FirstIndex(users, (u: User) => u.googleSub == Some(IntToString(sub)));
    assert i.Some? && i.value <= k;
    if i.value < k {
      assert Collide(users[i.value], users[k]);
    }
  }

  /** `create_user_from_google_info`. If a row has the Google email, its
      google_sub is set to `str(sub)` and that row is returned, with no row
      added; otherwise one row is added with fullname = name, email, google_sub
      and no password. A unique column already taken fails with 422 and leaves
      the table as it was. After success the lookup by the subject finds the
      returned row. */
  method CreateUserFromGoogleInfo(session: Session, userGoogle: UserGoogle) returns (r: Result<User, Error>)
    requires session.Valid()
    modifies session
    ensures session.Valid()
    ensures session.bookmarks == old(session.bookmarks)
    ensures var sub := IntToString(userGoogle.sub);
      match old(GetUserByEmail(session.users, userGoogle.email))
      case Some(existing) =>
        && (r.Ok? <==> forall u :: u in old(session.users) && u != existing ==> u.googleSub != Some(sub))
        && (r.Ok? ==> && r.value == existing.(googleSub := Some(sub))
                      && |session.users| == |old(session.users)|
                      && (forall k :: 0 <= k < |session.users| && old(session.users)[k] != existing ==>
                            session.users[k] == old(session.users)[k]))
      case None =>
        && (r.Ok? <==> Admits(old(session.users), User(old(session.userSeq), userGoogle.email, userGoogle.name, None, Some(sub))))
        && (r.Ok? ==> && session.users == old(session.users) + [r.value]
                      && r.value == User(old(session.userSeq), userGoogle.email, userGoogle.name, None, Some(sub)))
    ensures r.Err? ==> r.error == HttpError(UNPROCESSABLE_ENTITY, INTEGRITY_ERROR) && session.users == old(session.users)
    ensures r.Ok? ==> && r.value.email == userGoogle.email
                      && r.value.googleSub == Some(IntToString(userGoogle.sub))
                      && GetUserByGoogleSub(session.users, userGoogle.sub) == Some(r.value)
  {
    var sub := IntToString(userGoogle.sub);
    var found := FirstIndex(session.users, (u: User) => u.email == userGoogle.email);
    match found {
      case Some(k) =>
        ghost var before := session.users;
        r := session.SetGoogleSub(k, sub);
        if r.Ok? {
          forall u | u in before && u != before[k]
            ensures u.googleSub != Some(sub)
          {
            var j :| 0 <= j < |before| && before[j] == u;
          }
          GoogleSubFindsTheRow(session.users, k, userGoogle.sub);
        } else {
          ghost var j :| 0 <= j < |before| && j != k && before[j].googleSub == Some(sub);
          assert before[j] != before[k];
        }
      case None =>
        r := session.AddUser(userGoogle.email, userGoogle.name, None, Some(sub));
        if r.Ok? {
          GoogleSubFindsTheRow(session.users, |session.users| - 1, userGoogle.sub);
        }
    }
  }

  /** `get_auth_google`. An OAuth failure is 401. A row holding the Google
      subject gets tokens as it is. Otherwise the row with the Google email is
      linked (it cannot clash, since no row holds the subject), or a row is
      added unless its email or fullname is taken, which is the 422. The
      tokens' `sub` is that row's id. */
  method GetAuthGoogle(session: Session, userinfo: Option<UserGoogle>, secrets: Secrets, now: int)
    returns (r: Result<Token, Error>)
    requires session.Valid()
    modifies session
    ensures session.Valid()
    ensures session.bookmarks == old(session.bookmarks)
    ensures userinfo.None? ==> r == Err(HttpError(UNAUTHORIZED, COULD_NOT_VALIDATE_CREDENTIALS))
                               && session.users == old(session.users)
    ensures userinfo.Some? && old(GetUserByGoogleSub(session.users, userinfo.value.sub)).Some? ==>
              session.users == old(session.users)
              && r == Ok(IssueTokens(map["sub" := Int(old(GetUserByGoogleSub(session.users, userinfo.value.sub)).value.id)],
                                     secrets, now))
    ensures userinfo.Some? && old(GetUserByGoogleSub(session.users, userinfo.value.sub)).None? ==>
              var g := userinfo.value;
              match old(GetUserByEmail(session.users, g.email))
              case Some(existing) =>
                && r == Ok(IssueTokens(map["sub" := Int(existing.id)], secrets, now))
                && |session.users| == |old(session.users)|
                && existing.(googleSub := Some(IntToString(g.sub))) in session.users
                && (forall k :: 0 <= k < |session.users| && old(session.users)[k] != existing ==>
                      session.users[k] == old(session.users)[k])
              case None =>
                var created := User(old(session.userSeq), g.email, g.name, None, Some(IntToString(g.sub)));
                if Admits(old(session.users), created)
                then r == Ok(IssueTokens(map["sub" := Int(created.id)], secrets, now))
                     && session.users == old(session.users) + [created]
                else r == Err(HttpError(UNPROCESSABLE_ENTITY, INTEGRITY_ERROR)) && session.users == old(session.users)
    ensures r.Ok? ==> && userinfo.Some?
                      && GetUserByGoogleSub(session.users, userinfo.value.sub).Some?
                      && r.value == IssueTokens(map["sub" := Int(GetUserByGoogleSub(session.users, userinfo.value.sub).value.id)],
                                                secrets, now)
  {
    if userinfo.None? {
      return Err(HttpError(UNAUTHORIZED, COULD_NOT_VALIDATE_CREDENTIALS));
    }
    var googleUser := userinfo.value;
    var dbUser := GetUserByGoogleSub(session.users, googleUser.sub);
    if dbUser.None? {
      var created := CreateUserFromGoogleInfo(session, googleUser);
      if created.Err? {
        return Err(created.error);
      }
      dbUser := Some(created.value);
    }
    r := Ok(IssueTokens(map["sub" := Int(dbUser.value.id)], secrets, now));
  }
}
