/** Sign-in, the current user's profile, and access-token renewal through
    the refresh-token ledger. */
module AuthService {
  import opened Common
  import opened Entities
  import opened Store
  import opened Authority

  /** A refresh token lives seven days, in seconds. */
  const RefreshTokenLifetime: int := 7 * 24 * 60 * 60

  const Bearer: string := "Bearer"

  datatype LoginResponse = LoginResponse(accessToken: string, refreshToken: string, tokenType: string)

  datatype MeResponse = MeResponse(username: string, email: Option<string>, roles: set<string>, permissions: set<string>)

  /** The signed access-token provider, whose cryptography is not modelled:
      `generate` issues a token for a username at an instant, `validate`
      checks a token's signature and expiry, `subject` reads its username. */
  datatype TokenProvider = TokenProvider(
    generate: (string, Instant) -> string,
    validate: string -> bool,
    subject: string -> string)

  // ---------------------------------------------------------------------
  // login

  /** What `login` leaves in the tables and answers. `authentication` is
      the authentication manager's verdict on the submitted credentials (it
      throws on rejection), `uuid` the random token string and `now` the
      clock. A rejected sign-in, or one for a username with no non-deleted
      account, changes nothing; otherwise exactly one unrevoked refresh token
      for that account, expiring seven days on, is appended to the ledger and
      handed back with an access token for the username and the type "Bearer". */
  function LoginOutcome(t: Tables, username: string, authentication: Outcome, jwt: TokenProvider, uuid: string, now: Instant)
    : (r: (Tables, Result<LoginResponse>))
    requires UsernamesUnique(t.users)
    ensures authentication.Fail? ==> r == (t, Failure(authentication.error))
    ensures authentication.Pass? && !UsernameExists(t.users, username) ==>
              r == (t, Failure(ApiException(Unauthorized, "Invalid username or password")))
    ensures authentication.Pass? && UsernameExists(t.users, username) ==>
              exists id :: id in t.users && t.users[id].username == username && t.users[id].Visible() &&
                           r.0 == t.(refreshTokens := t.refreshTokens + [RefreshToken(id, uuid, now + RefreshTokenLifetime, false)]) &&
                           r.1 == Success(LoginResponse(jwt.generate(username, now), uuid, Bearer))
  {
    if authentication.Fail? then (t, Failure(authentication.error))
    else
      match FindUserByUsername(t.users, username)
      case None => (t, Failure(ApiException(Unauthorized, "Invalid username or password")))
      case Some(id) =>
        (t.(refreshTokens := t.refreshTokens + [RefreshToken(id, uuid, now + RefreshTokenLifetime, false)]),
         Success(LoginResponse(jwt.generate(username, now), uuid, Bearer)))
  }

  /** A fresh token string keeps the ledger's tokens distinct. */
  lemma LoginKeepsConsistent(t: Tables, username: string, authentication: Outcome, jwt: TokenProvider, uuid: string, now: Instant)
    requires Consistent(t)
    requires forall rt :: rt in t.refreshTokens ==> rt.token != uuid
    ensures Consistent(LoginOutcome(t, username, authentication, jwt, uuid, now).0)
  {
    var t' := LoginOutcome(t, username, authentication, jwt, uuid, now).0;
    forall i, j | 0 <= i < j < |t'.refreshTokens|
      ensures t'.refreshTokens[i].token != t'.refreshTokens[j].token
    {
      if j == |t.refreshTokens| {
        assert t'.refreshTokens[i] in t.refreshTokens;
      }
    }
  }

  /** `login`. */
  method Login(db: Database, username: string, authentication: Outcome, jwt: TokenProvider, uuid: string, now: Instant)
    returns (r: Result<LoginResponse>)
    requires db.Valid()
    requires forall rt :: rt in db.t.refreshTokens ==> rt.token != uuid
    modifies db
    ensures db.Valid()
    ensures (db.t, r) == LoginOutcome(old(db.t), username, authentication, jwt, uuid, now)
  {
    if authentication.Fail? {
      return Failure(authentication.error);
    }
    var accessToken := jwt.generate(username, now);
    var found := FindUserByUsername(db.t.users, username);
    if found.None? {
      return Failure(ApiException(Unauthorized, "Invalid username or password"));
    }
    var refreshToken := RefreshToken(found.value, uuid, now + RefreshTokenLifetime, false);
    db.AddRefreshToken(refreshToken);
    r := Success(LoginResponse(accessToken, refreshToken.token, Bearer));
  }

  // ---------------------------------------------------------------------
  // me

  /** `me`: the non-deleted account's username and e-mail with the codes of
      its roles and of the permissions reached through them. The role codes
      are read first: a reference to a soft-deleted or removed role, and
      then one to such a permission, throws when it is read. */
  function Me(t: Tables, username: string): (r: Result<MeResponse>)
    requires UsernamesUnique(t.users)
    ensures FindUserByUsername(t.users, username).None? ==> r == Failure(ApiException(NotFound, "User not found"))
    ensures FindUserByUsername(t.users, username).Some? ==>
              var id := FindUserByUsername(t.users, username).value;
              (!RolesResolve(t, id) ==> r == Failure(MissingRole)) &&
              (RolesResolve(t, id) && !PermissionsResolve(t, id) ==> r == Failure(MissingPermission))
    ensures FindUserByUsername(t.users, username).Some? ==>
              var id := FindUserByUsername(t.users, username).value;
              RolesResolve(t, id) && PermissionsResolve(t, id) ==>
              r.Success? && r.value.username == username && r.value.email == t.users[id].email &&
              r.value.roles == UserRoleCodes(t, id) && r.value.permissions == UserPermissionCodes(t, id)
  {
    match FindUserByUsername(t.users, username)
    case None => Failure(ApiException(NotFound, "User not found"))
    case Some(id) =>
      var user := t.users[id];
      if !RolesResolve(t, id) then Failure(MissingRole)
      else if !PermissionsResolve(t, id) then Failure(MissingPermission)
      else Success(MeResponse(user.username, user.email, UserRoleCodes(t, id), UserPermissionCodes(t, id)))
  }

  /** What `me` reports, in terms of the stored rows: a role code is listed
      exactly when a row grants the user a role with that code, and a
      permission code exactly when a row attaches it to such a role. */
  lemma MeReportsGrantedCodes(t: Tables, username: string, c: string)
    requires UsernamesUnique(t.users)
    requires Me(t, username).Success?
    ensures var id := FindUserByUsername(t.users, username).value;
            (c in Me(t, username).value.roles <==>
               exists rid :: rid in t.roles && UserRole(id, rid) in t.userRoles && t.roles[rid].code == c) &&
            (c in Me(t, username).value.permissions <==>
               exists l :: l in t.rolePermissions && l.permissionId in t.permissions &&
                           l.roleId in t.roles && UserRole(id, l.roleId) in t.userRoles &&
                           t.permissions[l.permissionId].code == c)
  {
    var id := FindUserByUsername(t.users, username).value;
    UserRoleCodesMembership(t, id, c);
    UserPermissionCodesMembership(t, id, c);
  }

  // ---------------------------------------------------------------------
  // refresh

  /** `findByTokenAndRevokedFalse`: the position of an unrevoked ledger entry
      with that token string. */
  function FindActiveToken(ledger: seq<RefreshToken>, token: string): (r: Option<nat>)
    ensures r.Some? ==> r.value < |ledger| && ledger[r.value].token == token && !ledger[r.value].revoked
    ensures r.None? ==> forall i :: 0 <= i < |ledger| ==> ledger[i].token != token || ledger[i].revoked
  {
    if ledger == [] then None
    else if ledger[0].token == token && !ledger[0].revoked then Some(0)
    else
      match FindActiveToken(ledger[1..], token)
      case None => None
      case Some(i) => Some(i + 1)
  }

  /** `refresh`: the ledger is only read. An unknown or revoked token is
      invalid; a token whose expiry lies strictly before `now` has expired;
      otherwise a new access token is issued for the token's owner and the
      same refresh token is handed back. An owner that is soft-deleted or
      gone makes the lazy reference throw. */
  function Refresh(t: Tables, token: string, now: Instant, jwt: TokenProvider): (r: Result<LoginResponse>)
    ensures (forall i :: 0 <= i < |t.refreshTokens| ==> t.refreshTokens[i].token != token || t.refreshTokens[i].revoked) ==>
              r == Failure(ApiException(Unauthorized, "Invalid refresh token"))
    ensures r.Success? ==>
              r.value.refreshToken == token && r.value.tokenType == Bearer &&
              exists i :: 0 <= i < |t.refreshTokens| && t.refreshTokens[i].token == token && !t.refreshTokens[i].revoked &&
                          now <= t.refreshTokens[i].expiresAt && t.refreshTokens[i].userId in t.users &&
                          t.users[t.refreshTokens[i].userId].Visible() &&
                          r.value.accessToken == jwt.generate(t.users[t.refreshTokens[i].userId].username, now)
  {
    match FindActiveToken(t.refreshTokens, token)
    case None => Failure(ApiException(Unauthorized, "Invalid refresh token"))
    case Some(i) =>
      var rt := t.refreshTokens[i];
      if rt.expiresAt < now then Failure(ApiException(Unauthorized, "Refresh token expired"))
      else if !(rt.userId in t.users && t.users[rt.userId].Visible()) then Failure(EntityNotFound("user_accounts"))
      else Success(LoginResponse(jwt.generate(t.users[rt.userId].username, now), rt.token, Bearer))
  }

  /** The outcome of presenting the token of an unrevoked ledger entry: the
      entry expires only strictly after its expiry instant. */
  lemma {:induction false} RefreshOfEntry(t: Tables, i: nat, now: Instant, jwt: TokenProvider)
    requires TokensUnique(t.refreshTokens)
    requires i < |t.refreshTokens| && !t.refreshTokens[i].revoked
    ensures var rt := t.refreshTokens[i];
            Refresh(t, rt.token, now, jwt) ==
              if rt.expiresAt < now then Failure(ApiException(Unauthorized, "Refresh token expired"))
              else if !(rt.userId in t.users && t.users[rt.userId].Visible()) then Failure(EntityNotFound("user_accounts"))
              else Success(LoginResponse(jwt.generate(t.users[rt.userId].username, now), rt.token, Bearer))
  {
    var found := FindActiveToken(t.refreshTokens, t.refreshTokens[i].token);
    assert found.Some?;
    assert found.value == i;
  }

  /** A token presented at its very expiry instant is still accepted. */
  lemma RefreshAcceptedAtExpiryInstant(t: Tables, i: nat, jwt: TokenProvider)
    requires TokensUnique(t.refreshTokens)
    requires i < |t.refreshTokens| && !t.refreshTokens[i].revoked && t.refreshTokens[i].userId in t.users
    requires t.users[t.refreshTokens[i].userId].Visible()
    ensures Refresh(t, t.refreshTokens[i].token, t.refreshTokens[i].expiresAt, jwt).Success?
  {
    RefreshOfEntry(t, i, t.refreshTokens[i].expiresAt, jwt);
  }

  /** Refreshing does not rotate the token: once it succeeds, the same token
      keeps succeeding, with the same string handed back, at every later
      instant up to the entry's expiry. */
  lemma RefreshRepeatable(t: Tables, i: nat, now: Instant, later: Instant, jwt: TokenProvider)
    requires TokensUnique(t.refreshTokens)
    requires i < |t.refreshTokens| && !t.refreshTokens[i].revoked
    requires Refresh(t, t.refreshTokens[i].token, now, jwt).Success?
    requires now <= later <= t.refreshTokens[i].expiresAt
    ensures Refresh(t, t.refreshTokens[i].token, later, jwt).Success?
    ensures Refresh(t, t.refreshTokens[i].token, later, jwt).value.refreshToken == t.refreshTokens[i].token
  {
    RefreshOfEntry(t, i, now, jwt);
    RefreshOfEntry(t, i, later, jwt);
  }

  /** The token `login` appends renews the owner's access token for seven
      days and is refused as expired afterwards. */
  lemma LoginThenRefresh(t: Tables, user: Id, uuid: string, now: Instant, later: Instant, jwt: TokenProvider)
    requires TokensUnique(t.refreshTokens)
    requires forall rt :: rt in t.refreshTokens ==> rt.token != uuid
    requires user in t.users && t.users[user].Visible()
    ensures var t' := t.(refreshTokens := t.refreshTokens + [RefreshToken(user, uuid, now + RefreshTokenLifetime, false)]);
            Refresh(t', uuid, later, jwt) ==
              if later <= now + RefreshTokenLifetime
              then Success(LoginResponse(jwt.generate(t.users[user].username, later), uuid, Bearer))
              else Failure(ApiException(Unauthorized, "Refresh token expired"))
  {
    var t' := t.(refreshTokens := t.refreshTokens + [RefreshToken(user, uuid, now + RefreshTokenLifetime, false)]);
    var n := |t.refreshTokens|;
    forall i, j | 0 <= i < j < |t'.refreshTokens|
      ensures t'.refreshTokens[i].token != t'.refreshTokens[j].token
    {
      if j == n {
        assert t'.refreshTokens[i] in t.refreshTokens;
      }
    }
    RefreshOfEntry(t', n, later, jwt);
  }
}
