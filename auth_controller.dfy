/** The `/api/auth` endpoints: `login` runs under the audit interceptor with
    the action "LOGIN"; `refresh` and `me` are not audited. */
module AuthController {
  import opened Common
  import opened Entities
  import opened Store
  import opened JavaText
  import AuthService
  import Authority
  import opened AuditLogAspect

  const BearerPrefix: string := "Bearer "

  /** The `Authorization` header's token: the header must be present and
      begin with exactly "Bearer " (case and space included); the token is
      what follows those seven characters. */
  function BearerToken(header: Option<string>): (r: Result<string>)
    ensures r.Success? <==> header.Some? && StartsWith(header.value, BearerPrefix)
    ensures r.Success? ==> header.value == BearerPrefix + r.value
    ensures r.Failure? ==> r.error == ApiException(Unauthorized, "Missing or invalid Authorization header")
  {
    if header.None? || !StartsWith(header.value, BearerPrefix) then
      Failure(ApiException(Unauthorized, "Missing or invalid Authorization header"))
    else
      assert header.value == header.value[..7] + header.value[7..];
      Success(header.value[7..])
  }

  /** Prefixing a token with "Bearer " and reading it back gives the token. */
  lemma BearerTokenRoundTrip(token: string)
    ensures BearerToken(Some(BearerPrefix + token)) == Success(token)
  {
    assert (BearerPrefix + token)[..7] == BearerPrefix;
    assert (BearerPrefix + token)[7..] == token;
  }

  /** The prefix check is case-sensitive. */
  lemma LowerCaseSchemeRejected(token: string)
    ensures BearerToken(Some("bearer " + token)).Failure?
  {
    assert ("bearer " + token)[0] == 'b';
  }

  /** `me`: the header guard, then the token check, then the profile of the
      token's subject. */
  function Me(t: Tables, header: Option<string>, jwt: AuthService.TokenProvider): (r: Result<AuthService.MeResponse>)
    requires UsernamesUnique(t.users)
    ensures BearerToken(header).Failure? ==> r == Failure(ApiException(Unauthorized, "Missing or invalid Authorization header"))
    ensures BearerToken(header).Success? && !jwt.validate(BearerToken(header).value) ==>
              r == Failure(ApiException(Unauthorized, "Invalid or expired token"))
    ensures BearerToken(header).Success? && jwt.validate(BearerToken(header).value) ==>
              r == AuthService.Me(t, jwt.subject(BearerToken(header).value))
  {
    match BearerToken(header)
    case Failure(e) => Failure(e)
    case Success(token) =>
      if !jwt.validate(token) then Failure(ApiException(Unauthorized, "Invalid or expired token"))
      else AuthService.Me(t, jwt.subject(token))
  }

  /** A header carrying a valid token for an existing account yields that
      account's profile exactly when its role and permission references
      resolve. */
  lemma MeWithValidBearer(t: Tables, token: string, jwt: AuthService.TokenProvider)
    requires UsernamesUnique(t.users)
    requires jwt.validate(token) && UsernameExists(t.users, jwt.subject(token))
    ensures var id := FindUserByUsername(t.users, jwt.subject(token)).value;
            Me(t, Some(BearerPrefix + token), jwt).Success? <==>
              Authority.RolesResolve(t, id) && Authority.PermissionsResolve(t, id)
    ensures Me(t, Some(BearerPrefix + token), jwt).Success? ==>
              Me(t, Some(BearerPrefix + token), jwt).value.username == jwt.subject(token)
  {
    BearerTokenRoundTrip(token);
  }

  /** `refresh`: the service's answer, with no audit entry. */
  function Refresh(t: Tables, refreshToken: string, now: Instant, jwt: AuthService.TokenProvider): (r: Result<AuthService.LoginResponse>)
    ensures r.Success? ==> r.value.refreshToken == refreshToken
  {
    AuthService.Refresh(t, refreshToken, now, jwt)
  }

  /** The intercepted call's arguments for `login`: the one request body,
      whose `getUsername()` returns the submitted username. */
  function LoginArguments(username: string): seq<Option<Argument>> {
    [Some(Argument(Returns(StringValue(username))))]
  }

  /** An anonymous sign-in is recorded under the submitted username, trimmed. */
  lemma LoginEntryNamesSubmittedUser(t: Tables, username: string, auth: Option<Authentication>, request: HttpRequest, now: Instant)
    requires UsernamesUnique(t.users)
    requires !PrincipalIsActor(auth) && Trim(username) != []
    ensures Entry(t, "LOGIN", auth, Some(LoginArguments(username)), request, now).username == Trim(username)
    ensures Entry(t, "LOGIN", auth, Some(LoginArguments(username)), request, now).action == "LOGIN"
  {
    ArgumentNamesActor(auth, LoginArguments(username), 0);
  }

  /** `login` under the interceptor: the entry is built (and linked to the
      account) before the service runs, and completed with its outcome. */
  method Login(db: Database, username: string, auth: Option<Authentication>, request: HttpRequest,
               authentication: Outcome, jwt: AuthService.TokenProvider, uuid: string, now: Instant,
               rejects: AuditRecord -> Option<Exception>)
    returns (r: Result<AuthService.LoginResponse>)
    requires db.Valid()
    requires forall rt :: rt in db.t.refreshTokens ==> rt.token != uuid
    modifies db
    ensures db.Valid()
    ensures var entry := Entry(old(db.t), "LOGIN", auth, Some(LoginArguments(username)), request, now);
            var (t1, answer) := AuthService.LoginOutcome(old(db.t), username, authentication, jwt, uuid, now);
            db.t == t1.(auditLogs := t1.auditLogs + Completion(entry, answer, now, rejects).0) &&
            r == Completion(entry, answer, now, rejects).1
  {
    var log := Begin(db.t, "LOGIN", auth, Some(LoginArguments(username)), request, now);
    var answer := AuthService.Login(db, username, authentication, jwt, uuid, now);
    r := Complete(db, log, answer, now, rejects);
  }
}
