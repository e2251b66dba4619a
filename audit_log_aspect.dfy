/** The interceptor around every operation marked `@Auditable`: it names
    the actor, builds one audit entry before the operation runs, and stores
    it as SUCCESS or FAILED once the operation has returned or thrown. */
module AuditLogAspect {
  import opened Common
  import opened Entities
  import opened Store
  import opened JavaText
  import opened AuditLogService

  /** The name Spring Security gives the principal of an unauthenticated request. */
  const Anonymous: string := "anonymousUser"
  const Succeeded: string := "SUCCESS"
  const Failed: string := "FAILED"

  /** The security context's authentication, when there is one. */
  datatype Authentication = Authentication(authenticated: bool, name: Option<string>)

  /** What a `getUsername()` call on an argument can give back. */
  datatype JavaValue = NullValue | StringValue(s: string) | OtherValue

  /** Whether an argument's class has a public `getUsername()`, and what
      invoking it does. */
  datatype UsernameAccessor = NoAccessor | AccessorThrows | Returns(value: JavaValue)

  /** One argument of the intercepted call, seen only through its `getUsername()`. */
  datatype Argument = Argument(getUsername: UsernameAccessor)

  /** The parts of the current HTTP request that are recorded. */
  datatype HttpRequest = HttpRequest(remoteAddr: string, requestUri: string, httpMethod: string)

  // ---------------------------------------------------------------------
  // resolveUsername

  /** An authenticated, named, non-anonymous principal is the actor. */
  predicate PrincipalIsActor(auth: Option<Authentication>) {
    auth.Some? && auth.value.authenticated && auth.value.name.Some? && auth.value.name.value != Anonymous
  }

  /** The username an argument offers: what its `getUsername()` returns when
      that is a String, trimmed, and non-empty after trimming. A null
      argument, a missing accessor, an accessor that throws and a non-String
      value offer nothing. */
  function OfferedUsername(arg: Option<Argument>): (r: Option<string>)
    ensures r.Some? ==> r.value != [] && Trimmed(r.value)
  {
    if arg.Some? && arg.value.getUsername.Returns? && arg.value.getUsername.value.StringValue? then
      var raw := arg.value.getUsername.value.s;
      if Trim(raw) == [] then None else Some(Trim(raw))
    else
      None
  }

  /** What each argument offers, in argument order. */
  function Offers(args: seq<Option<Argument>>): (o: seq<Option<string>>)
    ensures |o| == |args| && forall i :: 0 <= i < |args| ==> o[i] == OfferedUsername(args[i])
  {
    seq(|args|, i requires 0 <= i < |args| => OfferedUsername(args[i]))
  }

  /** The position of the first offered username. */
  function FirstOffer(offers: seq<Option<string>>): (r: Option<nat>)
    ensures r.Some? ==> r.value < |offers| && offers[r.value].Some? &&
                        forall j :: 0 <= j < r.value ==> offers[j].None?
    ensures r.None? ==> forall i :: 0 <= i < |offers| ==> offers[i].None?
  {
    if offers == [] then None
    else if offers[0].Some? then Some(0)
    else
      match FirstOffer(offers[1..])
      case None => None
      case Some(i) => Some(i + 1)
  }

  /** `resolveUsername`: the principal, else the first argument offering a
      username, else "anonymousUser". */
  function ResolveUsername(auth: Option<Authentication>, args: Option<seq<Option<Argument>>>): (r: string)
    ensures PrincipalIsActor(auth) ==> r == auth.value.name.value
    ensures !PrincipalIsActor(auth) ==> r == Anonymous || (r != [] && Trimmed(r))
    ensures !PrincipalIsActor(auth) &&
            (args.None? || forall i :: 0 <= i < |args.value| ==> OfferedUsername(args.value[i]).None?) ==>
              r == Anonymous
  {
    if PrincipalIsActor(auth) then auth.value.name.value
    else if args.None? then Anonymous
    else
      var offers := Offers(args.value);
      match FirstOffer(offers)
      case Some(i) => offers[i].value
      case None => Anonymous
  }

  /** Without an acting principal, the actor is the username offered by the
      first argument that offers one, whatever the later arguments offer. */
  lemma ArgumentNamesActor(auth: Option<Authentication>, args: seq<Option<Argument>>, i: nat)
    requires !PrincipalIsActor(auth)
    requires i < |args| && OfferedUsername(args[i]).Some?
    requires forall j :: 0 <= j < i ==> OfferedUsername(args[j]).None?
    ensures ResolveUsername(auth, Some(args)) == OfferedUsername(args[i]).value
  {
    var offers := Offers(args);
    forall j | 0 <= j < i
      ensures offers[j].None?
    {
      assert offers[j] == OfferedUsername(args[j]);
    }
    FirstOfferAt(offers, i);
    assert offers[i] == OfferedUsername(args[i]);
  }

  /** The first offer is at `i` when `i` offers and no earlier position does. */
  lemma FirstOfferAt(offers: seq<Option<string>>, i: nat)
    requires i < |offers| && offers[i].Some?
    requires forall j :: 0 <= j < i ==> offers[j].None?
    ensures FirstOffer(offers) == Some(i)
  {
  }

  // ---------------------------------------------------------------------
  // around

  /** The account an entry is linked to: the non-deleted account of that
      name, looked up only for a named actor. */
  function ActorLink(t: Tables, username: string): (r: Option<Id>)
    requires UsernamesUnique(t.users)
    ensures r.Some? ==> username != Anonymous && r.value in t.users &&
                        t.users[r.value].username == username && t.users[r.value].Visible()
    ensures r.None? ==> username == Anonymous || !UsernameExists(t.users, username)
  {
    if username != Anonymous then FindUserByUsername(t.users, username) else None
  }

  /** The entry built before the wrapped operation runs. */
  function Entry(t: Tables, action: string, auth: Option<Authentication>, args: Option<seq<Option<Argument>>>,
                 request: HttpRequest, now: Instant): (r: AuditRecord)
    requires UsernamesUnique(t.users)
    ensures r.eventTime == Some(now) && r.action == action && r.status == Succeeded && r.message.None?
    ensures r.username == ResolveUsername(auth, args)
    ensures r.ipAddress == request.remoteAddr && r.path == request.requestUri && r.httpMethod == request.httpMethod
    ensures r.user.Some? ==> r.username != Anonymous && r.user.value in t.users &&
                             t.users[r.user.value].username == r.username && t.users[r.user.value].Visible()
    ensures r.user.None? ==> r.username == Anonymous || !UsernameExists(t.users, r.username)
  {
    var username := ResolveUsername(auth, args);
    AuditRecord(Some(now), username, ActorLink(t, username), action, Succeeded,
                request.remoteAddr, request.requestUri, request.httpMethod, None)
  }

  /** The entry as the `catch` block leaves it before saving it: marked
      FAILED, carrying the message of `caught`, and stamped. */
  function FailedEntry(rec: AuditRecord, caught: Exception, now: Instant): (r: AuditRecord)
    ensures r.status == Failed && r.message == Some(caught.Message()) && r.eventTime.Some?
    ensures r.(eventTime := rec.eventTime, status := rec.status, message := rec.message) == rec
    ensures rec.eventTime.Some? ==> r.eventTime == rec.eventTime
  {
    Stamped(rec.(status := Failed, message := Some(caught.Message())), now)
  }

  /** The rows stored and the answer given after the entry `rec` has been
      marked FAILED because `caught` was thrown: the entry is stored and
      `caught` rethrown, unless storing it throws, in which case that
      exception leaves instead and nothing is stored. */
  function Recovery<T>(rec: AuditRecord, caught: Exception, now: Instant, rejects: AuditRecord -> Option<Exception>)
    : (r: (seq<AuditRecord>, Result<T>))
    ensures r.1.Failure? && |r.0| <= 1
    ensures r.0 != [] ==> r.1 == Failure(caught) && r.0[0].status == Failed && r.0[0].message == Some(caught.Message())
    ensures rejects(FailedEntry(rec, caught, now)).None? ==> r == ([FailedEntry(rec, caught, now)], Failure(caught))
    ensures rejects(FailedEntry(rec, caught, now)).Some? ==>
              r == ([], Failure(rejects(FailedEntry(rec, caught, now)).value))
  {
    var failed := FailedEntry(rec, caught, now);
    match rejects(failed)
    case None => ([failed], Failure(caught))
    case Some(e) => ([], Failure(e))
  }

  /** The rows stored and the answer given once the wrapped operation has
      produced `outcome`, for the entry `rec` built before it ran. */
  function Completion<T>(rec: AuditRecord, outcome: Result<T>, now: Instant, rejects: AuditRecord -> Option<Exception>)
    : (r: (seq<AuditRecord>, Result<T>))
    ensures |r.0| <= 1
    ensures forall w :: w in r.0 ==>
              w.eventTime.Some? && w.(eventTime := rec.eventTime, status := rec.status, message := rec.message) == rec
    ensures r.1.Success? <==> outcome.Success? && rejects(Stamped(rec, now)).None?
    ensures r.1.Success? ==> r.1 == outcome && r.0 == [Stamped(rec, now)]
    // a throwing operation: one FAILED entry with its message, and the same exception rethrown
    ensures outcome.Failure? && rejects(FailedEntry(rec, outcome.error, now)).None? ==>
              r == ([FailedEntry(rec, outcome.error, now)], outcome)
    ensures outcome.Failure? && rejects(FailedEntry(rec, outcome.error, now)).Some? ==>
              r == ([], Failure(rejects(FailedEntry(rec, outcome.error, now)).value))
    // a returning operation whose SUCCESS entry cannot be saved: the save's
    // exception is handled like the operation's own
    ensures outcome.Success? && rejects(Stamped(rec, now)).Some? ==>
              var e := rejects(Stamped(rec, now)).value;
              var failed := FailedEntry(Stamped(rec, now), e, now);
              (rejects(failed).None? ==> r == ([failed], Failure(e))) &&
              (rejects(failed).Some? ==> r == ([], Failure(rejects(failed).value)))
  {
    match outcome
    case Failure(e) => Recovery(rec, e, now, rejects)
    case Success(_) =>
      var stamped := Stamped(rec, now);
      match rejects(stamped)
      case None => ([stamped], outcome)
      case Some(e) => Recovery(stamped, e, now, rejects)
  }

  /** The setup half of `around`: the entry is built and linked before the
      wrapped operation runs. */
  method Begin(t: Tables, action: string, auth: Option<Authentication>, args: Option<seq<Option<Argument>>>,
               request: HttpRequest, now: Instant) returns (log: AuditLog)
    requires UsernamesUnique(t.users)
    ensures fresh(log)
    ensures log.Record() == Entry(t, action, auth, args, request, now)
  {
    var username := ResolveUsername(auth, args);
    log := new AuditLog(Some(now), action, Succeeded, username, request.remoteAddr, request.requestUri, request.httpMethod);
    if username != Anonymous {
      var found := FindUserByUsername(t.users, username);
      if found.Some? {
        log.user := found;
      }
    }
  }

  /** The `catch` block of `around`. */
  method Recover<T>(db: Database, log: AuditLog, caught: Exception, now: Instant, rejects: AuditRecord -> Option<Exception>)
    returns (r: Result<T>)
    requires db.Valid()
    modifies db, log
    ensures db.Valid()
    ensures db.t == old(db.t).(auditLogs := old(db.t.auditLogs) + Recovery<T>(old(log.Record()), caught, now, rejects).0)
    ensures r == Recovery<T>(old(log.Record()), caught, now, rejects).1
  {
    log.status := Failed;
    log.message := Some(caught.Message());
    var logged := Log(db, log, now, rejects);
    if logged.Fail? {
      return Failure(logged.error);
    }
    r := Failure(caught);
  }

  /** The completion half of `around`: the `log` call on the success path
      sits inside the `try`, so a failure to store the SUCCESS entry is
      handled like a failure of the operation itself. */
  method Complete<T>(db: Database, log: AuditLog, outcome: Result<T>, now: Instant, rejects: AuditRecord -> Option<Exception>)
    returns (r: Result<T>)
    requires db.Valid()
    modifies db, log
    ensures db.Valid()
    ensures db.t == old(db.t).(auditLogs := old(db.t.auditLogs) + Completion(old(log.Record()), outcome, now, rejects).0)
    ensures r == Completion(old(log.Record()), outcome, now, rejects).1
  {
    match outcome {
      case Success(_) =>
        var logged := Log(db, log, now, rejects);
        if logged.Pass? {
          return outcome;
        }
        r := Recover(db, log, logged.error, now, rejects);
      case Failure(e) =>
        r := Recover(db, log, e, now, rejects);
    }
  }

  /** `around` for an operation that reads the tables only: `proceed` is what
      the operation returns or throws. */
  method Around<T>(db: Database, action: string, auth: Option<Authentication>, args: Option<seq<Option<Argument>>>,
                   request: HttpRequest, now: Instant, proceed: Result<T>, rejects: AuditRecord -> Option<Exception>)
    returns (r: Result<T>)
    requires db.Valid()
    modifies db
    ensures db.Valid()
    ensures var entry := Entry(old(db.t), action, auth, args, request, now);
            db.t == old(db.t).(auditLogs := old(db.t.auditLogs) + Completion(entry, proceed, now, rejects).0) &&
            r == Completion(entry, proceed, now, rejects).1
  {
    var log := Begin(db.t, action, auth, args, request, now);
    r := Complete(db, log, proceed, now, rejects);
  }
}
