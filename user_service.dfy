/** User administration: creating administrators, listing and looking up
    accounts with their role codes, and physical deletion. */
module UserService {
  import opened Common
  import opened Entities
  import opened Store
  import Authority

  /** The password is kept as the encoder's hash of it; `encode` stands for
      the configured password encoder. */
  datatype UserRequest = UserRequest(username: string, email: Option<string>, password: string)

  datatype UserResponse = UserResponse(id: Id, username: string, email: Option<string>,
                                       enabled: bool, locked: bool, roles: set<string>)

  const AdminRoleCode: string := "ADMIN"
  const NotFoundError := ApiException(NotFound, "User not found")
  const DuplicateUsernameError := ApiException(BadRequest, "Username already exists")
  const MissingAdminRoleError := ApiException(BadRequest, "Role ADMIN not found")
  const ConstraintError := DataIntegrityViolation("user_accounts")

  /** `toResponse`: the account's columns and the codes of the roles its
      association rows name; a row naming a soft-deleted or removed role
      throws when its code is read. */
  function ToResponse(t: Tables, id: Id): (r: Result<UserResponse>)
    requires id in t.users
    ensures r.Failure? <==> !Authority.RolesResolve(t, id)
    ensures r.Failure? ==> r.error == Authority.MissingRole
    ensures r.Success? ==>
              r.value.id == id && r.value.username == t.users[id].username && r.value.email == t.users[id].email &&
              r.value.enabled == t.users[id].enabled && r.value.locked == t.users[id].locked
    ensures r.Success? ==>
              forall c :: c in r.value.roles <==>
                exists rid :: rid in t.roles && UserRole(id, rid) in t.userRoles && t.roles[rid].code == c
  {
    var u := t.users[id];
    forall c ensures c in Authority.UserRoleCodes(t, id) <==>
                     exists rid :: rid in t.roles && UserRole(id, rid) in t.userRoles && t.roles[rid].code == c
    {
      Authority.UserRoleCodesMembership(t, id, c);
    }
    if !Authority.RolesResolve(t, id) then Failure(Authority.MissingRole)
    else Success(UserResponse(id, u.username, u.email, u.enabled, u.locked, Authority.UserRoleCodes(t, id)))
  }

  /** An account the repository's `findById` and `existsById` see. */
  predicate Found(t: Tables, id: Id) {
    id in t.users && t.users[id].Visible()
  }

  // ---------------------------------------------------------------------
  // findById and findAll

  function FindById(t: Tables, id: Id): (r: Result<UserResponse>)
    ensures r == Failure(NotFoundError) <==> !Found(t, id)
    ensures Found(t, id) ==> r == ToResponse(t, id)
  {
    if Found(t, id) then ToResponse(t, id) else Failure(NotFoundError)
  }

  /** `findAll`: the non-deleted accounts, each as `findById` reports it
      (the order of the list is not modelled); one account whose role
      reference does not resolve makes the whole call throw. */
  function FindAll(t: Tables): (r: Result<set<UserResponse>>)
    ensures r.Failure? <==> exists id :: Found(t, id) && !Authority.RolesResolve(t, id)
    ensures r.Failure? ==> r.error == Authority.MissingRole
    ensures r.Success? ==> forall id :: Found(t, id) ==> FindById(t, id).value in r.value
    ensures r.Success? ==> forall x :: x in r.value ==> FindById(t, x.id) == Success(x)
  {
    if exists id | id in t.users :: t.users[id].Visible() && !Authority.RolesResolve(t, id) then
      Failure(Authority.MissingRole)
    else
      Success(set id | id in t.users && t.users[id].Visible() :: ToResponse(t, id).value)
  }

  // ---------------------------------------------------------------------
  // createAdmin

  /** The account a request describes: enabled, unlocked, not deleted. */
  function NewAccount(req: UserRequest, encode: string -> string): (r: UserAccount)
    ensures r.username == req.username && r.email == req.email && r.passwordHash == encode(req.password)
    ensures r.enabled && !r.locked && r.Visible()
  {
    UserAccount(req.username, req.email, encode(req.password), true, false, None)
  }

  /** What `createAdmin` leaves in the tables and answers. A username held
      by a non-deleted account is refused; a username or e-mail held by any
      other row breaks a unique column; a missing (or deleted) ADMIN role
      rolls the new account back. Otherwise the account is added with one
      association row to the ADMIN role, and its response lists exactly that
      role. */
  function CreateAdminOutcome(t: Tables, req: UserRequest, encode: string -> string): (r: (Tables, Result<UserResponse>))
    requires Consistent(t)
    ensures Consistent(r.0)
    ensures r.1.Failure? ==> r.0 == t
    ensures UsernameExists(t.users, req.username) ==> r.1 == Failure(DuplicateUsernameError)
    ensures !UsernameExists(t.users, req.username) && (UsernameStored(t.users, req.username) || EmailStored(t.users, req.email)) ==>
              r.1 == Failure(ConstraintError)
    ensures !UsernameStored(t.users, req.username) && !EmailStored(t.users, req.email) ==>
              (r.1.Success? <==> FindRoleByCode(t.roles, AdminRoleCode).Some?)
    ensures r.1.Failure? && r.1.error == MissingAdminRoleError ==> FindRoleByCode(t.roles, AdminRoleCode).None?
    ensures r.1.Success? ==>
              var id := t.nextId;
              var admin := FindRoleByCode(t.roles, AdminRoleCode).value;
              id !in t.users &&
              r.0 == t.(users := t.users[id := NewAccount(req, encode)], nextId := id + 1,
                        userRoles := t.userRoles + [UserRole(id, admin)]) &&
              r.1.value == UserResponse(id, req.username, req.email, true, false, {AdminRoleCode}) &&
              ToResponse(r.0, id) == r.1
  {
    if UsernameExists(t.users, req.username) then (t, Failure(DuplicateUsernameError))
    else if UsernameStored(t.users, req.username) || EmailStored(t.users, req.email) then (t, Failure(ConstraintError))
    else
      match FindRoleByCode(t.roles, AdminRoleCode)
      case None => (t, Failure(MissingAdminRoleError))
      case Some(admin) =>
        var id := t.nextId;
        var t' := t.(users := t.users[id := NewAccount(req, encode)], nextId := id + 1,
                     userRoles := t.userRoles + [UserRole(id, admin)]);
        Authority.FreshUserSingleRole(t, t', admin);
        (t', ToResponse(t', id))
  }

  method CreateAdmin(db: Database, req: UserRequest, encode: string -> string) returns (r: Result<UserResponse>)
    requires db.Valid()
    modifies db
    ensures db.Valid()
    ensures (db.t, r) == CreateAdminOutcome(old(db.t), req, encode)
  {
    if UsernameExists(db.t.users, req.username) {
      return Failure(DuplicateUsernameError);
    }
    var snapshot := db.t;
    var saved := db.InsertUser(NewAccount(req, encode));
    if saved.Failure? {
      return Failure(saved.error);
    }
    var id := saved.value;
    var admin := FindRoleByCode(db.t.roles, AdminRoleCode);
    if admin.None? {
      db.Rollback(snapshot);
      return Failure(MissingAdminRoleError);
    }
    db.AddUserRole(UserRole(id, admin.value));
    r := ToResponse(db.t, id);
  }

  /** A created administrator is found by its username, and `findById`
      answers the response `createAdmin` returned. */
  lemma CreatedAdminIsFound(t: Tables, req: UserRequest, encode: string -> string)
    requires Consistent(t) && CreateAdminOutcome(t, req, encode).1.Success?
    ensures var (t', resp) := CreateAdminOutcome(t, req, encode);
            FindUserByUsername(t'.users, req.username) == Some(resp.value.id) &&
            FindById(t', resp.value.id) == resp
  {
  }

  // ---------------------------------------------------------------------
  // hardDelete

  /** What `hardDelete` leaves in the tables: a found account's row is
      removed (its association rows and refresh tokens are not touched). */
  function HardDeleteOutcome(t: Tables, id: Id): (r: (Tables, Outcome))
    requires Consistent(t)
    ensures Consistent(r.0)
    ensures !Found(t, id) ==> r == (t, Fail(NotFoundError))
    ensures Found(t, id) ==> r.1 == Pass && r.0 == t.(users := t.users - {id})
  {
    if !Found(t, id) then (t, Fail(NotFoundError)) else (t.(users := t.users - {id}), Pass)
  }

  method HardDelete(db: Database, id: Id) returns (r: Outcome)
    requires db.Valid()
    modifies db
    ensures db.Valid()
    ensures (db.t, r) == HardDeleteOutcome(old(db.t), id)
  {
    if !Found(db.t, id) {
      return Fail(NotFoundError);
    }
    db.HardDeleteUser(id);
    r := Pass;
  }

  /** Once an account is hard-deleted its username can be registered again. */
  lemma HardDeleteFreesUsername(t: Tables, id: Id, req: UserRequest, encode: string -> string)
    requires Consistent(t) && Found(t, id) && req.username == t.users[id].username && req.email.None?
    ensures var t' := HardDeleteOutcome(t, id).0;
            CreateAdminOutcome(t', req, encode).1.Success? <==> FindRoleByCode(t'.roles, AdminRoleCode).Some?
  {
    var t' := HardDeleteOutcome(t, id).0;
    assert !UsernameStored(t'.users, req.username);
  }
}
