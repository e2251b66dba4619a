/** Role administration: create, update, soft delete, hard delete and look
    up roles, whose codes are unique. */
module RoleService {
  import opened Common
  import opened Entities
  import opened Store

  datatype RoleRequest = RoleRequest(code: string, name: string, description: string)

  datatype RoleResponse = RoleResponse(id: Id, code: string, name: string, description: string)

  const NotFoundError := ApiException(NotFound, "Role not found")
  const DuplicateCodeError := ApiException(BadRequest, "Role code already exists")
  const ConstraintError := DataIntegrityViolation("roles.code")

  /** The response carries the role's identity and its own fields. */
  function ToResponse(id: Id, role: Role): (r: RoleResponse)
    ensures r.id == id && r.code == role.code && r.name == role.name && r.description == role.description
  {
    RoleResponse(id, role.code, role.name, role.description)
  }

  /** A role the repository's `findById` and `existsById` see. */
  predicate Found(t: Tables, id: Id) {
    id in t.roles && t.roles[id].Visible()
  }

  // ---------------------------------------------------------------------
  // findById

  function FindById(t: Tables, id: Id): (r: Result<RoleResponse>)
    ensures r.Failure? <==> !Found(t, id)
    ensures r.Failure? ==> r.error == NotFoundError
    ensures r.Success? ==> r.value.id == id && r.value.code == t.roles[id].code &&
                           r.value.name == t.roles[id].name && r.value.description == t.roles[id].description
  {
    if Found(t, id) then Success(ToResponse(id, t.roles[id])) else Failure(NotFoundError)
  }

  /** `findAll`: the non-deleted roles, each as `findById` reports it (the
      order of the list is not modelled). */
  function FindAll(t: Tables): (r: set<RoleResponse>)
    ensures forall id :: Found(t, id) ==> FindById(t, id).value in r
    ensures forall x :: x in r ==> FindById(t, x.id) == Success(x)
  {
    set id | id in t.roles && t.roles[id].Visible() :: ToResponse(id, t.roles[id])
  }

  // ---------------------------------------------------------------------
  // create

  /** What `create` leaves in the tables and answers: a code held by a
      non-deleted role is refused; a code held only by a deleted role passes
      that check but breaks the unique column; otherwise one role is added. */
  function CreateOutcome(t: Tables, req: RoleRequest): (r: (Tables, Result<RoleResponse>))
    requires Consistent(t)
    ensures Consistent(r.0)
    ensures r.1.Failure? ==> r.0 == t
    ensures (exists id :: id in t.roles && t.roles[id].code == req.code && t.roles[id].Visible()) ==>
              r.1 == Failure(DuplicateCodeError)
    ensures r.1.Failure? && r.1 != Failure(DuplicateCodeError) ==> r.1 == Failure(ConstraintError) && RoleCodeStored(t.roles, req.code)
    ensures !RoleCodeStored(t.roles, req.code) ==> r.1.Success?
    ensures r.1.Success? ==>
              var id := r.1.value.id;
              id !in t.roles &&
              r.0 == t.(roles := t.roles[id := Role(req.code, req.name, req.description, None)], nextId := t.nextId + 1) &&
              r.1.value == RoleResponse(id, req.code, req.name, req.description)
  {
    if FindRoleByCode(t.roles, req.code).Some? then (t, Failure(DuplicateCodeError))
    else if RoleCodeStored(t.roles, req.code) then (t, Failure(ConstraintError))
    else
      var role := Role(req.code, req.name, req.description, None);
      (t.(roles := t.roles[t.nextId := role], nextId := t.nextId + 1), Success(ToResponse(t.nextId, role)))
  }

  method Create(db: Database, req: RoleRequest) returns (r: Result<RoleResponse>)
    requires db.Valid()
    modifies db
    ensures db.Valid()
    ensures (db.t, r) == CreateOutcome(old(db.t), req)
  {
    if FindRoleByCode(db.t.roles, req.code).Some? {
      return Failure(DuplicateCodeError);
    }
    var role := Role(req.code, req.name, req.description, None);
    var saved := db.InsertRole(role);
    if saved.Failure? {
      return Failure(saved.error);
    }
    r := Success(ToResponse(saved.value, role));
  }

  /** A created role is found again by its id and by its code. */
  lemma CreatedRoleIsFound(t: Tables, req: RoleRequest)
    requires Consistent(t)
    requires CreateOutcome(t, req).1.Success?
    ensures var (t', resp) := CreateOutcome(t, req);
            FindById(t', resp.value.id) == resp &&
            FindRoleByCode(t'.roles, req.code) == Some(resp.value.id)
  {
  }

  // ---------------------------------------------------------------------
  // update

  /** What `update` leaves in the tables and answers: the role must be
      found; a new code must not be held by a non-deleted role (keeping the
      current code needs no check); the code, name and description are
      overwritten and nothing else changes. */
  function UpdateOutcome(t: Tables, id: Id, req: RoleRequest): (r: (Tables, Result<RoleResponse>))
    requires Consistent(t)
    ensures Consistent(r.0)
    ensures r.1.Failure? ==> r.0 == t
    ensures !Found(t, id) ==> r.1 == Failure(NotFoundError)
    ensures Found(t, id) && t.roles[id].code == req.code ==> r.1.Success?
    ensures Found(t, id) && t.roles[id].code != req.code && FindRoleByCode(t.roles, req.code).Some? ==>
              r.1 == Failure(DuplicateCodeError)
    ensures Found(t, id) && !RoleCodeStored(t.roles - {id}, req.code) ==> r.1.Success?
    ensures Found(t, id) && FindRoleByCode(t.roles, req.code).None? && RoleCodeStored(t.roles - {id}, req.code) ==>
              r.1 == Failure(ConstraintError)
    ensures r.1.Failure? ==> r.1 in {Failure(NotFoundError), Failure(DuplicateCodeError), Failure(ConstraintError)}
    ensures r.1.Success? ==>
              Found(t, id) &&
              r.0 == t.(roles := t.roles[id := Role(req.code, req.name, req.description, None)]) &&
              r.1.value == RoleResponse(id, req.code, req.name, req.description)
  {
    if !Found(t, id) then (t, Failure(NotFoundError))
    else if t.roles[id].code != req.code && FindRoleByCode(t.roles, req.code).Some? then
      assert FindRoleByCode(t.roles, req.code).value in t.roles - {id};
      (t, Failure(DuplicateCodeError))
    else if RoleCodeStored(t.roles - {id}, req.code) then (t, Failure(ConstraintError))
    else
      var role := Role(req.code, req.name, req.description, None);
      RoleRewriteConsistent(t, id, role);
      (t.(roles := t.roles[id := role]), Success(ToResponse(id, role)))
  }

  method Update(db: Database, id: Id, req: RoleRequest) returns (r: Result<RoleResponse>)
    requires db.Valid()
    modifies db
    ensures db.Valid()
    ensures (db.t, r) == UpdateOutcome(old(db.t), id, req)
  {
    if !Found(db.t, id) {
      return Failure(NotFoundError);
    }
    if db.t.roles[id].code != req.code && FindRoleByCode(db.t.roles, req.code).Some? {
      return Failure(DuplicateCodeError);
    }
    var role := Role(req.code, req.name, req.description, None);
    var saved := db.UpdateRole(id, role);
    if saved.Fail? {
      return Failure(saved.error);
    }
    r := Success(ToResponse(id, role));
  }

  // ---------------------------------------------------------------------
  // delete (soft) and hardDelete

  /** What `delete` leaves in the tables: a found role is marked deleted at
      `now` and stays in its table. */
  function DeleteOutcome(t: Tables, id: Id, now: Instant): (r: (Tables, Outcome))
    requires Consistent(t)
    ensures Consistent(r.0)
    ensures !Found(t, id) ==> r == (t, Fail(NotFoundError))
    ensures Found(t, id) ==>
              r.1 == Pass && r.0 == t.(roles := t.roles[id := t.roles[id].(deletedAt := Some(now))])
  {
    if !Found(t, id) then (t, Fail(NotFoundError))
    else (t.(roles := t.roles[id := t.roles[id].(deletedAt := Some(now))]), Pass)
  }

  method Delete(db: Database, id: Id, now: Instant) returns (r: Outcome)
    requires db.Valid()
    modifies db
    ensures db.Valid()
    ensures (db.t, r) == DeleteOutcome(old(db.t), id, now)
  {
    if !Found(db.t, id) {
      return Fail(NotFoundError);
    }
    db.SoftDeleteRole(id, now);
    r := Pass;
  }

  /** A soft-deleted role keeps its row (and so its code) but no lookup sees
      it any more, and creating a role with its code is refused by the
      unique column rather than by the service's check. */
  lemma DeletedRoleHidden(t: Tables, id: Id, now: Instant, req: RoleRequest)
    requires Consistent(t) && Found(t, id) && req.code == t.roles[id].code
    ensures var t' := DeleteOutcome(t, id, now).0;
            id in t'.roles && t'.roles[id].code == t.roles[id].code &&
            FindById(t', id) == Failure(NotFoundError) &&
            FindRoleByCode(t'.roles, req.code).None? &&
            CreateOutcome(t', req) == (t', Failure(ConstraintError))
  {
    var t' := DeleteOutcome(t, id, now).0;
    assert id in t'.roles && t'.roles[id].code == req.code;
  }

  /** What `hardDelete` leaves in the tables: a found role's row is removed. */
  function HardDeleteOutcome(t: Tables, id: Id): (r: (Tables, Outcome))
    requires Consistent(t)
    ensures Consistent(r.0)
    ensures !Found(t, id) ==> r == (t, Fail(NotFoundError))
    ensures Found(t, id) ==> r.1 == Pass && r.0 == t.(roles := t.roles - {id})
  {
    if !Found(t, id) then (t, Fail(NotFoundError)) else (t.(roles := t.roles - {id}), Pass)
  }

  method HardDelete(db: Database, id: Id) returns (r: Outcome)
    requires db.Valid()
    modifies db
    ensures db.Valid()
    ensures (db.t, r) == HardDeleteOutcome(old(db.t), id)
  {
    if !Found(db.t, id) {
      return Fail(NotFoundError);
    }
    db.HardDeleteRole(id);
    r := Pass;
  }

  /** After a hard delete the code is free again. */
  lemma HardDeleteFreesCode(t: Tables, id: Id, req: RoleRequest)
    requires Consistent(t) && Found(t, id) && req.code == t.roles[id].code
    ensures CreateOutcome(HardDeleteOutcome(t, id).0, req).1.Success?
  {
    var t' := HardDeleteOutcome(t, id).0;
    assert !RoleCodeStored(t'.roles, req.code);
  }
}
