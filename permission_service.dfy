/** Permission administration: create, update, soft delete, hard delete and
    look up permissions, whose codes are unique. */
module PermissionService {
  import opened Common
  import opened Entities
  import opened Store

  datatype PermissionRequest = PermissionRequest(code: string, description: string)

  datatype PermissionResponse = PermissionResponse(id: Id, code: string, description: string)

  const NotFoundError := ApiException(NotFound, "Permission not found")
  const DuplicateCodeError := ApiException(BadRequest, "Permission code already exists")
  const ConstraintError := DataIntegrityViolation("permissions.code")

  /** The response carries the permission's identity and its own fields. */
  function ToResponse(id: Id, p: Permission): (r: PermissionResponse)
    ensures r.id == id && r.code == p.code && r.description == p.description
  {
    PermissionResponse(id, p.code, p.description)
  }

  /** A permission the repository's `findById` and `existsById` see. */
  predicate Found(t: Tables, id: Id) {
    id in t.permissions && t.permissions[id].Visible()
  }

  // ---------------------------------------------------------------------
  // findById and findAll

  function FindById(t: Tables, id: Id): (r: Result<PermissionResponse>)
    ensures r.Failure? <==> !Found(t, id)
    ensures r.Failure? ==> r.error == NotFoundError
    ensures r.Success? ==> r.value.id == id && r.value.code == t.permissions[id].code &&
                           r.value.description == t.permissions[id].description
  {
    if Found(t, id) then Success(ToResponse(id, t.permissions[id])) else Failure(NotFoundError)
  }

  /** `findAll`: the non-deleted permissions, each as `findById` reports it
      (the order of the list is not modelled). */
  function FindAll(t: Tables): (r: set<PermissionResponse>)
    ensures forall id :: Found(t, id) ==> FindById(t, id).value in r
    ensures forall x :: x in r ==> FindById(t, x.id) == Success(x)
  {
    set id | id in t.permissions && t.permissions[id].Visible() :: ToResponse(id, t.permissions[id])
  }

  // ---------------------------------------------------------------------
  // create

  /** What `create` leaves in the tables and answers: a code held by a
      non-deleted permission is refused; a code held only by a deleted one
      passes that check but breaks the unique column; otherwise one
      permission is added. */
  function CreateOutcome(t: Tables, req: PermissionRequest): (r: (Tables, Result<PermissionResponse>))
    requires Consistent(t)
    ensures Consistent(r.0)
    ensures r.1.Failure? ==> r.0 == t
    ensures (exists id :: id in t.permissions && t.permissions[id].code == req.code && t.permissions[id].Visible()) ==>
              r.1 == Failure(DuplicateCodeError)
    ensures r.1.Failure? && r.1 != Failure(DuplicateCodeError) ==>
              r.1 == Failure(ConstraintError) && PermissionCodeStored(t.permissions, req.code)
    ensures !PermissionCodeStored(t.permissions, req.code) ==> r.1.Success?
    ensures r.1.Success? ==>
              var id := r.1.value.id;
              id !in t.permissions &&
              r.0 == t.(permissions := t.permissions[id := Permission(req.code, req.description, None)], nextId := t.nextId + 1) &&
              r.1.value == PermissionResponse(id, req.code, req.description)
  {
    if FindPermissionByCode(t.permissions, req.code).Some? then (t, Failure(DuplicateCodeError))
    else if PermissionCodeStored(t.permissions, req.code) then (t, Failure(ConstraintError))
    else
      var p := Permission(req.code, req.description, None);
      (t.(permissions := t.permissions[t.nextId := p], nextId := t.nextId + 1), Success(ToResponse(t.nextId, p)))
  }

  method Create(db: Database, req: PermissionRequest) returns (r: Result<PermissionResponse>)
    requires db.Valid()
    modifies db
    ensures db.Valid()
    ensures (db.t, r) == CreateOutcome(old(db.t), req)
  {
    if FindPermissionByCode(db.t.permissions, req.code).Some? {
      return Failure(DuplicateCodeError);
    }
    var p := Permission(req.code, req.description, None);
    var saved := db.InsertPermission(p);
    if saved.Failure? {
      return Failure(saved.error);
    }
    r := Success(ToResponse(saved.value, p));
  }

  // ---------------------------------------------------------------------
  // update

  /** What `update` leaves in the tables and answers: the permission must be
      found; a new code must not be held by a non-deleted permission (keeping
      the current code needs no check); the code and description are
      overwritten and nothing else changes. */
  function UpdateOutcome(t: Tables, id: Id, req: PermissionRequest): (r: (Tables, Result<PermissionResponse>))
    requires Consistent(t)
    ensures Consistent(r.0)
    ensures r.1.Failure? ==> r.0 == t
    ensures !Found(t, id) ==> r.1 == Failure(NotFoundError)
    ensures Found(t, id) && t.permissions[id].code == req.code ==> r.1.Success?
    ensures Found(t, id) && t.permissions[id].code != req.code && FindPermissionByCode(t.permissions, req.code).Some? ==>
              r.1 == Failure(DuplicateCodeError)
    ensures Found(t, id) && !PermissionCodeStored(t.permissions - {id}, req.code) ==> r.1.Success?
    ensures Found(t, id) && FindPermissionByCode(t.permissions, req.code).None? &&
            PermissionCodeStored(t.permissions - {id}, req.code) ==>
              r.1 == Failure(ConstraintError)
    ensures r.1.Failure? ==> r.1 in {Failure(NotFoundError), Failure(DuplicateCodeError), Failure(ConstraintError)}
    ensures r.1.Success? ==>
              Found(t, id) &&
              r.0 == t.(permissions := t.permissions[id := Permission(req.code, req.description, None)]) &&
              r.1.value == PermissionResponse(id, req.code, req.description)
  {
    if !Found(t, id) then (t, Failure(NotFoundError))
    else if t.permissions[id].code != req.code && FindPermissionByCode(t.permissions, req.code).Some? then
      assert FindPermissionByCode(t.permissions, req.code).value in t.permissions - {id};
      (t, Failure(DuplicateCodeError))
    else if PermissionCodeStored(t.permissions - {id}, req.code) then (t, Failure(ConstraintError))
    else
      var p := Permission(req.code, req.description, None);
      PermissionRewriteConsistent(t, id, p);
      (t.(permissions := t.permissions[id := p]), Success(ToResponse(id, p)))
  }

  method Update(db: Database, id: Id, req: PermissionRequest) returns (r: Result<PermissionResponse>)
    requires db.Valid()
    modifies db
    ensures db.Valid()
    ensures (db.t, r) == UpdateOutcome(old(db.t), id, req)
  {
    if !Found(db.t, id) {
      return Failure(NotFoundError);
    }
    if db.t.permissions[id].code != req.code && FindPermissionByCode(db.t.permissions, req.code).Some? {
      return Failure(DuplicateCodeError);
    }
    var p := Permission(req.code, req.description, None);
    var saved := db.UpdatePermission(id, p);
    if saved.Fail? {
      return Failure(saved.error);
    }
    r := Success(ToResponse(id, p));
  }

  /** Updating a permission to its current code with its current
      description leaves the tables as they were. */
  lemma UpdateWithSameValuesIsIdentity(t: Tables, id: Id)
    requires Consistent(t) && Found(t, id)
    ensures var req := PermissionRequest(t.permissions[id].code, t.permissions[id].description);
            UpdateOutcome(t, id, req) == (t, FindById(t, id))
  {
    var req := PermissionRequest(t.permissions[id].code, t.permissions[id].description);
    assert t.permissions[id := Permission(req.code, req.description, None)] == t.permissions;
  }

  // ---------------------------------------------------------------------
  // delete (soft) and hardDelete

  /** What `delete` leaves in the tables: a found permission is marked
      deleted at `now` and stays in its table. */
  function DeleteOutcome(t: Tables, id: Id, now: Instant): (r: (Tables, Outcome))
    requires Consistent(t)
    ensures Consistent(r.0)
    ensures !Found(t, id) ==> r == (t, Fail(NotFoundError))
    ensures Found(t, id) ==>
              r.1 == Pass && r.0 == t.(permissions := t.permissions[id := t.permissions[id].(deletedAt := Some(now))])
  {
    if !Found(t, id) then (t, Fail(NotFoundError))
    else (t.(permissions := t.permissions[id := t.permissions[id].(deletedAt := Some(now))]), Pass)
  }

  method Delete(db: Database, id: Id, now: Instant) returns (r: Outcome)
    requires db.Valid()
    modifies db
    ensures db.Valid()
    ensures (db.t, r) == DeleteOutcome(old(db.t), id, now)
  {
    if !Found(db.t, id) {
      return Fail(NotFoundError);
    }
    db.SoftDeletePermission(id, now);
    r := Pass;
  }

  /** Deleting twice: the second call no longer finds the permission. */
  lemma DeleteTwiceNotFound(t: Tables, id: Id, now: Instant, later: Instant)
    requires Consistent(t) && Found(t, id)
    ensures DeleteOutcome(DeleteOutcome(t, id, now).0, id, later).1 == Fail(NotFoundError)
  {
    var t' := DeleteOutcome(t, id, now).0;
    assert !t'.permissions[id].Visible();
  }

  /** What `hardDelete` leaves in the tables: a found permission's row is removed. */
  function HardDeleteOutcome(t: Tables, id: Id): (r: (Tables, Outcome))
    requires Consistent(t)
    ensures Consistent(r.0)
    ensures !Found(t, id) ==> r == (t, Fail(NotFoundError))
    ensures Found(t, id) ==> r.1 == Pass && r.0 == t.(permissions := t.permissions - {id})
  {
    if !Found(t, id) then (t, Fail(NotFoundError)) else (t.(permissions := t.permissions - {id}), Pass)
  }

  method HardDelete(db: Database, id: Id) returns (r: Outcome)
    requires db.Valid()
    modifies db
    ensures db.Valid()
    ensures (db.t, r) == HardDeleteOutcome(old(db.t), id)
  {
    if !Found(db.t, id) {
      return Fail(NotFoundError);
    }
    db.HardDeletePermission(id);
    r := Pass;
  }

  /** A soft-deleted permission cannot be hard-deleted through the service:
      `existsById` no longer sees it. */
  lemma SoftDeletedCannotBeHardDeleted(t: Tables, id: Id, now: Instant)
    requires Consistent(t) && Found(t, id)
    ensures var t' := DeleteOutcome(t, id, now).0;
            HardDeleteOutcome(t', id) == (t', Fail(NotFoundError)) && id in t'.permissions
  {
    var t' := DeleteOutcome(t, id, now).0;
    assert !t'.permissions[id].Visible();
  }
}
