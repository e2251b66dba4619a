/** Item administration: items have unique codes and a stock quantity that
    the request carries as a 64-bit `long` and the table stores as a 32-bit
    `Integer`. Create, update, delete and hardDelete run under the audit
    interceptor. */
module ItemService {
  import opened Common
  import opened Entities
  import opened Store
  import opened AuditLogAspect

  /** The values of a Java `long`. */
  type Int64 = x: int | -0x8000_0000_0000_0000 <= x < 0x8000_0000_0000_0000

  const TwoTo32: int := 0x1_0000_0000

  datatype ItemRequest = ItemRequest(code: string, name: string, description: string, stockQty: Int64)

  datatype ItemResponse = ItemResponse(id: Id, code: string, name: string, description: string, stockQty: Int64)

  const NotFoundError := ApiException(NotFound, "Item not found")
  const DuplicateCodeError := ApiException(BadRequest, "Item code already exists")
  const ConstraintError := DataIntegrityViolation("items.code")

  // ---------------------------------------------------------------------
  // Stock conversions

  /** Java's `(int)` cast of a `long`: the low 32 bits, read as two's
      complement. The result is the one `int` congruent to `x` modulo 2^32,
      and it is `x` itself when `x` fits. */
  function NarrowToInt(x: Int64): (r: Int32)
    ensures (x - r) % TwoTo32 == 0
    ensures -0x8000_0000 <= x < 0x8000_0000 ==> r == x
  {
    var low := x % TwoTo32;
    if low < 0x8000_0000 then low else low - TwoTo32
  }

  /** The response's stock: the stored `Integer` widened to `long`, or 0
      when the column holds null. */
  function WidenStock(stock: Option<Int32>): (r: Int64)
    ensures stock.Some? ==> r == stock.value
    ensures stock.None? ==> r == 0
  {
    if stock.Some? then stock.value else 0
  }

  /** The stock a request leaves behind, read back through a response,
      equals the requested stock exactly when the request fits in an `int`;
      otherwise it differs by a non-zero multiple of 2^32. */
  lemma {:induction false} StockRoundTrip(x: Int64)
    ensures WidenStock(Some(NarrowToInt(x))) == x <==> -0x8000_0000 <= x < 0x8000_0000
    ensures WidenStock(Some(NarrowToInt(x))) != x ==> (x - WidenStock(Some(NarrowToInt(x)))) % TwoTo32 == 0
  {
    var r := NarrowToInt(x);
    if WidenStock(Some(r)) == x {
      assert -0x8000_0000 <= r < 0x8000_0000;
    }
  }

  /** Two instances of the wrap-around: 2^31 becomes the smallest `int`,
      and 2^32 + 5 becomes 5. */
  lemma StockWrapsAround()
    ensures NarrowToInt(0x8000_0000) == -0x8000_0000
    ensures NarrowToInt(0x1_0000_0005) == 5
  {
  }

  // ---------------------------------------------------------------------
  // findById and findAll

  function ToResponse(id: Id, item: Item): (r: ItemResponse)
    ensures r.id == id && r.code == item.code && r.name == item.name && r.description == item.description
    ensures r.stockQty == WidenStock(item.stockQty)
  {
    ItemResponse(id, item.code, item.name, item.description, WidenStock(item.stockQty))
  }

  /** An item the repository's `findById` and `existsById` see. */
  predicate Found(t: Tables, id: Id) {
    id in t.items && t.items[id].Visible()
  }

  function FindById(t: Tables, id: Id): (r: Result<ItemResponse>)
    ensures r.Failure? <==> !Found(t, id)
    ensures r.Failure? ==> r.error == NotFoundError
    ensures r.Success? ==> r.value == ToResponse(id, t.items[id])
  {
    if Found(t, id) then Success(ToResponse(id, t.items[id])) else Failure(NotFoundError)
  }

  /** `findAll`: the non-deleted items, each as `findById` reports it (the
      order of the list is not modelled). */
  function FindAll(t: Tables): (r: set<ItemResponse>)
    ensures forall id :: Found(t, id) ==> FindById(t, id).value in r
    ensures forall x :: x in r ==> FindById(t, x.id) == Success(x)
  {
    set id | id in t.items && t.items[id].Visible() :: ToResponse(id, t.items[id])
  }

  // ---------------------------------------------------------------------
  // create

  /** The row a request describes. */
  function RowFor(req: ItemRequest): (r: Item)
    ensures r.code == req.code && r.name == req.name && r.description == req.description
    ensures r.stockQty == Some(NarrowToInt(req.stockQty)) && r.Visible()
  {
    Item(req.code, req.name, req.description, Some(NarrowToInt(req.stockQty)), None)
  }

  /** What `create` leaves in the tables and answers: a code held by a
      non-deleted item is refused; a code held only by a deleted item passes
      that check but breaks the unique column; otherwise one item is added,
      with the stock narrowed to an `int`. */
  function CreateOutcome(t: Tables, req: ItemRequest): (r: (Tables, Result<ItemResponse>))
    requires Consistent(t)
    ensures Consistent(r.0)
    ensures r.1.Failure? ==> r.0 == t
    ensures ItemCodeExists(t.items, req.code) ==> r.1 == Failure(DuplicateCodeError)
    ensures r.1.Failure? && !ItemCodeExists(t.items, req.code) ==>
              r.1 == Failure(ConstraintError) && ItemCodeStored(t.items, req.code)
    ensures !ItemCodeStored(t.items, req.code) ==> r.1.Success?
    ensures r.1.Success? ==>
              var id := r.1.value.id;
              id !in t.items &&
              r.0 == t.(items := t.items[id := RowFor(req)], nextId := t.nextId + 1) &&
              r.1.value == ItemResponse(id, req.code, req.name, req.description, NarrowToInt(req.stockQty))
  {
    if ItemCodeExists(t.items, req.code) then (t, Failure(DuplicateCodeError))
    else if ItemCodeStored(t.items, req.code) then (t, Failure(ConstraintError))
    else (t.(items := t.items[t.nextId := RowFor(req)], nextId := t.nextId + 1), Success(ToResponse(t.nextId, RowFor(req))))
  }

  method Create(db: Database, req: ItemRequest) returns (r: Result<ItemResponse>)
    requires db.Valid()
    modifies db
    ensures db.Valid()
    ensures (db.t, r) == CreateOutcome(old(db.t), req)
  {
    if ItemCodeExists(db.t.items, req.code) {
      return Failure(DuplicateCodeError);
    }
    var item := RowFor(req);
    var saved := db.InsertItem(item);
    if saved.Failure? {
      return Failure(saved.error);
    }
    r := Success(ToResponse(saved.value, item));
  }

  /** A created item is found again with the requested code, name and
      description, and with the requested stock exactly when it fits in an
      `int`. */
  lemma CreateThenFind(t: Tables, req: ItemRequest)
    requires Consistent(t) && CreateOutcome(t, req).1.Success?
    ensures var (t', resp) := CreateOutcome(t, req);
            var found := FindById(t', resp.value.id);
            found == resp &&
            found.value.code == req.code && found.value.name == req.name && found.value.description == req.description &&
            (found.value.stockQty == req.stockQty <==> -0x8000_0000 <= req.stockQty < 0x8000_0000)
  {
    StockRoundTrip(req.stockQty);
  }

  // ---------------------------------------------------------------------
  // update

  /** What `update` leaves in the tables and answers: the item must be
      found; a new code must not be held by a non-deleted item (keeping the
      current code needs no check); code, name, description and stock are
      overwritten and nothing else changes. */
  function UpdateOutcome(t: Tables, id: Id, req: ItemRequest): (r: (Tables, Result<ItemResponse>))
    requires Consistent(t)
    ensures Consistent(r.0)
    ensures r.1.Failure? ==> r.0 == t
    ensures !Found(t, id) ==> r.1 == Failure(NotFoundError)
    ensures Found(t, id) && t.items[id].code == req.code ==> r.1.Success?
    ensures Found(t, id) && t.items[id].code != req.code && ItemCodeExists(t.items, req.code) ==>
              r.1 == Failure(DuplicateCodeError)
    ensures Found(t, id) && !ItemCodeStored(t.items - {id}, req.code) ==> r.1.Success?
    ensures Found(t, id) && !ItemCodeExists(t.items, req.code) && ItemCodeStored(t.items - {id}, req.code) ==>
              r.1 == Failure(ConstraintError)
    ensures r.1.Failure? ==> r.1 in {Failure(NotFoundError), Failure(DuplicateCodeError), Failure(ConstraintError)}
    ensures r.1.Success? ==>
              Found(t, id) &&
              r.0 == t.(items := t.items[id := RowFor(req)]) &&
              r.1.value == ItemResponse(id, req.code, req.name, req.description, NarrowToInt(req.stockQty))
  {
    if !Found(t, id) then (t, Failure(NotFoundError))
    else if t.items[id].code != req.code && ItemCodeExists(t.items, req.code) then
      var other :| other in t.items && t.items[other].code == req.code && t.items[other].Visible();
      assert other in t.items - {id};
      (t, Failure(DuplicateCodeError))
    else if ItemCodeStored(t.items - {id}, req.code) then (t, Failure(ConstraintError))
    else
      ItemRewriteConsistent(t, id, RowFor(req));
      (t.(items := t.items[id := RowFor(req)]), Success(ToResponse(id, RowFor(req))))
  }

  method Update(db: Database, id: Id, req: ItemRequest) returns (r: Result<ItemResponse>)
    requires db.Valid()
    modifies db
    ensures db.Valid()
    ensures (db.t, r) == UpdateOutcome(old(db.t), id, req)
  {
    if !Found(db.t, id) {
      return Failure(NotFoundError);
    }
    if db.t.items[id].code != req.code && ItemCodeExists(db.t.items, req.code) {
      return Failure(DuplicateCodeError);
    }
    var item := RowFor(req);
    var saved := db.UpdateItem(id, item);
    if saved.Fail? {
      return Failure(saved.error);
    }
    r := Success(ToResponse(id, item));
  }

  /** An update touches only its own row: every other item reads as before. */
  lemma UpdateLeavesOthers(t: Tables, id: Id, req: ItemRequest, other: Id)
    requires Consistent(t) && other != id
    ensures FindById(UpdateOutcome(t, id, req).0, other) == FindById(t, other)
  {
  }

  // ---------------------------------------------------------------------
  // delete (soft) and hardDelete

  /** What `delete` leaves in the tables: a found item is marked deleted at
      `now` and stays in its table. */
  function DeleteOutcome(t: Tables, id: Id, now: Instant): (r: (Tables, Outcome))
    requires Consistent(t)
    ensures Consistent(r.0)
    ensures !Found(t, id) ==> r == (t, Fail(NotFoundError))
    ensures Found(t, id) ==>
              r.1 == Pass && r.0 == t.(items := t.items[id := t.items[id].(deletedAt := Some(now))])
  {
    if !Found(t, id) then (t, Fail(NotFoundError))
    else (t.(items := t.items[id := t.items[id].(deletedAt := Some(now))]), Pass)
  }

  method Delete(db: Database, id: Id, now: Instant) returns (r: Outcome)
    requires db.Valid()
    modifies db
    ensures db.Valid()
    ensures (db.t, r) == DeleteOutcome(old(db.t), id, now)
  {
    if !Found(db.t, id) {
      return Fail(NotFoundError);
    }
    db.SoftDeleteItem(id, now);
    r := Pass;
  }

  /** After a soft delete the item is no longer found, no longer counted
      and its code no longer "exists", yet the code still cannot be reused. */
  lemma DeletedItemHidden(t: Tables, id: Id, now: Instant, req: ItemRequest)
    requires Consistent(t) && Found(t, id) && req.code == t.items[id].code
    ensures var t' := DeleteOutcome(t, id, now).0;
            FindById(t', id) == Failure(NotFoundError) &&
            !ItemCodeExists(t'.items, req.code) &&
            CreateOutcome(t', req) == (t', Failure(ConstraintError))
  {
    var t' := DeleteOutcome(t, id, now).0;
    assert id in t'.items && t'.items[id].code == req.code;
  }

  /** What `hardDelete` leaves in the tables: a found item's row is removed. */
  function HardDeleteOutcome(t: Tables, id: Id): (r: (Tables, Outcome))
    requires Consistent(t)
    ensures Consistent(r.0)
    ensures !Found(t, id) ==> r == (t, Fail(NotFoundError))
    ensures Found(t, id) ==> r.1 == Pass && r.0 == t.(items := t.items - {id})
  {
    if !Found(t, id) then (t, Fail(NotFoundError)) else (t.(items := t.items - {id}), Pass)
  }

  method HardDelete(db: Database, id: Id) returns (r: Outcome)
    requires db.Valid()
    modifies db
    ensures db.Valid()
    ensures (db.t, r) == HardDeleteOutcome(old(db.t), id)
  {
    if !Found(db.t, id) {
      return Fail(NotFoundError);
    }
    db.HardDeleteItem(id);
    r := Pass;
  }

  // ---------------------------------------------------------------------
  // The audited entry points

  /** The intercepted arguments of an item operation: none of them (an
      identity, an `ItemRequest`) has a `getUsername()`. */
  function ItemArguments(count: nat): (r: seq<Option<Argument>>)
    ensures |r| == count
    ensures forall i :: 0 <= i < |r| ==> OfferedUsername(r[i]).None?
  {
    seq(count, _ => Some(Argument(NoAccessor)))
  }

  /** Item operations are recorded under the authenticated principal, or
      under "anonymousUser" when there is none. */
  lemma ItemEntryNamesPrincipal(t: Tables, action: string, auth: Option<Authentication>, count: nat,
                                request: HttpRequest, now: Instant)
    requires UsernamesUnique(t.users)
    ensures var e := Entry(t, action, auth, Some(ItemArguments(count)), request, now);
            e.username == (if PrincipalIsActor(auth) then auth.value.name.value else Anonymous)
  {
  }

  /** The `void` operations seen by the interceptor. */
  function AsResult(o: Outcome): (r: Result<()>)
    ensures r.Success? <==> o.Pass?
    ensures o.Fail? ==> r.error == o.error
  {
    if o.Pass? then Success(()) else Failure(o.error)
  }

  method AuditedCreate(db: Database, req: ItemRequest, auth: Option<Authentication>, request: HttpRequest,
                       now: Instant, rejects: AuditRecord -> Option<Exception>)
    returns (r: Result<ItemResponse>)
    requires db.Valid()
    modifies db
    ensures db.Valid()
    ensures var entry := Entry(old(db.t), "CREATE_ITEM", auth, Some(ItemArguments(1)), request, now);
            var (t1, answer) := CreateOutcome(old(db.t), req);
            db.t == t1.(auditLogs := t1.auditLogs + Completion(entry, answer, now, rejects).0) &&
            r == Completion(entry, answer, now, rejects).1
  {
    var log := Begin(db.t, "CREATE_ITEM", auth, Some(ItemArguments(1)), request, now);
    var answer := Create(db, req);
    r := Complete(db, log, answer, now, rejects);
  }

  method AuditedUpdate(db: Database, id: Id, req: ItemRequest, auth: Option<Authentication>, request: HttpRequest,
                       now: Instant, rejects: AuditRecord -> Option<Exception>)
    returns (r: Result<ItemResponse>)
    requires db.Valid()
    modifies db
    ensures db.Valid()
    ensures var entry := Entry(old(db.t), "UPDATE_ITEM", auth, Some(ItemArguments(2)), request, now);
            var (t1, answer) := UpdateOutcome(old(db.t), id, req);
            db.t == t1.(auditLogs := t1.auditLogs + Completion(entry, answer, now, rejects).0) &&
            r == Completion(entry, answer, now, rejects).1
  {
    var log := Begin(db.t, "UPDATE_ITEM", auth, Some(ItemArguments(2)), request, now);
    var answer := Update(db, id, req);
    r := Complete(db, log, answer, now, rejects);
  }

  method AuditedDelete(db: Database, id: Id, auth: Option<Authentication>, request: HttpRequest,
                       now: Instant, rejects: AuditRecord -> Option<Exception>)
    returns (r: Result<()>)
    requires db.Valid()
    modifies db
    ensures db.Valid()
    ensures var entry := Entry(old(db.t), "DELETE_ITEM", auth, Some(ItemArguments(1)), request, now);
            var (t1, answer) := DeleteOutcome(old(db.t), id, now);
            db.t == t1.(auditLogs := t1.auditLogs + Completion(entry, AsResult(answer), now, rejects).0) &&
            r == Completion(entry, AsResult(answer), now, rejects).1
  {
    var log := Begin(db.t, "DELETE_ITEM", auth, Some(ItemArguments(1)), request, now);
    var answer := Delete(db, id, now);
    r := Complete(db, log, AsResult(answer), now, rejects);
  }

  method AuditedHardDelete(db: Database, id: Id, auth: Option<Authentication>, request: HttpRequest,
                           now: Instant, rejects: AuditRecord -> Option<Exception>)
    returns (r: Result<()>)
    requires db.Valid()
    modifies db
    ensures db.Valid()
    ensures var entry := Entry(old(db.t), "HARD_DELETE_ITEM", auth, Some(ItemArguments(1)), request, now);
            var (t1, answer) := HardDeleteOutcome(old(db.t), id);
            db.t == t1.(auditLogs := t1.auditLogs + Completion(entry, AsResult(answer), now, rejects).0) &&
            r == Completion(entry, AsResult(answer), now, rejects).1
  {
    var log := Begin(db.t, "HARD_DELETE_ITEM", auth, Some(ItemArguments(1)), request, now);
    var answer := HardDelete(db, id);
    r := Complete(db, log, AsResult(answer), now, rejects);
  }
}
