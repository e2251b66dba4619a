/** The persistent entities, the tables that hold them, the unique columns
    the schema declares, and the repository queries the services use.

    Users, roles, permissions and items are soft-deleted: a deleted row keeps
    its place in its table with `deletedAt` set, and every repository query
    (find by id, by code or by username, exists, count, find all) sees only
    the rows whose `deletedAt` is unset. The unique columns, however, are
    unique across ALL rows of their table, deleted or not. */
module Entities {
  import opened Common

  /** A row identity (a UUID in the database). */
  type Id = nat

  /** A point on the server clock, in seconds. */
  type Instant = int

  datatype UserAccount = UserAccount(
    username: string,
    email: Option<string>,
    passwordHash: string,
    enabled: bool,
    locked: bool,
    deletedAt: Option<Instant>)
  {
    predicate Visible() { deletedAt.None? }
  }

  datatype Role = Role(code: string, name: string, description: string, deletedAt: Option<Instant>)
  {
    predicate Visible() { deletedAt.None? }
  }

  datatype Permission = Permission(code: string, description: string, deletedAt: Option<Instant>)
  {
    predicate Visible() { deletedAt.None? }
  }

  /** `stockQty` is a nullable 32-bit `Integer`. */
  datatype Item = Item(code: string, name: string, description: string, stockQty: Option<Int32>, deletedAt: Option<Instant>)
  {
    predicate Visible() { deletedAt.None? }
  }

  /** The user-to-role association row. */
  datatype UserRole = UserRole(userId: Id, roleId: Id)

  /** The role-to-permission association row. */
  datatype RolePermission = RolePermission(roleId: Id, permissionId: Id)

  /** A long-lived opaque token bound to its owner. */
  datatype RefreshToken = RefreshToken(userId: Id, token: string, expiresAt: Instant, revoked: bool)

  /** One row of the audit trail. */
  datatype AuditRecord = AuditRecord(
    eventTime: Option<Instant>,
    username: string,
    user: Option<Id>,
    action: string,
    status: string,
    ipAddress: string,
    path: string,
    httpMethod: string,
    message: Option<string>)

  /** Every table of the database. Association rows, refresh tokens and
      audit records are kept in insertion order; `nextId` is the identity
      the next inserted row receives. */
  datatype Tables = Tables(
    users: map<Id, UserAccount>,
    roles: map<Id, Role>,
    permissions: map<Id, Permission>,
    items: map<Id, Item>,
    userRoles: seq<UserRole>,
    rolePermissions: seq<RolePermission>,
    refreshTokens: seq<RefreshToken>,
    auditLogs: seq<AuditRecord>,
    nextId: Id)

  function EmptyTables(): Tables {
    Tables(map[], map[], map[], map[], [], [], [], [], 0)
  }

  // ---------------------------------------------------------------------
  // Unique columns

  ghost predicate UsernamesUnique(users: map<Id, UserAccount>) {
    forall a, b :: a in users && b in users && users[a].username == users[b].username ==> a == b
  }

  /** `email` is unique, but any number of rows may leave it null. */
  ghost predicate EmailsUnique(users: map<Id, UserAccount>) {
    forall a, b :: a in users && b in users && users[a].email.Some? && users[a].email == users[b].email ==> a == b
  }

  ghost predicate RoleCodesUnique(roles: map<Id, Role>) {
    forall a, b :: a in roles && b in roles && roles[a].code == roles[b].code ==> a == b
  }

  ghost predicate PermissionCodesUnique(permissions: map<Id, Permission>) {
    forall a, b :: a in permissions && b in permissions && permissions[a].code == permissions[b].code ==> a == b
  }

  ghost predicate ItemCodesUnique(items: map<Id, Item>) {
    forall a, b :: a in items && b in items && items[a].code == items[b].code ==> a == b
  }

  ghost predicate TokensUnique(ledger: seq<RefreshToken>) {
    forall i, j :: 0 <= i < j < |ledger| ==> ledger[i].token != ledger[j].token
  }

  /** Every identity in use is below `nextId`. */
  ghost predicate IdsBelow(t: Tables) {
    && (forall id :: id in t.users ==> id < t.nextId)
    && (forall id :: id in t.roles ==> id < t.nextId)
    && (forall id :: id in t.permissions ==> id < t.nextId)
    && (forall id :: id in t.items ==> id < t.nextId)
  }

  /** Every reference an association row, a refresh token or an audit entry
      holds is an identity that has been handed out. */
  ghost predicate ReferencesBelow(t: Tables) {
    && (forall e :: e in t.userRoles ==> e.userId < t.nextId && e.roleId < t.nextId)
    && (forall l :: l in t.rolePermissions ==> l.roleId < t.nextId && l.permissionId < t.nextId)
    && (forall rt :: rt in t.refreshTokens ==> rt.userId < t.nextId)
  }

  /** What the schema guarantees of every committed state. */
  ghost predicate Consistent(t: Tables) {
    && UsernamesUnique(t.users)
    && EmailsUnique(t.users)
    && RoleCodesUnique(t.roles)
    && PermissionCodesUnique(t.permissions)
    && ItemCodesUnique(t.items)
    && TokensUnique(t.refreshTokens)
    && IdsBelow(t)
    && ReferencesBelow(t)
  }

  // ---------------------------------------------------------------------
  // Column look-ups over all rows (what a unique index sees)

  predicate UsernameStored(users: map<Id, UserAccount>, name: string) {
    exists id :: id in users && users[id].username == name
  }

  predicate EmailStored(users: map<Id, UserAccount>, email: Option<string>) {
    email.Some? && exists id :: id in users && users[id].email == email
  }

  predicate RoleCodeStored(roles: map<Id, Role>, code: string) {
    exists id :: id in roles && roles[id].code == code
  }

  predicate PermissionCodeStored(permissions: map<Id, Permission>, code: string) {
    exists id :: id in permissions && permissions[id].code == code
  }

  predicate ItemCodeStored(items: map<Id, Item>, code: string) {
    exists id :: id in items && items[id].code == code
  }

  // ---------------------------------------------------------------------
  // Repository queries (non-deleted rows only)

  /** `findByUsernameAndDeletedAtIsNull`, `findByUsername` */
  function FindUserByUsername(users: map<Id, UserAccount>, name: string): (r: Option<Id>)
    requires UsernamesUnique(users)
    ensures r.Some? ==> r.value in users && users[r.value].username == name && users[r.value].Visible()
    ensures r.None? ==> forall id :: id in users && users[id].username == name ==> !users[id].Visible()
  {
    if exists id :: id in users && users[id].username == name && users[id].Visible() then
      var id :| id in users && users[id].username == name && users[id].Visible();
      Some(id)
    else
      None
  }

  /** `existsByUsername` */
  predicate UsernameExists(users: map<Id, UserAccount>, name: string) {
    exists id :: id in users && users[id].username == name && users[id].Visible()
  }

  /** `RoleRepository.findByCode` */
  function FindRoleByCode(roles: map<Id, Role>, code: string): (r: Option<Id>)
    requires RoleCodesUnique(roles)
    ensures r.Some? ==> r.value in roles && roles[r.value].code == code && roles[r.value].Visible()
    ensures r.None? ==> forall id :: id in roles && roles[id].code == code ==> !roles[id].Visible()
  {
    if exists id :: id in roles && roles[id].code == code && roles[id].Visible() then
      var id :| id in roles && roles[id].code == code && roles[id].Visible();
      Some(id)
    else
      None
  }

  /** `PermissionRepository.findByCode` */
  function FindPermissionByCode(permissions: map<Id, Permission>, code: string): (r: Option<Id>)
    requires PermissionCodesUnique(permissions)
    ensures r.Some? ==> r.value in permissions && permissions[r.value].code == code && permissions[r.value].Visible()
    ensures r.None? ==> forall id :: id in permissions && permissions[id].code == code ==> !permissions[id].Visible()
  {
    if exists id :: id in permissions && permissions[id].code == code && permissions[id].Visible() then
      var id :| id in permissions && permissions[id].code == code && permissions[id].Visible();
      Some(id)
    else
      None
  }

  /** `ItemRepository.existsByCode` */
  predicate ItemCodeExists(items: map<Id, Item>, code: string) {
    exists id :: id in items && items[id].code == code && items[id].Visible()
  }

  /** `ItemRepository.count()` */
  function VisibleItemCount(items: map<Id, Item>): nat {
    |set id | id in items && items[id].Visible()|
  }

  // ---------------------------------------------------------------------
  // Rewriting one row in place

  /** Rewriting a role whose new code no other row holds keeps the schema. */
  lemma RoleRewriteConsistent(t: Tables, id: Id, role: Role)
    requires Consistent(t) && id in t.roles && !RoleCodeStored(t.roles - {id}, role.code)
    ensures Consistent(t.(roles := t.roles[id := role]))
  {
    forall b | b in t.roles && b != id
      ensures t.roles[b].code != role.code
    {
      assert b in t.roles - {id};
    }
  }

  /** Rewriting a permission whose new code no other row holds keeps the schema. */
  lemma PermissionRewriteConsistent(t: Tables, id: Id, p: Permission)
    requires Consistent(t) && id in t.permissions && !PermissionCodeStored(t.permissions - {id}, p.code)
    ensures Consistent(t.(permissions := t.permissions[id := p]))
  {
    forall b | b in t.permissions && b != id
      ensures t.permissions[b].code != p.code
    {
      assert b in t.permissions - {id};
    }
  }

  /** Rewriting an item whose new code no other row holds keeps the schema. */
  lemma ItemRewriteConsistent(t: Tables, id: Id, item: Item)
    requires Consistent(t) && id in t.items && !ItemCodeStored(t.items - {id}, item.code)
    ensures Consistent(t.(items := t.items[id := item]))
  {
    forall b | b in t.items && b != id
      ensures t.items[b].code != item.code
    {
      assert b in t.items - {id};
    }
  }

  /** Appending role-to-permission rows that name handed-out identities keeps the schema. */
  lemma AppendRolePermissionsConsistent(t: Tables, added: seq<RolePermission>)
    requires Consistent(t)
    requires forall l :: l in added ==> l.roleId < t.nextId && l.permissionId < t.nextId
    ensures Consistent(t.(rolePermissions := t.rolePermissions + added))
  {
    forall l | l in t.rolePermissions + added
      ensures l.roleId < t.nextId && l.permissionId < t.nextId
    {
      assert l in t.rolePermissions || l in added;
    }
  }
}
