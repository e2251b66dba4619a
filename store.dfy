/** The database the services share, with the repository operations that
    change it. An insert or an update that would repeat a value of a unique
    column, in any row, deleted or not, is refused with a
    `DataIntegrityViolation` and leaves every table as it was. */
module Store {
  import opened Common
  import opened Entities

  class Database {
    var t: Tables

    ghost predicate Valid()
      reads this
    {
      Consistent(t)
    }

    constructor ()
      ensures Valid() && t == EmptyTables()
    {
      t := EmptyTables();
    }

    // -------------------------------------------------------------------
    // Inserts (`save` of a new entity): the row gets the next identity.

    method InsertUser(u: UserAccount) returns (r: Result<Id>)
      requires Valid()
      modifies this
      ensures Valid()
      ensures UsernameStored(old(t.users), u.username) || EmailStored(old(t.users), u.email) ==>
                r == Failure(DataIntegrityViolation("user_accounts")) && t == old(t)
      ensures !UsernameStored(old(t.users), u.username) && !EmailStored(old(t.users), u.email) ==>
                r == Success(old(t.nextId)) &&
                t == old(t).(users := old(t.users)[old(t.nextId) := u], nextId := old(t.nextId) + 1)
    {
      if UsernameStored(t.users, u.username) || EmailStored(t.users, u.email) {
        return Failure(DataIntegrityViolation("user_accounts"));
      }
      var id := t.nextId;
      t := t.(users := t.users[id := u], nextId := id + 1);
      r := Success(id);
    }

    method InsertRole(role: Role) returns (r: Result<Id>)
      requires Valid()
      modifies this
      ensures Valid()
      ensures RoleCodeStored(old(t.roles), role.code) ==>
                r == Failure(DataIntegrityViolation("roles.code")) && t == old(t)
      ensures !RoleCodeStored(old(t.roles), role.code) ==>
                r == Success(old(t.nextId)) &&
                t == old(t).(roles := old(t.roles)[old(t.nextId) := role], nextId := old(t.nextId) + 1)
    {
      if RoleCodeStored(t.roles, role.code) {
        return Failure(DataIntegrityViolation("roles.code"));
      }
      var id := t.nextId;
      t := t.(roles := t.roles[id := role], nextId := id + 1);
      r := Success(id);
    }

    method InsertPermission(p: Permission) returns (r: Result<Id>)
      requires Valid()
      modifies this
      ensures Valid()
      ensures PermissionCodeStored(old(t.permissions), p.code) ==>
                r == Failure(DataIntegrityViolation("permissions.code")) && t == old(t)
      ensures !PermissionCodeStored(old(t.permissions), p.code) ==>
                r == Success(old(t.nextId)) &&
                t == old(t).(permissions := old(t.permissions)[old(t.nextId) := p], nextId := old(t.nextId) + 1)
    {
      if PermissionCodeStored(t.permissions, p.code) {
        return Failure(DataIntegrityViolation("permissions.code"));
      }
      var id := t.nextId;
      t := t.(permissions := t.permissions[id := p], nextId := id + 1);
      r := Success(id);
    }

    method InsertItem(item: Item) returns (r: Result<Id>)
      requires Valid()
      modifies this
      ensures Valid()
      ensures ItemCodeStored(old(t.items), item.code) ==>
                r == Failure(DataIntegrityViolation("items.code")) && t == old(t)
      ensures !ItemCodeStored(old(t.items), item.code) ==>
                r == Success(old(t.nextId)) &&
                t == old(t).(items := old(t.items)[old(t.nextId) := item], nextId := old(t.nextId) + 1)
    {
      if ItemCodeStored(t.items, item.code) {
        return Failure(DataIntegrityViolation("items.code"));
      }
      var id := t.nextId;
      t := t.(items := t.items[id := item], nextId := id + 1);
      r := Success(id);
    }

    // -------------------------------------------------------------------
    // Updates (`save` of a managed entity whose fields were set)

    method UpdateRole(id: Id, role: Role) returns (r: Outcome)
      requires Valid() && id in t.roles
      modifies this
      ensures Valid()
      ensures RoleCodeStored(old(t.roles) - {id}, role.code) ==>
                r == Fail(DataIntegrityViolation("roles.code")) && t == old(t)
      ensures !RoleCodeStored(old(t.roles) - {id}, role.code) ==>
                r == Pass && t == old(t).(roles := old(t.roles)[id := role])
    {
      if RoleCodeStored(t.roles - {id}, role.code) {
        return Fail(DataIntegrityViolation("roles.code"));
      }
      RoleRewriteConsistent(t, id, role);
      t := t.(roles := t.roles[id := role]);
      r := Pass;
    }

    method UpdatePermission(id: Id, p: Permission) returns (r: Outcome)
      requires Valid() && id in t.permissions
      modifies this
      ensures Valid()
      ensures PermissionCodeStored(old(t.permissions) - {id}, p.code) ==>
                r == Fail(DataIntegrityViolation("permissions.code")) && t == old(t)
      ensures !PermissionCodeStored(old(t.permissions) - {id}, p.code) ==>
                r == Pass && t == old(t).(permissions := old(t.permissions)[id := p])
    {
      if PermissionCodeStored(t.permissions - {id}, p.code) {
        return Fail(DataIntegrityViolation("permissions.code"));
      }
      PermissionRewriteConsistent(t, id, p);
      t := t.(permissions := t.permissions[id := p]);
      r := Pass;
    }

    method UpdateItem(id: Id, item: Item) returns (r: Outcome)
      requires Valid() && id in t.items
      modifies this
      ensures Valid()
      ensures ItemCodeStored(old(t.items) - {id}, item.code) ==>
                r == Fail(DataIntegrityViolation("items.code")) && t == old(t)
      ensures !ItemCodeStored(old(t.items) - {id}, item.code) ==>
                r == Pass && t == old(t).(items := old(t.items)[id := item])
    {
      if ItemCodeStored(t.items - {id}, item.code) {
        return Fail(DataIntegrityViolation("items.code"));
      }
      ItemRewriteConsistent(t, id, item);
      t := t.(items := t.items[id := item]);
      r := Pass;
    }

    // -------------------------------------------------------------------
    // Soft deletes (`delete`, rewritten to `UPDATE ... SET deleted_at = now`)

    method SoftDeleteRole(id: Id, now: Instant)
      requires Valid() && id in t.roles
      modifies this
      ensures Valid()
      ensures t == old(t).(roles := old(t.roles)[id := old(t.roles[id]).(deletedAt := Some(now))])
    {
      t := t.(roles := t.roles[id := t.roles[id].(deletedAt := Some(now))]);
    }

    method SoftDeletePermission(id: Id, now: Instant)
      requires Valid() && id in t.permissions
      modifies this
      ensures Valid()
      ensures t == old(t).(permissions := old(t.permissions)[id := old(t.permissions[id]).(deletedAt := Some(now))])
    {
      t := t.(permissions := t.permissions[id := t.permissions[id].(deletedAt := Some(now))]);
    }

    method SoftDeleteItem(id: Id, now: Instant)
      requires Valid() && id in t.items
      modifies this
      ensures Valid()
      ensures t == old(t).(items := old(t.items)[id := old(t.items[id]).(deletedAt := Some(now))])
    {
      t := t.(items := t.items[id := t.items[id].(deletedAt := Some(now))]);
    }

    // -------------------------------------------------------------------
    // Hard deletes (native `DELETE FROM ... WHERE id = ?`)

    method HardDeleteUser(id: Id)
      requires Valid()
      modifies this
      ensures Valid()
      ensures t == old(t).(users := old(t.users) - {id})
    {
      t := t.(users := t.users - {id});
    }

    method HardDeleteRole(id: Id)
      requires Valid()
      modifies this
      ensures Valid()
      ensures t == old(t).(roles := old(t.roles) - {id})
    {
      t := t.(roles := t.roles - {id});
    }

    method HardDeletePermission(id: Id)
      requires Valid()
      modifies this
      ensures Valid()
      ensures t == old(t).(permissions := old(t.permissions) - {id})
    {
      t := t.(permissions := t.permissions - {id});
    }

    method HardDeleteItem(id: Id)
      requires Valid()
      modifies this
      ensures Valid()
      ensures t == old(t).(items := old(t.items) - {id})
    {
      t := t.(items := t.items - {id});
    }

    // -------------------------------------------------------------------
    // Appends

    method AddUserRole(e: UserRole)
      requires Valid() && e.userId < t.nextId && e.roleId < t.nextId
      modifies this
      ensures Valid()
      ensures t == old(t).(userRoles := old(t.userRoles) + [e])
    {
      t := t.(userRoles := t.userRoles + [e]);
    }

    method AddRolePermission(e: RolePermission)
      requires Valid() && e.roleId < t.nextId && e.permissionId < t.nextId
      modifies this
      ensures Valid()
      ensures t == old(t).(rolePermissions := old(t.rolePermissions) + [e])
    {
      t := t.(rolePermissions := t.rolePermissions + [e]);
    }

    /** The token string comes from a random UUID, so no stored token has it. */
    method AddRefreshToken(rt: RefreshToken)
      requires Valid() && rt.userId < t.nextId
      requires forall old_rt :: old_rt in t.refreshTokens ==> old_rt.token != rt.token
      modifies this
      ensures Valid()
      ensures t == old(t).(refreshTokens := old(t.refreshTokens) + [rt])
    {
      t := t.(refreshTokens := t.refreshTokens + [rt]);
    }

    method AddAuditRecord(rec: AuditRecord)
      requires Valid()
      modifies this
      ensures Valid()
      ensures t == old(t).(auditLogs := old(t.auditLogs) + [rec])
    {
      t := t.(auditLogs := t.auditLogs + [rec]);
    }

    // -------------------------------------------------------------------
    // Transactions

    /** The rollback of a transaction that threw: every table returns to the
        snapshot taken when the transaction began. */
    method Rollback(snapshot: Tables)
      requires Consistent(snapshot)
      modifies this
      ensures Valid() && t == snapshot
    {
      t := snapshot;
    }
  }
}
