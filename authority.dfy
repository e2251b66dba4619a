/** How a user's roles, permission codes and granted authorities are derived
    from the user-to-role and role-to-permission association rows.

    `userRoleRepository.findByUser(user)` yields the user's association rows;
    mapping them to their roles and collecting into a set gives the granted
    roles. `rolePermissionRepository.findByRoleIn(roles)` yields every
    role-to-permission row whose role is granted, and mapping those to their
    permission codes and collecting into a set gives the permission codes.
    The association rows are read unfiltered, but the role or permission a
    row names is loaded lazily through the `@Where`-filtered loader: a row
    naming a soft-deleted or removed role or permission makes the read throw
    `EntityNotFoundException` (`RolesResolve`, `PermissionsResolve`). The
    folds below give what is read when every reference resolves. */
module Authority {
  import opened Common
  import opened Entities

  // ---------------------------------------------------------------------
  // Specification functions (the stream pipelines, folded from the front)

  /** The ids of the roles granted to `user` by the rows `edges`. */
  function GrantedRoleIds(edges: seq<UserRole>, roles: map<Id, Role>, user: Id): (r: set<Id>)
    ensures r <= roles.Keys
  {
    if edges == [] then {}
    else
      var rest := GrantedRoleIds(edges[1..], roles, user);
      if edges[0].userId == user && edges[0].roleId in roles then {edges[0].roleId} + rest else rest
  }

  /** The codes of the permissions that the rows `links` attach to a role in `roleIds`. */
  function PermissionCodes(links: seq<RolePermission>, permissions: map<Id, Permission>, roleIds: set<Id>): set<string>
  {
    if links == [] then {}
    else
      var rest := PermissionCodes(links[1..], permissions, roleIds);
      if links[0].roleId in roleIds && links[0].permissionId in permissions
      then {permissions[links[0].permissionId].code} + rest
      else rest
  }

  /** The codes of the roles `ids`. */
  function RoleCodes(roles: map<Id, Role>, ids: set<Id>): set<string> {
    set id | id in ids && id in roles :: roles[id].code
  }

  /** One `ROLE_`-prefixed authority per role code, plus every permission
      code as an authority of its own, all in one set of strings. */
  function Authorities(roleCodes: set<string>, permissionCodes: set<string>): set<string> {
    (set c | c in roleCodes :: "ROLE_" + c) + permissionCodes
  }

  function UserRoleIds(t: Tables, user: Id): set<Id> {
    GrantedRoleIds(t.userRoles, t.roles, user)
  }

  function UserRoleCodes(t: Tables, user: Id): set<string> {
    RoleCodes(t.roles, UserRoleIds(t, user))
  }

  function UserPermissionCodes(t: Tables, user: Id): set<string> {
    PermissionCodes(t.rolePermissions, t.permissions, UserRoleIds(t, user))
  }

  function UserAuthorities(t: Tables, user: Id): set<string> {
    Authorities(UserRoleCodes(t, user), UserPermissionCodes(t, user))
  }

  // ---------------------------------------------------------------------
  // Following the lazy references

  /** What a lazy `getRole()` or `getPermission()` reference throws when
      the row it names is soft-deleted (the filtered loader does not see it)
      or no longer stored. */
  const MissingRole := EntityNotFound("Unable to find Role")
  const MissingPermission := EntityNotFound("Unable to find Permission")

  /** The roles that the user's association rows name, found or not. */
  function RowRoleIds(t: Tables, user: Id): set<Id> {
    set e | e in t.userRoles && e.userId == user :: e.roleId
  }

  /** Every role the user's rows name is stored and not deleted. */
  predicate RolesResolve(t: Tables, user: Id) {
    forall e | e in t.userRoles && e.userId == user :: e.roleId in t.roles && t.roles[e.roleId].Visible()
  }

  /** Every role-to-permission row of a role the user's rows name points to
      a stored permission that is not deleted. */
  predicate PermissionsResolve(t: Tables, user: Id) {
    forall l | l in t.rolePermissions && l.roleId in RowRoleIds(t, user) ::
      l.permissionId in t.permissions && t.permissions[l.permissionId].Visible()
  }

  /** When every role reference resolves, the granted roles are exactly the
      roles the rows name. */
  lemma ResolvedRoleIds(t: Tables, user: Id)
    requires RolesResolve(t, user)
    ensures UserRoleIds(t, user) == RowRoleIds(t, user)
  {
    forall rid
      ensures rid in UserRoleIds(t, user) <==> rid in RowRoleIds(t, user)
    {
      GrantedRoleIdsMembership(t.userRoles, t.roles, user, rid);
      if rid in RowRoleIds(t, user) {
        var e :| e in t.userRoles && e.userId == user && e.roleId == rid;
        assert e == UserRole(user, rid);
      }
    }
  }

  /** A row naming a soft-deleted role breaks the read, and so does a
      granted role's row naming a soft-deleted permission. */
  lemma SoftDeletedTargetUnresolved(t: Tables, user: Id, role: Id, permission: Id)
    requires UserRole(user, role) in t.userRoles
    ensures role in t.roles && !t.roles[role].Visible() ==> !RolesResolve(t, user)
    ensures (RolePermission(role, permission) in t.rolePermissions &&
             permission in t.permissions && !t.permissions[permission].Visible()) ==> !PermissionsResolve(t, user)
  {
    assert role in RowRoleIds(t, user);
  }

  // ---------------------------------------------------------------------
  // What the folds compute

  /** A role is granted exactly when a row links the user to it and the role is stored. */
  lemma {:induction false} GrantedRoleIdsMembership(edges: seq<UserRole>, roles: map<Id, Role>, user: Id, id: Id)
    ensures id in GrantedRoleIds(edges, roles, user) <==> id in roles && UserRole(user, id) in edges
  {
    if edges != [] {
      GrantedRoleIdsMembership(edges[1..], roles, user, id);
      assert edges == [edges[0]] + edges[1..];
    }
  }

  /** A code is collected exactly when some row links a role of `roleIds` to
      a stored permission with that code. */
  lemma {:induction false} PermissionCodesMembership(
    links: seq<RolePermission>, permissions: map<Id, Permission>, roleIds: set<Id>, c: string)
    ensures c in PermissionCodes(links, permissions, roleIds) <==>
            exists l :: l in links && l.roleId in roleIds && l.permissionId in permissions &&
                        permissions[l.permissionId].code == c
  {
    if links != [] {
      PermissionCodesMembership(links[1..], permissions, roleIds, c);
      assert links == [links[0]] + links[1..];
      assert forall l :: l in links <==> l == links[0] || l in links[1..];
    }
  }

  /** More roles never give fewer permission codes. */
  lemma {:induction false} PermissionCodesMonotone(
    links: seq<RolePermission>, permissions: map<Id, Permission>, fewer: set<Id>, more: set<Id>)
    requires fewer <= more
    ensures PermissionCodes(links, permissions, fewer) <= PermissionCodes(links, permissions, more)
  {
    if links != [] {
      PermissionCodesMonotone(links[1..], permissions, fewer, more);
    }
  }

  /** The user's roles, in terms of the stored rows. */
  lemma UserRoleCodesMembership(t: Tables, user: Id, c: string)
    ensures c in UserRoleCodes(t, user) <==>
            exists rid :: rid in t.roles && UserRole(user, rid) in t.userRoles && t.roles[rid].code == c
  {
    forall rid {
      GrantedRoleIdsMembership(t.userRoles, t.roles, user, rid);
    }
  }

  /** Every permission code the user holds comes from a row whose role is
      granted to the user, and every such row contributes its code. */
  lemma UserPermissionCodesMembership(t: Tables, user: Id, c: string)
    ensures c in UserPermissionCodes(t, user) <==>
            exists l :: l in t.rolePermissions && l.permissionId in t.permissions &&
                        l.roleId in t.roles && UserRole(user, l.roleId) in t.userRoles &&
                        t.permissions[l.permissionId].code == c
  {
    PermissionCodesMembership(t.rolePermissions, t.permissions, UserRoleIds(t, user), c);
    forall rid {
      GrantedRoleIdsMembership(t.userRoles, t.roles, user, rid);
    }
  }

  /** An authority is either `ROLE_` followed by the code of a role that a
      row grants to the user, or the code of a permission that a row attaches
      to such a role; nothing else is an authority. */
  lemma AuthorityMembership(t: Tables, user: Id, a: string)
    ensures a in UserAuthorities(t, user) <==>
            (exists rid :: rid in t.roles && UserRole(user, rid) in t.userRoles && a == "ROLE_" + t.roles[rid].code) ||
            (exists l :: l in t.rolePermissions && l.permissionId in t.permissions &&
                         l.roleId in t.roles && UserRole(user, l.roleId) in t.userRoles &&
                         t.permissions[l.permissionId].code == a)
  {
    forall rid {
      GrantedRoleIdsMembership(t.userRoles, t.roles, user, rid);
    }
    UserPermissionCodesMembership(t, user, a);
  }

  // ---------------------------------------------------------------------
  // Set semantics

  /** Only which rows exist matters: their order and how often each occurs
      do not change the roles, the permission codes or the authorities. */
  lemma SameRowsSameGrants(t1: Tables, t2: Tables, user: Id)
    requires t1.roles == t2.roles && t1.permissions == t2.permissions
    requires forall e :: e in t1.userRoles <==> e in t2.userRoles
    requires forall l :: l in t1.rolePermissions <==> l in t2.rolePermissions
    ensures UserRoleIds(t1, user) == UserRoleIds(t2, user)
    ensures UserRoleCodes(t1, user) == UserRoleCodes(t2, user)
    ensures UserPermissionCodes(t1, user) == UserPermissionCodes(t2, user)
    ensures UserAuthorities(t1, user) == UserAuthorities(t2, user)
  {
    forall rid
      ensures rid in UserRoleIds(t1, user) <==> rid in UserRoleIds(t2, user)
    {
      GrantedRoleIdsMembership(t1.userRoles, t1.roles, user, rid);
      GrantedRoleIdsMembership(t2.userRoles, t2.roles, user, rid);
    }
    forall c
      ensures c in UserPermissionCodes(t1, user) <==> c in UserPermissionCodes(t2, user)
    {
      PermissionCodesMembership(t1.rolePermissions, t1.permissions, UserRoleIds(t1, user), c);
      PermissionCodesMembership(t2.rolePermissions, t2.permissions, UserRoleIds(t2, user), c);
    }
  }

  /** Rows stored in another order give the same grants. */
  lemma ReorderedRowsSameGrants(t: Tables, userRoles: seq<UserRole>, rolePermissions: seq<RolePermission>, user: Id)
    requires multiset(userRoles) == multiset(t.userRoles)
    requires multiset(rolePermissions) == multiset(t.rolePermissions)
    ensures UserAuthorities(t.(userRoles := userRoles, rolePermissions := rolePermissions), user) == UserAuthorities(t, user)
    ensures UserRoleCodes(t.(userRoles := userRoles, rolePermissions := rolePermissions), user) == UserRoleCodes(t, user)
    ensures UserPermissionCodes(t.(userRoles := userRoles, rolePermissions := rolePermissions), user) == UserPermissionCodes(t, user)
  {
    var t' := t.(userRoles := userRoles, rolePermissions := rolePermissions);
    assert forall e :: e in userRoles <==> e in multiset(userRoles);
    assert forall e :: e in t.userRoles <==> e in multiset(t.userRoles);
    assert forall l :: l in rolePermissions <==> l in multiset(rolePermissions);
    assert forall l :: l in t.rolePermissions <==> l in multiset(t.rolePermissions);
    SameRowsSameGrants(t', t, user);
  }

  /** Every association row stored twice gives the same grants as stored once. */
  lemma DuplicatedRowsSameGrants(t: Tables, user: Id)
    ensures UserAuthorities(t.(userRoles := t.userRoles + t.userRoles,
                               rolePermissions := t.rolePermissions + t.rolePermissions), user)
            == UserAuthorities(t, user)
  {
    SameRowsSameGrants(t.(userRoles := t.userRoles + t.userRoles,
                          rolePermissions := t.rolePermissions + t.rolePermissions), t, user);
  }

  /** Granting one more role never takes an authority away. */
  lemma AddingRoleRowMonotone(t: Tables, user: Id, e: UserRole)
    ensures UserRoleIds(t, user) <= UserRoleIds(t.(userRoles := t.userRoles + [e]), user)
    ensures UserRoleCodes(t, user) <= UserRoleCodes(t.(userRoles := t.userRoles + [e]), user)
    ensures UserPermissionCodes(t, user) <= UserPermissionCodes(t.(userRoles := t.userRoles + [e]), user)
    ensures UserAuthorities(t, user) <= UserAuthorities(t.(userRoles := t.userRoles + [e]), user)
  {
    var t' := t.(userRoles := t.userRoles + [e]);
    forall rid | rid in UserRoleIds(t, user)
      ensures rid in UserRoleIds(t', user)
    {
      GrantedRoleIdsMembership(t.userRoles, t.roles, user, rid);
      GrantedRoleIdsMembership(t'.userRoles, t.roles, user, rid);
    }
    PermissionCodesMonotone(t.rolePermissions, t.permissions, UserRoleIds(t, user), UserRoleIds(t', user));
  }

  /** A user without association rows holds no role, no permission and no authority. */
  lemma NoRoleRowsNoAuthorities(t: Tables, user: Id)
    requires forall e :: e in t.userRoles ==> e.userId != user
    ensures UserRoleIds(t, user) == {}
    ensures UserRoleCodes(t, user) == {} && UserPermissionCodes(t, user) == {}
    ensures UserAuthorities(t, user) == {}
  {
    forall rid
      ensures rid !in UserRoleIds(t, user)
    {
      GrantedRoleIdsMembership(t.userRoles, t.roles, user, rid);
    }
    assert UserRoleIds(t, user) == {};
    forall c
      ensures c !in UserPermissionCodes(t, user)
    {
      PermissionCodesMembership(t.rolePermissions, t.permissions, {}, c);
    }
  }

  /** A user stored under the identity `t.nextId` (which no earlier row can
      name) and given one association row holds exactly that role. */
  lemma FreshUserSingleRole(t: Tables, t': Tables, role: Id)
    requires Consistent(t) && role in t.roles
    requires t'.roles == t.roles && t'.userRoles == t.userRoles + [UserRole(t.nextId, role)]
    ensures UserRoleIds(t', t.nextId) == {role}
    ensures UserRoleCodes(t', t.nextId) == {t.roles[role].code}
    ensures RolesResolve(t', t.nextId) <==> t.roles[role].Visible()
  {
    var id := t.nextId;
    forall rid
      ensures rid in UserRoleIds(t', id) <==> rid == role
    {
      GrantedRoleIdsMembership(t'.userRoles, t'.roles, id, rid);
      if UserRole(id, rid) in t'.userRoles {
        assert UserRole(id, rid) !in t.userRoles;
      }
    }
  }
}
