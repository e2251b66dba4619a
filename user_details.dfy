/** Loading a user for authentication: the account's credentials, its lock
    and enable flags, and its granted authorities. */
module CustomUserDetailsService {
  import opened Common
  import opened Entities
  import opened Authority

  /** What Spring Security's `User.withUsername(...)...build()` carries. */
  datatype UserDetails = UserDetails(
    username: string,
    password: string,
    authorities: set<string>,
    accountLocked: bool,
    disabled: bool)

  /** `loadUserByUsername`: a soft-deleted or unknown username is not found.
      Otherwise the permission codes of every row of a role the user's rows
      name are read first, then the authorities are built by two loops that
      add into one set, first `ROLE_` + the code of every role the rows
      name, then every permission code. A reference to a soft-deleted or
      removed permission or role throws when it is read. */
  method LoadUserByUsername(t: Tables, username: string) returns (r: Result<UserDetails>)
    requires UsernamesUnique(t.users)
    ensures FindUserByUsername(t.users, username).None? ==>
              r == Failure(UsernameNotFoundException("User not found: " + username))
    ensures FindUserByUsername(t.users, username).Some? ==>
              var id := FindUserByUsername(t.users, username).value;
              (!PermissionsResolve(t, id) ==> r == Failure(MissingPermission)) &&
              (PermissionsResolve(t, id) && !RolesResolve(t, id) ==> r == Failure(MissingRole))
    ensures FindUserByUsername(t.users, username).Some? ==>
              var id := FindUserByUsername(t.users, username).value;
              PermissionsResolve(t, id) && RolesResolve(t, id) ==>
              r.Success? &&
              r.value.username == t.users[id].username == username &&
              r.value.password == t.users[id].passwordHash &&
              r.value.authorities == UserAuthorities(t, id) &&
              r.value.accountLocked == t.users[id].locked &&
              r.value.disabled == !t.users[id].enabled
  {
    var found := FindUserByUsername(t.users, username);
    if found.None? {
      return Failure(UsernameNotFoundException("User not found: " + username));
    }
    var id := found.value;
    var user := t.users[id];
    var roles := RowRoleIds(t, id);
    if !PermissionsResolve(t, id) {
      return Failure(MissingPermission);
    }
    var permissionCodes := UserPermissionCodes(t, id);

    var authorities: set<string> := {};
    var pending := roles;
    while pending != {}
      invariant pending <= roles
      invariant forall rid | rid in roles - pending :: rid in t.roles && t.roles[rid].Visible()
      invariant authorities == set rid | rid in roles - pending && rid in t.roles :: "ROLE_" + t.roles[rid].code
      decreases pending
    {
      var rid :| rid in pending;
      if !(rid in t.roles && t.roles[rid].Visible()) {
        return Failure(MissingRole);
      }
      authorities := authorities + {"ROLE_" + t.roles[rid].code};
      pending := pending - {rid};
    }
    assert RolesResolve(t, id);
    ResolvedRoleIds(t, id);
    ghost var roleAuthorities := authorities;
    var codes := permissionCodes;
    while codes != {}
      invariant codes <= permissionCodes
      invariant authorities == roleAuthorities + (permissionCodes - codes)
      decreases codes
    {
      var code :| code in codes;
      authorities := authorities + {code};
      codes := codes - {code};
    }
    assert roleAuthorities == set c | c in UserRoleCodes(t, id) :: "ROLE_" + c;
    r := Success(UserDetails(user.username, user.passwordHash, authorities, user.locked, !user.enabled));
  }
}
