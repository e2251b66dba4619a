/** The start-up seeding: the ADMIN and USER roles, the 21 permissions, the
    links that grant ADMIN every permission and USER the read permissions,
    the "admin" account and three sample items. Everything runs in one
    transaction: if any save throws, no table keeps any of the run's rows. */
module DataInitializer {
  import opened Common
  import opened Entities
  import opened Store
  import opened JavaText
  import Authority

  const AdminRoleCode: string := "ADMIN"
  const UserRoleCode: string := "USER"

  const UserGroup: seq<string> := ["USER_CREATE", "USER_READ", "USER_UPDATE", "USER_DELETE", "USER_HARD_DELETE"]
  const RoleGroup: seq<string> := ["ROLE_CREATE", "ROLE_READ", "ROLE_UPDATE", "ROLE_DELETE", "ROLE_HARD_DELETE"]
  const PermissionGroup: seq<string> :=
    ["PERMISSION_CREATE", "PERMISSION_READ", "PERMISSION_UPDATE", "PERMISSION_DELETE", "PERMISSION_HARD_DELETE"]
  const ItemGroup: seq<string> := ["ITEM_CREATE", "ITEM_READ", "ITEM_UPDATE", "ITEM_DELETE", "ITEM_HARD_DELETE"]
  const AuditGroup: seq<string> := ["AUDIT_LOG_READ"]

  /** The permission codes, in the order they are seeded. */
  const SeededCodes: seq<string> := UserGroup + RoleGroup + PermissionGroup + ItemGroup + AuditGroup

  const ReadSuffix: string := "_READ"

  const AdminUsername: string := "admin"
  const AdminEmail: string := "admin@example.com"
  const AdminPassword: string := "admin123"

  // ---------------------------------------------------------------------
  // seedRoles

  /** Find-or-create of one role by code: a non-deleted role with the code
      is kept as it is; otherwise a role is saved, which the unique column
      refuses when a deleted role still holds the code. */
  function EnsureRoleOutcome(t: Tables, code: string, name: string, description: string): (r: (Tables, Outcome))
    requires Consistent(t)
    ensures Consistent(r.0)
    ensures FindRoleByCode(t.roles, code).Some? ==> r == (t, Pass)
    ensures r.1.Fail? <==> FindRoleByCode(t.roles, code).None? && RoleCodeStored(t.roles, code)
    ensures r.1.Fail? ==> r.0 == t && r.1.error == DataIntegrityViolation("roles.code")
    ensures r.1.Pass? ==> FindRoleByCode(r.0.roles, code).Some?
    ensures r.1.Pass? && FindRoleByCode(t.roles, code).None? ==>
              r.0 == t.(roles := t.roles[t.nextId := Role(code, name, description, None)], nextId := t.nextId + 1)
    ensures t.roles.Keys <= r.0.roles.Keys && forall k :: k in t.roles ==> r.0.roles[k] == t.roles[k]
  {
    if FindRoleByCode(t.roles, code).Some? then (t, Pass)
    else if RoleCodeStored(t.roles, code) then (t, Fail(DataIntegrityViolation("roles.code")))
    else
      var t' := t.(roles := t.roles[t.nextId := Role(code, name, description, None)], nextId := t.nextId + 1);
      assert t'.roles[t.nextId].code == code;
      (t', Pass)
  }

  method EnsureRole(db: Database, code: string, name: string, description: string) returns (r: Outcome)
    requires db.Valid()
    modifies db
    ensures db.Valid()
    ensures (db.t, r) == EnsureRoleOutcome(old(db.t), code, name, description)
  {
    if FindRoleByCode(db.t.roles, code).Some? {
      return Pass;
    }
    var saved := db.InsertRole(Role(code, name, description, None));
    if saved.Failure? {
      return Fail(saved.error);
    }
    r := Pass;
  }

  /** `seedRoles`: ADMIN, then USER. */
  function SeedRolesOutcome(t: Tables): (r: (Tables, Outcome))
    requires Consistent(t)
    ensures Consistent(r.0)
    ensures r.1.Fail? ==> r.1.error == DataIntegrityViolation("roles.code")
    ensures r.1.Pass? ==> FindRoleByCode(r.0.roles, AdminRoleCode).Some? && FindRoleByCode(r.0.roles, UserRoleCode).Some?
    ensures FindRoleByCode(t.roles, AdminRoleCode).Some? && FindRoleByCode(t.roles, UserRoleCode).Some? ==> r == (t, Pass)
    ensures r.0 == t.(roles := r.0.roles, nextId := r.0.nextId)
    ensures t.roles.Keys <= r.0.roles.Keys && forall k :: k in t.roles ==> r.0.roles[k] == t.roles[k]
    ensures forall k :: k in r.0.roles && k !in t.roles ==> r.0.roles[k].code in {AdminRoleCode, UserRoleCode}
  {
    var (t1, admin) := EnsureRoleOutcome(t, AdminRoleCode, "Administrator", "Full access administrator");
    if admin.Fail? then (t1, admin)
    else
      var (t2, user) := EnsureRoleOutcome(t1, UserRoleCode, "Standard User", "Read-only / limited access user");
      assert t2.roles[FindRoleByCode(t1.roles, AdminRoleCode).value].code == AdminRoleCode;
      (t2, user)
  }

  method SeedRoles(db: Database) returns (r: Outcome)
    requires db.Valid()
    modifies db
    ensures db.Valid()
    ensures (db.t, r) == SeedRolesOutcome(old(db.t))
  {
    r := EnsureRole(db, AdminRoleCode, "Administrator", "Full access administrator");
    if r.Fail? {
      return;
    }
    r := EnsureRole(db, UserRoleCode, "Standard User", "Read-only / limited access user");
  }

  // ---------------------------------------------------------------------
  // seedPermissions

  /** The description a seeded permission gets: its code with every
      underscore replaced by a space. */
  function SeededDescription(code: string): (r: string)
    ensures |r| == |code| && '_' !in r
    ensures forall i :: 0 <= i < |code| && code[i] != '_' ==> r[i] == code[i]
  {
    ReplaceChar(code, '_', ' ')
  }

  /** Find-or-create of one permission by code, answering its identity. */
  function EnsurePermissionOutcome(t: Tables, code: string): (r: (Tables, Result<Id>))
    requires Consistent(t)
    ensures Consistent(r.0)
    ensures FindPermissionByCode(t.permissions, code).Some? ==> r == (t, Success(FindPermissionByCode(t.permissions, code).value))
    ensures r.1.Failure? <==> FindPermissionByCode(t.permissions, code).None? && PermissionCodeStored(t.permissions, code)
    ensures r.1.Failure? ==> r.0 == t && r.1.error == DataIntegrityViolation("permissions.code")
    ensures r.1.Success? ==> FindPermissionByCode(r.0.permissions, code) == Some(r.1.value)
    ensures r.1.Success? && FindPermissionByCode(t.permissions, code).None? ==>
              r.1.value == t.nextId &&
              r.0 == t.(permissions := t.permissions[t.nextId := Permission(code, SeededDescription(code), None)],
                        nextId := t.nextId + 1)
    ensures r.0 == t.(permissions := r.0.permissions, nextId := r.0.nextId)
    ensures t.permissions.Keys <= r.0.permissions.Keys && forall k :: k in t.permissions ==> r.0.permissions[k] == t.permissions[k]
  {
    match FindPermissionByCode(t.permissions, code)
    case Some(id) => (t, Success(id))
    case None =>
      if PermissionCodeStored(t.permissions, code) then (t, Failure(DataIntegrityViolation("permissions.code")))
      else
        var t' := t.(permissions := t.permissions[t.nextId := Permission(code, SeededDescription(code), None)],
                     nextId := t.nextId + 1);
        assert t'.permissions[t.nextId].code == code;
        (t', Success(t.nextId))
  }

  method EnsurePermission(db: Database, code: string) returns (r: Result<Id>)
    requires db.Valid()
    modifies db
    ensures db.Valid()
    ensures (db.t, r) == EnsurePermissionOutcome(old(db.t), code)
  {
    var existing := FindPermissionByCode(db.t.permissions, code);
    if existing.Some? {
      return Success(existing.value);
    }
    r := db.InsertPermission(Permission(code, SeededDescription(code), None));
  }

  /** `seedPermissions` over the codes `codes`, in order: each code is
      found or created and recorded in the answered map. */
  function SeedPermissionsOutcome(t: Tables, codes: seq<string>): (r: (Tables, Result<map<string, Id>>))
    requires Consistent(t)
    decreases |codes|
    ensures Consistent(r.0)
    ensures r.1.Failure? ==> r.1.error == DataIntegrityViolation("permissions.code")
    ensures r.0 == t.(permissions := r.0.permissions, nextId := r.0.nextId)
    ensures t.permissions.Keys <= r.0.permissions.Keys && forall k :: k in t.permissions ==> r.0.permissions[k] == t.permissions[k]
  {
    if codes == [] then (t, Success(map[]))
    else
      var before := SeedPermissionsOutcome(t, codes[..|codes| - 1]);
      if before.1.Failure? then before
      else
        var step := EnsurePermissionOutcome(before.0, codes[|codes| - 1]);
        if step.1.Failure? then (step.0, Failure(step.1.error))
        else (step.0, Success(before.1.value[codes[|codes| - 1] := step.1.value]))
  }

  /** A successful seeding answers a map keyed by exactly the codes, each
      mapped to the non-deleted permission with that code. */
  lemma SeededPermissionsFound(t: Tables, codes: seq<string>)
    requires Consistent(t)
    ensures var r := SeedPermissionsOutcome(t, codes);
            r.1.Success? ==>
              (forall c :: c in r.1.value <==> c in codes) &&
              forall c :: c in r.1.value ==> FindPermissionByCode(r.0.permissions, c) == Some(r.1.value[c])
  {
    SeededKeys(t, codes);
    SeededFound(t, codes);
  }

  /** The keys of a successful seeding's map are exactly the codes. */
  lemma {:induction false} SeededKeys(t: Tables, codes: seq<string>)
    requires Consistent(t)
    ensures var r := SeedPermissionsOutcome(t, codes);
            r.1.Success? ==> forall c :: c in r.1.value <==> c in codes
    decreases |codes|
  {
    if codes != [] && SeedPermissionsOutcome(t, codes).1.Success? {
      var init := codes[..|codes| - 1];
      var code := codes[|codes| - 1];
      assert codes == init + [code];
      SeededKeys(t, init);
      assert forall c :: c in codes <==> c in init || c == code;
    }
  }

  /** Each key of a successful seeding's map is mapped to the non-deleted
      permission with that code. */
  lemma {:induction false} SeededFound(t: Tables, codes: seq<string>)
    requires Consistent(t)
    ensures var r := SeedPermissionsOutcome(t, codes);
            r.1.Success? ==> forall c :: c in r.1.value ==> FindPermissionByCode(r.0.permissions, c) == Some(r.1.value[c])
    decreases |codes|
  {
    if codes != [] && SeedPermissionsOutcome(t, codes).1.Success? {
      var init := codes[..|codes| - 1];
      var code := codes[|codes| - 1];
      SeededFound(t, init);
      var before := SeedPermissionsOutcome(t, init);
      FoundAfterEnsure(before.0, before.1.value, code);
    }
  }

  /** Ensuring one more code keeps every code of the map found and finds the
      new code at the identity it answers. */
  lemma FoundAfterEnsure(u: Tables, prev: map<string, Id>, code: string)
    requires Consistent(u)
    requires forall c :: c in prev ==> FindPermissionByCode(u.permissions, c) == Some(prev[c])
    requires EnsurePermissionOutcome(u, code).1.Success?
    ensures var step := EnsurePermissionOutcome(u, code);
            var m := prev[code := step.1.value];
            forall c :: c in m ==> FindPermissionByCode(step.0.permissions, c) == Some(m[c])
  {
    var step := EnsurePermissionOutcome(u, code);
    var m := prev[code := step.1.value];
    forall c | c in m
      ensures FindPermissionByCode(step.0.permissions, c) == Some(m[c])
    {
      if c != code {
        FoundStaysFound(u.permissions, step.0.permissions, c, prev[c]);
      }
    }
  }

  /** A permission found by its code is found again in a larger table that
      keeps it unchanged. */
  lemma FoundStaysFound(p: map<Id, Permission>, q: map<Id, Permission>, c: string, id: Id)
    requires PermissionCodesUnique(p) && PermissionCodesUnique(q)
    requires FindPermissionByCode(p, c) == Some(id)
    requires id in q && q[id] == p[id]
    ensures FindPermissionByCode(q, c) == Some(id)
  {
  }

  /** Every permission a seeding creates has one of the codes and the
      description derived from its code. */
  lemma {:induction false} SeededPermissionsDescribed(t: Tables, codes: seq<string>)
    requires Consistent(t)
    ensures var t' := SeedPermissionsOutcome(t, codes).0;
            forall k :: k in t'.permissions && k !in t.permissions ==>
              t'.permissions[k].code in codes && t'.permissions[k].description == SeededDescription(t'.permissions[k].code)
    decreases |codes|
  {
    if codes != [] {
      var init := codes[..|codes| - 1];
      assert codes == init + [codes[|codes| - 1]];
      SeededPermissionsDescribed(t, init);
    }
  }

  /** Once a prefix of the codes fails, the whole run answers that failure. */
  lemma {:induction false} SeedPermissionsFailureSticks(t: Tables, codes: seq<string>, n: nat)
    requires Consistent(t) && n <= |codes|
    requires SeedPermissionsOutcome(t, codes[..n]).1.Failure?
    ensures SeedPermissionsOutcome(t, codes) == SeedPermissionsOutcome(t, codes[..n])
    decreases |codes| - n
  {
    if n < |codes| {
      var init := codes[..|codes| - 1];
      assert init[..n] == codes[..n];
      SeedPermissionsFailureSticks(t, init, n);
    } else {
      assert codes[..n] == codes;
    }
  }

  /** One more code: the seeding of `codes[..n + 1]` continues the seeding
      of `codes[..n]` with the find-or-create of `codes[n]`. */
  lemma {:induction false} SeedPermissionsStep(t: Tables, codes: seq<string>, n: nat)
    requires Consistent(t) && n < |codes|
    requires SeedPermissionsOutcome(t, codes[..n]).1.Success?
    ensures var before := SeedPermissionsOutcome(t, codes[..n]);
            var step := EnsurePermissionOutcome(before.0, codes[n]);
            SeedPermissionsOutcome(t, codes[..n + 1]) ==
              (step.0, if step.1.Failure? then Failure(step.1.error) else Success(before.1.value[codes[n] := step.1.value]))
  {
    var p := codes[..n + 1];
    assert p[..|p| - 1] == codes[..n];
    assert p[|p| - 1] == codes[n];
  }

  method SeedPermissions(db: Database, codes: seq<string>) returns (r: Result<map<string, Id>>)
    requires db.Valid()
    modifies db
    ensures db.Valid()
    ensures (db.t, r) == SeedPermissionsOutcome(old(db.t), codes)
  {
    var m: map<string, Id> := map[];
    var i := 0;
    while i < |codes|
      invariant 0 <= i <= |codes|
      invariant db.Valid()
      invariant (db.t, Success(m)) == SeedPermissionsOutcome(old(db.t), codes[..i])
    {
      var code := codes[i];
      SeedPermissionsStep(old(db.t), codes, i);
      var found := EnsurePermission(db, code);
      if found.Failure? {
        SeedPermissionsFailureSticks(old(db.t), codes, i + 1);
        return Failure(found.error);
      }
      m := m[code := found.value];
      i := i + 1;
    }
    assert codes[..i] == codes;
    r := Success(m);
  }

  /** Seeding the permissions again finds every one of them: no table
      changes and the same map is answered. */
  lemma {:induction false} SeedPermissionsRerun(t: Tables, codes: seq<string>)
    requires Consistent(t) && SeedPermissionsOutcome(t, codes).1.Success?
    ensures var first := SeedPermissionsOutcome(t, codes);
            SeedPermissionsOutcome(first.0, codes) == first
  {
    var first := SeedPermissionsOutcome(t, codes);
    SeededPermissionsFound(t, codes);
    SeedingFoundCodes(first.0, codes, first.1.value);
  }

  /** When the map `m`, keyed by exactly the codes, already finds every
      code, seeding changes nothing and answers `m`. */
  lemma {:induction false} SeedingFoundCodes(u: Tables, codes: seq<string>, m: map<string, Id>)
    requires Consistent(u)
    requires (forall c :: c in m <==> c in codes) && forall c :: c in m ==> FindPermissionByCode(u.permissions, c) == Some(m[c])
    ensures SeedPermissionsOutcome(u, codes) == (u, Success(m))
  {
    var s := SeedPermissionsOutcome(u, codes);
    AllFoundSeedsNothing(u, codes, m);
    SeededKeys(u, codes);
    SameEntriesSameMap(s.1.value, m);
  }

  /** Proof step for `SeedingFoundCodes` (map extensionality, no source
      counterpart): two maps with the same keys and the same value at every
      key are the same map. */
  lemma SameEntriesSameMap(a: map<string, Id>, b: map<string, Id>)
    requires forall c :: c in a ==> c in b && a[c] == b[c]
    requires forall c :: c in b ==> c in a
    ensures a == b
  {
  }

  /** When every code is already found, seeding changes nothing and answers
      the identities found. */
  lemma {:induction false} AllFoundSeedsNothing(t: Tables, codes: seq<string>, m: map<string, Id>)
    requires Consistent(t)
    requires forall i :: 0 <= i < |codes| ==> codes[i] in m && FindPermissionByCode(t.permissions, codes[i]) == Some(m[codes[i]])
    ensures var r := SeedPermissionsOutcome(t, codes);
            r.0 == t && r.1.Success? && forall c :: c in r.1.value ==> c in m && r.1.value[c] == m[c]
    decreases |codes|
  {
    if codes != [] {
      var last := |codes| - 1;
      var init := codes[..last];
      assert forall i :: 0 <= i < |init| ==> init[i] == codes[i];
      AllFoundSeedsNothing(t, init, m);
      assert codes[last] in m;
      SeedPermissionsFoundStep(t, codes, SeedPermissionsOutcome(t, init).1.value, m[codes[last]]);
    }
  }

  /** When the codes but the last leave the tables as they were and the
      last code is found, the whole seeding adds that code's identity to
      the map. */
  lemma SeedPermissionsFoundStep(t: Tables, codes: seq<string>, prev: map<string, Id>, id: Id)
    requires Consistent(t) && codes != []
    requires SeedPermissionsOutcome(t, codes[..|codes| - 1]) == (t, Success(prev))
    requires FindPermissionByCode(t.permissions, codes[|codes| - 1]) == Some(id)
    ensures SeedPermissionsOutcome(t, codes) == (t, Success(prev[codes[|codes| - 1] := id]))
  {
    assert EnsurePermissionOutcome(t, codes[|codes| - 1]) == (t, Success(id));
  }

  // ---------------------------------------------------------------------
  // seedRolePermissions

  /** `order` is the order in which the answered map hands out its keys:
      every key, each once. */
  ghost predicate IteratesKeys(order: seq<string>, m: map<string, Id>) {
    && (forall c :: c in order <==> c in m)
    && (forall i, j :: 0 <= i < j < |order| ==> order[i] != order[j])
  }

  /** The links saved for ADMIN: one per permission of the map. */
  function AdminLinks(admin: Id, m: map<string, Id>, order: seq<string>): (r: seq<RolePermission>)
    requires forall c :: c in order ==> c in m
    ensures |r| == |order|
    ensures forall i :: 0 <= i < |order| ==> r[i] == RolePermission(admin, m[order[i]])
  {
    if order == [] then []
    else AdminLinks(admin, m, order[..|order| - 1]) + [RolePermission(admin, m[order[|order| - 1]])]
  }

  /** The links saved for USER: one per permission whose code ends in "_READ". */
  function ReadLinks(user: Id, m: map<string, Id>, order: seq<string>): (r: seq<RolePermission>)
    requires forall c :: c in order ==> c in m
    ensures |r| <= |order|
    ensures forall l :: l in r ==> l.roleId == user
  {
    if order == [] then []
    else
      var last := order[|order| - 1];
      ReadLinks(user, m, order[..|order| - 1]) + (if EndsWith(last, ReadSuffix) then [RolePermission(user, m[last])] else [])
  }

  /** USER is linked to exactly the permissions whose codes end in "_READ". */
  lemma {:induction false} ReadLinksMembership(user: Id, m: map<string, Id>, order: seq<string>, l: RolePermission)
    requires forall c :: c in order ==> c in m
    ensures l in ReadLinks(user, m, order) <==>
            exists c :: c in order && EndsWith(c, ReadSuffix) && l == RolePermission(user, m[c])
    decreases |order|
  {
    if order != [] {
      var init := order[..|order| - 1];
      assert order == init + [order[|order| - 1]];
      ReadLinksMembership(user, m, init, l);
    }
  }

  /** `seedRolePermissions`: nothing when ADMIN or USER is not found;
      otherwise the ADMIN links, then the USER links, are appended whatever
      links exist already. */
  function SeedRolePermissionsOutcome(t: Tables, m: map<string, Id>, order: seq<string>): (r: Tables)
    requires Consistent(t) && IteratesKeys(order, m)
    requires forall c :: c in m ==> m[c] in t.permissions
    ensures Consistent(r)
    ensures FindRoleByCode(t.roles, AdminRoleCode).None? || FindRoleByCode(t.roles, UserRoleCode).None? ==> r == t
    ensures FindRoleByCode(t.roles, AdminRoleCode).Some? && FindRoleByCode(t.roles, UserRoleCode).Some? ==>
              var admin := FindRoleByCode(t.roles, AdminRoleCode).value;
              var user := FindRoleByCode(t.roles, UserRoleCode).value;
              admin != user &&
              r == t.(rolePermissions := t.rolePermissions + AdminLinks(admin, m, order) + ReadLinks(user, m, order))
  {
    var adminRole := FindRoleByCode(t.roles, AdminRoleCode);
    var userRole := FindRoleByCode(t.roles, UserRoleCode);
    if adminRole.None? || userRole.None? then t
    else
      assert |AdminRoleCode| != |UserRoleCode|;
      LinkedTablesConsistent(t, adminRole.value, userRole.value, m, order);
      t.(rolePermissions := t.rolePermissions + AdminLinks(adminRole.value, m, order) + ReadLinks(userRole.value, m, order))
  }

  /** Appending the links of two stored roles to stored permissions keeps the schema. */
  lemma LinkedTablesConsistent(t: Tables, admin: Id, user: Id, m: map<string, Id>, order: seq<string>)
    requires Consistent(t) && admin in t.roles && user in t.roles
    requires forall c :: c in order ==> c in m
    requires forall c :: c in m ==> m[c] in t.permissions
    ensures Consistent(t.(rolePermissions := t.rolePermissions + AdminLinks(admin, m, order) + ReadLinks(user, m, order)))
  {
    var adminLinks := AdminLinks(admin, m, order);
    var readLinks := ReadLinks(user, m, order);
    LinksBelow(admin, user, m, order, t.nextId);
    AppendRolePermissionsConsistent(t, adminLinks + readLinks);
    assert t.rolePermissions + (adminLinks + readLinks) == t.rolePermissions + adminLinks + readLinks;
  }

  /** Every link refers to identities below `bound` when the two roles and
      every permission of the map do. */
  lemma LinksBelow(admin: Id, user: Id, m: map<string, Id>, order: seq<string>, bound: nat)
    requires forall c :: c in order ==> c in m
    requires forall c :: c in m ==> m[c] < bound
    requires admin < bound && user < bound
    ensures forall l :: l in AdminLinks(admin, m, order) + ReadLinks(user, m, order) ==>
              l.roleId < bound && l.permissionId < bound
  {
    var adminLinks := AdminLinks(admin, m, order);
    forall l | l in adminLinks + ReadLinks(user, m, order)
      ensures l.roleId < bound && l.permissionId < bound
    {
      if l in adminLinks {
        var k :| 0 <= k < |adminLinks| && adminLinks[k] == l;
        assert m[order[k]] < bound;
      } else {
        ReadLinksMembership(user, m, order, l);
      }
    }
  }

  /** One more key in `order` adds at most one link at the end. */
  lemma {:induction false} LinksStep(admin: Id, user: Id, m: map<string, Id>, order: seq<string>, n: nat)
    requires n < |order| && forall c :: c in order ==> c in m
    ensures AdminLinks(admin, m, order[..n + 1]) == AdminLinks(admin, m, order[..n]) + [RolePermission(admin, m[order[n]])]
    ensures ReadLinks(user, m, order[..n + 1]) ==
            ReadLinks(user, m, order[..n]) + (if EndsWith(order[n], ReadSuffix) then [RolePermission(user, m[order[n]])] else [])
  {
    var p := order[..n + 1];
    assert p[..|p| - 1] == order[..n];
    assert p[|p| - 1] == order[n];
  }

  /** Saving the ADMIN link of key `n` extends the links of the first `n` keys
      to those of the first `n + 1`. */
  lemma {:induction false} AdminLinksAppend(base: seq<RolePermission>, admin: Id, m: map<string, Id>, order: seq<string>, n: nat)
    requires n < |order| && forall c :: c in order ==> c in m
    ensures base + AdminLinks(admin, m, order[..n]) + [RolePermission(admin, m[order[n]])] ==
            base + AdminLinks(admin, m, order[..n + 1])
  {
    LinksStep(admin, admin, m, order, n);
    TailAfterBase(base, AdminLinks(admin, m, order[..n]), [RolePermission(admin, m[order[n]])]);
  }

  /** Key `n` extends the USER links of the first `n` keys to those of the
      first `n + 1` by its link when its code ends in "_READ", and by nothing
      otherwise. */
  lemma {:induction false} ReadLinksAppend(base: seq<RolePermission>, user: Id, m: map<string, Id>, order: seq<string>, n: nat)
    requires n < |order| && forall c :: c in order ==> c in m
    ensures EndsWith(order[n], ReadSuffix) ==>
              base + ReadLinks(user, m, order[..n]) + [RolePermission(user, m[order[n]])] ==
              base + ReadLinks(user, m, order[..n + 1])
    ensures !EndsWith(order[n], ReadSuffix) ==>
              base + ReadLinks(user, m, order[..n]) == base + ReadLinks(user, m, order[..n + 1])
  {
    LinksStep(user, user, m, order, n);
    TailAfterBase(base, ReadLinks(user, m, order[..n]), [RolePermission(user, m[order[n]])]);
  }

  /** The first loop of `seedRolePermissions`: one ADMIN link per key. */
  method SeedAdminLinks(db: Database, admin: Id, m: map<string, Id>, order: seq<string>)
    requires db.Valid() && admin in db.t.roles
    requires forall c :: c in order ==> c in m && m[c] in db.t.permissions
    modifies db
    ensures db.Valid()
    ensures db.t == old(db.t).(rolePermissions := old(db.t).rolePermissions + AdminLinks(admin, m, order))
  {
    ghost var t0 := db.t;
    assert admin < t0.nextId && forall c :: c in order ==> m[c] < t0.nextId;
    var i := 0;
    while i < |order|
      invariant 0 <= i <= |order|
      invariant db.Valid()
      invariant db.t == t0.(rolePermissions := db.t.rolePermissions)
      invariant db.t.rolePermissions == t0.rolePermissions + AdminLinks(admin, m, order[..i])
    {
      AdminLinksAppend(t0.rolePermissions, admin, m, order, i);
      db.AddRolePermission(RolePermission(admin, m[order[i]]));
      i := i + 1;
    }
    assert order[..i] == order;
  }

  /** The second loop of `seedRolePermissions`: one USER link per key that
      ends in "_READ". */
  method SeedReadLinks(db: Database, user: Id, m: map<string, Id>, order: seq<string>)
    requires db.Valid() && user in db.t.roles
    requires forall c :: c in order ==> c in m && m[c] in db.t.permissions
    modifies db
    ensures db.Valid()
    ensures db.t == old(db.t).(rolePermissions := old(db.t).rolePermissions + ReadLinks(user, m, order))
  {
    ghost var t0 := db.t;
    assert user < t0.nextId && forall c :: c in order ==> m[c] < t0.nextId;
    var j := 0;
    while j < |order|
      invariant 0 <= j <= |order|
      invariant db.Valid()
      invariant db.t == t0.(rolePermissions := db.t.rolePermissions)
      invariant db.t.rolePermissions == t0.rolePermissions + ReadLinks(user, m, order[..j])
    {
      var code := order[j];
      ReadLinksAppend(t0.rolePermissions, user, m, order, j);
      if EndsWith(code, ReadSuffix) {
        db.AddRolePermission(RolePermission(user, m[code]));
      }
      j := j + 1;
    }
    assert order[..j] == order;
  }

  method SeedRolePermissions(db: Database, m: map<string, Id>, order: seq<string>)
    requires db.Valid() && IteratesKeys(order, m)
    requires forall c :: c in m ==> m[c] in db.t.permissions
    modifies db
    ensures db.Valid()
    ensures db.t == SeedRolePermissionsOutcome(old(db.t), m, order)
  {
    var adminRole := FindRoleByCode(db.t.roles, AdminRoleCode);
    var userRole := FindRoleByCode(db.t.roles, UserRoleCode);
    if adminRole.None? || userRole.None? {
      return;
    }
    SeedAdminLinks(db, adminRole.value, m, order);
    SeedReadLinks(db, userRole.value, m, order);
  }

  /** What the seeded links grant: ADMIN is linked to every permission of
      the map, USER to every one whose code ends in "_READ", and each new
      link is one of those. */
  lemma {:induction false} SeededLinks(t: Tables, m: map<string, Id>, order: seq<string>)
    requires Consistent(t) && IteratesKeys(order, m)
    requires forall c :: c in m ==> m[c] in t.permissions
    requires FindRoleByCode(t.roles, AdminRoleCode).Some? && FindRoleByCode(t.roles, UserRoleCode).Some?
    ensures var admin := FindRoleByCode(t.roles, AdminRoleCode).value;
            var user := FindRoleByCode(t.roles, UserRoleCode).value;
            var r := SeedRolePermissionsOutcome(t, m, order);
            (forall c :: c in m ==> RolePermission(admin, m[c]) in r.rolePermissions) &&
            (forall c :: c in m && EndsWith(c, ReadSuffix) ==> RolePermission(user, m[c]) in r.rolePermissions) &&
            (forall l :: l in r.rolePermissions && l !in t.rolePermissions ==>
               (l.roleId == admin && exists c :: c in m && l.permissionId == m[c]) ||
               (l.roleId == user && exists c :: c in m && EndsWith(c, ReadSuffix) && l.permissionId == m[c]))
  {
    var admin := FindRoleByCode(t.roles, AdminRoleCode).value;
    var user := FindRoleByCode(t.roles, UserRoleCode).value;
    assert SeedRolePermissionsOutcome(t, m, order).rolePermissions ==
           t.rolePermissions + AdminLinks(admin, m, order) + ReadLinks(user, m, order);
    AppendedLinks(t.rolePermissions, admin, user, m, order);
  }

  /** The links appended after `base`: one from ADMIN to every permission
      of the map, one from USER to every "_READ" permission, and no other. */
  lemma {:induction false} AppendedLinks(base: seq<RolePermission>, admin: Id, user: Id, m: map<string, Id>, order: seq<string>)
    requires forall c :: c in order <==> c in m
    ensures var all := base + AdminLinks(admin, m, order) + ReadLinks(user, m, order);
            (forall c :: c in m ==> RolePermission(admin, m[c]) in all) &&
            (forall c :: c in m && EndsWith(c, ReadSuffix) ==> RolePermission(user, m[c]) in all) &&
            (forall l :: l in all && l !in base ==>
               (l.roleId == admin && exists c :: c in m && l.permissionId == m[c]) ||
               (l.roleId == user && exists c :: c in m && EndsWith(c, ReadSuffix) && l.permissionId == m[c]))
  {
    var adminLinks := AdminLinks(admin, m, order);
    var readLinks := ReadLinks(user, m, order);
    var withAdmin := base + adminLinks;
    var all := withAdmin + readLinks;
    forall c | c in m
      ensures RolePermission(admin, m[c]) in all
    {
      var k :| 0 <= k < |order| && order[k] == c;
      assert withAdmin[|base| + k] == adminLinks[k];
      assert adminLinks[k] in withAdmin;
    }
    forall c | c in m && EndsWith(c, ReadSuffix)
      ensures RolePermission(user, m[c]) in all
    {
      ReadLinksMembership(user, m, order, RolePermission(user, m[c]));
      assert RolePermission(user, m[c]) in readLinks;
    }
    forall l | l in all && l !in base
      ensures (l.roleId == admin && exists c :: c in m && l.permissionId == m[c]) ||
              (l.roleId == user && exists c :: c in m && EndsWith(c, ReadSuffix) && l.permissionId == m[c])
    {
      assert l in withAdmin || l in readLinks;
      if l in withAdmin {
        assert l in adminLinks;
        var k :| 0 <= k < |adminLinks| && adminLinks[k] == l;
        assert order[k] in m && l.permissionId == m[order[k]];
      } else {
        ReadLinksMembership(user, m, order, l);
      }
    }
  }

  /** Of the seeded codes, exactly five end in "_READ": USER is granted one
      read permission per group. */
  lemma SeededReadCodes()
    ensures (set c | c in SeededCodes && EndsWith(c, ReadSuffix)) ==
            {"USER_READ", "ROLE_READ", "PERMISSION_READ", "ITEM_READ", "AUDIT_LOG_READ"}
  {
  }

  // ---------------------------------------------------------------------
  // seedAdminUser

  /** The seeded account: "admin", its e-mail, the encoder's hash of
      "admin123", enabled and unlocked. */
  function AdminAccount(encode: string -> string): (r: UserAccount)
    ensures r.username == AdminUsername && r.email == Some(AdminEmail) && r.passwordHash == encode(AdminPassword)
    ensures r.enabled && !r.locked && r.Visible()
  {
    UserAccount(AdminUsername, Some(AdminEmail), encode(AdminPassword), true, false, None)
  }

  /** `seedAdminUser`: nothing when a non-deleted "admin" exists. Otherwise
      the account is saved (a deleted "admin" or another holder of the
      e-mail breaks a unique column) and, when ADMIN is found, linked to it;
      without ADMIN the account is kept with no role at all. */
  function SeedAdminUserOutcome(t: Tables, encode: string -> string): (r: (Tables, Outcome))
    requires Consistent(t)
    ensures Consistent(r.0)
    ensures r.0 == t.(users := r.0.users, userRoles := r.0.userRoles, nextId := r.0.nextId)
    ensures UsernameExists(t.users, AdminUsername) ==> r == (t, Pass)
    ensures r.1.Fail? <==>
              !UsernameExists(t.users, AdminUsername) &&
              (UsernameStored(t.users, AdminUsername) || EmailStored(t.users, Some(AdminEmail)))
    ensures r.1.Fail? ==> r.0 == t && r.1.error == DataIntegrityViolation("user_accounts")
    ensures r.1.Pass? ==> UsernameExists(r.0.users, AdminUsername)
    ensures r.1.Pass? && !UsernameExists(t.users, AdminUsername) ==>
              var id := t.nextId;
              id !in t.users && r.0.users == t.users[id := AdminAccount(encode)] && r.0.nextId == id + 1 &&
              FindUserByUsername(r.0.users, AdminUsername) == Some(id) &&
              (FindRoleByCode(t.roles, AdminRoleCode).None? ==>
                 r.0.userRoles == t.userRoles && Authority.UserAuthorities(r.0, id) == {}) &&
              (FindRoleByCode(t.roles, AdminRoleCode).Some? ==>
                 r.0.userRoles == t.userRoles + [UserRole(id, FindRoleByCode(t.roles, AdminRoleCode).value)] &&
                 Authority.UserRoleCodes(r.0, id) == {AdminRoleCode})
  {
    if UsernameExists(t.users, AdminUsername) then (t, Pass)
    else if UsernameStored(t.users, AdminUsername) || EmailStored(t.users, Some(AdminEmail)) then
      (t, Fail(DataIntegrityViolation("user_accounts")))
    else
      var id := t.nextId;
      var t1 := t.(users := t.users[id := AdminAccount(encode)], nextId := id + 1);
      assert t1.users[id].username == AdminUsername;
      match FindRoleByCode(t.roles, AdminRoleCode)
      case None =>
        Authority.NoRoleRowsNoAuthorities(t1, id);
        (t1, Pass)
      case Some(admin) =>
        var t2 := t1.(userRoles := t.userRoles + [UserRole(id, admin)]);
        Authority.FreshUserSingleRole(t, t2, admin);
        (t2, Pass)
  }

  method SeedAdminUser(db: Database, encode: string -> string) returns (r: Outcome)
    requires db.Valid()
    modifies db
    ensures db.Valid()
    ensures (db.t, r) == SeedAdminUserOutcome(old(db.t), encode)
  {
    if UsernameExists(db.t.users, AdminUsername) {
      return Pass;
    }
    var saved := db.InsertUser(AdminAccount(encode));
    if saved.Failure? {
      return Fail(saved.error);
    }
    var adminRole := FindRoleByCode(db.t.roles, AdminRoleCode);
    if adminRole.None? {
      return Pass;
    }
    db.AddUserRole(UserRole(saved.value, adminRole.value));
    r := Pass;
  }

  // ---------------------------------------------------------------------
  // seedSampleItems

  const SampleItem1 := Item("ITEM-001", "Sample Item 1", "Sample item 1 description", Some(10), None)
  const SampleItem2 := Item("ITEM-002", "Sample Item 2", "Sample item 2 description", Some(20), None)
  const SampleItem3 := Item("ITEM-003", "Sample Item 3", "Sample item 3 description", Some(30), None)

  /** `save` of one new item: refused by the unique column when any row,
      deleted or not, holds its code. */
  function SaveItemOutcome(t: Tables, item: Item): (r: (Tables, Outcome))
    ensures r.1.Fail? <==> ItemCodeStored(t.items, item.code)
    ensures r.1.Fail? ==> r == (t, Fail(DataIntegrityViolation("items.code")))
    ensures r.1.Pass? ==> r.0.items == t.items[t.nextId := item] && r.0.nextId == t.nextId + 1
    ensures r.0 == t.(items := r.0.items, nextId := r.0.nextId)
  {
    if ItemCodeStored(t.items, item.code) then (t, Fail(DataIntegrityViolation("items.code")))
    else (t.(items := t.items[t.nextId := item], nextId := t.nextId + 1), Pass)
  }

  /** Saving an item keeps the schema: its code is new and its identity is
      fresh. */
  lemma SaveKeepsConsistent(t: Tables, item: Item)
    requires Consistent(t)
    ensures Consistent(SaveItemOutcome(t, item).0)
  {
  }

  /** Saving an item leaves whether another code is stored as it was. */
  lemma SaveKeepsOtherCodes(t: Tables, item: Item, code: string)
    requires (forall k :: k in t.items ==> k < t.nextId) && item.code != code
    ensures ItemCodeStored(SaveItemOutcome(t, item).0.items, code) == ItemCodeStored(t.items, code)
  {
    var t' := SaveItemOutcome(t, item).0;
    if ItemCodeStored(t'.items, code) {
      var id :| id in t'.items && t'.items[id].code == code;
      assert id in t.items;
    }
    if ItemCodeStored(t.items, code) {
      var id :| id in t.items && t.items[id].code == code;
      assert id in t'.items && t'.items[id] == t.items[id];
    }
  }

  /** `seedSampleItems`: nothing when `count()` sees an item; otherwise the
      three sample items are saved in order, each refused when a deleted
      item still holds its code. */
  function SeedSampleItemsOutcome(t: Tables): (r: (Tables, Outcome))
    requires Consistent(t)
    ensures Consistent(r.0)
    ensures r.0 == t.(items := r.0.items, nextId := r.0.nextId)
    ensures VisibleItemCount(t.items) > 0 ==> r == (t, Pass)
    ensures r.1.Fail? ==> r.1.error == DataIntegrityViolation("items.code")
  {
    if VisibleItemCount(t.items) > 0 then (t, Pass)
    else
      SaveThreeConsistent(t, SampleItem1, SampleItem2, SampleItem3);
      SaveThreeOutcome(t, SampleItem1, SampleItem2, SampleItem3)
  }

  /** Three `save` calls in a row; the first refusal ends the run. */
  function SaveThreeOutcome(t: Tables, a: Item, b: Item, c: Item): (r: (Tables, Outcome))
    ensures r.0 == t.(items := r.0.items, nextId := r.0.nextId)
    ensures r.1.Fail? ==> r.1.error == DataIntegrityViolation("items.code")
  {
    var s1 := SaveItemOutcome(t, a);
    if s1.1.Fail? then s1
    else
      var s2 := SaveItemOutcome(s1.0, b);
      if s2.1.Fail? then s2 else SaveItemOutcome(s2.0, c)
  }

  lemma SaveThreeConsistent(t: Tables, a: Item, b: Item, c: Item)
    requires Consistent(t)
    ensures Consistent(SaveThreeOutcome(t, a, b, c).0)
  {
    var s1 := SaveItemOutcome(t, a);
    SaveKeepsConsistent(t, a);
    SaveKeepsConsistent(s1.0, b);
    SaveKeepsConsistent(SaveItemOutcome(s1.0, b).0, c);
  }

  /** Three saves of items with distinct codes all succeed exactly when no
      row holds any of the codes. */
  lemma {:induction false} ThreeSavesPass(t: Tables, a: Item, b: Item, c: Item)
    requires forall k :: k in t.items ==> k < t.nextId
    requires a.code != b.code && a.code != c.code && b.code != c.code
    ensures SaveThreeOutcome(t, a, b, c).1.Pass? <==>
              !ItemCodeStored(t.items, a.code) && !ItemCodeStored(t.items, b.code) && !ItemCodeStored(t.items, c.code)
  {
    var s1 := SaveItemOutcome(t, a);
    SaveKeepsOtherCodes(t, a, b.code);
    SaveKeepsOtherCodes(t, a, c.code);
    if s1.1.Pass? {
      SaveKeepsOtherCodes(s1.0, b, c.code);
    }
  }

  /** Three saves that all succeed add the three items under the next
      three identities. */
  lemma {:induction false} ThreeSavesAdd(t: Tables, a: Item, b: Item, c: Item)
    requires SaveThreeOutcome(t, a, b, c).1.Pass?
    ensures var r := SaveThreeOutcome(t, a, b, c);
            var id := t.nextId;
            r.0.items == t.items[id := a][id + 1 := b][id + 2 := c] && r.0.nextId == id + 3
  {
    var s1 := SaveItemOutcome(t, a);
    var s2 := SaveItemOutcome(s1.0, b);
    var s3 := SaveItemOutcome(s2.0, c);
    assert s1.1.Pass? && s2.1.Pass? && s3.1.Pass?;
    ChainedInserts(t.items, s1.0.items, s2.0.items, s3.0.items, t.nextId, a, b, c);
  }

  /** Proof step for `ThreeSavesAdd` (no source counterpart): three map
      updates in a row under consecutive identities, as one expression. */
  lemma ChainedInserts(m0: map<Id, Item>, m1: map<Id, Item>, m2: map<Id, Item>, m3: map<Id, Item>, id: Id, a: Item, b: Item, c: Item)
    requires m1 == m0[id := a] && m2 == m1[id + 1 := b] && m3 == m2[id + 2 := c]
    ensures m3 == m0[id := a][id + 1 := b][id + 2 := c]
  {
  }

  /** On a table `count()` sees as empty, the seeding succeeds exactly when
      no (deleted) row holds a sample code, and then adds the three sample
      items under the next three identities. */
  lemma SampleItemsSaved(t: Tables)
    requires Consistent(t) && VisibleItemCount(t.items) == 0
    ensures var r := SeedSampleItemsOutcome(t);
            (r.1.Pass? <==> !ItemCodeStored(t.items, SampleItem1.code) && !ItemCodeStored(t.items, SampleItem2.code) &&
                            !ItemCodeStored(t.items, SampleItem3.code)) &&
            (r.1.Pass? ==>
               var id := t.nextId;
               r.0.items == t.items[id := SampleItem1][id + 1 := SampleItem2][id + 2 := SampleItem3] && r.0.nextId == id + 3)
  {
    assert SampleItem1.code[7] != SampleItem2.code[7] && SampleItem1.code[7] != SampleItem3.code[7] &&
           SampleItem2.code[7] != SampleItem3.code[7];
    ThreeSavesPass(t, SampleItem1, SampleItem2, SampleItem3);
    if SeedSampleItemsOutcome(t).1.Pass? {
      ThreeSavesAdd(t, SampleItem1, SampleItem2, SampleItem3);
    }
  }

  /** After a successful seeding `count()` sees at least one item, so a
      second seeding saves nothing. */
  lemma SampleItemsCounted(t: Tables)
    requires Consistent(t) && SeedSampleItemsOutcome(t).1.Pass?
    ensures VisibleItemCount(SeedSampleItemsOutcome(t).0.items) > 0
    ensures var t' := SeedSampleItemsOutcome(t).0; SeedSampleItemsOutcome(t') == (t', Pass)
  {
    var t' := SeedSampleItemsOutcome(t).0;
    if VisibleItemCount(t.items) == 0 {
      SampleItemsSaved(t);
      assert t'.items[t.nextId] == SampleItem1;
      VisibleRowCounted(t'.items, t.nextId);
    }
  }

  /** A table holding a non-deleted row is counted as non-empty. */
  lemma VisibleRowCounted(items: map<Id, Item>, id: Id)
    requires id in items && items[id].Visible()
    ensures VisibleItemCount(items) > 0
  {
    var visible := set k | k in items && items[k].Visible();
    assert id in visible;
  }

  method SeedSampleItems(db: Database) returns (r: Outcome)
    requires db.Valid()
    modifies db
    ensures db.Valid()
    ensures (db.t, r) == SeedSampleItemsOutcome(old(db.t))
  {
    if VisibleItemCount(db.t.items) > 0 {
      return Pass;
    }
    var saved := db.InsertItem(SampleItem1);
    if saved.Failure? {
      return Fail(saved.error);
    }
    saved := db.InsertItem(SampleItem2);
    if saved.Failure? {
      return Fail(saved.error);
    }
    saved := db.InsertItem(SampleItem3);
    if saved.Failure? {
      return Fail(saved.error);
    }
    r := Pass;
  }

  // ---------------------------------------------------------------------
  // run

  /** `order` lists every one of `codes`, each once: the order in which a
      map keyed by those codes hands out its keys. */
  ghost predicate ListsOnce(order: seq<string>, codes: seq<string>) {
    && (forall c :: c in order <==> c in codes)
    && (forall i, j :: 0 <= i < j < |order| ==> order[i] != order[j])
  }

  ghost predicate IteratesSeeded(order: seq<string>) {
    ListsOnce(order, SeededCodes)
  }

  /** The first two steps, `seedRoles` then `seedPermissions`: on success
      both roles are found and the answered map sends each code to the
      non-deleted permission with that code. */
  function SeedCatalogOutcome(t: Tables, codes: seq<string>): (r: (Tables, Result<map<string, Id>>))
    requires Consistent(t)
    ensures Consistent(r.0)
    ensures r.1.Failure? ==> r.1.error.DataIntegrityViolation?
    ensures r.0 == t.(roles := r.0.roles, permissions := r.0.permissions, nextId := r.0.nextId)
    ensures r.1.Success? ==>
              FindRoleByCode(r.0.roles, AdminRoleCode).Some? && FindRoleByCode(r.0.roles, UserRoleCode).Some? &&
              (forall c :: c in r.1.value <==> c in codes) &&
              forall c :: c in r.1.value ==> FindPermissionByCode(r.0.permissions, c) == Some(r.1.value[c])
  {
    var s1 := SeedRolesOutcome(t);
    if s1.1.Fail? then (s1.0, Failure(s1.1.error))
    else
      SeededPermissionsFound(s1.0, codes);
      SeedPermissionsOutcome(s1.0, codes)
  }

  /** When both roles and every code are already found, the first two
      steps change nothing and answer the identities found. */
  lemma {:induction false} CatalogAlreadySeeded(t: Tables, codes: seq<string>, m: map<string, Id>)
    requires Consistent(t)
    requires FindRoleByCode(t.roles, AdminRoleCode).Some? && FindRoleByCode(t.roles, UserRoleCode).Some?
    requires (forall c :: c in m <==> c in codes) && forall c :: c in m ==> FindPermissionByCode(t.permissions, c) == Some(m[c])
    ensures SeedCatalogOutcome(t, codes) == (t, Success(m))
  {
    assert SeedRolesOutcome(t) == (t, Pass);
    SeedingFoundCodes(t, codes, m);
  }

  /** The last three steps, `seedRolePermissions`, `seedAdminUser` and
      `seedSampleItems`, run on the tables the catalog step left. */
  function SeedRestOutcome(t: Tables, m: map<string, Id>, encode: string -> string, order: seq<string>): (r: (Tables, Outcome))
    requires Consistent(t) && IteratesKeys(order, m) && forall c :: c in m ==> m[c] in t.permissions
    ensures Consistent(r.0)
    ensures r.1.Fail? ==> r.1.error.DataIntegrityViolation?
  {
    var s4 := SeedAdminUserOutcome(SeedRolePermissionsOutcome(t, m, order), encode);
    if s4.1.Fail? then s4 else SeedSampleItemsOutcome(s4.0)
  }

  /** When the last three steps pass, roles and permissions stay as they
      are, the link table is the one the link seeding leaves, "admin" and
      an item are found, and an "admin" created here is linked to ADMIN. */
  lemma {:induction false} RestPassed(t: Tables, m: map<string, Id>, encode: string -> string, order: seq<string>)
    requires Consistent(t) && IteratesKeys(order, m) && forall c :: c in m ==> m[c] in t.permissions
    requires SeedRestOutcome(t, m, encode, order).1.Pass?
    ensures var r := SeedRestOutcome(t, m, encode, order);
            r.0.roles == t.roles && r.0.permissions == t.permissions &&
            r.0.rolePermissions == SeedRolePermissionsOutcome(t, m, order).rolePermissions &&
            UsernameExists(r.0.users, AdminUsername) && VisibleItemCount(r.0.items) > 0
    ensures !UsernameExists(t.users, AdminUsername) && FindRoleByCode(t.roles, AdminRoleCode).Some? ==>
              var r := SeedRestOutcome(t, m, encode, order);
              UserRole(FindUserByUsername(r.0.users, AdminUsername).value, FindRoleByCode(t.roles, AdminRoleCode).value)
                in r.0.userRoles
  {
    var t3 := SeedRolePermissionsOutcome(t, m, order);
    var s4 := SeedAdminUserOutcome(t3, encode);
    assert s4.1.Pass?;
    SampleItemsCounted(s4.0);
  }

  /** On tables where "admin" and an item are found, the last three steps
      only seed the links. */
  lemma {:induction false} RestWhenSeeded(t: Tables, m: map<string, Id>, encode: string -> string, order: seq<string>)
    requires Consistent(t) && IteratesKeys(order, m) && forall c :: c in m ==> m[c] in t.permissions
    requires UsernameExists(t.users, AdminUsername) && VisibleItemCount(t.items) > 0
    ensures SeedRestOutcome(t, m, encode, order) == (SeedRolePermissionsOutcome(t, m, order), Pass)
  {
    var t3 := SeedRolePermissionsOutcome(t, m, order);
    assert t3.users == t.users && t3.items == t.items;
  }

  /** The five seeding steps with the permission codes `codes`, in one
      transaction: the first step that throws rolls every table back to
      where it was and the run fails with that error; otherwise both roles,
      every permission, a non-deleted "admin" and a non-deleted item are
      found afterwards. */
  function SeedAllOutcome(t: Tables, encode: string -> string, codes: seq<string>, order: seq<string>): (r: (Tables, Outcome))
    requires Consistent(t) && ListsOnce(order, codes)
    ensures Consistent(r.0)
    ensures r.1.Fail? ==> r.0 == t && r.1.error.DataIntegrityViolation?
  {
    var catalog := SeedCatalogOutcome(t, codes);
    if catalog.1.Failure? then (t, Fail(catalog.1.error))
    else
      var rest := SeedRestOutcome(catalog.0, catalog.1.value, encode, order);
      if rest.1.Fail? then (t, rest.1) else rest
  }

  /** `run`: the seeding with the 21 listed permission codes. */
  function RunOutcome(t: Tables, encode: string -> string, order: seq<string>): (r: (Tables, Outcome))
    requires Consistent(t) && IteratesSeeded(order)
    ensures Consistent(r.0)
    ensures r.1.Fail? ==> r.0 == t && r.1.error.DataIntegrityViolation?
  {
    SeedAllOutcome(t, encode, SeededCodes, order)
  }

  /** After a successful run both roles are found, every one of the 21
      codes is found, and so are "admin" and an item. */
  lemma RunFinds(t: Tables, encode: string -> string, order: seq<string>)
    requires Consistent(t) && IteratesSeeded(order) && RunOutcome(t, encode, order).1.Pass?
    ensures var r := RunOutcome(t, encode, order);
            FindRoleByCode(r.0.roles, AdminRoleCode).Some? && FindRoleByCode(r.0.roles, UserRoleCode).Some? &&
            (forall c :: c in SeededCodes ==> FindPermissionByCode(r.0.permissions, c).Some?) &&
            UsernameExists(r.0.users, AdminUsername) && VisibleItemCount(r.0.items) > 0
  {
    SeedAllFinds(t, encode, SeededCodes, order);
  }

  method Run(db: Database, encode: string -> string, order: seq<string>) returns (r: Outcome)
    requires db.Valid() && IteratesSeeded(order)
    modifies db
    ensures db.Valid()
    ensures (db.t, r) == RunOutcome(old(db.t), encode, order)
  {
    r := SeedAll(db, encode, SeededCodes, order);
  }

  method SeedAll(db: Database, encode: string -> string, codes: seq<string>, order: seq<string>) returns (r: Outcome)
    requires db.Valid() && ListsOnce(order, codes)
    modifies db
    ensures db.Valid()
    ensures (db.t, r) == SeedAllOutcome(old(db.t), encode, codes, order)
  {
    var snapshot := db.t;
    r := SeedRoles(db);
    if r.Fail? {
      db.Rollback(snapshot);
      return;
    }
    ghost var afterRoles := db.t;
    SeededPermissionsFound(afterRoles, codes);
    var permissions := SeedPermissions(db, codes);
    if permissions.Failure? {
      db.Rollback(snapshot);
      return Fail(permissions.error);
    }
    ghost var afterCatalog := db.t;
    assert (afterCatalog, permissions) == SeedCatalogOutcome(snapshot, codes);
    SeedRolePermissions(db, permissions.value, order);
    r := SeedAdminUser(db, encode);
    if r.Fail? {
      db.Rollback(snapshot);
      return;
    }
    r := SeedSampleItems(db);
    if r.Fail? {
      db.Rollback(snapshot);
      return;
    }
  }

  /** `role` is linked to a stored permission with each of the codes. */
  ghost predicate LinkedToAll(permissions: map<Id, Permission>, links: seq<RolePermission>, role: Id, codes: seq<string>) {
    forall c :: c in codes ==>
      exists p :: p in permissions && permissions[p].code == c && RolePermission(role, p) in links
  }

  /** An account linked to a role holds that role's authority and the code
      of every permission the role is linked to. */
  lemma GrantedThroughRole(u: Tables, id: Id, role: Id, codes: seq<string>)
    requires role in u.roles && UserRole(id, role) in u.userRoles && LinkedToAll(u.permissions, u.rolePermissions, role, codes)
    ensures "ROLE_" + u.roles[role].code in Authority.UserAuthorities(u, id)
    ensures forall c :: c in codes ==> c in Authority.UserAuthorities(u, id)
  {
    Authority.AuthorityMembership(u, id, "ROLE_" + u.roles[role].code);
    forall c | c in codes
      ensures c in Authority.UserAuthorities(u, id)
    {
      Authority.AuthorityMembership(u, id, c);
      var p :| p in u.permissions && u.permissions[p].code == c && RolePermission(role, p) in u.rolePermissions;
      assert RolePermission(role, p).permissionId == p;
    }
  }

  /** After the catalog is seeded, seeding the links links ADMIN to a
      permission with each of the codes. */
  lemma {:induction false} AdminLinkedAfterCatalog(t: Tables, codes: seq<string>, order: seq<string>)
    requires Consistent(t) && ListsOnce(order, codes) && SeedCatalogOutcome(t, codes).1.Success?
    ensures var c := SeedCatalogOutcome(t, codes);
            IteratesKeys(order, c.1.value) && (forall k :: k in c.1.value ==> c.1.value[k] in c.0.permissions) &&
            var t3 := SeedRolePermissionsOutcome(c.0, c.1.value, order);
            LinkedToAll(t3.permissions, t3.rolePermissions, FindRoleByCode(c.0.roles, AdminRoleCode).value, codes)
  {
    var c := SeedCatalogOutcome(t, codes);
    var m := c.1.value;
    var t3 := SeedRolePermissionsOutcome(c.0, m, order);
    SeededLinks(c.0, m, order);
    var admin := FindRoleByCode(c.0.roles, AdminRoleCode).value;
    forall k | k in codes
      ensures exists p :: p in t3.permissions && t3.permissions[p].code == k && RolePermission(admin, p) in t3.rolePermissions
    {
      assert m[k] in t3.permissions && t3.permissions[m[k]].code == k && RolePermission(admin, m[k]) in t3.rolePermissions;
    }
  }

  /** A seeding that creates "admin" leaves it holding the authority
      "ROLE_ADMIN" and the code of every seeded permission. */
  lemma SeedAllGrantsAdminEverything(t: Tables, encode: string -> string, codes: seq<string>, order: seq<string>)
    requires Consistent(t) && ListsOnce(order, codes)
    requires !UsernameExists(t.users, AdminUsername) && SeedAllOutcome(t, encode, codes, order).1.Pass?
    ensures var t' := SeedAllOutcome(t, encode, codes, order).0;
            FindUserByUsername(t'.users, AdminUsername).Some? &&
            var id := FindUserByUsername(t'.users, AdminUsername).value;
            "ROLE_" + AdminRoleCode in Authority.UserAuthorities(t', id) &&
            forall c :: c in codes ==> c in Authority.UserAuthorities(t', id)
  {
    SeedAllPassed(t, encode, codes, order);
    var c := SeedCatalogOutcome(t, codes);
    AdminLinkedAfterCatalog(t, codes, order);
    var m := c.1.value;
    var t3 := SeedRolePermissionsOutcome(c.0, m, order);
    RestPassed(c.0, m, encode, order);
    var t' := SeedRestOutcome(c.0, m, encode, order).0;
    assert c.0.users == t.users;
    var admin := FindRoleByCode(c.0.roles, AdminRoleCode).value;
    var id := FindUserByUsername(t'.users, AdminUsername).value;
    assert UserRole(id, admin) in t'.userRoles;
    assert t'.permissions == t3.permissions && t'.rolePermissions == t3.rolePermissions;
    assert t'.roles[admin].code == AdminRoleCode;
    GrantedThroughRole(t', id, admin, codes);
  }

  /** A run that creates "admin" leaves it holding the authority
      "ROLE_ADMIN" and every one of the 21 seeded permission codes. */
  lemma RunGrantsAdminEverything(t: Tables, encode: string -> string, order: seq<string>)
    requires Consistent(t) && IteratesSeeded(order)
    requires !UsernameExists(t.users, AdminUsername) && RunOutcome(t, encode, order).1.Pass?
    ensures var t' := RunOutcome(t, encode, order).0;
            FindUserByUsername(t'.users, AdminUsername).Some? &&
            var id := FindUserByUsername(t'.users, AdminUsername).value;
            "ROLE_" + AdminRoleCode in Authority.UserAuthorities(t', id) &&
            forall c :: c in SeededCodes ==> c in Authority.UserAuthorities(t', id)
  {
    SeedAllGrantsAdminEverything(t, encode, SeededCodes, order);
  }

  /** A successful seeding is the catalog step followed by the last three
      steps, all of them passing. */
  lemma {:induction false} SeedAllPassed(t: Tables, encode: string -> string, codes: seq<string>, order: seq<string>)
    requires Consistent(t) && ListsOnce(order, codes) && SeedAllOutcome(t, encode, codes, order).1.Pass?
    ensures SeedCatalogOutcome(t, codes).1.Success?
    ensures var c := SeedCatalogOutcome(t, codes);
            IteratesKeys(order, c.1.value) && (forall k :: k in c.1.value ==> c.1.value[k] in c.0.permissions) &&
            SeedAllOutcome(t, encode, codes, order) == SeedRestOutcome(c.0, c.1.value, encode, order)
  {
    var c := SeedCatalogOutcome(t, codes);
    assert c.1.Success?;
    CatalogKeys(t, codes, order);
  }

  /** The map a successful catalog step answers is keyed by exactly the
      codes, which `order` lists once each, and names stored permissions. */
  lemma {:induction false} CatalogKeys(t: Tables, codes: seq<string>, order: seq<string>)
    requires Consistent(t) && ListsOnce(order, codes) && SeedCatalogOutcome(t, codes).1.Success?
    ensures var c := SeedCatalogOutcome(t, codes);
            IteratesKeys(order, c.1.value) && forall k :: k in c.1.value ==> c.1.value[k] in c.0.permissions
  {
    var c := SeedCatalogOutcome(t, codes);
    assert forall k :: k in order <==> k in c.1.value;
  }

  /** After a successful seeding both roles are found, and the map the
      catalog step answered still finds every code. */
  lemma {:induction false} SeedAllFinds(t: Tables, encode: string -> string, codes: seq<string>, order: seq<string>)
    requires Consistent(t) && ListsOnce(order, codes) && SeedAllOutcome(t, encode, codes, order).1.Pass?
    ensures SeedCatalogOutcome(t, codes).1.Success?
    ensures var first := SeedAllOutcome(t, encode, codes, order).0;
            var m := SeedCatalogOutcome(t, codes).1.value;
            FindRoleByCode(first.roles, AdminRoleCode).Some? && FindRoleByCode(first.roles, UserRoleCode).Some? &&
            (forall c :: c in m <==> c in codes) &&
            (forall c :: c in m ==> FindPermissionByCode(first.permissions, c) == Some(m[c])) &&
            IteratesKeys(order, m) && (forall c :: c in m ==> m[c] in first.permissions) &&
            UsernameExists(first.users, AdminUsername) && VisibleItemCount(first.items) > 0
  {
    SeedAllPassed(t, encode, codes, order);
    var c := SeedCatalogOutcome(t, codes);
    RestPassed(c.0, c.1.value, encode, order);
  }

  /** The links appended after `base` are found again as the tail. */
  lemma {:induction false} TailAfterBase(base: seq<RolePermission>, a: seq<RolePermission>, b: seq<RolePermission>)
    ensures (base + a + b)[|base|..] == a + b
    ensures base + a + b == base + (a + b)
  {
    assert base + a + b == base + (a + b);
  }

  /** After the last three steps pass, seeding the links once more appends
      exactly the links they appended. */
  lemma {:induction false} RestLinksAgain(u: Tables, m: map<string, Id>, encode: string -> string, order: seq<string>)
    requires Consistent(u) && IteratesKeys(order, m) && forall c :: c in m ==> m[c] in u.permissions
    requires FindRoleByCode(u.roles, AdminRoleCode).Some? && FindRoleByCode(u.roles, UserRoleCode).Some?
    requires SeedRestOutcome(u, m, encode, order).1.Pass?
    ensures var first := SeedRestOutcome(u, m, encode, order).0;
            |first.rolePermissions| >= |u.rolePermissions| + |order| &&
            SeedRolePermissionsOutcome(first, m, order) ==
              first.(rolePermissions := first.rolePermissions + first.rolePermissions[|u.rolePermissions|..])
  {
    var first := SeedRestOutcome(u, m, encode, order).0;
    RestPassed(u, m, encode, order);
    var admin := FindRoleByCode(u.roles, AdminRoleCode).value;
    var user := FindRoleByCode(u.roles, UserRoleCode).value;
    TailAfterBase(u.rolePermissions, AdminLinks(admin, m, order), ReadLinks(user, m, order));
    TailAfterBase(first.rolePermissions, AdminLinks(admin, m, order), ReadLinks(user, m, order));
  }

  /** After a successful seeding, seeding the links once more appends
      exactly the links this run appended. */
  lemma {:induction false} SeedAllLinksAgain(t: Tables, encode: string -> string, codes: seq<string>, order: seq<string>)
    requires Consistent(t) && ListsOnce(order, codes) && SeedAllOutcome(t, encode, codes, order).1.Pass?
    requires SeedCatalogOutcome(t, codes).1.Success?
    requires var first := SeedAllOutcome(t, encode, codes, order).0;
             var m := SeedCatalogOutcome(t, codes).1.value;
             IteratesKeys(order, m) && forall c :: c in m ==> m[c] in first.permissions
    ensures var first := SeedAllOutcome(t, encode, codes, order).0;
            var m := SeedCatalogOutcome(t, codes).1.value;
            |first.rolePermissions| >= |t.rolePermissions| + |order| &&
            SeedRolePermissionsOutcome(first, m, order) ==
              first.(rolePermissions := first.rolePermissions + first.rolePermissions[|t.rolePermissions|..])
  {
    var c := SeedCatalogOutcome(t, codes);
    assert c.0.rolePermissions == t.rolePermissions;
    RestLinksAgain(c.0, c.1.value, encode, order);
  }

  /** On a store the seeding has already filled, seeding again only
      appends the links. */
  lemma {:induction false} SeedAllWhenSeeded(u: Tables, encode: string -> string, codes: seq<string>, order: seq<string>,
                                             m: map<string, Id>)
    requires Consistent(u) && ListsOnce(order, codes)
    requires FindRoleByCode(u.roles, AdminRoleCode).Some? && FindRoleByCode(u.roles, UserRoleCode).Some?
    requires (forall c :: c in m <==> c in codes) && forall c :: c in m ==> FindPermissionByCode(u.permissions, c) == Some(m[c])
    requires IteratesKeys(order, m) && forall c :: c in m ==> m[c] in u.permissions
    requires UsernameExists(u.users, AdminUsername) && VisibleItemCount(u.items) > 0
    ensures SeedAllOutcome(u, encode, codes, order) == (SeedRolePermissionsOutcome(u, m, order), Pass)
  {
    CatalogAlreadySeeded(u, codes, m);
    RestWhenSeeded(u, m, encode, order);
  }

  /** Seeding twice: the second run succeeds and changes nothing but the
      link table, to which it appends every link of the first run once
      more; since roles and permissions are collected as sets, no account's
      authorities change. */
  lemma SeedAllTwice(t: Tables, encode: string -> string, codes: seq<string>, order: seq<string>)
    requires Consistent(t) && ListsOnce(order, codes) && SeedAllOutcome(t, encode, codes, order).1.Pass?
    ensures var first := SeedAllOutcome(t, encode, codes, order).0;
            var second := SeedAllOutcome(first, encode, codes, order);
            |t.rolePermissions| <= |first.rolePermissions| &&
            second == (first.(rolePermissions := first.rolePermissions + first.rolePermissions[|t.rolePermissions|..]), Pass) &&
            (codes != [] ==> |second.0.rolePermissions| > |first.rolePermissions|) &&
            forall id :: Authority.UserAuthorities(second.0, id) == Authority.UserAuthorities(first, id)
  {
    SeedAllAgain(t, encode, codes, order);
    SeedAllAgainGrows(t, encode, codes, order);
    SeedAllAgainKeepsGrants(t, encode, codes, order);
  }

  /** With at least one code, seeding again makes the link table longer. */
  lemma SeedAllAgainGrows(t: Tables, encode: string -> string, codes: seq<string>, order: seq<string>)
    requires Consistent(t) && ListsOnce(order, codes) && SeedAllOutcome(t, encode, codes, order).1.Pass?
    ensures var first := SeedAllOutcome(t, encode, codes, order).0;
            codes != [] ==> |SeedAllOutcome(first, encode, codes, order).0.rolePermissions| > |first.rolePermissions|
  {
    SeedAllAgain(t, encode, codes, order);
    if codes != [] {
      assert codes[0] in order;
    }
  }

  /** Seeding again changes no account's authorities. */
  lemma SeedAllAgainKeepsGrants(t: Tables, encode: string -> string, codes: seq<string>, order: seq<string>)
    requires Consistent(t) && ListsOnce(order, codes) && SeedAllOutcome(t, encode, codes, order).1.Pass?
    ensures var first := SeedAllOutcome(t, encode, codes, order).0;
            var second := SeedAllOutcome(first, encode, codes, order);
            forall id :: Authority.UserAuthorities(second.0, id) == Authority.UserAuthorities(first, id)
  {
    var first := SeedAllOutcome(t, encode, codes, order).0;
    SeedAllAgain(t, encode, codes, order);
    TailAgainKeepsGrants(first, |t.rolePermissions|);
  }

  /** Appending once more the links after the first `n` changes no
      account's authorities. */
  lemma TailAgainKeepsGrants(u: Tables, n: nat)
    requires n <= |u.rolePermissions|
    ensures var v := u.(rolePermissions := u.rolePermissions + u.rolePermissions[n..]);
            forall id :: Authority.UserAuthorities(v, id) == Authority.UserAuthorities(u, id)
  {
    var added := u.rolePermissions[n..];
    assert forall l :: l in added ==> l in u.rolePermissions;
    RepeatedLinksKeepGrants(u, added);
  }

  /** Seeding again after a successful seeding passes and only appends,
      once more, the links the first run appended. */
  lemma {:induction false} SeedAllAgain(t: Tables, encode: string -> string, codes: seq<string>, order: seq<string>)
    requires Consistent(t) && ListsOnce(order, codes) && SeedAllOutcome(t, encode, codes, order).1.Pass?
    ensures var first := SeedAllOutcome(t, encode, codes, order).0;
            |t.rolePermissions| + |order| <= |first.rolePermissions| &&
            SeedAllOutcome(first, encode, codes, order) ==
              (first.(rolePermissions := first.rolePermissions + first.rolePermissions[|t.rolePermissions|..]), Pass)
  {
    var first := SeedAllOutcome(t, encode, codes, order).0;
    SeedAllFinds(t, encode, codes, order);
    SeedAllLinksAgain(t, encode, codes, order);
    var m := SeedCatalogOutcome(t, codes).1.value;
    SeedAllWhenSeeded(first, encode, codes, order, m);
  }

  /** Appending links the table already holds changes no account's
      authorities. */
  lemma RepeatedLinksKeepGrants(u: Tables, added: seq<RolePermission>)
    requires forall l :: l in added ==> l in u.rolePermissions
    ensures forall id :: Authority.UserAuthorities(u.(rolePermissions := u.rolePermissions + added), id) ==
                         Authority.UserAuthorities(u, id)
  {
    var v := u.(rolePermissions := u.rolePermissions + added);
    forall id
      ensures Authority.UserAuthorities(v, id) == Authority.UserAuthorities(u, id)
    {
      Authority.SameRowsSameGrants(v, u, id);
    }
  }

  /** Running the seeding twice with the 21 listed codes: the second run
      succeeds, appends the 21 ADMIN links and the five USER links again
      (the link table has no uniqueness check), and leaves every account's
      authorities as they were. */
  lemma RunTwice(t: Tables, encode: string -> string, order: seq<string>)
    requires Consistent(t) && IteratesSeeded(order) && RunOutcome(t, encode, order).1.Pass?
    ensures var first := RunOutcome(t, encode, order).0;
            var second := RunOutcome(first, encode, order);
            |t.rolePermissions| <= |first.rolePermissions| && second.1.Pass? &&
            second.0 == first.(rolePermissions := first.rolePermissions + first.rolePermissions[|t.rolePermissions|..]) &&
            |second.0.rolePermissions| > |first.rolePermissions| &&
            forall id :: Authority.UserAuthorities(second.0, id) == Authority.UserAuthorities(first, id)
  {
    SeedAllTwice(t, encode, SeededCodes, order);
  }

  /** A role coded "READ" yields the authority "ROLE_READ", which is also
      the seeded permission code for reading roles: role authorities and
      permission codes share one namespace. */
  lemma RoleNamespaceCollision(t: Tables, user: Id, rid: Id)
    requires rid in t.roles && t.roles[rid].code == "READ" && UserRole(user, rid) in t.userRoles
    ensures "ROLE_READ" in Authority.UserAuthorities(t, user) && "ROLE_READ" in SeededCodes
  {
    Authority.AuthorityMembership(t, user, "ROLE_READ");
    assert "ROLE_READ" == "ROLE_" + t.roles[rid].code;
    assert SeededCodes[6] == "ROLE_READ";
  }
}
