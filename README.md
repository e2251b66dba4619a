# A verified model of the starter kit's access-control core

This project models, in Dafny, the logic of a Spring Boot role-based access control backend. It covers:

- **authority resolution**: a user's roles, the permissions those roles reach, and the `ROLE_`-prefixed authorities built from them;
- **sign-in and token renewal**: `login`, `me` and `refresh`, over a ledger of refresh tokens, plus the `Bearer` header guard of the authentication controller;
- **the audit interceptor**: it resolves the actor, builds one audit record, and marks it FAILED when the wrapped call throws. The audit service stamps the record's time and saves it;
- **the role, permission, user and item services**: create, update, soft delete, hard delete and look-ups over code-unique tables, including the item service's narrowing of a `long` stock to an `int`;
- **start-up seeding**: the ADMIN and USER roles, the 21 permissions, the role-permission links, the `admin` account and three sample items;
- **the generic Excel import**: header validation, skipping blank rows, the success, failed and total counters, 1-based error rows, and batched saving. `ExcelImportResult` holds the counters.

The database is one `Store.Database` object. Its field `t: Tables` holds every table:

- entity tables are maps from identity to row;
- association rows, refresh tokens and audit records are sequences in insertion order.

The unique columns (role, permission and item codes, usernames and e-mails) are enforced the way the schema enforces them. A save that repeats a value of any stored row, deleted or not, fails with `DataIntegrityViolation` and changes nothing. The repository look-ups see only rows that are not soft-deleted (the `@Where` filter). The association queries read their rows unfiltered, but the role or permission a row names is loaded lazily through that filtered loader. A row naming a soft-deleted or removed role or permission therefore throws `EntityNotFoundException` when it is read (`Authority.RolesResolve`, `Authority.PermissionsResolve`).

Each service operation has two parts:

- a function that states what it leaves in the tables and what it answers;
- a method that changes the database and is proved to do exactly that.

The lemmas beside them prove what the code promises: error cases, round trips, and what a second call does.

Exceptions are values of the `Common.Exception` datatype, and a call that may throw answers a `Result` or an `Outcome`. The clock, the random token string and the password encoder become parameters, and so do the JWT provider and the authentication manager's verdict. In the Excel import, the workbook, the row mapper and the batch saver are parameters too.

Paths in the table below are relative to the repository root.

## Model

| member | source | states |
|---|---|---|
| JavaText.Trim | src/main/java/com/example/starter/audit/aspect/AuditLogAspect.java:87 | `String.trim()`: the leading trimmable characters go, then the trailing ones; neither end of the result is a character at or below U+0020, and the result is empty exactly when every input character is one |
| JavaText.TrimIsSlice | src/main/java/com/example/starter/common/excel/ExcelImportService.java:203 | the trim of a string is the slice of it after its leading trimmable characters, with only trimmable characters after that slice |
| JavaText.TrimStart | src/main/java/com/example/starter/audit/aspect/AuditLogAspect.java:87 | drops the longest trimmable prefix: every dropped character is trimmable and the result is empty or starts with a non-trimmable one |
| JavaText.TrimStartIsSuffix | src/main/java/com/example/starter/audit/aspect/AuditLogAspect.java:87 | what is left after the leading trimmable characters is the suffix of the input of that length |
| JavaText.TrimEnd | src/main/java/com/example/starter/audit/aspect/AuditLogAspect.java:87 | drops the longest trimmable suffix, leaving a prefix of the input |
| JavaText.TrimIdempotent | src/main/java/com/example/starter/common/excel/ExcelImportService.java:179 | trimming twice gives what trimming once gives |
| JavaText.ReplaceChar | src/main/java/com/example/starter/bootstrap/DataInitializer.java:130 | `replace` of one character: same length, and every occurrence of the character is replaced while other characters stay |
| JavaText.EqualsIgnoreCase | src/main/java/com/example/starter/common/excel/ExcelImportService.java:179 | same length, and each pair of characters equal, or equal after upper-casing or after lower-casing (ASCII letters) |
| JavaText.StartsWith | src/main/java/com/example/starter/auth/controller/AuthController.java:45 | the string begins with the prefix, case included |
| JavaText.EndsWith | src/main/java/com/example/starter/bootstrap/DataInitializer.java:165 | the string ends with the suffix, case included |
| JavaText.DecimalString | src/main/java/com/example/starter/common/excel/ExcelImportService.java:180-181 | `%d` of a column number: at least one character |
| JavaText.DecimalStringDenotes | src/main/java/com/example/starter/common/excel/ExcelImportService.java:180-181 | `%d` of a column number: decimal digits that denote exactly that number, with no leading zero except for 0 itself |
| Entities.FindUserByUsername | src/main/java/com/example/starter/rbac/user/repository/UserAccountRepository.java:14 | finds the non-deleted account with the username; when none is found, every account with that username is soft-deleted |
| Entities.FindRoleByCode | src/main/java/com/example/starter/rbac/role/repository/RoleRepository.java:14 | finds the non-deleted role with the code; when none is found, every role with that code is soft-deleted |
| Entities.FindPermissionByCode | src/main/java/com/example/starter/rbac/permission/repository/PermissionRepository.java:14 | the same for permissions |
| Entities.UsernameExists | src/main/java/com/example/starter/rbac/user/repository/UserAccountRepository.java:16 | `existsByUsername` under the soft-delete filter: some non-deleted account has the username |
| Entities.ItemCodeExists | src/main/java/com/example/starter/feature/item/repository/ItemRepository.java:14 | `existsByCode` under the soft-delete filter: some non-deleted item has the code |
| Entities.VisibleItemCount | src/main/java/com/example/starter/bootstrap/DataInitializer.java:202 | `count()` under the soft-delete filter: the number of non-deleted items |
| Entities.RoleRewriteConsistent | src/main/java/com/example/starter/rbac/role/entity/Role.java:20 | rewriting a role whose new code no other row holds keeps every unique column and reference invariant |
| Entities.PermissionRewriteConsistent | src/main/java/com/example/starter/rbac/permission/entity/Permission.java:20 | the same for a permission |
| Entities.ItemRewriteConsistent | src/main/java/com/example/starter/feature/item/entity/Item.java:20 | the same for an item |
| Entities.AppendRolePermissionsConsistent | src/main/java/com/example/starter/rbac/mapping/entity/RolePermission.java:18 | appending links between issued identities keeps the schema invariants |
| Store.Database.constructor | src/main/java/com/example/starter/rbac/role/repository/RoleRepository.java:12 | a fresh database is empty and consistent |
| Store.Database.InsertUser | src/main/java/com/example/starter/rbac/user/entity/UserAccount.java:20-24 | saving a new account whose username or non-null e-mail any stored row holds fails and changes nothing; otherwise the account gets the next identity and nothing else changes |
| Store.Database.InsertRole | src/main/java/com/example/starter/rbac/role/entity/Role.java:20-21 | saving a role whose code any stored row holds, deleted or not, fails and changes nothing; otherwise the role gets the next identity |
| Store.Database.InsertPermission | src/main/java/com/example/starter/rbac/permission/entity/Permission.java:20-21 | the same for a permission |
| Store.Database.InsertItem | src/main/java/com/example/starter/feature/item/entity/Item.java:20-21 | the same for an item |
| Store.Database.UpdateRole | src/main/java/com/example/starter/rbac/role/entity/Role.java:20-21 | rewriting a role fails, and changes nothing, exactly when another row holds the new code; otherwise only that row changes |
| Store.Database.UpdatePermission | src/main/java/com/example/starter/rbac/permission/entity/Permission.java:20-21 | the same for a permission |
| Store.Database.UpdateItem | src/main/java/com/example/starter/feature/item/entity/Item.java:20-21 | the same for an item |
| Store.Database.SoftDeleteRole | src/main/java/com/example/starter/rbac/role/entity/Role.java:16 | `delete` stamps `deleted_at` on the row; the row stays |
| Store.Database.SoftDeletePermission | src/main/java/com/example/starter/rbac/permission/entity/Permission.java:16 | the same for a permission |
| Store.Database.SoftDeleteItem | src/main/java/com/example/starter/feature/item/entity/Item.java:16 | the same for an item |
| Store.Database.HardDeleteUser | src/main/java/com/example/starter/rbac/user/repository/UserAccountRepository.java:22-26 | the native delete removes the row and nothing else |
| Store.Database.HardDeleteRole | src/main/java/com/example/starter/rbac/role/repository/RoleRepository.java:16-21 | the same for a role |
| Store.Database.HardDeletePermission | src/main/java/com/example/starter/rbac/permission/repository/PermissionRepository.java:16-21 | the same for a permission |
| Store.Database.HardDeleteItem | src/main/java/com/example/starter/feature/item/repository/ItemRepository.java:18-23 | the same for an item |
| Store.Database.AddUserRole | src/main/java/com/example/starter/rbac/mapping/entity/UserRole.java:18 | saving a user-role row appends it, with no existence check |
| Store.Database.AddRolePermission | src/main/java/com/example/starter/rbac/mapping/entity/RolePermission.java:18 | saving a role-permission row appends it, with no existence check |
| Store.Database.AddRefreshToken | src/main/java/com/example/starter/auth/service/AuthService.java:57-61 | appends one token whose string is new to the ledger |
| Store.Database.AddAuditRecord | src/main/java/com/example/starter/audit/service/AuditLogService.java:22 | appends one audit record and changes nothing else |
| Store.Database.Rollback | src/main/java/com/example/starter/rbac/user/service/UserService.java:32 | a transaction that throws leaves every table as it was when it began |
| Authority.GrantedRoleIds | src/main/java/com/example/starter/rbac/user/service/CustomUserDetailsService.java:40-43 | the granted roles are stored roles |
| Authority.PermissionCodes | src/main/java/com/example/starter/rbac/user/service/CustomUserDetailsService.java:46-51 | the codes of the permissions linked to the given roles, collected into a set; `PermissionCodesMembership` states which codes they are |
| Authority.RoleCodes | src/main/java/com/example/starter/auth/service/AuthService.java:84-86 | the codes of the given stored roles, collected into a set |
| Authority.Authorities | src/main/java/com/example/starter/rbac/user/service/CustomUserDetailsService.java:54-64 | one `ROLE_` authority per role code plus every permission code; `AuthorityMembership` states the membership |
| Authority.UserRoleIds | src/main/java/com/example/starter/rbac/user/service/CustomUserDetailsService.java:40-43 | the roles reached through the user's `user_roles` rows; `GrantedRoleIdsMembership` states which |
| Authority.UserRoleCodes | src/main/java/com/example/starter/auth/service/AuthService.java:76-86 | the user's role codes; `UserRoleCodesMembership` states which |
| Authority.UserPermissionCodes | src/main/java/com/example/starter/auth/service/AuthService.java:82-90 | the user's permission codes; `UserPermissionCodesMembership` states which |
| Authority.UserAuthorities | src/main/java/com/example/starter/rbac/user/service/CustomUserDetailsService.java:40-64 | the user's granted authorities; `AuthorityMembership` states which |
| Authority.GrantedRoleIdsMembership | src/main/java/com/example/starter/rbac/user/service/CustomUserDetailsService.java:40-43 | a role is granted exactly when a user-role row links the user to it and the role is stored |
| Authority.PermissionCodesMembership | src/main/java/com/example/starter/rbac/user/service/CustomUserDetailsService.java:46-51 | a code is collected exactly when some link from a granted role reaches a permission with that code |
| Authority.PermissionCodesMonotone | src/main/java/com/example/starter/rbac/user/service/CustomUserDetailsService.java:46-51 | more granted roles never collect fewer permission codes |
| Authority.UserRoleCodesMembership | src/main/java/com/example/starter/auth/service/AuthService.java:76-79 | a user's role codes are exactly the codes of the roles on the user's rows |
| Authority.UserPermissionCodesMembership | src/main/java/com/example/starter/auth/service/AuthService.java:82-90 | a user's permission codes are exactly the codes reached by a link whose role is on one of the user's rows |
| Authority.AuthorityMembership | src/main/java/com/example/starter/rbac/user/service/CustomUserDetailsService.java:54-64 | an authority is `ROLE_` plus a granted role's code or a code reached through a granted role, and nothing else |
| Authority.SameRowsSameGrants | src/main/java/com/example/starter/auth/service/AuthService.java:76-90 | the grants depend only on which rows exist, not on how often or in what order |
| Authority.ReorderedRowsSameGrants | src/main/java/com/example/starter/rbac/user/service/CustomUserDetailsService.java:41-51 | permuting the association rows changes no role code, permission code or authority |
| Authority.DuplicatedRowsSameGrants | src/main/java/com/example/starter/rbac/user/service/CustomUserDetailsService.java:41-51 | a permission reached twice appears once: repeating every row changes no authority |
| Authority.AddingRoleRowMonotone | src/main/java/com/example/starter/rbac/user/service/CustomUserDetailsService.java:54-64 | adding a user-role row never removes a role, a code or an authority |
| Authority.NoRoleRowsNoAuthorities | src/main/java/com/example/starter/rbac/user/service/CustomUserDetailsService.java:40-64 | a user with no role rows has no roles, no permission codes and no authorities |
| Authority.ResolvedRoleIds | src/main/java/com/example/starter/rbac/user/service/CustomUserDetailsService.java:40-43 | when every role reference of the user resolves, the granted roles are exactly the roles the user's rows name |
| Authority.SoftDeletedTargetUnresolved | src/main/java/com/example/starter/auth/service/AuthService.java:76-90 | a row of the user naming a soft-deleted role breaks the role read, and a link from that row's role to a soft-deleted permission breaks the permission read |
| Authority.FreshUserSingleRole | src/main/java/com/example/starter/rbac/user/service/UserService.java:49-52 | an account created with one role row holds exactly that role and its code, and its role reference resolves exactly when that role is not deleted |
| CustomUserDetailsService.LoadUserByUsername | src/main/java/com/example/starter/rbac/user/service/CustomUserDetailsService.java:34-73 | an unknown or soft-deleted username throws `UsernameNotFoundException("User not found: " + username)`; otherwise a permission row of a role the user's rows name that points to a soft-deleted or removed permission throws `EntityNotFoundException` first (line 50), then a row naming such a role throws it (line 58); when every reference resolves, the answer holds the username, the password hash, exactly the user's authorities (the two loops are proved to build that set), `accountLocked` = locked and `disabled` = not enabled |
| AuthService.LoginOutcome | src/main/java/com/example/starter/auth/service/AuthService.java:45-68 | a rejected sign-in rethrows and changes nothing; with no non-deleted account UNAUTHORIZED and no token is added; otherwise exactly one unrevoked token for that account, expiring now + 7 days, is appended and returned with an access token for the username and type "Bearer" |
| AuthService.LoginKeepsConsistent | src/main/java/com/example/starter/auth/service/AuthService.java:57-61 | sign-in keeps the schema and the token strings distinct |
| AuthService.Login | src/main/java/com/example/starter/auth/service/AuthService.java:45-68 | the method leaves the tables and answers as `LoginOutcome` says |
| AuthService.Me | src/main/java/com/example/starter/auth/service/AuthService.java:70-98 | NOT_FOUND for an unknown or soft-deleted username; otherwise a row naming a soft-deleted or removed role throws `EntityNotFoundException` (line 85), then a permission row of such a role naming a soft-deleted or removed permission throws it (line 89); when every reference resolves, username, e-mail, and exactly the user's role-code and permission-code sets |
| AuthService.MeReportsGrantedCodes | src/main/java/com/example/starter/auth/service/AuthService.java:76-90 | a code is reported as a role, or as a permission, exactly when a row of the user grants it |
| AuthService.FindActiveToken | src/main/java/com/example/starter/auth/service/AuthService.java:102-104 | finds an unrevoked ledger entry with the token string, or reports that there is none |
| AuthService.Refresh | src/main/java/com/example/starter/auth/service/AuthService.java:100-120 | UNAUTHORIZED when no unrevoked entry has the string; on success the same refresh string, type "Bearer", and an access token for the username of a non-deleted owner, from an entry not expired at `now` |
| AuthService.RefreshOfEntry | src/main/java/com/example/starter/auth/service/AuthService.java:106-119 | for an unrevoked entry: expired (strictly before now) gives UNAUTHORIZED, an owner that is soft-deleted or missing gives `EntityNotFoundException`, otherwise success for the owner |
| AuthService.RefreshAcceptedAtExpiryInstant | src/main/java/com/example/starter/auth/service/AuthService.java:106 | a token is still accepted at the exact instant it expires |
| AuthService.RefreshRepeatable | src/main/java/com/example/starter/auth/service/AuthService.java:100-120 | refresh neither rotates nor revokes: a refresh that succeeded succeeds again until expiry, with the same string |
| AuthService.LoginThenRefresh | src/main/java/com/example/starter/auth/service/AuthService.java:57-61 | the token `login` appends for a non-deleted account refreshes successfully exactly until now + 7 days |
| AuthController.BearerToken | src/main/java/com/example/starter/auth/controller/AuthController.java:45-49 | accepts exactly a header starting with "Bearer " (case and space included), and the token is the rest; anything else is UNAUTHORIZED |
| AuthController.BearerTokenRoundTrip | src/main/java/com/example/starter/auth/controller/AuthController.java:49 | "Bearer " + t yields t |
| AuthController.LowerCaseSchemeRejected | src/main/java/com/example/starter/auth/controller/AuthController.java:45 | a lower-case "bearer " header is refused |
| AuthController.Me | src/main/java/com/example/starter/auth/controller/AuthController.java:41-58 | a bad header is UNAUTHORIZED before any token check, a token that fails validation is UNAUTHORIZED before its subject is read, otherwise the answer is `me` of the token's subject |
| AuthController.MeWithValidBearer | src/main/java/com/example/starter/auth/controller/AuthController.java:55-57 | a valid token for an existing account answers a profile exactly when the account's role and permission references resolve, and that profile carries the token's subject |
| AuthController.Refresh | src/main/java/com/example/starter/auth/controller/AuthController.java:36-39 | unaudited pass-through; a success answers the same refresh string |
| AuthController.LoginEntryNamesSubmittedUser | src/main/java/com/example/starter/auth/controller/AuthController.java:30-31 | an anonymous sign-in is audited as "LOGIN" under the submitted username, trimmed |
| AuthController.Login | src/main/java/com/example/starter/auth/controller/AuthController.java:30-34 | sign-in wrapped by the audit interceptor with action "LOGIN" |
| AuditLogAspect.OfferedUsername | src/main/java/com/example/starter/audit/aspect/AuditLogAspect.java:78-96 | an argument offers a username only when `getUsername` returns a String that trims to something non-empty, and the offer is trimmed |
| AuditLogAspect.FirstOffer | src/main/java/com/example/starter/audit/aspect/AuditLogAspect.java:78-97 | the index of the first argument that offers a username, or none offers one |
| AuditLogAspect.ResolveUsername | src/main/java/com/example/starter/audit/aspect/AuditLogAspect.java:66-101 | an authenticated, named, non-anonymous principal is the actor whatever the arguments; otherwise the first offered username; otherwise "anonymousUser" |
| AuditLogAspect.PrincipalIsActor | src/main/java/com/example/starter/audit/aspect/AuditLogAspect.java:68-71 | the principal is used when it is present, authenticated, named, and not "anonymousUser" |
| AuditLogAspect.ArgumentNamesActor | src/main/java/com/example/starter/audit/aspect/AuditLogAspect.java:76-97 | with no principal, the first argument that offers a username names the actor |
| AuditLogAspect.FirstOfferAt | src/main/java/com/example/starter/audit/aspect/AuditLogAspect.java:78-90 | the first offering argument is the one found |
| AuditLogAspect.ActorLink | src/main/java/com/example/starter/audit/aspect/AuditLogAspect.java:43-46 | the account link is set only for a non-anonymous actor with a non-deleted account of that name |
| AuditLogAspect.Entry | src/main/java/com/example/starter/audit/aspect/AuditLogAspect.java:28-46 | the record made before the call: time, action, resolved actor, address, path and method, status SUCCESS, no message, and the actor's account link |
| AuditLogAspect.FailedEntry | src/main/java/com/example/starter/audit/aspect/AuditLogAspect.java:53-55 | the entry as the catch block saves it: status FAILED, the exception's message, an event time, and every other field as built before the call |
| AuditLogAspect.Recovery | src/main/java/com/example/starter/audit/aspect/AuditLogAspect.java:52-57 | the catch: the entry, marked FAILED with the exception's message and stamped, is stored exactly once and the same exception is rethrown; if that save throws, nothing is stored and the save's exception leaves instead |
| AuditLogAspect.Completion | src/main/java/com/example/starter/audit/aspect/AuditLogAspect.java:48-57 | the call's answer comes back unchanged, with its one stamped SUCCESS record, exactly when the call returned and that save did not throw; a throwing call stores one FAILED record with its message and is rethrown; a SUCCESS save that throws is handled like a throwing call, so one FAILED record with the save's message is stored and the save's exception leaves; a FAILED save that throws stores nothing and its exception leaves |
| AuditLogAspect.Begin | src/main/java/com/example/starter/audit/aspect/AuditLogAspect.java:28-46 | the new record object holds `Entry` |
| AuditLogAspect.Recover | src/main/java/com/example/starter/audit/aspect/AuditLogAspect.java:52-57 | the method appends and answers as `Recovery` says |
| AuditLogAspect.Complete | src/main/java/com/example/starter/audit/aspect/AuditLogAspect.java:48-57 | the method appends and answers as `Completion` says |
| AuditLogAspect.Around | src/main/java/com/example/starter/audit/aspect/AuditLogAspect.java:26-58 | the whole interceptor: the audit store gains what `Completion` of `Entry` says, and the answer is its result |
| AuditLogService.AuditLog.constructor | src/main/java/com/example/starter/audit/aspect/AuditLogAspect.java:34-41 | a record object holding the given fields, with no account link and no message |
| AuditLogService.AuditLog.Record | src/main/java/com/example/starter/audit/entity/AuditLog.java:22-48 | the nine columns of the `audit_logs` row that saving the entry stores |
| AuditLogService.Stamped | src/main/java/com/example/starter/audit/service/AuditLogService.java:19-21 | a missing event time becomes now, a present one is kept, and no other field changes |
| AuditLogService.Log | src/main/java/com/example/starter/audit/service/AuditLogService.java:18-23 | the record is stamped and exactly one record is appended, or the save throws and the store is unchanged |
| RoleService.FindById | src/main/java/com/example/starter/rbac/role/service/RoleService.java:32-37 | NOT_FOUND exactly when no non-deleted role has the identity; otherwise its fields |
| RoleService.FindAll | src/main/java/com/example/starter/rbac/role/service/RoleService.java:24-30 | exactly the non-deleted roles |
| RoleService.ToResponse | src/main/java/com/example/starter/rbac/role/service/RoleService.java:98-105 | the response carries the role's identity, code, name and description |
| RoleService.CreateOutcome | src/main/java/com/example/starter/rbac/role/service/RoleService.java:39-54 | BAD_REQUEST when a non-deleted role holds the code; a code held only by a deleted role breaks the unique column; a code no row holds adds exactly one role with the given fields; failure changes nothing; uniqueness is kept |
| RoleService.Create | src/main/java/com/example/starter/rbac/role/service/RoleService.java:39-54 | the method does what `CreateOutcome` says |
| RoleService.CreatedRoleIsFound | src/main/java/com/example/starter/rbac/role/service/RoleService.java:39-54 | a created role is found by identity and by code |
| RoleService.UpdateOutcome | src/main/java/com/example/starter/rbac/role/service/RoleService.java:56-75 | NOT_FOUND for an absent role; keeping the code always succeeds; a new code a non-deleted role holds is BAD_REQUEST; a new code held only by a deleted role breaks the unique column; success overwrites code, name and description of that role only; a failure changes nothing |
| RoleService.Update | src/main/java/com/example/starter/rbac/role/service/RoleService.java:56-75 | the method does what `UpdateOutcome` says |
| RoleService.DeleteOutcome | src/main/java/com/example/starter/rbac/role/service/RoleService.java:80-85 | NOT_FOUND when absent; otherwise the row is kept and stamped deleted |
| RoleService.Delete | src/main/java/com/example/starter/rbac/role/service/RoleService.java:80-85 | the method does what `DeleteOutcome` says |
| RoleService.DeletedRoleHidden | src/main/java/com/example/starter/rbac/role/service/RoleService.java:80-85 | a deleted role stays stored but is found neither by identity nor by code, and re-creating its code breaks the unique column |
| RoleService.HardDeleteOutcome | src/main/java/com/example/starter/rbac/role/service/RoleService.java:90-96 | NOT_FOUND when absent; otherwise the row is removed |
| RoleService.HardDelete | src/main/java/com/example/starter/rbac/role/service/RoleService.java:90-96 | the method does what `HardDeleteOutcome` says |
| RoleService.HardDeleteFreesCode | src/main/java/com/example/starter/rbac/role/service/RoleService.java:90-96 | after a hard delete the code can be created again |
| PermissionService.FindById | src/main/java/com/example/starter/rbac/permission/service/PermissionService.java:32-37 | NOT_FOUND exactly when no non-deleted permission has the identity; otherwise its fields |
| PermissionService.FindAll | src/main/java/com/example/starter/rbac/permission/service/PermissionService.java:24-30 | exactly the non-deleted permissions |
| PermissionService.ToResponse | src/main/java/com/example/starter/rbac/permission/service/PermissionService.java:94-100 | the response carries the permission's identity, code and description |
| PermissionService.CreateOutcome | src/main/java/com/example/starter/rbac/permission/service/PermissionService.java:39-52 | BAD_REQUEST when a non-deleted permission holds the code; otherwise one permission with the code and description, or the unique column's failure, and failure changes nothing |
| PermissionService.Create | src/main/java/com/example/starter/rbac/permission/service/PermissionService.java:39-52 | the method does what `CreateOutcome` says |
| PermissionService.UpdateOutcome | src/main/java/com/example/starter/rbac/permission/service/PermissionService.java:54-71 | NOT_FOUND when absent; the same code is allowed; a code another non-deleted permission holds is BAD_REQUEST; a code held only by a deleted permission breaks the unique column; success overwrites code and description only; a failure changes nothing |
| PermissionService.Update | src/main/java/com/example/starter/rbac/permission/service/PermissionService.java:54-71 | the method does what `UpdateOutcome` says |
| PermissionService.UpdateWithSameValuesIsIdentity | src/main/java/com/example/starter/rbac/permission/service/PermissionService.java:54-71 | updating with the stored values changes nothing and answers the stored permission |
| PermissionService.DeleteOutcome | src/main/java/com/example/starter/rbac/permission/service/PermissionService.java:76-81 | NOT_FOUND when absent; otherwise a soft delete |
| PermissionService.Delete | src/main/java/com/example/starter/rbac/permission/service/PermissionService.java:76-81 | the method does what `DeleteOutcome` says |
| PermissionService.DeleteTwiceNotFound | src/main/java/com/example/starter/rbac/permission/service/PermissionService.java:76-81 | deleting again is NOT_FOUND |
| PermissionService.HardDeleteOutcome | src/main/java/com/example/starter/rbac/permission/service/PermissionService.java:86-92 | NOT_FOUND when absent; otherwise the row is removed |
| PermissionService.HardDelete | src/main/java/com/example/starter/rbac/permission/service/PermissionService.java:86-92 | the method does what `HardDeleteOutcome` says |
| PermissionService.SoftDeletedCannotBeHardDeleted | src/main/java/com/example/starter/rbac/permission/service/PermissionService.java:86-92 | a soft-deleted permission is NOT_FOUND for hard delete and its row stays |
| UserService.ToResponse | src/main/java/com/example/starter/rbac/user/service/UserService.java:72-86 | throws `EntityNotFoundException` exactly when a row of the account names a soft-deleted or removed role; otherwise the account's fields, and as roles exactly the codes of the roles on its rows |
| UserService.FindById | src/main/java/com/example/starter/rbac/user/service/UserService.java:65-70 | NOT_FOUND exactly when no non-deleted account has the identity; otherwise what `toResponse` answers, including its `EntityNotFoundException` |
| UserService.FindAll | src/main/java/com/example/starter/rbac/user/service/UserService.java:57-63 | throws `EntityNotFoundException` exactly when some non-deleted account has a row naming a soft-deleted or removed role; otherwise exactly the non-deleted accounts, each as `findById` answers it |
| UserService.NewAccount | src/main/java/com/example/starter/rbac/user/service/UserService.java:38-44 | the username, e-mail and encoded password, enabled and unlocked |
| UserService.CreateAdminOutcome | src/main/java/com/example/starter/rbac/user/service/UserService.java:32-55 | BAD_REQUEST for a username a non-deleted account holds; a missing ADMIN role is BAD_REQUEST with the saved account rolled back; success adds the account and exactly one row to ADMIN; every failure changes nothing |
| UserService.CreateAdmin | src/main/java/com/example/starter/rbac/user/service/UserService.java:32-55 | the transactional method does what `CreateAdminOutcome` says |
| UserService.CreatedAdminIsFound | src/main/java/com/example/starter/rbac/user/service/UserService.java:32-70 | the created account is found by username and by identity, with the response returned |
| UserService.HardDeleteOutcome | src/main/java/com/example/starter/rbac/user/service/UserService.java:88-94 | NOT_FOUND when absent; otherwise the row is removed |
| UserService.HardDelete | src/main/java/com/example/starter/rbac/user/service/UserService.java:88-94 | the method does what `HardDeleteOutcome` says |
| UserService.HardDeleteFreesUsername | src/main/java/com/example/starter/rbac/user/service/UserService.java:88-94 | after a hard delete the username (with no e-mail) can be created again, exactly when the ADMIN role is found |
| ItemService.NarrowToInt | src/main/java/com/example/starter/feature/item/service/ItemService.java:52 | the `(int)` cast: an `int` equal to the `long` modulo 2^32, and the same value when it fits |
| ItemService.WidenStock | src/main/java/com/example/starter/feature/item/service/ItemService.java:105-106 | a stored stock widens unchanged, and a null stock reads as 0 |
| ItemService.StockRoundTrip | src/main/java/com/example/starter/feature/item/service/ItemService.java:52 | narrowing then widening gives the value back exactly when it lies in the `int` range, and otherwise differs by a multiple of 2^32 |
| ItemService.StockWrapsAround | src/main/java/com/example/starter/feature/item/service/ItemService.java:52 | 2^31 stores as -2^31, and 2^32 + 5 stores as 5 |
| ItemService.ToResponse | src/main/java/com/example/starter/feature/item/service/ItemService.java:103-115 | the item's fields, and its stock widened |
| ItemService.FindById | src/main/java/com/example/starter/feature/item/service/ItemService.java:32-37 | NOT_FOUND exactly when no non-deleted item has the identity |
| ItemService.FindAll | src/main/java/com/example/starter/feature/item/service/ItemService.java:24-30 | exactly the non-deleted items |
| ItemService.RowFor | src/main/java/com/example/starter/feature/item/service/ItemService.java:48-52 | the request's fields, with the stock narrowed |
| ItemService.CreateOutcome | src/main/java/com/example/starter/feature/item/service/ItemService.java:39-56 | BAD_REQUEST and no change when a non-deleted item holds the code; otherwise one item with the narrowed stock, or the unique column's failure |
| ItemService.Create | src/main/java/com/example/starter/feature/item/service/ItemService.java:39-56 | the method does what `CreateOutcome` says |
| ItemService.CreateThenFind | src/main/java/com/example/starter/feature/item/service/ItemService.java:39-56 | a created item is found with its fields, and with the requested stock exactly when that stock fits an `int` |
| ItemService.UpdateOutcome | src/main/java/com/example/starter/feature/item/service/ItemService.java:58-78 | NOT_FOUND when absent; the same code is allowed; a code another non-deleted item holds is BAD_REQUEST; a code held only by a deleted item breaks the unique column; success overwrites code, name, description and the narrowed stock; a failure changes nothing |
| ItemService.Update | src/main/java/com/example/starter/feature/item/service/ItemService.java:58-78 | the method does what `UpdateOutcome` says |
| ItemService.UpdateLeavesOthers | src/main/java/com/example/starter/feature/item/service/ItemService.java:58-78 | updating one item leaves every other item's look-up answer as it was |
| ItemService.DeleteOutcome | src/main/java/com/example/starter/feature/item/service/ItemService.java:83-89 | NOT_FOUND when absent; otherwise a soft delete |
| ItemService.Delete | src/main/java/com/example/starter/feature/item/service/ItemService.java:83-89 | the method does what `DeleteOutcome` says |
| ItemService.DeletedItemHidden | src/main/java/com/example/starter/feature/item/service/ItemService.java:83-89 | a deleted item is not found, its code is not seen by the duplicate check, and re-creating it breaks the unique column |
| ItemService.HardDeleteOutcome | src/main/java/com/example/starter/feature/item/service/ItemService.java:94-101 | NOT_FOUND when absent; otherwise the row is removed |
| ItemService.HardDelete | src/main/java/com/example/starter/feature/item/service/ItemService.java:94-101 | the method does what `HardDeleteOutcome` says |
| ItemService.ItemArguments | src/main/java/com/example/starter/feature/item/service/ItemService.java:39 | item operations' arguments offer no username |
| ItemService.ItemEntryNamesPrincipal | src/main/java/com/example/starter/audit/aspect/AuditLogAspect.java:66-101 | an audited item operation is recorded under the principal, or "anonymousUser" |
| ItemService.AsResult | src/main/java/com/example/starter/feature/item/service/ItemService.java:83-89 | a `void` outcome as a result, failing exactly when it failed, with the same exception |
| ItemService.AuditedCreate | src/main/java/com/example/starter/feature/item/service/ItemService.java:39-56 | create wrapped by the interceptor as "CREATE_ITEM" |
| ItemService.AuditedUpdate | src/main/java/com/example/starter/feature/item/service/ItemService.java:58-78 | update wrapped as "UPDATE_ITEM" |
| ItemService.AuditedDelete | src/main/java/com/example/starter/feature/item/service/ItemService.java:83-89 | delete wrapped as "DELETE_ITEM" |
| ItemService.AuditedHardDelete | src/main/java/com/example/starter/feature/item/service/ItemService.java:94-101 | hard delete wrapped as "HARD_DELETE_ITEM" |
| DataInitializer.EnsureRoleOutcome | src/main/java/com/example/starter/bootstrap/DataInitializer.java:90-97 | find-or-create of one role: a non-deleted role is kept as it is; otherwise one role is saved, which fails exactly when a deleted role holds the code; no stored role changes |
| DataInitializer.EnsureRole | src/main/java/com/example/starter/bootstrap/DataInitializer.java:90-97 | the method does what `EnsureRoleOutcome` says |
| DataInitializer.SeedRolesOutcome | src/main/java/com/example/starter/bootstrap/DataInitializer.java:89-107 | on success ADMIN and USER are both found; when both already are, nothing changes; only roles coded ADMIN or USER are added |
| DataInitializer.SeedRoles | src/main/java/com/example/starter/bootstrap/DataInitializer.java:89-107 | the method does what `SeedRolesOutcome` says |
| DataInitializer.SeededDescription | src/main/java/com/example/starter/bootstrap/DataInitializer.java:130 | the code with each "_" replaced by a space |
| DataInitializer.EnsurePermissionOutcome | src/main/java/com/example/starter/bootstrap/DataInitializer.java:123-133 | find-or-create of one permission: an existing one is answered unchanged; otherwise a new one with the seeded description gets the next identity, or the unique column fails |
| DataInitializer.EnsurePermission | src/main/java/com/example/starter/bootstrap/DataInitializer.java:123-133 | the method does what `EnsurePermissionOutcome` says |
| DataInitializer.SeedPermissionsOutcome | src/main/java/com/example/starter/bootstrap/DataInitializer.java:112-137 | only the permission table and the identity counter change, and no stored permission is altered |
| DataInitializer.SeedPermissions | src/main/java/com/example/starter/bootstrap/DataInitializer.java:112-137 | the loop that fills the map does what `SeedPermissionsOutcome` says |
| DataInitializer.SeededPermissionsFound | src/main/java/com/example/starter/bootstrap/DataInitializer.java:113-136 | the map is keyed by exactly the listed codes, and sends each to the non-deleted permission with that code |
| DataInitializer.SeededKeys | src/main/java/com/example/starter/bootstrap/DataInitializer.java:122-134 | the map's keys are exactly the codes |
| DataInitializer.SeededFound | src/main/java/com/example/starter/bootstrap/DataInitializer.java:122-134 | every entry of the map is found by its code |
| DataInitializer.FoundAfterEnsure | src/main/java/com/example/starter/bootstrap/DataInitializer.java:123-133 | one find-or-create step keeps every earlier entry found |
| DataInitializer.FoundStaysFound | src/main/java/com/example/starter/bootstrap/DataInitializer.java:123 | a permission found by code stays found while its row is kept |
| DataInitializer.SeededPermissionsDescribed | src/main/java/com/example/starter/bootstrap/DataInitializer.java:128-131 | every new permission has a listed code and the code, with underscores as spaces, as its description |
| DataInitializer.SeedPermissionsFailureSticks | src/main/java/com/example/starter/bootstrap/DataInitializer.java:122-134 | a failing save ends the seeding |
| DataInitializer.SeedPermissionsStep | src/main/java/com/example/starter/bootstrap/DataInitializer.java:122-134 | one more code is one more find-or-create step and one more map entry |
| DataInitializer.SeedPermissionsRerun | src/main/java/com/example/starter/bootstrap/DataInitializer.java:112-137 | seeding the permissions again adds nothing and answers the same map |
| DataInitializer.SeedingFoundCodes | src/main/java/com/example/starter/bootstrap/DataInitializer.java:122-134 | when every code is already found, seeding changes nothing |
| DataInitializer.AllFoundSeedsNothing | src/main/java/com/example/starter/bootstrap/DataInitializer.java:122-134 | the same, one prefix of the codes at a time |
| DataInitializer.SeedPermissionsFoundStep | src/main/java/com/example/starter/bootstrap/DataInitializer.java:125-126 | an already found code adds only its map entry |
| DataInitializer.AdminLinks | src/main/java/com/example/starter/bootstrap/DataInitializer.java:155-160 | one ADMIN link per permission of the map, in iteration order |
| DataInitializer.ReadLinks | src/main/java/com/example/starter/bootstrap/DataInitializer.java:163-171 | links for USER only, at most one per map entry |
| DataInitializer.ReadLinksMembership | src/main/java/com/example/starter/bootstrap/DataInitializer.java:163-171 | USER is linked exactly to the permissions whose code ends in "_READ" |
| DataInitializer.SeedRolePermissionsOutcome | src/main/java/com/example/starter/bootstrap/DataInitializer.java:143-172 | with either role missing nothing is written; otherwise the ADMIN links, then the USER links, are appended with no existence check |
| DataInitializer.LinkedTablesConsistent | src/main/java/com/example/starter/bootstrap/DataInitializer.java:143-172 | the appended links keep the schema invariants |
| DataInitializer.LinksBelow | src/main/java/com/example/starter/bootstrap/DataInitializer.java:155-171 | every appended link refers to issued identities |
| DataInitializer.LinksStep | src/main/java/com/example/starter/bootstrap/DataInitializer.java:155-171 | one more iterated entry adds its ADMIN link, and its USER link when the code ends in "_READ" |
| DataInitializer.AdminLinksAppend | src/main/java/com/example/starter/bootstrap/DataInitializer.java:155-160 | saving one more ADMIN link extends the appended links by that entry |
| DataInitializer.ReadLinksAppend | src/main/java/com/example/starter/bootstrap/DataInitializer.java:163-171 | saving a USER link for a "_READ" code, or skipping another code, extends the appended links by that entry |
| DataInitializer.SeedAdminLinks | src/main/java/com/example/starter/bootstrap/DataInitializer.java:155-160 | the first loop appends exactly the ADMIN links |
| DataInitializer.SeedReadLinks | src/main/java/com/example/starter/bootstrap/DataInitializer.java:163-171 | the second loop appends exactly the USER links |
| DataInitializer.SeedRolePermissions | src/main/java/com/example/starter/bootstrap/DataInitializer.java:143-172 | the method does what `SeedRolePermissionsOutcome` says |
| DataInitializer.SeededLinks | src/main/java/com/example/starter/bootstrap/DataInitializer.java:155-171 | ADMIN is linked to every permission of the map, USER to every "_READ" one, and every new link is one of those |
| DataInitializer.AppendedLinks | src/main/java/com/example/starter/bootstrap/DataInitializer.java:155-171 | the same, for any table the links are appended to |
| DataInitializer.SeededReadCodes | src/main/java/com/example/starter/bootstrap/DataInitializer.java:39-77 | exactly five of the listed codes end in "_READ" |
| DataInitializer.AdminAccount | src/main/java/com/example/starter/bootstrap/DataInitializer.java:180-185 | "admin", "admin@example.com", the encoded "admin123", enabled and unlocked |
| DataInitializer.SeedAdminUserOutcome | src/main/java/com/example/starter/bootstrap/DataInitializer.java:174-198 | nothing when a non-deleted "admin" exists; the save fails exactly when a deleted row holds the username or e-mail; otherwise the account is added, with one row to ADMIN when that role is found, so that it holds exactly the ADMIN role, and no authority otherwise |
| DataInitializer.SeedAdminUser | src/main/java/com/example/starter/bootstrap/DataInitializer.java:174-198 | the method does what `SeedAdminUserOutcome` says |
| DataInitializer.SaveItemOutcome | src/main/java/com/example/starter/bootstrap/DataInitializer.java:224 | one item save fails exactly when any stored row holds its code; otherwise it takes the next identity |
| DataInitializer.SaveKeepsConsistent | src/main/java/com/example/starter/bootstrap/DataInitializer.java:224 | an item save keeps the schema invariants |
| DataInitializer.SaveKeepsOtherCodes | src/main/java/com/example/starter/bootstrap/DataInitializer.java:224-226 | an item save does not change whether another code is stored |
| DataInitializer.SeedSampleItemsOutcome | src/main/java/com/example/starter/bootstrap/DataInitializer.java:200-227 | nothing happens when a non-deleted item exists; only the item table changes |
| DataInitializer.SaveThreeOutcome | src/main/java/com/example/starter/bootstrap/DataInitializer.java:224-226 | three saves in turn change only the item table |
| DataInitializer.SaveThreeConsistent | src/main/java/com/example/starter/bootstrap/DataInitializer.java:224-226 | three saves keep the schema invariants |
| DataInitializer.ThreeSavesPass | src/main/java/com/example/starter/bootstrap/DataInitializer.java:224-226 | three saves of distinct codes all succeed exactly when none of the codes is stored |
| DataInitializer.ThreeSavesAdd | src/main/java/com/example/starter/bootstrap/DataInitializer.java:224-226 | successful saves add the three items under three consecutive identities |
| DataInitializer.SampleItemsSaved | src/main/java/com/example/starter/bootstrap/DataInitializer.java:202-226 | on an empty visible table, ITEM-001..003 (stock 10, 20, 30) are added exactly when no stored row, deleted or not, holds their codes |
| DataInitializer.SampleItemsCounted | src/main/java/com/example/starter/bootstrap/DataInitializer.java:202-204 | after the samples are saved the table counts as non-empty, so seeding items again does nothing |
| DataInitializer.VisibleRowCounted | src/main/java/com/example/starter/bootstrap/DataInitializer.java:202 | a non-deleted item makes `count()` positive |
| DataInitializer.SeedSampleItems | src/main/java/com/example/starter/bootstrap/DataInitializer.java:200-227 | the method does what `SeedSampleItemsOutcome` says |
| DataInitializer.SeedCatalogOutcome | src/main/java/com/example/starter/bootstrap/DataInitializer.java:82-83 | roles, then permissions: on success both roles are found and the map sends each listed code to its found permission |
| DataInitializer.CatalogAlreadySeeded | src/main/java/com/example/starter/bootstrap/DataInitializer.java:82-83 | with both roles and every code already found, the catalog steps change nothing |
| DataInitializer.SeedRestOutcome | src/main/java/com/example/starter/bootstrap/DataInitializer.java:84-86 | links, admin account, then sample items; a failure is a unique-column violation |
| DataInitializer.RestPassed | src/main/java/com/example/starter/bootstrap/DataInitializer.java:84-86 | when these last steps pass, the links are appended, "admin" exists and holds ADMIN when it was created, and the items are non-empty |
| DataInitializer.RestWhenSeeded | src/main/java/com/example/starter/bootstrap/DataInitializer.java:84-86 | with "admin" and items present, the last steps only append the links |
| DataInitializer.SeedAllOutcome | src/main/java/com/example/starter/bootstrap/DataInitializer.java:79-87 | the transactional run over given codes: a failure leaves every table as it was |
| DataInitializer.RunOutcome | src/main/java/com/example/starter/bootstrap/DataInitializer.java:79-87 | the run over the 21 listed codes: a failure leaves every table as it was |
| DataInitializer.RunFinds | src/main/java/com/example/starter/bootstrap/DataInitializer.java:79-87 | after a successful run ADMIN, USER, every listed permission and "admin" are found and the item table is non-empty |
| DataInitializer.Run | src/main/java/com/example/starter/bootstrap/DataInitializer.java:79-87 | the method does what `RunOutcome` says |
| DataInitializer.SeedAll | src/main/java/com/example/starter/bootstrap/DataInitializer.java:79-87 | the method does what `SeedAllOutcome` says, rolling back on failure |
| DataInitializer.GrantedThroughRole | src/main/java/com/example/starter/rbac/user/service/CustomUserDetailsService.java:54-64 | an account linked to a role holds that role's authority and every code the role is linked to |
| DataInitializer.AdminLinkedAfterCatalog | src/main/java/com/example/starter/bootstrap/DataInitializer.java:155-160 | after the links are seeded ADMIN is linked to a permission for every listed code |
| DataInitializer.SeedAllGrantsAdminEverything | src/main/java/com/example/starter/bootstrap/DataInitializer.java:79-87 | a run that creates "admin" gives it ROLE_ADMIN and every listed permission code as authorities |
| DataInitializer.RunGrantsAdminEverything | src/main/java/com/example/starter/bootstrap/DataInitializer.java:79-87 | the same for the 21 listed codes |
| DataInitializer.SeedAllPassed | src/main/java/com/example/starter/bootstrap/DataInitializer.java:79-87 | a passing run passed its catalog steps and is the last steps applied to their result |
| DataInitializer.CatalogKeys | src/main/java/com/example/starter/bootstrap/DataInitializer.java:112-137 | the map the catalog answers is iterated once per key and refers to stored permissions |
| DataInitializer.SeedAllFinds | src/main/java/com/example/starter/bootstrap/DataInitializer.java:79-87 | after a passing run everything it seeds is found |
| DataInitializer.RestLinksAgain | src/main/java/com/example/starter/bootstrap/DataInitializer.java:143-172 | seeding the links a second time appends the same links again |
| DataInitializer.SeedAllLinksAgain | src/main/java/com/example/starter/bootstrap/DataInitializer.java:143-172 | the same for a whole run |
| DataInitializer.SeedAllWhenSeeded | src/main/java/com/example/starter/bootstrap/DataInitializer.java:79-87 | on an already seeded database a run only appends the links |
| DataInitializer.SeedAllTwice | src/main/java/com/example/starter/bootstrap/DataInitializer.java:79-87 | a second run passes, duplicates exactly the links the first one appended and nothing else, and changes no account's authorities |
| DataInitializer.SeedAllAgainGrows | src/main/java/com/example/starter/bootstrap/DataInitializer.java:143-172 | seeding is not idempotent: the link table grows on every run |
| DataInitializer.SeedAllAgainKeepsGrants | src/main/java/com/example/starter/auth/service/AuthService.java:88-90 | the duplicated links change no account's authorities |
| DataInitializer.TailAgainKeepsGrants | src/main/java/com/example/starter/auth/service/AuthService.java:88-90 | repeating a tail of the link table changes no authority |
| DataInitializer.SeedAllAgain | src/main/java/com/example/starter/bootstrap/DataInitializer.java:79-87 | a second run passes, re-appends exactly the links the first run appended, and changes nothing else |
| DataInitializer.RepeatedLinksKeepGrants | src/main/java/com/example/starter/rbac/user/service/CustomUserDetailsService.java:49-51 | appending links that already exist changes no authority |
| DataInitializer.RunTwice | src/main/java/com/example/starter/bootstrap/DataInitializer.java:79-87 | running the initializer twice passes, grows the link table, duplicates the first run's links and changes no authority |
| DataInitializer.RoleNamespaceCollision | src/main/java/com/example/starter/rbac/user/service/CustomUserDetailsService.java:57-64 | a role coded "READ" yields the authority "ROLE_READ", which is also a seeded permission code: role and permission authorities share one namespace |
| ExcelResult.ExcelImportResult.constructor | src/main/java/com/example/starter/common/excel/ExcelImportResult.java:28-44 | zero counters and an empty error list |
| ExcelResult.ExcelImportResult.WithFields | src/main/java/com/example/starter/common/excel/ExcelImportResult.java:28-44 | the all-arguments constructor holds the given values |
| ExcelResult.ExcelImportResult.IncrementSuccess | src/main/java/com/example/starter/common/excel/ExcelImportResult.java:46-48 | only the success counter rises, by one |
| ExcelResult.ExcelImportResult.IncrementFailed | src/main/java/com/example/starter/common/excel/ExcelImportResult.java:50-52 | only the failed counter rises, by one |
| ExcelResult.ExcelImportResult.IncrementTotalRows | src/main/java/com/example/starter/common/excel/ExcelImportResult.java:54-56 | only the row counter rises, by one |
| ExcelResult.ExcelImportResult.AddError | src/main/java/com/example/starter/common/excel/ExcelImportResult.java:58-63 | exactly one error with the given row and message is appended after the earlier ones; a null list becomes a one-error list |
| ExcelImport.CellText | src/main/java/com/example/starter/common/excel/ExcelImportService.java:217-262 | null exactly for a missing, BLANK, `_NONE` or ERROR cell or a formula with no value; a STRING cell's own text |
| ExcelImport.IsRowEmpty | src/main/java/com/example/starter/common/excel/ExcelImportService.java:194-209 | the loop answers true exactly for a missing row or one whose every cell is missing, BLANK, or renders to null or whitespace |
| ExcelImport.RowCountsIffSomeText | src/main/java/com/example/starter/common/excel/ExcelImportService.java:194-209 | a row counts exactly when some cell renders to text with a non-trimmable character, so a BOOLEAN cell always counts |
| ExcelImport.HeaderCheckFrom | src/main/java/com/example/starter/common/excel/ExcelImportService.java:176-187 | the column-by-column check from a given column; every failure is BAD_REQUEST |
| ExcelImport.HeaderCheckFromPasses | src/main/java/com/example/starter/common/excel/ExcelImportService.java:176-187 | from a column on, the header check passes exactly when every column from there matches |
| ExcelImport.HeaderCheckFromFails | src/main/java/com/example/starter/common/excel/ExcelImportService.java:176-187 | from a column on, a failure is the error of the first column from there that does not match, every column before it matching |
| ExcelImport.HeaderCheck | src/main/java/com/example/starter/common/excel/ExcelImportService.java:170-189 | every failure is BAD_REQUEST |
| ExcelImport.HeaderCheckMeaning | src/main/java/com/example/starter/common/excel/ExcelImportService.java:170-189 | passes exactly when the header row exists and every column matches; a missing row has its own error; otherwise the error names the first mismatching column, 1-based, with the expected name and the cell's text or "null" |
| ExcelImport.HeaderCheckAt | src/main/java/com/example/starter/common/excel/ExcelImportService.java:176-187 | when the columns before `i` match and column `i` is past the end or mismatches, the outcome is a pass or the error for column `i` |
| ExcelImport.HeaderCheckFromAt | src/main/java/com/example/starter/common/excel/ExcelImportService.java:176-187 | the same stop rule as `HeaderCheckAt`, from any starting column |
| ExcelImport.ValidateHeaderRow | src/main/java/com/example/starter/common/excel/ExcelImportService.java:170-189 | the early-exit loop answers `HeaderCheck` |
| ExcelImport.Summarize | src/main/java/com/example/starter/common/excel/ExcelImportService.java:142 | the result object the import returns: the three counters and the errors collected |
| ExcelImport.Flush | src/main/java/com/example/starter/common/excel/ExcelImportService.java:126-134 | a full buffer is handed to the saver and cleared; a saver that throws adds a failure and an error for the row and keeps the buffer; `StepBatches` and `SaveFailureCountsRowTwice` state the effect |
| ExcelImport.StepRow | src/main/java/com/example/starter/common/excel/ExcelImportService.java:107-134 | one pass of the loop; `StepAccounting`, `StepBatches` and `StepErrors` state what it does to the counters, the batches and the errors |
| ExcelImport.Scan | src/main/java/com/example/starter/common/excel/ExcelImportService.java:106-135 | the loop over rows `first` up to the last row; `ScanAccounting`, `ScanBatches` and `ScanErrorRows` state its result |
| ExcelImport.FirstDataRow | src/main/java/com/example/starter/common/excel/ExcelImportService.java:103 | `headerRowIndex + 1` on a Java `int` index: again a Java `int`, congruent to the true sum modulo 2^32, so the maximum index wraps to the minimum and every other index is followed by the next |
| ExcelImport.NoRejections | src/main/java/com/example/starter/common/excel/ExcelImportService.java:126-134 | a saver that never throws rejects no batch |
| ExcelImport.StepAccounting | src/main/java/com/example/starter/common/excel/ExcelImportService.java:106-135 | one pass of the loop counts a non-blank row once, succeeds exactly for a non-null mapped value, adds one error per failure, and a failure is extra only when a save threw |
| ExcelImport.ScanAccounting | src/main/java/com/example/starter/common/excel/ExcelImportService.java:106-135 | after the loop: rows = counted rows, successes = mapped values, failures = errors, and successes + failures = rows + rejected saves |
| ExcelImport.SuccessAndFailedAddUp | src/main/java/com/example/starter/common/excel/ExcelImportService.java:106-135 | when the saver never throws, successes + failures = rows |
| ExcelImport.StepBatches | src/main/java/com/example/starter/common/excel/ExcelImportService.java:116-130 | a pass hands the saver full batches only, keeps the buffer below the batch size, and loses or reorders no value |
| ExcelImport.ScanBatches | src/main/java/com/example/starter/common/excel/ExcelImportService.java:106-135 | with a saver that never throws, the batches then the buffer are exactly the mapped values in row order, every batch holding exactly `batchSize` values |
| ExcelImport.StepErrors | src/main/java/com/example/starter/common/excel/ExcelImportService.java:121-133 | a pass keeps earlier errors, adds errors only for a non-blank row, and numbers them with the 0-based index + 1 |
| ExcelImport.ErrorsAppended | src/main/java/com/example/starter/common/excel/ExcelImportService.java:121-133 | errors added for a later row keep row numbers in range and in order |
| ExcelImport.ScanErrorRows | src/main/java/com/example/starter/common/excel/ExcelImportService.java:106-135 | every error names a scanned non-blank row, 1-based, and the numbers never decrease |
| ExcelImport.SaveFailureCountsRowTwice | src/main/java/com/example/starter/common/excel/ExcelImportService.java:116-134 | a save that throws counts its row as both a success and a failure, and keeps the buffer |
| ExcelImport.EffectiveBatchSize | src/main/java/com/example/starter/common/excel/ExcelImportService.java:81-83 | a positive batch size is kept, and any other becomes positive |
| ExcelImport.ScanEnd | src/main/java/com/example/starter/common/excel/ExcelImportService.java:106 | the loop's bound is never before its start |
| ExcelImport.Translate | src/main/java/com/example/starter/common/excel/ExcelImportService.java:144-151 | an ApiException leaves unchanged, an IOException becomes BAD_REQUEST and any other INTERNAL_SERVER_ERROR, each with the message after its prefix |
| ExcelImport.ImportOutcome | src/main/java/com/example/starter/common/excel/ExcelImportService.java:69-152 | a missing or empty file fails BAD_REQUEST before any read or save; every failure is an ApiException |
| ExcelImport.NonPositiveBatchSizeIsDefault | src/main/java/com/example/starter/common/excel/ExcelImportService.java:81-83 | a batch size of 0 or less behaves exactly as 500 |
| ExcelImport.ImportBatches | src/main/java/com/example/starter/common/excel/ExcelImportService.java:97-140 | with a readable sheet, passing headers and a saver that never throws: success, rows = counted rows, successes + failures = rows, the batches concatenate to the mapped values, every batch but the last holds exactly the batch size and the last 1 to that size |
| ExcelImport.ImportHeaderFails | src/main/java/com/example/starter/common/excel/ExcelImportService.java:96-99 | a readable sheet whose expected header does not match makes the import fail with the header check's BAD_REQUEST, with no batch saved: a missing header row with its own message, a present one naming the first mismatching column (1-based), the expected name and the cell's text |
| ExcelImport.ImportFinalSaveFails | src/main/java/com/example/starter/common/excel/ExcelImportService.java:136-150 | when the saver throws for the buffer left after the loop, the import fails with that exception translated, after the loop's batches and then that buffer were handed over |
| ExcelImport.ProcessRow | src/main/java/com/example/starter/common/excel/ExcelImportService.java:107-134 | the loop body changes the result object, the buffer and the saver calls as one `StepRow` |
| ExcelImport.ScanRows | src/main/java/com/example/starter/common/excel/ExcelImportService.java:106-135 | the loop leaves the result object, the buffer and the calls as `Scan` says |
| ExcelImport.ImportExcel | src/main/java/com/example/starter/common/excel/ExcelImportService.java:69-152 | the six-argument import answers a new result holding what `ImportOutcome` says, or its error, and hands the saver the same batches |
| ExcelImport.ImportExcelDefaultBatch | src/main/java/com/example/starter/common/excel/ExcelImportService.java:56-64 | the five-argument overload is the import with batch size 500 |
| ExcelImport.ImportExcelSimple | src/main/java/com/example/starter/common/excel/ExcelImportService.java:159-165 | the three-argument overload reads headers at row 0 without checking them, batch size 500 |

## Left out

- Cryptography of access tokens is not modelled. The signed-token provider is a parameter with uninterpreted `generate`, `validate` and `subject`.
- The authentication manager and the password encoder are foreign calls. The manager's verdict is an `Outcome` parameter of `login`, and the encoder is a function parameter.
- The thread-local security context is not modelled. The current principal is an `Authentication` parameter of the audit interceptor.
- Random token strings come from a parameter that is required to be new to the ledger, as a UUID is.
- The clock is an `Instant` parameter.
- Transactions are modelled as all-or-nothing: a failing `@Transactional` operation leaves every table as it was.
- The order of Spring proxies around one call is fixed by assumption: the audit interceptor wraps the transaction. The source sets no `@Order`, so the order is not defined by the code.
- ItemService.AuditedCreate: assumes the audit interceptor wraps the transactional proxy. The FAILED record of a refused create is therefore stored after the rollback and survives it. With the other order, the record would be written inside the transaction and rolled back with the item change. A unique-column violation raised only at commit would then leave no record at all.
- ItemService.AuditedUpdate: assumes the same proxy order as `AuditedCreate`, with the same consequences for a refused update.
- ItemService.AuditedDelete: assumes the same proxy order as `AuditedCreate`, with the same consequences for a refused delete.
- ItemService.AuditedHardDelete: assumes the same proxy order as `AuditedCreate`, with the same consequences for a refused hard delete.
- The unique columns are checked when a row is saved, not at commit. A violation that the database raises only when the transaction commits is not modelled.
- The reflective `getUsername` probe is modelled as an optional accessor per argument. The accessor returns a value, throws, or is absent.
- Apache POI I/O, closing the workbook and its stream, and `WorkbookFactory` are left out. An upload is its emptiness plus what opening its first sheet yields.
- How NUMERIC and FORMULA cells render through `double` arithmetic is left out. Those cells carry their rendered text.
- `int` overflow of the Excel counters is not modelled; the counters are unbounded. Overflow would need more than 2^31 rows, beyond any sheet. The `int` wrap-around of `headerRowIndex + 1` is modelled (`FirstDataRow`).
- The row mapper and the batch saver are pure functions of their input. A saver's side effects beyond throwing are not modelled.
- Foreign-key constraints are not modelled, because the schema's DDL is not part of this model. A hard delete of a role or permission that association rows still name is therefore allowed here; a later read of such a row throws `EntityNotFoundException`, as it does for a soft-deleted target.
- Column lengths and `nullable` constraints are not modelled.
- The message of an `EntityNotFoundException` is a fixed text per entity kind (`Authority.MissingRole`, `Authority.MissingPermission`). Hibernate's message also names the entity class and the missing identity, and which unresolved row is reported first is not modelled.
- CustomUserDetailsService.LoadUserByUsername: assumes that collecting the role references into a set (CustomUserDetailsService.java:41-43) does not load them, so an unresolved permission is reported before an unresolved role. `BaseEntity`'s `equals` and `hashCode` are not part of this model; if they load the reference, an unresolved role would throw first.
- AuthService.Me: assumes, as for `LoadUserByUsername`, that collecting the role references into a set (AuthService.java:77-79) does not load them; an unresolved role is reported first either way, at line 85.
- AuthService.Refresh: the `RefreshToken` entity is not part of this model. Its owner reference is assumed to load like the association rows' references, so an owner that is soft-deleted or removed throws `EntityNotFoundException` when its username is read (AuthService.java:110-112).
- A `null` exception message is not modelled: `getMessage()` is always a string here. The row error recorded for a throwing mapper or saver, and the error message of a FAILED audit record, therefore always carry text, where the source may store `null`.
- `equalsIgnoreCase` is modelled for ASCII letters only. Unicode case folding is not modelled.
- `findAll` answers a set. The order of the returned list is not modelled.
- `HashMap` iteration order is a parameter (`order`) that lists each key once.
- The item, role, permission, user and audit-log controllers are not modelled. They only attach an authority constant to each endpoint.
- The `createdAt`, `updatedAt`, `createdBy` and `updatedBy` auditing columns are not modelled.
- DataInitializer.SeedSampleItemsOutcome: its own contract is weaker than the source's promise. `SampleItemsSaved` and `SampleItemsCounted` state which items are added and when.
- DataInitializer.SeedRestOutcome: its own contract is weaker. `RestPassed` and `RestWhenSeeded` state what a passing run leaves.
- DataInitializer.SeedAllOutcome: its own contract is weaker. `SeedAllFinds`, `SeedAllGrantsAdminEverything` and `SeedAllTwice` state what a passing run leaves.
- DataInitializer.RunOutcome: its own contract is weaker. `RunFinds`, `RunGrantsAdminEverything` and `RunTwice` state what a passing run leaves.
- DataInitializer.SeedPermissionsOutcome: its own contract is weaker. `SeededPermissionsFound` and `SeededPermissionsDescribed` state the map and the new rows.
- ExcelImport.ImportOutcome: its own contract is weaker. `ImportHeaderFails` states the header failure, `ImportFinalSaveFails` the failure of the last save, `ImportBatches` the outcome with a saver that never throws, `NonPositiveBatchSizeIsDefault` the default batch size, and `ScanAccounting` and `SaveFailureCountsRowTwice` the counters when a save inside the loop throws. A workbook that cannot be opened is stated by `ImportOutcome`'s own contract only as a failure with an `ApiException`.
- AuthController.Refresh: its own contract is weaker. It is `AuthService.Refresh`, whose lemmas hold for it.
- JavaText.DecimalString: its own contract is weaker. `DecimalStringDenotes` states that the digits denote the number, with no leading zero.
- JavaText.TrimStart: its own contract is weaker. `TrimStartIsSuffix` states that what is left is a suffix of the input.
