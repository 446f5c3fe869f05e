# easy-permissions, modelled in Dafny

A functional model of a small TypeScript authorization library. The library has
three parts:

- a **permission catalog** (`PermissionRegistry`): a Map from permission id to
  permission that rejects duplicate ids and lists its entries in insertion order;
- a **permission mapper** (`PermissionMapper`): it parses `action:resource:scope`
  strings into permission records and registers lists of strings or records in
  the catalog;
- a **role manager** (`RoleManager`): a store of roles, each with an ordered
  permission list, plus the decision `hasPermission`. The decision asks whether
  a subject is allowed a requested (action, resource, scope) triple, given the
  subject's roles and its directly granted permissions.

Modules, one file each:

| file | module | models |
|---|---|---|
| `types.dfy` | `Types` | `src/permissions.types.ts`; the string-or-record inputs; the two errors |
| `text.dfy` | `Text` | JavaScript `String.prototype.split` on one character, and its inverse `Join` |
| `permission_registry.dfy` | `PermissionRegistry` | `src/PermissionRegistry.ts` |
| `permission_mapper.dfy` | `PermissionMapper` | `src/PermissionMapper.ts`; the parser is shared with `src/RoleManager.ts:110-118`, which has an identical body |
| `role_manager.dfy` | `RoleManager` | `src/RoleManager.ts` |
| `role_manager_lemmas.dfy` | `RoleManagerLemmas` | properties of the matching predicate and of the decision |

Modelling choices:

- **Optional fields.** `resource` and `resourceScope` are `Option<string>`. A
  string with one segment has no resource, and one with two segments has no
  scope. This is so even though the TypeScript type declares `resource: string`.
- **The id the parser derives** is `action:resource`, followed by `:scope` only
  when the scope is a non-empty string. An absent resource is rendered as the
  text `undefined`, as a template literal renders it. Segments after the third
  are dropped.
- **Errors.** A thrown error becomes `Failure(DuplicateId(id))` or
  `Failure(RoleNotFound(id))` in a `Result`. On failure the caller keeps its old
  state, so nothing changes.
- **Batch operations.** `registerPermissions` and `createRoles` are `forEach`
  loops that stop at the first exception. They are modelled as loops that return
  the state reached plus an optional error. Entries handled before the failing
  one stay registered.
- **Role resolution.** `hasPermission` resolves an entry of the subject's role
  list in two steps. First, a role id is looked up in the store, while a role
  record is taken as it is (`ResolveRole`). Second, `checkRolePermission` looks
  the resolved role's id up in the store again (`StoredPermissions`). So a role
  record is judged by the stored role with its id: the record's own permission
  list is never read, and a record whose id is not stored grants nothing.
- **Invariants.** `PermissionRegistry.Valid` says that the order list holds each
  key exactly once and that every permission is stored under its own id.
  `RoleManager.WellKeyed` says that every role is stored under its own id.
  `Empty` and `EmptyStore` establish them. The following members state that the
  invariants are kept, including when a batch stops early: `RegisterAppends`,
  `RegisterPermissions`, `CreateRole`, `CreateRoles` and `AssignPermissionToRole`. `RegisterPermissions` takes `Valid` as a precondition: it is the catalog
  class's invariant, not a demand on callers.
- **Behaviour the TypeScript types do not show.**
  - The type declares `resource: string`, but for a string with one segment the
    parser leaves the resource undefined. The id then contains the text `undefined`.
  - An empty scope is kept in the record but left out of the id.
  - A role given as a record is looked up again in the store by its id.

## Model

| member | source | states |
|---|---|---|
| `Text.SplitJoinsBack` | src/PermissionMapper.ts:31 | The segments `split(":")` yields contain no colon and join back to the input. There is a single segment exactly when the input has no colon. |
| `Text.SplitJoin` | src/PermissionMapper.ts:31 | Splitting the colon-join of colon-free segments gives those segments back, so split and join are inverse. |
| `Text.SplitAfterSegment` | src/PermissionMapper.ts:31 | Splitting a colon-free segment followed by a colon yields that segment, then the split of the rest. |
| `Text.Split` | src/PermissionMapper.ts:31 | `split(":")`: always at least one segment. Its full contract is stated by `SplitJoinsBack` and `SplitJoin`. |
| `PermissionMapper.ParsePermissionString` | src/PermissionMapper.ts:28-38 | `parsePermissionString`, also at src/RoleManager.ts:110-118. Its contract is stated by `ParseKeepsLeadingSegments`, `ParseThreeSegments`, `ParseTwoSegments`, `ParseOneSegment`, `ParseEmptyScope`, `ParseDropsExtraSegments`, `ParseIdIsInputIff` and `ParseReparsesOwnId`. |
| `PermissionMapper.Normalize` | src/RoleManager.ts:46-49 | A string is replaced by its parse, and a record is kept as it is. Used by `AssignPermissionToRole`, by the direct-permission loop of `hasPermission` (src/RoleManager.ts:75-78) and by `registerPermissions` (src/PermissionMapper.ts:19-24). Its uses are stated by `NormalizeAllAt` and `AssignPermissionToRole`. |
| `PermissionMapper.NormalizeAll` | src/RoleManager.ts:19-23 | The `map` over a role's permissions keeps the length of the list. Its contents are stated by `NormalizeAllAt`. |
| `PermissionMapper.ParseKeepsLeadingSegments` | src/PermissionMapper.ts:28-38 | The parsed action, resource and scope are colon-free, and they are the input's leading segments. The input is the action alone, or `action:resource`, or starts with `action:resource:scope` followed by nothing or a colon. The id is derived from these fields. |
| `PermissionMapper.ParseThreeSegments` | src/PermissionMapper.ts:31-37 | Round trip: for colon-free `a`, `r` and non-empty colon-free `s`, parsing `a:r:s` gives action `a`, resource `r`, scope `s`, and the input string as id. |
| `PermissionMapper.ParseTwoSegments` | src/RoleManager.ts:110-118 | Parsing `a:r` gives an absent scope, and the id is `a:r`. |
| `PermissionMapper.ParseOneSegment` | src/PermissionMapper.ts:31-33 | Parsing a colon-free string gives an absent resource and scope, and the id is the string followed by `:undefined`. |
| `PermissionMapper.ParseEmptyScope` | src/PermissionMapper.ts:33 | An empty third segment is kept as scope `""` but left out of the id, because `""` is falsy. |
| `PermissionMapper.ParseDropsExtraSegments` | src/PermissionMapper.ts:31 | Everything after the third segment is ignored: `a:r:s:rest` parses like `a:r:s`. |
| `PermissionMapper.ParseIdIsInputIff` | src/PermissionMapper.ts:33 | The derived id equals the input exactly when the input has two segments, or three with a non-empty third. |
| `PermissionMapper.ParseReparsesOwnId` | src/PermissionMapper.ts:31-37 | Parsing a parsed id gives back the same permission, provided the resource was present and the scope was not `""`. |
| `PermissionMapper.ReparseQuirks` | src/PermissionMapper.ts:33 | The two excluded cases differ on reparse. `a` has id `a:undefined`, which reparses with resource `undefined`. `a:r:` has scope `""` but id `a:r`, which reparses with no scope. |
| `PermissionMapper.NormalizeAllAt` | src/RoleManager.ts:19-23 | Normalizing a list replaces each string with its parse and keeps each record, position by position. |
| `PermissionMapper.RegisterPermissions` | src/PermissionMapper.ts:15-26 | Without failure, the catalog lists its old entries, then every entry in list order: records unchanged, strings as their parse. On failure at entry k, entries before k stay registered in order, entry k's id was already taken, and the error is `DuplicateId` of it. Old entries never change. |
| `PermissionMapper.UnregisteredIdAbsent` | src/PermissionRegistry.ts:16-18 | An id that was never registered is absent from the catalog after registration. |
| `PermissionRegistry.Empty` | src/PermissionRegistry.ts:7 | A new catalog satisfies the invariant, knows no id, and lists nothing. |
| `PermissionRegistry.GetPermission` | src/PermissionRegistry.ts:16-18 | `getPermission`: absent for an unknown id. Its contract is stated by `Empty`, `RegisterPermission`, `GetAllListsRegistered` and `UnregisteredIdAbsent`. |
| `PermissionRegistry.GetAllPermissions` | src/PermissionRegistry.ts:20-22 | `getAllPermissions`: the values in insertion order. Its contract is stated by `ValuesInOrderAt`, `RegisterAppends`, `GetAllListsRegistered` and `RegisterTwiceFails`. |
| `PermissionRegistry.RegisterPermission` | src/PermissionRegistry.ts:9-18 | Registration fails exactly when the id is taken, and the error is `DuplicateId`. On success, `getPermission(id)` returns the permission and every other id looks up as before. |
| `PermissionRegistry.RegisterAppends` | src/PermissionRegistry.ts:13-21 | A successful registration keeps the invariant and appends the permission to the end of the listing (Map insertion order). |
| `PermissionRegistry.ValuesInOrderAt` | src/PermissionRegistry.ts:20-22 | When every listed key is stored, the listing has one value per key, in key order. |
| `PermissionRegistry.GetAllListsRegistered` | src/PermissionRegistry.ts:20-22 | `getAllPermissions` has one entry per registered id and holds every registered permission. Each listed permission is what `getPermission` returns for its id, and no id is listed twice. |
| `PermissionRegistry.RegisterTwiceFails` | src/PermissionRegistry.ts:9-14 | Registering the same permission twice fails with `DuplicateId` on the second call, and the listing holds it exactly once. |
| `RoleManager.CreateRole` | src/RoleManager.ts:15-29 | Creation fails with `DuplicateId` exactly when the id is stored. On success, `getRole(id)` returns the role with each string permission replaced by its parse and each record kept. Other roles are unchanged, and the store invariant is kept. |
| `RoleManager.CreateRoles` | src/RoleManager.ts:31-37 | Without failure, every request is stored as its normalized role, under fresh and distinct ids, and nothing else changes. On failure at request k, requests before k are stored, request k's id is taken, and the error is `DuplicateId` of it. Either way, a store whose roles sit under their own ids stays so. |
| `RoleManager.AssignPermissionToRole` | src/RoleManager.ts:39-52 | An unknown role id fails with `RoleNotFound`. Otherwise exactly one permission is appended to the end of that role's list: the parse if a string was given. The role's id and name, and every other role, are untouched. |
| `RoleManager.EmptyStore` | src/RoleManager.ts:8 | A new role manager holds no role, and its empty store satisfies the invariant. |
| `RoleManager.GetRole` | src/RoleManager.ts:54-56 | `getRole`: absent for an unknown id. Its contract is stated by `CreateRole` and `AssignPermissionToRole`. |
| `RoleManager.PermissionMatches` | src/RoleManager.ts:120-140 | `permissionMatches`. Its contract is stated by `WildcardActionMatchesAll`, `ExactMatchIff` and `WildcardsOnlyOnCandidateSide`. |
| `RoleManager.CheckRolePermission` | src/RoleManager.ts:142-157 | True exactly when the role id is stored and some permission in its stored list matches the triple. |
| `RoleManager.HasPermission` | src/RoleManager.ts:58-108 | The short-circuiting scan returns true exactly when some direct permission matches, or some role-list entry grants the request through the stored role with its id. It never fails. |
| `RoleManagerLemmas.WildcardActionMatchesAll` | src/RoleManager.ts:126 | A candidate whose action is `*` matches every requested triple, whatever its own resource and scope. |
| `RoleManagerLemmas.ExactMatchIff` | src/RoleManager.ts:128-139 | With a non-wildcard action, a match holds exactly when the actions are equal, the resource is equal or a candidate `*`, and the scope is equal as an option or a candidate `*`. The clause for both scopes absent is therefore redundant. |
| `RoleManagerLemmas.WildcardsOnlyOnCandidateSide` | src/RoleManager.ts:128-139 | For a candidate whose action is not `*`, a `*` in the request is an ordinary token. Such a candidate does not match a requested action `*`. If it is unscoped, it does not match a requested scope `*`. If its resource is not `*`, it does not match a requested resource `*`. (A candidate with action `*` matches all of these, see `WildcardActionMatchesAll`.) |
| `RoleManagerLemmas.RoleGrantsIff` | src/RoleManager.ts:93-101 | A role-list entry grants the request exactly when its id is stored and the stored list has a match. A record's own list is ignored, and a record with an unknown id grants nothing. |
| `RoleManagerLemmas.AuthorizedIff` | src/RoleManager.ts:74-107 | The decision is existential: some direct permission matches, or some listed role id is stored with a matching permission. |
| `RoleManagerLemmas.AuthorizedMonotoneInSubject` | src/RoleManager.ts:74-105 | A subject whose lists hold at least another subject's entries is allowed whatever the other is allowed. |
| `RoleManagerLemmas.AuthorizedOrderIndependent` | src/RoleManager.ts:74-107 | Two subjects whose lists hold the same entries, in any order and with any repetition, get the same decision. |
| `RoleManagerLemmas.AssignKeepsAuthorization` | src/RoleManager.ts:39-52 | After a successful assignment, every request that was allowed is still allowed. |
| `RoleManagerLemmas.CreateRoleKeepsAuthorization` | src/RoleManager.ts:15-29 | After a successful role creation, every request that was allowed is still allowed. |
| `RoleManagerLemmas.SuperAdminAuthorizesEverything` | __tests__/RoleManager.test.ts:136-148 | Take a role created empty and then assigned `"*"`. It allows every request for every subject whose role list holds its id. |
| `RoleManagerLemmas.ScopeWildcardRole` | src/RoleManager.ts:128-139 | Take a role created with `a:r:*`. It allows action `a` on resource `r` for any scope, the absent scope included. It allows no other action, whatever the resource and scope. |
| `RoleManagerLemmas.UnscopedRoleDoesNotCoverWildcardRequest` | __tests__/RoleManager.test.ts:100-118 | Take a role assigned `a:r`. It allows the request `a:r`. It allows neither `a:r:*` nor `b:r:*` for another action `b`. |
| `RoleManagerLemmas.DirectPermissionScenario` | __tests__/RoleManager.test.ts:120-134 | A direct grant `a:r:s`, with a non-empty scope, allows that request. It does not allow the unscoped request `b:r`, for any colon-free action `b` other than `a`. |

## Left out

- `src/index.ts` only builds the module-level singletons and has no logic. The
  model passes the catalog and the role store explicitly instead.
- Object aliasing is not modelled. In the code, the stored role is the caller's
  own object, and `createRole` rewrites that object's permission list in place,
  even before the duplicate check fails. Only the effect on the store is modelled.
- Error message strings are replaced by the `DuplicateId` and `RoleNotFound`
  values.
- Concurrency is not modelled: nothing in the library is concurrent.
- Idempotence of `hasPermission` (equal inputs give equal results) is not stated
  as a lemma, because every operation here is a pure function of its arguments.
- `createRole` is typed to accept a list of only strings or only records. The
  model accepts mixed lists, a superset that the code handles the same way
  entry by entry.
