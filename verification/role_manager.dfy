/**
 * The role store and the authorization decision: which stored or supplied
 * permissions grant a requested (action, resource, scope) triple.
 */
module RoleManager {
  import opened Types
  import opened PermissionMapper

  /** Roles keyed by id. */
  type RoleStore = map<string, Role>

  /** Every role is stored under its own id; role creation keys by `role.id`. */
  ghost predicate WellKeyed(store: RoleStore) {
    forall id :: id in store ==> store[id].id == id
  }

  /** A new role manager's store: no roles. */
  function EmptyStore(): (store: RoleStore)
    ensures WellKeyed(store)
    ensures forall id :: GetRole(store, id) == None
  {
    map[]
  }

  /** Looks a role up by id; absent when unknown. */
  function GetRole(store: RoleStore, id: string): Option<Role> {
    if id in store then Some(store[id]) else None
  }

  /** The role stored for a creation request: every string permission is replaced
      by its parse, every record kept as it is. */
  function RoleOf(input: RoleInput): Role {
    Role(input.id, input.name, NormalizeAll(input.permissions))
  }

  /** Stores a new role; an id already stored is a `DuplicateId` failure. */
  function CreateRole(store: RoleStore, input: RoleInput): (r: Result<RoleStore>)
    ensures r.Failure? <==> input.id in store
    ensures r.Failure? ==> r.error == DuplicateId(input.id)
    ensures r.Success? ==> GetRole(r.value, input.id) == Some(RoleOf(input))
    ensures r.Success? ==>
              var stored := r.value[input.id];
              && stored.id == input.id && stored.name == input.name
              && |stored.permissions| == |input.permissions|
              && forall i :: 0 <= i < |input.permissions| ==> stored.permissions[i] == Normalize(input.permissions[i])
    ensures r.Success? ==> forall id :: id != input.id ==> GetRole(r.value, id) == GetRole(store, id)
    ensures r.Success? && WellKeyed(store) ==> WellKeyed(r.value)
  {
    if input.id in store then Failure(DuplicateId(input.id))
    else
      NormalizeAllPointwise(input.permissions);
      Success(store[input.id := RoleOf(input)])
  }

  /** The ids of the first `n` creation requests. */
  function IdsUpTo(inputs: seq<RoleInput>, n: nat): set<string>
    requires n <= |inputs|
  {
    set i | 0 <= i < n :: inputs[i].id
  }

  /** The first `n` requests were all created: their ids were fresh and distinct,
      each is stored as its normalized role, and nothing else changed. */
  ghost predicate CreatedFirst(store: RoleStore, inputs: seq<RoleInput>, n: nat, out: RoleStore)
    requires n <= |inputs|
  {
    && out.Keys == store.Keys + IdsUpTo(inputs, n)
    && (forall id :: id in store ==> out[id] == store[id])
    && (forall i :: 0 <= i < n ==> inputs[i].id !in store && out[inputs[i].id] == RoleOf(inputs[i]))
    && (forall i, j :: 0 <= i < j < n ==> inputs[i].id != inputs[j].id)
  }

  /** Storing one more fresh role extends the created prefix by one. */
  lemma CreatedFirstStep(store: RoleStore, inputs: seq<RoleInput>, n: nat, out: RoleStore)
    requires n < |inputs|
    requires CreatedFirst(store, inputs, n, out)
    requires inputs[n].id !in out
    ensures CreatedFirst(store, inputs, n + 1, out[inputs[n].id := RoleOf(inputs[n])])
  {
  }

  /** Creates the roles in list order. The first duplicate id stops the loop with
      its error; roles created before it stay stored. */
  method CreateRoles(store: RoleStore, inputs: seq<RoleInput>) returns (out: RoleStore, failure: Option<Error>)
    ensures WellKeyed(store) ==> WellKeyed(out)
    ensures failure.None? ==> CreatedFirst(store, inputs, |inputs|, out)
    ensures failure.Some? ==>
              exists k: nat :: k < |inputs| && CreatedFirst(store, inputs, k, out)
                && inputs[k].id in out && failure.value == DuplicateId(inputs[k].id)
  {
    out := store;
    var i := 0;
    assert inputs[..0] == [];
    while i < |inputs|
      invariant 0 <= i <= |inputs|
      invariant CreatedFirst(store, inputs, i, out)
      invariant WellKeyed(store) ==> WellKeyed(out)
    {
      var r := CreateRole(out, inputs[i]);
      if r.Failure? {
        failure := Some(r.error);
        return;
      }
      CreatedFirstStep(store, inputs, i, out);
      out := r.value;
      i := i + 1;
    }
    failure := None;
  }

  /** Appends one permission (parsed, if given as a string) to the end of a stored
      role's list; an unknown role id is a `RoleNotFound` failure. */
  function AssignPermissionToRole(store: RoleStore, roleId: string, permission: PermissionInput): (r: Result<RoleStore>)
    ensures r.Failure? <==> roleId !in store
    ensures r.Failure? ==> r.error == RoleNotFound(roleId)
    ensures r.Success? ==> r.value.Keys == store.Keys
    ensures r.Success? ==> r.value[roleId].id == store[roleId].id && r.value[roleId].name == store[roleId].name
    ensures r.Success? ==> r.value[roleId].permissions == store[roleId].permissions + [Normalize(permission)]
    ensures r.Success? ==> forall id :: id in store && id != roleId ==> r.value[id] == store[id]
    ensures r.Success? && WellKeyed(store) ==> WellKeyed(r.value)
  {
    if roleId !in store then Failure(RoleNotFound(roleId))
    else
      var role := store[roleId];
      Success(store[roleId := role.(permissions := role.permissions + [Normalize(permission)])])
  }

  /** Whether one candidate permission covers a requested triple. A wildcard action
      covers everything; otherwise the action must be equal, the resource equal or
      a wildcard, and the scope equal (both absent counts as equal) or a wildcard. */
  predicate PermissionMatches(candidate: Permission, action: string, resource: Option<string>, scope: Option<string>) {
    if candidate.action == "*" then true
    else if candidate.action != action || (candidate.resource != Some("*") && candidate.resource != resource) then false
    else
      || candidate.resourceScope == scope
      || candidate.resourceScope == Some("*")
      || (candidate.resourceScope.None? && scope.None?)
  }

  /** Some permission of the list covers the request. */
  predicate AnyMatches(perms: seq<Permission>, request: Permission) {
    exists j :: 0 <= j < |perms| && PermissionMatches(perms[j], request.action, request.resource, request.resourceScope)
  }

  /** The role an entry of the subject's role list stands for: an id is looked up,
      a record is taken as it is. */
  function ResolveRole(store: RoleStore, ref: RoleRef): Option<Role> {
    match ref
    case RoleId(id) => GetRole(store, id)
    case RoleRecord(role) => Some(role)
  }

  /** The permission list consulted for a resolved role: the one stored under its id,
      or nothing when that id is not stored. */
  function StoredPermissions(store: RoleStore, roleId: string): seq<Permission> {
    match GetRole(store, roleId)
    case Some(role) => role.permissions
    case None => []
  }

  /** An entry of the subject's role list grants the request. */
  predicate RoleGrants(store: RoleStore, ref: RoleRef, request: Permission) {
    match ResolveRole(store, ref)
    case Some(role) => AnyMatches(StoredPermissions(store, role.id), request)
    case None => false
  }

  /** The decision as a statement: some direct permission of the subject covers the
      request, or some entry of its role list grants it. */
  predicate Authorized(store: RoleStore, subject: Subject, requested: PermissionInput) {
    var q := Normalize(requested);
    || (exists i :: 0 <= i < |subject.permissions| &&
          PermissionMatches(Normalize(subject.permissions[i]), q.action, q.resource, q.resourceScope))
    || (exists i :: 0 <= i < |subject.roles| && RoleGrants(store, subject.roles[i], q))
  }

  /** Scans the permissions stored under `roleId` for one covering the triple. */
  method CheckRolePermission(store: RoleStore, roleId: string, action: string, resource: Option<string>, scope: Option<string>)
    returns (found: bool)
    ensures found <==> (roleId in store &&
              exists j :: 0 <= j < |store[roleId].permissions| &&
                PermissionMatches(store[roleId].permissions[j], action, resource, scope))
  {
    var role := GetRole(store, roleId);
    if role.None? {
      return false;
    }
    var perms := role.value.permissions;
    var j := 0;
    while j < |perms|
      invariant 0 <= j <= |perms|
      invariant forall k :: 0 <= k < j ==> !PermissionMatches(perms[k], action, resource, scope)
    {
      if PermissionMatches(perms[j], action, resource, scope) {
        return true;
      }
      j := j + 1;
    }
    return false;
  }

  /** The decision, scanning direct permissions first and then the role list,
      stopping at the first match. It never fails: unknown roles are skipped. */
  method HasPermission(store: RoleStore, subject: Subject, requested: PermissionInput) returns (granted: bool)
    ensures granted <==> Authorized(store, subject, requested)
  {
    var q := Normalize(requested);
    var i := 0;
    while i < |subject.permissions|
      invariant 0 <= i <= |subject.permissions|
      invariant forall k :: 0 <= k < i ==>
                  !PermissionMatches(Normalize(subject.permissions[k]), q.action, q.resource, q.resourceScope)
    {
      var perm := Normalize(subject.permissions[i]);
      if PermissionMatches(perm, q.action, q.resource, q.resourceScope) {
        return true;
      }
      i := i + 1;
    }
    i := 0;
    while i < |subject.roles|
      invariant 0 <= i <= |subject.roles|
      invariant forall k :: 0 <= k < i ==> !RoleGrants(store, subject.roles[k], q)
    {
      var role := ResolveRole(store, subject.roles[i]);
      if role.Some? {
        var found := CheckRolePermission(store, role.value.id, q.action, q.resource, q.resourceScope);
        if found {
          return true;
        }
      }
      i := i + 1;
    }
    return false;
  }
}
