/**
 * Properties of the matching predicate and of the authorization decision:
 * what a wildcard covers, how role entries are resolved, independence from list
 * order, and that growing the role store never revokes an authorization.
 */
module RoleManagerLemmas {
  import opened Types
  import opened PermissionMapper
  import opened RoleManager

  /** A candidate with the wildcard action covers every request, whatever its own
      resource and scope say. */
  lemma WildcardActionMatchesAll(candidate: Permission, action: string, resource: Option<string>, scope: Option<string>)
    requires candidate.action == "*"
    ensures PermissionMatches(candidate, action, resource, scope)
  {
  }

  /** Without the wildcard action, a match needs the exact action, the exact
      resource or a wildcard one, and the exact scope or a wildcard one. The
      "both scopes absent" alternative adds nothing to plain equality. */
  lemma ExactMatchIff(candidate: Permission, action: string, resource: Option<string>, scope: Option<string>)
    requires candidate.action != "*"
    ensures PermissionMatches(candidate, action, resource, scope) <==>
              && candidate.action == action
              && (candidate.resource == Some("*") || candidate.resource == resource)
              && (candidate.resourceScope == scope || candidate.resourceScope == Some("*"))
  {
  }

  /** Wildcards only widen the candidate: a "*" in the request is an ordinary
      token, covered only by an equal or wildcard candidate field. */
  lemma WildcardsOnlyOnCandidateSide(candidate: Permission, action: string, resource: Option<string>, scope: Option<string>)
    requires candidate.action != "*"
    ensures !PermissionMatches(candidate, "*", resource, scope)
    ensures candidate.resourceScope.None? ==> !PermissionMatches(candidate, action, resource, Some("*"))
    ensures candidate.resource != Some("*") ==> !PermissionMatches(candidate, action, Some("*"), scope)
  {
  }

  /** The id a role-list entry is finally looked up under. */
  function RefId(ref: RoleRef): string {
    match ref
    case RoleId(id) => id
    case RoleRecord(role) => role.id
  }

  /** A role-list entry grants the request exactly when its id is stored and the
      STORED list for that id covers the request: a record's own permission list is
      never consulted, and a record whose id is not stored contributes nothing. */
  lemma RoleGrantsIff(store: RoleStore, ref: RoleRef, request: Permission)
    requires WellKeyed(store)
    ensures RoleGrants(store, ref, request) <==>
              RefId(ref) in store && AnyMatches(store[RefId(ref)].permissions, request)
  {
  }

  /** The decision, stated over the stored roles: some direct permission covers the
      request, or some listed role id is stored with a covering permission. */
  lemma AuthorizedIff(store: RoleStore, subject: Subject, requested: PermissionInput)
    requires WellKeyed(store)
    ensures var q := Normalize(requested);
      Authorized(store, subject, requested) <==>
        || (exists i :: 0 <= i < |subject.permissions| &&
              PermissionMatches(Normalize(subject.permissions[i]), q.action, q.resource, q.resourceScope))
        || (exists i :: 0 <= i < |subject.roles| &&
              RefId(subject.roles[i]) in store && AnyMatches(store[RefId(subject.roles[i])].permissions, q))
  {
  }

  /** A subject whose lists hold at least the entries of another's is authorized
      whenever the other one is. */
  lemma {:induction false} AuthorizedMonotoneInSubject(store: RoleStore, small: Subject, large: Subject, requested: PermissionInput)
    requires forall x :: x in small.permissions ==> x in large.permissions
    requires forall r :: r in small.roles ==> r in large.roles
    requires Authorized(store, small, requested)
    ensures Authorized(store, large, requested)
  {
    var q := Normalize(requested);
    if i :| (0 <= i < |small.permissions| &&
              PermissionMatches(Normalize(small.permissions[i]), q.action, q.resource, q.resourceScope)) {
      var x := small.permissions[i];
      assert x in large.permissions;
      var j :| 0 <= j < |large.permissions| && large.permissions[j] == x;
    } else {
      var i :| 0 <= i < |small.roles| && RoleGrants(store, small.roles[i], q);
      var r := small.roles[i];
      assert r in large.roles;
      var j :| 0 <= j < |large.roles| && large.roles[j] == r;
    }
  }

  /** The decision depends only on which entries the subject's lists hold, not on
      their order or repetition. */
  lemma AuthorizedOrderIndependent(store: RoleStore, s1: Subject, s2: Subject, requested: PermissionInput)
    requires forall x :: x in s1.permissions <==> x in s2.permissions
    requires forall r :: r in s1.roles <==> r in s2.roles
    ensures Authorized(store, s1, requested) <==> Authorized(store, s2, requested)
  {
    if Authorized(store, s1, requested) {
      AuthorizedMonotoneInSubject(store, s1, s2, requested);
    }
    if Authorized(store, s2, requested) {
      AuthorizedMonotoneInSubject(store, s2, s1, requested);
    }
  }

  /** Assigning a permission to a role never revokes an authorization. */
  lemma AssignKeepsAuthorization(
    store: RoleStore, roleId: string, permission: PermissionInput, subject: Subject, requested: PermissionInput)
    requires AssignPermissionToRole(store, roleId, permission).Success?
    requires Authorized(store, subject, requested)
    ensures Authorized(AssignPermissionToRole(store, roleId, permission).value, subject, requested)
  {
    var after := AssignPermissionToRole(store, roleId, permission).value;
    var q := Normalize(requested);
    if i :| (0 <= i < |subject.permissions| &&
              PermissionMatches(Normalize(subject.permissions[i]), q.action, q.resource, q.resourceScope)) {
    } else {
      var i :| 0 <= i < |subject.roles| && RoleGrants(store, subject.roles[i], q);
      var role := ResolveRole(store, subject.roles[i]).value;
      assert ResolveRole(after, subject.roles[i]).value.id == role.id;
      var before_perms, after_perms := StoredPermissions(store, role.id), StoredPermissions(after, role.id);
      var j :| 0 <= j < |before_perms| && PermissionMatches(before_perms[j], q.action, q.resource, q.resourceScope);
      assert after_perms[j] == before_perms[j];
      assert RoleGrants(after, subject.roles[i], q);
    }
  }

  /** Creating a role never revokes an authorization. */
  lemma CreateRoleKeepsAuthorization(
    store: RoleStore, input: RoleInput, subject: Subject, requested: PermissionInput)
    requires CreateRole(store, input).Success?
    requires Authorized(store, subject, requested)
    ensures Authorized(CreateRole(store, input).value, subject, requested)
  {
    var after := CreateRole(store, input).value;
    var q := Normalize(requested);
    if i :| (0 <= i < |subject.permissions| &&
              PermissionMatches(Normalize(subject.permissions[i]), q.action, q.resource, q.resourceScope)) {
    } else {
      var i :| 0 <= i < |subject.roles| && RoleGrants(store, subject.roles[i], q);
      var role := ResolveRole(store, subject.roles[i]).value;
      assert ResolveRole(after, subject.roles[i]) == Some(role);
      assert StoredPermissions(after, role.id) == StoredPermissions(store, role.id);
      assert RoleGrants(after, subject.roles[i], q);
    }
  }

  /** A role created empty and then granted the string "*" authorizes every request
      for a subject that lists it. */
  lemma SuperAdminAuthorizesEverything(
    store: RoleStore, id: string, name: string, subject: Subject, requested: PermissionInput)
    requires id !in store
    requires RoleId(id) in subject.roles
    ensures var created := CreateRole(store, RoleInput(id, name, [])).value;
      && AssignPermissionToRole(created, id, PermissionString("*")).Success?
      && Authorized(AssignPermissionToRole(created, id, PermissionString("*")).value, subject, requested)
  {
    var created := CreateRole(store, RoleInput(id, name, [])).value;
    var granted := AssignPermissionToRole(created, id, PermissionString("*")).value;
    ParseOneSegment("*");
    var q := Normalize(requested);
    assert created[id] == Role(id, name, []);
    var perms := StoredPermissions(granted, id);
    assert perms == [ParsePermissionString("*")];
    assert PermissionMatches(perms[0], q.action, q.resource, q.resourceScope);
    var single := Subject([RoleId(id)], []);
    assert ResolveRole(granted, single.roles[0]) == Some(granted[id]);
    assert RoleGrants(granted, single.roles[0], q);
    AuthorizedMonotoneInSubject(granted, single, subject, requested);
  }

  /** A role created with "a:r:*" authorizes action a on resource r for any scope,
      the absent one included, and authorizes no other action on any resource. */
  lemma ScopeWildcardRole(
    store: RoleStore, id: string, name: string, a: string, r: string, b: string, requestId: string,
    scope: Option<string>, otherResource: Option<string>)
    requires id !in store
    requires ':' !in a && ':' !in r && a != "*" && b != a
    ensures var created := CreateRole(store, RoleInput(id, name, [PermissionString(a + ":" + r + ":*")])).value;
      && Authorized(created, Subject([RoleId(id)], []), PermissionRecord(Permission(requestId, a, Some(r), scope)))
      && !Authorized(created, Subject([RoleId(id)], []), PermissionRecord(Permission(requestId, b, otherResource, scope)))
  {
    var created := CreateRole(store, RoleInput(id, name, [PermissionString(a + ":" + r + ":*")])).value;
    assert a + ":" + r + ":*" == a + ":" + r + ":" + "*";
    ParseThreeSegments(a, r, "*");
    var p := Permission(a + ":" + r + ":*", a, Some(r), Some("*"));
    assert created[id] == Role(id, name, [p]);
    var subject := Subject([RoleId(id)], []);
    assert ResolveRole(created, subject.roles[0]) == Some(created[id]);
    assert StoredPermissions(created, id) == [p];
    assert RoleGrants(created, subject.roles[0], Permission(requestId, a, Some(r), scope));
    assert !RoleGrants(created, subject.roles[0], Permission(requestId, b, otherResource, scope));
  }

  /** A role granted "a:r" covers the request "a:r" but not "a:r:*", nor "b:r:*"
      for another action `b`: the request's wildcard scope is not widened by an
      unscoped candidate. */
  lemma UnscopedRoleDoesNotCoverWildcardRequest(store: RoleStore, id: string, name: string, a: string, r: string, b: string)
    requires id !in store
    requires ':' !in a && ':' !in r && a != "*"
    requires ':' !in b && b != a
    ensures var created := CreateRole(store, RoleInput(id, name, [])).value;
      && AssignPermissionToRole(created, id, PermissionString(a + ":" + r)).Success?
      && var granted := AssignPermissionToRole(created, id, PermissionString(a + ":" + r)).value;
         && Authorized(granted, Subject([RoleId(id)], []), PermissionString(a + ":" + r))
         && !Authorized(granted, Subject([RoleId(id)], []), PermissionString(a + ":" + r + ":*"))
         && !Authorized(granted, Subject([RoleId(id)], []), PermissionString(b + ":" + r + ":*"))
  {
    var created := CreateRole(store, RoleInput(id, name, [])).value;
    var granted := AssignPermissionToRole(created, id, PermissionString(a + ":" + r)).value;
    ParseTwoSegments(a, r);
    assert a + ":" + r + ":*" == a + ":" + r + ":" + "*";
    ParseThreeSegments(a, r, "*");
    var p := Permission(a + ":" + r, a, Some(r), None);
    assert created[id] == Role(id, name, []);
    assert granted[id] == Role(id, name, [p]);
    var subject := Subject([RoleId(id)], []);
    assert ResolveRole(granted, subject.roles[0]) == Some(granted[id]);
    assert StoredPermissions(granted, id) == [p];
    assert PermissionMatches(StoredPermissions(granted, id)[0], a, Some(r), None);
    assert RoleGrants(granted, subject.roles[0], p);
    assert !RoleGrants(granted, subject.roles[0], Permission(a + ":" + r + ":*", a, Some(r), Some("*")));
    assert b + ":" + r + ":*" == b + ":" + r + ":" + "*";
    ParseThreeSegments(b, r, "*");
    assert !RoleGrants(granted, subject.roles[0], Permission(b + ":" + r + ":*", b, Some(r), Some("*")));
  }

  /** A directly granted "a:r:s" covers exactly that request and not another action
      on the same resource. */
  lemma DirectPermissionScenario(store: RoleStore, a: string, r: string, sc: string, b: string)
    requires ':' !in a && ':' !in r && ':' !in sc && sc != ""
    requires ':' !in b && a != "*" && b != a
    ensures var subject := Subject([], [PermissionString(a + ":" + r + ":" + sc)]);
      && Authorized(store, subject, PermissionString(a + ":" + r + ":" + sc))
      && !Authorized(store, subject, PermissionString(b + ":" + r))
  {
    ParseThreeSegments(a, r, sc);
    ParseTwoSegments(b, r);
    var subject := Subject([], [PermissionString(a + ":" + r + ":" + sc)]);
    var p := Permission(a + ":" + r + ":" + sc, a, Some(r), Some(sc));
    assert Normalize(subject.permissions[0]) == p;
    assert PermissionMatches(p, a, Some(r), Some(sc));
    assert !PermissionMatches(p, b, Some(r), None);
  }
}
