/**
 * The records the library passes around: permissions, roles, the inputs that
 * accept either a string or a record, and the two failure conditions.
 */
module Types {

  /** A value that may be `undefined`. */
  datatype Option<+T> = None | Some(value: T)

  /** The conditions the library throws: a permission or role id registered twice,
      and a permission assigned to a role id that is not stored. */
  datatype Error = DuplicateId(id: string) | RoleNotFound(id: string)

  /** The outcome of a mutating call: the new state, or the error it threw. */
  datatype Result<+T> = Success(value: T) | Failure(error: Error)

  /** A permission. `resource` and `resourceScope` are optional because parsing a
      string with fewer than two (three) colon-separated segments leaves them undefined. */
  datatype Permission = Permission(
    id: string,
    action: string,
    resource: Option<string>,
    resourceScope: Option<string>)

  /** A stored role: an id, a display name and an ordered list of permissions. */
  datatype Role = Role(id: string, name: string, permissions: seq<Permission>)

  /** Wherever the library takes a permission it takes a permission string or a record. */
  datatype PermissionInput = PermissionString(text: string) | PermissionRecord(permission: Permission)

  /** The argument of role creation: its permission list may still hold strings. */
  datatype RoleInput = RoleInput(id: string, name: string, permissions: seq<PermissionInput>)

  /** An entry of a subject's role list: a role id or a role record. */
  datatype RoleRef = RoleId(id: string) | RoleRecord(role: Role)

  /** The subject of an authorization decision, supplied per call. */
  datatype Subject = Subject(roles: seq<RoleRef>, permissions: seq<PermissionInput>)
}
