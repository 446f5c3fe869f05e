/**
 * The permission catalog: permissions keyed by id, ids unique, listed in the
 * order they were first inserted (the iteration order of a JavaScript Map).
 */
module PermissionRegistry {
  import opened Types

  /** `entries` is the Map; `order` records its keys in insertion order. */
  datatype Registry = Registry(entries: map<string, Permission>, order: seq<string>)

  /** `order` lists exactly the keys of `entries`, as many as there are keys. */
  ghost predicate OrderListsKeys(entries: map<string, Permission>, order: seq<string>) {
    && |order| == |entries|
    && (forall i :: 0 <= i < |order| ==> order[i] in entries)
    && (forall id :: id in entries ==> id in order)
  }

  /** No id occurs twice. */
  ghost predicate NoDuplicates(order: seq<string>) {
    forall i, j :: 0 <= i < j < |order| ==> order[i] != order[j]
  }

  /** Every permission is stored under its own id. */
  ghost predicate KeyedById(entries: map<string, Permission>) {
    forall id :: id in entries ==> entries[id].id == id
  }

  /** The representation invariant every reachable catalog satisfies. */
  ghost predicate Valid(reg: Registry) {
    && OrderListsKeys(reg.entries, reg.order)
    && NoDuplicates(reg.order)
    && KeyedById(reg.entries)
  }

  /** A new, empty catalog. */
  function Empty(): (reg: Registry)
    ensures Valid(reg)
    ensures forall id :: GetPermission(reg, id) == None
    ensures GetAllPermissions(reg) == []
  {
    Registry(map[], [])
  }

  /** Looks a permission up by id; absent, not an error, when unknown. */
  function GetPermission(reg: Registry, id: string): Option<Permission> {
    if id in reg.entries then Some(reg.entries[id]) else None
  }

  /** The stored values of the keys in `order`, in that order. */
  function ValuesInOrder(entries: map<string, Permission>, order: seq<string>): (ps: seq<Permission>)
    ensures |ps| <= |order|
    decreases |order|
  {
    if |order| == 0 then []
    else (if order[0] in entries then [entries[order[0]]] else []) + ValuesInOrder(entries, order[1..])
  }

  /** When every listed key is stored, the listing has one value per key, and
      position `i` holds the value of the `i`-th key. */
  lemma {:induction false} ValuesInOrderAt(entries: map<string, Permission>, order: seq<string>)
    requires forall i :: 0 <= i < |order| ==> order[i] in entries
    ensures |ValuesInOrder(entries, order)| == |order|
    ensures forall i :: 0 <= i < |order| ==> ValuesInOrder(entries, order)[i] == entries[order[i]]
    decreases |order|
  {
    if |order| > 0 {
      assert order[0] in entries;
      var tail := order[1..];
      assert forall i :: 0 <= i < |tail| ==> tail[i] == order[i + 1];
      ValuesInOrderAt(entries, tail);
    }
  }

  /** Every registered permission, in insertion order. */
  function GetAllPermissions(reg: Registry): seq<Permission> {
    ValuesInOrder(reg.entries, reg.order)
  }

  /** Inserts a permission under its id; a taken id is a `DuplicateId` failure,
      and the caller's catalog stays as it was. */
  function RegisterPermission(reg: Registry, p: Permission): (r: Result<Registry>)
    ensures r.Failure? <==> p.id in reg.entries
    ensures r.Failure? ==> r.error == DuplicateId(p.id)
    ensures r.Success? ==> GetPermission(r.value, p.id) == Some(p)
    ensures r.Success? ==> forall id :: id != p.id ==> GetPermission(r.value, id) == GetPermission(reg, id)
  {
    if p.id in reg.entries then Failure(DuplicateId(p.id))
    else Success(Registry(reg.entries[p.id := p], reg.order + [p.id]))
  }

  /** A successful registration keeps the invariant and appends the permission to
      the end of the listing. */
  lemma RegisterAppends(reg: Registry, p: Permission)
    requires Valid(reg)
    requires RegisterPermission(reg, p).Success?
    ensures Valid(RegisterPermission(reg, p).value)
    ensures GetAllPermissions(RegisterPermission(reg, p).value) == GetAllPermissions(reg) + [p]
  {
    AppendKeepsOrderListsKeys(reg.entries, reg.order, p);
    AppendKeepsNoDuplicates(reg.order, p.id);
    AppendListsLast(reg.entries, reg.order, p);
  }

  lemma AppendListsLast(entries: map<string, Permission>, order: seq<string>, p: Permission)
    requires forall i :: 0 <= i < |order| ==> order[i] in entries
    requires p.id !in entries
    ensures ValuesInOrder(entries[p.id := p], order + [p.id]) == ValuesInOrder(entries, order) + [p]
  {
    var order' := order + [p.id];
    var entries' := entries[p.id := p];
    assert forall i :: 0 <= i < |order'| ==> order'[i] in entries';
    ValuesInOrderAt(entries', order');
    ValuesInOrderAt(entries, order);
    var xs, ys := ValuesInOrder(entries', order'), ValuesInOrder(entries, order);
    forall i | 0 <= i < |order|
      ensures xs[i] == ys[i]
    {
      assert order'[i] == order[i];
    }
  }

  lemma AppendKeepsOrderListsKeys(entries: map<string, Permission>, order: seq<string>, p: Permission)
    requires OrderListsKeys(entries, order)
    requires p.id !in entries
    ensures OrderListsKeys(entries[p.id := p], order + [p.id])
  {
  }

  lemma AppendKeepsNoDuplicates(order: seq<string>, id: string)
    requires NoDuplicates(order)
    requires id !in order
    ensures NoDuplicates(order + [id])
  {
  }

  /** The listing has one entry per registered id, holds every registered permission,
      and lists nothing that is not registered, each exactly once. */
  lemma GetAllListsRegistered(reg: Registry)
    requires Valid(reg)
    ensures |GetAllPermissions(reg)| == |reg.entries|
    ensures forall id :: id in reg.entries ==> reg.entries[id] in GetAllPermissions(reg)
    ensures forall p :: p in GetAllPermissions(reg) ==> GetPermission(reg, p.id) == Some(p)
    ensures forall i, j :: 0 <= i < j < |GetAllPermissions(reg)| ==>
              GetAllPermissions(reg)[i].id != GetAllPermissions(reg)[j].id
  {
    var all := GetAllPermissions(reg);
    ValuesInOrderAt(reg.entries, reg.order);
    forall id | id in reg.entries
      ensures reg.entries[id] in all
    {
      var i :| 0 <= i < |reg.order| && reg.order[i] == id;
      assert all[i] == reg.entries[id];
    }
  }

  /** Registering the same permission twice: the second call fails with
      `DuplicateId`, and the listing holds the permission exactly once. */
  lemma RegisterTwiceFails(reg: Registry, p: Permission)
    requires Valid(reg)
    requires p.id !in reg.entries
    ensures RegisterPermission(reg, p).Success?
    ensures RegisterPermission(RegisterPermission(reg, p).value, p) == Failure(DuplicateId(p.id))
    ensures var all := GetAllPermissions(RegisterPermission(reg, p).value);
      |all| == |reg.entries| + 1 && all[|all| - 1] == p &&
      forall i :: 0 <= i < |all| - 1 ==> all[i].id != p.id
  {
    RegisterAppends(reg, p);
    GetAllListsRegistered(reg);
    var before := GetAllPermissions(reg);
    forall i | 0 <= i < |before|
      ensures before[i].id != p.id
    {
      assert before[i] in before;
    }
  }
}
