/**
 * PermissionRepository: permissions by Name, by (Resource, Action) and by
 * Resource, and the permissions reachable from roles through active
 * role-permission links. `p.RolePermissions.Any(...)` is a join with the
 * role-permission table on PermissionId.
 */
module PermissionRepository {
  import opened Wrappers
  import opened Entities
  import opened Seqs
  import opened GenericRepository

  function NameOf(p: Permission): string { p.name }

  function ResourceAndActionOf(p: Permission): (string, string) { (p.resource, p.action) }

  function ResourceOf(p: Permission): string { p.resource }

  /** GetByNameAsync. */
  function GetByName(t: Table<Permission>, name: string): (r: Option<Row<Permission>>)
    ensures r.Some? ==> r.value in t.All() && r.value.data.name == name && !r.value.isDeleted
    ensures r.None? <==> forall i :: 0 <= i < |t.All()| ==> t.All()[i].data.name != name || t.All()[i].isDeleted
  {
    t.FirstActive(NameOf, name)
  }

  /** GetByResourceAndActionAsync. */
  function GetByResourceAndAction(t: Table<Permission>, resource: string, action: string): (r: Option<Row<Permission>>)
    ensures r.Some? ==> r.value in t.All() && r.value.data.resource == resource && r.value.data.action == action && !r.value.isDeleted
    ensures r.None? <==> forall i :: 0 <= i < |t.All()| ==>
      !(t.All()[i].data.resource == resource && t.All()[i].data.action == action && !t.All()[i].isDeleted)
  {
    t.FirstActive(ResourceAndActionOf, (resource, action))
  }

  /** GetByResourceAsync: exactly the active permissions of that Resource, in table order. */
  function GetByResource(t: Table<Permission>, resource: string): (r: seq<Row<Permission>>)
    ensures forall i :: 0 <= i < |r| ==> r[i] in t.All() && r[i].data.resource == resource && !r[i].isDeleted
    ensures forall i :: 0 <= i < |t.All()| && t.All()[i].data.resource == resource && !t.All()[i].isDeleted ==> t.All()[i] in r
  {
    t.AllActive(ResourceOf, resource)
  }

  /** ExistsByNameAsync. */
  predicate ExistsByName(t: Table<Permission>, name: string) {
    t.AnyActive(NameOf, name)
  }

  lemma {:induction false} ExistsByNameIff(t: Table<Permission>, name: string)
    ensures ExistsByName(t, name) <==> GetByName(t, name).Some?
  {
    AnyActiveIffFirstActive(t, NameOf, name);
  }

  /** The unique indexes on Name and on (Resource, Action). */
  lemma {:induction false} KeysAreUnique(t: Table<Permission>)
    requires t.IsUnique(PermissionKeys)
    ensures t.UniqueOn(NameOf) && t.UniqueOn(ResourceAndActionOf)
  {
    forall a, b | a in t.rows && b in t.rows && a != b
      ensures NameOf(t.rows[a].data) != NameOf(t.rows[b].data)
      ensures ResourceAndActionOf(t.rows[a].data) != ResourceAndActionOf(t.rows[b].data)
    {
      assert NameKey(t.rows[a].data.name) in PermissionKeys(t.rows[a].data);
      assert ResourceActionKey(t.rows[a].data.resource, t.rows[a].data.action) in PermissionKeys(t.rows[a].data);
    }
  }

  /** Under the unique indexes, both lookups find the active permission holding the key. */
  lemma {:induction false} LookupsFindTheRow(t: Table<Permission>, r: Row<Permission>)
    requires t.WellFormed() && t.IsUnique(PermissionKeys) && r in t.GetAll()
    ensures GetByName(t, r.data.name) == Some(r)
    ensures GetByResourceAndAction(t, r.data.resource, r.data.action) == Some(r)
  {
    GetAllMembers(t, r);
    KeysAreUnique(t);
    FirstActiveIsTheRow(t, NameOf, r);
    FirstActiveIsTheRow(t, ResourceAndActionOf, r);
  }

  /** rp => roleIds.Contains(rp.RoleId) && !rp.IsDeleted, for a link of permission `p`. */
  predicate LinkedToAny(links: Table<RolePermission>, roleIds: seq<string>, p: Row<Permission>) {
    exists i :: 0 <= i < |links.All()| && links.All()[i].data.permissionId == p.id
      && links.All()[i].data.roleId in roleIds && !links.All()[i].isDeleted
  }

  /** GetPermissionsByRoleIdAsync: active permissions with an active link to the role. */
  function GetPermissionsByRoleId(t: Table<Permission>, links: Table<RolePermission>, roleId: string)
    : (r: seq<Row<Permission>>)
    ensures forall i :: 0 <= i < |r| ==> r[i] in t.All() && !r[i].isDeleted && LinkedToAny(links, [roleId], r[i])
    ensures forall i :: 0 <= i < |t.All()| && !t.All()[i].isDeleted && LinkedToAny(links, [roleId], t.All()[i]) ==> t.All()[i] in r
  {
    Filter(t.All(), (p: Row<Permission>) => !p.isDeleted && LinkedToAny(links, [roleId], p))
  }

  /** GetPermissionsByUserRolesAsync: empty for no roles, else active permissions linked to one of them. */
  function GetPermissionsByUserRoles(t: Table<Permission>, links: Table<RolePermission>, roleIds: seq<string>)
    : (r: seq<Row<Permission>>)
    ensures forall i :: 0 <= i < |r| ==> r[i] in t.All() && !r[i].isDeleted && LinkedToAny(links, roleIds, r[i])
    ensures forall i :: 0 <= i < |t.All()| && !t.All()[i].isDeleted && LinkedToAny(links, roleIds, t.All()[i]) ==> t.All()[i] in r
  {
    if roleIds == [] then []
    else Filter(t.All(), (p: Row<Permission>) => !p.isDeleted && LinkedToAny(links, roleIds, p))
  }

  /** The result holds each permission once. */
  lemma {:induction false} UserRolesNoDuplicates(t: Table<Permission>, links: Table<RolePermission>, roleIds: seq<string>)
    requires t.WellFormed()
    ensures NoDuplicates(GetPermissionsByUserRoles(t, links, roleIds))
  {
    if roleIds != [] {
      AllNoDuplicates(t);
      FilterNoDuplicates(t.All(), (p: Row<Permission>) => !p.isDeleted && LinkedToAny(links, roleIds, p));
    }
  }

  /** The roles' permissions are the union of each role's permissions. */
  lemma {:induction false} UserRolesIsUnion(t: Table<Permission>, links: Table<RolePermission>, roleIds: seq<string>, p: Row<Permission>)
    ensures p in GetPermissionsByUserRoles(t, links, roleIds) <==>
      exists j :: 0 <= j < |roleIds| && p in GetPermissionsByRoleId(t, links, roleIds[j])
  {
    var r := GetPermissionsByUserRoles(t, links, roleIds);
    if p in r {
      var i :| 0 <= i < |r| && r[i] == p;
      var k :| 0 <= k < |links.All()| && links.All()[k].data.permissionId == p.id
        && links.All()[k].data.roleId in roleIds && !links.All()[k].isDeleted;
      var j :| 0 <= j < |roleIds| && roleIds[j] == links.All()[k].data.roleId;
      assert LinkedToAny(links, [roleIds[j]], p);
      var m :| 0 <= m < |t.All()| && t.All()[m] == p;
    }
    if exists j :: 0 <= j < |roleIds| && p in GetPermissionsByRoleId(t, links, roleIds[j]) {
      var j :| 0 <= j < |roleIds| && p in GetPermissionsByRoleId(t, links, roleIds[j]);
      var q := GetPermissionsByRoleId(t, links, roleIds[j]);
      var i :| 0 <= i < |q| && q[i] == p;
      var k :| 0 <= k < |links.All()| && links.All()[k].data.permissionId == p.id
        && links.All()[k].data.roleId in [roleIds[j]] && !links.All()[k].isDeleted;
      assert LinkedToAny(links, roleIds, p);
      var m :| 0 <= m < |t.All()| && t.All()[m] == p;
    }
  }

  /** Adding role ids never removes a permission. */
  lemma {:induction false} UserRolesMonotone(t: Table<Permission>, links: Table<RolePermission>, roleIds: seq<string>, more: seq<string>, p: Row<Permission>)
    requires forall i :: 0 <= i < |roleIds| ==> roleIds[i] in more
    requires p in GetPermissionsByUserRoles(t, links, roleIds)
    ensures p in GetPermissionsByUserRoles(t, links, more)
  {
    UserRolesIsUnion(t, links, roleIds, p);
    var j :| 0 <= j < |roleIds| && p in GetPermissionsByRoleId(t, links, roleIds[j]);
    var j' :| 0 <= j' < |more| && more[j'] == roleIds[j];
    UserRolesIsUnion(t, links, more, p);
  }
}
