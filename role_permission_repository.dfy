/**
 * RolePermissionRepository: the links between Identity roles and permissions.
 * A link is active while it is not soft-deleted; the unique index on
 * (RoleId, PermissionId) counts soft-deleted links too.
 */
module RolePermissionRepository {
  import opened Wrappers
  import opened Entities
  import opened Seqs
  import opened GenericRepository
  import PermissionRepository

  function RoleOf(rp: RolePermission): string { rp.roleId }

  function PairOf(rp: RolePermission): (string, Guid) { (rp.roleId, rp.permissionId) }

  /** GetByRoleIdAsync: exactly the active links of the role, in table order. */
  function GetByRoleId(t: Table<RolePermission>, roleId: string): (r: seq<Row<RolePermission>>)
    ensures forall i :: 0 <= i < |r| ==> r[i] in t.All() && r[i].data.roleId == roleId && !r[i].isDeleted
    ensures forall i :: 0 <= i < |t.All()| && t.All()[i].data.roleId == roleId && !t.All()[i].isDeleted ==> t.All()[i] in r
  {
    t.AllActive(RoleOf, roleId)
  }

  /** GetByRoleIdAndPermissionIdAsync: the active link of the pair. */
  function GetByRoleIdAndPermissionId(t: Table<RolePermission>, roleId: string, permissionId: Guid)
    : (r: Option<Row<RolePermission>>)
    ensures r.Some? ==> r.value in t.All() && PairOf(r.value.data) == (roleId, permissionId) && !r.value.isDeleted
    ensures r.None? <==> forall i :: 0 <= i < |t.All()| ==> PairOf(t.All()[i].data) != (roleId, permissionId) || t.All()[i].isDeleted
  {
    t.FirstActive(PairOf, (roleId, permissionId))
  }

  /** GetByRoleIdAndPermissionIdIncludingDeletedAsync: the link of the pair, soft-deleted or not. */
  function GetByRoleIdAndPermissionIdIncludingDeleted(t: Table<RolePermission>, roleId: string, permissionId: Guid)
    : (r: Option<Row<RolePermission>>)
    ensures r.Some? ==> r.value in t.All() && PairOf(r.value.data) == (roleId, permissionId)
    ensures r.None? <==> forall i :: 0 <= i < |t.All()| ==> PairOf(t.All()[i].data) != (roleId, permissionId)
  {
    First(t.All(), (x: Row<RolePermission>) => PairOf(x.data) == (roleId, permissionId))
  }

  /** The two pair lookups agree whenever the active one finds a link. */
  lemma {:induction false} ActiveLookupIsIncludingDeleted(t: Table<RolePermission>, roleId: string, permissionId: Guid)
    requires t.WellFormed() && t.IsUnique(RolePermissionKeys)
    requires GetByRoleIdAndPermissionId(t, roleId, permissionId).Some?
    ensures GetByRoleIdAndPermissionIdIncludingDeleted(t, roleId, permissionId) == GetByRoleIdAndPermissionId(t, roleId, permissionId)
  {
    var a := GetByRoleIdAndPermissionId(t, roleId, permissionId).value;
    var b := GetByRoleIdAndPermissionIdIncludingDeleted(t, roleId, permissionId).value;
    AllMembers(t, a);
    AllMembers(t, b);
    assert PairOf(a.data) in RolePermissionKeys(a.data);
  }

  /** The keys of the active links of a role. */
  function ActiveLinkIds(t: Table<RolePermission>, roleId: string): set<Guid> {
    set id | id in t.rows && t.rows[id].data.roleId == roleId && !t.rows[id].isDeleted
  }

  lemma {:induction false} LinkIdsOfGetByRoleId(t: Table<RolePermission>, roleId: string)
    requires t.WellFormed()
    ensures (set k | 0 <= k < |GetByRoleId(t, roleId)| :: GetByRoleId(t, roleId)[k].id) == ActiveLinkIds(t, roleId)
  {
    var e := GetByRoleId(t, roleId);
    forall id | id in ActiveLinkIds(t, roleId) ensures exists k :: 0 <= k < |e| && e[k].id == id {
      AllMembers(t, t.rows[id]);
      var j :| 0 <= j < |t.All()| && t.All()[j] == t.rows[id];
      var k :| 0 <= k < |e| && e[k] == t.rows[id];
    }
    forall k | 0 <= k < |e| ensures e[k].id in ActiveLinkIds(t, roleId) {
      AllMembers(t, e[k]);
    }
  }

  /**
   * DeleteByRoleIdAsync: DeleteAsync on each active link of the role, staged
   * for the caller's SaveChangesAsync. Afterwards the role has no active link
   * and the links of other roles are untouched.
   */
  method DeleteByRoleId(t: Table<RolePermission>, roleId: string, now: Time) returns (staged: Table<RolePermission>)
    requires t.WellFormed()
    ensures staged == t.SoftDeletedAll(ActiveLinkIds(t, roleId), now)
    ensures staged.WellFormed() && GetByRoleId(staged, roleId) == []
    ensures forall id :: id in t.rows && t.rows[id].data.roleId != roleId ==> staged.rows[id] == t.rows[id]
  {
    var existing := GetByRoleId(t, roleId);
    forall i | 0 <= i < |existing| ensures existing[i].id in t.rows {
      AllMembers(t, existing[i]);
    }
    staged := SoftDeleteEach(t, existing, now);
    LinkIdsOfGetByRoleId(t, roleId);
    NoActiveLinkLeft(t, roleId, now);
  }

  lemma {:induction false} NoActiveLinkLeft(t: Table<RolePermission>, roleId: string, now: Time)
    requires t.WellFormed()
    ensures t.SoftDeletedAll(ActiveLinkIds(t, roleId), now).WellFormed()
    ensures GetByRoleId(t.SoftDeletedAll(ActiveLinkIds(t, roleId), now), roleId) == []
  {
    var u := t.SoftDeletedAll(ActiveLinkIds(t, roleId), now);
    SoftDeletedAllFacts(t, RolePermissionKeys, ActiveLinkIds(t, roleId), now);
    var e := GetByRoleId(u, roleId);
    if e != [] {
      AllMembers(u, e[0]);
      assert false;
    }
  }

  /** x.Permission.Name == name && !x.Permission.IsDeleted: the link's permission through the foreign key. */
  predicate LinksToName(permissions: Table<Permission>, name: string, x: Row<RolePermission>) {
    x.data.permissionId in permissions.rows
    && permissions.rows[x.data.permissionId].data.name == name
    && !permissions.rows[x.data.permissionId].isDeleted
  }

  /** RoleHasPermissionAsync. */
  predicate RoleHasPermission(t: Table<RolePermission>, permissions: Table<Permission>, roleId: string, name: string) {
    Any(t.All(), (x: Row<RolePermission>) => x.data.roleId == roleId && !x.isDeleted && LinksToName(permissions, name, x))
  }

  /** It agrees with the names of GetPermissionsByRoleIdAsync. */
  lemma {:induction false} RoleHasPermissionIff(t: Table<RolePermission>, permissions: Table<Permission>, roleId: string, name: string)
    requires permissions.WellFormed()
    ensures RoleHasPermission(t, permissions, roleId, name) <==>
      exists p :: p in PermissionRepository.GetPermissionsByRoleId(permissions, t, roleId) && p.data.name == name
  {
    var ps := PermissionRepository.GetPermissionsByRoleId(permissions, t, roleId);
    if RoleHasPermission(t, permissions, roleId, name) {
      var i :| 0 <= i < |t.All()| && t.All()[i].data.roleId == roleId && !t.All()[i].isDeleted
        && LinksToName(permissions, name, t.All()[i]);
      var p := permissions.rows[t.All()[i].data.permissionId];
      AllMembers(permissions, p);
      assert PermissionRepository.LinkedToAny(t, [roleId], p);
      var j :| 0 <= j < |permissions.All()| && permissions.All()[j] == p;
      assert p in ps;
    }
    if exists p :: p in ps && p.data.name == name {
      var p :| p in ps && p.data.name == name;
      var j :| 0 <= j < |ps| && ps[j] == p;
      AllMembers(permissions, p);
      var i :| 0 <= i < |t.All()| && t.All()[i].data.permissionId == p.id
        && t.All()[i].data.roleId in [roleId] && !t.All()[i].isDeleted;
      assert LinksToName(permissions, name, t.All()[i]);
    }
  }
}
