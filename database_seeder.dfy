/**
 * DatabaseSeeder: the start-up upserts of languages and permissions and the
 * reconciliation of a role's permission links.
 *
 * Each seeding step stages its changes on the committed table and ends with
 * one SaveChangesAsync. Lookups inside a step query the committed table
 * (`db`); a row that the step already loaded is seen in its staged state.
 */
module DatabaseSeeder {
  import opened Wrappers
  import opened Entities
  import opened Seqs
  import opened Text
  import opened GenericRepository
  import opened RolePermissionRepository
  import PermissionRepository
  import LanguageRepository

  /** The permissions the role's active links grant. */
  function ActivePermissionIds(t: Table<RolePermission>, roleId: string): set<Guid> {
    set id | id in t.rows && t.rows[id].data.roleId == roleId && !t.rows[id].isDeleted :: t.rows[id].data.permissionId
  }

  /** The active links of the role to a permission that is not a target: the ones soft-deleted. */
  function RemovedIds(t: Table<RolePermission>, roleId: string, targets: set<Guid>): set<Guid> {
    set id | id in t.rows && t.rows[id].data.roleId == roleId && !t.rows[id].isDeleted
                         && t.rows[id].data.permissionId !in targets
  }

  function Stamped(r: Row<RolePermission>, now: Time): Row<RolePermission> {
    r.(isDeleted := true, updatedAt := Some(now))
  }

  function Restored(r: Row<RolePermission>, now: Time): Row<RolePermission> {
    r.(isDeleted := false, updatedAt := Some(now))
  }

  function Link(id: Guid, roleId: string, permissionId: Guid, now: Time): Row<RolePermission> {
    Row(id, now, None, false, RolePermission(roleId, permissionId))
  }

  /** One pass of the add-or-restore loop (lines 285-307) for permission `pid`. */
  function AddOrRestoreOne(db: Table<RolePermission>, staged: Table<RolePermission>, roleId: string,
                           existingIds: set<Guid>, pid: Guid, now: Time): Table<RolePermission>
  {
    if pid in existingIds then staged
    else match GetByRoleIdAndPermissionIdIncludingDeleted(db, roleId, pid)
      case Some(found) =>
        if found.id in staged.rows && staged.rows[found.id].isDeleted
        then staged.Replaced(Restored(staged.rows[found.id], now))
        else staged
      case None => staged.Inserted(Link(staged.NextId(), roleId, pid, now))
  }

  /** The add-or-restore loop over `ps`, in order. */
  function AddOrRestore(db: Table<RolePermission>, staged: Table<RolePermission>, roleId: string,
                        existingIds: set<Guid>, ps: seq<Guid>, now: Time): Table<RolePermission>
    decreases |ps|
  {
    if ps == [] then staged
    else AddOrRestoreOne(db, AddOrRestore(db, staged, roleId, existingIds, ps[..|ps| - 1], now),
                         roleId, existingIds, ps[|ps| - 1], now)
  }

  /** permissions.Select(p => p.Id).ToHashSet(). */
  function Targets(ps: seq<Guid>): set<Guid> { set p | p in ps }

  /** The staged table of AssignPermissionsToRoleAsync(roleId, ps). */
  function AssignSpec(t: Table<RolePermission>, roleId: string, ps: seq<Guid>, now: Time): Table<RolePermission> {
    AddOrRestore(t, t.SoftDeletedAll(RemovedIds(t, roleId, Targets(ps)), now), roleId,
                 ActivePermissionIds(t, roleId), ps, now)
  }

  /** No link of the pair exists, soft-deleted or not. */
  predicate NoLinkFor(t: Table<RolePermission>, roleId: string, pid: Guid) {
    forall id :: id in t.rows ==> PairOf(t.rows[id].data) != (roleId, pid)
  }

  /** What the reconciliation leaves in an existing row once `ps` have been processed. */
  function Expected(t: Table<RolePermission>, roleId: string, targets: set<Guid>, ps: seq<Guid>, now: Time, id: Guid)
    : Row<RolePermission>
    requires id in t.rows
  {
    var r := t.rows[id];
    if id in RemovedIds(t, roleId, targets) then Stamped(r, now)
    else if r.data.roleId == roleId && r.isDeleted && r.data.permissionId in ps then Restored(r, now)
    else r
  }

  /** Every committed row is in its expected state once `ps` have been processed. */
  ghost predicate KeepsExisting(t: Table<RolePermission>, roleId: string, targets: set<Guid>, ps: seq<Guid>, now: Time,
                                j: Table<RolePermission>)
  {
    forall id :: id in t.rows ==> id in j.rows && j.rows[id] == Expected(t, roleId, targets, ps, now, id)
  }

  /** Every staged row the committed table lacks is a fresh link of a processed pair that had none. */
  ghost predicate AddsOnlyLinks(t: Table<RolePermission>, roleId: string, ps: seq<Guid>, now: Time, j: Table<RolePermission>) {
    forall id :: id in j.rows && id !in t.rows ==>
      && j.rows[id] == Link(id, roleId, j.rows[id].data.permissionId, now)
      && j.rows[id].data.permissionId in ps
      && NoLinkFor(t, roleId, j.rows[id].data.permissionId)
  }

  /** Every processed pair that had no link has a staged fresh one. */
  ghost predicate LinksMissing(t: Table<RolePermission>, roleId: string, ps: seq<Guid>, j: Table<RolePermission>) {
    forall p :: p in ps && NoLinkFor(t, roleId, p) ==>
      exists id :: id in j.rows && id !in t.rows && j.rows[id].data.permissionId == p
  }

  /** The loop invariant of the reconciliation, after the ids `ps`. */
  ghost predicate Reconciled(t: Table<RolePermission>, roleId: string, targets: set<Guid>, ps: seq<Guid>, now: Time,
                             j: Table<RolePermission>)
  {
    && j.WellFormed()
    && j.IsUnique(RolePermissionKeys)
    && KeepsExisting(t, roleId, targets, ps, now, j)
    && AddsOnlyLinks(t, roleId, ps, now, j)
    && LinksMissing(t, roleId, ps, j)
  }

  lemma {:induction false} ReconciledStart(t: Table<RolePermission>, roleId: string, targets: set<Guid>, now: Time)
    requires t.WellFormed() && t.IsUnique(RolePermissionKeys)
    ensures Reconciled(t, roleId, targets, [], now, t.SoftDeletedAll(RemovedIds(t, roleId, targets), now))
  {
    SoftDeletedAllFacts(t, RolePermissionKeys, RemovedIds(t, roleId, targets), now);
  }

  /** Two rows of one pair are the same row. */
  lemma {:induction false} OneRowPerPair(t: Table<RolePermission>, a: Guid, b: Guid)
    requires t.IsUnique(RolePermissionKeys) && a in t.rows && b in t.rows
    requires PairOf(t.rows[a].data) == PairOf(t.rows[b].data)
    ensures a == b
  {
    assert PairOf(t.rows[a].data) in RolePermissionKeys(t.rows[a].data);
  }

  /** Processing `p` changes the expected state only of the soft-deleted committed link of the pair. */
  lemma {:induction false} ExpectedExtended(t: Table<RolePermission>, roleId: string, targets: set<Guid>, ps: seq<Guid>, p: Guid,
                         now: Time, id: Guid)
    requires id in t.rows
    requires !(PairOf(t.rows[id].data) == (roleId, p) && t.rows[id].isDeleted)
    ensures Expected(t, roleId, targets, ps + [p], now, id) == Expected(t, roleId, targets, ps, now, id)
  {
    var r := t.rows[id];
    assert r.data.permissionId in ps + [p] <==> r.data.permissionId in ps || r.data.permissionId == p;
  }

  lemma {:induction false} AddsOnlyLinksExtended(t: Table<RolePermission>, roleId: string, ps: seq<Guid>, p: Guid, now: Time,
                              j: Table<RolePermission>)
    requires AddsOnlyLinks(t, roleId, ps, now, j)
    ensures AddsOnlyLinks(t, roleId, ps + [p], now, j)
  {
    forall id | id in j.rows && id !in t.rows ensures j.rows[id].data.permissionId in ps + [p] {
      assert j.rows[id].data.permissionId in ps;
    }
  }

  lemma {:induction false} ReconciledStepExisting(t: Table<RolePermission>, roleId: string, targets: set<Guid>, ps: seq<Guid>,
                               p: Guid, now: Time, j: Table<RolePermission>)
    requires t.WellFormed() && t.IsUnique(RolePermissionKeys)
    requires Reconciled(t, roleId, targets, ps, now, j) && p in ActivePermissionIds(t, roleId)
    ensures Reconciled(t, roleId, targets, ps + [p], now, j)
  {
    var id0 :| id0 in t.rows && t.rows[id0].data.roleId == roleId && !t.rows[id0].isDeleted && t.rows[id0].data.permissionId == p;
    forall id | id in t.rows ensures id in j.rows && j.rows[id] == Expected(t, roleId, targets, ps + [p], now, id) {
      if PairOf(t.rows[id].data) == (roleId, p) {
        OneRowPerPair(t, id, id0);
      }
      ExpectedExtended(t, roleId, targets, ps, p, now, id);
    }
    AddsOnlyLinksExtended(t, roleId, ps, p, now, j);
    forall q | q in ps + [p] && NoLinkFor(t, roleId, q)
      ensures exists id :: id in j.rows && id !in t.rows && j.rows[id].data.permissionId == q
    {
      assert PairOf(t.rows[id0].data) == (roleId, p);
      assert q in ps;
    }
  }

  /** Restoring the soft-deleted link `f` of the pair keeps every committed row as expected. */
  lemma {:induction false} RestoreKeepsExisting(t: Table<RolePermission>, roleId: string, targets: set<Guid>, ps: seq<Guid>,
                             p: Guid, now: Time, j: Table<RolePermission>, f: Guid)
    requires t.WellFormed() && t.IsUnique(RolePermissionKeys) && KeepsExisting(t, roleId, targets, ps, now, j)
    requires f in t.rows && PairOf(t.rows[f].data) == (roleId, p) && t.rows[f].isDeleted && p !in ps
    ensures f in j.rows && j.rows[f] == t.rows[f]
    ensures KeepsExisting(t, roleId, targets, ps + [p], now, j.Replaced(Restored(j.rows[f], now)))
  {
    assert f !in RemovedIds(t, roleId, targets);
    assert t.rows[f].data.permissionId == p;
    assert j.rows[f] == Expected(t, roleId, targets, ps, now, f) == t.rows[f];
    var u := j.Replaced(Restored(j.rows[f], now));
    assert u.rows == j.rows[f := Restored(t.rows[f], now)];
    forall id | id in t.rows ensures id in u.rows && u.rows[id] == Expected(t, roleId, targets, ps + [p], now, id) {
      if id != f {
        if PairOf(t.rows[id].data) == (roleId, p) {
          OneRowPerPair(t, id, f);
        }
        ExpectedExtended(t, roleId, targets, ps, p, now, id);
      } else {
        assert t.rows[f].data.permissionId in ps + [p];
        assert Expected(t, roleId, targets, ps + [p], now, f) == Restored(t.rows[f], now);
      }
    }
  }

  lemma {:induction false} ReconciledStepRestore(t: Table<RolePermission>, roleId: string, targets: set<Guid>, ps: seq<Guid>,
                              p: Guid, now: Time, j: Table<RolePermission>, found: Row<RolePermission>)
    requires t.WellFormed() && t.IsUnique(RolePermissionKeys)
    requires Reconciled(t, roleId, targets, ps, now, j) && p !in ps && p !in ActivePermissionIds(t, roleId)
    requires found in t.All() && PairOf(found.data) == (roleId, p)
    ensures found.id in j.rows && j.rows[found.id].isDeleted
    ensures Reconciled(t, roleId, targets, ps + [p], now, j.Replaced(Restored(j.rows[found.id], now)))
  {
    AllMembers(t, found);
    var f := found.id;
    assert t.rows[f].isDeleted;
    RestoreKeepsExisting(t, roleId, targets, ps, p, now, j, f);
    var row := Restored(j.rows[f], now);
    ReplacedWellFormed(j, row);
    ReplacedUnique(j, RolePermissionKeys, row);
    var u := j.Replaced(row);
    assert u.rows == j.rows[f := row];
    AddsOnlyLinksExtended(t, roleId, ps, p, now, j);
    forall id | id in u.rows && id !in t.rows ensures u.rows[id] == j.rows[id] {
    }
    forall q | q in ps + [p] && NoLinkFor(t, roleId, q)
      ensures exists id :: id in u.rows && id !in t.rows && u.rows[id].data.permissionId == q
    {
      assert PairOf(t.rows[f].data) == (roleId, p);
      assert q in ps;
      var id :| id in j.rows && id !in t.rows && j.rows[id].data.permissionId == q;
      assert u.rows[id] == j.rows[id];
    }
  }

  lemma {:induction false} NoLinkWhenNotFound(t: Table<RolePermission>, roleId: string, p: Guid)
    requires t.WellFormed() && GetByRoleIdAndPermissionIdIncludingDeleted(t, roleId, p).None?
    ensures NoLinkFor(t, roleId, p)
  {
    forall id | id in t.rows ensures PairOf(t.rows[id].data) != (roleId, p) {
      AllMembers(t, t.rows[id]);
    }
  }

  /** A fresh link of a pair nobody holds clashes with no staged row. */
  lemma {:induction false} FreshLinkNoClash(t: Table<RolePermission>, roleId: string, targets: set<Guid>, ps: seq<Guid>,
                         p: Guid, now: Time, j: Table<RolePermission>)
    requires Reconciled(t, roleId, targets, ps, now, j) && p !in ps && NoLinkFor(t, roleId, p)
    ensures !j.Clashes(RolePermissionKeys, j.NextId(), Link(j.NextId(), roleId, p, now).data)
  {
    var n := j.NextId();
    forall other | other in j.rows && other != n
      ensures RolePermissionKeys(j.rows[other].data) !! RolePermissionKeys(Link(n, roleId, p, now).data)
    {
      if other in t.rows {
        assert j.rows[other].data == t.rows[other].data;
        assert PairOf(t.rows[other].data) != (roleId, p);
      } else {
        assert j.rows[other].data.permissionId in ps;
      }
    }
  }

  /** Inserting a fresh link keeps every committed row as expected. */
  lemma {:induction false} InsertKeepsExisting(t: Table<RolePermission>, roleId: string, targets: set<Guid>, ps: seq<Guid>,
                            p: Guid, now: Time, j: Table<RolePermission>, row: Row<RolePermission>)
    requires KeepsExisting(t, roleId, targets, ps, now, j) && NoLinkFor(t, roleId, p) && row.id !in j.rows
    ensures KeepsExisting(t, roleId, targets, ps + [p], now, j.Inserted(row))
  {
    var u := j.Inserted(row);
    assert u.rows == j.rows[row.id := row];
    forall id | id in t.rows ensures id in u.rows && u.rows[id] == Expected(t, roleId, targets, ps + [p], now, id) {
      assert PairOf(t.rows[id].data) != (roleId, p);
      ExpectedExtended(t, roleId, targets, ps, p, now, id);
    }
  }

  /** Inserting a fresh link of an unlinked pair keeps the staged rows fresh links. */
  lemma {:induction false} InsertAddsOnlyLinks(t: Table<RolePermission>, roleId: string, ps: seq<Guid>, p: Guid, now: Time,
                            j: Table<RolePermission>, n: Guid)
    requires AddsOnlyLinks(t, roleId, ps, now, j) && NoLinkFor(t, roleId, p) && n !in j.rows && n !in t.rows
    ensures AddsOnlyLinks(t, roleId, ps + [p], now, j.Inserted(Link(n, roleId, p, now)))
  {
    var u := j.Inserted(Link(n, roleId, p, now));
    assert u.rows == j.rows[n := Link(n, roleId, p, now)];
    AddsOnlyLinksExtended(t, roleId, ps, p, now, j);
  }

  lemma {:induction false} InsertLinksMissing(t: Table<RolePermission>, roleId: string, ps: seq<Guid>, p: Guid, now: Time,
                           j: Table<RolePermission>, n: Guid)
    requires LinksMissing(t, roleId, ps, j) && n !in j.rows && n !in t.rows
    ensures LinksMissing(t, roleId, ps + [p], j.Inserted(Link(n, roleId, p, now)))
  {
    var row := Link(n, roleId, p, now);
    var u := j.Inserted(row);
    assert u.rows == j.rows[n := row];
    forall q | q in ps + [p] && NoLinkFor(t, roleId, q)
      ensures exists id :: id in u.rows && id !in t.rows && u.rows[id].data.permissionId == q
    {
      if q != p {
        var id :| id in j.rows && id !in t.rows && j.rows[id].data.permissionId == q;
        assert u.rows[id] == j.rows[id];
      } else {
        assert u.rows[n].data.permissionId == q;
      }
    }
  }

  lemma {:induction false} ReconciledStepInsert(t: Table<RolePermission>, roleId: string, targets: set<Guid>, ps: seq<Guid>,
                             p: Guid, now: Time, j: Table<RolePermission>)
    requires t.WellFormed() && t.IsUnique(RolePermissionKeys)
    requires Reconciled(t, roleId, targets, ps, now, j) && p !in ps
    requires GetByRoleIdAndPermissionIdIncludingDeleted(t, roleId, p).None?
    ensures Reconciled(t, roleId, targets, ps + [p], now, j.Inserted(Link(j.NextId(), roleId, p, now)))
  {
    NoLinkWhenNotFound(t, roleId, p);
    var n := j.NextId();
    var row := Link(n, roleId, p, now);
    FreshLinkNoClash(t, roleId, targets, ps, p, now, j);
    InsertedWellFormed(j, row);
    InsertedUnique(j, RolePermissionKeys, row);
    assert n !in j.rows;
    assert n !in t.rows;
    InsertKeepsExisting(t, roleId, targets, ps, p, now, j, row);
    InsertAddsOnlyLinks(t, roleId, ps, p, now, j, n);
    InsertLinksMissing(t, roleId, ps, p, now, j, n);
  }

  /** The prefix of distinct target ids processed so far keeps the invariant. */
  lemma {:induction false} AddOrRestoreReconciles(t: Table<RolePermission>, roleId: string, targets: set<Guid>,
                                                  ps: seq<Guid>, now: Time)
    requires t.WellFormed() && t.IsUnique(RolePermissionKeys) && NoDuplicates(ps)
    ensures Reconciled(t, roleId, targets, ps, now,
      AddOrRestore(t, t.SoftDeletedAll(RemovedIds(t, roleId, targets), now), roleId, ActivePermissionIds(t, roleId), ps, now))
    decreases |ps|
  {
    var base := t.SoftDeletedAll(RemovedIds(t, roleId, targets), now);
    var e := ActivePermissionIds(t, roleId);
    if ps == [] {
      ReconciledStart(t, roleId, targets, now);
    } else {
      var front, p := ps[..|ps| - 1], ps[|ps| - 1];
      assert ps == front + [p];
      assert p !in front;
      AddOrRestoreReconciles(t, roleId, targets, front, now);
      var j := AddOrRestore(t, base, roleId, e, front, now);
      if p in e {
        ReconciledStepExisting(t, roleId, targets, front, p, now, j);
      } else {
        match GetByRoleIdAndPermissionIdIncludingDeleted(t, roleId, p)
        case Some(found) =>
          ReconciledStepRestore(t, roleId, targets, front, p, now, j, found);
        case None =>
          ReconciledStepInsert(t, roleId, targets, front, p, now, j);
      }
    }
  }

  lemma {:induction false} ActiveIsTarget(t: Table<RolePermission>, roleId: string, ps: seq<Guid>, now: Time, j: Table<RolePermission>, id: Guid)
    requires Reconciled(t, roleId, Targets(ps), ps, now, j)
    requires id in j.rows && j.rows[id].data.roleId == roleId && !j.rows[id].isDeleted
    ensures j.rows[id].data.permissionId in Targets(ps)
  {
    if id in t.rows {
      assert j.rows[id] == Expected(t, roleId, Targets(ps), ps, now, id);
    }
  }

  lemma {:induction false} TargetIsActive(t: Table<RolePermission>, roleId: string, ps: seq<Guid>, now: Time, j: Table<RolePermission>, p: Guid)
    requires Reconciled(t, roleId, Targets(ps), ps, now, j) && p in ps
    ensures p in ActivePermissionIds(j, roleId)
  {
    if id0 :| id0 in t.rows && PairOf(t.rows[id0].data) == (roleId, p) {
      assert j.rows[id0] == Expected(t, roleId, Targets(ps), ps, now, id0);
      assert id0 !in RemovedIds(t, roleId, Targets(ps));
      assert j.rows[id0].data.roleId == roleId && !j.rows[id0].isDeleted && j.rows[id0].data.permissionId == p;
    } else {
      assert NoLinkFor(t, roleId, p);
      var id :| id in j.rows && id !in t.rows && j.rows[id].data.permissionId == p;
      assert j.rows[id] == Link(id, roleId, p, now);
    }
  }

  /** Once every target is processed, the role's active links grant exactly the targets. */
  lemma {:induction false} ReconciledActive(t: Table<RolePermission>, roleId: string, ps: seq<Guid>, now: Time, j: Table<RolePermission>)
    requires Reconciled(t, roleId, Targets(ps), ps, now, j)
    ensures ActivePermissionIds(j, roleId) == Targets(ps)
  {
    forall p | p in ActivePermissionIds(j, roleId) ensures p in Targets(ps) {
      var id :| id in j.rows && j.rows[id].data.roleId == roleId && !j.rows[id].isDeleted && j.rows[id].data.permissionId == p;
      ActiveIsTarget(t, roleId, ps, now, j, id);
    }
    forall p | p in Targets(ps) ensures p in ActivePermissionIds(j, roleId) {
      TargetIsActive(t, roleId, ps, now, j, p);
    }
  }

  /**
   * What AssignPermissionsToRoleAsync promises for distinct targets on a
   * table whose unique index holds: the role ends with exactly the targets,
   * the commit cannot conflict, no row is removed or re-keyed, other roles'
   * links are untouched, and a link is inserted only for a pair that never
   * had one (a soft-deleted link is restored instead).
   */
  lemma {:induction false} AssignFacts(t: Table<RolePermission>, roleId: string, ps: seq<Guid>, now: Time)
    requires t.WellFormed() && t.IsUnique(RolePermissionKeys) && NoDuplicates(ps)
    ensures AssignSpec(t, roleId, ps, now).WellFormed()
    ensures AssignSpec(t, roleId, ps, now).IsUnique(RolePermissionKeys)
    ensures ActivePermissionIds(AssignSpec(t, roleId, ps, now), roleId) == Targets(ps)
    ensures forall id :: id in t.rows ==>
      id in AssignSpec(t, roleId, ps, now).rows && AssignSpec(t, roleId, ps, now).rows[id].data == t.rows[id].data
    ensures forall id :: id in t.rows && t.rows[id].data.roleId != roleId ==> AssignSpec(t, roleId, ps, now).rows[id] == t.rows[id]
    ensures forall id :: id in AssignSpec(t, roleId, ps, now).rows && id !in t.rows ==>
      AssignSpec(t, roleId, ps, now).rows[id].data.roleId == roleId
      && NoLinkFor(t, roleId, AssignSpec(t, roleId, ps, now).rows[id].data.permissionId)
  {
    var targets := Targets(ps);
    AddOrRestoreReconciles(t, roleId, targets, ps, now);
    var u := AssignSpec(t, roleId, ps, now);
    ReconciledActive(t, roleId, ps, now, u);
    forall id | id in t.rows ensures u.rows[id].data == t.rows[id].data {
      assert u.rows[id] == Expected(t, roleId, targets, ps, now, id);
    }
    forall id | id in t.rows && t.rows[id].data.roleId != roleId ensures u.rows[id] == t.rows[id] {
      assert u.rows[id] == Expected(t, roleId, targets, ps, now, id);
    }
  }

  lemma {:induction false} AddOrRestoreExisting(db: Table<RolePermission>, staged: Table<RolePermission>, roleId: string,
                                                existingIds: set<Guid>, ps: seq<Guid>, now: Time)
    requires forall i :: 0 <= i < |ps| ==> ps[i] in existingIds
    ensures AddOrRestore(db, staged, roleId, existingIds, ps, now) == staged
    decreases |ps|
  {
    if ps != [] {
      AddOrRestoreExisting(db, staged, roleId, existingIds, ps[..|ps| - 1], now);
    }
  }

  /** A role that already holds exactly the targets is left as it is. */
  lemma {:induction false} AssignWhenInPlace(t: Table<RolePermission>, roleId: string, ps: seq<Guid>, now: Time)
    requires ActivePermissionIds(t, roleId) == Targets(ps)
    ensures AssignSpec(t, roleId, ps, now) == t
  {
    assert RemovedIds(t, roleId, Targets(ps)) == {};
    SoftDeletedAllNone(t, now);
    AddOrRestoreExisting(t, t, roleId, ActivePermissionIds(t, roleId), ps, now);
  }

  /** Seeding twice leaves what seeding once left: the second run changes no row. */
  lemma {:induction false} AssignIdempotent(t: Table<RolePermission>, roleId: string, ps: seq<Guid>, now1: Time, now2: Time)
    requires t.WellFormed() && t.IsUnique(RolePermissionKeys) && NoDuplicates(ps)
    ensures AssignSpec(AssignSpec(t, roleId, ps, now1), roleId, ps, now2) == AssignSpec(t, roleId, ps, now1)
  {
    AssignFacts(t, roleId, ps, now1);
    AssignWhenInPlace(AssignSpec(t, roleId, ps, now1), roleId, ps, now2);
  }

  /**
   * AssignPermissionsToRoleAsync (before its SaveChangesAsync): soft-delete
   * the role's active links to permissions outside the targets, then for
   * each target not already active restore its soft-deleted link or add one.
   */
  method AssignPermissionsToRole(t: Table<RolePermission>, roleId: string, permissions: seq<Guid>, now: Time)
    returns (staged: Table<RolePermission>)
    requires t.WellFormed()
    ensures staged == AssignSpec(t, roleId, permissions, now)
    ensures t.IsUnique(RolePermissionKeys) && NoDuplicates(permissions) ==>
      staged.IsUnique(RolePermissionKeys) && ActivePermissionIds(staged, roleId) == Targets(permissions)
  {
    var existing := GetByRoleId(t, roleId);
    var existingIds := set k | 0 <= k < |existing| :: existing[k].data.permissionId;
    var targets := set k | 0 <= k < |permissions| :: permissions[k];
    ExistingIdsAreActive(t, roleId);
    assert targets == Targets(permissions);
    var base := SoftDeleteRemoved(t, roleId, targets, now);
    staged := AddOrRestoreAll(t, base, roleId, existingIds, permissions, now);
    if t.IsUnique(RolePermissionKeys) && NoDuplicates(permissions) {
      AssignFacts(t, roleId, permissions, now);
    }
  }

  /** The removal loop (lines 273-280): the role's active links to permissions outside the targets are soft-deleted. */
  method SoftDeleteRemoved(t: Table<RolePermission>, roleId: string, targets: set<Guid>, now: Time)
    returns (staged: Table<RolePermission>)
    requires t.WellFormed()
    ensures staged == t.SoftDeletedAll(RemovedIds(t, roleId, targets), now)
  {
    var existing := GetByRoleId(t, roleId);
    var toRemove := ToRemove(existing, targets);
    forall i | 0 <= i < |toRemove| ensures toRemove[i].id in t.rows {
      AllMembers(t, toRemove[i]);
    }
    staged := SoftDeleteEach(t, toRemove, now);
    RemovedIdsOfExisting(t, roleId, targets);
  }

  /** existingRolePermissions.Where(rp => !targetPermissionIds.Contains(rp.PermissionId)). */
  function ToRemove(existing: seq<Row<RolePermission>>, targets: set<Guid>): seq<Row<RolePermission>> {
    Filter(existing, (rp: Row<RolePermission>) => rp.data.permissionId !in targets)
  }

  /** The add-or-restore loop (lines 285-307) over the requested ids, in order. */
  method AddOrRestoreAll(t: Table<RolePermission>, base: Table<RolePermission>, roleId: string,
                         existingIds: set<Guid>, permissions: seq<Guid>, now: Time)
    returns (staged: Table<RolePermission>)
    ensures staged == AddOrRestore(t, base, roleId, existingIds, permissions, now)
  {
    staged := base;
    var j := 0;
    while j < |permissions|
      invariant 0 <= j <= |permissions|
      invariant staged == AddOrRestore(t, base, roleId, existingIds, permissions[..j], now)
    {
      var pid := permissions[j];
      assert permissions[..j + 1][..j] == permissions[..j];
      if pid !in existingIds {
        var existingDeleted := GetByRoleIdAndPermissionIdIncludingDeleted(t, roleId, pid);
        if existingDeleted.Some? && existingDeleted.value.id in staged.rows && staged.rows[existingDeleted.value.id].isDeleted {
          var tracked := staged.rows[existingDeleted.value.id];
          staged := staged.Replaced(tracked.(isDeleted := false, updatedAt := Some(now)));
        } else if existingDeleted.None? {
          staged := staged.Inserted(Row(staged.NextId(), now, None, false, RolePermission(roleId, pid)));
        }
      }
      j := j + 1;
    }
    assert permissions[..j] == permissions;
  }

  lemma {:induction false} ExistingIdsAreActive(t: Table<RolePermission>, roleId: string)
    requires t.WellFormed()
    ensures (set k | 0 <= k < |GetByRoleId(t, roleId)| :: GetByRoleId(t, roleId)[k].data.permissionId) == ActivePermissionIds(t, roleId)
  {
    var e := GetByRoleId(t, roleId);
    forall p | p in ActivePermissionIds(t, roleId) ensures exists k :: 0 <= k < |e| && e[k].data.permissionId == p {
      var id :| id in t.rows && t.rows[id].data.roleId == roleId && !t.rows[id].isDeleted && t.rows[id].data.permissionId == p;
      AllMembers(t, t.rows[id]);
      var j :| 0 <= j < |t.All()| && t.All()[j] == t.rows[id];
      var k :| 0 <= k < |e| && e[k] == t.rows[id];
    }
    forall k | 0 <= k < |e| ensures e[k].data.permissionId in ActivePermissionIds(t, roleId) {
      AllMembers(t, e[k]);
    }
  }

  lemma {:induction false} RemovedIdsOfExisting(t: Table<RolePermission>, roleId: string, targets: set<Guid>)
    requires t.WellFormed()
    ensures (set k | 0 <= k < |ToRemove(GetByRoleId(t, roleId), targets)| :: ToRemove(GetByRoleId(t, roleId), targets)[k].id)
            == RemovedIds(t, roleId, targets)
  {
    var e := GetByRoleId(t, roleId);
    var r := ToRemove(e, targets);
    forall id | id in RemovedIds(t, roleId, targets)
      ensures exists k :: 0 <= k < |r| && r[k].id == id
    {
      AllMembers(t, t.rows[id]);
      var j :| 0 <= j < |t.All()| && t.All()[j] == t.rows[id];
      var i :| 0 <= i < |e| && e[i] == t.rows[id];
      var k :| 0 <= k < |r| && r[k] == t.rows[id];
    }
    forall k | 0 <= k < |r| ensures r[k].id in RemovedIds(t, roleId, targets) {
      AllMembers(t, r[k]);
    }
  }

  // ---------------------------------------------------------------- permissions

  /** The eighteen permissions SeedPermissionsAsync ensures exist (lines 175-204). */
  const SeedPermissionList: seq<Permission> := [
    Permission("Product.Create", "Create product", "Product", "Create"),
    Permission("Product.Read", "Read product", "Product", "Read"),
    Permission("Product.Update", "Update product", "Product", "Update"),
    Permission("Product.Delete", "Delete product", "Product", "Delete"),
    Permission("Category.Create", "Create category", "Category", "Create"),
    Permission("Category.Read", "Read category", "Category", "Read"),
    Permission("Category.Update", "Update category", "Category", "Update"),
    Permission("Category.Delete", "Delete category", "Category", "Delete"),
    Permission("Permission.Create", "Create permission", "Permission", "Create"),
    Permission("Permission.Read", "Read permission", "Permission", "Read"),
    Permission("Permission.Update", "Update permission", "Permission", "Update"),
    Permission("Permission.Delete", "Delete permission", "Permission", "Delete"),
    Permission("User.Create", "Create user", "User", "Create"),
    Permission("User.Read", "Read user", "User", "Read"),
    Permission("User.Update", "Update user", "User", "Update"),
    Permission("User.Delete", "Delete user", "User", "Delete"),
    Permission("Auth.Login", "Login", "Auth", "Login"),
    Permission("Auth.Register", "Register", "Auth", "Register")
  ]

  /** The staged table after the seed loop over `seeds`: add each one whose name has no active row in `db`. */
  function UpsertPermissions(db: Table<Permission>, seeds: seq<Permission>, now: Time): Table<Permission>
    decreases |seeds|
  {
    if seeds == [] then db
    else
      var staged := UpsertPermissions(db, seeds[..|seeds| - 1], now);
      var seed := seeds[|seeds| - 1];
      if PermissionRepository.GetByName(db, seed.name).None?
      then staged.Inserted(Row(staged.NextId(), now, None, false, seed))
      else staged
  }

  /** The names of the active permissions: the ones GetByNameAsync finds. */
  function ActiveNames(db: Table<Permission>): set<string> {
    set id | id in db.rows && !db.rows[id].isDeleted :: db.rows[id].data.name
  }

  lemma {:induction false} ActiveNamesIsLookup(db: Table<Permission>, name: string)
    requires db.WellFormed()
    ensures PermissionRepository.GetByName(db, name).Some? <==> name in ActiveNames(db)
  {
    var r := PermissionRepository.GetByName(db, name);
    if r.Some? {
      AllMembers(db, r.value);
    }
    if name in ActiveNames(db) {
      var id :| id in db.rows && !db.rows[id].isDeleted && db.rows[id].data.name == name;
      AllMembers(db, db.rows[id]);
    }
  }

  /** The seed loop keeps every existing row as it is. */
  lemma {:induction false} UpsertPermissionsKeeps(db: Table<Permission>, seeds: seq<Permission>, now: Time)
    requires db.WellFormed()
    ensures UpsertPermissions(db, seeds, now).WellFormed()
    ensures forall id :: id in db.rows ==>
      id in UpsertPermissions(db, seeds, now).rows && UpsertPermissions(db, seeds, now).rows[id] == db.rows[id]
    decreases |seeds|
  {
    if seeds != [] {
      var front, seed := seeds[..|seeds| - 1], seeds[|seeds| - 1];
      UpsertPermissionsKeeps(db, front, now);
      var staged := UpsertPermissions(db, front, now);
      InsertedWellFormed(staged, Row(staged.NextId(), now, None, false, seed));
    }
  }

  /** A row is added only for a seed whose name had no active row, and as that seed. */
  lemma {:induction false} UpsertPermissionsAdds(db: Table<Permission>, seeds: seq<Permission>, now: Time)
    requires db.WellFormed()
    ensures forall id :: id in UpsertPermissions(db, seeds, now).rows && id !in db.rows ==>
      exists k :: 0 <= k < |seeds| && UpsertPermissions(db, seeds, now).rows[id] == Row(id, now, None, false, seeds[k])
                && seeds[k].name !in ActiveNames(db)
    decreases |seeds|
  {
    if seeds != [] {
      var front, seed := seeds[..|seeds| - 1], seeds[|seeds| - 1];
      UpsertPermissionsAdds(db, front, now);
      UpsertPermissionsKeeps(db, front, now);
      ActiveNamesIsLookup(db, seed.name);
      var staged := UpsertPermissions(db, front, now);
      var u := UpsertPermissions(db, seeds, now);
      var n := staged.NextId();
      forall id | id in u.rows && id !in db.rows
        ensures exists k :: 0 <= k < |seeds| && u.rows[id] == Row(id, now, None, false, seeds[k])
                          && seeds[k].name !in ActiveNames(db)
      {
        if id in staged.rows {
          var k :| 0 <= k < |front| && staged.rows[id] == Row(id, now, None, false, front[k])
                             && front[k].name !in ActiveNames(db);
          assert seeds[k] == front[k];
          assert u.rows[id] == staged.rows[id];
        } else {
          assert id == n && seeds[|seeds| - 1] == seed;
        }
      }
    }
  }

  /** Every seed name ends with an active row. */
  lemma {:induction false} UpsertPermissionsCovers(db: Table<Permission>, seeds: seq<Permission>, now: Time)
    requires db.WellFormed()
    ensures forall k :: 0 <= k < |seeds| ==>
      exists id :: id in UpsertPermissions(db, seeds, now).rows && !UpsertPermissions(db, seeds, now).rows[id].isDeleted
                && UpsertPermissions(db, seeds, now).rows[id].data.name == seeds[k].name
    decreases |seeds|
  {
    if seeds != [] {
      var front, seed := seeds[..|seeds| - 1], seeds[|seeds| - 1];
      assert seeds == front + [seed];
      UpsertPermissionsCovers(db, front, now);
      UpsertPermissionsKeeps(db, front, now);
      var staged := UpsertPermissions(db, front, now);
      var u := UpsertPermissions(db, seeds, now);
      var n := staged.NextId();
      assert forall id :: id in staged.rows ==> id in u.rows && u.rows[id] == staged.rows[id];
      forall k | 0 <= k < |seeds|
        ensures exists id :: id in u.rows && !u.rows[id].isDeleted && u.rows[id].data.name == seeds[k].name
      {
        assert seeds[k] == (front + [seed])[k];
        if k < |front| {
          assert seeds[k] == front[k];
          var id :| id in staged.rows && !staged.rows[id].isDeleted && staged.rows[id].data.name == front[k].name;
        } else if PermissionRepository.GetByName(db, seed.name).Some? {
          assert seeds[k] == seed;
          var found := PermissionRepository.GetByName(db, seed.name).value;
          AllMembers(db, found);
          assert found.id in staged.rows && u.rows[found.id] == found;
        } else {
          assert seeds[k] == seed;
          assert u.rows[n] == Row(n, now, None, false, seed);
        }
      }
      assert forall k :: 0 <= k < |seeds| ==> exists id :: id in u.rows && !u.rows[id].isDeleted && u.rows[id].data.name == seeds[k].name;
      assert u == UpsertPermissions(db, seeds, now);
    }
  }

  /** A seed whose name had no active row gets a new row. */
  lemma {:induction false} UpsertPermissionsAddsAbsent(db: Table<Permission>, seeds: seq<Permission>, now: Time)
    requires db.WellFormed()
    ensures forall k :: 0 <= k < |seeds| && seeds[k].name !in ActiveNames(db) ==>
      exists id :: id in UpsertPermissions(db, seeds, now).rows && id !in db.rows
                && UpsertPermissions(db, seeds, now).rows[id] == Row(id, now, None, false, seeds[k])
    decreases |seeds|
  {
    if seeds != [] {
      var front, seed := seeds[..|seeds| - 1], seeds[|seeds| - 1];
      UpsertPermissionsAddsAbsent(db, front, now);
      UpsertPermissionsKeeps(db, front, now);
      ActiveNamesIsLookup(db, seed.name);
      var staged := UpsertPermissions(db, front, now);
      var u := UpsertPermissions(db, seeds, now);
      var n := staged.NextId();
      assert forall id :: id in staged.rows ==> id in u.rows && u.rows[id] == staged.rows[id];
      forall k | 0 <= k < |seeds| && seeds[k].name !in ActiveNames(db)
        ensures exists id :: id in u.rows && id !in db.rows && u.rows[id] == Row(id, now, None, false, seeds[k])
      {
        if k < |front| {
          assert seeds[k] == front[k];
          var id :| id in staged.rows && id !in db.rows && staged.rows[id] == Row(id, now, None, false, front[k]);
        } else {
          assert u.rows[n] == Row(n, now, None, false, seed);
        }
      }
    }
  }

  /**
   * The name lookup skips soft-deleted rows but the Name index does not: a
   * seed whose only row is soft-deleted is added again, and the commit fails.
   */
  lemma {:induction false} SeedOverDeletedRowConflicts(db: Table<Permission>, seeds: seq<Permission>, now: Time, k: nat, gone: Guid)
    requires db.WellFormed() && k < |seeds|
    requires gone in db.rows && db.rows[gone].data.name == seeds[k].name
    requires seeds[k].name !in ActiveNames(db)
    ensures !UpsertPermissions(db, seeds, now).IsUnique(PermissionKeys)
  {
    UpsertPermissionsKeeps(db, seeds, now);
    UpsertPermissionsAddsAbsent(db, seeds, now);
    var u := UpsertPermissions(db, seeds, now);
    var id :| id in u.rows && id !in db.rows && u.rows[id] == Row(id, now, None, false, seeds[k]);
    assert NameKey(seeds[k].name) in PermissionKeys(u.rows[id].data);
    assert NameKey(seeds[k].name) in PermissionKeys(u.rows[gone].data);
  }

  /**
   * SeedPermissionsAsync: add each seed permission whose name has no active
   * row, then commit the unit of work.
   */
  method SeedPermissions(repo: GenericRepository.Repository<Permission, PermissionKey>, now: Time) returns (ok: bool)
    requires repo.Valid()
    modifies repo
    ensures repo.Valid()
    ensures ok <==> UpsertPermissions(old(repo.table), SeedPermissionList, now).IsUnique(repo.keysOf)
    ensures repo.table == if ok then UpsertPermissions(old(repo.table), SeedPermissionList, now) else old(repo.table)
  {
    var db := repo.table;
    var staged := db;
    var i := 0;
    while i < |SeedPermissionList|
      invariant 0 <= i <= |SeedPermissionList|
      invariant staged == UpsertPermissions(db, SeedPermissionList[..i], now)
    {
      var seed := SeedPermissionList[i];
      assert SeedPermissionList[..i + 1][..i] == SeedPermissionList[..i];
      var existing := PermissionRepository.GetByName(db, seed.name);
      if existing.None? {
        staged := staged.Inserted(Row(staged.NextId(), now, None, false, seed));
      }
      i := i + 1;
    }
    assert SeedPermissionList[..i] == SeedPermissionList;
    UpsertPermissionsKeeps(db, SeedPermissionList, now);
    ok := repo.SaveChangesAsync(staged);
  }

  // ---------------------------------------------------------------- languages

  /** The languages SeedLanguagesAsync ensures (lines 76-80): code, name, IsDefault. */
  const SeedLanguageList: seq<(string, string, bool)> := [("vi", "Ti\U{1EBF}ng Vi\U{1EC7}t", true), ("en", "English", false)]

  /** An existing language brought up to date: renamed, default flag set, activated, stamped. */
  function Refreshed(r: Row<Language>, name: string, isDefault: bool, now: Time): Row<Language> {
    r.(data := r.data.(name := name, isDefault := isDefault, isActive := true), updatedAt := Some(now))
  }

  /** The staged table after the seed loop over `seeds`: update the active row of each code, or add one. */
  function UpsertLanguages(db: Table<Language>, seeds: seq<(string, string, bool)>, now: Time): Table<Language>
    decreases |seeds|
  {
    if seeds == [] then db
    else UpsertLanguage(db, UpsertLanguages(db, seeds[..|seeds| - 1], now), seeds[|seeds| - 1], now)
  }

  /** One pass of the seed loop for `seed`: refresh the active row of its code, or add one. */
  function UpsertLanguage(db: Table<Language>, staged: Table<Language>, seed: (string, string, bool), now: Time)
    : Table<Language>
  {
    var (code, name, isDefault) := seed;
    match LanguageRepository.GetByCode(db, code)
    case None => staged.Inserted(Row(staged.NextId(), now, None, false, Language(code, name, true, isDefault)))
    case Some(existing) =>
      if existing.id in staged.rows then staged.Replaced(Refreshed(staged.rows[existing.id], name, isDefault, now))
      else staged
  }

  predicate IsSeedCode(seeds: seq<(string, string, bool)>, code: string) {
    exists k :: 0 <= k < |seeds| && seeds[k].0 == code
  }

  /**
   * The seed loop removes no row and changes no row's code or deletion flag;
   * a row that is soft-deleted, or whose code is not seeded, is left as it is.
   */
  /** No committed row is removed or changes code or deletion flag; a deleted or unseeded one is untouched. */
  ghost predicate KeepsLanguages(db: Table<Language>, seeds: seq<(string, string, bool)>, u: Table<Language>) {
    forall id :: id in db.rows ==>
      && id in u.rows
      && u.rows[id].data.code == db.rows[id].data.code
      && u.rows[id].isDeleted == db.rows[id].isDeleted
      && (db.rows[id].isDeleted || !IsSeedCode(seeds, db.rows[id].data.code) ==> u.rows[id] == db.rows[id])
  }

  lemma {:induction false} UpsertLanguagesKeeps(db: Table<Language>, seeds: seq<(string, string, bool)>, now: Time)
    requires db.WellFormed()
    ensures UpsertLanguages(db, seeds, now).WellFormed()
    ensures forall id :: id in db.rows ==>
      && id in UpsertLanguages(db, seeds, now).rows
      && UpsertLanguages(db, seeds, now).rows[id].data.code == db.rows[id].data.code
      && UpsertLanguages(db, seeds, now).rows[id].isDeleted == db.rows[id].isDeleted
      && (db.rows[id].isDeleted || !IsSeedCode(seeds, db.rows[id].data.code) ==> UpsertLanguages(db, seeds, now).rows[id] == db.rows[id])
    decreases |seeds|
  {
    if seeds != [] {
      var front, last := seeds[..|seeds| - 1], seeds[|seeds| - 1];
      UpsertLanguagesKeeps(db, front, now);
      assert seeds == front + [last];
      UpsertLanguageKeeps(db, UpsertLanguages(db, front, now), front, last, now);
      assert KeepsLanguages(db, seeds, UpsertLanguages(db, seeds, now));
    }
  }

  lemma {:induction false} UpsertLanguageKeeps(db: Table<Language>, staged: Table<Language>, front: seq<(string, string, bool)>,
                            last: (string, string, bool), now: Time)
    requires db.WellFormed() && staged.WellFormed() && KeepsLanguages(db, front, staged)
    ensures UpsertLanguage(db, staged, last, now).WellFormed()
    ensures KeepsLanguages(db, front + [last], UpsertLanguage(db, staged, last, now))
  {
    var seeds := front + [last];
    forall c | IsSeedCode(front, c) ensures IsSeedCode(seeds, c) {
      var k :| 0 <= k < |front| && front[k].0 == c;
      assert seeds[k] == front[k];
    }
    assert IsSeedCode(seeds, last.0) by { assert seeds[|front|] == last; }
    match LanguageRepository.GetByCode(db, last.0)
    case None =>
      InsertLanguageKeeps(db, staged, front, seeds, Row(staged.NextId(), now, None, false, Language(last.0, last.1, true, last.2)));
    case Some(existing) =>
      AllMembers(db, existing);
      RefreshLanguageKeeps(db, staged, front, seeds, existing.id, last.1, last.2, now);
  }

  lemma {:induction false} InsertLanguageKeeps(db: Table<Language>, staged: Table<Language>, front: seq<(string, string, bool)>,
                            seeds: seq<(string, string, bool)>, row: Row<Language>)
    requires staged.WellFormed() && KeepsLanguages(db, front, staged) && row.id !in staged.rows
    requires forall c :: IsSeedCode(front, c) ==> IsSeedCode(seeds, c)
    ensures staged.Inserted(row).WellFormed()
    ensures KeepsLanguages(db, seeds, staged.Inserted(row))
  {
    InsertedWellFormed(staged, row);
    assert staged.Inserted(row).rows == staged.rows[row.id := row];
  }

  lemma {:induction false} RefreshLanguageKeeps(db: Table<Language>, staged: Table<Language>, front: seq<(string, string, bool)>,
                             seeds: seq<(string, string, bool)>, e: Guid, name: string, isDefault: bool, now: Time)
    requires staged.WellFormed() && KeepsLanguages(db, front, staged)
    requires forall c :: IsSeedCode(front, c) ==> IsSeedCode(seeds, c)
    requires e in db.rows && !db.rows[e].isDeleted && IsSeedCode(seeds, db.rows[e].data.code)
    ensures e in staged.rows
    ensures staged.Replaced(Refreshed(staged.rows[e], name, isDefault, now)).WellFormed()
    ensures KeepsLanguages(db, seeds, staged.Replaced(Refreshed(staged.rows[e], name, isDefault, now)))
  {
    var row := Refreshed(staged.rows[e], name, isDefault, now);
    ReplacedWellFormed(staged, row);
    assert staged.Replaced(row).rows == staged.rows[e := row];
  }

  /** With distinct seed codes, every seed ends as an active row carrying exactly the seeded values. */
  lemma {:induction false} UpsertLanguagesCovers(db: Table<Language>, seeds: seq<(string, string, bool)>, now: Time)
    requires db.WellFormed()
    requires forall a, b :: 0 <= a < b < |seeds| ==> seeds[a].0 != seeds[b].0
    ensures forall k :: 0 <= k < |seeds| ==>
      exists id :: id in UpsertLanguages(db, seeds, now).rows && !UpsertLanguages(db, seeds, now).rows[id].isDeleted
                && UpsertLanguages(db, seeds, now).rows[id].data == Language(seeds[k].0, seeds[k].1, true, seeds[k].2)
    decreases |seeds|
  {
    if seeds != [] {
      var front, last := seeds[..|seeds| - 1], seeds[|seeds| - 1];
      assert seeds == front + [last];
      UpsertLanguagesCovers(db, front, now);
      UpsertLanguagesKeeps(db, front, now);
      var staged := UpsertLanguages(db, front, now);
      var u := UpsertLanguages(db, seeds, now);
      var n := staged.NextId();
      forall k | 0 <= k < |seeds|
        ensures exists id :: id in u.rows && !u.rows[id].isDeleted && u.rows[id].data == Language(seeds[k].0, seeds[k].1, true, seeds[k].2)
      {
        if k < |front| {
          assert seeds[k] == front[k];
          var id :| id in staged.rows && !staged.rows[id].isDeleted && staged.rows[id].data == Language(front[k].0, front[k].1, true, front[k].2);
          match LanguageRepository.GetByCode(db, last.0)
          case None =>
            assert u.rows[id] == staged.rows[id];
          case Some(existing) =>
            AllMembers(db, existing);
            assert staged.rows[existing.id].data.code == last.0;
            assert u.rows[id] == staged.rows[id];
        } else {
          assert seeds[k] == last;
          match LanguageRepository.GetByCode(db, last.0)
          case None =>
            assert u.rows[n] == Row(n, now, None, false, Language(last.0, last.1, true, last.2));
          case Some(existing) =>
            AllMembers(db, existing);
            assert u.rows[existing.id] == Refreshed(staged.rows[existing.id], last.1, last.2, now);
        }
      }
      assert forall k :: 0 <= k < |seeds| ==>
        exists id :: id in u.rows && !u.rows[id].isDeleted && u.rows[id].data == Language(seeds[k].0, seeds[k].1, true, seeds[k].2);
      assert u == UpsertLanguages(db, seeds, now);
    }
  }

  /** After seeding, Vietnamese is an active default language and English an active non-default one. */
  lemma {:induction false} SeededLanguages(db: Table<Language>, now: Time)
    requires db.WellFormed()
    ensures exists id :: (id in UpsertLanguages(db, SeedLanguageList, now).rows
                       && !UpsertLanguages(db, SeedLanguageList, now).rows[id].isDeleted
                       && UpsertLanguages(db, SeedLanguageList, now).rows[id].data == Language("vi", "Ti\U{1EBF}ng Vi\U{1EC7}t", true, true))
    ensures exists id :: (id in UpsertLanguages(db, SeedLanguageList, now).rows
                       && !UpsertLanguages(db, SeedLanguageList, now).rows[id].isDeleted
                       && UpsertLanguages(db, SeedLanguageList, now).rows[id].data == Language("en", "English", true, false))
  {
    UpsertLanguagesCovers(db, SeedLanguageList, now);
    assert SeedLanguageList[0].0 == "vi" && SeedLanguageList[1].0 == "en";
  }

  /**
   * SeedLanguagesAsync: update the active language of each seed code (name,
   * IsDefault, IsActive = true) or add it, then commit the unit of work.
   */
  method SeedLanguages(repo: GenericRepository.Repository<Language, string>, now: Time) returns (ok: bool)
    requires repo.Valid()
    modifies repo
    ensures repo.Valid()
    ensures ok <==> UpsertLanguages(old(repo.table), SeedLanguageList, now).IsUnique(repo.keysOf)
    ensures repo.table == if ok then UpsertLanguages(old(repo.table), SeedLanguageList, now) else old(repo.table)
  {
    var db := repo.table;
    var staged := db;
    var i := 0;
    while i < |SeedLanguageList|
      invariant 0 <= i <= |SeedLanguageList|
      invariant staged == UpsertLanguages(db, SeedLanguageList[..i], now)
    {
      var (code, name, isDefault) := SeedLanguageList[i];
      assert SeedLanguageList[..i + 1][..i] == SeedLanguageList[..i];
      var existing := LanguageRepository.GetByCode(db, code);
      if existing.None? {
        staged := staged.Inserted(Row(staged.NextId(), now, None, false, Language(code, name, true, isDefault)));
      } else if existing.value.id in staged.rows {
        var tracked := staged.rows[existing.value.id];
        staged := staged.Replaced(tracked.(data := tracked.data.(name := name, isDefault := isDefault, isActive := true),
                                           updatedAt := Some(now)));
      }
      i := i + 1;
    }
    assert SeedLanguageList[..i] == SeedLanguageList;
    UpsertLanguagesKeeps(db, SeedLanguageList, now);
    ok := repo.SaveChangesAsync(staged);
  }

  // ---------------------------------------------------------------- roles

  function IdOf<D>(r: Row<D>): Guid { r.id }

  /** Resource is not "Product", compared ignoring case. */
  predicate IsNotProduct(p: Row<Permission>) { !EqualsIgnoreCase(p.data.resource, "Product") }

  /** The permissions the Admin role receives: all active ones. */
  function AdminPermissionIds(permissions: Table<Permission>): seq<Guid> { Map(permissions.GetAll(), IdOf) }

  /** The permissions the Admin1 role receives: the active ones outside the Product resource. */
  function Admin1PermissionIds(permissions: Table<Permission>): seq<Guid> {
    Map(Filter(permissions.GetAll(), IsNotProduct), IdOf)
  }

  /** Distinct rows of one table have distinct ids. */
  lemma {:induction false} IdsNoDuplicates<D>(t: Table<D>, xs: seq<Row<D>>)
    requires t.WellFormed() && NoDuplicates(xs)
    requires forall i :: 0 <= i < |xs| ==> xs[i] in t.All()
    ensures NoDuplicates(Map(xs, IdOf))
  {
    forall i, j | 0 <= i < j < |xs| ensures Map(xs, IdOf)[i] != Map(xs, IdOf)[j] {
      AllMembers(t, xs[i]);
      AllMembers(t, xs[j]);
    }
  }

  /** The ids of the active rows of a table that satisfy `p`. */
  ghost function ActiveIdsWhere<D>(t: Table<D>, p: Row<D> -> bool): set<Guid> {
    set id | id in t.rows && !t.rows[id].isDeleted && p(t.rows[id])
  }

  lemma {:induction false} ActiveIdsCovered<D>(t: Table<D>, p: Row<D> -> bool, xs: seq<Row<D>>, id: Guid)
    requires t.WellFormed() && id in ActiveIdsWhere(t, p)
    requires forall i :: 0 <= i < |t.All()| && !t.All()[i].isDeleted && p(t.All()[i]) ==> t.All()[i] in xs
    ensures id in Targets(Map(xs, IdOf))
  {
    AllMembers(t, t.rows[id]);
    var i :| 0 <= i < |xs| && xs[i] == t.rows[id];
    assert Map(xs, IdOf)[i] == id;
  }

  /** Mapping the active rows that satisfy `p` to their ids gives distinct ids, exactly `ActiveIdsWhere`. */
  lemma {:induction false} ActiveIdsOf<D>(t: Table<D>, p: Row<D> -> bool, xs: seq<Row<D>>)
    requires t.WellFormed() && NoDuplicates(xs)
    requires forall i :: 0 <= i < |xs| ==> xs[i] in t.All() && !xs[i].isDeleted && p(xs[i])
    requires forall i :: 0 <= i < |t.All()| && !t.All()[i].isDeleted && p(t.All()[i]) ==> t.All()[i] in xs
    ensures NoDuplicates(Map(xs, IdOf))
    ensures Targets(Map(xs, IdOf)) == ActiveIdsWhere(t, p)
  {
    IdsNoDuplicates(t, xs);
    ActiveIdsComplete(t, p, xs);
    ActiveIdsOnly(t, p, xs);
  }

  lemma {:induction false} ActiveIdsComplete<D>(t: Table<D>, p: Row<D> -> bool, xs: seq<Row<D>>)
    requires t.WellFormed()
    requires forall i :: 0 <= i < |t.All()| && !t.All()[i].isDeleted && p(t.All()[i]) ==> t.All()[i] in xs
    ensures ActiveIdsWhere(t, p) <= Targets(Map(xs, IdOf))
  {
    forall id | id in ActiveIdsWhere(t, p) ensures id in Targets(Map(xs, IdOf)) {
      ActiveIdsCovered(t, p, xs, id);
    }
  }

  lemma {:induction false} ActiveIdsOnly<D>(t: Table<D>, p: Row<D> -> bool, xs: seq<Row<D>>)
    requires t.WellFormed()
    requires forall i :: 0 <= i < |xs| ==> xs[i] in t.All() && !xs[i].isDeleted && p(xs[i])
    ensures Targets(Map(xs, IdOf)) <= ActiveIdsWhere(t, p)
  {
    var ids := Map(xs, IdOf);
    forall q | q in Targets(ids) ensures q in ActiveIdsWhere(t, p) {
      var i :| 0 <= i < |ids| && ids[i] == q;
      ActiveIdsSound(t, p, xs[i]);
    }
  }

  lemma {:induction false} ActiveIdsSound<D>(t: Table<D>, p: Row<D> -> bool, r: Row<D>)
    requires t.WellFormed() && r in t.All() && !r.isDeleted && p(r)
    ensures r.id in ActiveIdsWhere(t, p)
  {
    AllMembers(t, r);
  }

  predicate Always<D>(r: Row<D>) { true }

  lemma {:induction false} AdminIdsFacts(permissions: Table<Permission>)
    requires permissions.WellFormed()
    ensures NoDuplicates(AdminPermissionIds(permissions)) && NoDuplicates(Admin1PermissionIds(permissions))
    ensures Targets(AdminPermissionIds(permissions)) == ActiveIdsWhere(permissions, Always)
    ensures Targets(Admin1PermissionIds(permissions)) == ActiveIdsWhere(permissions, IsNotProduct)
  {
    var all := permissions.GetAll();
    AllNoDuplicates(permissions);
    FilterNoDuplicates(permissions.All(), (r: Row<Permission>) => !r.isDeleted);
    FilterNoDuplicates(all, IsNotProduct);
    ActiveIdsOf(permissions, Always, all);
    ActiveIdsOf(permissions, IsNotProduct, Filter(all, IsNotProduct));
  }

  /** Reconciling one role leaves every other role's active links as they were. */
  lemma {:induction false} AssignKeepsOtherRoles(t: Table<RolePermission>, roleId: string, other: string, ps: seq<Guid>, now: Time)
    requires t.WellFormed() && t.IsUnique(RolePermissionKeys) && NoDuplicates(ps) && other != roleId
    ensures ActivePermissionIds(AssignSpec(t, roleId, ps, now), other) == ActivePermissionIds(t, other)
  {
    AssignFacts(t, roleId, ps, now);
    var u := AssignSpec(t, roleId, ps, now);
    forall p | p in ActivePermissionIds(u, other) ensures p in ActivePermissionIds(t, other) {
      var id :| id in u.rows && u.rows[id].data.roleId == other && !u.rows[id].isDeleted && u.rows[id].data.permissionId == p;
      assert id in t.rows;
    }
    forall p | p in ActivePermissionIds(t, other) ensures p in ActivePermissionIds(u, other) {
      var id :| id in t.rows && t.rows[id].data.roleId == other && !t.rows[id].isDeleted && t.rows[id].data.permissionId == p;
      assert u.rows[id] == t.rows[id];
    }
  }

  /** The links SeedRolesAsync leaves: Admin gets every permission, then Admin1 every non-Product one. */
  function SeedRolesSpec(t: Table<RolePermission>, permissions: Table<Permission>, adminRoleId: string,
                         admin1RoleId: string, now: Time): Table<RolePermission>
  {
    AssignSpec(AssignSpec(t, adminRoleId, AdminPermissionIds(permissions), now), admin1RoleId, Admin1PermissionIds(permissions), now)
  }

  /**
   * After the role seed, Admin holds exactly the active permissions and
   * Admin1 exactly the active ones outside the Product resource.
   */
  lemma {:induction false} SeedRolesFacts(t: Table<RolePermission>, permissions: Table<Permission>, adminRoleId: string,
                       admin1RoleId: string, now: Time)
    requires t.WellFormed() && t.IsUnique(RolePermissionKeys) && permissions.WellFormed()
    requires adminRoleId != admin1RoleId
    ensures SeedRolesSpec(t, permissions, adminRoleId, admin1RoleId, now).IsUnique(RolePermissionKeys)
    ensures ActivePermissionIds(SeedRolesSpec(t, permissions, adminRoleId, admin1RoleId, now), adminRoleId)
         == ActiveIdsWhere(permissions, Always)
    ensures ActivePermissionIds(SeedRolesSpec(t, permissions, adminRoleId, admin1RoleId, now), admin1RoleId)
         == ActiveIdsWhere(permissions, IsNotProduct)
  {
    AdminIdsFacts(permissions);
    var t1 := AssignSpec(t, adminRoleId, AdminPermissionIds(permissions), now);
    AssignFacts(t, adminRoleId, AdminPermissionIds(permissions), now);
    AssignFacts(t1, admin1RoleId, Admin1PermissionIds(permissions), now);
    AssignKeepsOtherRoles(t1, admin1RoleId, adminRoleId, Admin1PermissionIds(permissions), now);
  }

  /**
   * SeedRolesAsync once both roles exist: reconcile Admin's links with all
   * active permissions and commit, then Admin1's with the non-Product ones
   * and commit. The Identity role lookups are passed in as the role ids.
   */
  method SeedRoles(repo: GenericRepository.Repository<RolePermission, (string, Guid)>, permissions: Table<Permission>,
                   adminRoleId: string, admin1RoleId: string, now: Time) returns (ok: bool)
    requires repo.Valid() && repo.keysOf == RolePermissionKeys && permissions.WellFormed()
    modifies repo
    ensures repo.Valid()
    ensures ok ==> repo.table == SeedRolesSpec(old(repo.table), permissions, adminRoleId, admin1RoleId, now)
    ensures adminRoleId != admin1RoleId ==> ok
  {
    ghost var t0 := repo.table;
    var permissionList := permissions.GetAll();
    AdminIdsFacts(permissions);
    var staged := AssignPermissionsToRole(repo.table, adminRoleId, Map(permissionList, IdOf), now);
    AssignFacts(repo.table, adminRoleId, Map(permissionList, IdOf), now);
    ok := repo.SaveChangesAsync(staged);
    if !ok {
      return;
    }
    var withoutProduct := Filter(permissionList, IsNotProduct);
    staged := AssignPermissionsToRole(repo.table, admin1RoleId, Map(withoutProduct, IdOf), now);
    AssignFacts(repo.table, admin1RoleId, Map(withoutProduct, IdOf), now);
    ok := repo.SaveChangesAsync(staged);
  }
}
