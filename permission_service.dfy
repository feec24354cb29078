/**
 * PermissionService: create, update and soft-delete permissions, their two
 * listings, replacing the permissions of a role, and the permission names a
 * user holds through their roles.
 *
 * Unlike the category and product listings, GetFiltered does not use the
 * dynamic filter engine: it applies its own chain of Where calls over Name,
 * Resource, Action, the search term and the common filter fields.
 *
 * AssignPermissionsToRole soft-deletes every active link of the role and adds
 * a fresh link per requested id. The unique index on (RoleId, PermissionId)
 * counts soft-deleted links, so any requested permission the role was ever
 * linked to makes the commit fail; the seeder's reconciling version does not
 * have this problem (AssignReconciled below).
 */
module PermissionService {
  import opened Wrappers
  import opened Entities
  import opened Text
  import opened Seqs
  import opened Sorting
  import opened Paging
  import opened GenericRepository
  import opened PermissionRepository
  import opened RolePermissionRepository
  import opened Identity
  import DatabaseSeeder
  import opened Listing

  // ------------------------------------------------------------ filtering

  /** PermissionFilterRequest: the common filter fields plus Name, Resource and Action. */
  datatype PermissionFilterRequest = PermissionFilterRequest(
    pageNumber: int, pageSize: int, searchTerm: Option<string>,
    sortBy: Option<string>, sortDirection: Option<string>,
    isDeleted: Option<bool>, createdFrom: Option<Time>, createdTo: Option<Time>,
    name: Option<string>, resource: Option<string>, action: Option<string>)

  /** A Name, Resource or Action filter: null or whitespace keeps everything, else a case-insensitive substring test. */
  predicate TextKept(filter: Option<string>, value: string) {
    IsNullOrWhiteSpace(filter) || Text.Contains(Lower(value), Lower(filter.value))
  }

  /** The search of both listings: Name, Description, Resource or Action contains the term, ignoring case. */
  predicate SearchHit(term: string, x: Row<Permission>) {
    || Text.Contains(Lower(x.data.name), Lower(term))
    || Text.Contains(Lower(x.data.description), Lower(term))
    || Text.Contains(Lower(x.data.resource), Lower(term))
    || Text.Contains(Lower(x.data.action), Lower(term))
  }

  predicate SearchKept(term: Option<string>, x: Row<Permission>) {
    IsNullOrWhiteSpace(term) || SearchHit(term.value, x)
  }

  predicate DeletedKept(isDeleted: Option<bool>, x: Row<Permission>) {
    isDeleted.None? || x.isDeleted == isDeleted.value
  }

  /** CreatedFrom and CreatedTo bound CreatedAt inclusively. */
  predicate CreatedKept(from: Option<Time>, to: Option<Time>, x: Row<Permission>) {
    (from.None? || x.createdAt >= from.value) && (to.None? || x.createdAt <= to.value)
  }

  /** A permission passes every filter of the request. */
  predicate Matches(request: PermissionFilterRequest, x: Row<Permission>) {
    && TextKept(request.name, x.data.name)
    && TextKept(request.resource, x.data.resource)
    && TextKept(request.action, x.data.action)
    && SearchKept(request.searchTerm, x)
    && DeletedKept(request.isDeleted, x)
    && CreatedKept(request.createdFrom, request.createdTo, x)
  }

  /** The first `k` Where stages of the pipeline, in source order. */
  predicate KeptAfter(request: PermissionFilterRequest, k: nat, x: Row<Permission>) {
    && (k >= 1 ==> TextKept(request.name, x.data.name))
    && (k >= 2 ==> TextKept(request.resource, x.data.resource))
    && (k >= 3 ==> TextKept(request.action, x.data.action))
    && (k >= 4 ==> SearchKept(request.searchTerm, x))
    && (k >= 5 ==> DeletedKept(request.isDeleted, x))
    && (k >= 6 ==> request.createdFrom.None? || x.createdAt >= request.createdFrom.value)
    && (k >= 7 ==> request.createdTo.None? || x.createdAt <= request.createdTo.value)
  }

  /** The active permissions that pass every filter, in table order. */
  function FilteredRows(t: Table<Permission>, request: PermissionFilterRequest): seq<Row<Permission>> {
    Filter(t.GetAll(), (x: Row<Permission>) => Matches(request, x))
  }

  datatype PermissionSortKey = ByName | ByResource | ByAction | ByCreatedAt | ByUpdatedAt

  /** The arms of the sort switch, in source order. */
  const SortArms: seq<(string, PermissionSortKey)> :=
    [("name", ByName), ("resource", ByResource), ("action", ByAction), ("createdat", ByCreatedAt), ("updatedat", ByUpdatedAt)]

  function PermissionNameKey(x: Row<Permission>): SortKey { TextKey(x.data.name) }

  function PermissionResourceKey(x: Row<Permission>): SortKey { TextKey(x.data.resource) }

  function PermissionActionKey(x: Row<Permission>): SortKey { TextKey(x.data.action) }

  function KeyOf(k: PermissionSortKey): Row<Permission> -> SortKey {
    match k
    case ByName => PermissionNameKey
    case ByResource => PermissionResourceKey
    case ByAction => PermissionActionKey
    case ByCreatedAt => CreatedAtKey
    case ByUpdatedAt => UpdatedAtKey
  }

  /** GetFilteredAsync's response: the filtered rows counted, sorted by the chosen key and paged. */
  function FilteredListing(t: Table<Permission>, request: PermissionFilterRequest): PagedResponse<Row<Permission>> {
    var o := Choose(SortArms, ByCreatedAt, request.sortBy, request.sortDirection);
    Listed(FilteredRows(t, request), KeyOf(o.field), o.ascending, request.pageNumber, request.pageSize)
  }

  /** The pipeline after its first `k` Where stages. */
  function Stage(all: seq<Row<Permission>>, request: PermissionFilterRequest, k: nat): seq<Row<Permission>> {
    Filter(all, (x: Row<Permission>) => KeptAfter(request, k, x))
  }

  /** One conditional Where: stage k + 1 is stage k filtered by `w` when `applied`, else stage k unchanged. */
  method WhereIf(all: seq<Row<Permission>>, permissions: seq<Row<Permission>>, request: PermissionFilterRequest, k: nat,
                 w: Row<Permission> -> bool, applied: bool) returns (r: seq<Row<Permission>>)
    requires permissions == Stage(all, request, k)
    requires forall x :: KeptAfter(request, k + 1, x) == (KeptAfter(request, k, x) && (!applied || w(x)))
    ensures r == Stage(all, request, k + 1)
  {
    WhereStep(all, permissions, (x: Row<Permission>) => KeptAfter(request, k, x),
              (x: Row<Permission>) => KeptAfter(request, k + 1, x), w, applied);
    r := if applied then Filter(permissions, w) else permissions;
  }

  /** GetFilteredAsync: each filter given narrows the active permissions in turn, then count, sort and page. */
  method GetFiltered(t: Table<Permission>, request: PermissionFilterRequest) returns (r: PagedResponse<Row<Permission>>)
    ensures r == FilteredListing(t, request)
  {
    var all := t.GetAll();
    FilterAll(all, (x: Row<Permission>) => KeptAfter(request, 0, x));
    var permissions := ApplyFieldFilters(all, all, request);
    permissions := ApplyCommonFilters(all, permissions, request);
    FilterSame(all, (x: Row<Permission>) => KeptAfter(request, 7, x), (x: Row<Permission>) => Matches(request, x));
    var o := Choose(SortArms, ByCreatedAt, request.sortBy, request.sortDirection);
    r := Listed(permissions, KeyOf(o.field), o.ascending, request.pageNumber, request.pageSize);
  }

  /** The Name, Resource and Action stages (lines 121-137). */
  method ApplyFieldFilters(all: seq<Row<Permission>>, permissions: seq<Row<Permission>>, request: PermissionFilterRequest)
    returns (r: seq<Row<Permission>>)
    requires permissions == Stage(all, request, 0)
    ensures r == Stage(all, request, 3)
  {
    r := permissions;
    var applied := !IsNullOrWhiteSpace(request.name);
    var w := (p: Row<Permission>) => request.name.Some? && Text.Contains(Lower(p.data.name), Lower(request.name.value));
    r := WhereIf(all, r, request, 0, w, applied);

    applied := !IsNullOrWhiteSpace(request.resource);
    w := (p: Row<Permission>) => request.resource.Some? && Text.Contains(Lower(p.data.resource), Lower(request.resource.value));
    r := WhereIf(all, r, request, 1, w, applied);

    applied := !IsNullOrWhiteSpace(request.action);
    w := (p: Row<Permission>) => request.action.Some? && Text.Contains(Lower(p.data.action), Lower(request.action.value));
    r := WhereIf(all, r, request, 2, w, applied);
  }

  /** The search term, IsDeleted, CreatedFrom and CreatedTo stages (lines 139-166). */
  method ApplyCommonFilters(all: seq<Row<Permission>>, permissions: seq<Row<Permission>>, request: PermissionFilterRequest)
    returns (r: seq<Row<Permission>>)
    requires permissions == Stage(all, request, 3)
    ensures r == Stage(all, request, 7)
  {
    r := permissions;
    var applied := !IsNullOrWhiteSpace(request.searchTerm);
    var w := (p: Row<Permission>) => request.searchTerm.Some? && SearchHit(request.searchTerm.value, p);
    r := WhereIf(all, r, request, 3, w, applied);

    applied := request.isDeleted.Some?;
    w := (p: Row<Permission>) => request.isDeleted.Some? && p.isDeleted == request.isDeleted.value;
    r := WhereIf(all, r, request, 4, w, applied);

    applied := request.createdFrom.Some?;
    w := (p: Row<Permission>) => request.createdFrom.Some? && p.createdAt >= request.createdFrom.value;
    r := WhereIf(all, r, request, 5, w, applied);

    applied := request.createdTo.Some?;
    w := (p: Row<Permission>) => request.createdTo.Some? && p.createdAt <= request.createdTo.value;
    r := WhereIf(all, r, request, 6, w, applied);
  }

  /** GetFilteredAsync keeps exactly the active permissions that pass every filter of the request. */
  lemma {:induction false} FilteredRowsMembers(t: Table<Permission>, request: PermissionFilterRequest)
    requires t.WellFormed()
    ensures forall x :: x in FilteredRows(t, request) <==>
      x.id in t.rows && t.rows[x.id] == x && !x.isDeleted && Matches(request, x)
  {
    FilterMembers(t.GetAll(), (x: Row<Permission>) => Matches(request, x));
    forall x ensures x in t.GetAll() <==> x.id in t.rows && t.rows[x.id] == x && !x.isDeleted {
      GetAllMembers(t, x);
    }
  }

  /**
   * The response counts every filtered permission, echoes the clamped page
   * number and size, and holds the requested window of them sorted by the
   * chosen key.
   */
  lemma {:induction false} GetFilteredSpec(t: Table<Permission>, request: PermissionFilterRequest)
    ensures var rows := FilteredRows(t, request);
      var o := Choose(SortArms, ByCreatedAt, request.sortBy, request.sortDirection);
      var sorted := SortBy(rows, KeyOf(o.field), o.ascending);
      var r := FilteredListing(t, request);
      && r.totalRecords == |rows|
      && r.pageNumber == ClampPageNumber(request.pageNumber) && r.pageSize == ClampPageSize(request.pageSize)
      && r.totalPages == TotalPages(|rows|, r.pageSize)
      && |r.data| == PageLength(|rows|, PageStart(r.pageNumber, r.pageSize), r.pageSize)
      && IsWindow(r.data, sorted, PageStart(r.pageNumber, r.pageSize))
  {
    var o := Choose(SortArms, ByCreatedAt, request.sortBy, request.sortDirection);
    ListedSpec(FilteredRows(t, request), KeyOf(o.field), o.ascending, request.pageNumber, request.pageSize);
  }

  /** The sorted rows are ordered by the chosen key and are a permutation of the filtered ones. */
  lemma {:induction false} GetFilteredOrder(t: Table<Permission>, request: PermissionFilterRequest)
    ensures var rows := FilteredRows(t, request);
      var o := Choose(SortArms, ByCreatedAt, request.sortBy, request.sortDirection);
      var sorted := SortBy(rows, KeyOf(o.field), o.ascending);
      SortedBy(sorted, KeyOf(o.field), o.ascending) && multiset(sorted) == multiset(rows)
  {
    var o := Choose(SortArms, ByCreatedAt, request.sortBy, request.sortDirection);
    SortBySorted(FilteredRows(t, request), KeyOf(o.field), o.ascending);
  }

  /** The listing starts from the active permissions, so asking for deleted ones finds none. */
  lemma {:induction false} DeletedFilterGivesNothing(t: Table<Permission>, request: PermissionFilterRequest)
    requires t.WellFormed() && request.isDeleted == Some(true)
    ensures FilteredRows(t, request) == []
    ensures FilteredListing(t, request).totalRecords == 0
  {
    var all := t.GetAll();
    forall i | 0 <= i < |all| ensures !Matches(request, all[i]) {
      assert !all[i].isDeleted;
    }
    FilterNone(all, (x: Row<Permission>) => Matches(request, x));
    GetFilteredSpec(t, request);
  }

  // ------------------------------------------------------------ paging

  /** The active permissions the search term hits (all of them without a term), in table order. */
  function PagedRows(t: Table<Permission>, searchTerm: Option<string>): seq<Row<Permission>> {
    if IsNullOrWhiteSpace(searchTerm) then t.GetAll()
    else Filter(t.GetAll(), (x: Row<Permission>) => SearchHit(searchTerm.value, x))
  }

  /** GetPagedAsync: the requested page of PagedRows, in table order. */
  function PagedListing(t: Table<Permission>, request: PagedRequest): PagedResponse<Row<Permission>> {
    Respond(PagedRows(t, request.searchTerm), request.pageNumber, request.pageSize)
  }

  /** GetPagedAsync counts the rows PagedRows keeps and returns the requested window of them. */
  lemma {:induction false} GetPagedSpec(t: Table<Permission>, request: PagedRequest)
    ensures var rows := PagedRows(t, request.searchTerm);
      var r := PagedListing(t, request);
      && r.totalRecords == |rows|
      && r.pageNumber == ClampPageNumber(request.pageNumber) && r.pageSize == ClampPageSize(request.pageSize)
      && r.totalPages == TotalPages(|rows|, r.pageSize)
      && |r.data| == PageLength(|rows|, PageStart(r.pageNumber, r.pageSize), r.pageSize)
      && IsWindow(r.data, rows, PageStart(r.pageNumber, r.pageSize))
  {
    RespondSpec(PagedRows(t, request.searchTerm), request.pageNumber, request.pageSize);
  }

  /** A filter request with only a search term. */
  function SearchOnly(request: PagedRequest): PermissionFilterRequest {
    PermissionFilterRequest(request.pageNumber, request.pageSize, request.searchTerm, None, None, None, None, None, None, None, None)
  }

  /**
   * Both listings search the same four fields the same way: the rows
   * GetPagedAsync pages are those GetFilteredAsync keeps for a request with
   * only the search term, before it sorts them.
   */
  lemma {:induction false} PagedRowsAreFilteredRows(t: Table<Permission>, request: PagedRequest)
    ensures PagedRows(t, request.searchTerm) == FilteredRows(t, SearchOnly(request))
  {
    var f := SearchOnly(request);
    if IsNullOrWhiteSpace(request.searchTerm) {
      FilterAll(t.GetAll(), (x: Row<Permission>) => Matches(f, x));
    } else {
      FilterSame(t.GetAll(), (x: Row<Permission>) => SearchHit(request.searchTerm.value, x), (x: Row<Permission>) => Matches(f, x));
    }
  }

  // ------------------------------------------------------------ CRUD

  /**
   * The unique indexes refuse storing `p` under `id` exactly when another
   * row, soft-deleted or not, has its Name or its Resource and Action.
   */
  lemma {:induction false} ClashesIffKeyHeld(t: Table<Permission>, id: Guid, p: Permission)
    ensures t.Clashes(PermissionKeys, id, p) <==>
      exists other :: other in t.rows && other != id
        && (t.rows[other].data.name == p.name || (t.rows[other].data.resource == p.resource && t.rows[other].data.action == p.action))
  {
    if t.Clashes(PermissionKeys, id, p) {
      var other :| other in t.rows && other != id && !(PermissionKeys(t.rows[other].data) !! PermissionKeys(p));
      var k :| k in PermissionKeys(t.rows[other].data) && k in PermissionKeys(p);
    }
    if exists other :: other in t.rows && other != id
        && (t.rows[other].data.name == p.name || (t.rows[other].data.resource == p.resource && t.rows[other].data.action == p.action))
    {
      var other :| other in t.rows && other != id
        && (t.rows[other].data.name == p.name || (t.rows[other].data.resource == p.resource && t.rows[other].data.action == p.action));
      if t.rows[other].data.name == p.name {
        assert NameKey(p.name) in PermissionKeys(t.rows[other].data) * PermissionKeys(p);
      } else {
        assert ResourceActionKey(p.resource, p.action) in PermissionKeys(t.rows[other].data) * PermissionKeys(p);
      }
    }
  }

  /**
   * CreateAsync (the mapping copies Name, Description, Resource and Action):
   * refused for a Name or a Resource and Action held by an active permission;
   * otherwise refused at commit exactly when a soft-deleted one holds either.
   */
  method Create(repo: Repository<Permission, PermissionKey>, request: Permission, now: Time)
    returns (r: Result<Row<Permission>>)
    requires repo.Valid() && repo.keysOf == PermissionKeys
    modifies repo
    ensures repo.Valid()
    ensures ExistsByName(old(repo.table), request.name) ==> r == Err(InvalidOperation("PermissionNameExists"))
    ensures (!ExistsByName(old(repo.table), request.name) && GetByResourceAndAction(old(repo.table), request.resource, request.action).Some?)
            ==> r == Err(InvalidOperation("PermissionResourceActionExists"))
    ensures r.Err? ==> repo.table == old(repo.table)
    ensures r.Ok? ==> && r.value.id !in old(repo.table.rows) && r.value == Row(r.value.id, now, None, false, request)
                      && repo.table == old(repo.table).Inserted(r.value)
    ensures (!ExistsByName(old(repo.table), request.name) && GetByResourceAndAction(old(repo.table), request.resource, request.action).None?)
            ==> && (r.Err? <==> r == Err(DbUpdateConflict))
                && (r.Err? <==> (exists other :: other in old(repo.table.rows)
                                   && (old(repo.table.rows[other].data.name) == request.name
                                       || (old(repo.table.rows[other].data.resource) == request.resource
                                           && old(repo.table.rows[other].data.action) == request.action))))
  {
    if ExistsByName(repo.table, request.name) {
      return Err(InvalidOperation("PermissionNameExists"));
    }
    var existing := GetByResourceAndAction(repo.table, request.resource, request.action);
    if existing != None {
      return Err(InvalidOperation("PermissionResourceActionExists"));
    }
    ghost var before := repo.table;
    var row, ok := repo.AddAsync(request, now);
    ClashesIffKeyHeld(before, row.id, request);
    if !ok {
      return Err(DbUpdateConflict);
    }
    r := Ok(row);
  }

  /**
   * UpdateAsync: all four columns are replaced and UpdatedAt stamped. The
   * Name is checked against active permissions only when it changes; the
   * Resource and Action are never checked, so a pair another permission holds
   * is refused only at commit.
   */
  method Update(repo: Repository<Permission, PermissionKey>, id: Guid, request: Permission, now: Time)
    returns (r: Result<Row<Permission>>)
    requires repo.Valid() && repo.keysOf == PermissionKeys
    modifies repo
    ensures repo.Valid()
    ensures id !in old(repo.table.rows) ==> r == Err(KeyNotFound("PermissionNotFound"))
    ensures (id in old(repo.table.rows) && old(repo.table.rows[id].data.name) != request.name
             && ExistsByName(old(repo.table), request.name)) ==> r == Err(InvalidOperation("PermissionNameExists"))
    ensures r.Err? ==> repo.table == old(repo.table)
    ensures r.Ok? ==> && id in old(repo.table.rows)
                      && r.value == old(repo.table.rows[id]).(updatedAt := Some(now), data := request)
                      && repo.table == old(repo.table).Replaced(r.value)
    ensures (id in old(repo.table.rows)
             && !(old(repo.table.rows[id].data.name) != request.name && ExistsByName(old(repo.table), request.name)))
            ==> && (r.Ok? <==> !old(repo.table).Clashes(PermissionKeys, id, request))
                && (r.Err? ==> r == Err(DbUpdateConflict))
  {
    var found := repo.table.GetById(id);
    if found.None? {
      return Err(KeyNotFound("PermissionNotFound"));
    }
    var permission := found.value;
    if permission.data.name != request.name {
      if ExistsByName(repo.table, request.name) {
        return Err(InvalidOperation("PermissionNameExists"));
      }
    }
    var updated, ok := repo.UpdateAsync(permission.(data := request), now);
    if !ok {
      return Err(DbUpdateConflict);
    }
    r := Ok(updated);
  }

  /**
   * The unchecked pair: an update that gives a permission the Resource and
   * Action of another one passes the service's checks and is refused by the
   * unique index.
   */
  lemma {:induction false} UpdateToHeldPairConflicts(t: Table<Permission>, id: Guid, other: Guid, request: Permission)
    requires id in t.rows && other in t.rows && other != id
    requires t.rows[other].data.resource == request.resource && t.rows[other].data.action == request.action
    ensures t.Clashes(PermissionKeys, id, request)
  {
    ClashesIffKeyHeld(t, id, request);
  }

  /** An update that keeps the permission's own Name, Resource and Action never clashes. */
  lemma {:induction false} SameKeysNeverClash(t: Table<Permission>, id: Guid, request: Permission)
    requires t.IsUnique(PermissionKeys) && id in t.rows
    requires t.rows[id].data.name == request.name
    requires t.rows[id].data.resource == request.resource && t.rows[id].data.action == request.action
    ensures !t.Clashes(PermissionKeys, id, request)
  {
    assert PermissionKeys(request) == PermissionKeys(t.rows[id].data);
  }

  /** DeleteAsync: the permission is soft-deleted; an unknown id throws. */
  method Delete(repo: Repository<Permission, PermissionKey>, id: Guid, now: Time) returns (r: Result<()>)
    requires repo.Valid()
    modifies repo
    ensures repo.Valid()
    ensures id !in old(repo.table.rows) ==> r == Err(KeyNotFound("PermissionNotFound")) && repo.table == old(repo.table)
    ensures id in old(repo.table.rows) ==> r == Ok(()) && repo.table == old(repo.table).SoftDeleted(id, now)
  {
    var found := repo.table.GetById(id);
    if found.None? {
      return Err(KeyNotFound("PermissionNotFound"));
    }
    repo.DeleteAsync(id, now);
    r := Ok(());
  }

  // ------------------------------------------------------------ role permissions

  /** AssignPermissionsToRoleRequest. */
  datatype AssignPermissionsToRoleRequest = AssignPermissionsToRoleRequest(roleName: string, permissionIds: seq<Guid>)

  /** The add loop: one new link per requested id, in request order, duplicates included. */
  function FreshLinks(staged: Table<RolePermission>, roleId: string, ps: seq<Guid>, now: Time): Table<RolePermission>
    decreases |ps|
  {
    if ps == [] then staged
    else
      var u := FreshLinks(staged, roleId, ps[..|ps| - 1], now);
      u.Inserted(DatabaseSeeder.Link(u.NextId(), roleId, ps[|ps| - 1], now))
  }

  /** What AssignPermissionsToRoleAsync stages: the role's active links soft-deleted, then fresh links. */
  function AssignAsWritten(t: Table<RolePermission>, roleId: string, ps: seq<Guid>, now: Time): Table<RolePermission> {
    FreshLinks(t.SoftDeletedAll(ActiveLinkIds(t, roleId), now), roleId, ps, now)
  }

  /** The keys the add loop gives its new links, in request order. */
  function FreshIds(staged: Table<RolePermission>, roleId: string, ps: seq<Guid>, now: Time): (r: seq<Guid>)
    ensures |r| == |ps|
    decreases |ps|
  {
    if ps == [] then []
    else FreshIds(staged, roleId, ps[..|ps| - 1], now) + [FreshLinks(staged, roleId, ps[..|ps| - 1], now).NextId()]
  }

  /** The add loop keeps the table well formed and appends the fresh keys to the insertion order. */
  lemma {:induction false} FreshLinksShape(staged: Table<RolePermission>, roleId: string, ps: seq<Guid>, now: Time)
    requires staged.WellFormed()
    ensures FreshLinks(staged, roleId, ps, now).WellFormed()
    ensures FreshLinks(staged, roleId, ps, now).order == staged.order + FreshIds(staged, roleId, ps, now)
    decreases |ps|
  {
    if ps != [] {
      var init := ps[..|ps| - 1];
      FreshLinksShape(staged, roleId, init, now);
      var u := FreshLinks(staged, roleId, init, now);
      var row := DatabaseSeeder.Link(u.NextId(), roleId, ps[|ps| - 1], now);
      InsertedWellFormed(u, row);
      assert u.Inserted(row).order == (staged.order + FreshIds(staged, roleId, init, now)) + [u.NextId()];
    }
  }

  /**
   * The add loop keeps every staged row and stores, under the i-th fresh key,
   * an active link of the role to the i-th requested id.
   */
  lemma {:induction false} FreshLinksFacts(staged: Table<RolePermission>, roleId: string, ps: seq<Guid>, now: Time)
    requires staged.WellFormed()
    ensures FreshLinks(staged, roleId, ps, now).WellFormed()
    ensures FreshLinks(staged, roleId, ps, now).order == staged.order + FreshIds(staged, roleId, ps, now)
    ensures forall id :: id in staged.rows ==>
      id in FreshLinks(staged, roleId, ps, now).rows && FreshLinks(staged, roleId, ps, now).rows[id] == staged.rows[id]
    ensures forall i :: 0 <= i < |ps| ==>
      var id := FreshIds(staged, roleId, ps, now)[i];
      id in FreshLinks(staged, roleId, ps, now).rows
      && FreshLinks(staged, roleId, ps, now).rows[id] == DatabaseSeeder.Link(id, roleId, ps[i], now)
  {
    FreshLinksShape(staged, roleId, ps, now);
    FreshLinksKeepStaged(staged, roleId, ps, now);
    FreshLinksStoreLinks(staged, roleId, ps, now);
  }

  lemma {:induction false} FreshLinksKeepStaged(staged: Table<RolePermission>, roleId: string, ps: seq<Guid>, now: Time)
    requires staged.WellFormed()
    ensures forall id :: id in staged.rows ==>
      id in FreshLinks(staged, roleId, ps, now).rows && FreshLinks(staged, roleId, ps, now).rows[id] == staged.rows[id]
    decreases |ps|
  {
    if ps != [] {
      var init := ps[..|ps| - 1];
      FreshLinksKeepStaged(staged, roleId, init, now);
      FreshLinksShape(staged, roleId, init, now);
      var u := FreshLinks(staged, roleId, init, now);
      assert u.NextId() !in u.rows;
    }
  }

  lemma {:induction false} FreshLinksStoreLinks(staged: Table<RolePermission>, roleId: string, ps: seq<Guid>, now: Time)
    requires staged.WellFormed()
    ensures forall i :: 0 <= i < |ps| ==>
      var id := FreshIds(staged, roleId, ps, now)[i];
      id in FreshLinks(staged, roleId, ps, now).rows
      && FreshLinks(staged, roleId, ps, now).rows[id] == DatabaseSeeder.Link(id, roleId, ps[i], now)
    decreases |ps|
  {
    if ps != [] {
      var init := ps[..|ps| - 1];
      FreshLinksStoreLinks(staged, roleId, init, now);
      FreshLinksShape(staged, roleId, init, now);
      var u := FreshLinks(staged, roleId, init, now);
      var f := FreshIds(staged, roleId, init, now);
      var n := u.NextId();
      var v := u.Inserted(DatabaseSeeder.Link(n, roleId, ps[|ps| - 1], now));
      assert n !in u.rows;
      assert FreshIds(staged, roleId, ps, now) == f + [n];
      forall i | 0 <= i < |ps|
        ensures (f + [n])[i] in v.rows && v.rows[(f + [n])[i]] == DatabaseSeeder.Link((f + [n])[i], roleId, ps[i], now)
      {
        if i < |ps| - 1 {
          assert ps[i] == init[i];
          assert (f + [n])[i] == f[i];
        }
      }
    }
  }

  /** The fresh keys are pairwise distinct, none is a staged key, and they are the only keys added. */
  lemma {:induction false} FreshIdsAreNew(staged: Table<RolePermission>, roleId: string, ps: seq<Guid>, now: Time)
    requires staged.WellFormed()
    ensures forall i :: 0 <= i < |ps| ==> FreshIds(staged, roleId, ps, now)[i] !in staged.rows
    ensures forall i, j :: 0 <= i < j < |ps| ==> FreshIds(staged, roleId, ps, now)[i] != FreshIds(staged, roleId, ps, now)[j]
    ensures forall id :: id in FreshLinks(staged, roleId, ps, now).rows && id !in staged.rows ==>
      id in FreshIds(staged, roleId, ps, now)
  {
    FreshLinksShape(staged, roleId, ps, now);
    AppendedKeysAreNew(staged, FreshLinks(staged, roleId, ps, now), FreshIds(staged, roleId, ps, now));
  }

  /** The soft deletion that opens the assignment keeps every row's key and data. */
  lemma {:induction false} SoftDeletedKeepsData(t: Table<RolePermission>, roleId: string, now: Time)
    requires t.WellFormed()
    ensures var s := t.SoftDeletedAll(ActiveLinkIds(t, roleId), now);
      && s.WellFormed() && s.rows.Keys == t.rows.Keys
      && (forall id :: id in t.rows ==> s.rows[id].data == t.rows[id].data)
      && GetByRoleId(s, roleId) == []
  {
    SoftDeletedAllFacts(t, RolePermissionKeys, ActiveLinkIds(t, roleId), now);
    NoActiveLinkLeft(t, roleId, now);
  }

  /** After the soft deletion no link of the role is active. */
  lemma {:induction false} SoftDeletedRoleInactive(t: Table<RolePermission>, roleId: string, now: Time, id: Guid)
    requires id in t.rows && t.rows[id].data.roleId == roleId
    ensures t.SoftDeletedAll(ActiveLinkIds(t, roleId), now).rows[id].isDeleted
  {
  }

  /** Two requests for the same id add two links of the same pair: the commit conflicts. */
  lemma {:induction false} AssignDuplicateConflicts(t: Table<RolePermission>, roleId: string, ps: seq<Guid>, now: Time, i: nat, j: nat)
    requires t.WellFormed() && i < j < |ps| && ps[i] == ps[j]
    ensures !AssignAsWritten(t, roleId, ps, now).IsUnique(RolePermissionKeys)
  {
    var s := t.SoftDeletedAll(ActiveLinkIds(t, roleId), now);
    SoftDeletedKeepsData(t, roleId, now);
    FreshLinksFacts(s, roleId, ps, now);
    FreshIdsAreNew(s, roleId, ps, now);
    var u := AssignAsWritten(t, roleId, ps, now);
    var f := FreshIds(s, roleId, ps, now);
    assert f[i] != f[j];
    assert (roleId, ps[i]) in RolePermissionKeys(u.rows[f[i]].data) * RolePermissionKeys(u.rows[f[j]].data);
  }

  /**
   * Requesting a permission the role was ever linked to, even through a link
   * soft-deleted long ago, adds a second link of the pair: the commit conflicts.
   */
  lemma {:induction false} AssignRelinkConflicts(t: Table<RolePermission>, roleId: string, ps: seq<Guid>, now: Time, id: Guid, i: nat)
    requires t.WellFormed() && id in t.rows && i < |ps|
    requires PairOf(t.rows[id].data) == (roleId, ps[i])
    ensures !AssignAsWritten(t, roleId, ps, now).IsUnique(RolePermissionKeys)
  {
    var s := t.SoftDeletedAll(ActiveLinkIds(t, roleId), now);
    SoftDeletedKeepsData(t, roleId, now);
    FreshLinksFacts(s, roleId, ps, now);
    FreshIdsAreNew(s, roleId, ps, now);
    var u := AssignAsWritten(t, roleId, ps, now);
    var f := FreshIds(s, roleId, ps, now);
    assert id != f[i];
    assert (roleId, ps[i]) in RolePermissionKeys(u.rows[id].data) * RolePermissionKeys(u.rows[f[i]].data);
  }

  /** A clash already in the table survives the assignment. */
  lemma {:induction false} AssignKeepsOldClash(t: Table<RolePermission>, roleId: string, ps: seq<Guid>, now: Time)
    requires t.WellFormed() && !t.IsUnique(RolePermissionKeys)
    ensures !AssignAsWritten(t, roleId, ps, now).IsUnique(RolePermissionKeys)
  {
    var s := t.SoftDeletedAll(ActiveLinkIds(t, roleId), now);
    SoftDeletedKeepsData(t, roleId, now);
    FreshLinksFacts(s, roleId, ps, now);
    var u := AssignAsWritten(t, roleId, ps, now);
    var a, b :| a in t.rows && b in t.rows && a != b && !(RolePermissionKeys(t.rows[a].data) !! RolePermissionKeys(t.rows[b].data));
    assert u.rows[a].data == t.rows[a].data && u.rows[b].data == t.rows[b].data;
  }

  /** Without duplicates and without any earlier link of a requested pair, the commit succeeds. */
  lemma {:induction false} AssignUniqueWhenFresh(t: Table<RolePermission>, roleId: string, ps: seq<Guid>, now: Time)
    requires t.WellFormed() && t.IsUnique(RolePermissionKeys) && NoDuplicates(ps)
    requires forall i :: 0 <= i < |ps| ==> DatabaseSeeder.NoLinkFor(t, roleId, ps[i])
    ensures AssignAsWritten(t, roleId, ps, now).IsUnique(RolePermissionKeys)
  {
    var s := t.SoftDeletedAll(ActiveLinkIds(t, roleId), now);
    SoftDeletedKeepsData(t, roleId, now);
    FreshLinksFacts(s, roleId, ps, now);
    FreshIdsAreNew(s, roleId, ps, now);
    var u := AssignAsWritten(t, roleId, ps, now);
    var f := FreshIds(s, roleId, ps, now);
    forall a, b | a in u.rows && b in u.rows && a != b
      ensures RolePermissionKeys(u.rows[a].data) !! RolePermissionKeys(u.rows[b].data)
    {
      FreshPairUnique(t, s, u, f, roleId, ps, now, a, b);
    }
  }

  /** The case split of AssignUniqueWhenFresh for one pair of keys. */
  lemma {:induction false} FreshPairUnique(t: Table<RolePermission>, s: Table<RolePermission>, u: Table<RolePermission>, f: seq<Guid>,
                        roleId: string, ps: seq<Guid>, now: Time, a: Guid, b: Guid)
    requires t.IsUnique(RolePermissionKeys) && NoDuplicates(ps) && |f| == |ps|
    requires forall i :: 0 <= i < |ps| ==> DatabaseSeeder.NoLinkFor(t, roleId, ps[i])
    requires s.rows.Keys == t.rows.Keys && forall id :: id in t.rows ==> s.rows[id].data == t.rows[id].data
    requires forall id :: id in s.rows ==> id in u.rows && u.rows[id] == s.rows[id]
    requires forall i :: 0 <= i < |ps| ==> f[i] in u.rows && u.rows[f[i]] == DatabaseSeeder.Link(f[i], roleId, ps[i], now)
    requires forall id :: id in u.rows && id !in s.rows ==> id in f
    requires a in u.rows && b in u.rows && a != b
    ensures RolePermissionKeys(u.rows[a].data) !! RolePermissionKeys(u.rows[b].data)
  {
    if a in s.rows && b in s.rows {
      assert RolePermissionKeys(t.rows[a].data) !! RolePermissionKeys(t.rows[b].data);
    } else if a in s.rows {
      var j :| 0 <= j < |f| && f[j] == b;
      assert PairOf(t.rows[a].data) != (roleId, ps[j]);
    } else if b in s.rows {
      var i :| 0 <= i < |f| && f[i] == a;
      assert PairOf(t.rows[b].data) != (roleId, ps[i]);
    } else {
      var i :| 0 <= i < |f| && f[i] == a;
      var j :| 0 <= j < |f| && f[j] == b;
      assert i != j;
      assert ps[i] != ps[j];
    }
  }

  /**
   * The commit of AssignPermissionsToRoleAsync succeeds exactly when the
   * table was consistent, no id is requested twice and the role was never
   * linked, not even through a soft-deleted link, to a requested permission.
   */
  lemma {:induction false} AssignAsWrittenUnique(t: Table<RolePermission>, roleId: string, ps: seq<Guid>, now: Time)
    requires t.WellFormed()
    ensures AssignAsWritten(t, roleId, ps, now).IsUnique(RolePermissionKeys) <==>
      && t.IsUnique(RolePermissionKeys) && NoDuplicates(ps)
      && forall i :: 0 <= i < |ps| ==> DatabaseSeeder.NoLinkFor(t, roleId, ps[i])
  {
    if !t.IsUnique(RolePermissionKeys) {
      AssignKeepsOldClash(t, roleId, ps, now);
    } else if !NoDuplicates(ps) {
      var i, j :| 0 <= i < j < |ps| && ps[i] == ps[j];
      AssignDuplicateConflicts(t, roleId, ps, now, i, j);
    } else if !forall i :: 0 <= i < |ps| ==> DatabaseSeeder.NoLinkFor(t, roleId, ps[i]) {
      var i :| 0 <= i < |ps| && !DatabaseSeeder.NoLinkFor(t, roleId, ps[i]);
      var id :| id in t.rows && PairOf(t.rows[id].data) == (roleId, ps[i]);
      AssignRelinkConflicts(t, roleId, ps, now, id, i);
    } else {
      AssignUniqueWhenFresh(t, roleId, ps, now);
    }
  }

  /**
   * When it commits, the role's active permissions are exactly the requested
   * ones and the links of every other role are untouched.
   */
  lemma {:induction false} AssignAsWrittenOutcome(t: Table<RolePermission>, roleId: string, ps: seq<Guid>, now: Time)
    requires t.WellFormed()
    ensures DatabaseSeeder.ActivePermissionIds(AssignAsWritten(t, roleId, ps, now), roleId) == DatabaseSeeder.Targets(ps)
    ensures forall id :: id in t.rows && t.rows[id].data.roleId != roleId ==>
      id in AssignAsWritten(t, roleId, ps, now).rows && AssignAsWritten(t, roleId, ps, now).rows[id] == t.rows[id]
  {
    AssignAsWrittenActiveSound(t, roleId, ps, now);
    AssignAsWrittenActiveComplete(t, roleId, ps, now);
    AssignAsWrittenKeepsOthers(t, roleId, ps, now);
  }

  lemma {:induction false} AssignAsWrittenActiveSound(t: Table<RolePermission>, roleId: string, ps: seq<Guid>, now: Time)
    requires t.WellFormed()
    ensures DatabaseSeeder.ActivePermissionIds(AssignAsWritten(t, roleId, ps, now), roleId) <= DatabaseSeeder.Targets(ps)
  {
    var u := AssignAsWritten(t, roleId, ps, now);
    forall p | p in DatabaseSeeder.ActivePermissionIds(u, roleId) ensures p in DatabaseSeeder.Targets(ps) {
      var id :| id in u.rows && u.rows[id].data.roleId == roleId && !u.rows[id].isDeleted && u.rows[id].data.permissionId == p;
      ActiveLinkIsFresh(t, roleId, ps, now, id);
    }
  }

  /** An active link of the role after the assignment is one of the fresh links, so it names a requested permission. */
  lemma {:induction false} ActiveLinkIsFresh(t: Table<RolePermission>, roleId: string, ps: seq<Guid>, now: Time, id: Guid)
    requires t.WellFormed()
    requires var u := AssignAsWritten(t, roleId, ps, now);
      id in u.rows && u.rows[id].data.roleId == roleId && !u.rows[id].isDeleted
    ensures AssignAsWritten(t, roleId, ps, now).rows[id].data.permissionId in DatabaseSeeder.Targets(ps)
  {
    var s := t.SoftDeletedAll(ActiveLinkIds(t, roleId), now);
    SoftDeletedKeepsData(t, roleId, now);
    FreshLinksFacts(s, roleId, ps, now);
    FreshIdsAreNew(s, roleId, ps, now);
    var f := FreshIds(s, roleId, ps, now);
    if id in s.rows {
      SoftDeletedRoleInactive(t, roleId, now, id);
      assert false;
    }
    var i :| 0 <= i < |f| && f[i] == id;
    assert AssignAsWritten(t, roleId, ps, now).rows[id].data.permissionId == ps[i];
  }

  lemma {:induction false} AssignAsWrittenActiveComplete(t: Table<RolePermission>, roleId: string, ps: seq<Guid>, now: Time)
    requires t.WellFormed()
    ensures DatabaseSeeder.Targets(ps) <= DatabaseSeeder.ActivePermissionIds(AssignAsWritten(t, roleId, ps, now), roleId)
  {
    var s := t.SoftDeletedAll(ActiveLinkIds(t, roleId), now);
    SoftDeletedKeepsData(t, roleId, now);
    FreshLinksFacts(s, roleId, ps, now);
    var u := AssignAsWritten(t, roleId, ps, now);
    var f := FreshIds(s, roleId, ps, now);
    forall p | p in DatabaseSeeder.Targets(ps) ensures p in DatabaseSeeder.ActivePermissionIds(u, roleId) {
      var i :| 0 <= i < |ps| && ps[i] == p;
      assert u.rows[f[i]].data.permissionId == p;
    }
  }

  lemma {:induction false} AssignAsWrittenKeepsOthers(t: Table<RolePermission>, roleId: string, ps: seq<Guid>, now: Time)
    requires t.WellFormed()
    ensures forall id :: id in t.rows && t.rows[id].data.roleId != roleId ==>
      id in AssignAsWritten(t, roleId, ps, now).rows && AssignAsWritten(t, roleId, ps, now).rows[id] == t.rows[id]
  {
    var s := t.SoftDeletedAll(ActiveLinkIds(t, roleId), now);
    SoftDeletedKeepsData(t, roleId, now);
    FreshLinksFacts(s, roleId, ps, now);
    FreshIdsAreNew(s, roleId, ps, now);
    var u := AssignAsWritten(t, roleId, ps, now);
    forall id | id in t.rows && t.rows[id].data.roleId != roleId ensures id in u.rows && u.rows[id] == t.rows[id] {
      assert id !in ActiveLinkIds(t, roleId);
    }
  }

  /**
   * Calling the operation twice with the same non-empty list fails the second
   * time, even when the first call committed: every link the first call added
   * is still in the table when the second call adds it again.
   */
  lemma {:induction false} SecondAssignConflicts(t: Table<RolePermission>, roleId: string, ps: seq<Guid>, now1: Time, now2: Time)
    requires t.WellFormed() && ps != []
    ensures !AssignAsWritten(AssignAsWritten(t, roleId, ps, now1), roleId, ps, now2).IsUnique(RolePermissionKeys)
  {
    var s := t.SoftDeletedAll(ActiveLinkIds(t, roleId), now1);
    SoftDeletedKeepsData(t, roleId, now1);
    FreshLinksFacts(s, roleId, ps, now1);
    var u := AssignAsWritten(t, roleId, ps, now1);
    var id := FreshIds(s, roleId, ps, now1)[0];
    AssignRelinkConflicts(u, roleId, ps, now2, id, 0);
  }

  /**
   * The add loop of AssignPermissionsToRoleAsync: throws at the first id no
   * permission has (soft-deleted permissions are found), else stages the links.
   */
  method AddLinks(permissions: Table<Permission>, staged: Table<RolePermission>, roleId: string,
                  ps: seq<Guid>, now: Time) returns (r: Result<Table<RolePermission>>)
    ensures (exists i :: 0 <= i < |ps| && ps[i] !in permissions.rows) <==> r.Err?
    ensures r.Err? ==> r.error == KeyNotFound("PermissionNotFound")
    ensures r.Ok? ==> r.value == FreshLinks(staged, roleId, ps, now)
  {
    var u := staged;
    var i := 0;
    while i < |ps|
      invariant 0 <= i <= |ps|
      invariant u == FreshLinks(staged, roleId, ps[..i], now)
      invariant forall k :: 0 <= k < i ==> ps[k] in permissions.rows
    {
      var permission := permissions.GetById(ps[i]);
      if permission.None? {
        return Err(KeyNotFound("PermissionNotFound"));
      }
      assert ps[..i + 1][..i] == ps[..i];
      u := u.Inserted(DatabaseSeeder.Link(u.NextId(), roleId, ps[i], now));
      i := i + 1;
    }
    assert ps[..i] == ps;
    r := Ok(u);
  }

  /**
   * AssignPermissionsToRoleAsync as written: an unknown role or permission
   * throws before anything is saved; otherwise the staged soft deletions and
   * additions are committed together, or refused by the unique index.
   */
  method AssignPermissionsToRole(identity: Store, permissions: Table<Permission>,
                                 links: Repository<RolePermission, (string, Guid)>,
                                 request: AssignPermissionsToRoleRequest, now: Time) returns (r: Result<()>)
    requires links.Valid() && links.keysOf == RolePermissionKeys
    modifies links
    ensures links.Valid()
    ensures FindRoleByName(identity, request.roleName).None? ==> r == Err(KeyNotFound("RoleNotFound"))
    ensures FindRoleByName(identity, request.roleName).Some?
            && (exists i :: 0 <= i < |request.permissionIds| && request.permissionIds[i] !in permissions.rows)
            ==> r == Err(KeyNotFound("PermissionNotFound"))
    ensures r.Err? ==> links.table == old(links.table)
    ensures FindRoleByName(identity, request.roleName).Some?
            && (forall i :: 0 <= i < |request.permissionIds| ==> request.permissionIds[i] in permissions.rows)
            ==> var staged := AssignAsWritten(old(links.table), FindRoleByName(identity, request.roleName).value.id,
                                              request.permissionIds, now);
                && (r.Ok? <==> staged.IsUnique(RolePermissionKeys))
                && (r.Err? ==> r == Err(DbUpdateConflict))
                && (r.Ok? ==> links.table == staged)
  {
    var role := FindRoleByName(identity, request.roleName);
    if role.None? {
      return Err(KeyNotFound("RoleNotFound"));
    }
    var roleId := role.value.id;
    var deleted := DeleteByRoleId(links.table, roleId, now);
    var added := AddLinks(permissions, deleted, roleId, request.permissionIds, now);
    if added.Err? {
      return Err(added.error);
    }
    FreshLinksFacts(deleted, roleId, request.permissionIds, now);
    var ok := links.SaveChangesAsync(added.value);
    if !ok {
      return Err(DbUpdateConflict);
    }
    r := Ok(());
  }

  /** The requested ids without repeats name the same permissions. */
  lemma {:induction false} TargetsOfDistinct(ps: seq<Guid>)
    ensures DatabaseSeeder.Targets(Distinct(ps)) == DatabaseSeeder.Targets(ps)
  {
    var d := Distinct(ps);
    forall p | p in DatabaseSeeder.Targets(d) ensures p in DatabaseSeeder.Targets(ps) {
      var i :| 0 <= i < |d| && d[i] == p;
    }
    forall p | p in DatabaseSeeder.Targets(ps) ensures p in DatabaseSeeder.Targets(d) {
      var i :| 0 <= i < |ps| && ps[i] == p;
    }
  }

  /**
   * The reconciling assignment over the distinct requested ids always commits,
   * leaves the role with exactly the requested permissions, and a second call
   * with the same ids changes nothing.
   */
  lemma {:induction false} AssignReconciledSucceeds(t: Table<RolePermission>, roleId: string, ps: seq<Guid>, now1: Time, now2: Time)
    requires t.WellFormed() && t.IsUnique(RolePermissionKeys)
    ensures var u := DatabaseSeeder.AssignSpec(t, roleId, Distinct(ps), now1);
      && u.WellFormed() && u.IsUnique(RolePermissionKeys)
      && DatabaseSeeder.ActivePermissionIds(u, roleId) == DatabaseSeeder.Targets(ps)
      && DatabaseSeeder.AssignSpec(u, roleId, Distinct(ps), now2) == u
  {
    DatabaseSeeder.AssignFacts(t, roleId, Distinct(ps), now1);
    DatabaseSeeder.AssignIdempotent(t, roleId, Distinct(ps), now1, now2);
    TargetsOfDistinct(ps);
  }

  /**
   * AssignPermissionsToRoleAsync reconciling the links as the seeder does:
   * the same checks, then only the links that must change are touched, so
   * the commit never conflicts.
   */
  method AssignReconciled(identity: Store, permissions: Table<Permission>,
                          links: Repository<RolePermission, (string, Guid)>,
                          request: AssignPermissionsToRoleRequest, now: Time) returns (r: Result<()>)
    requires links.Valid() && links.keysOf == RolePermissionKeys
    modifies links
    ensures links.Valid()
    ensures FindRoleByName(identity, request.roleName).None? ==> r == Err(KeyNotFound("RoleNotFound"))
    ensures FindRoleByName(identity, request.roleName).Some?
            && (exists i :: 0 <= i < |request.permissionIds| && request.permissionIds[i] !in permissions.rows)
            ==> r == Err(KeyNotFound("PermissionNotFound"))
    ensures r.Err? ==> links.table == old(links.table)
    ensures FindRoleByName(identity, request.roleName).Some?
            && (forall i :: 0 <= i < |request.permissionIds| ==> request.permissionIds[i] in permissions.rows)
            ==> var roleId := FindRoleByName(identity, request.roleName).value.id;
                && r == Ok(())
                && links.table == DatabaseSeeder.AssignSpec(old(links.table), roleId, Distinct(request.permissionIds), now)
                && DatabaseSeeder.ActivePermissionIds(links.table, roleId) == DatabaseSeeder.Targets(request.permissionIds)
  {
    var role := FindRoleByName(identity, request.roleName);
    if role.None? {
      return Err(KeyNotFound("RoleNotFound"));
    }
    var roleId := role.value.id;
    var ps := request.permissionIds;
    var i := 0;
    while i < |ps|
      invariant 0 <= i <= |ps|
      invariant forall k :: 0 <= k < i ==> ps[k] in permissions.rows
    {
      if permissions.GetById(ps[i]).None? {
        return Err(KeyNotFound("PermissionNotFound"));
      }
      i := i + 1;
    }
    var staged := DatabaseSeeder.AssignPermissionsToRole(links.table, roleId, Distinct(ps), now);
    AssignReconciledSucceeds(links.table, roleId, ps, now, now);
    var ok := links.SaveChangesAsync(staged);
    assert ok;
    r := Ok(());
  }

  /** GetPermissionsByRoleAsync: the active permissions linked to the named role. */
  function GetPermissionsByRole(identity: Store, permissions: Table<Permission>, links: Table<RolePermission>,
                                roleName: string): (r: Result<seq<Row<Permission>>>)
    ensures r.Err? <==> FindRoleByName(identity, roleName).None?
    ensures r.Err? ==> r.error == KeyNotFound("RoleNotFound")
    ensures r.Ok? ==> forall p :: p in r.value <==>
      p in permissions.All() && !p.isDeleted && LinkedToAny(links, [FindRoleByName(identity, roleName).value.id], p)
  {
    match FindRoleByName(identity, roleName)
    case None => Err(KeyNotFound("RoleNotFound"))
    case Some(role) =>
      var ps := GetPermissionsByRoleId(permissions, links, role.id);
      assert forall p :: p in ps <==> p in permissions.All() && !p.isDeleted && LinkedToAny(links, [role.id], p) by {
        forall p | p in permissions.All() && !p.isDeleted && LinkedToAny(links, [role.id], p) ensures p in ps {
          var i :| 0 <= i < |permissions.All()| && permissions.All()[i] == p;
        }
      }
      Ok(ps)
  }

  /** The ids of the user's role names that resolve to a role, in order (unresolved names are skipped). */
  function ResolvedRoleIds(identity: Store, names: seq<string>): (r: seq<string>)
    ensures forall id :: id in r <==>
      exists i :: 0 <= i < |names| && FindRoleByName(identity, names[i]).Some? && FindRoleByName(identity, names[i]).value.id == id
    decreases |names|
  {
    if names == [] then []
    else
      var init := names[..|names| - 1];
      var last := names[|names| - 1];
      var rest := ResolvedRoleIds(identity, init);
      assert forall i :: 0 <= i < |init| ==> init[i] == names[i];
      match FindRoleByName(identity, last)
      case Some(role) => rest + [role.id]
      case None => rest
  }

  function PermissionName(p: Row<Permission>): string { p.data.name }

  /** The distinct names of the active permissions linked to a role of the user. */
  function UserPermissionNames(identity: Store, permissions: Table<Permission>, links: Table<RolePermission>, user: User)
    : seq<string>
  {
    NamesOfRoles(permissions, links, ResolvedRoleIds(identity, RolesOf(identity, user)))
  }

  /** Each name is listed once. */
  lemma {:induction false} UserPermissionNamesDistinct(identity: Store, permissions: Table<Permission>, links: Table<RolePermission>, user: User)
    ensures NoDuplicates(UserPermissionNames(identity, permissions, links, user))
  {
  }

  /** Select(p => p.Name).Distinct() over the permissions of the role ids. */
  function NamesOfRoles(permissions: Table<Permission>, links: Table<RolePermission>, roleIds: seq<string>): seq<string> {
    Distinct(Map(GetPermissionsByUserRoles(permissions, links, roleIds), PermissionName))
  }

  lemma {:induction false} NamesOfRolesSound(permissions: Table<Permission>, links: Table<RolePermission>, roleIds: seq<string>, name: string)
    requires name in NamesOfRoles(permissions, links, roleIds)
    ensures exists p :: p in permissions.All() && !p.isDeleted && p.data.name == name && LinkedToAny(links, roleIds, p)
  {
    var ps := GetPermissionsByUserRoles(permissions, links, roleIds);
    var names := Map(ps, PermissionName);
    var j :| 0 <= j < |names| && names[j] == name;
    assert ps[j].data.name == name;
  }

  lemma {:induction false} NamesOfRolesComplete(permissions: Table<Permission>, links: Table<RolePermission>, roleIds: seq<string>, p: Row<Permission>)
    requires p in permissions.All() && !p.isDeleted && LinkedToAny(links, roleIds, p)
    ensures p.data.name in NamesOfRoles(permissions, links, roleIds)
  {
    var ps := GetPermissionsByUserRoles(permissions, links, roleIds);
    var names := Map(ps, PermissionName);
    var i :| 0 <= i < |permissions.All()| && permissions.All()[i] == p;
    var k :| 0 <= k < |links.All()| && links.All()[k].data.permissionId == p.id
      && links.All()[k].data.roleId in roleIds && !links.All()[k].isDeleted;
    assert roleIds != [];
    assert p in ps;
    var j :| 0 <= j < |ps| && ps[j] == p;
    assert names[j] == p.data.name;
  }

  /**
   * A name is listed exactly when an active permission of that name has an
   * active link to a role the user is a member of.
   */
  lemma {:induction false} UserPermissionNamesMembers(identity: Store, permissions: Table<Permission>, links: Table<RolePermission>,
                                   user: User, name: string)
    ensures name in UserPermissionNames(identity, permissions, links, user) <==>
      exists p :: p in permissions.All() && !p.isDeleted && p.data.name == name
        && LinkedToAny(links, ResolvedRoleIds(identity, RolesOf(identity, user)), p)
  {
    var roleIds := ResolvedRoleIds(identity, RolesOf(identity, user));
    assert UserPermissionNames(identity, permissions, links, user) == NamesOfRoles(permissions, links, roleIds);
    if name in NamesOfRoles(permissions, links, roleIds) {
      NamesOfRolesSound(permissions, links, roleIds, name);
    }
    if exists p :: p in permissions.All() && !p.isDeleted && p.data.name == name && LinkedToAny(links, roleIds, p) {
      var p :| p in permissions.All() && !p.isDeleted && p.data.name == name && LinkedToAny(links, roleIds, p);
      NamesOfRolesComplete(permissions, links, roleIds, p);
    }
  }

  /**
   * GetUserPermissionsAsync: an unknown user throws; otherwise the user's
   * role names are resolved one by one and the distinct names of the
   * permissions of the resolved roles are returned.
   */
  method GetUserPermissions(identity: Store, permissions: Table<Permission>, links: Table<RolePermission>,
                            userId: string) returns (r: Result<seq<string>>)
    ensures FindById(identity, userId).None? ==> r == Err(KeyNotFound("UserNotFound"))
    ensures FindById(identity, userId).Some? ==>
      r == Ok(UserPermissionNames(identity, permissions, links, FindById(identity, userId).value))
  {
    var user := FindById(identity, userId);
    if user.None? {
      return Err(KeyNotFound("UserNotFound"));
    }
    var roleIds := ResolveRoleIds(identity, RolesOf(identity, user.value));
    var ps := GetPermissionsByUserRoles(permissions, links, roleIds);
    r := Ok(Distinct(Map(ps, PermissionName)));
  }

  /** The loop of GetUserPermissionsAsync: each role name is looked up and the ids of the roles found are kept. */
  method ResolveRoleIds(identity: Store, roles: seq<string>) returns (roleIds: seq<string>)
    ensures roleIds == ResolvedRoleIds(identity, roles)
  {
    roleIds := [];
    var i := 0;
    while i < |roles|
      invariant 0 <= i <= |roles|
      invariant roleIds == ResolvedRoleIds(identity, roles[..i])
    {
      var role := FindRoleByName(identity, roles[i]);
      assert roles[..i + 1][..i] == roles[..i];
      if role.Some? {
        roleIds := roleIds + [role.value.id];
      }
      i := i + 1;
    }
    assert roles[..i] == roles;
  }
}
