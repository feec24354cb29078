/**
 * CategoryService: create, update and soft-delete categories, and their two
 * listings. GetPaged searches Code and Description and keeps table order;
 * GetFiltered applies the dynamic filters of a CategoryFilterRequest, then
 * counts, sorts by an allow-listed key and pages.
 *
 * The service checks code uniqueness against active categories only, while
 * the unique index on Code also covers soft-deleted ones: a code held by a
 * soft-deleted category passes the check and is refused when the change is
 * saved (DbUpdateConflict).
 */
module CategoryService {
  import opened Wrappers
  import opened Entities
  import opened Text
  import opened Seqs
  import opened Sorting
  import opened Paging
  import opened Queries
  import opened DynamicFilter
  import opened GenericRepository
  import opened CategoryRepository
  import opened Listing

  // ---------------------------------------------------------------- schema

  /** Category's properties: Code, Description, the Products collection, then BaseEntity's. */
  function CategoryPropType(name: string): Option<PropType> {
    if name == "Code" || name == "Description" then Some(TString)
    else if name == "Products" then Some(TReference(false))
    else if name == "Id" then Some(TGuid)
    else if name == "CreatedAt" then Some(TDateTime)
    else if name == "UpdatedAt" then Some(TNullableDateTime)
    else if name == "IsDeleted" then Some(TBool)
    else None
  }

  function CategoryValue(x: Row<Category>, name: string): Value {
    if name == "Code" then VStr(x.data.code)
    else if name == "Description" then VStr(x.data.description)
    else if name == "Id" then VGuid(x.id)
    else if name == "CreatedAt" then VTime(x.createdAt)
    else if name == "UpdatedAt" then (if x.updatedAt.Some? then VTime(x.updatedAt.value) else VNull)
    else if name == "IsDeleted" then VBool(x.isDeleted)
    else if name == "Products" then VObject
    else VNull
  }

  /** Category has no navigation with a Code. */
  function NoNavigation(x: Row<Category>, nav: string): Option<string> { None }

  const CategorySchema: Schema<Row<Category>> := Schema(CategoryPropType, ["Code", "Description"], CategoryValue, NoNavigation)

  // --------------------------------------------------------------- listing

  /** CategoryFilterRequest: the common filter fields plus Code and Description. */
  datatype CategoryFilterRequest = CategoryFilterRequest(common: FilterRequest, code: Option<string>, description: Option<string>)

  /** The request as reflection sees it: its own properties are Code and Description. */
  function AsFilter(request: CategoryFilterRequest): FilterRequest {
    request.common.(declared := [FilterProperty("Code", StringValue(request.code)),
                                 FilterProperty("Description", StringValue(request.description))])
  }

  datatype CategorySortKey = ByCode | ByDescription | ByCreatedAt | ByUpdatedAt

  /** The arms of the sort switch, in source order. */
  const SortArms: seq<(string, CategorySortKey)> :=
    [("code", ByCode), ("description", ByDescription), ("createdat", ByCreatedAt), ("updatedat", ByUpdatedAt)]

  function CodeKey(x: Row<Category>): SortKey { TextKey(x.data.code) }

  function DescriptionKey(x: Row<Category>): SortKey { TextKey(x.data.description) }

  function KeyOf(k: CategorySortKey): Row<Category> -> SortKey {
    match k
    case ByCode => CodeKey
    case ByDescription => DescriptionKey
    case ByCreatedAt => CreatedAtKey
    case ByUpdatedAt => UpdatedAtKey
  }

  /** What GetFilteredAsync returns, or the exception it throws. */
  function FilteredListing(t: Table<Category>, request: CategoryFilterRequest): Result<PagedResponse<Row<Category>>> {
    var f := AsFilter(request);
    match Conditions(CategorySchema, f)
    case Err(e) => Err(e)
    case Ok(cs) =>
      match Run(CategorySchema, Query(t.GetAll(), cs))
      case None => Err(NullReference)
      case Some(rows) =>
        var o := Choose(SortArms, ByCreatedAt, f.sortBy, f.sortDirection);
        Ok(Listed(rows, KeyOf(o.field), o.ascending, f.pageNumber, f.pageSize))
  }

  /** GetFilteredAsync: filter the active categories, count, sort, page. */
  method GetFiltered(t: Table<Category>, request: CategoryFilterRequest) returns (r: Result<PagedResponse<Row<Category>>>)
    ensures r == FilteredListing(t, request)
  {
    var f := AsFilter(request);
    var categories := Query(t.GetAll(), []);
    var filtered := ApplyDynamicFilters(CategorySchema, categories, f);
    PropertyConditionsErrorKind(CategorySchema, FilterProperties(f));
    if filtered.Err? {
      return Err(filtered.error);
    }
    assert [] + Conditions(CategorySchema, f).value == Conditions(CategorySchema, f).value;
    EquivalentRun(CategorySchema, filtered.value, Query(t.GetAll(), Conditions(CategorySchema, f).value));
    var rows := Run(CategorySchema, filtered.value);
    if rows.None? {
      return Err(NullReference);
    }
    var o := Choose(SortArms, ByCreatedAt, f.sortBy, f.sortDirection);
    r := Ok(Listed(rows.value, KeyOf(o.field), o.ascending, f.pageNumber, f.pageSize));
  }

  /** A text filter field: absent or empty adds nothing, otherwise a case-insensitive substring test. */
  predicate TextMatches(filter: Option<string>, value: string) {
    filter.None? || filter.value == "" || Text.Contains(Lower(value), Lower(filter.value))
  }

  predicate SearchHit(term: string, x: Row<Category>) {
    Text.Contains(Lower(x.data.code), Lower(term)) || Text.Contains(Lower(x.data.description), Lower(term))
  }

  /** The category filter as a plain conjunction of field conditions. */
  predicate Matches(request: CategoryFilterRequest, x: Row<Category>) {
    && TextMatches(request.code, x.data.code)
    && TextMatches(request.description, x.data.description)
    && BaseMatches(request.common, x, !IsNullOrWhiteSpace(request.common.searchTerm) && SearchHit(request.common.searchTerm.value, x))
  }

  lemma {:induction false} CodeFieldCondition(v: Option<string>)
    ensures FieldCondition(CategorySchema, FilterProperty("Code", StringValue(v)))
         == Ok(if v.Some? && v.value != "" then Some(Contains("Code", Lower(v.value))) else None)
  {
    if v.Some? && v.value != "" {
      assert EndsWith("Code", "Code");
      assert NavigationName("Code") == "" by {
        assert StartsWith("Code", "Code");
        assert "Code"[4..] == [];
      }
    }
  }

  lemma {:induction false} DescriptionFieldCondition(v: Option<string>)
    ensures FieldCondition(CategorySchema, FilterProperty("Description", StringValue(v)))
         == Ok(if v.Some? && v.value != "" then Some(Contains("Description", Lower(v.value))) else None)
  {
    assert !EndsWith("Description", "Code") by {
      assert "Description"[7] != 'C';
    }
  }

  /** The conditions the Code and Description fields contribute, when they hold text. */
  function FieldConditions(request: CategoryFilterRequest): seq<Predicate> {
    (if request.code.Some? && request.code.value != "" then [Contains("Code", Lower(request.code.value))] else [])
    + (if request.description.Some? && request.description.value != "" then [Contains("Description", Lower(request.description.value))] else [])
  }

  lemma {:induction false} PropertyConditionsOfRequest(request: CategoryFilterRequest)
    ensures PropertyConditions(CategorySchema, FilterProperties(AsFilter(request))) == Ok(FieldConditions(request))
  {
    var oc := if request.code.Some? && request.code.value != "" then Some(Contains("Code", Lower(request.code.value))) else None;
    var od := if request.description.Some? && request.description.value != "" then Some(Contains("Description", Lower(request.description.value))) else None;
    CodeFieldCondition(request.code);
    DescriptionFieldCondition(request.description);
    DeclaredConditions(CategorySchema, AsFilter(request), [oc, od]);
    PresentPair(oc, od);
  }

  /** Building the filter for a CategoryFilterRequest never throws: both fields are strings. */
  lemma {:induction false} ConditionsOfRequest(request: CategoryFilterRequest)
    ensures Conditions(CategorySchema, AsFilter(request)) == Ok(FieldConditions(request) + BaseConditions(CategorySchema, AsFilter(request)))
  {
    PropertyConditionsOfRequest(request);
  }

  lemma {:induction false} SearchEvalOnCategory(term: string, x: Row<Category>)
    ensures SearchEval(CategorySchema, CategorySchema.stringProps, Lower(term), x) == Some(SearchHit(term, x))
  {
    var props := CategorySchema.stringProps;
    assert props[1..] == ["Description"];
    assert props[1..][1..] == [];
  }

  /**
   * On every category the generated conditions evaluate without throwing,
   * and they hold exactly when the category matches every filled field.
   */
  lemma {:induction false} ConditionsMeaning(request: CategoryFilterRequest, x: Row<Category>)
    ensures Conditions(CategorySchema, AsFilter(request)).Ok?
    ensures EvalAll(CategorySchema, Conditions(CategorySchema, AsFilter(request)).value, x) == Some(Matches(request, x))
  {
    var f := AsFilter(request);
    ConditionsOfRequest(request);
    var hit := !IsNullOrWhiteSpace(request.common.searchTerm) && SearchHit(request.common.searchTerm.value, x);
    if !IsNullOrWhiteSpace(f.searchTerm) {
      SearchEvalOnCategory(f.searchTerm.value, x);
    }
    BaseConditionsMeaning(CategorySchema, f, x, hit);
    FieldConditionsMeaning(request, x);
    EvalAllAppend(CategorySchema, FieldConditions(request), BaseConditions(CategorySchema, f), x);
  }

  /** The Code and Description conditions hold exactly when both text filters match. */
  lemma {:induction false} FieldConditionsMeaning(request: CategoryFilterRequest, x: Row<Category>)
    ensures EvalAll(CategorySchema, FieldConditions(request), x)
         == Some(TextMatches(request.code, x.data.code) && TextMatches(request.description, x.data.description))
  {
    var code := if request.code.Some? && request.code.value != "" then [Contains("Code", Lower(request.code.value))] else [];
    var desc := if request.description.Some? && request.description.value != "" then [Contains("Description", Lower(request.description.value))] else [];
    if code != [] { EvalAllOne(CategorySchema, code[0], x); }
    if desc != [] { EvalAllOne(CategorySchema, desc[0], x); }
    assert EvalAll(CategorySchema, code, x) == Some(TextMatches(request.code, x.data.code));
    assert EvalAll(CategorySchema, desc, x) == Some(TextMatches(request.description, x.data.description));
    EvalAllAppend(CategorySchema, code, desc, x);
  }

  /** The rows a filter request keeps: exactly the active categories it matches, in table order. */
  lemma {:induction false} FilteredRowsOfRequest(t: Table<Category>, request: CategoryFilterRequest)
    requires t.WellFormed()
    ensures Conditions(CategorySchema, AsFilter(request)).Ok?
    ensures Run(CategorySchema, Query(t.GetAll(), Conditions(CategorySchema, AsFilter(request)).value)).Some?
    ensures var rows := Run(CategorySchema, Query(t.GetAll(), Conditions(CategorySchema, AsFilter(request)).value)).value;
      forall x :: x in rows <==> x.id in t.rows && t.rows[x.id] == x && !x.isDeleted && Matches(request, x)
  {
    ConditionsOfRequest(request);
    var cs := Conditions(CategorySchema, AsFilter(request)).value;
    var xs := t.GetAll();
    forall x | x in xs ensures EvalAll(CategorySchema, cs, x) == Some(Matches(request, x)) {
      ConditionsMeaning(request, x);
    }
    var m := x => Matches(request, x);
    SelectDecidedBy(CategorySchema, xs, cs, m);
    var rows := Run(CategorySchema, Query(xs, cs)).value;
    forall x ensures x in rows <==> x.id in t.rows && t.rows[x.id] == x && !x.isDeleted && Matches(request, x) {
      GetAllMembers(t, x);
      assert m(x) == Matches(request, x);
    }
  }

  /**
   * GetFilteredAsync on categories never throws. Its response counts every
   * active category matching the request, echoes the clamped page and size,
   * and holds the requested page of those categories sorted by the chosen key.
   */
  lemma {:induction false} GetFilteredSpec(t: Table<Category>, request: CategoryFilterRequest)
    requires t.WellFormed()
    ensures Conditions(CategorySchema, AsFilter(request)).Ok?
    ensures Run(CategorySchema, Query(t.GetAll(), Conditions(CategorySchema, AsFilter(request)).value)).Some?
    ensures FilteredListing(t, request).Ok?
    ensures var f := AsFilter(request);
      var rows := Run(CategorySchema, Query(t.GetAll(), Conditions(CategorySchema, f).value)).value;
      var o := Choose(SortArms, ByCreatedAt, f.sortBy, f.sortDirection);
      var sorted := SortBy(rows, KeyOf(o.field), o.ascending);
      var r := FilteredListing(t, request).value;
      && r.totalRecords == |rows|
      && r.pageNumber == ClampPageNumber(f.pageNumber) && r.pageSize == ClampPageSize(f.pageSize)
      && r.totalPages == TotalPages(|rows|, r.pageSize)
      && |r.data| == PageLength(|rows|, PageStart(r.pageNumber, r.pageSize), r.pageSize)
      && IsWindow(r.data, sorted, PageStart(r.pageNumber, r.pageSize))
  {
    var f := AsFilter(request);
    FilteredRowsOfRequest(t, request);
    var rows := Run(CategorySchema, Query(t.GetAll(), Conditions(CategorySchema, f).value)).value;
    var o := Choose(SortArms, ByCreatedAt, f.sortBy, f.sortDirection);
    assert FilteredListing(t, request) == Ok(Listed(rows, KeyOf(o.field), o.ascending, f.pageNumber, f.pageSize));
    ListedSpec(rows, KeyOf(o.field), o.ascending, f.pageNumber, f.pageSize);
  }

  /** The listing is sorted by the chosen key and holds a permutation of the matching rows. */
  lemma {:induction false} GetFilteredOrder(t: Table<Category>, request: CategoryFilterRequest)
    requires t.WellFormed()
    ensures Conditions(CategorySchema, AsFilter(request)).Ok?
    ensures Run(CategorySchema, Query(t.GetAll(), Conditions(CategorySchema, AsFilter(request)).value)).Some?
    ensures var f := AsFilter(request);
      var rows := Run(CategorySchema, Query(t.GetAll(), Conditions(CategorySchema, f).value)).value;
      var o := Choose(SortArms, ByCreatedAt, f.sortBy, f.sortDirection);
      var sorted := SortBy(rows, KeyOf(o.field), o.ascending);
      SortedBy(sorted, KeyOf(o.field), o.ascending) && multiset(sorted) == multiset(rows)
  {
    FilteredRowsOfRequest(t, request);
    var f := AsFilter(request);
    var rows := Run(CategorySchema, Query(t.GetAll(), Conditions(CategorySchema, f).value)).value;
    var o := Choose(SortArms, ByCreatedAt, f.sortBy, f.sortDirection);
    SortBySorted(rows, KeyOf(o.field), o.ascending);
  }

  /** The listing reads only active categories, so asking for deleted ones gives no records. */
  lemma {:induction false} DeletedFilterGivesNothing(t: Table<Category>, request: CategoryFilterRequest)
    requires t.WellFormed() && request.common.isDeleted == Some(true)
    ensures FilteredListing(t, request).Ok?
    ensures FilteredListing(t, request).value.totalRecords == 0 && FilteredListing(t, request).value.data == []
  {
    var f := AsFilter(request);
    FilteredRowsOfRequest(t, request);
    var rows := Run(CategorySchema, Query(t.GetAll(), Conditions(CategorySchema, f).value)).value;
    forall x ensures x !in rows {
      if !x.isDeleted {
        assert !BaseMatches(request.common, x, !IsNullOrWhiteSpace(request.common.searchTerm) && SearchHit(request.common.searchTerm.value, x));
      }
    }
    var o := Choose(SortArms, ByCreatedAt, f.sortBy, f.sortDirection);
    assert FilteredListing(t, request) == Ok(Listed(rows, KeyOf(o.field), o.ascending, f.pageNumber, f.pageSize));
    ListedEmpty(rows, KeyOf(o.field), o.ascending, f.pageNumber, f.pageSize);
  }

  // ------------------------------------------------------------- GetPaged

  /** The active categories whose Code or Description contains the term (all of them without a term), in table order. */
  function PagedRows(t: Table<Category>, searchTerm: Option<string>): seq<Row<Category>> {
    if IsNullOrWhiteSpace(searchTerm) then t.GetAll()
    else Filter(t.GetAll(), (x: Row<Category>) => SearchHit(searchTerm.value, x))
  }

  /** GetPagedAsync: the requested page of PagedRows. */
  function PagedListing(t: Table<Category>, request: PagedRequest): PagedResponse<Row<Category>> {
    Respond(PagedRows(t, request.searchTerm), request.pageNumber, request.pageSize)
  }

  /** GetPagedAsync keeps exactly the active categories the search term hits. */
  lemma {:induction false} PagedRowsMembers(t: Table<Category>, searchTerm: Option<string>)
    requires t.WellFormed()
    ensures forall x :: x in PagedRows(t, searchTerm) <==>
      x.id in t.rows && t.rows[x.id] == x && !x.isDeleted && (IsNullOrWhiteSpace(searchTerm) || SearchHit(searchTerm.value, x))
  {
    if !IsNullOrWhiteSpace(searchTerm) {
      FilterMembers(t.GetAll(), (x: Row<Category>) => SearchHit(searchTerm.value, x));
    }
    forall x ensures x in t.GetAll() <==> x.id in t.rows && t.rows[x.id] == x && !x.isDeleted {
      GetAllMembers(t, x);
    }
  }

  /**
   * GetPagedAsync counts all the rows PagedRows keeps and returns the
   * requested window of them in table order.
   */
  lemma {:induction false} GetPagedSpec(t: Table<Category>, request: PagedRequest)
    ensures var rows := PagedRows(t, request.searchTerm);
      var r := PagedListing(t, request);
      && r.totalRecords == |rows|
      && r.pageNumber == ClampPageNumber(request.pageNumber) && r.pageSize == ClampPageSize(request.pageSize)
      && r.totalPages == TotalPages(|rows|, r.pageSize)
      && |r.data| == PageLength(|rows|, PageStart(r.pageNumber, r.pageSize), r.pageSize)
      && IsWindow(r.data, rows, PageStart(r.pageNumber, r.pageSize))
  {
    RespondSpec(PagedRows(t, request.searchTerm), request.pageNumber, request.pageSize);
  }

  // ------------------------------------------------------------------ CRUD

  /** The unique index on Code refuses storing `c` under `id` exactly when another row, deleted or not, has its code. */
  lemma {:induction false} ClashesIffCodeHeld(t: Table<Category>, id: Guid, c: Category)
    ensures t.Clashes(CategoryKeys, id, c) <==> exists other :: other in t.rows && other != id && t.rows[other].data.code == c.code
  {
    if exists other :: other in t.rows && other != id && t.rows[other].data.code == c.code {
      var other :| other in t.rows && other != id && t.rows[other].data.code == c.code;
      assert c.code in CategoryKeys(t.rows[other].data) * CategoryKeys(c);
    }
  }

  /**
   * When no active category has the code, saving a category with it fails
   * exactly when a soft-deleted category still holds the code.
   */
  lemma {:induction false} ConflictOnlyFromDeletedHolder(t: Table<Category>, id: Guid, c: Category)
    requires t.WellFormed() && !ExistsByCode(t, c.code)
    ensures t.Clashes(CategoryKeys, id, c) <==>
      exists other :: other in t.rows && other != id && t.rows[other].data.code == c.code && t.rows[other].isDeleted
  {
    ClashesIffCodeHeld(t, id, c);
    ExistsByCodeIff(t, c.code);
    forall other | other in t.rows && t.rows[other].data.code == c.code ensures t.rows[other].isDeleted {
      AllMembers(t, t.rows[other]);
      var i :| 0 <= i < |t.All()| && t.All()[i] == t.rows[other];
    }
  }

  /** Creating a category again after deleting it passes the service check and is refused at SaveChanges. */
  lemma {:induction false} RecreateAfterDeleteConflicts(t: Table<Category>, id: Guid, now: Time, description: string)
    requires t.WellFormed() && t.IsUnique(CategoryKeys) && id in t.rows
    ensures var u := t.SoftDeleted(id, now);
      !ExistsByCode(u, t.rows[id].data.code) && u.Clashes(CategoryKeys, u.NextId(), Category(t.rows[id].data.code, description))
  {
    var u := t.SoftDeleted(id, now);
    DeletedCodeGone(t, id, now);
    SoftDeleteHides(t, id, now);
    ClashesIffCodeHeld(u, u.NextId(), Category(t.rows[id].data.code, description));
    assert u.rows[id].data.code == t.rows[id].data.code;
  }

  /** CreateAsync. */
  method Create(repo: Repository<Category, string>, request: Category, now: Time) returns (r: Result<Row<Category>>)
    requires repo.Valid() && repo.keysOf == CategoryKeys
    modifies repo
    ensures repo.Valid()
    ensures ExistsByCode(old(repo.table), request.code) ==> r == Err(InvalidOperation("CategoryCodeExists"))
    ensures r.Err? ==> repo.table == old(repo.table) && r.error in {InvalidOperation("CategoryCodeExists"), DbUpdateConflict}
    ensures r.Ok? ==> && r.value.id !in old(repo.table.rows) && r.value == Row(r.value.id, now, None, false, request)
                      && repo.table == old(repo.table).Inserted(r.value)
    ensures !ExistsByCode(old(repo.table), request.code) ==>
      (r.Err? <==> exists other :: other in old(repo.table.rows) && old(repo.table.rows[other].data.code) == request.code)
  {
    if ExistsByCode(repo.table, request.code) {
      return Err(InvalidOperation("CategoryCodeExists"));
    }
    ghost var before := repo.table;
    var row, ok := repo.AddAsync(request, now);
    ClashesIffCodeHeld(before, row.id, request);
    if !ok {
      return Err(DbUpdateConflict);
    }
    r := Ok(row);
  }

  /** UpdateAsync: Code and Description are replaced, UpdatedAt stamped; a deleted category stays deleted. */
  method Update(repo: Repository<Category, string>, id: Guid, request: Category, now: Time) returns (r: Result<Row<Category>>)
    requires repo.Valid() && repo.keysOf == CategoryKeys
    modifies repo
    ensures repo.Valid()
    ensures id !in old(repo.table.rows) ==> r == Err(KeyNotFound("CategoryNotFound"))
    ensures (id in old(repo.table.rows) && old(repo.table.rows[id].data.code) != request.code
             && ExistsByCode(old(repo.table), request.code)) ==> r == Err(InvalidOperation("CategoryCodeExists"))
    ensures r.Err? ==> repo.table == old(repo.table)
    ensures r.Ok? ==> && id in old(repo.table.rows)
                      && r.value == old(repo.table.rows[id]).(updatedAt := Some(now), data := request)
                      && repo.table == old(repo.table).Replaced(r.value)
    ensures id in old(repo.table.rows) && !(old(repo.table.rows[id].data.code) != request.code && ExistsByCode(old(repo.table), request.code)) ==>
      (r.Ok? <==> !old(repo.table).Clashes(CategoryKeys, id, request))
  {
    var found := repo.table.GetById(id);
    if found.None? {
      return Err(KeyNotFound("CategoryNotFound"));
    }
    var category := found.value;
    if category.data.code != request.code && ExistsByCode(repo.table, request.code) {
      return Err(InvalidOperation("CategoryCodeExists"));
    }
    var updated, ok := repo.UpdateAsync(category.(data := request), now);
    if !ok {
      return Err(DbUpdateConflict);
    }
    r := Ok(updated);
  }

  /** Keeping its own code never makes an update clash: the unique index already holds the code for this row. */
  lemma {:induction false} SameCodeNeverClashes(t: Table<Category>, id: Guid, c: Category)
    requires t.IsUnique(CategoryKeys) && id in t.rows && t.rows[id].data.code == c.code
    ensures !t.Clashes(CategoryKeys, id, c)
  {
    ClashesIffCodeHeld(t, id, c);
    forall other | other in t.rows && other != id ensures t.rows[other].data.code != c.code {
      assert t.rows[id].data.code in CategoryKeys(t.rows[id].data);
    }
  }

  /** DeleteAsync: the category is soft-deleted; an unknown id throws. */
  method Delete(repo: Repository<Category, string>, id: Guid, now: Time) returns (r: Result<()>)
    requires repo.Valid()
    modifies repo
    ensures repo.Valid()
    ensures id !in old(repo.table.rows) ==> r == Err(KeyNotFound("CategoryNotFound")) && repo.table == old(repo.table)
    ensures id in old(repo.table.rows) ==> r == Ok(()) && repo.table == old(repo.table).SoftDeleted(id, now)
  {
    var found := repo.table.GetById(id);
    if found.None? {
      return Err(KeyNotFound("CategoryNotFound"));
    }
    repo.DeleteAsync(id, now);
    r := Ok(());
  }
}
