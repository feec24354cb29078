/**
 * The tail every filtered listing shares: Count() before sorting, a `switch`
 * on the lower-cased SortBy over an allow-list of sort keys (unknown keys
 * fall back to CreatedAt descending), OrderBy or OrderByDescending, then the
 * clamped page.
 */
module Listing {
  import opened Wrappers
  import opened Entities
  import opened Text
  import opened Sorting
  import opened Paging

  /** PagedRequest: the page wanted and an optional search term. */
  datatype PagedRequest = PagedRequest(pageNumber: int, pageSize: int, searchTerm: Option<string>)

  /** request.SortBy?.ToLower() ?? "createdat". */
  function SortField(sortBy: Option<string>): string {
    if sortBy.Some? then Lower(sortBy.value) else "createdat"
  }

  /** (request.SortDirection?.ToLower() ?? "desc") == "asc". */
  predicate Ascending(sortDirection: Option<string>) {
    sortDirection.Some? && Lower(sortDirection.value) == "asc"
  }

  /** The chosen key of a sort switch and its direction. */
  datatype Ordering<F> = Ordering(field: F, ascending: bool)

  /**
   * The sort switch: the first arm whose name is the lower-cased SortBy, in
   * the requested direction; the discard arm sorts by `fallback` descending.
   */
  function Choose<F>(arms: seq<(string, F)>, fallback: F, sortBy: Option<string>, sortDirection: Option<string>): Ordering<F>
    decreases |arms|
  {
    if arms == [] then Ordering(fallback, false)
    else if arms[0].0 == SortField(sortBy) then Ordering(arms[0].1, Ascending(sortDirection))
    else Choose(arms[1..], fallback, sortBy, sortDirection)
  }

  predicate IsArm<F>(arms: seq<(string, F)>, name: string) {
    exists i :: 0 <= i < |arms| && arms[i].0 == name
  }

  /**
   * A named key picks the first arm of that name and sorts ascending exactly
   * when the direction is "asc" in any case; any other key sorts by the
   * fallback, descending, whatever the direction says.
   */
  lemma {:induction false} ChooseSpec<F>(arms: seq<(string, F)>, fallback: F, sortBy: Option<string>, sortDirection: Option<string>)
    ensures var o := Choose(arms, fallback, sortBy, sortDirection);
      && (IsArm(arms, SortField(sortBy)) ==>
            o.ascending == Ascending(sortDirection)
            && exists i :: 0 <= i < |arms| && arms[i].0 == SortField(sortBy) && o.field == arms[i].1
                           && forall j :: 0 <= j < i ==> arms[j].0 != SortField(sortBy))
      && (!IsArm(arms, SortField(sortBy)) ==> o == Ordering(fallback, false))
    decreases |arms|
  {
    if arms != [] && arms[0].0 != SortField(sortBy) {
      ChooseSpec(arms[1..], fallback, sortBy, sortDirection);
      var o := Choose(arms, fallback, sortBy, sortDirection);
      if IsArm(arms, SortField(sortBy)) {
        var k :| 0 <= k < |arms| && arms[k].0 == SortField(sortBy);
        assert arms[1..][k - 1].0 == SortField(sortBy);
        var i :| 0 <= i < |arms[1..]| && arms[1..][i].0 == SortField(sortBy) && o.field == arms[1..][i].1
                 && forall j :: 0 <= j < i ==> arms[1..][j].0 != SortField(sortBy);
        assert arms[i + 1].0 == SortField(sortBy) && o.field == arms[i + 1].1;
        forall j | 0 <= j < i + 1 ensures arms[j].0 != SortField(sortBy) {
          if j > 0 { assert arms[j] == arms[1..][j - 1]; }
        }
      } else {
        forall i | 0 <= i < |arms[1..]| ensures arms[1..][i].0 != SortField(sortBy) {
          assert arms[1..][i] == arms[i + 1];
        }
      }
    }
  }

  /** The switch is on the lower-cased key, so SortBy and SortDirection are case-insensitive. */
  lemma SortIsCaseInsensitive<F>(arms: seq<(string, F)>, fallback: F, sortBy: string, sortDirection: string)
    ensures Choose(arms, fallback, Some(sortBy), Some(sortDirection))
         == Choose(arms, fallback, Some(Lower(sortBy)), Some(Lower(sortDirection)))
  {
    LowerIdempotent(sortBy);
    LowerIdempotent(sortDirection);
  }

  /** Count, sort by the chosen key and take the requested page. */
  function Listed<T>(matching: seq<T>, key: T -> SortKey, ascending: bool, pageNumber: int, pageSize: int): PagedResponse<T> {
    Respond(SortBy(matching, key, ascending), pageNumber, pageSize)
  }

  /** A listing of no matching rows counts none and returns no data, whatever page is asked for. */
  lemma {:induction false} ListedEmpty<T>(matching: seq<T>, key: T -> SortKey, ascending: bool, pageNumber: int, pageSize: int)
    requires forall x :: x !in matching
    ensures Listed(matching, key, ascending, pageNumber, pageSize).totalRecords == 0
    ensures Listed(matching, key, ascending, pageNumber, pageSize).data == []
  {
    if |matching| > 0 {
      assert matching[0] in matching;
    }
    var r := Listed(matching, key, ascending, pageNumber, pageSize);
    ListedSpec(matching, key, ascending, pageNumber, pageSize);
    assert PageStart(r.pageNumber, r.pageSize) >= 0;
  }

  /**
   * A listing response: the count of all matching rows, the clamped page
   * number and size, the ceiling page count, and as data the rows at offsets
   * [(page - 1) * size, page * size) of the matching rows sorted by the key
   * (SortBySorted: ordered by the key, and a permutation of them).
   */
  lemma {:induction false} ListedSpec<T>(matching: seq<T>, key: T -> SortKey, ascending: bool, pageNumber: int, pageSize: int)
    ensures var r := Listed(matching, key, ascending, pageNumber, pageSize);
      var sorted := SortBy(matching, key, ascending);
      && r.totalRecords == |matching|
      && r.pageNumber == ClampPageNumber(pageNumber) && r.pageSize == ClampPageSize(pageSize)
      && r.totalPages == TotalPages(|matching|, r.pageSize)
      && |r.data| == PageLength(|matching|, PageStart(r.pageNumber, r.pageSize), r.pageSize)
      && IsWindow(r.data, sorted, PageStart(r.pageNumber, r.pageSize))
  {
    var sorted := SortBy(matching, key, ascending);
    assert |sorted| == |matching| by { SortBySorted(matching, key, ascending); }
    RespondSpec(sorted, pageNumber, pageSize);
  }

  /** Every matching row is shown on some page: the page of its position in the ordering. */
  lemma {:induction false} ListedCovers<T>(matching: seq<T>, key: T -> SortKey, ascending: bool, pageSize: int, x: T)
    requires 1 <= pageSize <= MaxPageSize && x in matching
    ensures exists p :: 1 <= p <= TotalPages(|matching|, pageSize) && x in Listed(matching, key, ascending, p, pageSize).data
  {
    var sorted := SortBy(matching, key, ascending);
    SortByMembers(matching, key, ascending);
    var i :| 0 <= i < |sorted| && sorted[i] == x;
    SortBySorted(matching, key, ascending);
    PagesCover(sorted, pageSize, i);
    var p := i / pageSize + 1;
    assert Listed(matching, key, ascending, p, pageSize).data == Page(sorted, p, pageSize);
    assert Page(sorted, p, pageSize)[i % pageSize] == x;
  }

  /** The CreatedAt and UpdatedAt ?? CreatedAt keys of any entity. */
  function CreatedAtKey<D>(r: Row<D>): SortKey { TimeKey(r.createdAt) }

  function UpdatedAtKey<D>(r: Row<D>): SortKey { TimeKey(r.updatedAt.GetOr(r.createdAt)) }
}
