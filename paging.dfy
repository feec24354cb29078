/**
 * The paging shared by every listing operation: page-number and page-size
 * clamping, Skip((page - 1) * size).Take(size), the ceiling page count and
 * the PagedResponse envelope with its HasPreviousPage / HasNextPage flags.
 */
module Paging {

  const DefaultPageSize := 10
  const MaxPageSize := 100

  /** A page number below 1 becomes 1. */
  function ClampPageNumber(n: int): (r: int)
    ensures r >= 1
    ensures n >= 1 ==> r == n
    ensures n < 1 ==> r == 1
  {
    if n < 1 then 1 else n
  }

  /** A page size below 1 becomes the default 10; above 100 it becomes 100. */
  function ClampPageSize(s: int): (r: int)
    ensures 1 <= r <= MaxPageSize
    ensures 1 <= s <= MaxPageSize ==> r == s
    ensures s < 1 ==> r == DefaultPageSize
    ensures s > MaxPageSize ==> r == MaxPageSize
  {
    if s < 1 then DefaultPageSize else if s > MaxPageSize then MaxPageSize else s
  }

  /** (int)Math.Ceiling(total / (double)size). */
  function TotalPages(total: nat, size: int): (r: nat)
    requires size >= 1
  {
    (total + size - 1) / size
  }

  /** TotalPages is the least number of pages of `size` rows that hold `total` rows. */
  lemma {:induction false} TotalPagesIsCeiling(total: nat, size: int)
    requires size >= 1
    ensures TotalPages(total, size) * size >= total
    ensures total > 0 ==> (TotalPages(total, size) - 1) * size < total
    ensures total == 0 <==> TotalPages(total, size) == 0
  {
    var r := TotalPages(total, size);
    var q := total + size - 1;
    assert q == (q / size) * size + q % size;
    assert r * size + q % size == total + size - 1;
  }

  /** Skip((pageNumber - 1) * pageSize).Take(pageSize). */
  function Page<T>(xs: seq<T>, pageNumber: int, pageSize: int): (r: seq<T>)
    requires pageNumber >= 1 && pageSize >= 1
    ensures |r| <= pageSize
  {
    var start := (pageNumber - 1) * pageSize;
    if start >= |xs| then []
    else if start + pageSize <= |xs| then xs[start..start + pageSize]
    else xs[start..]
  }

  /** Page holds the rows from offset (pageNumber - 1) * pageSize on, at most pageSize of them. */
  lemma {:induction false} PageAt<T>(xs: seq<T>, pageNumber: int, pageSize: int)
    requires pageNumber >= 1 && pageSize >= 1
    ensures var start := (pageNumber - 1) * pageSize;
      && |Page(xs, pageNumber, pageSize)| == (if start >= |xs| then 0 else if start + pageSize <= |xs| then pageSize else |xs| - start)
      && forall k :: 0 <= k < |Page(xs, pageNumber, pageSize)| ==> Page(xs, pageNumber, pageSize)[k] == xs[start + k]
  {
  }

  /** Every row is on exactly the page its index selects, and that page is within the page count. */
  lemma {:induction false} PagesCover<T>(xs: seq<T>, pageSize: int, i: int)
    requires pageSize >= 1 && 0 <= i < |xs|
    ensures 1 <= i / pageSize + 1 <= TotalPages(|xs|, pageSize)
    ensures i % pageSize < |Page(xs, i / pageSize + 1, pageSize)|
    ensures Page(xs, i / pageSize + 1, pageSize)[i % pageSize] == xs[i]
  {
    DivFacts(i, pageSize);
    PageIndex(xs, pageSize, i / pageSize, i % pageSize);
  }

  lemma {:induction false} DivFacts(i: int, n: int)
    requires i >= 0 && n >= 1
    ensures i / n >= 0 && 0 <= i % n < n && i == (i / n) * n + i % n
  {
  }

  /** Offset `r` of page `q + 1` is row q * pageSize + r. */
  lemma {:induction false} PageIndex<T>(xs: seq<T>, pageSize: int, q: int, r: int)
    requires pageSize >= 1 && q >= 0 && 0 <= r < pageSize && q * pageSize + r < |xs|
    ensures 1 <= q + 1 <= TotalPages(|xs|, pageSize)
    ensures r < |Page(xs, q + 1, pageSize)| && Page(xs, q + 1, pageSize)[r] == xs[q * pageSize + r]
  {
    TotalPagesIsCeiling(|xs|, pageSize);
    var t := TotalPages(|xs|, pageSize);
    if q >= t {
      MulMonotone(q, t, pageSize);
      assert false;
    }
    assert (q + 1 - 1) * pageSize == q * pageSize;
    PageAt(xs, q + 1, pageSize);
  }

  /** Pages past the last hold nothing. */
  lemma {:induction false} PageBeyondLastIsEmpty<T>(xs: seq<T>, pageNumber: int, pageSize: int)
    requires pageNumber >= 1 && pageSize >= 1 && pageNumber > TotalPages(|xs|, pageSize)
    ensures Page(xs, pageNumber, pageSize) == []
  {
    TotalPagesIsCeiling(|xs|, pageSize);
    var t := TotalPages(|xs|, pageSize);
    MulMonotone(pageNumber - 1, t, pageSize);
  }

  lemma {:induction false} MulMonotone(a: int, b: int, c: int)
    requires a >= b && c >= 0
    ensures a * c >= b * c
  {
    assert a * c - b * c == (a - b) * c;
  }

  /** Where page `pageNumber` of size `pageSize` starts: (pageNumber - 1) * pageSize. */
  function PageStart(pageNumber: int, pageSize: int): int {
    (pageNumber - 1) * pageSize
  }

  /** `data` is a run of `xs` starting at offset `start`. */
  ghost predicate IsWindow<T>(data: seq<T>, xs: seq<T>, start: int) {
    forall k :: 0 <= k < |data| ==> 0 <= start + k < |xs| && data[k] == xs[start + k]
  }

  /** How many rows a page starting at `start` holds: a full page, what is left, or none. */
  function PageLength(total: nat, start: int, pageSize: int): int {
    if start >= total then 0 else if start + pageSize <= total then pageSize else total - start
  }

  datatype PagedResponse<T> = PagedResponse(data: seq<T>, pageNumber: int, pageSize: int, totalPages: nat, totalRecords: nat) {
    predicate HasPreviousPage() { pageNumber > 1 }
    predicate HasNextPage() { pageNumber < totalPages }
  }

  /** The response of a listing whose matching rows, in listing order, are `matching`. */
  function Respond<T>(matching: seq<T>, requestedPage: int, requestedSize: int): PagedResponse<T> {
    var pageNumber := ClampPageNumber(requestedPage);
    var pageSize := ClampPageSize(requestedSize);
    PagedResponse(Page(matching, pageNumber, pageSize), pageNumber, pageSize, TotalPages(|matching|, pageSize), |matching|)
  }

  /** What a listing response says about the rows that matched: its count, clamped echo and page window. */
  lemma {:induction false} RespondSpec<T>(matching: seq<T>, requestedPage: int, requestedSize: int)
    ensures var r := Respond(matching, requestedPage, requestedSize);
      && r.totalRecords == |matching|
      && r.pageNumber == ClampPageNumber(requestedPage) && r.pageSize == ClampPageSize(requestedSize)
      && r.totalPages == TotalPages(|matching|, r.pageSize)
      && |r.data| == PageLength(|matching|, PageStart(r.pageNumber, r.pageSize), r.pageSize)
      && IsWindow(r.data, matching, PageStart(r.pageNumber, r.pageSize))
  {
    var r := Respond(matching, requestedPage, requestedSize);
    var start := PageStart(r.pageNumber, r.pageSize);
    assert start >= 0 by { MulMonotone(r.pageNumber - 1, 0, r.pageSize); }
    assert r.data == Page(matching, r.pageNumber, r.pageSize);
    PageWindow(matching, r.pageNumber, r.pageSize, start);
  }

  lemma {:induction false} PageWindow<T>(xs: seq<T>, pageNumber: int, pageSize: int, start: int)
    requires pageNumber >= 1 && pageSize >= 1 && start == PageStart(pageNumber, pageSize) && start >= 0
    ensures |Page(xs, pageNumber, pageSize)| == PageLength(|xs|, start, pageSize)
    ensures IsWindow(Page(xs, pageNumber, pageSize), xs, start)
  {
    var d := Page(xs, pageNumber, pageSize);
    if start >= |xs| {
      assert d == [];
    } else if start + pageSize <= |xs| {
      assert d == xs[start..start + pageSize];
    } else {
      assert d == xs[start..];
    }
  }

  /** The page count of a response covers its records, and a next page exists only while records remain. */
  lemma {:induction false} RespondPages<T>(matching: seq<T>, requestedPage: int, requestedSize: int)
    ensures var r := Respond(matching, requestedPage, requestedSize);
      && r.totalPages * r.pageSize >= r.totalRecords
      && (r.totalRecords > 0 ==> (r.totalPages - 1) * r.pageSize < r.totalRecords)
      && (r.HasNextPage() ==> r.pageNumber * r.pageSize < r.totalRecords)
  {
    var p := ClampPageNumber(requestedPage);
    var size := ClampPageSize(requestedSize);
    var pages := TotalPages(|matching|, size);
    TotalPagesIsCeiling(|matching|, size);
    if p < pages {
      MulMonotone(pages - 1, p, size);
    }
  }
}
