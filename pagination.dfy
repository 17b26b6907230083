/**
 * Paging: the clamping setters of the generic page request and the
 * arithmetic of the paginated response (total pages, previous/next flags),
 * and the `Skip((pageNumber - 1) * pageSize).Take(pageSize)` window every
 * paged query applies.
 */
module Pagination {
  import opened Common
  import opened Collections

  const DefaultPageNumber: int := 1
  const DefaultPageSize: int := 10
  const MaxPageSize: int := 100

  /** The generic page request with its two filters (ticket code, status). */
  datatype PaginationRequest = PaginationRequest(
    pageNumber: int,
    pageSize: int,
    ticketCode: Option<string>,
    status: Option<string>)

  /** What the two setters guarantee about every request built from them. */
  predicate WithinLimits(r: PaginationRequest) {
    r.pageNumber >= 1 && 1 <= r.pageSize <= MaxPageSize
  }

  /** A freshly constructed request: page 1 of 10, no filters. */
  function DefaultRequest(): (r: PaginationRequest)
    ensures WithinLimits(r)
    ensures r.pageNumber == 1 && r.pageSize == 10
    ensures r.ticketCode.None? && r.status.None?
  {
    PaginationRequest(DefaultPageNumber, DefaultPageSize, None, None)
  }

  /** The `PageNumber` setter: values below 1 become 1, all others are kept. */
  function ClampPageNumber(value: int): (r: int)
    ensures r >= 1
    ensures value >= 1 ==> r == value
    ensures value < 1 ==> r == 1
  {
    if value < 1 then 1 else value
  }

  /** The `PageSize` setter: values below 1 become 10, values above 100 become 100. */
  function ClampPageSize(value: int): (r: int)
    ensures 1 <= r <= MaxPageSize
    ensures 1 <= value <= MaxPageSize ==> r == value
    ensures value < 1 ==> r == DefaultPageSize
    ensures value > MaxPageSize ==> r == MaxPageSize
  {
    if value < 1 then DefaultPageSize else if value > MaxPageSize then MaxPageSize else value
  }

  /** Assigning `PageNumber`: the page becomes at least 1, the value itself when it is; nothing else changes. */
  function SetPageNumber(req: PaginationRequest, value: int): (r: PaginationRequest)
    ensures r.pageNumber >= 1 && (value >= 1 ==> r.pageNumber == value)
    ensures r.pageSize == req.pageSize && r.ticketCode == req.ticketCode && r.status == req.status
  {
    req.(pageNumber := ClampPageNumber(value))
  }

  /** Assigning `PageSize`: the size lands in 1..100, the value itself when it is in range; nothing else changes. */
  function SetPageSize(req: PaginationRequest, value: int): (r: PaginationRequest)
    ensures 1 <= r.pageSize <= MaxPageSize && (1 <= value <= MaxPageSize ==> r.pageSize == value)
    ensures r.pageNumber == req.pageNumber && r.ticketCode == req.ticketCode && r.status == req.status
  {
    req.(pageSize := ClampPageSize(value))
  }

  /** Whatever the setters are given, a request stays within limits and keeps its other fields. */
  lemma SettersKeepLimits(r: PaginationRequest, value: int)
    requires WithinLimits(r)
    ensures WithinLimits(SetPageNumber(r, value)) && SetPageNumber(r, value).pageSize == r.pageSize
    ensures WithinLimits(SetPageSize(r, value)) && SetPageSize(r, value).pageNumber == r.pageNumber
  {
  }

  /** `ceil(a / b)` for a non-zero divisor, in exact integer arithmetic. */
  function CeilDiv(a: int, b: int): (q: int)
    requires b != 0
    ensures b > 0 ==> b * (q - 1) < a <= b * q
    ensures b < 0 ==> b * q <= a < b * (q - 1)
  {
    if b > 0 then
      var f := (-a) / b;
      assert b * f <= -a < b * f + b;
      assert b * (-f - 1) == -(b * f) - b;
      -f
    else
      var f := a / (-b);
      assert (-b) * f <= a < (-b) * f + (-b);
      assert b * (-f) == (-b) * f;
      assert b * (-f - 1) == (-b) * f + (-b);
      -f
  }

  datatype PaginatedResponse<T> = PaginatedResponse(
    items: seq<T>,
    totalCount: int,
    pageNumber: int,
    pageSize: int,
    totalPages: int,
    hasPrevious: bool,
    hasNext: bool)

  /** The `PaginatedResponse(items, count, pageNumber, pageSize)` constructor. */
  function MakePaginatedResponse<T>(items: seq<T>, count: int, pageNumber: int, pageSize: int): (r: PaginatedResponse<T>)
    requires pageSize != 0
    ensures r.items == items && r.totalCount == count
    ensures r.pageNumber == pageNumber && r.pageSize == pageSize
  {
    var totalPages := CeilDiv(count, pageSize);
    PaginatedResponse(items, count, pageNumber, pageSize, totalPages, pageNumber > 1, pageNumber < totalPages)
  }

  /** Total pages is the least number of pages of `pageSize` items that hold `count` items. */
  lemma TotalPagesSpec<T>(items: seq<T>, count: nat, pageNumber: int, pageSize: int)
    requires pageSize >= 1
    ensures var r := MakePaginatedResponse(items, count, pageNumber, pageSize);
      r.totalPages >= 0 &&
      (r.totalPages - 1) * pageSize < count <= r.totalPages * pageSize &&
      (r.hasPrevious <==> pageNumber > 1) &&
      (r.hasNext <==> pageNumber < r.totalPages)
  {
    var q := CeilDiv(count, pageSize);
    assert (q - 1) * pageSize == pageSize * (q - 1);
  }

  /** No items: no pages, and no next page. */
  lemma EmptyHasNoPages<T>(items: seq<T>, pageNumber: int, pageSize: int)
    requires pageSize != 0
    ensures MakePaginatedResponse(items, 0, pageNumber, pageSize).totalPages == 0
    ensures pageNumber >= 0 ==> !MakePaginatedResponse(items, 0, pageNumber, pageSize).hasNext
  {
  }

  /** The number of leading items a page skips: `(pageNumber - 1) * pageSize`. */
  function Offset(pageNumber: int, pageSize: int): int {
    (pageNumber - 1) * pageSize
  }

  /** `Skip((pageNumber - 1) * pageSize).Take(pageSize)`. */
  function Page<T>(s: seq<T>, pageNumber: int, pageSize: int): (r: seq<T>)
    ensures |r| <= if pageSize > 0 then pageSize else 0
    ensures forall x :: x in r ==> x in s
  {
    Take(Skip(s, Offset(pageNumber, pageSize)), pageSize)
  }

  /** `Take(n)` after `Skip(lo)` is the slice from `lo` of at most `n` items. */
  lemma WindowAt<T>(s: seq<T>, lo: int, n: int)
    requires lo >= 0 && n >= 1
    ensures lo >= |s| ==> Take(Skip(s, lo), n) == []
    ensures lo < |s| ==> Take(Skip(s, lo), n) == s[lo..if lo + n <= |s| then lo + n else |s|]
  {
    if 0 < lo < |s| && n < |s| - lo {
      assert s[lo..][..n] == s[lo..lo + n];
    }
  }

  lemma MulMonotone(a: int, b: int, c: int)
    requires a <= b && c >= 0
    ensures a * c <= b * c
  {
  }

  /** For a valid request the page is the window starting at `(pageNumber - 1) * pageSize`. */
  lemma PageIsWindow<T>(s: seq<T>, pageNumber: int, pageSize: int)
    requires pageNumber >= 1 && pageSize >= 1
    ensures var lo := Offset(pageNumber, pageSize);
      lo >= 0 &&
      (lo >= |s| ==> Page(s, pageNumber, pageSize) == []) &&
      (lo < |s| ==> Page(s, pageNumber, pageSize) == s[lo..if lo + pageSize <= |s| then lo + pageSize else |s|])
  {
    MulMonotone(0, pageNumber - 1, pageSize);
    WindowAt(s, Offset(pageNumber, pageSize), pageSize);
  }

  /**
   * The next page of the same query is non-empty exactly when the response
   * says there is a next page.
   */
  lemma HasNextIffNextPageNonEmpty<T>(s: seq<T>, pageNumber: int, pageSize: int)
    requires pageNumber >= 1 && pageSize >= 1
    ensures MakePaginatedResponse(Page(s, pageNumber, pageSize), |s|, pageNumber, pageSize).hasNext
        <==> |Page(s, pageNumber + 1, pageSize)| > 0
  {
    var q := CeilDiv(|s|, pageSize);
    PageIsWindow(s, pageNumber + 1, pageSize);
    var lo := Offset(pageNumber + 1, pageSize);
    assert lo == pageNumber * pageSize;
    if pageNumber < q {
      MulMonotone(pageNumber, q - 1, pageSize);
      assert (q - 1) * pageSize == pageSize * (q - 1);
    } else {
      MulMonotone(q, pageNumber, pageSize);
      assert q * pageSize == pageSize * q;
    }
  }
}
