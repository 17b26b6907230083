/**
 * The ticket repository's queries over the ticket and user tables: the active
 * ticket count of a staff member, the staff workload of a department, the
 * overdue query, the duplicate query, the code/status filters and the three
 * paged ticket lists (all tickets, a requester's tickets, a staff member's
 * tickets).
 */
module TicketQueries {
  import opened Common
  import opened Collections
  import opened Pagination
  import opened Entities

  // ----- active count and workload -----

  /** A ticket counts towards `staffId`'s load: assigned to it and ASSIGNED or IN_PROGRESS. */
  predicate IsActiveFor(t: Ticket, staffId: int) {
    t.assignedTo == Some(staffId) && IsWorkStatus(t.status)
  }

  /** `GetActiveTicketCountByStaffIdAsync`. */
  function ActiveCount(ts: seq<Ticket>, staffId: int): (n: nat)
    ensures n <= |ts|
  {
    CountIsFilterLength(ts, t => IsActiveFor(t, staffId));
    CountWhere(ts, t => IsActiveFor(t, staffId))
  }

  /** The count is zero exactly when no ticket is active for that staff member. */
  lemma ActiveCountZero(ts: seq<Ticket>, staffId: int)
    ensures ActiveCount(ts, staffId) == 0 <==> forall k :: 0 <= k < |ts| ==> !IsActiveFor(ts[k], staffId)
  {
    CountZero(ts, t => IsActiveFor(t, staffId));
  }

  /** The count is the number of tickets the `Where` of the query returns. */
  lemma ActiveCountIsQueryLength(ts: seq<Ticket>, staffId: int)
    ensures ActiveCount(ts, staffId) == |Filter(ts, t => IsActiveFor(t, staffId))|
    ensures forall t :: t in Filter(ts, t => IsActiveFor(t, staffId)) <==> t in ts && IsActiveFor(t, staffId)
  {
    CountIsFilterLength(ts, t => IsActiveFor(t, staffId));
  }

  /** One row of the workload list. */
  datatype WorkloadRow = WorkloadRow(
    staffCode: string,
    staffName: string,
    activeTicketCount: nat,
    departmentCode: string)

  /**
   * The user belongs to the department with code `deptCode`, is ACTIVE and
   * has the role named "Staff". A user without a department never matches.
   */
  predicate IsDepartmentStaff(c: Catalog, u: User, deptCode: string) {
    u.departmentId.Some? &&
    (match DepartmentById(c, u.departmentId.value)
     case Some(d) => d.code == deptCode
     case None => false) &&
    u.status == UserActive &&
    (match RoleById(c, u.roleId)
     case Some(r) => r.name == RoleStaff
     case None => false)
  }

  function RowOf(ts: seq<Ticket>, u: User, deptCode: string): WorkloadRow {
    WorkloadRow(u.code, u.fullName, ActiveCount(ts, u.id), deptCode)
  }

  /** The staff members of a department, in table order. */
  function DepartmentStaff(us: seq<User>, c: Catalog, deptCode: string): seq<User> {
    Filter(us, u => IsDepartmentStaff(c, u, deptCode))
  }

  /** `GetStaffWorkloadByDepartmentCodeAsync`: one row per staff member of the department. */
  function StaffWorkload(ts: seq<Ticket>, us: seq<User>, c: Catalog, deptCode: string): (r: seq<WorkloadRow>)
    ensures |r| == |DepartmentStaff(us, c, deptCode)|
  {
    var staff := DepartmentStaff(us, c, deptCode);
    seq(|staff|, i requires 0 <= i < |staff| => RowOf(ts, staff[i], deptCode))
  }

  /**
   * The workload list holds exactly the rows of the department's ACTIVE
   * "Staff" users, each with that user's ASSIGNED/IN_PROGRESS count.
   */
  lemma StaffWorkloadSpec(ts: seq<Ticket>, us: seq<User>, c: Catalog, deptCode: string)
    ensures forall w :: w in StaffWorkload(ts, us, c, deptCode) ==>
      exists u :: u in us && IsDepartmentStaff(c, u, deptCode) && w == RowOf(ts, u, deptCode)
    ensures forall u :: u in us && IsDepartmentStaff(c, u, deptCode) ==>
      RowOf(ts, u, deptCode) in StaffWorkload(ts, us, c, deptCode)
    ensures forall w :: w in StaffWorkload(ts, us, c, deptCode) ==> w.departmentCode == deptCode
  {
    var staff := DepartmentStaff(us, c, deptCode);
    var r := StaffWorkload(ts, us, c, deptCode);
    forall w | w in r
      ensures exists u :: u in us && IsDepartmentStaff(c, u, deptCode) && w == RowOf(ts, u, deptCode)
    {
      var i :| 0 <= i < |r| && r[i] == w;
      assert staff[i] in staff;
      assert w == RowOf(ts, staff[i], deptCode);
    }
    forall u | u in us && IsDepartmentStaff(c, u, deptCode)
      ensures RowOf(ts, u, deptCode) in r
    {
      assert u in staff;
      var i :| 0 <= i < |staff| && staff[i] == u;
      assert r[i] == RowOf(ts, u, deptCode);
    }
  }

  // ----- overdue query -----

  /** Deadline set and strictly in the past, and still ASSIGNED or IN_PROGRESS (NEW is not included). */
  predicate IsOverdue(t: Ticket, now: int) {
    t.resolveDeadline.Some? && t.resolveDeadline.value < now && IsWorkStatus(t.status)
  }

  /** The deadline of a ticket that has one (0 otherwise; the overdue query only returns tickets with one). */
  function DeadlineOf(t: Ticket): int {
    if t.resolveDeadline.Some? then t.resolveDeadline.value else 0
  }

  function DeadlineKey(ts: seq<Ticket>): nat -> int {
    (k: nat) => if k < |ts| then DeadlineOf(ts[k]) else 0
  }

  /**
   * `GetOverdueTicketsAsync` at time `now`, as the positions of the returned
   * rows: exactly the overdue tickets, each once, earliest deadline first.
   */
  function OverdueRows(ts: seq<Ticket>, now: int): (r: seq<nat>)
    ensures forall i :: 0 <= i < |r| ==> r[i] < |ts| && IsOverdue(ts[r[i]], now)
    ensures forall j :: 0 <= j < |ts| && IsOverdue(ts[j], now) ==> j in r
    ensures Distinct(r)
    ensures forall i, j :: 0 <= i < j < |r| ==> DeadlineOf(ts[r[i]]) <= DeadlineOf(ts[r[j]])
  {
    var rows := IndicesWhere(ts, OverdueAt(now));
    SortByKeeps(rows, DeadlineKey(ts));
    var sorted := SortBy(rows, DeadlineKey(ts));
    OverdueRowsFacts(ts, now, rows, sorted);
    sorted
  }

  function OverdueAt(now: int): Ticket -> bool {
    t => IsOverdue(t, now)
  }

  lemma OverdueRowsFacts(ts: seq<Ticket>, now: int, rows: seq<nat>, sorted: seq<nat>)
    requires forall k :: 0 <= k < |rows| ==> rows[k] < |ts| && OverdueAt(now)(ts[rows[k]])
    requires forall j :: 0 <= j < |ts| && OverdueAt(now)(ts[j]) ==> j in rows
    requires forall x :: x in sorted <==> x in rows
    requires SortedBy(sorted, DeadlineKey(ts))
    ensures forall i :: 0 <= i < |sorted| ==> sorted[i] < |ts| && IsOverdue(ts[sorted[i]], now)
    ensures forall j :: 0 <= j < |ts| && IsOverdue(ts[j], now) ==> j in sorted
    ensures forall i, j :: 0 <= i < j < |sorted| ==> DeadlineOf(ts[sorted[i]]) <= DeadlineOf(ts[sorted[j]])
  {
    forall i | 0 <= i < |sorted| ensures sorted[i] < |ts| && IsOverdue(ts[sorted[i]], now) {
      assert sorted[i] in rows;
    }
    DeadlineOrder(ts, sorted);
  }

  lemma DeadlineOrder(ts: seq<Ticket>, r: seq<nat>)
    requires forall i :: 0 <= i < |r| ==> r[i] < |ts|
    requires SortedBy(r, DeadlineKey(ts))
    ensures forall i, j :: 0 <= i < j < |r| ==> DeadlineOf(ts[r[i]]) <= DeadlineOf(ts[r[j]])
  {
    forall i, j | 0 <= i < j < |r| ensures DeadlineOf(ts[r[i]]) <= DeadlineOf(ts[r[j]]) {
      assert DeadlineKey(ts)(r[i]) <= DeadlineKey(ts)(r[j]);
    }
  }

  /** No ticket outside the ASSIGNED/IN_PROGRESS pair is ever returned, NEW included. */
  lemma OverdueExcludesNew(ts: seq<Ticket>, now: int, k: nat)
    requires k < |ts| && ts[k].status == StatusNew
    ensures k !in OverdueRows(ts, now)
  {
  }

  // ----- duplicate query -----

  /**
   * One row of `CheckForDuplicateTicketsAsync`: same category, created at or
   * after the cutoff, NEW/ASSIGNED/IN_PROGRESS, same location (never when the
   * candidate has none), and either lowered title contains the other;
   * `searchTitle` is the lowered and trimmed candidate title.
   */
  predicate IsDuplicateOf(t: Ticket, searchTitle: string, categoryId: int, locationId: Option<int>, createdAfter: int) {
    t.categoryId == categoryId &&
    t.createdAt >= createdAfter &&
    IsOpenStatus(t.status) &&
    locationId.Some? && t.locationId == Some(locationId.value) &&
    (Contains(ToLower(t.title), searchTitle) || Contains(searchTitle, ToLower(t.title)))
  }

  /** The candidate title as the query compares it: lowered, then trimmed. */
  function SearchTitle(title: string): string {
    Trim(ToLower(title))
  }

  /** `CheckForDuplicateTicketsAsync`; `requesterId` is accepted and not used. */
  function DuplicateTickets(ts: seq<Ticket>, requesterId: int, title: string, categoryId: int,
                            locationId: Option<int>, createdAfter: int): (r: seq<Ticket>)
    ensures forall t :: t in r <==> t in ts && IsDuplicateOf(t, SearchTitle(title), categoryId, locationId, createdAfter)
  {
    Filter(ts, t => IsDuplicateOf(t, SearchTitle(title), categoryId, locationId, createdAfter))
  }

  /** The requester plays no part in the result. */
  lemma DuplicatesIgnoreRequester(ts: seq<Ticket>, a: int, b: int, title: string, categoryId: int,
                                  locationId: Option<int>, createdAfter: int)
    ensures DuplicateTickets(ts, a, title, categoryId, locationId, createdAfter)
         == DuplicateTickets(ts, b, title, categoryId, locationId, createdAfter)
  {
  }

  /** Without a location nothing is a duplicate. */
  lemma NoLocationNoDuplicates(ts: seq<Ticket>, requesterId: int, title: string, categoryId: int, createdAfter: int)
    ensures DuplicateTickets(ts, requesterId, title, categoryId, None, createdAfter) == []
  {
    FilterNone(ts, t => IsDuplicateOf(t, SearchTitle(title), categoryId, None, createdAfter));
  }

  /** A ticket of the same category and location, open and recent, whose lowered title equals the search title, matches. */
  lemma SameTitleIsDuplicate(t: Ticket, title: string, categoryId: int, locationId: int, createdAfter: int)
    requires t.categoryId == categoryId && t.locationId == Some(locationId)
    requires t.createdAt >= createdAfter && IsOpenStatus(t.status)
    requires ToLower(t.title) == SearchTitle(title)
    ensures IsDuplicateOf(t, SearchTitle(title), categoryId, Some(locationId), createdAfter)
  {
    ContainsSelf(SearchTitle(title));
  }

  // ----- filters -----

  /** The ticket-code filter: case-insensitive substring, skipped when the code is blank. */
  predicate CodeFilter(t: Ticket, ticketCode: Option<string>) {
    IsBlankOrNull(ticketCode) || Contains(ToLower(t.code), ToLower(ticketCode.value))
  }

  /** The status filter: equality with the upper-cased input, skipped when the status is blank. */
  predicate StatusFilter(t: Ticket, status: Option<string>) {
    IsBlankOrNull(status) || t.status == ToUpper(status.value)
  }

  predicate PassesFilters(t: Ticket, ticketCode: Option<string>, status: Option<string>) {
    CodeFilter(t, ticketCode) && StatusFilter(t, status)
  }

  function ByCode(ticketCode: Option<string>): Ticket -> bool {
    t => CodeFilter(t, ticketCode)
  }

  function ByStatus(status: Option<string>): Ticket -> bool {
    t => StatusFilter(t, status)
  }

  function ByFilters(ticketCode: Option<string>, status: Option<string>): Ticket -> bool {
    And(ByCode(ticketCode), ByStatus(status))
  }

  /** `ApplyFilters`: a code `Where` when the code is not blank, then a status `Where` when the status is not blank; the priority is ignored. */
  function ApplyFilters(q: seq<Ticket>, ticketCode: Option<string>, status: Option<string>, priority: Option<string>): (r: seq<Ticket>)
    ensures forall t :: t in r <==> t in q && PassesFilters(t, ticketCode, status)
    ensures |r| <= |q|
  {
    var q1 := if !IsBlankOrNull(ticketCode) then Filter(q, ByCode(ticketCode)) else q;
    if !IsBlankOrNull(status) then Filter(q1, ByStatus(status)) else q1
  }

  /** The two filters together are one order-preserving `Where` on their conjunction. */
  lemma ApplyFiltersIsOneWhere(q: seq<Ticket>, ticketCode: Option<string>, status: Option<string>, priority: Option<string>)
    ensures ApplyFilters(q, ticketCode, status, priority) == Filter(q, ByFilters(ticketCode, status))
  {
    var code := ByCode(ticketCode);
    var st := ByStatus(status);
    var both := ByFilters(ticketCode, status);
    if !IsBlankOrNull(ticketCode) && !IsBlankOrNull(status) {
      FilterTwice(q, code, st);
    } else if !IsBlankOrNull(ticketCode) {
      FilterCongruent(q, code, both);
    } else if !IsBlankOrNull(status) {
      FilterCongruent(q, st, both);
    } else {
      FilterAll(q, both);
    }
  }

  /** Blank filters return the query unchanged. */
  lemma BlankFiltersKeepAll(q: seq<Ticket>, ticketCode: Option<string>, status: Option<string>, priority: Option<string>)
    requires IsBlankOrNull(ticketCode) && IsBlankOrNull(status)
    ensures ApplyFilters(q, ticketCode, status, priority) == q
  {
  }

  // ----- paged lists -----

  /** The list a paged query returns with the number of matches before paging. */
  datatype TicketPage = TicketPage(items: seq<Ticket>, totalCount: nat)

  function CreatedKey(t: Ticket): int {
    -t.createdAt
  }

  predicate NewestFirst(s: seq<Ticket>) {
    forall i, j :: 0 <= i < j < |s| ==> s[i].createdAt >= s[j].createdAt
  }

  /** The query in the order the paged lists use: `OrderByDescending(CreatedAt)`, equal timestamps in table order. */
  function NewestFirstOrder(q: seq<Ticket>): (s: seq<Ticket>)
    ensures multiset(s) == multiset(q)
    ensures NewestFirst(s)
  {
    SortBy(q, CreatedKey)
  }

  /** Tickets created at the same moment keep their query order. */
  lemma NewestFirstStable(q: seq<Ticket>, k: int)
    ensures Filter(NewestFirstOrder(q), KeyIs(CreatedKey, k)) == Filter(q, KeyIs(CreatedKey, k))
  {
    SortByStable(q, CreatedKey, k);
  }

  /**
   * Count the query, then order it newest first, `Skip((pageNumber - 1) * pageSize)`
   * and `Take(pageSize)`.
   */
  function PagedQuery(q: seq<Ticket>, pageNumber: int, pageSize: int): (r: TicketPage)
    ensures r.totalCount == |q|
    ensures |r.items| <= if pageSize > 0 then pageSize else 0
    ensures forall t :: t in r.items ==> t in q
    ensures NewestFirst(r.items)
  {
    var sorted := NewestFirstOrder(q);
    assert forall t :: t in sorted ==> t in q by {
      forall t | t in sorted ensures t in q {
        assert t in multiset(sorted);
      }
    }
    WindowOfSorted(sorted, CreatedKey, Offset(pageNumber, pageSize), pageSize);
    TicketPage(Page(sorted, pageNumber, pageSize), |q|)
  }

  /** The items are the window of the newest-first ordering starting at `(pageNumber - 1) * pageSize`. */
  lemma PagedQueryIsWindow(q: seq<Ticket>, pageNumber: int, pageSize: int)
    requires pageNumber >= 1 && pageSize >= 1
    ensures Offset(pageNumber, pageSize) >= 0
    ensures Offset(pageNumber, pageSize) >= |q| ==> PagedQuery(q, pageNumber, pageSize).items == []
    ensures Offset(pageNumber, pageSize) < |q| ==>
      var lo := Offset(pageNumber, pageSize);
      var hi := if lo + pageSize <= |q| then lo + pageSize else |q|;
      PagedQuery(q, pageNumber, pageSize).items == NewestFirstOrder(q)[lo..hi]
  {
    var s := NewestFirstOrder(q);
    PageIsWindow(s, pageNumber, pageSize);
    assert PagedQuery(q, pageNumber, pageSize).items == Page(s, pageNumber, pageSize);
  }

  /** `GetAllTicketsWithPaginationAsync`. */
  function AllTicketsPage(ts: seq<Ticket>, pageNumber: int, pageSize: int,
                          ticketCode: Option<string>, status: Option<string>, priority: Option<string>): (r: TicketPage)
    ensures forall t :: t in r.items ==> t in ts && PassesFilters(t, ticketCode, status)
    ensures |r.items| <= if pageSize > 0 then pageSize else 0
    ensures NewestFirst(r.items)
  {
    PagedQuery(ApplyFilters(ts, ticketCode, status, priority), pageNumber, pageSize)
  }

  function ByRequester(requesterId: int): Ticket -> bool {
    (t: Ticket) => t.requesterId == requesterId
  }

  function ByAssignee(staffId: int): Ticket -> bool {
    (t: Ticket) => t.assignedTo == Some(staffId)
  }

  /** `GetTicketsByRequesterIdWithPaginationAsync`: only the requester's own tickets. */
  function RequesterTicketsPage(ts: seq<Ticket>, requesterId: int, pageNumber: int, pageSize: int,
                                ticketCode: Option<string>, status: Option<string>, priority: Option<string>): (r: TicketPage)
    ensures forall t :: t in r.items ==> t in ts && t.requesterId == requesterId && PassesFilters(t, ticketCode, status)
    ensures |r.items| <= if pageSize > 0 then pageSize else 0
    ensures NewestFirst(r.items)
  {
    PagedQuery(ApplyFilters(Filter(ts, ByRequester(requesterId)), ticketCode, status, priority), pageNumber, pageSize)
  }

  /** `GetTicketsByAssignedToWithPaginationAsync`: only the tickets assigned to the staff member. */
  function StaffTicketsPage(ts: seq<Ticket>, staffId: int, pageNumber: int, pageSize: int,
                            ticketCode: Option<string>, status: Option<string>, priority: Option<string>): (r: TicketPage)
    ensures forall t :: t in r.items ==> t in ts && t.assignedTo == Some(staffId) && PassesFilters(t, ticketCode, status)
    ensures |r.items| <= if pageSize > 0 then pageSize else 0
    ensures NewestFirst(r.items)
  {
    PagedQuery(ApplyFilters(Filter(ts, ByAssignee(staffId)), ticketCode, status, priority), pageNumber, pageSize)
  }

  /** A row filter followed by the code and status filters counts the conjunction. */
  lemma ScopedCount(ts: seq<Ticket>, scope: Ticket -> bool, ticketCode: Option<string>, status: Option<string>, priority: Option<string>)
    ensures |ApplyFilters(Filter(ts, scope), ticketCode, status, priority)|
         == CountWhere(ts, And(scope, ByFilters(ticketCode, status)))
  {
    ApplyFiltersIsOneWhere(Filter(ts, scope), ticketCode, status, priority);
    FilterTwice(ts, scope, ByFilters(ticketCode, status));
    CountIsFilterLength(ts, And(scope, ByFilters(ticketCode, status)));
  }

  /** The total of the requester view counts every matching ticket of the requester, before paging. */
  lemma RequesterTotalCount(ts: seq<Ticket>, requesterId: int, pageNumber: int, pageSize: int,
                            ticketCode: Option<string>, status: Option<string>, priority: Option<string>)
    ensures RequesterTicketsPage(ts, requesterId, pageNumber, pageSize, ticketCode, status, priority).totalCount
         == CountWhere(ts, And(ByRequester(requesterId), ByFilters(ticketCode, status)))
  {
    ScopedCount(ts, ByRequester(requesterId), ticketCode, status, priority);
  }

  /** The total of the staff view counts every matching ticket assigned to the staff member, before paging. */
  lemma StaffTotalCount(ts: seq<Ticket>, staffId: int, pageNumber: int, pageSize: int,
                        ticketCode: Option<string>, status: Option<string>, priority: Option<string>)
    ensures StaffTicketsPage(ts, staffId, pageNumber, pageSize, ticketCode, status, priority).totalCount
         == CountWhere(ts, And(ByAssignee(staffId), ByFilters(ticketCode, status)))
  {
    ScopedCount(ts, ByAssignee(staffId), ticketCode, status, priority);
  }

  /** The total of the admin view counts every ticket passing the filters, before paging. */
  lemma AllTotalCount(ts: seq<Ticket>, pageNumber: int, pageSize: int,
                      ticketCode: Option<string>, status: Option<string>, priority: Option<string>)
    ensures AllTicketsPage(ts, pageNumber, pageSize, ticketCode, status, priority).totalCount
         == CountWhere(ts, ByFilters(ticketCode, status))
  {
    ApplyFiltersIsOneWhere(ts, ticketCode, status, priority);
    CountIsFilterLength(ts, ByFilters(ticketCode, status));
  }
}
