/**
 * Least-loaded assignment: the workload view sorted by active ticket count,
 * the row automatic assignment picks from it, and what an assignment does to
 * the counts the next automatic assignment will see.
 */
module Assignment {
  import opened Common
  import opened Collections
  import opened Entities
  import opened TicketQueries
  import opened TicketWorkflow

  function CountKey(w: WorkloadRow): int {
    w.activeTicketCount
  }

  /** `GetStaffWorkloadAsync`: the department's workload rows, fewest active tickets first, ties in table order. */
  function WorkloadView(ts: seq<Ticket>, us: seq<User>, c: Catalog, deptCode: string): (r: seq<WorkloadRow>)
    ensures multiset(r) == multiset(StaffWorkload(ts, us, c, deptCode))
    ensures forall i, j :: 0 <= i < j < |r| ==> r[i].activeTicketCount <= r[j].activeTicketCount
  {
    var r := SortBy(StaffWorkload(ts, us, c, deptCode), CountKey);
    assert forall i, j :: 0 <= i < j < |r| ==> CountKey(r[i]) <= CountKey(r[j]);
    r
  }

  /** Ties keep table order: the rows with any one active count appear in the view as in the workload query. */
  lemma WorkloadViewStable(ts: seq<Ticket>, us: seq<User>, c: Catalog, deptCode: string, n: int)
    ensures Filter(WorkloadView(ts, us, c, deptCode), KeyIs(CountKey, n)) ==
      Filter(StaffWorkload(ts, us, c, deptCode), KeyIs(CountKey, n))
  {
    SortByStable(StaffWorkload(ts, us, c, deptCode), CountKey, n);
  }

  /**
   * `staffWorkload.OrderBy(s => s.ActiveTicketCount).First()`: a row with
   * the smallest count, and among those the first in table order.
   */
  function LeastLoaded(rows: seq<WorkloadRow>): (w: WorkloadRow)
    requires |rows| > 0
    ensures exists i :: (0 <= i < |rows| && rows[i] == w &&
                         forall j :: 0 <= j < i ==> w.activeTicketCount < rows[j].activeTicketCount)
    ensures forall j :: 0 <= j < |rows| ==> w.activeTicketCount <= rows[j].activeTicketCount
  {
    SortByHeadIsArgMin(rows, CountKey);
    var m := ArgMin(rows, CountKey);
    assert forall j :: 0 <= j < |rows| ==> CountKey(rows[m]) <= CountKey(rows[j]);
    assert forall j :: 0 <= j < m ==> CountKey(rows[m]) < CountKey(rows[j]);
    SortBy(rows, CountKey)[0]
  }

  /**
   * The staff member automatic assignment picks is one of the department's
   * ACTIVE "Staff" users, and no such user has fewer ASSIGNED/IN_PROGRESS
   * tickets.
   */
  lemma LeastLoadedIsDepartmentMinimum(ts: seq<Ticket>, us: seq<User>, c: Catalog, deptCode: string)
    requires |StaffWorkload(ts, us, c, deptCode)| > 0
    ensures var w := LeastLoaded(StaffWorkload(ts, us, c, deptCode));
      (exists u :: u in us && IsDepartmentStaff(c, u, deptCode) && w == RowOf(ts, u, deptCode)) &&
      (forall v :: v in us && IsDepartmentStaff(c, v, deptCode) ==> w.activeTicketCount <= ActiveCount(ts, v.id))
  {
    var rows := StaffWorkload(ts, us, c, deptCode);
    var w := LeastLoaded(rows);
    StaffWorkloadSpec(ts, us, c, deptCode);
    assert w in rows;
    forall v | v in us && IsDepartmentStaff(c, v, deptCode)
      ensures w.activeTicketCount <= ActiveCount(ts, v.id)
    {
      var k :| 0 <= k < |rows| && rows[k] == RowOf(ts, v, deptCode);
      assert w.activeTicketCount <= rows[k].activeTicketCount;
    }
  }

  /** The workload list is empty exactly when the department has no ACTIVE "Staff" user. */
  lemma NoStaffNoWorkload(ts: seq<Ticket>, us: seq<User>, c: Catalog, deptCode: string)
    ensures |StaffWorkload(ts, us, c, deptCode)| == 0 <==>
      forall k :: 0 <= k < |us| ==> !IsDepartmentStaff(c, us[k], deptCode)
  {
    StaffWorkloadSpec(ts, us, c, deptCode);
    if |StaffWorkload(ts, us, c, deptCode)| != 0 {
      var w := StaffWorkload(ts, us, c, deptCode)[0];
      assert w in StaffWorkload(ts, us, c, deptCode);
      var u :| u in us && IsDepartmentStaff(c, u, deptCode) && w == RowOf(ts, u, deptCode);
      var k :| 0 <= k < |us| && us[k] == u;
    }
  }

  /**
   * Assigning a NEW ticket adds one to the assignee's active count and leaves
   * every other staff member's count as it was.
   */
  lemma {:induction false} AssignmentAddsOneToAssignee(ts: seq<Ticket>, i: nat, staff: User, adminId: int, other: int)
    requires i < |ts| && ts[i].status == StatusNew
    ensures ActiveCount(ts[i := Assigned(ts[i], staff, adminId)], staff.id) == ActiveCount(ts, staff.id) + 1
    ensures other != staff.id ==>
      ActiveCount(ts[i := Assigned(ts[i], staff, adminId)], other) == ActiveCount(ts, other)
  {
    var x := Assigned(ts[i], staff, adminId);
    CountAfterUpdate(ts, i, x, t => IsActiveFor(t, staff.id));
    CountAfterUpdate(ts, i, x, t => IsActiveFor(t, other));
  }

  /** The message of a successful automatic assignment. */
  function AutoAssignMessage(w: WorkloadRow): (msg: string)
    ensures Contains(msg, w.staffName) && Contains(msg, NatToString(w.activeTicketCount))
  {
    var pre := "Ticket automatically assigned to ";
    var mid := " (Current workload: ";
    var msg := pre + w.staffName + mid + NatToString(w.activeTicketCount) + " tickets)";
    assert OccursAt(msg, w.staffName, |pre|);
    assert OccursAt(msg, NatToString(w.activeTicketCount), |pre + w.staffName + mid|);
    msg
  }

  function NoStaffMessage(d: Department): string {
    "No available staff in the " + d.name + " department. Please assign manually."
  }

  function InactiveStaffMessage(u: User): string {
    "Staff " + u.fullName + " is not active. Current status: " + u.status
  }

  function NoDepartmentMessage(u: User): string {
    "Staff " + u.fullName + " is not assigned to any department."
  }

  /** The staff member's department name, or "Unknown Department" when it is not in the table. */
  function StaffDepartmentName(c: Catalog, departmentId: int): (name: string)
    ensures DepartmentById(c, departmentId).None? ==> name == "Unknown Department"
    ensures DepartmentById(c, departmentId).Some? ==> name == DepartmentById(c, departmentId).value.name
  {
    match DepartmentById(c, departmentId)
    case Some(d) => d.name
    case None => "Unknown Department"
  }

  function WrongDepartmentMessage(u: User, staffDepartment: string, required: Department): string {
    "Staff " + u.fullName + " belongs to " + staffDepartment + " but this ticket requires " + required.name + " department."
  }

  function ManualAssignMessage(u: User, d: Department): string {
    "Ticket manually assigned to " + u.fullName + " (" + d.name + " department)"
  }
}
