/**
 * The ticket validation service: the staff transition table, the error
 * message for a rejected transition, and the seven-day duplicate check the
 * create flow runs before inserting a ticket.
 */
module TicketValidation {
  import opened Common
  import opened Collections
  import opened Entities
  import opened TicketQueries

  /** The staff transition table: ASSIGNED may go to IN_PROGRESS, IN_PROGRESS to RESOLVED. */
  const ValidTransitions: map<string, seq<string>> :=
    map[StatusAssigned := [StatusInProgress], StatusInProgress := [StatusResolved]]

  /** `IsValidStatusTransition`: the current status is a key of the table and the target is listed under it. */
  function IsValidStatusTransition(current: string, next: string): (ok: bool)
    ensures ok <==> (current == StatusAssigned && next == StatusInProgress) ||
                    (current == StatusInProgress && next == StatusResolved)
  {
    current in ValidTransitions && next in ValidTransitions[current]
  }

  /** Staff can never leave NEW, RESOLVED, CLOSED, CANCELLED or OVERDUE, and can never reach CANCELLED. */
  lemma StaffCannotLeaveOrCancel(current: string, next: string)
    ensures current in {StatusNew, StatusResolved, StatusClosed, StatusCancelled, StatusOverdue} ==>
      !IsValidStatusTransition(current, next)
    ensures next == StatusCancelled ==> !IsValidStatusTransition(current, next)
    ensures IsValidStatusTransition(current, next) ==> current != next
  {
  }

  const StaffCannotCancelMessage: string :=
    "Staff cannot cancel tickets. Please contact an administrator if the ticket needs to be cancelled."

  function InvalidTransitionMessage(current: string, next: string): string {
    "Invalid status transition from " + current + " to " + next +
    ". Allowed transitions: ASSIGNED → IN_PROGRESS → RESOLVED"
  }

  /**
   * `GetStatusTransitionError`: empty exactly for a valid transition; for an
   * invalid one, the cancel message when the target is CANCELLED and the
   * generic message naming both statuses otherwise.
   */
  function GetStatusTransitionError(current: string, next: string): (msg: string)
    ensures msg == "" <==> IsValidStatusTransition(current, next)
    ensures !IsValidStatusTransition(current, next) && next == StatusCancelled ==> msg == StaffCannotCancelMessage
    ensures !IsValidStatusTransition(current, next) && next != StatusCancelled ==>
      msg == InvalidTransitionMessage(current, next) &&
      Contains(msg, current) && Contains(msg, next)
  {
    if !IsValidStatusTransition(current, next) then
      if next == StatusCancelled then StaffCannotCancelMessage
      else
        var msg := InvalidTransitionMessage(current, next);
        assert OccursAt(msg, current, |"Invalid status transition from "|);
        assert OccursAt(msg, next, |"Invalid status transition from " + current + " to "|);
        msg
    else ""
  }

  /** Seven days, the window of the duplicate check. */
  const DuplicateWindow: int := 7 * SecondsPerDay

  /** `DateTime.UtcNow.AddDays(-7)`. */
  function DuplicateCutoff(now: int): (cutoff: int)
    ensures cutoff == now - 604800
  {
    now - DuplicateWindow
  }

  /** What `CheckForDuplicatesAsync` returns. */
  datatype DuplicateCheck = DuplicateCheck(hasDuplicates: bool, codes: seq<string>)

  function CodesOf(ts: seq<Ticket>): (codes: seq<string>)
    ensures |codes| == |ts|
    ensures forall i :: 0 <= i < |ts| ==> codes[i] == ts[i].code
  {
    seq(|ts|, i requires 0 <= i < |ts| => ts[i].code)
  }

  /**
   * `CheckForDuplicatesAsync` at time `now`: the duplicate query from
   * `now - 7 days`; the code list holds one code per matched ticket, in
   * query order, and there are duplicates exactly when it is not empty.
   */
  function CheckForDuplicates(ts: seq<Ticket>, requesterId: int, title: string, categoryId: int,
                              locationId: int, now: int): (r: DuplicateCheck)
    ensures r.hasDuplicates <==> |r.codes| > 0
    ensures r.codes == CodesOf(DuplicateTickets(ts, requesterId, title, categoryId, Some(locationId), now - 604800))
    ensures forall code :: code in r.codes <==>
      exists t :: t in ts && t.code == code &&
        IsDuplicateOf(t, SearchTitle(title), categoryId, Some(locationId), now - 604800)
  {
    var found := DuplicateTickets(ts, requesterId, title, categoryId, Some(locationId), DuplicateCutoff(now));
    var codes := CodesOf(found);
    assert forall code :: code in codes <==> exists t :: t in found && t.code == code by {
      forall code ensures code in codes <==> exists t :: t in found && t.code == code {
        if code in codes {
          var i :| 0 <= i < |codes| && codes[i] == code;
          assert found[i] in found;
        }
        if exists t :: t in found && t.code == code {
          var t :| t in found && t.code == code;
          var i :| 0 <= i < |found| && found[i] == t;
          assert codes[i] == code;
        }
      }
    }
    DuplicateCheck(|found| > 0, codes)
  }

  /** A ticket made 7 days or more ago is outside the window; one made since is inside. */
  lemma DuplicateWindowBoundary(t: Ticket, title: string, categoryId: int, locationId: int, now: int)
    requires t.categoryId == categoryId && t.locationId == Some(locationId) && IsOpenStatus(t.status)
    requires ToLower(t.title) == SearchTitle(title)
    ensures t.createdAt >= now - 604800 ==> IsDuplicateOf(t, SearchTitle(title), categoryId, Some(locationId), DuplicateCutoff(now))
    ensures t.createdAt < now - 604800 ==> !IsDuplicateOf(t, SearchTitle(title), categoryId, Some(locationId), DuplicateCutoff(now))
  {
    if t.createdAt >= now - 604800 {
      SameTitleIsDuplicate(t, title, categoryId, locationId, DuplicateCutoff(now));
    }
  }

  /** The candidate's letter case plays no part: upper- and lower-casing it first gives the same search title. */
  lemma SearchTitleIgnoresCase(title: string)
    ensures SearchTitle(ToUpper(title)) == SearchTitle(title)
    ensures SearchTitle(ToLower(title)) == SearchTitle(title)
  {
    assert ToLower(ToUpper(title)) == ToLower(title);
    assert ToLower(ToLower(title)) == ToLower(title);
  }

  /**
   * Containment in either direction is enough: a search title that starts a
   * stored title matches it, and so does a search title that contains the
   * whole stored title.
   */
  lemma TitleMatchEitherWay(t: Ticket, title: string, categoryId: int, locationId: int, createdAfter: int,
                            pre: string, post: string)
    requires t.categoryId == categoryId && t.locationId == Some(locationId)
    requires t.createdAt >= createdAfter && IsOpenStatus(t.status)
    requires ToLower(t.title) == pre + SearchTitle(title) + post ||
             SearchTitle(title) == pre + ToLower(t.title) + post
    ensures IsDuplicateOf(t, SearchTitle(title), categoryId, Some(locationId), createdAfter)
  {
    var a := SearchTitle(title);
    var b := ToLower(t.title);
    if b == pre + a + post {
      assert b[|pre|..|pre| + |a|] == a;
      assert OccursAt(b, a, |pre|);
    } else {
      assert a[|pre|..|pre| + |b|] == b;
      assert OccursAt(a, b, |pre|);
    }
  }
}
