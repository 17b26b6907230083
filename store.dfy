/**
 * The database behind the services, as one object whose tables the service
 * methods update in place: tickets, users, notifications and verification
 * codes, plus the read-only catalog (categories, departments, locations,
 * roles). Each method is one service entry point. It returns the service's
 * `(Success, Message)` pair, and its contract states the whole error cascade
 * and the new state of every table.
 *
 * The clock is the `now` parameter (seconds). Randomness is a `draw`
 * parameter, password hashing a `passwordHash` parameter, and generated
 * ticket and account codes are parameters too. `notifyOk` says whether a
 * best-effort notification inside a try/catch went through. When it did not,
 * the exception was swallowed and no row was added.
 */
module Store {
  import opened Common
  import opened Collections
  import opened Entities
  import opened TicketQueries
  import opened TicketValidation
  import opened TicketWorkflow
  import opened Assignment
  import opened Notifications
  import opened VerificationCodes
  import opened OverdueSweep
  import opened Auth

  predicate AllValid(ts: seq<Ticket>) {
    forall t :: t in ts ==> TicketInvariant(t)
  }

  lemma UpdateKeepsValid(ts: seq<Ticket>, i: nat, x: Ticket)
    requires i < |ts| && AllValid(ts) && TicketInvariant(x)
    ensures AllValid(ts[i := x])
  {
    forall t | t in ts[i := x] ensures TicketInvariant(t) {
      var k :| 0 <= k < |ts[i := x]| && ts[i := x][k] == t;
      if k != i {
        assert ts[k] in ts;
      }
    }
  }

  lemma AppendKeepsValid(ts: seq<Ticket>, x: Ticket)
    requires AllValid(ts) && TicketInvariant(x)
    ensures AllValid(ts + [x])
  {
    forall t | t in ts + [x] ensures TicketInvariant(t) {
      var k :| 0 <= k < |ts + [x]| && (ts + [x])[k] == t;
      if k < |ts| {
        assert ts[k] in ts;
      }
    }
  }

  lemma SweepKeepsValid(ts: seq<Ticket>, now: int, nowText: string)
    requires AllValid(ts)
    ensures AllValid(Sweep(ts, now, nowText))
  {
    forall k | 0 <= k < |ts| ensures TicketInvariant(ts[k]) {
      assert ts[k] in ts;
    }
    SweepKeepsInvariant(ts, now, nowText);
  }

  // ----- service messages -----

  function DuplicateMessage(codes: seq<string>): string {
    "Potential duplicate tickets found: " + Join(codes, ", ") + ". Please check existing tickets."
  }

  function AdminCancelStudentMessage(reason: string): string {
    "Your ticket has been cancelled by administrator. Reason: " + reason
  }

  function EscalatedMessage(ticketCode: string): string {
    "Ticket " + ticketCode + " escalated successfully"
  }

  function AlreadyInStatusMessage(status: string): string {
    "Ticket is already in " + status + " status"
  }

  const ResolutionRequiredMessage: string :=
    "Resolution notes are required when marking a ticket as RESOLVED. Please explain what was done to resolve the issue."

  /** What the student is told after a staff status change. */
  function StaffUpdateStudentMessage(newStatus: string, notes: Option<string>): string {
    if newStatus == StatusResolved then
      "Your ticket has been resolved. Resolution: " + (if notes.Some? then notes.value else "")
    else "Your ticket status has been updated to " + newStatus
  }

  function StatusUpdatedMessage(status: string): string {
    "Ticket status updated to " + status
  }

  const RegistrationMessage: string := "Registration successful. Please check your email for verification code."
  const ResetCodeSentMessage: string := "If the email exists, a password reset code has been sent."

  /** The one-element list a best-effort notification contributes: the new row, or nothing when it threw. */
  function Notified(ns: seq<Notification>, ok: bool, userId: int, message: string, kind: string,
                    ticketCode: string, now: int): (added: seq<Notification>)
    ensures ok ==> added == [NewNotification(ns, userId, message, kind, ticketCode, now)]
    ensures !ok ==> added == []
  {
    if ok then [NewNotification(ns, userId, message, kind, ticketCode, now)] else []
  }

  class TicketStore {
    var tickets: seq<Ticket>
    var users: seq<User>
    var notifications: seq<Notification>
    var codes: seq<VerificationCode>
    const catalog: Catalog

    /** Every ticket satisfies the workflow's invariant. */
    predicate Valid()
      reads this
    {
      AllValid(tickets)
    }

    constructor (catalog: Catalog, tickets: seq<Ticket>, users: seq<User>,
                 notifications: seq<Notification>, codes: seq<VerificationCode>)
      requires AllValid(tickets)
      ensures Valid()
      ensures this.catalog == catalog && this.tickets == tickets && this.users == users
      ensures this.notifications == notifications && this.codes == codes
    {
      this.catalog := catalog;
      this.tickets := tickets;
      this.users := users;
      this.notifications := notifications;
      this.codes := codes;
    }

    // ----- notification service -----

    /** `CreateNotificationAsync`: one unread row for the user, stamped now. */
    method CreateNotification(userId: int, message: string, kind: string, ticketCode: string, now: int)
      modifies this
      ensures notifications == old(notifications) + [NewNotification(old(notifications), userId, message, kind, ticketCode, now)]
      ensures unchanged(this`tickets, this`users, this`codes)
    {
      notifications := notifications + [NewNotification(notifications, userId, message, kind, ticketCode, now)];
    }

    /** `NotifyAdminsOfNewTicketAsync`: one TICKET_CREATED row per ACTIVE admin, in table order. */
    method NotifyAdminsOfNewTicket(ticketCode: string, ticketTitle: string, now: int)
      modifies this
      ensures notifications == WithNotifications(old(notifications), AdminRecipients(users, catalog),
                                                 AdminMessage(ticketTitle), NotificationTicketCreated, ticketCode, now)
      ensures unchanged(this`tickets, this`users, this`codes)
    {
      var admins := AdminRecipients(users, catalog);
      var n0 := notifications;
      var i := 0;
      while i < |admins|
        invariant 0 <= i <= |admins|
        invariant notifications == WithNotifications(n0, admins[..i], AdminMessage(ticketTitle),
                                                      NotificationTicketCreated, ticketCode, now)
        invariant unchanged(this`tickets, this`users, this`codes)
      {
        WithNotificationsStep(n0, admins, i, AdminMessage(ticketTitle), NotificationTicketCreated, ticketCode, now);
        CreateNotification(admins[i].id, AdminMessage(ticketTitle), NotificationTicketCreated, ticketCode, now);
        i := i + 1;
      }
      FullPrefix(admins, i);
    }

    /** `MarkAsReadAsync` of the service: the row must exist, belong to the user and be unread. */
    method MarkAsRead(notificationId: int, userId: int) returns (r: Outcome)
      modifies this
      ensures unchanged(this`tickets, this`users, this`codes)
      ensures match NotificationById(old(notifications), notificationId)
        case None => r == Failure("Notification not found") && notifications == old(notifications)
        case Some(i) =>
          if old(notifications)[i].userId != userId then
            r == Failure("You can only mark your own notifications as read") && notifications == old(notifications)
          else if old(notifications)[i].isRead then
            r == Failure("Notification is already marked as read") && notifications == old(notifications)
          else
            r == Success("Notification marked as read") &&
            notifications == old(notifications)[i := old(notifications)[i].(isRead := true)]
    {
      var found := NotificationById(notifications, notificationId);
      if found.None? {
        return Failure("Notification not found");
      }
      var i := found.value;
      if notifications[i].userId != userId {
        return Failure("You can only mark your own notifications as read");
      }
      if notifications[i].isRead {
        return Failure("Notification is already marked as read");
      }
      notifications := notifications[i := notifications[i].(isRead := true)];
      r := Success("Notification marked as read");
    }

    /** `MarkAllAsReadAsync`: every unread row of the user marked read, one tracked row at a time. */
    method MarkAllAsRead(userId: int) returns (r: Outcome)
      modifies this
      ensures r == Success("All notifications marked as read")
      ensures notifications == MarkedAllRead(old(notifications), userId)
      ensures unchanged(this`tickets, this`users, this`codes)
    {
      var ns := notifications;
      var rows := IndicesWhere(ns, UnreadOf(userId));
      var updated := ns;
      var i := 0;
      while i < |rows|
        invariant 0 <= i <= |rows|
        invariant updated == ApplyAt(ns, rows[..i], MarkRead())
        modifies {}
      {
        ApplyAtStep(ns, rows, i, MarkRead());
        updated := updated[rows[i] := MarkRead()(updated[rows[i]])];
        i := i + 1;
      }
      MarkAllIsLoop(ns, userId, rows, i, updated);
      notifications := updated;
      r := Success("All notifications marked as read");
    }

    // ----- admin ticket service -----

    /** The tail both assignment flows share: record the assignment, then tell the assignee (best effort). */
    method Assign(i: nat, staff: User, adminId: int, now: int, notifyOk: bool)
      requires Valid() && i < |tickets| && tickets[i].status == StatusNew
      modifies this
      ensures Valid()
      ensures tickets == old(tickets)[i := Assigned(old(tickets)[i], staff, adminId)]
      ensures notifications == old(notifications) +
        Notified(old(notifications), notifyOk, staff.id, StaffMessage(old(tickets)[i].title),
                 NotificationTicketAssigned, old(tickets)[i].code, now)
      ensures unchanged(this`users, this`codes)
    {
      var t := tickets[i];
      assert t in tickets;
      AssignedKeepsInvariant(t, staff, adminId);
      UpdateKeepsValid(tickets, i, Assigned(t, staff, adminId));
      tickets := tickets[i := Assigned(t, staff, adminId)];
      if notifyOk {
        CreateNotification(staff.id, StaffMessage(t.title), NotificationTicketAssigned, t.code, now);
      }
    }

    /**
     * `AssignTicketAutomaticallyAsync`: a NEW ticket goes to the least-loaded
     * ACTIVE staff member of its category's department (first in table order
     * among equals). The assignee is told when the notification succeeds.
     */
    method AssignTicketAutomatically(ticketCode: string, adminId: int, now: int, notifyOk: bool)
      returns (r: Outcome, assignedStaffCode: string)
      requires Valid()
      modifies this
      ensures Valid()
      ensures unchanged(this`users, this`codes)
      ensures r.Failure? ==> unchanged(this`tickets, this`notifications) && assignedStaffCode == ""
      ensures match TicketByCode(old(tickets), ticketCode)
        case None => r == Failure("Ticket not found")
        case Some(i) =>
          var t := old(tickets)[i];
          if t.status != StatusNew then r == Failure("Only NEW tickets can be assigned")
          else (match CategoryById(catalog, t.categoryId)
            case None => r == Failure("Category not found")
            case Some(cat) => (match DepartmentById(catalog, cat.departmentId)
              case None => r == Failure("Department not found")
              case Some(d) =>
                var rows := StaffWorkload(old(tickets), old(users), catalog, d.code);
                if |rows| == 0 then r == Failure(NoStaffMessage(d))
                else
                  var w := LeastLoaded(rows);
                  (match UserByCode(old(users), w.staffCode)
                    case None => r == Failure("Selected staff not found")
                    case Some(j) =>
                      var u := old(users)[j];
                      r == Success(AutoAssignMessage(w)) && assignedStaffCode == w.staffCode &&
                      tickets == old(tickets)[i := Assigned(t, u, adminId)] &&
                      notifications == old(notifications) +
                        Notified(old(notifications), notifyOk, u.id, StaffMessage(t.title), NotificationTicketAssigned, t.code, now))))
    {
      assignedStaffCode := "";
      var found := TicketByCode(tickets, ticketCode);
      if found.None? {
        r := Failure("Ticket not found");
        return;
      }
      var i := found.value;
      var t := tickets[i];
      if t.status != StatusNew {
        r := Failure("Only NEW tickets can be assigned");
        return;
      }
      var category := CategoryById(catalog, t.categoryId);
      if category.None? {
        r := Failure("Category not found");
        return;
      }
      var department := DepartmentById(catalog, category.value.departmentId);
      if department.None? {
        r := Failure("Department not found");
        return;
      }
      var rows := StaffWorkload(tickets, users, catalog, department.value.code);
      if |rows| == 0 {
        r := Failure(NoStaffMessage(department.value));
        return;
      }
      var selected := LeastLoaded(rows);
      var staff := UserByCode(users, selected.staffCode);
      if staff.None? {
        r := Failure("Selected staff not found");
        return;
      }
      var u := users[staff.value];
      Assign(i, u, adminId, now, notifyOk);
      r := Success(AutoAssignMessage(selected));
      assignedStaffCode := selected.staffCode;
    }

    /**
     * `AssignTicketManuallyAsync`: the named staff member must exist, be
     * ACTIVE and belong to the department of the ticket's category. The role
     * is not checked.
     */
    method AssignTicketManually(ticketCode: string, staffCode: string, adminId: int, now: int, notifyOk: bool)
      returns (r: Outcome)
      requires Valid()
      modifies this
      ensures Valid()
      ensures unchanged(this`users, this`codes)
      ensures r.Failure? ==> unchanged(this`tickets, this`notifications)
      ensures match TicketByCode(old(tickets), ticketCode)
        case None => r == Failure("Ticket not found")
        case Some(i) =>
          var t := old(tickets)[i];
          if t.status != StatusNew then r == Failure("Only NEW tickets can be assigned")
          else (match CategoryById(catalog, t.categoryId)
            case None => r == Failure("Category not found")
            case Some(cat) => (match DepartmentById(catalog, cat.departmentId)
              case None => r == Failure("Department not found")
              case Some(d) => (match UserByCode(old(users), staffCode)
                case None => r == Failure("Staff not found")
                case Some(j) =>
                  var u := old(users)[j];
                  if u.status != UserActive then r == Failure(InactiveStaffMessage(u))
                  else if u.departmentId.None? then r == Failure(NoDepartmentMessage(u))
                  else if u.departmentId.value != cat.departmentId then
                    r == Failure(WrongDepartmentMessage(u, StaffDepartmentName(catalog, u.departmentId.value), d))
                  else
                    r == Success(ManualAssignMessage(u, d)) &&
                    tickets == old(tickets)[i := Assigned(t, u, adminId)] &&
                    notifications == old(notifications) +
                      Notified(old(notifications), notifyOk, u.id, StaffMessage(t.title), NotificationTicketAssigned, t.code, now))))
    {
      var found := TicketByCode(tickets, ticketCode);
      if found.None? {
        return Failure("Ticket not found");
      }
      var i := found.value;
      var t := tickets[i];
      if t.status != StatusNew {
        return Failure("Only NEW tickets can be assigned");
      }
      var category := CategoryById(catalog, t.categoryId);
      if category.None? {
        return Failure("Category not found");
      }
      var department := DepartmentById(catalog, category.value.departmentId);
      if department.None? {
        return Failure("Department not found");
      }
      var staff := UserByCode(users, staffCode);
      if staff.None? {
        return Failure("Staff not found");
      }
      var u := users[staff.value];
      if u.status != UserActive {
        return Failure(InactiveStaffMessage(u));
      }
      if u.departmentId.None? {
        return Failure(NoDepartmentMessage(u));
      }
      if u.departmentId.value != category.value.departmentId {
        return Failure(WrongDepartmentMessage(u, StaffDepartmentName(catalog, u.departmentId.value), department.value));
      }
      Assign(i, u, adminId, now, notifyOk);
      r := Success(ManualAssignMessage(u, department.value));
    }

    /** `AdminCancelTicketAsync`: any ticket but a CANCELLED or CLOSED one, with a non-blank reason. */
    method AdminCancelTicket(ticketCode: string, adminId: int, reason: string, now: int, notifyOk: bool)
      returns (r: Outcome)
      requires Valid()
      modifies this
      ensures Valid()
      ensures unchanged(this`users, this`codes)
      ensures r.Failure? ==> unchanged(this`tickets, this`notifications)
      ensures match TicketByCode(old(tickets), ticketCode)
        case None => r == Failure("Ticket not found")
        case Some(i) =>
          var t := old(tickets)[i];
          if t.status == StatusCancelled then r == Failure("Ticket is already cancelled")
          else if t.status == StatusClosed then r == Failure("Ticket is already closed and cannot be cancelled")
          else if IsBlank(reason) then r == Failure("Cancellation reason is required")
          else
            r == Success("Ticket cancelled successfully by administrator") &&
            tickets == old(tickets)[i := AdminCancelled(t, adminId, reason, now)] &&
            AdminCancelEdge(t.status, tickets[i].status) &&
            notifications == old(notifications) +
              Notified(old(notifications), notifyOk, t.requesterId, AdminCancelStudentMessage(reason),
                       NotificationTicketUpdated, ticketCode, now)
    {
      var found := TicketByCode(tickets, ticketCode);
      if found.None? {
        return Failure("Ticket not found");
      }
      var i := found.value;
      var t := tickets[i];
      if t.status == StatusCancelled {
        return Failure("Ticket is already cancelled");
      }
      if t.status == StatusClosed {
        return Failure("Ticket is already closed and cannot be cancelled");
      }
      if IsBlank(reason) {
        return Failure("Cancellation reason is required");
      }
      assert t in tickets;
      AdminCancelledKeepsInvariant(t, adminId, reason, now);
      UpdateKeepsValid(tickets, i, AdminCancelled(t, adminId, reason, now));
      tickets := tickets[i := AdminCancelled(t, adminId, reason, now)];
      if notifyOk {
        CreateNotification(t.requesterId, AdminCancelStudentMessage(reason), NotificationTicketUpdated, ticketCode, now);
      }
      r := Success("Ticket cancelled successfully by administrator");
    }

    /** `EscalateTicketAsync`: records the admin when none is recorded; the status never changes. */
    method EscalateTicket(ticketCode: string, adminId: int) returns (r: Outcome)
      requires Valid()
      modifies this
      ensures Valid()
      ensures unchanged(this`users, this`codes, this`notifications)
      ensures r.Failure? ==> unchanged(this`tickets)
      ensures match TicketByCode(old(tickets), ticketCode)
        case None => r == Failure("Ticket not found")
        case Some(i) =>
          var t := old(tickets)[i];
          if t.status == StatusResolved || t.status == StatusClosed || t.status == StatusCancelled then
            r == Failure("Cannot escalate completed tickets")
          else
            r == Success(EscalatedMessage(ticketCode)) &&
            tickets == old(tickets)[i := Escalated(t, adminId)] && tickets[i].status == t.status
    {
      var found := TicketByCode(tickets, ticketCode);
      if found.None? {
        return Failure("Ticket not found");
      }
      var i := found.value;
      var t := tickets[i];
      if t.status == StatusResolved || t.status == StatusClosed || t.status == StatusCancelled {
        return Failure("Cannot escalate completed tickets");
      }
      assert t in tickets;
      EscalatedKeepsInvariant(t, adminId);
      UpdateKeepsValid(tickets, i, Escalated(t, adminId));
      tickets := tickets[i := Escalated(t, adminId)];
      r := Success(EscalatedMessage(ticketCode));
    }

    // ----- staff ticket service -----

    /**
     * `UpdateTicketStatusAsync`: the assignee moves its ticket along the
     * transition table; resolving needs non-blank notes, which are appended
     * to the ticket's note.
     */
    method UpdateTicketStatus(ticketCode: string, status: string, resolutionNotes: Option<string>, staffId: int,
                              now: int, notifyOk: bool) returns (r: Outcome)
      requires Valid()
      modifies this
      ensures Valid()
      ensures unchanged(this`users, this`codes)
      ensures r.Failure? ==> unchanged(this`tickets, this`notifications)
      ensures match TicketByCode(old(tickets), ticketCode)
        case None => r == Failure("Ticket not found")
        case Some(i) =>
          var t := old(tickets)[i];
          var newStatus := ToUpper(status);
          if t.assignedTo != Some(staffId) then r == Failure("You can only update tickets assigned to you")
          else if t.status == newStatus then r == Failure(AlreadyInStatusMessage(newStatus))
          else if !IsValidStatusTransition(t.status, newStatus) then
            r == Failure(GetStatusTransitionError(t.status, newStatus))
          else if t.status == StatusInProgress && IsBlankOrNull(resolutionNotes) then
            r == Failure(ResolutionRequiredMessage)
          else
            r == Success(StatusUpdatedMessage(newStatus)) &&
            StaffEdge(t.status, newStatus) &&
            tickets == old(tickets)[i := if t.status == StatusInProgress
                                         then Resolved(t, resolutionNotes.value, newStatus, now)
                                         else Started(t, newStatus)] &&
            notifications == old(notifications) +
              Notified(old(notifications), notifyOk, t.requesterId, StaffUpdateStudentMessage(newStatus, resolutionNotes),
                       NotificationTicketUpdated, ticketCode, now)
    {
      var found := TicketByCode(tickets, ticketCode);
      if found.None? {
        return Failure("Ticket not found");
      }
      var i := found.value;
      var t := tickets[i];
      if t.assignedTo != Some(staffId) {
        return Failure("You can only update tickets assigned to you");
      }
      var newStatus := ToUpper(status);
      if t.status == newStatus {
        return Failure(AlreadyInStatusMessage(newStatus));
      }
      if !IsValidStatusTransition(t.status, newStatus) {
        return Failure(GetStatusTransitionError(t.status, newStatus));
      }
      var updated: Ticket;
      if t.status == StatusInProgress && newStatus == StatusResolved {
        if IsBlankOrNull(resolutionNotes) {
          return Failure(ResolutionRequiredMessage);
        }
        updated := Resolved(t, resolutionNotes.value, newStatus, now);
      } else {
        updated := Started(t, newStatus);
      }
      assert t in tickets;
      StaffUpdateKeepsInvariant(t, if resolutionNotes.Some? then resolutionNotes.value else "", newStatus, now);
      UpdateKeepsValid(tickets, i, updated);
      tickets := tickets[i := updated];
      if notifyOk {
        CreateNotification(t.requesterId, StaffUpdateStudentMessage(newStatus, resolutionNotes),
                           NotificationTicketUpdated, ticketCode, now);
      }
      r := Success(StatusUpdatedMessage(newStatus));
    }

    // ----- student ticket service -----

    /**
     * `CreateTicketAsync`: the category and location must exist and no open
     * ticket from the last seven days may match; the new ticket is NEW with a
     * deadline of the category's SLA (24 hours by default), and the ACTIVE
     * admins are told when the notification succeeds.
     */
    method CreateTicket(title: string, description: string, imageUrl: string, categoryCode: string,
                        locationCode: string, requesterId: int, newCode: string, now: int, notifyOk: bool)
      returns (r: Outcome)
      requires Valid()
      modifies this
      ensures Valid()
      ensures unchanged(this`users, this`codes)
      ensures r.Failure? ==> unchanged(this`tickets, this`notifications)
      ensures match CategoryByCode(catalog, categoryCode)
        case None => r == Failure("Category not found")
        case Some(cat) => (match LocationByCode(catalog, locationCode)
          case None => r == Failure("Location not found")
          case Some(loc) =>
            var dup := CheckForDuplicates(old(tickets), requesterId, title, cat.id, loc.id, now);
            if dup.hasDuplicates then r == Failure(DuplicateMessage(dup.codes))
            else
              r == Success("Ticket created successfully") &&
              tickets == old(tickets) + [NewTicket(newCode, title, description, imageUrl, requesterId, cat, loc, now)] &&
              notifications == if notifyOk
                then WithNotifications(old(notifications), AdminRecipients(users, catalog), AdminMessage(title),
                                       NotificationTicketCreated, newCode, now)
                else old(notifications))
    {
      var category := CategoryByCode(catalog, categoryCode);
      if category.None? {
        return Failure("Category not found");
      }
      var location := LocationByCode(catalog, locationCode);
      if location.None? {
        return Failure("Location not found");
      }
      var dup := CheckForDuplicates(tickets, requesterId, title, category.value.id, location.value.id, now);
      if dup.hasDuplicates {
        return Failure(DuplicateMessage(dup.codes));
      }
      var t := NewTicket(newCode, title, description, imageUrl, requesterId, category.value, location.value, now);
      AppendKeepsValid(tickets, t);
      tickets := tickets + [t];
      if notifyOk {
        NotifyAdminsOfNewTicket(newCode, title, now);
      }
      r := Success("Ticket created successfully");
    }

    /** `UpdateTicketAsync`: the requester edits a NEW ticket; empty fields keep their value. */
    method UpdateTicket(ticketCode: string, title: string, description: string, imageUrl: string, userId: int)
      returns (r: Outcome)
      requires Valid()
      modifies this
      ensures Valid()
      ensures unchanged(this`users, this`codes, this`notifications)
      ensures r.Failure? ==> unchanged(this`tickets)
      ensures match TicketByCode(old(tickets), ticketCode)
        case None => r == Failure("Ticket not found")
        case Some(i) =>
          var t := old(tickets)[i];
          if t.requesterId != userId then r == Failure("You can only update your own tickets")
          else if t.status != StatusNew then r == Failure("Only NEW tickets can be updated")
          else
            r == Success("Ticket updated successfully") &&
            tickets == old(tickets)[i := Edited(t, title, description, imageUrl)]
    {
      var found := TicketByCode(tickets, ticketCode);
      if found.None? {
        return Failure("Ticket not found");
      }
      var i := found.value;
      var t := tickets[i];
      if t.requesterId != userId {
        return Failure("You can only update your own tickets");
      }
      if t.status != StatusNew {
        return Failure("Only NEW tickets can be updated");
      }
      assert t in tickets;
      EditedKeepsInvariant(t, title, description, imageUrl);
      UpdateKeepsValid(tickets, i, Edited(t, title, description, imageUrl));
      tickets := tickets[i := Edited(t, title, description, imageUrl)];
      r := Success("Ticket updated successfully");
    }

    /** `CancelTicketAsync`: the requester cancels a NEW ticket with a non-blank reason. */
    method CancelTicket(ticketCode: string, userId: int, reason: string, now: int) returns (r: Outcome)
      requires Valid()
      modifies this
      ensures Valid()
      ensures unchanged(this`users, this`codes, this`notifications)
      ensures r.Failure? ==> unchanged(this`tickets)
      ensures match TicketByCode(old(tickets), ticketCode)
        case None => r == Failure("Ticket not found")
        case Some(i) =>
          var t := old(tickets)[i];
          if t.requesterId != userId then r == Failure("You can only cancel your own tickets")
          else if t.status == StatusCancelled then r == Failure("Ticket is already cancelled")
          else if t.status == StatusClosed then r == Failure("Ticket is already closed and cannot be cancelled")
          else if t.status != StatusNew then r == Failure("Only NEW tickets can be cancelled by students.")
          else if IsBlank(reason) then r == Failure("Cancellation reason is required")
          else
            r == Success("Ticket cancelled successfully") &&
            tickets == old(tickets)[i := StudentCancelled(t, reason, now)]
    {
      var found := TicketByCode(tickets, ticketCode);
      if found.None? {
        return Failure("Ticket not found");
      }
      var i := found.value;
      var t := tickets[i];
      if t.requesterId != userId {
        return Failure("You can only cancel your own tickets");
      }
      if t.status == StatusCancelled {
        return Failure("Ticket is already cancelled");
      }
      if t.status == StatusClosed {
        return Failure("Ticket is already closed and cannot be cancelled");
      }
      if t.status != StatusNew {
        return Failure("Only NEW tickets can be cancelled by students.");
      }
      if IsBlank(reason) {
        return Failure("Cancellation reason is required");
      }
      assert t in tickets;
      StudentCancelledKeepsInvariant(t, reason, now);
      UpdateKeepsValid(tickets, i, StudentCancelled(t, reason, now));
      tickets := tickets[i := StudentCancelled(t, reason, now)];
      r := Success("Ticket cancelled successfully");
    }

    /** `ProvideFeedbackAsync`: the requester rates a RESOLVED, unrated ticket 1 to 5, which closes it. */
    method ProvideFeedback(ticketCode: string, stars: int, comment: Option<string>, requesterId: int, now: int)
      returns (r: Outcome)
      requires Valid()
      modifies this
      ensures Valid()
      ensures unchanged(this`users, this`codes, this`notifications)
      ensures r.Failure? ==> unchanged(this`tickets)
      ensures match TicketByCode(old(tickets), ticketCode)
        case None => r == Failure("Ticket not found")
        case Some(i) =>
          var t := old(tickets)[i];
          if t.requesterId != requesterId then r == Failure("You can only provide feedback on your own tickets")
          else if t.status != StatusResolved then r == Failure("Ticket must be in RESOLVED status to provide feedback")
          else if t.ratingStars.Some? then r == Failure("Feedback has already been provided")
          else if stars < 1 || stars > 5 then r == Failure("Rating stars must be between 1 and 5")
          else
            r == Success("Feedback submitted successfully") &&
            tickets == old(tickets)[i := Rated(t, stars, comment, now)]
    {
      var found := TicketByCode(tickets, ticketCode);
      if found.None? {
        return Failure("Ticket not found");
      }
      var i := found.value;
      var t := tickets[i];
      if t.requesterId != requesterId {
        return Failure("You can only provide feedback on your own tickets");
      }
      if t.status != StatusResolved {
        return Failure("Ticket must be in RESOLVED status to provide feedback");
      }
      if t.ratingStars.Some? {
        return Failure("Feedback has already been provided");
      }
      if stars < 1 || stars > 5 {
        return Failure("Rating stars must be between 1 and 5");
      }
      assert t in tickets;
      RatedKeepsInvariant(t, stars, comment, now);
      UpdateKeepsValid(tickets, i, Rated(t, stars, comment, now));
      tickets := tickets[i := Rated(t, stars, comment, now)];
      r := Success("Feedback submitted successfully");
    }

    // ----- the deadline job -----

    /** The job's loop over the rows of the overdue query, skipping rows whose status fails its guard. */
    method SweepRows(rows: seq<nat>, now: int, nowText: string) returns (updatedCount: nat)
      requires forall k :: 0 <= k < |rows| ==> rows[k] < |tickets|
      requires Distinct(rows)
      modifies this
      ensures tickets == SweptRows(old(tickets), rows, now, nowText)
      ensures updatedCount == SweptCount(old(tickets), rows)
      ensures unchanged(this`users, this`codes, this`notifications)
    {
      var ts := tickets;
      var guard := SweepGuard(ts);
      var updated := ts;
      updatedCount := 0;
      var i := 0;
      while i < |rows|
        invariant 0 <= i <= |rows|
        invariant updated == ApplyAt(ts, rows[..i], GuardedMark(now, nowText))
        invariant updatedCount == CountWhere(rows[..i], guard)
        modifies {}
      {
        var k := rows[i];
        SweepStep(ts, rows, i, now, nowText);
        SweepCountStep(ts, rows, i);
        var ticket := updated[k];
        if IsSweepable(ticket.status) {
          updated := updated[k := MarkedOverdue(ticket, now, nowText)];
          updatedCount := updatedCount + 1;
        }
        i := i + 1;
      }
      FullPrefix(rows, i);
      SweptRowsIsLoop(ts, rows, i, updated, now, nowText);
      tickets := updated;
    }

    /**
     * `ProcessOverdueTicketsAsync`: when the overdue query is empty nothing
     * is saved; otherwise every overdue ticket is marked and the count is the
     * number of tickets the query returned.
     */
    method ProcessOverdueTickets(now: int, nowText: string) returns (updatedCount: nat, saved: bool)
      requires Valid()
      modifies this
      ensures Valid()
      ensures tickets == Sweep(old(tickets), now, nowText)
      ensures updatedCount == |OverdueRows(old(tickets), now)|
      ensures saved <==> |OverdueRows(old(tickets), now)| > 0
      ensures unchanged(this`users, this`codes, this`notifications)
    {
      var rows := OverdueRows(tickets, now);
      if |rows| == 0 {
        NothingOverdueSweepsNothing(tickets, now, nowText);
        return 0, false;
      }
      SweepCountIsOverdueCount(tickets, now);
      SweepKeepsValid(tickets, now, nowText);
      updatedCount := SweepRows(rows, now, nowText);
      saved := true;
    }

    // ----- authentication service -----

    /** `InvalidateAllCodesAsync`: every live code of the email and type marked used. */
    method InvalidateAllCodes(email: string, kind: string)
      modifies this
      ensures codes == Invalidated(old(codes), email, kind)
      ensures unchanged(this`tickets, this`users, this`notifications)
    {
      var cs := codes;
      var rows := IndicesWhere(cs, LiveFor(email, kind));
      var updated := cs;
      var i := 0;
      while i < |rows|
        invariant 0 <= i <= |rows|
        invariant updated == ApplyAt(cs, rows[..i], MarkUsed())
        modifies {}
      {
        ApplyAtStep(cs, rows, i, MarkUsed());
        updated := updated[rows[i] := MarkUsed()(updated[rows[i]])];
        i := i + 1;
      }
      InvalidateIsLoop(cs, email, kind, rows, i, updated);
      codes := updated;
    }

    /**
     * `RegisterAsync`: a new email gets an INACTIVE student account and a
     * fifteen-minute email verification code.
     */
    method Register(email: string, fullName: string, phone: string, passwordHash: string, userCode: string,
                    draw: int, now: int) returns (r: Outcome)
      requires 100000 <= draw < 999999
      modifies this
      ensures unchanged(this`tickets, this`notifications)
      ensures EmailExists(old(users), email) ==>
        r == Failure("Email already exists") && users == old(users) && codes == old(codes)
      ensures !EmailExists(old(users), email) ==>
        r == Success(RegistrationMessage) &&
        codes == old(codes) + [NewCode(email, GenerateVerificationCode(draw), CodeEmailVerification, now)] &&
        users == old(users) + [NewStudent(old(users), email, fullName, phone, passwordHash, userCode, now)]
    {
      if EmailExists(users, email) {
        return Failure("Email already exists");
      }
      var code := GenerateVerificationCode(draw);
      codes := codes + [NewCode(email, code, CodeEmailVerification, now)];
      users := users + [NewStudent(users, email, fullName, phone, passwordHash, userCode, now)];
      r := Success(RegistrationMessage);
    }

    /** `VerifyEmailAsync`: a valid code activates the account and is used up. */
    method VerifyEmail(email: string, code: string, now: int) returns (r: Outcome)
      modifies this
      ensures unchanged(this`tickets, this`notifications)
      ensures r.Failure? ==> unchanged(this`users, this`codes)
      ensures match GetValidCode(old(codes), email, code, CodeEmailVerification, now)
        case None => r == Failure("Invalid or expired verification code")
        case Some(i) => (match UserByEmail(old(users), email)
          case None => r == Failure("User not found")
          case Some(j) =>
            r == Success("Email verified successfully. You can now login.") &&
            users == old(users)[j := old(users)[j].(status := UserActive)] &&
            codes == old(codes)[i := old(codes)[i].(isUsed := Some(true))])
    {
      var record := GetValidCode(codes, email, code, CodeEmailVerification, now);
      if record.None? {
        return Failure("Invalid or expired verification code");
      }
      var user := UserByEmail(users, email);
      if user.None? {
        return Failure("User not found");
      }
      var j := user.value;
      users := users[j := users[j].(status := UserActive)];
      var i := record.value;
      codes := codes[i := codes[i].(isUsed := Some(true))];
      r := Success("Email verified successfully. You can now login.");
    }

    /** `ResendVerificationAsync`: an INACTIVE account's live codes are invalidated and a new one issued. */
    method ResendVerification(email: string, draw: int, now: int) returns (r: Outcome)
      requires 100000 <= draw < 999999
      modifies this
      ensures unchanged(this`tickets, this`notifications, this`users)
      ensures r.Failure? ==> unchanged(this`codes)
      ensures match UserByEmail(old(users), email)
        case None => r == Failure("User not found")
        case Some(j) =>
          if old(users)[j].status == UserActive then r == Failure("Email is already verified")
          else
            r == Success("Verification code resent successfully. Please check your email.") &&
            codes == Invalidated(old(codes), email, CodeEmailVerification) +
                     [NewCode(email, GenerateVerificationCode(draw), CodeEmailVerification, now)]
    {
      var user := UserByEmail(users, email);
      if user.None? {
        return Failure("User not found");
      }
      if users[user.value].status == UserActive {
        return Failure("Email is already verified");
      }
      InvalidateAllCodes(email, CodeEmailVerification);
      codes := codes + [NewCode(email, GenerateVerificationCode(draw), CodeEmailVerification, now)];
      r := Success("Verification code resent successfully. Please check your email.");
    }

    /**
     * `ForgotPasswordAsync`: an unknown email gets the same success answer
     * and changes nothing; an ACTIVE account's reset codes are reissued.
     */
    method ForgotPassword(email: string, draw: int, now: int) returns (r: Outcome)
      requires 100000 <= draw < 999999
      modifies this
      ensures unchanged(this`tickets, this`notifications, this`users)
      ensures match UserByEmail(old(users), email)
        case None => r == Success(ResetCodeSentMessage) && codes == old(codes)
        case Some(j) =>
          if old(users)[j].status != UserActive then r == Failure(AccountNotActive) && codes == old(codes)
          else
            r == Success(ResetCodeSentMessage) &&
            codes == Invalidated(old(codes), email, CodePasswordReset) +
                     [NewCode(email, GenerateVerificationCode(draw), CodePasswordReset, now)]
    {
      var user := UserByEmail(users, email);
      if user.None? {
        return Success(ResetCodeSentMessage);
      }
      if users[user.value].status != UserActive {
        return Failure(AccountNotActive);
      }
      InvalidateAllCodes(email, CodePasswordReset);
      codes := codes + [NewCode(email, GenerateVerificationCode(draw), CodePasswordReset, now)];
      r := Success(ResetCodeSentMessage);
    }

    /** `ResetPasswordAsync`: a valid reset code replaces the password hash and is used up. */
    method ResetPassword(email: string, code: string, newPasswordHash: string, now: int) returns (r: Outcome)
      modifies this
      ensures unchanged(this`tickets, this`notifications)
      ensures r.Failure? ==> unchanged(this`users, this`codes)
      ensures match GetValidCode(old(codes), email, code, CodePasswordReset, now)
        case None => r == Failure("Invalid or expired reset code")
        case Some(i) => (match UserByEmail(old(users), email)
          case None => r == Failure("User not found")
          case Some(j) =>
            r == Success("Password reset successfully. You can now login with your new password.") &&
            users == old(users)[j := old(users)[j].(passwordHash := newPasswordHash)] &&
            codes == old(codes)[i := old(codes)[i].(isUsed := Some(true))])
    {
      var record := GetValidCode(codes, email, code, CodePasswordReset, now);
      if record.None? {
        return Failure("Invalid or expired reset code");
      }
      var user := UserByEmail(users, email);
      if user.None? {
        return Failure("User not found");
      }
      var j := user.value;
      users := users[j := users[j].(passwordHash := newPasswordHash)];
      var i := record.value;
      codes := codes[i := codes[i].(isUsed := Some(true))];
      r := Success("Password reset successfully. You can now login with your new password.");
    }
  }
}
