/**
 * The ticket lifecycle: the edges each role may take, and the field-by-field
 * update each successful admin, staff and student operation applies to the
 * one ticket it loaded. The services guard these updates (see the store);
 * here they are values, with the lemmas that each one keeps the ticket
 * invariant and moves along a lifecycle edge.
 */
module TicketWorkflow {
  import opened Common
  import opened Entities

  // ----- the lifecycle graph -----

  /** Admin assignment, automatic or manual: NEW to ASSIGNED. */
  predicate AdminAssignEdge(from: string, to: string) {
    from == StatusNew && to == StatusAssigned
  }

  /** Admin cancellation: anything but CANCELLED or CLOSED, RESOLVED and OVERDUE included, to CANCELLED. */
  predicate AdminCancelEdge(from: string, to: string) {
    from != StatusCancelled && from != StatusClosed && to == StatusCancelled
  }

  /** Staff: ASSIGNED to IN_PROGRESS, IN_PROGRESS to RESOLVED. */
  predicate StaffEdge(from: string, to: string) {
    (from == StatusAssigned && to == StatusInProgress) || (from == StatusInProgress && to == StatusResolved)
  }

  /** Student: cancel a NEW ticket, or close a RESOLVED one by rating it. */
  predicate StudentEdge(from: string, to: string) {
    (from == StatusNew && to == StatusCancelled) || (from == StatusResolved && to == StatusClosed)
  }

  /** The deadline sweep: ASSIGNED or IN_PROGRESS to OVERDUE (the query never returns NEW). */
  predicate SystemEdge(from: string, to: string) {
    (from == StatusAssigned || from == StatusInProgress) && to == StatusOverdue
  }

  predicate LifecycleEdge(from: string, to: string) {
    AdminAssignEdge(from, to) || AdminCancelEdge(from, to) || StaffEdge(from, to) ||
    StudentEdge(from, to) || SystemEdge(from, to)
  }

  /**
   * CLOSED and CANCELLED are terminal; OVERDUE and RESOLVED can still be
   * cancelled by an admin; every edge changes the status.
   */
  lemma LifecycleShape(from: string, to: string)
    ensures from == StatusClosed || from == StatusCancelled ==> !LifecycleEdge(from, to)
    ensures from == StatusOverdue ==> (LifecycleEdge(from, to) <==> to == StatusCancelled)
    ensures from == StatusResolved ==> (LifecycleEdge(from, to) <==> to == StatusClosed || to == StatusCancelled)
    ensures LifecycleEdge(from, to) ==> from != to
  {
  }

  // ----- text written into the Note field -----

  function AdminCancelNote(reason: string): string {
    "[CANCELLED BY ADMIN] " + reason
  }

  function StudentCancelNote(reason: string): string {
    "[CANCELLED BY STUDENT] " + reason
  }

  function ResolutionLine(notes: string): string {
    "[RESOLVED BY STAFF] " + notes
  }

  /** Set the line when the note is blank, otherwise append it after a newline. */
  function AppendLine(note: string, line: string): (r: string)
    ensures IsBlank(note) ==> r == line
    ensures !IsBlank(note) ==> |r| == |note| + 1 + |line| && r[..|note|] == note && r[|note|..] == "\n" + line
  {
    if IsBlank(note) then line else note + "\n" + line
  }

  // ----- the updates -----

  /** A successful assignment (AssignedTo, ManagedBy, Status, ContactPhone); nothing else changes. */
  function Assigned(t: Ticket, staff: User, adminId: int): Ticket {
    t.(assignedTo := Some(staff.id), managedBy := Some(adminId), status := StatusAssigned,
       contactPhone := staff.phone)
  }

  /** Admin cancellation: CANCELLED, closed now, the note overwritten, the admin recorded only if none was. */
  function AdminCancelled(t: Ticket, adminId: int, reason: string, now: int): Ticket {
    t.(status := StatusCancelled, closedAt := Some(now), note := AdminCancelNote(reason),
       managedBy := if t.managedBy.None? then Some(adminId) else t.managedBy)
  }

  /** Escalation: the admin recorded only if none was; the status is never touched. */
  function Escalated(t: Ticket, adminId: int): Ticket {
    t.(managedBy := if t.managedBy.None? then Some(adminId) else t.managedBy)
  }

  /** Staff start: only the status changes. */
  function Started(t: Ticket, newStatus: string): Ticket {
    t.(status := newStatus)
  }

  /** Staff resolve: the resolution line appended to the note, resolved now, and the new status. */
  function Resolved(t: Ticket, notes: string, newStatus: string, now: int): Ticket {
    t.(note := AppendLine(t.note, ResolutionLine(notes)), resolvedAt := Some(now), status := newStatus)
  }

  /** A student's edit: only non-empty fields overwrite. */
  function Edited(t: Ticket, title: string, description: string, imageUrl: string): Ticket {
    t.(title := if title != "" then title else t.title,
       description := if description != "" then description else t.description,
       imageUrl := if imageUrl != "" then imageUrl else t.imageUrl)
  }

  /** Student cancellation: CANCELLED, closed now, the note overwritten. */
  function StudentCancelled(t: Ticket, reason: string, now: int): Ticket {
    t.(status := StatusCancelled, closedAt := Some(now), note := StudentCancelNote(reason))
  }

  /** Feedback: the rating and comment recorded, CLOSED, closed now. */
  function Rated(t: Ticket, stars: int, comment: Option<string>, now: int): Ticket {
    t.(ratingStars := Some(stars), ratingComment := comment, status := StatusClosed, closedAt := Some(now))
  }

  /** The SLA in hours of a category; 24 when the category sets none. */
  function SlaHours(c: Category): (h: int)
    ensures c.slaResolveHours.None? ==> h == 24
    ensures c.slaResolveHours.Some? ==> h == c.slaResolveHours.value
  {
    match c.slaResolveHours
    case Some(h) => h
    case None => 24
  }

  /** The ticket the create flow inserts. */
  function NewTicket(code: string, title: string, description: string, imageUrl: string, requesterId: int,
                     category: Category, location: Location, now: int): (t: Ticket)
    ensures t.code == code && t.title == title && t.description == description && t.imageUrl == imageUrl
    ensures t.status == StatusNew && t.requesterId == requesterId && t.assignedTo.None? && t.managedBy.None?
    ensures t.note == "" && t.contactPhone == "" && t.ratingStars.None? && t.ratingComment.None?
    ensures t.resolvedAt.None? && t.closedAt.None?
    ensures t.categoryId == category.id && t.locationId == Some(location.id)
    ensures t.createdAt == now
    ensures category.slaResolveHours.None? ==> t.resolveDeadline == Some(now + 24 * 3600)
    ensures category.slaResolveHours.Some? ==> t.resolveDeadline == Some(now + category.slaResolveHours.value * 3600)
    ensures TicketInvariant(t)
  {
    Ticket(code, title, description, imageUrl, requesterId, None, None, category.id, Some(location.id),
           StatusNew, "", "", now, Some(now + SlaHours(category) * SecondsPerHour), None, None, None, None)
  }

  // ----- each guarded update keeps the invariant and follows an edge -----

  lemma AssignedKeepsInvariant(t: Ticket, staff: User, adminId: int)
    requires TicketInvariant(t) && t.status == StatusNew
    ensures TicketInvariant(Assigned(t, staff, adminId))
    ensures AdminAssignEdge(t.status, Assigned(t, staff, adminId).status)
  {
  }

  lemma AdminCancelledKeepsInvariant(t: Ticket, adminId: int, reason: string, now: int)
    requires TicketInvariant(t) && t.status != StatusCancelled && t.status != StatusClosed
    ensures TicketInvariant(AdminCancelled(t, adminId, reason, now))
    ensures AdminCancelEdge(t.status, AdminCancelled(t, adminId, reason, now).status)
  {
  }

  lemma EscalatedKeepsInvariant(t: Ticket, adminId: int)
    requires TicketInvariant(t)
    ensures TicketInvariant(Escalated(t, adminId))
    ensures Escalated(t, adminId).status == t.status
    ensures t.managedBy.Some? ==> Escalated(t, adminId) == t
  {
  }

  lemma StaffUpdateKeepsInvariant(t: Ticket, notes: string, newStatus: string, now: int)
    requires TicketInvariant(t) && StaffEdge(t.status, newStatus)
    ensures t.status == StatusAssigned ==> TicketInvariant(Started(t, newStatus))
    ensures t.status == StatusInProgress ==> TicketInvariant(Resolved(t, notes, newStatus, now))
  {
  }

  lemma StudentCancelledKeepsInvariant(t: Ticket, reason: string, now: int)
    requires TicketInvariant(t) && t.status == StatusNew
    ensures TicketInvariant(StudentCancelled(t, reason, now))
    ensures StudentEdge(t.status, StudentCancelled(t, reason, now).status)
  {
  }

  lemma RatedKeepsInvariant(t: Ticket, stars: int, comment: Option<string>, now: int)
    requires TicketInvariant(t) && t.status == StatusResolved && 1 <= stars <= 5
    ensures TicketInvariant(Rated(t, stars, comment, now))
    ensures StudentEdge(t.status, Rated(t, stars, comment, now).status)
  {
  }

  /** A rated ticket is CLOSED and carries its stars, so the feedback gate (RESOLVED, unrated) refuses a second rating. */
  lemma RatedTicketRefusesFeedback(t: Ticket, stars: int, comment: Option<string>, now: int)
    ensures Rated(t, stars, comment, now).status == StatusClosed
    ensures Rated(t, stars, comment, now).status != StatusResolved
    ensures Rated(t, stars, comment, now).ratingStars == Some(stars)
  {
  }

  /** What identifies a ticket: its code, requester, category, location, creation time and deadline. */
  predicate SameIdentity(t: Ticket, u: Ticket) {
    u.code == t.code && u.requesterId == t.requesterId && u.categoryId == t.categoryId &&
    u.locationId == t.locationId && u.createdAt == t.createdAt && u.resolveDeadline == t.resolveDeadline
  }

  /** No workflow update rewrites what identifies a ticket. */
  lemma UpdatesKeepIdentity(t: Ticket, staff: User, adminId: int, reason: string, notes: string, newStatus: string,
                            title: string, description: string, imageUrl: string, stars: int,
                            comment: Option<string>, now: int)
    ensures SameIdentity(t, Assigned(t, staff, adminId))
    ensures SameIdentity(t, AdminCancelled(t, adminId, reason, now))
    ensures SameIdentity(t, Escalated(t, adminId))
    ensures SameIdentity(t, Started(t, newStatus))
    ensures SameIdentity(t, Resolved(t, notes, newStatus, now))
    ensures SameIdentity(t, Edited(t, title, description, imageUrl))
    ensures SameIdentity(t, StudentCancelled(t, reason, now))
    ensures SameIdentity(t, Rated(t, stars, comment, now))
  {
  }

  lemma EditedKeepsInvariant(t: Ticket, title: string, description: string, imageUrl: string)
    requires TicketInvariant(t)
    ensures TicketInvariant(Edited(t, title, description, imageUrl))
    ensures Edited(t, title, description, imageUrl).status == t.status
  {
  }
}
