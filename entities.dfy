/**
 * The records the core reads and writes: tickets, users, notifications and
 * verification codes, the read-only reference data (categories, departments,
 * locations, roles), the status and type strings, and the first-match
 * lookups (`FirstOrDefaultAsync`) the services use to load a record.
 *
 * Timestamps are integers counting seconds; a nullable column is an `Option`.
 */
module Entities {
  import opened Common
  import opened Collections

  // ----- ticket statuses -----

  const StatusNew: string := "NEW"
  const StatusAssigned: string := "ASSIGNED"
  const StatusInProgress: string := "IN_PROGRESS"
  const StatusResolved: string := "RESOLVED"
  const StatusClosed: string := "CLOSED"
  const StatusCancelled: string := "CANCELLED"
  const StatusOverdue: string := "OVERDUE"

  /** The seven statuses a ticket may carry. */
  predicate IsKnownStatus(s: string) {
    s == StatusNew || s == StatusAssigned || s == StatusInProgress || s == StatusResolved ||
    s == StatusClosed || s == StatusCancelled || s == StatusOverdue
  }

  /** The statuses that count towards a worker's load: ASSIGNED and IN_PROGRESS. */
  predicate IsWorkStatus(s: string) {
    s == StatusAssigned || s == StatusInProgress
  }

  /** The statuses the duplicate detector treats as still open: NEW, ASSIGNED and IN_PROGRESS. */
  predicate IsOpenStatus(s: string) {
    s == StatusNew || s == StatusAssigned || s == StatusInProgress
  }

  /** The statuses only reachable through an assignment. */
  predicate HasBeenAssigned(s: string) {
    s == StatusAssigned || s == StatusInProgress || s == StatusResolved || s == StatusClosed ||
    s == StatusOverdue
  }

  // ----- user statuses, role names, code and notification types -----

  const UserActive: string := "ACTIVE"
  const UserInactive: string := "INACTIVE"
  const RoleStaff: string := "Staff"
  const RoleAdmin: string := "Admin"
  /** The role id every self-registered account receives. */
  const StudentRoleId: int := 3

  const CodeEmailVerification: string := "EmailVerification"
  const CodePasswordReset: string := "PasswordReset"

  const NotificationTicketCreated: string := "TICKET_CREATED"
  const NotificationTicketAssigned: string := "TICKET_ASSIGNED"
  const NotificationTicketUpdated: string := "TICKET_UPDATED"

  // ----- time -----

  const SecondsPerMinute: int := 60
  const SecondsPerHour: int := 3600
  const SecondsPerDay: int := 86400

  // ----- records -----

  datatype Ticket = Ticket(
    code: string,
    title: string,
    description: string,
    imageUrl: string,
    requesterId: int,
    assignedTo: Option<int>,
    managedBy: Option<int>,
    categoryId: int,
    locationId: Option<int>,
    status: string,
    contactPhone: string,
    note: string,
    createdAt: int,
    resolveDeadline: Option<int>,
    resolvedAt: Option<int>,
    closedAt: Option<int>,
    ratingStars: Option<int>,
    ratingComment: Option<string>)

  datatype User = User(
    id: int,
    code: string,
    fullName: string,
    email: string,
    phone: string,
    passwordHash: string,
    status: string,
    roleId: int,
    departmentId: Option<int>,
    createdAt: int)

  datatype Category = Category(id: int, code: string, departmentId: int, slaResolveHours: Option<int>)
  datatype Department = Department(id: int, code: string, name: string)
  datatype Location = Location(id: int, code: string)
  datatype Role = Role(id: int, name: string)

  /** The reference data the ticket services consult but never change. */
  datatype Catalog = Catalog(
    categories: seq<Category>,
    departments: seq<Department>,
    locations: seq<Location>,
    roles: seq<Role>)

  datatype Notification = Notification(
    id: int,
    userId: int,
    message: string,
    kind: string,
    ticketCode: string,
    isRead: bool,
    createdAt: int)

  datatype VerificationCode = VerificationCode(
    email: string,
    code: string,
    kind: string,
    createdAt: int,
    expiresAt: int,
    isUsed: Option<bool>)

  // ----- lookups (FirstOrDefaultAsync) -----

  function TicketByCode(ts: seq<Ticket>, code: string): (r: Option<nat>)
    ensures r.Some? ==> r.value < |ts| && ts[r.value].code == code
    ensures r.None? ==> forall k :: 0 <= k < |ts| ==> ts[k].code != code
  {
    FirstIndex(ts, (t: Ticket) => t.code == code)
  }

  function UserByCode(us: seq<User>, code: string): (r: Option<nat>)
    ensures r.Some? ==> r.value < |us| && us[r.value].code == code
    ensures r.None? ==> forall k :: 0 <= k < |us| ==> us[k].code != code
  {
    FirstIndex(us, (u: User) => u.code == code)
  }

  function UserByEmail(us: seq<User>, email: string): (r: Option<nat>)
    ensures r.Some? ==> r.value < |us| && us[r.value].email == email
    ensures r.None? ==> forall k :: 0 <= k < |us| ==> us[k].email != email
  {
    FirstIndex(us, (u: User) => u.email == email)
  }

  function CategoryById(c: Catalog, id: int): (r: Option<Category>)
    ensures r.Some? ==> r.value in c.categories && r.value.id == id
    ensures r.None? ==> forall x :: x in c.categories ==> x.id != id
  {
    match FirstIndex(c.categories, (x: Category) => x.id == id)
    case Some(k) => Some(c.categories[k])
    case None => None
  }

  function CategoryByCode(c: Catalog, code: string): (r: Option<Category>)
    ensures r.Some? ==> r.value in c.categories && r.value.code == code
    ensures r.None? ==> forall x :: x in c.categories ==> x.code != code
  {
    match FirstIndex(c.categories, (x: Category) => x.code == code)
    case Some(k) => Some(c.categories[k])
    case None => None
  }

  function DepartmentById(c: Catalog, id: int): (r: Option<Department>)
    ensures r.Some? ==> r.value in c.departments && r.value.id == id
    ensures r.None? ==> forall x :: x in c.departments ==> x.id != id
  {
    match FirstIndex(c.departments, (x: Department) => x.id == id)
    case Some(k) => Some(c.departments[k])
    case None => None
  }

  function LocationByCode(c: Catalog, code: string): (r: Option<Location>)
    ensures r.Some? ==> r.value in c.locations && r.value.code == code
    ensures r.None? ==> forall x :: x in c.locations ==> x.code != code
  {
    match FirstIndex(c.locations, (x: Location) => x.code == code)
    case Some(k) => Some(c.locations[k])
    case None => None
  }

  function RoleById(c: Catalog, id: int): (r: Option<Role>)
    ensures r.Some? ==> r.value in c.roles && r.value.id == id
    ensures r.None? ==> forall x :: x in c.roles ==> x.id != id
  {
    match FirstIndex(c.roles, (x: Role) => x.id == id)
    case Some(k) => Some(c.roles[k])
    case None => None
  }

  function RoleByName(c: Catalog, name: string): (r: Option<Role>)
    ensures r.Some? ==> r.value in c.roles && r.value.name == name
    ensures r.None? ==> forall x :: x in c.roles ==> x.name != name
  {
    match FirstIndex(c.roles, (x: Role) => x.name == name)
    case Some(k) => Some(c.roles[k])
    case None => None
  }

  /** Identity columns: a new row gets one more than the largest id in its table. */
  function NextUserId(us: seq<User>): (id: int)
    ensures forall u :: u in us ==> u.id < id
  {
    if us == [] then 1
    else var rest := NextUserId(us[1..]);
      assert forall u :: u in us[1..] ==> u.id < rest;
      if us[0].id >= rest then us[0].id + 1 else rest
  }

  function NextNotificationId(ns: seq<Notification>): (id: int)
    ensures forall n :: n in ns ==> n.id < id
  {
    if ns == [] then 1
    else var rest := NextNotificationId(ns[1..]);
      assert forall n :: n in ns[1..] ==> n.id < rest;
      if ns[0].id >= rest then ns[0].id + 1 else rest
  }

  // ----- the ticket invariant the workflow keeps -----

  /**
   * What every ticket written by the workflow satisfies: one of the seven
   * statuses; a ticket that reached ASSIGNED, IN_PROGRESS, RESOLVED, CLOSED or
   * OVERDUE has an assignee; and a rating, once given, lies in 1..5 and
   * belongs to a CLOSED ticket.
   */
  predicate TicketInvariant(t: Ticket) {
    IsKnownStatus(t.status) &&
    (HasBeenAssigned(t.status) ==> t.assignedTo.Some?) &&
    (t.ratingStars.Some? ==> t.status == StatusClosed && 1 <= t.ratingStars.value <= 5)
  }
}
