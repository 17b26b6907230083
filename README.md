# SWP391 ticket workflow, modelled in Dafny

This project models the ticket workflow of the SWP391 campus help-desk
back end and proves properties of the model. Students file tickets about
facilities. Administrators assign them to the staff of the category's
department, either automatically (the least-loaded worker) or by hand.
They can also cancel or escalate any ticket that is not finished. Staff move
their own tickets from ASSIGNED to IN_PROGRESS to RESOLVED, and the student
closes a resolved ticket by rating it. A periodic job marks tickets whose SLA
deadline has passed as OVERDUE.

Alongside the workflow, the model covers:
- the ticket queries: workload, overdue list, duplicate detector, filters and paged lists;
- pagination;
- the notification table;
- the verification codes and account flows: register, verify, resend, forgot, reset and login.

Layout, one module per file:

- `common.dfy` (`Common`): `Option`, and the `Outcome` a service returns (`Success(message)` / `Failure(message)`). It also holds the .NET string operations the code relies on: whitespace tests, ASCII `ToLower`/`ToUpper`, `Trim`, substring containment, `string.Join` and decimal rendering.
- `collections.dfy` (`Collections`): the LINQ operators as sequence functions: `Where`, `Count`, `First`, the positions a query selects, a loop over those positions, stable `OrderBy`, `Skip`/`Take`, and the stable argmin.
- `entities.dfy` (`Entities`): the tables' records and the status, role and notification-kind constants. It also has the first-match lookups by code, id and email, and the ticket invariant.
- `pagination.dfy` (`Pagination`): the request setters' clamping and the paginated response.
- `ticket_queries.dfy` (`TicketQueries`): the `TicketRepository` queries.
- `ticket_validation.dfy` (`TicketValidation`): the staff transition table, its error message and the duplicate check.
- `ticket_workflow.dfy` (`TicketWorkflow`): the lifecycle edges of each role, and each successful operation's field-by-field update of its ticket, with the lemmas that each update keeps the invariant.
- `assignment.dfy` (`Assignment`): the least-loaded choice and the assignment messages.
- `notifications.dfy` (`Notifications`): the notification queries, the new rows, and marking read.
- `verification_codes.dfy` (`VerificationCodes`): code validity, invalidation, reissue and the six-digit code.
- `overdue.dfy` (`OverdueSweep`): the deadline job's effect on the table.
- `auth.dfy` (`Auth`): the login decision and the account a registration inserts.
- `store.dfy` (`Store`): the class `TicketStore`. It holds the ticket, user, notification and code tables as `seq` fields and the catalog as a constant. Each service entry point is a method with `modifies this`. Its `ensures` state the whole failure cascade, in the source's order and with its messages, and the new value of every table. A failure leaves every table unchanged. `Valid()`, the ticket invariant over the whole table, is kept by every method. The clock is a `now` parameter, random draws a `draw` parameter, and generated ticket and account codes are parameters. Whether a best-effort notification went through is a `notifyOk` flag.

Properties of note:
- Every successful operation moves its ticket along one lifecycle edge for its role and keeps the invariant. CLOSED and CANCELLED are terminal.
- Automatic assignment takes the first worker with the minimum active count, and that count is the department minimum. The assignment raises that worker's count by one and leaves every other worker's count unchanged.
- The duplicate check ignores the requester and never matches without a location. It reports a match iff its code list is non-empty.
- The deadline sweep marks exactly the overdue tickets and leaves NEW ones alone. Its count is the number of tickets the query returned. A second run at the same moment changes nothing.
- Marking all read leaves no unread notification, changes no other user's count and is idempotent.
- After a reissue, only the new code can be redeemed, and only for fifteen minutes.

## Model

| member | source | states |
|---|---|---|
| Entities.TicketByCode | SWP391.Repositories/Repositories/TicketRepository.cs:15-24 | the found row has the code; none only when no row has it |
| Entities.UserByEmail | SWP391.Repositories/Repositories/UserRepository.cs:15-21 | the found row has the email; none only when no row has it |
| Entities.CategoryByCode | SWP391.Repositories/Repositories/CategoryRepository.cs.cs:14-18 | the found category is in the catalog with the code; none only when no category has it |
| Entities.UserByCode | SWP391.Repositories/Repositories/UserRepository.cs:28-31 | the found user has the code; none only when no user has it |
| Entities.CategoryById | SWP391.Services/TicketServices/AdminTicketService.cs:49-51 | the found category is in the catalog with the id; none only when no category has it |
| Entities.DepartmentById | SWP391.Services/TicketServices/AdminTicketService.cs:53-55 | the found department is in the catalog with the id; none only when no department has it |
| Entities.LocationByCode | SWP391.Repositories/Repositories/LocationRepository.cs:20-24 | the found location is in the catalog with the code; none only when no location has it |
| Entities.RoleById | SWP391.Repositories/Repositories/TicketRepository.cs:141-143 | the found role is in the catalog with the id; none only when no role has it |
| Entities.RoleByName | SWP391.Services/NotificationServices/NotificationService.cs:90 | the found role is in the catalog with the name; none only when no role has it |
| TicketQueries.ActiveCount | SWP391.Repositories/Repositories/TicketRepository.cs:128-134 | the active count is a count over the ticket table, at most its size |
| TicketQueries.ActiveCountIsQueryLength | SWP391.Repositories/Repositories/TicketRepository.cs:128-134 | the count equals the number of tickets assigned to the staff member with status ASSIGNED or IN_PROGRESS, and the counted rows are exactly those |
| TicketQueries.ActiveCountZero | SWP391.Repositories/Repositories/TicketRepository.cs:128-134 | the count is zero iff no ticket is active for that staff member |
| TicketQueries.StaffWorkload | SWP391.Repositories/Repositories/TicketRepository.cs:137-157 | one workload row per department staff member |
| TicketQueries.StaffWorkloadSpec | SWP391.Repositories/Repositories/TicketRepository.cs:140-152 | every row belongs to an ACTIVE user with role Staff whose department has the given code, paired with that user's active count; every such user has a row |
| TicketQueries.OverdueRows | SWP391.Repositories/Repositories/TicketRepository.cs:202-216 | the query returns exactly the tickets with a deadline strictly before now and status ASSIGNED or IN_PROGRESS, each once, in ascending deadline order |
| TicketQueries.OverdueExcludesNew | SWP391.Repositories/Repositories/TicketRepository.cs:211-214 | a NEW ticket is never returned, whatever its deadline |
| TicketQueries.DuplicateTickets | SWP391.Repositories/Repositories/TicketRepository.cs:240-263 | a ticket is returned iff it has the same category and the same (non-null) location, was created at or after the cutoff, is NEW/ASSIGNED/IN_PROGRESS, and its lowered title contains the lowered trimmed candidate or the reverse |
| TicketQueries.DuplicatesIgnoreRequester | SWP391.Repositories/Repositories/TicketRepository.cs:255-261 | the result is the same for every requester id |
| TicketQueries.NoLocationNoDuplicates | SWP391.Repositories/Repositories/TicketRepository.cs:250-261 | a null location matches nothing |
| TicketQueries.SameTitleIsDuplicate | SWP391.Repositories/Repositories/TicketRepository.cs:247-261 | an open ticket in the window with the same category, location and (lowered) title is a match |
| TicketQueries.ApplyFilters | SWP391.Repositories/Repositories/TicketRepository.cs:174-193 | a ticket survives iff its lowered code contains the lowered filter code (unless blank) and its status equals the upper-cased filter status (unless blank); the priority is ignored |
| TicketQueries.ApplyFiltersIsOneWhere | SWP391.Repositories/Repositories/TicketRepository.cs:181-192 | the two optional filters in order are one filter on both conditions |
| TicketQueries.BlankFiltersKeepAll | SWP391.Repositories/Repositories/TicketRepository.cs:181-192 | blank code and status filters keep the whole query |
| TicketQueries.NewestFirstOrder | SWP391.Repositories/Repositories/TicketRepository.cs:48-53 | the ordering is a permutation with CreatedAt descending |
| TicketQueries.NewestFirstStable | SWP391.Repositories/Repositories/TicketRepository.cs:48-53 | tickets with equal creation times keep their query order |
| TicketQueries.PagedQuery | SWP391.Repositories/Repositories/TicketRepository.cs:48-56 | the total is counted before paging, the page holds at most pageSize rows of the query, newest first |
| TicketQueries.PagedQueryIsWindow | SWP391.Repositories/Repositories/TicketRepository.cs:48-56 | the page is exactly the slice from (pageNumber-1)*pageSize of the newest-first ordering, or empty past the end |
| TicketQueries.AllTicketsPage | SWP391.Repositories/Repositories/TicketRepository.cs:31-57 | every listed ticket passes the filters; at most pageSize, newest first |
| TicketQueries.RequesterTicketsPage | SWP391.Repositories/Repositories/TicketRepository.cs:62-89 | every listed ticket belongs to the requester and passes the filters |
| TicketQueries.StaffTicketsPage | SWP391.Repositories/Repositories/TicketRepository.cs:94-122 | every listed ticket is assigned to the staff member and passes the filters |
| TicketQueries.AllTotalCount | SWP391.Repositories/Repositories/TicketRepository.cs:44-48 | the admin list's total is the number of tickets passing the filters |
| TicketQueries.RequesterTotalCount | SWP391.Repositories/Repositories/TicketRepository.cs:73-80 | the requester list's total is the number of the requester's tickets passing the filters |
| TicketQueries.StaffTotalCount | SWP391.Repositories/Repositories/TicketRepository.cs:106-113 | the staff list's total is the number of the staff member's tickets passing the filters |
| TicketQueries.ScopedCount | SWP391.Repositories/Repositories/TicketRepository.cs:73-80 | filtering a scoped query counts the rows satisfying scope and filters together |
| TicketValidation.IsValidStatusTransition | SWP391.Services/TicketServices/TicketValidationService.cs:45-55 | valid exactly for ASSIGNED to IN_PROGRESS and IN_PROGRESS to RESOLVED |
| TicketValidation.StaffCannotLeaveOrCancel | SWP391.Services/TicketServices/TicketValidationService.cs:47-54 | nothing leaves NEW, RESOLVED, CLOSED, CANCELLED or OVERDUE, nothing enters CANCELLED, and a valid transition changes the status |
| TicketValidation.GetStatusTransitionError | SWP391.Services/TicketServices/TicketValidationService.cs:60-72 | empty iff the transition is valid; otherwise the cancel message when the target is CANCELLED, else the generic message naming both statuses |
| TicketValidation.CheckForDuplicates | SWP391.Services/TicketServices/TicketValidationService.cs:28-38 | the code list holds one code per ticket the duplicate query matched from seven days before now, in query order; a code is listed iff some matching ticket in that window has it; HasDuplicates iff the list is non-empty |
| TicketValidation.DuplicateWindowBoundary | SWP391.Services/TicketServices/TicketValidationService.cs:31 | an otherwise matching ticket matches iff it was created at or after now minus seven days |
| TicketValidation.SearchTitleIgnoresCase | SWP391.Repositories/Repositories/TicketRepository.cs:247 | the candidate title is compared independently of its case |
| TicketValidation.TitleMatchEitherWay | SWP391.Repositories/Repositories/TicketRepository.cs:261 | containment in either direction makes a match |
| TicketWorkflow.LifecycleShape | SWP391.Services/TicketServices/AdminTicketService.cs:191-205 | CLOSED and CANCELLED have no outgoing edge; OVERDUE leads only to CANCELLED; RESOLVED only to CLOSED or CANCELLED; every edge changes the status |
| TicketWorkflow.AppendLine | SWP391.Services/TicketServices/StaffTicketService.cs:86-88 | a blank note becomes the line; otherwise the line follows the note after a newline |
| TicketWorkflow.NewTicket | SWP391.Services/TicketServices/StudentTicketService.cs:72-86 | a created ticket carries the given code, title, description and image, the requester, category and location; it is NEW, created now, with no assignee, admin, note, phone, rating or resolve/close time, and its deadline is now plus the category's SLA hours, 24 when the category sets none; it satisfies the invariant |
| TicketWorkflow.AssignedKeepsInvariant | SWP391.Services/TicketServices/AdminTicketService.cs:78-81 | assigning a NEW ticket follows the admin edge NEW to ASSIGNED and keeps the invariant |
| TicketWorkflow.AdminCancelledKeepsInvariant | SWP391.Services/TicketServices/AdminTicketService.cs:191-205 | admin cancel of any ticket but CANCELLED or CLOSED follows the admin cancel edge and keeps the invariant |
| TicketWorkflow.EscalatedKeepsInvariant | SWP391.Services/TicketServices/AdminTicketService.cs:267-271 | escalation never changes the status, and changes nothing when an admin is already recorded |
| TicketWorkflow.StaffUpdateKeepsInvariant | SWP391.Services/TicketServices/StaffTicketService.cs:75-105 | start and resolve keep the invariant |
| TicketWorkflow.StudentCancelledKeepsInvariant | SWP391.Services/TicketServices/StudentTicketService.cs:169-171 | student cancel of a NEW ticket follows the student edge and keeps the invariant |
| TicketWorkflow.RatedKeepsInvariant | SWP391.Services/TicketServices/StudentTicketService.cs:204-207 | rating a RESOLVED ticket with 1 to 5 stars closes it along the student edge and keeps the invariant |
| TicketWorkflow.RatedTicketRefusesFeedback | SWP391.Services/TicketServices/StudentTicketService.cs:195-207 | a rated ticket is CLOSED and rated, so a second feedback call fails the RESOLVED check |
| TicketWorkflow.EditedKeepsInvariant | SWP391.Services/TicketServices/StudentTicketService.cs:127-134 | a student edit keeps the status and the invariant |
| TicketWorkflow.UpdatesKeepIdentity | SWP391.Services/TicketServices/AdminTicketService.cs:78-81 | no workflow update (assign, admin cancel, escalate, start, resolve, edit, student cancel, rate) changes a ticket's code, requester, category, location, creation time or deadline |
| Assignment.WorkloadView | SWP391.Services/TicketServices/AdminTicketService.cs:244-255 | the workload list is a permutation of the department's rows, in ascending active count |
| Assignment.WorkloadViewStable | SWP391.Services/TicketServices/AdminTicketService.cs:254 | rows with equal active counts keep their table order |
| Assignment.LeastLoaded | SWP391.Services/TicketServices/AdminTicketService.cs:72 | the chosen row has the minimum count, and it is the first row with that count (every earlier row has a strictly larger count) |
| Assignment.LeastLoadedIsDepartmentMinimum | SWP391.Services/TicketServices/AdminTicketService.cs:58-72 | the chosen row belongs to a department staff member whose active count is at most every other department staff member's |
| Assignment.NoStaffNoWorkload | SWP391.Services/TicketServices/AdminTicketService.cs:61-69 | the workload list is empty iff the department has no ACTIVE Staff user |
| Assignment.AssignmentAddsOneToAssignee | SWP391.Services/TicketServices/AdminTicketService.cs:78-81 | assigning a NEW ticket raises the assignee's active count by one and leaves every other staff member's count unchanged |
| Assignment.AutoAssignMessage | SWP391.Services/TicketServices/AdminTicketService.cs:101-103 | the message names the staff member and the count |
| Pagination.DefaultRequest | SWP391.Contracts/Common/PaginationDto.cs:8-9 | a new request is page 1 of 10 |
| Pagination.ClampPageNumber | SWP391.Contracts/Common/PaginationDto.cs:17 | values below 1 become 1, others are kept |
| Pagination.ClampPageSize | SWP391.Contracts/Common/PaginationDto.cs:26 | values below 1 become 10, above 100 become 100, others are kept |
| Pagination.SettersKeepLimits | SWP391.Contracts/Common/PaginationDto.cs:14-27 | after either setter PageNumber >= 1 and 1 <= PageSize <= 100, and the other field is kept |
| Pagination.SetPageNumber | SWP391.Contracts/Common/PaginationDto.cs:14-18 | the page number becomes at least 1, and the value itself when it is; the other fields are kept |
| Pagination.SetPageSize | SWP391.Contracts/Common/PaginationDto.cs:23-27 | the page size lands in 1..100, and is the value itself when that is in range; the other fields are kept |
| Pagination.MakePaginatedResponse | SWP391.Contracts/Common/PaginationDto.cs:57-66 | the response keeps the items, count, page number and page size it was given; its derived fields are stated by TotalPagesSpec |
| Pagination.CeilDiv | SWP391.Contracts/Common/PaginationDto.cs:62 | the quotient rounded up |
| Pagination.TotalPagesSpec | SWP391.Contracts/Common/PaginationDto.cs:57-66 | TotalPages is the least number of pages covering the count; HasPrevious iff page > 1; HasNext iff page < TotalPages |
| Pagination.EmptyHasNoPages | SWP391.Contracts/Common/PaginationDto.cs:62-64 | a zero count has no pages and no next page |
| Pagination.PageIsWindow | SWP391.Repositories/Repositories/TicketRepository.cs:54-56 | Skip then Take is the slice from (page-1)*size of length at most size |
| Pagination.Page | SWP391.Repositories/Repositories/TicketRepository.cs:54-56 | at most pageSize elements, all from the sequence (none for a non-positive size); the exact window is PageIsWindow |
| Pagination.HasNextIffNextPageNonEmpty | SWP391.Contracts/Common/PaginationDto.cs:62-64 | HasNext holds iff the next page has rows |
| Notifications.NotificationsPage | SWP391.Repositories/Repositories/NotificationRepository.cs:23-47 | the total counts the user's rows matching the read filter, before paging; the page holds at most pageSize of those rows, newest first |
| Notifications.NotificationsPageIsWindow | SWP391.Repositories/Repositories/NotificationRepository.cs:29-44 | for page number and size of at least one, the page is exactly the slice from (pageNumber-1)*pageSize of the user's filtered rows in newest-first order, or empty past their end |
| Notifications.UserQuery | SWP391.Repositories/Repositories/NotificationRepository.cs:29-36 | the user's rows, narrowed to the read state when one is given, are one Where on both conditions, in table order |
| Notifications.NewestFirstOrder | SWP391.Repositories/Repositories/NotificationRepository.cs:41 | a permutation of the query, newest first |
| Notifications.NewestFirstStable | SWP391.Repositories/Repositories/NotificationRepository.cs:41 | notifications with equal creation times keep their query order |
| Notifications.UnreadCount | SWP391.Repositories/Repositories/NotificationRepository.cs:49-54 | the number of the user's unread rows |
| Notifications.NotificationById | SWP391.Repositories/Repositories/NotificationRepository.cs:56-60 | the found row has the id; none when no row has it |
| Notifications.MarkOneLowersUnread | SWP391.Repositories/Repositories/NotificationRepository.cs:62-70 | marking one unread row lowers its owner's unread count by one and no one else's |
| Notifications.MarkedAllRead | SWP391.Repositories/Repositories/NotificationRepository.cs:72-87 | every unread row of the user is read, every other row unchanged |
| Notifications.MarkAllIsLoop | SWP391.Repositories/Repositories/NotificationRepository.cs:74-86 | the loop over the user's unread rows yields that table |
| Notifications.MarkAllLeavesNoUnread | SWP391.Repositories/Repositories/NotificationRepository.cs:74-81 | afterwards the user's unread count is zero |
| Notifications.MarkAllKeepsOthers | SWP391.Repositories/Repositories/NotificationRepository.cs:74-86 | other users' unread counts are unchanged |
| Notifications.MarkAllIdempotent | SWP391.Repositories/Repositories/NotificationRepository.cs:74-81 | a second call changes nothing |
| Notifications.NewNotification | SWP391.Services/NotificationServices/NotificationService.cs:71-85 | one unread row with the given user, message, type and ticket code, stamped now, with a fresh id |
| Notifications.NewNotificationIsUnread | SWP391.Services/NotificationServices/NotificationService.cs:71-85 | inserting it raises its user's unread count by one |
| Notifications.AdminRecipients | SWP391.Services/NotificationServices/NotificationService.cs:87-97 | no admin role gives nobody; otherwise exactly the ACTIVE users with the admin role id, each as often as in the table (once per row) and in table order, so the list length is their count |
| Notifications.WithNotifications | SWP391.Services/NotificationServices/NotificationService.cs:99-103 | one row per recipient appended, in order, each with its recipient, the message, the type and the ticket code |
| VerificationCodes.GetValidCode | SWP391.Repositories/Repositories/VerificationCodeRepository.cs:14-23 | the found row has the email, code and type, is not used and expires strictly after now; none when no row qualifies |
| VerificationCodes.Invalidated | SWP391.Repositories/Repositories/VerificationCodeRepository.cs:25-37 | every unused row of the email and type is marked used, every other row unchanged |
| VerificationCodes.InvalidateIsLoop | SWP391.Repositories/Repositories/VerificationCodeRepository.cs:27-34 | the loop over the selected rows yields that table |
| VerificationCodes.InvalidateLeavesNoValidCode | SWP391.Repositories/Repositories/VerificationCodeRepository.cs:14-34 | afterwards no code of that email and type is valid |
| VerificationCodes.InvalidateKeepsOtherCodes | SWP391.Repositories/Repositories/VerificationCodeRepository.cs:28 | lookups for any other email or type give the same answer |
| VerificationCodes.NewCode | SWP391.Services/Authentication/AuthenticationService.cs:43-51 | an unused code of the given type, expiring fifteen minutes after now |
| VerificationCodes.FreshCodeWindow | SWP391.Repositories/Repositories/VerificationCodeRepository.cs:18-22 | a fresh code is valid from its issue until fifteen minutes later and never after |
| VerificationCodes.ReissueLeavesOnlyNewCode | SWP391.Services/Authentication/AuthenticationService.cs:119-132 | after invalidate-then-insert, a lookup succeeds iff it presents the new code within fifteen minutes, and it finds the new row |
| VerificationCodes.RedeemedCodeCountsOneLess | SWP391.Services/Authentication/AuthenticationService.cs:204-208 | using a code lowers the number of rows accepting it by one |
| VerificationCodes.RedeemedOnlyCodeIsGone | SWP391.Services/Authentication/AuthenticationService.cs:204-208 | a code that was the only accepting row cannot be redeemed again |
| VerificationCodes.GenerateVerificationCode | SWP391.Services/Authentication/AuthenticationService.cs:252-255 | a draw in [100000, 999999) renders as six decimal digits without a leading zero |
| OverdueSweep.ContextReadAfterOverwrite | SWP391.Services/TicketServices/OverdueTicketJob.cs:41-53 | every ticket the loop processes had a status with a context sentence, but the switch reads the status after it became OVERDUE, so the written line carries the empty context |
| OverdueSweep.SweepLine | SWP391.Services/TicketServices/OverdueTicketJob.cs:30-55 | the status is read after it became OVERDUE, so the line is the prefix, the reason and a trailing space, with no context |
| OverdueSweep.SweptRows | SWP391.Services/TicketServices/OverdueTicketJob.cs:35-63 | each listed row whose status passes the guard is marked OVERDUE, closed now, with the line appended; every other row unchanged |
| OverdueSweep.SweptRowsIsLoop | SWP391.Services/TicketServices/OverdueTicketJob.cs:35-63 | the loop body over distinct rows, one at a time, yields that table |
| OverdueSweep.SweepMarksExactlyOverdue | SWP391.Services/TicketServices/OverdueTicketJob.cs:22-63 | exactly the overdue tickets are marked; every other ticket is unchanged |
| OverdueSweep.SweepCountIsOverdueCount | SWP391.Services/TicketServices/OverdueTicketJob.cs:57-58 | the count equals the number of tickets the query returned |
| OverdueSweep.SweepKeepsInvariant | SWP391.Services/TicketServices/OverdueTicketJob.cs:38-42 | the sweep keeps the invariant and every changed ticket follows the system edge to OVERDUE |
| OverdueSweep.NothingOverdueSweepsNothing | SWP391.Services/TicketServices/OverdueTicketJob.cs:24-28 | with nothing overdue the table is unchanged |
| OverdueSweep.SweepingNewWouldBreakInvariant | SWP391.Services/TicketServices/OverdueTicketJob.cs:38-39 | the loop's guard accepts NEW, and marking an unassigned NEW ticket would break the invariant |
| OverdueSweep.SweepLeavesNothingOverdue | SWP391.Services/TicketServices/OverdueTicketJob.cs:38-42 | right after a sweep no ticket is overdue at the same moment |
| OverdueSweep.NoOverdueNoRows | SWP391.Repositories/Repositories/TicketRepository.cs:202-216 | the overdue query is empty iff no ticket is overdue |
| OverdueSweep.SweepIdempotent | SWP391.Services/TicketServices/OverdueTicketJob.cs:22 | after a sweep nothing is overdue at the same moment, and a second sweep changes nothing |
| Auth.Login | SWP391.Services/Authentication/AuthenticationService.cs:215-248 | success iff the email is known, the account is ACTIVE and the password matches; a non-ACTIVE account gets the not-active message before any password check; any other failure is the credentials message |
| Auth.LoginHidesUnknownEmail | SWP391.Services/Authentication/AuthenticationService.cs:218-234 | an unknown email and a wrong password give the same answer |
| Auth.UserCodeFromTicks | SWP391.Services/Authentication/AuthenticationService.cs:257-260 | "FPT" followed by the tick digits from the ninth on |
| Auth.NewStudent | SWP391.Services/Authentication/AuthenticationService.cs:54-63 | the new account is INACTIVE with role 3, the given hash and code, and an id above every existing one |
| Auth.EmailExistsIffFound | SWP391.Repositories/Repositories/UserRepository.cs:15-26 | the existence test agrees with the lookup by email |
| Store.SweepKeepsValid | SWP391.Services/TicketServices/OverdueTicketJob.cs:35-63 | the deadline job keeps the ticket invariant over the whole table |
| Store.TicketStore.constructor | SWP391.Repositories/UnitOfWork.cs:15-18 | the store holds the given tables, which satisfy the ticket invariant |
| Store.TicketStore.CreateNotification | SWP391.Services/NotificationServices/NotificationService.cs:71-85 | exactly one row appended; no other table changes |
| Store.TicketStore.NotifyAdminsOfNewTicket | SWP391.Services/NotificationServices/NotificationService.cs:87-104 | the loop appends one TICKET_CREATED row per ACTIVE admin, in order |
| Store.TicketStore.MarkAsRead | SWP391.Services/NotificationServices/NotificationService.cs:44-61 | fails, in order, on a missing row, another user's row, and a read row, changing nothing; otherwise only that row becomes read |
| Store.TicketStore.MarkAllAsRead | SWP391.Services/NotificationServices/NotificationService.cs:63-69 | always succeeds; the table becomes the marked-all-read table |
| Store.TicketStore.Assign | SWP391.Services/TicketServices/AdminTicketService.cs:78-95 | the shared tail of both assignment flows: only the chosen ticket changes, by the assignment update, the invariant is kept, and a TICKET_ASSIGNED row for the assignee is added when the notification succeeds |
| Store.TicketStore.AssignTicketAutomatically | SWP391.Services/TicketServices/AdminTicketService.cs:37-104 | the cascade unknown ticket, not NEW, unknown category, unknown department, no staff, unknown selected staff, each changing nothing; otherwise the least-loaded worker is assigned, the staff code returned, and a TICKET_ASSIGNED row is added when the notification succeeds |
| Store.TicketStore.AssignTicketManually | SWP391.Services/TicketServices/AdminTicketService.cs:109-178 | the cascade unknown ticket, not NEW, unknown category or department, unknown staff, inactive staff, no department, other department (naming the staff member's department, or Unknown Department), each changing nothing; otherwise the named staff member is assigned |
| Store.TicketStore.AdminCancelTicket | SWP391.Services/TicketServices/AdminTicketService.cs:183-227 | fails on unknown, CANCELLED, CLOSED or blank reason; otherwise the admin cancel edge is taken and the student is told when the notification succeeds |
| Store.TicketStore.EscalateTicket | SWP391.Services/TicketServices/AdminTicketService.cs:260-279 | fails on unknown or RESOLVED/CLOSED/CANCELLED tickets, OVERDUE accepted; otherwise only ManagedBy may change, the status never |
| Store.TicketStore.UpdateTicketStatus | SWP391.Services/TicketServices/StaffTicketService.cs:46-132 | the cascade unknown, not the assignee, already in the upper-cased status, invalid transition, blank resolution notes; otherwise a staff edge to the requested status, with the resolution appended when resolving |
| Store.TicketStore.CreateTicket | SWP391.Services/TicketServices/StudentTicketService.cs:43-107 | fails on an unknown category or location, or when the duplicate check finds matches (listing their codes), inserting nothing; otherwise appends the new NEW ticket and notifies the admins when the notification succeeds |
| Store.TicketStore.UpdateTicket | SWP391.Services/TicketServices/StudentTicketService.cs:112-141 | fails unless the requester owns a NEW ticket; otherwise only non-empty title, description and image overwrite |
| Store.TicketStore.CancelTicket | SWP391.Services/TicketServices/StudentTicketService.cs:146-179 | the cascade unknown, not the owner, CANCELLED, CLOSED, not NEW, blank reason; otherwise CANCELLED, closed now, with the student note |
| Store.TicketStore.ProvideFeedback | SWP391.Services/TicketServices/StudentTicketService.cs:184-215 | the cascade unknown, not the owner, not RESOLVED, already rated, stars outside 1 to 5; otherwise rated and CLOSED |
| Store.TicketStore.SweepRows | SWP391.Services/TicketServices/OverdueTicketJob.cs:35-63 | the loop leaves the swept table and counts the rows its guard let through |
| Store.TicketStore.ProcessOverdueTickets | SWP391.Services/TicketServices/OverdueTicketJob.cs:20-68 | the table becomes the sweep of the overdue query, the count is the query's length, and the job saves iff the query was non-empty |
| Store.TicketStore.InvalidateAllCodes | SWP391.Repositories/Repositories/VerificationCodeRepository.cs:25-37 | the loop leaves the invalidated code table |
| Store.TicketStore.Register | SWP391.Services/Authentication/AuthenticationService.cs:31-72 | fails on an existing email, creating nothing; otherwise appends a fifteen-minute email verification code and an INACTIVE student |
| Store.TicketStore.VerifyEmail | SWP391.Services/Authentication/AuthenticationService.cs:74-103 | fails without a valid code or a user; otherwise the user becomes ACTIVE and the code used |
| Store.TicketStore.ResendVerification | SWP391.Services/Authentication/AuthenticationService.cs:105-142 | fails for an unknown or ACTIVE user; otherwise the old codes are invalidated before the new one is added |
| Store.TicketStore.ForgotPassword | SWP391.Services/Authentication/AuthenticationService.cs:144-182 | an unknown email gets the success message and changes nothing; a non-ACTIVE account fails; otherwise the reset codes are reissued |
| Store.TicketStore.ResetPassword | SWP391.Services/Authentication/AuthenticationService.cs:184-213 | fails without a valid reset code or a user; otherwise the hash is replaced and the code used |

## Left out

- Time is an integer number of seconds passed as `now`. `DateTime.UtcNow` read twice in one method is one value, and the round-trip rendering in the overdue note is the `nowText` parameter.
- Ticket codes (`GenerateTicketCode`, clock ticks plus `Random`) and account codes (`GenerateUserCode`) are parameters of the create and register methods. `UserCodeFromTicks` models the account-code format on its own.
- `Random.Next` in `GenerateVerificationCode` is the `draw` parameter.
- BCrypt hashing is the `passwordHash` parameter, and verification is the `passwordMatches` function parameter of `Login`. The JWT issued on login is not modelled.
- Email sending (SMTP) is not modelled. An exception it raises after registration or a reissue has already been saved is not modelled either.
- Each service call is one atomic commit. Transactions, concurrent requests and database conflicts are not modelled.
- Notification failures inside the try/catch blocks are the `notifyOk` flag: when it is false no row is added. A failure part-way through the admin loop (some rows added, then an exception) is not modelled.
- Database query order is table order, and `OrderBy`/`OrderByDescending` are stable sorts. Lookups by code, id or email take the first match.
- A null string is the empty string, or `None` where the source tests for null. `IsNullOrWhiteSpace` uses the ASCII and common Unicode white-space characters.
- `ToLower`/`ToUpper` are ASCII-only; culture-specific case mapping is not modelled.
- Pagination.CeilDiv: `Math.Ceiling` over a double is exact integer ceiling division, so rounding of very large counts is not modelled.
- Notifications.NotificationsPage: the notification request has no clamping, so the page number and size reach `Skip`/`Take` as given. With a page size or page number below one, the database query fails, or the response then divides by a zero page size. The model instead follows in-memory LINQ: a non-positive size or a negative offset gives an empty page or skips nothing.
- String comparisons inside database queries (lookups by email and code, status and title tests) are ordinal in the model. The database may compare under a case- and trailing-space-insensitive collation, so the model can accept what the database would refuse, for example registering "A@x" when "a@x" exists.
- Integer widths are unbounded; 32-bit overflow of ids, counts and deadlines is not modelled.
- `GetOverdueTicketsByStaffIdAsync` and the `GetMy...` service wrappers only add a scope to the modelled queries and are not modelled separately. The same holds for `HasUserProvidedFeedbackAsync`, which the core does not call.
- Store.TicketStore.AssignTicketAutomatically: its contract returns the chosen row from `LeastLoaded`. Its relation to the department minimum is the lemma `Assignment.LeastLoadedIsDepartmentMinimum`, not part of the method's `ensures`.
- Store.TicketStore.ResetPassword: that a code cannot reset twice is proved for a code that was the only accepting row (`VerificationCodes.RedeemedOnlyCodeIsGone`); duplicate rows with the same code each remain redeemable once.
