/**
 * Notification read-state: the per-user paged list, the unread count, the
 * id lookup, the one-row and the all-rows read marks, and the rows the
 * notification service appends for admins, staff and students.
 */
module Notifications {
  import opened Common
  import opened Collections
  import opened Pagination
  import opened Entities

  function ByOwner(userId: int): Notification -> bool {
    (n: Notification) => n.userId == userId
  }

  /** The optional `IsRead` filter: no value keeps every row. */
  function ByReadState(isRead: Option<bool>): Notification -> bool {
    (n: Notification) => isRead.None? || n.isRead == isRead.value
  }

  predicate IsUnreadOf(n: Notification, userId: int) {
    n.userId == userId && !n.isRead
  }

  function UnreadOf(userId: int): Notification -> bool {
    (n: Notification) => IsUnreadOf(n, userId)
  }

  function NotificationKey(n: Notification): int {
    -n.createdAt
  }

  datatype NotificationPage = NotificationPage(items: seq<Notification>, totalCount: nat)

  /** The user's rows, narrowed to one read state when asked, in table order. */
  function UserQuery(ns: seq<Notification>, userId: int, isRead: Option<bool>): (q: seq<Notification>)
    ensures q == Filter(ns, And(ByOwner(userId), ByReadState(isRead)))
    ensures |q| == CountWhere(ns, And(ByOwner(userId), ByReadState(isRead)))
    ensures forall n :: n in q ==> n in ns && n.userId == userId && (isRead.None? || n.isRead == isRead.value)
  {
    FilterTwice(ns, ByOwner(userId), ByReadState(isRead));
    CountIsFilterLength(ns, And(ByOwner(userId), ByReadState(isRead)));
    Filter(Filter(ns, ByOwner(userId)), ByReadState(isRead))
  }

  /** `OrderByDescending(CreatedAt)`, equal timestamps in table order. */
  function NewestFirstOrder(q: seq<Notification>): (s: seq<Notification>)
    ensures multiset(s) == multiset(q)
    ensures forall n :: n in s ==> n in q
    ensures SortedBy(s, NotificationKey)
  {
    var s := SortBy(q, NotificationKey);
    assert forall n :: n in s ==> n in q by {
      forall n | n in s ensures n in q {
        assert n in multiset(s);
      }
    }
    s
  }

  /** Notifications created at the same moment keep their query order. */
  lemma NewestFirstStable(q: seq<Notification>, k: int)
    ensures Filter(NewestFirstOrder(q), KeyIs(NotificationKey, k)) == Filter(q, KeyIs(NotificationKey, k))
  {
    SortByStable(q, NotificationKey, k);
  }

  /**
   * `GetNotificationsByUserIdWithPaginationAsync`: the user's rows, filtered
   * by read state when asked, counted before paging, then newest first,
   * skipped and taken. The page number and size are used as given.
   */
  function NotificationsPage(ns: seq<Notification>, userId: int, pageNumber: int, pageSize: int,
                             isRead: Option<bool>): (r: NotificationPage)
    ensures r.totalCount == CountWhere(ns, And(ByOwner(userId), ByReadState(isRead)))
    ensures forall n :: n in r.items ==> n in ns && n.userId == userId && (isRead.None? || n.isRead == isRead.value)
    ensures |r.items| <= if pageSize > 0 then pageSize else 0
    ensures forall i, j :: 0 <= i < j < |r.items| ==> r.items[i].createdAt >= r.items[j].createdAt
  {
    var q := UserQuery(ns, userId, isRead);
    var sorted := NewestFirstOrder(q);
    WindowOfSorted(sorted, NotificationKey, Offset(pageNumber, pageSize), pageSize);
    var items := Page(sorted, pageNumber, pageSize);
    assert forall i, j :: 0 <= i < j < |items| ==> NotificationKey(items[i]) <= NotificationKey(items[j]);
    NotificationPage(items, |q|)
  }

  /**
   * For a page number and size of at least one, the page is exactly the
   * window from `(pageNumber - 1) * pageSize` of the user's rows in
   * newest-first order, and empty past their end.
   */
  lemma NotificationsPageIsWindow(ns: seq<Notification>, userId: int, pageNumber: int, pageSize: int,
                                  isRead: Option<bool>)
    requires pageNumber >= 1 && pageSize >= 1
    ensures var s := NewestFirstOrder(Filter(ns, And(ByOwner(userId), ByReadState(isRead))));
      var lo := Offset(pageNumber, pageSize);
      lo >= 0 &&
      (lo >= |s| ==> NotificationsPage(ns, userId, pageNumber, pageSize, isRead).items == []) &&
      (lo < |s| ==> NotificationsPage(ns, userId, pageNumber, pageSize, isRead).items ==
                      s[lo..if lo + pageSize <= |s| then lo + pageSize else |s|])
  {
    var s := NewestFirstOrder(UserQuery(ns, userId, isRead));
    PageIsWindow(s, pageNumber, pageSize);
    assert NotificationsPage(ns, userId, pageNumber, pageSize, isRead).items == Page(s, pageNumber, pageSize);
  }

  /** `GetUnreadCountByUserIdAsync`. */
  function UnreadCount(ns: seq<Notification>, userId: int): nat {
    CountWhere(ns, UnreadOf(userId))
  }

  /** `GetNotificationByIdAsync`: the first row with that id. */
  function NotificationById(ns: seq<Notification>, id: int): (r: Option<nat>)
    ensures r.Some? ==> r.value < |ns| && ns[r.value].id == id
    ensures r.None? ==> forall k :: 0 <= k < |ns| ==> ns[k].id != id
  {
    FirstIndex(ns, (n: Notification) => n.id == id)
  }

  /** Marking row `i` read lowers its owner's unread count by one and leaves everyone else's alone. */
  lemma MarkOneLowersUnread(ns: seq<Notification>, i: nat, other: int)
    requires i < |ns| && !ns[i].isRead
    ensures UnreadCount(ns[i := ns[i].(isRead := true)], ns[i].userId) + 1 == UnreadCount(ns, ns[i].userId)
    ensures other != ns[i].userId ==> UnreadCount(ns[i := ns[i].(isRead := true)], other) == UnreadCount(ns, other)
  {
    CountAfterUpdate(ns, i, ns[i].(isRead := true), UnreadOf(ns[i].userId));
    CountAfterUpdate(ns, i, ns[i].(isRead := true), UnreadOf(other));
  }

  /** What `MarkAllAsReadAsync(userId)` leaves in the table: the user's unread rows read, nothing else changed. */
  function MarkedAllRead(ns: seq<Notification>, userId: int): (r: seq<Notification>)
    ensures |r| == |ns|
    ensures forall k :: 0 <= k < |ns| ==> r[k] == if IsUnreadOf(ns[k], userId) then ns[k].(isRead := true) else ns[k]
  {
    seq(|ns|, k requires 0 <= k < |ns| => if IsUnreadOf(ns[k], userId) then ns[k].(isRead := true) else ns[k])
  }

  /** What the repository's loop does to each row it loaded. */
  function MarkRead(): Notification -> Notification {
    (n: Notification) => n.(isRead := true)
  }

  /** The repository's loop, once it has marked each of the user's unread rows, has produced the marked-all-read table. */
  lemma MarkAllIsLoop(ns: seq<Notification>, userId: int, rows: seq<nat>, i: nat, after: seq<Notification>)
    requires rows == IndicesWhere(ns, UnreadOf(userId)) && i == |rows|
    requires after == ApplyAt(ns, rows[..i], MarkRead())
    ensures after == MarkedAllRead(ns, userId)
  {
    assert rows[..i] == rows;
    ApplyAtPointwise(ns, rows, MarkRead());
  }

  /** After marking all read the user has no unread notification. */
  lemma {:induction false} MarkAllLeavesNoUnread(ns: seq<Notification>, userId: int)
    ensures UnreadCount(MarkedAllRead(ns, userId), userId) == 0
  {
    var r := MarkedAllRead(ns, userId);
    CountZero(r, UnreadOf(userId));
  }

  /** Marking all read changes no other user's unread count. */
  lemma {:induction false} MarkAllKeepsOthers(ns: seq<Notification>, userId: int, other: int)
    requires other != userId
    ensures UnreadCount(MarkedAllRead(ns, userId), other) == UnreadCount(ns, other)
  {
    if ns != [] {
      MarkAllKeepsOthers(ns[1..], userId, other);
      assert MarkedAllRead(ns, userId)[1..] == MarkedAllRead(ns[1..], userId);
    }
  }

  /** Marking all read twice is marking all read once. */
  lemma MarkAllIdempotent(ns: seq<Notification>, userId: int)
    ensures MarkedAllRead(MarkedAllRead(ns, userId), userId) == MarkedAllRead(ns, userId)
  {
  }

  /** The row `CreateNotificationAsync` inserts: unread, stamped now, with the next identity value. */
  function NewNotification(ns: seq<Notification>, userId: int, message: string, kind: string,
                           ticketCode: string, now: int): (n: Notification)
    ensures n.userId == userId && n.message == message && n.kind == kind && n.ticketCode == ticketCode
    ensures !n.isRead && n.createdAt == now
    ensures forall m :: m in ns ==> m.id < n.id
  {
    Notification(NextNotificationId(ns), userId, message, kind, ticketCode, false, now)
  }

  /** A new notification adds one to its recipient's unread count. */
  lemma NewNotificationIsUnread(ns: seq<Notification>, userId: int, message: string, kind: string,
                                ticketCode: string, now: int)
    ensures UnreadCount(ns + [NewNotification(ns, userId, message, kind, ticketCode, now)], userId)
         == UnreadCount(ns, userId) + 1
  {
    var n := NewNotification(ns, userId, message, kind, ticketCode, now);
    CountAppend(ns, [n], UnreadOf(userId));
  }

  // ----- the rows the service writes -----

  function AdminMessage(ticketTitle: string): string {
    "New ticket created: " + ticketTitle
  }

  function StaffMessage(ticketTitle: string): string {
    "You have been assigned to ticket: " + ticketTitle
  }

  /** An ACTIVE user holding the given role. */
  function ActiveWithRole(roleId: int): User -> bool {
    (u: User) => u.roleId == roleId && u.status == UserActive
  }

  /**
   * The recipients of `NotifyAdminsOfNewTicketAsync`: the ACTIVE users
   * holding the role named "Admin", each once, in table order; nobody when
   * there is no such role.
   */
  function AdminRecipients(us: seq<User>, c: Catalog): (r: seq<User>)
    ensures RoleByName(c, RoleAdmin).None? ==> r == []
    ensures RoleByName(c, RoleAdmin).Some? ==>
      forall u :: u in r <==> u in us && u.roleId == RoleByName(c, RoleAdmin).value.id && u.status == UserActive
    ensures RoleByName(c, RoleAdmin).Some? ==>
      r == Filter(us, ActiveWithRole(RoleByName(c, RoleAdmin).value.id)) &&
      |r| == CountWhere(us, ActiveWithRole(RoleByName(c, RoleAdmin).value.id))
  {
    match RoleByName(c, RoleAdmin)
    case None => []
    case Some(role) =>
      CountIsFilterLength(us, ActiveWithRole(role.id));
      Filter(us, ActiveWithRole(role.id))
  }

  /**
   * The table after one `CreateNotificationAsync` per recipient, in order;
   * each call takes the next identity value of the table as it then is.
   */
  function WithNotifications(ns: seq<Notification>, recipients: seq<User>, message: string, kind: string,
                             ticketCode: string, now: int): (r: seq<Notification>)
    ensures |r| == |ns| + |recipients|
    ensures r[..|ns|] == ns
    ensures forall k :: 0 <= k < |recipients| ==>
      r[|ns| + k].userId == recipients[k].id && r[|ns| + k].message == message && r[|ns| + k].kind == kind &&
      r[|ns| + k].ticketCode == ticketCode && !r[|ns| + k].isRead && r[|ns| + k].createdAt == now
  {
    if recipients == [] then ns
    else
      var last := |recipients| - 1;
      var prev := WithNotifications(ns, recipients[..last], message, kind, ticketCode, now);
      assert forall k :: 0 <= k < last ==> recipients[..last][k] == recipients[k];
      prev + [NewNotification(prev, recipients[last].id, message, kind, ticketCode, now)]
  }
  /** Appending one more recipient's row extends the table by exactly that row. */
  lemma WithNotificationsStep(ns: seq<Notification>, recipients: seq<User>, i: nat, message: string, kind: string,
                              ticketCode: string, now: int)
    requires i < |recipients|
    ensures WithNotifications(ns, recipients[..i + 1], message, kind, ticketCode, now) ==
      WithNotifications(ns, recipients[..i], message, kind, ticketCode, now) +
      [NewNotification(WithNotifications(ns, recipients[..i], message, kind, ticketCode, now), recipients[i].id,
                       message, kind, ticketCode, now)]
  {
    assert recipients[..i + 1][..i] == recipients[..i];
  }

}
