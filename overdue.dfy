/**
 * The deadline sweep: every ticket the overdue query returns is set to
 * OVERDUE, closed now, and a system line is added to its note. The line's
 * status context is chosen after the status has already been overwritten, so
 * it is always the empty default.
 */
module OverdueSweep {
  import opened Common
  import opened Collections
  import opened Entities
  import opened TicketQueries
  import opened TicketWorkflow

  const SystemNotePrefix: string := "[CANCELLED BY SYSTEM]"

  /** The sentence naming the moment of the sweep; `nowText` is the round-trip (`O`) rendering of now. */
  function SweepReason(nowText: string): string {
    "Ticket exceeded SLA deadline at " + nowText + "."
  }

  /** The job's switch from a status to the context sentence it adds. */
  function StatusContext(status: string): (ctx: string)
    ensures status == StatusNew ==> ctx == "Ticket was never assigned to staff."
    ensures status == StatusAssigned ==> ctx == "Staff did not start working on the ticket."
    ensures status == StatusInProgress ==> ctx == "Staff did not complete the ticket in time."
    ensures !IsOpenStatus(status) ==> ctx == ""
  {
    if status == StatusNew then "Ticket was never assigned to staff."
    else if status == StatusAssigned then "Staff did not start working on the ticket."
    else if status == StatusInProgress then "Staff did not complete the ticket in time."
    else ""
  }

  /**
   * The line the sweep writes. The switch reads the status after it was set
   * to OVERDUE, so the context is the empty default and the line ends with
   * the separating space.
   */
  function SweepLine(nowText: string): (line: string)
    ensures line == SystemNotePrefix + " " + SweepReason(nowText) + " "
  {
    SystemNotePrefix + " " + SweepReason(nowText) + " " + StatusContext(StatusOverdue)
  }

  /**
   * The switch reads the status after the job has overwritten it: every
   * ticket the loop processes had a status with a context sentence, yet the
   * line it receives carries none.
   */
  lemma ContextReadAfterOverwrite(t: Ticket, now: int, nowText: string)
    requires IsSweepable(t.status)
    ensures StatusContext(t.status) != ""
    ensures StatusContext(MarkedOverdue(t, now, nowText).status) == ""
    ensures SweepLine(nowText) == SystemNotePrefix + " " + SweepReason(nowText) + " " +
      StatusContext(MarkedOverdue(t, now, nowText).status)
  {
  }

  /** The loop's own guard: NEW, ASSIGNED and IN_PROGRESS tickets are processed, others skipped. */
  predicate IsSweepable(status: string) {
    status == StatusNew || status == StatusAssigned || status == StatusInProgress
  }

  /** What the sweep does to one processed ticket. */
  function MarkedOverdue(t: Ticket, now: int, nowText: string): Ticket {
    t.(status := StatusOverdue, closedAt := Some(now), note := AppendLine(t.note, SweepLine(nowText)))
  }

  /** The table after the loop over `rows`: each listed row whose status passes the guard marked, every other row unchanged. */
  function SweptRows(ts: seq<Ticket>, rows: seq<nat>, now: int, nowText: string): (r: seq<Ticket>)
    ensures |r| == |ts|
    ensures forall k :: 0 <= k < |ts| ==>
      r[k] == if k in rows && IsSweepable(ts[k].status) then MarkedOverdue(ts[k], now, nowText) else ts[k]
  {
    seq(|ts|, k requires 0 <= k < |ts| =>
      if k in rows && IsSweepable(ts[k].status) then MarkedOverdue(ts[k], now, nowText) else ts[k])
  }

  /** One pass of the loop body: a ticket passing the guard is marked, any other is skipped. */
  function GuardedMark(now: int, nowText: string): Ticket -> Ticket {
    (t: Ticket) => if IsSweepable(t.status) then MarkedOverdue(t, now, nowText) else t
  }

  /** Running the loop body over all of the distinct rows, one at a time, yields `SweptRows`. */
  lemma SweptRowsIsLoop(ts: seq<Ticket>, rows: seq<nat>, i: nat, after: seq<Ticket>, now: int, nowText: string)
    requires Distinct(rows) && i == |rows|
    requires after == ApplyAt(ts, rows[..i], GuardedMark(now, nowText))
    ensures after == SweptRows(ts, rows, now, nowText)
  {
    assert rows[..i] == rows;
    ApplyAtPointwise(ts, rows, GuardedMark(now, nowText));
  }

  /**
   * One pass of the loop at position `i`: the row has not been visited yet,
   * and the table gains that row's guarded update.
   */
  lemma SweepStep(ts: seq<Ticket>, rows: seq<nat>, i: nat, now: int, nowText: string)
    requires Distinct(rows) && i < |rows| && rows[i] < |ts|
    ensures ApplyAt(ts, rows[..i], GuardedMark(now, nowText))[rows[i]] == ts[rows[i]]
    ensures ApplyAt(ts, rows[..i + 1], GuardedMark(now, nowText)) ==
      ApplyAt(ts, rows[..i], GuardedMark(now, nowText))[rows[i] := GuardedMark(now, nowText)(ts[rows[i]])]
  {
    assert rows[i] !in rows[..i];
    ApplyAtUntouched(ts, rows[..i], GuardedMark(now, nowText), rows[i]);
    ApplyAtStep(ts, rows, i, GuardedMark(now, nowText));
  }

  /** The loop's count grows by one exactly when the guard lets the row through. */
  lemma SweepCountStep(ts: seq<Ticket>, rows: seq<nat>, i: nat)
    requires i < |rows| && rows[i] < |ts|
    ensures CountWhere(rows[..i + 1], SweepGuard(ts)) ==
      CountWhere(rows[..i], SweepGuard(ts)) + if IsSweepable(ts[rows[i]].status) then 1 else 0
  {
    assert rows[..i + 1] == rows[..i] + [rows[i]];
    CountAppend(rows[..i], [rows[i]], SweepGuard(ts));
  }

  /** The number of listed rows the guard lets through. */
  function SweptCount(ts: seq<Ticket>, rows: seq<nat>): nat {
    CountWhere(rows, SweepGuard(ts))
  }

  /** The loop's guard, applied to a row position. */
  function SweepGuard(ts: seq<Ticket>): nat -> bool {
    (k: nat) => k < |ts| && IsSweepable(ts[k].status)
  }

  /** One run of the job at time `now`: the loop over the overdue query. */
  function Sweep(ts: seq<Ticket>, now: int, nowText: string): seq<Ticket> {
    SweptRows(ts, OverdueRows(ts, now), now, nowText)
  }

  /**
   * Exactly the overdue tickets (ASSIGNED or IN_PROGRESS, deadline passed)
   * are marked; every other ticket, NEW ones with a passed deadline
   * included, is left as it was.
   */
  lemma SweepMarksExactlyOverdue(ts: seq<Ticket>, now: int, nowText: string)
    ensures |Sweep(ts, now, nowText)| == |ts|
    ensures forall k :: 0 <= k < |ts| ==>
      Sweep(ts, now, nowText)[k] == if IsOverdue(ts[k], now) then MarkedOverdue(ts[k], now, nowText) else ts[k]
  {
    var rows := OverdueRows(ts, now);
    forall k | 0 <= k < |ts|
      ensures (k in rows && IsSweepable(ts[k].status)) == IsOverdue(ts[k], now)
    {
      if k in rows {
        var i :| 0 <= i < |rows| && rows[i] == k;
      }
    }
  }

  /** Every row the query returns passes the guard, so the job's count is the number of overdue tickets. */
  lemma SweepCountIsOverdueCount(ts: seq<Ticket>, now: int)
    ensures SweptCount(ts, OverdueRows(ts, now)) == |OverdueRows(ts, now)|
  {
    var rows := OverdueRows(ts, now);
    FilterAll(rows, SweepGuard(ts));
    CountIsFilterLength(rows, SweepGuard(ts));
  }

  /** The sweep keeps the ticket invariant: only tickets that have an assignee become OVERDUE. */
  lemma SweepKeepsInvariant(ts: seq<Ticket>, now: int, nowText: string)
    requires forall k :: 0 <= k < |ts| ==> TicketInvariant(ts[k])
    ensures forall k :: 0 <= k < |ts| ==> TicketInvariant(Sweep(ts, now, nowText)[k])
    ensures forall k :: 0 <= k < |ts| && Sweep(ts, now, nowText)[k] != ts[k] ==>
      SystemEdge(ts[k].status, Sweep(ts, now, nowText)[k].status)
  {
    SweepMarksExactlyOverdue(ts, now, nowText);
  }

  /** With nothing overdue the job changes nothing. */
  lemma NothingOverdueSweepsNothing(ts: seq<Ticket>, now: int, nowText: string)
    requires OverdueRows(ts, now) == []
    ensures Sweep(ts, now, nowText) == ts
  {
    assert forall k :: 0 <= k < |ts| ==> Sweep(ts, now, nowText)[k] == ts[k];
  }

  /** A NEW ticket swept by the loop's guard would break the invariant: OVERDUE without an assignee. */
  lemma SweepingNewWouldBreakInvariant(t: Ticket, now: int, nowText: string)
    requires t.status == StatusNew && t.assignedTo.None?
    ensures IsSweepable(t.status)
    ensures !TicketInvariant(MarkedOverdue(t, now, nowText))
  {
  }

  /** Right after a sweep no ticket is overdue at the same moment. */
  lemma SweepLeavesNothingOverdue(ts: seq<Ticket>, now: int, nowText: string)
    ensures forall k :: 0 <= k < |ts| ==> !IsOverdue(Sweep(ts, now, nowText)[k], now)
  {
    SweepMarksExactlyOverdue(ts, now, nowText);
  }

  /** The overdue query is empty exactly when no ticket is overdue. */
  lemma NoOverdueNoRows(ts: seq<Ticket>, now: int)
    ensures OverdueRows(ts, now) == [] <==> forall k :: 0 <= k < |ts| ==> !IsOverdue(ts[k], now)
  {
    var r := OverdueRows(ts, now);
    if r != [] {
      assert IsOverdue(ts[r[0]], now);
    }
  }

  /** A second run at the same moment finds nothing left to do. */
  lemma SweepIdempotent(ts: seq<Ticket>, now: int, nowText: string)
    ensures OverdueRows(Sweep(ts, now, nowText), now) == []
    ensures Sweep(Sweep(ts, now, nowText), now, nowText) == Sweep(ts, now, nowText)
  {
    var s := Sweep(ts, now, nowText);
    SweepLeavesNothingOverdue(ts, now, nowText);
    NoOverdueNoRows(s, now);
    NothingOverdueSweepsNothing(s, now, nowText);
  }
}
