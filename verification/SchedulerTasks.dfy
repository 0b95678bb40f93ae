/** The scheduler's task table (`src/scheduler/scheduler-task.repository.ts`) and the instants its rows
    run at. */
module SchedulerTasks {
  import opened Calendar

  const NOTIFICATIONS := 0
  const CLOSE_SAVING_ACCOUNT := 1

  const DAY_MS: nat := 86_400_000
  const BOGOTA_OFFSET_MS: nat := 18_000_000

  // ---------------------------------------------------------------------
  // Instants
  // ---------------------------------------------------------------------

  type DayMs = n: nat | n < 86_400_000

  /** A point in time as its UTC calendar date and the milliseconds since that midnight. */
  datatype Instant = Instant(date: ValidDate, ms: DayMs)

  function Millis(i: Instant): int {
    Ordinal(i.date) * DAY_MS + i.ms
  }

  /** The day number of `(run_date AT TIME ZONE 'America/Bogota')::date`. */
  function LocalDay(i: Instant): int {
    (Millis(i) - BOGOTA_OFFSET_MS) / DAY_MS
  }

  /** Local midnight of a calendar date. */
  function BogotaMidnight(d: ValidDate): Instant {
    Instant(d, BOGOTA_OFFSET_MS)
  }

  /** A local day begins at 05:00 UTC. */
  lemma LocalDayExactly(i: Instant)
    ensures LocalDay(i) == if i.ms >= 5 * 60 * 60 * 1000 then Ordinal(i.date) else Ordinal(i.date) - 1
  {}

  lemma MidnightFallsOnItsDay(d: ValidDate)
    ensures LocalDay(BogotaMidnight(d)) == Ordinal(d)
  {}

  // ---------------------------------------------------------------------
  // Repetition
  // ---------------------------------------------------------------------

  const NONE := 0
  const DAILY := 1
  const WEEKLY := 2
  const MONTHLY := 3
  const YEARLY := 4

  predicate Repeats(repeat: int) {
    DAILY <= repeat <= YEARLY
  }

  /** `addRelativeDeltaToInstant`: the UTC date moves, the time of day stays. */
  function NextRepeat(i: Instant, repeat: int): Instant
    requires Repeats(repeat)
  {
    var date := if repeat == DAILY then AddDays(i.date, 1)
                else if repeat == WEEKLY then AddDays(i.date, 7)
                else if repeat == MONTHLY then AddMonths(i.date, 1)
                else AddMonths(i.date, 12);
    Instant(date, i.ms)
  }

  /** The next occurrence falls on a strictly later local day: exactly one day or one week on, or the
      clamped day of the next month or year. */
  lemma NextRepeatIsLater(i: Instant, repeat: int)
    requires Repeats(repeat)
    ensures LocalDay(NextRepeat(i, repeat)) > LocalDay(i)
    ensures repeat == DAILY ==> LocalDay(NextRepeat(i, repeat)) == LocalDay(i) + 1
    ensures repeat == WEEKLY ==> LocalDay(NextRepeat(i, repeat)) == LocalDay(i) + 7
  {
    hide Ordinal, AddDays, AddMonths;
    var j := NextRepeat(i, repeat);
    if repeat == DAILY {
      AddDaysOrdinal(i.date, 1);
    } else if repeat == WEEKLY {
      AddDaysOrdinal(i.date, 7);
    } else {
      AddMonthsMonotone(i.date, 0, if repeat == MONTHLY then 1 else 12);
      AddNoMonths(i.date);
      OrdinalOrders(i.date, j.date);
    }
    DaysApart(Ordinal(i.date), Ordinal(j.date), i.ms);
  }

  /** What each repetition does to the date: one day, seven days, or the same day one or twelve months on,
      clamped; the time of day stays. */
  lemma NextRepeatExactly(i: Instant, repeat: int)
    requires 1 <= repeat <= 4
    ensures var j := NextRepeat(i, repeat);
            && j.ms == i.ms
            && (repeat == 1 ==> Ordinal(j.date) == Ordinal(i.date) + 1)
            && (repeat == 2 ==> Ordinal(j.date) == Ordinal(i.date) + 7)
            && (repeat >= 3 ==>
                  && j.date.year * 12 + j.date.month == i.date.year * 12 + i.date.month + (if repeat == 3 then 1 else 12)
                  && j.date.day <= i.date.day
                  && (j.date.day < i.date.day ==> j.date.day == DaysInMonth(j.date.year, j.date.month)))
  {
    hide Ordinal, AddDays;
    if repeat == 1 {
      AddDaysOrdinal(i.date, 1);
    } else if repeat == 2 {
      AddDaysOrdinal(i.date, 7);
    } else {
      AddMonthsExactly(i.date, if repeat == 3 then 1 else 12);
    }
  }

  lemma DaysApart(a: int, b: int, ms: int)
    ensures (b * 86_400_000 + ms - 18_000_000) / 86_400_000 == (a * 86_400_000 + ms - 18_000_000) / 86_400_000 + (b - a)
  {}

  // ---------------------------------------------------------------------
  // Rows
  // ---------------------------------------------------------------------

  type TaskId = nat

  /** What a row is about: a notification keyed by owner and topic, or the account to close. */
  datatype Payload = Notice(topic: string, owner: nat, body: string) | CloseAccount(account: nat)

  datatype Task = Task(kind: int, runDate: Instant, repeat: int, payload: Payload, processed: bool)

  /** The columns a pass loads. */
  datatype DueTask = DueTask(id: TaskId, task: Task)

  /** The types the executer factory resolves. */
  predicate Known(kind: int) {
    kind == NOTIFICATIONS || kind == CLOSE_SAVING_ACCOUNT
  }

  predicate Due(t: Task, today: int) {
    !t.processed && LocalDay(t.runDate) <= today
  }

  /** A row is due when it is unprocessed and dated today or before. */
  lemma DueExactly(rows: map<TaskId, Task>, due: seq<DueTask>, today: int)
    ensures forall id :: id in rows ==> (Due(rows[id], today) <==> !rows[id].processed && LocalDay(rows[id].runDate) <= today)
    ensures forall i :: 0 <= i < |due| ==>
              (Due(due[i].task, today) <==> !due[i].task.processed && LocalDay(due[i].task.runDate) <= today)
  {
    hide LocalDay;
  }

  predicate IsNotice(t: Task, owner: nat, topic: string) {
    t.payload.Notice? && t.payload.owner == owner && t.payload.topic == topic
  }

  predicate PendingOn(t: Task, owner: nat, topic: string, day: int) {
    IsNotice(t, owner, topic) && LocalDay(t.runDate) == day && !t.processed
  }

  predicate HasPending(rows: map<TaskId, Task>, owner: nat, topic: string, day: int) {
    exists id :: id in rows && PendingOn(rows[id], owner, topic, day)
  }

  function WithoutNotices(rows: map<TaskId, Task>, owner: nat, topic: string): map<TaskId, Task> {
    map id | id in rows && !IsNotice(rows[id], owner, topic) :: rows[id]
  }

  class TaskTable {
    var rows: map<TaskId, Task>
    var nextId: TaskId

    /** The sequence is ahead of every row. */
    ghost predicate Valid()
      reads this
    {
      forall id :: id in rows ==> id < nextId
    }

    constructor ()
      ensures Valid() && rows == map[]
    {
      rows, nextId := map[], 1;
    }

    method ExistsUnprocessedOnDay(owner: nat, topic: string, day: int) returns (found: bool)
      ensures found <==> HasPending(rows, owner, topic, day)
    {
      found := exists id :: id in rows && PendingOn(rows[id], owner, topic, day);
    }

    method Insert(task: Task) returns (id: TaskId)
      requires Valid()
      modifies this
      ensures Valid() && id == old(nextId) && nextId == id + 1 && id !in old(rows)
      ensures rows == old(rows)[id := task]
    {
      id := nextId;
      rows, nextId := rows[id := task], nextId + 1;
    }

    method Create(runDate: Instant, payload: Payload, repeat: int)
      requires Valid()
      modifies this
      ensures Valid() && nextId == old(nextId) + 1
      ensures rows == old(rows)[old(nextId) := Task(NOTIFICATIONS, runDate, repeat, payload, false)]
    {
      var id := Insert(Task(NOTIFICATIONS, runDate, repeat, payload, false));
    }

    /** The one-shot close task: there is no way to ask for a repeat. */
    method CreateCloseSavingAccountTask(runDate: Instant, account: nat) returns (id: TaskId)
      requires Valid()
      modifies this
      ensures Valid() && id == old(nextId) && nextId == id + 1
      ensures rows == old(rows)[id := Task(CLOSE_SAVING_ACCOUNT, runDate, NONE, CloseAccount(account), false)]
    {
      id := Insert(Task(CLOSE_SAVING_ACCOUNT, runDate, NONE, CloseAccount(account), false));
    }

    method DeleteByOwnerAndType(owner: nat, topic: string) returns (count: nat)
      modifies `rows
      ensures rows == WithoutNotices(old(rows), owner, topic)
      ensures forall id :: id in rows <==>
                id in old(rows) && !(old(rows)[id].payload.Notice? && old(rows)[id].payload.owner == owner
                                     && old(rows)[id].payload.topic == topic)
      ensures forall id :: id in rows ==> rows[id] == old(rows)[id]
      ensures count == |old(rows)| - |rows|
      ensures old(Valid()) ==> Valid()
    {
      var kept := map id | id in rows && !IsNotice(rows[id], owner, topic) :: rows[id];
      SubmapIsSmaller(kept, rows);
      count := |rows| - |kept|;
      rows := kept;
    }

    /** Today's unprocessed rows and every earlier one, in no particular order. */
    method FindDueUnprocessed(today: int) returns (due: seq<DueTask>)
      ensures forall i :: 0 <= i < |due| ==> !due[i].task.processed && LocalDay(due[i].task.runDate) <= today
      ensures forall id :: id in rows && !rows[id].processed && LocalDay(rows[id].runDate) <= today ==>
                DueTask(id, rows[id]) in due
      ensures forall i :: 0 <= i < |due| ==> due[i].id in rows && due[i].task == rows[due[i].id] && Due(due[i].task, today)
      ensures forall i, j :: 0 <= i < j < |due| ==> due[i].id != due[j].id
      ensures forall id :: id in rows && Due(rows[id], today) ==> DueTask(id, rows[id]) in due
    {
      hide Due;
      due := [];
      var left := set id | id in rows && Due(rows[id], today);
      while left != {}
        invariant forall id :: id in left ==> id in rows && Due(rows[id], today)
        invariant forall i :: 0 <= i < |due| ==> due[i].id in rows && due[i].id !in left
        invariant forall i :: 0 <= i < |due| ==> due[i].task == rows[due[i].id] && Due(due[i].task, today)
        invariant forall i, j :: 0 <= i < j < |due| ==> due[i].id != due[j].id
        invariant forall id :: id in rows && Due(rows[id], today) ==> id in left || DueTask(id, rows[id]) in due
        decreases left
      {
        var id :| id in left;
        ghost var before := due;
        due := due + [DueTask(id, rows[id])];
        assert due[|before|] == DueTask(id, rows[id]) && forall d :: d in before ==> d in due;
        left := left - {id};
      }
      DueExactly(rows, due, today);
    }

    /** `UPDATE … SET processed = true WHERE id = ? AND processed = false`, by row count. */
    method Claim(id: TaskId) returns (won: bool)
      modifies `rows
      ensures won <==> id in old(rows) && !old(rows)[id].processed
      ensures rows == if won then old(rows)[id := old(rows)[id].(processed := true)] else old(rows)
      ensures old(Valid()) ==> Valid()
    {
      won := id in rows && !rows[id].processed;
      if won { rows := rows[id := rows[id].(processed := true)]; }
    }

    method Release(id: TaskId)
      modifies `rows
      ensures rows == if id in old(rows) then old(rows)[id := old(rows)[id].(processed := false)] else old(rows)
      ensures old(Valid()) ==> Valid()
    {
      if id in rows { rows := rows[id := rows[id].(processed := false)]; }
    }

    method CreateRepeatInstance(task: Task, runDate: Instant) returns (id: TaskId)
      requires Valid()
      modifies this
      ensures Valid() && id == old(nextId) && nextId == id + 1
      ensures rows == old(rows)[id := task.(runDate := runDate, processed := false)]
    {
      id := Insert(task.(runDate := runDate, processed := false));
    }

    // -------------------------------------------------------------------
    // The notification service's two writers
    // -------------------------------------------------------------------

    /** `scheduleNotification`: at most one unprocessed row for an owner, a topic and a local day. */
    method ScheduleNotification(day: ValidDate, payload: Payload, repeat: int)
      requires Valid() && payload.Notice?
      modifies this
      ensures Valid() && HasPending(rows, payload.owner, payload.topic, Ordinal(day))
      ensures exists id :: id in rows && !rows[id].processed && LocalDay(rows[id].runDate) == Ordinal(day)
                           && rows[id].payload.Notice? && rows[id].payload.owner == payload.owner
                           && rows[id].payload.topic == payload.topic
      ensures (exists id :: id in old(rows) && !old(rows)[id].processed && LocalDay(old(rows)[id].runDate) == Ordinal(day)
                            && old(rows)[id].payload.Notice? && old(rows)[id].payload.owner == payload.owner
                            && old(rows)[id].payload.topic == payload.topic) ==> rows == old(rows)
      ensures rows == old(rows)
              || (old(nextId) in rows && rows == old(rows)[old(nextId) := rows[old(nextId)]]
                  && rows[old(nextId)] == Task(0, rows[old(nextId)].runDate, repeat, payload, false)
                  && LocalDay(rows[old(nextId)].runDate) == Ordinal(day))
      ensures rows == Scheduled(old(rows), old(nextId), day, payload, repeat)
      ensures nextId >= old(nextId)
    {
      MidnightFallsOnItsDay(day);
      var already := ExistsUnprocessedOnDay(payload.owner, payload.topic, Ordinal(day));
      if !already {
        Create(BogotaMidnight(day), payload, repeat);
        assert PendingOn(rows[old(nextId)], payload.owner, payload.topic, Ordinal(day));
      }
    }

    /** `removeSchNotifications`. */
    method RemoveSchNotifications(topic: string, owner: nat) returns (count: nat)
      modifies `rows
      ensures rows == WithoutNotices(old(rows), owner, topic)
      ensures old(Valid()) ==> Valid()
    {
      count := DeleteByOwnerAndType(owner, topic);
    }
  }

  function Scheduled(rows: map<TaskId, Task>, id: TaskId, day: ValidDate, payload: Payload, repeat: int): map<TaskId, Task>
    requires payload.Notice?
  {
    if HasPending(rows, payload.owner, payload.topic, Ordinal(day)) then rows
    else rows[id := Task(NOTIFICATIONS, BogotaMidnight(day), repeat, payload, false)]
  }

  lemma SubmapIsSmaller<T>(a: map<TaskId, T>, b: map<TaskId, T>)
    requires a.Keys <= b.Keys
    ensures |a| <= |b|
  {
    SubsetIsSmaller(a.Keys, b.Keys);
    assert |a.Keys| == |a| && |b.Keys| == |b|;
  }

  lemma {:induction false} SubsetIsSmaller(a: set<TaskId>, b: set<TaskId>)
    requires a <= b
    ensures |a| <= |b|
  {
    if a != {} {
      var x :| x in a;
      SubsetIsSmaller(a - {x}, b - {x});
    }
  }

  // ---------------------------------------------------------------------
  // At most one pending notice
  // ---------------------------------------------------------------------

  /** No owner has two pending notices of a topic on one local day. The dedupe keeps it so; clones and
      releases write past the dedupe. */
  predicate AtMostOnePending(rows: map<TaskId, Task>) {
    forall a, b :: a in rows && b in rows && a != b && rows[a].payload.Notice? && !rows[a].processed ==>
      !PendingOn(rows[b], rows[a].payload.owner, rows[a].payload.topic, LocalDay(rows[a].runDate))
  }

  /** Putting an unprocessed notice in the table, as a fresh row or over a processed one, keeps that exactly
      when no notice of its owner and topic is pending on its local day. */
  lemma PuttingKeepsExactly(rows: map<TaskId, Task>, id: TaskId, t: Task)
    requires AtMostOnePending(rows) && t.payload.Notice? && !t.processed && (id in rows ==> rows[id].processed)
    ensures AtMostOnePending(rows[id := t])
            <==> !HasPending(rows, t.payload.owner, t.payload.topic, LocalDay(t.runDate))
  {
    hide LocalDay;
    var after, day := rows[id := t], LocalDay(t.runDate);
    if HasPending(rows, t.payload.owner, t.payload.topic, day) {
      var b :| b in rows && PendingOn(rows[b], t.payload.owner, t.payload.topic, day);
      assert b != id && PendingOn(after[b], after[id].payload.owner, after[id].payload.topic, LocalDay(after[id].runDate));
    }
  }

  /** A repeat clone keeps it exactly when nothing of its owner and topic is pending on its new day. */
  lemma CloneKeepsExactly(rows: map<TaskId, Task>, id: TaskId, t: Task)
    requires AtMostOnePending(rows) && id !in rows && t.payload.Notice? && Repeats(t.repeat)
    ensures var next := NextRepeat(t.runDate, t.repeat);
            AtMostOnePending(rows[id := t.(runDate := next, processed := false)])
            <==> !HasPending(rows, t.payload.owner, t.payload.topic, LocalDay(next))
  {
    PuttingKeepsExactly(rows, id, t.(runDate := NextRepeat(t.runDate, t.repeat), processed := false));
  }

  /** A release of a processed notice keeps it exactly when nothing of its owner and topic is pending on its
      day. */
  lemma ReleaseKeepsExactly(rows: map<TaskId, Task>, id: TaskId)
    requires AtMostOnePending(rows) && id in rows && rows[id].payload.Notice? && rows[id].processed
    ensures AtMostOnePending(rows[id := rows[id].(processed := false)])
            <==> !HasPending(rows, rows[id].payload.owner, rows[id].payload.topic, LocalDay(rows[id].runDate))
  {
    PuttingKeepsExactly(rows, id, rows[id].(processed := false));
  }

  /** The clone of a daily notice lands on one already scheduled for the next day. */
  lemma CloneCanDuplicate(day: ValidDate, payload: Payload)
    requires payload.Notice?
    ensures var daily := Task(NOTIFICATIONS, BogotaMidnight(day), DAILY, payload, true);
            var next := NextRepeat(daily.runDate, DAILY);
            var rows := map[1 := daily, 2 := Task(NOTIFICATIONS, next, NONE, payload, false)];
            AtMostOnePending(rows) && !AtMostOnePending(rows[3 := daily.(runDate := next, processed := false)])
  {
    hide LocalDay, NextRepeat;
    var daily := Task(NOTIFICATIONS, BogotaMidnight(day), DAILY, payload, true);
    var next := NextRepeat(daily.runDate, DAILY);
    var rows := map[1 := daily, 2 := Task(NOTIFICATIONS, next, NONE, payload, false)];
    assert PendingOn(rows[2], payload.owner, payload.topic, LocalDay(next));
    PuttingKeepsExactly(rows, 3, daily.(runDate := next, processed := false));
  }

  /** A notice claimed, scheduled again while it runs, and released when its executer throws, is pending
      twice. */
  lemma ReleaseCanDuplicate(day: ValidDate, payload: Payload)
    requires payload.Notice?
    ensures var claimed := map[1 := Task(NOTIFICATIONS, BogotaMidnight(day), NONE, payload, true)];
            var rows := Scheduled(claimed, 2, day, payload, NONE);
            AtMostOnePending(rows) && 1 in rows && !AtMostOnePending(rows[1 := rows[1].(processed := false)])
  {
    hide LocalDay, Ordinal;
    var claimed := map[1 := Task(NOTIFICATIONS, BogotaMidnight(day), NONE, payload, true)];
    var rows := Scheduled(claimed, 2, day, payload, NONE);
    MidnightFallsOnItsDay(day);
    assert PendingOn(rows[2], payload.owner, payload.topic, Ordinal(day));
    ReleaseKeepsExactly(rows, 1);
  }

  /** The dedupe keeps it, and scheduling twice is scheduling once. */
  lemma SchedulingIsIdempotent(rows: map<TaskId, Task>, id: TaskId, other: TaskId, day: ValidDate, payload: Payload, repeat: int)
    requires payload.Notice? && id !in rows && AtMostOnePending(rows)
    ensures AtMostOnePending(Scheduled(rows, id, day, payload, repeat))
    ensures Scheduled(Scheduled(rows, id, day, payload, repeat), other, day, payload, repeat)
            == Scheduled(rows, id, day, payload, repeat)
  {
    hide LocalDay, Ordinal;
    MidnightFallsOnItsDay(day);
    var after := Scheduled(rows, id, day, payload, repeat);
    if !HasPending(rows, payload.owner, payload.topic, Ordinal(day)) {
      assert PendingOn(after[id], payload.owner, payload.topic, Ordinal(day));
    }
  }
}
