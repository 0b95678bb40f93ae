/** The loan service over its tables, one caller at a time (`src/loans/loan.service.ts`). What it
    does among concurrent callers is in LoanProtocol. */
module LoanService {
  import opened Options
  import opened Calendar
  import opened LoanFigures
  import opened LoanRules
  import opened SchedulerTasks
  import Amortization
  import Decimal28

  const PAYMENT_REMINDER := "payment_reminder"

  datatype Created = NoFinance | OverQuota | ValueTooSmall | BadTimelimit | New(id: LoanId)

  datatype Refinanced = WrongLoan | NoDetail | NoFinanceRow | ValueRefused | TimelimitRefused | Child(id: LoanId)

  datatype Updated = NotFound | Conflict | Failed | Done

  // ---------------------------------------------------------------------
  // Reminders
  // ---------------------------------------------------------------------

  predicate RemindedOn(rows: map<TaskId, Task>, id: LoanId, day: int) {
    HasPending(rows, id, PAYMENT_REMINDER, day)
  }

  /** Both reminders of a payment date are pending. */
  predicate Reminded(rows: map<TaskId, Task>, id: LoanId, payday: ValidDate) {
    RemindedOn(rows, id, Ordinal(payday) - 5) && RemindedOn(rows, id, Ordinal(payday) - 1)
  }

  predicate IsReminder(t: Task) {
    t.payload.Notice? && t.payload.topic == PAYMENT_REMINDER
  }

  function OwnerOf(t: Task): nat {
    if t.payload.Notice? then t.payload.owner else 0
  }

  predicate Keeps(before: map<TaskId, Task>, after: map<TaskId, Task>) {
    forall t :: t in before ==> t in after && after[t] == before[t]
  }

  /** An unprocessed, one-shot payment reminder, the only one of its loan on its day. */
  predicate IsNewReminder(rows: map<TaskId, Task>, t: TaskId)
    requires t in rows
  {
    && IsReminder(rows[t]) && !rows[t].processed && rows[t].kind == NOTIFICATIONS && rows[t].repeat == NONE
    && forall u :: u in rows && u != t ==>
         !PendingOn(rows[u], OwnerOf(rows[t]), PAYMENT_REMINDER, LocalDay(rows[t].runDate))
  }

  /** The two days a payment date is reminded of. */
  predicate ReminderDay(day: int, payday: ValidDate) {
    day == Ordinal(payday) - 5 || day == Ordinal(payday) - 1
  }

  /** Nothing was removed, and what was added are reminders of this loan and this payment date. */
  predicate OnlyRemindsOf(before: map<TaskId, Task>, after: map<TaskId, Task>, id: LoanId, payday: ValidDate) {
    && Keeps(before, after)
    && forall t :: t in after && t !in before ==>
         IsNewReminder(after, t) && OwnerOf(after[t]) == id && ReminderDay(LocalDay(after[t].runDate), payday)
  }

  /** Some line of the file is of this loan, the loan has a detail, and this is one of the line's two days. */
  ghost predicate CalledFor(details: map<DetailId, Detail>, file: seq<Line>, id: LoanId, day: int) {
    exists i :: 0 <= i < |file| && Names(file[i], id) && FirstDetail(details, id).Some?
                && ReminderDay(day, file[i].figures.paydayLimit)
  }

  /** Nothing was removed, and what was added are reminders the file calls for. */
  ghost predicate OnlyAddsCalled(before: map<TaskId, Task>, after: map<TaskId, Task>,
                                 details: map<DetailId, Detail>, file: seq<Line>) {
    && Keeps(before, after)
    && forall t :: t in after && t !in before ==>
         IsNewReminder(after, t) && CalledFor(details, file, OwnerOf(after[t]), LocalDay(after[t].runDate))
  }

  /** Every well-formed line of a loan that has a detail has both its reminders pending. */
  ghost predicate LinesReminded(details: map<DetailId, Detail>, file: seq<Line>, rows: map<TaskId, Task>) {
    forall i, id: LoanId {:trigger Names(file[i], id)} ::
      0 <= i < |file| && Names(file[i], id) && FirstDetail(details, id).Some? ==>
      Reminded(rows, id, file[i].figures.paydayLimit)
  }

  /** What an upload leaves of the task table: the closed loans have no payment reminder at all, every
      listed loan with a detail has both of its own pending, nothing else is gone, and each new row is a
      reminder the file calls for, the only one of its loan on its day. */
  ghost predicate UploadReminds(details: map<DetailId, Detail>, file: seq<Line>, closed: seq<LoanId>,
                                before: map<TaskId, Task>, after: map<TaskId, Task>) {
    && (forall t, k :: t in after && k in closed ==> !IsNotice(after[t], k, PAYMENT_REMINDER))
    && LinesReminded(details, file, after)
    && (forall t :: t in before && !IsReminderOf(before[t], closed) ==> t in after && after[t] == before[t])
    && (forall t :: t in after && t in before ==> after[t] == before[t])
    && (forall t :: t in after && t !in before ==>
          IsNewReminder(after, t) && CalledFor(details, file, OwnerOf(after[t]), LocalDay(after[t].runDate)))
  }

  predicate IsReminderOf(t: Task, ids: seq<LoanId>) {
    IsReminder(t) && t.payload.owner in ids
  }

  function WithoutReminders(rows: map<TaskId, Task>, closed: seq<LoanId>): map<TaskId, Task> {
    map t | t in rows && !IsReminderOf(rows[t], closed) :: rows[t]
  }

  ghost function Shielded(loans: map<LoanId, Loan>, ids: seq<int>): set<LoanId> {
    set id | id in loans && id in ids
  }

  /** The loans of a listing that the file omits, in the listing's order. */
  function Unlisted(list: seq<LoanId>, ids: seq<int>): seq<LoanId> {
    if list == [] then []
    else
      var rest := Unlisted(list[..|list| - 1], ids);
      if list[|list| - 1] in ids then rest else rest + [list[|list| - 1]]
  }

  class LoanService {
    var loans: map<LoanId, Loan>
    var details: map<DetailId, Detail>
    var nextLoan: LoanId
    var nextDetail: DetailId
    const tasks: TaskTable

    ghost predicate Valid()
      reads this, tasks
    {
      && DbOk(Db(loans, details)) && tasks.Valid()
      && (forall id :: id in loans ==> id < nextLoan)
      && (forall d :: d in details ==> d < nextDetail && details[d].loanId in loans)
    }

    constructor (table: TaskTable)
      requires table.Valid()
      ensures Valid() && loans == map[] && details == map[] && tasks == table
    {
      loans, details, nextLoan, nextDetail, tasks := map[], map[], 1, 1, table;
    }

    // -------------------------------------------------------------------
    // Reads
    // -------------------------------------------------------------------

    /** `findFirst({ where: { loan_id }, orderBy: { id: 'asc' } })`. */
    method FindFirstDetail(id: LoanId) returns (found: Option<DetailId>)
      ensures found == FirstDetail(details, id)
    {
      found := None;
      var left := details.Keys;
      while left != {}
        invariant left <= details.Keys
        invariant found.Some? ==> IsDetailOf(details, found.value, id)
        invariant forall d :: d in details && d !in left && details[d].loanId == id ==> found.Some? && found.value <= d
        decreases left
      {
        var d :| d in left;
        if details[d].loanId == id && (found.None? || d < found.value) { found := Some(d); }
        left := left - {d};
      }
      assert forall d :: IsDetailOf(details, d, id) ==> found.Some? && found.value <= d;
    }

    /** The approved loans in listing order. */
    method GetApprovedLoans() returns (list: seq<LoanId>)
      ensures ToClose(loans, {}, list)
      ensures forall id :: id in list <==> id in loans && loans[id].state == 1
      ensures forall i, j :: 0 <= i < j < |list| ==>
                var x, y := loans[list[i]], loans[list[j]];
                x.createdAt > y.createdAt || (x.createdAt == y.createdAt && list[i] > list[j])
    {
      list := [];
      var left := set id | id in loans && loans[id].state == APPROVED;
      while left != {}
        invariant forall id :: id in left ==> id in loans && loans[id].state == APPROVED
        invariant forall i :: 0 <= i < |list| ==> list[i] in loans && loans[list[i]].state == APPROVED
        invariant forall id :: id in loans && loans[id].state == APPROVED ==> id in list || id in left
        invariant Descending(loans, list)
        invariant forall i, id :: 0 <= i < |list| && id in left ==> Above(list[i], loans[list[i]], id, loans[id])
        decreases left
      {
        var top := TopOf(left);
        list := list + [top];
        left := left - {top};
      }
    }

    method TopOf(ids: set<LoanId>) returns (top: LoanId)
      requires ids != {} && ids <= loans.Keys
      ensures top in ids && forall id :: id in ids && id != top ==> Above(top, loans[top], id, loans[id])
    {
      top :| top in ids;
      var left := ids - {top};
      while left != {}
        invariant left <= ids && top in ids && top !in left
        invariant forall id :: id in ids && id !in left && id != top ==> Above(top, loans[top], id, loans[id])
        decreases left
      {
        var id :| id in left;
        left := left - {id};
        if Above(id, loans[id], top, loans[top]) { top := id; }
      }
    }

    // -------------------------------------------------------------------
    // Creating and refinancing
    // -------------------------------------------------------------------

    /** The quota is compared with the raw value, which is truncated only to be stored. */
    method CreateLoan(quota: Option<int>, owner: nat, rawValue: real, timelimit: int, fee: int, disbursement: ValidDate,
                      createdAt: int, refinance: bool, prev: Option<LoanId>)
      returns (r: Created)
      requires Valid()
      requires prev.Some? ==> var p := prev.value;
                 p in loans && loans[p].owner == owner && loans[p].createdAt <= createdAt && loans[p].state >= APPROVED
      modifies this
      ensures Valid() && details == old(details)
      ensures r.NoFinance? <==> quota.None?
      ensures r.OverQuota? <==> quota.Some? && !refinance && rawValue > quota.value as real
      ensures r.ValueTooSmall? <==> quota.Some? && (refinance || rawValue <= quota.value as real) && rawValue < 1.0
      ensures r.BadTimelimit? <==> quota.Some? && (refinance || rawValue <= quota.value as real) && rawValue >= 1.0
                                   && !(1 <= timelimit <= 36)
      ensures !r.New? ==> loans == old(loans)
      ensures r.New? ==>
                && r.id in loans && loans[r.id].owner == owner && loans[r.id].prev == prev && loans[r.id].state == 0
                && loans[r.id].refinanced == None && loans[r.id].createdAt == createdAt
                && loans[r.id].terms.value >= 1 && 1 <= loans[r.id].terms.timelimit <= 36
      ensures r.New? ==>
                && r.id == old(nextLoan) && r.id !in old(loans)
                && loans == old(loans)[r.id := NewLoan(owner, createdAt, prev,
                              Terms(rawValue.Floor, timelimit, fee, Amortization.GetRate(timelimit), disbursement))]
                && ApprovalFigures(loans[r.id].terms).Some?
    {
      if quota.None? { return NoFinance; }
      if rawValue > quota.value as real && !refinance { return OverQuota; }
      var value := if rawValue >= 0.0 then rawValue.Floor else -(-rawValue).Floor;
      if value < MIN_LOAN_VALUE { return ValueTooSmall; }
      if timelimit < MIN_TIMELIMIT || timelimit > MAX_TIMELIMIT { return BadTimelimit; }
      var terms := Terms(value, timelimit, fee, Amortization.GetRate(timelimit), disbursement);
      r := New(nextLoan);
      InsertKeepsDbOk(Db(loans, details), nextLoan, NewLoan(owner, createdAt, prev, terms));
      loans := loans[nextLoan := NewLoan(owner, createdAt, prev, terms)];
      nextLoan := nextLoan + 1;
    }

    lemma RefinanceFigures(id: LoanId, renewal: Renewal)
      ensures id in loans && FirstDetail(details, id).Some? ==>
                var row := BalanceRow(details, id);
                var added := RefinanceValue(loans, details, id, renewal.toDate, renewal.includeInterests) - row.capitalBalance;
                var exact := AccruedTo(loans[id].terms.rate, row, renewal.toDate);
                && (!renewal.includeInterests ==> added == 0)
                && (renewal.includeInterests ==>
                      Decimal28.Abs(added as real - exact) <= 0.5 + 3.0 * Amortization.EPSILON * Decimal28.Abs(exact))
    {
      hide RefinanceValue, BalanceRow, AccruedTo;
      if id in loans && FirstDetail(details, id).Some? { RefinanceValueIs(loans, details, id, renewal.toDate); }
    }

    /** No transaction: the child is written first, and a refused child links nothing. */
    method RefinanceLoan(actor: nat, id: LoanId, renewal: Renewal, quota: Option<int>, createdAt: int)
      returns (r: Refinanced)
      requires Valid()
      requires id in loans ==> loans[id].createdAt <= createdAt
      modifies this
      ensures Valid() && details == old(details)
      ensures r.WrongLoan? <==> !(id in old(loans) && old(loans)[id].state == 1 && old(loans)[id].owner == actor)
      ensures !r.NoDetail?
      ensures r.NoFinanceRow? <==> !r.WrongLoan? && quota.None?
      ensures !r.WrongLoan? && quota.Some? ==>
                FirstDetail(old(details), id).Some?
                && var value := RefinanceValue(old(loans), old(details), id, renewal.toDate, renewal.includeInterests);
                   && (r.ValueRefused? <==> value < 1)
                   && (r.TimelimitRefused? <==>
                         value >= 1 && !(1 <= renewal.timelimit <= 36))
      ensures r.Child? <==> quota.Some? && RefinanceAlone(old(Db(loans, details)), id, actor, renewal).Some?
      ensures !r.Child? ==> loans == old(loans)
      ensures r.Child? ==>
                && r.id !in old(loans) && loans.Keys == old(loans).Keys + {r.id}
                && loans[r.id] == NewLoan(actor, createdAt, Some(id),
                                          RefinanceAlone(old(Db(loans, details)), id, actor, renewal).value)
                && loans[id] == old(loans)[id].(refinanced := Some(r.id))
                && (forall k :: k in old(loans) && k != id ==> loans[k] == old(loans)[k])
      ensures r.Child? ==>
                FirstDetail(old(details), id).Some?
                && var row, terms := BalanceRow(old(details), id), loans[r.id].terms;
                   var added := terms.value - row.capitalBalance;
                   var exact := AccruedTo(old(loans)[id].terms.rate, row, renewal.toDate);
                   && (!renewal.includeInterests ==> added == 0)
                   && (renewal.includeInterests ==>
                         Decimal28.Abs(added as real - exact) <= 0.5 + 3.0 * Amortization.EPSILON * Decimal28.Abs(exact))
                   && terms.timelimit == renewal.timelimit && terms.fee == renewal.fee && terms.disbursement == renewal.toDate
                   && loans[r.id].owner == actor && loans[r.id].prev == Some(id) && loans[r.id].state == 0
    {
      RefinanceFigures(id, renewal);
      hide DbOk, BalanceRow, AccruedTo, ApprovalFigures, Amortization.CalculateInterests, Decimal28.RoundHalfEven,
           Amortization.GetRate, IsDetailOf;
      if id !in loans || loans[id].state != APPROVED || loans[id].owner != actor { return WrongLoan; }
      ApprovedHasDetail(Db(loans, details), id);
      var found := FindFirstDetail(id);
      if found.None? { return NoDetail; }
      var row := details[found.value].figures;
      var interests := Decimal28.RoundHalfEven(
        Amortization.CalculateInterests(loans[id].terms.rate, row.capitalBalance as real, row.fromDate, renewal.toDate));
      var value := row.capitalBalance;
      if renewal.includeInterests { value := value + interests; }
      var created := CreateLoan(quota, actor, value as real, renewal.timelimit, renewal.fee, renewal.toDate, createdAt, true,
                                Some(id));
      match created {
        case NoFinance => return NoFinanceRow;
        case ValueTooSmall => return ValueRefused;
        case BadTimelimit => return TimelimitRefused;
        case New(child) =>
          LinkKeepsDbOk(Db(loans, details), id, child);
          loans := loans[id := loans[id].(refinanced := Some(child))];
          return Child(child);
      }
    }

    // -------------------------------------------------------------------
    // Transitions
    // -------------------------------------------------------------------

    /** `UPDATE … SET state WHERE id = ? AND state = ?`, by row count. */
    method CompareAndSetState(id: LoanId, expected: int, next: int) returns (count: nat)
      modifies `loans
      ensures count == if id in old(loans) && old(loans)[id].state == expected then 1 else 0
      ensures loans == if count == 1 then old(loans)[id := old(loans)[id].(state := next)] else old(loans)
    {
      if id in loans && loans[id].state == expected {
        loans := loans[id := loans[id].(state := next)];
        return 1;
      }
      return 0;
    }

    method UpsertLoanDetail(id: LoanId, figures: Figures)
      modifies `details, `nextDetail
      ensures details == match FirstDetail(old(details), id)
                         case Some(d) => old(details)[d := Detail(id, figures)]
                         case None => old(details)[old(nextDetail) := Detail(id, figures)]
      ensures nextDetail == if FirstDetail(old(details), id).Some? then old(nextDetail) else old(nextDetail) + 1
    {
      var existing := FindFirstDetail(id);
      match existing {
        case Some(d) => details := details[d := Detail(id, figures)];
        case None =>
          details := details[nextDetail := Detail(id, figures)];
          nextDetail := nextDetail + 1;
      }
    }

    /** The figures of an approval, from the table it mails. */
    method PriceApproval(terms: Terms) returns (figures: Option<Figures>)
      ensures figures == ApprovalFigures(terms)
    {
      hide Amortization.RowAt, Amortization.TotalPaid, Amortization.Interest, Amortization.DueDate,
           Decimal28.RoundHalfEven;
      var loan := Amortization.Loan(terms.value, terms.timelimit, terms.fee, terms.rate, terms.disbursement);
      var result := Amortization.GenerateAmortizationTable(loan);
      match result {
        case DivisionByZero => return None;
        case Table(_, summary) =>
          return Some(Figures(summary.totalPayment, summary.minimumPayment, summary.paydayLimit, summary.interests,
                              terms.value, terms.disbursement));
      }
    }

    /** The body of a transition, inside the caller's transaction. */
    method UpdateLoanIn(id: LoanId, target: int) returns (r: Updated)
      requires Valid()
      modifies this, tasks
      ensures nextLoan == old(nextLoan) && nextDetail >= old(nextDetail) && tasks.Valid() && tasks.nextId == old(tasks.nextId)
      ensures r == match AnswerAlone(old(loans), id, target)
                   case NotFound => Updated.NotFound
                   case Conflict => Updated.Conflict
                   case Accepted =>
                     if target == APPROVED && ApprovalFigures(old(loans)[id].terms).None? then Failed else Done
      ensures r.NotFound? <==> id !in old(loans)
      ensures r.Conflict? <==> id in old(loans) && (old(loans)[id].state, target) !in {(0, 1), (0, 2), (1, 3), (1, 2)}
      ensures r in {Updated.NotFound, Updated.Conflict} ==>
                loans == old(loans) && details == old(details) && tasks.rows == old(tasks.rows)
      ensures r.Done? ==>
                && Valid()
                && (old(loans)[id].prev.Some? ==> old(loans)[id].prev.value in old(loans))
                && Db(loans, details) == Transition(old(Db(loans, details)), id, target, old(nextDetail))
                && tasks.rows == if target == PAID_OUT then WithoutNotices(old(tasks.rows), id, PAYMENT_REMINDER)
                                 else old(tasks.rows)
      ensures r.Done? ==>
                var prev := old(loans)[id].prev;
                && MovedOnRows(old(Db(loans, details)), id, target, Db(loans, details))
                && (prev.Some? && target == 1 ==> loans[prev.value] == old(loans)[prev.value].(state := 3))
                && (prev.Some? && target == 2 ==> loans[prev.value] == old(loans)[prev.value].(refinanced := None))
    {
      hide ApprovalFigures, DbOk, FirstDetail, Transition, WithoutNotices, IsDetailOf, MovedOnRows;
      if id !in loans { return Updated.NotFound; }
      var loan := loans[id];
      PreviousIsThere(Db(loans, details), id);
      if !Legal(loan.state, target) { return Updated.Conflict; }
      var count := CompareAndSetState(id, loan.state, target);
      if count == 0 { return Updated.Conflict; }
      if target == APPROVED {
        var figures := PriceApproval(loan.terms);
        if figures.None? { return Failed; }
        if loan.prev.Some? {
          loans := loans[loan.prev.value := loans[loan.prev.value].(state := PAID_OUT)];
        }
        UpsertLoanDetail(id, figures.value);
      } else if target == DENIED {
        if loan.prev.Some? {
          loans := loans[loan.prev.value := loans[loan.prev.value].(refinanced := None)];
        }
      } else {
        var removed := tasks.RemoveSchNotifications(PAYMENT_REMINDER, id);
      }
      AllOfTransition(old(Db(loans, details)), id, target, old(nextDetail), Db(loans, details));
      TransitionOnRows(old(Db(loans, details)), id, target, old(nextDetail));
      return Done;
    }

    /** `updateLoan`: all of the transition, or nothing. */
    method UpdateLoan(id: LoanId, target: int) returns (r: Updated)
      requires Valid()
      modifies this, tasks
      ensures Valid()
      ensures r == match AnswerAlone(old(loans), id, target)
                   case NotFound => Updated.NotFound
                   case Conflict => Updated.Conflict
                   case Accepted =>
                     if target == APPROVED && ApprovalFigures(old(loans)[id].terms).None? then Failed else Done
      ensures r.NotFound? <==> id !in old(loans)
      ensures r.Conflict? <==> id in old(loans) && (old(loans)[id].state, target) !in {(0, 1), (0, 2), (1, 3), (1, 2)}
      ensures !r.Done? ==> loans == old(loans) && details == old(details) && tasks.rows == old(tasks.rows)
      ensures r.Done? ==>
                && (old(loans)[id].prev.Some? ==> old(loans)[id].prev.value in old(loans))
                && Db(loans, details) == Transition(old(Db(loans, details)), id, target, old(nextDetail))
                && tasks.rows == if target == PAID_OUT then WithoutNotices(old(tasks.rows), id, PAYMENT_REMINDER)
                                 else old(tasks.rows)
      ensures r.Done? ==>
                var prev := old(loans)[id].prev;
                && MovedOnRows(old(Db(loans, details)), id, target, Db(loans, details))
                && (prev.Some? && target == 1 ==> loans[prev.value] == old(loans)[prev.value].(state := 3))
                && (prev.Some? && target == 2 ==> loans[prev.value] == old(loans)[prev.value].(refinanced := None))
    {
      hide ApprovalFigures, DbOk, Transition, MovedOnRows;
      var loansBefore, detailsBefore, rowsBefore := loans, details, tasks.rows;
      r := UpdateLoanIn(id, target);
      if !r.Done? {
        loans, details, tasks.rows := loansBefore, detailsBefore, rowsBefore;
      }
    }

    // -------------------------------------------------------------------
    // The monthly file
    // -------------------------------------------------------------------

    /** The two reminders of a payment date. */
    method CreateScheduledTask(payday: ValidDate, id: LoanId)
      requires tasks.Valid()
      modifies tasks
      ensures tasks.Valid() && OnlyRemindsOf(old(tasks.rows), tasks.rows, id, payday) && Reminded(tasks.rows, id, payday)
      ensures HasPending(tasks.rows, id, "payment_reminder", Ordinal(payday) - 5)
      ensures HasPending(tasks.rows, id, "payment_reminder", Ordinal(payday) - 1)
      ensures forall t :: t in old(tasks.rows) ==> t in tasks.rows && tasks.rows[t] == old(tasks.rows)[t]
      ensures forall t :: t in tasks.rows && t !in old(tasks.rows) ==>
                && tasks.rows[t].payload.Notice? && tasks.rows[t].payload.owner == id
                && tasks.rows[t].payload.topic == "payment_reminder" && !tasks.rows[t].processed && tasks.rows[t].repeat == 0
                && LocalDay(tasks.rows[t].runDate) in {Ordinal(payday) - 5, Ordinal(payday) - 1}
    {
      hide Ordinal, AddDays, LocalDay, OnlyRemindsOf, Scheduled, HasPending;
      AddDaysOrdinal(payday, -5);
      AddDaysOrdinal(payday, -1);
      var payload := Notice(PAYMENT_REMINDER, id, "");
      ghost var first := tasks.nextId;
      tasks.ScheduleNotification(AddDays(payday, -5), payload, NONE);
      ghost var between, second := tasks.rows, tasks.nextId;
      OneReminder(old(tasks.rows), first, AddDays(payday, -5), id, payday);
      tasks.ScheduleNotification(AddDays(payday, -1), payload, NONE);
      OneReminder(between, second, AddDays(payday, -1), id, payday);
      RemindersAdd(old(tasks.rows), between, tasks.rows, id, payday);
      assert Keeps(between, tasks.rows) by { RemindingKeeps(between, tasks.rows, id, payday); }
      AddingKeepsReminder(between, tasks.rows, id, Ordinal(payday) - 5);
      RemindsRows(old(tasks.rows), tasks.rows, id, payday);
    }

    /** An update, never an insert: a line for a loan with no detail is skipped. */
    method UpdateLoanDetail(fileId: int, figures: Figures) returns (updated: bool)
      requires tasks.Valid()
      modifies `details, tasks
      ensures tasks.Valid()
      ensures updated <==> fileId >= 0 && FirstDetail(old(details), fileId).Some?
      ensures updated ==>
                && details == old(details)[FirstDetail(old(details), fileId).value := Detail(fileId, figures)]
                && OnlyRemindsOf(old(tasks.rows), tasks.rows, fileId, figures.paydayLimit)
                && Reminded(tasks.rows, fileId, figures.paydayLimit)
      ensures !updated ==> details == old(details) && tasks.rows == old(tasks.rows)
    {
      hide Reminded, OnlyRemindsOf;
      if fileId < 0 { return false; }
      var existing := FindFirstDetail(fileId);
      if existing.None? { return false; }
      details := details[existing.value := Detail(fileId, figures)];
      CreateScheduledTask(figures.paydayLimit, fileId);
      return true;
    }

    /** The lines of the file, up to the first malformed one. */
    method ApplyLines(file: seq<Line>) returns (ok: bool, ids: seq<int>)
      requires Valid()
      modifies `details, tasks
      ensures tasks.Valid() && Keeps(old(tasks.rows), tasks.rows)
      ensures ok <==> Malformed !in file
      ensures ok ==>
                && (forall id: LoanId :: id in ids <==> Listed(file, id))
                && details == WithFigures(old(details), file)
                && OnlyAddsCalled(old(tasks.rows), tasks.rows, old(details), file)
                && LinesReminded(old(details), file, tasks.rows)
    {
      hide DbOk, FirstDetail, WithFigures, Reminded, OnlyAddsCalled, OnlyRemindsOf, IsDetailOf, LinesReminded, Keeps;
      ids := [];
      ghost var rows0, details0 := tasks.rows, details;
      EmptyFile(details0, rows0);
      var k := 0;
      while k < |file|
        invariant 0 <= k <= |file| && tasks.Valid() && Malformed !in file[..k]
        invariant forall id: LoanId :: id in ids <==> Listed(file[..k], id)
        invariant details == WithFigures(details0, file[..k])
        invariant OnlyAddsCalled(rows0, tasks.rows, details0, file[..k]) && Keeps(rows0, tasks.rows)
        invariant LinesReminded(details0, file[..k], tasks.rows)
      {
        assert file[..k + 1] == file[..k] + [file[k]];
        match file[k] {
          case Malformed => return false, ids;
          case Line(rawId, figures) =>
            var loanId := FileId(rawId);
            ids := ids + [loanId];
            ghost var rows1 := tasks.rows;
            var updated := UpdateLoanDetail(loanId, figures);
            LineApplied(Db(loans, details0), file[..k], file[k], details, rows0, rows1, tasks.rows);
        }
        k := k + 1;
      }
      assert file[..|file|] == file;
      return true, ids;
    }

    /** Closes the approved loans the file omits, in listing order. */
    method CloseUnlisted(ids: seq<int>) returns (closed: seq<LoanId>)
      requires Valid()
      modifies this, tasks
      ensures Valid()
      ensures ToClose(old(loans), Shielded(old(loans), ids), closed)
      ensures loans == WithClosed(old(loans), closed) && details == old(details)
      ensures tasks.rows == WithoutReminders(old(tasks.rows), closed)
    {
      hide DbOk, Transition, WithoutNotices, Descending, AnswerAlone, ApprovalFigures;
      var approved := GetApprovedLoans();
      closed := [];
      ghost var loans0, rows0 := loans, tasks.rows;
      NothingClosed(loans0, rows0);
      var k := 0;
      while k < |approved|
        invariant 0 <= k <= |approved| && Valid()
        invariant closed == Unlisted(approved[..k], ids)
        invariant loans == WithClosed(loans0, closed) && details == old(details)
        invariant tasks.rows == WithoutReminders(rows0, closed)
      {
        var id := approved[k];
        UnlistedStep(approved, k, ids);
        if id !in ids {
          StillApproved(loans0, approved, k, ids);
          ghost var before, spare := Db(loans, details), nextDetail;
          var r := UpdateLoanIn(id, PAID_OUT);
          PayOutIsClosing(before, id, spare);
          ClosedOneMore(loans0, closed, id);
          ReminderlessOneMore(rows0, closed, id);
          closed := closed + [id];
        }
        k := k + 1;
      }
      assert approved[..|approved|] == approved;
      UnlistedIsToClose(loans0, approved, ids);
    }

    /** The monthly file: all of it, or nothing. */
    method BulkUpdateLoans(file: seq<Line>) returns (r: Option<seq<LoanId>>)
      requires Valid()
      modifies this, tasks
      ensures Valid()
      ensures r.None? <==> Malformed in file
      ensures r.None? ==> loans == old(loans) && details == old(details) && tasks.rows == old(tasks.rows)
      ensures r.Some? ==>
                && ToClose(old(loans), ListedLoans(old(loans), file), r.value)
                && loans == WithClosed(old(loans), r.value)
                && details == WithFigures(old(details), file)
                && UploadReminds(old(details), file, r.value, old(tasks.rows), tasks.rows)
      ensures r.Some? ==>
                && loans.Keys == old(loans).Keys
                && forall k :: k in old(loans) ==>
                     loans[k] == if old(loans)[k].state == 1 && !Listed(file, k) then old(loans)[k].(state := 3)
                                else old(loans)[k]
    {
      hide DbOk, ToClose, WithClosed, WithFigures, LinesReminded, FirstDetail;
      var loansBefore, detailsBefore, rowsBefore, nextBefore := loans, details, tasks.rows, nextDetail;
      var ok, ids := ApplyLines(file);
      if !ok {
        details, tasks.rows := detailsBefore, rowsBefore;
        return None;
      }
      FiguresKeepValid(Db(loans, detailsBefore), file, nextDetail);
      ghost var rows1 := tasks.rows;
      var closed := CloseUnlisted(ids);
      assert Shielded(loansBefore, ids) == ListedLoans(loansBefore, file);
      RemindersSurvive(loansBefore, detailsBefore, file, closed, rowsBefore, rows1);
      ClosedRows(loansBefore, file, closed);
      return Some(closed);
    }
  }

  // ---------------------------------------------------------------------
  // Steps of the monthly file
  // ---------------------------------------------------------------------

  lemma AddingKeepsReminder(before: map<TaskId, Task>, after: map<TaskId, Task>, id: LoanId, day: int)
    requires RemindedOn(before, id, day) && forall t :: t in before ==> t in after && after[t] == before[t]
    ensures RemindedOn(after, id, day)
  {
    var t :| t in before && PendingOn(before[t], id, PAYMENT_REMINDER, day);
    assert PendingOn(after[t], id, PAYMENT_REMINDER, day);
  }

  lemma AddingKeepsReminded(before: map<TaskId, Task>, after: map<TaskId, Task>, id: LoanId, payday: ValidDate)
    requires Reminded(before, id, payday) && Keeps(before, after)
    ensures Reminded(after, id, payday)
  {
    hide Ordinal, RemindedOn;
    AddingKeepsReminder(before, after, id, Ordinal(payday) - 5);
    AddingKeepsReminder(before, after, id, Ordinal(payday) - 1);
  }

  lemma RemindsRows(before: map<TaskId, Task>, after: map<TaskId, Task>, id: LoanId, payday: ValidDate)
    requires OnlyRemindsOf(before, after, id, payday)
    ensures forall t :: t in before ==> t in after && after[t] == before[t]
    ensures forall t :: t in after && t !in before ==>
              && after[t].payload.Notice? && after[t].payload.owner == id && after[t].payload.topic == "payment_reminder"
              && !after[t].processed && after[t].repeat == 0
              && LocalDay(after[t].runDate) in {Ordinal(payday) - 5, Ordinal(payday) - 1}
  {
    hide LocalDay, Ordinal, PendingOn;
  }

  lemma RemindingKeeps(before: map<TaskId, Task>, after: map<TaskId, Task>, id: LoanId, payday: ValidDate)
    requires OnlyRemindsOf(before, after, id, payday)
    ensures Keeps(before, after)
  {}

  /** The dedupe adds a reminder only where none of its loan is pending that day. */
  lemma OneReminder(rows: map<TaskId, Task>, next: TaskId, day: ValidDate, id: LoanId, payday: ValidDate)
    requires next !in rows && ReminderDay(Ordinal(day), payday)
    ensures OnlyRemindsOf(rows, Scheduled(rows, next, day, Notice(PAYMENT_REMINDER, id, ""), NONE), id, payday)
  {
    hide Ordinal, LocalDay;
    MidnightFallsOnItsDay(day);
  }

  /** A new reminder stays the only one of its loan and day when another new one is added. */
  lemma StaysNew(between: map<TaskId, Task>, after: map<TaskId, Task>, t: TaskId)
    requires Keeps(between, after) && t in between && IsNewReminder(between, t)
    requires forall u :: u in after && u !in between ==> IsNewReminder(after, u)
    ensures IsNewReminder(after, t)
  {
    hide LocalDay;
    var owner, day := OwnerOf(after[t]), LocalDay(after[t].runDate);
    forall u | u in after && u != t
      ensures !PendingOn(after[u], owner, PAYMENT_REMINDER, day)
    {
      if u in between {
        assert !PendingOn(between[u], owner, PAYMENT_REMINDER, day);
      } else {
        assert !PendingOn(after[t], after[u].payload.owner, PAYMENT_REMINDER, LocalDay(after[u].runDate));
      }
    }
  }

  lemma RemindersAdd(before: map<TaskId, Task>, between: map<TaskId, Task>, after: map<TaskId, Task>, id: LoanId,
                     payday: ValidDate)
    requires OnlyRemindsOf(before, between, id, payday) && OnlyRemindsOf(between, after, id, payday)
    ensures OnlyRemindsOf(before, after, id, payday)
  {
    hide IsNewReminder, LocalDay, ReminderDay;
    forall t | t in after && t !in before
      ensures IsNewReminder(after, t) && OwnerOf(after[t]) == id && ReminderDay(LocalDay(after[t].runDate), payday)
    {
      if t in between { StaysNew(between, after, t); }
    }
  }

  /** One line more: what its loan is reminded of is called for. */
  lemma LineAdds(before: map<TaskId, Task>, between: map<TaskId, Task>, after: map<TaskId, Task>,
                 details: map<DetailId, Detail>, file: seq<Line>, line: Line)
    requires OnlyAddsCalled(before, between, details, file) && line.Line?
    requires var id := FileId(line.rawId);
             if id >= 0 && FirstDetail(details, id).Some? then OnlyRemindsOf(between, after, id, line.figures.paydayLimit)
             else after == between
    ensures OnlyAddsCalled(before, after, details, file + [line])
  {
    hide IsNewReminder, LocalDay, ReminderDay, FirstDetail;
    forall t | t in after && t !in before
      ensures IsNewReminder(after, t)
      ensures CalledFor(details, file + [line], OwnerOf(after[t]), LocalDay(after[t].runDate))
    {
      if t in between {
        if after != between { StaysNew(between, after, t); }
        CalledForMore(details, file, line, OwnerOf(after[t]), LocalDay(after[t].runDate));
      } else {
        assert Names((file + [line])[|file|], FileId(line.rawId));
      }
    }
  }

  lemma CalledForMore(details: map<DetailId, Detail>, file: seq<Line>, line: Line, id: LoanId, day: int)
    requires CalledFor(details, file, id, day)
    ensures CalledFor(details, file + [line], id, day)
  {
    hide FirstDetail, ReminderDay;
    var i :| 0 <= i < |file| && Names(file[i], id) && FirstDetail(details, id).Some?
             && ReminderDay(day, file[i].figures.paydayLimit);
    assert (file + [line])[i] == file[i];
  }

  lemma EmptyFile(details: map<DetailId, Detail>, rows: map<TaskId, Task>)
    ensures WithFigures(details, []) == details && OnlyAddsCalled(rows, rows, details, []) && LinesReminded(details, [], rows)
    ensures Keeps(rows, rows)
  {}

  /** With at most one detail a loan, rewriting the first is rewriting the loan's. */
  lemma OneMoreLine(db: Db, file: seq<Line>, line: Line, after: map<DetailId, Detail>)
    requires DetailsOk(db) && line.Line?
    requires var id := FileId(line.rawId);
             var now := WithFigures(db.details, file);
             after == if id >= 0 && FirstDetail(now, id).Some? then now[FirstDetail(now, id).value := Detail(id, line.figures)]
                      else now
    ensures after == WithFigures(db.details, file + [line])
  {
    var id, now, last := FileId(line.rawId), WithFigures(db.details, file), WithFigures(db.details, file + [line]);
    assert (file + [line])[..|file|] == file;
    forall d | d in db.details
      ensures after[d] == last[d]
    {
      if db.details[d].loanId == id {
        assert IsDetailOf(now, d, id);
        var first := FirstDetail(now, id).value;
        assert IsDetailOf(db.details, d, id) && IsDetailOf(db.details, first, id);
      }
    }
  }

  lemma SameOwners(details: map<DetailId, Detail>, file: seq<Line>, id: LoanId)
    ensures FirstDetail(WithFigures(details, file), id) == FirstDetail(details, id)
  {
    assert forall d :: IsDetailOf(WithFigures(details, file), d, id) <==> IsDetailOf(details, d, id);
  }

  /** One line later. */
  lemma LineApplied(db: Db, file: seq<Line>, line: Line, after: map<DetailId, Detail>,
                    rows0: map<TaskId, Task>, rows1: map<TaskId, Task>, rows: map<TaskId, Task>)
    requires DbOk(db) && line.Line?
    requires var id := FileId(line.rawId);
             var now := WithFigures(db.details, file);
             if id >= 0 && FirstDetail(now, id).Some? then
               after == now[FirstDetail(now, id).value := Detail(id, line.figures)]
               && OnlyRemindsOf(rows1, rows, id, line.figures.paydayLimit) && Reminded(rows, id, line.figures.paydayLimit)
             else after == now && rows == rows1
    requires OnlyAddsCalled(rows0, rows1, db.details, file) && LinesReminded(db.details, file, rows1)
    ensures after == WithFigures(db.details, file + [line])
    ensures OnlyAddsCalled(rows0, rows, db.details, file + [line]) && LinesReminded(db.details, file + [line], rows)
    ensures Keeps(rows0, rows)
  {
    OneMoreLine(db, file, line, after);
    if FileId(line.rawId) >= 0 { SameOwners(db.details, file, FileId(line.rawId)); }
    hide Reminded, WithFigures, FirstDetail, DbOk, CalledFor, IsNewReminder, ReminderDay, LocalDay;
    LineAdds(rows0, rows1, rows, db.details, file, line);
    forall i, id: LoanId | 0 <= i < |file + [line]| && Names((file + [line])[i], id) && FirstDetail(db.details, id).Some?
      ensures Reminded(rows, id, (file + [line])[i].figures.paydayLimit)
    {
      if i < |file| {
        assert Names(file[i], id);
        AddingKeepsReminded(rows1, rows, id, file[i].figures.paydayLimit);
      } else {
        SameOwners(db.details, file, id);
      }
    }
  }

  lemma NothingClosed(loans: map<LoanId, Loan>, rows: map<TaskId, Task>)
    ensures WithClosed(loans, []) == loans && WithoutReminders(rows, []) == rows
  {}

  lemma UnlistedStep(list: seq<LoanId>, k: nat, ids: seq<int>)
    requires k < |list|
    ensures Unlisted(list[..k + 1], ids) ==
            if list[k] in ids then Unlisted(list[..k], ids) else Unlisted(list[..k], ids) + [list[k]]
  {
    assert list[..k + 1][..k] == list[..k];
  }

  lemma {:induction false} UnlistedMembers(list: seq<LoanId>, ids: seq<int>)
    ensures forall k :: k in Unlisted(list, ids) <==> k in list && k !in ids
  {
    if list != [] {
      var n := |list| - 1;
      UnlistedMembers(list[..n], ids);
      assert list == list[..n] + [list[n]];
    }
  }

  lemma {:induction false} UnlistedDescends(loans: map<LoanId, Loan>, list: seq<LoanId>, ids: seq<int>)
    requires Descending(loans, list)
    ensures Descending(loans, Unlisted(list, ids))
  {
    if list != [] {
      var n := |list| - 1;
      UnlistedDescends(loans, list[..n], ids);
      UnlistedMembers(list[..n], ids);
      var rest := Unlisted(list[..n], ids);
      forall i | 0 <= i < |rest|
        ensures Above(rest[i], loans[rest[i]], list[n], loans[list[n]])
      {
        assert rest[i] in list[..n];
      }
    }
  }

  lemma UnlistedIsToClose(loans: map<LoanId, Loan>, list: seq<LoanId>, ids: seq<int>)
    requires ToClose(loans, {}, list)
    ensures ToClose(loans, Shielded(loans, ids), Unlisted(list, ids))
  {
    UnlistedMembers(list, ids);
    UnlistedDescends(loans, list, ids);
    var closed := Unlisted(list, ids);
    assert forall i :: 0 <= i < |closed| ==> closed[i] in closed;
  }

  /** A loan further down the listing has not been closed yet. */
  lemma StillApproved(loans: map<LoanId, Loan>, list: seq<LoanId>, k: nat, ids: seq<int>)
    requires ToClose(loans, {}, list) && k < |list|
    ensures list[k] in loans && list[k] !in Unlisted(list[..k], ids)
    ensures WithClosed(loans, Unlisted(list[..k], ids))[list[k]].state == APPROVED
    ensures AnswerAlone(WithClosed(loans, Unlisted(list[..k], ids)), list[k], PAID_OUT) == Accepted
  {
    UnlistedMembers(list[..k], ids);
  }

  lemma PayOutIsClosing(db: Db, id: LoanId, spare: DetailId)
    requires id in db.loans && (db.loans[id].prev.Some? ==> db.loans[id].prev.value in db.loans)
    ensures Transition(db, id, PAID_OUT, spare).loans == db.loans[id := db.loans[id].(state := PAID_OUT)]
    ensures Transition(db, id, PAID_OUT, spare).details == db.details
  {}

  lemma ClosedOneMore(loans: map<LoanId, Loan>, closed: seq<LoanId>, id: LoanId)
    requires id in loans && id !in closed
    ensures var now := WithClosed(loans, closed);
            now[id := now[id].(state := PAID_OUT)] == WithClosed(loans, closed + [id])
  {}

  lemma ReminderlessOneMore(rows: map<TaskId, Task>, closed: seq<LoanId>, id: LoanId)
    ensures WithoutNotices(WithoutReminders(rows, closed), id, PAYMENT_REMINDER) == WithoutReminders(rows, closed + [id])
  {}

  /** Rewriting figures keeps the tables sound. */
  lemma FiguresKeepValid(db: Db, file: seq<Line>, next: DetailId)
    requires DbOk(db)
    requires forall d :: d in db.details ==> d < next && db.details[d].loanId in db.loans
    ensures var after := WithFigures(db.details, file);
            && DbOk(db.(details := after))
            && forall d :: d in after ==> d < next && after[d].loanId in db.loans
  {
    var after := WithFigures(db.details, file);
    assert forall d, id :: IsDetailOf(after, d, id) <==> IsDetailOf(db.details, d, id);
    forall id | id in db.loans && db.loans[id].state == APPROVED
      ensures FirstDetail(after, id).Some?
    {
      assert IsDetailOf(after, FirstDetail(db.details, id).value, id);
    }
  }

  /** Clearing the closed loans' reminders leaves those of the listed loans. */
  lemma RemindersSurvive(loans: map<LoanId, Loan>, details: map<DetailId, Detail>, file: seq<Line>, closed: seq<LoanId>,
                         before: map<TaskId, Task>, rows: map<TaskId, Task>)
    requires ToClose(loans, ListedLoans(loans, file), closed)
    requires OnlyAddsCalled(before, rows, details, file) && LinesReminded(details, file, rows)
    ensures UploadReminds(details, file, closed, before, WithoutReminders(rows, closed))
  {
    hide FirstDetail, LocalDay, CalledFor, Descending, PendingOn, IsNewReminder;
    var after := WithoutReminders(rows, closed);
    forall t | t in rows && IsNewReminder(rows, t) && t in after
      ensures IsNewReminder(after, t)
    {
      StillTheOnlyOne(rows, closed, t);
    }
    forall i, id: LoanId | 0 <= i < |file| && Names(file[i], id) && FirstDetail(details, id).Some?
      ensures Reminded(after, id, file[i].figures.paydayLimit)
    {
      assert Listed(file, id) && id !in closed;
      var day := Ordinal(file[i].figures.paydayLimit);
      assert Reminded(rows, id, file[i].figures.paydayLimit);
      ReminderKept(rows, closed, id, day - 5);
      ReminderKept(rows, closed, id, day - 1);
    }
  }

  lemma StillTheOnlyOne(rows: map<TaskId, Task>, closed: seq<LoanId>, t: TaskId)
    requires t in rows && IsNewReminder(rows, t) && t in WithoutReminders(rows, closed)
    ensures IsNewReminder(WithoutReminders(rows, closed), t)
  {
    hide LocalDay, PendingOn;
  }

  lemma ReminderKept(rows: map<TaskId, Task>, closed: seq<LoanId>, id: LoanId, day: int)
    requires RemindedOn(rows, id, day) && id !in closed
    ensures RemindedOn(WithoutReminders(rows, closed), id, day)
  {
    var t :| t in rows && PendingOn(rows[t], id, PAYMENT_REMINDER, day);
    assert PendingOn(WithoutReminders(rows, closed)[t], id, PAYMENT_REMINDER, day);
  }

  lemma ClosedRows(loans: map<LoanId, Loan>, file: seq<Line>, closed: seq<LoanId>)
    requires ToClose(loans, ListedLoans(loans, file), closed)
    ensures WithClosed(loans, closed).Keys == loans.Keys
    ensures forall k :: k in loans ==>
              WithClosed(loans, closed)[k] ==
              if loans[k].state == 1 && !Listed(file, k) then loans[k].(state := 3) else loans[k]
  {}

  /** What the treasurer relies on: after a committed upload the approved loans are exactly those
      approved before that the file lists. */
  lemma ApprovedAfterUpload(loans: map<LoanId, Loan>, file: seq<Line>, closed: seq<LoanId>)
    requires ToClose(loans, ListedLoans(loans, file), closed)
    ensures forall id: LoanId :: (id in WithClosed(loans, closed) && WithClosed(loans, closed)[id].state == APPROVED)
              <==> (id in loans && loans[id].state == APPROVED && Listed(file, id))
    ensures forall id: LoanId :: id in closed <==> id in loans && loans[id].state == APPROVED && !Listed(file, id)
  {}

  /** The statements of a transition, taken together. */
  lemma AllOfTransition(db: Db, id: LoanId, target: int, spare: DetailId, after: Db)
    requires DbOk(db) && id in db.loans && Legal(db.loans[id].state, target) && spare !in db.details
    requires db.loans[id].prev.Some? ==> db.loans[id].prev.value in db.loans && db.loans[id].prev.value < id
    requires target == APPROVED ==> ApprovalFigures(db.loans[id].terms).Some?
    requires after.loans == AfterTransition(db.loans, id, target)
    requires after.details == if target != APPROVED then db.details
                              else var row := Detail(id, ApprovalFigures(db.loans[id].terms).value);
                                match FirstDetail(db.details, id)
                                case Some(d) => db.details[d := row]
                                case None => db.details[spare := row]
    ensures after == Transition(db, id, target, spare) && DbOk(after)
    ensures after.loans.Keys == db.loans.Keys
    ensures forall d :: d in after.details ==>
              if d in db.details then after.details[d].loanId == db.details[d].loanId
              else target == APPROVED && FirstDetail(db.details, id).None? && d == spare && after.details[d].loanId == id
  {
    hide ApprovalFigures, DbOk;
    assert after.loans == db.loans + WrittenLoans(db.loans, id, target);
    assert after.details == db.details + WrittenDetails(db, id, target, spare);
    TransitionKeepsDbOk(db, id, target, spare);
  }

  function AfterTransition(loans: map<LoanId, Loan>, id: LoanId, target: int): map<LoanId, Loan>
    requires id in loans && (loans[id].prev.Some? ==> loans[id].prev.value in loans)
  {
    var own := loans[id := loans[id].(state := target)];
    match loans[id].prev
    case None => own
    case Some(p) =>
      if target == APPROVED then own[p := own[p].(state := PAID_OUT)]
      else if target == DENIED then own[p := own[p].(refinanced := None)]
      else own
  }

  lemma PreviousIsThere(db: Db, id: LoanId)
    requires DbOk(db) && id in db.loans
    ensures db.loans[id].prev.Some? ==> db.loans[id].prev.value in db.loans && db.loans[id].prev.value < id
  {}
}
