/** Term saving accounts (CAPs) and the task that closes each on its end date
    (`src/saving-accounts/saving-account.service.ts`). */
module SavingAccounts {
  import opened Calendar
  import opened SchedulerTasks

  type AccountId = nat

  datatype Account = Account(owner: nat, endDate: ValidDate, active: bool, value: int)

  datatype CloseResult = Closed | AlreadyClosed | Missing

  predicate Names(t: Task, account: AccountId) {
    t.kind == CLOSE_SAVING_ACCOUNT && t.payload == CloseAccount(account)
  }

  predicate Overdue(a: Account, today: int) {
    a.active && Ordinal(a.endDate) < today
  }

  function Closing(accounts: map<AccountId, Account>, ids: set<AccountId>): map<AccountId, Account> {
    map k | k in accounts :: if k in ids then accounts[k].(active := false) else accounts[k]
  }

  /** Every close task names an account, and is due on its end date. */
  ghost predicate ClosesScheduled(rows: map<TaskId, Task>, accounts: map<AccountId, Account>) {
    forall id :: id in rows && rows[id].kind == CLOSE_SAVING_ACCOUNT ==>
      && rows[id].payload.CloseAccount? && rows[id].repeat == NONE
      && (rows[id].payload.account in accounts ==>
            LocalDay(rows[id].runDate) == Ordinal(accounts[rows[id].payload.account].endDate))
  }

  class SavingAccountService {
    var accounts: map<AccountId, Account>
    var nextAccount: AccountId
    const tasks: TaskTable

    ghost predicate Valid()
      reads this, tasks
    {
      && tasks.Valid() && ClosesScheduled(tasks.rows, accounts)
      && (forall id :: id in accounts ==> id < nextAccount)
      && (forall id :: id in tasks.rows && tasks.rows[id].payload.CloseAccount? ==> tasks.rows[id].payload.account < nextAccount)
    }

    /** Over a table in use: accounts already open or closed, their close tasks pending, done or deleted. */
    constructor (table: TaskTable, existing: map<AccountId, Account>, next: AccountId)
      requires table.Valid() && ClosesScheduled(table.rows, existing) && forall id :: id in existing ==> id < next
      requires forall id :: id in table.rows && table.rows[id].payload.CloseAccount? ==> table.rows[id].payload.account < next
      ensures Valid() && tasks == table && accounts == existing && nextAccount == next
    {
      accounts, nextAccount, tasks := existing, next, table;
    }

    /** Not one transaction: when scheduling fails the account stays, with no close task. */
    method CreateAccount(owner: nat, endDate: ValidDate, schedulingFails: bool) returns (id: AccountId, ok: bool)
      requires Valid()
      modifies this, tasks
      ensures Valid() && id !in old(accounts) && ok == !schedulingFails
      ensures accounts == old(accounts)[id := Account(owner, endDate, true, 0)]
      ensures !ok ==> tasks.rows == old(tasks.rows) && forall t :: t in tasks.rows ==> !Names(tasks.rows[t], id)
      ensures ok ==> exists t :: t !in old(tasks.rows) && t in tasks.rows && Names(tasks.rows[t], id)
                                 && LocalDay(tasks.rows[t].runDate) == Ordinal(endDate)
                                 && !tasks.rows[t].processed && tasks.rows[t].repeat == 0
                                 && tasks.rows[t].payload.CloseAccount? && tasks.rows[t].payload.account == id
                                 && tasks.rows == old(tasks.rows)[t := tasks.rows[t]]
    {
      hide LocalDay, Ordinal;
      id := nextAccount;
      accounts, nextAccount := accounts[id := Account(owner, endDate, true, 0)], nextAccount + 1;
      if schedulingFails { return id, false; }
      MidnightFallsOnItsDay(endDate);
      var t := tasks.CreateCloseSavingAccountTask(BogotaMidnight(endDate), id);
      assert t !in old(tasks.rows) && Names(tasks.rows[t], id);
      return id, true;
    }

    /** `UPDATE … SET state = 1 WHERE id = ? AND state = 0`; a rerun is a success, a missing row is not. */
    method CloseAccount(id: AccountId) returns (r: CloseResult)
      modifies `accounts
      ensures r.Missing? <==> id !in old(accounts)
      ensures r.Closed? <==> id in old(accounts) && old(accounts)[id].active
      ensures accounts == Closing(old(accounts), {id})
      ensures forall k :: k in accounts <==> k in old(accounts)
      ensures forall k :: k in accounts && k != id ==> accounts[k] == old(accounts)[k]
      ensures id in accounts ==> accounts[id] == old(accounts)[id].(active := false)
      ensures id in accounts ==> !accounts[id].active
    {
      if id in accounts && accounts[id].active {
        accounts := accounts[id := accounts[id].(active := false)];
        return Closed;
      }
      return if id in accounts then AlreadyClosed else Missing;
    }

    /** The independent check: open accounts whose end date has passed, ascending. */
    method FindUnclosedPastDue(today: int) returns (ids: seq<AccountId>)
      ensures forall id :: id in ids <==> id in accounts && Overdue(accounts[id], today)
      ensures forall id :: id in ids <==> id in accounts && accounts[id].active && Ordinal(accounts[id].endDate) < today
      ensures forall i, j :: 0 <= i < j < |ids| ==> ids[i] < ids[j]
    {
      hide Ordinal;
      ids := [];
      var left := set id | id in accounts && Overdue(accounts[id], today);
      while left != {}
        invariant forall id :: id in accounts && Overdue(accounts[id], today) <==> id in ids || id in left
        invariant forall i, j :: 0 <= i < j < |ids| ==> ids[i] < ids[j]
        invariant forall i, id :: 0 <= i < |ids| && id in left ==> ids[i] < id
        decreases left
      {
        var least := Smallest(left);
        ids := ids + [least];
        left := left - {least};
      }
    }

    static method Smallest(ids: set<AccountId>) returns (least: AccountId)
      requires ids != {}
      ensures least in ids && forall id :: id in ids ==> least <= id
    {
      least :| least in ids;
      var left := ids - {least};
      while left != {}
        invariant left <= ids && least in ids
        invariant forall id :: id in ids && id !in left ==> least <= id
        decreases left
      {
        var id :| id in left;
        left := left - {id};
        if id < least { least := id; }
      }
    }
  }
}
