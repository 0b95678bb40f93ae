/** One pass of the scheduler, row by row (`src/scheduler/scheduler.runner.ts`): what becomes of each row dated
    today or before, of every other row, of the counters and of the accounts. */
module PassRows {
  import opened Calendar
  import opened SchedulerTasks
  import opened SavingAccounts
  import opened SchedulerRunner

  /** Dated today or before, and not done. */
  predicate Waiting(x: map<TaskId, Task>, id: TaskId, today: int) {
    id in x && !x[id].processed && LocalDay(x[id].runDate) <= today
  }

  /** The executer throws: its own call does, or it is a close row that names no account there is. */
  predicate Throwing(id: TaskId, t: Task, accounts: set<AccountId>, w: World) {
    (id in w.outcome && w.outcome[id].Throws?)
    || (t.kind == 1 && (!t.payload.CloseAccount? || t.payload.account !in accounts))
  }

  lemma DueIdsExactly(x: map<TaskId, Task>, today: int)
    ensures DueIds(x, today) == set id | id in x && Waiting(x, id, today)
  {
    hide LocalDay;
  }

  /** A row that is done, or dated after today, is left alone. */
  lemma OthersUntouched(x: map<TaskId, Task>, before: map<AccountId, Account>, w: World, today: int, s: Summary,
                        y: map<TaskId, Task>, accounts: map<AccountId, Account>, parent: map<TaskId, TaskId>, id: TaskId)
    requires Progress(x, before, w, DueIds(x, today), s, y, accounts, parent) && id in x
    requires x[id].processed || LocalDay(x[id].runDate) > today
    ensures id in y && y[id] == x[id] && forall c :: c in parent ==> parent[c] != id
  {
    hide LocalDay, FateOf, EndsProcessed, Clones, CloneOf, Counts;
  }

  lemma FateExactly(id: TaskId, t: Task, accounts: set<AccountId>, w: World)
    ensures EndsProcessed(FateOf(id, t, accounts, w)) <==>
              t.kind in {0, 1} && (id in w.taken || !Throwing(id, t, accounts, w) || id in w.releaseFails)
    ensures FateOf(id, t, accounts, w).Ran? <==> t.kind in {0, 1} && id !in w.taken && !Throwing(id, t, accounts, w)
    ensures Clones(id, t, accounts, w) <==>
              t.kind in {0, 1} && id !in w.taken && !Throwing(id, t, accounts, w) && 1 <= t.repeat <= 4 && id !in w.cloneFails
  {}

  /** Every row dated today or before and not done: an unknown type is not consumed; a row taken by another
      runner is done; one whose executer throws is unprocessed again unless the release fails; any other is
      done, and its account closed if it is a close row. Only `processed` changes. */
  lemma WaitingRowsFate(x: map<TaskId, Task>, before: map<AccountId, Account>, w: World, today: int, s: Summary,
                        y: map<TaskId, Task>, accounts: map<AccountId, Account>, parent: map<TaskId, TaskId>, id: TaskId)
    requires Progress(x, before, w, DueIds(x, today), s, y, accounts, parent) && Waiting(x, id, today)
    ensures var t := x[id];
            && id in y && y[id] == t.(processed := y[id].processed)
            && (t.kind !in {0, 1} ==> !y[id].processed)
            && (t.kind in {0, 1} && id in w.taken ==> y[id].processed)
            && (t.kind in {0, 1} && id !in w.taken && Throwing(id, t, before.Keys, w) ==>
                  (y[id].processed <==> id in w.releaseFails))
            && (t.kind in {0, 1} && id !in w.taken && !Throwing(id, t, before.Keys, w) ==>
                  y[id].processed
                  && (t.kind == 1 ==> t.payload.account in accounts && !accounts[t.payload.account].active))
  {
    FateExactly(id, x[id], before.Keys, w);
    RowAfter(x, before, w, today, s, y, accounts, parent, id);
    hide LocalDay, Clones, Progress, FateOf, EndsProcessed;
    if x[id].kind == 1 && FateOf(id, x[id], before.Keys, w).Ran? {
      ClosesItsAccount(x, before, w, today, s, y, accounts, parent, id);
    }
  }

  lemma RowAfter(x: map<TaskId, Task>, before: map<AccountId, Account>, w: World, today: int, s: Summary,
                 y: map<TaskId, Task>, accounts: map<AccountId, Account>, parent: map<TaskId, TaskId>, id: TaskId)
    requires Progress(x, before, w, DueIds(x, today), s, y, accounts, parent) && Waiting(x, id, today)
    ensures id in y && y[id] == x[id].(processed := EndsProcessed(FateOf(id, x[id], before.Keys, w)))
  {
    assert id in DueIds(x, today);
    hide LocalDay, FateOf, EndsProcessed, Clones, ClonesAfter, Counts, DueIds, ClosedIn;
  }

  lemma ClosesItsAccount(x: map<TaskId, Task>, before: map<AccountId, Account>, w: World, today: int, s: Summary,
                         y: map<TaskId, Task>, accounts: map<AccountId, Account>, parent: map<TaskId, TaskId>, id: TaskId)
    requires Progress(x, before, w, DueIds(x, today), s, y, accounts, parent) && Waiting(x, id, today)
    requires x[id].kind == 1 && FateOf(id, x[id], before.Keys, w).Ran?
    ensures x[id].payload.CloseAccount? && x[id].payload.account in accounts && !accounts[x[id].payload.account].active
  {
    RunsWithAccount(id, x[id], before.Keys, w);
    assert id in DueIds(x, today);
    hide LocalDay, FateOf, After, Counts, DueIds;
    assert x[id].payload.account in ClosedIn(x, before.Keys, w, DueIds(x, today));
  }

  lemma RunsWithAccount(id: TaskId, t: Task, accounts: set<AccountId>, w: World)
    requires t.kind == 1 && FateOf(id, t, accounts, w).Ran?
    ensures t.payload.CloseAccount? && t.payload.account in accounts
  {}

  /** And its clone: one fresh unprocessed copy at the next occurrence if the row ran, repeats, and the insert
      did not fail; none otherwise. */
  lemma WaitingRowsClone(x: map<TaskId, Task>, before: map<AccountId, Account>, w: World, today: int, s: Summary,
                         y: map<TaskId, Task>, accounts: map<AccountId, Account>, parent: map<TaskId, TaskId>, id: TaskId)
    requires Progress(x, before, w, DueIds(x, today), s, y, accounts, parent) && Waiting(x, id, today)
    ensures var t := x[id];
            (exists c :: c in parent && parent[c] == id)
            <==> t.kind in {0, 1} && id !in w.taken && !Throwing(id, t, before.Keys, w) && 1 <= t.repeat <= 4
                 && id !in w.cloneFails
    ensures forall c :: c in parent && parent[c] == id ==>
              1 <= x[id].repeat <= 4 && c !in x && c in y
              && y[c] == Task(x[id].kind, NextRepeat(x[id].runDate, x[id].repeat), x[id].repeat, x[id].payload, false)
  {
    FateExactly(id, x[id], before.Keys, w);
    ClonesOfRow(x, before, w, today, s, y, accounts, parent, id);
    hide LocalDay, Clones, Progress, FateOf, EndsProcessed, NextRepeat;
  }

  lemma ClonesOfRow(x: map<TaskId, Task>, before: map<AccountId, Account>, w: World, today: int, s: Summary,
                    y: map<TaskId, Task>, accounts: map<AccountId, Account>, parent: map<TaskId, TaskId>, id: TaskId)
    requires Progress(x, before, w, DueIds(x, today), s, y, accounts, parent) && Waiting(x, id, today)
    ensures (exists c :: c in parent && parent[c] == id) <==> Clones(id, x[id], before.Keys, w)
    ensures forall c :: c in parent && parent[c] == id ==>
              Repeats(x[id].repeat) && c !in x && c in y
              && y[c] == x[id].(runDate := NextRepeat(x[id].runDate, x[id].repeat), processed := false)
  {
    assert id in DueIds(x, today);
    hide LocalDay, NextRepeat, FateOf, EndsProcessed, RowsAfter, Counts, DueIds, ClosedIn;
    assert forall c :: c in parent ==> c in parent.Keys && c !in x.Keys;
    if Clones(id, x[id], before.Keys, w) {
      assert id in parent.Values;
      var c :| c in parent && parent[c] == id;
    }
  }

  /** No rows appear but clones, and none disappear. */
  lemma OnlyClonesAppear(x: map<TaskId, Task>, before: map<AccountId, Account>, w: World, today: int, s: Summary,
                         y: map<TaskId, Task>, accounts: map<AccountId, Account>, parent: map<TaskId, TaskId>)
    requires Progress(x, before, w, DueIds(x, today), s, y, accounts, parent)
    ensures forall id :: id in y <==> id in x || id in parent
    ensures forall c :: c in parent ==> Waiting(x, parent[c], today)
    ensures forall c, d :: c in parent && d in parent && parent[c] == parent[d] ==> c == d
  {
    hide LocalDay, FateOf, EndsProcessed, Clones, CloneOf, Counts;
    assert forall id :: id in y <==> id in y.Keys;
  }

  // ---------------------------------------------------------------------
  // The counters
  // ---------------------------------------------------------------------

  lemma CountedExactly(id: TaskId, t: Task, accounts: set<AccountId>, w: World)
    ensures FateOf(id, t, accounts, w).Taken? <==> t.kind in {0, 1} && id in w.taken
    ensures FateOf(id, t, accounts, w) == Ran(false) <==>
              t.kind == 0 && id !in w.taken && id in w.outcome && w.outcome[id] == Returns(false)
    ensures Errs(id, t, accounts, w) <==>
              t.kind !in {0, 1}
              || (id !in w.taken
                  && (Throwing(id, t, accounts, w) || (t.repeat != 0 && (t.repeat < 1 || t.repeat > 4 || id in w.cloneFails))))
  {}

  /** Loaded: the rows dated today or before and not done. Skipped: those taken by another runner. Processed:
      those whose executer returns; failed delivery: the notifications among them that report it. */
  lemma CountersExactly(x: map<TaskId, Task>, before: map<AccountId, Account>, w: World, today: int, s: Summary,
                        y: map<TaskId, Task>, accounts: map<AccountId, Account>, parent: map<TaskId, TaskId>)
    requires Progress(x, before, w, DueIds(x, today), s, y, accounts, parent) && s.loaded == |DueIds(x, today)|
    ensures s.loaded == |set id | id in x && Waiting(x, id, today)|
    ensures s.skippedClaimed == |set id | id in x && Waiting(x, id, today) && x[id].kind in {0, 1} && id in w.taken|
    ensures s.processed == |set id | id in x && Waiting(x, id, today) && x[id].kind in {0, 1} && id !in w.taken
                                     && !Throwing(id, x[id], before.Keys, w)|
    ensures s.failedDelivery == |set id | id in x && Waiting(x, id, today) && x[id].kind == 0 && id !in w.taken
                                          && id in w.outcome && w.outcome[id] == Returns(false)|
  {
    DueIdsExactly(x, today);
    hide LocalDay, FateOf, After, Throwing, DueIds, Errs, Waiting;
    var keys, due := before.Keys, DueIds(x, today);
    forall id | id in x
      ensures HasRun(keys, w)(id, x[id]) <==> x[id].kind in {0, 1} && id !in w.taken && !Throwing(id, x[id], keys, w)
      ensures WasTaken(keys, w)(id, x[id]) <==> x[id].kind in {0, 1} && id in w.taken
      ensures Undelivered(keys, w)(id, x[id]) <==>
                x[id].kind == 0 && id !in w.taken && id in w.outcome && w.outcome[id] == Returns(false)
    {
      FateExactly(id, x[id], keys, w);
      CountedExactly(id, x[id], keys, w);
    }
    assert due == set id | id in x && Waiting(x, id, today);
    assert Where(x, due, WasTaken(keys, w)) ==
           set id | id in x && Waiting(x, id, today) && x[id].kind in {0, 1} && id in w.taken;
    assert Where(x, due, HasRun(keys, w)) ==
           set id | id in x && Waiting(x, id, today) && x[id].kind in {0, 1} && id !in w.taken && !Throwing(id, x[id], keys, w);
    assert Where(x, due, Undelivered(keys, w)) ==
           set id | id in x && Waiting(x, id, today) && x[id].kind == 0 && id !in w.taken
                    && id in w.outcome && w.outcome[id] == Returns(false);
  }

  /** Errored: unknown types, executers that throw, and rows that ran but whose repetition is outside the table
      or could not be inserted. Cloned: one for each row that ran and repeats and could. */
  lemma ErrorsExactly(x: map<TaskId, Task>, before: map<AccountId, Account>, w: World, today: int, s: Summary,
                      y: map<TaskId, Task>, accounts: map<AccountId, Account>, parent: map<TaskId, TaskId>)
    requires Progress(x, before, w, DueIds(x, today), s, y, accounts, parent)
    ensures s.errored == |set id | id in x && Waiting(x, id, today)
                                   && (x[id].kind !in {0, 1}
                                       || (id !in w.taken
                                           && (Throwing(id, x[id], before.Keys, w)
                                               || (x[id].repeat != 0
                                                   && (x[id].repeat < 1 || x[id].repeat > 4 || id in w.cloneFails)))))|
    ensures s.cloned == |parent|
  {
    DueIdsExactly(x, today);
    hide LocalDay, FateOf, After, Throwing, DueIds, Errs, Waiting;
    var keys, due := before.Keys, DueIds(x, today);
    forall id | id in x
      ensures HasErred(keys, w)(id, x[id]) <==>
                x[id].kind !in {0, 1}
                || (id !in w.taken
                    && (Throwing(id, x[id], keys, w)
                        || (x[id].repeat != 0 && (x[id].repeat < 1 || x[id].repeat > 4 || id in w.cloneFails))))
    {
      CountedExactly(id, x[id], keys, w);
    }
    assert Where(x, due, HasErred(keys, w)) ==
           set id | id in x && Waiting(x, id, today)
                    && (x[id].kind !in {0, 1}
                        || (id !in w.taken
                            && (Throwing(id, x[id], keys, w)
                                || (x[id].repeat != 0 && (x[id].repeat < 1 || x[id].repeat > 4 || id in w.cloneFails)))));
  }

  // ---------------------------------------------------------------------
  // The accounts
  // ---------------------------------------------------------------------

  /** A close row of this account that the pass runs. */
  predicate ClosesIt(x: map<TaskId, Task>, w: World, today: int, id: TaskId, k: AccountId) {
    Waiting(x, id, today) && x[id].kind == 1 && x[id].payload == CloseAccount(k)
    && id !in w.taken && !(id in w.outcome && w.outcome[id].Throws?)
  }

  /** An account is closed by a pass exactly when it was open and the pass runs a close row of it; nothing else
      of any account changes. */
  lemma AccountsExactly(x: map<TaskId, Task>, before: map<AccountId, Account>, w: World, today: int, s: Summary,
                        y: map<TaskId, Task>, accounts: map<AccountId, Account>, parent: map<TaskId, TaskId>, k: AccountId)
    requires Progress(x, before, w, DueIds(x, today), s, y, accounts, parent) && k in before
    ensures accounts.Keys == before.Keys && accounts[k] == before[k].(active := accounts[k].active)
    ensures accounts[k].active <==> before[k].active && forall id :: !ClosesIt(x, w, today, id, k)
  {
    DueIdsExactly(x, today);
    hide LocalDay, FateOf, After, Counts, DueIds;
    var closed := ClosedIn(x, before.Keys, w, DueIds(x, today));
    forall id
      ensures ClosesIt(x, w, today, id, k) <==>
                id in DueIds(x, today) && id in x && x[id].kind == 1 && x[id].payload == CloseAccount(k)
                && FateOf(id, x[id], before.Keys, w).Ran?
    {
      if id in x { FateExactly(id, x[id], before.Keys, w); }
    }
    if id :| ClosesIt(x, w, today, id, k) { assert x[id].payload.account in closed; }
  }

  /** A failure-free pass closes on its own day: an account whose end date is today or before and that has a
      close row not done is closed, and none whose end date is to come. */
  lemma ClosesOnTheDay(x: map<TaskId, Task>, before: map<AccountId, Account>, w: World, today: int, s: Summary,
                       y: map<TaskId, Task>, accounts: map<AccountId, Account>, parent: map<TaskId, TaskId>, k: AccountId)
    requires Progress(x, before, w, DueIds(x, today), s, y, accounts, parent) && k in before
    requires ClosesScheduled(x, before)
    ensures k in accounts
    ensures Ordinal(before[k].endDate) > today ==> accounts[k] == before[k]
    ensures Calm(w) && Ordinal(before[k].endDate) <= today
            && (exists id :: id in x && x[id].kind == 1 && x[id].payload == CloseAccount(k) && !x[id].processed)
            ==> !accounts[k].active
  {
    hide LocalDay, Ordinal, Progress;
    AccountsExactly(x, before, w, today, s, y, accounts, parent, k);
    if Ordinal(before[k].endDate) > today {
      assert forall id :: id in x && x[id].kind == 1 && x[id].payload == CloseAccount(k) ==> LocalDay(x[id].runDate) > today;
    } else if Calm(w) {
      if id :| id in x && x[id].kind == 1 && x[id].payload == CloseAccount(k) && !x[id].processed {
        assert ClosesIt(x, w, today, id, k);
      }
    }
  }

}
