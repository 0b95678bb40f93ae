/** One pass of the scheduler over its snapshot (`src/scheduler/scheduler.runner.ts`), with the summary
    it logs, the catch-up of past-due chains, and the CAP auto-close that rides on it. */
module SchedulerRunner {
  import opened Calendar
  import opened SchedulerTasks
  import opened SavingAccounts

  datatype Outcome = Returns(ok: bool) | Throws

  /** What the world does during a pass: rows another runner claims first, what each executer's own call
      does, and which releases and clone inserts fail. */
  datatype World = World(
    taken: set<TaskId>,
    outcome: map<TaskId, Outcome>,
    releaseFails: set<TaskId>,
    cloneFails: set<TaskId>)

  predicate Calm(w: World) {
    w.taken == {} && w.releaseFails == {} && w.cloneFails == {} && forall id :: id in w.outcome ==> w.outcome[id].Returns?
  }

  datatype Summary = Summary(loaded: nat, processed: nat, failedDelivery: nat, skippedClaimed: nat, errored: nat, cloned: nat)

  // ---------------------------------------------------------------------
  // What becomes of a due row
  // ---------------------------------------------------------------------

  datatype Fate = Unknown | Taken | Thrown(released: bool) | Ran(ok: bool)

  /** The close executer throws when the payload names no account or the account is gone. */
  predicate CanRun(t: Task, accounts: set<AccountId>) {
    t.kind == CLOSE_SAVING_ACCOUNT ==> t.payload.CloseAccount? && t.payload.account in accounts
  }

  function FateOf(id: TaskId, t: Task, accounts: set<AccountId>, w: World): Fate {
    if !Known(t.kind) then Unknown
    else if id in w.taken then Taken
    else if (id in w.outcome && w.outcome[id].Throws?) || !CanRun(t, accounts) then Thrown(id !in w.releaseFails)
    else Ran(t.kind == CLOSE_SAVING_ACCOUNT || id !in w.outcome || w.outcome[id].ok)
  }

  predicate Clones(id: TaskId, t: Task, accounts: set<AccountId>, w: World) {
    FateOf(id, t, accounts, w).Ran? && Repeats(t.repeat) && id !in w.cloneFails
  }

  /** The row counts as an error: it could not be resolved or threw, or it ran but could not be cloned,
      an unknown repeat included. */
  predicate Errs(id: TaskId, t: Task, accounts: set<AccountId>, w: World) {
    var f := FateOf(id, t, accounts, w);
    f.Unknown? || f.Thrown? || (f.Ran? && t.repeat != NONE && !Clones(id, t, accounts, w))
  }

  predicate EndsProcessed(f: Fate) {
    f.Taken? || f.Ran? || (f.Thrown? && !f.released)
  }

  function CloneOf(t: Task): Task
    requires Repeats(t.repeat)
  {
    t.(runDate := NextRepeat(t.runDate, t.repeat), processed := false)
  }

  // ---------------------------------------------------------------------
  // What a pass leaves behind
  // ---------------------------------------------------------------------

  function DueIds(rows: map<TaskId, Task>, today: int): set<TaskId> {
    set id | id in rows && Due(rows[id], today)
  }

  /** The rows and accounts after the rows `seen` of the snapshot, whose clones `parent` records. */
  ghost predicate After(x: map<TaskId, Task>, y: map<TaskId, Task>, accounts: set<AccountId>, w: World, seen: set<TaskId>,
                        parent: map<TaskId, TaskId>) {
    && RowsAfter(x, y, accounts, w, seen)
    && y.Keys == x.Keys + parent.Keys && x.Keys !! parent.Keys
    && ClonesAfter(x, y, accounts, w, seen, parent)
  }

  ghost predicate RowsAfter(x: map<TaskId, Task>, y: map<TaskId, Task>, accounts: set<AccountId>, w: World, seen: set<TaskId>) {
    forall id :: id in x ==>
      id in y && y[id] == if id in seen && EndsProcessed(FateOf(id, x[id], accounts, w)) then x[id].(processed := true) else x[id]
  }

  /** Every clone is one of a row that runs, no two of the same, and every row that clones has one. */
  ghost predicate ClonesAfter(x: map<TaskId, Task>, y: map<TaskId, Task>, accounts: set<AccountId>, w: World, seen: set<TaskId>,
                              parent: map<TaskId, TaskId>) {
    && (forall c :: c in parent ==> c in y && parent[c] in x && parent[c] in seen && Clones(parent[c], x[parent[c]], accounts, w)
                                    && y[c] == CloneOf(x[parent[c]]))
    && (forall c, d :: c in parent && d in parent && parent[c] == parent[d] ==> c == d)
    && (forall id :: id in x && id in seen && Clones(id, x[id], accounts, w) ==> id in parent.Values)
  }

  function ClosedBy(f: Fate, t: Task): set<AccountId> {
    if f.Ran? && t.kind == CLOSE_SAVING_ACCOUNT && t.payload.CloseAccount? then {t.payload.account} else {}
  }

  function ClosedIn(x: map<TaskId, Task>, accounts: set<AccountId>, w: World, seen: set<TaskId>): set<AccountId> {
    set id | id in seen && id in x && x[id].kind == CLOSE_SAVING_ACCOUNT && x[id].payload.CloseAccount?
             && FateOf(id, x[id], accounts, w).Ran? :: x[id].payload.account
  }

  /** The rows of a snapshot with some property. */
  function Where(x: map<TaskId, Task>, seen: set<TaskId>, p: (TaskId, Task) -> bool): set<TaskId> {
    set id | id in seen && id in x && p(id, x[id])
  }

  function HasRun(accounts: set<AccountId>, w: World): (TaskId, Task) -> bool {
    (id: TaskId, t: Task) => FateOf(id, t, accounts, w).Ran?
  }

  function Undelivered(accounts: set<AccountId>, w: World): (TaskId, Task) -> bool {
    (id: TaskId, t: Task) => FateOf(id, t, accounts, w) == Ran(false)
  }

  function WasTaken(accounts: set<AccountId>, w: World): (TaskId, Task) -> bool {
    (id: TaskId, t: Task) => FateOf(id, t, accounts, w).Taken?
  }

  function HasErred(accounts: set<AccountId>, w: World): (TaskId, Task) -> bool {
    (id: TaskId, t: Task) => Errs(id, t, accounts, w)
  }

  function IsLost(accounts: set<AccountId>, w: World): (TaskId, Task) -> bool {
    (id: TaskId, t: Task) => FateOf(id, t, accounts, w).Taken? || FateOf(id, t, accounts, w) == Thrown(false)
  }

  /** The summary counts each row of the snapshot where it belongs. */
  ghost predicate Counts(s: Summary, x: map<TaskId, Task>, accounts: set<AccountId>, w: World, seen: set<TaskId>,
                         parent: map<TaskId, TaskId>) {
    && s.processed == |Where(x, seen, HasRun(accounts, w))|
    && s.failedDelivery == |Where(x, seen, Undelivered(accounts, w))|
    && s.skippedClaimed == |Where(x, seen, WasTaken(accounts, w))|
    && s.errored == |Where(x, seen, HasErred(accounts, w))|
    && s.cloned == |parent|
  }

  /** Where a pass stands after the rows `seen` of its snapshot. */
  ghost predicate Progress(x: map<TaskId, Task>, before: map<AccountId, Account>, w: World, seen: set<TaskId>, s: Summary,
                           y: map<TaskId, Task>, accounts: map<AccountId, Account>, parent: map<TaskId, TaskId>) {
    && After(x, y, before.Keys, w, seen, parent) && Counts(s, x, before.Keys, w, seen, parent)
    && accounts == Closing(before, ClosedIn(x, before.Keys, w, seen))
  }

  class Runner {
    const tasks: TaskTable
    const service: SavingAccountService

    /** Rows marked processed whose work is not known to be done: their claim was lost. */
    ghost var stranded: set<TaskId>

    ghost predicate Valid()
      reads this, tasks, service
    {
      service.tasks == tasks && service.Valid() && CloseTasksDone(tasks.rows, service.accounts, stranded)
    }

    /** Over a table in use, `lost` being the processed close rows whose work was never done. */
    constructor (accounts: SavingAccountService, ghost lost: set<TaskId>)
      requires accounts.Valid() && CloseTasksDone(accounts.tasks.rows, accounts.accounts, lost)
      ensures Valid() && service == accounts && stranded == lost
    {
      tasks, service, stranded := accounts.tasks, accounts, lost;
    }

    /** The executer of a row: the close executer closes the account it names. */
    method Execute(id: TaskId, t: Task, w: World) returns (outcome: Outcome)
      requires Known(t.kind) && service.tasks == tasks
      modifies service`accounts
      ensures outcome.Throws? <==> (id in w.outcome && w.outcome[id].Throws?) || !CanRun(t, old(service.accounts.Keys))
      ensures outcome.Returns? ==> outcome.ok == (t.kind == CLOSE_SAVING_ACCOUNT || id !in w.outcome || w.outcome[id].ok)
      ensures service.accounts == Closing(old(service.accounts),
                if outcome.Returns? && t.kind == CLOSE_SAVING_ACCOUNT then {t.payload.account} else {})
    {
      if id in w.outcome && w.outcome[id].Throws? { return Throws; }
      if t.kind == NOTIFICATIONS { return if id in w.outcome then w.outcome[id] else Returns(true); }
      if !t.payload.CloseAccount? { return Throws; }
      var r := service.CloseAccount(t.payload.account);
      return if r.Missing? then Throws else Returns(true);
    }

    /** `createRepeatInstance`: NONE clones nothing, a repeat outside the table is refused. */
    method CreateRepeatInstance(id: TaskId, t: Task, w: World) returns (clone: TaskId, cloned: bool, threw: bool)
      requires tasks.Valid()
      modifies tasks
      ensures tasks.Valid()
      ensures cloned <==> Repeats(t.repeat) && id !in w.cloneFails
      ensures threw <==> t.repeat != NONE && !cloned
      ensures cloned ==> clone == old(tasks.nextId) && tasks.rows == old(tasks.rows)[clone := CloneOf(t)]
      ensures !cloned ==> tasks.rows == old(tasks.rows) && tasks.nextId == old(tasks.nextId)
    {
      clone := 0;
      if t.repeat < NONE || t.repeat > YEARLY { return clone, false, true; }
      if t.repeat == NONE { return clone, false, false; }
      var runDate := NextRepeat(t.runDate, t.repeat);
      if id in w.cloneFails { return clone, false, true; }
      clone := tasks.CreateRepeatInstance(t, runDate);
      return clone, true, false;
    }

    /** One row of the snapshot: resolve, claim, execute, then release or clone. */
    method RunTask(id: TaskId, t: Task, w: World) returns (fate: Fate, errored: bool, cloned: bool, clone: TaskId)
      requires tasks.Valid() && service.tasks == tasks && id in tasks.rows && tasks.rows[id] == t && !t.processed
      modifies tasks, service`accounts
      ensures tasks.Valid() && fate == FateOf(id, t, old(service.accounts.Keys), w)
      ensures errored <==> Errs(id, t, old(service.accounts.Keys), w)
      ensures cloned <==> Clones(id, t, old(service.accounts.Keys), w)
      ensures cloned ==> clone !in old(tasks.rows) && Repeats(t.repeat)
      ensures var kept := old(tasks.rows)[id := t.(processed := EndsProcessed(fate))];
              tasks.rows == if cloned then kept[clone := CloneOf(t)] else kept
      ensures service.accounts == Closing(old(service.accounts), ClosedBy(fate, t))
    {
      clone := 0;
      if !Known(t.kind) { return Unknown, true, false, clone; }
      if id in w.taken {
        var rival := tasks.Claim(id);
      }
      var won := tasks.Claim(id);
      if !won { return Taken, false, false, clone; }
      var outcome := Execute(id, t, w);
      if outcome.Throws? {
        if id !in w.releaseFails { tasks.Release(id); }
        return Thrown(id !in w.releaseFails), true, false, clone;
      }
      var threw;
      clone, cloned, threw := CreateRepeatInstance(id, t, w);
      return Ran(outcome.ok), threw, cloned, clone;
    }

    /** The loop of a pass over a snapshot that is still accurate. */
    method ProcessAll(due: seq<DueTask>, today: int, w: World) returns (s: Summary, ghost parent: map<TaskId, TaskId>)
      requires tasks.Valid() && service.tasks == tasks
      requires forall i :: 0 <= i < |due| ==>
                 due[i].id in tasks.rows && due[i].task == tasks.rows[due[i].id] && Due(due[i].task, today)
      requires forall i, j :: 0 <= i < j < |due| ==> due[i].id != due[j].id
      modifies tasks, service`accounts
      ensures tasks.Valid() && s.loaded == |due|
      ensures Progress(old(tasks.rows), old(service.accounts), w, IdsOf(due), s, tasks.rows, service.accounts, parent)
    {
      hide Progress, FateOf, Errs, Clones, EndsProcessed, Due, CloneOf, IdsOf, ClosedBy, Closing;
      ghost var x, before := tasks.rows, service.accounts;
      var k, processed, failedDelivery, skippedClaimed, errored, cloned := 0, 0, 0, 0, 0, 0;
      parent := map[];
      NothingSeen(x, before, w, |due|);
      while k < |due|
        invariant 0 <= k <= |due| && tasks.Valid()
        invariant Progress(x, before, w, IdsOf(due[..k]),
                           Summary(|due|, processed, failedDelivery, skippedClaimed, errored, cloned),
                           tasks.rows, service.accounts, parent)
      {
        var d := due[k];
        NotSeenYet(x, due, k, today);
        ghost var s0, y, accounts := Summary(|due|, processed, failedDelivery, skippedClaimed, errored, cloned), tasks.rows,
                                     service.accounts;
        UnseenUntouched(x, before, w, IdsOf(due[..k]), s0, y, accounts, parent, d.id);
        var fate, erred, copied, clone := RunTask(d.id, d.task, w);
        ghost var grown := if copied then parent[clone := d.id] else parent;
        ProgressStep(x, before, w, IdsOf(due[..k]), s0, y, accounts, parent, d.id, clone, tasks.rows, service.accounts, grown);
        parent := grown;
        if fate.Ran? { processed := processed + 1; }
        if fate == Ran(false) { failedDelivery := failedDelivery + 1; }
        if fate.Taken? { skippedClaimed := skippedClaimed + 1; }
        if erred { errored := errored + 1; }
        if copied { cloned := cloned + 1; }
        k := k + 1;
      }
      assert due[..|due|] == due;
      return Summary(|due|, processed, failedDelivery, skippedClaimed, errored, cloned), parent;
    }

    /** `run(now)`: a pass works through the snapshot it loaded, and only that. */
    method Run(today: int, w: World) returns (s: Summary, ghost parent: map<TaskId, TaskId>)
      requires Valid()
      modifies this, tasks, service`accounts
      ensures Valid()
      ensures s.loaded == |DueIds(old(tasks.rows), today)|
      ensures forall id :: id in old(tasks.rows)
                           && (old(tasks.rows)[id].processed || LocalDay(old(tasks.rows)[id].runDate) > today)
                           ==> id in tasks.rows && tasks.rows[id] == old(tasks.rows)[id]
      ensures Calm(w) ==> forall id :: id in old(tasks.rows) && LocalDay(old(tasks.rows)[id].runDate) <= today
                                       && Runnable(old(tasks.rows)[id], old(service.accounts.Keys)) ==>
                id in tasks.rows && tasks.rows[id] == old(tasks.rows)[id].(processed := true)
      ensures Progress(old(tasks.rows), old(service.accounts), w, DueIds(old(tasks.rows), today), s, tasks.rows,
                       service.accounts, parent)
      ensures stranded == old(stranded)
                          + Where(old(tasks.rows), DueIds(old(tasks.rows), today), IsLost(old(service.accounts.Keys), w))
    {
      hide Progress, ClosesScheduled, CloseTasksDone, Due, DueIds, Where, IdsOf, IsLost, FateOf, LocalDay, Calm, Runnable;
      ghost var x, before := tasks.rows, service.accounts;
      var due := tasks.FindDueUnprocessed(today);
      SnapshotIsDue(x, due, today);
      s, parent := ProcessAll(due, today, w);
      stranded := stranded + Where(x, DueIds(x, today), IsLost(before.Keys, w));
      PassOnRows(x, before, w, today, s, tasks.rows, service.accounts, parent);
      PassKeepsValid(x, before, w, DueIds(x, today), s, tasks.rows, service.accounts, parent, old(stranded),
                     service.nextAccount);
    }
  }

  /** A close task that was processed and not lost has closed its account. */
  ghost predicate CloseTasksDone(rows: map<TaskId, Task>, accounts: map<AccountId, Account>, stranded: set<TaskId>) {
    forall id :: id in rows && rows[id].kind == CLOSE_SAVING_ACCOUNT && rows[id].processed && id !in stranded ==>
      rows[id].payload.CloseAccount? && rows[id].payload.account in accounts && !accounts[rows[id].payload.account].active
  }

  // ---------------------------------------------------------------------
  // The loop's steps
  // ---------------------------------------------------------------------

  function IdsOf(due: seq<DueTask>): set<TaskId> {
    set i | 0 <= i < |due| :: due[i].id
  }

  lemma NothingSeen(x: map<TaskId, Task>, accounts: map<AccountId, Account>, w: World, n: nat)
    ensures Progress(x, accounts, w, IdsOf([]), Summary(n, 0, 0, 0, 0, 0), x, accounts, map[])
  {
    hide After, Counts, Where;
    NothingDone(x, accounts.Keys, w);
    NothingCounted(x, accounts.Keys, w, n);
    assert IdsOf([]) == {} && ClosedIn(x, accounts.Keys, w, {}) == {};
    assert Closing(accounts, {}) == accounts;
  }

  lemma NothingDone(x: map<TaskId, Task>, accounts: set<AccountId>, w: World)
    ensures After(x, x, accounts, w, {}, map[])
  {
    hide FateOf, Clones, CloneOf, EndsProcessed;
  }

  lemma NothingCounted(x: map<TaskId, Task>, accounts: set<AccountId>, w: World, n: nat)
    ensures Counts(Summary(n, 0, 0, 0, 0, 0), x, accounts, w, {}, map[])
  {
    hide HasRun, Undelivered, WasTaken, HasErred, Where;
    NoneWhere(x, HasRun(accounts, w));
    NoneWhere(x, Undelivered(accounts, w));
    NoneWhere(x, WasTaken(accounts, w));
    NoneWhere(x, HasErred(accounts, w));
  }

  lemma NoneWhere(x: map<TaskId, Task>, p: (TaskId, Task) -> bool)
    ensures Where(x, {}, p) == {}
  {}

  /** A notification, or a close row that names an account there is. */
  predicate Runnable(t: Task, accounts: set<AccountId>) {
    t.kind == 0 || (t.kind == 1 && t.payload.CloseAccount? && t.payload.account in accounts)
  }

  lemma CalmRuns(id: TaskId, t: Task, accounts: set<AccountId>, w: World)
    requires Calm(w) && Runnable(t, accounts)
    ensures EndsProcessed(FateOf(id, t, accounts, w))
  {}

  /** A pass leaves alone what is done or dated later; a failure-free one does what can run and is dated today
      or before. */
  lemma PassOnRows(x: map<TaskId, Task>, before: map<AccountId, Account>, w: World, today: int, s: Summary,
                   y: map<TaskId, Task>, accounts: map<AccountId, Account>, parent: map<TaskId, TaskId>)
    requires Progress(x, before, w, DueIds(x, today), s, y, accounts, parent)
    ensures forall id :: id in x && (x[id].processed || LocalDay(x[id].runDate) > today) ==> id in y && y[id] == x[id]
    ensures Calm(w) ==> forall id :: id in x && LocalDay(x[id].runDate) <= today && Runnable(x[id], before.Keys) ==>
              id in y && y[id] == x[id].(processed := true)
  {
    hide LocalDay, FateOf, EndsProcessed, ClonesAfter, Counts, Calm, Runnable, ClosedIn;
    if Calm(w) {
      forall id | id in x && Runnable(x[id], before.Keys)
        ensures EndsProcessed(FateOf(id, x[id], before.Keys, w))
      {
        CalmRuns(id, x[id], before.Keys, w);
      }
    }
  }

  lemma NotSeenYet(x: map<TaskId, Task>, due: seq<DueTask>, k: nat, today: int)
    requires k < |due| && forall i, j :: 0 <= i < j < |due| ==> due[i].id != due[j].id
    requires forall i :: 0 <= i < |due| ==> due[i].id in x && due[i].task == x[due[i].id] && Due(due[i].task, today)
    ensures due[k].id !in IdsOf(due[..k]) && IdsOf(due[..k + 1]) == IdsOf(due[..k]) + {due[k].id}
    ensures due[k].id in x && due[k].task == x[due[k].id] && !x[due[k].id].processed
  {
    assert due[..k + 1] == due[..k] + [due[k]];
  }

  lemma SnapshotIsDue(x: map<TaskId, Task>, due: seq<DueTask>, today: int)
    requires forall i :: 0 <= i < |due| ==> due[i].id in x && due[i].task == x[due[i].id] && Due(due[i].task, today)
    requires forall i, j :: 0 <= i < j < |due| ==> due[i].id != due[j].id
    requires forall id :: id in x && Due(x[id], today) ==> DueTask(id, x[id]) in due
    ensures IdsOf(due) == DueIds(x, today) && |DueIds(x, today)| == |due|
  {
    forall id | id in DueIds(x, today)
      ensures id in IdsOf(due)
    {
      var i :| 0 <= i < |due| && due[i] == DueTask(id, x[id]);
    }
    DistinctIds(due);
  }

  lemma {:induction false} DistinctIds(due: seq<DueTask>)
    requires forall i, j :: 0 <= i < j < |due| ==> due[i].id != due[j].id
    ensures |IdsOf(due)| == |due|
  {
    if due != [] {
      var n := |due| - 1;
      DistinctIds(due[..n]);
      assert IdsOf(due) == IdsOf(due[..n]) + {due[n].id};
    }
  }

  lemma UnseenUntouched(x: map<TaskId, Task>, before: map<AccountId, Account>, w: World, seen: set<TaskId>, s: Summary,
                        y: map<TaskId, Task>, accounts: map<AccountId, Account>, parent: map<TaskId, TaskId>, id: TaskId)
    requires Progress(x, before, w, seen, s, y, accounts, parent) && id in x && id !in seen
    ensures id in y && y[id] == x[id] && accounts.Keys == before.Keys
  {}

  /** One more row of the snapshot. */
  lemma ProgressStep(x: map<TaskId, Task>, before: map<AccountId, Account>, w: World, seen: set<TaskId>, s: Summary,
                     y: map<TaskId, Task>, accounts: map<AccountId, Account>, parent: map<TaskId, TaskId>, id: TaskId,
                     clone: TaskId, z: map<TaskId, Task>, accounts': map<AccountId, Account>, grown: map<TaskId, TaskId>)
    requires Progress(x, before, w, seen, s, y, accounts, parent) && id in x && id !in seen && !x[id].processed
    requires var copied, f := Clones(id, x[id], before.Keys, w), FateOf(id, x[id], before.Keys, w);
             && (copied ==> clone !in y && Repeats(x[id].repeat))
             && grown == (if copied then parent[clone := id] else parent)
             && (var kept := y[id := x[id].(processed := EndsProcessed(f))];
                 z == if copied then kept[clone := CloneOf(x[id])] else kept)
             && accounts' == Closing(accounts, ClosedBy(f, x[id]))
    ensures Progress(x, before, w, seen + {id}, Counted(s, id, x[id], before.Keys, w), z, accounts', grown)
  {
    hide FateOf, EndsProcessed, CloneOf, Closing, ClosedIn, After, Counts, Counted;
    RowsStep(x, y, z, before.Keys, w, seen, parent, id, clone, grown);
    if Clones(id, x[id], before.Keys, w) { NewKey(x, y, before.Keys, w, seen, parent, clone); }
    CountsStep(s, x, before.Keys, w, seen, parent, id, clone, grown);
    AccountsStep(x, before, before.Keys, w, seen, id);
  }

  function Counted(s: Summary, id: TaskId, t: Task, accounts: set<AccountId>, w: World): Summary {
    var f := FateOf(id, t, accounts, w);
    Summary(s.loaded, s.processed + (if f.Ran? then 1 else 0), s.failedDelivery + (if f == Ran(false) then 1 else 0),
            s.skippedClaimed + (if f.Taken? then 1 else 0), s.errored + (if Errs(id, t, accounts, w) then 1 else 0),
            s.cloned + (if Clones(id, t, accounts, w) then 1 else 0))
  }

  lemma NewKey(x: map<TaskId, Task>, y: map<TaskId, Task>, accounts: set<AccountId>, w: World, seen: set<TaskId>,
               parent: map<TaskId, TaskId>, clone: TaskId)
    requires After(x, y, accounts, w, seen, parent) && clone !in y
    ensures clone !in parent
  {}

  lemma RowsStep(x: map<TaskId, Task>, y: map<TaskId, Task>, z: map<TaskId, Task>, accounts: set<AccountId>, w: World,
                 seen: set<TaskId>, parent: map<TaskId, TaskId>, id: TaskId, clone: TaskId, grown: map<TaskId, TaskId>)
    requires After(x, y, accounts, w, seen, parent) && id in x && id !in seen && !x[id].processed
    requires Clones(id, x[id], accounts, w) ==> clone !in y && Repeats(x[id].repeat)
    requires grown == if Clones(id, x[id], accounts, w) then parent[clone := id] else parent
    requires var kept := y[id := x[id].(processed := EndsProcessed(FateOf(id, x[id], accounts, w)))];
             z == if Clones(id, x[id], accounts, w) then kept[clone := CloneOf(x[id])] else kept
    ensures After(x, z, accounts, w, seen + {id}, grown)
  {
    hide FateOf, NextRepeat, Repeats;
    if Clones(id, x[id], accounts, w) {
      RowCloned(x, y, z, accounts, w, seen, parent, id, clone);
    } else {
      hide Clones, CloneOf, EndsProcessed, ClonesAfter;
      NoneCloned(x, y, z, accounts, w, seen, parent, id);
    }
  }

  lemma NoneCloned(x: map<TaskId, Task>, y: map<TaskId, Task>, z: map<TaskId, Task>, accounts: set<AccountId>, w: World,
                   seen: set<TaskId>, parent: map<TaskId, TaskId>, id: TaskId)
    requires ClonesAfter(x, y, accounts, w, seen, parent) && id in x && id !in parent && !Clones(id, x[id], accounts, w)
    requires forall c :: c in y && c != id ==> c in z && z[c] == y[c]
    ensures ClonesAfter(x, z, accounts, w, seen + {id}, parent)
  {
    hide Clones, CloneOf, Repeats;
  }

  lemma RowCloned(x: map<TaskId, Task>, y: map<TaskId, Task>, z: map<TaskId, Task>, accounts: set<AccountId>, w: World,
                  seen: set<TaskId>, parent: map<TaskId, TaskId>, id: TaskId, clone: TaskId)
    requires After(x, y, accounts, w, seen, parent) && id in x && id !in seen && !x[id].processed
    requires Clones(id, x[id], accounts, w) && clone !in y && Repeats(x[id].repeat)
    requires z == y[id := x[id].(processed := EndsProcessed(FateOf(id, x[id], accounts, w)))][clone := CloneOf(x[id])]
    ensures After(x, z, accounts, w, seen + {id}, parent[clone := id])
  {
    hide FateOf, Clones, CloneOf, EndsProcessed, ClonesAfter;
    var grown := parent[clone := id];
    assert clone !in y.Keys && clone !in x.Keys && id !in parent.Keys;
    assert z.Keys == y.Keys + {clone} && grown.Keys == parent.Keys + {clone};
    CloneRecorded(x, y, z, accounts, w, seen, parent, id, clone);
  }

  lemma CloneRecorded(x: map<TaskId, Task>, y: map<TaskId, Task>, z: map<TaskId, Task>, accounts: set<AccountId>, w: World,
                      seen: set<TaskId>, parent: map<TaskId, TaskId>, id: TaskId, clone: TaskId)
    requires ClonesAfter(x, y, accounts, w, seen, parent) && id in x && id !in seen && id !in parent
    requires Clones(id, x[id], accounts, w) && clone !in y && Repeats(x[id].repeat)
    requires forall c :: c in y && c != id ==> c in z && z[c] == y[c]
    requires clone in z && z[clone] == CloneOf(x[id])
    ensures ClonesAfter(x, z, accounts, w, seen + {id}, parent[clone := id])
  {
    hide Clones, CloneOf, Repeats;
    var grown := parent[clone := id];
    assert grown[clone] == id && forall c :: c in parent ==> grown[c] == parent[c];
    forall k | k in x && k in seen + {id} && Clones(k, x[k], accounts, w)
      ensures k in grown.Values
    {
      if k != id {
        var c :| c in parent && parent[c] == k;
        assert grown[c] == k;
      }
    }
  }

  lemma WhereGrows(x: map<TaskId, Task>, seen: set<TaskId>, p: (TaskId, Task) -> bool, id: TaskId)
    requires id in x && id !in seen
    ensures |Where(x, seen + {id}, p)| == |Where(x, seen, p)| + if p(id, x[id]) then 1 else 0
  {
    assert Where(x, seen + {id}, p) == Where(x, seen, p) + if p(id, x[id]) then {id} else {};
  }

  lemma CountsStep(s: Summary, x: map<TaskId, Task>, accounts: set<AccountId>, w: World, seen: set<TaskId>,
                   parent: map<TaskId, TaskId>, id: TaskId, clone: TaskId, grown: map<TaskId, TaskId>)
    requires Counts(s, x, accounts, w, seen, parent) && id in x && id !in seen
    requires Clones(id, x[id], accounts, w) ==> clone !in parent
    requires grown == if Clones(id, x[id], accounts, w) then parent[clone := id] else parent
    ensures Counts(Counted(s, id, x[id], accounts, w), x, accounts, w, seen + {id}, grown)
  {
    hide FateOf, Errs, Clones, Where;
    WhereGrows(x, seen, HasRun(accounts, w), id);
    WhereGrows(x, seen, Undelivered(accounts, w), id);
    WhereGrows(x, seen, WasTaken(accounts, w), id);
    WhereGrows(x, seen, HasErred(accounts, w), id);
  }

  lemma AccountsStep(x: map<TaskId, Task>, before: map<AccountId, Account>, accounts: set<AccountId>, w: World, seen: set<TaskId>,
                     id: TaskId)
    requires id in x && id !in seen
    ensures var more := ClosedBy(FateOf(id, x[id], accounts, w), x[id]);
            Closing(Closing(before, ClosedIn(x, accounts, w, seen)), more)
            == Closing(before, ClosedIn(x, accounts, w, seen + {id}))
  {}

  /** Close tasks stay one-shot and on their account's end date, and none is cloned. */
  lemma PassKeepsClosesScheduled(x: map<TaskId, Task>, y: map<TaskId, Task>, before: map<AccountId, Account>,
                                 after: map<AccountId, Account>, w: World, seen: set<TaskId>, parent: map<TaskId, TaskId>)
    requires After(x, y, before.Keys, w, seen, parent) && ClosesScheduled(x, before)
    requires after.Keys == before.Keys && forall k :: k in before ==> after[k].endDate == before[k].endDate
    ensures ClosesScheduled(y, after)
    ensures forall c :: c in parent ==> y[c].kind != CLOSE_SAVING_ACCOUNT && y[c].payload == x[parent[c]].payload
  {}

  lemma PassKeepsCloseTasksDone(x: map<TaskId, Task>, y: map<TaskId, Task>, before: map<AccountId, Account>, w: World,
                                seen: set<TaskId>, parent: map<TaskId, TaskId>, lost: set<TaskId>)
    requires After(x, y, before.Keys, w, seen, parent) && ClosesScheduled(x, before) && CloseTasksDone(x, before, lost)
    requires forall c :: c in parent ==> y[c].kind != CLOSE_SAVING_ACCOUNT
    ensures CloseTasksDone(y, Closing(before, ClosedIn(x, before.Keys, w, seen)), lost + Where(x, seen, IsLost(before.Keys, w)))
  {
    hide LocalDay, NextRepeat, Ordinal, Clones, CloneOf;
  }

  /** What `Runner.Valid` needs of the tables a pass leaves. */
  lemma PassKeepsValid(x: map<TaskId, Task>, before: map<AccountId, Account>, w: World, seen: set<TaskId>, s: Summary,
                       y: map<TaskId, Task>, accounts: map<AccountId, Account>, parent: map<TaskId, TaskId>, lost: set<TaskId>,
                       next: AccountId)
    requires Progress(x, before, w, seen, s, y, accounts, parent)
    requires ClosesScheduled(x, before) && CloseTasksDone(x, before, lost)
    requires forall id :: id in x && x[id].payload.CloseAccount? ==> x[id].payload.account < next
    ensures ClosesScheduled(y, accounts) && CloseTasksDone(y, accounts, lost + Where(x, seen, IsLost(before.Keys, w)))
    ensures accounts.Keys == before.Keys
    ensures forall id :: id in y && y[id].payload.CloseAccount? ==> y[id].payload.account < next
  {
    hide FateOf, EndsProcessed, Clones, CloneOf, Counts, CloseTasksDone, ClosesScheduled, ClosedIn;
    PassKeepsClosesScheduled(x, y, before, accounts, w, seen, parent);
    PassKeepsCloseTasksDone(x, y, before, w, seen, parent, lost);
    assert forall id :: id in y ==> id in y.Keys;
  }
}
