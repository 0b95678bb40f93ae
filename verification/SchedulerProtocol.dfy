/** Any number of scheduler runners over one task table (`src/scheduler/scheduler.runner.ts`,
    `src/scheduler/scheduler-task.repository.ts`), interleaved statement by statement.

    Executers throw, releases fail, statements fail after or before taking effect, runners crash,
    rows are deleted and inserted under them. The table row is the only lock. */
module SchedulerProtocol {
  import opened Calendar
  import opened SchedulerTasks

  type RunnerId = nat
  type AccountId = nat

  /** Where a runner is in its loop. `rest` is what is left of its snapshot. */
  datatype Phase =
    | Idle
    | Scanning(rest: seq<DueTask>)
    | Running(task: DueTask, rest: seq<DueTask>)
    | Throwing(task: DueTask, rest: seq<DueTask>)
    | Cloning(task: DueTask, rest: seq<DueTask>)

  /** The task table, the accounts, the runners, and what the run has done so far: every row ever
      inserted, how often each row's executer returned, the rows whose claim was lost, and the parent
      of each clone. */
  datatype System = System(
    rows: map<TaskId, Task>,
    nextId: TaskId,
    open: map<AccountId, bool>,
    runners: map<RunnerId, Phase>,
    born: map<TaskId, Task>,
    completed: multiset<TaskId>,
    stranded: set<TaskId>,
    parent: map<TaskId, TaskId>)

  datatype Action =
    | Load(today: int, due: seq<DueTask>)
    | Finish
    | SkipUnknown
    | Claim
    | ClaimFails(applied: bool)
    | ExecuterReturns
    | ExecuterThrows(applied: bool)
    | Release
    | ReleaseFails(applied: bool)
    | Clone
    | CloneFails(applied: bool)
    | Crash
    | InsertRow(task: Task)
    | DeleteRows(ids: set<TaskId>)
    | OpenAccount(account: AccountId)
    | ReleaseByHand(id: TaskId)

  /** What a pass may load: some enumeration of the due rows, each once. */
  ghost predicate Loads(rows: map<TaskId, Task>, today: int, due: seq<DueTask>) {
    && (forall i :: 0 <= i < |due| ==> due[i].id in rows && due[i].task == rows[due[i].id] && Due(due[i].task, today))
    && (forall i, j :: 0 <= i < j < |due| ==> due[i].id != due[j].id)
    && (forall id :: id in rows && Due(rows[id], today) ==> DueTask(id, rows[id]) in due)
  }

  function Move(x: System, r: RunnerId, p: Phase): System {
    x.(runners := x.runners[r := p])
  }

  function Mark(x: System, id: TaskId, processed: bool): System {
    if id in x.rows then x.(rows := x.rows[id := x.rows[id].(processed := processed)]) else x
  }

  predicate Claimable(x: System, id: TaskId) {
    id in x.rows && !x.rows[id].processed
  }

  function Add(x: System, task: Task): System {
    x.(rows := x.rows[x.nextId := task], born := x.born[x.nextId := task], nextId := x.nextId + 1)
  }

  /** The close executer's only write, a compare-and-set; it throws when the account is missing. */
  predicate ExecuterCan(x: System, t: Task) {
    t.kind == CLOSE_SAVING_ACCOUNT ==> t.payload.CloseAccount? && t.payload.account in x.open
  }

  function Executed(x: System, t: Task): System
    requires ExecuterCan(x, t)
  {
    if t.kind == CLOSE_SAVING_ACCOUNT then x.(open := x.open[t.payload.account := false]) else x
  }

  function Cloned(x: System, t: DueTask): System {
    if Repeats(t.task.repeat) then
      Add(x, t.task.(runDate := NextRepeat(t.task.runDate, t.task.repeat), processed := false))
      .(parent := x.parent[x.nextId := t.id])
    else x
  }

  /** One step. A runner that failed at a statement goes on with the rest of its snapshot. */
  ghost predicate Next(x: System, r: RunnerId, a: Action, y: System) {
    match a
    case InsertRow(task) => !task.processed && y == Add(x, task)
    case DeleteRows(ids) => y == x.(rows := x.rows - ids)
    case OpenAccount(account) => account !in x.open && y == x.(open := x.open[account := true])
    case ReleaseByHand(id) => id in x.stranded && y == Mark(x, id, false).(stranded := x.stranded - {id})
    case Load(today, due) =>
      (r !in x.runners || x.runners[r].Idle?) && Loads(x.rows, today, due) && y == Move(x, r, Scanning(due))
    case _ => r in x.runners && RunnerNext(x, r, x.runners[r], a, y)
  }

  ghost predicate RunnerNext(x: System, r: RunnerId, p: Phase, a: Action, y: System) {
    match p
    case Idle => a.Crash? && y == x
    case Scanning(rest) =>
      if rest == [] then (a.Crash? || a.Finish?) && y == Move(x, r, Idle)
      else ScanningNext(x, r, rest[0], rest[1..], a, y)
    case Running(task, rest) => RunningNext(x, r, task, rest, a, y)
    case Throwing(task, rest) => ThrowingNext(x, r, task, rest, a, y)
    case Cloning(task, rest) => CloningNext(x, r, task, rest, a, y)
  }

  /** Resolve the executer first, then claim: an unknown type is never consumed. */
  predicate ScanningNext(x: System, r: RunnerId, task: DueTask, rest: seq<DueTask>, a: Action, y: System) {
    match a
    case SkipUnknown => !Known(task.task.kind) && y == Move(x, r, Scanning(rest))
    case Claim =>
      Known(task.task.kind)
      && y == if Claimable(x, task.id) then Move(Mark(x, task.id, true), r, Running(task, rest))
              else Move(x, r, Scanning(rest))
    case ClaimFails(applied) =>
      Known(task.task.kind)
      && y == if applied && Claimable(x, task.id)
              then Move(Mark(x, task.id, true).(stranded := x.stranded + {task.id}), r, Scanning(rest))
              else Move(x, r, Scanning(rest))
    case Crash => y == Move(x, r, Idle)
    case _ => false
  }

  predicate RunningNext(x: System, r: RunnerId, task: DueTask, rest: seq<DueTask>, a: Action, y: System) {
    match a
    case ExecuterReturns =>
      ExecuterCan(x, task.task)
      && y == Move(Executed(x, task.task).(completed := x.completed + multiset{task.id}), r, Cloning(task, rest))
    case ExecuterThrows(applied) =>
      y == Move(if applied && ExecuterCan(x, task.task) then Executed(x, task.task) else x, r, Throwing(task, rest))
    case Crash => y == Move(x.(stranded := x.stranded + {task.id}), r, Idle)
    case _ => false
  }

  predicate ThrowingNext(x: System, r: RunnerId, task: DueTask, rest: seq<DueTask>, a: Action, y: System) {
    match a
    case Release => y == Move(Mark(x, task.id, false), r, Scanning(rest))
    case ReleaseFails(applied) =>
      y == if applied then Move(Mark(x, task.id, false), r, Scanning(rest))
           else Move(x.(stranded := x.stranded + {task.id}), r, Scanning(rest))
    case Crash => y == Move(x.(stranded := x.stranded + {task.id}), r, Idle)
    case _ => false
  }

  /** An unknown repeat is refused: nothing is cloned. */
  predicate CloningNext(x: System, r: RunnerId, task: DueTask, rest: seq<DueTask>, a: Action, y: System) {
    match a
    case Clone => y == Move(Cloned(x, task), r, Scanning(rest))
    case CloneFails(applied) => y == Move(if applied then Cloned(x, task) else x, r, Scanning(rest))
    case Crash => y == Move(x, r, Idle)
    case _ => false
  }

  // ---------------------------------------------------------------------
  // The inductive invariant
  // ---------------------------------------------------------------------

  /** The runner is between winning the claim and losing it. */
  predicate Holds(p: Phase, id: TaskId) {
    (p.Running? || p.Throwing?) && p.task.id == id
  }

  ghost predicate Held(x: System, id: TaskId) {
    exists r :: r in x.runners && Holds(x.runners[r], id)
  }

  /** A row's columns never change but for `processed`. */
  predicate SameRow(t: Task, u: Task) {
    t.kind == u.kind && t.runDate == u.runDate && t.repeat == u.repeat && t.payload == u.payload
  }

  predicate SnapshotOk(born: map<TaskId, Task>, d: DueTask) {
    d.id in born && SameRow(d.task, born[d.id])
  }

  /** The snapshot rows a phase still carries. */
  function Carried(p: Phase): seq<DueTask> {
    match p
    case Idle => []
    case Scanning(rest) => rest
    case Running(task, rest) => [task] + rest
    case Throwing(task, rest) => [task] + rest
    case Cloning(task, rest) => [task] + rest
  }

  ghost predicate PhaseOk(born: map<TaskId, Task>, p: Phase) {
    forall d :: d in Carried(p) ==> SnapshotOk(born, d)
  }

  /** A processed row is in exactly one of three hands: one runner's, done, or stranded. */
  ghost predicate Ownership(x: System) {
    Sole(x) && forall id {:trigger Owned(x, id)} :: Owned(x, id)
  }

  ghost predicate Owned(x: System, id: TaskId) {
    && (id in x.rows ==> (x.rows[id].processed <==> Held(x, id) || id in x.completed || id in x.stranded))
    && (Held(x, id) ==> id !in x.completed && id !in x.stranded)
    && (id in x.completed ==> id !in x.stranded)
  }

  ghost predicate Sole(x: System) {
    forall r, s, id :: r in x.runners && s in x.runners && Holds(x.runners[r], id) && Holds(x.runners[s], id) ==> r == s
  }

  /** Row ids are never reused, and each row's executer has returned at most once. */
  ghost predicate History(x: System) {
    RowsBorn(x) && RunOnce(x) && PhasesOk(x)
  }

  ghost predicate RowsBorn(x: System) {
    && (forall id :: id in x.born ==> id < x.nextId)
    && (forall id :: id in x.rows ==> id in x.born && SameRow(x.rows[id], x.born[id]))
  }

  ghost predicate RunOnce(x: System) {
    && (forall id :: id in x.completed ==> id in x.born && x.completed[id] == 1)
    && (forall id :: id in x.stranded ==> id in x.born)
  }

  ghost predicate PhasesOk(x: System) {
    forall r :: r in x.runners ==> PhaseOk(x.born, x.runners[r])
  }

  ghost predicate Lineage(x: System) {
    Family(x) && Cloners(x)
  }

  /** Every clone has a parent that completed, and no two clones share one. */
  ghost predicate Family(x: System) {
    && (forall c :: c in x.parent ==> IsCloneOf(x, c, x.parent[c]))
    && (forall c, d :: c in x.parent && d in x.parent && x.parent[c] == x.parent[d] ==> c == d)
  }

  /** A runner about to clone is alone with its row, which completed and has no clone yet. */
  ghost predicate Cloners(x: System) {
    && (forall r :: r in x.runners && x.runners[r].Cloning? ==>
          x.runners[r].task.id in x.completed && x.runners[r].task.id !in x.parent.Values)
    && (forall r, s :: r in x.runners && s in x.runners && x.runners[r].Cloning? && x.runners[s].Cloning? && r != s ==>
          x.runners[r].task.id != x.runners[s].task.id)
  }

  ghost predicate IsCloneOf(x: System, c: TaskId, p: TaskId) {
    && c in x.born && p in x.born && p < c && p in x.completed && Repeats(x.born[p].repeat)
    && SameRow(x.born[c], x.born[p].(runDate := NextRepeat(x.born[p].runDate, x.born[p].repeat)))
  }

  /** A close task that has completed has closed its account. */
  ghost predicate ClosedByTask(x: System) {
    forall id :: id in x.completed && id in x.born && x.born[id].kind == CLOSE_SAVING_ACCOUNT ==>
      x.born[id].payload.CloseAccount? && x.born[id].payload.account in x.open && !x.open[x.born[id].payload.account]
  }

  ghost predicate Inv(x: System) {
    Ownership(x) && History(x) && Lineage(x) && ClosedByTask(x)
  }

  // ---------------------------------------------------------------------
  // Every step keeps the invariant
  // ---------------------------------------------------------------------

  /** Nothing about a row's ownership changes but, perhaps, that of row `id`. */
  ghost predicate SameBut(x: System, y: System, id: TaskId) {
    forall k {:trigger Owned(y, k)} :: k != id ==>
      && (k in y.rows ==> k in x.rows && y.rows[k].processed == x.rows[k].processed)
      && (k in y.completed <==> k in x.completed) && (k in y.stranded <==> k in x.stranded)
      && (Held(y, k) <==> Held(x, k))
  }

  lemma OwnershipFrom(x: System, y: System, id: TaskId)
    requires Ownership(x) && SameBut(x, y, id) && Sole(y) && Owned(y, id)
    ensures Ownership(y)
  {
    hide Held, Sole;
    forall k
      ensures Owned(y, k)
    {
      assert Owned(x, k);
    }
  }

  /** One runner's phase changes, and with it at most the holder of row `id`. */
  lemma HoldersAfter(x: System, r: RunnerId, p: Phase, y: System, id: TaskId)
    requires Sole(x) && y.runners == x.runners[r := p]
    requires forall k :: k != id ==> (Holds(p, k) <==> r in x.runners && Holds(x.runners[r], k))
    requires (r in x.runners && Holds(x.runners[r], id)) || !Held(x, id)
    ensures Sole(y) && (Held(y, id) <==> Holds(p, id))
    ensures forall k :: k != id ==> (Held(y, k) <==> Held(x, k))
  {
    forall k | k != id
      ensures Held(y, k) <==> Held(x, k)
    {
      if Held(x, k) {
        var s :| s in x.runners && Holds(x.runners[s], k);
        assert Holds(y.runners[s], k);
      }
      if Held(y, k) {
        var s :| s in y.runners && Holds(y.runners[s], k);
        assert s in x.runners && Holds(x.runners[s], k);
      }
    }
    if Holds(p, id) { assert Holds(y.runners[r], id); }
  }

  predicate FromRunner(a: Action) {
    !(a.InsertRow? || a.DeleteRows? || a.OpenAccount? || a.ReleaseByHand? || a.Load?)
  }

  lemma OwnershipKept(x: System, r: RunnerId, a: Action, y: System)
    requires Ownership(x) && History(x) && Next(x, r, a, y)
    ensures Ownership(y)
  {
    hide History, Ownership, Loads, ScanningNext, RunningNext, ThrowingNext, CloningNext;
    if FromRunner(a) {
      match x.runners[r] {
        case Idle =>
        case Scanning(rest) =>
          if rest == [] { OwnershipMove(x, r, Idle, y); } else { OwnershipScanning(x, r, rest[0], rest[1..], a, y); }
        case Running(task, rest) => OwnershipRunning(x, r, task, rest, a, y);
        case Throwing(task, rest) => OwnershipThrowing(x, r, task, rest, a, y);
        case Cloning(task, rest) => OwnershipCloning(x, r, task, rest, a, y);
      }
    } else {
      OwnershipEnvironment(x, r, a, y);
    }
  }

  lemma SpareIsUnowned(x: System)
    requires Ownership(x) && History(x)
    ensures x.nextId !in x.rows && x.nextId !in x.completed && x.nextId !in x.stranded && !Held(x, x.nextId)
    ensures Sole(x) && Owned(x, x.nextId)
  {
    assert Owned(x, x.nextId);
    forall r | r in x.runners && Holds(x.runners[r], x.nextId)
      ensures false
    {
      TaskIsCarried(x, r);
    }
  }

  /** The row a runner is working on is one that was inserted. */
  lemma TaskIsCarried(x: System, r: RunnerId)
    requires History(x) && r in x.runners && (x.runners[r].Running? || x.runners[r].Throwing? || x.runners[r].Cloning?)
    ensures SnapshotOk(x.born, x.runners[r].task) && x.runners[r].task.id < x.nextId
  {}

  /** Between claims a runner holds no row, whatever it moves on to. */
  predicate HoldsNothing(p: Phase) {
    !p.Running? && !p.Throwing?
  }

  lemma OwnershipMove(x: System, r: RunnerId, p: Phase, y: System)
    requires Ownership(x) && History(x) && (r in x.runners ==> HoldsNothing(x.runners[r]))
    requires HoldsNothing(p) && y == Move(x, r, p)
    ensures Ownership(y)
  {
    SpareIsUnowned(x);
    hide History, Held, Sole, Ownership;
    HoldersAfter(x, r, p, y, x.nextId);
    OwnershipFrom(x, y, x.nextId);
  }

  lemma OwnershipScanning(x: System, r: RunnerId, task: DueTask, rest: seq<DueTask>, a: Action, y: System)
    requires Ownership(x) && History(x) && r in x.runners && x.runners[r].Scanning?
    requires ScanningNext(x, r, task, rest, a, y)
    ensures Ownership(y)
  {
    hide History, Ownership;
    if (a.Claim? || (a.ClaimFails? && a.applied)) && Claimable(x, task.id) {
      OwnershipClaimed(x, r, task.id, y);
    } else {
      OwnershipMove(x, r, y.runners[r], y);
    }
  }

  lemma OwnershipClaimed(x: System, r: RunnerId, id: TaskId, y: System)
    requires Ownership(x) && r in x.runners && HoldsNothing(x.runners[r]) && Claimable(x, id)
    requires y.rows == Mark(x, id, true).rows && y.completed == x.completed
    requires r in y.runners && y.runners == x.runners[r := y.runners[r]]
    requires forall k :: Holds(y.runners[r], k) ==> k == id
    requires y.stranded == if Holds(y.runners[r], id) then x.stranded else x.stranded + {id}
    ensures Ownership(y)
  {
    assert Owned(x, id);
    hide Held, Sole, Ownership;
    HoldersAfter(x, r, y.runners[r], y, id) by { SoleHolder(x); }
    OwnershipFrom(x, y, id);
  }

  lemma SoleHolder(x: System)
    requires Ownership(x)
    ensures Sole(x)
  {}

  lemma HolderOwns(x: System, r: RunnerId, id: TaskId)
    requires Ownership(x) && r in x.runners && Holds(x.runners[r], id)
    ensures Held(x, id) && id !in x.completed && id !in x.stranded && (id in x.rows ==> x.rows[id].processed) && Sole(x)
  {
    assert Owned(x, id);
  }

  lemma OwnershipRunning(x: System, r: RunnerId, task: DueTask, rest: seq<DueTask>, a: Action, y: System)
    requires Ownership(x) && r in x.runners && x.runners[r] == Running(task, rest) && RunningNext(x, r, task, rest, a, y)
    ensures Ownership(y)
  {
    HolderOwns(x, r, task.id);
    hide Sole, Held, Ownership;
    HoldersAfter(x, r, y.runners[r], y, task.id);
    OwnershipFrom(x, y, task.id);
  }

  lemma OwnershipThrowing(x: System, r: RunnerId, task: DueTask, rest: seq<DueTask>, a: Action, y: System)
    requires Ownership(x) && r in x.runners && x.runners[r] == Throwing(task, rest) && ThrowingNext(x, r, task, rest, a, y)
    ensures Ownership(y)
  {
    hide Ownership;
    OwnershipLetGo(x, r, task.id, a.Release? || (a.ReleaseFails? && a.applied), y);
  }

  /** A holder gives its row up: it is unprocessed again, or stranded. */
  lemma OwnershipLetGo(x: System, r: RunnerId, id: TaskId, released: bool, y: System)
    requires Ownership(x) && r in x.runners && x.runners[r].Throwing? && x.runners[r].task.id == id
    requires y.rows == (if released then Mark(x, id, false).rows else x.rows) && y.completed == x.completed
    requires y.stranded == if released then x.stranded else x.stranded + {id}
    requires r in y.runners && y.runners == x.runners[r := y.runners[r]] && HoldsNothing(y.runners[r])
    ensures Ownership(y)
  {
    HolderOwns(x, r, id);
    hide Sole, Held, Ownership;
    HoldersAfter(x, r, y.runners[r], y, id);
    OwnershipFrom(x, y, id);
  }

  lemma OwnershipCloning(x: System, r: RunnerId, task: DueTask, rest: seq<DueTask>, a: Action, y: System)
    requires Ownership(x) && History(x) && r in x.runners && x.runners[r] == Cloning(task, rest)
    requires CloningNext(x, r, task, rest, a, y)
    ensures Ownership(y)
  {
    hide NextRepeat, History, Ownership;
    if y.parent == x.parent && y.nextId == x.nextId {
      OwnershipMove(x, r, y.runners[r], y);
    } else {
      OwnershipCloned(x, r, y);
    }
  }

  lemma OwnershipCloned(x: System, r: RunnerId, y: System)
    requires Ownership(x) && History(x) && r in x.runners && HoldsNothing(x.runners[r])
    requires x.nextId in y.rows && !y.rows[x.nextId].processed && y.rows == x.rows[x.nextId := y.rows[x.nextId]]
    requires y.completed == x.completed && y.stranded == x.stranded
    requires r in y.runners && y.runners == x.runners[r := y.runners[r]] && HoldsNothing(y.runners[r])
    ensures Ownership(y)
  {
    SpareIsUnowned(x);
    hide History, Held, Sole, Ownership;
    HoldersAfter(x, r, y.runners[r], y, x.nextId);
    OwnershipFrom(x, y, x.nextId);
  }

  lemma OwnershipEnvironment(x: System, r: RunnerId, a: Action, y: System)
    requires Ownership(x) && History(x) && Next(x, r, a, y) && !FromRunner(a)
    ensures Ownership(y)
  {
    hide RunnerNext, History, Held, Sole, Loads, Ownership;
    SpareIsUnowned(x);
    match a {
      case Load(_, due) => OwnershipMove(x, r, Scanning(due), y);
      case ReleaseByHand(id) => OwnershipByHand(x, id, y);
      case InsertRow(_) => OwnershipOutside(x, y);
      case DeleteRows(_) => OwnershipOutside(x, y);
      case OpenAccount(_) => OwnershipOutside(x, y);
    }
  }

  lemma OwnershipByHand(x: System, id: TaskId, y: System)
    requires Ownership(x) && id in x.stranded && y == Mark(x, id, false).(stranded := x.stranded - {id})
    ensures Ownership(y)
  {
    assert Owned(x, id);
    hide Held, Sole;
    SameHolders(x, y);
    OwnershipFrom(x, y, id);
  }

  lemma OwnershipOutside(x: System, y: System)
    requires Ownership(x) && History(x) && y.runners == x.runners && y.completed == x.completed && y.stranded == x.stranded
    requires forall id :: id in y.rows && id != x.nextId ==> id in x.rows && y.rows[id] == x.rows[id]
    requires x.nextId in y.rows ==> !y.rows[x.nextId].processed
    ensures Ownership(y)
  {
    SpareIsUnowned(x);
    hide Held, Sole, History, Ownership;
    SameHolders(x, y);
    OwnershipFrom(x, y, x.nextId);
  }

  lemma SameHolders(x: System, y: System)
    requires y.runners == x.runners && Sole(x)
    ensures Sole(y) && forall k :: Held(y, k) <==> Held(x, k)
  {}

  // ---------------------------------------------------------------------
  // The shape of a runner's step
  // ---------------------------------------------------------------------

  /** What a step does to the rows: it flips a flag or drops rows, or adds the next row, unprocessed. */
  ghost predicate RowsStep(x: System, y: System) {
    if y.nextId == x.nextId then
      y.born == x.born && forall id :: id in y.rows ==> id in x.rows && SameRow(y.rows[id], x.rows[id])
    else
      && y.nextId == x.nextId + 1 && x.nextId in y.rows && !y.rows[x.nextId].processed
      && y.rows == x.rows[x.nextId := y.rows[x.nextId]] && y.born == x.born[x.nextId := y.rows[x.nextId]]
  }

  ghost predicate RunnerStep(x: System, r: RunnerId, p: Phase, y: System) {
    && RowsStep(x, y)
    && r in y.runners && y.runners == x.runners[r := y.runners[r]]
    && (forall d :: d in Carried(y.runners[r]) ==> d in Carried(p))
    && (y.completed == x.completed || (p.Running? && y.completed == x.completed + multiset{p.task.id}))
    && (forall id :: id in y.stranded ==> id in x.stranded || exists d :: d in Carried(p) && d.id == id)
    && x.stranded <= y.stranded && (y.open == x.open || p.Running?)
  }

  lemma RunnerStepShape(x: System, r: RunnerId, a: Action, y: System)
    requires r in x.runners && RunnerNext(x, r, x.runners[r], a, y)
    ensures RunnerStep(x, r, x.runners[r], y)
  {
    hide ScanningNext, RunningNext, ThrowingNext, CloningNext;
    match x.runners[r] {
      case Idle =>
      case Scanning(rest) => if rest != [] { ScanningShape(x, r, rest[0], rest[1..], a, y); }
      case Running(task, rest) => RunningShape(x, r, task, rest, a, y);
      case Throwing(task, rest) => ThrowingShape(x, r, task, rest, a, y);
      case Cloning(task, rest) => CloningShape(x, r, task, rest, a, y);
    }
  }

  lemma MarkedRows(x: System, id: TaskId, processed: bool, y: System)
    requires y.rows == Mark(x, id, processed).rows && y.born == x.born && y.nextId == x.nextId
    ensures RowsStep(x, y)
  {}

  lemma SameRows(x: System, y: System)
    requires y.rows == x.rows && y.born == x.born && y.nextId == x.nextId
    ensures RowsStep(x, y)
  {}

  lemma ScanningShape(x: System, r: RunnerId, task: DueTask, rest: seq<DueTask>, a: Action, y: System)
    requires ScanningNext(x, r, task, rest, a, y)
    ensures RunnerStep(x, r, Scanning([task] + rest), y)
  {
    hide RowsStep;
    assert task in [task] + rest;
    if (a.Claim? || (a.ClaimFails? && a.applied)) && Claimable(x, task.id) {
      MarkedRows(x, task.id, true, y);
    } else {
      SameRows(x, y);
    }
  }

  lemma RunningShape(x: System, r: RunnerId, task: DueTask, rest: seq<DueTask>, a: Action, y: System)
    requires RunningNext(x, r, task, rest, a, y)
    ensures RunnerStep(x, r, Running(task, rest), y)
  {}

  lemma ThrowingShape(x: System, r: RunnerId, task: DueTask, rest: seq<DueTask>, a: Action, y: System)
    requires ThrowingNext(x, r, task, rest, a, y)
    ensures RunnerStep(x, r, Throwing(task, rest), y)
  {
    hide RowsStep;
    assert task in [task] + rest;
    if a.Release? || (a.ReleaseFails? && a.applied) {
      MarkedRows(x, task.id, false, y);
    } else {
      SameRows(x, y);
    }
  }

  lemma CloningShape(x: System, r: RunnerId, task: DueTask, rest: seq<DueTask>, a: Action, y: System)
    requires CloningNext(x, r, task, rest, a, y)
    ensures RunnerStep(x, r, Cloning(task, rest), y)
  {}

  // ---------------------------------------------------------------------
  // History
  // ---------------------------------------------------------------------

  lemma HistoryKept(x: System, r: RunnerId, a: Action, y: System)
    requires Ownership(x) && History(x) && Next(x, r, a, y)
    ensures History(y)
  {
    hide Ownership, RunnerNext, RunnerStep, RowsBorn, RunOnce, PhasesOk, Loads;
    if FromRunner(a) {
      RunnerStepShape(x, r, a, y);
      RunnerHistory(x, r, y);
    } else {
      EnvironmentHistory(x, r, a, y);
    }
  }

  lemma RunnerHistory(x: System, r: RunnerId, y: System)
    requires Ownership(x) && History(x) && r in x.runners && RunnerStep(x, r, x.runners[r], y)
    ensures History(y)
  {
    RunnerRunsOnce(x, r, y);
    RunnerPhases(x, r, y);
    hide Ownership, PhasesOk, RunOnce, RowsBorn, RowsStep;
    RowsStayBorn(x, y);
  }

  lemma RowsStayBorn(x: System, y: System)
    requires RowsBorn(x) && RowsStep(x, y)
    ensures RowsBorn(y)
  {}

  lemma RunnerPhases(x: System, r: RunnerId, y: System)
    requires RowsBorn(x) && PhasesOk(x) && r in x.runners && RunnerStep(x, r, x.runners[r], y)
    ensures PhasesOk(y)
  {
    hide PhaseOk, RowsStep, RowsBorn;
    forall s | s in y.runners
      ensures PhaseOk(y.born, y.runners[s])
    {
      PhaseGrows(x, y, x.runners[s]);
      if s == r { CarriesLess(y.born, x.runners[r], y.runners[r]); }
    }
  }

  lemma CarriesLess(born: map<TaskId, Task>, p: Phase, q: Phase)
    requires PhaseOk(born, p) && forall d :: d in Carried(q) ==> d in Carried(p)
    ensures PhaseOk(born, q)
  {}

  lemma RunnerRunsOnce(x: System, r: RunnerId, y: System)
    requires Ownership(x) && History(x) && r in x.runners && RunnerStep(x, r, x.runners[r], y)
    ensures RunOnce(y)
  {
    if x.runners[r].Running? {
      HolderOwns(x, r, x.runners[r].task.id);
      TaskIsCarried(x, r);
    }
    CarriedAreBorn(x, r);
    hide Ownership, PhasesOk;
  }

  lemma CarriedAreBorn(x: System, r: RunnerId)
    requires History(x) && r in x.runners
    ensures forall d :: d in Carried(x.runners[r]) ==> d.id in x.born
  {}

  lemma PhaseGrows(x: System, y: System, p: Phase)
    requires RowsBorn(x) && RowsStep(x, y) && PhaseOk(x.born, p)
    ensures PhaseOk(y.born, p)
  {}

  lemma EnvironmentStep(x: System, r: RunnerId, a: Action, y: System)
    requires RowsBorn(x) && Next(x, r, a, y) && !FromRunner(a)
    ensures RowsStep(x, y) && y.completed == x.completed && y.stranded <= x.stranded
  {
    hide RunnerNext, Loads, RowsBorn, RowsStep;
    match a {
      case Load(_, _) => SameRows(x, y);
      case OpenAccount(_) => SameRows(x, y);
      case ReleaseByHand(id) => MarkedRows(x, id, false, y);
      case InsertRow(_) => AddedRow(x, y);
      case DeleteRows(_) => FewerRows(x, y);
    }
  }

  lemma AddedRow(x: System, y: System)
    requires RowsBorn(x) && y.nextId == x.nextId + 1 && x.nextId in y.rows && !y.rows[x.nextId].processed
    requires y.rows == x.rows[x.nextId := y.rows[x.nextId]] && y.born == x.born[x.nextId := y.rows[x.nextId]]
    ensures RowsStep(x, y)
  {}

  lemma FewerRows(x: System, y: System)
    requires y.nextId == x.nextId && y.born == x.born && forall id :: id in y.rows ==> id in x.rows && y.rows[id] == x.rows[id]
    ensures RowsStep(x, y)
  {}

  lemma EnvironmentHistory(x: System, r: RunnerId, a: Action, y: System)
    requires History(x) && Next(x, r, a, y) && !FromRunner(a)
    ensures History(y)
  {
    hide Next, PhaseOk, PhasesOk;
    EnvironmentStep(x, r, a, y);
    EnvironmentPhases(x, r, a, y);
  }

  lemma EnvironmentPhases(x: System, r: RunnerId, a: Action, y: System)
    requires RowsBorn(x) && PhasesOk(x) && Next(x, r, a, y) && !FromRunner(a) && RowsStep(x, y)
    ensures PhasesOk(y)
  {
    hide RunnerNext, PhaseOk, RowsStep, RowsBorn, Loads;
    forall s | s in y.runners
      ensures PhaseOk(y.born, y.runners[s])
    {
      if a.Load? && s == r {
        LoadedIsOk(x, a.today, a.due);
      } else {
        PhaseGrows(x, y, x.runners[s]);
      }
    }
  }

  lemma LoadedIsOk(x: System, today: int, due: seq<DueTask>)
    requires RowsBorn(x) && Loads(x.rows, today, due)
    ensures PhaseOk(x.born, Scanning(due))
  {}

  // ---------------------------------------------------------------------
  // Lineage and accounts
  // ---------------------------------------------------------------------

  /** The records only grow. */
  ghost predicate Grows(x: System, y: System) {
    && (forall id :: id in x.completed ==> id in y.completed)
    && (forall id :: id in x.born ==> id in y.born && y.born[id] == x.born[id])
  }

  /** No runner came to be about to clone. */
  ghost predicate NoNewCloner(x: System, y: System) {
    forall s :: s in y.runners && y.runners[s].Cloning? ==> s in x.runners && y.runners[s] == x.runners[s]
  }

  lemma FamilyStays(x: System, y: System)
    requires Family(x) && Grows(x, y) && y.parent == x.parent
    ensures Family(y)
  {}

  lemma ClonersStay(x: System, y: System)
    requires Cloners(x) && Grows(x, y) && NoNewCloner(x, y) && y.parent == x.parent
    ensures Cloners(y)
  {}

  lemma LineageKept(x: System, r: RunnerId, a: Action, y: System)
    requires Ownership(x) && History(x) && Lineage(x) && Next(x, r, a, y)
    ensures Lineage(y)
  {
    hide History, Ownership, Family, Cloners, Loads, ScanningNext, RunningNext, ThrowingNext, CloningNext;
    if FromRunner(a) {
      match x.runners[r] {
        case Idle =>
        case Scanning(rest) => ScanningLineage(x, r, a, y);
        case Running(task, rest) => RunningLineage(x, r, task, rest, a, y);
        case Throwing(task, rest) => ThrowingLineage(x, r, task, rest, a, y);
        case Cloning(task, rest) => CloningLineage(x, r, task, rest, a, y);
      }
    } else {
      EnvironmentLineage(x, r, a, y);
    }
  }

  lemma EnvironmentLineage(x: System, r: RunnerId, a: Action, y: System)
    requires History(x) && Lineage(x) && Next(x, r, a, y) && !FromRunner(a)
    ensures Lineage(y)
  {
    hide Family, Cloners, RunnerNext, Loads;
    FamilyStays(x, y);
    ClonersStay(x, y);
  }

  /** A runner's step that completes nothing and clones nothing. */
  ghost predicate Quiet(x: System, r: RunnerId, y: System) {
    && y.completed == x.completed && y.born == x.born && y.parent == x.parent
    && r in y.runners && y.runners == x.runners[r := y.runners[r]] && !y.runners[r].Cloning?
  }

  lemma QuietLineage(x: System, r: RunnerId, y: System)
    requires Lineage(x) && Quiet(x, r, y)
    ensures Lineage(y)
  {
    hide Family, Cloners;
    FamilyStays(x, y);
    ClonersStay(x, y);
  }

  lemma ScanningLineage(x: System, r: RunnerId, a: Action, y: System)
    requires Lineage(x) && r in x.runners && x.runners[r].Scanning? && RunnerNext(x, r, x.runners[r], a, y)
    ensures Lineage(y)
  {
    hide Lineage;
    QuietLineage(x, r, y);
  }

  lemma ThrowingLineage(x: System, r: RunnerId, task: DueTask, rest: seq<DueTask>, a: Action, y: System)
    requires Lineage(x) && r in x.runners && ThrowingNext(x, r, task, rest, a, y)
    ensures Lineage(y)
  {
    hide Lineage;
    QuietLineage(x, r, y);
  }

  lemma RunningLineage(x: System, r: RunnerId, task: DueTask, rest: seq<DueTask>, a: Action, y: System)
    requires Ownership(x) && Lineage(x) && r in x.runners && x.runners[r] == Running(task, rest)
    requires RunningNext(x, r, task, rest, a, y)
    ensures Lineage(y)
  {
    hide Ownership, Family, Cloners;
    FamilyStays(x, y);
    if a.ExecuterReturns? {
      ClonerAppears(x, r, task, rest, y);
    } else {
      ClonersStay(x, y);
    }
  }

  lemma ClonerAppears(x: System, r: RunnerId, task: DueTask, rest: seq<DueTask>, y: System)
    requires Ownership(x) && Lineage(x) && r in x.runners && x.runners[r] == Running(task, rest)
    requires y.runners == x.runners[r := Cloning(task, rest)] && y.parent == x.parent
    requires y.completed == x.completed + multiset{task.id}
    ensures Cloners(y)
  {
    HolderOwns(x, r, task.id);
    ParentsCompleted(x);
    hide Ownership, Family;
  }

  lemma ParentsCompleted(x: System)
    requires Family(x)
    ensures forall id :: id in x.parent.Values ==> id in x.completed
  {}

  lemma CloningLineage(x: System, r: RunnerId, task: DueTask, rest: seq<DueTask>, a: Action, y: System)
    requires History(x) && Lineage(x) && r in x.runners && x.runners[r] == Cloning(task, rest)
    requires CloningNext(x, r, task, rest, a, y)
    ensures Lineage(y)
  {
    TaskIsCarried(x, r);
    NextIdIsNew(x);
    hide NextRepeat, History, Lineage, SnapshotOk;
    if Repeats(task.task.repeat) && (a.Clone? || (a.CloneFails? && a.applied)) {
      CloneJoins(x, r, task, y);
    } else {
      QuietLineage(x, r, y);
    }
  }

  lemma NextIdIsNew(x: System)
    requires History(x)
    ensures x.nextId !in x.born
  {}

  lemma CloneJoins(x: System, r: RunnerId, task: DueTask, y: System)
    requires Lineage(x) && r in x.runners && x.runners[r].Cloning? && x.runners[r].task == task
    requires x.nextId !in x.born && SnapshotOk(x.born, task) && task.id < x.nextId && Repeats(task.task.repeat)
    requires y.parent == x.parent[x.nextId := task.id] && y.completed == x.completed
    requires y.born == x.born[x.nextId := task.task.(runDate := NextRepeat(task.task.runDate, task.task.repeat),
                                                     processed := false)]
    requires r in y.runners && y.runners == x.runners[r := y.runners[r]] && !y.runners[r].Cloning?
    ensures Lineage(y)
  {
    hide NextRepeat;
    forall c | c in y.parent
      ensures IsCloneOf(y, c, y.parent[c])
    {
      if c != x.nextId { assert IsCloneOf(x, c, x.parent[c]); }
    }
    NewValue(x.parent, x.nextId, task.id);
  }

  lemma NewValue(m: map<TaskId, TaskId>, k: TaskId, v: TaskId)
    requires k !in m
    ensures m[k := v].Values == m.Values + {v}
  {
    assert forall c :: c in m ==> m[k := v][c] == m[c];
    assert m[k := v][k] == v;
  }

  lemma ClosedKept(x: System, r: RunnerId, a: Action, y: System)
    requires History(x) && ClosedByTask(x) && Next(x, r, a, y)
    ensures ClosedByTask(y)
  {
    hide History, ClosedByTask, Loads, ScanningNext, RunningNext, ThrowingNext, CloningNext, RowsStep;
    if FromRunner(a) {
      RunnerStepShape(x, r, a, y);
      match x.runners[r] {
        case Idle =>
        case Scanning(rest) => ClosedStays(x, r, y);
        case Running(task, rest) => RunningCloses(x, r, task, rest, a, y);
        case Throwing(task, rest) => ClosedStays(x, r, y);
        case Cloning(task, rest) => ClosedStays(x, r, y);
      }
    } else {
      EnvironmentCloses(x, r, a, y);
    }
  }

  /** Accounts only ever close; a new one is not yet named by any completed task's account set. */
  ghost predicate OnlyCloses(x: System, y: System) {
    forall k :: k in x.open ==> k in y.open && (y.open[k] ==> x.open[k])
  }

  lemma ClosedFrom(x: System, y: System)
    requires RowsBorn(x) && RunOnce(x) && ClosedByTask(x) && RowsStep(x, y) && y.completed == x.completed && OnlyCloses(x, y)
    ensures ClosedByTask(y)
  {}

  lemma ClosedStays(x: System, r: RunnerId, y: System)
    requires History(x) && ClosedByTask(x) && r in x.runners && !x.runners[r].Running? && RunnerStep(x, r, x.runners[r], y)
    ensures ClosedByTask(y)
  {
    hide RowsBorn, RunOnce, PhasesOk, ClosedByTask, RowsStep;
    ClosedFrom(x, y);
  }

  lemma EnvironmentCloses(x: System, r: RunnerId, a: Action, y: System)
    requires History(x) && ClosedByTask(x) && Next(x, r, a, y) && !FromRunner(a)
    ensures ClosedByTask(y)
  {
    hide RunnerNext, RowsBorn, RunOnce, PhasesOk, ClosedByTask, RowsStep, Loads;
    EnvironmentStep(x, r, a, y);
    ClosedFrom(x, y);
  }

  lemma RunningCloses(x: System, r: RunnerId, task: DueTask, rest: seq<DueTask>, a: Action, y: System)
    requires History(x) && ClosedByTask(x) && r in x.runners && x.runners[r] == Running(task, rest)
    requires RunningNext(x, r, task, rest, a, y)
    ensures ClosedByTask(y)
  {
    TaskIsCarried(x, r);
    hide History;
  }

  lemma StepKeepsInv(x: System, r: RunnerId, a: Action, y: System)
    requires Inv(x) && Next(x, r, a, y)
    ensures Inv(y)
  {
    hide Next, Ownership, History, Lineage, ClosedByTask;
    OwnershipKept(x, r, a, y);
    HistoryKept(x, r, a, y);
    LineageKept(x, r, a, y);
    ClosedKept(x, r, a, y);
  }
}
