/** What holds over every run of the scheduler runners. */
module SchedulerRuns {
  import opened Calendar
  import opened SchedulerTasks
  import opened SchedulerProtocol

  datatype Step = Step(runner: RunnerId, action: Action)

  /** A table with no runner at work. Rows already processed count as completed. */
  ghost predicate Initial(x: System) {
    && x.runners == map[] && x.stranded == {} && x.parent == map[] && x.born == x.rows
    && (forall id :: id in x.rows ==> id < x.nextId)
    && (forall id :: id in x.completed ==> x.completed[id] == 1)
    && (forall id :: id in x.completed <==> id in x.rows && x.rows[id].processed)
    && ClosedByTask(x)
  }

  ghost predicate Run(states: seq<System>, steps: seq<Step>) {
    && |states| == |steps| + 1 && Initial(states[0])
    && forall i :: 0 <= i < |steps| ==> Next(states[i], steps[i].runner, steps[i].action, states[i + 1])
  }

  lemma InitialIsInv(x: System)
    requires Initial(x)
    ensures Inv(x)
  {}

  lemma {:induction false} RunKeepsInv(states: seq<System>, steps: seq<Step>, n: nat)
    requires Run(states, steps) && n < |states|
    ensures Inv(states[n])
  {
    hide Next, Inv, Initial;
    if n == 0 {
      InitialIsInv(states[0]);
    } else {
      RunKeepsInv(states, steps, n - 1);
      assert Next(states[n - 1], steps[n - 1].runner, steps[n - 1].action, states[n - 1 + 1]);
      StepKeepsInv(states[n - 1], steps[n - 1].runner, steps[n - 1].action, states[n]);
    }
  }

  // ---------------------------------------------------------------------
  // Safety
  // ---------------------------------------------------------------------

  /** An existing row is processed exactly when one runner holds it, or it is done, or it is stranded;
      never two of these, and never two runners. */
  lemma ProcessedMeansOwned(states: seq<System>, steps: seq<Step>, n: nat, id: TaskId)
    requires Run(states, steps) && n < |states|
    ensures var x := states[n];
            && (id in x.rows ==> (x.rows[id].processed <==> Held(x, id) || id in x.completed || id in x.stranded))
            && !(Held(x, id) && id in x.completed) && !(Held(x, id) && id in x.stranded)
            && !(id in x.completed && id in x.stranded)
            && (forall r, s :: r in x.runners && s in x.runners && Holds(x.runners[r], id) && Holds(x.runners[s], id) ==> r == s)
  {
    hide Run, History, Lineage, ClosedByTask, Held;
    RunKeepsInv(states, steps, n);
    assert Owned(states[n], id);
  }

  /** However many runners, each row's executer returns at most once and gets at most one clone. */
  lemma AtMostOnce(states: seq<System>, steps: seq<Step>, n: nat, id: TaskId)
    requires Run(states, steps) && n < |states|
    ensures states[n].completed[id] <= 1
    ensures forall c, d :: c in states[n].parent && d in states[n].parent && states[n].parent[c] == states[n].parent[d] ==> c == d
    ensures id in states[n].parent.Values ==> id in states[n].completed
  {
    hide Run, Ownership, ClosedByTask;
    RunKeepsInv(states, steps, n);
    ParentsCompleted(states[n]);
  }

  /** In every run without a manual edit of an account, a close task that finished has closed it. */
  lemma FinishedCloseTaskClosed(states: seq<System>, steps: seq<Step>, n: nat, id: TaskId)
    requires Run(states, steps) && n < |states|
    requires id in states[n].rows && states[n].rows[id].processed && id !in states[n].stranded && !Held(states[n], id)
    requires states[n].rows[id].kind == CLOSE_SAVING_ACCOUNT
    ensures states[n].rows[id].payload.CloseAccount?
    ensures var account := states[n].rows[id].payload.account; account in states[n].open && !states[n].open[account]
  {
    ProcessedMeansOwned(states, steps, n, id);
    hide Run, Ownership, Lineage;
    RunKeepsInv(states, steps, n);
  }

  // ---------------------------------------------------------------------
  // Repeat chains
  // ---------------------------------------------------------------------

  /** Row `c` is the n-th repetition of row `p`. */
  ghost predicate Heir(x: System, p: TaskId, n: nat, c: TaskId)
    decreases n
  {
    if n == 0 then c == p else c in x.parent && Heir(x, p, n - 1, x.parent[c])
  }

  /** A repeat chain never forks: a row has one n-th repetition at most. */
  lemma {:induction false} ChainNeverForks(states: seq<System>, steps: seq<Step>, m: nat, p: TaskId, n: nat, c: TaskId, d: TaskId)
    requires Run(states, steps) && m < |states| && Heir(states[m], p, n, c) && Heir(states[m], p, n, d)
    ensures c == d
    decreases n
  {
    hide Run, Ownership, History, ClosedByTask, Cloners, IsCloneOf;
    RunKeepsInv(states, steps, m);
    if n > 0 { ChainNeverForks(states, steps, m, p, n - 1, states[m].parent[c], states[m].parent[d]); }
  }

  /** The n-th repetition is the same task, due at least n local days later, and everything before it in
      the chain has completed: a chain has one live row at most. */
  lemma {:induction false} ChainMovesForward(states: seq<System>, steps: seq<Step>, m: nat, p: TaskId, n: nat, c: TaskId)
    requires Run(states, steps) && m < |states| && n > 0 && Heir(states[m], p, n, c)
    ensures var x := states[m];
            && p in x.born && c in x.born && p < c && p in x.completed && x.parent[c] in x.completed
            && x.born[c].kind == x.born[p].kind && x.born[c].payload == x.born[p].payload
            && x.born[c].repeat == x.born[p].repeat && Repeats(x.born[p].repeat)
            && LocalDay(x.born[c].runDate) >= LocalDay(x.born[p].runDate) + n
    decreases n
  {
    hide Run, Ownership, History, ClosedByTask, Cloners, LocalDay, NextRepeat;
    RunKeepsInv(states, steps, m);
    var x := states[m];
    var before := x.parent[c];
    assert IsCloneOf(x, c, before);
    NextRepeatIsLater(x.born[before].runDate, x.born[before].repeat);
    if n > 1 { ChainMovesForward(states, steps, m, p, n - 1, before); }
  }

  // ---------------------------------------------------------------------
  // Stranded rows
  // ---------------------------------------------------------------------

  lemma StrandedStep(x: System, r: RunnerId, a: Action, y: System, id: TaskId)
    requires Next(x, r, a, y) && id in x.stranded && a != ReleaseByHand(id)
    ensures id in y.stranded
  {
    hide RunnerNext, Loads;
    if FromRunner(a) { RunnerStepShape(x, r, a, y); }
  }

  /** A claim lost to a failed release or a crash is never retried: only a release by hand frees it. */
  lemma {:induction false} StrandedUntilReleased(states: seq<System>, steps: seq<Step>, i: nat, j: nat, id: TaskId)
    requires Run(states, steps) && i <= j < |states| && id in states[i].stranded
    requires forall k :: i <= k < j ==> steps[k].action != ReleaseByHand(id)
    ensures id in states[j].stranded && states[j].completed[id] == 0 && !Held(states[j], id)
    decreases j
  {
    hide Next, Held;
    ProcessedMeansOwned(states, steps, j, id);
    if i < j {
      StrandedUntilReleased(states, steps, i, j - 1, id);
      assert Next(states[j - 1], steps[j - 1].runner, steps[j - 1].action, states[j - 1 + 1]);
      StrandedStep(states[j - 1], steps[j - 1].runner, steps[j - 1].action, states[j], id);
    }
  }

  // ---------------------------------------------------------------------
  // What one row goes through
  // ---------------------------------------------------------------------

  /** A pass loads exactly the rows not done and dated today or before, each once, as they are. */
  lemma LoadTakesTheDay(x: System, r: RunnerId, today: int, due: seq<DueTask>, y: System)
    requires Next(x, r, Load(today, due), y)
    ensures y == x.(runners := x.runners[r := Scanning(due)])
    ensures forall d :: d in due <==>
                        d.id in x.rows && d.task == x.rows[d.id] && !d.task.processed && LocalDay(d.task.runDate) <= today
    ensures forall i, j :: 0 <= i < j < |due| ==> due[i].id != due[j].id
  {
    hide LocalDay;
  }

  lemma ClaimStep(x: System, r: RunnerId, d: DueTask, rest: seq<DueTask>, y: System)
    requires r in x.runners && x.runners[r] == Scanning([d] + rest) && d.id in x.rows && !x.rows[d.id].processed
    requires Next(x, r, Claim, y)
    ensures d.task.kind in {0, 1}
    ensures y == x.(rows := x.rows[d.id := x.rows[d.id].(processed := true)], runners := x.runners[r := Running(d, rest)])
  {
    assert ([d] + rest)[1..] == rest;
  }

  lemma ReturnStep(x: System, r: RunnerId, d: DueTask, rest: seq<DueTask>, y: System)
    requires r in x.runners && x.runners[r] == Running(d, rest) && Next(x, r, ExecuterReturns, y)
    ensures d.task.kind == 1 ==> d.task.payload.CloseAccount? && d.task.payload.account in x.open
    ensures y == x.(open := if d.task.kind == 1 then x.open[d.task.payload.account := false] else x.open,
                    completed := x.completed + multiset{d.id}, runners := x.runners[r := Cloning(d, rest)])
  {}

  lemma CloneStep(x: System, r: RunnerId, d: DueTask, rest: seq<DueTask>, y: System)
    requires r in x.runners && x.runners[r] == Cloning(d, rest) && Next(x, r, Clone, y)
    ensures y.runners == x.runners[r := Scanning(rest)]
    ensures y.completed == x.completed && y.stranded == x.stranded && y.open == x.open
    ensures if 1 <= d.task.repeat <= 4 then
              && x.nextId in y.rows && y.rows == x.rows[x.nextId := y.rows[x.nextId]] && y.nextId == x.nextId + 1
              && y.rows[x.nextId] ==
                 Task(d.task.kind, NextRepeat(d.task.runDate, d.task.repeat), d.task.repeat, d.task.payload, false)
              && y.parent == x.parent[x.nextId := d.id]
            else y.rows == x.rows && y.nextId == x.nextId && y.parent == x.parent
  {
    hide NextRepeat;
  }

  lemma ThrowStep(x: System, r: RunnerId, d: DueTask, rest: seq<DueTask>, applied: bool, y: System)
    requires r in x.runners && x.runners[r] == Running(d, rest) && Next(x, r, ExecuterThrows(applied), y)
    ensures y.runners == x.runners[r := Throwing(d, rest)] && y.rows == x.rows && y.completed == x.completed
    ensures y.stranded == x.stranded && (!applied ==> y.open == x.open)
  {}

  lemma ReleaseStep(x: System, r: RunnerId, d: DueTask, rest: seq<DueTask>, y: System)
    requires r in x.runners && x.runners[r] == Throwing(d, rest) && d.id in x.rows && Next(x, r, Release, y)
    ensures y == x.(rows := x.rows[d.id := x.rows[d.id].(processed := false)], runners := x.runners[r := Scanning(rest)])
  {}

  /** Claimed, run and cloned with nothing failing: the row is done once more than before, a close row's account
      is closed, a repeating row has a fresh unprocessed copy at the next occurrence, recorded as its clone, and
      the runner goes on with the rest. Nothing else changes. */
  lemma RowCompletes(x: System, r: RunnerId, d: DueTask, rest: seq<DueTask>, a: System, b: System, y: System)
    requires r in x.runners && x.runners[r] == Scanning([d] + rest)
    requires d.id in x.rows && !x.rows[d.id].processed && d.id < x.nextId
    requires Next(x, r, Claim, a) && Next(a, r, ExecuterReturns, b) && Next(b, r, Clone, y)
    ensures d.task.kind in {0, 1} && y.runners == x.runners[r := Scanning(rest)]
    ensures y.completed == x.completed + multiset{d.id} && y.stranded == x.stranded
    ensures d.task.kind == 1 ==>
              && d.task.payload.CloseAccount? && d.task.payload.account in x.open
              && y.open == x.open[d.task.payload.account := false]
    ensures d.task.kind == 0 ==> y.open == x.open
    ensures var done := x.rows[d.id := x.rows[d.id].(processed := true)];
            if 1 <= d.task.repeat <= 4 then
              && x.nextId in y.rows && y.rows == done[x.nextId := y.rows[x.nextId]] && y.nextId == x.nextId + 1
              && y.rows[x.nextId] ==
                 Task(d.task.kind, NextRepeat(d.task.runDate, d.task.repeat), d.task.repeat, d.task.payload, false)
              && y.parent == x.parent[x.nextId := d.id]
            else y.rows == done && y.nextId == x.nextId && y.parent == x.parent
  {
    hide Next, NextRepeat;
    ClaimStep(x, r, d, rest, a);
    ReturnStep(a, r, d, rest, b);
    CloneStep(b, r, d, rest, y);
  }

  /** Those steps are there to be taken whenever the row is of a known type and its executer can run. */
  lemma RowCanComplete(x: System, r: RunnerId, d: DueTask, rest: seq<DueTask>) returns (a: System, b: System, y: System)
    requires r in x.runners && x.runners[r] == Scanning([d] + rest) && d.id in x.rows && !x.rows[d.id].processed
    requires d.task.kind == 0 || (d.task.kind == 1 && d.task.payload.CloseAccount? && d.task.payload.account in x.open)
    ensures Next(x, r, Claim, a) && Next(a, r, ExecuterReturns, b) && Next(b, r, Clone, y)
  {
    hide Next, NextRepeat;
    a := CanClaim(x, r, d, rest);
    b := CanReturn(a, r, d, rest);
    y := CanClone(b, r, d, rest);
  }

  lemma CanClaim(x: System, r: RunnerId, d: DueTask, rest: seq<DueTask>) returns (y: System)
    requires r in x.runners && x.runners[r] == Scanning([d] + rest) && d.id in x.rows && !x.rows[d.id].processed
    requires d.task.kind in {0, 1}
    ensures Next(x, r, Claim, y) && r in y.runners && y.runners[r] == Running(d, rest) && y.open == x.open
  {
    assert ([d] + rest)[1..] == rest;
    y := Move(Mark(x, d.id, true), r, Running(d, rest));
  }

  lemma CanReturn(x: System, r: RunnerId, d: DueTask, rest: seq<DueTask>) returns (y: System)
    requires r in x.runners && x.runners[r] == Running(d, rest)
    requires d.task.kind == 0 || (d.task.kind == 1 && d.task.payload.CloseAccount? && d.task.payload.account in x.open)
    ensures Next(x, r, ExecuterReturns, y) && r in y.runners && y.runners[r] == Cloning(d, rest)
  {
    y := Move(Executed(x, d.task).(completed := x.completed + multiset{d.id}), r, Cloning(d, rest));
  }

  lemma CanClone(x: System, r: RunnerId, d: DueTask, rest: seq<DueTask>) returns (y: System)
    requires r in x.runners && x.runners[r] == Cloning(d, rest)
    ensures Next(x, r, Clone, y)
  {
    hide NextRepeat;
    y := Move(Cloned(x, d), r, Scanning(rest));
  }

  /** Claimed, thrown and released: the rows are as they were, and the row can be claimed again. */
  lemma ThrownRowIsFreed(x: System, r: RunnerId, d: DueTask, rest: seq<DueTask>, applied: bool, a: System, b: System, y: System)
    requires r in x.runners && x.runners[r] == Scanning([d] + rest) && d.id in x.rows && !x.rows[d.id].processed
    requires Next(x, r, Claim, a) && Next(a, r, ExecuterThrows(applied), b) && Next(b, r, Release, y)
    ensures y.rows == x.rows && y.runners == x.runners[r := Scanning(rest)]
    ensures y.completed == x.completed && y.stranded == x.stranded
    ensures a.rows == x.rows[d.id := x.rows[d.id].(processed := true)] && a.runners == x.runners[r := Running(d, rest)]
    ensures !applied ==> y.open == x.open
  {
    hide Next;
    ClaimStep(x, r, d, rest, a);
    ThrowStep(a, r, d, rest, applied, b);
    ReleaseStep(b, r, d, rest, y);
  }

  /** Thrown and not released, or crashed on: the row stays processed and stranded, until it is released by hand. */
  lemma LostRowIsStranded(x: System, r: RunnerId, d: DueTask, rest: seq<DueTask>, a: Action, y: System, s: RunnerId, z: System)
    requires r in x.runners && d.id in x.rows && x.rows[d.id].processed
    requires (x.runners[r] == Throwing(d, rest) && (a == ReleaseFails(false) || a.Crash?))
             || (x.runners[r] == Running(d, rest) && a.Crash?)
    requires Next(x, r, a, y) && Next(y, s, ReleaseByHand(d.id), z)
    ensures y.rows == x.rows && d.id in y.stranded && y.completed == x.completed
    ensures z.rows == x.rows[d.id := x.rows[d.id].(processed := false)] && d.id !in z.stranded && z.completed == x.completed
  {}

  /** A row already processed is passed over, and one of an unknown type is never claimed. */
  lemma OtherRowsArePassedOver(x: System, r: RunnerId, d: DueTask, rest: seq<DueTask>, a: Action, y: System)
    requires r in x.runners && x.runners[r] == Scanning([d] + rest) && Next(x, r, a, y) && !a.Crash? && FromRunner(a)
    requires d.id !in x.rows || x.rows[d.id].processed || d.task.kind !in {0, 1}
    ensures y == x.(runners := x.runners[r := Scanning(rest)])
    ensures a.SkipUnknown? <==> d.task.kind !in {0, 1}
  {
    assert ([d] + rest)[1..] == rest;
  }
}
