/** What failure-free passes of one runner achieve: past-due chains catch up and stop being due, and the
    accounts still open past their end date are exactly those with no live close task. */
module CatchUp {
  import opened Calendar
  import opened SchedulerTasks
  import opened SavingAccounts
  import opened SchedulerRunner

  // ---------------------------------------------------------------------
  // The summary adds up
  // ---------------------------------------------------------------------

  function Failing(accounts: set<AccountId>, w: World): (TaskId, Task) -> bool {
    (id: TaskId, t: Task) => FateOf(id, t, accounts, w).Unknown? || FateOf(id, t, accounts, w).Thrown?
  }

  function RanUncloned(accounts: set<AccountId>, w: World): (TaskId, Task) -> bool {
    (id: TaskId, t: Task) => FateOf(id, t, accounts, w).Ran? && t.repeat != NONE && !Clones(id, t, accounts, w)
  }

  function RanAndCloned(accounts: set<AccountId>, w: World): (TaskId, Task) -> bool {
    (id: TaskId, t: Task) => Clones(id, t, accounts, w)
  }

  lemma DisjointSizes(a: set<TaskId>, b: set<TaskId>)
    requires a !! b
    ensures |a + b| == |a| + |b|
  {}

  /** Each loaded row is counted once, as processed, skipped or failed; a row that ran and could not be
      cloned, an unknown repeat included, is counted as errored a second time. Clones are as many as the
      rows that ran, repeat, and were inserted. */
  lemma SummaryAddsUp(x: map<TaskId, Task>, before: map<AccountId, Account>, w: World, today: int, s: Summary,
                      y: map<TaskId, Task>, accounts: map<AccountId, Account>, parent: map<TaskId, TaskId>)
    requires Progress(x, before, w, DueIds(x, today), s, y, accounts, parent) && s.loaded == |DueIds(x, today)|
    ensures var keys, due := before.Keys, DueIds(x, today);
            && s.processed + s.skippedClaimed + |Where(x, due, Failing(keys, w))| == s.loaded
            && s.errored == |Where(x, due, Failing(keys, w))| + |Where(x, due, RanUncloned(keys, w))|
            && s.cloned == |Where(x, due, RanAndCloned(keys, w))|
            && s.failedDelivery <= s.processed && s.cloned <= s.processed
  {
    hide FateOf, Due;
    var keys, due := before.Keys, DueIds(x, today);
    var ran, taken, failing := Where(x, due, HasRun(keys, w)), Where(x, due, WasTaken(keys, w)), Where(x, due, Failing(keys, w));
    FatesCover(x, keys, w, today);
    DisjointSizes(ran, taken);
    DisjointSizes(ran + taken, failing);
    ErringSplits(x, keys, w, due);
    DisjointSizes(failing, Where(x, due, RanUncloned(keys, w)));
    SubsetIsSmaller(Where(x, due, Undelivered(keys, w)), ran);
    SubsetIsSmaller(Where(x, due, RanAndCloned(keys, w)), ran);
    ClonesAreCounted(x, y, keys, w, due, parent);
  }

  lemma FatesCover(x: map<TaskId, Task>, keys: set<AccountId>, w: World, today: int)
    ensures var due := DueIds(x, today);
            var ran, taken := Where(x, due, HasRun(keys, w)), Where(x, due, WasTaken(keys, w));
            var failing := Where(x, due, Failing(keys, w));
            due == ran + taken + failing && ran !! taken && ran + taken !! failing
  {}

  lemma ErringSplits(x: map<TaskId, Task>, keys: set<AccountId>, w: World, due: set<TaskId>)
    ensures Where(x, due, HasErred(keys, w)) == Where(x, due, Failing(keys, w)) + Where(x, due, RanUncloned(keys, w))
    ensures Where(x, due, Failing(keys, w)) !! Where(x, due, RanUncloned(keys, w))
    ensures Where(x, due, Undelivered(keys, w)) <= Where(x, due, HasRun(keys, w))
    ensures Where(x, due, RanAndCloned(keys, w)) <= Where(x, due, HasRun(keys, w))
  {}

  lemma ClonesAreCounted(x: map<TaskId, Task>, y: map<TaskId, Task>, keys: set<AccountId>, w: World, due: set<TaskId>,
                         parent: map<TaskId, TaskId>)
    requires After(x, y, keys, w, due, parent)
    ensures |parent| == |Where(x, due, RanAndCloned(keys, w))|
  {
    hide FateOf, CloneOf, Clones, EndsProcessed;
    var sources := Where(x, due, RanAndCloned(keys, w));
    forall id | id in parent.Values
      ensures id in sources
    {
      var c :| c in parent && parent[c] == id;
      assert RanAndCloned(keys, w)(id, x[id]);
    }
    forall id | id in sources
      ensures id in parent.Values
    {
      assert RanAndCloned(keys, w)(id, x[id]);
    }
    assert parent.Values == sources;
    ValuesOfInjective(parent);
  }

  lemma {:induction false} ValuesOfInjective(m: map<TaskId, TaskId>)
    requires forall c, d :: c in m && d in m && m[c] == m[d] ==> c == d
    ensures |m.Values| == |m|
  {
    if m == map[] {
      assert m.Values == {};
    } else {
      var k :| k in m;
      var rest := m - {k};
      assert rest.Keys == m.Keys - {k} && forall c :: c in rest ==> rest[c] == m[c];
      ValuesOfInjective(rest);
      forall v | v in m.Values
        ensures v in rest.Values + {m[k]}
      {
        var c :| c in m && m[c] == v;
        assert c == k || (c in rest && rest[c] == v);
      }
      assert m.Values == rest.Values + {m[k]} && m[k] !in rest.Values;
      assert |m| == |m.Keys| && |rest| == |rest.Keys|;
    }
  }

  // ---------------------------------------------------------------------
  // Catching up
  // ---------------------------------------------------------------------

  predicate Healthy(t: Task, accounts: set<AccountId>) {
    Known(t.kind) && CanRun(t, accounts)
  }

  /** A failure-free pass of one runner: every healthy due row is done, each that repeats gets exactly one
      clone, which this pass does not touch, and nothing else changes. */
  ghost predicate CleanPass(x: map<TaskId, Task>, y: map<TaskId, Task>, accounts: set<AccountId>, today: int,
                            parent: map<TaskId, TaskId>) {
    && (forall id :: id in x ==> id in y && y[id] == (if Due(x[id], today) && Healthy(x[id], accounts)
                                                      then x[id].(processed := true) else x[id]))
    && y.Keys == x.Keys + parent.Keys && x.Keys !! parent.Keys
    && (forall c :: c in parent ==> parent[c] in x && Due(x[parent[c]], today) && Healthy(x[parent[c]], accounts)
                                    && Repeats(x[parent[c]].repeat) && y[c] == CloneOf(x[parent[c]]))
    && (forall c, d :: c in parent && d in parent && parent[c] == parent[d] ==> c == d)
    && (forall id :: id in x && Due(x[id], today) && Healthy(x[id], accounts) && Repeats(x[id].repeat) ==> id in parent.Values)
  }

  lemma CalmPassIsClean(x: map<TaskId, Task>, before: map<AccountId, Account>, w: World, today: int, s: Summary,
                        y: map<TaskId, Task>, accounts: map<AccountId, Account>, parent: map<TaskId, TaskId>)
    requires Progress(x, before, w, DueIds(x, today), s, y, accounts, parent) && Calm(w)
    ensures CleanPass(x, y, before.Keys, today, parent)
    ensures Where(x, DueIds(x, today), IsLost(before.Keys, w)) == {}
  {
    hide CloneOf, LocalDay, Repeats, Counts, Calm, Healthy, FateOf, EndsProcessed, Clones, Due;
    forall id | id in x
      ensures CalmFate(id, x[id], before.Keys, w)
    {
      CalmMeansHealthyRuns(id, x[id], before.Keys, w);
    }
  }

  /** With nothing going wrong, a row runs exactly when it is healthy. */
  ghost predicate CalmFate(id: TaskId, t: Task, accounts: set<AccountId>, w: World) {
    && (EndsProcessed(FateOf(id, t, accounts, w)) <==> Healthy(t, accounts))
    && (Clones(id, t, accounts, w) <==> Healthy(t, accounts) && Repeats(t.repeat))
    && !FateOf(id, t, accounts, w).Taken? && FateOf(id, t, accounts, w) != Thrown(false)
  }

  lemma CalmMeansHealthyRuns(id: TaskId, t: Task, accounts: set<AccountId>, w: World)
    requires Calm(w)
    ensures CalmFate(id, t, accounts, w)
  {}

  /** Passes of one day, one after another. */
  ghost predicate CleanPasses(tables: seq<map<TaskId, Task>>, accounts: set<AccountId>, today: int,
                              parents: seq<map<TaskId, TaskId>>) {
    && |tables| == |parents| + 1
    && forall i :: 0 <= i < |parents| ==> CleanPass(tables[i], tables[i + 1], accounts, today, parents[i])
  }

  ghost predicate DueNotBefore(rows: map<TaskId, Task>, accounts: set<AccountId>, today: int, day: int) {
    forall id :: id in rows && Due(rows[id], today) && Healthy(rows[id], accounts) ==> LocalDay(rows[id].runDate) >= day
  }

  /** Each pass moves every healthy due chain on by one occurrence: what is still due afterwards is a
      clone, due at least one day later than anything was. */
  lemma PassMovesOn(x: map<TaskId, Task>, y: map<TaskId, Task>, accounts: set<AccountId>, today: int, parent: map<TaskId, TaskId>,
                    day: int)
    requires CleanPass(x, y, accounts, today, parent) && DueNotBefore(x, accounts, today, day)
    ensures DueNotBefore(y, accounts, today, day + 1)
    ensures forall id :: id in y && Due(y[id], today) && Healthy(y[id], accounts) ==> id in parent
  {
    hide NextRepeat, LocalDay;
    forall id | id in y && Due(y[id], today) && Healthy(y[id], accounts)
      ensures id in parent && LocalDay(y[id].runDate) >= day + 1
    {
      assert id in y.Keys && id !in x;
      NextRepeatIsLater(x[parent[id]].runDate, x[parent[id]].repeat);
    }
  }

  /** After n passes of a fixed day, nothing healthy is due that lies fewer than n days after the oldest. */
  lemma {:induction false} PassesMoveOn(tables: seq<map<TaskId, Task>>, accounts: set<AccountId>, today: int,
                                        parents: seq<map<TaskId, TaskId>>, day: int, n: nat)
    requires CleanPasses(tables, accounts, today, parents) && n < |tables| && DueNotBefore(tables[0], accounts, today, day)
    ensures DueNotBefore(tables[n], accounts, today, day + n)
  {
    hide CleanPass, DueNotBefore;
    if n > 0 {
      PassesMoveOn(tables, accounts, today, parents, day, n - 1);
      assert CleanPass(tables[n - 1], tables[n - 1 + 1], accounts, today, parents[n - 1]);
      PassMovesOn(tables[n - 1], tables[n], accounts, today, parents[n - 1], day + n - 1);
    }
  }

  /** Rows that cannot run are the only ones passes never touch or add. */
  ghost predicate SameUnhealthy(x: map<TaskId, Task>, y: map<TaskId, Task>, accounts: set<AccountId>) {
    && (forall id :: id in x && !Healthy(x[id], accounts) ==> id in y && y[id] == x[id])
    && (forall id :: id in y && !Healthy(y[id], accounts) ==> id in x && y[id] == x[id])
  }

  lemma PassKeepsUnhealthy(x: map<TaskId, Task>, y: map<TaskId, Task>, accounts: set<AccountId>, today: int,
                           parent: map<TaskId, TaskId>)
    requires CleanPass(x, y, accounts, today, parent)
    ensures SameUnhealthy(x, y, accounts)
  {
    hide NextRepeat, LocalDay, Due;
    forall id | id in y && !Healthy(y[id], accounts)
      ensures id in x && y[id] == x[id]
    {
      assert id in y.Keys;
    }
  }

  lemma {:induction false} PassesKeepUnhealthy(tables: seq<map<TaskId, Task>>, accounts: set<AccountId>, today: int,
                                               parents: seq<map<TaskId, TaskId>>, n: nat)
    requires CleanPasses(tables, accounts, today, parents) && n < |tables|
    ensures SameUnhealthy(tables[0], tables[n], accounts)
  {
    hide CleanPass, Healthy;
    if n > 0 {
      PassesKeepUnhealthy(tables, accounts, today, parents, n - 1);
      assert CleanPass(tables[n - 1], tables[n - 1 + 1], accounts, today, parents[n - 1]);
      PassKeepsUnhealthy(tables[n - 1], tables[n], accounts, today, parents[n - 1]);
    }
  }

  /** Catch-up terminates: after enough passes of one day, what is still due is exactly what cannot run,
      an unknown type or a close row with no account, as it was at the start. */
  lemma CatchUpTerminates(tables: seq<map<TaskId, Task>>, accounts: set<AccountId>, today: int,
                          parents: seq<map<TaskId, TaskId>>, day: int)
    requires CleanPasses(tables, accounts, today, parents) && DueNotBefore(tables[0], accounts, today, day)
    requires |parents| > today - day
    ensures forall id :: (id in tables[|parents|] && Due(tables[|parents|][id], today))
                         <==> (id in tables[0] && Due(tables[0][id], today) && !Healthy(tables[0][id], accounts))
  {
    hide CleanPass, LocalDay, Healthy;
    PassesMoveOn(tables, accounts, today, parents, day, |parents|);
    PassesKeepUnhealthy(tables, accounts, today, parents, |parents|);
  }

  // ---------------------------------------------------------------------
  // The CAP auto-close
  // ---------------------------------------------------------------------

  /** After a failure-free pass, an account is open past its end date exactly when it was and has no
      unprocessed close task: its task is missing, or its claim was lost earlier. */
  lemma OnlyOrphansStayOpen(x: map<TaskId, Task>, before: map<AccountId, Account>, w: World, today: int, s: Summary,
                            y: map<TaskId, Task>, after: map<AccountId, Account>, parent: map<TaskId, TaskId>,
                            stranded: set<TaskId>, account: AccountId)
    requires Progress(x, before, w, DueIds(x, today), s, y, after, parent) && Calm(w)
    requires ClosesScheduled(x, before) && CloseTasksDone(x, before, stranded) && account in before
    ensures account in after
    ensures Overdue(after[account], today) <==>
              Overdue(before[account], today) && forall id :: id in x && Names(x[id], account) ==> x[id].processed
    ensures Overdue(after[account], today) ==> forall id :: id in y && Names(y[id], account) ==> y[id].processed && id in stranded
  {
    hide LocalDay, Ordinal, CloneOf, Counts;
    forall id | id in x && Names(x[id], account) && !x[id].processed && Overdue(before[account], today)
      ensures account in ClosedIn(x, before.Keys, w, DueIds(x, today))
    {
      assert FateOf(id, x[id], before.Keys, w).Ran?;
      assert id in DueIds(x, today);
    }
    if Overdue(after[account], today) {
      PassKeepsClosesScheduled(x, y, before, after, w, DueIds(x, today), parent);
      forall id | id in y && Names(y[id], account)
        ensures y[id].processed && id in stranded
      {
        assert id in y.Keys;
      }
    }
  }
}
