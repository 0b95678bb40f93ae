/** Races between loan sessions: who loses, what the loser is told, who waits for whom. */
module LoanRaces {
  import opened Options
  import opened Calendar
  import opened LoanRules
  import opened LoanProtocol
  import opened LoanRuns

  // ---------------------------------------------------------------------
  // The loser of a compare-and-set
  // ---------------------------------------------------------------------

  lemma OthersUnchanged(x: System, t: SessionId, a: Action, y: System, sid: SessionId)
    requires Next(x, t, a, y) && t != sid
    ensures sid in y.sessions <==> sid in x.sessions
    ensures sid in x.sessions ==> y.sessions[sid] == x.sessions[sid]
  {
    hide UpdateNext, BulkNext, RequestNext, RefinanceNext;
    if !a.Begin? {
      match x.sessions[t].job {
        case Update(id, target) => UpdateStepsAlone(x, t, id, target, a, y);
        case Bulk(file) => BulkStepsAlone(x, t, file, a, y);
        case Request(owner, terms) => RequestStepsAlone(x, t, owner, terms, a, y);
        case Refinance(parent, actor, renewal) => RefinanceStepsAlone(x, t, parent, actor, renewal, a, y);
      }
    }
  }

  predicate OnlyMoves(x: System, t: SessionId, y: System) {
    t in y.sessions && y.sessions == x.sessions[t := y.sessions[t]]
  }

  lemma UpdateStepsAlone(x: System, t: SessionId, id: LoanId, target: int, a: Action, y: System)
    requires t in x.sessions && UpdateNext(x, t, id, target, a, y)
    ensures OnlyMoves(x, t, y)
  {
    hide ApprovalFigures, FirstDetail, LoanFree, DetailFree, Legal;
  }

  lemma BulkStepsAlone(x: System, t: SessionId, file: seq<Line>, a: Action, y: System)
    requires t in x.sessions && BulkNext(x, t, file, a, y)
    ensures OnlyMoves(x, t, y)
  {
    hide Found, ToClose, LoanFree, DetailFree, Legal;
  }

  lemma RequestStepsAlone(x: System, t: SessionId, owner: nat, terms: Terms, a: Action, y: System)
    requires t in x.sessions && RequestNext(x, t, owner, terms, a, y)
    ensures OnlyMoves(x, t, y)
  {}

  lemma RefinanceStepsAlone(x: System, t: SessionId, parent: LoanId, actor: nat, renewal: Renewal, a: Action, y: System)
    requires t in x.sessions && RefinanceNext(x, t, parent, actor, renewal, a, y)
    ensures OnlyMoves(x, t, y)
  {
    hide FirstDetail, LoanFree, RefinanceValue, RenewedTerms;
  }

  lemma OnlyReadingGuards(x: System, sid: SessionId, a: Action, y: System)
    requires Next(x, sid, a, y) && sid in y.sessions && y.sessions[sid].pc.Guarded?
    ensures a == ReadAndGuard && sid in x.sessions && x.sessions[sid].job == y.sessions[sid].job && y.db == x.db
    ensures y.sessions[sid].job.Update?
    ensures var job := y.sessions[sid].job;
            job.id in x.db.loans && y.sessions[sid].pc.seen == x.db.loans[job.id]
            && Legal(x.db.loans[job.id].state, job.target)
  {}

  /** A session that has passed the guard read its row at one definite step and has not moved since. */
  lemma {:induction false} GuardedSince(states: seq<System>, moves: seq<Move>, j: nat, sid: SessionId) returns (i: nat)
    requires Run(states, moves) && j < |states| && sid in states[j].sessions && states[j].sessions[sid].pc.Guarded?
    ensures i < j && moves[i] == Move(sid, ReadAndGuard) && states[j].sessions[sid].job.Update?
    ensures var job := states[j].sessions[sid].job;
            job.id in states[i].db.loans && states[j].sessions[sid].pc.seen == states[i].db.loans[job.id]
            && Legal(states[i].db.loans[job.id].state, job.target)
    ensures forall k :: i < k < j ==> moves[k].sid != sid
    decreases j
  {
    hide Next, Inv, Legal, DbOk;
    assert j > 0;
    var x, m, y := states[j - 1], moves[j - 1], states[j - 1 + 1];
    assert Next(x, m.sid, m.action, y);
    if m.sid == sid {
      OnlyReadingGuards(x, sid, m.action, y);
      i := j - 1;
    } else {
      OthersUnchanged(x, m.sid, m.action, y, sid);
      i := GuardedSince(states, moves, j - 1, sid);
    }
  }

  lemma {:induction false} ChangeHappensSomewhere(states: seq<System>, moves: seq<Move>, i: nat, j: nat, id: LoanId)
    returns (k: nat)
    requires Run(states, moves) && i <= j < |states| && id in states[i].db.loans && id in states[j].db.loans
    requires states[i].db.loans[id].state != states[j].db.loans[id].state
    ensures i <= k < j && id in states[k].db.loans && id in states[k + 1].db.loans
    ensures states[k + 1].db.loans[id].state != states[k].db.loans[id].state
    decreases j
  {
    hide Next, Inv;
    LoanOnlyMovesForward(states, moves, i, j - 1, id);
    if states[j - 1].db.loans[id].state != states[j].db.loans[id].state {
      k := j - 1;
    } else {
      k := ChangeHappensSomewhere(states, moves, i, j - 1, id);
    }
  }

  /** A lost compare-and-set is answered 409 although the guard passed. It happens only when another
      session's commit moved the loan in between, and the 409 is the answer the request would get if
      it arrived now, except exactly when the loan was read waiting, has been approved since, and the
      request is a denial. */
  lemma LostRaceHasAWinner(states: seq<System>, moves: seq<Move>, j: nat, sid: SessionId) returns (i: nat, k: nat)
    requires Run(states, moves) && j < |moves| && moves[j] == Move(sid, CompareAndSet) && sid in states[j].sessions
    requires states[j].sessions[sid].job.Update? && states[j + 1].sessions[sid].pc == Finished(LostRace)
    ensures i < k < j && moves[i] == Move(sid, ReadAndGuard)
    ensures moves[k].sid != sid && moves[k].action.Commit? && moves[k].sid in states[k].sessions
    ensures var id, target := states[j].sessions[sid].job.id, states[j].sessions[sid].job.target;
            && id in states[i].db.loans && id in states[k].db.loans && id in states[k + 1].db.loans
            && id in states[j].db.loans
            && AnswerAlone(states[i].db.loans, id, target) == Accepted
            && Moved(states[k].db, states[k].sessions[moves[k].sid].job, id, states[k + 1].db.loans[id].state)
            && (AnswerAlone(states[j].db.loans, id, target) == Conflict <==>
                  !(states[i].db.loans[id].state == WAITING_APPROVAL && states[j].db.loans[id].state == APPROVED
                    && target == DENIED))
  {
    hide Inv, Moved, Changes, SessionOk;
    assert Next(states[j], sid, CompareAndSet, states[j + 1]);
    var job := states[j].sessions[sid].job;
    LostMeansChanged(states[j], sid, states[j + 1]);
    i := GuardedSince(states, moves, j, sid);
    LoanOnlyMovesForward(states, moves, i, j, job.id);
    k := ChangeHappensSomewhere(states, moves, i, j, job.id);
    EveryChangeIsAccountedFor(states, moves, k, job.id);
    RunKeepsInv(states, moves, j);
    InvGivesLoansOk(states[j]);
    assert LoanOk(states[j].db.loans, job.id);
  }

  lemma LostMeansChanged(x: System, sid: SessionId, y: System)
    requires Next(x, sid, CompareAndSet, y) && x.sessions[sid].job.Update?
    requires y.sessions[sid].pc == Finished(LostRace)
    ensures x.sessions[sid].pc.Guarded? && x.sessions[sid].job.id in x.db.loans
    ensures x.db.loans[x.sessions[sid].job.id].state != x.sessions[sid].pc.seen.state
  {}

  function With(x: System, sid: SessionId, s: Session): System {
    x.(sessions := x.sessions[sid := s])
  }

  lemma Extend(states: seq<System>, moves: seq<Move>, sid: SessionId, a: Action, y: System)
    returns (states': seq<System>, moves': seq<Move>)
    requires Steps(states, moves) && Inv(states[|moves|]) && Next(states[|moves|], sid, a, y)
    ensures states' == states + [y] && moves' == moves + [Move(sid, a)] && states'[|moves'|] == y
    ensures |states'| == |moves'| + 1 && Steps(states', moves') && Inv(y)
  {
    hide Next, Inv;
    states', moves' := states + [y], moves + [Move(sid, a)];
    StepKeepsInv(states[|moves|], sid, a, y);
    assert forall i :: 0 <= i < |moves| ==> Next(states[i], moves[i].sid, moves[i].action, states[i + 1]);
  }

  lemma NoSteps(x: System)
    ensures Steps([x], [])
  {}

  /** A new session opens. */
  lemma Opens(states: seq<System>, moves: seq<Move>, sid: SessionId, job: Job)
    returns (states': seq<System>, moves': seq<Move>)
    requires |states| == |moves| + 1 && Steps(states, moves) && Inv(states[|moves|]) && sid !in states[|moves|].sessions
    ensures moves' == moves + [Move(sid, Begin(job))] && |states'| == |moves'| + 1 && Steps(states', moves')
    ensures states'[0] == states[0] && Inv(states'[|moves'|])
    ensures states'[|moves'|] == With(states[|moves|], sid, Session(job, if job.Bulk? then Lines(0) else Start, map[], map[]))
  {
    hide Inv, Steps;
    var x := states[|moves|];
    states', moves' := Extend(states, moves, sid, Begin(job),
                              With(x, sid, Session(job, if job.Bulk? then Lines(0) else Start, map[], map[])));
  }

  /** The figures the update needs exist, should it be an approval that is let through. */
  predicate Priced(db: Db, job: Job) {
    job.Update? && (job.target == APPROVED && job.id in db.loans ==> ApprovalFigures(db.loans[job.id].terms).Some?)
  }

  predicate Idle(x: System) {
    forall t :: t in x.sessions ==> x.sessions[t].loans == map[] && x.sessions[t].details == map[]
  }

  /** How `updateLoan` ends when nobody else is in a transaction. */
  ghost predicate EndsAlone(x: System, sid: SessionId, y: System)
    requires sid in x.sessions && x.sessions[sid].job.Update?
  {
    var job := x.sessions[sid].job;
    && y.sessions.Keys == x.sessions.Keys
    && (forall t :: t in x.sessions && t != sid ==> y.sessions[t] == x.sessions[t])
    && match AnswerAlone(x.db.loans, job.id, job.target)
       case NotFound => y.sessions[sid].pc == Finished(Missing) && y.db == x.db
       case Conflict => y.sessions[sid].pc == Finished(Refused) && y.db == x.db
       case Accepted => y.sessions[sid].pc == Finished(Committed) && Sequential(x.db, job, y.db)
  }

  /** `updateLoan` with nobody else in a transaction: the steps exist, and they give the answer and
      the tables of the transition run alone. */
  lemma UpdateRunsAlone(x: System, sid: SessionId) returns (states: seq<System>, moves: seq<Move>)
    requires Inv(x) && Idle(x) && sid in x.sessions && x.sessions[sid].job.Update? && x.sessions[sid].pc.Start?
    requires Priced(x.db, x.sessions[sid].job)
    ensures Steps(states, moves) && states[0] == x && EndsAlone(x, sid, states[|moves|])
  {
    hide Inv, Sequential, ApprovalFigures, Legal;
    var s, id, target := x.sessions[sid], x.sessions[sid].job.id, x.sessions[sid].job.target;
    var y := With(x, sid, if id !in x.db.loans then Ended(s, Missing)
                          else if !Legal(x.db.loans[id].state, target) then Ended(s, Refused)
                          else s.(pc := Guarded(x.db.loans[id])));
    states, moves := Extend([x], [], sid, ReadAndGuard, y);
    if AnswerAlone(x.db.loans, id, target).Accepted? {
      states, moves := GuardedRunsAlone(states, moves, sid);
    }
  }

  function AfterPayOff(db: Db, s: Session, row: Loan): Session
    requires s.job.Update?
  {
    s.(pc := if s.job.target == APPROVED then PaidOff(row) else Ready(row),
       loans := match row.prev
                case None => s.loans
                case Some(p) =>
                  if s.job.target == PAID_OUT || p !in db.loans then s.loans
                  else if s.job.target == APPROVED then s.loans[p := db.loans[p].(state := PAID_OUT)]
                  else s.loans[p := db.loans[p].(refinanced := None)])
  }

  ghost function AfterWrite(x: System, sid: SessionId, row: Loan): System
    requires sid in x.sessions && x.sessions[sid].job.Update? && ApprovalFigures(row.terms).Some?
  {
    var s := x.sessions[sid];
    var detail := Detail(s.job.id, ApprovalFigures(row.terms).value);
    match FirstDetail(x.db.details, s.job.id)
    case Some(d) => With(x, sid, s.(pc := Ready(row), details := s.details[d := detail]))
    case None =>
      With(x, sid, s.(pc := Ready(row), details := s.details[x.nextDetail := detail])).(nextDetail := x.nextDetail + 1)
  }

  lemma PreviousExists(x: System, id: LoanId)
    requires Inv(x) && id in x.db.loans
    ensures x.db.loans[id].prev.Some? ==> x.db.loans[id].prev.value in x.db.loans
  {}

  function AfterLock(x: System, sid: SessionId): System
    requires sid in x.sessions && x.sessions[sid].job.Update? && x.sessions[sid].job.id in x.db.loans
  {
    var s := x.sessions[sid];
    var row := x.db.loans[s.job.id];
    With(x, sid, s.(pc := Holding(row), loans := s.loans[s.job.id := row.(state := s.job.target)]))
  }

  lemma LockEnabled(x: System, sid: SessionId)
    requires Idle(x) && sid in x.sessions && x.sessions[sid].job.Update? && x.sessions[sid].job.id in x.db.loans
    requires x.sessions[sid].pc == Guarded(x.db.loans[x.sessions[sid].job.id])
    ensures Next(x, sid, CompareAndSet, AfterLock(x, sid))
  {}

  lemma PayOffEnabled(x: System, sid: SessionId, row: Loan)
    requires sid in x.sessions && x.sessions[sid].job.Update? && x.sessions[sid].pc == Holding(row)
    requires forall t :: t in x.sessions && t != sid ==> x.sessions[t].loans == map[]
    requires row.prev.Some? ==> row.prev.value in x.db.loans
    requires x.sessions[sid].job.target == APPROVED ==> ApprovalFigures(row.terms).Some?
    ensures Next(x, sid, WritePrevious, With(x, sid, AfterPayOff(x.db, x.sessions[sid], row)))
  {
    hide ApprovalFigures;
  }

  lemma WriteEnabled(x: System, sid: SessionId, row: Loan)
    requires sid in x.sessions && x.sessions[sid].job.Update? && ApprovalFigures(row.terms).Some?
    requires x.sessions[sid].pc == LookedUp(row, FirstDetail(x.db.details, x.sessions[sid].job.id))
    requires forall t :: t in x.sessions && t != sid ==> x.sessions[t].details == map[]
    ensures Next(x, sid, WriteDetail, AfterWrite(x, sid, row))
  {}

  function AfterCommit(x: System, sid: SessionId): System
    requires sid in x.sessions
  {
    var s := x.sessions[sid];
    x.(db := Db(x.db.loans + s.loans, x.db.details + s.details), sessions := x.sessions[sid := Ended(s, Committed)])
  }

  lemma CommitEnabled(x: System, sid: SessionId)
    requires Inv(x) && sid in x.sessions && x.sessions[sid].job.Update? && x.sessions[sid].pc.Ready?
    ensures Next(x, sid, Commit, AfterCommit(x, sid))
    ensures Sequential(x.db, x.sessions[sid].job, AfterCommit(x, sid).db)
  {}

  /** From the guard on, alone. */
  lemma GuardedRunsAlone(states: seq<System>, moves: seq<Move>, sid: SessionId)
    returns (states': seq<System>, moves': seq<Move>)
    requires |states| == |moves| + 1 && Steps(states, moves) && Inv(states[|moves|]) && Idle(states[|moves|])
    requires sid in states[|moves|].sessions
    requires var x := states[|moves|];
             && Priced(x.db, x.sessions[sid].job) && x.sessions[sid].job.id in x.db.loans
             && x.sessions[sid].pc == Guarded(x.db.loans[x.sessions[sid].job.id])
    ensures |states'| == |moves'| + 1 && Steps(states', moves') && states'[0] == states[0]
    ensures var x, y := states[|moves|], states'[|moves'|];
            && y.sessions.Keys == x.sessions.Keys
            && (forall t :: t in x.sessions && t != sid ==> y.sessions[t] == x.sessions[t])
            && y.sessions[sid].pc == Finished(Committed) && Sequential(x.db, x.sessions[sid].job, y.db)
  {
    hide ApprovalFigures, Inv, Sequential, Steps, Next, Legal;
    var x := states[|moves|];
    states', moves' := LocksAlone(states, moves, sid);
    if x.sessions[sid].job.target == APPROVED {
      states', moves' := WritesAlone(states', moves', sid, x.db.loans[x.sessions[sid].job.id]);
    }
    var ready := states'[|moves'|];
    CommitEnabled(ready, sid);
    states', moves' := Extend(states', moves', sid, Commit, AfterCommit(ready, sid));
  }

  lemma LocksAlone(states: seq<System>, moves: seq<Move>, sid: SessionId)
    returns (states': seq<System>, moves': seq<Move>)
    requires |states| == |moves| + 1 && Steps(states, moves) && Inv(states[|moves|]) && Idle(states[|moves|])
    requires sid in states[|moves|].sessions
    requires var x := states[|moves|];
             && Priced(x.db, x.sessions[sid].job) && x.sessions[sid].job.id in x.db.loans
             && x.sessions[sid].pc == Guarded(x.db.loans[x.sessions[sid].job.id])
    ensures |states'| == |moves'| + 1 && Steps(states', moves') && states'[0] == states[0] && Inv(states'[|moves'|])
    ensures var x, y := states[|moves|], states'[|moves'|];
            var row := x.db.loans[x.sessions[sid].job.id];
            && y.sessions.Keys == x.sessions.Keys
            && (forall t :: t in x.sessions && t != sid ==> y.sessions[t] == x.sessions[t])
            && y.db == x.db && y.sessions[sid].job == x.sessions[sid].job
            && y.sessions[sid].pc == (if x.sessions[sid].job.target == APPROVED then PaidOff(row) else Ready(row))
  {
    hide Inv, ApprovalFigures, Steps, Next, Legal, FirstDetail;
    var x := states[|moves|];
    var row := x.db.loans[x.sessions[sid].job.id];
    PreviousExists(x, x.sessions[sid].job.id);
    LockEnabled(x, sid);
    var held := AfterLock(x, sid);
    states', moves' := Extend(states, moves, sid, CompareAndSet, held);
    PayOffEnabled(held, sid, row);
    var paid := With(held, sid, AfterPayOff(x.db, held.sessions[sid], row));
    states', moves' := Extend(states', moves', sid, WritePrevious, paid);
  }

  lemma WritesAlone(states: seq<System>, moves: seq<Move>, sid: SessionId, row: Loan)
    returns (states': seq<System>, moves': seq<Move>)
    requires |states| == |moves| + 1 && Steps(states, moves) && Inv(states[|moves|]) && sid in states[|moves|].sessions
    requires var x := states[|moves|];
             && (forall t :: t in x.sessions && t != sid ==> x.sessions[t].details == map[])
             && x.sessions[sid].job.Update? && x.sessions[sid].pc == PaidOff(row) && ApprovalFigures(row.terms).Some?
    ensures |states'| == |moves'| + 1 && Steps(states', moves') && states'[0] == states[0] && Inv(states'[|moves'|])
    ensures var x, y := states[|moves|], states'[|moves'|];
            && y.sessions.Keys == x.sessions.Keys
            && (forall t :: t in x.sessions && t != sid ==> y.sessions[t] == x.sessions[t])
            && y.db == x.db && y.sessions[sid].job == x.sessions[sid].job && y.sessions[sid].pc.Ready?
  {
    hide Inv, ApprovalFigures, FirstDetail, Steps, Next;
    var x := states[|moves|];
    var found := FirstDetail(x.db.details, x.sessions[sid].job.id);
    var looked := With(x, sid, x.sessions[sid].(pc := LookedUp(row, found)));
    LookUpEnabled(x, sid, row);
    states', moves' := Extend(states, moves, sid, LookUpDetail, looked);
    WriteEnabled(looked, sid, row);
    states', moves' := Extend(states', moves', sid, WriteDetail, AfterWrite(looked, sid, row));
  }

  lemma LookUpEnabled(x: System, sid: SessionId, row: Loan)
    requires sid in x.sessions && x.sessions[sid].job.Update? && x.sessions[sid].pc == PaidOff(row)
    ensures var found := FirstDetail(x.db.details, x.sessions[sid].job.id);
            Next(x, sid, LookUpDetail, With(x, sid, x.sessions[sid].(pc := LookedUp(row, found))))
  {}

  /** The exception is real: whenever an approval and a denial of a waiting loan overlap and the
      approval commits first, the denial is answered 409 although the table allows it by then. */
  lemma ApprovalBeatsDenial(x: System, id: LoanId) returns (states: seq<System>, moves: seq<Move>)
    requires Initial(x) && id in x.db.loans && x.db.loans[id].state == WAITING_APPROVAL
    requires ApprovalFigures(x.db.loans[id].terms).Some?
    ensures Run(states, moves) && states[0] == x
    ensures var y := states[|moves|];
            && 1 in y.sessions && y.sessions[1].job == Update(id, DENIED) && y.sessions[1].pc == Finished(LostRace)
            && AnswerAlone(y.db.loans, id, DENIED) == Accepted
  {
    states, moves := TwoSessionsReady(x, id);
    states, moves := UpdateAfter(states, moves, 0);
    var y := states[|moves|];
    hide Inv, ApprovalFigures, Steps, Next, DetailsOk, Sequential;
    assert LoanOk(x.db.loans, id);
    EffectApproves(x.db, id, y.db);
    var lost := With(y, 1, Ended(y.sessions[1], LostRace));
    LoserEnds(y, 1);
    states, moves := Extend(states, moves, 1, CompareAndSet, lost);
  }

  lemma TwoSessionsReady(x: System, id: LoanId) returns (states: seq<System>, moves: seq<Move>)
    requires Initial(x) && id in x.db.loans && x.db.loans[id].state == WAITING_APPROVAL
    ensures |states| == |moves| + 1 && Steps(states, moves) && states[0] == x && Inv(states[|moves|])
    ensures states[|moves|] == x.(sessions := map[0 := Session(Update(id, APPROVED), Start, map[], map[]),
              1 := Session(Update(id, DENIED), Guarded(x.db.loans[id]), map[], map[])])
  {
    hide Inv, DbOk, Steps;
    assert Inv(x) by { InitialIsInv(x); }
    NoSteps(x);
    states, moves := Opens([x], [], 0, Update(id, APPROVED));
    states, moves := Opens(states, moves, 1, Update(id, DENIED));
    var y := states[|moves|];
    states, moves := Extend(states, moves, 1, ReadAndGuard, With(y, 1, y.sessions[1].(pc := Guarded(x.db.loans[id]))));
  }

  /** `UpdateRunsAlone` after a run. */
  lemma UpdateAfter(states: seq<System>, moves: seq<Move>, sid: SessionId)
    returns (states': seq<System>, moves': seq<Move>)
    requires Steps(states, moves) && Inv(states[|moves|]) && Idle(states[|moves|]) && sid in states[|moves|].sessions
    requires var s := states[|moves|].sessions[sid]; s.job.Update? && s.pc.Start? && Priced(states[|moves|].db, s.job)
    ensures |states'| == |moves'| + 1 && Steps(states', moves') && states'[0] == states[0] && Inv(states'[|moves'|])
    ensures EndsAlone(states[|moves|], sid, states'[|moves'|])
  {
    hide Inv, Next, EndsAlone;
    var rest, more := UpdateRunsAlone(states[|moves|], sid);
    states', moves' := states + rest[1..], moves + more;
    forall i | 0 <= i < |moves'|
      ensures Next(states'[i], moves'[i].sid, moves'[i].action, states'[i + 1])
    {
      if i < |moves| {
        assert Next(states[i], moves[i].sid, moves[i].action, states[i + 1]);
      } else {
        var k := i - |moves|;
        assert Next(rest[k], more[k].sid, more[k].action, rest[k + 1]);
        assert states'[i] == rest[k] && states'[i + 1] == rest[k + 1];
      }
    }
    StepsKeepInv(rest, more, |more|);
  }

  lemma EffectApproves(x: Db, id: LoanId, y: Db)
    requires Sequential(x, Update(id, APPROVED), y)
    ensures id in y.loans && y.loans[id].state in {APPROVED, PAID_OUT}
    ensures x.loans[id].prev != Some(id) ==> y.loans[id].state == APPROVED
  {}

  lemma LoserEnds(x: System, sid: SessionId)
    requires sid in x.sessions && x.sessions[sid].job.Update? && x.sessions[sid].job.id in x.db.loans
    requires x.sessions[sid].pc.Guarded? && x.db.loans[x.sessions[sid].job.id].state != x.sessions[sid].pc.seen.state
    ensures Next(x, sid, CompareAndSet, With(x, sid, Ended(x.sessions[sid], LostRace)))
  {}

  // ---------------------------------------------------------------------
  // Waiting for loan rows
  // ---------------------------------------------------------------------

  /** The loan row the next statement of a session must lock. */
  function Wanted(db: Db, s: Session): Option<LoanId> {
    match s.job
    case Update(id, target) =>
      (match s.pc
       case Guarded(seen) => if id in db.loans && db.loans[id].state == seen.state then Some(id) else None
       case Holding(seen) => if target == PAID_OUT then None else seen.prev
       case _ => None)
    case Bulk(_) =>
      if s.pc.ClosingGuarded? && s.pc.queue != [] && s.pc.queue[0] in db.loans
         && db.loans[s.pc.queue[0]].state == s.pc.seen.state
      then Some(s.pc.queue[0]) else None
    case Request(_, _) => None
    case Refinance(parent, _, _) => if s.pc.ChildCreated? then Some(parent) else None
  }

  lemma TransitionLocks(x: System, sid: SessionId, id: LoanId, target: int, a: Action, y: System, k: LoanId)
    requires sid in x.sessions && x.sessions[sid].job == Update(id, target) && UpdateNext(x, sid, id, target, a, y)
    requires sid in y.sessions && k in y.sessions[sid].loans && k !in x.sessions[sid].loans
    ensures Wanted(x.db, x.sessions[sid]) == Some(k) && LoanFree(x, sid, k)
  {
    hide FirstDetail, ApprovalFigures, Legal, LoanFree;
  }

  lemma UploadLocks(x: System, sid: SessionId, file: seq<Line>, a: Action, y: System, k: LoanId)
    requires sid in x.sessions && x.sessions[sid].job == Bulk(file) && BulkNext(x, sid, file, a, y)
    requires sid in y.sessions && k in y.sessions[sid].loans && k !in x.sessions[sid].loans
    ensures Wanted(x.db, x.sessions[sid]) == Some(k) && LoanFree(x, sid, k)
  {
    hide Found, ToClose, ListedLoans, Legal, LoanFree;
  }

  lemma RefinanceLocks(x: System, sid: SessionId, job: Job, a: Action, y: System)
    requires sid in x.sessions && x.sessions[sid].job == job && job.Refinance?
    requires RefinanceNext(x, sid, job.parent, job.actor, job.renewal, a, y)
    ensures sid in y.sessions && forall k :: k in y.sessions[sid].loans ==> k in x.sessions[sid].loans
    ensures a.LinkParent? ==> Wanted(x.db, x.sessions[sid]) == Some(job.parent) && LoanFree(x, sid, job.parent)
  {
    hide FirstDetail, RefinanceValue, RenewedTerms, LoanFree;
  }

  /** No lock is left out: a loan row newly held after a step, or linked by one, is the row the session wanted,
      and nobody else held it. */
  lemma LocksWhatItWants(x: System, sid: SessionId, a: Action, y: System, k: LoanId)
    requires Next(x, sid, a, y) && sid in x.sessions && sid in y.sessions && !a.Begin?
    requires (k in y.sessions[sid].loans && k !in x.sessions[sid].loans)
             || (a.LinkParent? && x.sessions[sid].job.Refinance? && x.sessions[sid].job.parent == k)
    ensures Wanted(x.db, x.sessions[sid]) == Some(k)
    ensures forall t :: t in x.sessions && t != sid ==> k !in x.sessions[t].loans
  {
    hide UpdateNext, BulkNext, RefinanceNext, Wanted;
    match x.sessions[sid].job {
      case Update(id, target) => TransitionLocks(x, sid, id, target, a, y, k);
      case Bulk(file) => UploadLocks(x, sid, file, a, y, k);
      case Request(_, _) =>
      case Refinance(_, _, _) => RefinanceLocks(x, sid, x.sessions[sid].job, a, y);
    }
  }

  /** Session `t` holds the loan row session `s` waits for. */
  predicate Blocks(x: System, t: SessionId, s: SessionId)
    requires t in x.sessions && s in x.sessions
  {
    t != s && Wanted(x.db, x.sessions[s]).Some? && Wanted(x.db, x.sessions[s]).value in x.sessions[t].loans
  }

  /** Rows are locked downwards in listing order: whatever a session holds is listed above what it
      waits for. Approval and denial lock the refinance before the loan it replaces; the upload closes
      its queue from the top. */
  lemma HeldRowsAreAbove(db: Db, s: Session, held: LoanId)
    requires DbOk(db) && SessionOk(db, s) && Wanted(db, s).Some? && held in s.loans
    ensures held in db.loans && Wanted(db, s).value in db.loans
    ensures Above(held, db.loans[held], Wanted(db, s).value, db.loans[Wanted(db, s).value])
  {}

  /** The listing position a wanted row has: the last loan listed first. */
  predicate WantsLower(x: System, s: SessionId, t: SessionId)
    requires s in x.sessions && t in x.sessions
  {
    var v, w := Wanted(x.db, x.sessions[s]), Wanted(x.db, x.sessions[t]);
    v.Some? && w.Some? && v.value in x.db.loans && w.value in x.db.loans
    && Above(w.value, x.db.loans[w.value], v.value, x.db.loans[v.value])
  }

  lemma BlockedWantsLess(x: System, t: SessionId, s: SessionId)
    requires Inv(x) && t in x.sessions && s in x.sessions && Blocks(x, t, s)
    requires Wanted(x.db, x.sessions[t]).Some?
    ensures WantsLower(x, t, s)
  {}

  /** A path along which every session waits for the next. */
  predicate WaitPath(x: System, path: seq<SessionId>) {
    && (forall i :: 0 <= i < |path| ==> path[i] in x.sessions && Wanted(x.db, x.sessions[path[i]]).Some?)
    && (forall i :: 0 <= i < |path| - 1 ==> Blocks(x, path[i + 1], path[i]))
  }

  lemma {:induction false} PathDescends(x: System, path: seq<SessionId>, k: nat)
    requires Inv(x) && WaitPath(x, path) && 0 < k < |path|
    ensures WantsLower(x, path[k], path[0])
  {
    hide Inv, Wanted;
    assert Blocks(x, path[k - 1 + 1], path[k - 1]);
    BlockedWantsLess(x, path[k], path[k - 1]);
    if k > 1 { PathDescends(x, path, k - 1); }
  }

  /** Loan-row waits never form a cycle: no session waits, through others, for itself. */
  lemma NoWaitCycle(states: seq<System>, moves: seq<Move>, n: nat, path: seq<SessionId>)
    requires Run(states, moves) && n < |states| && |path| > 1 && WaitPath(states[n], path)
    ensures path[0] != path[|path| - 1]
  {
    hide Run, Inv, Wanted, Blocks;
    RunKeepsInv(states, moves, n);
    PathDescends(states[n], path, |path| - 1);
  }

  /** Nor do `updateLoan` sessions ever wait for one another over a detail row. */
  lemma UpdatesNeverWaitForDetails(states: seq<System>, moves: seq<Move>, n: nat, s: SessionId, t: SessionId)
    requires Run(states, moves) && n < |states| && s in states[n].sessions && t in states[n].sessions && s != t
    requires states[n].sessions[s].job.Update? && states[n].sessions[t].job.Update?
    requires states[n].sessions[s].pc.LookedUp? && states[n].sessions[s].pc.found.Some?
    ensures states[n].sessions[s].pc.found.value !in states[n].sessions[t].details
  {
    hide Run, DbOk, WrittenLoans, ApprovalFigures;
    RunKeepsInv(states, moves, n);
    var x := states[n];
    var a, b := x.sessions[s], x.sessions[t];
    assert SessionOk(x.db, a) && SessionOk(x.db, b) && Disjoint(a, b);
    OwnRowHeld(x.db, a);
    var d := a.pc.found.value;
    if d in b.details {
      OwnRowHeld(x.db, b);
      assert IsDetailOf(x.db.details, d, a.job.id);
      DetailWrittenIsOwn(x.db, b, d);
    }
  }

  lemma OwnRowHeld(db: Db, s: Session)
    requires s.job.Update? && SessionOk(db, s) && (s.pc.LookedUp? || s.details != map[])
    ensures s.job.id in s.loans
  {
    hide ApprovalFigures, WrittenDetails;
  }

  lemma DetailWrittenIsOwn(db: Db, s: Session, d: DetailId)
    requires s.job.Update? && SessionOk(db, s) && d in s.details && d in db.details
    ensures db.details[d].loanId == s.job.id
  {}
}
