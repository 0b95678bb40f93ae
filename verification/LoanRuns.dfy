/** What every run of the loan sessions has in common. */
module LoanRuns {
  import opened Options
  import opened Calendar
  import opened LoanRules
  import opened LoanProtocol

  datatype Move = Move(sid: SessionId, action: Action)

  /** The tables a run starts from, with no session open. */
  ghost predicate Initial(x: System) {
    && DbOk(x.db) && x.sessions == map[]
    && (forall id :: id in x.db.loans ==> id < x.nextLoan)
    && (forall d :: d in x.db.details ==> d < x.nextDetail)
  }

  ghost predicate Steps(states: seq<System>, moves: seq<Move>) {
    && |states| == |moves| + 1
    && forall i :: 0 <= i < |moves| ==> Next(states[i], moves[i].sid, moves[i].action, states[i + 1])
  }

  ghost predicate Run(states: seq<System>, moves: seq<Move>) {
    Steps(states, moves) && Initial(states[0])
  }

  lemma {:induction false} StepsKeepInv(states: seq<System>, moves: seq<Move>, n: nat)
    requires Steps(states, moves) && Inv(states[0]) && n < |states|
    ensures Inv(states[n])
  {
    hide Next, Inv;
    if n > 0 {
      StepsKeepInv(states, moves, n - 1);
      assert Next(states[n - 1], moves[n - 1].sid, moves[n - 1].action, states[n - 1 + 1]);
      StepKeepsInv(states[n - 1], moves[n - 1].sid, moves[n - 1].action, states[n]);
    }
  }

  lemma InitialIsInv(x: System)
    requires Initial(x)
    ensures Inv(x)
  {}

  lemma RunKeepsInv(states: seq<System>, moves: seq<Move>, n: nat)
    requires Run(states, moves) && n < |states|
    ensures Inv(states[n])
  {
    hide Steps, Initial, Inv;
    InitialIsInv(states[0]);
    StepsKeepInv(states, moves, n);
  }

  // ---------------------------------------------------------------------
  // Safety of the committed tables
  // ---------------------------------------------------------------------

  /** Find-then-create is unprotected, and no unique index is assumed: still no reachable table holds
      two details of a loan, and an approved loan has one. */
  lemma OneDetailPerLoan(states: seq<System>, moves: seq<Move>, n: nat)
    requires Run(states, moves) && n < |states|
    ensures forall d, e, id :: IsDetailOf(states[n].db.details, d, id) && IsDetailOf(states[n].db.details, e, id) ==> d == e
    ensures forall id :: id in states[n].db.loans && states[n].db.loans[id].state == APPROVED ==>
              exists d :: IsDetailOf(states[n].db.details, d, id)
  {
    hide Run, SessionOk, Disjoint;
    RunKeepsInv(states, moves, n);
    var db := states[n].db;
    forall id | id in db.loans && db.loans[id].state == APPROVED
      ensures exists d :: IsDetailOf(db.details, d, id)
    {
      assert IsDetailOf(db.details, FirstDetail(db.details, id).value, id);
    }
  }

  /** Refinance chains stay finite, acyclic, single-owner and descending on every reachable table. */
  lemma ReachableChainsDescend(states: seq<System>, moves: seq<Move>, n: nat, id: LoanId)
    requires Run(states, moves) && n < |states| && id in states[n].db.loans
    ensures LoansOk(states[n].db.loans)
    ensures var loans := states[n].db.loans;
            var c := Chain(loans, id);
            && |c| <= id + 1
            && (forall i :: 0 <= i < |c| ==> c[i] in loans && loans[c[i]].owner == loans[id].owner)
            && (forall i, j :: 0 <= i < j < |c| ==> c[j] < c[i] && Above(c[i], loans[c[i]], c[j], loans[c[j]]))
            && (forall i :: 1 <= i < |c| ==> loans[c[i]].state >= APPROVED)
  {
    hide Run, SessionOk, Disjoint, DetailsOk, LoansOk, LoanOk, Chain;
    RunKeepsInv(states, moves, n);
    assert DbOk(states[n].db);
    ChainsDescend(states[n].db.loans, id);
  }

  // ---------------------------------------------------------------------
  // What one step does to the committed tables
  // ---------------------------------------------------------------------

  /** A transition or a request, run alone on tables that allow it. */
  ghost predicate Sequential(x: Db, job: Job, y: Db)
    requires job.Update? || job.Request?
  {
    match job
    case Update(id, target) =>
      AnswerAlone(x.loans, id, target) == Accepted && (x.loans[id].prev.Some? ==> x.loans[id].prev.value in x.loans)
      && (target == APPROVED ==> ApprovalFigures(x.loans[id].terms).Some?)
      && exists spare: DetailId :: spare !in x.details && y == Transition(x, id, target, spare)
    case Request(owner, terms) => exists id: LoanId, createdAt :: Added(x, id, NewLoan(owner, createdAt, None, terms), y)
  }

  /** What a step may change. For an upload and a refinance these are only bounds: when they amount to the
      operation run alone is said in `LoanUpload` and `LoanRefinance`. */
  ghost predicate Effect(x: Db, job: Job, y: Db) {
    match job
    case Update(_, _) => Sequential(x, job, y)
    case Bulk(file) => Uploaded(x, file, y)
    case Request(_, _) => Sequential(x, job, y)
    case Refinance(parent, actor, renewal) =>
      parent in x.loans
      && ((exists id: LoanId, createdAt, terms :: Added(x, id, NewLoan(actor, createdAt, Some(parent), terms), y))
          || (exists child: LoanId :: y == x.(loans := x.loans[parent := x.loans[parent].(refinanced := Some(child))])))
  }

  predicate Added(x: Db, id: LoanId, loan: Loan, y: Db) {
    id !in x.loans && y == x.(loans := x.loans[id := loan])
  }

  /** An upload closes some approved loans that the file omits, gives details of loans it lists their
      last line's figures, and touches nothing else. */
  ghost predicate Uploaded(x: Db, file: seq<Line>, y: Db) {
    && y.loans.Keys == x.loans.Keys && y.details.Keys == x.details.Keys
    && (forall k :: k in x.loans && y.loans[k] != x.loans[k] ==>
          !Listed(file, k) && x.loans[k].state == APPROVED && y.loans[k] == x.loans[k].(state := PAID_OUT))
    && (forall d :: d in x.details && y.details[d] != x.details[d] ==> y.details[d] == WithFigures(x.details, file)[d])
  }

  /** Transitions and requests are serialisable: a step of theirs leaves the committed tables alone or
      applies the whole of the operation, legal at that moment. No interleaving shows in them. */
  lemma StepIsSequential(x: System, sid: SessionId, a: Action, y: System)
    requires Inv(x) && Next(x, sid, a, y)
    requires sid in x.sessions && (x.sessions[sid].job.Update? || x.sessions[sid].job.Request?)
    ensures y.db == x.db || Sequential(x.db, x.sessions[sid].job, y.db)
    ensures a.Commit? ==> Sequential(x.db, x.sessions[sid].job, y.db)
  {
    hide Inv, Sequential, UpdateNext, RequestNext;
    match x.sessions[sid].job {
      case Update(id, target) => UpdateEffect(x, sid, id, target, a, y);
      case Request(_, _) => RequestEffect(x, sid, a, y);
    }
  }

  lemma StepHasEffect(x: System, sid: SessionId, a: Action, y: System)
    requires Inv(x) && Next(x, sid, a, y)
    ensures y.db == x.db || (sid in x.sessions && Effect(x.db, x.sessions[sid].job, y.db))
  {
    hide Inv, Sequential, UpdateNext, BulkNext, RequestNext, RefinanceNext, Uploaded;
    if !a.Begin? {
      match x.sessions[sid].job {
        case Update(id, target) => UpdateEffect(x, sid, id, target, a, y);
        case Bulk(file) => BulkEffect(x, sid, file, a, y);
        case Request(_, _) => RequestEffect(x, sid, a, y);
        case Refinance(_, _, _) => RefinanceEffect(x, sid, a, y);
      }
    }
  }

  lemma UpdateEffect(x: System, sid: SessionId, id: LoanId, target: int, a: Action, y: System)
    requires Inv(x) && sid in x.sessions && x.sessions[sid].job == Update(id, target)
    requires UpdateNext(x, sid, id, target, a, y)
    ensures y.db == x.db || Sequential(x.db, Update(id, target), y.db)
    ensures a.Commit? ==> Sequential(x.db, Update(id, target), y.db)
  {
    hide ApprovalFigures, Transition, FirstDetail, DbOk, Disjoint, Legal;
    if a.Commit? {
      var s := x.sessions[sid];
      assert SessionOk(x.db, s);
      var spare := ReadyIsTransition(x.db, id, target, s.pc.seen, s);
    }
  }

  lemma BulkEffect(x: System, sid: SessionId, file: seq<Line>, a: Action, y: System)
    requires Inv(x) && sid in x.sessions && x.sessions[sid].job == Bulk(file)
    requires BulkNext(x, sid, file, a, y)
    ensures y.db == x.db || Uploaded(x.db, file, y.db)
    ensures a.Commit? ==> Uploaded(x.db, file, y.db)
  {
    hide Inv, BulkOk, Uploaded;
    if a.Commit? {
      BulkSession(x, sid);
      WrittenIsUploaded(x.db, file, x.sessions[sid]);
    } else {
      hide BulkNext;
      BulkOnlyMoves(x, sid, file, a, y);
    }
  }

  lemma WrittenIsUploaded(db: Db, file: seq<Line>, s: Session)
    requires BulkOk(db, file, s) && s.pc.Closing?
    ensures Uploaded(db, file, Db(db.loans + s.loans, db.details + s.details))
  {
    hide QueueOk, Unlisted, Listed, LastFigures;
  }

  lemma RequestEffect(x: System, sid: SessionId, a: Action, y: System)
    requires Inv(x) && sid in x.sessions && x.sessions[sid].job.Request?
    requires RequestNext(x, sid, x.sessions[sid].job.owner, x.sessions[sid].job.terms, a, y)
    ensures y.db == x.db || Sequential(x.db, x.sessions[sid].job, y.db)
    ensures !a.Commit?
  {
    hide DbOk, Disjoint, SessionOk;
    if a.Insert? {
      var job := x.sessions[sid].job;
      assert Added(x.db, x.nextLoan, NewLoan(job.owner, a.createdAt, None, job.terms), y.db);
    }
  }

  lemma RefinanceEffect(x: System, sid: SessionId, a: Action, y: System)
    requires Inv(x) && sid in x.sessions && x.sessions[sid].job.Refinance?
    requires RefinanceNext(x, sid, x.sessions[sid].job.parent, x.sessions[sid].job.actor, x.sessions[sid].job.renewal, a, y)
    ensures y.db == x.db || Effect(x.db, x.sessions[sid].job, y.db)
  {
    hide DbOk, Disjoint, FirstDetail, RefinanceValue, RenewedTerms;
    var job, s := x.sessions[sid].job, x.sessions[sid];
    assert SessionOk(x.db, s);
    if a.InsertChild? && y.db != x.db {
      var terms := RenewedTerms(s.pc.value, job.renewal).value;
      assert Added(x.db, x.nextLoan, NewLoan(job.actor, a.createdAt, Some(job.parent), terms), y.db);
    }
  }

  // ---------------------------------------------------------------------
  // The life of a loan
  // ---------------------------------------------------------------------

  /** Who may move a loan's state: a transition by the table, an upload closing it, or the approval of
      the loan that refinances it, which does not consult the table and never finds it waiting. */
  ghost predicate Moved(x: Db, job: Job, id: LoanId, next: int)
    requires id in x.loans
  {
    var current := x.loans[id].state;
    || (job == Update(id, next) && Legal(current, next))
    || (job.Bulk? && !Listed(job.file, id) && current == APPROVED && next == PAID_OUT)
    || (job.Update? && job.target == APPROVED && job.id in x.loans && x.loans[job.id].prev == Some(id)
        && x.loans[job.id].state == WAITING_APPROVAL && current in {APPROVED, DENIED} && next == PAID_OUT)
  }

  lemma StepMovesLoan(x: System, sid: SessionId, a: Action, y: System, id: LoanId)
    requires Inv(x) && Next(x, sid, a, y) && id in x.db.loans
    ensures id in y.db.loans && RowEvolves(x.db.loans[id], y.db.loans[id]) && y.db.loans[id].state <= PAID_OUT
    ensures y.db.loans[id].state != x.db.loans[id].state ==>
              a.Commit? && sid in x.sessions && Moved(x.db, x.sessions[sid].job, id, y.db.loans[id].state)
  {
    hide Next, Inv, Effect, DbOk, LoanOk;
    assert LoansOk(x.db.loans) && DbOk(x.db) by { InvGivesLoansOk(x); }
    StepHasEffect(x, sid, a, y);
    if y.db != x.db { EffectMovesLoan(x.db, x.sessions[sid].job, y.db, id); }
    OnlyCommitsMoveStates(x, sid, a, y, id);
    assert LoanOk(x.db.loans, id);
    StateInRange(x.db.loans, id);
  }

  lemma StateInRange(loans: map<LoanId, Loan>, id: LoanId)
    requires id in loans && LoanOk(loans, id)
    ensures WAITING_APPROVAL <= loans[id].state <= PAID_OUT
  {}

  lemma InvGivesLoansOk(x: System)
    requires Inv(x)
    ensures LoansOk(x.db.loans) && DbOk(x.db)
  {}

  lemma OnlyCommitsMoveStates(x: System, sid: SessionId, a: Action, y: System, id: LoanId)
    requires Inv(x) && Next(x, sid, a, y) && id in x.db.loans && id in y.db.loans
    ensures y.db.loans[id].state != x.db.loans[id].state ==> a.Commit?
  {
    hide UpdateNext, BulkNext, SessionOk, Disjoint, DbOk, FirstDetail, LoanFree, RefinanceValue, RenewedTerms;
    if !a.Begin? && !a.Commit? {
      match x.sessions[sid].job {
        case Update(loan, target) => UpdateOnlyMoves(x, sid, loan, target, a, y);
        case Bulk(file) => BulkOnlyMoves(x, sid, file, a, y);
        case _ =>
      }
    }
  }

  lemma UpdateOnlyMoves(x: System, sid: SessionId, id: LoanId, target: int, a: Action, y: System)
    requires sid in x.sessions && UpdateNext(x, sid, id, target, a, y) && !a.Commit?
    ensures y.db == x.db
  {
    hide ApprovalFigures, FirstDetail, LoanFree, DetailFree, Legal;
  }

  lemma BulkOnlyMoves(x: System, sid: SessionId, file: seq<Line>, a: Action, y: System)
    requires sid in x.sessions && BulkNext(x, sid, file, a, y) && !a.Commit?
    ensures y.db == x.db
  {
    hide Found, ToClose, LoanFree, DetailFree, Legal;
  }

  lemma EffectMovesLoan(x: Db, job: Job, y: Db, id: LoanId)
    requires LoansOk(x.loans) && Effect(x, job, y) && id in x.loans
    ensures id in y.loans && RowEvolves(x.loans[id], y.loans[id]) && y.loans[id].state <= PAID_OUT
    ensures y.loans[id].state != x.loans[id].state ==> Moved(x, job, id, y.loans[id].state)
  {
    assert LoanOk(x.loans, id);
    hide LoansOk, LoanOk, Sequential, Uploaded, Legal, WithFigures, Listed;
    match job {
      case Update(_, _) => TransitionMovesLoan(x, job, y, id);
      case Bulk(file) => UploadMovesLoan(x, job, y, id);
      case Request(_, _) => RequestMovesNothing(x, job, y, id);
      case Refinance(_, _, _) =>
    }
    StateInRange(x.loans, id);
  }

  lemma RequestMovesNothing(x: Db, job: Job, y: Db, id: LoanId)
    requires job.Request? && Sequential(x, job, y) && id in x.loans
    ensures id in y.loans && y.loans[id] == x.loans[id]
  {}

  lemma UploadMovesLoan(x: Db, job: Job, y: Db, id: LoanId)
    requires job.Bulk? && Uploaded(x, job.file, y) && id in x.loans && x.loans[id].state <= PAID_OUT
    ensures id in y.loans && RowEvolves(x.loans[id], y.loans[id]) && y.loans[id].state <= PAID_OUT
    ensures y.loans[id].state != x.loans[id].state ==> Moved(x, job, id, y.loans[id].state)
  {
    hide WithFigures, Listed, Legal;
    assert id in y.loans.Keys;
  }

  lemma TransitionMovesLoan(x: Db, job: Job, y: Db, id: LoanId)
    requires LoansOk(x.loans) && job.Update? && Sequential(x, job, y) && id in x.loans
    ensures id in y.loans && RowEvolves(x.loans[id], y.loans[id]) && y.loans[id].state <= PAID_OUT
    ensures y.loans[id].state != x.loans[id].state ==> Moved(x, job, id, y.loans[id].state)
  {
    assert LoanOk(x.loans, id) && LoanOk(x.loans, job.id);
    hide WrittenDetails, Legal, LoansOk;
    TransitionEvolves(x.loans, job.id, job.target);
    LegalStates(x.loans[job.id].state, job.target);
  }

  lemma LegalStates(current: int, target: int)
    requires Legal(current, target)
    ensures target <= PAID_OUT && (target == APPROVED ==> current == WAITING_APPROVAL)
  {}

  /** How often the committed state of a loan changes between two points of a run. */
  function Changes(states: seq<System>, id: LoanId, i: nat, j: nat): nat
    requires i <= j < |states|
    decreases j
  {
    if i == j then 0
    else
      var x, y := states[j - 1].db.loans, states[j].db.loans;
      Changes(states, id, i, j - 1) + if id in x && id in y && x[id].state != y[id].state then 1 else 0
  }

  /** Over every run a loan is never lost, its fixed columns never change, its state number never
      decreases, and it changes at most three times. */
  lemma {:induction false} LoanOnlyMovesForward(states: seq<System>, moves: seq<Move>, i: nat, j: nat, id: LoanId)
    requires Run(states, moves) && i <= j < |states| && id in states[i].db.loans
    ensures id in states[j].db.loans && RowEvolves(states[i].db.loans[id], states[j].db.loans[id])
    ensures Changes(states, id, i, j) <= states[j].db.loans[id].state - states[i].db.loans[id].state <= 3
    decreases j
  {
    hide Next, Inv;
    RunKeepsInv(states, moves, i);
    InvGivesLoansOk(states[i]);
    assert LoanOk(states[i].db.loans, id);
    if i < j {
      LoanOnlyMovesForward(states, moves, i, j - 1, id);
      RunKeepsInv(states, moves, j - 1);
      assert Next(states[j - 1], moves[j - 1].sid, moves[j - 1].action, states[j - 1 + 1]);
      StepMovesLoan(states[j - 1], moves[j - 1].sid, moves[j - 1].action, states[j], id);
    }
  }

  /** A loan paid out stays paid out. */
  lemma PaidOutIsAbsorbing(states: seq<System>, moves: seq<Move>, i: nat, j: nat, id: LoanId)
    requires Run(states, moves) && i <= j < |states| && id in states[i].db.loans
    requires states[i].db.loans[id].state == PAID_OUT
    ensures id in states[j].db.loans && states[j].db.loans[id].state == PAID_OUT
  {
    hide Run, Changes, Inv;
    RunKeepsInv(states, moves, j);
    InvGivesLoansOk(states[j]);
    LoanOnlyMovesForward(states, moves, i, j, id);
    assert LoanOk(states[j].db.loans, id);
  }

  /** Every change of a loan's state along a run is one of the three moves, made by a commit. */
  lemma EveryChangeIsAccountedFor(states: seq<System>, moves: seq<Move>, i: nat, id: LoanId)
    requires Run(states, moves) && i < |moves| && id in states[i].db.loans
    ensures id in states[i + 1].db.loans
    ensures states[i + 1].db.loans[id].state != states[i].db.loans[id].state ==>
              moves[i].action.Commit? && moves[i].sid in states[i].sessions
              && Moved(states[i].db, states[i].sessions[moves[i].sid].job, id, states[i + 1].db.loans[id].state)
  {
    hide Next, Inv, Moved;
    RunKeepsInv(states, moves, i);
    StepMovesLoan(states[i], moves[i].sid, moves[i].action, states[i + 1], id);
  }
}
