/** Refinances paid off: what each commit of a transition does row by row, and that over every run a loan that
    has replaced another has paid it off (`src/loans/loan.service.ts`). */
module LoanPayoffs {
  import opened Options
  import opened LoanRules
  import opened LoanProtocol
  import opened LoanRuns
  import opened LoanRaces

  // ---------------------------------------------------------------------
  // One commit
  // ---------------------------------------------------------------------

  /** A transition's commit, on the rows as they are at that moment: an approval pays the replaced loan out,
      a denial unlinks it and leaves its state, and nothing else of another loan changes. */
  lemma CommitOnRows(states: seq<System>, moves: seq<Move>, i: nat, id: LoanId, target: int)
    requires Run(states, moves) && i < |moves| && moves[i].action.Commit? && moves[i].sid in states[i].sessions
    requires states[i].sessions[moves[i].sid].job == Update(id, target)
    ensures var x, y := states[i].db, states[i + 1].db;
            && id in x.loans && id in y.loans && y.loans[id] == x.loans[id].(state := target)
            && MovedOnRows(x, id, target, y)
            && match x.loans[id].prev
               case None => forall k :: k in x.loans && k != id ==> k in y.loans && y.loans[k] == x.loans[k]
               case Some(p) =>
                 && p != id && p in x.loans && p in y.loans
                 && (target == 1 ==> y.loans[p].state == 3)
                 && (target == 2 ==> y.loans[p].state == x.loans[p].state && y.loans[p].refinanced == None)
                 && forall k :: k in x.loans && k != id && k != p ==> k in y.loans && y.loans[k] == x.loans[k]
  {
    hide Inv, Next, Sequential, DbOk, MovedOnRows;
    RunKeepsInv(states, moves, i);
    assert Next(states[i], moves[i].sid, moves[i].action, states[i + 1]);
    StepIsSequential(states[i], moves[i].sid, moves[i].action, states[i + 1]);
    InvGivesLoansOk(states[i]);
    SequentialOnRows(states[i].db, id, target, states[i + 1].db);
    MovedFacts(states[i].db, id, target, states[i + 1].db);
  }

  lemma SequentialOnRows(x: Db, id: LoanId, target: int, y: Db)
    requires DbOk(x) && Sequential(x, Update(id, target), y)
    ensures id in x.loans && MovedOnRows(x, id, target, y)
    ensures Legal(x.loans[id].state, target)
    ensures target == APPROVED ==> ApprovalFigures(x.loans[id].terms).Some?
  {
    hide DbOk, Transition, MovedOnRows, ApprovalFigures;
    var spare :| spare !in x.details && y == Transition(x, id, target, spare);
    TransitionOnRows(x, id, target, spare);
  }

  lemma MovedFacts(x: Db, id: LoanId, target: int, y: Db)
    requires id in x.loans && MovedOnRows(x, id, target, y)
    ensures id in y.loans && y.loans[id] == x.loans[id].(state := target) && y.loans.Keys == x.loans.Keys
    ensures match x.loans[id].prev
            case None => forall k :: k in x.loans && k != id ==> k in y.loans && y.loans[k] == x.loans[k]
            case Some(p) =>
              && p != id && p in x.loans && p in y.loans
              && (target == 1 ==> y.loans[p].state == 3)
              && (target == 2 ==> y.loans[p].state == x.loans[p].state && y.loans[p].refinanced == None)
              && (target != 1 ==> y.loans[p].state == x.loans[p].state)
              && forall k :: k in x.loans && k != id && k != p ==> k in y.loans && y.loans[k] == x.loans[k]
  {
    hide DetailWritten, ApprovalFigures;
  }

  // ---------------------------------------------------------------------
  // Over every run
  // ---------------------------------------------------------------------

  /** A loan approved or paid out has paid off the loan it replaced. */
  ghost predicate PaidOff(loans: map<LoanId, Loan>) {
    forall c :: c in loans && loans[c].state in {APPROVED, PAID_OUT} ==> ReplacedIsPaid(loans, c)
  }

  predicate ReplacedIsPaid(loans: map<LoanId, Loan>, c: LoanId)
    requires c in loans
  {
    loans[c].prev.Some? ==> loans[c].prev.value in loans && loans[loans[c].prev.value].state == PAID_OUT
  }

  /** A loan that waits, replaces `c`, and can be priced: its approval will pay `c` out whatever state `c` is in. */
  predicate Replaces(loans: map<LoanId, Loan>, d: LoanId, c: LoanId) {
    d in loans && loans[d].state == WAITING_APPROVAL && loans[d].prev == Some(c) && ApprovalFigures(loans[d].terms).Some?
  }

  /** And so has every loan about to be replaced. */
  ghost predicate Settled(loans: map<LoanId, Loan>) {
    PaidOff(loans) && forall c, d :: c in loans && Replaces(loans, d, c) ==> ReplacedIsPaid(loans, c)
  }

  /** A refinance between its read and its insert knows that its parent has paid off. */
  ghost predicate ParentSettled(x: System, sid: SessionId)
    requires sid in x.sessions
  {
    x.sessions[sid].job.Refinance? && (x.sessions[sid].pc.ParentRead? || x.sessions[sid].pc.Projected?) ==>
      x.sessions[sid].job.parent in x.db.loans && ReplacedIsPaid(x.db.loans, x.sessions[sid].job.parent)
  }

  ghost predicate PayoffInv(x: System) {
    Settled(x.db.loans) && forall sid :: sid in x.sessions ==> ParentSettled(x, sid)
  }

  lemma StaysPaid(x: map<LoanId, Loan>, y: map<LoanId, Loan>, c: LoanId)
    requires LoansOk(y) && LoansEvolve(x, y) && c in x && ReplacedIsPaid(x, c)
    ensures c in y && ReplacedIsPaid(y, c)
  {
    assert LoanOk(y, c);
    if y[c].prev.Some? { assert LoanOk(y, y[c].prev.value); }
  }

  /** No loan came to replace another, and whatever state changed, the loan replaced is paid. */
  lemma SettledFrom(x: map<LoanId, Loan>, y: map<LoanId, Loan>)
    requires Settled(x) && LoansOk(x) && LoansOk(y) && LoansEvolve(x, y) && y.Keys == x.Keys
    requires forall c :: c in y && y[c].state in {APPROVED, PAID_OUT} && x[c].state !in {APPROVED, PAID_OUT} ==>
               ReplacedIsPaid(x, c) || ReplacedIsPaid(y, c)
    ensures Settled(y)
  {
    hide ReplacedIsPaid, ApprovalFigures;
    forall c | c in y && (y[c].state in {APPROVED, PAID_OUT} || exists d :: Replaces(y, d, c))
      ensures ReplacedIsPaid(y, c)
    {
      if d :| Replaces(y, d, c) {
        assert LoanOk(x, d);
        assert Replaces(x, d, c);
      }
      if ReplacedIsPaid(x, c) { StaysPaid(x, y, c); }
    }
  }

  lemma TransitionSettles(x: Db, id: LoanId, target: int, y: Db)
    requires DbOk(x) && Settled(x.loans)
    requires Sequential(x, Update(id, target), y) && LoansOk(y.loans) && LoansEvolve(x.loans, y.loans)
    ensures Settled(y.loans)
  {
    SequentialOnRows(x, id, target, y);
    MovedFacts(x, id, target, y);
    assert LoanOk(x.loans, id);
    hide Sequential, MovedOnRows, Settled, DbOk;
    forall c | c in y.loans && y.loans[c].state in {APPROVED, PAID_OUT} && x.loans[c].state !in {APPROVED, PAID_OUT}
      ensures ReplacedIsPaid(x.loans, c) || ReplacedIsPaid(y.loans, c)
    {
      if c != id { AboutToBeReplaced(x.loans, id, c); }
    }
    SettledFrom(x.loans, y.loans);
  }

  lemma AboutToBeReplaced(loans: map<LoanId, Loan>, d: LoanId, c: LoanId)
    requires Settled(loans) && c in loans && Replaces(loans, d, c)
    ensures ReplacedIsPaid(loans, c)
  {}

  /** A step that leaves the loans alone or only their `refinanced` columns. */
  lemma LinkSettles(x: map<LoanId, Loan>, y: map<LoanId, Loan>)
    requires Settled(x) && LoansOk(x) && LoansOk(y) && y.Keys == x.Keys
    requires forall c :: c in x ==> y[c] == x[c].(refinanced := y[c].refinanced)
    ensures Settled(y)
  {
    hide Settled, LoansOk;
    SettledFrom(x, y);
  }

  lemma UploadSettles(x: Db, file: seq<Line>, y: Db)
    requires DbOk(x) && Settled(x.loans) && Uploaded(x, file, y) && LoansOk(y.loans)
    ensures Settled(y.loans)
  {
    hide Settled, Listed, WithFigures;
    SettledFrom(x.loans, y.loans);
  }

  lemma RequestSettles(x: Db, job: Job, y: Db)
    requires job.Request? && Settled(x.loans) && LoansOk(x.loans) && LoansOk(y.loans) && Sequential(x, job, y)
    ensures Settled(y.loans)
  {
    hide ApprovalFigures;
    forall c, d | c in y.loans && Replaces(y.loans, d, c)
      ensures ReplacedIsPaid(y.loans, c)
    {
      assert LoanOk(y.loans, d) && Replaces(x.loans, d, c);
    }
  }

  /** A new child of a loan that has paid off. */
  lemma ChildSettles(loans: map<LoanId, Loan>, id: LoanId, child: Loan, after: map<LoanId, Loan>)
    requires Settled(loans) && LoansOk(loans) && id !in loans && LoansOk(after) && after == loans[id := child]
    requires child.state == WAITING_APPROVAL && child.prev.Some? && child.prev.value in loans
    requires ReplacedIsPaid(loans, child.prev.value)
    ensures Settled(after)
  {
    hide ApprovalFigures;
    forall c | c in after && c != id && (after[c].state in {APPROVED, PAID_OUT} || exists d :: Replaces(after, d, c))
      ensures ReplacedIsPaid(after, c)
    {
      if d :| Replaces(after, d, c) && d != id { assert Replaces(loans, d, c); }
    }
    NobodyReplacesNew(loans, id, child, after);
  }

  lemma NobodyReplacesNew(loans: map<LoanId, Loan>, id: LoanId, child: Loan, after: map<LoanId, Loan>)
    requires LoansOk(loans) && id !in loans && LoansOk(after) && after == loans[id := child]
    ensures forall d :: !Replaces(after, d, id)
  {
    hide ApprovalFigures;
    assert LoanOk(after, id) && forall d :: d in loans ==> LoanOk(loans, d);
  }

  /** What a refinance knows of its parent survives a step of anyone. */
  lemma ParentStaysSettled(x: System, y: System, sid: SessionId)
    requires LoansOk(y.db.loans) && LoansEvolve(x.db.loans, y.db.loans) && sid in x.sessions && ParentSettled(x, sid)
    requires sid in y.sessions && y.sessions[sid] == x.sessions[sid]
    ensures ParentSettled(y, sid)
  {
    hide LoansOk, ReplacedIsPaid, RowEvolves, LoansEvolve;
    if x.sessions[sid].job.Refinance? && (x.sessions[sid].pc.ParentRead? || x.sessions[sid].pc.Projected?) {
      StaysPaid(x.db.loans, y.db.loans, x.sessions[sid].job.parent);
    }
  }

  lemma StepEvolves(x: System, sid: SessionId, a: Action, y: System)
    requires Inv(x) && Next(x, sid, a, y)
    ensures Inv(y) && LoansOk(x.db.loans) && LoansOk(y.db.loans) && LoansEvolve(x.db.loans, y.db.loans)
  {
    hide Inv, Next, Moved, RowEvolves;
    StepKeepsInv(x, sid, a, y);
    InvGivesLoansOk(x);
    InvGivesLoansOk(y);
    forall id | id in x.db.loans
      ensures id in y.db.loans && RowEvolves(x.db.loans[id], y.db.loans[id])
    {
      StepMovesLoan(x, sid, a, y, id);
    }
  }

  lemma RefinanceSettles(x: System, sid: SessionId, a: Action, y: System)
    requires Inv(x) && PayoffInv(x) && Next(x, sid, a, y) && sid in x.sessions && x.sessions[sid].job.Refinance? && !a.Begin?
    requires LoansOk(x.db.loans) && LoansOk(y.db.loans) && LoansEvolve(x.db.loans, y.db.loans)
    ensures Settled(y.db.loans) && sid in y.sessions && ParentSettled(y, sid)
  {
    assert ParentSettled(x, sid);
    hide Inv, UpdateNext, BulkNext, RequestNext, RefinanceNext, Settled, ParentSettled, LoansOk, LoansEvolve;
    if a.InsertChild? { ChildInserted(x, sid, a, y); } else { RefinanceElse(x, sid, a, y); }
  }

  lemma ChildInserted(x: System, sid: SessionId, a: Action, y: System)
    requires Inv(x) && Settled(x.db.loans) && sid in x.sessions && x.sessions[sid].job.Refinance? && a.InsertChild?
    requires RefinanceNext(x, sid, x.sessions[sid].job.parent, x.sessions[sid].job.actor, x.sessions[sid].job.renewal, a, y)
    requires LoansOk(x.db.loans) && LoansOk(y.db.loans) && ParentSettled(x, sid)
    ensures Settled(y.db.loans) && sid in y.sessions && ParentSettled(y, sid)
  {
    NextIsNew(x);
    hide Inv, Settled, ReplacedIsPaid, LoansOk;
    if y.nextLoan != x.nextLoan { ChildSettles(x.db.loans, x.nextLoan, y.db.loans[x.nextLoan], y.db.loans); }
  }

  lemma NextIsNew(x: System)
    requires Inv(x)
    ensures x.nextLoan !in x.db.loans
  {}

  lemma RefinanceElse(x: System, sid: SessionId, a: Action, y: System)
    requires Settled(x.db.loans) && sid in x.sessions && x.sessions[sid].job.Refinance? && !a.InsertChild?
    requires RefinanceNext(x, sid, x.sessions[sid].job.parent, x.sessions[sid].job.actor, x.sessions[sid].job.renewal, a, y)
    requires LoansOk(x.db.loans) && LoansOk(y.db.loans) && ParentSettled(x, sid)
    ensures Settled(y.db.loans) && sid in y.sessions && ParentSettled(y, sid)
  {
    hide Settled, ReplacedIsPaid, LoansOk, RefinanceValue, FirstDetail, LoanFree;
    match a {
      case ReadParent => ReadParentSettles(x, sid, y);
      case LinkParent => LinkSettles(x.db.loans, y.db.loans);
      case _ =>
    }
  }

  lemma ReadParentSettles(x: System, sid: SessionId, y: System)
    requires sid in x.sessions && x.sessions[sid].job.Refinance? && Settled(x.db.loans) && y.db == x.db && sid in y.sessions
    requires RefinanceNext(x, sid, x.sessions[sid].job.parent, x.sessions[sid].job.actor, x.sessions[sid].job.renewal,
                           ReadParent, y)
    ensures ParentSettled(y, sid)
  {
    hide RefinanceValue, ReplacedIsPaid;
  }

  lemma StepSettles(x: System, sid: SessionId, a: Action, y: System)
    requires Inv(x) && PayoffInv(x) && Next(x, sid, a, y)
    ensures PayoffInv(y)
  {
    assert !a.Begin? ==> sid in x.sessions;
    hide Inv, Next, Settled, ParentSettled, LoansOk, LoansEvolve, Effect;
    StepEvolves(x, sid, a, y);
    StepHasEffect(x, sid, a, y);
    if a.Begin? || !x.sessions[sid].job.Refinance? { OwnSettles(x, sid, a, y); } else { RefinanceSettles(x, sid, a, y); }
    forall t | t in y.sessions && t != sid
      ensures ParentSettled(y, t)
    {
      OthersUnchanged(x, sid, a, y, t);
      ParentStaysSettled(x, y, t);
    }
  }

  /** A step of a session that is no refinance, or only begins. */
  lemma OwnSettles(x: System, sid: SessionId, a: Action, y: System)
    requires Inv(x) && Settled(x.db.loans) && Next(x, sid, a, y) && (a.Begin? || !x.sessions[sid].job.Refinance?)
    requires LoansOk(x.db.loans) && LoansOk(y.db.loans) && LoansEvolve(x.db.loans, y.db.loans)
    requires y.db == x.db || (sid in x.sessions && Effect(x.db, x.sessions[sid].job, y.db))
    ensures Settled(y.db.loans) && (sid in y.sessions ==> ParentSettled(y, sid))
  {
    InvGivesLoansOk(x);
    NotAParent(x, sid, a, y);
    hide Inv, Next, Settled, ParentSettled, LoansOk, LoansEvolve, DbOk, Sequential, Uploaded;
    if y.db != x.db {
      match x.sessions[sid].job {
        case Update(id, target) => TransitionSettles(x.db, id, target, y.db);
        case Bulk(file) => UploadSettles(x.db, file, y.db);
        case Request(_, _) => RequestSettles(x.db, x.sessions[sid].job, y.db);
        case Refinance(_, _, _) => BeginChangesNothing(x, sid, a, y);
      }
    }
  }

  lemma BeginChangesNothing(x: System, sid: SessionId, a: Action, y: System)
    requires Next(x, sid, a, y) && a.Begin?
    ensures y.db == x.db
  {}

  lemma NotAParent(x: System, sid: SessionId, a: Action, y: System)
    requires Next(x, sid, a, y) && (a.Begin? || !x.sessions[sid].job.Refinance?)
    ensures sid in y.sessions ==> ParentSettled(y, sid)
  {
    hide RefinanceNext, ReplacedIsPaid, Found, ToClose, LoanFree, DetailFree, Legal, FirstDetail, ApprovalFigures;
  }

  lemma {:induction false} RunKeepsSettled(states: seq<System>, moves: seq<Move>, n: nat)
    requires Run(states, moves) && n < |states| && Settled(states[0].db.loans)
    ensures PayoffInv(states[n])
  {
    hide Next, Inv, Settled, ParentSettled;
    if n > 0 {
      RunKeepsSettled(states, moves, n - 1);
      RunKeepsInv(states, moves, n - 1);
      assert Next(states[n - 1], moves[n - 1].sid, moves[n - 1].action, states[n - 1 + 1]);
      StepSettles(states[n - 1], moves[n - 1].sid, moves[n - 1].action, states[n]);
    }
  }

  /** Over every run from settled tables, a loan that is approved or paid out has paid off the loan it
      replaced: the two are never live together. */
  lemma ReplacedLoansArePaidOff(states: seq<System>, moves: seq<Move>, n: nat, c: LoanId, p: LoanId)
    requires Run(states, moves) && n < |states| && Settled(states[0].db.loans)
    requires c in states[n].db.loans && states[n].db.loans[c].prev == Some(p) && states[n].db.loans[c].state in {1, 3}
    ensures p in states[n].db.loans && states[n].db.loans[p].state == 3
  {
    hide Run;
    RunKeepsSettled(states, moves, n);
  }

  /** Settled tables are exactly those from which no run breaks that: from any other, a run of at most one
      approval does, by paying out a denied loan whose own predecessor was never paid off. */
  lemma UnsettledBreaks(x: System) returns (states: seq<System>, moves: seq<Move>)
    requires Initial(x) && !Settled(x.db.loans)
    ensures |states| == |moves| + 1 && Run(states, moves) && states[0] == x && !PaidOff(states[|moves|].db.loans)
  {
    NoSteps(x);
    states, moves := [x], [];
    if PaidOff(x.db.loans) {
      var c, d :| c in x.db.loans && Replaces(x.db.loans, d, c) && !ReplacedIsPaid(x.db.loans, c);
      states, moves := ApprovalBreaks(x, d, c);
    }
  }

  lemma ApprovalBreaks(x: System, d: LoanId, c: LoanId) returns (states: seq<System>, moves: seq<Move>)
    requires Initial(x) && c in x.db.loans && Replaces(x.db.loans, d, c) && !ReplacedIsPaid(x.db.loans, c)
    ensures |states| == |moves| + 1 && Run(states, moves) && states[0] == x && !PaidOff(states[|moves|].db.loans)
  {
    hide Inv, Steps, Sequential, Next, DbOk, EndsAlone, ApprovalFigures, PaidOff;
    assert Inv(x) by { InitialIsInv(x); }
    InvGivesLoansOk(x);
    NoSteps(x);
    states, moves := Opens([x], [], 0, Update(d, APPROVED));
    var ready := states[|moves|];
    states, moves := UpdateAfter(states, moves, 0);
    ApprovedAlone(ready, d, states[|moves|]);
    BreaksPaidOff(x.db, d, c, states[|moves|].db);
  }

  lemma ApprovedAlone(ready: System, d: LoanId, y: System)
    requires 0 in ready.sessions && ready.sessions[0].job == Update(d, APPROVED) && EndsAlone(ready, 0, y)
    requires d in ready.db.loans && ready.db.loans[d].state == WAITING_APPROVAL
    ensures Sequential(ready.db, Update(d, APPROVED), y.db)
  {
    hide Sequential;
  }

  lemma BreaksPaidOff(x: Db, d: LoanId, c: LoanId, y: Db)
    requires DbOk(x) && Sequential(x, Update(d, APPROVED), y) && c in x.loans
    requires Replaces(x.loans, d, c) && !ReplacedIsPaid(x.loans, c)
    ensures !PaidOff(y.loans)
  {
    SequentialOnRows(x, d, APPROVED, y);
    MovedFacts(x, d, APPROVED, y);
    assert LoanOk(x.loans, d) && LoanOk(x.loans, c);
    hide Sequential, MovedOnRows, ApprovalFigures, DbOk;
    assert y.loans[c].state == PAID_OUT && y.loans[c].prev == x.loans[c].prev;
    assert !ReplacedIsPaid(y.loans, c);
  }
}
