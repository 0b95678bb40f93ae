/** A refinance among concurrent sessions: when the child it inserts is the one it would insert alone. */
module LoanRefinance {
  import opened Options
  import opened LoanRules
  import opened LoanProtocol
  import opened LoanRuns
  import opened LoanRaces
  import opened LoanFigures
  import Decimal28
  import A = Amortization

  /** The guard, asked again now. */
  predicate Renewable(loans: map<LoanId, Loan>, parent: LoanId, actor: nat) {
    parent in loans && loans[parent].state == APPROVED && loans[parent].owner == actor
  }

  /** An inserted child belongs to its parent's owner and carries the value projected earlier. The guard
      would pass now if and only if the parent is still approved; and the child is the one the refinance
      run alone would insert now if and only if, besides, the projection would give that value now. */
  lemma ChildIsSequentialExactly(states: seq<System>, moves: seq<Move>, i: nat)
    requires Run(states, moves) && i < |moves| && moves[i].action.InsertChild? && moves[i].sid in states[i].sessions
    requires states[i + 1].nextLoan != states[i].nextLoan
    ensures states[i].sessions[moves[i].sid].job.Refinance? && states[i].sessions[moves[i].sid].pc.Projected?
    ensures var x, y, s := states[i], states[i + 1], states[i].sessions[moves[i].sid];
            var job, loans := s.job, x.db.loans;
            && job.parent in loans && x.nextLoan in y.db.loans && y.db.loans[x.nextLoan].prev == Some(job.parent)
            && (Renewable(loans, job.parent, job.actor) <==> loans[job.parent].state == APPROVED)
            && (RefinanceAlone(x.db, job.parent, job.actor, job.renewal) == Some(y.db.loans[x.nextLoan].terms)
                <==> loans[job.parent].state == APPROVED && FirstDetail(x.db.details, job.parent).Some?
                     && RefinanceValue(loans, x.db.details, job.parent, job.renewal.toDate, job.renewal.includeInterests)
                        == s.pc.value)
  {
    hide Inv, UpdateNext, BulkNext;
    RunKeepsInv(states, moves, i);
    var x, sid := states[i], moves[i].sid;
    assert Next(x, sid, moves[i].action, states[i + 1]);
    OnlyRefinancesInsertChildren(x, sid, moves[i].action, states[i + 1]);
    RefinanceKnows(x, sid);
    InvGivesLoansOk(x);
    hide DbOk, FirstDetail, RefinanceValue;
    if x.db.loans[x.sessions[sid].job.parent].state == APPROVED { ApprovedHasDetail(x.db, x.sessions[sid].job.parent); }
  }

  lemma OnlyRefinancesInsertChildren(x: System, sid: SessionId, a: Action, y: System)
    requires Next(x, sid, a, y) && a.InsertChild?
    ensures sid in x.sessions && x.sessions[sid].job.Refinance? && x.sessions[sid].pc.Projected?
  {}

  lemma RefinanceKnows(x: System, sid: SessionId)
    requires Inv(x) && sid in x.sessions && x.sessions[sid].job.Refinance?
    ensures RefinanceOk(x.db, x.sessions[sid].job.parent, x.sessions[sid].job.actor, x.sessions[sid].pc)
  {
    hide DbOk, Disjoint;
    assert SessionOk(x.db, x.sessions[sid]);
  }

  // ---------------------------------------------------------------------
  // The condition can fail
  // ---------------------------------------------------------------------

  /** Session 0 has read its approved loan and projected its balance; session 1 is about to pay it out. */
  lemma RefinanceProjected(x: System, parent: LoanId, r: Renewal) returns (states: seq<System>, moves: seq<Move>)
    requires Initial(x) && parent in x.db.loans && RefinanceAlone(x.db, parent, x.db.loans[parent].owner, r).Some?
    ensures |states| == |moves| + 1 && Steps(states, moves) && states[0] == x && Inv(states[|moves|])
    ensures var row := x.db.loans[parent];
            states[|moves|] == x.(sessions := map[
              0 := Session(Refinance(parent, row.owner, r),
                           Projected(row, RefinanceValue(x.db.loans, x.db.details, parent, r.toDate, r.includeInterests)),
                           map[], map[]),
              1 := Session(Update(parent, PAID_OUT), Start, map[], map[])])
  {
    hide Inv, DbOk, Steps, Next, RefinanceValue, RenewedTerms;
    assert Inv(x) by { InitialIsInv(x); }
    NoSteps(x);
    var row := x.db.loans[parent];
    states, moves := Opens([x], [], 0, Refinance(parent, row.owner, r));
    var y := states[|moves|];
    ReadEnabled(y, parent, r);
    y := With(y, 0, y.sessions[0].(pc := ParentRead(row)));
    states, moves := Extend(states, moves, 0, ReadParent, y);
    ProjectEnabled(y, parent, r, row);
    var value := RefinanceValue(x.db.loans, x.db.details, parent, r.toDate, r.includeInterests);
    states, moves := Extend(states, moves, 0, Project, With(y, 0, y.sessions[0].(pc := Projected(row, value))));
    states, moves := Opens(states, moves, 1, Update(parent, PAID_OUT));
  }

  lemma ReadEnabled(y: System, parent: LoanId, r: Renewal)
    requires parent in y.db.loans && y.db.loans[parent].state == APPROVED && 0 in y.sessions
    requires y.sessions[0].job == Refinance(parent, y.db.loans[parent].owner, r) && y.sessions[0].pc.Start?
    ensures Next(y, 0, ReadParent, With(y, 0, y.sessions[0].(pc := ParentRead(y.db.loans[parent]))))
  {}

  lemma ProjectEnabled(y: System, parent: LoanId, r: Renewal, row: Loan)
    requires parent in y.db.loans && FirstDetail(y.db.details, parent).Some? && 0 in y.sessions
    requires y.sessions[0].job == Refinance(parent, row.owner, r) && y.sessions[0].pc == ParentRead(row)
    ensures var value := RefinanceValue(y.db.loans, y.db.details, parent, r.toDate, r.includeInterests);
            Next(y, 0, Project, With(y, 0, y.sessions[0].(pc := Projected(row, value))))
  {
    hide RefinanceValue;
  }

  /** A loan paid out between the guard and the insert is refinanced all the same: the child is inserted
      although the refinance, arriving now, would be refused. */
  lemma PaidOutLoanIsRefinanced(x: System, parent: LoanId, r: Renewal) returns (states: seq<System>, moves: seq<Move>)
    requires Initial(x) && parent in x.db.loans && RefinanceAlone(x.db, parent, x.db.loans[parent].owner, r).Some?
    ensures |states| == |moves| + 1 && Run(states, moves) && states[0] == x && |moves| > 0
    ensures moves[|moves| - 1] == Move(0, InsertChild(x.db.loans[parent].createdAt))
    ensures var y, z, owner := states[|moves| - 1], states[|moves|], x.db.loans[parent].owner;
            && parent in y.db.loans && y.db.loans[parent].state == PAID_OUT
            && RefinanceAlone(y.db, parent, owner, r).None?
            && z.nextLoan == y.nextLoan + 1 && y.nextLoan in z.db.loans && z.db.loans[y.nextLoan].prev == Some(parent)
  {
    hide Inv, Steps, Sequential, Next, DbOk, EndsAlone, Initial, RenewedTerms, RefinanceValue, FirstDetail;
    var row, value := x.db.loans[parent], RefinanceValue(x.db.loans, x.db.details, parent, r.toDate, r.includeInterests);
    var terms := RenewedTerms(value, r).value;
    states, moves := RefinanceProjected(x, parent, r);
    var ready := states[|moves|];
    states, moves := UpdateAfter(states, moves, 1);
    var y := states[|moves|];
    PayoutEnds(ready, parent, y);
    var z := InsertsNow(y, parent, row, r, value, terms);
    states, moves := Extend(states, moves, 0, InsertChild(row.createdAt), z);
  }

  lemma PayoutEnds(ready: System, parent: LoanId, y: System)
    requires 1 in ready.sessions && ready.sessions[1].job == Update(parent, PAID_OUT) && EndsAlone(ready, 1, y)
    requires parent in ready.db.loans && ready.db.loans[parent].state == APPROVED
    ensures parent in y.db.loans && y.db.loans[parent].state == PAID_OUT
    ensures forall t :: t in ready.sessions && t != 1 ==> t in y.sessions && y.sessions[t] == ready.sessions[t]
  {
    hide WrittenDetails;
  }

  lemma InsertsNow(y: System, parent: LoanId, row: Loan, r: Renewal, value: int, terms: Terms) returns (z: System)
    requires 0 in y.sessions && RenewedTerms(value, r) == Some(terms)
    requires y.sessions[0] == Session(Refinance(parent, row.owner, r), Projected(row, value), map[], map[])
    ensures Next(y, 0, InsertChild(row.createdAt), z)
    ensures z.nextLoan == y.nextLoan + 1 && y.nextLoan in z.db.loans && z.db.loans[y.nextLoan].prev == Some(parent)
  {
    z := y.(db := y.db.(loans := y.db.loans[y.nextLoan := NewLoan(row.owner, row.createdAt, Some(parent), terms)]),
            nextLoan := y.nextLoan + 1,
            sessions := y.sessions[0 := y.sessions[0].(pc := ChildCreated(y.nextLoan))]);
  }

  // ---------------------------------------------------------------------
  // What the child takes over
  // ---------------------------------------------------------------------

  lemma OnlyProjecting(x: System, sid: SessionId, a: Action, y: System)
    requires Next(x, sid, a, y) && sid in y.sessions && y.sessions[sid].job.Refinance? && y.sessions[sid].pc.Projected?
    ensures a == Project && sid in x.sessions && x.sessions[sid].job == y.sessions[sid].job && y.db == x.db
    ensures var job := y.sessions[sid].job;
            job.parent in x.db.loans && FirstDetail(x.db.details, job.parent).Some?
            && y.sessions[sid].pc.value ==
               RefinanceValue(x.db.loans, x.db.details, job.parent, job.renewal.toDate, job.renewal.includeInterests)
  {
    hide RefinanceValue, Found, ToClose, LoanFree, DetailFree, Legal, FirstDetail, ApprovalFigures, ListedLoans;
  }

  /** A refinance that has projected did so at one definite step and has not moved since. */
  lemma {:induction false} ProjectedSince(states: seq<System>, moves: seq<Move>, j: nat, sid: SessionId) returns (i: nat)
    requires Run(states, moves) && j < |states| && sid in states[j].sessions
    requires states[j].sessions[sid].job.Refinance? && states[j].sessions[sid].pc.Projected?
    ensures i < j && moves[i] == Move(sid, Project) && sid in states[i].sessions
    ensures var db, job := states[i].db, states[j].sessions[sid].job;
            && states[i].sessions[sid].job == job && job.parent in db.loans && FirstDetail(db.details, job.parent).Some?
            && states[j].sessions[sid].pc.value ==
               RefinanceValue(db.loans, db.details, job.parent, job.renewal.toDate, job.renewal.includeInterests)
    decreases j
  {
    hide Next, Inv, RefinanceValue, DbOk, FirstDetail;
    assert j > 0;
    var x, m, y := states[j - 1], moves[j - 1], states[j - 1 + 1];
    assert Next(x, m.sid, m.action, y);
    if m.sid == sid {
      OnlyProjecting(x, sid, m.action, y);
      i := j - 1;
    } else {
      OthersUnchanged(x, m.sid, m.action, y, sid);
      i := ProjectedSince(states, moves, j - 1, sid);
    }
  }

  lemma InsertsTheChild(x: System, sid: SessionId, a: Action, y: System)
    requires Next(x, sid, a, y) && a.InsertChild? && sid in x.sessions && y.nextLoan != x.nextLoan
    ensures x.sessions[sid].job.Refinance? && x.sessions[sid].pc.Projected? && x.nextLoan in y.db.loans
    ensures var job, s, child := x.sessions[sid].job, x.sessions[sid], y.db.loans[x.nextLoan];
            && child.terms == Terms(s.pc.value, job.renewal.timelimit, job.renewal.fee, A.GetRate(job.renewal.timelimit),
                                    job.renewal.toDate)
            && s.pc.value >= 1 && 1 <= job.renewal.timelimit <= 36
            && child.owner == job.actor && child.prev == Some(job.parent) && child.state == 0 && child.refinanced == None
  {
    OnlyRefinancesInsertChildren(x, sid, a, y);
    hide UpdateNext, BulkNext, RequestNext, A.GetRate;
  }

  /** The child of a refinance waits for approval in the terms asked for, and owes what its parent's detail
      owed when it was projected: the capital balance, and the accrued interest to half a unit if that was
      asked for, not otherwise. */
  lemma ChildTakesOver(states: seq<System>, moves: seq<Move>, j: nat) returns (i: nat)
    requires Run(states, moves) && j < |moves| && moves[j].action.InsertChild? && moves[j].sid in states[j].sessions
    requires states[j + 1].nextLoan != states[j].nextLoan
    ensures i < j && moves[i] == Move(moves[j].sid, Project) && states[j].sessions[moves[j].sid].job.Refinance?
    ensures states[j].nextLoan in states[j + 1].db.loans
    ensures var job, child := states[j].sessions[moves[j].sid].job, states[j + 1].db.loans[states[j].nextLoan];
            var db, r := states[i].db, job.renewal;
            && job.parent in db.loans && FirstDetail(db.details, job.parent).Some?
            && (var row := BalanceRow(db.details, job.parent);
                var added := child.terms.value - row.capitalBalance;
                var exact := AccruedTo(db.loans[job.parent].terms.rate, row, r.toDate);
                && (!r.includeInterests ==> added == 0)
                && (r.includeInterests ==> Decimal28.Abs(added as real - exact) <= 0.5 + 3.0 * A.EPSILON * Decimal28.Abs(exact)))
            && child.terms.timelimit == r.timelimit && child.terms.fee == r.fee && child.terms.disbursement == r.toDate
            && child.owner == job.actor && child.prev == Some(job.parent) && child.state == 0
  {
    hide Next, Inv, RefinanceValue, FirstDetail, DbOk, Decimal28.Abs, AccruedTo, BalanceRow, A.GetRate;
    var sid := moves[j].sid;
    assert Next(states[j], sid, moves[j].action, states[j + 1]);
    InsertsTheChild(states[j], sid, moves[j].action, states[j + 1]);
    i := ProjectedSince(states, moves, j, sid);
    var job, db := states[j].sessions[sid].job, states[i].db;
    RefinanceValueIs(db.loans, db.details, job.parent, job.renewal.toDate);
  }

  /** The last step links the parent to the child it inserted, and changes nothing else. */
  lemma LinkNamesTheChild(states: seq<System>, moves: seq<Move>, i: nat)
    requires Run(states, moves) && i < |moves| && moves[i].action.LinkParent? && moves[i].sid in states[i].sessions
    ensures states[i].sessions[moves[i].sid].job.Refinance?
    ensures var x, y, parent := states[i].db, states[i + 1].db, states[i].sessions[moves[i].sid].job.parent;
            && y.details == x.details && y.loans.Keys == x.loans.Keys && parent in x.loans
            && (forall k :: k in x.loans && k != parent ==> y.loans[k] == x.loans[k])
            && y.loans[parent] == x.loans[parent].(refinanced := y.loans[parent].refinanced)
            && y.loans[parent].refinanced.Some? && y.loans[parent].refinanced.value in y.loans
            && y.loans[y.loans[parent].refinanced.value].prev == Some(parent)
  {
    hide Inv, RefinanceNext;
    RunKeepsInv(states, moves, i);
    assert Next(states[i], moves[i].sid, moves[i].action, states[i + 1]);
    var x, sid, y := states[i], moves[i].sid, states[i + 1];
    OnlyRefinancesLink(x, sid, y);
    RefinanceKnows(x, sid);
    LinksTheChild(x, sid, y);
  }

  lemma OnlyRefinancesLink(x: System, sid: SessionId, y: System)
    requires Next(x, sid, LinkParent, y)
    ensures sid in x.sessions && x.sessions[sid].job.Refinance?
    ensures var job := x.sessions[sid].job; RefinanceNext(x, sid, job.parent, job.actor, job.renewal, LinkParent, y)
  {
    hide RefinanceNext;
  }

  lemma LinksTheChild(x: System, sid: SessionId, y: System)
    requires sid in x.sessions && x.sessions[sid].job.Refinance?
    requires var job := x.sessions[sid].job;
             RefinanceNext(x, sid, job.parent, job.actor, job.renewal, LinkParent, y)
             && RefinanceOk(x.db, job.parent, job.actor, x.sessions[sid].pc)
    ensures var parent := x.sessions[sid].job.parent;
            && y.db.details == x.db.details && y.db.loans.Keys == x.db.loans.Keys && parent in x.db.loans
            && (forall k :: k in x.db.loans && k != parent ==> y.db.loans[k] == x.db.loans[k])
            && y.db.loans[parent] == x.db.loans[parent].(refinanced := y.db.loans[parent].refinanced)
            && y.db.loans[parent].refinanced.Some? && y.db.loans[parent].refinanced.value in y.db.loans
            && y.db.loans[y.db.loans[parent].refinanced.value].prev == Some(parent)
  {
    hide RefinanceValue, FirstDetail, LoanFree;
  }
}
