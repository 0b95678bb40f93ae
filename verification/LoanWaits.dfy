/** Who waits for whom when detail rows count too: transitions and uploads together. */
module LoanWaits {
  import opened Options
  import opened LoanRules
  import opened LoanProtocol
  import opened LoanRuns
  import opened LoanRaces

  // ---------------------------------------------------------------------
  // Waiting for detail rows
  // ---------------------------------------------------------------------

  /** The detail row the next statement of a session must lock. */
  ghost function WantedDetail(db: Db, s: Session): Option<DetailId> {
    match s.job
    case Update(_, _) => if s.pc.LookedUp? then s.pc.found else None
    case Bulk(file) =>
      if s.pc.Lines? && s.pc.next < |file| && file[s.pc.next].Line? then Found(db, file[s.pc.next]) else None
    case Request(_, _) => None
    case Refinance(_, _, _) => None
  }

  lemma TransitionLocksDetail(x: System, sid: SessionId, id: LoanId, target: int, a: Action, y: System, d: DetailId)
    requires sid in x.sessions && x.sessions[sid].job == Update(id, target) && UpdateNext(x, sid, id, target, a, y)
    requires sid in y.sessions && d in y.sessions[sid].details && d !in x.sessions[sid].details && d != x.nextDetail
    ensures WantedDetail(x.db, x.sessions[sid]) == Some(d) && DetailFree(x, sid, d)
  {
    hide FirstDetail, ApprovalFigures, Legal, LoanFree, DetailFree;
  }

  lemma UploadLocksDetail(x: System, sid: SessionId, file: seq<Line>, a: Action, y: System, d: DetailId)
    requires sid in x.sessions && x.sessions[sid].job == Bulk(file) && BulkNext(x, sid, file, a, y)
    requires sid in y.sessions && d in y.sessions[sid].details && d !in x.sessions[sid].details
    ensures WantedDetail(x.db, x.sessions[sid]) == Some(d) && DetailFree(x, sid, d)
  {
    hide Found, ToClose, ListedLoans, Legal, LoanFree, DetailFree;
  }

  lemma OthersLockNoDetail(x: System, sid: SessionId, a: Action, y: System)
    requires Next(x, sid, a, y) && !a.Begin? && (x.sessions[sid].job.Request? || x.sessions[sid].job.Refinance?)
    ensures sid in y.sessions && forall d :: d in y.sessions[sid].details ==> d in x.sessions[sid].details
  {
    hide UpdateNext, BulkNext, FirstDetail, RefinanceValue, RenewedTerms, LoanFree;
  }

  lemma NextDetailIsNew(x: System)
    requires Inv(x)
    ensures x.nextDetail !in x.db.details
  {
    hide SessionOk, DbOk;
  }

  /** Nor is a detail row: one that existed and is newly held after a step is the row the session wanted, and
      nobody else held it. */
  lemma LocksTheDetailItWants(x: System, sid: SessionId, a: Action, y: System, d: DetailId)
    requires Inv(x) && Next(x, sid, a, y) && !a.Begin? && sid in y.sessions
    requires d in x.db.details && d in y.sessions[sid].details && d !in x.sessions[sid].details
    ensures WantedDetail(x.db, x.sessions[sid]) == Some(d)
    ensures forall t :: t in x.sessions && t != sid ==> d !in x.sessions[t].details
  {
    hide Inv, UpdateNext, BulkNext, RefinanceNext, RequestNext, WantedDetail;
    NextDetailIsNew(x);
    match x.sessions[sid].job {
      case Update(id, target) => TransitionLocksDetail(x, sid, id, target, a, y, d);
      case Bulk(file) => UploadLocksDetail(x, sid, file, a, y, d);
      case _ => OthersLockNoDetail(x, sid, a, y);
    }
  }

  /** Session `t` holds the detail row session `s` waits for. */
  ghost predicate BlocksDetail(x: System, t: SessionId, s: SessionId)
    requires t in x.sessions && s in x.sessions
  {
    t != s && WantedDetail(x.db, x.sessions[s]).Some? && WantedDetail(x.db, x.sessions[s]).value in x.sessions[t].details
  }

  /** Every detail is of a loan that has left the waiting state: only an approval creates one. */
  ghost predicate DetailsEarned(db: Db) {
    forall d :: d in db.details ==> db.details[d].loanId in db.loans && db.loans[db.details[d].loanId].state >= APPROVED
  }

  lemma EffectKeepsEarned(x: Db, job: Job, y: Db)
    requires LoansOk(x.loans) && DetailsEarned(x) && Effect(x, job, y)
    ensures DetailsEarned(y)
  {
    hide Sequential, Uploaded, LoansOk, Moved;
    forall d | d in y.details
      ensures y.details[d].loanId in y.loans && y.loans[y.details[d].loanId].state >= APPROVED
    {
      var id := y.details[d].loanId;
      if DetailIsOld(x, job, y, d) {
        EffectMovesLoan(x, job, y, id);
      } else {
        NewDetailIsApproved(x, job, y, d);
      }
    }
  }

  predicate DetailIsOld(x: Db, job: Job, y: Db, d: DetailId)
    requires d in y.details
  {
    d in x.details && x.details[d].loanId == y.details[d].loanId
  }

  /** A detail appears, or changes hands, only when its loan is approved. */
  lemma NewDetailIsApproved(x: Db, job: Job, y: Db, d: DetailId)
    requires Effect(x, job, y) && d in y.details && !DetailIsOld(x, job, y, d)
    ensures y.details[d].loanId in y.loans && y.loans[y.details[d].loanId].state >= APPROVED
  {
    hide ApprovalFigures, LastFigures, Listed;
    if job.Update? {
      assert Sequential(x, job, y);
      var first := FirstDetail(x.details, job.id);
      assert first.Some? ==> IsDetailOf(x.details, first.value, job.id);
    }
  }

  lemma {:induction false} RunKeepsEarned(states: seq<System>, moves: seq<Move>, n: nat)
    requires Run(states, moves) && n < |states| && DetailsEarned(states[0].db)
    ensures DetailsEarned(states[n].db)
  {
    hide Next, Inv, DetailsEarned, Effect;
    if n > 0 {
      var x, m, y := states[n - 1], moves[n - 1], states[n - 1 + 1];
      RunKeepsEarned(states, moves, n - 1);
      RunKeepsInv(states, moves, n - 1);
      InvGivesLoansOk(x);
      assert Next(x, m.sid, m.action, y);
      StepHasEffect(x, m.sid, m.action, y);
      if y.db != x.db { EffectKeepsEarned(x.db, x.sessions[m.sid].job, y.db); }
    }
  }

  lemma WaitingHasNone(db: Db, id: LoanId)
    requires DetailsEarned(db) && id in db.loans && db.loans[id].state == WAITING_APPROVAL
    ensures FirstDetail(db.details, id).None?
  {
    assert forall d :: !IsDetailOf(db.details, d, id);
  }

  lemma TransitionFindsNothing(db: Db, s: Session)
    requires s.job.Update? && SessionOk(db, s) && DetailsEarned(db)
    ensures WantedDetail(db, s).None?
  {
    hide ApprovalFigures, WrittenLoans, WritesDetail, FirstDetail, DetailsEarned;
    if s.pc.LookedUp? { WaitingHasNone(db, s.job.id); }
  }

  lemma TransitionHoldsNothing(db: Db, s: Session, d: DetailId)
    requires s.job.Update? && SessionOk(db, s) && DetailsEarned(db) && d in db.details
    ensures d !in s.details
  {
    hide ApprovalFigures, WrittenLoans, FirstDetail, DetailsEarned;
    if s.pc.Ready? && s.job.target == APPROVED { WaitingHasNone(db, s.job.id); }
  }

  predicate Uploading(s: Session) {
    s.job.Bulk? && !s.pc.Finished?
  }

  predicate OneUpload(x: System) {
    forall s, t :: s in x.sessions && t in x.sessions && Uploading(x.sessions[s]) && Uploading(x.sessions[t]) ==> s == t
  }

  /** With one upload at a time nobody ever waits for a detail row. */
  lemma NobodyWaitsForDetails(x: System, t: SessionId, s: SessionId)
    requires Inv(x) && DetailsEarned(x.db) && OneUpload(x) && t in x.sessions && s in x.sessions
    ensures !BlocksDetail(x, t, s)
  {
    assert SessionOk(x.db, x.sessions[s]) && SessionOk(x.db, x.sessions[t]);
    hide Inv, DetailsEarned, UpdateOk;
    if BlocksDetail(x, t, s) {
      var a, b := x.sessions[s], x.sessions[t];
      if a.job.Update? {
        TransitionFindsNothing(x.db, a);
      } else {
        var d, line := WantedDetail(x.db, a).value, a.job.file[a.pc.next];
        assert IsDetailOf(x.db.details, d, FileId(line.rawId));
        if b.job.Update? { TransitionHoldsNothing(x.db, b, d); }
      }
    }
  }

  // ---------------------------------------------------------------------
  // Both kinds of wait together
  // ---------------------------------------------------------------------

  ghost predicate Waits(x: System, s: SessionId, t: SessionId) {
    s in x.sessions && t in x.sessions && (Blocks(x, t, s) || BlocksDetail(x, t, s))
  }

  ghost predicate AnyWaitPath(x: System, path: seq<SessionId>) {
    forall i :: 0 <= i < |path| - 1 ==> Waits(x, path[i], path[i + 1])
  }

  /** Where the details at the start are all of loans that have left the waiting state, no session ever
      waits, through others and over loan and detail rows alike, for itself while one upload runs. */
  lemma NoWaitCycleWithOneUpload(states: seq<System>, moves: seq<Move>, n: nat, path: seq<SessionId>)
    requires Run(states, moves) && n < |states| && DetailsEarned(states[0].db) && OneUpload(states[n])
    requires |path| > 1 && AnyWaitPath(states[n], path)
    ensures path[0] != path[|path| - 1]
  {
    hide Run, Inv, Wanted, DetailsEarned, OneUpload, BlocksDetail;
    var x := states[n];
    RunKeepsInv(states, moves, n);
    RunKeepsEarned(states, moves, n);
    if path[0] == path[|path| - 1] {
      forall i | 0 <= i < |path|
        ensures path[i] in x.sessions && Wanted(x.db, x.sessions[path[i]]).Some?
      {
        WaitsForLoan(x, path, if i == |path| - 1 then 0 else i);
      }
      forall i | 0 <= i < |path| - 1
        ensures Blocks(x, path[i + 1], path[i])
      {
        WaitsForLoan(x, path, i);
      }
      NoWaitCycle(states, moves, n, path);
    }
  }

  lemma WaitsForLoan(x: System, path: seq<SessionId>, i: nat)
    requires Inv(x) && DetailsEarned(x.db) && OneUpload(x) && AnyWaitPath(x, path) && i < |path| - 1
    ensures path[i] in x.sessions && path[i + 1] in x.sessions && Blocks(x, path[i + 1], path[i])
    ensures Wanted(x.db, x.sessions[path[i]]).Some?
  {
    hide Inv, DetailsEarned, OneUpload, BlocksDetail, Wanted;
    assert Waits(x, path[i], path[i + 1]);
    NobodyWaitsForDetails(x, path[i + 1], path[i]);
  }

  /** With two, whose files list two loans in opposite orders, each can come to wait for the other. */
  lemma UploadsCanDeadlock(x: System, a: LoanId, b: LoanId, figures: Figures)
    returns (states: seq<System>, moves: seq<Move>)
    requires Initial(x) && a != b && a <= 2147483647 && b <= 2147483647
    requires FirstDetail(x.db.details, a).Some? && FirstDetail(x.db.details, b).Some?
    ensures |states| == |moves| + 1 && Run(states, moves) && states[0] == x
    ensures var y := states[|moves|];
            && 0 in y.sessions && y.sessions[0].job == Bulk([Line(a, figures), Line(b, figures)])
            && 1 in y.sessions && y.sessions[1].job == Bulk([Line(b, figures), Line(a, figures)])
            && BlocksDetail(y, 1, 0) && BlocksDetail(y, 0, 1)
  {
    hide Inv, DbOk, Steps, Next, FirstDetail, BlocksDetail;
    assert Inv(x) by { InitialIsInv(x); }
    NoSteps(x);
    var up, down := [Line(a, figures), Line(b, figures)], [Line(b, figures), Line(a, figures)];
    states, moves := Opens([x], [], 0, Bulk(up));
    states, moves := Opens(states, moves, 1, Bulk(down));
    var y := states[|moves|];
    var s, d := FirstLineApplies(y, 0, up);
    y := With(y, 0, s);
    states, moves := Extend(states, moves, 0, ApplyLine, y);
    var t, e := FirstLineApplies(y, 1, down);
    y := With(y, 1, t);
    states, moves := Extend(states, moves, 1, ApplyLine, y);
    SecondLineWaits(y, 0, 1, up, e);
    SecondLineWaits(y, 1, 0, down, d);
  }

  lemma FirstLineApplies(x: System, sid: SessionId, file: seq<Line>) returns (s: Session, d: DetailId)
    requires sid in x.sessions && x.sessions[sid] == Session(Bulk(file), Lines(0), map[], map[])
    requires |file| == 2 && file[0].Line? && Found(x.db, file[0]).Some?
    requires forall t :: t in x.sessions && t != sid ==> Found(x.db, file[0]).value !in x.sessions[t].details
    ensures d == Found(x.db, file[0]).value && d in s.details && s.job == Bulk(file) && s.pc == Lines(1)
    ensures s.loans == map[] && s.details.Keys == {d}
    ensures Next(x, sid, ApplyLine, With(x, sid, s))
  {
    hide FirstDetail;
    d := Found(x.db, file[0]).value;
    s := Session(Bulk(file), Lines(1), map[], map[d := Detail(FileId(file[0].rawId), file[0].figures)]);
  }

  lemma SecondLineWaits(y: System, s: SessionId, t: SessionId, file: seq<Line>, d: DetailId)
    requires s in y.sessions && t in y.sessions && s != t && |file| == 2 && file[1].Line? && Found(y.db, file[1]) == Some(d)
    requires y.sessions[s].job == Bulk(file) && y.sessions[s].pc == Lines(1) && d in y.sessions[t].details
    ensures BlocksDetail(y, t, s)
  {
    hide Found;
  }
}
