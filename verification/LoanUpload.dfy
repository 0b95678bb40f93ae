/** The monthly upload among concurrent sessions: which approved loans it closes, and when its commit is
    the upload run alone. */
module LoanUpload {
  import opened Options
  import opened LoanRules
  import opened LoanProtocol
  import opened LoanRuns
  import opened LoanRaces

  /** The loans an upload has still to look at. */
  function Rest(s: Session): seq<LoanId> {
    match s.pc
    case Closing(queue) => queue
    case ClosingGuarded(queue, _) => queue
    case _ => []
  }

  predicate Walking(s: Session) {
    s.job.Bulk? && (s.pc.Closing? || s.pc.ClosingGuarded?)
  }

  /** Every loan of the original queue is closed, still to come, or no longer approved. */
  ghost predicate Covered(db: Db, s: Session, queue: seq<LoanId>) {
    && Walking(s)
    && (forall k :: k in queue ==> k in db.loans && db.loans[k].state >= APPROVED
                                   && (k in s.loans || k in Rest(s) || db.loans[k].state > APPROVED))
    && (forall k :: k in Rest(s) || k in s.loans ==> k in queue)
  }

  lemma StartsCovered(x: System, sid: SessionId, queue: seq<LoanId>, y: System)
    requires Inv(x) && Next(x, sid, List(queue), y)
    ensures sid in x.sessions && x.sessions[sid].job.Bulk?
    ensures ToClose(x.db.loans, ListedLoans(x.db.loans, x.sessions[sid].job.file), queue)
    ensures sid in y.sessions && y.sessions[sid].job == x.sessions[sid].job
    ensures Covered(y.db, y.sessions[sid], queue)
  {}

  lemma OwnStepKeepsCovered(x: System, sid: SessionId, a: Action, y: System, queue: seq<LoanId>)
    requires Inv(x) && Next(x, sid, a, y) && sid in x.sessions && Covered(x.db, x.sessions[sid], queue)
    ensures sid in y.sessions && y.sessions[sid].job == x.sessions[sid].job
    ensures y.sessions[sid].pc.Finished? || Covered(y.db, y.sessions[sid], queue)
  {
    BulkSession(x, sid) by { assert x.sessions[sid].job.Bulk?; }
    hide Inv, QueueOk, Unlisted, FiguresOk, UpdateNext, RequestNext, RefinanceNext, BulkNext;
    WalkStepKeepsCovered(x, sid, x.sessions[sid].job.file, a, y, queue);
  }

  lemma WalkStepKeepsCovered(x: System, sid: SessionId, file: seq<Line>, a: Action, y: System, queue: seq<LoanId>)
    requires sid in x.sessions && BulkNext(x, sid, file, a, y) && Covered(x.db, x.sessions[sid], queue)
    requires x.sessions[sid].pc.ClosingGuarded? ==> x.sessions[sid].pc.seen.state == APPROVED
    ensures sid in y.sessions && y.sessions[sid].job == x.sessions[sid].job
    ensures y.sessions[sid].pc.Finished? || Covered(y.db, y.sessions[sid], queue)
  {
    hide ToClose, Found, ListedLoans, LoanFree;
    var s := x.sessions[sid];
    if a.ReadHead? || a.CompareAndSetHead? {
      var head := s.pc.queue[0];
      assert forall k :: k in s.pc.queue ==> k == head || k in s.pc.queue[1..];
      assert head in queue;
    }
  }

  lemma OtherStepKeepsCovered(x: System, m: Move, y: System, sid: SessionId, queue: seq<LoanId>)
    requires Inv(x) && Next(x, m.sid, m.action, y) && m.sid != sid && sid in x.sessions
    requires Covered(x.db, x.sessions[sid], queue)
    ensures sid in y.sessions && y.sessions[sid] == x.sessions[sid] && Covered(y.db, y.sessions[sid], queue)
  {
    hide Next, Inv, Moved;
    OthersUnchanged(x, m.sid, m.action, y, sid);
    forall k | k in queue
      ensures k in y.db.loans && y.db.loans[k].state >= x.db.loans[k].state
    {
      StepMovesLoan(x, m.sid, m.action, y, k);
    }
  }

  lemma {:induction false} StaysCovered(states: seq<System>, moves: seq<Move>, i: nat, j: nat, sid: SessionId, queue: seq<LoanId>)
    requires Run(states, moves) && i < j < |states| && moves[i] == Move(sid, List(queue))
    ensures sid in states[i].sessions && states[i].sessions[sid].job.Bulk?
    ensures ToClose(states[i].db.loans, ListedLoans(states[i].db.loans, states[i].sessions[sid].job.file), queue)
    ensures sid in states[j].sessions && states[j].sessions[sid].job == states[i].sessions[sid].job
    ensures states[j].sessions[sid].pc.Finished? || Covered(states[j].db, states[j].sessions[sid], queue)
    decreases j
  {
    hide Next, Inv, Covered, ToClose;
    var x, m, y := states[j - 1], moves[j - 1], states[j - 1 + 1];
    assert Next(x, m.sid, m.action, y);
    RunKeepsInv(states, moves, j - 1);
    if i == j - 1 {
      StartsCovered(x, sid, queue, y);
    } else {
      StaysCovered(states, moves, i, j - 1, sid, queue);
      if m.sid != sid {
        OthersUnchanged(x, m.sid, m.action, y, sid);
        if !x.sessions[sid].pc.Finished? { OtherStepKeepsCovered(x, m, y, sid, queue); }
      } else {
        FinishedStays(x, sid, m.action, y);
        OwnStepKeepsCovered(x, sid, m.action, y, queue);
      }
    }
  }

  lemma FinishedStays(x: System, sid: SessionId, a: Action, y: System)
    requires Next(x, sid, a, y) && sid in x.sessions
    ensures !x.sessions[sid].pc.Finished?
  {}

  /** The loans a committing upload closes are exactly those that were approved and unlisted when it
      listed them and are still approved at its commit. A loan another session moved in between is
      skipped, and afterwards none of the listed-for-closing loans is still approved. */
  lemma UploadClosesWhatIsStillApproved(states: seq<System>, moves: seq<Move>, i: nat, j: nat, sid: SessionId,
                                        queue: seq<LoanId>)
    requires Run(states, moves) && i < j < |moves|
    requires moves[i] == Move(sid, List(queue)) && moves[j] == Move(sid, Commit)
    ensures sid in states[i].sessions && states[i].sessions[sid].job.Bulk?
    ensures ToClose(states[i].db.loans, ListedLoans(states[i].db.loans, states[i].sessions[sid].job.file), queue)
    ensures forall k :: k in queue ==> k in states[j].db.loans && k in states[j + 1].db.loans
                                       && states[j + 1].db.loans[k].state > APPROVED
    ensures sid in states[j].sessions
    ensures forall k :: k in states[j].sessions[sid].loans <==> k in queue && states[j].db.loans[k].state == APPROVED
    ensures forall k :: k in queue && states[j].db.loans[k].state == APPROVED ==>
              states[j + 1].db.loans[k] == states[j].db.loans[k].(state := PAID_OUT)
  {
    hide Next, Inv, ToClose;
    assert Next(states[j], sid, Commit, states[j + 1]);
    RunKeepsInv(states, moves, j);
    StaysCovered(states, moves, i, j, sid, queue);
    CommitClosesCovered(states[j], sid, states[j + 1], queue);
  }

  lemma CommitClosesCovered(x: System, sid: SessionId, y: System, queue: seq<LoanId>)
    requires Inv(x) && Next(x, sid, Commit, y) && sid in x.sessions && x.sessions[sid].job.Bulk?
    requires x.sessions[sid].pc.Finished? || Covered(x.db, x.sessions[sid], queue)
    ensures forall k :: k in queue ==> k in x.db.loans && k in y.db.loans && y.db.loans[k].state > APPROVED
    ensures forall k :: k in x.sessions[sid].loans <==> k in queue && x.db.loans[k].state == APPROVED
    ensures forall k :: k in queue && x.db.loans[k].state == APPROVED ==>
              y.db.loans[k] == x.db.loans[k].(state := PAID_OUT)
  {}

  // ---------------------------------------------------------------------
  // When the commit is the upload run alone
  // ---------------------------------------------------------------------

  /** Every loan the upload would close now was in the queue it listed. */
  predicate QueueCurrent(loans: map<LoanId, Loan>, file: seq<Line>, queue: seq<LoanId>) {
    forall k :: k in loans && loans[k].state == APPROVED && !Listed(file, k) ==> k in queue
  }

  /** Every detail whose line found nothing to update carries the file's figures anyway, or is of a loan
      the file does not list. */
  predicate FiguresCurrent(details: map<DetailId, Detail>, file: seq<Line>, written: map<DetailId, Detail>) {
    forall d :: d in details && d !in written ==> WithFigures(details, file)[d] == details[d]
  }

  lemma FiguresExactly(db: Db, file: seq<Line>, written: map<DetailId, Detail>)
    requires FiguresOk(db, file, file, written)
    ensures db.details + written == WithFigures(db.details, file) <==> FiguresCurrent(db.details, file, written)
  {
    var all := WithFigures(db.details, file);
    forall d | d in written
      ensures d in all && all[d] == written[d]
    {}
    assert (db.details + written).Keys == all.Keys;
    if db.details + written == all {
      assert forall d :: d in db.details && d !in written ==> (db.details + written)[d] == db.details[d];
    }
  }

  lemma {:induction false} Listing(loans: map<LoanId, Loan>, ids: set<LoanId>) returns (list: seq<LoanId>)
    requires ids <= loans.Keys
    ensures Descending(loans, list) && forall k :: k in list <==> k in ids
    decreases |ids|
  {
    if ids == {} {
      list := [];
    } else {
      var top := Top(loans, ids);
      var rest := Listing(loans, ids - {top});
      list := [top] + rest;
      assert forall i :: 0 <= i < |rest| ==> rest[i] in ids - {top};
    }
  }

  lemma {:induction false} Top(loans: map<LoanId, Loan>, ids: set<LoanId>) returns (top: LoanId)
    requires ids != {} && ids <= loans.Keys
    ensures top in ids && forall k :: k in ids && k != top ==> Above(top, loans[top], k, loans[k])
    decreases |ids|
  {
    top :| top in ids;
    var rest := ids - {top};
    if rest != {} {
      var other := Top(loans, rest);
      assert forall k :: k in ids ==> k == top || k in rest;
      if Above(other, loans[other], top, loans[top]) { top := other; }
    } else {
      assert forall k :: k in ids && k != top ==> k in rest;
    }
  }

  /** Closing `closing` leaves what the upload alone leaves exactly when those are all there is to close. */
  lemma ClosedExactly(loans: map<LoanId, Loan>, file: seq<Line>, queue: seq<LoanId>, closing: map<LoanId, Loan>)
    requires forall k :: k in closing <==> k in queue && k in loans && loans[k].state == APPROVED
    requires forall k :: k in closing ==> !Listed(file, k) && closing[k] == loans[k].(state := PAID_OUT)
    ensures (exists closed :: ToClose(loans, ListedLoans(loans, file), closed) && loans + closing == WithClosed(loans, closed))
            <==> QueueCurrent(loans, file, queue)
  {
    hide Listed;
    var closed := Listing(loans, set k | k in loans && loans[k].state == APPROVED && !Listed(file, k));
    assert ToClose(loans, ListedLoans(loans, file), closed) by { assert forall i :: 0 <= i < |closed| ==> closed[i] in closed; }
    if QueueCurrent(loans, file, queue) {
      assert loans + closing == WithClosed(loans, closed);
    }
    if other :| ToClose(loans, ListedLoans(loans, file), other) && loans + closing == WithClosed(loans, other) {
      forall k | k in loans && loans[k].state == APPROVED && !Listed(file, k)
        ensures k in queue
      {
        assert k in other && (loans + closing)[k].state == PAID_OUT;
      }
    }
  }

  /** An upload's commit is the upload run alone at that moment if and only if every loan approved and
      unlisted by then was in the queue it listed, and every detail whose line found nothing carries the
      file's figures anyway. */
  lemma UploadIsSequentialExactly(states: seq<System>, moves: seq<Move>, i: nat, j: nat, sid: SessionId, queue: seq<LoanId>)
    requires Run(states, moves) && i < j < |moves|
    requires moves[i] == Move(sid, List(queue)) && moves[j] == Move(sid, Commit)
    ensures sid in states[j].sessions && states[j].sessions[sid].job.Bulk?
    ensures var x, file := states[j], states[j].sessions[sid].job.file;
            UploadAlone(x.db, file, states[j + 1].db)
            <==> QueueCurrent(x.db.loans, file, queue) && FiguresCurrent(x.db.details, file, x.sessions[sid].details)
  {
    hide Next, Inv, ToClose, QueueCurrent, FiguresCurrent, WithFigures, WithClosed;
    assert Next(states[j], sid, Commit, states[j + 1]);
    RunKeepsInv(states, moves, j);
    StaysCovered(states, moves, i, j, sid, queue);
    UploadClosesWhatIsStillApproved(states, moves, i, j, sid, queue);
    CommitIsSequentialExactly(states[j], sid, states[j + 1], queue);
  }

  lemma CommitIsSequentialExactly(x: System, sid: SessionId, y: System, queue: seq<LoanId>)
    requires Inv(x) && Next(x, sid, Commit, y) && sid in x.sessions && x.sessions[sid].job.Bulk?
    requires forall k :: k in x.sessions[sid].loans <==> k in queue && k in x.db.loans && x.db.loans[k].state == APPROVED
    ensures UploadAlone(x.db, x.sessions[sid].job.file, y.db)
            <==> QueueCurrent(x.db.loans, x.sessions[sid].job.file, queue)
                 && FiguresCurrent(x.db.details, x.sessions[sid].job.file, x.sessions[sid].details)
  {
    BulkSession(x, sid);
    hide Inv, ToClose, QueueCurrent, FiguresCurrent, WithFigures, WithClosed, ListedLoans, Listed, FiguresOk, QueueOk, Unlisted;
    var s := x.sessions[sid];
    assert y.db == Db(x.db.loans + s.loans, x.db.details + s.details);
    FiguresExactly(x.db, s.job.file, s.details);
    ClosedExactly(x.db.loans, s.job.file, queue, s.loans);
  }

  // ---------------------------------------------------------------------
  // Which details a line finds
  // ---------------------------------------------------------------------

  predicate LastLineOf(file: seq<Line>, n: nat, id: LoanId) {
    n < |file| && Names(file[n], id) && forall m :: n < m < |file| ==> !Names(file[m], id)
  }

  /** The details of a loan the session has written are those that were there at table `old`. */
  ghost predicate WroteWhatWas(db: Db, s: Session, before: map<DetailId, Detail>, id: LoanId) {
    forall d :: IsDetailOf(db.details, d, id) ==> (d in s.details <==> d in before)
  }

  /** Details are never deleted or moved to another loan. */
  lemma StepKeepsDetails(x: System, sid: SessionId, a: Action, y: System)
    requires Inv(x) && Next(x, sid, a, y)
    ensures forall d :: d in x.db.details ==> d in y.db.details && y.db.details[d].loanId == x.db.details[d].loanId
  {
    hide Inv, Next, Effect;
    StepHasEffect(x, sid, a, y);
    if y.db != x.db { EffectKeepsDetails(x.db, x.sessions[sid].job, y.db); }
  }

  lemma EffectKeepsDetails(x: Db, job: Job, y: Db)
    requires Effect(x, job, y)
    ensures forall d :: d in x.details ==> d in y.details && y.details[d].loanId == x.details[d].loanId
  {
    hide ApprovalFigures, WrittenLoans, LastFigures, Listed, Legal;
    if job.Update? {
      var spare :| spare !in x.details && y == Transition(x, job.id, job.target, spare);
      if FirstDetail(x.details, job.id).Some? { assert IsDetailOf(x.details, FirstDetail(x.details, job.id).value, job.id); }
    }
  }

  lemma LineFinds(x: System, sid: SessionId, y: System, id: LoanId)
    requires Inv(x) && Next(x, sid, ApplyLine, y) && x.sessions[sid].job.Bulk?
    requires x.sessions[sid].pc.Lines? && LastLineOf(x.sessions[sid].job.file, x.sessions[sid].pc.next, id)
    ensures sid in y.sessions && y.sessions[sid].job == x.sessions[sid].job && y.db == x.db
    ensures y.sessions[sid].pc == Lines(x.sessions[sid].pc.next + 1)
    ensures WroteWhatWas(y.db, y.sessions[sid], x.db.details, id)
  {
    BulkSession(x, sid);
    assert DetailsOk(x.db);
    hide Inv, DetailFree, QueueOk, Unlisted, Listed;
    forall d | IsDetailOf(x.db.details, d, id)
      ensures d in y.sessions[sid].details
    {
      assert IsDetailOf(x.db.details, FirstDetail(x.db.details, id).value, id);
    }
  }

  /** Later lines are of other loans. */
  lemma OwnStepWritesOthers(x: System, sid: SessionId, a: Action, y: System, n: nat, id: LoanId, before: map<DetailId, Detail>)
    requires Inv(x) && Next(x, sid, a, y) && sid in x.sessions && x.sessions[sid].job.Bulk? && !a.Commit?
    requires LastLineOf(x.sessions[sid].job.file, n, id) && (x.sessions[sid].pc.Lines? ==> x.sessions[sid].pc.next > n)
    requires WroteWhatWas(x.db, x.sessions[sid], before, id)
    ensures sid in y.sessions && y.sessions[sid].job == x.sessions[sid].job
    ensures y.sessions[sid].pc.Finished?
            || ((y.sessions[sid].pc.Lines? ==> y.sessions[sid].pc.next > n) && WroteWhatWas(y.db, y.sessions[sid], before, id))
  {
    hide Inv, QueueOk, Unlisted, Listed, ToClose, LoanFree, DetailFree, Legal, ListedLoans;
    var s := x.sessions[sid];
    if a.ApplyLine? && Found(x.db, s.job.file[s.pc.next]).Some? {
      assert !Names(s.job.file[s.pc.next], id);
      assert IsDetailOf(x.db.details, Found(x.db, s.job.file[s.pc.next]).value, FileId(s.job.file[s.pc.next].rawId));
    }
  }

  lemma OtherStepFindsNothing(x: System, m: Move, y: System, sid: SessionId, id: LoanId, before: map<DetailId, Detail>)
    requires Inv(x) && Next(x, m.sid, m.action, y) && m.sid != sid && sid in x.sessions && x.sessions[sid].job.Bulk?
    requires WroteWhatWas(x.db, x.sessions[sid], before, id) && before.Keys <= x.db.details.Keys
    ensures sid in y.sessions && y.sessions[sid] == x.sessions[sid]
    ensures WroteWhatWas(y.db, y.sessions[sid], before, id)
  {
    BulkSession(x, sid);
    hide Inv, Next, QueueOk, Unlisted, Listed;
    OthersUnchanged(x, m.sid, m.action, y, sid);
    StepKeepsDetails(x, m.sid, m.action, y);
  }

  /** What an upload writes of a loan is decided when its last line is applied: a detail is written exactly
      if it existed then. One that another session commits later keeps that session's figures. */
  lemma {:induction false} LastLineDecides(states: seq<System>, moves: seq<Move>, m: nat, j: nat, sid: SessionId, id: LoanId)
    requires Run(states, moves) && m < j < |states| && moves[m] == Move(sid, ApplyLine) && sid in states[m].sessions
    requires states[m].sessions[sid].job.Bulk? && states[m].sessions[sid].pc.Lines?
    requires LastLineOf(states[m].sessions[sid].job.file, states[m].sessions[sid].pc.next, id)
    ensures states[m].db.details.Keys <= states[j].db.details.Keys
    ensures sid in states[j].sessions && states[j].sessions[sid].job == states[m].sessions[sid].job
    ensures states[j].sessions[sid].pc.Finished?
            || (&& (states[j].sessions[sid].pc.Lines? ==> states[j].sessions[sid].pc.next > states[m].sessions[sid].pc.next)
                && WroteWhatWas(states[j].db, states[j].sessions[sid], states[m].db.details, id))
    decreases j
  {
    hide Next, Inv, WroteWhatWas, LastLineOf;
    var x, mv, y := states[j - 1], moves[j - 1], states[j - 1 + 1];
    assert Next(x, mv.sid, mv.action, y);
    RunKeepsInv(states, moves, j - 1);
    StepKeepsDetails(x, mv.sid, mv.action, y);
    if j - 1 == m {
      LineFinds(x, sid, y, id);
    } else {
      LastLineDecides(states, moves, m, j - 1, sid, id);
      if mv.sid != sid {
        OthersUnchanged(x, mv.sid, mv.action, y, sid);
        if !x.sessions[sid].pc.Finished? { OtherStepFindsNothing(x, mv, y, sid, id, states[m].db.details); }
      } else {
        FinishedStays(x, sid, mv.action, y);
        if mv.action.Commit? { CommitFinishes(x, sid, y); } else {
          OwnStepWritesOthers(x, sid, mv.action, y, states[m].sessions[sid].pc.next, id, states[m].db.details);
        }
      }
    }
  }

  lemma CommitFinishes(x: System, sid: SessionId, y: System)
    requires Next(x, sid, Commit, y)
    ensures sid in x.sessions && sid in y.sessions && y.sessions[sid].job == x.sessions[sid].job && y.sessions[sid].pc.Finished?
  {}

  // ---------------------------------------------------------------------
  // Both conditions can fail
  // ---------------------------------------------------------------------

  ghost predicate NothingApproved(db: Db) {
    forall k :: k in db.loans ==> db.loans[k].state != APPROVED
  }

  /** An upload by session 1 that has applied its lines, none of which found a detail, and listed nothing to
      close; session 0 is about to approve loan `id`. */
  lemma UploadListsNothing(x: System, file: seq<Line>, id: LoanId) returns (states: seq<System>, moves: seq<Move>)
    requires Initial(x) && NothingApproved(x.db) && |file| <= 1
    requires file != [] ==> file[0].Line? && Found(x.db, file[0]).None?
    ensures |states| == |moves| + 1 && Steps(states, moves) && states[0] == x && Inv(states[|moves|])
    ensures states[|moves|] == x.(sessions := map[1 := Session(Bulk(file), Closing([]), map[], map[]),
                                                 0 := Session(Update(id, APPROVED), Start, map[], map[])])
    ensures Move(1, List([])) in moves
  {
    hide Inv, DbOk, Found, Steps, Next, NothingApproved;
    assert Inv(x) by { InitialIsInv(x); }
    NoSteps(x);
    states, moves := Opens([x], [], 1, Bulk(file));
    var s, y := Session(Bulk(file), Lines(0), map[], map[]), states[|moves|];
    if file != [] {
      LineFindsNothing(y, s, file);
      s := s.(pc := Lines(1));
      y := With(y, 1, s);
      states, moves := Extend(states, moves, 1, ApplyLine, y);
    }
    NothingToList(y, s, file);
    states, moves := Extend(states, moves, 1, List([]), With(y, 1, s.(pc := Closing([]))));
    assert moves[|moves| - 1] == Move(1, List([]));
    var before := moves;
    states, moves := Opens(states, moves, 0, Update(id, APPROVED));
    assert moves[|before| - 1] == Move(1, List([]));
  }

  lemma LineFindsNothing(x: System, s: Session, file: seq<Line>)
    requires 1 in x.sessions && x.sessions[1] == s && s.job == Bulk(file) && s.pc == Lines(0)
    requires file != [] && file[0].Line? && Found(x.db, file[0]).None?
    ensures Next(x, 1, ApplyLine, With(x, 1, s.(pc := Lines(1))))
  {}

  lemma NothingToList(x: System, s: Session, file: seq<Line>)
    requires 1 in x.sessions && x.sessions[1] == s && s.job == Bulk(file) && s.pc == Lines(|file|) && NothingApproved(x.db)
    ensures Next(x, 1, List([]), With(x, 1, s.(pc := Closing([]))))
  {}

  /** The approval commits, then the upload does, changing nothing. */
  lemma ApprovalThenUpload(x: System, file: seq<Line>, id: LoanId) returns (states: seq<System>, moves: seq<Move>)
    requires Initial(x) && NothingApproved(x.db) && |file| <= 1
    requires file != [] ==> file[0].Line? && Found(x.db, file[0]).None?
    requires id in x.db.loans && x.db.loans[id].state == WAITING_APPROVAL && ApprovalFigures(x.db.loans[id].terms).Some?
    ensures |states| == |moves| + 1 && Run(states, moves) && states[0] == x
    ensures |moves| > 0 && moves[|moves| - 1] == Move(1, Commit)
    ensures var y, z := states[|moves| - 1], states[|moves|];
            && 1 in y.sessions && y.sessions[1].job == Bulk(file) && z.db == y.db
            && Sequential(x.db, Update(id, APPROVED), y.db)
  {
    hide Inv, Steps, Sequential, ApprovalFigures, Next, DbOk, NothingApproved, Found, EndsAlone, Initial;
    states, moves := UploadListsNothing(x, file, id);
    var ready := states[|moves|];
    states, moves := UpdateAfter(states, moves, 0);
    var y := states[|moves|];
    ApprovalEnds(ready, id, file, y);
    EmptyCommit(y, 1, file);
    states, moves := Extend(states, moves, 1, Commit, y.(sessions := y.sessions[1 := Ended(y.sessions[1], Committed)]));
  }

  lemma ApprovalEnds(ready: System, id: LoanId, file: seq<Line>, y: System)
    requires ready.sessions == map[1 := Session(Bulk(file), Closing([]), map[], map[]),
                                   0 := Session(Update(id, APPROVED), Start, map[], map[])]
    requires id in ready.db.loans && ready.db.loans[id].state == WAITING_APPROVAL && EndsAlone(ready, 0, y)
    ensures 1 in y.sessions && y.sessions[1] == ready.sessions[1] && Sequential(ready.db, Update(id, APPROVED), y.db)
  {
    hide Sequential;
  }

  lemma EmptyCommit(y: System, sid: SessionId, file: seq<Line>)
    requires sid in y.sessions && y.sessions[sid] == Session(Bulk(file), Closing([]), map[], map[])
    ensures Next(y, sid, Commit, y.(sessions := y.sessions[sid := Ended(y.sessions[sid], Committed)]))
  {
    assert Db(y.db.loans + map[], y.db.details + map[]) == y.db;
  }

  /** A loan approved after the upload listed its queue survives the upload's commit, although the upload
      run alone at that moment would close it. */
  lemma UploadMissesApproval(x: System, id: LoanId) returns (states: seq<System>, moves: seq<Move>)
    requires Initial(x) && NothingApproved(x.db)
    requires id in x.db.loans && x.db.loans[id].state == WAITING_APPROVAL && ApprovalFigures(x.db.loans[id].terms).Some?
    ensures |states| == |moves| + 1 && Run(states, moves) && states[0] == x
    ensures |moves| > 0 && moves[|moves| - 1] == Move(1, Commit)
    ensures var y, z := states[|moves| - 1], states[|moves|];
            && 1 in y.sessions && y.sessions[1].job == Bulk([])
            && id in z.db.loans && z.db.loans[id].state == APPROVED && !UploadAlone(y.db, [], z.db)
  {
    hide Initial, Run, Sequential, ApprovalFigures;
    assert LoanOk(x.db.loans, id) by { assert Initial(x); InitialIsInv(x); InvGivesLoansOk(x); }
    states, moves := ApprovalThenUpload(x, [], id);
    EffectApproves(x.db, id, states[|moves|].db);
    ApprovedIsClosedAlone(states[|moves|].db, id);
  }

  lemma ApprovedIsClosedAlone(db: Db, id: LoanId)
    requires id in db.loans && db.loans[id].state == APPROVED
    ensures !UploadAlone(db, [], db)
  {
    forall closed | ToClose(db.loans, ListedLoans(db.loans, []), closed)
      ensures WithClosed(db.loans, closed) != db.loans
    {
      assert id in closed && WithClosed(db.loans, closed)[id].state == PAID_OUT;
    }
  }

  /** A detail created after its line was applied keeps the approval's figures, although the upload run
      alone at that moment would write the file's. */
  lemma UploadMissesFigures(x: System, id: LoanId, figures: Figures) returns (states: seq<System>, moves: seq<Move>)
    requires Initial(x) && NothingApproved(x.db) && id <= 2147483647 && FirstDetail(x.db.details, id).None?
    requires id in x.db.loans && x.db.loans[id].state == WAITING_APPROVAL
    requires ApprovalFigures(x.db.loans[id].terms).Some? && ApprovalFigures(x.db.loans[id].terms).value != figures
    ensures |states| == |moves| + 1 && Run(states, moves) && states[0] == x
    ensures |moves| > 0 && moves[|moves| - 1] == Move(1, Commit)
    ensures var y, z := states[|moves| - 1], states[|moves|];
            && 1 in y.sessions && y.sessions[1].job == Bulk([Line(id, figures)])
            && (exists d :: IsDetailOf(z.db.details, d, id) && z.db.details[d].figures != figures)
            && !UploadAlone(y.db, [Line(id, figures)], z.db)
  {
    hide Initial, Run, Sequential, ApprovalFigures;
    states, moves := ApprovalThenUpload(x, [Line(id, figures)], id);
    FiguresOfApproval(x.db, id, states[|moves|].db, figures);
  }

  lemma FiguresOfApproval(x: Db, id: LoanId, y: Db, figures: Figures)
    requires Sequential(x, Update(id, APPROVED), y) && FirstDetail(x.details, id).None?
    requires ApprovalFigures(x.loans[id].terms).Some? && ApprovalFigures(x.loans[id].terms).value != figures
    requires id <= 2147483647
    ensures exists d :: IsDetailOf(y.details, d, id) && y.details[d].figures != figures
    ensures !UploadAlone(y, [Line(id, figures)], y)
  {
    hide ApprovalFigures, WrittenLoans, ToClose, WithClosed, ListedLoans;
    var spare :| spare !in x.details && y == Transition(x, id, APPROVED, spare);
    assert IsDetailOf(y.details, spare, id);
    var file := [Line(id, figures)];
    assert Names(file[0], id) && LastFigures(file, id) == Some(figures);
    assert WithFigures(y.details, file)[spare].figures == figures;
  }
}
