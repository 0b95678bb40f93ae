/** Any number of loan requests at once (`src/loans/loan.service.ts`), interleaved statement by
    statement under READ COMMITTED with row locks.

    A session reads committed rows, keeps the row versions it has written to itself until it
    commits, and holds the lock of every row it has written. An update of a locked row waits: its
    step is not enabled. When the lock is gone, the predicate of a compare-and-set is evaluated on
    the row as committed then. */
module LoanProtocol {
  import opened Options
  import opened LoanRules

  type SessionId = nat

  datatype Job =
    | Update(id: LoanId, target: int)
    | Bulk(file: seq<Line>)
    | Request(owner: nat, terms: Terms)
    | Refinance(parent: LoanId, actor: nat, renewal: Renewal)

  datatype Result = Missing | Refused | LostRace | Committed | RolledBack

  /** How far a session has got. `seen` is the row as it was first read. */
  datatype Pc =
    | Start
    | Guarded(seen: Loan)
    | Holding(seen: Loan)
    | PaidOff(seen: Loan)
    | LookedUp(seen: Loan, found: Option<DetailId>)
    | Ready(seen: Loan)
    | Lines(next: nat)
    | Closing(queue: seq<LoanId>)
    | ClosingGuarded(queue: seq<LoanId>, seen: Loan)
    | ParentRead(seen: Loan)
    | Projected(seen: Loan, value: int)
    | ChildCreated(child: LoanId)
    | Finished(result: Result)

  /** A session: its request, its place in it, and the row versions it has written. */
  datatype Session = Session(job: Job, pc: Pc, loans: map<LoanId, Loan>, details: map<DetailId, Detail>)

  datatype System = System(db: Db, nextLoan: LoanId, nextDetail: DetailId, sessions: map<SessionId, Session>)

  datatype Action =
    | Begin(job: Job)
    | ReadAndGuard
    | CompareAndSet
    | WritePrevious
    | LookUpDetail
    | WriteDetail
    | ApplyLine
    | List(queue: seq<LoanId>)
    | ReadHead
    | CompareAndSetHead
    | Insert(createdAt: int)
    | ReadParent
    | Project
    | InsertChild(createdAt: int)
    | LinkParent
    | Commit
    | Abort

  // ---------------------------------------------------------------------
  // The steps
  // ---------------------------------------------------------------------

  predicate LoanFree(x: System, sid: SessionId, id: LoanId) {
    forall t :: t in x.sessions && t != sid ==> id !in x.sessions[t].loans
  }

  predicate DetailFree(x: System, sid: SessionId, d: DetailId) {
    forall t :: t in x.sessions && t != sid ==> d !in x.sessions[t].details
  }

  /** Only session `sid` moves: it becomes `s`, the committed tables stay. */
  predicate Moves(x: System, sid: SessionId, s: Session, y: System) {
    y == x.(sessions := x.sessions[sid := s])
  }

  ghost predicate Next(x: System, sid: SessionId, a: Action, y: System) {
    if a.Begin? then
      sid !in x.sessions && Moves(x, sid, Session(a.job, if a.job.Bulk? then Lines(0) else Start, map[], map[]), y)
    else
      sid in x.sessions && !x.sessions[sid].pc.Finished? &&
      match x.sessions[sid].job
      case Update(id, target) => UpdateNext(x, sid, id, target, a, y)
      case Bulk(file) => BulkNext(x, sid, file, a, y)
      case Request(owner, terms) => RequestNext(x, sid, owner, terms, a, y)
      case Refinance(parent, actor, renewal) => RefinanceNext(x, sid, parent, actor, renewal, a, y)
  }

  function Ended(s: Session, r: Result): Session {
    s.(pc := Finished(r), loans := map[], details := map[])
  }

  predicate Commits(x: System, sid: SessionId, y: System)
    requires sid in x.sessions
  {
    var s := x.sessions[sid];
    y == x.(db := Db(x.db.loans + s.loans, x.db.details + s.details),
            sessions := x.sessions[sid := Ended(s, Committed)])
  }

  /** `updateLoanIn`, one statement a step. */
  ghost predicate UpdateNext(x: System, sid: SessionId, id: LoanId, target: int, a: Action, y: System)
    requires sid in x.sessions
  {
    var s, db := x.sessions[sid], x.db;
    match a
    case ReadAndGuard =>
      s.pc.Start? &&
      Moves(x, sid,
            if id !in db.loans then Ended(s, Missing)
            else if !Legal(db.loans[id].state, target) then Ended(s, Refused)
            else s.(pc := Guarded(db.loans[id])), y)
    case CompareAndSet =>
      s.pc.Guarded? && id in db.loans &&
      if db.loans[id].state != s.pc.seen.state then Moves(x, sid, Ended(s, LostRace), y)
      else LoanFree(x, sid, id)
           && Moves(x, sid, s.(pc := Holding(s.pc.seen), loans := s.loans[id := db.loans[id].(state := target)]), y)
    case WritePrevious =>
      s.pc.Holding? &&
      (target == APPROVED ==> ApprovalFigures(s.pc.seen.terms).Some?) &&
      var next := if target == APPROVED then PaidOff(s.pc.seen) else Ready(s.pc.seen);
      (match s.pc.seen.prev
       case None => Moves(x, sid, s.(pc := next), y)
       case Some(p) =>
         if target == PAID_OUT then Moves(x, sid, s.(pc := next), y)
         else && p in db.loans && LoanFree(x, sid, p)
              && Moves(x, sid, s.(pc := next, loans := s.loans[p :=
                   if target == APPROVED then db.loans[p].(state := PAID_OUT) else db.loans[p].(refinanced := None)]), y))
    case LookUpDetail =>
      s.pc.PaidOff? && Moves(x, sid, s.(pc := LookedUp(s.pc.seen, FirstDetail(db.details, id))), y)
    case WriteDetail =>
      s.pc.LookedUp? && ApprovalFigures(s.pc.seen.terms).Some? &&
      var row := Detail(id, ApprovalFigures(s.pc.seen.terms).value);
      (match s.pc.found
       case Some(d) =>
         DetailFree(x, sid, d) && Moves(x, sid, s.(pc := Ready(s.pc.seen), details := s.details[d := row]), y)
       case None =>
         var d := x.nextDetail;
         y == x.(nextDetail := d + 1,
                 sessions := x.sessions[sid := s.(pc := Ready(s.pc.seen), details := s.details[d := row])]))
    case Commit => s.pc.Ready? && Commits(x, sid, y)
    case Abort => Moves(x, sid, Ended(s, RolledBack), y)
    case _ => false
  }

  /** `bulkUpdateLoans`: the lines in order, then one guarded compare-and-set for each loan to close. A
      malformed line leaves only the rollback. A conflict skips the loan; it does not abort the upload. */
  ghost predicate BulkNext(x: System, sid: SessionId, file: seq<Line>, a: Action, y: System)
    requires sid in x.sessions
  {
    var s, db := x.sessions[sid], x.db;
    match a
    case ApplyLine =>
      s.pc.Lines? && s.pc.next < |file| && file[s.pc.next].Line? &&
      (match Found(db, file[s.pc.next])
       case None => Moves(x, sid, s.(pc := Lines(s.pc.next + 1)), y)
       case Some(d) =>
         DetailFree(x, sid, d)
         && Moves(x, sid, s.(pc := Lines(s.pc.next + 1),
                             details := s.details[d := Detail(FileId(file[s.pc.next].rawId), file[s.pc.next].figures)]), y))
    case List(queue) =>
      s.pc.Lines? && s.pc.next == |file| && ToClose(db.loans, ListedLoans(db.loans, file), queue)
      && Moves(x, sid, s.(pc := Closing(queue)), y)
    case ReadHead =>
      s.pc.Closing? && s.pc.queue != [] && s.pc.queue[0] in db.loans &&
      var head := s.pc.queue[0];
      Moves(x, sid,
            if !Legal(db.loans[head].state, PAID_OUT) then s.(pc := Closing(s.pc.queue[1..]))
            else s.(pc := ClosingGuarded(s.pc.queue, db.loans[head])), y)
    case CompareAndSetHead =>
      s.pc.ClosingGuarded? && s.pc.queue != [] && s.pc.queue[0] in db.loans &&
      var head := s.pc.queue[0];
      if db.loans[head].state != s.pc.seen.state then Moves(x, sid, s.(pc := Closing(s.pc.queue[1..])), y)
      else LoanFree(x, sid, head)
           && Moves(x, sid, s.(pc := Closing(s.pc.queue[1..]),
                               loans := s.loans[head := db.loans[head].(state := PAID_OUT)]), y)
    case Commit => s.pc.Closing? && s.pc.queue == [] && Commits(x, sid, y)
    case Abort => Moves(x, sid, Ended(s, RolledBack), y)
    case _ => false
  }

  /** The detail a line updates: its loan's first, if the loan has one. */
  ghost function Found(db: Db, line: Line): Option<DetailId>
    requires line.Line?
  {
    if FileId(line.rawId) < 0 then None else FirstDetail(db.details, FileId(line.rawId))
  }

  /** `createLoan`: one autocommitted insert. */
  predicate RequestNext(x: System, sid: SessionId, owner: nat, terms: Terms, a: Action, y: System)
    requires sid in x.sessions
  {
    var s := x.sessions[sid];
    match a
    case Insert(createdAt) =>
      s.pc.Start? &&
      y == x.(db := x.db.(loans := x.db.loans[x.nextLoan := NewLoan(owner, createdAt, None, terms)]),
              nextLoan := x.nextLoan + 1,
              sessions := x.sessions[sid := Ended(s, Committed)])
    case Abort => Moves(x, sid, Ended(s, RolledBack), y)
    case _ => false
  }

  /** `refinanceLoan`: no transaction. A read of the loan, a read of its balance, an autocommitted insert
      of the child, and an autocommitted link of the parent that waits for the parent's row. A child is
      stamped no earlier than the parent it was read after. */
  ghost predicate RefinanceNext(x: System, sid: SessionId, parent: LoanId, actor: nat, renewal: Renewal, a: Action, y: System)
    requires sid in x.sessions
  {
    var s, db := x.sessions[sid], x.db;
    match a
    case ReadParent =>
      s.pc.Start? &&
      Moves(x, sid,
            if parent !in db.loans || db.loans[parent].state != APPROVED || db.loans[parent].owner != actor
            then Ended(s, Refused) else s.(pc := ParentRead(db.loans[parent])), y)
    case Project =>
      s.pc.ParentRead? && parent in db.loans &&
      Moves(x, sid,
            if FirstDetail(db.details, parent).None? then Ended(s, Missing)
            else s.(pc := Projected(s.pc.seen,
                      RefinanceValue(db.loans, db.details, parent, renewal.toDate, renewal.includeInterests))), y)
    case InsertChild(createdAt) =>
      s.pc.Projected? && createdAt >= s.pc.seen.createdAt &&
      (match RenewedTerms(s.pc.value, renewal)
       case None => Moves(x, sid, Ended(s, Refused), y)
       case Some(terms) =>
         y == x.(db := db.(loans := db.loans[x.nextLoan := NewLoan(actor, createdAt, Some(parent), terms)]),
                 nextLoan := x.nextLoan + 1,
                 sessions := x.sessions[sid := s.(pc := ChildCreated(x.nextLoan))]))
    case LinkParent =>
      s.pc.ChildCreated? && parent in db.loans && LoanFree(x, sid, parent) &&
      y == x.(db := db.(loans := db.loans[parent := db.loans[parent].(refinanced := Some(s.pc.child))]),
              sessions := x.sessions[sid := Ended(s, Committed)])
    case Abort => Moves(x, sid, Ended(s, RolledBack), y)
    case _ => false
  }

  // ---------------------------------------------------------------------
  // The inductive invariant
  // ---------------------------------------------------------------------

  /** What a session knows and holds, against the committed tables. */
  ghost predicate SessionOk(db: Db, s: Session) {
    match s.job
    case Update(id, target) => UpdateOk(db, id, target, s)
    case Bulk(file) => BulkOk(db, file, s)
    case Request(_, _) => s.loans == map[] && s.details == map[] && (s.pc.Start? || s.pc.Finished?)
    case Refinance(parent, actor, _) => s.loans == map[] && s.details == map[] && RefinanceOk(db, parent, actor, s.pc)
  }

  /** From the compare-and-set to the commit, the session's own row and everything it has written are
      what the transition computes from the tables as committed now. */
  ghost predicate UpdateOk(db: Db, id: LoanId, target: int, s: Session) {
    match s.pc
    case Start => s.loans == map[] && s.details == map[]
    case Finished(_) => s.loans == map[] && s.details == map[]
    case Guarded(seen) =>
      s.loans == map[] && s.details == map[]
      && id in db.loans && RowEvolves(seen, db.loans[id]) && Legal(seen.state, target)
    case Holding(seen) =>
      s.details == map[] && Held(db, id, target, seen) && s.loans == map[id := db.loans[id].(state := target)]
    case PaidOff(seen) => s.details == map[] && PaidOffOk(db, id, target, seen, s.loans)
    case LookedUp(seen, found) =>
      s.details == map[] && PaidOffOk(db, id, target, seen, s.loans) && found == FirstDetail(db.details, id)
    case Ready(seen) => ReadyOk(db, id, target, seen, s)
    case _ => false
  }

  ghost predicate Held(db: Db, id: LoanId, target: int, seen: Loan) {
    && id in db.loans && RowEvolves(seen, db.loans[id]) && seen.state == db.loans[id].state
    && Legal(seen.state, target)
    && (seen.prev.Some? ==> seen.prev.value in db.loans)
  }

  ghost predicate PaidOffOk(db: Db, id: LoanId, target: int, seen: Loan, written: map<LoanId, Loan>) {
    && Held(db, id, target, seen) && target == APPROVED && ApprovalFigures(seen.terms).Some?
    && written == WrittenLoans(db.loans, id, target)
  }

  ghost predicate ReadyOk(db: Db, id: LoanId, target: int, seen: Loan, s: Session) {
    && Held(db, id, target, seen)
    && (target == APPROVED ==> ApprovalFigures(seen.terms).Some?)
    && s.loans == WrittenLoans(db.loans, id, target)
    && exists spare :: WritesDetail(db, id, target, s.details, spare)
  }

  ghost predicate WritesDetail(db: Db, id: LoanId, target: int, written: map<DetailId, Detail>, spare: DetailId)
    requires id in db.loans
  {
    spare !in db.details && written == WrittenDetails(db, id, target, spare)
  }

  ghost predicate BulkOk(db: Db, file: seq<Line>, s: Session) {
    && FiguresOk(db, file, LinesDone(file, s.pc), s.details)
    && (forall k :: k in s.loans ==> k in db.loans && db.loans[k].state == APPROVED && !Listed(file, k)
                                     && s.loans[k] == db.loans[k].(state := PAID_OUT))
    && match s.pc
       case Lines(next) => s.loans == map[] && next <= |file|
       case Closing(queue) => QueueOk(db, queue, s.loans.Keys) && Unlisted(queue, file)
       case ClosingGuarded(queue, seen) =>
         queue != [] && QueueOk(db, queue, s.loans.Keys) && Unlisted(queue, file)
         && RowEvolves(seen, db.loans[queue[0]]) && seen.state == APPROVED
       case Finished(_) => s.loans == map[] && s.details == map[]
       case _ => false
  }

  /** The lines an upload has applied so far. */
  function LinesDone(file: seq<Line>, pc: Pc): seq<Line> {
    if pc.Lines? && pc.next <= |file| then file[..pc.next] else file
  }

  /** Every detail written carries the figures of the last line applied to its loan. */
  ghost predicate FiguresOk(db: Db, file: seq<Line>, applied: seq<Line>, written: map<DetailId, Detail>) {
    forall d :: d in written ==>
      d in db.details && written[d].loanId == db.details[d].loanId
      && LastFigures(applied, written[d].loanId) == Some(written[d].figures)
  }

  ghost predicate Unlisted(queue: seq<LoanId>, file: seq<Line>) {
    forall i :: 0 <= i < |queue| ==> !Listed(file, queue[i])
  }

  /** The rest of the queue comes after everything closed so far in listing order. */
  ghost predicate QueueOk(db: Db, queue: seq<LoanId>, closed: set<LoanId>) {
    && Descending(db.loans, queue)
    && closed <= db.loans.Keys
    && (forall k, i {:trigger k in closed, queue[i]} :: k in closed && 0 <= i < |queue| ==>
          Above(k, db.loans[k], queue[i], db.loans[queue[i]]))
  }

  ghost predicate RefinanceOk(db: Db, parent: LoanId, actor: nat, pc: Pc) {
    match pc
    case Start => true
    case Finished(_) => true
    case ParentRead(seen) =>
      parent in db.loans && RowEvolves(seen, db.loans[parent]) && seen.state == APPROVED && seen.owner == actor
    case Projected(seen, _) =>
      parent in db.loans && RowEvolves(seen, db.loans[parent]) && seen.state == APPROVED && seen.owner == actor
    case ChildCreated(child) => parent in db.loans && child in db.loans && db.loans[child].prev == Some(parent)
    case _ => false
  }

  ghost predicate Disjoint(s: Session, t: Session) {
    s.loans.Keys !! t.loans.Keys && s.details.Keys !! t.details.Keys
  }

  ghost predicate Inv(x: System) {
    && DbOk(x.db)
    && (forall id :: id in x.db.loans ==> id < x.nextLoan)
    && (forall d :: d in x.db.details ==> d < x.nextDetail)
    && (forall t, d :: t in x.sessions && d in x.sessions[t].details ==> d < x.nextDetail)
    && (forall t :: t in x.sessions ==> SessionOk(x.db, x.sessions[t]))
    && (forall t, u :: t in x.sessions && u in x.sessions && t != u ==> Disjoint(x.sessions[t], x.sessions[u]))
  }

  // ---------------------------------------------------------------------
  // What a change of the committed tables leaves alone
  // ---------------------------------------------------------------------

  /** The tables change, but not the rows of a session holding `loans` and `details`, and no detail
      appears for a loan that session holds. */
  ghost predicate DbEvolves(x: Db, y: Db, loans: set<LoanId>, details: set<DetailId>) {
    && LoansEvolve(x.loans, y.loans)
    && (forall k :: k in loans && k in x.loans ==> y.loans[k] == x.loans[k])
    && x.details.Keys <= y.details.Keys
    && (forall d :: d in x.details ==> y.details[d].loanId == x.details[d].loanId)
    && (forall d :: d in y.details && d !in x.details ==> d !in details && y.details[d].loanId !in loans)
  }

  lemma SameFirstDetail(x: Db, y: Db, loans: set<LoanId>, details: set<DetailId>, id: LoanId)
    requires DbEvolves(x, y, loans, details) && id in loans
    ensures FirstDetail(y.details, id) == FirstDetail(x.details, id)
  {
    assert forall d :: IsDetailOf(y.details, d, id) <==> IsDetailOf(x.details, d, id);
  }

  /** A session's knowledge survives every change that respects its locks. */
  lemma SessionStable(x: Db, y: Db, s: Session)
    requires DbOk(x) && SessionOk(x, s) && DbEvolves(x, y, s.loans.Keys, s.details.Keys)
    ensures SessionOk(y, s)
  {
    match s.job {
      case Update(id, target) => UpdateStable(x, y, id, target, s);
      case Bulk(file) => BulkStable(x, y, file, s);
      case _ =>
    }
  }

  lemma UpdateStable(x: Db, y: Db, id: LoanId, target: int, s: Session)
    requires DbOk(x) && UpdateOk(x, id, target, s) && DbEvolves(x, y, s.loans.Keys, s.details.Keys)
    ensures UpdateOk(y, id, target, s)
  {
    hide ApprovalFigures;
    match s.pc {
      case LookedUp(seen, found) => SameFirstDetail(x, y, s.loans.Keys, s.details.Keys, id);
      case Ready(seen) => ReadyStable(x, y, id, target, seen, s);
      case _ =>
    }
  }

  lemma ReadyStable(x: Db, y: Db, id: LoanId, target: int, seen: Loan, s: Session)
    requires ReadyOk(x, id, target, seen, s) && DbEvolves(x, y, s.loans.Keys, s.details.Keys)
    ensures ReadyOk(y, id, target, seen, s)
  {
    hide ApprovalFigures;
    assert id in s.loans;
    SameFirstDetail(x, y, s.loans.Keys, s.details.Keys, id);
    var spare :| WritesDetail(x, id, target, s.details, spare);
    if target == APPROVED && FirstDetail(x.details, id).None? {
      assert spare in s.details;
      assert WritesDetail(y, id, target, s.details, spare);
    } else {
      var other := Unused(y.details.Keys);
      assert WritesDetail(y, id, target, s.details, other);
    }
  }

  lemma {:induction false} Unused(s: set<nat>) returns (n: nat)
    ensures n !in s && forall e :: e in s ==> e < n
  {
    if s == {} {
      n := 0;
    } else {
      var x :| x in s;
      var m := Unused(s - {x});
      n := if m <= x then x + 1 else m;
      assert forall e :: e in s ==> e == x || e in s - {x};
    }
  }

  lemma BulkStable(x: Db, y: Db, file: seq<Line>, s: Session)
    requires BulkOk(x, file, s) && DbEvolves(x, y, s.loans.Keys, s.details.Keys)
    ensures BulkOk(y, file, s)
  {}

  // ---------------------------------------------------------------------
  // Every step keeps the invariant
  // ---------------------------------------------------------------------

  lemma LocalMove(x: System, sid: SessionId, s: Session, y: System)
    requires Inv(x) && Moves(x, sid, s, y) && SessionOk(x.db, s)
    requires forall t :: t in x.sessions && t != sid ==> Disjoint(s, x.sessions[t])
    requires forall d :: d in s.details ==> d < x.nextDetail
    ensures Inv(y)
  {}

  /** A move that drops or keeps what the session holds. */
  lemma MoveWithin(x: System, sid: SessionId, s: Session, y: System)
    requires Inv(x) && sid in x.sessions && Moves(x, sid, s, y) && SessionOk(x.db, s)
    requires s.loans.Keys <= x.sessions[sid].loans.Keys && s.details.Keys <= x.sessions[sid].details.Keys
    ensures Inv(y)
  {
    hide SessionOk, DbOk;
    forall t | t in x.sessions && t != sid
      ensures Disjoint(s, x.sessions[t])
    {
      assert Disjoint(x.sessions[sid], x.sessions[t]);
    }
    LocalMove(x, sid, s, y);
  }

  /** A move that takes the lock of one free loan row. */
  lemma MoveLocking(x: System, sid: SessionId, s: Session, id: LoanId, y: System)
    requires Inv(x) && sid in x.sessions && Moves(x, sid, s, y) && SessionOk(x.db, s) && LoanFree(x, sid, id)
    requires s.loans.Keys <= x.sessions[sid].loans.Keys + {id} && s.details.Keys <= x.sessions[sid].details.Keys
    ensures Inv(y)
  {
    hide SessionOk, DbOk;
    forall t | t in x.sessions && t != sid
      ensures Disjoint(s, x.sessions[t])
    {
      assert Disjoint(x.sessions[sid], x.sessions[t]);
    }
    LocalMove(x, sid, s, y);
  }

  /** A move that takes the lock of one free detail row. */
  lemma MoveLockingDetail(x: System, sid: SessionId, s: Session, d: DetailId, y: System)
    requires Inv(x) && sid in x.sessions && Moves(x, sid, s, y) && SessionOk(x.db, s) && DetailFree(x, sid, d)
    requires s.loans.Keys <= x.sessions[sid].loans.Keys && s.details.Keys <= x.sessions[sid].details.Keys + {d}
    requires d < x.nextDetail
    ensures Inv(y)
  {
    hide SessionOk, DbOk;
    forall t | t in x.sessions && t != sid
      ensures Disjoint(s, x.sessions[t])
    {
      assert Disjoint(x.sessions[sid], x.sessions[t]);
    }
    LocalMove(x, sid, s, y);
  }

  /** A step of `updateLoanIn` other than its commit. */
  lemma UpdateMoves(x: System, sid: SessionId, id: LoanId, target: int, a: Action, y: System)
    requires Inv(x) && sid in x.sessions && x.sessions[sid].job == Update(id, target)
    requires !x.sessions[sid].pc.Finished? && UpdateNext(x, sid, id, target, a, y) && !a.Commit?
    ensures Inv(y)
  {
    hide DbOk, ApprovalFigures;
    var s, db := x.sessions[sid], x.db;
    assert SessionOk(db, s);
    match a {
      case ReadAndGuard => MoveWithin(x, sid, y.sessions[sid], y);
      case CompareAndSet =>
        if db.loans[id].state != s.pc.seen.state {
          MoveWithin(x, sid, y.sessions[sid], y);
        } else {
          GuardedHolds(db, id, target, s.pc.seen);
          MoveLocking(x, sid, y.sessions[sid], id, y);
        }
      case WritePrevious => WritePreviousMoves(x, sid, id, target, y);
      case LookUpDetail => MoveWithin(x, sid, y.sessions[sid], y);
      case WriteDetail => WriteDetailMoves(x, sid, id, target, y);
      case Abort => MoveWithin(x, sid, y.sessions[sid], y);
    }
  }

  lemma GuardedHolds(db: Db, id: LoanId, target: int, seen: Loan)
    requires DbOk(db) && id in db.loans && RowEvolves(seen, db.loans[id]) && Legal(seen.state, target)
    requires db.loans[id].state == seen.state
    ensures Held(db, id, target, seen)
  {}

  lemma WritePreviousMoves(x: System, sid: SessionId, id: LoanId, target: int, y: System)
    requires Inv(x) && sid in x.sessions && x.sessions[sid].job == Update(id, target)
    requires UpdateNext(x, sid, id, target, WritePrevious, y)
    ensures Inv(y)
  {
    hide DbOk, ApprovalFigures;
    var s, db := x.sessions[sid], x.db;
    assert SessionOk(db, s);
    var seen, t := s.pc.seen, y.sessions[sid];
    assert t.loans == WrittenLoans(db.loans, id, target);
    if target != APPROVED {
      var spare := Unused(db.details.Keys);
      assert WritesDetail(db, id, target, t.details, spare);
    }
    assert SessionOk(db, t);
    if seen.prev.Some? && target != PAID_OUT {
      MoveLocking(x, sid, t, seen.prev.value, y);
    } else {
      MoveWithin(x, sid, t, y);
    }
  }

  lemma WriteDetailMoves(x: System, sid: SessionId, id: LoanId, target: int, y: System)
    requires Inv(x) && sid in x.sessions && x.sessions[sid].job == Update(id, target)
    requires UpdateNext(x, sid, id, target, WriteDetail, y)
    ensures Inv(y)
  {
    hide DbOk, ApprovalFigures;
    var s, db := x.sessions[sid], x.db;
    assert SessionOk(db, s);
    var t := y.sessions[sid];
    match s.pc.found {
      case Some(d) =>
        var spare := Unused(db.details.Keys);
        assert WritesDetail(db, id, target, t.details, spare);
        assert IsDetailOf(db.details, d, id);
        MoveLockingDetail(x, sid, t, d, y);
      case None =>
        var d := x.nextDetail;
        assert d !in db.details;
        assert WritesDetail(db, id, target, t.details, d);
        var raised := x.(nextDetail := d + 1);
        assert Inv(raised);
        assert DetailFree(raised, sid, d);
        MoveLockingDetail(raised, sid, t, d, y);
    }
  }

  lemma BulkSession(x: System, sid: SessionId)
    requires Inv(x) && sid in x.sessions && x.sessions[sid].job.Bulk?
    ensures BulkOk(x.db, x.sessions[sid].job.file, x.sessions[sid])
  {
    hide DbOk, BulkOk, Disjoint;
    assert SessionOk(x.db, x.sessions[sid]);
  }

  lemma BulkIsOk(db: Db, s: Session)
    requires s.job.Bulk? && BulkOk(db, s.job.file, s)
    ensures SessionOk(db, s)
  {}

  /** A step of `bulkUpdateLoans` other than its commit keeps what the upload knows. */
  lemma BulkStep(x: System, sid: SessionId, file: seq<Line>, a: Action, y: System)
    requires DetailsOk(x.db) && sid in x.sessions && x.sessions[sid].job == Bulk(file) && BulkOk(x.db, file, x.sessions[sid])
    requires !x.sessions[sid].pc.Finished? && BulkNext(x, sid, file, a, y) && !a.Commit?
    ensures y.sessions[sid].job == Bulk(file) && BulkOk(x.db, file, y.sessions[sid])
  {
    hide ToClose, QueueOk, DetailsOk, FiguresOk, Found, Unlisted, ListedLoans, Listed;
    var s, db := x.sessions[sid], x.db;
    match a {
      case ApplyLine => LineKeepsFigures(db, file, s.pc.next, s.details);
      case List(queue) =>
        QueueFromList(db, file, queue);
        assert s.loans.Keys == {} && file[..|file|] == file;
      case ReadHead => TailOk(db, file, s.pc.queue, s.loans.Keys);
      case CompareAndSetHead => HeadKeeps(x, sid, file, y);
      case Abort => NothingWritten(db, file);
    }
  }

  lemma HeadKeeps(x: System, sid: SessionId, file: seq<Line>, y: System)
    requires sid in x.sessions && x.sessions[sid].job == Bulk(file) && BulkOk(x.db, file, x.sessions[sid])
    requires BulkNext(x, sid, file, CompareAndSetHead, y)
    ensures y.sessions[sid].job == Bulk(file) && BulkOk(x.db, file, y.sessions[sid])
  {
    hide QueueOk, FiguresOk, Unlisted, Listed, LoanFree;
    var s, db := x.sessions[sid], x.db;
    TailOk(db, file, s.pc.queue, s.loans.Keys);
    var head := s.pc.queue[0];
    if db.loans[head].state == s.pc.seen.state {
      assert y.sessions[sid].loans == s.loans[head := db.loans[head].(state := PAID_OUT)];
      assert y.sessions[sid].loans.Keys == s.loans.Keys + {head};
    }
  }

  lemma NothingWritten(db: Db, file: seq<Line>)
    ensures FiguresOk(db, file, file, map[])
  {}

  /** One more line applied: its loan's only detail, if there is one, now carries that line's figures. */
  lemma LineKeepsFigures(db: Db, file: seq<Line>, next: nat, written: map<DetailId, Detail>)
    requires DetailsOk(db) && next < |file| && file[next].Line? && FiguresOk(db, file, file[..next], written)
    ensures Found(db, file[next]).None? ==> FiguresOk(db, file, file[..next + 1], written)
    ensures Found(db, file[next]).Some? ==>
              FiguresOk(db, file, file[..next + 1],
                        written[Found(db, file[next]).value := Detail(FileId(file[next].rawId), file[next].figures)])
  {
    var id := FileId(file[next].rawId);
    assert file[..next + 1][..next] == file[..next];
    forall d | d in written && written[d].loanId == id
      ensures Found(db, file[next]) == Some(d)
    {
      assert IsDetailOf(db.details, d, id);
      var first := FirstDetail(db.details, id).value;
      assert IsDetailOf(db.details, first, id);
    }
  }

  lemma QueueFromList(db: Db, file: seq<Line>, queue: seq<LoanId>)
    requires ToClose(db.loans, ListedLoans(db.loans, file), queue)
    ensures QueueOk(db, queue, {}) && Unlisted(queue, file)
  {}

  lemma TailOk(db: Db, file: seq<Line>, queue: seq<LoanId>, closed: set<LoanId>)
    requires queue != [] && QueueOk(db, queue, closed) && Unlisted(queue, file)
    ensures QueueOk(db, queue[1..], closed) && QueueOk(db, queue[1..], closed + {queue[0]}) && Unlisted(queue[1..], file)
    ensures !Listed(file, queue[0]) && queue[0] in db.loans
  {}

  lemma BulkMoves(x: System, sid: SessionId, file: seq<Line>, a: Action, y: System)
    requires Inv(x) && sid in x.sessions && x.sessions[sid].job == Bulk(file)
    requires !x.sessions[sid].pc.Finished? && BulkNext(x, sid, file, a, y) && !a.Commit?
    ensures Inv(y)
  {
    var t := y.sessions[sid];
    assert DetailsOk(x.db);
    BulkSession(x, sid);
    hide DbOk, DetailsOk, SessionOk, ToClose, Found, BulkOk, Inv, LoanFree, DetailFree, Legal, ListedLoans;
    BulkStep(x, sid, file, a, y);
    BulkIsOk(x.db, t);
    match a {
      case ApplyLine => LineMoves(x, sid, file, y);
      case CompareAndSetHead => HeadMoves(x, sid, file, y);
      case List(_) => MoveWithin(x, sid, t, y);
      case ReadHead => MoveWithin(x, sid, t, y);
      case Abort => MoveWithin(x, sid, t, y);
    }
  }

  lemma LineMoves(x: System, sid: SessionId, file: seq<Line>, y: System)
    requires Inv(x) && sid in x.sessions && BulkNext(x, sid, file, ApplyLine, y) && SessionOk(x.db, y.sessions[sid])
    ensures Inv(y)
  {
    hide DbOk, SessionOk, DetailFree, Disjoint;
    match Found(x.db, file[x.sessions[sid].pc.next]) {
      case None => MoveWithin(x, sid, y.sessions[sid], y);
      case Some(d) =>
        assert IsDetailOf(x.db.details, d, FileId(file[x.sessions[sid].pc.next].rawId));
        MoveLockingDetail(x, sid, y.sessions[sid], d, y);
    }
  }

  lemma HeadMoves(x: System, sid: SessionId, file: seq<Line>, y: System)
    requires Inv(x) && sid in x.sessions && BulkNext(x, sid, file, CompareAndSetHead, y) && SessionOk(x.db, y.sessions[sid])
    ensures Inv(y)
  {
    hide Inv, SessionOk, LoanFree;
    var head := x.sessions[sid].pc.queue[0];
    if x.db.loans[head].state != x.sessions[sid].pc.seen.state {
      MoveWithin(x, sid, y.sessions[sid], y);
    } else {
      MoveLocking(x, sid, y.sessions[sid], head, y);
    }
  }

  // ---------------------------------------------------------------------
  // Steps that change the committed tables
  // ---------------------------------------------------------------------

  /** What a session is about to commit only moves its own rows forward, and gives details only to
      loans it holds. */
  ghost predicate WritesSound(db: Db, s: Session) {
    && (forall k :: k in s.loans ==> k in db.loans && RowEvolves(db.loans[k], s.loans[k]))
    && (forall d :: d in s.details ==>
          if d in db.details then s.details[d].loanId == db.details[d].loanId else s.details[d].loanId in s.loans)
  }

  lemma ReadyIsTransition(db: Db, id: LoanId, target: int, seen: Loan, s: Session) returns (spare: DetailId)
    requires DbOk(db) && ReadyOk(db, id, target, seen, s)
    ensures spare !in db.details && Legal(db.loans[id].state, target)
    ensures Db(db.loans + s.loans, db.details + s.details) == Transition(db, id, target, spare)
    ensures target == APPROVED ==> ApprovalFigures(db.loans[id].terms).Some?
    ensures s.loans == WrittenLoans(db.loans, id, target) && s.details == WrittenDetails(db, id, target, spare)
  {
    hide ApprovalFigures, WrittenLoans, WrittenDetails;
    spare :| WritesDetail(db, id, target, s.details, spare);
    assert LoanOk(db.loans, id);
  }

  lemma TransitionIsSound(db: Db, id: LoanId, target: int, spare: DetailId, s: Session)
    requires DbOk(db) && id in db.loans && Legal(db.loans[id].state, target)
    requires db.loans[id].prev.Some? ==> db.loans[id].prev.value in db.loans
    requires spare !in db.details
    requires s.loans == WrittenLoans(db.loans, id, target) && s.details == WrittenDetails(db, id, target, spare)
    ensures WritesSound(db, s)
  {
    hide DetailsOk, WrittenDetails, WrittenLoans, Legal, LoansOk;
    WrittenRowsEvolve(db.loans, id, target);
    WrittenDetailIsOwn(db, id, target, spare);
  }

  lemma WrittenRowsEvolve(loans: map<LoanId, Loan>, id: LoanId, target: int)
    requires LoansOk(loans) && id in loans && Legal(loans[id].state, target)
    requires loans[id].prev.Some? ==> loans[id].prev.value in loans
    ensures id in WrittenLoans(loans, id, target)
    ensures var written := WrittenLoans(loans, id, target);
            forall k :: k in written ==> k in loans && RowEvolves(loans[k], written[k])
  {
    if loans[id].prev.Some? { assert LoanOk(loans, loans[id].prev.value); }
  }

  lemma WrittenDetailIsOwn(db: Db, id: LoanId, target: int, spare: DetailId)
    requires id in db.loans
    ensures var written := WrittenDetails(db, id, target, spare);
            forall d :: d in written ==> written[d].loanId == id && (d in db.details ==> d == spare || db.details[d].loanId == id)
  {
    hide ApprovalFigures;
    var first := FirstDetail(db.details, id);
    assert first.Some? ==> IsDetailOf(db.details, first.value, id);
  }

  lemma CommitEvolves(db: Db, s: Session, t: Session)
    requires WritesSound(db, s) && Disjoint(s, t)
    ensures DbEvolves(db, Db(db.loans + s.loans, db.details + s.details), t.loans.Keys, t.details.Keys)
  {}

  lemma BulkCommitKeepsDbOk(db: Db, s: Session)
    requires DbOk(db) && s.job.Bulk? && BulkOk(db, s.job.file, s)
    ensures WritesSound(db, s) && DbOk(Db(db.loans + s.loans, db.details + s.details))
  {
    var after := Db(db.loans + s.loans, db.details + s.details);
    forall k | k in after.loans
      ensures LoanOk(after.loans, k)
    {
      assert LoanOk(db.loans, k);
    }
    assert forall d, k :: IsDetailOf(after.details, d, k) <==> IsDetailOf(db.details, d, k);
    forall k | k in after.loans && after.loans[k].state == APPROVED
      ensures FirstDetail(after.details, k).Some?
    {
      assert db.loans[k].state == APPROVED;
      assert IsDetailOf(after.details, FirstDetail(db.details, k).value, k);
    }
  }

  lemma CommitSound(x: System, sid: SessionId)
    requires Inv(x) && sid in x.sessions && (x.sessions[sid].pc.Ready? || x.sessions[sid].pc.Closing?)
    ensures var s, db := x.sessions[sid], x.db;
            WritesSound(db, s) && DbOk(Db(db.loans + s.loans, db.details + s.details))
  {
    hide ApprovalFigures, DbOk;
    var s, db := x.sessions[sid], x.db;
    assert SessionOk(db, s);
    match s.job {
      case Update(id, target) =>
        var spare := ReadyIsTransition(db, id, target, s.pc.seen, s);
        TransitionIsSound(db, id, target, spare, s);
        TransitionKeepsDbOk(db, id, target, spare);
      case Bulk(_) => BulkCommitKeepsDbOk(db, s);
    }
  }

  lemma CommitMoves(x: System, sid: SessionId, y: System)
    requires Inv(x) && sid in x.sessions && (x.sessions[sid].pc.Ready? || x.sessions[sid].pc.Closing?)
    requires Commits(x, sid, y)
    ensures Inv(y)
  {
    hide DbOk, SessionOk, Disjoint;
    CommitSound(x, sid);
    CommitSessions(x, sid, y);
    forall t, u | t in y.sessions && u in y.sessions && t != u
      ensures Disjoint(y.sessions[t], y.sessions[u])
    {
      StillDisjoint(x.sessions[t], x.sessions[u], y.sessions[t], y.sessions[u]);
    }
    CommitKeepsNumbers(x, sid, y);
  }

  lemma StillDisjoint(s: Session, t: Session, s': Session, t': Session)
    requires Disjoint(s, t) && s'.loans.Keys <= s.loans.Keys && s'.details.Keys <= s.details.Keys
    requires t'.loans.Keys <= t.loans.Keys && t'.details.Keys <= t.details.Keys
    ensures Disjoint(s', t')
  {}

  lemma CommitKeepsNumbers(x: System, sid: SessionId, y: System)
    requires Inv(x) && sid in x.sessions && Commits(x, sid, y) && WritesSound(x.db, x.sessions[sid])
    ensures forall id :: id in y.db.loans ==> id < y.nextLoan
    ensures forall d :: d in y.db.details ==> d < y.nextDetail
    ensures forall t, d :: t in y.sessions && d in y.sessions[t].details ==> d < y.nextDetail
  {}

  lemma CommitSessions(x: System, sid: SessionId, y: System)
    requires Inv(x) && sid in x.sessions && Commits(x, sid, y) && WritesSound(x.db, x.sessions[sid])
    ensures forall t :: t in y.sessions ==> SessionOk(y.db, y.sessions[t])
  {
    hide DbOk, SessionOk, Disjoint, WritesSound, DbEvolves;
    var s := x.sessions[sid];
    EndedIsOk(y.db, s, Committed);
    forall t | t in y.sessions
      ensures SessionOk(y.db, y.sessions[t])
    {
      if t != sid {
        CommitEvolves(x.db, s, x.sessions[t]);
        SessionStable(x.db, y.db, x.sessions[t]);
      }
    }
  }

  lemma EndedIsOk(db: Db, s: Session, r: Result)
    ensures SessionOk(db, Ended(s, r))
  {}

  /** A new row that nobody holds, or an unlocked row's `refinanced` column: every other session's
      knowledge survives. */
  lemma AutocommitMoves(x: System, sid: SessionId, y: System)
    requires Inv(x) && sid in x.sessions && DbOk(y.db) && y.db.details == x.db.details
    requires x.sessions[sid].loans == map[] && x.sessions[sid].details == map[]
    requires y.nextDetail == x.nextDetail && forall id :: id in y.db.loans ==> id < y.nextLoan
    requires y.sessions.Keys == x.sessions.Keys && forall t :: t in x.sessions && t != sid ==> y.sessions[t] == x.sessions[t]
    requires y.sessions[sid].loans == map[] && y.sessions[sid].details == map[] && SessionOk(y.db, y.sessions[sid])
    requires LoansEvolve(x.db.loans, y.db.loans)
    requires forall t, k :: t in x.sessions && t != sid && k in x.sessions[t].loans && k in x.db.loans ==>
               y.db.loans[k] == x.db.loans[k]
    ensures Inv(y)
  {
    hide DbOk, SessionOk;
    forall t | t in y.sessions
      ensures SessionOk(y.db, y.sessions[t])
    {
      if t != sid { SessionStable(x.db, y.db, x.sessions[t]); }
    }
  }

  lemma RequestMoves(x: System, sid: SessionId, a: Action, y: System)
    requires Inv(x) && sid in x.sessions && x.sessions[sid].job.Request? && !x.sessions[sid].pc.Finished?
    requires RequestNext(x, sid, x.sessions[sid].job.owner, x.sessions[sid].job.terms, a, y)
    ensures Inv(y)
  {
    hide DbOk;
    assert SessionOk(x.db, x.sessions[sid]);
    match a {
      case Insert(createdAt) =>
        InsertKeepsDbOk(x.db, x.nextLoan, NewLoan(x.sessions[sid].job.owner, createdAt, None, x.sessions[sid].job.terms));
        AutocommitMoves(x, sid, y);
      case Abort => MoveWithin(x, sid, y.sessions[sid], y);
    }
  }

  lemma ChildMoves(x: System, sid: SessionId, a: Action, y: System)
    requires Inv(x) && sid in x.sessions && x.sessions[sid].job.Refinance? && a.InsertChild?
    requires RefinanceNext(x, sid, x.sessions[sid].job.parent, x.sessions[sid].job.actor, x.sessions[sid].job.renewal, a, y)
    ensures Inv(y)
  {
    hide DbOk;
    var s, job := x.sessions[sid], x.sessions[sid].job;
    assert SessionOk(x.db, s);
    match RenewedTerms(s.pc.value, job.renewal) {
      case None => MoveWithin(x, sid, y.sessions[sid], y);
      case Some(terms) =>
        InsertKeepsDbOk(x.db, x.nextLoan, NewLoan(job.actor, a.createdAt, Some(job.parent), terms));
        AutocommitMoves(x, sid, y);
    }
  }

  lemma LinkMoves(x: System, sid: SessionId, y: System)
    requires Inv(x) && sid in x.sessions && x.sessions[sid].job.Refinance?
    requires RefinanceNext(x, sid, x.sessions[sid].job.parent, x.sessions[sid].job.actor, x.sessions[sid].job.renewal,
                           LinkParent, y)
    ensures Inv(y)
  {
    hide DbOk;
    var s, job := x.sessions[sid], x.sessions[sid].job;
    assert SessionOk(x.db, s);
    LinkKeepsDbOk(x.db, job.parent, s.pc.child);
    AutocommitMoves(x, sid, y);
  }

  lemma RefinanceMoves(x: System, sid: SessionId, a: Action, y: System)
    requires Inv(x) && sid in x.sessions && x.sessions[sid].job.Refinance? && !x.sessions[sid].pc.Finished?
    requires RefinanceNext(x, sid, x.sessions[sid].job.parent, x.sessions[sid].job.actor, x.sessions[sid].job.renewal, a, y)
    ensures Inv(y)
  {
    hide DbOk;
    match a {
      case InsertChild(_) => ChildMoves(x, sid, a, y);
      case LinkParent => LinkMoves(x, sid, y);
      case ReadParent =>
        assert SessionOk(x.db, x.sessions[sid]);
        MoveWithin(x, sid, y.sessions[sid], y);
      case Project =>
        assert SessionOk(x.db, x.sessions[sid]);
        MoveWithin(x, sid, y.sessions[sid], y);
      case Abort =>
        assert SessionOk(x.db, x.sessions[sid]);
        MoveWithin(x, sid, y.sessions[sid], y);
    }
  }

  /** Every step of every session keeps the invariant. */
  lemma StepKeepsInv(x: System, sid: SessionId, a: Action, y: System)
    requires Inv(x) && Next(x, sid, a, y)
    ensures Inv(y)
  {
    hide DbOk, UpdateNext, BulkNext, RequestNext, RefinanceNext, SessionOk;
    if a.Begin? {
      BeginIsOk(x.db, a.job);
      LocalMove(x, sid, Session(a.job, if a.job.Bulk? then Lines(0) else Start, map[], map[]), y);
    } else {
      match x.sessions[sid].job {
        case Update(id, target) =>
          if a.Commit? { UpdateCommits(x, sid, id, target, y); } else { UpdateMoves(x, sid, id, target, a, y); }
        case Bulk(file) =>
          if a.Commit? { BulkCommits(x, sid, file, y); } else { BulkMoves(x, sid, file, a, y); }
        case Request(_, _) => RequestMoves(x, sid, a, y);
        case Refinance(_, _, _) => RefinanceMoves(x, sid, a, y);
      }
    }
  }

  lemma UpdateCommits(x: System, sid: SessionId, id: LoanId, target: int, y: System)
    requires Inv(x) && sid in x.sessions && UpdateNext(x, sid, id, target, Commit, y)
    ensures Inv(y)
  {
    CommitMoves(x, sid, y);
  }

  lemma BulkCommits(x: System, sid: SessionId, file: seq<Line>, y: System)
    requires Inv(x) && sid in x.sessions && BulkNext(x, sid, file, Commit, y)
    ensures Inv(y)
  {
    CommitMoves(x, sid, y);
  }

  lemma BeginIsOk(db: Db, job: Job)
    ensures SessionOk(db, Session(job, if job.Bulk? then Lines(0) else Start, map[], map[]))
  {}
}
