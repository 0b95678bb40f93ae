/** The loan tables and the rules one transition follows when nothing runs beside it
    (`src/loans/loan.service.ts`). */
module LoanRules {
  import opened Options
  import opened Calendar
  import Amortization
  import Decimal28

  type LoanId = nat
  type DetailId = nat

  const WAITING_APPROVAL := 0
  const APPROVED := 1
  const DENIED := 2
  const PAID_OUT := 3

  const MIN_LOAN_VALUE := 1
  const MIN_TIMELIMIT := 1
  const MAX_TIMELIMIT := 36

  /** The columns fixed when the loan is requested. */
  datatype Terms = Terms(value: int, timelimit: int, fee: int, rate: real, disbursement: ValidDate)

  datatype Loan = Loan(owner: nat, createdAt: int, prev: Option<LoanId>, terms: Terms, state: int,
                       refinanced: Option<LoanId>)

  datatype Figures = Figures(totalPayment: int, minimumPayment: int, paydayLimit: ValidDate, interests: int,
                             capitalBalance: int, fromDate: ValidDate)

  datatype Detail = Detail(loanId: LoanId, figures: Figures)

  datatype Db = Db(loans: map<LoanId, Loan>, details: map<DetailId, Detail>)

  /** The transition table: 0 to 1, 0 to 2, 1 to 3, 1 to 2. Anything else is a 409. */
  predicate Legal(current: int, next: int) {
    || (current == WAITING_APPROVAL && next in {APPROVED, DENIED})
    || (current == APPROVED && next in {PAID_OUT, DENIED})
  }

  /** What an approval writes into the detail row, or None when the amortisation table refuses the terms. */
  function ApprovalFigures(t: Terms): Option<Figures> {
    var loan := Amortization.Loan(t.value, t.timelimit, t.fee, t.rate, t.disbursement);
    if Amortization.Instalments(loan) < 1 then None
    else
      var n := Amortization.Instalments(loan);
      Some(Figures(
             Decimal28.RoundHalfEven(Amortization.TotalPaid(loan, n)),
             Decimal28.RoundHalfEven(Amortization.RowAt(loan, 1).payment),
             Amortization.DueDate(loan, 1),
             Decimal28.RoundHalfEven(Amortization.Interest(loan, 1)),
             t.value, t.disbursement))
  }

  // ---------------------------------------------------------------------
  // The detail of a loan
  // ---------------------------------------------------------------------

  ghost predicate IsDetailOf(details: map<DetailId, Detail>, d: DetailId, id: LoanId) {
    d in details && details[d].loanId == id
  }

  lemma {:induction false} Least(s: set<nat>) returns (d: nat)
    requires s != {}
    ensures d in s && forall e :: e in s ==> d <= e
  {
    d :| d in s;
    var rest := s - {d};
    if rest != {} {
      var other := Least(rest);
      assert forall e :: e in s ==> e == d || e in rest;
      d := if d < other then d else other;
    } else {
      assert forall e :: e in s && e != d ==> e in rest;
    }
  }

  lemma LeastExists(s: set<nat>)
    requires s != {}
    ensures exists d :: d in s && forall e :: e in s ==> d <= e
  {
    var d := Least(s);
  }

  /** `findFirst({ where: { loan_id }, orderBy: { id: 'asc' } })`. */
  ghost function FirstDetail(details: map<DetailId, Detail>, id: LoanId): (r: Option<DetailId>)
    ensures r.None? <==> forall d :: !IsDetailOf(details, d, id)
    ensures r.Some? ==> IsDetailOf(details, r.value, id) && forall e :: IsDetailOf(details, e, id) ==> r.value <= e
  {
    var ids := set d | d in details && details[d].loanId == id;
    if ids == {} then
      assert forall d :: IsDetailOf(details, d, id) ==> d in ids;
      None
    else
      LeastExists(ids);
      var d: DetailId :| d in ids && forall e :: e in ids ==> d <= e;
      assert forall e :: IsDetailOf(details, e, id) ==> e in ids;
      assert IsDetailOf(details, d, id);
      Some(d)
  }

  // ---------------------------------------------------------------------
  // The invariant of the committed tables
  // ---------------------------------------------------------------------

  /** Listing order is `-created_at, -id`: a loan ranks above another when it is listed first. */
  predicate Above(a: LoanId, x: Loan, b: LoanId, y: Loan) {
    x.createdAt > y.createdAt || (x.createdAt == y.createdAt && a > b)
  }

  /** The approved loans missing from the file, in listing order. */
  ghost predicate ToClose(loans: map<LoanId, Loan>, listed: set<LoanId>, queue: seq<LoanId>) {
    && (forall i :: 0 <= i < |queue| ==> queue[i] in loans && loans[queue[i]].state == APPROVED && queue[i] !in listed)
    && (forall id :: id in loans && loans[id].state == APPROVED && id !in listed ==> id in queue)
    && Descending(loans, queue)
  }

  ghost predicate Descending(loans: map<LoanId, Loan>, queue: seq<LoanId>) {
    && (forall i :: 0 <= i < |queue| ==> queue[i] in loans)
    && (forall i, j :: 0 <= i < j < |queue| ==> Above(queue[i], loans[queue[i]], queue[j], loans[queue[j]]))
  }

  function NewLoan(owner: nat, createdAt: int, prev: Option<LoanId>, terms: Terms): Loan {
    Loan(owner, createdAt, prev, terms, WAITING_APPROVAL, None)
  }

  /** A refinance points at an older loan of the same owner that has left the waiting state. */
  ghost predicate LoanOk(loans: map<LoanId, Loan>, id: LoanId)
    requires id in loans
  {
    && WAITING_APPROVAL <= loans[id].state <= PAID_OUT
    && (loans[id].prev.Some? ==>
          var p := loans[id].prev.value;
          && p < id && p in loans
          && loans[p].owner == loans[id].owner
          && loans[p].createdAt <= loans[id].createdAt
          && loans[p].state >= APPROVED)
  }

  ghost predicate LoansOk(loans: map<LoanId, Loan>) {
    forall id :: id in loans ==> LoanOk(loans, id)
  }

  /** At most one detail a loan, and one for each approved loan. */
  ghost predicate DetailsOk(db: Db) {
    && (forall d, e, id :: IsDetailOf(db.details, d, id) && IsDetailOf(db.details, e, id) ==> d == e)
    && (forall id :: id in db.loans && db.loans[id].state == APPROVED ==> FirstDetail(db.details, id).Some?)
  }

  ghost predicate DbOk(db: Db) {
    LoansOk(db.loans) && DetailsOk(db)
  }

  lemma ApprovedHasDetail(db: Db, id: LoanId)
    requires DbOk(db) && id in db.loans && db.loans[id].state == APPROVED
    ensures FirstDetail(db.details, id).Some? && FirstDetail(db.details, id).value in db.details
  {}

  // ---------------------------------------------------------------------
  // The monthly file
  // ---------------------------------------------------------------------

  /** One line of the monthly file: the id column is any integer. */
  datatype Line = Malformed | Line(rawId: int, figures: Figures)

  /** An id outside Int32 is mapped to -1, which no row has. */
  function FileId(raw: int): int {
    if raw > 2147483647 || raw < -2147483648 then -1 else raw
  }

  predicate Names(line: Line, id: LoanId) {
    line.Line? && FileId(line.rawId) == id
  }

  predicate Listed(file: seq<Line>, id: LoanId) {
    exists i :: 0 <= i < |file| && Names(file[i], id)
  }

  /** The figures of the last line naming a loan. */
  function LastFigures(file: seq<Line>, id: LoanId): Option<Figures> {
    if file == [] then None
    else if Names(file[|file| - 1], id) then Some(file[|file| - 1].figures)
    else LastFigures(file[..|file| - 1], id)
  }

  function WithFigures(details: map<DetailId, Detail>, file: seq<Line>): map<DetailId, Detail> {
    map d | d in details ::
      match LastFigures(file, details[d].loanId)
      case Some(f) => Detail(details[d].loanId, f)
      case None => details[d]
  }

  /** A line is of the loan whose id it holds; ids outside Int32 are of none. */
  lemma NamesExactly(line: Line, id: LoanId)
    ensures Names(line, id) <==> line.Line? && line.rawId == id && id <= 2147483647
  {}

  /** The last line of a loan decides its figures. */
  lemma {:induction false} LastFiguresExactly(file: seq<Line>, id: LoanId, i: nat)
    requires i < |file| && Names(file[i], id) && forall j :: i < j < |file| ==> !Names(file[j], id)
    ensures LastFigures(file, id) == Some(file[i].figures)
  {
    if i < |file| - 1 { LastFiguresExactly(file[..|file| - 1], id, i); }
  }

  lemma {:induction false} UnlistedHasNone(file: seq<Line>, id: LoanId)
    requires forall j :: 0 <= j < |file| ==> !Names(file[j], id)
    ensures LastFigures(file, id) == None
  {
    if file != [] { UnlistedHasNone(file[..|file| - 1], id); }
  }

  /** What the file makes of a detail: the figures of its loan's last line, or what it was. */
  lemma FiguresOfDetail(details: map<DetailId, Detail>, file: seq<Line>, d: DetailId)
    requires d in details
    ensures var id, after := details[d].loanId, WithFigures(details, file);
            && d in after && after[d].loanId == id
            && (forall i :: 0 <= i < |file| && Names(file[i], id) && (forall j :: i < j < |file| ==> !Names(file[j], id)) ==>
                  after[d].figures == file[i].figures)
            && ((forall j :: 0 <= j < |file| ==> !Names(file[j], id)) ==> after[d] == details[d])
  {
    var id := details[d].loanId;
    forall i | 0 <= i < |file| && Names(file[i], id) && forall j :: i < j < |file| ==> !Names(file[j], id)
      ensures WithFigures(details, file)[d].figures == file[i].figures
    {
      LastFiguresExactly(file, id, i);
    }
    if forall j :: 0 <= j < |file| ==> !Names(file[j], id) { UnlistedHasNone(file, id); }
  }

  function WithClosed(loans: map<LoanId, Loan>, closed: seq<LoanId>): map<LoanId, Loan> {
    map k | k in loans :: if k in closed then loans[k].(state := PAID_OUT) else loans[k]
  }

  ghost function ListedLoans(loans: map<LoanId, Loan>, file: seq<Line>): set<LoanId> {
    set id | id in loans && Listed(file, id)
  }

  /** What an upload makes of the tables when it runs alone. */
  ghost predicate UploadAlone(x: Db, file: seq<Line>, y: Db) {
    exists closed :: ToClose(x.loans, ListedLoans(x.loans, file), closed)
                     && y == Db(WithClosed(x.loans, closed), WithFigures(x.details, file))
  }

  // ---------------------------------------------------------------------
  // Refinancing
  // ---------------------------------------------------------------------

  /** What a refinance asks for. */
  datatype Renewal = Renewal(toDate: ValidDate, includeInterests: bool, timelimit: int, fee: int)

  /** The balance a refinance takes over, with the interest accrued to its date when asked for. */
  ghost function RefinanceValue(loans: map<LoanId, Loan>, details: map<DetailId, Detail>, id: LoanId, toDate: ValidDate,
                                includeInterests: bool): int
    requires id in loans && FirstDetail(details, id).Some?
  {
    var row := details[FirstDetail(details, id).value].figures;
    var accrued := Amortization.CalculateInterests(loans[id].terms.rate, row.capitalBalance as real, row.fromDate, toDate);
    row.capitalBalance + if includeInterests then Decimal28.RoundHalfEven(accrued) else 0
  }

  /** The terms of the child, or None when `createLoan` refuses its value or its term. */
  function RenewedTerms(value: int, r: Renewal): Option<Terms> {
    if value < MIN_LOAN_VALUE || r.timelimit < MIN_TIMELIMIT || r.timelimit > MAX_TIMELIMIT then None
    else Some(Terms(value, r.timelimit, r.fee, Amortization.GetRate(r.timelimit), r.toDate))
  }

  /** The child a refinance creates when it runs alone, or None when it is refused. */
  ghost function RefinanceAlone(db: Db, parent: LoanId, actor: nat, r: Renewal): Option<Terms> {
    if parent !in db.loans || db.loans[parent].state != APPROVED || db.loans[parent].owner != actor then None
    else if FirstDetail(db.details, parent).None? then None
    else RenewedTerms(RefinanceValue(db.loans, db.details, parent, r.toDate, r.includeInterests), r)
  }

  // ---------------------------------------------------------------------
  // One transition, run alone
  // ---------------------------------------------------------------------

  datatype Answer = NotFound | Conflict | Accepted

  /** What `updateLoan(id, target)` answers when it runs alone on these tables. */
  function AnswerAlone(loans: map<LoanId, Loan>, id: LoanId, target: int): Answer {
    if id !in loans then NotFound
    else if Legal(loans[id].state, target) then Accepted
    else Conflict
  }

  /** The loan rows a transition writes: its own, and the loan a refinance replaces. The payoff of the
      previous loan is a direct write that does not consult the transition table. */
  function WrittenLoans(loans: map<LoanId, Loan>, id: LoanId, target: int): map<LoanId, Loan>
    requires id in loans && (loans[id].prev.Some? ==> loans[id].prev.value in loans)
  {
    var own := map[id := loans[id].(state := target)];
    match loans[id].prev
    case None => own
    case Some(p) =>
      if target == APPROVED then own[p := loans[p].(state := PAID_OUT)]
      else if target == DENIED then own[p := loans[p].(refinanced := None)]
      else own
  }

  /** The detail row an approval writes: the existing one, or row `spare`. */
  ghost function WrittenDetails(db: Db, id: LoanId, target: int, spare: DetailId): map<DetailId, Detail>
    requires id in db.loans
  {
    if target == APPROVED && ApprovalFigures(db.loans[id].terms).Some? then
      var row := Detail(id, ApprovalFigures(db.loans[id].terms).value);
      match FirstDetail(db.details, id)
      case Some(d) => map[d := row]
      case None => map[spare := row]
    else map[]
  }

  /** The tables after the transition. */
  ghost function Transition(db: Db, id: LoanId, target: int, spare: DetailId): Db
    requires id in db.loans && (db.loans[id].prev.Some? ==> db.loans[id].prev.value in db.loans)
  {
    Db(db.loans + WrittenLoans(db.loans, id, target), db.details + WrittenDetails(db, id, target, spare))
  }

  /** The columns no transition may touch, and the direction the state may move in. */
  predicate RowEvolves(x: Loan, y: Loan) {
    && y.owner == x.owner && y.createdAt == x.createdAt && y.prev == x.prev && y.terms == x.terms
    && y.state >= x.state
  }

  predicate LoansEvolve(before: map<LoanId, Loan>, after: map<LoanId, Loan>) {
    before.Keys <= after.Keys && forall id :: id in before ==> RowEvolves(before[id], after[id])
  }

  lemma TransitionEvolves(loans: map<LoanId, Loan>, id: LoanId, target: int)
    requires LoansOk(loans) && id in loans && Legal(loans[id].state, target)
    ensures LoansEvolve(loans, loans + WrittenLoans(loans, id, target))
    ensures LoansOk(loans + WrittenLoans(loans, id, target))
  {}

  /** A legal transition keeps the tables sound: at most one detail a loan, exactly one once approved. */
  lemma TransitionKeepsDbOk(db: Db, id: LoanId, target: int, spare: DetailId)
    requires DbOk(db) && id in db.loans && Legal(db.loans[id].state, target) && spare !in db.details
    requires target == APPROVED ==> ApprovalFigures(db.loans[id].terms).Some?
    ensures DbOk(Transition(db, id, target, spare))
  {
    hide ApprovalFigures;
    assert LoanOk(db.loans, id);
    var after := Transition(db, id, target, spare);
    TransitionEvolves(db.loans, id, target);
    DetailsAfterTransition(db, id, target, spare);
    forall k | k in after.loans && after.loans[k].state == APPROVED
      ensures FirstDetail(after.details, k).Some?
    {
      if k == id {
        assert exists d :: IsDetailOf(after.details, d, id);
      } else {
        assert db.loans[k].state == APPROVED;
        assert IsDetailOf(after.details, FirstDetail(db.details, k).value, k);
      }
    }
  }

  lemma DetailsAfterTransition(db: Db, id: LoanId, target: int, spare: DetailId)
    requires DetailsOk(db) && id in db.loans && spare !in db.details
    requires target == APPROVED ==> ApprovalFigures(db.loans[id].terms).Some?
    ensures var after := db.details + WrittenDetails(db, id, target, spare);
            && (forall d, e, k :: IsDetailOf(after, d, k) && IsDetailOf(after, e, k) ==> d == e)
            && (forall d, k :: IsDetailOf(db.details, d, k) ==> IsDetailOf(after, d, k))
            && (target == APPROVED ==> exists d :: IsDetailOf(after, d, id))
  {
    hide ApprovalFigures;
    var after := db.details + WrittenDetails(db, id, target, spare);
    if target == APPROVED {
      var d := match FirstDetail(db.details, id) case Some(d) => d case None => spare;
      assert IsDetailOf(after, d, id);
      assert forall e, k :: IsDetailOf(after, e, k) && e != d ==> IsDetailOf(db.details, e, k);
      assert forall k :: IsDetailOf(after, d, k) ==> k == id;
    } else {
      assert after == db.details;
    }
  }

  /** What a transition does row by row: the loan's own state; the loan it replaces, paid out by an approval
      and unlinked by a denial; for an approval, one detail of the loan with the approval's figures; no more. */
  ghost predicate MovedOnRows(x: Db, id: LoanId, target: int, y: Db)
    requires id in x.loans
  {
    var prev := x.loans[id].prev;
    && y.loans.Keys == x.loans.Keys && y.loans[id] == x.loans[id].(state := target)
    && (prev.Some? ==>
          prev.value in x.loans && prev.value != id
          && y.loans[prev.value] == (if target == APPROVED then x.loans[prev.value].(state := PAID_OUT)
                                     else if target == DENIED then x.loans[prev.value].(refinanced := None)
                                     else x.loans[prev.value]))
    && (forall k :: k in x.loans && k != id && prev != Some(k) ==> y.loans[k] == x.loans[k])
    && (target != APPROVED ==> y.details == x.details)
    && (target == APPROVED ==>
          exists d :: DetailWritten(x.details, d, id, y.details)
                      && Some(y.details[d].figures) == ApprovalFigures(x.loans[id].terms))
  }

  /** One detail of the loan was rewritten, or added when there was none. */
  ghost predicate DetailWritten(x: map<DetailId, Detail>, d: DetailId, id: LoanId, y: map<DetailId, Detail>) {
    && d in y && y[d].loanId == id && y == x[d := y[d]]
    && (if d in x then x[d].loanId == id else forall e :: e in x ==> x[e].loanId != id)
  }

  lemma TransitionOnRows(db: Db, id: LoanId, target: int, spare: DetailId)
    requires DbOk(db) && id in db.loans && Legal(db.loans[id].state, target) && spare !in db.details
    requires target == APPROVED ==> ApprovalFigures(db.loans[id].terms).Some?
    ensures db.loans[id].prev.Some? ==> db.loans[id].prev.value in db.loans && db.loans[id].prev.value < id
    ensures var y, prev := Transition(db, id, target, spare), db.loans[id].prev;
            && MovedOnRows(db, id, target, y)
            && y.loans.Keys == db.loans.Keys && y.loans[id].state == target
            && (prev.Some? && target == 1 ==> y.loans[prev.value].state == 3)
            && (prev.Some? && target == 2 ==>
                  y.loans[prev.value].state == db.loans[prev.value].state && y.loans[prev.value].refinanced == None)
  {
    hide ApprovalFigures, DetailsOk;
    assert LoanOk(db.loans, id);
    var y := Transition(db, id, target, spare);
    if target == APPROVED {
      var first := FirstDetail(db.details, id);
      var d := match first case Some(d) => d case None => spare;
      assert first.Some? ==> IsDetailOf(db.details, d, id);
      if first.None? { NoneOf(db.details, id); }
      assert DetailWritten(db.details, d, id, y.details);
    }
  }

  lemma NoneOf(details: map<DetailId, Detail>, id: LoanId)
    requires FirstDetail(details, id).None?
    ensures forall e :: e in details ==> details[e].loanId != id
  {
    forall e | e in details
      ensures details[e].loanId != id
    {
      assert !IsDetailOf(details, e, id);
    }
  }

  lemma InsertKeepsDbOk(db: Db, id: LoanId, loan: Loan)
    requires DbOk(db) && id !in db.loans && (forall k :: k in db.loans ==> k < id)
    requires loan.state == WAITING_APPROVAL
    requires loan.prev.Some? ==> var p := loan.prev.value;
               p in db.loans && db.loans[p].owner == loan.owner && db.loans[p].createdAt <= loan.createdAt
               && db.loans[p].state >= APPROVED
    ensures DbOk(db.(loans := db.loans[id := loan]))
  {}

  lemma LinkKeepsDbOk(db: Db, id: LoanId, child: LoanId)
    requires DbOk(db) && id in db.loans
    ensures DbOk(db.(loans := db.loans[id := db.loans[id].(refinanced := Some(child))]))
  {}

  // ---------------------------------------------------------------------
  // Refinance chains
  // ---------------------------------------------------------------------

  /** The loans a refinance descends from, newest first. */
  function Chain(loans: map<LoanId, Loan>, id: LoanId): seq<LoanId>
    requires LoansOk(loans) && id in loans
    decreases id
  {
    assert LoanOk(loans, id);
    match loans[id].prev
    case None => [id]
    case Some(p) => [id] + Chain(loans, p)
  }

  /** Chains are finite and acyclic: every loan on one belongs to the same owner and is older than
      every loan before it, by id and in listing order, and only the newest can be waiting. */
  lemma {:induction false} ChainsDescend(loans: map<LoanId, Loan>, id: LoanId)
    requires LoansOk(loans) && id in loans
    ensures var c := Chain(loans, id);
            && |c| <= id + 1
            && (forall i :: 0 <= i < |c| ==> c[i] in loans && loans[c[i]].owner == loans[id].owner)
            && (forall i, j :: 0 <= i < j < |c| ==> c[j] < c[i] && Above(c[i], loans[c[i]], c[j], loans[c[j]]))
            && (forall i :: 1 <= i < |c| ==> loans[c[i]].state >= APPROVED)
    decreases id
  {
    assert LoanOk(loans, id);
    if loans[id].prev.Some? {
      var p := loans[id].prev.value;
      ChainsDescend(loans, p);
      var c, rest := Chain(loans, id), Chain(loans, p);
      assert c[0] == id && forall i :: 1 <= i < |c| ==> c[i] == rest[i - 1];
      assert rest[0] == p;
    }
  }
}
