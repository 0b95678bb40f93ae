/** What an approval stores and what a refinance takes over, in figures (`src/loans/loan.service.ts`). */
module LoanFigures {
  import opened Options
  import opened Calendar
  import opened Decimal28
  import opened LoanRules
  import A = Amortization
  import T = AmortizationTotals

  lemma RoundedWithin(x: real, exact: real, error: real)
    requires Abs(x - exact) <= error
    ensures Abs(RoundHalfEven(x) as real - exact) <= 0.5 + error
  {
    RoundHalfEvenExactly(x, RoundHalfEven(x));
  }

  /** The loan as the amortisation table sees it. */
  function Priced(t: Terms): A.Loan {
    A.Loan(t.value, t.timelimit, t.fee, t.rate, t.disbursement)
  }

  /** Which figure goes into which column of the detail, whatever the terms: the balance and its date are those
      of the loan, the payment date a month or the whole term later. */
  lemma ApprovalColumns(t: Terms)
    ensures ApprovalFigures(t).Some? <==> (t.fee == 0 ==> t.timelimit >= 1)
    ensures ApprovalFigures(t).Some? ==>
              var f, d := ApprovalFigures(t).value, t.disbursement;
              && f.capitalBalance == t.value && f.fromDate == d
              && f.paydayLimit.year * 12 + f.paydayLimit.month == d.year * 12 + d.month + (if t.fee == 0 then 1 else t.timelimit)
              && f.paydayLimit.day <= d.day
              && (f.paydayLimit.day < d.day ==> f.paydayLimit.day == DaysInMonth(f.paydayLimit.year, f.paydayLimit.month))
  {
    hide A.TotalPaid, A.RowAt, A.Interest, RoundHalfEven;
    T.DueDatesExactly(Priced(t), 1);
  }

  /** Terms the API accepts, disbursed on a day every month has. */
  predicate Accepted(t: Terms) {
    t.value >= 1 && t.rate >= 0.0 && 1 <= t.timelimit <= 36 && t.disbursement.day <= 27
  }

  lemma AcceptedIsRepayable(t: Terms) returns (D: nat)
    requires Accepted(t)
    ensures A.Repayable(Priced(t), D)
  {
    assert Pow10(0) == 1.0;
    D := T.DigitsOf(t.value, 1);
  }

  lemma Rounded(t: Terms)
    requires Accepted(t)
    ensures ApprovalFigures(t).Some?
    ensures var f, loan := ApprovalFigures(t).value, Priced(t);
            && f.interests == RoundHalfEven(A.Interest(loan, 1))
            && f.minimumPayment == RoundHalfEven(A.RowAt(loan, 1).payment)
            && f.totalPayment == RoundHalfEven(A.TotalPaid(loan, A.Instalments(loan)))
  {
    hide A.TotalPaid, A.RowAt, A.Interest, A.DueDate, RoundHalfEven;
  }

  /** The interest of the first instalment, and an equal share of the value. */
  ghost function FirstMonths(t: Terms): real {
    T.Months(t.rate, t.value as real, if t.fee == 0 then 1 else t.timelimit)
  }

  ghost function FirstShare(t: Terms): real
    requires Accepted(t)
  {
    A.Share(Priced(t))
  }

  /** The stored interests and minimum payment of an approval: the interest of the first instalment, and that
      and a share of the value, each to half a unit and a few parts in 10^27. */
  lemma FirstInstalmentStored(t: Terms)
    requires Accepted(t) && ApprovalFigures(t).Some?
    ensures var f, months, both := ApprovalFigures(t).value, FirstMonths(t), FirstShare(t) + FirstMonths(t);
            && Abs(f.interests as real - months) <= 0.5 + 3.0 * A.EPSILON * months
            && Abs(f.minimumPayment as real - both) <= 0.5 + 4.0 * A.EPSILON * both
  {
    hide A.TotalPaid, A.RowAt, A.Interest, RoundHalfEven, T.Months, Pow10, A.Share, A.DueDate, A.Repayable, ApprovalFigures, Abs;
    var D := AcceptedIsRepayable(t);
    Rounded(t);
    var loan, months, both := Priced(t), FirstMonths(t), FirstShare(t) + FirstMonths(t);
    T.FirstInstalment(loan, D);
    RoundedWithin(A.Interest(loan, 1), months, 3.0 * A.EPSILON * months);
    RoundedWithin(A.RowAt(loan, 1).payment, both, 4.0 * A.EPSILON * both);
  }

  /** The stored total of a monthly schedule: the value, and the monthly interest on it for half of one
      instalment more than there are. */
  lemma MonthlyTotalStored(t: Terms)
    requires Accepted(t) && ApprovalFigures(t).Some? && t.fee == 0
    ensures var v, month, n := t.value as real, A.MonthOn(t.rate, t.value as real), t.timelimit;
            Abs(ApprovalFigures(t).value.totalPayment as real - T.Scheduled(v, month, n))
            <= 0.5 + T.Parts(T.Slack(n), v + month)
  {
    hide A.TotalPaid, RoundHalfEven, Pow10, T.Parts, T.Scheduled, A.MonthOn, T.Slack, A.Repayable, ApprovalFigures, Abs;
    var D := AcceptedIsRepayable(t);
    Rounded(t);
    var n, v, month := t.timelimit, t.value as real, A.MonthOn(t.rate, t.value as real);
    T.MonthlyTotal(Priced(t), D);
    RoundedWithin(A.TotalPaid(Priced(t), n), T.Scheduled(v, month, n), T.Parts(T.Slack(n), v + month));
  }

  /** And of a single payment: the value and the interest of the whole term. */
  lemma SingleTotalStored(t: Terms)
    requires Accepted(t) && ApprovalFigures(t).Some? && t.fee != 0
    ensures var exact := t.value as real + T.Months(t.rate, t.value as real, t.timelimit);
            Abs(ApprovalFigures(t).value.totalPayment as real - exact) <= 0.5 + 5.0 * A.EPSILON * exact
  {
    hide A.TotalPaid, RoundHalfEven, Pow10, T.Months, A.Repayable, ApprovalFigures, Abs;
    var D := AcceptedIsRepayable(t);
    Rounded(t);
    var exact := t.value as real + T.Months(t.rate, t.value as real, t.timelimit);
    T.SingleTotal(Priced(t), D);
    RoundedWithin(A.TotalPaid(Priced(t), 1), exact, 5.0 * A.EPSILON * exact);
  }

  /** In figures: a million at one and a half per cent in six monthly instalments from 15 January 2026 is paid
      back as 1,052,500; the first instalment is 181,667, of which 15,000 are interest, on 15 February. */
  lemma MillionInSixMonths()
    ensures ApprovalFigures(Terms(1_000_000, 6, 0, 0.015, Date(2026, 1, 15))) ==
            Some(Figures(1_052_500, 181_667, Date(2026, 2, 15), 15_000, 1_000_000, Date(2026, 1, 15)))
  {
    hide ApprovalFigures, RoundHalfEven;
    var t := Terms(1_000_000, 6, 0, 0.015, Date(2026, 1, 15));
    ApprovalColumns(t);
    FirstInstalmentStored(t);
    MonthlyTotalStored(t);
    A.MultipleIsProduct(192, A.EPSILON * 1015000.0);
    assert A.MonthOn(t.rate, t.value as real) == FirstMonths(t) == 15000.0;
    assert FirstShare(t) == 1000000.0 / 6.0;
    assert T.Scheduled(1000000.0, 15000.0, 6) == 1052500.0 && T.Slack(6) == 192;
  }

  // ---------------------------------------------------------------------
  // Refinancing
  // ---------------------------------------------------------------------

  /** The detail a refinance reads. */
  ghost function BalanceRow(details: map<DetailId, Detail>, id: LoanId): Figures
    requires FirstDetail(details, id).Some?
  {
    details[FirstDetail(details, id).value].figures
  }

  /** What accrues on a loan's balance to a date, unrounded. */
  ghost function AccruedTo(rate: real, row: Figures, toDate: ValidDate): real {
    A.Accrued(A.MonthOn(rate, row.capitalBalance as real), Days360(row.fromDate, toDate))
  }

  /** Without interest a refinance takes over the capital balance of the loan's detail; with it, that and the
      accrued interest to half a unit. */
  lemma RefinanceValueIs(loans: map<LoanId, Loan>, details: map<DetailId, Detail>, id: LoanId, toDate: ValidDate)
    requires id in loans && FirstDetail(details, id).Some?
    ensures RefinanceValue(loans, details, id, toDate, false) == BalanceRow(details, id).capitalBalance
    ensures var row := BalanceRow(details, id);
            var added := RefinanceValue(loans, details, id, toDate, true) - row.capitalBalance;
            var exact := AccruedTo(loans[id].terms.rate, row, toDate);
            Abs(added as real - exact) <= 0.5 + 3.0 * A.EPSILON * Abs(exact)
  {
    hide RoundHalfEven, Days360, A.CalculateInterests, A.Accrued, A.MonthOn, Abs;
    var row, rate := BalanceRow(details, id), loans[id].terms.rate;
    var interest := A.CalculateInterests(rate, row.capitalBalance as real, row.fromDate, toDate);
    A.InterestIsClose(rate, row.capitalBalance as real, row.fromDate, toDate);
    var exact := AccruedTo(rate, row, toDate);
    RoundedWithin(interest, exact, 3.0 * A.EPSILON * Abs(exact));
  }

  /** Whole months after a day every month has, the rate of the balance has accrued for each. */
  lemma WholeMonthsAccrue(rate: real, row: Figures, k: nat)
    requires row.fromDate.day <= 27
    ensures AccruedTo(rate, row, AddMonths(row.fromDate, k)) == T.Months(rate, row.capitalBalance as real, k)
  {
    hide A.Accrued, A.MonthOn, T.Months, Days360, AddMonths;
    Days360WholeMonths(row.fromDate, k);
    T.ThirtyDays(rate, row.capitalBalance as real, k);
  }

  /** So k months later a refinance with interest takes over the balance and k months of it. */
  lemma MonthsLaterAdds(loans: map<LoanId, Loan>, details: map<DetailId, Detail>, id: LoanId, k: nat)
    requires id in loans && FirstDetail(details, id).Some? && BalanceRow(details, id).fromDate.day <= 27
    requires loans[id].terms.rate >= 0.0 && BalanceRow(details, id).capitalBalance >= 0
    ensures var row := BalanceRow(details, id);
            var months := T.Months(loans[id].terms.rate, row.capitalBalance as real, k);
            var added := RefinanceValue(loans, details, id, AddMonths(row.fromDate, k), true) - row.capitalBalance;
            Abs(added as real - months) <= 0.5 + 3.0 * A.EPSILON * months && (months >= 1.0 ==> added >= 1)
  {
    hide FirstDetail, RefinanceValue, T.Months, AddMonths, AccruedTo;
    var row := BalanceRow(details, id);
    RefinanceValueIs(loans, details, id, AddMonths(row.fromDate, k));
    WholeMonthsAccrue(loans[id].terms.rate, row, k);
    T.MonthsSign(loans[id].terms.rate, row.capitalBalance as real, k);
  }

  /** In figures: a million from 15 January at one and a half per cent is refinanced on 15 February as 1,015,000
      with its interest and as a million without. */
  lemma MillionRefinanced(loans: map<LoanId, Loan>, details: map<DetailId, Detail>, id: LoanId)
    requires id in loans && FirstDetail(details, id).Some? && loans[id].terms.rate == 0.015
    requires BalanceRow(details, id).capitalBalance == 1_000_000 && BalanceRow(details, id).fromDate == Date(2026, 1, 15)
    ensures RefinanceValue(loans, details, id, Date(2026, 2, 15), true) == 1_015_000
    ensures RefinanceValue(loans, details, id, Date(2026, 2, 15), false) == 1_000_000
  {
    hide RefinanceValue, BalanceRow;
    RefinanceValueIs(loans, details, id, Date(2026, 2, 15));
    MonthsLaterAdds(loans, details, id, 1);
    assert AddMonths(Date(2026, 1, 15), 1) == Date(2026, 2, 15);
    assert T.Months(0.015, 1000000.0, 1) == 15000.0;
  }
}
