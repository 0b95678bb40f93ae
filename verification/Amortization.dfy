/** The loan amortisation table (`src/loans/amortization.ts`): a loop over 28-digit decimals,
    and how far its accumulated rounding can drift from an exact repayment. */
module Amortization {
  import opened Calendar
  import opened Decimal28

  const FEE_MONTHLY := 0

  /** 10^-27: a rounding moves an amount by at most half of this fraction of it. */
  const EPSILON: real := 0.000000000000000000000000001

  datatype Loan = Loan(value: int, timelimit: int, fee: int, rate: real, disbursement: Date)

  datatype Row = Row(
    number: nat,
    opening: real,
    from: Date,
    interest: real,
    capital: real,
    due: Date,
    payment: real,
    closing: real)

  datatype Summary = Summary(paydayLimit: Date, minimumPayment: int, totalPayment: int, interests: int)

  datatype Result = Table(rows: seq<Row>, summary: Summary) | DivisionByZero

  /** The frozen monthly rate. The last branch is a fall-through: it also prices a term over 36. */
  function GetRate(timelimit: int): real {
    if 6 < timelimit <= 12 then 0.020
    else if 12 < timelimit <= 24 then 0.022
    else if 24 < timelimit <= 36 then 0.025
    else 0.015
  }

  /** Longer terms never cost less a month, up to the longest accepted; the four rates, and where each starts. */
  lemma RatesRise(a: int, b: int)
    ensures 1 <= a <= b <= 36 ==> GetRate(a) <= GetRate(b)
    ensures GetRate(6) == 0.015 && GetRate(7) == GetRate(12) == 0.020 && GetRate(13) == GetRate(24) == 0.022
    ensures GetRate(25) == GetRate(36) == 0.025
    ensures a < 1 || a > 36 ==> GetRate(a) == GetRate(1) == 0.015
  {}

  /** `((balance * rate) / 30) * days360`, rounded to 28 digits after each of the three operations. */
  function CalculateInterests(rate: real, balance: real, from: Date, to: Date): real
    requires Valid(from) && Valid(to)
  {
    Times(DividedBy(Times(balance, rate), 30.0), Days360(from, to) as real)
  }

  /** `fee` is a type, not a count: MONTHLY means `timelimit` instalments, anything else one. */
  function Instalments(loan: Loan): int {
    if loan.fee == FEE_MONTHLY then loan.timelimit else 1
  }

  // ---------------------------------------------------------------------
  // What row i of the table holds
  // ---------------------------------------------------------------------

  function Constant(loan: Loan): real
    requires Instalments(loan) >= 1
  {
    DividedBy(loan.value as real, Instalments(loan) as real)
  }

  /** The balance after i instalments. */
  function Balance(loan: Loan, i: nat): real
    requires Instalments(loan) >= 1
  {
    if i == 0 then loan.value as real else Minus(Balance(loan, i - 1), Constant(loan))
  }

  /** The date of instalment i, anchored to the disbursement date; 0 is the disbursement itself. */
  function DueDate(loan: Loan, i: nat): (d: Date)
    requires Valid(loan.disbursement)
    ensures Valid(d)
  {
    if i == 0 then loan.disbursement
    else AddMonths(loan.disbursement, if loan.fee == FEE_MONTHLY then i else loan.timelimit)
  }

  function Interest(loan: Loan, i: nat): real
    requires Instalments(loan) >= 1 && Valid(loan.disbursement) && i >= 1
  {
    CalculateInterests(loan.rate, Balance(loan, i - 1), DueDate(loan, i - 1), DueDate(loan, i))
  }

  function RowAt(loan: Loan, i: nat): Row
    requires Instalments(loan) >= 1 && Valid(loan.disbursement) && i >= 1
  {
    Row(i, Balance(loan, i - 1), DueDate(loan, i - 1), Interest(loan, i), Constant(loan),
        DueDate(loan, i), Plus(Constant(loan), Interest(loan, i)), Balance(loan, i))
  }

  function TotalPaid(loan: Loan, i: nat): real
    requires Instalments(loan) >= 1 && Valid(loan.disbursement)
  {
    if i == 0 then 0.0 else Plus(TotalPaid(loan, i - 1), RowAt(loan, i).payment)
  }

  /** The table loop. A non-positive instalment count is refused, every other loan gets one row
      per instalment, and the summary reads the first row and the accumulated total. */
  method GenerateAmortizationTable(loan: Loan) returns (result: Result)
    requires Valid(loan.disbursement)
    ensures result.DivisionByZero? <==> Instalments(loan) < 1
    ensures result.Table? ==>
              && |result.rows| == Instalments(loan)
              && (forall i :: 1 <= i <= Instalments(loan) ==> result.rows[i - 1] == RowAt(loan, i))
              && result.summary == Summary(
                                     DueDate(loan, 1),
                                     RoundHalfEven(RowAt(loan, 1).payment),
                                     RoundHalfEven(TotalPaid(loan, Instalments(loan))),
                                     RoundHalfEven(Interest(loan, 1)))
  {
    hide Plus, Minus, DividedBy, CalculateInterests, RoundHalfEven, AddMonths;
    var instalments := if loan.fee == FEE_MONTHLY then loan.timelimit else 1;
    if instalments < 1 {
      return DivisionByZero;
    }
    var fromDate := loan.disbursement;
    var balance := loan.value as real;
    var constantPayment := DividedBy(loan.value as real, instalments as real);
    var rows: seq<Row> := [];
    var totalPayment := 0.0;
    var firstPayment, firstInterests := 0, 0;
    var paydayLimit := loan.disbursement;
    var i := 1;
    while i <= instalments
      invariant 1 <= i <= instalments + 1
      invariant balance == Balance(loan, i - 1) && fromDate == DueDate(loan, i - 1)
      invariant totalPayment == TotalPaid(loan, i - 1)
      invariant |rows| == i - 1 && forall k :: 1 <= k < i ==> rows[k - 1] == RowAt(loan, k)
      invariant i > 1 ==> && paydayLimit == DueDate(loan, 1)
                          && firstPayment == RoundHalfEven(RowAt(loan, 1).payment)
                          && firstInterests == RoundHalfEven(Interest(loan, 1))
    {
      var due := AddMonths(loan.disbursement, if loan.fee == FEE_MONTHLY then i else loan.timelimit);
      var interests := CalculateInterests(loan.rate, balance, fromDate, due);
      var payment := Plus(constantPayment, interests);
      var closing := Minus(balance, constantPayment);
      if i == 1 {
        firstPayment := RoundHalfEven(payment);
        firstInterests := RoundHalfEven(interests);
        paydayLimit := due;
      }
      totalPayment := Plus(totalPayment, payment);
      rows := rows + [Row(i, balance, fromDate, interests, constantPayment, due, payment, closing)];
      balance := closing;
      fromDate := due;
      i := i + 1;
    }
    result := Table(rows, Summary(paydayLimit, firstPayment, RoundHalfEven(totalPayment), firstInterests));
  }

  // ---------------------------------------------------------------------
  // The schedule repays the loan
  // ---------------------------------------------------------------------

  /** A loan the API can hold: a positive value of D integer digits, a non-negative rate, and an
      instalment count that fits the `timelimit` column (`createLoan` accepts terms of 1 to 36 only,
      `src/loans/loan.service.ts:278`). */
  ghost predicate Repayable(loan: Loan, D: nat) {
    && D >= 1
    && Pow10(D - 1) <= loan.value as real < Pow10(D)
    && 1 <= Instalments(loan) <= 32767
    && loan.rate >= 0.0
    && Valid(loan.disbursement)
  }

  /** One unit in the 28th significant digit of a D-digit amount. */
  ghost function Unit(D: nat): real {
    Pow10(D - 28)
  }

  lemma UnitScale(D: nat)
    requires D >= 1
    ensures Unit(D) > 0.0 && Pow10(D) == TOP * Unit(D) && Pow10(D - 1) == LOW * Unit(D)
  {
    hide Pow10;
    Pow10Step(D - 28);
    Pow10Adds(D - 28, 27);
    Pow10Step(D - 1);
    var p := PowTwentySeven();
    assert Pow10(D - 1) == Unit(D) * p;
  }

  lemma PowTwentySeven() returns (p: real)
    ensures p == Pow10(27) == LOW
  {
    assert Pow10(9) == 1000000000.0 by {
      assert Pow10(3) == 1000.0;
      Pow10Adds(3, 3);
      Pow10Adds(6, 3);
    }
    Pow10Adds(9, 9);
    Pow10Adds(18, 9);
    p := Pow10(27);
  }

  /** k times u, as a sum. */
  ghost function Multiple(k: nat, u: real): real {
    if k == 0 then 0.0 else Multiple(k - 1, u) + u
  }

  lemma {:induction false} MultipleIsProduct(k: nat, u: real)
    ensures Multiple(k, u) == k as real * u
  {
    if k > 0 {
      MultipleIsProduct(k - 1, u);
      Distributes((k - 1) as real, u);
    }
  }

  lemma Distributes(k: real, u: real)
    ensures (k + 1.0) * u == k * u + u
  {}

  lemma {:induction false} MultipleMonotone(j: nat, k: nat, u: real)
    requires j <= k && u >= 0.0
    ensures 0.0 <= Multiple(j, u) <= Multiple(k, u)
  {
    if j < k { MultipleMonotone(j, k - 1, u); } else if k > 0 { MultipleMonotone(j - 1, k - 1, u); }
  }

  /** One exact instalment. */
  ghost function Share(loan: Loan): real
    requires Instalments(loan) >= 1
  {
    loan.value as real / Instalments(loan) as real
  }

  /** Instalments shares make up the value, and n units of the 28th digit are less than one share. */
  lemma ShareFacts(loan: Loan, D: nat)
    requires Repayable(loan, D)
    ensures Unit(D) > 0.0 && Pow10(D) == TOP * Unit(D)
    ensures Multiple(Instalments(loan), Share(loan)) == loan.value as real < TOP * Unit(D)
    ensures Multiple(Instalments(loan), Unit(D)) < Share(loan)
  {
    hide Pow10;
    UnitScale(D);
    var n, v, q, u := Instalments(loan), loan.value as real, Share(loan), Unit(D);
    MultipleIsProduct(n, q);
    MultipleIsProduct(n, u);
    SharesMakeValue(v, n as real);
    SmallCount(n as real, q, u);
  }

  lemma SharesMakeValue(v: real, n: real)
    requires n >= 1.0
    ensures n * (v / n) == v
  {}

  lemma Cancel(n: real, x: real, y: real)
    requires n > 0.0 && n * x > n * y
    ensures x > y
  {}

  lemma SmallCount(n: real, q: real, u: real)
    requires 1.0 <= n <= 32767.0 && u > 0.0 && n * q >= LOW * u
    ensures q > n * u
  {
    assert n * n <= 32767.0 * n <= 32767.0 * 32767.0;
    assert n * n < LOW;
    assert (n * n) * u < LOW * u;
    assert n * (n * u) == (n * n) * u;
    Cancel(n, q, n * u);
  }

  /** After i instalments the balance is within i units of the n - i shares still owed. */
  lemma {:induction false} BalanceError(loan: Loan, D: nat, i: nat)
    requires Repayable(loan, D) && i <= Instalments(loan)
    ensures Abs(Constant(loan) - Share(loan)) <= Unit(D) / 2.0
    ensures Abs(Balance(loan, i) - Multiple(Instalments(loan) - i, Share(loan))) <= Multiple(i, Unit(D))
  {
    hide Round28, Pow10;
    var n, q, u := Instalments(loan), Share(loan), Unit(D);
    ShareFacts(loan, D);
    ConstantError(loan, D);
    if i > 0 {
      BalanceError(loan, D, i - 1);
      NextBalanceError(loan, D, i);
    }
  }

  lemma ConstantError(loan: Loan, D: nat)
    requires Repayable(loan, D)
    ensures Abs(Constant(loan) - Share(loan)) <= Unit(D) / 2.0
  {
    hide Round28, Pow10;
    ShareFacts(loan, D);
    MultipleMonotone(0, Instalments(loan), Unit(D));
    MultipleMonotone(1, Instalments(loan), Share(loan));
    assert Multiple(1, Share(loan)) == Multiple(0, Share(loan)) + Share(loan);
    RoundError(Share(loan), D - 28);
  }

  lemma NextBalanceError(loan: Loan, D: nat, i: nat)
    requires Repayable(loan, D) && 1 <= i <= Instalments(loan)
    requires Abs(Balance(loan, i - 1) - Multiple(Instalments(loan) - i + 1, Share(loan))) <= Multiple(i - 1, Unit(D))
    ensures Abs(Balance(loan, i) - Multiple(Instalments(loan) - i, Share(loan))) <= Multiple(i, Unit(D))
  {
    hide Round28, Pow10, Share, Constant, Balance;
    var n, q, u, c, b := Instalments(loan), Share(loan), Unit(D), Constant(loan), Balance(loan, i - 1);
    ShareFacts(loan, D);
    ConstantError(loan, D);
    MultipleMonotone(0, n, u);
    MultipleMonotone(i, n, u);
    MultipleMonotone(n - i, n - 1, q);
    assert Balance(loan, i) == Minus(b, c) by { BalanceStep(loan, i); }
    RoundError(b - c, D - 28);
  }

  lemma BalanceStep(loan: Loan, i: nat)
    requires Instalments(loan) >= 1 && i >= 1
    ensures Balance(loan, i) == Minus(Balance(loan, i - 1), Constant(loan))
  {}

  /** Every row opens with a positive balance and accrues a non-negative interest, and the last
      balance is within n units of the 28th digit of zero: the instalments repay the loan. */
  lemma TableRepaysTheLoan(loan: Loan, D: nat)
    requires Repayable(loan, D)
    ensures forall i :: 1 <= i <= Instalments(loan) ==> RowAt(loan, i).opening > 0.0
    ensures forall i :: 1 <= i <= Instalments(loan) ==> RowAt(loan, i).interest >= 0.0
    ensures Abs(RowAt(loan, Instalments(loan)).closing) <= Instalments(loan) as real * Pow10(D - 28)
    ensures Abs(Instalments(loan) as real * Constant(loan) - loan.value as real)
            <= Instalments(loan) as real * (Pow10(D - 28) / 2.0)
  {
    hide Round28, Pow10, Plus, Interest, DueDate, Balance, Constant;
    forall i | 1 <= i <= Instalments(loan)
      ensures RowAt(loan, i).opening > 0.0 && RowAt(loan, i).interest >= 0.0
    {
      RowFacts(loan, D, i);
    }
    LastBalance(loan, D);
    PrincipalError(loan, D);
  }

  lemma LastBalance(loan: Loan, D: nat)
    requires Repayable(loan, D)
    ensures Abs(Balance(loan, Instalments(loan))) <= Instalments(loan) as real * Pow10(D - 28)
  {
    hide Pow10, Share, Balance;
    BalanceError(loan, D, Instalments(loan));
    MultipleIsProduct(Instalments(loan), Unit(D));
  }

  lemma PrincipalError(loan: Loan, D: nat)
    requires Repayable(loan, D)
    ensures Abs(Instalments(loan) as real * Constant(loan) - loan.value as real)
            <= Instalments(loan) as real * (Pow10(D - 28) / 2.0)
  {
    hide Pow10, Constant, Share;
    var n := Instalments(loan);
    ShareFacts(loan, D);
    ConstantError(loan, D);
    MultipleIsProduct(n, Share(loan));
    SharesAddUp(n as real, Share(loan), Constant(loan), Unit(D) / 2.0);
  }

  lemma SharesAddUp(n: real, q: real, c: real, bound: real)
    requires n >= 0.0 && Abs(c - q) <= bound
    ensures Abs(n * c - n * q) <= n * bound
  {}

  lemma RowFacts(loan: Loan, D: nat, i: nat)
    requires Repayable(loan, D) && 1 <= i <= Instalments(loan)
    ensures Balance(loan, i - 1) > 0.0 && Interest(loan, i) >= 0.0
  {
    hide Round28, Pow10, CalculateInterests, Share;
    var n, q, u := Instalments(loan), Share(loan), Unit(D);
    ShareFacts(loan, D);
    BalanceError(loan, D, i - 1);
    MultipleMonotone(i - 1, n, u);
    MultipleMonotone(1, n - i + 1, q) by { MultipleMonotone(n, n, u); }
    assert Multiple(1, q) == Multiple(0, q) + q;
    InterestIsNonNegative(loan.rate, Balance(loan, i - 1), DueDate(loan, i - 1), DueDate(loan, i));
  }

  lemma InterestIsNonNegative(rate: real, balance: real, from: Date, to: Date)
    requires rate >= 0.0 && balance >= 0.0 && Valid(from) && Valid(to)
    ensures CalculateInterests(rate, balance, from, to) >= 0.0
  {
    hide Round28, Days360, Times;
    Days360Facts(from, to);
    TimesSign(balance, rate);
    RoundSign(Times(balance, rate) / 30.0);
    TimesSign(DividedBy(Times(balance, rate), 30.0), Days360(from, to) as real);
  }

  // ---------------------------------------------------------------------
  // What the borrower pays in all
  // ---------------------------------------------------------------------

  /** What exact addition of the table's own columns gives after i rows. */
  ghost function ExactPaid(loan: Loan, i: nat): real
    requires Instalments(loan) >= 1 && Valid(loan.disbursement)
  {
    if i == 0 then 0.0 else ExactPaid(loan, i - 1) + Constant(loan) + Interest(loan, i)
  }

  ghost function InterestSum(loan: Loan, i: nat): real
    requires Instalments(loan) >= 1 && Valid(loan.disbursement)
  {
    if i == 0 then 0.0 else InterestSum(loan, i - 1) + Interest(loan, i)
  }

  lemma {:induction false} ExactPaidSplits(loan: Loan, i: nat)
    requires Instalments(loan) >= 1 && Valid(loan.disbursement)
    ensures ExactPaid(loan, i) == i as real * Constant(loan) + InterestSum(loan, i)
  {
    hide Round28, CalculateInterests, Constant;
    if i > 0 {
      ExactPaidSplits(loan, i - 1);
      assert i as real * Constant(loan) == (i - 1) as real * Constant(loan) + Constant(loan);
    }
  }

  /** k parts in 10^27 of x. */
  ghost function Slip(k: nat, x: real): real {
    k as real * EPSILON * x
  }

  lemma SlipFacts(k: nat, x: real, y: real)
    requires 1 <= k <= 32768 && x >= 0.0 && y >= 0.0
    ensures Slip(k, x) + Slip(k, y) == Slip(k, x + y)
    ensures Slip(k - 1, x) + EPSILON * x == Slip(k, x)
    ensures EPSILON * y <= Slip(k, y) <= y
  {}

  /** One accumulation step: if the running total is off by at most k parts in 10^27 of the exact
      sum, rounding the payment and the new total adds at most one more part. */
  lemma TotalStep(total: real, exact: real, share: real, k: nat)
    requires exact >= 0.0 && share >= 0.0 && 1 <= k < 32768
    requires Abs(total - exact) <= Slip(k, exact)
    ensures Abs(Plus(total, Round28(share)) - (exact + share)) <= Slip(k + 1, exact + share)
  {
    hide Round28, Slip;
    var whole := exact + share;
    SlipFacts(k, exact, share);
    SlipFacts(k, exact, whole);
    SlipFacts(k + 1, whole, share);
    RoundStep(share, share, 0.0);
    SumOfErrors(total, exact, Round28(share), share, Slip(k, exact), Slip(k, share));
    RoundStep(total + Round28(share), whole, Slip(k, whole));
  }

  /** Rounding a figure that is within `error` of `exact` adds at most 1/10^27 of it. */
  lemma RoundStep(x: real, exact: real, error: real)
    requires Abs(x - exact) <= error <= Abs(exact)
    ensures Abs(Round28(x) - exact) <= error + EPSILON * Abs(exact)
  {
    hide Round28;
    RoundRelativeError(x);
    TwiceLow(Abs(Round28(x) - x), Abs(exact));
  }

  lemma TwiceLow(error: real, x: real)
    requires 2000000000000000000000000000.0 * error <= 2.0 * x
    ensures error <= EPSILON * x
  {}

  lemma SumOfErrors(x: real, x0: real, y: real, y0: real, ex: real, ey: real)
    requires Abs(x - x0) <= ex && Abs(y - y0) <= ey
    ensures Abs((x + y) - (x0 + y0)) <= ex + ey
  {}

  lemma {:induction false} TotalError(loan: Loan, D: nat, i: nat)
    requires Repayable(loan, D) && i <= Instalments(loan)
    ensures ExactPaid(loan, i) >= 0.0
    ensures Abs(TotalPaid(loan, i) - ExactPaid(loan, i)) <= Slip(i + 1, ExactPaid(loan, i))
  {
    hide Round28, Interest, Constant, Slip, Plus, TotalPaid, ExactPaid, Abs;
    PaidUnfolds(loan, i);
    if i == 0 {
      SlipFacts(1, 0.0, 0.0);
    } else {
      TotalError(loan, D, i - 1);
      ShareIsNonNegative(loan, D, i);
      TotalStep(TotalPaid(loan, i - 1), ExactPaid(loan, i - 1), Constant(loan) + Interest(loan, i), i);
    }
  }

  lemma PaidUnfolds(loan: Loan, i: nat)
    requires Instalments(loan) >= 1 && Valid(loan.disbursement)
    ensures i == 0 ==> TotalPaid(loan, i) == 0.0 && ExactPaid(loan, i) == 0.0 && Abs(0.0) == 0.0
    ensures i >= 1 ==> TotalPaid(loan, i) == Plus(TotalPaid(loan, i - 1), Round28(Constant(loan) + Interest(loan, i)))
    ensures i >= 1 ==> ExactPaid(loan, i) == ExactPaid(loan, i - 1) + (Constant(loan) + Interest(loan, i))
  {
    hide Round28, Interest, Constant;
  }

  lemma ShareIsNonNegative(loan: Loan, D: nat, i: nat)
    requires Repayable(loan, D) && 1 <= i <= Instalments(loan)
    ensures Constant(loan) + Interest(loan, i) >= 0.0
  {
    hide Round28, Interest, Pow10, Balance, Constant;
    RowFacts(loan, D, i);
    Pow10Step(D - 1);
    ConstantIsNonNegative(loan);
  }

  lemma ConstantIsNonNegative(loan: Loan)
    requires Instalments(loan) >= 1 && loan.value >= 0
    ensures Constant(loan) >= 0.0
  {
    hide Round28;
    RoundSign(loan.value as real / Instalments(loan) as real);
  }

  /** Conservation: before it is rounded to whole units, the total payment is the loan's value plus
      the table's interest column, up to the two accumulated rounding errors. */
  lemma TotalIsValuePlusInterest(loan: Loan, D: nat)
    requires Repayable(loan, D)
    ensures var n, interest := Instalments(loan), InterestSum(loan, Instalments(loan));
            var principal := n as real * Constant(loan);
            && Abs(principal - loan.value as real) <= n as real * (Pow10(D - 28) / 2.0)
            && Abs(TotalPaid(loan, n) - (principal + interest)) <= (n + 1) as real * EPSILON * (principal + interest)
  {
    hide Round28, CalculateInterests, Pow10, Balance, TotalPaid, Constant;
    var n := Instalments(loan);
    TableRepaysTheLoan(loan, D);
    TotalError(loan, D, n);
    ExactPaidSplits(loan, n);
  }

  // ---------------------------------------------------------------------
  // Dates
  // ---------------------------------------------------------------------

  /** Monthly rows: each row starts where the one before it ended, the first starts at the
      disbursement, and due dates strictly advance although each is clamped to its own month. */
  lemma DatesChain(loan: Loan, i: nat)
    requires Valid(loan.disbursement) && Instalments(loan) >= 1
    requires 1 <= i <= Instalments(loan) && (loan.fee == FEE_MONTHLY || loan.timelimit >= 1)
    ensures RowAt(loan, 1).from == loan.disbursement
    ensures i < Instalments(loan) ==> RowAt(loan, i + 1).from == RowAt(loan, i).due
    ensures Before(RowAt(loan, i).from, RowAt(loan, i).due)
    ensures loan.fee == FEE_MONTHLY ==>
              var anchor, due := loan.disbursement, RowAt(loan, i).due;
              && due.year * 12 + due.month == anchor.year * 12 + anchor.month + i
              && (due.day == anchor.day || due.day == DaysInMonth(due.year, due.month) < anchor.day)
  {}

  // ---------------------------------------------------------------------
  // What the interest is
  // ---------------------------------------------------------------------

  /** Within k parts in 10^27 of the exact figure. */
  ghost predicate Close(x: real, exact: real, k: nat) {
    Abs(x - exact) <= k as real * EPSILON * Abs(exact)
  }

  lemma Itself(x: real)
    ensures Close(x, x, 0)
  {}

  lemma RoundIsClose(x: real, exact: real, k: nat)
    requires k <= 100 && Close(x, exact, k)
    ensures Close(Round28(x), exact, k + 1)
  {
    hide Round28;
    SomeParts(k, Abs(exact));
    RoundStep(x, exact, k as real * EPSILON * Abs(exact));
  }

  lemma SomeParts(k: nat, t: real)
    requires k <= 100 && t >= 0.0
    ensures 0.0 <= k as real * EPSILON * t <= t
    ensures (k + 1) as real * EPSILON * t == k as real * EPSILON * t + EPSILON * t
  {}

  lemma AbsScales(x: real, n: real)
    requires n >= 0.0
    ensures Abs(x * n) == Abs(x) * n
  {}

  lemma ScaleIsClose(x: real, exact: real, k: nat, n: real)
    requires n >= 0.0 && Close(x, exact, k)
    ensures Close(x * n, exact * n, k)
  {
    AbsScales(x - exact, n);
    AbsScales(exact, n);
    assert x * n - exact * n == (x - exact) * n;
    var part := k as real * EPSILON;
    ProductMonotone(Abs(x - exact), part * Abs(exact), n);
    assert part * Abs(exact) * n == part * (Abs(exact) * n);
  }

  lemma ProductMonotone(x: real, y: real, n: real)
    requires x <= y && n >= 0.0
    ensures x * n <= y * n
  {}

  lemma TimesIsClose(x: real, exact: real, k: nat, n: real)
    requires k <= 100 && Close(x, exact, k) && n >= 0.0
    ensures Close(Times(x, n), exact * n, k + 1)
  {
    hide Round28, Close;
    ScaleIsClose(x, exact, k, n);
    RoundIsClose(x * n, exact * n, k);
  }

  lemma ThirtiethIsClose(x: real, exact: real, k: nat)
    requires k <= 100 && Close(x, exact, k)
    ensures Close(DividedBy(x, 30.0), exact / 30.0, k + 1)
  {
    hide Round28, Close;
    ScaleIsClose(x, exact, k, 1.0 / 30.0);
    RoundIsClose(x / 30.0, exact / 30.0, k);
  }

  /** A month's interest on a balance. */
  ghost function MonthOn(rate: real, balance: real): real {
    rate * balance
  }

  lemma ProductIsClose(x: real, y: real)
    ensures Close(Times(x, y), MonthOn(y, x), 1)
  {
    hide Round28, Close;
    assert x * y == MonthOn(y, x);
    Itself(x * y);
    RoundIsClose(x * y, x * y, 0);
  }

  /** A thirtieth of what accrues in a month, for each of the days. */
  ghost function Accrued(month: real, days: int): real {
    month / 30.0 * days as real
  }

  lemma AccrualIsClose(x: real, month: real, days: nat)
    requires Close(x, month, 1)
    ensures Close(Times(DividedBy(x, 30.0), days as real), Accrued(month, days), 3)
  {
    hide Round28;
    ThirtiethIsClose(x, month, 1);
    var daily := month / 30.0;
    TimesIsClose(DividedBy(x, 30.0), daily, 2, days as real);
    assert Accrued(month, days) == daily * days as real;
  }

  lemma InterestIsClose(rate: real, balance: real, from: Date, to: Date)
    requires Valid(from) && Valid(to)
    ensures Close(CalculateInterests(rate, balance, from, to), Accrued(MonthOn(rate, balance), Days360(from, to)), 3)
  {
    Days360Facts(from, to);
    hide Times, DividedBy, Close, Days360, Accrued, MonthOn;
    ProductIsClose(balance, rate);
    AccrualIsClose(Times(balance, rate), MonthOn(rate, balance), Days360(from, to));
  }
}
