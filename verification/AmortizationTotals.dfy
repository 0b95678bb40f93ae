/** What the amortisation table's figures come to: the interest of whole months, the first instalment, and
    the total of a schedule in closed form (`src/loans/amortization.ts`). */
module AmortizationTotals {
  import opened Calendar
  import opened Decimal28
  import opened Amortization

  // ---------------------------------------------------------------------
  // Whole months
  // ---------------------------------------------------------------------

  /** k months of interest: k times the monthly rate of the balance. */
  ghost function Months(rate: real, balance: real, k: int): real {
    balance * rate * k as real
  }

  lemma ThirtyDays(rate: real, balance: real, k: nat)
    ensures Accrued(MonthOn(rate, balance), 30 * k) == Months(rate, balance, k)
  {}

  lemma WholeMonths(rate: real, balance: real, d: Date, k: nat)
    requires Valid(d) && d.day <= 27
    ensures Close(CalculateInterests(rate, balance, d, AddMonths(d, k)), Months(rate, balance, k), 3)
  {
    hide CalculateInterests, Days360, AddMonths, Accrued, Months, Close, MonthOn;
    Days360WholeMonths(d, k);
    InterestIsClose(rate, balance, d, AddMonths(d, k));
    ThirtyDays(rate, balance, k);
  }

  /** From a day every month has, k months of interest are k times the rate of the balance. */
  lemma WholeMonthsInterest(rate: real, balance: real, d: Date, k: nat)
    requires Valid(d) && d.day <= 27
    ensures var exact := balance * rate * k as real;
            Abs(CalculateInterests(rate, balance, d, AddMonths(d, k)) - exact) <= 3.0 * EPSILON * Abs(exact)
  {
    hide CalculateInterests, AddMonths;
    WholeMonths(rate, balance, d, k);
  }

  lemma MonthsAdd(d: Date, j: nat, k: nat)
    requires Valid(d) && d.day <= 28
    ensures AddMonths(AddMonths(d, j), k) == AddMonths(d, j + k)
  {}

  /** The months one instalment spans. */
  function Span(loan: Loan): int {
    if loan.fee == 0 then 1 else loan.timelimit
  }

  lemma RowInterestIsClose(loan: Loan, i: nat)
    requires 1 <= i <= Instalments(loan) && Span(loan) >= 1 && Valid(loan.disbursement) && loan.disbursement.day <= 27
    ensures Close(Interest(loan, i), Months(loan.rate, Balance(loan, i - 1), Span(loan)), 3)
  {
    hide CalculateInterests, Balance, AddMonths, Close, Months;
    var from := DueDate(loan, i - 1);
    AddNoMonths(loan.disbursement);
    AddMonthsExactly(loan.disbursement, i - 1);
    if loan.fee == 0 { MonthsAdd(loan.disbursement, i - 1, 1); }
    assert DueDate(loan, i) == AddMonths(from, Span(loan));
    WholeMonths(loan.rate, Balance(loan, i - 1), from, Span(loan));
  }

  // ---------------------------------------------------------------------
  // The first instalment
  // ---------------------------------------------------------------------

  lemma SumIsClose(x: real, x0: real, y: real, y0: real)
    requires Close(x, x0, 3) && Close(y, y0, 3) && x0 >= 0.0 && y0 >= 0.0
    ensures Close(x + y, x0 + y0, 3)
  {}

  lemma CloseEnough(x: real, x0: real)
    requires Close(x, x0, 1)
    ensures Close(x, x0, 3)
  {}

  lemma PaymentIsClose(share: real, x: real, months: real)
    requires Close(x, months, 3) && share >= 0.0 && months >= 0.0
    ensures Close(Plus(Round28(share), x), share + months, 4)
  {
    hide Round28, Close;
    Itself(share);
    RoundIsClose(share, share, 0);
    CloseEnough(Round28(share), share);
    SumIsClose(Round28(share), share, x, months);
    RoundIsClose(Round28(share) + x, share + months, 3);
  }

  lemma MonthsSign(rate: real, balance: real, k: int)
    requires rate >= 0.0 && balance >= 0.0 && k >= 0
    ensures Months(rate, balance, k) >= 0.0
  {
    ProductSign(balance, rate);
    ProductSign(balance * rate, k as real);
  }

  lemma ShareSign(loan: Loan, D: nat)
    requires Repayable(loan, D)
    ensures Share(loan) >= 0.0 && loan.value as real >= 0.0
  {
    hide Pow10, Share;
    Pow10Step(D - 1);
    ShareFacts(loan, D);
    MultipleMonotone(0, Instalments(loan), Unit(D));
  }

  lemma FirstRowIsClose(loan: Loan, D: nat)
    requires Repayable(loan, D) && Span(loan) >= 1 && loan.disbursement.day <= 27
    ensures var months := Months(loan.rate, loan.value as real, Span(loan));
            && months >= 0.0 && Share(loan) >= 0.0
            && Close(Interest(loan, 1), months, 3) && Close(RowAt(loan, 1).payment, Share(loan) + months, 4)
  {
    hide Close, Months, Interest, Round28, Pow10, DueDate, Share;
    ShareSign(loan, D);
    RowInterestIsClose(loan, 1);
    MonthsSign(loan.rate, loan.value as real, Span(loan));
    assert Balance(loan, 0) == loan.value as real;
    assert Constant(loan) == Round28(Share(loan)) by { ConstantIsRounded(loan); }
    PaymentIsClose(Share(loan), Interest(loan, 1), Months(loan.rate, loan.value as real, Span(loan)));
  }

  lemma ConstantIsRounded(loan: Loan)
    requires Instalments(loan) >= 1
    ensures Constant(loan) == Round28(Share(loan))
  {
    hide Round28;
  }

  lemma SingleTotalIsClose(loan: Loan, D: nat)
    requires Repayable(loan, D) && Span(loan) >= 1 && loan.disbursement.day <= 27
    ensures Close(TotalPaid(loan, 1), Share(loan) + Months(loan.rate, loan.value as real, Span(loan)), 5)
  {
    hide Close, Months, Interest, Round28, Pow10, DueDate, Share, RowAt;
    FirstRowIsClose(loan, D);
    RoundIsClose(RowAt(loan, 1).payment, Share(loan) + Months(loan.rate, loan.value as real, Span(loan)), 4);
    assert TotalPaid(loan, 1) == Round28(RowAt(loan, 1).payment) by { OnePayment(loan); }
  }

  lemma OnePayment(loan: Loan)
    requires Instalments(loan) >= 1 && Valid(loan.disbursement)
    ensures TotalPaid(loan, 1) == Round28(RowAt(loan, 1).payment)
  {
    hide Round28, RowAt;
    assert TotalPaid(loan, 0) == 0.0;
  }

  lemma WithinParts(x: real, exact: real, k: nat)
    requires Close(x, exact, k) && exact >= 0.0
    ensures Abs(x - exact) <= k as real * EPSILON * exact
  {}

  /** The first instalment of a loan disbursed on a day every month has: its interest is the rate of the
      value for each month it spans, and its payment that and an equal share of the value. */
  lemma FirstInstalment(loan: Loan, D: nat)
    requires Repayable(loan, D) && (loan.fee != 0 ==> loan.timelimit >= 1) && loan.disbursement.day <= 27
    ensures var months := Months(loan.rate, loan.value as real, if loan.fee == 0 then 1 else loan.timelimit);
            && Abs(Interest(loan, 1) - months) <= 3.0 * EPSILON * months
            && Abs(RowAt(loan, 1).payment - (Share(loan) + months)) <= 4.0 * EPSILON * (Share(loan) + months)
  {
    hide Interest, Round28, Pow10, DueDate, RowAt, Months, Share, Close;
    FirstRowIsClose(loan, D);
    var months := Months(loan.rate, loan.value as real, Span(loan));
    WithinParts(Interest(loan, 1), months, 3);
    WithinParts(RowAt(loan, 1).payment, Share(loan) + months, 4);
  }

  /** A loan paid back at once pays its value and the interest of all its months together. */
  lemma SingleTotal(loan: Loan, D: nat)
    requires Repayable(loan, D) && loan.fee != 0 && loan.timelimit >= 1 && loan.disbursement.day <= 27
    ensures var exact := loan.value as real + Months(loan.rate, loan.value as real, loan.timelimit);
            Abs(TotalPaid(loan, 1) - exact) <= 5.0 * EPSILON * exact
  {
    hide Interest, Round28, Pow10, DueDate, RowAt, Months, Close, TotalPaid;
    FirstRowIsClose(loan, D);
    SingleTotalIsClose(loan, D);
    var exact := Share(loan) + Months(loan.rate, loan.value as real, loan.timelimit);
    assert Share(loan) == loan.value as real;
    WithinParts(TotalPaid(loan, 1), exact, 5);
  }

  /** Each instalment is due a whole number of months after the disbursement: its own number of a monthly
      schedule, the term of a single payment. */
  lemma DueDatesExactly(loan: Loan, i: nat)
    requires 1 <= i && Valid(loan.disbursement)
    ensures var d, due := loan.disbursement, DueDate(loan, i);
            && due.year * 12 + due.month == d.year * 12 + d.month + (if loan.fee == 0 then i else loan.timelimit)
            && due.day <= d.day && (due.day < d.day ==> due.day == DaysInMonth(due.year, due.month))
  {
    AddMonthsExactly(loan.disbursement, if loan.fee == 0 then i else loan.timelimit);
  }

  /** A positive value has some number of digits. */
  lemma {:induction false} DigitsOf(value: int, D: nat) returns (digits: nat)
    requires value >= 1 && D >= 1 && Pow10(D - 1) <= value as real
    ensures digits >= 1 && Pow10(digits - 1) <= value as real < Pow10(digits)
    decreases value - D
  {
    hide Pow10;
    if value as real < Pow10(D) { digits := D; } else {
      PowerAbove(D);
      digits := DigitsOf(value, D + 1);
    }
  }

  lemma {:induction false} PowerAbove(k: nat)
    ensures Pow10(k) > k as real
  {
    if k > 0 { PowerAbove(k - 1); }
  }

  // ---------------------------------------------------------------------
  // Multiples
  // ---------------------------------------------------------------------

  lemma {:induction false} MultiplesAdd(j: nat, k: nat, sum: nat, u: real)
    requires sum == j + k
    ensures Multiple(j, u) + Multiple(k, u) == Multiple(sum, u)
  {
    if k > 0 { MultiplesAdd(j, k - 1, sum - 1, u); }
  }

  lemma {:induction false} MultipleOfSum(k: nat, u: real, w: real, sum: real)
    requires sum == u + w
    ensures Multiple(k, sum) == Multiple(k, u) + Multiple(k, w)
  {
    if k > 0 { MultipleOfSum(k - 1, u, w, sum); }
  }

  lemma {:induction false} MultipleOfMultiple(k: nat, m: nat, product: nat, u: real)
    requires product == k * m
    ensures Multiple(k, Multiple(m, u)) == Multiple(product, u)
  {
    if k > 0 {
      assert product - m == (k - 1) * m;
      MultipleOfMultiple(k - 1, m, product - m, u);
      MultiplesAdd(product - m, m, product, u);
    }
  }

  lemma {:induction false} MultipleOfMore(k: nat, u: real, w: real)
    requires u <= w
    ensures Multiple(k, u) <= Multiple(k, w)
  {
    if k > 0 { MultipleOfMore(k - 1, u, w); }
  }

  lemma {:induction false} MultipleScales(rate: real, k: nat, u: real)
    ensures MonthOn(rate, Multiple(k, u)) == Multiple(k, MonthOn(rate, u))
  {
    if k == 0 {
    } else {
      MultipleScales(rate, k - 1, u);
      hide MonthOn;
      SumScales(rate, Multiple(k - 1, u), u);
    }
  }

  lemma {:induction false} SmallMultiple(k: nat, u: real)
    ensures EPSILON * Multiple(k, u) == Multiple(k, EPSILON * u)
  {
    if k > 0 { SmallMultiple(k - 1, u); }
  }

  lemma SumScales(rate: real, x: real, y: real)
    ensures MonthOn(rate, x + y) == MonthOn(rate, x) + MonthOn(rate, y)
  {}

  /** k parts in 10^27 of x. */
  ghost function Parts(k: nat, x: real): real {
    Multiple(k, EPSILON * x)
  }

  lemma PartsOfMultiple(k: nat, m: nat, product: nat, x: real)
    requires product == k * m
    ensures Parts(k, Multiple(m, x)) == Parts(product, x)
  {
    SmallMultiple(m, x);
    MultipleOfMultiple(k, m, product, EPSILON * x);
  }

  lemma PartsOfSum(k: nat, x: real, y: real)
    ensures Parts(k, x) + Parts(k, y) == Parts(k, x + y)
  {
    MultipleOfSum(k, EPSILON * x, EPSILON * y, EPSILON * (x + y));
  }

  lemma PartsGrow(j: nat, k: nat, x: real, y: real)
    requires j <= k && 0.0 <= x <= y
    ensures 0.0 <= Parts(j, x) <= Parts(k, y)
  {
    MultipleMonotone(j, k, EPSILON * x);
    MultipleOfMore(k, EPSILON * x, EPSILON * y);
  }

  lemma PartsAreFew(k: nat, x: real)
    requires k <= 2_000_000_000 && x >= 0.0
    ensures 0.0 <= Parts(k, x) <= x / 2.0
  {
    MultipleMonotone(k, 2_000_000_000, EPSILON * x);
    MultipleIsProduct(2_000_000_000, EPSILON * x);
  }

  lemma PartsScale(rate: real, k: nat, x: real)
    ensures MonthOn(rate, Parts(k, x)) == Parts(k, MonthOn(rate, x))
  {
    MultipleScales(rate, k, EPSILON * x);
    hide MonthOn;
    Commutes(rate, x);
  }

  lemma Commutes(rate: real, x: real)
    ensures MonthOn(rate, EPSILON * x) == EPSILON * MonthOn(rate, x)
  {}

  // ---------------------------------------------------------------------
  // The total of a monthly schedule
  // ---------------------------------------------------------------------

  /** The interest of row i if the balance were an exact number of shares. */
  ghost function Level(loan: Loan, i: nat): real
    requires 1 <= i <= Instalments(loan)
  {
    MonthOn(loan.rate, Multiple(Instalments(loan) - i + 1, Share(loan)))
  }

  ghost function LevelSum(loan: Loan, i: nat): real
    requires i <= Instalments(loan) && Instalments(loan) >= 1
  {
    if i == 0 then 0.0 else LevelSum(loan, i - 1) + Level(loan, i)
  }

  /** A month's interest on the whole value. */
  ghost function Month(loan: Loan): real {
    MonthOn(loan.rate, loan.value as real)
  }

  /** A month on a balance that has drifted from its level. */
  lemma DriftedMonth(rate: real, balance: real, level: real, drift: real)
    requires rate >= 0.0 && Abs(balance - level) <= drift
    ensures Abs(MonthOn(rate, balance) - MonthOn(rate, level)) <= MonthOn(rate, drift)
  {
    ProductMonotone(-drift, balance - level, rate);
    ProductMonotone(balance - level, drift, rate);
  }

  lemma MonthGrows(rate: real, balance: real, value: real)
    requires rate >= 0.0 && balance <= 2.0 * value
    ensures MonthOn(rate, balance) <= 2.0 * MonthOn(rate, value)
  {
    ProductMonotone(balance, 2.0 * value, rate);
  }

  lemma UnitIsSmall(loan: Loan, D: nat, k: nat)
    requires Repayable(loan, D) && k <= Instalments(loan)
    ensures Multiple(k, Unit(D)) <= Parts(Instalments(loan), loan.value as real)
  {
    hide Pow10;
    UnitScale(D);
    var n, u, v := Instalments(loan), Unit(D), loan.value as real;
    MultipleMonotone(k, n, u);
    MultipleOfMore(n, u, EPSILON * v);
  }

  lemma BalanceDrift(loan: Loan, D: nat, i: nat)
    requires Repayable(loan, D) && 1 <= i <= Instalments(loan)
    ensures var level := Multiple(Instalments(loan) - i + 1, Share(loan));
            Abs(Balance(loan, i - 1) - level) <= Parts(Instalments(loan), loan.value as real) && level <= loan.value as real
    ensures Balance(loan, i - 1) >= 0.0
  {
    hide Round28, Pow10, Share, DueDate, Parts, Abs, Interest;
    var n, q := Instalments(loan), Share(loan);
    RowFacts(loan, D, i);
    BalanceError(loan, D, i - 1);
    UnitIsSmall(loan, D, i - 1);
    ShareSign(loan, D);
    ShareFacts(loan, D);
    MultipleMonotone(n - i + 1, n, q);
  }

  /** A month of interest on a balance, rounded, against the same on the balance's level. */
  lemma NearLevel(interest: real, rate: real, balance: real, level: real, value: real, n: nat)
    requires rate >= 0.0 && value >= 0.0 && 1 <= n <= 32767
    requires Abs(balance - level) <= Parts(n, value) && level <= value
    requires Abs(interest - MonthOn(rate, balance)) <= 3.0 * EPSILON * MonthOn(rate, balance)
    ensures Abs(interest - MonthOn(rate, level)) <= Parts(n + 6, MonthOn(rate, value))
  {
    hide Parts, MonthOn;
    PartsAreFew(n, value);
    DriftedMonth(rate, balance, level, Parts(n, value));
    PartsScale(rate, n, value);
    MonthGrows(rate, balance, value);
    SixParts(n, MonthOn(rate, value));
  }

  lemma SixParts(n: nat, g: real)
    ensures Parts(n + 6, g) == Parts(n, g) + 6.0 * EPSILON * g
  {
    MultiplesAdd(n, 6, n + 6, EPSILON * g);
    MultipleIsProduct(6, EPSILON * g);
  }

  lemma OneMonth(interest: real, rate: real, balance: real)
    requires Close(interest, Months(rate, balance, 1), 3) && rate >= 0.0 && balance >= 0.0
    ensures Abs(interest - MonthOn(rate, balance)) <= 3.0 * EPSILON * MonthOn(rate, balance)
  {
    ProductSign(balance, rate);
    assert Months(rate, balance, 1) == MonthOn(rate, balance);
  }

  lemma LevelOf(loan: Loan, i: nat)
    requires 1 <= i <= Instalments(loan)
    ensures Level(loan, i) == MonthOn(loan.rate, Multiple(Instalments(loan) - i + 1, Share(loan)))
  {}

  lemma RowNearLevel(loan: Loan, D: nat, i: nat)
    requires Repayable(loan, D) && loan.fee == 0 && 1 <= i <= Instalments(loan) && loan.disbursement.day <= 27
    ensures Abs(Interest(loan, i) - Level(loan, i)) <= Parts(Instalments(loan) + 6, Month(loan))
  {
    hide Round28, Pow10, Interest, Share, Close, DueDate, Parts, Abs, Balance, Months, Multiple, Level, MonthOn;
    var n, v, b := Instalments(loan), loan.value as real, Balance(loan, i - 1);
    RowInterestIsClose(loan, i);
    BalanceDrift(loan, D, i);
    ShareSign(loan, D);
    OneMonth(Interest(loan, i), loan.rate, b);
    LevelOf(loan, i);
    NearLevel(Interest(loan, i), loan.rate, b, Multiple(n - i + 1, Share(loan)), v, n);
  }

  lemma {:induction false} InterestsNearLevels(loan: Loan, D: nat, i: nat)
    requires Repayable(loan, D) && loan.fee == 0 && i <= Instalments(loan) && loan.disbursement.day <= 27
    ensures Abs(InterestSum(loan, i) - LevelSum(loan, i)) <= Multiple(i, Parts(Instalments(loan) + 6, Month(loan)))
  {
    hide Interest, Level, Parts, Pow10;
    if i > 0 {
      InterestsNearLevels(loan, D, i - 1);
      RowNearLevel(loan, D, i);
    }
  }

  lemma TriangleStep(a: nat, b: nat, c: nat, g: real)
    requires c == a + b + b
    ensures Multiple(a, g) + 2.0 * Multiple(b, g) == Multiple(c, g)
  {
    MultiplesAdd(a, b, a + b, g);
    MultiplesAdd(a + b, b, c, g);
  }

  /** The levels fall by one share's interest a row: a triangular sum. */
  lemma {:induction false} LevelsAddUp(loan: Loan, i: nat, rows: nat)
    requires 1 <= Instalments(loan) && i <= Instalments(loan) && rows == i * (2 * Instalments(loan) - i + 1)
    ensures 2.0 * LevelSum(loan, i) == Multiple(rows, MonthOn(loan.rate, Share(loan)))
  {
    var n := Instalments(loan);
    if i > 0 {
      hide Share, Level, Multiple, MonthOn;
      var before, owed := (i - 1) * (2 * n - (i - 1) + 1), n - i + 1;
      assert rows == before + owed + owed;
      LevelsAddUp(loan, i - 1, before);
      LevelOf(loan, i);
      MultipleScales(loan.rate, owed, Share(loan));
      TriangleStep(before, owed, rows, MonthOn(loan.rate, Share(loan)));
    }
  }

  lemma FullTriangle(loan: Loan)
    requires Instalments(loan) >= 1
    ensures 2.0 * LevelSum(loan, Instalments(loan)) == Multiple(Instalments(loan) + 1, Month(loan))
  {
    hide LevelSum, Share, Multiple, MonthOn;
    var n := Instalments(loan);
    var rows := n * (n + 1);
    LevelsAddUp(loan, n, rows);
    MultipleOfMultiple(n + 1, n, rows, MonthOn(loan.rate, Share(loan)));
    MultipleScales(loan.rate, n, Share(loan));
    SharesAreValue(loan);
  }

  lemma SharesAreValue(loan: Loan)
    requires Instalments(loan) >= 1
    ensures Multiple(Instalments(loan), Share(loan)) == loan.value as real
  {
    MultipleIsProduct(Instalments(loan), Share(loan));
    SharesMakeValue(loan.value as real, Instalments(loan) as real);
  }

  // ---------------------------------------------------------------------
  // The errors together
  // ---------------------------------------------------------------------

  /** Principal, interest and total each near what they should be: the total is near their sum. */
  lemma TotalIsNear(v: real, g: real, n: nat, principal: real, interest: real, total: real, level: real)
    requires v >= 0.0 && g >= 0.0 && 1 <= n <= 32767 && 2.0 * level == Multiple(n + 1, g)
    requires Abs(principal - v) <= Parts(n, v) && Abs(interest - level) <= Parts(InterestSlack(n), g)
    requires Abs(total - (principal + interest)) <= Parts(n + 1, principal + interest) && principal + interest >= 0.0
    ensures Abs(total - (v + level)) <= Parts(3 * (n + 2) * (n + 2), v + g)
  {
    hide Parts, Multiple;
    var k := 3 * (n + 2) * (n + 2);
    Counts(n);
    PartsAreFew(n, v);
    PartsAreFew(n * (n + 6), g);
    AtLeastOne(n + 1, g);
    var most := Multiple(2, v) + Multiple(n + 1, g);
    Twice(v);
    PartsGrow(n + 1, n + 1, principal + interest, most);
    PartsOfSum(n + 1, Multiple(2, v), Multiple(n + 1, g));
    var a, b := (n + 1) * 2 + n, (n + 1) * (n + 1) + n * (n + 6);
    PartsOfMultiple(n + 1, 2, (n + 1) * 2, v);
    PartsOfMultiple(n + 1, n + 1, (n + 1) * (n + 1), g);
    PartsAdd((n + 1) * 2, n, a, v);
    PartsAdd((n + 1) * (n + 1), n * (n + 6), b, g);
    PartsGrow(a, k, v, v);
    PartsGrow(b, k, g, g);
    PartsOfSum(k, v, g);
  }

  lemma PartsAdd(j: nat, k: nat, sum: nat, x: real)
    requires sum == j + k
    ensures Parts(j, x) + Parts(k, x) == Parts(sum, x)
  {
    MultiplesAdd(j, k, sum, EPSILON * x);
  }

  lemma Twice(v: real)
    ensures Multiple(2, v) == 2.0 * v
  {
    MultipleIsProduct(2, v);
  }

  lemma AtLeastOne(k: nat, g: real)
    requires k >= 1 && g >= 0.0
    ensures Multiple(k, g) >= g
  {
    MultipleMonotone(1, k, g);
    MultipleIsProduct(1, g);
  }

  lemma Counts(n: nat)
    requires 1 <= n <= 32767
    ensures n * (n + 6) <= 2_000_000_000
    ensures (n + 1) * 2 + n <= 3 * (n + 2) * (n + 2)
    ensures (n + 1) * (n + 1) + n * (n + 6) <= 3 * (n + 2) * (n + 2)
  {
    assert n * (n + 6) <= 32767 * (n + 6);
  }

  /** What the instalments repay of the value, rounding included. */
  ghost function Principal(loan: Loan): real
    requires Instalments(loan) >= 1
  {
    Instalments(loan) as real * Constant(loan)
  }

  /** n half units. */
  ghost function Halves(n: nat, u: real): real {
    n as real * (u / 2.0)
  }

  lemma HalfUnits(n: nat, u: real)
    requires u >= 0.0
    ensures Halves(n, u) <= Multiple(n, u)
  {
    MultipleIsProduct(n, u);
  }

  lemma PrincipalBound(loan: Loan, D: nat)
    requires Repayable(loan, D)
    ensures Abs(Principal(loan) - loan.value as real) <= Halves(Instalments(loan), Unit(D))
  {
    hide Round28, Pow10, Constant;
    PrincipalError(loan, D);
  }

  lemma PrincipalIsNear(loan: Loan, D: nat)
    requires Repayable(loan, D)
    ensures Abs(Principal(loan) - loan.value as real) <= Parts(Instalments(loan), loan.value as real)
  {
    hide Pow10, Abs, Parts, Multiple, Principal, Halves;
    var n, u := Instalments(loan), Unit(D);
    PrincipalBound(loan, D);
    UnitIsSmall(loan, D, n);
    UnitScale(D);
    HalfUnits(n, u);
  }

  function InterestSlack(n: nat): nat {
    n * (n + 6)
  }

  lemma InterestIsNear(loan: Loan, D: nat)
    requires Repayable(loan, D) && loan.fee == 0 && loan.disbursement.day <= 27
    ensures var n := Instalments(loan);
            Abs(InterestSum(loan, n) - LevelSum(loan, n)) <= Parts(InterestSlack(n), Month(loan))
  {
    hide InterestSum, LevelSum, Abs, Multiple, Month, Parts, Repayable, InterestSlack;
    MonthSign(loan, D);
    InterestsNearLevels(loan, D, Instalments(loan));
    RowsOfParts(Instalments(loan), Month(loan));
  }

  lemma RowsOfParts(n: nat, x: real)
    ensures Multiple(n, Parts(n + 6, x)) == Parts(InterestSlack(n), x)
  {
    MultipleOfMultiple(n, n + 6, InterestSlack(n), EPSILON * x);
  }

  lemma ExactIsPrincipalAndInterest(loan: Loan)
    requires Instalments(loan) >= 1 && Valid(loan.disbursement)
    ensures ExactPaid(loan, Instalments(loan)) == Principal(loan) + InterestSum(loan, Instalments(loan))
  {
    hide Constant, Interest;
    ExactPaidSplits(loan, Instalments(loan));
  }

  lemma SlipIsParts(total: real, paid: real, exact: real, k: nat)
    requires paid == exact && Abs(total - paid) <= Slip(k, paid)
    ensures Abs(total - exact) <= Parts(k, exact)
  {
    MultipleIsProduct(k, EPSILON * exact);
    assert Slip(k, exact) == k as real * (EPSILON * exact);
  }

  lemma PaidIsNear(loan: Loan, D: nat)
    requires Repayable(loan, D)
    ensures var n := Instalments(loan);
            var exact := Principal(loan) + InterestSum(loan, n);
            exact >= 0.0 && Abs(TotalPaid(loan, n) - exact) <= Parts(n + 1, exact)
  {
    hide Pow10, Principal, Abs, Slip, Parts, TotalPaid, ExactPaid, InterestSum;
    var n := Instalments(loan);
    ExactIsPrincipalAndInterest(loan);
    TotalError(loan, D, n);
    SlipIsParts(TotalPaid(loan, n), ExactPaid(loan, n), Principal(loan) + InterestSum(loan, n), n + 1);
  }

  /** The value, and on it the monthly interest for half of one instalment more than there are. */
  ghost function Scheduled(value: real, month: real, n: nat): real {
    value + month * (n + 1) as real / 2.0
  }

  lemma LevelIsScheduled(value: real, month: real, n: nat, level: real)
    requires 2.0 * level == Multiple(n + 1, month)
    ensures value + level == Scheduled(value, month, n)
  {
    MultipleIsProduct(n + 1, month);
  }

  /** How many parts in 10^27 a total of n instalments may be off by. */
  function Slack(n: nat): nat {
    3 * (n + 2) * (n + 2)
  }

  lemma MonthSign(loan: Loan, D: nat)
    requires Repayable(loan, D)
    ensures Month(loan) >= 0.0 && loan.value as real >= 0.0 && 1 <= Instalments(loan) <= 32767 && Valid(loan.disbursement)
  {
    hide Pow10, Share;
    ShareSign(loan, D);
    ProductSign(loan.rate, loan.value as real);
  }

  /** A monthly loan disbursed on a day every month has pays back its value, and on it the monthly rate for
      half of one instalment more than there are, to 3 (n + 2)^2 parts in 10^27. */
  lemma MonthlyTotal(loan: Loan, D: nat)
    requires Repayable(loan, D) && loan.fee == 0 && loan.disbursement.day <= 27
    ensures var n, v := loan.timelimit, loan.value as real;
            Abs(TotalPaid(loan, n) - Scheduled(v, Month(loan), n)) <= Parts(Slack(n), v + Month(loan))
  {
    hide Principal, Month, Parts, TotalPaid, LevelSum, InterestSum, Multiple, Scheduled, Repayable;
    MonthSign(loan, D);
    var n, v := Instalments(loan), loan.value as real;
    PrincipalIsNear(loan, D);
    InterestIsNear(loan, D);
    FullTriangle(loan);
    PaidIsNear(loan, D);
    TotalIsNear(v, Month(loan), n, Principal(loan), InterestSum(loan, n), TotalPaid(loan, n), LevelSum(loan, n));
    LevelIsScheduled(v, Month(loan), n, LevelSum(loan, n));
  }

  /** Every row of a monthly loan, column by column: it opens where the one before it closed, pays a share of the
      value and the monthly rate of what is owed, and the balance falls by a share, all up to the roundings. */
  lemma EveryRow(loan: Loan, D: nat, i: nat)
    requires Repayable(loan, D) && loan.fee == 0 && 1 <= i <= Instalments(loan) && loan.disbursement.day <= 27
    ensures var row, n, share := RowAt(loan, i), Instalments(loan), Share(loan);
            && row.number == i
            && row.opening == (if i == 1 then loan.value as real else RowAt(loan, i - 1).closing)
            && Abs(row.capital - share) <= Unit(D) / 2.0
            && Abs(row.closing - Multiple(n - i, share)) <= Multiple(i, Unit(D))
            && Abs(row.interest - Level(loan, i)) <= Parts(n + 6, Month(loan))
            && Abs(row.payment - (row.capital + row.interest)) <= EPSILON * Abs(row.capital + row.interest)
  {
    hide Round28, Pow10, Plus, Interest, DueDate, Constant, Share, Parts, Level, Month, Multiple, Repayable, Unit;
    MonthSign(loan, D);
    BalanceError(loan, D, i);
    RowNearLevel(loan, D, i);
    var row := RowAt(loan, i);
    PlusIsNear(row.capital, row.interest);
  }

  lemma PlusIsNear(x: real, y: real)
    ensures Abs(Plus(x, y) - (x + y)) <= EPSILON * Abs(x + y)
  {
    hide Round28;
    RoundStep(x + y, x + y, 0.0);
  }
}
