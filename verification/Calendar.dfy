/** Calendar arithmetic shared by the loan, scheduler and birthday modules:
    `relativedelta`'s clamped months, real day shifts, and the 30/360 day count. */
module Calendar {

  /** A proleptic Gregorian calendar date with no time and no zone. */
  datatype Date = Date(year: int, month: int, day: int)

  predicate IsLeap(year: int) {
    (year % 4 == 0 && year % 100 != 0) || year % 400 == 0
  }

  function DaysInMonth(year: int, month: int): (n: int)
    requires 1 <= month <= 12
    ensures 28 <= n <= 31
  {
    if month == 2 then (if IsLeap(year) then 29 else 28)
    else if month in {4, 6, 9, 11} then 30
    else 31
  }

  predicate Valid(d: Date) {
    1 <= d.month <= 12 && 1 <= d.day <= DaysInMonth(d.year, d.month)
  }

  type ValidDate = d: Date | Valid(d) witness Date(1, 1, 1)

  /** Field-by-field comparison, as the source's `compare` and `comparePlainDates` do it. */
  predicate Before(a: Date, b: Date) {
    a.year < b.year || (a.year == b.year && (a.month < b.month || (a.month == b.month && a.day < b.day)))
  }

  // ---------------------------------------------------------------------
  // Day numbers
  // ---------------------------------------------------------------------

  function DaysBeforeYear(year: int): int {
    365 * (year - 1) + (year - 1) / 4 - (year - 1) / 100 + (year - 1) / 400
  }

  function DaysBeforeMonth(year: int, month: int): int
    requires 1 <= month <= 12
    decreases month
  {
    if month == 1 then 0 else DaysBeforeMonth(year, month - 1) + DaysInMonth(year, month - 1)
  }

  /** The day number of a date: consecutive dates have consecutive numbers. */
  function Ordinal(d: Date): int
    requires Valid(d)
  {
    DaysBeforeYear(d.year) + DaysBeforeMonth(d.year, d.month) + d.day
  }

  lemma YearLength(year: int)
    ensures DaysBeforeYear(year + 1) == DaysBeforeYear(year) + (if IsLeap(year) then 366 else 365)
  {
    var f := NextQuotient(year, 4);
    var c := NextQuotient(year, 100);
    var q := NextQuotient(year, 400);
    assert year + 1 - 1 == year;
    assert DaysBeforeYear(year + 1) == 365 * year + year / 4 - year / 100 + year / 400;
    DivisorsOfYears(year);
  }

  lemma DivisorsOfYears(year: int)
    ensures year % 400 == 0 ==> year % 100 == 0
    ensures year % 100 == 0 ==> year % 4 == 0
  {}

  /** Division by k steps up by one exactly at the multiples of k; `step` is that increment. */
  lemma NextQuotient(y: int, k: int) returns (step: int)
    requires k in {4, 100, 400}
    ensures step == (if y % k == 0 then 1 else 0) && y / k == (y - 1) / k + step
  {
    var q, r := (y - 1) / k, (y - 1) % k;
    assert y - 1 == k * q + r;
    if r + 1 == k {
      QuotientIs(y, k, q + 1, 0);
      step := 1;
    } else {
      QuotientIs(y, k, q, r + 1);
      step := 0;
    }
  }

  lemma CycleQuotient(y: int, k: int, m: int)
    requires (k == 4 && m == 100) || (k == 100 && m == 4) || (k == 400 && m == 1)
    ensures (y + 400) / k == y / k + m
  {
    var q, r := y / k, y % k;
    assert y == k * q + r && k * m == 400 && k * (q + m) == k * q + k * m;
    QuotientIs(y + 400, k, q + m, r);
  }

  /** The Gregorian rule by its consequences: 97 leap years in 400, none at a century unless 400 divides it. */
  lemma GregorianCycle(year: int)
    ensures DaysBeforeYear(year + 400) == DaysBeforeYear(year) + 146097 && DaysBeforeYear(1) == 0
    ensures IsLeap(year) <==> year % 4 == 0 && (year % 100 == 0 ==> year % 400 == 0)
  {
    CycleQuotient(year - 1, 4, 100);
    CycleQuotient(year - 1, 100, 4);
    CycleQuotient(year - 1, 400, 1);
    assert year + 400 - 1 == year - 1 + 400;
    DivisorsOfYears(year);
  }

  lemma QuotientIs(x: int, k: int, q: int, r: int)
    requires k in {4, 100, 400} && x == k * q + r && 0 <= r < k
    ensures x / k == q && x % k == r
  {}

  lemma {:induction false} MonthStarts(year: int, month: int)
    requires 1 <= month <= 12
    ensures DaysBeforeMonth(year, month) ==
            [0, 31, 59, 90, 120, 151, 181, 212, 243, 273, 304, 334][month - 1]
            + (if month > 2 && IsLeap(year) then 1 else 0)
  {
    if month > 1 { MonthStarts(year, month - 1); }
  }

  lemma {:induction false} YearsMonotone(a: int, b: int)
    requires a <= b
    ensures DaysBeforeYear(a) + 365 * (b - a) <= DaysBeforeYear(b)
    decreases b - a
  {
    if a < b {
      YearsMonotone(a, b - 1);
      YearLength(b - 1);
    }
  }

  lemma DayOfYearInRange(d: Date)
    requires Valid(d)
    ensures 1 <= DaysBeforeMonth(d.year, d.month) + d.day <= (if IsLeap(d.year) then 366 else 365)
  {
    MonthStarts(d.year, d.month);
  }

  /** Day numbers order dates exactly as the field-by-field comparison does. */
  lemma OrdinalOrders(a: Date, b: Date)
    requires Valid(a) && Valid(b)
    ensures Before(a, b) <==> Ordinal(a) < Ordinal(b)
    ensures a == b <==> Ordinal(a) == Ordinal(b)
  {
    if Before(a, b) { BeforeMeansSmaller(a, b); }
    if Before(b, a) { BeforeMeansSmaller(b, a); }
  }

  lemma BeforeMeansSmaller(a: Date, b: Date)
    requires Valid(a) && Valid(b) && Before(a, b)
    ensures Ordinal(a) < Ordinal(b)
  {
    hide DaysBeforeYear, IsLeap, DaysBeforeMonth;
    if a.year < b.year {
      DayOfYearInRange(a);
      DayOfYearInRange(b);
      YearLength(a.year);
      YearsMonotone(a.year + 1, b.year);
    } else if a.month < b.month {
      MonthsMonotone(a.year, a.month, b.month);
    }
  }

  lemma {:induction false} MonthsMonotone(year: int, m: int, n: int)
    requires 1 <= m < n <= 12
    ensures DaysBeforeMonth(year, m) + DaysInMonth(year, m) <= DaysBeforeMonth(year, n)
    decreases n
  {
    if m < n - 1 { MonthsMonotone(year, m, n - 1); }
  }

  // ---------------------------------------------------------------------
  // relativedelta
  // ---------------------------------------------------------------------

  /** `date + relativedelta(months=k)`: the day is clamped to the month, never rolled over. */
  function AddMonths(d: Date, k: int): (r: Date)
    requires Valid(d)
    ensures Valid(r)
  {
    var total := d.year * 12 + (d.month - 1) + k;
    var year := total / 12;
    var month := total % 12 + 1;
    var last := DaysInMonth(year, month);
    Date(year, month, if last < d.day then last else d.day)
  }

  function NextDay(d: Date): (r: Date)
    requires Valid(d)
    ensures Valid(r)
  {
    if d.day < DaysInMonth(d.year, d.month) then Date(d.year, d.month, d.day + 1)
    else if d.month < 12 then Date(d.year, d.month + 1, 1)
    else Date(d.year + 1, 1, 1)
  }

  function PreviousDay(d: Date): (r: Date)
    requires Valid(d)
    ensures Valid(r)
  {
    if d.day > 1 then Date(d.year, d.month, d.day - 1)
    else if d.month > 1 then Date(d.year, d.month - 1, DaysInMonth(d.year, d.month - 1))
    else Date(d.year - 1, 12, 31)
  }

  /** `date + timedelta(days=n)`, in either direction. */
  function AddDays(d: Date, n: int): (r: Date)
    requires Valid(d)
    ensures Valid(r)
    decreases if n < 0 then -n else n
  {
    if n == 0 then d
    else if n > 0 then AddDays(NextDay(d), n - 1)
    else AddDays(PreviousDay(d), n + 1)
  }

  lemma NextDayOrdinal(d: Date)
    requires Valid(d)
    ensures Ordinal(NextDay(d)) == Ordinal(d) + 1
  {
    MonthStarts(d.year, d.month);
    YearLength(d.year);
    MonthStarts(d.year, if d.month < 12 then d.month + 1 else 1);
    MonthStarts(d.year + 1, 1);
  }

  lemma PreviousDayOrdinal(d: Date)
    requires Valid(d)
    ensures Ordinal(PreviousDay(d)) == Ordinal(d) - 1
  {
    MonthStarts(d.year, d.month);
    YearLength(d.year - 1);
    MonthStarts(d.year, if d.month > 1 then d.month - 1 else 1);
    MonthStarts(d.year - 1, 12);
  }

  /** A day shift moves the day number by exactly that many days. */
  lemma {:induction false} AddDaysOrdinal(d: Date, n: int)
    requires Valid(d)
    ensures Ordinal(AddDays(d, n)) == Ordinal(d) + n
    decreases if n < 0 then -n else n
  {
    if n > 0 {
      NextDayOrdinal(d);
      AddDaysOrdinal(NextDay(d), n - 1);
    } else if n < 0 {
      PreviousDayOrdinal(d);
      AddDaysOrdinal(PreviousDay(d), n + 1);
    }
  }

  /** Later month counts from one anchor give strictly later dates, whatever the clamping does. */
  lemma AddMonthsMonotone(d: Date, j: int, k: int)
    requires Valid(d) && j < k
    ensures Before(AddMonths(d, j), AddMonths(d, k))
  {}

  /** The month moves by exactly k; the day is kept, or is the last of a month too short for it. */
  lemma AddMonthsExactly(d: Date, k: int)
    requires Valid(d)
    ensures var r := AddMonths(d, k);
            && r.year * 12 + r.month == d.year * 12 + d.month + k
            && r.day <= d.day && (r.day < d.day ==> r.day == DaysInMonth(r.year, r.month))
            && (d.day <= 28 ==> r.day == d.day)
  {}

  lemma AddNoMonths(d: Date)
    requires Valid(d)
    ensures AddMonths(d, 0) == d
  {}

  // ---------------------------------------------------------------------
  // 30/360
  // ---------------------------------------------------------------------

  predicate IsLastDay(d: Date)
    requires Valid(d)
  {
    d.day == DaysInMonth(d.year, d.month)
  }

  /** The US (NASD) 30/360 day count; a reversed pair is swapped. */
  function Days360(from: Date, to: Date): int
    requires Valid(from) && Valid(to)
  {
    if from == to then 0
    else if Before(to, from) then Span360(to, from)
    else Span360(from, to)
  }

  function Span360(start: Date, end: Date): int
    requires Valid(start) && Valid(end)
  {
    var startDay := if IsLastDay(start) then 30 else start.day;
    var endDay := if startDay == 30 && end.day == 31 then 30 else end.day;
    (end.year - start.year) * 360 + (end.month - start.month) * 30 + (endDay - startDay)
  }

  /** The count is symmetric and never negative, and it is zero only for equal dates and for the
      30th and 31st of one month. */
  lemma Days360Facts(from: Date, to: Date)
    requires Valid(from) && Valid(to)
    ensures Days360(from, to) == Days360(to, from) >= 0
    ensures Days360(from, to) == 0 <==>
            from == to || (from.year == to.year && from.month == to.month && {from.day, to.day} == {30, 31})
  {}

  // What the count is, said by how it moves: its value at the first of the next month, and what one day
  // more and one month more add to it.

  function FirstOfNextMonth(d: Date): (r: Date)
    requires Valid(d)
    ensures Valid(r)
  {
    if d.month == 12 then Date(d.year + 1, 1, 1) else Date(d.year, d.month + 1, 1)
  }

  /** A month has 30 days: from day d there are 31 - d to the next first, and one from a last day. */
  lemma Days360ToTheFirst(from: Date)
    requires Valid(from)
    ensures Days360(from, from) == 0
    ensures Days360(from, FirstOfNextMonth(from)) == if from.day == DaysInMonth(from.year, from.month) then 1 else 31 - from.day
  {}

  /** Within a month each day counts one, but for a 31st when the count starts on a 30th or a last day. */
  lemma Days360NextDay(from: Date, to: Date)
    requires Valid(from) && Valid(to) && !Before(to, from) && to.day < DaysInMonth(to.year, to.month)
    ensures Days360(from, Date(to.year, to.month, to.day + 1)) ==
            Days360(from, to)
            + if to.day == 30 && (from.day == 30 || from.day == DaysInMonth(from.year, from.month)) then 0 else 1
  {}

  lemma Days360NextMonth(from: Date, to: Date)
    requires Valid(from) && Valid(to) && Before(from, to) && to.day <= 28
    ensures Days360(from, AddMonths(to, 1)) == Days360(from, to) + 30
  {}

  /** Whole months from a day every month has count 30 each. */
  lemma Days360WholeMonths(d: Date, k: nat)
    requires Valid(d) && d.day <= 27
    ensures Days360(d, AddMonths(d, k)) == 30 * k
  {
    AddMonthsExactly(d, k);
  }
}
