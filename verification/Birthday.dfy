/** When a birthday task is due (`src/users/birthday-run-date.ts`), and where its yearly clones land
    (`src/scheduler/scheduler.runner.ts`). */
module Birthday {
  import opened Calendar
  import opened SchedulerTasks

  const LAST_SCHEDULER_PASS_HOUR := 14

  /** A Bogotá wall clock reading. */
  datatype Wall = Wall(date: ValidDate, hour: nat)

  /** The anniversary in a year: 29 February falls on the 28th when there is none. */
  function BirthdayInYear(birthdate: ValidDate, year: int): ValidDate {
    if birthdate.month == 2 && birthdate.day == 29 && !IsLeap(year) then Date(year, 2, 28)
    else Date(year, birthdate.month, birthdate.day)
  }

  predicate IsAnniversary(birthdate: ValidDate, d: ValidDate) {
    d == BirthdayInYear(birthdate, d.year)
  }

  predicate Sendable(d: ValidDate, now: Wall) {
    Before(now.date, d) || (d == now.date && now.hour < 14)
  }

  /** An anniversary is the birthdate whole years on: its own day and month, but for 29 February in a year
      that has none. */
  lemma AnniversaryIsYearsOn(birthdate: ValidDate, d: ValidDate)
    ensures IsAnniversary(birthdate, d) <==> d == AddMonths(birthdate, 12 * (d.year - birthdate.year))
    ensures IsAnniversary(birthdate, d) ==>
              d.month == birthdate.month
              && d.day == if birthdate.month == 2 && birthdate.day == 29 && !IsLeap(d.year) then 28 else birthdate.day
  {}

  /** The run date is the earliest anniversary a pass can still send on its day: one to come, or today before
      the last pass at 14:00. */
  function NextBirthdayRunDate(birthdate: ValidDate, now: Wall): (r: ValidDate)
    ensures r == AddMonths(birthdate, 12 * (r.year - birthdate.year)) && r.month == birthdate.month
    ensures r.day == if birthdate.month == 2 && birthdate.day == 29 && !IsLeap(r.year) then 28 else birthdate.day
    ensures Before(now.date, r) || (r == now.date && now.hour < 14)
    ensures forall d: ValidDate :: IsAnniversary(birthdate, d) && Sendable(d, now) ==> d == r || Before(r, d)
  {
    var thisYear := BirthdayInYear(birthdate, now.date.year);
    if Before(now.date, thisYear) then thisYear
    else if thisYear == now.date && now.hour < LAST_SCHEDULER_PASS_HOUR then thisYear
    else BirthdayInYear(birthdate, now.date.year + 1)
  }

  /** No earlier date whole years after the birthdate is to come, or is today before 14:00. */
  lemma NextBirthdayIsEarliest(birthdate: ValidDate, now: Wall, d: ValidDate)
    requires d == AddMonths(birthdate, 12 * (d.year - birthdate.year))
    requires Before(now.date, d) || (d == now.date && now.hour < 14)
    ensures var r := NextBirthdayRunDate(birthdate, now);
            r == AddMonths(birthdate, 12 * (r.year - birthdate.year)) && (d == r || Before(r, d))
  {
    AnniversaryIsYearsOn(birthdate, d);
  }

  // ---------------------------------------------------------------------
  // Yearly clones
  // ---------------------------------------------------------------------

  /** The run date of the k-th clone of a yearly task. */
  function YearlyClone(first: ValidDate, k: nat): ValidDate {
    if k == 0 then first else NextRepeat(BogotaMidnight(YearlyClone(first, k - 1)), YEARLY).date
  }

  lemma YearOn(d: ValidDate)
    ensures NextRepeat(BogotaMidnight(d), YEARLY).date ==
            Date(d.year + 1, d.month, if d.month == 2 && d.day == 29 then 28 else d.day)
  {}

  /** Each clamped step feeds the next, so once on the 28th the chain stays there. The k-th clone of a
      birthday task is the anniversary k years on, except for a 29 February member in a later leap year,
      where it is the 28th: exactly one day early. */
  lemma {:induction false} YearlyClonesDrift(birthdate: ValidDate, year: int, k: nat)
    ensures var clone, anniversary := YearlyClone(BirthdayInYear(birthdate, year), k), BirthdayInYear(birthdate, year + k);
            var early := birthdate.month == 2 && birthdate.day == 29 && k >= 1 && IsLeap(year + k);
            && (clone == anniversary <==> !early)
            && (early ==> anniversary == Date(year + k, 2, 29) && clone == Date(year + k, 2, 28)
                          && NextDay(clone) == anniversary && Ordinal(clone) == Ordinal(anniversary) - 1)
  {
    if k > 0 {
      YearlyClonesDrift(birthdate, year, k - 1);
      YearOn(YearlyClone(BirthdayInYear(birthdate, year), k - 1));
    }
    var clone := YearlyClone(BirthdayInYear(birthdate, year), k);
    if birthdate.month == 2 && birthdate.day == 29 && k >= 1 && IsLeap(year + k) {
      NextDayOrdinal(clone);
    }
  }

  /** The whole chain, from the moment a task is written: its first row runs on the next anniversary, and
      its k-th clone on the one k years later but for that exception. */
  lemma BirthdayChain(birthdate: ValidDate, now: Wall, k: nat)
    ensures var first := NextBirthdayRunDate(birthdate, now);
            && first.year in {now.date.year, now.date.year + 1}
            && (YearlyClone(first, k) == BirthdayInYear(birthdate, first.year + k)
                <==> !(birthdate.month == 2 && birthdate.day == 29 && k >= 1 && IsLeap(first.year + k)))
  {
    var first := NextBirthdayRunDate(birthdate, now);
    AnniversaryIsYearsOn(birthdate, first);
    assert first.year in {now.date.year, now.date.year + 1};
    hide NextBirthdayRunDate, AddMonths, BirthdayInYear;
    YearlyClonesDrift(birthdate, first.year, k);
  }
}
