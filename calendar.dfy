/**
 * Dates as day ordinals, counted as Python's date.toordinal counts them: January 1 of
 * year 1 is day 1, in the proleptic Gregorian calendar. The program's date arithmetic
 * (date + timedelta(days=n), date - date, date <= date) is then plain integer arithmetic.
 */
module Calendar {

  /** The last year a Python date can hold. */
  const MAXYEAR := 9999

  /** Gregorian leap years: every fourth year, except centuries not divisible by 400. */
  predicate IsLeap(y: int)
  {
    y % 4 == 0 && (y % 100 != 0 || y % 400 == 0)
  }

  /** The number of days of year y. */
  function DaysInYear(y: int): int
  {
    if IsLeap(y) then 366 else 365
  }

  /**
   * The ordinal of January 1 of year y, datetime.date(y, 1, 1): the day after all the
   * days of the years before it.
   */
  function YearStart(y: int): int
    requires 1 <= y
    decreases y
  {
    if y == 1 then 1 else YearStart(y - 1) + DaysInYear(y - 1)
  }

  /** The ordinal of December 31 of year y: datetime.date(y, 12, 31). */
  function YearEnd(y: int): int
    requires 1 <= y
  {
    YearStart(y + 1) - 1
  }

  /** Python's closed form for the days before year y (_days_before_year in its datetime module). */
  function DaysBeforeYear(y: int): int
    requires 1 <= y
  {
    var p := y - 1;
    365 * p + p / 4 - p / 100 + p / 400
  }

  /** January 1 of year y falls on the day after Python's count of the days before that year. */
  lemma {:induction false} YearStartFormula(y: int)
    requires 1 <= y
    ensures YearStart(y) == DaysBeforeYear(y) + 1
    decreases y
  {
    if y > 1 {
      YearStartFormula(y - 1);
      DaysBeforeYearStep(y);
    }
  }

  /** Python's count grows from one year to the next by the length of the earlier year. */
  lemma DaysBeforeYearStep(y: int)
    requires 2 <= y
    ensures DaysBeforeYear(y) == DaysBeforeYear(y - 1) + DaysInYear(y - 1)
  {
    var p := y - 1;
    StepBy4(p);
    StepBy100(p);
    StepBy400(p);
    if p % 400 == 0 {
      CenturyOf400(p);
    }
    if p % 100 == 0 {
      LeapOf100(p);
    }
  }

  // Each count of multiples goes up by one exactly at a multiple.
  lemma StepBy4(p: int)
    ensures p / 4 - (p - 1) / 4 == (if p % 4 == 0 then 1 else 0)
  {
  }

  lemma StepBy100(p: int)
    ensures p / 100 - (p - 1) / 100 == (if p % 100 == 0 then 1 else 0)
  {
  }

  lemma StepBy400(p: int)
    ensures p / 400 - (p - 1) / 400 == (if p % 400 == 0 then 1 else 0)
  {
  }

  /** A multiple of 400 is a multiple of 100. */
  lemma CenturyOf400(p: int)
    requires p % 400 == 0
    ensures p % 100 == 0
  {
    var k := p / 400;
    assert p == 100 * (4 * k);
  }

  /** A multiple of 100 is a multiple of 4. */
  lemma LeapOf100(p: int)
    requires p % 100 == 0
    ensures p % 4 == 0
  {
    var k := p / 100;
    assert p == 4 * (25 * k);
  }

  /** today is a date of year y, the way the program reads the current date's year. */
  predicate InYear(today: int, y: int)
  {
    1 <= y <= MAXYEAR && YearStart(y) <= today <= YearEnd(y)
  }

  /** A year has 366 days when it is a leap year and 365 otherwise. */
  lemma YearLength(y: int)
    requires 1 <= y
    ensures YearEnd(y) - YearStart(y) + 1 == (if IsLeap(y) then 366 else 365)
    ensures YearStart(y) <= YearEnd(y)
  {
    assert YearStart(y + 1) == YearStart(y) + DaysInYear(y);
  }

  /** Every year has at least one day. */
  lemma YearNonEmpty(y: int)
    requires 1 <= y
    ensures YearStart(y) <= YearEnd(y)
  {
    YearLength(y);
  }

  /** Each year lies before every later year. */
  lemma {:induction false} YearsOrdered(a: int, b: int)
    requires 1 <= a < b
    ensures YearEnd(a) < YearStart(b)
    decreases b - a
  {
    YearLength(a + 1);
    if a + 1 < b {
      YearsOrdered(a + 1, b);
    }
  }
}
