/** The civil calendar a timestamp's date is in: dates of the years 0 to 9999 and day numbers, as
    std::chrono counts them from 1970, are the same things. */
module Calendar {
  import opened Timestamps
  import Decimal

  const EPOCH: int := 719_528

  /** The days of the years 0 to `year` - 1. */
  function YearStart(year: int): int {
    365 * year + (year + 3) / 4 - (year + 99) / 100 + (year + 399) / 400
  }

  /** The days of a year before a month of it. */
  function MonthStart(year: int, month: int): int
    decreases month
  {
    if month <= 1 then 0 else MonthStart(year, month - 1) + DaysIn(year, month - 1)
  }

  /** The days from the first of January 1970 to a date. */
  function DayNumber(year: int, month: int, day: int): int {
    YearStart(year) + MonthStart(year, month) + day - 1 - EPOCH
  }

  /** The first day of year 0, and the first of year 10000. */
  const FIRST_DAY: int := -EPOCH
  const END_DAY: int := 3_652_425 - EPOCH

  /** The year a day is in, looking from `year` on. */
  function YearOf(days: int, year: int): (r: int)
    requires year <= 9999 && YearStart(year) <= days < 3_652_425
    ensures year <= r <= 9999 && YearStart(r) <= days < YearStart(r + 1)
    decreases days, 10_000 - year
  {
    if days < YearStart(year + 1) then year else YearOf(days, year + 1)
  }

  /** The month of a day of a year, looking from `month` on. */
  function MonthOf(year: int, days: int, month: int): (r: int)
    requires 1 <= month <= 12 && MonthStart(year, month) <= days < MonthStart(year, 13)
    ensures month <= r <= 12 && MonthStart(year, r) <= days < MonthStart(year, r + 1)
    decreases days, 13 - month
  {
    if days < MonthStart(year, month + 1) then month else MonthOf(year, days, month + 1)
  }

  lemma YearLength(year: int)
    ensures YearStart(year + 1) - YearStart(year) == MonthStart(year, 13)
  {
    LeapDay(year);
    MonthsOfYear(year);
    hide *;
  }

  lemma LeapDay(year: int)
    ensures YearStart(year + 1) - YearStart(year) == if IsLeap(year) then 366 else 365
  {
    Fourth(year);
    Hundredth(year);
    FourHundredth(year);
    Multiples(year);
  }

  lemma Multiples(y: int)
    ensures y % 400 == 0 ==> y % 100 == 0
    ensures y % 100 == 0 ==> y % 4 == 0
  {
    if y % 400 == 0 {
      MultipleOf(y, 100, 4 * (y / 400));
    }
    if y % 100 == 0 {
      MultipleOf(y, 4, 25 * (y / 100));
    }
  }

  lemma MultipleOf(y: int, d: int, q: int)
    requires d > 0 && y == d * q
    ensures y % d == 0
  {
    Decimal.DivisionIs(y, d, q, 0);
  }

  lemma Fourth(y: int)
    ensures (y + 4) / 4 == (y + 3) / 4 + if y % 4 == 0 then 1 else 0
  {
  }

  lemma Hundredth(y: int)
    ensures (y + 100) / 100 == (y + 99) / 100 + if y % 100 == 0 then 1 else 0
  {
  }

  lemma FourHundredth(y: int)
    ensures (y + 400) / 400 == (y + 399) / 400 + if y % 400 == 0 then 1 else 0
  {
  }

  lemma MonthsOfYear(year: int)
    ensures MonthStart(year, 13) == if IsLeap(year) then 366 else 365
  {
    hide IsLeap;
    assert MonthStart(year, 4) == DaysIn(year, 1) + DaysIn(year, 2) + DaysIn(year, 3);
    assert MonthStart(year, 7) == MonthStart(year, 4) + DaysIn(year, 4) + DaysIn(year, 5) + DaysIn(year, 6);
    assert MonthStart(year, 10) == MonthStart(year, 7) + DaysIn(year, 7) + DaysIn(year, 8) + DaysIn(year, 9);
    assert MonthStart(year, 13) == MonthStart(year, 10) + DaysIn(year, 10) + DaysIn(year, 11) + DaysIn(year, 12);
  }

  /** The date of a day. */
  function DateOf(days: int): (int, int, int)
    requires FIRST_DAY <= days < END_DAY
  {
    var n := days + EPOCH;
    var year := YearOf(n, 0);
    YearLength(year);
    var month := MonthOf(year, n - YearStart(year), 1);
    (year, month, n - YearStart(year) - MonthStart(year, month) + 1)
  }

  lemma {:induction false} YearsGrow(a: int, b: int)
    requires a <= b
    ensures YearStart(a) <= YearStart(b)
    decreases b - a
  {
    if a < b {
      YearsGrow(a, b - 1);
    }
  }

  lemma {:induction false} MonthsGrow(year: int, a: int, b: int)
    requires a <= b
    ensures MonthStart(year, a) <= MonthStart(year, b)
    decreases b - a
  {
    if a < b {
      MonthsGrow(year, a, b - 1);
    }
  }

  lemma OnlyYear(days: int, a: int, b: int)
    requires YearStart(a) <= days < YearStart(a + 1) && YearStart(b) <= days < YearStart(b + 1)
    ensures a == b
  {
    hide YearStart;
    if a < b {
      YearsGrow(a + 1, b);
    } else if b < a {
      YearsGrow(b + 1, a);
    }
  }

  lemma OnlyMonth(year: int, days: int, a: int, b: int)
    requires MonthStart(year, a) <= days < MonthStart(year, a + 1)
    requires MonthStart(year, b) <= days < MonthStart(year, b + 1)
    ensures a == b
  {
    hide MonthStart;
    if a < b {
      MonthsGrow(year, a + 1, b);
    } else if b < a {
      MonthsGrow(year, b + 1, a);
    }
  }

  /** The date of a day is a date, and its day is that one. */
  lemma DayReadsBack(days: int)
    requires FIRST_DAY <= days < END_DAY
    ensures var (year, month, day) := DateOf(days); IsDate(year, month, day) && DayNumber(year, month, day) == days
  {
    var n := days + EPOCH;
    var year := YearOf(n, 0);
    YearLength(year);
    var month := MonthOf(year, n - YearStart(year), 1);
    assert MonthStart(year, month + 1) == MonthStart(year, month) + DaysIn(year, month);
  }

  /** A date is inside its month, its month inside its year, and its year inside the calendar. */
  lemma DateIsInside(year: int, month: int, day: int)
    requires IsDate(year, month, day)
    ensures var rest := MonthStart(year, month) + day - 1;
      && MonthStart(year, month) <= rest < MonthStart(year, month + 1)
      && 0 <= rest < MonthStart(year, 13)
    ensures var n := DayNumber(year, month, day) + EPOCH;
      YearStart(year) <= n < YearStart(year + 1) && 0 <= n < 3_652_425
  {
    assert MonthStart(year, month + 1) == MonthStart(year, month) + DaysIn(year, month);
    assert YearStart(0) == 0 && YearStart(10_000) == 3_652_425 && MonthStart(year, 1) == 0;
    hide YearStart, MonthStart, IsLeap, DaysIn;
    YearLength(year);
    YearsGrow(0, year);
    YearsGrow(year + 1, 10_000);
    MonthsGrow(year, 1, month);
    MonthsGrow(year, month + 1, 13);
  }

  /** Each date is the date of its day, which is one of those of the years 0 to 9999. */
  lemma DateReadsBack(year: int, month: int, day: int)
    requires IsDate(year, month, day)
    ensures FIRST_DAY <= DayNumber(year, month, day) < END_DAY
    ensures DateOf(DayNumber(year, month, day)) == (year, month, day)
  {
    DateIsInside(year, month, day);
    hide YearStart, MonthStart, DateOf, IsDate;
    DateIs(DayNumber(year, month, day), year, month, MonthStart(year, month) + day - 1);
  }

  lemma DateIs(days: int, year: int, month: int, rest: int)
    requires FIRST_DAY <= days < END_DAY && year <= 9999 && 1 <= month <= 12 && days + EPOCH == YearStart(year) + rest
    requires YearStart(year) <= days + EPOCH < YearStart(year + 1)
    requires MonthStart(year, month) <= rest < MonthStart(year, month + 1)
    ensures DateOf(days) == (year, month, rest - MonthStart(year, month) + 1)
  {
    var n := days + EPOCH;
    var found := YearOf(n, 0);
    hide YearStart, MonthStart, YearOf, MonthOf;
    OnlyYear(n, year, found);
    YearLength(found);
    OnlyMonth(year, rest, month, MonthOf(year, rest, 1));
  }

  predicate Earlier(year: int, month: int, day: int, year': int, month': int, day': int) {
    year < year' || (year == year' && (month < month' || (month == month' && day < day')))
  }

  /** Days are in the order of their dates. */
  lemma DatesInOrder(year: int, month: int, day: int, year': int, month': int, day': int)
    requires IsDate(year, month, day) && IsDate(year', month', day')
    ensures DayNumber(year, month, day) < DayNumber(year', month', day')
            <==> Earlier(year, month, day, year', month', day')
  {
    if Earlier(year, month, day, year', month', day') {
      OneWay(year, month, day, year', month', day');
    } else if Earlier(year', month', day', year, month, day) {
      OneWay(year', month', day', year, month, day);
    }
  }

  lemma OneWay(year: int, month: int, day: int, year': int, month': int, day': int)
    requires IsDate(year, month, day) && IsDate(year', month', day')
    requires Earlier(year, month, day, year', month', day')
    ensures DayNumber(year, month, day) < DayNumber(year', month', day')
  {
    assert MonthStart(year, month + 1) == MonthStart(year, month) + DaysIn(year, month);
    if year < year' {
      YearLength(year);
      YearsGrow(year + 1, year');
      MonthsGrow(year, month + 1, 13);
      MonthsGrow(year', 1, month');
    } else if month < month' {
      MonthsGrow(year, month + 1, month');
    }
  }
}
