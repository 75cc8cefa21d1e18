/**
 * Civil dates in the proleptic Gregorian calendar, numbered by days as a script engine numbers them
 * (the Day Numbers and Year Number sections of ECMA-262), and the normalisation that
 * `setDate(getDate() - 1)` performs.
 */
module Calendar {

  datatype CivilDate = CivilDate(year: int, month: int, day: int) {
    predicate Valid() {
      1 <= month <= 12 && 1 <= day <= DaysIn(year, month)
    }
  }

  predicate IsLeap(year: int) {
    year % 4 == 0 && (year % 100 != 0 || year % 400 == 0)
  }

  function DaysIn(year: int, month: int): int
    requires 1 <= month <= 12
  {
    if month == 2 then (if IsLeap(year) then 29 else 28)
    else if month in {4, 6, 9, 11} then 30
    else 31
  }

  /** The day number of 1 January; day 0 is 1 January 1970. */
  function DayFromYear(year: int): int {
    365 * (year - 1970) + (year - 1969) / 4 - (year - 1901) / 100 + (year - 1601) / 400
  }

  const BEFORE: seq<int> := [0, 31, 59, 90, 120, 151, 181, 212, 243, 273, 304, 334]

  function DaysBefore(year: int, month: int): int
    requires 1 <= month <= 12
  {
    BEFORE[month - 1] + if month > 2 && IsLeap(year) then 1 else 0
  }

  /** The day number of any date; `day` may lie outside the month, as it may for setDate. */
  function DayNumber(year: int, month: int, day: int): int
    requires 1 <= month <= 12
  {
    DayFromYear(year) + DaysBefore(year, month) + day - 1
  }

  function NumberOf(d: CivilDate): int
    requires d.Valid()
  {
    DayNumber(d.year, d.month, d.day)
  }

  lemma FourYears(year: int)
    ensures (year - 1968) / 4 == (year - 1969) / 4 + if year % 4 == 0 then 1 else 0
  {
  }

  lemma HundredYears(year: int)
    ensures (year - 1900) / 100 == (year - 1901) / 100 + if year % 100 == 0 then 1 else 0
  {
  }

  lemma FourHundredYears(year: int)
    ensures (year - 1600) / 400 == (year - 1601) / 400 + if year % 400 == 0 then 1 else 0
  {
    var q, r := year / 400, year % 400;
    assert year == 400 * q + r;
    if r == 0 {
      assert year - 1600 == 400 * (q - 4);
      assert year - 1601 == 400 * (q - 5) + 399;
    } else {
      assert year - 1600 == 400 * (q - 4) + r;
      assert year - 1601 == 400 * (q - 4) + (r - 1);
    }
  }

  lemma CenturyIsFour(year: int)
    requires year % 100 == 0
    ensures year % 4 == 0
  {
    var q := year / 100;
    assert year == 4 * (25 * q);
  }

  lemma FourCenturiesAreCentury(year: int)
    requires year % 400 == 0
    ensures year % 100 == 0
  {
    var q := year / 400;
    assert year == 100 * (4 * q);
  }

  lemma YearsAreWholeYears(year: int)
    ensures DayFromYear(year + 1) == DayFromYear(year) + if IsLeap(year) then 366 else 365
  {
    FourYears(year);
    HundredYears(year);
    FourHundredYears(year);
    if year % 100 == 0 {
      CenturyIsFour(year);
    }
    if year % 400 == 0 {
      FourCenturiesAreCentury(year);
    }
  }

  lemma MonthsTileTheYear(year: int, month: int)
    requires 1 <= month <= 12
    ensures DaysBefore(year, month) + DaysIn(year, month)
            == if month < 12 then DaysBefore(year, month + 1) else DayFromYear(year + 1) - DayFromYear(year)
  {
    YearsAreWholeYears(year);
    assert month in {1, 2, 3, 4, 5, 6, 7, 8, 9, 10, 11, 12};
  }

  lemma {:induction false} YearsIncrease(a: int, b: int)
    requires a <= b
    ensures DayFromYear(a) + 365 * (b - a) <= DayFromYear(b)
    decreases b - a
  {
    if a < b {
      YearsAreWholeYears(b - 1);
      YearsIncrease(a, b - 1);
    }
  }

  lemma {:induction false} MonthsIncrease(year: int, a: int, b: int)
    requires 1 <= a < b <= 12
    ensures DaysBefore(year, a) + DaysIn(year, a) <= DaysBefore(year, b)
    decreases b - a
  {
    MonthsTileTheYear(year, b - 1);
    if a < b - 1 {
      MonthsIncrease(year, a, b - 1);
    }
  }

  /** A valid date lies inside its own year. */
  lemma DateIsInItsYear(d: CivilDate)
    requires d.Valid()
    ensures DayFromYear(d.year) <= NumberOf(d) < DayFromYear(d.year + 1)
  {
    MonthsTileTheYear(d.year, 12);
    if d.month < 12 {
      MonthsIncrease(d.year, d.month, 12);
    }
  }

  predicate Before(a: CivilDate, b: CivilDate) {
    a.year < b.year || (a.year == b.year && (a.month < b.month || (a.month == b.month && a.day < b.day)))
  }

  /** Day numbers order dates as the calendar does, so no two dates share one. */
  lemma NumbersFollowTheCalendar(a: CivilDate, b: CivilDate)
    requires a.Valid() && b.Valid()
    ensures Before(a, b) <==> NumberOf(a) < NumberOf(b)
    ensures a == b <==> NumberOf(a) == NumberOf(b)
  {
    if Before(a, b) {
      EarlierIsSmaller(a, b);
    } else if Before(b, a) {
      EarlierIsSmaller(b, a);
    }
  }

  lemma EarlierIsSmaller(a: CivilDate, b: CivilDate)
    requires a.Valid() && b.Valid() && Before(a, b)
    ensures NumberOf(a) < NumberOf(b)
  {
    if a.year < b.year {
      DateIsInItsYear(a);
      DateIsInItsYear(b);
      YearsIncrease(a.year + 1, b.year);
    } else if a.month < b.month {
      MonthsIncrease(a.year, a.month, b.month);
    }
  }

  // ----- from a day number back to a date -----

  function SeekYearUp(n: int, from: int): (year: int)
    requires DayFromYear(from) <= n
    ensures DayFromYear(year) <= n < DayFromYear(year + 1)
    decreases n - DayFromYear(from)
  {
    YearsAreWholeYears(from);
    if n < DayFromYear(from + 1) then from else SeekYearUp(n, from + 1)
  }

  function SeekYearDown(n: int, from: int): (year: int)
    ensures DayFromYear(year) <= n < DayFromYear(year + 1)
    decreases DayFromYear(from) - n
  {
    YearsAreWholeYears(from - 1);
    if DayFromYear(from) <= n then SeekYearUp(n, from) else SeekYearDown(n, from - 1)
  }

  function YearOf(n: int): (year: int)
    ensures DayFromYear(year) <= n < DayFromYear(year + 1)
  {
    SeekYearDown(n, 1970)
  }

  function SeekMonth(year: int, offset: int, from: int): (month: int)
    requires 1 <= from <= 12
    requires DaysBefore(year, from) <= offset < DayFromYear(year + 1) - DayFromYear(year)
    ensures from <= month <= 12
    ensures DaysBefore(year, month) <= offset < DaysBefore(year, month) + DaysIn(year, month)
    decreases 12 - from
  {
    MonthsTileTheYear(year, from);
    if from < 12 && DaysBefore(year, from + 1) <= offset then SeekMonth(year, offset, from + 1) else from
  }

  /** The date a day number stands for. */
  function DateOf(n: int): (d: CivilDate)
    ensures d.Valid() && NumberOf(d) == n
  {
    var year := YearOf(n);
    var offset := n - DayFromYear(year);
    var month := SeekMonth(year, offset, 1);
    CivilDate(year, month, offset - DaysBefore(year, month) + 1)
  }

  /** Dates and day numbers are in one-to-one correspondence. */
  lemma DateOfNumber(d: CivilDate)
    requires d.Valid()
    ensures DateOf(NumberOf(d)) == d
  {
    NumbersFollowTheCalendar(DateOf(NumberOf(d)), d);
  }

  /** `date.setDate(day)`: the day counts from the start of the date's own month and may overflow it. */
  function SetDate(d: CivilDate, day: int): CivilDate
    requires d.Valid()
  {
    DateOf(DayNumber(d.year, d.month, day))
  }

  /** The previous page of a wall calendar. */
  function PreviousPage(d: CivilDate): CivilDate
    requires d.Valid()
  {
    if d.day > 1 then d.(day := d.day - 1)
    else if d.month > 1 then CivilDate(d.year, d.month - 1, DaysIn(d.year, d.month - 1))
    else CivilDate(d.year - 1, 12, 31)
  }

  lemma PreviousPageIsOneLess(d: CivilDate)
    requires d.Valid()
    ensures PreviousPage(d).Valid() && NumberOf(PreviousPage(d)) == NumberOf(d) - 1
  {
    if d.day == 1 {
      if d.month > 1 {
        MonthsTileTheYear(d.year, d.month - 1);
      } else {
        MonthsTileTheYear(d.year - 1, 12);
      }
    }
  }

  /** Setting the date one day back turns the page, across month ends, leap days and year ends. */
  lemma SetDateBackTurnsThePage(d: CivilDate)
    requires d.Valid()
    ensures SetDate(d, d.day - 1) == PreviousPage(d)
  {
    PreviousPageIsOneLess(d);
    DateOfNumber(PreviousPage(d));
    assert DayNumber(d.year, d.month, d.day - 1) == NumberOf(PreviousPage(d));
  }
}
