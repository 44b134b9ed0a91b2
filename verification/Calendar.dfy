/** The proleptic Gregorian calendar from year 0 on: days numbered from 0000-01-01, the
    dates they are, and the weekdays they fall on. */
module Calendar {

  datatype Date = Date(year: nat, month: nat, day: nat)

  predicate IsLeap(y: nat) { y % 4 == 0 && (y % 100 != 0 || y % 400 == 0) }

  function YearLength(y: nat): nat { if IsLeap(y) then 366 else 365 }

  function CommonMonthLength(m: nat): (r: nat)
    ensures 28 <= r <= 31
  {
    if m == 2 then 28 else if m == 4 || m == 6 || m == 9 || m == 11 then 30 else 31
  }

  function MonthLength(y: nat, m: nat): (r: nat)
    ensures 28 <= r <= 31
  {
    if m == 2 && IsLeap(y) then 29 else CommonMonthLength(m)
  }

  predicate IsDate(d: Date) { 1 <= d.month <= 12 && 1 <= d.day <= MonthLength(d.year, d.month) }

  function DaysBeforeYear(y: nat): nat {
    if y == 0 then 0 else DaysBeforeYear(y - 1) + YearLength(y - 1)
  }

  /** Days of the year before the first of a month. */
  function DaysBeforeMonth(y: nat, m: nat): nat {
    if m <= 1 then 0 else DaysBeforeMonth(y, m - 1) + MonthLength(y, m - 1)
  }

  function DayNumber(d: Date): nat
    requires d.day >= 1
  {
    DaysBeforeYear(d.year) + DaysBeforeMonth(d.year, d.month) + d.day - 1
  }

  /** The date `n` days after the first of a month. */
  function DateInYear(y: nat, m: nat, n: nat): Date
    decreases n
  {
    if n < MonthLength(y, m) then Date(y, m, n + 1) else DateInYear(y, m + 1, n - MonthLength(y, m))
  }

  /** The date `n` days after the first of January of year `y`. */
  function DateFrom(y: nat, n: nat): Date
    decreases n
  {
    if n < YearLength(y) then DateInYear(y, 1, n) else DateFrom(y + 1, n - YearLength(y))
  }

  function DateOf(n: nat): Date { DateFrom(0, n) }

  /** 0 is Sunday; 0000-01-01 is a Saturday. */
  function Weekday(n: nat): (r: nat)
    ensures r < 7
  {
    (n + 6) % 7
  }

  /** The week goes forward. */
  lemma WeekdayAdvances(n: nat)
    ensures Weekday(n + 1) == (Weekday(n) + 1) % 7
  {
    var w := Weekday(n);
    assert n + 6 == 7 * ((n + 6) / 7) + w;
  }

  /** The months of a year that is not leap, and the one day more of a leap February. */
  lemma MonthLengths(y: nat, m: nat)
    requires 1 <= m <= 12
    ensures var common := [31, 28, 31, 30, 31, 30, 31, 31, 30, 31, 30, 31];
      MonthLength(y, m) == common[m - 1]
        + if m == 2 && ((y % 4 == 0 && y % 100 != 0) || y % 400 == 0) then 1 else 0
  {
    FourHundredsAreHundreds(y);
    HundredsAreFours(y);
  }

  // --------------------------------------------------------------- numbers and dates

  function One(b: bool): nat { if b then 1 else 0 }

  lemma LeapsCounted(x: nat)
    ensures One(IsLeap(x)) == One(x % 4 == 0) - One(x % 100 == 0) + One(x % 400 == 0)
  {
    HundredsAreFours(x);
    FourHundredsAreHundreds(x);
  }

  lemma HundredsAreFours(x: nat)
    ensures x % 100 == 0 ==> x % 4 == 0
  {
    MultipleOf(x / 100 * 25, 4);
  }

  lemma FourHundredsAreHundreds(x: nat)
    ensures x % 400 == 0 ==> x % 100 == 0
  {
    MultipleOf(x / 400 * 4, 100);
  }

  lemma MultipleOf(k: nat, n: nat)
    requires n == 4 || n == 100
    ensures (n * k) % n == 0
  {
  }

  lemma Quarters(x: nat)
    ensures (x + 4) / 4 == (x + 3) / 4 + One(x % 4 == 0)
  {
  }

  lemma Centuries(x: nat)
    ensures (x + 100) / 100 == (x + 99) / 100 + One(x % 100 == 0)
  {
  }

  lemma FourCenturies(x: nat)
    ensures (x + 400) / 400 == (x + 399) / 400 + One(x % 400 == 0)
  {
  }

  /** The closed form of the year count. */
  lemma {:induction false} DaysBeforeYearClosed(y: nat)
    ensures DaysBeforeYear(y) == 365 * y + (y + 3) / 4 - (y + 99) / 100 + (y + 399) / 400
  {
    if y == 0 {
    } else {
      DaysBeforeYearClosed(y - 1);
      var x: nat := y - 1;
      Quarters(x);
      Centuries(x);
      FourCenturies(x);
      LeapsCounted(x);
    }
  }

  /** 2026-01-01 is a Thursday. */
  lemma WeekdaysAreAnchored(d: Date)
    requires d == Date(2026, 1, 1)
    ensures Weekday(DayNumber(d)) == 4
  {
    DaysBeforeYearClosed(d.year);
    assert DaysBeforeYear(d.year) == 739982;
    assert DaysBeforeMonth(d.year, d.month) == 0;
  }

  lemma YearIsItsMonths(y: nat)
    ensures DaysBeforeMonth(y, 13) == YearLength(y)
  {
    assert DaysBeforeMonth(y, 2) == 31;
    assert DaysBeforeMonth(y, 3) == 31 + MonthLength(y, 2);
    assert DaysBeforeMonth(y, 5) == DaysBeforeMonth(y, 3) + 61;
    assert DaysBeforeMonth(y, 7) == DaysBeforeMonth(y, 5) + 61;
    assert DaysBeforeMonth(y, 9) == DaysBeforeMonth(y, 7) + 62;
    assert DaysBeforeMonth(y, 11) == DaysBeforeMonth(y, 9) + 61;
  }

  lemma {:induction false} MonthsAscend(y: nat, m: nat, n: nat)
    requires 1 <= m <= n
    ensures DaysBeforeMonth(y, m) + (if m < n then MonthLength(y, m) else 0) <= DaysBeforeMonth(y, n)
    decreases n
  {
    if m >= n - 1 {
    } else {
      MonthsAscend(y, m, n - 1);
    }
  }

  lemma {:induction false} YearsAscend(y: nat, z: nat)
    requires y <= z
    ensures DaysBeforeYear(y) + (if y < z then YearLength(y) else 0) <= DaysBeforeYear(z)
    decreases z
  {
    if y >= z - 1 {
    } else {
      YearsAscend(y, z - 1);
    }
  }

  /** A date lies in its year. */
  lemma DateLiesInYear(d: Date)
    requires IsDate(d)
    ensures DaysBeforeYear(d.year) <= DayNumber(d) < DaysBeforeYear(d.year) + YearLength(d.year)
  {
    YearIsItsMonths(d.year);
    MonthsAscend(d.year, d.month, 13);
  }

  lemma {:induction false} DateInYearIsAt(y: nat, m: nat, n: nat)
    requires 1 <= m <= 12 && DaysBeforeMonth(y, m) + n < YearLength(y)
    ensures IsDate(DateInYear(y, m, n)) && DateInYear(y, m, n).year == y
    ensures DaysBeforeMonth(y, DateInYear(y, m, n).month) + DateInYear(y, m, n).day - 1 == DaysBeforeMonth(y, m) + n
    decreases n
  {
    if n < MonthLength(y, m) {
    } else {
      if m == 12 {
        YearIsItsMonths(y);
      }
      DateInYearIsAt(y, m + 1, n - MonthLength(y, m));
    }
  }

  lemma {:induction false} DateFromIsAt(y: nat, n: nat)
    ensures IsDate(DateFrom(y, n)) && DayNumber(DateFrom(y, n)) == DaysBeforeYear(y) + n
    decreases n
  {
    if n < YearLength(y) {
      DateInYearIsAt(y, 1, n);
    } else {
      DateFromIsAt(y + 1, n - YearLength(y));
    }
  }

  /** Every day is a date, and the date says which day it is. */
  lemma DateOfDay(n: nat)
    ensures IsDate(DateOf(n)) && DayNumber(DateOf(n)) == n
  {
    DateFromIsAt(0, n);
  }

  /** No two dates are the same day. */
  lemma DayOfDate(d: Date)
    requires IsDate(d)
    ensures DateOf(DayNumber(d)) == d
  {
    var e := DateOf(DayNumber(d));
    DateOfDay(DayNumber(d));
    DateLiesInYear(d);
    DateLiesInYear(e);
    if d.year < e.year {
      YearsAscend(d.year, e.year);
    } else if e.year < d.year {
      YearsAscend(e.year, d.year);
    } else if d.month < e.month {
      MonthsAscend(d.year, d.month, e.month);
    } else if e.month < d.month {
      MonthsAscend(d.year, e.month, d.month);
    }
  }

  /** The next of the month, or the first of the next month. */
  function Tomorrow(d: Date): Date {
    if d.day < MonthLength(d.year, d.month) then Date(d.year, d.month, d.day + 1)
    else if d.month < 12 then Date(d.year, d.month + 1, 1)
    else Date(d.year + 1, 1, 1)
  }

  lemma TomorrowIsLater(d: Date)
    requires IsDate(d)
    ensures IsDate(Tomorrow(d)) && DayNumber(Tomorrow(d)) == DayNumber(d) + 1
  {
    YearIsItsMonths(d.year);
  }

  /** The days are the dates in order, from the first of January of year 0. */
  lemma DatesAdvance(n: nat)
    ensures DateOf(0) == Date(0, 1, 1) && DateOf(n + 1) == Tomorrow(DateOf(n))
  {
    hide DateOf, Tomorrow, MonthLength;
    DateOfDay(n);
    TomorrowIsLater(DateOf(n));
    DayOfDate(Tomorrow(DateOf(n)));
    FirstDate();
  }

  lemma FirstDate()
    ensures DateOf(0) == Date(0, 1, 1)
  {
    DayOfDate(Date(0, 1, 1));
  }

  // ----------------------------------------------------------------- from year to year

  lemma {:induction false} MonthStartsShift(y: nat, m: nat)
    requires m >= 1
    ensures DaysBeforeMonth(y, m) == DaysBeforeMonth(1, m) + (if m > 2 && IsLeap(y) then 1 else 0)
  {
    if m <= 1 {
    } else {
      MonthStartsShift(y, m - 1);
    }
  }

  /** The same date a year later is 365 or 366 days later. */
  lemma YearLater(y: nat, m: nat, day: nat)
    requires 1 <= m <= 12 && day >= 1
    ensures 365 <= DayNumber(Date(y + 1, m, day)) - DayNumber(Date(y, m, day)) <= 366
  {
    MonthStartsShift(y, m);
    MonthStartsShift(y + 1, m);
  }

  /** Every weekday falls on one of any seven days in a row. */
  lemma WeekdayFalls(n: nat, w: nat) returns (k: nat)
    requires w < 7
    ensures k < 7 && Weekday(n + k) == w
  {
    k := (w + 7 - Weekday(n)) % 7;
  }
}
