/**
  The calendar the date checks stand for, said without them: the days from
  1 January 1 on, one after the other.
*/
module Calendar {

  datatype Day = Day(year: int, month: int, day: int)

  const MONTH_LENGTHS: seq<nat> := [31, 28, 31, 30, 31, 30, 31, 31, 30, 31, 30, 31]

  /** The days before 1 January: one leap day in four years, less one a century, and one more every fourth. */
  function DaysBefore(year: int): int {
    365 * (year - 1) + (year - 1) / 4 - (year - 1) / 100 + (year - 1) / 400
  }

  function YearLength(year: int): int {
    DaysBefore(year + 1) - DaysBefore(year)
  }

  function MonthLength(year: int, month: int): int
    requires 1 <= month <= 12
  {
    MONTH_LENGTHS[month - 1] + if month == 2 then YearLength(year) - 365 else 0
  }

  function Tomorrow(d: Day): Day
    requires 1 <= d.month <= 12
  {
    if d.day < MonthLength(d.year, d.month) then d.(day := d.day + 1)
    else if d.month < 12 then Day(d.year, d.month + 1, 1)
    else Day(d.year + 1, 1, 1)
  }

  /** The n-th day after 1 January 1. */
  function Nth(n: nat): (d: Day)
    ensures 1 <= d.month <= 12
  {
    if n == 0 then Day(1, 1, 1) else Tomorrow(Nth(n - 1))
  }

  /** 31 December 9999. */
  const LAST: nat := 3_652_058

  /** A day of the years a date may have. */
  ghost predicate IsDate(year: int, month: int, day: int) {
    exists n: nat | n <= LAST :: Nth(n) == Day(year, month, day)
  }

  // ----- counting days -----

  lemma FourthYear(y: int)
    ensures (y + 1) / 4 - y / 4 == if (y + 1) % 4 == 0 then 1 else 0
  {
  }

  lemma Century(y: int)
    ensures (y + 1) / 100 - y / 100 == if (y + 1) % 100 == 0 then 1 else 0
  {
  }

  lemma FourthCentury(y: int)
    ensures (y + 1) / 400 - y / 400 == if (y + 1) % 400 == 0 then 1 else 0
    ensures (y + 1) % 400 == 0 ==> (y + 1) % 100 == 0
  {
    var q := (y + 1) / 400;
    assert (y + 1) % 400 == 0 ==> y + 1 == 100 * (4 * q);
  }

  lemma CenturyIsFourth(year: int)
    ensures year % 100 == 0 ==> year % 4 == 0
  {
    var q := year / 100;
    assert year % 100 == 0 ==> year == 4 * (25 * q);
  }

  lemma YearLengths(year: int)
    ensures YearLength(year) == if year % 4 == 0 && (year % 100 != 0 || year % 400 == 0) then 366 else 365
  {
    FourthYear(year - 1);
    Century(year - 1);
    FourthCentury(year - 1);
    CenturyIsFourth(year);
  }

  ghost predicate Proper(d: Day) {
    d.year >= 1 && 1 <= d.month <= 12 && 1 <= d.day <= MonthLength(d.year, d.month)
  }

  function DaysBeforeMonth(year: int, month: int): int
    requires 1 <= month <= 13
  {
    if month == 1 then 0 else DaysBeforeMonth(year, month - 1) + MonthLength(year, month - 1)
  }

  lemma WholeYear(year: int)
    ensures DaysBeforeMonth(year, 13) == YearLength(year)
  {
    assert DaysBeforeMonth(year, 2) == 31;
    assert DaysBeforeMonth(year, 4) == YearLength(year) - 275;
    assert DaysBeforeMonth(year, 6) == YearLength(year) - 214;
    assert DaysBeforeMonth(year, 8) == YearLength(year) - 153;
    assert DaysBeforeMonth(year, 10) == YearLength(year) - 92;
    assert DaysBeforeMonth(year, 12) == YearLength(year) - 31;
  }

  /** The number of a day, from 1. */
  function Ordinal(d: Day): int
    requires 1 <= d.month <= 12
  {
    DaysBefore(d.year) + DaysBeforeMonth(d.year, d.month) + d.day
  }

  lemma TomorrowNext(d: Day)
    requires Proper(d)
    ensures Proper(Tomorrow(d)) && Ordinal(Tomorrow(d)) == Ordinal(d) + 1
  {
    YearLengths(d.year);
    YearLengths(d.year + 1);
    hide DaysBefore;
    if d.month == 12 && d.day >= MonthLength(d.year, 12) {
      WholeYear(d.year);
    }
  }

  lemma {:induction false} NthProper(n: nat)
    ensures Proper(Nth(n)) && Ordinal(Nth(n)) == n + 1
  {
    if n > 0 {
      NthProper(n - 1);
      TomorrowNext(Nth(n - 1));
    } else {
      YearLengths(1);
    }
  }

  lemma {:induction false} MonthsGrow(year: int, a: int, b: int)
    requires 1 <= a < b <= 13
    ensures DaysBeforeMonth(year, a) + MonthLength(year, a) <= DaysBeforeMonth(year, b)
    decreases b - a
  {
    YearLengths(year);
    if a + 1 < b { MonthsGrow(year, a, b - 1); }
  }

  lemma {:induction false} YearsGrow(a: int, b: int)
    requires a < b
    ensures DaysBefore(a + 1) <= DaysBefore(b)
    decreases b - a
  {
    if a + 1 < b {
      YearsGrow(a, b - 1);
      YearLengths(b - 1);
    }
  }

  /** A day lies in its own year. */
  lemma WithinYear(d: Day)
    requires Proper(d)
    ensures DaysBefore(d.year) < Ordinal(d) <= DaysBefore(d.year + 1)
  {
    YearLengths(d.year);
    WholeYear(d.year);
    MonthsGrow(d.year, d.month, 13);
    hide DaysBefore;
    if d.month > 1 { MonthsGrow(d.year, 1, d.month); }
  }

  lemma OrdinalInjective(a: Day, b: Day)
    requires Proper(a) && Proper(b) && Ordinal(a) == Ordinal(b)
    ensures a == b
  {
    hide DaysBefore;
    WithinYear(a);
    WithinYear(b);
    if a.year < b.year { YearsGrow(a.year, b.year); }
    if b.year < a.year { YearsGrow(b.year, a.year); }
    if a.month < b.month { MonthsGrow(a.year, a.month, b.month); }
    if b.month < a.month { MonthsGrow(a.year, b.month, a.month); }
  }

  /** The days met up to the last are exactly those with a proper month and day and a year up to 9999. */
  lemma DatesMet(year: int, month: int, day: int)
    ensures IsDate(year, month, day) <==> Proper(Day(year, month, day)) && year <= 9999
  {
    var d := Day(year, month, day);
    if n: nat :| n <= LAST && Nth(n) == d {
      NthProper(n);
      WithinYear(d);
      assert DaysBefore(10000) == LAST + 1;
      if year > 9999 { if year > 10000 { YearsGrow(9999, year); } }
    }
    if Proper(d) && year <= 9999 {
      WithinYear(d);
      DaysPositive(year);
      if year < 9999 { YearsGrow(year, 10000); }
      assert DaysBefore(10000) == LAST + 1;
      var n: nat := Ordinal(d) - 1;
      NthProper(n);
      OrdinalInjective(Nth(n), d);
    }
  }

  lemma DaysPositive(year: int)
    requires year >= 1
    ensures DaysBefore(year) >= 0
  {
    if year > 1 { YearsGrow(0, year); }
  }
}
