/** Proleptic Gregorian calendar arithmetic over (year, month, day) triples.
    The component works on start-of-day dates only, so a date is its calendar
    day; these definitions stand in for the date library's month lengths, weekday
    numbers, day arithmetic and instant comparison. */
module Gregorian {

  /** A calendar day. */
  datatype Date = Date(year: int, month: int, day: int)

  /** A month of a year: the component's month cursor. */
  datatype YearMonth = YearMonth(year: int, month: int)

  predicate IsLeapYear(y: int) {
    y % 4 == 0 && (y % 100 != 0 || y % 400 == 0)
  }

  predicate ValidMonth(ym: YearMonth) {
    1 <= ym.month <= 12
  }

  function DaysInMonth(y: int, m: int): (n: int)
    requires 1 <= m <= 12
    ensures 28 <= n <= 31
    ensures n == 29 <==> m == 2 && IsLeapYear(y)
    ensures n == 28 <==> m == 2 && !IsLeapYear(y)
    ensures n == 30 <==> m == 4 || m == 6 || m == 9 || m == 11
  {
    if m == 2 then (if IsLeapYear(y) then 29 else 28)
    else if m == 4 || m == 6 || m == 9 || m == 11 then 30
    else 31
  }

  function DaysInYear(y: int): int {
    if IsLeapYear(y) then 366 else 365
  }

  predicate ValidDate(d: Date) {
    1 <= d.month <= 12 && 1 <= d.day <= DaysInMonth(d.year, d.month)
  }

  /** Lexicographic order on (year, month, day): the order of the days' instants. */
  predicate Before(a: Date, b: Date) {
    a.year < b.year
    || (a.year == b.year && a.month < b.month)
    || (a.year == b.year && a.month == b.month && a.day < b.day)
  }

  /** Days from 0001-01-01 to 1 January of year y. Dafny's `/` floors for a
      positive divisor, so this holds for years before 1 as well. */
  function DaysBeforeYear(y: int): int {
    var p := y - 1;
    365 * p + p / 4 - p / 100 + p / 400
  }

  /** Days from 1 January to the first of month m of year y (m == 13 is the next year). */
  function DaysBeforeMonth(y: int, m: int): int
    requires 1 <= m <= 13
  {
    var common := [0, 31, 59, 90, 120, 151, 181, 212, 243, 273, 304, 334, 365][m - 1];
    if m > 2 && IsLeapYear(y) then common + 1 else common
  }

  /** Serial day number; 0 is Monday 0001-01-01. */
  function DayNumber(d: Date): int
    requires 1 <= d.month <= 12
  {
    DaysBeforeYear(d.year) + DaysBeforeMonth(d.year, d.month) + d.day - 1
  }

  /** ISO weekday: 1 is Monday, 7 is Sunday. */
  function Weekday(d: Date): (w: int)
    requires 1 <= d.month <= 12
    ensures 1 <= w <= 7
  {
    DayNumber(d) % 7 + 1
  }

  /** The day after d. */
  function NextDay(d: Date): (r: Date)
    requires ValidDate(d)
    ensures ValidDate(r) && Before(d, r)
    ensures DayNumber(r) == DayNumber(d) + 1
  {
    MonthLengthsAddUp(d.year);
    if d.day < DaysInMonth(d.year, d.month) then Date(d.year, d.month, d.day + 1)
    else if d.month < 12 then Date(d.year, d.month + 1, 1)
    else
      YearLength(d.year);
      Date(d.year + 1, 1, 1)
  }

  /** The day n days after d. */
  function PlusDays(d: Date, n: nat): (r: Date)
    requires ValidDate(d)
    ensures ValidDate(r)
    ensures DayNumber(r) == DayNumber(d) + n
    decreases n
  {
    if n == 0 then d else PlusDays(NextDay(d), n - 1)
  }

  /** Adds a (possibly negative) number of months, rolling the year over. */
  function AddMonths(ym: YearMonth, steps: int): (r: YearMonth)
    requires ValidMonth(ym)
    ensures ValidMonth(r)
    ensures 12 * r.year + r.month == 12 * ym.year + ym.month + steps
  {
    var index := 12 * ym.year + (ym.month - 1) + steps;
    YearMonth(index / 12, index % 12 + 1)
  }

  // ---------------------------------------------------------------------------
  // Lemmas

  lemma MonthLengthsAddUp(y: int)
    ensures forall m :: 1 <= m <= 12 ==>
      DaysBeforeMonth(y, m + 1) == DaysBeforeMonth(y, m) + DaysInMonth(y, m)
    ensures DaysBeforeMonth(y, 13) == DaysInYear(y)
  {
  }

  /** A multiple of 4, 100 or 400 is where the number of such multiples steps up. */
  lemma FloorDivSteps(y: int)
    ensures y / 4 - (y - 1) / 4 == if y % 4 == 0 then 1 else 0
    ensures y / 100 - (y - 1) / 100 == if y % 100 == 0 then 1 else 0
    ensures y / 400 - (y - 1) / 400 == if y % 400 == 0 then 1 else 0
  {
  }

  /** Year y has DaysInYear(y) days. */
  lemma YearLength(y: int)
    ensures DaysBeforeYear(y + 1) == DaysBeforeYear(y) + DaysInYear(y)
  {
    FloorDivSteps(y);
  }

  lemma {:induction false} YearsAscend(y1: int, y2: int)
    requires y1 <= y2
    ensures DaysBeforeYear(y1) + 365 * (y2 - y1) <= DaysBeforeYear(y2)
    decreases y2 - y1
  {
    if y1 < y2 {
      YearLength(y1);
      YearsAscend(y1 + 1, y2);
    }
  }

  lemma MonthsAscend(y: int, m1: int, m2: int)
    requires 1 <= m1 < m2 <= 13
    ensures DaysBeforeMonth(y, m1) + DaysInMonth(y, m1) <= DaysBeforeMonth(y, m2)
  {
  }

  /** A valid date's day number lies within its year. */
  lemma DayNumberWithinYear(d: Date)
    requires ValidDate(d)
    ensures DaysBeforeYear(d.year) <= DayNumber(d) < DaysBeforeYear(d.year + 1)
  {
    MonthsAscend(d.year, d.month, 13);
    MonthLengthsAddUp(d.year);
    YearLength(d.year);
  }

  lemma DayNumberAscends(lo: Date, hi: Date)
    requires ValidDate(lo) && ValidDate(hi) && Before(lo, hi)
    ensures DayNumber(lo) < DayNumber(hi)
  {
    if lo.year < hi.year {
      DayNumberWithinYear(lo);
      DayNumberWithinYear(hi);
      YearsAscend(lo.year + 1, hi.year);
    } else if lo.month < hi.month {
      MonthsAscend(lo.year, lo.month, hi.month);
    }
  }

  /** Comparing two valid dates lexicographically is comparing their day numbers,
      that is, their start-of-day instants. */
  lemma BeforeIsDayOrder(a: Date, b: Date)
    requires ValidDate(a) && ValidDate(b)
    ensures Before(a, b) <==> DayNumber(a) < DayNumber(b)
    ensures a == b <==> DayNumber(a) == DayNumber(b)
  {
    if Before(a, b) {
      DayNumberAscends(a, b);
    } else if Before(b, a) {
      DayNumberAscends(b, a);
    }
  }

  /** The weekday advances cyclically from one day to the next. */
  lemma NextWeekday(d: Date)
    requires ValidDate(d)
    ensures Weekday(NextDay(d)) == Weekday(d) % 7 + 1
  {
    var n := DayNumber(d);
    assert DayNumber(NextDay(d)) == n + 1;
    ModSevenStep(n);
  }

  lemma ModSevenStep(n: int)
    ensures (n + 1) % 7 == if n % 7 == 6 then 0 else n % 7 + 1
  {
  }

  /** Adding days without leaving the month only moves the day of month. */
  lemma {:induction false} PlusDaysInMonth(d: Date, n: nat)
    requires ValidDate(d) && d.day + n <= DaysInMonth(d.year, d.month)
    ensures PlusDays(d, n) == Date(d.year, d.month, d.day + n)
    decreases n
  {
    if n > 0 {
      assert NextDay(d) == Date(d.year, d.month, d.day + 1);
      PlusDaysInMonth(NextDay(d), n - 1);
    }
  }

  /** Moving the month cursor by -1, 0 or +1 rolls the year over at the ends. */
  lemma AddMonthsStep(ym: YearMonth, steps: int)
    requires ValidMonth(ym) && -1 <= steps <= 1
    ensures steps == 0 ==> AddMonths(ym, steps) == ym
    ensures steps == 1 ==>
      AddMonths(ym, steps) == if ym.month == 12 then YearMonth(ym.year + 1, 1) else YearMonth(ym.year, ym.month + 1)
    ensures steps == -1 ==>
      AddMonths(ym, steps) == if ym.month == 1 then YearMonth(ym.year - 1, 12) else YearMonth(ym.year, ym.month - 1)
  {
  }

  /** Moving n months and then k months is moving n + k months. */
  lemma AddMonthsCompose(ym: YearMonth, n: int, k: int)
    requires ValidMonth(ym)
    ensures AddMonths(AddMonths(ym, n), k) == AddMonths(ym, n + k)
  {
  }
}
