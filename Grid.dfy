/** Placing the month on the grid: the column each day is put in and the order
    of the weekday header labels, both under the locale's week start. */
module Grid {
  import opened Gregorian
  import opened Locale

  /** The grid column of a day. Under a Monday start it is the ISO weekday; under
      a Sunday start Monday moves to column 7 and every other day keeps its ISO
      number, so Sunday stays in 7 too; under a Saturday start Sunday goes to
      column 1 and every other day moves two columns on, Saturday to column 8. */
  function DayColumn(date: Date, locale: string): (col: int)
    requires 1 <= date.month <= 12 && StartsWithLanguage(locale)
    ensures 1 <= col <= 8
    ensures WeekStart(locale) == Mon ==> col == Weekday(date)
    ensures WeekStart(locale) == Sun ==>
      (col == 7 <==> Weekday(date) == 1 || Weekday(date) == 7) && (col != 7 ==> col == Weekday(date)) && col != 1
    ensures WeekStart(locale) == Sat ==>
      (col == 1 <==> Weekday(date) == 7) && (col != 1 ==> col == Weekday(date) + 2) && col != 2
  {
    var firstDay := WeekStart(locale);
    if firstDay == Sun then
      if Weekday(date) == 1 then 7 else Weekday(date)
    else if firstDay == Sat then
      if Weekday(date) == 7 then 1 else Weekday(date) + 2
    else Weekday(date)
  }

  /** How many places the header labels are rotated to the right. */
  function Shift(firstDay: FirstDay): nat {
    match firstDay
    case Mon => 0
    case Sun => 1
    case Sat => 2
  }

  /** The last k elements moved to the front. */
  function RotateRight<T>(s: seq<T>, k: nat): seq<T>
    requires k <= |s|
  {
    s[|s| - k..] + s[..|s| - k]
  }

  /** The labels reordered for a week start: Sunday's name first for a Sunday
      start, Saturday's and Sunday's first for a Saturday start. */
  function LabelsFor(days: seq<string>, firstDay: FirstDay): (labels: seq<string>)
    requires |days| == 7
    ensures labels == RotateRight(days, Shift(firstDay))
  {
    if firstDay == Sun then
      [days[6], days[0], days[1], days[2], days[3], days[4], days[5]]
    else if firstDay == Sat then
      [days[5], days[6], days[0], days[1], days[2], days[3], days[4]]
    else days
  }

  /** The header labels, given the seven short weekday names Monday first. */
  function WeekDayLabels(days: seq<string>, locale: string): (labels: seq<string>)
    requires |days| == 7 && StartsWithLanguage(locale)
    ensures labels == RotateRight(days, Shift(WeekStart(locale)))
  {
    LabelsFor(days, WeekStart(locale))
  }

  // ---------------------------------------------------------------------------
  // Lemmas

  /** The header labels are the weekday names, each once: a rotation is a permutation. */
  lemma LabelsArePermutation(days: seq<string>, locale: string)
    requires |days| == 7 && StartsWithLanguage(locale)
    ensures |WeekDayLabels(days, locale)| == 7
    ensures multiset(WeekDayLabels(days, locale)) == multiset(days)
  {
    var k := 7 - Shift(WeekStart(locale));
    assert days == days[..k] + days[k..];
  }

  predicate Distinct(days: seq<string>) {
    forall i, j :: 0 <= i < j < |days| ==> days[i] != days[j]
  }

  /** Whether a day lands under its own weekday's header label. With a Monday
      start every day does; with a Saturday start only Monday to Friday do
      (Sunday sits under Saturday's label and Saturday in an eighth column);
      with a Sunday start no day does. */
  lemma LabelAboveDay(days: seq<string>, locale: string, date: Date)
    requires |days| == 7 && Distinct(days) && StartsWithLanguage(locale) && 1 <= date.month <= 12
    ensures var col := DayColumn(date, locale);
      (col <= 7 && WeekDayLabels(days, locale)[col - 1] == days[Weekday(date) - 1])
      <==> (WeekStart(locale) == Mon || (WeekStart(locale) == Sat && Weekday(date) <= 5))
  {
    var w, labels := Weekday(date), WeekDayLabels(days, locale);
    assert days[w - 1] == days[w - 1];
    match WeekStart(locale)
    case Mon =>
    case Sun =>
      if w == 1 {
        assert labels[6] == days[5];
      } else {
        assert labels[w - 1] == days[w - 2];
      }
    case Sat =>
      if w == 7 {
        assert labels[0] == days[5];
      } else if w <= 5 {
        assert labels[w + 1] == days[w - 1];
      }
  }

  /** The columns each week start uses over the seven weekdays. */
  lemma ColumnsUsed(locale: string, date: Date)
    requires StartsWithLanguage(locale) && 1 <= date.month <= 12
    ensures WeekStart(locale) == Sun ==> DayColumn(date, locale) in {2, 3, 4, 5, 6, 7}
    ensures WeekStart(locale) == Sat ==> DayColumn(date, locale) in {1, 3, 4, 5, 6, 7, 8}
    ensures WeekStart(locale) == Mon ==> DayColumn(date, locale) in {1, 2, 3, 4, 5, 6, 7}
  {
  }

  /** The weekdays of the worked examples below. */
  lemma WeekdayExamples()
    ensures Weekday(Date(2024, 1, 8)) == 1
    ensures Weekday(Date(2024, 1, 13)) == 6
    ensures Weekday(Date(2024, 1, 14)) == 7
  {
    assert DaysBeforeYear(2024) == 738885;
    assert DayNumber(Date(2024, 1, 8)) == 738892 == 7 * 105556;
  }

  /** Worked examples: under a Sunday start, Monday 2024-01-08 and Sunday
      2024-01-14 share column 7; under a Saturday start, Saturday 2024-01-13 is in
      column 8 and Sunday 2024-01-14 in column 1. */
  lemma ColumnExamples()
    ensures DayColumn(Date(2024, 1, 8), "en-US") == 7 && DayColumn(Date(2024, 1, 14), "en-US") == 7
    ensures DayColumn(Date(2024, 1, 13), "ar-EG") == 8 && DayColumn(Date(2024, 1, 14), "ar-EG") == 1
  {
    WeekdayExamples();
    ExampleRegionSunday();
    ExampleRegionSaturday();
  }
}
