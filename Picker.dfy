/** The date picker component: its selection and hover state, the handlers that
    change it, and the visual tags each day of the grid is given. */
module Picker {
  import opened Wrappers
  import opened Gregorian
  import opened Locale
  import opened Grid
  import opened MonthDates

  /** The visual-state tags of a day: `day`, `grid-column-<n>`, `today`,
      `selection-start`, `selection-end` and `selection`. */
  datatype Tag = Day | GridColumn(column: int) | Today | SelectionStart | SelectionEnd | InSelection

  /** The selection state: the clicked start and end days and the hovered day. */
  datatype Selection = Selection(start: Option<Date>, end: Option<Date>, hovered: Option<Date>)

  const Empty := Selection(None, None, None)

  /** An end is only ever chosen after a start. */
  predicate Consistent(s: Selection) {
    s.end.Some? ==> s.start.Some?
  }

  /** a < d < b, strictly. */
  predicate Between(a: Date, d: Date, b: Date) {
    Before(a, d) && Before(d, b)
  }

  /** Both days clicked: the committed range is shown. */
  predicate Committed(s: Selection) {
    s.start.Some? && s.end.Some?
  }

  /** A start, no end and a hovered day: the pending range is previewed. */
  predicate Previewing(s: Selection) {
    s.start.Some? && s.hovered.Some? && s.end.None?
  }

  // ---------------------------------------------------------------------------
  // Transitions

  /** A click on a day: with nothing chosen it becomes the start; with only a
      start it becomes the end, even if it is earlier; otherwise the selection is
      cleared and the clicked day is dropped. The hovered day is not touched. */
  function Click(s: Selection, day: Date): (r: Selection)
    ensures r.hovered == s.hovered
    ensures Consistent(r)
    ensures s.start.None? && s.end.None? ==> r.start == Some(day) && r.end.None?
    ensures s.start.Some? && s.end.None? ==> r.start == s.start && r.end == Some(day)
    ensures s.end.Some? ==> r.start.None? && r.end.None?
  {
    if s.start.None? && s.end.None? then s.(start := Some(day))
    else if s.start.Some? && s.end.None? then s.(end := Some(day))
    else s.(start := None, end := None)
  }

  /** The pointer enters a day: it becomes the hovered day only if no day is
      hovered or the same day already is. */
  function MouseOver(s: Selection, day: Date): (r: Selection)
    ensures r.start == s.start && r.end == s.end
    ensures r.hovered == Some(day) <==> s.hovered.None? || s.hovered == Some(day)
    ensures r.hovered != Some(day) ==> r.hovered == s.hovered
  {
    if s.hovered.None? || s.hovered == Some(day) then s.(hovered := Some(day)) else s
  }

  /** The pointer leaves a day: the hovered day is cleared. */
  function MouseOut(s: Selection): (r: Selection)
    ensures r.start == s.start && r.end == s.end && r.hovered.None?
  {
    if s.hovered.Some? then s.(hovered := None) else s
  }

  // ---------------------------------------------------------------------------
  // Tags

  /** No tag occurs twice. */
  predicate NoRepeats(r: seq<Tag>) {
    forall i, j :: 0 <= i < j < |r| ==> r[i] != r[j]
  }

  /** The tags the clicked start and end give a day. */
  function CommittedTags(s: Selection, day: Date): (r: seq<Tag>)
    ensures forall t :: t in r ==> t == SelectionStart || t == SelectionEnd || t == InSelection
    ensures SelectionStart in r <==> s.start == Some(day)
    ensures SelectionEnd in r <==> s.end == Some(day)
    ensures InSelection in r <==> Committed(s) && Between(s.start.value, day, s.end.value)
    ensures NoRepeats(r)
  {
    (if s.start == Some(day) then [SelectionStart] else [])
    + (if s.end == Some(day) then [SelectionEnd] else [])
    + (if Committed(s) && Before(s.start.value, day) && Before(day, s.end.value) then [InSelection] else [])
  }

  /** The tags the pending range previewed up to the hovered day gives a day. */
  function PreviewTags(s: Selection, day: Date): (r: seq<Tag>)
    ensures |r| <= 1
    ensures forall t :: t in r ==> t == SelectionEnd || t == InSelection
    ensures InSelection in r <==> Previewing(s) && Between(s.start.value, day, s.hovered.value)
    ensures SelectionEnd in r <==> Previewing(s) && s.hovered == Some(day)
  {
    if Previewing(s) then
      if Before(s.start.value, day) && Before(day, s.hovered.value) then [InSelection]
      else if day == s.hovered.value then [SelectionEnd]
      else []
    else []
  }

  /** Joining two sequences without repeats and without a common tag gives none. */
  lemma NoRepeatsAppend(a: seq<Tag>, b: seq<Tag>)
    requires NoRepeats(a) && NoRepeats(b)
    requires forall t :: t in a ==> t !in b
    ensures NoRepeats(a + b)
  {
    forall i, j | 0 <= i < j < |a + b|
      ensures (a + b)[i] != (a + b)[j]
    {
      if i < |a| && |a| <= j {
        assert (a + b)[i] in a && (a + b)[j] in b;
      }
    }
  }

  /** The tags of one day that depend on the date and the selection, in the
      order they are appended. */
  function StateTags(s: Selection, day: Date, today: Date): (r: seq<Tag>)
    ensures forall t :: t in r ==> t == Today || t == SelectionStart || t == SelectionEnd || t == InSelection
    ensures Today in r <==> day == today
    ensures SelectionStart in r <==> s.start == Some(day)
    ensures SelectionEnd in r <==> s.end == Some(day) || (Previewing(s) && s.hovered == Some(day))
    ensures InSelection in r <==>
      || (Committed(s) && Between(s.start.value, day, s.end.value))
      || (Previewing(s) && Between(s.start.value, day, s.hovered.value))
    ensures NoRepeats(r)
  {
    var today := if day == today then [Today] else [];
    var committed, preview := CommittedTags(s, day), PreviewTags(s, day);
    NoRepeatsAppend(today, committed);
    NoRepeatsAppend(today + committed, preview);
    today + committed + preview
  }

  lemma AppendAssociates(a: seq<Tag>, b: seq<Tag>, c: seq<Tag>, d: seq<Tag>)
    ensures a + b + c + d == a + (b + c + d)
  {
  }

  /** A column tag put after `day` and in front of state tags repeats nothing. */
  lemma FixedTagsFirst(column: Tag, rest: seq<Tag>)
    requires column.GridColumn? && NoRepeats(rest)
    requires forall t :: t in rest ==> t == Today || t == SelectionStart || t == SelectionEnd || t == InSelection
    ensures NoRepeats([Day, column] + rest) && ([Day, column] + rest)[2..] == rest
  {
    NoRepeatsAppend([Day, column], rest);
  }

  /** All tags of one day of the grid: `day` and its column first, then the
      tags the date and the selection give it; none occurs twice. */
  function Tags(s: Selection, day: Date, today: Date, locale: string): (r: seq<Tag>)
    requires 1 <= day.month <= 12 && StartsWithLanguage(locale)
    ensures |r| >= 2 && r[0] == Day && r[1] == GridColumn(DayColumn(day, locale))
    ensures r[2..] == StateTags(s, day, today)
    ensures NoRepeats(r)
  {
    var column, rest := GridColumn(DayColumn(day, locale)), StateTags(s, day, today);
    FixedTagsFirst(column, rest);
    [Day, column] + rest
  }

  // ---------------------------------------------------------------------------
  // The component

  /** The component's state, updated in place by its event handlers. */
  class Calendar {
    var currentMonth: YearMonth
    var dayHovered: Option<Date>
    var startDate: Option<Date>
    var endDate: Option<Date>

    ghost predicate Valid()
      reads this
    {
      ValidMonth(currentMonth) && Consistent(State())
    }

    function State(): Selection
      reads this
    {
      Selection(startDate, endDate, dayHovered)
    }

    /** Opens on the current month with nothing selected or hovered. */
    constructor (now: YearMonth)
      requires ValidMonth(now)
      ensures Valid()
      ensures currentMonth == now && State() == Empty
    {
      currentMonth := now;
      dayHovered := None;
      startDate := None;
      endDate := None;
    }

    /** Moves the month cursor by `step` months. */
    method OnMonthScrollClicked(step: int)
      requires Valid()
      modifies this
      ensures Valid()
      ensures currentMonth == AddMonths(old(currentMonth), step)
      ensures State() == old(State())
    {
      currentMonth := AddMonths(currentMonth, step);
    }

    /** The days of the month under the cursor. */
    function CalendarDates(): (dates: seq<Date>)
      reads this
      requires Valid()
      ensures |dates| == DaysInMonth(currentMonth.year, currentMonth.month)
      ensures forall i :: 0 <= i < |dates| ==> dates[i] == Date(currentMonth.year, currentMonth.month, i + 1)
    {
      AddMonthsStep(currentMonth, 0);
      GetDates(currentMonth, 0)
    }

    method OnDayClicked(day: Date)
      requires Valid()
      modifies this
      ensures Valid()
      ensures State() == Click(old(State()), day)
      ensures currentMonth == old(currentMonth)
    {
      if startDate.None? && endDate.None? {
        startDate := Some(day);
      } else if startDate.Some? && endDate.None? {
        endDate := Some(day);
      } else {
        startDate := None;
        endDate := None;
      }
    }

    method OnMouseOver(day: Date)
      requires Valid()
      modifies this
      ensures Valid()
      ensures State() == MouseOver(old(State()), day)
      ensures currentMonth == old(currentMonth)
    {
      if dayHovered.None? || dayHovered == Some(day) {
        dayHovered := Some(day);
      }
    }

    method OnMouseOut()
      requires Valid()
      modifies this
      ensures Valid()
      ensures State() == MouseOut(old(State()))
      ensures currentMonth == old(currentMonth)
    {
      if dayHovered.Some? {
        dayHovered := None;
      }
    }

    /** The tags of one day, built up one condition at a time. */
    method GetClasses(value: Date, today: Date, locale: string) returns (result: seq<Tag>)
      requires 1 <= value.month <= 12 && StartsWithLanguage(locale)
      ensures result == Tags(State(), value, today, locale)
    {
      var column := GridColumn(DayColumn(value, locale));
      result := [Day];
      result := result + [column];
      assert result == [Day, column];
      result := AppendStateTags(result, value, today);
    }

    /** Appends the tags the date and the selection give a day. */
    method AppendStateTags(prefix: seq<Tag>, value: Date, today: Date) returns (result: seq<Tag>)
      ensures result == prefix + StateTags(State(), value, today)
    {
      result := prefix;
      ghost var mark: seq<Tag> := [];
      if value == today {
        result := result + [Today];
        mark := [Today];
      }
      assert result == prefix + mark;
      result := AppendCommitted(result, value);
      result := AppendPreview(result, value);
      AppendAssociates(prefix, mark, CommittedTags(State(), value), PreviewTags(State(), value));
    }

    /** Appends the tags the clicked start and end give a day. */
    method AppendCommitted(prefix: seq<Tag>, value: Date) returns (result: seq<Tag>)
      ensures result == prefix + CommittedTags(State(), value)
    {
      result := prefix;
      if startDate.Some? && startDate.value == value {
        result := result + [SelectionStart];
      }
      if endDate.Some? && endDate.value == value {
        result := result + [SelectionEnd];
      }
      if startDate.Some? && endDate.Some? && Before(startDate.value, value) && Before(value, endDate.value) {
        result := result + [InSelection];
      }
    }

    /** Appends the tags the previewed range gives a day. */
    method AppendPreview(prefix: seq<Tag>, value: Date) returns (result: seq<Tag>)
      ensures result == prefix + PreviewTags(State(), value)
    {
      result := prefix;
      if startDate.Some? && dayHovered.Some? && endDate.None? {
        if Before(startDate.value, value) && Before(value, dayHovered.value) {
          result := result + [InSelection];
        } else if value == dayHovered.value {
          result := result + [SelectionEnd];
        }
      }
    }
  }

  // ---------------------------------------------------------------------------
  // Lemmas

  /** Clicking keeps the selection consistent and never touches the hover. */
  lemma ClickPreserves(s: Selection, day: Date)
    requires Consistent(s)
    ensures Consistent(Click(s, day)) && Click(s, day).hovered == s.hovered
  {
  }

  /** Three clicks from an empty selection pick a start, pick an end and clear
      the selection again; a fourth click starts afresh. */
  lemma ClickCycle(s: Selection, a: Date, b: Date, c: Date, d: Date)
    requires s.start.None? && s.end.None?
    ensures Click(s, a) == Selection(Some(a), None, s.hovered)
    ensures Click(Click(s, a), b) == Selection(Some(a), Some(b), s.hovered)
    ensures Click(Click(Click(s, a), b), c) == Selection(None, None, s.hovered)
    ensures Click(Click(Click(Click(s, a), b), c), d) == Selection(Some(d), None, s.hovered)
  {
  }

  /** Hovering the same day again changes nothing, and leaving clears the hover. */
  lemma HoverThenLeave(s: Selection, day: Date)
    ensures MouseOver(MouseOver(s, day), day) == MouseOver(s, day)
    ensures MouseOut(MouseOver(s, day)) == s.(hovered := None)
  {
  }

  /** While one day is hovered, entering another day is ignored. */
  lemma HoverIsSticky(s: Selection, day: Date)
    requires s.hovered.Some? && s.hovered != Some(day)
    ensures MouseOver(s, day) == s
  {
  }

  /** A committed range clicked end-first fills no day in between, and still
      marks both clicked days. */
  lemma InvertedRangeFillsNothing(s: Selection, day: Date, today: Date)
    requires Committed(s) && Before(s.end.value, s.start.value)
    ensures InSelection !in StateTags(s, day, today)
    ensures SelectionStart in StateTags(s, s.start.value, today)
    ensures SelectionEnd in StateTags(s, s.end.value, today)
  {
  }

  /** Hovering the start day itself previews a one-day range: the start day is
      tagged as both start and end, and no day is filled. */
  lemma HoverOnStart(start: Date, day: Date, today: Date)
    ensures var s := Selection(Some(start), None, Some(start));
      && SelectionStart in StateTags(s, start, today)
      && SelectionEnd in StateTags(s, start, today)
      && InSelection !in StateTags(s, day, today)
  {
  }

  /** Hovering a day before the start tags it as the end and fills nothing. */
  lemma HoverBeforeStart(start: Date, hovered: Date, day: Date, today: Date)
    requires Before(hovered, start)
    ensures var s := Selection(Some(start), None, Some(hovered));
      && SelectionEnd in StateTags(s, hovered, today)
      && InSelection !in StateTags(s, day, today)
  {
  }

  /** The worked example: start 2024-01-10 and hover on 2024-01-15 fill the
      11th to the 14th, mark the 15th as the end and the 10th as the start;
      after the pointer leaves, only the start mark remains. */
  lemma HoverPreviewExample(day: int, today: Date)
    requires 10 <= day <= 15
    ensures var s := Selection(Some(Date(2024, 1, 10)), None, Some(Date(2024, 1, 15)));
      var tags := StateTags(s, Date(2024, 1, day), today);
      var after := StateTags(MouseOut(s), Date(2024, 1, day), today);
      && (InSelection in tags <==> 11 <= day <= 14)
      && (SelectionEnd in tags <==> day == 15)
      && (SelectionStart in tags <==> day == 10)
      && InSelection !in after && SelectionEnd !in after
      && (SelectionStart in after <==> day == 10)
  {
  }
}
