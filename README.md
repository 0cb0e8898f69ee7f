# Anonymous calendar: a verified model

This project models the core of a month-grid date picker (`AnonymousCalendar`).
The picker lays the days of one month out in columns. The columns follow a
week start (Sunday, Saturday or Monday) that it reads off a locale tag. The
user picks a range with clicks, and a pending range is previewed while the
pointer hovers a day. The modules follow the parts of the component:

- `Gregorian` holds the calendar arithmetic that the date library supplies. It
  covers month lengths, ISO weekdays, day and month arithmetic, and the order
  of start-of-day instants.
- `MonthDates` holds `getDates`. It builds the month as "first of the month
  plus i days" and then sorts it with the source's comparator.
- `Locale` holds `weekStart`. The locale pattern is a greedy left-to-right
  parser, and four fixed lists are copied from the source.
- `Grid` holds `getDayColumn` and `getWeekDayLabels`.
- `Picker` holds the selection state machine and the hover handlers. It also
  tags each day (`getClasses`). Its class `Calendar` has the component's four
  state variables, and methods that update them in place.

Properties proved:

- The generated month has exactly the month's day count. Element i is day
  i + 1, and consecutive elements are consecutive days, one weekday further.
  The sort leaves the month as it was built. Any ordering by the comparator
  gives that same sequence.
- The locale parser's match is a prefix of the tag. On any well-formed set of
  parts, parsing the rendered tag returns those parts.
- Subtags after the region, such as a variant, are ignored by the match.
- The week start is decided by the captured region alone when there is one,
  and otherwise by the language. The Sunday list is tried before the Saturday
  list. The two region lists share no code, and neither do the two language
  lists, so the order of the tries does not change the result. Lookups are
  case-sensitive: a language or a region starting with the other case than
  the lists' codes gives a Monday start.
- The column function and the header labels are proved as written, including
  where they disagree. Under a Sunday start, Monday and Sunday share column 7
  and column 1 stays empty. Under a Saturday start, Saturday lands in column 8.
  The header is rotated so that column 1 is labelled Sunday (Sunday start) or
  Saturday (Saturday start). So a day sits under its own weekday's label only
  under a Monday start, or for Monday to Friday under a Saturday start
  (`Grid.LabelAboveDay`).
- Clicks cycle through start, end and reset. The tags of a day are exactly
  the ones its state calls for, each at most once. Each handler method leaves
  the state equal to the pure transition applied to the old state.

Where the component's documented intent and its code disagree, the model
follows the code:

- A locale tag that does not begin with two letters makes the pattern match
  fail. The code then dereferences the failed match and throws. It does not
  fall back to a Monday start. The model states this as the precondition
  `StartsWithLanguage` on `WeekStart` and on everything that calls it.
- The code tries the Sunday lists before the Saturday lists, not the other
  way round. The lists are disjoint, so this cannot be observed
  (`Locale.ListOrderIrrelevant`).
- Under a Sunday start, Sunday is not put in column 1 (it stays in 7).
  Under a Saturday start, Saturday is put in column 8, not column 1.
- While a range is pending, the hovered day is tagged as the end even when it
  is not after the start (`Picker.HoverBeforeStart`).
- Leaving any day clears the hover, not only leaving the hovered day.
- The click callback passed in by the caller is never invoked.

## Model

| member | source | states |
|---|---|---|
| Gregorian.DaysInMonth | src/AnonymousCalendar.tsx:15 | A month has 28 to 31 days. It has 29 exactly for February of a leap year, 28 exactly for February otherwise, and 30 exactly for April, June, September and November. |
| Gregorian.Weekday | src/AnonymousCalendar.tsx:53 | The ISO weekday of a date is between 1 (Monday) and 7 (Sunday). |
| Gregorian.NextDay | src/AnonymousCalendar.tsx:16 | The next day of a valid date is a valid date. It is later in the order, and its day number is one more. |
| Gregorian.PlusDays | src/AnonymousCalendar.tsx:16 | Adding n days to a valid date gives a valid date whose day number is n more. |
| Gregorian.PlusDaysInMonth | src/AnonymousCalendar.tsx:16 | Adding days without leaving the month only moves the day of the month. |
| Gregorian.NextWeekday | src/AnonymousCalendar.tsx:53 | The weekday of the next day is the cyclic successor of the weekday. |
| Gregorian.BeforeIsDayOrder | src/AnonymousCalendar.tsx:19-20 | The lexicographic order on (year, month, day) is the order of day numbers, that is, of start-of-day instants. Equality agrees too. |
| Gregorian.AddMonths | src/AnonymousCalendar.tsx:14 | Adding months gives a valid month whose absolute month index (12 * year + month) moves by exactly that many. |
| Gregorian.AddMonthsStep | src/AnonymousCalendar.tsx:84 | Moving by -1, 0 or +1 month rolls the year over at January and December and otherwise changes only the month. |
| Gregorian.AddMonthsCompose | src/AnonymousCalendar.tsx:84 | Moving n months and then k months is moving n + k months. |
| MonthDates.Compare | src/AnonymousCalendar.tsx:18-23 | The comparator returns 1 exactly when the first date is later, -1 exactly when the second is later, and 0 exactly on equal dates. |
| MonthDates.Insert | src/AnonymousCalendar.tsx:18-23 | Insertion adds exactly the one element to the multiset. |
| MonthDates.InsertOrdered | src/AnonymousCalendar.tsx:18-23 | Inserting into an ordered sequence keeps it ordered. |
| MonthDates.Sort | src/AnonymousCalendar.tsx:18-23 | The sorted sequence is a permutation of the input and is ordered by the comparator. |
| MonthDates.SortOrdered | src/AnonymousCalendar.tsx:18-23 | Sorting an already ordered sequence leaves it unchanged. |
| MonthDates.OrderedUnique | src/AnonymousCalendar.tsx:18-23 | Two ordered sequences with the same elements are equal, so every algorithm sorting by this comparator gives the same month. |
| MonthDates.PlusDaysFromFirst | src/AnonymousCalendar.tsx:16 | The first of a month plus i days is day i + 1 of that month, for every day of it. |
| MonthDates.MonthDays | src/AnonymousCalendar.tsx:15-16 | The month built before sorting has the month's day count of elements, and element i is day i + 1 of the month. |
| MonthDates.GetDates | src/AnonymousCalendar.tsx:13-26 | The generated month has the day count of the month `steps` away from the anchor, and element i is day i + 1 of that month. |
| MonthDates.SortKeepsMonth | src/AnonymousCalendar.tsx:18-23 | The sort leaves the built month unchanged. |
| MonthDates.GetDatesConsecutive | src/AnonymousCalendar.tsx:13-26 | Every generated date is valid. Each next element is the next day and one weekday further on, and the sequence is strictly ascending. |
| Locale.LanguageLength | src/AnonymousCalendar.tsx:29 | The greedy two-or-three-letter language group matches exactly when the tag begins with two letters. It takes a third letter whenever one follows, and every character it takes is a letter. |
| Locale.Subtag | src/AnonymousCalendar.tsx:29 | An optional group is captured exactly when a '-', then the required number of characters of its class, then the end of the tag or a '-' follow. The capture is those characters. |
| Locale.MatchLocale | src/AnonymousCalendar.tsx:29-31 | The pattern matches exactly the tags that begin with two letters. |
| Locale.MatchLocaleWellFormed | src/AnonymousCalendar.tsx:29 | Every match has parts of the shapes the pattern allows. |
| Locale.MatchLocaleCovers | src/AnonymousCalendar.tsx:29 | The captured parts joined by '-' form a prefix of the tag. |
| Locale.MatchLocaleRender | src/AnonymousCalendar.tsx:29 | Parsing the rendering of any well-formed set of parts gives back exactly those parts. |
| Locale.SubtagBeforeRest | src/AnonymousCalendar.tsx:29 | A group tried inside a prefix captures the same thing whether the prefix is followed by nothing or by text starting with '-'. |
| Locale.MatchLocaleTrailing | src/AnonymousCalendar.tsx:29 | With a region present, any text after the rendered parts that is empty or starts with '-' is ignored: the match gives back exactly the parts. |
| Locale.ExampleTrailingVariant | src/AnonymousCalendar.tsx:29-30 | en-US-POSIX captures language en and region US, and starts on Sunday. |
| Locale.WeekStart | src/AnonymousCalendar.tsx:28-47 | The week start of a tag. Its contract is carried by the lemmas below: WeekStartDecision (the decision order), RegionDecides and LanguageDecides (what decides), and ListOrderIrrelevant (the order of the list tries is unobservable). |
| Locale.WeekStartDecision | src/AnonymousCalendar.tsx:38-46 | With a region captured, the week starts on Sunday exactly when the region is on the Sunday list. It starts on Saturday exactly when the region is on the Saturday list and not the Sunday list, and on Monday otherwise. Without a region, the same holds for the language and the language lists. |
| Locale.RegionDecides | src/AnonymousCalendar.tsx:38-40 | Two tags whose captured regions are equal have the same week start, whatever their languages. |
| Locale.LanguageDecides | src/AnonymousCalendar.tsx:41-44 | Two tags without a region and with equal languages have the same week start. |
| Locale.LanguageCodesLower | src/AnonymousCalendar.tsx:35-36 | Every code on the language lists begins with two lower-case letters. |
| Locale.RegionCodesUpper | src/AnonymousCalendar.tsx:33-34 | Every code on the region lists is exactly two upper-case letters. |
| Locale.LowerCaseRegionIsMonday | src/AnonymousCalendar.tsx:38-40 | A tag whose captured region starts with a lower-case letter gets a Monday start, because the lookups are case-sensitive. |
| Locale.LanguageListsDisjoint | src/AnonymousCalendar.tsx:35-36 | No language code is on both language lists. |
| Locale.RegionListsDisjoint | src/AnonymousCalendar.tsx:33-34 | No region code is on both region lists. |
| Locale.ListOrderIrrelevant | src/AnonymousCalendar.tsx:38-46 | Trying the Saturday list before the Sunday list would give the same week start for every tag. |
| Locale.UpperCaseLanguageIsMonday | src/AnonymousCalendar.tsx:42-43 | A tag without a region whose language starts with an upper-case letter gets a Monday start, because the lookups are case-sensitive. |
| Locale.ExampleRegionSunday | src/AnonymousCalendar.tsx:34 | en-US and zh-Hant-TW start on Sunday. |
| Locale.ExampleRegionSaturday | src/AnonymousCalendar.tsx:33 | ar-EG starts on Saturday. |
| Locale.ExampleRegionMonday | src/AnonymousCalendar.tsx:46 | en-GB starts on Monday. |
| Locale.ExampleRegionCase | src/AnonymousCalendar.tsx:39-40 | en-us starts on Monday: the pattern captures the lower-case region, and the lists hold upper-case codes. |
| Locale.ExampleNumericRegion | src/AnonymousCalendar.tsx:29 | es-419 captures the numeric region 419 and starts on Monday. |
| Locale.ExampleLanguage | src/AnonymousCalendar.tsx:35-36 | en starts on Sunday and arq on Saturday. |
| Locale.ExampleExtlangNotRegion | src/AnonymousCalendar.tsx:29 | In en-USA, "USA" is captured as the extended language, not as a region, so the language decides: Sunday. |
| Locale.ExampleLanguageCase | src/AnonymousCalendar.tsx:42-43 | EN starts on Monday. |
| Grid.DayColumn | src/AnonymousCalendar.tsx:49-63 | The column is between 1 and 8. Under a Monday start it is the ISO weekday. Under a Sunday start it is 7 exactly for Monday and Sunday, and otherwise the weekday, never 1. Under a Saturday start it is 1 exactly for Sunday, and otherwise the weekday plus 2, never 2. |
| Grid.ColumnsUsed | src/AnonymousCalendar.tsx:49-63 | The columns each week start uses: 2-7 for a Sunday start, 1 and 3-8 for a Saturday start, 1-7 for a Monday start. |
| Grid.WeekdayExamples | src/AnonymousCalendar.tsx:53 | 2024-01-08 is a Monday, 2024-01-13 a Saturday and 2024-01-14 a Sunday. |
| Grid.ColumnExamples | src/AnonymousCalendar.tsx:52-59 | Under en-US, Monday 2024-01-08 and Sunday 2024-01-14 both go to column 7. Under ar-EG, Saturday 2024-01-13 goes to column 8 and Sunday 2024-01-14 to column 1. |
| Grid.LabelsFor | src/AnonymousCalendar.tsx:69-75 | The reordered labels are the seven names rotated right by 0, 1 or 2 places for a Monday, Sunday or Saturday start. |
| Grid.WeekDayLabels | src/AnonymousCalendar.tsx:65-76 | The header labels are the Monday-first names rotated right by the locale's week start offset. |
| Grid.LabelsArePermutation | src/AnonymousCalendar.tsx:65-76 | The header has seven labels, and they are the seven names, each as often as before. |
| Grid.LabelAboveDay | src/AnonymousCalendar.tsx:49-76 | A day sits under its own weekday's header label exactly under a Monday start, or under a Saturday start for Monday to Friday. |
| Picker.Click | src/AnonymousCalendar.tsx:122-132 | With nothing chosen, the clicked day becomes the start. With only a start, it becomes the end, unordered. Once an end is set, the selection is cleared. The hover is never touched, and an end never exists without a start. |
| Picker.ClickPreserves | src/AnonymousCalendar.tsx:122-132 | A click keeps an end only with a start and leaves the hover alone. |
| Picker.ClickCycle | src/AnonymousCalendar.tsx:122-132 | From an empty selection, clicks A, B, C give start A, then range A to B, then empty; a fourth click D gives start D. |
| Picker.MouseOver | src/AnonymousCalendar.tsx:151 | Entering a day makes it the hovered day exactly when no day or that same day was hovered; otherwise the hover is unchanged. The selection is untouched. |
| Picker.HoverIsSticky | src/AnonymousCalendar.tsx:151 | While another day is hovered, entering a day changes nothing. |
| Picker.MouseOut | src/AnonymousCalendar.tsx:152 | Leaving a day clears the hover and keeps the selection. |
| Picker.HoverThenLeave | src/AnonymousCalendar.tsx:151-152 | Entering the same day twice is entering it once, and entering then leaving leaves the state with the hover cleared. |
| Picker.CommittedTags | src/AnonymousCalendar.tsx:97-107 | A day is tagged as the start exactly when it is the start, and as the end exactly when it is the end. It is filled exactly when both are set and it lies strictly between them. No tag repeats. |
| Picker.PreviewTags | src/AnonymousCalendar.tsx:109-115 | While a range is pending with a hovered day, a day is filled exactly when it lies strictly between the start and the hovered day. It is tagged as the end exactly when it is the hovered day. There is at most one such tag. |
| Picker.StateTags | src/AnonymousCalendar.tsx:93-115 | The day is tagged today exactly when it is today, and as the start exactly when it is the start. It is tagged as the end exactly when it is the committed end or the hovered day of a pending range. It is filled exactly when it lies strictly inside the committed range or inside the pending range up to the hovered day. No tag repeats. |
| Picker.Tags | src/AnonymousCalendar.tsx:88-118 | The tags start with `day` and the day's grid column, then come the state tags, and no tag repeats. |
| Picker.InvertedRangeFillsNothing | src/AnonymousCalendar.tsx:105-107 | A committed range whose end is before its start fills no day, and still marks both clicked days. |
| Picker.HoverOnStart | src/AnonymousCalendar.tsx:109-114 | Hovering the start day itself marks it both start and end and fills no day. |
| Picker.HoverBeforeStart | src/AnonymousCalendar.tsx:109-114 | Hovering a day before the start tags that day as the end and fills no day. |
| Picker.HoverPreviewExample | src/AnonymousCalendar.tsx:109-115 | With start 2024-01-10 and hover on 2024-01-15, the 11th to 14th are filled, the 15th is the end and the 10th the start. After the pointer leaves, only the start mark remains. |
| Picker.Calendar.constructor | src/AnonymousCalendar.tsx:79-82 | The component opens on the given month with no start, end or hovered day. |
| Picker.Calendar.OnMonthScrollClicked | src/AnonymousCalendar.tsx:84 | The month cursor moves by the step and the selection and hover are unchanged. |
| Picker.Calendar.CalendarDates | src/AnonymousCalendar.tsx:85 | The grid's days are exactly the days of the cursor's month, day i + 1 at position i. |
| Picker.Calendar.OnDayClicked | src/AnonymousCalendar.tsx:122-132 | The new state is the click transition of the old state, and the month cursor is unchanged. |
| Picker.Calendar.OnMouseOver | src/AnonymousCalendar.tsx:151 | The new state is the hover-enter transition of the old one, and the month cursor is unchanged. |
| Picker.Calendar.OnMouseOut | src/AnonymousCalendar.tsx:152 | The new state is the hover-leave transition of the old one, and the month cursor is unchanged. |
| Picker.Calendar.GetClasses | src/AnonymousCalendar.tsx:88-118 | The tags appended one condition at a time are exactly the tags of the day in the current state. |
| Picker.Calendar.AppendCommitted | src/AnonymousCalendar.tsx:97-107 | The start, end and committed-fill checks append exactly the committed tags. |
| Picker.Calendar.AppendPreview | src/AnonymousCalendar.tsx:109-115 | The pending-range checks append exactly the preview tags. |
| Picker.Calendar.AppendStateTags | src/AnonymousCalendar.tsx:93-115 | The today check followed by the selection checks appends exactly the state tags. |

## Left out

- Rendering: the JSX tree, the CSS class strings (the model yields `Tag` values in the order the class string lists them), the header buttons, the month title and the random element keys. None of these affects the calendar logic.
- The date library: a date is a proleptic Gregorian (year, month, day) triple standing for its start-of-day instant. Time zones, times of day and the library's internal representation are not modelled.
- The month cursor is a year and month. The day of month that the library clamps when adding months is dropped, because the month is always read through its first day.
- The short weekday names come from the runtime's locale data. They are a parameter of `Grid.WeekDayLabels` (Monday first), and the caller's label override is not modelled.
- The ambient locale from the browser and today's date from the clock are inputs: the `locale` and `today` parameters.
- React's state hooks, memoisation, callbacks and the effect that copies the caller's month into the cursor are not modelled. Neither are batching and stale closures. Each handler is one atomic update of the state object.
- Locale.WeekStart: tags that do not begin with two letters are excluded by the precondition. The source throws on them, and the model does not represent the exception.
- Locale.MatchLocale: models this one pattern, not general regular-expression matching.

